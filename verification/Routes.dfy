/** Route-list mode: user routes become a TABLE_DUMP_V2 dump or a stream of BGP4MP updates. */
module Routes {
  import opened Bytes
  import opened Writer
  import opened Framing
  import opened Bgp
  import opened Records
  import opened Corpora
  import FlowSpec
  import FlowSpecDomains

  datatype Format = TableDumpV2 | Bgp4mpUpdates

  datatype Aggregator = Aggregator(asn: u32, id: Octets4)
  datatype LargeCommunity = LargeCommunity(global: u32, local1: u32, local2: u32)

  /** An address of either family. */
  type Address = s: seq<byte> | |s| == 4 || |s| == 16 witness [0, 0, 0, 0]

  /** A route as the user gives it, after its text fields are parsed; traffic-filtering actions are
      given as the extended communities they stand for. */
  datatype RouteSpec = RouteSpec(
    prefix: Option<FlowSpec.Prefix>,
    nexthop: Option<Address>,
    asPath: Option<seq<u32>>,
    origin: Option<byte>,
    med: Option<u32>,
    localPref: Option<u32>,
    atomicAggregate: bool,
    aggregator: Option<Aggregator>,
    originatorId: Option<Octets4>,
    clusterList: seq<Octets4>,
    aigp: Option<u64>,
    stdComms: seq<u32>,
    extComms: seq<Octets8>,
    ipv6ExtComms: seq<Octets20>,
    largeComms: seq<LargeCommunity>,
    pathId: Option<u32>,
    rd: Option<Octets8>,
    mpls: Option<u32>,
    flowspec: Option<FlowSpec.Rule>,
    actions: Option<seq<Octets8>>,
    expected: Option<Expect>,
    rawAttributes: seq<Attr>)

  // ---------------------------------------------------------------- validation

  datatype RouteFields = RouteFields(
    v6: bool, prefix: seq<byte>, bits: byte, nexthop: seq<byte>, origin: byte, asPath: seq<u32>,
    extComms: seq<Octets8>, rd: Option<Octets8>, mpls: u32, flowNlri: Option<seq<byte>>, expected: Expect)
  {
    predicate Target() {
      if flowNlri.Some? then
        prefix == [] && bits == 0 && rd.None? && (nexthop == [] || |nexthop| == WidthOf(v6))
      else
        |prefix| == WidthOf(v6) && bits <= 8 * |prefix| && |nexthop| == WidthOf(v6)
    }

    /** What validation leaves for the encoders to rely on. */
    predicate Checked() {
      && Target() && mpls < LABEL_LIMIT && origin <= 2 && expected != Abort
      && (expected == Valid ==> |asPath| <= 255 && !PrefixHasHostBits(prefix, bits))
    }
  }

  type ParsedRoute = p: RouteFields | p.Checked()
    witness RouteFields(false, [0, 0, 0, 0], 0, [0, 0, 0, 0], 0, [], [], None, 0, None, Valid)

  /** What a route announces: a prefix, or the NLRI of a rule. */
  datatype Announced = Announced(v6: bool, prefix: seq<byte>, bits: byte, flowNlri: Option<seq<byte>>)

  function ParseExpected(r: RouteSpec): Result<Expect> {
    var e := r.expected.GetOr(Valid);
    if e == Abort then Err else Ok(e)
  }

  function ParseTarget(r: RouteSpec, expected: Expect): Result<Announced> {
    if r.prefix.Some? == r.flowspec.Some? then Err
    else if r.prefix.Some? then
      var p := r.prefix.value;
      if expected == Valid && PrefixHasHostBits(p.addr, p.bits) then Err
      else Ok(Announced(p.v6, p.addr, p.bits, None))
    else
      var rule := r.flowspec.value;
      if expected == Valid && (!FlowSpecDomains.ValidateDomains(rule) || rule.rawComponents.Some?) then Err else
      var (nlri, v6) :- FlowSpec.Encode(rule);
      Ok(Announced(v6, [], 0, Some(nlri)))
  }

  function ParseNextHop(r: RouteSpec, a: Announced): Result<seq<byte>> {
    match r.nexthop
    case Some(nh) => if |nh| == WidthOf(a.v6) then Ok(nh) else Err
    case None => if a.flowNlri.Some? then Ok([]) else Err
  }

  /** Fields that only make sense together. */
  predicate Compatible(r: RouteSpec) {
    && (r.actions.Some? ==> r.flowspec.Some?)
    && !(r.rd.Some? && r.flowspec.Some?)
    && (r.mpls.Some? ==> r.rd.Some?)
    && r.mpls.GetOr(0) < LABEL_LIMIT
  }

  const DEFAULT_AS: u32 := 64500

  function ParseRoute(r: RouteSpec): Result<ParsedRoute> {
    var expected :- ParseExpected(r);
    var a :- ParseTarget(r, expected);
    var nexthop :- ParseNextHop(r, a);
    var asPath, origin := r.asPath.GetOr([DEFAULT_AS]), r.origin.GetOr(0);
    if !Compatible(r) || (expected == Valid && |asPath| > 255) || origin > 2 then Err else
    Ok(RouteFields(a.v6, a.prefix, a.bits, nexthop, origin, asPath, r.extComms + r.actions.GetOr([]),
             r.rd, r.mpls.GetOr(0), a.flowNlri, expected))
  }

  function ParseAll(routes: seq<RouteSpec>): (r: Result<seq<ParsedRoute>>)
    ensures r.Ok? ==> |r.value| == |routes|
  {
    Collect(routes, ParseRoute)
  }

  // ---------------------------------------------------------------- attributes

  const OPT_TRANS: byte := 0xC0

  /** What every route carries in front of its next-hop carrier. */
  function HeadAttrs(p: ParsedRoute): seq<Attr> {
    [ Attr(FLAG_TRANSITIVE, ATTR_ORIGIN, [p.origin]),
      Attr(FLAG_TRANSITIVE, ATTR_AS_PATH, AsPathValue(p.asPath)) ]
  }

  /** An attribute that a route carries only when it has something to say there. */
  datatype Slot = Slot(present: bool, attr: Attr)

  function Chosen(slots: seq<Slot>): seq<Attr> {
    if slots == [] then [] else
    var init, last := Chosen(slots[..|slots| - 1]), slots[|slots| - 1];
    if last.present then init + [last.attr] else init
  }

  function OptU32(v: Option<u32>): seq<byte> { if v.Some? then U32(v.value) else [] }

  function AggregatorValue(a: Option<Aggregator>): seq<byte> {
    if a.Some? then U32(a.value.asn) + a.value.id else []
  }

  /** A metric of eight octets inside one TLV of type 1 and length 11. */
  function AigpValue(metric: u64): seq<byte> { [1] + U16(11) + U64(metric) }

  function LargeParts(cs: seq<LargeCommunity>): (parts: seq<seq<byte>>)
    ensures |parts| == |cs|
  {
    seq(|cs|, i requires 0 <= i < |cs| => U32(cs[i].global) + U32(cs[i].local1) + U32(cs[i].local2))
  }

  function MedSlot(r: RouteSpec): Slot {
    Slot(r.med.Some?, Attr(FLAG_OPTIONAL, ATTR_MULTI_EXIT_DISC, OptU32(r.med)))
  }
  function LocalPrefSlot(r: RouteSpec): Slot {
    Slot(r.localPref.Some?, Attr(FLAG_TRANSITIVE, ATTR_LOCAL_PREF, OptU32(r.localPref)))
  }
  function AtomicSlot(r: RouteSpec): Slot {
    Slot(r.atomicAggregate, Attr(FLAG_TRANSITIVE, ATTR_ATOMIC_AGGREGATE, []))
  }
  function AggregatorSlot(r: RouteSpec): Slot {
    Slot(r.aggregator.Some?, Attr(OPT_TRANS, ATTR_AGGREGATOR, AggregatorValue(r.aggregator)))
  }
  function CommunitySlot(r: RouteSpec): Slot {
    Slot(r.stdComms != [], Attr(OPT_TRANS, ATTR_COMMUNITY, Flat(WordsOf(r.stdComms))))
  }
  function OriginatorSlot(r: RouteSpec): Slot {
    Slot(r.originatorId.Some?, Attr(FLAG_OPTIONAL, ATTR_ORIGINATOR_ID, r.originatorId.GetOr([0, 0, 0, 0])))
  }
  function ClusterSlot(r: RouteSpec): Slot {
    Slot(r.clusterList != [], Attr(FLAG_OPTIONAL, ATTR_CLUSTER_LIST, Flat(r.clusterList)))
  }
  function ExtSlot(p: ParsedRoute): Slot {
    Slot(p.extComms != [], Attr(OPT_TRANS, ATTR_EXT_COMMUNITY, Flat(p.extComms)))
  }
  function Ipv6ExtSlot(r: RouteSpec): Slot {
    Slot(r.ipv6ExtComms != [], Attr(OPT_TRANS, ATTR_IPV6_EXT_COMMUNITY, Flat(r.ipv6ExtComms)))
  }
  function AigpSlot(r: RouteSpec): Slot {
    Slot(r.aigp.Some?, Attr(FLAG_OPTIONAL, ATTR_AIGP, AigpValue(r.aigp.GetOr(0))))
  }
  function LargeSlot(r: RouteSpec): Slot {
    Slot(r.largeComms != [], Attr(OPT_TRANS, ATTR_LARGE_COMMUNITY, Flat(LargeParts(r.largeComms))))
  }

  function TailSlots(p: ParsedRoute, r: RouteSpec): (slots: seq<Slot>)
    ensures |slots| == 11
  {
    [ MedSlot(r), LocalPrefSlot(r), AtomicSlot(r), AggregatorSlot(r), CommunitySlot(r), OriginatorSlot(r),
      ClusterSlot(r), ExtSlot(p), Ipv6ExtSlot(r), AigpSlot(r), LargeSlot(r) ]
  }

  /** Everything behind the next-hop carrier, the user's own attributes last. */
  function TailAttrs(p: ParsedRoute, r: RouteSpec): seq<Attr> {
    Chosen(TailSlots(p, r)) + r.rawAttributes
  }

  lemma ChosenSnoc(slots: seq<Slot>, k: nat)
    requires k < |slots|
    ensures Chosen(slots[..k + 1]) ==
            if slots[k].present then Chosen(slots[..k]) + [slots[k].attr] else Chosen(slots[..k])
  {
    assert slots[..k + 1][..k] == slots[..k];
  }

  /** The attribute buffer after the first k slots. */
  ghost predicate Filled(tail: seq<byte>, slots: seq<Slot>, k: nat) {
    k <= |slots| && tail == AttrsBytes(Chosen(slots[..k]))
  }

  method Extend(tail: seq<byte>, present: bool, flags: byte, code: byte, value: seq<byte>,
                ghost slots: seq<Slot>, ghost k: nat) returns (more: seq<byte>)
    requires Filled(tail, slots, k) && k < |slots| && slots[k] == Slot(present, Attr(flags, code, value))
    ensures Filled(more, slots, k + 1)
  {
    more := tail;
    ChosenSnoc(slots, k);
    if present {
      var a := Attribute(flags, code, value);
      AttrsSnoc(Chosen(slots[..k]), slots[k].attr);
      more := tail + a;
    }
  }

  method WordList(xs: seq<u32>) returns (s: seq<byte>)
    ensures s == Flat(WordsOf(xs))
  {
    var b := new Buf();
    PutWords(b, xs);
    s := b.data;
  }

  method ItemList(parts: seq<seq<byte>>) returns (s: seq<byte>)
    ensures s == Flat(parts)
  {
    var b := new Buf();
    PutItems(b, parts);
    s := b.data;
  }

  method LargeList(cs: seq<LargeCommunity>) returns (s: seq<byte>)
    ensures s == Flat(LargeParts(cs))
  {
    var b := new Buf();
    ghost var parts := LargeParts(cs);
    for i := 0 to |cs|
      invariant b.data == Flat(parts[..i])
    {
      ghost var before := b.data;
      b.PutU32(cs[i].global);
      b.PutU32(cs[i].local1);
      b.PutU32(cs[i].local2);
      assert b.data == before + parts[i];
      FlatSnoc(parts, i);
    }
    assert parts[..|cs|] == parts;
    s := b.data;
  }

  method Aigp(metric: u64) returns (s: seq<byte>)
    ensures s == AigpValue(metric)
  {
    var b := new Buf();
    b.PutU8(1);
    b.PutU16(11);
    b.PutU32(metric / 0x1_0000_0000);
    b.PutU32(metric % 0x1_0000_0000);
    TwoWords(metric);
    assert b.data == [1] + U16(11) + (U32(metric / 0x1_0000_0000) + U32(metric % 0x1_0000_0000));
    s := b.data;
  }

  method FirstSlots(r: RouteSpec, ghost slots: seq<Slot>) returns (tail: seq<byte>)
    requires |slots| == 11 && slots[0] == MedSlot(r) && slots[1] == LocalPrefSlot(r) && slots[2] == AtomicSlot(r)
    requires slots[3] == AggregatorSlot(r) && slots[4] == CommunitySlot(r) && slots[5] == OriginatorSlot(r)
    ensures Filled(tail, slots, 6)
  {
    assert slots[..0] == [];
    tail := Extend([], r.med.Some?, FLAG_OPTIONAL, ATTR_MULTI_EXIT_DISC, OptU32(r.med), slots, 0);
    tail := Extend(tail, r.localPref.Some?, FLAG_TRANSITIVE, ATTR_LOCAL_PREF, OptU32(r.localPref), slots, 1);
    tail := Extend(tail, r.atomicAggregate, FLAG_TRANSITIVE, ATTR_ATOMIC_AGGREGATE, [], slots, 2);
    tail := Extend(tail, r.aggregator.Some?, OPT_TRANS, ATTR_AGGREGATOR, AggregatorValue(r.aggregator), slots, 3);
    var comms := WordList(r.stdComms);
    tail := Extend(tail, r.stdComms != [], OPT_TRANS, ATTR_COMMUNITY, comms, slots, 4);
    tail := Extend(tail, r.originatorId.Some?, FLAG_OPTIONAL, ATTR_ORIGINATOR_ID, r.originatorId.GetOr([0, 0, 0, 0]), slots, 5);
  }

  method ExtendItems(tail: seq<byte>, flags: byte, code: byte, parts: seq<seq<byte>>, ghost slots: seq<Slot>, ghost k: nat)
    returns (more: seq<byte>)
    requires Filled(tail, slots, k) && k < |slots| && slots[k] == Slot(parts != [], Attr(flags, code, Flat(parts)))
    ensures Filled(more, slots, k + 1)
  {
    var value := ItemList(parts);
    more := Extend(tail, parts != [], flags, code, value, slots, k);
  }

  method ListSlots(p: ParsedRoute, r: RouteSpec, before: seq<byte>, ghost slots: seq<Slot>) returns (tail: seq<byte>)
    requires |slots| == 11 && slots[6] == ClusterSlot(r) && slots[7] == ExtSlot(p) && slots[8] == Ipv6ExtSlot(r)
    requires Filled(before, slots, 6)
    ensures Filled(tail, slots, 9)
  {
    tail := ExtendItems(before, FLAG_OPTIONAL, ATTR_CLUSTER_LIST, r.clusterList, slots, 6);
    tail := ExtendItems(tail, OPT_TRANS, ATTR_EXT_COMMUNITY, p.extComms, slots, 7);
    tail := ExtendItems(tail, OPT_TRANS, ATTR_IPV6_EXT_COMMUNITY, r.ipv6ExtComms, slots, 8);
  }

  method LastSlots(r: RouteSpec, before: seq<byte>, ghost slots: seq<Slot>) returns (tail: seq<byte>)
    requires |slots| == 11 && slots[9] == AigpSlot(r) && slots[10] == LargeSlot(r) && Filled(before, slots, 9)
    ensures Filled(tail, slots, 11)
  {
    var aigp := Aigp(r.aigp.GetOr(0));
    tail := Extend(before, r.aigp.Some?, FLAG_OPTIONAL, ATTR_AIGP, aigp, slots, 9);
    var large := LargeList(r.largeComms);
    tail := Extend(tail, r.largeComms != [], OPT_TRANS, ATTR_LARGE_COMMUNITY, large, slots, 10);
  }

  method RawTail(attrs: seq<Attr>, before: seq<byte>, ghost prior: seq<Attr>) returns (tail: seq<byte>)
    requires before == AttrsBytes(prior)
    ensures tail == AttrsBytes(prior + attrs)
  {
    tail := before;
    assert prior + attrs[..0] == prior;
    for i := 0 to |attrs|
      invariant tail == AttrsBytes(prior + attrs[..i])
    {
      var a := Attribute(attrs[i].flags, attrs[i].code, attrs[i].value);
      AttrsSnoc(prior + attrs[..i], attrs[i]);
      assert prior + attrs[..i] + [attrs[i]] == prior + attrs[..i + 1];
      tail := tail + a;
    }
    assert attrs[..|attrs|] == attrs;
  }

  method HeadBytes(p: ParsedRoute) returns (head: seq<byte>)
    ensures head == AttrsBytes(HeadAttrs(p))
  {
    head := Attribute(FLAG_TRANSITIVE, ATTR_ORIGIN, [p.origin]);
    var path := AttrAsPath(p.asPath);
    head := head + path;
    TwoAttrs(HeadAttrs(p)[0], HeadAttrs(p)[1]);
  }

  lemma TwoAttrs(a: Attr, b: Attr)
    ensures AttrsBytes([a, b]) == AttrBytes(a) + AttrBytes(b)
  {
    AttrsSnoc([], a);
    AttrsSnoc([a], b);
    assert [] + [a] == [a] && [a] + [b] == [a, b];
  }

  /** What goes in front of the attribute with the next hop, and what goes behind it. */
  method CommonAttrs(p: ParsedRoute, r: RouteSpec) returns (head: seq<byte>, tail: seq<byte>)
    ensures head == AttrsBytes(HeadAttrs(p))
    ensures tail == AttrsBytes(TailAttrs(p, r))
  {
    head := HeadBytes(p);
    ghost var slots := TailSlots(p, r);
    tail := FirstSlots(r, slots);
    tail := ListSlots(p, r, tail, slots);
    tail := LastSlots(r, tail, slots);
    assert slots[..11] == slots;
    tail := RawTail(r.rawAttributes, tail, Chosen(slots));
  }

  // ---------------------------------------------------------------- one TABLE_DUMP_V2 record

  function Afi(v6: bool): u16 { if v6 then BGP_AFI_IPV6 else BGP_AFI_IPV4 }

  /** The next hop as SAFI 128 carries it, or as it is. */
  function CarriedNextHop(p: ParsedRoute): (nh: seq<byte>)
    ensures |nh| <= 24
  {
    if p.rd.Some? then VpnNextHop(p.nexthop) else p.nexthop
  }

  function DumpCarrier(p: ParsedRoute): Attr {
    if p.rd.Some? || p.v6 then Attr(FLAG_OPTIONAL, ATTR_MP_REACH_NLRI, MpReachTd2Value(CarriedNextHop(p)))
    else Attr(FLAG_TRANSITIVE, ATTR_NEXT_HOP, p.nexthop)
  }

  function DumpAttrs(p: ParsedRoute, r: RouteSpec): seq<Attr> {
    HeadAttrs(p) + [DumpCarrier(p)] + TailAttrs(p, r)
  }

  function PeerIndex(p: ParsedRoute): u16 { if p.v6 then 1 else 0 }

  function DumpSubtype(p: ParsedRoute, r: RouteSpec): u16 {
    if p.rd.Some? then (if r.pathId.Some? then RIB_GENERIC_ADDPATH else RIB_GENERIC)
    else if p.v6 then (if r.pathId.Some? then RIB_IPV6_UNICAST_ADDPATH else RIB_IPV6_UNICAST)
    else if r.pathId.Some? then RIB_IPV4_UNICAST_ADDPATH else RIB_IPV4_UNICAST
  }

  function VpnRouteNlri(p: ParsedRoute, r: RouteSpec): seq<byte>
    requires p.rd.Some?
  {
    WithPathId(r.pathId, VpnNlri(p.mpls, p.rd.value, p.prefix, p.bits))
  }

  /** What the record holds between its sequence number and its entries. */
  function DumpNlri(p: ParsedRoute, r: RouteSpec): seq<byte>
    requires p.flowNlri.None?
  {
    if p.rd.Some? then FamilyNlri(Afi(p.v6), SAFI_MPLS_VPN, VpnRouteNlri(p, r)) else PlainNlri(p.prefix, p.bits)
  }

  /** The Path Identifier is in the entry, except for VPN routes, where it is in the NLRI. */
  function DumpEntry(p: ParsedRoute, r: RouteSpec, ts: u32, attrs: seq<byte>): RibEntry {
    RibEntry(PeerIndex(p), ts, if p.rd.Some? then None else r.pathId, attrs, None)
  }

  function DumpRecord(p: ParsedRoute, r: RouteSpec, i: nat, ts: u32): Result<MrtRecord>
    requires p.flowNlri.None?
  {
    var attrs := AttrsBytes(DumpAttrs(p, r));
    if |attrs| > 0xFFFF then Err else
    Ok(RibRecord(ts, DumpSubtype(p, r), AsU32(i), DumpNlri(p, r), [DumpEntry(p, r, ts, attrs)]))
  }

  method DumpCarrierBytes(p: ParsedRoute) returns (s: seq<byte>)
    ensures s == AttrBytes(DumpCarrier(p))
  {
    if p.rd.Some? {
      s := Attribute(FLAG_OPTIONAL, ATTR_MP_REACH_NLRI, MpReachTd2Value(VpnNextHop(p.nexthop)));
    } else if p.v6 {
      s := Attribute(FLAG_OPTIONAL, ATTR_MP_REACH_NLRI, MpReachTd2Value(p.nexthop));
    } else {
      s := Attribute(FLAG_TRANSITIVE, ATTR_NEXT_HOP, p.nexthop);
    }
  }

  lemma CarrierBetween(head: seq<Attr>, carrier: Attr, tail: seq<Attr>)
    ensures AttrsBytes(head + [carrier] + tail) == AttrsBytes(head) + AttrBytes(carrier) + AttrsBytes(tail)
  {
    AttrsAppend(head + [carrier], tail);
    AttrsSnoc(head, carrier);
  }

  method DumpAttributes(p: ParsedRoute, r: RouteSpec) returns (attrs: seq<byte>)
    ensures attrs == AttrsBytes(DumpAttrs(p, r))
  {
    var head, tail := CommonAttrs(p, r);
    var carrier := DumpCarrierBytes(p);
    attrs := head + carrier + tail;
    CarrierBetween(HeadAttrs(p), DumpCarrier(p), TailAttrs(p, r));
  }

  method EncodeDumpRecord(p: ParsedRoute, r: RouteSpec, i: nat, ts: u32) returns (res: Result<MrtRecord>)
    requires p.flowNlri.None?
    ensures res == DumpRecord(p, r, i, ts)
  {
    var attrs := DumpAttributes(p, r);
    if |attrs| > 0xFFFF {
      return Err;
    }
    var entry := DumpEntry(p, r, ts, attrs);
    var rec: MrtRecord;
    if p.rd.Some? {
      rec := RibGeneric(ts, DumpSubtype(p, r), AsU32(i), Afi(p.v6), SAFI_MPLS_VPN, VpnRouteNlri(p, r), [entry]);
    } else {
      rec := RibAfiSafi(ts, DumpSubtype(p, r), AsU32(i), PlainNlri(p.prefix, p.bits), [entry]);
    }
    return Ok(rec);
  }

  // ---------------------------------------------------------------- one BGP4MP record

  /** SAFI and NLRI of a route that is announced in MP_REACH_NLRI. */
  function ReachSafi(p: ParsedRoute): byte {
    if p.flowNlri.Some? then SAFI_FLOWSPEC else if p.rd.Some? then SAFI_MPLS_VPN else SAFI_UNICAST
  }

  function RouteNlri(p: ParsedRoute): seq<byte> {
    if p.flowNlri.Some? then p.flowNlri.value
    else if p.rd.Some? then VpnNlri(p.mpls, p.rd.value, p.prefix, p.bits)
    else PlainNlri(p.prefix, p.bits)
  }

  /** Plain IPv4 prefixes ride in the UPDATE itself; everything else in MP_REACH_NLRI. */
  predicate InMpReach(p: ParsedRoute) { p.flowNlri.Some? || p.rd.Some? || p.v6 }

  function UpdateCarrier(p: ParsedRoute, r: RouteSpec): Attr {
    if InMpReach(p) then
      Attr(FLAG_OPTIONAL, ATTR_MP_REACH_NLRI,
           MpReachValue(Afi(p.v6), ReachSafi(p), CarriedNextHop(p), WithPathId(r.pathId, RouteNlri(p))))
    else Attr(FLAG_TRANSITIVE, ATTR_NEXT_HOP, p.nexthop)
  }

  function UpdateNlri(p: ParsedRoute, r: RouteSpec): seq<byte> {
    if InMpReach(p) then [] else WithPathId(r.pathId, RouteNlri(p))
  }

  function UpdateAttrs(p: ParsedRoute, r: RouteSpec): seq<Attr> {
    HeadAttrs(p) + [UpdateCarrier(p, r)] + TailAttrs(p, r)
  }

  function UpdateBytes(p: ParsedRoute, r: RouteSpec): seq<byte> {
    Update([], AttrsBytes(UpdateAttrs(p, r)), UpdateNlri(p, r))
  }

  const LOCAL_AS: u32 := 64511
  const MAX_MESSAGE: nat := 4096

  function Ipv6Host(last: byte): seq<byte> { [0x20, 0x01, 0x0d, 0xb8] + Zeros(11) + [last] }

  function PeerIp(v6: bool): (ip: seq<byte>)
    ensures |ip| == WidthOf(v6)
  {
    if v6 then Ipv6Host(1) else [192, 0, 2, 1]
  }

  function LocalIp(v6: bool): (ip: seq<byte>)
    ensures |ip| == WidthOf(v6)
  {
    if v6 then Ipv6Host(2) else [192, 0, 2, 2]
  }

  function PeerAs(p: ParsedRoute): u32 { if p.asPath == [] then DEFAULT_AS else p.asPath[0] }

  function UpdateSubtype(r: RouteSpec): u16 {
    if r.pathId.Some? then BGP4MP_MESSAGE_AS4_ADDPATH else BGP4MP_MESSAGE_AS4
  }

  function UpdateRecord(p: ParsedRoute, r: RouteSpec, ts: u32): Result<MrtRecord> {
    var update := UpdateBytes(p, r);
    if |update| > MAX_MESSAGE then Err else
    Ok(Bgp4mpRecord(ts, BGP4MP, None, UpdateSubtype(r), PeerAs(p), LOCAL_AS, 1, PeerIp(p.v6), LocalIp(p.v6), update))
  }

  method Announce(p: ParsedRoute, r: RouteSpec) returns (carrier: seq<byte>, nlri: seq<byte>)
    ensures carrier == AttrBytes(UpdateCarrier(p, r)) && nlri == UpdateNlri(p, r)
  {
    nlri := [];
    if p.flowNlri.Some? {
      carrier := AttrMpReach(Afi(p.v6), SAFI_FLOWSPEC, p.nexthop, WithPathId(r.pathId, p.flowNlri.value));
    } else if p.rd.Some? {
      var announced := WithPathId(r.pathId, VpnNlri(p.mpls, p.rd.value, p.prefix, p.bits));
      carrier := AttrMpReach(Afi(p.v6), SAFI_MPLS_VPN, VpnNextHop(p.nexthop), announced);
    } else if p.v6 {
      carrier := AttrMpReach(BGP_AFI_IPV6, SAFI_UNICAST, p.nexthop, WithPathId(r.pathId, PlainNlri(p.prefix, p.bits)));
    } else {
      carrier := Attribute(FLAG_TRANSITIVE, ATTR_NEXT_HOP, p.nexthop);
      nlri := WithPathId(r.pathId, PlainNlri(p.prefix, p.bits));
    }
  }

  method EncodeUpdateRecord(p: ParsedRoute, r: RouteSpec, ts: u32) returns (res: Result<MrtRecord>)
    ensures res == UpdateRecord(p, r, ts)
  {
    var head, tail := CommonAttrs(p, r);
    var carrier, nlri := Announce(p, r);
    CarrierBetween(HeadAttrs(p), UpdateCarrier(p, r), TailAttrs(p, r));
    var update := BgpUpdate([], head + carrier + tail, nlri);
    if |update| > MAX_MESSAGE {
      return Err;
    }
    var rec := Bgp4mpMessage(ts, BGP4MP, None, UpdateSubtype(r), PeerAs(p), LOCAL_AS, 1, PeerIp(p.v6), LocalIp(p.v6), update);
    return Ok(rec);
  }

  // ---------------------------------------------------------------- the whole file

  /** The stable name a route's record gets in the manifest. */
  function KindOf(format: Format, p: ParsedRoute, r: RouteSpec): string {
    (match format
     case TableDumpV2 =>
       (if p.rd.Some? then (if p.v6 then "route_rib_generic_vpnv6" else "route_rib_generic_vpnv4")
        else if p.v6 then "route_rib_ipv6_unicast" else "route_rib_ipv4_unicast")
     case Bgp4mpUpdates =>
       if p.flowNlri.Some? then "route_bgp4mp_flowspec"
       else if p.rd.Some? then "route_bgp4mp_update_vpn" else "route_bgp4mp_update")
    + (if r.pathId.Some? then "_addpath" else "")
  }

  /** "mrtgen-routes" */
  const VIEW_NAME: seq<byte> := [109, 114, 116, 103, 101, 110, 45, 114, 111, 117, 116, 101, 115]
  const COLLECTOR_ID: Octets4 := [192, 0, 2, 100]

  /** One peer per family, in the order peer indices refer to them. */
  const ROUTE_PEERS: seq<Peer> :=
    [Peer([192, 0, 2, 1], [192, 0, 2, 1], DEFAULT_AS, true), Peer([192, 0, 2, 2], Ipv6Host(1), DEFAULT_AS, true)]

  function TableChunk(base: u32): Chunk {
    RecordChunk(PeerTableRecord(base, COLLECTOR_ID, VIEW_NAME, ROUTE_PEERS), "route_peer_index_table", Valid)
  }

  /** Dumps open with a peer table; update streams with nothing. */
  function Preface(format: Format, base: u32): seq<Chunk> {
    if format == TableDumpV2 then [TableChunk(base)] else []
  }

  function RouteRecord(format: Format, p: ParsedRoute, r: RouteSpec, i: nat, ts: u32): Result<MrtRecord> {
    match format
    case TableDumpV2 => if p.flowNlri.Some? then Err else DumpRecord(p, r, i, ts)
    case Bgp4mpUpdates => UpdateRecord(p, r, ts)
  }

  /** A record and its manifest entry, or the failure to encode it. */
  function Described(rec: Result<MrtRecord>, kind: string, expected: Expect): Result<Chunk> {
    if rec.Ok? then Ok(RecordChunk(rec.value, kind, expected)) else Err
  }

  function RouteChunk(format: Format, p: ParsedRoute, r: RouteSpec, i: nat, ts: u32): Result<Chunk> {
    Described(RouteRecord(format, p, r, i, ts), KindOf(format, p, r), p.expected)
  }

  function Maker(format: Format, routes: seq<RouteSpec>, parsed: seq<ParsedRoute>): (nat, u32) -> Result<Chunk>
    requires |routes| == |parsed|
  {
    (i: nat, ts: u32) => if i < |routes| then RouteChunk(format, parsed[i], routes[i], i, ts) else Err
  }

  function Chunks(routes: seq<RouteSpec>, format: Format, base: u32): Result<seq<Chunk>> {
    var parsed :- ParseAll(routes);
    Stamped(Preface(format, base), base, |routes|, Maker(format, routes, parsed))
  }

  function Generate(routes: seq<RouteSpec>, format: Format, base: u32): Result<Corpus> {
    var chs :- Chunks(routes, format, base);
    Ok(Assemble(chs))
  }

  // ---------------------------------------------------------------- the generator as written

  lemma ParsedAt(routes: seq<RouteSpec>, i: nat)
    requires ParseAll(routes).Ok? && i < |routes|
    ensures ParseRoute(routes[i]) == Ok(ParseAll(routes).value[i])
  {
    CollectAt(routes, ParseRoute, i);
  }

  lemma FlowRefused(base: u32, routes: seq<RouteSpec>, parsed: seq<ParsedRoute>, i: nat)
    requires i < |routes| == |parsed| && parsed[i].flowNlri.Some?
    ensures Stamped(Preface(TableDumpV2, base), base, |routes|, Maker(TableDumpV2, routes, parsed)).Err?
  {
    StampedFails(Preface(TableDumpV2, base), base, |routes|, Maker(TableDumpV2, routes, parsed), i);
  }

  /** Whether some route is a FlowSpec rule. */
  method AnyFlow(parsed: seq<ParsedRoute>) returns (found: bool)
    ensures found <==> exists i :: 0 <= i < |parsed| && parsed[i].flowNlri.Some?
  {
    for i := 0 to |parsed|
      invariant forall k :: 0 <= k < i ==> parsed[k].flowNlri.None?
    {
      if parsed[i].flowNlri.Some? {
        return true;
      }
    }
    return false;
  }

  method EncodeRouteRecord(format: Format, p: ParsedRoute, r: RouteSpec, i: nat, ts: u32) returns (res: Result<MrtRecord>)
    requires format == TableDumpV2 ==> p.flowNlri.None?
    ensures res == RouteRecord(format, p, r, i, ts)
  {
    match format {
      case TableDumpV2 => res := EncodeDumpRecord(p, r, i, ts);
      case Bgp4mpUpdates => res := EncodeUpdateRecord(p, r, ts);
    }
  }

  method PushEncoded(b: Builder, rec: Result<MrtRecord>, kind: string, expected: Expect, ghost before: seq<Chunk>)
    returns (ok: bool)
    requires b.State() == Assemble(before)
    modifies b
    ensures var ch := Described(rec, kind, expected);
            ok == ch.Ok? && (ok ==> b.State() == Assemble(before + [ch.value]))
  {
    if rec.Err? {
      return false;
    }
    b.Push(rec.value, kind, expected);
    AssembleSnoc(before, RecordChunk(rec.value, kind, expected));
    return true;
  }

  ghost predicate MakesRoute(make: (nat, u32) -> Result<Chunk>, format: Format, p: ParsedRoute, r: RouteSpec, i: nat, ts: u32) {
    make(i, ts) == RouteChunk(format, p, r, i, ts)
  }

  ghost predicate MakesRoutes(make: (nat, u32) -> Result<Chunk>, format: Format, routes: seq<RouteSpec>, parsed: seq<ParsedRoute>)
    requires |routes| == |parsed|
  {
    forall i: nat, ts: u32 :: i < |routes| ==> MakesRoute(make, format, parsed[i], routes[i], i, ts)
  }

  lemma MakerMakes(format: Format, routes: seq<RouteSpec>, parsed: seq<ParsedRoute>)
    requires |routes| == |parsed|
    ensures MakesRoutes(Maker(format, routes, parsed), format, routes, parsed)
  {
  }

  /** Dumps carry no FlowSpec rules. */
  ghost predicate Encodable(format: Format, parsed: seq<ParsedRoute>) {
    format == TableDumpV2 ==> forall i :: 0 <= i < |parsed| ==> parsed[i].flowNlri.None?
  }

  /** The corpus after the first n routes. */
  ghost predicate Reached(c: Corpus, opening: seq<Chunk>, base: u32, n: nat, make: (nat, u32) -> Result<Chunk>) {
    var chs := Stamped(opening, base, n, make);
    chs.Ok? && c == Assemble(chs.value)
  }

  /** Route i fails at its place, and with it the whole list. */
  ghost predicate Refused(opening: seq<Chunk>, base: u32, i: nat, make: (nat, u32) -> Result<Chunk>) {
    make(i, StampOf(base, |opening| + i)).Err?
  }

  lemma StampedNext(opening: seq<Chunk>, base: u32, i: nat, make: (nat, u32) -> Result<Chunk>, done: seq<Chunk>, next: Result<Chunk>)
    requires Stamped(opening, base, i, make) == Ok(done) && next == make(i, StampOf(base, |done|))
    ensures if next.Ok? then Stamped(opening, base, i + 1, make) == Ok(done + [next.value])
            else Refused(opening, base, i, make)
  {
  }

  /** One round of the route loop. */
  method PushRoute(b: Builder, format: Format, routes: seq<RouteSpec>, parsed: seq<ParsedRoute>, i: nat,
                   ghost opening: seq<Chunk>, ghost make: (nat, u32) -> Result<Chunk>) returns (ok: bool)
    requires i < |routes| == |parsed| && Encodable(format, parsed) && MakesRoutes(make, format, routes, parsed)
    requires Reached(b.State(), opening, b.baseTimestamp, i, make)
    modifies b
    ensures if ok then Reached(b.State(), opening, b.baseTimestamp, i + 1, make)
            else Refused(opening, b.baseTimestamp, i, make)
  {
    ghost var done := Stamped(opening, b.baseTimestamp, i, make).value;
    var ts := b.NextTimestamp();
    var rec := EncodeRouteRecord(format, parsed[i], routes[i], i, ts);
    ok := PushEncoded(b, rec, KindOf(format, parsed[i], routes[i]), parsed[i].expected, done);
    assert MakesRoute(make, format, parsed[i], routes[i], i, ts);
    StampedNext(opening, b.baseTimestamp, i, make, done, Described(rec, KindOf(format, parsed[i], routes[i]), parsed[i].expected));
  }

  method PushRoutes(b: Builder, format: Format, routes: seq<RouteSpec>, parsed: seq<ParsedRoute>,
                    ghost opening: seq<Chunk>, ghost make: (nat, u32) -> Result<Chunk>) returns (ok: bool)
    requires |routes| == |parsed| && Encodable(format, parsed) && MakesRoutes(make, format, routes, parsed)
    requires b.State() == Assemble(opening)
    modifies b
    ensures if ok then Reached(b.State(), opening, b.baseTimestamp, |routes|, make)
            else Stamped(opening, b.baseTimestamp, |routes|, make).Err?
  {
    for i := 0 to |routes|
      invariant Reached(b.State(), opening, b.baseTimestamp, i, make)
    {
      ok := PushRoute(b, format, routes, parsed, i, opening, make);
      if !ok {
        StampedFails(opening, b.baseTimestamp, |routes|, make, i);
        return;
      }
    }
    ok := true;
  }

  method PushTable(b: Builder)
    requires b.State() == EMPTY
    modifies b
    ensures b.State() == Assemble(Preface(TableDumpV2, b.baseTimestamp))
  {
    var table := PeerIndexTable(b.baseTimestamp, COLLECTOR_ID, VIEW_NAME, ROUTE_PEERS);
    b.Push(table, "route_peer_index_table", Valid);
    AssembleSnoc([], TableChunk(b.baseTimestamp));
    assert [] + [TableChunk(b.baseTimestamp)] == Preface(TableDumpV2, b.baseTimestamp);
  }

  method GenerateFromRoutes(routes: seq<RouteSpec>, format: Format, base: u32) returns (res: Result<Corpus>)
    ensures res == Generate(routes, format, base)
  {
    var parsed := ParseAll(routes);
    if parsed.Err? {
      return Err;
    }
    var b := new Builder(base);
    if format == TableDumpV2 {
      var flow := AnyFlow(parsed.value);
      if flow {
        ghost var i :| 0 <= i < |parsed.value| && parsed.value[i].flowNlri.Some?;
        FlowRefused(base, routes, parsed.value, i);
        return Err;
      }
      PushTable(b);
    }
    MakerMakes(format, routes, parsed.value);
    var ok := PushRoutes(b, format, routes, parsed.value, Preface(format, base), Maker(format, routes, parsed.value));
    if !ok {
      return Err;
    }
    return Ok(b.State());
  }
}
