/** Reading an accepted BGP4MP route back from the octets of its record: session, attributes, next hop and
    what is announced, all told from the user's route. */
module UpdateReader {
  import opened Bytes
  import opened Writer
  import opened Framing
  import opened Bgp
  import opened Records
  import opened Corpora
  import opened Routes
  import opened RouteChecks
  import opened UserRoutes
  import opened RouteAttributes
  import FlowSpec

  // ---------------------------------------------------------------- the reader

  datatype Announcement = Announcement(session: Bgp4mp, attrs: seq<Attr>, nlri: seq<byte>)

  /** The message inside a BGP4MP body, split into session fields, attributes and NLRI. */
  function ReadAnnouncement(as4: bool, body: seq<byte>): Option<Announcement> {
    var session :- ReadBgp4mp(as4, body);
    var parts :- ReadUpdate(session.message);
    var attrs :- ReadAttrs(parts.attrs);
    Some(Announcement(session, attrs, parts.nlri))
  }

  /** One record of an update stream: type 16, and subtype 4, or 9 if NLRI carry path identifiers
      (RFC 6396 section 4.4.3, RFC 8050 section 3). */
  datatype UpdateRead = UpdateRead(timestamp: nat, addPath: bool, a: Announcement)

  function ReadUpdateRecord(s: seq<byte>): Option<UpdateRead> {
    if |s| < 12 || Nat(s[4..6]) != 16 || Nat(s[8..12]) != |s| - 12 then None
    else if Nat(s[6..8]) != 4 && Nat(s[6..8]) != 9 then None
    else
      var a :- ReadAnnouncement(true, s[12..]);
      Some(UpdateRead(Nat(s[..4]), Nat(s[6..8]) == 9, a))
  }

  // ---------------------------------------------------------------- what the record must say

  /** The session: the peer is the first AS of the user's path, or 64500 without one, the local AS is
      64511, the interface 1, the addresses documentation addresses of the family; and the message is an
      UPDATE with its marker, of at most 4096 octets. */
  predicate SessionTold(m: Bgp4mp, r: RouteSpec) {
    && m.peerAs == (if UserPath(r) == [] then 64500 else UserPath(r)[0])
    && m.localAs == 64511 && m.ifindex == 1
    && m.afi == (if UserV6(r) then 2 else 1)
    && m.peerIp == (if UserV6(r) then [0x20, 0x01, 0x0d, 0xb8, 0, 0, 0, 0, 0, 0, 0, 0, 0, 0, 0, 1] else [192, 0, 2, 1])
    && m.localIp == (if UserV6(r) then [0x20, 0x01, 0x0d, 0xb8, 0, 0, 0, 0, 0, 0, 0, 0, 0, 0, 0, 2] else [192, 0, 2, 2])
    && MessageTold(m.message)
  }

  predicate MessageTold(s: seq<byte>) {
    19 <= |s| <= 4096 && IsMarker(s[..16]) && Nat(s[16..18]) == |s| && s[18] == 2
  }

  /** The octets of an address that a prefix length covers. */
  predicate PrefixTold(s: seq<byte>, net: FlowSpec.Prefix) {
    |s| == (net.bits + 7) / 8 && s == net.addr[..|s|]
  }

  /** What is announced: the encoded rule; or behind the length a label with its bottom-of-stack bit, the
      distinguisher and the prefix; or behind the length the prefix alone. */
  predicate TargetTold(s: seq<byte>, r: RouteSpec) {
    if r.flowspec.Some? then FlowSpec.Encode(r.flowspec.value) == Ok((s, UserV6(r)))
    else if r.prefix.None? then false
    else if r.rd.Some? then
      && |s| >= 12 && s[0] == 88 + r.prefix.value.bits && Nat(s[1..4]) == 16 * UserLabel(r) + 1
      && s[4..12] == r.rd.value && PrefixTold(s[12..], r.prefix.value)
    else |s| >= 1 && s[0] == r.prefix.value.bits && PrefixTold(s[1..], r.prefix.value)
  }

  /** A path identifier, if the user gave one, and what is announced. */
  predicate NlriTold(s: seq<byte>, r: RouteSpec) {
    if r.pathId.Some? then |s| >= 4 && Nat(s[..4]) == r.pathId.value && TargetTold(s[4..], r) else TargetTold(s, r)
  }

  /** An MP_REACH_NLRI value: family, SAFI (133 for rules, 128 with a distinguisher, else 1), next hop with
      its length, a zero octet, NLRI. */
  predicate ReachTold(v: seq<byte>, r: RouteSpec) {
    var n := |NextHopSaid(r)|;
    && |v| >= 5 + n && Nat(v[..2]) == (if UserV6(r) then 2 else 1)
    && v[2] == (if r.flowspec.Some? then 133 else if r.rd.Some? then 128 else 1)
    && v[3] == n && v[4..4 + n] == NextHopSaid(r) && v[4 + n] == 0 && NlriTold(v[5 + n..], r)
  }

  /** A plain IPv4 prefix goes with a NEXT_HOP attribute and rides in the UPDATE itself; anything else is in
      MP_REACH_NLRI, and the UPDATE has no NLRI of its own. */
  predicate CarrierTold(carrier: Attr, nlri: seq<byte>, r: RouteSpec) {
    if r.flowspec.None? && r.rd.None? && !UserV6(r) then
      carrier == Attr(0x40, 3, UserNextHop(r)) && NlriTold(nlri, r)
    else
      && carrier.code == 14 && carrier.flags == (if |carrier.value| > 255 then 0x90 else 0x80)
      && ReachTold(carrier.value, r) && nlri == []
  }

  /** Everything a record says of the user's route. */
  predicate UpdateTells(u: UpdateRead, r: RouteSpec, ts: nat) {
    && u.timestamp == ts && u.addPath == r.pathId.Some?
    && SessionTold(u.a.session, r)
    && AttributesTold(u.a.attrs, r)
    && CarrierTold(u.a.attrs[2], u.a.nlri, r)
  }

  /** The name of a record in the manifest. */
  function UpdateKind(r: RouteSpec): string {
    if r.flowspec.Some? then
      if r.pathId.Some? then "route_bgp4mp_flowspec_addpath" else "route_bgp4mp_flowspec"
    else if r.rd.Some? then
      if r.pathId.Some? then "route_bgp4mp_update_vpn_addpath" else "route_bgp4mp_update_vpn"
    else if r.pathId.Some? then "route_bgp4mp_update_addpath" else "route_bgp4mp_update"
  }

  /** The manifest entry of route i in an update stream. */
  predicate UpdateEntryTold(e: RecordEntry, r: RouteSpec, i: nat, ts: u32) {
    e.index == i && e.meta == Meta(16, if r.pathId.Some? then 9 else 4, ts, UpdateKind(r), UserExpected(r))
  }

  // ---------------------------------------------------------------- reading a record back

  function SessionOf(p: ParsedRoute, r: RouteSpec): Bgp4mp {
    Bgp4mp(PeerAs(p), LOCAL_AS, 1, Afi(p.v6), PeerIp(p.v6), LocalIp(p.v6), UpdateBytes(p, r))
  }

  lemma UpdateSession(p: ParsedRoute, r: RouteSpec)
    ensures ReadBgp4mp(true, Prelude(PeerAs(p), LOCAL_AS, true, 1, PeerIp(p.v6), LocalIp(p.v6)) + UpdateBytes(p, r))
            == Some(SessionOf(p, r))
  {
    Bgp4mpRoundTrip(PeerAs(p), LOCAL_AS, true, 1, PeerIp(p.v6), LocalIp(p.v6), UpdateBytes(p, r));
  }

  lemma UpdateContents(p: ParsedRoute, r: RouteSpec)
    requires |UpdateBytes(p, r)| <= MAX_MESSAGE
    ensures ReadUpdate(UpdateBytes(p, r)) == Some(UpdateParts([], AttrsBytes(UpdateAttrs(p, r)), UpdateNlri(p, r)))
    ensures ReadAttrs(AttrsBytes(UpdateAttrs(p, r))) == Some(AllEmitted(UpdateAttrs(p, r)))
  {
    UpdateRoundTrip([], AttrsBytes(UpdateAttrs(p, r)), UpdateNlri(p, r));
    TotalFits(UpdateAttrs(p, r));
    AttrsRoundTrip(UpdateAttrs(p, r));
  }

  lemma UpdateBody(p: ParsedRoute, r: RouteSpec, ts: u32)
    requires UpdateRecord(p, r, ts).Ok?
    ensures |UpdateBytes(p, r)| <= MAX_MESSAGE && IsAs4(UpdateRecord(p, r, ts).value.subtype)
    ensures UpdateRecord(p, r, ts).value.body ==
            Prelude(PeerAs(p), LOCAL_AS, true, 1, PeerIp(p.v6), LocalIp(p.v6)) + UpdateBytes(p, r)
  {
  }

  function AnnouncementOf(p: ParsedRoute, r: RouteSpec): Announcement {
    Announcement(SessionOf(p, r), AllEmitted(UpdateAttrs(p, r)), UpdateNlri(p, r))
  }

  /** The body of every accepted route gives back its session, its attributes one by one with the flags
      as emitted, and the NLRI of the UPDATE. */
  lemma UpdateReadBack(p: ParsedRoute, r: RouteSpec, ts: u32)
    requires UpdateRecord(p, r, ts).Ok?
    ensures ReadAnnouncement(true, UpdateRecord(p, r, ts).value.body) == Some(AnnouncementOf(p, r))
  {
    UpdateBody(p, r, ts);
    UpdateSession(p, r);
    UpdateContents(p, r);
  }

  lemma UpdateHeader(rec: MrtRecord)
    requires Honest(rec) && rec.microsecond.None? && rec.mrtType == 16 && (rec.subtype == 4 || rec.subtype == 9)
    ensures var s, a := EncodeRecord(rec), ReadAnnouncement(true, rec.body);
            a.Some? ==> ReadUpdateRecord(s) == Some(UpdateRead(rec.timestamp, rec.subtype == 9, a.value))
  {
    HeaderFields(rec);
    assert [] + rec.body == rec.body;
    assert EncodeRecord(rec)[0..4] == EncodeRecord(rec)[..4];
  }

  lemma UpdateRecordRead(p: ParsedRoute, r: RouteSpec, ts: u32)
    requires UpdateRecord(p, r, ts).Ok?
    ensures ReadUpdateRecord(EncodeRecord(UpdateRecord(p, r, ts).value))
            == Some(UpdateRead(ts, r.pathId.Some?, AnnouncementOf(p, r)))
  {
    UpdateHonest(p, r, ts);
    UpdateReadBack(p, r, ts);
    UpdateHeader(UpdateRecord(p, r, ts).value);
  }

  // ---------------------------------------------------------------- what was written for the route

  lemma HostAddresses()
    ensures Ipv6Host(1) == [0x20, 0x01, 0x0d, 0xb8, 0, 0, 0, 0, 0, 0, 0, 0, 0, 0, 0, 1]
    ensures Ipv6Host(2) == [0x20, 0x01, 0x0d, 0xb8, 0, 0, 0, 0, 0, 0, 0, 0, 0, 0, 0, 2]
  {
  }

  lemma MessageWritten(payload: seq<byte>)
    requires |Message(BGP_UPDATE, payload)| <= MAX_MESSAGE
    ensures MessageTold(Message(BGP_UPDATE, payload))
  {
    MessageParts(BGP_UPDATE, payload);
  }

  lemma SessionWritten(p: ParsedRoute, r: RouteSpec)
    requires TakenFrom(p, r) && |UpdateBytes(p, r)| <= MAX_MESSAGE
    ensures SessionTold(SessionOf(p, r), r)
  {
    HostAddresses();
    MessageWritten(UpdatePayload([], AttrsBytes(UpdateAttrs(p, r)), UpdateNlri(p, r)));
  }

  lemma LabelWritten(mpls: u32)
    requires mpls < 1048576
    ensures Nat(BE(3, StackEntry(mpls))) == 16 * mpls + 1
  {
    DivModUnique(16 * mpls, 0x1_0000_0000, 0, 16 * mpls);
    assert StackEntry(mpls) == 16 * mpls + 1;
    Pow256Values();
    NatOfBE(3, 16 * mpls + 1);
  }

  lemma VpnTargetWritten(mpls: u32, rd: Octets8, net: FlowSpec.Prefix)
    requires mpls < 1048576
    ensures var s := VpnNlri(mpls, rd, net.addr, net.bits);
            && |s| >= 12 && s[0] == 88 + net.bits && Nat(s[1..4]) == 16 * mpls + 1
            && s[4..12] == rd && PrefixTold(s[12..], net)
  {
    var s, head := VpnNlri(mpls, rd, net.addr, net.bits), net.addr[..OctetsFor(net.bits)];
    VpnParts(mpls, rd, net.addr, net.bits, []);
    assert s + [] == s && head + [] == head;
    LabelWritten(mpls);
  }

  lemma TargetWritten(p: ParsedRoute, r: RouteSpec)
    requires TakenFrom(p, r)
    ensures TargetTold(RouteNlri(p), r)
  {
    if r.flowspec.None? {
      if r.rd.Some? {
        VpnTargetWritten(p.mpls, p.rd.value, r.prefix.value);
      } else {
        assert RouteNlri(p)[1..] == p.prefix[..OctetsFor(p.bits)];
      }
    }
  }

  lemma NlriWritten(p: ParsedRoute, r: RouteSpec)
    requires TakenFrom(p, r)
    ensures NlriTold(WithPathId(r.pathId, RouteNlri(p)), r)
  {
    TargetWritten(p, r);
    if r.pathId.Some? {
      var s := WithPathId(r.pathId, RouteNlri(p));
      Pow256Values();
      NatOfBE(4, r.pathId.value);
      assert s[..4] == U32(r.pathId.value) && s[4..] == RouteNlri(p);
    }
  }

  lemma NextHopWritten(p: ParsedRoute, r: RouteSpec)
    requires TakenFrom(p, r)
    ensures CarriedNextHop(p) == NextHopSaid(r)
  {
    assert Zeros(8) == [0, 0, 0, 0, 0, 0, 0, 0];
  }

  lemma ReachFields(afi: u16, safi: byte, nextHop: seq<byte>, nlri: seq<byte>)
    requires |nextHop| <= 255
    ensures var v, n := MpReachValue(afi, safi, nextHop, nlri), |nextHop|;
            && |v| == 5 + n + |nlri| && Nat(v[..2]) == afi && v[2] == safi && v[3] == n
            && v[4..4 + n] == nextHop && v[4 + n] == 0 && v[5 + n..] == nlri
  {
    var v := MpReachValue(afi, safi, nextHop, nlri);
    Pow256Values();
    NatOfBE(2, afi);
    assert v[..2] == U16(afi);
  }

  lemma ReachWritten(p: ParsedRoute, r: RouteSpec)
    requires TakenFrom(p, r)
    ensures ReachTold(MpReachValue(Afi(p.v6), ReachSafi(p), CarriedNextHop(p), WithPathId(r.pathId, RouteNlri(p))), r)
  {
    NextHopWritten(p, r);
    NlriWritten(p, r);
    ReachFields(Afi(p.v6), ReachSafi(p), CarriedNextHop(p), WithPathId(r.pathId, RouteNlri(p)));
  }

  lemma ReachEmitted(value: seq<byte>)
    ensures Emitted(Attr(FLAG_OPTIONAL, ATTR_MP_REACH_NLRI, value)) == Attr(if |value| > 255 then 0x90 else 0x80, 14, value)
  {
  }

  lemma HopEmitted(nextHop: seq<byte>)
    requires |nextHop| <= 16
    ensures Emitted(Attr(FLAG_TRANSITIVE, ATTR_NEXT_HOP, nextHop)) == Attr(0x40, 3, nextHop)
  {
  }

  lemma CarrierWritten(p: ParsedRoute, r: RouteSpec)
    requires TakenFrom(p, r)
    ensures CarrierTold(Emitted(UpdateCarrier(p, r)), UpdateNlri(p, r), r)
  {
    if InMpReach(p) {
      ReachWritten(p, r);
      ReachEmitted(UpdateCarrier(p, r).value);
    } else {
      NlriWritten(p, r);
      HopEmitted(p.nexthop);
    }
  }

  lemma AttributesWritten(p: ParsedRoute, r: RouteSpec)
    requires TakenFrom(p, r)
    ensures var attrs := AllEmitted(UpdateAttrs(p, r));
            AttributesTold(attrs, r) && attrs[2] == Emitted(UpdateCarrier(p, r))
  {
    AllEmittedTold(p, r, UpdateCarrier(p, r));
    assert UpdateAttrs(p, r)[2] == UpdateCarrier(p, r);
  }

  lemma RecordTells(p: ParsedRoute, r: RouteSpec, ts: u32)
    requires TakenFrom(p, r) && |UpdateBytes(p, r)| <= MAX_MESSAGE
    ensures UpdateTells(UpdateRead(ts, r.pathId.Some?, AnnouncementOf(p, r)), r, ts)
  {
    SessionWritten(p, r);
    AttributesWritten(p, r);
    CarrierWritten(p, r);
  }

  // ---------------------------------------------------------------- whole files

  /** The octets at a manifest entry are a record that tells everything the user said. */
  predicate HoldsUpdate(file: seq<byte>, e: RecordEntry, r: RouteSpec, i: nat, ts: u32) {
    var u := ReadUpdateRecord(Extract(file, e));
    UpdateEntryTold(e, r, i, ts) && u.Some? && UpdateTells(u.value, r, ts)
  }

  lemma PlainKinds()
    ensures "route_bgp4mp_flowspec" + "" == "route_bgp4mp_flowspec"
    ensures "route_bgp4mp_update_vpn" + "" == "route_bgp4mp_update_vpn"
    ensures "route_bgp4mp_update" + "" == "route_bgp4mp_update"
  {
  }

  lemma AddPathKinds()
    ensures "route_bgp4mp_flowspec" + "_addpath" == "route_bgp4mp_flowspec_addpath"
    ensures "route_bgp4mp_update_vpn" + "_addpath" == "route_bgp4mp_update_vpn_addpath"
    ensures "route_bgp4mp_update" + "_addpath" == "route_bgp4mp_update_addpath"
  {
  }

  lemma KindSaid(p: ParsedRoute, r: RouteSpec)
    requires TakenFrom(p, r)
    ensures KindOf(Bgp4mpUpdates, p, r) == UpdateKind(r)
  {
    if r.pathId.Some? { AddPathKinds(); } else { PlainKinds(); }
  }

  lemma UpdateChunkIs(p: ParsedRoute, r: RouteSpec, i: nat, ts: u32, ch: Chunk)
    requires RouteIs(ch, p, r, Bgp4mpUpdates, i, ts)
    ensures UpdateRecord(p, r, ts).Ok? && ch.bytes == EncodeRecord(UpdateRecord(p, r, ts).value)
    ensures ch.meta == Meta(16, if r.pathId.Some? then 9 else 4, ts, KindOf(Bgp4mpUpdates, p, r), p.expected)
  {
  }

  lemma UpdateChunkTells(p: ParsedRoute, r: RouteSpec, i: nat, ts: u32, chs: seq<Chunk>)
    requires TakenFrom(p, r) && i < |chs| && RouteIs(chs[i], p, r, Bgp4mpUpdates, i, ts)
    ensures HoldsUpdate(Assemble(chs).bytes, Assemble(chs).entries[i], r, i, ts)
  {
    UpdateChunkIs(p, r, i, ts, chs[i]);
    ChunkExtent(chs, i);
    OffsetIsPrefixLength(chs, i);
    UpdateRecordRead(p, r, ts);
    UpdateBody(p, r, ts);
    RecordTells(p, r, ts);
    KindSaid(p, r);
  }

  lemma UpdateIsAt(chs: seq<Chunk>, parsed: seq<ParsedRoute>, routes: seq<RouteSpec>, base: u32, i: nat)
    requires RouteList(chs, parsed, routes, Bgp4mpUpdates, base) && i < |routes|
    ensures i < |parsed| && i < |chs| && RouteIs(chs[i], parsed[i], routes[i], Bgp4mpUpdates, i, StampOf(base, i))
  {
    assert RouteIsAt(chs, parsed, routes, Bgp4mpUpdates, base, i);
  }

  /** BGP4MP files, end to end: for every accepted list, the manifest's entry i points at octets from which
      a reader recovers what the user said in route i and nothing else: time, session, attributes in their
      order, next hop and what is announced. */
  lemma UpdateFileTells(routes: seq<RouteSpec>, base: u32, i: nat)
    requires Generate(routes, Bgp4mpUpdates, base).Ok? && i < |routes|
    ensures var c := Generate(routes, Bgp4mpUpdates, base).value;
            |c.entries| == |routes|
            && HoldsUpdate(c.bytes, c.entries[i], routes[i], i, (base + i) % 0x1_0000_0000)
  {
    var chs, parsed := Listed(routes, Bgp4mpUpdates, base);
    ParsedAt(routes, i);
    ParsedIff(routes[i]);
    StampExact(base, i);
    UpdateIsAt(chs, parsed, routes, base, i);
    UpdateChunkTells(parsed[i], routes[i], i, StampOf(base, i), chs);
  }

  // ---------------------------------------------------------------- what a reader makes of a prefix

  /** The octets of a prefix, zero padded to an address, lie in the user's network; without host bits they
      are the user's address. */
  lemma ToldNetwork(s: seq<byte>, net: FlowSpec.Prefix)
    requires PrefixTold(s, net)
    ensures |s| <= |net.addr| && SameNetwork(PadTo(|net.addr|, s), net.addr, net.bits)
    ensures !PrefixHasHostBits(net.addr, net.bits) ==> PadTo(|net.addr|, s) == net.addr
  {
    PaddedFacts(net.addr, net.bits);
  }
}
