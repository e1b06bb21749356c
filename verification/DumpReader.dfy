/** Reading a TABLE_DUMP_V2 file of user routes back from its octets: peers, sequence numbers, NLRI, path
    identifiers, timestamps and attributes, all told from the user's routes. */
module DumpReader {
  import opened Bytes
  import opened Writer
  import opened Framing
  import opened Bgp
  import opened Records
  import opened Corpora
  import opened Routes
  import opened RouteChecks
  import opened UserRoutes
  import opened RouteAttributes
  import FlowSpec

  // ---------------------------------------------------------------- the reader

  datatype RawRecord = RawRecord(timestamp: nat, mrtType: nat, subtype: nat, body: seq<byte>)

  /** One record off the front of a file, by its Length field. */
  function TakeRecord(s: seq<byte>): (r: Option<Parsed<RawRecord>>)
    ensures r.Some? ==> |r.value.rest| < |s|
  {
    if |s| < 12 || |s| < 12 + Nat(s[8..12]) then None else
    var end := 12 + Nat(s[8..12]);
    Some(Parsed(RawRecord(Nat(s[..4]), Nat(s[4..6]), Nat(s[6..8]), s[12..end]), s[end..]))
  }

  function ReadRecords(s: seq<byte>): Option<seq<RawRecord>>
    decreases |s|
  {
    if s == [] then Some([]) else
    var first :- TakeRecord(s);
    var more :- ReadRecords(first.rest);
    Some([first.value] + more)
  }

  datatype DumpedRoute = DumpedRoute(timestamp: nat, rib: Rib)

  function ReadRoute(rec: RawRecord): Result<DumpedRoute> {
    if rec.mrtType != 13 then Err else
    match ReadRib(rec.subtype, rec.body)
    case None => Err
    case Some(rib) => Ok(DumpedRoute(rec.timestamp, rib))
  }

  datatype Dump = Dump(timestamp: nat, table: PeerTable, routes: seq<DumpedRoute>)

  /** A dump: a peer index table first, RIB records after it, nothing else. */
  function ReadDump(file: seq<byte>): Result<Dump> {
    match ReadRecords(file)
    case None => Err
    case Some(recs) =>
      if recs == [] || recs[0].mrtType != 13 || recs[0].subtype != 1 then Err else
      match ReadPeerTable(recs[0].body)
      case None => Err
      case Some(table) =>
        var routes :- Collect(recs[1..], ReadRoute);
        Ok(Dump(recs[0].timestamp, table, routes))
  }

  // ---------------------------------------------------------------- what the dump must say

  /** The peer table: two peers of AS 64500, the first with an IPv4 and the second with an IPv6 address. */
  predicate TableTold(t: PeerTable) {
    && t.collector == [192, 0, 2, 100]
    && |t.view| == 13 && (forall k :: 0 <= k < 13 ==> t.view[k] == "mrtgen-routes"[k] as int)
    && t.peers == [ Peer([192, 0, 2, 1], [192, 0, 2, 1], 64500, true),
                    Peer([192, 0, 2, 2], [0x20, 0x01, 0x0d, 0xb8, 0, 0, 0, 0, 0, 0, 0, 0, 0, 0, 0, 1], 64500, true) ]
  }

  predicate PathIdTold(id: Option<nat>, given: Option<u32>) {
    if given.Some? then id == Some(given.value) else id.None?
  }

  /** The octets that the prefix length covers are the user's; the others are zero. */
  predicate AddressTold(addr: seq<byte>, bits: nat, net: FlowSpec.Prefix) {
    && bits == net.bits && |addr| == |net.addr|
    && var n := (net.bits + 7) / 8;
       addr[..n] == net.addr[..n] && forall k :: n <= k < |addr| ==> addr[k] == 0
  }

  predicate DumpNlriTold(n: Nlri, r: RouteSpec) {
    && r.prefix.Some? && n.v6 == r.prefix.value.v6 && AddressTold(n.addr, n.bits, r.prefix.value)
    && if r.rd.Some? then n.Vpn? && PathIdTold(n.pathId, r.pathId) && n.mpls == UserLabel(r) && n.rd == r.rd.value
       else n.Plain?
  }

  /** The next hop in NEXT_HOP, or in the abbreviated MP_REACH_NLRI of RFC 6396 section 4.3.4. */
  predicate DumpCarrierTold(carrier: Attr, r: RouteSpec) {
    if r.rd.None? && !UserV6(r) then carrier == Attr(0x40, 3, UserNextHop(r))
    else carrier == Attr(0x80, 14, [|NextHopSaid(r)|] + NextHopSaid(r))
  }

  /** The one entry of a route: peer 0 for IPv4 and 1 for IPv6, the record's own time, the path identifier
      unless it is in the NLRI, and the attributes. */
  predicate DumpEntryTold(e: RibRead, r: RouteSpec, ts: nat) {
    && e.peerIndex == (if UserV6(r) then 1 else 0) && e.originated == ts
    && PathIdTold(e.pathId, if r.rd.Some? then None else r.pathId)
    && var attrs := ReadAttrs(e.attributes);
       attrs.Some? && AttributesTold(attrs.value, r) && DumpCarrierTold(attrs.value[2], r)
  }

  /** Everything a dumped route says of the user's route i. */
  predicate DumpTells(d: DumpedRoute, r: RouteSpec, i: nat, ts: nat) {
    && d.timestamp == ts && d.rib.sequence == i % 0x1_0000_0000
    && DumpNlriTold(d.rib.nlri, r)
    && |d.rib.entries| == 1 && DumpEntryTold(d.rib.entries[0], r, ts)
  }

  function DumpKind(r: RouteSpec): string {
    if r.rd.Some? && UserV6(r) then
      if r.pathId.Some? then "route_rib_generic_vpnv6_addpath" else "route_rib_generic_vpnv6"
    else if r.rd.Some? then
      if r.pathId.Some? then "route_rib_generic_vpnv4_addpath" else "route_rib_generic_vpnv4"
    else if UserV6(r) then
      if r.pathId.Some? then "route_rib_ipv6_unicast_addpath" else "route_rib_ipv6_unicast"
    else if r.pathId.Some? then "route_rib_ipv4_unicast_addpath" else "route_rib_ipv4_unicast"
  }

  function DumpSubtypeSaid(r: RouteSpec): u16 {
    if r.rd.Some? then (if r.pathId.Some? then 12 else 6)
    else if UserV6(r) then (if r.pathId.Some? then 10 else 4)
    else if r.pathId.Some? then 8 else 2
  }

  /** The manifest entry of a record, and the header in the octets it points at. */
  predicate DumpRecordTold(file: seq<byte>, e: RecordEntry, k: nat, subtype: u16, ts: u32, kind: string, expected: Expect) {
    && e.index == k && e.meta == Meta(13, subtype, ts, kind, expected)
    && var s := Extract(file, e);
       && |s| >= 12 && Nat(s[..4]) == ts && Nat(s[4..6]) == 13 && Nat(s[6..8]) == subtype && Nat(s[8..12]) == |s| - 12
  }

  // ---------------------------------------------------------------- records of a file

  function RawOf(rec: MrtRecord): RawRecord {
    RawRecord(rec.timestamp, rec.mrtType, rec.subtype, Payload(rec))
  }

  lemma TakeEncoded(rec: MrtRecord, tail: seq<byte>)
    requires Honest(rec)
    ensures TakeRecord(EncodeRecord(rec) + tail) == Some(Parsed(RawOf(rec), tail))
  {
    var e, s := EncodeRecord(rec), EncodeRecord(rec) + tail;
    HeaderFields(rec);
    assert s[..4] == e[0..4] && s[4..6] == e[4..6] && s[6..8] == e[6..8] && s[8..12] == e[8..12];
    assert s[12..|e|] == e[12..] && s[|e|..] == tail;
  }

  ghost predicate Encodes(ch: Chunk, raw: RawRecord) {
    exists rec :: Honest(rec) && ch.bytes == EncodeRecord(rec) && raw == RawOf(rec)
  }

  ghost predicate AllEncode(chs: seq<Chunk>, raws: seq<RawRecord>) {
    |chs| == |raws| && forall i :: 0 <= i < |chs| ==> Encodes(chs[i], raws[i])
  }

  lemma ReadRecordsCons(rec: MrtRecord, tail: seq<byte>, more: seq<RawRecord>)
    requires Honest(rec) && ReadRecords(tail) == Some(more)
    ensures ReadRecords(EncodeRecord(rec) + tail) == Some([RawOf(rec)] + more)
  {
    TakeEncoded(rec, tail);
  }

  lemma PartsCons(chs: seq<Chunk>)
    requires chs != []
    ensures Flat(Parts(chs)) == chs[0].bytes + Flat(Parts(chs[1..]))
  {
    assert Parts(chs)[1..] == Parts(chs[1..]);
  }

  lemma {:induction false} ReadEncodedRecords(chs: seq<Chunk>, raws: seq<RawRecord>)
    requires AllEncode(chs, raws)
    ensures ReadRecords(Flat(Parts(chs))) == Some(raws)
  {
    if chs != [] {
      assert Encodes(chs[0], raws[0]);
      var rec :| Honest(rec) && chs[0].bytes == EncodeRecord(rec) && raws[0] == RawOf(rec);
      PartsCons(chs);
      ReadEncodedRecords(chs[1..], raws[1..]);
      ReadRecordsCons(rec, Flat(Parts(chs[1..])), raws[1..]);
      assert [raws[0]] + raws[1..] == raws;
    }
  }

  // ---------------------------------------------------------------- one route

  /** What a reader must find for a route: its family, prefix, label, distinguisher and, for VPN
      routes, its path identifier. */
  function DumpedNlri(p: ParsedRoute, r: RouteSpec): Nlri
    requires p.flowNlri.None?
  {
    if p.rd.Some? then Vpn(p.v6, IdOf(r.pathId), p.mpls, p.rd.value, p.bits, Padded(p.prefix, p.bits))
    else Plain(p.v6, p.bits, Padded(p.prefix, p.bits))
  }

  function Dumped(p: ParsedRoute, r: RouteSpec, i: nat, ts: u32): DumpedRoute
    requires p.flowNlri.None?
  {
    DumpedRoute(ts, Rib(AsU32(i), DumpedNlri(p, r), [AsRead(DumpEntry(p, r, ts, AttrsBytes(DumpAttrs(p, r))))]))
  }

  lemma OneEntry(e: RibEntry, addPath: bool)
    requires e.pathId.Some? == addPath && e.AttrLength() == |e.attributes|
    ensures Uniform([e], addPath) && AllRead([e]) == [AsRead(e)]
  {
  }

  lemma RouteShape(p: ParsedRoute, r: RouteSpec)
    ensures ShapeOf(DumpSubtype(p, r)) ==
            Some(if p.rd.Some? then GenericShape(r.pathId.Some?) else PlainShape(p.v6, r.pathId.Some?))
  {
  }

  lemma VpnEntryRead(v6: bool, id: Option<u32>, sequence: u32, mpls: u32, rd: Octets8,
                     addr: seq<byte>, bits: byte, e: RibEntry)
    requires |addr| == WidthOf(v6) && bits <= 8 * |addr| && mpls < LABEL_LIMIT
    requires e.pathId.None? && e.AttrLength() == |e.attributes|
    ensures var nlri := FamilyNlri(Afi(v6), SAFI_MPLS_VPN, WithPathId(id, VpnNlri(mpls, rd, addr, bits)));
            ReadGenericRib(id.Some?, U32(sequence) + (nlri + RibTail([e]))) ==
            Some(Rib(sequence, Vpn(v6, IdOf(id), mpls, rd, bits, Padded(addr, bits)), [AsRead(e)]))
  {
    OneEntry(e, false);
    LabelLow(mpls);
    GenericRibRoundTrip(v6, id, sequence, mpls, rd, addr, bits, [e]);
  }

  lemma VpnDumped(p: ParsedRoute, r: RouteSpec, sequence: u32, e: RibEntry)
    requires p.flowNlri.None? && p.rd.Some? && e.pathId.None? && e.AttrLength() == |e.attributes|
    ensures ReadRib(DumpSubtype(p, r), U32(sequence) + (DumpNlri(p, r) + RibTail([e]))) ==
            Some(Rib(sequence, DumpedNlri(p, r), [AsRead(e)]))
  {
    RouteShape(p, r);
    VpnEntryRead(p.v6, r.pathId, sequence, p.mpls, p.rd.value, p.prefix, p.bits, e);
  }

  lemma PlainDumped(p: ParsedRoute, r: RouteSpec, sequence: u32, e: RibEntry)
    requires p.flowNlri.None? && p.rd.None? && e.pathId == r.pathId && e.AttrLength() == |e.attributes|
    ensures ReadRib(DumpSubtype(p, r), U32(sequence) + (DumpNlri(p, r) + RibTail([e]))) ==
            Some(Rib(sequence, DumpedNlri(p, r), [AsRead(e)]))
  {
    OneEntry(e, r.pathId.Some?);
    RouteShape(p, r);
    PlainRibRoundTrip(p.v6, r.pathId.Some?, sequence, p.prefix, p.bits, [e]);
  }

  lemma RouteReadBack(p: ParsedRoute, r: RouteSpec, i: nat, ts: u32)
    requires p.flowNlri.None? && DumpRecord(p, r, i, ts).Ok?
    ensures ReadRoute(RawOf(DumpRecord(p, r, i, ts).value)) == Ok(Dumped(p, r, i, ts))
  {
    var e := DumpEntry(p, r, ts, AttrsBytes(DumpAttrs(p, r)));
    var body := U32(AsU32(i)) + (DumpNlri(p, r) + RibTail([e]));
    assert Payload(DumpRecord(p, r, i, ts).value) == body;
    if p.rd.Some? {
      VpnDumped(p, r, AsU32(i), e);
    } else {
      PlainDumped(p, r, AsU32(i), e);
    }
  }

  // ---------------------------------------------------------------- the whole dump

  const ROUTES_TABLE := PeerTable(COLLECTOR_ID, VIEW_NAME, ROUTE_PEERS)

  function RawTable(base: u32): RawRecord { RawOf(PeerTableRecord(base, COLLECTOR_ID, VIEW_NAME, ROUTE_PEERS)) }

  lemma RoutePeersCarried()
    ensures AllCarried(ROUTE_PEERS) && |ROUTE_PEERS| == 2 && |VIEW_NAME| == 13
  {
  }

  lemma TableReadBack(base: u32)
    ensures ReadPeerTable(RawTable(base).body) == Some(ROUTES_TABLE)
  {
    RoutePeersCarried();
    PeerTableRecordRead(base, COLLECTOR_ID, VIEW_NAME, ROUTE_PEERS);
  }

  /** A route the dump holds at its place, as the reader must report it. */
  ghost predicate DumpsRoute(raw: RawRecord, ch: Chunk, p: ParsedRoute, r: RouteSpec, i: nat, ts: u32) {
    p.flowNlri.None? && Encodes(ch, raw) && ReadRoute(raw) == Ok(Dumped(p, r, i, ts))
  }

  /** The record a chunk holds. */
  function RawIn(ch: Chunk): RawRecord {
    var raw := TakeRecord(ch.bytes);
    if raw.Some? then raw.value.value else RawRecord(0, 0, 0, [])
  }

  lemma RouteDumped(p: ParsedRoute, r: RouteSpec, i: nat, ts: u32, ch: Chunk)
    requires RouteIs(ch, p, r, TableDumpV2, i, ts)
    ensures DumpsRoute(RawIn(ch), ch, p, r, i, ts)
  {
    var rec := DumpRecord(p, r, i, ts).value;
    DumpHonest(p, r, i, ts);
    RouteReadBack(p, r, i, ts);
    TakeEncoded(rec, []);
    assert EncodeRecord(rec) + [] == EncodeRecord(rec);
  }

  ghost predicate DumpsRouteAt(raw: RawRecord, chs: seq<Chunk>, parsed: seq<ParsedRoute>,
                               routes: seq<RouteSpec>, base: u32, i: nat) {
    && i < |parsed| && i < |routes| && 1 + i < |chs|
    && DumpsRoute(raw, chs[1 + i], parsed[i], routes[i], i, StampOf(base, 1 + i))
  }

  ghost predicate DumpsRoutes(raws: seq<RawRecord>, chs: seq<Chunk>, parsed: seq<ParsedRoute>, routes: seq<RouteSpec>, base: u32) {
    forall i :: 0 <= i < |raws| ==> DumpsRouteAt(raws[i], chs, parsed, routes, base, i)
  }

  lemma DumpedAt(chs: seq<Chunk>, parsed: seq<ParsedRoute>, routes: seq<RouteSpec>, base: u32, i: nat)
    requires RouteList(chs, parsed, routes, TableDumpV2, base) && i < |routes|
    ensures DumpsRouteAt(RawIn(chs[1 + i]), chs, parsed, routes, base, i)
  {
    assert RouteIsAt(chs, parsed, routes, TableDumpV2, base, i);
    RouteDumped(parsed[i], routes[i], i, StampOf(base, 1 + i), chs[1 + i]);
  }

  function RawsIn(chs: seq<Chunk>): (raws: seq<RawRecord>)
    requires chs != []
    ensures |raws| == |chs| - 1
  {
    seq(|chs| - 1, i requires 0 <= i < |chs| - 1 => RawIn(chs[1 + i]))
  }

  lemma DumpRaws(chs: seq<Chunk>, parsed: seq<ParsedRoute>, routes: seq<RouteSpec>, base: u32)
    requires RouteList(chs, parsed, routes, TableDumpV2, base)
    ensures DumpsRoutes(RawsIn(chs), chs, parsed, routes, base)
  {
    var raws := RawsIn(chs);
    forall i | 0 <= i < |raws|
      ensures DumpsRouteAt(raws[i], chs, parsed, routes, base, i)
    {
      DumpedAt(chs, parsed, routes, base, i);
      assert raws[i] == RawIn(chs[1 + i]);
    }
  }

  /** The reader's route i is the route the user gave, stamped by its position in the file. */
  predicate Recovered(d: DumpedRoute, p: ParsedRoute, r: RouteSpec, i: nat, ts: u32) {
    p.flowNlri.None? && d == Dumped(p, r, i, ts)
  }

  lemma TableEncodes(base: u32)
    ensures Encodes(TableChunk(base), RawTable(base))
  {
    TableHonest(base);
  }

  lemma ReadCollected(file: seq<byte>, base: u32, raws: seq<RawRecord>, ds: seq<DumpedRoute>)
    requires ReadRecords(file) == Some([RawTable(base)] + raws) && Collect(raws, ReadRoute) == Ok(ds)
    ensures ReadDump(file) == Ok(Dump(base, ROUTES_TABLE, ds))
  {
    TableReadBack(base);
    assert ([RawTable(base)] + raws)[1..] == raws;
  }

  /** The reader accepts, finds the peer table, and recovers every route. */
  predicate RecoversAll(d: Result<Dump>, parsed: seq<ParsedRoute>, routes: seq<RouteSpec>, base: u32) {
    && d.Ok? && d.value.timestamp == base && d.value.table == ROUTES_TABLE && RecoversRoutes(d.value.routes, parsed, routes, base)
  }

  predicate RecoversRoutes(ds: seq<DumpedRoute>, parsed: seq<ParsedRoute>, routes: seq<RouteSpec>, base: u32) {
    && |ds| == |parsed| == |routes|
    && forall i :: 0 <= i < |routes| ==> Recovered(ds[i], parsed[i], routes[i], i, StampOf(base, 1 + i))
  }

  lemma RawsRead(raws: seq<RawRecord>, chs: seq<Chunk>, parsed: seq<ParsedRoute>, routes: seq<RouteSpec>, base: u32)
    returns (ds: seq<DumpedRoute>)
    requires |raws| == |routes| == |parsed| && DumpsRoutes(raws, chs, parsed, routes, base)
    ensures Collect(raws, ReadRoute) == Ok(ds) && RecoversRoutes(ds, parsed, routes, base)
  {
    forall i | 0 <= i < |routes|
      ensures ReadRoute(raws[i]).Ok? && Recovered(ReadRoute(raws[i]).value, parsed[i], routes[i], i, StampOf(base, 1 + i))
    {
      assert DumpsRouteAt(raws[i], chs, parsed, routes, base, i);
    }
    ds := seq(|routes|, i requires 0 <= i < |routes| => ReadRoute(raws[i]).value);
    CollectAll(raws, ReadRoute, ds);
  }

  lemma DumpEncodes(raws: seq<RawRecord>, chs: seq<Chunk>, parsed: seq<ParsedRoute>, routes: seq<RouteSpec>, base: u32)
    requires |raws| == |routes| && |chs| == 1 + |routes| && DumpsRoutes(raws, chs, parsed, routes, base)
    requires Encodes(chs[0], RawTable(base))
    ensures AllEncode(chs, [RawTable(base)] + raws)
  {
    forall k | 0 <= k < |chs|
      ensures Encodes(chs[k], ([RawTable(base)] + raws)[k])
    {
      if k > 0 { assert DumpsRouteAt(raws[k - 1], chs, parsed, routes, base, k - 1); }
    }
  }

  lemma ListRoundTrip(chs: seq<Chunk>, parsed: seq<ParsedRoute>, routes: seq<RouteSpec>, base: u32)
    requires RouteList(chs, parsed, routes, TableDumpV2, base)
    ensures RecoversAll(ReadDump(Assemble(chs).bytes), parsed, routes, base)
  {
    var raws := RawsIn(chs);
    DumpRaws(chs, parsed, routes, base);
    TableEncodes(base);
    DumpEncodes(raws, chs, parsed, routes, base);
    AssembleBytes(chs);
    ReadEncodedRecords(chs, [RawTable(base)] + raws);
    var ds := RawsRead(raws, chs, parsed, routes, base);
    ReadCollected(Flat(Parts(chs)), base, raws, ds);
  }

  // ---------------------------------------------------------------- what was written for the routes

  lemma AddressWritten(net: FlowSpec.Prefix)
    ensures AddressTold(Padded(net.addr, net.bits), net.bits, net)
  {
  }

  lemma DumpNlriWritten(p: ParsedRoute, r: RouteSpec)
    requires TakenFrom(p, r) && p.flowNlri.None?
    ensures DumpNlriTold(DumpedNlri(p, r), r)
  {
    AddressWritten(r.prefix.value);
  }

  lemma DumpCarrierWritten(p: ParsedRoute, r: RouteSpec)
    requires TakenFrom(p, r) && p.flowNlri.None?
    ensures DumpCarrierTold(Emitted(DumpCarrier(p)), r)
  {
    assert Zeros(8) == [0, 0, 0, 0, 0, 0, 0, 0];
  }

  lemma DumpEntryWritten(p: ParsedRoute, r: RouteSpec, i: nat, ts: u32)
    requires TakenFrom(p, r) && p.flowNlri.None? && DumpRecord(p, r, i, ts).Ok?
    ensures DumpEntryTold(AsRead(DumpEntry(p, r, ts, AttrsBytes(DumpAttrs(p, r)))), r, ts)
  {
    DecodedAttributesTold(p, r, DumpCarrier(p));
    DumpCarrierWritten(p, r);
  }

  lemma DumpedTells(p: ParsedRoute, r: RouteSpec, i: nat, ts: u32)
    requires TakenFrom(p, r) && p.flowNlri.None? && DumpRecord(p, r, i, ts).Ok?
    ensures DumpTells(Dumped(p, r, i, ts), r, i, ts)
  {
    DumpNlriWritten(p, r);
    DumpEntryWritten(p, r, i, ts);
  }

  lemma RoutesTableTold()
    ensures TableTold(ROUTES_TABLE)
  {
    assert Ipv6Host(1) == [0x20, 0x01, 0x0d, 0xb8, 0, 0, 0, 0, 0, 0, 0, 0, 0, 0, 0, 1];
  }

  lemma DumpKindSaid(p: ParsedRoute, r: RouteSpec)
    requires TakenFrom(p, r)
    ensures KindOf(TableDumpV2, p, r) == DumpKind(r) && DumpSubtype(p, r) == DumpSubtypeSaid(r)
  {
  }

  lemma {:induction false} HeaderSaid(chs: seq<Chunk>, k: nat, rec: MrtRecord, kind: string, expected: Expect)
    requires k < |chs| && chs[k] == RecordChunk(rec, kind, expected) && Honest(rec) && rec.mrtType == 13
    ensures DumpRecordTold(Assemble(chs).bytes, Assemble(chs).entries[k], k, rec.subtype, rec.timestamp, kind, expected)
  {
    HeaderFields(rec);
    ChunkExtent(chs, k);
    OffsetIsPrefixLength(chs, k);
    assert EncodeRecord(rec)[0..4] == EncodeRecord(rec)[..4];
  }

  lemma DumpChunkIs(p: ParsedRoute, r: RouteSpec, i: nat, ts: u32, ch: Chunk)
    requires RouteIs(ch, p, r, TableDumpV2, i, ts)
    ensures p.flowNlri.None? && DumpRecord(p, r, i, ts).Ok?
    ensures var rec := DumpRecord(p, r, i, ts).value;
            ch == RecordChunk(rec, KindOf(TableDumpV2, p, r), p.expected)
            && rec.mrtType == 13 && rec.subtype == DumpSubtype(p, r) && rec.timestamp == ts
  {
  }

  /** The record of a dumped route, as manifest and header describe it. */
  lemma DescribedRecord(p: ParsedRoute, r: RouteSpec, i: nat, ts: u32, ch: Chunk) returns (rec: MrtRecord)
    requires TakenFrom(p, r) && RouteIs(ch, p, r, TableDumpV2, i, ts)
    ensures ch == RecordChunk(rec, DumpKind(r), UserExpected(r)) && Honest(rec)
    ensures rec.mrtType == 13 && rec.subtype == DumpSubtypeSaid(r) && rec.timestamp == ts
  {
    DumpChunkIs(p, r, i, ts, ch);
    rec := DumpRecord(p, r, i, ts).value;
    DumpHonest(p, r, i, ts);
    DumpKindSaid(p, r);
  }

  /** The reader's route i tells the user's, and so do manifest and header of its record. */
  predicate HoldsDumped(c: Corpus, d: Dump, r: RouteSpec, i: nat, ts: u32) {
    && i < |d.routes| && 1 + i < |c.entries|
    && DumpTells(d.routes[i], r, i, ts)
    && DumpRecordTold(c.bytes, c.entries[1 + i], 1 + i, DumpSubtypeSaid(r), ts, DumpKind(r), UserExpected(r))
  }

  lemma RecoveredAt(d: Result<Dump>, parsed: seq<ParsedRoute>, routes: seq<RouteSpec>, base: u32, i: nat)
    requires RecoversAll(d, parsed, routes, base) && i < |routes|
    ensures d.Ok? && i < |d.value.routes| && Recovered(d.value.routes[i], parsed[i], routes[i], i, StampOf(base, 1 + i))
  {
  }

  lemma ListDumpTells(d: Result<Dump>, chs: seq<Chunk>, parsed: seq<ParsedRoute>, routes: seq<RouteSpec>, base: u32, i: nat, ts: u32)
    requires RouteIsAt(chs, parsed, routes, TableDumpV2, base, i) && RecoversAll(d, parsed, routes, base)
    requires TakenFrom(parsed[i], routes[i]) && ts == StampOf(base, 1 + i)
    ensures d.Ok? && HoldsDumped(Assemble(chs), d.value, routes[i], i, ts)
  {
    RecoveredAt(d, parsed, routes, base, i);
    DumpChunkIs(parsed[i], routes[i], i, ts, chs[1 + i]);
    DumpedTells(parsed[i], routes[i], i, ts);
    var rec := DescribedRecord(parsed[i], routes[i], i, ts, chs[1 + i]);
    HeaderSaid(chs, 1 + i, rec, DumpKind(routes[i]), UserExpected(routes[i]));
  }

  lemma TableRecordTells(chs: seq<Chunk>, base: u32)
    requires chs != [] && chs[0] == TableChunk(base)
    ensures DumpRecordTold(Assemble(chs).bytes, Assemble(chs).entries[0], 0, 1, base, "route_peer_index_table", Valid)
  {
    TableHonest(base);
    HeaderSaid(chs, 0, PeerTableRecord(base, COLLECTOR_ID, VIEW_NAME, ROUTE_PEERS), "route_peer_index_table", Valid);
  }

  /** The reader accepts the file, finds the two peers, and as many routes as the user gave. */
  predicate HoldsTable(c: Corpus, d: Result<Dump>, base: u32, n: nat) {
    && d.Ok? && d.value.timestamp == base && TableTold(d.value.table) && |d.value.routes| == n
    && |c.entries| == 1 + n
    && DumpRecordTold(c.bytes, c.entries[0], 0, 1, base, "route_peer_index_table", Valid)
  }

  /** TABLE_DUMP_V2 files, the table: for every accepted list a reader that gets nothing but the octets of
      the file accepts it and finds the peer table first and one route for each of the user's. */
  lemma DumpTableTells(routes: seq<RouteSpec>, base: u32)
    requires Generate(routes, TableDumpV2, base).Ok?
    ensures var c := Generate(routes, TableDumpV2, base).value;
            HoldsTable(c, ReadDump(c.bytes), base, |routes|)
  {
    var chs, parsed := Listed(routes, TableDumpV2, base);
    ListRoundTrip(chs, parsed, routes, base);
    TableRecordTells(chs, base);
    RoutesTableTold();
  }

  /** And the routes: route i of what the reader returns says what the user said in route i and nothing
      else: time, sequence number, network, label, distinguisher, path identifier, peer, attributes. */
  lemma DumpFileTells(routes: seq<RouteSpec>, base: u32, i: nat)
    requires Generate(routes, TableDumpV2, base).Ok? && i < |routes|
    ensures var c := Generate(routes, TableDumpV2, base).value;
            ReadDump(c.bytes).Ok? && HoldsDumped(c, ReadDump(c.bytes).value, routes[i], i, (base + 1 + i) % 0x1_0000_0000)
  {
    var chs, parsed := Listed(routes, TableDumpV2, base);
    ListRoundTrip(chs, parsed, routes, base);
    ParsedAt(routes, i);
    ParsedIff(routes[i]);
    StampExact(base, 1 + i);
    assert RouteIsAt(chs, parsed, routes, TableDumpV2, base, i);
    ListDumpTells(ReadDump(Assemble(chs).bytes), chs, parsed, routes, base, i, StampOf(base, 1 + i));
  }
}
