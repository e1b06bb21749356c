/** What an accepted route list guarantees: exact length fields, conservation, clean framing. */
module RouteChecks {
  import opened Bytes
  import opened Writer
  import opened Framing
  import opened Bgp
  import opened Records
  import opened Corpora
  import opened Routes
  import Slicing

  // ---------------------------------------------------------------- late size checks

  /** The attribute's own length field, one or two octets, holds the size of its value. */
  predicate AttrLengthExact(a: Attr) {
    if |a.value| > 255 then AsU16(|a.value|) == |a.value| else AsU8(|a.value|) == |a.value|
  }

  /** So does every attribute's, and so does a sixteen-bit length in front of them all. */
  predicate LengthsExact(attrs: seq<Attr>) {
    && AsU16(|AttrsBytes(attrs)|) == |AttrsBytes(attrs)|
    && forall i :: 0 <= i < |attrs| ==> AttrLengthExact(attrs[i])
  }

  /** One check on the size of the finished attributes stands for all the checks that were not made
      while their length fields were being written. */
  lemma LengthsExactIff(attrs: seq<Attr>)
    ensures LengthsExact(attrs) <==> |AttrsBytes(attrs)| <= 0xFFFF
  {
    if |AttrsBytes(attrs)| <= 0xFFFF {
      TotalFits(attrs);
    }
  }

  lemma DumpNlriSize(p: ParsedRoute, r: RouteSpec)
    requires p.flowNlri.None?
    ensures |DumpNlri(p, r)| <= 35
  {
  }

  lemma DumpBodySize(sequence: u32, nlri: seq<byte>, e: RibEntry)
    requires |e.attributes| <= 0xFFFF && |nlri| <= 35
    ensures |U32(sequence) + (nlri + RibTail([e]))| <= 0x1_0064
  {
    assert Flat(EntryParts([e])) == EntryBytes(e) + [];
  }

  lemma DumpHonest(p: ParsedRoute, r: RouteSpec, i: nat, ts: u32)
    requires p.flowNlri.None? && DumpRecord(p, r, i, ts).Ok?
    ensures Honest(DumpRecord(p, r, i, ts).value)
  {
    DumpNlriSize(p, r);
    DumpBodySize(AsU32(i), DumpNlri(p, r), DumpEntry(p, r, ts, AttrsBytes(DumpAttrs(p, r))));
    ComputedLengthHonest(DumpRecord(p, r, i, ts).value);
  }

  /** TABLE_DUMP_V2: a route is accepted exactly when no length field of an attribute or of the
      entry loses bits. */
  lemma DumpLateCheck(p: ParsedRoute, r: RouteSpec, i: nat, ts: u32)
    requires p.flowNlri.None?
    ensures DumpRecord(p, r, i, ts).Ok? <==> LengthsExact(DumpAttrs(p, r))
  {
    LengthsExactIff(DumpAttrs(p, r));
  }

  lemma SessionSize(ts: u32, subtype: u16, peerAs: u32, v6: bool, update: seq<byte>)
    requires |update| <= MAX_MESSAGE
    ensures Honest(Bgp4mpRecord(ts, BGP4MP, None, subtype, peerAs, LOCAL_AS, 1, PeerIp(v6), LocalIp(v6), update))
  {
  }

  lemma UpdateHonest(p: ParsedRoute, r: RouteSpec, ts: u32)
    requires UpdateRecord(p, r, ts).Ok?
    ensures |UpdateBytes(p, r)| <= MAX_MESSAGE && Honest(UpdateRecord(p, r, ts).value)
  {
    SessionSize(ts, UpdateSubtype(r), PeerAs(p), p.v6, UpdateBytes(p, r));
  }

  /** The Length field of the message header. */
  predicate MessageLengthExact(message: seq<byte>) { AsU16(|message|) == |message| }

  lemma AttrsWithinUpdate(attrs: seq<byte>, nlri: seq<byte>)
    requires |Update([], attrs, nlri)| <= MAX_MESSAGE
    ensures |attrs| <= 0xFFFF && MessageLengthExact(Update([], attrs, nlri))
  {
  }

  /** BGP4MP: a finished UPDATE within the message limit lost no bits in the length field of an
      attribute, of the attribute section or of the message. */
  lemma UpdateLateCheck(p: ParsedRoute, r: RouteSpec)
    requires |UpdateBytes(p, r)| <= MAX_MESSAGE
    ensures LengthsExact(UpdateAttrs(p, r)) && MessageLengthExact(UpdateBytes(p, r))
  {
    AttrsWithinUpdate(AttrsBytes(UpdateAttrs(p, r)), UpdateNlri(p, r));
    LengthsExactIff(UpdateAttrs(p, r));
  }

  /** The AS_PATH count octet alone is exempt: it is exact, and the path readable, for at most 255
      AS numbers, which validation guarantees for every route expected to be valid. */
  lemma PathCountExact(p: ParsedRoute)
    ensures AsU8(|p.asPath|) == |p.asPath| <==> |p.asPath| <= 255
    ensures ReadSegments(AsPathValue(p.asPath)) == Some(PathOf(p.asPath)) <==> |p.asPath| <= 255
    ensures p.expected == Valid ==> |p.asPath| <= 255
  {
    AsPathRoundTrip(p.asPath);
  }

  // ---------------------------------------------------------------- the file of a route list

  function Opening(format: Format): nat { if format == TableDumpV2 then 1 else 0 }

  /** The chunk a parsed route turned into, at its place among all. */
  ghost predicate RouteIs(ch: Chunk, p: ParsedRoute, r: RouteSpec, format: Format, i: nat, ts: u32) {
    RouteChunk(format, p, r, i, ts) == Ok(ch)
  }

  ghost predicate RouteIsAt(chs: seq<Chunk>, parsed: seq<ParsedRoute>, routes: seq<RouteSpec>, format: Format, base: u32, i: nat) {
    && i < |routes| == |parsed| && Opening(format) + i < |chs|
    && RouteIs(chs[Opening(format) + i], parsed[i], routes[i], format, i, StampOf(base, Opening(format) + i))
  }

  /** A dump opens with the peer table; then one record per route, in order, stamped by position. */
  ghost predicate RouteList(chs: seq<Chunk>, parsed: seq<ParsedRoute>, routes: seq<RouteSpec>, format: Format, base: u32) {
    && |chs| == Opening(format) + |routes| && |parsed| == |routes|
    && (format == TableDumpV2 ==> chs[0] == TableChunk(base))
    && forall i :: 0 <= i < |routes| ==> RouteIsAt(chs, parsed, routes, format, base, i)
  }

  lemma MadeIs(ch: Chunk, make: (nat, u32) -> Result<Chunk>, format: Format, p: ParsedRoute, r: RouteSpec, i: nat, ts: u32)
    requires MakesRoute(make, format, p, r, i, ts) && make(i, ts) == Ok(ch)
    ensures RouteIs(ch, p, r, format, i, ts)
  {
  }

  lemma MadeAt(opening: seq<Chunk>, base: u32, n: nat, make: (nat, u32) -> Result<Chunk>,
               format: Format, p: ParsedRoute, r: RouteSpec, chs: seq<Chunk>, i: nat)
    requires Stamped(opening, base, n, make) == Ok(chs) && i < n
    requires MakesRoute(make, format, p, r, i, StampOf(base, |opening| + i))
    ensures RouteIs(chs[|opening| + i], p, r, format, i, StampOf(base, |opening| + i))
  {
    StampedAt(opening, base, n, make, i);
    MadeIs(chs[|opening| + i], make, format, p, r, i, StampOf(base, |opening| + i));
  }

  lemma OpeningKept(opening: seq<Chunk>, base: u32, n: nat, make: (nat, u32) -> Result<Chunk>)
    requires Stamped(opening, base, n, make).Ok?
    ensures Stamped(opening, base, n, make).value[..|opening|] == opening
  {
    if n == 0 {
      assert opening[..|opening|] == opening;
    } else {
      StampedAt(opening, base, n, make, 0);
    }
  }

  lemma PlacedAt(chs: seq<Chunk>, parsed: seq<ParsedRoute>, routes: seq<RouteSpec>, format: Format, base: u32, i: nat, k: nat)
    requires i < |routes| == |parsed| && k == Opening(format) + i < |chs|
    requires RouteIs(chs[k], parsed[i], routes[i], format, i, StampOf(base, k))
    ensures RouteIsAt(chs, parsed, routes, format, base, i)
  {
  }

  lemma MadeOne(opening: seq<Chunk>, base: u32, make: (nat, u32) -> Result<Chunk>,
                format: Format, routes: seq<RouteSpec>, parsed: seq<ParsedRoute>, chs: seq<Chunk>, i: nat)
    requires i < |routes| == |parsed| && MakesRoutes(make, format, routes, parsed) && |opening| == Opening(format)
    requires Stamped(opening, base, |routes|, make) == Ok(chs)
    ensures RouteIsAt(chs, parsed, routes, format, base, i)
  {
    var k := |opening| + i;
    assert MakesRoute(make, format, parsed[i], routes[i], i, StampOf(base, k));
    MadeAt(opening, base, |routes|, make, format, parsed[i], routes[i], chs, i);
    PlacedAt(chs, parsed, routes, format, base, i, k);
  }

  lemma MadeTable(base: u32, n: nat, make: (nat, u32) -> Result<Chunk>, chs: seq<Chunk>)
    requires Stamped([TableChunk(base)], base, n, make) == Ok(chs)
    ensures chs[0] == TableChunk(base)
  {
    OpeningKept([TableChunk(base)], base, n, make);
    assert chs[..1][0] == TableChunk(base);
  }

  lemma MadeList(base: u32, make: (nat, u32) -> Result<Chunk>,
                 format: Format, routes: seq<RouteSpec>, parsed: seq<ParsedRoute>, chs: seq<Chunk>)
    requires |routes| == |parsed| && MakesRoutes(make, format, routes, parsed)
    requires Stamped(Preface(format, base), base, |routes|, make) == Ok(chs)
    ensures RouteList(chs, parsed, routes, format, base)
  {
    forall i | 0 <= i < |routes|
      ensures RouteIsAt(chs, parsed, routes, format, base, i)
    {
      MadeOne(Preface(format, base), base, make, format, routes, parsed, chs, i);
    }
    if format == TableDumpV2 {
      MadeTable(base, |routes|, make, chs);
    }
  }

  /** An accepted list is assembled from a route list. */
  lemma Listed(routes: seq<RouteSpec>, format: Format, base: u32) returns (chs: seq<Chunk>, parsed: seq<ParsedRoute>)
    requires Generate(routes, format, base).Ok?
    ensures ParseAll(routes) == Ok(parsed) && RouteList(chs, parsed, routes, format, base)
    ensures Generate(routes, format, base) == Ok(Assemble(chs))
  {
    parsed := ParseAll(routes).value;
    chs := Chunks(routes, format, base).value;
    MakerMakes(format, routes, parsed);
    MadeList(base, Maker(format, routes, parsed), format, routes, parsed, chs);
  }

  lemma TableHonest(base: u32)
    ensures Honest(PeerTableRecord(base, COLLECTOR_ID, VIEW_NAME, ROUTE_PEERS))
  {
    var a, b := PeerBytes(ROUTE_PEERS[0]), PeerBytes(ROUTE_PEERS[1]);
    assert PeerParts(ROUTE_PEERS) == [a, b];
    FlatTwo(a, b);
  }

  lemma RouteRecordHonest(format: Format, p: ParsedRoute, r: RouteSpec, i: nat, ts: u32)
    requires RouteRecord(format, p, r, i, ts).Ok?
    ensures Honest(RouteRecord(format, p, r, i, ts).value)
  {
    match format {
      case TableDumpV2 => DumpHonest(p, r, i, ts);
      case Bgp4mpUpdates => UpdateHonest(p, r, ts);
    }
  }

  lemma RouteFramed(ch: Chunk, p: ParsedRoute, r: RouteSpec, format: Format, i: nat, ts: u32)
    requires RouteIs(ch, p, r, format, i, ts)
    ensures Framed(ch.bytes)
  {
    RouteRecordHonest(format, p, r, i, ts);
    EncodedFramed(RouteRecord(format, p, r, i, ts).value);
  }

  lemma TableFramed(base: u32)
    ensures Framed(TableChunk(base).bytes) && TableChunk(base).meta.expected == Valid
  {
    TableHonest(base);
    EncodedFramed(PeerTableRecord(base, COLLECTOR_ID, VIEW_NAME, ROUTE_PEERS));
  }

  lemma RouteMeta(ch: Chunk, p: ParsedRoute, r: RouteSpec, format: Format, i: nat, ts: u32)
    requires RouteIs(ch, p, r, format, i, ts)
    ensures ch.meta.expected == p.expected && ch.meta.expected != Abort && ch.meta.timestamp == ts
  {
  }

  /** Every record of an accepted route list is honestly framed and of the valid or skip class. */
  lemma RouteListSound(chs: seq<Chunk>, parsed: seq<ParsedRoute>, routes: seq<RouteSpec>, format: Format, base: u32, k: nat)
    requires RouteList(chs, parsed, routes, format, base) && k < |chs|
    ensures Framed(chs[k].bytes) && chs[k].meta.expected != Abort
  {
    if k < Opening(format) {
      TableFramed(base);
    } else {
      var i := k - Opening(format);
      assert RouteIsAt(chs, parsed, routes, format, base, i);
      RouteFramed(chs[k], parsed[i], routes[i], format, i, StampOf(base, k));
      RouteMeta(chs[k], parsed[i], routes[i], format, i, StampOf(base, k));
    }
  }

  lemma RecordTypeTold(rec: MrtRecord, kind: string, expected: Expect)
    ensures Slicing.TypeTold(RecordChunk(rec, kind, expected))
  {
    HeaderFields(rec);
  }

  lemma ListTypesTold(chs: seq<Chunk>, parsed: seq<ParsedRoute>, routes: seq<RouteSpec>, format: Format, base: u32, k: nat)
    requires RouteList(chs, parsed, routes, format, base) && k < |chs|
    ensures Slicing.TypeTold(chs[k])
  {
    if k < Opening(format) {
      RecordTypeTold(PeerTableRecord(base, COLLECTOR_ID, VIEW_NAME, ROUTE_PEERS), "route_peer_index_table", Valid);
    } else {
      var i := k - Opening(format);
      assert RouteIsAt(chs, parsed, routes, format, base, i);
      RecordTypeTold(RouteRecord(format, parsed[i], routes[i], i, StampOf(base, k)).value, chs[k].meta.kind, chs[k].meta.expected);
    }
  }

  /** Generated files tell the types of their records, so every choice slices exactly what it asks for
      from them. */
  lemma RouteTypesTold(routes: seq<RouteSpec>, format: Format, base: u32)
    requires Generate(routes, format, base).Ok?
    ensures Slicing.TypesTold(Corpora.Records(Generate(routes, format, base).value))
  {
    var chs, parsed := Listed(routes, format, base);
    AssembleLayout(chs);
    forall k | 0 <= k < |chs|
      ensures Slicing.TypeTold(chs[k])
    {
      ListTypesTold(chs, parsed, routes, format, base, k);
    }
  }

  // ---------------------------------------------------------------- conservation

  lemma {:induction false} CountsOfChunks(chs: seq<Chunk>)
    requires forall i :: 0 <= i < |chs| ==> chs[i].meta.expected != Abort
    ensures Assemble(chs).counts.Total() == |chs| && Assemble(chs).counts.abort == 0
  {
    if chs != [] { CountsOfChunks(chs[..|chs| - 1]); }
  }

  /** Everything a corpus of n records without fatal tail promises. */
  ghost predicate Conserved(c: Corpus, n: nat) {
    && |c.entries| == n && c.counts.valid + c.counts.skip == n && c.counts.abort == 0
    && Layout(c) && CountsTell(c.counts, c.entries)
    && Walk(c.bytes) == Walked(n, true) && Visits(c.bytes, 0) == Offsets(c)
  }

  lemma ListConserved(chs: seq<Chunk>, parsed: seq<ParsedRoute>, routes: seq<RouteSpec>, format: Format, base: u32)
    requires RouteList(chs, parsed, routes, format, base)
    ensures Conserved(Assemble(chs), |chs|)
  {
    forall k | 0 <= k < |chs|
      ensures Framed(chs[k].bytes) && chs[k].meta.expected != Abort
    {
      RouteListSound(chs, parsed, routes, format, base, k);
    }
    CountsOfChunks(chs);
    AssembleLayout(chs);
    LayoutCounts(Assemble(chs).entries);
    WalkAgreesWithManifest(chs);
  }

  /** On every accepted run there is one record per route, one more for the peer table of a dump,
      each counted as valid or skip and none as abort; the manifest partitions the file, and the
      walker stops cleanly at its end having met exactly the manifest's offsets. */
  lemma Conservation(routes: seq<RouteSpec>, format: Format, base: u32)
    requires Generate(routes, format, base).Ok?
    ensures Conserved(Generate(routes, format, base).value, |routes| + (if format == TableDumpV2 then 1 else 0))
  {
    var chs, parsed := Listed(routes, format, base);
    ListConserved(chs, parsed, routes, format, base);
  }

  // ---------------------------------------------------------------- length fields of a whole run

  predicate NextHopExact(p: ParsedRoute) { AsU8(|CarriedNextHop(p)|) == |CarriedNextHop(p)| }

  predicate LengthsKept(format: Format, p: ParsedRoute, r: RouteSpec) {
    match format
    case TableDumpV2 => LengthsExact(DumpAttrs(p, r))
    case Bgp4mpUpdates => LengthsExact(UpdateAttrs(p, r)) && MessageLengthExact(UpdateBytes(p, r))
  }

  /** No length field written for a route, in either format, lost bits. */
  predicate NothingLost(format: Format, p: ParsedRoute, r: RouteSpec) {
    && NextHopExact(p) && LengthsKept(format, p, r)
    && (p.expected == Valid ==> AsU8(|p.asPath|) == |p.asPath|)
  }

  lemma NextHopsExact(p: ParsedRoute)
    ensures NextHopExact(p)
  {
  }

  lemma DumpKept(p: ParsedRoute, r: RouteSpec, i: nat, ts: u32)
    requires RouteRecord(TableDumpV2, p, r, i, ts).Ok?
    ensures LengthsKept(TableDumpV2, p, r)
  {
    DumpLateCheck(p, r, i, ts);
  }

  lemma UpdateKept(p: ParsedRoute, r: RouteSpec, i: nat, ts: u32)
    requires RouteRecord(Bgp4mpUpdates, p, r, i, ts).Ok?
    ensures LengthsKept(Bgp4mpUpdates, p, r)
  {
    UpdateHonest(p, r, ts);
    UpdateLateCheck(p, r);
  }

  lemma RouteNothingLost(format: Format, p: ParsedRoute, r: RouteSpec, i: nat, ts: u32)
    requires RouteRecord(format, p, r, i, ts).Ok?
    ensures NothingLost(format, p, r)
  {
    PathCountExact(p);
    NextHopsExact(p);
    if format == TableDumpV2 {
      DumpKept(p, r, i, ts);
    } else {
      UpdateKept(p, r, i, ts);
    }
  }

  /** What a list of chunks and its corpus keep of one route. */
  ghost predicate FramedWithoutLoss(c: Corpus, k: nat, format: Format, p: ParsedRoute, r: RouteSpec) {
    k < |c.entries| && Framed(Extract(c.bytes, c.entries[k])) && NothingLost(format, p, r)
  }

  lemma ListNothingLost(chs: seq<Chunk>, parsed: seq<ParsedRoute>, routes: seq<RouteSpec>, format: Format, base: u32, i: nat)
    requires RouteList(chs, parsed, routes, format, base) && i < |routes|
    ensures FramedWithoutLoss(Assemble(chs), Opening(format) + i, format, parsed[i], routes[i])
  {
    assert RouteIsAt(chs, parsed, routes, format, base, i);
    RouteNothingLost(format, parsed[i], routes[i], i, StampOf(base, Opening(format) + i));
    RouteListSound(chs, parsed, routes, format, base, Opening(format) + i);
    ChunkExtent(chs, Opening(format) + i);
  }

  /** The late size checks suffice: on every accepted run no narrowing cast of a length, for any
      route and any attribute or community list sizes, lost bits, from the attributes out to the
      record's own Length field. */
  lemma LateChecksSuffice(routes: seq<RouteSpec>, format: Format, base: u32, i: nat)
    requires Generate(routes, format, base).Ok? && i < |routes|
    ensures ParseAll(routes).Ok?
    ensures FramedWithoutLoss(Generate(routes, format, base).value, Opening(format) + i, format,
                              ParseAll(routes).value[i], routes[i])
  {
    var chs, parsed := Listed(routes, format, base);
    ListNothingLost(chs, parsed, routes, format, base, i);
  }

  // ---------------------------------------------------------------- acceptance

  ghost predicate AcceptedAlone(r: RouteSpec, format: Format, i: nat, ts: u32) {
    ParseRoute(r).Ok? && RouteRecord(format, ParseRoute(r).value, r, i, ts).Ok?
  }

  lemma AcceptedAt(routes: seq<RouteSpec>, format: Format, base: u32, i: nat)
    requires ParseAll(routes).Ok? && i < |routes|
    ensures CanMake(Opening(format), base, Maker(format, routes, ParseAll(routes).value), i)
            <==> AcceptedAlone(routes[i], format, i, StampOf(base, Opening(format) + i))
  {
    var parsed := ParseAll(routes).value;
    ParsedAt(routes, i);
    MakerMakes(format, routes, parsed);
    assert MakesRoute(Maker(format, routes, parsed), format, parsed[i], routes[i], i, StampOf(base, Opening(format) + i));
  }

  /** A route list is accepted exactly when every route on its own parses and encodes at its place. */
  lemma AcceptedIff(routes: seq<RouteSpec>, format: Format, base: u32)
    ensures Generate(routes, format, base).Ok? <==>
            forall i :: 0 <= i < |routes| ==> AcceptedAlone(routes[i], format, i, StampOf(base, Opening(format) + i))
  {
    CollectIff(routes, ParseRoute);
    if ParseAll(routes).Ok? {
      StampedIff(Preface(format, base), base, |routes|, Maker(format, routes, ParseAll(routes).value));
      forall i | 0 <= i < |routes|
        ensures CanMake(Opening(format), base, Maker(format, routes, ParseAll(routes).value), i)
                <==> AcceptedAlone(routes[i], format, i, StampOf(base, Opening(format) + i))
      {
        AcceptedAt(routes, format, base, i);
      }
    }
  }
}
