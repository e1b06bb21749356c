/** The corpus builder: file bytes, manifest entries and outcome counts that grow together. */
module Corpora {
  import opened Bytes
  import opened Writer
  import opened Framing

  /** What a parser should do with a record. */
  datatype Expect = Valid | Skip | Abort

  datatype Meta = Meta(mrtType: u16, subtype: u16, timestamp: u32, kind: string, expected: Expect)

  /** A manifest entry: position, extent and description of one record. */
  datatype RecordEntry = RecordEntry(index: nat, offset: nat, size: nat, meta: Meta)

  datatype Counts = Counts(valid: nat, skip: nat, abort: nat) {
    function Total(): nat { valid + skip + abort }
  }

  datatype Corpus = Corpus(bytes: seq<byte>, entries: seq<RecordEntry>, counts: Counts)

  const EMPTY := Corpus([], [], Counts(0, 0, 0))

  function Bump(c: Counts, e: Expect): Counts {
    match e
    case Valid => c.(valid := c.valid + 1)
    case Skip => c.(skip := c.skip + 1)
    case Abort => c.(abort := c.abort + 1)
  }

  /** The octets and the description of one pushed record or raw tail. */
  datatype Chunk = Chunk(bytes: seq<byte>, meta: Meta)

  function Append(c: Corpus, ch: Chunk): Corpus {
    Corpus(c.bytes + ch.bytes,
           c.entries + [RecordEntry(|c.entries|, |c.bytes|, |ch.bytes|, ch.meta)],
           Bump(c.counts, ch.meta.expected))
  }

  /** The corpus a run of pushes leads to. */
  function Assemble(chs: seq<Chunk>): (c: Corpus)
    ensures |c.entries| == |chs|
  {
    if chs == [] then EMPTY else Append(Assemble(chs[..|chs| - 1]), chs[|chs| - 1])
  }

  function Parts(chs: seq<Chunk>): (parts: seq<seq<byte>>)
    ensures |parts| == |chs|
  {
    seq(|chs|, i requires 0 <= i < |chs| => chs[i].bytes)
  }

  // ---------------------------------------------------------------- the layout invariant

  function Tally(entries: seq<RecordEntry>): Counts {
    if entries == [] then Counts(0, 0, 0)
    else Bump(Tally(entries[..|entries| - 1]), entries[|entries| - 1].meta.expected)
  }

  predicate Indexed(entries: seq<RecordEntry>) {
    forall i :: 0 <= i < |entries| ==> entries[i].index == i
  }

  /** Where entry i has to end: at the next offset, or at the end of the file. */
  function NextOffset(entries: seq<RecordEntry>, size: nat, i: nat): nat
    requires i < |entries|
  {
    if i + 1 < |entries| then entries[i + 1].offset else size
  }

  predicate Adjoins(entries: seq<RecordEntry>, size: nat, i: nat)
    requires i < |entries|
  {
    entries[i].offset + entries[i].size == NextOffset(entries, size, i)
  }

  /** The extents cover a file of `size` octets, in order, without gap or overlap. */
  predicate Partition(entries: seq<RecordEntry>, size: nat) {
    && (if entries == [] then size == 0 else entries[0].offset == 0)
    && (forall i :: 0 <= i < |entries| ==> Adjoins(entries, size, i))
  }

  predicate Layout(c: Corpus) {
    Indexed(c.entries) && Partition(c.entries, |c.bytes|) && c.counts == Tally(c.entries)
  }

  lemma {:induction false} OffsetsInBounds(entries: seq<RecordEntry>, size: nat, i: nat)
    requires Partition(entries, size) && i < |entries|
    ensures entries[i].offset + entries[i].size <= size
    decreases |entries| - i
  {
    assert Adjoins(entries, size, i);
    if i + 1 < |entries| { OffsetsInBounds(entries, size, i + 1); }
  }

  lemma PartitionSnoc(entries: seq<RecordEntry>, size: nat, e: RecordEntry)
    requires Partition(entries, size) && e.offset == size
    ensures Partition(entries + [e], size + e.size)
  {
    var more, total := entries + [e], size + e.size;
    forall i | 0 <= i < |more|
      ensures Adjoins(more, total, i)
    {
      if i < |entries| { assert Adjoins(entries, size, i); }
    }
  }

  lemma PartitionInit(entries: seq<RecordEntry>, size: nat)
    requires Partition(entries, size) && entries != []
    ensures var last := entries[|entries| - 1];
            last.offset + last.size == size && Partition(entries[..|entries| - 1], last.offset)
  {
    var n := |entries| - 1;
    assert Adjoins(entries, size, n);
    forall i | 0 <= i < n
      ensures Adjoins(entries[..n], entries[n].offset, i)
    {
      assert Adjoins(entries, size, i);
    }
  }

  /** The octets a manifest entry points at; out-of-range extents are clamped, as slices are. */
  function Extract(bytes: seq<byte>, e: RecordEntry): seq<byte> {
    var start := if e.offset <= |bytes| then e.offset else |bytes|;
    var end := if e.offset + e.size <= |bytes| then e.offset + e.size else |bytes|;
    bytes[start..end]
  }

  function ChunkAt(bytes: seq<byte>, e: RecordEntry): Chunk { Chunk(Extract(bytes, e), e.meta) }

  /** Read the records of a corpus back through its manifest. */
  function ChunksOf(bytes: seq<byte>, entries: seq<RecordEntry>): (chs: seq<Chunk>)
    ensures |chs| == |entries|
  {
    seq(|entries|, i requires 0 <= i < |entries| => ChunkAt(bytes, entries[i]))
  }

  function Records(c: Corpus): seq<Chunk> { ChunksOf(c.bytes, c.entries) }

  lemma ChunkAtAppended(bytes: seq<byte>, more: seq<byte>, e: RecordEntry)
    requires e.offset + e.size <= |bytes|
    ensures ChunkAt(bytes + more, e) == ChunkAt(bytes, e)
  {
  }

  /** Octets appended behind the extents change nothing that is read back. */
  lemma ChunksOfAppended(bytes: seq<byte>, more: seq<byte>, entries: seq<RecordEntry>)
    requires Partition(entries, |bytes|)
    ensures ChunksOf(bytes + more, entries) == ChunksOf(bytes, entries)
  {
    forall i | 0 <= i < |entries|
      ensures ChunkAt(bytes + more, entries[i]) == ChunkAt(bytes, entries[i])
    {
      OffsetsInBounds(entries, |bytes|, i);
      ChunkAtAppended(bytes, more, entries[i]);
    }
  }

  lemma ChunksOfSnoc(bytes: seq<byte>, entries: seq<RecordEntry>, e: RecordEntry)
    ensures ChunksOf(bytes, entries + [e]) == ChunksOf(bytes, entries) + [ChunkAt(bytes, e)]
  {
  }

  lemma TallySnoc(entries: seq<RecordEntry>, e: RecordEntry)
    ensures Tally(entries + [e]) == Bump(Tally(entries), e.meta.expected)
  {
    assert (entries + [e])[..|entries|] == entries;
  }

  lemma AppendRecords(bytes: seq<byte>, entries: seq<RecordEntry>, ch: Chunk, e: RecordEntry)
    requires Partition(entries, |bytes|) && e.offset == |bytes| && e.size == |ch.bytes| && e.meta == ch.meta
    ensures ChunksOf(bytes + ch.bytes, entries + [e]) == ChunksOf(bytes, entries) + [ch]
  {
    ChunksOfAppended(bytes, ch.bytes, entries);
    ChunksOfSnoc(bytes + ch.bytes, entries, e);
    assert Extract(bytes + ch.bytes, e) == ch.bytes;
  }

  lemma AppendLayout(c: Corpus, ch: Chunk)
    requires Layout(c)
    ensures Layout(Append(c, ch))
    ensures Records(Append(c, ch)) == Records(c) + [ch]
  {
    var e := RecordEntry(|c.entries|, |c.bytes|, |ch.bytes|, ch.meta);
    PartitionSnoc(c.entries, |c.bytes|, e);
    TallySnoc(c.entries, e);
    AppendRecords(c.bytes, c.entries, ch, e);
  }

  /** Every run of pushes keeps the layout invariant, and the manifest leads back to exactly the
      records that were pushed. */
  lemma {:induction false} AssembleLayout(chs: seq<Chunk>)
    ensures Layout(Assemble(chs)) && Records(Assemble(chs)) == chs
  {
    if chs != [] {
      var n := |chs| - 1;
      AssembleLayout(chs[..n]);
      AppendLayout(Assemble(chs[..n]), chs[n]);
      assert chs == chs[..n] + [chs[n]];
    }
  }

  /** A corpus without its last record. */
  function Init(c: Corpus): Corpus
    requires c.entries != [] && c.entries[|c.entries| - 1].offset <= |c.bytes|
  {
    var n := |c.entries| - 1;
    Corpus(c.bytes[..c.entries[n].offset], c.entries[..n], Tally(c.entries[..n]))
  }

  lemma InitLayout(c: Corpus)
    requires Layout(c) && c.entries != []
    ensures c.entries[|c.entries| - 1].offset <= |c.bytes| && Layout(Init(c))
    ensures Append(Init(c), ChunkAt(c.bytes, c.entries[|c.entries| - 1])) == c
    ensures Records(c) == Records(Init(c)) + [ChunkAt(c.bytes, c.entries[|c.entries| - 1])]
  {
    PartitionInit(c.entries, |c.bytes|);
    var e := c.entries[|c.entries| - 1];
    var before, rest := c.bytes[..e.offset], c.bytes[e.offset..];
    assert c.bytes == before + rest && c.entries == c.entries[..|c.entries| - 1] + [e];
    AppendLayout(Init(c), ChunkAt(c.bytes, e));
  }

  /** The layout invariant characterises what the builder can produce: every corpus that has it
      is assembled from its own records. */
  lemma {:induction false} LayoutAssemble(c: Corpus)
    requires Layout(c)
    ensures Assemble(Records(c)) == c
    decreases |c.entries|
  {
    if c.entries == [] {
      assert Records(c) == [];
    } else {
      InitLayout(c);
      LayoutAssemble(Init(c));
      AssembleSnoc(Records(Init(c)), ChunkAt(c.bytes, c.entries[|c.entries| - 1]));
    }
  }

  lemma AssembleSnoc(chs: seq<Chunk>, ch: Chunk)
    ensures Assemble(chs + [ch]) == Append(Assemble(chs), ch)
  {
    assert (chs + [ch])[..|chs|] == chs;
  }

  lemma {:induction false} AssembleBytes(chs: seq<Chunk>)
    ensures Assemble(chs).bytes == Flat(Parts(chs))
  {
    if chs != [] {
      var n := |chs| - 1;
      AssembleBytes(chs[..n]);
      assert Parts(chs) == Parts(chs[..n]) + [chs[n].bytes];
      FlatAppend(Parts(chs[..n]), [chs[n].bytes]);
      assert [chs[n].bytes][1..] == [] && chs[n].bytes + [] == chs[n].bytes;
    }
  }

  /** The positions of the entries with an expectation. */
  function Positions(entries: seq<RecordEntry>, e: Expect): set<nat> {
    set i: nat | i < |entries| && entries[i].meta.expected == e
  }

  /** The counts a manifest has to report: how many of its entries expect what. */
  predicate CountsTell(counts: Counts, entries: seq<RecordEntry>) {
    && counts.valid == |Positions(entries, Valid)|
    && counts.skip == |Positions(entries, Skip)|
    && counts.abort == |Positions(entries, Abort)|
  }

  lemma PositionsSnoc(entries: seq<RecordEntry>, e: Expect)
    requires entries != []
    ensures var n := |entries| - 1;
            |Positions(entries, e)| ==
            |Positions(entries[..n], e)| + if entries[n].meta.expected == e then 1 else 0
  {
    var n: nat := |entries| - 1;
    var here: set<nat> := if entries[n].meta.expected == e then {n} else {};
    assert Positions(entries, e) == Positions(entries[..n], e) + here;
  }

  /** The counts of every corpus with the layout invariant are true, class by class. */
  lemma {:induction false} LayoutCounts(entries: seq<RecordEntry>)
    ensures CountsTell(Tally(entries), entries)
  {
    if entries != [] {
      LayoutCounts(entries[..|entries| - 1]);
      PositionsSnoc(entries, Valid);
      PositionsSnoc(entries, Skip);
      PositionsSnoc(entries, Abort);
    }
  }

  // ---------------------------------------------------------------- the builder

  function RecordMeta(rec: MrtRecord, kind: string, expected: Expect): Meta {
    Meta(rec.mrtType, rec.subtype, rec.timestamp, kind, expected)
  }

  function RecordChunk(rec: MrtRecord, kind: string, expected: Expect): Chunk {
    Chunk(EncodeRecord(rec), RecordMeta(rec, kind, expected))
  }

  class Builder {
    var bytes: seq<byte>
    var entries: seq<RecordEntry>
    var counts: Counts
    const baseTimestamp: u32

    function State(): Corpus
      reads this
    {
      Corpus(bytes, entries, counts)
    }

    constructor (base: u32)
      ensures State() == EMPTY && baseTimestamp == base
    {
      bytes, entries, counts := [], [], Counts(0, 0, 0);
      baseTimestamp := base;
    }

    /** Record N is stamped base + N, in 32 bits. */
    method NextTimestamp() returns (ts: u32)
      ensures ts == StampOf(baseTimestamp, |entries|)
    {
      ts := AsU32(baseTimestamp + AsU32(|entries|));
    }

    method Push(rec: MrtRecord, kind: string, expected: Expect)
      modifies this
      ensures State() == Append(old(State()), RecordChunk(rec, kind, expected))
    {
      var offset := |bytes|;
      var out := new Buf();
      out.PutBytes(bytes);
      EncodeInto(rec, out);
      bytes := out.data;
      match expected {
        case Valid => counts := counts.(valid := counts.valid + 1);
        case Skip => counts := counts.(skip := counts.skip + 1);
        case Abort => counts := counts.(abort := counts.abort + 1);
      }
      entries := entries + [RecordEntry(|entries|, offset, EncodedLen(rec), RecordMeta(rec, kind, expected))];
    }

    method PushRaw(raw: seq<byte>, mrtType: u16, subtype: u16, timestamp: u32, kind: string)
      modifies this
      ensures State() == Append(old(State()), Chunk(raw, Meta(mrtType, subtype, timestamp, kind, Abort)))
    {
      var offset := |bytes|;
      bytes := bytes + raw;
      counts := counts.(abort := counts.abort + 1);
      entries := entries + [RecordEntry(|entries|, offset, |raw|, Meta(mrtType, subtype, timestamp, kind, Abort))];
    }
  }

  /** The timestamp of the record at a position: base plus position, in 32 bits. */
  function StampOf(base: u32, position: nat): u32 { AsU32(base + AsU32(position)) }

  /** The two casts of a timestamp amount to one: base plus position, modulo 2^32. */
  lemma StampExact(base: u32, position: nat)
    ensures StampOf(base, position) == (base + position) % 0x1_0000_0000
    ensures base + position < 0x1_0000_0000 ==> StampOf(base, position) == base + position
  {
    var q, low := position / 0x1_0000_0000, position % 0x1_0000_0000;
    var p, stamp := (base + low) / 0x1_0000_0000, (base + low) % 0x1_0000_0000;
    DivModUnique(base + position, 0x1_0000_0000, q + p, stamp);
  }

  /** Opening records, then n more made one by one, each stamped by its position in the file. */
  function Stamped(opening: seq<Chunk>, base: u32, n: nat, make: (nat, u32) -> Result<Chunk>): (r: Result<seq<Chunk>>)
    ensures r.Ok? ==> |r.value| == |opening| + n
  {
    if n == 0 then Ok(opening) else
    var init :- Stamped(opening, base, n - 1, make);
    var last :- make(n - 1, StampOf(base, |init|));
    Ok(init + [last])
  }

  lemma {:induction false} StampedFails(opening: seq<Chunk>, base: u32, n: nat, make: (nat, u32) -> Result<Chunk>, k: nat)
    requires k < n && make(k, StampOf(base, |opening| + k)).Err?
    ensures Stamped(opening, base, n, make).Err?
  {
    if k < n - 1 { StampedFails(opening, base, n - 1, make, k); }
  }

  /** Record k of the made ones is what was made for k and its stamp; the opening is kept. */
  lemma {:induction false} StampedAt(opening: seq<Chunk>, base: u32, n: nat, make: (nat, u32) -> Result<Chunk>, k: nat)
    requires Stamped(opening, base, n, make).Ok? && k < n
    ensures Stamped(opening, base, n, make).value[..|opening|] == opening
    ensures make(k, StampOf(base, |opening| + k)) == Ok(Stamped(opening, base, n, make).value[|opening| + k])
  {
    if n > 1 {
      StampedAt(opening, base, n - 1, make, if k < n - 1 then k else 0);
    }
  }

  predicate CanMake(first: nat, base: u32, make: (nat, u32) -> Result<Chunk>, k: nat) {
    make(k, StampOf(base, first + k)).Ok?
  }

  /** All are made exactly when each of them can be. */
  lemma {:induction false} StampedIff(opening: seq<Chunk>, base: u32, n: nat, make: (nat, u32) -> Result<Chunk>)
    ensures Stamped(opening, base, n, make).Ok? <==> forall k :: 0 <= k < n ==> CanMake(|opening|, base, make, k)
  {
    if n > 0 {
      StampedIff(opening, base, n - 1, make);
      if Stamped(opening, base, n - 1, make).Ok? {
        assert Stamped(opening, base, n, make).Ok? <==> CanMake(|opening|, base, make, n - 1);
      }
    }
  }

  // ---------------------------------------------------------------- builder and walker

  predicate AllFramedChunks(chs: seq<Chunk>) {
    forall i :: 0 <= i < |chs| ==> Framed(chs[i].bytes)
  }

  function Offsets(c: Corpus): (os: seq<nat>)
    ensures |os| == |c.entries|
  {
    seq(|c.entries|, i requires 0 <= i < |c.entries| => c.entries[i].offset)
  }

  lemma {:induction false} VisitsFlat(parts: seq<seq<byte>>, off: nat)
    requires AllFramed(parts)
    ensures |Visits(Flat(parts), off)| == |parts|
    ensures forall i :: 0 <= i < |parts| ==> Visits(Flat(parts), off)[i] == off + |Flat(parts[..i])|
  {
    if parts != [] {
      WalkOne(parts[0], Flat(parts[1..]), off);
      VisitsFlat(parts[1..], off + |parts[0]|);
      forall i | 0 <= i < |parts|
        ensures Visits(Flat(parts), off)[i] == off + |Flat(parts[..i])|
      {
        if i == 0 {
          assert parts[..0] == [];
        } else {
          assert parts[..i][1..] == parts[1..][..i - 1] && parts[..i][0] == parts[0];
        }
      }
    }
  }

  lemma {:induction false} OffsetIsPrefixLength(chs: seq<Chunk>, i: nat)
    requires i < |chs|
    ensures Assemble(chs).entries[i].offset == |Flat(Parts(chs)[..i])|
    ensures Assemble(chs).entries[i].size == |chs[i].bytes| && Assemble(chs).entries[i].meta == chs[i].meta
    ensures Assemble(chs).entries[i].index == i
  {
    var n := |chs| - 1;
    assert Parts(chs)[..i] == Parts(chs[..n])[..i];
    if i == n {
      AssembleBytes(chs[..n]);
      assert Parts(chs[..n])[..n] == Parts(chs[..n]);
    } else {
      OffsetIsPrefixLength(chs[..n], i);
    }
  }

  /** Builder/walker agreement: after any pushes of honestly framed records, whatever their bodies,
      the walk is clean, counts every record, and stands exactly at the manifest's offsets. */
  lemma WalkAgreesWithManifest(chs: seq<Chunk>)
    requires AllFramedChunks(chs)
    ensures var c := Assemble(chs);
            Walk(c.bytes) == Walked(|c.entries|, true) && Visits(c.bytes, 0) == Offsets(c)
  {
    var c, parts := Assemble(chs), Parts(chs);
    AssembleBytes(chs);
    WalkFlat(parts, []);
    assert Flat(parts) + [] == Flat(parts);
    VisitsFlat(parts, 0);
    forall i | 0 <= i < |chs|
      ensures Offsets(c)[i] == Visits(c.bytes, 0)[i]
    {
      OffsetIsPrefixLength(chs, i);
    }
  }

  /** A manifest entry's extent holds exactly its record. */
  lemma ExtentHoldsRecord(chs: seq<Chunk>, i: nat)
    requires i < |chs|
    ensures var c := Assemble(chs);
            var e := c.entries[i];
            e.offset + e.size <= |c.bytes| && c.bytes[e.offset..e.offset + e.size] == chs[i].bytes
  {
    OffsetIsPrefixLength(chs, i);
    AssembleBytes(chs);
    FlatExtent(Parts(chs), i);
  }

  lemma ChunkExtent(chs: seq<Chunk>, i: nat)
    requires i < |chs|
    ensures var c := Assemble(chs);
            Extract(c.bytes, c.entries[i]) == chs[i].bytes && c.entries[i].meta == chs[i].meta
  {
    OffsetIsPrefixLength(chs, i);
    ExtentHoldsRecord(chs, i);
  }

  /** The header fields at an entry's offset are the ones the manifest reports. */
  lemma ManifestMatchesHeader(chs: seq<Chunk>, i: nat, rec: MrtRecord, kind: string, expected: Expect)
    requires i < |chs| && chs[i] == RecordChunk(rec, kind, expected)
    ensures var c := Assemble(chs);
            var e := c.entries[i];
            && e.index == i && e.size == EncodedLen(rec) >= 12 && e.offset + e.size <= |c.bytes|
            && e.meta.kind == kind && e.meta.expected == expected
            && Nat(c.bytes[e.offset..e.offset + 4]) == e.meta.timestamp
            && Nat(c.bytes[e.offset + 4..e.offset + 6]) == e.meta.mrtType
            && Nat(c.bytes[e.offset + 6..e.offset + 8]) == e.meta.subtype
  {
    OffsetIsPrefixLength(chs, i);
    ExtentHoldsRecord(chs, i);
    HeaderFields(rec);
    SliceOfExtent(Assemble(chs).bytes, Assemble(chs).entries[i].offset, EncodeRecord(rec));
  }

  lemma SliceOfExtent(bytes: seq<byte>, offset: nat, s: seq<byte>)
    requires |s| >= 12 && offset + |s| <= |bytes| && bytes[offset..offset + |s|] == s
    ensures bytes[offset..offset + 4] == s[0..4] && bytes[offset + 4..offset + 6] == s[4..6]
    ensures bytes[offset + 6..offset + 8] == s[6..8]
  {
    assert forall k :: 0 <= k < |s| ==> s[k] == bytes[offset + k];
  }
}
