/** Copying selected records into a smaller corpus whose manifest still describes it. */
module Slicing {
  import opened Bytes
  import opened Framing
  import opened Corpora
  import Profiles
  import Writer

  /** The command line's choices; an absent or empty choice keeps everything. */
  datatype Choice = Choice(
    types: Option<set<nat>>, only: set<string>, drop: set<string>, expected: Option<Expect>)
  {
    predicate Keeps(m: Meta) {
      && (types.Some? ==> m.mrtType in types.value)
      && m.kind !in drop
      && (only != {} ==> m.kind in only)
      && (expected.Some? ==> m.expected == expected.value)
    }

    function Test(): Meta -> bool { m => Keeps(m) }
  }

  /** The slice of a file and its manifest: kept extents are copied and their entries rebased. */
  function Slice(data: seq<byte>, records: seq<RecordEntry>, p: Meta -> bool): Corpus {
    if records == [] then EMPTY else
    var c, e := Slice(data, records[..|records| - 1], p), records[|records| - 1];
    if !p(e.meta) then c else
    Corpus(c.bytes + Extract(data, e),
           c.entries + [e.(index := |c.entries|, offset := |c.bytes|)],
           Bump(c.counts, e.meta.expected))
  }

  method SliceCorpus(data: seq<byte>, records: seq<RecordEntry>, choice: Choice) returns (c: Corpus)
    ensures c == Slice(data, records, choice.Test())
  {
    var out: seq<byte> := [];
    var kept: seq<RecordEntry> := [];
    var counts := Counts(0, 0, 0);
    var i := 0;
    while i < |records|
      invariant i <= |records|
      invariant Corpus(out, kept, counts) == Slice(data, records[..i], choice.Test())
    {
      assert records[..i + 1][..i] == records[..i];
      var e := records[i];
      i := i + 1;
      if choice.types.Some? && e.meta.mrtType !in choice.types.value { continue; }
      if e.meta.kind in choice.drop { continue; }
      if choice.only != {} && e.meta.kind !in choice.only { continue; }
      if choice.expected.Some? && e.meta.expected != choice.expected.value { continue; }
      kept := kept + [e.(index := |kept|, offset := |out|)];
      out := out + Extract(data, e);
      counts := Bump(counts, e.meta.expected);
    }
    assert records[..|records|] == records;
    c := Corpus(out, kept, counts);
  }

  // ---------------------------------------------------------------- what a slice is

  function Kept(chs: seq<Chunk>, p: Meta -> bool): seq<Chunk> {
    if chs == [] then [] else
    var init, last := Kept(chs[..|chs| - 1], p), chs[|chs| - 1];
    if p(last.meta) then init + [last] else init
  }

  predicate InBounds(records: seq<RecordEntry>, size: nat) {
    forall i :: 0 <= i < |records| ==> records[i].offset + records[i].size <= size
  }

  lemma SliceSnoc(data: seq<byte>, before: seq<RecordEntry>, e: RecordEntry, p: Meta -> bool, kept: seq<Chunk>)
    requires Slice(data, before, p) == Assemble(kept) && e.offset + e.size <= |data|
    ensures Slice(data, before + [e], p) == Assemble(if p(e.meta) then kept + [ChunkAt(data, e)] else kept)
  {
    assert (before + [e])[..|before|] == before;
    if p(e.meta) {
      AssembleSnoc(kept, ChunkAt(data, e));
    }
  }

  lemma KeptSnoc(chs: seq<Chunk>, ch: Chunk, p: Meta -> bool)
    ensures Kept(chs + [ch], p) == if p(ch.meta) then Kept(chs, p) + [ch] else Kept(chs, p)
  {
    assert (chs + [ch])[..|chs|] == chs;
  }

  lemma {:induction false} SliceAssembles(data: seq<byte>, records: seq<RecordEntry>, p: Meta -> bool)
    requires InBounds(records, |data|)
    ensures Slice(data, records, p) == Assemble(Kept(ChunksOf(data, records), p))
  {
    if records == [] {
      assert ChunksOf(data, records) == [];
    } else {
      var before, e := records[..|records| - 1], records[|records| - 1];
      SliceAssembles(data, before, p);
      SliceSnoc(data, before, e, p, Kept(ChunksOf(data, before), p));
      ChunksOfSnoc(data, before, e);
      KeptSnoc(ChunksOf(data, before), ChunkAt(data, e), p);
      assert before + [e] == records;
    }
  }

  /** Slicing a well laid out corpus gives a well laid out corpus whose records are exactly the
      selected ones, octet for octet and in their order. */
  lemma SliceKeepsLayout(c: Corpus, p: Meta -> bool)
    requires Layout(c)
    ensures var d := Slice(c.bytes, c.entries, p);
            && Layout(d) && Records(d) == Kept(Records(c), p)
            && d == Assemble(Kept(Records(c), p))
  {
    forall i | 0 <= i < |c.entries|
      ensures c.entries[i].offset + c.entries[i].size <= |c.bytes|
    {
      OffsetsInBounds(c.entries, |c.bytes|, i);
    }
    SliceAssembles(c.bytes, c.entries, p);
    AssembleLayout(Kept(Records(c), p));
  }

  // ---------------------------------------------------------------- what a choice selects

  /** What the command line asks of a record: the MRT type in its own header is one of the types given,
      its kind is among the kinds to keep, if there are any, and not among those to drop, and its
      expectation is the one asked for. */
  predicate Asked(ch: Chunk, choice: Choice) {
    && (choice.types.Some? ==> |ch.bytes| >= 6 && Nat(ch.bytes[4..6]) in choice.types.value)
    && (choice.only != {} ==> ch.meta.kind in choice.only)
    && !(ch.meta.kind in choice.drop)
    && (choice.expected.Some? ==> choice.expected.value == ch.meta.expected)
  }

  /** Every record's header holds the type the manifest reports. */
  predicate TypesTold(chs: seq<Chunk>) {
    forall i :: 0 <= i < |chs| ==> TypeTold(chs[i])
  }

  predicate TypeTold(ch: Chunk) { |ch.bytes| >= 6 && Nat(ch.bytes[4..6]) == ch.meta.mrtType }

  /** The kept records are the ones at the given places, in order, octet for octet. */
  predicate Picked(kept: seq<Chunk>, all: seq<Chunk>, places: seq<nat>) {
    && |kept| == |places|
    && (forall j :: 0 <= j < |places| ==> places[j] < |all| && kept[j] == all[places[j]])
    && (forall j, k :: 0 <= j < k < |places| ==> places[j] < places[k])
  }

  lemma PickedSnoc(kept: seq<Chunk>, all: seq<Chunk>, places: seq<nat>, keep: bool)
    requires all != [] && Picked(kept, all[..|all| - 1], places)
    ensures Picked(if keep then kept + [all[|all| - 1]] else kept, all, if keep then places + [|all| - 1] else places)
  {
  }

  /** The places of the records a predicate keeps. */
  function Places(chs: seq<Chunk>, p: Meta -> bool): seq<nat> {
    if chs == [] then [] else
    var init := Places(chs[..|chs| - 1], p);
    if p(chs[|chs| - 1].meta) then init + [|chs| - 1] else init
  }

  lemma {:induction false} PlacesPick(chs: seq<Chunk>, p: Meta -> bool)
    ensures Picked(Kept(chs, p), chs, Places(chs, p))
  {
    if chs != [] {
      PlacesPick(chs[..|chs| - 1], p);
      PickedSnoc(Kept(chs[..|chs| - 1], p), chs, Places(chs[..|chs| - 1], p), p(chs[|chs| - 1].meta));
    }
  }

  lemma {:induction false} PlacesAre(chs: seq<Chunk>, p: Meta -> bool, i: nat)
    ensures i in Places(chs, p) <==> i < |chs| && p(chs[i].meta)
  {
    if chs != [] { PlacesAre(chs[..|chs| - 1], p, i); }
  }

  /** Exactly what is asked for: the records of the slice are the records of the corpus that meet all
      four demands, each of them once and in the order of the corpus, and no other; their manifest lays
      them out and counts them truly. */
  lemma SliceExact(c: Corpus, choice: Choice) returns (places: seq<nat>)
    requires Layout(c) && TypesTold(Records(c))
    ensures var d := Slice(c.bytes, c.entries, choice.Test());
            Picked(Records(d), Records(c), places) && Layout(d) && CountsTell(d.counts, d.entries)
    ensures forall i :: 0 <= i < |c.entries| ==> (i in places <==> Asked(Records(c)[i], choice))
  {
    SliceKeepsLayout(c, choice.Test());
    PlacesPick(Records(c), choice.Test());
    LayoutCounts(Slice(c.bytes, c.entries, choice.Test()).entries);
    places := Places(Records(c), choice.Test());
    forall i | 0 <= i < |c.entries|
      ensures i in places <==> Asked(Records(c)[i], choice)
    {
      PlacesAre(Records(c), choice.Test(), i);
      assert TypeTold(Records(c)[i]);
    }
  }

  lemma PieceTypeTold(c: Corpus, at: nat, piece: Profiles.Piece, base: u32)
    requires Profiles.HoldsPiece(c, at, piece, base)
    ensures TypeTold(Records(c)[at])
  {
    Writer.HeaderFields(piece.make((base + at) % 0x1_0000_0000));
  }

  /** Profiles tell the types of their records, the fatal tail included, so every choice selects
      exactly what it asks for from every one of them. */
  lemma ProfileTypesTold(c: Corpus, cfg: Profiles.Config, s: Profiles.Sections)
    requires Profiles.ProfileIs(c, cfg, s)
    ensures TypesTold(Records(c))
  {
    forall i: nat | i < |c.entries|
      ensures TypeTold(Records(c)[i])
    {
      ProfileTypeTold(c, cfg, s, i);
    }
  }

  lemma ProfileTypeTold(c: Corpus, cfg: Profiles.Config, s: Profiles.Sections, i: nat)
    requires Profiles.ProfileIs(c, cfg, s) && i < |c.entries|
    ensures TypeTold(Records(c)[i])
  {
    var held := Profiles.HolderOf(c, cfg, s, i);
    if held.Some? {
      PieceTypeTold(c, i, held.value, cfg.baseTimestamp);
    }
  }

  // ---------------------------------------------------------------- slices of slices

  function Both(p: Meta -> bool, q: Meta -> bool): Meta -> bool { m => p(m) && q(m) }

  lemma {:induction false} KeptTwice(chs: seq<Chunk>, p: Meta -> bool, q: Meta -> bool)
    ensures Kept(Kept(chs, p), q) == Kept(chs, Both(p, q))
  {
    if chs != [] {
      var init, last := chs[..|chs| - 1], chs[|chs| - 1];
      KeptTwice(init, p, q);
      if p(last.meta) {
        assert (Kept(init, p) + [last])[..|Kept(init, p)|] == Kept(init, p);
      }
    }
  }

  /** Slicing by p and the result by q is slicing by both at once. */
  lemma SliceTwice(c: Corpus, p: Meta -> bool, q: Meta -> bool)
    requires Layout(c)
    ensures var d := Slice(c.bytes, c.entries, p);
            Slice(d.bytes, d.entries, q) == Slice(c.bytes, c.entries, Both(p, q))
  {
    SliceKeepsLayout(c, p);
    SliceKeepsLayout(Slice(c.bytes, c.entries, p), q);
    SliceKeepsLayout(c, Both(p, q));
    KeptTwice(Records(c), p, q);
  }

  lemma {:induction false} KeptAll(chs: seq<Chunk>, p: Meta -> bool)
    requires forall i :: 0 <= i < |chs| ==> p(chs[i].meta)
    ensures Kept(chs, p) == chs
  {
    if chs != [] {
      KeptAll(chs[..|chs| - 1], p);
      assert chs[..|chs| - 1] + [chs[|chs| - 1]] == chs;
    }
  }

  /** A choice that keeps every record reproduces the corpus, manifest and all. */
  lemma SliceOfEverything(c: Corpus, p: Meta -> bool)
    requires Layout(c) && forall i :: 0 <= i < |c.entries| ==> p(c.entries[i].meta)
    ensures Slice(c.bytes, c.entries, p) == c
  {
    SliceKeepsLayout(c, p);
    KeptAll(Records(c), p);
    LayoutAssemble(c);
  }

  // ---------------------------------------------------------------- slices and the walker

  lemma {:induction false} KeptFramed(chs: seq<Chunk>, p: Meta -> bool)
    requires AllFramedChunks(chs)
    ensures AllFramedChunks(Kept(chs, p))
  {
    if chs != [] { KeptFramed(chs[..|chs| - 1], p); }
  }

  /** Framed records followed by one tail at which the walker stops. */
  predicate EndsInTail(chs: seq<Chunk>) {
    chs != [] && AllFramedChunks(chs[..|chs| - 1]) && Walk(chs[|chs| - 1].bytes) == Walked(0, false)
  }

  lemma WalkOfChunks(chs: seq<Chunk>)
    ensures AllFramedChunks(chs) ==> Walk(Assemble(chs).bytes) == Walked(|chs|, true)
    ensures EndsInTail(chs) ==> Walk(Assemble(chs).bytes) == Walked(|chs| - 1, false)
  {
    if AllFramedChunks(chs) {
      WalkAgreesWithManifest(chs);
    }
    if EndsInTail(chs) {
      var init, last := chs[..|chs| - 1], chs[|chs| - 1];
      AssembleBytes(init);
      WalkFlat(Parts(init), last.bytes);
    }
  }

  /** Slicing a corpus that ends in a fatal tail: the tail is kept as the very last record, and
      stops the walk there, exactly when it is selected; otherwise the slice walks cleanly. */
  lemma SlicedTail(c: Corpus, p: Meta -> bool)
    requires Layout(c) && EndsInTail(Records(c))
    ensures var d, tail := Slice(c.bytes, c.entries, p), c.entries[|c.entries| - 1];
            && Walk(d.bytes) == Walked(|d.entries| - (if p(tail.meta) then 1 else 0), !p(tail.meta))
            && (p(tail.meta) ==> |d.entries| > 0 && d.entries[|d.entries| - 1].meta == tail.meta)
  {
    var chs := Records(c);
    var init, last := chs[..|chs| - 1], chs[|chs| - 1];
    SliceKeepsLayout(c, p);
    KeptFramed(init, p);
    WalkOfChunks(Kept(chs, p));
    if p(last.meta) {
      assert Kept(chs, p)[..|Kept(init, p)|] == Kept(init, p);
    }
  }

  /** Slicing a corpus of framed records leaves one that walks cleanly and completely. */
  lemma SlicedFramed(c: Corpus, p: Meta -> bool)
    requires Layout(c) && AllFramedChunks(Records(c))
    ensures var d := Slice(c.bytes, c.entries, p);
            Walk(d.bytes) == Walked(|d.entries|, true) && Visits(d.bytes, 0) == Offsets(d)
  {
    SliceKeepsLayout(c, p);
    KeptFramed(Records(c), p);
    WalkAgreesWithManifest(Kept(Records(c), p));
  }

  predicate AbortsOnlyLast(entries: seq<RecordEntry>) {
    forall i :: 0 <= i < |entries| - 1 ==> entries[i].meta.expected != Abort
  }

  predicate NoAborts(entries: seq<RecordEntry>) {
    forall i :: 0 <= i < |entries| ==> entries[i].meta.expected != Abort
  }

  lemma {:induction false} NoAbortsKept(data: seq<byte>, records: seq<RecordEntry>, p: Meta -> bool)
    requires NoAborts(records)
    ensures NoAborts(Slice(data, records, p).entries)
  {
    if records != [] { NoAbortsKept(data, records[..|records| - 1], p); }
  }

  /** When only the last record may be of the abort class, that stays so in every slice. */
  lemma AbortStaysLast(data: seq<byte>, records: seq<RecordEntry>, p: Meta -> bool)
    requires AbortsOnlyLast(records)
    ensures AbortsOnlyLast(Slice(data, records, p).entries)
  {
    if records != [] { NoAbortsKept(data, records[..|records| - 1], p); }
  }
}
