/** The built-in corpus: sections pushed in a fixed order, each under its own switch, every record
    stamped by its position, and at most one fatal tail behind them all. */
module Profiles {
  import opened Bytes
  import opened Writer
  import opened Framing
  import opened Corpora

  /** One push of a section: the record it makes for its timestamp, a name and a class. */
  datatype Piece = Piece(make: u32 -> MrtRecord, kind: string, expected: Expect)

  datatype FatalKind = LengthOverrunsEof | TruncatedHeader | HugeLength

  /** Which sections to emit. */
  datatype Config = Config(
    baseTimestamp: u32, includeValid: bool, includeSkip: bool, includeCombo: bool,
    includeAttrErrors: bool, stressProfile: bool, fatal: Option<FatalKind>)

  /** What each section of the fixed corpus pushes; the edge cases and the stress records come as a
      valid and a skip half. */
  datatype Sections = Sections(
    valid: seq<Piece>, skip: seq<Piece>, combo: seq<Piece>, attrErrors: seq<Piece>,
    edgeValid: seq<Piece>, edgeSkip: seq<Piece>, stressValid: seq<Piece>, stressSkip: seq<Piece>)

  // ---------------------------------------------------------------- what a profile has to contain

  /** Record number `at` is a piece, stamped base plus position modulo 2^32, and described as it is. */
  ghost predicate HoldsPiece(c: Corpus, at: nat, piece: Piece, base: u32) {
    && at < |c.entries|
    && var rec := piece.make((base + at) % 0x1_0000_0000);
       && Extract(c.bytes, c.entries[at]) == EncodeRecord(rec)
       && c.entries[at].meta == Meta(rec.mrtType, rec.subtype, rec.timestamp, piece.kind, piece.expected)
  }

  /** From record `at` on stand the pieces of a section, in order and without anything in between. */
  ghost predicate HoldsSection(c: Corpus, at: nat, section: seq<Piece>, base: u32) {
    forall i :: 0 <= i < |section| ==> HoldsPiece(c, at + i, section[i], base)
  }

  predicate AllZero(s: seq<byte>) { forall k :: 0 <= k < |s| ==> s[k] == 0 }

  /** The octets of a fatal tail: a header of type 16 and subtype 1 that promises 1000 octets where 16
      follow, or 2^32 - 1 where 8 follow, or is cut after seven octets. */
  predicate FatalIs(kind: FatalKind, ts: u32, s: seq<byte>) {
    && |s| == (match kind case LengthOverrunsEof => 28 case TruncatedHeader => 7 case HugeLength => 20)
    && Nat(s[..4]) == ts
    && Nat(s[4..6]) == 16
    && match kind
       case LengthOverrunsEof => Nat(s[6..8]) == 1 && Nat(s[8..12]) == 1000 && AllZero(s[12..])
       case TruncatedHeader => s[6] == 0
       case HugeLength => Nat(s[6..8]) == 1 && Nat(s[8..12]) == 0xFFFF_FFFF && AllZero(s[12..])
  }

  /** Record number `at` is the fatal tail of a kind. */
  ghost predicate HoldsFatal(c: Corpus, at: nat, kind: FatalKind, base: u32) {
    && at < |c.entries|
    && var ts := (base + at) % 0x1_0000_0000;
       && FatalIs(kind, ts, Extract(c.bytes, c.entries[at]))
       && c.entries[at].meta == Meta(16, 1, ts, match kind
            case LengthOverrunsEof => "fatal_length_overruns_eof"
            case TruncatedHeader => "fatal_truncated_header"
            case HugeLength => "fatal_huge_length", Abort)
  }

  /** How many records the sections make up whose switch is on, and how many come before each. */
  datatype Starts = Starts(skip: nat, combo: nat, attrErrors: nat, edgeValid: nat, edgeSkip: nat,
                           stressValid: nat, stressSkip: nat, total: nat)

  function StartsOf(cfg: Config, s: Sections): Starts {
    var k := if cfg.includeValid then |s.valid| else 0;
    var m := k + if cfg.includeSkip then |s.skip| else 0;
    var a := m + if cfg.includeCombo then |s.combo| else 0;
    var ev := a + if cfg.includeAttrErrors then |s.attrErrors| else 0;
    var es := ev + if cfg.includeValid then |s.edgeValid| else 0;
    var sv := es + if cfg.includeSkip then |s.edgeSkip| else 0;
    var ss := sv + if cfg.stressProfile && cfg.includeValid then |s.stressValid| else 0;
    Starts(k, m, a, ev, es, sv, ss, ss + if cfg.stressProfile && cfg.includeSkip then |s.stressSkip| else 0)
  }

  /** Every section whose switch is on is held at its start. */
  ghost predicate Arranged(held: (nat, seq<Piece>) -> bool, cfg: Config, s: Sections) {
    var at := StartsOf(cfg, s);
    && (cfg.includeValid ==> held(0, s.valid) && held(at.edgeValid, s.edgeValid))
    && (cfg.includeSkip ==> held(at.skip, s.skip) && held(at.edgeSkip, s.edgeSkip))
    && (cfg.includeCombo ==> held(at.combo, s.combo))
    && (cfg.includeAttrErrors ==> held(at.attrErrors, s.attrErrors))
    && (cfg.stressProfile && cfg.includeValid ==> held(at.stressValid, s.stressValid))
    && (cfg.stressProfile && cfg.includeSkip ==> held(at.stressSkip, s.stressSkip))
  }

  ghost function Holder(c: Corpus, base: u32): (nat, seq<Piece>) -> bool {
    (at: nat, section: seq<Piece>) => HoldsSection(c, at, section, base)
  }

  /** The corpus a configuration asks for: the records of exactly the sections whose switch is on, each
      section whole and right behind the ones before it, then the fatal tail if there is to be one. */
  ghost predicate ProfileIs(c: Corpus, cfg: Config, s: Sections) {
    var n := StartsOf(cfg, s).total;
    && Layout(c) && CountsTell(c.counts, c.entries)
    && |c.entries| == n + (if cfg.fatal.Some? then 1 else 0)
    && Arranged(Holder(c, cfg.baseTimestamp), cfg, s)
    && (cfg.fatal.Some? ==> HoldsFatal(c, n, cfg.fatal.value, cfg.baseTimestamp))
  }

  // ---------------------------------------------------------------- the sections as a list

  /** A section and whether it is wanted. */
  datatype Gate = Gate(on: bool, section: seq<Piece>) {
    function Size(): nat { if on then |section| else 0 }
  }

  /** The sections in the order of the file, each under its own switch. */
  function Plan(cfg: Config, s: Sections): (plan: seq<Gate>)
    ensures |plan| == 8
  {
    [ Gate(cfg.includeValid, s.valid),
      Gate(cfg.includeSkip, s.skip),
      Gate(cfg.includeCombo, s.combo),
      Gate(cfg.includeAttrErrors, s.attrErrors),
      Gate(cfg.includeValid, s.edgeValid),
      Gate(cfg.includeSkip, s.edgeSkip),
      Gate(cfg.stressProfile && cfg.includeValid, s.stressValid),
      Gate(cfg.stressProfile && cfg.includeSkip, s.stressSkip) ]
  }

  /** How many records the gates let through. */
  function Total(plan: seq<Gate>): nat {
    if plan == [] then 0 else Total(plan[..|plan| - 1]) + plan[|plan| - 1].Size()
  }

  ghost predicate PlanHeld(c: Corpus, cfg: Config, s: Sections) {
    var plan := Plan(cfg, s);
    && Layout(c) && CountsTell(c.counts, c.entries)
    && |c.entries| == Total(plan) + (if cfg.fatal.Some? then 1 else 0)
    && GatesHeld(Holder(c, cfg.baseTimestamp), plan)
    && (cfg.fatal.Some? ==> HoldsFatal(c, Total(plan), cfg.fatal.value, cfg.baseTimestamp))
  }

  lemma TotalNext(plan: seq<Gate>, j: nat)
    requires j < |plan|
    ensures Total(plan[..j + 1]) == Total(plan[..j]) + plan[j].Size()
  {
    assert plan[..j + 1][..j] == plan[..j];
  }

  function StartList(cfg: Config, s: Sections): (starts: seq<nat>)
    ensures |starts| == 8
  {
    var at := StartsOf(cfg, s);
    [0, at.skip, at.combo, at.attrErrors, at.edgeValid, at.edgeSkip, at.stressValid, at.stressSkip]
  }

  lemma StartsNext(cfg: Config, s: Sections, j: nat)
    requires j < 8
    ensures StartList(cfg, s)[j] + Plan(cfg, s)[j].Size() ==
            if j < 7 then StartList(cfg, s)[j + 1] else StartsOf(cfg, s).total
  {
  }

  lemma {:induction false} StartsAre(cfg: Config, s: Sections, j: nat)
    requires j < 8
    ensures Total(Plan(cfg, s)[..j]) == StartList(cfg, s)[j]
  {
    if j > 0 {
      StartsAre(cfg, s, j - 1);
      TotalNext(Plan(cfg, s), j - 1);
      StartsNext(cfg, s, j - 1);
    }
  }

  lemma TotalIs(cfg: Config, s: Sections)
    ensures StartsOf(cfg, s).total == Total(Plan(cfg, s))
  {
    StartsAre(cfg, s, 7);
    StartsNext(cfg, s, 7);
    TotalNext(Plan(cfg, s), 7);
    assert Plan(cfg, s)[..8] == Plan(cfg, s);
  }

  /** If gate j is open its section stands where it has to. */
  ghost predicate GateHeld(held: (nat, seq<Piece>) -> bool, plan: seq<Gate>, j: nat)
    requires j < |plan|
  {
    plan[j].on ==> held(Total(plan[..j]), plan[j].section)
  }

  ghost predicate GatesHeld(held: (nat, seq<Piece>) -> bool, plan: seq<Gate>) {
    forall j :: 0 <= j < |plan| ==> GateHeld(held, plan, j)
  }

  ghost predicate HeldFrom(held: (nat, seq<Piece>) -> bool, g: Gate, start: nat) {
    g.on ==> held(start, g.section)
  }

  lemma ArrangedStarts(held: (nat, seq<Piece>) -> bool, cfg: Config, s: Sections)
    ensures var plan, starts := Plan(cfg, s), StartList(cfg, s);
            Arranged(held, cfg, s) <==> forall j :: 0 <= j < 8 ==> HeldFrom(held, plan[j], starts[j])
  {
    var plan, starts := Plan(cfg, s), StartList(cfg, s);
    if forall j :: 0 <= j < 8 ==> HeldFrom(held, plan[j], starts[j]) {
      assert HeldFrom(held, plan[0], starts[0]) && HeldFrom(held, plan[1], starts[1]);
      assert HeldFrom(held, plan[2], starts[2]) && HeldFrom(held, plan[3], starts[3]);
      assert HeldFrom(held, plan[4], starts[4]) && HeldFrom(held, plan[5], starts[5]);
      assert HeldFrom(held, plan[6], starts[6]) && HeldFrom(held, plan[7], starts[7]);
    }
  }

  lemma GateStart(held: (nat, seq<Piece>) -> bool, cfg: Config, s: Sections, j: nat)
    requires j < 8
    ensures GateHeld(held, Plan(cfg, s), j) <==> HeldFrom(held, Plan(cfg, s)[j], StartList(cfg, s)[j])
  {
    StartsAre(cfg, s, j);
  }

  lemma ArrangedPlan(held: (nat, seq<Piece>) -> bool, cfg: Config, s: Sections)
    ensures Arranged(held, cfg, s) <==> GatesHeld(held, Plan(cfg, s))
  {
    ArrangedStarts(held, cfg, s);
    forall j | 0 <= j < 8
      ensures GateHeld(held, Plan(cfg, s), j) <==> HeldFrom(held, Plan(cfg, s)[j], StartList(cfg, s)[j])
    {
      GateStart(held, cfg, s, j);
    }
  }

  lemma ProfileIsPlan(c: Corpus, cfg: Config, s: Sections)
    ensures ProfileIs(c, cfg, s) <==> PlanHeld(c, cfg, s)
  {
    TotalIs(cfg, s);
    ArrangedPlan(Holder(c, cfg.baseTimestamp), cfg, s);
  }

  // ---------------------------------------------------------------- sections as chunks

  function PieceChunk(piece: Piece, base: u32, at: nat): Chunk {
    RecordChunk(piece.make(StampOf(base, at)), piece.kind, piece.expected)
  }

  function Placed(section: seq<Piece>, base: u32, at: nat): (chs: seq<Chunk>)
    ensures |chs| == |section|
  {
    seq(|section|, i requires 0 <= i < |section| => PieceChunk(section[i], base, at + i))
  }

  /** The chunks of a section stand at a place. */
  ghost predicate Segment(chs: seq<Chunk>, at: nat, section: seq<Piece>, base: u32) {
    at + |section| <= |chs| && chs[at..at + |section|] == Placed(section, base, at)
  }

  /** The chunks the gates let through. */
  function Gathered(plan: seq<Gate>, base: u32): (chs: seq<Chunk>)
    ensures |chs| == Total(plan)
  {
    if plan == [] then [] else
    var init, last := Gathered(plan[..|plan| - 1], base), plan[|plan| - 1];
    if last.on then init + Placed(last.section, base, |init|) else init
  }

  lemma {:induction false} GatheredSegment(plan: seq<Gate>, base: u32, j: nat)
    requires j < |plan| && plan[j].on
    ensures Segment(Gathered(plan, base), Total(plan[..j]), plan[j].section, base)
  {
    var n := |plan| - 1;
    assert plan[..n][..j] == plan[..j] || j == n;
    var init, all := Gathered(plan[..n], base), Gathered(plan, base);
    if j < n {
      assert plan[..n][..j] == plan[..j];
      GatheredSegment(plan[..n], base, j);
      var at, end := Total(plan[..j]), Total(plan[..j]) + |plan[j].section|;
      assert init <= all && all[at..end] == init[at..end];
    } else {
      assert all[|init|..] == Placed(plan[j].section, base, |init|);
    }
  }

  lemma PieceHeld(chs: seq<Chunk>, at: nat, piece: Piece, base: u32)
    requires at < |chs| && chs[at] == PieceChunk(piece, base, at)
    ensures HoldsPiece(Assemble(chs), at, piece, base)
  {
    StampExact(base, at);
    ChunkExtent(chs, at);
  }

  lemma SegmentAt(chs: seq<Chunk>, at: nat, section: seq<Piece>, base: u32, i: nat)
    requires Segment(chs, at, section, base) && i < |section|
    ensures chs[at + i] == PieceChunk(section[i], base, at + i)
  {
    assert chs[at + i] == chs[at..at + |section|][i];
  }

  lemma SegmentHeld(chs: seq<Chunk>, at: nat, section: seq<Piece>, base: u32)
    requires Segment(chs, at, section, base)
    ensures HoldsSection(Assemble(chs), at, section, base)
  {
    forall i | 0 <= i < |section|
      ensures HoldsPiece(Assemble(chs), at + i, section[i], base)
    {
      SegmentAt(chs, at, section, base, i);
      PieceHeld(chs, at + i, section[i], base);
    }
  }

  // ---------------------------------------------------------------- fatal tails

  function FatalTail(kind: FatalKind, ts: u32): seq<byte> {
    match kind
    case LengthOverrunsEof => TailLengthOverrunsEof(ts, 1000, 16)
    case TruncatedHeader => TailTruncatedHeader(ts, 7)
    case HugeLength => TailLengthOverrunsEof(ts, 0xFFFF_FFFF, 8)
  }

  function FatalName(kind: FatalKind): string {
    match kind
    case LengthOverrunsEof => "fatal_length_overruns_eof"
    case TruncatedHeader => "fatal_truncated_header"
    case HugeLength => "fatal_huge_length"
  }

  function FatalChunk(kind: FatalKind, ts: u32): Chunk {
    Chunk(FatalTail(kind, ts), Meta(BGP4MP, BGP4MP_MESSAGE, ts, FatalName(kind), Abort))
  }

  lemma OverrunIs(ts: u32, declared: u32, actual: nat)
    ensures var s := TailLengthOverrunsEof(ts, declared, actual);
            && |s| == 12 + actual && Nat(s[..4]) == ts && Nat(s[4..6]) == 16 && Nat(s[6..8]) == 1
            && Nat(s[8..12]) == declared && AllZero(s[12..])
  {
    var rec := MrtRecord(ts, BGP4MP, BGP4MP_MESSAGE, None, Zeros(actual), Some(declared));
    HeaderFields(rec);
    assert [] + Zeros(actual) == Zeros(actual);
    assert EncodeRecord(rec)[0..4] == EncodeRecord(rec)[..4];
  }

  lemma CutIs(ts: u32)
    ensures FatalIs(TruncatedHeader, ts, TailTruncatedHeader(ts, 7))
  {
    var rec := NewRecord(ts, BGP4MP, BGP4MP_MESSAGE, []);
    var s := EncodeRecord(rec);
    HeaderFields(rec);
    assert s[..7][..4] == s[0..4] && s[..7][4..6] == s[4..6];
    assert BE(1, 0) == [0];
    assert U16(1) == [0] + [1];
    assert s[6] == s[6..8][0];
  }

  lemma FatalTailIs(kind: FatalKind, ts: u32)
    ensures FatalIs(kind, ts, FatalTail(kind, ts))
  {
    match kind
    case LengthOverrunsEof => OverrunIs(ts, 1000, 16);
    case TruncatedHeader => CutIs(ts);
    case HugeLength => OverrunIs(ts, 0xFFFF_FFFF, 8);
  }

  lemma SameNat(a: seq<byte>, b: seq<byte>)
    requires |a| == |b| && Nat(a) == Nat(b)
    ensures a == b
  {
    BEOfNat(a);
    BEOfNat(b);
  }

  lemma SameHeaders(s: seq<byte>, t: seq<byte>)
    requires |s| == |t| >= 12
    requires s[..4] == t[..4] && s[4..6] == t[4..6] && s[6..8] == t[6..8] && s[8..12] == t[8..12] && s[12..] == t[12..]
    ensures s == t
  {
    forall k | 0 <= k < |s|
      ensures s[k] == t[k]
    {
      if k < 4 {
        assert s[k] == s[..4][k] == t[..4][k];
      } else if k < 6 {
        assert s[k] == s[4..6][k - 4] == t[4..6][k - 4];
      } else if k < 8 {
        assert s[k] == s[6..8][k - 6] == t[6..8][k - 6];
      } else if k < 12 {
        assert s[k] == s[8..12][k - 8] == t[8..12][k - 8];
      } else {
        assert s[k] == s[12..][k - 12] == t[12..][k - 12];
      }
    }
  }

  lemma SameCutHeaders(s: seq<byte>, t: seq<byte>)
    requires |s| == |t| == 7 && s[..4] == t[..4] && s[4..6] == t[4..6] && s[6] == t[6]
    ensures s == t
  {
    assert s == s[..4] + s[4..6] + [s[6]];
    assert t == t[..4] + t[4..6] + [t[6]];
  }

  /** The description of a fatal tail leaves no octet open. */
  lemma FatalOnly(kind: FatalKind, ts: u32, s: seq<byte>, t: seq<byte>)
    requires FatalIs(kind, ts, s) && FatalIs(kind, ts, t)
    ensures s == t
  {
    SameNat(s[..4], t[..4]);
    SameNat(s[4..6], t[4..6]);
    if kind == TruncatedHeader {
      SameCutHeaders(s, t);
    } else {
      SameNat(s[6..8], t[6..8]);
      SameNat(s[8..12], t[8..12]);
      assert s[12..] == t[12..];
      SameHeaders(s, t);
    }
  }

  // ---------------------------------------------------------------- the generator as written

  method EmitPiece(b: Builder, piece: Piece, ghost done: seq<Chunk>)
    requires b.State() == Assemble(done)
    modifies b
    ensures b.State() == Assemble(done + [PieceChunk(piece, b.baseTimestamp, |done|)])
  {
    var ts := b.NextTimestamp();
    b.Push(piece.make(ts), piece.kind, piece.expected);
    AssembleSnoc(done, PieceChunk(piece, b.baseTimestamp, |done|));
  }

  lemma PlacedSnoc(done: seq<Chunk>, section: seq<Piece>, base: u32, i: nat)
    requires i < |section|
    ensures done + Placed(section, base, |done|)[..i + 1] ==
            done + Placed(section, base, |done|)[..i] + [PieceChunk(section[i], base, |done| + i)]
  {
  }

  method EmitPieces(b: Builder, section: seq<Piece>, ghost done: seq<Chunk>)
    requires b.State() == Assemble(done)
    modifies b
    ensures b.State() == Assemble(done + Placed(section, b.baseTimestamp, |done|))
  {
    ghost var placed := Placed(section, b.baseTimestamp, |done|);
    assert done + placed[..0] == done;
    for i := 0 to |section|
      invariant b.State() == Assemble(done + placed[..i])
    {
      PlacedSnoc(done, section, b.baseTimestamp, i);
      EmitPiece(b, section[i], done + placed[..i]);
    }
    assert placed[..|section|] == placed;
  }

  /** One section, if it is wanted. */
  method EmitSection(b: Builder, wanted: bool, section: seq<Piece>, ghost plan: seq<Gate>)
    requires b.State() == Assemble(Gathered(plan, b.baseTimestamp))
    modifies b
    ensures b.State() == Assemble(Gathered(plan + [Gate(wanted, section)], b.baseTimestamp))
  {
    GatheredSnoc(plan, Gate(wanted, section), b.baseTimestamp);
    if wanted {
      EmitPieces(b, section, Gathered(plan, b.baseTimestamp));
    }
  }

  lemma GatheredSnoc(plan: seq<Gate>, g: Gate, base: u32)
    ensures var init := Gathered(plan, base);
            Gathered(plan + [g], base) == if g.on then init + Placed(g.section, base, |init|) else init
  {
    assert (plan + [g])[..|plan|] == plan;
  }

  method EmitEdgeCases(b: Builder, includeValid: bool, includeSkip: bool, s: Sections, ghost plan: seq<Gate>)
    requires b.State() == Assemble(Gathered(plan, b.baseTimestamp))
    modifies b
    ensures b.State() == Assemble(Gathered(
              plan + [Gate(includeValid, s.edgeValid)] + [Gate(includeSkip, s.edgeSkip)], b.baseTimestamp))
  {
    EmitSection(b, includeValid, s.edgeValid, plan);
    EmitSection(b, includeSkip, s.edgeSkip, plan + [Gate(includeValid, s.edgeValid)]);
  }

  method EmitStress(b: Builder, includeValid: bool, includeSkip: bool, s: Sections, ghost plan: seq<Gate>)
    requires b.State() == Assemble(Gathered(plan, b.baseTimestamp))
    modifies b
    ensures b.State() == Assemble(Gathered(
              plan + [Gate(includeValid, s.stressValid)] + [Gate(includeSkip, s.stressSkip)], b.baseTimestamp))
  {
    EmitSection(b, includeValid, s.stressValid, plan);
    EmitSection(b, includeSkip, s.stressSkip, plan + [Gate(includeValid, s.stressValid)]);
  }

  method EmitClasses(b: Builder, cfg: Config, s: Sections)
    requires b.State() == EMPTY
    modifies b
    ensures b.State() == Assemble(Gathered(Plan(cfg, s)[..4], b.baseTimestamp))
  {
    ghost var plan := Plan(cfg, s);
    assert plan[..0] == [] && plan[..0] + [plan[0]] == plan[..1];
    EmitSection(b, cfg.includeValid, s.valid, plan[..0]);
    assert plan[..1] + [plan[1]] == plan[..2];
    EmitSection(b, cfg.includeSkip, s.skip, plan[..1]);
    assert plan[..2] + [plan[2]] == plan[..3];
    EmitSection(b, cfg.includeCombo, s.combo, plan[..2]);
    assert plan[..3] + [plan[3]] == plan[..4];
    EmitSection(b, cfg.includeAttrErrors, s.attrErrors, plan[..3]);
  }

  method EmitSections(b: Builder, cfg: Config, s: Sections)
    requires b.State() == EMPTY
    modifies b
    ensures b.State() == Assemble(Gathered(Plan(cfg, s), b.baseTimestamp))
  {
    ghost var plan := Plan(cfg, s);
    EmitClasses(b, cfg, s);
    assert plan[..4] + [plan[4]] + [plan[5]] == plan[..6];
    EmitEdgeCases(b, cfg.includeValid, cfg.includeSkip, s, plan[..4]);
    assert plan[..6] + [plan[6]] + [plan[7]] == plan;
    if cfg.stressProfile {
      EmitStress(b, cfg.includeValid, cfg.includeSkip, s, plan[..6]);
    } else {
      GatheredSnoc(plan[..6], plan[6], b.baseTimestamp);
      GatheredSnoc(plan[..6] + [plan[6]], plan[7], b.baseTimestamp);
    }
  }

  method EmitFatal(b: Builder, kind: FatalKind, ghost done: seq<Chunk>)
    requires b.State() == Assemble(done)
    modifies b
    ensures b.State() == Assemble(done + [FatalChunk(kind, StampOf(b.baseTimestamp, |done|))])
  {
    var ts := b.NextTimestamp();
    match kind {
      case LengthOverrunsEof =>
        b.PushRaw(TailLengthOverrunsEof(ts, 1000, 16), BGP4MP, BGP4MP_MESSAGE, ts, FatalName(kind));
      case TruncatedHeader =>
        b.PushRaw(TailTruncatedHeader(ts, 7), BGP4MP, BGP4MP_MESSAGE, ts, FatalName(kind));
      case HugeLength =>
        b.PushRaw(TailLengthOverrunsEof(ts, 0xFFFF_FFFF, 8), BGP4MP, BGP4MP_MESSAGE, ts, FatalName(kind));
    }
    AssembleSnoc(done, FatalChunk(kind, ts));
  }

  /** The chunks of a whole profile. */
  function ProfileChunks(cfg: Config, s: Sections): seq<Chunk> {
    var body := Gathered(Plan(cfg, s), cfg.baseTimestamp);
    if cfg.fatal.None? then body
    else body + [FatalChunk(cfg.fatal.value, StampOf(cfg.baseTimestamp, |body|))]
  }

  lemma FatalHeld(chs: seq<Chunk>, at: nat, kind: FatalKind, base: u32)
    requires at < |chs| && chs[at] == FatalChunk(kind, StampOf(base, at))
    ensures HoldsFatal(Assemble(chs), at, kind, base)
  {
    StampExact(base, at);
    FatalTailIs(kind, StampOf(base, at));
    ChunkExtent(chs, at);
  }

  lemma GateFilled(chs: seq<Chunk>, plan: seq<Gate>, base: u32, j: nat)
    requires j < |plan| && Gathered(plan, base) <= chs
    ensures GateHeld(Holder(Assemble(chs), base), plan, j)
  {
    if plan[j].on {
      var at, end := Total(plan[..j]), Total(plan[..j]) + |plan[j].section|;
      GatheredSegment(plan, base, j);
      assert chs[at..end] == Gathered(plan, base)[at..end];
      SegmentHeld(chs, at, plan[j].section, base);
    }
  }

  lemma GatesFilled(chs: seq<Chunk>, plan: seq<Gate>, base: u32)
    requires Gathered(plan, base) <= chs
    ensures GatesHeld(Holder(Assemble(chs), base), plan)
  {
    forall j | 0 <= j < |plan|
      ensures GateHeld(Holder(Assemble(chs), base), plan, j)
    {
      GateFilled(chs, plan, base, j);
    }
  }

  lemma AssembledTruly(chs: seq<Chunk>)
    ensures Layout(Assemble(chs)) && CountsTell(Assemble(chs).counts, Assemble(chs).entries)
  {
    AssembleLayout(chs);
    LayoutCounts(Assemble(chs).entries);
  }

  lemma ProfileChunksAre(cfg: Config, s: Sections)
    ensures ProfileIs(Assemble(ProfileChunks(cfg, s)), cfg, s)
  {
    var chs := ProfileChunks(cfg, s);
    AssembledTruly(chs);
    GatesFilled(chs, Plan(cfg, s), cfg.baseTimestamp);
    if cfg.fatal.Some? {
      FatalHeld(chs, |chs| - 1, cfg.fatal.value, cfg.baseTimestamp);
    }
    ProfileIsPlan(Assemble(chs), cfg, s);
  }

  /** The sections in their order, then the fatal tail. */
  method GenerateProfile(cfg: Config, s: Sections) returns (c: Corpus)
    ensures ProfileIs(c, cfg, s)
  {
    var b := new Builder(cfg.baseTimestamp);
    EmitSections(b, cfg, s);
    if cfg.fatal.Some? {
      EmitFatal(b, cfg.fatal.value, Gathered(Plan(cfg, s), cfg.baseTimestamp));
    }
    c := b.State();
    ProfileChunksAre(cfg, s);
  }

  // ---------------------------------------------------------------- a profile is determined

  ghost predicate SameAt(c: Corpus, d: Corpus, i: nat) {
    && i < |c.entries| && i < |d.entries|
    && ChunkAt(c.bytes, c.entries[i]) == ChunkAt(d.bytes, d.entries[i])
  }

  lemma {:induction false} GateOf(plan: seq<Gate>, i: nat) returns (j: nat)
    requires i < Total(plan)
    ensures j < |plan| && plan[j].on && Total(plan[..j]) <= i < Total(plan[..j]) + |plan[j].section|
  {
    var n := |plan| - 1;
    if i < Total(plan[..n]) {
      j := GateOf(plan[..n], i);
      assert plan[..n][..j] == plan[..j];
    } else {
      j := n;
    }
  }

  /** A section makes, for every timestamp, honestly framed records of the valid and skip classes. */
  ghost predicate SoundPieces(section: seq<Piece>) {
    forall i :: 0 <= i < |section| ==> SoundPiece(section[i])
  }

  ghost predicate SoundPiece(piece: Piece) {
    piece.expected != Abort && forall ts: u32 :: Honest(piece.make(ts))
  }

  ghost predicate Sound(s: Sections) {
    && SoundPieces(s.valid) && SoundPieces(s.skip) && SoundPieces(s.combo) && SoundPieces(s.attrErrors)
    && SoundPieces(s.edgeValid) && SoundPieces(s.edgeSkip) && SoundPieces(s.stressValid) && SoundPieces(s.stressSkip)
  }

  lemma PlanSound(cfg: Config, s: Sections, j: nat)
    requires Sound(s) && j < 8
    ensures SoundPieces(Plan(cfg, s)[j].section)
  {
  }

  /** The piece a record of the body holds. */
  lemma PieceAt(c: Corpus, plan: seq<Gate>, base: u32, i: nat) returns (j: nat, k: nat)
    requires GatesHeld(Holder(c, base), plan) && i < Total(plan)
    ensures j < |plan| && k < |plan[j].section| && HoldsPiece(c, i, plan[j].section[k], base)
  {
    j := GateOf(plan, i);
    assert GateHeld(Holder(c, base), plan, j);
    var at := Total(plan[..j]);
    k := i - at;
    assert HoldsPiece(c, at + k, plan[j].section[k], base);
  }

  lemma PlannedAt(c: Corpus, cfg: Config, s: Sections, i: nat) returns (piece: Option<Piece>)
    requires PlanHeld(c, cfg, s) && i < |c.entries|
    ensures piece.Some? ==> HoldsPiece(c, i, piece.value, cfg.baseTimestamp) && Planned(piece.value, Plan(cfg, s))
    ensures piece.None? ==> cfg.fatal.Some? && i == |c.entries| - 1 && HoldsFatal(c, i, cfg.fatal.value, cfg.baseTimestamp)
  {
    var plan := Plan(cfg, s);
    if i < Total(plan) {
      var j, k := PieceAt(c, plan, cfg.baseTimestamp, i);
      piece := Some(plan[j].section[k]);
    } else {
      piece := None;
    }
  }

  ghost predicate Planned(piece: Piece, plan: seq<Gate>) {
    exists j, k :: 0 <= j < |plan| && 0 <= k < |plan[j].section| && plan[j].section[k] == piece
  }

  lemma PlannedSound(cfg: Config, s: Sections, piece: Piece)
    requires Sound(s) && Planned(piece, Plan(cfg, s))
    ensures SoundPiece(piece)
  {
    var plan := Plan(cfg, s);
    var j, k :| 0 <= j < |plan| && 0 <= k < |plan[j].section| && plan[j].section[k] == piece;
    PlanSound(cfg, s, j);
    assert SoundPiece(plan[j].section[k]);
  }

  /** The piece a record holds, or nothing for the fatal tail. */
  lemma HolderOf(c: Corpus, cfg: Config, s: Sections, i: nat) returns (piece: Option<Piece>)
    requires ProfileIs(c, cfg, s) && i < |c.entries|
    ensures piece.Some? ==> HoldsPiece(c, i, piece.value, cfg.baseTimestamp) && (Sound(s) ==> SoundPiece(piece.value))
    ensures piece.None? ==> cfg.fatal.Some? && i == |c.entries| - 1 && HoldsFatal(c, i, cfg.fatal.value, cfg.baseTimestamp)
  {
    ProfileIsPlan(c, cfg, s);
    piece := PlannedAt(c, cfg, s, i);
    if piece.Some? && Sound(s) { PlannedSound(cfg, s, piece.value); }
  }

  lemma SamePiece(c: Corpus, d: Corpus, at: nat, section: seq<Piece>, base: u32, i: nat)
    requires HoldsSection(c, at, section, base) && HoldsSection(d, at, section, base)
    requires at <= i < at + |section|
    ensures SameAt(c, d, i)
  {
    assert HoldsPiece(c, at + (i - at), section[i - at], base);
    assert HoldsPiece(d, at + (i - at), section[i - at], base);
  }

  lemma SameFatal(c: Corpus, d: Corpus, at: nat, kind: FatalKind, base: u32)
    requires HoldsFatal(c, at, kind, base) && HoldsFatal(d, at, kind, base)
    ensures SameAt(c, d, at)
  {
    var ts := (base + at) % 0x1_0000_0000;
    FatalOnly(kind, ts, Extract(c.bytes, c.entries[at]), Extract(d.bytes, d.entries[at]));
  }

  lemma BodySameAt(c: Corpus, d: Corpus, plan: seq<Gate>, base: u32, i: nat)
    requires GatesHeld(Holder(c, base), plan) && GatesHeld(Holder(d, base), plan) && i < Total(plan)
    ensures SameAt(c, d, i)
  {
    var j := GateOf(plan, i);
    assert GateHeld(Holder(c, base), plan, j) && GateHeld(Holder(d, base), plan, j);
    SamePiece(c, d, Total(plan[..j]), plan[j].section, base, i);
  }

  lemma ProfileSameAt(c: Corpus, d: Corpus, cfg: Config, s: Sections, i: nat)
    requires PlanHeld(c, cfg, s) && PlanHeld(d, cfg, s) && i < |c.entries|
    ensures SameAt(c, d, i)
  {
    if i < Total(Plan(cfg, s)) {
      BodySameAt(c, d, Plan(cfg, s), cfg.baseTimestamp, i);
    } else {
      SameFatal(c, d, i, cfg.fatal.value, cfg.baseTimestamp);
    }
  }

  /** The description of a profile leaves nothing open: two corpora that meet it are equal, octets,
      manifest and counts. */
  lemma ProfileDetermined(c: Corpus, d: Corpus, cfg: Config, s: Sections)
    requires ProfileIs(c, cfg, s) && ProfileIs(d, cfg, s)
    ensures c == d
  {
    ProfileIsPlan(c, cfg, s);
    ProfileIsPlan(d, cfg, s);
    forall i: nat | i < |c.entries|
      ensures Records(c)[i] == Records(d)[i]
    {
      ProfileSameAt(c, d, cfg, s, i);
    }
    assert Records(c) == Records(d);
    LayoutAssemble(c);
    LayoutAssemble(d);
  }

  /** Sections that differ only where a switch is off. */
  ghost predicate SameWhereOn(cfg: Config, s: Sections, t: Sections) {
    && (cfg.includeValid ==> s.valid == t.valid && s.edgeValid == t.edgeValid)
    && (cfg.includeSkip ==> s.skip == t.skip && s.edgeSkip == t.edgeSkip)
    && (cfg.includeCombo ==> s.combo == t.combo)
    && (cfg.includeAttrErrors ==> s.attrErrors == t.attrErrors)
    && (cfg.stressProfile && cfg.includeValid ==> s.stressValid == t.stressValid)
    && (cfg.stressProfile && cfg.includeSkip ==> s.stressSkip == t.stressSkip)
  }

  lemma {:induction false} TotalOfSame(p: seq<Gate>, q: seq<Gate>)
    requires |p| == |q| && forall j :: 0 <= j < |p| ==> p[j].on == q[j].on && (p[j].on ==> p[j].section == q[j].section)
    ensures Total(p) == Total(q)
  {
    if p != [] { TotalOfSame(p[..|p| - 1], q[..|q| - 1]); }
  }

  lemma PlanOfSame(cfg: Config, s: Sections, t: Sections, j: nat)
    requires SameWhereOn(cfg, s, t) && j < 8
    ensures var p, q := Plan(cfg, s)[j], Plan(cfg, t)[j]; p.on == q.on && (p.on ==> p.section == q.section)
  {
  }

  lemma GatesOfSame(held: (nat, seq<Piece>) -> bool, p: seq<Gate>, q: seq<Gate>)
    requires |p| == |q| && forall j :: 0 <= j < |p| ==> p[j].on == q[j].on && (p[j].on ==> p[j].section == q[j].section)
    requires GatesHeld(held, p)
    ensures GatesHeld(held, q)
  {
    forall j | 0 <= j < |q|
      ensures GateHeld(held, q, j)
    {
      TotalOfSame(p[..j], q[..j]);
      assert GateHeld(held, p, j);
    }
  }

  /** What a switched-off section would have held changes nothing. */
  lemma SwitchedOff(c: Corpus, cfg: Config, s: Sections, t: Sections)
    requires ProfileIs(c, cfg, s) && SameWhereOn(cfg, s, t)
    ensures ProfileIs(c, cfg, t)
  {
    var p, q := Plan(cfg, s), Plan(cfg, t);
    ProfileIsPlan(c, cfg, s);
    ProfileIsPlan(c, cfg, t);
    forall j | 0 <= j < 8
      ensures p[j].on == q[j].on && (p[j].on ==> p[j].section == q[j].section)
    {
      PlanOfSame(cfg, s, t, j);
    }
    TotalOfSame(p, q);
    GatesOfSame(Holder(c, cfg.baseTimestamp), p, q);
  }

  // ---------------------------------------------------------------- walking a profile

  lemma BodyFramed(c: Corpus, cfg: Config, s: Sections, n: nat)
    requires ProfileIs(c, cfg, s) && Sound(s) && |c.entries| == n + (if cfg.fatal.Some? then 1 else 0)
    ensures AllFramedChunks(Records(c)[..n])
    ensures forall i :: 0 <= i < n ==> c.entries[i].meta.expected != Abort
  {
    forall i: nat | i < n
      ensures Framed(Records(c)[i].bytes) && c.entries[i].meta.expected != Abort
    {
      RecordSound(c, cfg, s, i);
    }
  }

  lemma RecordSound(c: Corpus, cfg: Config, s: Sections, i: nat)
    requires ProfileIs(c, cfg, s) && Sound(s) && i + (if cfg.fatal.Some? then 1 else 0) < |c.entries|
    ensures Framed(Extract(c.bytes, c.entries[i])) && c.entries[i].meta.expected != Abort
  {
    var piece := HolderOf(c, cfg, s, i);
    EncodedFramed(piece.value.make((cfg.baseTimestamp + i) % 0x1_0000_0000));
  }

  /** Without a fatal tail the walk reaches the end cleanly and no record is of the abort class. */
  lemma CleanCorpusWalk(c: Corpus, cfg: Config, s: Sections)
    requires ProfileIs(c, cfg, s) && Sound(s) && cfg.fatal.None?
    ensures Walk(c.bytes) == Walked(|c.entries|, true) && c.counts.abort == 0
  {
    BodyFramed(c, cfg, s, |c.entries|);
    assert Records(c)[..|c.entries|] == Records(c);
    WalkAgreesWithManifest(Records(c));
    LayoutAssemble(c);
    assert Positions(c.entries, Abort) == {};
  }

  lemma FatalStops(kind: FatalKind, ts: u32, s: seq<byte>)
    requires FatalIs(kind, ts, s)
    ensures Walk(s) == Walked(0, false)
  {
  }

  lemma FatalIsLast(c: Corpus, cfg: Config, s: Sections)
    requires ProfileIs(c, cfg, s) && cfg.fatal.Some?
    ensures |c.entries| > 0 && HoldsFatal(c, |c.entries| - 1, cfg.fatal.value, cfg.baseTimestamp)
  {
  }

  lemma LastFatal(c: Corpus, n: nat, kind: FatalKind, base: u32)
    requires HoldsFatal(c, n, kind, base)
    ensures Walk(Records(c)[n].bytes) == Walked(0, false) && c.entries[n].meta.expected == Abort
  {
    FatalStops(kind, (base + n) % 0x1_0000_0000, Records(c)[n].bytes);
  }

  lemma LastRecord(c: Corpus)
    requires Layout(c) && c.entries != []
    ensures var n := |c.entries| - 1;
            c.bytes == Flat(Parts(Records(c)[..n])) + Records(c)[n].bytes
  {
    var n := |c.entries| - 1;
    var body := Records(c)[..n];
    LayoutAssemble(c);
    assert Records(c) == body + [Records(c)[n]];
    AssembleSnoc(body, Records(c)[n]);
    AssembleBytes(body);
  }

  lemma OnlyLastAborts(entries: seq<RecordEntry>)
    requires entries != [] && entries[|entries| - 1].meta.expected == Abort
    requires forall i :: 0 <= i < |entries| - 1 ==> entries[i].meta.expected != Abort
    ensures |Positions(entries, Abort)| == 1
  {
    assert Positions(entries, Abort) == {|entries| - 1};
  }

  lemma WalkUpToLast(c: Corpus)
    requires Layout(c) && c.entries != []
    requires var n := |c.entries| - 1;
             AllFramedChunks(Records(c)[..n]) && Walk(Records(c)[n].bytes) == Walked(0, false)
    ensures Walk(c.bytes) == Walked(|c.entries| - 1, false)
  {
    var n := |c.entries| - 1;
    LastRecord(c);
    WalkFlat(Parts(Records(c)[..n]), Records(c)[n].bytes);
  }

  /** With one, the walk counts every record but the last and stops; that last record alone is of
      the abort class. */
  lemma FatalCorpusWalk(c: Corpus, cfg: Config, s: Sections)
    requires ProfileIs(c, cfg, s) && Sound(s) && cfg.fatal.Some?
    ensures |c.entries| > 0 && Walk(c.bytes) == Walked(|c.entries| - 1, false) && c.counts.abort == 1
    ensures c.entries[|c.entries| - 1].meta.expected == Abort
  {
    BodyFramed(c, cfg, s, |c.entries| - 1);
    FatalIsLast(c, cfg, s);
    LastFatal(c, |c.entries| - 1, cfg.fatal.value, cfg.baseTimestamp);
    WalkUpToLast(c);
    OnlyLastAborts(c.entries);
  }
}
