/** What the verdicts of the two FlowSpec readers say about the octets they read: the decoder accepts
    exactly the octets that its result prints back to, and the checker's reason is true of the place it
    stopped at. */
module FlowSpecVerdicts {
  import opened Bytes
  import opened FlowSpec
  import opened FlowSpecReaders
  import opened FlowSpecChecks
  import FlowSpecWire
  import FlowSpecAcceptance

  // ---------------------------------------------------------------- printing what was decoded

  /** Octets of an operator's value, by the two bits of its width field. */
  function ValueWidth(op: nat): nat { [1, 2, 4, 8][op / 0x10 % 4] }

  function PrintOps(ops: seq<RawOp>): seq<byte> {
    if ops == [] then [] else [ops[0].op] + BE(ValueWidth(ops[0].op), ops[0].value) + PrintOps(ops[1..])
  }

  /** Every value fits its width, and the end bit is set on the last operator alone. */
  predicate ListFormed(ops: seq<RawOp>) {
    && ops != []
    && forall i :: 0 <= i < |ops| ==>
         ops[i].value < Pow256(ValueWidth(ops[i].op)) && (ops[i].op >= 0x80 <==> i == |ops| - 1)
  }

  function PrintComp(c: RawComp, v6: bool): seq<byte> {
    match c
    case RawNet(t, _, bits, addr) => [t, bits] + (if v6 then [0] else []) + addr[..if OctetsFor(bits) <= |addr| then OctetsFor(bits) else |addr|]
    case RawList(t, _, ops) => [t] + PrintOps(ops)
  }

  function PrintComps(cs: seq<RawComp>, v6: bool): seq<byte> {
    if cs == [] then [] else PrintComp(cs[0], v6) + PrintComps(cs[1..], v6)
  }

  /** An address of the family with nothing set behind the octets of the prefix; in an IPv4 list also
      sixteen octets, all of which belong to the prefix. */
  predicate NetFormed(bits: nat, addr: seq<byte>, v6: bool) {
    if |addr| == (if v6 then 16 else 4) then
      OctetsFor(bits) <= |addr| && forall k :: OctetsFor(bits) <= k < |addr| ==> addr[k] == 0
    else |addr| == 16 && OctetsFor(bits) == 16
  }

  predicate CompFormed(c: RawComp, v6: bool) {
    && c.size == |PrintComp(c, v6)|
    && (c.RawNet? <==> c.ctype == 1 || c.ctype == 2)
    && match c
       case RawNet(_, _, bits, addr) => NetFormed(bits, addr, v6)
       case RawList(_, _, ops) => ListFormed(ops)
  }

  /** Well formed components of strictly ascending types, all above `last`. */
  predicate ListOfComps(cs: seq<RawComp>, v6: bool, last: nat) {
    cs == [] || (cs[0].ctype > last && CompFormed(cs[0], v6) && ListOfComps(cs[1..], v6, cs[0].ctype))
  }

  // ---------------------------------------------------------------- decoded, then printed

  lemma WidthIs(op: byte)
    ensures OpWidth(op) == ValueWidth(op)
  {
  }

  lemma PrintOpsHead(ops: seq<RawOp>, rest: seq<byte>)
    requires ops != []
    ensures PrintOps(ops) + rest == [ops[0].op] + BE(ValueWidth(ops[0].op), ops[0].value) + (PrintOps(ops[1..]) + rest)
  {
    Assoc([ops[0].op] + BE(ValueWidth(ops[0].op), ops[0].value), PrintOps(ops[1..]), rest);
  }

  lemma SplitOp(s: seq<byte>, width: nat)
    requires s != [] && 1 + width <= |s|
    ensures s == [s[0]] + s[1..1 + width] + s[1 + width..]
  {
  }

  lemma OneOpPrints(s: seq<byte>, ops: seq<RawOp>, rest: seq<byte>)
    requires s != [] && 1 + OpWidth(s[0]) <= |s| && s[1 + OpWidth(s[0])..] == PrintOps(ops) + rest
    ensures var head := RawOp(s[0], Nat(s[1..1 + OpWidth(s[0])]));
            s == PrintOps([head] + ops) + rest && head.value < Pow256(ValueWidth(head.op))
  {
    var width := OpWidth(s[0]);
    var head := RawOp(s[0], Nat(s[1..1 + width]));
    WidthIs(s[0]);
    BEOfNat(s[1..1 + width]);
    assert ([head] + ops)[1..] == ops;
    PrintOpsHead([head] + ops, rest);
    SplitOp(s, width);
  }

  lemma FormedCons(head: RawOp, ops: seq<RawOp>)
    requires head.value < Pow256(ValueWidth(head.op))
    requires if head.op >= 0x80 then ops == [] else ListFormed(ops)
    ensures ListFormed([head] + ops)
  {
    var all := [head] + ops;
    assert forall i :: 1 <= i < |all| ==> all[i] == ops[i - 1];
  }

  lemma {:induction false} OpsPrintBack(s: seq<byte>)
    requires ReadOps(s).Ops?
    ensures s == PrintOps(ReadOps(s).ops) + ReadOps(s).rest && ListFormed(ReadOps(s).ops)
    decreases |s|
  {
    var next := 1 + OpWidth(s[0]);
    var head := RawOp(s[0], Nat(s[1..next]));
    var more := if head.End() then Ops([], s[next..]) else ReadOps(s[next..]);
    if !head.End() {
      OpsPrintBack(s[next..]);
    }
    assert PrintOps([]) + s[next..] == s[next..];
    OneOpPrints(s, more.ops, more.rest);
    FormedCons(head, more.ops);
    assert ReadOps(s) == Ops([head] + more.ops, more.rest) by { assert [head] + [] == [head]; }
  }

  lemma NetPrintsBack(t: byte, s: seq<byte>, v6: bool)
    requires ReadNet(s, v6).Net?
    ensures var n := ReadNet(s, v6);
            && [t] + s == PrintComp(RawNet(t, 0, n.bits, n.addr), v6) + n.rest
            && NetFormed(n.bits, n.addr, v6)
  {
    var at := if v6 then 2 else 1;
    var n, next := ReadNet(s, v6), at + OctetsFor(s[0]);
    var pattern := s[at..next];
    assert n.addr[..OctetsFor(s[0])] == pattern;
    assert s == [s[0]] + (if v6 then [0] else []) + pattern + s[next..];
  }

  lemma OnePrintsBack(s: seq<byte>, v6: bool, last: nat)
    requires s != [] && ReadOne(s, v6, last).One?
    ensures var one := ReadOne(s, v6, last);
            s == PrintComp(one.comp, v6) + one.rest && one.comp.ctype > last && CompFormed(one.comp, v6)
  {
    var t := s[0];
    assert s == [t] + s[1..];
    if t == 1 || t == 2 {
      NetPrintsBack(t, s[1..], v6);
    } else {
      OpsPrintBack(s[1..]);
      Assoc([t], PrintOps(ReadOps(s[1..]).ops), ReadOps(s[1..]).rest);
    }
  }

  lemma {:induction false} CompsPrintBack(s: seq<byte>, v6: bool, last: nat)
    requires ReadComps(s, v6, last).Ok?
    ensures var cs := ReadComps(s, v6, last).value; s == PrintComps(cs, v6) && ListOfComps(cs, v6, last)
    decreases |s|
  {
    if s != [] {
      var one := ReadOne(s, v6, last);
      OnePrintsBack(s, v6, last);
      CompsPrintBack(one.rest, v6, one.comp.ctype);
      var rest := ReadComps(one.rest, v6, one.comp.ctype).value;
      assert ([one.comp] + rest)[1..] == rest;
    }
  }

  // ---------------------------------------------------------------- printed, then decoded

  lemma PrintedOpRead(op: byte, value: nat, tail: seq<byte>)
    requires value < Pow256(ValueWidth(op))
    ensures ReadOps([op] + BE(ValueWidth(op), value) + tail) ==
            if op >= 0x80 then Ops([RawOp(op, value)], tail) else AfterOps([RawOp(op, value)], ReadOps(tail))
  {
    var octets := BE(ValueWidth(op), value);
    var s := [op] + octets + tail;
    WidthIs(op);
    NatOfBE(ValueWidth(op), value);
    assert s[1..1 + |octets|] == octets && s[1 + |octets|..] == tail;
  }

  lemma FormedTail(ops: seq<RawOp>)
    requires ListFormed(ops) && |ops| > 1
    ensures ops[0].op < 0x80 && ListFormed(ops[1..]) && [ops[0]] + ops[1..] == ops
  {
  }

  lemma {:induction false} PrintedOpsRead(ops: seq<RawOp>, rest: seq<byte>)
    requires ListFormed(ops)
    ensures ReadOps(PrintOps(ops) + rest) == Ops(ops, rest)
  {
    PrintOpsHead(ops, rest);
    PrintedOpRead(ops[0].op, ops[0].value, PrintOps(ops[1..]) + rest);
    if |ops| == 1 {
      assert ops[1..] == [] && [] + rest == rest && ops == [ops[0]];
    } else {
      FormedTail(ops);
      PrintedOpsRead(ops[1..], rest);
    }
  }

  lemma NetAtRead(s: seq<byte>, bits: byte, pattern: seq<byte>, v6: bool, rest: seq<byte>)
    requires |pattern| == OctetsFor(bits) && s == [bits] + (if v6 then [0] else []) + pattern + rest
    ensures ReadNet(s, v6) == match ToAddress(pattern, v6) case None => NoNet case Some(addr) => Net(bits, addr, rest)
  {
    var at := if v6 then 2 else 1;
    assert s[at..at + |pattern|] == pattern && s[at + |pattern|..] == rest;
  }

  lemma BehindType(t: byte, bits: byte, offset: seq<byte>, pattern: seq<byte>, rest: seq<byte>)
    ensures ([t, bits] + offset + pattern + rest)[1..] == [bits] + offset + pattern + rest
  {
  }

  lemma PrintedNetRead(t: byte, bits: byte, addr: seq<byte>, v6: bool, rest: seq<byte>)
    requires NetFormed(bits, addr, v6)
    ensures var s := PrintComp(RawNet(t, 0, bits, addr), v6) + rest;
            |s| >= 1 && s[0] == t && ReadNet(s[1..], v6) == Net(bits, addr, rest)
  {
    var s, pattern := PrintComp(RawNet(t, 0, bits, addr), v6) + rest, addr[..OctetsFor(bits)];
    BehindType(t, bits, if v6 then [0] else [], pattern, rest);
    NetAtRead(s[1..], bits, pattern, v6, rest);
    if |addr| == (if v6 then 16 else 4) {
      assert PadTo(|addr|, pattern) == addr;
    } else {
      assert pattern == addr;
    }
  }

  lemma PrintedOneRead(c: RawComp, v6: bool, last: nat, rest: seq<byte>)
    requires CompFormed(c, v6) && c.ctype > last
    ensures PrintComp(c, v6) + rest != []
    ensures ReadOne(PrintComp(c, v6) + rest, v6, last) == One(c, rest)
  {
    var s := PrintComp(c, v6) + rest;
    match c
    case RawNet(t, _, bits, addr) => PrintedNetRead(t, bits, addr, v6, rest);
    case RawList(t, _, ops) =>
      Assoc([t], PrintOps(ops), rest);
      assert s[1..] == PrintOps(ops) + rest;
      PrintedOpsRead(ops, rest);
  }

  lemma {:induction false} PrintedCompsRead(cs: seq<RawComp>, v6: bool, last: nat)
    requires ListOfComps(cs, v6, last)
    ensures ReadComps(PrintComps(cs, v6), v6, last) == Ok(cs)
  {
    if cs != [] {
      PrintedOneRead(cs[0], v6, last, PrintComps(cs[1..], v6));
      PrintedCompsRead(cs[1..], v6, cs[0].ctype);
      assert [cs[0]] + cs[1..] == cs;
    }
  }

  /** The two forms of the length the decoder takes: one octet below 240, or two that hold it under a
      nibble of ones, for any length up to 4095. */
  predicate FramedAs(data: seq<byte>, body: seq<byte>) {
    || (|body| < 240 && data == [|body|] + body)
    || (|body| <= 4095 && data == [0xF0 + |body| / 0x100, |body| % 0x100] + body)
  }

  lemma UnframedIff(data: seq<byte>, body: seq<byte>)
    ensures Unframe(data) == Ok(body) <==> FramedAs(data, body)
  {
    if Unframe(data) == Ok(body) {
      if data[0] >= 0xF0 {
        assert data == [data[0], data[1]] + data[2..];
      } else {
        assert data == [data[0]] + data[1..];
      }
    }
    if |body| < 240 && data == [|body|] + body {
      assert data[1..] == body;
    } else if FramedAs(data, body) {
      var high: nat := data[0] % 0x10;
      assert data[2..] == body && high == |body| / 0x100;
    }
  }

  /** The decoder exactly: it returns a list of components for some octets if and only if the list is well
      formed and the octets are a length in front of what the list prints to. */
  lemma DecodedIff(data: seq<byte>, v6: bool, cs: seq<RawComp>)
    ensures DecodeRaw(data, v6) == Ok(cs) <==>
            ListOfComps(cs, v6, 0) && FramedAs(data, PrintComps(cs, v6))
  {
    if DecodeRaw(data, v6) == Ok(cs) {
      CompsPrintBack(Unframe(data).value, v6, 0);
      UnframedIff(data, PrintComps(cs, v6));
    }
    if ListOfComps(cs, v6, 0) && FramedAs(data, PrintComps(cs, v6)) {
      UnframedIff(data, PrintComps(cs, v6));
      PrintedCompsRead(cs, v6, 0);
    }
  }

  /** What is reported of an operator: the AND bit, then the three comparison bits or the not and match
      bits, and the value. */
  predicate NumericTold(n: NumericTerm, op: RawOp) {
    (n.and <==> op.op / 0x40 % 2 == 1) && n.cmp == op.op % 8 && n.value == op.value
  }

  predicate MaskTold(m: MaskTerm, op: RawOp) {
    && (m.and <==> op.op / 0x40 % 2 == 1) && (m.negate <==> op.op / 2 % 2 == 1) && (m.exact <==> op.op % 2 == 1)
    && m.flags == op.value
  }

  /** What is reported of a component: types 9 and 12 are bitmasks, every other list is numeric. */
  predicate ComponentTold(v: Component, c: RawComp) {
    && v.ctype == c.ctype
    && match c
       case RawNet(_, _, bits, addr) => v.Network? && v.bits == bits && v.addr == addr
       case RawList(t, _, ops) =>
         if t == 9 || t == 12 then v.Bitmask? && |v.masks| == |ops| && forall i :: 0 <= i < |ops| ==> MaskTold(v.masks[i], ops[i])
         else v.Numeric? && |v.terms| == |ops| && forall i :: 0 <= i < |ops| ==> NumericTold(v.terms[i], ops[i])
  }

  /** The components reported are, one by one, those that the octets print. */
  lemma ReportedTold(data: seq<byte>, v6: bool, got: seq<Component>) returns (cs: seq<RawComp>)
    requires Decode(data, v6) == Ok(got)
    ensures ListOfComps(cs, v6, 0) && FramedAs(data, PrintComps(cs, v6))
    ensures |got| == |cs| && forall i :: 0 <= i < |cs| ==> ComponentTold(got[i], cs[i])
  {
    cs := DecodeRaw(data, v6).value;
    DecodedIff(data, v6, cs);
  }

  // ---------------------------------------------------------------- splitting the length off

  /** `split_nlri`: the length and what follows it, unchecked; nothing when there is no whole length. */
  function SplitNlri(nlri: seq<byte>): Option<(nat, seq<byte>)> {
    if nlri == [] then None
    else if nlri[0] >= 0xF0 then
      if |nlri| < 2 then None else Some((LongLength(nlri[0], nlri[1]), nlri[2..]))
    else Some((nlri[0], nlri[1..]))
  }

  /** On encoded rules the length is the size of the components, and exactly they follow it. */
  lemma SplitEncoded(r: Rule)
    requires Encode(r).Ok?
    ensures var split := SplitNlri(Encode(r).value.0);
            split.Some? && split.value.0 == |split.value.1| == FlowSpecAcceptance.RuleSize(r)
            && Unframe(Encode(r).value.0) == Ok(split.value.1)
  {
    FlowSpecAcceptance.EncodedFamily(r);
    FlowSpecAcceptance.EncodedIff(r, FlowSpecReaders.FlowV6(r));
    FlowSpecWire.UnframeFrame(Serialize(Compile(r).value) + r.Raw());
  }

  // ---------------------------------------------------------------- why the checker refuses

  function TypesOf(steps: seq<Step>): set<byte> { set s <- steps :: s.ctype }

  function LastOf(steps: seq<Step>, last: nat): nat {
    if steps == [] then last else steps[|steps| - 1].ctype
  }

  /** Whole operators, none of them the last of a list. */
  predicate Unended(ops: seq<RawOp>) {
    forall i :: 0 <= i < |ops| ==> ops[i].op < 0x80
  }

  /** A list that stops without an end bit. */
  ghost predicate ListCut(s: seq<byte>) {
    exists ops: seq<RawOp> :: Unended(ops) && s == PrintOps(ops)
  }

  ghost predicate CutBehind(s: seq<byte>, ops: seq<RawOp>, tail: seq<byte>) {
    Unended(ops) && s == PrintOps(ops) + tail
  }

  /** A list that stops inside the value of an operator of a given width. */
  ghost predicate ValueCut(s: seq<byte>, width: nat) {
    exists ops: seq<RawOp>, tail: seq<byte> :: CutBehind(s, ops, tail) && tail != [] && ValueWidth(tail[0]) == width && |tail| < 1 + width
  }

  /** The reason is true of the octets from the refused component on, given the largest type and the set
      of types before it. */
  ghost predicate Explains(v: Violation, s: seq<byte>, v6: bool, last: nat, seen: set<byte>)
    requires s != []
  {
    var t, at := s[0], if v6 then 3 else 2;
    match v
    case UnknownType(u) => u == t && (t == 0 || t > 13)
    case DuplicateType(u) => u == t && 1 <= t <= 13 && t in seen
    case NotAscending(u, l) => u == t && 1 <= t <= 13 && t !in seen && l == last && t < last
    case V6OnlyType(u) => u == t == 13 && !v6 && t !in seen && t >= last
    case NoLengthOctet(u) => u == t && (t == 1 || t == 2) && |s| == 1
    case NoOffsetOctet(u) => u == t && (t == 1 || t == 2) && v6 && |s| == 2
    case LengthTooLong(bits, u) => u == t && (t == 1 || t == 2) && |s| >= at && bits == s[1] && bits > (if v6 then 128 else 32)
    case TruncatedAddress(u) =>
      u == t && (t == 1 || t == 2) && |s| >= at && s[1] <= (if v6 then 128 else 32) && |s| < at + (s[1] + 7) / 8
    case TruncatedList(u) => u == t && 3 <= t <= 13 && ListCut(s[1..])
    case TruncatedValue(width, u) => u == t && 3 <= t <= 13 && ValueCut(s[1..], width)
  }

  lemma {:induction false} OpsCut(s: seq<byte>, t: byte)
    requires SkipOps(s, t).Stop?
    ensures var v := SkipOps(s, t).violation;
            (v == TruncatedList(t) && ListCut(s)) || (v.TruncatedValue? && v.t == t && ValueCut(s, v.width))
    decreases |s|
  {
    if s == [] {
      assert Unended([]) && s == PrintOps([]);
    } else {
      var width := OpWidth(s[0]);
      WidthIs(s[0]);
      if 1 + width > |s| {
        assert CutBehind(s, [], s) by { assert [] + s == s; }
      } else {
        OpsCut(s[1 + width..], t);
        CutOneMore(s, t, width);
      }
    }
  }

  lemma PrintOneMore(s: seq<byte>, width: nat, ops: seq<RawOp>, tail: seq<byte>)
    requires s != [] && width == ValueWidth(s[0]) && 1 + width <= |s| && s[0] < 0x80
    requires CutBehind(s[1 + width..], ops, tail)
    ensures CutBehind(s, [RawOp(s[0], Nat(s[1..1 + width]))] + ops, tail)
  {
    var head := RawOp(s[0], Nat(s[1..1 + width]));
    var all := [head] + ops;
    BEOfNat(s[1..1 + width]);
    assert all[1..] == ops;
    PrintOpsHead(all, tail);
    SplitOp(s, width);
  }

  lemma CutOneMore(s: seq<byte>, t: byte, width: nat)
    requires s != [] && width == ValueWidth(s[0]) && 1 + width <= |s| && s[0] < 0x80
    ensures ListCut(s[1 + width..]) ==> ListCut(s)
    ensures forall w: nat :: ValueCut(s[1 + width..], w) ==> ValueCut(s, w)
  {
    var rest := s[1 + width..];
    if ListCut(rest) {
      var ops: seq<RawOp> :| Unended(ops) && rest == PrintOps(ops);
      assert CutBehind(rest, ops, []) by { assert PrintOps(ops) + [] == PrintOps(ops); }
      PrintOneMore(s, width, ops, []);
      var all := [RawOp(s[0], Nat(s[1..1 + width]))] + ops;
      assert PrintOps(all) + [] == PrintOps(all);
    }
    forall w: nat | ValueCut(rest, w)
      ensures ValueCut(s, w)
    {
      var ops: seq<RawOp>, tail: seq<byte> :| CutBehind(rest, ops, tail) && tail != [] && ValueWidth(tail[0]) == w && |tail| < 1 + w;
      PrintOneMore(s, width, ops, tail);
    }
  }

  lemma OneExplained(s: seq<byte>, v6: bool, last: nat, seen: set<byte>)
    requires s != [] && CheckOne(s, v6, last, seen).Stop?
    ensures Explains(CheckOne(s, v6, last, seen).violation, s, v6, last, seen)
  {
    var t := s[0];
    if TypeViolation(t, v6, last, seen).None? && t != 1 && t != 2 {
      OpsCut(s[1..], t);
    }
  }

  /** Where the checker stands after the components it passed. */
  ghost predicate StoppedThere(o: Outcome, s: seq<byte>, v6: bool, last: nat, seen: set<byte>) {
    var n := TotalSize(o.steps);
    && n <= |s|
    && (o.violation.None? ==> n == |s|)
    && (o.violation.Some? ==> n < |s| && Explains(o.violation.value, s[n..], v6, LastOf(o.steps, last), seen + TypesOf(o.steps)))
  }

  lemma StoppedLater(step: Step, o: Outcome, s: seq<byte>, v6: bool, last: nat, seen: set<byte>)
    requires s != [] && step.ctype == s[0] && step.size <= |s|
    requires StoppedThere(o, s[step.size..], v6, s[0], seen + {s[0]})
    ensures StoppedThere(Outcome([step] + o.steps, o.violation), s, v6, last, seen)
  {
    var all, n := [step] + o.steps, TotalSize(o.steps);
    assert all[1..] == o.steps && TotalSize(all) == step.size + n;
    assert TypesOf(all) == {step.ctype} + TypesOf(o.steps) by {
      assert forall x :: x in all <==> x == step || x in o.steps;
    }
    assert seen + TypesOf(all) == seen + {s[0]} + TypesOf(o.steps);
    assert LastOf(all, last) == LastOf(o.steps, s[0]);
    if o.violation.Some? {
      assert s[step.size..][n..] == s[step.size + n..];
    }
  }

  lemma {:induction false} ScanExplained(s: seq<byte>, v6: bool, last: nat, seen: set<byte>)
    ensures StoppedThere(Scan(s, v6, last, seen), s, v6, last, seen)
    decreases |s|
  {
    if s != [] {
      var skip := CheckOne(s, v6, last, seen);
      if skip.Stop? {
        OneExplained(s, v6, last, seen);
        assert seen + TypesOf([]) == seen && s[0..] == s;
      } else {
        RestIsSuffix(s, v6, last, seen);
        ScanExplained(skip.rest, v6, s[0], seen + {s[0]});
        StoppedLater(Step(s[0], |s| - |skip.rest|, skip.offset), Scan(skip.rest, v6, s[0], seen + {s[0]}), s, v6, last, seen);
      }
    }
  }

  lemma {:induction false} OpsSuffix(s: seq<byte>, t: byte)
    requires SkipOps(s, t).Rest?
    ensures SkipOps(s, t).rest == s[|s| - |SkipOps(s, t).rest|..]
    decreases |s|
  {
    var width := OpWidth(s[0]);
    if s[0] < 0x80 {
      OpsSuffix(s[1 + width..], t);
    }
  }

  lemma RestIsSuffix(s: seq<byte>, v6: bool, last: nat, seen: set<byte>)
    requires s != [] && CheckOne(s, v6, last, seen).Rest?
    ensures var rest := CheckOne(s, v6, last, seen).rest; rest == s[|s| - |rest|..]
  {
    if s[0] != 1 && s[0] != 2 {
      OpsSuffix(s[1..], s[0]);
    }
  }

  /** The checker's reason holds: on every string of octets it either covers all of them with components,
      or stops at one for which the reason it gives is true. */
  lemma ViolationExplained(data: seq<byte>, v6: bool)
    ensures StoppedThere(CheckAll(data, v6), data, v6, 0, {})
  {
    ScanExplained(data, v6, 0, {});
  }
}
