/** What the readers make of the bytes the compiler emits. */
module FlowSpecWire {
  import opened Bytes
  import opened FlowSpec
  import opened FlowSpecReaders

  // ---------------------------------------------------------------- shape of compiled rules

  predicate CompOk(c: Comp, v6: bool) {
    match c
    case NetComp(t, p) => (t == T_DST_PREFIX || t == T_SRC_PREFIX) && p.v6 == v6
    case OpsComp(t, els) => T_PROTOCOL <= t <= T_FLOW_LABEL && els != [] && (t == T_FLOW_LABEL ==> v6)
  }

  /** Component types strictly ascend from above `last`, and each component suits the family. */
  predicate Ascending(comps: seq<Comp>, last: nat, v6: bool) {
    comps == [] || (comps[0].ctype > last && CompOk(comps[0], v6) && Ascending(comps[1..], comps[0].ctype, v6))
  }

  function LastType(comps: seq<Comp>, last: nat): nat {
    if comps == [] then last else comps[|comps| - 1].ctype
  }

  lemma {:induction false} AscendingSnoc(comps: seq<Comp>, c: Comp, last: nat, v6: bool)
    requires Ascending(comps, last, v6) && CompOk(c, v6) && c.ctype > LastType(comps, last)
    ensures Ascending(comps + [c], last, v6)
  {
    var all := comps + [c];
    if comps == [] {
      assert all[1..] == [];
    } else {
      assert all[0] == comps[0] && all[1..] == comps[1..] + [c];
      AscendingSnoc(comps[1..], c, comps[0].ctype, v6);
    }
  }

  predicate SlotOk(slot: Result<seq<Comp>>, k: nat, v6: bool) {
    slot.Ok? ==> |slot.value| <= 1 && forall c <- slot.value :: c.ctype == k + 1 && CompOk(c, v6)
  }

  lemma {:induction false} MergeAscending(slots: seq<Result<seq<Comp>>>, v6: bool)
    requires forall k :: 0 <= k < |slots| ==> SlotOk(slots[k], k, v6)
    ensures Merge(slots).Ok? ==>
      var comps := Merge(slots).value; Ascending(comps, 0, v6) && LastType(comps, 0) <= |slots|
  {
    if slots != [] {
      var n := |slots| - 1;
      MergeAscending(slots[..n], v6);
      if Merge(slots).Ok? {
        var init, last := Merge(slots[..n]).value, slots[n].value;
        assert SlotOk(slots[n], n, v6);
        if last == [] {
          assert init + last == init;
        } else {
          assert last == [last[0]];
          AscendingSnoc(init, last[0], 0, v6);
        }
      }
    }
  }

  lemma NumSlotOk(t: byte, items: seq<NumericMatch>, v6: bool)
    requires T_PROTOCOL <= t <= T_DSCP || (t == T_FLOW_LABEL && v6)
    ensures SlotOk(NumSlot(t, items), t - 1, v6)
  {
    if items != [] && ListElements(items).Ok? {
      ListElementsNonEmpty(items);
    }
  }

  lemma ClauseSlotOk(c: Clause, k: nat, v6: bool)
    requires k < 13 && (c.NetClause? <==> k < 2) && (c.MaskClause? <==> MaskIndex(k))
    ensures SlotOk(Slot(k + 1, c, v6), k, v6)
  {
    if c.NumClause? {
      if k + 1 < T_FLOW_LABEL || v6 {
        NumSlotOk(k + 1, c.items, v6);
      }
    }
  }

  lemma CompileAscending(r: Rule)
    requires Compile(r).Ok?
    ensures Ascending(Compile(r).value, 0, Family(r).value)
  {
    var v6 := Family(r).value;
    forall k | 0 <= k < 13
      ensures SlotOk(Slots(r, v6)[k], k, v6)
    {
      ClauseShape(r, k);
      ClauseSlotOk(Clauses(r)[k], k, v6);
    }
    MergeAscending(Slots(r, v6), v6);
  }

  // ---------------------------------------------------------------- operator lists

  /** The operators of a list as they stand on the wire. */
  function RawOpsOf(els: seq<Element>): (ops: seq<RawOp>)
    ensures |ops| == |els|
  {
    if els == [] then [] else
    [RawOp(OpOctet(|els| == 1, els[0]), els[0].value)] + RawOpsOf(els[1..])
  }

  lemma {:induction false} ElementsHead(els: seq<Element>, n: nat)
    requires els != [] && |els| <= n
    ensures ElementsOf(els, n) == ElementBytes(n == 1, els[0]) + ElementsOf(els[1..], n - 1)
  {
    var k := |els| - 1;
    if k == 0 {
      assert els[..0] == [] && els[1..] == [];
      assert ElementsOf(els, n) == [] + ElementBytes(n == 1, els[0]);
      assert ElementsOf(els, n) == ElementBytes(n == 1, els[0]) + [];
    } else {
      ElementsHead(els[..k], n);
      assert els[..k][1..] == els[1..][..k - 1] && els[1..][k - 1] == els[k];
      Assoc(ElementBytes(n == 1, els[0]), ElementsOf(els[1..][..k - 1], n - 1), ElementBytes(|els| == n, els[k]));
    }
  }

  lemma DisjointFields(end: nat, bits: nat, code: nat)
    requires end == 0 || end == 0x80
    requires bits < 0x10 || 0x40 <= bits < 0x50
    requires code < 4
    ensures var op := end + bits + 0x10 * code;
            op / 0x10 % 4 == code && op % 0x10 == bits % 0x10 && (op / 0x40 % 2 == 1 <==> bits >= 0x40)
  {
    if code == 0 {} else if code == 1 {} else if code == 2 {} else {}
  }

  lemma OctetFields(end: bool, e: Element)
    ensures var op := OpOctet(end, e);
            (op >= 0x80 <==> end) && OpWidth(op) == WidthOf(LenCode(e.value))
            && (op / 0x40 % 2 == 1 <==> e.bits >= 0x40) && op % 0x10 == e.bits % 0x10
  {
    DisjointFields(if end then 0x80 else 0, e.bits, LenCode(e.value));
  }

  lemma OneElement(end: bool, e: Element, tail: seq<byte>, t: byte)
    ensures var s, head := ElementBytes(end, e) + tail, RawOp(OpOctet(end, e), e.value);
            && ReadOps(s) == (if end then Ops([head], tail) else AfterOps([head], ReadOps(tail)))
            && SkipOps(s, t) == (if end then Rest(0, tail) else SkipOps(tail, t))
  {
    var s := ElementBytes(end, e) + tail;
    OctetFields(end, e);
    var next := 1 + OpWidth(s[0]);
    assert s[1..next] == ValueBytes(e.value) && s[next..] == tail;
  }

  lemma {:induction false} ReadElements(els: seq<Element>, rest: seq<byte>, t: byte)
    requires els != []
    ensures ReadOps(ElementsOf(els, |els|) + rest) == Ops(RawOpsOf(els), rest)
    ensures SkipOps(ElementsOf(els, |els|) + rest, t) == Rest(0, rest)
  {
    var e, end := els[0], |els| == 1;
    var tail := ElementsOf(els[1..], |els| - 1) + rest;
    ElementsHead(els, |els|);
    Assoc(ElementBytes(end, e), ElementsOf(els[1..], |els| - 1), rest);
    OneElement(end, e, tail, t);
    if end {
      assert els[1..] == [] && tail == rest;
      assert RawOpsOf(els) == [RawOp(OpOctet(true, e), e.value)];
    } else {
      ReadElements(els[1..], rest, t);
    }
  }

  // ---------------------------------------------------------------- one component

  function RawOf(c: Comp): RawComp {
    match c
    case NetComp(t, p) =>
      RawNet(t, |CompBytes(c)|, p.bits, PadTo(Width(p.v6), p.addr[..OctetsFor(p.bits)]))
    case OpsComp(t, els) => RawList(t, |CompBytes(c)|, RawOpsOf(els))
  }

  function RawsOf(comps: seq<Comp>): (raws: seq<RawComp>)
    ensures |raws| == |comps|
    ensures forall i :: 0 <= i < |comps| ==> raws[i] == RawOf(comps[i])
  {
    seq(|comps|, i requires 0 <= i < |comps| => RawOf(comps[i]))
  }

  lemma ReadNetBytes(p: Prefix, rest: seq<byte>)
    ensures ReadNet(NetBytes(p) + rest, p.v6) ==
            Net(p.bits, PadTo(Width(p.v6), p.addr[..OctetsFor(p.bits)]), rest)
  {
    var pattern, at := p.addr[..OctetsFor(p.bits)], if p.v6 then 2 else 1;
    var s := NetBytes(p) + rest;
    assert |NetBytes(p)| == at + |pattern|;
    assert s[at..|NetBytes(p)|] == pattern && s[|NetBytes(p)|..] == rest;
  }

  lemma SkipNetBytes(p: Prefix, rest: seq<byte>, t: byte)
    ensures SkipNet(NetBytes(p) + rest, t, p.v6) == Rest(0, rest)
  {
    var s := NetBytes(p) + rest;
    var at := if p.v6 then 2 else 1;
    assert |NetBytes(p)| == at + OctetsFor(p.bits);
    assert s[|NetBytes(p)|..] == rest;
  }

  lemma ReadNetComp(t: byte, p: Prefix, rest: seq<byte>, last: nat)
    requires CompOk(NetComp(t, p), p.v6) && t > last
    ensures CompBytes(NetComp(t, p)) + rest != []
    ensures ReadOne(CompBytes(NetComp(t, p)) + rest, p.v6, last) == One(RawOf(NetComp(t, p)), rest)
  {
    var s := CompBytes(NetComp(t, p)) + rest;
    Assoc([t], NetBytes(p), rest);
    assert s[1..] == NetBytes(p) + rest;
    ReadNetBytes(p, rest);
  }

  lemma ReadListOne(s: seq<byte>, ops: seq<RawOp>, rest: seq<byte>, v6: bool, last: nat)
    requires s != [] && s[0] > last && s[0] >= T_PROTOCOL
    requires ReadOps(s[1..]) == Ops(ops, rest)
    ensures ReadOne(s, v6, last) == One(RawList(s[0], |s| - |rest|, ops), rest)
  {
  }

  lemma ReadListComp(t: byte, els: seq<Element>, rest: seq<byte>, v6: bool, last: nat)
    requires CompOk(OpsComp(t, els), v6) && t > last
    ensures CompBytes(OpsComp(t, els)) + rest != []
    ensures ReadOne(CompBytes(OpsComp(t, els)) + rest, v6, last) == One(RawOf(OpsComp(t, els)), rest)
  {
    var list := ElementsOf(els, |els|);
    var s := [t] + list + rest;
    Assoc([t], list, rest);
    ReadElements(els, rest, t);
    assert s[1..] == list + rest;
    ReadListOne(s, RawOpsOf(els), rest, v6, last);
  }

  lemma ReadComp(c: Comp, rest: seq<byte>, v6: bool, last: nat)
    requires CompOk(c, v6) && c.ctype > last
    ensures CompBytes(c) + rest != []
    ensures ReadOne(CompBytes(c) + rest, v6, last) == One(RawOf(c), rest)
  {
    match c
    case NetComp(t, p) => ReadNetComp(t, p, rest, last);
    case OpsComp(t, els) => ReadListComp(t, els, rest, v6, last);
  }

  lemma CheckPassed(s: seq<byte>, rest: seq<byte>, v6: bool, last: nat, seen: set<byte>)
    requires s != [] && TypeViolation(s[0], v6, last, seen).None? && SkipBody(s[1..], s[0], v6) == Rest(0, rest)
    ensures CheckOne(s, v6, last, seen) == Rest(0, rest)
  {
  }

  lemma BodySkipped(c: Comp, rest: seq<byte>, v6: bool)
    requires CompOk(c, v6)
    ensures SkipBody(CompBody(c) + rest, c.ctype, v6) == Rest(0, rest)
  {
    match c
    case NetComp(t, p) => SkipNetBytes(p, rest, t);
    case OpsComp(t, els) => ReadElements(els, rest, t);
  }

  lemma CheckComp(c: Comp, rest: seq<byte>, v6: bool, last: nat, seen: set<byte>)
    requires CompOk(c, v6) && c.ctype > last && forall t <- seen :: t <= last
    ensures CompBytes(c) + rest != []
    ensures CheckOne(CompBytes(c) + rest, v6, last, seen) == Rest(0, rest)
  {
    var s := CompBytes(c) + rest;
    Assoc([c.ctype], CompBody(c), rest);
    assert s[1..] == CompBody(c) + rest;
    BodySkipped(c, rest, v6);
    CheckPassed(s, rest, v6, last, seen);
  }

  // ---------------------------------------------------------------- whole component lists

  lemma ReadCompsStep(s: seq<byte>, c: RawComp, rest: seq<byte>, v6: bool, last: nat)
    requires s != [] && ReadOne(s, v6, last) == One(c, rest)
    ensures ReadComps(s, v6, last) == Cons(c, ReadComps(rest, v6, c.ctype))
  {
  }

  lemma ReadOneMore(c: Comp, tail: seq<byte>, raws: seq<RawComp>, v6: bool, last: nat)
    requires CompOk(c, v6) && c.ctype > last && ReadComps(tail, v6, c.ctype) == Ok(raws)
    ensures ReadComps(CompBytes(c) + tail, v6, last) == Ok([RawOf(c)] + raws)
  {
    ReadComp(c, tail, v6, last);
    ReadCompsStep(CompBytes(c) + tail, RawOf(c), tail, v6, last);
  }

  lemma RawsHead(comps: seq<Comp>)
    requires comps != []
    ensures RawsOf(comps) == [RawOf(comps[0])] + RawsOf(comps[1..])
  {
  }

  lemma {:induction false} ReadSerialized(comps: seq<Comp>, v6: bool, last: nat)
    requires Ascending(comps, last, v6)
    ensures ReadComps(Serialize(comps), v6, last) == Ok(RawsOf(comps))
  {
    if comps != [] {
      ReadSerialized(comps[1..], v6, comps[0].ctype);
      ReadOneMore(comps[0], Serialize(comps[1..]), RawsOf(comps[1..]), v6, last);
      RawsHead(comps);
    }
  }

  lemma UnframeFrame(c: seq<byte>)
    requires Frame(c).Ok?
    ensures Unframe(Frame(c).value) == Ok(c)
  {
    var data := Frame(c).value;
    if |c| < 240 {
      assert data[1..] == c;
    } else {
      assert data[2..] == c;
      var high: nat := data[0] % 0x10;
      assert high == |c| / 0x100;
    }
  }

  /** Everything the encoder emits for a rule without raw bytes is read back component by component. */
  lemma ReadEncoded(r: Rule)
    requires Encode(r).Ok? && r.Raw() == []
    ensures Compile(r).Ok? && Encode(r).value.1 == Family(r).value
    ensures DecodeRaw(Encode(r).value.0, Encode(r).value.1) == Ok(RawsOf(Compile(r).value))
  {
    var comps, v6 := Compile(r).value, Family(r).value;
    var c := Serialize(comps);
    assert c + r.Raw() == c;
    UnframeFrame(c);
    CompileAscending(r);
    ReadSerialized(comps, v6, 0);
  }
}
