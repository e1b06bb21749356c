/** Which rules encode, to how many octets, and which pass validation, told from the fields of the rule
    alone. */
module FlowSpecAcceptance {
  import opened Bytes
  import opened FlowSpec
  import opened FlowSpecReaders
  import opened FlowSpecWire
  import opened FlowSpecMeaning
  import opened FlowSpecDomains

  // ---------------------------------------------------------------- what a rule has to be

  function One(o: Option<u64>): nat { if o.Some? then 1 else 0 }

  /** Exactly one operator. */
  predicate OneOperator(op: NumericOp) {
    One(op.eq) + One(op.lt) + One(op.le) + One(op.gt) + One(op.ge) + (if op.range.Some? then 1 else 0) == 1
  }

  predicate ItemOk(item: NumericMatch) { item.Op? ==> OneOperator(item.op) }

  predicate ListOk(items: seq<NumericMatch>) { forall k :: 0 <= k < |items| ==> ItemOk(items[k]) }

  /** Numbered flags fit two octets for TCP and one for fragments; named ones are known. */
  predicate MaskOk(item: BitmaskMatch, t: nat) {
    match item.flags
    case Num(n) => n <= if t == 9 then 65535 else 255
    case Names(names) => AllKnown(t, names)
  }

  predicate MasksOk(items: seq<BitmaskMatch>, t: nat) { forall k :: 0 <= k < |items| ==> MaskOk(items[k], t) }

  /** The family a rule is of: that of its prefixes, which must agree; without prefixes the one it names,
      IPv4 if it names none. */
  predicate FamilyIs(r: Rule, v6: bool) {
    && (r.dstPrefix.Some? ==> r.dstPrefix.value.v6 == v6)
    && (r.srcPrefix.Some? ==> r.srcPrefix.value.v6 == v6)
    && (r.dstPrefix.None? && r.srcPrefix.None? ==> r.afi == Some(if v6 then "ipv6" else "ipv4") || (r.afi.None? && !v6))
  }

  function ValueSize(v: nat): nat {
    if v < 0x100 then 1 else if v < 0x1_0000 then 2 else if v < 0x1_0000_0000 then 4 else 8
  }

  function OptSize(o: Option<u64>): nat { if o.Some? then 1 + ValueSize(o.value) else 0 }

  function ItemSize(item: NumericMatch): nat {
    match item
    case Value(v) => 1 + ValueSize(v)
    case Op(op) =>
      OptSize(op.eq) + OptSize(op.lt) + OptSize(op.le) + OptSize(op.gt) + OptSize(op.ge)
      + if op.range.Some? then 2 + ValueSize(op.range.value.0) + ValueSize(op.range.value.1) else 0
  }

  function ListSize(items: seq<NumericMatch>): nat {
    if items == [] then 0 else ListSize(items[..|items| - 1]) + ItemSize(items[|items| - 1])
  }

  function MaskListSize(items: seq<BitmaskMatch>): nat {
    if items == [] then 0 else
    MaskListSize(items[..|items| - 1])
    + match items[|items| - 1].flags { case Num(n) => 1 + ValueSize(n) case Names(_) => 2 }
  }

  /** Octets of a numeric, a bitmask and a prefix component, none if the rule does not have it. */
  function NumSize(items: seq<NumericMatch>): nat { if items == [] then 0 else 1 + ListSize(items) }
  function MaskSize(items: seq<BitmaskMatch>): nat { if items == [] then 0 else 1 + MaskListSize(items) }
  function NetSize(p: Option<Prefix>): nat {
    if p.None? then 0 else (if p.value.v6 then 3 else 2) + (p.value.bits + 7) / 8
  }

  function Sum(sizes: seq<nat>): nat {
    if sizes == [] then 0 else Sum(sizes[..|sizes| - 1]) + sizes[|sizes| - 1]
  }

  /** One number per component type, in their order, from the field that is about it. */
  function PerField(r: Rule, net: Option<Prefix> -> nat, num: seq<NumericMatch> -> nat, mask: seq<BitmaskMatch> -> nat): (ns: seq<nat>)
    ensures |ns| == 13
  {
    [ net(r.dstPrefix), net(r.srcPrefix), num(r.protocol), num(r.port), num(r.dstPort), num(r.srcPort),
      num(r.icmpType), num(r.icmpCode), mask(r.tcpFlags), num(r.packetLength), num(r.dscp), mask(r.fragment),
      num(r.flowLabel) ]
  }

  function FieldSizes(r: Rule): (sizes: seq<nat>)
    ensures |sizes| == 13
  {
    PerField(r, NetSize, NumSize, MaskSize)
  }

  /** Octets of all components and the raw ones behind them. */
  function RuleSize(r: Rule): nat {
    Sum(FieldSizes(r)) + if r.rawComponents.Some? then |r.rawComponents.value| else 0
  }

  /** Every list of the rule can be written. */
  predicate FieldsOk(r: Rule) {
    && ListOk(r.protocol) && ListOk(r.port) && ListOk(r.dstPort) && ListOk(r.srcPort) && ListOk(r.icmpType)
    && ListOk(r.icmpCode) && ListOk(r.packetLength) && ListOk(r.dscp) && ListOk(r.flowLabel)
    && MasksOk(r.tcpFlags, 9) && MasksOk(r.fragment, 12)
  }

  /** A rule that encodes, and the family it encodes for. */
  predicate Encodable(r: Rule, v6: bool) {
    FamilyIs(r, v6) && FieldsOk(r) && (r.flowLabel != [] ==> v6) && 1 <= RuleSize(r) <= 4095
  }

  // ---------------------------------------------------------------- lists

  lemma OpElementsCount(op: NumericOp)
    ensures |OpElements(op)| == One(op.eq) + One(op.lt) + One(op.le) + One(op.gt) + One(op.ge)
                                + (if op.range.Some? then 2 else 0)
  {
  }

  lemma ItemOkIff(item: NumericMatch)
    ensures ItemElements(item).Ok? <==> ItemOk(item)
  {
    if item.Op? { OpElementsCount(item.op); }
  }

  lemma {:induction false} ListOkIff(items: seq<NumericMatch>)
    ensures ListElements(items).Ok? <==> ListOk(items)
  {
    if items != [] {
      ListOkIff(items[..|items| - 1]);
      ItemOkIff(items[|items| - 1]);
      assert forall k :: 0 <= k < |items| - 1 ==> items[..|items| - 1][k] == items[k];
    }
  }

  lemma MaskOkIff(item: BitmaskMatch, t: nat)
    requires t == 9 || t == 12
    ensures MaskElement(item, TableFor(t), if t == 9 then 2 else 1).Ok? <==> MaskOk(item, t)
  {
    if item.flags.Names? {
      OrOkIff(item.flags.names, t);
      FlagsFit(item.flags.names, TableFor(t));
    }
  }

  lemma {:induction false} MasksOkIff(items: seq<BitmaskMatch>, t: nat)
    requires t == 9 || t == 12
    ensures MaskElements(items, TableFor(t), if t == 9 then 2 else 1).Ok? <==> MasksOk(items, t)
  {
    if items != [] {
      MasksOkIff(items[..|items| - 1], t);
      MaskOkIff(items[|items| - 1], t);
      assert forall k :: 0 <= k < |items| - 1 ==> items[..|items| - 1][k] == items[k];
    }
  }

  function ElementsSize(els: seq<Element>): nat {
    if els == [] then 0 else ElementsSize(els[..|els| - 1]) + 1 + ValueSize(els[|els| - 1].value)
  }

  lemma {:induction false} ElementsSizeIs(els: seq<Element>, n: nat)
    ensures |ElementsOf(els, n)| == ElementsSize(els)
  {
    if els != [] { ElementsSizeIs(els[..|els| - 1], n); }
  }

  lemma {:induction false} ElementsSizeAppend(a: seq<Element>, b: seq<Element>)
    ensures ElementsSize(a + b) == ElementsSize(a) + ElementsSize(b)
  {
    if b == [] {
      assert a + b == a;
    } else {
      assert (a + b)[..|a + b| - 1] == a + b[..|b| - 1];
      ElementsSizeAppend(a, b[..|b| - 1]);
    }
  }

  lemma OptElementSize(o: Option<u64>, bits: OpBits)
    ensures ElementsSize(OptElement(o, bits)) == OptSize(o)
  {
    if o.Some? { assert OptElement(o, bits)[..0] == []; }
  }

  lemma PairSize(e: Element, f: Element)
    ensures ElementsSize([e, f]) == 2 + ValueSize(e.value) + ValueSize(f.value)
  {
    assert [e, f][..1] == [e] && [e][..0] == [];
    assert ElementsSize([e]) == 1 + ValueSize(e.value);
  }

  lemma OneOpSize(op: NumericOp)
    requires OneOperator(op)
    ensures ElementsSize(OpElements(op)) == ItemSize(Op(op))
  {
    OptElementSize(op.eq, OP_EQ);
    OptElementSize(op.lt, OP_LT);
    OptElementSize(op.le, OP_LT + OP_EQ);
    OptElementSize(op.gt, OP_GT);
    OptElementSize(op.ge, OP_GT + OP_EQ);
    if op.range.Some? {
      PairSize(RangeElements(op.range)[0], RangeElements(op.range)[1]);
      assert OpElements(op) == RangeElements(op.range);
    } else {
      assert OpElements(op) == OptElement(op.eq, OP_EQ) || OpElements(op) == OptElement(op.lt, OP_LT)
        || OpElements(op) == OptElement(op.le, OP_LT + OP_EQ) || OpElements(op) == OptElement(op.gt, OP_GT)
        || OpElements(op) == OptElement(op.ge, OP_GT + OP_EQ);
    }
  }

  lemma ItemSizeIs(item: NumericMatch)
    requires ItemElements(item).Ok?
    ensures ElementsSize(ItemElements(item).value) == ItemSize(item)
  {
    match item
    case Value(v) => OptElementSize(Some(v), OP_EQ);
    case Op(op) =>
      ItemOkIff(item);
      OneOpSize(op);
  }

  lemma {:induction false} ListSizeIs(items: seq<NumericMatch>)
    requires ListElements(items).Ok?
    ensures ElementsSize(ListElements(items).value) == ListSize(items)
  {
    if items != [] {
      ListSizeIs(items[..|items| - 1]);
      ItemSizeIs(items[|items| - 1]);
      ElementsSizeAppend(ListElements(items[..|items| - 1]).value, ItemElements(items[|items| - 1]).value);
    }
  }

  lemma MaskElementSize(item: BitmaskMatch, table: FlagTable, maxLen: nat)
    requires MaskElement(item, table, maxLen).Ok?
    ensures 1 + ValueSize(MaskElement(item, table, maxLen).value.value) ==
            match item.flags { case Num(n) => 1 + ValueSize(n) case Names(_) => 2 }
  {
    if item.flags.Names? { FlagsFit(item.flags.names, table); }
  }

  lemma {:induction false} MaskListSizeIs(items: seq<BitmaskMatch>, table: FlagTable, maxLen: nat)
    requires MaskElements(items, table, maxLen).Ok?
    ensures ElementsSize(MaskElements(items, table, maxLen).value) == MaskListSize(items)
  {
    if items != [] {
      var els := MaskElements(items, table, maxLen).value;
      MaskListSizeIs(items[..|items| - 1], table, maxLen);
      MaskElementSize(items[|items| - 1], table, maxLen);
      assert els[..|els| - 1] == MaskElements(items[..|items| - 1], table, maxLen).value;
    }
  }

  // ---------------------------------------------------------------- slots

  /** Whether a clause can be written for a family, and to how many octets. */
  predicate ClauseOk(c: Clause, k: nat, v6: bool) {
    match c
    case NetClause(net) => net.Some? ==> net.value.v6 == v6
    case NumClause(items) => ListOk(items) && (k == 12 && items != [] ==> v6)
    case MaskClause(masks, _, _) => MasksOk(masks, k + 1)
  }

  function ClauseSize(c: Clause): nat {
    match c
    case NetClause(net) => NetSize(net)
    case NumClause(items) => NumSize(items)
    case MaskClause(masks, _, _) => MaskSize(masks)
  }

  lemma OpsSlotSize(t: byte, els: seq<Element>)
    ensures |Serialize([OpsComp(t, els)])| == 1 + ElementsSize(els)
  {
    SerializeOne(OpsComp(t, els));
    ElementsSizeIs(els, |els|);
  }

  lemma NumSlotIs(t: byte, items: seq<NumericMatch>)
    ensures NumSlot(t, items).Ok? <==> ListOk(items)
    ensures NumSlot(t, items).Ok? ==> |Serialize(NumSlot(t, items).value)| == NumSize(items)
  {
    ListOkIff(items);
    if items != [] && ListOk(items) {
      ListSizeIs(items);
      OpsSlotSize(t, ListElements(items).value);
    }
  }

  lemma MaskSlotIs(t: byte, items: seq<BitmaskMatch>)
    requires t == 9 || t == 12
    ensures var slot := MaskSlot(t, items, TableFor(t), if t == 9 then 2 else 1);
            (slot.Ok? <==> MasksOk(items, t)) && (slot.Ok? ==> |Serialize(slot.value)| == MaskSize(items))
  {
    var maxLen := if t == 9 then 2 else 1;
    MasksOkIff(items, t);
    if items != [] && MasksOk(items, t) {
      MaskListSizeIs(items, TableFor(t), maxLen);
      OpsSlotSize(t, MaskElements(items, TableFor(t), maxLen).value);
    }
  }

  lemma NetSlotIs(t: byte, net: Option<Prefix>, v6: bool)
    ensures NetSlot(t, net, v6).Ok? <==> (net.Some? ==> net.value.v6 == v6)
    ensures NetSlot(t, net, v6).Ok? ==> |Serialize(NetSlot(t, net, v6).value)| == NetSize(net)
  {
    if net.Some? { SerializeOne(NetComp(t, net.value)); }
  }

  lemma SlotIs(c: Clause, k: nat, v6: bool)
    requires k < 13 && (c.NetClause? <==> k < 2) && (c.MaskClause? <==> MaskIndex(k))
    requires c.MaskClause? ==> c.table == TableFor(k + 1) && c.maxLen == if k == 8 then 2 else 1
    ensures Slot(k + 1, c, v6).Ok? <==> ClauseOk(c, k, v6)
    ensures Slot(k + 1, c, v6).Ok? ==> |Serialize(Slot(k + 1, c, v6).value)| == ClauseSize(c)
  {
    match c
    case NetClause(net) => NetSlotIs(k + 1, net, v6);
    case NumClause(items) => NumSlotIs(k + 1, items);
    case MaskClause(masks, _, _) => MaskSlotIs(k + 1, masks);
  }

  predicate SizedSlot(slot: Result<seq<Comp>>, size: nat) {
    slot.Ok? ==> |Serialize(slot.value)| == size
  }

  lemma MergedSize(init: seq<Comp>, last: seq<Comp>, size: nat, more: nat)
    requires |Serialize(init)| == size && |Serialize(last)| == more
    ensures |Serialize(init + last)| == size + more
  {
    SerializeAppend(init, last);
  }

  lemma {:induction false} MergeOkIff(slots: seq<Result<seq<Comp>>>)
    ensures Merge(slots).Ok? <==> forall k :: 0 <= k < |slots| ==> slots[k].Ok?
  {
    if Merge(slots).Ok? {
      forall k | 0 <= k < |slots| ensures slots[k].Ok? { MergedSlotOk(slots, k); }
    } else if slots != [] {
      MergeOkIff(slots[..|slots| - 1]);
    }
  }

  lemma {:induction false} MergeSize(slots: seq<Result<seq<Comp>>>, sizes: seq<nat>)
    requires |slots| == |sizes| && forall k :: 0 <= k < |slots| ==> SizedSlot(slots[k], sizes[k])
    ensures SizedSlot(Merge(slots), Sum(sizes))
  {
    if slots != [] && Merge(slots).Ok? {
      var n := |slots| - 1;
      MergeSize(slots[..n], sizes[..n]);
      assert SizedSlot(slots[n], sizes[n]);
      MergedSize(Merge(slots[..n]).value, slots[n].value, Sum(sizes[..n]), sizes[n]);
    }
  }

  // ---------------------------------------------------------------- the whole rule

  lemma PerClause(r: Rule, k: nat, net: Option<Prefix> -> nat, num: seq<NumericMatch> -> nat, mask: seq<BitmaskMatch> -> nat)
    requires k < 13
    ensures PerField(r, net, num, mask)[k] ==
            match Clauses(r)[k] case NetClause(p) => net(p) case NumClause(items) => num(items) case MaskClause(masks, _, _) => mask(masks)
  {
  }

  lemma SizesAre(r: Rule, k: nat)
    requires k < 13
    ensures FieldSizes(r)[k] == ClauseSize(Clauses(r)[k])
  {
    PerClause(r, k, NetSize, NumSize, MaskSize);
  }

  predicate ClauseOkAt(r: Rule, v6: bool, k: nat)
    requires k < 13
  {
    ClauseOk(Clauses(r)[k], k, v6)
  }

  lemma ClausesOkIff(r: Rule, v6: bool)
    ensures (forall k :: 0 <= k < 13 ==> ClauseOkAt(r, v6, k)) <==>
            && (r.dstPrefix.Some? ==> r.dstPrefix.value.v6 == v6)
            && (r.srcPrefix.Some? ==> r.srcPrefix.value.v6 == v6)
            && FieldsOk(r) && (r.flowLabel != [] ==> v6)
  {
    if forall k :: 0 <= k < 13 ==> ClauseOkAt(r, v6, k) {
      assert ClauseOkAt(r, v6, 0) && ClauseOkAt(r, v6, 1) && ClauseOkAt(r, v6, 2) && ClauseOkAt(r, v6, 3);
      assert ClauseOkAt(r, v6, 4) && ClauseOkAt(r, v6, 5) && ClauseOkAt(r, v6, 6) && ClauseOkAt(r, v6, 7);
      assert ClauseOkAt(r, v6, 8) && ClauseOkAt(r, v6, 9) && ClauseOkAt(r, v6, 10) && ClauseOkAt(r, v6, 11);
      assert ClauseOkAt(r, v6, 12);
    }
  }

  lemma SlotsAre(r: Rule, v6: bool, k: nat)
    requires k < 13
    ensures Slots(r, v6)[k].Ok? <==> ClauseOkAt(r, v6, k)
    ensures SizedSlot(Slots(r, v6)[k], FieldSizes(r)[k])
  {
    ClauseShape(r, k);
    MaskLimitOf(r, k);
    SizesAre(r, k);
    SlotIs(Clauses(r)[k], k, v6);
  }

  lemma MaskLimitOf(r: Rule, k: nat)
    requires k < 13
    ensures MaskIndex(k) ==> Clauses(r)[k].maxLen == if k == 8 then 2 else 1
  {
  }

  lemma MergedIs(r: Rule, v6: bool)
    ensures Merge(Slots(r, v6)).Ok? <==> forall k :: 0 <= k < 13 ==> ClauseOkAt(r, v6, k)
    ensures Merge(Slots(r, v6)).Ok? ==> |Serialize(Merge(Slots(r, v6)).value)| == Sum(FieldSizes(r))
  {
    var slots := Slots(r, v6);
    forall k | 0 <= k < 13
      ensures slots[k].Ok? <==> ClauseOkAt(r, v6, k)
      ensures SizedSlot(slots[k], FieldSizes(r)[k])
    {
      SlotsAre(r, v6, k);
    }
    MergeOkIff(slots);
    MergeSize(slots, FieldSizes(r));
  }

  lemma FamilyOf(r: Rule, v6: bool)
    ensures FamilyIs(r, v6) ==> Family(r) == Ok(v6)
    ensures Family(r) == Ok(v6) ==>
              (FamilyIs(r, v6) <==> (r.dstPrefix.Some? ==> r.dstPrefix.value.v6 == v6)
                                    && (r.srcPrefix.Some? ==> r.srcPrefix.value.v6 == v6))
  {
  }

  lemma FrameIs(c: seq<byte>)
    ensures Frame(c).Ok? <==> |c| <= 4095
    ensures Frame(c).Ok? ==> Framing(Frame(c).value, |c|)
  {
    if 240 <= |c| <= 4095 {
      var s := Frame(c).value;
      assert s[..2][..1] == [s[0]] && [s[0]][..0] == [];
      assert Nat([s[0]]) == s[0];
    }
  }

  /** The length in front: one octet below 240, else two that hold it under a nibble of ones. */
  predicate Framing(nlri: seq<byte>, size: nat) {
    if size < 240 then |nlri| == 1 + size && nlri[0] == size
    else |nlri| == 2 + size && Nat(nlri[..2]) == 0xF000 + size
  }

  lemma CompiledIff(r: Rule, v6: bool)
    ensures Family(r) == Ok(v6) && Compile(r).Ok? <==> FamilyIs(r, v6) && FieldsOk(r) && (r.flowLabel != [] ==> v6)
    ensures Compile(r).Ok? ==> |Serialize(Compile(r).value) + r.Raw()| == RuleSize(r)
  {
    FamilyOf(r, v6);
    MergedIs(r, v6);
    ClausesOkIff(r, v6);
    if Compile(r).Ok? { MergedIs(r, Family(r).value); }
  }

  /** The user's raw octets end the NLRI, as they are. */
  predicate RawLast(nlri: seq<byte>, r: Rule) {
    r.rawComponents.Some? ==>
      var n := |r.rawComponents.value|;
      |nlri| >= n && nlri[|nlri| - n..] == r.rawComponents.value
  }

  lemma FrameKeepsEnd(c: seq<byte>, raw: seq<byte>)
    requires Frame(c + raw).Ok?
    ensures var nlri := Frame(c + raw).value; |nlri| >= |raw| && nlri[|nlri| - |raw|..] == raw
  {
  }

  /** A rule encodes for a family exactly when its fields make it encodable for that family: prefixes and
      family agree, every item has one operator, every flag is known or fits, a flow label is for IPv6
      only, and there are between 1 and 4095 octets, counted from the fields. The result then is the
      length in front of that many octets, of which the raw ones are the last. */
  lemma EncodedIff(r: Rule, v6: bool)
    ensures Encode(r).Ok? && Encode(r).value.1 == v6 <==> Encodable(r, v6)
    ensures Encode(r).Ok? ==> Framing(Encode(r).value.0, RuleSize(r)) && RawLast(Encode(r).value.0, r)
  {
    CompiledIff(r, v6);
    if Compile(r).Ok? {
      FrameIs(Serialize(Compile(r).value) + r.Raw());
      if Encode(r).Ok? { FrameKeepsEnd(Serialize(Compile(r).value), r.Raw()); }
    }
  }

  /** A rule that encodes is of the family the checker takes it to be of. */
  lemma EncodedFamily(r: Rule)
    ensures Encode(r).Ok? <==> Encodable(r, FlowV6(r))
    ensures Encode(r).Ok? ==> Encode(r).value.1 == FlowV6(r)
  {
    EncodedIff(r, FlowV6(r));
    if Encode(r).Ok? { EncodedIff(r, Encode(r).value.1); }
  }

  // ---------------------------------------------------------------- validation

  predicate OptIn(o: Option<u64>, max: nat) { o.Some? ==> o.value <= max }

  /** One operator, none of whose values exceeds the maximum. */
  predicate ItemIn(item: NumericMatch, max: nat) {
    match item
    case Value(v) => v <= max
    case Op(op) =>
      && OneOperator(op) && OptIn(op.eq, max) && OptIn(op.lt, max) && OptIn(op.le, max)
      && OptIn(op.gt, max) && OptIn(op.ge, max)
      && (op.range.Some? ==> op.range.value.0 <= max && op.range.value.1 <= max)
  }

  predicate ListIn(items: seq<NumericMatch>, max: nat) { forall k :: 0 <= k < |items| ==> ItemIn(items[k], max) }

  /** No bit of a prefix beyond its length is set: the address is a multiple of the network's size. */
  predicate NetClean(p: Option<Prefix>) {
    p.Some? ==> Nat(p.value.addr) % Pow2(8 * |p.value.addr| - p.value.bits) == 0
  }

  /** Every field within its domain. */
  predicate RuleWithin(r: Rule) {
    && NetClean(r.dstPrefix) && NetClean(r.srcPrefix)
    && ListIn(r.protocol, 255) && ListIn(r.icmpType, 255) && ListIn(r.icmpCode, 255)
    && ListIn(r.port, 65535) && ListIn(r.dstPort, 65535) && ListIn(r.srcPort, 65535) && ListIn(r.packetLength, 65535)
    && ListIn(r.dscp, 63) && ListIn(r.flowLabel, 1048575)
  }

  lemma OneOpWithin(op: NumericOp, max: nat)
    requires OneOperator(op)
    ensures ElementsWithin(OpElements(op), max) <==> ItemIn(Op(op), max)
  {
    var els := OpElements(op);
    if op.range.Some? {
      assert els == RangeElements(op.range);
      assert els[0] in els && els[1] in els;
    } else {
      var v := if op.eq.Some? then op.eq.value else if op.lt.Some? then op.lt.value else if op.le.Some? then op.le.value
               else if op.gt.Some? then op.gt.value else op.ge.value;
      OneOperator1(op);
      assert els[0] in els && els[0].value == v;
    }
  }

  lemma OneOperator1(op: NumericOp)
    requires OneOperator(op) && op.range.None?
    ensures |OpElements(op)| == 1
  {
    OpElementsCount(op);
  }

  lemma ItemWithinIff(item: NumericMatch, max: nat)
    ensures ItemElements(item).Ok? && ElementsWithin(ItemElements(item).value, max) <==> ItemIn(item, max)
  {
    ItemOkIff(item);
    match item
    case Value(v) => assert Element(OP_EQ, v) in ItemElements(item).value;
    case Op(op) => if OneOperator(op) { OneOpWithin(op, max); }
  }

  lemma ListWithinIff(items: seq<NumericMatch>, max: nat)
    ensures ItemsWithin(items, max) <==> ListIn(items, max)
  {
    forall k | 0 <= k < |items|
      ensures ItemElements(items[k]).Ok? && ElementsWithin(ItemElements(items[k]).value, max) <==> ItemIn(items[k], max)
    {
      ItemWithinIff(items[k], max);
    }
  }

  lemma NetCleanIff(t: byte, p: Option<Prefix>)
    ensures ClauseWithin(t, NetClause(p)) <==> NetClean(p)
  {
    if p.Some? { HostBitsArithmetic(p.value.addr, p.value.bits); }
  }

  predicate ClauseWithinAt(r: Rule, k: nat)
    requires k < 13
  {
    ClauseWithin(k + 1, Clauses(r)[k])
  }

  lemma NumWithinAt(r: Rule, k: nat, items: seq<NumericMatch>, max: nat)
    requires k < 13 && Clauses(r)[k] == NumClause(items) && Domain(k + 1) == max
    ensures ClauseWithinAt(r, k) <==> ListIn(items, max)
  {
    ListWithinIff(items, max);
  }

  lemma OctetFieldsWithin(r: Rule)
    ensures ClauseWithinAt(r, 2) <==> ListIn(r.protocol, 255)
    ensures ClauseWithinAt(r, 6) <==> ListIn(r.icmpType, 255)
    ensures ClauseWithinAt(r, 7) <==> ListIn(r.icmpCode, 255)
  {
    NumWithinAt(r, 2, r.protocol, 255);
    NumWithinAt(r, 6, r.icmpType, 255);
    NumWithinAt(r, 7, r.icmpCode, 255);
  }

  lemma PortFieldsWithin(r: Rule)
    ensures ClauseWithinAt(r, 3) <==> ListIn(r.port, 65535)
    ensures ClauseWithinAt(r, 4) <==> ListIn(r.dstPort, 65535)
    ensures ClauseWithinAt(r, 5) <==> ListIn(r.srcPort, 65535)
  {
    NumWithinAt(r, 3, r.port, 65535);
    NumWithinAt(r, 4, r.dstPort, 65535);
    NumWithinAt(r, 5, r.srcPort, 65535);
  }

  lemma LastFieldsWithin(r: Rule)
    ensures ClauseWithinAt(r, 9) <==> ListIn(r.packetLength, 65535)
    ensures ClauseWithinAt(r, 10) <==> ListIn(r.dscp, 63)
    ensures ClauseWithinAt(r, 12) <==> ListIn(r.flowLabel, 1048575)
  {
    NumWithinAt(r, 9, r.packetLength, 65535);
    NumWithinAt(r, 10, r.dscp, 63);
    NumWithinAt(r, 12, r.flowLabel, 1048575);
  }

  lemma NetFieldsWithin(r: Rule)
    ensures ClauseWithinAt(r, 0) <==> NetClean(r.dstPrefix)
    ensures ClauseWithinAt(r, 1) <==> NetClean(r.srcPrefix)
    ensures ClauseWithinAt(r, 8) && ClauseWithinAt(r, 11)
  {
    NetCleanIff(1, r.dstPrefix);
    NetCleanIff(2, r.srcPrefix);
  }

  lemma WithinAll(r: Rule)
    ensures ValidateDomains(r) <==>
            && ClauseWithinAt(r, 0) && ClauseWithinAt(r, 1) && ClauseWithinAt(r, 2) && ClauseWithinAt(r, 3)
            && ClauseWithinAt(r, 4) && ClauseWithinAt(r, 5) && ClauseWithinAt(r, 6) && ClauseWithinAt(r, 7)
            && ClauseWithinAt(r, 8) && ClauseWithinAt(r, 9) && ClauseWithinAt(r, 10) && ClauseWithinAt(r, 11)
            && ClauseWithinAt(r, 12)
  {
    if ValidateDomains(r) {
      forall k | 0 <= k < 13
        ensures ClauseWithinAt(r, k)
      {
        assert ClauseWithin(k + 1, Clauses(r)[k]);
      }
    } else {
      var k :| 0 <= k < 13 && !ClauseWithin(k + 1, Clauses(r)[k]);
      assert !ClauseWithinAt(r, k);
    }
  }

  /** Validation passes exactly the rules whose fields are within their domains. */
  lemma ValidatedIff(r: Rule)
    ensures ValidateDomains(r) <==> RuleWithin(r)
  {
    NetFieldsWithin(r);
    OctetFieldsWithin(r);
    PortFieldsWithin(r);
    LastFieldsWithin(r);
    WithinAll(r);
  }
}
