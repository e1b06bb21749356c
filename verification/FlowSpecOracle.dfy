/** The expectation the route checker derives from a rule on its own, and when its comparison with
    the decoded bytes passes. */
module FlowSpecOracle {
  import opened Bytes
  import opened FlowSpec
  import opened FlowSpecReaders
  import opened FlowSpecWire
  import opened FlowSpecMeaning
  import FlowSpecAcceptance

  // ---------------------------------------------------------------- the expectation

  function OptTerm(o: Option<u64>, cmp: nat): seq<NumericTerm> {
    if o.Some? then [NumericTerm(false, cmp, o.value)] else []
  }

  function OpTerms(op: NumericOp): seq<NumericTerm> {
    OptTerm(op.eq, 1) + OptTerm(op.lt, 4) + OptTerm(op.le, 5) + OptTerm(op.gt, 2) + OptTerm(op.ge, 3)
  }

  /** The sole operator of an item; an item with another number of operators is an error. */
  function ItemTerms(item: NumericMatch): Option<seq<NumericTerm>> {
    match item
    case Value(v) => Some([NumericTerm(false, 1, v)])
    case Op(op) =>
      var keys := OpTerms(op);
      if op.range.Some? then
        if keys != [] then None
        else Some([NumericTerm(false, 3, op.range.value.0), NumericTerm(true, 5, op.range.value.1)])
      else if |keys| != 1 then None else Some(keys)
  }

  function ListTerms(items: seq<NumericMatch>): Option<seq<NumericTerm>> {
    if items == [] then Some([]) else
    var init :- ListTerms(items[..|items| - 1]);
    var last :- ItemTerms(items[|items| - 1]);
    Some(init + last)
  }

  /** Named flags are added up, where the encoder ORs them. */
  function SumNames(names: seq<string>, bits: map<string, nat>): Option<nat> {
    if names == [] then Some(0) else
    var sum :- SumNames(names[..|names| - 1], bits);
    if names[|names| - 1] !in bits then None else Some(sum + bits[names[|names| - 1]])
  }

  function FlagSum(v: FlagValue, bits: map<string, nat>): Option<nat> {
    match v
    case Num(n) => Some(n)
    case Names(names) => SumNames(names, bits)
  }

  function MaskListTerms(items: seq<BitmaskMatch>, bits: map<string, nat>): Option<seq<MaskTerm>> {
    if items == [] then Some([]) else
    var init :- MaskListTerms(items[..|items| - 1], bits);
    var flags :- FlagSum(items[|items| - 1].flags, bits);
    Some(init + [MaskTerm(false, items[|items| - 1].negate, items[|items| - 1].exact, flags)])
  }

  /** A field of a rule. */
  datatype Field =
    | NetField(net: Option<Prefix>)
    | NumField(items: seq<NumericMatch>)
    | MaskField(masks: seq<BitmaskMatch>)

  /** The checker's own table of fields: the one at index k is for component type k + 1. */
  function Fields(r: Rule): (fs: seq<Field>)
    ensures |fs| == 13
  {
    [ NetField(r.dstPrefix), NetField(r.srcPrefix), NumField(r.protocol), NumField(r.port), NumField(r.dstPort),
      NumField(r.srcPort), NumField(r.icmpType), NumField(r.icmpCode), MaskField(r.tcpFlags),
      NumField(r.packetLength), NumField(r.dscp), MaskField(r.fragment), NumField(r.flowLabel) ]
  }

  function FieldExpected(t: byte, f: Field): Option<seq<Component>> {
    match f
    case NetField(net) =>
      Some(if net.Some? then [Network(t, net.value.addr, net.value.bits)] else [])
    case NumField(items) =>
      var terms :- ListTerms(items);
      Some(if terms == [] then [] else [Numeric(t, terms)])
    case MaskField(masks) =>
      var terms :- MaskListTerms(masks, FlagBits(t));
      Some(if terms == [] then [] else [Bitmask(t, terms)])
  }

  type Index = k: int | 0 <= k < 13

  /** Concatenation over a list of field indices. */
  function Expect(r: Rule, ks: seq<Index>): Option<seq<Component>> {
    if ks == [] then Some([]) else
    var k: nat := ks[|ks| - 1];
    var init :- Expect(r, ks[..|ks| - 1]);
    var last :- FieldExpected(k + 1, Fields(r)[k]);
    Some(init + last)
  }

  /** Prefixes, then the numeric fields, then the two bitmask fields, as the checker visits them. */
  const VISIT_ORDER: seq<Index> := [0, 1, 2, 3, 4, 5, 6, 7] + [9, 10] + [12] + [8] + [11]

  function InsertByType(c: Component, cs: seq<Component>): (s: seq<Component>)
    ensures multiset(s) == multiset{c} + multiset(cs)
  {
    if cs == [] || c.ctype <= cs[0].ctype then [c] + cs
    else
      assert cs == [cs[0]] + cs[1..];
      [cs[0]] + InsertByType(c, cs[1..])
  }

  function SortByType(cs: seq<Component>): (s: seq<Component>)
    ensures multiset(s) == multiset(cs)
  {
    if cs == [] then [] else
    assert cs == [cs[0]] + cs[1..];
    InsertByType(cs[0], SortByType(cs[1..]))
  }

  /** `flowspec_expected`. */
  function Expected(r: Rule): Option<seq<Component>> {
    var cs :- Expect(r, VISIT_ORDER);
    Some(SortByType(cs))
  }

  // ---------------------------------------------------------------- the expectation as written

  method CollectTerms(items: seq<NumericMatch>) returns (r: Option<seq<NumericTerm>>)
    ensures r == ListTerms(items)
  {
    var ops: seq<NumericTerm> := [];
    for i := 0 to |items|
      invariant ListTerms(items[..i]) == Some(ops)
    {
      assert items[..i + 1][..i] == items[..i];
      var more := ItemTerms(items[i]);
      if more.None? {
        TermsError(items, i);
        return None;
      }
      ops := ops + more.value;
    }
    assert items[..|items|] == items;
    return Some(ops);
  }

  lemma {:induction false} TermsError(items: seq<NumericMatch>, i: nat)
    requires i < |items| && ItemTerms(items[i]).None?
    ensures ListTerms(items).None?
  {
    if i + 1 < |items| {
      TermsError(items[..|items| - 1], i);
    }
  }

  method CollectMasks(items: seq<BitmaskMatch>, bits: map<string, nat>) returns (r: Option<seq<MaskTerm>>)
    ensures r == MaskListTerms(items, bits)
  {
    var ops: seq<MaskTerm> := [];
    for i := 0 to |items|
      invariant MaskListTerms(items[..i], bits) == Some(ops)
    {
      assert items[..i + 1][..i] == items[..i];
      var flags := FlagSum(items[i].flags, bits);
      if flags.None? {
        MasksError(items, bits, i);
        return None;
      }
      ops := ops + [MaskTerm(false, items[i].negate, items[i].exact, flags.value)];
    }
    assert items[..|items|] == items;
    return Some(ops);
  }

  lemma {:induction false} MasksError(items: seq<BitmaskMatch>, bits: map<string, nat>, i: nat)
    requires i < |items| && FlagSum(items[i].flags, bits).None?
    ensures MaskListTerms(items, bits).None?
  {
    if i + 1 < |items| {
      MasksError(items[..|items| - 1], bits, i);
    }
  }

  method ExpectField(t: byte, f: Field) returns (r: Option<seq<Component>>)
    ensures r == FieldExpected(t, f)
  {
    match f
    case NetField(net) =>
      return Some(if net.Some? then [Network(t, net.value.addr, net.value.bits)] else []);
    case NumField(items) =>
      var ops := CollectTerms(items);
      if ops.None? { return None; }
      return Some(if ops.value == [] then [] else [Numeric(t, ops.value)]);
    case MaskField(masks) =>
      var ops := CollectMasks(masks, FlagBits(t));
      if ops.None? { return None; }
      return Some(if ops.value == [] then [] else [Bitmask(t, ops.value)]);
  }

  /** The expectation gathers the fields one after the other and sorts what it has. */
  method FlowspecExpected(r: Rule) returns (want: Option<seq<Component>>)
    ensures want == Expected(r)
  {
    var order := VISIT_ORDER;
    var comps: seq<Component> := [];
    for i := 0 to |order|
      invariant Expect(r, order[..i]) == Some(comps)
    {
      assert order[..i + 1][..i] == order[..i];
      var k: nat := order[i];
      var more := ExpectField(k + 1, Fields(r)[k]);
      if more.None? {
        ExpectError(r, order, i);
        return None;
      }
      comps := comps + more.value;
    }
    assert order[..|order|] == order;
    return Some(SortByType(comps));
  }

  lemma {:induction false} ExpectError(r: Rule, ks: seq<Index>, i: nat)
    requires i < |ks| && FieldExpected(ks[i] as int + 1, Fields(r)[ks[i]]).None?
    ensures Expect(r, ks).None?
  {
    if i + 1 < |ks| {
      ExpectError(r, ks[..|ks| - 1], i);
    }
  }

  // ---------------------------------------------------------------- the comparison

  ghost predicate Agrees(got: Component, want: Component) {
    if got.Network? && want.Network? then
      got.ctype == want.ctype && got.bits == want.bits && SameNetwork(got.addr, want.addr, got.bits)
    else got == want
  }

  ghost predicate ComparisonPasses(got: seq<Component>, want: seq<Component>) {
    |got| == |want| && forall i :: 0 <= i < |got| ==> Agrees(got[i], want[i])
  }

  predicate NoRepeats(names: seq<string>) {
    forall i, j :: 0 <= i < j < |names| ==> names[i] != names[j]
  }

  predicate FlagsListedOnce(items: seq<BitmaskMatch>) {
    forall k :: 0 <= k < |items| ==> items[k].flags.Names? ==> NoRepeats(items[k].flags.names)
  }

  /** No bitmask item names the same flag twice. */
  predicate NoRepeatedFlags(r: Rule) {
    FlagsListedOnce(r.tcpFlags) && FlagsListedOnce(r.fragment)
  }

  // ---------------------------------------------------------------- sorting

  predicate SortedTypes(cs: seq<Component>) {
    forall i, j :: 0 <= i < j < |cs| ==> cs[i].ctype <= cs[j].ctype
  }

  predicate StrictTypes(cs: seq<Component>) {
    forall i, j :: 0 <= i < j < |cs| ==> cs[i].ctype < cs[j].ctype
  }

  lemma {:induction false} InsertSorted(c: Component, cs: seq<Component>)
    requires SortedTypes(cs)
    ensures SortedTypes(InsertByType(c, cs))
  {
    if cs != [] && c.ctype > cs[0].ctype {
      InsertSorted(c, cs[1..]);
      var rest := InsertByType(c, cs[1..]);
      forall x | x in rest
        ensures cs[0].ctype <= x.ctype
      {
        assert x in multiset(rest);
        if x != c {
          assert x in cs[1..];
        }
      }
    }
  }

  lemma {:induction false} SortSorted(cs: seq<Component>)
    ensures SortedTypes(SortByType(cs))
  {
    if cs != [] {
      SortSorted(cs[1..]);
      InsertSorted(cs[0], SortByType(cs[1..]));
    }
  }

  lemma TailMultiset(s: seq<Component>)
    requires s != []
    ensures multiset(s[1..]) == multiset(s) - multiset{s[0]}
  {
    assert s == [s[0]] + s[1..];
  }

  lemma SameHead(a: seq<Component>, b: seq<Component>)
    requires SortedTypes(a) && StrictTypes(b) && multiset(a) == multiset(b) && a != []
    ensures b != [] && a[0] == b[0]
  {
    assert a[0] in multiset(b);
    var i :| 0 <= i < |b| && b[i] == a[0];
    assert b[0] in multiset(a);
    var j :| 0 <= j < |a| && a[j] == b[0];
    assert a[0].ctype <= a[j].ctype;
  }

  lemma {:induction false} SortedUnique(a: seq<Component>, b: seq<Component>)
    requires SortedTypes(a) && StrictTypes(b) && multiset(a) == multiset(b)
    ensures a == b
  {
    if |a| == 0 {
      assert |multiset(b)| == |b| && |multiset(a)| == 0;
    } else {
      SameHead(a, b);
      TailMultiset(a);
      TailMultiset(b);
      SortedUnique(a[1..], b[1..]);
      assert a == [a[0]] + a[1..] && b == [b[0]] + b[1..];
    }
  }

  // ---------------------------------------------------------------- sums and ORs of flags

  lemma FoundBefore(names: seq<string>, t: nat, name: string)
    requires (t == 9 || t == 12) && OrNames(names, TableFor(t)).Ok? && name in FlagBits(t)
    ensures FindFlag(TableFor(t), name).Some?
    ensures NatBit(OrNames(names, TableFor(t)).value, FindFlag(TableFor(t), name).value) <==> name in names
  {
    FlagFound(t, name);
    var j := FindFlag(TableFor(t), name).value;
    OrBits(names, TableFor(t), j);
    if Finds(names, TableFor(t), j) {
      var k :| 0 <= k < |names| && FindFlag(TableFor(t), names[k]) == Some(j);
      assert names[k] == TableFor(t)[j] == name;
    }
  }

  /** Adding flags up gives what ORing them gives exactly when no name occurs twice. */
  lemma {:induction false} SumIsOrIffNoRepeats(names: seq<string>, t: nat)
    requires (t == 9 || t == 12) && OrNames(names, TableFor(t)).Ok?
    ensures SumNames(names, FlagBits(t)).Some?
    ensures SumNames(names, FlagBits(t)).value >= OrNames(names, TableFor(t)).value
    ensures SumNames(names, FlagBits(t)).value == OrNames(names, TableFor(t)).value <==> NoRepeats(names)
  {
    if names != [] {
      var n := |names| - 1;
      SumIsOrIffNoRepeats(names[..n], t);
      FlagFound(t, names[n]);
      FoundBefore(names[..n], t, names[n]);
      NoRepeatsSnoc(names);
    }
  }

  lemma NoRepeatsSnoc(names: seq<string>)
    requires names != []
    ensures NoRepeats(names) <==> NoRepeats(names[..|names| - 1]) && names[|names| - 1] !in names[..|names| - 1]
  {
    var init := names[..|names| - 1];
    assert forall k :: 0 <= k < |init| ==> init[k] == names[k];
  }

  // ---------------------------------------------------------------- numeric lists

  function TermOf(e: Element): NumericTerm { NumericTerm(e.bits >= OP_AND, e.bits % 8, e.value) }

  function TermsOf(els: seq<Element>): (ts: seq<NumericTerm>)
    ensures |ts| == |els|
  {
    seq(|els|, i requires 0 <= i < |els| => TermOf(els[i]))
  }

  lemma OpTermsOfElements(op: NumericOp)
    requires op.range.None?
    ensures OpTerms(op) == TermsOf(OpElements(op))
  {
    OptTermOfElement(op.eq, OP_EQ);
    OptTermOfElement(op.lt, OP_LT);
    OptTermOfElement(op.le, OP_LT + OP_EQ);
    OptTermOfElement(op.gt, OP_GT);
    OptTermOfElement(op.ge, OP_GT + OP_EQ);
    var a, b, c := OptElement(op.eq, OP_EQ), OptElement(op.lt, OP_LT), OptElement(op.le, OP_LT + OP_EQ);
    var d, e := OptElement(op.gt, OP_GT), OptElement(op.ge, OP_GT + OP_EQ);
    TermsOfAppend(a, b);
    TermsOfAppend(a + b, c);
    TermsOfAppend(a + b + c, d);
    TermsOfAppend(a + b + c + d, e);
    assert OpElements(op) == a + b + c + d + e;
  }

  lemma OptTermOfElement(o: Option<u64>, bits: OpBits)
    requires bits < 8
    ensures TermsOf(OptElement(o, bits)) == OptTerm(o, bits)
  {
  }

  lemma TermsOfAppend(a: seq<Element>, b: seq<Element>)
    ensures TermsOf(a + b) == TermsOf(a) + TermsOf(b)
  {
  }

  lemma ItemExpected(item: NumericMatch)
    requires ItemElements(item).Ok?
    ensures ItemTerms(item) == Some(TermsOf(ItemElements(item).value))
  {
    var els := ItemElements(item).value;
    if item.Value? {
      assert TermsOf(els) == [TermOf(els[0])];
    } else if item.op.range.None? {
      OpTermsOfElements(item.op);
    } else {
      var (a, b) := item.op.range.value;
      assert els == [Element(OP_GT + OP_EQ, a), Element(OP_AND + OP_LT + OP_EQ, b)];
      assert TermsOf(els) == [NumericTerm(false, 3, a), NumericTerm(true, 5, b)];
    }
  }

  lemma ListSnoc(items: seq<NumericMatch>, a: seq<Element>, b: seq<Element>)
    requires items != [] && ListElements(items[..|items| - 1]) == Ok(a) && ItemElements(items[|items| - 1]) == Ok(b)
    requires ListTerms(items[..|items| - 1]) == Some(TermsOf(a)) && ItemTerms(items[|items| - 1]) == Some(TermsOf(b))
    ensures ListElements(items) == Ok(a + b) && ListTerms(items) == Some(TermsOf(a + b))
  {
    TermsOfAppend(a, b);
  }

  lemma {:induction false} ListExpected(items: seq<NumericMatch>)
    requires ListElements(items).Ok?
    ensures ListTerms(items) == Some(TermsOf(ListElements(items).value))
  {
    if items != [] {
      var n := |items| - 1;
      ListExpected(items[..n]);
      ItemExpected(items[n]);
      ListSnoc(items, ListElements(items[..n]).value, ItemElements(items[n]).value);
    }
  }

  lemma NumericViews(t: byte, size: nat, els: seq<Element>)
    requires !IsMaskType(t)
    ensures View(RawList(t, size, RawOpsOf(els))) == Numeric(t, TermsOf(els))
  {
    var terms := View(RawList(t, size, RawOpsOf(els))).terms;
    forall i | 0 <= i < |els|
      ensures terms[i] == TermOf(els[i])
    {
      RawOpsAt(els, i);
      OctetFields(i + 1 == |els|, els[i]);
      LowNibble(OpOctet(i + 1 == |els|, els[i]));
      LowNibble(els[i].bits);
    }
    assert terms == TermsOf(els);
  }

  // ---------------------------------------------------------------- bitmask lists

  lemma MaskViews(t: byte, size: nat, items: seq<BitmaskMatch>, table: FlagTable, maxLen: nat)
    requires IsMaskType(t) && MaskElements(items, table, maxLen).Ok?
    ensures View(RawList(t, size, RawOpsOf(MaskElements(items, table, maxLen).value))) ==
            Bitmask(t, MaskGot(items, table))
  {
    var els := MaskElements(items, table, maxLen).value;
    var masks := View(RawList(t, size, RawOpsOf(els))).masks;
    forall i | 0 <= i < |els|
      ensures masks[i] == MaskGot(items, table)[i]
    {
      MaskElementAt(items, table, maxLen, i);
      MaskFields(items[i], table, maxLen);
      RawOpsAt(els, i);
      OctetFields(i + 1 == |els|, els[i]);
      LowNibble(OpOctet(i + 1 == |els|, els[i]));
      LowNibble(els[i].bits);
    }
  }

  /** The bitmask terms a reader decodes: the flags as the encoder resolves them. */
  function MaskGot(items: seq<BitmaskMatch>, table: FlagTable): (ts: seq<MaskTerm>)
    ensures |ts| == |items|
  {
    seq(|items|, i requires 0 <= i < |items| =>
      MaskTerm(false, items[i].negate, items[i].exact,
        if ResolveFlags(items[i].flags, table).Ok? then ResolveFlags(items[i].flags, table).value else 0))
  }

  lemma MaskFields(item: BitmaskMatch, table: FlagTable, maxLen: nat)
    requires MaskElement(item, table, maxLen).Ok?
    ensures var e := MaskElement(item, table, maxLen).value;
            e.bits < OP_AND && (e.bits % 2 == 1 <==> item.exact) && (e.bits / 2 % 2 == 1 <==> item.negate)
            && e.bits % 0x10 == e.bits && Ok(e.value) == ResolveFlags(item.flags, table)
  {
  }

  lemma {:induction false} MaskElementAt(items: seq<BitmaskMatch>, table: FlagTable, maxLen: nat, i: nat)
    requires MaskElements(items, table, maxLen).Ok? && i < |items|
    ensures MaskElement(items[i], table, maxLen) == Ok(MaskElements(items, table, maxLen).value[i])
  {
    if i + 1 < |items| {
      MaskElementAt(items[..|items| - 1], table, maxLen, i);
    }
  }

  lemma FlagSumAgrees(v: FlagValue, t: nat)
    requires (t == 9 || t == 12) && ResolveFlags(v, TableFor(t)).Ok?
    ensures FlagSum(v, FlagBits(t)).Some?
    ensures FlagSum(v, FlagBits(t)).value == ResolveFlags(v, TableFor(t)).value <==> (v.Names? ==> NoRepeats(v.names))
  {
    if v.Names? {
      SumIsOrIffNoRepeats(v.names, t);
    }
  }

  lemma {:induction false} MaskListExpected(items: seq<BitmaskMatch>, t: nat, maxLen: nat)
    requires (t == 9 || t == 12) && MaskElements(items, TableFor(t), maxLen).Ok?
    ensures var want := MaskListTerms(items, FlagBits(t));
            want.Some? && |want.value| == |items| && (want.value == MaskGot(items, TableFor(t)) <==> FlagsListedOnce(items))
  {
    if items != [] {
      var n, table, bits := |items| - 1, TableFor(t), FlagBits(t);
      MaskListExpected(items[..n], t, maxLen);
      MaskFields(items[n], table, maxLen);
      FlagSumAgrees(items[n].flags, t);
      MaskListSnoc(items, table, MaskListTerms(items[..n], bits).value, FlagSum(items[n].flags, bits).value);
    }
  }

  lemma MaskListSnoc(items: seq<BitmaskMatch>, table: FlagTable, want: seq<MaskTerm>, sum: nat)
    requires items != [] && |want| == |items| - 1 && ResolveFlags(items[|items| - 1].flags, table).Ok?
    requires want == MaskGot(items[..|items| - 1], table) <==> FlagsListedOnce(items[..|items| - 1])
    requires var v := items[|items| - 1].flags;
             sum == ResolveFlags(v, table).value <==> (v.Names? ==> NoRepeats(v.names))
    ensures var last := items[|items| - 1];
            want + [MaskTerm(false, last.negate, last.exact, sum)] == MaskGot(items, table) <==> FlagsListedOnce(items)
  {
    var n := |items| - 1;
    var last, init := items[n], items[..n];
    var got, more := MaskGot(items, table), MaskTerm(false, last.negate, last.exact, sum);
    assert got == MaskGot(init, table) + [got[n]];
    assert want + [more] == got <==> want == MaskGot(init, table) && more == got[n] by {
      if want + [more] == got {
        assert want == got[..n] && MaskGot(init, table) == got[..n];
        assert more == got[n];
      }
    }
    assert forall k :: 0 <= k < n ==> init[k] == items[k];
  }

  // ---------------------------------------------------------------- one field

  predicate ListedOnce(c: Clause) {
    c.MaskClause? ==> FlagsListedOnce(c.masks)
  }

  ghost predicate CompAgrees(c: Comp, want: Component) {
    Agrees(View(RawOf(c)), want)
  }

  predicate SameType(c: Comp, want: Component) {
    want.ctype == c.ctype
  }

  ghost predicate SameTypes(got: seq<Comp>, want: seq<Component>) {
    AllPairs(SameType, got, want)
  }

  ghost predicate AllPairs<A, B>(related: (A, B) -> bool, got: seq<A>, want: seq<B>) {
    |got| == |want| && forall i :: 0 <= i < |got| ==> related(got[i], want[i])
  }

  ghost predicate AllAgree(got: seq<Comp>, want: seq<Component>) {
    AllPairs(CompAgrees, got, want)
  }

  /** What a field expects against what its slot compiles to. */
  ghost predicate Matched(got: seq<Comp>, want: seq<Component>, once: bool) {
    SameTypes(got, want) && (AllAgree(got, want) <==> once)
  }

  lemma ListElementsEmpty(items: seq<NumericMatch>)
    requires items != [] && ListElements(items).Ok?
    ensures TermsOf(ListElements(items).value) != []
  {
    ListElementsNonEmpty(items);
  }

  lemma NetClauseMatched(t: byte, net: Option<Prefix>, v6: bool)
    requires NetSlot(t, net, v6).Ok?
    ensures Matched(NetSlot(t, net, v6).value, FieldExpected(t, NetField(net)).value, true)
  {
    if net.Some? {
      PaddedPrefixSameNetwork(net.value.addr, net.value.bits);
    }
  }

  lemma NumClauseMatched(t: byte, items: seq<NumericMatch>)
    requires NumSlot(t, items).Ok? && !IsMaskType(t)
    ensures var want := FieldExpected(t, NumField(items));
            want.Some? && Matched(NumSlot(t, items).value, want.value, true)
  {
    if items != [] {
      var els := ListElements(items).value;
      ListExpected(items);
      ListElementsEmpty(items);
      NumericViews(t, |CompBytes(OpsComp(t, els))|, els);
    }
  }

  lemma MatchedOne(c: Comp, want: Component, once: bool)
    requires SameType(c, want) && (CompAgrees(c, want) <==> once)
    ensures Matched([c], [want], once)
  {
    var got, wanted := [c], [want];
    assert got[0] == c && wanted[0] == want;
    if AllAgree(got, wanted) { assert CompAgrees(got[0], wanted[0]); }
  }

  lemma MaskAgrees(t: byte, masks: seq<BitmaskMatch>, maxLen: nat)
    requires IsMaskType(t) && MaskElements(masks, TableFor(t), maxLen).Ok?
    ensures var terms := MaskListTerms(masks, FlagBits(t));
            && terms.Some? && |terms.value| == |masks|
            && (CompAgrees(OpsComp(t, MaskElements(masks, TableFor(t), maxLen).value), Bitmask(t, terms.value))
                <==> FlagsListedOnce(masks))
  {
    var c := OpsComp(t, MaskElements(masks, TableFor(t), maxLen).value);
    MaskListExpected(masks, t, maxLen);
    MaskViews(t, |CompBytes(c)|, masks, TableFor(t), maxLen);
  }

  lemma MaskClauseMatched(t: byte, masks: seq<BitmaskMatch>, maxLen: nat)
    requires IsMaskType(t) && MaskSlot(t, masks, TableFor(t), maxLen).Ok?
    ensures var want := FieldExpected(t, MaskField(masks));
            want.Some? && Matched(MaskSlot(t, masks, TableFor(t), maxLen).value, want.value, FlagsListedOnce(masks))
  {
    if masks != [] {
      MaskAgrees(t, masks, maxLen);
      MatchedOne(OpsComp(t, MaskElements(masks, TableFor(t), maxLen).value),
                 Bitmask(t, MaskListTerms(masks, FlagBits(t)).value), FlagsListedOnce(masks));
    }
  }

  /** What a clause says, without the encoder's table and limit. */
  function Said(c: Clause): Field {
    match c
    case NetClause(net) => NetField(net)
    case NumClause(items) => NumField(items)
    case MaskClause(masks, _, _) => MaskField(masks)
  }

  lemma ClausesSay(r: Rule, k: nat)
    requires k < 13
    ensures Fields(r)[k] == Said(Clauses(r)[k])
  {
  }

  lemma ClauseMatched(c: Clause, k: nat, v6: bool)
    requires k < 13 && (c.NetClause? <==> k < 2) && (c.MaskClause? <==> MaskIndex(k))
    requires c.MaskClause? ==> c.table == TableFor(k + 1)
    requires Slot(k + 1, c, v6).Ok?
    ensures var want := FieldExpected(k + 1, Said(c));
            want.Some? && Matched(Slot(k + 1, c, v6).value, want.value, ListedOnce(c))
  {
    match c
    case NetClause(net) => NetClauseMatched(k + 1, net, v6);
    case NumClause(items) => NumClauseMatched(k + 1, items);
    case MaskClause(masks, table, maxLen) => MaskClauseMatched(k + 1, masks, maxLen);
  }

  // ---------------------------------------------------------------- the whole rule

  /** The first n field indices, in type order. */
  function FirstIndices(n: nat): (ks: seq<Index>)
    requires n <= 13
    ensures |ks| == n
  {
    seq(n, i requires 0 <= i < n => i)
  }

  lemma AllPairsAppend<A, B>(related: (A, B) -> bool, a: seq<A>, b: seq<A>, u: seq<B>, w: seq<B>)
    requires |a| == |u| && |b| == |w|
    ensures AllPairs(related, a + b, u + w) <==> AllPairs(related, a, u) && AllPairs(related, b, w)
  {
    var got, want := a + b, u + w;
    if AllPairs(related, got, want) {
      forall i | 0 <= i < |a| ensures related(a[i], u[i]) {
        assert related(got[i], want[i]);
      }
      forall i | 0 <= i < |b| ensures related(b[i], w[i]) {
        assert related(got[|a| + i], want[|a| + i]);
      }
    }
  }

  lemma MatchedAppend(a: seq<Comp>, b: seq<Comp>, u: seq<Component>, w: seq<Component>, once: bool, also: bool)
    requires Matched(a, u, once) && Matched(b, w, also)
    ensures Matched(a + b, u + w, once && also)
  {
    AllPairsAppend(SameType, a, b, u, w);
    AllPairsAppend(CompAgrees, a, b, u, w);
  }

  predicate OnceUpTo(r: Rule, n: nat)
    requires n <= 13
  {
    forall k :: 0 <= k < n ==> ListedOnce(Clauses(r)[k])
  }

  lemma {:induction false} RuleMatched(r: Rule, v6: bool, n: nat)
    requires n <= 13 && Merge(Slots(r, v6)[..n]).Ok?
    ensures var want := Expect(r, FirstIndices(n));
            want.Some? && Matched(Merge(Slots(r, v6)[..n]).value, want.value, OnceUpTo(r, n))
  {
    var slots := Slots(r, v6);
    if n == 0 {
      assert slots[..0] == [] && FirstIndices(0) == [];
    } else {
      var k := n - 1;
      assert slots[..n][..k] == slots[..k];
      RuleMatched(r, v6, k);
      MergedSlotOk(slots[..n], k);
      ClauseShape(r, k);
      ClausesSay(r, k);
      ClauseMatched(Clauses(r)[k], k, v6);
      MatchedStep(r, slots, k);
    }
  }

  lemma MergeStep(slots: seq<Result<seq<Comp>>>, k: nat)
    requires k < |slots| && Merge(slots[..k]).Ok? && slots[k].Ok?
    ensures Merge(slots[..k + 1]) == Ok(Merge(slots[..k]).value + slots[k].value)
  {
    assert slots[..k + 1][..k] == slots[..k];
  }

  lemma ExpectStep(r: Rule, k: nat)
    requires k < 13 && Expect(r, FirstIndices(k)).Some? && FieldExpected(k + 1, Fields(r)[k]).Some?
    ensures Expect(r, FirstIndices(k + 1)) ==
            Some(Expect(r, FirstIndices(k)).value + FieldExpected(k + 1, Fields(r)[k]).value)
  {
    assert FirstIndices(k + 1)[..k] == FirstIndices(k);
  }

  lemma MatchedStep(r: Rule, slots: seq<Result<seq<Comp>>>, k: nat)
    requires k < 13 == |slots| && Merge(slots[..k]).Ok? && slots[k].Ok?
    requires Expect(r, FirstIndices(k)).Some? && FieldExpected(k + 1, Fields(r)[k]).Some?
    requires Matched(Merge(slots[..k]).value, Expect(r, FirstIndices(k)).value, OnceUpTo(r, k))
    requires Matched(slots[k].value, FieldExpected(k + 1, Fields(r)[k]).value, ListedOnce(Clauses(r)[k]))
    ensures Merge(slots[..k + 1]).Ok? && Expect(r, FirstIndices(k + 1)).Some?
    ensures Matched(Merge(slots[..k + 1]).value, Expect(r, FirstIndices(k + 1)).value, OnceUpTo(r, k + 1))
  {
    MergeStep(slots, k);
    ExpectStep(r, k);
    MatchedAppend(Merge(slots[..k]).value, slots[k].value,
                  Expect(r, FirstIndices(k)).value, FieldExpected(k + 1, Fields(r)[k]).value,
                  OnceUpTo(r, k), ListedOnce(Clauses(r)[k]));
  }

  lemma {:induction false} ExpectAppend(r: Rule, a: seq<Index>, b: seq<Index>)
    ensures Expect(r, a + b) ==
            if Expect(r, a).None? || Expect(r, b).None? then None else Some(Expect(r, a).value + Expect(r, b).value)
  {
    if b == [] {
      assert a + b == a;
      if Expect(r, a).Some? { assert Expect(r, a).value + [] == Expect(r, a).value; }
    } else {
      var n := |b| - 1;
      assert (a + b)[..|a + b| - 1] == a + b[..n];
      ExpectAppend(r, a, b[..n]);
      var last := FieldExpected(b[n] as int + 1, Fields(r)[b[n]]);
      if Expect(r, a).Some? && Expect(r, b[..n]).Some? && last.Some? {
        assert Expect(r, a).value + (Expect(r, b[..n]).value + last.value)
            == Expect(r, a).value + Expect(r, b[..n]).value + last.value;
      }
    }
  }

  /** What a list of fields gathers, regardless of order; empty when one of them is an error. */
  ghost function Gathered(r: Rule, ks: seq<Index>): multiset<Component> {
    var cs := Expect(r, ks);
    if cs.None? then multiset{} else multiset(cs.value)
  }

  lemma GatheredAppend(r: Rule, a: seq<Index>, b: seq<Index>)
    ensures Expect(r, a + b).Some? <==> Expect(r, a).Some? && Expect(r, b).Some?
    ensures Expect(r, a + b).Some? ==> Gathered(r, a + b) == Gathered(r, a) + Gathered(r, b)
  {
    ExpectAppend(r, a, b);
  }

  lemma VisitedGathers(r: Rule, low: seq<Index>, m: seq<Index>, d: seq<Index>, f: seq<Index>, l: seq<Index>)
    requires Expect(r, low + m + d + f + l).Some?
    ensures Expect(r, low + d + l + m + f).Some?
    ensures Gathered(r, low + d + l + m + f) == Gathered(r, low + m + d + f + l)
  {
    GatheredAppend(r, low, m);
    GatheredAppend(r, low + m, d);
    GatheredAppend(r, low + m + d, f);
    GatheredAppend(r, low + m + d + f, l);
    GatheredAppend(r, low, d);
    GatheredAppend(r, low + d, l);
    GatheredAppend(r, low + d + l, m);
    GatheredAppend(r, low + d + l + m, f);
  }

  /** Visiting the fields in another order gathers the same components. */
  lemma VisitOrderPermutes(r: Rule)
    requires Expect(r, FirstIndices(13)).Some?
    ensures Expect(r, VISIT_ORDER).Some?
    ensures multiset(Expect(r, VISIT_ORDER).value) == multiset(Expect(r, FirstIndices(13)).value)
  {
    var low: seq<Index> := [0, 1, 2, 3, 4, 5, 6, 7];
    assert FirstIndices(13) == low + [8] + [9, 10] + [11] + [12];
    VisitedGathers(r, low, [8], [9, 10], [11], [12]);
  }

  lemma {:induction false} StrictFromAscending(comps: seq<Comp>, last: nat, v6: bool)
    requires Ascending(comps, last, v6)
    ensures forall i :: 0 <= i < |comps| ==> comps[i].ctype > last
    ensures forall i, j :: 0 <= i < j < |comps| ==> comps[i].ctype < comps[j].ctype
  {
    if comps != [] {
      StrictFromAscending(comps[1..], comps[0].ctype, v6);
      assert forall i :: 1 <= i < |comps| ==> comps[i] == comps[1..][i - 1];
    }
  }

  lemma ExpectedInTypeOrder(r: Rule)
    requires Compile(r).Ok?
    ensures Expected(r).Some? && Matched(Compile(r).value, Expected(r).value, OnceUpTo(r, 13))
  {
    var v6, comps := Family(r).value, Compile(r).value;
    assert Slots(r, v6)[..13] == Slots(r, v6);
    RuleMatched(r, v6, 13);
    VisitOrderPermutes(r);
    var asc, visited := Expect(r, FirstIndices(13)).value, Expect(r, VISIT_ORDER).value;
    CompileAscending(r);
    StrictFromAscending(comps, 0, v6);
    SortSorted(visited);
    SortedUnique(SortByType(visited), asc);
  }

  lemma OnceMeansNoRepeats(r: Rule)
    ensures OnceUpTo(r, 13) <==> NoRepeatedFlags(r)
  {
    assert Clauses(r)[8] == MaskClause(r.tcpFlags, TCP_FLAG_NAMES, 2);
    assert Clauses(r)[11] == MaskClause(r.fragment, FRAGMENT_FLAG_NAMES, 1);
    forall k | 0 <= k < 13 && !MaskIndex(k) ensures ListedOnce(Clauses(r)[k]) { ClauseShape(r, k); }
    if OnceUpTo(r, 13) {
      assert ListedOnce(Clauses(r)[8]) && ListedOnce(Clauses(r)[11]);
    }
  }

  lemma ComparisonIsAllAgree(comps: seq<Comp>, want: seq<Component>)
    ensures ComparisonPasses(Views(RawsOf(comps)), want) <==> AllAgree(comps, want)
  {
    var got := Views(RawsOf(comps));
    if |comps| == |want| {
      assert forall i :: 0 <= i < |comps| ==> (Agrees(got[i], want[i]) <==> CompAgrees(comps[i], want[i]));
    }
  }

  lemma ComparisonTypes(comps: seq<Comp>, want: seq<Component>)
    requires SameTypes(comps, want)
    ensures var got := Views(RawsOf(comps));
            |got| == |want| && forall i :: 0 <= i < |got| ==> got[i].ctype == want[i].ctype
  {
    var got := Views(RawsOf(comps));
    forall i | 0 <= i < |got|
      ensures got[i].ctype == want[i].ctype
    {
      assert SameType(comps[i], want[i]);
    }
  }

  /** FlowSpec round trip, as the route checker runs it: on every encoded rule without raw bytes
      the decoder succeeds, its component types are the expected ones in order, and the comparison
      passes exactly when no bitmask item names a flag twice. Otherwise the checker adds up a flag
      the encoder ORed, and reports a difference in bytes that are right. */
  lemma RoundTrip(r: Rule)
    requires Encode(r).Ok? && r.Raw() == []
    ensures var got, want := Decode(Encode(r).value.0, Encode(r).value.1), Expected(r);
            && got.Ok? && want.Some?
            && |got.value| == |want.value|
            && (forall i :: 0 <= i < |got.value| ==> got.value[i].ctype == want.value[i].ctype)
            && (ComparisonPasses(got.value, want.value) <==> NoRepeatedFlags(r))
  {
    ReadEncoded(r);
    ExpectedInTypeOrder(r);
    OnceMeansNoRepeats(r);
    var comps := Compile(r).value;
    ComparisonIsAllAgree(comps, Expected(r).value);
    ComparisonTypes(comps, Expected(r).value);
  }

  // ---------------------------------------------------------------- when there is an expectation

  lemma {:induction false} TermsIff(items: seq<NumericMatch>)
    ensures ListTerms(items).Some? <==> FlowSpecAcceptance.ListOk(items)
  {
    if items != [] {
      TermsIff(items[..|items| - 1]);
      assert forall k :: 0 <= k < |items| - 1 ==> items[..|items| - 1][k] == items[k];
      assert ItemTerms(items[|items| - 1]).Some? <==> FlowSpecAcceptance.ItemOk(items[|items| - 1]);
    }
  }

  predicate ItemKnown(item: BitmaskMatch, t: nat) { item.flags.Names? ==> AllKnown(t, item.flags.names) }

  predicate ItemsKnown(items: seq<BitmaskMatch>, t: nat) {
    forall k :: 0 <= k < |items| ==> ItemKnown(items[k], t)
  }

  lemma {:induction false} SumIff(names: seq<string>, t: nat)
    ensures SumNames(names, FlagBits(t)).Some? <==> AllKnown(t, names)
  {
    if names != [] {
      SumIff(names[..|names| - 1], t);
      assert forall k :: 0 <= k < |names| - 1 ==> names[..|names| - 1][k] == names[k];
    }
  }

  lemma {:induction false} MaskTermsIff(items: seq<BitmaskMatch>, t: nat)
    ensures MaskListTerms(items, FlagBits(t)).Some? <==> ItemsKnown(items, t)
  {
    if items != [] {
      MaskTermsIff(items[..|items| - 1], t);
      assert forall k :: 0 <= k < |items| - 1 ==> items[..|items| - 1][k] == items[k];
      if items[|items| - 1].flags.Names? { SumIff(items[|items| - 1].flags.names, t); }
    }
  }

  predicate FieldSayable(t: nat, f: Field) {
    match f
    case NetField(_) => true
    case NumField(items) => FlowSpecAcceptance.ListOk(items)
    case MaskField(masks) => ItemsKnown(masks, t)
  }

  lemma FieldIff(t: byte, f: Field)
    ensures FieldExpected(t, f).Some? <==> FieldSayable(t, f)
  {
    match f
    case NetField(_) =>
    case NumField(items) => TermsIff(items);
    case MaskField(masks) => MaskTermsIff(masks, t);
  }

  lemma {:induction false} ExpectIff(r: Rule, ks: seq<Index>)
    ensures Expect(r, ks).Some? <==> forall i :: 0 <= i < |ks| ==> FieldSayable(ks[i] as int + 1, Fields(r)[ks[i]])
  {
    if ks != [] {
      var n := |ks| - 1;
      ExpectIff(r, ks[..n]);
      FieldIff(ks[n] as int + 1, Fields(r)[ks[n]]);
      assert forall i :: 0 <= i < n ==> ks[..n][i] == ks[i];
    }
  }

  predicate Sayable(r: Rule, k: nat)
    requires k < 13
  {
    FieldSayable(k + 1, Fields(r)[k])
  }

  /** Every field is visited. */
  lemma Visited(k: nat) returns (i: nat)
    requires k < 13
    ensures i < |VISIT_ORDER| && VISIT_ORDER[i] == k
  {
    var places := [0, 1, 2, 3, 4, 5, 6, 7, 11, 8, 9, 12, 10];
    i := places[k];
  }

  lemma AllVisited(r: Rule)
    ensures Expected(r).Some? <==> forall k :: 0 <= k < 13 ==> Sayable(r, k)
  {
    ExpectIff(r, VISIT_ORDER);
    VisitedSayable(r, VISIT_ORDER);
  }

  lemma VisitedSayable(r: Rule, order: seq<Index>)
    requires order == VISIT_ORDER
    ensures (forall i :: 0 <= i < |order| ==> FieldSayable(order[i] as int + 1, Fields(r)[order[i]]))
            <==> forall k :: 0 <= k < 13 ==> Sayable(r, k)
  {
    if forall i :: 0 <= i < |order| ==> FieldSayable(order[i] as int + 1, Fields(r)[order[i]]) {
      forall k: nat | k < 13
        ensures Sayable(r, k)
      {
        var i := Visited(k);
        assert order[i] == k;
      }
    }
    if forall k :: 0 <= k < 13 ==> Sayable(r, k) {
      forall i | 0 <= i < |order|
        ensures FieldSayable(order[i] as int + 1, Fields(r)[order[i]])
      {
        assert Sayable(r, order[i]);
      }
    }
  }

  /** There is an expectation exactly when every item of the rule has one operator and every named flag
      is known; how large the rule is, or of which family, does not matter. */
  lemma ExpectedIff(r: Rule)
    ensures Expected(r).Some? <==>
            && FlowSpecAcceptance.ListOk(r.protocol) && FlowSpecAcceptance.ListOk(r.port)
            && FlowSpecAcceptance.ListOk(r.dstPort) && FlowSpecAcceptance.ListOk(r.srcPort)
            && FlowSpecAcceptance.ListOk(r.icmpType) && FlowSpecAcceptance.ListOk(r.icmpCode)
            && FlowSpecAcceptance.ListOk(r.packetLength) && FlowSpecAcceptance.ListOk(r.dscp)
            && FlowSpecAcceptance.ListOk(r.flowLabel)
            && ItemsKnown(r.tcpFlags, 9) && ItemsKnown(r.fragment, 12)
  {
    AllVisited(r);
    if forall k :: 0 <= k < 13 ==> Sayable(r, k) {
      assert Sayable(r, 2) && Sayable(r, 3) && Sayable(r, 4) && Sayable(r, 5) && Sayable(r, 6) && Sayable(r, 7);
      assert Sayable(r, 8) && Sayable(r, 9) && Sayable(r, 10) && Sayable(r, 11) && Sayable(r, 12);
    }
  }

  // ---------------------------------------------------------------- named flags on the wire

  /** What a decoded bitmask term says of the item it comes from: both its switches, and its flags, each
      of the eight bits being set exactly when the item has the name of that bit. */
  ghost predicate TellsItem(m: MaskTerm, item: BitmaskMatch, t: nat) {
    && !m.and && m.negate == item.negate && m.exact == item.exact
    && match item.flags
       case Num(n) => m.flags == n
       case Names(names) => m.flags < 0x100 && forall w <- [0x01, 0x02, 0x04, 0x08, 0x10, 0x20, 0x40, 0x80] ::
                              HasFlag(m.flags, w) <==> NamesFlag(names, t, w)
  }

  ghost predicate TellsItems(c: Component, t: nat, items: seq<BitmaskMatch>) {
    && c.Bitmask? && c.ctype == t && |c.masks| == |items|
    && forall i :: 0 <= i < |items| ==> TellsItem(c.masks[i], items[i], t)
  }

  lemma {:induction false} MergeHas(slots: seq<Result<seq<Comp>>>, k: nat, c: Comp)
    requires Merge(slots).Ok? && k < |slots| && slots[k].Ok? && c in slots[k].value
    ensures c in Merge(slots).value
  {
    if k + 1 < |slots| { MergeHas(slots[..|slots| - 1], k, c); }
  }

  lemma GotTellsItems(t: byte, size: nat, items: seq<BitmaskMatch>, maxLen: nat)
    requires IsMaskType(t) && MaskElements(items, TableFor(t), maxLen).Ok?
    ensures TellsItems(View(RawList(t, size, RawOpsOf(MaskElements(items, TableFor(t), maxLen).value))), t, items)
  {
    MaskViews(t, size, items, TableFor(t), maxLen);
    forall i | 0 <= i < |items|
      ensures TellsItem(MaskGot(items, TableFor(t))[i], items[i], t)
    {
      MaskElementAt(items, TableFor(t), maxLen, i);
      MaskFields(items[i], TableFor(t), maxLen);
      if items[i].flags.Names? { NamesToMask(t, items[i].flags.names); }
    }
  }

  lemma MaskFieldOnWire(r: Rule, k: nat, items: seq<BitmaskMatch>, maxLen: nat) returns (i: nat)
    requires Compile(r).Ok? && MaskIndex(k) && items != []
    requires Clauses(r)[k] == MaskClause(items, TableFor(k + 1), maxLen)
    ensures i < |Compile(r).value| && TellsItems(Views(RawsOf(Compile(r).value))[i], k + 1, items)
  {
    var slots, comps := Slots(r, Family(r).value), Compile(r).value;
    MergedSlotOk(slots, k);
    var c := slots[k].value[0];
    MergeHas(slots, k, c);
    i :| 0 <= i < |comps| && comps[i] == c;
    GotTellsItems(k + 1, |CompBytes(c)|, items, maxLen);
  }

  /** Whatever flags a rule names, under either of its bitmask fields, a reader of the encoded octets
      finds exactly the bits of those names. */
  lemma FlagsOnWire(r: Rule) returns (tcp: nat, fragment: nat)
    requires Encode(r).Ok? && r.Raw() == []
    ensures var got := Decode(Encode(r).value.0, Encode(r).value.1);
            && got.Ok?
            && (r.tcpFlags != [] ==> tcp < |got.value| && TellsItems(got.value[tcp], 9, r.tcpFlags))
            && (r.fragment != [] ==> fragment < |got.value| && TellsItems(got.value[fragment], 12, r.fragment))
  {
    ReadEncoded(r);
    tcp, fragment := 0, 0;
    if r.tcpFlags != [] {
      tcp := MaskFieldOnWire(r, 8, r.tcpFlags, 2);
    }
    if r.fragment != [] {
      fragment := MaskFieldOnWire(r, 11, r.fragment, 1);
    }
  }

  // ---------------------------------------------------------------- a rule on which it fails

  lemma {:induction false} MergeSole(slots: seq<Result<seq<Comp>>>, k: nat, sole: seq<Comp>)
    requires forall i :: 0 <= i < |slots| ==> slots[i] == if i == k then Ok(sole) else Ok([])
    ensures Merge(slots) == Ok(if k < |slots| then sole else [])
  {
    if slots != [] {
      var n := |slots| - 1;
      MergeSole(slots[..n], k, sole);
      var init: seq<Comp>, last: seq<Comp> := if k < n then sole else [], if k == n then sole else [];
      assert Merge(slots[..n]) == Ok(init) && slots[n] == Ok(last);
      assert init + last == if k < |slots| then sole else [];
    }
  }

  /** A single bitmask item that names `syn` twice. */
  const SYN_SYN: seq<BitmaskMatch> := [BitmaskMatch(Names(["syn", "syn"]), false, false)]

  const SYN_SYN_RULE := Rule(None, None, None, [], [], [], [], [], [], SYN_SYN, [], [], [], [], None)

  lemma SynSynFlags()
    ensures OrNames(["syn", "syn"], TCP_FLAG_NAMES) == Ok(2)
    ensures SumNames(["syn", "syn"], TCP_FLAG_BITS) == Some(4)
  {
    var names := ["syn", "syn"];
    assert FindFlag(TCP_FLAG_NAMES, "syn") == Some(1);
    assert names[..1] == ["syn"] && names[..1][..0] == [];
    assert NatBit(2, 1) && !NatBit(0, 1);
  }

  lemma SynSynElements()
    ensures MaskElements(SYN_SYN, TCP_FLAG_NAMES, 2) == Ok([Element(0, 2)])
  {
    SynSynFlags();
    var e := Element(0, 2);
    assert MaskElement(SYN_SYN[0], TCP_FLAG_NAMES, 2) == Ok(e);
    OneMask(SYN_SYN[0], TCP_FLAG_NAMES, 2);
    assert SYN_SYN == [SYN_SYN[0]];
  }

  lemma OneMask(item: BitmaskMatch, table: FlagTable, maxLen: nat)
    requires MaskElement(item, table, maxLen).Ok?
    ensures MaskElements([item], table, maxLen) == Ok([MaskElement(item, table, maxLen).value])
  {
    var e := MaskElement(item, table, maxLen).value;
    assert [item][..0] == [] && [] + [e] == [e];
  }

  lemma SynSynSlot(i: nat)
    requires i < 13
    ensures Slots(SYN_SYN_RULE, false)[i] == if i == 8 then Ok([OpsComp(T_TCP_FLAGS, [Element(0, 2)])]) else Ok([])
  {
    SynSynElements();
    ClauseShape(SYN_SYN_RULE, i);
  }

  lemma SynSynEncodes()
    ensures Encode(SYN_SYN_RULE).Ok?
  {
    var sole := OpsComp(T_TCP_FLAGS, [Element(0, 2)]);
    forall i | 0 <= i < 13
      ensures Slots(SYN_SYN_RULE, false)[i] == if i == 8 then Ok([sole]) else Ok([])
    {
      SynSynSlot(i);
    }
    MergeSole(Slots(SYN_SYN_RULE, false), 8, [sole]);
    SerializeOne(sole);
    assert [Element(0, 2)][..0] == [];
  }

  /** The comparison is not always right: this rule encodes, and the checker rejects its bytes. */
  lemma RepeatedFlagFailsComparison()
    ensures Encode(SYN_SYN_RULE).Ok? && SYN_SYN_RULE.Raw() == []
    ensures var got, want := Decode(Encode(SYN_SYN_RULE).value.0, false), Expected(SYN_SYN_RULE);
            got.Ok? && want.Some? && !ComparisonPasses(got.value, want.value)
  {
    SynSynEncodes();
    RoundTrip(SYN_SYN_RULE);
    var names := SYN_SYN[0].flags.names;
    assert names[0] == names[1];
  }
}
