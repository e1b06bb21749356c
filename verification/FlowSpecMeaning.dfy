/** What FlowSpec rules and decoded component lists say about packets (RFC 8955 sections 4.2.1.1
    and 4.2.1.2), and the proof that compiling and decoding a rule keeps its meaning. */
module FlowSpecMeaning {
  import opened Bytes
  import opened FlowSpec
  import opened FlowSpecReaders
  import opened FlowSpecWire

  /** A packet: its addresses, and per header field the values it has there, none if it lacks the field. */
  datatype Packet = Packet(
    dst: seq<byte>, src: seq<byte>, protocol: set<nat>, srcPort: set<nat>, dstPort: set<nat>,
    icmpType: set<nat>, icmpCode: set<nat>, tcpFlags: set<nat>, length: set<nat>, dscp: set<nat>,
    fragment: set<nat>, flowLabel: set<nat>)
  {
    /** The values a component type looks at; type 4 looks at either port. */
    function Values(t: byte): set<nat> {
      if t == 3 then protocol else if t == 4 then srcPort + dstPort else if t == 5 then dstPort
      else if t == 6 then srcPort else if t == 7 then icmpType else if t == 8 then icmpCode
      else if t == 9 then tcpFlags else if t == 10 then length else if t == 11 then dscp
      else if t == 12 then fragment else if t == 13 then flowLabel else {}
    }

    function Address(t: byte): seq<byte> { if t == 1 then dst else src }
  }

  // ---------------------------------------------------------------- operator lists

  /** One operator applied to a value: its AND bit and whether it holds. */
  datatype Term = Term(and: bool, holds: bool)

  /** From index i on, every term up to the next one without the AND bit holds. */
  predicate RunHolds(ts: seq<Term>, i: nat)
    requires i < |ts|
    decreases |ts| - i
  {
    ts[i].holds && (i + 1 < |ts| && ts[i + 1].and ==> RunHolds(ts, i + 1))
  }

  /** AND binds tighter than OR, and the AND bit of the first operator is ignored: some
      maximal AND-connected run holds. */
  ghost predicate Eval(ts: seq<Term>) {
    exists i :: 0 <= i < |ts| && (i == 0 || !ts[i].and) && RunHolds(ts, i)
  }

  /** The lt, gt and eq bits of a numeric operator. */
  predicate Compare(cmp: nat, x: nat, v: nat) {
    (cmp / 4 % 2 == 1 && x < v) || (cmp / 2 % 2 == 1 && x > v) || (cmp % 2 == 1 && x == v)
  }

  function BitAnd(x: nat, m: nat): nat {
    if m == 0 then 0 else 2 * BitAnd(x / 2, m / 2) + (if m % 2 == 1 then x % 2 else 0)
  }

  /** The match and not bits of a bitmask operator. */
  predicate MaskCompare(exact: bool, negate: bool, x: nat, flags: nat) {
    (if exact then BitAnd(x, flags) == flags else BitAnd(x, flags) != 0) != negate
  }

  function NumericTerms(terms: seq<NumericTerm>, x: nat): (ts: seq<Term>) {
    seq(|terms|, i requires 0 <= i < |terms| => Term(terms[i].and, Compare(terms[i].cmp, x, terms[i].value)))
  }

  function MaskTerms(masks: seq<MaskTerm>, x: nat): (ts: seq<Term>) {
    seq(|masks|, i requires 0 <= i < |masks| =>
      Term(masks[i].and, MaskCompare(masks[i].exact, masks[i].negate, x, masks[i].flags)))
  }

  ghost predicate InNetwork(a: seq<byte>, addr: seq<byte>, bits: nat) {
    SameNetwork(a, addr, bits)
  }

  ghost predicate ComponentMatches(c: Component, p: Packet) {
    match c
    case Network(t, addr, bits) => InNetwork(p.Address(t), addr, bits)
    case Numeric(t, terms) => exists x <- p.Values(t) :: Eval(NumericTerms(terms, x))
    case Bitmask(t, masks) => exists x <- p.Values(t) :: Eval(MaskTerms(masks, x))
  }

  /** A component list matches when all its components do. */
  ghost predicate ListMatches(cs: seq<Component>, p: Packet) {
    forall i :: 0 <= i < |cs| ==> ComponentMatches(cs[i], p)
  }

  // ---------------------------------------------------------------- rules

  /** A list item constrains a value by each operator it carries. */
  predicate ItemMeans(item: NumericMatch, x: nat) {
    match item
    case Value(v) => x == v
    case Op(op) =>
      && (op.eq.Some? ==> x == op.eq.value)
      && (op.lt.Some? ==> x < op.lt.value)
      && (op.le.Some? ==> x <= op.le.value)
      && (op.gt.Some? ==> x > op.gt.value)
      && (op.ge.Some? ==> x >= op.ge.value)
      && (op.range.Some? ==> op.range.value.0 <= x <= op.range.value.1)
  }

  ghost predicate SomeItemMeans(items: seq<NumericMatch>, x: nat) {
    exists k :: 0 <= k < |items| && ItemMeans(items[k], x)
  }

  ghost predicate AllSet(x: nat, flags: nat) {
    forall i: nat :: NatBit(flags, i) ==> NatBit(x, i)
  }

  ghost predicate AnySet(x: nat, flags: nat) {
    exists i: nat :: NatBit(flags, i) && NatBit(x, i)
  }

  /** A flag is set in a value: the flag's own bit is. */
  predicate HasFlag(x: nat, flag: nat) { flag > 0 && x / flag % 2 == 1 }

  ghost predicate AllNamed(x: nat, t: nat, names: seq<string>) {
    forall k :: 0 <= k < |names| ==> names[k] in FlagBits(t) && HasFlag(x, FlagBits(t)[names[k]])
  }

  ghost predicate AnyNamed(x: nat, t: nat, names: seq<string>) {
    exists k :: 0 <= k < |names| && names[k] in FlagBits(t) && HasFlag(x, FlagBits(t)[names[k]])
  }

  predicate AllKnown(t: nat, names: seq<string>) {
    forall k :: 0 <= k < |names| ==> names[k] in FlagBits(t)
  }

  /** A bitmask item asks for all, or for at least one, of its flags, which are numbered or named;
      `negate` inverts it. */
  ghost predicate MaskMeans(item: BitmaskMatch, t: nat, x: nat) {
    match item.flags
    case Num(n) => (if item.exact then AllSet(x, n) else AnySet(x, n)) != item.negate
    case Names(names) =>
      AllKnown(t, names) && (if item.exact then AllNamed(x, t, names) else AnyNamed(x, t, names)) != item.negate
  }

  ghost predicate SomeMaskMeans(items: seq<BitmaskMatch>, t: nat, x: nat) {
    exists k :: 0 <= k < |items| && MaskMeans(items[k], t, x)
  }

  ghost predicate NumericMatches(items: seq<NumericMatch>, values: set<nat>) {
    items != [] ==> exists x <- values :: SomeItemMeans(items, x)
  }

  ghost predicate MaskMatches(t: nat, items: seq<BitmaskMatch>, values: set<nat>) {
    items != [] ==> exists x <- values :: SomeMaskMeans(items, t, x)
  }

  ghost predicate PrefixMatches(net: Option<Prefix>, address: seq<byte>) {
    net.Some? ==> InNetwork(address, net.value.addr, net.value.bits)
  }

  /** The meaning the rule was written with: each of its fields that says something accepts the packet. */
  ghost predicate RuleMatches(r: Rule, p: Packet) {
    && PrefixMatches(r.dstPrefix, p.dst) && PrefixMatches(r.srcPrefix, p.src)
    && NumericMatches(r.protocol, p.protocol)
    && NumericMatches(r.port, p.srcPort + p.dstPort)
    && NumericMatches(r.dstPort, p.dstPort) && NumericMatches(r.srcPort, p.srcPort)
    && NumericMatches(r.icmpType, p.icmpType) && NumericMatches(r.icmpCode, p.icmpCode)
    && MaskMatches(9, r.tcpFlags, p.tcpFlags)
    && NumericMatches(r.packetLength, p.length) && NumericMatches(r.dscp, p.dscp)
    && MaskMatches(12, r.fragment, p.fragment)
    && NumericMatches(r.flowLabel, p.flowLabel)
  }

  ghost predicate ClauseMatches(t: byte, c: Clause, p: Packet) {
    match c
    case NetClause(net) => PrefixMatches(net, p.Address(t))
    case NumClause(items) => NumericMatches(items, p.Values(t))
    case MaskClause(masks, _, _) => MaskMatches(t, masks, p.Values(t))
  }

  ghost predicate ClauseAccepts(r: Rule, p: Packet, k: nat)
    requires k < 13
  {
    ClauseMatches(k + 1, Clauses(r)[k], p)
  }

  lemma LowClauses(r: Rule, p: Packet)
    ensures ClauseAccepts(r, p, 0) <==> PrefixMatches(r.dstPrefix, p.dst)
    ensures ClauseAccepts(r, p, 1) <==> PrefixMatches(r.srcPrefix, p.src)
    ensures ClauseAccepts(r, p, 2) <==> NumericMatches(r.protocol, p.protocol)
    ensures ClauseAccepts(r, p, 3) <==> NumericMatches(r.port, p.srcPort + p.dstPort)
    ensures ClauseAccepts(r, p, 4) <==> NumericMatches(r.dstPort, p.dstPort)
    ensures ClauseAccepts(r, p, 5) <==> NumericMatches(r.srcPort, p.srcPort)
    ensures ClauseAccepts(r, p, 6) <==> NumericMatches(r.icmpType, p.icmpType)
  {
  }

  lemma HighClauses(r: Rule, p: Packet)
    ensures ClauseAccepts(r, p, 7) <==> NumericMatches(r.icmpCode, p.icmpCode)
    ensures ClauseAccepts(r, p, 8) <==> MaskMatches(9, r.tcpFlags, p.tcpFlags)
    ensures ClauseAccepts(r, p, 9) <==> NumericMatches(r.packetLength, p.length)
    ensures ClauseAccepts(r, p, 10) <==> NumericMatches(r.dscp, p.dscp)
    ensures ClauseAccepts(r, p, 11) <==> MaskMatches(12, r.fragment, p.fragment)
    ensures ClauseAccepts(r, p, 12) <==> NumericMatches(r.flowLabel, p.flowLabel)
  {
  }

  lemma RuleIsClauses(r: Rule, p: Packet)
    ensures RuleMatches(r, p) <==> forall k :: 0 <= k < 13 ==> ClauseAccepts(r, p, k)
  {
    LowClauses(r, p);
    HighClauses(r, p);
    if forall k :: 0 <= k < 13 ==> ClauseAccepts(r, p, k) {
      assert ClauseAccepts(r, p, 0) && ClauseAccepts(r, p, 1) && ClauseAccepts(r, p, 2) && ClauseAccepts(r, p, 3);
      assert ClauseAccepts(r, p, 4) && ClauseAccepts(r, p, 5) && ClauseAccepts(r, p, 6) && ClauseAccepts(r, p, 7);
      assert ClauseAccepts(r, p, 8) && ClauseAccepts(r, p, 9) && ClauseAccepts(r, p, 10) && ClauseAccepts(r, p, 11);
      assert ClauseAccepts(r, p, 12);
    }
  }

  // ---------------------------------------------------------------- evaluating concatenated lists

  lemma {:induction false} RunHoldsLeft(a: seq<Term>, b: seq<Term>, i: nat)
    requires i < |a| && (b == [] || !b[0].and)
    ensures RunHolds(a + b, i) == RunHolds(a, i)
    decreases |a| - i
  {
    if i + 1 < |a| {
      RunHoldsLeft(a, b, i + 1);
    }
  }

  lemma {:induction false} RunHoldsRight(a: seq<Term>, b: seq<Term>, i: nat)
    requires i < |b|
    ensures RunHolds(a + b, |a| + i) == RunHolds(b, i)
    decreases |b| - i
  {
    if i + 1 < |b| {
      RunHoldsRight(a, b, i + 1);
    }
  }

  /** Lists are ORed when the second one opens a new run. */
  lemma EvalConcat(a: seq<Term>, b: seq<Term>)
    requires b == [] || !b[0].and
    ensures Eval(a + b) <==> Eval(a) || Eval(b)
  {
    if Eval(a + b) {
      var i :| 0 <= i < |a + b| && (i == 0 || !(a + b)[i].and) && RunHolds(a + b, i);
      if i < |a| {
        RunHoldsLeft(a, b, i);
        assert Eval(a);
      } else {
        RunHoldsRight(a, b, i - |a|);
        assert Eval(b);
      }
    }
    if Eval(a) {
      var i :| 0 <= i < |a| && (i == 0 || !a[i].and) && RunHolds(a, i);
      RunHoldsLeft(a, b, i);
      assert (a + b)[i] == a[i];
    }
    if Eval(b) {
      var i :| 0 <= i < |b| && (i == 0 || !b[i].and) && RunHolds(b, i);
      RunHoldsRight(a, b, i);
      assert (a + b)[|a| + i] == b[i];
    }
  }

  lemma EvalOne(t: Term)
    ensures Eval([t]) <==> t.holds
  {
    if t.holds {
      assert RunHolds([t], 0);
    }
  }

  lemma EvalPair(t: Term, u: Term)
    requires u.and
    ensures Eval([t, u]) <==> t.holds && u.holds
  {
    var ts := [t, u];
    assert RunHolds(ts, 1) == u.holds;
    assert RunHolds(ts, 0) == (t.holds && u.holds);
    if Eval(ts) {
      var i :| 0 <= i < |ts| && (i == 0 || !ts[i].and) && RunHolds(ts, i);
      assert i == 0;
    }
  }

  // ---------------------------------------------------------------- numeric lists

  function ElementTerm(e: Element, x: nat): Term {
    Term(e.bits >= OP_AND, Compare(e.bits % 8, x, e.value))
  }

  function ElementTerms(els: seq<Element>, x: nat): (ts: seq<Term>) {
    seq(|els|, i requires 0 <= i < |els| => ElementTerm(els[i], x))
  }

  lemma OneOperator(op: NumericOp, x: nat)
    requires ItemElements(Op(op)).Ok? && op.range.None?
    ensures exists e :: OpElements(op) == [e] && (ElementTerm(e, x).holds <==> ItemMeans(Op(op), x))
  {
    var els := OpElements(op);
    assert els == [els[0]];
    if op.eq.Some? {
      assert els[0] == Element(OP_EQ, op.eq.value);
    } else if op.lt.Some? {
      assert els[0] == Element(OP_LT, op.lt.value);
    } else if op.le.Some? {
      assert els[0] == Element(OP_LT + OP_EQ, op.le.value);
    } else if op.gt.Some? {
      assert els[0] == Element(OP_GT, op.gt.value);
    } else {
      assert els[0] == Element(OP_GT + OP_EQ, op.ge.value);
    }
  }

  lemma ItemMeaning(item: NumericMatch, x: nat)
    requires ItemElements(item).Ok?
    ensures Eval(ElementTerms(ItemElements(item).value, x)) <==> ItemMeans(item, x)
  {
    var els := ItemElements(item).value;
    if item.Op? && item.op.range.Some? {
      var (a, b) := item.op.range.value;
      assert els == [Element(OP_GT + OP_EQ, a), Element(OP_AND + OP_LT + OP_EQ, b)];
      assert ElementTerms(els, x) == [Term(false, x >= a), Term(true, x <= b)];
      EvalPair(Term(false, x >= a), Term(true, x <= b));
    } else if item.Op? {
      OneOperator(item.op, x);
      assert ElementTerms(els, x) == [ElementTerm(els[0], x)];
      EvalOne(ElementTerm(els[0], x));
    } else {
      assert ElementTerms(els, x) == [ElementTerm(els[0], x)];
      EvalOne(ElementTerm(els[0], x));
    }
  }

  lemma AppendedElements(init: seq<Element>, last: seq<Element>, x: nat)
    requires last == [] || last[0].bits < OP_AND
    ensures Eval(ElementTerms(init + last, x)) <==> Eval(ElementTerms(init, x)) || Eval(ElementTerms(last, x))
  {
    assert ElementTerms(init + last, x) == ElementTerms(init, x) + ElementTerms(last, x);
    EvalConcat(ElementTerms(init, x), ElementTerms(last, x));
  }

  lemma SomeItemSnoc(items: seq<NumericMatch>, x: nat)
    requires items != []
    ensures SomeItemMeans(items, x) <==>
            SomeItemMeans(items[..|items| - 1], x) || ItemMeans(items[|items| - 1], x)
  {
    var init := items[..|items| - 1];
    if k :| 0 <= k < |init| && ItemMeans(init[k], x) {
      assert items[k] == init[k];
    }
  }

  /** The emitted {op, value} list means the disjunction of what the items say. */
  lemma {:induction false} NumericListMeaning(items: seq<NumericMatch>, x: nat)
    requires ListElements(items).Ok?
    ensures Eval(ElementTerms(ListElements(items).value, x)) <==> SomeItemMeans(items, x)
  {
    if items != [] {
      var n := |items| - 1;
      NumericListMeaning(items[..n], x);
      ItemMeaning(items[n], x);
      AppendedElements(ListElements(items[..n]).value, ItemElements(items[n]).value, x);
      SomeItemSnoc(items, x);
    }
  }

  /** A range whose bounds are reversed matches nothing. */
  lemma ReversedRangeMatchesNothing(a: u64, b: u64, x: nat)
    requires a > b
    ensures var item := Op(NumericOp(None, None, None, None, None, Some((a, b))));
            ItemElements(item).Ok? && !Eval(ElementTerms(ItemElements(item).value, x))
  {
    ItemMeaning(Op(NumericOp(None, None, None, None, None, Some((a, b)))), x);
  }

  // ---------------------------------------------------------------- bitmask lists

  lemma BitAndAtMost(x: nat, m: nat)
    ensures BitAnd(x, m) <= m
  {
  }

  /** The arithmetic test of the match bit: all flags are set. */
  lemma {:induction false} AllFlagsSet(x: nat, m: nat)
    ensures BitAnd(x, m) == m <==> AllSet(x, m)
  {
    if m == 0 {
      forall i: nat ensures !NatBit(0, i) { ZeroHasNoBits(i); }
    } else {
      AllFlagsSet(x / 2, m / 2);
      assert BitAnd(x, m) == 2 * BitAnd(x / 2, m / 2) + (if m % 2 == 1 then x % 2 else 0);
      BitAndAtMost(x / 2, m / 2);
      if BitAnd(x, m) == m {
        forall i: nat | NatBit(m, i)
          ensures NatBit(x, i)
        {
          if i > 0 { assert NatBit(m / 2, i - 1); }
        }
      }
      if AllSet(x, m) {
        assert NatBit(m, 0) ==> NatBit(x, 0);
        forall i: nat | NatBit(m / 2, i)
          ensures NatBit(x / 2, i)
        {
          assert NatBit(m, i + 1);
        }
      }
    }
  }

  lemma {:induction false} ZeroHasNoBits(i: nat)
    ensures !NatBit(0, i)
  {
    if i > 0 { ZeroHasNoBits(i - 1); }
  }

  /** The arithmetic test without the match bit: at least one flag is set. */
  lemma {:induction false} AnyFlagSet(x: nat, m: nat)
    ensures BitAnd(x, m) != 0 <==> AnySet(x, m)
  {
    if m == 0 {
      forall i: nat ensures !NatBit(0, i) { ZeroHasNoBits(i); }
    } else {
      AnyFlagSet(x / 2, m / 2);
      assert BitAnd(x, m) == 2 * BitAnd(x / 2, m / 2) + (if m % 2 == 1 then x % 2 else 0);
      if BitAnd(x, m) != 0 {
        if BitAnd(x / 2, m / 2) != 0 {
          var i: nat :| NatBit(m / 2, i) && NatBit(x / 2, i);
          assert NatBit(m, i + 1) && NatBit(x, i + 1);
        } else {
          assert NatBit(m, 0) && NatBit(x, 0);
        }
      }
      if AnySet(x, m) {
        var i: nat :| NatBit(m, i) && NatBit(x, i);
        if i == 0 {
          assert m % 2 == 1 && x % 2 == 1;
        } else {
          assert NatBit(m / 2, i - 1) && NatBit(x / 2, i - 1);
        }
      }
    }
  }

  // ---------------------------------------------------------------- flag names

  /** Bit i of a number is the flag of weight two to the i. */
  lemma {:induction false} BitIsFlag(x: nat, i: nat)
    ensures NatBit(x, i) <==> HasFlag(x, Pow2(i))
  {
    if i > 0 {
      var p := Pow2(i - 1);
      var q, r := x / 2 / p, x / 2 % p;
      BitIsFlag(x / 2, i - 1);
      MulAssoc(2, p, q);
      assert x == 2 * (p * q + r) + x % 2;
      DivModUnique(x, 2 * p, q, 2 * r + x % 2);
    } else {
      assert Pow2(0) == 1;
    }
  }

  lemma TcpFlagBit(i: nat)
    requires i < 8
    ensures TCP_FLAG_NAMES[i] in TCP_FLAG_BITS && TCP_FLAG_BITS[TCP_FLAG_NAMES[i]] == Pow2(i)
  {
    Pow2Small(i);
  }

  lemma FragmentFlagBit(i: nat)
    requires i < 4
    ensures FRAGMENT_FLAG_NAMES[i] in FRAGMENT_BITS && FRAGMENT_BITS[FRAGMENT_FLAG_NAMES[i]] == Pow2(i)
  {
    Pow2Small(i);
  }

  /** The encoder's lookup against the bits of the standards: the names it knows are theirs, and the
      position it finds is the bit of that name. */
  lemma FlagFound(t: nat, name: string)
    requires t == 9 || t == 12
    ensures FindFlag(TableFor(t), name).Some? <==> name in FlagBits(t)
    ensures name in FlagBits(t) ==> FlagBits(t)[name] == Pow2(FindFlag(TableFor(t), name).value)
  {
    var found := FindFlag(TableFor(t), name);
    if found.Some? {
      if t == 9 { TcpFlagBit(found.value); } else { FragmentFlagBit(found.value); }
    } else if t == 9 {
      assert forall i :: 0 <= i < 8 ==> TCP_FLAG_NAMES[i] != name;
      assert name != TCP_FLAG_NAMES[0] && name != TCP_FLAG_NAMES[1] && name != TCP_FLAG_NAMES[2];
      assert name != TCP_FLAG_NAMES[3] && name != TCP_FLAG_NAMES[4] && name != TCP_FLAG_NAMES[5];
      assert name != TCP_FLAG_NAMES[6] && name != TCP_FLAG_NAMES[7];
    } else {
      assert name != FRAGMENT_FLAG_NAMES[0] && name != FRAGMENT_FLAG_NAMES[1];
      assert name != FRAGMENT_FLAG_NAMES[2] && name != FRAGMENT_FLAG_NAMES[3];
    }
  }

  ghost predicate Finds(names: seq<string>, table: FlagTable, i: nat) {
    exists k :: 0 <= k < |names| && FindFlag(table, names[k]) == Some(i)
  }

  lemma FindsSnoc(names: seq<string>, table: FlagTable, i: nat)
    requires names != []
    ensures Finds(names, table, i) <==>
            Finds(names[..|names| - 1], table, i) || FindFlag(table, names[|names| - 1]) == Some(i)
  {
    var init := names[..|names| - 1];
    if k :| 0 <= k < |init| && FindFlag(table, init[k]) == Some(i) {
      assert names[k] == init[k];
    }
  }

  /** A bit of the OR is set exactly when one of the names stands for it. */
  lemma {:induction false} OrBits(names: seq<string>, table: FlagTable, i: nat)
    requires OrNames(names, table).Ok?
    ensures NatBit(OrNames(names, table).value, i) <==> Finds(names, table, i)
  {
    if names == [] {
      ZeroHasNoBits(i);
    } else {
      var n := |names| - 1;
      OrBits(names[..n], table, i);
      FindsSnoc(names, table, i);
      var acc, j := OrNames(names[..n], table).value, FindFlag(table, names[n]).value;
      if !NatBit(acc, j) {
        SetClearBit(acc, j, i);
      }
    }
  }

  lemma KnownSnoc(t: nat, names: seq<string>)
    requires names != []
    ensures AllKnown(t, names) <==> AllKnown(t, names[..|names| - 1]) && names[|names| - 1] in FlagBits(t)
  {
    assert forall k :: 0 <= k < |names| - 1 ==> names[..|names| - 1][k] == names[k];
  }

  lemma OrOkSnoc(names: seq<string>, table: FlagTable)
    requires names != []
    ensures OrNames(names, table).Ok? <==>
            OrNames(names[..|names| - 1], table).Ok? && FindFlag(table, names[|names| - 1]).Some?
  {
  }

  lemma {:induction false} OrOkIff(names: seq<string>, t: nat)
    requires t == 9 || t == 12
    ensures OrNames(names, TableFor(t)).Ok? <==> AllKnown(t, names)
  {
    if names != [] {
      OrOkIff(names[..|names| - 1], t);
      FlagFound(t, names[|names| - 1]);
      KnownSnoc(t, names);
      OrOkSnoc(names, TableFor(t));
    }
  }

  /** The flag of weight w is among the names. */
  ghost predicate NamesFlag(names: seq<string>, t: nat, w: nat) {
    exists k :: 0 <= k < |names| && names[k] in FlagBits(t) && FlagBits(t)[names[k]] == w
  }

  lemma SameWeight(i: nat, j: nat)
    requires i < 8 && j < 8 && Pow2(i) == Pow2(j)
    ensures i == j
  {
    Pow2Small(i);
    Pow2Small(j);
  }

  lemma FoundIsNamed(t: nat, name: string, i: nat)
    requires (t == 9 || t == 12) && i < 8
    ensures FindFlag(TableFor(t), name) == Some(i) <==> name in FlagBits(t) && FlagBits(t)[name] == Pow2(i)
  {
    FlagFound(t, name);
    if name in FlagBits(t) && FlagBits(t)[name] == Pow2(i) {
      SameWeight(i, FindFlag(TableFor(t), name).value);
    }
  }

  lemma FindsIsNames(names: seq<string>, t: nat, i: nat)
    requires (t == 9 || t == 12) && i < 8
    ensures Finds(names, TableFor(t), i) <==> NamesFlag(names, t, Pow2(i))
  {
    forall k | 0 <= k < |names|
      ensures FindFlag(TableFor(t), names[k]) == Some(i) <==> names[k] in FlagBits(t) && FlagBits(t)[names[k]] == Pow2(i)
    {
      FoundIsNamed(t, names[k], i);
    }
  }

  /** From names to a mask: a list of names resolves exactly when the standards know them all, and then
      to one octet in which each of the eight bits is set exactly when the list has the name of that bit. */
  lemma NamesToMask(t: nat, names: seq<string>)
    requires t == 9 || t == 12
    ensures var mask := ResolveFlags(Names(names), TableFor(t));
            && (mask.Ok? <==> forall k :: 0 <= k < |names| ==> names[k] in FlagBits(t))
            && (mask.Ok? ==> mask.value < 0x100 && forall w <- [0x01, 0x02, 0x04, 0x08, 0x10, 0x20, 0x40, 0x80] ::
                               HasFlag(mask.value, w) <==> NamesFlag(names, t, w))
  {
    OrOkIff(names, t);
    if OrNames(names, TableFor(t)).Ok? {
      FlagsFit(names, TableFor(t));
      var mask := OrNames(names, TableFor(t)).value;
      forall w | w in [0x01, 0x02, 0x04, 0x08, 0x10, 0x20, 0x40, 0x80]
        ensures HasFlag(mask, w) <==> NamesFlag(names, t, w)
      {
        var i :| 0 <= i < 8 && w == [0x01, 0x02, 0x04, 0x08, 0x10, 0x20, 0x40, 0x80][i];
        Pow2Small(i);
        OrBits(names, TableFor(t), i);
        BitIsFlag(mask, i);
        FindsIsNames(names, t, i);
      }
    }
  }

  lemma FoundBit(t: nat, name: string, x: nat)
    requires (t == 9 || t == 12) && name in FlagBits(t)
    ensures NatBit(x, FindFlag(TableFor(t), name).value) <==> HasFlag(x, FlagBits(t)[name])
  {
    FlagFound(t, name);
    BitIsFlag(x, FindFlag(TableFor(t), name).value);
  }

  /** All flags of a resolved list of names are set exactly when each of the names is. */
  lemma NamedAllSet(x: nat, t: nat, names: seq<string>)
    requires (t == 9 || t == 12) && OrNames(names, TableFor(t)).Ok?
    ensures AllSet(x, OrNames(names, TableFor(t)).value) <==> AllNamed(x, t, names)
  {
    var table, flags := TableFor(t), OrNames(names, TableFor(t)).value;
    OrOkIff(names, t);
    if AllSet(x, flags) {
      forall k | 0 <= k < |names|
        ensures HasFlag(x, FlagBits(t)[names[k]])
      {
        FlagFound(t, names[k]);
        OrBits(names, table, FindFlag(table, names[k]).value);
        FoundBit(t, names[k], x);
      }
    }
    if AllNamed(x, t, names) {
      forall i: nat | NatBit(flags, i)
        ensures NatBit(x, i)
      {
        OrBits(names, table, i);
        var k :| 0 <= k < |names| && FindFlag(table, names[k]) == Some(i);
        FoundBit(t, names[k], x);
      }
    }
  }

  lemma NamedAnySet(x: nat, t: nat, names: seq<string>)
    requires (t == 9 || t == 12) && OrNames(names, TableFor(t)).Ok?
    ensures AnySet(x, OrNames(names, TableFor(t)).value) <==> AnyNamed(x, t, names)
  {
    var table, flags := TableFor(t), OrNames(names, TableFor(t)).value;
    OrOkIff(names, t);
    if AnySet(x, flags) {
      var i: nat :| NatBit(flags, i) && NatBit(x, i);
      OrBits(names, table, i);
      var k :| 0 <= k < |names| && FindFlag(table, names[k]) == Some(i);
      FoundBit(t, names[k], x);
      assert names[k] in FlagBits(t) && HasFlag(x, FlagBits(t)[names[k]]);
    }
    if AnyNamed(x, t, names) {
      var k :| 0 <= k < |names| && names[k] in FlagBits(t) && HasFlag(x, FlagBits(t)[names[k]]);
      FlagFound(t, names[k]);
      var i: nat := FindFlag(table, names[k]).value;
      OrBits(names, table, i);
      FoundBit(t, names[k], x);
      assert NatBit(flags, i) && NatBit(x, i);
    }
  }

  function MaskElementTerm(e: Element, x: nat): Term {
    Term(e.bits >= OP_AND, MaskCompare(e.bits % 2 == 1, e.bits / 2 % 2 == 1, x, e.value))
  }

  function MaskElementTerms(els: seq<Element>, x: nat): (ts: seq<Term>) {
    seq(|els|, i requires 0 <= i < |els| => MaskElementTerm(els[i], x))
  }

  lemma MaskTermHolds(item: BitmaskMatch, table: FlagTable, maxLen: nat, x: nat)
    requires MaskElement(item, table, maxLen).Ok?
    ensures var t := MaskElementTerm(MaskElement(item, table, maxLen).value, x);
            var flags := ResolveFlags(item.flags, table).value;
            !t.and && (t.holds <==> (if item.exact then AllSet(x, flags) else AnySet(x, flags)) != item.negate)
  {
    var flags := ResolveFlags(item.flags, table).value;
    var e := MaskElement(item, table, maxLen).value;
    assert (e.bits % 2 == 1 <==> item.exact) && (e.bits / 2 % 2 == 1 <==> item.negate);
    AllFlagsSet(x, flags);
    AnyFlagSet(x, flags);
  }

  lemma MaskItemMeaning(item: BitmaskMatch, t: nat, maxLen: nat, x: nat)
    requires (t == 9 || t == 12) && MaskElement(item, TableFor(t), maxLen).Ok?
    ensures var term := MaskElementTerm(MaskElement(item, TableFor(t), maxLen).value, x);
            !term.and && (term.holds <==> MaskMeans(item, t, x))
  {
    MaskTermHolds(item, TableFor(t), maxLen, x);
    if item.flags.Names? {
      OrOkIff(item.flags.names, t);
      NamedAllSet(x, t, item.flags.names);
      NamedAnySet(x, t, item.flags.names);
    }
  }

  lemma SomeMaskSnoc(items: seq<BitmaskMatch>, t: nat, x: nat)
    requires items != []
    ensures SomeMaskMeans(items, t, x) <==>
            SomeMaskMeans(items[..|items| - 1], t, x) || MaskMeans(items[|items| - 1], t, x)
  {
    var init := items[..|items| - 1];
    if k :| 0 <= k < |init| && MaskMeans(init[k], t, x) {
      assert items[k] == init[k];
    }
  }

  lemma {:induction false} MaskListMeaning(items: seq<BitmaskMatch>, t: nat, maxLen: nat, x: nat)
    requires (t == 9 || t == 12) && MaskElements(items, TableFor(t), maxLen).Ok?
    ensures Eval(MaskElementTerms(MaskElements(items, TableFor(t), maxLen).value, x)) <==>
            SomeMaskMeans(items, t, x)
  {
    if items != [] {
      var n, table := |items| - 1, TableFor(t);
      var init, last := MaskElements(items[..n], table, maxLen).value, MaskElement(items[n], table, maxLen).value;
      MaskListMeaning(items[..n], t, maxLen, x);
      MaskItemMeaning(items[n], t, maxLen, x);
      var term := MaskElementTerm(last, x);
      assert MaskElementTerms(init + [last], x) == MaskElementTerms(init, x) + [term];
      EvalConcat(MaskElementTerms(init, x), [term]);
      EvalOne(term);
      SomeMaskSnoc(items, t, x);
    }
  }

  // ---------------------------------------------------------------- compiled components

  lemma {:induction false} RawOpsAt(els: seq<Element>, i: nat)
    requires i < |els|
    ensures RawOpsOf(els)[i] == RawOp(OpOctet(i + 1 == |els|, els[i]), els[i].value)
  {
    if i > 0 {
      RawOpsAt(els[1..], i - 1);
    }
  }

  /** What the decoded form of a compiled component says about a packet. */
  ghost predicate CompMatches(c: Comp, p: Packet) {
    ComponentMatches(View(RawOf(c)), p)
  }

  lemma ViewTerm(els: seq<Element>, i: nat, x: nat)
    requires i < |els|
    ensures var n := NumericView(RawOpsOf(els)[i]);
            Term(n.and, Compare(n.cmp, x, n.value)) == ElementTerm(els[i], x)
    ensures var m := MaskView(RawOpsOf(els)[i]);
            Term(m.and, MaskCompare(m.exact, m.negate, x, m.flags)) == MaskElementTerm(els[i], x)
  {
    RawOpsAt(els, i);
    OctetFields(i + 1 == |els|, els[i]);
    LowNibble(OpOctet(i + 1 == |els|, els[i]));
    LowNibble(els[i].bits);
  }

  lemma LowNibble(op: nat)
    ensures op % 8 == op % 0x10 % 8 && op / 2 % 2 == op % 0x10 / 2 % 2 && op % 2 == op % 0x10 % 2
  {
    var q, n := op / 0x10, op % 0x10;
    DivModUnique(op, 8, 2 * q + n / 8, n % 8);
    DivModUnique(op, 2, 8 * q + n / 2, n % 2);
    DivModUnique(op / 2, 2, 4 * q + n / 2 / 2, n / 2 % 2);
  }

  lemma NumericViewTerms(t: byte, size: nat, els: seq<Element>, x: nat)
    requires !IsMaskType(t)
    ensures NumericTerms(View(RawList(t, size, RawOpsOf(els))).terms, x) == ElementTerms(els, x)
  {
    var terms := View(RawList(t, size, RawOpsOf(els))).terms;
    forall i | 0 <= i < |els|
      ensures NumericTerms(terms, x)[i] == ElementTerms(els, x)[i]
    {
      assert terms[i] == NumericView(RawOpsOf(els)[i]);
      ViewTerm(els, i, x);
    }
  }

  lemma MaskViewTerms(t: byte, size: nat, els: seq<Element>, x: nat)
    requires IsMaskType(t)
    ensures MaskTerms(View(RawList(t, size, RawOpsOf(els))).masks, x) == MaskElementTerms(els, x)
  {
    var masks := View(RawList(t, size, RawOpsOf(els))).masks;
    forall i | 0 <= i < |els|
      ensures MaskTerms(masks, x)[i] == MaskElementTerms(els, x)[i]
    {
      assert masks[i] == MaskView(RawOpsOf(els)[i]);
      ViewTerm(els, i, x);
    }
  }

  ghost predicate SlotMatches(slot: Result<seq<Comp>>, p: Packet) {
    slot.Ok? && forall c <- slot.value :: CompMatches(c, p)
  }

  lemma NumSlotMeaning(t: byte, items: seq<NumericMatch>, p: Packet)
    requires NumSlot(t, items).Ok? && !IsMaskType(t)
    ensures SlotMatches(NumSlot(t, items), p) <==> NumericMatches(items, p.Values(t))
  {
    if items != [] {
      var els := ListElements(items).value;
      forall x: nat
        ensures Eval(NumericTerms(View(RawOf(OpsComp(t, els))).terms, x)) <==>
                SomeItemMeans(items, x)
      {
        NumericViewTerms(t, |CompBytes(OpsComp(t, els))|, els, x);
        NumericListMeaning(items, x);
      }
      assert CompMatches(OpsComp(t, els), p) <==> NumericMatches(items, p.Values(t));
    }
  }

  lemma MaskSlotMeaning(t: byte, items: seq<BitmaskMatch>, maxLen: nat, p: Packet)
    requires IsMaskType(t) && MaskSlot(t, items, TableFor(t), maxLen).Ok?
    ensures SlotMatches(MaskSlot(t, items, TableFor(t), maxLen), p) <==> MaskMatches(t, items, p.Values(t))
  {
    if items != [] {
      var els := MaskElements(items, TableFor(t), maxLen).value;
      forall x: nat
        ensures Eval(MaskTerms(View(RawOf(OpsComp(t, els))).masks, x)) <==>
                SomeMaskMeans(items, t, x)
      {
        MaskViewTerms(t, |CompBytes(OpsComp(t, els))|, els, x);
        MaskListMeaning(items, t, maxLen, x);
      }
      assert CompMatches(OpsComp(t, els), p) <==> MaskMatches(t, items, p.Values(t));
    }
  }

  lemma NetSlotMeaning(t: byte, net: Option<Prefix>, v6: bool, p: Packet)
    requires NetSlot(t, net, v6).Ok?
    ensures SlotMatches(NetSlot(t, net, v6), p) <==> PrefixMatches(net, p.Address(t))
  {
    if net.Some? {
      PaddedPrefixSameNetwork(net.value.addr, net.value.bits);
      assert CompMatches(NetComp(t, net.value), p) <==> PrefixMatches(net, p.Address(t));
    }
  }

  lemma {:induction false} MergeMatches(slots: seq<Result<seq<Comp>>>, p: Packet)
    requires Merge(slots).Ok?
    ensures (forall c <- Merge(slots).value :: CompMatches(c, p)) <==> forall k :: 0 <= k < |slots| ==> SlotMatches(slots[k], p)
  {
    if slots != [] {
      var n := |slots| - 1;
      MergeMatches(slots[..n], p);
      var init, last := Merge(slots[..n]).value, slots[n].value;
      assert forall c :: c in Merge(slots).value <==> c in init || c in last;
      assert forall k :: 0 <= k < n ==> slots[..n][k] == slots[k];
    }
  }

  lemma NumSlotOf(t: byte, items: seq<NumericMatch>, v6: bool)
    requires Slot(t, NumClause(items), v6).Ok?
    ensures Slot(t, NumClause(items), v6) == NumSlot(t, items)
  {
  }

  lemma ClauseMeaning(c: Clause, k: nat, v6: bool, p: Packet)
    requires k < 13 && (c.NetClause? <==> k < 2) && (c.MaskClause? <==> MaskIndex(k))
    requires c.MaskClause? ==> c.table == TableFor(k + 1)
    requires Slot(k + 1, c, v6).Ok?
    ensures SlotMatches(Slot(k + 1, c, v6), p) <==> ClauseMatches(k + 1, c, p)
  {
    match c
    case NetClause(net) => NetSlotMeaning(k + 1, net, v6, p);
    case NumClause(items) =>
      NumSlotOf(k + 1, items, v6);
      NumSlotMeaning(k + 1, items, p);
    case MaskClause(masks, table, maxLen) => MaskSlotMeaning(k + 1, masks, maxLen, p);
  }

  lemma {:induction false} MergedSlotOk(slots: seq<Result<seq<Comp>>>, k: nat)
    requires Merge(slots).Ok? && k < |slots|
    ensures slots[k].Ok?
  {
    if slots[k].Err? {
      FailedSlot(slots, k);
    }
  }

  lemma CompiledMeaning(r: Rule, p: Packet)
    requires Compile(r).Ok?
    ensures ListMatches(Views(RawsOf(Compile(r).value)), p) <==> RuleMatches(r, p)
  {
    var v6, comps := Family(r).value, Compile(r).value;
    var slots := Slots(r, v6);
    RuleIsClauses(r, p);
    forall k | 0 <= k < 13
      ensures SlotMatches(slots[k], p) <==> ClauseAccepts(r, p, k)
    {
      MergedSlotOk(slots, k);
      ClauseShape(r, k);
      ClauseMeaning(Clauses(r)[k], k, v6, p);
    }
    MergeMatches(slots, p);
    DecodedMeaning(comps, p);
  }

  lemma DecodedMeaning(comps: seq<Comp>, p: Packet)
    ensures ListMatches(Views(RawsOf(comps)), p) <==> forall c <- comps :: CompMatches(c, p)
  {
    var cs := Views(RawsOf(comps));
    assert forall i :: 0 <= i < |comps| ==> (ComponentMatches(cs[i], p) <==> CompMatches(comps[i], p));
  }

  /** Meaning preservation: for every packet, the component list a reader decodes from the
      encoded rule matches exactly when the rule as written does. */
  lemma MeaningPreserved(r: Rule, p: Packet)
    requires Encode(r).Ok? && r.Raw() == []
    ensures var (nlri, v6) := Encode(r).value;
            Decode(nlri, v6).Ok? && (ListMatches(Decode(nlri, v6).value, p) <==> RuleMatches(r, p))
  {
    ReadEncoded(r);
    CompiledMeaning(r, p);
  }

  /** Two rules that encode to the same bytes match the same packets. */
  lemma SameBytesSameMeaning(r: Rule, q: Rule, p: Packet)
    requires Encode(r).Ok? && r.Raw() == [] && Encode(q) == Encode(r) && q.Raw() == []
    ensures RuleMatches(r, p) <==> RuleMatches(q, p)
  {
    MeaningPreserved(r, p);
    MeaningPreserved(q, p);
  }
}
