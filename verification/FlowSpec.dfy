/** FlowSpec NLRI compiler (RFC 8955 sections 4.1 and 4.2, RFC 8956 sections 3.1 and 3.7):
    a structured match rule becomes a length-framed list of components in ascending type order. */
module FlowSpec {
  import opened Bytes
  import opened Writer

  const T_DST_PREFIX: byte := 1
  const T_SRC_PREFIX: byte := 2
  const T_PROTOCOL: byte := 3
  const T_PORT: byte := 4
  const T_DST_PORT: byte := 5
  const T_SRC_PORT: byte := 6
  const T_ICMP_TYPE: byte := 7
  const T_ICMP_CODE: byte := 8
  const T_TCP_FLAGS: byte := 9
  const T_PACKET_LENGTH: byte := 10
  const T_DSCP: byte := 11
  const T_FRAGMENT: byte := 12
  const T_FLOW_LABEL: byte := 13

  // ---------------------------------------------------------------- rules

  /** A parsed CIDR prefix: full-width address plus a length within the family's range. */
  datatype Cidr = Prefix(v6: bool, addr: seq<byte>, bits: nat) {
    predicate Valid() {
      |addr| == Width(v6) && bits <= 8 * |addr|
    }
  }
  type Prefix = p: Cidr | p.Valid() witness Prefix(false, [0, 0, 0, 0], 0)

  function Width(v6: bool): nat { if v6 then 16 else 4 }

  datatype NumericOp = NumericOp(
    eq: Option<u64>, lt: Option<u64>, le: Option<u64>,
    gt: Option<u64>, ge: Option<u64>, range: Option<(u64, u64)>)

  datatype NumericMatch = Value(v: u64) | Op(op: NumericOp)

  /** Flag bits given numerically or by (lower-case) name. */
  datatype FlagValue = Num(n: u64) | Names(names: seq<string>)

  datatype BitmaskMatch = BitmaskMatch(flags: FlagValue, exact: bool, negate: bool)

  datatype Rule = Rule(
    afi: Option<string>,
    dstPrefix: Option<Prefix>,
    srcPrefix: Option<Prefix>,
    protocol: seq<NumericMatch>,
    port: seq<NumericMatch>,
    dstPort: seq<NumericMatch>,
    srcPort: seq<NumericMatch>,
    icmpType: seq<NumericMatch>,
    icmpCode: seq<NumericMatch>,
    tcpFlags: seq<BitmaskMatch>,
    packetLength: seq<NumericMatch>,
    dscp: seq<NumericMatch>,
    fragment: seq<BitmaskMatch>,
    flowLabel: seq<NumericMatch>,
    rawComponents: Option<seq<byte>>)
  {
    function Raw(): seq<byte> { rawComponents.GetOr([]) }
  }

  /** Flag names in bit order: the name at index i stands for bit 1 << i. */
  type FlagTable = t: seq<string> | |t| <= 8

  const TCP_FLAG_NAMES: FlagTable := ["fin", "syn", "rst", "psh", "ack", "urg", "ece", "cwr"]
  const FRAGMENT_FLAG_NAMES: FlagTable := ["dont-fragment", "is-fragment", "first-fragment", "last-fragment"]

  function FindFlag(table: seq<string>, name: string): (r: Option<nat>)
    ensures r.Some? ==> r.value < |table| && table[r.value] == name
    ensures r.None? ==> name !in table
  {
    if table == [] then None
    else if table[0] == name then Some(0)
    else
      var i :- FindFlag(table[1..], name);
      Some(i + 1)
  }

  /** Bitwise OR of flag i into an accumulator. */
  function OrBit(acc: nat, i: nat): nat {
    if NatBit(acc, i) then acc else acc + Pow2(i)
  }

  function OrNames(names: seq<string>, table: FlagTable): (r: Result<nat>)
    ensures r.Ok? ==> r.value < Pow2(|table|)
  {
    if names == [] then Ok(0) else
    var acc :- OrNames(names[..|names| - 1], table);
    match FindFlag(table, names[|names| - 1])
    case None => Err
    case Some(i) =>
      if !NatBit(acc, i) then SetClearBitFits(acc, i, |table|); Ok(OrBit(acc, i)) else Ok(OrBit(acc, i))
  }

  lemma FlagsFit(names: seq<string>, table: FlagTable)
    ensures OrNames(names, table).Ok? ==> OrNames(names, table).value < 0x100
  {
    Pow2Monotone(|table|, 8);
    Pow2Plus8(0);
  }

  function ResolveFlags(v: FlagValue, table: FlagTable): Result<u64> {
    match v
    case Num(n) => Ok(n)
    case Names(names) => FlagsFit(names, table); OrNames(names, table)
  }

  // ---------------------------------------------------------------- operator lists

  const OP_EQ: byte := 0x01
  const OP_GT: byte := 0x02
  const OP_LT: byte := 0x04
  const OP_AND: byte := 0x40
  const OP_END: byte := 0x80

  /** Operator bits other than end-of-list and width: AND plus the low nibble. */
  type OpBits = b: byte | b < 0x10 || 0x40 <= b < 0x50

  /** One {op, value} pair before the end bit and the width are known. */
  datatype Element = Element(bits: OpBits, value: u64)

  /** Minimal width code of a value: 0, 1, 2, 3 for 1, 2, 4, 8 octets. */
  function LenCode(v: u64): (c: nat)
    ensures c < 4 && v < Pow256(WidthOf(c))
    ensures forall d :: 0 <= d < c ==> v >= Pow256(WidthOf(d))
  {
    Pow256Values();
    if v <= 0xFF then 0 else if v <= 0xFFFF then 1 else if v <= 0xFFFF_FFFF then 2 else 3
  }

  function WidthOf(code: nat): nat {
    if code == 0 then 1 else if code == 1 then 2 else if code == 2 then 4 else 8
  }

  function ValueBytes(v: u64): (s: seq<byte>)
    ensures |s| == WidthOf(LenCode(v)) && Nat(s) == v
  {
    NatOfBE(WidthOf(LenCode(v)), v);
    BE(WidthOf(LenCode(v)), v)
  }

  /** The operator octet; its four bit fields are disjoint, so OR is addition. */
  function OpOctet(end: bool, e: Element): byte {
    (if end then OP_END else 0) + e.bits + 0x10 * LenCode(e.value)
  }

  function ElementBytes(end: bool, e: Element): seq<byte> {
    [OpOctet(end, e)] + ValueBytes(e.value)
  }

  /** The first |els| elements of a list of n, with the end bit on the n-th. */
  function ElementsOf(els: seq<Element>, n: nat): seq<byte> {
    if els == [] then [] else
    ElementsOf(els[..|els| - 1], n) + ElementBytes(|els| == n, els[|els| - 1])
  }

  function OptElement(o: Option<u64>, bits: OpBits): seq<Element> {
    if o.Some? then [Element(bits, o.value)] else []
  }

  function RangeElements(o: Option<(u64, u64)>): seq<Element> {
    if o.None? then [] else
    [Element(OP_GT + OP_EQ, o.value.0), Element(OP_AND + OP_LT + OP_EQ, o.value.1)]
  }

  function OpElements(op: NumericOp): seq<Element> {
    OptElement(op.eq, OP_EQ) + OptElement(op.lt, OP_LT) + OptElement(op.le, OP_LT + OP_EQ)
    + OptElement(op.gt, OP_GT) + OptElement(op.ge, OP_GT + OP_EQ) + RangeElements(op.range)
  }

  /** Exactly one operator per list item, or the item is refused. */
  function ItemElements(item: NumericMatch): (r: Result<seq<Element>>)
    ensures r.Ok? ==> r.value != [] && r.value[0].bits < OP_AND
  {
    match item
    case Value(v) => Ok([Element(OP_EQ, v)])
    case Op(op) =>
      var pairs := OpElements(op);
      if |pairs| == (if op.range.Some? then 2 else 1) then Ok(pairs) else Err
  }

  function ListElements(items: seq<NumericMatch>): Result<seq<Element>> {
    if items == [] then Ok([]) else
    var init :- ListElements(items[..|items| - 1]);
    var last :- ItemElements(items[|items| - 1]);
    Ok(init + last)
  }

  function MaskElement(item: BitmaskMatch, table: FlagTable, maxLen: nat): Result<Element>
  {
    var bits :- ResolveFlags(item.flags, table);
    if WidthOf(LenCode(bits)) > maxLen then Err else
    Ok(Element((if item.negate then 0x02 else 0) + (if item.exact then 0x01 else 0), bits))
  }

  function MaskElements(items: seq<BitmaskMatch>, table: FlagTable, maxLen: nat): (r: Result<seq<Element>>)
    ensures r.Ok? ==> |r.value| == |items|
  {
    if items == [] then Ok([]) else
    var init :- MaskElements(items[..|items| - 1], table, maxLen);
    var last :- MaskElement(items[|items| - 1], table, maxLen);
    Ok(init + [last])
  }

  // ---------------------------------------------------------------- components

  /** A compiled component, one step before its octets. */
  datatype Comp = NetComp(ctype: byte, net: Prefix) | OpsComp(ctype: byte, els: seq<Element>)

  /** A prefix component after its type octet; IPv6 ones carry an offset octet, always zero. */
  function NetBytes(p: Prefix): seq<byte> {
    [p.bits] + ((if p.v6 then [0] else []) + p.addr[..OctetsFor(p.bits)])
  }

  function CompBody(c: Comp): seq<byte> {
    match c
    case NetComp(_, p) => NetBytes(p)
    case OpsComp(_, els) => ElementsOf(els, |els|)
  }

  function CompBytes(c: Comp): seq<byte> { [c.ctype] + CompBody(c) }

  function Serialize(comps: seq<Comp>): seq<byte> {
    if comps == [] then [] else CompBytes(comps[0]) + Serialize(comps[1..])
  }

  function NetSlot(t: byte, p: Option<Prefix>, v6: bool): Result<seq<Comp>> {
    if p.None? then Ok([]) else if p.value.v6 != v6 then Err else Ok([NetComp(t, p.value)])
  }

  function NumSlot(t: byte, items: seq<NumericMatch>): Result<seq<Comp>> {
    if items == [] then Ok([]) else
    var els :- ListElements(items);
    Ok([OpsComp(t, els)])
  }

  function MaskSlot(t: byte, items: seq<BitmaskMatch>, table: FlagTable, maxLen: nat): Result<seq<Comp>>
  {
    if items == [] then Ok([]) else
    var els :- MaskElements(items, table, maxLen);
    Ok([OpsComp(t, els)])
  }

  function LabelSlot(items: seq<NumericMatch>, v6: bool): Result<seq<Comp>> {
    if items != [] && !v6 then Err else NumSlot(T_FLOW_LABEL, items)
  }

  /** What a rule says about one component type. */
  datatype Clause =
    | NetClause(net: Option<Prefix>)
    | NumClause(items: seq<NumericMatch>)
    | MaskClause(masks: seq<BitmaskMatch>, table: FlagTable, maxLen: nat)

  /** The thirteen clauses of a rule: the one at index k is about component type k + 1. */
  function Clauses(r: Rule): (cs: seq<Clause>)
    ensures |cs| == 13
  {
    [ NetClause(r.dstPrefix), NetClause(r.srcPrefix),
      NumClause(r.protocol), NumClause(r.port), NumClause(r.dstPort), NumClause(r.srcPort),
      NumClause(r.icmpType), NumClause(r.icmpCode), MaskClause(r.tcpFlags, TCP_FLAG_NAMES, 2),
      NumClause(r.packetLength), NumClause(r.dscp), MaskClause(r.fragment, FRAGMENT_FLAG_NAMES, 1),
      NumClause(r.flowLabel) ]
  }

  predicate MaskIndex(k: nat) { k == 8 || k == 11 }

  /** The flag names of a bitmask component. */
  function TableFor(t: nat): FlagTable { if t == T_TCP_FLAGS then TCP_FLAG_NAMES else FRAGMENT_FLAG_NAMES }

  lemma ClauseShape(r: Rule, k: nat)
    requires k < 13
    ensures Clauses(r)[k].NetClause? <==> k < 2
    ensures Clauses(r)[k].MaskClause? <==> MaskIndex(k)
    ensures MaskIndex(k) ==> Clauses(r)[k].table == TableFor(k + 1)
  {
  }

  /** The component a clause contributes, or its refusal. */
  function Slot(t: byte, c: Clause, v6: bool): Result<seq<Comp>> {
    match c
    case NetClause(net) => NetSlot(t, net, v6)
    case NumClause(items) => if t == T_FLOW_LABEL then LabelSlot(items, v6) else NumSlot(t, items)
    case MaskClause(masks, table, maxLen) => MaskSlot(t, masks, table, maxLen)
  }

  function Slots(r: Rule, v6: bool): (s: seq<Result<seq<Comp>>>)
    ensures |s| == 13
    ensures forall k :: 0 <= k < 13 ==> s[k] == Slot(k + 1, Clauses(r)[k], v6)
  {
    seq(13, k requires 0 <= k < 13 => Slot(k + 1, Clauses(r)[k], v6))
  }

  function Merge(slots: seq<Result<seq<Comp>>>): Result<seq<Comp>> {
    if slots == [] then Ok([]) else
    var init :- Merge(slots[..|slots| - 1]);
    var last :- slots[|slots| - 1];
    Ok(init + last)
  }

  /** The family comes from the prefixes, else from the explicit field, else it is IPv4. */
  function Family(r: Rule): Result<bool> {
    if r.dstPrefix.Some? then Ok(r.dstPrefix.value.v6)
    else if r.srcPrefix.Some? then Ok(r.srcPrefix.value.v6)
    else if r.afi.None? || r.afi.value == "ipv4" then Ok(false)
    else if r.afi.value == "ipv6" then Ok(true)
    else Err
  }

  function Compile(r: Rule): Result<seq<Comp>> {
    var v6 :- Family(r);
    Merge(Slots(r, v6))
  }

  /** Put the length in front, as section 4.1 of RFC 8955 has it: the short form up to 239, the long
      form with a nibble of ones up to 4095, nothing beyond. */
  function Frame(c: seq<byte>): Result<seq<byte>> {
    if |c| < 240 then Ok([|c|] + c)
    else if |c| < 4096 then Ok([0xF0 + |c| / 0x100, AsU8(|c|)] + c)
    else Err
  }

  function Encode(r: Rule): Result<(seq<byte>, bool)> {
    var v6 :- Family(r);
    var comps :- Compile(r);
    var c := Serialize(comps) + r.Raw();
    if c == [] then Err else
    var nlri :- Frame(c);
    Ok((nlri, v6))
  }

  // ---------------------------------------------------------------- the encoder as written

  method NumericPairs(item: NumericMatch) returns (r: Result<seq<Element>>)
    ensures r == ItemElements(item)
  {
    if item.Value? {
      return Ok([Element(OP_EQ, item.v)]);
    }
    var op := item.op;
    var pairs: seq<Element> := [];
    if op.eq.Some? { pairs := pairs + [Element(OP_EQ, op.eq.value)]; }
    ghost var want := OptElement(op.eq, OP_EQ);
    assert pairs == want;
    if op.lt.Some? { pairs := pairs + [Element(OP_LT, op.lt.value)]; }
    want := want + OptElement(op.lt, OP_LT);
    assert pairs == want;
    if op.le.Some? { pairs := pairs + [Element(OP_LT + OP_EQ, op.le.value)]; }
    want := want + OptElement(op.le, OP_LT + OP_EQ);
    assert pairs == want;
    if op.gt.Some? { pairs := pairs + [Element(OP_GT, op.gt.value)]; }
    want := want + OptElement(op.gt, OP_GT);
    assert pairs == want;
    if op.ge.Some? { pairs := pairs + [Element(OP_GT + OP_EQ, op.ge.value)]; }
    want := want + OptElement(op.ge, OP_GT + OP_EQ);
    assert pairs == want;
    if op.range.Some? {
      pairs := pairs + [Element(OP_GT + OP_EQ, op.range.value.0)];
      pairs := pairs + [Element(OP_AND + OP_LT + OP_EQ, op.range.value.1)];
    }
    assert pairs == OpElements(op);
    var expected := if op.range.Some? then 2 else 1;
    if |pairs| == 0 || |pairs| != expected {
      return Err;
    }
    return Ok(pairs);
  }

  /** Writing a component either appends exactly what its slot contributes, or fails with the slot. */
  ghost predicate Wrote(before: seq<byte>, after: seq<byte>, ok: bool, slot: Result<seq<Comp>>) {
    ok == slot.Ok? && (ok ==> after == before + Serialize(slot.value))
  }

  lemma SerializeOne(c: Comp)
    ensures Serialize([c]) == CompBytes(c)
  {
    assert Serialize([c]) == CompBytes(c) + [];
  }

  lemma ListElementsError(items: seq<NumericMatch>, k: nat)
    requires k < |items|
    requires ListElements(items[..k]).Err? || ItemElements(items[k]).Err?
    ensures ListElements(items).Err?
    decreases |items|
  {
    if k + 1 == |items| {
    } else {
      assert items[..|items| - 1][..k] == items[..k];
      ListElementsError(items[..|items| - 1], k);
    }
  }

  lemma {:induction false} ListElementsNonEmpty(items: seq<NumericMatch>)
    requires items != [] && ListElements(items).Ok?
    ensures ListElements(items).value != []
  {
  }

  lemma ElementsSnoc(els: seq<Element>, i: nat, n: nat)
    requires i < |els| <= n
    ensures ElementsOf(els[..i + 1], n) == ElementsOf(els[..i], n) + ElementBytes(i + 1 == n, els[i])
  {
    assert els[..i + 1][..i] == els[..i];
  }

  method PutElement(out: Buf, end: bool, e: Element)
    modifies out
    ensures out.data == old(out.data) + ElementBytes(end, e)
  {
    out.PutU8(OpOctet(end, e));
    out.PutBytes(ValueBytes(e.value));
  }

  method CollectPairs(items: seq<NumericMatch>) returns (r: Result<seq<Element>>)
    ensures r == ListElements(items)
  {
    var pairs: seq<Element> := [];
    var i := 0;
    while i < |items|
      invariant i <= |items|
      invariant ListElements(items[..i]) == Ok(pairs)
    {
      assert items[..i + 1][..i] == items[..i];
      var more := NumericPairs(items[i]);
      if more.Err? {
        ListElementsError(items, i);
        return Err;
      }
      pairs := pairs + more.value;
      i := i + 1;
    }
    assert items[..|items|] == items;
    return Ok(pairs);
  }

  method PutElements(out: Buf, pairs: seq<Element>)
    modifies out
    ensures out.data == old(out.data) + ElementsOf(pairs, |pairs|)
  {
    var i := 0;
    while i < |pairs|
      invariant i <= |pairs|
      invariant out.data == old(out.data) + ElementsOf(pairs[..i], |pairs|)
    {
      ElementsSnoc(pairs, i, |pairs|);
      Assoc(old(out.data), ElementsOf(pairs[..i], |pairs|), ElementBytes(i + 1 == |pairs|, pairs[i]));
      PutElement(out, i + 1 == |pairs|, pairs[i]);
      i := i + 1;
    }
    assert pairs[..|pairs|] == pairs;
  }

  method EncodeNumeric(out: Buf, ty: byte, items: seq<NumericMatch>) returns (ok: bool)
    modifies out
    ensures Wrote(old(out.data), out.data, ok, NumSlot(ty, items))
  {
    if items == [] {
      return true;
    }
    out.PutU8(ty);
    var pairs := CollectPairs(items);
    if pairs.Err? {
      return false;
    }
    PutElements(out, pairs.value);
    SerializeOne(OpsComp(ty, pairs.value));
    Assoc(old(out.data), [ty], ElementsOf(pairs.value, |pairs.value|));
    return true;
  }

  lemma MaskElementsError(items: seq<BitmaskMatch>, k: nat, table: FlagTable, maxLen: nat)
    requires k < |items| && MaskElement(items[k], table, maxLen).Err?
    ensures MaskElements(items, table, maxLen).Err?
  {
    if k + 1 < |items| {
      MaskElementsError(items[..|items| - 1], k, table, maxLen);
    }
  }

  method PutMask(out: Buf, end: bool, item: BitmaskMatch, table: FlagTable, maxLen: nat) returns (ok: bool)
    modifies out
    ensures ok == MaskElement(item, table, maxLen).Ok?
    ensures ok ==> out.data == old(out.data) + ElementBytes(end, MaskElement(item, table, maxLen).value)
  {
    var bits := ResolveFlags(item.flags, table);
    if bits.Err? || WidthOf(LenCode(bits.value)) > maxLen {
      return false;
    }
    var m := if item.exact then 0x01 else 0;
    var not := if item.negate then 0x02 else 0;
    PutElement(out, end, Element(not + m, bits.value));
    return true;
  }

  /** The octets of the first i masks of a list, or the failure of one of them. */
  function MasksUpTo(items: seq<BitmaskMatch>, i: nat, table: FlagTable, maxLen: nat): Result<seq<byte>>
    requires i <= |items|
  {
    var els :- MaskElements(items[..i], table, maxLen);
    Ok(ElementsOf(els, |items|))
  }

  lemma MaskStep(items: seq<BitmaskMatch>, i: nat, table: FlagTable, maxLen: nat)
    requires i < |items|
    requires MasksUpTo(items, i, table, maxLen).Ok? && MaskElement(items[i], table, maxLen).Ok?
    ensures MasksUpTo(items, i + 1, table, maxLen) ==
            Ok(MasksUpTo(items, i, table, maxLen).value
               + ElementBytes(i + 1 == |items|, MaskElement(items[i], table, maxLen).value))
  {
    assert items[..i + 1][..i] == items[..i];
    var els, e := MaskElements(items[..i], table, maxLen).value, MaskElement(items[i], table, maxLen).value;
    assert MaskElements(items[..i + 1], table, maxLen) == Ok(els + [e]);
    assert (els + [e])[..i] == els && (els + [e])[..i + 1] == els + [e];
    ElementsSnoc(els + [e], i, |items|);
  }

  method PutMasks(out: Buf, items: seq<BitmaskMatch>, table: FlagTable, maxLen: nat) returns (ok: bool)
    modifies out
    ensures var all := MasksUpTo(items, |items|, table, maxLen);
            ok == all.Ok? && (ok ==> out.data == old(out.data) + all.value)
  {
    ghost var start, done := out.data, [];
    var i := 0;
    assert items[..|items|] == items;
    while i < |items|
      invariant i <= |items|
      invariant MasksUpTo(items, i, table, maxLen) == Ok(done)
      invariant out.data == start + done
    {
      ok := PutMask(out, i + 1 == |items|, items[i], table, maxLen);
      if !ok {
        MaskElementsError(items, i, table, maxLen);
        return;
      }
      MaskStep(items, i, table, maxLen);
      ghost var next := ElementBytes(i + 1 == |items|, MaskElement(items[i], table, maxLen).value);
      Assoc(start, done, next);
      done := done + next;
      i := i + 1;
    }
    ok := true;
  }

  lemma MaskSlotBytes(ty: byte, items: seq<BitmaskMatch>, table: FlagTable, maxLen: nat)
    requires items != []
    ensures var slot, all := MaskSlot(ty, items, table, maxLen), MasksUpTo(items, |items|, table, maxLen);
            slot.Ok? == all.Ok? && (slot.Ok? ==> Serialize(slot.value) == [ty] + all.value)
  {
    assert items[..|items|] == items;
    var slot := MaskSlot(ty, items, table, maxLen);
    if slot.Ok? {
      SerializeOne(slot.value[0]);
    }
  }

  method EncodeBitmask(out: Buf, ty: byte, items: seq<BitmaskMatch>, table: FlagTable, maxLen: nat) returns (ok: bool)
    modifies out
    ensures Wrote(old(out.data), out.data, ok, MaskSlot(ty, items, table, maxLen))
  {
    if items == [] {
      return true;
    }
    MaskSlotBytes(ty, items, table, maxLen);
    out.PutU8(ty);
    ok := PutMasks(out, items, table, maxLen);
    if ok {
      Assoc(old(out.data), [ty], MasksUpTo(items, |items|, table, maxLen).value);
    }
  }

  lemma NetOctets(ty: byte, p: Prefix, before: seq<byte>)
    ensures before + ([ty, p.bits] + if p.v6 then [0] else []) + p.addr[..OctetsFor(p.bits)]
            == before + Serialize([NetComp(ty, p)])
  {
    SerializeOne(NetComp(ty, p));
  }

  method EncodePrefix(out: Buf, ty: byte, p: Prefix, want: bool) returns (ok: bool)
    modifies out
    ensures Wrote(old(out.data), out.data, ok, NetSlot(ty, Some(p), want))
  {
    if want != p.v6 {
      return false;
    }
    out.PutU8(ty);
    out.PutU8(p.bits);
    if p.v6 {
      out.PutU8(0);
    }
    assert out.data == old(out.data) + ([ty, p.bits] + if p.v6 then [0] else []);
    out.PutBytes(p.addr[..OctetsFor(p.bits)]);
    NetOctets(ty, p, old(out.data));
    return true;
  }

  lemma {:induction false} SerializeAppend(a: seq<Comp>, b: seq<Comp>)
    ensures Serialize(a + b) == Serialize(a) + Serialize(b)
  {
    if a == [] {
      assert a + b == b;
    } else {
      assert (a + b)[0] == a[0] && (a + b)[1..] == a[1..] + b;
      SerializeAppend(a[1..], b);
      assert CompBytes(a[0]) + (Serialize(a[1..]) + Serialize(b)) == Serialize(a) + Serialize(b);
    }
  }

  /** The bytes written after the first k slots. */
  ghost predicate WroteSlots(out: seq<byte>, slots: seq<Result<seq<Comp>>>, k: nat)
    requires k <= |slots|
  {
    Merge(slots[..k]).Ok? && out == Serialize(Merge(slots[..k]).value)
  }

  lemma {:induction false} FailedSlot(slots: seq<Result<seq<Comp>>>, k: nat)
    requires k < |slots| && slots[k].Err?
    ensures Merge(slots).Err?
  {
    if k + 1 < |slots| {
      FailedSlot(slots[..|slots| - 1], k);
    }
  }

  /** One step of the encoder: the next slot is written, or the whole compilation fails. */
  ghost predicate Stepped(after: seq<byte>, ok: bool, slots: seq<Result<seq<Comp>>>, k: nat)
    requires k < |slots|
  {
    if ok then WroteSlots(after, slots, k + 1) else Merge(slots).Err?
  }

  lemma StepSlot(before: seq<byte>, after: seq<byte>, ok: bool, slots: seq<Result<seq<Comp>>>, k: nat)
    requires k < |slots| && WroteSlots(before, slots, k) && Wrote(before, after, ok, slots[k])
    ensures Stepped(after, ok, slots, k)
  {
    if ok {
      assert slots[..k + 1][..k] == slots[..k];
      SerializeAppend(Merge(slots[..k]).value, slots[k].value);
    } else {
      FailedSlot(slots, k);
    }
  }

  method StepNumeric(out: Buf, ty: byte, items: seq<NumericMatch>, ghost slots: seq<Result<seq<Comp>>>, ghost k: nat)
    returns (ok: bool)
    requires k < |slots| && WroteSlots(out.data, slots, k) && slots[k] == NumSlot(ty, items)
    modifies out
    ensures Stepped(out.data, ok, slots, k)
  {
    ok := EncodeNumeric(out, ty, items);
    StepSlot(old(out.data), out.data, ok, slots, k);
  }

  method StepBitmask(out: Buf, ty: byte, items: seq<BitmaskMatch>, table: FlagTable, maxLen: nat,
                     ghost slots: seq<Result<seq<Comp>>>, ghost k: nat)
    returns (ok: bool)
    requires k < |slots| && WroteSlots(out.data, slots, k) && slots[k] == MaskSlot(ty, items, table, maxLen)
    modifies out
    ensures Stepped(out.data, ok, slots, k)
  {
    ok := EncodeBitmask(out, ty, items, table, maxLen);
    StepSlot(old(out.data), out.data, ok, slots, k);
  }

  method StepPrefix(out: Buf, ty: byte, p: Option<Prefix>, v6: bool, ghost slots: seq<Result<seq<Comp>>>, ghost k: nat)
    returns (ok: bool)
    requires k < |slots| && WroteSlots(out.data, slots, k) && slots[k] == NetSlot(ty, p, v6)
    modifies out
    ensures Stepped(out.data, ok, slots, k)
  {
    ok := true;
    if p.Some? {
      ok := EncodePrefix(out, ty, p.value, v6);
    }
    StepSlot(old(out.data), out.data, ok, slots, k);
  }

  ghost predicate PrefixSlots(slots: seq<Result<seq<Comp>>>, r: Rule, v6: bool) {
    && |slots| == 13
    && slots[0] == NetSlot(T_DST_PREFIX, r.dstPrefix, v6)
    && slots[1] == NetSlot(T_SRC_PREFIX, r.srcPrefix, v6)
  }

  ghost predicate LowSlots(slots: seq<Result<seq<Comp>>>, r: Rule) {
    && |slots| == 13
    && slots[2] == NumSlot(T_PROTOCOL, r.protocol)
    && slots[3] == NumSlot(T_PORT, r.port)
    && slots[4] == NumSlot(T_DST_PORT, r.dstPort)
    && slots[5] == NumSlot(T_SRC_PORT, r.srcPort)
    && slots[6] == NumSlot(T_ICMP_TYPE, r.icmpType)
    && slots[7] == NumSlot(T_ICMP_CODE, r.icmpCode)
  }

  ghost predicate HighSlots(slots: seq<Result<seq<Comp>>>, r: Rule, v6: bool) {
    && |slots| == 13
    && slots[8] == MaskSlot(T_TCP_FLAGS, r.tcpFlags, TCP_FLAG_NAMES, 2)
    && slots[9] == NumSlot(T_PACKET_LENGTH, r.packetLength)
    && slots[10] == NumSlot(T_DSCP, r.dscp)
    && slots[11] == MaskSlot(T_FRAGMENT, r.fragment, FRAGMENT_FLAG_NAMES, 1)
    && slots[12] == LabelSlot(r.flowLabel, v6)
  }

  lemma LowSlotsShape(r: Rule, v6: bool)
    ensures PrefixSlots(Slots(r, v6), r, v6) && LowSlots(Slots(r, v6), r)
  {
    PrefixSlotsShape(r, v6);
    NumericSlotsShape(r, v6);
  }

  lemma PrefixSlotsShape(r: Rule, v6: bool)
    ensures PrefixSlots(Slots(r, v6), r, v6)
  {
  }

  lemma NumericSlot(r: Rule, v6: bool, k: nat, items: seq<NumericMatch>)
    requires k < 12 && Clauses(r)[k] == NumClause(items)
    ensures Slots(r, v6)[k] == NumSlot(k + 1, items)
  {
  }

  lemma ProtocolSlots(r: Rule, v6: bool)
    ensures Slots(r, v6)[2] == NumSlot(T_PROTOCOL, r.protocol) && Slots(r, v6)[3] == NumSlot(T_PORT, r.port)
    ensures Slots(r, v6)[4] == NumSlot(T_DST_PORT, r.dstPort)
  {
    NumericSlot(r, v6, 2, r.protocol);
    NumericSlot(r, v6, 3, r.port);
    NumericSlot(r, v6, 4, r.dstPort);
  }

  lemma IcmpSlots(r: Rule, v6: bool)
    ensures Slots(r, v6)[5] == NumSlot(T_SRC_PORT, r.srcPort) && Slots(r, v6)[6] == NumSlot(T_ICMP_TYPE, r.icmpType)
    ensures Slots(r, v6)[7] == NumSlot(T_ICMP_CODE, r.icmpCode)
  {
    NumericSlot(r, v6, 5, r.srcPort);
    NumericSlot(r, v6, 6, r.icmpType);
    NumericSlot(r, v6, 7, r.icmpCode);
  }

  lemma NumericSlotsShape(r: Rule, v6: bool)
    ensures LowSlots(Slots(r, v6), r)
  {
    ProtocolSlots(r, v6);
    IcmpSlots(r, v6);
  }

  lemma HighSlotsShape(r: Rule, v6: bool)
    ensures HighSlots(Slots(r, v6), r, v6)
  {
  }

  /** The prefixes and the numeric components below tcp_flags. */
  method EncodeLow(c: Buf, r: Rule, v6: bool, ghost slots: seq<Result<seq<Comp>>>) returns (ok: bool)
    requires c.data == [] && PrefixSlots(slots, r, v6) && LowSlots(slots, r)
    modifies c
    ensures Stepped(c.data, ok, slots, 7)
  {
    assert WroteSlots(c.data, slots, 0) by { assert slots[..0] == []; }
    ok := StepPrefix(c, T_DST_PREFIX, r.dstPrefix, v6, slots, 0);
    if !ok { return; }
    ok := StepPrefix(c, T_SRC_PREFIX, r.srcPrefix, v6, slots, 1);
    if !ok { return; }
    ok := StepNumeric(c, T_PROTOCOL, r.protocol, slots, 2);
    if !ok { return; }
    ok := StepNumeric(c, T_PORT, r.port, slots, 3);
    if !ok { return; }
    ok := StepNumeric(c, T_DST_PORT, r.dstPort, slots, 4);
    if !ok { return; }
    ok := StepNumeric(c, T_SRC_PORT, r.srcPort, slots, 5);
    if !ok { return; }
    ok := StepNumeric(c, T_ICMP_TYPE, r.icmpType, slots, 6);
    if !ok { return; }
    ok := StepNumeric(c, T_ICMP_CODE, r.icmpCode, slots, 7);
  }

  /** tcp_flags and everything after it. */
  method EncodeHigh(c: Buf, r: Rule, v6: bool, ghost slots: seq<Result<seq<Comp>>>) returns (ok: bool)
    requires HighSlots(slots, r, v6) && WroteSlots(c.data, slots, 8)
    modifies c
    ensures Stepped(c.data, ok, slots, 12)
  {
    ok := StepBitmask(c, T_TCP_FLAGS, r.tcpFlags, TCP_FLAG_NAMES, 2, slots, 8);
    if !ok { return; }
    ok := StepNumeric(c, T_PACKET_LENGTH, r.packetLength, slots, 9);
    if !ok { return; }
    ok := StepNumeric(c, T_DSCP, r.dscp, slots, 10);
    if !ok { return; }
    ok := StepBitmask(c, T_FRAGMENT, r.fragment, FRAGMENT_FLAG_NAMES, 1, slots, 11);
    if !ok { return; }
    if r.flowLabel != [] && !v6 {
      FailedSlot(slots, 12);
      return false;
    }
    ok := StepNumeric(c, T_FLOW_LABEL, r.flowLabel, slots, 12);
  }

  method FrameNlri(c: seq<byte>) returns (res: Result<seq<byte>>)
    ensures res == Frame(c)
  {
    var nlri := new Buf();
    if |c| < 240 {
      nlri.PutU8(|c|);
      assert nlri.data == [|c|];
    } else if |c| < 4096 {
      nlri.PutU8(0xF0 + |c| / 0x100);
      nlri.PutU8(AsU8(|c|));
      assert nlri.data == [0xF0 + |c| / 0x100, AsU8(|c|)];
    } else {
      return Err;
    }
    nlri.PutBytes(c);
    return Ok(nlri.data);
  }

  method EncodeComponents(r: Rule, v6: bool) returns (res: Result<seq<byte>>)
    ensures var comps := Merge(Slots(r, v6));
            res == if comps.Err? then Err else Ok(Serialize(comps.value))
  {
    var c := new Buf();
    ghost var slots := Slots(r, v6);
    LowSlotsShape(r, v6);
    HighSlotsShape(r, v6);
    var ok := EncodeLow(c, r, v6, slots);
    if ok {
      ok := EncodeHigh(c, r, v6, slots);
    }
    assert slots[..13] == slots;
    return if ok then Ok(c.data) else Err;
  }

  method EncodeNlri(r: Rule) returns (res: Result<(seq<byte>, bool)>)
    ensures res == Encode(r)
  {
    var v6 := Family(r);
    if v6.Err? {
      return Err;
    }
    var c := EncodeComponents(r, v6.value);
    if c.Err? {
      return Err;
    }
    var all := if r.rawComponents.Some? then c.value + r.rawComponents.value else c.value;
    assert all == Serialize(Compile(r).value) + r.Raw();
    if |all| == 0 {
      return Err;
    }
    var nlri := FrameNlri(all);
    if nlri.Err? {
      return Err;
    }
    return Ok((nlri.value, v6.value));
  }
}
