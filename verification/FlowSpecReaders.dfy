/** The two readers of FlowSpec NLRI that were written independently of the compiler: the decoder
    of the route checker and the structural checker used for hostile component lists. */
module FlowSpecReaders {
  import opened Bytes
  import opened FlowSpec

  // ---------------------------------------------------------------- the decoder

  /** One {op, value} pair as it stands on the wire. */
  datatype RawOp = RawOp(op: byte, value: nat) {
    /** The end-of-list, AND and width fields of the operator octet. */
    predicate End() { op >= 0x80 }
    predicate And() { op / 0x40 % 2 == 1 }
    function Octets(): nat { OpWidth(op) }
  }

  function OpWidth(op: byte): nat { WidthOf(op / 0x10 % 4) }

  /** The flag bits by name, as the checker has them: the control bits of the TCP header (RFC 9293
      section 3.1) and the fragment bitmask (RFC 8955 section 4.2.2.12). */
  const TCP_FLAG_BITS: map<string, nat> :=
    map["fin" := 0x01, "syn" := 0x02, "rst" := 0x04, "psh" := 0x08,
        "ack" := 0x10, "urg" := 0x20, "ece" := 0x40, "cwr" := 0x80]
  const FRAGMENT_BITS: map<string, nat> :=
    map["dont-fragment" := 0x01, "is-fragment" := 0x02, "first-fragment" := 0x04, "last-fragment" := 0x08]

  /** The flag bits of a component type: 9 for TCP flags, 12 for fragments. */
  function FlagBits(t: nat): map<string, nat> {
    if t == 9 then TCP_FLAG_BITS else if t == 12 then FRAGMENT_BITS else map[]
  }

  /** The family the checker takes a rule to be of. */
  function FlowV6(r: Rule): bool {
    if r.dstPrefix.Some? then r.dstPrefix.value.v6
    else if r.srcPrefix.Some? then r.srcPrefix.value.v6
    else r.afi == Some("ipv6")
  }

  /** A component together with the number of octets it occupies. */
  datatype RawComp =
    | RawNet(ctype: byte, size: nat, bits: byte, addr: seq<byte>)
    | RawList(ctype: byte, size: nat, ops: seq<RawOp>)

  /** The canonical form the decoder reports. */
  datatype NumericTerm = NumericTerm(and: bool, cmp: nat, value: nat)
  datatype MaskTerm = MaskTerm(and: bool, negate: bool, exact: bool, flags: nat)
  datatype Component =
    | Network(ctype: byte, addr: seq<byte>, bits: nat)
    | Numeric(ctype: byte, terms: seq<NumericTerm>)
    | Bitmask(ctype: byte, masks: seq<MaskTerm>)

  predicate IsMaskType(t: byte) { t == 9 || t == 12 }

  function NumericView(op: RawOp): NumericTerm { NumericTerm(op.And(), op.op % 8, op.value) }

  function MaskView(op: RawOp): MaskTerm {
    MaskTerm(op.And(), op.op / 2 % 2 == 1, op.op % 2 == 1, op.value)
  }

  function View(c: RawComp): Component {
    match c
    case RawNet(t, _, bits, addr) => Network(t, addr, bits)
    case RawList(t, _, ops) =>
      if IsMaskType(t) then Bitmask(t, seq(|ops|, i requires 0 <= i < |ops| => MaskView(ops[i])))
      else Numeric(t, seq(|ops|, i requires 0 <= i < |ops| => NumericView(ops[i])))
  }

  function Views(cs: seq<RawComp>): (v: seq<Component>)
    ensures |v| == |cs|
    ensures forall i :: 0 <= i < |cs| ==> v[i] == View(cs[i])
  {
    seq(|cs|, i requires 0 <= i < |cs| => View(cs[i]))
  }

  /** What reading an operator list, a prefix or a component gives: a failure, or the thing read
      and what follows it. */
  datatype OpsRead = NoOps | Ops(ops: seq<RawOp>, rest: seq<byte>)
  datatype NetRead = NoNet | Net(bits: byte, addr: seq<byte>, rest: seq<byte>)
  datatype CompRead = NoComp | One(comp: RawComp, rest: seq<byte>)

  /** An operator list, terminated by its end bit. */
  function ReadOps(s: seq<byte>): (r: OpsRead)
    ensures r.Ops? ==> |r.rest| < |s|
    decreases |s|
  {
    if s == [] then NoOps else
    var next := 1 + OpWidth(s[0]);
    if next > |s| then NoOps else
    var head := RawOp(s[0], Nat(s[1..next]));
    if head.End() then Ops([head], s[next..]) else AfterOps([head], ReadOps(s[next..]))
  }

  /** Result of the whole list, given the operators already read and what is left. */
  function AfterOps(done: seq<RawOp>, r: OpsRead): OpsRead {
    if r.NoOps? then NoOps else Ops(done + r.ops, r.rest)
  }

  /** Rebuild an address; sixteen octets are also accepted in an IPv4 rule. */
  function ToAddress(pattern: seq<byte>, v6: bool): Option<seq<byte>> {
    if |pattern| <= Width(v6) then Some(PadTo(Width(v6), pattern))
    else if |pattern| == 16 then Some(pattern)
    else None
  }

  /** A prefix component after its type octet: length, IPv6 offset (refused unless zero), address. */
  function ReadNet(s: seq<byte>, v6: bool): (r: NetRead)
    ensures r.Net? ==> |r.rest| < |s|
  {
    var at := if v6 then 2 else 1;
    if |s| < at || (v6 && s[1] != 0) then NoNet else
    var next := at + OctetsFor(s[0]);
    if next > |s| then NoNet else
    var addr := ToAddress(s[at..next], v6);
    if addr.None? then NoNet else Net(s[0], addr.value, s[next..])
  }

  function Cons(c: RawComp, cs: Result<seq<RawComp>>): Result<seq<RawComp>> {
    if cs.Err? then Err else Ok([c] + cs.value)
  }

  /** The next component, which must have a type above the last one. */
  function ReadOne(s: seq<byte>, v6: bool, last: nat): (r: CompRead)
    requires s != []
    ensures r.One? ==> |r.rest| < |s|
  {
    var t := s[0];
    if t <= last then NoComp
    else if t == 1 || t == 2 then
      var net := ReadNet(s[1..], v6);
      if net.NoNet? then NoComp else One(RawNet(t, |s| - |net.rest|, net.bits, net.addr), net.rest)
    else
      var list := ReadOps(s[1..]);
      if list.NoOps? then NoComp else One(RawList(t, |s| - |list.rest|, list.ops), list.rest)
  }

  function ReadComps(s: seq<byte>, v6: bool, last: nat): Result<seq<RawComp>>
    decreases |s|
  {
    if s == [] then Ok([]) else
    var one := ReadOne(s, v6, last);
    if one.NoComp? then Err else Cons(one.comp, ReadComps(one.rest, v6, one.comp.ctype))
  }

  function LongLength(first: byte, second: byte): nat {
    var high: nat := first % 0x10;
    high * 0x100 + second
  }

  /** Strip the length octets; the length must be exactly what follows. */
  function Unframe(data: seq<byte>): Result<seq<byte>> {
    if data == [] then Err
    else if data[0] >= 0xF0 then
      if |data| < 2 || LongLength(data[0], data[1]) != |data| - 2 then Err else Ok(data[2..])
    else
      if data[0] != |data| - 1 then Err else Ok(data[1..])
  }

  function DecodeRaw(data: seq<byte>, v6: bool): Result<seq<RawComp>> {
    var body :- Unframe(data);
    ReadComps(body, v6, 0)
  }

  function Decode(data: seq<byte>, v6: bool): Result<seq<Component>> {
    var cs :- DecodeRaw(data, v6);
    Ok(Views(cs))
  }

  // ---------------------------------------------------------------- the decoder as written

  lemma AfterOpsStep(done: seq<RawOp>, head: RawOp, r: OpsRead)
    ensures AfterOps([], r) == r
    ensures AfterOps(done, AfterOps([head], r)) == AfterOps(done + [head], r)
  {
    if r.Ops? {
      assert [] + r.ops == r.ops;
      assert done + ([head] + r.ops) == done + [head] + r.ops;
    }
  }

  /** One {op, value} pair at the cursor. */
  method ReadOp(data: seq<byte>, start: nat) returns (r: Option<(RawOp, nat)>)
    requires start <= |data|
    ensures r.None? ==> ReadOps(data[start..]).NoOps?
    ensures r.Some? ==> start < r.value.1 <= |data|
    ensures r.Some? ==>
      var (head, next) := r.value;
      ReadOps(data[start..]) == if head.End() then Ops([head], data[next..]) else AfterOps([head], ReadOps(data[next..]))
  {
    if start + 1 > |data| {
      return None;
    }
    var op := data[start];
    var pos := start + 1;
    var width := OpWidth(op);
    if pos + width > |data| {
      return None;
    }
    assert data[start..][1..1 + width] == data[pos..pos + width];
    assert data[start..][1 + width..] == data[pos + width..];
    return Some((RawOp(op, Nat(data[pos..pos + width])), pos + width));
  }

  /** The inner loop of the decoder: read operators until the end bit. */
  method ReadOpList(data: seq<byte>, start: nat) returns (r: Option<(seq<RawOp>, nat)>)
    requires start <= |data|
    ensures r.None? <==> ReadOps(data[start..]).NoOps?
    ensures r.Some? ==> start < r.value.1 <= |data| && ReadOps(data[start..]) == Ops(r.value.0, data[r.value.1..])
  {
    var pos := start;
    var ops: seq<RawOp> := [];
    ghost var all := ReadOps(data[start..]);
    AfterOpsStep([], RawOp(0, 0), all);
    while true
      invariant start <= pos <= |data|
      invariant all == AfterOps(ops, ReadOps(data[pos..]))
      decreases |data| - pos
    {
      var one := ReadOp(data, pos);
      if one.None? {
        return None;
      }
      var (head, next) := one.value;
      if head.End() {
        return Some((ops + [head], next));
      }
      AfterOpsStep(ops, head, ReadOps(data[next..]));
      ops := ops + [head];
      pos := next;
    }
  }

  /** Result of the whole walk, given the components already decoded and what is left. */
  function AfterComps(done: seq<Component>, rest: Result<seq<RawComp>>): Result<seq<Component>> {
    if rest.Err? then Err else Ok(done + Views(rest.value))
  }

  lemma AfterCompsStep(done: seq<Component>, c: RawComp, rest: Result<seq<RawComp>>)
    ensures AfterComps(done, Cons(c, rest)) == AfterComps(done + [View(c)], rest)
  {
    if rest.Ok? {
      assert Views([c] + rest.value) == [View(c)] + Views(rest.value);
      assert done + ([View(c)] + Views(rest.value)) == done + [View(c)] + Views(rest.value);
    }
  }

  method ReadPrefix(data: seq<byte>, start: nat, v6: bool) returns (r: Option<(byte, seq<byte>, nat)>)
    requires start <= |data|
    ensures r.None? <==> ReadNet(data[start..], v6).NoNet?
    ensures r.Some? ==> start < r.value.2 <= |data|
    ensures r.Some? ==> ReadNet(data[start..], v6) == Net(r.value.0, r.value.1, data[r.value.2..])
  {
    var pos := start;
    if pos + 1 > |data| {
      return None;
    }
    var bits := data[pos];
    pos := pos + 1;
    if v6 {
      if pos + 1 > |data| || data[pos] != 0 {
        return None;
      }
      pos := pos + 1;
    }
    var n := OctetsFor(bits);
    if pos + n > |data| {
      return None;
    }
    assert data[start..][pos - start..pos - start + n] == data[pos..pos + n];
    assert data[start..][pos - start + n..] == data[pos + n..];
    var addr := ToAddress(data[pos..pos + n], v6);
    if addr.None? {
      return None;
    }
    return Some((bits, addr.value, pos + n));
  }

  /** One component at the cursor, refused when its type does not ascend. */
  method ReadComponent(data: seq<byte>, pos: nat, v6: bool, last: nat) returns (r: Option<(RawComp, nat)>)
    requires pos < |data|
    ensures r.None? ==> ReadOne(data[pos..], v6, last).NoComp?
    ensures r.Some? ==> pos < r.value.1 <= |data|
    ensures r.Some? ==> ReadOne(data[pos..], v6, last) == One(r.value.0, data[r.value.1..])
  {
    assert data[pos..][1..] == data[pos + 1..];
    var ctype := data[pos];
    if ctype <= last {
      return None;
    }
    if ctype == 1 || ctype == 2 {
      var net := ReadPrefix(data, pos + 1, v6);
      if net.None? {
        return None;
      }
      var (bits, addr, next) := net.value;
      return Some((RawNet(ctype, next - pos, bits, addr), next));
    }
    var list := ReadOpList(data, pos + 1);
    if list.None? {
      return None;
    }
    var (ops, next) := list.value;
    return Some((RawList(ctype, next - pos, ops), next));
  }

  method StripLength(data: seq<byte>) returns (r: Result<nat>)
    ensures r.Err? ==> Unframe(data).Err?
    ensures r.Ok? ==> r.value <= |data| && Unframe(data) == Ok(data[r.value..])
  {
    if |data| < 1 {
      return Err;
    }
    var pos := 1;
    var length: nat := data[0];
    if data[0] >= 0xF0 {
      if |data| < 2 {
        return Err;
      }
      length := LongLength(data[0], data[1]);
      pos := 2;
    }
    if length != |data| - pos {
      return Err;
    }
    return Ok(pos);
  }

  method DecodeFlowspecNlri(data: seq<byte>, v6: bool) returns (r: Result<seq<Component>>)
    ensures r == Decode(data, v6)
  {
    var start := StripLength(data);
    if start.Err? {
      return Err;
    }
    var pos := start.value;
    ghost var all := ReadComps(data[pos..], v6, 0);
    var comps: seq<Component> := [];
    var lastType: nat := 0;
    assert AfterComps([], all) == Decode(data, v6) by {
      if all.Ok? { assert [] + Views(all.value) == Views(all.value); }
    }
    while pos < |data|
      invariant pos <= |data|
      invariant Decode(data, v6) == AfterComps(comps, ReadComps(data[pos..], v6, lastType))
      decreases |data| - pos
    {
      var one := ReadComponent(data, pos, v6, lastType);
      if one.None? {
        return Err;
      }
      var (c, next) := one.value;
      AfterCompsStep(comps, c, ReadComps(data[next..], v6, c.ctype));
      comps := comps + [View(c)];
      lastType := c.ctype;
      pos := next;
    }
    assert data[pos..] == [] && comps + Views([]) == comps;
    return Ok(comps);
  }

  // ---------------------------------------------------------------- the structural checker

  datatype Violation =
    | UnknownType(t: byte)
    | DuplicateType(t: byte)
    | NotAscending(t: byte, last: nat)
    | V6OnlyType(t: byte)
    | NoLengthOctet(t: byte)
    | NoOffsetOctet(t: byte)
    | LengthTooLong(bits: byte, t: byte)
    | TruncatedAddress(t: byte)
    | TruncatedList(t: byte)
    | TruncatedValue(width: nat, t: byte)

  /** A component the checker has passed: its type, its size and the offset octet it skipped. */
  datatype Step = Step(ctype: byte, size: nat, offset: byte)
  datatype Outcome = Outcome(steps: seq<Step>, violation: Option<Violation>)

  datatype Skip = Stop(violation: Violation) | Rest(offset: byte, rest: seq<byte>)

  function SkipOps(s: seq<byte>, t: byte): (r: Skip)
    ensures r.Rest? ==> |r.rest| < |s| && r.offset == 0
    decreases |s|
  {
    if s == [] then Stop(TruncatedList(t)) else
    var width := OpWidth(s[0]);
    if 1 + width > |s| then Stop(TruncatedValue(width, t))
    else if s[0] >= 0x80 then Rest(0, s[1 + width..])
    else SkipOps(s[1 + width..], t)
  }

  function SkipNet(s: seq<byte>, t: byte, v6: bool): (r: Skip)
    ensures r.Rest? ==> |r.rest| < |s|
  {
    if s == [] then Stop(NoLengthOctet(t))
    else if v6 && |s| < 2 then Stop(NoOffsetOctet(t))
    else
      var bits, at := s[0], if v6 then 2 else 1;
      if bits > 8 * Width(v6) then Stop(LengthTooLong(bits, t))
      else if at + OctetsFor(bits) > |s| then Stop(TruncatedAddress(t))
      else Rest(if v6 then s[1] else 0, s[at + OctetsFor(bits)..])
  }

  function SkipBody(s: seq<byte>, t: byte, v6: bool): (r: Skip)
    ensures r.Rest? ==> |r.rest| < |s|
  {
    if t == 1 || t == 2 then SkipNet(s, t, v6) else SkipOps(s, t)
  }

  /** The checks on a type octet that come before its component is read. */
  function TypeViolation(t: byte, v6: bool, last: nat, seen: set<byte>): Option<Violation> {
    if !(1 <= t <= 13) then Some(UnknownType(t))
    else if t in seen then Some(DuplicateType(t))
    else if t < last then Some(NotAscending(t, last))
    else if t == 13 && !v6 then Some(V6OnlyType(t))
    else None
  }

  /** The next component: its type first, then its extent. */
  function CheckOne(s: seq<byte>, v6: bool, last: nat, seen: set<byte>): (r: Skip)
    requires s != []
    ensures r.Rest? ==> |r.rest| < |s|
  {
    var bad := TypeViolation(s[0], v6, last, seen);
    if bad.Some? then Stop(bad.value) else SkipBody(s[1..], s[0], v6)
  }

  function Scan(s: seq<byte>, v6: bool, last: nat, seen: set<byte>): Outcome
    decreases |s|
  {
    if s == [] then Outcome([], None) else
    match CheckOne(s, v6, last, seen)
    case Stop(violation) => Outcome([], Some(violation))
    case Rest(offset, rest) =>
      var after := Scan(rest, v6, s[0], seen + {s[0]});
      Outcome([Step(s[0], |s| - |rest|, offset)] + after.steps, after.violation)
  }

  function CheckAll(data: seq<byte>, v6: bool): Outcome { Scan(data, v6, 0, {}) }

  /** The checker as written: a cursor, the last type and the set of types seen. */
  method FirstViolation(data: seq<byte>, v6: bool) returns (r: Option<Violation>)
    ensures r == CheckAll(data, v6).violation
  {
    var pos: nat := 0;
    var last: nat := 0;
    var seen: set<byte> := {};
    ghost var verdict := CheckAll(data, v6).violation;
    assert data[0..] == data;
    while pos < |data|
      invariant pos <= |data|
      invariant verdict == Scan(data[pos..], v6, last, seen).violation
      decreases |data| - pos
    {
      var skip: Skip := CheckComponent(data, pos, v6, last, seen);
      if skip.Stop? {
        return Some(skip.violation);
      }
      last := data[pos];
      seen := seen + {last};
      pos := |data| - |skip.rest|;
    }
    assert data[pos..] == [];
    return None;
  }

  /** One component at the cursor; what the verdict then depends on. */
  method CheckComponent(data: seq<byte>, pos: nat, v6: bool, last: nat, seen: set<byte>) returns (r: Skip)
    requires pos < |data|
    ensures Scan(data[pos..], v6, last, seen).violation ==
            if r.Stop? then Some(r.violation) else Scan(r.rest, v6, data[pos], seen + {data[pos]}).violation
    ensures r.Rest? ==> |r.rest| < |data| - pos && r.rest == data[|data| - |r.rest|..]
  {
    assert data[pos..][1..] == data[pos + 1..];
    var ctype := data[pos];
    var bad := TypeViolation(ctype, v6, last, seen);
    if bad.Some? {
      return Stop(bad.value);
    }
    if ctype == 1 || ctype == 2 {
      r := SkipPrefix(data, pos + 1, ctype, v6);
    } else {
      r := SkipOpList(data, pos + 1, ctype);
    }
    assert r == CheckOne(data[pos..], v6, last, seen);
  }

  method SkipPrefix(data: seq<byte>, start: nat, ctype: byte, v6: bool) returns (r: Skip)
    requires start <= |data|
    ensures r == SkipNet(data[start..], ctype, v6)
    ensures r.Rest? ==> |r.rest| < |data| - start && r.rest == data[|data| - |r.rest|..]
  {
    var pos := start;
    if pos >= |data| {
      return Stop(NoLengthOctet(ctype));
    }
    var bits := data[pos];
    pos := pos + 1;
    var offset: byte := 0;
    if v6 {
      if pos >= |data| {
        return Stop(NoOffsetOctet(ctype));
      }
      offset := data[pos];
      pos := pos + 1;
    }
    if bits > 8 * Width(v6) {
      return Stop(LengthTooLong(bits, ctype));
    }
    var nbytes := OctetsFor(bits);
    if pos + nbytes > |data| {
      return Stop(TruncatedAddress(ctype));
    }
    assert data[start..][pos - start + nbytes..] == data[pos + nbytes..];
    return Rest(offset, data[pos + nbytes..]);
  }

  /** The inner loop of the checker: skip operators until the end bit. */
  method SkipOpList(data: seq<byte>, start: nat, ctype: byte) returns (r: Skip)
    requires start <= |data|
    ensures r == SkipOps(data[start..], ctype)
    ensures r.Rest? ==> |r.rest| < |data| - start && r.rest == data[|data| - |r.rest|..]
  {
    var pos := start;
    while true
      invariant start <= pos <= |data|
      invariant SkipOps(data[start..], ctype) == SkipOps(data[pos..], ctype)
      decreases |data| - pos
    {
      if pos >= |data| {
        return Stop(TruncatedList(ctype));
      }
      var op := data[pos];
      var width := OpWidth(op);
      if pos + 1 + width > |data| {
        return Stop(TruncatedValue(width, ctype));
      }
      assert data[pos..][1 + width..] == data[pos + 1 + width..];
      pos := pos + 1 + width;
      if op >= 0x80 {
        return Rest(0, data[pos..]);
      }
    }
  }
}
