/** Field domains and value widths: what validation promises and what a reader finds on the wire. */
module FlowSpecDomains {
  import opened Bytes
  import opened FlowSpec
  import opened FlowSpecReaders
  import opened FlowSpecWire
  import opened FlowSpecMeaning

  /** Largest value a numeric component type may hold. */
  function Domain(t: byte): nat {
    if t == T_PROTOCOL || t == T_ICMP_TYPE || t == T_ICMP_CODE then 0xFF
    else if t == T_DSCP then 63
    else if t == T_FLOW_LABEL then 0xF_FFFF
    else 0xFFFF
  }

  predicate ItemsWithin(items: seq<NumericMatch>, max: nat) {
    forall k :: 0 <= k < |items| ==> ItemElements(items[k]).Ok? && ElementsWithin(ItemElements(items[k]).value, max)
  }

  predicate ElementsWithin(els: seq<Element>, max: nat) {
    forall e <- els :: e.value <= max
  }

  predicate ClauseWithin(t: byte, c: Clause) {
    match c
    case NetClause(net) => net.Some? ==> !PrefixHasHostBits(net.value.addr, net.value.bits)
    case NumClause(items) => ItemsWithin(items, Domain(t))
    case MaskClause(_, _, _) => true
  }

  /** `validate_domains`: no host bits in prefixes, every numeric value within its field. */
  predicate ValidateDomains(r: Rule) {
    forall k :: 0 <= k < 13 ==> ClauseWithin(k + 1, Clauses(r)[k])
  }

  method ValidateNumericMax(items: seq<NumericMatch>, max: nat) returns (ok: bool)
    ensures ok == ItemsWithin(items, max)
  {
    for i := 0 to |items|
      invariant forall k :: 0 <= k < i ==> ItemElements(items[k]).Ok? && ElementsWithin(ItemElements(items[k]).value, max)
    {
      var pairs := NumericPairs(items[i]);
      if pairs.Err? {
        return false;
      }
      for j := 0 to |pairs.value|
        invariant forall m :: 0 <= m < j ==> pairs.value[m].value <= max
      {
        if pairs.value[j].value > max {
          return false;
        }
      }
    }
    return true;
  }

  // ---------------------------------------------------------------- the wire

  /** The value uses the smallest of the widths 1, 2, 4 and 8 that holds it. */
  predicate MinimalWidth(op: RawOp) {
    && op.value < Pow256(op.Octets())
    && forall w <- [1, 2, 4, 8] :: w < op.Octets() ==> op.value >= Pow256(w)
  }

  predicate WidthsOk(c: RawComp) {
    c.RawList? ==> forall op <- c.ops ::
      && MinimalWidth(op)
      && (c.ctype == 9 ==> op.Octets() <= 2) && (c.ctype == 12 ==> op.Octets() <= 1)
  }

  /** A value lies within the field its component looks at: one octet for protocol and the ICMP fields,
      two for ports and packet length, six bits for the DSCP, twenty for the flow label. */
  predicate WithinField(t: nat, v: nat) {
    && (t == 3 || t == 7 || t == 8 ==> v <= 255)
    && (t == 4 || t == 5 || t == 6 || t == 10 ==> v <= 65535)
    && (t == 11 ==> v <= 63)
    && (t == 13 ==> v <= 1048575)
  }

  predicate ValuesOk(c: RawComp) {
    c.RawList? ==> forall op <- c.ops :: WithinField(c.ctype, op.value)
  }

  /** The decoded prefix is the rule's own, octet for octet. */
  predicate PrefixExact(c: RawComp, r: Rule) {
    c.RawNet? ==>
      var net := if c.ctype == 1 then r.dstPrefix else r.srcPrefix;
      net.Some? && c.addr == net.value.addr && c.bits == net.value.bits
  }

  lemma MergeMember(slots: seq<Result<seq<Comp>>>, c: Comp) returns (k: nat)
    requires Merge(slots).Ok? && c in Merge(slots).value
    ensures k < |slots| && slots[k].Ok? && c in slots[k].value
  {
    var n := |slots| - 1;
    if c in slots[n].value {
      k := n;
    } else {
      k := MergeMember(slots[..n], c);
    }
  }

  lemma ElementWidth(end: bool, e: Element)
    ensures MinimalWidth(RawOp(OpOctet(end, e), e.value))
    ensures RawOp(OpOctet(end, e), e.value).Octets() == WidthOf(LenCode(e.value))
  {
    OctetFields(end, e);
    var op := RawOp(OpOctet(end, e), e.value);
    forall w | w in [1, 2, 4, 8] && w < op.Octets()
      ensures e.value >= Pow256(w)
    {
      var d := if w == 1 then 0 else if w == 2 then 1 else 2;
      assert w == WidthOf(d) && d < LenCode(e.value);
    }
  }

  lemma {:induction false} MaskWidths(items: seq<BitmaskMatch>, table: FlagTable, maxLen: nat)
    requires MaskElements(items, table, maxLen).Ok?
    ensures forall e <- MaskElements(items, table, maxLen).value :: WidthOf(LenCode(e.value)) <= maxLen
  {
    if items != [] {
      MaskWidths(items[..|items| - 1], table, maxLen);
    }
  }

  lemma {:induction false} ListWithin(items: seq<NumericMatch>, max: nat)
    requires ListElements(items).Ok? && ItemsWithin(items, max)
    ensures ElementsWithin(ListElements(items).value, max)
  {
    if items != [] {
      var n := |items| - 1;
      assert forall k :: 0 <= k < n ==> items[..n][k] == items[k];
      ListWithin(items[..n], max);
    }
  }

  lemma RawOpMember(els: seq<Element>, op: RawOp) returns (i: nat)
    requires op in RawOpsOf(els)
    ensures i < |els| && op == RawOp(OpOctet(i + 1 == |els|, els[i]), els[i].value)
  {
    i :| 0 <= i < |els| && RawOpsOf(els)[i] == op;
    RawOpsAt(els, i);
  }

  /** Which clause a compiled component comes from. */
  lemma ComponentOrigin(r: Rule, c: Comp) returns (k: nat)
    requires Compile(r).Ok? && c in Compile(r).value
    ensures k < 13 && c.ctype == k + 1
    ensures var clause := Clauses(r)[k];
            match c {
              case NetComp(_, p) => clause == NetClause(Some(p)) && k < 2
              case OpsComp(_, els) =>
                if MaskIndex(k) then clause.MaskClause? && MaskElements(clause.masks, clause.table, clause.maxLen) == Ok(els)
                else clause.NumClause? && ListElements(clause.items) == Ok(els)
            }
  {
    var v6 := Family(r).value;
    k := MergeMember(Slots(r, v6), c);
    ClauseShape(r, k);
    ClauseSlotOk(Clauses(r)[k], k, v6);
  }

  lemma MaskLimits(r: Rule, k: nat)
    requires k < 13 && MaskIndex(k)
    ensures Clauses(r)[k].MaskClause? && Clauses(r)[k].maxLen == if k == 8 then 2 else 1
  {
  }

  lemma WidthsOfComp(r: Rule, c: Comp)
    requires Compile(r).Ok? && c in Compile(r).value
    ensures WidthsOk(RawOf(c))
  {
    if c.OpsComp? {
      var k := ComponentOrigin(r, c);
      if MaskIndex(k) {
        MaskLimits(r, k);
        var clause := Clauses(r)[k];
        MaskWidths(clause.masks, clause.table, clause.maxLen);
      }
      forall op | op in RawOpsOf(c.els)
        ensures MinimalWidth(op) && (c.ctype == 9 ==> op.Octets() <= 2) && (c.ctype == 12 ==> op.Octets() <= 1)
      {
        var i := RawOpMember(c.els, op);
        ElementWidth(i + 1 == |c.els|, c.els[i]);
      }
    }
  }

  /** Every encoded rule uses minimal widths; tcp_flags fit two octets and fragment fits one. */
  lemma WidthsOnWire(r: Rule)
    requires Encode(r).Ok? && r.Raw() == []
    ensures var raws := DecodeRaw(Encode(r).value.0, Encode(r).value.1);
            raws.Ok? && forall i :: 0 <= i < |raws.value| ==> WidthsOk(raws.value[i])
  {
    ReadEncoded(r);
    var comps := Compile(r).value;
    forall i | 0 <= i < |comps| ensures WidthsOk(RawsOf(comps)[i]) { WidthsOfComp(r, comps[i]); }
  }

  lemma DomainsOfComp(r: Rule, c: Comp)
    requires ValidateDomains(r) && Compile(r).Ok? && c in Compile(r).value
    ensures ValuesOk(RawOf(c)) && PrefixExact(RawOf(c), r)
  {
    var k := ComponentOrigin(r, c);
    var clause := Clauses(r)[k];
    assert ClauseWithin(k + 1, clause);
    if c.NetComp? {
      NoHostBitsPadsBack(c.net.addr, c.net.bits);
    } else if !MaskIndex(k) {
      ListWithin(clause.items, Domain(k + 1));
      forall op | op in RawOpsOf(c.els)
        ensures WithinField(c.ctype, op.value)
      {
        var i := RawOpMember(c.els, op);
        assert c.els[i] in c.els;
      }
    }
  }

  /** Domains survive the wire: for a validated rule every numeric value a reader decodes lies in
      its component's domain, and every prefix comes back exactly. */
  lemma DomainsSurvive(r: Rule)
    requires ValidateDomains(r) && Encode(r).Ok? && r.Raw() == []
    ensures var raws := DecodeRaw(Encode(r).value.0, Encode(r).value.1);
            raws.Ok? && forall i :: 0 <= i < |raws.value| ==> ValuesOk(raws.value[i]) && PrefixExact(raws.value[i], r)
  {
    ReadEncoded(r);
    var comps := Compile(r).value;
    forall i | 0 <= i < |comps|
      ensures ValuesOk(RawsOf(comps)[i]) && PrefixExact(RawsOf(comps)[i], r)
    {
      DomainsOfComp(r, comps[i]);
    }
  }
}
