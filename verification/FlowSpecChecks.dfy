/** The structural checker against the compiler and against the decoder. */
module FlowSpecChecks {
  import opened Bytes
  import opened FlowSpec
  import opened FlowSpecReaders
  import opened FlowSpecWire

  // ---------------------------------------------------------------- scanning compiled rules

  function Types(comps: seq<Comp>): set<byte> { set c <- comps :: c.ctype }

  function StepsOf(comps: seq<Comp>): seq<Step> {
    if comps == [] then [] else [Step(comps[0].ctype, |CompBytes(comps[0])|, 0)] + StepsOf(comps[1..])
  }

  function TotalSize(steps: seq<Step>): nat {
    if steps == [] then 0 else steps[0].size + TotalSize(steps[1..])
  }

  function After(steps: seq<Step>, o: Outcome): Outcome { Outcome(steps + o.steps, o.violation) }

  lemma ScanStep(s: seq<byte>, v6: bool, last: nat, seen: set<byte>)
    requires s != [] && CheckOne(s, v6, last, seen).Rest?
    ensures var skip := CheckOne(s, v6, last, seen);
            Scan(s, v6, last, seen) ==
            After([Step(s[0], |s| - |skip.rest|, skip.offset)], Scan(skip.rest, v6, s[0], seen + {s[0]}))
  {
  }

  lemma ScanOneMore(c: Comp, tail: seq<byte>, v6: bool, last: nat, seen: set<byte>)
    requires CompOk(c, v6) && c.ctype > last && forall t <- seen :: t <= last
    ensures Scan(CompBytes(c) + tail, v6, last, seen) ==
            After([Step(c.ctype, |CompBytes(c)|, 0)], Scan(tail, v6, c.ctype, seen + {c.ctype}))
  {
    CheckComp(c, tail, v6, last, seen);
    ScanStep(CompBytes(c) + tail, v6, last, seen);
  }

  lemma AfterAfter(a: seq<Step>, b: seq<Step>, o: Outcome)
    ensures After([], o) == o
    ensures After(a, After(b, o)) == After(a + b, o)
  {
    assert [] + o.steps == o.steps;
    assert a + (b + o.steps) == a + b + o.steps;
  }

  lemma {:induction false} ScanSerialized(comps: seq<Comp>, tail: seq<byte>, v6: bool, last: nat, seen: set<byte>)
    requires Ascending(comps, last, v6) && forall t <- seen :: t <= last
    ensures Scan(Serialize(comps) + tail, v6, last, seen) ==
            After(StepsOf(comps), Scan(tail, v6, LastType(comps, last), seen + Types(comps)))
  {
    if comps == [] {
      assert [] + tail == tail && seen + Types(comps) == seen;
      AfterAfter([], [], Scan(tail, v6, last, seen));
    } else {
      var c, rest := comps[0], comps[1..];
      ScanSerialized(rest, tail, v6, c.ctype, seen + {c.ctype});
      Assoc(CompBytes(c), Serialize(rest), tail);
      ScanOneMore(c, Serialize(rest) + tail, v6, last, seen);
      TypesHead(comps);
      assert seen + {c.ctype} + Types(rest) == seen + Types(comps);
      assert LastType(rest, c.ctype) == LastType(comps, last);
      AfterAfter([Step(c.ctype, |CompBytes(c)|, 0)], StepsOf(rest),
                 Scan(tail, v6, LastType(comps, last), seen + Types(comps)));
    }
  }

  lemma {:induction false} StepsCoverBytes(comps: seq<Comp>)
    ensures TotalSize(StepsOf(comps)) == |Serialize(comps)|
  {
    if comps != [] {
      StepsCoverBytes(comps[1..]);
      assert StepsOf(comps)[1..] == StepsOf(comps[1..]);
    }
  }

  lemma TypesHead(comps: seq<Comp>)
    requires comps != []
    ensures Types(comps) == {comps[0].ctype} + Types(comps[1..])
  {
    assert comps == [comps[0]] + comps[1..];
  }

  /** The checker passes the whole typed part of any encoded rule, component by component, and
      meets the raw bytes in the state (largest typed type, set of typed types): whatever it
      reports lies in the raw part, and a rule without raw bytes has no violation. */
  lemma TypedPartPasses(r: Rule)
    requires Encode(r).Ok?
    ensures var comps, v6 := Compile(r).value, Encode(r).value.1;
            var body := Serialize(comps) + r.Raw();
            && Unframe(Encode(r).value.0) == Ok(body)
            && CheckAll(body, v6) == After(StepsOf(comps), Scan(r.Raw(), v6, LastType(comps, 0), Types(comps)))
            && TotalSize(StepsOf(comps)) == |body| - |r.Raw()|
    ensures r.Raw() == [] ==> CheckAll(Unframe(Encode(r).value.0).value, Encode(r).value.1).violation == None
  {
    var comps, v6 := Compile(r).value, Family(r).value;
    CompileAscending(r);
    UnframeFrame(Serialize(comps) + r.Raw());
    ScanSerialized(comps, r.Raw(), v6, 0, {});
    StepsCoverBytes(comps);
    assert {} + Types(comps) == Types(comps);
  }

  /** How the checker meets the first raw octet: it goes on to read a component there exactly when
      the type is known, above every typed one and fit for the family; otherwise it stops right
      there and says which of these failed. */
  lemma RawPlaceReported(r: Rule)
    requires Encode(r).Ok? && r.Raw() != []
    ensures var comps, v6, t := Compile(r).value, Encode(r).value.1, r.Raw()[0];
            var last := LastType(comps, 0);
            var bad := TypeViolation(t, v6, last, Types(comps));
            && (bad.None? <==> last < t <= 13 && (t == T_FLOW_LABEL ==> v6))
            && (t in Types(comps) ==> bad == Some(DuplicateType(t)))
            && (1 <= t < last && t !in Types(comps) ==> bad == Some(NotAscending(t, last)))
            && (bad.Some? ==> CheckAll(Serialize(comps) + r.Raw(), v6) == Outcome(StepsOf(comps), bad))
  {
    var comps, v6 := Compile(r).value, Encode(r).value.1;
    CompileAscending(r);
    PlaceInOrder(r.Raw()[0], comps, v6);
    TypedPartPasses(r);
    FirstTypeDecides(r.Raw(), v6, LastType(comps, 0), Types(comps));
    assert StepsOf(comps) + [] == StepsOf(comps);
  }

  lemma PlaceInOrder(t: byte, comps: seq<Comp>, v6: bool)
    requires Ascending(comps, 0, v6)
    ensures var last := LastType(comps, 0);
            var bad := TypeViolation(t, v6, last, Types(comps));
            && (bad.None? <==> last < t <= 13 && (t == T_FLOW_LABEL ==> v6))
            && (t in Types(comps) ==> bad == Some(DuplicateType(t)))
            && (1 <= t < last && t !in Types(comps) ==> bad == Some(NotAscending(t, last)))
  {
    TypesInRange(comps, 0, v6);
  }

  lemma {:induction false} TypesInRange(comps: seq<Comp>, last: nat, v6: bool)
    requires Ascending(comps, last, v6)
    ensures forall t <- Types(comps) :: last < t <= LastType(comps, last) && 1 <= t <= 13
    ensures comps != [] ==> LastType(comps, last) in Types(comps)
    ensures last <= LastType(comps, last)
  {
    if comps != [] {
      TypesHead(comps);
      TypesInRange(comps[1..], comps[0].ctype, v6);
    }
  }

  lemma FirstTypeDecides(s: seq<byte>, v6: bool, last: nat, seen: set<byte>)
    requires s != []
    ensures var bad := TypeViolation(s[0], v6, last, seen);
            bad.Some? ==> Scan(s, v6, last, seen) == Outcome([], bad)
  {
  }

  // ---------------------------------------------------------------- the two readers agree

  ghost predicate SeenUpTo(last: nat, seen: set<byte>) {
    (forall t <- seen :: t <= last) && (last > 0 ==> last in seen)
  }

  /** No component carries a non-zero IPv6 offset octet. */
  predicate OffsetsZero(steps: seq<Step>) {
    forall i :: 0 <= i < |steps| ==> steps[i].offset == 0
  }

  /** Types and sizes of the components each reader found. */
  function StepCuts(steps: seq<Step>): seq<(byte, nat)> {
    if steps == [] then [] else [(steps[0].ctype, steps[0].size)] + StepCuts(steps[1..])
  }

  function RawCuts(raws: seq<RawComp>): seq<(byte, nat)> {
    if raws == [] then [] else [(raws[0].ctype, raws[0].size)] + RawCuts(raws[1..])
  }

  lemma {:induction false} ListsAgree(s: seq<byte>, t: byte)
    ensures SkipOps(s, t).Rest? <==> ReadOps(s).Ops?
    ensures SkipOps(s, t).Rest? ==> ReadOps(s).rest == SkipOps(s, t).rest
    decreases |s|
  {
    if s != [] && 1 + OpWidth(s[0]) <= |s| {
      var width := OpWidth(s[0]);
      if s[0] < 0x80 {
        ListsAgree(s[1 + width..], t);
      }
    }
  }

  lemma NetsAgree(s: seq<byte>, t: byte, v6: bool)
    requires SkipNet(s, t, v6).Rest?
    ensures ReadNet(s, v6).Net? <==> SkipNet(s, t, v6).offset == 0
    ensures ReadNet(s, v6).Net? ==> ReadNet(s, v6).rest == SkipNet(s, t, v6).rest
  {
    assert OctetsFor(s[0]) <= Width(v6);
  }

  lemma OneAgrees(s: seq<byte>, v6: bool, last: nat, seen: set<byte>)
    requires s != [] && SeenUpTo(last, seen) && CheckOne(s, v6, last, seen).Rest?
    ensures s[0] > last
    ensures var skip, read := CheckOne(s, v6, last, seen), ReadOne(s, v6, last);
            (read.One? <==> skip.offset == 0)
            && (read.One? ==> read.rest == skip.rest && read.comp.ctype == s[0] && read.comp.size == |s| - |skip.rest|)
  {
    var t := s[0];
    if t == T_DST_PREFIX || t == T_SRC_PREFIX {
      NetsAgree(s[1..], t, v6);
    } else {
      ListsAgree(s[1..], t);
    }
  }

  /** Both readers accept the rest, in the same pieces, exactly when its offsets are zero. */
  ghost predicate Agree(steps: seq<Step>, read: Result<seq<RawComp>>) {
    (read.Ok? <==> OffsetsZero(steps)) && (read.Ok? ==> RawCuts(read.value) == StepCuts(steps))
  }

  lemma AgreeRefused(step: Step, steps: seq<Step>)
    requires step.offset != 0
    ensures Agree([step] + steps, Err)
  {
    assert ([step] + steps)[0] == step;
  }

  lemma AgreeCons(step: Step, steps: seq<Step>, c: RawComp, read: Result<seq<RawComp>>)
    requires step.offset == 0 && step.ctype == c.ctype && step.size == c.size && Agree(steps, read)
    ensures Agree([step] + steps, Cons(c, read))
  {
    var all := [step] + steps;
    assert all[1..] == steps;
    if OffsetsZero(all) {
      assert forall i :: 0 <= i < |steps| ==> steps[i] == all[i + 1];
    }
    if read.Ok? {
      assert ([c] + read.value)[1..] == read.value;
    }
  }

  /** What the decoder does where the checker has passed a component. */
  lemma DecoderFollows(s: seq<byte>, v6: bool, last: nat, seen: set<byte>, skip: Skip) returns (c: RawComp)
    requires s != [] && SeenUpTo(last, seen) && skip == CheckOne(s, v6, last, seen) && skip.Rest?
    ensures s[0] > last && c.ctype == s[0] && c.size == |s| - |skip.rest|
    ensures ReadComps(s, v6, last) == if skip.offset != 0 then Err else Cons(c, ReadComps(skip.rest, v6, s[0]))
  {
    OneAgrees(s, v6, last, seen);
    var one := ReadOne(s, v6, last);
    if one.One? {
      c := one.comp;
    } else {
      c := RawNet(s[0], |s| - |skip.rest|, 0, []);
    }
  }

  lemma AgreeStep(steps: seq<Step>, read: Result<seq<RawComp>>, step: Step, c: RawComp)
    requires step.ctype == c.ctype && step.size == c.size && Agree(steps, read)
    ensures Agree([step] + steps, if step.offset != 0 then Err else Cons(c, read))
  {
    if step.offset != 0 {
      AgreeRefused(step, steps);
    } else {
      AgreeCons(step, steps, c, read);
    }
  }

  lemma OneStep(s: seq<byte>, v6: bool, last: nat, seen: set<byte>) returns (step: Step, c: RawComp, rest: seq<byte>)
    requires s != [] && SeenUpTo(last, seen) && CheckOne(s, v6, last, seen).Rest?
    ensures |rest| < |s| && s[0] > last && step.ctype == c.ctype && step.size == c.size
    ensures Scan(s, v6, last, seen) == After([step], Scan(rest, v6, s[0], seen + {s[0]}))
    ensures ReadComps(s, v6, last) == if step.offset != 0 then Err else Cons(c, ReadComps(rest, v6, s[0]))
  {
    var skip := CheckOne(s, v6, last, seen);
    ScanStep(s, v6, last, seen);
    c := DecoderFollows(s, v6, last, seen, skip);
    rest := skip.rest;
    step := Step(s[0], |s| - |rest|, skip.offset);
  }

  lemma ScanStopped(s: seq<byte>, v6: bool, last: nat, seen: set<byte>)
    requires s != [] && Scan(s, v6, last, seen).violation.None?
    ensures CheckOne(s, v6, last, seen).Rest?
  {
  }

  lemma {:induction false} ScansAgree(s: seq<byte>, v6: bool, last: nat, seen: set<byte>)
    requires SeenUpTo(last, seen) && Scan(s, v6, last, seen).violation.None?
    ensures Agree(Scan(s, v6, last, seen).steps, ReadComps(s, v6, last))
    decreases |s|
  {
    if s != [] {
      ScanStopped(s, v6, last, seen);
      var step, c, rest := OneStep(s, v6, last, seen);
      ScansAgree(rest, v6, s[0], seen + {s[0]});
      AgreeStep(Scan(rest, v6, s[0], seen + {s[0]}).steps, ReadComps(rest, v6, s[0]), step, c);
    }
  }

  /** Reader agreement: on a component list without violation, the decoder succeeds on the framed
      bytes exactly when all IPv6 offset octets are zero, and then finds the same components at the
      same places. */
  lemma ReadersAgree(data: seq<byte>, v6: bool)
    requires |data| < 4096 && CheckAll(data, v6).violation.None?
    ensures Frame(data).Ok?
    ensures var steps, read := CheckAll(data, v6).steps, DecodeRaw(Frame(data).value, v6);
            && (read.Ok? <==> OffsetsZero(steps))
            && (read.Ok? ==> RawCuts(read.value) == StepCuts(steps))
            && (Decode(Frame(data).value, v6).Ok? <==> read.Ok?)
  {
    UnframeFrame(data);
    ScansAgree(data, v6, 0, {});
  }

  /** IPv4 component lists have no offset octets, so there both readers always agree. */
  lemma {:induction false} V4OffsetsZero(s: seq<byte>, last: nat, seen: set<byte>)
    ensures OffsetsZero(Scan(s, false, last, seen).steps)
    decreases |s|
  {
    if s != [] {
      var skip := CheckOne(s, false, last, seen);
      if skip.Rest? {
        V4OffsetsZero(skip.rest, s[0], seen + {s[0]});
      }
    }
  }

  lemma ReadersAgreeV4(data: seq<byte>)
    requires |data| < 4096 && CheckAll(data, false).violation.None?
    ensures Frame(data).Ok? && Decode(Frame(data).value, false).Ok?
  {
    ReadersAgree(data, false);
    V4OffsetsZero(data, 0, {});
  }

  // ---------------------------------------------------------------- acceptance compared exactly

  /** What the checker asks of a component beyond what the decoder does: a known type, fit for the
      family, and a prefix no longer than an address. */
  predicate Fits(c: RawComp, v6: bool) {
    && c.ctype <= 13 && (c.ctype == T_FLOW_LABEL ==> v6)
    && (c.RawNet? ==> c.bits <= 8 * Width(v6))
  }

  predicate AllFit(cs: seq<RawComp>, v6: bool) {
    forall i :: 0 <= i < |cs| ==> Fits(cs[i], v6)
  }

  /** The decoder reads the rest, and every component it finds fits. */
  predicate ReadsFitting(read: Result<seq<RawComp>>, v6: bool) {
    read.Ok? && AllFit(read.value, v6)
  }

  /** The checker passes the rest, and met no offset octet but zero. */
  predicate PassesPlain(o: Outcome) {
    o.violation.None? && OffsetsZero(o.steps)
  }

  lemma ReadsFittingCons(c: RawComp, read: Result<seq<RawComp>>, v6: bool)
    ensures ReadsFitting(Cons(c, read), v6) <==> Fits(c, v6) && ReadsFitting(read, v6)
  {
    if read.Ok? {
      var all := [c] + read.value;
      assert all[0] == c && forall i :: 0 <= i < |read.value| ==> all[i + 1] == read.value[i];
    }
  }

  lemma PassesPlainAfter(step: Step, o: Outcome)
    ensures PassesPlain(After([step], o)) <==> step.offset == 0 && PassesPlain(o)
  {
    var all := [step] + o.steps;
    assert all[0] == step && forall i :: 0 <= i < |o.steps| ==> all[i + 1] == o.steps[i];
  }

  lemma NetFits(s: seq<byte>, t: byte, v6: bool)
    ensures SkipNet(s, t, v6).Rest? && SkipNet(s, t, v6).offset == 0 <==>
            ReadNet(s, v6).Net? && ReadNet(s, v6).bits <= 8 * Width(v6)
    ensures SkipNet(s, t, v6).Rest? && SkipNet(s, t, v6).offset == 0 ==> ReadNet(s, v6).rest == SkipNet(s, t, v6).rest
  {
  }

  lemma TypeFits(t: byte, v6: bool, last: nat, seen: set<byte>)
    requires SeenUpTo(last, seen)
    ensures TypeViolation(t, v6, last, seen).None? <==> last < t <= 13 && (t == T_FLOW_LABEL ==> v6)
  {
  }

  /** At one component: the checker goes on past a zero offset exactly when the decoder reads a
      component there that fits, and both stand at the same place after it. */
  lemma OneFits(s: seq<byte>, v6: bool, last: nat, seen: set<byte>)
    requires s != [] && SeenUpTo(last, seen)
    ensures var skip, read := CheckOne(s, v6, last, seen), ReadOne(s, v6, last);
            && (skip.Rest? && skip.offset == 0 <==> read.One? && Fits(read.comp, v6))
            && (skip.Rest? && skip.offset == 0 ==> read.rest == skip.rest && read.comp.ctype == s[0])
  {
    TypeFits(s[0], v6, last, seen);
    if s[0] == T_DST_PREFIX || s[0] == T_SRC_PREFIX {
      NetFits(s[1..], s[0], v6);
    } else {
      ListsAgree(s[1..], s[0]);
    }
  }

  lemma ScanOne(s: seq<byte>, v6: bool, last: nat, seen: set<byte>)
    requires s != [] && SeenUpTo(last, seen)
    ensures var skip := CheckOne(s, v6, last, seen);
            PassesPlain(Scan(s, v6, last, seen)) <==>
            skip.Rest? && skip.offset == 0 && PassesPlain(Scan(skip.rest, v6, s[0], seen + {s[0]}))
  {
    var skip := CheckOne(s, v6, last, seen);
    if skip.Rest? {
      ScanStep(s, v6, last, seen);
      PassesPlainAfter(Step(s[0], |s| - |skip.rest|, skip.offset), Scan(skip.rest, v6, s[0], seen + {s[0]}));
    }
  }

  lemma ReadCompsOne(s: seq<byte>, v6: bool, last: nat)
    requires s != []
    ensures var one := ReadOne(s, v6, last);
            ReadsFitting(ReadComps(s, v6, last), v6) <==>
            one.One? && Fits(one.comp, v6) && ReadsFitting(ReadComps(one.rest, v6, one.comp.ctype), v6)
  {
    var one := ReadOne(s, v6, last);
    if one.One? {
      ReadsFittingCons(one.comp, ReadComps(one.rest, v6, one.comp.ctype), v6);
    }
  }

  lemma {:induction false} ScanIffFits(s: seq<byte>, v6: bool, last: nat, seen: set<byte>)
    requires SeenUpTo(last, seen)
    ensures PassesPlain(Scan(s, v6, last, seen)) <==> ReadsFitting(ReadComps(s, v6, last), v6)
    decreases |s|
  {
    if s != [] {
      var skip := CheckOne(s, v6, last, seen);
      OneFits(s, v6, last, seen);
      ScanOne(s, v6, last, seen);
      ReadCompsOne(s, v6, last);
      if skip.Rest? && skip.offset == 0 {
        ScanIffFits(skip.rest, v6, s[0], seen + {s[0]});
      }
    }
  }

  /** The readers compared exactly, on every component list an NLRI can hold: the checker finds no
      violation and no offset octet but zero exactly when the decoder accepts the framed octets and
      every component it finds is of a known type, fit for the family, and no longer than an address. */
  lemma ReadersAgreeIff(data: seq<byte>, v6: bool)
    requires |data| < 4096
    ensures Frame(data).Ok?
    ensures PassesPlain(CheckAll(data, v6)) <==> ReadsFitting(DecodeRaw(Frame(data).value, v6), v6)
  {
    UnframeFrame(data);
    ScanIffFits(data, v6, 0, {});
  }

  /** Acceptance by the decoder alone is not enough: an operator list of type 14 is decoded, and
      refused by the checker as unknown. */
  lemma UnknownTypeDecoded()
    ensures var data := [14, 0x81, 0];
            && Frame(data).Ok? && DecodeRaw(Frame(data).value, false).Ok?
            && CheckAll(data, false).violation == Some(UnknownType(14))
  {
    var data: seq<byte> := [14, 0x81, 0];
    UnframeFrame(data);
    assert data[1..][2..] == [] && data[1..][0] == 0x81;
    assert ReadOps(data[1..]).Ops? && ReadOps(data[1..]).rest == [];
    assert ReadComps([], false, 14) == Ok([]);
  }

  /** So is a flow label in an IPv4 rule. */
  lemma FlowLabelDecodedInV4()
    ensures var data := [13, 0x81, 0];
            && Frame(data).Ok? && DecodeRaw(Frame(data).value, false).Ok?
            && CheckAll(data, false).violation == Some(V6OnlyType(13))
  {
    var data: seq<byte> := [13, 0x81, 0];
    UnframeFrame(data);
    assert data[1..][2..] == [] && data[1..][0] == 0x81;
    assert ReadOps(data[1..]).Ops? && ReadOps(data[1..]).rest == [];
    assert ReadComps([], false, 13) == Ok([]);
  }

  /** And an IPv4 prefix of 128 bits, which the decoder takes for an IPv6 address. */
  lemma LongPrefixDecodedInV4()
    ensures var data := [1, 128] + Zeros(16);
            && Frame(data).Ok? && DecodeRaw(Frame(data).value, false).Ok?
            && CheckAll(data, false).violation == Some(LengthTooLong(128, 1))
  {
    var data: seq<byte> := [1, 128] + Zeros(16);
    UnframeFrame(data);
    assert data[1..][1..17] == Zeros(16) && data[1..][17..] == [];
    assert ReadNet(data[1..], false) == Net(128, Zeros(16), []);
    assert ReadComps([], false, 1) == Ok([]);
  }
}
