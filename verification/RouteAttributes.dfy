/** What a reader finds in the decoded attributes of a generated route, told from the user's route alone:
    which attributes in which order, with which flags, and in each of them the user's values. */
module RouteAttributes {
  import opened Bytes
  import opened Framing
  import opened Bgp
  import opened Routes
  import opened UserRoutes

  // ---------------------------------------------------------------- what decoded attributes must say

  /** The value of the first attribute with a code. */
  function Lookup(attrs: seq<Attr>, code: byte): Option<seq<byte>> {
    if attrs == [] then None
    else if attrs[0].code == code then Some(attrs[0].value)
    else Lookup(attrs[1..], code)
  }

  /** Words of four octets, back to back. */
  predicate WordsTold(v: seq<byte>, xs: seq<u32>) {
    var parts := ReadItems(4, v);
    parts.Some? && ReadWords(parts.value) == xs
  }

  /** An AS_PATH value: nothing for an empty path; else one AS_SEQUENCE, the count in one octet, the numbers. */
  predicate PathTold(v: seq<byte>, path: seq<u32>) {
    if path == [] then v == []
    else |v| >= 2 && v[0] == 2 && v[1] == |path| % 256 && WordsTold(v[2..], path)
  }

  /** ORIGIN and AS_PATH come first, as well-known transitive attributes. */
  predicate HeadTold(attrs: seq<Attr>, r: RouteSpec) {
    && |attrs| >= 3
    && attrs[0] == Attr(0x40, 1, [UserOrigin(r)])
    && attrs[1].code == 2 && attrs[1].flags == (if |attrs[1].value| > 255 then 0x50 else 0x40)
    && PathTold(attrs[1].value, UserPath(r))
  }

  /** The type codes their standards assign to the optional attributes: RFC 4271 section 5, RFC 1997,
      RFC 4456, RFC 4360, RFC 5701, RFC 7311 and RFC 8092. */
  const OPTIONAL_CODES: seq<byte> := [4, 5, 6, 7, 8, 9, 10, 16, 25, 26, 32]

  /** And the flags: optional non-transitive, well-known, or optional transitive. */
  function StandardFlags(code: byte): byte {
    if code in {4, 9, 10, 26} then 0x80 else if code in {5, 6} then 0x40 else 0xC0
  }

  predicate BuiltIn(a: Attr) {
    a.code in OPTIONAL_CODES && a.flags == StandardFlags(a.code) + (if |a.value| > 255 then 0x10 else 0)
  }

  predicate Ascending(attrs: seq<Attr>) {
    forall i, j :: 0 <= i < j < |attrs| ==> attrs[i].code < attrs[j].code
  }

  /** A number of four octets under a code, exactly when there is one. */
  predicate NumberAt(attrs: seq<Attr>, code: byte, v: Option<u32>) {
    var found := Lookup(attrs, code);
    if v.Some? then found.Some? && |found.value| == 4 && Nat(found.value) == v.value else found.None?
  }

  /** Items of k octets each under a code, exactly when there are any. */
  predicate ItemsAt(attrs: seq<Attr>, code: byte, k: nat, items: seq<seq<byte>>)
    requires k > 0
  {
    var found := Lookup(attrs, code);
    if items != [] then found.Some? && ReadItems(k, found.value) == Some(items) else found.None?
  }

  /** MULTI_EXIT_DISC and LOCAL_PREF are the user's numbers, COMMUNITY holds the user's words. */
  predicate NumbersTold(attrs: seq<Attr>, r: RouteSpec) {
    && NumberAt(attrs, 4, r.med) && NumberAt(attrs, 5, r.localPref)
    && var comms := Lookup(attrs, 8);
       if r.stdComms != [] then comms.Some? && WordsTold(comms.value, r.stdComms) else comms.None?
  }

  /** ATOMIC_AGGREGATE is empty; AGGREGATOR is an AS number of four octets and an identifier;
      ORIGINATOR_ID is an identifier; AIGP is one TLV of type 1 and length 11 that ends in the metric. */
  predicate FixedFormsTold(attrs: seq<Attr>, r: RouteSpec) {
    && Lookup(attrs, 6) == (if r.atomicAggregate then Some([]) else None)
    && AggregatorTold(Lookup(attrs, 7), r.aggregator)
    && Lookup(attrs, 9) == (if r.originatorId.Some? then Some(r.originatorId.value) else None)
    && AigpTold(Lookup(attrs, 26), r.aigp)
  }

  predicate AggregatorTold(found: Option<seq<byte>>, a: Option<Aggregator>) {
    if a.None? then found.None?
    else found.Some? && |found.value| == 8 && Nat(found.value[..4]) == a.value.asn && found.value[4..] == a.value.id
  }

  predicate AigpTold(found: Option<seq<byte>>, metric: Option<u64>) {
    if metric.None? then found.None?
    else found.Some? && |found.value| == 11 && found.value[..3] == [1, 0, 11] && Nat(found.value[3..]) == metric.value
  }

  /** Cluster list and extended communities of either width, cut apart into the user's items. */
  predicate ItemsTold(attrs: seq<Attr>, r: RouteSpec) {
    && ItemsAt(attrs, 10, 4, r.clusterList)
    && ItemsAt(attrs, 16, 8, UserExtComms(r))
    && ItemsAt(attrs, 25, 20, r.ipv6ExtComms)
  }

  /** A large community is three words: the global administrator and two local parts. */
  predicate LargeTold(parts: seq<seq<byte>>, cs: seq<LargeCommunity>) {
    && |parts| == |cs|
    && forall i :: 0 <= i < |cs| ==> WordsTold(parts[i], [cs[i].global, cs[i].local1, cs[i].local2])
  }

  predicate LargeAt(attrs: seq<Attr>, cs: seq<LargeCommunity>) {
    var found := Lookup(attrs, 32);
    if cs == [] then found.None?
    else found.Some? && ReadItems(12, found.value).Some? && LargeTold(ReadItems(12, found.value).value, cs)
  }

  /** The optional attributes stand in ascending order of their codes, each at most once and with its
      standard flags, and each is there exactly when the user gave it, with what the user gave. */
  predicate OptionalTold(attrs: seq<Attr>, r: RouteSpec) {
    && Ascending(attrs) && (forall i :: 0 <= i < |attrs| ==> BuiltIn(attrs[i]))
    && NumbersTold(attrs, r) && FixedFormsTold(attrs, r) && ItemsTold(attrs, r) && LargeAt(attrs, r.largeComms)
  }

  /** A raw attribute keeps its code, its value and its flags, but for the extended-length bit, which is
      set exactly when the value needs it. */
  predicate RawTold(got: Attr, given: Attr) {
    && got.code == given.code && got.value == given.value
    && got.flags / 0x20 == given.flags / 0x20 && got.flags % 0x10 == given.flags % 0x10
    && (got.flags / 0x10 % 2 == 1 <==> |given.value| > 255)
  }

  predicate RawsTold(got: seq<Attr>, given: seq<Attr>) {
    |got| == |given| && forall i :: 0 <= i < |given| ==> RawTold(got[i], given[i])
  }

  /** All attributes of a route: ORIGIN, AS_PATH, the one with the next hop, the optional ones, and the
      user's raw attributes at the end. */
  predicate AttributesTold(attrs: seq<Attr>, r: RouteSpec) {
    var n := |attrs| - |r.rawAttributes|;
    && n >= 3 && HeadTold(attrs, r) && OptionalTold(attrs[3..n], r) && RawsTold(attrs[n..], r.rawAttributes)
  }

  // ---------------------------------------------------------------- looking attributes up

  function Else(found: Option<seq<byte>>, other: Option<seq<byte>>): Option<seq<byte>> {
    if found.Some? then found else other
  }

  lemma {:induction false} LookupAppend(a: seq<Attr>, b: seq<Attr>, code: byte)
    ensures Lookup(a + b, code) == Else(Lookup(a, code), Lookup(b, code))
  {
    if a == [] {
      assert a + b == b;
    } else {
      assert (a + b)[0] == a[0] && (a + b)[1..] == a[1..] + b;
      LookupAppend(a[1..], b, code);
    }
  }

  lemma LookupOne(a: Attr, code: byte)
    ensures Lookup([a], code) == if a.code == code then Some(a.value) else None
  {
    assert Lookup([a][1..], code) == None;
  }

  /** Looking up does not depend on the flags. */
  lemma {:induction false} LookupEmitted(attrs: seq<Attr>, code: byte)
    ensures Lookup(AllEmitted(attrs), code) == Lookup(attrs, code)
  {
    if attrs != [] {
      AllEmittedCons(attrs);
      LookupEmitted(attrs[1..], code);
      assert AllEmitted(attrs)[1..] == AllEmitted(attrs[1..]);
    }
  }

  predicate DistinctCodes(slots: seq<Slot>) {
    forall i, j :: 0 <= i < j < |slots| ==> slots[i].attr.code != slots[j].attr.code
  }

  predicate NoSlot(slots: seq<Slot>, code: byte) {
    forall i :: 0 <= i < |slots| ==> slots[i].attr.code != code
  }

  lemma LookupLast(slots: seq<Slot>, code: byte)
    requires slots != []
    ensures var last := slots[|slots| - 1];
            Lookup(Chosen(slots), code) ==
            Else(Lookup(Chosen(slots[..|slots| - 1]), code),
                 if last.present && last.attr.code == code then Some(last.attr.value) else None)
  {
    var last := slots[|slots| - 1];
    if last.present {
      LookupAppend(Chosen(slots[..|slots| - 1]), [last.attr], code);
      LookupOne(last.attr, code);
    }
  }

  lemma {:induction false} NoSlotNothing(slots: seq<Slot>, code: byte)
    requires NoSlot(slots, code)
    ensures Lookup(Chosen(slots), code) == None
  {
    if slots != [] {
      NoSlotNothing(slots[..|slots| - 1], code);
      LookupLast(slots, code);
    }
  }

  lemma {:induction false} SlotLookup(slots: seq<Slot>, k: nat)
    requires DistinctCodes(slots) && k < |slots|
    ensures Lookup(Chosen(slots), slots[k].attr.code) ==
            if slots[k].present then Some(slots[k].attr.value) else None
  {
    var n := |slots| - 1;
    LookupLast(slots, slots[k].attr.code);
    if k < n {
      SlotLookup(slots[..n], k);
    } else {
      NoSlotNothing(slots[..n], slots[k].attr.code);
    }
  }

  // ---------------------------------------------------------------- the optional attributes

  lemma SlotIs(p: ParsedRoute, r: RouteSpec, k: nat)
    requires k < 11
    ensures var a := TailSlots(p, r)[k].attr; a.code == OPTIONAL_CODES[k] && a.flags == StandardFlags(a.code)
  {
  }

  predicate AscendingSlots(slots: seq<Slot>) {
    forall i, j :: 0 <= i < j < |slots| ==> slots[i].attr.code < slots[j].attr.code
  }

  lemma TailAscending(p: ParsedRoute, r: RouteSpec)
    ensures AscendingSlots(TailSlots(p, r)) && DistinctCodes(TailSlots(p, r))
  {
    forall i, j | 0 <= i < j < 11
      ensures TailSlots(p, r)[i].attr.code < TailSlots(p, r)[j].attr.code
    {
      SlotIs(p, r, i);
      SlotIs(p, r, j);
    }
  }

  lemma {:induction false} ChosenAt(slots: seq<Slot>, i: nat) returns (k: nat)
    requires i < |Chosen(slots)|
    ensures k < |slots| && Chosen(slots)[i] == slots[k].attr
  {
    var n := |slots| - 1;
    if i < |Chosen(slots[..n])| {
      k := ChosenAt(slots[..n], i);
    } else {
      k := n;
    }
  }

  lemma {:induction false} ChosenAscending(slots: seq<Slot>)
    requires AscendingSlots(slots)
    ensures Ascending(Chosen(slots))
  {
    if slots != [] {
      var n := |slots| - 1;
      var init := Chosen(slots[..n]);
      ChosenAscending(slots[..n]);
      forall i | 0 <= i < |init|
        ensures init[i].code < slots[n].attr.code
      {
        var k := ChosenAt(slots[..n], i);
        assert slots[..n][k] == slots[k];
      }
    }
  }

  /** What is found under the k-th code: the k-th slot's value if it is there. */
  lemma SlotFound(p: ParsedRoute, r: RouteSpec, k: nat)
    requires k < 11
    ensures var slot := TailSlots(p, r)[k];
            Lookup(AllEmitted(Chosen(TailSlots(p, r))), OPTIONAL_CODES[k]) ==
            if slot.present then Some(slot.attr.value) else None
  {
    LookupEmitted(Chosen(TailSlots(p, r)), OPTIONAL_CODES[k]);
    SlotIs(p, r, k);
    TailAscending(p, r);
    SlotLookup(TailSlots(p, r), k);
  }

  lemma OptU32Value(v: Option<u32>)
    requires v.Some?
    ensures |OptU32(v)| == 4 && Nat(OptU32(v)) == v.value
  {
    Pow256Values();
    NatOfBE(4, v.value);
  }

  lemma WordsAreTold(xs: seq<u32>)
    ensures WordsTold(Flat(WordsOf(xs)), xs)
  {
    WordsRoundTrip(xs);
  }

  lemma NumbersEmitted(p: ParsedRoute, r: RouteSpec)
    ensures NumbersTold(AllEmitted(Chosen(TailSlots(p, r))), r)
  {
    SlotFound(p, r, 0);
    SlotFound(p, r, 1);
    SlotFound(p, r, 4);
    if r.med.Some? { OptU32Value(r.med); }
    if r.localPref.Some? { OptU32Value(r.localPref); }
    WordsAreTold(r.stdComms);
  }

  lemma AigpOctets(metric: u64)
    ensures AigpTold(Some(AigpValue(metric)), Some(metric))
  {
    Pow256Values();
    NatOfBE(8, metric);
    assert BE(1, 0) == [0];
    assert U16(11) == [0] + [11];
    assert AigpValue(metric) == [1, 0, 11] + U64(metric);
  }

  lemma AggregatorOctets(a: Aggregator)
    ensures AggregatorTold(Some(AggregatorValue(Some(a))), Some(a))
  {
    Pow256Values();
    NatOfBE(4, a.asn);
    assert AggregatorValue(Some(a))[..4] == U32(a.asn);
  }

  lemma FixedFormsEmitted(p: ParsedRoute, r: RouteSpec)
    ensures FixedFormsTold(AllEmitted(Chosen(TailSlots(p, r))), r)
  {
    SlotFound(p, r, 2);
    SlotFound(p, r, 3);
    SlotFound(p, r, 5);
    SlotFound(p, r, 9);
    if r.aigp.Some? { AigpOctets(r.aigp.value); }
    if r.aggregator.Some? { AggregatorOctets(r.aggregator.value); }
  }

  lemma ItemsEmitted(p: ParsedRoute, r: RouteSpec)
    requires TakenFrom(p, r)
    ensures ItemsTold(AllEmitted(Chosen(TailSlots(p, r))), r)
  {
    SlotFound(p, r, 6);
    SlotFound(p, r, 7);
    SlotFound(p, r, 8);
    ItemsRoundTrip(4, r.clusterList);
    ItemsRoundTrip(8, p.extComms);
    ItemsRoundTrip(20, r.ipv6ExtComms);
  }

  lemma LargePartTold(c: LargeCommunity)
    ensures WordsTold(U32(c.global) + U32(c.local1) + U32(c.local2), [c.global, c.local1, c.local2])
  {
    var words := [c.global, c.local1, c.local2];
    WordsAreTold(words);
    FlatTwo(WordsOf(words)[1], WordsOf(words)[2]);
    assert WordsOf(words)[1..] == [WordsOf(words)[1], WordsOf(words)[2]];
    Assoc(U32(c.global), U32(c.local1), U32(c.local2));
  }

  lemma LargeEmitted(p: ParsedRoute, r: RouteSpec)
    ensures LargeAt(AllEmitted(Chosen(TailSlots(p, r))), r.largeComms)
  {
    SlotFound(p, r, 10);
    ItemsRoundTrip(12, LargeParts(r.largeComms));
    forall i | 0 <= i < |r.largeComms|
      ensures WordsTold(LargeParts(r.largeComms)[i],
                        [r.largeComms[i].global, r.largeComms[i].local1, r.largeComms[i].local2])
    {
      LargePartTold(r.largeComms[i]);
    }
  }

  lemma BuiltInEmitted(a: Attr)
    requires a.code in OPTIONAL_CODES && a.flags == StandardFlags(a.code)
    ensures BuiltIn(Emitted(a))
  {
  }

  lemma ChosenBuiltIn(p: ParsedRoute, r: RouteSpec)
    ensures Ascending(AllEmitted(Chosen(TailSlots(p, r))))
    ensures forall i :: 0 <= i < |AllEmitted(Chosen(TailSlots(p, r)))| ==> BuiltIn(AllEmitted(Chosen(TailSlots(p, r)))[i])
  {
    var slots := TailSlots(p, r);
    var chosen := Chosen(slots);
    TailAscending(p, r);
    ChosenAscending(slots);
    forall i | 0 <= i < |chosen|
      ensures BuiltIn(Emitted(chosen[i]))
    {
      var k := ChosenAt(slots, i);
      SlotIs(p, r, k);
      BuiltInEmitted(chosen[i]);
    }
  }

  lemma OptionalEmitted(p: ParsedRoute, r: RouteSpec)
    requires TakenFrom(p, r)
    ensures OptionalTold(AllEmitted(Chosen(TailSlots(p, r))), r)
  {
    ChosenBuiltIn(p, r);
    NumbersEmitted(p, r);
    FixedFormsEmitted(p, r);
    ItemsEmitted(p, r);
    LargeEmitted(p, r);
  }

  // ---------------------------------------------------------------- all attributes

  /** A route's attributes, whichever attribute carries the next hop. */
  function RouteAttrs(p: ParsedRoute, r: RouteSpec, carrier: Attr): seq<Attr> {
    HeadAttrs(p) + [carrier] + TailAttrs(p, r)
  }

  lemma PathEmitted(path: seq<u32>)
    ensures PathTold(AsPathValue(path), path)
  {
    WordsAreTold(path);
    if path != [] { assert AsPathValue(path)[2..] == Flat(WordsOf(path)); }
  }

  lemma OriginEmitted(origin: byte)
    ensures Emitted(Attr(FLAG_TRANSITIVE, ATTR_ORIGIN, [origin])) == Attr(0x40, 1, [origin])
  {
  }

  lemma PathAttrEmitted(path: seq<u32>)
    ensures var a := Emitted(Attr(FLAG_TRANSITIVE, ATTR_AS_PATH, AsPathValue(path)));
            a.code == 2 && a.flags == (if |a.value| > 255 then 0x50 else 0x40) && PathTold(a.value, path)
  {
    PathEmitted(path);
  }

  lemma EmittedAt(attrs: seq<Attr>, front: seq<Attr>, i: nat)
    requires front <= attrs && i < |front|
    ensures AllEmitted(attrs)[i] == Emitted(front[i])
  {
  }

  lemma HeadEmitted(p: ParsedRoute, r: RouteSpec, carrier: Attr)
    requires TakenFrom(p, r)
    ensures HeadTold(AllEmitted(RouteAttrs(p, r, carrier)), r)
  {
    var attrs, head := RouteAttrs(p, r, carrier), HeadAttrs(p);
    assert head <= attrs && |attrs| >= 3;
    EmittedAt(attrs, head, 0);
    EmittedAt(attrs, head, 1);
    OriginEmitted(p.origin);
    PathAttrEmitted(p.asPath);
  }

  lemma RawsEmitted(raw: seq<Attr>)
    ensures RawsTold(AllEmitted(raw), raw)
  {
    forall i | 0 <= i < |raw|
      ensures RawTold(AllEmitted(raw)[i], raw[i])
    {
      EmittedFlagsBit(raw[i].flags, |raw[i].value|);
    }
  }

  lemma EmittedParts(front: seq<Attr>, chosen: seq<Attr>, raw: seq<Attr>)
    ensures var all := AllEmitted(front + (chosen + raw));
            && all[|front|..|all| - |raw|] == AllEmitted(chosen)
            && all[|all| - |raw|..] == AllEmitted(raw)
  {
  }

  /** The attributes of a route as they are emitted tell what the user said. */
  lemma AllEmittedTold(p: ParsedRoute, r: RouteSpec, carrier: Attr)
    requires TakenFrom(p, r)
    ensures AttributesTold(AllEmitted(RouteAttrs(p, r, carrier)), r)
  {
    HeadEmitted(p, r, carrier);
    OptionalEmitted(p, r);
    RawsEmitted(r.rawAttributes);
    EmittedParts(HeadAttrs(p) + [carrier], Chosen(TailSlots(p, r)), r.rawAttributes);
  }

  /** So do the octets: decoding them, at any size that fits a length field of sixteen bits, gives
      attributes that tell what the user said, and the third of them is the one with the next hop. */
  lemma DecodedAttributesTold(p: ParsedRoute, r: RouteSpec, carrier: Attr)
    requires TakenFrom(p, r) && |AttrsBytes(RouteAttrs(p, r, carrier))| <= 0xFFFF
    ensures var got := ReadAttrs(AttrsBytes(RouteAttrs(p, r, carrier)));
            got.Some? && AttributesTold(got.value, r) && got.value[2] == Emitted(carrier)
  {
    var attrs := RouteAttrs(p, r, carrier);
    TotalFits(attrs);
    AttrsRoundTrip(attrs);
    AllEmittedTold(p, r, carrier);
    assert attrs[2] == carrier;
  }
}
