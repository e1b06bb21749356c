/** Which route lists are accepted, told from the user's routes alone: validation, and sizes that can be
    counted before anything is encoded. */
module RouteAcceptance {
  import opened Bytes
  import opened Framing
  import opened Bgp
  import opened Records
  import opened Corpora
  import opened Routes
  import opened RouteChecks
  import opened UserRoutes
  import opened RouteAttributes
  import FlowSpec
  import FlowSpecAcceptance

  // ---------------------------------------------------------------- sizes

  /** Octets of an attribute whose value has n: flags, code, a length of one or two octets, value. */
  function AttrSize(n: nat): nat { n + if n > 255 then 4 else 3 }

  function OptSize(present: bool, n: nat): nat { if present then AttrSize(n) else 0 }

  function RawSize(raw: seq<Attr>): nat {
    if raw == [] then 0 else AttrSize(|raw[0].value|) + RawSize(raw[1..])
  }

  /** The optional attributes: two metrics of four octets, an empty flag, eight octets of aggregator, words,
      an identifier, a list of identifiers, communities of eight and of twenty octets, the TLV of the
      accumulated metric, communities of twelve. */
  function OptionalSizes(r: RouteSpec): (sizes: seq<nat>)
    ensures |sizes| == 11
  {
    [ OptSize(r.med.Some?, 4), OptSize(r.localPref.Some?, 4), OptSize(r.atomicAggregate, 0),
      OptSize(r.aggregator.Some?, 8), OptSize(r.stdComms != [], 4 * |r.stdComms|), OptSize(r.originatorId.Some?, 4),
      OptSize(r.clusterList != [], 4 * |r.clusterList|), OptSize(UserExtComms(r) != [], 8 * |UserExtComms(r)|),
      OptSize(r.ipv6ExtComms != [], 20 * |r.ipv6ExtComms|), OptSize(r.aigp.Some?, 11),
      OptSize(r.largeComms != [], 12 * |r.largeComms|) ]
  }

  /** All attributes, around one of the given size that holds the next hop. */
  function AttributesSize(r: RouteSpec, carrier: nat): nat {
    AttrSize(1) + AttrSize(if UserPath(r) == [] then 0 else 2 + 4 * |UserPath(r)|) + AttrSize(carrier)
    + FlowSpecAcceptance.Sum(OptionalSizes(r)) + RawSize(r.rawAttributes)
  }

  /** In a dump the next hop stands alone, or behind a length octet and perhaps eight zero octets. */
  function DumpCarrierSize(r: RouteSpec): nat {
    if r.rd.None? && !UserV6(r) then 4 else 1 + |NextHopSaid(r)|
  }

  /** What an update announces: path identifier, then the rule with its length octets, or length, perhaps
      label and distinguisher, and prefix octets. */
  function AnnouncedSize(r: RouteSpec): nat {
    (if r.pathId.Some? then 4 else 0)
    + if r.flowspec.Some? then
        var n := FlowSpecAcceptance.RuleSize(r.flowspec.value);
        n + if n < 240 then 1 else 2
      else if r.prefix.None? then 0
      else (if r.rd.Some? then 12 else 1) + (r.prefix.value.bits + 7) / 8
  }

  predicate PlainV4(r: RouteSpec) { r.flowspec.None? && r.rd.None? && !UserV6(r) }

  /** A whole UPDATE. */
  function UpdateSize(r: RouteSpec): nat {
    if PlainV4(r) then 23 + AttributesSize(r, 4) + AnnouncedSize(r)
    else 23 + AttributesSize(r, 5 + |NextHopSaid(r)| + AnnouncedSize(r))
  }

  /** A dump takes no rules and 65535 octets of attributes, an update stream messages of 4096 octets. */
  predicate SizeOk(r: RouteSpec, format: Format) {
    match format
    case TableDumpV2 => r.flowspec.None? && AttributesSize(r, DumpCarrierSize(r)) <= 65535
    case Bgp4mpUpdates => UpdateSize(r) <= 4096
  }

  // ---------------------------------------------------------------- sizes of what is encoded

  lemma AttrSizeIs(a: Attr)
    ensures |AttrBytes(a)| == AttrSize(|a.value|)
  {
  }

  function SlotSize(s: Slot): nat { OptSize(s.present, |s.attr.value|) }

  lemma {:induction false} ChosenSize(slots: seq<Slot>, sizes: seq<nat>)
    requires |slots| == |sizes| && forall k :: 0 <= k < |slots| ==> SlotSize(slots[k]) == sizes[k]
    ensures |AttrsBytes(Chosen(slots))| == FlowSpecAcceptance.Sum(sizes)
  {
    if slots != [] {
      var n := |slots| - 1;
      ChosenSize(slots[..n], sizes[..n]);
      if slots[n].present {
        AttrsSnoc(Chosen(slots[..n]), slots[n].attr);
        AttrSizeIs(slots[n].attr);
      }
    }
  }

  lemma {:induction false} RawSizeIs(raw: seq<Attr>)
    ensures |AttrsBytes(raw)| == RawSize(raw)
  {
    if raw != [] {
      RawSizeIs(raw[1..]);
      AttrSizeIs(raw[0]);
    }
  }

  lemma WordsSize(xs: seq<u32>)
    ensures |Flat(WordsOf(xs))| == 4 * |xs|
  {
    WordsRoundTrip(xs);
  }

  lemma FirstSlotSizes(p: ParsedRoute, r: RouteSpec, k: nat)
    requires k < 6
    ensures SlotSize(TailSlots(p, r)[k]) == OptionalSizes(r)[k]
  {
    WordsSize(r.stdComms);
  }

  lemma ItemsSize(k: nat, items: seq<seq<byte>>)
    requires forall i :: 0 <= i < |items| ==> |items[i]| == k
    ensures |Flat(items)| == k * |items|
  {
    FlatLength(k, items);
  }

  lemma ListSlotSizes(p: ParsedRoute, r: RouteSpec, k: nat)
    requires 6 <= k < 9 && TakenFrom(p, r)
    ensures SlotSize(TailSlots(p, r)[k]) == OptionalSizes(r)[k]
  {
    if k == 6 {
      ItemsSize(4, r.clusterList);
    } else if k == 7 {
      ItemsSize(8, p.extComms);
    } else {
      ItemsSize(20, r.ipv6ExtComms);
    }
  }

  lemma LastSlotSizes(p: ParsedRoute, r: RouteSpec, k: nat)
    requires 9 <= k < 11
    ensures SlotSize(TailSlots(p, r)[k]) == OptionalSizes(r)[k]
  {
    if k == 10 { ItemsSize(12, LargeParts(r.largeComms)); }
  }

  lemma TailSize(p: ParsedRoute, r: RouteSpec)
    requires TakenFrom(p, r)
    ensures |AttrsBytes(TailAttrs(p, r))| == FlowSpecAcceptance.Sum(OptionalSizes(r)) + RawSize(r.rawAttributes)
  {
    forall k | 0 <= k < 11
      ensures SlotSize(TailSlots(p, r)[k]) == OptionalSizes(r)[k]
    {
      if k < 6 {
        FirstSlotSizes(p, r, k);
      } else if k < 9 {
        ListSlotSizes(p, r, k);
      } else {
        LastSlotSizes(p, r, k);
      }
    }
    ChosenSize(TailSlots(p, r), OptionalSizes(r));
    RawSizeIs(r.rawAttributes);
    AttrsAppend(Chosen(TailSlots(p, r)), r.rawAttributes);
  }

  lemma HeadSize(p: ParsedRoute, r: RouteSpec)
    requires TakenFrom(p, r)
    ensures |AttrsBytes(HeadAttrs(p))| == AttrSize(1) + AttrSize(if UserPath(r) == [] then 0 else 2 + 4 * |UserPath(r)|)
  {
    WordsSize(p.asPath);
    TwoAttrs(HeadAttrs(p)[0], HeadAttrs(p)[1]);
    AttrSizeIs(HeadAttrs(p)[0]);
    AttrSizeIs(HeadAttrs(p)[1]);
  }

  lemma RouteAttrsSize(p: ParsedRoute, r: RouteSpec, carrier: Attr)
    requires TakenFrom(p, r)
    ensures |AttrsBytes(RouteAttrs(p, r, carrier))| == AttributesSize(r, |carrier.value|)
  {
    HeadSize(p, r);
    TailSize(p, r);
    AttrSizeIs(carrier);
    CarrierBetween(HeadAttrs(p), carrier, TailAttrs(p, r));
  }

  lemma NextHopSize(p: ParsedRoute, r: RouteSpec)
    requires TakenFrom(p, r)
    ensures |CarriedNextHop(p)| == |NextHopSaid(r)|
  {
  }

  lemma AnnouncedSizeIs(p: ParsedRoute, r: RouteSpec)
    requires TakenFrom(p, r)
    ensures |WithPathId(r.pathId, RouteNlri(p))| == AnnouncedSize(r)
  {
    if r.flowspec.Some? { FlowSpecAcceptance.EncodedIff(r.flowspec.value, p.v6); }
  }

  lemma DumpSizeIs(p: ParsedRoute, r: RouteSpec)
    requires TakenFrom(p, r) && r.flowspec.None?
    ensures |AttrsBytes(DumpAttrs(p, r))| == AttributesSize(r, DumpCarrierSize(r))
  {
    RouteAttrsSize(p, r, DumpCarrier(p));
    NextHopSize(p, r);
  }

  lemma UpdateSizeIs(p: ParsedRoute, r: RouteSpec)
    requires TakenFrom(p, r)
    ensures |UpdateBytes(p, r)| == UpdateSize(r)
  {
    RouteAttrsSize(p, r, UpdateCarrier(p, r));
    NextHopSize(p, r);
    AnnouncedSizeIs(p, r);
  }

  lemma RecordOkIff(p: ParsedRoute, r: RouteSpec, format: Format, i: nat, ts: u32)
    requires TakenFrom(p, r)
    ensures RouteRecord(format, p, r, i, ts).Ok? <==> SizeOk(r, format)
  {
    if format == TableDumpV2 {
      if r.flowspec.None? { DumpSizeIs(p, r); }
    } else {
      UpdateSizeIs(p, r);
    }
  }

  // ---------------------------------------------------------------- whole lists

  lemma AloneIff(r: RouteSpec, format: Format, i: nat, ts: u32)
    ensures AcceptedAlone(r, format, i, ts) <==> RouteOk(r) && SizeOk(r, format)
  {
    ParsedIff(r);
    if RouteOk(r) {
      RecordOkIff(ParseRoute(r).value, r, format, i, ts);
    }
  }

  /** A route list is accepted exactly when every route is valid on its own and small enough for the
      format: what the others are, where it stands and what the time is do not matter. */
  lemma GeneratedIff(routes: seq<RouteSpec>, format: Format, base: u32)
    ensures Generate(routes, format, base).Ok? <==>
            forall i :: 0 <= i < |routes| ==> RouteOk(routes[i]) && SizeOk(routes[i], format)
  {
    AcceptedIff(routes, format, base);
    forall i | 0 <= i < |routes|
      ensures AcceptedAlone(routes[i], format, i, StampOf(base, Opening(format) + i))
              <==> RouteOk(routes[i]) && SizeOk(routes[i], format)
    {
      AloneIff(routes[i], format, i, StampOf(base, Opening(format) + i));
    }
  }
}
