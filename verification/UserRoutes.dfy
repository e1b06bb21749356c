/** What the user says in a route, its defaults included, when a route is accepted by validation, and
    that validation takes over exactly what the user said. */
module UserRoutes {
  import opened Bytes
  import opened Corpora
  import opened Routes
  import FlowSpec
  import FlowSpecReaders
  import FlowSpecDomains
  import FlowSpecAcceptance

  function UserExpected(r: RouteSpec): Expect { if r.expected.Some? then r.expected.value else Valid }
  function UserOrigin(r: RouteSpec): byte { if r.origin.Some? then r.origin.value else 0 }
  function UserPath(r: RouteSpec): seq<u32> { if r.asPath.Some? then r.asPath.value else [64500] }
  function UserNextHop(r: RouteSpec): seq<byte> { if r.nexthop.Some? then r.nexthop.value else [] }
  function UserLabel(r: RouteSpec): u32 { if r.mpls.Some? then r.mpls.value else 0 }

  /** The extended communities the user lists, then those of the actions. */
  function UserExtComms(r: RouteSpec): seq<seq<byte>> {
    if r.actions.Some? then r.extComms + r.actions.value else r.extComms
  }

  /** The next hop: the user's address, behind eight zero octets if there is a distinguisher. */
  function NextHopSaid(r: RouteSpec): seq<byte> {
    if r.rd.Some? then [0, 0, 0, 0, 0, 0, 0, 0] + UserNextHop(r) else UserNextHop(r)
  }

  /** The address family: the prefix's, or the rule's. */
  function UserV6(r: RouteSpec): bool {
    if r.prefix.Some? then r.prefix.value.v6 else r.flowspec.Some? && FlowSpecReaders.FlowV6(r.flowspec.value)
  }

  // ---------------------------------------------------------------- acceptance

  predicate PrefixRouteOk(r: RouteSpec) {
    && r.prefix.Some? && r.flowspec.None? && r.actions.None?
    && r.nexthop.Some? && |r.nexthop.value| == (if UserV6(r) then 16 else 4)
    && (UserExpected(r) == Valid ==> FlowSpecAcceptance.NetClean(r.prefix))
  }

  predicate FlowRouteOk(r: RouteSpec) {
    && r.prefix.None? && r.flowspec.Some? && r.rd.None?
    && (r.nexthop.Some? ==> |r.nexthop.value| == (if UserV6(r) then 16 else 4))
    && FlowSpecAcceptance.Encodable(r.flowspec.value, UserV6(r))
    && (UserExpected(r) == Valid ==>
          FlowSpecAcceptance.RuleWithin(r.flowspec.value) && r.flowspec.value.rawComponents.None?)
  }

  /** A route validation accepts: a prefix with a next hop of its family and no actions, or a rule that
      encodes, without distinguisher; a label only with a distinguisher and below 2^20; an origin of at
      most 2; no abort; and if it is expected to be valid, clean prefixes, values in their domains, no
      raw octets and at most 255 AS numbers. */
  predicate RouteOk(r: RouteSpec) {
    && (PrefixRouteOk(r) || FlowRouteOk(r))
    && UserExpected(r) != Abort && UserOrigin(r) <= 2
    && (r.mpls.Some? ==> r.rd.Some?) && UserLabel(r) < 1048576
    && (UserExpected(r) == Valid ==> |UserPath(r)| <= 255)
  }

  /** What validation takes from a route, field by field. */
  predicate TakenFrom(p: ParsedRoute, r: RouteSpec) {
    && p.v6 == UserV6(r) && p.expected == UserExpected(r)
    && p.origin == UserOrigin(r) && p.asPath == UserPath(r) && p.nexthop == UserNextHop(r)
    && p.extComms == UserExtComms(r) && p.rd == r.rd && p.mpls == UserLabel(r)
    && (r.prefix.Some? <==> p.flowNlri.None?)
    && (r.prefix.Some? ==> p.prefix == r.prefix.value.addr && p.bits == r.prefix.value.bits)
    && (r.flowspec.Some? <==> p.flowNlri.Some?)
    && (r.flowspec.Some? ==> FlowSpec.Encode(r.flowspec.value) == Ok((p.flowNlri.value, p.v6)))
  }

  lemma TargetTaken(r: RouteSpec, expected: Expect)
    requires expected == UserExpected(r)
    ensures var a := ParseTarget(r, expected);
            a.Ok? <==>
              || (r.prefix.Some? && r.flowspec.None? && (expected == Valid ==> FlowSpecAcceptance.NetClean(r.prefix)))
              || (r.prefix.None? && r.flowspec.Some? && FlowSpecAcceptance.Encodable(r.flowspec.value, UserV6(r))
                  && (expected == Valid ==> FlowSpecAcceptance.RuleWithin(r.flowspec.value)
                                            && r.flowspec.value.rawComponents.None?))
    ensures var a := ParseTarget(r, expected);
            a.Ok? ==> a.value.v6 == UserV6(r) && (a.value.flowNlri.None? <==> r.prefix.Some?)
                      && (r.prefix.Some? ==> a.value.prefix == r.prefix.value.addr && a.value.bits == r.prefix.value.bits)
                      && (r.prefix.None? ==> FlowSpec.Encode(r.flowspec.value) == Ok((a.value.flowNlri.value, a.value.v6)))
  {
    if r.prefix.Some? && r.flowspec.None? {
      HostBitsArithmetic(r.prefix.value.addr, r.prefix.value.bits);
    } else if r.prefix.None? && r.flowspec.Some? {
      FlowSpecAcceptance.ValidatedIff(r.flowspec.value);
      FlowSpecAcceptance.EncodedFamily(r.flowspec.value);
    }
  }

  /** The steps of validation, each on its own. */
  predicate StepsOk(r: RouteSpec) {
    var e := ParseExpected(r);
    && e.Ok? && ParseTarget(r, e.value).Ok? && ParseNextHop(r, ParseTarget(r, e.value).value).Ok?
    && Compatible(r) && (e.value == Valid ==> |UserPath(r)| <= 255) && UserOrigin(r) <= 2
  }

  lemma ParsedSteps(r: RouteSpec)
    ensures ParseRoute(r).Ok? <==> StepsOk(r)
    ensures ParseRoute(r).Ok? ==>
              var e := ParseExpected(r).value;
              var a := ParseTarget(r, e).value;
              ParseRoute(r).value ==
              RouteFields(a.v6, a.prefix, a.bits, ParseNextHop(r, a).value, UserOrigin(r), UserPath(r), UserExtComms(r),
                          r.rd, UserLabel(r), a.flowNlri, e)
  {
    assert r.extComms + [] == r.extComms;
  }

  lemma StepsIff(r: RouteSpec)
    ensures StepsOk(r) <==> RouteOk(r)
  {
    TargetTaken(r, UserExpected(r));
  }

  /** Validation accepts exactly the routes described, and takes from each exactly what the user said. */
  lemma ParsedIff(r: RouteSpec)
    ensures ParseRoute(r).Ok? <==> RouteOk(r)
    ensures ParseRoute(r).Ok? ==> TakenFrom(ParseRoute(r).value, r)
  {
    ParsedSteps(r);
    StepsIff(r);
    TargetTaken(r, UserExpected(r));
  }
}
