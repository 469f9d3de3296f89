/** The whole compiler: backends, then routes, then raw resources, then listeners,
    threaded through one manifest; and what the finished manifest guarantees. */
module Build {
  import opened Prelude
  import opened Objects
  import opened Naming
  import opened Middleware
  import opened Backend
  import opened Emit
  import opened L4
  import opened Routes
  import opened ListenerSets

  datatype HttpConfig = HttpConfig(
    routers: Table<HttpRouter>,
    services: Table<HttpService>,
    middlewares: map<string, Json>,
    transports: map<string, Json>)

  datatype DynamicConfig = DynamicConfig(http: HttpConfig, tcp: Option<L4Config>, udp: Option<L4Config>)

  /** A configuration as the build sees it: services classified, rules and entry points
      behind the functions that read them, names behind the functions that make them. */
  datatype Plan = Plan(
    cfg: Config,
    naming: NamingScheme,
    targets: seq<Target>,
    lens: Lens,
    routers: seq<Entry<HttpRouter>>,
    tcp: Option<L4Plan>,
    udp: Option<L4Plan>,
    hostNames: HostNames,
    listenerSetName: string)

  predicate PlanSound(p: Plan) {
    && TargetsSound(p.cfg, p.targets)
    && (p.tcp.Some? ==> TargetsSound(p.cfg, p.tcp.value.targets))
    && (p.udp.Some? ==> TargetsSound(p.cfg, p.udp.value.targets))
  }

  function PlanOf(env: Env, dyn: DynamicConfig): (p: Plan)
    ensures PlanSound(p)
  {
    Plan(env.cfg, ProgramNaming(env.pf),
         HttpTargets(env, dyn.http.services, dyn.http.transports),
         ProgramLens(env.pf.hash, dyn.http.middlewares), dyn.http.routers,
         if dyn.tcp.Some? then Some(L4PlanOf(env, dyn.tcp.value, Tcp)) else None,
         if dyn.udp.Some? then Some(L4PlanOf(env, dyn.udp.value, Udp)) else None,
         ProgramHostNames(env.pf.hash, TemplateOf(env.cfg)), ListenerSetName(env))
  }

  function HttpBackends(p: Plan): Built
    requires PlanSound(p)
  {
    BuildAll(p.cfg, p.naming, Http, p.targets, Built(map[], map[]))
  }

  function HttpRoutes(p: Plan): RouteState
    requires PlanSound(p)
  {
    RouteFold(p.cfg, p.lens, HttpBackends(p).index, p.routers, RouteState([], [], HttpBackends(p).desired))
  }

  /** One raw protocol: nothing unless the block is there and the feature is on. */
  function L4Family(cfg: Config, naming: NamingScheme, block: Option<L4Plan>, f: Family, enabled: bool,
                    d: Desired): L4Result
    requires block.Some? ==> TargetsSound(cfg, block.value.targets)
  {
    if block.None? || !enabled then L4Result([], d) else BuildL4Spec(cfg, naming, f, block.value, d)
  }

  function TcpPart(p: Plan): L4Result
    requires PlanSound(p)
  {
    L4Family(p.cfg, p.naming, p.tcp, Tcp, p.cfg.enableTcpRoutes, HttpRoutes(p).desired)
  }

  function UdpPart(p: Plan): L4Result
    requires PlanSound(p)
  {
    L4Family(p.cfg, p.naming, p.udp, Udp, p.cfg.enableUdpRoutes, TcpPart(p).desired)
  }

  function BuildSpec(p: Plan): Desired
    requires PlanSound(p)
  {
    WithListenerSet(p.cfg, p.hostNames, p.listenerSetName, HttpRoutes(p).hostnames, HttpRoutes(p).httpsHosts,
                    TcpPart(p).listeners + UdpPart(p).listeners, UdpPart(p).desired)
  }

  method BuildL4Family(env: Env, block: Option<L4Config>, f: Family, enabled: bool, before: Desired)
    returns (listeners: seq<Listener>, desired: Desired)
    requires f != Http
    ensures L4Result(listeners, desired) ==
            L4Family(env.cfg, ProgramNaming(env.pf), if block.Some? then Some(L4PlanOf(env, block.value, f)) else None,
                     f, enabled, before)
  {
    if block.None? || !enabled {
      return [], before;
    }
    listeners, desired := BuildL4(env, block.value, f, before);
  }

  /** The phases in the program's order, one manifest threaded through. */
  method BuildDesired(env: Env, dyn: DynamicConfig) returns (desired: Desired)
    ensures desired == BuildSpec(PlanOf(env, dyn))
  {
    var index, hostnames, httpsHosts, tcp, udp;
    index, desired := BuildBackends(env, dyn.http.services, dyn.http.transports, map[]);
    hostnames, httpsHosts, desired := BuildRoutes(env, dyn.http.routers, dyn.http.middlewares, index, desired);
    tcp, desired := BuildL4Family(env, dyn.tcp, Tcp, env.cfg.enableTcpRoutes, desired);
    udp, desired := BuildL4Family(env, dyn.udp, Udp, env.cfg.enableUdpRoutes, desired);
    desired := BuildListenerSet(env, hostnames, httpsHosts, tcp + udp, desired);
  }

  // ---- What each phase adds -------------------------------------------------------------------------

  /** `d'` is `d` with well-formed objects of these kinds added or replaced. */
  predicate Adds(cfg: Config, kinds: set<Kind>, d: Desired, d': Desired) {
    && d.Keys <= d'.Keys
    && forall k :: k in d' ==> (k in d && d'[k] == d[k]) || (k.kind in kinds && WellStamped(cfg, k, d'[k]))
  }

  function BackendKinds(cfg: Config): set<Kind> {
    match cfg.backendKind
    case ServiceMode => {Service, EndpointSlice, BackendTLSPolicy}
    case EnvoyBackendMode => {EnvoyBackend}
  }

  lemma AddsTransitive(cfg: Config, ks: set<Kind>, ls: set<Kind>, a: Desired, b: Desired, c: Desired)
    requires Adds(cfg, ks, a, b) && Adds(cfg, ls, b, c)
    ensures Adds(cfg, ks + ls, a, c)
  {}

  lemma BackendsAdd(cfg: Config, d: Desired, d': Desired)
    requires AddsBackends(cfg, d, d')
    ensures Adds(cfg, BackendKinds(cfg), d, d')
  {}

  /** Every reference without a namespace is in the manifest. */
  predicate RefsResolve(d: Desired) {
    forall k :: k in d ==> LocalRefs(d[k].body) <= d.Keys
  }

  lemma PlainKindsHaveNoRefs(kind: Kind, b: Body)
    requires KindFits(kind, b) && kind !in {HTTPRoute, TCPRoute, UDPRoute}
    ensures LocalRefs(b) == {}
  {}

  lemma AddsKeepsRefs(cfg: Config, kinds: set<Kind>, d: Desired, d': Desired)
    requires Adds(cfg, kinds, d, d') && kinds !! {HTTPRoute, TCPRoute, UDPRoute} && RefsResolve(d)
    ensures RefsResolve(d')
  {
    forall k | k in d' ensures LocalRefs(d'[k].body) <= d'.Keys {
      if !(k in d && d'[k] == d[k]) { PlainKindsHaveNoRefs(k.kind, d'[k].body); }
    }
  }

  /** The index and the manifest it resolves in. */
  predicate IndexResolvesIn(index: Index, d: Desired) {
    forall n :: n in index && index[n].namespace.None? ==> RefTarget(index[n]) in d
  }

  ghost predicate LensValid(lens: Lens) {
    forall s :: ValidLabelOf(lens.routeName, s) && ValidLabelOf(lens.policyName, s)
  }

  predicate ValidLabelOf(name: string -> string, s: string) {
    ValidLabel(name(s))
  }

  lemma ProgramLensIsValid(h: NameHash, middlewares: map<string, Json>)
    ensures LensValid(ProgramLens(h, middlewares))
  {
    var lens := ProgramLens(h, middlewares);
    forall s: string ensures ValidLabelOf(lens.routeName, s) && ValidLabelOf(lens.policyName, s) {
      DnsLabelIsValid(h, "hr" + "-" + s);
      DnsLabelIsValid(h, "sp" + "-" + s);
    }
  }

  lemma EmissionAdds(cfg: Config, lens: Lens, em: Emission, d: Desired)
    requires LensValid(lens) && RefsResolve(d)
    requires ValidLabel(em.name) && em.body.HTTPRouteBody? && LocalRefs(em.body) <= d.Keys
    ensures Adds(cfg, {HTTPRoute, SecurityPolicy}, d, Emitted(cfg, lens, em, d))
    ensures RefsResolve(Emitted(cfg, lens, em, d))
  {
    assert ValidLabelOf(lens.policyName, em.name);
  }

  lemma EmittedAdds(cfg: Config, lens: Lens, backends: Index, e: Entry<HttpRouter>, st: RouteState)
    requires LensValid(lens) && IndexResolvesIn(backends, st.desired) && RefsResolve(st.desired)
    ensures var st' := Perform(cfg, lens, Decide(cfg, lens, backends, e), st);
      Adds(cfg, {HTTPRoute, SecurityPolicy}, st.desired, st'.desired) && RefsResolve(st'.desired)
  {
    var em := Decide(cfg, lens, backends, e);
    if em.Some? {
      assert ValidLabelOf(lens.routeName, e.key);
      assert em.value.body.backend.Some? ==> em.value.body.backend.value == backends[e.value.service];
      EmissionAdds(cfg, lens, em.value, st.desired);
    }
  }

  lemma {:induction false} RoutesAdd(cfg: Config, lens: Lens, backends: Index, routers: seq<Entry<HttpRouter>>,
                                     st: RouteState)
    requires LensValid(lens) && IndexResolvesIn(backends, st.desired) && RefsResolve(st.desired)
    ensures var d' := RouteFold(cfg, lens, backends, routers, st).desired;
      Adds(cfg, {HTTPRoute, SecurityPolicy}, st.desired, d') && RefsResolve(d')
    decreases routers
  {
    if routers != [] {
      var st' := Perform(cfg, lens, Decide(cfg, lens, backends, routers[0]), st);
      EmittedAdds(cfg, lens, backends, routers[0], st);
      RoutesAdd(cfg, lens, backends, routers[1..], st');
      var d' := RouteFold(cfg, lens, backends, routers, st).desired;
      AddsTransitive(cfg, {HTTPRoute, SecurityPolicy}, {HTTPRoute, SecurityPolicy}, st.desired, st'.desired, d');
      assert {HTTPRoute, SecurityPolicy} + {HTTPRoute, SecurityPolicy} == {HTTPRoute, SecurityPolicy};
    }
  }

  function RouteKind(f: Family): Kind {
    if f == Tcp then TCPRoute else UDPRoute
  }

  predicate AreNames(sections: seq<string>, ls: seq<Listener>) {
    forall s :: s in sections ==> exists i :: 0 <= i < |ls| && ls[i].name == s
  }

  /** Routes of this kind attach only to these listeners. */
  predicate SectionsExist(kind: Kind, d: Desired, ls: seq<Listener>) {
    forall k :: k in d && k.kind == kind ==> d[k].body.L4RouteBody? && AreNames(d[k].body.sections, ls)
  }

  lemma {:induction false} SectionsAreListeners(dia: Dialect, f: Family, ports: seq<nat>)
    ensures AreNames(Sections(dia, ports), Listeners(dia, f, ports))
  {
    if ports != [] {
      SectionsAreListeners(dia, f, ports[1..]);
      NamesGrow(Sections(dia, ports[1..]), [MakeListener(dia, f, ports[0])], Listeners(dia, f, ports[1..]), []);
      assert Listeners(dia, f, ports)[0].name == dia.listener(ports[0]);
      assert Listeners(dia, f, ports) == [MakeListener(dia, f, ports[0])] + Listeners(dia, f, ports[1..]) + [];
      assert forall s :: s in Sections(dia, ports) <==> s == dia.listener(ports[0]) || s in Sections(dia, ports[1..]);
    }
  }

  lemma NamesGrow(sections: seq<string>, a: seq<Listener>, b: seq<Listener>, c: seq<Listener>)
    requires AreNames(sections, b)
    ensures AreNames(sections, a + b + c)
  {
    var all := a + b + c;
    forall s | s in sections ensures exists i :: 0 <= i < |all| && all[i].name == s {
      var i :| 0 <= i < |b| && b[i].name == s;
      assert all[|a| + i] == b[i];
    }
  }

  lemma SectionsGrow(kind: Kind, d: Desired, a: seq<Listener>, b: seq<Listener>, c: seq<Listener>)
    requires SectionsExist(kind, d, b)
    ensures SectionsExist(kind, d, a + b + c)
  {
    forall k | k in d && k.kind == kind ensures AreNames(d[k].body.sections, a + b + c) {
      NamesGrow(d[k].body.sections, a, b, c);
    }
  }

  ghost predicate DialectValid(dia: Dialect) {
    forall s: string :: ValidLabelOf(dia.route, s)
  }

  lemma ProgramDialectIsValid(h: NameHash, f: Family)
    ensures DialectValid(ProgramDialect(h, f))
  {
    var dia := ProgramDialect(h, f);
    forall s: string ensures ValidLabelOf(dia.route, s) {
      DnsLabelIsValid(h, Infix(f) + "-" + s);
    }
  }

  lemma AddRouteAdds(cfg: Config, dia: Dialect, f: Family, backends: Index, r: Entry<Router>, mine: seq<nat>,
                     d: Desired)
    requires f != Http && DialectValid(dia) && (mine != [] ==> r.value.service in backends)
    requires IndexResolvesIn(backends, d) && RefsResolve(d)
    ensures var d' := AddRoute(cfg, dia, f, backends, r, mine, d);
      Adds(cfg, {RouteKind(f)}, d, d') && RefsResolve(d')
  {
    assert ValidLabelOf(dia.route, r.key);
  }

  lemma {:induction false} RouteAllAdds(cfg: Config, dia: Dialect, f: Family, backends: Index,
                                        routers: seq<Entry<Router>>, taken: set<nat>, d: Desired)
    requires f != Http && DialectValid(dia) && IndexResolvesIn(backends, d) && RefsResolve(d)
    ensures var r := RouteAll(cfg, dia, f, backends, routers, taken, d);
      Adds(cfg, {RouteKind(f)}, d, r.desired) && RefsResolve(r.desired)
    decreases routers
  {
    if routers != [] {
      var mine := Claims(WantedBy(cfg, dia, f, backends, routers[0].value), taken);
      var d' := AddRoute(cfg, dia, f, backends, routers[0], mine, d);
      AddRouteAdds(cfg, dia, f, backends, routers[0], mine, d);
      RouteAllAdds(cfg, dia, f, backends, routers[1..], taken + ToSet(mine), d');
      var rest := RouteAll(cfg, dia, f, backends, routers[1..], taken + ToSet(mine), d');
      AddsTransitive(cfg, {RouteKind(f)}, {RouteKind(f)}, d, d', rest.desired);
      assert {RouteKind(f)} + {RouteKind(f)} == {RouteKind(f)};
    }
  }

  lemma AddRouteSections(cfg: Config, dia: Dialect, f: Family, backends: Index, r: Entry<Router>, mine: seq<nat>,
                         d: Desired,
                         before: seq<Listener>)
    requires f != Http && (mine != [] ==> r.value.service in backends) && SectionsExist(RouteKind(f), d, before)
    ensures SectionsExist(RouteKind(f), AddRoute(cfg, dia, f, backends, r, mine, d), before + Listeners(dia, f, mine))
  {
    var ls := Listeners(dia, f, mine);
    SectionsGrow(RouteKind(f), d, [], before, ls);
    assert [] + before + ls == before + ls;
    SectionsAreListeners(dia, f, mine);
    NamesGrow(Sections(dia, mine), before, ls, []);
    assert before + ls + [] == before + ls;
  }

  lemma {:induction false} RouteAllSections(cfg: Config, dia: Dialect, f: Family, backends: Index,
                                            routers: seq<Entry<Router>>, taken: set<nat>, d: Desired,
                                            before: seq<Listener>)
    requires f != Http && SectionsExist(RouteKind(f), d, before)
    ensures var r := RouteAll(cfg, dia, f, backends, routers, taken, d);
      SectionsExist(RouteKind(f), r.desired, before + r.listeners)
    decreases routers
  {
    if routers == [] {
      assert before + [] == before;
    } else {
      var mine := Claims(WantedBy(cfg, dia, f, backends, routers[0].value), taken);
      var d' := AddRoute(cfg, dia, f, backends, routers[0], mine, d);
      var ls := Listeners(dia, f, mine);
      AddRouteSections(cfg, dia, f, backends, routers[0], mine, d, before);
      RouteAllSections(cfg, dia, f, backends, routers[1..], taken + ToSet(mine), d', before + ls);
      var rest := RouteAll(cfg, dia, f, backends, routers[1..], taken + ToSet(mine), d');
      assert before + ls + rest.listeners == before + (ls + rest.listeners);
    }
  }

  /** One raw protocol adds backends and its own routes, all attached to its listeners. */
  lemma L4FamilyAdds(cfg: Config, naming: NamingScheme, block: Option<L4Plan>, f: Family, enabled: bool, d: Desired)
    requires block.Some? ==> TargetsSound(cfg, block.value.targets) && DialectValid(block.value.dialect)
    requires f != Http && NamingValid(naming) && RefsResolve(d) && forall k :: k in d ==> k.kind != RouteKind(f)
    ensures var r := L4Family(cfg, naming, block, f, enabled, d);
      && Adds(cfg, BackendKinds(cfg) + {RouteKind(f)}, d, r.desired) && RefsResolve(r.desired)
      && SectionsExist(RouteKind(f), r.desired, r.listeners)
  {
    if block.Some? && enabled {
      var plan, start := block.value, Built(map[], d);
      var b := BuildAll(cfg, naming, f, plan.targets, start);
      BuildResolves(cfg, naming, f, plan.targets, start);
      BackendsAdd(cfg, d, b.desired);
      AddsKeepsRefs(cfg, BackendKinds(cfg), d, b.desired);
      RouteAllAdds(cfg, plan.dialect, f, b.index, plan.routers, {}, b.desired);
      RouteAllSections(cfg, plan.dialect, f, b.index, plan.routers, {}, b.desired, []);
      var r := RouteAll(cfg, plan.dialect, f, b.index, plan.routers, {}, b.desired);
      assert [] + r.listeners == r.listeners;
      AddsTransitive(cfg, BackendKinds(cfg), {RouteKind(f)}, d, b.desired, r.desired);
    }
  }

  // ---- Referential integrity of the finished manifest ------------------------------------------------

  /** Every name the plan can make is a valid label. */
  ghost predicate PlanValid(p: Plan) {
    && PlanSound(p)
    && NamingValid(p.naming) && LensValid(p.lens) && ValidLabel(p.listenerSetName)
    && (p.tcp.Some? ==> DialectValid(p.tcp.value.dialect))
    && (p.udp.Some? ==> DialectValid(p.udp.value.dialect))
  }

  /** The plan of every configuration is valid, so what follows holds of every build. */
  lemma PlanOfIsValid(env: Env, dyn: DynamicConfig)
    ensures PlanValid(PlanOf(env, dyn))
  {
    ProgramNamingIsValid(env.pf);
    ProgramLensIsValid(env.pf.hash, dyn.http.middlewares);
    ProgramDialectIsValid(env.pf.hash, Tcp);
    ProgramDialectIsValid(env.pf.hash, Udp);
    DnsLabelIsValid(env.pf.hash, env.cfg.listenerSetName);
  }

  lemma HttpPhases(p: Plan)
    requires PlanValid(p)
    ensures var r := HttpRoutes(p);
      && Adds(p.cfg, BackendKinds(p.cfg) + {HTTPRoute, SecurityPolicy}, map[], r.desired) && RefsResolve(r.desired)
      && RoutesExplained(p.cfg, p.lens, HttpBackends(p).index, p.routers, r)
  {
    var start := Built(map[], map[]);
    var b := HttpBackends(p);
    BuildResolves(p.cfg, p.naming, Http, p.targets, start);
    BackendsAdd(p.cfg, map[], b.desired);
    AddsKeepsRefs(p.cfg, BackendKinds(p.cfg), map[], b.desired);
    var st := RouteState([], [], b.desired);
    RoutesAdd(p.cfg, p.lens, b.index, p.routers, st);
    AddsTransitive(p.cfg, BackendKinds(p.cfg), {HTTPRoute, SecurityPolicy}, map[], b.desired, HttpRoutes(p).desired);
    NoRoutesYet(p.cfg, p.lens, b.index, b.desired);
    FoldExplains(p.cfg, p.lens, b.index, [], p.routers, st);
    assert [] + p.routers == p.routers;
  }

  lemma NoRoutesYet(cfg: Config, lens: Lens, backends: Index, d: Desired)
    requires Adds(cfg, BackendKinds(cfg), map[], d)
    ensures RoutesExplained(cfg, lens, backends, [], RouteState([], [], d))
  {
    assert forall k :: k in d ==> k.kind !in {HTTPRoute, SecurityPolicy};
  }

  lemma NoneAdded(cfg: Config, kinds: set<Kind>, d: Desired, kind: Kind)
    requires Adds(cfg, kinds, map[], d) && kind !in kinds
    ensures forall k :: k in d ==> k.kind != kind
  {}

  lemma TcpPhase(p: Plan)
    requires PlanValid(p)
    ensures Adds(p.cfg, BackendKinds(p.cfg) + {TCPRoute}, HttpRoutes(p).desired, TcpPart(p).desired)
    ensures Adds(p.cfg, BackendKinds(p.cfg) + {HTTPRoute, SecurityPolicy} + (BackendKinds(p.cfg) + {TCPRoute}),
                 map[], TcpPart(p).desired)
    ensures RefsResolve(TcpPart(p).desired) && SectionsExist(TCPRoute, TcpPart(p).desired, TcpPart(p).listeners)
  {
    var r := HttpRoutes(p).desired;
    HttpPhases(p);
    NoneAdded(p.cfg, BackendKinds(p.cfg) + {HTTPRoute, SecurityPolicy}, r, TCPRoute);
    L4FamilyAdds(p.cfg, p.naming, p.tcp, Tcp, p.cfg.enableTcpRoutes, r);
    AddsTransitive(p.cfg, BackendKinds(p.cfg) + {HTTPRoute, SecurityPolicy}, BackendKinds(p.cfg) + {TCPRoute}, map[], r,
                   TcpPart(p).desired);
  }

  lemma UdpAdds(p: Plan)
    requires PlanValid(p)
    ensures Adds(p.cfg, BackendKinds(p.cfg) + {UDPRoute}, TcpPart(p).desired, UdpPart(p).desired)
    ensures RefsResolve(UdpPart(p).desired)
    ensures SectionsExist(UDPRoute, UdpPart(p).desired, UdpPart(p).listeners)
  {
    var t := TcpPart(p).desired;
    TcpPhase(p);
    NoneAdded(p.cfg, BackendKinds(p.cfg) + {HTTPRoute, SecurityPolicy} + (BackendKinds(p.cfg) + {TCPRoute}), t,
              UDPRoute);
    L4FamilyAdds(p.cfg, p.naming, p.udp, Udp, p.cfg.enableUdpRoutes, t);
  }

  lemma UdpPhase(p: Plan)
    requires PlanValid(p)
    ensures Adds(p.cfg, BackendKinds(p.cfg) + {UDPRoute}, TcpPart(p).desired, UdpPart(p).desired)
    ensures RefsResolve(UdpPart(p).desired)
    ensures SectionsExist(TCPRoute, UdpPart(p).desired, TcpPart(p).listeners)
    ensures SectionsExist(UDPRoute, UdpPart(p).desired, UdpPart(p).listeners)
  {
    TcpPhase(p);
    UdpAdds(p);
    OthersKeepSections(p.cfg, TCPRoute, BackendKinds(p.cfg) + {UDPRoute}, TcpPart(p).desired, UdpPart(p).desired,
                       TcpPart(p).listeners);
  }

  lemma OthersKeepSections(cfg: Config, kind: Kind, kinds: set<Kind>, d: Desired, d': Desired, ls: seq<Listener>)
    requires Adds(cfg, kinds, d, d') && kind !in kinds && SectionsExist(kind, d, ls)
    ensures SectionsExist(kind, d', ls)
  {}

  /** The kinds a build may ever produce. */
  function AllKinds(cfg: Config): set<Kind> {
    BackendKinds(cfg) + {HTTPRoute, SecurityPolicy, TCPRoute, UDPRoute, ListenerSet}
  }

  /** The listeners come last. */
  lemma ListenerSetAdds(p: Plan)
    requires PlanValid(p)
    ensures Adds(p.cfg, {ListenerSet}, UdpPart(p).desired, BuildSpec(p)) && RefsResolve(BuildSpec(p))
  {
    UdpPhase(p);
    assert Adds(p.cfg, {ListenerSet}, UdpPart(p).desired, BuildSpec(p));
    AddsKeepsRefs(p.cfg, {ListenerSet}, UdpPart(p).desired, BuildSpec(p));
  }

  lemma PhasesAdd(p: Plan)
    requires PlanValid(p)
    ensures Adds(p.cfg, AllKinds(p.cfg) - {ListenerSet}, map[], UdpPart(p).desired)
  {
    var t, u, bk := TcpPart(p).desired, UdpPart(p).desired, BackendKinds(p.cfg);
    var before := bk + {HTTPRoute, SecurityPolicy} + (bk + {TCPRoute});
    TcpPhase(p);
    UdpPhase(p);
    AddsTransitive(p.cfg, before, bk + {UDPRoute}, map[], t, u);
    AddsMonotone(p.cfg, before + (bk + {UDPRoute}), AllKinds(p.cfg) - {ListenerSet}, map[], u);
  }

  lemma AfterHttpAdds(p: Plan)
    requires PlanValid(p)
    ensures Adds(p.cfg, AllKinds(p.cfg) - {HTTPRoute, SecurityPolicy}, HttpRoutes(p).desired, BuildSpec(p))
  {
    var r, t, u, d := HttpRoutes(p).desired, TcpPart(p).desired, UdpPart(p).desired, BuildSpec(p);
    var bk := BackendKinds(p.cfg);
    var raw := bk + {TCPRoute} + (bk + {UDPRoute});
    TcpPhase(p);
    UdpPhase(p);
    ListenerSetAdds(p);
    AddsTransitive(p.cfg, bk + {TCPRoute}, bk + {UDPRoute}, r, t, u);
    AddsTransitive(p.cfg, raw, {ListenerSet}, r, u, d);
    AddsMonotone(p.cfg, raw + {ListenerSet}, AllKinds(p.cfg) - {HTTPRoute, SecurityPolicy}, r, d);
  }

  /** The finished manifest against the phases it came from. */
  lemma WholeBuildAdds(p: Plan)
    requires PlanValid(p)
    ensures Adds(p.cfg, AllKinds(p.cfg) - {ListenerSet}, map[], UdpPart(p).desired)
    ensures Adds(p.cfg, {ListenerSet}, UdpPart(p).desired, BuildSpec(p)) && RefsResolve(BuildSpec(p))
    ensures Adds(p.cfg, AllKinds(p.cfg) - {HTTPRoute, SecurityPolicy}, HttpRoutes(p).desired, BuildSpec(p))
  {
    PhasesAdd(p);
    ListenerSetAdds(p);
    AfterHttpAdds(p);
  }

  lemma WholeBuildKinds(p: Plan)
    requires PlanValid(p)
    ensures Adds(p.cfg, AllKinds(p.cfg), map[], BuildSpec(p))
  {
    WholeBuildAdds(p);
    AddsTransitive(p.cfg, AllKinds(p.cfg) - {ListenerSet}, {ListenerSet}, map[], UdpPart(p).desired, BuildSpec(p));
    AddsMonotone(p.cfg, AllKinds(p.cfg) - {ListenerSet} + {ListenerSet}, AllKinds(p.cfg), map[], BuildSpec(p));
  }

  lemma AddsMonotone(cfg: Config, ks: set<Kind>, ls: set<Kind>, a: Desired, b: Desired)
    requires Adds(cfg, ks, a, b) && ks <= ls
    ensures Adds(cfg, ls, a, b)
  {}

  /** Main result: every name of a built manifest is a valid label, every object carries
      the owner labels and sits under its own kind, and every backendRef without a
      namespace names an object of the manifest. */
  lemma ManifestIsWellFormed(p: Plan)
    requires PlanValid(p)
    ensures forall k :: k in BuildSpec(p) ==> ValidLabel(k.name) && WellStamped(p.cfg, k, BuildSpec(p)[k])
    ensures RefsResolve(BuildSpec(p))
  {
    WholeBuildAdds(p);
    WholeBuildKinds(p);
  }

  /** Main result: envoy-backend mode produces no Services, EndpointSlices or
      BackendTLSPolicies, and service mode no Envoy Backends. */
  lemma ModesArePure(p: Plan, k: Key)
    requires PlanValid(p) && k in BuildSpec(p)
    ensures p.cfg.backendKind == EnvoyBackendMode ==> k.kind !in {Service, EndpointSlice, BackendTLSPolicy}
    ensures p.cfg.backendKind == ServiceMode ==> k.kind != EnvoyBackend
  {
    WholeBuildKinds(p);
    KindsOfMode(p.cfg, k.kind);
  }

  lemma KindsOfMode(cfg: Config, kind: Kind)
    requires kind in AllKinds(cfg)
    ensures cfg.backendKind == EnvoyBackendMode ==> kind !in {Service, EndpointSlice, BackendTLSPolicy}
    ensures cfg.backendKind == ServiceMode ==> kind != EnvoyBackend
  {}

  /** The listeners of the one ListenerSet. */
  function ListenersOf(p: Plan): seq<Listener>
    requires PlanSound(p)
  {
    AllListeners(p.cfg, p.hostNames, HttpRoutes(p).hostnames, HttpRoutes(p).httpsHosts,
                 TcpPart(p).listeners + UdpPart(p).listeners)
  }

  /** There is exactly one ListenerSet. */
  lemma SingleListenerSet(p: Plan)
    requires PlanValid(p)
    ensures forall k :: k in BuildSpec(p) && k.kind == ListenerSet <==> k == Key(ListenerSet, p.listenerSetName)
    ensures BuildSpec(p)[Key(ListenerSet, p.listenerSetName)].body == ListenerSetBody(ListenersOf(p))
  {
    WholeBuildAdds(p);
    var u := UdpPart(p).desired;
    forall k | k in u ensures k.kind != ListenerSet { assert k.kind in AllKinds(p.cfg) - {ListenerSet}; }
  }

  /** Main result: each sectionName of a TCPRoute or UDPRoute names a listener of the
      single ListenerSet. */
  lemma SectionsNameListeners(p: Plan, k: Key)
    requires PlanValid(p) && k in BuildSpec(p) && (k.kind == TCPRoute || k.kind == UDPRoute)
    ensures BuildSpec(p)[k].body.L4RouteBody?
    ensures AreNames(BuildSpec(p)[k].body.sections, ListenersOf(p))
  {
    UdpPhase(p);
    var u := UdpPart(p).desired;
    assert k in u && u[k] == BuildSpec(p)[k];
    L4PartOfListeners(p, u[k].body.sections, k.kind);
  }

  lemma L4PartOfListeners(p: Plan, ss: seq<string>, kind: Kind)
    requires PlanSound(p)
    requires AreNames(ss, if kind == TCPRoute then TcpPart(p).listeners else UdpPart(p).listeners)
    ensures AreNames(ss, ListenersOf(p))
  {
    var t, u := TcpPart(p).listeners, UdpPart(p).listeners;
    var http := HttpListeners(p.cfg, p.hostNames, HttpRoutes(p).hostnames);
    var secure := if ServesHttps(p.cfg) then HttpsListeners(p.cfg, p.hostNames, HttpRoutes(p).httpsHosts) else [];
    assert ListenersOf(p) == http + (secure + (t + u));
    Sandwich(ss, http, secure, t, u, kind == TCPRoute);
  }

  lemma Sandwich(ss: seq<string>, a: seq<Listener>, b: seq<Listener>, t: seq<Listener>, u: seq<Listener>, first: bool)
    requires AreNames(ss, if first then t else u)
    ensures AreNames(ss, a + (b + (t + u)))
  {
    if first {
      NamesGrow(ss, a + b, t, u);
      assert a + b + t + u == a + (b + (t + u));
    } else {
      NamesGrow(ss, a + b + t, u, []);
      assert a + b + t + u + [] == a + (b + (t + u));
    }
  }

  /** Does this host have a plain HTTP listener among these? */
  predicate HasHttpListener(cfg: Config, ls: seq<Listener>, host: string) {
    exists i :: 0 <= i < |ls| && ls[i].hostname == Some(host) && ls[i].protocol == "HTTP" && ls[i].port == cfg.httpPort
  }

  lemma RecordedHostsAreServed(p: Plan, host: string)
    requires PlanSound(p) && host in HttpRoutes(p).hostnames
    ensures HasHttpListener(p.cfg, ListenersOf(p), host)
  {
    var hosts := HttpRoutes(p).hostnames;
    var i :| 0 <= i < |hosts| && hosts[i] == host;
    assert ListenersOf(p)[i] == HttpListeners(p.cfg, p.hostNames, hosts)[i];
  }

  /** Main result: each hostname of a route has an HTTP listener. */
  lemma HostnamesHaveListeners(p: Plan, k: Key, host: string)
    requires PlanValid(p) && k in BuildSpec(p) && k.kind == HTTPRoute
    ensures BuildSpec(p)[k].body.HTTPRouteBody?
    ensures host in BuildSpec(p)[k].body.hostnames ==> HasHttpListener(p.cfg, ListenersOf(p), host)
  {
    HttpPhases(p);
    WholeBuildAdds(p);
    var r := HttpRoutes(p);
    assert k in r.desired && r.desired[k] == BuildSpec(p)[k];
    if host in r.desired[k].body.hostnames {
      RecordedHostsAreServed(p, host);
    }
  }

  /** Main result: each policy is fail-closed and targets a route of the manifest. */
  lemma PoliciesTargetRoutes(p: Plan, k: Key)
    requires PlanValid(p) && k in BuildSpec(p) && k.kind == SecurityPolicy
    ensures var b := BuildSpec(p)[k].body;
      b.SecurityPolicyBody? && !b.failOpen && Some(b.authService) == p.cfg.extAuthz
      && Key(HTTPRoute, b.route) in BuildSpec(p) && k.name == p.lens.policyName(b.route)
  {
    HttpPhases(p);
    WholeBuildAdds(p);
    var r := HttpRoutes(p);
    assert k in r.desired && r.desired[k] == BuildSpec(p)[k];
  }

  /** Main result: with ext-authz on, the finished manifest guards every emitted protected
      router by a fail-closed policy if and only if no two of their routes share a policy
      name; `ShortRoutesInjective` shows that names of at most 60 characters never do. */
  lemma ProtectedRoutersAreGuardedIff(p: Plan)
    requires PlanValid(p) && p.cfg.extAuthz.Some?
    ensures (forall e :: e in p.routers && IsGuardDue(p.cfg, p.lens, HttpBackends(p).index, e) ==>
              Guarded(p.cfg, p.lens, BuildSpec(p), NameOf(p.cfg, p.lens, HttpBackends(p).index, e)))
            <==> PolicyNamesInjective(p.cfg, p.lens, HttpBackends(p).index, p.routers)
  {
    var b := HttpBackends(p);
    AllProtectedGuardedIff(p.cfg, p.lens, b.index, p.routers, RouteState([], [], b.desired));
    WholeBuildAdds(p);
    forall route
      ensures Guarded(p.cfg, p.lens, BuildSpec(p), route) <==> Guarded(p.cfg, p.lens, HttpRoutes(p).desired, route)
    {
      var k := Key(SecurityPolicy, p.lens.policyName(route));
      assert k in BuildSpec(p) ==> k in HttpRoutes(p).desired && BuildSpec(p)[k] == HttpRoutes(p).desired[k];
    }
  }

  /** Main result: with neither ext-authz nor the override, every HTTPRoute of the
      manifest comes from a router that is not protected. */
  lemma NoUnguardedRoutes(p: Plan, k: Key)
    requires PlanValid(p) && p.cfg.extAuthz.None? && !p.cfg.allowUnauthenticatedRoutes
    requires k in BuildSpec(p) && k.kind == HTTPRoute
    ensures exists e :: e in p.routers && p.lens.routeName(e.key) == k.name && !p.lens.isProtected(e.value.middlewares)
  {
    HttpPhases(p);
    WholeBuildAdds(p);
    var b, r := HttpBackends(p), HttpRoutes(p);
    assert k in r.desired && FromRouter(p.cfg, p.lens, b.index, p.routers, k.name, r.desired[k].body);
    var e :| e in p.routers && Decide(p.cfg, p.lens, b.index, e).Some?
             && Decide(p.cfg, p.lens, b.index, e).value.name == k.name
             && Decide(p.cfg, p.lens, b.index, e).value.body == r.desired[k].body;
    UnguardedRoutersAreSkipped(p.cfg, p.lens, b.index, e);
  }
}
