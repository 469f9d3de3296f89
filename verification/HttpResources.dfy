/** HTTP routers from configuration to manifest: which are emitted, what their routes say,
    which routes get a policy, and which hosts get a listener. */
module HttpResources {
  import opened Prelude
  import opened Objects
  import opened Naming
  import opened Rule
  import opened RuleGrammar
  import opened Middleware
  import opened Translation
  import opened Address
  import opened Backend
  import opened Emit
  import opened L4
  import opened Routes
  import opened ListenerSets
  import opened Build
  import opened Reach
  import opened Servers

  // ---- What the configuration asks for --------------------------------------------------------------

  /** A service of the table that has servers of any use. */
  ghost predicate IsServedBy(env: Env, dyn: DynamicConfig, name: string, s: int) {
    && 0 <= s < |dyn.http.services| && dyn.http.services[s].key == name
    && !HttpTarget(env, dyn.http.services[s].value, dyn.http.transports).0.Empty?
  }

  ghost predicate IsServed(env: Env, dyn: DynamicConfig, name: string) {
    exists s :: IsServedBy(env, dyn, name, s)
  }

  ghost predicate IsProtected(dyn: DynamicConfig, r: HttpRouter) {
    NeedsAuth(r.middlewares, dyn.http.middlewares)
  }

  /** A router is emitted if its rule can be translated, its service is known, and, should it
      need protection, there is a service to protect it or leave to go without. */
  ghost predicate Emits(env: Env, dyn: DynamicConfig, r: HttpRouter) {
    && IsUsable(ParseSpec(r.rule)) && IsServed(env, dyn, r.service)
    && (IsProtected(dyn, r) ==> env.cfg.extAuthz.Some? || env.cfg.allowUnauthenticatedRoutes)
  }

  function RouteName(env: Env, router: string): string {
    DnsLabel(env.pf.hash, "hr-" + router)
  }

  function PolicyOf(env: Env, route: string): string {
    DnsLabel(env.pf.hash, "sp-" + route)
  }

  function RefTo(env: Env, dyn: DynamicConfig, name: string, s: int): BackendRef
    requires IsServedBy(env, dyn, name, s)
  {
    RefOf(env.cfg, NamesFor(env.pf, Named(Http, name)),
          HttpTarget(env, dyn.http.services[s].value, dyn.http.transports).0)
  }

  /** A route to the service: its reference, unless a filter redirects every request. */
  ghost predicate LeadsTo(env: Env, dyn: DynamicConfig, name: string, filters: seq<Filter>,
                          backend: Option<BackendRef>) {
    if exists i :: 0 <= i < |filters| && filters[i].RequestRedirect? then backend.None?
    else exists s :: IsServedBy(env, dyn, name, s) && backend == Some(RefTo(env, dyn, name, s))
  }

  /** The route of a router: the hosts and path of its rule, the filters of its middlewares,
      and the servers of its service. */
  ghost predicate SaysRouter(env: Env, dyn: DynamicConfig, r: HttpRouter, b: Body) {
    && b.HTTPRouteBody?
    && b.hostnames == ParseSpec(r.rule).hosts && b.path == ParseSpec(r.rule).path
    && b.filters == Merge(TranslateAll(r.middlewares, dyn.http.middlewares))
    && LeadsTo(env, dyn, r.service, b.filters, b.backend)
  }

  predicate WantsHttps(env: Env, r: HttpRouter) {
    env.cfg.enableHttpsListeners && (r.tls || exists i :: 0 <= i < |r.entryPoints| && r.entryPoints[i] == "https")
  }

  // ---- The program's decision -------------------------------------------------------------------------

  /** The index has the reference of the service, if it is served. */
  ghost predicate Serves(env: Env, dyn: DynamicConfig, index: Index, name: string) {
    && (name in index <==> IsServed(env, dyn, name))
    && forall s :: IsServedBy(env, dyn, name, s) ==> name in index && index[name] == RefTo(env, dyn, name, s)
  }

  function ServiceIndex(env: Env, dyn: DynamicConfig): Index {
    BuildAll(env.cfg, ProgramNaming(env.pf), Http, HttpTargets(env, dyn.http.services, dyn.http.transports),
             Built(map[], map[])).index
  }

  lemma IndexServes(env: Env, dyn: DynamicConfig, name: string)
    ensures Serves(env, dyn, ServiceIndex(env, dyn), name)
  {
    var ts := HttpTargets(env, dyn.http.services, dyn.http.transports);
    forall i, j | 0 <= i < j < |ts| ensures ts[i].name != ts[j].name { TableNamesDistinct(dyn.http.services, i, j); }
    IndexIff(env.cfg, ProgramNaming(env.pf), Http, ts, map[], name);
    forall s ensures IsServedBy(env, dyn, name, s) <==> 0 <= s < |ts| && ts[s].name == name && !ts[s].c.Empty? {}
  }

  /** What the decision amounts to, whatever the rule parser and the middlewares say. */
  lemma DecideIs(cfg: Config, lens: Lens, index: Index, e: Entry<HttpRouter>)
    ensures var r, em := e.value, Decide(cfg, lens, index, e);
      && (em.Some? <==> IsUsable(lens.parse(r.rule)) && r.service in index
                        && (lens.isProtected(r.middlewares) ==> cfg.extAuthz.Some? || cfg.allowUnauthenticatedRoutes))
      && (em.Some? ==>
            && em.value.name == lens.routeName(e.key) && em.value.hosts == lens.parse(r.rule).hosts
            && (em.value.https <==> cfg.enableHttpsListeners && (r.tls || "https" in r.entryPoints))
            && em.value.auth == (if lens.isProtected(r.middlewares) then cfg.extAuthz else None)
            && em.value.body == HTTPRouteBody(lens.parse(r.rule).hosts, lens.parse(r.rule).path,
                                              lens.filters(r.middlewares), em.value.body.backend)
            && if exists i :: 0 <= i < |lens.filters(r.middlewares)| && lens.filters(r.middlewares)[i].RequestRedirect?
               then em.value.body.backend.None? else em.value.body.backend == Some(index[r.service]))
  {}

  /** What the plan decides about a router. */
  function Decided(env: Env, dyn: DynamicConfig, e: Entry<HttpRouter>): Option<Emission> {
    Decide(env.cfg, ProgramLens(env.pf.hash, dyn.http.middlewares), ServiceIndex(env, dyn), e)
  }

  ghost predicate IsEmissionOf(env: Env, dyn: DynamicConfig, e: Entry<HttpRouter>, em: Emission) {
    && em.name == RouteName(env, e.key) && em.hosts == ParseSpec(e.value.rule).hosts
    && SaysRouter(env, dyn, e.value, em.body) && (em.https <==> WantsHttps(env, e.value))
    && em.auth == if IsProtected(dyn, e.value) then env.cfg.extAuthz else None
  }

  /** The lens reads the router as the configuration means it. */
  ghost predicate Reads(env: Env, dyn: DynamicConfig, lens: Lens, e: Entry<HttpRouter>) {
    var r := e.value;
    && lens.parse(r.rule) == ParseSpec(r.rule) && lens.routeName(e.key) == RouteName(env, e.key)
    && lens.filters(r.middlewares) == Merge(TranslateAll(r.middlewares, dyn.http.middlewares))
    && (lens.isProtected(r.middlewares) <==> IsProtected(dyn, r))
  }

  lemma ProgramLensReads(env: Env, dyn: DynamicConfig, e: Entry<HttpRouter>)
    ensures Reads(env, dyn, ProgramLens(env.pf.hash, dyn.http.middlewares), e)
  {
    ProtectedIff(e.value.middlewares, dyn.http.middlewares);
    RouteNameIs(env, e.key);
  }

  lemma LeadsToServed(env: Env, dyn: DynamicConfig, index: Index, name: string, filters: seq<Filter>,
                      backend: Option<BackendRef>)
    requires Serves(env, dyn, index, name) && name in index
    requires if exists i :: 0 <= i < |filters| && filters[i].RequestRedirect? then backend.None?
             else backend == Some(index[name])
    ensures LeadsTo(env, dyn, name, filters, backend)
  {
    var s :| IsServedBy(env, dyn, name, s);
    assert index[name] == RefTo(env, dyn, name, s);
  }

  lemma BodySaysRouter(env: Env, dyn: DynamicConfig, index: Index, r: HttpRouter, b: Body)
    requires Serves(env, dyn, index, r.service) && r.service in index && b.HTTPRouteBody?
    requires b.hostnames == ParseSpec(r.rule).hosts && b.path == ParseSpec(r.rule).path
    requires b.filters == Merge(TranslateAll(r.middlewares, dyn.http.middlewares))
    requires if exists i :: 0 <= i < |b.filters| && b.filters[i].RequestRedirect? then b.backend.None?
             else b.backend == Some(index[r.service])
    ensures SaysRouter(env, dyn, r, b)
  {
    LeadsToServed(env, dyn, index, r.service, b.filters, b.backend);
  }

  lemma DecidedBy(env: Env, dyn: DynamicConfig, lens: Lens, index: Index, e: Entry<HttpRouter>)
    requires Serves(env, dyn, index, e.value.service) && Reads(env, dyn, lens, e)
    ensures var em := Decide(env.cfg, lens, index, e);
      && (em.Some? <==> Emits(env, dyn, e.value))
      && (em.Some? ==> IsEmissionOf(env, dyn, e, em.value))
  {
    var r, em := e.value, Decide(env.cfg, lens, index, e);
    DecideIs(env.cfg, lens, index, e);
    assert em.Some? <==> Emits(env, dyn, r);
    if em.Some? {
      BodySaysRouter(env, dyn, index, r, em.value.body);
    }
  }

  lemma DecidedIff(env: Env, dyn: DynamicConfig, e: Entry<HttpRouter>)
    ensures Decided(env, dyn, e).Some? <==> Emits(env, dyn, e.value)
    ensures Emits(env, dyn, e.value) ==> IsEmissionOf(env, dyn, e, Decided(env, dyn, e).value)
  {
    IndexServes(env, dyn, e.value.service);
    ProgramLensReads(env, dyn, e);
    DecidedBy(env, dyn, ProgramLens(env.pf.hash, dyn.http.middlewares), ServiceIndex(env, dyn), e);
  }

  lemma RouteNameIs(env: Env, router: string)
    ensures HttpRouteName(env.pf.hash, router) == RouteName(env, router)
    ensures PolicyName(env.pf.hash, router) == PolicyOf(env, router)
  {
    assert "hr" + "-" == "hr-" && "sp" + "-" == "sp-";
  }

  // ---- The loop over the routers ------------------------------------------------------------------------

  /** Emissions that neither are the object nor bring it leave it alone. */
  predicate Spares(lens: Lens, em: Option<Emission>, k: Key) {
    em.Some? ==>
      && k != Key(HTTPRoute, em.value.name)
      && (em.value.auth.Some? ==> k != Key(SecurityPolicy, lens.policyName(em.value.name)))
  }

  lemma {:induction false} FoldSpares(cfg: Config, lens: Lens, index: Index, routers: seq<Entry<HttpRouter>>,
                                      st: RouteState, k: Key)
    requires forall j :: 0 <= j < |routers| ==> Spares(lens, Decide(cfg, lens, index, routers[j]), k)
    ensures var d' := RouteFold(cfg, lens, index, routers, st).desired;
      (k in d' <==> k in st.desired) && (k in d' ==> d'[k] == st.desired[k])
    decreases routers
  {
    if routers != [] {
      assert forall j :: 0 <= j < |routers| - 1 ==> routers[1..][j] == routers[j + 1];
      FoldSpares(cfg, lens, index, routers[1..], Perform(cfg, lens, Decide(cfg, lens, index, routers[0]), st), k);
    }
  }

  /** What a router puts in stays, if no later one overwrites it. */
  lemma {:induction false} FoldKeepsLast(cfg: Config, lens: Lens, index: Index, routers: seq<Entry<HttpRouter>>,
                                         st: RouteState, i: nat, k: Key)
    requires i < |routers| && !Spares(lens, Decide(cfg, lens, index, routers[i]), k)
    requires forall j :: i < j < |routers| ==> Spares(lens, Decide(cfg, lens, index, routers[j]), k)
    ensures var d', em := RouteFold(cfg, lens, index, routers, st).desired, Decide(cfg, lens, index, routers[i]).value;
      k in d' && d'[k] == if k.kind == HTTPRoute then Obj(OwnerLabels(cfg), em.body)
                          else PolicyObj(cfg, em.auth.value, em.name)
    decreases routers
  {
    var em := Decide(cfg, lens, index, routers[0]);
    assert forall j :: 0 <= j < |routers| - 1 ==> routers[1..][j] == routers[j + 1];
    if i > 0 {
      FoldKeepsLast(cfg, lens, index, routers[1..], Perform(cfg, lens, em, st), i - 1, k);
    } else {
      FoldSpares(cfg, lens, index, routers[1..], Perform(cfg, lens, em, st), k);
    }
  }

  /** The hosts recorded are those of the emitted routers. */
  lemma {:induction false} FoldHosts(cfg: Config, lens: Lens, index: Index, routers: seq<Entry<HttpRouter>>,
                                     st: RouteState, host: string)
    ensures var st' := RouteFold(cfg, lens, index, routers, st);
      && (host in st'.hostnames <==> host in st.hostnames || AnyBrings(cfg, lens, index, routers, host, false))
      && (host in st'.httpsHosts <==> host in st.httpsHosts || AnyBrings(cfg, lens, index, routers, host, true))
    decreases routers
  {
    if routers != [] {
      var em := Decide(cfg, lens, index, routers[0]);
      FoldHosts(cfg, lens, index, routers[1..], Perform(cfg, lens, em, st), host);
      forall secure: bool
        ensures AnyBrings(cfg, lens, index, routers, host, secure) <==>
                Brings(em, host, secure) || AnyBrings(cfg, lens, index, routers[1..], host, secure)
      {
        assert forall j :: 0 <= j < |routers| - 1 ==> routers[1..][j] == routers[j + 1];
        if j :| 0 <= j < |routers| && Brings(Decide(cfg, lens, index, routers[j]), host, secure) {
          if j > 0 { assert routers[1..][j - 1] == routers[j]; }
        }
      }
    }
  }

  predicate AnyBrings(cfg: Config, lens: Lens, index: Index, routers: seq<Entry<HttpRouter>>, host: string,
                      secure: bool) {
    exists j :: 0 <= j < |routers| && Brings(Decide(cfg, lens, index, routers[j]), host, secure)
  }

  predicate Brings(em: Option<Emission>, host: string, secure: bool) {
    em.Some? && host in em.value.hosts && (secure ==> em.value.https)
  }

  // ---- Routes and policies of the finished manifest -----------------------------------------------------

  function RouterAt(dyn: DynamicConfig, i: int): HttpRouter
    requires 0 <= i < |dyn.http.routers|
  {
    dyn.http.routers[i].value
  }

  function RouteAt(env: Env, dyn: DynamicConfig, i: int): string
    requires 0 <= i < |dyn.http.routers|
  {
    RouteName(env, dyn.http.routers[i].key)
  }

  ghost predicate EmittedAt(env: Env, dyn: DynamicConfig, i: int) {
    0 <= i < |dyn.http.routers| && Emits(env, dyn, RouterAt(dyn, i))
  }

  /** The router is emitted, and no later one takes its route name. */
  ghost predicate IsLastRoute(env: Env, dyn: DynamicConfig, i: int) {
    EmittedAt(env, dyn, i)
    && forall j :: i < j && EmittedAt(env, dyn, j) ==> RouteAt(env, dyn, j) != RouteAt(env, dyn, i)
  }

  /** The route of the router is to be guarded. */
  ghost predicate OwesPolicy(env: Env, dyn: DynamicConfig, i: int) {
    EmittedAt(env, dyn, i) && IsProtected(dyn, RouterAt(dyn, i)) && env.cfg.extAuthz.Some?
  }

  function PolicyAt(env: Env, dyn: DynamicConfig, i: int): string
    requires 0 <= i < |dyn.http.routers|
  {
    PolicyOf(env, RouteAt(env, dyn, i))
  }

  ghost predicate IsLastPolicy(env: Env, dyn: DynamicConfig, i: int) {
    OwesPolicy(env, dyn, i)
    && forall j :: i < j && OwesPolicy(env, dyn, j) ==> PolicyAt(env, dyn, j) != PolicyAt(env, dyn, i)
  }

  /** HTTPRoutes and policies of the manifest, name by name. */
  ghost predicate RoutesAre(env: Env, dyn: DynamicConfig, d: Desired) {
    && (forall i :: IsLastRoute(env, dyn, i) ==>
          var k := Key(HTTPRoute, RouteAt(env, dyn, i));
          k in d && d[k].labels == OwnerLabels(env.cfg) && SaysRouter(env, dyn, RouterAt(dyn, i), d[k].body))
    && (forall k :: k in d && k.kind == HTTPRoute ==>
          exists i :: IsLastRoute(env, dyn, i) && k.name == RouteAt(env, dyn, i))
  }

  ghost predicate PoliciesAre(env: Env, dyn: DynamicConfig, d: Desired) {
    && (forall i :: IsLastPolicy(env, dyn, i) ==>
          var k := Key(SecurityPolicy, PolicyAt(env, dyn, i));
          k in d && d[k] == Obj(OwnerLabels(env.cfg),
                                SecurityPolicyBody(RouteAt(env, dyn, i), env.cfg.extAuthz.value, false)))
    && (forall k :: k in d && k.kind == SecurityPolicy ==>
          exists i :: IsLastPolicy(env, dyn, i) && k.name == PolicyAt(env, dyn, i))
  }

  /** The manifest after the http phase. */
  function HttpPart(env: Env, dyn: DynamicConfig): RouteState {
    HttpRoutes(PlanOf(env, dyn))
  }

  function BackendsPart(env: Env, dyn: DynamicConfig): Desired {
    BuildAll(env.cfg, ProgramNaming(env.pf), Http, HttpTargets(env, dyn.http.services, dyn.http.transports),
             Built(map[], map[])).desired
  }

  lemma HttpPartIs(env: Env, dyn: DynamicConfig)
    ensures HttpPart(env, dyn) ==
            RouteFold(env.cfg, ProgramLens(env.pf.hash, dyn.http.middlewares), ServiceIndex(env, dyn),
                      dyn.http.routers, RouteState([], [], BackendsPart(env, dyn)))
  {}

  lemma BackendsHaveNoRoutes(env: Env, dyn: DynamicConfig)
    ensures forall k :: k in BackendsPart(env, dyn) ==> k.kind != HTTPRoute && k.kind != SecurityPolicy
  {
    var ts := HttpTargets(env, dyn.http.services, dyn.http.transports);
    ProgramNamingIsValid(env.pf);
    BuildResolves(env.cfg, ProgramNaming(env.pf), Http, ts, Built(map[], map[]));
  }

  /** Which objects a router writes, in terms of the configuration. */
  lemma SparesIff(env: Env, dyn: DynamicConfig, i: nat, k: Key)
    requires i < |dyn.http.routers|
    ensures var lens := ProgramLens(env.pf.hash, dyn.http.middlewares);
      Spares(lens, Decided(env, dyn, dyn.http.routers[i]), k) <==>
      !(EmittedAt(env, dyn, i) && k == Key(HTTPRoute, RouteAt(env, dyn, i)))
      && !(OwesPolicy(env, dyn, i) && k == Key(SecurityPolicy, PolicyAt(env, dyn, i)))
  {
    DecidedIff(env, dyn, dyn.http.routers[i]);
    RouteNameIs(env, RouteAt(env, dyn, i));
  }

  lemma LastRouteStands(env: Env, dyn: DynamicConfig, i: int)
    requires IsLastRoute(env, dyn, i)
    ensures var d, k := HttpPart(env, dyn).desired, Key(HTTPRoute, RouteAt(env, dyn, i));
      k in d && d[k].labels == OwnerLabels(env.cfg) && SaysRouter(env, dyn, RouterAt(dyn, i), d[k].body)
  {
    var lens, k := ProgramLens(env.pf.hash, dyn.http.middlewares), Key(HTTPRoute, RouteAt(env, dyn, i));
    forall j | i <= j < |dyn.http.routers|
      ensures Spares(lens, Decided(env, dyn, dyn.http.routers[j]), k) <==> j != i
    {
      SparesIff(env, dyn, j, k);
    }
    DecidedIff(env, dyn, dyn.http.routers[i]);
    HttpPartIs(env, dyn);
    FoldKeepsLast(env.cfg, lens, ServiceIndex(env, dyn), dyn.http.routers, RouteState([], [], BackendsPart(env, dyn)),
                  i, k);
  }

  lemma LastPolicyStands(env: Env, dyn: DynamicConfig, i: int)
    requires IsLastPolicy(env, dyn, i)
    ensures var d, k := HttpPart(env, dyn).desired, Key(SecurityPolicy, PolicyAt(env, dyn, i));
      k in d && d[k] == Obj(OwnerLabels(env.cfg),
                            SecurityPolicyBody(RouteAt(env, dyn, i), env.cfg.extAuthz.value, false))
  {
    var lens, k := ProgramLens(env.pf.hash, dyn.http.middlewares), Key(SecurityPolicy, PolicyAt(env, dyn, i));
    forall j | i <= j < |dyn.http.routers|
      ensures Spares(lens, Decided(env, dyn, dyn.http.routers[j]), k) <==> j != i
    {
      SparesIff(env, dyn, j, k);
    }
    DecidedIff(env, dyn, dyn.http.routers[i]);
    HttpPartIs(env, dyn);
    FoldKeepsLast(env.cfg, lens, ServiceIndex(env, dyn), dyn.http.routers, RouteState([], [], BackendsPart(env, dyn)),
                  i, k);
  }

  lemma {:induction false} LastRoute(env: Env, dyn: DynamicConfig, i: int) returns (j: int)
    requires EmittedAt(env, dyn, i)
    ensures IsLastRoute(env, dyn, j) && RouteAt(env, dyn, j) == RouteAt(env, dyn, i)
    decreases |dyn.http.routers| - i
  {
    j := i;
    if !IsLastRoute(env, dyn, i) {
      var k :| i < k && EmittedAt(env, dyn, k) && RouteAt(env, dyn, k) == RouteAt(env, dyn, i);
      j := LastRoute(env, dyn, k);
    }
  }

  lemma {:induction false} LastPolicy(env: Env, dyn: DynamicConfig, i: int) returns (j: int)
    requires OwesPolicy(env, dyn, i)
    ensures IsLastPolicy(env, dyn, j) && PolicyAt(env, dyn, j) == PolicyAt(env, dyn, i)
    decreases |dyn.http.routers| - i
  {
    j := i;
    if !IsLastPolicy(env, dyn, i) {
      var k :| i < k && OwesPolicy(env, dyn, k) && PolicyAt(env, dyn, k) == PolicyAt(env, dyn, i);
      j := LastPolicy(env, dyn, k);
    }
  }

  /** Every route and policy is some router's. */
  lemma WrittenBySome(env: Env, dyn: DynamicConfig, k: Key)
    requires k in HttpPart(env, dyn).desired && (k.kind == HTTPRoute || k.kind == SecurityPolicy)
    ensures if k.kind == HTTPRoute then exists i :: EmittedAt(env, dyn, i) && k.name == RouteAt(env, dyn, i)
            else exists i :: OwesPolicy(env, dyn, i) && k.name == PolicyAt(env, dyn, i)
  {
    var lens := ProgramLens(env.pf.hash, dyn.http.middlewares);
    forall j | 0 <= j < |dyn.http.routers|
      ensures Spares(lens, Decided(env, dyn, dyn.http.routers[j]), k) <==>
              !(EmittedAt(env, dyn, j) && k == Key(HTTPRoute, RouteAt(env, dyn, j)))
              && !(OwesPolicy(env, dyn, j) && k == Key(SecurityPolicy, PolicyAt(env, dyn, j)))
    {
      SparesIff(env, dyn, j, k);
    }
    if forall j :: 0 <= j < |dyn.http.routers| ==> Spares(lens, Decided(env, dyn, dyn.http.routers[j]), k) {
      HttpPartIs(env, dyn);
      BackendsHaveNoRoutes(env, dyn);
      FoldSpares(env.cfg, lens, ServiceIndex(env, dyn), dyn.http.routers, RouteState([], [], BackendsPart(env, dyn)),
                 k);
      assert false;
    }
  }

  lemma HttpRoutesExactly(env: Env, dyn: DynamicConfig)
    ensures RoutesAre(env, dyn, HttpPart(env, dyn).desired)
  {
    var d := HttpPart(env, dyn).desired;
    forall i | IsLastRoute(env, dyn, i)
      ensures var k := Key(HTTPRoute, RouteAt(env, dyn, i));
        k in d && d[k].labels == OwnerLabels(env.cfg) && SaysRouter(env, dyn, RouterAt(dyn, i), d[k].body)
    {
      LastRouteStands(env, dyn, i);
    }
    forall k | k in d && k.kind == HTTPRoute
      ensures exists i :: IsLastRoute(env, dyn, i) && k.name == RouteAt(env, dyn, i)
    {
      WrittenBySome(env, dyn, k);
      var i :| EmittedAt(env, dyn, i) && k.name == RouteAt(env, dyn, i);
      var j := LastRoute(env, dyn, i);
    }
  }

  lemma HttpPoliciesExactly(env: Env, dyn: DynamicConfig)
    ensures PoliciesAre(env, dyn, HttpPart(env, dyn).desired)
  {
    var d := HttpPart(env, dyn).desired;
    forall i | IsLastPolicy(env, dyn, i)
      ensures var k := Key(SecurityPolicy, PolicyAt(env, dyn, i));
        k in d && d[k] == Obj(OwnerLabels(env.cfg),
                              SecurityPolicyBody(RouteAt(env, dyn, i), env.cfg.extAuthz.value, false))
    {
      LastPolicyStands(env, dyn, i);
    }
    forall k | k in d && k.kind == SecurityPolicy
      ensures exists i :: IsLastPolicy(env, dyn, i) && k.name == PolicyAt(env, dyn, i)
    {
      WrittenBySome(env, dyn, k);
      var i :| OwesPolicy(env, dyn, i) && k.name == PolicyAt(env, dyn, i);
      var j := LastPolicy(env, dyn, i);
    }
  }

  lemma LaterPhasesKeepRoutes(p: Plan, k: Key)
    requires PlanValid(p) && (k.kind == HTTPRoute || k.kind == SecurityPolicy)
    ensures var d, d' := HttpRoutes(p).desired, BuildSpec(p);
      (k in d <==> k in d') && (k in d ==> d'[k] == d[k])
  {
    AfterHttpAdds(p);
    assert k.kind !in AllKinds(p.cfg) - {HTTPRoute, SecurityPolicy};
  }

  lemma SameRoutes(env: Env, dyn: DynamicConfig, d: Desired, d': Desired)
    requires RoutesAre(env, dyn, d) && PoliciesAre(env, dyn, d)
    requires forall k: Key :: k.kind == HTTPRoute || k.kind == SecurityPolicy ==>
      (k in d <==> k in d') && (k in d ==> d'[k] == d[k])
    ensures RoutesAre(env, dyn, d') && PoliciesAre(env, dyn, d')
  {
    forall i | IsLastRoute(env, dyn, i) ensures Key(HTTPRoute, RouteAt(env, dyn, i)) in d' {
      assert Key(HTTPRoute, RouteAt(env, dyn, i)) in d;
    }
    forall i | IsLastPolicy(env, dyn, i) ensures Key(SecurityPolicy, PolicyAt(env, dyn, i)) in d' {
      assert Key(SecurityPolicy, PolicyAt(env, dyn, i)) in d;
    }
  }

  /** Main result: the HTTPRoutes of the finished manifest are those of the routers that are to
      be emitted, one for each route name, with the hosts, path, filters and servers of the
      last such router; its policies are those of the protected ones among them. */
  lemma ManifestRoutesExactly(env: Env, dyn: DynamicConfig)
    ensures RoutesAre(env, dyn, BuildSpec(PlanOf(env, dyn))) && PoliciesAre(env, dyn, BuildSpec(PlanOf(env, dyn)))
  {
    var p := PlanOf(env, dyn);
    PlanOfIsValid(env, dyn);
    HttpRoutesExactly(env, dyn);
    HttpPoliciesExactly(env, dyn);
    forall k: Key | k.kind == HTTPRoute || k.kind == SecurityPolicy
      ensures var d, d' := HttpRoutes(p).desired, BuildSpec(p); (k in d <==> k in d') && (k in d ==> d'[k] == d[k])
    {
      LaterPhasesKeepRoutes(p, k);
    }
    SameRoutes(env, dyn, HttpPart(env, dyn).desired, BuildSpec(p));
  }

  // ---- What the routes mean ------------------------------------------------------------------------------

  /** Does the route take the request: one of its hostnames, and its path match if it has one? */
  predicate Takes(b: Body, host: string, path: string, m: PathMatcher) {
    b.HTTPRouteBody? && host in b.hostnames && (b.path.Some? ==> m(b.path.value, path))
  }

  /** A router with a printed rule is emitted if and only if the rule is a conjunction of
      supported predicates with a host and the rest of the configuration allows it. */
  lemma PrintedRuleIsEmittedIff(env: Env, dyn: DynamicConfig, r: HttpRouter, ast: Ast)
    requires WellFormed(ast) && r.rule == Print(ast)
    ensures Emits(env, dyn, r) <==>
      && Supported(ast) && Hosts(ast) != [] && IsServed(env, dyn, r.service)
      && (IsProtected(dyn, r) ==> env.cfg.extAuthz.Some? || env.cfg.allowUnauthenticatedRoutes)
  {
    ParserAcceptsExactlySupported(ast);
  }

  /** Main result: in the finished manifest the route of a router takes the requests its rule
      matches, under every way of matching paths, if and only if the rule is `Translatable`;
      and then it has the hosts of the rule and its last path, with a leading slash. */
  lemma RouteMeansRuleIff(env: Env, dyn: DynamicConfig, i: int, ast: Ast)
    requires IsLastRoute(env, dyn, i) && WellFormed(ast) && RouterAt(dyn, i).rule == Print(ast)
    ensures var d, k := BuildSpec(PlanOf(env, dyn)), Key(HTTPRoute, RouteAt(env, dyn, i));
      && Supported(ast) && k in d && d[k].body.HTTPRouteBody?
      && d[k].body.hostnames == Hosts(ast)
      && d[k].body.path == (if Paths(ast) == [] then None else Some(Slashed(Paths(ast)[|Paths(ast)| - 1])))
      && ((forall host, path, m: PathMatcher :: Takes(d[k].body, host, path, m) <==> Matches(ast, host, path, m)) <==>
          Translatable(ast))
  {
    var d, k := BuildSpec(PlanOf(env, dyn)), Key(HTTPRoute, RouteAt(env, dyn, i));
    ManifestRoutesExactly(env, dyn);
    PrintedRuleIsEmittedIff(env, dyn, RouterAt(dyn, i), ast);
    BodyMeansRuleIff(d[k].body, ast);
  }

  lemma BodyMeansRuleIff(b: Body, ast: Ast)
    requires WellFormed(ast) && Supported(ast) && Hosts(ast) != [] && b.HTTPRouteBody?
    requires b.hostnames == ParseSpec(Print(ast)).hosts && b.path == ParseSpec(Print(ast)).path
    ensures b.hostnames == Hosts(ast)
    ensures b.path == if Paths(ast) == [] then None else Some(Slashed(Paths(ast)[|Paths(ast)| - 1]))
    ensures (forall host, path, m: PathMatcher :: Takes(b, host, path, m) <==> Matches(ast, host, path, m)) <==>
            Translatable(ast)
  {
    ParserAcceptsExactlySupported(ast);
    BodyTakesIff(b, ParseSpec(Print(ast)), ast);
    MeaningPreservedIff(ast);
  }

  lemma BodyTakesIff(b: Body, p: ParsedRule, ast: Ast)
    requires Supported(ast) && b.HTTPRouteBody? && b.hostnames == p.hosts && b.path == p.path
    ensures (forall host, path, m: PathMatcher :: Takes(b, host, path, m) <==> Matches(ast, host, path, m)) <==>
            (forall host, path, m: PathMatcher :: RouteMatches(p, host, path, m) == Matches(ast, host, path, m))
  {
    forall host, path, m: PathMatcher ensures Takes(b, host, path, m) <==> RouteMatches(p, host, path, m) {}
  }

  /** Paths other than regular expressions start with a slash. */
  function Slashed(p: PathMatch): PathMatch {
    if p.kind.Regex? || (p.value != [] && p.value[0] == '/') then p else PathMatch(p.kind, ['/'] + p.value)
  }

  // ---- Where the routes lead --------------------------------------------------------------------------------

  /** The first name of a Service in the cluster decides for the service. */
  ghost predicate NamesCluster(env: Env, dyn: DynamicConfig, s: int, e: HostPort, svc: string, ns: string) {
    && 0 <= s < |dyn.http.services| && dyn.http.services[s].value.Some?
    && ParseClusterDns(e.host) == Some((svc, ns))
    && exists n: nat :: var entries := UrlServers(env.pf, dyn.http.services[s].value.value.servers);
         FirstClusterAt(env.pf, entries, n) && entries[n] == e
  }

  lemma ClusterTarget(env: Env, dyn: DynamicConfig, s: int, e: HostPort, svc: string, ns: string)
    requires NamesCluster(env, dyn, s, e, svc, ns)
    ensures HttpTarget(env, dyn.http.services[s].value, dyn.http.transports).0 == ClusterDns(svc, ns, e.port, e.tls)
  {
    var servers := dyn.http.services[s].value.value.servers;
    assert servers != [];
    ClassifiedExactly(env.pf, UrlServers(env.pf, servers), env.cfg.backendKind);
  }

  /** Main result: a service without addresses whose first name of a Service in the cluster is
      `svc` in `ns` is referenced as just that, with the port of that server, wherever no TLS
      has to be originated by a Backend. */
  lemma ClusterServiceIsReferenced(env: Env, dyn: DynamicConfig, i: int, s: int, e: HostPort, svc: string, ns: string)
    requires IsLastRoute(env, dyn, i) && IsServedBy(env, dyn, RouterAt(dyn, i).service, s)
    requires NamesCluster(env, dyn, s, e, svc, ns) && (env.cfg.backendKind == ServiceMode || !e.tls)
    ensures var d, k := BuildSpec(PlanOf(env, dyn)), Key(HTTPRoute, RouteAt(env, dyn, i));
      && k in d && d[k].body.HTTPRouteBody?
      && (d[k].body.backend.Some? ==> d[k].body.backend.value == BackendRef("", "Service", svc, Some(ns), e.port))
  {
    ManifestRoutesExactly(env, dyn);
    ClusterRoute(env, dyn, BuildSpec(PlanOf(env, dyn)), i, s, e, svc, ns);
  }

  lemma ClusterRoute(env: Env, dyn: DynamicConfig, d: Desired, i: int, s: int, e: HostPort, svc: string, ns: string)
    requires RoutesAre(env, dyn, d)
    requires IsLastRoute(env, dyn, i) && IsServedBy(env, dyn, RouterAt(dyn, i).service, s)
    requires NamesCluster(env, dyn, s, e, svc, ns) && (env.cfg.backendKind == ServiceMode || !e.tls)
    ensures var k := Key(HTTPRoute, RouteAt(env, dyn, i));
      && k in d && d[k].body.HTTPRouteBody?
      && (d[k].body.backend.Some? ==> d[k].body.backend.value == BackendRef("", "Service", svc, Some(ns), e.port))
  {
    var name := RouterAt(dyn, i).service;
    ClusterTarget(env, dyn, s, e, svc, ns);
    assert RefTo(env, dyn, name, s) == BackendRef("", "Service", svc, Some(ns), e.port);
    OneServiceOfTheName(env, dyn, name, s);
    assert LeadsTo(env, dyn, name, d[Key(HTTPRoute, RouteAt(env, dyn, i))].body.filters,
                   d[Key(HTTPRoute, RouteAt(env, dyn, i))].body.backend);
  }

  lemma OneServiceOfTheName(env: Env, dyn: DynamicConfig, name: string, s: int)
    requires IsServedBy(env, dyn, name, s)
    ensures forall t :: IsServedBy(env, dyn, name, t) ==> t == s
  {
    forall t | IsServedBy(env, dyn, name, t) ensures t == s {
      if t < s { TableNamesDistinct(dyn.http.services, t, s); }
      if s < t { TableNamesDistinct(dyn.http.services, s, t); }
    }
  }

  // ---- Protection ---------------------------------------------------------------------------------------------

  /** A fail-closed policy of the configured service that targets the route. */
  ghost predicate IsGuardedRoute(env: Env, d: Desired, route: string) {
    exists k :: k in d && k.kind == SecurityPolicy && env.cfg.extAuthz.Some?
                && d[k].body == SecurityPolicyBody(route, env.cfg.extAuthz.value, false)
  }

  /** Main result: with neither an authorization service nor the override, every HTTPRoute of
      the finished manifest is that of a router that needs no protection. */
  lemma NoOpenRoutes(env: Env, dyn: DynamicConfig, k: Key)
    requires env.cfg.extAuthz.None? && !env.cfg.allowUnauthenticatedRoutes
    requires k in BuildSpec(PlanOf(env, dyn)) && k.kind == HTTPRoute
    ensures exists i :: IsLastRoute(env, dyn, i) && k.name == RouteAt(env, dyn, i)
                        && !NeedsAuth(RouterAt(dyn, i).middlewares, dyn.http.middlewares)
  {
    ManifestRoutesExactly(env, dyn);
    OpenRouteIsUnprotected(env, dyn, BuildSpec(PlanOf(env, dyn)), k);
  }

  lemma OpenRouteIsUnprotected(env: Env, dyn: DynamicConfig, d: Desired, k: Key)
    requires env.cfg.extAuthz.None? && !env.cfg.allowUnauthenticatedRoutes
    requires RoutesAre(env, dyn, d) && k in d && k.kind == HTTPRoute
    ensures exists i :: IsLastRoute(env, dyn, i) && k.name == RouteAt(env, dyn, i)
                        && !NeedsAuth(RouterAt(dyn, i).middlewares, dyn.http.middlewares)
  {
    var i :| IsLastRoute(env, dyn, i) && k.name == RouteAt(env, dyn, i);
    assert !IsProtected(dyn, RouterAt(dyn, i));
  }

  /** Do routes that owe policies of one name share that name? */
  ghost predicate PolicyNamesTell(env: Env, dyn: DynamicConfig) {
    forall i, j | OwesPolicy(env, dyn, i) && OwesPolicy(env, dyn, j)
                  && PolicyAt(env, dyn, i) == PolicyAt(env, dyn, j) ::
      RouteAt(env, dyn, i) == RouteAt(env, dyn, j)
  }

  /** Main result: with an authorization service the finished manifest guards the route of every
      emitted router that needs protection if and only if no two of their routes share a
      policy name. */
  lemma ProtectedAreGuardedIff(env: Env, dyn: DynamicConfig)
    requires env.cfg.extAuthz.Some?
    ensures (forall i :: OwesPolicy(env, dyn, i) ==>
              IsGuardedRoute(env, BuildSpec(PlanOf(env, dyn)), RouteAt(env, dyn, i))) <==> PolicyNamesTell(env, dyn)
  {
    ManifestRoutesExactly(env, dyn);
    PoliciesGuardIff(env, dyn, BuildSpec(PlanOf(env, dyn)));
  }

  lemma PoliciesGuardIff(env: Env, dyn: DynamicConfig, d: Desired)
    requires env.cfg.extAuthz.Some? && PoliciesAre(env, dyn, d)
    ensures (forall i :: OwesPolicy(env, dyn, i) ==> IsGuardedRoute(env, d, RouteAt(env, dyn, i))) <==>
            PolicyNamesTell(env, dyn)
  {
    if PolicyNamesTell(env, dyn) {
      forall i | OwesPolicy(env, dyn, i) ensures IsGuardedRoute(env, d, RouteAt(env, dyn, i)) {
        var j := LastPolicy(env, dyn, i);
        assert RouteAt(env, dyn, j) == RouteAt(env, dyn, i);
        assert Key(SecurityPolicy, PolicyAt(env, dyn, j)) in d;
      }
    }
    if forall i :: OwesPolicy(env, dyn, i) ==> IsGuardedRoute(env, d, RouteAt(env, dyn, i)) {
      forall i, j | OwesPolicy(env, dyn, i) && OwesPolicy(env, dyn, j) && PolicyAt(env, dyn, i) == PolicyAt(env, dyn, j)
        ensures RouteAt(env, dyn, i) == RouteAt(env, dyn, j)
      {
        GuardIsLast(env, dyn, d, i);
        GuardIsLast(env, dyn, d, j);
      }
    }
  }

  /** The policy that guards a route is the one of its name. */
  lemma GuardIsLast(env: Env, dyn: DynamicConfig, d: Desired, i: int)
    requires PoliciesAre(env, dyn, d) && OwesPolicy(env, dyn, i) && IsGuardedRoute(env, d, RouteAt(env, dyn, i))
    ensures var k := Key(SecurityPolicy, PolicyAt(env, dyn, i));
      k in d && d[k].body == SecurityPolicyBody(RouteAt(env, dyn, i), env.cfg.extAuthz.value, false)
  {
    var k :| k in d && k.kind == SecurityPolicy && env.cfg.extAuthz.Some?
      && d[k].body == SecurityPolicyBody(RouteAt(env, dyn, i), env.cfg.extAuthz.value, false);
    var j :| IsLastPolicy(env, dyn, j) && k.name == PolicyAt(env, dyn, j);
    assert RouteAt(env, dyn, j) == RouteAt(env, dyn, i);
  }

  /** In particular when no route name is long enough for its policy's to be hashed. */
  lemma ShortNamesTell(env: Env, dyn: DynamicConfig)
    requires forall i :: OwesPolicy(env, dyn, i) ==> |RouteAt(env, dyn, i)| <= 60
    ensures PolicyNamesTell(env, dyn)
  {
    forall i, j | OwesPolicy(env, dyn, i) && OwesPolicy(env, dyn, j) && PolicyAt(env, dyn, i) == PolicyAt(env, dyn, j)
      ensures RouteAt(env, dyn, i) == RouteAt(env, dyn, j)
    {
      RouteNameIs(env, RouteAt(env, dyn, i));
      RouteNameIs(env, RouteAt(env, dyn, j));
      DnsLabelIsValid(env.pf.hash, "hr-" + dyn.http.routers[i].key);
      DnsLabelIsValid(env.pf.hash, "hr-" + dyn.http.routers[j].key);
      ShortPolicyNamesInjective(env.pf.hash, RouteAt(env, dyn, i), RouteAt(env, dyn, j));
    }
  }

  // ---- Listeners -------------------------------------------------------------------------------------------------

  /** Some emitted router has the host, and wants https if asked for it. */
  ghost predicate HasHost(env: Env, dyn: DynamicConfig, host: string, secure: bool) {
    exists i :: HasHostAt(env, dyn, host, secure, i)
  }

  ghost predicate HasHostAt(env: Env, dyn: DynamicConfig, host: string, secure: bool, i: int) {
    EmittedAt(env, dyn, i) && host in ParseSpec(RouterAt(dyn, i).rule).hosts
    && (secure ==> WantsHttps(env, RouterAt(dyn, i)))
  }

  lemma BringsIff(env: Env, dyn: DynamicConfig, host: string, secure: bool, j: int)
    requires 0 <= j < |dyn.http.routers|
    ensures Brings(Decided(env, dyn, dyn.http.routers[j]), host, secure) <==> HasHostAt(env, dyn, host, secure, j)
  {
    DecidedIff(env, dyn, dyn.http.routers[j]);
  }

  lemma AnyBringsIff(env: Env, dyn: DynamicConfig, host: string, secure: bool)
    ensures AnyBrings(env.cfg, ProgramLens(env.pf.hash, dyn.http.middlewares), ServiceIndex(env, dyn),
                      dyn.http.routers, host, secure) <==>
            HasHost(env, dyn, host, secure)
  {
    var lens, routers := ProgramLens(env.pf.hash, dyn.http.middlewares), dyn.http.routers;
    forall j | 0 <= j < |routers|
      ensures Brings(Decide(env.cfg, lens, ServiceIndex(env, dyn), routers[j]), host, secure) <==>
              HasHostAt(env, dyn, host, secure, j)
    {
      BringsIff(env, dyn, host, secure, j);
    }
  }

  lemma RecordedIff(env: Env, dyn: DynamicConfig, host: string)
    ensures host in HttpPart(env, dyn).hostnames <==> HasHost(env, dyn, host, false)
    ensures host in HttpPart(env, dyn).httpsHosts <==> HasHost(env, dyn, host, true)
  {
    HttpPartIs(env, dyn);
    FoldHosts(env.cfg, ProgramLens(env.pf.hash, dyn.http.middlewares), ServiceIndex(env, dyn), dyn.http.routers,
              RouteState([], [], BackendsPart(env, dyn)), host);
    AnyBringsIff(env, dyn, host, false);
    AnyBringsIff(env, dyn, host, true);
  }

  function PlainListener(env: Env, host: string): Listener {
    Listener(DnsLabel(env.pf.hash, "http-" + host), Some(host), env.cfg.httpPort, "HTTP", None)
  }

  function SecureListener(env: Env, template: string, host: string): Listener {
    Listener(DnsLabel(env.pf.hash, "https-" + host), Some(host), env.cfg.httpsPort, "HTTPS",
             Some(RenderSecretName(template, host)))
  }

  lemma InMapped(ls: seq<Listener>, hosts: seq<string>, make: string -> Listener, l: Listener)
    requires |ls| == |hosts| && forall i :: 0 <= i < |ls| ==> ls[i] == make(hosts[i])
    ensures l in ls <==> exists host :: host in hosts && l == make(host)
  {
    if l in ls {
      var i :| 0 <= i < |ls| && ls[i] == l;
      assert hosts[i] in hosts;
    }
    if host :| host in hosts && l == make(host) {
      var i :| 0 <= i < |hosts| && hosts[i] == host;
      assert ls[i] == l;
    }
  }

  lemma HostListenerIs(env: Env, template: string, host: string)
    ensures HttpListener(env.cfg, ProgramHostNames(env.pf.hash, template), host) == PlainListener(env, host)
    ensures HttpsListener(env.cfg, ProgramHostNames(env.pf.hash, template), host) == SecureListener(env, template, host)
  {
    assert "http" + "-" + host == "http-" + host && "https" + "-" + host == "https-" + host;
  }

  lemma PlainListenersAre(env: Env, hosts: seq<string>, l: Listener)
    ensures l in HttpListeners(env.cfg, ProgramHostNames(env.pf.hash, TemplateOf(env.cfg)), hosts) <==>
            exists host :: host in hosts && l == PlainListener(env, host)
  {
    var ls := HttpListeners(env.cfg, ProgramHostNames(env.pf.hash, TemplateOf(env.cfg)), hosts);
    forall i | 0 <= i < |ls| ensures ls[i] == PlainListener(env, hosts[i]) {
      HostListenerIs(env, TemplateOf(env.cfg), hosts[i]);
    }
    InMapped(ls, hosts, host => PlainListener(env, host), l);
  }

  lemma SecureListenersAre(env: Env, hosts: seq<string>, l: Listener)
    ensures l in HttpsListeners(env.cfg, ProgramHostNames(env.pf.hash, TemplateOf(env.cfg)), hosts) <==>
            exists host :: host in hosts && l == SecureListener(env, TemplateOf(env.cfg), host)
  {
    var ls := HttpsListeners(env.cfg, ProgramHostNames(env.pf.hash, TemplateOf(env.cfg)), hosts);
    forall i | 0 <= i < |ls| ensures ls[i] == SecureListener(env, TemplateOf(env.cfg), hosts[i]) {
      HostListenerIs(env, TemplateOf(env.cfg), hosts[i]);
    }
    InMapped(ls, hosts, host => SecureListener(env, TemplateOf(env.cfg), host), l);
  }

  /** Raw listeners have no host. */
  lemma {:induction false} NoHosts(dia: Dialect, f: Family, ports: seq<nat>, l: Listener)
    requires l in Listeners(dia, f, ports)
    ensures l.hostname.None?
  {
    if l in Listeners(dia, f, ports[1..]) { NoHosts(dia, f, ports[1..], l); }
  }

  lemma RawHaveNoHost(p: Plan, l: Listener)
    requires PlanSound(p) && (l in TcpPart(p).listeners || l in UdpPart(p).listeners)
    ensures l.hostname.None?
  {
    if l in TcpPart(p).listeners {
      FamilyHasNoHost(p.cfg, p.naming, p.tcp, Tcp, p.cfg.enableTcpRoutes, HttpRoutes(p).desired, l);
    } else {
      FamilyHasNoHost(p.cfg, p.naming, p.udp, Udp, p.cfg.enableUdpRoutes, TcpPart(p).desired, l);
    }
  }

  lemma FamilyHasNoHost(cfg: Config, naming: NamingScheme, block: Option<L4Plan>, f: Family, enabled: bool, d: Desired,
                        l: Listener)
    requires block.Some? ==> TargetsSound(cfg, block.value.targets)
    requires l in L4Family(cfg, naming, block, f, enabled, d).listeners
    ensures l.hostname.None?
  {
    var plan := block.value;
    var b := BuildAll(cfg, naming, f, plan.targets, Built(map[], d));
    RouteAllIsAllocation(cfg, plan.dialect, f, b.index, plan.routers, {}, b.desired);
    NoHosts(plan.dialect, f, Flatten(Allocate(AllWanted(cfg, plan.dialect, f, b.index, plan.routers), {})), l);
  }

  /** The listeners are the plain ones, the secure ones and the raw ones. */
  lemma HostListenersAre(p: Plan, l: Listener)
    requires PlanSound(p)
    ensures l in ListenersOf(p) && l.hostname.Some? <==>
      || l in HttpListeners(p.cfg, p.hostNames, HttpRoutes(p).hostnames)
      || (ServesHttps(p.cfg) && l in HttpsListeners(p.cfg, p.hostNames, HttpRoutes(p).httpsHosts))
  {
    var raw := TcpPart(p).listeners + UdpPart(p).listeners;
    if l in raw { RawHaveNoHost(p, l); }
    var plain := HttpListeners(p.cfg, p.hostNames, HttpRoutes(p).hostnames);
    var secure := HttpsListeners(p.cfg, p.hostNames, HttpRoutes(p).httpsHosts);
    assert forall i :: 0 <= i < |plain| ==> plain[i].hostname.Some?;
    assert forall i :: 0 <= i < |secure| ==> secure[i].hostname.Some?;
  }

  /** One listener on the http port for each host of an emitted router; and one on the https
      port, with the host's secret, for each host of one that wants https, where https is on
      and there is a template for secrets. */
  ghost predicate IsHostListener(env: Env, dyn: DynamicConfig, l: Listener) {
    || (exists host :: HasHost(env, dyn, host, false) && l == PlainListener(env, host))
    || (env.cfg.enableHttpsListeners && env.cfg.tlsSecretTemplate.Some?
        && exists host :: HasHost(env, dyn, host, true)
                          && l == SecureListener(env, env.cfg.tlsSecretTemplate.value, host))
  }

  /** Main result: these are exactly the listeners with a host name in the finished manifest. */
  lemma HostListenersExactly(env: Env, dyn: DynamicConfig, l: Listener)
    ensures l in ListenersOf(PlanOf(env, dyn)) && l.hostname.Some? <==> IsHostListener(env, dyn, l)
  {
    var hosts, https := HttpPart(env, dyn).hostnames, HttpPart(env, dyn).httpsHosts;
    HostListenersAre(PlanOf(env, dyn), l);
    PlainListenersAre(env, hosts, l);
    SecureListenersAre(env, https, l);
    forall host
      ensures host in hosts <==> HasHost(env, dyn, host, false)
      ensures host in https <==> HasHost(env, dyn, host, true)
    {
      RecordedIff(env, dyn, host);
    }
  }
}
