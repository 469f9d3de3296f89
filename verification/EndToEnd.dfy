/** The compiler and the controller together: what holds of clusters driven by built
    manifests. */
module EndToEnd {
  import opened Prelude
  import opened Objects
  import opened ControllerSteps
  import opened Convergence
  import opened References
  import opened Interrupted
  import opened StaleRoutes
  import opened Exposure
  import opened Poll
  import opened Emit
  import opened Build
  import opened Guarantees

  /** A manifest the compiler may hand to a controller with this configuration. */
  ghost predicate IsBuilt(cfg: Config, d: Cluster) {
    exists p: Plan :: PlanValid(p) && p.cfg == cfg && d == BuildSpec(p)
  }

  lemma BuiltIsClosed(cfg: Config, d: Cluster)
    requires IsBuilt(cfg, d)
    ensures Closed(d)
    ensures KeysApart(cfg) ==> forall k :: k in d ==> Selected(cfg, d[k].labels)
  {
    var p: Plan :| PlanValid(p) && p.cfg == cfg && d == BuildSpec(p);
    ManifestIsWellFormed(p);
    if KeysApart(cfg) {
      ManifestIsSelected(p);
    }
  }

  lemma ProgramBuilds(env: Env, dyn: DynamicConfig)
    ensures IsBuilt(env.cfg, BuildSpec(PlanOf(env, dyn)))
  {
    PlanOfIsValid(env, dyn);
    assert PlanOf(env, dyn).cfg == env.cfg;
  }

  /** Every cycle is begun with a built manifest, HTTPRoute lists succeed and HTTPRoute
      deletes take effect; anything else may fail, crash or be lost. */
  ghost predicate RouteSweepsWorkBuilt(w: World, es: seq<Event>)
    decreases es
  {
    es == [] ||
    ((if es[0].Begin? then IsBuilt(w.ctl.cfg, es[0].desired) else RouteSweepWorks(w, es[0]))
     && RouteSweepsWorkBuilt(Step(w, es[0]), es[1..]))
  }

  lemma {:induction false} BuiltRunsAreClosed(w: World, es: seq<Event>)
    requires RouteSweepsWorkBuilt(w, es)
    ensures RouteSweepsWork(w, es)
    decreases es
  {
    if es != [] {
      if es[0].Begin? { BuiltIsClosed(w.ctl.cfg, es[0].desired); }
      BuiltRunsAreClosed(Step(w, es[0]), es[1..]);
    }
  }

  /** Main result: driven by built manifests, in every reachable state of every run of
      cycles each managed HTTPRoute resolves inside the cluster. */
  lemma BuiltRoutesAlwaysResolve(cfg: Config, d: Cluster, cl: Cluster, es: seq<Event>, n: nat)
    requires IsBuilt(cfg, d) && RoutesResolve(cfg, cl) && n <= |es|
    requires RouteSweepsWorkBuilt(World(Start(cfg, d), cl), es[..n])
    ensures RoutesResolve(cfg, Run(World(Start(cfg, d), cl), es[..n]).cluster)
  {
    var w := World(Start(cfg, d), cl);
    BuiltIsClosed(cfg, d);
    if cfg.readOnly {
      ReadOnlyRunWritesNothing(w, es[..n]);
    } else {
      StartResolves(cfg, d, cl);
      BuiltRunsAreClosed(w, es[..n]);
      RoutesAlwaysResolve(w, es[..n]);
    }
  }

  /** Main result: whatever ran before, for whatever manifests and however it failed or
      crashed, one fault-free cycle leaves the owned objects of every swept kind exactly
      the built ones, and what is neither built nor owned as it was. */
  lemma BuiltCycleIsExact(cfg: Config, d: Cluster, w: World, before: seq<Event>, es: seq<Event>, kind: Kind)
    requires IsBuilt(cfg, d) && KeysApart(cfg) && !cfg.readOnly && kind in SweepOrder(cfg)
    requires FaultFree(es) && Run(World(Start(cfg, d), Run(w, before).cluster), es).ctl.pc.Finished?
    ensures var left := Run(w, before).cluster;
      var cl := Run(World(Start(cfg, d), left), es).cluster;
      && OwnedNames(cfg, cl, kind) == NamesOf(d, kind)
      && (forall k :: k in d ==> k in cl && cl[k].body == d[k].body)
      && (forall k :: k in left && k !in d && !Selected(cfg, left[k].labels) ==> k in cl && cl[k] == left[k])
  {
    var left := Run(w, before).cluster;
    BuiltIsClosed(cfg, d);
    CycleConverges(cfg, d, left, es);
    ReconciledIsExact(cfg, d, left, kind);
  }

  /** The poll loop around the compiler: every body becomes a built manifest. */
  ghost predicate Compiles(p: Setup) {
    forall body :: IsBuilt(p.cfg, p.build(body))
  }

  lemma {:induction false} NaiveSnoc(p: Setup, cl: Cluster, bodies: seq<string>, vs: seq<Visit>, body: string, v: Visit)
    requires |bodies| == |vs|
    ensures NaiveCluster(p, cl, bodies + [body], vs + [v]) ==
            var before := NaiveCluster(p, cl, bodies, vs);
            if v.fetch.FetchFailed? then before else Reconciled(p.cfg, p.build(body), before)
    decreases vs
  {
    if vs == [] {
      assert vs + [v] == [v] && bodies + [body] == [body];
    } else {
      assert (vs + [v])[0] == vs[0] && (vs + [v])[1..] == vs[1..] + [v];
      assert (bodies + [body])[0] == bodies[0] && (bodies + [body])[1..] == bodies[1..] + [body];
      NaiveSnoc(p, if vs[0].fetch.FetchFailed? then cl else Reconciled(p.cfg, p.build(bodies[0]), cl),
                bodies[1..], vs[1..], body, v);
    }
  }

  /** After an answered poll the cluster is the goal of the current body's cycle. */
  lemma PolledIsReconciled(p: Setup, s: Server, cl: Cluster, bodies: seq<string>, vs: seq<Visit>, body: string,
                           v: Visit)
    returns (before: Cluster)
    requires |bodies| == |vs| && !v.fetch.FetchFailed?
    requires Injective(p.digest) && Injective(s.etagOf)
    requires HonestRun(p, s, LoopWorld(INITIAL, cl), bodies + [body], vs + [v])
    requires NoFaults(p, LoopWorld(INITIAL, cl), vs + [v])
    ensures RunPolls(p, LoopWorld(INITIAL, cl), vs + [v]).cluster == Reconciled(p.cfg, p.build(body), before)
  {
    before := NaiveCluster(p, cl, bodies, vs);
    CachedLoopRefinesNaive(p, s, LoopWorld(INITIAL, cl), None, bodies + [body], vs + [v]);
    NaiveSnoc(p, cl, bodies, vs, body, v);
  }

  /** Main result: from any cluster, after every answered poll of a run without cluster
      faults the controller owns, per swept kind, exactly what the current body compiles to,
      no matter how many polls were short-circuited. */
  lemma PolledClusterIsExact(p: Setup, s: Server, cl: Cluster, bodies: seq<string>, vs: seq<Visit>, body: string,
                             v: Visit, kind: Kind)
    requires Compiles(p) && KeysApart(p.cfg) && !p.cfg.readOnly && kind in SweepOrder(p.cfg)
    requires |bodies| == |vs| && !v.fetch.FetchFailed?
    requires Injective(p.digest) && Injective(s.etagOf)
    requires HonestRun(p, s, LoopWorld(INITIAL, cl), bodies + [body], vs + [v])
    requires NoFaults(p, LoopWorld(INITIAL, cl), vs + [v])
    ensures var now := RunPolls(p, LoopWorld(INITIAL, cl), vs + [v]).cluster;
      && OwnedNames(p.cfg, now, kind) == NamesOf(p.build(body), kind)
      && forall k :: k in p.build(body) ==> k in now && now[k].body == p.build(body)[k].body
  {
    var before := PolledIsReconciled(p, s, cl, bodies, vs, body, v);
    BuiltIsClosed(p.cfg, p.build(body));
    ReconciledIsExact(p.cfg, p.build(body), before, kind);
  }

  // ---- Built manifests under failures -------------------------------------------------------------

  /** Raw routes come only from an enabled family. */
  lemma RawKindIsEnabled(p: Plan, k: Key)
    requires PlanValid(p) && k in BuildSpec(p)
    ensures k.kind == TCPRoute ==> p.cfg.enableTcpRoutes
    ensures k.kind == UDPRoute ==> p.cfg.enableUdpRoutes
  {
    if k.kind == TCPRoute || k.kind == UDPRoute {
      RawRouteSource(p, k);
      NoneOfKindBefore(p);
    }
  }

  /** Main result: whatever a build emits, its kind is one the same configuration sweeps. */
  lemma EveryBuiltKindIsSwept(cfg: Config, d: Cluster, k: Key)
    requires IsBuilt(cfg, d) && k in d
    ensures k.kind in SweepOrder(cfg)
  {
    var p: Plan :| PlanValid(p) && p.cfg == cfg && d == BuildSpec(p);
    RawKindIsEnabled(p, k);
    ModesArePure(p, k);
    if k.kind == SecurityPolicy { PoliciesTargetRoutes(p, k); }
    KindIsListed(cfg, k.kind);
  }

  lemma KindIsListed(cfg: Config, kind: Kind)
    requires kind == EnvoyBackend ==> cfg.backendKind == EnvoyBackendMode
    requires (kind == TCPRoute ==> cfg.enableTcpRoutes) && (kind == UDPRoute ==> cfg.enableUdpRoutes)
    requires kind == SecurityPolicy ==> cfg.extAuthz.Some?
    ensures kind in SweepOrder(cfg)
  {
    var order := SweepOrder(cfg);
    assert order[0] == HTTPRoute && order[1] == ListenerSet && order[2] == EndpointSlice && order[3] == Service;
    assert order[|order| - 1] == BackendTLSPolicy;
  }

  /** All a built manifest promises to the lemmas about failures. */
  lemma BuiltIsWellFormed(cfg: Config, d: Cluster)
    requires IsBuilt(cfg, d)
    ensures forall k :: k in d ==> WellStamped(cfg, k, d[k])
    ensures AllClosed(d) && PoliciesClosed(d)
  {
    var p: Plan :| PlanValid(p) && p.cfg == cfg && d == BuildSpec(p);
    ManifestIsWellFormed(p);
    forall k | k in d && k.kind == SecurityPolicy
      ensures d[k].body.SecurityPolicyBody? && !d[k].body.failOpen && Key(HTTPRoute, d[k].body.route) in d
    {
      PoliciesTargetRoutes(p, k);
    }
  }

  predicate PartOf(d: Cluster, last: Cluster) {
    forall k :: k in d ==> k in last && last[k] == d[k]
  }

  /** Objects stamped alike whose labels agree where both have one have the same labels. */
  lemma StampsAgree(cfg: Config, k: Key, a: Obj, b: Obj, base: Labels)
    requires StampedLabels(cfg, k, a) && StampedLabels(cfg, k, b)
    requires base + b.labels + a.labels == base + b.labels
    ensures a.labels == b.labels
  {
    var sum := base + b.labels;
    assert forall l :: l in b.labels ==> sum[l] == b.labels[l];
    assert forall l :: l in a.labels ==> (sum + a.labels)[l] == a.labels[l];
    assert a.labels.Keys == b.labels.Keys;
  }

  /** Main result: between built manifests, a failed cycle for `d` is harmless to a cluster up
      to date with `last` if and only if `d` asks for nothing that `last` does not ask for in
      just the same way. */
  lemma HarmlessBuiltIff(cfg: Config, last: Cluster, d: Cluster, cl: Cluster)
    requires IsBuilt(cfg, last) && IsBuilt(cfg, d) && KeysApart(cfg) && !cfg.readOnly
    requires Reconciled(cfg, last, cl) == cl
    ensures Harmless(cfg, last, d, cl) <==> PartOf(d, last)
  {
    BuiltIsWellFormed(cfg, last);
    BuiltIsWellFormed(cfg, d);
    BuiltIsClosed(cfg, d);
    UpToDateIsKeywise(cfg, last, cl);
    forall k | k in d ensures k.kind in SweepOrder(cfg) { EveryBuiltKindIsSwept(cfg, d, k); }
    AllHarmlessIff(cfg, last, d, cl);
  }

  lemma AllHarmlessIff(cfg: Config, last: Cluster, d: Cluster, cl: Cluster)
    requires forall k :: k in d ==> k.kind in SweepOrder(cfg) && Selected(cfg, d[k].labels) && WellStamped(cfg, k, d[k])
    requires forall k :: k in last ==> WellStamped(cfg, k, last[k])
    requires Covered(last, cl)
    ensures Harmless(cfg, last, d, cl) <==> PartOf(d, last)
  {
    forall k | k in d ensures PatchHarmless(cfg, last, d, cl, k) <==> k in last && last[k] == d[k] {
      OneHarmlessIff(cfg, last, d, cl, k);
    }
  }

  lemma OneHarmlessIff(cfg: Config, last: Cluster, d: Cluster, cl: Cluster, k: Key)
    requires k in d && k.kind in SweepOrder(cfg) && Selected(cfg, d[k].labels) && StampedLabels(cfg, k, d[k])
    requires k in last ==> StampedLabels(cfg, k, last[k]) && Settled(last, cl, k)
    ensures PatchHarmless(cfg, last, d, cl, k) <==> k in last && last[k] == d[k]
  {
    var cl' := cl[k := Patched(cl, k, d[k])];
    assert Selected(cfg, cl'[k].labels);
    if k in last && Settled(last, cl', k) {
      StampsAgree(cfg, k, last[k], d[k], cl[k].labels);
    }
    if k in last && last[k] == d[k] {
      PatchTwice(cl, cl', k, d[k]);
    }
  }

  /** Main result: over built manifests, a return to the last good body after a failed
      attempt always ends right if and only if the attempted manifest is part of the last. */
  lemma BuiltRevertsAreSafeIff(p: Setup, s: Server, w: LoopWorld, b1: string, b2: string, etag: Option<string>,
                               f: Fetch)
    requires Compiles(p) && KeysApart(p.cfg) && !p.cfg.readOnly
    requires Remembers(p, s, w.st, Some(b1)) && UpToDate(p, w.cluster, Some(b1))
    requires Reconciles(p, w.st, Changed(b2, etag)) && Honest(s, b1, w.st.lastEtag, f) && !f.FetchFailed?
    ensures RevertsAreSafe(p, w, b1, b2, etag, f) <==> PartOf(p.build(b2), p.build(b1))
  {
    RevertsAreSafeIff(p, s, w, b1, b2, etag, f);
    HarmlessBuiltIff(p.cfg, p.build(b1), p.build(b2), w.cluster);
  }

  /** Main result: for a built manifest, all owned routes resolve in every state of every run
      of its cycle, under any faults, if and only if no dropped route uses what is swept. */
  lemma BuiltStaleRoutesSafeIff(cfg: Config, d: Cluster, cl: Cluster)
    requires IsBuilt(cfg, d) && !cfg.readOnly && AllRoutesResolve(cfg, cl)
    ensures ResolvesThroughout(cfg, d, cl) <==> NoStaleUse(cfg, d, cl)
  {
    BuiltIsWellFormed(cfg, d);
    StaleRoutesSafeIff(cfg, d, cl);
  }

  /** Main result: a cycle for a built manifest never leaves a route it guards without a guard
      if and only if each has one beforehand that is not turned to another route. */
  lemma BuiltExposureIff(cfg: Config, d: Cluster, cl: Cluster)
    requires IsBuilt(cfg, d) && !cfg.readOnly
    ensures NeverExposes(cfg, d, cl) <==> WantedHaveGuards(d, cl)
  {
    BuiltIsWellFormed(cfg, d);
    NeverExposesIff(cfg, d, cl);
  }

  /** Main result: a cycle for a built manifest never leaves a route it drops without a guard,
      as long as the route stands, if and only if each has one that is neither applied nor
      swept; and it takes none of their guards if and only if all are so. */
  lemma BuiltDroppedIff(cfg: Config, d: Cluster, cl: Cluster)
    requires IsBuilt(cfg, d) && !cfg.readOnly
    ensures DroppedStayGuarded(cfg, d, cl) <==> DroppedHaveGuards(cfg, d, cl)
    ensures GuardsStay(cfg, d, cl) <==>
      forall r, p :: IsDropped(d, cl, r) && Guards(cl, p, r) ==> IsLeftAlone(cfg, d, cl, p)
  {
    BuiltIsWellFormed(cfg, d);
    DroppedStayGuardedIff(cfg, d, cl);
    GuardsStayIff(cfg, d, cl);
  }
}
