/** Stale routes of every kind: when a cycle may leave one pointing at nothing. */
module StaleRoutes {
  import opened Objects
  import opened ControllerSteps
  import opened Convergence
  import opened References
  import opened Interrupted

  predicate IsRoute(kind: Kind) {
    kind == HTTPRoute || kind == TCPRoute || kind == UDPRoute
  }

  /** Every owned HTTP, TCP or UDP route points only at objects that exist. */
  predicate AllRoutesResolve(cfg: Config, cl: Cluster) {
    forall k :: k in cl && IsRoute(k.kind) && Selected(cfg, cl[k].labels) ==> Resolves(cl, cl[k])
  }

  predicate AllClosed(d: Cluster) {
    forall k :: k in d && IsRoute(k.kind) ==> LocalRefs(d[k].body) <= d.Keys
  }

  /** No owned route that is no longer wanted refers to an object the cycle would sweep. */
  predicate NoStaleUse(cfg: Config, d: Cluster, cl: Cluster) {
    forall r, t | r in cl && IsRoute(r.kind) && r !in d && Selected(cfg, cl[r].labels) && t in LocalRefs(cl[r].body) ::
      !Orphan(cfg, d, cl, t)
  }

  ghost predicate ResolvesThroughout(cfg: Config, d: Cluster, cl: Cluster) {
    forall es :: OneCycle(es) ==> AllRoutesResolve(cfg, Run(World(Start(cfg, d), cl), es).cluster)
  }

  // ---- Without stale uses nothing dangles --------------------------------------------------------

  /** A wanted route is as it was, with all it had around it, or applied and resolving. */
  predicate WantedRouteFine(d: Cluster, cl0: Cluster, cl: Cluster, r: Key)
    requires r in d && r in cl
  {
    || (cl[r].body == d[r].body && LocalRefs(d[r].body) <= cl.Keys)
    || (r in cl0 && cl[r] == cl0[r] && cl0.Keys <= cl.Keys)
  }

  predicate AllApplied(d: Cluster, cl: Cluster) {
    forall k :: k in d ==> Applied(d, cl, k)
  }

  /** The cluster of a running cycle compared with the one it began in. */
  predicate Keeps(w: World, cl0: Cluster) {
    var c, d, cl := w.ctl, w.ctl.desired, w.cluster;
    && Framed(c.cfg, d, cl0, cl)
    && (forall r :: r in d && r in cl && IsRoute(r.kind) ==> WantedRouteFine(d, cl0, cl, r))
    && match c.pc
       case Applying(rest) => cl0.Keys <= cl.Keys && forall k :: k in d && k !in rest ==> Applied(d, cl, k)
       case Failed => cl0.Keys <= cl.Keys
       case _ => AllApplied(d, cl)
  }

  lemma PatchKeeps(w: World, k: Key, outcome: Outcome, cl0: Cluster)
    requires Keeps(w, cl0) && AllClosed(w.ctl.desired) && !w.ctl.cfg.readOnly
    ensures Keeps(Step(w, Patch(k, outcome)), cl0)
  {
    var c, d, cl := w.ctl, w.ctl.desired, w.cluster;
    if c.pc.Applying? && MayApply(c.pc.rest, k) && k in d && !outcome.Rejected? {
      var cl' := cl[k := Patched(cl, k, d[k])];
      forall r | r in d && r in cl' && IsRoute(r.kind) ensures WantedRouteFine(d, cl0, cl', r) {
        if r == k {
          forall t | t in LocalRefs(d[k].body) ensures t in cl' {
            BackendsRankLower(d[k].body, t);
            assert t in d && t !in c.pc.rest;
            assert Applied(d, cl, t);
          }
        } else {
          assert WantedRouteFine(d, cl0, cl, r);
        }
      }
      forall other | other in d && other !in c.pc.rest - {k} ensures Applied(d, cl', other) {
        assert other != k ==> Applied(d, cl, other);
      }
    }
  }

  lemma DeleteKeeps(w: World, n: string, outcome: Outcome, cl0: Cluster)
    requires Keeps(w, cl0) && AllClosed(w.ctl.desired) && PendingSound(w) && !w.ctl.cfg.readOnly
    ensures Keeps(Step(w, Delete(n, outcome)), cl0)
  {
    var c, d, cl := w.ctl, w.ctl.desired, w.cluster;
    if c.pc.Deleting? && n in c.pc.doomed && !outcome.Rejected? {
      var gone := Key(c.pc.kinds[0], n);
      var cl' := cl - {gone};
      DeleteFrames(w, n, outcome, cl0);
      forall k | k in d ensures Applied(d, cl', k) { assert Applied(d, cl, k); }
      forall r | r in d && r in cl' && IsRoute(r.kind) ensures WantedRouteFine(d, cl0, cl', r) {
        assert Applied(d, cl, r) && LocalRefs(d[r].body) <= d.Keys;
      }
    }
  }

  lemma {:induction false} RunKeeps(w: World, es: seq<Event>, cl0: Cluster)
    requires Keeps(w, cl0) && AllClosed(w.ctl.desired) && PendingSound(w) && OneCycle(es) && !w.ctl.cfg.readOnly
    ensures Keeps(Run(w, es), cl0)
    decreases es
  {
    if es != [] {
      StepKeepsPendingSound(w, es[0]);
      StepKeepsConfig(w, es[0]);
      match es[0] {
        case Patch(k, outcome) => PatchKeeps(w, k, outcome, cl0);
        case List(_) =>
        case Delete(n, outcome) => DeleteKeeps(w, n, outcome, cl0);
      }
      RunKeeps(Step(w, es[0]), es[1..], cl0);
    }
  }

  lemma KeepingResolves(w: World, cl0: Cluster)
    requires Keeps(w, cl0) && AllRoutesResolve(w.ctl.cfg, cl0) && NoStaleUse(w.ctl.cfg, w.ctl.desired, cl0)
    ensures AllRoutesResolve(w.ctl.cfg, w.cluster)
  {
    var cfg, d, cl := w.ctl.cfg, w.ctl.desired, w.cluster;
    forall r | r in cl && IsRoute(r.kind) && Selected(cfg, cl[r].labels) ensures Resolves(cl, cl[r]) {
      if r in d {
        assert WantedRouteFine(d, cl0, cl, r);
      } else {
        assert Resolves(cl0, cl0[r]);
        forall t | t in LocalRefs(cl[r].body) ensures t in cl { assert !Orphan(cfg, d, cl0, t); }
      }
    }
  }

  // ---- With one, some run leaves it dangling --------------------------------------------------------

  /** Failing lists reach any kind still to be swept, the cluster untouched. */
  lemma {:induction false} FailListsTo(w: World, kind: Kind) returns (es: seq<Event>)
    requires w.ctl.pc.Listing? && kind in w.ctl.pc.kinds
    ensures OneCycle(es) && Run(w, es).cluster == w.cluster
    ensures Run(w, es).ctl.pc.Listing? && Run(w, es).ctl.pc.kinds != [] && Run(w, es).ctl.pc.kinds[0] == kind
    ensures Run(w, es).ctl == w.ctl.(pc := Run(w, es).ctl.pc)
    decreases w.ctl.pc.kinds
  {
    var kinds := w.ctl.pc.kinds;
    if kinds[0] == kind {
      es := [];
    } else {
      assert kinds == [kinds[0]] + kinds[1..];
      var tail := FailListsTo(Step(w, List(false)), kind);
      es := [List(false)] + tail;
    }
  }

  /** Sweeping a kind can delete any orphan of it first. */
  lemma SweepOne(w: World, t: Key)
    requires w.ctl.pc.Listing? && w.ctl.pc.kinds != [] && w.ctl.pc.kinds[0] == t.kind && !w.ctl.cfg.readOnly
    requires Orphan(w.ctl.cfg, w.ctl.desired, w.cluster, t)
    ensures Step(Step(w, List(true)), Delete(t.name, Succeeded)).cluster == w.cluster - {t}
  {
    OwnedIsKey(w.ctl.cfg, w.cluster, t);
    NameIsKey(w.ctl.desired, t);
    assert t.name in OwnedNames(w.ctl.cfg, w.cluster, t.kind) - NamesOf(w.ctl.desired, t.kind);
  }

  lemma AfterApplying(cfg: Config, d: Cluster, cl: Cluster) returns (es: seq<Event>)
    requires !cfg.readOnly
    ensures OneCycle(es) && Run(World(Start(cfg, d), cl), es).ctl == Controller(cfg, d, Listing(SweepOrder(cfg)))
    ensures forall o :: o !in d ==> SameAt(cl, Run(World(Start(cfg, d), cl), es).cluster, o)
  {
    var w := World(Start(cfg, d), cl);
    if d.Keys == {} {
      es := [];
    } else {
      es := ApplyToEnd(w);
    }
  }

  /** A run that sweeps this orphan and nothing else. */
  lemma SweepJust(cfg: Config, d: Cluster, cl: Cluster, t: Key) returns (es: seq<Event>)
    requires !cfg.readOnly && Orphan(cfg, d, cl, t)
    ensures OneCycle(es) && t !in Run(World(Start(cfg, d), cl), es).cluster
    ensures forall o :: o !in d && o != t ==> SameAt(cl, Run(World(Start(cfg, d), cl), es).cluster, o)
  {
    var w := World(Start(cfg, d), cl);
    var applies := AfterApplying(cfg, d, cl);
    var w1 := Run(w, applies);
    var lists := FailListsTo(w1, t.kind);
    var w2 := Run(w1, lists);
    assert SameAt(cl, w1.cluster, t);
    SweepOne(w2, t);
    RunAppend(w, applies, lists);
    RunSnoc(w, applies + lists, List(true));
    RunSnoc(w, applies + lists + [List(true)], Delete(t.name, Succeeded));
    es := applies + lists + [List(true)] + [Delete(t.name, Succeeded)];
  }

  lemma TargetsAreNotRoutes(b: Body, t: Key)
    requires t in LocalRefs(b)
    ensures !IsRoute(t.kind)
  {}

  /** Such a run leaves any dropped route that uses the orphan without it. */
  lemma SweptUseDangles(cfg: Config, d: Cluster, cl: Cluster, r: Key, t: Key) returns (es: seq<Event>)
    requires !cfg.readOnly && Orphan(cfg, d, cl, t) && r in cl && t in LocalRefs(cl[r].body)
    requires IsRoute(r.kind) && r !in d && Selected(cfg, cl[r].labels)
    ensures OneCycle(es) && !AllRoutesResolve(cfg, Run(World(Start(cfg, d), cl), es).cluster)
  {
    TargetsAreNotRoutes(cl[r].body, t);
    es := SweepJust(cfg, d, cl, t);
    var cl' := Run(World(Start(cfg, d), cl), es).cluster;
    assert SameAt(cl, cl', r);
    assert !Resolves(cl', cl'[r]);
  }

  /** Main result: for a closed manifest and a cluster whose owned routes resolve, they all
      resolve in every state of every run of the cycle, under any faults, if and only if no
      owned route the manifest has dropped refers to an object the cycle would sweep. */
  lemma StaleRoutesSafeIff(cfg: Config, d: Cluster, cl: Cluster)
    requires !cfg.readOnly && AllClosed(d) && AllRoutesResolve(cfg, cl)
    ensures ResolvesThroughout(cfg, d, cl) <==> NoStaleUse(cfg, d, cl)
  {
    var w := World(Start(cfg, d), cl);
    if NoStaleUse(cfg, d, cl) {
      forall es | OneCycle(es) ensures AllRoutesResolve(cfg, Run(w, es).cluster) {
        StartIsSound(cfg, d, cl);
        RunKeeps(w, es, cl);
        RunKeepsGoal(w, es);
        KeepingResolves(Run(w, es), cl);
      }
    }
    if ResolvesThroughout(cfg, d, cl) {
      forall r, t | r in cl && IsRoute(r.kind) && r !in d && Selected(cfg, cl[r].labels) && t in LocalRefs(cl[r].body)
        ensures !Orphan(cfg, d, cl, t)
      {
        if Orphan(cfg, d, cl, t) { var _ := SweptUseDangles(cfg, d, cl, r, t); }
      }
    }
  }

  /** The literal stale route is such a use, so its witness run is one of the failing ones. */
  lemma StaleRouteIsStaleUse(cfg: Config, kind: Kind)
    requires kind == HTTPRoute || kind == TCPRoute
    requires Selected(cfg, OwnerLabels(cfg))
    ensures AllRoutesResolve(cfg, StaleRoute(cfg, kind)) && !NoStaleUse(cfg, map[], StaleRoute(cfg, kind))
  {
    var cl := StaleRoute(cfg, kind);
    var r, t := Key(kind, "r"), Key(Service, "svc");
    assert SweepOrder(cfg)[3] == Service;
    assert Orphan(cfg, map[], cl, t);
    assert r in cl && t in LocalRefs(cl[r].body);
  }
}
