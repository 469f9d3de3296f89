/** Policies are applied after the routes they guard and swept whether or not the sweep of
    routes worked: when a cycle leaves a route without a guard. */
module Exposure {
  import opened Prelude
  import opened Objects
  import opened ControllerSteps
  import opened Convergence
  import opened Interrupted
  import opened StaleRoutes

  /** The cluster after some calls of a cycle. */
  function After(cfg: Config, d: Cluster, cl: Cluster, es: seq<Event>): Cluster {
    Run(World(Start(cfg, d), cl), es).cluster
  }

  /** A fail-closed policy that targets the route. */
  predicate Guards(cl: Cluster, p: Key, r: Key) {
    && p in cl && p.kind == SecurityPolicy && cl[p].body.SecurityPolicyBody?
    && !cl[p].body.failOpen && r == Key(HTTPRoute, cl[p].body.route)
  }

  ghost predicate IsGuarded(cl: Cluster, r: Key) {
    exists p :: Guards(cl, p, r)
  }

  /** A manifest whose policies are fail-closed and target its own HTTPRoutes. */
  predicate PoliciesClosed(d: Cluster) {
    forall p :: p in d && p.kind == SecurityPolicy ==>
      d[p].body.SecurityPolicyBody? && !d[p].body.failOpen && Key(HTTPRoute, d[p].body.route) in d
  }

  // ---- Routes the manifest guards -------------------------------------------------------------

  /** Every route in the cluster that the manifest guards has some guard there. */
  ghost predicate WantedAreGuarded(d: Cluster, cl: Cluster) {
    forall r :: r in cl && IsGuarded(d, r) ==> IsGuarded(cl, r)
  }

  ghost predicate NeverExposes(cfg: Config, d: Cluster, cl: Cluster) {
    forall es :: OneCycle(es) ==> WantedAreGuarded(d, After(cfg, d, cl, es))
  }

  /** A guard the route has already, which the manifest does not turn to another route. */
  predicate GuardStays(d: Cluster, cl: Cluster, p: Key, r: Key) {
    Guards(cl, p, r) && (p in d ==> Guards(d, p, r))
  }

  ghost predicate WantedHaveGuards(d: Cluster, cl: Cluster) {
    forall r :: IsGuarded(d, r) ==> exists p :: GuardStays(d, cl, p, r)
  }

  /** Once the applies are over, and for good, every route the manifest guards is guarded. */
  lemma AppliedIsGuarded(cfg: Config, d: Cluster, cl: Cluster, es: seq<Event>)
    requires !cfg.readOnly && OneCycle(es)
    requires var pc := Run(World(Start(cfg, d), cl), es).ctl.pc; !pc.Applying? && !pc.Failed?
    ensures forall r :: IsGuarded(d, r) ==> IsGuarded(After(cfg, d, cl, es), r)
  {
    var cl' := After(cfg, d, cl, es);
    ApplyingOrCovered(cfg, d, cl, es);
    forall r | IsGuarded(d, r) ensures IsGuarded(cl', r) {
      var p :| Guards(d, p, r);
      assert Settled(d, cl', p);
      assert Guards(cl', p, r);
    }
  }

  lemma StayingGuardsSuffice(cfg: Config, d: Cluster, cl: Cluster, es: seq<Event>)
    requires !cfg.readOnly && OneCycle(es) && WantedHaveGuards(d, cl)
    ensures WantedAreGuarded(d, After(cfg, d, cl, es))
  {
    var w := Run(World(Start(cfg, d), cl), es);
    ApplyingOrCovered(cfg, d, cl, es);
    if w.ctl.pc.Applying? || w.ctl.pc.Failed? {
      forall r | r in w.cluster && IsGuarded(d, r) ensures IsGuarded(w.cluster, r) {
        var p :| GuardStays(d, cl, p, r);
        assert TouchedOnce(d, cl, w.cluster, p);
        assert Guards(w.cluster, p, r);
      }
    } else {
      AppliedIsGuarded(cfg, d, cl, es);
    }
  }

  /** Successful applies can put everything in place but some policies. */
  lemma {:induction false} ApplyAllBut(w: World, late: set<Key>) returns (es: seq<Event>)
    requires IsApplying(w) && late != {} && late <= w.ctl.pc.rest && forall p :: p in late ==> p.kind == SecurityPolicy
    ensures OneCycle(es)
    ensures forall k :: k in w.ctl.pc.rest - late ==>
      k in Run(w, es).cluster && Run(w, es).cluster[k].body == w.ctl.desired[k].body
    ensures forall k :: k !in w.ctl.pc.rest - late ==> SameAt(w.cluster, Run(w, es).cluster, k)
    decreases w.ctl.pc.rest
  {
    var rest := w.ctl.pc.rest;
    if rest == late {
      es := [];
    } else {
      assert rest == late + (rest - late);
      var k := SomeKeyMayApply(rest - late);
      assert MayApply(rest, k) by { RankOfPoliciesIsLast(); }
      var e := Patch(k, Succeeded);
      PatchLeavesOthers(w, k, Succeeded);
      var w' := Step(w, e);
      assert late <= rest - {k} && rest - {k} != {};
      assert rest - late == ((rest - {k}) - late) + {k};
      var tail := ApplyAllBut(w', late);
      es := [e] + tail;
      assert SameAt(w'.cluster, Run(w', tail).cluster, k);
      assert Run(w, es) == Run(w', tail);
    }
  }

  lemma RankOfPoliciesIsLast()
    ensures forall kind :: Rank(kind) <= Rank(SecurityPolicy)
  {}

  /** A run that applies the route before any policy that would guard it. */
  lemma UnguardedMoment(cfg: Config, d: Cluster, cl: Cluster, r: Key) returns (es: seq<Event>)
    requires !cfg.readOnly && PoliciesClosed(d) && IsGuarded(d, r)
    ensures OneCycle(es)
    ensures var cl' := After(cfg, d, cl, es);
      r in cl' && forall p :: Guards(cl', p, r) ==> GuardStays(d, cl, p, r)
  {
    var w := World(Start(cfg, d), cl);
    var own := set p | p in d && Guards(d, p, r);
    var one :| Guards(d, one, r);
    assert one in own && own <= d.Keys;
    es := ApplyAllBut(w, own);
    var cl' := Run(w, es).cluster;
    assert r in d && r !in own;
    assert forall p :: p in d && p !in own ==> p in cl' && cl'[p].body == d[p].body;
    forall p | Guards(cl', p, r) ensures GuardStays(d, cl, p, r) {
      assert p in own || p !in d;
    }
  }

  /** Main result: in every state of every run of the cycle, under any faults, each route the
      manifest guards has a guard as long as it stands, if and only if each has one already
      that the manifest does not turn to another route. */
  lemma NeverExposesIff(cfg: Config, d: Cluster, cl: Cluster)
    requires !cfg.readOnly && PoliciesClosed(d)
    ensures NeverExposes(cfg, d, cl) <==> WantedHaveGuards(d, cl)
  {
    var w := World(Start(cfg, d), cl);
    if WantedHaveGuards(d, cl) {
      forall es | OneCycle(es) ensures WantedAreGuarded(d, Run(w, es).cluster) {
        StayingGuardsSuffice(cfg, d, cl, es);
      }
    }
    if NeverExposes(cfg, d, cl) {
      forall r | IsGuarded(d, r) ensures exists p :: GuardStays(d, cl, p, r) {
        var es := UnguardedMoment(cfg, d, cl, r);
        assert WantedAreGuarded(d, Run(w, es).cluster);
        var p :| Guards(Run(w, es).cluster, p, r);
        assert GuardStays(d, cl, p, r);
      }
    }
  }

  // ---- Routes the manifest drops ----------------------------------------------------------------

  predicate IsDropped(d: Cluster, cl: Cluster, r: Key) {
    r in cl && r.kind == HTTPRoute && r !in d
  }

  /** A guard the cycle has no business with: neither applied nor swept. */
  predicate IsLeftAlone(cfg: Config, d: Cluster, cl: Cluster, p: Key) {
    p !in d && !Orphan(cfg, d, cl, p)
  }

  /** A guard that is left alone guards to the end. */
  lemma LeftAloneStays(cfg: Config, d: Cluster, cl: Cluster, es: seq<Event>, p: Key, r: Key)
    requires OneCycle(es) && Guards(cl, p, r) && IsLeftAlone(cfg, d, cl, p)
    ensures Guards(After(cfg, d, cl, es), p, r)
  {
    StartIsSound(cfg, d, cl);
    RunFrames(World(Start(cfg, d), cl), es, cl);
    RunKeepsGoal(World(Start(cfg, d), cl), es);
  }

  /** Do dropped routes that still stand keep each of their guards? */
  ghost predicate GuardsStay(cfg: Config, d: Cluster, cl: Cluster) {
    forall es, r, p :: OneCycle(es) && IsDropped(d, cl, r) && Guards(cl, p, r) && r in After(cfg, d, cl, es) ==>
      Guards(After(cfg, d, cl, es), p, r)
  }

  /** A run that takes a guard from a dropped route which still stands. */
  lemma LoseGuard(cfg: Config, d: Cluster, cl: Cluster, r: Key, p: Key) returns (es: seq<Event>)
    requires !cfg.readOnly && PoliciesClosed(d) && IsDropped(d, cl, r)
    requires Guards(cl, p, r) && !IsLeftAlone(cfg, d, cl, p)
    ensures OneCycle(es)
    ensures var cl' := After(cfg, d, cl, es); r in cl' && !Guards(cl', p, r)
  {
    var w := World(Start(cfg, d), cl);
    if p in d {
      es := FailAt(cfg, d, cl, p);
      ApplyingOrCovered(cfg, d, cl, es);
      assert TouchedOnce(d, cl, Run(w, es).cluster, r);
    } else {
      es := SweepJust(cfg, d, cl, p);
      assert SameAt(cl, Run(w, es).cluster, r);
    }
  }

  /** Main result: in every run, under any faults, dropped routes keep each of their guards as
      long as they stand if and only if all those guards are left alone. */
  lemma GuardsStayIff(cfg: Config, d: Cluster, cl: Cluster)
    requires !cfg.readOnly && PoliciesClosed(d)
    ensures GuardsStay(cfg, d, cl) <==>
      forall r, p :: IsDropped(d, cl, r) && Guards(cl, p, r) ==> IsLeftAlone(cfg, d, cl, p)
  {
    if forall r, p :: IsDropped(d, cl, r) && Guards(cl, p, r) ==> IsLeftAlone(cfg, d, cl, p) {
      forall es, r, p | OneCycle(es) && IsDropped(d, cl, r) && Guards(cl, p, r) && r in After(cfg, d, cl, es)
        ensures Guards(After(cfg, d, cl, es), p, r)
      {
        LeftAloneStays(cfg, d, cl, es, p, r);
      }
    }
    if GuardsStay(cfg, d, cl) {
      forall r, p | IsDropped(d, cl, r) && Guards(cl, p, r) ensures IsLeftAlone(cfg, d, cl, p) {
        if !IsLeftAlone(cfg, d, cl, p) { var _ := LoseGuard(cfg, d, cl, r, p); }
      }
    }
  }

  /** Do dropped routes that still stand keep some guard? */
  ghost predicate DroppedStayGuarded(cfg: Config, d: Cluster, cl: Cluster) {
    forall es, r :: OneCycle(es) && IsDropped(d, cl, r) && IsGuarded(cl, r) && r in After(cfg, d, cl, es) ==>
      IsGuarded(After(cfg, d, cl, es), r)
  }

  ghost predicate DroppedHaveGuards(cfg: Config, d: Cluster, cl: Cluster) {
    forall r :: IsDropped(d, cl, r) && IsGuarded(cl, r) ==> exists p :: Guards(cl, p, r) && IsLeftAlone(cfg, d, cl, p)
  }

  /** Kinds that are not to be swept any more are not touched any more. */
  lemma {:induction false} PastKindsStay(w: World, es: seq<Event>, kind: Kind)
    requires OneCycle(es)
    requires match w.ctl.pc
             case Listing(kinds) => kind !in kinds
             case Deleting(kinds, _) => kinds != [] && kind !in kinds
             case Finished => true
             case _ => false
    ensures forall k: Key :: k.kind == kind ==> SameAt(w.cluster, Run(w, es).cluster, k)
    decreases es
  {
    if es != [] {
      if w.ctl.pc.Deleting? { assert w.ctl.pc.kinds[0] in w.ctl.pc.kinds; }
      PastKindsStay(Step(w, es[0]), es[1..], kind);
    }
  }

  /** All is applied, then the first list, that of HTTPRoutes, fails. */
  lemma FailRouteList(cfg: Config, d: Cluster, cl: Cluster) returns (es: seq<Event>)
    requires !cfg.readOnly
    ensures OneCycle(es)
    ensures var w := Run(World(Start(cfg, d), cl), es);
      && w.ctl == Controller(cfg, d, Listing(SweepOrder(cfg)[1..])) && Covered(d, w.cluster)
      && forall k :: k !in d ==> SameAt(cl, w.cluster, k)
  {
    var w := World(Start(cfg, d), cl);
    var applies := AfterApplying(cfg, d, cl);
    ApplyingOrCovered(cfg, d, cl, applies);
    assert SweepOrder(cfg)[1] == ListenerSet;
    RunSnoc(w, applies, List(false));
    es := applies + [List(false)];
  }

  lemma RoutesComeFirst(cfg: Config)
    ensures SweepOrder(cfg) == [HTTPRoute] + SweepOrder(cfg)[1..] && HTTPRoute !in SweepOrder(cfg)[1..]
    ensures SweepOrder(cfg)[1..] != []
  {
    assert SweepOrder(cfg)[0] == HTTPRoute && SweepOrder(cfg)[1] == ListenerSet;
  }

  /** What is left of the sweeps can work, and leaves no orphan but HTTPRoutes. */
  lemma SweepTheRest(w: World) returns (es: seq<Event>)
    requires !w.ctl.cfg.readOnly && w.ctl.pc == Listing(SweepOrder(w.ctl.cfg)[1..]) && Covered(w.ctl.desired, w.cluster)
    ensures OneCycle(es) && Run(w, es).ctl.pc.Finished?
    ensures var cl := Run(w, es).cluster;
      && Covered(w.ctl.desired, cl)
      && (forall k :: k in cl && Orphan(w.ctl.cfg, w.ctl.desired, cl, k) ==> k.kind == HTTPRoute)
      && forall r: Key :: r.kind == HTTPRoute ==> SameAt(w.cluster, cl, r)
  {
    var cfg, d := w.ctl.cfg, w.ctl.desired;
    RoutesComeFirst(cfg);
    es := CycleCanFinish(w);
    FaultFreeSweeps(w, es, {HTTPRoute});
    PastKindsStay(w, es, HTTPRoute);
    assert PendingSound(w) && CleanBefore(w, SweepOrder(cfg)[1..], {HTTPRoute});
    RunAchieves(w, es, {HTTPRoute});
    RunKeepsGoal(w, es);
    var cl := Run(w, es).cluster;
    forall k | k in cl && Orphan(cfg, d, cl, k) ensures k.kind == HTTPRoute {
      assert k.kind == HTTPRoute || NoOrphans(cfg, d, cl, k.kind);
    }
  }

  /** The cycle in which only the list of HTTPRoutes fails. */
  lemma OnlyRouteListFails(cfg: Config, d: Cluster, cl: Cluster) returns (es: seq<Event>)
    requires !cfg.readOnly
    ensures OneCycle(es) && Run(World(Start(cfg, d), cl), es).ctl.pc.Finished?
    ensures var cl' := After(cfg, d, cl, es);
      && Covered(d, cl')
      && (forall k :: k in cl' && Orphan(cfg, d, cl', k) ==> k.kind == HTTPRoute)
      && (forall r: Key :: r.kind == HTTPRoute && r !in d ==> SameAt(cl, cl', r))
  {
    var w := World(Start(cfg, d), cl);
    var front := FailRouteList(cfg, d, cl);
    var tail := SweepTheRest(Run(w, front));
    RunAppend(w, front, tail);
    es := front + tail;
  }

  /** That cycle strips every dropped route whose guards are all applied or swept. */
  lemma RouteListFailureExposes(cfg: Config, d: Cluster, cl: Cluster, r: Key) returns (es: seq<Event>)
    requires !cfg.readOnly && PoliciesClosed(d) && IsDropped(d, cl, r)
    requires forall p :: Guards(cl, p, r) ==> !IsLeftAlone(cfg, d, cl, p)
    ensures OneCycle(es) && Run(World(Start(cfg, d), cl), es).ctl.pc.Finished?
    ensures r in After(cfg, d, cl, es) && !IsGuarded(After(cfg, d, cl, es), r)
  {
    es := OnlyRouteListFails(cfg, d, cl);
    var w := World(Start(cfg, d), cl);
    var cl' := Run(w, es).cluster;
    assert SameAt(cl, cl', r);
    StartIsSound(cfg, d, cl);
    RunFrames(w, es, cl);
    RunKeepsGoal(w, es);
    forall p ensures !Guards(cl', p, r) { NoGuardLeft(cfg, d, cl, cl', r, p); }
  }

  lemma NoGuardLeft(cfg: Config, d: Cluster, cl: Cluster, cl': Cluster, r: Key, p: Key)
    requires PoliciesClosed(d) && r !in d && (Guards(cl, p, r) ==> !IsLeftAlone(cfg, d, cl, p))
    requires Covered(d, cl') && Framed(cfg, d, cl, cl')
    requires forall k :: k in cl' && Orphan(cfg, d, cl', k) ==> k.kind == HTTPRoute
    ensures !Guards(cl', p, r)
  {
    if p in d {
      assert Settled(d, cl', p);
    } else if p in cl' {
      assert p in cl && cl'[p] == cl[p];
      assert Orphan(cfg, d, cl', p) <==> Orphan(cfg, d, cl, p);
    }
  }

  /** Main result: in every run, under any faults, dropped routes stay guarded as long as they
      stand if and only if each has a guard that is left alone. When one has none, the cycle
      in which only the list of HTTPRoutes fails exposes it, and still finishes. */
  lemma DroppedStayGuardedIff(cfg: Config, d: Cluster, cl: Cluster)
    requires !cfg.readOnly && PoliciesClosed(d)
    ensures DroppedStayGuarded(cfg, d, cl) <==> DroppedHaveGuards(cfg, d, cl)
  {
    if DroppedHaveGuards(cfg, d, cl) {
      forall es, r | OneCycle(es) && IsDropped(d, cl, r) && IsGuarded(cl, r) && r in After(cfg, d, cl, es)
        ensures IsGuarded(After(cfg, d, cl, es), r)
      {
        var p :| Guards(cl, p, r) && IsLeftAlone(cfg, d, cl, p);
        LeftAloneStays(cfg, d, cl, es, p, r);
      }
    }
    if DroppedStayGuarded(cfg, d, cl) {
      forall r | IsDropped(d, cl, r) && IsGuarded(cl, r)
        ensures exists p :: Guards(cl, p, r) && IsLeftAlone(cfg, d, cl, p)
      {
        if forall p :: Guards(cl, p, r) ==> !IsLeftAlone(cfg, d, cl, p) {
          var _ := RouteListFailureExposes(cfg, d, cl, r);
        }
      }
    }
  }

  // ---- A literal case -------------------------------------------------------------------------------

  /** A cluster with one guarded route, both objects the controller's own. */
  function OneGuardedRoute(cfg: Config, auth: ExtAuthz): Cluster {
    map[Key(HTTPRoute, "hr-r") := Obj(OwnerLabels(cfg), HTTPRouteBody([], None, [], None)),
        Key(SecurityPolicy, "sp-hr-r") := Obj(OwnerLabels(cfg), SecurityPolicyBody("hr-r", auth, false))]
  }

  /** The route is dropped, the list of HTTPRoutes fails, the policy is swept all the same,
      and the cycle finishes with the route standing unguarded. */
  lemma DroppedRouteLosesGuard(cfg: Config, auth: ExtAuthz) returns (es: seq<Event>)
    requires !cfg.readOnly && cfg.extAuthz.Some? && Selected(cfg, OwnerLabels(cfg))
    ensures var cl, r := OneGuardedRoute(cfg, auth), Key(HTTPRoute, "hr-r");
      var w := Run(World(Start(cfg, map[]), cl), es);
      && OneCycle(es) && IsGuarded(cl, r) && w.ctl.pc.Finished?
      && r in w.cluster && w.cluster[r] == cl[r] && !IsGuarded(w.cluster, r)
  {
    var cl, r, p := OneGuardedRoute(cfg, auth), Key(HTTPRoute, "hr-r"), Key(SecurityPolicy, "sp-hr-r");
    assert Guards(cl, p, r);
    var order := SweepOrder(cfg);
    assert order[|order| - 2] == SecurityPolicy;
    assert Orphan(cfg, map[], cl, p);
    es := RouteListFailureExposes(cfg, map[], cl, r);
    var w := World(Start(cfg, map[]), cl);
    StartIsSound(cfg, map[], cl);
    RunFrames(w, es, cl);
    RunKeepsGoal(w, es);
  }
}
