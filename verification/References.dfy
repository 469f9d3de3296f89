/** Order of applies and sweeps: at every step of every run of cycles each managed
    HTTPRoute resolves to backends that are present in the cluster. */
module References {
  import opened Prelude
  import opened Objects
  import opened ControllerSteps
  import opened Convergence

  predicate Resolves(cl: Cluster, o: Obj) {
    LocalRefs(o.body) <= cl.Keys
  }

  /** Every HTTPRoute the controller owns points only at objects that exist. */
  predicate RoutesResolve(cfg: Config, cl: Cluster) {
    forall k :: k in cl && k.kind == HTTPRoute && Selected(cfg, cl[k].labels) ==> Resolves(cl, cl[k])
  }

  /** A manifest whose routes reference only its own backends. */
  predicate Closed(d: Cluster) {
    forall k :: k in d && k.kind == HTTPRoute ==> LocalRefs(d[k].body) <= d.Keys
  }

  /** The restriction on faults: HTTPRoute lists succeed and HTTPRoute
      deletes take effect. A delete whose answer is lost is allowed. */
  predicate RouteSweepWorks(w: World, e: Event) {
    match e
    case List(ok) => w.ctl.pc.Listing? && w.ctl.pc.kinds != [] && w.ctl.pc.kinds[0] == HTTPRoute ==> ok
    case Delete(_, outcome) =>
      w.ctl.pc.Deleting? && w.ctl.pc.kinds != [] && w.ctl.pc.kinds[0] == HTTPRoute ==> !outcome.Rejected?
    case Begin(d) => Closed(d)
    case Patch(_, _) => true
  }

  predicate RouteSweepsWork(w: World, es: seq<Event>)
    decreases es
  {
    es == [] || (RouteSweepWorks(w, es[0]) && RouteSweepsWork(Step(w, es[0]), es[1..]))
  }

  predicate Applied(d: Cluster, cl: Cluster, k: Key)
    requires k in d
  {
    k in cl && cl[k].body == d[k].body
  }

  /** Owned routes are among the desired ones, apart from those named in `extra`. */
  predicate RoutesWanted(c: Controller, cl: Cluster, extra: set<string>) {
    forall k :: k in cl && k.kind == HTTPRoute && Selected(c.cfg, cl[k].labels) ==> k in c.desired || k.name in extra
  }

  predicate IsSuffix(kinds: seq<Kind>, order: seq<Kind>) {
    |kinds| <= |order| && kinds == order[|order| - |kinds|..]
  }

  /** What holds at every point of every cycle. */
  predicate Invariant(w: World) {
    var c, cl := w.ctl, w.cluster;
    && Closed(c.desired)
    && RoutesResolve(c.cfg, cl)
    && match c.pc
       case Applying(rest) => forall k :: k in c.desired && k !in rest ==> Applied(c.desired, cl, k)
       case Listing(kinds) =>
         && IsSuffix(kinds, SweepOrder(c.cfg))
         && (forall k :: k in c.desired ==> Applied(c.desired, cl, k))
         && (kinds != SweepOrder(c.cfg) ==> RoutesWanted(c, cl, {}))
       case Deleting(kinds, doomed) =>
         && kinds != []
         && IsSuffix(kinds, SweepOrder(c.cfg))
         && (forall k :: k in c.desired ==> Applied(c.desired, cl, k))
         && (forall n :: n in doomed ==> Key(kinds[0], n) !in c.desired)
         && RoutesWanted(c, cl, if kinds[0] == HTTPRoute then doomed else {})
       case _ => true
  }

  /** HTTPRoutes come first in the sweep order and only there. */
  lemma RoutesSweptFirst(cfg: Config, kinds: seq<Kind>)
    requires kinds != [] && IsSuffix(kinds, SweepOrder(cfg))
    ensures kinds[0] == HTTPRoute <==> kinds == SweepOrder(cfg)
    ensures IsSuffix(kinds[1..], SweepOrder(cfg)) && kinds[1..] != SweepOrder(cfg)
  {
    var order := SweepOrder(cfg);
    assert order[0] == HTTPRoute;
    assert forall i :: 1 <= i < |order| ==> order[i] != HTTPRoute;
    assert kinds[0] == order[|order| - |kinds|];
    assert kinds[1..] == order[|order| - |kinds| + 1..];
  }

  lemma PatchKeepsInvariant(w: World, k: Key, outcome: Outcome)
    requires Invariant(w)
    requires !w.ctl.cfg.readOnly
    ensures Invariant(Step(w, Patch(k, outcome)))
  {
    var c, cl := w.ctl, w.cluster;
    if c.pc.Applying? && MayApply(c.pc.rest, k) && k in c.desired && !outcome.Rejected? {
      var cl' := cl[k := Patched(cl, k, c.desired[k])];
      forall r: Key | r in cl' && r.kind == HTTPRoute && Selected(c.cfg, cl'[r].labels)
        ensures Resolves(cl', cl'[r])
      {
        if r == k {
          forall t | t in LocalRefs(c.desired[k].body) ensures t in cl' {
            BackendsRankLower(c.desired[k].body, t);
            assert t !in c.pc.rest;
            assert Applied(c.desired, cl, t);
          }
        }
      }
      forall other | other in c.desired && other !in c.pc.rest - {k} ensures Applied(c.desired, cl', other) {}
      assert IsSuffix(SweepOrder(c.cfg), SweepOrder(c.cfg));
    }
  }

  lemma BackendsRankLower(b: Body, t: Key)
    requires t in LocalRefs(b)
    ensures Rank(t.kind) < Rank(HTTPRoute)
  {}

  lemma ListKeepsInvariant(w: World, ok: bool)
    requires Invariant(w) && RouteSweepWorks(w, List(ok))
    ensures Invariant(Step(w, List(ok)))
  {
    var c, cl := w.ctl, w.cluster;
    if c.pc.Listing? && c.pc.kinds != [] {
      var kind := c.pc.kinds[0];
      RoutesSweptFirst(c.cfg, c.pc.kinds);
      if ok {
        var doomed := OwnedNames(c.cfg, cl, kind) - NamesOf(c.desired, kind);
        forall n | n in doomed ensures Key(kind, n) !in c.desired {
          NameIsKey(c.desired, Key(kind, n));
        }
        if kind == HTTPRoute {
          forall k | k in cl && k.kind == HTTPRoute && Selected(c.cfg, cl[k].labels)
            ensures k in c.desired || k.name in doomed
          {
            OwnedIsKey(c.cfg, cl, k);
            NameIsKey(c.desired, k);
          }
        }
      }
    }
  }

  lemma DeleteKeepsInvariant(w: World, n: string, outcome: Outcome)
    requires Invariant(w) && RouteSweepWorks(w, Delete(n, outcome))
    requires !w.ctl.cfg.readOnly
    ensures Invariant(Step(w, Delete(n, outcome)))
  {
    var c, cl := w.ctl, w.cluster;
    if c.pc.Deleting? && n in c.pc.doomed {
      RoutesSweptFirst(c.cfg, c.pc.kinds);
      if outcome.Rejected? {
        assert c.pc.kinds[0] != HTTPRoute;
      } else {
        DeleteKeepsResolving(c, cl, n);
        DeleteKeepsWanted(c, cl, n);
      }
    }
  }

  lemma DeleteKeepsWanted(c: Controller, cl: Cluster, n: string)
    requires Invariant(World(c, cl)) && c.pc.Deleting? && n in c.pc.doomed
    ensures var cl' := cl - {Key(c.pc.kinds[0], n)};
      && (forall k :: k in c.desired ==> Applied(c.desired, cl', k))
      && RoutesWanted(c, cl', if c.pc.kinds[0] == HTTPRoute then c.pc.doomed - {n} else {})
  {
    var cl' := cl - {Key(c.pc.kinds[0], n)};
    forall k | k in c.desired ensures Applied(c.desired, cl', k) { assert Applied(c.desired, cl, k); }
  }

  /** Deleting a route takes no backend away, and once routes are swept only desired ones
      are left, whose backends stay. */
  lemma DeleteKeepsResolving(c: Controller, cl: Cluster, n: string)
    requires Invariant(World(c, cl)) && c.pc.Deleting? && n in c.pc.doomed
    ensures RoutesResolve(c.cfg, cl - {Key(c.pc.kinds[0], n)})
  {
    var gone := Key(c.pc.kinds[0], n);
    var cl' := cl - {gone};
    forall r: Key | r in cl' && r.kind == HTTPRoute && Selected(c.cfg, cl'[r].labels)
      ensures Resolves(cl', cl'[r])
    {
      if c.pc.kinds[0] == HTTPRoute {
        forall t | t in LocalRefs(cl[r].body) ensures t != gone { BackendsRankLower(cl[r].body, t); }
      } else {
        assert r in c.desired && Applied(c.desired, cl, r);
        assert forall t :: t in LocalRefs(c.desired[r].body) ==> t in c.desired && t != gone;
      }
    }
  }

  /** Main result, for a controller that writes: every reachable state resolves. The
      events may start new cycles, crash, reject or lose calls; only HTTPRoute lists
      and deletes must work and every manifest must be closed. */
  lemma {:induction false} RoutesAlwaysResolve(w: World, es: seq<Event>)
    requires Invariant(w) && RouteSweepsWork(w, es) && !w.ctl.cfg.readOnly
    ensures Invariant(Run(w, es)) && RoutesResolve(w.ctl.cfg, Run(w, es).cluster)
    decreases es
  {
    if es != [] {
      StepKeepsConfig(w, es[0]);
      match es[0] {
        case Begin(d) => assert IsSuffix(SweepOrder(w.ctl.cfg), SweepOrder(w.ctl.cfg));
        case Patch(k, outcome) => PatchKeepsInvariant(w, k, outcome);
        case List(ok) => ListKeepsInvariant(w, ok);
        case Delete(n, outcome) => DeleteKeepsInvariant(w, n, outcome);
      }
      RoutesAlwaysResolve(Step(w, es[0]), es[1..]);
    }
  }

  /** The run may begin with any closed manifest in any cluster whose routes resolve. */
  lemma StartResolves(cfg: Config, d: Cluster, cl: Cluster)
    requires Closed(d) && RoutesResolve(cfg, cl)
    ensures Invariant(World(Start(cfg, d), cl))
  {
    assert IsSuffix(SweepOrder(cfg), SweepOrder(cfg));
  }

  /** A cluster holding one stale route and the Service it points at. */
  function StaleRoute(cfg: Config, kind: Kind): Cluster {
    var backend := BackendRef("", "Service", "svc", None, 80);
    map[Key(Service, "svc") := Obj(OwnerLabels(cfg), ServiceBody(80, "TCP")),
        Key(kind, "r") := Obj(OwnerLabels(cfg),
                              if kind == HTTPRoute then HTTPRouteBody([], None, [], Some(backend))
                              else L4RouteBody([], backend))]
  }

  /** Both restrictions are needed. When the HTTPRoute list fails, and for a stale
      TCPRoute even when nothing fails (those are swept after backends), the cycle
      for an empty manifest removes the Service under a route that still stands. */
  lemma StaleRouteDangles(cfg: Config, kind: Kind)
    requires kind == HTTPRoute || kind == TCPRoute
    requires Selected(cfg, OwnerLabels(cfg)) && !cfg.readOnly
    ensures var cl := StaleRoute(cfg, kind);
      var cl' := Run(World(Start(cfg, map[]), cl), StaleEvents(kind)).cluster;
      && Resolves(cl, cl[Key(kind, "r")])
      && Key(kind, "r") in cl' && !Resolves(cl', cl'[Key(kind, "r")])
  {
    StaleSweep(cfg, kind);
    var svc, cl := Key(Service, "svc"), StaleRoute(cfg, kind);
    assert svc in LocalRefs(cl[Key(kind, "r")].body);
  }

  /** The sweep so far: routes, listener sets, slices, services. */
  function StaleEvents(kind: Kind): seq<Event> {
    [List(kind == TCPRoute), List(true), List(true), List(true), Delete("svc", Succeeded)]
  }

  lemma StaleSweep(cfg: Config, kind: Kind)
    requires kind == HTTPRoute || kind == TCPRoute
    requires Selected(cfg, OwnerLabels(cfg)) && !cfg.readOnly
    ensures Run(World(Start(cfg, map[]), StaleRoute(cfg, kind)), StaleEvents(kind)).cluster ==
            StaleRoute(cfg, kind) - {Key(Service, "svc")}
  {
    var nothing: Cluster := map[];
    var cl := StaleRoute(cfg, kind);
    var order := SweepOrder(cfg);
    SweepPrefix(cfg);
    assert nothing.Keys == {};
    var w0 := World(Start(cfg, nothing), cl);
    var es := StaleEvents(kind);
    SkipKind(w0, kind, order, kind == TCPRoute);
    var w1 := World(w0.ctl.(pc := Listing(order[1..])), cl);
    SkipKind(w1, kind, order[1..], true);
    var w2 := World(w0.ctl.(pc := Listing(order[2..])), cl);
    assert order[1..][1..] == order[2..];
    SkipKind(w2, kind, order[2..], true);
    var w3 := World(w0.ctl.(pc := Listing(order[3..])), cl);
    assert order[2..][1..] == order[3..];
    SweepService(w3, kind, order[3..]);
    RunOfFive(w0, es);
  }

  lemma SweepPrefix(cfg: Config)
    ensures |SweepOrder(cfg)| > 4
    ensures SweepOrder(cfg)[0] == HTTPRoute && SweepOrder(cfg)[1] == ListenerSet
    ensures SweepOrder(cfg)[2] == EndpointSlice && SweepOrder(cfg)[3] == Service
  {}

  lemma SweepService(w: World, kind: Kind, kinds: seq<Kind>)
    requires kinds != [] && kinds[0] == Service && kind != Service && !w.ctl.cfg.readOnly
    requires Selected(w.ctl.cfg, OwnerLabels(w.ctl.cfg)) && w.ctl.desired == map[]
    requires w.ctl.pc == Listing(kinds) && w.cluster == StaleRoute(w.ctl.cfg, kind)
    ensures Step(Step(w, List(true)), Delete("svc", Succeeded)).cluster == w.cluster - {Key(Service, "svc")}
  {
    var svc := Key(Service, "svc");
    OwnedIsKey(w.ctl.cfg, w.cluster, svc);
    NameIsKey(w.ctl.desired, svc);
    var w' := Step(w, List(true));
    assert "svc" in OwnedNames(w.ctl.cfg, w.cluster, Service) - NamesOf(w.ctl.desired, Service);
    assert w'.ctl.pc.Deleting?;
  }

  lemma RunOfFive(w: World, es: seq<Event>)
    requires |es| == 5
    ensures Run(w, es) == Step(Step(Step(Step(Step(w, es[0]), es[1]), es[2]), es[3]), es[4])
  {
    RunAppend(w, [es[0], es[1]], [es[2], es[3], es[4]]);
    assert es == [es[0], es[1]] + [es[2], es[3], es[4]];
    var v := Run(w, [es[0], es[1]]);
    RunAppend(v, [es[2], es[3]], [es[4]]);
    assert [es[2], es[3], es[4]] == [es[2], es[3]] + [es[4]];
    RunOfTwo(w, es[0], es[1]);
    RunOfTwo(v, es[2], es[3]);
  }

  lemma RunOfTwo(w: World, e: Event, f: Event)
    ensures Run(w, [e, f]) == Step(Step(w, e), f)
  {
    assert [e, f][1..] == [f];
    assert Run(Step(w, e), [f]) == Step(Step(w, e), f);
  }

  lemma SkipKind(w: World, kind: Kind, kinds: seq<Kind>, ok: bool)
    requires |kinds| > 1 && kinds[0] != Service && (ok ==> kinds[0] != kind)
    requires w.ctl.pc == Listing(kinds) && w.cluster == StaleRoute(w.ctl.cfg, kind)
    ensures Step(w, List(ok)) == World(w.ctl.(pc := Listing(kinds[1..])), w.cluster)
  {
    if ok {
      assert OwnedNames(w.ctl.cfg, w.cluster, kinds[0]) == {};
    }
  }
}
