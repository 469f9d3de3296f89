/** Two controllers sharing one namespace: every interleaving of their steps is
    the product of two independent runs. */
module Interleaving {
  import opened Objects
  import opened ControllerSteps
  import opened Convergence

  datatype Who = A | B

  datatype Shared = Shared(a: Controller, b: Controller, cluster: Cluster)

  datatype Tagged = Tagged(who: Who, event: Event)

  function StepShared(s: Shared, t: Tagged): Shared {
    match t.who
    case A => var w := Step(World(s.a, s.cluster), t.event); Shared(w.ctl, s.b, w.cluster)
    case B => var w := Step(World(s.b, s.cluster), t.event); Shared(s.a, w.ctl, w.cluster)
  }

  function RunShared(s: Shared, ts: seq<Tagged>): Shared
    decreases ts
  {
    if ts == [] then s else RunShared(StepShared(s, ts[0]), ts[1..])
  }

  function EventsOf(who: Who, ts: seq<Tagged>): seq<Event> {
    if ts == [] then []
    else (if ts[0].who == who then [ts[0].event] else []) + EventsOf(who, ts[1..])
  }

  ghost function Within(cl: Cluster, names: iset<Key>): Cluster {
    map k | k in cl && k in names :: cl[k]
  }

  /** The two controllers use the same label keys with different instance values. */
  predicate DistinctInstances(p: Config, q: Config) {
    p.instanceLabelKey == q.instanceLabelKey && p.instanceLabelValue != q.instanceLabelValue
  }

  /** A manifest that stays within `names` and carries the instance label. */
  ghost predicate Confined(cfg: Config, d: Cluster, names: iset<Key>) {
    forall k :: k in d ==>
      && k in names
      && cfg.instanceLabelKey in d[k].labels && d[k].labels[cfg.instanceLabelKey] == cfg.instanceLabelValue
  }

  /** Nothing outside `names` is up for application or deletion. */
  ghost predicate PendingWithin(c: Controller, names: iset<Key>) {
    && Confined(c.cfg, c.desired, names)
    && (c.pc.Deleting? && c.pc.kinds != [] ==>
          forall n :: n in c.pc.doomed ==> Key(c.pc.kinds[0], n) in names)
  }

  /** What a controller owns lies within its names. */
  ghost predicate OwnedWithin(cfg: Config, cl: Cluster, names: iset<Key>) {
    forall k :: k in cl && Selected(cfg, cl[k].labels) ==> k in names
  }

  ghost predicate EventConfined(cfg: Config, e: Event, names: iset<Key>) {
    e.Begin? ==> Confined(cfg, e.desired, names)
  }

  lemma OwnedNamesWithin(cfg: Config, cl: Cluster, names: iset<Key>, kind: Kind)
    requires OwnedWithin(cfg, cl, names)
    ensures OwnedNames(cfg, cl, kind) == OwnedNames(cfg, Within(cl, names), kind)
    ensures forall n :: n in OwnedNames(cfg, cl, kind) ==> Key(kind, n) in names
  {
    var v := Within(cl, names);
    forall n | n in OwnedNames(cfg, cl, kind)
      ensures n in OwnedNames(cfg, v, kind) && Key(kind, n) in names
    {
      OwnedIsKey(cfg, cl, Key(kind, n));
      OwnedIsKey(cfg, v, Key(kind, n));
    }
    forall n | n in OwnedNames(cfg, v, kind) ensures n in OwnedNames(cfg, cl, kind) {
      OwnedIsKey(cfg, cl, Key(kind, n));
      OwnedIsKey(cfg, v, Key(kind, n));
    }
  }

  /** One controller's step seen from inside its own names: it is the step it would
      take if nothing else existed, and outside its names nothing moves. */
  lemma StepIsLocal(c: Controller, cl: Cluster, e: Event, names: iset<Key>)
    requires PendingWithin(c, names) && OwnedWithin(c.cfg, cl, names) && EventConfined(c.cfg, e, names)
    ensures var w := Step(World(c, cl), e);
      && Step(World(c, Within(cl, names)), e) == World(w.ctl, Within(w.cluster, names))
      && PendingWithin(w.ctl, names)
      && w.ctl.cfg == c.cfg
    ensures forall k :: k !in names ==>
      && (k in Step(World(c, cl), e).cluster <==> k in cl)
      && (k in cl ==> Step(World(c, cl), e).cluster[k] == cl[k])
  {
    match e {
      case Begin(_) =>
      case List(ok) =>
        if ok && c.pc.Listing? && c.pc.kinds != [] {
          OwnedNamesWithin(c.cfg, cl, names, c.pc.kinds[0]);
        }
      case Patch(k, _) =>
        PatchIsLocal(cl, names, k, if k in c.desired then c.desired[k] else Obj(map[], ListenerSetBody([])));
      case Delete(n, _) =>
        DeleteIsLocal(cl, names, Key(if c.pc.Deleting? && c.pc.kinds != [] then c.pc.kinds[0] else Service, n));
    }
  }

  lemma PatchIsLocal(cl: Cluster, names: iset<Key>, k: Key, o: Obj)
    ensures k in names ==>
      Within(cl, names)[k := Patched(Within(cl, names), k, o)] == Within(cl[k := Patched(cl, k, o)], names)
  {
    assert k in names ==>
      Within(cl, names)[k := Patched(Within(cl, names), k, o)].Keys == Within(cl[k := Patched(cl, k, o)], names).Keys;
  }

  lemma DeleteIsLocal(cl: Cluster, names: iset<Key>, gone: Key)
    ensures Within(cl, names) - {gone} == Within(cl - {gone}, names)
  {
    assert (Within(cl, names) - {gone}).Keys == Within(cl - {gone}, names).Keys;
  }

  /** A step never makes an object ownable by a controller with another instance label. */
  lemma StepKeepsOwnedWithin(c: Controller, cl: Cluster, e: Event, names: iset<Key>, other: Config,
                             otherNames: iset<Key>)
    requires PendingWithin(c, names) && EventConfined(c.cfg, e, names)
    requires OwnedWithin(c.cfg, cl, names) && OwnedWithin(other, cl, otherNames)
    requires DistinctInstances(c.cfg, other)
    ensures OwnedWithin(c.cfg, Step(World(c, cl), e).cluster, names)
    ensures OwnedWithin(other, Step(World(c, cl), e).cluster, otherNames)
  {}

  ghost predicate Coexisting(s: Shared, na: iset<Key>, nb: iset<Key>) {
    && (forall k :: !(k in na && k in nb))
    && DistinctInstances(s.a.cfg, s.b.cfg)
    && PendingWithin(s.a, na) && PendingWithin(s.b, nb)
    && OwnedWithin(s.a.cfg, s.cluster, na) && OwnedWithin(s.b.cfg, s.cluster, nb)
  }

  /** Objects that are nobody's are what they were. */
  ghost predicate SameOutside(cl: Cluster, cl': Cluster, na: iset<Key>, nb: iset<Key>) {
    forall k :: k !in na && k !in nb ==> (k in cl <==> k in cl') && (k in cl ==> cl'[k] == cl[k])
  }

  ghost predicate EventsConfined(s: Shared, ts: seq<Tagged>, na: iset<Key>, nb: iset<Key>) {
    forall i :: 0 <= i < |ts| ==>
      EventConfined(if ts[i].who == A then s.a.cfg else s.b.cfg, ts[i].event, if ts[i].who == A then na else nb)
  }

  lemma StepKeepsCoexisting(s: Shared, t: Tagged, na: iset<Key>, nb: iset<Key>)
    requires Coexisting(s, na, nb) && EventsConfined(s, [t], na, nb)
    ensures Coexisting(StepShared(s, t), na, nb)
    ensures StepShared(s, t).a.cfg == s.a.cfg && StepShared(s, t).b.cfg == s.b.cfg
    ensures SameOutside(s.cluster, StepShared(s, t).cluster, na, nb)
    ensures var s' := StepShared(s, t);
      match t.who
      case A =>
        && World(s'.a, Within(s'.cluster, na)) == Step(World(s.a, Within(s.cluster, na)), t.event)
        && World(s'.b, Within(s'.cluster, nb)) == World(s.b, Within(s.cluster, nb))
      case B =>
        && World(s'.b, Within(s'.cluster, nb)) == Step(World(s.b, Within(s.cluster, nb)), t.event)
        && World(s'.a, Within(s'.cluster, na)) == World(s.a, Within(s.cluster, na))
  {
    assert [t][0] == t;
    match t.who {
      case A =>
        StepIsLocal(s.a, s.cluster, t.event, na);
        StepKeepsOwnedWithin(s.a, s.cluster, t.event, na, s.b.cfg, nb);
        assert Within(StepShared(s, t).cluster, nb) == Within(s.cluster, nb);
      case B =>
        StepIsLocal(s.b, s.cluster, t.event, nb);
        StepKeepsOwnedWithin(s.b, s.cluster, t.event, nb, s.a.cfg, na);
        assert Within(StepShared(s, t).cluster, na) == Within(s.cluster, na);
    }
  }

  /** Main result: in every interleaving, faults, crashes and restarts included, each
      controller and its part of the cluster end exactly where that controller's own
      steps alone would have taken them. */
  lemma {:induction false} InterleavingIsProduct(s: Shared, ts: seq<Tagged>, na: iset<Key>, nb: iset<Key>)
    requires Coexisting(s, na, nb) && EventsConfined(s, ts, na, nb)
    ensures Coexisting(RunShared(s, ts), na, nb)
    ensures World(RunShared(s, ts).a, Within(RunShared(s, ts).cluster, na)) ==
            Run(World(s.a, Within(s.cluster, na)), EventsOf(A, ts))
    ensures World(RunShared(s, ts).b, Within(RunShared(s, ts).cluster, nb)) ==
            Run(World(s.b, Within(s.cluster, nb)), EventsOf(B, ts))
    ensures SameOutside(s.cluster, RunShared(s, ts).cluster, na, nb)
    decreases ts
  {
    if ts != [] {
      var s' := StepShared(s, ts[0]);
      assert EventsConfined(s, [ts[0]], na, nb);
      StepKeepsCoexisting(s, ts[0], na, nb);
      assert EventsConfined(s', ts[1..], na, nb) by {
        forall i | 0 <= i < |ts[1..]|
          ensures EventConfined(if ts[1..][i].who == A then s'.a.cfg else s'.b.cfg, ts[1..][i].event,
                                if ts[1..][i].who == A then na else nb)
        {
          assert ts[1..][i] == ts[i + 1];
        }
      }
      InterleavingIsProduct(s', ts[1..], na, nb);
      var wa, wb := World(s.a, Within(s.cluster, na)), World(s.b, Within(s.cluster, nb));
      match ts[0].who {
        case A => RunAppend(wa, [ts[0].event], EventsOf(A, ts[1..]));
                  assert Run(wa, [ts[0].event]) == Step(wa, ts[0].event);
                  assert EventsOf(B, ts) == EventsOf(B, ts[1..]);
        case B => RunAppend(wb, [ts[0].event], EventsOf(B, ts[1..]));
                  assert Run(wb, [ts[0].event]) == Step(wb, ts[0].event);
                  assert EventsOf(A, ts) == EventsOf(A, ts[1..]);
      }
    }
  }

  function CtlOf(s: Shared, who: Who): Controller {
    if who == A then s.a else s.b
  }

  /** Hence neither disturbs the other: when one of them runs a fault-free cycle to its
      end while the other does anything whatever, it owns exactly what it desires. */
  lemma FinishedBesideAnother(s: Shared, ts: seq<Tagged>, na: iset<Key>, nb: iset<Key>, who: Who, kind: Kind)
    requires Coexisting(s, na, nb) && EventsConfined(s, ts, na, nb)
    requires CtlOf(s, who) == Start(CtlOf(s, who).cfg, CtlOf(s, who).desired) && !CtlOf(s, who).cfg.readOnly
    requires forall k :: k in CtlOf(s, who).desired ==> Selected(CtlOf(s, who).cfg, CtlOf(s, who).desired[k].labels)
    requires FaultFree(EventsOf(who, ts)) && CtlOf(RunShared(s, ts), who).pc.Finished?
    requires kind in SweepOrder(CtlOf(s, who).cfg)
    ensures OwnedNames(CtlOf(s, who).cfg, RunShared(s, ts).cluster, kind) == NamesOf(CtlOf(s, who).desired, kind)
    ensures var names := if who == A then na else nb;
      Within(RunShared(s, ts).cluster, names) ==
      Reconciled(CtlOf(s, who).cfg, CtlOf(s, who).desired, Within(s.cluster, names))
  {
    var c, names := CtlOf(s, who), if who == A then na else nb;
    InterleavingIsProduct(s, ts, na, nb);
    var v := Within(s.cluster, names);
    CycleConverges(c.cfg, c.desired, v, EventsOf(who, ts));
    ReconciledIsExact(c.cfg, c.desired, v, kind);
    SharedKeepsConfigs(s, ts);
    OwnedNamesWithin(c.cfg, RunShared(s, ts).cluster, names, kind);
  }

  lemma {:induction false} SharedKeepsConfigs(s: Shared, ts: seq<Tagged>)
    ensures RunShared(s, ts).a.cfg == s.a.cfg && RunShared(s, ts).b.cfg == s.b.cfg
    decreases ts
  {
    if ts != [] {
      StepKeepsConfig(World(s.a, s.cluster), ts[0].event);
      StepKeepsConfig(World(s.b, s.cluster), ts[0].event);
      SharedKeepsConfigs(StepShared(s, ts[0]), ts[1..]);
    }
  }
}
