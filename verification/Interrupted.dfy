/** What a cycle that is cut short, or whose calls fail, can leave behind. */
module Interrupted {
  import opened Objects
  import opened ControllerSteps
  import opened Convergence

  predicate SameAt(cl: Cluster, cl': Cluster, k: Key) {
    (k in cl <==> k in cl') && (k in cl ==> cl'[k] == cl[k])
  }

  // ---- Runs of the apply phase -----------------------------------------------------------------

  /** A controller in its apply phase, about its own manifest. */
  predicate IsApplying(w: World) {
    w.ctl.pc.Applying? && w.ctl.pc.rest <= w.ctl.desired.Keys && !w.ctl.cfg.readOnly
  }

  lemma PatchLeavesOthers(w: World, k: Key, outcome: Outcome)
    requires IsApplying(w) && MayApply(w.ctl.pc.rest, k)
    ensures var w' := Step(w, Patch(k, outcome));
      && (forall o :: o != k ==> SameAt(w.cluster, w'.cluster, o))
      && (!outcome.Rejected? ==> k in w'.cluster && w'.cluster[k] == Patched(w.cluster, k, w.ctl.desired[k]))
      && w'.ctl.cfg == w.ctl.cfg && w'.ctl.desired == w.ctl.desired
      && w'.ctl.pc == if outcome.Succeeded? then AfterApply(w.ctl.cfg, w.ctl.pc.rest - {k}) else Failed
  {}

  /** Successful applies can bring any outstanding key's turn, leaving alone whatever is
      still outstanding then and whatever is not to be applied. */
  lemma {:induction false} ApplyUntil(w: World, k: Key) returns (es: seq<Event>)
    requires IsApplying(w) && k in w.ctl.pc.rest
    ensures OneCycle(es) && IsApplying(Run(w, es)) && MayApply(Run(w, es).ctl.pc.rest, k)
    ensures Run(w, es).ctl.cfg == w.ctl.cfg && Run(w, es).ctl.desired == w.ctl.desired
    ensures forall o :: o in Run(w, es).ctl.pc.rest || o !in w.ctl.pc.rest ==> SameAt(w.cluster, Run(w, es).cluster, o)
    ensures Run(w, es).ctl.pc.rest <= w.ctl.pc.rest
    decreases w.ctl.pc.rest
  {
    var rest := w.ctl.pc.rest;
    if MayApply(rest, k) {
      es := [];
    } else {
      var first := SomeKeyMayApply(rest);
      var e := Patch(first, Succeeded);
      PatchLeavesOthers(w, first, Succeeded);
      assert k in rest - {first};
      var tail := ApplyUntil(Step(w, e), k);
      es := [e] + tail;
    }
  }

  /** Successful applies can finish the phase. */
  lemma {:induction false} ApplyToEnd(w: World) returns (es: seq<Event>)
    requires IsApplying(w) && w.ctl.pc.rest != {}
    ensures OneCycle(es) && Run(w, es).ctl == w.ctl.(pc := NextSweep(SweepOrder(w.ctl.cfg)))
    ensures forall o :: o !in w.ctl.pc.rest ==> SameAt(w.cluster, Run(w, es).cluster, o)
    decreases w.ctl.pc.rest
  {
    var first := SomeKeyMayApply(w.ctl.pc.rest);
    var e := Patch(first, Succeeded);
    PatchLeavesOthers(w, first, Succeeded);
    var w' := Step(w, e);
    var tail: seq<Event> := [];
    if w.ctl.pc.rest - {first} != {} {
      tail := ApplyToEnd(w');
    }
    es := [e] + tail;
  }

  /** Up to the end of the apply phase each object is as before or as applied. */
  predicate TouchedOnce(d: Cluster, cl: Cluster, cl': Cluster, k: Key) {
    SameAt(cl, cl', k) || (k in d && k in cl' && cl'[k] == Patched(cl, k, d[k]))
  }

  lemma {:induction false} AbortedTouchesOnce(w: World, es: seq<Event>)
    requires OneCycle(es) && (w.ctl.pc.Applying? || w.ctl.pc.Failed?)
    requires Run(w, es).ctl.pc.Applying? || Run(w, es).ctl.pc.Failed?
    ensures forall k :: TouchedOnce(w.ctl.desired, w.cluster, Run(w, es).cluster, k)
    decreases es
  {
    if es != [] {
      var w' := Step(w, es[0]);
      StepKeepsConfig(w, es[0]);
      assert w'.ctl.pc.Applying? || w'.ctl.pc.Failed? by {
        if !(w'.ctl.pc.Applying? || w'.ctl.pc.Failed?) { NeverBackToApplying(w', es[1..]); }
      }
      AbortedTouchesOnce(w', es[1..]);
      var d, cl, cl1, cl2 := w.ctl.desired, w.cluster, w'.cluster, Run(w, es).cluster;
      forall k ensures TouchedOnce(d, cl, cl2, k) {
        assert TouchedOnce(d, cl1, cl2, k);
        if !SameAt(cl, cl1, k) { PatchTwice(cl, cl1, k, d[k]); }
      }
    }
  }

  /** Objects that are not wanted are untouched or swept, and only orphans are swept. */
  predicate Framed(cfg: Config, d: Cluster, cl0: Cluster, cl: Cluster) {
    && (forall k :: k in cl && k !in d ==> k in cl0 && cl[k] == cl0[k])
    && forall k :: k in cl0 && k !in cl ==> Orphan(cfg, d, cl0, k)
  }

  lemma {:induction false} RunFrames(w: World, es: seq<Event>, cl0: Cluster)
    requires OneCycle(es) && PendingSound(w) && Framed(w.ctl.cfg, w.ctl.desired, cl0, w.cluster)
    ensures Framed(w.ctl.cfg, w.ctl.desired, cl0, Run(w, es).cluster)
    decreases es
  {
    if es != [] {
      StepKeepsPendingSound(w, es[0]);
      StepKeepsConfig(w, es[0]);
      if es[0].Delete? { DeleteFrames(w, es[0].name, es[0].outcome, cl0); }
      RunFrames(Step(w, es[0]), es[1..], cl0);
    }
  }

  lemma DeleteFrames(w: World, n: string, outcome: Outcome, cl0: Cluster)
    requires PendingSound(w) && Framed(w.ctl.cfg, w.ctl.desired, cl0, w.cluster)
    ensures Framed(w.ctl.cfg, w.ctl.desired, cl0, Step(w, Delete(n, outcome)).cluster)
  {
    var c, cl := w.ctl, w.cluster;
    if c.pc.Deleting? && n in c.pc.doomed {
      assert c.pc.kinds[0] in c.pc.kinds;
      var gone := Key(c.pc.kinds[0], n);
      assert gone in cl ==> gone in cl0 && Orphan(c.cfg, c.desired, cl0, gone);
    }
  }

  // ---- A failed cycle after a good one -----------------------------------------------------------

  /** Would applying `d`'s object leave the cluster up to date with `last` at this key? */
  predicate PatchHarmless(cfg: Config, last: Cluster, d: Cluster, cl: Cluster, k: Key)
    requires k in d
  {
    var cl' := cl[k := Patched(cl, k, d[k])];
    (k in last ==> Settled(last, cl', k)) && !Orphan(cfg, last, cl', k)
  }

  predicate Harmless(cfg: Config, last: Cluster, d: Cluster, cl: Cluster) {
    forall k :: k in d ==> PatchHarmless(cfg, last, d, cl, k)
  }

  /** Every desired object is there, spec and labels. */
  predicate Covered(d: Cluster, cl: Cluster) {
    forall k :: k in d ==> Settled(d, cl, k)
  }

  predicate Tidy(cfg: Config, d: Cluster, cl: Cluster) {
    forall k :: k in cl ==> !Orphan(cfg, d, cl, k)
  }

  /** Being up to date is a matter of each key. */
  lemma UpToDateIsKeywise(cfg: Config, d: Cluster, cl: Cluster)
    requires !cfg.readOnly
    ensures Reconciled(cfg, d, cl) == cl <==> Covered(d, cl) && Tidy(cfg, d, cl)
  {
    var r := Reconciled(cfg, d, cl);
    if r == cl {
      forall k | k in d ensures Settled(d, cl, k) { assert k in r; }
      forall k | k in cl ensures !Orphan(cfg, d, cl, k) { assert k in r; }
    }
    if Covered(d, cl) && Tidy(cfg, d, cl) {
      forall k ensures k in r <==> k in cl { assert k in d ==> Settled(d, cl, k); }
      forall k | k in r ensures r[k] == cl[k] { assert k in d ==> Settled(d, cl, k); }
      assert r == cl;
    }
  }

  /** A failed cycle whose applies are harmless keeps what held before it. */
  lemma HarmlessFailureKeeps(cfg: Config, last: Cluster, d: Cluster, cl: Cluster, es: seq<Event>)
    requires OneCycle(es) && Run(World(Start(cfg, d), cl), es).ctl.pc.Failed? && Harmless(cfg, last, d, cl)
    ensures Covered(last, cl) ==> Covered(last, Run(World(Start(cfg, d), cl), es).cluster)
    ensures Tidy(cfg, last, cl) ==> Tidy(cfg, last, Run(World(Start(cfg, d), cl), es).cluster)
  {
    var w := World(Start(cfg, d), cl);
    var cl' := Run(w, es).cluster;
    StartedApplying(w, es);
    AbortedTouchesOnce(w, es);
    if Covered(last, cl) {
      forall k | k in last ensures Settled(last, cl', k) {
        assert TouchedOnce(d, cl, cl', k);
        if !SameAt(cl, cl', k) { assert PatchHarmless(cfg, last, d, cl, k); }
      }
    }
    if Tidy(cfg, last, cl) {
      forall k | k in cl' ensures !Orphan(cfg, last, cl', k) {
        assert TouchedOnce(d, cl, cl', k);
        if !SameAt(cl, cl', k) { assert PatchHarmless(cfg, last, d, cl, k); }
      }
    }
  }

  lemma StartedApplying(w: World, es: seq<Event>)
    requires OneCycle(es) && Run(w, es).ctl.pc.Failed?
    ensures w.ctl.pc.Applying? || w.ctl.pc.Failed?
  {
    if !w.ctl.pc.Applying? && !w.ctl.pc.Failed? { NeverBackToApplying(w, es); }
  }

  /** A failed cycle that has applied this key last. */
  lemma FailAt(cfg: Config, d: Cluster, cl: Cluster, k: Key) returns (es: seq<Event>)
    requires k in d && !cfg.readOnly
    ensures OneCycle(es) && Run(World(Start(cfg, d), cl), es).ctl.pc.Failed?
    ensures var cl' := Run(World(Start(cfg, d), cl), es).cluster; k in cl' && cl'[k] == Patched(cl, k, d[k])
  {
    var w := World(Start(cfg, d), cl);
    assert d.Keys != {};
    var before := ApplyUntil(w, k);
    var e := Patch(k, Unacknowledged);
    RunSnoc(w, before, e);
    PatchLeavesOthers(Run(w, before), k, Unacknowledged);
    assert SameAt(cl, Run(w, before).cluster, k);
    es := before + [e];
  }

  ghost predicate FailuresHarmless(cfg: Config, last: Cluster, d: Cluster, cl: Cluster) {
    forall es :: OneCycle(es) && Run(World(Start(cfg, d), cl), es).ctl.pc.Failed? ==>
      Reconciled(cfg, last, Run(World(Start(cfg, d), cl), es).cluster) == Run(World(Start(cfg, d), cl), es).cluster
  }

  /** Main result: in a cluster up to date with `last`, every failed cycle for `d`, however
      it fails, leaves it up to date with `last` if and only if no single apply of `d`
      would unsettle an object of `last` or make an orphan. */
  lemma FailuresHarmlessIff(cfg: Config, last: Cluster, d: Cluster, cl: Cluster)
    requires !cfg.readOnly && Reconciled(cfg, last, cl) == cl
    ensures FailuresHarmless(cfg, last, d, cl) <==> Harmless(cfg, last, d, cl)
  {
    UpToDateIsKeywise(cfg, last, cl);
    if Harmless(cfg, last, d, cl) {
      forall es | OneCycle(es) && Run(World(Start(cfg, d), cl), es).ctl.pc.Failed?
        ensures Reconciled(cfg, last, Run(World(Start(cfg, d), cl), es).cluster) ==
                Run(World(Start(cfg, d), cl), es).cluster
      {
        HarmlessFailureKeeps(cfg, last, d, cl, es);
        UpToDateIsKeywise(cfg, last, Run(World(Start(cfg, d), cl), es).cluster);
      }
    }
    if FailuresHarmless(cfg, last, d, cl) {
      forall k | k in d ensures PatchHarmless(cfg, last, d, cl, k) {
        var es := FailAt(cfg, d, cl, k);
        UpToDateIsKeywise(cfg, last, Run(World(Start(cfg, d), cl), es).cluster);
      }
    }
  }

  // ---- Failed sweeps -----------------------------------------------------------------------------------

  /** Sweeps fail only at these kinds: a list that fails or a delete that is rejected. */
  predicate SweepFaultAt(w: World, e: Event, bad: set<Kind>) {
    match e
    case List(ok) => w.ctl.pc.Listing? && w.ctl.pc.kinds != [] && !ok ==> w.ctl.pc.kinds[0] in bad
    case Delete(_, outcome) =>
      w.ctl.pc.Deleting? && w.ctl.pc.kinds != [] && outcome.Rejected? ==> w.ctl.pc.kinds[0] in bad
    case _ => true
  }

  predicate SweepFaultsAt(w: World, es: seq<Event>, bad: set<Kind>)
    decreases es
  {
    es == [] || (SweepFaultAt(w, es[0], bad) && SweepFaultsAt(Step(w, es[0]), es[1..], bad))
  }

  /** Kinds already swept, the bad ones excepted, are clean. */
  predicate CleanBefore(w: World, kinds: seq<Kind>, bad: set<Kind>) {
    var c := w.ctl;
    forall kind :: kind in SweepOrder(c.cfg) && kind !in kinds && kind !in bad ==>
      NoOrphans(c.cfg, c.desired, w.cluster, kind)
  }

  /** What a cycle has achieved at each point, when only some sweeps may fail. */
  predicate Achieved(w: World, bad: set<Kind>) {
    var c, cl := w.ctl, w.cluster;
    match c.pc
    case Applying(rest) => forall k :: k in c.desired && k !in rest ==> Settled(c.desired, cl, k)
    case Listing(kinds) => Covered(c.desired, cl) && CleanBefore(w, kinds, bad)
    case Deleting(kinds, doomed) =>
      && kinds != [] && Covered(c.desired, cl) && CleanBefore(w, kinds, bad)
      && (kinds[0] !in bad ==>
            forall k :: k in cl && k.kind == kinds[0] && Orphan(c.cfg, c.desired, cl, k) ==> k.name in doomed)
    case Finished => Covered(c.desired, cl) && CleanBefore(w, [], bad)
    case Failed => true
  }

  lemma CleanBeforeNext(w: World, kinds: seq<Kind>, bad: set<Kind>)
    requires kinds != [] && CleanBefore(w, kinds, bad)
    requires kinds[0] in bad || NoOrphans(w.ctl.cfg, w.ctl.desired, w.cluster, kinds[0])
    ensures CleanBefore(w, kinds[1..], bad)
  {
    forall kind | kind in SweepOrder(w.ctl.cfg) && kind !in kinds[1..] && kind !in bad
      ensures NoOrphans(w.ctl.cfg, w.ctl.desired, w.cluster, kind)
    {
      assert kinds == [kinds[0]] + kinds[1..];
      if kind != kinds[0] { assert kind !in kinds; }
    }
  }

  lemma PatchAchieves(w: World, k: Key, outcome: Outcome, bad: set<Kind>)
    requires PendingSound(w) && Achieved(w, bad) && !w.ctl.cfg.readOnly
    ensures Achieved(Step(w, Patch(k, outcome)), bad)
  {
    var c, cl := w.ctl, w.cluster;
    if c.pc.Applying? && MayApply(c.pc.rest, k) && k in c.desired && outcome.Succeeded? {
      forall other | other in c.desired && other !in c.pc.rest - {k}
        ensures Settled(c.desired, cl[k := Patched(cl, k, c.desired[k])], other)
      {
        PatchKeepsSettled(c.desired, cl, k, other);
      }
    }
  }

  lemma ListAchieves(w: World, ok: bool, bad: set<Kind>)
    requires PendingSound(w) && Achieved(w, bad) && SweepFaultAt(w, List(ok), bad)
    ensures Achieved(Step(w, List(ok)), bad)
  {
    var c, cl := w.ctl, w.cluster;
    if c.pc.Listing? && c.pc.kinds != [] {
      var kind := c.pc.kinds[0];
      if ok {
        var doomed := OwnedNames(c.cfg, cl, kind) - NamesOf(c.desired, kind);
        forall k | k in cl && k.kind == kind && Orphan(c.cfg, c.desired, cl, k) ensures k.name in doomed {
          OwnedIsKey(c.cfg, cl, k);
          NameIsKey(c.desired, k);
        }
        if doomed == {} { CleanBeforeNext(w, c.pc.kinds, bad); }
      } else {
        CleanBeforeNext(w, c.pc.kinds, bad);
      }
    }
  }

  lemma DeleteAchieves(w: World, name: string, outcome: Outcome, bad: set<Kind>)
    requires PendingSound(w) && Achieved(w, bad) && SweepFaultAt(w, Delete(name, outcome), bad) && !w.ctl.cfg.readOnly
    ensures Achieved(Step(w, Delete(name, outcome)), bad)
  {
    var c, cl := w.ctl, w.cluster;
    if c.pc.Deleting? && name in c.pc.doomed {
      var kinds := c.pc.kinds;
      var w' := Step(w, Delete(name, outcome));
      var cl', gone := w'.cluster, Key(kinds[0], name);
      assert forall k :: k in cl' ==> k in cl && cl'[k] == cl[k];
      assert Covered(c.desired, cl') by {
        forall k | k in c.desired ensures Settled(c.desired, cl', k) { assert Settled(c.desired, cl, k); }
      }
      assert CleanBefore(w', kinds, bad);
      if kinds[0] !in bad {
        forall k | k in cl' && k.kind == kinds[0] && Orphan(c.cfg, c.desired, cl', k)
          ensures k.name in c.pc.doomed - {name}
        {
          assert Orphan(c.cfg, c.desired, cl, k) && k != gone;
        }
      }
      if c.pc.doomed - {name} == {} { CleanBeforeNext(w', kinds, bad); }
    }
  }

  lemma {:induction false} RunAchieves(w: World, es: seq<Event>, bad: set<Kind>)
    requires PendingSound(w) && Achieved(w, bad) && OneCycle(es) && SweepFaultsAt(w, es, bad) && !w.ctl.cfg.readOnly
    ensures Achieved(Run(w, es), bad)
    decreases es
  {
    if es != [] {
      StepKeepsPendingSound(w, es[0]);
      StepKeepsConfig(w, es[0]);
      match es[0] {
        case Patch(k, outcome) => PatchAchieves(w, k, outcome, bad);
        case List(ok) => ListAchieves(w, ok, bad);
        case Delete(n, outcome) => DeleteAchieves(w, n, outcome, bad);
      }
      RunAchieves(Step(w, es[0]), es[1..], bad);
    }
  }

  /** Every fault is at some swept kind. */
  lemma {:induction false} AnyFaultsAllowed(w: World, es: seq<Event>, every: set<Kind>)
    requires PendingSound(w) && OneCycle(es) && every == set k | k in SweepOrder(w.ctl.cfg)
    ensures SweepFaultsAt(w, es, every)
    decreases es
  {
    if es != [] {
      StepKeepsPendingSound(w, es[0]);
      StepKeepsConfig(w, es[0]);
      AnyFaultsAllowed(Step(w, es[0]), es[1..], every);
    }
  }

  /** A run without faults has none in its sweeps. */
  lemma {:induction false} FaultFreeSweeps(w: World, es: seq<Event>, bad: set<Kind>)
    requires FaultFree(es)
    ensures OneCycle(es) && SweepFaultsAt(w, es, bad)
    decreases es
  {
    if es != [] {
      assert FaultFreeEvent(es[0]);
      assert forall i :: 0 <= i < |es[1..]| ==> es[1..][i] == es[i + 1];
      FaultFreeSweeps(Step(w, es[0]), es[1..], bad);
      assert forall i :: 1 <= i < |es| ==> es[i] == es[1..][i - 1];
    }
  }

  /** At any point of a cycle the applies are not over and each object is as before or as
      applied, or they are over and the whole manifest is there. */
  lemma ApplyingOrCovered(cfg: Config, d: Cluster, cl: Cluster, es: seq<Event>)
    requires !cfg.readOnly && OneCycle(es)
    ensures var w := Run(World(Start(cfg, d), cl), es);
      if w.ctl.pc.Applying? || w.ctl.pc.Failed? then forall k :: TouchedOnce(d, cl, w.cluster, k)
      else Covered(d, w.cluster)
  {
    var w := World(Start(cfg, d), cl);
    var every := set k | k in SweepOrder(cfg);
    StartIsSound(cfg, d, cl);
    RunKeepsGoal(w, es);
    if Run(w, es).ctl.pc.Applying? || Run(w, es).ctl.pc.Failed? {
      assert w.ctl.pc.Applying? || w.ctl.pc.Failed? by {
        if !w.ctl.pc.Applying? && !w.ctl.pc.Failed? { NeverBackToApplying(w, es); }
      }
      AbortedTouchesOnce(w, es);
    } else {
      AnyFaultsAllowed(w, es, every);
      RunAchieves(w, es, every);
    }
  }

  /** Main result: a cycle that finishes, whatever its sweeps did, has applied its whole
      manifest; orphans are left only of the kinds whose sweep failed; and they are all
      that separates the cluster from the goal. */
  lemma FinishedCycleLeaves(cfg: Config, d: Cluster, cl: Cluster, es: seq<Event>, bad: set<Kind>)
    requires !cfg.readOnly && OneCycle(es) && Run(World(Start(cfg, d), cl), es).ctl.pc.Finished?
    requires SweepFaultsAt(World(Start(cfg, d), cl), es, bad)
    ensures var cl' := Run(World(Start(cfg, d), cl), es).cluster;
      && Covered(d, cl')
      && (forall k :: k in cl' && Orphan(cfg, d, cl', k) ==> k.kind in bad)
      && Reconciled(cfg, d, cl) == map k | k in cl' && !Orphan(cfg, d, cl', k) :: cl'[k]
  {
    var w := World(Start(cfg, d), cl);
    StartIsSound(cfg, d, cl);
    RunKeepsGoal(w, es);
    RunAchieves(w, es, bad);
    var cl' := Run(w, es).cluster;
    forall k | k in cl' && Orphan(cfg, d, cl', k) ensures k.kind in bad {
      assert k.kind in bad || NoOrphans(cfg, d, cl', k.kind);
    }
    CoveredGoal(cfg, d, cl');
  }

  lemma CoveredGoal(cfg: Config, d: Cluster, cl: Cluster)
    requires !cfg.readOnly && Covered(d, cl)
    ensures Reconciled(cfg, d, cl) == map k | k in cl && !Orphan(cfg, d, cl, k) :: cl[k]
  {
    var r := Reconciled(cfg, d, cl);
    var m := map k | k in cl && !Orphan(cfg, d, cl, k) :: cl[k];
    forall k ensures k in r <==> k in m { assert k in d ==> Settled(d, cl, k); }
    forall k | k in r ensures r[k] == m[k] { assert k in d ==> Settled(d, cl, k); }
  }

  /** Main result: leftovers clear with the next cycle that works, whatever its manifest:
      it ends with the same objects and specs as if no sweep had failed. */
  lemma LeftoversClear(cfg: Config, d: Cluster, cl: Cluster, next: Cluster)
    requires !cfg.readOnly && Covered(d, cl)
    ensures var with_, without := Reconciled(cfg, next, cl), Reconciled(cfg, next, Reconciled(cfg, d, cl));
      && with_.Keys == without.Keys
      && (forall k :: k in with_ ==> with_[k].body == without[k].body)
      && (forall k :: k in with_ && !(k in next && Orphan(cfg, d, cl, k)) ==> with_[k] == without[k])
  {
    CoveredGoal(cfg, d, cl);
    var r := Reconciled(cfg, d, cl);
    assert forall k :: k in r <==> k in cl && !Orphan(cfg, d, cl, k);
    forall k ensures k in Reconciled(cfg, next, cl) <==> k in Reconciled(cfg, next, r) {}
  }
}
