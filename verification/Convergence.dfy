/** Mark and sweep convergence of the reconcile cycle. */
module Convergence {
  import opened Objects
  import opened ControllerSteps

  /** What one undisturbed cycle deletes: owned, of a swept kind, no longer wanted. */
  predicate Orphan(cfg: Config, d: Cluster, cl: Cluster, k: Key) {
    k in cl && k !in d && k.kind in SweepOrder(cfg) && Selected(cfg, cl[k].labels)
  }

  /** The cluster one undisturbed cycle is meant to leave behind, said outright. */
  function Reconciled(cfg: Config, d: Cluster, cl: Cluster): Cluster {
    if cfg.readOnly then cl
    else
      map k | k in cl.Keys + d.Keys && !Orphan(cfg, d, cl, k) ::
        if k in d then Patched(cl, k, d[k]) else cl[k]
  }

  /** A second cycle changes nothing. */
  lemma ReconciledIsFixpoint(cfg: Config, d: Cluster, cl: Cluster)
    ensures Reconciled(cfg, d, Reconciled(cfg, d, cl)) == Reconciled(cfg, d, cl)
  {
    if !cfg.readOnly {
      var r := Reconciled(cfg, d, cl);
      var rr := Reconciled(cfg, d, r);
      forall k | k in r ensures k in rr && rr[k] == r[k] {
        if k in d {
          PatchTwice(cl, r, k, d[k]);
        }
      }
      assert rr.Keys == r.Keys;
    }
  }

  lemma PatchTwice(cl: Cluster, r: Cluster, k: Key, o: Obj)
    requires k in r && r[k] == Patched(cl, k, o)
    ensures Patched(r, k, o) == r[k]
  {
    assert r[k].labels + o.labels == r[k].labels;
  }

  /** Within a kind, names and keys are the same thing. */
  lemma NameIsKey(cl: Cluster, k: Key)
    ensures k.name in NamesOf(cl, k.kind) <==> k in cl
  {
    if k.name in NamesOf(cl, k.kind) {
      var k' :| k' in cl && k'.kind == k.kind && k'.name == k.name;
      assert k' == k;
    }
  }

  lemma OwnedIsKey(cfg: Config, cl: Cluster, k: Key)
    ensures k.name in OwnedNames(cfg, cl, k.kind) <==> k in cl && Selected(cfg, cl[k].labels)
  {
    if k.name in OwnedNames(cfg, cl, k.kind) {
      var k' :| k' in cl && k'.kind == k.kind && Selected(cfg, cl[k'].labels) && k'.name == k.name;
      assert k' == k;
    }
  }

  /** Pending work is about this cycle's manifest. */
  predicate PendingSound(w: World) {
    var c, cl := w.ctl, w.cluster;
    match c.pc
    case Applying(rest) => rest <= c.desired.Keys
    case Listing(kinds) => forall kind :: kind in kinds ==> kind in SweepOrder(c.cfg)
    case Deleting(kinds, doomed) =>
      && kinds != []
      && (forall kind :: kind in kinds ==> kind in SweepOrder(c.cfg))
      && forall n :: n in doomed ==>
           && Key(kinds[0], n) !in c.desired
           && (Key(kinds[0], n) in cl ==> Selected(c.cfg, cl[Key(kinds[0], n)].labels))
    case _ => true
  }

  lemma StepKeepsPendingSound(w: World, e: Event)
    requires PendingSound(w)
    ensures PendingSound(Step(w, e))
  {
    var w' := Step(w, e);
    if e.List? && e.ok && w.ctl.pc.Listing? && w.ctl.pc.kinds != [] {
      var kind := w.ctl.pc.kinds[0];
      assert kind in w.ctl.pc.kinds;
      forall n | n in OwnedNames(w.ctl.cfg, w.cluster, kind) - NamesOf(w.ctl.desired, kind)
        ensures Key(kind, n) !in w.ctl.desired
        ensures Key(kind, n) in w.cluster && Selected(w.ctl.cfg, w.cluster[Key(kind, n)].labels)
      {
        var k :| k in w.cluster && k.kind == kind && Selected(w.ctl.cfg, w.cluster[k].labels) && k.name == n;
        assert k == Key(kind, n);
        assert k in w.ctl.desired ==> k.name in NamesOf(w.ctl.desired, kind);
      }
    }
  }

  lemma PatchKeepsGoal(cfg: Config, d: Cluster, cl: Cluster, k: Key)
    requires k in d
    ensures Reconciled(cfg, d, cl[k := Patched(cl, k, d[k])]) == Reconciled(cfg, d, cl) || cfg.readOnly
  {
    var cl' := cl[k := Patched(cl, k, d[k])];
    var r, r' := Reconciled(cfg, d, cl), Reconciled(cfg, d, cl');
    PatchTwice(cl, cl', k, d[k]);
    assert cfg.readOnly || r.Keys == r'.Keys;
  }

  lemma DeleteKeepsGoal(cfg: Config, d: Cluster, cl: Cluster, gone: Key)
    requires gone in cl ==> Orphan(cfg, d, cl, gone)
    requires gone !in d
    ensures Reconciled(cfg, d, cl - {gone}) == Reconciled(cfg, d, cl) || cfg.readOnly
  {
    var r, r' := Reconciled(cfg, d, cl), Reconciled(cfg, d, cl - {gone});
    assert cfg.readOnly || r.Keys == r'.Keys;
  }

  /** Every step of a cycle, faulty or not, leaves the goal of the cycle where it was. */
  lemma StepKeepsGoal(w: World, e: Event)
    requires PendingSound(w) && !e.Begin?
    ensures Reconciled(w.ctl.cfg, w.ctl.desired, Step(w, e).cluster) ==
            Reconciled(w.ctl.cfg, w.ctl.desired, w.cluster)
  {
    var cfg, d, cl := w.ctl.cfg, w.ctl.desired, w.cluster;
    if Step(w, e).cluster != cl && !cfg.readOnly {
      if e.Patch? {
        PatchKeepsGoal(cfg, d, cl, e.key);
      } else {
        assert w.ctl.pc.kinds[0] in w.ctl.pc.kinds;
        DeleteKeepsGoal(cfg, d, cl, Key(w.ctl.pc.kinds[0], e.name));
      }
    }
  }

  /** Crash transparency: whatever prefix of a cycle ran, and however its calls
      failed, the cycle's goal is still the goal seen from the first state. */
  lemma {:induction false} RunKeepsGoal(w: World, es: seq<Event>)
    requires PendingSound(w) && OneCycle(es)
    ensures PendingSound(Run(w, es))
    ensures Run(w, es).ctl.cfg == w.ctl.cfg && Run(w, es).ctl.desired == w.ctl.desired
    ensures Reconciled(w.ctl.cfg, w.ctl.desired, Run(w, es).cluster) ==
            Reconciled(w.ctl.cfg, w.ctl.desired, w.cluster)
    decreases es
  {
    if es != [] {
      StepKeepsPendingSound(w, es[0]);
      StepKeepsGoal(w, es[0]);
      StepKeepsConfig(w, es[0]);
      RunKeepsGoal(Step(w, es[0]), es[1..]);
    }
  }

  /** Applying this object again would change nothing. */
  predicate Settled(d: Cluster, cl: Cluster, k: Key)
    requires k in d
  {
    k in cl && cl[k] == Patched(cl, k, d[k])
  }

  predicate NoOrphans(cfg: Config, d: Cluster, cl: Cluster, kind: Kind) {
    forall k :: k in cl && k.kind == kind ==> !Orphan(cfg, d, cl, k)
  }

  /** The kinds still to be swept are a suffix of the sweep order; the rest is clean. */
  predicate SweptBefore(w: World, kinds: seq<Kind>) {
    var c := w.ctl;
    forall kind :: kind in SweepOrder(c.cfg) && kind !in kinds ==> NoOrphans(c.cfg, c.desired, w.cluster, kind)
  }

  /** What a fault-free cycle has achieved at each point. */
  predicate Progress(w: World) {
    var c, cl := w.ctl, w.cluster;
    match c.pc
    case Applying(rest) => forall k :: k in c.desired && k !in rest ==> Settled(c.desired, cl, k)
    case Listing(kinds) =>
      && (forall k :: k in c.desired ==> Settled(c.desired, cl, k))
      && SweptBefore(w, kinds)
    case Deleting(kinds, doomed) =>
      && kinds != []
      && (forall k :: k in c.desired ==> Settled(c.desired, cl, k))
      && SweptBefore(w, kinds)
      && (forall k :: k in cl && k.kind == kinds[0] && Orphan(c.cfg, c.desired, cl, k) ==> k.name in doomed)
    case Finished =>
      && (forall k :: k in c.desired ==> Settled(c.desired, cl, k))
      && SweptBefore(w, [])
    case Failed => false
  }

  lemma PatchKeepsSettled(d: Cluster, cl: Cluster, k: Key, other: Key)
    requires k in d && other in d
    requires other == k || Settled(d, cl, other)
    ensures Settled(d, cl[k := Patched(cl, k, d[k])], other)
  {
    var cl' := cl[k := Patched(cl, k, d[k])];
    if other == k {
      PatchTwice(cl, cl', k, d[k]);
    }
  }

  lemma PatchProgress(w: World, k: Key)
    requires PendingSound(w) && Progress(w) && !w.ctl.cfg.readOnly
    ensures Progress(Step(w, Patch(k, Succeeded)))
  {
    var c, cl := w.ctl, w.cluster;
    if c.pc.Applying? && MayApply(c.pc.rest, k) && k in c.desired {
      forall other | other in c.desired && other !in c.pc.rest - {k}
        ensures Settled(c.desired, cl[k := Patched(cl, k, c.desired[k])], other)
      {
        PatchKeepsSettled(c.desired, cl, k, other);
      }
    }
  }

  lemma DoneWithKind(w: World, kinds: seq<Kind>)
    requires kinds != [] && SweptBefore(w, kinds)
    requires NoOrphans(w.ctl.cfg, w.ctl.desired, w.cluster, kinds[0])
    ensures SweptBefore(w, kinds[1..])
  {
    forall kind | kind in SweepOrder(w.ctl.cfg) && kind !in kinds[1..]
      ensures NoOrphans(w.ctl.cfg, w.ctl.desired, w.cluster, kind)
    {
      if kind in kinds {
        assert kinds == [kinds[0]] + kinds[1..];
        assert kind == kinds[0];
      }
    }
  }

  lemma ListProgress(w: World)
    requires PendingSound(w) && Progress(w)
    ensures Progress(Step(w, List(true)))
  {
    var c, cl := w.ctl, w.cluster;
    if c.pc.Listing? && c.pc.kinds != [] {
      var kind := c.pc.kinds[0];
      var doomed := OwnedNames(c.cfg, cl, kind) - NamesOf(c.desired, kind);
      forall k | k in cl && k.kind == kind && Orphan(c.cfg, c.desired, cl, k)
        ensures k.name in doomed
      {
        assert k.name in OwnedNames(c.cfg, cl, kind);
        NameIsKey(c.desired, k);
      }
      if doomed == {} {
        DoneWithKind(w, c.pc.kinds);
      }
    }
  }

  lemma DeleteProgress(w: World, name: string)
    requires PendingSound(w) && Progress(w) && !w.ctl.cfg.readOnly
    ensures Progress(Step(w, Delete(name, Succeeded)))
  {
    var c, cl := w.ctl, w.cluster;
    if c.pc.Deleting? && name in c.pc.doomed {
      var w' := Step(w, Delete(name, Succeeded));
      var gone := Key(c.pc.kinds[0], name);
      var cl' := cl - {gone};
      assert forall k :: k in c.desired ==> Settled(c.desired, cl', k);
      assert SweptBefore(w', c.pc.kinds);
      if c.pc.doomed - {name} == {} {
        forall k | k in cl' && k.kind == c.pc.kinds[0] ensures !Orphan(c.cfg, c.desired, cl', k) {
          assert c.pc.doomed == (c.pc.doomed - {name}) + {name};
          assert k.name == name ==> k == gone;
        }
        DoneWithKind(w', c.pc.kinds);
      }
    }
  }

  lemma {:induction false} RunProgress(w: World, es: seq<Event>)
    requires PendingSound(w) && Progress(w) && FaultFree(es) && !w.ctl.cfg.readOnly
    ensures Progress(Run(w, es))
    decreases es
  {
    if es != [] {
      StepKeepsPendingSound(w, es[0]);
      match es[0] {
        case Patch(k, _) => PatchProgress(w, k);
        case List(_) => ListProgress(w);
        case Delete(n, _) => DeleteProgress(w, n);
      }
      StepKeepsConfig(w, es[0]);
      RunProgress(Step(w, es[0]), es[1..]);
    }
  }

  lemma StartIsSound(cfg: Config, d: Cluster, cl: Cluster)
    ensures PendingSound(World(Start(cfg, d), cl)) && Progress(World(Start(cfg, d), cl))
  {}

  /** With all applied and nothing orphaned, the cluster is its own goal. */
  lemma FinishedIsReconciled(w: World)
    requires Progress(w) && w.ctl.pc.Finished?
    ensures Reconciled(w.ctl.cfg, w.ctl.desired, w.cluster) == w.cluster
  {
    var r := Reconciled(w.ctl.cfg, w.ctl.desired, w.cluster);
    forall k ensures k in r <==> k in w.cluster {
      if k in w.cluster && Orphan(w.ctl.cfg, w.ctl.desired, w.cluster, k) {
        assert NoOrphans(w.ctl.cfg, w.ctl.desired, w.cluster, k.kind);
      }
    }
    assert r.Keys == w.cluster.Keys;
    assert forall k :: k in r ==> r[k] == w.cluster[k];
  }

  lemma {:induction false} ReadOnlyRunWritesNothing(w: World, es: seq<Event>)
    requires w.ctl.cfg.readOnly
    ensures Run(w, es).cluster == w.cluster
    decreases es
  {
    if es != [] {
      StepKeepsConfig(w, es[0]);
      ReadOnlyRunWritesNothing(Step(w, es[0]), es[1..]);
    }
  }

  /** Main result: from every cluster, however it came about, a fault-free cycle
      that runs to its end leaves exactly the closed form `Reconciled`. */
  lemma CycleConverges(cfg: Config, d: Cluster, cl: Cluster, es: seq<Event>)
    requires FaultFree(es) && Run(World(Start(cfg, d), cl), es).ctl.pc.Finished?
    ensures Run(World(Start(cfg, d), cl), es).cluster == Reconciled(cfg, d, cl)
  {
    var w := World(Start(cfg, d), cl);
    StartIsSound(cfg, d, cl);
    if cfg.readOnly {
      ReadOnlyRunWritesNothing(w, es);
    } else {
      assert OneCycle(es) by { forall i | 0 <= i < |es| ensures !es[i].Begin? { assert FaultFreeEvent(es[i]); } }
      RunKeepsGoal(w, es);
      RunProgress(w, es);
      FinishedIsReconciled(Run(w, es));
    }
  }

  /** Crashes leave no trace: after any number of crashed or failed attempts at the
      manifest, the finishing cycle ends where an undisturbed first one would have. */
  lemma {:induction false} RetriesConverge(cfg: Config, d: Cluster, cl: Cluster,
                                           attempts: seq<seq<Event>>, es: seq<Event>)
    requires forall i :: 0 <= i < |attempts| ==> OneCycle(attempts[i])
    requires FaultFree(es) && Run(World(Start(cfg, d), AfterAttempts(cfg, d, cl, attempts)), es).ctl.pc.Finished?
    ensures Run(World(Start(cfg, d), AfterAttempts(cfg, d, cl, attempts)), es).cluster == Reconciled(cfg, d, cl)
    decreases attempts
  {
    if attempts == [] {
      CycleConverges(cfg, d, cl, es);
    } else {
      StartIsSound(cfg, d, cl);
      RunKeepsGoal(World(Start(cfg, d), cl), attempts[0]);
      RetriesConverge(cfg, d, Run(World(Start(cfg, d), cl), attempts[0]).cluster, attempts[1..], es);
    }
  }

  /** The cluster after a series of attempts, each cut off wherever it stopped. */
  function AfterAttempts(cfg: Config, d: Cluster, cl: Cluster, attempts: seq<seq<Event>>): Cluster
    decreases attempts
  {
    if attempts == [] then cl
    else AfterAttempts(cfg, d, Run(World(Start(cfg, d), cl), attempts[0]).cluster, attempts[1..])
  }

  /** The list of kinds a controller still has to sweep. */
  function KindsLeft(pc: Pc, cfg: Config): nat {
    match pc
    case Applying(_) => |SweepOrder(cfg)| + 1
    case Listing(kinds) => |kinds|
    case Deleting(kinds, _) => |kinds|
    case _ => 0
  }

  function WorkLeft(pc: Pc): nat {
    match pc
    case Applying(rest) => |rest|
    case Deleting(_, doomed) => |doomed|
    case _ => 0
  }

  /** Pending work is never an empty shell. */
  predicate Busy(w: World) {
    match w.ctl.pc
    case Applying(rest) => rest != {} && rest <= w.ctl.desired.Keys
    case Listing(kinds) => kinds != []
    case Deleting(kinds, doomed) => kinds != [] && doomed != {}
    case Finished => true
    case Failed => false
  }

  lemma {:induction false} SomeKeyMayApply(rest: set<Key>) returns (k: Key)
    requires rest != {}
    ensures MayApply(rest, k)
  {
    k :| k in rest;
    if rest != {k} {
      var other := SomeKeyMayApply(rest - {k});
      assert forall o :: o in rest ==> o == k || o in rest - {k};
      if Rank(other.kind) <= Rank(k.kind) { k := other; }
    }
  }

  /** Is the second controller closer to its end than the first? */
  predicate Closer(w: World, w': World) {
    || KindsLeft(w'.ctl.pc, w'.ctl.cfg) < KindsLeft(w.ctl.pc, w.ctl.cfg)
    || (KindsLeft(w'.ctl.pc, w'.ctl.cfg) == KindsLeft(w.ctl.pc, w.ctl.cfg)
        && ((w.ctl.pc.Listing? && !w'.ctl.pc.Listing?)
            || (w.ctl.pc.Listing? == w'.ctl.pc.Listing? && WorkLeft(w'.ctl.pc) < WorkLeft(w.ctl.pc))))
  }

  lemma ApplyComesCloser(w: World) returns (e: Event)
    requires Busy(w) && w.ctl.pc.Applying?
    ensures FaultFreeEvent(e) && Busy(Step(w, e)) && Closer(w, Step(w, e))
  {
    var k := SomeKeyMayApply(w.ctl.pc.rest);
    e := Patch(k, Succeeded);
  }

  lemma ListComesCloser(w: World)
    requires Busy(w) && w.ctl.pc.Listing?
    ensures Busy(Step(w, List(true))) && Closer(w, Step(w, List(true)))
  {}

  lemma DeleteComesCloser(w: World) returns (e: Event)
    requires Busy(w) && w.ctl.pc.Deleting?
    ensures FaultFreeEvent(e) && Busy(Step(w, e)) && Closer(w, Step(w, e))
  {
    var n :| n in w.ctl.pc.doomed;
    e := Delete(n, Succeeded);
  }

  /** Every cycle can run to its end without faults, so convergence is never vacuous. */
  lemma {:induction false} CycleCanFinish(w: World) returns (es: seq<Event>)
    requires Busy(w)
    ensures FaultFree(es) && Run(w, es).ctl.pc.Finished?
    decreases KindsLeft(w.ctl.pc, w.ctl.cfg), w.ctl.pc.Listing?, WorkLeft(w.ctl.pc)
  {
    if w.ctl.pc.Finished? {
      es := [];
    } else {
      var e := List(true);
      match w.ctl.pc {
        case Applying(_) => e := ApplyComesCloser(w);
        case Listing(_) => ListComesCloser(w);
        case Deleting(_, _) => e := DeleteComesCloser(w);
      }
      var tail := CycleCanFinish(Step(w, e));
      es := [e] + tail;
    }
  }

  /** What the goal state means: per swept kind the owned names are exactly the
      desired ones, every desired object carries its spec and labels, and an object
      that is neither desired nor owned is what it was. */
  lemma ReconciledIsExact(cfg: Config, d: Cluster, cl: Cluster, kind: Kind)
    requires !cfg.readOnly
    requires forall k :: k in d ==> Selected(cfg, d[k].labels)
    ensures kind in SweepOrder(cfg) ==> OwnedNames(cfg, Reconciled(cfg, d, cl), kind) == NamesOf(d, kind)
    ensures forall k :: k in d ==>
      && k in Reconciled(cfg, d, cl)
      && Reconciled(cfg, d, cl)[k].body == d[k].body
      && (forall l :: l in d[k].labels ==> l in Reconciled(cfg, d, cl)[k].labels
                                           && Reconciled(cfg, d, cl)[k].labels[l] == d[k].labels[l])
    ensures forall k :: k !in d && k in cl && !Selected(cfg, cl[k].labels) ==>
      k in Reconciled(cfg, d, cl) && Reconciled(cfg, d, cl)[k] == cl[k]
    ensures forall k :: k !in d && k !in cl ==> k !in Reconciled(cfg, d, cl)
  {
    if kind in SweepOrder(cfg) {
      OwnedAreDesired(cfg, d, cl, kind);
      var r := Reconciled(cfg, d, cl);
      forall n | n in NamesOf(d, kind) ensures n in OwnedNames(cfg, r, kind) {
        var k :| k in d && k.kind == kind && k.name == n;
        assert Selected(cfg, r[k].labels);
      }
    }
  }

  lemma OwnedAreDesired(cfg: Config, d: Cluster, cl: Cluster, kind: Kind)
    requires !cfg.readOnly && kind in SweepOrder(cfg)
    ensures OwnedNames(cfg, Reconciled(cfg, d, cl), kind) <= NamesOf(d, kind)
  {
    var r := Reconciled(cfg, d, cl);
    forall n | n in OwnedNames(cfg, r, kind) ensures n in NamesOf(d, kind) {
      var k :| k in r && k.kind == kind && Selected(cfg, r[k].labels) && k.name == n;
      assert !Orphan(cfg, d, cl, k);
      assert k in d;
    }
  }

  /** Owning exactly the desired set needs the desired labels to be selectable:
      for a swept kind the two coincide if and only if they are. */
  lemma OwnedExactIff(cfg: Config, d: Cluster, cl: Cluster, kind: Kind)
    requires !cfg.readOnly && kind in SweepOrder(cfg)
    requires forall k :: k in d ==> cfg.managedLabelKey in d[k].labels && cfg.instanceLabelKey in d[k].labels
    ensures OwnedNames(cfg, Reconciled(cfg, d, cl), kind) == NamesOf(d, kind) <==>
            forall k :: k in d && k.kind == kind ==> Selected(cfg, d[k].labels)
  {
    var r := Reconciled(cfg, d, cl);
    forall k | k in d ensures k in r && (Selected(cfg, r[k].labels) <==> Selected(cfg, d[k].labels)) {}
    OwnedAreDesired(cfg, d, cl, kind);
    if forall k :: k in d && k.kind == kind ==> Selected(cfg, d[k].labels) {
      forall n | n in NamesOf(d, kind) ensures n in OwnedNames(cfg, r, kind) {
        var k :| k in d && k.kind == kind && k.name == n;
        assert k in r;
      }
    } else {
      var k :| k in d && k.kind == kind && !Selected(cfg, d[k].labels);
      NameIsKey(d, k);
      OwnedIsKey(cfg, r, k);
    }
  }

  /** In every run, faults included, a cycle that has not finished applying has
      deleted nothing, and no cycle ever touches what it neither wants nor owns. */
  lemma {:induction false} FailedApplyDeletesNothing(w: World, es: seq<Event>)
    requires OneCycle(es) && PendingSound(w) && (w.ctl.pc.Applying? || w.ctl.pc.Failed?)
    requires Run(w, es).ctl.pc.Applying? || Run(w, es).ctl.pc.Failed?
    ensures w.cluster.Keys <= Run(w, es).cluster.Keys
    ensures forall k :: k in w.cluster && k !in w.ctl.desired ==> Run(w, es).cluster[k] == w.cluster[k]
    decreases es
  {
    if es != [] {
      var w' := Step(w, es[0]);
      StepKeepsPendingSound(w, es[0]);
      StepKeepsConfig(w, es[0]);
      if w'.ctl.pc.Applying? || w'.ctl.pc.Failed? {
        FailedApplyDeletesNothing(w', es[1..]);
      } else {
        NeverBackToApplying(w', es[1..]);
        assert false;
      }
    }
  }

  lemma {:induction false} NeverBackToApplying(w: World, es: seq<Event>)
    requires OneCycle(es) && !w.ctl.pc.Applying? && !w.ctl.pc.Failed?
    ensures !Run(w, es).ctl.pc.Applying? && !Run(w, es).ctl.pc.Failed?
    decreases es
  {
    if es != [] {
      NeverBackToApplying(Step(w, es[0]), es[1..]);
    }
  }

  lemma {:induction false} UnownedUntouched(w: World, es: seq<Event>, k: Key)
    requires OneCycle(es) && PendingSound(w) && k !in w.ctl.desired
    requires k in w.cluster ==> !Selected(w.ctl.cfg, w.cluster[k].labels)
    ensures k in Run(w, es).cluster <==> k in w.cluster
    ensures k in w.cluster ==> Run(w, es).cluster[k] == w.cluster[k]
    decreases es
  {
    if es != [] {
      StepKeepsPendingSound(w, es[0]);
      StepKeepsConfig(w, es[0]);
      UnownedUntouched(Step(w, es[0]), es[1..], k);
    }
  }
}
