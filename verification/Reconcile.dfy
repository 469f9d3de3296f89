/** The reconcile cycle as the program performs it: calls on a shared API server in
    nested loops. Each method is proved to be a run of the step machine. */
module Reconcile {
  import opened Prelude
  import opened Objects
  import opened ControllerSteps
  import opened Convergence

  /** The Kubernetes API as the controller sees it. Any call may fail. The log holds every
      call made so far with its outcome. */
  class ApiServer {
    var objects: Cluster
    ghost var log: seq<Event>

    constructor (initial: Cluster)
      ensures objects == initial && log == []
    {
      objects, log := initial, [];
    }

    method Patch(k: Key, o: Obj) returns (ok: bool, ghost outcome: Outcome)
      modifies this
      ensures ok == outcome.Succeeded?
      ensures objects == if outcome.Rejected? then old(objects) else old(objects)[k := Patched(old(objects), k, o)]
      ensures log == old(log) + [Event.Patch(k, outcome)]
    {
      var chosen: Outcome := *;
      if !chosen.Rejected? {
        objects := objects[k := Patched(objects, k, o)];
      }
      ok, outcome := chosen.Succeeded?, chosen;
      log := log + [Event.Patch(k, chosen)];
    }

    method ListOwned(cfg: Config, kind: Kind) returns (ok: bool, names: set<string>)
      modifies this`log
      ensures ok ==> names == OwnedNames(cfg, objects, kind)
      ensures log == old(log) + [List(ok)]
    {
      ok := *;
      log := log + [List(ok)];
      names := if ok then set k | k in objects && k.kind == kind && Selected(cfg, objects[k].labels) :: k.name else {};
    }

    method Delete(k: Key) returns (ok: bool, ghost outcome: Outcome)
      modifies this
      ensures ok == outcome.Succeeded?
      ensures objects == if outcome.Rejected? then old(objects) else old(objects) - {k}
      ensures log == old(log) + [Event.Delete(k.name, outcome)]
    {
      var chosen: Outcome := *;
      if !chosen.Rejected? {
        objects := objects - {k};
      }
      ok, outcome := chosen.Succeeded?, chosen;
      log := log + [Event.Delete(k.name, chosen)];
    }
  }

  /** The steps of a run that are calls: in read-only mode only the lists. */
  function Sent(cfg: Config, es: seq<Event>): seq<Event> {
    if es == [] then [] else SentOne(cfg, es[0]) + Sent(cfg, es[1..])
  }

  function SentOne(cfg: Config, e: Event): seq<Event> {
    if cfg.readOnly && !e.List? then [] else [e]
  }

  lemma {:induction false} SentAppend(cfg: Config, es: seq<Event>, fs: seq<Event>)
    ensures Sent(cfg, es + fs) == Sent(cfg, es) + Sent(cfg, fs)
  {
    if es == [] {
      assert es + fs == fs;
    } else {
      assert (es + fs)[0] == es[0] && (es + fs)[1..] == es[1..] + fs;
      SentAppend(cfg, es[1..], fs);
      Assoc(SentOne(cfg, es[0]), Sent(cfg, es[1..]), Sent(cfg, fs));
    }
  }

  lemma SentSnoc(cfg: Config, es: seq<Event>, e: Event)
    ensures Sent(cfg, es + [e]) == Sent(cfg, es) + SentOne(cfg, e)
  {
    SentAppend(cfg, es, [e]);
    assert [e][1..] == [];
    assert SentOne(cfg, e) + [] == SentOne(cfg, e);
  }

  /** In read-only mode nothing is written and the apply counts as done. */
  method SsaApply(api: ApiServer, cfg: Config, k: Key, o: Obj) returns (ok: bool, ghost outcome: Outcome)
    modifies api
    ensures cfg.readOnly ==> ok && api.objects == old(api.objects)
    ensures !cfg.readOnly ==> ok == outcome.Succeeded?
    ensures !cfg.readOnly ==>
      api.objects == if outcome.Rejected? then old(api.objects)
                     else old(api.objects)[k := Patched(old(api.objects), k, o)]
    ensures api.log == old(api.log) + SentOne(cfg, Event.Patch(k, outcome))
  {
    if cfg.readOnly {
      return true, Succeeded;
    }
    ok, outcome := api.Patch(k, o);
  }

  const APPLY_ORDER: seq<Kind> :=
    [Service, EndpointSlice, EnvoyBackend, BackendTLSPolicy, ListenerSet, HTTPRoute, TCPRoute, UDPRoute, SecurityPolicy]

  /** The manifest's keys still to be applied: `names` of the kind at position `i`, and all later kinds. */
  function StillToApply(d: Cluster, i: int, names: set<string>): set<Key> {
    set k | k in d && (Rank(k.kind) > i || (Rank(k.kind) == i && k.name in names))
  }

  lemma ApplyOneMore(d: Cluster, i: nat, names: set<string>, name: string)
    requires i < |APPLY_ORDER| && name in names && names <= NamesOf(d, APPLY_ORDER[i])
    ensures var k := Key(APPLY_ORDER[i], name);
      && k in d
      && MayApply(StillToApply(d, i, names), k)
      && StillToApply(d, i, names) - {k} == StillToApply(d, i, names - {name})
  {
    NameIsKey(d, Key(APPLY_ORDER[i], name));
    assert Rank(APPLY_ORDER[i]) == i;
    assert forall kind :: Rank(kind) == i ==> kind == APPLY_ORDER[i];
  }

  lemma NextKind(d: Cluster, i: nat)
    requires i < |APPLY_ORDER|
    ensures StillToApply(d, i, NamesOf(d, APPLY_ORDER[i])) == StillToApply(d, i - 1, {})
  {
    assert forall kind :: Rank(kind) == i ==> kind == APPLY_ORDER[i];
    forall k | k in d && Rank(k.kind) == i ensures k.name in NamesOf(d, APPLY_ORDER[i]) { NameIsKey(d, k); }
  }

  /** Delete every listed object that is not wanted; delete errors are ignored. */
  method Sweep(api: ApiServer, cfg: Config, kind: Kind, desiredNames: set<string>, ghost c: Controller,
               ghost kinds: seq<Kind>)
    returns (ok: bool, ghost es: seq<Event>)
    requires c.cfg == cfg && kinds != [] && kinds[0] == kind && c.pc == Listing(kinds)
    requires desiredNames == NamesOf(c.desired, kind)
    modifies api
    ensures OneCycle(es)
    ensures Run(World(c, old(api.objects)), es) == World(c.(pc := NextSweep(kinds[1..])), api.objects)
    ensures api.log == old(api.log) + Sent(cfg, es)
    ensures es != [] && es[0] == List(ok)
  {
    ghost var w := World(c, api.objects);
    var existing;
    ok, existing := api.ListOwned(cfg, kind);
    es := [List(ok)];
    RunSnoc(w, [], List(ok));
    SentSnoc(cfg, [], List(ok));
    assert [] + [List(ok)] == es;
    if !ok {
      return;
    }
    var orphans := existing - desiredNames;
    while orphans != {}
      invariant OneCycle(es) && es != [] && es[0] == List(ok)
      invariant Run(w, es) == World(c.(pc := AfterDelete(kinds, orphans)), api.objects)
      invariant api.log == old(api.log) + Sent(cfg, es)
      decreases orphans
    {
      var name :| name in orphans;
      ghost var outcome := Succeeded;
      if !cfg.readOnly {
        var _, o := api.Delete(Key(kind, name));
        outcome := o;
      }
      RunSnoc(w, es, Delete(name, outcome));
      SentSnoc(cfg, es, Delete(name, outcome));
      es := es + [Delete(name, outcome)];
      orphans := orphans - {name};
    }
  }

  /** The steps taken since `w` have left the objects not in `rest` applied, and are what was called. */
  ghost predicate AppliedSo(w: World, es: seq<Event>, rest: set<Key>, api: ApiServer, since: seq<Event>)
    reads api
  {
    var c := w.ctl;
    && OneCycle(es)
    && Run(w, es) == World(Controller(c.cfg, c.desired, AfterApply(c.cfg, rest)), api.objects)
    && api.log == since + Sent(c.cfg, es)
  }

  /** Apply the objects of one kind, stopping at the first error. */
  method ApplyKind(api: ApiServer, cfg: Config, desired: Cluster, i: nat, ghost w: World, ghost before: seq<Event>,
                   ghost since: seq<Event>)
    returns (ok: bool, ghost es: seq<Event>)
    requires i < |APPLY_ORDER| && w.ctl.cfg == cfg && w.ctl.desired == desired
    requires AppliedSo(w, before, StillToApply(desired, i - 1, {}), api, since)
    modifies api
    ensures ok ==> AppliedSo(w, es, StillToApply(desired, i, {}), api, since)
    ensures !ok ==> OneCycle(es) && !FaultFree(es) && api.log == since + Sent(cfg, es)
    ensures !ok ==> Run(w, es) == World(Controller(cfg, desired, Failed), api.objects)
  {
    es := before;
    var kind := APPLY_ORDER[i];
    var names := set k | k in desired && k.kind == kind :: k.name;
    assert names == NamesOf(desired, kind);
    NextKind(desired, i);
    while names != {}
      invariant names <= NamesOf(desired, kind)
      invariant AppliedSo(w, es, StillToApply(desired, i, names), api, since)
      decreases names
    {
      var name :| name in names;
      var k := Key(kind, name);
      ApplyOneMore(desired, i, names, name);
      var applied, o := SsaApply(api, cfg, k, desired[k]);
      RunSnoc(w, es, Event.Patch(k, o));
      SentSnoc(cfg, es, Event.Patch(k, o));
      es := es + [Event.Patch(k, o)];
      if !applied {
        assert !FaultFreeEvent(es[|es| - 1]);
        return false, es;
      }
      names := names - {name};
    }
    ok := true;
  }

  /** Apply every object of the manifest, kind by kind, stopping at the first error. */
  method ApplyAll(api: ApiServer, cfg: Config, desired: Cluster) returns (ok: bool, ghost es: seq<Event>)
    modifies api
    ensures OneCycle(es)
    ensures Run(World(Start(cfg, desired), old(api.objects)), es) ==
            World(Controller(cfg, desired, if ok then NextSweep(SweepOrder(cfg)) else Failed), api.objects)
    ensures !ok ==> !FaultFree(es)
    ensures api.log == old(api.log) + Sent(cfg, es)
  {
    ghost var w, since := World(Start(cfg, desired), api.objects), api.log;
    ok, es := true, [];
    assert StillToApply(desired, -1, {}) == desired.Keys;
    for i := 0 to |APPLY_ORDER|
      invariant AppliedSo(w, es, StillToApply(desired, i - 1, {}), api, since)
    {
      ok, es := ApplyKind(api, cfg, desired, i, w, es, since);
      if !ok {
        return;
      }
    }
    assert StillToApply(desired, |APPLY_ORDER| - 1, {}) == {};
    ok := true;
  }

  /** Sweep every kind in order; a failed sweep does not keep the others from running. */
  method SweepAll(api: ApiServer, cfg: Config, desired: Cluster) returns (ghost es: seq<Event>)
    modifies api
    ensures OneCycle(es)
    ensures Run(World(Controller(cfg, desired, NextSweep(SweepOrder(cfg))), old(api.objects)), es) ==
            World(Controller(cfg, desired, Finished), api.objects)
    ensures api.log == old(api.log) + Sent(cfg, es)
  {
    var order := SweepOrder(cfg);
    ghost var w := World(Controller(cfg, desired, NextSweep(order)), api.objects);
    es := [];
    assert order[0..] == order;
    for i := 0 to |order|
      invariant OneCycle(es) && api.log == old(api.log) + Sent(cfg, es)
      invariant Run(w, es) == World(Controller(cfg, desired, NextSweep(order[i..])), api.objects)
    {
      var names := set k | k in desired && k.kind == order[i] :: k.name;
      assert names == NamesOf(desired, order[i]);
      ghost var c := Controller(cfg, desired, Listing(order[i..]));
      var _, fs := Sweep(api, cfg, order[i], names, c, order[i..]);
      RunAppend(w, es, fs);
      SentAppend(cfg, es, fs);
      es := es + fs;
      assert order[i..][1..] == order[i + 1..];
    }
    assert order[|order|..] == [];
  }

  /** One cycle, the calls it made included, is a run of the step machine to its end. Without faults it leaves the
      goal state; when it reports an error it has deleted nothing. */
  method ReconcileOnce(api: ApiServer, cfg: Config, desired: Cluster) returns (ok: bool, ghost es: seq<Event>)
    modifies api
    ensures OneCycle(es)
    ensures Run(World(Start(cfg, desired), old(api.objects)), es) ==
            World(Controller(cfg, desired, if ok then Finished else Failed), api.objects)
    ensures FaultFree(es) ==> ok && api.objects == Reconciled(cfg, desired, old(api.objects))
    ensures !ok ==> old(api.objects).Keys <= api.objects.Keys
    ensures api.log == old(api.log) + Sent(cfg, es)
  {
    ghost var w := World(Start(cfg, desired), api.objects);
    ok, es := ApplyAll(api, cfg, desired);
    if !ok {
      AbortedKeepsAll(cfg, desired, w.cluster, es);
      return;
    }
    var fs := SweepAll(api, cfg, desired);
    RunAppend(w, es, fs);
    SentAppend(cfg, es, fs);
    es := es + fs;
    if FaultFree(es) {
      CycleConverges(cfg, desired, w.cluster, es);
    }
  }

  lemma AbortedKeepsAll(cfg: Config, d: Cluster, cl: Cluster, es: seq<Event>)
    requires OneCycle(es) && Run(World(Start(cfg, d), cl), es).ctl.pc.Failed?
    ensures cl.Keys <= Run(World(Start(cfg, d), cl), es).cluster.Keys
  {
    var w := World(Start(cfg, d), cl);
    StartIsSound(cfg, d, cl);
    if w.ctl.pc.Applying? {
      FailedApplyDeletesNothing(w, es);
    } else {
      NeverBackToApplying(w, es);
      assert false;
    }
  }
}
