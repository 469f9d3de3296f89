/** The port allocator in the program's own terms: routers, names and emitted routes. */
module Ports {
  import opened Prelude
  import opened Objects
  import opened Naming
  import opened Backend
  import opened Emit
  import opened L4
  import opened ListenerSets

  /** May the router have this port: eligible, and the port among its entry points and
      not reserved? */
  predicate Lists(cfg: Config, dia: Dialect, f: Family, backends: Index, r: Router, port: nat) {
    Eligible(dia, r, backends) && !Reserved(cfg, f, port) &&
    exists i :: 0 <= i < |r.entryPoints| && dia.entryPort(r.entryPoints[i]) == Some(port)
  }

  lemma ListsIffWanted(cfg: Config, dia: Dialect, f: Family, backends: Index, r: Router, port: nat)
    ensures Lists(cfg, dia, f, backends, r, port) <==> port in WantedBy(cfg, dia, f, backends, r)
  {
    WantedIsUnreserved(cfg, dia, f, r.entryPoints, port);
    if port in WantedBy(cfg, dia, f, backends, r) {
      var ep :| ep in r.entryPoints && dia.entryPort(ep) == Some(port);
      var i :| 0 <= i < |r.entryPoints| && r.entryPoints[i] == ep;
      assert dia.entryPort(r.entryPoints[i]) == Some(port);
    }
  }

  /** The ports each router ends up with. */
  function Owned(cfg: Config, dia: Dialect, f: Family, backends: Index, routers: seq<Entry<Router>>): (r: seq<seq<nat>>)
    ensures |r| == |routers|
  {
    Allocate(AllWanted(cfg, dia, f, backends, routers), {})
  }

  /** Main result: a router owns a port exactly when it may have it and every other router
      that may has a greater name. */
  lemma OwnerIsLeastName(cfg: Config, dia: Dialect, f: Family, backends: Index, routers: Table<Router>, i: nat,
                         port: nat)
    requires i < |routers|
    ensures port in Owned(cfg, dia, f, backends, routers)[i] <==>
      && Lists(cfg, dia, f, backends, routers[i].value, port)
      && forall j :: 0 <= j < |routers| && j != i && Lists(cfg, dia, f, backends, routers[j].value, port) ==>
           Less(routers[i].key, routers[j].key)
  {
    var wanted := AllWanted(cfg, dia, f, backends, routers);
    AllocateExact(wanted, {}, i, port);
    forall j | 0 <= j < |routers|
      ensures port in wanted[j] <==> Lists(cfg, dia, f, backends, routers[j].value, port)
      ensures j < i ==> !Less(routers[i].key, routers[j].key)
    {
      ListsIffWanted(cfg, dia, f, backends, routers[j].value, port);
      if j < i && Less(routers[i].key, routers[j].key) {
        LessTransitive(routers[i].key, routers[j].key, routers[i].key);
        LessIrreflexive(routers[i].key);
      }
    }
  }

  /** What the allocator gives out as a whole: every port some router may have, once. */
  lemma OwnedPortsAreListed(cfg: Config, dia: Dialect, f: Family, backends: Index, routers: seq<Entry<Router>>,
                            port: nat)
    ensures Distinct(Flatten(Owned(cfg, dia, f, backends, routers)))
    ensures port in Flatten(Owned(cfg, dia, f, backends, routers)) <==>
      exists i :: 0 <= i < |routers| && Lists(cfg, dia, f, backends, routers[i].value, port)
  {
    var wanted := AllWanted(cfg, dia, f, backends, routers);
    AllocationIsUnion(wanted, port);
    forall i | 0 <= i < |routers|
      ensures port in wanted[i] <==> Lists(cfg, dia, f, backends, routers[i].value, port)
    {
      ListsIffWanted(cfg, dia, f, backends, routers[i].value, port);
    }
  }

  /** Different routers own different ports. */
  lemma OwnersDiffer(cfg: Config, dia: Dialect, f: Family, backends: Index, routers: seq<Entry<Router>>, i: nat, j: nat,
                     port: nat)
    requires i < j < |routers|
    ensures port !in Owned(cfg, dia, f, backends, routers)[i] || port !in Owned(cfg, dia, f, backends, routers)[j]
  {
    var wanted := AllWanted(cfg, dia, f, backends, routers);
    AllocateExact(wanted, {}, i, port);
    AllocateExact(wanted, {}, j, port);
  }

  // ---- The routes that come out --------------------------------------------------------------------

  /** Ports an entry point can name. */
  predicate IsPort(p: nat) {
    0 < p < 0x1_0000
  }

  /** Entry points name ports, and listeners tell them apart. */
  ghost predicate DialectTells(dia: Dialect) {
    && (forall ep :: dia.entryPort(ep).Some? ==> IsPort(dia.entryPort(ep).value))
    && forall p, q :: IsPort(p) && IsPort(q) && dia.listener(p) == dia.listener(q) ==> p == q
  }

  lemma ProgramDialectTells(h: NameHash, f: Family)
    requires f != Http
    ensures DialectTells(ProgramDialect(h, f))
  {
    var dia := ProgramDialect(h, f);
    forall p, q | IsPort(p) && IsPort(q) && dia.listener(p) == dia.listener(q) ensures p == q {
      L4NamesInjective(h, f, p, q);
    }
  }

  lemma {:induction false} SectionIsPort(dia: Dialect, ports: seq<nat>, s: string)
    ensures s in Sections(dia, ports) <==> exists i :: 0 <= i < |ports| && dia.listener(ports[i]) == s
  {
    if ports != [] {
      SectionIsPort(dia, ports[1..], s);
      if s in Sections(dia, ports[1..]) {
        var i :| 0 <= i < |ports[1..]| && dia.listener(ports[1..][i]) == s;
        assert ports[i + 1] == ports[1..][i];
      }
      if exists i :: 0 <= i < |ports| && dia.listener(ports[i]) == s {
        var i :| 0 <= i < |ports| && dia.listener(ports[i]) == s;
        if i > 0 { assert ports[1..][i - 1] == ports[i]; }
      }
      assert s in Sections(dia, ports) <==> s == dia.listener(ports[0]) || s in Sections(dia, ports[1..]);
    }
  }

  /** Is this the route of a router with these ports? */
  predicate IsRouteOf(cfg: Config, dia: Dialect, f: Family, backends: Index, r: Entry<Router>, mine: seq<nat>, k: Key,
                      d: Desired) {
    mine != [] && r.value.service in backends && k == RouteKey(dia, f, r.key)
    && k in d && d[k] == MakeRoute(cfg, dia, mine, backends[r.value.service])
  }

  /** Nothing of the kind before; then exactly the owners' routes. Where two owners share a
      route name the later one's stays. */
  lemma {:induction false} PutRoutesExact(cfg: Config, dia: Dialect, f: Family, backends: Index,
                                          routers: seq<Entry<Router>>, ports: seq<seq<nat>>, d: Desired)
    requires |routers| == |ports|
    requires forall i :: 0 <= i < |routers| && ports[i] != [] ==> routers[i].value.service in backends
    ensures var d' := PutRoutes(cfg, dia, f, backends, routers, ports, d);
      && (forall i :: 0 <= i < |routers| && ports[i] != [] ==> RouteKey(dia, f, routers[i].key) in d')
      && (forall k :: k in d' && !(k in d && d'[k] == d[k]) ==>
            exists i :: 0 <= i < |routers| && IsRouteOf(cfg, dia, f, backends, routers[i], ports[i], k, d'))
    decreases routers
  {
    if routers != [] {
      var d1 := AddRoute(cfg, dia, f, backends, routers[0], ports[0], d);
      PutRoutesExact(cfg, dia, f, backends, routers[1..], ports[1..], d1);
      var d' := PutRoutes(cfg, dia, f, backends, routers, ports, d);
      assert forall i :: 0 <= i < |routers| - 1 ==> routers[1..][i] == routers[i + 1] && ports[1..][i] == ports[i + 1];
      PutRoutesKeepsKeys(cfg, dia, f, backends, routers[1..], ports[1..], d1);
      forall k | k in d' && !(k in d && d'[k] == d[k])
        ensures exists i :: 0 <= i < |routers| && IsRouteOf(cfg, dia, f, backends, routers[i], ports[i], k, d')
      {
        if k in d1 && d'[k] == d1[k] {
          assert IsRouteOf(cfg, dia, f, backends, routers[0], ports[0], k, d');
        } else {
          var i :| 0 <= i < |routers[1..]| && IsRouteOf(cfg, dia, f, backends, routers[1..][i], ports[1..][i], k, d');
          assert IsRouteOf(cfg, dia, f, backends, routers[i + 1], ports[i + 1], k, d');
        }
      }
      forall i | 0 <= i < |routers| && ports[i] != [] ensures RouteKey(dia, f, routers[i].key) in d' {
        if i > 0 { assert RouteKey(dia, f, routers[1..][i - 1].key) in d'; }
      }
    }
  }

  lemma {:induction false} PutRoutesKeepsKeys(cfg: Config, dia: Dialect, f: Family, backends: Index,
                                              routers: seq<Entry<Router>>, ports: seq<seq<nat>>, d: Desired)
    requires |routers| == |ports|
    requires forall i :: 0 <= i < |routers| && ports[i] != [] ==> routers[i].value.service in backends
    ensures d.Keys <= PutRoutes(cfg, dia, f, backends, routers, ports, d).Keys
    decreases routers
  {
    if routers != [] {
      PutRoutesKeepsKeys(cfg, dia, f, backends, routers[1..], ports[1..],
                         AddRoute(cfg, dia, f, backends, routers[0], ports[0], d));
    }
  }

  /** Main result: the routes of the kind are exactly those of the routers that own a
      port, each with its owner's ports, and the listeners are those of all owned ports. */
  lemma RoutesAreOwners(cfg: Config, dia: Dialect, f: Family, backends: Index, routers: seq<Entry<Router>>, d: Desired)
    requires forall k :: k in d ==> k.kind != RouteKey(dia, f, "").kind
    ensures var r := RouteAll(cfg, dia, f, backends, routers, {}, d);
      var owned := Owned(cfg, dia, f, backends, routers);
      && r.listeners == Listeners(dia, f, Flatten(owned))
      && (forall i :: 0 <= i < |routers| && owned[i] != [] ==> RouteKey(dia, f, routers[i].key) in r.desired)
      && (forall k :: k in r.desired && k.kind == RouteKey(dia, f, "").kind ==>
            exists i :: 0 <= i < |routers| && IsRouteOf(cfg, dia, f, backends, routers[i], owned[i], k, r.desired))
  {
    RouteAllIsAllocation(cfg, dia, f, backends, routers, {}, d);
    PutRoutesExact(cfg, dia, f, backends, routers, Owned(cfg, dia, f, backends, routers), d);
  }

  /** Main result: the listener ports are precisely the ports some router may have, each on
      one listener. */
  lemma ListenerPortsExact(cfg: Config, dia: Dialect, f: Family, backends: Index, routers: seq<Entry<Router>>,
                           d: Desired, port: nat)
    ensures var ls := RouteAll(cfg, dia, f, backends, routers, {}, d).listeners;
      && (forall i, j :: 0 <= i < j < |ls| ==> ls[i].port != ls[j].port)
      && ((exists i :: 0 <= i < |ls| && ls[i].port == port) <==>
          exists i :: 0 <= i < |routers| && Lists(cfg, dia, f, backends, routers[i].value, port))
  {
    RouteAllIsAllocation(cfg, dia, f, backends, routers, {}, d);
    OwnedPortsAreListed(cfg, dia, f, backends, routers, port);
    var ports := Flatten(Owned(cfg, dia, f, backends, routers));
    var ls := Listeners(dia, f, ports);
    forall i | 0 <= i < |ls| ensures ls[i].port == ports[i] { ListenersAt(dia, f, ports, i); }
    if port in ports {
      var i :| 0 <= i < |ports| && ports[i] == port;
      assert ls[i].port == port;
    }
  }

  predicate DisjointSections(a: Body, b: Body) {
    a.L4RouteBody? && b.L4RouteBody? && forall s :: s in a.sections ==> s !in b.sections
  }

  lemma {:induction false} WantedArePorts(cfg: Config, dia: Dialect, f: Family, eps: seq<string>, port: nat)
    requires DialectTells(dia) && port in Wanted(cfg, dia, f, eps)
    ensures IsPort(port) && !Reserved(cfg, f, port)
  {
    WantedIsUnreserved(cfg, dia, f, eps, port);
    var ep :| ep in eps && dia.entryPort(ep) == Some(port);
    assert dia.entryPort(ep).Some?;
  }

  lemma OwnedArePorts(cfg: Config, dia: Dialect, f: Family, backends: Index, routers: seq<Entry<Router>>, i: nat,
                      port: nat)
    requires DialectTells(dia) && i < |routers| && port in Owned(cfg, dia, f, backends, routers)[i]
    ensures IsPort(port) && !Reserved(cfg, f, port)
  {
    AllocateExact(AllWanted(cfg, dia, f, backends, routers), {}, i, port);
    WantedArePorts(cfg, dia, f, routers[i].value.entryPoints, port);
  }

  lemma OwnersShareNoSection(cfg: Config, dia: Dialect, f: Family, backends: Index, routers: seq<Entry<Router>>,
                             i: nat, j: nat, s: string)
    requires DialectTells(dia) && i < |routers| && j < |routers| && i != j
    requires s in Sections(dia, Owned(cfg, dia, f, backends, routers)[i])
    ensures s !in Sections(dia, Owned(cfg, dia, f, backends, routers)[j])
  {
    var mine, theirs := Owned(cfg, dia, f, backends, routers)[i], Owned(cfg, dia, f, backends, routers)[j];
    SectionIsPort(dia, mine, s);
    SectionIsPort(dia, theirs, s);
    var a :| 0 <= a < |mine| && dia.listener(mine[a]) == s;
    OwnedArePorts(cfg, dia, f, backends, routers, i, mine[a]);
    forall b | 0 <= b < |theirs| ensures dia.listener(theirs[b]) != s {
      OwnedArePorts(cfg, dia, f, backends, routers, j, theirs[b]);
      OwnersDiffer(cfg, dia, f, backends, routers, if i < j then i else j, if i < j then j else i, mine[a]);
    }
  }

  /** Main result: different emitted routes have no section in common. */
  lemma RoutesShareNoSection(cfg: Config, dia: Dialect, f: Family, backends: Index, routers: seq<Entry<Router>>,
                             d: Desired, k: Key, l: Key)
    requires DialectTells(dia) && forall k :: k in d ==> k.kind != RouteKey(dia, f, "").kind
    requires var d' := RouteAll(cfg, dia, f, backends, routers, {}, d).desired;
      k in d' && l in d' && k != l && k.kind == l.kind == RouteKey(dia, f, "").kind
    ensures var d' := RouteAll(cfg, dia, f, backends, routers, {}, d).desired;
      DisjointSections(d'[k].body, d'[l].body)
  {
    RoutesAreOwners(cfg, dia, f, backends, routers, d);
    var d', owned := RouteAll(cfg, dia, f, backends, routers, {}, d).desired, Owned(cfg, dia, f, backends, routers);
    var i :| 0 <= i < |routers| && IsRouteOf(cfg, dia, f, backends, routers[i], owned[i], k, d');
    var j :| 0 <= j < |routers| && IsRouteOf(cfg, dia, f, backends, routers[j], owned[j], l, d');
    assert i != j;
    forall s | s in d'[k].body.sections ensures s !in d'[l].body.sections {
      OwnersShareNoSection(cfg, dia, f, backends, routers, i, j, s);
    }
  }

  /** No raw listener conflicts with another, and no TCP one takes a reserved port. */
  lemma OwnedListenersConflictFree(cfg: Config, dia: Dialect, f: Family, backends: Index, routers: seq<Entry<Router>>,
                                   d: Desired)
    requires DialectTells(dia)
    ensures var ls := RouteAll(cfg, dia, f, backends, routers, {}, d).listeners;
      && ConflictFree(ls) && Speaks(ls, {Protocol(f)})
      && forall i :: 0 <= i < |ls| ==> ls[i].port >= 0 && !Reserved(cfg, f, ls[i].port)
  {
    RouteAllIsAllocation(cfg, dia, f, backends, routers, {}, d);
    var ports := Flatten(Owned(cfg, dia, f, backends, routers));
    var ls := Listeners(dia, f, ports);
    AllocationAvoidsTaken(AllWanted(cfg, dia, f, backends, routers), {});
    L4ConflictFree(dia, f, ports);
    forall i | 0 <= i < |ls| ensures ls[i].port >= 0 && !Reserved(cfg, f, ls[i].port) {
      ListenersAt(dia, f, ports, i);
      assert ports[i] in ports;
      InFlatten(Owned(cfg, dia, f, backends, routers), ports[i]);
      var o :| 0 <= o < |routers| && ports[i] in Owned(cfg, dia, f, backends, routers)[o];
      OwnedArePorts(cfg, dia, f, backends, routers, o, ports[i]);
    }
  }
}
