/** Raw TCP and UDP resources from configuration to manifest: which ports get a listener,
    which router owns each, and what the routes say. */
module RawResources {
  import opened Prelude
  import opened Objects
  import opened Text
  import opened Naming
  import opened Backend
  import opened Emit
  import opened L4
  import opened Ports
  import opened ListenerSets
  import opened Build
  import opened Reach

  // ---- What the configuration asks for --------------------------------------------------------------

  /** A rule that matches everything: none, blank, or for TCP the wildcard SNI. */
  ghost predicate MatchesAll(rule: Option<string>, f: Family) {
    rule.Some? ==> exists front, core, back ::
      IsPadding(rule.value, front, core, back) && (core == "" || (f == Tcp && core == "HostSNI(`*`)"))
  }

  lemma RuleTakenIff(r: Router, f: Family)
    ensures RuleIsSupported(r, f) <==> !r.tls && MatchesAll(r.rule, f)
  {
    if r.rule.Some? {
      TrimIff(r.rule.value, "");
      TrimIff(r.rule.value, "HostSNI(`*`)");
      var front, back := TrimParts(r.rule.value);
      if MatchesAll(r.rule, f) {
        var a, core, b :|
          IsPadding(r.rule.value, a, core, b) && (core == "" || (f == Tcp && core == "HostSNI(`*`)"));
        TrimIff(r.rule.value, core);
        WildcardIsTrimmed();
      }
    }
  }

  lemma WildcardIsTrimmed()
    ensures IsTrimmed("HostSNI(`*`)")
  {}

  /** The entry point `tcp-<port>` or `udp-<port>`, leading zeros and one plus sign allowed. */
  ghost predicate NamesPort(ep: string, f: Family, port: nat) {
    IsPort(port) && exists t, n :: ep == (if f == Tcp then "tcp-" else "udp-") + t && IsPadded(t, port, n)
  }

  /** The ports of the http listeners are taken on TCP. */
  predicate IsTaken(cfg: Config, f: Family, port: nat) {
    f == Tcp && (port == cfg.httpPort || port == cfg.httpsPort)
  }

  /** A service of the table that has servers of any use. */
  ghost predicate IsServed(env: Env, l4: L4Config, name: string) {
    exists i :: 0 <= i < |l4.services| && l4.services[i].key == name && !L4Target(env, l4.services[i].value).0.Empty?
  }

  /** May the router have the port? */
  ghost predicate Asks(env: Env, l4: L4Config, f: Family, r: Router, port: nat) {
    && !r.tls && MatchesAll(r.rule, f) && IsServed(env, l4, r.service) && !IsTaken(env.cfg, f, port)
    && exists i :: 0 <= i < |r.entryPoints| && NamesPort(r.entryPoints[i], f, port)
  }

  /** The router has it: of those that may, it has the least name. */
  ghost predicate Owns(env: Env, l4: L4Config, f: Family, i: int, port: nat) {
    && 0 <= i < |l4.routers| && Asks(env, l4, f, l4.routers[i].value, port)
    && forall j :: 0 <= j < |l4.routers| && j != i && Asks(env, l4, f, l4.routers[j].value, port) ==>
         Less(l4.routers[i].key, l4.routers[j].key)
  }

  // ---- The index of services --------------------------------------------------------------------------

  function IndexOfServices(env: Env, l4: L4Config, f: Family, d: Desired): Index {
    BuildAll(env.cfg, ProgramNaming(env.pf), f, L4Targets(env, l4.services), Built(map[], d)).index
  }

  lemma ServedIff(env: Env, l4: L4Config, f: Family, d: Desired, name: string)
    ensures name in IndexOfServices(env, l4, f, d) <==> IsServed(env, l4, name)
    ensures forall i :: 0 <= i < |l4.services| && l4.services[i].key == name
                        && !L4Target(env, l4.services[i].value).0.Empty? ==>
      var index := IndexOfServices(env, l4, f, d);
      name in index
      && index[name] == RefOf(env.cfg, NamesFor(env.pf, Named(f, name)), L4Target(env, l4.services[i].value).0)
  {
    var ts := L4Targets(env, l4.services);
    forall i, j | 0 <= i < j < |ts| ensures ts[i].name != ts[j].name { TableNamesDistinct(l4.services, i, j); }
    IndexIff(env.cfg, ProgramNaming(env.pf), f, ts, d, name);
    if IsServed(env, l4, name) {
      var i :| 0 <= i < |l4.services| && l4.services[i].key == name && !L4Target(env, l4.services[i].value).0.Empty?;
      assert ts[i].name == name && !ts[i].c.Empty?;
    }
    if name in IndexOfServices(env, l4, f, d) {
      var i :| 0 <= i < |ts| && ts[i].name == name && !ts[i].c.Empty?;
      assert l4.services[i].key == name;
    }
    forall i | 0 <= i < |l4.services| && l4.services[i].key == name && !L4Target(env, l4.services[i].value).0.Empty?
      ensures var index := IndexOfServices(env, l4, f, d);
        name in index
        && index[name] == RefOf(env.cfg, NamesFor(env.pf, Named(f, name)), L4Target(env, l4.services[i].value).0)
    {
      assert ts[i].name == name && !ts[i].c.Empty?;
    }
  }

  // ---- Who gets which port ----------------------------------------------------------------------------

  lemma NamesPortIff(h: NameHash, ep: string, f: Family, port: nat)
    requires f != Http
    ensures ProgramDialect(h, f).entryPort(ep) == Some(port) <==> NamesPort(ep, f, port)
  {
    EntrypointPortIff(ep, f, port);
    assert Infix(f) + "-" == if f == Tcp then "tcp-" else "udp-";
  }

  lemma AsksIff(env: Env, l4: L4Config, f: Family, d: Desired, r: Router, port: nat)
    requires f != Http
    ensures Lists(env.cfg, ProgramDialect(env.pf.hash, f), f, IndexOfServices(env, l4, f, d), r, port) <==>
            Asks(env, l4, f, r, port)
  {
    RuleTakenIff(r, f);
    ServedIff(env, l4, f, d, r.service);
    forall i | 0 <= i < |r.entryPoints|
      ensures ProgramDialect(env.pf.hash, f).entryPort(r.entryPoints[i]) == Some(port) <==>
              NamesPort(r.entryPoints[i], f, port)
    {
      NamesPortIff(env.pf.hash, r.entryPoints[i], f, port);
    }
  }

  function OwnedPorts(env: Env, l4: L4Config, f: Family, d: Desired): (r: seq<seq<nat>>)
    ensures |r| == |l4.routers|
  {
    Owned(env.cfg, ProgramDialect(env.pf.hash, f), f, IndexOfServices(env, l4, f, d), l4.routers)
  }

  lemma OwnsIff(env: Env, l4: L4Config, f: Family, d: Desired, i: nat, port: nat)
    requires f != Http && i < |l4.routers|
    ensures port in OwnedPorts(env, l4, f, d)[i] <==> Owns(env, l4, f, i, port)
  {
    var dia, index := ProgramDialect(env.pf.hash, f), IndexOfServices(env, l4, f, d);
    OwnerIsLeastName(env.cfg, dia, f, index, l4.routers, i, port);
    forall j | 0 <= j < |l4.routers|
      ensures Lists(env.cfg, dia, f, index, l4.routers[j].value, port) <==> Asks(env, l4, f, l4.routers[j].value, port)
    {
      AsksIff(env, l4, f, d, l4.routers[j].value, port);
    }
  }

  // ---- Listeners -----------------------------------------------------------------------------------------

  /** The listener of a raw port. */
  function RawListener(f: Family, port: nat): Listener {
    if f == Tcp then Listener("tcp-" + Decimal(port), None, port, "TCP", None)
    else Listener("udp-" + Decimal(port), None, port, "UDP", None)
  }

  function RawResult(env: Env, l4: L4Config, f: Family, d: Desired): L4Result {
    BuildL4Spec(env.cfg, ProgramNaming(env.pf), f, L4PlanOf(env, l4, f), d)
  }

  lemma ListenerIsRaw(h: NameHash, f: Family, port: nat)
    requires f != Http && IsPort(port)
    ensures MakeListener(ProgramDialect(h, f), f, port) == RawListener(f, port)
  {
    ListenerNameIsPlain(h, f, port);
    assert Infix(f) + "-" == if f == Tcp then "tcp-" else "udp-";
  }

  lemma RawListenersAreRaw(env: Env, l4: L4Config, f: Family, d: Desired)
    requires f != Http
    ensures forall l :: l in RawResult(env, l4, f, d).listeners ==> exists p: nat :: l == RawListener(f, p)
  {
    var dia, owned := ProgramDialect(env.pf.hash, f), OwnedPorts(env, l4, f, d);
    var b := BuildAll(env.cfg, ProgramNaming(env.pf), f, L4Targets(env, l4.services), Built(map[], d));
    RouteAllIsAllocation(env.cfg, dia, f, b.index, l4.routers, {}, b.desired);
    var ports := Flatten(owned);
    var ls := Listeners(dia, f, ports);
    forall l | l in ls ensures exists p: nat :: l == RawListener(f, p) {
      var i :| 0 <= i < |ls| && ls[i] == l;
      ListenersAt(dia, f, ports, i);
      assert ports[i] in ports;
      InFlatten(owned, ports[i]);
      var o :| 0 <= o < |owned| && ports[i] in owned[o];
      ProgramDialectTells(env.pf.hash, f);
      OwnedArePorts(env.cfg, dia, f, b.index, l4.routers, o, ports[i]);
      ListenerIsRaw(env.pf.hash, f, ports[i]);
    }
  }

  lemma RawPortsExactly(env: Env, l4: L4Config, f: Family, d: Desired, port: nat)
    requires f != Http
    ensures var ls := RawResult(env, l4, f, d).listeners;
      && (forall i, j :: 0 <= i < j < |ls| ==> ls[i].port != ls[j].port)
      && ((exists i :: 0 <= i < |ls| && ls[i].port == port) <==>
          exists i :: 0 <= i < |l4.routers| && Asks(env, l4, f, l4.routers[i].value, port))
  {
    var dia, index := ProgramDialect(env.pf.hash, f), IndexOfServices(env, l4, f, d);
    var b := BuildAll(env.cfg, ProgramNaming(env.pf), f, L4Targets(env, l4.services), Built(map[], d));
    ListenerPortsExact(env.cfg, dia, f, index, l4.routers, b.desired, port);
    forall i | 0 <= i < |l4.routers|
      ensures Lists(env.cfg, dia, f, index, l4.routers[i].value, port) <==> Asks(env, l4, f, l4.routers[i].value, port)
    {
      AsksIff(env, l4, f, d, l4.routers[i].value, port);
    }
  }

  /** Main result: a raw protocol's listeners are one for every port some router may have,
      named and typed by protocol and port, and no others. */
  lemma RawListenersExactly(env: Env, l4: L4Config, f: Family, d: Desired, port: nat)
    requires f != Http
    ensures var ls := RawResult(env, l4, f, d).listeners;
      && (forall i, j :: 0 <= i < j < |ls| ==> ls[i].port != ls[j].port)
      && (RawListener(f, port) in ls <==>
          exists i :: 0 <= i < |l4.routers| && Asks(env, l4, f, l4.routers[i].value, port))
      && (forall l :: l in ls ==> exists p: nat :: l == RawListener(f, p))
  {
    var ls := RawResult(env, l4, f, d).listeners;
    RawPortsExactly(env, l4, f, d, port);
    RawListenersAreRaw(env, l4, f, d);
    if i :| 0 <= i < |ls| && ls[i].port == port {
      assert ls[i] in ls;
      var p: nat :| ls[i] == RawListener(f, p);
      assert p == port;
    }
  }

  // ---- Routes --------------------------------------------------------------------------------------------

  /** The key of a raw router's route. */
  function RawRouteKey(h: NameHash, f: Family, router: string): Key {
    Key(if f == Tcp then TCPRoute else UDPRoute, DnsLabel(h, (if f == Tcp then "tcp-" else "udp-") + router))
  }

  lemma RawKeyIs(h: NameHash, f: Family, router: string)
    requires f != Http
    ensures RouteKey(ProgramDialect(h, f), f, router) == RawRouteKey(h, f, router)
  {
    assert Infix(f) + "-" + router == (if f == Tcp then "tcp-" else "udp-") + router;
  }

  /** Does the router own a port at all? */
  ghost predicate OwnsSome(env: Env, l4: L4Config, f: Family, i: int) {
    exists port: nat :: Owns(env, l4, f, i, port)
  }

  lemma OwnsSomeIff(env: Env, l4: L4Config, f: Family, d: Desired, i: nat)
    requires f != Http && i < |l4.routers|
    ensures OwnedPorts(env, l4, f, d)[i] != [] <==> OwnsSome(env, l4, f, i)
  {
    var mine := OwnedPorts(env, l4, f, d)[i];
    if mine != [] {
      assert mine[0] in mine;
      OwnsIff(env, l4, f, d, i, mine[0]);
    }
    if OwnsSome(env, l4, f, i) {
      var port: nat :| Owns(env, l4, f, i, port);
      OwnsIff(env, l4, f, d, i, port);
    }
  }

  /** The sections are the listeners of exactly the ports the router owns, each once. */
  ghost predicate SectionsOwned(env: Env, l4: L4Config, f: Family, i: int, sections: seq<string>) {
    && Distinct(sections)
    && forall s :: s in sections <==> exists port: nat :: Owns(env, l4, f, i, port) && s == RawListener(f, port).name
  }

  lemma SectionsAreOwned(env: Env, l4: L4Config, f: Family, d: Desired, i: nat)
    requires f != Http && i < |l4.routers|
    ensures SectionsOwned(env, l4, f, i, Sections(ProgramDialect(env.pf.hash, f), OwnedPorts(env, l4, f, d)[i]))
  {
    var dia, index := ProgramDialect(env.pf.hash, f), IndexOfServices(env, l4, f, d);
    var mine := OwnedPorts(env, l4, f, d)[i];
    var sections := Sections(dia, mine);
    ProgramDialectTells(env.pf.hash, f);
    forall k | 0 <= k < |mine|
      ensures IsPort(mine[k]) && Owns(env, l4, f, i, mine[k]) && dia.listener(mine[k]) == RawListener(f, mine[k]).name
    {
      OwnedArePorts(env.cfg, dia, f, index, l4.routers, i, mine[k]);
      OwnsIff(env, l4, f, d, i, mine[k]);
      ListenerIsRaw(env.pf.hash, f, mine[k]);
    }
    forall s
      ensures s in sections <==> exists port: nat :: Owns(env, l4, f, i, port) && s == RawListener(f, port).name
    {
      SectionIsPort(dia, mine, s);
      if port: nat :| Owns(env, l4, f, i, port) && s == RawListener(f, port).name {
        OwnsIff(env, l4, f, d, i, port);
        var k :| 0 <= k < |mine| && mine[k] == port;
        assert dia.listener(mine[k]) == s;
      }
    }
    OwnedOnce(env, l4, f, d, i);
    DistinctSections(dia, mine);
  }

  lemma OwnedOnce(env: Env, l4: L4Config, f: Family, d: Desired, i: nat)
    requires i < |l4.routers|
    ensures Distinct(OwnedPorts(env, l4, f, d)[i])
  {
    var wanted := AllWanted(env.cfg, ProgramDialect(env.pf.hash, f), f, IndexOfServices(env, l4, f, d), l4.routers);
    AllocatedOnce(wanted, {}, i);
  }

  lemma {:induction false} AllocatedOnce(wanted: seq<seq<nat>>, taken: set<nat>, i: nat)
    requires i < |wanted|
    ensures Distinct(Allocate(wanted, taken)[i])
    decreases wanted
  {
    ClaimsExact(wanted[0], taken);
    if i > 0 {
      AllocatedOnce(wanted[1..], taken + ToSet(Claims(wanted[0], taken)), i - 1);
    }
  }

  lemma {:induction false} DistinctSections(dia: Dialect, ports: seq<nat>)
    requires DialectTells(dia) && Distinct(ports) && forall k :: 0 <= k < |ports| ==> IsPort(ports[k])
    ensures Distinct(Sections(dia, ports))
  {
    if ports != [] {
      DistinctSections(dia, ports[1..]);
      SectionIsPort(dia, ports[1..], dia.listener(ports[0]));
      var rest := Sections(dia, ports[1..]);
      assert dia.listener(ports[0]) !in rest;
      forall k | 0 <= k < |rest| ensures rest[k] != dia.listener(ports[0]) { assert rest[k] in rest; }
    }
  }

  /** Where no later route takes its key, an owner's route is there as made. */
  lemma {:induction false} PutRoutesLast(cfg: Config, dia: Dialect, f: Family, backends: Index,
                                         routers: seq<Entry<Router>>, ports: seq<seq<nat>>, d: Desired, i: nat)
    requires |routers| == |ports| && i < |routers| && ports[i] != []
    requires forall j :: 0 <= j < |routers| && ports[j] != [] ==> routers[j].value.service in backends
    requires forall j :: i < j < |routers| && ports[j] != [] ==>
      RouteKey(dia, f, routers[j].key) != RouteKey(dia, f, routers[i].key)
    ensures var d' := PutRoutes(cfg, dia, f, backends, routers, ports, d);
      var k := RouteKey(dia, f, routers[i].key);
      k in d' && d'[k] == MakeRoute(cfg, dia, ports[i], backends[routers[i].value.service])
    decreases routers
  {
    var d1 := AddRoute(cfg, dia, f, backends, routers[0], ports[0], d);
    assert forall j :: 0 <= j < |routers| - 1 ==> routers[1..][j] == routers[j + 1] && ports[1..][j] == ports[j + 1];
    if i > 0 {
      PutRoutesLast(cfg, dia, f, backends, routers[1..], ports[1..], d1, i - 1);
    } else {
      PutRoutesElsewhere(cfg, dia, f, backends, routers[1..], ports[1..], d1, RouteKey(dia, f, routers[0].key));
    }
  }

  lemma {:induction false} PutRoutesElsewhere(cfg: Config, dia: Dialect, f: Family, backends: Index,
                                              routers: seq<Entry<Router>>, ports: seq<seq<nat>>, d: Desired, k: Key)
    requires |routers| == |ports|
    requires forall j :: 0 <= j < |routers| && ports[j] != [] ==>
      routers[j].value.service in backends && RouteKey(dia, f, routers[j].key) != k
    ensures var d' := PutRoutes(cfg, dia, f, backends, routers, ports, d);
      (k in d' <==> k in d) && (k in d ==> d'[k] == d[k])
    decreases routers
  {
    if routers != [] {
      assert forall j :: 0 <= j < |routers| - 1 ==> routers[1..][j] == routers[j + 1] && ports[1..][j] == ports[j + 1];
      PutRoutesElsewhere(cfg, dia, f, backends, routers[1..], ports[1..],
                         AddRoute(cfg, dia, f, backends, routers[0], ports[0], d), k);
    }
  }

  /** No later owner of a port has the same route name. */
  ghost predicate IsLastOwner(env: Env, l4: L4Config, f: Family, i: int) {
    && 0 <= i < |l4.routers| && OwnsSome(env, l4, f, i)
    && forall j :: i < j < |l4.routers| && OwnsSome(env, l4, f, j) ==>
         RawRouteKey(env.pf.hash, f, l4.routers[j].key) != RawRouteKey(env.pf.hash, f, l4.routers[i].key)
  }

  /** The route of a router: attached to the listeners of its ports, to its service's servers. */
  ghost predicate IsRawRoute(env: Env, l4: L4Config, f: Family, i: int, o: Obj)
    requires 0 <= i < |l4.routers|
  {
    && o.labels == OwnerLabels(env.cfg) && o.body.L4RouteBody? && SectionsOwned(env, l4, f, i, o.body.sections)
    && exists s :: 0 <= s < |l4.services| && l4.services[s].key == l4.routers[i].value.service
         && !L4Target(env, l4.services[s].value).0.Empty?
         && o.body.l4Backend == RefOf(env.cfg, NamesFor(env.pf, Named(f, l4.services[s].key)),
                                      L4Target(env, l4.services[s].value).0)
  }

  lemma MadeIsRawRoute(env: Env, l4: L4Config, f: Family, d: Desired, i: nat)
    requires f != Http && i < |l4.routers| && OwnsSome(env, l4, f, i)
    ensures var index, service := IndexOfServices(env, l4, f, d), l4.routers[i].value.service;
      service in index
      && IsRawRoute(env, l4, f, i, MakeRoute(env.cfg, ProgramDialect(env.pf.hash, f), OwnedPorts(env, l4, f, d)[i],
                                             index[service]))
  {
    var service := l4.routers[i].value.service;
    var port: nat :| Owns(env, l4, f, i, port);
    ServedIff(env, l4, f, d, service);
    SectionsAreOwned(env, l4, f, d, i);
    var s :| 0 <= s < |l4.services| && l4.services[s].key == service && !L4Target(env, l4.services[s].value).0.Empty?;
  }

  lemma {:induction false} LastOwner(env: Env, l4: L4Config, f: Family, i: nat) returns (j: nat)
    requires i < |l4.routers| && OwnsSome(env, l4, f, i)
    ensures IsLastOwner(env, l4, f, j)
    ensures RawRouteKey(env.pf.hash, f, l4.routers[j].key) == RawRouteKey(env.pf.hash, f, l4.routers[i].key)
    decreases |l4.routers| - i
  {
    j := i;
    if !IsLastOwner(env, l4, f, i) {
      var k :| i < k < |l4.routers| && OwnsSome(env, l4, f, k)
        && RawRouteKey(env.pf.hash, f, l4.routers[k].key) == RawRouteKey(env.pf.hash, f, l4.routers[i].key);
      j := LastOwner(env, l4, f, k);
    }
  }

  /** Backends add no raw routes. */
  lemma NoRoutesFromBackends(env: Env, l4: L4Config, f: Family, d: Desired)
    requires f != Http && forall k :: k in d ==> k.kind != RouteKind(f)
    ensures var b := BuildAll(env.cfg, ProgramNaming(env.pf), f, L4Targets(env, l4.services), Built(map[], d));
      forall k :: k in b.desired ==> k.kind != RouteKind(f)
  {
    ProgramNamingIsValid(env.pf);
    BuildResolves(env.cfg, ProgramNaming(env.pf), f, L4Targets(env, l4.services), Built(map[], d));
  }

  lemma OwnersSpelled(env: Env, l4: L4Config, f: Family, d: Desired, i: nat)
    requires f != Http && i < |l4.routers|
    ensures OwnedPorts(env, l4, f, d)[i] != [] <==> OwnsSome(env, l4, f, i)
    ensures RouteKey(ProgramDialect(env.pf.hash, f), f, l4.routers[i].key) ==
            RawRouteKey(env.pf.hash, f, l4.routers[i].key)
  {
    OwnsSomeIff(env, l4, f, d, i);
    RawKeyIs(env.pf.hash, f, l4.routers[i].key);
  }

  lemma LastOwnersRoute(env: Env, l4: L4Config, f: Family, d: Desired, i: nat)
    requires f != Http && IsLastOwner(env, l4, f, i)
    ensures var d', k := RawResult(env, l4, f, d).desired, RawRouteKey(env.pf.hash, f, l4.routers[i].key);
      k in d' && IsRawRoute(env, l4, f, i, d'[k])
  {
    var dia, index, owned := ProgramDialect(env.pf.hash, f), IndexOfServices(env, l4, f, d), OwnedPorts(env, l4, f, d);
    var b := BuildAll(env.cfg, ProgramNaming(env.pf), f, L4Targets(env, l4.services), Built(map[], d));
    RouteAllIsAllocation(env.cfg, dia, f, index, l4.routers, {}, b.desired);
    forall j | 0 <= j < |l4.routers|
      ensures owned[j] != [] <==> OwnsSome(env, l4, f, j)
      ensures RouteKey(dia, f, l4.routers[j].key) == RawRouteKey(env.pf.hash, f, l4.routers[j].key)
    {
      OwnersSpelled(env, l4, f, d, j);
    }
    MadeIsRawRoute(env, l4, f, d, i);
    PutRoutesLast(env.cfg, dia, f, index, l4.routers, owned, b.desired, i);
  }

  lemma RoutesHaveLastOwners(env: Env, l4: L4Config, f: Family, d: Desired, k: Key)
    requires f != Http && forall k :: k in d ==> k.kind != RouteKind(f)
    requires k in RawResult(env, l4, f, d).desired && k.kind == RouteKind(f)
    ensures exists i :: IsLastOwner(env, l4, f, i) && k == RawRouteKey(env.pf.hash, f, l4.routers[i].key)
  {
    var dia, index, owned := ProgramDialect(env.pf.hash, f), IndexOfServices(env, l4, f, d), OwnedPorts(env, l4, f, d);
    var b := BuildAll(env.cfg, ProgramNaming(env.pf), f, L4Targets(env, l4.services), Built(map[], d));
    var d' := RawResult(env, l4, f, d).desired;
    NoRoutesFromBackends(env, l4, f, d);
    RoutesAreOwners(env.cfg, dia, f, index, l4.routers, b.desired);
    var i :| 0 <= i < |l4.routers| && IsRouteOf(env.cfg, dia, f, index, l4.routers[i], owned[i], k, d');
    OwnersSpelled(env, l4, f, d, i);
    var j := LastOwner(env, l4, f, i);
  }

  /** The routes of the protocol are those of the routers that own a port, one for each route
      name, and say what the last such router of the name asks for. */
  ghost predicate RawRoutesAre(env: Env, l4: L4Config, f: Family, d: Desired) {
    && (forall i :: IsLastOwner(env, l4, f, i) ==>
          var k := RawRouteKey(env.pf.hash, f, l4.routers[i].key);
          k in d && IsRawRoute(env, l4, f, i, d[k]))
    && (forall k :: k in d && k.kind == RouteKind(f) ==>
          exists i :: IsLastOwner(env, l4, f, i) && k == RawRouteKey(env.pf.hash, f, l4.routers[i].key))
  }

  lemma RawRoutesExactly(env: Env, l4: L4Config, f: Family, d: Desired)
    requires f != Http && forall k :: k in d ==> k.kind != RouteKind(f)
    ensures RawRoutesAre(env, l4, f, RawResult(env, l4, f, d).desired)
  {
    var d' := RawResult(env, l4, f, d).desired;
    forall i | IsLastOwner(env, l4, f, i)
      ensures var k := RawRouteKey(env.pf.hash, f, l4.routers[i].key);
        k in d' && IsRawRoute(env, l4, f, i, d'[k])
    {
      LastOwnersRoute(env, l4, f, d, i);
    }
    forall k | k in d' && k.kind == RouteKind(f)
      ensures exists i :: IsLastOwner(env, l4, f, i) && k == RawRouteKey(env.pf.hash, f, l4.routers[i].key)
    {
      RoutesHaveLastOwners(env, l4, f, d, k);
    }
  }

  // ---- In the finished manifest --------------------------------------------------------------------------

  /** The block of a protocol, if it is built at all. */
  function BlockOf(env: Env, dyn: DynamicConfig, f: Family): Option<L4Config> {
    if f == Tcp then (if env.cfg.enableTcpRoutes then dyn.tcp else None)
    else (if env.cfg.enableUdpRoutes then dyn.udp else None)
  }

  ghost predicate SameKind(kind: Kind, d: Desired, d': Desired) {
    forall k :: (k in d || k in d') && k.kind == kind ==> k in d && k in d' && d'[k] == d[k]
  }

  lemma OtherPhasesKeep(cfg: Config, kinds: set<Kind>, d: Desired, d': Desired, kind: Kind)
    requires Adds(cfg, kinds, d, d') && kind !in kinds
    ensures SameKind(kind, d, d')
  {}

  lemma RawKindIsNoBackend(cfg: Config, f: Family)
    ensures RouteKind(f) !in BackendKinds(cfg)
  {}

  function OwnPhase(p: Plan, f: Family): Desired
    requires PlanSound(p)
  {
    if f == Tcp then TcpPart(p).desired else UdpPart(p).desired
  }

  function PhaseBefore(p: Plan, f: Family): Desired
    requires PlanSound(p)
  {
    if f == Tcp then HttpRoutes(p).desired else TcpPart(p).desired
  }

  lemma NoneBefore(p: Plan, f: Family)
    requires PlanValid(p) && f != Http
    ensures forall k :: k in PhaseBefore(p, f) ==> k.kind != RouteKind(f)
  {
    HttpPhases(p);
    TcpPhase(p);
    RawKindIsNoBackend(p.cfg, f);
  }

  lemma KeptAfter(p: Plan, f: Family)
    requires PlanValid(p) && f != Http
    ensures SameKind(RouteKind(f), OwnPhase(p, f), BuildSpec(p))
  {
    UdpPhase(p);
    ListenerSetAdds(p);
    RawKindIsNoBackend(p.cfg, f);
    OtherPhasesKeep(p.cfg, BackendKinds(p.cfg) + {UDPRoute}, TcpPart(p).desired, UdpPart(p).desired, TCPRoute);
    OtherPhasesKeep(p.cfg, {ListenerSet}, UdpPart(p).desired, BuildSpec(p), RouteKind(f));
  }

  lemma RawRoutesKept(env: Env, l4: L4Config, f: Family, d: Desired, d': Desired)
    requires f != Http && RawRoutesAre(env, l4, f, d) && SameKind(RouteKind(f), d, d')
    ensures RawRoutesAre(env, l4, f, d')
  {
    forall i | IsLastOwner(env, l4, f, i)
      ensures var k := RawRouteKey(env.pf.hash, f, l4.routers[i].key);
        k in d' && IsRawRoute(env, l4, f, i, d'[k])
    {
      assert RawRouteKey(env.pf.hash, f, l4.routers[i].key) in d;
    }
  }

  function OwnListeners(p: Plan, f: Family): seq<Listener>
    requires PlanSound(p)
  {
    if f == Tcp then TcpPart(p).listeners else UdpPart(p).listeners
  }

  lemma PhaseIsRaw(env: Env, dyn: DynamicConfig, f: Family)
    requires f != Http
    ensures var p, block := PlanOf(env, dyn), BlockOf(env, dyn, f);
      L4Result(OwnListeners(p, f), OwnPhase(p, f)) ==
      if block.None? then L4Result([], PhaseBefore(p, f)) else RawResult(env, block.value, f, PhaseBefore(p, f))
  {}

  /** Main result: the TCP and UDP routes of the finished manifest are those of the routers
      that own a port, each as the last such router of its route name has it; a protocol
      that is off or not configured has none. */
  lemma ManifestRawRoutes(env: Env, dyn: DynamicConfig, f: Family)
    requires f != Http
    ensures var d, block := BuildSpec(PlanOf(env, dyn)), BlockOf(env, dyn, f);
      if block.None? then forall k :: k in d ==> k.kind != RouteKind(f) else RawRoutesAre(env, block.value, f, d)
  {
    var p, block := PlanOf(env, dyn), BlockOf(env, dyn, f);
    PlanOfIsValid(env, dyn);
    NoneBefore(p, f);
    KeptAfter(p, f);
    PhaseIsRaw(env, dyn, f);
    if block.Some? {
      RawRoutesExactly(env, block.value, f, PhaseBefore(p, f));
      RawRoutesKept(env, block.value, f, OwnPhase(p, f), BuildSpec(p));
    }
  }

  /** Main result: the raw listeners of the finished ListenerSet are one for each port a router
      of an enabled protocol may have. */
  lemma ManifestRawListeners(env: Env, dyn: DynamicConfig, f: Family, port: nat)
    requires f != Http
    ensures var p, block := PlanOf(env, dyn), BlockOf(env, dyn, f);
      var ls := OwnListeners(p, f);
      && (forall l :: l in ls ==> l in ListenersOf(p))
      && (RawListener(f, port) in ls <==>
          block.Some? && exists i :: 0 <= i < |block.value.routers|
                                     && Asks(env, block.value, f, block.value.routers[i].value, port))
      && (forall l :: l in ls ==> exists q: nat :: l == RawListener(f, q))
  {
    var p, block := PlanOf(env, dyn), BlockOf(env, dyn, f);
    PhaseIsRaw(env, dyn, f);
    if block.Some? {
      RawListenersExactly(env, block.value, f, PhaseBefore(p, f), port);
    }
  }
}
