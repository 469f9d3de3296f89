/** Raw TCP and UDP resources: each public port is given to one router. */
module L4 {
  import opened Prelude
  import opened Objects
  import opened Text
  import opened Naming
  import opened Backend
  import opened Emit

  datatype Router = Router(rule: Option<string>, service: string, entryPoints: seq<string>, tls: bool)

  type Services = Table<L4Service>

  /** TCP rules must be absent, blank or the wildcard SNI; UDP rules absent or blank. */
  predicate RuleIsSupported(r: Router, f: Family) {
    !r.tls && (r.rule.None? || Trim(r.rule.value) == "" || (f == Tcp && Trim(r.rule.value) == "HostSNI(`*`)"))
  }

  /** `tcp-234` is 234, for the matching protocol only; zero is not a port. */
  function ParseEntrypointPort(ep: string, f: Family): (r: Option<nat>)
    ensures r.Some? ==> 0 < r.value < 0x1_0000
  {
    var prefix := Infix(f) + "-";
    if !(prefix <= ep) then None
    else
      var p := ParseU16(ep[|prefix|..]);
      if p == Some(0) then None else p
  }

  /** An entry point names a port exactly when it is the protocol, a dash and the port's
      digits, leading zeros and one plus sign allowed. */
  lemma EntrypointPortIff(ep: string, f: Family, p: nat)
    ensures ParseEntrypointPort(ep, f) == Some(p) <==>
      0 < p < 0x1_0000 && exists t, n :: ep == Infix(f) + "-" + t && IsPadded(t, p, n)
  {
    var prefix := Infix(f) + "-";
    if p > 0 && prefix <= ep {
      var rest := ep[|prefix|..];
      assert ep == prefix + rest;
      ParseU16Iff(rest, p);
      forall t: string | ep == prefix + t ensures t == rest {}
    }
  }

  /** The HTTP and HTTPS listener ports are not available to TCP. */
  predicate Reserved(cfg: Config, f: Family, port: nat) {
    f == Tcp && (port == cfg.httpPort || port == cfg.httpsPort)
  }

  /** How a family's rules and entry points are read and its listeners and routes named;
      for the program, `ProgramDialect`. */
  datatype Dialect = Dialect(
    supported: Router -> bool,
    entryPort: string -> Option<nat>,
    listener: nat -> string,
    route: string -> string)

  function ProgramDialect(h: NameHash, f: Family): Dialect {
    Dialect(r => RuleIsSupported(r, f), ep => ParseEntrypointPort(ep, f),
            (port: nat) => ListenerName(h, f, port), router => PrefixedLabel(h, Infix(f), router))
  }

  /** The ports a list of entry points asks for and may have, in order. */
  function Wanted(cfg: Config, dia: Dialect, f: Family, eps: seq<string>): seq<nat> {
    if eps == [] then []
    else
      var p := dia.entryPort(eps[0]);
      (if p.Some? && !Reserved(cfg, f, p.value) then [p.value] else []) + Wanted(cfg, dia, f, eps[1..])
  }

  /** The wanted ports not taken yet, each once, in order of first mention. */
  function Claims(wanted: seq<nat>, taken: set<nat>): seq<nat> {
    if wanted == [] then []
    else if wanted[0] in taken then Claims(wanted[1..], taken)
    else [wanted[0]] + Claims(wanted[1..], taken + {wanted[0]})
  }

  function ToSet(s: seq<nat>): set<nat> {
    set x | x in s
  }

  /** First come, first served: what each list of wanted ports ends up with. */
  function Allocate(wanted: seq<seq<nat>>, taken: set<nat>): (r: seq<seq<nat>>)
    ensures |r| == |wanted|
    decreases wanted
  {
    if wanted == [] then []
    else
      var mine := Claims(wanted[0], taken);
      [mine] + Allocate(wanted[1..], taken + ToSet(mine))
  }

  // ---- The allocator is exact -------------------------------------------------------------------

  predicate Distinct<T(==)>(s: seq<T>) {
    forall i, j :: 0 <= i < j < |s| ==> s[i] != s[j]
  }

  lemma {:induction false} ClaimsExact(wanted: seq<nat>, taken: set<nat>)
    ensures Distinct(Claims(wanted, taken))
    ensures forall p :: p in Claims(wanted, taken) <==> p in wanted && p !in taken
  {
    if wanted != [] {
      assert forall p :: p in wanted <==> p == wanted[0] || p in wanted[1..];
      if wanted[0] in taken {
        ClaimsExact(wanted[1..], taken);
      } else {
        ClaimsExact(wanted[1..], taken + {wanted[0]});
        var rest := Claims(wanted[1..], taken + {wanted[0]});
        assert forall p :: p in Claims(wanted, taken) <==> p == wanted[0] || p in rest;
      }
    }
  }

  /** Main result: a port belongs to the first list that wants it and to no other. */
  lemma {:induction false} AllocateExact(wanted: seq<seq<nat>>, taken: set<nat>, i: nat, p: nat)
    requires i < |wanted|
    ensures Distinct(Allocate(wanted, taken)[i])
    ensures p in Allocate(wanted, taken)[i] <==>
            p in wanted[i] && p !in taken && forall j :: 0 <= j < i ==> p !in wanted[j]
    decreases wanted
  {
    var mine := Claims(wanted[0], taken);
    ClaimsExact(wanted[0], taken);
    if i > 0 {
      var taken' := taken + ToSet(mine);
      AllocateExact(wanted[1..], taken', i - 1, p);
      assert Allocate(wanted, taken)[i] == Allocate(wanted[1..], taken')[i - 1];
      assert wanted[i] == wanted[1..][i - 1];
      assert (forall j :: 0 <= j < i ==> p !in wanted[j]) <==>
             p !in wanted[0] && forall j :: 0 <= j < i - 1 ==> p !in wanted[1..][j] by {
        assert forall j :: 0 <= j < i - 1 ==> wanted[1..][j] == wanted[j + 1];
        assert forall j :: 1 <= j < i ==> wanted[j] == wanted[1..][j - 1];
      }
    }
  }

  /** What is wanted: ports of listed entry points, reserved ones excepted. */
  lemma {:induction false} WantedIsUnreserved(cfg: Config, dia: Dialect, f: Family, eps: seq<string>, p: nat)
    ensures p in Wanted(cfg, dia, f, eps) <==>
            exists ep :: ep in eps && dia.entryPort(ep) == Some(p) && !Reserved(cfg, f, p)
  {
    if eps != [] {
      WantedIsUnreserved(cfg, dia, f, eps[1..], p);
      assert forall ep :: ep in eps <==> ep == eps[0] || ep in eps[1..];
    }
  }

  function Flatten(ss: seq<seq<nat>>): seq<nat> {
    if ss == [] then [] else ss[0] + Flatten(ss[1..])
  }

  lemma {:induction false} InFlatten(ss: seq<seq<nat>>, p: nat)
    ensures p in Flatten(ss) <==> exists i :: 0 <= i < |ss| && p in ss[i]
  {
    if ss != [] {
      InFlatten(ss[1..], p);
      if p in ss[0] {
        assert 0 <= 0 < |ss| && p in ss[0];
      } else if exists i :: 0 <= i < |ss| && p in ss[i] {
        var i :| 0 <= i < |ss| && p in ss[i];
        assert p in ss[1..][i - 1];
      }
      if p in Flatten(ss[1..]) {
        var i :| 0 <= i < |ss[1..]| && p in ss[1..][i];
        assert p in ss[i + 1];
      }
    }
  }

  lemma {:induction false} AllocationAvoidsTaken(wanted: seq<seq<nat>>, taken: set<nat>)
    ensures forall p :: p in Flatten(Allocate(wanted, taken)) ==> p !in taken
    ensures Distinct(Flatten(Allocate(wanted, taken)))
    decreases wanted
  {
    if wanted != [] {
      var mine := Claims(wanted[0], taken);
      ClaimsExact(wanted[0], taken);
      AllocationAvoidsTaken(wanted[1..], taken + ToSet(mine));
      var rest := Flatten(Allocate(wanted[1..], taken + ToSet(mine)));
      assert forall p :: p in mine ==> p in taken + ToSet(mine);
      assert Flatten(Allocate(wanted, taken)) == mine + rest;
      forall i, j | 0 <= i < |mine| && 0 <= j < |rest| ensures mine[i] != rest[j] {
        assert mine[i] in mine && rest[j] in rest;
      }
    }
  }

  /** All ports together: exactly the wanted ones, each once. */
  lemma AllocationIsUnion(wanted: seq<seq<nat>>, p: nat)
    ensures p in Flatten(Allocate(wanted, {})) <==> exists i :: 0 <= i < |wanted| && p in wanted[i]
    ensures Distinct(Flatten(Allocate(wanted, {})))
  {
    AllocationAvoidsTaken(wanted, {});
    InFlatten(Allocate(wanted, {}), p);
    if exists i :: 0 <= i < |wanted| && p in wanted[i] {
      var i := FirstWanting(wanted, p);
      AllocateExact(wanted, {}, i, p);
    }
    forall i | 0 <= i < |wanted| ensures p in Allocate(wanted, {})[i] ==> p in wanted[i] {
      AllocateExact(wanted, {}, i, p);
    }
  }

  lemma {:induction false} FirstWanting(wanted: seq<seq<nat>>, p: nat) returns (i: nat)
    requires exists i :: 0 <= i < |wanted| && p in wanted[i]
    ensures i < |wanted| && p in wanted[i] && forall j :: 0 <= j < i ==> p !in wanted[j]
  {
    i := 0;
    while p !in wanted[i]
      invariant i < |wanted| && forall j :: 0 <= j < i ==> p !in wanted[j]
      decreases |wanted| - i
    {
      i := i + 1;
    }
  }

  // ---- Names of listeners ----------------------------------------------------------------------------

  function ListenerName(h: NameHash, f: Family, port: nat): string {
    DnsLabel(h, Infix(f) + "-" + Decimal(port))
  }

  lemma {:induction false} DecimalLength(n: nat, k: nat)
    requires 0 < k && n < Pow10(k)
    ensures |Decimal(n)| <= k
  {
    if n >= 10 {
      assert Pow10(k) == 10 * Pow10(k - 1);
      DecimalLength(n / 10, k - 1);
    }
  }

  function Pow10(k: nat): nat {
    if k == 0 then 1 else 10 * Pow10(k - 1)
  }

  lemma EntryPointIsLabel(f: Family, port: nat)
    requires f != Http && 0 < port < 0x1_0000
    ensures ValidLabel(Infix(f) + "-" + Decimal(port))
  {
    var s := Infix(f) + "-" + Decimal(port);
    assert Pow10(5) == 100000 by { assert Pow10(3) == 1000; }
    DecimalLength(port, 5);
    assert forall i :: 4 <= i < |s| ==> s[i] == Decimal(port)[i - 4];
    assert forall i :: 4 <= i < |s| ==> IsDigit(s[i]);
    assert forall i :: 0 <= i < 3 ==> 'a' <= s[i] <= 'z';
  }

  /** A listener name is its port's entry point, unchanged by sanitising. */
  lemma ListenerNameIsPlain(h: NameHash, f: Family, port: nat)
    requires f != Http && 0 < port < 0x1_0000
    ensures ListenerName(h, f, port) == Infix(f) + "-" + Decimal(port)
    ensures ValidLabel(ListenerName(h, f, port))
  {
    EntryPointIsLabel(f, port);
    DnsLabelIdempotent(h, Infix(f) + "-" + Decimal(port));
  }

  /** Printing a port as a listener name and reading it as an entry point is the
      identity, and it is never read under the other protocol. */
  lemma ListenerNameRoundTrip(h: NameHash, f: Family, port: nat)
    requires f != Http && 0 < port < 0x1_0000
    ensures ParseEntrypointPort(ListenerName(h, f, port), f) == Some(port)
    ensures ParseEntrypointPort(ListenerName(h, f, port), if f == Tcp then Udp else Tcp) == None
  {
    ListenerNameIsPlain(h, f, port);
    var s := Infix(f) + "-" + Decimal(port);
    assert s[4..] == Decimal(port);
    ParseU16OfDecimal(port);
  }

  // ---- Building the routes -----------------------------------------------------------------------------

  predicate Eligible(dia: Dialect, r: Router, backends: Index) {
    dia.supported(r) && r.service in backends
  }

  /** What a router asks for; nothing when it is not eligible. */
  function WantedBy(cfg: Config, dia: Dialect, f: Family, backends: Index, r: Router): seq<nat> {
    if Eligible(dia, r, backends) then Wanted(cfg, dia, f, r.entryPoints) else []
  }

  function AllWanted(cfg: Config, dia: Dialect, f: Family, backends: Index,
                     routers: seq<Entry<Router>>): (r: seq<seq<nat>>)
    ensures |r| == |routers|
    ensures forall i :: 0 <= i < |r| ==> r[i] == WantedBy(cfg, dia, f, backends, routers[i].value)
  {
    if routers == [] then []
    else [WantedBy(cfg, dia, f, backends, routers[0].value)] + AllWanted(cfg, dia, f, backends, routers[1..])
  }

  function MakeListener(dia: Dialect, f: Family, port: nat): Listener {
    Listener(dia.listener(port), None, port, Protocol(f), None)
  }

  function Listeners(dia: Dialect, f: Family, ports: seq<nat>): (r: seq<Listener>)
    ensures |r| == |ports|
  {
    if ports == [] then [] else [MakeListener(dia, f, ports[0])] + Listeners(dia, f, ports[1..])
  }

  function Sections(dia: Dialect, ports: seq<nat>): (r: seq<string>)
    ensures |r| == |ports|
  {
    if ports == [] then [] else [dia.listener(ports[0])] + Sections(dia, ports[1..])
  }

  function RouteKey(dia: Dialect, f: Family, router: string): Key {
    Key(if f == Tcp then TCPRoute else UDPRoute, dia.route(router))
  }

  function MakeRoute(cfg: Config, dia: Dialect, ports: seq<nat>, backend: BackendRef): Obj {
    Obj(OwnerLabels(cfg), L4RouteBody(Sections(dia, ports), backend))
  }

  /** One route for each router that owns a port. */
  function PutRoutes(cfg: Config, dia: Dialect, f: Family, backends: Index, routers: seq<Entry<Router>>,
                     ports: seq<seq<nat>>, d: Desired): Desired
    requires |routers| == |ports|
    requires forall i :: 0 <= i < |routers| && ports[i] != [] ==> routers[i].value.service in backends
    decreases routers
  {
    if routers == [] then d
    else
      PutRoutes(cfg, dia, f, backends, routers[1..], ports[1..],
                AddRoute(cfg, dia, f, backends, routers[0], ports[0], d))
  }

  lemma {:induction false} OwnersAreEligible(cfg: Config, dia: Dialect, f: Family, backends: Index,
                                             routers: seq<Entry<Router>>, taken: set<nat>)
    ensures forall i :: 0 <= i < |routers| && Allocate(AllWanted(cfg, dia, f, backends, routers), taken)[i] != [] ==>
              Eligible(dia, routers[i].value, backends)
  {
    var w := AllWanted(cfg, dia, f, backends, routers);
    var ports := Allocate(w, taken);
    forall i | 0 <= i < |routers| && ports[i] != [] ensures Eligible(dia, routers[i].value, backends) {
      AllocateExact(w, taken, i, ports[i][0]);
    }
  }

  datatype L4Config = L4Config(routers: Table<Router>, services: Services)

  datatype L4Result = L4Result(listeners: seq<Listener>, desired: Desired)

  /** The routers' part of the build, from some ports already taken. */
  function RouteAll(cfg: Config, dia: Dialect, f: Family, backends: Index, routers: seq<Entry<Router>>,
                    taken: set<nat>, d: Desired): L4Result
    decreases routers
  {
    if routers == [] then L4Result([], d)
    else
      var r := routers[0];
      var mine := Claims(WantedBy(cfg, dia, f, backends, r.value), taken);
      var rest := RouteAll(cfg, dia, f, backends, routers[1..], taken + ToSet(mine),
                           AddRoute(cfg, dia, f, backends, r, mine, d));
      L4Result(Listeners(dia, f, mine) + rest.listeners, rest.desired)
  }

  /** The route of a router that owns ports. */
  function AddRoute(cfg: Config, dia: Dialect, f: Family, backends: Index, r: Entry<Router>, mine: seq<nat>,
                    d: Desired): Desired
    requires mine != [] ==> r.value.service in backends
  {
    if mine == [] then d else d[RouteKey(dia, f, r.key) := MakeRoute(cfg, dia, mine, backends[r.value.service])]
  }

  /** What the router at `i` adds. */
  lemma RouteStep(cfg: Config, dia: Dialect, f: Family, backends: Index, routers: seq<Entry<Router>>, i: nat,
                  taken: set<nat>, d: Desired)
    requires i < |routers|
    ensures var mine := Claims(WantedBy(cfg, dia, f, backends, routers[i].value), taken);
      (mine != [] ==> routers[i].value.service in backends) &&
      var rest := RouteAll(cfg, dia, f, backends, routers[i + 1..], taken + ToSet(mine),
                           AddRoute(cfg, dia, f, backends, routers[i], mine, d));
      RouteAll(cfg, dia, f, backends, routers[i..], taken, d) ==
      L4Result(Listeners(dia, f, mine) + rest.listeners, rest.desired)
  {
    assert routers[i..][0] == routers[i] && routers[i..][1..] == routers[i + 1..];
  }

  /** One protocol's block as the build sees it: classified services, routers, dialect. */
  datatype L4Plan = L4Plan(targets: seq<Target>, routers: seq<Entry<Router>>, dialect: Dialect)

  function BuildL4Spec(cfg: Config, naming: NamingScheme, f: Family, plan: L4Plan, d: Desired): L4Result
    requires TargetsSound(cfg, plan.targets)
  {
    var b := BuildAll(cfg, naming, f, plan.targets, Built(map[], d));
    RouteAll(cfg, plan.dialect, f, b.index, plan.routers, {}, b.desired)
  }

  function L4PlanOf(env: Env, l4: L4Config, f: Family): (r: L4Plan)
    ensures TargetsSound(env.cfg, r.targets)
  {
    L4Plan(L4Targets(env, l4.services), l4.routers, ProgramDialect(env.pf.hash, f))
  }

  lemma {:induction false} ListenersConcat(dia: Dialect, f: Family, a: seq<nat>, b: seq<nat>)
    ensures Listeners(dia, f, a + b) == Listeners(dia, f, a) + Listeners(dia, f, b)
  {
    if a == [] {
      assert a + b == b;
    } else {
      assert (a + b)[0] == a[0] && (a + b)[1..] == a[1..] + b;
      ListenersConcat(dia, f, a[1..], b);
    }
  }

  lemma {:induction false} SectionsConcat(dia: Dialect, a: seq<nat>, b: seq<nat>)
    ensures Sections(dia, a + b) == Sections(dia, a) + Sections(dia, b)
  {
    if a == [] {
      assert a + b == b;
    } else {
      assert (a + b)[0] == a[0] && (a + b)[1..] == a[1..] + b;
      SectionsConcat(dia, a[1..], b);
    }
  }

  /** The build is the allocation: its listeners are those of all allocated ports, its
      routes those of the routers that got any. */
  lemma {:induction false} RouteAllIsAllocation(cfg: Config, dia: Dialect, f: Family, backends: Index,
                                                routers: seq<Entry<Router>>, taken: set<nat>, d: Desired)
    ensures var ports := Allocate(AllWanted(cfg, dia, f, backends, routers), taken);
      && (forall i :: 0 <= i < |routers| && ports[i] != [] ==> routers[i].value.service in backends)
      && RouteAll(cfg, dia, f, backends, routers, taken, d) ==
         L4Result(Listeners(dia, f, Flatten(ports)), PutRoutes(cfg, dia, f, backends, routers, ports, d))
    decreases routers
  {
    OwnersAreEligible(cfg, dia, f, backends, routers, taken);
    if routers != [] {
      var w := AllWanted(cfg, dia, f, backends, routers);
      var mine := Claims(w[0], taken);
      assert w[1..] == AllWanted(cfg, dia, f, backends, routers[1..]);
      var ports := Allocate(w, taken);
      assert ports[0] == mine && ports[1..] == Allocate(w[1..], taken + ToSet(mine));
      ListenersConcat(dia, f, mine, Flatten(ports[1..]));
      RouteAllIsAllocation(cfg, dia, f, backends, routers[1..], taken + ToSet(mine),
                           AddRoute(cfg, dia, f, backends, routers[0], mine, d));
    }
  }

  /** One more port, in the forms the loop pushes. */
  lemma OneMorePort(dia: Dialect, f: Family, mine: seq<nat>, port: nat)
    ensures Listeners(dia, f, mine + [port]) == Listeners(dia, f, mine) + [MakeListener(dia, f, port)]
    ensures Sections(dia, mine + [port]) == Sections(dia, mine) + [dia.listener(port)]
    ensures ToSet(mine + [port]) == ToSet(mine) + {port}
  {
    ListenersConcat(dia, f, mine, [port]);
    SectionsConcat(dia, mine, [port]);
  }

  /** The inner loop over one router's entry points. */
  method ClaimPorts(cfg: Config, dia: Dialect, f: Family, router: string, entryPoints: seq<string>, before: map<nat,
                    string>)
    returns (claimed: map<nat, string>, listeners: seq<Listener>, sections: seq<string>)
    ensures var mine := Claims(Wanted(cfg, dia, f, entryPoints), before.Keys);
      && claimed.Keys == before.Keys + ToSet(mine)
      && listeners == Listeners(dia, f, mine) && sections == Sections(dia, mine)
  {
    claimed, listeners, sections := before, [], [];
    ghost var mine: seq<nat> := [];
    assert entryPoints[0..] == entryPoints && before.Keys + ToSet([]) == before.Keys;
    for i := 0 to |entryPoints|
      invariant ClaimedSoFar(cfg, dia, f, entryPoints, i, before.Keys, mine)
      invariant claimed.Keys == before.Keys + ToSet(mine)
      invariant listeners == Listeners(dia, f, mine) && sections == Sections(dia, mine)
    {
      ClaimedStep(cfg, dia, f, entryPoints, i, before.Keys, mine);
      var port := dia.entryPort(entryPoints[i]);
      if port.Some? && !Reserved(cfg, f, port.value) && port.value !in claimed {
        OneMorePort(dia, f, mine, port.value);
        assert claimed[port.value := router].Keys == claimed.Keys + {port.value};
        claimed := claimed[port.value := router];
        listeners := listeners + [MakeListener(dia, f, port.value)];
        sections := sections + [dia.listener(port.value)];
        mine := mine + [port.value];
      }
    }
    assert entryPoints[|entryPoints|..] == [] && mine + [] == mine;
  }

  /** The claims made so far and those still to come are the whole claim. */
  predicate ClaimedSoFar(cfg: Config, dia: Dialect, f: Family, eps: seq<string>, i: nat, taken: set<nat>,
                         mine: seq<nat>)
    requires i <= |eps|
  {
    mine + Claims(Wanted(cfg, dia, f, eps[i..]), taken + ToSet(mine)) == Claims(Wanted(cfg, dia, f, eps), taken)
  }

  lemma ClaimedStep(cfg: Config, dia: Dialect, f: Family, eps: seq<string>, i: nat, taken: set<nat>, mine: seq<nat>)
    requires i < |eps| && ClaimedSoFar(cfg, dia, f, eps, i, taken, mine)
    ensures var p := dia.entryPort(eps[i]);
      if p.None? || Reserved(cfg, f, p.value) || p.value in taken + ToSet(mine)
      then ClaimedSoFar(cfg, dia, f, eps, i + 1, taken, mine)
      else ClaimedSoFar(cfg, dia, f, eps, i + 1, taken, mine + [p.value])
  {
    ClaimStep(cfg, dia, f, eps, i, taken + ToSet(mine));
    var p := dia.entryPort(eps[i]);
    if p.Some? && !Reserved(cfg, f, p.value) && p.value !in taken + ToSet(mine) {
      OneMorePort(dia, f, mine, p.value);
      assert taken + ToSet(mine + [p.value]) == taken + ToSet(mine) + {p.value};
      var more := Claims(Wanted(cfg, dia, f, eps[i + 1..]), taken + ToSet(mine + [p.value]));
      assert mine + ([p.value] + more) == (mine + [p.value]) + more;
    }
  }

  /** What the entry point at `i` contributes to the claims. */
  lemma ClaimStep(cfg: Config, dia: Dialect, f: Family, eps: seq<string>, i: nat, taken: set<nat>)
    requires i < |eps|
    ensures var p := dia.entryPort(eps[i]);
      var rest := Wanted(cfg, dia, f, eps[i + 1..]);
      Claims(Wanted(cfg, dia, f, eps[i..]), taken) ==
      if p.None? || Reserved(cfg, f, p.value) || p.value in taken then Claims(rest, taken)
      else [p.value] + Claims(rest, taken + {p.value})
  {
    var p := dia.entryPort(eps[i]);
    assert eps[i..][0] == eps[i] && eps[i..][1..] == eps[i + 1..];
    var rest := Wanted(cfg, dia, f, eps[i + 1..]);
    if p.Some? && !Reserved(cfg, f, p.value) {
      assert Wanted(cfg, dia, f, eps[i..]) == [p.value] + rest;
      assert ([p.value] + rest)[1..] == rest;
    } else {
      assert [] + rest == rest;
    }
  }

  /** The program's loops: routers in name order, entry points in order. */
  method BuildL4(env: Env, l4: L4Config, f: Family,
                 before: Desired) returns (listeners: seq<Listener>, desired: Desired)
    requires f != Http
    ensures L4Result(listeners, desired) == BuildL4Spec(env.cfg, ProgramNaming(env.pf), f, L4PlanOf(env, l4, f), before)
  {
    var backends;
    backends, desired := BuildL4Backends(env, l4.services, f, before);
    listeners, desired := RouteRouters(env.cfg, ProgramDialect(env.pf.hash, f), f, backends, l4.routers, desired);
  }

  /** One router: claim its ports, and emit its route if it got any. */
  method RouteOne(cfg: Config, dia: Dialect, f: Family, backends: Index, e: Entry<Router>, before: map<nat, string>,
                  d: Desired)
    returns (claimed: map<nat, string>, listeners: seq<Listener>, desired: Desired)
    ensures var mine := Claims(WantedBy(cfg, dia, f, backends, e.value), before.Keys);
      && (mine != [] ==> e.value.service in backends)
      && claimed.Keys == before.Keys + ToSet(mine)
      && listeners == Listeners(dia, f, mine) && desired == AddRoute(cfg, dia, f, backends, e, mine, d)
  {
    claimed, listeners, desired := before, [], d;
    var router := e.value;
    if !dia.supported(router) || router.service !in backends {
      return;
    }
    var sections;
    claimed, listeners, sections := ClaimPorts(cfg, dia, f, e.key, router.entryPoints, before);
    if sections == [] {
      return;
    }
    desired := desired[RouteKey(dia, f, e.key) :=
                         Obj(OwnerLabels(cfg), L4RouteBody(sections, backends[router.service]))];
  }

  method RouteRouters(cfg: Config, dia: Dialect, f: Family, backends: Index, routers: Table<Router>, before: Desired)
    returns (listeners: seq<Listener>, desired: Desired)
    ensures L4Result(listeners, desired) == RouteAll(cfg, dia, f, backends, routers, {}, before)
  {
    listeners, desired := [], before;
    var claimed: map<nat, string> := map[];
    ghost var all := RouteAll(cfg, dia, f, backends, routers, {}, before);
    assert routers[0..] == routers && claimed.Keys == {} && [] + all.listeners == all.listeners;
    for i := 0 to |routers|
      invariant RoutedSoFar(cfg, dia, f, backends, routers, i, claimed.Keys, L4Result(listeners, desired), all)
    {
      var added;
      RoutedStep(cfg, dia, f, backends, routers, i, claimed.Keys, L4Result(listeners, desired), all);
      claimed, added, desired := RouteOne(cfg, dia, f, backends, routers[i], claimed, desired);
      listeners := listeners + added;
    }
    assert routers[|routers|..] == [] && listeners + [] == listeners;
  }

  /** What the routers done so far gave, extended by the rest, is the whole result. */
  predicate RoutedSoFar(cfg: Config, dia: Dialect, f: Family, backends: Index, routers: seq<Entry<Router>>, i: nat,
                        taken: set<nat>, done: L4Result, all: L4Result)
    requires i <= |routers|
  {
    var rest := RouteAll(cfg, dia, f, backends, routers[i..], taken, done.desired);
    L4Result(done.listeners + rest.listeners, rest.desired) == all
  }

  lemma RoutedStep(cfg: Config, dia: Dialect, f: Family, backends: Index, routers: seq<Entry<Router>>, i: nat,
                   taken: set<nat>, done: L4Result, all: L4Result)
    requires i < |routers| && RoutedSoFar(cfg, dia, f, backends, routers, i, taken, done, all)
    ensures var mine := Claims(WantedBy(cfg, dia, f, backends, routers[i].value), taken);
      (mine != [] ==> routers[i].value.service in backends) &&
      RoutedSoFar(cfg, dia, f, backends, routers, i + 1, taken + ToSet(mine),
                  L4Result(done.listeners + Listeners(dia, f, mine),
                           AddRoute(cfg, dia, f, backends, routers[i], mine, done.desired)), all)
  {
    RouteStep(cfg, dia, f, backends, routers, i, taken, done.desired);
    var mine := Claims(WantedBy(cfg, dia, f, backends, routers[i].value), taken);
    var ls := Listeners(dia, f, mine);
    var rest := RouteAll(cfg, dia, f, backends, routers[i + 1..], taken + ToSet(mine),
                         AddRoute(cfg, dia, f, backends, routers[i], mine, done.desired));
    assert done.listeners + (ls + rest.listeners) == (done.listeners + ls) + rest.listeners;
  }
}
