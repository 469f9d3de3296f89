/** Where traffic for an indexed backend ends up in the finished manifest, and which
    Services keep a slice of their own. */
module Reach {
  import opened Prelude
  import opened Objects
  import opened Backend
  import opened Emit
  import opened L4
  import opened Routes
  import opened Build

  /** A service that gets synthesised objects, with its classification. */
  datatype Use = Use(named: Named, c: Classification)

  /** Does the classification get objects of its own, rather than a direct reference? */
  predicate Synthesised(cfg: Config, c: Classification) {
    c.Ips? || c.Fqdn? || (c.ClusterDns? && c.tls && cfg.backendKind == EnvoyBackendMode)
  }

  /** The servers the classification stands for. */
  ghost function Served(c: Classification): set<Endpoint> {
    match c
    case Ips(ips, port, _) => set a | a in ips :: IpEndpoint(a, port)
    case Fqdn(host, port, _) => {FqdnEndpoint(host, port)}
    case ClusterDns(svc, namespace, port, _) => {FqdnEndpoint(svc + "." + namespace + ".svc.cluster.local", port)}
    case Empty => {}
  }

  /** The reference that routes to the service carry. */
  function RefOf(cfg: Config, ns: Names, c: Classification): BackendRef
    requires !c.Empty?
  {
    match c
    case ClusterDns(svc, namespace, port, tls) =>
      if tls && cfg.backendKind == EnvoyBackendMode
      then BackendRef("gateway.envoyproxy.io", "Backend", ns.backend, None, port)
      else BackendRef("", "Service", svc, Some(namespace), port)
    case Ips(_, port, _) =>
      if cfg.backendKind == ServiceMode then BackendRef("", "Service", ns.service, None, port)
      else BackendRef("gateway.envoyproxy.io", "Backend", ns.backend, None, port)
    case Fqdn(_, port, _) => BackendRef("gateway.envoyproxy.io", "Backend", ns.backend, None, port)
  }

  /** The synthesised name traffic goes by. */
  function HandleOf(cfg: Config, naming: NamingScheme, u: Use): string {
    if cfg.backendKind == ServiceMode then naming(u.named).service else naming(u.named).backend
  }

  /** The key of the object that holds the servers. */
  function SlotOf(cfg: Config, naming: NamingScheme, u: Use): Key {
    if cfg.backendKind == ServiceMode then Key(EndpointSlice, naming(u.named).slice)
    else Key(EnvoyBackend, naming(u.named).backend)
  }

  predicate UseSound(cfg: Config, u: Use) {
    Sound(cfg, u.c) && Synthesised(cfg, u.c)
  }

  predicate UsesSound(cfg: Config, us: seq<Use>) {
    forall i :: 0 <= i < |us| ==> UseSound(cfg, us[i])
  }

  lemma EmissionRef(cfg: Config, ns: Names, c: Classification, protocol: string, skipVerify: bool, d: Desired)
    requires Sound(cfg, c)
    ensures EmitBackend(cfg, ns, c, protocol, skipVerify, d).0 == if c.Empty? then None else Some(RefOf(cfg, ns, c))
  {}

  lemma SynthesisedRef(cfg: Config, naming: NamingScheme, u: Use)
    requires UseSound(cfg, u)
    ensures var r := RefOf(cfg, naming(u.named), u.c);
      && r.name == HandleOf(cfg, naming, u) && r.namespace.None?
      && (r.kind == "Backend" <==> cfg.backendKind == EnvoyBackendMode)
  {
    assert "Service" != "Backend";
  }

  // ---- Objects that hold servers ----------------------------------------------------------------

  ghost function EndpointsOf(b: Body): set<Endpoint> {
    match b
    case EndpointSliceBody(addresses, port, _) => set a | a in addresses :: IpEndpoint(a, port)
    case EnvoyBackendBody(endpoints, _) => set e | e in endpoints
    case _ => {}
  }

  /** Does traffic for the reference go to the servers of this object? */
  predicate Feeds(k: Key, o: Obj, r: BackendRef) {
    if r.kind == "Backend" then k == Key(EnvoyBackend, r.name) && o.body.EnvoyBackendBody?
    else ClaimsService(k, o, r.name) && o.body.EndpointSliceBody?
  }

  lemma ReachesExactly(d: Desired, r: BackendRef, e: Endpoint)
    ensures e in Reaches(d, r) <==> exists k :: k in d && Feeds(k, d[k], r) && e in EndpointsOf(d[k].body)
  {
    if r.kind == "Backend" {
      if e in Reaches(d, r) { assert Feeds(Key(EnvoyBackend, r.name), d[Key(EnvoyBackend, r.name)], r); }
    } else if e in Reaches(d, r) {
      var k, a :| k in d && ClaimsService(k, d[k], r.name) && d[k].body.EndpointSliceBody?
        && a in d[k].body.addresses && e == IpEndpoint(a, d[k].body.port);
      assert Feeds(k, d[k], r);
    }
  }

  /** The object holds the servers of this service and, if it is a slice, its label. */
  ghost predicate Carries(cfg: Config, ns: Names, c: Classification, o: Obj) {
    && EndpointsOf(o.body) == Served(c)
    && if cfg.backendKind == ServiceMode then
      o.body.EndpointSliceBody? && SERVICE_NAME_LABEL in o.labels && o.labels[SERVICE_NAME_LABEL] == ns.service
    else o.body.EnvoyBackendBody?
  }

  /** An object that carries one service feeds the references that share its name. */
  lemma CarrierFeedsIff(cfg: Config, naming: NamingScheme, u: Use, v: Use, o: Obj)
    requires UseSound(cfg, u) && UseSound(cfg, v) && Carries(cfg, naming(u.named), u.c, o)
    ensures Feeds(SlotOf(cfg, naming, u), o, RefOf(cfg, naming(v.named), v.c)) <==>
            HandleOf(cfg, naming, u) == HandleOf(cfg, naming, v)
  {
    SynthesisedRef(cfg, naming, v);
  }

  // ---- One emission -----------------------------------------------------------------------------

  /** Kinds that decide where traffic goes. */
  predicate Backing(kind: Kind) {
    kind == Service || kind == EndpointSlice || kind == EnvoyBackend
  }

  predicate SameAt(d: Desired, d': Desired, k: Key) {
    (k in d <==> k in d') && (k in d ==> d'[k] == d[k])
  }

  ghost predicate SameBacking(d: Desired, d': Desired) {
    forall k: Key :: Backing(k.kind) ==> SameAt(d, d', k)
  }

  /** Where the service's Service and servers go. */
  function OwnKeys(cfg: Config, naming: NamingScheme, u: Use): set<Key> {
    {SlotOf(cfg, naming, u)}
    + (if cfg.backendKind == ServiceMode then {Key(Service, naming(u.named).service)} else {})
  }

  /** The service's own Service and server object are put in place; nothing else moves. */
  ghost predicate Places(cfg: Config, naming: NamingScheme, u: Use, d: Desired, d': Desired) {
    var slot := SlotOf(cfg, naming, u);
    && slot in d' && Carries(cfg, naming(u.named), u.c, d'[slot])
    && (cfg.backendKind == ServiceMode ==> Key(Service, naming(u.named).service) in d')
    && forall k: Key :: Backing(k.kind) && k !in OwnKeys(cfg, naming, u) ==> SameAt(d, d', k)
  }

  lemma IpEndpointsAre(ips: seq<string>, port: int)
    ensures (set e | e in IpEndpoints(ips, port)) == set a | a in ips :: IpEndpoint(a, port)
  {
    var es := IpEndpoints(ips, port);
    forall a | a in ips ensures IpEndpoint(a, port) in es {
      var i :| 0 <= i < |ips| && ips[i] == a;
      assert es[i] == IpEndpoint(a, port);
    }
  }

  lemma EmissionPlaces(cfg: Config, naming: NamingScheme, u: Use, protocol: string, skipVerify: bool, d: Desired)
    requires UseSound(cfg, u)
    ensures Places(cfg, naming, u, d, EmitBackend(cfg, naming(u.named), u.c, protocol, skipVerify, d).1)
  {
    if u.c.Ips? { IpEndpointsAre(u.c.entries, u.c.port); }
    var ns, slot := naming(u.named), SlotOf(cfg, naming, u);
    var d' := EmitBackend(cfg, ns, u.c, protocol, skipVerify, d).1;
    assert EndpointsOf(d'[slot].body) == Served(u.c);
  }

  /** Direct references add at most a TLS policy. */
  lemma DirectEmissionFrame(cfg: Config, ns: Names, c: Classification, protocol: string, skipVerify: bool, d: Desired)
    requires Sound(cfg, c) && !Synthesised(cfg, c)
    ensures SameBacking(d, EmitBackend(cfg, ns, c, protocol, skipVerify, d).1)
  {}

  // ---- What a manifest holds after a series of emissions --------------------------------------------

  /** No later service of the series takes this one's slot. */
  predicate IsFinal(cfg: Config, naming: NamingScheme, us: seq<Use>, i: int) {
    0 <= i < |us| && forall j :: i < j < |us| ==> SlotOf(cfg, naming, us[j]) != SlotOf(cfg, naming, us[i])
  }

  predicate InSlots(cfg: Config, naming: NamingScheme, us: seq<Use>, k: Key) {
    exists i :: 0 <= i < |us| && SlotOf(cfg, naming, us[i]) == k
  }

  predicate InServices(naming: NamingScheme, us: seq<Use>, name: string) {
    exists i :: 0 <= i < |us| && naming(us[i].named).service == name
  }

  ghost predicate Held(cfg: Config, naming: NamingScheme, u: Use, d: Desired) {
    var slot := SlotOf(cfg, naming, u);
    slot in d && Carries(cfg, naming(u.named), u.c, d[slot])
  }

  /** Every slot holds what the last service of the series put there, and no others exist. */
  ghost predicate SlotsPlaced(cfg: Config, naming: NamingScheme, us: seq<Use>, d: Desired) {
    && (forall k :: k in d && (k.kind == EndpointSlice || k.kind == EnvoyBackend) ==> InSlots(cfg, naming, us, k))
    && (forall i :: IsFinal(cfg, naming, us, i) ==> Held(cfg, naming, us[i], d))
  }

  /** In service mode the Services are those of the series. */
  ghost predicate ServicesPlaced(cfg: Config, naming: NamingScheme, us: seq<Use>, d: Desired) {
    cfg.backendKind == ServiceMode ==> forall name :: Key(Service, name) in d <==> InServices(naming, us, name)
  }

  ghost predicate Placed(cfg: Config, naming: NamingScheme, us: seq<Use>, d: Desired) {
    SlotsPlaced(cfg, naming, us, d) && ServicesPlaced(cfg, naming, us, d)
  }

  /** The last service of the series with the same slot. */
  lemma {:induction false} LastInSlot(cfg: Config, naming: NamingScheme, us: seq<Use>, i: nat) returns (j: nat)
    requires i < |us|
    ensures i <= j && IsFinal(cfg, naming, us, j) && SlotOf(cfg, naming, us[j]) == SlotOf(cfg, naming, us[i])
    decreases |us| - i
  {
    if IsFinal(cfg, naming, us, i) {
      j := i;
    } else {
      var k :| i < k < |us| && SlotOf(cfg, naming, us[k]) == SlotOf(cfg, naming, us[i]);
      j := LastInSlot(cfg, naming, us, k);
    }
  }

  lemma SameBackingKeeps(cfg: Config, naming: NamingScheme, us: seq<Use>, d: Desired, d': Desired)
    requires Placed(cfg, naming, us, d) && SameBacking(d, d')
    ensures Placed(cfg, naming, us, d')
  {
    forall i | IsFinal(cfg, naming, us, i) ensures Held(cfg, naming, us[i], d') {
      assert Held(cfg, naming, us[i], d) && SameAt(d, d', SlotOf(cfg, naming, us[i]));
    }
    forall k | k in d' && Backing(k.kind) ensures k in d { assert SameAt(d, d', k); }
    forall name ensures Key(Service, name) in d' <==> Key(Service, name) in d {
      assert SameAt(d, d', Key(Service, name));
    }
  }

  lemma FinalBefore(cfg: Config, naming: NamingScheme, us: seq<Use>, u: Use, i: nat)
    requires IsFinal(cfg, naming, us + [u], i) && i < |us|
    ensures IsFinal(cfg, naming, us, i) && SlotOf(cfg, naming, us[i]) != SlotOf(cfg, naming, u)
  {
    var vs := us + [u];
    assert vs[|us|] == u && vs[i] == us[i];
    forall j | i < j < |us| ensures SlotOf(cfg, naming, us[j]) != SlotOf(cfg, naming, us[i]) { assert vs[j] == us[j]; }
  }

  lemma InSlotsSnoc(cfg: Config, naming: NamingScheme, us: seq<Use>, u: Use, k: Key)
    ensures InSlots(cfg, naming, us + [u], k) <==> InSlots(cfg, naming, us, k) || SlotOf(cfg, naming, u) == k
  {
    var vs := us + [u];
    assert vs[|us|] == u;
    if InSlots(cfg, naming, us, k) {
      var i :| 0 <= i < |us| && SlotOf(cfg, naming, us[i]) == k;
      assert vs[i] == us[i];
    }
  }

  lemma InServicesSnoc(naming: NamingScheme, us: seq<Use>, u: Use, name: string)
    ensures InServices(naming, us + [u], name) <==> InServices(naming, us, name) || naming(u.named).service == name
  {
    var vs := us + [u];
    assert vs[|us|] == u;
    if InServices(naming, us, name) {
      var i :| 0 <= i < |us| && naming(us[i].named).service == name;
      assert vs[i] == us[i];
    }
  }

  lemma PlacingExtends(cfg: Config, naming: NamingScheme, us: seq<Use>, u: Use, d: Desired, d': Desired)
    requires Placed(cfg, naming, us, d) && Places(cfg, naming, u, d, d')
    ensures Placed(cfg, naming, us + [u], d')
  {
    PlacingExtendsSlots(cfg, naming, us, u, d, d');
    PlacingExtendsServices(cfg, naming, us, u, d, d');
  }

  lemma PlacingExtendsSlots(cfg: Config, naming: NamingScheme, us: seq<Use>, u: Use, d: Desired, d': Desired)
    requires SlotsPlaced(cfg, naming, us, d) && Places(cfg, naming, u, d, d')
    ensures SlotsPlaced(cfg, naming, us + [u], d')
  {
    forall i | IsFinal(cfg, naming, us + [u], i) ensures Held(cfg, naming, (us + [u])[i], d') {
      if i < |us| {
        FinalBefore(cfg, naming, us, u, i);
        assert Held(cfg, naming, us[i], d) && SameAt(d, d', SlotOf(cfg, naming, us[i]));
      } else {
        assert (us + [u])[i] == u;
      }
    }
    forall k | k in d' && (k.kind == EndpointSlice || k.kind == EnvoyBackend)
      ensures InSlots(cfg, naming, us + [u], k)
    {
      InSlotsSnoc(cfg, naming, us, u, k);
      assert k == SlotOf(cfg, naming, u) || SameAt(d, d', k);
    }
  }

  lemma PlacingExtendsServices(cfg: Config, naming: NamingScheme, us: seq<Use>, u: Use, d: Desired, d': Desired)
    requires ServicesPlaced(cfg, naming, us, d) && Places(cfg, naming, u, d, d')
    ensures ServicesPlaced(cfg, naming, us + [u], d')
  {
    if cfg.backendKind == ServiceMode {
      forall name ensures Key(Service, name) in d' <==> InServices(naming, us + [u], name) {
        InServicesSnoc(naming, us, u, name);
        assert name == naming(u.named).service || SameAt(d, d', Key(Service, name));
      }
    }
  }

  // ---- The build loops ---------------------------------------------------------------------------

  /** The services of one family that get objects, in build order. */
  function UsesOf(cfg: Config, f: Family, ts: seq<Target>): seq<Use> {
    if ts == [] then []
    else (if Synthesised(cfg, ts[0].c) then [Use(Named(f, ts[0].name), ts[0].c)] else []) + UsesOf(cfg, f, ts[1..])
  }

  lemma {:induction false} UsesOfSound(cfg: Config, f: Family, ts: seq<Target>)
    requires TargetsSound(cfg, ts)
    ensures UsesSound(cfg, UsesOf(cfg, f, ts))
  {
    if ts != [] { UsesOfSound(cfg, f, ts[1..]); }
  }

  lemma {:induction false} BuildPlaces(cfg: Config, naming: NamingScheme, us: seq<Use>, f: Family, ts: seq<Target>,
                                       b: Built)
    requires TargetsSound(cfg, ts) && Placed(cfg, naming, us, b.desired)
    ensures Placed(cfg, naming, us + UsesOf(cfg, f, ts), BuildAll(cfg, naming, f, ts, b).desired)
    decreases ts
  {
    if ts == [] {
      assert us + [] == us;
    } else {
      var t, b' := ts[0], BuildOne(cfg, naming, f, ts[0], b);
      var own := if Synthesised(cfg, t.c) then [Use(Named(f, t.name), t.c)] else [];
      if Synthesised(cfg, t.c) {
        EmissionPlaces(cfg, naming, own[0], Protocol(f), t.skipVerify, b.desired);
        PlacingExtends(cfg, naming, us, own[0], b.desired, b'.desired);
      } else {
        DirectEmissionFrame(cfg, naming(Named(f, t.name)), t.c, Protocol(f), t.skipVerify, b.desired);
        SameBackingKeeps(cfg, naming, us, b.desired, b'.desired);
        assert us + own == us;
      }
      BuildPlaces(cfg, naming, us + own, f, ts[1..], b');
      Assoc(us, own, UsesOf(cfg, f, ts[1..]));
    }
  }

  // ---- The finished manifest ---------------------------------------------------------------------------

  /** Phases that add no backing objects move none. */
  lemma AddsFrame(cfg: Config, kinds: set<Kind>, d: Desired, d': Desired)
    requires Adds(cfg, kinds, d, d') && Service !in kinds && EndpointSlice !in kinds && EnvoyBackend !in kinds
    ensures SameBacking(d, d')
  {}

  function FamilyUses(cfg: Config, block: Option<L4Plan>, f: Family, enabled: bool): seq<Use> {
    if block.Some? && enabled then UsesOf(cfg, f, block.value.targets) else []
  }

  /** The services of the plan that get objects, in the order they are built. */
  function PlanUses(p: Plan): seq<Use> {
    UsesOf(p.cfg, Http, p.targets) + FamilyUses(p.cfg, p.tcp, Tcp, p.cfg.enableTcpRoutes)
    + FamilyUses(p.cfg, p.udp, Udp, p.cfg.enableUdpRoutes)
  }

  lemma PlanUsesSound(p: Plan)
    requires PlanSound(p)
    ensures UsesSound(p.cfg, PlanUses(p))
  {
    UsesOfSound(p.cfg, Http, p.targets);
    if p.tcp.Some? { UsesOfSound(p.cfg, Tcp, p.tcp.value.targets); }
    if p.udp.Some? { UsesOfSound(p.cfg, Udp, p.udp.value.targets); }
  }

  lemma FamilyPlaces(cfg: Config, naming: NamingScheme, us: seq<Use>, block: Option<L4Plan>, f: Family, enabled: bool,
                     d: Desired)
    requires block.Some? ==> TargetsSound(cfg, block.value.targets) && DialectValid(block.value.dialect)
    requires f != Http && NamingValid(naming) && RefsResolve(d) && Placed(cfg, naming, us, d)
    ensures Placed(cfg, naming, us + FamilyUses(cfg, block, f, enabled),
                   L4Family(cfg, naming, block, f, enabled, d).desired)
  {
    if block.Some? && enabled {
      var plan, start := block.value, Built(map[], d);
      var b := BuildAll(cfg, naming, f, plan.targets, start);
      var routed := RouteAll(cfg, plan.dialect, f, b.index, plan.routers, {}, b.desired);
      BuildPlaces(cfg, naming, us, f, plan.targets, start);
      BuildResolves(cfg, naming, f, plan.targets, start);
      BackendsAdd(cfg, d, b.desired);
      AddsKeepsRefs(cfg, BackendKinds(cfg), d, b.desired);
      RouteAllAdds(cfg, plan.dialect, f, b.index, plan.routers, {}, b.desired);
      AddsFrame(cfg, {RouteKind(f)}, b.desired, routed.desired);
      SameBackingKeeps(cfg, naming, us + UsesOf(cfg, f, plan.targets), b.desired, routed.desired);
    } else {
      assert us + [] == us;
    }
  }

  lemma HttpPlaces(p: Plan)
    requires PlanValid(p)
    ensures Placed(p.cfg, p.naming, UsesOf(p.cfg, Http, p.targets), HttpRoutes(p).desired)
  {
    var start, b := Built(map[], map[]), HttpBackends(p);
    var us := UsesOf(p.cfg, Http, p.targets);
    BuildPlaces(p.cfg, p.naming, [], Http, p.targets, start);
    assert [] + us == us;
    BuildResolves(p.cfg, p.naming, Http, p.targets, start);
    BackendsAdd(p.cfg, map[], b.desired);
    AddsKeepsRefs(p.cfg, BackendKinds(p.cfg), map[], b.desired);
    RoutesAdd(p.cfg, p.lens, b.index, p.routers, RouteState([], [], b.desired));
    AddsFrame(p.cfg, {HTTPRoute, SecurityPolicy}, b.desired, HttpRoutes(p).desired);
    SameBackingKeeps(p.cfg, p.naming, us, b.desired, HttpRoutes(p).desired);
  }

  lemma ManifestIsPlaced(p: Plan)
    requires PlanValid(p)
    ensures Placed(p.cfg, p.naming, PlanUses(p), BuildSpec(p))
  {
    var http, tcp := UsesOf(p.cfg, Http, p.targets), FamilyUses(p.cfg, p.tcp, Tcp, p.cfg.enableTcpRoutes);
    HttpPhases(p);
    TcpPhase(p);
    HttpPlaces(p);
    FamilyPlaces(p.cfg, p.naming, http, p.tcp, Tcp, p.cfg.enableTcpRoutes, HttpRoutes(p).desired);
    FamilyPlaces(p.cfg, p.naming, http + tcp, p.udp, Udp, p.cfg.enableUdpRoutes, TcpPart(p).desired);
    WholeBuildAdds(p);
    AddsFrame(p.cfg, {ListenerSet}, UdpPart(p).desired, BuildSpec(p));
    SameBackingKeeps(p.cfg, p.naming, PlanUses(p), UdpPart(p).desired, BuildSpec(p));
  }

  // ---- Where references lead ---------------------------------------------------------------------------

  /** The servers put in place under the name and not overwritten later. */
  ghost function ServedUnder(cfg: Config, naming: NamingScheme, us: seq<Use>, handle: string): set<Endpoint> {
    set j, e | 0 <= j < |us| && IsFinal(cfg, naming, us, j) && HandleOf(cfg, naming, us[j]) == handle
      && e in Served(us[j].c) :: e
  }

  lemma PlacedFeeds(cfg: Config, naming: NamingScheme, us: seq<Use>, d: Desired, i: nat, j: nat)
    requires UsesSound(cfg, us) && Placed(cfg, naming, us, d) && i < |us| && IsFinal(cfg, naming, us, j)
    ensures var k, r := SlotOf(cfg, naming, us[j]), RefOf(cfg, naming(us[i].named), us[i].c);
      && k in d && EndpointsOf(d[k].body) == Served(us[j].c)
      && (Feeds(k, d[k], r) <==> HandleOf(cfg, naming, us[j]) == HandleOf(cfg, naming, us[i]))
  {
    assert Held(cfg, naming, us[j], d);
    CarrierFeedsIff(cfg, naming, us[j], us[i], d[SlotOf(cfg, naming, us[j])]);
  }

  lemma PlacedReachesAt(cfg: Config, naming: NamingScheme, us: seq<Use>, d: Desired, i: nat, e: Endpoint)
    requires UsesSound(cfg, us) && Placed(cfg, naming, us, d) && i < |us|
    ensures e in Reaches(d, RefOf(cfg, naming(us[i].named), us[i].c)) <==>
            e in ServedUnder(cfg, naming, us, HandleOf(cfg, naming, us[i]))
  {
    var r := RefOf(cfg, naming(us[i].named), us[i].c);
    var served := ServedUnder(cfg, naming, us, HandleOf(cfg, naming, us[i]));
    ReachesExactly(d, r, e);
    if e in Reaches(d, r) {
      var k :| k in d && Feeds(k, d[k], r) && e in EndpointsOf(d[k].body);
      assert InSlots(cfg, naming, us, k);
      var at :| 0 <= at < |us| && SlotOf(cfg, naming, us[at]) == k;
      var j := LastInSlot(cfg, naming, us, at);
      PlacedFeeds(cfg, naming, us, d, i, j);
    }
    if e in served {
      var j :| 0 <= j < |us| && IsFinal(cfg, naming, us, j)
        && HandleOf(cfg, naming, us[j]) == HandleOf(cfg, naming, us[i]) && e in Served(us[j].c);
      PlacedFeeds(cfg, naming, us, d, i, j);
    }
  }

  lemma PlacedReaches(cfg: Config, naming: NamingScheme, us: seq<Use>, d: Desired, i: nat)
    requires UsesSound(cfg, us) && Placed(cfg, naming, us, d) && i < |us|
    ensures Reaches(d, RefOf(cfg, naming(us[i].named), us[i].c)) ==
            ServedUnder(cfg, naming, us, HandleOf(cfg, naming, us[i]))
  {
    forall e ensures e in Reaches(d, RefOf(cfg, naming(us[i].named), us[i].c)) <==>
                     e in ServedUnder(cfg, naming, us, HandleOf(cfg, naming, us[i]))
    {
      PlacedReachesAt(cfg, naming, us, d, i, e);
    }
  }

  /** Main result: a reference reaches exactly the servers of the services that share its name
      and whose slot no later service of the build took. */
  lemma ReferenceReaches(p: Plan, i: nat)
    requires PlanValid(p) && i < |PlanUses(p)|
    ensures UsesSound(p.cfg, PlanUses(p))
    ensures var u := PlanUses(p)[i];
      Reaches(BuildSpec(p), RefOf(p.cfg, p.naming(u.named), u.c)) ==
      ServedUnder(p.cfg, p.naming, PlanUses(p), HandleOf(p.cfg, p.naming, u))
  {
    PlanUsesSound(p);
    ManifestIsPlaced(p);
    PlacedReaches(p.cfg, p.naming, PlanUses(p), BuildSpec(p), i);
  }

  /** Services that share a name have the same servers. */
  ghost predicate SharingAgrees(cfg: Config, naming: NamingScheme, us: seq<Use>) {
    forall i, j :: 0 <= i < |us| && 0 <= j < |us| && HandleOf(cfg, naming, us[i]) == HandleOf(cfg, naming, us[j]) ==>
      Served(us[i].c) == Served(us[j].c)
  }

  /** Under each name some slot is not overwritten. */
  ghost predicate NamesKeepSlots(cfg: Config, naming: NamingScheme, us: seq<Use>) {
    forall i :: 0 <= i < |us| ==> NameKeepsSlot(cfg, naming, us, HandleOf(cfg, naming, us[i]))
  }

  ghost predicate NameKeepsSlot(cfg: Config, naming: NamingScheme, us: seq<Use>, handle: string) {
    exists j :: IsFinal(cfg, naming, us, j) && HandleOf(cfg, naming, us[j]) == handle
  }

  /** Does every service's reference reach exactly the servers it was classified to have? */
  ghost predicate AllReached(p: Plan)
    requires PlanSound(p)
  {
    forall i :: 0 <= i < |PlanUses(p)| ==> Reached(p, PlanUses(p)[i])
  }

  ghost predicate Reached(p: Plan, u: Use)
    requires PlanSound(p)
  {
    !u.c.Empty? && Reaches(BuildSpec(p), RefOf(p.cfg, p.naming(u.named), u.c)) == Served(u.c)
  }

  lemma ServedIsNotEmpty(cfg: Config, u: Use)
    requires UseSound(cfg, u)
    ensures Served(u.c) != {}
  {
    if u.c.Ips? { assert IpEndpoint(u.c.entries[0], u.c.port) in Served(u.c); }
  }

  lemma ServedUnderIff(cfg: Config, naming: NamingScheme, us: seq<Use>)
    requires UsesSound(cfg, us)
    ensures (forall i :: 0 <= i < |us| ==>
              ServedUnder(cfg, naming, us, HandleOf(cfg, naming, us[i])) == Served(us[i].c))
            <==> SharingAgrees(cfg, naming, us) && NamesKeepSlots(cfg, naming, us)
  {
    if SharingAgrees(cfg, naming, us) && NamesKeepSlots(cfg, naming, us) {
      forall i | 0 <= i < |us| ensures ServedUnder(cfg, naming, us, HandleOf(cfg, naming, us[i])) == Served(us[i].c) {
        assert NameKeepsSlot(cfg, naming, us, HandleOf(cfg, naming, us[i]));
        var j :| IsFinal(cfg, naming, us, j) && HandleOf(cfg, naming, us[j]) == HandleOf(cfg, naming, us[i]);
        assert forall e :: e in Served(us[j].c) ==> e in ServedUnder(cfg, naming, us, HandleOf(cfg, naming, us[i]));
      }
    }
    if forall i :: 0 <= i < |us| ==> ServedUnder(cfg, naming, us, HandleOf(cfg, naming, us[i])) == Served(us[i].c) {
      forall i | 0 <= i < |us| ensures NameKeepsSlot(cfg, naming, us, HandleOf(cfg, naming, us[i])) {
        ServedIsNotEmpty(cfg, us[i]);
        var e :| e in ServedUnder(cfg, naming, us, HandleOf(cfg, naming, us[i]));
      }
    }
  }

  /** Main result: in the finished manifest the reference of every service that gets objects
      reaches exactly the servers it was classified to have if and only if services that
      share a name have the same servers and under each name some slot is not overwritten. */
  lemma ReferencesReachIff(p: Plan)
    requires PlanValid(p)
    ensures AllReached(p) <==>
            SharingAgrees(p.cfg, p.naming, PlanUses(p)) && NamesKeepSlots(p.cfg, p.naming, PlanUses(p))
  {
    var us := PlanUses(p);
    PlanUsesSound(p);
    forall i | 0 <= i < |us|
      ensures Reached(p, us[i]) <==>
              ServedUnder(p.cfg, p.naming, us, HandleOf(p.cfg, p.naming, us[i])) == Served(us[i].c)
    {
      ReferenceReaches(p, i);
    }
    ServedUnderIff(p.cfg, p.naming, us);
  }

  // ---- Services and their slices -------------------------------------------------------------------------

  ghost predicate HasSlice(d: Desired, service: string) {
    exists k :: k in d && ClaimsService(k, d[k], service)
  }

  ghost predicate ServicesHaveSlices(d: Desired) {
    forall k :: k in d && k.kind == Service ==> HasSlice(d, k.name)
  }

  /** A Service has a slice labelled with it exactly when one of its slots is not overwritten. */
  lemma HasSliceIff(cfg: Config, naming: NamingScheme, us: seq<Use>, d: Desired, service: string)
    requires cfg.backendKind == ServiceMode && Placed(cfg, naming, us, d)
    ensures HasSlice(d, service) <==> NameKeepsSlot(cfg, naming, us, service)
  {
    if HasSlice(d, service) {
      var k :| k in d && ClaimsService(k, d[k], service);
      assert InSlots(cfg, naming, us, k);
      var at :| 0 <= at < |us| && SlotOf(cfg, naming, us[at]) == k;
      var j := LastInSlot(cfg, naming, us, at);
      assert Held(cfg, naming, us[j], d) && HandleOf(cfg, naming, us[j]) == service;
    }
    if NameKeepsSlot(cfg, naming, us, service) {
      var j :| IsFinal(cfg, naming, us, j) && HandleOf(cfg, naming, us[j]) == service;
      var k := SlotOf(cfg, naming, us[j]);
      assert Held(cfg, naming, us[j], d) && ClaimsService(k, d[k], service);
    }
  }

  lemma ServicesHaveSlicesIff(cfg: Config, naming: NamingScheme, us: seq<Use>, d: Desired)
    requires cfg.backendKind == ServiceMode && Placed(cfg, naming, us, d)
    ensures ServicesHaveSlices(d) <==> NamesKeepSlots(cfg, naming, us)
  {
    if ServicesHaveSlices(d) {
      forall i | 0 <= i < |us| ensures NameKeepsSlot(cfg, naming, us, HandleOf(cfg, naming, us[i])) {
        var name := naming(us[i].named).service;
        assert InServices(naming, us, name);
        assert Key(Service, name) in d;
        HasSliceIff(cfg, naming, us, d, name);
      }
    }
    if NamesKeepSlots(cfg, naming, us) {
      forall k | k in d && k.kind == Service ensures HasSlice(d, k.name) {
        assert k == Key(Service, k.name);
        var i :| 0 <= i < |us| && naming(us[i].named).service == k.name;
        assert NameKeepsSlot(cfg, naming, us, HandleOf(cfg, naming, us[i]));
        HasSliceIff(cfg, naming, us, d, k.name);
      }
    }
  }

  /** Main result: in service mode the Services of the finished manifest are those of the
      services with objects of their own, and each has a slice labelled with it if and only if
      under each Service name some slice is not overwritten by a later service. */
  lemma EveryServiceHasSliceIff(p: Plan)
    requires PlanValid(p) && p.cfg.backendKind == ServiceMode
    ensures forall name :: Key(Service, name) in BuildSpec(p) <==> InServices(p.naming, PlanUses(p), name)
    ensures ServicesHaveSlices(BuildSpec(p)) <==> NamesKeepSlots(p.cfg, p.naming, PlanUses(p))
  {
    ManifestIsPlaced(p);
    ServicesHaveSlicesIff(p.cfg, p.naming, PlanUses(p), BuildSpec(p));
  }

  /** The slice of a Service overwritten: of two services whose slice names collide and whose
      Service names do not, the first is left without servers. */
  lemma OverwrittenSlice(p: Plan, t: Target, v: Target)
    requires PlanValid(p) && p.cfg.backendKind == ServiceMode && p.targets == [t, v] && p.tcp.None? && p.udp.None?
    requires t.c.Ips? && v.c.Ips?
    requires p.naming(Named(Http, t.name)).slice == p.naming(Named(Http, v.name)).slice
    requires p.naming(Named(Http, t.name)).service != p.naming(Named(Http, v.name)).service
    ensures var ns := p.naming(Named(Http, t.name));
      && Key(Service, ns.service) in BuildSpec(p) && !HasSlice(BuildSpec(p), ns.service)
      && Reaches(BuildSpec(p), RefOf(p.cfg, ns, t.c)) == {}
  {
    var a, b := Use(Named(Http, t.name), t.c), Use(Named(Http, v.name), v.c);
    TwoUses(p.cfg, t, v);
    assert PlanUses(p) == [a, b];
    ManifestIsPlaced(p);
    assert SlotOf(p.cfg, p.naming, [a, b][1]) == SlotOf(p.cfg, p.naming, [a, b][0]);
    assert !NameKeepsSlot(p.cfg, p.naming, [a, b], p.naming(a.named).service);
    HasSliceIff(p.cfg, p.naming, [a, b], BuildSpec(p), p.naming(a.named).service);
    ReferenceReaches(p, 0);
    assert PlanUses(p)[0] == a;
  }

  lemma TwoUses(cfg: Config, t: Target, v: Target)
    requires t.c.Ips? && v.c.Ips?
    ensures UsesOf(cfg, Http, [t, v]) == [Use(Named(Http, t.name), t.c), Use(Named(Http, v.name), v.c)]
  {
    assert [t, v][1..] == [v] && [v][1..] == [];
    assert UsesOf(cfg, Http, [v]) == [Use(Named(Http, v.name), v.c)];
  }

  // ---- Names that need no hashing ----------------------------------------------------------------------------

  /** Slots are shared exactly where names are; in envoy-backend mode they always are. */
  ghost predicate SlotsPaired(cfg: Config, naming: NamingScheme, us: seq<Use>) {
    forall i, j :: 0 <= i < |us| && 0 <= j < |us| ==>
      (SlotOf(cfg, naming, us[i]) == SlotOf(cfg, naming, us[j]) <==>
       HandleOf(cfg, naming, us[i]) == HandleOf(cfg, naming, us[j]))
  }

  lemma PairedSlotsAreKept(cfg: Config, naming: NamingScheme, us: seq<Use>)
    requires SlotsPaired(cfg, naming, us)
    ensures NamesKeepSlots(cfg, naming, us)
  {
    forall i | 0 <= i < |us| ensures NameKeepsSlot(cfg, naming, us, HandleOf(cfg, naming, us[i])) {
      var j := LastInSlot(cfg, naming, us, i);
      assert HandleOf(cfg, naming, us[j]) == HandleOf(cfg, naming, us[i]);
    }
  }

  /** Main result: where slots are shared exactly where names are, a reference reaches exactly
      the servers of the last service built under its name. */
  lemma LastBuiltIsReached(p: Plan, i: nat) returns (j: nat)
    requires PlanValid(p) && i < |PlanUses(p)| && SlotsPaired(p.cfg, p.naming, PlanUses(p))
    ensures UsesSound(p.cfg, PlanUses(p))
    ensures i <= j < |PlanUses(p)|
    ensures HandleOf(p.cfg, p.naming, PlanUses(p)[j]) == HandleOf(p.cfg, p.naming, PlanUses(p)[i])
    ensures forall k :: j < k < |PlanUses(p)| ==>
      HandleOf(p.cfg, p.naming, PlanUses(p)[k]) != HandleOf(p.cfg, p.naming, PlanUses(p)[i])
    ensures var u := PlanUses(p)[i];
      Reaches(BuildSpec(p), RefOf(p.cfg, p.naming(u.named), u.c)) == Served(PlanUses(p)[j].c)
  {
    var us := PlanUses(p);
    j := LastInSlot(p.cfg, p.naming, us, i);
    ReferenceReaches(p, i);
    forall k | IsFinal(p.cfg, p.naming, us, k) && HandleOf(p.cfg, p.naming, us[k]) == HandleOf(p.cfg, p.naming, us[i])
      ensures k == j
    {
      assert SlotOf(p.cfg, p.naming, us[k]) == SlotOf(p.cfg, p.naming, us[j]);
    }
    var served := ServedUnder(p.cfg, p.naming, us, HandleOf(p.cfg, p.naming, us[i]));
    assert forall e :: e in served <==> e in Served(us[j].c);
  }

  /** Without hashing, and always in envoy-backend mode, they are. */
  lemma ShortNamesPaired(pf: Platform, cfg: Config, us: seq<Use>)
    requires cfg.backendKind == ServiceMode ==> forall i :: 0 <= i < |us| ==>
      FitsFamily("svc", us[i].named.family, us[i].named.name) && FitsFamily("eps", us[i].named.family, us[i].named.name)
    ensures SlotsPaired(cfg, ProgramNaming(pf), us)
  {
    if cfg.backendKind == ServiceMode {
      forall i, j | 0 <= i < |us| && 0 <= j < |us|
        ensures NamesFor(pf, us[i].named).slice == NamesFor(pf, us[j].named).slice <==>
                NamesFor(pf, us[i].named).service == NamesFor(pf, us[j].named).service
      {
        ShortNamesPairedAt(pf, us[i].named, us[j].named);
      }
    }
  }

  /** So each Service then has its slice. */
  lemma ShortServicesHaveSlices(pf: Platform, p: Plan)
    requires PlanValid(p) && p.naming == ProgramNaming(pf) && p.cfg.backendKind == ServiceMode
    requires forall i :: 0 <= i < |PlanUses(p)| ==> var n := PlanUses(p)[i].named;
      FitsFamily("svc", n.family, n.name) && FitsFamily("eps", n.family, n.name)
    ensures ServicesHaveSlices(BuildSpec(p))
  {
    ShortNamesPaired(pf, p.cfg, PlanUses(p));
    PairedSlotsAreKept(p.cfg, p.naming, PlanUses(p));
    EveryServiceHasSliceIff(p);
  }

  lemma ShortNamesPairedAt(pf: Platform, m: Named, n: Named)
    requires FitsFamily("svc", m.family, m.name) && FitsFamily("eps", m.family, m.name)
    requires FitsFamily("svc", n.family, n.name) && FitsFamily("eps", n.family, n.name)
    ensures NamesFor(pf, m).slice == NamesFor(pf, n).slice <==> NamesFor(pf, m).service == NamesFor(pf, n).service
  {
    SynthNameFits(pf, "eps", m.family, m.name);
    SynthNameFits(pf, "eps", n.family, n.name);
    SynthNameFits(pf, "svc", m.family, m.name);
    SynthNameFits(pf, "svc", n.family, n.name);
    Cancel("eps", NameTail(m.family, m.name), NameTail(n.family, n.name));
    Cancel("svc", NameTail(m.family, m.name), NameTail(n.family, n.name));
  }

  // ---- What the index holds --------------------------------------------------------------------------

  predicate NamesDistinct(ts: seq<Target>) {
    forall i, j :: 0 <= i < j < |ts| ==> ts[i].name != ts[j].name
  }

  lemma {:induction false} IndexKeeps(cfg: Config, naming: NamingScheme, f: Family, ts: seq<Target>, b: Built,
                                      name: string)
    requires TargetsSound(cfg, ts) && forall i :: 0 <= i < |ts| ==> ts[i].name != name
    ensures var b' := BuildAll(cfg, naming, f, ts, b);
      (name in b'.index <==> name in b.index) && (name in b.index ==> b'.index[name] == b.index[name])
    decreases ts
  {
    if ts != [] { IndexKeeps(cfg, naming, f, ts[1..], BuildOne(cfg, naming, f, ts[0], b), name); }
  }

  /** The index maps each service of the family to the reference above; services without
      servers have none. */
  lemma {:induction false} IndexIsRefs(cfg: Config, naming: NamingScheme, f: Family, ts: seq<Target>, b: Built, i: nat)
    requires TargetsSound(cfg, ts) && NamesDistinct(ts) && i < |ts| && ts[i].name !in b.index
    ensures var index := BuildAll(cfg, naming, f, ts, b).index;
      if ts[i].c.Empty? then ts[i].name !in index
      else ts[i].name in index && index[ts[i].name] == RefOf(cfg, naming(Named(f, ts[i].name)), ts[i].c)
    decreases ts
  {
    var b1 := BuildOne(cfg, naming, f, ts[0], b);
    EmissionRef(cfg, naming(Named(f, ts[0].name)), ts[0].c, Protocol(f), ts[0].skipVerify, b.desired);
    if i == 0 {
      assert forall j :: 0 <= j < |ts[1..]| ==> ts[1..][j] == ts[j + 1];
      IndexKeeps(cfg, naming, f, ts[1..], b1, ts[0].name);
    } else {
      assert ts[1..][i - 1] == ts[i];
      IndexIsRefs(cfg, naming, f, ts[1..], b1, i - 1);
    }
  }

  lemma TableNamesDistinct<V>(t: Table<V>, i: nat, j: nat)
    requires i < j < |t|
    ensures t[i].key != t[j].key
  {
    LessIrreflexive(t[i].key);
  }

  /** Of services with different names, the index has exactly those with servers. */
  lemma IndexIff(cfg: Config, naming: NamingScheme, f: Family, ts: seq<Target>, d: Desired, name: string)
    requires TargetsSound(cfg, ts) && NamesDistinct(ts)
    ensures name in BuildAll(cfg, naming, f, ts, Built(map[], d)).index <==>
            exists i :: 0 <= i < |ts| && ts[i].name == name && !ts[i].c.Empty?
    ensures forall i :: 0 <= i < |ts| && ts[i].name == name && !ts[i].c.Empty? ==>
      var index := BuildAll(cfg, naming, f, ts, Built(map[], d)).index;
      name in index && index[name] == RefOf(cfg, naming(Named(f, name)), ts[i].c)
  {
    var b := Built(map[], d);
    if i :| 0 <= i < |ts| && ts[i].name == name {
      IndexIsRefs(cfg, naming, f, ts, b, i);
      forall j | 0 <= j < |ts| && ts[j].name == name ensures j == i {
        assert !(i < j) && !(j < i);
      }
    } else {
      IndexKeeps(cfg, naming, f, ts, b, name);
    }
  }
}
