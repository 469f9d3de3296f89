/** What the services of a plan put into the finished manifest, object by object: ports,
    protocols, addresses, TLS settings and policies. */
module Emissions {
  import opened Prelude
  import opened Objects
  import opened Backend
  import opened Emit
  import opened L4
  import opened Routes
  import opened Build
  import opened Middleware
  import Naming
  import opened Translation

  /** One service to be built, in its family. */
  datatype Job = Job(family: Family, target: Target)

  function PortProtocol(f: Family): string {
    match f
    case Http => "TCP"
    case Tcp => "TCP"
    case Udp => "UDP"
  }

  function NamesOfJob(naming: NamingScheme, j: Job): Names {
    naming(Named(j.family, j.target.name))
  }

  /** In service mode addresses get a Service and its slice. */
  function ServiceObjects(cfg: Config, ns: Names, f: Family, ips: seq<string>, port: int): map<Key, Obj> {
    map[Key(Service, ns.service) := Obj(OwnerLabels(cfg), ServiceBody(port, PortProtocol(f))),
        Key(EndpointSlice, ns.slice) := Obj(OwnerLabels(cfg)[SERVICE_NAME_LABEL := ns.service],
                                            EndpointSliceBody(ips, port, PortProtocol(f)))]
  }

  /** A policy that has TLS to this Service verified against this name. */
  function PolicyObject(cfg: Config, ns: Names, service: string, verified: string): map<Key, Obj> {
    map[Key(BackendTLSPolicy, ns.policy) := Obj(OwnerLabels(cfg), BackendTLSPolicyBody(service, verified))]
  }

  /** A Backend with these endpoints; over TLS it verifies unless told not to, against the
      name if there is one. */
  function BackendObject(cfg: Config, ns: Names, endpoints: seq<Endpoint>, tls: bool, skipVerify: bool,
                         verified: Option<string>): map<Key, Obj> {
    map[Key(EnvoyBackend, ns.backend) := Obj(OwnerLabels(cfg), EnvoyBackendBody(endpoints,
      if !tls then None else if skipVerify then Some(SkipVerify) else Some(SystemCas(verified))))]
  }

  function ClusterName(service: string, namespace: string): string {
    service + "." + namespace + ".svc.cluster.local"
  }

  /** All objects of one service. */
  function Written(cfg: Config, naming: NamingScheme, j: Job): map<Key, Obj> {
    var ns, t := NamesOfJob(naming, j), j.target;
    match (cfg.backendKind, t.c)
    case (ServiceMode, Ips(ips, port, tls)) =>
      ServiceObjects(cfg, ns, j.family, ips, port) 
      + (if tls && ips != [] then PolicyObject(cfg, ns, ns.service, ips[0]) else map[])
    case (ServiceMode, ClusterDns(service, namespace, _, tls)) =>
      if tls && namespace == cfg.namespace
      then PolicyObject(cfg, ns, service, ClusterName(service, namespace)) else map[]
    case (EnvoyBackendMode, Ips(ips, port, tls)) =>
      BackendObject(cfg, ns, seq(|ips|, i requires 0 <= i < |ips| => IpEndpoint(ips[i], port)), tls, t.skipVerify, None)
    case (EnvoyBackendMode, Fqdn(host, port, tls)) =>
      BackendObject(cfg, ns, [FqdnEndpoint(host, port)], tls, t.skipVerify, Some(host))
    case (EnvoyBackendMode, ClusterDns(service, namespace, port, tls)) =>
      if tls then
        BackendObject(cfg, ns, [FqdnEndpoint(ClusterName(service, namespace), port)], true, t.skipVerify,
                      Some(ClusterName(service, namespace)))
      else map[]
    case _ => map[]
  }

  function EmittedBy(cfg: Config, naming: NamingScheme, j: Job, d: Desired): Desired
    requires Sound(cfg, j.target.c)
  {
    EmitBackend(cfg, NamesOfJob(naming, j), j.target.c, Protocol(j.family), j.target.skipVerify, d).1
  }

  lemma AddressesWrite(cfg: Config, ns: Names, f: Family, ips: seq<string>, port: int, d: Desired)
    ensures EmitService(cfg, ns, ips, port, Protocol(f), d).1 == d + ServiceObjects(cfg, ns, f, ips, port)
  {
    assert PortProtocol(f) == Protocol(f);
  }

  lemma ServiceModeWrites(cfg: Config, naming: NamingScheme, j: Job, d: Desired)
    requires cfg.backendKind == ServiceMode && Sound(cfg, j.target.c)
    ensures EmittedBy(cfg, naming, j, d) == d + Written(cfg, naming, j)
  {
    var ns, c := NamesOfJob(naming, j), j.target.c;
    if c.Ips? {
      var own := ServiceObjects(cfg, ns, j.family, c.entries, c.port);
      AddressesWrite(cfg, ns, j.family, c.entries, c.port, d);
      if c.tls {
        var policy := PolicyObject(cfg, ns, ns.service, c.entries[0]);
        assert EmittedBy(cfg, naming, j, d) == (d + own) + policy;
        assert (d + own) + policy == d + (own + policy);
      } else {
        assert own + map[] == own;
      }
    }
  }

  lemma EnvoyModeWrites(cfg: Config, naming: NamingScheme, j: Job, d: Desired)
    requires cfg.backendKind == EnvoyBackendMode && Sound(cfg, j.target.c)
    ensures EmittedBy(cfg, naming, j, d) == d + Written(cfg, naming, j)
  {
    var c := j.target.c;
    if c.Ips? {
      assert IpEndpoints(c.entries, c.port) ==
             seq(|c.entries|, i requires 0 <= i < |c.entries| => IpEndpoint(c.entries[i], c.port));
    }
  }

  lemma EmissionWrites(cfg: Config, naming: NamingScheme, j: Job, d: Desired)
    requires Sound(cfg, j.target.c)
    ensures EmittedBy(cfg, naming, j, d) == d + Written(cfg, naming, j)
  {
    if cfg.backendKind == ServiceMode {
      ServiceModeWrites(cfg, naming, j, d);
    } else {
      EnvoyModeWrites(cfg, naming, j, d);
    }
  }

  // ---- Series of services ------------------------------------------------------------------------

  /** The service writes the object, and no later one of the series does. */
  predicate WritesLast(cfg: Config, naming: NamingScheme, js: seq<Job>, i: int, k: Key) {
    && 0 <= i < |js| && k in Written(cfg, naming, js[i])
    && forall j :: i < j < |js| ==> k !in Written(cfg, naming, js[j])
  }

  predicate IsBacking(kind: Kind) {
    kind == Service || kind == EndpointSlice || kind == EnvoyBackend || kind == BackendTLSPolicy
  }

  /** The manifest's backends are those the series writes, as written last. */
  ghost predicate Holds(cfg: Config, naming: NamingScheme, js: seq<Job>, d: Desired) {
    && (forall i, k :: WritesLast(cfg, naming, js, i, k) ==> k in d && d[k] == Written(cfg, naming, js[i])[k])
    && (forall k :: k in d && IsBacking(k.kind) ==> exists i :: WritesLast(cfg, naming, js, i, k))
  }

  lemma WritesLastSnoc(cfg: Config, naming: NamingScheme, js: seq<Job>, j: Job, i: int, k: Key)
    ensures WritesLast(cfg, naming, js + [j], i, k) <==>
      if i == |js| then k in Written(cfg, naming, j)
      else WritesLast(cfg, naming, js, i, k) && k !in Written(cfg, naming, j)
  {
    var js' := js + [j];
    assert js'[|js|] == j;
    assert forall x :: 0 <= x < |js| ==> js'[x] == js[x];
    if 0 <= i < |js| && WritesLast(cfg, naming, js, i, k) && k !in Written(cfg, naming, j) {
      forall x | i < x < |js'| ensures k !in Written(cfg, naming, js'[x]) {
        if x < |js| { assert js'[x] == js[x]; }
      }
    }
    if 0 <= i < |js| && WritesLast(cfg, naming, js', i, k) {
      forall x | i < x < |js| ensures k !in Written(cfg, naming, js[x]) { assert js'[x] == js[x]; }
    }
  }

  lemma OneMoreHolds(cfg: Config, naming: NamingScheme, js: seq<Job>, j: Job, d: Desired)
    requires Holds(cfg, naming, js, d)
    ensures Holds(cfg, naming, js + [j], d + Written(cfg, naming, j))
  {
    var js', w := js + [j], Written(cfg, naming, j);
    var d' := d + w;
    forall i, k | WritesLast(cfg, naming, js', i, k) ensures k in d' && d'[k] == Written(cfg, naming, js'[i])[k] {
      WritesLastSnoc(cfg, naming, js, j, i, k);
    }
    forall k | k in d' && IsBacking(k.kind) ensures exists i :: WritesLast(cfg, naming, js', i, k) {
      if k in w {
        WritesLastSnoc(cfg, naming, js, j, |js|, k);
      } else {
        var i :| WritesLast(cfg, naming, js, i, k);
        WritesLastSnoc(cfg, naming, js, j, i, k);
      }
    }
  }

  function JobsOf(f: Family, ts: seq<Target>): (r: seq<Job>)
    ensures |r| == |ts| && forall i :: 0 <= i < |r| ==> r[i] == Job(f, ts[i])
  {
    if ts == [] then [] else [Job(f, ts[0])] + JobsOf(f, ts[1..])
  }

  lemma {:induction false} BuildHolds(cfg: Config, naming: NamingScheme, js: seq<Job>, f: Family, ts: seq<Target>,
                                      b: Built)
    requires TargetsSound(cfg, ts) && Holds(cfg, naming, js, b.desired)
    ensures Holds(cfg, naming, js + JobsOf(f, ts), BuildAll(cfg, naming, f, ts, b).desired)
    decreases ts
  {
    if ts == [] {
      assert js + [] == js;
    } else {
      var j := Job(f, ts[0]);
      EmissionWrites(cfg, naming, j, b.desired);
      OneMoreHolds(cfg, naming, js, j, b.desired);
      BuildHolds(cfg, naming, js + [j], f, ts[1..], BuildOne(cfg, naming, f, ts[0], b));
      Assoc(js, [j], JobsOf(f, ts[1..]));
    }
  }

  // ---- The finished manifest ------------------------------------------------------------------------

  lemma WrittenIsBacking(cfg: Config, naming: NamingScheme, j: Job, k: Key)
    requires k in Written(cfg, naming, j)
    ensures IsBacking(k.kind)
  {}

  lemma OtherKindsHold(cfg: Config, naming: NamingScheme, js: seq<Job>, kinds: set<Kind>, d: Desired, d': Desired)
    requires Holds(cfg, naming, js, d) && Adds(cfg, kinds, d, d') && forall kind :: kind in kinds ==> !IsBacking(kind)
    ensures Holds(cfg, naming, js, d')
  {
    forall i, k | WritesLast(cfg, naming, js, i, k) ensures k in d' && d'[k] == Written(cfg, naming, js[i])[k] {
      WrittenIsBacking(cfg, naming, js[i], k);
      assert k in d && k.kind !in kinds;
    }
    forall k | k in d' && IsBacking(k.kind) ensures exists i :: WritesLast(cfg, naming, js, i, k) {
      assert k in d && k.kind !in kinds;
    }
  }

  function FamilyJobs(block: Option<L4Plan>, f: Family, enabled: bool): seq<Job> {
    if block.Some? && enabled then JobsOf(f, block.value.targets) else []
  }

  /** The services of the plan in build order: http, then tcp and udp where enabled. */
  function Jobs(p: Plan): seq<Job> {
    JobsOf(Http, p.targets) + FamilyJobs(p.tcp, Tcp, p.cfg.enableTcpRoutes)
    + FamilyJobs(p.udp, Udp, p.cfg.enableUdpRoutes)
  }

  lemma FamilyHolds(cfg: Config, naming: NamingScheme, js: seq<Job>, block: Option<L4Plan>, f: Family, enabled: bool,
                    d: Desired)
    requires block.Some? ==> TargetsSound(cfg, block.value.targets) && DialectValid(block.value.dialect)
    requires f != Http && NamingValid(naming) && RefsResolve(d) && Holds(cfg, naming, js, d)
    ensures Holds(cfg, naming, js + FamilyJobs(block, f, enabled), L4Family(cfg, naming, block, f, enabled, d).desired)
  {
    if block.Some? && enabled {
      var plan, start := block.value, Built(map[], d);
      var b := BuildAll(cfg, naming, f, plan.targets, start);
      var routed := RouteAll(cfg, plan.dialect, f, b.index, plan.routers, {}, b.desired);
      BuildHolds(cfg, naming, js, f, plan.targets, start);
      BuildResolves(cfg, naming, f, plan.targets, start);
      BackendsAdd(cfg, d, b.desired);
      AddsKeepsRefs(cfg, BackendKinds(cfg), d, b.desired);
      RouteAllAdds(cfg, plan.dialect, f, b.index, plan.routers, {}, b.desired);
      OtherKindsHold(cfg, naming, js + JobsOf(f, plan.targets), {RouteKind(f)}, b.desired, routed.desired);
    } else {
      assert js + [] == js;
    }
  }

  lemma HttpHolds(p: Plan)
    requires PlanValid(p)
    ensures Holds(p.cfg, p.naming, JobsOf(Http, p.targets), HttpRoutes(p).desired)
  {
    var start, b := Built(map[], map[]), HttpBackends(p);
    var js := JobsOf(Http, p.targets);
    BuildHolds(p.cfg, p.naming, [], Http, p.targets, start);
    assert [] + js == js;
    BuildResolves(p.cfg, p.naming, Http, p.targets, start);
    BackendsAdd(p.cfg, map[], b.desired);
    AddsKeepsRefs(p.cfg, BackendKinds(p.cfg), map[], b.desired);
    RoutesAdd(p.cfg, p.lens, b.index, p.routers, RouteState([], [], b.desired));
    OtherKindsHold(p.cfg, p.naming, js, {HTTPRoute, SecurityPolicy}, b.desired, HttpRoutes(p).desired);
  }

  lemma TcpHolds(p: Plan)
    requires PlanValid(p)
    ensures Holds(p.cfg, p.naming, JobsOf(Http, p.targets) + FamilyJobs(p.tcp, Tcp, p.cfg.enableTcpRoutes),
                  TcpPart(p).desired)
  {
    HttpPhases(p);
    HttpHolds(p);
    FamilyHolds(p.cfg, p.naming, JobsOf(Http, p.targets), p.tcp, Tcp, p.cfg.enableTcpRoutes, HttpRoutes(p).desired);
  }

  lemma UdpHolds(p: Plan)
    requires PlanValid(p)
    ensures Holds(p.cfg, p.naming, Jobs(p), UdpPart(p).desired)
  {
    var before := JobsOf(Http, p.targets) + FamilyJobs(p.tcp, Tcp, p.cfg.enableTcpRoutes);
    TcpPhase(p);
    TcpHolds(p);
    FamilyHolds(p.cfg, p.naming, before, p.udp, Udp, p.cfg.enableUdpRoutes, TcpPart(p).desired);
  }

  /** Main result: the Services, slices, Backends and TLS policies of the finished manifest
      are precisely the objects its services write, each as the last service of its name
      wrote it. */
  lemma ManifestHoldsWritten(p: Plan)
    requires PlanValid(p)
    ensures Holds(p.cfg, p.naming, Jobs(p), BuildSpec(p))
  {
    UdpHolds(p);
    ListenerSetAdds(p);
    OtherKindsHold(p.cfg, p.naming, Jobs(p), {ListenerSet}, UdpPart(p).desired, BuildSpec(p));
  }

  // ---- Names and flags -----------------------------------------------------------------------------

  /** What follows the base: the family's infix if it has one, and the sanitised name. */
  function Tail(n: Named): string {
    (match n.family
     case Http => ""
     case Tcp => "-tcp"
     case Udp => "-udp")
    + (if Naming.Stem(n.name) == [] then "" else "-" + Naming.Stem(n.name))
  }

  lemma TailIsNameTail(n: Named)
    ensures Tail(n) == NameTail(n.family, n.name)
  {
    assert "-" + "tcp" == "-tcp" && "-" + "udp" == "-udp";
  }

  /** The synthesised names of a service that fits. */
  lemma NamesSpelled(pf: Platform, n: Named)
    requires FitsFamily("svc", n.family, n.name) && FitsFamily("eps", n.family, n.name)
    requires FitsFamily("be", n.family, n.name) && FitsFamily("btp", n.family, n.name)
    ensures NamesFor(pf, n) == Names("svc" + Tail(n), "eps" + Tail(n), "be" + Tail(n), "btp" + Tail(n))
  {
    TailIsNameTail(n);
    SynthNameFits(pf, "svc", n.family, n.name);
    SynthNameFits(pf, "eps", n.family, n.name);
    SynthNameFits(pf, "be", n.family, n.name);
    SynthNameFits(pf, "btp", n.family, n.name);
  }

  /** An http service without servers comes to nothing; otherwise its servers are classified,
      and verification is skipped exactly when its transport is defined and says so. */
  lemma HttpTargetIs(env: Env, svc: HttpService, transports: map<string, Json>)
    ensures var t := HttpTarget(env, svc, transports);
      if svc.None? || svc.value.servers == [] then t == (Empty, false)
      else
        && t.0 == Classify(env.pf, UrlServers(env.pf, svc.value.servers), env.cfg.backendKind)
        && (t.1 <==> exists name :: svc.value.serversTransport == Some(name) && name in transports
                                    && IsMember(transports[name], "insecureSkipVerify", Bool(true)))
  {
    if svc.Some? && svc.value.serversTransport.Some? && svc.value.serversTransport.value in transports {
      MemberIff(transports[svc.value.serversTransport.value], "insecureSkipVerify", Bool(true));
    }
  }

  /** A raw service without servers comes to nothing; otherwise its addresses are classified. */
  lemma L4TargetIs(env: Env, svc: L4Service)
    ensures L4Target(env, svc) ==
            if svc.None? || svc.value == [] then (Empty, false)
            else (Classify(env.pf, L4Servers(svc.value), env.cfg.backendKind), false)
  {}
}
