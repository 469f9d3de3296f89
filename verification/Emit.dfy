/** Emission of backends: which objects a classified service adds to the manifest, and
    the reference that routes to it will carry. */
module Emit {
  import opened Prelude
  import opened Objects
  import opened Naming
  import opened Middleware
  import opened Address
  import opened Backend

  /** What the emitters need to know of their surroundings. */
  datatype Env = Env(pf: Platform, cfg: Config)

  /** One traffic family: empty infix for http, `tcp` or `udp` for raw resources. */
  datatype Family = Http | Tcp | Udp

  function Infix(f: Family): string {
    match f
    case Http => ""
    case Tcp => "tcp"
    case Udp => "udp"
  }

  function Protocol(f: Family): string {
    if f == Udp then "UDP" else "TCP"
  }

  function NamePrefix(base: string, f: Family): string {
    if Infix(f) == "" then base else base + "-" + Infix(f)
  }

  function SynthName(pf: Platform, base: string, f: Family, name: string): string {
    PrefixedLabel(pf.hash, NamePrefix(base, f), name)
  }

  /** A service of one family, and the names its synthesised objects get. */
  datatype Named = Named(family: Family, name: string)

  datatype Names = Names(service: string, slice: string, backend: string, policy: string)

  function NamesFor(pf: Platform, n: Named): Names {
    Names(SynthName(pf, "svc", n.family, n.name), SynthName(pf, "eps", n.family, n.name),
          SynthName(pf, "be", n.family, n.name), SynthName(pf, "btp", n.family, n.name))
  }

  /** How services are named; for the program, `ProgramNaming`. */
  type NamingScheme = Named -> Names

  function ProgramNaming(pf: Platform): NamingScheme {
    n => NamesFor(pf, n)
  }

  function EmitTlsPolicy(cfg: Config, ns: Names, target: string, hostname: string, d: Desired): Desired {
    d[Key(BackendTLSPolicy, ns.policy) := Obj(OwnerLabels(cfg), BackendTLSPolicyBody(target, hostname))]
  }

  function EmitEnvoyBackend(cfg: Config, ns: Names, endpoints: seq<Endpoint>, port: int,
                            tls: Option<TlsSettings>, d: Desired): (BackendRef, Desired)
  {
    (BackendRef("gateway.envoyproxy.io", "Backend", ns.backend, None, port),
     d[Key(EnvoyBackend, ns.backend) := Obj(OwnerLabels(cfg), EnvoyBackendBody(endpoints, tls))])
  }

  function EmitService(cfg: Config, ns: Names, ips: seq<string>, port: int, protocol: string,
                       d: Desired): (BackendRef, Desired) {
    var labels := OwnerLabels(cfg);
    (BackendRef("", "Service", ns.service, None, port),
     d[Key(Service, ns.service) := Obj(labels, ServiceBody(port, protocol))]
      [Key(EndpointSlice, ns.slice) := Obj(labels[SERVICE_NAME_LABEL := ns.service],
                                           EndpointSliceBody(ips, port, protocol))])
  }

  function IpEndpoints(ips: seq<string>, port: int): seq<Endpoint> {
    seq(|ips|, i requires 0 <= i < |ips| => IpEndpoint(ips[i], port))
  }

  function EnvoyTls(skipVerify: bool, sni: Option<string>): TlsSettings {
    if skipVerify then SkipVerify else SystemCas(sni)
  }

  /** `tls` is None for plaintext, else whether verification is skipped. */
  function EmitIps(cfg: Config, ns: Names, ips: seq<string>, port: int, protocol: string, tls: Option<bool>,
                   d: Desired): (BackendRef, Desired)
    requires ips != []
  {
    match cfg.backendKind
    case ServiceMode =>
      var r := EmitService(cfg, ns, ips, port, protocol, d);
      if tls.None? then r else (r.0, EmitTlsPolicy(cfg, ns, r.0.name, ips[0], r.1))
    case EnvoyBackendMode =>
      EmitEnvoyBackend(cfg, ns, IpEndpoints(ips, port), port,
                       if tls.None? then None else Some(EnvoyTls(tls.value, None)), d)
  }

  function EmitFqdn(cfg: Config, ns: Names, hostname: string, port: int, tls: Option<bool>,
                    d: Desired): (BackendRef, Desired) {
    EmitEnvoyBackend(cfg, ns, [FqdnEndpoint(hostname, port)], port,
                     if tls.None? then None else Some(EnvoyTls(tls.value, Some(hostname))), d)
  }

  /** Cluster DNS is referenced directly, except https targets in envoy-backend mode. */
  function EmitClusterDns(cfg: Config, ns: Names, service: string, namespace: string, port: int,
                          tls: Option<bool>, d: Desired): (BackendRef, Desired)
  {
    var direct := BackendRef("", "Service", service, Some(namespace), port);
    var fqdn := service + "." + namespace + ".svc.cluster.local";
    if tls.None? then (direct, d)
    else if cfg.backendKind == EnvoyBackendMode then EmitFqdn(cfg, ns, fqdn, port, tls, d)
    else if namespace == cfg.namespace then (direct, EmitTlsPolicy(cfg, ns, service, fqdn, d))
    else (direct, d)
  }

  function EmitBackend(cfg: Config, ns: Names, c: Classification, protocol: string, skipVerify: bool,
                       d: Desired): (Option<BackendRef>, Desired)
    requires c.Ips? ==> c.entries != []
  {
    match c
    case Empty => (None, d)
    case Ips(ips, port, tls) =>
      var r := EmitIps(cfg, ns, ips, port, protocol, if tls then Some(skipVerify) else None, d);
      (Some(r.0), r.1)
    case Fqdn(host, port, tls) =>
      var r := EmitFqdn(cfg, ns, host, port, if tls then Some(skipVerify) else None, d);
      (Some(r.0), r.1)
    case ClusterDns(svc, namespace, port, tls) =>
      var r := EmitClusterDns(cfg, ns, svc, namespace, port, if tls then Some(skipVerify) else None, d);
      (Some(r.0), r.1)
  }

  // ---- What an emission adds -----------------------------------------------------------------

  /** The labels an emitted object may carry. */
  predicate StampedLabels(cfg: Config, k: Key, o: Obj) {
    if k.kind == EndpointSlice then
      SERVICE_NAME_LABEL in o.labels && o.labels == OwnerLabels(cfg)[SERVICE_NAME_LABEL := o.labels[SERVICE_NAME_LABEL]]
    else o.labels == OwnerLabels(cfg)
  }

  /** Bodies sit under keys of their own kind. */
  predicate KindFits(kind: Kind, b: Body) {
    match b
    case ServiceBody(_, _) => kind == Service
    case EndpointSliceBody(_, _, _) => kind == EndpointSlice
    case EnvoyBackendBody(_, _) => kind == EnvoyBackend
    case BackendTLSPolicyBody(_, _) => kind == BackendTLSPolicy
    case ListenerSetBody(_) => kind == ListenerSet
    case HTTPRouteBody(_, _, _, _) => kind == HTTPRoute
    case L4RouteBody(_, _) => kind == TCPRoute || kind == UDPRoute
    case SecurityPolicyBody(_, _, _) => kind == SecurityPolicy
  }

  predicate WellStamped(cfg: Config, k: Key, o: Obj) {
    StampedLabels(cfg, k, o) && KindFits(k.kind, o.body) && ValidLabel(k.name)
  }

  /** Kinds the configured mode may synthesise as backends. */
  predicate BackendKindAllowed(cfg: Config, kind: Kind) {
    match cfg.backendKind
    case ServiceMode => kind == Service || kind == EndpointSlice || kind == BackendTLSPolicy
    case EnvoyBackendMode => kind == EnvoyBackend
  }

  /** `d'` is `d` with well-formed backend objects added or replaced. */
  predicate AddsBackends(cfg: Config, d: Desired, d': Desired) {
    && d.Keys <= d'.Keys
    && forall k :: k in d' ==>
         (k in d && d'[k] == d[k]) || (BackendKindAllowed(cfg, k.kind) && WellStamped(cfg, k, d'[k]))
  }

  lemma AddsBackendsTransitive(cfg: Config, a: Desired, b: Desired, c: Desired)
    requires AddsBackends(cfg, a, b) && AddsBackends(cfg, b, c)
    ensures AddsBackends(cfg, a, c)
  {}

  /** IPs come with addresses, and bare names only in envoy-backend mode. */
  predicate Sound(cfg: Config, c: Classification) {
    (c.Ips? ==> c.entries != []) && (c.Fqdn? ==> cfg.backendKind == EnvoyBackendMode)
  }

  predicate ValidNames(ns: Names) {
    ValidLabel(ns.service) && ValidLabel(ns.slice) && ValidLabel(ns.backend) && ValidLabel(ns.policy)
  }

  lemma NamesAreValid(pf: Platform, n: Named)
    ensures ValidNames(NamesFor(pf, n))
  {
    DnsLabelIsValid(pf.hash, NamePrefix("svc", n.family) + "-" + n.name);
    DnsLabelIsValid(pf.hash, NamePrefix("eps", n.family) + "-" + n.name);
    DnsLabelIsValid(pf.hash, NamePrefix("be", n.family) + "-" + n.name);
    DnsLabelIsValid(pf.hash, NamePrefix("btp", n.family) + "-" + n.name);
  }

  lemma AddOne(cfg: Config, d: Desired, k: Key, o: Obj)
    requires BackendKindAllowed(cfg, k.kind) && WellStamped(cfg, k, o)
    ensures AddsBackends(cfg, d, d[k := o])
  {}

  lemma EmitServiceAdds(cfg: Config, ns: Names, ips: seq<string>, port: int, protocol: string, d: Desired)
    requires ValidNames(ns) && cfg.backendKind == ServiceMode
    ensures AddsBackends(cfg, d, EmitService(cfg, ns, ips, port, protocol, d).1)
    ensures RefTarget(EmitService(cfg, ns, ips, port, protocol, d).0) in EmitService(cfg, ns, ips, port, protocol, d).1
  {
    assert "Service" != "Backend";
  }

  lemma EmitAddsBackends(cfg: Config, ns: Names, c: Classification, protocol: string, skipVerify: bool, d: Desired)
    requires ValidNames(ns) && Sound(cfg, c)
    ensures AddsBackends(cfg, d, EmitBackend(cfg, ns, c, protocol, skipVerify, d).1)
    ensures var r := EmitBackend(cfg, ns, c, protocol, skipVerify, d);
      r.0.Some? && r.0.value.namespace.None? ==> RefTarget(r.0.value) in r.1
  {
    var r := EmitBackend(cfg, ns, c, protocol, skipVerify, d);
    var be, btp := Key(EnvoyBackend, ns.backend), Key(BackendTLSPolicy, ns.policy);
    if c.Ips? && cfg.backendKind == ServiceMode {
      var d1 := EmitService(cfg, ns, c.entries, c.port, protocol, d).1;
      EmitServiceAdds(cfg, ns, c.entries, c.port, protocol, d);
      if c.tls {
        AddOne(cfg, d1, btp, r.1[btp]);
        AddsBackendsTransitive(cfg, d, d1, r.1);
      }
    } else if c != Empty && cfg.backendKind == EnvoyBackendMode && (c.tls || !c.ClusterDns?) {
      AddOne(cfg, d, be, r.1[be]);
    } else if c.ClusterDns? && c.tls && c.namespace == cfg.namespace {
      AddOne(cfg, d, btp, r.1[btp]);
    }
  }

  /** The endpoints traffic for a reference ends up at: the slices labelled with the
      Service, or the endpoints of the Envoy Backend. */
  ghost function Reaches(d: Desired, r: BackendRef): set<Endpoint> {
    if r.kind == "Backend" then
      if Key(EnvoyBackend, r.name) in d && d[Key(EnvoyBackend, r.name)].body.EnvoyBackendBody? then
        set e | e in d[Key(EnvoyBackend, r.name)].body.endpoints
      else {}
    else
      set k, a | k in d && ClaimsService(k, d[k], r.name) && d[k].body.EndpointSliceBody? && a in d[k].body.addresses
        :: IpEndpoint(a, d[k].body.port)
  }

  /** Is this a slice labelled with the Service? */
  predicate ClaimsService(k: Key, o: Obj, service: string) {
    k.kind == EndpointSlice && SERVICE_NAME_LABEL in o.labels && o.labels[SERVICE_NAME_LABEL] == service
  }

  /** The emitted reference reaches exactly the servers the service was classified to
      have, in either mode, unless a differently named slice already claims the Service. */
  lemma EmittedReachesTarget(cfg: Config, ns: Names, c: Classification, protocol: string, skipVerify: bool, d: Desired)
    requires Sound(cfg, c) && (c.Ips? || c.Fqdn?)
    requires forall k :: k in d && ClaimsService(k, d[k], ns.service) ==> k.name == ns.slice
    ensures var r := EmitBackend(cfg, ns, c, protocol, skipVerify, d);
      && r.0.Some? && r.0.value.port == c.port
      && Reaches(r.1, r.0.value) ==
           if c.Ips? then set a | a in c.entries :: IpEndpoint(a, c.port) else {FqdnEndpoint(c.hostname, c.port)}
  {
    var r := EmitBackend(cfg, ns, c, protocol, skipVerify, d);
    if c.Fqdn? {
      assert Reaches(r.1, r.0.value) == {FqdnEndpoint(c.hostname, c.port)};
    } else if cfg.backendKind == EnvoyBackendMode {
      var es := IpEndpoints(c.entries, c.port);
      forall a | a in c.entries ensures IpEndpoint(a, c.port) in es {
        var i :| 0 <= i < |c.entries| && c.entries[i] == a;
        assert es[i] == IpEndpoint(a, c.port);
      }
      assert r.1[Key(EnvoyBackend, ns.backend)].body.endpoints == es;
    } else {
      var slice := Key(EndpointSlice, ns.slice);
      assert "Service" != "Backend";
      assert r.1[slice].body == EndpointSliceBody(c.entries, c.port, protocol);
      assert r.1[slice].labels[SERVICE_NAME_LABEL] == ns.service;
      assert forall k :: k in r.1 && ClaimsService(k, r.1[k], ns.service) ==> k == slice;
    }
  }

  lemma {:induction false} FqdnNeedsEnvoyMode(pf: Platform, entries: seq<HostPort>, kind: BackendKind)
    requires Classify(pf, entries, kind).Fqdn?
    ensures kind == EnvoyBackendMode
  {
    ClassKind(pf, entries, kind);
  }

  // ---- The build loops ----------------------------------------------------------------------

  datatype LoadBalancer = LoadBalancer(servers: seq<string>, serversTransport: Option<string>)

  /** A pangolin service: its load balancer, if it is one. */
  type HttpService = Option<LoadBalancer>

  /** An L4 service: the server addresses, if it is a load balancer. */
  type L4Service = Option<seq<string>>

  predicate TransportSkipsVerify(transport: Option<string>, transports: map<string, Json>) {
    transport.Some? && transport.value in transports &&
    Member(transports[transport.value], "insecureSkipVerify") == Some(Bool(true))
  }

  /** Classification of a service, if it has servers at all, with its skip-verify flag. */
  function HttpTarget(env: Env, svc: HttpService, transports: map<string, Json>): (Classification, bool) {
    if svc.None? || svc.value.servers == [] then (Empty, false)
    else (Classify(env.pf, UrlServers(env.pf, svc.value.servers), env.cfg.backendKind),
          TransportSkipsVerify(svc.value.serversTransport, transports))
  }

  function L4Target(env: Env, svc: L4Service): (Classification, bool) {
    if svc.None? || svc.value == [] then (Empty, false)
    else (Classify(env.pf, L4Servers(svc.value), env.cfg.backendKind), false)
  }

  type Index = map<string, BackendRef>

  datatype Built = Built(index: Index, desired: Desired)

  lemma TargetsAreSound(env: Env, entries: seq<HostPort>)
    ensures Sound(env.cfg, Classify(env.pf, entries, env.cfg.backendKind))
  {
    var c := Classify(env.pf, entries, env.cfg.backendKind);
    if c.Ips? { IpsAreNeverEmpty(env.pf, entries, env.cfg.backendKind); }
    if c.Fqdn? { FqdnNeedsEnvoyMode(env.pf, entries, env.cfg.backendKind); }
  }

  /** A service with its classification, as the build sees it. */
  datatype Target = Target(name: string, c: Classification, skipVerify: bool)

  function BuildOne(cfg: Config, naming: NamingScheme, f: Family, t: Target, b: Built): Built
    requires Sound(cfg, t.c)
  {
    var r := EmitBackend(cfg, naming(Named(f, t.name)), t.c, Protocol(f), t.skipVerify, b.desired);
    Built(if r.0.Some? then b.index[t.name := r.0.value] else b.index, r.1)
  }

  predicate TargetsSound(cfg: Config, ts: seq<Target>) {
    forall i :: 0 <= i < |ts| ==> Sound(cfg, ts[i].c)
  }

  function BuildAll(cfg: Config, naming: NamingScheme, f: Family, ts: seq<Target>, b: Built): Built
    requires TargetsSound(cfg, ts)
    decreases ts
  {
    if ts == [] then b else BuildAll(cfg, naming, f, ts[1..], BuildOne(cfg, naming, f, ts[0], b))
  }

  function HttpTargets(env: Env, services: seq<Entry<HttpService>>, transports: map<string, Json>): (ts: seq<Target>)
    ensures |ts| == |services| && TargetsSound(env.cfg, ts)
    ensures forall i :: 0 <= i < |ts| ==>
      var t := HttpTarget(env, services[i].value, transports); ts[i] == Target(services[i].key, t.0, t.1)
  {
    if services == [] then []
    else
      var t := HttpTarget(env, services[0].value, transports);
      assert Sound(env.cfg, t.0) by {
        if services[0].value.Some? { TargetsAreSound(env, UrlServers(env.pf, services[0].value.value.servers)); }
      }
      [Target(services[0].key, t.0, t.1)] + HttpTargets(env, services[1..], transports)
  }

  function L4Targets(env: Env, services: seq<Entry<L4Service>>): (ts: seq<Target>)
    ensures |ts| == |services| && TargetsSound(env.cfg, ts)
    ensures forall i :: 0 <= i < |ts| ==>
      var t := L4Target(env, services[i].value); ts[i] == Target(services[i].key, t.0, t.1)
  {
    if services == [] then []
    else
      var t := L4Target(env, services[0].value);
      assert Sound(env.cfg, t.0) by {
        if services[0].value.Some? { TargetsAreSound(env, L4Servers(services[0].value.value)); }
      }
      [Target(services[0].key, t.0, t.1)] + L4Targets(env, services[1..])
  }

  lemma UrlStep(pf: Platform, urls: seq<string>, i: nat, entries: seq<HostPort>)
    requires i < |urls|
    ensures var url := pf.parseUrl(urls[i]);
      entries + UrlServers(pf, urls[i..]) ==
      (if url.Some? && url.value.host.Some? && url.value.port.Some?
       then entries + [HostPort(StripBrackets(url.value.host.value), url.value.port.value, url.value.https)]
       else entries) + UrlServers(pf, urls[i + 1..])
  {
    assert urls[i..][0] == urls[i] && urls[i..][1..] == urls[i + 1..];
    var rest := UrlServers(pf, urls[i + 1..]);
    var url := pf.parseUrl(urls[i]);
    if url.Some? && url.value.host.Some? && url.value.port.Some? {
      Assoc(entries, [HostPort(StripBrackets(url.value.host.value), url.value.port.value, url.value.https)], rest);
    }
  }

  method ParseUrlServers(pf: Platform, urls: seq<string>) returns (entries: seq<HostPort>)
    ensures entries == UrlServers(pf, urls)
  {
    entries := [];
    assert urls[0..] == urls;
    for i := 0 to |urls|
      invariant entries + UrlServers(pf, urls[i..]) == UrlServers(pf, urls)
    {
      UrlStep(pf, urls, i, entries);
      var url := pf.parseUrl(urls[i]);
      if url.Some? && url.value.host.Some? && url.value.port.Some? {
        entries := entries + [HostPort(StripBrackets(url.value.host.value), url.value.port.value, url.value.https)];
      }
    }
    assert urls[|urls|..] == [];
  }

  /** What the target at `i` adds. */
  lemma BuildStep(cfg: Config, naming: NamingScheme, f: Family, ts: seq<Target>, i: nat, b: Built)
    requires TargetsSound(cfg, ts) && i < |ts|
    ensures BuildAll(cfg, naming, f, ts[i..], b) ==
            BuildAll(cfg, naming, f, ts[i + 1..], BuildOne(cfg, naming, f, ts[i], b))
  {
    assert ts[i..][0] == ts[i] && ts[i..][1..] == ts[i + 1..];
  }

  /** Emit one classified service, and index its reference if it got one: nothing but
      well-formed backends is added, and a local reference finds its object. */
  method EmitTarget(env: Env, f: Family, t: Target, index: Index,
                    before: Desired) returns (index': Index, desired: Desired)
    requires Sound(env.cfg, t.c)
    ensures Built(index', desired) == BuildOne(env.cfg, ProgramNaming(env.pf), f, t, Built(index, before))
    ensures AddsBackends(env.cfg, before, desired)
    ensures !t.c.Empty? ==>
      t.name in index' && (index'[t.name].namespace.None? ==> RefTarget(index'[t.name]) in desired)
    ensures t.c.Empty? ==> index' == index && desired == before
  {
    NamesAreValid(env.pf, Named(f, t.name));
    EmitAddsBackends(env.cfg, NamesFor(env.pf, Named(f, t.name)), t.c, Protocol(f), t.skipVerify, before);
    var r := EmitBackend(env.cfg, NamesFor(env.pf, Named(f, t.name)), t.c, Protocol(f), t.skipVerify, before);
    desired := r.1;
    index' := if r.0.Some? then index[t.name := r.0.value] else index;
  }

  /** One http service; those without servers are passed over. */
  method BuildHttpService(env: Env, name: string, svc: HttpService, transports: map<string, Json>, index: Index,
                          before: Desired)
    returns (index': Index, desired: Desired)
    ensures var t := HttpTarget(env, svc, transports);
      Sound(env.cfg, t.0) &&
      Built(index', desired) ==
      BuildOne(env.cfg, ProgramNaming(env.pf), Http, Target(name, t.0, t.1), Built(index, before))
  {
    if svc.None? || svc.value.servers == [] {
      return index, before;
    }
    var skipVerify := TransportSkipsVerify(svc.value.serversTransport, transports);
    var entries := ParseUrlServers(env.pf, svc.value.servers);
    var c := ClassifyEntries(env.pf, entries, env.cfg.backendKind);
    TargetsAreSound(env, entries);
    index', desired := EmitTarget(env, Http, Target(name, c, skipVerify), index, before);
  }

  /** One tcp or udp service. */
  method BuildL4Service(env: Env, f: Family, name: string, svc: L4Service, index: Index, before: Desired)
    returns (index': Index, desired: Desired)
    ensures var t := L4Target(env, svc);
      Sound(env.cfg, t.0) &&
      Built(index', desired) ==
      BuildOne(env.cfg, ProgramNaming(env.pf), f, Target(name, t.0, t.1), Built(index, before))
  {
    if svc.None? || svc.value == [] {
      return index, before;
    }
    var c := ClassifyEntries(env.pf, L4Servers(svc.value), env.cfg.backendKind);
    TargetsAreSound(env, L4Servers(svc.value));
    index', desired := EmitTarget(env, f, Target(name, c, false), index, before);
  }

  /** http services to backends. */
  method BuildBackends(env: Env, services: Table<HttpService>, transports: map<string, Json>, before: Desired)
    returns (index: Index, desired: Desired)
    ensures Built(index, desired) ==
            BuildAll(env.cfg, ProgramNaming(env.pf), Http, HttpTargets(env, services, transports), Built(map[], before))
  {
    index, desired := map[], before;
    ghost var ts, naming := HttpTargets(env, services, transports), ProgramNaming(env.pf);
    assert ts[0..] == ts;
    for i := 0 to |services|
      invariant BuildAll(env.cfg, naming, Http, ts[i..], Built(index, desired)) ==
                BuildAll(env.cfg, naming, Http, ts, Built(map[], before))
    {
      BuildStep(env.cfg, naming, Http, ts, i, Built(index, desired));
      index, desired := BuildHttpService(env, services[i].key, services[i].value, transports, index, desired);
    }
    assert ts[|services|..] == [];
  }

  /** tcp and udp services to backends. */
  method BuildL4Backends(env: Env, services: Table<L4Service>, f: Family, before: Desired)
    returns (index: Index, desired: Desired)
    ensures Built(index, desired) ==
            BuildAll(env.cfg, ProgramNaming(env.pf), f, L4Targets(env, services), Built(map[], before))
  {
    index, desired := map[], before;
    ghost var ts, naming := L4Targets(env, services), ProgramNaming(env.pf);
    assert ts[0..] == ts;
    for i := 0 to |services|
      invariant BuildAll(env.cfg, naming, f, ts[i..], Built(index, desired)) ==
                BuildAll(env.cfg, naming, f, ts, Built(map[], before))
    {
      BuildStep(env.cfg, naming, f, ts, i, Built(index, desired));
      index, desired := BuildL4Service(env, f, services[i].key, services[i].value, index, desired);
    }
    assert ts[|services|..] == [];
  }

  // ---- What a build guarantees -----------------------------------------------------------------

  /** Every unqualified reference in the index has its object in the manifest. */
  predicate IndexResolves(b: Built) {
    forall n :: n in b.index && b.index[n].namespace.None? ==> RefTarget(b.index[n]) in b.desired
  }

  ghost predicate NamingValid(naming: NamingScheme) {
    forall n :: ValidNames(naming(n))
  }

  lemma ProgramNamingIsValid(pf: Platform)
    ensures NamingValid(ProgramNaming(pf))
  {
    forall n: Named ensures ValidNames(ProgramNaming(pf)(n)) { NamesAreValid(pf, n); }
  }

  lemma {:induction false} BuildResolves(cfg: Config, naming: NamingScheme, f: Family, ts: seq<Target>, b: Built)
    requires TargetsSound(cfg, ts) && IndexResolves(b) && NamingValid(naming)
    ensures IndexResolves(BuildAll(cfg, naming, f, ts, b))
    ensures AddsBackends(cfg, b.desired, BuildAll(cfg, naming, f, ts, b).desired)
    decreases ts
  {
    if ts != [] {
      var b' := BuildOne(cfg, naming, f, ts[0], b);
      EmitAddsBackends(cfg, naming(Named(f, ts[0].name)), ts[0].c, Protocol(f), ts[0].skipVerify, b.desired);
      BuildResolves(cfg, naming, f, ts[1..], b');
      AddsBackendsTransitive(cfg, b.desired, b'.desired, BuildAll(cfg, naming, f, ts, b).desired);
    }
  }

  // ---- Collisions between families ---------------------------------------------------------------

  /** What follows the base in a synthesised name, when it fits. */
  function NameTail(f: Family, name: string): string {
    (if Infix(f) == "" then "" else "-" + Infix(f)) + (if Stem(name) == [] then "" else "-" + Stem(name))
  }

  predicate FitsFamily(base: string, f: Family, name: string) {
    Fits(NamePrefix(base, f), name)
  }

  lemma NamePrefixIsClean(base: string, f: Family)
    requires base in {"svc", "eps", "be", "btp"}
    ensures Clean(NamePrefix(base, f)) && NamePrefix(base, f) != []
  {
    PlainIsClean(base, Infix(f));
  }

  lemma PlainIsClean(base: string, infix: string)
    requires base != [] && forall i :: 0 <= i < |base| ==> 'a' <= base[i] <= 'z'
    requires forall i :: 0 <= i < |infix| ==> 'a' <= infix[i] <= 'z'
    ensures Clean(base) && (infix != [] ==> Clean(base + "-" + infix))
  {
    var s := base + "-" + infix;
    assert forall i :: 0 <= i < |s| && i != |base| ==> 'a' <= s[i] <= 'z';
  }

  lemma SynthNameFits(pf: Platform, base: string, f: Family, name: string)
    requires base in {"svc", "eps", "be", "btp"} && FitsFamily(base, f, name)
    ensures SynthName(pf, base, f, name) == base + NameTail(f, name)
  {
    NamePrefixIsClean(base, f);
    PrefixedLabelFits(pf.hash, NamePrefix(base, f), name);
    TailSplits(base, f, Stem(name));
  }

  lemma TailSplits(base: string, f: Family, stem: string)
    ensures var tail := if stem == [] then "" else "-" + stem;
      base + ((if Infix(f) == "" then "" else "-" + Infix(f)) + tail) ==
      if stem == [] then NamePrefix(base, f) else NamePrefix(base, f) + "-" + stem
  {
    var tail := if stem == [] then "" else "-" + stem;
    var mid := if Infix(f) == "" then "" else "-" + Infix(f);
    assert base + (mid + tail) == (base + mid) + tail;
    assert base + mid == NamePrefix(base, f) by {
      if Infix(f) != "" { assert base + ("-" + Infix(f)) == base + "-" + Infix(f); }
    }
    if stem != [] { assert NamePrefix(base, f) + ("-" + stem) == NamePrefix(base, f) + "-" + stem; }
  }

  /** Two services of different families share a synthesised name: where names fit, exactly
      when the http name already spells the other's infix, as `tcp-x` over http and `x` over
      tcp both become `be-tcp-x`; in general exactly when their full texts collide. A name
      that fits never collides with itself across families. */
  lemma FamiliesCollideIff(pf: Platform, base: string, f: Family, httpName: string, l4Name: string)
    requires base in {"svc", "eps", "be", "btp"} && f != Http
    ensures SynthName(pf, base, Http, httpName) == SynthName(pf, base, f, l4Name) <==>
            Collide(pf.hash, base + "-" + httpName, NamePrefix(base, f) + "-" + l4Name)
    ensures FitsFamily(base, Http, httpName) && FitsFamily(base, f, l4Name) ==>
      (SynthName(pf, base, Http, httpName) == SynthName(pf, base, f, l4Name) <==>
       Stem(httpName) == Infix(f) + (if Stem(l4Name) == [] then "" else "-" + Stem(l4Name)))
    ensures FitsFamily(base, Http, httpName) && FitsFamily(base, f, httpName) ==>
      SynthName(pf, base, Http, httpName) != SynthName(pf, base, f, httpName)
  {
    LabelsEqualIff(pf.hash, base + "-" + httpName, NamePrefix(base, f) + "-" + l4Name);
    if FitsFamily(base, Http, httpName) && FitsFamily(base, f, l4Name) {
      FittingFamiliesCollideIff(pf, base, f, httpName, l4Name);
    }
    if FitsFamily(base, Http, httpName) && FitsFamily(base, f, httpName) {
      FittingFamiliesCollideIff(pf, base, f, httpName, httpName);
    }
  }

  lemma FittingFamiliesCollideIff(pf: Platform, base: string, f: Family, httpName: string, l4Name: string)
    requires base in {"svc", "eps", "be", "btp"} && f != Http
    requires FitsFamily(base, Http, httpName) && FitsFamily(base, f, l4Name)
    ensures SynthName(pf, base, Http, httpName) == SynthName(pf, base, f, l4Name) <==>
            Stem(httpName) == Infix(f) + (if Stem(l4Name) == [] then "" else "-" + Stem(l4Name))
    ensures SynthName(pf, base, Http, httpName) != SynthName(pf, base, f, httpName) || l4Name != httpName
  {
    SynthNameFits(pf, base, Http, httpName);
    SynthNameFits(pf, base, f, l4Name);
    TailsEqualIff(base, f, httpName, l4Name);
  }

  lemma TailsEqualIff(base: string, f: Family, httpName: string, l4Name: string)
    requires f != Http
    ensures base + NameTail(Http, httpName) == base + NameTail(f, l4Name) <==>
            Stem(httpName) == Infix(f) + (if Stem(l4Name) == [] then "" else "-" + Stem(l4Name))
  {
    var rest := Infix(f) + (if Stem(l4Name) == [] then "" else "-" + Stem(l4Name));
    assert NameTail(f, l4Name) == "-" + rest;
    Cancel(base, NameTail(Http, httpName), NameTail(f, l4Name));
    if Stem(httpName) != [] {
      assert NameTail(Http, httpName) == "-" + Stem(httpName);
      Cancel("-", Stem(httpName), rest);
    }
  }

  lemma Cancel(a: string, b: string, c: string)
    ensures a + b == a + c <==> b == c
  {
    if a + b == a + c {
      assert b == (a + b)[|a|..] && c == (a + c)[|a|..];
    }
  }
}
