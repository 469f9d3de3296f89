/** What holds of every built manifest as a whole, beyond well-formedness: its listeners,
    its port owners, and its visibility to the sweeper. */
module Guarantees {
  import opened Prelude
  import opened Objects
  import opened Naming
  import opened Backend
  import opened Emit
  import opened L4
  import opened Routes
  import opened ListenerSets
  import opened Ports
  import opened Build

  // ---- Listeners ----------------------------------------------------------------------------

  /** Every dialect of the plan tells ports apart. */
  ghost predicate PlanTells(p: Plan) {
    && (p.tcp.Some? ==> DialectTells(p.tcp.value.dialect))
    && (p.udp.Some? ==> DialectTells(p.udp.value.dialect))
  }

  lemma PlanOfTells(env: Env, dyn: DynamicConfig)
    ensures PlanTells(PlanOf(env, dyn))
  {
    ProgramDialectTells(env.pf.hash, Tcp);
    ProgramDialectTells(env.pf.hash, Udp);
  }

  lemma FamilyListeners(cfg: Config, naming: NamingScheme, block: Option<L4Plan>, f: Family, enabled: bool, d: Desired)
    requires block.Some? ==> TargetsSound(cfg, block.value.targets) && DialectTells(block.value.dialect)
    ensures var ls := L4Family(cfg, naming, block, f, enabled, d).listeners;
      && ConflictFree(ls) && Speaks(ls, {Protocol(f)})
      && forall i :: 0 <= i < |ls| ==> ls[i].port >= 0 && !Reserved(cfg, f, ls[i].port)
  {
    if block.Some? && enabled {
      var b := BuildAll(cfg, naming, f, block.value.targets, Built(map[], d));
      OwnedListenersConflictFree(cfg, block.value.dialect, f, b.index, block.value.routers, b.desired);
    }
  }

  lemma RoutersRecordAscending(p: Plan)
    requires PlanValid(p)
    ensures HostsPart(HttpRoutes(p))
  {
    HttpPhases(p);
  }

  /** Main result: for every input, the listeners of the one ListenerSet differ pairwise in
      port, protocol or hostname. */
  lemma ListenersNeverConflict(p: Plan)
    requires PlanValid(p) && PlanTells(p)
    ensures ConflictFree(ListenersOf(p))
  {
    RoutersRecordAscending(p);
    FamilyListeners(p.cfg, p.naming, p.tcp, Tcp, p.cfg.enableTcpRoutes, HttpRoutes(p).desired);
    FamilyListeners(p.cfg, p.naming, p.udp, Udp, p.cfg.enableUdpRoutes, TcpPart(p).desired);
    ListenersConflictFree(p.cfg, p.hostNames, HttpRoutes(p).hostnames, HttpRoutes(p).httpsHosts,
                          TcpPart(p).listeners, UdpPart(p).listeners);
  }

  predicate Spares(ls: seq<Listener>, protocol: string, ports: set<int>) {
    forall i :: 0 <= i < |ls| && ls[i].protocol == protocol ==> ls[i].port !in ports
  }

  lemma SparesConcat(a: seq<Listener>, b: seq<Listener>, protocol: string, ports: set<int>)
    requires Spares(a, protocol, ports) && Spares(b, protocol, ports)
    ensures Spares(a + b, protocol, ports)
  {}

  lemma OtherProtocolsSpare(ls: seq<Listener>, protocol: string, protocols: set<string>, ports: set<int>)
    requires Speaks(ls, protocols) && protocol !in protocols
    ensures Spares(ls, protocol, ports)
  {}

  /** Main result: no TCP listener uses the HTTP or the HTTPS port. */
  lemma TcpSparesReservedPorts(p: Plan)
    requires PlanValid(p) && PlanTells(p)
    ensures Spares(ListenersOf(p), "TCP", {p.cfg.httpPort, p.cfg.httpsPort})
  {
    var ports := {p.cfg.httpPort, p.cfg.httpsPort};
    var t, u := TcpPart(p).listeners, UdpPart(p).listeners;
    var http := HttpListeners(p.cfg, p.hostNames, HttpRoutes(p).hostnames);
    var https := HttpsListeners(p.cfg, p.hostNames, HttpRoutes(p).httpsHosts);
    var secure := if ServesHttps(p.cfg) then https else [];
    RoutersRecordAscending(p);
    FamilyListeners(p.cfg, p.naming, p.tcp, Tcp, p.cfg.enableTcpRoutes, HttpRoutes(p).desired);
    FamilyListeners(p.cfg, p.naming, p.udp, Udp, p.cfg.enableUdpRoutes, TcpPart(p).desired);
    HostsConflictFree(p.cfg, p.hostNames, HttpRoutes(p).hostnames, HttpRoutes(p).httpsHosts);
    ProtocolsDiffer();
    assert "TCP" in {"TCP"} && "TCP" !in {"UDP"} && "TCP" !in {"HTTPS"} && "TCP" !in {"HTTP"};
    OtherProtocolsSpare(http, "TCP", {"HTTP"}, ports);
    OtherProtocolsSpare(https, "TCP", {"HTTPS"}, ports);
    OtherProtocolsSpare(u, "TCP", {"UDP"}, ports);
    SparesConcat(t, u, "TCP", ports);
    SparesConcat(secure, t + u, "TCP", ports);
    SparesConcat(http, secure + (t + u), "TCP", ports);
  }

  // ---- Port owners in the finished manifest ---------------------------------------------------

  lemma FamilyRoutesShareNoSection(cfg: Config, naming: NamingScheme, block: Option<L4Plan>, f: Family, enabled: bool,
                                   d: Desired, k: Key, l: Key)
    requires block.Some? ==> TargetsSound(cfg, block.value.targets) && DialectTells(block.value.dialect)
    requires f != Http && NamingValid(naming) && forall x :: x in d ==> x.kind != RouteKind(f)
    requires var d' := L4Family(cfg, naming, block, f, enabled, d).desired;
      k in d' && l in d' && k != l && k.kind == l.kind == RouteKind(f)
    ensures var d' := L4Family(cfg, naming, block, f, enabled, d).desired;
      DisjointSections(d'[k].body, d'[l].body)
  {
    var plan, start := block.value, Built(map[], d);
    var b := BuildAll(cfg, naming, f, plan.targets, start);
    BuildResolves(cfg, naming, f, plan.targets, start);
    assert RouteKey(plan.dialect, f, "").kind == RouteKind(f);
    RoutesShareNoSection(cfg, plan.dialect, f, b.index, plan.routers, b.desired, k, l);
  }

  lemma Untouched(cfg: Config, kinds: set<Kind>, d: Desired, d': Desired, k: Key)
    requires Adds(cfg, kinds, d, d') && k in d' && k.kind !in kinds
    ensures k in d && d'[k] == d[k]
  {}

  /** The phase a raw route of the finished manifest comes from. */
  lemma RawRouteSource(p: Plan, k: Key)
    requires PlanValid(p) && k in BuildSpec(p) && k.kind in {TCPRoute, UDPRoute}
    ensures var source := if k.kind == TCPRoute then TcpPart(p).desired else UdpPart(p).desired;
      k in source && source[k] == BuildSpec(p)[k]
  {
    BeforeListeners(p, k);
    if k.kind == TCPRoute { BeforeUdp(p, k); }
  }

  lemma BeforeListeners(p: Plan, k: Key)
    requires PlanValid(p) && k in BuildSpec(p) && k.kind != ListenerSet
    ensures k in UdpPart(p).desired && UdpPart(p).desired[k] == BuildSpec(p)[k]
  {
    WholeBuildAdds(p);
    Untouched(p.cfg, {ListenerSet}, UdpPart(p).desired, BuildSpec(p), k);
  }

  lemma BeforeUdp(p: Plan, k: Key)
    requires PlanValid(p) && k in UdpPart(p).desired && k.kind == TCPRoute
    ensures k in TcpPart(p).desired && TcpPart(p).desired[k] == UdpPart(p).desired[k]
  {
    UdpPhase(p);
    Untouched(p.cfg, BackendKinds(p.cfg) + {UDPRoute}, TcpPart(p).desired, UdpPart(p).desired, k);
  }

  lemma NoneOfKindBefore(p: Plan)
    requires PlanValid(p)
    ensures forall k :: k in HttpRoutes(p).desired ==> k.kind != TCPRoute
    ensures forall k :: k in TcpPart(p).desired ==> k.kind != UDPRoute
  {
    HttpPhases(p);
    TcpPhase(p);
    NoneAdded(p.cfg, BackendKinds(p.cfg) + {HTTPRoute, SecurityPolicy}, HttpRoutes(p).desired, TCPRoute);
    NoneAdded(p.cfg, BackendKinds(p.cfg) + {HTTPRoute, SecurityPolicy} + (BackendKinds(p.cfg) + {TCPRoute}),
              TcpPart(p).desired, UDPRoute);
  }

  /** Main result: in the finished manifest, different routes of one protocol have no
      section in common. */
  lemma ManifestRoutesShareNoSection(p: Plan, k: Key, l: Key)
    requires PlanValid(p) && PlanTells(p)
    requires k in BuildSpec(p) && l in BuildSpec(p) && k != l && k.kind == l.kind && k.kind in {TCPRoute, UDPRoute}
    ensures DisjointSections(BuildSpec(p)[k].body, BuildSpec(p)[l].body)
  {
    RawRouteSource(p, k);
    RawRouteSource(p, l);
    NoneOfKindBefore(p);
    if k.kind == TCPRoute {
      FamilyRoutesShareNoSection(p.cfg, p.naming, p.tcp, Tcp, p.cfg.enableTcpRoutes, HttpRoutes(p).desired, k, l);
    } else {
      FamilyRoutesShareNoSection(p.cfg, p.naming, p.udp, Udp, p.cfg.enableUdpRoutes, TcpPart(p).desired, k, l);
    }
  }

  // ---- Listener names ----------------------------------------------------------------------------

  /** What comes before the first dash: the family a listener name belongs to. */
  function Head(s: string): string {
    if s == [] || s[0] == '-' then [] else [s[0]] + Head(s[1..])
  }

  lemma {:induction false} HeadOfDashed(p: string, rest: string)
    requires '-' !in p && (rest == [] || rest[0] == '-')
    ensures Head(p + rest) == p
  {
    if p == [] {
      assert p + rest == rest;
    } else {
      assert (p + rest)[0] == p[0] && (p + rest)[1..] == p[1..] + rest;
      HeadOfDashed(p[1..], rest);
    }
  }

  lemma HeadOfFamily(p: string, s: string)
    requires '-' !in p && InFamily(p, s)
    ensures Head(s) == p
  {
    if s == p {
      assert p + [] == p;
      HeadOfDashed(p, []);
    } else {
      var rest := s[|p|..];
      assert s == p + rest;
      assert rest[0] == (p + "-")[|p|];
      HeadOfDashed(p, rest);
    }
  }

  predicate NamesDiffer(ls: seq<Listener>) {
    forall i, j :: 0 <= i < j < |ls| ==> ls[i].name != ls[j].name
  }

  predicate Heads(ls: seq<Listener>, heads: set<string>) {
    forall i :: 0 <= i < |ls| ==> Head(ls[i].name) in heads
  }

  lemma NamesDifferConcat(a: seq<Listener>, b: seq<Listener>, ha: set<string>, hb: set<string>)
    requires Heads(a, ha) && Heads(b, hb) && ha !! hb
    ensures Heads(a + b, ha + hb)
    ensures NamesDiffer(a + b) <==> NamesDiffer(a) && NamesDiffer(b)
  {
    var c := a + b;
    assert forall i :: 0 <= i < |a| ==> c[i] == a[i];
    assert forall i :: 0 <= i < |b| ==> c[|a| + i] == b[i];
    if NamesDiffer(a) && NamesDiffer(b) {
      forall i, j | 0 <= i < j < |c| ensures c[i].name != c[j].name {
        if i < |a| <= j { assert Head(c[i].name) in ha && Head(c[j].name) in hb; }
      }
    }
  }

  /** Hosts and ports get names in four families, and raw ones differ. */
  ghost predicate NamesTell(p: Plan) {
    && (forall host :: Head(p.hostNames.http(host)) == "http" && Head(p.hostNames.https(host)) == "https")
    && (p.tcp.Some? ==> forall port :: IsPort(port) ==> Head(p.tcp.value.dialect.listener(port)) == "tcp")
    && (p.udp.Some? ==> forall port :: IsPort(port) ==> Head(p.udp.value.dialect.listener(port)) == "udp")
  }

  lemma HostHeads(h: NameHash, template: string, host: string)
    ensures Head(ProgramHostNames(h, template).http(host)) == "http"
    ensures Head(ProgramHostNames(h, template).https(host)) == "https"
  {
    var hn := ProgramHostNames(h, template);
    HostNamesInFamily(h, template, host);
    HeadOfFamily("http", hn.http(host));
    HeadOfFamily("https", hn.https(host));
  }

  lemma RawHeads(h: NameHash, f: Family, port: nat)
    requires f != Http && IsPort(port)
    ensures Head(ProgramDialect(h, f).listener(port)) == Infix(f)
  {
    L4NamesInFamily(h, f, port);
    HeadOfFamily(Infix(f), ProgramDialect(h, f).listener(port));
  }

  lemma PlanOfNamesTell(env: Env, dyn: DynamicConfig)
    ensures NamesTell(PlanOf(env, dyn))
  {
    var hn := ProgramHostNames(env.pf.hash, TemplateOf(env.cfg));
    forall host ensures Head(hn.http(host)) == "http" && Head(hn.https(host)) == "https" {
      HostHeads(env.pf.hash, TemplateOf(env.cfg), host);
    }
    forall port | IsPort(port) ensures Head(ProgramDialect(env.pf.hash, Tcp).listener(port)) == "tcp" {
      RawHeads(env.pf.hash, Tcp, port);
    }
    forall port | IsPort(port) ensures Head(ProgramDialect(env.pf.hash, Udp).listener(port)) == "udp" {
      RawHeads(env.pf.hash, Udp, port);
    }
  }

  lemma OwnedNamesDiffer(cfg: Config, dia: Dialect, f: Family, backends: Index, routers: seq<Entry<Router>>, d: Desired,
                         head: string)
    requires DialectTells(dia) && forall port :: IsPort(port) ==> Head(dia.listener(port)) == head
    ensures var ls := RouteAll(cfg, dia, f, backends, routers, {}, d).listeners;
      NamesDiffer(ls) && Heads(ls, {head})
  {
    RouteAllIsAllocation(cfg, dia, f, backends, routers, {}, d);
    var owned := Owned(cfg, dia, f, backends, routers);
    var ports := Flatten(owned);
    var ls := Listeners(dia, f, ports);
    AllocationAvoidsTaken(AllWanted(cfg, dia, f, backends, routers), {});
    forall i | 0 <= i < |ls| ensures ls[i].name == dia.listener(ports[i]) && IsPort(ports[i]) {
      ListenersAt(dia, f, ports, i);
      assert ports[i] in ports;
      InFlatten(owned, ports[i]);
      var o :| 0 <= o < |routers| && ports[i] in owned[o];
      OwnedArePorts(cfg, dia, f, backends, routers, o, ports[i]);
    }
  }

  lemma FamilyNamesDiffer(cfg: Config, naming: NamingScheme, block: Option<L4Plan>, f: Family, enabled: bool,
                          d: Desired, head: string)
    requires block.Some? ==> TargetsSound(cfg, block.value.targets) && DialectTells(block.value.dialect)
    requires block.Some? ==> forall port :: IsPort(port) ==> Head(block.value.dialect.listener(port)) == head
    ensures var ls := L4Family(cfg, naming, block, f, enabled, d).listeners; NamesDiffer(ls) && Heads(ls, {head})
  {
    if block.Some? && enabled {
      var b := BuildAll(cfg, naming, f, block.value.targets, Built(map[], d));
      OwnedNamesDiffer(cfg, block.value.dialect, f, b.index, block.value.routers, b.desired, head);
    }
  }

  /** Main result: listener names can clash only between two hosts of one family; ports,
      protocols and TLS never cause a clash, hashed names included. */
  lemma ListenerNamesDifferIff(p: Plan)
    requires PlanSound(p) && PlanTells(p) && NamesTell(p)
    ensures NamesDiffer(ListenersOf(p)) <==>
      && NamesDiffer(HttpListeners(p.cfg, p.hostNames, HttpRoutes(p).hostnames))
      && (ServesHttps(p.cfg) ==> NamesDiffer(HttpsListeners(p.cfg, p.hostNames, HttpRoutes(p).httpsHosts)))
  {
    var t, u := TcpPart(p).listeners, UdpPart(p).listeners;
    var http := HttpListeners(p.cfg, p.hostNames, HttpRoutes(p).hostnames);
    var secure := if ServesHttps(p.cfg) then HttpsListeners(p.cfg, p.hostNames, HttpRoutes(p).httpsHosts) else [];
    FamilyNamesDiffer(p.cfg, p.naming, p.tcp, Tcp, p.cfg.enableTcpRoutes, HttpRoutes(p).desired, "tcp");
    FamilyNamesDiffer(p.cfg, p.naming, p.udp, Udp, p.cfg.enableUdpRoutes, TcpPart(p).desired, "udp");
    HeadsDiffer();
    assert Heads(http, {"http"}) && Heads(secure, {"https"});
    NamesDifferConcat(t, u, {"tcp"}, {"udp"});
    NamesDifferConcat(secure, t + u, {"https"}, {"tcp"} + {"udp"});
    NamesDifferConcat(http, secure + (t + u), {"http"}, {"https"} + ({"tcp"} + {"udp"}));
  }

  lemma HeadsDiffer()
    ensures {"tcp"} !! {"udp"} && {"https"} !! {"tcp"} + {"udp"} && {"http"} !! {"https"} + ({"tcp"} + {"udp"})
  {
    assert "tcp"[0] != "udp"[0] && "http"[0] != "tcp"[0] && "http"[0] != "udp"[0] && |"http"| != |"https"|;
    assert "https"[0] != "tcp"[0] && "https"[0] != "udp"[0];
  }

  predicate StemsDiffer(hosts: seq<string>) {
    forall i, j :: 0 <= i < j < |hosts| ==> Stem(hosts[i]) != Stem(hosts[j])
  }

  /** Main result: where host names fit, all listener names of a build are distinct if and
      only if no two of its hosts sanitise to one stem. */
  lemma ShortListenerNamesDifferIff(env: Env, dyn: DynamicConfig)
    requires forall host :: host in HttpRoutes(PlanOf(env, dyn)).hostnames ==> |Stem(host)| <= 57
    ensures NamesDiffer(ListenersOf(PlanOf(env, dyn))) <==> StemsDiffer(HttpRoutes(PlanOf(env, dyn)).hostnames)
  {
    var p := PlanOf(env, dyn);
    var h, template := env.pf.hash, TemplateOf(env.cfg);
    var hosts, https := HttpRoutes(p).hostnames, HttpRoutes(p).httpsHosts;
    PlanOfIsValid(env, dyn);
    PlanOfTells(env, dyn);
    PlanOfNamesTell(env, dyn);
    ListenerNamesDifferIff(p);
    RoutersRecordAscending(p);
    HostNamesDifferIff(h, template, p.cfg, hosts);
    HttpsFollowsHttp(h, template, p.cfg, hosts, https);
  }

  lemma HostNamesDifferIff(h: NameHash, template: string, cfg: Config, hosts: seq<string>)
    requires forall host :: host in hosts ==> |Stem(host)| <= 57
    ensures NamesDiffer(HttpListeners(cfg, ProgramHostNames(h, template), hosts)) <==> StemsDiffer(hosts)
    ensures NamesDiffer(HttpsListeners(cfg, ProgramHostNames(h, template), hosts)) <==> StemsDiffer(hosts)
  {
    var hn := ProgramHostNames(h, template);
    var http, https := HttpListeners(cfg, hn, hosts), HttpsListeners(cfg, hn, hosts);
    forall i, j | 0 <= i < j < |hosts|
      ensures http[i].name == http[j].name <==> Stem(hosts[i]) == Stem(hosts[j])
      ensures https[i].name == https[j].name <==> Stem(hosts[i]) == Stem(hosts[j])
    {
      assert http[i].name == hn.http(hosts[i]) && https[i].name == hn.https(hosts[i]);
      assert http[j].name == hn.http(hosts[j]) && https[j].name == hn.https(hosts[j]);
      HostNamesClashIff(h, template, hosts[i], hosts[j]);
    }
  }

  /** The https hosts are among the hosts, so they add no clash. */
  lemma HttpsFollowsHttp(h: NameHash, template: string, cfg: Config, hosts: seq<string>, https: seq<string>)
    requires forall host :: host in hosts ==> |Stem(host)| <= 57
    requires Ascending(https) && forall host :: host in https ==> host in hosts
    ensures StemsDiffer(hosts) ==> NamesDiffer(HttpsListeners(cfg, ProgramHostNames(h, template), https))
  {
    if StemsDiffer(hosts) {
      forall i, j | 0 <= i < j < |https| ensures Stem(https[i]) != Stem(https[j]) {
        AscendingIsDistinct(https, i, j);
        assert https[i] in https && https[j] in https;
        var a :| 0 <= a < |hosts| && hosts[a] == https[i];
        var b :| 0 <= b < |hosts| && hosts[b] == https[j];
        assert a != b;
      }
      HostNamesDifferIff(h, template, cfg, https);
    }
  }

  // ---- Visible to the sweeper ------------------------------------------------------------------------

  /** The slice label, when it is one of the two owner keys, must carry that key's value. */
  predicate SliceLabelAgrees(cfg: Config, service: string) {
    && (cfg.managedLabelKey == SERVICE_NAME_LABEL ==> service == cfg.managedLabelValue)
    && (cfg.instanceLabelKey == SERVICE_NAME_LABEL ==> service == cfg.instanceLabelValue)
  }

  /** An object of a built manifest is visible to the sweeper exactly when the owner keys
      overwrite neither each other nor, on slices, the service-name label. */
  lemma StampedIsSelectedIff(cfg: Config, k: Key, o: Obj)
    requires StampedLabels(cfg, k, o)
    ensures Selected(cfg, o.labels) <==>
      if k.kind == EndpointSlice then
        SliceLabelAgrees(cfg, o.labels[SERVICE_NAME_LABEL]) &&
        (cfg.managedLabelKey != cfg.instanceLabelKey || cfg.managedLabelKey == SERVICE_NAME_LABEL ||
         cfg.managedLabelValue == cfg.instanceLabelValue)
      else cfg.managedLabelKey != cfg.instanceLabelKey || cfg.managedLabelValue == cfg.instanceLabelValue
  {}

  /** Label keys a configuration should have. */
  predicate KeysApart(cfg: Config) {
    cfg.managedLabelKey != cfg.instanceLabelKey && cfg.managedLabelKey != SERVICE_NAME_LABEL
    && cfg.instanceLabelKey != SERVICE_NAME_LABEL
  }

  lemma ManifestIsSelected(p: Plan)
    requires PlanValid(p) && KeysApart(p.cfg)
    ensures forall k :: k in BuildSpec(p) ==> Selected(p.cfg, BuildSpec(p)[k].labels)
  {
    ManifestIsWellFormed(p);
    forall k | k in BuildSpec(p) ensures Selected(p.cfg, BuildSpec(p)[k].labels) {
      StampedIsSelectedIff(p.cfg, k, BuildSpec(p)[k]);
    }
  }
}
