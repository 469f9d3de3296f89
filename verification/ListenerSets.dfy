/** One ListenerSet: an HTTP listener per host, HTTPS listeners, and the L4 listeners. */
module ListenerSets {
  import opened Prelude
  import opened Objects
  import opened Text
  import opened Naming
  import opened Backend
  import opened Emit
  import opened L4
  import opened Routes

  /** Every occurrence of `pat`, left to right, replaced. */
  function Replace(s: string, pat: string, by_: string): string
    requires pat != []
    decreases |s|
  {
    if s == [] then []
    else if pat <= s then by_ + Replace(s[|pat|..], pat, by_)
    else [s[0]] + Replace(s[1..], pat, by_)
  }

  function Dashed(host: string): (r: string)
    ensures |r| == |host|
  {
    if host == [] then [] else [if host[0] == '.' then '-' else host[0]] + Dashed(host[1..])
  }

  function RenderSecretName(template: string, host: string): string {
    Replace(Replace(template, "{hostname}", host), "{hostname-dashed}", Dashed(host))
  }

  /** How hosts become listener names and secrets; for the program, `ProgramHostNames`. */
  datatype HostNames = HostNames(http: string -> string, https: string -> string, secret: string -> string)

  function ProgramHostNames(h: NameHash, template: string): HostNames {
    HostNames(host => PrefixedLabel(h, "http", host), host => PrefixedLabel(h, "https", host),
              host => RenderSecretName(template, host))
  }

  function HttpListener(cfg: Config, hn: HostNames, host: string): Listener {
    Listener(hn.http(host), Some(host), cfg.httpPort, "HTTP", None)
  }

  function HttpsListener(cfg: Config, hn: HostNames, host: string): Listener {
    Listener(hn.https(host), Some(host), cfg.httpsPort, "HTTPS", Some(hn.secret(host)))
  }

  function HttpListeners(cfg: Config, hn: HostNames, hosts: seq<string>): (r: seq<Listener>)
    ensures |r| == |hosts| && forall i :: 0 <= i < |r| ==> r[i] == HttpListener(cfg, hn, hosts[i])
  {
    if hosts == [] then [] else [HttpListener(cfg, hn, hosts[0])] + HttpListeners(cfg, hn, hosts[1..])
  }

  function HttpsListeners(cfg: Config, hn: HostNames, hosts: seq<string>): (r: seq<Listener>)
    ensures |r| == |hosts| && forall i :: 0 <= i < |r| ==> r[i] == HttpsListener(cfg, hn, hosts[i])
  {
    if hosts == [] then [] else [HttpsListener(cfg, hn, hosts[0])] + HttpsListeners(cfg, hn, hosts[1..])
  }

  /** HTTPS listeners need both the switch and a secret template. */
  predicate ServesHttps(cfg: Config) {
    cfg.enableHttpsListeners && cfg.tlsSecretTemplate.Some?
  }

  function AllListeners(cfg: Config, hn: HostNames, hosts: seq<string>, https: seq<string>,
                        l4: seq<Listener>): seq<Listener> {
    HttpListeners(cfg, hn, hosts) + ((if ServesHttps(cfg) then HttpsListeners(cfg, hn, https) else []) + l4)
  }

  function TemplateOf(cfg: Config): string {
    if cfg.tlsSecretTemplate.Some? then cfg.tlsSecretTemplate.value else ""
  }

  function WithListenerSet(cfg: Config, hn: HostNames, name: string, hosts: seq<string>, https: seq<string>,
                           l4: seq<Listener>, d: Desired): Desired
  {
    d[Key(ListenerSet, name) := Obj(OwnerLabels(cfg), ListenerSetBody(AllListeners(cfg, hn, hosts, https, l4)))]
  }

  function ListenerSetName(env: Env): string {
    DnsLabel(env.pf.hash, env.cfg.listenerSetName)
  }

  method CollectListeners(cfg: Config, hn: HostNames, hosts: seq<string>, https: seq<string>, l4: seq<Listener>)
    returns (listeners: seq<Listener>)
    ensures listeners == AllListeners(cfg, hn, hosts, https, l4)
  {
    listeners := [];
    ghost var http, secure := HttpListeners(cfg, hn, hosts), HttpsListeners(cfg, hn, https);
    for i := 0 to |hosts|
      invariant listeners == http[..i]
    {
      listeners := listeners + [HttpListener(cfg, hn, hosts[i])];
    }
    assert http[..|hosts|] == http;
    if ServesHttps(cfg) {
      var i := 0;
      assert secure[..0] == [] && http + [] == http;
      while i < |https|
        invariant i <= |https| && listeners == http + secure[..i]
      {
        listeners := PushSecure(cfg, hn, https, i, http, listeners);
        i := i + 1;
      }
      assert secure[..|https|] == secure;
      assert (http + secure) + l4 == http + (secure + l4);
    } else {
      assert [] + l4 == l4;
    }
    listeners := listeners + l4;
  }

  method PushSecure(cfg: Config, hn: HostNames, https: seq<string>, i: nat, ghost http: seq<Listener>,
                    before: seq<Listener>)
    returns (listeners: seq<Listener>)
    requires i < |https| && before == http + HttpsListeners(cfg, hn, https)[..i]
    ensures listeners == http + HttpsListeners(cfg, hn, https)[..i + 1]
  {
    ghost var all := HttpsListeners(cfg, hn, https);
    assert all[..i + 1] == all[..i] + [all[i]];
    listeners := before + [HttpsListener(cfg, hn, https[i])];
    assert http + (all[..i] + [all[i]]) == (http + all[..i]) + [all[i]];
  }

  method BuildListenerSet(env: Env, hosts: seq<string>, https: seq<string>, l4: seq<Listener>, before: Desired)
    returns (desired: Desired)
    ensures desired == WithListenerSet(env.cfg, ProgramHostNames(env.pf.hash, TemplateOf(env.cfg)),
                                       ListenerSetName(env),
                                       hosts, https, l4, before)
  {
    var listeners := CollectListeners(env.cfg, ProgramHostNames(env.pf.hash, TemplateOf(env.cfg)), hosts, https, l4);
    var name := MakeDnsLabel(env.pf.hash, env.cfg.listenerSetName);
    desired := before[Key(ListenerSet, name) := Obj(OwnerLabels(env.cfg), ListenerSetBody(listeners))];
  }

  /** Routes name the ListenerSet as configured, so they find it exactly when that name
      is already a valid label. */
  lemma ParentRefResolvesIff(env: Env)
    ensures ListenerSetName(env) == env.cfg.listenerSetName <==> ValidLabel(env.cfg.listenerSetName)
  {
    DnsLabelIsValid(env.pf.hash, env.cfg.listenerSetName);
    DnsLabelIdempotent(env.pf.hash, env.cfg.listenerSetName);
  }

  // ---- No two listeners conflict -------------------------------------------------------------------

  /** Gateway API tells listeners apart by port, protocol and hostname. */
  predicate SameSlot(a: Listener, b: Listener) {
    a.port == b.port && a.protocol == b.protocol && a.hostname == b.hostname
  }

  predicate ConflictFree(ls: seq<Listener>) {
    forall i, j :: 0 <= i < j < |ls| ==> !SameSlot(ls[i], ls[j])
  }

  predicate Speaks(ls: seq<Listener>, protocols: set<string>) {
    forall i :: 0 <= i < |ls| ==> ls[i].protocol in protocols
  }

  lemma ConflictFreeConcat(a: seq<Listener>, b: seq<Listener>, pa: set<string>, pb: set<string>)
    requires ConflictFree(a) && ConflictFree(b) && Speaks(a, pa) && Speaks(b, pb) && pa !! pb
    ensures ConflictFree(a + b) && Speaks(a + b, pa + pb)
  {
    var c := a + b;
    forall i, j | 0 <= i < j < |c| ensures !SameSlot(c[i], c[j]) {
      if i < |a| <= j {
        assert c[i].protocol in pa && c[j].protocol in pb;
      }
    }
  }

  lemma {:induction false} ListenersAt(dia: Dialect, f: Family, ports: seq<nat>, i: nat)
    requires i < |ports|
    ensures Listeners(dia, f, ports)[i] == MakeListener(dia, f, ports[i])
  {
    if i > 0 { ListenersAt(dia, f, ports[1..], i - 1); }
  }

  lemma L4ConflictFree(dia: Dialect, f: Family, ports: seq<nat>)
    requires Distinct(ports)
    ensures ConflictFree(Listeners(dia, f, ports)) && Speaks(Listeners(dia, f, ports), {Protocol(f)})
  {
    var ls := Listeners(dia, f, ports);
    forall i | 0 <= i < |ls| ensures ls[i] == MakeListener(dia, f, ports[i]) { ListenersAt(dia, f, ports, i); }
  }

  lemma HostsConflictFree(cfg: Config, hn: HostNames, hosts: seq<string>, https: seq<string>)
    requires Ascending(hosts) && Ascending(https)
    ensures ConflictFree(HttpListeners(cfg, hn, hosts)) && Speaks(HttpListeners(cfg, hn, hosts), {"HTTP"})
    ensures ConflictFree(HttpsListeners(cfg, hn, https)) && Speaks(HttpsListeners(cfg, hn, https), {"HTTPS"})
  {
    forall i, j | 0 <= i < j < |hosts| ensures hosts[i] != hosts[j] { AscendingIsDistinct(hosts, i, j); }
    forall i, j | 0 <= i < j < |https| ensures https[i] != https[j] { AscendingIsDistinct(https, i, j); }
  }

  /** Whatever hosts: if the raw listeners do not conflict among themselves, the port,
      protocol and hostname triples of all listeners are distinct. */
  lemma ListenersConflictFree(cfg: Config, hn: HostNames, hosts: seq<string>, https: seq<string>,
                              tcp: seq<Listener>, udp: seq<Listener>)
    requires Ascending(hosts) && Ascending(https)
    requires ConflictFree(tcp) && Speaks(tcp, {"TCP"}) && ConflictFree(udp) && Speaks(udp, {"UDP"})
    ensures ConflictFree(AllListeners(cfg, hn, hosts, https, tcp + udp))
  {
    HostsConflictFree(cfg, hn, hosts, https);
    ProtocolsDiffer();
    ConflictFreeConcat(tcp, udp, {"TCP"}, {"UDP"});
    var secure := if ServesHttps(cfg) then HttpsListeners(cfg, hn, https) else [];
    ConflictFreeConcat(secure, tcp + udp, {"HTTPS"}, {"TCP"} + {"UDP"});
    ConflictFreeConcat(HttpListeners(cfg, hn, hosts), secure + (tcp + udp), {"HTTP"}, {"HTTPS"} + ({"TCP"} + {"UDP"}));
  }

  lemma ProtocolsDiffer()
    ensures {"TCP"} !! {"UDP"} && {"HTTPS"} !! {"TCP"} + {"UDP"} && {"HTTP"} !! {"HTTPS"} + ({"TCP"} + {"UDP"})
  {
    assert "TCP"[0] != "UDP"[0] && "HTTP"[0] != "TCP"[0] && "HTTP"[0] != "UDP"[0] && |"HTTP"| != |"HTTPS"|;
    assert "HTTPS"[0] != "TCP"[0] && "HTTPS"[0] != "UDP"[0];
  }

  // ---- Names of listeners -----------------------------------------------------------------------------

  lemma HostNamesInFamily(h: NameHash, template: string, host: string)
    ensures InFamily("http", ProgramHostNames(h, template).http(host))
    ensures InFamily("https", ProgramHostNames(h, template).https(host))
  {
    PlainIsClean("http", "");
    PlainIsClean("https", "");
    PrefixedLabelInFamily(h, "http", host);
    PrefixedLabelInFamily(h, "https", host);
  }

  lemma L4NamesInFamily(h: NameHash, f: Family, port: nat)
    requires f != Http && 0 < port < 0x1_0000
    ensures InFamily(Infix(f), ProgramDialect(h, f).listener(port))
  {
    ListenerNameIsPlain(h, f, port);
    assert Infix(f) + "-" <= Infix(f) + "-" + Decimal(port);
  }

  lemma L4NamesInjective(h: NameHash, f: Family, p: nat, q: nat)
    requires f != Http && 0 < p < 0x1_0000 && 0 < q < 0x1_0000
    requires ProgramDialect(h, f).listener(p) == ProgramDialect(h, f).listener(q)
    ensures p == q
  {
    ListenerNameRoundTrip(h, f, p);
    ListenerNameRoundTrip(h, f, q);
  }

  /** Where names fit, two hosts get the same listener name exactly when they sanitise
      to the same stem: `A.com` and `a.com` do. */
  lemma HostNamesClashIff(h: NameHash, template: string, a: string, b: string)
    requires |Stem(a)| <= 57 && |Stem(b)| <= 57
    ensures ProgramHostNames(h, template).http(a) == ProgramHostNames(h, template).http(b) <==> Stem(a) == Stem(b)
    ensures ProgramHostNames(h, template).https(a) == ProgramHostNames(h, template).https(b) <==> Stem(a) == Stem(b)
  {
    PlainIsClean("http", "");
    PlainIsClean("https", "");
    PrefixedLabelInjectiveIff(h, "http", a, b);
    PrefixedLabelInjectiveIff(h, "https", a, b);
  }
}
