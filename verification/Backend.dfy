/** Pangolin services to backend references, and the objects synthesised for them. */
module Backend {
  import opened Prelude
  import opened Objects
  import opened Text
  import opened Naming
  import opened Middleware
  import opened Address
  import ControllerSteps

  type Desired = ControllerSteps.Cluster

  datatype Url = Url(host: Option<string>, port: Option<int>, https: bool)

  /** Library functions about which nothing is assumed: the name hash, URL parsing
      (with the scheme's default port), and reading an IP literal into its printed form. */
  datatype Platform = Platform(
    hash: NameHash,
    parseUrl: string -> Option<Url>,
    parseIp: string -> Option<string>)

  datatype Classification =
    | Empty
    | Ips(entries: seq<string>, port: int, tls: bool)
    | Fqdn(hostname: string, port: int, tls: bool)
    | ClusterDns(service: string, namespace: string, port: int, tls: bool)

  // ---- Server lists -----------------------------------------------------------------

  function StripBrackets(h: string): string {
    DropChar(DropLead(h, '['), ']')
  }

  function DropLead(s: string, c: char): string {
    if s != [] && s[0] == c then DropLead(s[1..], c) else s
  }

  function DropChar(s: string, c: char): string {
    if s != [] && s[|s| - 1] == c then DropChar(s[..|s| - 1], c) else s
  }

  function UrlServer(pf: Platform, url: string): seq<HostPort> {
    var u := pf.parseUrl(url);
    if u.None? || u.value.host.None? || u.value.port.None? then []
    else [HostPort(StripBrackets(u.value.host.value), u.value.port.value, u.value.https)]
  }

  function UrlServers(pf: Platform, urls: seq<string>): seq<HostPort> {
    if urls == [] then [] else UrlServer(pf, urls[0]) + UrlServers(pf, urls[1..])
  }

  function L4Servers(addresses: seq<string>): seq<HostPort> {
    if addresses == [] then []
    else
      var a := ParseL4Address(addresses[0]);
      (if a.Some? then [a.value] else []) + L4Servers(addresses[1..])
  }

  // ---- Classification ----------------------------------------------------------------------

  function Split(s: string, c: char): (r: seq<string>)
    ensures r != []
    decreases |s|
  {
    var i := IndexOf(s, c);
    if i == |s| then [s] else [s[..i]] + Split(s[i + 1..], c)
  }

  /** `<svc>.<ns>.svc…`, case-insensitive, trailing dots ignored. */
  function ParseClusterDns(host: string): Option<(string, string)> {
    var parts := Split(LowerAscii(DropChar(host, '.')), '.');
    if |parts| < 3 || parts[2] != "svc" then None else Some((parts[0], parts[1]))
  }

  function IpOf(pf: Platform, e: HostPort): Option<string> {
    pf.parseIp(e.host)
  }

  function ClusterOf(pf: Platform, e: HostPort): Option<Classification> {
    if IpOf(pf, e).Some? || ParseClusterDns(e.host).None? then None
    else
      var c := ParseClusterDns(e.host).value;
      Some(ClusterDns(c.0, c.1, e.port, e.tls))
  }

  function FqdnOf(pf: Platform, kind: BackendKind, e: HostPort): Option<Classification> {
    if IpOf(pf, e).Some? || ParseClusterDns(e.host).Some? || kind == ServiceMode then None
    else Some(Fqdn(e.host, e.port, e.tls))
  }

  function FirstIp(pf: Platform, entries: seq<HostPort>): Option<HostPort> {
    if entries == [] then None
    else if IpOf(pf, entries[0]).Some? then Some(entries[0])
    else FirstIp(pf, entries[1..])
  }

  function FirstCluster(pf: Platform, entries: seq<HostPort>): Option<Classification> {
    if entries == [] then None else OrElse(ClusterOf(pf, entries[0]), FirstCluster(pf, entries[1..]))
  }

  function FirstFqdn(pf: Platform, kind: BackendKind, entries: seq<HostPort>): Option<Classification> {
    if entries == [] then None else OrElse(FqdnOf(pf, kind, entries[0]), FirstFqdn(pf, kind, entries[1..]))
  }

  /** The IP entries with this port and scheme, in order. */
  function Addresses(pf: Platform, entries: seq<HostPort>, port: int, tls: bool): seq<string> {
    if entries == [] then []
    else
      var e := entries[0];
      (if IpOf(pf, e).Some? && e.port == port && e.tls == tls then [IpOf(pf, e).value] else [])
      + Addresses(pf, entries[1..], port, tls)
  }

  /** What a service's servers amount to: IPs like the first IP, else the first
      cluster-DNS name, else the first other name. */
  function Classify(pf: Platform, entries: seq<HostPort>, kind: BackendKind): Classification {
    var ip := FirstIp(pf, entries);
    if ip.Some? then Ips(Addresses(pf, entries, ip.value.port, ip.value.tls), ip.value.port, ip.value.tls)
    else
      var named := OrElse(FirstCluster(pf, entries), FirstFqdn(pf, kind, entries));
      if named.Some? then named.value else Empty
  }

  /** What one entry adds to each of the searches. */
  lemma EntryStep(pf: Platform, entries: seq<HostPort>, kind: BackendKind, i: nat, port: int, tls: bool)
    requires i < |entries|
    ensures FirstIp(pf, entries[i..]) ==
            if IpOf(pf, entries[i]).Some? then Some(entries[i]) else FirstIp(pf, entries[i + 1..])
    ensures FirstCluster(pf, entries[i..]) == OrElse(ClusterOf(pf, entries[i]), FirstCluster(pf, entries[i + 1..]))
    ensures FirstFqdn(pf, kind, entries[i..]) ==
            OrElse(FqdnOf(pf, kind, entries[i]), FirstFqdn(pf, kind, entries[i + 1..]))
    ensures Addresses(pf, entries[i..], port, tls) ==
            (if IpOf(pf, entries[i]).Some? && entries[i].port == port && entries[i].tls == tls
             then [IpOf(pf, entries[i]).value] else [])
            + Addresses(pf, entries[i + 1..], port, tls)
  {
    assert entries[i..][0] == entries[i] && entries[i..][1..] == entries[i + 1..];
  }

  /** The loop's bookkeeping for IP entries. */
  predicate IpsSoFar(pf: Platform, entries: seq<HostPort>, i: nat, ips: seq<string>, first: Option<HostPort>)
    requires i <= |entries|
  {
    var f := FirstIp(pf, entries);
    && OrElse(first, FirstIp(pf, entries[i..])) == f
    && (first.None? ==> ips == [])
    && (f.Some? ==>
         ips + Addresses(pf, entries[i..], f.value.port, f.value.tls) ==
         Addresses(pf, entries, f.value.port, f.value.tls))
  }

  lemma IpsStep(pf: Platform, entries: seq<HostPort>, i: nat, ips: seq<string>, first: Option<HostPort>)
    requires i < |entries| && IpsSoFar(pf, entries, i, ips, first)
    ensures var e := entries[i];
      var agrees := first.None? || (first.value.port == e.port && first.value.tls == e.tls);
      if IpOf(pf, e).Some? && agrees then
        IpsSoFar(pf, entries, i + 1, ips + [IpOf(pf, e).value], if first.None? then Some(e) else first)
      else IpsSoFar(pf, entries, i + 1, ips, first)
  {
    var f := FirstIp(pf, entries);
    EntryStep(pf, entries, ServiceMode, i, 0, false);
    if f.Some? {
      AddressStep(pf, entries, i, ips, f.value.port, f.value.tls);
    }
  }

  lemma AddressStep(pf: Platform, entries: seq<HostPort>, i: nat, ips: seq<string>, port: int, tls: bool)
    requires i < |entries|
    ensures ips + Addresses(pf, entries[i..], port, tls) ==
            (if IpOf(pf, entries[i]).Some? && entries[i].port == port && entries[i].tls == tls
             then ips + [IpOf(pf, entries[i]).value] else ips)
            + Addresses(pf, entries[i + 1..], port, tls)
  {
    var e := entries[i];
    EntryStep(pf, entries, ServiceMode, i, port, tls);
    var x := if IpOf(pf, e).Some? && e.port == port && e.tls == tls then [IpOf(pf, e).value] else [];
    Assoc(ips, x, Addresses(pf, entries[i + 1..], port, tls));
    assert ips + [] == ips;
  }

  method ClassifyEntries(pf: Platform, entries: seq<HostPort>, kind: BackendKind) returns (c: Classification)
    ensures c == Classify(pf, entries, kind)
  {
    var ips: seq<string>, first: Option<HostPort>, cluster: Option<Classification>, fqdn: Option<Classification>
      := [], None, None, None;
    assert entries[0..] == entries;
    for i := 0 to |entries|
      invariant IpsSoFar(pf, entries, i, ips, first)
      invariant OrElse(cluster, FirstCluster(pf, entries[i..])) == FirstCluster(pf, entries)
      invariant OrElse(fqdn, FirstFqdn(pf, kind, entries[i..])) == FirstFqdn(pf, kind, entries)
    {
      var e := entries[i];
      EntryStep(pf, entries, kind, i, 0, false);
      IpsStep(pf, entries, i, ips, first);
      var ip := pf.parseIp(e.host);
      if ip.Some? {
        if first.None? || (first.value.port == e.port && first.value.tls == e.tls) {
          if first.None? {
            first := Some(e);
          }
          ips := ips + [ip.value];
        }
      } else {
        var dns := ParseClusterDns(e.host);
        if dns.Some? {
          if cluster.None? {
            cluster := Some(ClusterDns(dns.value.0, dns.value.1, e.port, e.tls));
          }
        } else if kind == EnvoyBackendMode && fqdn.None? {
          fqdn := Some(Fqdn(e.host, e.port, e.tls));
        }
      }
    }
    assert entries[|entries|..] == [] && ips + [] == ips;
    if first.Some? {
      return Ips(ips, first.value.port, first.value.tls);
    }
    c := if cluster.Some? then cluster.value else if fqdn.Some? then fqdn.value else Empty;
  }

  /** The kind of a classification depends only on which entries there are. */
  lemma {:induction false} ClassKind(pf: Platform, entries: seq<HostPort>, kind: BackendKind)
    ensures Classify(pf, entries, kind).Ips? <==> exists e :: e in entries && IpOf(pf, e).Some?
    ensures Classify(pf, entries, kind).ClusterDns? <==>
            (forall e :: e in entries ==> IpOf(pf, e).None?) && exists e :: e in entries && ClusterOf(pf, e).Some?
    ensures Classify(pf, entries, kind).Fqdn? <==>
            (forall e :: e in entries ==> IpOf(pf, e).None? && ClusterOf(pf, e).None?)
            && exists e :: e in entries && FqdnOf(pf, kind, e).Some?
  {
    FirstsExist(pf, entries, kind);
  }

  lemma {:induction false} FirstsExist(pf: Platform, entries: seq<HostPort>, kind: BackendKind)
    ensures FirstIp(pf, entries).Some? <==> exists e :: e in entries && IpOf(pf, e).Some?
    ensures FirstCluster(pf, entries).Some? <==> exists e :: e in entries && ClusterOf(pf, e).Some?
    ensures FirstCluster(pf, entries).Some? ==> FirstCluster(pf, entries).value.ClusterDns?
    ensures FirstFqdn(pf, kind, entries).Some? <==> exists e :: e in entries && FqdnOf(pf, kind, e).Some?
    ensures FirstFqdn(pf, kind, entries).Some? ==> FirstFqdn(pf, kind, entries).value.Fqdn?
  {
    if entries != [] {
      FirstsExist(pf, entries[1..], kind);
      assert forall e :: e in entries <==> e == entries[0] || e in entries[1..];
    }
  }

  /** Reordering a service's servers never changes how it is classified. */
  lemma ClassKindPermutation(pf: Platform, a: seq<HostPort>, b: seq<HostPort>, kind: BackendKind)
    requires multiset(a) == multiset(b)
    ensures Classify(pf, a, kind).Ips? == Classify(pf, b, kind).Ips?
    ensures Classify(pf, a, kind).ClusterDns? == Classify(pf, b, kind).ClusterDns?
    ensures Classify(pf, a, kind).Fqdn? == Classify(pf, b, kind).Fqdn?
  {
    ClassKind(pf, a, kind);
    ClassKind(pf, b, kind);
    assert forall e :: e in a <==> e in multiset(a);
    assert forall e :: e in b <==> e in multiset(b);
  }

  /** The emitted addresses: never none, and an address is there exactly when some
      entry with the first IP's port and scheme carries it. */
  lemma {:induction false} AddressesExact(pf: Platform, entries: seq<HostPort>, port: int, tls: bool, a: string)
    ensures a in Addresses(pf, entries, port, tls) <==>
            exists e :: e in entries && IpOf(pf, e) == Some(a) && e.port == port && e.tls == tls
  {
    if entries != [] {
      AddressesExact(pf, entries[1..], port, tls, a);
      assert forall e :: e in entries <==> e == entries[0] || e in entries[1..];
    }
  }

  /** The address an entry gives for this port and scheme, if it gives one. */
  function Given(pf: Platform, e: HostPort, port: int, tls: bool): Option<string> {
    if e.port == port && e.tls == tls then IpOf(pf, e) else None
  }

  function AllGiven(pf: Platform, entries: seq<HostPort>, port: int, tls: bool): (r: seq<Option<string>>)
    ensures |r| == |entries| && forall i :: 0 <= i < |r| ==> r[i] == Given(pf, entries[i], port, tls)
  {
    if entries == [] then [] else [Given(pf, entries[0], port, tls)] + AllGiven(pf, entries[1..], port, tls)
  }

  lemma {:induction false} AddressesArePresent(pf: Platform, entries: seq<HostPort>, port: int, tls: bool)
    ensures Addresses(pf, entries, port, tls) == Present(AllGiven(pf, entries, port, tls))
  {
    if entries != [] {
      AddressesArePresent(pf, entries[1..], port, tls);
      assert AllGiven(pf, entries, port, tls)[1..] == AllGiven(pf, entries[1..], port, tls);
    }
  }

  /** Addresses in order and with repetitions: they are those of the matching entries at
      ever greater positions, and no matching entry is passed over. */
  lemma AddressesInOrder(pf: Platform, entries: seq<HostPort>, port: int, tls: bool) returns (at: seq<nat>)
    ensures IsListing(AllGiven(pf, entries, port, tls), at, Addresses(pf, entries, port, tls))
  {
    AddressesArePresent(pf, entries, port, tls);
    at := PresentInOrder(AllGiven(pf, entries, port, tls));
  }

  lemma {:induction false} FirstIpIsThere(pf: Platform, entries: seq<HostPort>)
    requires FirstIp(pf, entries).Some?
    ensures FirstIp(pf, entries).value in entries && IpOf(pf, FirstIp(pf, entries).value).Some?
  {
    if IpOf(pf, entries[0]).None? { FirstIpIsThere(pf, entries[1..]); }
  }

  lemma IpsAreNeverEmpty(pf: Platform, entries: seq<HostPort>, kind: BackendKind)
    requires Classify(pf, entries, kind).Ips?
    ensures Classify(pf, entries, kind).entries != []
  {
    FirstsExist(pf, entries, kind);
    FirstIpIsThere(pf, entries);
    var e := FirstIp(pf, entries).value;
    AddressesExact(pf, entries, e.port, e.tls, IpOf(pf, e).value);
  }
}
