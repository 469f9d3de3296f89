/** Which servers a service is classified to have, read off its server list: the first
    IP address, else the first name of a Service in the cluster, else the first name. */
module Servers {
  import opened Prelude
  import opened Objects
  import opened Text
  import opened Address
  import opened Backend

  // ---- Names of Services in the cluster ---------------------------------------------------------

  predicate AreDots(s: string) {
    forall i :: 0 <= i < |s| ==> s[i] == '.'
  }

  /** This part first, alone or with more behind a separator. */
  predicate StartsWith(s: string, part: string, c: char, tail: string) {
    s == part + tail && (tail == "" || tail[0] == c)
  }

  /** `svc.ns.svc`, on its own or with more behind a dot. */
  ghost predicate IsClusterName(s: string, svc: string, ns: string) {
    '.' !in svc && '.' !in ns && exists tail :: StartsWith(s, svc + "." + ns + ".svc", '.', tail)
  }

  predicate AreParts(s: string, part: string, c: char, rest: string) {
    s == part + [c] + rest
  }

  lemma {:induction false} TrailingDotsDrop(core: string, dots: string)
    requires AreDots(dots) && (core == [] || core[|core| - 1] != '.')
    ensures DropChar(core + dots, '.') == core
    decreases |dots|
  {
    if dots == [] {
      assert core + dots == core;
    } else {
      var n := |core + dots| - 1;
      assert (core + dots)[n] == '.' && (core + dots)[..n] == core + dots[..|dots| - 1];
      TrailingDotsDrop(core, dots[..|dots| - 1]);
    }
  }

  lemma {:induction false} CoreAndDots(host: string) returns (core: string, dots: string)
    ensures host == core + dots && AreDots(dots) && (core == [] || core[|core| - 1] != '.')
    decreases |host|
  {
    core, dots := host, [];
    if host != [] && host[|host| - 1] == '.' {
      core, dots := CoreAndDots(host[..|host| - 1]);
      dots := dots + ['.'];
      assert host == host[..|host| - 1] + ['.'];
    }
  }

  lemma SplitStep(a: string, c: char, rest: string)
    requires c !in a
    ensures Split(a + [c] + rest, c) == [a] + Split(rest, c)
  {
    var s := a + [c] + rest;
    assert forall k :: 0 <= k < |a| ==> s[k] == a[k];
    assert s[|a|] == c && IndexOf(s, c) == |a|;
    assert s[..|a|] == a && s[|a| + 1..] == rest;
  }

  lemma SplitHead(s: string, c: char) returns (rest: string)
    ensures c !in Split(s, c)[0]
    ensures |Split(s, c)| == 1 ==> s == Split(s, c)[0]
    ensures |Split(s, c)| > 1 ==> AreParts(s, Split(s, c)[0], c, rest) && Split(s, c)[1..] == Split(rest, c)
  {
    var i := IndexOf(s, c);
    rest := [];
    if i < |s| {
      rest := s[i + 1..];
      assert s == s[..i] + [c] + rest;
      assert Split(s, c) == [s[..i]] + Split(rest, c);
    }
  }

  /** The first part is this one exactly when it comes alone or before a separator. */
  lemma FirstPartIs(s: string, c: char) returns (tail: string)
    ensures StartsWith(s, Split(s, c)[0], c, tail)
  {
    var rest := SplitHead(s, c);
    tail := [];
    if |Split(s, c)| > 1 {
      tail := [c] + rest;
      Assoc(Split(s, c)[0], [c], rest);
    }
  }

  lemma FirstPartOf(s: string, part: string, c: char, tail: string)
    requires c !in part && StartsWith(s, part, c, tail)
    ensures Split(s, c)[0] == part
  {
    if tail == "" {
      assert s == part && forall k :: 0 <= k < |part| ==> part[k] != c;
      assert IndexOf(part, c) == |part|;
    } else {
      assert s == part + [c] + tail[1..];
      SplitStep(part, c, tail[1..]);
    }
  }

  lemma SvcHasNoDot()
    ensures '.' !in "svc"
  {}

  lemma Regroup(a: string, b: string, tail: string)
    ensures a + "." + (b + "." + ("svc" + tail)) == a + "." + b + ".svc" + tail
  {}

  lemma PartsMakeName(s: string)
    requires |Split(s, '.')| >= 3 && Split(s, '.')[2] == "svc"
    ensures IsClusterName(s, Split(s, '.')[0], Split(s, '.')[1])
  {
    var parts := Split(s, '.');
    var r1 := SplitHead(s, '.');
    var r2 := SplitHead(r1, '.');
    assert parts[1..][1..] == Split(r2, '.') && Split(r2, '.')[0] == parts[2];
    var tail := FirstPartIs(r2, '.');
    Regroup(parts[0], parts[1], tail);
    assert StartsWith(s, parts[0] + "." + parts[1] + ".svc", '.', tail);
  }

  lemma NameMakesParts(s: string, svc: string, ns: string)
    requires IsClusterName(s, svc, ns)
    ensures var parts := Split(s, '.'); |parts| >= 3 && parts[2] == "svc" && parts[0] == svc && parts[1] == ns
  {
    var tail :| StartsWith(s, svc + "." + ns + ".svc", '.', tail);
    var r2 := "svc" + tail;
    Regroup(svc, ns, tail);
    SplitStep(svc, '.', ns + "." + r2);
    SplitStep(ns, '.', r2);
    SvcHasNoDot();
    FirstPartOf(r2, "svc", '.', tail);
    assert Split(s, '.') == [svc] + ([ns] + Split(r2, '.'));
  }

  /** Main result: a host is read as the Service `svc` in the namespace `ns` if and only if,
      in lower case and without trailing dots, it is `svc.ns.svc`, alone or before a dot. */
  lemma ClusterDnsIff(core: string, dots: string, svc: string, ns: string)
    requires AreDots(dots) && (core == [] || core[|core| - 1] != '.')
    ensures ParseClusterDns(core + dots) == Some((svc, ns)) <==> IsClusterName(LowerAscii(core), svc, ns)
  {
    TrailingDotsDrop(core, dots);
    var s := LowerAscii(core);
    if |Split(s, '.')| >= 3 && Split(s, '.')[2] == "svc" { PartsMakeName(s); }
    if IsClusterName(s, svc, ns) { NameMakesParts(s, svc, ns); }
  }

  /** So every such name, in any casing, with any search domain, is read back. */
  lemma ClusterDnsRoundTrip(svc: string, ns: string, tail: string, dots: string, host: string)
    requires '.' !in svc && '.' !in ns && AreDots(dots)
    requires tail == "" || (tail[0] == '.' && tail[|tail| - 1] != '.')
    requires LowerAscii(host) == svc + "." + ns + ".svc" + tail
    ensures ParseClusterDns(host + dots) == Some((svc, ns))
  {
    var n := |host| - 1;
    assert LowerChar(host[n]) == LowerAscii(host)[n] != '.';
    assert StartsWith(LowerAscii(host), svc + "." + ns + ".svc", '.', tail);
    ClusterDnsIff(host, dots, svc, ns);
  }

  // ---- Server URLs --------------------------------------------------------------------------------

  predicate AllAre(s: string, c: char) {
    forall i :: 0 <= i < |s| ==> s[i] == c
  }

  lemma {:induction false} LeadDrops(lead: string, s: string, c: char)
    requires AllAre(lead, c) && (s == [] || s[0] != c)
    ensures DropLead(lead + s, c) == s
  {
    if lead == [] {
      assert lead + s == s;
    } else {
      assert (lead + s)[1..] == lead[1..] + s;
      LeadDrops(lead[1..], s, c);
    }
  }

  lemma {:induction false} TrailDrops(s: string, trail: string, c: char)
    requires AllAre(trail, c) && (s == [] || s[|s| - 1] != c)
    ensures DropChar(s + trail, c) == s
    decreases |trail|
  {
    if trail == [] {
      assert s + trail == s;
    } else {
      var n := |s + trail| - 1;
      assert (s + trail)[n] == c && (s + trail)[..n] == s + trail[..|trail| - 1];
      TrailDrops(s, trail[..|trail| - 1], c);
    }
  }

  /** The brackets around a literal host go, and nothing else does. */
  lemma BracketsDrop(open: string, host: string, close: string)
    requires AllAre(open, '[') && AllAre(close, ']')
    requires host != [] && host[0] != '[' && host[|host| - 1] != ']'
    ensures StripBrackets(open + host + close) == host
  {
    assert open + host + close == open + (host + close);
    LeadDrops(open, host + close, '[');
    TrailDrops(host, close, ']');
  }

  /** The server a URL names: its host without brackets, its port, and whether it is https. */
  function ServerOf(pf: Platform, url: string): Option<HostPort> {
    match pf.parseUrl(url)
    case Some(Url(Some(host), Some(port), https)) => Some(HostPort(StripBrackets(host), port, https))
    case _ => None
  }

  function ServersOf(pf: Platform, urls: seq<string>): (r: seq<Option<HostPort>>)
    ensures |r| == |urls| && forall i :: 0 <= i < |r| ==> r[i] == ServerOf(pf, urls[i])
  {
    if urls == [] then [] else [ServerOf(pf, urls[0])] + ServersOf(pf, urls[1..])
  }

  lemma {:induction false} UrlServersArePresent(pf: Platform, urls: seq<string>)
    ensures UrlServers(pf, urls) == Present(ServersOf(pf, urls))
  {
    if urls != [] {
      UrlServersArePresent(pf, urls[1..]);
      assert ServersOf(pf, urls)[1..] == ServersOf(pf, urls[1..]);
    }
  }

  function AddressesOf(addresses: seq<string>): (r: seq<Option<HostPort>>)
    ensures |r| == |addresses| && forall i :: 0 <= i < |r| ==> r[i] == AddressOf(addresses[i])
  {
    if addresses == [] then [] else [AddressOf(addresses[0])] + AddressesOf(addresses[1..])
  }

  function AddressOf(address: string): Option<HostPort> {
    ParseL4Address(address)
  }

  lemma {:induction false} L4ServersArePresent(addresses: seq<string>)
    ensures L4Servers(addresses) == Present(AddressesOf(addresses))
  {
    if addresses != [] {
      L4ServersArePresent(addresses[1..]);
      assert AddressesOf(addresses)[1..] == AddressesOf(addresses[1..]);
    }
  }

  /** The servers of a list are those of its URLs, or addresses, that can be read, in order
      with none passed over. */
  lemma ServersInOrder(pf: Platform, urls: seq<string>) returns (at: seq<nat>, l4: seq<nat>)
    ensures IsListing(ServersOf(pf, urls), at, UrlServers(pf, urls))
    ensures IsListing(AddressesOf(urls), l4, L4Servers(urls))
  {
    UrlServersArePresent(pf, urls);
    L4ServersArePresent(urls);
    at := PresentInOrder(ServersOf(pf, urls));
    l4 := PresentInOrder(AddressesOf(urls));
  }

  // ---- What a list of servers is taken for -----------------------------------------------------------

  predicate IsIp(pf: Platform, e: HostPort) {
    pf.parseIp(e.host).Some?
  }

  /** The first server that is an address decides port and scheme. */
  ghost predicate FirstIpAt(pf: Platform, entries: seq<HostPort>, i: nat) {
    i < |entries| && IsIp(pf, entries[i]) && forall j :: 0 <= j < i ==> !IsIp(pf, entries[j])
  }

  /** Without addresses, the first name of a Service in the cluster does. */
  ghost predicate FirstClusterAt(pf: Platform, entries: seq<HostPort>, i: nat) {
    && i < |entries| && (forall j :: 0 <= j < |entries| ==> !IsIp(pf, entries[j]))
    && ParseClusterDns(entries[i].host).Some?
    && forall j :: 0 <= j < i ==> ParseClusterDns(entries[j].host).None?
  }

  /** Without either, all servers are plain names. */
  ghost predicate PlainNames(pf: Platform, entries: seq<HostPort>) {
    forall j :: 0 <= j < |entries| ==> !IsIp(pf, entries[j]) && ParseClusterDns(entries[j].host).None?
  }

  lemma {:induction false} FirstIpIs(pf: Platform, entries: seq<HostPort>, i: nat)
    requires FirstIpAt(pf, entries, i)
    ensures FirstIp(pf, entries) == Some(entries[i])
  {
    if i > 0 {
      assert entries[1..][i - 1] == entries[i] && !IsIp(pf, entries[0]);
      assert forall j :: 0 <= j < i - 1 ==> entries[1..][j] == entries[j + 1];
      FirstIpIs(pf, entries[1..], i - 1);
    }
  }

  lemma {:induction false} NoIpMeansNone(pf: Platform, entries: seq<HostPort>)
    requires forall j :: 0 <= j < |entries| ==> !IsIp(pf, entries[j])
    ensures FirstIp(pf, entries).None?
  {
    if entries != [] {
      assert forall j :: 0 <= j < |entries[1..]| ==> entries[1..][j] == entries[j + 1];
      NoIpMeansNone(pf, entries[1..]);
    }
  }

  lemma {:induction false} FirstClusterIs(pf: Platform, entries: seq<HostPort>, i: nat)
    requires FirstClusterAt(pf, entries, i)
    ensures FirstCluster(pf, entries) == Some(ClusterDns(ParseClusterDns(entries[i].host).value.0,
                                                         ParseClusterDns(entries[i].host).value.1,
                                                         entries[i].port, entries[i].tls))
  {
    assert !IsIp(pf, entries[0]);
    if i > 0 {
      assert entries[1..][i - 1] == entries[i] && ParseClusterDns(entries[0].host).None?;
      assert forall j :: 0 <= j < |entries[1..]| ==> entries[1..][j] == entries[j + 1];
      FirstClusterIs(pf, entries[1..], i - 1);
    }
  }

  lemma {:induction false} NoClusterMeansNone(pf: Platform, entries: seq<HostPort>)
    requires forall j :: 0 <= j < |entries| ==> ParseClusterDns(entries[j].host).None?
    ensures FirstCluster(pf, entries).None?
  {
    if entries != [] {
      assert forall j :: 0 <= j < |entries[1..]| ==> entries[1..][j] == entries[j + 1];
      NoClusterMeansNone(pf, entries[1..]);
    }
  }

  /** In service mode plain names come to nothing, otherwise the first one counts. */
  lemma {:induction false} PlainNamesClassified(pf: Platform, entries: seq<HostPort>, kind: BackendKind)
    requires PlainNames(pf, entries)
    ensures FirstFqdn(pf, kind, entries) ==
            if entries == [] || kind == ServiceMode then None
            else Some(Fqdn(entries[0].host, entries[0].port, entries[0].tls))
  {
    if entries != [] {
      assert forall j :: 0 <= j < |entries[1..]| ==> entries[1..][j] == entries[j + 1];
      PlainNamesClassified(pf, entries[1..], kind);
      assert !IsIp(pf, entries[0]) && ParseClusterDns(entries[0].host).None?;
    }
  }

  /** Main result: the four things a list of servers may be taken for, one of which always
      applies, with the very server that decides each. */
  lemma ClassifiedExactly(pf: Platform, entries: seq<HostPort>, kind: BackendKind)
    ensures forall i: nat :: FirstIpAt(pf, entries, i) ==>
      Classify(pf, entries, kind) ==
      Ips(Addresses(pf, entries, entries[i].port, entries[i].tls), entries[i].port, entries[i].tls)
    ensures forall i: nat :: FirstClusterAt(pf, entries, i) ==>
      Classify(pf, entries, kind) ==
      ClusterDns(ParseClusterDns(entries[i].host).value.0, ParseClusterDns(entries[i].host).value.1,
                 entries[i].port, entries[i].tls)
    ensures PlainNames(pf, entries) ==>
      Classify(pf, entries, kind) ==
      if entries == [] || kind == ServiceMode then Empty else Fqdn(entries[0].host, entries[0].port, entries[0].tls)
    ensures PlainNames(pf, entries) || (exists i: nat :: FirstIpAt(pf, entries, i) || FirstClusterAt(pf, entries, i))
  {
    forall i: nat | FirstIpAt(pf, entries, i) ensures FirstIp(pf, entries) == Some(entries[i]) {
      FirstIpIs(pf, entries, i);
    }
    forall i: nat | FirstClusterAt(pf, entries, i)
      ensures Classify(pf, entries, kind) ==
              ClusterDns(ParseClusterDns(entries[i].host).value.0, ParseClusterDns(entries[i].host).value.1,
                         entries[i].port, entries[i].tls)
    {
      NoIpMeansNone(pf, entries);
      FirstClusterIs(pf, entries, i);
    }
    if PlainNames(pf, entries) {
      NoIpMeansNone(pf, entries);
      NoClusterMeansNone(pf, entries);
      PlainNamesClassified(pf, entries, kind);
    } else {
      OneCaseApplies(pf, entries);
    }
  }

  lemma OneCaseApplies(pf: Platform, entries: seq<HostPort>)
    requires !PlainNames(pf, entries)
    ensures exists i: nat :: FirstIpAt(pf, entries, i) || FirstClusterAt(pf, entries, i)
  {
    if j :| 0 <= j < |entries| && IsIp(pf, entries[j]) {
      var i := Least(entries, e => IsIp(pf, e), j);
      assert FirstIpAt(pf, entries, i);
    } else {
      var j :| 0 <= j < |entries| && !(!IsIp(pf, entries[j]) && ParseClusterDns(entries[j].host).None?);
      var i := Least(entries, (e: HostPort) => ParseClusterDns(e.host).Some?, j);
      assert FirstClusterAt(pf, entries, i);
    }
  }

  lemma {:induction false} Least(entries: seq<HostPort>, p: HostPort -> bool, j: nat) returns (i: nat)
    requires j < |entries| && p(entries[j])
    ensures i <= j && p(entries[i]) && forall k :: 0 <= k < i ==> !p(entries[k])
    decreases j
  {
    i := j;
    if k :| 0 <= k < j && p(entries[k]) {
      i := Least(entries, p, k);
    }
  }
}
