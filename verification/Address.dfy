/** L4 server addresses: `host:port` or `[host]:port`, behind an optional scheme. */
module Address {
  import opened Prelude
  import opened Text

  /** A target reduced to host, port, and whether TLS was asked for. */
  datatype HostPort = HostPort(host: string, port: int, tls: bool)

  predicate SeparatorAt(s: string, i: nat) {
    i + 2 < |s| && s[i] == ':' && s[i + 1] == '/' && s[i + 2] == '/'
  }

  ghost predicate HasSeparator(s: string) {
    exists i: nat :: SeparatorAt(s, i)
  }

  /** Position of the first `://`, or the length when there is none. */
  function FindSeparator(s: string): (n: nat)
    ensures n <= |s|
    ensures n < |s| ==> SeparatorAt(s, n)
    ensures forall i: nat :: i < n ==> !SeparatorAt(s, i)
  {
    if s == [] || SeparatorAt(s, 0) then 0
    else
      var n := FindSeparator(s[1..]);
      assert forall i: nat :: i < n + 1 ==> !SeparatorAt(s, i) by {
        forall i: nat | i < n + 1 ensures !SeparatorAt(s, i) { if i > 0 { assert !SeparatorAt(s[1..], i - 1); } }
      }
      n + 1
  }

  function StripScheme(s: string): string {
    var n := FindSeparator(s);
    if n < |s| then s[n + 3..] else s
  }

  function HostAndPort(host: string, port: string): Option<HostPort> {
    var p := ParseU16(port);
    if p.None? || host == [] then None else Some(HostPort(host, p.value, false))
  }

  function ParseBare(s: string): Option<HostPort> {
    if s != [] && s[0] == '[' then
      var close := SplitOnce(s[1..], ']');
      if close.None? || close.value.1 == [] || close.value.1[0] != ':' then None
      else HostAndPort(close.value.0, close.value.1[1..])
    else
      var colon := RSplitOnce(s, ':');
      if colon.None? then None else HostAndPort(colon.value.0, colon.value.1)
  }

  function ParseL4Address(address: string): Option<HostPort> {
    ParseBare(StripScheme(Trim(address)))
  }

  // ---- Printing and parsing back ------------------------------------------------------

  function Printed(host: string, port: nat): string {
    host + [':'] + Decimal(port)
  }

  lemma PrintedParts(host: string, port: nat)
    ensures var s := Printed(host, port);
      && |s| == |host| + 1 + |Decimal(port)|
      && s[..|host|] == host && s[|host|] == ':' && s[|host| + 1..] == Decimal(port)
      && !IsWhitespace(s[|s| - 1])
  {}

  lemma {:induction false} TrimStartIsSuffix(s: string) returns (n: nat)
    ensures n <= |s| && TrimStart(s) == s[n..] && (n == 0 <==> s == [] || !IsWhitespace(s[0]))
    ensures forall i :: 0 <= i < n ==> IsWhitespace(s[i])
  {
    n := 0;
    if s != [] && IsWhitespace(s[0]) {
      var m := TrimStartIsSuffix(s[1..]);
      n := m + 1;
      assert s[1..][m..] == s[n..];
      forall i | 0 <= i < n ensures IsWhitespace(s[i]) { if i > 0 { assert s[i] == s[1..][i - 1]; } }
    }
  }

  /** Trimming a printed address only takes white space off the host. */
  lemma TrimmedIsPrinted(host: string, port: nat) returns (n: nat)
    ensures n <= |host| && Trim(Printed(host, port)) == Printed(host[n..], port)
    ensures n == 0 <==> host == [] || !IsWhitespace(host[0])
  {
    var s := Printed(host, port);
    PrintedParts(host, port);
    n := TrimStartIsSuffix(s);
    assert !IsWhitespace(s[|host|]);
    assert n <= |host|;
    assert s[n..] == Printed(host[n..], port);
    PrintedParts(host[n..], port);
    assert Trim(s) == s[n..];
    assert host != [] ==> s[0] == host[0];
  }

  /** Stripping the scheme off a printed address takes a part of the host, if it has a separator. */
  lemma UnschemedIsPrinted(host: string, port: nat) returns (n: nat)
    ensures n <= |host| && StripScheme(Printed(host, port)) == Printed(host[n..], port)
    ensures n == 0 <==> !HasSeparator(host)
    ensures n > 0 ==> n >= 3
  {
    var s := Printed(host, port);
    PrintedParts(host, port);
    assert forall i: nat :: SeparatorAt(host, i) ==> SeparatorAt(s, i);
    var m := FindSeparator(s);
    n := 0;
    if m < |s| {
      SeparatorOfPrinted(host, port, m);
      n := m + 3;
      assert s[n..] == Printed(host[n..], port);
    } else {
      assert host[0..] == host;
    }
  }

  /** A separator in a printed address lies within its host. */
  lemma SeparatorOfPrinted(host: string, port: nat, n: nat)
    requires SeparatorAt(Printed(host, port), n)
    ensures n + 3 <= |host| && SeparatorAt(host, n)
  {
    var s := Printed(host, port);
    PrintedParts(host, port);
    assert forall i :: |host| < i < |s| ==> s[i] == Decimal(port)[i - |host| - 1];
    assert forall i :: |host| <= i < |s| ==> s[i] != '/';
  }

  /** What trimming and the scheme leave of a printed address: a suffix of the host, same port. */
  lemma StrippedIsPrinted(host: string, port: nat) returns (n: nat)
    ensures n <= |host| && StripScheme(Trim(Printed(host, port))) == Printed(host[n..], port)
    ensures n == 0 <==> host == [] || (!IsWhitespace(host[0]) && !HasSeparator(host))
  {
    var a := TrimmedIsPrinted(host, port);
    var b := UnschemedIsPrinted(host[a..], port);
    assert host[a..][b..] == host[a + b..];
    n := a + b;
    if a == 0 { assert host[0..] == host; }
    if host == [] && b > 0 { assert false; }
  }

  lemma NoBracketInDecimal(port: nat)
    ensures ':' !in Decimal(port) && ']' !in Decimal(port)
  {
    assert forall i :: 0 <= i < |Decimal(port)| ==> IsDigit(Decimal(port)[i]);
  }

  /** Without a bracket in front, the host is everything before the last colon. */
  lemma ParseBarePlain(host: string, port: nat)
    requires host == [] || host[0] != '['
    ensures ParseBare(Printed(host, port)) ==
            if host != [] && port < 0x1_0000 then Some(HostPort(host, port, false)) else None
  {
    NoBracketInDecimal(port);
    RSplitOnceConcat(host, ':', Decimal(port));
    ParseU16OfDecimal(port);
    PrintedParts(host, port);
    if host != [] { assert Printed(host, port)[0] == host[0]; }
  }

  /** With a bracket in front, the host is what stands before the first closing one. */
  lemma ParseBareBracketed(inner: string, port: nat)
    requires inner != [] && inner[0] == '['
    ensures ParseBare(Printed(inner, port)).Some? ==> |ParseBare(Printed(inner, port)).value.host| + 2 <= |inner|
  {
    var s := Printed(inner, port);
    PrintedParts(inner, port);
    assert s[0] == '[';
    var close := SplitOnce(s[1..], ']');
    if close.Some? {
      NoBracketInDecimal(port);
      assert forall i :: |inner| < i < |s| ==> s[i] == Decimal(port)[i - |inner| - 1];
      assert forall i :: |inner| <= i < |s| ==> s[i] != ']';
      assert s[1..][|close.value.0|] == ']';
      assert s[|close.value.0| + 1] == ']';
    }
  }

  /** Main result for plain addresses: printing `host:port` and parsing it back gives
      the host and port exactly when the host is not empty, does not begin with white
      space or a bracket, and contains no `://`. It may contain colons. */
  lemma PlainRoundTripIff(host: string, port: nat)
    requires port < 0x1_0000
    ensures ParseL4Address(Printed(host, port)) == Some(HostPort(host, port, false)) <==>
            host != [] && !IsWhitespace(host[0]) && host[0] != '[' && !HasSeparator(host)
  {
    var n := StrippedIsPrinted(host, port);
    var h := host[n..];
    if h != [] && h[0] == '[' {
      ParseBareBracketed(h, port);
    } else {
      ParseBarePlain(h, port);
    }
    if n == 0 { assert h == host; }
  }

  /** Main result for bracketed addresses: `[host]:port` comes back exactly when the host
      is not empty and contains neither a closing bracket nor `://`. */
  lemma BracketedRoundTripIff(host: string, port: nat)
    requires port < 0x1_0000
    ensures ParseL4Address(Printed("[" + host + "]", port)) == Some(HostPort(host, port, false)) <==>
            host != [] && ']' !in host && !HasSeparator(host)
  {
    var outer := "[" + host + "]";
    var n := StrippedIsPrinted(outer, port);
    SeparatorInBrackets(host);
    if n == 0 {
      assert outer[0..] == outer;
      BracketsStripped(host, port);
    } else {
      SuffixIsNotHost(host, n);
      ParsedSuffix(outer[n..], port);
    }
  }

  /** Whatever was taken off in front, the rest cannot be a host without brackets. */
  lemma SuffixIsNotHost(host: string, n: nat)
    requires 0 < n <= |host| + 2
    ensures var h := ("[" + host + "]")[n..];
      (h == host && h != [] ==> ']' in host) && (h != [] && h[0] == '[' ==> |h| < |host| + 2)
  {
    var h := ("[" + host + "]")[n..];
    if h == host && h != [] {
      assert h[|h| - 1] == ']';
    }
  }

  /** A parsed printed address yields its whole host, or one shorter by two. */
  lemma ParsedSuffix(h: string, port: nat)
    ensures ParseBare(Printed(h, port)).Some? ==>
      ParseBare(Printed(h, port)).value.host == h || |ParseBare(Printed(h, port)).value.host| + 2 <= |h|
  {
    if h != [] && h[0] == '[' {
      ParseBareBracketed(h, port);
    } else {
      ParseBarePlain(h, port);
    }
  }

  lemma SeparatorInBrackets(host: string)
    ensures HasSeparator("[" + host + "]") <==> HasSeparator(host)
  {
    var outer := "[" + host + "]";
    if HasSeparator(outer) {
      var i: nat :| SeparatorAt(outer, i);
      assert i > 0;
      assert outer[i + 2] == '/';
      assert SeparatorAt(host, i - 1);
    }
    if HasSeparator(host) {
      var i: nat :| SeparatorAt(host, i);
      assert SeparatorAt(outer, i + 1);
    }
  }

  lemma BracketsStripped(host: string, port: nat)
    requires port < 0x1_0000
    ensures ParseBare(Printed("[" + host + "]", port)) == Some(HostPort(host, port, false)) <==>
            host != [] && ']' !in host
  {
    if ']' !in host {
      PlainBracketsStripped(host, port);
    } else {
      InnerBracketStays(host, port);
    }
  }

  lemma PlainBracketsStripped(host: string, port: nat)
    requires port < 0x1_0000 && ']' !in host
    ensures ParseBare(Printed("[" + host + "]", port)) == if host == [] then None else Some(HostPort(host, port, false))
  {
    BracketSplits(host, port);
    assert (":" + Decimal(port))[1..] == Decimal(port);
    ParseU16OfDecimal(port);
  }

  lemma BracketSplits(host: string, port: nat)
    requires ']' !in host
    ensures var s := Printed("[" + host + "]", port);
      s[0] == '[' && SplitOnce(s[1..], ']') == Some((host, ":" + Decimal(port)))
  {
    var s := Printed("[" + host + "]", port);
    assert s[0] == '[' && s[1..] == host + [']'] + (":" + Decimal(port));
    SplitOnceConcat(host, ']', ":" + Decimal(port));
  }

  lemma InnerBracketStays(host: string, port: nat)
    requires ']' in host
    ensures ParseBare(Printed("[" + host + "]", port)) != Some(HostPort(host, port, false))
  {
    var s := Printed("[" + host + "]", port);
    assert s[0] == '[' && s[1..] == host + [']'] + (":" + Decimal(port));
    var close := SplitOnce(s[1..], ']').value;
    assert ']' !in close.0;
  }

  /** A scheme in front changes nothing: what follows the first `://` is parsed alone. */
  lemma SchemeIsIgnored(scheme: string, host: string, port: nat)
    requires scheme != [] && !IsWhitespace(scheme[0]) && ':' !in scheme
    requires host != [] && !IsWhitespace(host[0]) && !HasSeparator(host)
    ensures ParseL4Address(scheme + "://" + Printed(host, port)) == ParseL4Address(Printed(host, port))
  {
    var full := scheme + "://" + host;
    var s := scheme + "://" + Printed(host, port);
    assert s == Printed(full, port);
    PrintedParts(full, port);
    assert s[0] == scheme[0];
    assert Trim(s) == s;
    assert SeparatorAt(s, |scheme|);
    assert forall i :: 0 <= i < |scheme| ==> s[i] == scheme[i];
    assert FindSeparator(s) == |scheme|;
    assert s[|scheme| + 3..] == Printed(host, port);
    var n := StrippedIsPrinted(host, port);
    assert n == 0 && host[0..] == host;
  }
}
