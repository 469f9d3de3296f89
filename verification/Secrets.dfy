/** Names of the secrets https listeners use, rendered from the configured template. */
module Secrets {
  import opened ListenerSets

  const HOST_MARK := "{hostname}"
  const DASHED_MARK := "{hostname-dashed}"

  /** A template as it is meant: plain text, the host, and the host with dashes for dots. */
  datatype Part = Plain(text: string) | Host | DashedHost

  function Written(parts: seq<Part>): string {
    if parts == [] then ""
    else (match parts[0]
          case Plain(text) => text
          case Host => HOST_MARK
          case DashedHost => DASHED_MARK) + Written(parts[1..])
  }

  /** The name it stands for. */
  function Filled(parts: seq<Part>, host: string): string {
    if parts == [] then ""
    else (match parts[0]
          case Plain(text) => text
          case Host => host
          case DashedHost => seq(|host|, i requires 0 <= i < |host| => if host[i] == '.' then '-' else host[i]))
         + Filled(parts[1..], host)
  }

  /** With the host in, the dashed host still to come. */
  function HalfFilled(parts: seq<Part>, host: string): string {
    if parts == [] then ""
    else (match parts[0]
          case Plain(text) => text
          case Host => host
          case DashedHost => DASHED_MARK) + HalfFilled(parts[1..], host)
  }

  predicate NoBraces(parts: seq<Part>) {
    forall i :: 0 <= i < |parts| && parts[i].Plain? ==> '{' !in parts[i].text
  }

  lemma {:induction false} TextStays(a: string, b: string, pat: string, by_: string)
    requires pat != [] && pat[0] == '{' && '{' !in a
    ensures Replace(a + b, pat, by_) == a + Replace(b, pat, by_)
  {
    if a == [] {
      assert a + b == b && a + Replace(b, pat, by_) == Replace(b, pat, by_);
    } else {
      assert (a + b)[0] == a[0] && (a + b)[1..] == a[1..] + b;
      assert a[0] in a;
      TextStays(a[1..], b, pat, by_);
      assert [a[0]] + (a[1..] + Replace(b, pat, by_)) == a + Replace(b, pat, by_);
    }
  }

  lemma MarkGoes(b: string, pat: string, by_: string)
    requires pat != []
    ensures Replace(pat + b, pat, by_) == by_ + Replace(b, pat, by_)
  {
    assert (pat + b)[|pat|..] == b;
  }

  /** The longer mark is not an occurrence of the shorter one. */
  lemma DashedMarkStays(b: string, by_: string)
    ensures Replace(DASHED_MARK + b, HOST_MARK, by_) == DASHED_MARK + Replace(b, HOST_MARK, by_)
  {
    var rest := "hostname-dashed}";
    assert DASHED_MARK == ['{'] + rest;
    assert DASHED_MARK + b == ['{'] + (rest + b);
    assert (DASHED_MARK + b)[9] == '-' && HOST_MARK[9] == '}';
    TextStays(rest, b, HOST_MARK, by_);
    assert ['{'] + (rest + Replace(b, HOST_MARK, by_)) == DASHED_MARK + Replace(b, HOST_MARK, by_);
  }

  lemma {:induction false} HostFills(parts: seq<Part>, host: string)
    requires NoBraces(parts)
    ensures Replace(Written(parts), HOST_MARK, host) == HalfFilled(parts, host)
  {
    if parts != [] {
      HostFills(parts[1..], host);
      match parts[0] {
        case Plain(text) => TextStays(text, Written(parts[1..]), HOST_MARK, host);
        case Host => MarkGoes(Written(parts[1..]), HOST_MARK, host);
        case DashedHost => DashedMarkStays(Written(parts[1..]), host);
      }
    }
  }

  lemma {:induction false} DashedIs(host: string)
    ensures Dashed(host) == seq(|host|, i requires 0 <= i < |host| => if host[i] == '.' then '-' else host[i])
  {
    if host != [] {
      DashedIs(host[1..]);
      assert forall i :: 0 < i < |host| ==> Dashed(host)[i] == Dashed(host[1..])[i - 1];
    }
  }

  lemma {:induction false} DashedFills(parts: seq<Part>, host: string)
    requires NoBraces(parts) && '{' !in host
    ensures Replace(HalfFilled(parts, host), DASHED_MARK, Dashed(host)) == Filled(parts, host)
  {
    if parts != [] {
      DashedFills(parts[1..], host);
      DashedIs(host);
      match parts[0] {
        case Plain(text) => TextStays(text, HalfFilled(parts[1..], host), DASHED_MARK, Dashed(host));
        case Host => TextStays(host, HalfFilled(parts[1..], host), DASHED_MARK, Dashed(host));
        case DashedHost => MarkGoes(HalfFilled(parts[1..], host), DASHED_MARK, Dashed(host));
      }
    }
  }

  /** Main result: a template's marks are filled with the host and the dashed host, wherever
      and however often they stand. */
  lemma SecretsAreFilled(parts: seq<Part>, host: string)
    requires NoBraces(parts) && '{' !in host
    ensures RenderSecretName(Written(parts), host) == Filled(parts, host)
  {
    HostFills(parts, host);
    DashedFills(parts, host);
  }
}
