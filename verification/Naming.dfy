/** Kubernetes names: every object name is sanitised to an RFC 1123 label. */
module Naming {
  import opened Prelude
  import opened Text

  const MAX_DNS_LABEL := 63

  type Hash32 = n: int | 0 <= n < 0x1_0000_0000 witness 0

  /** The short name hash. Nothing is assumed about it. */
  type NameHash = string -> Hash32

  predicate LabelChar(c: char) {
    'a' <= c <= 'z' || IsDigit(c) || c == '-'
  }

  /** A label as section 2.1 of RFC 1123 allows it, with no two dashes in a row. */
  predicate ValidLabel(s: string) {
    && 1 <= |s| <= MAX_DNS_LABEL
    && Clean(s)
  }

  /** Label characters only, no dash at either end, no double dash. */
  predicate Clean(s: string) {
    && (forall i :: 0 <= i < |s| ==> LabelChar(s[i]))
    && (forall i :: 0 <= i < |s| - 1 ==> !(s[i] == '-' && s[i + 1] == '-'))
    && (s != [] ==> s[0] != '-' && s[|s| - 1] != '-')
  }

  function Sanitize(c: char): (r: char)
    ensures LabelChar(r)
  {
    if 'A' <= c <= 'Z' then (c as int + 32) as char
    else if LabelChar(c) then c
    else '-'
  }

  function Sanitized(s: string): (r: string)
    ensures |r| == |s| && forall i :: 0 <= i < |s| ==> r[i] == Sanitize(s[i])
  {
    if s == [] then [] else [Sanitize(s[0])] + Sanitized(s[1..])
  }

  /** Runs of dashes become one dash; `prevDash` says a dash came just before. */
  function Collapsed(prevDash: bool, s: string): string
    decreases s
  {
    if s == [] then [] else Kept(prevDash, s[0]) + Collapsed(s[0] == '-', s[1..])
  }

  function Kept(prevDash: bool, c: char): string {
    if prevDash && c == '-' then [] else [c]
  }

  method CollapseDashes(s: string) returns (out: string)
    ensures out == Collapsed(false, s)
  {
    out := [];
    var prevDash := false;
    for i := 0 to |s|
      invariant out + Collapsed(prevDash, s[i..]) == Collapsed(false, s)
    {
      CollapseStep(prevDash, s, i, out);
      if s[i] == '-' {
        if !prevDash {
          out := out + ['-'];
        }
        prevDash := true;
      } else {
        out := out + [s[i]];
        prevDash := false;
      }
    }
    assert s[|s|..] == [];
  }

  lemma CollapseStep(prevDash: bool, s: string, i: nat, out: string)
    requires i < |s|
    ensures out + Collapsed(prevDash, s[i..]) ==
            (if prevDash && s[i] == '-' then out else out + [s[i]]) + Collapsed(s[i] == '-', s[i + 1..])
  {
    assert s[i..][0] == s[i] && s[i..][1..] == s[i + 1..];
    var rest := Collapsed(s[i] == '-', s[i + 1..]);
    assert out + (Kept(prevDash, s[i]) + rest) == (out + Kept(prevDash, s[i])) + rest;
  }

  function DropLeading(s: string): string {
    if s != [] && s[0] == '-' then DropLeading(s[1..]) else s
  }

  function DropTrailing(s: string): (r: string)
    ensures r <= s
    ensures r != [] ==> r[|r| - 1] != '-'
    ensures forall i :: |r| <= i < |s| ==> s[i] == '-'
  {
    if s != [] && s[|s| - 1] == '-' then DropTrailing(s[..|s| - 1]) else s
  }

  /** The sanitised name before length is considered; empty when nothing is left. */
  function Stem(s: string): string {
    Trimmed(Collapsed(false, Sanitized(s)))
  }

  function Trimmed(s: string): string {
    DropTrailing(DropLeading(s))
  }

  function Base(s: string): string {
    if Stem(s) == [] then "pangolin" else Stem(s)
  }

  function HexDigit(n: nat): (c: char)
    requires n < 16
    ensures LabelChar(c) && c != '-'
  {
    if n < 10 then (n + 48) as char else (n + 87) as char
  }

  function Hex(n: nat): (s: string)
    ensures s != []
    ensures forall i :: 0 <= i < |s| ==> LabelChar(s[i]) && s[i] != '-'
  {
    if n < 16 then [HexDigit(n)] else Hex(n / 16) + [HexDigit(n % 16)]
  }

  function DnsLabel(h: NameHash, input: string): string {
    var base := Base(input);
    if |base| <= MAX_DNS_LABEL then base else Shortened(base, "-" + Hex(h(input)))
  }

  /** Cut an overlong name so that it fits together with its hash suffix. */
  function Shortened(base: string, suffix: string): string
    requires |base| > MAX_DNS_LABEL
  {
    var room := if |suffix| <= MAX_DNS_LABEL then MAX_DNS_LABEL - |suffix| else 0;
    DropTrailing(base[..room]) + suffix
  }

  /** The program's own form of `DnsLabel`, popping trailing dashes in a loop. */
  method MakeDnsLabel(h: NameHash, input: string) returns (label_: string)
    ensures label_ == DnsLabel(h, input)
    ensures ValidLabel(label_)
  {
    DnsLabelIsValid(h, input);
    var collapsed := CollapseDashes(Sanitized(input));
    var trimmed := DropTrailing(DropLeading(collapsed));
    var base := if trimmed == [] then "pangolin" else trimmed;
    if |base| <= MAX_DNS_LABEL {
      return base;
    }
    var suffix := "-" + Hex(h(input));
    var headLen := if |suffix| <= MAX_DNS_LABEL then MAX_DNS_LABEL - |suffix| else 0;
    var head := base[..headLen];
    while head != [] && head[|head| - 1] == '-'
      invariant DropTrailing(head) == DropTrailing(base[..headLen])
      decreases |head|
    {
      head := head[..|head| - 1];
    }
    label_ := head + suffix;
  }

  function PrefixedLabel(h: NameHash, prefix: string, name: string): string {
    DnsLabel(h, prefix + "-" + name)
  }

  // ---- Every name is a valid label ----------------------------------------------

  predicate NoDoubleDash(prevDash: bool, s: string) {
    && (prevDash && s != [] ==> s[0] != '-')
    && forall i :: 0 <= i < |s| - 1 ==> !(s[i] == '-' && s[i + 1] == '-')
  }

  predicate LabelChars(s: string) {
    forall i :: 0 <= i < |s| ==> LabelChar(s[i])
  }

  lemma {:induction false} CollapsedIsSingle(prevDash: bool, s: string)
    requires LabelChars(s)
    ensures LabelChars(Collapsed(prevDash, s)) && NoDoubleDash(prevDash, Collapsed(prevDash, s))
    decreases s
  {
    if s != [] {
      CollapsedIsSingle(s[0] == '-', s[1..]);
    }
  }

  lemma {:induction false} DropLeadingIsSuffix(s: string)
    requires NoDoubleDash(false, s) && LabelChars(s)
    ensures NoDoubleDash(false, DropLeading(s)) && LabelChars(DropLeading(s))
    ensures DropLeading(s) != [] ==> DropLeading(s)[0] != '-'
  {
    if s != [] && s[0] == '-' {
      DropLeadingIsSuffix(s[1..]);
    }
  }

  lemma StemIsClean(s: string)
    ensures Clean(Stem(s))
  {
    CollapsedIsSingle(false, Sanitized(s));
    DropLeadingIsSuffix(Collapsed(false, Sanitized(s)));
  }

  lemma BaseIsClean(s: string)
    ensures Clean(Base(s)) && Base(s) != []
  {
    StemIsClean(s);
    var p := "pangolin";
    assert forall i :: 0 <= i < |p| ==> 'a' <= p[i] <= 'z';
  }

  function Pow16(k: nat): nat {
    if k == 0 then 1 else 16 * Pow16(k - 1)
  }

  lemma {:induction false} HexLength(n: nat, k: nat)
    requires 0 < k && n < Pow16(k)
    ensures |Hex(n)| <= k
  {
    if n >= 16 {
      assert k > 1 && Pow16(k) == 16 * Pow16(k - 1);
      HexLength(n / 16, k - 1);
    }
  }

  lemma HashSuffixIsShort(h: NameHash, s: string)
    ensures 1 <= |Hex(h(s))| <= 8
  {
    assert Pow16(8) == 0x1_0000_0000 by {
      assert Pow16(2) == 256;
      assert Pow16(4) == 0x1_0000;
      assert Pow16(6) == 0x100_0000;
    }
    HexLength(h(s), 8);
  }

  /** An overlong base becomes a nonempty clean head followed by a dash and hex digits. */
  lemma CutIsClean(base: string, suffix: string)
    requires Clean(base) && |base| > MAX_DNS_LABEL && 2 <= |suffix| <= 9 && suffix[0] == '-'
    requires forall i :: 1 <= i < |suffix| ==> LabelChar(suffix[i]) && suffix[i] != '-'
    ensures ValidLabel(Shortened(base, suffix))
  {
    var cut := base[..MAX_DNS_LABEL - |suffix|];
    var head := DropTrailing(cut);
    assert cut[0] == base[0] != '-';
    assert head != [];
    var r := head + suffix;
    assert forall i :: 0 <= i < |head| ==> r[i] == base[i];
    assert forall i :: |head| <= i < |r| ==> r[i] == suffix[i - |head|];
  }

  /** Every string becomes a valid label. */
  lemma DnsLabelIsValid(h: NameHash, input: string)
    ensures ValidLabel(DnsLabel(h, input))
  {
    BaseIsClean(input);
    HashSuffixIsShort(h, input);
    if |Base(input)| > MAX_DNS_LABEL {
      CutIsClean(Base(input), "-" + Hex(h(input)));
    }
  }

  // ---- Valid labels are fixed points; composition with a prefix -------------------

  lemma {:induction false} CleanIsSanitized(s: string)
    requires LabelChars(s)
    ensures Sanitized(s) == s
  {
    assert forall i :: 0 <= i < |s| ==> Sanitized(s)[i] == s[i];
  }

  lemma {:induction false} SingleIsCollapsed(prevDash: bool, s: string)
    requires NoDoubleDash(prevDash, s)
    ensures Collapsed(prevDash, s) == s
    decreases s
  {
    if s != [] {
      SingleIsCollapsed(s[0] == '-', s[1..]);
    }
  }

  lemma CleanIsStem(s: string)
    requires Clean(s)
    ensures Stem(s) == s
  {
    CleanIsSanitized(s);
    SingleIsCollapsed(false, s);
  }

  /** Sanitising twice is sanitising once, and valid labels are left alone. */
  lemma DnsLabelIdempotent(h: NameHash, input: string)
    ensures DnsLabel(h, DnsLabel(h, input)) == DnsLabel(h, input)
    ensures ValidLabel(input) ==> DnsLabel(h, input) == input
  {
    DnsLabelIsValid(h, input);
    CleanIsStem(DnsLabel(h, input));
    if ValidLabel(input) { CleanIsStem(input); }
  }

  /** The dash state after reading `a`. */
  function EndsInDash(prevDash: bool, a: string): bool {
    if a == [] then prevDash else a[|a| - 1] == '-'
  }

  lemma {:induction false} CollapsedConcat(prevDash: bool, a: string, b: string)
    ensures Collapsed(prevDash, a + b) == Collapsed(prevDash, a) + Collapsed(EndsInDash(prevDash, a), b)
    decreases a
  {
    if a == [] {
      assert a + b == b;
    } else {
      var dash := a[0] == '-';
      CollapsedConcat(dash, a[1..], b);
      assert EndsInDash(dash, a[1..]) == EndsInDash(prevDash, a);
      assert (a + b)[0] == a[0] && (a + b)[1..] == a[1..] + b;
      Assoc(Kept(prevDash, a[0]), Collapsed(dash, a[1..]), Collapsed(EndsInDash(prevDash, a), b));
    }
  }

  lemma CollapsedAfterDash(s: string)
    requires LabelChars(s)
    ensures Collapsed(true, s) == DropLeading(Collapsed(false, s))
  {
    CollapsedIsSingle(true, s);
    if s != [] && s[0] == '-' {
      assert Collapsed(false, s) == ['-'] + Collapsed(true, s[1..]);
      CollapsedIsSingle(true, s[1..]);
      assert Collapsed(false, s)[1..] == Collapsed(true, s[1..]);
    }
  }

  lemma {:induction false} DropTrailingConcat(a: string, b: string)
    requires a != [] && a[|a| - 1] != '-'
    ensures DropTrailing(a + b) == a + DropTrailing(b)
    decreases |b|
  {
    if b != [] && b[|b| - 1] == '-' {
      assert (a + b)[..|a + b| - 1] == a + b[..|b| - 1];
      DropTrailingConcat(a, b[..|b| - 1]);
    } else if b == [] {
      assert a + b == a;
    }
  }

  /** The structure of a composite name: the prefix, then the stem of the rest. */
  lemma StemOfPrefixed(prefix: string, name: string)
    requires Clean(prefix) && prefix != []
    ensures Stem(prefix + "-" + name) == if Stem(name) == [] then prefix else prefix + "-" + Stem(name)
  {
    var rest := Sanitized(name);
    SanitizedComposite(prefix, name);
    CollapsedComposite(prefix, rest);
    TrimmedComposite(prefix, DropLeading(Collapsed(false, rest)));
  }

  lemma TrimmedComposite(prefix: string, tail: string)
    requires prefix != [] && prefix[0] != '-' && prefix[|prefix| - 1] != '-'
    ensures Trimmed(prefix + ("-" + tail)) ==
            if DropTrailing(tail) == [] then prefix else prefix + "-" + DropTrailing(tail)
  {
    assert (prefix + ("-" + tail))[0] == prefix[0];
    DropTrailingConcat(prefix, "-" + tail);
    DropTrailingOfDash(tail);
    if DropTrailing(tail) == [] {
      assert prefix + [] == prefix;
    } else {
      assert prefix + ("-" + DropTrailing(tail)) == prefix + "-" + DropTrailing(tail);
    }
  }

  lemma SanitizedComposite(prefix: string, name: string)
    requires LabelChars(prefix)
    ensures Sanitized(prefix + "-" + name) == prefix + ("-" + Sanitized(name))
  {
    var whole := prefix + "-" + name;
    forall i | 0 <= i < |whole| ensures Sanitized(whole)[i] == (prefix + ("-" + Sanitized(name)))[i] {}
  }

  lemma CollapsedComposite(prefix: string, rest: string)
    requires Clean(prefix) && prefix != [] && LabelChars(rest)
    ensures Collapsed(false, prefix + ("-" + rest)) == prefix + ("-" + DropLeading(Collapsed(false, rest)))
  {
    CollapsedConcat(false, prefix, "-" + rest);
    SingleIsCollapsed(false, prefix);
    assert ("-" + rest)[1..] == rest;
    CollapsedAfterDash(rest);
  }

  lemma DropTrailingOfDash(tail: string)
    ensures DropTrailing("-" + tail) == if DropTrailing(tail) == [] then [] else "-" + DropTrailing(tail)
    decreases |tail|
  {
    if tail == [] {
      assert ("-" + tail)[..0] == [];
    } else if tail[|tail| - 1] == '-' {
      assert ("-" + tail)[..|tail|] == "-" + tail[..|tail| - 1];
      DropTrailingOfDash(tail[..|tail| - 1]);
    }
  }

  /** Does the composite name fit without hashing? */
  predicate Fits(prefix: string, name: string) {
    |prefix| + 1 + |Stem(name)| <= MAX_DNS_LABEL
  }

  lemma PrefixedLabelFits(h: NameHash, prefix: string, name: string)
    requires Clean(prefix) && prefix != [] && Fits(prefix, name)
    ensures PrefixedLabel(h, prefix, name) == if Stem(name) == [] then prefix else prefix + "-" + Stem(name)
  {
    StemOfPrefixed(prefix, name);
  }

  /** Without hashing, two names under one prefix coincide exactly when their stems do. */
  lemma PrefixedLabelInjectiveIff(h: NameHash, prefix: string, a: string, b: string)
    requires Clean(prefix) && prefix != [] && Fits(prefix, a) && Fits(prefix, b)
    ensures PrefixedLabel(h, prefix, a) == PrefixedLabel(h, prefix, b) <==> Stem(a) == Stem(b)
  {
    PrefixedLabelFits(h, prefix, a);
    PrefixedLabelFits(h, prefix, b);
    if PrefixedLabel(h, prefix, a) == PrefixedLabel(h, prefix, b) && Stem(a) != [] {
      assert Stem(a) == (prefix + "-" + Stem(a))[|prefix| + 1..];
      assert Stem(b) != [];
      assert Stem(b) == (prefix + "-" + Stem(b))[|prefix| + 1..];
    }
  }

  /** In particular `PrefixedLabel` is injective on valid labels that fit. */
  lemma PrefixedLabelInjective(h: NameHash, prefix: string, a: string, b: string)
    requires Clean(prefix) && prefix != [] && ValidLabel(a) && ValidLabel(b)
    requires |prefix| + 1 + |a| <= MAX_DNS_LABEL && |prefix| + 1 + |b| <= MAX_DNS_LABEL
    requires PrefixedLabel(h, prefix, a) == PrefixedLabel(h, prefix, b)
    ensures a == b
  {
    CleanIsStem(a);
    CleanIsStem(b);
    PrefixedLabelInjectiveIff(h, prefix, a, b);
  }

  /** However long the name, a label made with a clean prefix keeps that prefix. */
  predicate InFamily(prefix: string, s: string) {
    s == prefix || prefix + "-" <= s
  }

  lemma CutKeepsPrefix(prefix: string, base: string, room: nat)
    requires prefix != [] && prefix[|prefix| - 1] != '-'
    requires |prefix| < room <= |base| && prefix + "-" <= base
    ensures DropTrailing(base[..room]) == prefix || prefix + "-" <= DropTrailing(base[..room])
  {
    var rest := base[..room][|prefix|..];
    assert base[..room] == prefix + rest;
    assert rest[0] == (prefix + "-")[|prefix|] == '-';
    DropTrailingConcat(prefix, rest);
    var kept := DropTrailing(rest);
    if kept != [] {
      assert kept[0] == '-';
      assert prefix + kept == prefix + "-" + kept[1..];
    }
  }

  lemma HeadWithSuffixInFamily(prefix: string, head: string, hex: string)
    requires head == prefix || prefix + "-" <= head
    ensures InFamily(prefix, head + ("-" + hex))
  {
    if head == prefix {
      assert head + ("-" + hex) == (prefix + "-") + hex;
    } else {
      assert head == (prefix + "-") + head[|prefix| + 1..];
      assert head + ("-" + hex) == (prefix + "-") + (head[|prefix| + 1..] + ("-" + hex));
    }
  }

  lemma ShortenedInFamily(prefix: string, base: string, hex: string)
    requires prefix != [] && prefix[|prefix| - 1] != '-' && |prefix| <= 40
    requires prefix + "-" <= base && |base| > MAX_DNS_LABEL && |hex| <= 8
    ensures InFamily(prefix, Shortened(base, "-" + hex))
  {
    var room := MAX_DNS_LABEL - |"-" + hex|;
    CutKeepsPrefix(prefix, base, room);
    HeadWithSuffixInFamily(prefix, DropTrailing(base[..room]), hex);
  }

  lemma PrefixedLabelInFamily(h: NameHash, prefix: string, name: string)
    requires Clean(prefix) && 0 < |prefix| <= 40
    ensures InFamily(prefix, PrefixedLabel(h, prefix, name))
  {
    var whole := prefix + "-" + name;
    StemOfPrefixed(prefix, name);
    HashSuffixIsShort(h, whole);
    if |Base(whole)| > MAX_DNS_LABEL {
      assert Base(whole) == (prefix + "-") + Stem(name);
      ShortenedInFamily(prefix, Base(whole), Hex(h(whole)));
    }
  }

  // ---- When two names get one label ---------------------------------------------------------------

  /** Does the name need no hashing? */
  predicate IsShort(input: string) {
    |Base(input)| <= MAX_DNS_LABEL
  }

  /** What is kept of an overlong name. */
  function CutHead(h: NameHash, input: string): string
    requires !IsShort(input)
  {
    HashSuffixIsShort(h, input);
    DropTrailing(Base(input)[..MAX_DNS_LABEL - |"-" + Hex(h(input))|])
  }

  lemma HashedLabel(h: NameHash, input: string)
    requires !IsShort(input)
    ensures DnsLabel(h, input) == CutHead(h, input) + ("-" + Hex(h(input)))
  {
    HashSuffixIsShort(h, input);
  }

  function HexValue(s: string): int
    requires forall i :: 0 <= i < |s| ==> LabelChar(s[i]) && s[i] != '-'
  {
    if s == [] then 0
    else 16 * HexValue(s[..|s| - 1]) + (if IsDigit(s[|s| - 1]) then s[|s| - 1] as int - 48 else s[|s| - 1] as int - 87)
  }

  lemma {:induction false} HexRoundTrip(n: nat)
    ensures HexValue(Hex(n)) == n
  {
    if n >= 16 {
      HexRoundTrip(n / 16);
      assert Hex(n)[..|Hex(n)| - 1] == Hex(n / 16);
    } else {
      assert Hex(n)[..0] == [];
    }
  }

  /** The last dash separates head and hash. */
  lemma LastDashSplits(a: string, x: string, b: string, y: string)
    requires '-' !in x && '-' !in y && a + ("-" + x) == b + ("-" + y)
    ensures a == b && x == y
  {
    var s := a + ("-" + x);
    assert s == b + ("-" + y);
    assert s[|a|] == '-' && s[|b|] == '-';
    assert forall i :: |a| < i < |s| ==> s[i] == x[i - |a| - 1];
    assert forall i :: |b| < i < |s| ==> s[i] == y[i - |b| - 1];
    assert |a| == |b|;
    assert a == s[..|a|] && b == s[..|a|];
    assert x == s[|a| + 1..] && y == s[|a| + 1..];
  }

  /** The two sanitise alike and neither is hashed; or both are hashed, with equal hashes and
      equal heads; or one spells out the other's head and hash. */
  predicate Collide(h: NameHash, a: string, b: string) {
    if IsShort(a) && IsShort(b) then Base(a) == Base(b)
    else if IsShort(a) then Base(a) == CutHead(h, b) + ("-" + Hex(h(b)))
    else if IsShort(b) then Base(b) == CutHead(h, a) + ("-" + Hex(h(a)))
    else h(a) == h(b) && CutHead(h, a) == CutHead(h, b)
  }

  /** Main result, for all names: when two of them get one label. */
  lemma LabelsEqualIff(h: NameHash, a: string, b: string)
    ensures DnsLabel(h, a) == DnsLabel(h, b) <==> Collide(h, a, b)
  {
    if !IsShort(a) { HashedLabel(h, a); }
    if !IsShort(b) { HashedLabel(h, b); }
    if !IsShort(a) && !IsShort(b) && DnsLabel(h, a) == DnsLabel(h, b) {
      LastDashSplits(CutHead(h, a), Hex(h(a)), CutHead(h, b), Hex(h(b)));
      HexRoundTrip(h(a));
      HexRoundTrip(h(b));
    }
  }
}
