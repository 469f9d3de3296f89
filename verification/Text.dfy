/** String primitives: whitespace, trimming, splitting, and numbers in decimal. */
module Text {
  import opened Prelude

  /** The Unicode White_Space property. */
  predicate IsWhitespace(c: char) {
    var x := c as int;
    || 9 <= x <= 13 || x == 0x20 || x == 0x85 || x == 0xA0 || x == 0x1680
    || 0x2000 <= x <= 0x200A || x == 0x2028 || x == 0x2029 || x == 0x202F || x == 0x205F || x == 0x3000
  }

  predicate IsDigit(c: char) { '0' <= c <= '9' }

  predicate IsAsciiAlpha(c: char) { 'a' <= c <= 'z' || 'A' <= c <= 'Z' }

  function LowerChar(c: char): char {
    if 'A' <= c <= 'Z' then (c as int + 32) as char else c
  }

  function LowerAscii(s: string): (r: string)
    ensures |r| == |s| && forall i :: 0 <= i < |s| ==> r[i] == LowerChar(s[i])
  {
    if s == [] then [] else [LowerChar(s[0])] + LowerAscii(s[1..])
  }

  predicate IsBlankText(s: string) {
    forall i :: 0 <= i < |s| ==> IsWhitespace(s[i])
  }

  predicate IsTrimmed(s: string) {
    s != [] ==> !IsWhitespace(s[0]) && !IsWhitespace(s[|s| - 1])
  }

  function TrimStart(s: string): (r: string)
    ensures r == [] || !IsWhitespace(r[0])
  {
    if s != [] && IsWhitespace(s[0]) then TrimStart(s[1..]) else s
  }

  function TrimEnd(s: string): (r: string)
    ensures r == [] || !IsWhitespace(r[|r| - 1])
    ensures r <= s
  {
    if s != [] && IsWhitespace(s[|s| - 1]) then TrimEnd(s[..|s| - 1]) else s
  }

  function Trim(s: string): string {
    TrimEnd(TrimStart(s))
  }

  lemma {:induction false} TrimStartDrops(front: string, s: string)
    requires IsBlankText(front) && (s == [] || !IsWhitespace(s[0]))
    ensures TrimStart(front + s) == s
  {
    if front == [] {
      assert front + s == s;
    } else {
      assert (front + s)[0] == front[0] && (front + s)[1..] == front[1..] + s;
      TrimStartDrops(front[1..], s);
    }
  }

  lemma {:induction false} TrimEndDrops(s: string, back: string)
    requires IsBlankText(back) && (s == [] || !IsWhitespace(s[|s| - 1]))
    ensures TrimEnd(s + back) == s
    decreases |back|
  {
    if back == [] {
      assert s + back == s;
    } else {
      var n := |s + back| - 1;
      assert (s + back)[n] == back[|back| - 1] && (s + back)[..n] == s + back[..|back| - 1];
      TrimEndDrops(s, back[..|back| - 1]);
    }
  }

  /** The text with blanks before and behind it. */
  predicate IsPadding(s: string, front: string, t: string, back: string) {
    s == front + t + back && IsBlankText(front) && IsBlankText(back)
  }

  lemma TrimParts(s: string) returns (front: string, back: string)
    ensures IsPadding(s, front, Trim(s), back)
  {
    front := FrontBlanks(s);
    back := BackBlanks(TrimStart(s));
    assert s == front + (Trim(s) + back);
  }

  lemma {:induction false} FrontBlanks(s: string) returns (front: string)
    ensures s == front + TrimStart(s) && IsBlankText(front)
  {
    front := [];
    if s != [] && IsWhitespace(s[0]) {
      var rest := FrontBlanks(s[1..]);
      front := [s[0]] + rest;
    }
  }

  lemma {:induction false} BackBlanks(s: string) returns (back: string)
    ensures s == TrimEnd(s) + back && IsBlankText(back)
    decreases |s|
  {
    back := [];
    if s != [] && IsWhitespace(s[|s| - 1]) {
      var rest := BackBlanks(s[..|s| - 1]);
      back := rest + [s[|s| - 1]];
      assert s == s[..|s| - 1] + [s[|s| - 1]];
    }
  }

  lemma TrimOfPadded(s: string, front: string, t: string, back: string)
    requires IsTrimmed(t) && IsPadding(s, front, t, back)
    ensures Trim(s) == t
  {
    if t == [] {
      assert s == (front + back) + [];
      TrimStartDrops(front + back, []);
    } else {
      assert s == front + (t + back);
      TrimStartDrops(front, t + back);
      TrimEndDrops(t, back);
    }
  }

  /** Trimming gives exactly the text without the blanks around it. */
  lemma TrimIff(s: string, t: string)
    ensures Trim(s) == t <==> IsTrimmed(t) && exists front, back :: IsPadding(s, front, t, back)
  {
    var f, b := TrimParts(s);
    TrimIsTrimmed(s);
    if IsTrimmed(t) && exists front, back :: IsPadding(s, front, t, back) {
      var front, back :| IsPadding(s, front, t, back);
      TrimOfPadded(s, front, t, back);
    }
  }

  lemma TrimIsTrimmed(s: string)
    ensures IsTrimmed(Trim(s))
  {
    var a := TrimStart(s);
    if TrimEnd(a) != [] { assert TrimEnd(a)[0] == a[0]; }
  }

  /** Position of the first occurrence of `c`, or the length when there is none. */
  function IndexOf(s: string, c: char): (i: nat)
    ensures i <= |s|
    ensures forall k :: 0 <= k < i ==> s[k] != c
    ensures i < |s| ==> s[i] == c
  {
    if s == [] || s[0] == c then 0 else 1 + IndexOf(s[1..], c)
  }

  function SplitOnce(s: string, c: char): (r: Option<(string, string)>)
    ensures r.None? <==> c !in s
    ensures r.Some? ==> s == r.value.0 + [c] + r.value.1 && c !in r.value.0
  {
    var i := IndexOf(s, c);
    if i == |s| then None else Some((s[..i], s[i + 1..]))
  }

  /** Position of the last occurrence of `c`, or -1. */
  function LastIndexOf(s: string, c: char): (i: int)
    ensures -1 <= i < |s|
    ensures i >= 0 ==> s[i] == c
    ensures forall k :: i < k < |s| ==> s[k] != c
  {
    if s == [] then -1
    else if s[|s| - 1] == c then |s| - 1
    else LastIndexOf(s[..|s| - 1], c)
  }

  function RSplitOnce(s: string, c: char): (r: Option<(string, string)>)
    ensures r.None? <==> c !in s
    ensures r.Some? ==> s == r.value.0 + [c] + r.value.1 && c !in r.value.1
  {
    var i := LastIndexOf(s, c);
    if i == -1 then None else Some((s[..i], s[i + 1..]))
  }

  lemma SplitOnceConcat(a: string, c: char, b: string)
    requires c !in a
    ensures SplitOnce(a + [c] + b, c) == Some((a, b))
  {
    var s := a + [c] + b;
    assert s[|a|] == c;
    assert forall k :: 0 <= k < |a| ==> s[k] == a[k];
    assert IndexOf(s, c) == |a|;
    assert s[..|a|] == a && s[|a| + 1..] == b;
  }

  lemma RSplitOnceConcat(a: string, c: char, b: string)
    requires c !in b
    ensures RSplitOnce(a + [c] + b, c) == Some((a, b))
  {
    var s := a + [c] + b;
    assert s[|a|] == c;
    assert forall k :: |a| < k < |s| ==> s[k] == b[k - |a| - 1];
    assert LastIndexOf(s, c) == |a|;
    assert s[..|a|] == a && s[|a| + 1..] == b;
  }

  // ---- Decimal numbers --------------------------------------------------------

  function Digit(n: nat): (c: char)
    requires n < 10
    ensures IsDigit(c)
  {
    (n + 48) as char
  }

  function Decimal(n: nat): (s: string)
    ensures s != [] && AllDigits(s)
  {
    if n < 10 then [Digit(n)] else Decimal(n / 10) + [Digit(n % 10)]
  }

  predicate AllDigits(s: string) {
    forall i :: 0 <= i < |s| ==> IsDigit(s[i])
  }

  function Value(s: string): nat
    requires AllDigits(s)
  {
    if s == [] then 0 else Value(s[..|s| - 1]) * 10 + (s[|s| - 1] as nat - 48)
  }

  lemma {:induction false} ValueOfDecimal(n: nat)
    ensures Value(Decimal(n)) == n
  {
    if n >= 10 {
      ValueOfDecimal(n / 10);
      assert Decimal(n)[..|Decimal(n)| - 1] == Decimal(n / 10);
    }
  }

  /** Reading a u16: an optional plus sign, then digits, not above 65535. */
  function ParseU16(s: string): (r: Option<nat>)
    ensures r.Some? ==> r.value < 0x1_0000
  {
    var digits := if s != [] && s[0] == '+' then s[1..] else s;
    if digits == [] || !AllDigits(digits) || Value(digits) >= 0x1_0000 then None else Some(Value(digits))
  }

  lemma ParseU16OfDecimal(n: nat)
    ensures ParseU16(Decimal(n)) == if n < 0x1_0000 then Some(n) else None
  {
    ValueOfDecimal(n);
    assert Decimal(n)[0] != '+';
  }

  function Zeros(n: nat): (s: string)
    ensures |s| == n && AllDigits(s)
  {
    if n == 0 then [] else ['0'] + Zeros(n - 1)
  }

  lemma {:induction false} ValueOfPadded(n: nat, t: string)
    requires AllDigits(t)
    ensures AllDigits(Zeros(n) + t) && Value(Zeros(n) + t) == Value(t)
    decreases |t|, n
  {
    var s := Zeros(n) + t;
    if t != [] {
      assert s[..|s| - 1] == Zeros(n) + t[..|t| - 1];
      ValueOfPadded(n, t[..|t| - 1]);
    } else if n > 0 {
      assert s == Zeros(n);
      ZerosSnoc(n - 1);
      assert Zeros(n - 1) + [] == Zeros(n - 1);
      ValueOfPadded(n - 1, []);
    } else {
      assert s == [];
    }
  }

  lemma {:induction false} ZerosSnoc(n: nat)
    ensures Zeros(n + 1) == Zeros(n) + ['0']
  {
    if n > 0 {
      ZerosSnoc(n - 1);
      Assoc(['0'], Zeros(n - 1), ['0']);
    }
  }

  /** Digits are a number's decimal text behind leading zeros. */
  lemma {:induction false} DigitsArePadded(s: string) returns (n: nat)
    requires AllDigits(s) && Value(s) > 0
    ensures s == Zeros(n) + Decimal(Value(s))
    decreases |s|
  {
    var front, last := s[..|s| - 1], s[|s| - 1];
    assert s == front + [last];
    assert Digit(last as nat - 48) == last;
    if Value(front) > 0 {
      n := DigitsArePadded(front);
      Assoc(Zeros(n), Decimal(Value(front)), [last]);
    } else {
      AllZeros(front);
      n := |front|;
    }
  }

  lemma {:induction false} AllZeros(s: string)
    requires AllDigits(s) && Value(s) == 0
    ensures s == Zeros(|s|)
    decreases |s|
  {
    if s != [] {
      AllZeros(s[..|s| - 1]);
      ZerosSnoc(|s| - 1);
      assert s == s[..|s| - 1] + ['0'];
    }
  }

  /** The digits of a number, leading zeros allowed. */
  ghost predicate IsDigitsOf(s: string, n: nat) {
    exists zeros: nat :: s == Zeros(zeros) + Decimal(n)
  }

  lemma DigitsIff(s: string, n: nat)
    ensures s != [] && AllDigits(s) && Value(s) == n <==> IsDigitsOf(s, n)
  {
    if s != [] && AllDigits(s) && Value(s) == n {
      if n > 0 {
        var zeros := DigitsArePadded(s);
        assert s == Zeros(zeros) + Decimal(n);
      } else {
        AllZeros(s);
        ZerosSnoc(|s| - 1);
        assert s == Zeros(|s| - 1) + Decimal(0);
      }
    }
    if IsDigitsOf(s, n) {
      var zeros: nat :| s == Zeros(zeros) + Decimal(n);
      ValueOfPadded(zeros, Decimal(n));
      ValueOfDecimal(n);
    }
  }

  /** One plus sign or none, leading zeros, then the decimal text. */
  predicate IsPadded(s: string, p: nat, n: nat) {
    s == Zeros(n) + Decimal(p) || s == "+" + (Zeros(n) + Decimal(p))
  }

  lemma PaddedParses(s: string, p: nat, n: nat)
    requires IsPadded(s, p, n)
    ensures ParseU16(s) == if p < 0x1_0000 then Some(p) else None
  {
    ValueOfPadded(n, Decimal(p));
    ValueOfDecimal(p);
    var t := Zeros(n) + Decimal(p);
    assert IsDigit(t[0]);
    if s != t {
      assert s[0] == '+' && s[1..] == t;
    }
  }

  lemma ParsedIsPadded(s: string, p: nat) returns (n: nat)
    requires p > 0 && ParseU16(s) == Some(p)
    ensures IsPadded(s, p, n)
  {
    if s[0] == '+' {
      assert s == "+" + s[1..];
      n := DigitsArePadded(s[1..]);
    } else {
      n := DigitsArePadded(s);
    }
  }

  /** The texts of a positive u16: its decimal digits, leading zeros and one plus sign allowed. */
  lemma ParseU16Iff(s: string, p: nat)
    requires p > 0
    ensures ParseU16(s) == Some(p) <==> p < 0x1_0000 && exists n :: IsPadded(s, p, n)
  {
    if ParseU16(s) == Some(p) {
      var _ := ParsedIsPadded(s, p);
    }
    if exists n :: IsPadded(s, p, n) {
      var n :| IsPadded(s, p, n);
      PaddedParses(s, p, n);
    }
  }
}
