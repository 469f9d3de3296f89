/** What sanitising makes of a name, in terms of its words: the runs of ASCII letters and
    digits in it. */
module Words {
  import opened Text
  import opened Naming

  predicate IsWordChar(c: char) {
    IsAsciiAlpha(c) || IsDigit(c)
  }

  predicate IsWord(s: string) {
    s != [] && forall i :: 0 <= i < |s| ==> IsWordChar(s[i])
  }

  predicate IsGap(s: string) {
    forall i :: 0 <= i < |s| ==> !IsWordChar(s[i])
  }

  /** Words, each followed by a gap; only the last gap may be empty. */
  predicate AreWords(words: seq<string>, gaps: seq<string>) {
    && |gaps| == |words|
    && forall i :: 0 <= i < |words| ==> IsWord(words[i]) && IsGap(gaps[i]) && (gaps[i] != [] || i == |words| - 1)
  }

  function Spelled(words: seq<string>, gaps: seq<string>): string
    requires |gaps| == |words|
  {
    if words == [] then [] else words[0] + (gaps[0] + Spelled(words[1..], gaps[1..]))
  }

  /** The words in lower case, joined by single dashes. */
  function Joined(words: seq<string>): string {
    if words == [] then []
    else if |words| == 1 then LowerAscii(words[0])
    else LowerAscii(words[0]) + "-" + Joined(words[1..])
  }

  /** Every text is words and gaps. */
  lemma {:induction false} SplitWords(s: string) returns (lead: string, words: seq<string>, gaps: seq<string>)
    ensures IsGap(lead) && AreWords(words, gaps) && s == lead + Spelled(words, gaps)
  {
    lead, words, gaps := [], [], [];
    if s != [] {
      lead, words, gaps := SplitWords(s[1..]);
      if !IsWordChar(s[0]) {
        lead := [s[0]] + lead;
      } else if lead == [] && words != [] {
        assert Spelled(words, gaps) == words[0] + (gaps[0] + Spelled(words[1..], gaps[1..]));
        var first := [s[0]] + words[0];
        assert ([first] + words[1..])[1..] == words[1..];
        words := [first] + words[1..];
      } else {
        words, gaps, lead := [[s[0]]] + words, [lead] + gaps, [];
      }
    }
  }

  lemma WordIsLowered(w: string)
    requires IsWord(w)
    ensures Sanitized(w) == LowerAscii(w) && Clean(LowerAscii(w)) && LowerAscii(w) != []
  {
    forall i | 0 <= i < |w| ensures Sanitized(w)[i] == LowerAscii(w)[i] && LowerAscii(w)[i] != '-' {}
  }

  lemma SanitizedConcat(a: string, b: string)
    ensures Sanitized(a + b) == Sanitized(a) + Sanitized(b)
  {
    forall i | 0 <= i < |a + b| ensures Sanitized(a + b)[i] == (Sanitized(a) + Sanitized(b))[i] {}
  }

  lemma StemDropsOne(c: char, s: string)
    requires !IsWordChar(c)
    ensures Stem([c] + s) == Stem(s)
  {
    var t := Sanitized(s);
    SanitizedConcat([c], s);
    assert Sanitized([c]) == ['-'];
    assert (['-'] + t)[1..] == t;
    CollapsedAfterDash(t);
    var dropped := DropLeading(Collapsed(false, t));
    CollapsedIsSingle(false, t);
    DropLeadingIsSuffix(Collapsed(false, t));
    assert (['-'] + dropped)[1..] == dropped;
    assert DropLeading(dropped) == dropped;
  }

  lemma {:induction false} StemDropsGap(gap: string, s: string)
    requires IsGap(gap)
    ensures Stem(gap + s) == Stem(s)
  {
    if gap == [] {
      assert gap + s == s;
    } else {
      assert gap + s == [gap[0]] + (gap[1..] + s);
      StemDropsOne(gap[0], gap[1..] + s);
      StemDropsGap(gap[1..], s);
    }
  }

  /** A word and a gap are sanitised like the word in lower case and a dash. */
  lemma FirstWordSanitized(word: string, c: char, rest: string)
    requires IsWord(word) && !IsWordChar(c)
    ensures Sanitized(word + ([c] + rest)) == Sanitized(LowerAscii(word) + "-" + rest)
  {
    WordIsLowered(word);
    SanitizedConcat(word, [c] + rest);
    SanitizedConcat([c], rest);
    assert Sanitized([c]) == "-";
    SanitizedComposite(LowerAscii(word), rest);
  }

  lemma SameSanitizedSameStem(a: string, b: string)
    requires Sanitized(a) == Sanitized(b)
    ensures Stem(a) == Stem(b)
  {}

  lemma StemOfFirstWord(word: string, gap: string, rest: string)
    requires IsWord(word) && IsGap(gap) && gap != []
    ensures Stem(word + (gap + rest)) ==
            if Stem(rest) == [] then LowerAscii(word) else LowerAscii(word) + "-" + Stem(rest)
  {
    var name := gap[1..] + rest;
    assert gap + rest == [gap[0]] + name;
    FirstWordSanitized(word, gap[0], name);
    SameSanitizedSameStem(word + (gap + rest), LowerAscii(word) + "-" + name);
    WordIsLowered(word);
    StemOfPrefixed(LowerAscii(word), name);
    StemDropsGap(gap[1..], rest);
  }

  lemma JoinedIsEmptyIff(words: seq<string>, gaps: seq<string>)
    requires AreWords(words, gaps)
    ensures Joined(words) == [] <==> words == []
  {
    if words != [] { WordIsLowered(words[0]); }
  }

  /** Main result: the stem of a text is its words in lower case, joined by single dashes. */
  lemma {:induction false} StemIsItsWords(lead: string, words: seq<string>, gaps: seq<string>)
    requires IsGap(lead) && AreWords(words, gaps)
    ensures Stem(lead + Spelled(words, gaps)) == Joined(words)
    decreases words
  {
    StemDropsGap(lead, Spelled(words, gaps));
    if words == [] {
      assert Stem([]) == [];
    } else {
      var rest := Spelled(words[1..], gaps[1..]);
      assert AreWords(words[1..], gaps[1..]);
      StemIsItsWords([], words[1..], gaps[1..]);
      assert [] + rest == rest;
      JoinedIsEmptyIff(words[1..], gaps[1..]);
      if gaps[0] != [] {
        StemOfFirstWord(words[0], gaps[0], rest);
      } else {
        assert words[0] + (gaps[0] + rest) == words[0];
        WordIsLowered(words[0]);
        CleanIsSanitized(LowerAscii(words[0]));
        CleanIsStem(LowerAscii(words[0]));
      }
    }
  }

  /** The front of an overlong name: as much as fits, less a dash the cut would leave. */
  predicate IsCut(head: string, whole: string, suffix: string) {
    && head <= whole && head != [] && head[|head| - 1] != '-'
    && (|head + suffix| == MAX_DNS_LABEL || (|head + suffix| == MAX_DNS_LABEL - 1 && head + "-" <= whole))
  }

  predicate IsLabelOf(h: NameHash, text: string, whole: string, head: string) {
    if whole == [] then DnsLabel(h, text) == "pangolin"
    else if |whole| <= MAX_DNS_LABEL then DnsLabel(h, text) == whole
    else DnsLabel(h, text) == head + ("-" + Hex(h(text))) && IsCut(head, whole, "-" + Hex(h(text)))
  }

  /** Main result: the label of a text is its words in lower case joined by dashes, the
      fallback name if it has none, and cut and hashed if that is too long. */
  lemma LabelIsItsWords(h: NameHash, lead: string, words: seq<string>, gaps: seq<string>) returns (head: string)
    requires IsGap(lead) && AreWords(words, gaps)
    ensures IsLabelOf(h, lead + Spelled(words, gaps), Joined(words), head)
  {
    StemIsItsWords(lead, words, gaps);
    head := StemMakesLabel(h, lead + Spelled(words, gaps));
  }

  lemma StemMakesLabel(h: NameHash, text: string) returns (head: string)
    ensures IsLabelOf(h, text, Stem(text), head)
  {
    head := [];
    if !IsShort(text) {
      head := CutHead(h, text);
      HashedLabel(h, text);
      HashSuffixIsShort(h, text);
      StemIsClean(text);
      CutIsLongest(Stem(text), "-" + Hex(h(text)));
    }
  }

  lemma CutIsLongest(whole: string, suffix: string)
    requires Clean(whole) && |whole| > MAX_DNS_LABEL && 2 <= |suffix| <= 9
    ensures IsCut(DropTrailing(whole[..MAX_DNS_LABEL - |suffix|]), whole, suffix)
  {
    var cut := whole[..MAX_DNS_LABEL - |suffix|];
    var head := DropTrailing(cut);
    var n := |cut|;
    assert !(whole[n - 2] == '-' && whole[n - 1] == '-') && cut[n - 2] == whole[n - 2];
    assert n - 1 <= |head| <= n;
    if |head| < n { assert head + "-" == whole[..n]; }
    assert head != [] && head <= whole;
  }
}
