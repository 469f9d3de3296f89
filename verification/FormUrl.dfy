/** application/x-www-form-urlencoded text, after sections 5.1 and 5.2 of the WHATWG URL
    Standard, and the two query operations the auth shim builds on it. Strings are bytes. */
module FormUrl {
  import opened Prelude

  type Byte = b: int | 0 <= b < 256

  type Bytes = seq<Byte>

  const PERCENT: Byte := 37
  const AMP: Byte := 38
  const PLUS: Byte := 43
  const SPACE: Byte := 32
  const EQUALS: Byte := 61
  const QUESTION: Byte := 63

  datatype Pair = Pair(key: Bytes, value: Bytes)

  /** Replacement of invalid UTF-8 after decoding. Its definition plays no part; that
      repairing twice is repairing once does. */
  type Repair = Bytes -> Bytes

  ghost predicate Idempotent(fix: Repair) {
    forall x, y :: fix(x) == y ==> fix(y) == y
  }

  // ---- Percent-encoding ---------------------------------------------------------------------

  /** Bytes the serializer leaves alone: `*-._` and ASCII letters and digits. */
  predicate IsUnreserved(b: Byte) {
    b == 42 || b == 45 || b == 46 || b == 95 || 48 <= b <= 57 || 65 <= b <= 90 || 97 <= b <= 122
  }

  function HexDigit(n: int): Byte
    requires 0 <= n < 16
  {
    if n < 10 then 48 + n else 55 + n
  }

  function HexValue(b: Byte): Option<int> {
    if 48 <= b <= 57 then Some(b - 48)
    else if 65 <= b <= 70 then Some(b - 55)
    else if 97 <= b <= 102 then Some(b - 87)
    else None
  }

  function EncodeByte(b: Byte): Bytes {
    if IsUnreserved(b) then [b]
    else if b == SPACE then [PLUS]
    else [PERCENT, HexDigit(b / 16), HexDigit(b % 16)]
  }

  function Encode(s: Bytes): Bytes {
    if s == [] then [] else EncodeByte(s[0]) + Encode(s[1..])
  }

  /** Is an escape starting here? Otherwise the percent sign stands for itself. */
  predicate IsEscape(s: Bytes) {
    |s| >= 3 && s[0] == PERCENT && HexValue(s[1]).Some? && HexValue(s[2]).Some?
  }

  function Decode(s: Bytes): Bytes
    decreases |s|
  {
    if s == [] then []
    else if IsEscape(s) then [16 * HexValue(s[1]).value + HexValue(s[2]).value] + Decode(s[3..])
    else [if s[0] == PLUS then SPACE else s[0]] + Decode(s[1..])
  }

  lemma DecodeEncodedByte(b: Byte, rest: Bytes)
    ensures Decode(EncodeByte(b) + rest) == [b] + Decode(rest)
  {
    var s := EncodeByte(b) + rest;
    if IsUnreserved(b) || b == SPACE {
      assert s[1..] == rest;
    } else {
      assert s[3..] == rest;
      assert s[1] == HexDigit(b / 16) && s[2] == HexDigit(b % 16);
    }
  }

  lemma {:induction false} DecodeEncode(s: Bytes)
    ensures Decode(Encode(s)) == s
  {
    if s != [] {
      DecodeEncodedByte(s[0], Encode(s[1..]));
      DecodeEncode(s[1..]);
    }
  }

  /** Bytes of serialized text: unreserved ones, escapes and the two separators. */
  predicate IsPlain(b: Byte) {
    IsUnreserved(b) || b == PLUS || b == PERCENT
  }

  lemma {:induction false} EncodeIsPlain(s: Bytes)
    ensures forall i :: 0 <= i < |Encode(s)| ==> IsPlain(Encode(s)[i])
  {
    if s != [] { EncodeIsPlain(s[1..]); }
  }

  // ---- Splitting ------------------------------------------------------------------------------

  /** Position of the first `sep`, or the length. */
  function Find(s: Bytes, sep: Byte): (i: nat)
    ensures i <= |s| && sep !in s[..i] && (i < |s| ==> s[i] == sep)
  {
    if s == [] then 0
    else if s[0] == sep then 0
    else
      var i := Find(s[1..], sep);
      assert s[..i + 1] == [s[0]] + s[1..][..i];
      i + 1
  }

  lemma FindUnique(s: Bytes, sep: Byte, i: nat)
    requires i <= |s| && sep !in s[..i] && (i < |s| ==> s[i] == sep)
    ensures Find(s, sep) == i
  {
    var j := Find(s, sep);
    assert forall k :: 0 <= k < i ==> s[k] == s[..i][k] && s[k] != sep;
    assert forall k :: 0 <= k < j ==> s[k] == s[..j][k] && s[k] != sep;
  }

  /** Everything before the separator, and everything after it if there is one. */
  function Before(s: Bytes, sep: Byte): Bytes {
    s[..Find(s, sep)]
  }

  function After(s: Bytes, sep: Byte): Bytes {
    if Find(s, sep) == |s| then [] else s[Find(s, sep) + 1..]
  }

  lemma SplitAt(a: Bytes, sep: Byte, b: Bytes)
    requires sep !in a
    ensures Before(a + [sep] + b, sep) == a && After(a + [sep] + b, sep) == b
  {
    var s := a + [sep] + b;
    assert s[..|a|] == a && s[|a|] == sep && s[|a| + 1..] == b;
    FindUnique(s, sep, |a|);
  }

  lemma NoSplit(a: Bytes, sep: Byte)
    requires sep !in a
    ensures Before(a, sep) == a && After(a, sep) == [] && Find(a, sep) == |a|
  {
    assert a[..|a|] == a;
    FindUnique(a, sep, |a|);
  }

  // ---- The parser and the serializer -------------------------------------------------------------

  function ParsePair(fix: Repair, s: Bytes): Pair {
    Pair(fix(Decode(Before(s, EQUALS))), fix(Decode(After(s, EQUALS))))
  }

  /** Pieces between ampersands; empty pieces are skipped. */
  function ParseForm(fix: Repair, s: Bytes): seq<Pair>
    decreases |s|
  {
    if s == [] then []
    else
      var piece := Before(s, AMP);
      (if piece == [] then [] else [ParsePair(fix, piece)])
      + (if Find(s, AMP) == |s| then [] else ParseForm(fix, After(s, AMP)))
  }

  function SerializePair(p: Pair): Bytes {
    Encode(p.key) + [EQUALS] + Encode(p.value)
  }

  function Serialize(ps: seq<Pair>): Bytes {
    if ps == [] then []
    else if |ps| == 1 then SerializePair(ps[0])
    else SerializePair(ps[0]) + [AMP] + Serialize(ps[1..])
  }

  /** Pairs a parse may yield: repaired text. */
  predicate Repaired(fix: Repair, ps: seq<Pair>) {
    forall i :: 0 <= i < |ps| ==> fix(ps[i].key) == ps[i].key && fix(ps[i].value) == ps[i].value
  }

  lemma PairIsPlain(p: Pair)
    ensures AMP !in SerializePair(p) && SerializePair(p) != []
    ensures EQUALS !in Encode(p.key)
    ensures forall i :: 0 <= i < |SerializePair(p)| ==> IsPlain(SerializePair(p)[i]) || SerializePair(p)[i] == EQUALS
  {
    EncodeIsPlain(p.key);
    EncodeIsPlain(p.value);
  }

  lemma ParsePairSerialized(fix: Repair, p: Pair)
    requires fix(p.key) == p.key && fix(p.value) == p.value
    ensures ParsePair(fix, SerializePair(p)) == p
  {
    PairIsPlain(p);
    SplitAt(Encode(p.key), EQUALS, Encode(p.value));
    DecodeEncode(p.key);
    DecodeEncode(p.value);
  }

  /** Parsing what was serialized gives the pairs back, in order. */
  lemma {:induction false} ParseSerialize(fix: Repair, ps: seq<Pair>)
    requires Repaired(fix, ps)
    ensures ParseForm(fix, Serialize(ps)) == ps
  {
    if ps != [] {
      var head := SerializePair(ps[0]);
      PairIsPlain(ps[0]);
      ParsePairSerialized(fix, ps[0]);
      if |ps| == 1 {
        NoSplit(head, AMP);
      } else {
        SplitAt(head, AMP, Serialize(ps[1..]));
        ParseSerialize(fix, ps[1..]);
        assert Find(head + [AMP] + Serialize(ps[1..]), AMP) == |head| by {
          var s := head + [AMP] + Serialize(ps[1..]);
          assert s[..|head|] == head;
          FindUnique(s, AMP, |head|);
        }
      }
    }
  }

  lemma {:induction false} ParseIsRepaired(fix: Repair, s: Bytes)
    requires Idempotent(fix)
    ensures Repaired(fix, ParseForm(fix, s))
    decreases |s|
  {
    if s != [] && Find(s, AMP) < |s| {
      ParseIsRepaired(fix, After(s, AMP));
    }
  }

  lemma {:induction false} SerializeIsPlain(ps: seq<Pair>)
    ensures forall i :: 0 <= i < |Serialize(ps)| ==>
              IsPlain(Serialize(ps)[i]) || Serialize(ps)[i] == EQUALS || Serialize(ps)[i] == AMP
    ensures ps != [] ==> Serialize(ps) != []
  {
    if ps != [] {
      PairIsPlain(ps[0]);
      SerializeIsPlain(ps[1..]);
    }
  }

  // ---- Removing one parameter ---------------------------------------------------------------------

  function Without(ps: seq<Pair>, key: Bytes): (r: seq<Pair>)
    ensures forall i :: 0 <= i < |r| ==> r[i].key != key && r[i] in ps
    ensures forall i :: 0 <= i < |ps| && ps[i].key != key ==> ps[i] in r
  {
    if ps == [] then [] else (if ps[0].key == key then [] else [ps[0]]) + Without(ps[1..], key)
  }

  lemma {:induction false} WithoutAbsent(ps: seq<Pair>, key: Bytes)
    requires forall i :: 0 <= i < |ps| ==> ps[i].key != key
    ensures Without(ps, key) == ps
  {
    if ps != [] { WithoutAbsent(ps[1..], key); }
  }

  lemma {:induction false} WithoutSnoc(ps: seq<Pair>, p: Pair, key: Bytes)
    ensures Without(ps + [p], key) == Without(ps, key) + (if p.key == key then [] else [p])
  {
    if ps == [] {
      assert ps + [p] == [p];
    } else {
      assert (ps + [p])[0] == ps[0] && (ps + [p])[1..] == ps[1..] + [p];
      WithoutSnoc(ps[1..], p, key);
    }
  }

  lemma {:induction false} SerializeSnoc(ps: seq<Pair>, p: Pair)
    ensures Serialize(ps + [p]) == (if ps == [] then [] else Serialize(ps) + [AMP]) + SerializePair(p)
  {
    if ps == [] {
      assert ps + [p] == [p];
    } else {
      assert (ps + [p])[0] == ps[0] && (ps + [p])[1..] == ps[1..] + [p];
      SerializeSnoc(ps[1..], p);
    }
  }

  function PathOf(pq: Bytes): Bytes {
    Before(pq, QUESTION)
  }

  function QueryOf(pq: Bytes): Bytes {
    After(pq, QUESTION)
  }

  /** `path?query` without the parameter, in terms of the pairs that stay. */
  function Stripped(fix: Repair, pq: Bytes, param: Bytes): Bytes {
    if Find(pq, QUESTION) == |pq| then pq
    else
      var kept := Without(ParseForm(fix, QueryOf(pq)), param);
      if kept == [] then PathOf(pq) else PathOf(pq) + [QUESTION] + Serialize(kept)
  }

  /** The program's loop over the pairs. */
  method KeepOthers(pairs: seq<Pair>, param: Bytes) returns (out: Bytes, keptAny: bool)
    ensures out == Serialize(Without(pairs, param))
    ensures keptAny <==> Without(pairs, param) != []
  {
    out, keptAny := [], false;
    ghost var kept: seq<Pair> := [];
    for i := 0 to |pairs|
      invariant kept == Without(pairs[..i], param)
      invariant out == Serialize(kept) && (keptAny <==> kept != [])
    {
      var p := pairs[i];
      assert pairs[..i + 1] == pairs[..i] + [p];
      WithoutSnoc(pairs[..i], p, param);
      if p.key != param {
        SerializeSnoc(kept, p);
        out := (if keptAny then out + [AMP] else []) + SerializePair(p);
        keptAny := true;
        kept := kept + [p];
      } else {
        assert kept + [] == kept;
      }
    }
    assert pairs[..|pairs|] == pairs;
  }

  /** Parse, serialize what stays, and drop a `?` nothing follows. */
  method StripQueryParam(fix: Repair, pq: Bytes, param: Bytes) returns (r: Bytes)
    ensures r == Stripped(fix, pq, param)
  {
    if Find(pq, QUESTION) == |pq| {
      return pq;
    }
    var out, keptAny := KeepOthers(ParseForm(fix, QueryOf(pq)), param);
    r := if keptAny then PathOf(pq) + [QUESTION] + out else PathOf(pq);
  }

  /** Main result: the stripped query parses to exactly the other pairs, in order, and
      the path is untouched. */
  lemma StrippedIsExact(fix: Repair, pq: Bytes, param: Bytes)
    requires Idempotent(fix)
    ensures PathOf(Stripped(fix, pq, param)) == PathOf(pq)
    ensures ParseForm(fix, QueryOf(Stripped(fix, pq, param))) == Without(ParseForm(fix, QueryOf(pq)), param)
  {
    if Find(pq, QUESTION) < |pq| {
      var kept := Without(ParseForm(fix, QueryOf(pq)), param);
      if kept == [] {
        NoSplit(PathOf(pq), QUESTION);
      } else {
        SplitAt(PathOf(pq), QUESTION, Serialize(kept));
        ParseIsRepaired(fix, QueryOf(pq));
        ParseSerialize(fix, kept);
      }
    }
  }

  lemma StrippingIsIdempotent(fix: Repair, pq: Bytes, param: Bytes)
    requires Idempotent(fix)
    ensures Stripped(fix, Stripped(fix, pq, param), param) == Stripped(fix, pq, param)
  {
    var once := Stripped(fix, pq, param);
    StrippedIsExact(fix, pq, param);
    WithoutAbsent(ParseForm(fix, QueryOf(once)), param);
    if Find(once, QUESTION) < |once| {
      var kept := Without(ParseForm(fix, QueryOf(pq)), param);
      assert kept != [] by {
        if kept == [] { NoSplit(PathOf(pq), QUESTION); }
      }
    }
  }

  // ---- First value per key -----------------------------------------------------------------------------

  function FirstValue(ps: seq<Pair>, key: Bytes): (r: Option<Bytes>)
    ensures r.None? <==> forall i :: 0 <= i < |ps| ==> ps[i].key != key
    ensures r.Some? ==>
      exists i :: 0 <= i < |ps| && ps[i] == Pair(key, r.value) && forall j :: 0 <= j < i ==> ps[j].key != key
  {
    if ps == [] then None
    else if ps[0].key == key then
      assert ps[0] == Pair(key, ps[0].value);
      Some(ps[0].value)
    else
      var r := FirstValue(ps[1..], key);
      assert r.Some? ==>
        exists i :: 0 <= i < |ps| && ps[i] == Pair(key, r.value) && forall j :: 0 <= j < i ==> ps[j].key != key by {
        if r.Some? {
          var k :| 0 <= k < |ps[1..]| && ps[1..][k] == Pair(key, r.value)
            && forall j :: 0 <= j < k ==> ps[1..][j].key != key;
          assert ps[k + 1] == Pair(key, r.value);
          assert forall j :: 1 <= j < k + 1 ==> ps[j] == ps[1..][j - 1];
        }
      }
      assert r.None? ==> forall i :: 1 <= i < |ps| ==> ps[i] == ps[1..][i - 1];
      r
  }

  lemma {:induction false} FirstValueSnoc(ps: seq<Pair>, p: Pair, key: Bytes)
    ensures FirstValue(ps + [p], key) ==
            if FirstValue(ps, key).Some? then FirstValue(ps, key) else if p.key == key then Some(p.value) else None
  {
    if ps == [] {
      assert ps + [p] == [p];
    } else {
      assert (ps + [p])[0] == ps[0] && (ps + [p])[1..] == ps[1..] + [p];
      FirstValueSnoc(ps[1..], p, key);
    }
  }

  function FirstValues(ps: seq<Pair>): map<Bytes, Bytes> {
    map k | k in (set i | 0 <= i < |ps| :: ps[i].key) && FirstValue(ps, k).Some? :: FirstValue(ps, k).value
  }

  /** The map holds the first value of each key. */
  ghost predicate IsFirstValues(ps: seq<Pair>, out: map<Bytes, Bytes>) {
    forall k :: FirstValue(ps, k) == if k in out then Some(out[k]) else None
  }

  lemma FirstValuesSnoc(ps: seq<Pair>, p: Pair, out: map<Bytes, Bytes>)
    requires IsFirstValues(ps, out)
    ensures IsFirstValues(ps + [p], if p.key in out then out else out[p.key := p.value])
  {
    var out' := if p.key in out then out else out[p.key := p.value];
    forall k ensures FirstValue(ps + [p], k) == if k in out' then Some(out'[k]) else None {
      FirstValueSnoc(ps, p, k);
    }
  }

  lemma FirstValuesAreFirst(ps: seq<Pair>)
    ensures IsFirstValues(ps, FirstValues(ps))
  {
    var all := FirstValues(ps);
    forall k ensures FirstValue(ps, k) == if k in all then Some(all[k]) else None {
      if FirstValue(ps, k).Some? {
        var i :| 0 <= i < |ps| && ps[i] == Pair(k, FirstValue(ps, k).value);
        assert ps[i].key == k;
      }
    }
  }

  lemma SameFirstValues(ps: seq<Pair>, a: map<Bytes, Bytes>, b: map<Bytes, Bytes>)
    requires IsFirstValues(ps, a) && IsFirstValues(ps, b)
    ensures a == b
  {
    forall k ensures k in a <==> k in b {
      assert FirstValue(ps, k) == if k in a then Some(a[k]) else None;
    }
    forall k | k in a ensures a[k] == b[k] {
      assert FirstValue(ps, k) == Some(a[k]);
    }
  }

  lemma FirstValuesUnique(ps: seq<Pair>, out: map<Bytes, Bytes>)
    ensures IsFirstValues(ps, FirstValues(ps))
    ensures IsFirstValues(ps, out) ==> out == FirstValues(ps)
  {
    FirstValuesAreFirst(ps);
    if IsFirstValues(ps, out) { SameFirstValues(ps, out, FirstValues(ps)); }
  }

  /** Each key of the query with the first value it carries. */
  method ParseQuery(fix: Repair, query: Bytes) returns (out: map<Bytes, Bytes>)
    ensures out == FirstValues(ParseForm(fix, query))
  {
    out := map[];
    var pairs := ParseForm(fix, query);
    for i := 0 to |pairs|
      invariant IsFirstValues(pairs[..i], out)
    {
      var p := pairs[i];
      assert pairs[..i + 1] == pairs[..i] + [p];
      FirstValuesSnoc(pairs[..i], p, out);
      if p.key !in out {
        out := out[p.key := p.value];
      }
    }
    assert pairs[..|pairs|] == pairs;
    FirstValuesUnique(pairs, out);
  }

  // ---- Every text, not only serialized ones ----------------------------------------------------------

  /** Letters, digits, `*`, `-`, `.` and `_` stand for themselves, a blank becomes a plus sign,
      and everything else an escape with upper-case digits. */
  lemma EncodesExactly(b: Byte)
    ensures var plain := 48 <= b <= 57 || 65 <= b <= 90 || 97 <= b <= 122 || b == 42 || b == 45 || b == 46 || b == 95;
      if plain then EncodeByte(b) == [b]
      else if b == 32 then EncodeByte(b) == [43]
      else exists hi: Byte, lo: Byte :: EncodeByte(b) == [37, hi, lo] && hi < 97 && lo < 97
                                        && IsHexOf(hi, b / 16) && IsHexOf(lo, b % 16)
  {
    if !IsUnreserved(b) && b != SPACE {
      assert EncodeByte(b) == [37, HexDigit(b / 16), HexDigit(b % 16)];
    }
  }

  /** A hexadecimal digit of this value, in either case. */
  predicate IsHexOf(b: Byte, n: int) {
    if n < 10 then 0 <= n && b == 48 + n else n < 16 && (b == 55 + n || b == 87 + n)
  }

  /** Every escape is decoded, whatever the case of its digits. */
  lemma EscapesDecode(b: Byte, hi: Byte, lo: Byte, rest: Bytes)
    requires IsHexOf(hi, b / 16) && IsHexOf(lo, b % 16)
    ensures Decode([PERCENT, hi, lo] + rest) == [b] + Decode(rest)
  {
    assert ([PERCENT, hi, lo] + rest)[3..] == rest;
  }

  /** A plus sign is a blank; a percent sign that begins no escape, and everything else, stays. */
  lemma OthersStay(b: Byte, rest: Bytes)
    requires b == PERCENT && |rest| >= 2 ==> forall m, n :: !IsHexOf(rest[0], m) || !IsHexOf(rest[1], n)
    ensures Decode([b] + rest) == [if b == PLUS then SPACE else b] + Decode(rest)
  {
    var s := [b] + rest;
    assert s[1..] == rest;
    if IsEscape(s) {
      assert IsHexOf(rest[0], HexValue(rest[0]).value) && IsHexOf(rest[1], HexValue(rest[1]).value);
    }
  }

  /** A form is its pieces between ampersands, one after the other. */
  lemma FormsSplit(fix: Repair, a: Bytes, b: Bytes)
    requires AMP !in a
    ensures ParseForm(fix, a + [AMP] + b) == ParseForm(fix, a) + ParseForm(fix, b)
  {
    FirstPiece(a, b);
    SplitAt(a, AMP, b);
    NoSplit(a, AMP);
  }

  lemma FirstPiece(a: Bytes, b: Bytes)
    requires AMP !in a
    ensures Find(a + [AMP] + b, AMP) == |a|
  {
    var s := a + [AMP] + b;
    assert s[..|a|] == a && s[|a|] == AMP;
    FindUnique(s, AMP, |a|);
  }

  /** An empty piece is nothing; any other is one pair, split at its first equals sign. */
  lemma PiecesAreOnePair(fix: Repair, k: Bytes, v: Bytes)
    requires AMP !in k && AMP !in v && EQUALS !in k
    ensures ParseForm(fix, k + [EQUALS] + v) == [Pair(fix(Decode(k)), fix(Decode(v)))]
    ensures ParseForm(fix, k) == if k == [] then [] else [Pair(fix(Decode(k)), fix([]))]
  {
    NoSplit(k + [EQUALS] + v, AMP);
    SplitAt(k, EQUALS, v);
    NoSplit(k, AMP);
    NoSplit(k, EQUALS);
  }

  function Kept(ps: seq<Pair>, key: Bytes): (r: seq<Option<Pair>>)
    ensures |r| == |ps| && forall i :: 0 <= i < |r| ==> r[i] == if ps[i].key == key then None else Some(ps[i])
  {
    if ps == [] then [] else [if ps[0].key == key then None else Some(ps[0])] + Kept(ps[1..], key)
  }

  lemma {:induction false} WithoutIsKept(ps: seq<Pair>, key: Bytes)
    ensures Without(ps, key) == Present(Kept(ps, key))
  {
    if ps != [] {
      WithoutIsKept(ps[1..], key);
      assert Kept(ps, key)[1..] == Kept(ps[1..], key);
    }
  }

  /** The pairs with another key stay in order, with repetitions and none passed over. */
  lemma WithoutInOrder(ps: seq<Pair>, key: Bytes) returns (at: seq<nat>)
    ensures IsListing(Kept(ps, key), at, Without(ps, key))
  {
    WithoutIsKept(ps, key);
    at := PresentInOrder(Kept(ps, key));
  }
}
