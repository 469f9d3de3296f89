/** What the shim reads off a request: single headers, session cookies, forwarded headers
    and the client's address. Header names are lower-case, as the HTTP library keeps them. */
module Requests {
  import opened Prelude
  import opened FormUrl

  const TAB: Byte := 9
  const COMMA: Byte := 44
  const DASH: Byte := 45
  const SEMICOLON: Byte := 59

  datatype Request = Request(verb: Bytes, full: Bytes, headers: seq<Pair>)

  /** `host` */
  const HOST: Bytes := [104, 111, 115, 116]
  /** `cookie` */
  const COOKIE: Bytes := [99, 111, 111, 107, 105, 101]
  /** `x-forwarded-proto` */
  const X_FORWARDED_PROTO: Bytes := [120, 45, 102, 111, 114, 119, 97, 114, 100, 101, 100, 45, 112, 114, 111, 116, 111]
  /** `x-forwarded-for` */
  const X_FORWARDED_FOR: Bytes := [120, 45, 102, 111, 114, 119, 97, 114, 100, 101, 100, 45, 102, 111, 114]

  /** Header values that can be read as text: visible ASCII, blanks and tabs. */
  predicate ReadableByte(b: Byte) {
    b == TAB || 32 <= b < 127
  }

  predicate Readable(s: Bytes) {
    forall i :: 0 <= i < |s| ==> ReadableByte(s[i])
  }

  /** The first header of the name, if it is readable. */
  function HeaderStr(req: Request, name: Bytes): (r: Option<Bytes>)
    ensures r.Some? ==> Readable(r.value)
  {
    var v := FirstValue(req.headers, name);
    if v.Some? && Readable(v.value) then v else None
  }

  // ---- Trimming and splitting ------------------------------------------------------------------

  predicate IsBlank(b: Byte) {
    b == SPACE || b == TAB
  }

  function TrimFront(s: Bytes): (r: Bytes)
    ensures |r| <= |s| && (r != [] ==> !IsBlank(r[0]))
  {
    if s != [] && IsBlank(s[0]) then TrimFront(s[1..]) else s
  }

  function TrimBack(s: Bytes): (r: Bytes)
    ensures r <= s && (r != [] ==> !IsBlank(r[|r| - 1]))
  {
    if s != [] && IsBlank(s[|s| - 1]) then TrimBack(s[..|s| - 1]) else s
  }

  function TrimBlanks(s: Bytes): (r: Bytes)
    ensures r != [] ==> !IsBlank(r[0]) && !IsBlank(r[|r| - 1])
  {
    TrimBack(TrimFront(s))
  }

  predicate IsTrimmed(s: Bytes) {
    s != [] ==> !IsBlank(s[0]) && !IsBlank(s[|s| - 1])
  }

  lemma TrimmedStays(s: Bytes)
    requires IsTrimmed(s)
    ensures TrimBlanks(s) == s && TrimBlanks([SPACE] + s) == s
  {
    assert ([SPACE] + s)[1..] == s;
  }

  /** The pieces between separators. */
  function Pieces(s: Bytes, sep: Byte): (r: seq<Bytes>)
    ensures r != []
    decreases |s|
  {
    if Find(s, sep) == |s| then [s] else [Before(s, sep)] + Pieces(After(s, sep), sep)
  }

  lemma PiecesOfJoined(a: Bytes, sep: Byte, b: Bytes)
    requires sep !in a
    ensures Pieces(a + [sep] + b, sep) == [a] + Pieces(b, sep)
  {
    SplitAt(a, sep, b);
    var s := a + [sep] + b;
    assert s[..|a|] == a;
    FindUnique(s, sep, |a|);
  }

  // ---- The client's address ------------------------------------------------------------------------

  /** The first address of the forwarding chain. */
  function RequestIp(req: Request): (r: Option<Bytes>)
    ensures r.Some? ==> r.value != [] && IsTrimmed(r.value)
  {
    var v := HeaderStr(req, X_FORWARDED_FOR);
    if v.None? then None
    else
      var ip := TrimBlanks(Before(v.value, COMMA));
      if ip == [] then None else Some(ip)
  }

  // ---- Session cookies -------------------------------------------------------------------------------

  /** The session a cookie pair stands for: its name starts with the configured one. */
  function SessionOf(piece: Bytes, namePrefix: Bytes): Option<Pair> {
    if Find(piece, EQUALS) == |piece| then None
    else
      var name := TrimBlanks(Before(piece, EQUALS));
      if name != [] && namePrefix <= name then Some(Pair(name, TrimBlanks(After(piece, EQUALS)))) else None
  }

  function SessionsOf(pieces: seq<Bytes>, namePrefix: Bytes): (r: seq<Option<Pair>>)
    ensures |r| == |pieces| && forall i :: 0 <= i < |r| ==> r[i] == SessionOf(pieces[i], namePrefix)
  {
    if pieces == [] then [] else [SessionOf(pieces[0], namePrefix)] + SessionsOf(pieces[1..], namePrefix)
  }

  /** Pairs inserted one after the other; a later value replaces an earlier one. */
  function LastValues(ps: seq<Pair>): map<Bytes, Bytes> {
    if ps == [] then map[] else LastValues(ps[..|ps| - 1])[ps[|ps| - 1].key := ps[|ps| - 1].value]
  }

  function Sessions(cookie: Bytes, namePrefix: Bytes): map<Bytes, Bytes> {
    LastValues(Present(SessionsOf(Pieces(cookie, SEMICOLON), namePrefix)))
  }

  /** Does the pair at `i` give the key its last value? */
  predicate IsLastAt(ps: seq<Pair>, k: Bytes, value: Bytes, i: nat) {
    i < |ps| && ps[i] == Pair(k, value) && forall j :: i < j < |ps| ==> ps[j].key != k
  }

  lemma {:induction false} LastValuesAreLast(ps: seq<Pair>, k: Bytes)
    ensures k in LastValues(ps) ==> exists i :: IsLastAt(ps, k, LastValues(ps)[k], i)
    ensures k !in LastValues(ps) ==> forall i :: 0 <= i < |ps| ==> ps[i].key != k
    decreases |ps|
  {
    if ps != [] {
      var n := |ps| - 1;
      var front := ps[..n];
      assert ps == front + [ps[n]];
      LastValuesAreLast(front, k);
      if ps[n].key == k {
        assert IsLastAt(ps, k, LastValues(ps)[k], n);
      } else if k in LastValues(front) {
        var i :| IsLastAt(front, k, LastValues(front)[k], i);
        assert IsLastAt(ps, k, LastValues(ps)[k], i);
      }
    }
  }

  /** One more value that may be there. */
  lemma InsertPresent(all: seq<Option<Pair>>, i: nat)
    requires i < |all|
    ensures LastValues(Present(all[..i + 1])) ==
            var before := LastValues(Present(all[..i]));
            if all[i].Some? then before[all[i].value.key := all[i].value.value] else before
  {
    assert all[..i + 1] == all[..i] + [all[i]];
    PresentSnoc(all[..i], all[i]);
    var ps := Present(all[..i]);
    if all[i].Some? {
      assert (ps + [all[i].value])[..|ps|] == ps;
    } else {
      assert ps + [] == ps;
    }
  }

  /** The loop over the cookie header. */
  method CollectSessions(cookie: Bytes, namePrefix: Bytes) returns (sessions: map<Bytes, Bytes>)
    ensures sessions == Sessions(cookie, namePrefix)
  {
    sessions := map[];
    var pieces := Pieces(cookie, SEMICOLON);
    ghost var all := SessionsOf(pieces, namePrefix);
    for i := 0 to |pieces|
      invariant sessions == LastValues(Present(all[..i]))
    {
      InsertPresent(all, i);
      assert all[i] == SessionOf(pieces[i], namePrefix);
      if Find(pieces[i], EQUALS) < |pieces[i]| {
        var name := TrimBlanks(Before(pieces[i], EQUALS));
        if name != [] && namePrefix <= name {
          sessions := sessions[name := TrimBlanks(After(pieces[i], EQUALS))];
        }
      }
    }
    assert all[..|pieces|] == all;
  }

  /** `a=1; b=2`, the way a client writes cookies. */
  function PrintCookies(ps: seq<Pair>): Bytes
    requires ps != []
  {
    var first := ps[0].key + [EQUALS] + ps[0].value;
    if |ps| == 1 then first else first + [SEMICOLON] + ([SPACE] + PrintCookies(ps[1..]))
  }

  /** Cookie names hold no separator and neither part begins or ends blank. */
  predicate IsCookie(p: Pair) {
    && p.key != [] && EQUALS !in p.key && SEMICOLON !in p.key && IsTrimmed(p.key)
    && SEMICOLON !in p.value && IsTrimmed(p.value)
  }

  function Chosen(ps: seq<Pair>, namePrefix: Bytes): seq<Option<Pair>> {
    if ps == [] then [] else [if namePrefix <= ps[0].key then Some(ps[0]) else None] + Chosen(ps[1..], namePrefix)
  }

  /** A piece splits at its first equals sign. */
  lemma SessionOfSplit(t: Bytes, value: Bytes, namePrefix: Bytes)
    requires EQUALS !in t
    ensures SessionOf(t + [EQUALS] + value, namePrefix) ==
            if TrimBlanks(t) != [] && namePrefix <= TrimBlanks(t)
            then Some(Pair(TrimBlanks(t), TrimBlanks(value))) else None
  {
    var s := t + [EQUALS] + value;
    SplitAt(t, EQUALS, value);
    assert s[..|t|] == t && s[|t|] == EQUALS;
    FindUnique(s, EQUALS, |t|);
  }

  lemma SessionsOfFirst(head: Bytes, tail: seq<Bytes>, namePrefix: Bytes)
    ensures SessionsOf([head] + tail, namePrefix) == [SessionOf(head, namePrefix)] + SessionsOf(tail, namePrefix)
  {
    assert ([head] + tail)[0] == head && ([head] + tail)[1..] == tail;
  }

  /** The piece a cookie is printed as, first or after another. */
  function Piece(p: Pair, lead: Bytes): Bytes {
    lead + (p.key + [EQUALS] + p.value)
  }

  lemma LastPiece(p: Pair, namePrefix: Bytes, lead: Bytes)
    requires IsCookie(p) && (lead == [] || lead == [SPACE])
    ensures SessionsOf(Pieces(Piece(p, lead), SEMICOLON), namePrefix) == [if namePrefix <= p.key then Some(p) else None]
  {
    var head := Piece(p, lead);
    SessionOfLed(p, namePrefix, lead);
    NoSplit(head, SEMICOLON);
    SessionsOfFirst(head, [], namePrefix);
    assert [head] + [] == [head];
  }

  lemma NextPiece(p: Pair, namePrefix: Bytes, lead: Bytes, rest: Bytes)
    requires IsCookie(p) && (lead == [] || lead == [SPACE])
    ensures SessionsOf(Pieces(Piece(p, lead) + [SEMICOLON] + rest, SEMICOLON), namePrefix) ==
            [if namePrefix <= p.key then Some(p) else None] + SessionsOf(Pieces(rest, SEMICOLON), namePrefix)
  {
    SessionOfLed(p, namePrefix, lead);
    PiecesOfJoined(Piece(p, lead), SEMICOLON, rest);
    SessionsOfFirst(Piece(p, lead), Pieces(rest, SEMICOLON), namePrefix);
  }

  lemma PrintedPieces(ps: seq<Pair>, lead: Bytes)
    requires ps != []
    ensures lead + PrintCookies(ps) ==
            if |ps| == 1 then Piece(ps[0], lead)
            else Piece(ps[0], lead) + [SEMICOLON] + ([SPACE] + PrintCookies(ps[1..]))
  {
    if |ps| > 1 {
      var first, rest := ps[0].key + [EQUALS] + ps[0].value, [SPACE] + PrintCookies(ps[1..]);
      assert PrintCookies(ps) == (first + [SEMICOLON]) + rest;
      Assoc(lead, first + [SEMICOLON], rest);
      Assoc(lead, first, [SEMICOLON]);
    }
  }

  lemma {:induction false} SessionsOfPrinted(ps: seq<Pair>, namePrefix: Bytes, lead: Bytes)
    requires ps != [] && (forall i :: 0 <= i < |ps| ==> IsCookie(ps[i])) && (lead == [] || lead == [SPACE])
    ensures SessionsOf(Pieces(lead + PrintCookies(ps), SEMICOLON), namePrefix) == Chosen(ps, namePrefix)
    decreases |ps|
  {
    PrintedPieces(ps, lead);
    ChosenFirst(ps, namePrefix);
    if |ps| == 1 {
      LastPiece(ps[0], namePrefix, lead);
    } else {
      NextPiece(ps[0], namePrefix, lead, [SPACE] + PrintCookies(ps[1..]));
      SessionsOfPrinted(ps[1..], namePrefix, [SPACE]);
    }
  }

  lemma ChosenFirst(ps: seq<Pair>, namePrefix: Bytes)
    requires ps != []
    ensures Chosen(ps, namePrefix) ==
            [if namePrefix <= ps[0].key then Some(ps[0]) else None] + Chosen(ps[1..], namePrefix)
    ensures |ps| == 1 ==> Chosen(ps, namePrefix) == [if namePrefix <= ps[0].key then Some(ps[0]) else None]
  {}

  lemma SessionOfLed(p: Pair, namePrefix: Bytes, lead: Bytes)
    requires IsCookie(p) && (lead == [] || lead == [SPACE])
    ensures SessionOf(Piece(p, lead), namePrefix) == if namePrefix <= p.key then Some(p) else None
    ensures SEMICOLON !in Piece(p, lead)
  {
    var t := lead + p.key;
    assert lead == [] ==> t == p.key;
    Assoc(lead, p.key + [EQUALS], p.value);
    Assoc(lead, p.key, [EQUALS]);
    assert Piece(p, lead) == t + [EQUALS] + p.value;
    SessionOfSplit(t, p.value, namePrefix);
    TrimmedStays(p.key);
    TrimmedStays(p.value);
  }

  /** Main result: from a printed cookie header the shim collects exactly the cookies whose
      names start with the configured one, the last value of each. */
  lemma SessionsAreCookies(ps: seq<Pair>, namePrefix: Bytes)
    requires ps != [] && forall i :: 0 <= i < |ps| ==> IsCookie(ps[i])
    ensures Sessions(PrintCookies(ps), namePrefix) == LastValues(Present(Chosen(ps, namePrefix)))
  {
    SessionsOfPrinted(ps, namePrefix, []);
    assert [] + PrintCookies(ps) == PrintCookies(ps);
  }

  // ---- Forwarded headers --------------------------------------------------------------------------------

  function Upper(b: Byte): Byte {
    if 97 <= b <= 122 then b - 32 else b
  }

  function Lower(b: Byte): Byte {
    if 65 <= b <= 90 then b + 32 else b
  }

  /** `x-forwarded-proto` as `X-Forwarded-Proto`. */
  function Canonical(start: bool, name: Bytes): (r: Bytes)
    ensures |r| == |name|
    decreases name
  {
    if name == [] then []
    else [if start then Upper(name[0]) else Lower(name[0])] + Canonical(name[0] == DASH, name[1..])
  }

  function Lowered(s: Bytes): (r: Bytes)
    ensures |r| == |s| && forall i :: 0 <= i < |s| ==> r[i] == Lower(s[i])
  {
    if s == [] then [] else [Lower(s[0])] + Lowered(s[1..])
  }

  lemma {:induction false} CanonicalKeepsName(start: bool, name: Bytes)
    ensures Lowered(Canonical(start, name)) == Lowered(name)
    decreases name
  {
    if name != [] {
      CanonicalKeepsName(name[0] == DASH, name[1..]);
      assert Canonical(start, name)[1..] == Canonical(name[0] == DASH, name[1..]);
    }
  }

  /** Different header names stay different, so no header displaces another. */
  lemma CanonicalInjective(a: Bytes, b: Bytes)
    requires Lowered(a) == a && Lowered(b) == b
    ensures Canonical(true, a) == Canonical(true, b) <==> a == b
  {
    CanonicalKeepsName(true, a);
    CanonicalKeepsName(true, b);
  }

  lemma {:induction false} CanonicalIdempotent(start: bool, name: Bytes)
    ensures Canonical(start, Canonical(start, name)) == Canonical(start, name)
    decreases name
  {
    if name != [] {
      var r := Canonical(start, name);
      assert r[0] == DASH <==> name[0] == DASH;
      assert r[1..] == Canonical(name[0] == DASH, name[1..]);
      CanonicalIdempotent(name[0] == DASH, name[1..]);
    }
  }

  function Forwarded(header: Pair): Option<Pair> {
    if header.key == COOKIE || !Readable(header.value) then None
    else Some(Pair(Canonical(true, header.key), header.value))
  }

  function AllForwarded(headers: seq<Pair>): (r: seq<Option<Pair>>)
    ensures |r| == |headers| && forall i :: 0 <= i < |r| ==> r[i] == Forwarded(headers[i])
  {
    if headers == [] then [] else [Forwarded(headers[0])] + AllForwarded(headers[1..])
  }

  /** All readable headers but cookies, the first value of each name. */
  function ForwardedHeaders(req: Request): map<Bytes, Bytes> {
    FirstValues(Present(AllForwarded(req.headers)))
  }

  lemma {:induction false} ForwardedSnoc(headers: seq<Pair>, i: nat, out: map<Bytes, Bytes>)
    requires i < |headers| && IsFirstValues(Present(AllForwarded(headers)[..i]), out)
    ensures var h := Forwarded(headers[i]);
      IsFirstValues(Present(AllForwarded(headers)[..i + 1]),
                    if h.Some? && h.value.key !in out then out[h.value.key := h.value.value] else out)
  {
    var all := AllForwarded(headers);
    assert all[..i + 1] == all[..i] + [all[i]];
    PresentSnoc(all[..i], all[i]);
    if all[i].Some? {
      FirstValuesSnoc(Present(all[..i]), all[i].value, out);
    } else {
      assert Present(all[..i]) + [] == Present(all[..i]);
    }
  }

  /** The loop over the headers. */
  method CollectHeaders(req: Request) returns (out: map<Bytes, Bytes>)
    ensures out == ForwardedHeaders(req)
  {
    out := map[];
    ghost var all := AllForwarded(req.headers);
    for i := 0 to |req.headers|
      invariant IsFirstValues(Present(all[..i]), out)
    {
      ForwardedSnoc(req.headers, i, out);
      var h := req.headers[i];
      if h.key != COOKIE && Readable(h.value) {
        var name := Canonical(true, h.key);
        if name !in out {
          out := out[name := h.value];
        }
      }
    }
    assert all[..|req.headers|] == all;
    FirstValuesUnique(Present(all), out);
  }

  /** The first value there is for a key. */
  lemma {:induction false} FirstPresent(all: seq<Option<Pair>>, k: Bytes)
    ensures FirstValue(Present(all), k).Some? <==> exists i :: 0 <= i < |all| && all[i].Some? && all[i].value.key == k
    ensures FirstValue(Present(all), k).Some? ==>
      exists i :: 0 <= i < |all| && all[i] == Some(Pair(k, FirstValue(Present(all), k).value))
                  && forall j :: 0 <= j < i && all[j].Some? ==> all[j].value.key != k
    decreases |all|
  {
    if all != [] {
      var n := |all| - 1;
      var front := all[..n];
      assert all == front + [all[n]];
      PresentSnoc(front, all[n]);
      if all[n].Some? {
        FirstValueSnoc(Present(front), all[n].value, k);
      } else {
        assert Present(front) + [] == Present(front);
      }
      FirstPresent(front, k);
      if FirstValue(Present(front), k).Some? {
        var i :| 0 <= i < |front| && front[i] == Some(Pair(k, FirstValue(Present(front), k).value))
                 && forall j :: 0 <= j < i && front[j].Some? ==> front[j].value.key != k;
        assert all[i] == front[i] && forall j :: 0 <= j < i ==> all[j] == front[j];
      } else {
        assert forall i :: 0 <= i < n && all[i].Some? ==> front[i] == all[i] && all[i].value.key != k;
      }
    }
  }

  /** Did a readable value of this header come? */
  predicate IsSent(req: Request, name: Bytes) {
    exists i :: 0 <= i < |req.headers| && req.headers[i].key == name && Readable(req.headers[i].value)
  }

  predicate NamesLowered(req: Request) {
    forall i :: 0 <= i < |req.headers| ==> Lowered(req.headers[i].key) == req.headers[i].key
  }

  lemma ForwardedMeans(h: Pair, name: Bytes)
    requires Lowered(h.key) == h.key && Lowered(name) == name
    ensures Forwarded(h).Some? && Forwarded(h).value.key == Canonical(true, name) <==>
            h.key == name && name != COOKIE && Readable(h.value)
    ensures Forwarded(h).Some? ==> Forwarded(h).value.value == h.value
  {
    CanonicalInjective(h.key, name);
  }

  lemma ForwardedFirst(req: Request, c: Bytes)
    ensures c in ForwardedHeaders(req) <==> FirstValue(Present(AllForwarded(req.headers)), c).Some?
    ensures c in ForwardedHeaders(req) ==>
      FirstValue(Present(AllForwarded(req.headers)), c) == Some(ForwardedHeaders(req)[c])
  {
    var ps := Present(AllForwarded(req.headers));
    FirstValuesAreFirst(ps);
    assert FirstValue(ps, c) == if c in FirstValues(ps) then Some(FirstValues(ps)[c]) else None;
  }

  /** Main result: a header is forwarded exactly if it is no cookie and some readable value of
      it came. */
  lemma ForwardedIff(req: Request, name: Bytes)
    requires NamesLowered(req) && Lowered(name) == name
    ensures Canonical(true, name) in ForwardedHeaders(req) <==> name != COOKIE && IsSent(req, name)
  {
    var all := AllForwarded(req.headers);
    ForwardedFirst(req, Canonical(true, name));
    FirstPresent(all, Canonical(true, name));
    forall i | 0 <= i < |all|
      ensures all[i].Some? && all[i].value.key == Canonical(true, name) <==>
              req.headers[i].key == name && name != COOKIE && Readable(req.headers[i].value)
    {
      ForwardedMeans(req.headers[i], name);
    }
  }

  /** And then with the first such value. */
  lemma ForwardedIsFirst(req: Request, name: Bytes) returns (i: nat)
    requires NamesLowered(req) && Lowered(name) == name && Canonical(true, name) in ForwardedHeaders(req)
    ensures i < |req.headers| && req.headers[i] == Pair(name, ForwardedHeaders(req)[Canonical(true, name)])
    ensures forall j :: 0 <= j < i && req.headers[j].key == name ==> !Readable(req.headers[j].value)
  {
    var all, c := AllForwarded(req.headers), Canonical(true, name);
    ForwardedFirst(req, c);
    FirstPresent(all, c);
    i :| 0 <= i < |all| && all[i] == Some(Pair(c, FirstValue(Present(all), c).value))
         && forall j :: 0 <= j < i && all[j].Some? ==> all[j].value.key != c;
    ForwardedMeans(req.headers[i], name);
    forall j | 0 <= j < i && req.headers[j].key == name ensures !Readable(req.headers[j].value) {
      ForwardedMeans(req.headers[j], name);
      assert all[j] == Forwarded(req.headers[j]);
    }
  }
}
