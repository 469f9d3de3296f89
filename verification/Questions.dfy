/** What the shim asks pangolin about a request, and what it answers, said outright: each
    header, cookie and parameter that goes into the question, and each kind of answer. */
module Questions {
  import opened Prelude
  import opened FormUrl
  import opened Requests
  import opened Shim

  /** The bytes of an ASCII text. */
  predicate Spells(b: Bytes, s: string) {
    |b| == |s| && forall i :: 0 <= i < |b| ==> b[i] == s[i] as int
  }

  lemma NamesAreSpelled()
    ensures Spells(HOST, "host") && Spells(COOKIE, "cookie") && Spells(HTTPS, "https")
    ensures Spells(X_FORWARDED_PROTO, "x-forwarded-proto") && Spells(X_FORWARDED_FOR, "x-forwarded-for")
    ensures Spells(HEALTHZ, "/healthz") && Spells(GET, "GET") && Spells(HEAD, "HEAD")
  {}

  lemma UserNamesAreSpelled()
    ensures Spells(REMOTE_USER_ID, "remote-user-id") && Spells(REMOTE_USER, "remote-user")
    ensures Spells(REMOTE_EMAIL, "remote-email") && Spells(REMOTE_NAME, "remote-name")
    ensures Spells(REMOTE_ROLE, "remote-role")
  {}

  // ---- Trimming -----------------------------------------------------------------------------------

  predicate AreBlanks(s: Bytes) {
    forall i :: 0 <= i < |s| ==> IsBlank(s[i])
  }

  lemma {:induction false} FrontDrops(front: Bytes, s: Bytes)
    requires AreBlanks(front) && (s == [] || !IsBlank(s[0]))
    ensures TrimFront(front + s) == s
  {
    if front == [] {
      assert front + s == s;
    } else {
      assert (front + s)[0] == front[0] && (front + s)[1..] == front[1..] + s;
      FrontDrops(front[1..], s);
    }
  }

  lemma {:induction false} BackDrops(s: Bytes, back: Bytes)
    requires AreBlanks(back) && (s == [] || !IsBlank(s[|s| - 1]))
    ensures TrimBack(s + back) == s
    decreases |back|
  {
    if back == [] {
      assert s + back == s;
    } else {
      var n := |s + back| - 1;
      assert (s + back)[n] == back[|back| - 1] && (s + back)[..n] == s + back[..|back| - 1];
      BackDrops(s, back[..|back| - 1]);
    }
  }

  predicate IsPadding(s: Bytes, front: Bytes, t: Bytes, back: Bytes) {
    s == front + t + back && AreBlanks(front) && AreBlanks(back)
  }

  /** The text without the blanks around it. */
  ghost predicate IsTrimOf(t: Bytes, s: Bytes) {
    IsTrimmed(t) && exists front, back :: IsPadding(s, front, t, back)
  }

  lemma {:induction false} FrontBlanks(s: Bytes)
    ensures var n := |s| - |TrimFront(s)|; AreBlanks(s[..n]) && s[n..] == TrimFront(s)
  {
    if s != [] && IsBlank(s[0]) {
      FrontBlanks(s[1..]);
      var n := |s| - |TrimFront(s)|;
      assert forall i :: 0 < i < n ==> s[i] == s[1..][..n - 1][i - 1];
    }
  }

  lemma {:induction false} BackBlanks(s: Bytes)
    ensures AreBlanks(s[|TrimBack(s)|..])
    decreases |s|
  {
    if s != [] && IsBlank(s[|s| - 1]) {
      BackBlanks(s[..|s| - 1]);
      assert forall i :: |TrimBack(s)| <= i < |s| - 1 ==> s[i] == s[..|s| - 1][|TrimBack(s)|..][i - |TrimBack(s)|];
    }
  }

  lemma BlanksAround(s: Bytes) returns (front: Bytes, back: Bytes)
    ensures IsPadding(s, front, TrimBlanks(s), back)
  {
    FrontBlanks(s);
    BackBlanks(TrimFront(s));
    front := s[..|s| - |TrimFront(s)|];
    back := TrimFront(s)[|TrimBlanks(s)|..];
    Padded(s, |front|, TrimBlanks(s));
  }

  lemma Padded(s: Bytes, n: nat, t: Bytes)
    requires n <= |s| && t <= s[n..]
    ensures s == s[..n] + t + s[n..][|t|..]
  {
    assert s[n..] == t + s[n..][|t|..];
  }

  lemma TrimOfPadded(s: Bytes, front: Bytes, t: Bytes, back: Bytes)
    requires IsTrimmed(t) && IsPadding(s, front, t, back)
    ensures TrimBlanks(s) == t
  {
    if t == [] {
      assert s == (front + back) + [];
      FrontDrops(front + back, []);
    } else {
      assert s == front + (t + back);
      FrontDrops(front, t + back);
      BackDrops(t, back);
    }
  }

  lemma TrimBlanksIff(s: Bytes, t: Bytes)
    ensures TrimBlanks(s) == t <==> IsTrimOf(t, s)
  {
    var f, b := BlanksAround(s);
    if IsTrimOf(t, s) {
      var front, back :| IsPadding(s, front, t, back);
      TrimOfPadded(s, front, t, back);
    }
  }

  // ---- Headers --------------------------------------------------------------------------------------

  /** The first header of the name has this value, and it can be read as text. */
  predicate Carries(req: Request, name: Bytes, value: Bytes) {
    FirstValue(req.headers, name) == Some(value) && Readable(value)
  }

  /** What is there before the first separator. */
  ghost predicate IsFirstPart(part: Bytes, s: Bytes, sep: Byte) {
    sep !in part && (s == part || exists rest :: AreParts(s, part, sep, rest))
  }

  predicate AreParts(s: Bytes, part: Bytes, sep: Byte, rest: Bytes) {
    s == part + [sep] + rest && sep !in part
  }

  lemma BeforeIff(s: Bytes, sep: Byte, part: Bytes)
    ensures Before(s, sep) == part <==> IsFirstPart(part, s, sep)
  {
    var i := Find(s, sep);
    if i < |s| {
      assert AreParts(s, s[..i], sep, s[i + 1..]);
    } else {
      assert s[..i] == s;
    }
    if IsFirstPart(part, s, sep) {
      if s == part {
        NoSplit(part, sep);
      } else {
        var rest :| AreParts(s, part, sep, rest);
        SplitAt(part, sep, rest);
      }
    }
  }

  /** The client's address: the trimmed front of the forwarding chain, if there is any. */
  lemma RequestIpIff(req: Request, ip: Bytes)
    ensures RequestIp(req) == Some(ip) <==>
      ip != [] && exists chain, first :: Carries(req, X_FORWARDED_FOR, chain) && IsFirstPart(first, chain, COMMA)
                                         && IsTrimOf(ip, first)
  {
    var v := HeaderStr(req, X_FORWARDED_FOR);
    if v.Some? {
      var first := Before(v.value, COMMA);
      BeforeIff(v.value, COMMA, first);
      TrimBlanksIff(first, TrimBlanks(first));
    }
    if ip != [] && exists chain, first :: Carries(req, X_FORWARDED_FOR, chain) && IsFirstPart(first, chain, COMMA)
                                          && IsTrimOf(ip, first) {
      var chain, first :| Carries(req, X_FORWARDED_FOR, chain) && IsFirstPart(first, chain, COMMA)
        && IsTrimOf(ip, first);
      BeforeIff(chain, COMMA, first);
      TrimBlanksIff(first, ip);
    }
  }

  /** Canonical casing: a letter is upper case at the start and after a dash, else lower case. */
  lemma {:induction false} CanonicalIs(start: bool, name: Bytes, i: nat)
    requires i < |name|
    ensures var first := if i == 0 then start else name[i - 1] == DASH;
      Canonical(start, name)[i] ==
      if first && 97 <= name[i] <= 122 then name[i] - 32
      else if !first && 65 <= name[i] <= 90 then name[i] + 32 else name[i]
    decreases name
  {
    if i > 0 { CanonicalIs(name[0] == DASH, name[1..], i - 1); }
  }

  // ---- Sessions ---------------------------------------------------------------------------------------

  /** The cookie of this name and value: trimmed, split at its first equals sign, and of a
      name that is not empty and starts with the prefix. */
  ghost predicate IsSession(piece: Bytes, namePrefix: Bytes, name: Bytes, value: Bytes) {
    && name != [] && namePrefix <= name
    && exists k, v :: AreParts(piece, k, EQUALS, v) && IsTrimOf(name, k) && IsTrimOf(value, v)
  }

  lemma SessionIff(piece: Bytes, namePrefix: Bytes, name: Bytes, value: Bytes)
    ensures SessionOf(piece, namePrefix) == Some(Pair(name, value)) <==> IsSession(piece, namePrefix, name, value)
  {
    var i := Find(piece, EQUALS);
    if i < |piece| {
      var k, v := Before(piece, EQUALS), After(piece, EQUALS);
      assert AreParts(piece, k, EQUALS, v);
      TrimBlanksIff(k, TrimBlanks(k));
      TrimBlanksIff(v, TrimBlanks(v));
    }
    if IsSession(piece, namePrefix, name, value) {
      var k, v :| AreParts(piece, k, EQUALS, v) && IsTrimOf(name, k) && IsTrimOf(value, v);
      SplitAt(k, EQUALS, v);
      TrimBlanksIff(k, name);
      TrimBlanksIff(v, value);
      FindUnique(piece, EQUALS, |k|);
    }
  }

  /** The last of the optional pairs that has the key has this value. */
  ghost predicate IsLastOf(all: seq<Option<Pair>>, key: Bytes, value: Bytes) {
    exists i :: 0 <= i < |all| && all[i] == Some(Pair(key, value))
                && forall j :: i < j < |all| && all[j].Some? ==> all[j].value.key != key
  }

  lemma LastOfSnoc(all: seq<Option<Pair>>, x: Option<Pair>, key: Bytes, value: Bytes)
    ensures IsLastOf(all + [x], key, value) <==>
            if x.Some? && x.value.key == key then x.value.value == value else IsLastOf(all, key, value)
  {
    var all' := all + [x];
    assert all'[|all|] == x && forall i :: 0 <= i < |all| ==> all'[i] == all[i];
    if x.Some? && x.value == Pair(key, value) {
      assert all'[|all|] == Some(Pair(key, value));
    } else if !(x.Some? && x.value.key == key) {
      if IsLastOf(all, key, value) {
        var i :| 0 <= i < |all| && all[i] == Some(Pair(key, value))
          && forall j :: i < j < |all| && all[j].Some? ==> all[j].value.key != key;
        assert all'[i] == Some(Pair(key, value));
      }
      if IsLastOf(all', key, value) {
        var i :| 0 <= i < |all'| && all'[i] == Some(Pair(key, value))
          && forall j :: i < j < |all'| && all'[j].Some? ==> all'[j].value.key != key;
        assert all[i] == Some(Pair(key, value));
      }
    }
  }

  lemma {:induction false} LastValuesIff(all: seq<Option<Pair>>, key: Bytes, value: Bytes)
    ensures var m := LastValues(Present(all)); key in m && m[key] == value <==> IsLastOf(all, key, value)
    decreases |all|
  {
    if all != [] {
      var n := |all| - 1;
      assert all == all[..n] + [all[n]] && all[..n + 1] == all;
      LastValuesIff(all[..n], key, value);
      InsertPresent(all, n);
      LastOfSnoc(all[..n], all[n], key, value);
    }
  }

  /** The piece gives the name a value, and no later piece names it. */
  ghost predicate IsLastSession(pieces: seq<Bytes>, namePrefix: Bytes, name: Bytes, value: Bytes) {
    exists i :: 0 <= i < |pieces| && IsSession(pieces[i], namePrefix, name, value)
                && forall j :: i < j < |pieces| ==> !HasSession(pieces[j], namePrefix, name)
  }

  ghost predicate HasSession(piece: Bytes, namePrefix: Bytes, name: Bytes) {
    exists value :: IsSession(piece, namePrefix, name, value)
  }

  lemma HasSessionIff(piece: Bytes, namePrefix: Bytes, name: Bytes)
    ensures HasSession(piece, namePrefix, name) <==>
            SessionOf(piece, namePrefix).Some? && SessionOf(piece, namePrefix).value.key == name
  {
    var s := SessionOf(piece, namePrefix);
    if s.Some? { SessionIff(piece, namePrefix, s.value.key, s.value.value); }
    if HasSession(piece, namePrefix, name) {
      var value :| IsSession(piece, namePrefix, name, value);
      SessionIff(piece, namePrefix, name, value);
    }
  }

  lemma LastSessionIff(pieces: seq<Bytes>, namePrefix: Bytes, name: Bytes, value: Bytes)
    ensures IsLastOf(SessionsOf(pieces, namePrefix), name, value) <==> IsLastSession(pieces, namePrefix, name, value)
  {
    var all := SessionsOf(pieces, namePrefix);
    forall i | 0 <= i < |pieces|
      ensures all[i] == Some(Pair(name, value)) <==> IsSession(pieces[i], namePrefix, name, value)
      ensures all[i].Some? && all[i].value.key == name <==> HasSession(pieces[i], namePrefix, name)
    {
      SessionIff(pieces[i], namePrefix, name, value);
      HasSessionIff(pieces[i], namePrefix, name);
    }
  }

  /** Main result: a session is sent with a value if and only if the last piece of the cookie
      header that names it gives it that value. */
  lemma SessionsExactly(cookie: Bytes, namePrefix: Bytes, name: Bytes, value: Bytes)
    ensures var m := Sessions(cookie, namePrefix);
      name in m && m[name] == value <==> IsLastSession(Pieces(cookie, SEMICOLON), namePrefix, name, value)
  {
    LastValuesIff(SessionsOf(Pieces(cookie, SEMICOLON), namePrefix), name, value);
    LastSessionIff(Pieces(cookie, SEMICOLON), namePrefix, name, value);
  }

  // ---- Forwarded headers --------------------------------------------------------------------------------

  /** The first of the optional pairs that has the key has this value. */
  ghost predicate IsFirstOf(all: seq<Option<Pair>>, key: Bytes, value: Bytes) {
    exists i :: 0 <= i < |all| && all[i] == Some(Pair(key, value))
                && forall j :: 0 <= j < i && all[j].Some? ==> all[j].value.key != key
  }

  lemma FirstValueIff(all: seq<Option<Pair>>, key: Bytes, value: Bytes)
    ensures FirstValue(Present(all), key) == Some(value) <==> IsFirstOf(all, key, value)
  {
    FirstPresent(all, key);
    if IsFirstOf(all, key, value) {
      var i :| 0 <= i < |all| && all[i] == Some(Pair(key, value))
        && forall j :: 0 <= j < i && all[j].Some? ==> all[j].value.key != key;
      assert all[i].Some? && all[i].value.key == key;
    }
  }

  /** The header at `i` is forwarded under the name, with the value: it is no cookie, it can be
      read as text, and the name is its own in canonical casing. */
  predicate ForwardsAt(headers: seq<Pair>, i: int, name: Bytes, value: Bytes) {
    && 0 <= i < |headers| && headers[i].key != COOKIE && Readable(headers[i].value)
    && Canonical(true, headers[i].key) == name && headers[i].value == value
  }

  ghost predicate IsFirstForwarded(headers: seq<Pair>, name: Bytes, value: Bytes) {
    exists i :: ForwardsAt(headers, i, name, value) && forall j :: 0 <= j < i ==> !NamesAt(headers, j, name)
  }

  predicate NamesAt(headers: seq<Pair>, i: int, name: Bytes) {
    0 <= i < |headers| && ForwardsAt(headers, i, name, headers[i].value)
  }

  /** A name is forwarded with a value if and only if the first readable header that becomes
      this name carries it. */
  lemma ForwardedExactly(req: Request, name: Bytes, value: Bytes)
    ensures var m := ForwardedHeaders(req);
      name in m && m[name] == value <==> IsFirstForwarded(req.headers, name, value)
  {
    var all := AllForwarded(req.headers);
    FirstValuesUnique(Present(all), ForwardedHeaders(req));
    FirstValueIff(all, name, value);
    forall i | 0 <= i < |all|
      ensures all[i] == Some(Pair(name, value)) <==> ForwardsAt(req.headers, i, name, value)
      ensures all[i].Some? && all[i].value.key == name <==> NamesAt(req.headers, i, name)
    {
    }
  }

  // ---- The question -----------------------------------------------------------------------------------------

  /** The value of a header, or what stands in for it. */
  ghost predicate IsHeaderOr(req: Request, name: Bytes, other: Bytes, value: Bytes) {
    Carries(req, name, value) || (value == other && forall v :: !Carries(req, name, v))
  }

  lemma HeaderOr(req: Request, name: Bytes, other: Bytes)
    ensures var v := HeaderStr(req, name); IsHeaderOr(req, name, other, if v.Some? then v.value else other)
  {}

  ghost predicate IsClientIp(req: Request, ip: Bytes) {
    ip != [] && exists chain, first :: Carries(req, X_FORWARDED_FOR, chain) && IsFirstPart(first, chain, COMMA)
                                       && IsTrimOf(ip, first)
  }

  ghost predicate AsksIp(req: Request, ip: Option<Bytes>) {
    forall a :: ip == Some(a) <==> IsClientIp(req, a)
  }

  lemma AskedIp(req: Request)
    ensures AsksIp(req, RequestIp(req))
  {
    forall a ensures RequestIp(req) == Some(a) <==> IsClientIp(req, a) { RequestIpIff(req, a); }
  }

  /** The sessions in the question are those of the cookie header. */
  ghost predicate AsksSessions(req: Request, namePrefix: Bytes, sessions: map<Bytes, Bytes>) {
    exists cookie :: IsHeaderOr(req, COOKIE, [], cookie) && forall name, value ::
      name in sessions && sessions[name] == value <==>
      IsLastSession(Pieces(cookie, SEMICOLON), namePrefix, name, value)
  }

  ghost predicate AsksHeaders(req: Request, headers: map<Bytes, Bytes>) {
    forall name, value :: name in headers && headers[name] == value <==> IsFirstForwarded(req.headers, name, value)
  }

  /** Main result: what pangolin is asked about a request, field by field; url, path and query
      are `Shim.QuestionIsAboutRequest`. */
  lemma QuestionSays(lib: Lib, cfg: ShimConfig, req: Request)
    ensures var b := BodyOf(lib, cfg, req);
      && IsHeaderOr(req, X_FORWARDED_PROTO, HTTPS, b.scheme) && IsHeaderOr(req, HOST, [], b.host)
      && b.verb == req.verb && (b.tls <==> b.scheme == HTTPS) && AsksIp(req, b.ip)
      && AsksSessions(req, cfg.sessionCookie, b.sessions) && AsksHeaders(req, b.headers)
  {
    var b := BodyOf(lib, cfg, req);
    HeaderOr(req, X_FORWARDED_PROTO, HTTPS);
    HeaderOr(req, HOST, []);
    HeaderOr(req, COOKIE, []);
    AskedIp(req);
    forall name, value
      ensures name in b.sessions && b.sessions[name] == value <==>
              IsLastSession(Pieces(CookieOf(req), SEMICOLON), cfg.sessionCookie, name, value)
    {
      SessionsExactly(CookieOf(req), cfg.sessionCookie, name, value);
    }
    forall name, value
      ensures name in b.headers && b.headers[name] == value <==> IsFirstForwarded(req.headers, name, value)
    {
      ForwardedExactly(req, name, value);
    }
  }

  /** Main result: the exchange is asked exactly about requests with a session token, for that
      token, the host without its port, and the client's address. */
  lemma ExchangeSays(lib: Lib, cfg: ShimConfig, pangolin: Pangolin, req: Request)
    ensures var token := FirstValue(PairsOf(lib, cfg, req), cfg.sessionParam);
      var e := AskedExchange(lib, cfg, pangolin, req);
      if token.None? then e.None?
      else exists q :: e == Some(pangolin.exchange(q)) && q.token == token.value
                       && IsFirstPart(q.host, HostOf(req), COLON) && AsksIp(req, q.ip)
  {
    if TokenOf(lib, cfg, req).Some? {
      var q := ExchangeBody(TokenOf(lib, cfg, req).value, BareHost(HostOf(req)), RequestIp(req));
      BeforeIff(HostOf(req), COLON, q.host);
      AskedIp(req);
      assert AskedExchange(lib, cfg, pangolin, req) == Some(pangolin.exchange(q));
    }
  }

  // ---- The answers --------------------------------------------------------------------------------------------

  predicate GaveSession(e: Option<ExchangeAnswer>) {
    e.Some? && e.value.Exchanged? && e.value.valid && e.value.cookie.Some? && e.value.cookie.value != []
  }

  /** The request is left to verify: the exchange was not asked, or turned the token down. */
  predicate LeftToVerify(e: Option<ExchangeAnswer>) {
    !GaveSession(e) && !(e.Some? && e.value.ExchangeFailed?)
  }

  predicate SendsElsewhere(v: VerifyAnswer) {
    v.Verified? && v.redirect.Some? && v.redirect.value != []
  }

  predicate AsksCredentials(v: VerifyAnswer) {
    v.Verified? && !SendsElsewhere(v) && v.challenged == Some(true)
  }

  /** A cookie that cannot be set, a failed call, or a redirect that cannot be sent. */
  predicate IsStuck(lib: Lib, e: Option<ExchangeAnswer>, v: VerifyAnswer) {
    if LeftToVerify(e) then v.VerifyFailed? || (SendsElsewhere(v) && !HeaderValid(lib, v.redirect.value))
    else GaveSession(e) ==> !HeaderValid(lib, e.value.cookie.value)
  }

  predicate IsRefused(v: VerifyAnswer) {
    v.Verified? && !SendsElsewhere(v) && !AsksCredentials(v) && !v.valid
  }

  lemma OutcomeIs(lib: Lib, named: bool, e: Option<ExchangeAnswer>, to: Location, v: VerifyAnswer, url: Bytes)
    ensures var r := Outcome(lib, named, e, to, v);
      && (r == MissingHost <==> !named)
      && (r == Unavailable <==> named && IsStuck(lib, e, v))
      && (r == Portal(url) <==>
          named && LeftToVerify(e) && SendsElsewhere(v) && v.redirect.value == url && HeaderValid(lib, url))
      && (r == Challenge <==> named && LeftToVerify(e) && AsksCredentials(v))
      && (r == Unauthorized <==> named && LeftToVerify(e) && IsRefused(v))
  {}

  /** Main result: when each answer other than allowing and handing off is given. */
  lemma RefusalsIff(lib: Lib, cfg: ShimConfig, pangolin: Pangolin, req: Request, url: Bytes)
    ensures var r, e := Answer(lib, cfg, pangolin, req), AskedExchange(lib, cfg, pangolin, req);
      var v, named := pangolin.verify(BodyOf(lib, cfg, req)), HostOf(req) != [];
      && (r == MissingHost <==> !named)
      && (r == Unavailable <==> named && IsStuck(lib, e, v))
      && (r == Portal(url) <==>
          named && LeftToVerify(e) && SendsElsewhere(v) && v.redirect.value == url && HeaderValid(lib, url))
      && (r == Challenge <==> named && LeftToVerify(e) && AsksCredentials(v))
      && (r == Unauthorized <==> named && LeftToVerify(e) && IsRefused(v))
  {
    OutcomeIs(lib, HostOf(req) != [], AskedExchange(lib, cfg, pangolin, req), HandoffTo(lib, cfg, req),
              pangolin.verify(BodyOf(lib, cfg, req)), url);
  }

  /** The status of each answer, by what led to it. */
  lemma CodesOf(lib: Lib, named: bool, e: Option<ExchangeAnswer>, to: Location, v: VerifyAnswer)
    ensures var status := Status(Outcome(lib, named, e, to, v));
      && (status == Some(400) <==> !named)
      && (status == Some(503) <==> named && IsStuck(lib, e, v))
      && (status == Some(401) <==> named && LeftToVerify(e) && (AsksCredentials(v) || IsRefused(v)))
      && (status == Some(302) <==> named && (IsSentAway(lib, e, v) || IsHandedOff(lib, e, to)))
  {}

  predicate IsSentAway(lib: Lib, e: Option<ExchangeAnswer>, v: VerifyAnswer) {
    LeftToVerify(e) && SendsElsewhere(v) && HeaderValid(lib, v.redirect.value)
  }

  predicate IsHandedOff(lib: Lib, e: Option<ExchangeAnswer>, to: Location) {
    GaveSession(e) && HeaderValid(lib, e.value.cookie.value) && HeaderValid(lib, UrlOf(to))
  }

  /** Main result: which requests get which error or redirect. */
  lemma RefusalCodes(lib: Lib, cfg: ShimConfig, pangolin: Pangolin, req: Request)
    ensures var status, e := Status(Answer(lib, cfg, pangolin, req)), AskedExchange(lib, cfg, pangolin, req);
      var v, named := pangolin.verify(BodyOf(lib, cfg, req)), HostOf(req) != [];
      && (status == Some(400) <==> !named)
      && (status == Some(503) <==> named && IsStuck(lib, e, v))
      && (status == Some(401) <==> named && LeftToVerify(e) && (AsksCredentials(v) || IsRefused(v)))
      && (status == Some(302) <==> named && (IsSentAway(lib, e, v) || IsHandedOff(lib, e, HandoffTo(lib, cfg, req))))
  {
    CodesOf(lib, HostOf(req) != [], AskedExchange(lib, cfg, pangolin, req), HandoffTo(lib, cfg, req),
            pangolin.verify(BodyOf(lib, cfg, req)));
  }

  /** A hand-off sends the client to the same scheme, host and path, with the cookie the
      exchange gave. */
  lemma HandoffSays(lib: Lib, cfg: ShimConfig, pangolin: Pangolin, req: Request)
    ensures var r, e := Answer(lib, cfg, pangolin, req), AskedExchange(lib, cfg, pangolin, req);
      r.Handoff? ==>
        && GaveSession(e) && r.cookie == e.value.cookie.value
        && IsHeaderOr(req, X_FORWARDED_PROTO, HTTPS, r.to.scheme) && IsHeaderOr(req, HOST, [], r.to.host)
        && PathOf(r.to.path) == PathOf(OriginalPath(cfg.prefix, req.full))
  {
    HeaderOr(req, X_FORWARDED_PROTO, HTTPS);
    HeaderOr(req, HOST, []);
    StrippedPath(lib.fix, OriginalPath(cfg.prefix, req.full), cfg.sessionParam);
    HandoffGoesTo(lib, HostOf(req) != [], AskedExchange(lib, cfg, pangolin, req), HandoffTo(lib, cfg, req),
                  pangolin.verify(BodyOf(lib, cfg, req)));
  }

  lemma HandoffGoesTo(lib: Lib, named: bool, e: Option<ExchangeAnswer>, to: Location, v: VerifyAnswer)
    ensures var r := Outcome(lib, named, e, to, v);
      r.Handoff? ==> GaveSession(e) && r.cookie == e.value.cookie.value && r.to == to
  {}

  lemma StrippedPath(fix: Repair, pq: Bytes, param: Bytes)
    ensures PathOf(Stripped(fix, pq, param)) == PathOf(pq)
  {
    var kept := Without(ParseForm(fix, QueryOf(pq)), param);
    assert QUESTION !in PathOf(pq);
    if Find(pq, QUESTION) < |pq| && kept != [] {
      SplitAt(PathOf(pq), QUESTION, Serialize(kept));
    } else {
      NoSplit(PathOf(pq), QUESTION);
    }
  }

  // ---- The user's headers --------------------------------------------------------------------------------------

  /** Optional pairs, each of its own name. */
  predicate AreNamed(all: seq<Option<Pair>>, names: seq<Bytes>) {
    && |all| == |names|
    && (forall i :: 0 <= i < |all| && all[i].Some? ==> all[i].value.key == names[i])
    && forall i, j :: 0 <= i < j < |names| ==> names[i] != names[j]
  }

  lemma NamedTail(all: seq<Option<Pair>>, names: seq<Bytes>)
    requires AreNamed(all, names) && all != []
    ensures AreNamed(all[1..], names[1..]) && names[0] !in names[1..]
    ensures forall k :: k in names <==> k == names[0] || k in names[1..]
    ensures Present(all) == (if all[0].Some? then [all[0].value] else []) + Present(all[1..])
  {
    assert forall i :: 0 <= i < |names| - 1 ==> names[1..][i] == names[i + 1] && all[1..][i] == all[i + 1];
  }

  lemma {:induction false} NamedKeys(all: seq<Option<Pair>>, names: seq<Bytes>)
    requires AreNamed(all, names)
    ensures forall x :: 0 <= x < |Present(all)| ==> Present(all)[x].key in names
    ensures forall x, y :: 0 <= x < y < |Present(all)| ==> Present(all)[x].key != Present(all)[y].key
  {
    if all != [] {
      NamedTail(all, names);
      NamedKeys(all[1..], names[1..]);
    }
  }

  lemma {:induction false} NamedValue(all: seq<Option<Pair>>, names: seq<Bytes>, i: nat)
    requires AreNamed(all, names) && i < |all|
    ensures FirstValue(Present(all), names[i]) == if all[i].Some? then Some(all[i].value.value) else None
  {
    NamedTail(all, names);
    var rest := Present(all[1..]);
    if all[0].Some? {
      assert Present(all)[0] == all[0].value && Present(all)[1..] == rest;
    } else {
      assert Present(all) == rest;
    }
    if i > 0 {
      assert names[1..][i - 1] == names[i] && all[1..][i - 1] == all[i] && names[0] != names[i];
      NamedValue(all[1..], names[1..], i - 1);
    } else {
      NamedKeys(all[1..], names[1..]);
      assert FirstValue(rest, names[0]).None?;
    }
  }

  /** A field of the user that is there and can stand in a header. */
  function Shown(lib: Lib, field: Option<Bytes>): Option<Bytes> {
    if field.Some? && HeaderValid(lib, field.value) then field else None
  }

  lemma UserNamesDiffer()
    ensures var names := [REMOTE_USER_ID, REMOTE_USER, REMOTE_EMAIL, REMOTE_NAME, REMOTE_ROLE];
      forall i, j :: 0 <= i < j < |names| ==> names[i] != names[j]
  {
    assert REMOTE_USER[7] == 117 && REMOTE_NAME[7] == 110 && REMOTE_ROLE[7] == 114;
  }

  /** The headers are the user's own id, name, address, full name and role, each under its own
      name if it is there and can stand in a header; there is no other header, and none twice. */
  ghost predicate Tells(lib: Lib, user: Option<User>, told: seq<Pair>) {
    if user.None? then told == []
    else
      && FirstValue(told, REMOTE_USER_ID) == Shown(lib, user.value.id)
      && FirstValue(told, REMOTE_USER) == Shown(lib, user.value.username)
      && FirstValue(told, REMOTE_EMAIL) == Shown(lib, user.value.email)
      && FirstValue(told, REMOTE_NAME) == Shown(lib, user.value.name)
      && FirstValue(told, REMOTE_ROLE) == Shown(lib, user.value.role)
      && (forall i :: 0 <= i < |told| ==>
            told[i].key in [REMOTE_USER_ID, REMOTE_USER, REMOTE_EMAIL, REMOTE_NAME, REMOTE_ROLE])
      && (forall i, j :: 0 <= i < j < |told| ==> told[i].key != told[j].key)
  }

  lemma UserHeaders(lib: Lib, user: Option<User>)
    ensures Tells(lib, user, RemoteHeaders(lib, user))
  {
    if user.Some? {
      var u := user.value;
      var names := [REMOTE_USER_ID, REMOTE_USER, REMOTE_EMAIL, REMOTE_NAME, REMOTE_ROLE];
      var all := [RemoteHeader(lib, REMOTE_USER_ID, u.id), RemoteHeader(lib, REMOTE_USER, u.username),
                  RemoteHeader(lib, REMOTE_EMAIL, u.email), RemoteHeader(lib, REMOTE_NAME, u.name),
                  RemoteHeader(lib, REMOTE_ROLE, u.role)];
      UserNamesDiffer();
      NamedKeys(all, names);
      NamedValue(all, names, 0);
      NamedValue(all, names, 1);
      NamedValue(all, names, 2);
      NamedValue(all, names, 3);
      NamedValue(all, names, 4);
    }
  }

  /** The user verify named, if it answered. */
  function UserOf(v: VerifyAnswer): Option<User> {
    if v.Verified? then v.user else None
  }

  lemma AllowedUser(lib: Lib, named: bool, e: Option<ExchangeAnswer>, to: Location, v: VerifyAnswer)
    ensures var r := Outcome(lib, named, e, to, v); r.Allow? ==> r.remote == RemoteHeaders(lib, UserOf(v))
  {}

  /** Main result: an allowed request goes on with exactly the headers of the user verify named. */
  lemma UserIsTold(lib: Lib, cfg: ShimConfig, pangolin: Pangolin, req: Request)
    ensures var r := Answer(lib, cfg, pangolin, req);
      r.Allow? ==> Tells(lib, UserOf(pangolin.verify(BodyOf(lib, cfg, req))), r.remote)
  {
    var v := pangolin.verify(BodyOf(lib, cfg, req));
    AllowedUser(lib, HostOf(req) != [], AskedExchange(lib, cfg, pangolin, req), HandoffTo(lib, cfg, req), v);
    UserHeaders(lib, UserOf(v));
  }

  // ---- The path prefix ------------------------------------------------------------------------------------------

  predicate AreSlashes(s: Bytes) {
    forall i :: 0 <= i < |s| ==> s[i] == SLASH
  }

  /** What is left behind the prefix, as a path: a slash comes first, added if need be. */
  predicate IsRestOf(rest: Bytes, behind: Bytes) {
    if behind == [] then rest == [SLASH]
    else if behind[0] == QUESTION then rest == [SLASH] + behind
    else behind[0] == SLASH && rest == behind
  }

  /** The prefix, less its trailing slashes, is taken off exactly where it ends a segment. */
  lemma PrefixComesOffIff(bare: Bytes, slashes: Bytes, pq: Bytes, rest: Bytes)
    requires AreSlashes(slashes) && (bare != [] ==> bare[|bare| - 1] != SLASH)
    requires bare + slashes != [] && bare + slashes != [SLASH]
    ensures StripPathPrefix(bare + slashes, pq) == Some(rest) <==>
            exists behind :: pq == bare + behind && IsRestOf(rest, behind)
  {
    TrimmedOnce(bare, slashes);
    if bare <= pq { assert pq == bare + pq[|bare|..]; }
    forall behind | pq == bare + behind ensures behind == pq[|bare|..] && bare <= pq {}
  }

  lemma TrimmedOnce(bare: Bytes, slashes: Bytes)
    requires AreSlashes(slashes) && (bare != [] ==> bare[|bare| - 1] != SLASH)
    ensures TrimSlashes(bare + slashes) == bare
  {
    var prefix := bare + slashes;
    var p := TrimSlashes(prefix);
    assert bare != [] ==> prefix[|bare| - 1] != SLASH;
    assert p != [] ==> prefix[|p| - 1] != SLASH;
    assert forall i :: |bare| <= i < |prefix| ==> prefix[i] == SLASH;
    assert p == prefix[..|p|] && bare == prefix[..|bare|];
  }

  /** Without a prefix to speak of, the path is taken as it is. */
  lemma NoPrefixComesOff(prefix: Bytes, pq: Bytes)
    requires prefix == [] || prefix == [SLASH]
    ensures OriginalPath(prefix, pq) == pq
  {}

  /** Where the prefix does not come off the whole path is taken as the original one. */
  lemma OriginalPathIs(bare: Bytes, slashes: Bytes, pq: Bytes)
    requires AreSlashes(slashes) && (bare != [] ==> bare[|bare| - 1] != SLASH)
    requires bare + slashes != [] && bare + slashes != [SLASH]
    ensures var path := OriginalPath(bare + slashes, pq);
      || (exists behind :: pq == bare + behind && IsRestOf(path, behind))
      || (path == pq && forall behind, rest :: pq == bare + behind ==> !IsRestOf(rest, behind))
  {
    var p := StripPathPrefix(bare + slashes, pq);
    if p.Some? { PrefixComesOffIff(bare, slashes, pq, p.value); }
    forall behind, rest | p.None? && pq == bare + behind ensures !IsRestOf(rest, behind) {
      PrefixComesOffIff(bare, slashes, pq, rest);
    }
  }

  /** The status of the service as routed: on the health path 200 for probes and 405 for other
      methods, elsewhere that of the check. */
  lemma RoutedCodes(lib: Lib, cfg: ShimConfig, pangolin: Pangolin, req: Request)
    ensures Status(Serve(lib, cfg, pangolin, req)) ==
            if PathOf(req.full) != HEALTHZ then Status(Answer(lib, cfg, pangolin, req))
            else if req.verb == GET || req.verb == HEAD then Some(200) else Some(405)
  {
    RoutedStatus(OnHealthPath(req.full), IsProbeVerb(req.verb), Answer(lib, cfg, pangolin, req));
  }

  lemma RoutedStatus(onHealth: bool, probe: bool, answer: Response)
    ensures Status(Routed(onHealth, probe, answer)) ==
            if !onHealth then Status(answer) else if probe then Some(200) else Some(405)
  {}
}
