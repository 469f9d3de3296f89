/** The auth shim: Envoy asks it about every request to a guarded route. It exchanges
    one-time session tokens, asks pangolin, and answers with allow, deny or redirect. */
module Shim {
  import opened Prelude
  import opened FormUrl
  import opened Requests

  const SLASH: Byte := 47
  const COLON: Byte := 58

  // ---- The path prefix --------------------------------------------------------------------

  function TrimSlashes(s: Bytes): (r: Bytes)
    ensures r <= s && (r != [] ==> r[|r| - 1] != SLASH)
    ensures forall i :: |r| <= i < |s| ==> s[i] == SLASH
  {
    if s != [] && s[|s| - 1] == SLASH then TrimSlashes(s[..|s| - 1]) else s
  }

  /** The path below the prefix, if the prefix ends on a segment boundary. */
  function StripPathPrefix(prefix: Bytes, pq: Bytes): Option<Bytes> {
    if prefix == [] || prefix == [SLASH] then Some(pq)
    else
      var p := TrimSlashes(prefix);
      if !(p <= pq) then None
      else
        var rest := pq[|p|..];
        if rest == [] then Some([SLASH])
        else if rest[0] == SLASH then Some(rest)
        else if rest[0] == QUESTION then Some([SLASH] + rest)
        else None
  }

  /** A path without the prefix is taken as the original one. */
  function OriginalPath(prefix: Bytes, full: Bytes): Bytes {
    var p := StripPathPrefix(prefix, full);
    if p.Some? then p.value else full
  }

  predicate Rooted(pq: Bytes) {
    pq != [] && pq[0] == SLASH
  }

  /** Envoy prepends the prefix and the shim takes it off again: what comes back is the
      path behind the slashes the prefix ends with, so the identity exactly without them. */
  lemma PrefixRoundTrip(prefix: Bytes, pq: Bytes)
    requires Rooted(pq)
    ensures StripPathPrefix(prefix, prefix + pq) == Some(prefix[|TrimSlashes(prefix)|..] + pq)
    ensures StripPathPrefix(prefix, prefix + pq) == Some(pq) <==> prefix == [] || prefix[|prefix| - 1] != SLASH
  {
    var p := TrimSlashes(prefix);
    var full := prefix + pq;
    assert full[..|p|] == prefix[..|p|] == p;
    assert full[|p|..] == prefix[|p|..] + pq;
    assert |full[|p|..]| == |pq| <==> |p| == |prefix|;
    if |p| == |prefix| { assert prefix[|p|..] + pq == pq; }
  }

  lemma QueryBehind(a: Bytes, pq: Bytes)
    requires QUESTION !in a
    ensures QueryOf(a + pq) == QueryOf(pq) && PathOf(a + pq) == a + PathOf(pq)
  {
    var i := Find(pq, QUESTION);
    var s := a + pq;
    assert s[..|a| + i] == a + pq[..i];
    FindUnique(s, QUESTION, |a| + i);
    assert i < |pq| ==> s[|a| + i + 1..] == pq[i + 1..];
  }

  /** Taking a prefix without `?` off leaves the query alone, whether or not it matches. */
  lemma OriginalKeepsQuery(prefix: Bytes, full: Bytes)
    requires QUESTION !in prefix
    ensures QueryOf(OriginalPath(prefix, full)) == QueryOf(full)
    ensures Rooted(full) ==> Rooted(OriginalPath(prefix, full))
  {
    var p := TrimSlashes(prefix);
    if prefix != [] && prefix != [SLASH] && p <= full && StripPathPrefix(prefix, full).Some? {
      var rest := full[|p|..];
      assert full == p + rest;
      assert forall b :: b in p ==> b in prefix;
      QueryBehind(p, rest);
      QueryBehind([SLASH], rest);
    }
  }

  /** The two prefixes fit: the same one, as documented, or at least none with a `?`. */
  predicate PrefixesFit(envoy: Bytes, shim: Bytes) {
    envoy == shim || (QUESTION !in envoy && QUESTION !in shim)
  }

  /** What Envoy sends for a request, seen by the shim, has that request's query. */
  lemma QuerySurvives(envoy: Bytes, shim: Bytes, pq: Bytes)
    requires PrefixesFit(envoy, shim) && Rooted(pq)
    ensures QueryOf(OriginalPath(shim, envoy + pq)) == QueryOf(pq)
  {
    if envoy == shim {
      PrefixRoundTrip(shim, pq);
      var slashes := shim[|TrimSlashes(shim)|..];
      assert forall i :: 0 <= i < |slashes| ==> slashes[i] == SLASH;
      QueryBehind(slashes, pq);
    } else {
      QueryBehind(envoy, pq);
      OriginalKeepsQuery(shim, envoy + pq);
    }
  }

  // ---- One check ------------------------------------------------------------------------------

  datatype ShimConfig = ShimConfig(prefix: Bytes, sessionCookie: Bytes, sessionParam: Bytes)

  /** What the HTTP and URL libraries decide: UTF-8 repair, and which bytes a header value
      may hold. */
  datatype Lib = Lib(fix: Repair, headerByte: Byte -> bool)

  datatype ExchangeBody = ExchangeBody(token: Bytes, host: Bytes, ip: Option<Bytes>)

  datatype ExchangeAnswer = ExchangeFailed | Exchanged(valid: bool, cookie: Option<Bytes>)

  datatype User = User(id: Option<Bytes>, username: Option<Bytes>, email: Option<Bytes>,
                       name: Option<Bytes>, role: Option<Bytes>)

  datatype VerifyAnswer =
    | VerifyFailed
    | Verified(valid: bool, redirect: Option<Bytes>, challenged: Option<bool>, user: Option<User>)

  datatype VerifyBody = VerifyBody(sessions: map<Bytes, Bytes>, headers: map<Bytes, Bytes>, query: map<Bytes, Bytes>,
                                   url: Bytes, scheme: Bytes, host: Bytes, path: Bytes,
                                   verb: Bytes, tls: bool, ip: Option<Bytes>)

  /** Pangolin at the time of one check: its answers to whatever it is asked. */
  datatype Pangolin = Pangolin(exchange: ExchangeBody -> ExchangeAnswer, verify: VerifyBody -> VerifyAnswer)

  datatype Location = Location(scheme: Bytes, host: Bytes, path: Bytes)

  /** `Aborted` is no answer at all: the handler panics on a hand-off whose Location cannot be
      a header. `Healthy` and `WrongVerb` belong to the health path. */
  datatype Response =
    | Allow(remote: seq<Pair>)
    | MissingHost
    | Unavailable
    | Handoff(to: Location, cookie: Bytes)
    | Aborted
    | Portal(url: Bytes)
    | Challenge
    | Unauthorized
    | Healthy
    | WrongVerb

  function Status(r: Response): (status: Option<int>)
    ensures status.None? <==> r.Aborted?
  {
    match r
    case Allow(_) => Some(200)
    case Healthy => Some(200)
    case MissingHost => Some(400)
    case Unavailable => Some(503)
    case Handoff(_, _) => Some(302)
    case Portal(_) => Some(302)
    case Challenge => Some(401)
    case Unauthorized => Some(401)
    case WrongVerb => Some(405)
    case Aborted => None
  }

  /** `https` */
  const HTTPS: Bytes := [104, 116, 116, 112, 115]

  function HostOf(req: Request): (r: Bytes)
    ensures Readable(r)
  {
    var v := HeaderStr(req, HOST);
    if v.Some? then v.value else []
  }

  function SchemeOf(req: Request): Bytes {
    var v := HeaderStr(req, X_FORWARDED_PROTO);
    if v.Some? then v.value else HTTPS
  }

  function CookieOf(req: Request): Bytes {
    var v := HeaderStr(req, COOKIE);
    if v.Some? then v.value else []
  }

  function UrlOf(l: Location): Bytes {
    l.scheme + [COLON, SLASH, SLASH] + l.host + l.path
  }

  predicate HeaderValid(lib: Lib, s: Bytes) {
    forall i :: 0 <= i < |s| ==> lib.headerByte(s[i])
  }

  /** The host without a port, as the exchange is told it. */
  function BareHost(host: Bytes): Bytes {
    Before(host, COLON)
  }

  function PairsOf(lib: Lib, cfg: ShimConfig, req: Request): seq<Pair> {
    ParseForm(lib.fix, QueryOf(OriginalPath(cfg.prefix, req.full)))
  }

  function TokenOf(lib: Lib, cfg: ShimConfig, req: Request): Option<Bytes> {
    FirstValue(PairsOf(lib, cfg, req), cfg.sessionParam)
  }

  function BodyOf(lib: Lib, cfg: ShimConfig, req: Request): VerifyBody {
    var original := OriginalPath(cfg.prefix, req.full);
    VerifyBody(Sessions(CookieOf(req), cfg.sessionCookie), ForwardedHeaders(req), FirstValues(PairsOf(lib, cfg, req)),
               UrlOf(Location(SchemeOf(req), HostOf(req), original)),
               SchemeOf(req), HostOf(req), PathOf(original), req.verb, SchemeOf(req) == HTTPS, RequestIp(req))
  }

  /** Did the exchange yield a session? */
  predicate Accepted(e: ExchangeAnswer) {
    e.Exchanged? && e.valid && e.cookie.Some? && e.cookie.value != []
  }

  function RemoteHeader(lib: Lib, name: Bytes, value: Option<Bytes>): Option<Pair> {
    if value.Some? && HeaderValid(lib, value.value) then Some(Pair(name, value.value)) else None
  }

  /** `remote-user-id` */
  const REMOTE_USER_ID: Bytes := [114, 101, 109, 111, 116, 101, 45, 117, 115, 101, 114, 45, 105, 100]

  /** `remote-user` */
  const REMOTE_USER: Bytes := [114, 101, 109, 111, 116, 101, 45, 117, 115, 101, 114]

  /** `remote-email` */
  const REMOTE_EMAIL: Bytes := [114, 101, 109, 111, 116, 101, 45, 101, 109, 97, 105, 108]

  /** `remote-name` */
  const REMOTE_NAME: Bytes := [114, 101, 109, 111, 116, 101, 45, 110, 97, 109, 101]

  /** `remote-role` */
  const REMOTE_ROLE: Bytes := [114, 101, 109, 111, 116, 101, 45, 114, 111, 108, 101]

  /** The user's headers for the upstream: those known and fit for a header. */
  function RemoteHeaders(lib: Lib, user: Option<User>): seq<Pair> {
    if user.None? then []
    else
      var u := user.value;
      Present([RemoteHeader(lib, REMOTE_USER_ID, u.id), RemoteHeader(lib, REMOTE_USER, u.username),
               RemoteHeader(lib, REMOTE_EMAIL, u.email), RemoteHeader(lib, REMOTE_NAME, u.name),
               RemoteHeader(lib, REMOTE_ROLE, u.role)])
  }

  /** The answer to a verified request. */
  function VerifyOutcome(lib: Lib, v: VerifyAnswer): (r: Response)
    ensures !r.Handoff? && !r.Aborted? && !r.Healthy? && !r.WrongVerb?
  {
    match v
    case VerifyFailed => Unavailable
    case Verified(valid, redirect, challenged, user) =>
      if redirect.Some? && redirect.value != [] then
        if HeaderValid(lib, redirect.value) then Portal(redirect.value) else Unavailable
      else if challenged == Some(true) then Challenge
      else if valid then Allow(RemoteHeaders(lib, user))
      else Unauthorized
  }

  function ExchangeOf(lib: Lib, cfg: ShimConfig, pangolin: Pangolin, req: Request): ExchangeAnswer
    requires TokenOf(lib, cfg, req).Some?
  {
    pangolin.exchange(ExchangeBody(TokenOf(lib, cfg, req).value, BareHost(HostOf(req)), RequestIp(req)))
  }

  /** Where a client with a new session is sent: the same place without the session token. */
  function HandoffTo(lib: Lib, cfg: ShimConfig, req: Request): Location {
    Location(SchemeOf(req), HostOf(req), Stripped(lib.fix, OriginalPath(cfg.prefix, req.full), cfg.sessionParam))
  }

  /** The answer to a new session. */
  function SessionOutcome(lib: Lib, to: Location, cookie: Bytes): Response {
    if !HeaderValid(lib, cookie) then Unavailable
    else if !HeaderValid(lib, UrlOf(to)) then Aborted
    else Handoff(to, cookie)
  }

  /** The answer, given what the exchange said if it was asked, and what verify says. */
  function Outcome(lib: Lib, named: bool, e: Option<ExchangeAnswer>, to: Location, v: VerifyAnswer): Response {
    if !named then MissingHost
    else if e.None? then VerifyOutcome(lib, v)
    else if Accepted(e.value) then SessionOutcome(lib, to, e.value.cookie.value)
    else if e.value.ExchangeFailed? then Unavailable
    else VerifyOutcome(lib, v)
  }

  /** The exchange is asked if the request carries a session token. */
  function AskedExchange(lib: Lib, cfg: ShimConfig, pangolin: Pangolin, req: Request): Option<ExchangeAnswer> {
    if TokenOf(lib, cfg, req).None? then None else Some(ExchangeOf(lib, cfg, pangolin, req))
  }

  /** The answer to one request. */
  function Answer(lib: Lib, cfg: ShimConfig, pangolin: Pangolin, req: Request): Response {
    Outcome(lib, HostOf(req) != [], AskedExchange(lib, cfg, pangolin, req), HandoffTo(lib, cfg, req),
            pangolin.verify(BodyOf(lib, cfg, req)))
  }

  /** The program's handler, with its early returns. */
  method Check(lib: Lib, cfg: ShimConfig, pangolin: Pangolin, req: Request) returns (r: Response)
    ensures r == Answer(lib, cfg, pangolin, req)
  {
    var original := OriginalPath(cfg.prefix, req.full);
    var host, scheme, ip := HostOf(req), SchemeOf(req), RequestIp(req);
    if host == [] {
      return MissingHost;
    }
    var query := ParseQuery(lib.fix, QueryOf(original));
    var sessions := CollectSessions(CookieOf(req), cfg.sessionCookie);
    var headers := CollectHeaders(req);
    LookupIsFirst(PairsOf(lib, cfg, req), cfg.sessionParam);
    if cfg.sessionParam in query {
      var e := pangolin.exchange(ExchangeBody(query[cfg.sessionParam], BareHost(host), ip));
      if Accepted(e) {
        var path := StripQueryParam(lib.fix, original, cfg.sessionParam);
        r := SessionOutcome(lib, Location(scheme, host, path), e.cookie.value);
        return;
      }
      if e.ExchangeFailed? {
        return Unavailable;
      }
    }
    var body := VerifyBody(sessions, headers, query, UrlOf(Location(scheme, host, original)),
                           scheme, host, PathOf(original), req.verb, scheme == HTTPS, ip);
    r := VerifyOutcome(lib, pangolin.verify(body));
  }

  lemma LookupIsFirst(ps: seq<Pair>, k: Bytes)
    ensures FirstValue(ps, k) == if k in FirstValues(ps) then Some(FirstValues(ps)[k]) else None
  {
    FirstValuesAreFirst(ps);
  }

  /** Does pangolin vouch for the request: valid, nowhere to send it, nothing to challenge? */
  predicate Vouches(v: VerifyAnswer) {
    v.Verified? && v.valid && (v.redirect.None? || v.redirect.value == []) && v.challenged != Some(true)
  }

  /** Was there no session to exchange, or one that was turned down? */
  predicate NoNewSession(e: Option<ExchangeAnswer>) {
    e.Some? ==> !e.value.ExchangeFailed? && !Accepted(e.value)
  }

  lemma VouchedIff(lib: Lib, named: bool, e: Option<ExchangeAnswer>, to: Location, v: VerifyAnswer)
    ensures Status(Outcome(lib, named, e, to, v)) == Some(200) <==> named && NoNewSession(e) && Vouches(v)
    ensures named && NoNewSession(e) && Vouches(v) ==>
      Outcome(lib, named, e, to, v) == Allow(RemoteHeaders(lib, v.user))
  {}

  predicate MayPass(lib: Lib, cfg: ShimConfig, pangolin: Pangolin, req: Request) {
    && HostOf(req) != []
    && NoNewSession(AskedExchange(lib, cfg, pangolin, req))
    && Vouches(pangolin.verify(BodyOf(lib, cfg, req)))
  }

  /** Main result: the check allows a request exactly when it names a host, its session token,
      if it has one, was answered and turned down, and pangolin vouches for the question
      about this very request; the user's headers are pangolin's. */
  lemma AllowedIff(lib: Lib, cfg: ShimConfig, pangolin: Pangolin, req: Request)
    ensures Status(Answer(lib, cfg, pangolin, req)) == Some(200) <==> MayPass(lib, cfg, pangolin, req)
    ensures MayPass(lib, cfg, pangolin, req) ==>
      Answer(lib, cfg, pangolin, req) == Allow(RemoteHeaders(lib, pangolin.verify(BodyOf(lib, cfg, req)).user))
  {
    VouchedIff(lib, HostOf(req) != [], AskedExchange(lib, cfg, pangolin, req), HandoffTo(lib, cfg, req),
               pangolin.verify(BodyOf(lib, cfg, req)));
  }

  /** The question is about the request: its path and query recombine to the URL, and every
      parameter is asked with its first value. */
  lemma QuestionIsAboutRequest(lib: Lib, cfg: ShimConfig, req: Request)
    ensures var b := BodyOf(lib, cfg, req);
      && IsFirstValues(PairsOf(lib, cfg, req), b.query)
      && QUESTION !in b.path
      && (b.url == b.scheme + [COLON, SLASH, SLASH] + b.host + b.path ||
          b.url == b.scheme + [COLON, SLASH, SLASH] + b.host + b.path + [QUESTION]
          + QueryOf(OriginalPath(cfg.prefix, req.full)))
  {
    FirstValuesUnique(PairsOf(lib, cfg, req), FirstValues(PairsOf(lib, cfg, req)));
    PartsRecombine(SchemeOf(req) + [COLON, SLASH, SLASH] + HostOf(req), OriginalPath(cfg.prefix, req.full));
  }

  lemma PartsRecombine(front: Bytes, pq: Bytes)
    ensures QUESTION !in PathOf(pq)
    ensures front + pq == front + PathOf(pq) || front + pq == front + PathOf(pq) + [QUESTION] + QueryOf(pq)
  {
    var i := Find(pq, QUESTION);
    if i == |pq| {
      assert pq[..i] == pq;
    } else {
      assert pq == pq[..i] + [QUESTION] + pq[i + 1..];
      assert front + pq == front + pq[..i] + [QUESTION] + pq[i + 1..];
    }
  }

  // ---- The whole service -----------------------------------------------------------------------------

  /** `/healthz` */
  const HEALTHZ: Bytes := [47, 104, 101, 97, 108, 116, 104, 122]
  /** `GET` */
  const GET: Bytes := [71, 69, 84]
  /** `HEAD` */
  const HEAD: Bytes := [72, 69, 65, 68]

  predicate OnHealthPath(full: Bytes) {
    PathOf(full) == HEALTHZ
  }

  /** A `get` route takes HEAD as well. */
  predicate IsProbeVerb(verb: Bytes) {
    verb == GET || verb == HEAD
  }

  /** The health path is routed before everything else. */
  function Routed(onHealth: bool, probe: bool, answer: Response): Response {
    if onHealth then if probe then Healthy else WrongVerb else answer
  }

  function Serve(lib: Lib, cfg: ShimConfig, pangolin: Pangolin, req: Request): Response {
    Routed(OnHealthPath(req.full), IsProbeVerb(req.verb), Answer(lib, cfg, pangolin, req))
  }

  lemma RoutedIff(onHealth: bool, probe: bool, answer: Response)
    ensures Status(Routed(onHealth, probe, answer)) == Some(200) <==>
            if onHealth then probe else Status(answer) == Some(200)
    ensures Routed(onHealth, probe, answer).Handoff? || Routed(onHealth, probe, answer).Aborted? ==>
      Routed(onHealth, probe, answer) == answer
    ensures !onHealth ==> Routed(onHealth, probe, answer) == answer
  {}

  /** Main result, for the service as routed: 200 goes to probes of the health path and to
      requests that may pass, and to nothing else. */
  lemma ServedOkIff(lib: Lib, cfg: ShimConfig, pangolin: Pangolin, req: Request)
    ensures Status(Serve(lib, cfg, pangolin, req)) == Some(200) <==>
      if OnHealthPath(req.full) then IsProbeVerb(req.verb) else MayPass(lib, cfg, pangolin, req)
  {
    AllowedIff(lib, cfg, pangolin, req);
    RoutedIff(OnHealthPath(req.full), IsProbeVerb(req.verb), Answer(lib, cfg, pangolin, req));
  }

  lemma HealthPathShape()
    ensures |HEALTHZ| > 1 && HEALTHZ[0] == SLASH && forall i :: 1 <= i < |HEALTHZ| ==> HEALTHZ[i] != SLASH
  {
  }

  /** Behind Envoy a request for `pq` lands on the health path only if Envoy prepends nothing
      and the client asked for that path itself; with any prefix every request is checked. */
  lemma ProbeIff(envoy: Bytes, pq: Bytes)
    requires QUESTION !in envoy && Rooted(pq)
    ensures OnHealthPath(envoy + pq) <==> envoy == [] && OnHealthPath(pq)
  {
    QueryBehind(envoy, pq);
    HealthPathShape();
    assert PathOf(pq)[0] == SLASH by {
      assert Find(pq, QUESTION) > 0;
    }
    if envoy == [] {
      assert envoy + pq == pq;
    } else {
      assert (envoy + PathOf(pq))[|envoy|] == SLASH;
    }
  }

  // ---- The hand-off does not loop ------------------------------------------------------------------

  /** One request of a client, with pangolin as it was then. */
  datatype Hop = Hop(req: Request, pangolin: Pangolin)

  function AnswerAt(lib: Lib, cfg: ShimConfig, h: Hop): Response {
    Serve(lib, cfg, h.pangolin, h.req)
  }

  /** A client that follows hand-offs through Envoy; other answers leave it free. */
  predicate Follows(lib: Lib, cfg: ShimConfig, envoy: Bytes, hops: seq<Hop>) {
    && (forall i :: 0 <= i < |hops| ==> Rooted(hops[i].req.full))
    && forall i :: 0 <= i < |hops| - 1 && AnswerAt(lib, cfg, hops[i]).Handoff? ==>
         hops[i + 1].req.full == envoy + AnswerAt(lib, cfg, hops[i]).to.path
  }

  lemma LocationIsRooted(lib: Lib, cfg: ShimConfig, full: Bytes)
    requires Rooted(full)
    ensures Rooted(OriginalPath(cfg.prefix, full))
    ensures Rooted(Stripped(lib.fix, OriginalPath(cfg.prefix, full), cfg.sessionParam))
  {
    var original := OriginalPath(cfg.prefix, full);
    assert original[0] != QUESTION;
    assert Find(original, QUESTION) > 0;
    assert PathOf(original)[0] == original[0];
  }

  /** Following a hand-off, the shim sees the query it had without the session token. */
  lemma FollowUpQuery(lib: Lib, cfg: ShimConfig, envoy: Bytes, req: Request, next: Request)
    requires Idempotent(lib.fix) && PrefixesFit(envoy, cfg.prefix) && Rooted(req.full)
    requires next.full == envoy + HandoffTo(lib, cfg, req).path
    ensures PairsOf(lib, cfg, next) == Without(PairsOf(lib, cfg, req), cfg.sessionParam)
    ensures TokenOf(lib, cfg, next).None?
  {
    var original := OriginalPath(cfg.prefix, req.full);
    LocationIsRooted(lib, cfg, req.full);
    QuerySurvives(envoy, cfg.prefix, Stripped(lib.fix, original, cfg.sessionParam));
    StrippedIsExact(lib.fix, original, cfg.sessionParam);
  }

  lemma HandoffShape(lib: Lib, cfg: ShimConfig, pangolin: Pangolin, req: Request)
    requires Serve(lib, cfg, pangolin, req).Handoff?
    ensures TokenOf(lib, cfg, req).Some? && Serve(lib, cfg, pangolin, req).to == HandoffTo(lib, cfg, req)
  {
    var named, e := HostOf(req) != [], AskedExchange(lib, cfg, pangolin, req);
    var v := pangolin.verify(BodyOf(lib, cfg, req));
    SessionsAreHandedOff(lib, named, e, HandoffTo(lib, cfg, req), v);
    RoutedIff(OnHealthPath(req.full), IsProbeVerb(req.verb), Outcome(lib, named, e, HandoffTo(lib, cfg, req), v));
  }

  /** Only a new session leads to a hand-off, or to none where there should be one. */
  lemma SessionsAreHandedOff(lib: Lib, named: bool, e: Option<ExchangeAnswer>, to: Location, v: VerifyAnswer)
    ensures var r := Outcome(lib, named, e, to, v);
      var gets := named && e.Some? && Accepted(e.value) && HeaderValid(lib, e.value.cookie.value);
      && (r.Handoff? <==> gets && HeaderValid(lib, UrlOf(to)))
      && (r.Aborted? <==> gets && !HeaderValid(lib, UrlOf(to)))
      && (r.Handoff? ==> r.to == to)
  {}

  lemma WithoutToken(lib: Lib, cfg: ShimConfig, pangolin: Pangolin, req: Request)
    requires TokenOf(lib, cfg, req).None?
    ensures !Serve(lib, cfg, pangolin, req).Handoff? && !Serve(lib, cfg, pangolin, req).Aborted?
    ensures HostOf(req) != [] && !OnHealthPath(req.full) ==>
      Serve(lib, cfg, pangolin, req) == VerifyOutcome(lib, pangolin.verify(BodyOf(lib, cfg, req)))
  {
    var named, v := HostOf(req) != [], pangolin.verify(BodyOf(lib, cfg, req));
    SessionsAreHandedOff(lib, named, None, HandoffTo(lib, cfg, req), v);
    RoutedIff(OnHealthPath(req.full), IsProbeVerb(req.verb), Outcome(lib, named, None, HandoffTo(lib, cfg, req), v));
  }

  /** Main result: in every run the request that follows a hand-off carries no session
      token, so it is never handed off again: pangolin's verify decides it. */
  lemma HandoffNeverRepeats(lib: Lib, cfg: ShimConfig, envoy: Bytes, hops: seq<Hop>, i: nat)
    requires Idempotent(lib.fix) && PrefixesFit(envoy, cfg.prefix) && Follows(lib, cfg, envoy, hops)
    requires i + 1 < |hops| && AnswerAt(lib, cfg, hops[i]).Handoff?
    ensures TokenOf(lib, cfg, hops[i + 1].req).None? && !AnswerAt(lib, cfg, hops[i + 1]).Handoff?
    ensures HostOf(hops[i + 1].req) != [] && !OnHealthPath(hops[i + 1].req.full) ==>
      AnswerAt(lib, cfg, hops[i + 1]) ==
      VerifyOutcome(lib, hops[i + 1].pangolin.verify(BodyOf(lib, cfg, hops[i + 1].req)))
  {
    HandoffShape(lib, cfg, hops[i].pangolin, hops[i].req);
    FollowUpQuery(lib, cfg, envoy, hops[i].req, hops[i + 1].req);
    WithoutToken(lib, cfg, hops[i + 1].pangolin, hops[i + 1].req);
  }

  // ---- When the handler panics -----------------------------------------------------------------------

  /** Header values take everything that is readable, which covers what URLs are made of. */
  ghost predicate TakesReadable(lib: Lib) {
    forall b: Byte :: ReadableByte(b) ==> lib.headerByte(b)
  }

  /** Does the exchange give this request a session whose cookie can be set? */
  predicate GetsSession(lib: Lib, cfg: ShimConfig, pangolin: Pangolin, req: Request) {
    var e := AskedExchange(lib, cfg, pangolin, req);
    HostOf(req) != [] && e.Some? && Accepted(e.value) && HeaderValid(lib, e.value.cookie.value)
  }

  /** Main result: a request that gets a session is handed off if its path can stand in a
      header and otherwise gets no answer at all; no other request is handed off or dropped. */
  lemma HandoffIff(lib: Lib, cfg: ShimConfig, pangolin: Pangolin, req: Request)
    requires TakesReadable(lib)
    ensures Answer(lib, cfg, pangolin, req).Handoff? <==>
      GetsSession(lib, cfg, pangolin, req) && HeaderValid(lib, PathOf(OriginalPath(cfg.prefix, req.full)))
    ensures Answer(lib, cfg, pangolin, req).Aborted? <==>
      GetsSession(lib, cfg, pangolin, req) && !HeaderValid(lib, PathOf(OriginalPath(cfg.prefix, req.full)))
  {
    SessionsAreHandedOff(lib, HostOf(req) != [], AskedExchange(lib, cfg, pangolin, req), HandoffTo(lib, cfg, req),
                         pangolin.verify(BodyOf(lib, cfg, req)));
    if TokenOf(lib, cfg, req).Some? {
      LocationIsHeaderIff(lib, cfg, req);
    }
  }

  /** What the HTTP library takes in a header value: tabs and all but control characters. */
  function PlainLib(): Lib {
    Lib(s => s, b => b == TAB || (SPACE <= b && b != 127))
  }

  /** `GET` of a path that ends in DEL, with the session `t` in the parameter `s`. */
  function DelRequest(): Request {
    Request(GET, [SLASH, 127, QUESTION, 115, EQUALS, 116], [Pair(HOST, [97])])
  }

  lemma DelParts()
    ensures PathOf(DelRequest().full) == [SLASH, 127] && QueryOf(DelRequest().full) == [115, EQUALS, 116]
  {
    var full := DelRequest().full;
    FindUnique(full, QUESTION, 2);
    assert full[..2] == [SLASH, 127] && full[3..] == [115, EQUALS, 116];
  }

  lemma DelPairs()
    ensures ParseForm(PlainLib().fix, [115, EQUALS, 116]) == [Pair([115], [116])]
  {
    var query: Bytes := [115, EQUALS, 116];
    FindUnique(query, AMP, 3);
    FindUnique(query, EQUALS, 1);
    assert Before(query, AMP) == query;
    assert Before(query, EQUALS) == [115] && After(query, EQUALS) == [116];
    assert Decode([115]) == [115] && Decode([116]) == [116];
  }

  lemma DelHost()
    ensures HostOf(DelRequest()) == [97]
  {
    var h := DelRequest().headers;
    assert h[0] == Pair(HOST, [97]) && FirstValue(h, HOST) == Some([97]);
  }

  lemma DelGetsSession(cfg: ShimConfig, pangolin: Pangolin, cookie: Bytes)
    requires cfg.prefix == [] && cfg.sessionParam == [115]
    requires cookie != [] && HeaderValid(PlainLib(), cookie)
    requires forall b :: pangolin.exchange(b) == Exchanged(true, Some(cookie))
    ensures GetsSession(PlainLib(), cfg, pangolin, DelRequest())
  {
    DelParts();
    DelPairs();
    DelHost();
    assert FirstValue([Pair([115], [116])], [115]) == Some([116]);
    assert TokenOf(PlainLib(), cfg, DelRequest()) == Some([116]);
  }

  /** A concrete request that gets no answer: pangolin accepts its session, and its path
      holds a byte no header may carry. */
  lemma DelPathPanics(cookie: Bytes)
    requires cookie != [] && HeaderValid(PlainLib(), cookie)
    ensures var cfg := ShimConfig([], [], [115]);
      var pangolin := Pangolin(_ => Exchanged(true, Some(cookie)), _ => VerifyFailed);
      Answer(PlainLib(), cfg, pangolin, DelRequest()) == Aborted
  {
    var cfg, pangolin := ShimConfig([], [], [115]), Pangolin(_ => Exchanged(true, Some(cookie)), _ => VerifyFailed);
    DelGetsSession(cfg, pangolin, cookie);
    DelParts();
    assert PathOf(DelRequest().full)[1] == 127;
    HandoffIff(PlainLib(), cfg, pangolin, DelRequest());
  }

  /** Scheme and host were read from headers and a query is plain, so only the path can spoil
      the Location. */
  lemma LocationIsHeaderIff(lib: Lib, cfg: ShimConfig, req: Request)
    requires TakesReadable(lib) && TokenOf(lib, cfg, req).Some?
    ensures HeaderValid(lib, UrlOf(HandoffTo(lib, cfg, req))) <==>
            HeaderValid(lib, PathOf(OriginalPath(cfg.prefix, req.full)))
  {
    SchemeIsReadable(req);
    ReadableIsHeader(lib, SchemeOf(req));
    ReadableIsHeader(lib, HostOf(req));
    StrippedIsHeaderIff(lib, OriginalPath(cfg.prefix, req.full), cfg.sessionParam);
    assert ReadableByte(COLON) && ReadableByte(SLASH);
    UrlIsHeaderIff(lib, HandoffTo(lib, cfg, req));
  }

  lemma SchemeIsReadable(req: Request)
    ensures Readable(SchemeOf(req))
  {
  }

  lemma ReadableIsHeader(lib: Lib, s: Bytes)
    requires TakesReadable(lib) && Readable(s)
    ensures HeaderValid(lib, s)
  {}

  lemma UrlIsHeaderIff(lib: Lib, to: Location)
    requires lib.headerByte(COLON) && lib.headerByte(SLASH)
    ensures HeaderValid(lib, UrlOf(to)) <==>
            HeaderValid(lib, to.scheme) && HeaderValid(lib, to.host) && HeaderValid(lib, to.path)
  {
    var sep: Bytes := [COLON, SLASH, SLASH];
    HeaderConcat(lib, to.scheme, sep);
    HeaderConcat(lib, to.scheme + sep, to.host);
    HeaderConcat(lib, to.scheme + sep + to.host, to.path);
  }

  lemma SerializedIsHeader(lib: Lib, ps: seq<Pair>)
    requires TakesReadable(lib)
    ensures HeaderValid(lib, Serialize(ps))
  {
    SerializeIsPlain(ps);
    var q := Serialize(ps);
    forall i | 0 <= i < |q| ensures lib.headerByte(q[i]) {
      assert IsPlain(q[i]) || q[i] == EQUALS || q[i] == AMP;
      assert ReadableByte(q[i]);
    }
  }

  /** Serialized queries are plain, so only the path can spoil a header. */
  lemma StrippedIsHeaderIff(lib: Lib, pq: Bytes, param: Bytes)
    requires FirstValue(ParseForm(lib.fix, QueryOf(pq)), param).Some? && TakesReadable(lib)
    ensures HeaderValid(lib, Stripped(lib.fix, pq, param)) <==> HeaderValid(lib, PathOf(pq))
  {
    var kept := Without(ParseForm(lib.fix, QueryOf(pq)), param);
    assert Find(pq, QUESTION) < |pq|;
    if kept != [] {
      SerializedIsHeader(lib, kept);
      HeaderConcat(lib, PathOf(pq) + [QUESTION], Serialize(kept));
      HeaderConcat(lib, PathOf(pq), [QUESTION]);
      assert ReadableByte(QUESTION);
    }
  }

  lemma HeaderConcat(lib: Lib, a: Bytes, b: Bytes)
    ensures HeaderValid(lib, a + b) <==> HeaderValid(lib, a) && HeaderValid(lib, b)
  {
    var s := a + b;
    if HeaderValid(lib, s) {
      forall i | 0 <= i < |a| ensures lib.headerByte(a[i]) { assert s[i] == a[i]; }
      forall i | 0 <= i < |b| ensures lib.headerByte(b[i]) { assert s[|a| + i] == b[i]; }
    }
  }
}
