/** Traefik middlewares to Gateway API filters, and the merge that keeps each
    mergeable filter type unique. */
module Middleware {
  import opened Prelude
  import opened Objects
  import opened Text

  /** Untyped configuration; object members in iteration order. */
  datatype Json = Null | Bool(b: bool) | Number(n: int) | Str(s: string)
    | Array(items: seq<Json>) | Object(members: seq<Entry<Json>>)

  function Member(v: Json, key: string): Option<Json> {
    if v.Object? then Lookup(v.members, key) else None
  }

  function StrMember(v: Json, key: string): Option<string> {
    var m := Member(v, key);
    if m.Some? && m.value.Str? then Some(m.value.s) else None
  }

  function ObjectMember(v: Json, key: string): Option<seq<Entry<Json>>> {
    var m := Member(v, key);
    if m.Some? && m.value.Object? then Some(m.value.members) else None
  }

  // ---- Protection ---------------------------------------------------------------

  predicate IsBadger(mw: Json) {
    var plugin := ObjectMember(mw, "plugin");
    plugin.Some? && Lookup(plugin.value, "badger").Some?
  }

  /** A missing middleware literally named `badger` counts as protection too. */
  predicate RequiresBadgerAuth(names: seq<string>, middlewares: map<string, Json>) {
    exists name :: name in names && (if name in middlewares then IsBadger(middlewares[name]) else name == "badger")
  }

  // ---- Translation ----------------------------------------------------------------

  /** `eq_ignore_ascii_case("host")` */
  predicate IsHostHeader(name: string) {
    LowerAscii(name) == "host"
  }

  function ParseI32(s: string): Option<int> {
    var negative := s != [] && s[0] == '-';
    var digits := if s != [] && (s[0] == '-' || s[0] == '+') then s[1..] else s;
    if digits == [] || !AllDigits(digits) then None
    else
      var v: int := if negative then -(Value(digits) as int) else Value(digits);
      if -0x8000_0000 <= v < 0x8000_0000 then Some(v) else None
  }

  function TranslateRedirectScheme(body: Json): seq<Filter> {
    var scheme := StrMember(body, "scheme");
    var port := StrMember(body, "port");
    if scheme == Some("http") || scheme == Some("https") then
      [RequestRedirect(scheme.value, if port.Some? then ParseI32(port.value) else None)]
    else []
  }

  /** Header entries with string values that are not Host. */
  function RequestEntries(members: seq<Entry<Json>>): seq<Header> {
    if members == [] then []
    else
      var e := members[0];
      (if e.value.Str? && !IsHostHeader(e.key) then [Header(e.key, e.value.s)] else []) + RequestEntries(members[1..])
  }

  /** A Host entry becomes a hostname rewrite. */
  function HostRewrites(members: seq<Entry<Json>>): seq<Filter> {
    if members == [] then []
    else
      var e := members[0];
      (if e.value.Str? && IsHostHeader(e.key) then [UrlRewrite(Some(Rewrite(Some(e.value.s), None)))] else [])
      + HostRewrites(members[1..])
  }

  function ResponseEntries(members: seq<Entry<Json>>): seq<Header> {
    if members == [] then []
    else
      var e := members[0];
      (if e.value.Str? then [Header(e.key, e.value.s)] else []) + ResponseEntries(members[1..])
  }

  function HeaderFilters(rewrites: seq<Filter>, req: seq<Header>, resp: seq<Header>): seq<Filter> {
    rewrites + (RequestFilter(req) + ResponseFilter(resp))
  }

  function TranslateHeaders(body: Json): seq<Filter> {
    var req := ObjectMember(body, "customRequestHeaders");
    var resp := ObjectMember(body, "customResponseHeaders");
    HeaderFilters(if req.Some? then HostRewrites(req.value) else [],
                  if req.Some? then RequestEntries(req.value) else [],
                  if resp.Some? then ResponseEntries(resp.value) else [])
  }

  /** What the header at `i` adds to each list. */
  lemma SplitStep(members: seq<Entry<Json>>, i: nat, rewrites: seq<Filter>, req: seq<Header>)
    requires i < |members|
    ensures var e := members[i];
      && rewrites + HostRewrites(members[i..]) ==
         (if e.value.Str? && IsHostHeader(e.key) then rewrites + [UrlRewrite(Some(Rewrite(Some(e.value.s), None)))]
          else rewrites)
         + HostRewrites(members[i + 1..])
      && req + RequestEntries(members[i..]) ==
         (if e.value.Str? && !IsHostHeader(e.key) then req + [Header(e.key, e.value.s)] else req)
         + RequestEntries(members[i + 1..])
  {
    var e := members[i];
    assert members[i..][0] == e && members[i..][1..] == members[i + 1..];
    assert rewrites + [] == rewrites && req + [] == req;
    if e.value.Str? {
      if IsHostHeader(e.key) {
        Assoc(rewrites, [UrlRewrite(Some(Rewrite(Some(e.value.s), None)))], HostRewrites(members[i + 1..]));
      } else {
        Assoc(req, [Header(e.key, e.value.s)], RequestEntries(members[i + 1..]));
      }
    }
  }

  /** The loop that splits the custom request headers. */
  method SplitRequestHeaders(members: seq<Entry<Json>>) returns (rewrites: seq<Filter>, req: seq<Header>)
    ensures rewrites == HostRewrites(members) && req == RequestEntries(members)
  {
    rewrites, req := [], [];
    assert members[0..] == members;
    for i := 0 to |members|
      invariant rewrites + HostRewrites(members[i..]) == HostRewrites(members)
      invariant req + RequestEntries(members[i..]) == RequestEntries(members)
    {
      SplitStep(members, i, rewrites, req);
      var e := members[i];
      if e.value.Str? {
        if IsHostHeader(e.key) {
          rewrites := rewrites + [UrlRewrite(Some(Rewrite(Some(e.value.s), None)))];
        } else {
          req := req + [Header(e.key, e.value.s)];
        }
      }
    }
    assert members[|members|..] == [];
    assert rewrites + [] == rewrites && req + [] == req;
  }

  function PathRewriteFilter(p: PathRewrite): Filter {
    UrlRewrite(Some(Rewrite(None, Some(p))))
  }

  /** Only the first member of the object decides what a middleware is. */
  function Translate(mw: Json): seq<Filter> {
    if !mw.Object? || mw.members == [] then []
    else
      var kind, body := mw.members[0].key, mw.members[0].value;
      if kind == "redirectScheme" then TranslateRedirectScheme(body)
      else if kind == "headers" then TranslateHeaders(body)
      else if kind == "addPrefix" then
        var p := StrMember(body, "prefix");
        if p.Some? then [PathRewriteFilter(ReplacePrefixMatch(p.value))] else []
      else if kind == "replacePath" then
        var p := StrMember(body, "path");
        if p.Some? then [PathRewriteFilter(ReplaceFullPath(p.value))] else []
      else if kind == "stripPrefix" then
        var m := Member(body, "prefixes");
        if m.Some? && m.value.Array? && m.value.items != [] then [PathRewriteFilter(ReplacePrefixMatch(""))] else []
      else []
  }

  function TranslateAll(names: seq<string>, middlewares: map<string, Json>): seq<Filter> {
    if names == [] then []
    else (if names[0] in middlewares then Translate(middlewares[names[0]]) else [])
         + TranslateAll(names[1..], middlewares)
  }

  lemma TranslateStep(names: seq<string>, middlewares: map<string, Json>, i: nat, filters: seq<Filter>)
    requires i < |names|
    ensures filters + TranslateAll(names[i..], middlewares) ==
            (if names[i] in middlewares then filters + Translate(middlewares[names[i]]) else filters)
            + TranslateAll(names[i + 1..], middlewares)
  {
    assert names[i..][0] == names[i] && names[i..][1..] == names[i + 1..];
    var more := if names[i] in middlewares then Translate(middlewares[names[i]]) else [];
    Assoc(filters, more, TranslateAll(names[i + 1..], middlewares));
    assert filters + [] == filters;
  }

  /** The middlewares a router names and that exist, translated in order. */
  method CollectFilters(names: seq<string>, middlewares: map<string, Json>) returns (filters: seq<Filter>)
    ensures filters == TranslateAll(names, middlewares)
  {
    filters := [];
    assert names[0..] == names;
    for i := 0 to |names|
      invariant filters + TranslateAll(names[i..], middlewares) == TranslateAll(names, middlewares)
    {
      TranslateStep(names, middlewares, i, filters);
      if names[i] in middlewares {
        filters := filters + Translate(middlewares[names[i]]);
      }
    }
    assert names[|names|..] == [] && filters + [] == filters;
  }

  method BuildFilters(names: seq<string>, middlewares: map<string, Json>) returns (filters: seq<Filter>)
    ensures filters == Merge(TranslateAll(names, middlewares))
  {
    filters := CollectFilters(names, middlewares);
    filters := MergeFilters(filters);
  }

  // ---- Merging ----------------------------------------------------------------------

  predicate Mergeable(f: Filter) {
    f.UrlRewrite? || f.RequestHeaders? || f.ResponseHeaders?
  }

  function OrElse<T>(a: Option<T>, b: Option<T>): Option<T> {
    if a.Some? then a else b
  }

  /** The later hostname and the earlier path win. */
  function Combine(a: Option<Rewrite>, b: Option<Rewrite>): Option<Rewrite> {
    if a.None? then b
    else if b.None? then a
    else Some(Rewrite(OrElse(b.value.hostname, a.value.hostname), OrElse(a.value.path, b.value.path)))
  }

  /** What a filter list amounts to once the mergeable filters are pooled. */
  datatype Parts = Parts(others: seq<Filter>, req: seq<Header>, resp: seq<Header>, rewrite: Option<Rewrite>)

  const NO_PARTS := Parts([], [], [], None)

  function Plus(a: Parts, b: Parts): Parts {
    Parts(a.others + b.others, a.req + b.req, a.resp + b.resp, Combine(a.rewrite, b.rewrite))
  }

  function PartsOfOne(f: Filter): Parts {
    match f
    case UrlRewrite(rw) => NO_PARTS.(rewrite := rw)
    case RequestHeaders(hs) => NO_PARTS.(req := if hs.Some? then hs.value else [])
    case ResponseHeaders(hs) => NO_PARTS.(resp := if hs.Some? then hs.value else [])
    case RequestRedirect(_, _) => NO_PARTS.(others := [f])
  }

  function PartsOf(fs: seq<Filter>): Parts {
    if fs == [] then NO_PARTS else Plus(PartsOfOne(fs[0]), PartsOf(fs[1..]))
  }

  function RequestFilter(req: seq<Header>): seq<Filter> {
    if req == [] then [] else [RequestHeaders(Some(req))]
  }

  function ResponseFilter(resp: seq<Header>): seq<Filter> {
    if resp == [] then [] else [ResponseHeaders(Some(resp))]
  }

  function RewriteFilter(rewrite: Option<Rewrite>): seq<Filter> {
    if rewrite.None? then [] else [UrlRewrite(rewrite)]
  }

  function Assemble(p: Parts): seq<Filter> {
    p.others + (RequestFilter(p.req) + (ResponseFilter(p.resp) + RewriteFilter(p.rewrite)))
  }

  function Merge(fs: seq<Filter>): seq<Filter> {
    Assemble(PartsOf(fs))
  }

  /** The program's loop over accumulators. */
  method MergeFilters(filters: seq<Filter>) returns (out: seq<Filter>)
    ensures out == Merge(filters)
  {
    out := [];
    var rewrite: Option<Rewrite>, req: seq<Header>, resp: seq<Header> := None, [], [];
    for i := 0 to |filters|
      invariant Parts(out, req, resp, rewrite) == PartsOf(filters[..i])
    {
      var f := filters[i];
      PartsConcat(filters[..i], [f]);
      PartsOfSingleton(f);
      assert filters[..i + 1] == filters[..i] + [f];
      match f {
        case UrlRewrite(incoming) =>
          if incoming.Some? {
            var merged := if rewrite.Some? then rewrite.value else Rewrite(None, None);
            if incoming.value.hostname.Some? {
              merged := merged.(hostname := incoming.value.hostname);
            }
            if incoming.value.path.Some? && merged.path.None? {
              merged := merged.(path := incoming.value.path);
            }
            rewrite := Some(merged);
          }
        case RequestHeaders(set_) =>
          if set_.Some? {
            req := req + set_.value;
          }
        case ResponseHeaders(set_) =>
          if set_.Some? {
            resp := resp + set_.value;
          }
        case RequestRedirect(_, _) =>
          out := out + [f];
      }
    }
    assert filters[..|filters|] == filters;
    if req != [] {
      out := out + [RequestHeaders(Some(req))];
    }
    if resp != [] {
      out := out + [ResponseHeaders(Some(resp))];
    }
    if rewrite.Some? {
      out := out + [UrlRewrite(rewrite)];
    }
  }

  lemma PlusUnit(p: Parts)
    ensures Plus(p, NO_PARTS) == p && Plus(NO_PARTS, p) == p
  {}

  lemma PlusAssociative(a: Parts, b: Parts, c: Parts)
    ensures Plus(Plus(a, b), c) == Plus(a, Plus(b, c))
  {}

  lemma PartsOfSingleton(f: Filter)
    ensures PartsOf([f]) == PartsOfOne(f)
  {
    PlusUnit(PartsOfOne(f));
  }

  /** Pooling is a homomorphism from lists of filters. */
  lemma {:induction false} PartsConcat(a: seq<Filter>, b: seq<Filter>)
    ensures PartsOf(a + b) == Plus(PartsOf(a), PartsOf(b))
  {
    if a == [] {
      assert a + b == b;
      PlusUnit(PartsOf(b));
    } else {
      assert (a + b)[0] == a[0] && (a + b)[1..] == a[1..] + b;
      PartsConcat(a[1..], b);
      PlusAssociative(PartsOfOne(a[0]), PartsOf(a[1..]), PartsOf(b));
    }
  }

  predicate NoneMergeable(fs: seq<Filter>) {
    forall f :: f in fs ==> !Mergeable(f)
  }

  lemma {:induction false} PartsOfOthers(fs: seq<Filter>)
    requires NoneMergeable(fs)
    ensures PartsOf(fs) == Parts(fs, [], [], None)
  {
    if fs != [] {
      PartsOfOthers(fs[1..]);
      assert !Mergeable(fs[0]);
      assert [fs[0]] + fs[1..] == fs;
    }
  }

  lemma {:induction false} OthersAreOthers(fs: seq<Filter>)
    ensures NoneMergeable(PartsOf(fs).others)
  {
    if fs != [] { OthersAreOthers(fs[1..]); }
  }

  lemma PartsOfTail(req: seq<Header>, resp: seq<Header>, rewrite: Option<Rewrite>)
    ensures PartsOf(RequestFilter(req)) == NO_PARTS.(req := req)
    ensures PartsOf(ResponseFilter(resp)) == NO_PARTS.(resp := resp)
    ensures PartsOf(RewriteFilter(rewrite)) == NO_PARTS.(rewrite := rewrite)
  {
    PartsOfSingleton(RequestHeaders(Some(req)));
    PartsOfSingleton(ResponseHeaders(Some(resp)));
    PartsOfSingleton(UrlRewrite(rewrite));
  }

  lemma PartsOfAssembled(p: Parts)
    requires NoneMergeable(p.others)
    ensures PartsOf(Assemble(p)) == p
  {
    PartsOfOthers(p.others);
    PartsOfTail(p.req, p.resp, p.rewrite);
    var tail := ResponseFilter(p.resp) + RewriteFilter(p.rewrite);
    PartsConcat(ResponseFilter(p.resp), RewriteFilter(p.rewrite));
    assert PartsOf(tail) == Parts([], [], p.resp, p.rewrite);
    PartsConcat(RequestFilter(p.req), tail);
    PartsConcat(p.others, RequestFilter(p.req) + tail);
  }

  /** Merging conserves everything: the other filters and all header entries in order,
      and the combined rewrite. */
  lemma MergeConserves(fs: seq<Filter>)
    ensures PartsOf(Merge(fs)) == PartsOf(fs)
  {
    OthersAreOthers(fs);
    PartsOfAssembled(PartsOf(fs));
  }

  lemma MergeIdempotent(fs: seq<Filter>)
    ensures Merge(Merge(fs)) == Merge(fs)
  {
    MergeConserves(fs);
  }

  /** Merging piecewise and then together is merging once. */
  lemma MergeIsCongruence(a: seq<Filter>, b: seq<Filter>)
    ensures Merge(a + b) == Merge(Merge(a) + Merge(b))
  {
    PartsConcat(a, b);
    PartsConcat(Merge(a), Merge(b));
    MergeConserves(a);
    MergeConserves(b);
  }

  /** The pooled parts said outright: filtered and concatenated in order. */
  function Concat(hs: seq<seq<Header>>): seq<Header> {
    if hs == [] then [] else hs[0] + Concat(hs[1..])
  }

  lemma {:induction false} PartsAreProjections(fs: seq<Filter>)
    ensures PartsOf(fs).others == Select(fs)
    ensures PartsOf(fs).req == Concat(seq(|fs|, i requires 0 <= i < |fs| => RequestSet(fs[i])))
    ensures PartsOf(fs).resp == Concat(seq(|fs|, i requires 0 <= i < |fs| => ResponseSet(fs[i])))
  {
    if fs != [] {
      PartsAreProjections(fs[1..]);
      var r := seq(|fs|, i requires 0 <= i < |fs| => RequestSet(fs[i]));
      assert r[1..] == seq(|fs[1..]|, i requires 0 <= i < |fs[1..]| => RequestSet(fs[1..][i]));
      var t := seq(|fs|, i requires 0 <= i < |fs| => ResponseSet(fs[i]));
      assert t[1..] == seq(|fs[1..]|, i requires 0 <= i < |fs[1..]| => ResponseSet(fs[1..][i]));
    }
  }

  function Select(fs: seq<Filter>): seq<Filter> {
    if fs == [] then [] else (if Mergeable(fs[0]) then [] else [fs[0]]) + Select(fs[1..])
  }

  function RequestSet(f: Filter): seq<Header> {
    if f.RequestHeaders? && f.set_.Some? then f.set_.value else []
  }

  function ResponseSet(f: Filter): seq<Header> {
    if f.ResponseHeaders? && f.set_.Some? then f.set_.value else []
  }

  function SameType(f: Filter, g: Filter): bool {
    (f.UrlRewrite? && g.UrlRewrite?) || (f.RequestHeaders? && g.RequestHeaders?)
    || (f.ResponseHeaders? && g.ResponseHeaders?)
  }

  /** At most one filter of each mergeable type per rule. */
  lemma MergeIsUnique(fs: seq<Filter>, i: nat, j: nat)
    requires i < j < |Merge(fs)|
    ensures !SameType(Merge(fs)[i], Merge(fs)[j])
  {
    OthersAreOthers(fs);
    var o := PartsOf(fs).others;
    if i < |o| { assert Merge(fs)[i] in o; }
  }

  /** The hostname of the last rewrite that sets one. */
  function LastHostname(fs: seq<Filter>): Option<string> {
    if fs == [] then None
    else
      var f := fs[|fs| - 1];
      if f.UrlRewrite? && f.rewrite.Some? && f.rewrite.value.hostname.Some? then f.rewrite.value.hostname
      else LastHostname(fs[..|fs| - 1])
  }

  /** The path of the first rewrite that sets one. */
  function FirstPath(fs: seq<Filter>): Option<PathRewrite> {
    if fs == [] then None
    else if fs[0].UrlRewrite? && fs[0].rewrite.Some? && fs[0].rewrite.value.path.Some? then fs[0].rewrite.value.path
    else FirstPath(fs[1..])
  }

  lemma {:induction false} RewriteIsLastHostFirstPath(fs: seq<Filter>)
    ensures PartsOf(fs).rewrite.Some? <==> exists f :: f in fs && f.UrlRewrite? && f.rewrite.Some?
    ensures LastHostname(fs) == if PartsOf(fs).rewrite.Some? then PartsOf(fs).rewrite.value.hostname else None
    ensures FirstPath(fs) == if PartsOf(fs).rewrite.Some? then PartsOf(fs).rewrite.value.path else None
  {
    RewriteLastHost(fs);
    RewriteFirstPath(fs);
  }

  lemma {:induction false} RewriteLastHost(fs: seq<Filter>)
    ensures LastHostname(fs) == if PartsOf(fs).rewrite.Some? then PartsOf(fs).rewrite.value.hostname else None
    decreases |fs|
  {
    if fs != [] {
      var init, f := fs[..|fs| - 1], fs[|fs| - 1];
      assert fs == init + [f];
      PartsConcat(init, [f]);
      PartsOfSingleton(f);
      RewriteLastHost(init);
    }
  }

  lemma {:induction false} RewriteFirstPath(fs: seq<Filter>)
    ensures PartsOf(fs).rewrite.Some? <==> exists f :: f in fs && f.UrlRewrite? && f.rewrite.Some?
    ensures FirstPath(fs) == if PartsOf(fs).rewrite.Some? then PartsOf(fs).rewrite.value.path else None
  {
    if fs != [] {
      RewriteFirstPath(fs[1..]);
      assert forall f :: f in fs <==> f == fs[0] || f in fs[1..];
    }
  }

  // ---- No Host header survives ---------------------------------------------------------

  predicate NoHost(hs: seq<Header>) {
    forall h :: h in hs ==> !IsHostHeader(h.name)
  }

  lemma {:induction false} RequestEntriesHaveNoHost(members: seq<Entry<Json>>)
    ensures NoHost(RequestEntries(members))
  {
    if members != [] { RequestEntriesHaveNoHost(members[1..]); }
  }

  lemma {:induction false} RewritesSetNoHeaders(members: seq<Entry<Json>>)
    ensures PartsOf(HostRewrites(members)).req == []
  {
    if members != [] {
      RewritesSetNoHeaders(members[1..]);
      var e := members[0];
      if e.value.Str? && IsHostHeader(e.key) {
        var f := UrlRewrite(Some(Rewrite(Some(e.value.s), None)));
        PartsConcat([f], HostRewrites(members[1..]));
        PartsOfSingleton(f);
      } else {
        assert HostRewrites(members) == HostRewrites(members[1..]);
      }
    }
  }

  lemma HeaderFiltersSet(rewrites: seq<Filter>, req: seq<Header>, resp: seq<Header>)
    requires PartsOf(rewrites).req == []
    ensures PartsOf(HeaderFilters(rewrites, req, resp)).req == req
  {
    PartsConcat(rewrites, RequestFilter(req) + ResponseFilter(resp));
    PartsConcat(RequestFilter(req), ResponseFilter(resp));
    PartsOfTail(req, resp, None);
  }

  lemma TranslateHeadersSetsNoHost(body: Json)
    ensures NoHost(PartsOf(TranslateHeaders(body)).req)
  {
    var m := ObjectMember(body, "customRequestHeaders");
    var resp := ObjectMember(body, "customResponseHeaders");
    var members := if m.Some? then m.value else [];
    RequestEntriesHaveNoHost(members);
    RewritesSetNoHeaders(members);
    HeaderFiltersSet(HostRewrites(members), RequestEntries(members),
                     if resp.Some? then ResponseEntries(resp.value) else []);
  }

  lemma TranslateSetsNoHost(mw: Json)
    ensures NoHost(PartsOf(Translate(mw)).req)
  {
    var fs := Translate(mw);
    if mw.Object? && mw.members != [] && mw.members[0].key == "headers" {
      assert "headers" != "redirectScheme";
      TranslateHeadersSetsNoHost(mw.members[0].value);
    } else {
      assert |fs| <= 1 && (fs != [] ==> !fs[0].RequestHeaders?);
      if |fs| == 1 {
        assert fs == [fs[0]];
        PartsOfSingleton(fs[0]);
      }
    }
  }

  lemma {:induction false} TranslateAllSetsNoHost(names: seq<string>, middlewares: map<string, Json>)
    ensures NoHost(PartsOf(TranslateAll(names, middlewares)).req)
  {
    if names != [] {
      var first := if names[0] in middlewares then Translate(middlewares[names[0]]) else [];
      PartsConcat(first, TranslateAll(names[1..], middlewares));
      if names[0] in middlewares { TranslateSetsNoHost(middlewares[names[0]]); }
      TranslateAllSetsNoHost(names[1..], middlewares);
    }
  }

  /** Whatever the middlewares, no emitted request-header entry sets Host. */
  lemma NoHostHeaderSurvives(names: seq<string>, middlewares: map<string, Json>)
    ensures NoHost(PartsOf(Merge(TranslateAll(names, middlewares))).req)
  {
    MergeConserves(TranslateAll(names, middlewares));
    TranslateAllSetsNoHost(names, middlewares);
  }
}
