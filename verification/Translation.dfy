/** What single middlewares amount to, read off the raw configuration: which of them protect
    a router, and which filters each kind becomes. */
module Translation {
  import opened Prelude
  import opened Objects
  import opened Text
  import opened Middleware

  /** The value of a key: the first member of an object that has it. */
  ghost predicate IsMember(v: Json, key: string, w: Json) {
    v.Object? && exists i: nat :: IsFirstAt(v.members, key, w, i)
  }

  ghost predicate IsFirstAt(members: seq<Entry<Json>>, key: string, w: Json, i: nat) {
    i < |members| && members[i] == Entry(key, w) && forall j :: 0 <= j < i ==> members[j].key != key
  }

  lemma FirstShifts(members: seq<Entry<Json>>, key: string, w: Json, i: nat)
    requires members != [] && members[0].key != key
    ensures IsFirstAt(members, key, w, i + 1) <==> IsFirstAt(members[1..], key, w, i)
  {
    assert forall j :: 0 <= j < |members[1..]| ==> members[1..][j] == members[j + 1];
    assert forall j :: 0 < j < |members| ==> members[j] == members[1..][j - 1];
  }

  lemma {:induction false} LookupIsFirst(members: seq<Entry<Json>>, key: string, w: Json)
    ensures Lookup(members, key) == Some(w) <==> IsMember(Object(members), key, w)
  {
    if members != [] {
      LookupIsFirst(members[1..], key, w);
      if members[0].key == key {
        assert members[0] == Entry(key, members[0].value);
        assert IsFirstAt(members, key, members[0].value, 0);
      } else {
        if IsMember(Object(members[1..]), key, w) {
          var i: nat :| IsFirstAt(members[1..], key, w, i);
          FirstShifts(members, key, w, i);
        }
        if IsMember(Object(members), key, w) {
          var i: nat :| IsFirstAt(members, key, w, i);
          assert members[i].key == key && i > 0;
          FirstShifts(members, key, w, i - 1);
        }
      }
    }
  }

  lemma MemberIff(v: Json, key: string, w: Json)
    ensures Member(v, key) == Some(w) <==> IsMember(v, key, w)
  {
    if v.Object? { LookupIsFirst(v.members, key, w); }
  }

  // ---- Protection ---------------------------------------------------------------------------------

  /** Is this the authentication plugin: an object `plugin` with a member `badger`? */
  ghost predicate IsBadgerPlugin(mw: Json) {
    exists plugin, w :: IsMember(mw, "plugin", plugin) && IsMember(plugin, "badger", w)
  }

  /** Does a router with these middlewares need protection: does it name the plugin, or
      something undefined called `badger`? */
  ghost predicate NeedsAuth(names: seq<string>, middlewares: map<string, Json>) {
    exists i :: 0 <= i < |names| && if names[i] in middlewares then IsBadgerPlugin(middlewares[names[i]])
                                    else names[i] == "badger"
  }

  lemma BadgerIff(mw: Json)
    ensures IsBadger(mw) <==> IsBadgerPlugin(mw)
  {
    var m := Member(mw, "plugin");
    if m.Some? {
      MemberIff(mw, "plugin", m.value);
      var w := Member(m.value, "badger");
      if w.Some? { MemberIff(m.value, "badger", w.value); }
    }
    if IsBadgerPlugin(mw) {
      var plugin, w :| IsMember(mw, "plugin", plugin) && IsMember(plugin, "badger", w);
      MemberIff(mw, "plugin", plugin);
      MemberIff(plugin, "badger", w);
    }
  }

  /** Main result: the program's test of a router's middlewares, over the raw configuration. */
  lemma ProtectedIff(names: seq<string>, middlewares: map<string, Json>)
    ensures RequiresBadgerAuth(names, middlewares) <==> NeedsAuth(names, middlewares)
  {
    forall name | name in middlewares ensures IsBadger(middlewares[name]) <==> IsBadgerPlugin(middlewares[name]) {
      BadgerIff(middlewares[name]);
    }
    if RequiresBadgerAuth(names, middlewares) {
      var name :| name in names && if name in middlewares then IsBadger(middlewares[name]) else name == "badger";
      var i :| 0 <= i < |names| && names[i] == name;
    }
    if NeedsAuth(names, middlewares) {
      var i :| 0 <= i < |names| && if names[i] in middlewares then IsBadgerPlugin(middlewares[names[i]])
                                   else names[i] == "badger";
      assert names[i] in names;
    }
  }

  // ---- Kinds of middleware ----------------------------------------------------------------------------

  lemma StrMemberIff(v: Json, key: string, s: string)
    ensures StrMember(v, key) == Some(s) <==> IsMember(v, key, Str(s))
  {
    MemberIff(v, key, Str(s));
  }

  lemma NoStrMember(v: Json, key: string)
    ensures StrMember(v, key).None? <==> forall s :: !IsMember(v, key, Str(s))
  {
    forall s ensures StrMember(v, key) == Some(s) <==> IsMember(v, key, Str(s)) { StrMemberIff(v, key, s); }
  }

  /** A middleware whose first member is this; the others do not matter. */
  function OfKind(kind: string, body: Json, others: seq<Entry<Json>>): Json {
    Object([Entry(kind, body)] + others)
  }

  /** `addPrefix` and `replacePath` rewrite the path to the text they carry. */
  lemma RewritesPath(kind: string, body: Json, others: seq<Entry<Json>>, p: string)
    requires kind == "addPrefix" || kind == "replacePath"
    ensures var key, fs := if kind == "addPrefix" then "prefix" else "path", Translate(OfKind(kind, body, others));
      && (IsMember(body, key, Str(p)) ==>
            fs == [UrlRewrite(Some(Rewrite(None, Some(
                     if kind == "addPrefix" then ReplacePrefixMatch(p) else ReplaceFullPath(p)))))])
      && ((forall s :: !IsMember(body, key, Str(s))) ==> fs == [])
  {
    assert OfKind(kind, body, others).members[0] == Entry(kind, body);
    var key := if kind == "addPrefix" then "prefix" else "path";
    StrMemberIff(body, key, p);
    NoStrMember(body, key);
  }

  /** `stripPrefix` takes off the matched prefix if it lists one at all. */
  lemma StripsPrefix(body: Json, others: seq<Entry<Json>>)
    ensures var fs := Translate(OfKind("stripPrefix", body, others));
      if exists items :: IsMember(body, "prefixes", Array(items)) && items != []
      then fs == [UrlRewrite(Some(Rewrite(None, Some(ReplacePrefixMatch("")))))]
      else fs == []
  {
    assert OfKind("stripPrefix", body, others).members[0] == Entry("stripPrefix", body);
    var m := Member(body, "prefixes");
    if m.Some? { MemberIff(body, "prefixes", m.value); }
    if items :| IsMember(body, "prefixes", Array(items)) && items != [] {
      MemberIff(body, "prefixes", Array(items));
    }
  }

  /** `redirectScheme` redirects to http or https, with the port if its text is a number. */
  lemma RedirectsScheme(body: Json, others: seq<Entry<Json>>, scheme: string)
    ensures var fs := Translate(OfKind("redirectScheme", body, others));
      && (IsMember(body, "scheme", Str(scheme)) ==>
            if scheme == "http" || scheme == "https" then
              exists port :: fs == [RequestRedirect(scheme, port)] && IsRedirectPort(body, port)
            else fs == [])
      && ((forall s :: !IsMember(body, "scheme", Str(s))) ==> fs == [])
  {
    assert OfKind("redirectScheme", body, others).members[0] == Entry("redirectScheme", body);
    StrMemberIff(body, "scheme", scheme);
    NoStrMember(body, "scheme");
    NoStrMember(body, "port");
    var text := StrMember(body, "port");
    var port := if text.Some? then ParseI32(text.value) else None;
    if text.Some? {
      StrMemberIff(body, "port", text.value);
      forall n ensures port == Some(n) <==> IsI32Text(text.value, n) { ParseI32Iff(text.value, n); }
      assert IsRedirectPort(body, port);
    }
  }

  /** The port a body names in text, if the text is that of a 32-bit number. */
  ghost predicate IsRedirectPort(body: Json, port: Option<int>) {
    if port.Some? then exists s :: IsMember(body, "port", Str(s)) && IsI32Text(s, port.value)
    else forall s, n :: IsMember(body, "port", Str(s)) ==> !IsI32Text(s, n)
  }

  /** An optional sign and the digits of a 32-bit number. */
  ghost predicate IsI32Text(s: string, n: int) {
    && -0x8000_0000 <= n < 0x8000_0000
    && ((n >= 0 && IsDigitsOf(s, n))
        || (n >= 0 && s != [] && s[0] == '+' && IsDigitsOf(s[1..], n))
        || (n <= 0 && s != [] && s[0] == '-' && IsDigitsOf(s[1..], -n)))
  }

  lemma ParseI32Iff(s: string, n: int)
    ensures ParseI32(s) == Some(n) <==> IsI32Text(s, n)
  {
    var size: nat := if n < 0 then -n else n;
    DigitsIff(s, size);
    if s != [] { DigitsIff(s[1..], size); }
  }

  // ---- Headers ---------------------------------------------------------------------------------------

  /** The header name `Host`, in any casing. */
  lemma HostHeaderIff(name: string)
    ensures IsHostHeader(name) <==>
      |name| == 4 && name[0] in {'h', 'H'} && name[1] in {'o', 'O'} && name[2] in {'s', 'S'} && name[3] in {'t', 'T'}
  {
    if |name| == 4 {
      assert LowerAscii(name) == [LowerChar(name[0]), LowerChar(name[1]), LowerChar(name[2]), LowerChar(name[3])];
    }
  }

  /** The header an entry sets: entries that are not text set none, nor does `Host`. */
  function RequestHeaderOf(e: Entry<Json>): Option<Header> {
    if e.value.Str? && !IsHostHeader(e.key) then Some(Header(e.key, e.value.s)) else None
  }

  function ResponseHeaderOf(e: Entry<Json>): Option<Header> {
    if e.value.Str? then Some(Header(e.key, e.value.s)) else None
  }

  function HostRewriteOf(e: Entry<Json>): Option<Filter> {
    if e.value.Str? && IsHostHeader(e.key) then Some(UrlRewrite(Some(Rewrite(Some(e.value.s), None)))) else None
  }

  function Each<T>(members: seq<Entry<Json>>, f: Entry<Json> -> Option<T>): (r: seq<Option<T>>)
    ensures |r| == |members| && forall i :: 0 <= i < |r| ==> r[i] == f(members[i])
  {
    if members == [] then [] else [f(members[0])] + Each(members[1..], f)
  }

  lemma {:induction false} EntriesArePresent(members: seq<Entry<Json>>)
    ensures RequestEntries(members) == Present(Each(members, RequestHeaderOf))
    ensures ResponseEntries(members) == Present(Each(members, ResponseHeaderOf))
    ensures HostRewrites(members) == Present(Each(members, HostRewriteOf))
  {
    if members != [] {
      EntriesArePresent(members[1..]);
      assert Each(members, RequestHeaderOf)[1..] == Each(members[1..], RequestHeaderOf);
      assert Each(members, ResponseHeaderOf)[1..] == Each(members[1..], ResponseHeaderOf);
      assert Each(members, HostRewriteOf)[1..] == Each(members[1..], HostRewriteOf);
    }
  }

  /** The header entries a `headers` middleware sets, in order with none passed over. */
  lemma EntriesInOrder(members: seq<Entry<Json>>)
    returns (req: seq<nat>, resp: seq<nat>, hosts: seq<nat>)
    ensures IsListing(Each(members, RequestHeaderOf), req, RequestEntries(members))
    ensures IsListing(Each(members, ResponseHeaderOf), resp, ResponseEntries(members))
    ensures IsListing(Each(members, HostRewriteOf), hosts, HostRewrites(members))
  {
    EntriesArePresent(members);
    req := PresentInOrder(Each(members, RequestHeaderOf));
    resp := PresentInOrder(Each(members, ResponseHeaderOf));
    hosts := PresentInOrder(Each(members, HostRewriteOf));
  }

  /** The members of the object under the key, if there is one. */
  ghost predicate HasMembers(body: Json, key: string, members: seq<Entry<Json>>) {
    IsMember(body, key, Object(members)) || (members == [] && forall ms :: !IsMember(body, key, Object(ms)))
  }

  lemma ObjectMemberIs(body: Json, key: string, members: seq<Entry<Json>>)
    requires HasMembers(body, key, members)
    ensures var m := ObjectMember(body, key); (if m.Some? then m.value else []) == members
  {
    MemberIff(body, key, Object(members));
    var m := Member(body, key);
    if m.Some? { MemberIff(body, key, m.value); }
  }

  /** A `headers` middleware yields its rewrites, then one filter for its request headers and
      one for its response headers, each if there are any. */
  lemma SetsHeaders(body: Json, others: seq<Entry<Json>>, req: seq<Entry<Json>>, resp: seq<Entry<Json>>)
    requires HasMembers(body, "customRequestHeaders", req) && HasMembers(body, "customResponseHeaders", resp)
    ensures var rs, qs, ps := HostRewrites(req), RequestEntries(req), ResponseEntries(resp);
      Translate(OfKind("headers", body, others)) ==
      rs + (if qs == [] then [] else [RequestHeaders(Some(qs))])
      + (if ps == [] then [] else [ResponseHeaders(Some(ps))])
  {
    assert OfKind("headers", body, others).members[0] == Entry("headers", body);
    assert "headers" != "redirectScheme";
    ObjectMemberIs(body, "customRequestHeaders", req);
    ObjectMemberIs(body, "customResponseHeaders", resp);
    var qs, ps := RequestEntries(req), ResponseEntries(resp);
    Assoc(HostRewrites(req), RequestFilter(qs), ResponseFilter(ps));
  }

  /** Nothing else becomes a filter. */
  lemma OthersAreDropped(kind: string, body: Json, others: seq<Entry<Json>>)
    requires kind !in {"redirectScheme", "headers", "addPrefix", "replacePath", "stripPrefix"}
    ensures Translate(OfKind(kind, body, others)) == []
  {
    assert OfKind(kind, body, others).members[0] == Entry(kind, body);
  }

  lemma NonObjectsAreDropped(mw: Json)
    requires !mw.Object? || mw.members == []
    ensures Translate(mw) == []
  {}

  // ---- Lists of middlewares -----------------------------------------------------------------------------

  /** Middlewares are translated one by one, in the order the router names them. */
  lemma {:induction false} TranslatedInOrder(a: seq<string>, name: string, b: seq<string>, middlewares: map<string,
                                             Json>)
    ensures TranslateAll(a + [name] + b, middlewares) ==
            TranslateAll(a, middlewares)
            + (if name in middlewares then Translate(middlewares[name]) else [])
            + TranslateAll(b, middlewares)
    decreases a
  {
    var own := if name in middlewares then Translate(middlewares[name]) else [];
    if a == [] {
      assert [] + [name] + b == [name] + b;
      assert ([name] + b)[1..] == b;
      assert [] + own == own;
    } else {
      var whole := a + [name] + b;
      assert whole[0] == a[0] && whole[1..] == a[1..] + [name] + b;
      TranslatedInOrder(a[1..], name, b, middlewares);
      var first := if a[0] in middlewares then Translate(middlewares[a[0]]) else [];
      Assoc(first, TranslateAll(a[1..], middlewares) + own, TranslateAll(b, middlewares));
      Assoc(first, TranslateAll(a[1..], middlewares), own);
    }
  }
}
