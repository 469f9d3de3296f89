/** Rules as Traefik means them: an abstract syntax, its printed form and its meaning.
    What the parser accepts is exactly the supported fragment, and what it extracts
    means the same as the rule under an exact condition. */
module RuleGrammar {
  import opened Prelude
  import opened Objects
  import opened Text
  import opened Rule

  datatype Atom =
    | Host(hosts: seq<string>)
    | Path(value: string)
    | PathPrefix(value: string)
    | PathRegexp(value: string)
    | Other(name: string, args: seq<string>)

  datatype Ast = Leaf(atom: Atom) | And(l: Ast, r: Ast) | Or(l: Ast, r: Ast) | Not(inner: Ast) | Paren(inner: Ast)

  function Name(a: Atom): string {
    match a
    case Host(_) => "Host"
    case Path(_) => "Path"
    case PathPrefix(_) => "PathPrefix"
    case PathRegexp(_) => "PathRegexp"
    case Other(name, _) => name
  }

  function Args(a: Atom): seq<string> {
    match a
    case Host(hosts) => hosts
    case Path(v) => [v]
    case PathPrefix(v) => [v]
    case PathRegexp(v) => [v]
    case Other(_, args) => args
  }

  predicate IsIdent(s: string) {
    s != [] && IsAsciiAlpha(s[0]) && forall i :: 0 <= i < |s| ==> In(s[i], IdentChar)
  }

  /** Arguments contain no backtick; any other predicate has a name of its own. */
  predicate WellFormedAtom(a: Atom) {
    && (forall i :: 0 <= i < |Args(a)| ==> '`' !in Args(a)[i])
    && (a.Other? ==> IsIdent(a.name) && a.name !in {"Host", "Path", "PathPrefix", "PathRegexp"})
  }

  predicate WellFormed(r: Ast) {
    match r
    case Leaf(a) => WellFormedAtom(a)
    case And(x, y) => WellFormed(x) && WellFormed(y)
    case Or(x, y) => WellFormed(x) && WellFormed(y)
    case Not(x) => WellFormed(x)
    case Paren(x) => WellFormed(x)
  }

  function PrintArgs(args: seq<string>): string {
    if args == [] then ""
    else "`" + args[0] + "`" + (if |args| == 1 then "" else ", " + PrintArgs(args[1..]))
  }

  function PrintAtom(a: Atom): string {
    Name(a) + ("(" + (PrintArgs(Args(a)) + ")"))
  }

  function Print(r: Ast): string {
    match r
    case Leaf(a) => PrintAtom(a)
    case And(x, y) => Print(x) + (" && " + Print(y))
    case Or(x, y) => Print(x) + (" || " + Print(y))
    case Not(x) => "!" + Print(x)
    case Paren(x) => "(" + (Print(x) + ")")
  }

  /** A conjunction, without parentheses, of the four supported predicates. */
  predicate Supported(r: Ast) {
    match r
    case Leaf(a) => !a.Other?
    case And(x, y) => Supported(x) && Supported(y)
    case _ => false
  }

  // ---- The scan over printed text -------------------------------------------------

  predicate EndTick(tick: bool, s: string)
    decreases s
  {
    if s == [] then tick else EndTick(Flip(tick, s[0]), s[1..])
  }

  lemma {:induction false} ScanConcat(tick: bool, a: string, b: string)
    ensures EndTick(tick, a + b) == EndTick(EndTick(tick, a), b)
    ensures Disjunction(tick, a) || Disjunction(EndTick(tick, a), b) ==> Disjunction(tick, a + b)
    ensures Negation(tick, a + b) <==> Negation(tick, a) || Negation(EndTick(tick, a), b)
    decreases a
  {
    if a == [] {
      assert a + b == b;
    } else {
      assert (a + b)[0] == a[0] && (a + b)[1..] == a[1..] + b;
      ScanConcat(Flip(tick, a[0]), a[1..], b);
    }
  }

  /** No bar outside backticks at all. */
  predicate NoBars(tick: bool, s: string)
    decreases s
  {
    s == [] || (!(s[0] == '|' && !tick) && NoBars(Flip(tick, s[0]), s[1..]))
  }

  lemma {:induction false} NoBarsNoDisjunction(tick: bool, s: string)
    requires NoBars(tick, s)
    ensures !Disjunction(tick, s)
    decreases s
  {
    if s != [] { NoBarsNoDisjunction(Flip(tick, s[0]), s[1..]); }
  }

  lemma {:induction false} NoBarsConcat(tick: bool, a: string, b: string)
    ensures NoBars(tick, a + b) <==> NoBars(tick, a) && NoBars(EndTick(tick, a), b)
    decreases a
  {
    if a == [] {
      assert a + b == b;
    } else {
      assert (a + b)[0] == a[0] && (a + b)[1..] == a[1..] + b;
      NoBarsConcat(Flip(tick, a[0]), a[1..], b);
    }
  }

  /** A piece of text that opens and closes its own backticks and shows no operator. */
  predicate Quiet(s: string) {
    !EndTick(false, s) && NoBars(false, s) && !Negation(false, s)
  }

  lemma QuietConcat(a: string, b: string)
    requires Quiet(a) && Quiet(b)
    ensures Quiet(a + b)
  {
    ScanConcat(false, a, b);
    NoBarsConcat(false, a, b);
  }

  lemma {:induction false} PlainIsQuiet(s: string)
    requires forall i :: 0 <= i < |s| ==> s[i] != '`' && s[i] != '|' && s[i] != '!'
    ensures Quiet(s)
  {
    if s != [] {
      PlainIsQuiet(s[1..]);
    }
  }

  lemma {:induction false} InsideTicks(s: string)
    requires '`' !in s
    ensures EndTick(true, s + "`") == false && NoBars(true, s + "`") && !Negation(true, s + "`")
  {
    if s == [] {
      assert s + "`" == "`";
    } else {
      assert (s + "`")[0] == s[0] && (s + "`")[1..] == s[1..] + "`";
      InsideTicks(s[1..]);
    }
  }

  lemma QuotedIsQuiet(s: string)
    requires '`' !in s
    ensures Quiet("`" + s + "`")
  {
    InsideTicks(s);
    var q := "`" + s + "`";
    assert q[0] == '`' && q[1..] == s + "`";
  }

  lemma {:induction false} PrintArgsQuiet(args: seq<string>)
    requires forall i :: 0 <= i < |args| ==> '`' !in args[i]
    ensures Quiet(PrintArgs(args))
  {
    if args != [] {
      QuotedIsQuiet(args[0]);
      if |args| > 1 {
        PrintArgsQuiet(args[1..]);
        PlainIsQuiet(", ");
        QuietConcat(", ", PrintArgs(args[1..]));
        QuietConcat("`" + args[0] + "`", ", " + PrintArgs(args[1..]));
      } else {
        assert "`" + args[0] + "`" + "" == "`" + args[0] + "`";
      }
    }
  }

  lemma PrintAtomQuiet(a: Atom)
    requires WellFormedAtom(a)
    ensures Quiet(PrintAtom(a))
  {
    NameIsIdent(a);
    PlainIsQuiet(Name(a));
    PlainIsQuiet("(");
    PlainIsQuiet(")");
    PrintArgsQuiet(Args(a));
    QuietConcat(PrintArgs(Args(a)), ")");
    QuietConcat("(", PrintArgs(Args(a)) + ")");
    QuietConcat(Name(a), "(" + (PrintArgs(Args(a)) + ")"));
  }

  lemma NameIsIdent(a: Atom)
    requires WellFormedAtom(a)
    ensures IsIdent(Name(a))
  {
    if !a.Other? {
      var n := Name(a);
      assert forall i :: 0 <= i < |n| ==> IsAsciiAlpha(n[i]);
    }
  }

  predicate HasOr(r: Ast) {
    match r
    case Leaf(_) => false
    case And(x, y) => HasOr(x) || HasOr(y)
    case Or(_, _) => true
    case Not(x) => HasOr(x)
    case Paren(x) => HasOr(x)
  }

  predicate HasNot(r: Ast) {
    match r
    case Leaf(_) => false
    case And(x, y) => HasNot(x) || HasNot(y)
    case Or(x, y) => HasNot(x) || HasNot(y)
    case Not(_) => true
    case Paren(x) => HasNot(x)
  }

  /** The scan reports an operator exactly when the rule has one. */
  lemma {:induction false} ScanIsExact(r: Ast)
    requires WellFormed(r)
    ensures !EndTick(false, Print(r))
    ensures Negation(false, Print(r)) <==> HasNot(r)
    ensures HasOr(r) ==> Disjunction(false, Print(r))
    ensures !HasOr(r) ==> NoBars(false, Print(r))
  {
    match r {
      case Leaf(a) =>
        PrintAtomQuiet(a);
      case And(x, y) =>
        ScanIsExact(x);
        ScanIsExact(y);
        PlainIsQuiet(" && ");
        Joined(" && ", Print(x), Print(y));
      case Or(x, y) =>
        ScanIsExact(x);
        ScanIsExact(y);
        BarsAreSeen();
        Joined(" || ", Print(x), Print(y));
      case Not(x) =>
        ScanIsExact(x);
        var t := "!" + Print(x);
        assert t[0] == '!' && t[1..] == Print(x);
      case Paren(x) =>
        ScanIsExact(x);
        PlainIsQuiet("(");
        PlainIsQuiet(")");
        Joined(")", Print(x), "");
        assert ")" + "" == ")";
        var t := "(" + (Print(x) + ")");
        assert t[0] == '(' && t[1..] == Print(x) + ")";
    }
  }

  lemma BarsAreSeen()
    ensures !EndTick(false, " || ") && Disjunction(false, " || ") && !Negation(false, " || ")
  {
    var s := " || ";
    assert s[1..] == "|| " && s[1..][1..] == "| " && s[1..][1..][1..] == " " && s[1..][1..][1..][1..] == "";
    assert Disjunction(false, "|| ");
    assert !EndTick(false, s[1..]) && !Negation(false, s[1..]) by {
      assert !EndTick(false, " ") && !Negation(false, " ");
      assert !EndTick(false, "| ") && !Negation(false, "| ");
    }
  }

  lemma Joined(op: string, a: string, b: string)
    requires !EndTick(false, op) && !EndTick(false, a) && !EndTick(false, b) && !Negation(false, op)
    ensures !EndTick(false, a + (op + b))
    ensures Negation(false, a + (op + b)) <==> Negation(false, a) || Negation(false, b)
    ensures Disjunction(false, a) || Disjunction(false, op) || Disjunction(false, b) ==>
      Disjunction(false, a + (op + b))
    ensures NoBars(false, op) && NoBars(false, a) && NoBars(false, b) ==> NoBars(false, a + (op + b))
  {
    ScanConcat(false, op, b);
    ScanConcat(false, a, op + b);
    NoBarsConcat(false, op, b);
    NoBarsConcat(false, a, op + b);
  }

  // ---- The walk over printed text ---------------------------------------------------

  lemma {:induction false} TakenWhole(s: string, k: string, cls: CharClass)
    requires forall i :: 0 <= i < |s| ==> In(s[i], cls)
    requires k == [] || !In(k[0], cls)
    ensures Taken(s + k, cls) == s && Rest(s + k, cls) == k
  {
    if s == [] {
      assert s + k == k;
    } else {
      assert (s + k)[0] == s[0] && (s + k)[1..] == s[1..] + k;
      TakenWhole(s[1..], k, cls);
    }
  }

  lemma NextArgOfQuoted(arg: string, k: string)
    requires '`' !in arg
    ensures NextArg("`" + arg + "`" + k) == Arg(arg, k)
  {
    var t := "`" + arg + "`" + k;
    assert t[0] == '`' && t[1..] == arg + ("`" + k);
    assert Rest(t, Separator) == t;
    TakenWhole(arg, "`" + k, NotTick);
    assert ("`" + k)[1..] == k;
  }

  lemma SkipComma(k: string)
    ensures NextArg(", " + k) == NextArg(k)
  {
    var t := ", " + k;
    assert t[0] == ',' && t[1..] == " " + k && t[1..][0] == ' ' && t[1..][1..] == k;
    assert Rest(t, Separator) == Rest(k, Separator);
  }

  lemma ReadArgsSkipsComma(k: string)
    ensures ReadArgs(", " + k) == ReadArgs(k)
  {
    SkipComma(k);
  }

  lemma ReadArgsAtClose(k: string)
    ensures ReadArgs(")" + k) == ([], ")" + k)
  {
    assert (")" + k)[0] == ')';
    assert Rest(")" + k, Separator) == ")" + k;
  }

  lemma ReadArgsOfQuoted(arg: string, rest: string)
    requires '`' !in arg
    ensures ReadArgs("`" + arg + "`" + rest) == ([arg] + ReadArgs(rest).0, ReadArgs(rest).1)
  {
    NextArgOfQuoted(arg, rest);
  }

  lemma PrintedFirst(args: seq<string>, close: string)
    requires |args| > 1
    ensures PrintArgs(args) + close == "`" + args[0] + "`" + (", " + (PrintArgs(args[1..]) + close))
  {}

  lemma {:induction false} ReadArgsOfPrinted(args: seq<string>, k: string)
    requires forall i :: 0 <= i < |args| ==> '`' !in args[i]
    ensures ReadArgs(PrintArgs(args) + (")" + k)) == (args, ")" + k)
    decreases args
  {
    var close := ")" + k;
    ReadArgsAtClose(k);
    if args == [] {
      assert PrintArgs(args) + close == close;
    } else if |args| == 1 {
      assert PrintArgs(args) + close == "`" + args[0] + "`" + close;
      ReadArgsOfQuoted(args[0], close);
      assert [args[0]] + [] == args;
    } else {
      var more := ", " + (PrintArgs(args[1..]) + close);
      PrintedFirst(args, close);
      ReadArgsOfQuoted(args[0], more);
      ReadArgsSkipsComma(PrintArgs(args[1..]) + close);
      ReadArgsOfPrinted(args[1..], k);
      assert [args[0]] + args[1..] == args;
    }
  }

  lemma NextPredicateOfAtom(a: Atom, k: string)
    requires WellFormedAtom(a)
    ensures NextPredicate(PrintAtom(a) + k) == Predicate(Name(a), Args(a), k)
  {
    NameIsIdent(a);
    var u := "(" + (PrintArgs(Args(a)) + (")" + k));
    var t := Name(a) + u;
    assert PrintAtom(a) + k == t;
    assert t[0] == Name(a)[0];
    assert Rest(t, Connector) == t;
    TakenWhole(Name(a), u, IdentChar);
    assert u[0] == '(' && u[1..] == PrintArgs(Args(a)) + (")" + k);
    assert Rest(u, Blank) == u;
    ReadArgsOfPrinted(Args(a), k);
    assert DropClose(")" + k) == k;
  }

  /** No disjunction, negation or parentheses. */
  predicate Flat(r: Ast) {
    match r
    case Leaf(_) => true
    case And(x, y) => Flat(x) && Flat(y)
    case _ => false
  }

  function Calls(r: Ast): seq<Token> {
    match r
    case Leaf(a) => [Call(Name(a), Args(a))]
    case And(x, y) => Calls(x) + Calls(y)
    case _ => []
  }

  lemma {:induction false} RestSkips(s: string, k: string)
    requires forall i :: 0 <= i < |s| ==> In(s[i], Connector)
    ensures Rest(s + k, Connector) == Rest(k, Connector)
  {
    if s == [] {
      assert s + k == k;
    } else {
      assert (s + k)[0] == s[0] && (s + k)[1..] == s[1..] + k;
      RestSkips(s[1..], k);
    }
  }

  lemma TokensSkipAnd(k: string)
    ensures Tokens(" && " + k) == Tokens(k)
  {
    RestSkips(" && ", k);
    assert NextPredicate(" && " + k) == NextPredicate(k);
  }

  lemma PrintAnd(x: Ast, y: Ast, k: string)
    ensures Print(And(x, y)) + k == Print(x) + (" && " + (Print(y) + k))
  {}

  lemma {:induction false} TokensOfFlat(r: Ast, k: string)
    requires WellFormed(r) && Flat(r)
    ensures Tokens(Print(r) + k) == Calls(r) + Tokens(k)
  {
    match r {
      case Leaf(a) =>
        NextPredicateOfAtom(a, k);
      case And(x, y) =>
        var tail := Print(y) + k;
        PrintAnd(x, y, k);
        TokensOfFlat(x, " && " + tail);
        TokensSkipAnd(tail);
        TokensOfFlat(y, k);
        Assoc(Calls(x), Calls(y), Tokens(k));
    }
  }

  predicate HasJunk(ts: seq<Token>) {
    exists i :: 0 <= i < |ts| && ts[i].Junk?
  }

  lemma JunkAppended(ts: seq<Token>, us: seq<Token>)
    requires HasJunk(us)
    ensures HasJunk(ts + us)
  {
    var i :| 0 <= i < |us| && us[i].Junk?;
    assert (ts + us)[|ts| + i] == us[i];
  }

  /** Parentheses are noticed wherever they stand in a conjunction. */
  lemma {:induction false} ParensAreJunk(r: Ast, k: string)
    requires WellFormed(r) && !HasOr(r) && !HasNot(r) && !Flat(r)
    ensures HasJunk(Tokens(Print(r) + k))
  {
    match r {
      case Paren(x) =>
        var t := Print(r) + k;
        assert t[0] == '(';
        assert Rest(t, Connector) == t;
        assert NextPredicate(t) == Bad(UnparseableToken('('));
        assert Tokens(t)[0].Junk?;
      case And(x, y) =>
        assert Print(r) + k == Print(x) + (" && " + (Print(y) + k));
        if Flat(x) {
          TokensOfFlat(x, " && " + (Print(y) + k));
          TokensSkipAnd(Print(y) + k);
          ParensAreJunk(y, k);
          JunkAppended(Calls(x), Tokens(Print(y) + k));
        } else {
          ParensAreJunk(x, " && " + (Print(y) + k));
        }
    }
  }

  // ---- What the handled tokens add up to --------------------------------------------

  predicate Rejected(out: ParsedRule) {
    out.unsupported != [] || out.hostRegexp
  }

  predicate PathName(ident: string) {
    ident == "Path" || ident == "PathPrefix" || ident == "PathRegexp"
  }

  predicate Acceptable(t: Token) {
    t.Call? && (t.ident == "Host" || PathName(t.ident))
  }

  function TokenHosts(t: Token): seq<string> {
    if t.Call? && t.ident == "Host" then t.args else []
  }

  function TokenPath(t: Token): Option<PathMatch> {
    if t.Call? && PathName(t.ident) && t.args != [] then
      Some(PathMatch(if t.ident == "Path" then Exact else if t.ident == "PathPrefix" then Prefix else Regex, t.args[0]))
    else None
  }

  /** What handling a token did: rejected it or not, and the hosts and path it brought. */
  predicate Extends(out: ParsedRule, o: ParsedRule, ok: bool, hosts: seq<string>, path: Option<PathMatch>) {
    && (Rejected(o) <==> Rejected(out) || !ok)
    && o.hasDisjunction == out.hasDisjunction && o.hasNegation == out.hasNegation
    && o.hosts == out.hosts + hosts
    && o.path == if path.None? then out.path else Some(Normalized(path.value))
  }

  lemma ExtendsTransitive(a: ParsedRule, b: ParsedRule, c: ParsedRule, ok: bool, hosts: seq<string>,
                          path: Option<PathMatch>,
                          ok': bool, hosts': seq<string>, path': Option<PathMatch>)
    requires Extends(a, b, ok, hosts, path) && Extends(b, c, ok', hosts', path')
    ensures Extends(a, c, ok && ok', hosts + hosts', if path'.Some? then path' else path)
  {
    Assoc(a.hosts, hosts, hosts');
  }

  lemma PathOutcome(out: ParsedRule, ident: string, args: seq<string>)
    requires PathName(ident)
    ensures Extends(out, HandlePredicate(out, ident, args), true, [], TokenPath(Call(ident, args)))
  {
    assert "Path" != "HostRegexp" && "PathPrefix" != "HostRegexp" && "PathRegexp" != "HostRegexp";
    assert "Path" != "Host" && "PathPrefix" != "Host" && "PathRegexp" != "Host";
    assert out.hosts + [] == out.hosts;
  }

  lemma OtherOutcome(out: ParsedRule, ident: string, args: seq<string>)
    requires ident != "Host" && !PathName(ident)
    ensures Extends(out, HandlePredicate(out, ident, args), false, [], None)
  {
    assert out.hosts + [] == out.hosts;
  }

  lemma HandleOutcome(out: ParsedRule, t: Token)
    ensures Extends(out, Handle(out, t), Acceptable(t), TokenHosts(t), TokenPath(t))
  {
    if t.Junk? {
      assert out.hosts + [] == out.hosts;
    } else if PathName(t.ident) {
      PathOutcome(out, t.ident, t.args);
      assert "Path" != "Host" && "PathPrefix" != "Host" && "PathRegexp" != "Host";
    } else if t.ident != "Host" {
      OtherOutcome(out, t.ident, t.args);
    }
  }

  lemma {:induction false} JunkIsRejected(out: ParsedRule, ts: seq<Token>)
    requires Rejected(out) || HasJunk(ts)
    ensures Rejected(HandleAll(out, ts))
    decreases ts
  {
    if ts != [] {
      HandleOutcome(out, ts[0]);
      if !Rejected(out) && !ts[0].Junk? {
        var i :| 0 <= i < |ts| && ts[i].Junk?;
        assert ts[1..][i - 1].Junk?;
      }
      JunkIsRejected(Handle(out, ts[0]), ts[1..]);
    }
  }

  lemma {:induction false} HandleAllConcat(out: ParsedRule, ts: seq<Token>, us: seq<Token>)
    ensures HandleAll(out, ts + us) == HandleAll(HandleAll(out, ts), us)
    decreases ts
  {
    if ts == [] {
      assert ts + us == us;
    } else {
      assert (ts + us)[0] == ts[0] && (ts + us)[1..] == ts[1..] + us;
      HandleAllConcat(Handle(out, ts[0]), ts[1..], us);
    }
  }

  lemma CallOfAtom(a: Atom)
    requires WellFormedAtom(a)
    ensures var t := Call(Name(a), Args(a));
      && (Acceptable(t) <==> !a.Other?)
      && TokenHosts(t) == Hosts(Leaf(a))
      && TokenPath(t) == if Paths(Leaf(a)) == [] then None else Some(Paths(Leaf(a))[0])
  {
    match a {
      case Host(_) =>
      case Path(_) => assert "Path" != "Host";
      case PathPrefix(_) => assert "PathPrefix" != "Host" && "PathPrefix" != "Path";
      case PathRegexp(_) => assert "PathRegexp" != "Host" && "PathRegexp" != "Path" && "PathRegexp" != "PathPrefix";
      case Other(_, _) =>
    }
  }

  function LastPath(r: Ast): Option<PathMatch> {
    if Paths(r) == [] then None else Some(Paths(r)[|Paths(r)| - 1])
  }

  lemma HandleLeaf(a: Atom, out: ParsedRule)
    requires WellFormedAtom(a)
    ensures Extends(out, HandleAll(out, Calls(Leaf(a))), !a.Other?, Hosts(Leaf(a)), LastPath(Leaf(a)))
  {
    var t := Call(Name(a), Args(a));
    CallOfAtom(a);
    HandleOutcome(out, t);
    assert [t][1..] == [];
    assert HandleAll(out, [t]) == Handle(out, t);
  }

  lemma {:induction false} HandleCalls(r: Ast, out: ParsedRule)
    requires WellFormed(r) && Flat(r)
    ensures Extends(out, HandleAll(out, Calls(r)), Supported(r), Hosts(r), LastPath(r))
  {
    match r {
      case Leaf(a) =>
        HandleLeaf(a, out);
      case And(x, y) =>
        var mid := HandleAll(out, Calls(x));
        HandleAllConcat(out, Calls(x), Calls(y));
        HandleCalls(x, out);
        HandleCalls(y, mid);
        ExtendsTransitive(out, mid, HandleAll(mid, Calls(y)), Supported(x), Hosts(x), LastPath(x), Supported(y),
                          Hosts(y), LastPath(y));
    }
  }

  /** The Host arguments, and the path predicates as written, in order. */
  function Hosts(r: Ast): seq<string> {
    match r
    case Leaf(a) => if a.Host? then a.hosts else []
    case And(x, y) => Hosts(x) + Hosts(y)
    case _ => []
  }

  function Paths(r: Ast): seq<PathMatch> {
    match r
    case Leaf(Path(v)) => [PathMatch(Exact, v)]
    case Leaf(PathPrefix(v)) => [PathMatch(Prefix, v)]
    case Leaf(PathRegexp(v)) => [PathMatch(Regex, v)]
    case Leaf(_) => []
    case And(x, y) => Paths(x) + Paths(y)
    case _ => []
  }

  function Normalized(p: PathMatch): PathMatch {
    if p.kind.Regex? then p else p.(value := NormalizePath(p.value))
  }

  /** Main result: for every rule, its printed text is usable exactly when the rule is
      a parenthesis-free conjunction of the four supported predicates with a host; then
      the hosts are all the Host arguments and the path is the last path predicate. */
  lemma ParserAcceptsExactlySupported(r: Ast)
    requires WellFormed(r)
    ensures IsUsable(ParseSpec(Print(r))) <==> Supported(r) && Hosts(r) != []
    ensures Supported(r) ==>
      && ParseSpec(Print(r)).hosts == Hosts(r)
      && ParseSpec(Print(r)).path == if Paths(r) == [] then None else Some(Normalized(Paths(r)[|Paths(r)| - 1]))
  {
    var text := Print(r);
    var start := EMPTY_RULE.(hasDisjunction := Disjunction(false, text), hasNegation := Negation(false, text));
    ScanIsExact(r);
    SupportedIsFlat(r);
    assert text + [] == text;
    assert Tokens([]) == [];
    HandleAllKeepsFlags(start, Tokens(text));
    if !HasOr(r) && !HasNot(r) {
      if Flat(r) {
        NoBarsNoDisjunction(false, text);
        TokensOfFlat(r, []);
        assert Calls(r) + [] == Calls(r);
        HandleCalls(r, start);
      } else {
        ParensAreJunk(r, []);
        JunkIsRejected(start, Tokens(text));
      }
    }
  }

  lemma {:induction false} SupportedIsFlat(r: Ast)
    ensures Supported(r) ==> Flat(r)
    ensures Flat(r) ==> !HasOr(r) && !HasNot(r)
  {
    if r.And? {
      SupportedIsFlat(r.l);
      SupportedIsFlat(r.r);
    }
  }

  lemma {:induction false} HandleAllKeepsFlags(out: ParsedRule, ts: seq<Token>)
    ensures HandleAll(out, ts).hasDisjunction == out.hasDisjunction
    ensures HandleAll(out, ts).hasNegation == out.hasNegation
    decreases ts
  {
    if ts != [] {
      HandleOutcome(out, ts[0]);
      HandleAllKeepsFlags(Handle(out, ts[0]), ts[1..]);
    }
  }

  // ---- Meaning ------------------------------------------------------------------------

  /** How a path predicate matches a request path is left open. */
  type PathMatcher = (PathMatch, string) -> bool

  /** What a supported rule says about a request. */
  predicate Matches(r: Ast, host: string, path: string, m: PathMatcher)
    requires Supported(r)
  {
    match r
    case Leaf(Host(hosts)) => host in hosts
    case Leaf(Path(v)) => m(PathMatch(Exact, v), path)
    case Leaf(PathPrefix(v)) => m(PathMatch(Prefix, v), path)
    case Leaf(PathRegexp(v)) => m(PathMatch(Regex, v), path)
    case And(x, y) => Matches(x, host, path, m) && Matches(y, host, path, m)
  }

  /** What the emitted HTTPRoute says: one of the hostnames, and the one path match. */
  predicate RouteMatches(p: ParsedRule, host: string, path: string, m: PathMatcher) {
    host in p.hosts && (p.path.Some? ==> m(p.path.value, path))
  }

  /** Every Host predicate of the rule. */
  function HostLists(r: Ast): seq<seq<string>> {
    match r
    case Leaf(a) => if a.Host? then [a.hosts] else []
    case And(x, y) => HostLists(x) + HostLists(y)
    case _ => []
  }

  lemma {:induction false} MatchesAll(r: Ast, host: string, path: string, m: PathMatcher)
    requires Supported(r)
    ensures Matches(r, host, path, m) <==>
            (forall hs :: hs in HostLists(r) ==> host in hs) && (forall p :: p in Paths(r) ==> m(p, path))
  {
    if r.And? {
      MatchesAll(r.l, host, path, m);
      MatchesAll(r.r, host, path, m);
      assert forall hs :: hs in HostLists(r) <==> hs in HostLists(r.l) || hs in HostLists(r.r);
      assert forall p :: p in Paths(r) <==> p in Paths(r.l) || p in Paths(r.r);
    } else {
      assert forall hs :: hs in HostLists(r) ==> hs == HostLists(r)[0];
      assert forall p :: p in Paths(r) ==> p == Paths(r)[0];
      if r.atom.Host? { assert r.atom.hosts in HostLists(r); }
      else { assert Paths(r)[0] in Paths(r); }
    }
  }

  lemma {:induction false} HostsAreListed(r: Ast, host: string)
    requires Supported(r)
    ensures host in Hosts(r) <==> exists hs :: hs in HostLists(r) && host in hs
  {
    if r.And? {
      HostsAreListed(r.l, host);
      HostsAreListed(r.r, host);
    } else if r.atom.Host? {
      assert HostLists(r)[0] == r.atom.hosts;
    }
  }

  /** All Host predicates list the same hosts, and all path predicates are one and the
      same, starting with a slash unless it is a regular expression. */
  predicate Translatable(r: Ast) {
    && (forall hs :: hs in HostLists(r) ==> forall h :: h in Hosts(r) ==> h in hs)
    && (forall p :: p in Paths(r) ==> p == Paths(r)[|Paths(r)| - 1] && Normalized(p) == p)
  }

  /** Main result: the route means what the rule means, for every request and every way
      of matching paths, exactly when the rule is `Translatable`. */
  lemma MeaningPreservedIff(r: Ast)
    requires WellFormed(r) && Supported(r) && Hosts(r) != []
    ensures (forall host, path, m: PathMatcher ::
              RouteMatches(ParseSpec(Print(r)), host, path, m) == Matches(r, host, path, m)) <==> Translatable(r)
  {
    ParserAcceptsExactlySupported(r);
    if Translatable(r) {
      forall host, path, m: PathMatcher
        ensures RouteMatches(ParseSpec(Print(r)), host, path, m) == Matches(r, host, path, m)
      {
        TranslatableMeansSame(r, host, path, m);
      }
    } else if forall host, path, m: PathMatcher ::
                RouteMatches(ParseSpec(Print(r)), host, path, m) == Matches(r, host, path, m) {
      var _, _, _ := UntranslatableDiffers(r);
      assert false;
    }
  }

  lemma TranslatableMeansSame(r: Ast, host: string, path: string, m: PathMatcher)
    requires WellFormed(r) && Supported(r) && Hosts(r) != [] && Translatable(r)
    ensures RouteMatches(ParseSpec(Print(r)), host, path, m) == Matches(r, host, path, m)
  {
    EmittedMatches(r, host, path, m);
    MatchesAll(r, host, path, m);
    HostsAreListed(r, host);
    HostsAreListed(r, Hosts(r)[0]);
    if Paths(r) != [] {
      assert Paths(r)[|Paths(r)| - 1] in Paths(r);
    }
  }

  /** A request on which rule and route disagree. */
  lemma UntranslatableDiffers(r: Ast) returns (host: string, path: string, m: PathMatcher)
    requires WellFormed(r) && Supported(r) && Hosts(r) != [] && !Translatable(r)
    ensures RouteMatches(ParseSpec(Print(r)), host, path, m) && !Matches(r, host, path, m)
  {
    if hs, h :| hs in HostLists(r) && h in Hosts(r) && h !in hs {
      host, path, m := h, "", (p, x) => true;
    } else {
      var p :| p in Paths(r) && !(p == Paths(r)[|Paths(r)| - 1] && Normalized(p) == p);
      var sent, kept := OddPath(Paths(r), p);
      host, path, m := Hosts(r)[0], "", (q, x) => q == sent;
      assert !m(kept, path);
    }
    EmittedMatches(r, host, path, m);
    MatchesAll(r, host, path, m);
  }

  lemma EmittedMatches(r: Ast, host: string, path: string, m: PathMatcher)
    requires WellFormed(r) && Supported(r) && Hosts(r) != []
    ensures RouteMatches(ParseSpec(Print(r)), host, path, m) <==>
            host in Hosts(r) && (Paths(r) != [] ==> m(Normalized(Paths(r)[|Paths(r)| - 1]), path))
  {
    ParserAcceptsExactlySupported(r);
  }

  /** Some path predicate is not the path match that is sent. */
  lemma OddPath(ps: seq<PathMatch>, p: PathMatch) returns (sent: PathMatch, kept: PathMatch)
    requires p in ps && !(p == ps[|ps| - 1] && Normalized(p) == p)
    ensures sent == Normalized(ps[|ps| - 1]) && kept in ps && kept != sent
  {
    var last := ps[|ps| - 1];
    sent := Normalized(last);
    kept := if p == sent then last else p;
    assert NormalizePath(NormalizePath(last.value)) == NormalizePath(last.value);
  }

  /** The documented case: one Host predicate and at most one path starting with a slash. */
  lemma OneHostOnePathIsTranslatable(r: Ast)
    requires Supported(r) && |HostLists(r)| == 1 && |Paths(r)| <= 1
    requires forall p :: p in Paths(r) ==> p.kind.Regex? || (p.value != [] && p.value[0] == '/')
    ensures Translatable(r)
  {
    forall hs, h | hs in HostLists(r) && h in Hosts(r) ensures h in hs {
      HostsAreListed(r, h);
      var other :| other in HostLists(r) && h in other;
      assert other == HostLists(r)[0] && hs == HostLists(r)[0];
    }
    var ps := Paths(r);
    forall p | p in ps ensures p == ps[|ps| - 1] && Normalized(p) == p {
      assert p == ps[0];
    }
  }

  // ---- Arguments as rules may write them ------------------------------------------------------------

  /** Blanks and commas before an argument do not matter. */
  lemma SeparatorsSkip(sep: string, s: string)
    requires forall i :: 0 <= i < |sep| ==> IsWhitespace(sep[i]) || sep[i] == ','
    ensures NextArg(sep + s) == NextArg(s)
  {
    SeparatorsRest(sep, s);
  }

  lemma {:induction false} SeparatorsRest(sep: string, s: string)
    requires forall i :: 0 <= i < |sep| ==> IsWhitespace(sep[i]) || sep[i] == ','
    ensures Rest(sep + s, Separator) == Rest(s, Separator)
  {
    if sep == [] {
      assert sep + s == s;
    } else {
      assert (sep + s)[0] == sep[0] && (sep + s)[1..] == sep[1..] + s;
      SeparatorsRest(sep[1..], s);
    }
  }

  /** An argument without backticks runs to the next comma or closing parenthesis, trimmed. */
  lemma BareArgument(t: string, k: string)
    requires t != [] && !IsWhitespace(t[0]) && t[0] != '`'
    requires forall i :: 0 <= i < |t| ==> t[i] != ',' && t[i] != ')'
    requires k == [] || k[0] == ',' || k[0] == ')'
    ensures NextArg(t + k) == Arg(Trim(t), k)
  {
    TakenWhole(t, k, BareToken);
    assert (t + k)[0] == t[0];
    assert Rest(t + k, Separator) == t + k;
  }

  /** A closing parenthesis ends the arguments, and so does the end of the text. */
  lemma ArgumentsEnd(k: string)
    requires k == [] || k[0] == ')'
    ensures NextArg(k) == NoMore(k)
  {}

  /** An argument in backticks that are never closed runs to the end. */
  lemma UnclosedArgument(t: string)
    requires '`' !in t
    ensures NextArg("`" + t) == Arg(t, "")
  {
    assert ("`" + t)[1..] == t && t + [] == t;
    TakenWhole(t, [], NotTick);
  }

  // ---- Predicates and connectors as rules may write them --------------------------------------------

  /** Blanks, ampersands and bars between predicates do not matter to the walk. */
  lemma ConnectorsSkip(sep: string, k: string)
    requires forall i :: 0 <= i < |sep| ==> IsWhitespace(sep[i]) || sep[i] == '&' || sep[i] == '|'
    ensures Tokens(sep + k) == Tokens(k)
  {
    RestSkips(sep, k);
    assert NextPredicate(sep + k) == NextPredicate(k);
  }

  /** A letter, then letters, digits and underscores. */
  predicate IsName(s: string) {
    s != [] && IsAsciiAlpha(s[0]) && forall i :: 0 <= i < |s| ==> IsAsciiAlpha(s[i]) || IsDigit(s[i]) || s[i] == '_'
  }

  lemma NameThenBlanks(name: string, blanks: string, k: string)
    requires IsName(name) && IsBlankText(blanks)
    requires k == [] || !(IsAsciiAlpha(k[0]) || IsDigit(k[0]) || k[0] == '_' || IsWhitespace(k[0]))
    ensures var t := name + (blanks + k);
      && Rest(t, Connector) == t && Taken(t, IdentChar) == name && Rest(Rest(t, IdentChar), Blank) == k
  {
    var t := name + (blanks + k);
    assert t[0] == name[0];
    BlanksAreNoName();
    assert blanks + k == [] || !In((blanks + k)[0], IdentChar) by {
      if blanks != [] { assert (blanks + k)[0] == blanks[0]; } else { assert blanks + k == k; }
    }
    TakenWhole(name, blanks + k, IdentChar);
    TakenWhole(blanks, k, Blank);
  }

  lemma BlanksAreNoName()
    ensures forall c :: IsWhitespace(c) ==> !(IsAsciiAlpha(c) || IsDigit(c) || c == '_')
  {}

  /** A name, blanks and an opening parenthesis begin a predicate; its arguments follow, and a
      closing parenthesis if there is one. */
  lemma PredicateIsRead(name: string, blanks: string, rest: string, k: string)
    requires IsName(name) && IsBlankText(blanks)
    requires ReadArgs(rest).1 == ")" + k || (ReadArgs(rest).1 == k && (k == [] || k[0] != ')'))
    ensures NextPredicate(name + (blanks + ("(" + rest))) == Predicate(name, ReadArgs(rest).0, k)
  {
    NameThenBlanks(name, blanks, "(" + rest);
    assert ("(" + rest)[1..] == rest && (")" + k)[1..] == k;
  }

  /** A name without one ends the walk, and so does anything that is no name. */
  lemma WalkEnds(name: string, blanks: string, k: string)
    requires IsName(name) && IsBlankText(blanks)
    requires k == [] || !(IsAsciiAlpha(k[0]) || IsDigit(k[0]) || k[0] == '_' || IsWhitespace(k[0]) || k[0] == '(')
    ensures NextPredicate(name + (blanks + k)) == Bad(MissingArguments(name))
    ensures k != [] && k[0] != '&' && k[0] != '|' ==> NextPredicate(k) == Bad(UnparseableToken(k[0]))
  {
    NameThenBlanks(name, blanks, k);
    if k != [] && k[0] != '&' && k[0] != '|' { assert Rest(k, Connector) == k; }
  }

  /** Is the text read so far inside backticks? */
  function Inside(tick: bool, s: string): bool
    decreases s
  {
    if s == [] then tick else Inside(Flip(tick, s[0]), s[1..])
  }

  function TickCount(s: string): nat {
    if s == [] then 0 else (if s[0] == '`' then 1 else 0) + TickCount(s[1..])
  }

  lemma {:induction false} InsideIsOdd(tick: bool, s: string)
    ensures Inside(tick, s) <==> (TickCount(s) % 2 == 1) != tick
    decreases s
  {
    if s != [] { InsideIsOdd(Flip(tick, s[0]), s[1..]); }
  }

  /** Does this mark stand at `i`, behind an even number of backticks? */
  predicate StandsOutside(s: string, i: int, mark: string) {
    0 <= i <= |s| && mark <= s[i..] && TickCount(s[..i]) % 2 == 0
  }

  predicate FoundAt(tick: bool, s: string, i: int, mark: string) {
    0 <= i <= |s| && mark <= s[i..] && !Inside(tick, s[..i])
  }

  lemma FoundShifts(tick: bool, s: string, i: nat, mark: string)
    requires s != []
    ensures FoundAt(tick, s, i + 1, mark) <==> FoundAt(Flip(tick, s[0]), s[1..], i, mark)
  {
    if i < |s| {
      assert s[1..][i..] == s[i + 1..];
      assert s[..i + 1][0] == s[0] && s[..i + 1][1..] == s[1..][..i];
    }
  }

  lemma {:induction false} ScanFinds(tick: bool, s: string)
    ensures Disjunction(tick, s) <==> exists i :: FoundAt(tick, s, i, "||")
    ensures Negation(tick, s) <==> exists i :: FoundAt(tick, s, i, "!")
    decreases s
  {
    if s != [] {
      var tick' := Flip(tick, s[0]);
      ScanFinds(tick', s[1..]);
      forall mark | mark == "||" || mark == "!"
        ensures (exists i :: FoundAt(tick, s, i, mark)) <==>
                FoundAt(tick, s, 0, mark) || exists i :: FoundAt(tick', s[1..], i, mark)
      {
        if i :| FoundAt(tick', s[1..], i, mark) {
          FoundShifts(tick, s, i, mark);
        }
        if i :| FoundAt(tick, s, i, mark) {
          if i > 0 {
            FoundShifts(tick, s, i - 1, mark);
            assert FoundAt(tick', s[1..], i - 1, mark);
          }
        }
      }
      assert s[0..] == s && s[..0] == [];
      assert FoundAt(tick, s, 0, "||") <==> s[0] == '|' && !tick && |s| > 1 && s[1] == '|';
      assert FoundAt(tick, s, 0, "!") <==> s[0] == '!' && !tick;
    }
  }

  /** Main result: the first pass flags a text exactly where two bars, or an exclamation mark,
      stand behind an even number of backticks. */
  lemma FlagsExactly(s: string)
    ensures ParseSpec(s).hasDisjunction <==> exists i :: StandsOutside(s, i, "||")
    ensures ParseSpec(s).hasNegation <==> exists i :: StandsOutside(s, i, "!")
  {
    ScanFinds(false, s);
    HandleAllKeepsFlags(EMPTY_RULE.(hasDisjunction := Disjunction(false, s), hasNegation := Negation(false, s)),
                        Tokens(s));
    forall i, mark | 0 <= i <= |s| ensures FoundAt(false, s, i, mark) <==> StandsOutside(s, i, mark) {
      InsideIsOdd(false, s[..i]);
    }
  }

  /** Of the predicates walked over, `HostRegexp` is flagged, and it alone. */
  lemma {:induction false} RegexpFlagged(out: ParsedRule, ts: seq<Token>)
    ensures HandleAll(out, ts).hostRegexp <==>
            out.hostRegexp || exists i :: 0 <= i < |ts| && ts[i].Call? && ts[i].ident == "HostRegexp"
    decreases ts
  {
    if ts != [] {
      RegexpFlaggedOnce(out, ts[0]);
      RegexpFlagged(Handle(out, ts[0]), ts[1..]);
      assert forall i :: 0 <= i < |ts| - 1 ==> ts[1..][i] == ts[i + 1];
      if i :| 0 <= i < |ts| && ts[i].Call? && ts[i].ident == "HostRegexp" {
        if i > 0 { assert ts[1..][i - 1] == ts[i]; }
      }
    }
  }

  lemma RegexpFlaggedOnce(out: ParsedRule, t: Token)
    ensures Handle(out, t).hostRegexp <==> out.hostRegexp || (t.Call? && t.ident == "HostRegexp")
  {
    assert "HostRegexp" != "Host";
  }
}
