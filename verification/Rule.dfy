/** The hand-written parser for router rules: a scan for `||` and `!` outside
    backticks, and a separate walk over predicates. */
module Rule {
  import opened Prelude
  import opened Objects
  import opened Text

  /** Why the walk could not take something. */
  datatype Unsupported = UnparseableToken(c: char) | MissingArguments(ident: string) | UnknownPredicate(name: string)

  datatype ParsedRule = ParsedRule(
    hosts: seq<string>,
    path: Option<PathMatch>,
    hostRegexp: bool,
    unsupported: seq<Unsupported>,
    hasDisjunction: bool,
    hasNegation: bool)

  const EMPTY_RULE := ParsedRule([], None, false, [], false, false)

  predicate IsUsable(r: ParsedRule) {
    !r.hasDisjunction && !r.hasNegation && !r.hostRegexp && r.unsupported == [] && r.hosts != []
  }

  // ---- What the scan finds -----------------------------------------------------

  predicate Flip(tick: bool, c: char) {
    if c == '`' then !tick else tick
  }

  /** Is there a `||` outside backticks? */
  predicate Disjunction(tick: bool, s: string)
    decreases s
  {
    s != [] && ((s[0] == '|' && !tick && |s| > 1 && s[1] == '|') || Disjunction(Flip(tick, s[0]), s[1..]))
  }

  /** Is there a `!` outside backticks? */
  predicate Negation(tick: bool, s: string)
    decreases s
  {
    s != [] && ((s[0] == '!' && !tick) || Negation(Flip(tick, s[0]), s[1..]))
  }

  // ---- What the walk reads -------------------------------------------------------

  /** The character classes the walk skips or collects. */
  datatype CharClass = Connector | IdentChar | Blank | Separator | NotTick | BareToken

  predicate In(c: char, cls: CharClass) {
    match cls
    case Connector => IsWhitespace(c) || c == '&' || c == '|'
    case IdentChar => IsAsciiAlpha(c) || IsDigit(c) || c == '_'
    case Blank => IsWhitespace(c)
    case Separator => IsWhitespace(c) || c == ','
    case NotTick => c != '`'
    case BareToken => c != ',' && c != ')'
  }

  /** The longest prefix within a class. */
  function Taken(s: string, cls: CharClass): string {
    if s != [] && In(s[0], cls) then [s[0]] + Taken(s[1..], cls) else []
  }

  /** What follows that prefix. */
  function Rest(s: string, cls: CharClass): (r: string)
    ensures |r| <= |s|
  {
    if s != [] && In(s[0], cls) then Rest(s[1..], cls) else s
  }

  datatype ArgStep = NoMore(rest: string) | Arg(value: string, rest: string)

  /** The next argument: backticked text, or a bare token up to a comma or parenthesis. */
  function NextArg(s: string): (r: ArgStep)
    ensures |r.rest| <= |s|
    ensures r.Arg? ==> |r.rest| < |s|
  {
    var t := Rest(s, Separator);
    if t == [] || t[0] == ')' then NoMore(t)
    else if t[0] == '`' then
      var rest := Rest(t[1..], NotTick);
      Arg(Taken(t[1..], NotTick), if rest != [] then rest[1..] else rest)
    else Arg(Trim(Taken(t, BareToken)), Rest(t, BareToken))
  }

  /** Arguments up to the closing parenthesis, and the text from there on. */
  function ReadArgs(s: string): (r: (seq<string>, string))
    ensures |r.1| <= |s|
    decreases |s|
  {
    match NextArg(s)
    case NoMore(rest) => ([], rest)
    case Arg(value, rest) => var r := ReadArgs(rest); ([value] + r.0, r.1)
  }

  function NormalizePath(p: string): string {
    if p != [] && p[0] == '/' then p else "/" + p
  }

  function HandlePredicate(out: ParsedRule, ident: string, args: seq<string>): ParsedRule {
    if ident == "Host" then out.(hosts := out.hosts + args)
    else if ident == "HostRegexp" then out.(hostRegexp := true)
    else if ident == "PathPrefix" then
      if args == [] then out else out.(path := Some(PathMatch(Prefix, NormalizePath(args[0]))))
    else if ident == "Path" then
      if args == [] then out else out.(path := Some(PathMatch(Exact, NormalizePath(args[0]))))
    else if ident == "PathRegexp" then
      if args == [] then out else out.(path := Some(PathMatch(Regex, args[0])))
    else out.(unsupported := out.unsupported + [UnknownPredicate(ident)])
  }

  datatype WalkStep = End | Bad(reason: Unsupported) | Predicate(ident: string, args: seq<string>, rest: string)

  /** The text without the closing parenthesis it may start with. */
  function DropClose(s: string): string {
    if s != [] && s[0] == ')' then s[1..] else s
  }

  /** What follows the first letter of a predicate at the start of `t`. */
  function PredicateAt(t: string): (r: WalkStep)
    requires t != [] && In(t[0], IdentChar)
    ensures r.Predicate? ==> |r.rest| < |t|
  {
    var u := Rest(Rest(t, IdentChar), Blank);
    if u == [] || u[0] != '(' then Bad(MissingArguments(Taken(t, IdentChar)))
    else
      var r := ReadArgs(u[1..]);
      Predicate(Taken(t, IdentChar), r.0, DropClose(r.1))
  }

  /** The next `Ident(args)`, after any connectors. */
  function NextPredicate(s: string): (r: WalkStep)
    ensures r.Predicate? ==> |r.rest| < |s|
  {
    var t := Rest(s, Connector);
    if t == [] then End
    else if !IsAsciiAlpha(t[0]) then Bad(UnparseableToken(t[0]))
    else PredicateAt(t)
  }

  /** What the walk has found: a predicate, or something it stops at. */
  datatype Token = Call(ident: string, args: seq<string>) | Junk(reason: Unsupported)

  function Tokens(s: string): seq<Token>
    decreases |s|
  {
    match NextPredicate(s)
    case End => []
    case Bad(reason) => [Junk(reason)]
    case Predicate(ident, args, rest) => [Call(ident, args)] + Tokens(rest)
  }

  function Handle(out: ParsedRule, t: Token): ParsedRule {
    match t
    case Call(ident, args) => HandlePredicate(out, ident, args)
    case Junk(reason) => out.(unsupported := out.unsupported + [reason])
  }

  function HandleAll(out: ParsedRule, ts: seq<Token>): ParsedRule
    decreases ts
  {
    if ts == [] then out else HandleAll(Handle(out, ts[0]), ts[1..])
  }

  function ParseSpec(rule: string): ParsedRule {
    HandleAll(EMPTY_RULE.(hasDisjunction := Disjunction(false, rule), hasNegation := Negation(false, rule)),
              Tokens(rule))
  }

  // ---- The parser as the program runs it ------------------------------------------

  lemma Dropped(chars: string, i: nat)
    requires i < |chars|
    ensures chars[i..][1..] == chars[i + 1..] && chars[i..][0] == chars[i]
  {}

  /** One more character of the class at `i`. */
  lemma TakeOne(chars: string, start: nat, i: nat, cls: CharClass)
    requires start <= i < |chars| && In(chars[i], cls)
    ensures Rest(chars[i..], cls) == Rest(chars[i + 1..], cls)
    ensures chars[start..i] + Taken(chars[i..], cls) == chars[start..i + 1] + Taken(chars[i + 1..], cls)
  {
    Dropped(chars, i);
    assert chars[start..i + 1] == chars[start..i] + [chars[i]];
  }

  method SkipWhile(chars: string, start: nat, cls: CharClass) returns (idx: nat)
    requires start <= |chars|
    ensures start <= idx <= |chars|
    ensures chars[idx..] == Rest(chars[start..], cls)
    ensures chars[start..idx] == Taken(chars[start..], cls)
  {
    idx := start;
    while idx < |chars| && In(chars[idx], cls)
      invariant start <= idx <= |chars|
      invariant Rest(chars[idx..], cls) == Rest(chars[start..], cls)
      invariant chars[start..idx] + Taken(chars[idx..], cls) == Taken(chars[start..], cls)
    {
      TakeOne(chars, start, idx, cls);
      idx := idx + 1;
    }
  }

  method NextArgFrom(chars: string, start: nat) returns (more: bool, value: string, idx: nat)
    requires start <= |chars|
    ensures start <= idx <= |chars| && (more ==> start < idx)
    ensures NextArg(chars[start..]) == if more then Arg(value, chars[idx..]) else NoMore(chars[idx..])
  {
    value := [];
    idx := SkipWhile(chars, start, Separator);
    if idx >= |chars| || chars[idx] == ')' {
      return false, value, idx;
    }
    more := true;
    var from := idx;
    if chars[idx] == '`' {
      from := idx + 1;
      Dropped(chars, idx);
      idx := SkipWhile(chars, from, NotTick);
      value := chars[from..idx];
      if idx < |chars| {
        Dropped(chars, idx);
        idx := idx + 1;
      }
    } else {
      idx := SkipWhile(chars, from, BareToken);
      value := Trim(chars[from..idx]);
    }
  }

  method ReadArgsFrom(chars: string, start: nat) returns (args: seq<string>, idx: nat)
    requires start <= |chars|
    ensures start <= idx <= |chars|
    ensures (args, chars[idx..]) == ReadArgs(chars[start..])
  {
    args, idx := [], start;
    ghost var all := ReadArgs(chars[start..]);
    assert args + all.0 == all.0;
    while true
      invariant start <= idx <= |chars|
      invariant args + ReadArgs(chars[idx..]).0 == all.0 && ReadArgs(chars[idx..]).1 == all.1
      decreases |chars| - idx
    {
      var more, value, next := NextArgFrom(chars, idx);
      ghost var rest := ReadArgs(chars[next..]).0;
      assert args + ([value] + rest) == (args + [value]) + rest;
      if !more {
        assert ReadArgs(chars[idx..]) == ([], chars[next..]);
        assert args + [] == args;
        return args, next;
      }
      args, idx := args + [value], next;
    }
  }

  method Scan(rule: string) returns (disjunction: bool, negation: bool)
    ensures disjunction == Disjunction(false, rule) && negation == Negation(false, rule)
  {
    disjunction, negation := false, false;
    var inBacktick, i := false, 0;
    while i < |rule|
      invariant i <= |rule|
      invariant (disjunction || Disjunction(inBacktick, rule[i..])) == Disjunction(false, rule)
      invariant (negation || Negation(inBacktick, rule[i..])) == Negation(false, rule)
    {
      var c := rule[i];
      assert rule[i..][1..] == rule[i + 1..];
      if c == '`' {
        inBacktick := !inBacktick;
      } else if !inBacktick {
        if c == '|' && i + 1 < |rule| && rule[i + 1] == '|' {
          disjunction := true;
        } else if c == '!' {
          negation := true;
        }
      }
      i := i + 1;
    }
  }

  /** Arguments and closing parenthesis, from just after the opening one. */
  method CloseArgsFrom(rule: string, start: nat) returns (args: seq<string>, idx: nat)
    requires start <= |rule|
    ensures start <= idx <= |rule|
    ensures (args, rule[idx..]) == (ReadArgs(rule[start..]).0, DropClose(ReadArgs(rule[start..]).1))
  {
    args, idx := ReadArgsFrom(rule, start);
    if idx < |rule| && rule[idx] == ')' {
      Dropped(rule, idx);
      idx := idx + 1;
    }
  }

  /** Identifier, blanks and parenthesised arguments, from the first letter on. */
  method PredicateFrom(rule: string, start: nat) returns (step: WalkStep, idx: nat)
    requires start < |rule| && In(rule[start], IdentChar)
    ensures start <= idx <= |rule| && (step.Predicate? ==> start < idx && step.rest == rule[idx..])
    ensures step == PredicateAt(rule[start..])
  {
    idx := SkipWhile(rule, start, IdentChar);
    var ident := rule[start..idx];
    idx := SkipWhile(rule, idx, Blank);
    assert rule[idx..] == Rest(Rest(rule[start..], IdentChar), Blank);
    if idx >= |rule| || rule[idx] != '(' {
      return Bad(MissingArguments(ident)), idx;
    }
    Dropped(rule, idx);
    var args;
    args, idx := CloseArgsFrom(rule, idx + 1);
    step := Predicate(ident, args, rule[idx..]);
  }

  /** One turn of the walk: connectors, then a predicate or the reason to stop. */
  method NextPredicateFrom(rule: string, start: nat) returns (step: WalkStep, idx: nat)
    requires start <= |rule|
    ensures start <= idx <= |rule| && (step.Predicate? ==> start < idx && step.rest == rule[idx..])
    ensures step == NextPredicate(rule[start..])
  {
    idx := SkipWhile(rule, start, Connector);
    if idx >= |rule| {
      return End, idx;
    }
    Dropped(rule, idx);
    if !IsAsciiAlpha(rule[idx]) {
      return Bad(UnparseableToken(rule[idx])), idx;
    }
    step, idx := PredicateFrom(rule, idx);
  }

  /** Terminates without leaving the text on every string, and computes `ParseSpec`. */
  method Parse(rule: string) returns (out: ParsedRule)
    ensures out == ParseSpec(rule)
  {
    var disjunction, negation := Scan(rule);
    out := EMPTY_RULE.(hasDisjunction := disjunction, hasNegation := negation);
    var idx := 0;
    assert rule[0..] == rule;
    while idx < |rule|
      invariant idx <= |rule|
      invariant HandleAll(out, Tokens(rule[idx..])) == ParseSpec(rule)
      decreases |rule| - idx
    {
      var step, next := NextPredicateFrom(rule, idx);
      ghost var ts := Tokens(rule[idx..]);
      match step {
        case End =>
          return;
        case Bad(reason) =>
          assert ts[1..] == [];
          out := out.(unsupported := out.unsupported + [reason]);
          return;
        case Predicate(ident, args, rest) =>
          assert ts[1..] == Tokens(rest);
          out := HandlePredicate(out, ident, args);
          idx := next;
      }
    }
    assert rule[|rule|..] == [];
  }
}
