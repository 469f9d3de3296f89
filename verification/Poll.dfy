/** The poll loop: conditional fetches, the short-circuit on an unchanged body, and
    the exponential backoff. Durations are in milliseconds. */
module Poll {
  import opened Prelude
  import opened Objects
  import opened ControllerSteps
  import opened Convergence
  import opened Interrupted
  import opened Reconcile

  const SECOND: nat := 1000

  /** One answer of the configuration endpoint; decoding errors count as failures. */
  datatype Fetch =
    | FetchFailed
    | NotModified
    | Changed(body: string, etag: Option<string>)

  /** What the loop is run with: `digest` stands for SHA-256, `build` for decoding a
      body and compiling it to a manifest. */
  datatype Setup = Setup(cfg: Config, digest: string -> string, build: string -> Cluster)

  datatype LoopState = LoopState(lastEtag: Option<string>, lastDigest: Option<string>, backoff: nat)

  const INITIAL: LoopState := LoopState(None, None, SECOND)

  function Min(a: nat, b: nat): nat {
    if a <= b then a else b
  }

  /** Is the body known to be the one reconciled last? */
  predicate Skips(p: Setup, st: LoopState, f: Fetch) {
    f.NotModified? || (f.Changed? && st.lastDigest == Some(p.digest(f.body)))
  }

  function NewTag(etag: Option<string>, last: Option<string>): Option<string> {
    if etag.Some? then etag else last
  }

  /** The loop's own state after one poll; `ok` is the outcome of the reconcile, if there is one. */
  function NextState(p: Setup, st: LoopState, f: Fetch, ok: bool): LoopState {
    match f
    case FetchFailed => st.(backoff := Min(st.backoff * 2, p.cfg.maxBackoff))
    case NotModified => st.(backoff := SECOND)
    case Changed(body, etag) =>
      if Skips(p, st, f) then LoopState(NewTag(etag, st.lastEtag), st.lastDigest, SECOND)
      else if ok then LoopState(NewTag(etag, st.lastEtag), Some(p.digest(body)), SECOND)
      else st.(backoff := Min(SECOND * 2, p.cfg.maxBackoff))
  }

  /** How long the loop sleeps after one poll. */
  function WaitAfter(p: Setup, st: LoopState, f: Fetch, ok: bool): nat {
    match f
    case FetchFailed => st.backoff
    case NotModified => p.cfg.pollInterval
    case Changed(_, _) => if Skips(p, st, f) || ok then p.cfg.pollInterval else SECOND
  }

  /** A poll as it happened: the answer, and the API calls of the cycle it caused. */
  datatype Visit = Visit(fetch: Fetch, es: seq<Event>)

  datatype LoopWorld = LoopWorld(st: LoopState, cluster: Cluster)

  predicate Reconciles(p: Setup, st: LoopState, f: Fetch) {
    f.Changed? && !Skips(p, st, f)
  }

  function Cycle(p: Setup, cl: Cluster, v: Visit): World
    requires v.fetch.Changed?
  {
    Run(World(Start(p.cfg, p.build(v.fetch.body)), cl), v.es)
  }

  predicate CycleOk(p: Setup, w: LoopWorld, v: Visit) {
    Reconciles(p, w.st, v.fetch) && Cycle(p, w.cluster, v).ctl.pc.Finished?
  }

  function StepPoll(p: Setup, w: LoopWorld, v: Visit): LoopWorld {
    LoopWorld(NextState(p, w.st, v.fetch, CycleOk(p, w, v)),
              if Reconciles(p, w.st, v.fetch) then Cycle(p, w.cluster, v).cluster else w.cluster)
  }

  function RunPolls(p: Setup, w: LoopWorld, vs: seq<Visit>): LoopWorld
    decreases vs
  {
    if vs == [] then w else RunPolls(p, StepPoll(p, w, vs[0]), vs[1..])
  }

  function Waits(p: Setup, w: LoopWorld, vs: seq<Visit>): (r: seq<nat>)
    ensures |r| == |vs|
    decreases vs
  {
    if vs == [] then []
    else [WaitAfter(p, w.st, vs[0].fetch, CycleOk(p, w, vs[0]))] + Waits(p, StepPoll(p, w, vs[0]), vs[1..])
  }

  lemma {:induction false} RunPollsSnoc(p: Setup, w: LoopWorld, vs: seq<Visit>, v: Visit)
    ensures RunPolls(p, w, vs + [v]) == StepPoll(p, RunPolls(p, w, vs), v)
    ensures Waits(p, w, vs + [v]) ==
            Waits(p, w, vs) + [WaitAfter(p, RunPolls(p, w, vs).st, v.fetch, CycleOk(p, RunPolls(p, w, vs), v))]
    decreases vs
  {
    if vs == [] {
      assert vs + [v] == [v];
    } else {
      assert (vs + [v])[0] == vs[0] && (vs + [v])[1..] == vs[1..] + [v];
      RunPollsSnoc(p, StepPoll(p, w, vs[0]), vs[1..], v);
    }
  }

  /** Each poll that has to reconcile runs its cycle to its end; the others call nothing. */
  predicate RunsCycles(p: Setup, w: LoopWorld, vs: seq<Visit>)
    decreases vs
  {
    vs == [] || (RunsCycle(p, w, vs[0]) && RunsCycles(p, StepPoll(p, w, vs[0]), vs[1..]))
  }

  predicate RunsCycle(p: Setup, w: LoopWorld, v: Visit) {
    if Reconciles(p, w.st, v.fetch) then
      OneCycle(v.es) && (Cycle(p, w.cluster, v).ctl.pc.Finished? || Cycle(p, w.cluster, v).ctl.pc.Failed?)
    else v.es == []
  }

  /** All calls of a run of polls. */
  function AllSent(cfg: Config, vs: seq<Visit>): seq<Event> {
    if vs == [] then [] else Sent(cfg, vs[0].es) + AllSent(cfg, vs[1..])
  }

  lemma {:induction false} CyclesSnoc(p: Setup, w: LoopWorld, vs: seq<Visit>, v: Visit)
    ensures RunsCycles(p, w, vs + [v]) <==> RunsCycles(p, w, vs) && RunsCycle(p, RunPolls(p, w, vs), v)
    ensures AllSent(p.cfg, vs + [v]) == AllSent(p.cfg, vs) + Sent(p.cfg, v.es)
    decreases vs
  {
    if vs == [] {
      assert vs + [v] == [v] && [v][1..] == [];
      assert Sent(p.cfg, v.es) + [] == [] + Sent(p.cfg, v.es);
    } else {
      assert (vs + [v])[0] == vs[0] && (vs + [v])[1..] == vs[1..] + [v];
      CyclesSnoc(p, StepPoll(p, w, vs[0]), vs[1..], v);
      Assoc(Sent(p.cfg, vs[0].es), AllSent(p.cfg, vs[1..]), Sent(p.cfg, v.es));
    }
  }

  /** What the loop has done so far: its state, the cluster and the waits are those of the run. */
  predicate Traced(p: Setup, w: LoopWorld, vs: seq<Visit>, now: LoopWorld, waits: seq<nat>) {
    RunPolls(p, w, vs) == now && waits == Waits(p, w, vs) && RunsCycles(p, w, vs)
  }

  lemma TracedSnoc(p: Setup, w: LoopWorld, vs: seq<Visit>, v: Visit, now: LoopWorld, waits: seq<nat>)
    requires Traced(p, w, vs, now, waits) && RunsCycle(p, now, v)
    ensures Traced(p, w, vs + [v], StepPoll(p, now, v), waits + [WaitAfter(p, now.st, v.fetch, CycleOk(p, now, v))])
    ensures AllSent(p.cfg, vs + [v]) == AllSent(p.cfg, vs) + Sent(p.cfg, v.es)
  {
    RunPollsSnoc(p, w, vs, v);
    CyclesSnoc(p, w, vs, v);
  }

  /** The body of the loop: act on one answer, and say how long to wait. */
  method HandleFetch(p: Setup, api: ApiServer, outcome: Fetch,
                     st: LoopState) returns (next: LoopState, wait: nat, ghost es: seq<Event>)
    modifies api
    ensures var w, v := LoopWorld(st, old(api.objects)), Visit(outcome, es);
      && RunsCycle(p, w, v)
      && LoopWorld(next, api.objects) == StepPoll(p, w, v)
      && wait == WaitAfter(p, st, outcome, CycleOk(p, w, v))
    ensures api.log == old(api.log) + Sent(p.cfg, es)
  {
    var lastEtag, lastDigest, backoff := st.lastEtag, st.lastDigest, st.backoff;
    es := [];
    match outcome {
      case FetchFailed =>
        wait := backoff;
        backoff := Min(backoff * 2, p.cfg.maxBackoff);
      case NotModified =>
        backoff := SECOND;
        wait := p.cfg.pollInterval;
      case Changed(body, etag) =>
        backoff := SECOND;
        var digest := p.digest(body);
        var reconciled := true;
        if lastDigest != Some(digest) {
          var ok, trace := ReconcileOnce(api, p.cfg, p.build(body));
          es := trace;
          reconciled := ok;
          if ok {
            lastDigest := Some(digest);
          }
        }
        if reconciled {
          lastEtag := if etag.Some? then etag else lastEtag;
          wait := p.cfg.pollInterval;
        } else {
          wait := backoff;
          backoff := Min(backoff * 2, p.cfg.maxBackoff);
        }
    }
    next := LoopState(lastEtag, lastDigest, backoff);
  }

  /** The loop itself, up to the shutdown after `polls` polls. The server answers poll
      number i given the If-None-Match tag it was sent. The loop is a run of `StepPoll`,
      and its calls are those of one full cycle for each poll that has to reconcile. */
  method RunLoop(p: Setup, api: ApiServer, server: (nat, Option<string>) -> Fetch, polls: nat)
    returns (waits: seq<nat>, ghost vs: seq<Visit>)
    modifies api
    ensures |vs| == polls
    ensures forall i :: 0 <= i < polls ==>
      vs[i].fetch == server(i, RunPolls(p, LoopWorld(INITIAL, old(api.objects)), vs[..i]).st.lastEtag)
    ensures RunPolls(p, LoopWorld(INITIAL, old(api.objects)), vs).cluster == api.objects
    ensures waits == Waits(p, LoopWorld(INITIAL, old(api.objects)), vs)
    ensures RunsCycles(p, LoopWorld(INITIAL, old(api.objects)), vs)
    ensures api.log == old(api.log) + AllSent(p.cfg, vs)
  {
    var st := INITIAL;
    ghost var w := LoopWorld(INITIAL, api.objects);
    waits, vs := [], [];
    for i := 0 to polls
      invariant |vs| == i
      invariant forall j :: 0 <= j < i ==> vs[j].fetch == server(j, RunPolls(p, w, vs[..j]).st.lastEtag)
      invariant Traced(p, w, vs, LoopWorld(st, api.objects), waits)
      invariant api.log == old(api.log) + AllSent(p.cfg, vs)
    {
      var outcome := server(i, st.lastEtag);
      ghost var now, sent := LoopWorld(st, api.objects), api.log;
      var wait;
      ghost var es;
      st, wait, es := HandleFetch(p, api, outcome, st);
      TracedSnoc(p, w, vs, Visit(outcome, es), now, waits);
      waits := waits + [wait];
      ghost var vs' := vs + [Visit(outcome, es)];
      assert forall j :: 0 <= j <= i ==> vs'[..j] == vs[..j];
      assert vs[..i] == vs;
      Assoc(old(api.log), AllSent(p.cfg, vs), Sent(p.cfg, es));
      vs := vs';
    }
  }

  // ---- The short-circuit is invisible -------------------------------------

  /** Tags identify bodies; a 200 carries its tag always or never. */
  datatype Server = Server(etagOf: string -> string, tagged: bool)

  ghost predicate Injective(f: string -> string) {
    forall x, y :: f(x) == f(y) ==> x == y
  }

  /** An answer the server may give while `current` is its body: a 304 only to a
      request whose If-None-Match tag is the current one. */
  predicate Honest(s: Server, current: string, sent: Option<string>, f: Fetch) {
    match f
    case FetchFailed => true
    case NotModified => sent == Some(s.etagOf(current))
    case Changed(body, etag) => body == current && etag == if s.tagged then Some(s.etagOf(current)) else None
  }

  /** The loop that reconciles on every answered poll. */
  function NaiveCluster(p: Setup, cl: Cluster, bodies: seq<string>, vs: seq<Visit>): Cluster
    requires |bodies| == |vs|
    decreases vs
  {
    if vs == [] then cl
    else
      NaiveCluster(p, if vs[0].fetch.FetchFailed? then cl else Reconciled(p.cfg, p.build(bodies[0]), cl),
                   bodies[1..], vs[1..])
  }

  predicate HonestRun(p: Setup, s: Server, w: LoopWorld, bodies: seq<string>, vs: seq<Visit>)
    requires |bodies| == |vs|
    decreases vs
  {
    vs == [] ||
    (Honest(s, bodies[0], w.st.lastEtag, vs[0].fetch)
     && HonestRun(p, s, StepPoll(p, w, vs[0]), bodies[1..], vs[1..]))
  }

  predicate NoFaults(p: Setup, w: LoopWorld, vs: seq<Visit>)
    decreases vs
  {
    vs == [] ||
    ((Reconciles(p, w.st, vs[0].fetch) ==> FaultFree(vs[0].es) && Cycle(p, w.cluster, vs[0]).ctl.pc.Finished?)
     && NoFaults(p, StepPoll(p, w, vs[0]), vs[1..]))
  }

  /** The remembered tag and digest are those of `last`, the body reconciled last. */
  ghost predicate Remembers(p: Setup, s: Server, st: LoopState, last: Option<string>) {
    match last
    case None => st.lastDigest.None? && st.lastEtag.None?
    case Some(b) =>
      && st.lastDigest == Some(p.digest(b))
      && (st.lastEtag.Some? ==> s.tagged && st.lastEtag == Some(s.etagOf(b)))
  }

  predicate UpToDate(p: Setup, cl: Cluster, last: Option<string>) {
    last.Some? ==> Reconciled(p.cfg, p.build(last.value), cl) == cl
  }

  /** When the loop skips, the current body is the one it remembers. */
  lemma SkipMeansSameBody(p: Setup, s: Server, st: LoopState, last: Option<string>, current: string, f: Fetch)
    requires Injective(p.digest) && Injective(s.etagOf)
    requires Remembers(p, s, st, last) && Honest(s, current, st.lastEtag, f) && Skips(p, st, f)
    ensures last == Some(current)
  {}

  /** Main result: after every poll the short-circuiting loop has left the cluster
      exactly where the loop that always reconciles would have. */
  lemma {:induction false} CachedLoopRefinesNaive(p: Setup, s: Server, w: LoopWorld, last: Option<string>,
                                                  bodies: seq<string>, vs: seq<Visit>)
    requires |bodies| == |vs|
    requires Injective(p.digest) && Injective(s.etagOf)
    requires Remembers(p, s, w.st, last) && UpToDate(p, w.cluster, last)
    requires HonestRun(p, s, w, bodies, vs) && NoFaults(p, w, vs)
    ensures RunPolls(p, w, vs).cluster == NaiveCluster(p, w.cluster, bodies, vs)
    decreases vs
  {
    if vs != [] {
      var f, current := vs[0].fetch, bodies[0];
      var w' := StepPoll(p, w, vs[0]);
      var last' := if f.FetchFailed? then last else Some(current);
      if Skips(p, w.st, f) {
        SkipMeansSameBody(p, s, w.st, last, current, f);
      } else if f.Changed? {
        CycleConverges(p.cfg, p.build(current), w.cluster, vs[0].es);
        ReconciledIsFixpoint(p.cfg, p.build(current), w.cluster);
      }
      CachedLoopRefinesNaive(p, s, w', last', bodies[1..], vs[1..]);
    }
  }

  /** Started from nothing, in any cluster. */
  lemma LoopRefinesNaiveFromStart(p: Setup, s: Server, cl: Cluster, bodies: seq<string>, vs: seq<Visit>, n: nat)
    requires |bodies| == |vs| && n <= |vs|
    requires Injective(p.digest) && Injective(s.etagOf)
    requires HonestRun(p, s, LoopWorld(INITIAL, cl), bodies[..n], vs[..n])
    requires NoFaults(p, LoopWorld(INITIAL, cl), vs[..n])
    ensures RunPolls(p, LoopWorld(INITIAL, cl), vs[..n]).cluster == NaiveCluster(p, cl, bodies[..n], vs[..n])
  {
    CachedLoopRefinesNaive(p, s, LoopWorld(INITIAL, cl), None, bodies[..n], vs[..n]);
  }

  // ---- Failed reconciles ----------------------------------------------------

  /** A failed reconcile moves neither the tag nor the digest, so the same body is
      tried again at the next poll, whatever its answer's tag. */
  lemma FailedReconcileIsRetried(p: Setup, w: LoopWorld, v: Visit, etag: Option<string>)
    requires Reconciles(p, w.st, v.fetch) && !CycleOk(p, w, v)
    ensures StepPoll(p, w, v).st.lastEtag == w.st.lastEtag
    ensures StepPoll(p, w, v).st.lastDigest == w.st.lastDigest
    ensures Reconciles(p, StepPoll(p, w, v).st, Changed(v.fetch.body, etag))
  {}

  /** What an observer notes about a run: the body reconciled last, whether a failed attempt
      since may have harmed its objects, and whether sweeps may have left orphans. */
  datatype Book = Book(last: Option<string>, harmed: bool, littered: bool)

  const EMPTY_BOOK: Book := Book(None, false, false)

  /** Can a failed cycle for `body` not disturb what was reconciled last? */
  predicate AttemptHarmless(p: Setup, last: Option<string>, body: string, cl: Cluster) {
    last.Some? ==> p.cfg.readOnly || Harmless(p.cfg, p.build(last.value), p.build(body), cl)
  }

  function NextBook(p: Setup, w: LoopWorld, v: Visit, b: Book): Book {
    if !Reconciles(p, w.st, v.fetch) then b
    else if CycleOk(p, w, v) then Book(Some(v.fetch.body), false, !FaultFree(v.es))
    else b.(harmed := b.harmed || !AttemptHarmless(p, b.last, v.fetch.body, w.cluster))
  }

  function Bookkeep(p: Setup, w: LoopWorld, vs: seq<Visit>, b: Book): Book
    decreases vs
  {
    if vs == [] then b else Bookkeep(p, StepPoll(p, w, vs[0]), vs[1..], NextBook(p, w, vs[0], b))
  }

  /** What the book promises of the cluster. */
  predicate BookHolds(p: Setup, cl: Cluster, b: Book) {
    b.last.Some? && !b.harmed && !p.cfg.readOnly ==>
      && Covered(p.build(b.last.value), cl)
      && (!b.littered ==> Tidy(p.cfg, p.build(b.last.value), cl))
  }

  lemma FinishedBookHolds(p: Setup, w: LoopWorld, v: Visit)
    requires CycleOk(p, w, v) && RunsCycle(p, w, v)
    ensures BookHolds(p, StepPoll(p, w, v).cluster, Book(Some(v.fetch.body), false, !FaultFree(v.es)))
  {
    var d := p.build(v.fetch.body);
    if !p.cfg.readOnly {
      var bad := set k | k in SweepOrder(p.cfg);
      StartIsSound(p.cfg, d, w.cluster);
      AnyFaultsAllowed(World(Start(p.cfg, d), w.cluster), v.es, bad);
      FinishedCycleLeaves(p.cfg, d, w.cluster, v.es, bad);
      if FaultFree(v.es) {
        CycleConverges(p.cfg, d, w.cluster, v.es);
        ReconciledIsFixpoint(p.cfg, d, w.cluster);
        UpToDateIsKeywise(p.cfg, d, StepPoll(p, w, v).cluster);
      }
    }
  }

  lemma FailedBookHolds(p: Setup, w: LoopWorld, v: Visit, b: Book)
    requires Reconciles(p, w.st, v.fetch) && !CycleOk(p, w, v) && RunsCycle(p, w, v) && BookHolds(p, w.cluster, b)
    ensures BookHolds(p, StepPoll(p, w, v).cluster, NextBook(p, w, v, b))
  {
    if b.last.Some? && !p.cfg.readOnly && !NextBook(p, w, v, b).harmed {
      HarmlessFailureKeeps(p.cfg, p.build(b.last.value), p.build(v.fetch.body), w.cluster, v.es);
    }
  }

  /** One poll keeps what is remembered and what the book promises, and a skip or a success
      is about the current body. */
  lemma PollKeepsBook(p: Setup, s: Server, w: LoopWorld, b: Book, current: string, v: Visit)
    requires Injective(p.digest) && Injective(s.etagOf)
    requires Remembers(p, s, w.st, b.last) && BookHolds(p, w.cluster, b)
    requires Honest(s, current, w.st.lastEtag, v.fetch) && RunsCycle(p, w, v)
    ensures Remembers(p, s, StepPoll(p, w, v).st, NextBook(p, w, v, b).last)
    ensures BookHolds(p, StepPoll(p, w, v).cluster, NextBook(p, w, v, b))
    ensures Skips(p, w.st, v.fetch) || CycleOk(p, w, v) ==> NextBook(p, w, v, b).last == Some(current)
  {
    if Skips(p, w.st, v.fetch) {
      SkipMeansSameBody(p, s, w.st, b.last, current, v.fetch);
    } else if v.fetch.Changed? {
      if CycleOk(p, w, v) {
        FinishedBookHolds(p, w, v);
      } else {
        FailedBookHolds(p, w, v, b);
      }
    }
  }

  lemma {:induction false} RunKeepsBook(p: Setup, s: Server, w: LoopWorld, b: Book, bodies: seq<string>, vs: seq<Visit>)
    requires |bodies| == |vs| && Injective(p.digest) && Injective(s.etagOf)
    requires Remembers(p, s, w.st, b.last) && BookHolds(p, w.cluster, b)
    requires HonestRun(p, s, w, bodies, vs) && RunsCycles(p, w, vs)
    ensures Remembers(p, s, RunPolls(p, w, vs).st, Bookkeep(p, w, vs, b).last)
    ensures BookHolds(p, RunPolls(p, w, vs).cluster, Bookkeep(p, w, vs, b))
    decreases vs
  {
    if vs != [] {
      PollKeepsBook(p, s, w, b, bodies[0], vs[0]);
      RunKeepsBook(p, s, StepPoll(p, w, vs[0]), NextBook(p, w, vs[0], b), bodies[1..], vs[1..]);
    }
  }

  /** Main result, for every run the loop can make, cluster faults of every sort included:
      after each poll that skips or succeeds the cluster holds every object the current body
      asks for, and is fully up to date unless that body's own sweeps left orphans; the one
      exception is a skip after a harmful failed attempt. */
  lemma LoopIsUpToDate(p: Setup, s: Server, cl: Cluster, bodies: seq<string>, vs: seq<Visit>, current: string, v: Visit)
    requires |bodies| == |vs| && Injective(p.digest) && Injective(s.etagOf) && !p.cfg.readOnly
    requires HonestRun(p, s, LoopWorld(INITIAL, cl), bodies, vs) && RunsCycles(p, LoopWorld(INITIAL, cl), vs)
    requires var w := RunPolls(p, LoopWorld(INITIAL, cl), vs);
      && Honest(s, current, w.st.lastEtag, v.fetch) && RunsCycle(p, w, v)
      && (Skips(p, w.st, v.fetch) || CycleOk(p, w, v))
      && (Skips(p, w.st, v.fetch) ==> !Bookkeep(p, LoopWorld(INITIAL, cl), vs, EMPTY_BOOK).harmed)
    ensures var w := RunPolls(p, LoopWorld(INITIAL, cl), vs);
      var b := NextBook(p, w, v, Bookkeep(p, LoopWorld(INITIAL, cl), vs, EMPTY_BOOK));
      var cl' := StepPoll(p, w, v).cluster;
      && b.last == Some(current) && Covered(p.build(current), cl')
      && (!b.littered ==> Reconciled(p.cfg, p.build(current), cl') == cl')
  {
    var w0 := LoopWorld(INITIAL, cl);
    var w, b := RunPolls(p, w0, vs), Bookkeep(p, w0, vs, EMPTY_BOOK);
    RunKeepsBook(p, s, w0, EMPTY_BOOK, bodies, vs);
    PollKeepsBook(p, s, w, b, current, v);
    UpToDateIsKeywise(p.cfg, p.build(current), StepPoll(p, w, v).cluster);
  }

  /** After a failed attempt at another body, going back to the last good body `b1` is
      skipped, and the cluster stays as the failed attempt left it. */
  lemma RevertAfterFailureIsSkipped(p: Setup, s: Server, w: LoopWorld, b1: string, v: Visit, f: Fetch)
    requires Remembers(p, s, w.st, Some(b1)) && Reconciles(p, w.st, v.fetch) && !CycleOk(p, w, v)
    requires Honest(s, b1, w.st.lastEtag, f) && !f.FetchFailed?
    ensures Skips(p, StepPoll(p, w, v).st, f)
    ensures StepPoll(p, StepPoll(p, w, v), Visit(f, [])).cluster == Cycle(p, w.cluster, v).cluster
    ensures StepPoll(p, StepPoll(p, w, v), Visit(f, [])).st.lastDigest == Some(p.digest(b1))
  {}

  /** However the attempt at `b2` fails, is the cluster right for `b1` after going back to it? */
  ghost predicate RevertsAreSafe(p: Setup, w: LoopWorld, b1: string, b2: string, etag: Option<string>, f: Fetch) {
    forall es :: IsFailedVisit(p, w, Visit(Changed(b2, etag), es)) ==>
      UpToDate(p, StepPoll(p, StepPoll(p, w, Visit(Changed(b2, etag), es)), Visit(f, [])).cluster, Some(b1))
  }

  predicate IsFailedVisit(p: Setup, w: LoopWorld, v: Visit) {
    RunsCycle(p, w, v) && Reconciles(p, w.st, v.fetch) && !CycleOk(p, w, v)
  }

  /** Main result: with the cluster up to date with `b1`, a failed attempt at `b2` followed
      by a return to `b1` always ends right if and only if no apply of what `b2` asks for
      would unsettle an object of `b1` or make an orphan. */
  lemma RevertsAreSafeIff(p: Setup, s: Server, w: LoopWorld, b1: string, b2: string, etag: Option<string>, f: Fetch)
    requires !p.cfg.readOnly && Remembers(p, s, w.st, Some(b1)) && UpToDate(p, w.cluster, Some(b1))
    requires Reconciles(p, w.st, Changed(b2, etag)) && Honest(s, b1, w.st.lastEtag, f) && !f.FetchFailed?
    ensures RevertsAreSafe(p, w, b1, b2, etag, f) <==> Harmless(p.cfg, p.build(b1), p.build(b2), w.cluster)
  {
    var d1, d2, cl := p.build(b1), p.build(b2), w.cluster;
    FailuresHarmlessIff(p.cfg, d1, d2, cl);
    forall es ensures IsFailedVisit(p, w, Visit(Changed(b2, etag), es)) <==>
                      OneCycle(es) && Run(World(Start(p.cfg, d2), cl), es).ctl.pc.Failed?
    {
      assert Cycle(p, cl, Visit(Changed(b2, etag), es)) == Run(World(Start(p.cfg, d2), cl), es);
    }
    forall es | IsFailedVisit(p, w, Visit(Changed(b2, etag), es))
      ensures StepPoll(p, StepPoll(p, w, Visit(Changed(b2, etag), es)), Visit(f, [])).cluster ==
              Run(World(Start(p.cfg, d2), cl), es).cluster
    {
      RevertAfterFailureIsSkipped(p, s, w, b1, Visit(Changed(b2, etag), es), f);
    }
    if RevertsAreSafe(p, w, b1, b2, etag, f) {
      forall es | OneCycle(es) && Run(World(Start(p.cfg, d2), cl), es).ctl.pc.Failed?
        ensures Reconciled(p.cfg, d1, Run(World(Start(p.cfg, d2), cl), es).cluster) ==
                Run(World(Start(p.cfg, d2), cl), es).cluster
      {
        assert IsFailedVisit(p, w, Visit(Changed(b2, etag), es));
      }
    }
  }

  /** Two bodies that ask for one Service on different ports. */
  function PortOf(body: string): int {
    if body == ONE then 80 else 81
  }

  function OneService(cfg: Config, port: int): Cluster {
    map[Key(Service, "svc") := Obj(OwnerLabels(cfg), ServiceBody(port, "TCP"))]
  }

  function TwoBodies(cfg: Config): Setup {
    Setup(cfg, body => body, body => OneService(cfg, PortOf(body)))
  }

  const ONE := "one"
  const TWO := "two"

  /** Three polls, unrolled. */
  lemma ThreePolls(p: Setup, s: Server, w: LoopWorld, b: seq<string>, u: Visit, v: Visit, x: Visit)
    requires |b| == 3
    ensures var w1 := StepPoll(p, w, u);
      var w2 := StepPoll(p, w1, v);
      && RunPolls(p, w, [u, v, x]) == StepPoll(p, w2, x)
      && (HonestRun(p, s, w, b, [u, v, x]) <==>
            Honest(s, b[0], w.st.lastEtag, u.fetch) && Honest(s, b[1], w1.st.lastEtag, v.fetch)
            && Honest(s, b[2], w2.st.lastEtag, x.fetch))
      && (RunsCycles(p, w, [u, v, x]) <==> RunsCycle(p, w, u) && RunsCycle(p, w1, v) && RunsCycle(p, w2, x))
  {
    var w2 := StepPoll(p, StepPoll(p, w, u), v);
    assert [u, v, x][1..] == [v, x] && [v, x][1..] == [x] && [x][1..] == [];
    assert b[1..][1..] == [b[2]] && b[1..][0] == b[1];
    assert RunPolls(p, w2, [x]) == StepPoll(p, w2, x);
    assert [b[2]][1..] == [];
    assert HonestRun(p, s, StepPoll(p, w2, x), [], []) && RunsCycles(p, StepPoll(p, w2, x), []);
    assert HonestRun(p, s, w2, [b[2]], [x]) == Honest(s, b[2], w2.st.lastEtag, x.fetch);
    assert RunsCycles(p, w2, [x]) == RunsCycle(p, w2, x);
  }

  /** The first poll reconciles `one`. */
  lemma ReconcileOne(cfg: Config) returns (v: Visit)
    requires !cfg.readOnly
    ensures v.fetch == Changed(ONE, Some(ONE)) && RunsCycle(TwoBodies(cfg), LoopWorld(INITIAL, map[]), v)
    ensures var w' := StepPoll(TwoBodies(cfg), LoopWorld(INITIAL, map[]), v);
      w'.st == LoopState(Some(ONE), Some(ONE), SECOND)
  {
    var none: Cluster := map[];
    var d := OneService(cfg, 80);
    assert Key(Service, "svc") in d;
    var es := CycleCanFinish(World(Start(cfg, d), none));
    assert OneCycle(es) by { forall i | 0 <= i < |es| ensures !es[i].Begin? { assert FaultFreeEvent(es[i]); } }
    v := Visit(Changed(ONE, Some(ONE)), es);
    assert Cycle(TwoBodies(cfg), none, v) == Run(World(Start(cfg, d), none), es);
  }

  /** The second loses the answer of its only apply. */
  lemma LoseTwo(cfg: Config, w: LoopWorld)
    requires !cfg.readOnly && w.st == LoopState(Some(ONE), Some(ONE), SECOND)
    ensures var v := Visit(Changed(TWO, Some(TWO)), [Patch(Key(Service, "svc"), Unacknowledged)]);
      var w' := StepPoll(TwoBodies(cfg), w, v);
      && RunsCycle(TwoBodies(cfg), w, v) && w'.st.lastEtag == Some(ONE) && w'.st.lastDigest == Some(ONE)
      && Key(Service, "svc") in w'.cluster && w'.cluster[Key(Service, "svc")].body == ServiceBody(81, "TCP")
  {
    var svc, d := Key(Service, "svc"), OneService(cfg, 81);
    assert d.Keys == {svc};
    assert ONE[0] != TWO[0];
    LostPatch(cfg, d, w.cluster, svc);
  }

  /** A run that goes wrong: `one` is reconciled, the attempt at `two` loses the answer of
      its only apply, `one` comes back and is skipped, and the Service keeps `two`'s port. */
  lemma RevertLeavesWrongPort(cfg: Config) returns (vs: seq<Visit>)
    requires !cfg.readOnly
    ensures |vs| == 3 && vs[2].fetch.NotModified?
    ensures var p, s, w := TwoBodies(cfg), Server(body => body, true), LoopWorld(INITIAL, map[]);
      && HonestRun(p, s, w, [ONE, TWO, ONE], vs) && RunsCycles(p, w, vs)
      && var cl := RunPolls(p, w, vs).cluster;
         Key(Service, "svc") in cl && cl[Key(Service, "svc")].body == ServiceBody(81, "TCP")
         && Reconciled(cfg, p.build(ONE), cl) != cl
  {
    var p, s, w := TwoBodies(cfg), Server(body => body, true), LoopWorld(INITIAL, map[]);
    var svc := Key(Service, "svc");
    var v1 := ReconcileOne(cfg);
    var w1 := StepPoll(p, w, v1);
    LoseTwo(cfg, w1);
    var v2 := Visit(Changed(TWO, Some(TWO)), [Patch(svc, Unacknowledged)]);
    var v3 := Visit(NotModified, []);
    ThreePolls(p, s, w, [ONE, TWO, ONE], v1, v2, v3);
    vs := [v1, v2, v3];
    var cl := RunPolls(p, w, vs).cluster;
    assert svc in OneService(cfg, 80) && Reconciled(cfg, OneService(cfg, 80), cl)[svc].body == ServiceBody(80, "TCP");
  }

  lemma LostPatch(cfg: Config, d: Cluster, cl: Cluster, k: Key)
    requires !cfg.readOnly && d.Keys == {k}
    ensures Run(World(Start(cfg, d), cl), [Patch(k, Unacknowledged)]) ==
            World(Controller(cfg, d, Failed), cl[k := Patched(cl, k, d[k])])
  {
    var e := Patch(k, Unacknowledged);
    assert MayApply(d.Keys, k);
    assert [e][1..] == [];
    assert Run(World(Start(cfg, d), cl), [e]) == Step(World(Start(cfg, d), cl), e);
  }

  /** Polls that reconcile nothing: skips and failed fetches. */
  predicate Idle(p: Setup, w: LoopWorld, vs: seq<Visit>)
    decreases vs
  {
    vs == [] || (!Reconciles(p, w.st, vs[0].fetch) && Idle(p, StepPoll(p, w, vs[0]), vs[1..]))
  }

  lemma {:induction false} IdleKeeps(p: Setup, w: LoopWorld, vs: seq<Visit>, n: nat)
    requires Idle(p, w, vs) && n <= |vs|
    ensures var w' := RunPolls(p, w, vs[..n]); w'.cluster == w.cluster && w'.st.lastDigest == w.st.lastDigest
    decreases vs
  {
    if n > 0 {
      assert vs[..n][0] == vs[0] && vs[..n][1..] == vs[1..][..n - 1];
      IdleKeeps(p, StepPoll(p, w, vs[0]), vs[1..], n - 1);
    }
  }

  /** A cycle whose sweeps failed is remembered as done: its leftovers stay through any series
      of skips and failed fetches, its body among the skipped, and go with the next body's
      cycle that works, which ends with the objects and specs it would have ended with had no
      sweep failed. */
  lemma {:induction false} LeftoversWaitForNextBody(p: Setup, w: LoopWorld, v: Visit, idle: seq<Visit>, next: Visit)
    requires !p.cfg.readOnly && CycleOk(p, w, v) && RunsCycle(p, w, v)
    requires Idle(p, StepPoll(p, w, v), idle)
    requires CycleOk(p, RunPolls(p, StepPoll(p, w, v), idle), next) && FaultFree(next.es)
    ensures forall n, etag :: 0 <= n <= |idle| ==> var w' := RunPolls(p, StepPoll(p, w, v), idle[..n]);
      w'.cluster == StepPoll(p, w, v).cluster && Skips(p, w'.st, Changed(v.fetch.body, etag))
    ensures var cl' := StepPoll(p, RunPolls(p, StepPoll(p, w, v), idle), next).cluster;
      var ideal := Reconciled(p.cfg, p.build(next.fetch.body), Reconciled(p.cfg, p.build(v.fetch.body), w.cluster));
      cl'.Keys == ideal.Keys && forall k :: k in cl' ==> cl'[k].body == ideal[k].body
  {
    var d, left := p.build(v.fetch.body), StepPoll(p, w, v).cluster;
    forall n | 0 <= n <= |idle|
      ensures var w' := RunPolls(p, StepPoll(p, w, v), idle[..n]);
        w'.cluster == left && w'.st.lastDigest == Some(p.digest(v.fetch.body))
    {
      IdleKeeps(p, StepPoll(p, w, v), idle, n);
    }
    assert idle[..|idle|] == idle;
    FinishedBookHolds(p, w, v);
    StartIsSound(p.cfg, d, w.cluster);
    RunKeepsGoal(World(Start(p.cfg, d), w.cluster), v.es);
    CycleConverges(p.cfg, p.build(next.fetch.body), left, next.es);
    LeftoversClear(p.cfg, d, left, p.build(next.fetch.body));
  }

  /** A short-circuit taken on a 304 is sound for every body the server may turn to
      exactly when the remembered tag is no other body's tag. */
  lemma SkipSoundIff(p: Setup, s: Server, st: LoopState, b: string)
    requires Injective(p.digest) && st.lastDigest == Some(p.digest(b))
    ensures (forall current, f :: Honest(s, current, st.lastEtag, f) && Skips(p, st, f) ==> current == b) <==>
            (forall other :: st.lastEtag == Some(s.etagOf(other)) ==> other == b)
  {
    if forall current, f :: Honest(s, current, st.lastEtag, f) && Skips(p, st, f) ==> current == b {
      forall other | st.lastEtag == Some(s.etagOf(other)) ensures other == b {
        assert Honest(s, other, st.lastEtag, NotModified) && Skips(p, st, NotModified);
      }
    }
  }

  /** One reconciled answer keeps that condition exactly when it carries a tag of its
      own, there was no tag to go stale, or the body is the old tag's body. */
  lemma TagStaysFreshIff(p: Setup, s: Server, st: LoopState, old_: string, b: string, etag: Option<string>)
    requires Injective(s.etagOf) && (etag.Some? ==> etag == Some(s.etagOf(b)))
    requires (st.lastEtag.Some? ==> st.lastEtag == Some(s.etagOf(old_)))
    requires Reconciles(p, st, Changed(b, etag))
    ensures (forall other :: NextState(p, st, Changed(b, etag), true).lastEtag == Some(s.etagOf(other)) ==> other == b)
            <==> (etag.Some? || st.lastEtag.None? || old_ == b)
  {
    var tag := NextState(p, st, Changed(b, etag), true).lastEtag;
    if etag.None? && st.lastEtag.Some? {
      assert tag == Some(s.etagOf(old_));
    }
  }

  // ---- Backoff ----------------------------------------------------------------

  function Pow2(n: nat): nat {
    if n == 0 then 1 else 2 * Pow2(n - 1)
  }

  /** Doublings pending after a run: fetch failures since the last answered poll, plus
      one when that poll's reconcile failed. */
  function Streak(p: Setup, w: LoopWorld, vs: seq<Visit>): nat
    decreases |vs|
  {
    if vs == [] then 0
    else
      var before := vs[..|vs| - 1];
      var v := vs[|vs| - 1];
      if v.fetch.FetchFailed? then Streak(p, w, before) + 1
      else if Reconciles(p, RunPolls(p, w, before).st, v.fetch) && !CycleOk(p, RunPolls(p, w, before), v) then 1
      else 0
  }

  /** Main result: in every run the backoff is min(2^streak s, max), hence between one
      second and the maximum; and a failed fetch waits exactly that long. */
  lemma {:induction false} BackoffIsCappedDoubling(p: Setup, cl: Cluster, vs: seq<Visit>)
    requires p.cfg.maxBackoff >= SECOND
    ensures RunPolls(p, LoopWorld(INITIAL, cl), vs).st.backoff ==
            Min(Pow2(Streak(p, LoopWorld(INITIAL, cl), vs)) * SECOND, p.cfg.maxBackoff)
    ensures SECOND <= RunPolls(p, LoopWorld(INITIAL, cl), vs).st.backoff <= p.cfg.maxBackoff
    decreases |vs|
  {
    var w := LoopWorld(INITIAL, cl);
    if vs != [] {
      var before, v := vs[..|vs| - 1], vs[|vs| - 1];
      assert vs == before + [v];
      RunPollsSnoc(p, w, before, v);
      BackoffIsCappedDoubling(p, cl, before);
      var k := Streak(p, w, before);
      assert Pow2(k + 1) == 2 * Pow2(k);
      assert Pow2(1) == 2 * Pow2(0);
    }
    PowPositive(Streak(p, w, vs));
  }

  lemma {:induction false} PowPositive(n: nat)
    ensures Pow2(n) >= 1
  {
    if n > 0 { PowPositive(n - 1); }
  }

  /** The k-th failed fetch in a row, counted from the start or from a fully
      successful poll, waits min(2^(k-1) s, max). */
  lemma {:induction false} KthFailureWaits(p: Setup, cl: Cluster, vs: seq<Visit>, fails: seq<Visit>)
    requires p.cfg.maxBackoff >= SECOND
    requires Streak(p, LoopWorld(INITIAL, cl), vs) == 0
    requires fails != [] && forall i :: 0 <= i < |fails| ==> fails[i].fetch.FetchFailed?
    ensures Streak(p, LoopWorld(INITIAL, cl), vs + fails) == |fails|
    ensures Waits(p, LoopWorld(INITIAL, cl), vs + fails)[|vs| + |fails| - 1] ==
            Min(Pow2(|fails| - 1) * SECOND, p.cfg.maxBackoff)
    decreases |fails|
  {
    var w := LoopWorld(INITIAL, cl);
    var before := vs + fails[..|fails| - 1];
    var v := fails[|fails| - 1];
    assert vs + fails == before + [v];
    if |fails| == 1 {
      assert before == vs;
    } else {
      KthFailureWaits(p, cl, vs, fails[..|fails| - 1]);
    }
    RunPollsSnoc(p, w, before, v);
    BackoffIsCappedDoubling(p, cl, before);
    assert (before + [v])[..|before + [v]| - 1] == before;
  }

  /** With a smaller maximum the very first state is already out of bounds. */
  lemma BackoffBoundedIff(p: Setup)
    ensures (forall cl, vs: seq<Visit> ::
              SECOND <= RunPolls(p, LoopWorld(INITIAL, cl), vs).st.backoff <= p.cfg.maxBackoff) <==>
            p.cfg.maxBackoff >= SECOND
  {
    if p.cfg.maxBackoff >= SECOND {
      forall cl, vs: seq<Visit>
        ensures SECOND <= RunPolls(p, LoopWorld(INITIAL, cl), vs).st.backoff <= p.cfg.maxBackoff
      {
        BackoffIsCappedDoubling(p, cl, vs);
      }
    } else {
      var nothing: Cluster := map[];
      assert RunPolls(p, LoopWorld(INITIAL, nothing), []).st.backoff == SECOND;
    }
  }

  // ---- How long the loop sleeps -------------------------------------------------------------------

  /** The cycle over this body, as its calls went, reached its end. */
  predicate RanToEnd(p: Setup, cl: Cluster, body: string, es: seq<Event>) {
    Run(World(Start(p.cfg, p.build(body)), cl), es).ctl.pc.Finished?
  }

  /** Main result: in every run, after a poll with nothing new, that is a 304 or the body
      reconciled last, and after a cycle that reached its end, the loop sleeps for the poll
      interval; after a cycle that failed for one second; after a failed fetch for the backoff. */
  lemma {:induction false} SleepsExactly(p: Setup, w: LoopWorld, vs: seq<Visit>, i: nat)
    requires i < |vs|
    ensures var before, f := RunPolls(p, w, vs[..i]), vs[i].fetch;
      Waits(p, w, vs)[i] ==
      match f
      case FetchFailed => before.st.backoff
      case NotModified => p.cfg.pollInterval
      case Changed(body, _) =>
        if before.st.lastDigest == Some(p.digest(body)) || RanToEnd(p, before.cluster, body, vs[i].es)
        then p.cfg.pollInterval else 1000
    decreases vs
  {
    if i > 0 {
      assert vs[..i][0] == vs[0] && vs[..i][1..] == vs[1..][..i - 1] && vs[1..][i - 1] == vs[i];
      SleepsExactly(p, StepPoll(p, w, vs[0]), vs[1..], i - 1);
    }
  }

  /** Is the body of the answer now known to be in the cluster? */
  predicate IsTakenIn(p: Setup, w: LoopWorld, v: Visit) {
    v.fetch.Changed?
    && (w.st.lastDigest == Some(p.digest(v.fetch.body)) || RanToEnd(p, w.cluster, v.fetch.body, v.es))
  }

  /** What the loop remembers after a poll: the digest of a body taken in, skipped or
      reconciled, and its tag if it came with one; otherwise what it remembered before. */
  lemma RemembersExactly(p: Setup, w: LoopWorld, v: Visit)
    ensures var st := StepPoll(p, w, v).st;
      && st.lastDigest == (if IsTakenIn(p, w, v) then Some(p.digest(v.fetch.body)) else w.st.lastDigest)
      && st.lastEtag == if IsTakenIn(p, w, v) && v.fetch.etag.Some? then v.fetch.etag else w.st.lastEtag
  {}
}
