# Verified model of the pangolin Gateway API controller

The controller polls pangolin for a Traefik dynamic configuration, compiles it to Gateway
API objects and keeps a Kubernetes cluster in step with them; a small companion, the auth
shim, answers Envoy's external-authorization calls. This project models four parts of the
repository and proves what they guarantee.

1. **The controller as a step machine** (`Controller`, `Convergence`, `Interleaving`,
   `References`, `StaleRoutes`, `Interrupted`, `Exposure`, `Reconcile`, `Poll`). The cluster
   is a map from (kind, name) to labels and spec. Every patch, list and delete is one step
   that may succeed, be rejected, or take effect although its answer is lost; a new cycle
   may begin at any point, which also models crashes and restarts. Proved: convergence of
   mark and sweep to a closed form, non-interference of two controllers, references that
   resolve in every reachable state, when routes are left without their policies, and a
   short-circuiting poll loop that refines the loop that always reconciles. The
   program's loops (`ReconcileOnce`, `RunLoop`, …) are methods over a mutable `ApiServer`,
   each proved to be a run of the step machine.
2. **The compiler** (`Naming`, `Middleware`, `Address`, `Backend`, `Emit`, `L4`, `Ports`,
   `Routes`, `ListenerSets`, `Build`, `Guarantees`, `Reach`). Each loop of the source is a method
   proved equal to a specification function; the finished manifest is then shown to be
   well formed, closed under references, conflict-free, and guarded. What it holds is also
   said outright, from the raw configuration to the finished objects: words of names
   (`Words`), middlewares (`Translation`), server lists (`Servers`), the objects of services
   (`Emissions`), HTTP routers, their routes, policies and listeners (`HttpResources`), secret
   names (`Secrets`), raw TCP and UDP resources (`RawResources`). `Build.PlanOf` is the
   configuration as the build sees it, with services classified and names behind functions;
   lemmas about "every valid plan" apply to every configuration by `Build.PlanOfIsValid`,
   `Guarantees.PlanOfTells` and `Guarantees.PlanOfNamesTell`.
3. **The rule parser** (`Rule`, `RuleGrammar`). Two scanners over the same text; a grammar
   of rules with a printer; the parser accepts exactly the supported fragment, and the
   route it yields means what the rule means exactly when a stated condition holds.
4. **The auth shim** (`FormUrl`, `Requests`, `Shim`, `Questions`). Form-urlencoding after
   sections 5.1 and 5.2 of the WHATWG URL Standard, removal of one query parameter, the
   decision of one check, what pangolin is asked and what each answer says, and runs of
   client, Envoy, shim and pangolin.

`EndToEnd` joins the compiler to the controller and to the poll loop.

What is taken as given: SHA-256 and the server's tags are injective where a lemma says so;
the 32-bit name hash is an arbitrary function; URL and IP parsing, UTF-8 repair and header
validity are parameters; `If-None-Match` answers follow section 13.1.2 of RFC 9110 (an
honest server answers 304 only to the current body's tag). Valid labels are those of
section 2.1 of RFC 1123 and section 2.3.4 of RFC 1035 with no double dash.

## Where code and documentation part

The model follows the code. Each point is a lemma, with the exact condition under which code
and documentation agree wherever there is one.

- `src/transform/backend.rs:130-134` says the infix keeps families apart; an http service
  `tcp-x` and a tcp service `x` share synthesised names (`Emit.FamiliesCollideIff`).
- `src/transform/rule.rs:1-13` describes conjunctions as translated; several `Host`
  predicates become a union, only the last path predicate is kept, and a path without a
  leading slash gets one (`RuleGrammar.MeaningPreservedIff`).
- A bracketed or plain L4 host that contains `://` is cut there (`Address.PlainRoundTripIff`,
  `Address.BracketedRoundTripIff`).
- After a half-applied failure, going back to the last good body is skipped. That is harmless
  exactly when the attempted manifest is part of the last one (`Poll.RevertsAreSafeIff`,
  `EndToEnd.BuiltRevertsAreSafeIff`); `Poll.RevertLeavesWrongPort` is a run where it is not.
- A 200 without a tag leaves an old tag in place (`Poll.TagStaysFreshIff`).
- A failed sweep is remembered as done, so its orphans stay until the body changes
  (`Interrupted.FinishedCycleLeaves`, `Poll.LeftoversWaitForNextBody`).
- Stale TCP and UDP routes are swept after the Services they point at, and a failed HTTPRoute
  list has the same effect on HTTPRoutes. Routes resolve throughout exactly when no dropped
  route uses an object the cycle would sweep (`StaleRoutes.StaleRoutesSafeIff`).
- Policies are applied after the routes they guard. A cycle never shows a route it guards
  without a fail-closed policy exactly when each has one beforehand that the cycle does not
  turn to another route (`Exposure.NeverExposesIff`).
- Policies are swept even if the sweep of HTTPRoutes failed. A route the manifest drops keeps
  a guard for as long as it stands, in every run, exactly when one of its guards is neither
  applied nor swept (`Exposure.DroppedStayGuardedIff`). Otherwise a cycle in which only the
  list of HTTPRoutes fails strips it and still finishes, so its body is remembered and the
  route stays open until the body changes (`Exposure.RouteListFailureExposes`;
  `Exposure.DroppedRouteLosesGuard` is a literal cluster).
- References of services that share a synthesised name all reach the same servers: those of
  the services of that name whose slice or Backend no later service overwrote
  (`Reach.ReferenceReaches`), which without hashing is the last one built
  (`Reach.LastBuiltIsReached`).
- A slice whose name collides with a later service's is overwritten, which leaves its Service
  without servers unless another slice carries its name (`Reach.EveryServiceHasSliceIff`,
  `Reach.OverwrittenSlice`).
- Hosts that differ only in case, or in `.` against `-`, get one listener name
  (`Guarantees.ShortListenerNamesDifferIff`).
- Routes refer to the ListenerSet by its configured name, which is its real name only if it
  is already a label (`ListenerSets.ParentRefResolvesIff`).
- Policies of protected routes can overwrite each other only when long route names hash
  alike (`Build.ProtectedRoutersAreGuardedIff`, `Routes.ShortRoutesInjective`).
- The sweeper sees the controller's own objects only if the label keys do not overwrite each
  other (`Objects.OwnerLabelsSelectedIff`, `Guarantees.StampedIsSelectedIff`).
- The backoff bound needs a maximum of at least one second (`Poll.BackoffBoundedIff`).
- Without a path prefix, the health path of the shim shadows the same path of a guarded
  resource (`Shim.ProbeIff`, `Shim.ServedOkIff`).
- A hand-off whose path cannot stand in a header makes the handler panic (`Shim.HandoffIff`;
  `Shim.DelPathPanics` is a concrete request).

## Model

| member | source | states |
|---|---|---|
| Objects.OwnerLabelsSelectedIff | src/apply.rs:16-27 | the owner labels match the sweeper's selector if and only if the two label keys differ or carry one value |
| ControllerSteps.RunAppend | src/reconcile.rs:109-261 | running a series of API calls in two parts is running it at once |
| ControllerSteps.StepKeepsConfig | src/reconcile.rs:109-261 | no step changes the configuration, and only a new cycle changes the manifest |
| ControllerSteps.SweptIff | src/reconcile.rs:163-206 | a kind is swept except Envoy Backends in service mode, raw routes that are off, and policies without an authorization service |
| ControllerSteps.AppliedInOrder | src/reconcile.rs:121-150 | the nine kinds are applied in the program's order: backends, ListenerSet, routes, policies |
| ControllerSteps.SweptInOrder | src/reconcile.rs:163-206 | the kinds that are swept are swept in the program's order |
| ControllerSteps.PatchedIs | src/apply.rs:63-88 | an applied object has the applied spec; applied labels win and others stay |
| Convergence.ReconciledIsFixpoint | src/reconcile.rs:121-206 | a second undisturbed cycle changes nothing |
| Convergence.StepKeepsPendingSound | src/gc.rs:19-42 | every step keeps: whatever is still to be deleted is owned, of a swept kind and not desired |
| Convergence.StepKeepsGoal | src/reconcile.rs:121-206 | no step, however it fails, moves the state the cycle is meant to end in |
| Convergence.RunKeepsGoal | src/reconcile.rs:121-206 | whatever prefix of a cycle ran and however its calls failed, the goal is the one seen from the first state |
| Convergence.PatchProgress | src/apply.rs:63-88 | a successful apply leaves its object settled and disturbs no settled object |
| Convergence.ListProgress | src/gc.rs:19-24 | a successful list dooms every orphan of its kind |
| Convergence.DeleteProgress | src/gc.rs:25-42 | deleting the doomed objects leaves no orphan of the kind and no desired object is touched |
| Convergence.CycleConverges | src/reconcile.rs:109-261 | from every cluster a fault-free cycle ends in exactly the closed form: desired objects applied, owned orphans of swept kinds gone, all else as it was |
| Convergence.RetriesConverge | src/reconcile.rs:109-261 | after any number of crashed or failed attempts the finishing cycle ends where an undisturbed first one would have |
| Convergence.CycleCanFinish | src/reconcile.rs:109-261 | every cycle that has not failed can run to its end without faults, so convergence is not vacuous |
| Convergence.ReconciledIsExact | src/gc.rs:25-42 | in the goal state the owned names of each swept kind are the desired ones, every desired object has its spec and labels, and neither desired nor owned objects are unchanged |
| Convergence.OwnedExactIff | src/gc.rs:19-42 | for a swept kind owned equals desired if and only if the desired labels match the selector |
| Convergence.FailedApplyDeletesNothing | src/reconcile.rs:121-163 | a cycle that has not got past its apply phase has deleted nothing and changed nothing it does not want |
| Convergence.UnownedUntouched | src/gc.rs:25-42 | in every run, faults included, an object that is neither desired nor owned stays as it is |
| Convergence.ReadOnlyRunWritesNothing | src/apply.rs:63-88 | in read-only mode no run changes the cluster |
| Interleaving.StepIsLocal | src/gc.rs:19-42 | a controller's step inside its own names is the step it would take alone, and outside them nothing moves |
| Interleaving.StepKeepsOwnedWithin | src/apply.rs:16-27 | no step makes an object selectable by a controller with another instance label |
| Interleaving.StepKeepsCoexisting | src/config.rs:225-233 | two controllers with different instance labels and disjoint names stay apart under every step of either |
| Interleaving.InterleavingIsProduct | src/gc.rs:19-42 | in every interleaving, faults and restarts included, each controller and its part of the cluster end where its own steps alone would have taken them, and nobody's objects are untouched |
| Interleaving.FinishedBesideAnother | src/reconcile.rs:109-261 | a fault-free cycle that finished beside another controller owns, per swept kind, exactly its desired names |
| References.PatchKeepsInvariant | src/reconcile.rs:121-150 | backends are applied before routes, so every apply keeps owned HTTPRoutes resolving |
| References.ListKeepsInvariant | src/reconcile.rs:163-181 | a list keeps the invariant: after the HTTPRoute sweep only desired HTTPRoutes are owned |
| References.DeleteKeepsInvariant | src/reconcile.rs:163-206 | a delete keeps the invariant: backends are deleted only once no owned HTTPRoute refers to them |
| References.RoutesAlwaysResolve | src/reconcile.rs:121-206 | in every run of cycles in which HTTPRoute lists succeed and HTTPRoute deletes take effect, each owned HTTPRoute resolves in every state |
| References.StartResolves | src/reconcile.rs:121-150 | the invariant holds at the start for any closed manifest in any cluster whose routes resolve |
| References.StaleRouteDangles | src/reconcile.rs:163-206 | the literal witness: after a failed HTTPRoute list, and for a stale TCPRoute with no failure at all, a Service disappears under a standing route |
| StaleRoutes.RunKeeps | src/reconcile.rs:121-206 | in every run of a cycle, under any faults, dropped objects are untouched or swept orphans, and wanted routes are as before or applied with their backends in place |
| StaleRoutes.SweptUseDangles | src/gc.rs:19-42 | for every dropped route that uses an orphan there is a run that sweeps the orphan and leaves the route |
| StaleRoutes.StaleRoutesSafeIff | src/reconcile.rs:121-206 | owned HTTP, TCP and UDP routes all resolve in every state of every run of the cycle, under any faults, if and only if no owned route the manifest has dropped refers to an object the cycle would sweep |
| StaleRoutes.StaleRouteIsStaleUse | src/reconcile.rs:163-206 | the literal witness meets the failing side of that condition |
| Interrupted.ApplyUntil | src/reconcile.rs:121-150 | successful applies can bring any outstanding object's turn, leaving alone what is still outstanding |
| Interrupted.AbortedTouchesOnce | src/reconcile.rs:121-150 | a cycle that has not got past its applies has left each object as it was or as applied |
| Interrupted.HarmlessFailureKeeps | src/reconcile.rs:121-150 | a failed cycle whose applies are harmless keeps a cluster covered and tidy for the manifest reconciled before |
| Interrupted.FailuresHarmlessIff | src/reconcile.rs:121-150 | in a cluster up to date with one manifest, every failed cycle for another leaves it so if and only if no single apply would unsettle an object of the first or make an orphan |
| Interrupted.FinishedCycleLeaves | src/reconcile.rs:163-206 | a cycle that finishes has applied all its manifest; orphans are left only of kinds whose list failed or delete was rejected, and they are all that separates the cluster from the goal |
| Interrupted.LeftoversClear | src/gc.rs:25-42 | the next working cycle, whatever its manifest, ends with the objects and specs it would have ended with had no sweep failed |
| Exposure.NeverExposesIff | src/reconcile.rs:135-150 | in every state of every run of a cycle, faults included, each standing route the manifest guards has a fail-closed policy targeting it, if and only if each has one beforehand that the manifest does not turn to another route |
| Exposure.AppliedIsGuarded | src/reconcile.rs:135-206 | once the applies are done every route the manifest guards is guarded, whatever the sweeps do |
| Exposure.GuardsStayIff | src/reconcile.rs:163-206 | in every run dropped routes that still stand keep each of their guards if and only if the cycle neither applies nor sweeps any of those |
| Exposure.RouteListFailureExposes | src/reconcile.rs:163-203 | a dropped route all of whose guards are applied or swept stands unguarded after a cycle in which only the list of HTTPRoutes fails, and that cycle finishes |
| Exposure.DroppedStayGuardedIff | src/reconcile.rs:163-206 | in every run dropped routes that still stand keep some guard if and only if each has one the cycle neither applies nor sweeps |
| Exposure.DroppedRouteLosesGuard | src/reconcile.rs:163-203 | the literal witness: one owned route and its owned policy, both dropped, end with the route standing open |
| Reconcile.ApiServer.Patch | src/apply.rs:63-88 | a patch merges the labels, replaces the spec, may be rejected or take effect unacknowledged, and is logged |
| Reconcile.ApiServer.ListOwned | src/gc.rs:19-24 | a list that answers returns exactly the names of the kind that match the selector |
| Reconcile.ApiServer.Delete | src/gc.rs:25-42 | a delete removes one object, may be rejected, or take effect unacknowledged |
| Reconcile.SsaApply | src/apply.rs:63-88 | nothing is sent in read-only mode; otherwise exactly one patch is, and its outcome reported |
| Reconcile.Sweep | src/gc.rs:15-44 | the sweep of one kind is a run of the step machine from listing that kind to listing the next; its calls are exactly that run's, and it reports whether the list answered |
| Reconcile.ApplyKind | src/reconcile.rs:121-150 | applying one kind takes the machine from nothing of that kind applied to all of it, or to failed at the first failing call; the calls made are that run's |
| Reconcile.ApplyAll | src/reconcile.rs:121-150 | applying the nine kinds in order is a run of the machine that ends in the sweeps, or failed after the first failing call; the calls made are that run's |
| Reconcile.SweepAll | src/reconcile.rs:163-206 | the sweeps in order, conditional ones included, are a run of the machine to its end, whatever fails on the way |
| Reconcile.ReconcileOnce | src/reconcile.rs:109-261 | one cycle over the API server makes exactly the calls of a run of the machine to its end; without faults it leaves the closed form, and an aborted one loses no object |
| Reconcile.SentAppend | src/apply.rs:63-88 | the calls two runs make one after the other are the calls of both |
| Reconcile.AbortedKeepsAll | src/reconcile.rs:121-163 | an aborted cycle has lost no key |
| Poll.HandleFetch | src/reconcile.rs:40-106 | the loop body is one step of the poll machine: state, cluster and wait; it calls nothing unless it has to reconcile, and then runs a cycle to its end; `Poll.SleepsExactly` and `Poll.RemembersExactly` say what it waits and remembers |
| Poll.RunLoop | src/reconcile.rs:28-107 | the endless loop, cut at any number of polls, is a run of the poll machine: same tags sent, same cluster, same waits, and the calls it makes are exactly those of a full cycle per poll that has to reconcile |
| Poll.SkipMeansSameBody | src/reconcile.rs:72-77 | when the loop short-circuits, the current body is the one reconciled last |
| Poll.CachedLoopRefinesNaive | src/reconcile.rs:41-106 | without cluster faults the short-circuiting loop leaves the cluster exactly where the loop that always reconciles would |
| Poll.LoopRefinesNaiveFromStart | src/reconcile.rs:35-106 | the same from the initial state after every poll |
| Poll.FailedReconcileIsRetried | src/reconcile.rs:88-99 | a failed reconcile moves neither tag nor digest, so the same body is reconciled again at the next poll |
| Poll.LoopIsUpToDate | src/reconcile.rs:41-106 | in every run the loop can make, cluster faults of every sort included, after each poll that skips or succeeds the cluster holds all the current body asks for, and is fully up to date unless that body's own sweeps left orphans; the one exception is a skip after a harmful failed attempt |
| Poll.RevertAfterFailureIsSkipped | src/reconcile.rs:72-77 | after a failed attempt the last good body is skipped and the cluster stays as the attempt left it |
| Poll.RevertsAreSafeIff | src/reconcile.rs:72-99 | a failed attempt followed by a return to the last good body always ends right if and only if none of the attempted applies would unsettle an object of that body or make an orphan |
| Poll.RevertLeavesWrongPort | src/reconcile.rs:72-99 | a run of three honest polls after which the skipped body's Service keeps the other body's port |
| Poll.LeftoversWaitForNextBody | src/reconcile.rs:72-99 | orphans of a failed sweep stay through any series of skips and failed fetches, during which their body stays among the skipped, and go with the next body's working cycle |
| Poll.SleepsExactly | src/reconcile.rs:44-106 | in every run the loop sleeps the poll interval after a 304, a body reconciled last or a cycle that reached its end, one second after a cycle that failed, and the backoff after a failed fetch |
| Poll.RemembersExactly | src/reconcile.rs:72-99 | a poll leaves the digest of a body skipped or reconciled, and its tag if it came with one; otherwise what was remembered before |
| Poll.SkipSoundIff | src/reconcile.rs:44-58 | every short-circuit is about the remembered body if and only if the remembered tag belongs to no other body |
| Poll.TagStaysFreshIff | src/reconcile.rs:96-99 | a reconciled answer keeps that condition if and only if it has a tag, there was none before, or the body is the old tag's |
| Poll.BackoffIsCappedDoubling | src/reconcile.rs:37-58 | in every reachable state the backoff is the capped doubling of the current streak of failures, between one second and the maximum |
| Poll.KthFailureWaits | src/reconcile.rs:44-58 | the k-th failed fetch in a row since the start or a fully successful poll waits min(2^(k-1) s, maximum) |
| Poll.BackoffBoundedIff | src/reconcile.rs:37-58 | every reachable backoff is within the bounds if and only if the maximum is at least one second |
| Text.ParseU16OfDecimal | src/transform/l4.rs:172-176 | every port's decimal text parses back to it |
| Text.ParseU16Iff | src/transform/l4.rs:172-176 | a text reads as a positive port if and only if it is the port's digits, leading zeros and one plus sign allowed |
| Text.TrimIff | src/transform/l4.rs:149-168 | trimming gives exactly the text without the blanks around it |
| Naming.CollapseDashes | src/transform/naming.rs:51-66 | the loop yields the text with every run of dashes made one |
| Naming.MakeDnsLabel | src/transform/naming.rs:11-43 | the program's steps, trailing dashes popped in a loop, give the specified label |
| Naming.DnsLabelIsValid | src/transform/naming.rs:11-43 | every string becomes a valid label: 1 to 63 of a-z, 0-9 and dash, alphanumeric ends, no double dash |
| Naming.DnsLabelIdempotent | src/transform/naming.rs:11-43 | labels are left alone, so sanitising twice is sanitising once |
| Naming.PrefixedLabelFits | src/transform/naming.rs:46-49 | a prefixed name that fits is the prefix, a dash and the sanitised stem |
| Naming.PrefixedLabelInjectiveIff | src/transform/naming.rs:46-49 | names that need no hashing share a label if and only if they share a stem |
| Naming.PrefixedLabelInjective | src/transform/naming.rs:46-49 | on valid labels that need no hashing prefixing is injective |
| Naming.PrefixedLabelInFamily | src/transform/naming.rs:11-49 | however long the name, its label keeps the prefix as its family |
| Naming.LabelsEqualIff | src/transform/naming.rs:11-43 | two arbitrary names get one label exactly when they sanitise alike unhashed, are hashed with equal hashes and heads, or one spells out the other's head and hash |
| Words.SplitWords | src/transform/naming.rs:11-43 | every text is words of ASCII letters and digits with gaps between them |
| Words.StemIsItsWords | src/transform/naming.rs:11-43 | a sanitised text is its words in lower case joined by single dashes |
| Words.LabelIsItsWords | src/transform/naming.rs:11-43 | so is its label if that fits; without words it is the fallback name, and too long it is cut as late as possible and given the hash of the text |
| Rule.NextArgFrom | src/transform/rule.rs:172-208 | the index scan of one backtick argument stops where the specification does, without going out of range |
| Rule.ReadArgsFrom | src/transform/rule.rs:172-208 | the index scan of the arguments reads what the specification reads and ends at the same place |
| Rule.Scan | src/transform/rule.rs:63-81 | the first pass finds a disjunction or negation exactly where one stands outside backticks |
| Rule.CloseArgsFrom | src/transform/rule.rs:118-123 | arguments and closing parenthesis are read to where the specification reads them |
| Rule.PredicateFrom | src/transform/rule.rs:104-123 | identifier, blanks and arguments give the specified predicate or reason to stop |
| Rule.NextPredicateFrom | src/transform/rule.rs:83-125 | one turn of the walk finds the same predicate, or the same reason to stop |
| Rule.Parse | src/transform/rule.rs:60-128 | parsing terminates in range on every string and yields the specified result |
| RuleGrammar.ScanIsExact | src/transform/rule.rs:63-81 | on printed rules the first pass flags negation exactly when the rule has one, and disjunction whenever it has one |
| RuleGrammar.TokensOfFlat | src/transform/rule.rs:83-125 | walking a printed conjunction finds its predicates in order |
| RuleGrammar.ParensAreJunk | src/transform/rule.rs:83-125 | parentheses are noticed wherever they stand in a conjunction |
| RuleGrammar.HandleCalls | src/transform/rule.rs:130-162 | handling a conjunction's predicates rejects it exactly if one is unsupported, and collects all hosts and the last path |
| RuleGrammar.ParserAcceptsExactlySupported | src/transform/rule.rs:28-128 | for every rule, its printed text is usable if and only if it is a parenthesis-free conjunction of the four supported predicates with a host; then the hosts are all Host arguments and the path the last one |
| RuleGrammar.TranslatableMeansSame | src/transform/rule.rs:130-170 | a translatable rule and its route match the same requests under every path matcher |
| RuleGrammar.UntranslatableDiffers | src/transform/rule.rs:130-170 | any other accepted rule has a request its route matches and it does not |
| RuleGrammar.MeaningPreservedIff | src/transform/rule.rs:130-170 | an accepted rule means what its route means if and only if all Host predicates list the same hosts and all path predicates are one slash-leading or regular-expression path |
| RuleGrammar.OneHostOnePathIsTranslatable | src/transform/rule.rs:130-170 | one Host and at most one slash-leading path satisfy that condition |
| RuleGrammar.SeparatorsSkip | src/transform/rule.rs:172-208 | blanks and commas before an argument do not matter |
| RuleGrammar.BareArgument | src/transform/rule.rs:172-208 | an argument without backticks runs to the next comma or closing parenthesis, trimmed |
| RuleGrammar.UnclosedArgument | src/transform/rule.rs:172-208 | an argument whose backtick is never closed runs to the end |
| RuleGrammar.ArgumentsEnd | src/transform/rule.rs:172-208 | a closing parenthesis, or the end of the text, ends the arguments |
| RuleGrammar.ConnectorsSkip | src/transform/rule.rs:87-93 | blanks, ampersands and bars between predicates do not matter to the walk |
| RuleGrammar.PredicateIsRead | src/transform/rule.rs:104-124 | a name, blanks and an opening parenthesis begin a predicate; its arguments follow, and a closing parenthesis if there is one |
| RuleGrammar.WalkEnds | src/transform/rule.rs:97-117 | a name without a parenthesis ends the walk, and so does anything that is no name |
| RuleGrammar.FlagsExactly | src/transform/rule.rs:63-81 | for every text the first pass flags disjunction and negation exactly where two bars, or an exclamation mark, stand behind an even number of backticks |
| RuleGrammar.RegexpFlagged | src/transform/rule.rs:130-140 | of the predicates walked over `HostRegexp` is flagged, and it alone |
| Middleware.SplitRequestHeaders | src/transform/middleware.rs:210-234 | the loop over custom request headers turns each Host into a rewrite and keeps the others in order |
| Middleware.CollectFilters | src/transform/middleware.rs:46-58 | the loop translates the named middlewares that exist, in order |
| Middleware.BuildFilters | src/transform/middleware.rs:46-60 | a router's filters are the merge of its translated middlewares |
| Middleware.MergeFilters | src/transform/middleware.rs:66-144 | the merging loop yields the specified merge |
| Middleware.MergeConserves | src/transform/middleware.rs:66-144 | merging loses and invents nothing: rewrite, header entries and other filters are the same before and after |
| Middleware.PartsAreProjections | src/transform/middleware.rs:66-144 | those parts are the other filters in order and all header entries in order |
| Middleware.RewriteIsLastHostFirstPath | src/transform/middleware.rs:66-144 | the rewrite keeps the last hostname and the first path |
| Middleware.MergeIsUnique | src/transform/middleware.rs:66-144 | at most one rewrite, one request-header and one response-header filter remains |
| Middleware.MergeIdempotent | src/transform/middleware.rs:66-144 | merging twice is merging once |
| Middleware.MergeIsCongruence | src/transform/middleware.rs:66-144 | merging a concatenation is merging the concatenation of the merges |
| Middleware.NoHostHeaderSurvives | src/transform/middleware.rs:208-268 | no Host header ever survives as a request-header entry |
| Translation.MemberIff | src/transform/middleware.rs:37-43 | a member of an object is the first entry with its key |
| Translation.ProtectedIff | src/transform/middleware.rs:27-44 | a router is protected if and only if some name it lists is a defined object whose member `plugin` has a member `badger`, or is undefined and literally `badger` |
| Translation.RewritesPath | src/transform/middleware.rs:270-302 | `addPrefix` and `replacePath` become a prefix and a full path rewrite to the text they carry, nothing without one |
| Translation.StripsPrefix | src/transform/middleware.rs:304-319 | `stripPrefix` becomes the empty prefix rewrite if it lists a prefix |
| Translation.RedirectsScheme | src/transform/middleware.rs:180-206 | `redirectScheme` becomes a redirect to http or https, with the port if its text is a 32-bit number, and nothing for other schemes |
| Translation.ParseI32Iff | src/transform/middleware.rs:180-190 | which texts are which 32-bit number |
| Translation.HostHeaderIff | src/transform/middleware.rs:208-232 | the Host header is known in any casing |
| Translation.EntriesInOrder | src/transform/middleware.rs:208-247 | the header entries set, and the Host rewrites, are those with text values in order, none passed over |
| Translation.SetsHeaders | src/transform/middleware.rs:208-268 | `headers` becomes its Host rewrites, then one filter for request and one for response headers, each if there are any |
| Translation.OthersAreDropped | src/transform/middleware.rs:146-178 | no other kind becomes a filter |
| Translation.NonObjectsAreDropped | src/transform/middleware.rs:146-153 | nor does anything that is no object or an empty one |
| Translation.TranslatedInOrder | src/transform/middleware.rs:46-60 | middlewares are translated one by one in the order the router names them |
| Address.PlainRoundTripIff | src/transform/backend.rs:300-336 | a printed host and port parse back if and only if the host is non-empty, starts with neither blank nor bracket and contains no `://` |
| Address.BracketedRoundTripIff | src/transform/backend.rs:300-336 | a bracketed host and port parse back if and only if the host is non-empty and contains neither `]` nor `://` |
| Address.SchemeIsIgnored | src/transform/backend.rs:300-336 | one scheme in front changes nothing |
| Backend.ClassifyEntries | src/transform/backend.rs:338-438 | the classifying loop yields the specified classification, which `Servers.ClassifiedExactly` describes |
| Backend.ClassKind | src/transform/backend.rs:338-438 | IPs if any entry is one, else cluster DNS if any is, else a bare name if any may be used |
| Backend.ClassKindPermutation | src/transform/backend.rs:338-438 | the kind does not depend on the order of the entries |
| Backend.AddressesExact | src/transform/backend.rs:338-438 | an address is listed if and only if some IP entry with the chosen port and scheme has it |
| Backend.AddressesInOrder | src/transform/backend.rs:338-438 | the addresses are those of the matching entries at ever greater positions, with repetitions, none passed over |
| Backend.FirstIpIsThere | src/transform/backend.rs:338-438 | the entry that fixes port and scheme is one of the IP entries |
| Backend.IpsAreNeverEmpty | src/transform/backend.rs:338-438 | an IP classification has at least one address |
| Servers.ClusterDnsIff | src/transform/backend.rs:440-449 | a host is the Service `svc` in `ns` if and only if in lower case and without trailing dots it is `svc.ns.svc`, alone or before a dot |
| Servers.ClusterDnsRoundTrip | src/transform/backend.rs:440-449 | every such name, in any casing and with any search domain, is read back |
| Servers.BracketsDrop | src/transform/backend.rs:264-295 | the brackets around a literal host go, and nothing else |
| Servers.ServersInOrder | src/transform/backend.rs:264-295 | the servers are those of the URLs, or addresses, that can be read, in order, none passed over |
| Servers.ClassifiedExactly | src/transform/backend.rs:338-438 | the first address decides port and scheme; without any, the first name of a Service in the cluster is taken with its own; without either the first name in envoy-backend mode, and nothing in service mode |
| Emit.ParseUrlServers | src/transform/backend.rs:264-295 | the loop keeps the servers whose URL has host and port, in order |
| Emit.BuildBackends | src/transform/backend.rs:58-110 | the loop over http services yields the specified index and manifest |
| Emit.BuildL4Backends | src/transform/backend.rs:135-176 | the loop over raw services does too |
| Emit.EmitAddsBackends | src/transform/backend.rs:182-233 | an emission adds only well-formed objects of the kinds its mode allows, and its own target when it is a local one |
| Emit.EmittedReachesTarget | src/transform/backend.rs:480-581 | right after its emission a reference reaches exactly the classified servers in either mode |
| Emit.BuildResolves | src/transform/backend.rs:58-176 | every local reference of the index has its object in the manifest |
| Emit.FamiliesCollideIff | src/transform/backend.rs:130-134 | an http and a raw service share a synthesised name exactly when their full texts collide, which for names that fit means that the http stem spells the infix and the other stem |
| Emissions.ManifestHoldsWritten | src/transform/backend.rs:480-770 | the Services, slices, Backends and TLS policies of the finished manifest are precisely the objects its services write (ports, protocols, addresses, endpoints, what TLS verifies and when it does not), each as the last service of its name wrote it |
| Emissions.NamesSpelled | src/transform/backend.rs:453-459 | names that fit are `svc`, `eps`, `be` or `btp`, the infix and the sanitised name |
| Emissions.HttpTargetIs | src/transform/backend.rs:58-128 | a service without servers comes to nothing; verification is skipped exactly when its transport is defined and says so |
| Emissions.L4TargetIs | src/transform/backend.rs:135-176 | raw services never skip verification; those without servers come to nothing |
| L4.EntrypointPortIff | src/transform/l4.rs:172-176 | an entry point names a port if and only if it is the protocol, a dash and the port's digits (leading zeros and one plus sign allowed), the port between 1 and 65535 |
| L4.ListenerNameIsPlain | src/transform/l4.rs:111-120 | a raw listener's name is its entry point unchanged, a valid label |
| L4.ListenerNameRoundTrip | src/transform/l4.rs:111-176 | a printed listener name parses back to its port under its own protocol and never under the other |
| L4.WantedIsUnreserved | src/transform/l4.rs:82-99 | a port is wanted exactly when a listed entry point names it and it is not reserved |
| L4.ClaimsExact | src/transform/l4.rs:82-121 | a router claims each wanted port that is free, once |
| L4.AllocateExact | src/transform/l4.rs:67-121 | a port belongs to the first list that wants it and to no other |
| L4.AllocationIsUnion | src/transform/l4.rs:67-121 | the allocated ports are exactly the wanted ones, each once |
| L4.ClaimPorts | src/transform/l4.rs:81-121 | the inner loop claims exactly the router's ports and pushes one listener and one section for each |
| L4.RouteOne | src/transform/l4.rs:67-142 | one router: skipped when not eligible, and its route emitted exactly when it got a port |
| L4.RouteRouters | src/transform/l4.rs:60-144 | the outer loop yields the specified listeners and manifest |
| L4.RouteAllIsAllocation | src/transform/l4.rs:60-144 | the one-pass loop is the two-phase form: allocate all ports, then emit listeners and routes |
| L4.BuildL4 | src/transform/l4.rs:54-145 | one protocol's build: backends, then routers |
| Ports.OwnerIsLeastName | src/transform/l4.rs:67-121 | a router owns a port if and only if it is eligible, lists it unreserved, and every other such router has a greater name |
| Ports.OwnedPortsAreListed | src/transform/l4.rs:67-121 | the owned ports as a whole are the listed ones, without duplicates |
| Ports.ListenerPortsExact | src/transform/l4.rs:67-121 | the listener ports are precisely the unreserved ports some eligible router lists, each on one listener |
| Ports.RoutesAreOwners | src/transform/l4.rs:123-142 | the emitted routes are exactly those of routers that own a port, each with its owner's ports |
| Ports.RoutesShareNoSection | src/transform/l4.rs:123-142 | emitted routes have pairwise disjoint sections |
| RawResources.RuleTakenIff | src/transform/l4.rs:147-170 | a raw router is taken if it sets no TLS options and its rule is absent, blank or, for TCP, the wildcard SNI, with blanks around it allowed |
| RawResources.ManifestRawListeners | src/transform/l4.rs:54-145 | the raw listeners of the finished ListenerSet are one per port that a router of an enabled protocol may have, named and typed by protocol and port |
| RawResources.ManifestRawRoutes | src/transform/l4.rs:54-257 | the TCP and UDP routes of the finished manifest are those of the routers that own a port, attached to the listeners of exactly those ports and leading to their service's servers; a protocol that is off has none |
| Routes.InsertKeepsAscending | src/transform/route.rs:24-29 | recording a host keeps the host index an ordered set |
| Routes.RecordHosts | src/transform/route.rs:165-172 | the loop records every host, and among the https hosts if the route is served over https |
| Routes.DecideRouter | src/transform/route.rs:31-140 | one router: skipped when unusable, unguarded or without backend, else its route, hosts and policy; `HttpResources.DecidedIff` says which |
| Routes.BuildRoutes | src/transform/route.rs:31-184 | the loop over the routers yields the specified hosts and manifest, which `HttpResources.ManifestRoutesExactly` describes |
| Routes.FoldExplains | src/transform/route.rs:31-184 | every route stems from an emitted router and its hosts are recorded; every policy is fail-closed and targets a route that is there |
| Routes.FoldTouchesOnlyRoutes | src/transform/route.rs:174-180 | routers add nothing but routes and policies |
| Routes.AllProtectedGuardedIff | src/transform/route.rs:174-180 | with ext-authz every emitted protected router is guarded if and only if no two of their routes share a policy name |
| Routes.UnguardedRoutersAreSkipped | src/transform/route.rs:59-78 | with neither ext-authz nor the override a protected router emits nothing |
| Routes.ShortPolicyNamesInjective | src/transform/ext_authz.rs:22-36 | route names of at most 60 characters have distinct policy names |
| Routes.ShortRoutesInjective | src/transform/ext_authz.rs:22-36 | so short route names meet the condition of the coverage result |
| ListenerSets.CollectListeners | src/transform/listener.rs:18-60 | the loops push one HTTP listener per host, one HTTPS listener per https host when enabled, then the raw ones |
| ListenerSets.BuildListenerSet | src/transform/listener.rs:18-82 | the one ListenerSet is inserted under its sanitised name |
| ListenerSets.ParentRefResolvesIff | src/transform/listener.rs:60-82 | routes find the ListenerSet if and only if its configured name is already a label |
| ListenerSets.ListenersConflictFree | src/transform/listener.rs:26-60 | hosts never conflict with each other or with raw listeners that do not conflict among themselves |
| ListenerSets.HostNamesInFamily | src/transform/listener.rs:26-58 | host listener names stay in the http and https families even when hashed |
| ListenerSets.L4NamesInFamily | src/transform/l4.rs:111-120 | raw listener names stay in the tcp and udp families |
| ListenerSets.HostNamesClashIff | src/transform/listener.rs:26-58 | two fitting hosts share a listener name if and only if they sanitise to one stem |
| Build.BuildL4Family | src/transform/mod.rs:91-113 | a raw block contributes nothing unless present and enabled |
| Build.BuildDesired | src/transform/mod.rs:52-89 | the phases in the program's order yield the specified manifest for every configuration |
| Build.PlanOfIsValid | src/transform/mod.rs:52-89 | what is proved of valid plans holds of every configuration |
| Build.ManifestIsWellFormed | src/transform/mod.rs:29-89 | every name is a valid label, every object has its owner labels and its own kind, and every backendRef without a namespace names an object of the manifest |
| Build.ModesArePure | src/transform/backend.rs:178-233 | envoy-backend mode yields no Service, EndpointSlice or BackendTLSPolicy, service mode no Envoy Backend |
| Build.SingleListenerSet | src/transform/listener.rs:62-82 | there is exactly one ListenerSet |
| Build.SectionsNameListeners | src/transform/l4.rs:123-257 | each sectionName of a raw route names a listener of the single ListenerSet |
| Build.HostnamesHaveListeners | src/transform/route.rs:165-180 | each hostname of a route has an HTTP listener on the HTTP port |
| Build.PoliciesTargetRoutes | src/transform/ext_authz.rs:22-61 | each policy is fail-closed, carries the configured service and targets a route of the manifest |
| Build.ProtectedRoutersAreGuardedIff | src/transform/route.rs:59-180 | the coverage result on the finished manifest, also when router names sanitise alike; `HttpResources.ProtectedAreGuardedIff` reads protection off the configuration |
| Build.NoUnguardedRoutes | src/transform/route.rs:59-78 | with neither ext-authz nor the override every HTTPRoute comes from an unprotected router, as the plan has it; `HttpResources.NoOpenRoutes` reads protection off the configuration |
| HttpResources.DecidedIff | src/transform/route.rs:44-163 | a router is emitted if and only if its rule can be used, its service has servers, and protection, if needed, is configured or waived; its route, hosts and policy are those of the configuration |
| HttpResources.ManifestRoutesExactly | src/transform/route.rs:44-180 | the HTTPRoutes of the finished manifest are those of the emitted routers, with the hosts and path of the rule, the filters of the middlewares and the servers of the service of the last router of the name; the policies are those of the protected ones |
| HttpResources.PrintedRuleIsEmittedIff | src/transform/route.rs:44-85 | a router with a printed rule is emitted if and only if the rule is a conjunction of supported predicates with a host and the rest of the configuration allows it |
| HttpResources.RouteMeansRuleIff | src/transform/route.rs:94-148 | in the finished manifest a route takes exactly the requests its router's rule matches, under every path matcher, if and only if the rule is translatable; it has the rule's hosts and last path, with a leading slash |
| HttpResources.ClusterServiceIsReferenced | src/transform/route.rs:110-122 | a route to a service known by its cluster name refers to that Service in that namespace with the server's port |
| HttpResources.NoOpenRoutes | src/transform/route.rs:59-78 | with neither an authorization service nor the override every HTTPRoute is that of a router whose middlewares, read raw, need no protection |
| HttpResources.ProtectedAreGuardedIff | src/transform/route.rs:174-180 | every emitted router whose middlewares need protection has a fail-closed policy if and only if no two of their routes share a policy name |
| HttpResources.ShortNamesTell | src/transform/ext_authz.rs:22-36 | short route names never do |
| HttpResources.HostListenersExactly | src/transform/listener.rs:26-58 | the listeners with a host are one on the http port per host of an emitted router, and one on the https port with the host's secret per host of one that wants https, where https is on and there is a template |
| Secrets.SecretsAreFilled | src/transform/listener.rs:84-88 | a template's marks are filled with the host and the dashed host wherever they stand |
| Guarantees.PlanOfTells | src/transform/l4.rs:111-176 | every configuration's raw listeners tell ports apart |
| Guarantees.ListenersNeverConflict | src/transform/listener.rs:26-60 | for every input the port, protocol and hostname triples of the ListenerSet are pairwise distinct |
| Guarantees.TcpSparesReservedPorts | src/transform/l4.rs:92-99 | no TCP listener uses the HTTP or HTTPS port |
| Guarantees.ManifestRoutesShareNoSection | src/transform/l4.rs:123-142 | in the finished manifest different routes of one protocol share no section |
| Guarantees.ListenerNamesDifferIff | src/transform/listener.rs:26-60 | listener names can clash only between two hosts of one family; the four families never clash, hashed names included |
| Guarantees.PlanOfNamesTell | src/transform/listener.rs:26-60 | every configuration's listener names carry their family |
| Guarantees.ShortListenerNamesDifferIff | src/transform/listener.rs:26-60 | where hosts fit, all listener names are distinct if and only if no two hosts sanitise to one stem |
| Guarantees.StampedIsSelectedIff | src/apply.rs:16-53 | an emitted object matches the sweeper's selector if and only if the owner keys overwrite neither each other nor a slice's service label |
| Guarantees.ManifestIsSelected | src/apply.rs:16-53 | with the three label keys apart every object of a built manifest is visible to the sweeper |
| Reach.BuildPlaces | src/transform/backend.rs:58-176 | after any series of services every slice or Backend holds what the last service of its name put there, and the Services are those of the series |
| Reach.ReferenceReaches | src/transform/backend.rs:178-233 | in the finished manifest the reference of every service with objects of its own reaches exactly the servers of the services that share its name and whose slice or Backend no later service overwrote, hashed names included |
| Reach.ReferencesReachIff | src/transform/backend.rs:178-233 | all those references reach exactly the servers their services were classified to have if and only if services that share a name have the same servers and under each name some slice or Backend is not overwritten |
| Reach.LastBuiltIsReached | src/transform/backend.rs:178-233 | where slices are shared exactly where Services are, and always in envoy-backend mode, a reference reaches the servers of the last service built under its name |
| Reach.EveryServiceHasSliceIff | src/transform/backend.rs:707-770 | in service mode the Services of the manifest are those of the services with objects of their own, and each has an EndpointSlice labelled with it if and only if under each Service name some slice is not overwritten |
| Reach.OverwrittenSlice | src/transform/backend.rs:707-770 | of two services whose slice names collide and whose Service names do not, the first has a Service without slice or servers |
| Reach.ShortServicesHaveSlices | src/transform/backend.rs:707-770 | when no service name is hashed each Service has its slice |
| Reach.IndexIsRefs | src/transform/backend.rs:58-176 | the index routes read holds that reference for each service, and none for services without servers |
| Reach.ShortNamesPaired | src/transform/backend.rs:453-459 | without hashing slices are shared exactly where Services are, and in envoy-backend mode there is only one name |
| EndToEnd.ProgramBuilds | src/transform/mod.rs:52-89 | every configuration compiles to a built manifest |
| EndToEnd.BuiltRoutesAlwaysResolve | src/reconcile.rs:121-206 | driven by compiled manifests, in every reachable state each owned HTTPRoute resolves, read-only mode included |
| EndToEnd.BuiltCycleIsExact | src/reconcile.rs:109-261 | whatever ran and failed before, one fault-free cycle leaves the owned objects of every swept kind exactly the compiled ones and unowned, undesired objects as they were |
| EndToEnd.PolledClusterIsExact | src/reconcile.rs:28-107 | after every answered poll of a run without cluster faults the controller owns exactly what the current body compiles to, however many polls were short-circuited |
| EndToEnd.EveryBuiltKindIsSwept | src/reconcile.rs:163-206 | whatever a build emits, its kind is one the same configuration sweeps |
| EndToEnd.HarmlessBuiltIff | src/reconcile.rs:121-150 | between compiled manifests a failed cycle is harmless if and only if its manifest asks for nothing the last one does not ask for in just the same way |
| EndToEnd.BuiltRevertsAreSafeIff | src/reconcile.rs:72-99 | over compiled manifests a return to the last good body after a failed attempt always ends right if and only if the attempted manifest is part of the last |
| EndToEnd.BuiltStaleRoutesSafeIff | src/reconcile.rs:121-206 | every compiled manifest is closed, so the condition on stale routes applies to it as it stands |
| EndToEnd.BuiltExposureIff | src/reconcile.rs:135-150 | every policy of a compiled manifest is fail-closed and targets one of its routes, so the condition on routes it guards applies to it as it stands |
| EndToEnd.BuiltDroppedIff | src/reconcile.rs:163-206 | the conditions on routes it drops apply to it as well |
| FormUrl.DecodeEncode | src/shim.rs:497-514 | percent-decoding undoes percent-encoding on every byte string |
| FormUrl.ParseSerialize | src/shim.rs:497-514 | parsing serialized pairs gives the pairs back in order |
| FormUrl.EncodesExactly | src/shim.rs:497-514 | letters, digits, `*`, `-`, `.` and `_` stand for themselves, a blank becomes a plus sign, and everything else an escape with upper-case digits |
| FormUrl.EscapesDecode | src/shim.rs:487-494 | every escape is decoded, whatever the case of its digits |
| FormUrl.OthersStay | src/shim.rs:487-494 | a plus sign is a blank; a percent sign that begins no escape, and everything else, stays |
| FormUrl.FormsSplit | src/shim.rs:487-494 | a form is its pieces between ampersands, one after the other |
| FormUrl.PiecesAreOnePair | src/shim.rs:487-494 | an empty piece is nothing, any other one pair split at its first equals sign |
| FormUrl.WithoutInOrder | src/shim.rs:497-514 | the pairs that stay do so in order, with repetitions, none passed over |
| FormUrl.KeepOthers | src/shim.rs:501-508 | the loop serializes exactly the pairs with another key |
| FormUrl.StripQueryParam | src/shim.rs:497-514 | the program's steps give the specified text, dropping a `?` nothing follows |
| FormUrl.StrippedIsExact | src/shim.rs:497-514 | the path is untouched and the query parses to exactly the pairs with another key, in order |
| FormUrl.StrippingIsIdempotent | src/shim.rs:497-514 | stripping twice is stripping once |
| FormUrl.FirstValue | src/shim.rs:487-494 | the value found is that of the first pair with the key, and none only if there is no such pair |
| FormUrl.ParseQuery | src/shim.rs:487-494 | the loop maps each key to its first value |
| Requests.CollectSessions | src/shim.rs:472-484 | the loop over the cookie header yields the specified sessions |
| Requests.LastValuesAreLast | src/shim.rs:472-484 | each session has the value of the last cookie of its name |
| Requests.SessionsAreCookies | src/shim.rs:472-484 | from a cookie header as clients print it, exactly the cookies whose names start with the configured one are collected |
| Requests.CollectHeaders | src/shim.rs:518-530 | the loop over the headers yields the specified map |
| Requests.ForwardedIff | src/shim.rs:518-530 | a header is forwarded if and only if it is no cookie and a readable value of it came |
| Requests.ForwardedIsFirst | src/shim.rs:518-530 | and then with the first such value |
| Requests.CanonicalInjective | src/shim.rs:534-547 | different header names stay different in canonical casing |
| Requests.CanonicalIdempotent | src/shim.rs:534-547 | canonical casing is stable |
| Questions.CanonicalIs | src/shim.rs:534-547 | in canonical casing a letter is upper case at the start and after a dash and lower case elsewhere |
| Questions.SessionsExactly | src/shim.rs:472-484 | a session is sent with a value if and only if the last piece of the cookie header that names it gives it that value; names are trimmed, not empty and start with the prefix |
| Questions.ForwardedExactly | src/shim.rs:518-530 | a name is forwarded with a value if and only if the first readable header that becomes this name carries it, cookies apart |
| Questions.RequestIpIff | src/shim.rs:255-257 | the client's address is the trimmed front of the forwarding chain, if there is any |
| Shim.PrefixRoundTrip | src/shim.rs:449-468 | taking off the prefix Envoy added gives the path behind the prefix's trailing slashes, the identity if and only if there are none |
| Questions.PrefixComesOffIff | src/shim.rs:449-468 | a prefix comes off exactly where it ends a segment, and a slash is put in front of a bare query or nothing |
| Questions.OriginalPathIs | src/shim.rs:244-247 | where the prefix does not come off, the whole path is taken |
| Questions.NoPrefixComesOff | src/shim.rs:449-454 | without a prefix to speak of the path is taken as it is |
| Questions.NamesAreSpelled | src/shim.rs:147-270 | the header names, methods, scheme and health path are spelled as in the program |
| Shim.OriginalKeepsQuery | src/shim.rs:244-247 | taking the prefix off, or failing to, leaves the query alone |
| Shim.QuerySurvives | src/shim.rs:449-468 | re-prefixed by Envoy and stripped again, a path keeps its query |
| Shim.Check | src/shim.rs:233-364 | the handler with its early returns asks the specified questions and gives the specified answer, or none where it panics |
| Shim.AllowedIff | src/shim.rs:233-364 | the check allows a request if and only if it names a host, its session token, if any, was answered and turned down, and verify answers valid with no redirect and no challenge to the question about this request; the user headers are verify's, field by field in `Questions.UserIsTold` |
| Shim.QuestionIsAboutRequest | src/shim.rs:309-320 | the question's path and query recombine to the requested URL and every parameter is asked with its first value |
| Questions.QuestionSays | src/shim.rs:249-320 | the question's scheme, host, method, tls flag, address, sessions and headers, each in terms of the request's headers |
| Questions.ExchangeSays | src/shim.rs:273-275 | the exchange is asked exactly about requests with a session token, for its first value, the host without port and the client's address |
| Questions.UserIsTold | src/shim.rs:343-360 | an allowed request goes on with the user's id, name, address, full name and role under their own headers, each if it is there and can stand in a header, no other header and none twice |
| Questions.UserNamesAreSpelled | src/shim.rs:347-353 | so are the names of the user's headers |
| Questions.RefusalsIff | src/shim.rs:252-363 | when the answer is the missing host, unavailable, the portal, a challenge or unauthorized |
| Questions.RefusalCodes | src/shim.rs:252-363 | which requests get 400, 503, 401 and 302, in terms of the host, the exchange's answer and verify's |
| Questions.RoutedCodes | src/shim.rs:147-152 | the routed service answers 200 or 405 on the health path and with the check's status elsewhere |
| Shim.FollowUpQuery | src/shim.rs:273-296 | the request that follows a hand-off has the same query pairs without the session parameter |
| Shim.HandoffNeverRepeats | src/shim.rs:273-307 | in every run the request after a hand-off is not handed off again; verify decides it |
| Shim.HandoffIff | src/shim.rs:273-307 | a request that gets a session is handed off if and only if its path can stand in a header; otherwise, and only then, it gets no answer |
| Questions.HandoffSays | src/shim.rs:279-299 | a hand-off goes to the same scheme, host and path with the cookie the exchange gave |
| Shim.DelPathPanics | src/shim.rs:279-295 | a concrete request whose path ends in DEL and whose session is accepted gets no answer |
| Shim.LocationIsHeaderIff | src/shim.rs:279-295 | the hand-off URL is a valid header value if and only if the request's path is |
| Shim.ServedOkIff | src/shim.rs:147-152 | the routed service answers 200 exactly to GET and HEAD on the health path and, elsewhere, to requests that may pass |
| Shim.ProbeIff | src/shim.rs:147-152 | behind Envoy a request lands on the health path if and only if nothing is prepended and it asks for that path |

## Left out

- HTTP clients, TLS setup, axum and tokio wiring, signal handling, readiness: I/O plumbing. Fetch, verify and exchange are answers supplied from outside; a run ends where shutdown would cut it.
- Environment parsing in `src/config.rs` and decoding of JSON into configurations: the model starts from decoded values. Decoding errors count as failed fetches.
- Server-Side Apply field ownership: a patch merges the labels it sets and replaces the spec; fields of other managers, the removal of labels no longer set, and annotations are not modelled.
- The selector string of `src/config.rs:225-233`: modelled as the conjunction it denotes.
- Status reporting, logging and all warning texts: no effect on state.
- Url::parse, IpAddr parsing, SHA-256, the name hash, UTF-8 repair and header-value validity: parameters, with the assumptions each lemma names.
- Regular expressions and path matching inside Envoy: `RuleGrammar` quantifies over every path matcher.
- Millisecond arithmetic is unbounded: overflow of `Duration` doubling is not modelled.
- Shim.HandoffNeverRepeats: for Envoy and shim prefixes that are equal, as documented, or contain no `?`; the client is taken to request the path of the Location it was sent on the same authority; how a client splits the URL text is not modelled.
- References.RoutesAlwaysResolve: HTTPRoutes only, and controllers that write (EndToEnd.BuiltRoutesAlwaysResolve adds read-only mode); StaleRoutes.StaleRoutesSafeIff covers all three kinds of routes under any faults.
- Poll.CachedLoopRefinesNaive: for servers that tag their 200 answers always or never; a server that sometimes leaves the tag out can make a kept tag stale, as TagStaysFreshIff says exactly.
- Requests.SessionsAreCookies: stated for headers as clients print them; for every other text `CollectSessions` still yields the specified sessions.
- The order in which the HTTP library lists headers of different names: each canonical name comes from one header name, so it does not matter.
- Exposure.NeverExposesIff: the model applies objects of one kind in any order, the code by name; so where the condition fails because a policy is turned to another route, the run shown may apply that policy earlier than the code would.
- Routes across namespaces: a backendRef with a namespace points outside the model.
