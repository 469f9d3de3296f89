/** The reconcile cycle as a step machine: each API call is one step, which may
    succeed, be rejected, or take effect although its answer is lost. */
module ControllerSteps {
  import opened Objects

  type Cluster = map<Key, Obj>

  /** Server-side apply: the controller's labels are merged in, its spec replaces the old one. */
  function Patched(cl: Cluster, k: Key, o: Obj): Obj {
    if k in cl then Obj(cl[k].labels + o.labels, o.body) else o
  }

  /** Position of a kind in the apply phase. */
  function Rank(kind: Kind): nat {
    match kind
    case Service => 0
    case EndpointSlice => 1
    case EnvoyBackend => 2
    case BackendTLSPolicy => 3
    case ListenerSet => 4
    case HTTPRoute => 5
    case TCPRoute => 6
    case UDPRoute => 7
    case SecurityPolicy => 8
  }

  /** The kinds swept after a successful apply phase, in order. */
  function SweepOrder(cfg: Config): seq<Kind> {
    [HTTPRoute, ListenerSet, EndpointSlice, Service]
    + (if cfg.backendKind == EnvoyBackendMode then [EnvoyBackend] else [])
    + (if cfg.enableTcpRoutes then [TCPRoute] else [])
    + (if cfg.enableUdpRoutes then [UDPRoute] else [])
    + (if cfg.extAuthz.Some? then [SecurityPolicy] else [])
    + [BackendTLSPolicy]
  }

  /** How an API call ended: `Unacknowledged` took effect but reported an error. */
  datatype Outcome = Succeeded | Rejected | Unacknowledged

  /** `Applying` holds what is still to be applied; `Deleting` the orphans of
      `kinds[0]` the last list returned that are still to be deleted. */
  datatype Pc =
    | Applying(rest: set<Key>)
    | Listing(kinds: seq<Kind>)
    | Deleting(kinds: seq<Kind>, doomed: set<string>)
    | Finished
    | Failed

  datatype Controller = Controller(cfg: Config, desired: Cluster, pc: Pc)

  datatype World = World(ctl: Controller, cluster: Cluster)

  /** `Begin` starts a cycle from any point, so it also models a crash and restart. */
  datatype Event =
    | Begin(desired: Cluster)
    | Patch(key: Key, outcome: Outcome)
    | List(ok: bool)
    | Delete(name: string, outcome: Outcome)

  function NextSweep(kinds: seq<Kind>): Pc {
    if kinds == [] then Finished else Listing(kinds)
  }

  function AfterApply(cfg: Config, rest: set<Key>): Pc {
    if rest == {} then NextSweep(SweepOrder(cfg)) else Applying(rest)
  }

  function AfterDelete(kinds: seq<Kind>, doomed: set<string>): Pc
    requires kinds != []
  {
    if doomed == {} then NextSweep(kinds[1..]) else Deleting(kinds, doomed)
  }

  /** Names the label selector returns for one kind. */
  function OwnedNames(cfg: Config, cl: Cluster, kind: Kind): set<string> {
    set k | k in cl && k.kind == kind && Selected(cfg, cl[k].labels) :: k.name
  }

  function NamesOf(cl: Cluster, kind: Kind): set<string> {
    set k | k in cl && k.kind == kind :: k.name
  }

  /** A key may be applied when nothing of an earlier kind is left to apply. */
  predicate MayApply(rest: set<Key>, k: Key) {
    k in rest && forall other :: other in rest ==> Rank(k.kind) <= Rank(other.kind)
  }

  /** One step. An event that the controller is not ready for changes nothing. */
  function Step(w: World, e: Event): World {
    var c, cl := w.ctl, w.cluster;
    match e
    case Begin(d) => World(c.(desired := d, pc := AfterApply(c.cfg, d.Keys)), cl)
    case Patch(k, outcome) =>
      if !(c.pc.Applying? && MayApply(c.pc.rest, k) && k in c.desired) then w
      else if c.cfg.readOnly then World(c.(pc := AfterApply(c.cfg, c.pc.rest - {k})), cl)
      else
        World(c.(pc := if outcome.Succeeded? then AfterApply(c.cfg, c.pc.rest - {k}) else Failed),
              if outcome.Rejected? then cl else cl[k := Patched(cl, k, c.desired[k])])
    case List(ok) =>
      if !(c.pc.Listing? && c.pc.kinds != []) then w
      else if !ok then World(c.(pc := NextSweep(c.pc.kinds[1..])), cl)
      else
        var kind := c.pc.kinds[0];
        World(c.(pc := AfterDelete(c.pc.kinds, OwnedNames(c.cfg, cl, kind) - NamesOf(c.desired, kind))), cl)
    case Delete(name, outcome) =>
      if !(c.pc.Deleting? && c.pc.kinds != [] && name in c.pc.doomed) then w
      else
        World(c.(pc := AfterDelete(c.pc.kinds, c.pc.doomed - {name})),
              if c.cfg.readOnly || outcome.Rejected? then cl else cl - {Key(c.pc.kinds[0], name)})
  }

  function Run(w: World, es: seq<Event>): World
    decreases es
  {
    if es == [] then w else Run(Step(w, es[0]), es[1..])
  }

  lemma {:induction false} RunAppend(w: World, es: seq<Event>, fs: seq<Event>)
    ensures Run(w, es + fs) == Run(Run(w, es), fs)
    decreases es
  {
    if es == [] {
      assert es + fs == fs;
    } else {
      assert (es + fs)[0] == es[0] && (es + fs)[1..] == es[1..] + fs;
      RunAppend(Step(w, es[0]), es[1..], fs);
    }
  }

  lemma RunSnoc(w: World, es: seq<Event>, e: Event)
    ensures Run(w, es + [e]) == Step(Run(w, es), e)
  {
    RunAppend(w, es, [e]);
    assert Run(Run(w, es), [e]) == Step(Run(w, es), e);
  }

  function Start(cfg: Config, d: Cluster): Controller {
    Controller(cfg, d, AfterApply(cfg, d.Keys))
  }

  /** No `Begin`: the events of one cycle. */
  predicate OneCycle(es: seq<Event>) {
    forall i :: 0 <= i < |es| ==> !es[i].Begin?
  }

  predicate FaultFreeEvent(e: Event) {
    match e
    case Begin(_) => false
    case Patch(_, outcome) => outcome.Succeeded?
    case List(ok) => ok
    case Delete(_, outcome) => outcome.Succeeded?
  }

  predicate FaultFree(es: seq<Event>) {
    forall i :: 0 <= i < |es| ==> FaultFreeEvent(es[i])
  }

  lemma StepKeepsConfig(w: World, e: Event)
    ensures Step(w, e).ctl.cfg == w.ctl.cfg
    ensures !e.Begin? ==> Step(w, e).ctl.desired == w.ctl.desired
  {}

  // ---- What the tables say ------------------------------------------------------------------------

  /** A kind is swept unless its resource may not be installed: Envoy Backends in service mode,
      raw routes that are off, policies without an authorization service. */
  lemma SweptIff(cfg: Config, kind: Kind)
    ensures kind in SweepOrder(cfg) <==>
      match kind
      case EnvoyBackend => cfg.backendKind == EnvoyBackendMode
      case TCPRoute => cfg.enableTcpRoutes
      case UDPRoute => cfg.enableUdpRoutes
      case SecurityPolicy => cfg.extAuthz.Some?
      case _ => true
  {
    var always := [HTTPRoute, ListenerSet, EndpointSlice, Service];
    var backends := if cfg.backendKind == EnvoyBackendMode then [EnvoyBackend] else [];
    var tcp := if cfg.enableTcpRoutes then [TCPRoute] else [];
    var udp := if cfg.enableUdpRoutes then [UDPRoute] else [];
    var policies := if cfg.extAuthz.Some? then [SecurityPolicy] else [];
    assert SweepOrder(cfg) == always + backends + tcp + udp + policies + [BackendTLSPolicy];
  }

  /** Kinds are applied in this order: backends, the ListenerSet, routes, policies. */
  lemma AppliedInOrder(i: nat, j: nat)
    ensures var order := [Service, EndpointSlice, EnvoyBackend, BackendTLSPolicy, ListenerSet, HTTPRoute, TCPRoute,
                          UDPRoute, SecurityPolicy];
      i < j < |order| ==> Rank(order[i]) < Rank(order[j])
  {}

  /** Kinds are swept in this order, those that are. */
  function SweepRank(kind: Kind): nat {
    match kind
    case HTTPRoute => 0
    case ListenerSet => 1
    case EndpointSlice => 2
    case Service => 3
    case EnvoyBackend => 4
    case TCPRoute => 5
    case UDPRoute => 6
    case SecurityPolicy => 7
    case BackendTLSPolicy => 8
  }

  predicate Rising(kinds: seq<Kind>) {
    forall i, j :: 0 <= i < j < |kinds| ==> SweepRank(kinds[i]) < SweepRank(kinds[j])
  }

  predicate Below(kinds: seq<Kind>, n: nat) {
    forall i :: 0 <= i < |kinds| ==> SweepRank(kinds[i]) < n
  }

  lemma RisesByOne(kinds: seq<Kind>, there: bool, kind: Kind)
    requires Rising(kinds) && Below(kinds, SweepRank(kind))
    ensures Rising(kinds + if there then [kind] else [])
    ensures Below(kinds + (if there then [kind] else []), SweepRank(kind) + 1)
  {}

  lemma AlwaysSweptRise()
    ensures Rising([HTTPRoute, ListenerSet, EndpointSlice, Service])
    ensures Below([HTTPRoute, ListenerSet, EndpointSlice, Service], 4)
  {}

  lemma RisesToTheEnd(s0: seq<Kind>, a: bool, b: bool, c: bool, d: bool)
    requires Rising(s0) && Below(s0, 4)
    ensures Rising(s0 + (if a then [EnvoyBackend] else []) + (if b then [TCPRoute] else [])
                   + (if c then [UDPRoute] else []) + (if d then [SecurityPolicy] else []) + [BackendTLSPolicy])
  {
    var s1 := s0 + (if a then [EnvoyBackend] else []);
    var s2 := s1 + (if b then [TCPRoute] else []);
    var s3 := s2 + (if c then [UDPRoute] else []);
    RisesByOne(s0, a, EnvoyBackend);
    RisesByOne(s1, b, TCPRoute);
    RisesByOne(s2, c, UDPRoute);
    RisesByOne(s3, d, SecurityPolicy);
    RisesByOne(s3 + (if d then [SecurityPolicy] else []), true, BackendTLSPolicy);
  }

  lemma SweptInOrder(cfg: Config)
    ensures Rising(SweepOrder(cfg))
  {
    AlwaysSweptRise();
    RisesToTheEnd([HTTPRoute, ListenerSet, EndpointSlice, Service], cfg.backendKind == EnvoyBackendMode,
                  cfg.enableTcpRoutes, cfg.enableUdpRoutes, cfg.extAuthz.Some?);
  }

  /** An applied object has the applied spec; the applied labels win, and others stay. */
  lemma PatchedIs(cl: Cluster, k: Key, o: Obj, label_: string)
    ensures var r := Patched(cl, k, o);
      && r.body == o.body
      && (label_ in o.labels ==> label_ in r.labels && r.labels[label_] == o.labels[label_])
      && (label_ !in o.labels ==>
            (label_ in r.labels <==> k in cl && label_ in cl[k].labels)
            && (label_ in r.labels ==> r.labels[label_] == cl[k].labels[label_]))
  {}
}
