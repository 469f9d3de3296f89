/** Gateway API objects and the controller's configuration, reduced to the parts
    that decide names, ownership, references, ports and protection. */
module Objects {
  import opened Prelude

  datatype Kind =
    | Service
    | EndpointSlice
    | EnvoyBackend
    | BackendTLSPolicy
    | ListenerSet
    | HTTPRoute
    | TCPRoute
    | UDPRoute
    | SecurityPolicy

  /** Every object lives in the controller's namespace. */
  datatype Key = Key(kind: Kind, name: string)

  type Labels = map<string, string>

  datatype Obj = Obj(labels: Labels, body: Body)

  datatype BackendRef = BackendRef(group: string, kind: string, name: string,
                                   namespace: Option<string>, port: int)

  datatype Endpoint = IpEndpoint(address: string, port: int) | FqdnEndpoint(hostname: string, port: int)

  /** Envoy Backend TLS settings. */
  datatype TlsSettings = SkipVerify | SystemCas(sni: Option<string>)

  datatype PathMatchKind = Exact | Prefix | Regex

  datatype PathMatch = PathMatch(kind: PathMatchKind, value: string)

  datatype Header = Header(name: string, value: string)

  datatype PathRewrite = ReplacePrefixMatch(prefix: string) | ReplaceFullPath(path: string)

  /** HTTPRoute filters. The header modifiers carry their optional `set` list. */
  datatype Filter =
    | UrlRewrite(rewrite: Option<Rewrite>)
    | RequestHeaders(set_: Option<seq<Header>>)
    | ResponseHeaders(set_: Option<seq<Header>>)
    | RequestRedirect(scheme: string, port: Option<int>)

  datatype Rewrite = Rewrite(hostname: Option<string>, path: Option<PathRewrite>)

  datatype Listener = Listener(name: string, hostname: Option<string>, port: int,
                               protocol: string, secret: Option<string>)

  datatype Body =
    | ServiceBody(port: int, protocol: string)
    | EndpointSliceBody(addresses: seq<string>, port: int, protocol: string)
    | EnvoyBackendBody(endpoints: seq<Endpoint>, tls: Option<TlsSettings>)
    | BackendTLSPolicyBody(target: string, hostname: string)
    | ListenerSetBody(listeners: seq<Listener>)
    | HTTPRouteBody(hostnames: seq<string>, path: Option<PathMatch>,
                    filters: seq<Filter>, backend: Option<BackendRef>)
    | L4RouteBody(sections: seq<string>, l4Backend: BackendRef)
    | SecurityPolicyBody(route: string, authService: ExtAuthz, failOpen: bool)

  datatype ExtAuthz = ExtAuthz(service: string, namespace: Option<string>, port: int, path: Option<string>)

  datatype BackendKind = ServiceMode | EnvoyBackendMode

  datatype Config = Config(
    namespace: string,
    listenerSetName: string,
    httpPort: int,
    httpsPort: int,
    enableHttpsListeners: bool,
    enableTcpRoutes: bool,
    enableUdpRoutes: bool,
    backendKind: BackendKind,
    extAuthz: Option<ExtAuthz>,
    allowUnauthenticatedRoutes: bool,
    tlsSecretTemplate: Option<string>,
    managedLabelKey: string,
    managedLabelValue: string,
    instanceLabelKey: string,
    instanceLabelValue: string,
    readOnly: bool,
    maxBackoff: nat,
    pollInterval: nat)

  /** The object an unqualified backendRef names, in the controller's own namespace. */
  function RefTarget(r: BackendRef): Key {
    Key(if r.kind == "Backend" then EnvoyBackend else Service, r.name)
  }

  /** What a route points at inside the namespace: nothing when it has no
      backendRef or the reference carries a namespace. */
  function LocalRefs(b: Body): set<Key> {
    match b
    case HTTPRouteBody(_, _, _, Some(r)) => if r.namespace.None? then {RefTarget(r)} else {}
    case L4RouteBody(_, r) => if r.namespace.None? then {RefTarget(r)} else {}
    case _ => {}
  }

  /** The labels stamped on every object the controller writes. */
  function OwnerLabels(cfg: Config): Labels {
    map[cfg.managedLabelKey := cfg.managedLabelValue][cfg.instanceLabelKey := cfg.instanceLabelValue]
  }

  /** Does the garbage collector's label selector match these labels? */
  predicate Selected(cfg: Config, labels: Labels) {
    && cfg.managedLabelKey in labels && labels[cfg.managedLabelKey] == cfg.managedLabelValue
    && cfg.instanceLabelKey in labels && labels[cfg.instanceLabelKey] == cfg.instanceLabelValue
  }

  const SERVICE_NAME_LABEL := "kubernetes.io/service-name"

  /** The garbage collector sees the controller's own objects exactly when the two
      configured label keys do not overwrite each other. */
  lemma OwnerLabelsSelectedIff(cfg: Config)
    ensures Selected(cfg, OwnerLabels(cfg)) <==>
            (cfg.managedLabelKey != cfg.instanceLabelKey || cfg.managedLabelValue == cfg.instanceLabelValue)
  {}
}
