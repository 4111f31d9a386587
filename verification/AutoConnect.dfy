/**
 The decision chain of `connect_auto`: validate, discover, probe, connect, fall back.
 Everything outside the client is a `World`: it answers the discovery request, DNS lookups,
 probes and dials, and fixes the order in which probe tasks are joined.
 */
module AutoConnect {
  import opened Wrappers
  import opened Durations
  import opened HostPort
  import opened Errors
  import opened Config
  import opened Handshake
  import opened Discovery
  import opened Selection
  import opened Probing
  import opened EndpointProbe

  datatype AutoConfig = AutoConfig(
    discoveryUrl: string,
    fallbackEndpoint: Option<string>,
    discoveryTimeout: Duration,
    probeTimeout: Duration)

  datatype EndpointSource =
    | Manual
    | Discovered(endpoint: string, addr: string, latency: nat)
    | Fallback(endpoint: string, reason: FallbackReason)

  /** A connected client: the address and server name every later dial uses, and how they were chosen. */
  datatype Connected = Connected(addr: string, serverName: string, policy: ReconnectPolicy, source: EndpointSource)

  /** How setting up the endpoint and the first dial ended; `Overdue` is the connect timeout. */
  datatype DialAnswer = BadTls | SocketFailed | Overdue | Ended(events: DialEvents)

  datatype DiscoveryAnswer = RequestFailed | Body(decoded: Option<seq<string>>)

  /**
   Dials are numbered: number 0 is the one the discovered path may make, and the fallback's
   address number `k` is dialed as number `k + 1`, so dialing an address again may end differently.
   */
  datatype World = World(
    systemRoots: Option<RootStore>,
    discovery: DiscoveryAnswer,
    probe: string -> ProbeEvents,
    describe: ProbeFailure -> string,
    schedule: nat -> seq<nat>,
    lookup: string -> LookupAnswer,
    dial: (nat, string, string) -> DialAnswer)

  /** System roots are never empty, every probe task is joined once, and lists fit in memory. */
  ghost predicate Sane(w: World) {
    && (w.systemRoots.Some? ==> w.systemRoots.value.certificates > 0)
    && (forall n: nat :: IsPermutation(w.schedule(n), n))
    && (forall endpoint :: JoinsAll(w.probe(endpoint)))
    && (w.discovery.Body? && w.discovery.decoded.Some? ==> |w.discovery.decoded.value| <= ISIZE_MAX)
  }

  predicate HasHttps(url: string) {
    "https://" <= url
  }

  /** `AutoConfig::validate`. */
  function ValidateAuto(a: AutoConfig): Option<ConfigError> {
    if a.discoveryUrl == "" then Some(EmptyDiscoveryUrl)
    else if !HasHttps(a.discoveryUrl) then Some(DiscoveryUrlNotHttps)
    else if a.discoveryTimeout == ZERO then Some(ZeroDiscoveryTimeout)
    else if a.probeTimeout == ZERO then Some(ZeroProbeTimeout)
    else if a.fallbackEndpoint.Some? then
      match SplitHostPort(a.fallbackEndpoint.value)
      case Ok(_) => None
      case Err(e) => Some(BadFallbackEndpoint(e))
    else None
  }

  /** Exactly the usable settings are accepted. */
  lemma ValidAutoIff(a: AutoConfig)
    ensures ValidateAuto(a).None? <==>
            && (exists rest :: a.discoveryUrl == "https://" + rest)
            && Total(a.discoveryTimeout) > 0 && Total(a.probeTimeout) > 0
            && (a.fallbackEndpoint.Some? ==> Accepted(a.fallbackEndpoint.value))
    ensures forall e :: ValidateAuto(a) == Some(BadFallbackEndpoint(e)) ==>
              a.fallbackEndpoint.Some? && SplitHostPort(a.fallbackEndpoint.value) == Err(e)
  {
    hide HostPort.SplitHostPort;
    OrderIsTotal(a.discoveryTimeout, ZERO);
    OrderIsTotal(a.probeTimeout, ZERO);
    if HasHttps(a.discoveryUrl) {
      assert a.discoveryUrl == "https://" + a.discoveryUrl[8..];
    }
  }

  // ---------- connecting to one endpoint ----------

  function DialFailure(d: DialAnswer): Option<ConnectError> {
    match d
    case BadTls => Some(Tls)
    case SocketFailed => Some(EndpointIo)
    case Overdue => Some(ConnectError.Handshake(HandshakeError.Timeout))
    case Ended(events) => DialVerdict(events)
  }

  /** The first dial succeeds on the server's acknowledgement alone, and names what kept it from getting one. */
  lemma DialFailureIff(d: DialAnswer)
    ensures DialFailure(d).None? <==> d.Ended? && d.events.Replied? && d.events.reply == "OK\n"
    ensures DialFailure(d) == Some(Tls) <==> d == BadTls
    ensures DialFailure(d) == Some(EndpointIo) <==> d == SocketFailed
    ensures DialFailure(d) == Some(ConnectError.Handshake(HandshakeError.Timeout)) <==>
            d == Overdue || d == Ended(ReplyTimedOut)
    ensures d.Ended? ==> DialFailure(d) == DialVerdict(d.events)
  {
    if d.Ended? {
      DialSucceedsIff(d.events);
    }
  }

  /** `connect_addr_with_source`, making dial number `n`. */
  function ConnectAddr(
    w: World, n: nat, addr: string, name: string, token: seq<Byte>, c: ClientConfig, source: EndpointSource)
    : Result<Connected, ConnectError>
  {
    if Validate(c).Some? then Err(ConnectError.Config(Validate(c).value))
    else if ValidateToken(token).Some? then Err(ConnectError.Config(ValidateToken(token).value))
    else
      match DialFailure(w.dial(n, addr, name))
      case Some(e) => Err(e)
      case None => Ok(Connected(addr, name, c.reconnect, source))
  }

  /** The attempt at address number `k` of a list, dials being numbered from `n`. */
  function AttemptAt(
    w: World, n: nat, addrs: seq<string>, k: nat, name: string, token: seq<Byte>, c: ClientConfig,
    source: EndpointSource): Result<Connected, ConnectError>
    requires k < |addrs|
  {
    ConnectAddr(w, n + k, addrs[k], name, token, c, source)
  }

  /** How the dial to that address fails, if it does. */
  function FailureAt(w: World, n: nat, addrs: seq<string>, k: nat, host: string): Option<ConnectError>
    requires k < |addrs|
  {
    DialFailure(w.dial(n + k, addrs[k], host))
  }

  /** Try the resolved addresses in turn, from dial number `n` on: the first success, or else the last error. */
  function TryAddrs(
    w: World, n: nat, addrs: seq<string>, name: string, token: seq<Byte>, c: ClientConfig, source: EndpointSource)
    : (r: Result<Connected, ConnectError>)
    ensures r.Ok? ==> exists k :: 0 <= k < |addrs| && r == AttemptAt(w, n, addrs, k, name, token, c, source)
                                  && forall j :: 0 <= j < k ==> AttemptAt(w, n, addrs, j, name, token, c, source).Err?
    ensures r.Err? ==> forall k :: 0 <= k < |addrs| ==> AttemptAt(w, n, addrs, k, name, token, c, source).Err?
    ensures r.Err? && addrs != [] ==> r == AttemptAt(w, n, addrs, |addrs| - 1, name, token, c, source)
  {
    if addrs == [] then Err(Resolve(NoAddresses))
    else
      var last := |addrs| - 1;
      assert forall j :: 0 <= j < last ==>
        AttemptAt(w, n, addrs, j, name, token, c, source) == AttemptAt(w, n, addrs[..last], j, name, token, c, source);
      match TryAddrs(w, n, addrs[..last], name, token, c, source)
      case Ok(x) => Ok(x)
      case Err(_) => AttemptAt(w, n, addrs, last, name, token, c, source)
  }

  /** The address loop of `connect_with_source`. */
  method ConnectFirst(
    w: World, n: nat, addrs: seq<string>, name: string, token: seq<Byte>, c: ClientConfig, source: EndpointSource)
    returns (r: Result<Connected, ConnectError>)
    ensures r == TryAddrs(w, n, addrs, name, token, c, source)
  {
    hide TryAddrs, ConnectAddr;
    var lastErr: Option<ConnectError> := None;
    var k := 0;
    NoneTried(w, n, name, token, c, source);
    assert addrs[..0] == [];
    while k < |addrs|
      invariant k <= |addrs|
      invariant TryAddrs(w, n, addrs[..k], name, token, c, source)
                == Err(if lastErr.Some? then lastErr.value else Resolve(NoAddresses))
    {
      OneMoreTried(w, n, addrs, k, name, token, c, source);
      var attempt := ConnectAddr(w, n + k, addrs[k], name, token, c, source);
      match attempt {
        case Ok(client) =>
          FirstSuccessWins(w, n, addrs, k + 1, name, token, c, source);
          return Ok(client);
        case Err(e) => lastErr := Some(e);
      }
      k := k + 1;
    }
    assert addrs[..k] == addrs;
    return Err(if lastErr.Some? then lastErr.value else Resolve(NoAddresses));
  }

  lemma NoneTried(w: World, n: nat, name: string, token: seq<Byte>, c: ClientConfig, source: EndpointSource)
    ensures TryAddrs(w, n, [], name, token, c, source) == Err(Resolve(NoAddresses))
  {
  }

  lemma OneMoreTried(
      w: World, n: nat, addrs: seq<string>, k: nat, name: string, token: seq<Byte>, c: ClientConfig,
      source: EndpointSource)
    requires k < |addrs|
    ensures TryAddrs(w, n, addrs[..k + 1], name, token, c, source)
            == match TryAddrs(w, n, addrs[..k], name, token, c, source)
               case Ok(x) => Ok(x)
               case Err(_) => AttemptAt(w, n, addrs, k, name, token, c, source)
  {
    hide ConnectAddr;
    assert addrs[..k + 1][..k] == addrs[..k];
  }

  lemma {:induction false} FirstSuccessWins(
      w: World, n: nat, addrs: seq<string>, k: nat, name: string, token: seq<Byte>, c: ClientConfig,
      source: EndpointSource)
    requires k <= |addrs| && TryAddrs(w, n, addrs[..k], name, token, c, source).Ok?
    ensures TryAddrs(w, n, addrs, name, token, c, source) == TryAddrs(w, n, addrs[..k], name, token, c, source)
    decreases |addrs|
  {
    if k == |addrs| {
      assert addrs[..k] == addrs;
    } else {
      assert addrs[..|addrs| - 1][..k] == addrs[..k];
      FirstSuccessWins(w, n, addrs[..|addrs| - 1], k, name, token, c, source);
    }
  }

  /** `connect_with_source`, dialing from number `n` on. */
  function ConnectTo(
    w: World, n: nat, endpoint: string, token: seq<Byte>, c: ClientConfig, source: EndpointSource)
    : Result<Connected, ConnectError>
  {
    if Validate(c).Some? then Err(ConnectError.Config(Validate(c).value))
    else if ValidateToken(token).Some? then Err(ConnectError.Config(ValidateToken(token).value))
    else
      match ExtractHost(endpoint)
      case Err(e) => Err(Resolve(BadHost(e)))
      case Ok(host) =>
        match w.lookup(endpoint)
        case LookupTimesOut => Err(Resolve(LookupTimedOut))
        case LookupFails => Err(Resolve(LookupFailed))
        case Found(addrs) => TryAddrs(w, n, addrs, host, token, c, source)
  }

  // ---------- discovery, then fallback ----------

  /** `with_resolved_roots`. */
  function WithRoots(w: World, c: ClientConfig): Result<ClientConfig, ConnectError> {
    if c.rootStore.Some? then Ok(c)
    else
      match w.systemRoots
      case Some(roots) => Ok(c.(rootStore := Some(roots)))
      case None => Err(Tls)
  }

  /** What one probe task comes back with. */
  ghost function ProbeTask(w: World, endpoint: string): ProbeOutcome
    requires Sane(w)
  {
    var e := w.probe(endpoint);
    if e.panic.Some? then Panicked(e.panic.value)
    else
      match ProbeOne(endpoint, e)
      case Ok((addr, latency)) => Reached(addr, latency)
      case Err(failure) => Unreachable(w.describe(failure))
  }

  ghost function Outcomes(w: World, endpoints: seq<string>): (os: seq<ProbeOutcome>)
    requires Sane(w)
    ensures |os| == |endpoints| && forall i :: 0 <= i < |os| ==> os[i] == ProbeTask(w, endpoints[i])
  {
    seq(|endpoints|, i requires 0 <= i < |endpoints| => ProbeTask(w, endpoints[i]))
  }

  /** `try_discovered`; the probe run is the one `Probing.ProbeAll` makes under the world's schedule. */
  ghost function TryDiscovered(w: World, token: seq<Byte>, c: ClientConfig): Result<Connected, FallbackReason>
    requires Sane(w)
  {
    if w.discovery.RequestFailed? then Err(DiscoveryFailed)
    else
      match Parsed(w.discovery.decoded)
      case Err(reason) => Err(reason)
      case Ok(endpoints) =>
        var order := w.schedule(|endpoints|);
        PermutationInRange(order, |endpoints|);
        match VerdictFor(endpoints, Outcomes(w, endpoints), order)
        case Err(reason) => Err(reason)
        case Ok(best) =>
          match SplitHostPort(best.endpoint)
          case Err(e) => Err(InvalidResponse(BadEndpoint(e)))
          case Ok((host, _)) =>
            match ConnectAddr(w, 0, best.addr, host, token, c, Discovered(best.endpoint, best.addr, best.latency))
            case Ok(client) => Ok(client)
            case Err(e) => Err(InitialConnectFailed(best.endpoint, e))
  }

  ghost function ConnectAuto(
    w: World, token: seq<Byte>, config: ClientConfig, a: AutoConfig): Result<Connected, ConnectError>
    requires Sane(w)
  {
    if Validate(config).Some? then Err(ConnectError.Config(Validate(config).value))
    else if ValidateToken(token).Some? then Err(ConnectError.Config(ValidateToken(token).value))
    else if ValidateAuto(a).Some? then Err(ConnectError.Config(ValidateAuto(a).value))
    else
      match WithRoots(w, config)
      case Err(e) => Err(e)
      case Ok(c) =>
        match TryDiscovered(w, token, c)
        case Ok(client) => Ok(client)
        case Err(reason) =>
          if a.fallbackEndpoint.None? then Err(ConnectError.AutoConfig(reason, None, None))
          else
            var fallback := a.fallbackEndpoint.value;
            match ConnectTo(w, 1, fallback, token, c, Fallback(fallback, reason))
            case Ok(client) => Ok(client)
            case Err(e) => Err(ConnectError.AutoConfig(reason, Some(fallback), Some(e)))
  }

  // ---------- what up-front validation buys ----------

  /** All checks made before any network activity passed. */
  predicate Checked(token: seq<Byte>, config: ClientConfig, a: AutoConfig) {
    Validate(config).None? && ValidateToken(token).None? && ValidateAuto(a).None?
  }

  /** Resolving the system roots keeps a valid configuration valid and leaves the policy alone. */
  lemma RootsKeepConfigValid(w: World, c: ClientConfig)
    requires Sane(w) && Validate(c).None? && WithRoots(w, c).Ok?
    ensures Validate(WithRoots(w, c).value).None?
    ensures WithRoots(w, c).value == c.(rootStore := if c.rootStore.Some? then c.rootStore else w.systemRoots)
    ensures WithRoots(w, c).value.rootStore.Some?
  {
    assert Validate(WithRoots(w, c).value) == None;
  }

  /** A dial reports neither a configuration error nor a bad host. */
  lemma DialErrorsAreNetworkErrors(d: DialAnswer)
    ensures DialFailure(d).Some? ==>
              !DialFailure(d).value.Config? && !DialFailure(d).value.Resolve? && !DialFailure(d).value.AutoConfig?
  {
  }

  lemma CheckedConnectAddr(
      w: World, n: nat, addr: string, name: string, token: seq<Byte>, c: ClientConfig, s: EndpointSource)
    requires Validate(c).None? && ValidateToken(token).None?
    ensures var r := ConnectAddr(w, n, addr, name, token, c, s);
            && (r.Err? ==> !r.error.Config? && !r.error.Resolve? && !r.error.AutoConfig?)
            && r == (match DialFailure(w.dial(n, addr, name))
                     case None => Ok(Connected(addr, name, c.reconnect, s))
                     case Some(e) => Err(e))
  {
    DialErrorsAreNetworkErrors(w.dial(n, addr, name));
  }

  /** `addr` is the first of the addresses at which the dial, numbered from `n`, succeeds under this host name. */
  ghost predicate FirstToAnswer(w: World, n: nat, addrs: seq<string>, host: string, addr: string) {
    exists k :: 0 <= k < |addrs| && addrs[k] == addr && FailureAt(w, n, addrs, k, host).None?
                && forall j :: 0 <= j < k ==> FailureAt(w, n, addrs, j, host).Some?
  }

  /** Some address of the list answers. */
  ghost predicate SomeAnswer(w: World, n: nat, addrs: seq<string>, host: string) {
    exists k: nat :: k < |addrs| && FailureAt(w, n, addrs, k, host).None?
  }

  lemma CheckedAttempt(
      w: World, n: nat, addrs: seq<string>, k: nat, host: string, token: seq<Byte>, c: ClientConfig, s: EndpointSource)
    requires Validate(c).None? && ValidateToken(token).None? && k < |addrs|
    ensures var r := AttemptAt(w, n, addrs, k, host, token, c, s);
            && (r.Err? ==> !r.error.Config? && !r.error.Resolve? && !r.error.AutoConfig?)
            && r == (match FailureAt(w, n, addrs, k, host)
                     case None => Ok(Connected(addrs[k], host, c.reconnect, s))
                     case Some(e) => Err(e))
  {
    hide ConnectAddr, DialFailure, Config.Validate, Handshake.ValidateToken;
    CheckedConnectAddr(w, n + k, addrs[k], host, token, c, s);
  }

  lemma CheckedTryAddrs(
      w: World, n: nat, addrs: seq<string>, host: string, token: seq<Byte>, c: ClientConfig, s: EndpointSource)
    requires Validate(c).None? && ValidateToken(token).None?
    ensures var r := TryAddrs(w, n, addrs, host, token, c, s);
            && (r.Ok? <==> SomeAnswer(w, n, addrs, host))
            && (r.Ok? ==> r.value == Connected(r.value.addr, host, c.reconnect, s)
                          && FirstToAnswer(w, n, addrs, host, r.value.addr))
            && (r.Err? && addrs == [] ==> r.error == Resolve(NoAddresses))
            && (r.Err? && addrs != [] ==>
                  && !r.error.Config? && !r.error.AutoConfig? && !r.error.Resolve?
                  && FailureAt(w, n, addrs, |addrs| - 1, host) == Some(r.error))
  {
    hide AttemptAt, FailureAt, Config.Validate, Handshake.ValidateToken;
    var r := TryAddrs(w, n, addrs, host, token, c, s);
    if r.Ok? {
      var k :| 0 <= k < |addrs| && r == AttemptAt(w, n, addrs, k, host, token, c, s)
        && forall j :: 0 <= j < k ==> AttemptAt(w, n, addrs, j, host, token, c, s).Err?;
      CheckedAttempt(w, n, addrs, k, host, token, c, s);
      forall j | 0 <= j < k ensures FailureAt(w, n, addrs, j, host).Some? {
        CheckedAttempt(w, n, addrs, j, host, token, c, s);
      }
    } else {
      forall k: nat | k < |addrs| ensures FailureAt(w, n, addrs, k, host).Some? {
        CheckedAttempt(w, n, addrs, k, host, token, c, s);
      }
      if addrs != [] {
        CheckedAttempt(w, n, addrs, |addrs| - 1, host, token, c, s);
      }
    }
  }

  /** Why no connection came about: the lookup, or every address, of which the last one's failure is reported. */
  ghost predicate NotReached(w: World, n: nat, endpoint: string, host: string, e: ConnectError) {
    match w.lookup(endpoint)
    case LookupTimesOut => e == Resolve(LookupTimedOut)
    case LookupFails => e == Resolve(LookupFailed)
    case Found(addrs) =>
      if addrs == [] then e == Resolve(NoAddresses)
      else !SomeAnswer(w, n, addrs, host) && FailureAt(w, n, addrs, |addrs| - 1, host) == Some(e)
  }

  /** Some resolved address answers. */
  ghost predicate CanReach(w: World, n: nat, endpoint: string, host: string) {
    w.lookup(endpoint).Found? && SomeAnswer(w, n, w.lookup(endpoint).addrs, host)
  }

  /**
   Connecting with a valid configuration and token: it succeeds exactly when the host can be read off
   the address, the lookup works and some resolved address answers; the first of those is used.
   */
  lemma CheckedConnectTo(
      w: World, n: nat, endpoint: string, token: seq<Byte>, c: ClientConfig, s: EndpointSource)
    requires Validate(c).None? && ValidateToken(token).None?
    ensures var r := ConnectTo(w, n, endpoint, token, c, s);
            match ExtractHost(endpoint)
            case Err(x) => r == Err(Resolve(BadHost(x)))
            case Ok(host) =>
              && (r.Ok? <==> CanReach(w, n, endpoint, host))
              && (r.Ok? ==> r.value == Connected(r.value.addr, host, c.reconnect, s) && w.lookup(endpoint).Found?
                            && FirstToAnswer(w, n, w.lookup(endpoint).addrs, host, r.value.addr))
              && (r.Err? ==> NotReached(w, n, endpoint, host, r.error) && !r.error.Config? && !r.error.AutoConfig?
                             && !(r.error.Resolve? && r.error.resolve.BadHost?))
  {
    hide HostPort.SplitHostPort, HostPort.ExtractHost, TryAddrs, FirstToAnswer, FailureAt, SomeAnswer, Config.Validate,
      Handshake.ValidateToken;
    if ExtractHost(endpoint).Ok? && w.lookup(endpoint).Found? {
      CheckedTryAddrs(w, n, w.lookup(endpoint).addrs, ExtractHost(endpoint).value, token, c, s);
    }
  }

  /** A configuration or a token that does not pass is reported before anything is looked up or dialed. */
  lemma ChecksComeFirst(
      w: World, n: nat, target: string, name: string, token: seq<Byte>, c: ClientConfig, s: EndpointSource)
    requires Validate(c).Some? || ValidateToken(token).Some?
    ensures var e := if Validate(c).Some? then Validate(c).value else ValidateToken(token).value;
            && ConnectAddr(w, n, target, name, token, c, s) == Err(ConnectError.Config(e))
            && ConnectTo(w, n, target, token, c, s) == Err(ConnectError.Config(e))
  {
  }

  /** The endpoint a probe run selects is one of those it was given, with its own probe result. */
  lemma SelectedIsDiscovered(w: World, endpoints: seq<string>) returns (b: nat)
    requires Sane(w)
    ensures InRange(w.schedule(|endpoints|), |endpoints|)
    ensures var v := VerdictFor(endpoints, Outcomes(w, endpoints), w.schedule(|endpoints|));
            v.Ok? ==> && IsBest(Outcomes(w, endpoints), |endpoints|, b) && v.value.endpoint == endpoints[b]
                      && ProbeTask(w, endpoints[b]) == Reached(v.value.addr, v.value.latency)
    ensures var v := VerdictFor(endpoints, Outcomes(w, endpoints), w.schedule(|endpoints|));
            v.Err? ==> v.error.AllProbesFailed?
  {
    hide Along;
    b := 0;
    PermutationInRange(w.schedule(|endpoints|), |endpoints|);
    var os := Outcomes(w, endpoints);
    FastestIsBest(os, |os|);
    if Fastest(os, |os|).Some? {
      b := Fastest(os, |os|).value;
      assert IsBest(os, |os|, b);
    }
  }

  /** `endpoint` is the fastest of the response's usable endpoints, reached at `addr` in `latency`. */
  ghost predicate Selected(w: World, endpoint: string, addr: string, latency: nat)
    requires Sane(w)
  {
    && w.discovery.Body? && Parsed(w.discovery.decoded).Ok?
    && var endpoints := Parsed(w.discovery.decoded).value;
       exists b: nat :: IsBest(Outcomes(w, endpoints), |endpoints|, b) && endpoint == endpoints[b]
                        && ProbeTask(w, endpoints[b]) == Reached(addr, latency)
  }

  /** A usable entry of the discovery response. */
  ghost predicate Usable(w: World, endpoint: string) {
    w.discovery.Body? && w.discovery.decoded.Some? && Listed(w.discovery.decoded.value, endpoint)
  }

  lemma UsableIff(w: World)
    requires w.discovery.Body?
    ensures var parsed := Parsed(w.discovery.decoded);
            && (parsed.Ok? <==> exists e :: Usable(w, e))
            && (parsed.Ok? ==> forall e :: e in parsed.value <==> Usable(w, e))
  {
    hide Listed, Discovery.Parsed;
    ParsedMeans(w.discovery.decoded);
    var parsed := Parsed(w.discovery.decoded);
    if parsed.Ok? {
      assert parsed.value[0] in parsed.value;
      assert Usable(w, parsed.value[0]);
    }
  }

  /** This address answered in this time, and no address of any usable endpoint answered faster. */
  ghost predicate Quickest(w: World, endpoint: string, addr: string, latency: nat) {
    && Usable(w, endpoint) && Answers(w.probe(endpoint), addr, latency)
    && forall e, a, l :: Usable(w, e) && Answers(w.probe(e), a, l) ==> latency <= l
  }

  lemma UsableIsAccepted(w: World, endpoint: string)
    requires Usable(w, endpoint)
    ensures Accepted(endpoint)
  {
  }

  /** A probe task of a usable endpoint reports a fastest answer of its addresses, if there is any. */
  lemma TaskIsFastest(w: World, endpoint: string)
    requires Sane(w) && Usable(w, endpoint)
    ensures ProbeTask(w, endpoint).Reached? <==> exists a, l :: Answers(w.probe(endpoint), a, l)
    ensures ProbeTask(w, endpoint).Reached? ==>
              var o := ProbeTask(w, endpoint);
              Answers(w.probe(endpoint), o.addr, o.latency)
              && forall a, l :: Answers(w.probe(endpoint), a, l) ==> o.latency <= l
  {
    hide ProbeOne, HostPort.Accepted, Discovery.Parsed;
    UsableIsAccepted(w, endpoint);
    if w.probe(endpoint).panic.None? {
      ProbeOneIsFastest(endpoint, w.probe(endpoint));
    }
  }

  /** The best of the endpoints' best answers is the best of all answers. */
  lemma SelectedIsQuickest(w: World, endpoint: string, addr: string, latency: nat)
    requires Sane(w) && Selected(w, endpoint, addr, latency)
    ensures Quickest(w, endpoint, addr, latency)
  {
    hide Discovery.Parsed, ProbeTask, Answers, Usable;
    var endpoints := Parsed(w.discovery.decoded).value;
    UsableIff(w);
    TaskIsFastest(w, endpoint);
    forall e, a, l | Usable(w, e) && Answers(w.probe(e), a, l) ensures latency <= l {
      TaskIsFastest(w, e);
      var j :| 0 <= j < |endpoints| && endpoints[j] == e;
      assert Outcomes(w, endpoints)[j].Reached?;
    }
  }

  /** A client on the discovered path: pinned to the selected endpoint, dialed under its own host name. */
  ghost predicate DiscoveredWell(w: World, client: Connected)
    requires Sane(w)
  {
    && client.source.Discovered?
    && client.addr == client.source.addr
    && Selected(w, client.source.endpoint, client.addr, client.source.latency)
    && Quickest(w, client.source.endpoint, client.addr, client.source.latency)
    && SplitHostPort(client.source.endpoint).Ok?
    && client.serverName == SplitHostPort(client.source.endpoint).value.0
    && DialFailure(w.dial(0, client.addr, client.serverName)).None?
  }

  /** The selected endpoint was dialed the same way, and that dial failed with `e`. */
  ghost predicate SelectedFailed(w: World, endpoint: string, e: ConnectError)
    requires Sane(w)
  {
    exists addr, latency ::
      Selected(w, endpoint, addr, latency) && Quickest(w, endpoint, addr, latency) && SplitHostPort(endpoint).Ok?
      && DialFailure(w.dial(0, addr, SplitHostPort(endpoint).value.0)) == Some(e)
  }

  lemma ProbedIsSelected(w: World, best: ProbeOk)
    requires Sane(w) && w.discovery.Body? && Parsed(w.discovery.decoded).Ok?
    requires var endpoints := Parsed(w.discovery.decoded).value;
             && InRange(w.schedule(|endpoints|), |endpoints|)
             && VerdictFor(endpoints, Outcomes(w, endpoints), w.schedule(|endpoints|)) == Ok(best)
    ensures Selected(w, best.endpoint, best.addr, best.latency) && Quickest(w, best.endpoint, best.addr, best.latency)
    ensures SplitHostPort(best.endpoint).Ok?
  {
    hide HostPort.SplitHostPort, HostPort.Accepted, VerdictFor, Discovery.Parsed, IsBest, Outcomes, ProbeTask, Answers,
      Usable;
    var endpoints := Parsed(w.discovery.decoded).value;
    var b := SelectedIsDiscovered(w, endpoints);
    BestInRange(w, endpoints, b);
    SelectedIsQuickest(w, best.endpoint, best.addr, best.latency);
    UsableIsAccepted(w, best.endpoint);
    AcceptedSplits(best.endpoint);
  }

  /**
   The discovered path after validation: its host split cannot fail, its dial cannot report a
   configuration error, and success means the best probed endpoint, under its own host name.
   */
  lemma DiscoveredPath(w: World, token: seq<Byte>, c: ClientConfig)
    requires Sane(w) && Validate(c).None? && ValidateToken(token).None?
    ensures match TryDiscovered(w, token, c)
            case Err(InvalidResponse(cause)) => !cause.BadEndpoint?
            case Err(InitialConnectFailed(endpoint, e)) =>
              SelectedFailed(w, endpoint, e) && !e.Config? && !e.Resolve? && !e.AutoConfig?
            case Err(_) => true
            case Ok(client) => DiscoveredWell(w, client) && client.policy == c.reconnect
  {
    hide HostPort.SplitHostPort, ConnectAddr, Config.Validate, Handshake.ValidateToken, VerdictFor, Discovery.Firsts,
      DialFailure, Selected, Quickest, Outcomes, Probing.InRange, Selection.IsPermutation;
    if w.discovery.Body? && Parsed(w.discovery.decoded).Ok? {
      var endpoints := Parsed(w.discovery.decoded).value;
      var b := SelectedIsDiscovered(w, endpoints);
      var v := VerdictFor(endpoints, Outcomes(w, endpoints), w.schedule(|endpoints|));
      if v.Ok? {
        var best := v.value;
        ProbedIsSelected(w, best);
        CheckedConnectAddr(w, 0, best.addr, SplitHostPort(best.endpoint).value.0, token, c,
                           Discovered(best.endpoint, best.addr, best.latency));
      }
    }
  }

  /** Some usable endpoint answered its probe. */
  ghost predicate SomeReached(w: World, endpoints: seq<string>)
    requires Sane(w)
  {
    exists e :: e in endpoints && ProbeTask(w, e).Reached?
  }

  /** The response came, and holds a usable endpoint. */
  ghost predicate UsableBody(w: World) {
    exists endpoint :: Usable(w, endpoint)
  }

  /** Some address of some usable endpoint answered its probe. */
  ghost predicate AnyAnswer(w: World) {
    exists endpoint, addr, latency :: Usable(w, endpoint) && Answers(w.probe(endpoint), addr, latency)
  }

  lemma AnswerMeansReached(w: World)
    requires Sane(w) && w.discovery.Body? && Parsed(w.discovery.decoded).Ok?
    ensures AnyAnswer(w) <==> SomeReached(w, Parsed(w.discovery.decoded).value)
  {
    hide Discovery.Parsed, ProbeTask, Answers, Usable;
    var endpoints := Parsed(w.discovery.decoded).value;
    UsableIff(w);
    if AnyAnswer(w) {
      var endpoint, addr, latency :| Usable(w, endpoint) && Answers(w.probe(endpoint), addr, latency);
      TaskIsFastest(w, endpoint);
    }
    if e :| e in endpoints && ProbeTask(w, e).Reached? {
      TaskIsFastest(w, e);
      assert Usable(w, e) && Answers(w.probe(e), ProbeTask(w, e).addr, ProbeTask(w, e).latency);
    }
  }

  /** A failure list names every usable endpoint with the cause of its failure, and nothing else. */
  ghost predicate Explains(w: World, failures: seq<(string, string)>)
    requires Sane(w)
  {
    && (forall e :: Usable(w, e) ==> Failure(w, e) in failures)
    && (forall x :: x in failures ==> exists e :: Usable(w, e) && Failure(w, e) == x)
  }

  /** How an endpoint that was not reached is listed. */
  ghost function Failure(w: World, endpoint: string): (string, string)
    requires Sane(w)
  {
    var events := w.probe(endpoint);
    if events.panic.Some? then ("<probe task>", events.panic.value)
    else
      match ProbeOne(endpoint, events)
      case Err(x) => (endpoint, w.describe(x))
      case Ok(_) => (endpoint, "")
  }

  lemma FailuresExplained(w: World, endpoints: seq<string>)
    requires Sane(w) && (forall e :: e in endpoints <==> Usable(w, e)) && !SomeReached(w, endpoints)
    ensures InRange(w.schedule(|endpoints|), |endpoints|)
    ensures var v := VerdictFor(endpoints, Outcomes(w, endpoints), w.schedule(|endpoints|));
            v.Err? && v.error.AllProbesFailed? && Explains(w, v.error.failures)
  {
    hide Along, Texts, Fastest, ProbeVerdict, FailureList, PanicList, ProbeOne, Usable;
    var n, order, os := |endpoints|, w.schedule(|endpoints|), Outcomes(w, endpoints);
    PermutationInRange(order, n);
    VerdictMeans(endpoints, os, order);
    var failures := FailureList(endpoints, os, n) + PanicList(os, order);
    forall i | 0 <= i < n
      ensures Failure(w, endpoints[i]) in failures && Usable(w, endpoints[i]) && !os[i].Reached?
      ensures os[i].Unreachable? ==> Failure(w, endpoints[i]) == (endpoints[i], os[i].error)
      ensures os[i].Panicked? ==> Failure(w, endpoints[i]) == ("<probe task>", os[i].message)
    {
      var x := Failure(w, endpoints[i]);
      assert endpoints[i] in endpoints && os[i] == ProbeTask(w, endpoints[i]);
      FailureListMembers(endpoints, os, n, x);
      PanicListMembers(os, order, x);
      assert i in order;
    }
    forall x | x in failures ensures exists e :: Usable(w, e) && Failure(w, e) == x {
      FailureListMembers(endpoints, os, n, x);
      PanicListMembers(os, order, x);
    }
    forall e | Usable(w, e) ensures Failure(w, e) in failures {
      var i :| 0 <= i < n && endpoints[i] == e;
    }
  }

  /**
   Why the discovered path is not used: the four documented causes. Their conditions exclude each
   other and leave no case out, so each is reported exactly when it applies, with its particulars.
   */
  lemma FallbackReasons(w: World, token: seq<Byte>, c: ClientConfig)
    requires Sane(w) && Validate(c).None? && ValidateToken(token).None?
    ensures match TryDiscovered(w, token, c)
            case Err(DiscoveryFailed) => w.discovery.RequestFailed?
            case Err(InvalidResponse(cause)) =>
              && w.discovery.Body? && !UsableBody(w)
              && cause == if w.discovery.decoded.None? then NotJson
                          else NoUsableEndpoints(|w.discovery.decoded.value|)
            case Err(AllProbesFailed(failures)) => UsableBody(w) && !AnyAnswer(w) && Explains(w, failures)
            case Err(InitialConnectFailed(_, _)) => AnyAnswer(w)
            case Ok(_) => AnyAnswer(w)
  {
    hide HostPort.SplitHostPort, HostPort.Accepted, Trim, ConnectAddr, Config.Validate, Handshake.ValidateToken,
      VerdictFor, Discovery.Parsed, SomeReached, ProbeTask, Answers, Explains, Usable;
    if w.discovery.Body? {
      UsableIff(w);
      ParsedMeans(w.discovery.decoded);
    }
    if w.discovery.Body? && Parsed(w.discovery.decoded).Ok? {
      var endpoints := Parsed(w.discovery.decoded).value;
      ReachedMeansSelected(w, endpoints);
      AnswerMeansReached(w);
      if !SomeReached(w, endpoints) {
        FailuresExplained(w, endpoints);
      }
      DiscoveredPath(w, token, c);
    }
  }

  lemma SelectedIsOne(w: World, e: string, a: string, l: nat, e': string, a': string, l': nat)
    requires Sane(w) && Selected(w, e, a, l) && Selected(w, e', a', l')
    ensures e == e' && a == a' && l == l'
  {
    hide Discovery.Parsed, ProbeTask, IsBest, Fastest;
    var endpoints := Parsed(w.discovery.decoded).value;
    FastestIsBest(Outcomes(w, endpoints), |endpoints|);
  }

  lemma AnswerMeansSelected(w: World) returns (endpoint: string, addr: string, latency: nat)
    requires Sane(w) && AnyAnswer(w)
    ensures Selected(w, endpoint, addr, latency)
  {
    hide Discovery.Parsed, ProbeTask, Answers, Usable, SomeReached, VerdictFor, Outcomes;
    assert w.discovery.Body? && UsableBody(w) by {
      AnswersAreUsable(w);
    }
    UsableIff(w);
    AnswerMeansReached(w);
    var endpoints := Parsed(w.discovery.decoded).value;
    ReachedMeansSelected(w, endpoints);
    var best := VerdictFor(endpoints, Outcomes(w, endpoints), w.schedule(|endpoints|)).value;
    ProbedIsSelected(w, best);
    endpoint, addr, latency := best.endpoint, best.addr, best.latency;
  }

  lemma AnswersAreUsable(w: World)
    requires AnyAnswer(w)
    ensures w.discovery.Body? && UsableBody(w)
  {
    hide Listed, Answers;
    var endpoint, addr, latency :| Usable(w, endpoint) && Answers(w.probe(endpoint), addr, latency);
  }

  /** The one selected endpoint's dial decides the discovered path: its success, or its error. */
  lemma SelectedDecides(w: World, token: seq<Byte>, c: ClientConfig, endpoint: string, addr: string, latency: nat)
    requires Sane(w) && Validate(c).None? && ValidateToken(token).None? && Selected(w, endpoint, addr, latency)
    ensures SplitHostPort(endpoint).Ok?
    ensures var host := SplitHostPort(endpoint).value.0;
            TryDiscovered(w, token, c)
            == match DialFailure(w.dial(0, addr, host))
               case None => Ok(Connected(addr, host, c.reconnect, Discovered(endpoint, addr, latency)))
               case Some(e) => Err(InitialConnectFailed(endpoint, e))
  {
    hide HostPort.SplitHostPort, Config.Validate, Handshake.ValidateToken, TryDiscovered, Selected, Usable, Answers,
      DialFailure, Explains;
    SelectedIsQuickest(w, endpoint, addr, latency);
    assert AnyAnswer(w);
    AnswersAreUsable(w);
    FallbackReasons(w, token, c);
    DiscoveredPath(w, token, c);
    UsableIsAccepted(w, endpoint);
    AcceptedSplits(endpoint);
    match TryDiscovered(w, token, c) {
      case Ok(client) =>
        SelectedIsOne(w, endpoint, addr, latency, client.source.endpoint, client.addr, client.source.latency);
      case Err(reason) =>
        if reason.InitialConnectFailed? {
          var a, l :| Selected(w, reason.endpoint, a, l) && SplitHostPort(reason.endpoint).Ok?
            && DialFailure(w.dial(0, a, SplitHostPort(reason.endpoint).value.0)) == Some(reason.error);
          SelectedIsOne(w, endpoint, addr, latency, reason.endpoint, a, l);
        }
    }
  }

  lemma ReachedMeansSelected(w: World, endpoints: seq<string>)
    requires Sane(w)
    ensures InRange(w.schedule(|endpoints|), |endpoints|)
    ensures var v := VerdictFor(endpoints, Outcomes(w, endpoints), w.schedule(|endpoints|));
            && (v.Ok? <==> SomeReached(w, endpoints))
            && (v.Err? ==> v.error.AllProbesFailed?)
  {
    hide Along;
    PermutationInRange(w.schedule(|endpoints|), |endpoints|);
    var os := Outcomes(w, endpoints);
    FastestIsBest(os, |os|);
    if e :| e in endpoints && ProbeTask(w, e).Reached? {
      var j :| 0 <= j < |endpoints| && endpoints[j] == e;
      assert os[j].Reached?;
    }
  }

  lemma BestInRange(w: World, endpoints: seq<string>, b: nat)
    requires Sane(w) && IsBest(Outcomes(w, endpoints), |endpoints|, b)
    ensures b < |endpoints| && endpoints[b] in endpoints
  {
  }

  lemma AcceptedSplits(e: string)
    requires Accepted(e)
    ensures SplitHostPort(e).Ok?
  {
  }

  /** The configured fallback, if there is one, can be reached after all. */
  ghost predicate FallbackAnswers(w: World, a: AutoConfig) {
    && a.fallbackEndpoint.Some? && SplitHostPort(a.fallbackEndpoint.value).Ok?
    && CanReach(w, 1, a.fallbackEndpoint.value, SplitHostPort(a.fallbackEndpoint.value).value.0)
  }

  /**
   The whole chain. It connects exactly when the discovered path succeeded or the fallback can be
   reached; the client is the discovered one in the first case and the fallback's in the second. An
   AutoConfig error gives the reason the discovered path failed, and carries both fallback fields
   exactly when a fallback is configured, with the cause of its failure, which is never a
   configuration or host-extraction error.
   */
  lemma ConnectAutoContract(w: World, token: seq<Byte>, config: ClientConfig, a: AutoConfig, c: ClientConfig)
    requires Sane(w) && Checked(token, config, a) && WithRoots(w, config) == Ok(c)
    ensures ConnectAuto(w, token, config, a).Ok? <==> TryDiscovered(w, token, c).Ok? || FallbackAnswers(w, a)
    ensures match ConnectAuto(w, token, config, a)
            case Ok(client) =>
              && client.policy == config.reconnect
              && (client.source.Discovered? <==> TryDiscovered(w, token, c).Ok?)
              && (client.source.Discovered? ==> TryDiscovered(w, token, c) == Ok(client) && DiscoveredWell(w, client))
              && (!client.source.Discovered? ==>
                    && a.fallbackEndpoint.Some? && TryDiscovered(w, token, c).Err?
                    && client.source == Fallback(a.fallbackEndpoint.value, TryDiscovered(w, token, c).error)
                    && client.serverName == SplitHostPort(a.fallbackEndpoint.value).value.0
                    && w.lookup(a.fallbackEndpoint.value).Found?
                    && FirstToAnswer(w, 1, w.lookup(a.fallbackEndpoint.value).addrs, client.serverName, client.addr))
            case Err(e) =>
              && e.AutoConfig? && TryDiscovered(w, token, c) == Err(e.reason)
              && e.fallbackEndpoint == a.fallbackEndpoint
              && (e.fallbackError.Some? <==> a.fallbackEndpoint.Some?)
              && (e.fallbackError.Some? ==>
                    && NotReached(w, 1, a.fallbackEndpoint.value, SplitHostPort(a.fallbackEndpoint.value).value.0,
                                  e.fallbackError.value)
                    && !e.fallbackError.value.Config? && !e.fallbackError.value.AutoConfig?
                    && !(e.fallbackError.value.Resolve? && e.fallbackError.value.resolve.BadHost?))
  {
    hide HostPort.SplitHostPort, HostPort.ExtractHost, Config.Validate, Handshake.ValidateToken, TryDiscovered,
      ConnectTo, FirstToAnswer, CanReach, NotReached;
    RootsKeepConfigValid(w, config);
    DiscoveredPath(w, token, c);
    if TryDiscovered(w, token, c).Err? && a.fallbackEndpoint.Some? {
      var fallback := a.fallbackEndpoint.value;
      FallbackIsAccepted(a);
      SplittersAgree(fallback);
      CheckedConnectTo(w, 1, fallback, token, c, Fallback(fallback, TryDiscovered(w, token, c).error));
    }
  }

  /** Without usable roots nothing is fetched or dialed, and the error is the TLS one. */
  lemma RootsFailFirst(w: World, token: seq<Byte>, config: ClientConfig, a: AutoConfig)
    requires Sane(w) && Checked(token, config, a)
    ensures WithRoots(w, config).Err? <==> config.rootStore.None? && w.systemRoots.None?
    ensures WithRoots(w, config).Err? ==> ConnectAuto(w, token, config, a) == Err(Tls)
  {
  }

  lemma FallbackIsAccepted(a: AutoConfig)
    requires ValidateAuto(a).None? && a.fallbackEndpoint.Some?
    ensures Accepted(a.fallbackEndpoint.value)
  {
  }

  /**
   A configuration error from `connect_auto` means a check failed before any network activity; it
   names the first of the configuration's, the token's and the settings' faults.
   */
  lemma ConfigErrorsAreUpFront(w: World, token: seq<Byte>, config: ClientConfig, a: AutoConfig)
    requires Sane(w)
    ensures ConnectAuto(w, token, config, a).Err? && ConnectAuto(w, token, config, a).error.Config? <==>
            !Checked(token, config, a)
    ensures !Checked(token, config, a) ==>
              ConnectAuto(w, token, config, a)
              == Err(ConnectError.Config(
                       if Validate(config).Some? then Validate(config).value
                       else if ValidateToken(token).Some? then ValidateToken(token).value
                       else ValidateAuto(a).value))
  {
    hide Config.Validate, Handshake.ValidateToken, ValidateAuto, TryDiscovered, ConnectTo, Sane;
    if Checked(token, config, a) && WithRoots(w, config).Ok? {
      ConnectAutoContract(w, token, config, a, WithRoots(w, config).value);
    }
  }
}
