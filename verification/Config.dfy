/** Client settings and the checks that run before any dial. */
module Config {
  import opened Wrappers
  import opened Durations
  import opened Errors

  datatype ReconnectPolicy = ReconnectPolicy(
    enabled: bool,
    connectTimeout: Duration,
    initialBackoff: Duration,
    maxBackoff: Duration,
    maxAttempts: Option<nat>)

  /** A trust store, by its number of certificates. */
  datatype RootStore = RootStore(certificates: nat)

  datatype ClientConfig = ClientConfig(
    rootStore: Option<RootStore>,
    idleTimeout: Duration,
    keepAlive: Duration,
    reconnect: ReconnectPolicy,
    sendTimeout: Duration)

  function DefaultPolicy(): ReconnectPolicy {
    ReconnectPolicy(true, Duration(10, 0), FromMillis(100), Duration(5, 0), Some(10))
  }

  function DefaultConfig(): ClientConfig {
    ClientConfig(None, Duration(30, 0), Duration(10, 0), DefaultPolicy(), Duration(10, 0))
  }

  /** `ClientConfig::validate`: the first failing check, if any. */
  function Validate(c: ClientConfig): Option<ConfigError> {
    if c.rootStore.Some? && c.rootStore.value.certificates == 0 then Some(EmptyRootStore)
    else if c.sendTimeout == ZERO then Some(ZeroSendTimeout)
    else if c.idleTimeout == ZERO then Some(ZeroIdleTimeout)
    else if c.keepAlive == ZERO then Some(ZeroKeepAlive)
    else if AtMost(c.idleTimeout, c.keepAlive) then Some(KeepAliveNotBelowIdle)
    else if c.reconnect.connectTimeout == ZERO then Some(ZeroConnectTimeout)
    else if c.reconnect.initialBackoff == ZERO then Some(ZeroInitialBackoff)
    else if !AtMost(c.reconnect.initialBackoff, c.reconnect.maxBackoff) then Some(MaxBackoffBelowInitial)
    else None
  }

  /** Exactly the usable configurations are accepted, whatever the units their durations are written in. */
  lemma ValidIff(c: ClientConfig)
    ensures Validate(c).None? <==>
            && (c.rootStore.Some? ==> c.rootStore.value.certificates > 0)
            && Total(c.sendTimeout) > 0
            && 0 < Total(c.keepAlive) < Total(c.idleTimeout)
            && Total(c.reconnect.connectTimeout) > 0
            && 0 < Total(c.reconnect.initialBackoff) <= Total(c.reconnect.maxBackoff)
  {
    Compared(c);
  }

  /** A rejection names a field that is indeed degenerate. */
  lemma RejectionsAreTrue(c: ClientConfig)
    ensures Validate(c) == Some(EmptyRootStore) ==> c.rootStore == Some(RootStore(0))
    ensures Validate(c) == Some(ZeroSendTimeout) ==> Total(c.sendTimeout) == 0
    ensures Validate(c) == Some(ZeroIdleTimeout) ==> Total(c.idleTimeout) == 0
    ensures Validate(c) == Some(ZeroKeepAlive) ==> Total(c.keepAlive) == 0
    ensures Validate(c) == Some(KeepAliveNotBelowIdle) ==> Total(c.keepAlive) >= Total(c.idleTimeout)
    ensures Validate(c) == Some(ZeroConnectTimeout) ==> Total(c.reconnect.connectTimeout) == 0
    ensures Validate(c) == Some(ZeroInitialBackoff) ==> Total(c.reconnect.initialBackoff) == 0
    ensures Validate(c) == Some(MaxBackoffBelowInitial) ==>
              Total(c.reconnect.maxBackoff) < Total(c.reconnect.initialBackoff)
    ensures Validate(c) in {None, Some(EmptyRootStore), Some(ZeroSendTimeout), Some(ZeroIdleTimeout),
                            Some(ZeroKeepAlive), Some(KeepAliveNotBelowIdle), Some(ZeroConnectTimeout),
                            Some(ZeroInitialBackoff), Some(MaxBackoffBelowInitial)}
  {
    Compared(c);
  }

  lemma Compared(c: ClientConfig)
    ensures c.sendTimeout == ZERO <==> Total(c.sendTimeout) == 0
    ensures c.idleTimeout == ZERO <==> Total(c.idleTimeout) == 0
    ensures c.keepAlive == ZERO <==> Total(c.keepAlive) == 0
    ensures AtMost(c.idleTimeout, c.keepAlive) <==> Total(c.idleTimeout) <= Total(c.keepAlive)
    ensures c.reconnect.connectTimeout == ZERO <==> Total(c.reconnect.connectTimeout) == 0
    ensures c.reconnect.initialBackoff == ZERO <==> Total(c.reconnect.initialBackoff) == 0
    ensures AtMost(c.reconnect.initialBackoff, c.reconnect.maxBackoff) <==>
            Total(c.reconnect.initialBackoff) <= Total(c.reconnect.maxBackoff)
  {
  }

  /** The defaults are accepted as they are, and with any non-empty root store. */
  lemma DefaultIsValid(roots: RootStore)
    requires roots.certificates > 0
    ensures Validate(DefaultConfig()).None?
    ensures Validate(DefaultConfig().(rootStore := Some(roots))).None?
  {
    ValidIff(DefaultConfig());
    ValidIff(DefaultConfig().(rootStore := Some(roots)));
  }

  /** What a validated policy gives the reconnect loop. */
  predicate ValidPolicy(p: ReconnectPolicy) {
    p.connectTimeout != ZERO && p.initialBackoff != ZERO && AtMost(p.initialBackoff, p.maxBackoff)
  }

  /** The number of dials one reconnect may make: a limit of zero still allows one. */
  function DialLimit(p: ReconnectPolicy): nat
    requires p.maxAttempts.Some?
  {
    if p.maxAttempts.value == 0 then 1 else p.maxAttempts.value
  }
}
