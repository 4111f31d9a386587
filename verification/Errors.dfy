/** The error types of the client and of the QUIC library as far as the client inspects them. */
module Errors {
  import opened Wrappers
  import opened HostPort

  /** `quinn::ConnectionError`. */
  datatype ConnectionError =
    | VersionMismatch
    | TransportError
    | ConnectionClosed
    | ApplicationClosed(code: nat)
    | Reset
    | TimedOut
    | LocallyClosed
    | CidsExhausted

  /** `quinn::WriteError`. */
  datatype WriteError =
    | Stopped(code: nat)
    | ConnectionLost(cause: ConnectionError)
    | ClosedStream
    | ZeroRttRejected

  datatype HandshakeError =
    | Unauthorized
    | TooManyConnections
    | BadRequest
    | Revoked
    | Io
    | Timeout
    | Unexpected(code: nat)

  datatype ConfigError =
    | EmptyRootStore
    | ZeroSendTimeout
    | ZeroIdleTimeout
    | ZeroKeepAlive
    | KeepAliveNotBelowIdle
    | ZeroConnectTimeout
    | ZeroInitialBackoff
    | MaxBackoffBelowInitial
    | EmptyToken
    | TokenTooLong(length: nat)
    | TokenNotGraphic
    | EmptyDiscoveryUrl
    | DiscoveryUrlNotHttps
    | ZeroDiscoveryTimeout
    | ZeroProbeTimeout
    | BadFallbackEndpoint(split: SplitError)

  datatype ResolveError = BadHost(split: SplitError) | LookupTimedOut | LookupFailed | NoAddresses

  datatype ConnectError =
    | Resolve(resolve: ResolveError)
    | Dial
    | Connection(connection: ConnectionError)
    | Handshake(handshake: HandshakeError)
    | Tls
    | Config(config: ConfigError)
    | EndpointIo
    | AutoConfig(reason: FallbackReason, fallbackEndpoint: Option<string>, fallbackError: Option<ConnectError>)

  datatype InvalidResponseCause = NotJson | NoUsableEndpoints(total: nat) | BadEndpoint(split: SplitError)

  datatype FallbackReason =
    | DiscoveryFailed
    | InvalidResponse(cause: InvalidResponseCause)
    | AllProbesFailed(failures: seq<(string, string)>)
    | InitialConnectFailed(endpoint: string, error: ConnectError)

  datatype SendError =
    | TooLarge(size: nat)
    | SendTimeout
    | SendConnectionLost(cause: ConnectionError)
    | StreamWrite(write: WriteError)
    | StreamClosed
    | Reconnect(connect: ConnectError)
    | ReconnectExhausted(attempts: nat, last: ConnectError)

  /** The send failures that mean the connection itself is gone. */
  predicate MeansLost(e: SendError) {
    e.SendConnectionLost? || (e.StreamWrite? && e.write.ConnectionLost?)
  }

  /** `is_reconnectable_send_error`. */
  predicate IsReconnectable(e: SendError) {
    e.SendTimeout? || MeansLost(e)
  }

  /** `is_terminal`: retrying the dial cannot help. */
  predicate IsTerminal(e: ConnectError) {
    match e
    case Tls => true
    case Handshake(h) => h.Unauthorized? || h.Revoked? || h.BadRequest?
    case Connection(c) => c.TransportError?
    case _ => false
  }

  const CLOSE_UNAUTHORIZED: nat := 0x01
  const CLOSE_BAD_REQUEST: nat := 0x02
  const CLOSE_TOO_MANY: nat := 0x03
  const CLOSE_REVOKED: nat := 0x04

  function CodeToError(code: nat): HandshakeError {
    if code == CLOSE_UNAUTHORIZED then Unauthorized
    else if code == CLOSE_BAD_REQUEST then BadRequest
    else if code == CLOSE_TOO_MANY then TooManyConnections
    else if code == CLOSE_REVOKED then Revoked
    else Unexpected(code)
  }

  /** The close-code table of the protocol, read from the meaning back to the code. */
  function CodeOf(h: HandshakeError): Option<nat> {
    match h
    case Unauthorized => Some(0x01)
    case BadRequest => Some(0x02)
    case TooManyConnections => Some(0x03)
    case Revoked => Some(0x04)
    case Unexpected(code) => if 1 <= code <= 4 then None else Some(code)
    case _ => None
  }

  /** A close code survives translation, and every error that has a code is the translation of it. */
  lemma CodeRoundTrip(code: nat, h: HandshakeError)
    ensures CodeOf(CodeToError(code)) == Some(code)
    ensures CodeOf(h) == Some(code) <==> h == CodeToError(code)
  {
    assert CodeToError(code).Unexpected? ==> !(1 <= code <= 4);
  }

  /** `map_close`. */
  function MapClose(e: ConnectionError): HandshakeError {
    match e
    case ApplicationClosed(code) => CodeToError(code)
    case _ => Io
  }

  /** `connection_close_error`, from what `close_reason` reports. */
  function CloseReasonError(reason: Option<ConnectionError>): HandshakeError {
    match reason
    case Some(ApplicationClosed(code)) => CodeToError(code)
    case Some(_) => Io
    case None => Unexpected(0)
  }

  // ---------- one dial, from QUIC connect to the server's reply ----------

  const ACK: string := "OK\n"

  /** How far one `dial_and_handshake` got, and what it ran into. */
  datatype DialEvents =
    | CannotStart
    | NotEstablished(established: ConnectionError)
    | NoStream(bidi: ConnectionError)
    | WriteFailed(write: WriteError)
    | FinishFailed
    | ReplyTimedOut
    | ReadFailed(reason: Option<ConnectionError>)
    | Replied(reply: string, reason: Option<ConnectionError>)

  /** `dial_and_handshake` with `handshake`; `None` is success. */
  function DialVerdict(d: DialEvents): Option<ConnectError> {
    match d
    case CannotStart => Some(Dial)
    case NotEstablished(e) => Some(Connection(e))
    case NoStream(e) => Some(Handshake(MapClose(e)))
    case WriteFailed(_) => Some(Handshake(Io))
    case FinishFailed => Some(Handshake(Io))
    case ReplyTimedOut => Some(Handshake(Timeout))
    case ReadFailed(reason) => Some(Handshake(CloseReasonError(reason)))
    case Replied(reply, reason) =>
      if reply == ACK then None else Some(Handshake(CloseReasonError(reason)))
  }

  /** The server's close code, wherever in the dial the close was noticed. */
  function CloseCode(d: DialEvents): Option<nat> {
    match d
    case NotEstablished(ApplicationClosed(code)) => Some(code)
    case NoStream(ApplicationClosed(code)) => Some(code)
    case WriteFailed(ConnectionLost(ApplicationClosed(code))) => Some(code)
    case ReadFailed(Some(ApplicationClosed(code))) => Some(code)
    case Replied(reply, Some(ApplicationClosed(code))) => if reply == ACK then None else Some(code)
    case _ => None
  }

  /**
   When a server close stops the reconnect loop: for exactly the three rejection codes, and
   only if the close is noticed while opening the stream or reading the reply. Code 0x03 and
   unknown codes never stop it.
   */
  lemma CloseIsTerminalIff(d: DialEvents)
    requires CloseCode(d).Some?
    ensures DialVerdict(d).Some?
    ensures IsTerminal(DialVerdict(d).value) <==>
            CloseCode(d).value in {CLOSE_UNAUTHORIZED, CLOSE_BAD_REQUEST, CLOSE_REVOKED}
            && !d.NotEstablished? && !d.WriteFailed?
  {
    var code := CloseCode(d).value;
    assert CodeToError(code) in {Unauthorized, BadRequest, Revoked} <==>
      code in {CLOSE_UNAUTHORIZED, CLOSE_BAD_REQUEST, CLOSE_REVOKED};
  }

  /** A rejection noticed while the handshake line is still being written is taken for a transient failure. */
  lemma RejectionDuringWriteIsRetried()
    ensures var d := WriteFailed(ConnectionLost(ApplicationClosed(CLOSE_UNAUTHORIZED)));
            CloseCode(d) == Some(CLOSE_UNAUTHORIZED) && !IsTerminal(DialVerdict(d).value)
  {
  }

  /** A dial succeeds exactly when the server's whole reply is `OK` and a newline. */
  lemma DialSucceedsIff(d: DialEvents)
    ensures DialVerdict(d).None? <==> d.Replied? && d.reply == "OK\n"
  {
  }

  /** A close that is noticed while opening the stream or reading the reply, so that its code is looked at. */
  function NoticedCode(d: DialEvents): Option<nat> {
    if d.NotEstablished? || d.WriteFailed? then None else CloseCode(d)
  }

  /** The connection broke down in some other way, or no more than the write did. */
  predicate BrokenOff(d: DialEvents) {
    || d.WriteFailed? || d.FinishFailed?
    || (d.NoStream? && !d.bidi.ApplicationClosed?)
    || ((d.ReadFailed? || d.Replied?) && d.reason.Some? && !d.reason.value.ApplicationClosed?)
  }

  /** What each error of a failed dial tells about it: the events behind it, and no others. */
  lemma DialErrorMeans(d: DialEvents, e: ConnectError)
    requires DialVerdict(d) == Some(e)
    ensures e == Dial <==> d == CannotStart
    ensures forall cause :: e == Connection(cause) <==> d == NotEstablished(cause)
    ensures e == Handshake(Timeout) <==> d == ReplyTimedOut
    ensures e == Handshake(Unauthorized) <==> NoticedCode(d) == Some(0x01)
    ensures e == Handshake(BadRequest) <==> NoticedCode(d) == Some(0x02)
    ensures e == Handshake(TooManyConnections) <==> NoticedCode(d) == Some(0x03)
    ensures e == Handshake(Revoked) <==> NoticedCode(d) == Some(0x04)
    ensures forall code :: e == Handshake(Unexpected(code)) <==>
              || (NoticedCode(d) == Some(code) && !(1 <= code <= 4))
              || (code == 0 && (d.ReadFailed? || d.Replied?) && d.reason.None?)
    ensures e == Handshake(Io) <==> BrokenOff(d)
  {
  }

  /** The five errors that end a reconnect at once. */
  const FINAL_ERRORS: set<ConnectError> :=
    {Tls, Handshake(Unauthorized), Handshake(BadRequest), Handshake(Revoked), Connection(TransportError)}

  lemma TerminalErrors(e: ConnectError)
    ensures IsTerminal(e) <==> e in FINAL_ERRORS
  {
  }

  /** Without a close code, only a TLS-level transport error is terminal. */
  lemma OtherTerminalDials(d: DialEvents)
    requires CloseCode(d).None? && DialVerdict(d).Some?
    ensures IsTerminal(DialVerdict(d).value) <==> d == NotEstablished(TransportError)
  {
  }
}
