/**
 The client object, method by method, as one caller sees it between awaits: the imperative
 counterpart of the protocol. An `Arc<Connection>` is an object reference here, so
 `Arc::ptr_eq` is reference equality.
 */
module Client {
  import opened Wrappers
  import opened Durations
  import opened Errors
  import opened Config
  import opened Backoff
  import opened ReconnectLoop
  import opened ReconnectTiming
  import opened Protocol
  import opened ProtocolHistory
  import opened ProtocolInvariant
  import opened ProtocolSafety
  import opened SendCall
  import opened ScriptVerdict

  class Connection {
    var open: bool

    constructor ()
      ensures open
    {
      open := true;
    }

    method Close()
      modifies this
      ensures !open
    {
      open := false;
    }
  }

  /** What `reconnect` has come to once the scripted dials are used up. */
  datatype Renewal = Renewed(conn: Connection) | RenewalFailed(error: SendError) | StillDialing

  function Repeated<T>(x: T, n: nat): (s: seq<T>)
    ensures |s| == n && forall i :: 0 <= i < n ==> s[i] == x
  {
    seq(n, _ => x)
  }

  class SolanaGunQuicClient {
    const addr: string
    const serverName: string
    const policy: ReconnectPolicy
    const sendTimeout: Duration
    var connection: Connection
    /** Where each dial so far went: address and TLS server name. */
    var dialed: seq<(string, string)>
    /** Nanoseconds spent on streams, dialing and sleeping; waiting for locks is not counted. */
    ghost var clock: nat

    constructor (
      addr: string, serverName: string, policy: ReconnectPolicy, sendTimeout: Duration, connection: Connection)
      ensures this.addr == addr && this.serverName == serverName
      ensures this.policy == policy && this.sendTimeout == sendTimeout
      ensures this.connection == connection && dialed == [] && clock == 0
    {
      this.addr, this.serverName, this.policy, this.sendTimeout := addr, serverName, policy, sendTimeout;
      this.connection, dialed, clock := connection, [], 0;
    }

    /**
     Re-establish the connection if `stale` is still the current one. The outcome is the loop's
     verdict on the observed dials, which is also stated in terms of the dials as they were; every
     dial goes to the address fixed at construction; the time spent is exactly the dials and the
     sleeps between them.
     */
    method Reconnect(stale: Connection, script: seq<RawDial>) returns (r: Renewal)
      modifies this
      ensures stale != old(connection) ==> r == Renewed(old(connection)) && unchanged(this)
      ensures stale == old(connection) ==>
                match Consume(policy, Observed(policy, script))
                case Fresh => r.Renewed? && fresh(r.conn) && r.conn.open && connection == r.conn
                case GaveUp(e) => r == RenewalFailed(e) && connection == old(connection)
                case Running(_, _) => r == StillDialing && connection == old(connection)
      ensures stale == old(connection) ==>
                && (r.Renewed? <==> exists k: nat :: ConnectsAt(policy, script, k))
                && (forall e :: r == RenewalFailed(SendError.Reconnect(e)) <==>
                      exists k: nat :: FailsAt(policy, script, k, e))
                && (forall n, last :: r == RenewalFailed(ReconnectExhausted(n, last)) <==>
                      ExhaustedAfter(policy, script, n, last))
      ensures stale == old(connection) ==>
                var made := DialsMade(policy, Observed(policy, script));
                && dialed == old(dialed) + Repeated((addr, serverName), made)
                && clock == old(clock) + DialTime(policy, script, made)
                            + SleepTime(policy, script, if r.StillDialing? then made else made - 1)
      ensures stale == old(connection) && policy.maxAttempts.Some? ==>
                && (|script| >= DialLimit(policy) ==> !r.StillDialing?)
                && (!r.StillDialing? ==> clock <= old(clock) + Budget(policy))
    {
      hide Durations.Total, Backoff.ApplyJitter, Backoff.NextBackoff, ReconnectLoop.Consume,
        ReconnectTiming.DialsMade, ReconnectTiming.DialTime, ReconnectTiming.SleepTime, Errors.IsTerminal,
        ReconnectTiming.Observe, ReconnectTiming.Observed, Backoff.Delay, ReconnectTiming.Budget,
        ConnectsAt, FailsAt, ExhaustedAfter;
      if connection != stale {
        return Renewed(connection);
      }
      ghost var trace := Observed(policy, script);
      VerdictOnScript(policy, script);
      NothingConsumed(policy, script);
      assert trace[..0] == [];
      var backoff := policy.initialBackoff;
      var attempts := 0;
      var i := 0;
      while i < |script|
        invariant i <= |script| && attempts == i
        invariant connection == old(connection)
        invariant backoff == Delay(policy.initialBackoff, policy.maxBackoff, i)
        invariant Consume(policy, trace[..i]) == Running(attempts, backoff)
        invariant dialed == old(dialed) + Repeated((addr, serverName), i)
        invariant clock == old(clock) + DialTime(policy, script, i) + SleepTime(policy, script, i)
      {
        dialed := dialed + [(addr, serverName)];
        clock := clock + Min(script[i].took, Total(policy.connectTimeout));
        var attempt := Observe(policy, script[i]);
        ConsumeOneMore(policy, trace[..i], attempt);
        OneMoreDial(policy, script, i);
        assert trace[..i + 1] == trace[..i] + [attempt];
        if attempt.Connected? {
          var arc := new Connection();
          connection := arc;
          DecidedAt(policy, trace, i);
          StaysInBudget(policy, script, trace, i + 1);
          return Renewed(arc);
        }
        if IsTerminal(DialError(attempt)) {
          DecidedAt(policy, trace, i);
          StaysInBudget(policy, script, trace, i + 1);
          return RenewalFailed(SendError.Reconnect(DialError(attempt)));
        }
        attempts := attempts + 1;
        if LimitReached(policy, attempts) {
          DecidedAt(policy, trace, i);
          StaysInBudget(policy, script, trace, i + 1);
          return RenewalFailed(ReconnectExhausted(attempts, DialError(attempt)));
        }
        clock := clock + Total(ApplyJitter(backoff, script[i].unit));
        backoff := NextBackoff(backoff, policy.maxBackoff);
        i := i + 1;
      }
      assert trace[..i] == trace;
      UndecidedMadeAll(policy, trace);
      RunningMeans(policy, trace);
      r := StillDialing;
    }

    /**
     One send, with the stream attempts and dials scripted. `published` is the connection another
     handle has put in place by the time this send holds the lock, if any did. The result is the
     same function of attempts and dials that every send of the concurrent protocol obeys, and the
     time is exactly that of the attempts, dials and sleeps made. The connection the send started
     on is closed just when a timeout is about to be retried.
     */
    method SendTransactionBytes(
      tx: seq<bv8>, first: RawStream, published: Option<Connection>, script: seq<RawDial>, second: RawStream)
      returns (r: Option<SendResult>)
      modifies this, connection
      ensures var adopted := published.Some? && published.value != old(connection);
              var x := Circumstances(|tx|, first, adopted, script, second);
              r == Answer(policy, sendTimeout, x) && clock == old(clock) + CallTime(policy, sendTimeout, x)
      ensures var attempt := ObserveStream(sendTimeout, first);
              var retried := |tx| <= MAX_TX_BYTES && Retries(policy, attempt);
              var adopted := published.Some? && published.value != old(connection);
              var trace := Observed(policy, script);
              && (!retried ==> connection == old(connection))
              && (retried && adopted ==> connection == published.value)
              && (retried && !adopted ==>
                    if Decide(policy, trace).Fresh? then fresh(connection) && connection.open
                    else connection == old(connection))
              && old(connection).open == (old(connection.open) && !(retried && attempt.error.SendTimeout?))
              && dialed == old(dialed) + Repeated((addr, serverName),
                                                  if retried && !adopted then DialsMade(policy, trace) else 0)
    {
      hide ReconnectLoop.Consume, ReconnectLoop.Decide, ReconnectTiming.DialTime, ReconnectTiming.SleepTime,
        ReconnectTiming.DialsMade, ReconnectTiming.Budget, ReconnectTiming.Observed, Durations.Total, ObserveStream,
        StreamTime;
      if |tx| > MAX_TX_BYTES {
        return Some(Unsent(TooLarge(|tx|)));
      }
      var conn := connection;
      var attempt := ObserveStream(sendTimeout, first);
      clock := clock + StreamTime(sendTimeout, first);
      if !Retries(policy, attempt) {
        return Some(attempt);
      }
      if attempt.error.SendTimeout? {
        conn.Close();
      }
      if published.Some? {
        connection := published.value;
      }
      LoopRefinesVerdict(policy, Observed(policy, script));
      var renewal := Reconnect(conn, script);
      match renewal {
        case StillDialing => r := None;
        case RenewalFailed(e) => r := Some(Unsent(e));
        case Renewed(_) =>
          clock := clock + StreamTime(sendTimeout, second);
          r := Some(ObserveStream(sendTimeout, second));
      }
    }
  }

  /**
   The method and the protocol agree: every completed send of every concurrent run returned what
   the method returns for the same attempts and dials. A second attempt without any dial is one
   on a connection that another send published.
   */
  lemma ConcurrentSendsMatch(c: Session, s: State, t: nat, r: SendResult, first: SendResult, second: SendResult)
    requires Reachable(c, s) && t < |s.tasks| && s.tasks[t].pc == Done(r)
    requires s.tasks[t].log != [] ==> first == s.tasks[t].log[0].result
    requires |s.tasks[t].log| == 2 ==> second == s.tasks[t].log[1].result
    ensures t < |c.sizes|
    ensures var k := s.tasks[t];
            Some(r) == SendSpec(c.policy, c.sizes[t], first, |k.log| == 2 && k.trace == [], k.trace, second)
  {
    hide Protocol.Reachable, ReconnectLoop.Decide;
    SendContract(c, s, t, r);
    ReachableInv(c, s);
    assert Told(c, s, t);
    LoopRefinesVerdict(c.policy, s.tasks[t].trace);
  }
}
