/**
 One send as its caller sees it: what it returns and how long it takes. Waiting for locks is left
 out here; `ProtocolTiming` accounts for it. Times are in nanoseconds.
 */
module SendCall {
  import opened Wrappers
  import opened Durations
  import opened Errors
  import opened Config
  import opened Backoff
  import opened ReconnectLoop
  import opened ReconnectTiming
  import opened ScriptVerdict
  import opened Protocol
  import opened ProtocolHistory

  /** One stream attempt as the network would answer it, and the time the answer would take. */
  datatype RawStream = RawStream(result: SendResult, took: nat)

  /** `tokio::time::timeout` around `send_on`. */
  function ObserveStream(timeout: Duration, s: RawStream): (r: SendResult)
    ensures s.took > Total(timeout) ==> r == Unsent(SendTimeout)
    ensures s.took <= Total(timeout) ==> r == s.result
  {
    if s.took > timeout.secs * NANOS_PER_SEC + timeout.nanos then Unsent(SendTimeout) else s.result
  }

  ghost function StreamTime(timeout: Duration, s: RawStream): nat {
    Min(s.took, Total(timeout))
  }

  /**
   Everything a send meets: its size, the two attempts it may make, whether another handle has
   replaced the connection by the time this one compares, and the dials it may make.
   */
  datatype Circumstances = Circumstances(
    size: nat,
    first: RawStream,
    adopted: bool,
    dials: seq<RawDial>,
    second: RawStream)

  /** What one send returns, as far as its attempts and dials decide it. */
  function SendSpec(
    p: ReconnectPolicy, size: nat, first: SendResult, adopted: bool, trace: seq<DialOutcome>, second: SendResult)
    : Option<SendResult>
  {
    if size > MAX_TX_BYTES then Some(Unsent(TooLarge(size)))
    else if !Retries(p, first) then Some(first)
    else if adopted then Some(second)
    else
      match Decide(p, trace)
      case Fresh => Some(second)
      case GaveUp(e) => Some(Unsent(e))
      case Running(_, _) => None
  }

  function Answer(p: ReconnectPolicy, timeout: Duration, x: Circumstances): Option<SendResult> {
    SendSpec(p, x.size, ObserveStream(timeout, x.first), x.adopted, Observed(p, x.dials),
             ObserveStream(timeout, x.second))
  }

  /** The time of a reconnect that does dial: all its dials, and a sleep after each undecided one. */
  ghost function RenewalTime(p: ReconnectPolicy, dials: seq<RawDial>): nat {
    var made := DialsMade(p, Observed(p, dials));
    DialTime(p, dials, made) + SleepTime(p, dials, if Consume(p, Observed(p, dials)).Running? then made else made - 1)
  }

  /** The time of the whole call. */
  ghost function CallTime(p: ReconnectPolicy, timeout: Duration, x: Circumstances): nat {
    if x.size > MAX_TX_BYTES then 0
    else
      StreamTime(timeout, x.first)
      + if !Retries(p, ObserveStream(timeout, x.first)) then 0
        else if x.adopted then StreamTime(timeout, x.second)
        else
          RenewalTime(p, x.dials)
          + if Consume(p, Observed(p, x.dials)).Fresh? then StreamTime(timeout, x.second) else 0
  }

  // ---------- what a call returns ----------

  /** The attempt took too long, or the stream reported the connection lost. */
  ghost predicate LostUnder(timeout: Duration, s: RawStream) {
    s.took > Total(timeout) || ConnectionGone(s.result)
  }

  /** A payload above the limit is refused; a first attempt that is not retried is the answer, as it came. */
  lemma FirstAttemptAnswers(p: ReconnectPolicy, timeout: Duration, x: Circumstances)
    ensures x.size > 4096 ==> Answer(p, timeout, x) == Some(Unsent(TooLarge(x.size)))
    ensures x.size <= 4096 && !(p.enabled && LostUnder(timeout, x.first)) ==>
              Answer(p, timeout, x)
              == Some(if x.first.took > Total(timeout) then Unsent(SendTimeout) else x.first.result)
  {
    hide Retries, Durations.Total;
    RetriesIff(p, ObserveStream(timeout, x.first));
  }

  /** Once the connection is lost, the second attempt answers, unless no dial connects: then the dials do. */
  lemma LostConnectionIsRetried(p: ReconnectPolicy, timeout: Duration, x: Circumstances)
    requires p.enabled && x.size <= 4096 && LostUnder(timeout, x.first)
    ensures x.adopted || (exists k: nat :: ConnectsAt(p, x.dials, k)) ==>
              Answer(p, timeout, x)
              == Some(if x.second.took > Total(timeout) then Unsent(SendTimeout) else x.second.result)
    ensures forall k: nat, e :: !x.adopted && FailsAt(p, x.dials, k, e) ==>
              Answer(p, timeout, x) == Some(Unsent(SendError.Reconnect(e)))
    ensures forall n, last :: !x.adopted && ExhaustedAfter(p, x.dials, n, last) ==>
              Answer(p, timeout, x) == Some(Unsent(ReconnectExhausted(n, last)))
  {
    hide Retries, Durations.Total, ConnectsAt, FailsAt, ExhaustedAfter, Observed, Consume, Decide;
    RetriesIff(p, ObserveStream(timeout, x.first));
    VerdictOnScript(p, x.dials);
    LoopRefinesVerdict(p, Observed(p, x.dials));
  }

  /** The outcomes that say nothing about the connection come back unchanged, and nothing else is tried. */
  lemma StreamFailuresComeBack(p: ReconnectPolicy, timeout: Duration, x: Circumstances)
    requires x.size <= 4096 && x.first.took <= Total(timeout)
    requires || x.first.result == Sent || x.first.result == Unsent(StreamClosed)
             || (exists code :: x.first.result == Unsent(StreamWrite(Stopped(code))))
             || x.first.result == Unsent(StreamWrite(WriteError.ClosedStream))
             || x.first.result == Unsent(StreamWrite(ZeroRttRejected))
    ensures Answer(p, timeout, x) == Some(x.first.result)
  {
    FirstAttemptAnswers(p, timeout, x);
  }

  /** Whether the second attempt is made, and whether this send dials itself, from the circumstances alone. */
  ghost predicate SendsAgain(p: ReconnectPolicy, timeout: Duration, x: Circumstances) {
    && x.size <= 4096 && p.enabled && LostUnder(timeout, x.first)
    && (x.adopted || exists k: nat :: ConnectsAt(p, x.dials, k))
  }

  ghost predicate Redials(p: ReconnectPolicy, timeout: Duration, x: Circumstances) {
    x.size <= 4096 && p.enabled && LostUnder(timeout, x.first) && !x.adopted
  }

  /** A call takes as long as the attempts it makes and, if it dials, its own reconnect: nothing more or less. */
  lemma TimeOfCall(p: ReconnectPolicy, timeout: Duration, x: Circumstances)
    ensures CallTime(p, timeout, x)
            == (if x.size <= 4096 then Min(x.first.took, Total(timeout)) else 0)
               + (if Redials(p, timeout, x) then RenewalTime(p, x.dials) else 0)
               + (if SendsAgain(p, timeout, x) then Min(x.second.took, Total(timeout)) else 0)
  {
    hide Retries, Durations.Total, ConnectsAt, FailsAt, ExhaustedAfter, Observed, Consume, RenewalTime, LostUnder;
    LostMeansRetried(p, timeout, x.first);
    VerdictOnScript(p, x.dials);
  }

  lemma LostMeansRetried(p: ReconnectPolicy, timeout: Duration, s: RawStream)
    ensures Retries(p, ObserveStream(timeout, s)) <==> p.enabled && LostUnder(timeout, s)
  {
    RetriesIff(p, ObserveStream(timeout, s));
  }

  /** The time of a reconnect, by where it ends: every dial up to that one, and a sleep after each but the last. */
  lemma TimeOfRenewal(p: ReconnectPolicy, dials: seq<RawDial>, k: nat, e: ConnectError)
    requires ConnectsAt(p, dials, k) || FailsAt(p, dials, k, e) || ExhaustedAfter(p, dials, k + 1, e)
    ensures k < |dials|
    ensures RenewalTime(p, dials) == DialTime(p, dials, k + 1) + SleepTime(p, dials, k)
  {
    hide Durations.Total, Observed, Consume, DialTime, SleepTime, DialsMade, FINAL_ERRORS;
    FreshIff(p, dials);
    FailedIff(p, dials, e);
    ExhaustedIff(p, dials, k + 1, e);
    if !ExhaustedAfter(p, dials, k + 1, e) {
      SettledAt(p, dials, k);
    }
  }

  // ---------- `send_timeout` against the whole call ----------

  /** The first attempt times out, one dial connects at once, the second attempt takes a nanosecond. */
  ghost function Overrun(timeout: Duration): Circumstances {
    Circumstances(1, RawStream(Sent, Total(timeout) + 1), false, [RawDial(None, 0, 0.0)], RawStream(Sent, 1))
  }

  /** With reconnecting enabled, a successful send can outlast `send_timeout`. */
  lemma SendOutlastsTimeout(p: ReconnectPolicy, timeout: Duration)
    requires p.enabled && timeout != ZERO
    ensures Answer(p, timeout, Overrun(timeout)) == Some(Sent)
    ensures CallTime(p, timeout, Overrun(timeout)) == Total(timeout) + 1
  {
    hide Backoff.ApplyJitter, Backoff.Delay;
    OrderIsTotal(timeout, ZERO);
    var dials := Overrun(timeout).dials;
    var trace := Observed(p, dials);
    assert trace[0].Connected?;
    assert trace[..0] == [] && trace[..1] == trace;
    assert Consume(p, []).Running? && Consume(p, trace) == Fresh;
    DecidedAt(p, trace, 0);
    LoopRefinesVerdict(p, trace);
    OneMoreDial(p, dials, 0);
    NothingConsumed(p, dials);
  }

  /** `send_timeout` bounds every finished call exactly when reconnecting is switched off. */
  lemma TimeoutBoundsCallIff(p: ReconnectPolicy, timeout: Duration)
    requires timeout != ZERO
    ensures (forall x :: Answer(p, timeout, x).Some? ==> CallTime(p, timeout, x) <= Total(timeout)) <==> !p.enabled
  {
    hide Answer, CallTime, Overrun;
    if p.enabled {
      SendOutlastsTimeout(p, timeout);
    } else {
      forall x ensures CallTime(p, timeout, x) <= Total(timeout) {
        WithoutReconnecting(p, timeout, x);
      }
    }
  }

  lemma WithoutReconnecting(p: ReconnectPolicy, timeout: Duration, x: Circumstances)
    requires !p.enabled
    ensures CallTime(p, timeout, x) <= Total(timeout)
  {
  }

  /** What does bound a call: two attempts and one reconnect. With enough dials scripted, it ends. */
  lemma CallIsBounded(p: ReconnectPolicy, timeout: Duration, x: Circumstances)
    requires p.maxAttempts.Some?
    ensures |x.dials| >= DialLimit(p) ==> Answer(p, timeout, x).Some?
    ensures Answer(p, timeout, x).Some? ==> CallTime(p, timeout, x) <= 2 * Total(timeout) + Budget(p)
  {
    hide ReconnectLoop.Decide, ReconnectLoop.Consume, ReconnectTiming.DialTime, ReconnectTiming.SleepTime,
      ReconnectTiming.Budget, ReconnectTiming.DialsMade, ReconnectTiming.Observed, Durations.Total, Retries;
    var trace := Observed(p, x.dials);
    LoopRefinesVerdict(p, trace);
    if |x.dials| >= DialLimit(p) {
      LimitForcesVerdict(p, trace);
    }
    if !Consume(p, trace).Running? {
      DecidedWithinBudget(p, x.dials, DialsMade(p, trace));
    }
  }

  // ---------- the bound is reached ----------

  /** Every dial but the last times out, after which the second attempt times out as well. */
  ghost function SlowDials(p: ReconnectPolicy): (dials: seq<RawDial>)
    requires p.maxAttempts.Some?
  {
    seq(DialLimit(p), i => RawDial(None, Total(p.connectTimeout) + if i < DialLimit(p) - 1 then 1 else 0, 1.0))
  }

  ghost function Slowest(p: ReconnectPolicy, timeout: Duration): Circumstances
    requires p.maxAttempts.Some?
  {
    var late := RawStream(Sent, Total(timeout) + 1);
    Circumstances(1, late, false, SlowDials(p), late)
  }

  ghost predicate EvenDelays(p: ReconnectPolicy, n: nat) {
    forall k: nat :: k < n ==> Total(Delay(p.initialBackoff, p.maxBackoff, k)) % 2 == 0
  }

  lemma {:induction false} SlowDialsTime(p: ReconnectPolicy, n: nat)
    requires p.maxAttempts.Some? && n <= DialLimit(p) && EvenDelays(p, n)
    ensures DialTime(p, SlowDials(p), n) == n * Total(p.connectTimeout)
    ensures SleepTime(p, SlowDials(p), n) == DelaySum(p.initialBackoff, p.maxBackoff, n)
  {
    hide Durations.Total, Backoff.Delay, Backoff.ApplyJitter;
    if n > 0 {
      SlowDialsTime(p, n - 1);
      var t := Total(p.connectTimeout);
      assert (n - 1) * t + t == n * t;
    }
  }

  lemma SlowDialsConnect(p: ReconnectPolicy)
    requires p.maxAttempts.Some?
    ensures Consume(p, Observed(p, SlowDials(p))) == Fresh == Decide(p, Observed(p, SlowDials(p)))
    ensures DialsMade(p, Observed(p, SlowDials(p))) == DialLimit(p)
  {
    hide ReconnectLoop.Consume, ReconnectTiming.DialsMade, Backoff.Delay;
    var trace, n := Observed(p, SlowDials(p)), DialLimit(p);
    var k := FirstDecisive(trace);
    assert !Decisive(Elapsed) && forall i :: 0 <= i < n - 1 ==> trace[i] == Elapsed;
    assert trace[n - 1] == Connected;
    assert k == n - 1;
    LoopRefinesVerdict(p, trace);
    var j := FirstDecisive(trace[..n - 1]);
    LoopRefinesVerdict(p, trace[..n - 1]);
    assert trace[..n] == trace;
    DecidedAt(p, trace, n - 1);
  }

  lemma LastSlowDial(p: ReconnectPolicy)
    requires p.maxAttempts.Some? && EvenDelays(p, DialLimit(p) - 1)
    ensures DialTime(p, SlowDials(p), DialLimit(p)) + SleepTime(p, SlowDials(p), DialLimit(p) - 1) == Budget(p)
  {
    hide ReconnectTiming.DialTime, ReconnectTiming.SleepTime, Durations.Total, Backoff.DelaySum, Backoff.Delay,
      Backoff.ApplyJitter, Backoff.NextBackoff;
    var n, t := DialLimit(p), Total(p.connectTimeout);
    SlowDialsTime(p, n - 1);
    OneMoreDial(p, SlowDials(p), n - 1);
    assert (n - 1) * t + t == n * t;
  }

  lemma TimeOfSlowDials(p: ReconnectPolicy)
    requires p.maxAttempts.Some? && EvenDelays(p, DialLimit(p) - 1)
    ensures RenewalTime(p, SlowDials(p)) == Budget(p)
  {
    hide ReconnectLoop.Consume, ReconnectLoop.Decide, ReconnectTiming.DialsMade, ReconnectTiming.DialTime,
      ReconnectTiming.SleepTime, ReconnectTiming.Observed, ReconnectTiming.Budget, SlowDials, EvenDelays;
    SlowDialsConnect(p);
    LastSlowDial(p);
  }

  /** No smaller bound would do: some call takes exactly this long, if the delays have exact halves. */
  lemma BoundIsReached(p: ReconnectPolicy, timeout: Duration)
    requires p.enabled && p.maxAttempts.Some? && EvenDelays(p, DialLimit(p) - 1)
    ensures Answer(p, timeout, Slowest(p, timeout)) == Some(Unsent(SendTimeout))
    ensures CallTime(p, timeout, Slowest(p, timeout)) == 2 * Total(timeout) + Budget(p)
  {
    hide ReconnectLoop.Decide, ReconnectLoop.Consume, RenewalTime, ReconnectTiming.Budget, SlowDials,
      ReconnectTiming.Observed, Durations.Total;
    SlowDialsConnect(p);
    TimeOfSlowDials(p);
  }

  lemma EvenUnderCap(half: nat, x: nat, m: nat)
    requires m % 2 == 0
    ensures Min(2 * half * x, m) % 2 == 0
  {
    assert 2 * half * x == 2 * (half * x);
  }

  lemma DefaultDelaysAreEven(n: nat)
    ensures EvenDelays(DefaultPolicy(), n)
  {
    hide Backoff.Delay, Backoff.Pow2, Durations.SaturatingDouble;
    var p := DefaultPolicy();
    assert Total(p.initialBackoff) == 2 * 50_000_000 && Total(p.maxBackoff) == 5_000_000_000;
    OrderIsTotal(p.initialBackoff, p.maxBackoff);
    forall k: nat | k < n ensures Total(Delay(p.initialBackoff, p.maxBackoff, k)) % 2 == 0 {
      hide Durations.Total, DefaultPolicy;
      DelayIsCappedPower(p.initialBackoff, p.maxBackoff, k);
      EvenUnderCap(50_000_000, Pow2(k), 5_000_000_000);
    }
  }

  /** With the defaults a send takes at most 141.3 s, although `send_timeout` is 10 s; and it can take that long. */
  lemma DefaultCall(x: Circumstances)
    ensures var c := DefaultConfig();
            && Total(c.sendTimeout) == 10_000_000_000
            && (Answer(c.reconnect, c.sendTimeout, x).Some? ==>
                  CallTime(c.reconnect, c.sendTimeout, x) <= 141_300_000_000)
            && CallTime(c.reconnect, c.sendTimeout, Slowest(c.reconnect, c.sendTimeout)) == 141_300_000_000
  {
    hide Answer, CallTime, Slowest, ReconnectTiming.Budget;
    var c := DefaultConfig();
    DefaultBudget();
    CallIsBounded(c.reconnect, c.sendTimeout, x);
    DefaultDelaysAreEven(DialLimit(c.reconnect) - 1);
    BoundIsReached(c.reconnect, c.sendTimeout);
  }
}
