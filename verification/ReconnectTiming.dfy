/** How long a reconnect takes once it holds the lock. Durations are in nanoseconds. */
module ReconnectTiming {
  import opened Wrappers
  import opened Durations
  import opened Errors
  import opened Config
  import opened Backoff
  import opened ReconnectLoop

  /** One dial as the network would answer it, and the random unit drawn for the sleep after it. */
  datatype RawDial = RawDial(error: Option<ConnectError>, took: nat, unit: real)

  /** `tokio::time::timeout` around the dial. */
  function Observe(p: ReconnectPolicy, d: RawDial): (r: DialOutcome)
    ensures r.Elapsed? <==> d.took > Total(p.connectTimeout)
    ensures r.Connected? <==> d.took <= Total(p.connectTimeout) && d.error.None?
    ensures forall e :: r == Refused(e) <==> d.took <= Total(p.connectTimeout) && d.error == Some(e)
  {
    if d.took > p.connectTimeout.secs * NANOS_PER_SEC + p.connectTimeout.nanos then Elapsed
    else if d.error.Some? then Refused(d.error.value)
    else Connected
  }

  function Observed(p: ReconnectPolicy, script: seq<RawDial>): (trace: seq<DialOutcome>)
    ensures |trace| == |script|
    ensures forall i :: 0 <= i < |script| ==> trace[i] == Observe(p, script[i])
  {
    seq(|script|, i requires 0 <= i < |script| => Observe(p, script[i]))
  }

  ghost function DialTime(p: ReconnectPolicy, script: seq<RawDial>, n: nat): nat
    requires n <= |script|
  {
    if n == 0 then 0 else DialTime(p, script, n - 1) + Min(script[n - 1].took, Total(p.connectTimeout))
  }

  ghost function SleepTime(p: ReconnectPolicy, script: seq<RawDial>, n: nat): nat
    requires n <= |script|
  {
    if n == 0 then 0
    else SleepTime(p, script, n - 1)
         + Total(ApplyJitter(Delay(p.initialBackoff, p.maxBackoff, n - 1), script[n - 1].unit))
  }

  /** The least the first `n` sleeps can add up to: half of each delay, rounded down. */
  ghost function HalfDelaySum(initial: Duration, max: Duration, n: nat): nat {
    if n == 0 then 0 else HalfDelaySum(initial, max, n - 1) + Total(Delay(initial, max, n - 1)) / 2
  }

  lemma {:induction false} SleepsAreJittered(p: ReconnectPolicy, script: seq<RawDial>, n: nat)
    requires n <= |script|
    ensures HalfDelaySum(p.initialBackoff, p.maxBackoff, n) <= SleepTime(p, script, n)
    ensures SleepTime(p, script, n) <= DelaySum(p.initialBackoff, p.maxBackoff, n)
  {
    hide Durations.Total, Backoff.Delay, Backoff.ApplyJitter;
    if n > 0 {
      SleepsAreJittered(p, script, n - 1);
    }
  }

  lemma {:induction false} DialsAreTimedOut(p: ReconnectPolicy, script: seq<RawDial>, n: nat)
    requires n <= |script|
    ensures DialTime(p, script, n) <= n * Total(p.connectTimeout)
  {
    if n > 0 {
      DialsAreTimedOut(p, script, n - 1);
      var t := Total(p.connectTimeout);
      assert (n - 1) * t + t == n * t;
    }
  }

  lemma {:induction false} DelaySumGrows(initial: Duration, max: Duration, m: nat, n: nat)
    requires m <= n
    ensures DelaySum(initial, max, m) <= DelaySum(initial, max, n)
  {
    hide Durations.Total, Backoff.Delay;
    if m < n {
      DelaySumGrows(initial, max, m, n - 1);
    }
  }

  /** A configuration that passes `validate` gives the loop the exact doubling schedule. */
  lemma ValidatedSchedule(c: ClientConfig, k: nat)
    requires Validate(c).None?
    ensures ValidPolicy(c.reconnect)
    ensures var d := Delay(c.reconnect.initialBackoff, c.reconnect.maxBackoff, k);
            && Total(d) == Min(Total(c.reconnect.initialBackoff) * Pow2(k), Total(c.reconnect.maxBackoff))
            && 0 < Total(d) <= Total(NextBackoff(d, c.reconnect.maxBackoff))
  {
    var p := c.reconnect;
    DelayIsCappedPower(p.initialBackoff, p.maxBackoff, k);
    DelayGrows(p.initialBackoff, p.maxBackoff, k, k + 1);
  }

  /** The budget of a whole reconnect: every allowed dial timing out, every delay but the last in full. */
  ghost function Budget(p: ReconnectPolicy): nat
    requires p.maxAttempts.Some?
  {
    DialLimit(p) * Total(p.connectTimeout) + DelaySum(p.initialBackoff, p.maxBackoff, DialLimit(p) - 1)
  }

  /** A decided reconnect slept between its dials only, so it stays within the budget. */
  lemma DecidedWithinBudget(p: ReconnectPolicy, script: seq<RawDial>, made: nat)
    requires p.maxAttempts.Some? && 0 < made <= |script| && made <= DialLimit(p)
    ensures DialTime(p, script, made) + SleepTime(p, script, made - 1) <= Budget(p)
  {
    hide Durations.Total, DialTime, SleepTime, DelaySum;
    DialsAreTimedOut(p, script, made);
    SleepsAreJittered(p, script, made - 1);
    DelaySumGrows(p.initialBackoff, p.maxBackoff, made - 1, DialLimit(p) - 1);
    ProductGrows(made, DialLimit(p), Total(p.connectTimeout));
  }

  lemma ProductGrows(x: nat, y: nat, t: nat)
    requires x <= y
    ensures x * t <= y * t
  {
  }

  /** The budget in closed form, for any validated policy. */
  lemma BudgetClosedForm(p: ReconnectPolicy)
    requires ValidPolicy(p) && p.maxAttempts.Some?
    ensures Total(p.initialBackoff) > 0
    ensures Budget(p) == DialLimit(p) * Total(p.connectTimeout)
                         + ClosedForm(Total(p.initialBackoff), Total(p.maxBackoff), DialLimit(p) - 1)
  {
    DelaySumClosedForm(p.initialBackoff, p.maxBackoff, DialLimit(p) - 1);
  }

  lemma DefaultDelays()
    ensures ClosedForm(100_000_000, 5_000_000_000, 9) == 21_300_000_000
  {
    var i, m := 100_000_000, 5_000_000_000;
    assert Pow2(2) == 4;
    assert Pow2(4) == 16;
    assert Pow2(5) == 32;
    assert Pow2(6) == 64;
    CrossoverIsExact(i, m, 5);
    CrossoverIsExact(i, m, 6);
    assert Crossover(i, m) == 6;
  }

  /** The default policy gives a reconnect at most 121.3 seconds. */
  lemma DefaultBudget()
    ensures ValidPolicy(DefaultPolicy()) && Budget(DefaultPolicy()) == 121_300_000_000
  {
    hide Backoff.ClosedForm, Budget;
    var p := DefaultPolicy();
    OrderIsTotal(p.initialBackoff, p.maxBackoff);
    BudgetClosedForm(p);
    DefaultDelays();
  }

  /** How many dials a reconnect makes before it is decided, or in all if it is not. */
  function DialsMade(p: ReconnectPolicy, trace: seq<DialOutcome>): (n: nat)
    ensures n <= |trace|
    ensures p.maxAttempts.Some? ==> n <= DialLimit(p)
    ensures Consume(p, trace).Running? <==> Consume(p, trace[..n]).Running?
    ensures !Consume(p, trace).Running? ==> n > 0 && Consume(p, trace[..n - 1]).Running?
  {
    var k := FirstDecisive(trace);
    var stop := if k < |trace| then k + 1 else |trace|;
    var n := if p.maxAttempts.Some? then Min(stop, DialLimit(p)) else stop;
    DialsMadeDecides(p, trace, n);
    n
  }

  lemma FirstDecisiveOfTake(trace: seq<DialOutcome>, n: nat)
    requires n <= |trace|
    ensures FirstDecisive(trace[..n]) == Min(n, FirstDecisive(trace))
  {
    var k, j := FirstDecisive(trace), FirstDecisive(trace[..n]);
    if j < n {
      assert Decisive(trace[j]);
    }
    if k < n {
      assert Decisive(trace[..n][k]);
    }
  }

  lemma DialsMadeDecides(p: ReconnectPolicy, trace: seq<DialOutcome>, n: nat)
    requires var k := FirstDecisive(trace);
             var stop := if k < |trace| then k + 1 else |trace|;
             n == if p.maxAttempts.Some? then Min(stop, DialLimit(p)) else stop
    ensures n <= |trace|
    ensures Consume(p, trace).Running? <==> Consume(p, trace[..n]).Running?
    ensures !Consume(p, trace).Running? ==> n > 0 && Consume(p, trace[..n - 1]).Running?
  {
    hide Consume, FirstDecisive, Backoff.Delay;
    LoopRefinesVerdict(p, trace);
    LoopRefinesVerdict(p, trace[..n]);
    FirstDecisiveOfTake(trace, n);
    if n > 0 {
      LoopRefinesVerdict(p, trace[..n - 1]);
      FirstDecisiveOfTake(trace, n - 1);
    }
  }

  lemma StaysDecided(p: ReconnectPolicy, trace: seq<DialOutcome>, i: nat, j: nat)
    requires i <= j <= |trace| && !Consume(p, trace[..i]).Running?
    ensures Consume(p, trace[..j]) == Consume(p, trace[..i])
  {
    assert trace[..j] == trace[..i] + trace[i..j];
    VerdictIsFinal(p, trace[..i], trace[i..j]);
  }

  /** The dial that turns a running loop into a decided one is the last one made. */
  lemma DecidedAt(p: ReconnectPolicy, trace: seq<DialOutcome>, i: nat)
    requires i < |trace| && Consume(p, trace[..i]).Running? && !Consume(p, trace[..i + 1]).Running?
    ensures Consume(p, trace) == Consume(p, trace[..i + 1]) && DialsMade(p, trace) == i + 1
  {
    var made := DialsMade(p, trace);
    assert trace[..|trace|] == trace;
    StaysDecided(p, trace, i + 1, |trace|);
    if made <= i {
      StaysDecided(p, trace, made, i);
    } else if made > i + 1 {
      StaysDecided(p, trace, i + 1, made - 1);
    }
  }

  lemma UndecidedMadeAll(p: ReconnectPolicy, trace: seq<DialOutcome>)
    requires Consume(p, trace).Running?
    ensures DialsMade(p, trace) == |trace|
  {
    LoopRefinesVerdict(p, trace);
  }

  lemma NothingConsumed(p: ReconnectPolicy, script: seq<RawDial>)
    ensures Consume(p, []) == Running(0, p.initialBackoff)
    ensures Delay(p.initialBackoff, p.maxBackoff, 0) == p.initialBackoff
    ensures DialTime(p, script, 0) == 0 && SleepTime(p, script, 0) == 0
  {
  }

  lemma OneMoreDial(p: ReconnectPolicy, script: seq<RawDial>, i: nat)
    requires i < |script|
    ensures DialTime(p, script, i + 1) == DialTime(p, script, i) + Min(script[i].took, Total(p.connectTimeout))
    ensures var d := Delay(p.initialBackoff, p.maxBackoff, i);
            && SleepTime(p, script, i + 1) == SleepTime(p, script, i) + Total(ApplyJitter(d, script[i].unit))
            && Delay(p.initialBackoff, p.maxBackoff, i + 1) == NextBackoff(d, p.maxBackoff)
  {
  }

  lemma StaysInBudget(p: ReconnectPolicy, script: seq<RawDial>, trace: seq<DialOutcome>, made: nat)
    requires 0 < made <= |script| && made == DialsMade(p, trace)
    ensures p.maxAttempts.Some? ==>
              DialTime(p, script, made) + SleepTime(p, script, made - 1) <= Budget(p)
  {
    if p.maxAttempts.Some? {
      DecidedWithinBudget(p, script, made);
    }
  }
}
