/**
 The result of a reconnect read off the dials as the network answers them: which of them came in
 time, with which error. Nothing here refers to the loop or to what it observes.
 */
module ScriptVerdict {
  import opened Wrappers
  import opened Durations
  import opened Errors
  import opened Config
  import opened Backoff
  import opened ReconnectLoop
  import opened ReconnectTiming

  ghost predicate InTime(p: ReconnectPolicy, d: RawDial) {
    d.took <= Total(p.connectTimeout)
  }

  /** The dial fails in a way worth another one. */
  ghost predicate Passing(p: ReconnectPolicy, d: RawDial) {
    InTime(p, d) ==> d.error.Some? && d.error.value !in FINAL_ERRORS
  }

  /** What a failed dial is reported as: its own error, or a timeout if that would have come too late. */
  ghost predicate ReportedAs(p: ReconnectPolicy, d: RawDial, e: ConnectError) {
    if InTime(p, d) then d.error == Some(e) else e == Handshake(HandshakeError.Timeout)
  }

  /** The limit on dials, of which zero means one. */
  predicate Allows(p: ReconnectPolicy, k: nat) {
    p.maxAttempts.Some? ==> k == 0 || k < p.maxAttempts.value
  }

  /** Dial `k` is made: it is allowed, and all dials before it passed. */
  ghost predicate Reaches(p: ReconnectPolicy, script: seq<RawDial>, k: nat) {
    k < |script| && Allows(p, k) && forall j :: 0 <= j < k ==> Passing(p, script[j])
  }

  ghost predicate ConnectsAt(p: ReconnectPolicy, script: seq<RawDial>, k: nat) {
    Reaches(p, script, k) && InTime(p, script[k]) && script[k].error.None?
  }

  ghost predicate FailsAt(p: ReconnectPolicy, script: seq<RawDial>, k: nat, e: ConnectError) {
    Reaches(p, script, k) && InTime(p, script[k]) && script[k].error == Some(e) && e in FINAL_ERRORS
  }

  /** All `n` allowed dials were made, and none of them settled the matter. */
  ghost predicate ExhaustedAfter(p: ReconnectPolicy, script: seq<RawDial>, n: nat, last: ConnectError) {
    && 0 < n <= |script| && Reaches(p, script, n - 1) && !Allows(p, n)
    && Passing(p, script[n - 1]) && ReportedAs(p, script[n - 1], last)
  }

  lemma PassingIsIndecisive(p: ReconnectPolicy, d: RawDial)
    ensures Passing(p, d) <==> !Decisive(Observe(p, d))
    ensures Passing(p, d) ==> ReportedAs(p, d, DialError(Observe(p, d)))
    ensures forall e :: Passing(p, d) && ReportedAs(p, d, e) ==> e == DialError(Observe(p, d))
  {
    hide Observe, Durations.Total, FINAL_ERRORS, IsTerminal;
    var o := Observe(p, d);
    if o.Refused? {
      TerminalErrors(o.error);
    }
    TimeoutIsNotFinal();
  }

  lemma TimeoutIsNotFinal()
    ensures !IsTerminal(Handshake(HandshakeError.Timeout))
  {
  }

  /** The first decisive observation is the first dial that does not pass. */
  lemma FirstNotPassing(p: ReconnectPolicy, script: seq<RawDial>, k: nat)
    requires k <= |script|
    ensures k <= FirstDecisive(Observed(p, script)) <==> forall j :: 0 <= j < k ==> Passing(p, script[j])
  {
    hide Observe, Passing, Decisive;
    forall j | 0 <= j < |script| ensures Passing(p, script[j]) <==> !Decisive(Observed(p, script)[j]) {
      PassingIsIndecisive(p, script[j]);
    }
    var f := FirstDecisive(Observed(p, script));
    assert f < |script| ==> Decisive(Observed(p, script)[f]);
  }

  lemma AllowsIsWithinLimit(p: ReconnectPolicy, k: nat)
    ensures Allows(p, k) <==> WithinLimit(p, k)
  {
  }

  lemma ReachesIff(p: ReconnectPolicy, script: seq<RawDial>, k: nat)
    ensures Reaches(p, script, k) <==>
            k < |script| && WithinLimit(p, k) && k <= FirstDecisive(Observed(p, script))
  {
    hide Passing;
    AllowsIsWithinLimit(p, k);
    if k < |script| {
      FirstNotPassing(p, script, k);
    }
  }

  /** The dial that settles the matter is the first decisive one, and the last one made. */
  lemma SettledAt(p: ReconnectPolicy, script: seq<RawDial>, k: nat)
    requires Reaches(p, script, k) && !Passing(p, script[k])
    ensures FirstDecisive(Observed(p, script)) == k && WithinLimit(p, k)
    ensures DialsMade(p, Observed(p, script)) == k + 1
  {
    hide Consume, Observe, Passing, DialsMade, Decide, Decisive, Backoff.Delay;
    var trace := Observed(p, script);
    ReachesIff(p, script, k);
    FirstNotPassing(p, script, k + 1);
    DecisiveIsLast(p, trace, k);
  }

  lemma DecisiveIsLast(p: ReconnectPolicy, trace: seq<DialOutcome>, k: nat)
    requires k < |trace| && FirstDecisive(trace) == k && WithinLimit(p, k)
    ensures DialsMade(p, trace) == k + 1
  {
    hide Consume, DialsMade, Decisive, Backoff.Delay;
    FirstDecisiveOfTake(trace, k);
    FirstDecisiveOfTake(trace, k + 1);
    LoopRefinesVerdict(p, trace[..k]);
    LoopRefinesVerdict(p, trace[..k + 1]);
    DecidedAt(p, trace, k);
  }

  /** The loop publishes a connection exactly when a dial it gets to connects in time. */
  lemma FreshIff(p: ReconnectPolicy, script: seq<RawDial>)
    ensures Consume(p, Observed(p, script)) == Fresh <==> exists k: nat :: ConnectsAt(p, script, k)
  {
    hide Consume, Observe, Durations.Total, FINAL_ERRORS, IsTerminal, DialsMade;
    var trace := Observed(p, script);
    LoopRefinesVerdict(p, trace);
    var f := FirstDecisive(trace);
    ReachesIff(p, script, f);
    if Consume(p, trace) == Fresh {
      assert ConnectsAt(p, script, f);
    }
    if k: nat :| ConnectsAt(p, script, k) {
      SettledAt(p, script, k);
    }
  }

  /** It returns an error as final exactly when a dial it gets to fails with it in time, and it is a final one. */
  lemma FailedIff(p: ReconnectPolicy, script: seq<RawDial>, e: ConnectError)
    ensures Consume(p, Observed(p, script)) == GaveUp(SendError.Reconnect(e)) <==>
            exists k: nat :: FailsAt(p, script, k, e)
  {
    hide Consume, Observe, Durations.Total, FINAL_ERRORS, IsTerminal, DialsMade;
    var trace := Observed(p, script);
    LoopRefinesVerdict(p, trace);
    var f := FirstDecisive(trace);
    ReachesIff(p, script, f);
    if Consume(p, trace) == GaveUp(SendError.Reconnect(e)) {
      PassingIsIndecisive(p, script[f]);
      assert trace[f] == Refused(e);
      TerminalErrors(e);
      assert FailsAt(p, script, f, e);
    }
    if k: nat :| FailsAt(p, script, k, e) {
      SettledAt(p, script, k);
    }
  }

  /** It gives up exactly when all allowed dials passed, and reports their number and the last one's error. */
  lemma ExhaustedIff(p: ReconnectPolicy, script: seq<RawDial>, n: nat, last: ConnectError)
    ensures Consume(p, Observed(p, script)) == GaveUp(ReconnectExhausted(n, last)) <==>
            ExhaustedAfter(p, script, n, last)
    ensures ExhaustedAfter(p, script, n, last) ==> DialsMade(p, Observed(p, script)) == n
  {
    hide Consume, Observe, Durations.Total, FINAL_ERRORS, IsTerminal, DialsMade, Passing, ReportedAs;
    var trace := Observed(p, script);
    LoopRefinesVerdict(p, trace);
    if 0 < n <= |script| {
      ReachesIff(p, script, n - 1);
      FirstNotPassing(p, script, n);
      AllowsIsWithinLimit(p, n);
      PassingIsIndecisive(p, script[n - 1]);
      if ExhaustedAfter(p, script, n, last) {
        LimitIsMade(p, trace, n);
      }
    }
  }

  lemma LimitIsMade(p: ReconnectPolicy, trace: seq<DialOutcome>, n: nat)
    requires p.maxAttempts.Some? && n == DialLimit(p) <= |trace| && n <= FirstDecisive(trace)
    ensures DialsMade(p, trace) == n
  {
    hide Consume, DialsMade, Decisive, Backoff.Delay;
    FirstDecisiveOfTake(trace, n - 1);
    FirstDecisiveOfTake(trace, n);
    LoopRefinesVerdict(p, trace[..n - 1]);
    LoopRefinesVerdict(p, trace[..n]);
    DecidedAt(p, trace, n - 1);
  }

  /** All three together, for every error and every count. */
  lemma VerdictOnScript(p: ReconnectPolicy, script: seq<RawDial>)
    ensures var s := Consume(p, Observed(p, script));
            && (s == Fresh <==> exists k: nat :: ConnectsAt(p, script, k))
            && (forall e :: s == GaveUp(SendError.Reconnect(e)) <==> exists k: nat :: FailsAt(p, script, k, e))
            && (forall n, last :: s == GaveUp(ReconnectExhausted(n, last)) <==> ExhaustedAfter(p, script, n, last))
  {
    hide Consume, Observed, ConnectsAt, FailsAt, ExhaustedAfter;
    FreshIff(p, script);
    forall e
      ensures Consume(p, Observed(p, script)) == GaveUp(SendError.Reconnect(e)) <==>
              exists k: nat :: FailsAt(p, script, k, e)
    {
      FailedIff(p, script, e);
    }
    forall n, last
      ensures Consume(p, Observed(p, script)) == GaveUp(ReconnectExhausted(n, last)) <==>
              ExhaustedAfter(p, script, n, last)
    {
      ExhaustedIff(p, script, n, last);
    }
  }

  /** There is no third way to give up. */
  lemma GivingUpMeans(p: ReconnectPolicy, trace: seq<DialOutcome>)
    ensures Consume(p, trace).GaveUp? ==>
              Consume(p, trace).error.Reconnect? || Consume(p, trace).error.ReconnectExhausted?
  {
    hide Consume, Decisive, DialError;
    LoopRefinesVerdict(p, trace);
  }
}
