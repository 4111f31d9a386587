/**
 The reconnect loop as a function of the dials it makes.

 `Advance` is one turn of the loop, `Consume` the loop run over a trace of dial outcomes.
 `Decide` is an independent, closed description of the same verdict.
 */
module ReconnectLoop {
  import opened Durations
  import opened Errors
  import opened Config
  import opened Backoff

  datatype DialOutcome = Connected | Refused(error: ConnectError) | Elapsed

  datatype LoopState =
    | Running(attempts: nat, backoff: Duration)
    | Fresh
    | GaveUp(error: SendError)

  /** The error a failed dial reports; an elapsed one counts as a handshake timeout. */
  function DialError(o: DialOutcome): ConnectError
    requires !o.Connected?
  {
    if o.Refused? then o.error else Handshake(Timeout)
  }

  predicate Decisive(o: DialOutcome) {
    o.Connected? || IsTerminal(DialError(o))
  }

  predicate LimitReached(p: ReconnectPolicy, attempts: nat) {
    p.maxAttempts.Some? && attempts >= p.maxAttempts.value
  }

  /** What one dial outcome does to a running loop, the following sleep included. */
  function Advance(p: ReconnectPolicy, attempts: nat, backoff: Duration, o: DialOutcome): LoopState {
    if o.Connected? then Fresh
    else if IsTerminal(DialError(o)) then GaveUp(Reconnect(DialError(o)))
    else if LimitReached(p, attempts + 1) then GaveUp(ReconnectExhausted(attempts + 1, DialError(o)))
    else Running(attempts + 1, NextBackoff(backoff, p.maxBackoff))
  }

  function Consume(p: ReconnectPolicy, trace: seq<DialOutcome>): LoopState {
    if trace == [] then Running(0, p.initialBackoff)
    else
      var last := |trace| - 1;
      match Consume(p, trace[..last])
      case Running(attempts, backoff) => Advance(p, attempts, backoff, trace[last])
      case s => s
  }

  /** The position of the first success or terminal error. */
  function FirstDecisive(trace: seq<DialOutcome>): (k: nat)
    ensures k <= |trace|
    ensures forall i :: 0 <= i < k ==> !Decisive(trace[i])
    ensures k < |trace| ==> Decisive(trace[k])
  {
    if trace == [] then 0
    else if Decisive(trace[0]) then 0
    else 1 + FirstDecisive(trace[1..])
  }

  predicate WithinLimit(p: ReconnectPolicy, k: nat) {
    p.maxAttempts.Some? ==> k < DialLimit(p)
  }

  /**
   The verdict, stated outright: the first decisive outcome wins if it lies among the allowed
   dials; otherwise the loop gives up after exactly the allowed number, with the last error;
   otherwise it is still going, having doubled its backoff once per dial.
   */
  function Decide(p: ReconnectPolicy, trace: seq<DialOutcome>): LoopState {
    var k := FirstDecisive(trace);
    if k < |trace| && WithinLimit(p, k) then
      if trace[k].Connected? then Fresh else GaveUp(Reconnect(DialError(trace[k])))
    else if p.maxAttempts.Some? && DialLimit(p) <= |trace| then
      GaveUp(ReconnectExhausted(DialLimit(p), DialError(trace[DialLimit(p) - 1])))
    else Running(|trace|, Delay(p.initialBackoff, p.maxBackoff, |trace|))
  }

  lemma FirstDecisiveOfPrefix(trace: seq<DialOutcome>)
    requires trace != []
    ensures var k, front := FirstDecisive(trace), trace[..|trace| - 1];
            FirstDecisive(front) == if k < |front| then k else |front|
  {
    var front := trace[..|trace| - 1];
    var k, j := FirstDecisive(trace), FirstDecisive(front);
    if j < |front| {
      assert Decisive(front[j]) && front[j] == trace[j];
    }
    if k < |front| {
      assert Decisive(trace[k]) && front[k] == trace[k];
    }
  }

  /** The loop computes exactly the stated verdict, on every trace. */
  lemma {:induction false} LoopRefinesVerdict(p: ReconnectPolicy, trace: seq<DialOutcome>)
    ensures Consume(p, trace) == Decide(p, trace)
  {
    if trace != [] {
      LoopRefinesVerdict(p, trace[..|trace| - 1]);
      FirstDecisiveOfPrefix(trace);
    }
  }

  /** A verdict, once reached, no longer depends on what further dials would have done. */
  lemma {:induction false} VerdictIsFinal(p: ReconnectPolicy, trace: seq<DialOutcome>, more: seq<DialOutcome>)
    requires !Consume(p, trace).Running?
    ensures Consume(p, trace + more) == Consume(p, trace)
  {
    if more == [] {
      assert trace + more == trace;
    } else {
      var front := more[..|more| - 1];
      VerdictIsFinal(p, trace, front);
      assert (trace + more)[..|trace + more| - 1] == trace + front;
    }
  }

  /** While the loop runs, it has made as many dials as it counts, all transient, within its limit. */
  lemma RunningMeans(p: ReconnectPolicy, trace: seq<DialOutcome>)
    requires Consume(p, trace).Running?
    ensures Consume(p, trace).attempts == |trace|
    ensures p.maxAttempts.Some? ==> |trace| < DialLimit(p)
    ensures forall i :: 0 <= i < |trace| ==> !Decisive(trace[i])
  {
    LoopRefinesVerdict(p, trace);
  }

  /** A finite limit leaves no trace undecided for longer than the limit. */
  lemma LimitForcesVerdict(p: ReconnectPolicy, trace: seq<DialOutcome>)
    requires p.maxAttempts.Some? && |trace| >= DialLimit(p)
    ensures !Consume(p, trace).Running?
  {
    LoopRefinesVerdict(p, trace);
  }
}
