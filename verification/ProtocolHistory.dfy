/** The story each send leaves behind: its stream attempts, its dials, and the result they imply. */
module ProtocolHistory {
  import opened ArcHeap
  import opened Errors
  import opened Config
  import opened Backoff
  import opened ReconnectLoop
  import opened Protocol
  import opened ProtocolGens

  /** The attempt failed in one of the three ways that mean the connection is gone. */
  ghost predicate ConnectionGone(r: SendResult) {
    || r == Unsent(SendTimeout)
    || (exists cause :: r == Unsent(SendConnectionLost(cause)))
    || (exists cause :: r == Unsent(StreamWrite(WriteError.ConnectionLost(cause))))
  }

  lemma RetriesIff(p: ReconnectPolicy, r: SendResult)
    ensures Retries(p, r) <==> p.enabled && ConnectionGone(r)
  {
    if r.Unsent? && r.error.SendConnectionLost? {
      assert r == Unsent(SendConnectionLost(r.error.cause));
    }
    if r.Unsent? && r.error.StreamWrite? && r.error.write.ConnectionLost? {
      assert r == Unsent(StreamWrite(WriteError.ConnectionLost(r.error.write.cause)));
    }
  }

  /** A first attempt that leads to a reconnect: it failed, reconnectably, with reconnecting enabled. */
  predicate Retried(c: Session, log: seq<Attempt>) {
    |log| >= 1 && Retries(c.policy, log[0].result)
  }

  /** What `send_transaction_bytes` returns, as a function of its size, its attempts and its dials. */
  function Verdict(c: Session, size: nat, log: seq<Attempt>, trace: seq<DialOutcome>): SendResult {
    if size > MAX_TX_BYTES || log == [] then Unsent(TooLarge(size))
    else if |log| > 1 then log[1].result
    else
      match Consume(c.policy, trace)
      case GaveUp(e) => Unsent(e)
      case _ => log[0].result
  }

  /** At most two attempts, the second on a later connection and only as a retry. */
  ghost predicate WellLogged(c: Session, size: nat, log: seq<Attempt>, trace: seq<DialOutcome>) {
    && |log| <= 2
    && (log != [] ==> size <= MAX_TX_BYTES)
    && (trace != [] ==> Retried(c, log))
    && (|log| == 2 ==> Retried(c, log) && log[0].gen < log[1].gen)
    && (|log| == 2 ==> trace == [] || Consume(c.policy, trace).Fresh?)
    && (c.policy.maxAttempts.Some? ==> |trace| <= DialLimit(c.policy))
  }

  /** A finished send was conclusive: nothing was left undecided. */
  ghost predicate Concluded(c: Session, size: nat, log: seq<Attempt>, trace: seq<DialOutcome>) {
    && (size <= MAX_TX_BYTES ==> log != [])
    && (|log| == 1 && Retried(c, log) ==> Consume(c.policy, trace).GaveUp?)
  }

  ghost predicate Told(c: Session, s: State, t: nat) {
    t < |s.tasks| && t < |c.sizes| ==>
      var k := s.tasks[t];
      && WellLogged(c, c.sizes[t], k.log, k.trace)
      && (k.pc.WaitRead? || HoldsRead(k.pc) || k.pc.Sending? ==> c.sizes[t] <= MAX_TX_BYTES)
      && (k.pc.Start? || k.pc.WaitRead? || k.pc.Reading? || k.pc.Sending? ==> k.log == [])
      && (k.pc.Failing? || PastFailure(k.pc) ==>
            |k.log| == 1 && Retried(c, k.log) && k.log[0].gen == k.stale)
      && (k.pc.Failing? || k.pc.WaitLock? || k.pc.WaitRecheck? || k.pc.Rechecking? || k.pc.Compare? ==>
            k.trace == [])
      && (k.pc.Dialing? ==> Consume(c.policy, k.trace) == Running(k.attempts, k.backoff))
      && (k.pc.Sleeping? ==>
            Consume(c.policy, k.trace) == Running(k.attempts, NextBackoff(k.backoff, c.policy.maxBackoff)))
      && (k.pc.Sleeping? ==>
            0 < k.attempts && k.backoff == Delay(c.policy.initialBackoff, c.policy.maxBackoff, k.attempts - 1))
      && (k.pc.WaitWrite? || k.pc.Writing? ==> Consume(c.policy, k.trace) == Fresh)
      && (k.pc.Leaving? || k.pc.Resending? ==> k.trace == [] || Consume(c.policy, k.trace).Fresh?)
      && (k.pc.Done? ==>
            && Concluded(c, c.sizes[t], k.log, k.trace)
            && k.pc.result == Verdict(c, c.sizes[t], k.log, k.trace))
  }

  ghost predicate HistoryInv(c: Session, s: State) {
    |s.tasks| == |c.sizes| && forall t: nat :: Told(c, s, t)
  }

  lemma HistoryFrame(c: Session, s: State, s': State, t: nat)
    requires HistoryInv(c, s) && t < |s.tasks| == |s'.tasks|
    requires s'.tasks == s.tasks[t := s'.tasks[t]] && Told(c, s', t)
    ensures HistoryInv(c, s')
  {
    forall u: nat ensures Told(c, s', u) {
      assert Told(c, s, u);
    }
  }

  lemma StartHistory(c: Session, s: State, t: nat)
    requires Told(c, s, t) && Enabled(c, s, Tick(t)) && s.tasks[t].pc.Start?
    ensures Told(c, TickStep(c, s, t), t)
  {
    hide ReconnectLoop.Consume;
  }

  lemma EarlyTickHistory(c: Session, s: State, t: nat)
    requires Told(c, s, t) && Enabled(c, s, Tick(t))
    requires s.tasks[t].pc.WaitRead? || s.tasks[t].pc.Reading? || s.tasks[t].pc.Failing? || s.tasks[t].pc.WaitLock?
      || s.tasks[t].pc.WaitRecheck? || s.tasks[t].pc.Rechecking?
    ensures Told(c, TickStep(c, s, t), t)
  {
    hide ArcHeap.Clone, ArcHeap.At, ReconnectLoop.Consume, Concluded, Verdict, Retried,
      Protocol.CompareStep, Protocol.PublishStep;
  }

  lemma CompareHistory(c: Session, s: State, t: nat)
    requires Told(c, s, t) && t < |s.tasks| && s.tasks[t].pc.Compare?
    ensures Told(c, CompareStep(c, s, t), t)
  {
    assert Consume(c.policy, []) == Running(0, c.policy.initialBackoff);
    hide ArcHeap.Release, ArcHeap.PtrEq, ReconnectLoop.Consume, WellLogged, Concluded, Verdict, Retried;
  }

  lemma LateTickHistory(c: Session, s: State, t: nat)
    requires Told(c, s, t) && Enabled(c, s, Tick(t))
    requires s.tasks[t].pc.Sleeping? || s.tasks[t].pc.WaitWrite? || s.tasks[t].pc.Writing? || s.tasks[t].pc.Leaving?
    ensures Told(c, TickStep(c, s, t), t)
  {
    hide ArcHeap.Release, ArcHeap.Move, ReconnectLoop.Consume, Backoff.NextBackoff, Backoff.Delay,
      WellLogged, Concluded, Verdict, Retried, Protocol.CompareStep;
  }

  lemma TickHistory(c: Session, s: State, t: nat)
    requires Told(c, s, t) && Enabled(c, s, Tick(t))
    ensures Told(c, TickStep(c, s, t), t)
  {
    hide Told, Protocol.Goto, Protocol.CloneShared, Protocol.CompareStep, Protocol.PublishStep;
    match s.tasks[t].pc
    case Start => StartHistory(c, s, t);
    case Compare => CompareHistory(c, s, t);
    case Sleeping => LateTickHistory(c, s, t);
    case WaitWrite => LateTickHistory(c, s, t);
    case Writing => LateTickHistory(c, s, t);
    case Leaving => LateTickHistory(c, s, t);
    case _ => EarlyTickHistory(c, s, t);
  }

  /** One more dial outcome advances the loop by one turn. */
  lemma ConsumeOneMore(p: ReconnectPolicy, trace: seq<DialOutcome>, o: DialOutcome)
    requires Consume(p, trace).Running?
    ensures Consume(p, trace + [o]) ==
            Advance(p, Consume(p, trace).attempts, Consume(p, trace).backoff, o)
    ensures p.maxAttempts.Some? ==> |trace + [o]| <= DialLimit(p)
  {
    assert (trace + [o])[..|trace|] == trace;
    RunningMeans(p, trace);
  }

  lemma DialHistory(c: Session, s: State, t: nat, o: DialOutcome, a: nat)
    requires Told(c, s, t) && t < |c.sizes| && Enabled(c, s, DialEnds(t, o, a))
    ensures Told(c, DialStep(c, s, t, o, a), t)
  {
    hide ArcHeap.Release, ArcHeap.Clone, ArcHeap.Alloc, ArcHeap.At, Backoff.NextBackoff, ReconnectLoop.Consume,
      Protocol.Leave, Backoff.Delay, ReconnectLoop.FirstDecisive;
    ConsumeOneMore(c.policy, s.tasks[t].trace, o);
    LoopRefinesVerdict(c.policy, s.tasks[t].trace);
    LeaveEndsTask(WithDial(s, t, o), t);
  }

  lemma StreamHistory(c: Session, s: State, t: nat, r: SendResult)
    requires Told(c, s, t) && t < |c.sizes| && Enabled(c, s, StreamEnds(t, r)) && GensAt(s, t)
    ensures Told(c, Apply(c, s, StreamEnds(t, r)), t)
  {
    hide ArcHeap.Release, ArcHeap.At, Protocol.Leave;
    LeaveEndsTask(Attempted(s, t, r), t);
  }

  lemma CancelHistory(c: Session, s: State, t: nat)
    requires Told(c, s, t) && t < |s.tasks|
    ensures Told(c, Leave(s, t, Cancelled), t)
  {
    hide ArcHeap.Release, ArcHeap.At, Protocol.Leave;
    LeaveEndsTask(s, t);
  }
}
