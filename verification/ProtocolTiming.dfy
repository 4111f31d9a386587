/**
 Time in concurrent runs. A timed run also says how long each state lasts. Only streams, dials and
 sleeps take time, each no longer than its timeout or delay; everything else happens at once when
 it can. Then no send is under way for long, although the lock is not assumed to be fair.
 */
module ProtocolTiming {
  import opened Wrappers
  import opened ArcHeap
  import opened Config
  import opened Backoff
  import opened ReconnectLoop
  import opened ReconnectTiming
  import opened Protocol
  import opened ProtocolLocks
  import opened ProtocolHeap
  import opened ProtocolGens
  import opened ProtocolHistory
  import opened ProtocolInvariant
  import opened ProtocolLiveness
  import D = Durations

  // ---------- timed runs ----------

  predicate Streaming(pc: Pc) {
    pc.Sending? || pc.Resending?
  }

  predicate Looping(pc: Pc) {
    pc.Dialing? || pc.Sleeping?
  }

  datatype Phase = Stream | Loop | Queue | Underway

  predicate In(phase: Phase, pc: Pc) {
    match phase
    case Stream => Streaming(pc)
    case Loop => Looping(pc)
    case Queue => pc.WaitLock?
    case Underway => !pc.Start? && !Finished(pc)
  }

  /** Nothing is left to do that takes no time; a send not yet begun is its caller's business. */
  ghost predicate Quiet(s: State) {
    forall t: nat :: t < |s.tasks| && CanTick(s, t) ==> s.tasks[t].pc.Start? || s.tasks[t].pc.Sleeping?
  }

  predicate Moves(l: Label, t: nat) {
    !l.Die? && l.t == t
  }

  /** How long task `t` has stood at its program counter when state `i` begins. */
  ghost function Since(labels: seq<Label>, delays: seq<nat>, t: nat, i: nat): nat
    requires i <= |labels| == |delays|
  {
    if i == 0 || Moves(labels[i - 1], t) then 0 else Since(labels, delays, t, i - 1) + delays[i - 1]
  }

  /** The timeout or delay that ends what a task is doing; zero where nothing takes time. */
  ghost function Allowed(c: Session, sendTimeout: D.Duration, k: Task): nat {
    if Streaming(k.pc) then D.Total(sendTimeout)
    else if k.pc.Dialing? then D.Total(c.policy.connectTimeout)
    else if k.pc.Sleeping? then D.Total(k.backoff)
    else 0
  }

  ghost predicate OnTime(
      c: Session, sendTimeout: D.Duration, s: State, labels: seq<Label>, delays: seq<nat>, t: nat, i: nat)
    requires i < |labels| == |delays|
  {
    t < |s.tasks| && (Streaming(s.tasks[t].pc) || Looping(s.tasks[t].pc)) ==>
      Since(labels, delays, t, i) + delays[i] <= Allowed(c, sendTimeout, s.tasks[t])
  }

  /** State `i` lasts `delays[i]`; jittered sleeps are at most the delay they are drawn from. */
  ghost predicate IsTimed(
      c: Session, sendTimeout: D.Duration, states: seq<State>, labels: seq<Label>, delays: seq<nat>)
  {
    && IsRun(c, states, labels) && |delays| == |labels|
    && (forall i :: 0 <= i < |labels| && delays[i] > 0 ==> Quiet(states[i]))
    && (forall t: nat, i: nat :: i < |labels| ==> OnTime(c, sendTimeout, states[i], labels, delays, t, i))
  }

  /** The time task `t` has spent in a phase when state `i` begins. */
  ghost function Spent(states: seq<State>, delays: seq<nat>, t: nat, i: nat, phase: Phase): nat
    requires i <= |delays| < |states|
  {
    if i == 0 then 0
    else
      Spent(states, delays, t, i - 1, phase)
      + if t < |states[i - 1].tasks| && In(phase, states[i - 1].tasks[t].pc) then delays[i - 1] else 0
  }

  // ---------- one send: two streams, one loop ----------

  /** What a task may have spent on streams by the time it got where it is. */
  ghost function StreamBase(sendTimeout: D.Duration, k: Task): nat {
    if Finished(k.pc) then 2 * D.Total(sendTimeout)
    else if HoldsConn(k.pc) && !k.pc.Sending? then D.Total(sendTimeout)
    else 0
  }

  /** What a task may have spent on dials and sleeps by the time it got where it is. */
  ghost function LoopBase(p: ReconnectPolicy, k: Task): int
    requires p.maxAttempts.Some?
  {
    match k.pc
    case Dialing => k.attempts * D.Total(p.connectTimeout) + DelaySum(p.initialBackoff, p.maxBackoff, k.attempts)
    case Sleeping =>
      k.attempts * D.Total(p.connectTimeout)
      + if k.attempts == 0 then 0 else DelaySum(p.initialBackoff, p.maxBackoff, k.attempts - 1)
    case WaitWrite => Budget(p)
    case Writing => Budget(p)
    case Leaving => Budget(p)
    case Resending => Budget(p)
    case Done(_) => Budget(p)
    case Cancelled => Budget(p)
    case _ => 0
  }

  /** A task's move may use up what its program counter allowed, and no more. */
  ghost predicate WithinBases(c: Session, sendTimeout: D.Duration, k: Task, k': Task)
    requires c.policy.maxAttempts.Some?
  {
    && StreamBase(sendTimeout, k) + (if Streaming(k.pc) then Allowed(c, sendTimeout, k) else 0)
       <= StreamBase(sendTimeout, k')
    && LoopBase(c.policy, k) + (if Looping(k.pc) then Allowed(c, sendTimeout, k) else 0)
       <= LoopBase(c.policy, k')
  }

  /** After `n` dials within the limit, the sleep that may follow them included. */
  lemma BudgetCovers(p: ReconnectPolicy, n: nat)
    requires p.maxAttempts.Some? && n < DialLimit(p)
    ensures DelaySum(p.initialBackoff, p.maxBackoff, n) + (n + 1) * D.Total(p.connectTimeout) <= Budget(p)
    ensures (n + 1) * D.Total(p.connectTimeout) == n * D.Total(p.connectTimeout) + D.Total(p.connectTimeout)
    ensures n > 0 ==>
              DelaySum(p.initialBackoff, p.maxBackoff, n)
              == DelaySum(p.initialBackoff, p.maxBackoff, n - 1) + D.Total(Delay(p.initialBackoff, p.maxBackoff, n - 1))
  {
    hide D.Total, Backoff.Delay;
    DelaySumGrows(p.initialBackoff, p.maxBackoff, n, DialLimit(p) - 1);
    ProductGrows(n + 1, DialLimit(p), D.Total(p.connectTimeout));
    var t := D.Total(p.connectTimeout);
    assert (n + 1) * t == n * t + t;
  }

  /** A task in the loop has its dials counted, within the limit, and its delay on schedule. */
  lemma LoopingMeans(c: Session, s: State, t: nat)
    requires Told(c, s, t) && t < |s.tasks| && t < |c.sizes| && Looping(s.tasks[t].pc)
    requires c.policy.maxAttempts.Some?
    ensures s.tasks[t].attempts < DialLimit(c.policy)
    ensures var k := s.tasks[t];
            k.pc.Sleeping? ==>
              0 < k.attempts && k.backoff == Delay(c.policy.initialBackoff, c.policy.maxBackoff, k.attempts - 1)
  {
    hide ReconnectLoop.Consume, Backoff.Delay;
    RunningMeans(c.policy, s.tasks[t].trace);
  }

  lemma TickWithinBases(c: Session, sendTimeout: D.Duration, s: State, t: nat)
    requires Enabled(c, s, Tick(t)) && Told(c, s, t) && c.policy.maxAttempts.Some?
    ensures t < |TickStep(c, s, t).tasks|
    ensures WithinBases(c, sendTimeout, s.tasks[t], TickStep(c, s, t).tasks[t])
  {
    hide ArcHeap.Release, ArcHeap.Clone, ArcHeap.Move, ArcHeap.At, ArcHeap.PtrEq, ReconnectLoop.Consume, D.Total,
      Backoff.NextBackoff, Backoff.Delay, ReconnectTiming.Budget, ProtocolHistory.Told;
    if s.tasks[t].pc.Sleeping? {
      LoopingMeans(c, s, t);
      BudgetCovers(c.policy, s.tasks[t].attempts);
    }
  }

  lemma DialWithinBases(c: Session, sendTimeout: D.Duration, s: State, t: nat, o: DialOutcome, a: nat)
    requires Enabled(c, s, DialEnds(t, o, a)) && Told(c, s, t) && c.policy.maxAttempts.Some? && t < |c.sizes|
    ensures t < |DialStep(c, s, t, o, a).tasks|
    ensures WithinBases(c, sendTimeout, s.tasks[t], DialStep(c, s, t, o, a).tasks[t])
  {
    hide ArcHeap.Release, ArcHeap.Clone, ArcHeap.Alloc, ArcHeap.At, ReconnectLoop.Consume, ReconnectLoop.DialError,
      D.Total, Backoff.Delay, ReconnectTiming.Budget, ProtocolHistory.Told, Protocol.Leave;
    LoopingMeans(c, s, t);
    BudgetCovers(c.policy, s.tasks[t].attempts);
    LeaveEndsTask(WithDial(s, t, o), t);
  }

  lemma StreamWithinBases(c: Session, sendTimeout: D.Duration, s: State, t: nat, r: SendResult)
    requires Enabled(c, s, StreamEnds(t, r)) && c.policy.maxAttempts.Some?
    ensures t < |Apply(c, s, StreamEnds(t, r)).tasks|
    ensures WithinBases(c, sendTimeout, s.tasks[t], Apply(c, s, StreamEnds(t, r)).tasks[t])
  {
    hide Protocol.Leave, ArcHeap.At, D.Total, ReconnectTiming.Budget;
    LeaveEndsTask(Attempted(s, t, r), t);
  }

  lemma CancelWithinBases(c: Session, sendTimeout: D.Duration, s: State, t: nat)
    requires Enabled(c, s, Cancel(t)) && Told(c, s, t) && c.policy.maxAttempts.Some? && t < |c.sizes|
    ensures t < |Apply(c, s, Cancel(t)).tasks|
    ensures WithinBases(c, sendTimeout, s.tasks[t], Apply(c, s, Cancel(t)).tasks[t])
  {
    hide Protocol.Leave, ArcHeap.At, D.Total, Backoff.Delay, ReconnectTiming.Budget, ProtocolHistory.Told;
    LeaveEndsTask(s, t);
    if Looping(s.tasks[t].pc) {
      LoopingMeans(c, s, t);
      BudgetCovers(c.policy, s.tasks[t].attempts);
    }
  }

  /** A step either moves task `t` within its bases or leaves it as it is. */
  lemma StepWithinBases(c: Session, sendTimeout: D.Duration, s: State, l: Label, t: nat)
    requires Inv(c, s) && Enabled(c, s, l) && c.policy.maxAttempts.Some? && t < |c.sizes|
    ensures t < |s.tasks| == |Apply(c, s, l).tasks|
    ensures if Moves(l, t) then WithinBases(c, sendTimeout, s.tasks[t], Apply(c, s, l).tasks[t])
            else Apply(c, s, l).tasks[t] == s.tasks[t]
  {
    hide Inv, WithinBases, ProtocolHistory.Told, Protocol.TickStep, Protocol.FirstEnds, Protocol.SecondEnds,
      Protocol.DialStep, Protocol.Leave, Protocol.CanTick, ProtocolHeap.HeapStep, ProtocolGens.GenStep;
    if l.Die? {
      TaskCount(c, s);
    } else {
      StepMoves(c, s, l);
      if l.t == t {
        match l
        case Tick(_) => TickWithinBases(c, sendTimeout, s, t);
        case StreamEnds(_, r) => StreamWithinBases(c, sendTimeout, s, t, r);
        case DialEnds(_, o, a) => DialWithinBases(c, sendTimeout, s, t, o, a);
        case Cancel(_) => CancelWithinBases(c, sendTimeout, s, t);
      }
    }
  }

  lemma TaskCount(c: Session, s: State)
    requires Inv(c, s)
    ensures |s.tasks| == |c.sizes|
  {
    hide LockInv, HeapInv, GenInv, ProtocolHistory.Told;
  }

  lemma {:induction false} SpentWithinBases(
      c: Session, sendTimeout: D.Duration, states: seq<State>, labels: seq<Label>, delays: seq<nat>, t: nat, i: nat)
    requires IsTimed(c, sendTimeout, states, labels, delays) && i <= |labels|
    requires c.policy.maxAttempts.Some? && t < |c.sizes|
    ensures t < |states[i].tasks|
    ensures var k, since := states[i].tasks[t], Since(labels, delays, t, i);
            && Spent(states, delays, t, i, Stream)
               <= StreamBase(sendTimeout, k) + (if Streaming(k.pc) then since else 0)
            && Spent(states, delays, t, i, Loop)
               <= LoopBase(c.policy, k) + (if Looping(k.pc) then since else 0)
  {
    if i > 0 {
      hide Inv, Protocol.Apply, Protocol.Enabled, StreamBase, LoopBase, Allowed;
      SpentWithinBases(c, sendTimeout, states, labels, delays, t, i - 1);
      RunInv(c, states, labels, i - 1);
      StepWithinBases(c, sendTimeout, states[i - 1], labels[i - 1], t);
      assert OnTime(c, sendTimeout, states[i - 1], labels, delays, t, i - 1);
    }
  }

  lemma PhaseNotOverrun(
      c: Session, sendTimeout: D.Duration, states: seq<State>, labels: seq<Label>, delays: seq<nat>, t: nat, i: nat)
    requires IsTimed(c, sendTimeout, states, labels, delays) && i <= |labels|
    requires c.policy.maxAttempts.Some? && t < |c.sizes| && t < |states[i].tasks|
    requires Streaming(states[i].tasks[t].pc) || Looping(states[i].tasks[t].pc)
    ensures Since(labels, delays, t, i) <= Allowed(c, sendTimeout, states[i].tasks[t])
  {
    hide Inv, Protocol.Apply, Protocol.Enabled, WithinBases, Allowed;
    if i > 0 && !Moves(labels[i - 1], t) {
      RunInv(c, states, labels, i - 1);
      StepWithinBases(c, sendTimeout, states[i - 1], labels[i - 1], t);
      assert OnTime(c, sendTimeout, states[i - 1], labels, delays, t, i - 1);
    }
  }

  /** Streams take a send twice `send_timeout` at most, and its own dialing and sleeping one budget. */
  lemma OwnTimeBounded(
      c: Session, sendTimeout: D.Duration, states: seq<State>, labels: seq<Label>, delays: seq<nat>, t: nat, i: nat)
    requires IsTimed(c, sendTimeout, states, labels, delays) && i <= |labels|
    requires c.policy.maxAttempts.Some? && t < |c.sizes|
    ensures Spent(states, delays, t, i, Stream) <= 2 * D.Total(sendTimeout)
    ensures Spent(states, delays, t, i, Loop) <= Budget(c.policy)
  {
    hide Inv, Protocol.Apply, Protocol.Enabled, Protocol.Leave, Allowed, D.Total, ReconnectTiming.Budget,
      ProtocolHistory.Told, Quiet, OnTime, Protocol.Init;
    SpentWithinBases(c, sendTimeout, states, labels, delays, t, i);
    var s := states[i];
    if Streaming(s.tasks[t].pc) || Looping(s.tasks[t].pc) {
      PhaseNotOverrun(c, sendTimeout, states, labels, delays, t, i);
      TimedInv(c, sendTimeout, states, labels, delays, i);
      InvGivesLocal(c, s, t);
      LeaveEndsTask(s, t);
      CancelCovers(c, sendTimeout, s, t);
    }
  }

  lemma TimedInv(
      c: Session, sendTimeout: D.Duration, states: seq<State>, labels: seq<Label>, delays: seq<nat>, i: nat)
    requires IsTimed(c, sendTimeout, states, labels, delays) && i <= |labels|
    ensures Inv(c, states[i]) && |states[i].tasks| == |c.sizes|
  {
    RunInv(c, states, labels, i);
    TaskCount(c, states[i]);
  }

  /** A send caught in the middle of something could be cancelled there, so the final bases cover it. */
  lemma CancelCovers(c: Session, sendTimeout: D.Duration, s: State, t: nat)
    requires Told(c, s, t) && c.policy.maxAttempts.Some? && t < |c.sizes| && t < |s.tasks|
    requires Streaming(s.tasks[t].pc) || Looping(s.tasks[t].pc)
    ensures WithinBases(c, sendTimeout, s.tasks[t], s.tasks[t].(pc := Cancelled))
  {
    hide Protocol.Leave, WithinBases, ProtocolHistory.Told;
    LeaveEndsTask(s, t);
    CancelWithinBases(c, sendTimeout, s, t);
  }

  // ---------- waiting: somebody else is dialing or sleeping ----------

  /** When time passes, a send that neither streams nor dials is queued, and the lock holder is at work. */
  lemma WaitingMeansHolderWorks(c: Session, s: State, t: nat) returns (u: nat)
    requires Inv(c, s) && Quiet(s) && t < |s.tasks| && In(Underway, s.tasks[t].pc)
    requires !Streaming(s.tasks[t].pc) && !Looping(s.tasks[t].pc)
    ensures s.tasks[t].pc.WaitLock?
    ensures u != t && u < |s.tasks| && s.mutex == Some(u) && Looping(s.tasks[u].pc)
  {
    hide ArcHeap.Valid, ArcHeap.At, ArcHeap.GensBelow, ProtocolHistory.Told, ProtocolHeap.HeapInv,
      ProtocolGens.GenInv;
    if s.writer.Some? {
      assert LocksAt(s, s.writer.value);
    }
    if s.readers != {} {
      var r :| r in s.readers;
      assert LocksAt(s, r);
    }
    assert LocksAt(s, t);
    assert s.mutex.Some?;
    u := s.mutex.value;
    assert LocksAt(s, u);
  }

  /** The time the first `n` tasks other than `t` have spent dialing and sleeping. */
  ghost function OthersLoop(states: seq<State>, delays: seq<nat>, t: nat, n: nat, i: nat): nat
    requires i <= |delays| < |states|
  {
    if n == 0 then 0
    else OthersLoop(states, delays, t, n - 1, i) + if n - 1 == t then 0 else Spent(states, delays, n - 1, i, Loop)
  }

  lemma {:induction false} OthersLoopGrows(states: seq<State>, delays: seq<nat>, t: nat, n: nat, i: nat, u: nat)
    requires 0 < i <= |delays| < |states| && u != t
    requires u < |states[i - 1].tasks| && Looping(states[i - 1].tasks[u].pc)
    ensures OthersLoop(states, delays, t, n, i)
            >= OthersLoop(states, delays, t, n, i - 1) + if u < n then delays[i - 1] else 0
  {
    if n > 0 {
      OthersLoopGrows(states, delays, t, n - 1, i, u);
    }
  }

  lemma {:induction false} OthersLoopKeeps(states: seq<State>, delays: seq<nat>, t: nat, n: nat, i: nat)
    requires 0 < i <= |delays| < |states|
    ensures OthersLoop(states, delays, t, n, i) >= OthersLoop(states, delays, t, n, i - 1)
  {
    if n > 0 {
      OthersLoopKeeps(states, delays, t, n - 1, i);
    }
  }

  lemma {:induction false} OthersLoopAtMost(states: seq<State>, delays: seq<nat>, t: nat, n: nat, i: nat, each: nat)
    requires i <= |delays| < |states|
    requires forall u: nat :: u < n ==> Spent(states, delays, u, i, Loop) <= each
    ensures OthersLoop(states, delays, t, n, i) <= (if t < n then n - 1 else n) * each
  {
    hide Spent;
    if n > 0 {
      OthersLoopAtMost(states, delays, t, n - 1, i, each);
      assert (n - 1) * each + each == n * each;
      if n - 1 > 0 {
        assert (n - 2) * each + each == (n - 1) * each;
      }
    }
  }

  /** A send's time is spent on its streams, its loop or in the queue, and queueing is others' loop time. */
  lemma {:induction false} TimeIsAccountedFor(
      c: Session, sendTimeout: D.Duration, states: seq<State>, labels: seq<Label>, delays: seq<nat>, t: nat, i: nat)
    requires IsTimed(c, sendTimeout, states, labels, delays) && i <= |labels| && t < |c.sizes|
    ensures Spent(states, delays, t, i, Underway)
            == Spent(states, delays, t, i, Stream) + Spent(states, delays, t, i, Loop)
               + Spent(states, delays, t, i, Queue)
    ensures Spent(states, delays, t, i, Queue) <= OthersLoop(states, delays, t, |c.sizes|, i)
  {
    hide Inv, Protocol.Apply, Protocol.Enabled, Quiet, OthersLoop;
    if i > 0 {
      TimeIsAccountedFor(c, sendTimeout, states, labels, delays, t, i - 1);
      TimedInv(c, sendTimeout, states, labels, delays, i - 1);
      var s := states[i - 1];
      OthersLoopKeeps(states, delays, t, |c.sizes|, i);
      if delays[i - 1] > 0 && In(Underway, s.tasks[t].pc) && !Streaming(s.tasks[t].pc) && !Looping(s.tasks[t].pc) {
        var u := WaitingMeansHolderWorks(c, s, t);
        OthersLoopGrows(states, delays, t, |c.sizes|, i, u);
      }
    }
  }

  // ---------- the bounds ----------

  /** In the queue for the lock, a send waits at most one budget for each other send, served in any order. */
  lemma QueueingIsBounded(
      c: Session, sendTimeout: D.Duration, states: seq<State>, labels: seq<Label>, delays: seq<nat>, t: nat, i: nat)
    requires IsTimed(c, sendTimeout, states, labels, delays) && i <= |labels|
    requires c.policy.maxAttempts.Some? && t < |c.sizes|
    ensures Spent(states, delays, t, i, Queue) <= (|c.sizes| - 1) * Budget(c.policy)
  {
    hide Quiet, OnTime, Protocol.Init, Protocol.Apply, Protocol.Enabled, Spent, OthersLoop, ReconnectTiming.Budget;
    TimeIsAccountedFor(c, sendTimeout, states, labels, delays, t, i);
    forall u: nat | u < |c.sizes| ensures Spent(states, delays, u, i, Loop) <= Budget(c.policy) {
      OwnTimeBounded(c, sendTimeout, states, labels, delays, u, i);
    }
    OthersLoopAtMost(states, delays, t, |c.sizes|, i, Budget(c.policy));
  }

  /** With a retry limit no send is ever under way for longer than this, whatever happens to it. */
  lemma SendsAreTimely(
      c: Session, sendTimeout: D.Duration, states: seq<State>, labels: seq<Label>, delays: seq<nat>, t: nat, i: nat)
    requires IsTimed(c, sendTimeout, states, labels, delays) && i <= |labels|
    requires c.policy.maxAttempts.Some? && t < |c.sizes|
    ensures Spent(states, delays, t, i, Underway) <= 2 * D.Total(sendTimeout) + |c.sizes| * Budget(c.policy)
  {
    hide Quiet, OnTime, Protocol.Init, Protocol.Apply, Protocol.Enabled, Spent, ReconnectTiming.Budget, D.Total;
    TimeIsAccountedFor(c, sendTimeout, states, labels, delays, t, i);
    OwnTimeBounded(c, sendTimeout, states, labels, delays, t, i);
    QueueingIsBounded(c, sendTimeout, states, labels, delays, t, i);
    var b := Budget(c.policy);
    assert (|c.sizes| - 1) * b + b == |c.sizes| * b;
  }
}
