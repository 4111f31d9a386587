/** Progress, termination, and the cost of a whole run: how many steps, dials and replacements. */
module ProtocolLiveness {
  import opened ArcHeap
  import opened Errors
  import opened Config
  import opened Backoff
  import opened ReconnectLoop
  import opened Protocol
  import opened ProtocolLocks
  import opened ProtocolHeap
  import opened ProtocolGens
  import opened ProtocolHistory
  import opened ProtocolInvariant

  // ---------- progress ----------

  /** A step by which some send advances by itself; neither a cancellation nor a dying connection. */
  predicate Advances(l: Label) {
    l.Tick? || l.StreamEnds? || l.DialEnds?
  }

  /** A send that is not waiting for a lock can always go on; timeouts see to the network calls. */
  lemma UnblockedAdvances(c: Session, s: State, t: nat) returns (l: Label)
    requires t < |s.tasks| == |c.sizes| && !Finished(s.tasks[t].pc)
    requires s.tasks[t].pc.WaitRead? || s.tasks[t].pc.WaitRecheck? ==> s.writer.None?
    requires s.tasks[t].pc.WaitWrite? ==> s.writer.None? && s.readers == {}
    requires s.tasks[t].pc.WaitLock? ==> s.mutex.None?
    ensures Advances(l) && Enabled(c, s, l)
  {
    if s.tasks[t].pc.Sending? || s.tasks[t].pc.Resending? {
      l := StreamEnds(t, Unsent(SendTimeout));
    } else if s.tasks[t].pc.Dialing? {
      l := DialEnds(t, Elapsed, 0);
    } else {
      l := Tick(t);
    }
  }

  /**
   No deadlock: as long as some send is unfinished, some send can advance. The mutex and the
   read-write lock never wait for each other in a cycle.
   */
  lemma SomeSendAdvances(c: Session, s: State, t: nat) returns (l: Label)
    requires Reachable(c, s) && t < |s.tasks| && !Finished(s.tasks[t].pc)
    ensures Advances(l) && Enabled(c, s, l)
  {
    hide ArcHeap.Valid, ArcHeap.At, ArcHeap.GensBelow, Protocol.Reachable, ProtocolHistory.Told,
      ProtocolHeap.HeapInv, ProtocolGens.GenInv, Protocol.Enabled;
    ReachableInv(c, s);
    if s.writer.Some? {
      var w := s.writer.value;
      assert LocksAt(s, w);
      l := UnblockedAdvances(c, s, w);
    } else if s.readers != {} {
      var r :| r in s.readers;
      assert LocksAt(s, r);
      l := UnblockedAdvances(c, s, r);
    } else if s.mutex.Some? {
      var m := s.mutex.value;
      assert LocksAt(s, m);
      l := UnblockedAdvances(c, s, m);
    } else {
      l := UnblockedAdvances(c, s, t);
    }
  }

  // ---------- termination ----------

  /** How many more steps a task can take, with `limit` dials allowed per reconnect. */
  function Rank(k: Task, limit: nat): nat {
    var left := if k.attempts <= limit then 2 * (limit - k.attempts) else 0;
    match k.pc
    case Done(_) => 0
    case Cancelled => 0
    case Resending => 1
    case Leaving => 2
    case Writing => 3
    case WaitWrite => 4
    case Dialing => 4 + left
    case Sleeping => 5 + left
    case Compare => 5 + 2 * limit
    case Rechecking => 6 + 2 * limit
    case WaitRecheck => 7 + 2 * limit
    case WaitLock => 8 + 2 * limit
    case Failing(_) => 9 + 2 * limit
    case Sending => 10 + 2 * limit
    case Reading => 11 + 2 * limit
    case WaitRead => 12 + 2 * limit
    case Start => 13 + 2 * limit
  }

  /** What remains of a whole run: every task's steps, and the connections that may still die. */
  function Total(tasks: seq<Task>, limit: nat): nat {
    if tasks == [] then 0 else Total(tasks[..|tasks| - 1], limit) + Rank(tasks[|tasks| - 1], limit)
  }

  function Measure(c: Session, s: State): nat
    requires c.policy.maxAttempts.Some?
  {
    2 * Total(s.tasks, DialLimit(c.policy)) + |s.alive|
  }

  lemma {:induction false} TotalOfUpdate(tasks: seq<Task>, t: nat, k: Task, limit: nat)
    requires t < |tasks|
    ensures Total(tasks[t := k], limit) == Total(tasks, limit) - Rank(tasks[t], limit) + Rank(k, limit)
  {
    var last := |tasks| - 1;
    if t == last {
      assert tasks[t := k][..last] == tasks[..last];
    } else {
      assert tasks[t := k][..last] == tasks[..last][t := k];
      TotalOfUpdate(tasks[..last], t, k, limit);
    }
  }

  lemma {:induction false} TotalAtMost(tasks: seq<Task>, limit: nat, each: nat)
    requires forall t :: 0 <= t < |tasks| ==> Rank(tasks[t], limit) <= each
    ensures Total(tasks, limit) <= each * |tasks|
  {
    if tasks != [] {
      TotalAtMost(tasks[..|tasks| - 1], limit, each);
      assert each * (|tasks| - 1) + each == each * |tasks|;
    }
  }

  lemma TickLowersRank(c: Session, s: State, t: nat)
    requires Enabled(c, s, Tick(t)) && Told(c, s, t) && c.policy.maxAttempts.Some?
    ensures var s' := TickStep(c, s, t);
            t < |s'.tasks| && Rank(s'.tasks[t], DialLimit(c.policy)) < Rank(s.tasks[t], DialLimit(c.policy))
  {
    hide ArcHeap.Release, ArcHeap.Clone, ArcHeap.Move, ArcHeap.At, ArcHeap.PtrEq, ReconnectLoop.Consume,
      Backoff.NextBackoff;
    if s.tasks[t].pc.Sleeping? || s.tasks[t].pc.Dialing? {
      RunningMeans(c.policy, s.tasks[t].trace);
    }
  }

  lemma DialLowersRank(c: Session, s: State, t: nat, o: DialOutcome, a: nat)
    requires Enabled(c, s, DialEnds(t, o, a)) && Told(c, s, t) && c.policy.maxAttempts.Some? && t < |c.sizes|
    ensures var s' := DialStep(c, s, t, o, a);
            t < |s'.tasks| && Rank(s'.tasks[t], DialLimit(c.policy)) < Rank(s.tasks[t], DialLimit(c.policy))
  {
    hide ArcHeap.Release, ArcHeap.Clone, ArcHeap.Alloc, ArcHeap.At, ReconnectLoop.Consume, ReconnectLoop.DialError,
      Errors.IsTerminal, Protocol.Leave;
    RunningMeans(c.policy, s.tasks[t].trace);
    LeaveEndsTask(WithDial(s, t, o), t);
  }

  lemma StreamLowersRank(c: Session, s: State, t: nat, r: SendResult)
    requires Enabled(c, s, StreamEnds(t, r))
    ensures var s' := Apply(c, s, StreamEnds(t, r));
            t < |s'.tasks| && forall limit :: Rank(s'.tasks[t], limit) < Rank(s.tasks[t], limit)
  {
    hide Protocol.Leave, ArcHeap.At;
    LeaveEndsTask(Attempted(s, t, r), t);
  }

  lemma CancelLowersRank(c: Session, s: State, t: nat)
    requires Enabled(c, s, Cancel(t))
    ensures var s' := Apply(c, s, Cancel(t));
            t < |s'.tasks| && forall limit :: Rank(s'.tasks[t], limit) < Rank(s.tasks[t], limit)
  {
    hide Protocol.Leave, ArcHeap.At;
    LeaveEndsTask(s, t);
  }

  lemma AliveGrowsByOne(a: set<nat>, b: set<nat>, g: nat)
    requires b <= a + {g}
    ensures |b| <= |a| + 1
  {
    SubsetCard(b, a + {g});
    assert |a + {g}| <= |a| + 1;
  }

  /** Every step, of whatever kind, uses up some of the measure. */
  lemma StepLowersMeasure(c: Session, s: State, l: Label)
    requires Inv(c, s) && Enabled(c, s, l) && c.policy.maxAttempts.Some?
    ensures Measure(c, Apply(c, s, l)) < Measure(c, s)
  {
    hide Inv, ProtocolInvariant.Local, Rank, Total, ProtocolHistory.Told, Protocol.TickStep, Protocol.FirstEnds,
      Protocol.SecondEnds, Protocol.DialStep, Protocol.Leave, Protocol.CanTick, ProtocolLocks.LockStep,
      ProtocolHeap.HeapStep;
    var s' := Apply(c, s, l);
    if l.Die? {
      assert |s'.alive| == |s.alive| - 1;
    } else {
      var limit := DialLimit(c.policy);
      StepMoves(c, s, l);
      match l {
        case Tick(t) => TickLowersRank(c, s, t);
        case StreamEnds(t, r) => StreamLowersRank(c, s, t, r);
        case DialEnds(t, o, a) => DialLowersRank(c, s, t, o, a);
        case Cancel(t) => CancelLowersRank(c, s, t);
      }
      TotalOfUpdate(s.tasks, l.t, s'.tasks[l.t], limit);
      AliveGrowsByOne(s.alive, s'.alive, s.nextGen);
    }
  }

  lemma StepMoves(c: Session, s: State, l: Label)
    requires Inv(c, s) && Enabled(c, s, l) && !l.Die?
    ensures l.t < |c.sizes| == |s.tasks| && Told(c, s, l.t) && MoveOk(c, s, Apply(c, s, l), l.t)
  {
    hide Inv, MoveOk, Protocol.TickStep, Protocol.FirstEnds, Protocol.SecondEnds, Protocol.DialStep,
      Protocol.Leave, Protocol.CanTick, ProtocolHistory.Told, ProtocolHeap.HeapLocal;
    InvGivesLocal(c, s, l.t);
    match l
    case Tick(t) => TickMoves(c, s, t);
    case StreamEnds(t, r) => StreamMoves(c, s, t, r);
    case DialEnds(t, o, a) => DialMoves(c, s, t, o, a);
    case Cancel(t) => CancelMoves(c, s, t);
  }

  lemma {:induction false} MeasureAlongRun(c: Session, states: seq<State>, labels: seq<Label>, i: nat)
    requires IsRun(c, states, labels) && i <= |labels| && c.policy.maxAttempts.Some?
    ensures i + Measure(c, states[i]) <= Measure(c, states[0])
  {
    hide Inv, Measure;
    if i > 0 {
      MeasureAlongRun(c, states, labels, i - 1);
      RunInv(c, states, labels, i - 1);
      StepLowersMeasure(c, states[i - 1], labels[i - 1]);
    }
  }

  /** With a finite retry limit every run ends: its length is bounded by the sends and the limit. */
  lemma RunsAreBounded(c: Session, states: seq<State>, labels: seq<Label>)
    requires IsRun(c, states, labels) && c.policy.maxAttempts.Some?
    ensures |labels| <= 2 * ((13 + 2 * DialLimit(c.policy)) * |c.sizes|) + 1
  {
    var limit := DialLimit(c.policy);
    MeasureAlongRun(c, states, labels, |labels|);
    TotalAtMost(states[0].tasks, limit, 13 + 2 * limit);
    assert |states[0].alive| == 1;
  }

  /** A run that no send can extend is one in which every send has finished. */
  lemma MaximalRunsFinish(c: Session, states: seq<State>, labels: seq<Label>)
    requires IsRun(c, states, labels)
    requires forall l :: Advances(l) ==> !Enabled(c, states[|labels|], l)
    ensures forall t :: 0 <= t < |states[|labels|].tasks| ==> Finished(states[|labels|].tasks[t].pc)
  {
    hide Protocol.Enabled, Protocol.Init, Protocol.Apply;
    var s := states[|labels|];
    assert Reachable(c, s);
    if t :| 0 <= t < |s.tasks| && !Finished(s.tasks[t].pc) {
      var l := SomeSendAdvances(c, s, t);
    }
  }

  // ---------- dials over the whole run ----------

  function Dials(tasks: seq<Task>): nat {
    if tasks == [] then 0 else Dials(tasks[..|tasks| - 1]) + |tasks[|tasks| - 1].trace|
  }

  lemma {:induction false} DialsAtMost(tasks: seq<Task>, each: nat)
    requires forall t :: 0 <= t < |tasks| ==> |tasks[t].trace| <= each
    ensures Dials(tasks) <= each * |tasks|
  {
    if tasks != [] {
      DialsAtMost(tasks[..|tasks| - 1], each);
      assert each * (|tasks| - 1) + each == each * |tasks|;
    }
  }

  lemma {:induction false} DialsOfUpdate(tasks: seq<Task>, t: nat, k: Task)
    requires t < |tasks|
    ensures Dials(tasks[t := k]) == Dials(tasks) - |tasks[t].trace| + |k.trace|
  {
    var last := |tasks| - 1;
    if t == last {
      assert tasks[t := k][..last] == tasks[..last];
    } else {
      assert tasks[t := k][..last] == tasks[..last][t := k];
      DialsOfUpdate(tasks[..last], t, k);
    }
  }

  /** How many of a run's first `n` labels are dials. */
  function DialLabels(labels: seq<Label>, n: nat): nat
    requires n <= |labels|
  {
    if n == 0 then 0 else DialLabels(labels, n - 1) + if labels[n - 1].DialEnds? then 1 else 0
  }

  lemma StepCountsDials(c: Session, s: State, l: Label)
    requires Inv(c, s) && Enabled(c, s, l)
    ensures Dials(Apply(c, s, l).tasks) == Dials(s.tasks) + if l.DialEnds? then 1 else 0
  {
    hide ArcHeap.Valid, ArcHeap.Release, ArcHeap.Clone, ArcHeap.Alloc, ArcHeap.Move, ArcHeap.At, ArcHeap.PtrEq,
      Dials, Inv, Protocol.Leave, ProtocolHistory.Told, ProtocolHeap.HeapStep, ProtocolGens.GenStep;
    if !l.Die? {
      StepMoves(c, s, l);
      if l.Cancel? {
        LeaveEndsTask(s, l.t);
      } else if l.DialEnds? {
        LeaveEndsTask(WithDial(s, l.t, l.outcome), l.t);
      } else if l.StreamEnds? {
        LeaveEndsTask(Attempted(s, l.t, l.result), l.t);
      }
      DialsOfUpdate(s.tasks, l.t, Apply(c, s, l).tasks[l.t]);
    }
  }

  lemma {:induction false} DialsAlongRun(c: Session, states: seq<State>, labels: seq<Label>, i: nat)
    requires IsRun(c, states, labels) && i <= |labels|
    ensures Dials(states[i].tasks) == DialLabels(labels, i)
  {
    hide Inv;
    if i == 0 {
      DialsAtMost(states[0].tasks, 0);
    } else {
      DialsAlongRun(c, states, labels, i - 1);
      RunInv(c, states, labels, i - 1);
      StepCountsDials(c, states[i - 1], labels[i - 1]);
    }
  }

  /** A whole run, however interleaved, dials at most sends times the limit. */
  lemma RunDialsBounded(c: Session, states: seq<State>, labels: seq<Label>)
    requires IsRun(c, states, labels) && c.policy.maxAttempts.Some?
    ensures DialLabels(labels, |labels|) <= DialLimit(c.policy) * |c.sizes|
  {
    hide ProtocolHeap.HeapInv, ProtocolGens.GenInv, ProtocolLocks.LockInv;
    var s := states[|labels|];
    DialsAlongRun(c, states, labels, |labels|);
    RunInv(c, states, labels, |labels|);
    forall t | 0 <= t < |s.tasks| ensures |s.tasks[t].trace| <= DialLimit(c.policy) {
      assert Told(c, s, t);
    }
    DialsAtMost(s.tasks, DialLimit(c.policy));
  }
}
