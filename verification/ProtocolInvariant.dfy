/** The inductive invariant, kept by every step of every task and of the environment. */
module ProtocolInvariant {
  import opened ArcHeap
  import opened Errors
  import opened ReconnectLoop
  import opened Protocol
  import opened ProtocolLocks
  import opened ProtocolHeap
  import opened ProtocolGens
  import opened ProtocolHistory

  ghost predicate Inv(c: Session, s: State) {
    LockInv(s) && HeapInv(s) && GenInv(s) && HistoryInv(c, s)
  }

  /** Everything a step of task t may rely on. */
  ghost predicate Local(c: Session, s: State, t: nat) {
    HeapLocal(s, t) && GenLocal(s, t) && Told(c, s, t) && t < |c.sizes| == |s.tasks|
  }

  lemma InvGivesLocal(c: Session, s: State, t: nat)
    requires Inv(c, s) && t < |s.tasks|
    ensures Local(c, s, t)
  {
    hide ArcHeap.Valid, ArcHeap.GensBelow, ArcHeap.At, ProtocolHeap.HeapAt, ProtocolLocks.LocksAt,
      ProtocolGens.GensAt, ProtocolGens.AliveOk, ProtocolHistory.Told;
    assert LocksAt(s, t) && GensAt(s, t) && Told(c, s, t);
    assert HeapAt(s, Shared) && HeapAt(s, Conn(t)) && HeapAt(s, Cur(t)) && HeapAt(s, Spare(t));
  }

  /** Four facts about one task's move, one per part of the invariant. */
  ghost predicate MoveOk(c: Session, s: State, s': State, t: nat) {
    LockStep(s, s', t) && HeapStep(s, s', t) && GenStep(s, s', t) && Told(c, s', t)
  }

  lemma MoveKeepsInv(c: Session, s: State, s': State, t: nat)
    requires Inv(c, s) && MoveOk(c, s, s', t)
    ensures Inv(c, s')
  {
    hide ArcHeap.Valid, ArcHeap.GensBelow, ArcHeap.At, ProtocolHeap.HeapAt, ProtocolHeap.HeapLocal,
      ProtocolLocks.LocksAt, ProtocolGens.GensAt, ProtocolGens.AliveOk, ProtocolHistory.Told,
      ProtocolHeap.HeapInv, ProtocolLocks.LockInv, ProtocolGens.GenInv, ProtocolHistory.HistoryInv;
    LockStepKeeps(s, s', t);
    HeapStepKeeps(s, s', t);
    GenStepKeeps(s, s', t);
    HistorySize(c, s);
    HistoryFrame(c, s, s', t);
  }

  lemma HistorySize(c: Session, s: State)
    requires HistoryInv(c, s)
    ensures |s.tasks| == |c.sizes|
  {
  }

  lemma TickMoves(c: Session, s: State, t: nat)
    requires Local(c, s, t) && Enabled(c, s, Tick(t))
    ensures MoveOk(c, s, TickStep(c, s, t), t)
  {
    hide ArcHeap.Valid, ArcHeap.GensBelow, ArcHeap.At, ProtocolHeap.HeapAt, ProtocolHeap.HeapLocal,
      ProtocolLocks.LockStep, ProtocolHeap.HeapStep, ProtocolGens.GenStep, ProtocolLocks.LocksAt,
      ProtocolGens.GensAt, ProtocolGens.AliveOk, ProtocolHistory.Told,
      Protocol.CompareStep, Protocol.PublishStep, Protocol.CloneShared, Protocol.Goto, Protocol.GenAt;
    TickLocks(c, s, t);
    TickHistory(c, s, t);
    if HoldsRead(s.tasks[t].pc) {
      ReadingHeap(c, s, t);
      ReadingGens(c, s, t);
    } else if s.tasks[t].pc.Compare? {
      CompareHeap(c, s, t);
      CompareGens(c, s, t);
    } else if s.tasks[t].pc.Writing? {
      PublishHeap(s, t);
      PublishGens(s, t);
    } else {
      OtherTickHeap(c, s, t);
      QuietTickGens(c, s, t);
    }
  }

  /** Writing down an attempt or a dial changes nothing else about the task. */
  predicate Noted(s: State, d: State, t: nat) {
    t < |s.tasks| && t < |d.tasks|
    && d == s.(tasks := s.tasks[t := s.tasks[t].(log := d.tasks[t].log, trace := d.tasks[t].trace)])
  }

  lemma NoteKeeps(s: State, d: State, t: nat)
    requires LockInv(s) && HeapInv(s) && GenInv(s) && Noted(s, d, t)
    ensures LockInv(d) && HeapInv(d) && GenInv(d)
  {
    hide ArcHeap.Valid, ArcHeap.GensBelow, ArcHeap.At;
    forall u: nat ensures LocksAt(d, u) && GensAt(d, u) {
      assert LocksAt(s, u) && GensAt(s, u);
    }
    forall l ensures HeapAt(d, l) {
      assert HeapAt(s, l);
    }
  }

  lemma NoteThenStep(s: State, d: State, s': State, t: nat)
    requires Noted(s, d, t) && LockStep(d, s', t) && HeapStep(d, s', t) && GenStep(d, s', t)
    ensures LockStep(s, s', t) && HeapStep(s, s', t) && GenStep(s, s', t)
  {
    hide ArcHeap.Valid, ArcHeap.GensBelow, ArcHeap.At, ProtocolHeap.HeapLocal, ProtocolGens.GensAt,
      ProtocolGens.AliveOk;
  }

  lemma LeaveMoves(s: State, d: State, t: nat, pc: Pc)
    requires LockInv(s) && HeapInv(s) && GenInv(s) && Noted(s, d, t) && Finished(pc)
    requires !HoldsRead(s.tasks[t].pc) && !s.tasks[t].pc.Writing?
    ensures var s' := Leave(d, t, pc);
            LockStep(s, s', t) && HeapStep(s, s', t) && GenStep(s, s', t)
  {
    hide ArcHeap.Valid, ArcHeap.GensBelow, ArcHeap.At, ProtocolHeap.HeapStep, ProtocolLocks.LockStep,
      ProtocolGens.GenStep, Protocol.Leave;
    NoteKeeps(s, d, t);
    assert LocksAt(d, t) && HeapAt(d, Shared);
    LeaveLocks(d, t, pc);
    LeaveHeap(d, t, pc);
    LeaveGens(d, t, pc);
    NoteThenStep(s, d, Leave(d, t, pc), t);
  }

  lemma StreamMoves(c: Session, s: State, t: nat, r: SendResult)
    requires Inv(c, s) && Enabled(c, s, StreamEnds(t, r))
    ensures MoveOk(c, s, Apply(c, s, StreamEnds(t, r)), t)
  {
    hide ArcHeap.Valid, ArcHeap.GensBelow, ArcHeap.At, ProtocolHistory.Told, Protocol.Leave;
    InvGivesLocal(c, s, t);
    StreamHistory(c, s, t, r);
    var d := Attempted(s, t, r);
    if s.tasks[t].pc.Resending? || !Retries(c.policy, r) {
      LeaveMoves(s, d, t, Done(r));
    } else {
      assert s.readers == s.readers - {t};
    }
  }

  lemma DialMoves(c: Session, s: State, t: nat, o: DialOutcome, a: nat)
    requires Inv(c, s) && Enabled(c, s, DialEnds(t, o, a))
    ensures MoveOk(c, s, Apply(c, s, DialEnds(t, o, a)), t)
  {
    hide ArcHeap.Valid, ArcHeap.GensBelow, ArcHeap.At, ProtocolHistory.Told, Protocol.Leave;
    InvGivesLocal(c, s, t);
    DialHistory(c, s, t, o, a);
    var d := WithDial(s, t, o);
    var attempts := s.tasks[t].attempts + 1;
    DialLocks(c, s, t, o, a);
    if o.Connected? {
      ConnectedHeap(c, s, t, a);
      ConnectedGens(c, s, t, a);
    } else if IsTerminal(DialError(o)) {
      LeaveMoves(s, d, t, Done(Unsent(Reconnect(DialError(o)))));
    } else if LimitReached(c.policy, attempts) {
      LeaveMoves(s, d, t, Done(Unsent(ReconnectExhausted(attempts, DialError(o)))));
    }
  }

  lemma CancelMoves(c: Session, s: State, t: nat)
    requires Inv(c, s) && Enabled(c, s, Cancel(t))
    ensures MoveOk(c, s, Apply(c, s, Cancel(t)), t)
  {
    hide ArcHeap.Valid, ArcHeap.GensBelow, ArcHeap.At, ProtocolHistory.Told, Protocol.Leave,
      ProtocolHeap.HeapStep, ProtocolLocks.LockStep, ProtocolGens.GenStep, ProtocolHeap.HeapLocal,
      ProtocolGens.GenLocal;
    InvGivesLocal(c, s, t);
    CancelHistory(c, s, t);
    LeaveMoves(s, s, t, Cancelled);
  }

  lemma DieKeepsInv(c: Session, s: State, g: nat)
    requires Inv(c, s) && g in s.alive
    ensures Inv(c, Apply(c, s, Die(g)))
  {
    hide ArcHeap.Valid, ArcHeap.GensBelow, ArcHeap.At;
    var s' := Apply(c, s, Die(g));
    forall u: nat ensures LocksAt(s', u) && GensAt(s', u) && Told(c, s', u) {
      assert LocksAt(s, u) && GensAt(s, u) && Told(c, s, u);
    }
    forall l ensures HeapAt(s', l) {
      assert HeapAt(s, l);
    }
  }

  /** Every step keeps the invariant. */
  lemma StepKeepsInv(c: Session, s: State, l: Label)
    requires Inv(c, s) && Enabled(c, s, l)
    ensures Inv(c, Apply(c, s, l))
  {
    hide Inv, MoveOk, Local, Protocol.TickStep, Protocol.FirstEnds, Protocol.SecondEnds, Protocol.DialStep,
      Protocol.Leave, Protocol.CanTick;
    match l
    case Tick(t) =>
      InvGivesLocal(c, s, t);
      TickMoves(c, s, t);
      MoveKeepsInv(c, s, Apply(c, s, l), t);
    case StreamEnds(t, r) =>
      StreamMoves(c, s, t, r);
      MoveKeepsInv(c, s, Apply(c, s, l), t);
    case DialEnds(t, o, a) =>
      DialMoves(c, s, t, o, a);
      MoveKeepsInv(c, s, Apply(c, s, l), t);
    case Cancel(t) =>
      CancelMoves(c, s, t);
      MoveKeepsInv(c, s, Apply(c, s, l), t);
    case Die(g) => DieKeepsInv(c, s, g);
  }

  lemma InitInv(c: Session, s: State)
    requires Init(c, s)
    ensures Inv(c, s)
  {
    InitLocks(c, s);
    InitHeap(s.heap);
    forall t: nat ensures GensAt(s, t) && Told(c, s, t) {
    }
    forall l ensures HeapAt(s, l) {
    }
  }

  lemma InitHeap(h: Heap)
    requires exists a :: h == Heap(map[a := Cell(1, 0)], map[Shared := a])
    ensures Valid(h) && GensBelow(h, 1)
  {
    var a :| h == Heap(map[a := Cell(1, 0)], map[Shared := a]);
    assert Holders(h, a) == {Shared};
  }

  /** The invariant holds in every state of every run. */
  lemma {:induction false} RunInv(c: Session, states: seq<State>, labels: seq<Label>, i: nat)
    requires IsRun(c, states, labels) && i <= |labels|
    ensures Inv(c, states[i])
  {
    if i == 0 {
      InitInv(c, states[0]);
    } else {
      RunInv(c, states, labels, i - 1);
      StepKeepsInv(c, states[i - 1], labels[i - 1]);
    }
  }

  lemma ReachableInv(c: Session, s: State)
    requires Reachable(c, s)
    ensures Inv(c, s)
  {
    var states, labels :| IsRun(c, states, labels) && states[|labels|] == s;
    RunInv(c, states, labels, |labels|);
  }
}
