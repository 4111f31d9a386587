/** Mutual exclusion: what the locks hold is exactly what the program counters say. */
module ProtocolLocks {
  import opened Wrappers
  import opened ArcHeap
  import opened ReconnectLoop
  import opened Protocol

  ghost predicate LocksAt(s: State, t: nat) {
    && (s.mutex == Some(t) <==> t < |s.tasks| && InLock(s.tasks[t].pc))
    && (t in s.readers <==> t < |s.tasks| && HoldsRead(s.tasks[t].pc))
    && (s.writer == Some(t) <==> t < |s.tasks| && s.tasks[t].pc.Writing?)
  }

  ghost predicate LockInv(s: State) {
    && (forall t: nat :: LocksAt(s, t))
    && (s.writer.Some? ==> s.readers == {})
  }

  /** One task moves, and the locks follow its program counter. */
  ghost predicate LockStep(s: State, s': State, t: nat) {
    && t < |s.tasks| == |s'.tasks|
    && s'.tasks == s.tasks[t := s'.tasks[t]]
    && var p, q := s.tasks[t].pc, s'.tasks[t].pc;
    && s'.mutex == (if InLock(q) then Some(t) else if InLock(p) then None else s.mutex)
    && (InLock(q) && !InLock(p) ==> s.mutex.None?)
    && s'.readers == (if HoldsRead(q) then s.readers + {t} else s.readers - {t})
    && (HoldsRead(q) && !HoldsRead(p) ==> s.writer.None?)
    && s'.writer == (if q.Writing? then Some(t) else if p.Writing? then None else s.writer)
    && (q.Writing? && !p.Writing? ==> s.writer.None? && s.readers == {})
  }

  lemma LockStepKeeps(s: State, s': State, t: nat)
    requires LockInv(s) && LockStep(s, s', t)
    ensures LockInv(s')
  {
    assert LocksAt(s, t);
    forall u: nat ensures LocksAt(s', u) {
      assert LocksAt(s, u);
    }
  }

  lemma LeaveLocks(s: State, t: nat, pc: Pc)
    requires t < |s.tasks| && LocksAt(s, t) && Finished(pc) && !HoldsRead(s.tasks[t].pc) && !s.tasks[t].pc.Writing?
    ensures LockStep(s, Leave(s, t, pc), t)
  {
    hide ArcHeap.Release, ArcHeap.At, ArcHeap.Clone, ArcHeap.Alloc, ArcHeap.Move;
    assert s.readers == s.readers - {t};
  }

  lemma TickLocks(c: Session, s: State, t: nat)
    requires LocksAt(s, t) && Enabled(c, s, Tick(t))
    ensures LockStep(s, TickStep(c, s, t), t)
  {
    hide ArcHeap.Release, ArcHeap.At, ArcHeap.Clone, ArcHeap.Alloc, ArcHeap.Move;
    assert t !in s.readers ==> s.readers == s.readers - {t};
  }

  lemma DialLocks(c: Session, s: State, t: nat, o: DialOutcome, a: nat)
    requires LocksAt(s, t) && Enabled(c, s, DialEnds(t, o, a))
    ensures LockStep(s, DialStep(c, s, t, o, a), t)
  {
    hide ArcHeap.Release, ArcHeap.At, ArcHeap.Clone, ArcHeap.Alloc, ArcHeap.Move;
    assert s.readers == s.readers - {t};
  }

  lemma InitLocks(c: Session, s: State)
    requires Init(c, s)
    ensures LockInv(s)
  {
  }

}
