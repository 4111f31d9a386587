/** Generations: how a send's stale and renewed connections relate to the current one, and who is alive. */
module ProtocolGens {
  import opened Wrappers
  import opened ArcHeap
  import opened Errors
  import opened Backoff
  import opened ReconnectLoop
  import opened Protocol
  import opened ProtocolLocks
  import opened ProtocolHeap

  /** Past a positive comparison, up to the publish. */
  predicate Checked(pc: Pc) {
    pc.Dialing? || pc.Sleeping? || pc.WaitWrite? || pc.Writing?
  }

  /** Past the point where a failed connection is lost or has been closed. */
  predicate PastFailure(pc: Pc) {
    pc.WaitLock? || InLock(pc) || pc.Resending?
  }

  ghost predicate GensAt(s: State, t: nat) {
    t < |s.tasks| ==>
      var k := s.tasks[t];
      && (HoldsConn(k.pc) ==> k.stale <= s.curGen)
      && (Checked(k.pc) ==> k.stale == s.curGen)
      && (k.pc.Compare? ==> k.renewed == s.curGen)
      && (HoldsSpare(k.pc) ==> s.curGen < k.renewed < s.nextGen)
      && (k.pc.Leaving? || k.pc.Resending? ==> k.stale < k.renewed <= s.curGen)
      && (PastFailure(k.pc) ==> k.stale !in s.alive)
      && (k.pc.Failing? ==> IsReconnectable(k.pc.error) && (MeansLost(k.pc.error) ==> k.stale !in s.alive))
  }

  /** The connection the mutex holder has dialed but not yet published. */
  function Unpublished(s: State): set<nat> {
    if s.mutex.Some? && s.mutex.value < |s.tasks| && HoldsSpare(s.tasks[s.mutex.value].pc)
    then {s.tasks[s.mutex.value].renewed} else {}
  }

  ghost predicate AliveOk(s: State) {
    s.curGen < s.nextGen && s.alive <= {s.curGen} + Unpublished(s)
  }

  ghost predicate GenInv(s: State) {
    && (forall t: nat :: GensAt(s, t))
    && AliveOk(s)
  }

  /** One task moves; the current generation only grows, and only in the hands of the mutex holder. */
  ghost predicate GenStep(s: State, s': State, t: nat) {
    && t < |s.tasks| == |s'.tasks|
    && s'.tasks == s.tasks[t := s'.tasks[t]]
    && s.nextGen <= s'.nextGen
    && s'.alive <= s.alive + {s.nextGen}
    && (s'.curGen == s.curGen || (s.curGen < s'.curGen && s.mutex == Some(t)))
    && GensAt(s', t)
    && AliveOk(s')
  }

  lemma GenStepKeeps(s: State, s': State, t: nat)
    requires LockInv(s) && GenInv(s) && GenStep(s, s', t)
    ensures GenInv(s')
  {
    forall u: nat ensures GensAt(s', u) {
      assert GensAt(s, u) && LocksAt(s, u);
    }
  }

  /** What a step of task t needs to know about generations. */
  ghost predicate GenLocal(s: State, t: nat) {
    t < |s.tasks| && GensAt(s, t) && AliveOk(s) && LocksAt(s, t)
  }

  lemma ReadingGens(c: Session, s: State, t: nat)
    requires GenLocal(s, t) && HeapLocal(s, t) && Enabled(c, s, Tick(t)) && HoldsRead(s.tasks[t].pc)
    ensures GenStep(s, TickStep(c, s, t), t)
  {
    hide ArcHeap.Valid, ArcHeap.GensBelow, ArcHeap.Clone, ArcHeap.At;
  }

  lemma QuietTickGens(c: Session, s: State, t: nat)
    requires GenLocal(s, t) && HeapLocal(s, t) && Enabled(c, s, Tick(t))
    requires !HoldsRead(s.tasks[t].pc) && !s.tasks[t].pc.Compare? && !s.tasks[t].pc.Writing?
    ensures GenStep(s, TickStep(c, s, t), t)
  {
    hide ArcHeap.Valid, ArcHeap.Release, ArcHeap.GensBelow, ArcHeap.Clone, ArcHeap.Alloc, ArcHeap.Move, ArcHeap.At,
      Protocol.CompareStep, Protocol.PublishStep, Protocol.CloneShared, Backoff.NextBackoff;
  }

  lemma CompareGens(c: Session, s: State, t: nat)
    requires GenLocal(s, t) && HeapLocal(s, t) && s.tasks[t].pc.Compare?
    ensures GenStep(s, CompareStep(c, s, t), t)
  {
    hide ArcHeap.Valid, ArcHeap.Release, ArcHeap.GensBelow, ArcHeap.Clone, ArcHeap.Alloc, ArcHeap.Move, ArcHeap.At;
    HolderHasPointer(s.heap, Cur(t));
    HolderHasPointer(s.heap, Conn(t));
    PtrEqIsGenEq(s.heap, Cur(t), Conn(t));
    DropKeeps(s, Cur(t));
  }

  lemma PublishGens(s: State, t: nat)
    requires GenLocal(s, t) && HeapLocal(s, t) && s.tasks[t].pc.Writing?
    ensures GenStep(s, PublishStep(s, t), t)
  {
    hide ArcHeap.Valid, ArcHeap.Release, ArcHeap.GensBelow, ArcHeap.Clone, ArcHeap.Alloc, ArcHeap.Move, ArcHeap.At;
    DropKeeps(s, Shared);
  }

  lemma ConnectedGens(c: Session, s: State, t: nat, a: nat)
    requires GenLocal(s, t) && Enabled(c, s, DialEnds(t, Connected, a))
    ensures GenStep(s, DialStep(c, s, t, Connected, a), t)
  {
    hide ArcHeap.Valid, ArcHeap.Release, ArcHeap.GensBelow, ArcHeap.Clone, ArcHeap.Alloc, ArcHeap.Move, ArcHeap.At;
  }

  /** Every variable but the holder's own sees at most the current generation. */
  lemma UnpublishedIsPrivate(s: State, t: nat, l: Loc)
    requires LockInv(s) && HeapInv(s) && GenInv(s)
    requires t < |s.tasks| && HoldsSpare(s.tasks[t].pc) && l != Cur(t) && l != Spare(t)
    ensures At(s.heap, l) != Some(s.tasks[t].renewed)
  {
    hide ArcHeap.Valid, ArcHeap.GensBelow, ArcHeap.At;
    assert HeapAt(s, l);
    assert GensAt(s, t) && LocksAt(s, t);
    if !l.Shared? {
      assert GensAt(s, l.t) && LocksAt(s, l.t);
    }
  }

  lemma LeaveGens(s: State, t: nat, pc: Pc)
    requires LockInv(s) && HeapInv(s) && GenInv(s)
    requires t < |s.tasks| && Finished(pc)
    ensures GenStep(s, Leave(s, t, pc), t)
  {
    hide ArcHeap.Valid, ArcHeap.Release, ArcHeap.GensBelow, ArcHeap.Clone, ArcHeap.Alloc, ArcHeap.Move, ArcHeap.At;
    var s' := Leave(s, t, pc);
    assert LocksAt(s, t) && GensAt(s, t) && HeapAt(s, Shared) && HeapAt(s, Cur(t)) && HeapAt(s, Spare(t));
    LeaveHeap(s, t, pc);
    if HoldsSpare(s.tasks[t].pc) {
      forall l | l != Cur(t) && l != Spare(t) ensures At(s.heap, l) != Some(s.tasks[t].renewed) {
        UnpublishedIsPrivate(s, t, l);
      }
      LeaveCloses(s, t, pc, s.tasks[t].renewed);
    }
  }
}
