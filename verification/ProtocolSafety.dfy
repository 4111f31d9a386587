/** What holds in every reachable state of the shared-connection protocol. */
module ProtocolSafety {
  import opened Wrappers
  import opened ArcHeap
  import opened Durations
  import opened Errors
  import opened Config
  import opened Backoff
  import opened ReconnectLoop
  import opened Protocol
  import opened ProtocolLocks
  import opened ProtocolHeap
  import opened ProtocolGens
  import opened ProtocolHistory
  import opened ProtocolInvariant

  /**
   The pointer comparison in `reconnect` is exact. Although addresses are reused, the two Arcs
   compare equal just when the connection the send failed on is still the current generation.
   */
  lemma PointerCheckIsExact(c: Session, s: State, t: nat)
    requires Reachable(c, s) && t < |s.tasks| && s.tasks[t].pc.Compare?
    ensures PtrEq(s.heap, Cur(t), Conn(t)) <==> s.tasks[t].stale == s.curGen
  {
    hide ArcHeap.Valid, ArcHeap.At, ArcHeap.GensBelow, ArcHeap.PtrEq, Protocol.Reachable;
    ReachableInv(c, s);
    InvGivesLocal(c, s, t);
    HolderHasPointer(s.heap, Cur(t));
    HolderHasPointer(s.heap, Conn(t));
    PtrEqIsGenEq(s.heap, Cur(t), Conn(t));
  }

  /** No ABA: two sends hold the same address just when they read the same generation, whenever they read it. */
  lemma HeldAddressesAreGenerations(c: Session, s: State, t: nat, u: nat)
    requires Reachable(c, s) && t < |s.tasks| && u < |s.tasks|
    requires HoldsConn(s.tasks[t].pc) && HoldsConn(s.tasks[u].pc)
    ensures PtrEq(s.heap, Conn(t), Conn(u)) <==> s.tasks[t].stale == s.tasks[u].stale
    ensures PtrEq(s.heap, Conn(t), Shared) <==> s.tasks[t].stale == s.curGen
    ensures At(s.heap, Shared) == Some(s.curGen) && At(s.heap, Conn(t)) == Some(s.tasks[t].stale)
  {
    hide ArcHeap.Valid, ArcHeap.At, ArcHeap.GensBelow, ArcHeap.PtrEq, Protocol.Reachable;
    ReachableInv(c, s);
    InvGivesLocal(c, s, t);
    InvGivesLocal(c, s, u);
    HolderHasPointer(s.heap, Conn(t));
    HolderHasPointer(s.heap, Conn(u));
    HolderHasPointer(s.heap, Shared);
    PtrEqIsGenEq(s.heap, Conn(t), Conn(u));
    PtrEqIsGenEq(s.heap, Conn(t), Shared);
  }

  /** At most one authenticated connection is alive, cancellations included. */
  lemma OneLiveConnection(c: Session, s: State)
    requires Reachable(c, s)
    ensures |s.alive| <= 1
  {
    hide ArcHeap.Valid, ArcHeap.At, ArcHeap.GensBelow, Protocol.Reachable;
    ReachableInv(c, s);
    var only := {s.curGen};
    if Unpublished(s) != {} {
      var t := s.mutex.value;
      assert GensAt(s, t);
      only := Unpublished(s);
    }
    assert s.alive <= only;
    SubsetCard(s.alive, only);
  }

  /** A connection that has been replaced is dead, whoever still holds an Arc to it. */
  lemma EverySupersededConnectionIsDead(c: Session, s: State, g: nat)
    requires Reachable(c, s) && g < s.curGen
    ensures g !in s.alive
  {
    hide ArcHeap.Valid, ArcHeap.At, ArcHeap.GensBelow, Protocol.Reachable;
    ReachableInv(c, s);
    if Unpublished(s) != {} {
      assert GensAt(s, s.mutex.value);
    }
  }

  /** Once all sends are over, exactly one Arc is left, in the shared slot: nothing leaks and no lock is held. */
  lemma QuiescenceIsClean(c: Session, s: State)
    requires Reachable(c, s) && forall t :: 0 <= t < |s.tasks| ==> Finished(s.tasks[t].pc)
    ensures s.heap.ptrs.Keys == {Shared} && s.heap.cells.Keys == {s.heap.ptrs[Shared]}
    ensures s.heap.cells[s.heap.ptrs[Shared]] == Cell(1, s.curGen)
    ensures s.mutex.None? && s.readers == {} && s.writer.None? && s.alive <= {s.curGen}
  {
    hide Protocol.Reachable;
    ReachableInv(c, s);
    QuiescentLocks(s);
    forall l ensures l in s.heap.ptrs <==> l == Shared {
      assert HeapAt(s, l);
      HolderHasPointer(s.heap, l);
    }
    forall a | a in s.heap.cells ensures a == s.heap.ptrs[Shared] && Holders(s.heap, a) == {Shared} {
      var l :| l in Holders(s.heap, a);
    }
    assert HeapAt(s, Shared);
  }

  lemma QuiescentLocks(s: State)
    requires LockInv(s) && AliveOk(s) && forall t :: 0 <= t < |s.tasks| ==> Finished(s.tasks[t].pc)
    ensures s.mutex.None? && s.readers == {} && s.writer.None? && s.alive <= {s.curGen}
  {
    forall t: nat ensures s.mutex != Some(t) && s.writer != Some(t) && t !in s.readers {
      assert LocksAt(s, t);
    }
  }

  /**
   What one send does, whatever the others do: at most two stream attempts, the second one only
   after a reconnectable failure of the first and on a strictly later connection; and it reports
   success just when its last attempt succeeded.
   */
  lemma SendContract(c: Session, s: State, t: nat, r: SendResult)
    requires Reachable(c, s) && t < |s.tasks| && s.tasks[t].pc == Done(r)
    ensures t < |c.sizes| && |s.tasks[t].log| <= 2
    ensures r.Sent? <==> s.tasks[t].log != [] && s.tasks[t].log[|s.tasks[t].log| - 1].result.Sent?
    ensures |s.tasks[t].log| == 2 ==>
              && s.tasks[t].log[0].gen < s.tasks[t].log[1].gen
              && Retries(c.policy, s.tasks[t].log[0].result)
              && r == s.tasks[t].log[1].result
    ensures s.tasks[t].log == [] <==> c.sizes[t] > MAX_TX_BYTES
    ensures |s.tasks[t].log| == 1 && !Retries(c.policy, s.tasks[t].log[0].result) ==> r == s.tasks[t].log[0].result
    ensures |s.tasks[t].log| == 1 && Retries(c.policy, s.tasks[t].log[0].result) ==>
              Decide(c.policy, s.tasks[t].trace).GaveUp? && r == Unsent(Decide(c.policy, s.tasks[t].trace).error)
  {
    hide ArcHeap.Valid, ArcHeap.At, ArcHeap.GensBelow, Protocol.Reachable, ReconnectLoop.Decide,
      ProtocolHeap.HeapInv, ProtocolGens.GenInv, ProtocolLocks.LockInv;
    ReachableInv(c, s);
    assert Told(c, s, t);
    LoopRefinesVerdict(c.policy, s.tasks[t].trace);
  }

  /**
   When a completed send was retried, by the errors' names: exactly when its payload fits, the first
   attempt found the connection gone, and reconnecting is enabled. Otherwise nothing was dialed and
   the first result stands; retried, the second attempt's result or the loop's error does.
   */
  lemma RetriedIff(c: Session, s: State, t: nat, r: SendResult)
    requires Reachable(c, s) && t < |s.tasks| && s.tasks[t].pc == Done(r)
    ensures t < |c.sizes|
    ensures var log, trace := s.tasks[t].log, s.tasks[t].trace;
            if c.sizes[t] > 4096 then log == [] && trace == [] && r == Unsent(TooLarge(c.sizes[t]))
            else if log != [] && c.policy.enabled && ConnectionGone(log[0].result) then
              if |log| == 2 then r == log[1].result
              else trace != [] && Decide(c.policy, trace).GaveUp? && r == Unsent(Decide(c.policy, trace).error)
            else |log| == 1 && trace == [] && r == log[0].result
  {
    hide ArcHeap.Valid, ArcHeap.At, ArcHeap.GensBelow, Protocol.Reachable, ReconnectLoop.Decide, Retries,
      ProtocolHeap.HeapInv, ProtocolGens.GenInv, ProtocolLocks.LockInv, ConnectionGone;
    SendContract(c, s, t, r);
    AttemptsPerSend(c, s, t);
    ReachableInv(c, s);
    assert Told(c, s, t);
    if s.tasks[t].log != [] {
      RetriesIff(c.policy, s.tasks[t].log[0].result);
    }
    NothingDialed(c.policy);
  }

  lemma NothingDialed(p: ReconnectPolicy)
    ensures Decide(p, []).Running?
  {
  }

  /** The network and the callers are not restricted: what may happen at an await can happen. */
  lemma EnvironmentIsFree(c: Session, s: State, t: nat, o: DialOutcome, a: nat, code: nat, cause: ConnectionError)
    requires Reachable(c, s) && t < |s.tasks|
    ensures s.tasks[t].pc.Sending? || s.tasks[t].pc.Resending? ==>
              && (forall r :: r in {Sent, Unsent(SendTimeout), Unsent(StreamClosed), Unsent(StreamWrite(Stopped(code))),
                                    Unsent(StreamWrite(WriteError.ClosedStream)), Unsent(StreamWrite(ZeroRttRejected))}
                    ==> Enabled(c, s, StreamEnds(t, r)))
              && (Attempting(s.tasks[t]) !in s.alive ==>
                    forall r :: r in {Unsent(SendConnectionLost(cause)),
                                      Unsent(StreamWrite(WriteError.ConnectionLost(cause)))}
                      ==> Enabled(c, s, StreamEnds(t, r)))
    ensures s.tasks[t].pc.Dialing? && a !in s.heap.cells ==> Enabled(c, s, DialEnds(t, o, a))
    ensures s.tasks[t].pc in {Start, WaitRead, Sending, WaitLock, WaitRecheck, Dialing, Sleeping, WaitWrite,
                              Resending} ==>
              Enabled(c, s, Cancel(t))
    ensures forall g :: g in s.alive ==> Enabled(c, s, Die(g))
  {
  }

  /** The connection a task's stream is on. */
  function Attempting(k: Task): nat {
    if k.pc.Sending? then k.stale else k.renewed
  }

  // ---------- what ends a connection ----------

  /** No variable holds this connection any more. */
  ghost predicate Unheld(h: Heap, g: nat) {
    forall m :: At(h, m) != Some(g)
  }

  lemma DropDeaths(s: State, l: Loc, bound: nat, g: nat)
    requires Valid(s.heap) && GensBelow(s.heap, bound)
    ensures Valid(DropArc(s, l).heap) && GensBelow(DropArc(s, l).heap, bound)
    ensures Unheld(s.heap, g) ==> Unheld(DropArc(s, l).heap, g)
    ensures g in s.alive && g !in DropArc(s, l).alive ==> Unheld(DropArc(s, l).heap, g)
  {
    hide ArcHeap.Valid, ArcHeap.GensBelow, ArcHeap.Release;
    ReleaseKeeps(s.heap, l, bound);
    if l in s.heap.ptrs {
      FreedIffLast(s.heap, l);
    }
  }

  lemma LeaveDeaths(s: State, t: nat, bound: nat, g: nat)
    requires Valid(s.heap) && GensBelow(s.heap, bound) && t < |s.tasks|
    ensures forall pc :: g in s.alive && g !in Leave(s, t, pc).alive ==> Unheld(Leave(s, t, pc).heap, g)
  {
    hide ArcHeap.Valid, ArcHeap.GensBelow, DropArc, Unheld;
    var d := DropArc(s, Spare(t));
    var e := DropArc(d, Cur(t));
    DropDeaths(s, Spare(t), bound, g);
    DropDeaths(d, Cur(t), bound, g);
    DropDeaths(e, Conn(t), bound, g);
  }

  lemma PublishDeaths(s: State, t: nat, bound: nat, g: nat)
    requires Valid(s.heap) && GensBelow(s.heap, bound) && t < |s.tasks|
    ensures g in s.alive && g !in PublishStep(s, t).alive ==> Unheld(PublishStep(s, t).heap, g)
  {
    hide ArcHeap.Valid, ArcHeap.GensBelow, DropArc;
    DropDeaths(s, Shared, bound, g);
    var d, s' := DropArc(s, Shared), PublishStep(s, t);
    if Unheld(d.heap, g) {
      forall m ensures At(s'.heap, m) != Some(g) {
        assert At(d.heap, m) != Some(g) && At(d.heap, Spare(t)) != Some(g);
      }
    }
  }

  /**
   A connection ends for three reasons only: by itself, closed for a send that timed out on it and
   is about to be retried, or because nobody holds it any more. In particular a send that times out
   with reconnecting disabled leaves the connection alone.
   */
  lemma DeathHasCause(c: Session, s: State, l: Label, g: nat)
    requires Reachable(c, s) && Enabled(c, s, l) && g in s.alive && g !in Apply(c, s, l).alive
    ensures || l == Die(g)
            || (l.Tick? && s.tasks[l.t].pc == Failing(SendTimeout) && c.policy.enabled && s.tasks[l.t].stale == g)
            || Unheld(Apply(c, s, l).heap, g)
  {
    hide ArcHeap.Valid, ArcHeap.GensBelow, ArcHeap.At, ArcHeap.Alloc, ArcHeap.Clone, ArcHeap.Move, DropArc, Unheld,
      Protocol.Reachable, Protocol.Leave, Protocol.PublishStep, ReconnectLoop.Consume, Inv;
    ReachableInv(c, s);
    if !l.Die? {
      InvGivesLocal(c, s, l.t);
      HeapIsSound(c, s);
      match l
      case Tick(t) =>
        PublishDeaths(s, t, s.nextGen, g);
        DropDeaths(s, Cur(t), s.nextGen, g);
      case StreamEnds(t, r) => LeaveDeaths(Attempted(s, t, r), t, s.nextGen, g);
      case DialEnds(_, _, _) =>   // nothing is alive while a send dials
      case Cancel(t) => LeaveDeaths(s, t, s.nextGen, g);
    }
  }

  /** A connection comes to life only by a dial that connects, and always by that. */
  lemma BirthIsDial(c: Session, s: State, l: Label, g: nat)
    requires Reachable(c, s) && Enabled(c, s, l)
    ensures g in Apply(c, s, l).alive && g !in s.alive <==> l.DialEnds? && l.outcome.Connected? && g == s.nextGen
  {
    hide ArcHeap.Valid, ArcHeap.GensBelow, ArcHeap.At, ArcHeap.Alloc, ArcHeap.Clone, ArcHeap.Move, ArcHeap.Release,
      Protocol.Reachable, ReconnectLoop.Consume, Inv;
    ReachableInv(c, s);
    AliveBelowNext(c, s);
  }

  lemma AliveBelowNext(c: Session, s: State)
    requires Inv(c, s)
    ensures forall g :: g in s.alive ==> g < s.nextGen
  {
    hide ArcHeap.Valid, ArcHeap.GensBelow, ProtocolHistory.HistoryInv, ProtocolLocks.LockInv, ProtocolHeap.HeapInv;
    if Unpublished(s) != {} {
      assert GensAt(s, s.mutex.value);
    }
  }

  lemma HeapIsSound(c: Session, s: State)
    requires Inv(c, s)
    ensures Valid(s.heap) && GensBelow(s.heap, s.nextGen)
  {
    hide ArcHeap.Valid, ArcHeap.GensBelow, ProtocolHistory.HistoryInv, ProtocolGens.GenInv, ProtocolLocks.LockInv;
  }

  /** The same of any send, in whatever state it is or was cancelled: attempts, their order and their cause. */
  lemma AttemptsPerSend(c: Session, s: State, t: nat)
    requires Reachable(c, s) && t < |s.tasks|
    ensures t < |c.sizes| && |s.tasks[t].log| <= 2
    ensures s.tasks[t].log != [] ==> c.sizes[t] <= MAX_TX_BYTES
    ensures |s.tasks[t].log| == 2 || s.tasks[t].trace != [] ==>
              s.tasks[t].log != [] && Retries(c.policy, s.tasks[t].log[0].result)
    ensures |s.tasks[t].log| == 2 ==>
              && s.tasks[t].log[0].gen < s.tasks[t].log[1].gen
              && (s.tasks[t].trace == [] || Decide(c.policy, s.tasks[t].trace).Fresh?)
  {
    hide ArcHeap.Valid, ArcHeap.At, ArcHeap.GensBelow, Protocol.Reachable, ReconnectLoop.Decide,
      ReconnectLoop.Consume, ProtocolHeap.HeapInv, ProtocolGens.GenInv, ProtocolLocks.LockInv;
    ReachableInv(c, s);
    assert Told(c, s, t);
    LoopRefinesVerdict(c.policy, s.tasks[t].trace);
  }

  /** No send dials more often than its policy allows, not even one that was cancelled. */
  lemma DialsPerSend(c: Session, s: State, t: nat)
    requires Reachable(c, s) && t < |s.tasks| && c.policy.maxAttempts.Some?
    ensures |s.tasks[t].trace| <= DialLimit(c.policy)
  {
    hide ArcHeap.Valid, ArcHeap.At, ArcHeap.GensBelow, Protocol.Reachable, ReconnectLoop.Consume;
    ReachableInv(c, s);
    assert Told(c, s, t);
  }

  /** A stream the server stopped is not retried: one attempt, no dial, the error as it came. */
  lemma StoppedStreamNeverReconnects(c: Session, s: State, t: nat, code: nat)
    requires Reachable(c, s) && t < |s.tasks| && Finished(s.tasks[t].pc) && s.tasks[t].log != []
    requires s.tasks[t].log[0].result == Unsent(StreamWrite(Stopped(code)))
    ensures |s.tasks[t].log| == 1 && s.tasks[t].trace == []
    ensures s.tasks[t].pc.Done? ==> s.tasks[t].pc.result == Unsent(StreamWrite(Stopped(code)))
  {
    hide ArcHeap.Valid, ArcHeap.At, ArcHeap.GensBelow, Protocol.Reachable;
    ReachableInv(c, s);
    assert Told(c, s, t);
  }

  /** Under a validated policy, the sleep after dial number k is drawn from min(initial * 2^(k-1), max). */
  lemma SleepsFollowSchedule(c: Session, s: State, t: nat)
    requires Reachable(c, s) && t < |s.tasks| && s.tasks[t].pc.Sleeping? && ValidPolicy(c.policy)
    ensures s.tasks[t].attempts == |s.tasks[t].trace| > 0
    ensures Total(s.tasks[t].backoff)
            == Min(Total(c.policy.initialBackoff) * Pow2(|s.tasks[t].trace| - 1), Total(c.policy.maxBackoff))
    ensures 0 < Total(c.policy.initialBackoff) <= Total(s.tasks[t].backoff)
  {
    hide ArcHeap.Valid, ArcHeap.At, ArcHeap.GensBelow, Protocol.Reachable, Durations.Total, Backoff.Delay,
      ReconnectLoop.Consume;
    ReachableInv(c, s);
    assert Told(c, s, t);
    RunningMeans(c.policy, s.tasks[t].trace);
    DelayIsCappedPower(c.policy.initialBackoff, c.policy.maxBackoff, s.tasks[t].attempts - 1);
    DelayGrows(c.policy.initialBackoff, c.policy.maxBackoff, 0, s.tasks[t].attempts - 1);
    DelayGrows(c.policy.initialBackoff, c.policy.maxBackoff, s.tasks[t].attempts - 1, s.tasks[t].attempts - 1);
  }
}
