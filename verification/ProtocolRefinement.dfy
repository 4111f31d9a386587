/**
 The reconnect sequence (lock, re-check, dial loop, publish) refines one atomic operation:
 "if the current connection is still the stale one, replace it; return what is current".
 Whole runs of the protocol are runs of that specification.
 */
module ProtocolRefinement {
  import opened Wrappers
  import opened ArcHeap
  import opened ReconnectLoop
  import opened Protocol
  import opened ProtocolLocks
  import opened ProtocolHeap
  import opened ProtocolGens
  import opened ProtocolInvariant

  // ---------- the specification ----------

  datatype Op = Idle | Pending(stale: nat) | Got(gen: nat)

  datatype Spec = Spec(cur: nat, ops: seq<Op>)

  datatype Action = Stutter | Invoke(t: nat, stale: nat) | Swap(t: nat, offer: nat) | Quit(t: nat)

  predicate Does(a: Spec, b: Spec, act: Action) {
    match act
    case Stutter => b == a
    case Invoke(t, g) =>
      t < |a.ops| && a.ops[t].Idle? && g <= a.cur && b == a.(ops := a.ops[t := Pending(g)])
    case Swap(t, offer) =>
      t < |a.ops| && a.ops[t].Pending? &&
      if a.cur == a.ops[t].stale then offer > a.cur && b == Spec(offer, a.ops[t := Got(offer)])
      else b == a.(ops := a.ops[t := Got(a.cur)])
    case Quit(t) => t < |a.ops| && !a.ops[t].Idle? && b == a.(ops := a.ops[t := Idle])
  }

  // ---------- the refinement mapping ----------

  function OpOf(k: Task): Op {
    if k.pc.Leaving? || k.pc.Resending? then Got(k.renewed)
    else if PastFailure(k.pc) then Pending(k.stale)
    else Idle
  }

  function Abs(s: State): Spec {
    Spec(s.curGen, seq(|s.tasks|, i requires 0 <= i < |s.tasks| => OpOf(s.tasks[i])))
  }

  /** The linearization points are the negative comparison and the publish. */
  function ActionOf(c: Session, s: State, l: Label): Action
    requires Enabled(c, s, l)
  {
    if l.Die? then Stutter
    else
      var k := s.tasks[l.t];
      if l.Tick? && k.pc.Failing? then Invoke(l.t, k.stale)
      else if l.Tick? && k.pc.Compare? && !PtrEq(s.heap, Cur(l.t), Conn(l.t)) then Swap(l.t, k.renewed)
      else if l.Tick? && k.pc.Writing? then Swap(l.t, k.renewed)
      else if Finished(Apply(c, s, l).tasks[l.t].pc) && !OpOf(k).Idle? then Quit(l.t)
      else Stutter
  }

  lemma AbsOfMove(s: State, s': State, t: nat)
    requires t < |s.tasks| == |s'.tasks| && s'.tasks == s.tasks[t := s'.tasks[t]]
    ensures Abs(s') == Spec(s'.curGen, Abs(s).ops[t := OpOf(s'.tasks[t])])
  {
    assert Abs(s').ops == Abs(s).ops[t := OpOf(s'.tasks[t])];
  }

  lemma TickRefines(c: Session, s: State, t: nat)
    requires Inv(c, s) && Enabled(c, s, Tick(t))
    requires s.tasks[t].pc.Compare? || s.tasks[t].pc.Writing?
    ensures Does(Abs(s), Abs(Apply(c, s, Tick(t))), ActionOf(c, s, Tick(t)))
  {
    hide ArcHeap.Valid, ArcHeap.At, ArcHeap.GensBelow, ArcHeap.PtrEq, ArcHeap.Release, ArcHeap.Move, Inv;
    var s' := Apply(c, s, Tick(t));
    InvGivesLocal(c, s, t);
    HolderHasPointer(s.heap, Cur(t));
    HolderHasPointer(s.heap, Conn(t));
    if s.tasks[t].pc.Compare? {
      PtrEqIsGenEq(s.heap, Cur(t), Conn(t));
    }
    AbsOfMove(s, s', t);
  }

  lemma OtherTickRefines(c: Session, s: State, t: nat)
    requires Inv(c, s) && Enabled(c, s, Tick(t))
    requires !s.tasks[t].pc.Compare? && !s.tasks[t].pc.Writing?
    ensures Does(Abs(s), Abs(Apply(c, s, Tick(t))), ActionOf(c, s, Tick(t)))
  {
    hide ArcHeap.Valid, ArcHeap.At, ArcHeap.GensBelow, ArcHeap.Clone, Inv, Abs, ProtocolHeap.HeapLocal;
    var s' := Apply(c, s, Tick(t));
    InvGivesLocal(c, s, t);
    AbsSize(s);
    AbsOfMove(s, s', t);
    assert Abs(s).ops[t := Abs(s).ops[t]] == Abs(s).ops;
  }

  lemma AbsSize(s: State)
    ensures |Abs(s).ops| == |s.tasks| && Abs(s).cur == s.curGen
    ensures forall i :: 0 <= i < |s.tasks| ==> Abs(s).ops[i] == OpOf(s.tasks[i])
  {
  }

  lemma StreamRefines(c: Session, s: State, t: nat, r: SendResult)
    requires Inv(c, s) && Enabled(c, s, StreamEnds(t, r))
    ensures Does(Abs(s), Abs(Apply(c, s, StreamEnds(t, r))), ActionOf(c, s, StreamEnds(t, r)))
  {
    hide ArcHeap.Valid, ArcHeap.At, ArcHeap.GensBelow, ArcHeap.Clone, ArcHeap.Alloc, ArcHeap.Release, Inv, Abs,
      ProtocolHeap.HeapLocal, Protocol.Leave;
    LeaveEndsTask(Attempted(s, t, r), t);
    InvGivesLocal(c, s, t);
    AbsSize(s);
    AbsOfMove(s, Apply(c, s, StreamEnds(t, r)), t);
    assert Abs(s).ops[t := Abs(s).ops[t]] == Abs(s).ops;
  }

  lemma DialRefines(c: Session, s: State, t: nat, o: DialOutcome, a: nat)
    requires Inv(c, s) && Enabled(c, s, DialEnds(t, o, a))
    ensures Does(Abs(s), Abs(Apply(c, s, DialEnds(t, o, a))), ActionOf(c, s, DialEnds(t, o, a)))
  {
    hide ArcHeap.Valid, ArcHeap.At, ArcHeap.GensBelow, ArcHeap.Clone, ArcHeap.Alloc, ArcHeap.Release, Inv, Abs,
      ProtocolHeap.HeapLocal, Protocol.Leave;
    LeaveEndsTask(WithDial(s, t, o), t);
    InvGivesLocal(c, s, t);
    AbsSize(s);
    AbsOfMove(s, Apply(c, s, DialEnds(t, o, a)), t);
    assert Abs(s).ops[t := Abs(s).ops[t]] == Abs(s).ops;
  }

  lemma CancelRefines(c: Session, s: State, t: nat)
    requires Inv(c, s) && Enabled(c, s, Cancel(t))
    ensures Does(Abs(s), Abs(Apply(c, s, Cancel(t))), ActionOf(c, s, Cancel(t)))
  {
    hide ArcHeap.Valid, ArcHeap.At, ArcHeap.GensBelow, ArcHeap.Clone, ArcHeap.Alloc, ArcHeap.Release, Inv, Abs,
      ProtocolHeap.HeapLocal, Protocol.Leave;
    LeaveEndsTask(s, t);
    InvGivesLocal(c, s, t);
    AbsSize(s);
    AbsOfMove(s, Apply(c, s, Cancel(t)), t);
    assert Abs(s).ops[t := Abs(s).ops[t]] == Abs(s).ops;
  }

  /** Every step of the protocol is a step of the specification. */
  lemma StepRefines(c: Session, s: State, l: Label)
    requires Inv(c, s) && Enabled(c, s, l)
    ensures Does(Abs(s), Abs(Apply(c, s, l)), ActionOf(c, s, l))
  {
    hide Inv, Does, Abs, ActionOf, Protocol.TickStep;
    match l
    case Die(g) => DieRefines(c, s, g);
    case StreamEnds(t, r) => StreamRefines(c, s, t, r);
    case DialEnds(t, o, a) => DialRefines(c, s, t, o, a);
    case Cancel(t) => CancelRefines(c, s, t);
    case Tick(t) =>
      if s.tasks[t].pc.Compare? || s.tasks[t].pc.Writing? {
        TickRefines(c, s, t);
      } else {
        OtherTickRefines(c, s, t);
      }
  }

  lemma DieRefines(c: Session, s: State, g: nat)
    requires Enabled(c, s, Die(g))
    ensures Does(Abs(s), Abs(Apply(c, s, Die(g))), ActionOf(c, s, Die(g)))
  {
  }

  /** Every run, seen through the mapping, is a run of the specification. */
  lemma RunRefines(c: Session, states: seq<State>, labels: seq<Label>)
    requires IsRun(c, states, labels)
    ensures Abs(states[0]).cur == 0 && forall t :: 0 <= t < |c.sizes| ==> Abs(states[0]).ops[t].Idle?
    ensures forall i :: 0 <= i < |labels| ==>
              Does(Abs(states[i]), Abs(states[i + 1]), ActionOf(c, states[i], labels[i]))
  {
    hide Inv, Does, ActionOf, Protocol.Apply;
    AbsSize(states[0]);
    forall i | 0 <= i < |labels|
      ensures Does(Abs(states[i]), Abs(states[i + 1]), ActionOf(c, states[i], labels[i]))
    {
      RunInv(c, states, labels, i);
      StepRefines(c, states[i], labels[i]);
    }
  }

  /** From the positive comparison to the publish, the holder's stale connection stays current. */
  lemma StaleStaysCurrentUntilPublish(c: Session, s: State, t: nat)
    requires Reachable(c, s) && t < |s.tasks| && Checked(s.tasks[t].pc)
    ensures s.tasks[t].stale == s.curGen && s.mutex == Some(t)
    ensures forall u :: 0 <= u < |s.tasks| && u != t ==> !InLock(s.tasks[u].pc)
  {
    hide ArcHeap.Valid, ArcHeap.At, ArcHeap.GensBelow, Protocol.Reachable;
    ReachableInv(c, s);
    assert GensAt(s, t) && LocksAt(s, t);
    forall u | 0 <= u < |s.tasks| && u != t ensures !InLock(s.tasks[u].pc) {
      assert LocksAt(s, u);
    }
  }
}
