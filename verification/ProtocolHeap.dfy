/**
 Ownership: which Arc each variable holds, and that the generation behind it never changes
 while it is held. This is where addresses, which may be reused, are tied to generations.
 */
module ProtocolHeap {
  import opened Wrappers
  import opened ArcHeap
  import opened Backoff
  import opened ReconnectLoop
  import opened Protocol

  /** What a variable must hold, by the program counters and the generations recorded at cloning. */
  function Want(s: State, l: Loc): Option<nat> {
    match l
    case Shared => Some(s.curGen)
    case Conn(t) => if t < |s.tasks| && HoldsConn(s.tasks[t].pc) then Some(s.tasks[t].stale) else None
    case Cur(t) => if t < |s.tasks| && HoldsCur(s.tasks[t].pc) then Some(s.tasks[t].renewed) else None
    case Spare(t) => if t < |s.tasks| && HoldsSpare(s.tasks[t].pc) then Some(s.tasks[t].renewed) else None
  }

  ghost predicate HeapAt(s: State, l: Loc) {
    At(s.heap, l) == Want(s, l)
  }

  ghost predicate HeapInv(s: State) {
    && Valid(s.heap)
    && GensBelow(s.heap, s.nextGen)
    && forall l :: HeapAt(s, l)
  }

  /** The part of the invariant that a step of task t looks at. */
  ghost predicate HeapLocal(s: State, t: nat) {
    && t < |s.tasks|
    && Valid(s.heap)
    && GensBelow(s.heap, s.nextGen)
    && HeapAt(s, Shared) && HeapAt(s, Conn(t)) && HeapAt(s, Cur(t)) && HeapAt(s, Spare(t))
  }

  ghost predicate Foreign(l: Loc, t: nat) {
    l != Shared && l != Conn(t) && l != Cur(t) && l != Spare(t)
  }

  /** One task moves; its own variables and the shared slot end up right, all others keep theirs. */
  ghost predicate HeapStep(s: State, s': State, t: nat) {
    && t < |s.tasks| == |s'.tasks|
    && s'.tasks == s.tasks[t := s'.tasks[t]]
    && HeapLocal(s', t)
    && forall l :: Foreign(l, t) ==> At(s'.heap, l) == At(s.heap, l)
  }

  lemma HeapStepKeeps(s: State, s': State, t: nat)
    requires HeapInv(s) && HeapStep(s, s', t)
    ensures HeapInv(s')
  {
    hide ArcHeap.Valid, ArcHeap.Release, ArcHeap.GensBelow, ArcHeap.At, ArcHeap.Clone, ArcHeap.Alloc, ArcHeap.Move;
    forall l ensures HeapAt(s', l) {
      if Foreign(l, t) {
        assert HeapAt(s, l);
      }
    }
  }

  lemma HolderHasPointer(h: Heap, l: Loc)
    requires Valid(h)
    ensures At(h, l).Some? <==> l in h.ptrs
  {
  }

  lemma DropKeeps(s: State, l: Loc)
    requires Valid(s.heap) && GensBelow(s.heap, s.nextGen)
    ensures var d := DropArc(s, l);
            && Valid(d.heap) && GensBelow(d.heap, d.nextGen)
            && At(d.heap, l) == None
            && (forall m :: m != l ==> At(d.heap, m) == At(s.heap, m))
            && d.alive <= s.alive
            && d == s.(heap := d.heap, alive := d.alive)
  {
    ReleaseKeeps(s.heap, l, s.nextGen);
  }

  lemma LeaveHeap(s: State, t: nat, pc: Pc)
    requires t < |s.tasks| && Valid(s.heap) && GensBelow(s.heap, s.nextGen)
    requires HeapAt(s, Shared) && Finished(pc)
    ensures HeapStep(s, Leave(s, t, pc), t)
    ensures Leave(s, t, pc).alive <= s.alive
  {
    hide ArcHeap.Valid, ArcHeap.Release, ArcHeap.GensBelow, ArcHeap.At, ArcHeap.Clone, ArcHeap.Alloc, ArcHeap.Move;
    var a := DropArc(s, Spare(t));
    var b := DropArc(a, Cur(t));
    DropKeeps(s, Spare(t));
    DropKeeps(a, Cur(t));
    DropKeeps(b, Conn(t));
  }

  lemma CloneHeap(s: State, t: nat, dst: Loc)
    requires HeapLocal(s, t) && At(s.heap, dst) == None
    ensures var h := Clone(s.heap, Shared, dst);
            && Valid(h) && GensBelow(h, s.nextGen)
            && At(h, dst) == Some(s.curGen) && GenAt(s, Shared) == s.curGen
            && forall m :: m != dst ==> At(h, m) == At(s.heap, m)
  {
    hide ArcHeap.Valid, ArcHeap.Release, ArcHeap.GensBelow, ArcHeap.At, ArcHeap.Clone, ArcHeap.Alloc, ArcHeap.Move;
    HolderHasPointer(s.heap, dst);
    HolderHasPointer(s.heap, Shared);
    CloneKeeps(s.heap, Shared, dst, s.nextGen);
  }

  lemma ReadingHeap(c: Session, s: State, t: nat)
    requires HeapLocal(s, t) && Enabled(c, s, Tick(t)) && HoldsRead(s.tasks[t].pc)
    ensures HeapStep(s, TickStep(c, s, t), t)
  {
    hide ArcHeap.Valid, ArcHeap.Release, ArcHeap.GensBelow, ArcHeap.At, ArcHeap.Clone, ArcHeap.Alloc, ArcHeap.Move;
    CloneHeap(s, t, if s.tasks[t].pc.Reading? then Conn(t) else Cur(t));
  }

  lemma CompareHeap(c: Session, s: State, t: nat)
    requires HeapLocal(s, t) && s.tasks[t].pc.Compare?
    ensures HeapStep(s, CompareStep(c, s, t), t)
  {
    hide ArcHeap.Valid, ArcHeap.Release, ArcHeap.GensBelow, ArcHeap.At, ArcHeap.Clone, ArcHeap.Alloc, ArcHeap.Move;
    DropKeeps(s, Cur(t));
  }

  lemma PublishHeap(s: State, t: nat)
    requires HeapLocal(s, t) && s.tasks[t].pc.Writing?
    ensures HeapStep(s, PublishStep(s, t), t)
  {
    hide ArcHeap.Valid, ArcHeap.Release, ArcHeap.GensBelow, ArcHeap.At, ArcHeap.Clone, ArcHeap.Alloc, ArcHeap.Move;
    var d := DropArc(s, Shared);
    DropKeeps(s, Shared);
    HolderHasPointer(d.heap, Shared);
    HolderHasPointer(d.heap, Spare(t));
    MoveKeeps(d.heap, Spare(t), Shared, s.nextGen);
  }

  lemma ConnectedHeap(c: Session, s: State, t: nat, a: nat)
    requires HeapLocal(s, t) && Enabled(c, s, DialEnds(t, Connected, a))
    ensures HeapStep(s, DialStep(c, s, t, Connected, a), t)
  {
    hide ArcHeap.Valid, ArcHeap.Release, ArcHeap.GensBelow, ArcHeap.At, ArcHeap.Clone, ArcHeap.Alloc, ArcHeap.Move;
    HolderHasPointer(s.heap, Cur(t));
    HolderHasPointer(s.heap, Spare(t));
    AllocKeeps(s.heap, Cur(t), a, s.nextGen);
    HolderHasPointer(Alloc(s.heap, Cur(t), a, s.nextGen), Cur(t));
    HolderHasPointer(Alloc(s.heap, Cur(t), a, s.nextGen), Spare(t));
    CloneKeeps(Alloc(s.heap, Cur(t), a, s.nextGen), Cur(t), Spare(t), s.nextGen + 1);
  }

  lemma OtherTickHeap(c: Session, s: State, t: nat)
    requires HeapLocal(s, t) && Enabled(c, s, Tick(t))
    requires !HoldsRead(s.tasks[t].pc) && !s.tasks[t].pc.Compare? && !s.tasks[t].pc.Writing?
    ensures HeapStep(s, TickStep(c, s, t), t)
  {
    hide ArcHeap.Valid, ArcHeap.Release, ArcHeap.GensBelow, ArcHeap.At, ArcHeap.Clone, ArcHeap.Alloc, ArcHeap.Move,
      Protocol.CompareStep, Protocol.PublishStep, Protocol.CloneShared, Backoff.NextBackoff;
  }

  /** Abandoning a new connection before it is published closes it: nobody else holds it. */
  lemma LeaveCloses(s: State, t: nat, pc: Pc, g: nat)
    requires t < |s.tasks| && Valid(s.heap) && GensBelow(s.heap, s.nextGen)
    requires At(s.heap, Cur(t)) == At(s.heap, Spare(t)) == Some(g)
    requires forall l :: l != Cur(t) && l != Spare(t) ==> At(s.heap, l) != Some(g)
    ensures g !in Leave(s, t, pc).alive
  {
    hide ArcHeap.Valid, ArcHeap.Release, ArcHeap.GensBelow;
    var a := DropArc(s, Spare(t));
    var b := DropArc(a, Cur(t));
    DropKeeps(s, Spare(t));
    DropKeeps(a, Cur(t));
    DropKeeps(b, Conn(t));
    HolderHasPointer(a.heap, Cur(t));
    FreedIffLast(a.heap, Cur(t));
    assert g !in b.alive;
  }
}
