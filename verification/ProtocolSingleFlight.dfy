/** Replacements over a whole run: each generation at most once, and only after it failed a sender. */
module ProtocolSingleFlight {
  import opened ArcHeap
  import opened ReconnectLoop
  import opened Protocol
  import opened ProtocolLocks
  import opened ProtocolHeap
  import opened ProtocolGens
  import opened ProtocolHistory
  import opened ProtocolInvariant

  /** The current connection is replaced by step `i` of the run. */
  predicate Replaces(states: seq<State>, i: nat)
    requires i + 1 < |states|
  {
    states[i + 1].curGen != states[i].curGen
  }

  /** The current generation changes only by a publish, after its publisher's first attempt failed on it. */
  lemma ReplacementIsPublish(c: Session, s: State, l: Label)
    requires Inv(c, s) && Enabled(c, s, l) && Apply(c, s, l).curGen != s.curGen
    ensures l.Tick? && s.tasks[l.t].pc.Writing? && s.curGen < Apply(c, s, l).curGen
    ensures Retried(c, s.tasks[l.t].log) && s.tasks[l.t].log[0].gen == s.curGen
  {
    hide ArcHeap.Valid, ArcHeap.Release, ArcHeap.Clone, ArcHeap.Alloc, ArcHeap.Move, ArcHeap.At, ArcHeap.PtrEq,
      Inv, ProtocolHeap.HeapLocal;
    if !l.Die? {
      InvGivesLocal(c, s, l.t);
    }
  }

  /** Attempts are only ever appended to a task's log. */
  lemma LogsGrow(c: Session, s: State, l: Label, u: nat)
    requires Inv(c, s) && Enabled(c, s, l) && u < |s.tasks|
    ensures u < |Apply(c, s, l).tasks| && s.tasks[u].log <= Apply(c, s, l).tasks[u].log
    ensures s.tasks[u].log == [] && Apply(c, s, l).tasks[u].log != [] ==>
              && l.StreamEnds? && l.t == u && s.tasks[u].pc.Sending?
              && Apply(c, s, l).tasks[u].log == [Attempt(s.tasks[u].stale, l.result)]
  {
    hide ArcHeap.Valid, ArcHeap.Release, ArcHeap.Clone, ArcHeap.Alloc, ArcHeap.Move, ArcHeap.At, ArcHeap.PtrEq,
      Inv, Protocol.Leave, ProtocolHeap.HeapLocal, ReconnectLoop.Consume;
    if !l.Die? {
      InvGivesLocal(c, s, l.t);
      match l
      case Tick(t) =>
      case Cancel(t) => LeaveEndsTask(s, t);
      case StreamEnds(t, r) =>
        LeaveEndsTask(Attempted(s, t, r), t);
      case DialEnds(t, o, a) =>
        LeaveEndsTask(WithDial(s, t, o), t);
    }
  }

  lemma {:induction false} CurrentGrows(c: Session, states: seq<State>, labels: seq<Label>, i: nat, j: nat)
    requires IsRun(c, states, labels) && i <= j <= |labels|
    ensures states[i].curGen <= states[j].curGen
    decreases j
  {
    hide Inv, Protocol.Apply, Protocol.Enabled, Protocol.Init;
    if i < j {
      CurrentGrows(c, states, labels, i, j - 1);
      RunInv(c, states, labels, j - 1);
      if Replaces(states, j - 1) {
        ReplacementIsPublish(c, states[j - 1], labels[j - 1]);
      }
    }
  }

  /** No generation is replaced twice: later replacements are of strictly later generations. */
  lemma ReplacedAtMostOnce(c: Session, states: seq<State>, labels: seq<Label>, i: nat, j: nat)
    requires IsRun(c, states, labels) && i < j < |labels| && Replaces(states, i) && Replaces(states, j)
    ensures states[i].curGen < states[j].curGen
  {
    hide Inv;
    RunInv(c, states, labels, i);
    ReplacementIsPublish(c, states[i], labels[i]);
    CurrentGrows(c, states, labels, i + 1, j);
  }

  /** After a generation is replaced, nobody who queued on it dials any more. */
  lemma NoDialAfterReplacement(c: Session, states: seq<State>, labels: seq<Label>, i: nat, j: nat)
    requires IsRun(c, states, labels) && i < j < |labels| && Replaces(states, i) && labels[j].DialEnds?
    ensures labels[j].t < |states[j].tasks| && states[j].tasks[labels[j].t].stale > states[i].curGen
  {
    hide Inv, ArcHeap.At, ArcHeap.Valid, ProtocolHistory.Told;
    RunInv(c, states, labels, i);
    ReplacementIsPublish(c, states[i], labels[i]);
    CurrentGrows(c, states, labels, i + 1, j);
    RunInv(c, states, labels, j);
    assert Enabled(c, states[j], labels[j]);
    InvGivesLocal(c, states[j], labels[j].t);
  }

  /** An attempt in a log was made by an earlier step of the run. */
  lemma {:induction false} AttemptHappened(c: Session, states: seq<State>, labels: seq<Label>, i: nat, t: nat)
    returns (k: nat)
    requires IsRun(c, states, labels) && i <= |labels| && t < |states[i].tasks| && states[i].tasks[t].log != []
    ensures k < i && t < |states[k].tasks| && states[k].tasks[t].pc.Sending?
    ensures labels[k] == StreamEnds(t, states[i].tasks[t].log[0].result)
    ensures states[k].tasks[t].stale == states[i].tasks[t].log[0].gen
  {
    hide Inv, Protocol.Apply, Protocol.Enabled;
    assert i > 0;
    RunInv(c, states, labels, i - 1);
    RunInv(c, states, labels, i);
    SameTasks(c, states[i - 1], states[i]);
    LogsGrow(c, states[i - 1], labels[i - 1], t);
    if states[i - 1].tasks[t].log != [] {
      k := AttemptHappened(c, states, labels, i - 1, t);
    } else {
      k := i - 1;
    }
  }

  lemma SameTasks(c: Session, s: State, s': State)
    requires Inv(c, s) && Inv(c, s')
    ensures |s.tasks| == |c.sizes| == |s'.tasks|
  {
    hide LockInv, HeapInv, GenInv, ProtocolHistory.Told;
  }

  /** A generation is replaced only after some send's first attempt on it failed reconnectably. */
  lemma ReplacementNeedsFailure(c: Session, states: seq<State>, labels: seq<Label>, i: nat)
    returns (k: nat)
    requires IsRun(c, states, labels) && i < |labels| && Replaces(states, i)
    ensures k < i && labels[k].StreamEnds? && Retries(c.policy, labels[k].result)
    ensures labels[k].t < |states[k].tasks| && states[k].tasks[labels[k].t].pc.Sending?
    ensures states[k].tasks[labels[k].t].stale == states[i].curGen
  {
    hide Inv;
    RunInv(c, states, labels, i);
    ReplacementIsPublish(c, states[i], labels[i]);
    k := AttemptHappened(c, states, labels, i, labels[i].t);
  }

  // ---------- counting ----------

  /** The generations on which some send's first attempt failed reconnectably. */
  function FailedGens(c: Session, s: State): set<nat> {
    set t | 0 <= t < |s.tasks| && Retried(c, s.tasks[t].log) :: s.tasks[t].log[0].gen
  }

  function Replacements(states: seq<State>, n: nat): nat
    requires n < |states|
  {
    if n == 0 then 0 else Replacements(states, n - 1) + if Replaces(states, n - 1) then 1 else 0
  }

  function ReplacedGens(states: seq<State>, n: nat): set<nat>
    requires n < |states|
  {
    if n == 0 then {}
    else ReplacedGens(states, n - 1) + if Replaces(states, n - 1) then {states[n - 1].curGen} else {}
  }

  lemma FailedGensGrow(c: Session, s: State, l: Label)
    requires Inv(c, s) && Enabled(c, s, l)
    ensures FailedGens(c, s) <= FailedGens(c, Apply(c, s, l))
  {
    hide Inv, Protocol.Apply, Protocol.Enabled;
    forall g | g in FailedGens(c, s) ensures g in FailedGens(c, Apply(c, s, l)) {
      var t :| 0 <= t < |s.tasks| && Retried(c, s.tasks[t].log) && s.tasks[t].log[0].gen == g;
      LogsGrow(c, s, l, t);
    }
  }

  lemma PublisherFailed(c: Session, s: State, l: Label)
    requires Inv(c, s) && Enabled(c, s, l) && Apply(c, s, l).curGen != s.curGen
    ensures s.curGen in FailedGens(c, s)
  {
    hide Inv, Protocol.Apply;
    ReplacementIsPublish(c, s, l);
  }

  lemma {:induction false} ReplacedGensCounted(c: Session, states: seq<State>, labels: seq<Label>, n: nat)
    requires IsRun(c, states, labels) && n <= |labels|
    ensures Replacements(states, n) == |ReplacedGens(states, n)|
    ensures ReplacedGens(states, n) <= FailedGens(c, states[n])
    ensures forall g :: g in ReplacedGens(states, n) ==> g < states[n].curGen
  {
    hide Inv, FailedGens, Protocol.Apply;
    if n > 0 {
      var s := states[n - 1];
      ReplacedGensCounted(c, states, labels, n - 1);
      RunInv(c, states, labels, n - 1);
      FailedGensGrow(c, s, labels[n - 1]);
      CurrentGrows(c, states, labels, n - 1, n);
      if Replaces(states, n - 1) {
        PublisherFailed(c, s, labels[n - 1]);
        assert s.curGen !in ReplacedGens(states, n - 1);
      }
    }
  }

  /** Single flight: a run replaces the connection no more often than distinct generations failed. */
  lemma ReplacementsBounded(c: Session, states: seq<State>, labels: seq<Label>)
    requires IsRun(c, states, labels)
    ensures Replacements(states, |labels|) <= |FailedGens(c, states[|labels|])|
  {
    hide FailedGens, Protocol.Apply, Protocol.Enabled, Protocol.Init;
    ReplacedGensCounted(c, states, labels, |labels|);
    SubsetCard(ReplacedGens(states, |labels|), FailedGens(c, states[|labels|]));
  }
}
