/**
 The bounded fan-out of `probe_all`: every endpoint's task is spawned at once, a semaphore with
 sixteen permits lets at most that many probe, and `join_next` collects finished tasks in any order.
 A panicking task gives its permit back like any other.
 */
module FanOut {
  import opened Selection

  const MAX_CONCURRENT_PROBES: nat := 16

  datatype Phase = Unspawned | Waiting | Running | Finished | Joined

  /** `started` and `order` record who began probing and who was joined, in order. */
  datatype Fan = Fan(phases: seq<Phase>, permits: nat, started: seq<nat>, order: seq<nat>)

  datatype Move = Spawn(i: nat) | Acquire(i: nat) | End(i: nat) | Join(i: nat)

  ghost predicate Init(n: nat, f: Fan) {
    && f.permits == MAX_CONCURRENT_PROBES && f.started == [] && f.order == []
    && |f.phases| == n && forall i :: 0 <= i < n ==> f.phases[i] == Unspawned
  }

  ghost predicate Enabled(f: Fan, m: Move) {
    && m.i < |f.phases|
    && match m
       case Spawn(i) => f.phases[i].Unspawned? && forall j :: 0 <= j < i ==> !f.phases[j].Unspawned?
       case Acquire(i) => f.phases[i].Waiting? && f.permits > 0
       case End(i) => f.phases[i].Running?
       case Join(i) => f.phases[i].Finished? && forall j :: 0 <= j < |f.phases| ==> !f.phases[j].Unspawned?
  }

  function Apply(f: Fan, m: Move): Fan
    requires m.i < |f.phases|
  {
    match m
    case Spawn(i) => f.(phases := f.phases[i := Waiting])
    case Acquire(i) =>
      f.(phases := f.phases[i := Running], permits := if f.permits == 0 then 0 else f.permits - 1,
         started := f.started + [i])
    case End(i) => f.(phases := f.phases[i := Finished], permits := f.permits + 1)
    case Join(i) => f.(phases := f.phases[i := Joined], order := f.order + [i])
  }

  function Count(phases: seq<Phase>, p: Phase): nat {
    if phases == [] then 0 else Count(phases[..|phases| - 1], p) + if phases[|phases| - 1] == p then 1 else 0
  }

  lemma {:induction false} CountUpdate(phases: seq<Phase>, i: nat, q: Phase, p: Phase)
    requires i < |phases|
    ensures Count(phases[i := q], p)
            == Count(phases, p) - (if phases[i] == p then 1 else 0) + (if q == p then 1 else 0)
  {
    var last := |phases| - 1;
    if i == last {
      assert phases[i := q][..last] == phases[..last];
    } else {
      assert phases[i := q][..last] == phases[..last][i := q];
      CountUpdate(phases[..last], i, q, p);
    }
  }

  lemma {:induction false} CountsPartition(phases: seq<Phase>)
    ensures Count(phases, Unspawned) + Count(phases, Waiting) + Count(phases, Running)
            + Count(phases, Finished) + Count(phases, Joined) == |phases|
  {
    if phases != [] {
      CountsPartition(phases[..|phases| - 1]);
    }
  }

  lemma {:induction false} CountZero(phases: seq<Phase>, p: Phase)
    ensures Count(phases, p) == 0 <==> forall i :: 0 <= i < |phases| ==> phases[i] != p
  {
    if phases != [] {
      CountZero(phases[..|phases| - 1], p);
      assert phases == phases[..|phases| - 1] + [phases[|phases| - 1]];
    }
  }

  /** A list of tasks without repetition, holding exactly those past the given point. */
  ghost predicate Records(list: seq<nat>, f: Fan, past: Phase -> bool) {
    && (forall i, j :: 0 <= i < j < |list| ==> list[i] != list[j])
    && (forall k: nat :: k in list <==> k < |f.phases| && past(f.phases[k]))
  }

  const HasStarted: Phase -> bool := (p: Phase) => p.Running? || p.Finished? || p.Joined?
  const HasJoined: Phase -> bool := (p: Phase) => p.Joined?

  ghost predicate Inv(f: Fan) {
    && f.permits + Count(f.phases, Running) == MAX_CONCURRENT_PROBES
    && Records(f.started, f, HasStarted)
    && Records(f.order, f, HasJoined)
  }

  lemma StepKeepsInv(f: Fan, m: Move)
    requires Inv(f) && Enabled(f, m)
    ensures Inv(Apply(f, m))
  {
    var g := Apply(f, m);
    CountUpdate(f.phases, m.i, g.phases[m.i], Running);
    if m.Acquire? {
      Extended(f.started, f, g, m.i, HasStarted);
    } else {
      Unchanged(f.started, f, g, m.i, HasStarted);
    }
    if m.Join? {
      Extended(f.order, f, g, m.i, HasJoined);
    } else {
      Unchanged(f.order, f, g, m.i, HasJoined);
    }
  }

  lemma Extended(list: seq<nat>, f: Fan, g: Fan, i: nat, past: Phase -> bool)
    requires Records(list, f, past) && i < |f.phases| == |g.phases|
    requires g.phases == f.phases[i := g.phases[i]] && !past(f.phases[i]) && past(g.phases[i])
    ensures Records(list + [i], g, past)
  {
    assert i !in list;
    forall k: nat ensures k in list + [i] <==> k < |g.phases| && past(g.phases[k]) {
      assert k in list + [i] <==> k in list || k == i;
    }
  }

  lemma Unchanged(list: seq<nat>, f: Fan, g: Fan, i: nat, past: Phase -> bool)
    requires Records(list, f, past) && i < |f.phases| == |g.phases|
    requires g.phases == f.phases[i := g.phases[i]] && past(f.phases[i]) == past(g.phases[i])
    ensures Records(list, g, past)
  {
    forall k: nat ensures k in list <==> k < |g.phases| && past(g.phases[k]) {
      assert k in list <==> k < |f.phases| && past(f.phases[k]);
    }
  }

  // ---------- runs ----------

  ghost predicate IsRun(n: nat, fans: seq<Fan>, moves: seq<Move>) {
    && |fans| == |moves| + 1
    && Init(n, fans[0])
    && forall k :: 0 <= k < |moves| ==> Enabled(fans[k], moves[k]) && fans[k + 1] == Apply(fans[k], moves[k])
  }

  lemma {:induction false} RunInv(n: nat, fans: seq<Fan>, moves: seq<Move>, k: nat)
    requires IsRun(n, fans, moves) && k <= |moves|
    ensures Inv(fans[k]) && |fans[k].phases| == n
  {
    if k == 0 {
      CountZero(fans[0].phases, Running);
    } else {
      RunInv(n, fans, moves, k - 1);
      StepKeepsInv(fans[k - 1], moves[k - 1]);
    }
  }

  /**
   At every moment at most sixteen probes run, a waiting one may start exactly when fewer do, and
   every endpoint is in exactly one phase.
   */
  lemma BoundedFanOut(n: nat, fans: seq<Fan>, moves: seq<Move>, k: nat)
    requires IsRun(n, fans, moves) && k <= |moves|
    ensures |fans[k].phases| == n && Count(fans[k].phases, Running) <= 16
    ensures forall i :: 0 <= i < n && fans[k].phases[i].Waiting? ==>
              (Enabled(fans[k], Acquire(i)) <==> Count(fans[k].phases, Running) < 16)
    ensures Count(fans[k].phases, Unspawned) + Count(fans[k].phases, Waiting) + Count(fans[k].phases, Running)
            + Count(fans[k].phases, Finished) + Count(fans[k].phases, Joined) == n
  {
    RunInv(n, fans, moves, k);
    CountsPartition(fans[k].phases);
  }

  /** As long as some task is not joined, some move is possible: permits always come back. */
  lemma Progress(f: Fan, i: nat) returns (m: Move)
    requires Inv(f) && i < |f.phases| && !f.phases[i].Joined?
    ensures Enabled(f, m)
  {
    if u :| 0 <= u < |f.phases| && f.phases[u].Unspawned? {
      var first := FirstUnspawned(f.phases, u);
      m := Spawn(first);
    } else if f.phases[i].Finished? {
      m := Join(i);
    } else if f.phases[i].Running? {
      m := End(i);
    } else if f.permits > 0 {
      m := Acquire(i);
    } else {
      CountZero(f.phases, Running);
      var r :| 0 <= r < |f.phases| && f.phases[r] == Running;
      m := End(r);
    }
  }

  lemma {:induction false} FirstUnspawned(phases: seq<Phase>, u: nat) returns (i: nat)
    requires u < |phases| && phases[u].Unspawned?
    ensures i <= u && phases[i].Unspawned? && forall j :: 0 <= j < i ==> !phases[j].Unspawned?
  {
    if j :| 0 <= j < u && phases[j].Unspawned? {
      i := FirstUnspawned(phases, j);
    } else {
      i := u;
    }
  }

  function Left(p: Phase): nat {
    match p
    case Unspawned => 4
    case Waiting => 3
    case Running => 2
    case Finished => 1
    case Joined => 0
  }

  function Work(phases: seq<Phase>): nat {
    if phases == [] then 0 else Work(phases[..|phases| - 1]) + Left(phases[|phases| - 1])
  }

  lemma {:induction false} WorkUpdate(phases: seq<Phase>, i: nat, q: Phase)
    requires i < |phases|
    ensures Work(phases[i := q]) == Work(phases) - Left(phases[i]) + Left(q)
  {
    var last := |phases| - 1;
    if i == last {
      assert phases[i := q][..last] == phases[..last];
    } else {
      assert phases[i := q][..last] == phases[..last][i := q];
      WorkUpdate(phases[..last], i, q);
    }
  }

  lemma {:induction false} WorkAlongRun(n: nat, fans: seq<Fan>, moves: seq<Move>, k: nat)
    requires IsRun(n, fans, moves) && k <= |moves|
    ensures k + Work(fans[k].phases) == Work(fans[0].phases)
  {
    if k > 0 {
      WorkAlongRun(n, fans, moves, k - 1);
      assert Enabled(fans[k - 1], moves[k - 1]);
      WorkUpdate(fans[k - 1].phases, moves[k - 1].i, fans[k].phases[moves[k - 1].i]);
    }
  }

  lemma {:induction false} WorkOfUniform(phases: seq<Phase>, p: Phase)
    requires forall i :: 0 <= i < |phases| ==> phases[i] == p
    ensures Work(phases) == Left(p) * |phases|
  {
    if phases != [] {
      WorkOfUniform(phases[..|phases| - 1], p);
    }
  }

  /**
   Every schedule ends, after exactly four moves per endpoint, with each endpoint probed exactly
   once and joined exactly once: the join order is a permutation of the discovery order.
   */
  lemma EveryEndpointProbedOnce(n: nat, fans: seq<Fan>, moves: seq<Move>)
    requires IsRun(n, fans, moves)
    ensures |moves| <= 4 * n
    ensures (forall m :: !Enabled(fans[|moves|], m)) ==>
              && |moves| == 4 * n
              && IsPermutation(fans[|moves|].started, n)
              && IsPermutation(fans[|moves|].order, n)
  {
    var f := fans[|moves|];
    RunInv(n, fans, moves, |moves|);
    WorkAlongRun(n, fans, moves, |moves|);
    WorkOfUniform(fans[0].phases, Unspawned);
    if forall m :: !Enabled(f, m) {
      forall i | 0 <= i < n ensures f.phases[i] == Joined {
        if !f.phases[i].Joined? {
          var m := Progress(f, i);
        }
      }
      WorkOfUniform(f.phases, Joined);
      RecordIsPermutation(f.started, f, HasStarted);
      RecordIsPermutation(f.order, f, HasJoined);
    }
  }

  lemma RecordIsPermutation(list: seq<nat>, f: Fan, past: Phase -> bool)
    requires Records(list, f, past) && forall i :: 0 <= i < |f.phases| ==> past(f.phases[i])
    ensures IsPermutation(list, |f.phases|)
  {
    DistinctBelow(list, |f.phases|);
  }

  /** A repetition-free list of exactly the numbers below n has length n. */
  lemma {:induction false} DistinctBelow(list: seq<nat>, n: nat)
    requires forall i, j :: 0 <= i < j < |list| ==> list[i] != list[j]
    requires forall k: nat :: k in list <==> k < n
    ensures |list| == n
    decreases n
  {
    if n == 0 {
      assert forall i :: 0 <= i < |list| ==> list[i] in list;
    } else {
      assert n - 1 in list;
      var p :| 0 <= p < |list| && list[p] == n - 1;
      var rest := list[..p] + list[p + 1..];
      forall k: nat ensures k in rest <==> k < n - 1 {
        assert k in rest <==> k in list && k != n - 1;
      }
      DistinctBelow(rest, n - 1);
    }
  }
}
