/** `probe_addrs`: probe all addresses of one endpoint at once, fold the results as they come in. */
module AddressProbe {
  import opened Wrappers
  import opened Selection
  import opened Probing

  /** Outcome of one address: a latency, an error, or a panicked task. */
  datatype AddrOutcome = Answered(latency: nat) | Refused(error: string) | Crashed

  datatype ProbeError = NoAddresses | AddressFailed(addr: string, error: string) | TaskFailed

  type Best = Option<(string, nat)>

  /** The running best: replaced only by a strictly lower latency. */
  function BestAlong(addrs: seq<string>, outcomes: seq<AddrOutcome>, order: seq<nat>): Best
    requires |addrs| == |outcomes| && forall k :: 0 <= k < |order| ==> order[k] < |outcomes|
  {
    if order == [] then None
    else
      var i, prior := order[|order| - 1], BestAlong(addrs, outcomes, order[..|order| - 1]);
      if outcomes[i].Answered? && (prior.None? || outcomes[i].latency < prior.value.1)
      then Some((addrs[i], outcomes[i].latency)) else prior
  }

  ghost predicate IsMinimal(outcomes: seq<AddrOutcome>, i: nat) {
    && i < |outcomes| && outcomes[i].Answered?
    && forall j :: 0 <= j < |outcomes| && outcomes[j].Answered? ==> outcomes[i].latency <= outcomes[j].latency
  }

  ghost predicate IsFirstFailure(outcomes: seq<AddrOutcome>, i: nat) {
    && i < |outcomes| && outcomes[i].Refused?
    && forall j :: 0 <= j < i ==> !outcomes[j].Refused?
  }

  // ---------- the fold ----------

  /** `b` is a least answer among the outcomes visited. */
  ghost predicate LeastAlong(addrs: seq<string>, outcomes: seq<AddrOutcome>, order: seq<nat>, b: Best, w: nat)
    requires |addrs| == |outcomes| && InRange(order, |outcomes|)
  {
    if b.None? then forall i :: i in order ==> i < |outcomes| && !outcomes[i].Answered?
    else
      && w in order && w < |outcomes| && outcomes[w].Answered? && b.value == (addrs[w], outcomes[w].latency)
      && forall i :: i in order ==> i < |outcomes| && (outcomes[i].Answered? ==> b.value.1 <= outcomes[i].latency)
  }

  /** `e` is the failure of lowest index among the outcomes visited. */
  ghost predicate FirstErrAlong(
      addrs: seq<string>, outcomes: seq<AddrOutcome>, order: seq<nat>, e: Option<(nat, ProbeError)>)
    requires |addrs| == |outcomes| && InRange(order, |outcomes|)
  {
    if e.None? then forall i :: i in order ==> i < |outcomes| && !outcomes[i].Refused?
    else
      var f := e.value.0;
      && f in order && f < |outcomes| && outcomes[f].Refused?
      && e.value.1 == AddressFailed(addrs[f], outcomes[f].error)
      && forall i :: i in order ==> i < |outcomes| && (outcomes[i].Refused? ==> f <= i)
  }

  lemma OneMore(
      addrs: seq<string>, outcomes: seq<AddrOutcome>, front: seq<nat>, i: nat, best: Best, w: nat,
      firstErr: Option<(nat, ProbeError)>)
    requires |addrs| == |outcomes| && InRange(front, |outcomes|) && i < |outcomes|
    requires LeastAlong(addrs, outcomes, front, best, w) && FirstErrAlong(addrs, outcomes, front, firstErr)
    requires best == BestAlong(addrs, outcomes, front)
    ensures InRange(front + [i], |outcomes|)
    ensures var takes := outcomes[i].Answered? && (best.None? || outcomes[i].latency < best.value.1);
            var now := if takes then Some((addrs[i], outcomes[i].latency)) else best;
            && LeastAlong(addrs, outcomes, front + [i], now, if takes then i else w)
            && now == BestAlong(addrs, outcomes, front + [i])
    ensures var takes := outcomes[i].Refused? && (firstErr.None? || i < firstErr.value.0);
            FirstErrAlong(addrs, outcomes, front + [i],
              if takes then Some((i, AddressFailed(addrs[i], outcomes[i].error))) else firstErr)
  {
    assert (front + [i])[..|front|] == front;
  }

  /** What the fold has found once every address has been visited. */
  lemma VisitedAll(
      addrs: seq<string>, outcomes: seq<AddrOutcome>, order: seq<nat>, best: Best, w: nat,
      firstErr: Option<(nat, ProbeError)>)
    requires |addrs| == |outcomes| && IsPermutation(order, |outcomes|) && InRange(order, |outcomes|)
    requires LeastAlong(addrs, outcomes, order, best, w) && FirstErrAlong(addrs, outcomes, order, firstErr)
    ensures if best.Some? then IsMinimal(outcomes, w) && best.value == (addrs[w], outcomes[w].latency)
            else forall i :: 0 <= i < |outcomes| ==> !outcomes[i].Answered?
    ensures if firstErr.Some? then
              && IsFirstFailure(outcomes, firstErr.value.0)
              && firstErr.value.1 == AddressFailed(addrs[firstErr.value.0], outcomes[firstErr.value.0].error)
            else forall i :: 0 <= i < |outcomes| ==> !outcomes[i].Refused?
  {
    forall i: nat | i < |outcomes| ensures i in order {}
  }

  /** The lowest-indexed failure among the first `n` outcomes. */
  function FirstFailure(outcomes: seq<AddrOutcome>, n: nat): (r: Option<nat>)
    requires n <= |outcomes|
    ensures r.Some? ==> r.value < n && IsFirstFailure(outcomes, r.value)
    ensures r.None? ==> forall i :: 0 <= i < n ==> !outcomes[i].Refused?
  {
    if n == 0 then None
    else if FirstFailure(outcomes, n - 1).Some? then FirstFailure(outcomes, n - 1)
    else if outcomes[n - 1].Refused? then Some(n - 1)
    else None
  }

  lemma FirstFailureIsUnique(outcomes: seq<AddrOutcome>, i: nat)
    requires IsFirstFailure(outcomes, i)
    ensures FirstFailure(outcomes, |outcomes|) == Some(i)
  {
  }

  /** What the fold must return: the best answer, else the lowest-indexed error, whatever came in first. */
  function AddrsVerdict(addrs: seq<string>, outcomes: seq<AddrOutcome>, order: seq<nat>)
    : Result<(string, nat), ProbeError>
    requires |addrs| == |outcomes| && forall k :: 0 <= k < |order| ==> order[k] < |outcomes|
  {
    if addrs == [] then Err(NoAddresses)
    else
      match BestAlong(addrs, outcomes, order)
      case Some(best) => Ok(best)
      case None =>
        match FirstFailure(outcomes, |outcomes|)
        case Some(i) => Err(AddressFailed(addrs[i], outcomes[i].error))
        case None => Err(TaskFailed)
  }

  /** The fold in the order the tasks are joined, against what it must return for any order. */
  method ProbeAddrs(addrs: seq<string>, outcomes: seq<AddrOutcome>, order: seq<nat>)
    returns (r: Result<(string, nat), ProbeError>)
    requires |addrs| == |outcomes| && IsPermutation(order, |addrs|)
    ensures InRange(order, |outcomes|)
    ensures r == AddrsVerdict(addrs, outcomes, order)
    ensures r == Err(NoAddresses) <==> addrs == []
    ensures r.Ok? ==> exists i: nat :: IsMinimal(outcomes, i) && r.value == (addrs[i], outcomes[i].latency)
    ensures r.Err? ==> forall i :: 0 <= i < |outcomes| ==> !outcomes[i].Answered?
    ensures r.Err? && r.error.AddressFailed? ==>
              exists i: nat :: IsFirstFailure(outcomes, i) && r.error == AddressFailed(addrs[i], outcomes[i].error)
    ensures r == Err(TaskFailed) <==> addrs != [] && forall i :: 0 <= i < |outcomes| ==> outcomes[i].Crashed?
  {
    hide LeastAlong, FirstErrAlong, BestAlong, IsPermutation;
    PermutationInRange(order, |outcomes|);
    if addrs == [] {
      return Err(NoAddresses);
    }
    var best: Best := None;
    var firstErr: Option<(nat, ProbeError)> := None;
    ghost var winner: nat := 0;
    var k := 0;
    NothingVisited(addrs, outcomes);
    assert order[..0] == [];
    while k < |order|
      invariant k <= |order| && best == BestAlong(addrs, outcomes, order[..k])
      invariant LeastAlong(addrs, outcomes, order[..k], best, winner)
      invariant FirstErrAlong(addrs, outcomes, order[..k], firstErr)
    {
      var i := order[k];
      OneMore(addrs, outcomes, order[..k], i, best, winner, firstErr);
      assert order[..k + 1] == order[..k] + [i];
      match outcomes[i] {
        case Crashed =>
        case Answered(latency) =>
          if best.None? || latency < best.value.1 {
            best, winner := Some((addrs[i], latency)), i;
          }
        case Refused(e) =>
          if firstErr.None? || i < firstErr.value.0 {
            firstErr := Some((i, AddressFailed(addrs[i], e)));
          }
      }
      k := k + 1;
    }
    assert order[..k] == order;
    VisitedAll(addrs, outcomes, order, best, winner, firstErr);
    if firstErr.Some? {
      FirstFailureIsUnique(outcomes, firstErr.value.0);
    }
    if best.Some? {
      return Ok(best.value);
    }
    if firstErr.Some? {
      return Err(firstErr.value.1);
    }
    return Err(TaskFailed);
  }

  /**
   On total failure the error is the first address's own exactly when that address's task failed
   with one; if the task panicked, a later address's error or a generic one stands in.
   */
  lemma FirstAddressErrorIff(addrs: seq<string>, outcomes: seq<AddrOutcome>, order: seq<nat>)
    requires |addrs| == |outcomes| && IsPermutation(order, |outcomes|) && addrs != []
    ensures InRange(order, |outcomes|)
    ensures AddrsVerdict(addrs, outcomes, order).Err? && addrs[0] !in addrs[1..] ==>
              ((exists e :: AddrsVerdict(addrs, outcomes, order) == Err(AddressFailed(addrs[0], e)))
               <==> outcomes[0].Refused?)
    ensures AddrsVerdict(addrs, outcomes, order).Err? && outcomes[0].Refused? ==>
              AddrsVerdict(addrs, outcomes, order) == Err(AddressFailed(addrs[0], outcomes[0].error))
  {
    hide BestAlong;
    PermutationInRange(order, |outcomes|);
    var f := FirstFailure(outcomes, |outcomes|);
    if f.Some? && f.value > 0 {
      assert addrs[f.value] == addrs[1..][f.value - 1];
    }
  }

  /** The first of two addresses panics: the error reported is the second's. */
  lemma SecondAddressSpeaks()
    ensures AddrsVerdict(["a", "b"], [Crashed, Refused("refused")], [0, 1]) == Err(AddressFailed("b", "refused"))
  {
    var addrs, outcomes := ["a", "b"], [Crashed, Refused("refused")];
    assert BestAlong(addrs, outcomes, [0, 1][..1]) == None;
    assert FirstFailure(outcomes, 1).None?;
  }

  lemma NothingVisited(addrs: seq<string>, outcomes: seq<AddrOutcome>)
    requires |addrs| == |outcomes|
    ensures LeastAlong(addrs, outcomes, [], None, 0) && FirstErrAlong(addrs, outcomes, [], None)
    ensures BestAlong(addrs, outcomes, []) == None
  {
  }

  // ---------- order (in)dependence ----------

  lemma {:induction false} BestIsLeastAlong(addrs: seq<string>, outcomes: seq<AddrOutcome>, order: seq<nat>)
    returns (w: nat)
    requires |addrs| == |outcomes| && InRange(order, |outcomes|)
    ensures LeastAlong(addrs, outcomes, order, BestAlong(addrs, outcomes, order), w)
  {
    w := 0;
    if order != [] {
      var front, i := order[..|order| - 1], order[|order| - 1];
      assert order == front + [i];
      w := BestIsLeastAlong(addrs, outcomes, front);
      var prior := BestAlong(addrs, outcomes, front);
      if outcomes[i].Answered? && (prior.None? || outcomes[i].latency < prior.value.1) {
        w := i;
      }
    }
  }

  lemma BestIsMinimal(addrs: seq<string>, outcomes: seq<AddrOutcome>, order: seq<nat>) returns (w: nat)
    requires |addrs| == |outcomes| && IsPermutation(order, |outcomes|)
    ensures InRange(order, |outcomes|)
    ensures var b := BestAlong(addrs, outcomes, order);
            && (b.None? <==> forall i :: 0 <= i < |outcomes| ==> !outcomes[i].Answered?)
            && (b.Some? ==> IsMinimal(outcomes, w) && b.value == (addrs[w], outcomes[w].latency))
  {
    hide BestAlong;
    PermutationInRange(order, |outcomes|);
    w := BestIsLeastAlong(addrs, outcomes, order);
    forall i | 0 <= i < |outcomes| ensures i in order {}
  }

  /** All addresses of minimal latency are one and the same. */
  ghost predicate UniqueWinner(addrs: seq<string>, outcomes: seq<AddrOutcome>)
    requires |addrs| == |outcomes|
  {
    forall i: nat, j: nat :: IsMinimal(outcomes, i) && IsMinimal(outcomes, j) ==> addrs[i] == addrs[j]
  }

  lemma {:induction false} LeaderKeepsLead(addrs: seq<string>, outcomes: seq<AddrOutcome>, order: seq<nat>)
    requires |addrs| == |outcomes| && InRange(order, |outcomes|) && order != [] && IsMinimal(outcomes, order[0])
    ensures BestAlong(addrs, outcomes, order) == Some((addrs[order[0]], outcomes[order[0]].latency))
  {
    if |order| == 1 {
      assert order[..0] == [];
    } else {
      LeaderKeepsLead(addrs, outcomes, order[..|order| - 1]);
    }
  }

  /** The latency never depends on the join order. */
  lemma LatencyIsOrderFree(addrs: seq<string>, outcomes: seq<AddrOutcome>, p: seq<nat>, q: seq<nat>)
    requires |addrs| == |outcomes| && IsPermutation(p, |outcomes|) && IsPermutation(q, |outcomes|)
    ensures InRange(p, |outcomes|) && InRange(q, |outcomes|)
    ensures var a, b := BestAlong(addrs, outcomes, p), BestAlong(addrs, outcomes, q);
            && (a.Some? <==> b.Some?)
            && (a.Some? ==> a.value.1 == b.value.1)
            && (UniqueWinner(addrs, outcomes) ==> a == b)
  {
    hide BestAlong;
    var v := BestIsMinimal(addrs, outcomes, p);
    var w := BestIsMinimal(addrs, outcomes, q);
    assert IsMinimal(outcomes, v) && IsMinimal(outcomes, w) ==> outcomes[v].latency == outcomes[w].latency;
  }

  /** The chosen address is independent of the join order exactly when the minimum is unambiguous. */
  lemma AddressOrderFreeIff(addrs: seq<string>, outcomes: seq<AddrOutcome>)
    requires |addrs| == |outcomes|
    ensures UniqueWinner(addrs, outcomes) <==>
            forall p, q :: IsPermutation(p, |outcomes|) && IsPermutation(q, |outcomes|) ==>
              && InRange(p, |outcomes|) && InRange(q, |outcomes|)
              && BestAlong(addrs, outcomes, p) == BestAlong(addrs, outcomes, q)
  {
    hide BestAlong, Leading;
    var n := |outcomes|;
    if UniqueWinner(addrs, outcomes) {
      forall p, q | IsPermutation(p, n) && IsPermutation(q, n)
        ensures InRange(p, n) && InRange(q, n) && BestAlong(addrs, outcomes, p) == BestAlong(addrs, outcomes, q)
      {
        LatencyIsOrderFree(addrs, outcomes, p, q);
      }
    } else {
      var i: nat, j: nat :| IsMinimal(outcomes, i) && IsMinimal(outcomes, j) && addrs[i] != addrs[j];
      LeadingIsPermutation(n, i);
      LeadingIsPermutation(n, j);
      PermutationInRange(Leading(n, i), n);
      PermutationInRange(Leading(n, j), n);
      LeaderKeepsLead(addrs, outcomes, Leading(n, i));
      LeaderKeepsLead(addrs, outcomes, Leading(n, j));
      assert BestAlong(addrs, outcomes, Leading(n, i)) != BestAlong(addrs, outcomes, Leading(n, j));
    }
  }
}
