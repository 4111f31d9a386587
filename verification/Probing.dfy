/** `probe_all`: collect the joined probe tasks, in whatever order they finish, and pick one. */
module Probing {
  import opened Wrappers
  import opened Errors
  import opened Selection
  import FanOut

  datatype Kind = Up | Down | Crash

  function KindOf(o: ProbeOutcome): Kind {
    if o.Reached? then Up else if o.Unreachable? then Down else Crash
  }

  ghost predicate InRange(order: seq<nat>, n: nat) {
    forall k :: 0 <= k < |order| ==> order[k] < n
  }

  /** What task `i` is pushed as: under its discovery index, or last of all if it panicked. */
  function EntryOf(endpoints: seq<string>, outcomes: seq<ProbeOutcome>, i: nat): Entry
    requires i < |endpoints| == |outcomes|
  {
    if outcomes[i].Panicked? then Entry(USIZE_MAX, "<probe task>", outcomes[i])
    else Entry(i, endpoints[i], outcomes[i])
  }

  /** The entries of one kind, in the given order. */
  ghost function Along(
    endpoints: seq<string>, outcomes: seq<ProbeOutcome>, order: seq<nat>, kind: Kind): (es: seq<Entry>)
    requires |endpoints| == |outcomes| && InRange(order, |outcomes|)
    ensures forall e :: e in es ==> KindOf(e.outcome) == kind
  {
    if order == [] then []
    else
      var i := order[|order| - 1];
      Along(endpoints, outcomes, order[..|order| - 1], kind)
      + if KindOf(outcomes[i]) == kind then [EntryOf(endpoints, outcomes, i)] else []
  }

  ghost function Identity(n: nat): seq<nat> {
    seq(n, i => i)
  }

  function Text(e: Entry): (string, string) {
    match e.outcome
    case Reached(_, _) => (e.endpoint, "")
    case Unreachable(error) => (e.endpoint, error)
    case Panicked(message) => (e.endpoint, message)
  }

  function Texts(es: seq<Entry>): seq<(string, string)> {
    seq(|es|, i requires 0 <= i < |es| => Text(es[i]))
  }

  // ---------- the verdict, in discovery order ----------

  /** The first index of least latency among the first `n` outcomes. */
  function Fastest(outcomes: seq<ProbeOutcome>, n: nat): (r: Option<nat>)
    requires n <= |outcomes|
    ensures r.Some? ==> r.value < n && outcomes[r.value].Reached?
  {
    if n == 0 then None
    else
      match Fastest(outcomes, n - 1)
      case None => if outcomes[n - 1].Reached? then Some(n - 1) else None
      case Some(b) =>
        if outcomes[n - 1].Reached? && outcomes[n - 1].latency < outcomes[b].latency then Some(n - 1) else Some(b)
  }

  /** Lowest latency, earliest discovered among equals: what the selection promises. */
  ghost predicate IsBest(outcomes: seq<ProbeOutcome>, n: nat, b: nat)
    requires n <= |outcomes|
  {
    && b < n && outcomes[b].Reached?
    && forall j :: 0 <= j < n && outcomes[j].Reached? ==>
         outcomes[b].latency < outcomes[j].latency || (outcomes[b].latency == outcomes[j].latency && b <= j)
  }

  lemma {:induction false} FastestIsBest(outcomes: seq<ProbeOutcome>, n: nat)
    requires n <= |outcomes|
    ensures Fastest(outcomes, n).None? <==> forall j :: 0 <= j < n ==> !outcomes[j].Reached?
    ensures forall b: nat :: Fastest(outcomes, n) == Some(b) <==> IsBest(outcomes, n, b)
  {
    if n > 0 {
      FastestIsBest(outcomes, n - 1);
      if Fastest(outcomes, n).Some? {
        var w := Fastest(outcomes, n).value;
        var prior := Fastest(outcomes, n - 1);
        assert prior.Some? ==> IsBest(outcomes, n - 1, prior.value);
        assert IsBest(outcomes, n, w);
        forall b: nat | IsBest(outcomes, n, b) ensures b == w {}
      }
    }
  }

  /**
   The result of a probe run, from the outcomes in discovery order; the join order matters only
   through the texts of panicked tasks.
   */
  ghost function ProbeVerdict(endpoints: seq<string>, outcomes: seq<ProbeOutcome>, panics: seq<(string, string)>)
    : Result<ProbeOk, FallbackReason>
    requires |endpoints| == |outcomes|
  {
    var n := |outcomes|;
    match Fastest(outcomes, n)
    case Some(b) => Ok(ProbeOk(endpoints[b], outcomes[b].addr, outcomes[b].latency))
    case None => Err(AllProbesFailed(Texts(Along(endpoints, outcomes, Identity(n), Down)) + panics))
  }

  // ---------- sorting undoes the join order ----------

  lemma {:induction false} AlongMembers(
      endpoints: seq<string>, outcomes: seq<ProbeOutcome>, order: seq<nat>, kind: Kind, e: Entry)
    requires |endpoints| == |outcomes| && InRange(order, |outcomes|) && kind != Crash
    ensures e in Along(endpoints, outcomes, order, kind) <==>
            e.key in order && e.key < |outcomes| && KindOf(outcomes[e.key]) == kind
            && e == EntryOf(endpoints, outcomes, e.key)
  {
    if order != [] {
      AlongMembers(endpoints, outcomes, order[..|order| - 1], kind, e);
      assert order == order[..|order| - 1] + [order[|order| - 1]];
    }
  }

  lemma {:induction false} AlongDistinct(
      endpoints: seq<string>, outcomes: seq<ProbeOutcome>, order: seq<nat>, kind: Kind)
    requires |endpoints| == |outcomes| && InRange(order, |outcomes|) && kind != Crash
    requires forall i, j :: 0 <= i < j < |order| ==> order[i] != order[j]
    ensures DistinctKeys(Along(endpoints, outcomes, order, kind))
  {
    if order != [] {
      var front, i := order[..|order| - 1], order[|order| - 1];
      AlongDistinct(endpoints, outcomes, front, kind);
      var es := Along(endpoints, outcomes, front, kind);
      forall j | 0 <= j < |es| ensures es[j].key != i {
        assert es[j] in es;
        AlongMembers(endpoints, outcomes, front, kind, es[j]);
      }
    }
  }

  lemma {:induction false} AlongIdentitySorted(
      endpoints: seq<string>, outcomes: seq<ProbeOutcome>, n: nat, kind: Kind)
    requires n <= |endpoints| == |outcomes| && kind != Crash
    ensures StrictlySorted(Along(endpoints, outcomes, Identity(n), kind))
  {
    if n > 0 {
      AlongIdentitySorted(endpoints, outcomes, n - 1, kind);
      assert Identity(n)[..n - 1] == Identity(n - 1);
      var es := Along(endpoints, outcomes, Identity(n - 1), kind);
      forall j | 0 <= j < |es| ensures es[j].key < n - 1 {
        assert es[j] in es;
        AlongMembers(endpoints, outcomes, Identity(n - 1), kind, es[j]);
      }
    }
  }

  /** Sorting the pushed entries gives discovery order, whatever the join order was. */
  lemma SortRestoresDiscoveryOrder(
      endpoints: seq<string>, outcomes: seq<ProbeOutcome>, order: seq<nat>, kind: Kind)
    requires |endpoints| == |outcomes| && IsPermutation(order, |outcomes|) && kind != Crash
    ensures InRange(order, |outcomes|)
    ensures StableSort(Along(endpoints, outcomes, order, kind))
            == Along(endpoints, outcomes, Identity(|outcomes|), kind)
  {
    hide Along, StableSort;
    PermutationInRange(order, |outcomes|);
    var n := |outcomes|;
    var xs, ys := Along(endpoints, outcomes, order, kind), Along(endpoints, outcomes, Identity(n), kind);
    AlongDistinct(endpoints, outcomes, order, kind);
    SortKeeps(xs);
    AlongIdentitySorted(endpoints, outcomes, n, kind);
    forall e ensures e in StableSort(xs) <==> e in ys {
      AlongMembers(endpoints, outcomes, order, kind, e);
      AlongMembers(endpoints, outcomes, Identity(n), kind, e);
      IdentityMembers(n, e.key);
    }
    SortedUnique(StableSort(xs), ys);
  }

  lemma PermutationInRange(order: seq<nat>, n: nat)
    requires IsPermutation(order, n)
    ensures InRange(order, n)
  {
    forall k | 0 <= k < |order| ensures order[k] < n {
      assert order[k] in order;
    }
  }

  lemma IdentityMembers(n: nat, k: nat)
    ensures k in Identity(n) <==> k < n
  {
    if k < n {
      assert Identity(n)[k] == k;
    }
  }

  /** The fastest entry of the sorted results is the best outcome in discovery order. */
  lemma SelectedIsFastest(endpoints: seq<string>, outcomes: seq<ProbeOutcome>)
    requires |endpoints| == |outcomes|
    ensures var results := Along(endpoints, outcomes, Identity(|outcomes|), Up);
            && AllReached(results)
            && (SelectBest(results).None? <==> Fastest(outcomes, |outcomes|).None?)
            && (SelectBest(results).Some? ==>
                  var b := results[SelectBest(results).value].key;
                  Fastest(outcomes, |outcomes|) == Some(b)
                  && results[SelectBest(results).value] == EntryOf(endpoints, outcomes, b))
  {
    hide Along;
    var n := |outcomes|;
    var results := Along(endpoints, outcomes, Identity(n), Up);
    AllUp(results);
    FastestIsBest(outcomes, n);
    forall j | 0 <= j < n && outcomes[j].Reached? ensures EntryOf(endpoints, outcomes, j) in results {
      IdentityMembers(n, j);
      AlongMembers(endpoints, outcomes, Identity(n), Up, EntryOf(endpoints, outcomes, j));
    }
    if SelectBest(results).Some? {
      var e := results[SelectBest(results).value];
      assert e in results;
      AlongMembers(endpoints, outcomes, Identity(n), Up, e);
      forall j | 0 <= j < n && outcomes[j].Reached?
        ensures !KeyBelow(EntryOf(endpoints, outcomes, j), e)
      {
        var m :| 0 <= m < |results| && results[m] == EntryOf(endpoints, outcomes, j);
      }
      assert IsBest(outcomes, n, e.key);
    }
  }

  lemma AllUp(es: seq<Entry>)
    requires forall e :: e in es ==> KindOf(e.outcome) == Up
    ensures AllReached(es)
  {
    forall i | 0 <= i < |es| ensures es[i].outcome.Reached? {
      assert es[i] in es;
    }
  }

  lemma TextsOfConcat(a: seq<Entry>, b: seq<Entry>)
    ensures Texts(a + b) == Texts(a) + Texts(b)
  {
  }

  /** Appending one joined entry, split by its key. */
  lemma PushParts(es: seq<Entry>, e: Entry, max: nat)
    ensures WithKey(es + [e], max) == WithKey(es, max) + (if e.key == max then [e] else [])
    ensures WithoutKey(es + [e], max) == WithoutKey(es, max) + (if e.key == max then [] else [e])
  {
    assert (es + [e])[..|es|] == es;
  }

  // ---------- the verdict, spelled out ----------

  /** Each endpoint whose probe failed, with its error, in discovery order. */
  ghost function FailureList(endpoints: seq<string>, outcomes: seq<ProbeOutcome>, n: nat): seq<(string, string)>
    requires n <= |endpoints| == |outcomes|
  {
    if n == 0 then []
    else
      FailureList(endpoints, outcomes, n - 1)
      + if outcomes[n - 1].Unreachable? then [(endpoints[n - 1], outcomes[n - 1].error)] else []
  }

  /** The panicked tasks' messages, in the order the tasks were joined. */
  ghost function PanicList(outcomes: seq<ProbeOutcome>, order: seq<nat>): seq<(string, string)>
    requires InRange(order, |outcomes|)
  {
    if order == [] then []
    else
      var i := order[|order| - 1];
      PanicList(outcomes, order[..|order| - 1])
      + if outcomes[i].Panicked? then [("<probe task>", outcomes[i].message)] else []
  }

  lemma {:induction false} DownTexts(endpoints: seq<string>, outcomes: seq<ProbeOutcome>, n: nat)
    requires n <= |endpoints| == |outcomes|
    ensures Texts(Along(endpoints, outcomes, Identity(n), Down)) == FailureList(endpoints, outcomes, n)
  {
    if n > 0 {
      DownTexts(endpoints, outcomes, n - 1);
      assert Identity(n)[..n - 1] == Identity(n - 1);
    }
  }

  lemma {:induction false} CrashTexts(endpoints: seq<string>, outcomes: seq<ProbeOutcome>, order: seq<nat>)
    requires |endpoints| == |outcomes| && InRange(order, |outcomes|)
    ensures Texts(Along(endpoints, outcomes, order, Crash)) == PanicList(outcomes, order)
  {
    if order != [] {
      CrashTexts(endpoints, outcomes, order[..|order| - 1]);
    }
  }

  lemma {:induction false} FailureListMembers(
      endpoints: seq<string>, outcomes: seq<ProbeOutcome>, n: nat, x: (string, string))
    requires n <= |endpoints| == |outcomes|
    ensures x in FailureList(endpoints, outcomes, n) <==>
            exists i :: 0 <= i < n && outcomes[i].Unreachable? && x == (endpoints[i], outcomes[i].error)
  {
    if n > 0 {
      FailureListMembers(endpoints, outcomes, n - 1, x);
    }
  }

  lemma {:induction false} PanicListMembers(outcomes: seq<ProbeOutcome>, order: seq<nat>, x: (string, string))
    requires InRange(order, |outcomes|)
    ensures x in PanicList(outcomes, order) <==>
            exists i :: i in order && i < |outcomes| && outcomes[i].Panicked?
                        && x == ("<probe task>", outcomes[i].message)
  {
    if order != [] {
      PanicListMembers(outcomes, order[..|order| - 1], x);
      assert order == order[..|order| - 1] + [order[|order| - 1]];
    }
  }

  lemma VerdictMeans(endpoints: seq<string>, outcomes: seq<ProbeOutcome>, order: seq<nat>)
    requires |endpoints| == |outcomes| && InRange(order, |outcomes|)
    ensures var r := ProbeVerdict(endpoints, outcomes, Texts(Along(endpoints, outcomes, order, Crash)));
            && (r.Ok? <==> exists i :: 0 <= i < |outcomes| && outcomes[i].Reached?)
            && (forall b: nat :: IsBest(outcomes, |outcomes|, b) ==>
                  r == Ok(ProbeOk(endpoints[b], outcomes[b].addr, outcomes[b].latency)))
            && (r.Err? ==>
                  r.error
                  == AllProbesFailed(FailureList(endpoints, outcomes, |outcomes|) + PanicList(outcomes, order)))
  {
    hide Along, Texts, Fastest;
    FastestIsBest(outcomes, |outcomes|);
    DownTexts(endpoints, outcomes, |outcomes|);
    CrashTexts(endpoints, outcomes, order);
  }

  /** `probe_all` from the first join on. */
  method ProbeAll(endpoints: seq<string>, outcomes: seq<ProbeOutcome>, order: seq<nat>)
    returns (r: Result<ProbeOk, FallbackReason>)
    requires |endpoints| == |outcomes| <= ISIZE_MAX && IsPermutation(order, |outcomes|)
    ensures InRange(order, |outcomes|)
    ensures r == ProbeVerdict(endpoints, outcomes, Texts(Along(endpoints, outcomes, order, Crash)))
    ensures r.Ok? <==> exists i :: 0 <= i < |outcomes| && outcomes[i].Reached?
    ensures forall b: nat :: IsBest(outcomes, |outcomes|, b) ==>
              r == Ok(ProbeOk(endpoints[b], outcomes[b].addr, outcomes[b].latency))
    ensures r.Err? ==>
              r.error == AllProbesFailed(FailureList(endpoints, outcomes, |outcomes|) + PanicList(outcomes, order))
  {
    hide Along, StableSort, WithKey, WithoutKey, SelectBest, Fastest, Texts, Text, IsBest, FailureList, PanicList,
      IsPermutation;
    PermutationInRange(order, |outcomes|);
    VerdictMeans(endpoints, outcomes, order);
    var results: seq<Entry> := [];
    var failures: seq<Entry> := [];
    var k := 0;
    NothingCollected(endpoints, outcomes);
    assert order[..0] == [];
    while k < |order|
      invariant k <= |order|
      invariant results == Along(endpoints, outcomes, order[..k], Up)
      invariant Collected(endpoints, outcomes, order[..k], failures)
    {
      var e := EntryOf(endpoints, outcomes, order[k]);
      OneMoreCollected(endpoints, outcomes, order[..k], order[k], failures);
      assert order[..k + 1] == order[..k] + [order[k]];
      if outcomes[order[k]].Reached? {
        results := results + [e];
      } else {
        failures := failures + [e];
      }
      k := k + 1;
    }
    assert order[..k] == order;
    SortRestoresDiscoveryOrder(endpoints, outcomes, order, Up);
    SelectedIsFastest(endpoints, outcomes);
    results := StableSort(results);
    var best := SelectBest(results);
    if best.None? {
      FailuresSorted(endpoints, outcomes, order, failures);
      return Err(AllProbesFailed(Texts(StableSort(failures))));
    }
    var b := results[best.value];
    return Ok(ProbeOk(b.endpoint, b.outcome.addr, b.outcome.latency));
  }

  /** The failures pushed so far: those with an index as they were joined, and so the panics. */
  ghost predicate Collected(endpoints: seq<string>, outcomes: seq<ProbeOutcome>, order: seq<nat>, failures: seq<Entry>)
    requires |endpoints| == |outcomes| <= ISIZE_MAX && InRange(order, |outcomes|)
  {
    && WithoutKey(failures, USIZE_MAX) == Along(endpoints, outcomes, order, Down)
    && WithKey(failures, USIZE_MAX) == Along(endpoints, outcomes, order, Crash)
    && forall e :: e in failures ==> e.key <= USIZE_MAX
  }

  lemma NothingCollected(endpoints: seq<string>, outcomes: seq<ProbeOutcome>)
    requires |endpoints| == |outcomes| <= ISIZE_MAX
    ensures Along(endpoints, outcomes, [], Up) == [] && Collected(endpoints, outcomes, [], [])
  {
    NoKeys();
  }

  lemma OneMoreCollected(
      endpoints: seq<string>, outcomes: seq<ProbeOutcome>, front: seq<nat>, i: nat, failures: seq<Entry>)
    requires |endpoints| == |outcomes| <= ISIZE_MAX && InRange(front, |outcomes|) && i < |outcomes|
    requires Collected(endpoints, outcomes, front, failures)
    ensures InRange(front + [i], |outcomes|)
    ensures Along(endpoints, outcomes, front + [i], Up)
            == Along(endpoints, outcomes, front, Up)
               + (if outcomes[i].Reached? then [EntryOf(endpoints, outcomes, i)] else [])
    ensures Collected(endpoints, outcomes, front + [i],
                      if outcomes[i].Reached? then failures else failures + [EntryOf(endpoints, outcomes, i)])
  {
    hide WithKey, WithoutKey;
    assert (front + [i])[..|front|] == front;
    PushParts(failures, EntryOf(endpoints, outcomes, i), USIZE_MAX);
  }

  lemma FailuresSorted(endpoints: seq<string>, outcomes: seq<ProbeOutcome>, order: seq<nat>, failures: seq<Entry>)
    requires |endpoints| == |outcomes| <= ISIZE_MAX && IsPermutation(order, |outcomes|) && InRange(order, |outcomes|)
    requires Collected(endpoints, outcomes, order, failures)
    ensures Texts(StableSort(failures))
            == Texts(Along(endpoints, outcomes, Identity(|outcomes|), Down))
               + Texts(Along(endpoints, outcomes, order, Crash))
  {
    hide Along, StableSort, WithKey, WithoutKey, Texts, IsPermutation;
    SortRestoresDiscoveryOrder(endpoints, outcomes, order, Down);
    SortPutsMaxLast(failures, USIZE_MAX);
    TextsOfConcat(StableSort(WithoutKey(failures, USIZE_MAX)), WithKey(failures, USIZE_MAX));
  }

  lemma NoKeys()
    ensures WithKey([], USIZE_MAX) == [] && WithoutKey([], USIZE_MAX) == []
  {
  }

  // ---------- schedule independence ----------

  ghost function VerdictFor(endpoints: seq<string>, outcomes: seq<ProbeOutcome>, order: seq<nat>)
    : Result<ProbeOk, FallbackReason>
    requires |endpoints| == |outcomes| && InRange(order, |outcomes|)
  {
    ProbeVerdict(endpoints, outcomes, Texts(Along(endpoints, outcomes, order, Crash)))
  }

  /** No two panicked tasks left different messages. */
  ghost predicate PanicsAlike(outcomes: seq<ProbeOutcome>) {
    forall i, j :: 0 <= i < |outcomes| && 0 <= j < |outcomes| && outcomes[i].Panicked? && outcomes[j].Panicked? ==>
      outcomes[i].message == outcomes[j].message
  }

  lemma {:induction false} InsertLength(sorted: seq<Entry>, x: Entry)
    ensures |Insert(sorted, x)| == |sorted| + 1
  {
    if sorted != [] && sorted[|sorted| - 1].key > x.key {
      InsertLength(sorted[..|sorted| - 1], x);
    }
  }

  lemma {:induction false} SortLength(xs: seq<Entry>)
    ensures |StableSort(xs)| == |xs|
  {
    if xs != [] {
      SortLength(xs[..|xs| - 1]);
      InsertLength(StableSort(xs[..|xs| - 1]), xs[|xs| - 1]);
    }
  }

  lemma {:induction false} KindsPartition(endpoints: seq<string>, outcomes: seq<ProbeOutcome>, order: seq<nat>)
    requires |endpoints| == |outcomes| && InRange(order, |outcomes|)
    ensures |Along(endpoints, outcomes, order, Up)| + |Along(endpoints, outcomes, order, Down)|
            + |Along(endpoints, outcomes, order, Crash)| == |order|
  {
    if order != [] {
      KindsPartition(endpoints, outcomes, order[..|order| - 1]);
    }
  }

  /** Every task is accounted for, so the number of panics does not depend on the join order. */
  lemma PanicCount(endpoints: seq<string>, outcomes: seq<ProbeOutcome>, p: seq<nat>, q: seq<nat>)
    requires |endpoints| == |outcomes| && IsPermutation(p, |outcomes|) && IsPermutation(q, |outcomes|)
    ensures InRange(p, |outcomes|) && InRange(q, |outcomes|)
    ensures |Along(endpoints, outcomes, p, Crash)| == |Along(endpoints, outcomes, q, Crash)|
  {
    hide Along, StableSort;
    SortRestoresDiscoveryOrder(endpoints, outcomes, p, Up);
    SortRestoresDiscoveryOrder(endpoints, outcomes, p, Down);
    SortRestoresDiscoveryOrder(endpoints, outcomes, q, Up);
    SortRestoresDiscoveryOrder(endpoints, outcomes, q, Down);
    SortLength(Along(endpoints, outcomes, p, Up));
    SortLength(Along(endpoints, outcomes, p, Down));
    SortLength(Along(endpoints, outcomes, q, Up));
    SortLength(Along(endpoints, outcomes, q, Down));
    KindsPartition(endpoints, outcomes, p);
    KindsPartition(endpoints, outcomes, q);
  }

  lemma {:induction false} CrashMembers(endpoints: seq<string>, outcomes: seq<ProbeOutcome>, order: seq<nat>, e: Entry)
    requires |endpoints| == |outcomes| && InRange(order, |outcomes|)
    ensures e in Along(endpoints, outcomes, order, Crash) ==>
            exists i :: 0 <= i < |outcomes| && outcomes[i].Panicked? && e == EntryOf(endpoints, outcomes, i)
  {
    if order != [] {
      CrashMembers(endpoints, outcomes, order[..|order| - 1], e);
    }
  }

  /** A success, or panics that cannot be told apart, make the result the same for every join order. */
  lemma ScheduleIrrelevant(endpoints: seq<string>, outcomes: seq<ProbeOutcome>, p: seq<nat>, q: seq<nat>)
    requires |endpoints| == |outcomes| && IsPermutation(p, |outcomes|) && IsPermutation(q, |outcomes|)
    requires Fastest(outcomes, |outcomes|).Some? || PanicsAlike(outcomes)
    ensures InRange(p, |outcomes|) && InRange(q, |outcomes|)
    ensures VerdictFor(endpoints, outcomes, p) == VerdictFor(endpoints, outcomes, q)
  {
    hide Along;
    PanicCount(endpoints, outcomes, p, q);
    if PanicsAlike(outcomes) {
      var a, b := Along(endpoints, outcomes, p, Crash), Along(endpoints, outcomes, q, Crash);
      forall k | 0 <= k < |a| ensures a[k] == b[k] {
        assert a[k] in a && b[k] in b;
        CrashMembers(endpoints, outcomes, p, a[k]);
        CrashMembers(endpoints, outcomes, q, b[k]);
      }
      assert a == b;
    }
  }

  /** The join order in which task `i` is first and the others follow in discovery order. */
  ghost function Leading(n: nat, i: nat): (order: seq<nat>)
    requires i < n
    ensures |order| == n && order[0] == i
  {
    seq(n, k => if k == 0 then i else if k <= i then k - 1 else k)
  }

  lemma LeadingIsPermutation(n: nat, i: nat)
    requires i < n
    ensures IsPermutation(Leading(n, i), n)
  {
    var order := Leading(n, i);
    forall k: nat ensures k in order <==> k < n {
      if k < n {
        assert order[if k == i then 0 else if k < i then k + 1 else k] == k;
      }
    }
  }

  lemma {:induction false} LeadingEntry(endpoints: seq<string>, outcomes: seq<ProbeOutcome>, order: seq<nat>)
    requires |endpoints| == |outcomes| && InRange(order, |outcomes|) && order != []
    requires outcomes[order[0]].Panicked?
    ensures var es := Along(endpoints, outcomes, order, Crash);
            es != [] && es[0] == EntryOf(endpoints, outcomes, order[0])
  {
    if |order| == 1 {
      assert order[..0] == [];
    } else {
      LeadingEntry(endpoints, outcomes, order[..|order| - 1]);
    }
  }

  /** Two panics that differ, and no success: the failure list shows which of them was joined first. */
  lemma ScheduleShows(endpoints: seq<string>, outcomes: seq<ProbeOutcome>, i: nat, j: nat)
    requires |endpoints| == |outcomes| && i < |outcomes| && j < |outcomes|
    requires Fastest(outcomes, |outcomes|).None?
    requires outcomes[i].Panicked? && outcomes[j].Panicked? && outcomes[i].message != outcomes[j].message
    ensures InRange(Leading(|outcomes|, i), |outcomes|) && InRange(Leading(|outcomes|, j), |outcomes|)
    ensures VerdictFor(endpoints, outcomes, Leading(|outcomes|, i))
            != VerdictFor(endpoints, outcomes, Leading(|outcomes|, j))
  {
    hide Along;
    var n := |outcomes|;
    var p, q := Leading(n, i), Leading(n, j);
    LeadingIsPermutation(n, i);
    LeadingIsPermutation(n, j);
    PermutationInRange(p, n);
    PermutationInRange(q, n);
    LeadingEntry(endpoints, outcomes, p);
    LeadingEntry(endpoints, outcomes, q);
    var downs := Texts(Along(endpoints, outcomes, Identity(n), Down));
    var a, b := Texts(Along(endpoints, outcomes, p, Crash)), Texts(Along(endpoints, outcomes, q, Crash));
    assert (downs + a)[|downs|] == a[0];
    assert (downs + b)[|downs|] == b[0];
  }

  /** Exactly when the result of `probe_all` does not depend on the schedule. */
  lemma ScheduleIndependentIff(endpoints: seq<string>, outcomes: seq<ProbeOutcome>)
    requires |endpoints| == |outcomes|
    ensures (exists i :: 0 <= i < |outcomes| && outcomes[i].Reached?) || PanicsAlike(outcomes) <==>
            forall p, q :: IsPermutation(p, |outcomes|) && IsPermutation(q, |outcomes|) ==>
              && InRange(p, |outcomes|) && InRange(q, |outcomes|)
              && VerdictFor(endpoints, outcomes, p) == VerdictFor(endpoints, outcomes, q)
  {
    hide Along, Fastest, VerdictFor, Leading;
    FastestIsBest(outcomes, |outcomes|);
    if Fastest(outcomes, |outcomes|).Some? || PanicsAlike(outcomes) {
      forall p, q | IsPermutation(p, |outcomes|) && IsPermutation(q, |outcomes|)
        ensures InRange(p, |outcomes|) && InRange(q, |outcomes|)
        ensures VerdictFor(endpoints, outcomes, p) == VerdictFor(endpoints, outcomes, q)
      {
        ScheduleIrrelevant(endpoints, outcomes, p, q);
      }
    } else {
      var i, j :| 0 <= i < |outcomes| && 0 <= j < |outcomes| && outcomes[i].Panicked? && outcomes[j].Panicked?
        && outcomes[i].message != outcomes[j].message;
      ScheduleShows(endpoints, outcomes, i, j);
      LeadingIsPermutation(|outcomes|, i);
      LeadingIsPermutation(|outcomes|, j);
    }
  }

  /** Over all complete schedules of the bounded fan-out, `probe_all` has one result. */
  lemma EveryScheduleAgrees(
      endpoints: seq<string>, outcomes: seq<ProbeOutcome>,
      fans: seq<FanOut.Fan>, moves: seq<FanOut.Move>, fans': seq<FanOut.Fan>, moves': seq<FanOut.Move>)
    requires |endpoints| == |outcomes|
    requires FanOut.IsRun(|outcomes|, fans, moves) && forall m :: !FanOut.Enabled(fans[|moves|], m)
    requires FanOut.IsRun(|outcomes|, fans', moves') && forall m :: !FanOut.Enabled(fans'[|moves'|], m)
    requires Fastest(outcomes, |outcomes|).Some? || PanicsAlike(outcomes)
    ensures InRange(fans[|moves|].order, |outcomes|) && InRange(fans'[|moves'|].order, |outcomes|)
    ensures VerdictFor(endpoints, outcomes, fans[|moves|].order)
            == VerdictFor(endpoints, outcomes, fans'[|moves'|].order)
  {
    hide VerdictFor, FanOut.Apply, FanOut.Enabled, FanOut.Init;
    FanOut.EveryEndpointProbedOnce(|outcomes|, fans, moves);
    FanOut.EveryEndpointProbedOnce(|outcomes|, fans', moves');
    ScheduleIrrelevant(endpoints, outcomes, fans[|moves|].order, fans'[|moves'|].order);
  }
}
