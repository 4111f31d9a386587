/**
 Collecting probe results and choosing the fastest. The join order is arbitrary; what comes
 out is compared with a verdict computed in discovery order.
 */
module Selection {
  import opened Wrappers

  const USIZE_MAX: nat := 0xFFFF_FFFF_FFFF_FFFF
  const ISIZE_MAX: nat := 0x7FFF_FFFF_FFFF_FFFF

  /** What became of one probe task; latencies in nanoseconds. */
  datatype ProbeOutcome =
    | Reached(addr: string, latency: nat)
    | Unreachable(error: string)
    | Panicked(message: string)

  datatype ProbeOk = ProbeOk(endpoint: string, addr: string, latency: nat)

  /** A joined task as it is pushed on `results` or `failures`, with its sort key. */
  datatype Entry = Entry(key: nat, endpoint: string, outcome: ProbeOutcome)

  ghost predicate IsPermutation(order: seq<nat>, n: nat) {
    && |order| == n
    && (forall i, j :: 0 <= i < j < n ==> order[i] != order[j])
    && (forall k: nat :: k in order <==> k < n)
  }

  // ---------- a stable sort by key ----------

  function Insert(sorted: seq<Entry>, x: Entry): seq<Entry> {
    if sorted == [] || sorted[|sorted| - 1].key <= x.key then sorted + [x]
    else Insert(sorted[..|sorted| - 1], x) + [sorted[|sorted| - 1]]
  }

  /** `sort_by_key` on the first component: ascending, equal keys in their original order. */
  function StableSort(xs: seq<Entry>): seq<Entry> {
    if xs == [] then [] else Insert(StableSort(xs[..|xs| - 1]), xs[|xs| - 1])
  }

  ghost predicate StrictlySorted(xs: seq<Entry>) {
    forall i, j :: 0 <= i < j < |xs| ==> xs[i].key < xs[j].key
  }

  ghost predicate DistinctKeys(xs: seq<Entry>) {
    forall i, j :: 0 <= i < j < |xs| ==> xs[i].key != xs[j].key
  }

  lemma {:induction false} InsertKeeps(sorted: seq<Entry>, x: Entry)
    requires StrictlySorted(sorted) && forall y :: y in sorted ==> y.key != x.key
    ensures StrictlySorted(Insert(sorted, x))
    ensures forall y :: y in Insert(sorted, x) <==> y == x || y in sorted
  {
    if sorted == [] || sorted[|sorted| - 1].key <= x.key {
      if sorted != [] {
        assert sorted[|sorted| - 1] in sorted;
      }
    } else {
      var front, last := sorted[..|sorted| - 1], sorted[|sorted| - 1];
      assert sorted == front + [last];
      InsertKeeps(front, x);
      BelowLast(sorted);
      var ins := Insert(front, x);
      forall i | 0 <= i < |ins| ensures ins[i].key < last.key {
        assert ins[i] in ins;
      }
    }
  }

  lemma BelowLast(xs: seq<Entry>)
    requires StrictlySorted(xs) && xs != []
    ensures forall y: Entry :: y in xs[..|xs| - 1] ==> y.key < xs[|xs| - 1].key
  {
  }

  lemma {:induction false} SortKeeps(xs: seq<Entry>)
    requires DistinctKeys(xs)
    ensures StrictlySorted(StableSort(xs))
    ensures forall y :: y in StableSort(xs) <==> y in xs
  {
    if xs != [] {
      var front, x := xs[..|xs| - 1], xs[|xs| - 1];
      SortKeeps(front);
      assert forall y: Entry :: y in front ==> y.key != x.key;
      InsertKeeps(StableSort(front), x);
      assert xs == front + [x];
    }
  }

  /** A strictly sorted sequence is determined by its elements. */
  lemma {:induction false} SortedUnique(xs: seq<Entry>, ys: seq<Entry>)
    requires StrictlySorted(xs) && StrictlySorted(ys) && forall z :: z in xs <==> z in ys
    ensures xs == ys
  {
    if xs == [] {
      assert forall i :: 0 <= i < |ys| ==> ys[i] in ys;
    } else {
      assert xs[|xs| - 1] in ys;
      SameLast(xs, ys);
      SameLast(ys, xs);
      FrontMembers(xs);
      FrontMembers(ys);
      assert xs[|xs| - 1] == ys[|ys| - 1];
      var xf, yf := xs[..|xs| - 1], ys[..|ys| - 1];
      forall z ensures z in xf <==> z in yf {
        assert z in xs <==> z in ys;
      }
      SortedUnique(xf, yf);
      assert xs == xs[..|xs| - 1] + [xs[|xs| - 1]];
      assert ys == ys[..|ys| - 1] + [ys[|ys| - 1]];
    }
  }

  lemma FrontMembers(xs: seq<Entry>)
    requires StrictlySorted(xs) && xs != []
    ensures forall z :: z in xs[..|xs| - 1] <==> z in xs && z != xs[|xs| - 1]
  {
    assert xs == xs[..|xs| - 1] + [xs[|xs| - 1]];
  }

  lemma SameLast(xs: seq<Entry>, ys: seq<Entry>)
    requires StrictlySorted(xs) && xs != [] && ys != [] && forall z :: z in ys ==> z in xs
    ensures ys[|ys| - 1].key <= xs[|xs| - 1].key
    ensures ys[|ys| - 1].key == xs[|xs| - 1].key ==> ys[|ys| - 1] == xs[|xs| - 1]
  {
    assert ys[|ys| - 1] in ys;
    var m :| 0 <= m < |xs| && xs[m] == ys[|ys| - 1];
  }

  /** Entries with the largest key go last, in their original order, whatever the others do. */
  function WithKey(xs: seq<Entry>, max: nat): seq<Entry> {
    if xs == [] then []
    else WithKey(xs[..|xs| - 1], max) + if xs[|xs| - 1].key == max then [xs[|xs| - 1]] else []
  }

  function WithoutKey(xs: seq<Entry>, max: nat): seq<Entry> {
    if xs == [] then []
    else WithoutKey(xs[..|xs| - 1], max) + if xs[|xs| - 1].key == max then [] else [xs[|xs| - 1]]
  }

  lemma {:induction false} InsertBelow(low: seq<Entry>, high: seq<Entry>, x: Entry)
    requires forall i :: 0 <= i < |high| ==> high[i].key > x.key
    ensures Insert(low + high, x) == Insert(low, x) + high
  {
    if high == [] {
      assert low + high == low;
    } else {
      var front, last := high[..|high| - 1], high[|high| - 1];
      assert (low + high)[..|low + high| - 1] == low + front;
      InsertBelow(low, front, x);
      assert high == front + [last];
    }
  }

  lemma {:induction false} KeyParts(xs: seq<Entry>, max: nat)
    ensures forall i :: 0 <= i < |WithKey(xs, max)| ==> WithKey(xs, max)[i].key == max
    ensures forall y :: y in WithoutKey(xs, max) <==> y in xs && y.key != max
  {
    if xs != [] {
      KeyParts(xs[..|xs| - 1], max);
      assert xs == xs[..|xs| - 1] + [xs[|xs| - 1]];
    }
  }

  lemma {:induction false} SortMembers(xs: seq<Entry>, x: Entry)
    ensures x in StableSort(xs) ==> x in xs
  {
    if xs != [] {
      SortMembers(xs[..|xs| - 1], x);
      InsertMembers(StableSort(xs[..|xs| - 1]), xs[|xs| - 1], x);
    }
  }

  lemma {:induction false} InsertMembers(sorted: seq<Entry>, x: Entry, y: Entry)
    ensures y in Insert(sorted, x) ==> y == x || y in sorted
  {
    if sorted != [] && sorted[|sorted| - 1].key > x.key {
      InsertMembers(sorted[..|sorted| - 1], x, y);
    }
  }

  lemma AppendHigh(low: seq<Entry>, high: seq<Entry>, x: Entry)
    requires forall y :: y in low || y in high ==> y.key <= x.key
    ensures Insert(low + high, x) == low + (high + [x])
  {
    var all := low + high;
    if all != [] {
      assert all[|all| - 1] in all;
    }
    assert low + high + [x] == low + (high + [x]);
  }

  lemma Unfolded(xs: seq<Entry>, max: nat)
    ensures xs == [] ==> StableSort(xs) == [] && WithKey(xs, max) == [] && WithoutKey(xs, max) == []
    ensures xs != [] ==>
              var front, x := xs[..|xs| - 1], xs[|xs| - 1];
              && StableSort(xs) == Insert(StableSort(front), x)
              && WithKey(xs, max) == WithKey(front, max) + (if x.key == max then [x] else [])
              && WithoutKey(xs, max) == WithoutKey(front, max) + (if x.key == max then [] else [x])
  {
  }

  lemma {:induction false} SortPutsMaxLast(xs: seq<Entry>, max: nat)
    requires forall y :: y in xs ==> y.key <= max
    ensures StableSort(xs) == StableSort(WithoutKey(xs, max)) + WithKey(xs, max)
  {
    hide Insert, StableSort, WithKey, WithoutKey;
    Unfolded(xs, max);
    if xs == [] {
      Unfolded([], max);
    } else {
      var front, x := xs[..|xs| - 1], xs[|xs| - 1];
      forall y | y in front ensures y.key <= max {
        assert y in xs;
      }
      SortPutsMaxLast(front, max);
      KeyParts(front, max);
      assert x in xs;
      var rest, high := WithoutKey(front, max), WithKey(front, max);
      assert rest + [] == rest && high + [] == high;
      MaxStep(StableSort(front), rest, high, x, max);
    }
  }

  lemma MaxStep(sorted: seq<Entry>, rest: seq<Entry>, high: seq<Entry>, x: Entry, max: nat)
    requires sorted == StableSort(rest) + high && x.key <= max
    requires forall y :: y in rest ==> y.key <= max
    requires forall i :: 0 <= i < |high| ==> high[i].key == max
    ensures x.key == max ==> Insert(sorted, x) == StableSort(rest) + (high + [x])
    ensures x.key < max ==> Insert(sorted, x) == StableSort(rest + [x]) + high
  {
    if x.key == max {
      forall y | y in StableSort(rest) || y in high ensures y.key <= x.key {
        SortMembers(rest, y);
      }
      AppendHigh(StableSort(rest), high, x);
    } else {
      InsertBelow(StableSort(rest), high, x);
      assert (rest + [x])[..|rest|] == rest;
    }
  }

  // ---------- selection ----------

  /** Lexicographic (latency, discovery index). */
  predicate KeyBelow(a: Entry, b: Entry)
    requires a.outcome.Reached? && b.outcome.Reached?
  {
    a.outcome.latency < b.outcome.latency || (a.outcome.latency == b.outcome.latency && a.key < b.key)
  }

  predicate AllReached(results: seq<Entry>) {
    forall i :: 0 <= i < |results| ==> results[i].outcome.Reached?
  }

  /** `select_best`: `min_by_key` keeps the first of several minima. */
  function SelectBest(results: seq<Entry>): (r: Option<nat>)
    requires AllReached(results)
    ensures r.None? <==> results == []
    ensures r.Some? ==> r.value < |results|
    ensures r.Some? ==> forall j :: 0 <= j < |results| ==> !KeyBelow(results[j], results[r.value])
    ensures r.Some? ==> forall j :: 0 <= j < r.value ==> KeyBelow(results[r.value], results[j])
  {
    if results == [] then None
    else
      var last := |results| - 1;
      match SelectBest(results[..last])
      case None => Some(last)
      case Some(i) => if KeyBelow(results[last], results[i]) then Some(last) else Some(i)
  }
}
