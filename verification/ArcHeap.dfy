/**
 Reference-counted allocations, as `std::sync::Arc` keeps them.

 A `Loc` is a variable that may hold an `Arc<Connection>`: the shared slot inside the
 client's `RwLock`, and the locals of each in-flight send. A `Cell` is one allocation:
 its strong count, and the generation of the connection stored in it. Once the count
 reaches zero the address is free and `Alloc` may hand it out again, so two generations
 can live at one address at different times: this is what makes pointer comparison an
 ABA question.
 */
module ArcHeap {
  import opened Wrappers

  datatype Loc = Shared | Conn(t: nat) | Cur(t: nat) | Spare(t: nat)

  datatype Cell = Cell(strong: nat, gen: nat)

  datatype Heap = Heap(cells: map<nat, Cell>, ptrs: map<Loc, nat>)

  /** The generation a variable currently refers to, if it holds an Arc at all. */
  function At(h: Heap, l: Loc): Option<nat> {
    if l in h.ptrs && h.ptrs[l] in h.cells then Some(h.cells[h.ptrs[l]].gen) else None
  }

  ghost function Holders(h: Heap, a: nat): set<Loc> {
    set l | l in h.ptrs && h.ptrs[l] == a
  }

  /** Every pointer is to an allocation, every count is exact, no generation is stored twice. */
  ghost predicate Valid(h: Heap) {
    && (forall l :: l in h.ptrs ==> h.ptrs[l] in h.cells)
    && (forall a :: a in h.cells ==> 0 < h.cells[a].strong == |Holders(h, a)|)
    && (forall a, b :: a in h.cells && b in h.cells && h.cells[a].gen == h.cells[b].gen ==> a == b)
  }

  ghost predicate GensBelow(h: Heap, bound: nat) {
    forall a :: a in h.cells ==> h.cells[a].gen < bound
  }

  /** `Arc::ptr_eq`: the two variables hold the same address. */
  predicate PtrEq(h: Heap, l: Loc, m: Loc) {
    l in h.ptrs && m in h.ptrs && h.ptrs[l] == h.ptrs[m]
  }

  /** `Arc::new`: any address that is not in use now, whatever it held before. */
  function Alloc(h: Heap, l: Loc, a: nat, gen: nat): Heap {
    Heap(h.cells[a := Cell(1, gen)], h.ptrs[l := a])
  }

  /** `let dst = Arc::clone(&src)`. */
  function Clone(h: Heap, src: Loc, dst: Loc): Heap {
    if src in h.ptrs && h.ptrs[src] in h.cells then
      var a := h.ptrs[src];
      Heap(h.cells[a := h.cells[a].(strong := h.cells[a].strong + 1)], h.ptrs[dst := a])
    else h
  }

  /** Drop the Arc in `l`; nothing happens if `l` was moved out of or never initialised. */
  function Release(h: Heap, l: Loc): Heap {
    if l in h.ptrs && h.ptrs[l] in h.cells then
      var a := h.ptrs[l];
      var c := h.cells[a];
      Heap(if c.strong <= 1 then h.cells - {a} else h.cells[a := c.(strong := c.strong - 1)],
           h.ptrs - {l})
    else h
  }

  /** Move the Arc in `src` into the empty variable `dst`; no count changes. */
  function Move(h: Heap, src: Loc, dst: Loc): Heap {
    if src in h.ptrs then Heap(h.cells, (h.ptrs - {src})[dst := h.ptrs[src]]) else h
  }

  lemma AllocCounts(h: Heap, l: Loc, a: nat, gen: nat)
    requires Valid(h) && l !in h.ptrs && a !in h.cells && GensBelow(h, gen)
    ensures Valid(Alloc(h, l, a, gen))
  {
    var k := Alloc(h, l, a, gen);
    assert Holders(h, a) == {};
    assert Holders(k, a) == {l};
    forall b | b in k.cells ensures 0 < k.cells[b].strong == |Holders(k, b)| {
      assert b != a ==> Holders(k, b) == Holders(h, b);
    }
  }

  lemma AllocKeeps(h: Heap, l: Loc, a: nat, gen: nat)
    requires Valid(h) && l !in h.ptrs && a !in h.cells && GensBelow(h, gen)
    ensures Valid(Alloc(h, l, a, gen)) && GensBelow(Alloc(h, l, a, gen), gen + 1)
    ensures At(Alloc(h, l, a, gen), l) == Some(gen)
    ensures forall m :: m != l ==> At(Alloc(h, l, a, gen), m) == At(h, m)
  {
    AllocCounts(h, l, a, gen);
  }

  lemma CloneCounts(h: Heap, src: Loc, dst: Loc)
    requires Valid(h) && src in h.ptrs && dst !in h.ptrs
    ensures Valid(Clone(h, src, dst))
  {
    var k, a := Clone(h, src, dst), h.ptrs[src];
    assert Holders(k, a) == Holders(h, a) + {dst};
    forall b | b in k.cells ensures 0 < k.cells[b].strong == |Holders(k, b)| {
      assert b != a ==> Holders(k, b) == Holders(h, b);
    }
  }

  lemma CloneKeeps(h: Heap, src: Loc, dst: Loc, bound: nat)
    requires Valid(h) && src in h.ptrs && dst !in h.ptrs && GensBelow(h, bound)
    ensures Valid(Clone(h, src, dst)) && GensBelow(Clone(h, src, dst), bound)
    ensures At(Clone(h, src, dst), dst) == At(h, src)
    ensures forall m :: m != dst ==> At(Clone(h, src, dst), m) == At(h, m)
  {
    CloneCounts(h, src, dst);
  }

  lemma ReleaseHolders(h: Heap, l: Loc, a: nat)
    requires Valid(h) && l in h.ptrs
    ensures Holders(Release(h, l), a) == Holders(h, a) - {l}
    ensures a == h.ptrs[l] ==> |Holders(Release(h, l), a)| == |Holders(h, a)| - 1
  {
    assert h.ptrs[l] in h.cells;
    assert l in Holders(h, h.ptrs[l]);
    assert Holders(Release(h, l), a) == Holders(h, a) - {l};
  }

  /** An address that some other variable still holds survives a drop. */
  lemma ReleaseKeepsHeld(h: Heap, l: Loc, m: Loc)
    requires Valid(h) && l in h.ptrs && m in h.ptrs && m != l
    ensures var k := Release(h, l);
            h.ptrs[m] in k.cells && k.cells[h.ptrs[m]].gen == h.cells[h.ptrs[m]].gen
  {
    var a := h.ptrs[l];
    if h.ptrs[m] == a {
      ReleaseHolders(h, l, a);
      assert m in Holders(Release(h, l), a);
    }
  }

  lemma ReleaseCounts(h: Heap, l: Loc)
    requires Valid(h) && l in h.ptrs
    ensures Valid(Release(h, l))
  {
    var k := Release(h, l);
    forall m | m in k.ptrs ensures k.ptrs[m] in k.cells {
      ReleaseKeepsHeld(h, l, m);
    }
    forall b | b in k.cells ensures 0 < k.cells[b].strong == |Holders(k, b)| {
      ReleaseHolders(h, l, b);
      if b != h.ptrs[l] {
        assert Holders(k, b) == Holders(h, b);
      }
    }
  }

  /** A drop affects no other variable: whoever still holds an Arc still sees the generation it saw. */
  lemma ReleaseKeeps(h: Heap, l: Loc, bound: nat)
    requires Valid(h) && GensBelow(h, bound)
    ensures Valid(Release(h, l)) && GensBelow(Release(h, l), bound)
    ensures At(Release(h, l), l) == None
    ensures forall m :: m != l ==> At(Release(h, l), m) == At(h, m)
  {
    if l in h.ptrs {
      ReleaseCounts(h, l);
      forall m | m in h.ptrs && m != l ensures At(Release(h, l), m) == At(h, m) {
        ReleaseKeepsHeld(h, l, m);
      }
    }
  }

  lemma MoveCounts(h: Heap, src: Loc, dst: Loc)
    requires Valid(h) && src in h.ptrs && dst !in h.ptrs
    ensures Valid(Move(h, src, dst))
  {
    var k, a := Move(h, src, dst), h.ptrs[src];
    assert Holders(k, a) == Holders(h, a) - {src} + {dst};
    forall b | b in k.cells ensures 0 < k.cells[b].strong == |Holders(k, b)| {
      assert b != a ==> Holders(k, b) == Holders(h, b);
    }
  }

  lemma MoveKeeps(h: Heap, src: Loc, dst: Loc, bound: nat)
    requires Valid(h) && src in h.ptrs && dst !in h.ptrs && GensBelow(h, bound)
    ensures Valid(Move(h, src, dst)) && GensBelow(Move(h, src, dst), bound)
    ensures At(Move(h, src, dst), dst) == At(h, src) && At(Move(h, src, dst), src) == None
    ensures forall m :: m != dst && m != src ==> At(Move(h, src, dst), m) == At(h, m)
  {
    MoveCounts(h, src, dst);
  }

  /** The allocation behind `l` is freed by dropping `l` exactly when no other variable sees its generation. */
  lemma FreedIffLast(h: Heap, l: Loc)
    requires Valid(h) && l in h.ptrs
    ensures h.ptrs[l] !in Release(h, l).cells <==> forall m :: m != l ==> At(h, m) != At(h, l)
  {
    var a := h.ptrs[l];
    assert l in Holders(h, a);
    if h.ptrs[l] !in Release(h, l).cells {
      forall m | m != l ensures At(h, m) != At(h, l) {
        if m in h.ptrs && h.ptrs[m] == a {
          assert {l, m} <= Holders(h, a);
          SubsetCard({l, m}, Holders(h, a));
        }
      }
    } else {
      ReleaseHolders(h, l, a);
      var rest := Holders(h, a) - {l};
      assert |rest| != 0;
      var m :| m in rest;
      assert At(h, m) == At(h, l);
    }
  }

  lemma SubsetCard<T>(a: set<T>, b: set<T>)
    requires a <= b
    ensures |a| <= |b|
  {
    if a != {} {
      var x :| x in a;
      SubsetCard(a - {x}, b - {x});
    }
  }

  /** While both variables hold their Arcs, equal addresses mean equal generations and conversely. */
  lemma PtrEqIsGenEq(h: Heap, l: Loc, m: Loc)
    requires Valid(h) && l in h.ptrs && m in h.ptrs
    ensures PtrEq(h, l, m) <==> At(h, l) == At(h, m)
  {
    assert h.ptrs[l] in h.cells && h.ptrs[m] in h.cells;
  }

  /**
   Holding the Arc is what makes the comparison sound: the address of the last Arc to a
   generation, remembered but not held, can come back carrying another generation.
   */
  lemma UnheldAddressReturns(h: Heap, l: Loc, gen: nat)
    requires Valid(h) && l in h.ptrs && Holders(h, h.ptrs[l]) == {l} && GensBelow(h, gen)
    ensures var k := Alloc(Release(h, l), l, h.ptrs[l], gen);
            Valid(k) && k.ptrs[l] == h.ptrs[l] && At(k, l) != At(h, l)
  {
    ReleaseKeeps(h, l, gen);
    assert l in Holders(h, h.ptrs[l]);
    AllocKeeps(Release(h, l), l, h.ptrs[l], gen);
  }
}
