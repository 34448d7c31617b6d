/** Freeing a metadata block: finding its node, and restoring the canonical form. */
module MetaFree {
  import opened TreeIndex
  import opened PackedStates
  import opened MetaTree

  // ---- Addresses --------------------------------------------------------------------------

  /** Index of the first leaf below `x`. */
  ghost function First(depth: nat, x: nat): nat
    requires InTree(depth, x)
  {
    x * Pow2(Height(depth, x))
  }

  ghost function BlockAddr(memory: nat, depth: nat, x: nat): int
    requires InTree(depth, x)
  {
    memory + BLOCK_SIZE * (First(depth, x) - Pow2(depth))
  }

  ghost function BlockLen(depth: nat, x: nat): nat
    requires InTree(depth, x)
  {
    BLOCK_SIZE * Pow2(Height(depth, x))
  }

  /** The memory of a descendant lies inside the memory of its ancestor. */
  lemma Nested(depth: nat, x: nat, a: nat)
    requires InTree(depth, x) && InTree(depth, a) && Under(x, a)
    ensures First(depth, a) <= First(depth, x)
    ensures First(depth, x) + Pow2(Height(depth, x)) <= First(depth, a) + Pow2(Height(depth, a))
  {
    HeightInTree(depth, x);
    HeightInTree(depth, a);
    UnderLevel(x, a);
    var d, h := Level(x) - Level(a), Height(depth, x);
    UnderInterval(x, a, d);
    Pow2Add(d, h);
    NestedScale(a, x, Pow2(d), Pow2(h));
  }

  lemma NestedScale(a: nat, x: nat, p: nat, q: nat)
    requires p >= 1 && q >= 1 && a * p <= x < (a + 1) * p
    ensures a * (p * q) <= x * q && x * q + q <= a * (p * q) + p * q
  {
    assert a * (p * q) == (a * p) * q && (a + 1) * p == a * p + p;
    MulMonotone(a * p, x, q);
    MulMonotone(x + 1, a * p + p, q);
    assert (x + 1) * q == x * q + q && (a * p + p) * q == (a * p) * q + p * q;
  }

  lemma ChildFirst(depth: nat, i: nat)
    requires InTree(depth, i) && Height(depth, i) > 0
    ensures InTree(depth, 2 * i) && InTree(depth, 2 * i + 1)
    ensures Height(depth, 2 * i) == Height(depth, 2 * i + 1) == Height(depth, i) - 1
    ensures Pow2(Height(depth, i)) == 2 * Pow2(Height(depth, i) - 1)
    ensures First(depth, 2 * i) == First(depth, i)
    ensures First(depth, 2 * i + 1) == First(depth, i) + Pow2(Height(depth, i) - 1)
  {
    hide Pow2, Level;
    ChildrenInTree(depth, i);
    Doubled(Height(depth, i) - 1);
    ChildScale(i, Pow2(Height(depth, i) - 1));
  }

  lemma ChildScale(i: nat, p: nat)
    ensures i * (2 * p) == (2 * i) * p && (2 * i + 1) * p == (2 * i) * p + p
  {
  }

  lemma RootFirst(depth: nat)
    ensures InTree(depth, 1) && Height(depth, 1) == depth && First(depth, 1) == Pow2(depth)
  {
    HeightInTree(depth, 1);
    assert Pow2(depth + 1) == 2 * Pow2(depth);
  }

  // ---- Finding the block ------------------------------------------------------------------

  /** Every live block that starts at `ptr` lies below `i`. */
  ghost predicate OnlyBelow(live: set<nat>, memory: nat, depth: nat, ptr: int, i: nat) {
    forall x :: x in live && InTree(depth, x) && BlockAddr(memory, depth, x) == ptr ==> Under(x, i)
  }

  lemma OnlyBelowRoot(live: set<nat>, memory: nat, depth: nat, ptr: int)
    ensures OnlyBelow(live, memory, depth, ptr, 1)
  {
    forall x | x in live && InTree(depth, x)
      ensures Under(x, 1)
    {
      UnderRoot(x);
    }
  }

  /** Going to the half that contains `ptr` loses no block that starts there. */
  lemma Descend(live: set<nat>, memory: nat, depth: nat, ptr: int, i: nat)
    requires InTree(depth, i) && Height(depth, i) > 0 && OnlyBelow(live, memory, depth, ptr, i)
    requires i !in live || BlockAddr(memory, depth, i) != ptr
    ensures InTree(depth, 2 * i) && InTree(depth, 2 * i + 1)
    ensures var mid := BlockAddr(memory, depth, i) + BLOCK_SIZE * Pow2(Height(depth, i) - 1);
            OnlyBelow(live, memory, depth, ptr, if ptr >= mid then 2 * i + 1 else 2 * i)
  {
    ChildFirst(depth, i);
    forall x | x in live && InTree(depth, x) && BlockAddr(memory, depth, x) == ptr
      ensures Under(x, if ptr >= BlockAddr(memory, depth, i) + BLOCK_SIZE * Pow2(Height(depth, i) - 1) then 2 * i + 1
                      else 2 * i)
    {
      assert x != i;
      UnderChild(x, i);
      if Under(x, 2 * i) {
        Nested(depth, x, 2 * i);
      } else {
        Nested(depth, x, 2 * i + 1);
      }
    }
  }

  /** A node that stores "used" is live, and the other way round. */
  lemma UsedIffLive(items: seq<TwoBit>, live: set<nat>, depth: nat, i: nat)
    requires LiveOk(live, depth) && CanonOk(items, live, depth) && InTree(depth, i)
    ensures items[i - 1] == NODE_USED <==> i in live
  {
    assert NodeOk(items, live, depth, i);
    if i in live {
      LiveIsVisible(live, i);
    }
  }

  /** At a leaf that does not match, no live block starts at `ptr`. */
  lemma NoBlock(live: set<nat>, memory: nat, depth: nat, ptr: int, i: nat)
    requires InTree(depth, i) && Height(depth, i) == 0 && OnlyBelow(live, memory, depth, ptr, i)
    requires i !in live || BlockAddr(memory, depth, i) != ptr
    ensures forall x :: x in live && InTree(depth, x) ==> BlockAddr(memory, depth, x) != ptr
  {
    HeightInTree(depth, i);
    forall x | x in live && InTree(depth, x)
      ensures BlockAddr(memory, depth, x) != ptr
    {
      HeightInTree(depth, x);
      if Under(x, i) && x != i {
        UnderLevel(x, i);
      }
    }
  }

  // ---- Restoring the canonical form -------------------------------------------------------

  /** The subtree of `c`, whose only live block was `b`, is free; the rest is untouched. */
  ghost predicate FreeUpTo(items: seq<TwoBit>, items0: seq<TwoBit>, live: set<nat>, depth: nat, b: nat, c: nat) {
    && LiveOk(live, depth) && CanonOk(items0, live, depth) && |items| == |items0|
    && b in live && InTree(depth, c) && Under(b, c) && items[c - 1] == NODE_FREE
    && (forall i :: 1 <= i < Pow2(depth + 1) && !Under(i, c) ==> StateAt(items, i, items0[i - 1]))
    && (forall i :: 1 <= i < Pow2(depth + 1) && Under(i, c) ==> StaleAt(items, i))
    && (forall x :: x in live && Under(x, c) ==> x == b)
  }

  ghost predicate StaleAt(items: seq<TwoBit>, i: nat)
    requires 1 <= i <= |items|
  {
    items[i - 1] == NODE_FREE || items[i - 1] == NODE_FULL
  }

  lemma FreeStart(items: seq<TwoBit>, live: set<nat>, depth: nat, b: nat)
    requires LiveOk(live, depth) && CanonOk(items, live, depth) && b in live
    ensures InTree(depth, b) && FreeUpTo(items[b - 1 := NODE_FREE], items, live, depth, b, b)
  {
    var after := items[b - 1 := NODE_FREE];
    assert Under(b, b);
    forall i | 1 <= i < Pow2(depth + 1) && Under(i, b)
      ensures StaleAt(after, i)
    {
      if i != b {
        BelowLive(live, b, i);
        assert NodeOk(items, live, depth, i);
      }
    }
  }

  /** Below a live block nothing is visible. */
  lemma BelowLive(live: set<nat>, b: nat, i: nat)
    requires Antichain(live) && b in live && Under(i, b) && i != b && b >= 1
    ensures !Visible(live, i)
  {
    UnderLe(i, b);
    assert Under(i / 2, b);
    if HasBelow(live, i / 2) {
      var x :| x in live && Under(x, i / 2);
      UnderTrans(x, i / 2, b);
      UnderLe(x, i / 2);
      UnderLe(i / 2, b);
    }
  }

  /** Below a free node nothing is visible. */
  lemma BelowFree(live: set<nat>, s: nat, i: nat)
    requires !HasBelow(live, s) && Under(i, s) && i != s && s >= 1
    ensures !Visible(live, i)
  {
    UnderLe(i, s);
    assert Under(i / 2, s);
    if HasBelow(live, i / 2) {
      HasBelowUp(live, i / 2, s);
    }
  }

  lemma SiblingState(items: seq<TwoBit>, items0: seq<TwoBit>, live: set<nat>, depth: nat, b: nat, c: nat)
    requires FreeUpTo(items, items0, live, depth, b, c) && c > 1
    ensures InTree(depth, Sibling(c))
            && items[Sibling(c) - 1] == items0[Sibling(c) - 1] == Canon(live, depth, Sibling(c))
    ensures InTree(depth, c / 2) && c / 2 !in live && b != c / 2
  {
    SiblingShape(depth, c);
    SiblingVisible(live, b, c);
    assert NodeOk(items0, live, depth, Sibling(c));
    assert StateAt(items, Sibling(c), items0[Sibling(c) - 1]);
    assert Under(c, c / 2);
    UnderTrans(b, c, c / 2);
    UnderLe(b, c);
    AboveLive(live, b, c / 2);
    HeightInTree(depth, c);
  }

  /** The sibling is free as well: so is the parent. */
  lemma FreeStep(items: seq<TwoBit>, items0: seq<TwoBit>, live: set<nat>, depth: nat, b: nat, c: nat)
    requires FreeUpTo(items, items0, live, depth, b, c) && c > 1 && items[Sibling(c) - 1] == NODE_FREE
    ensures FreeUpTo(items[c / 2 - 1 := NODE_FREE], items0, live, depth, b, c / 2)
  {
    hide Pow2, Level, Canon, NodeOk, LiveOk;
    var p, s, after := c / 2, Sibling(c), items[c / 2 - 1 := NODE_FREE];
    SiblingState(items, items0, live, depth, b, c);
    SiblingShape(depth, c);
    SiblingEmpty(items, items0, live, depth, b, c);
    UnderTrans(b, c, p);
    forall i | 1 <= i < Pow2(depth + 1) && !Under(i, p)
      ensures StateAt(after, i, items0[i - 1])
    {
      if Under(i, c) {
        UnderTrans(i, c, p);
      }
      assert Under(p, p);
      assert StateAt(items, i, items0[i - 1]);
    }
    forall i | 1 <= i < Pow2(depth + 1) && Under(i, p)
      ensures StaleAt(after, i)
    {
      if i != p {
        UnderChild(i, p);
        if Under(i, c) {
          assert StaleAt(items, i);
        } else {
          SiblingStale(items, items0, live, depth, b, c, i);
        }
      }
    }
    forall x | x in live && Under(x, p)
      ensures x == b
    {
      UnderChild(x, p);
      assert Under(x, s) ==> HasBelow(live, s);
    }
  }

  lemma SiblingEmpty(items: seq<TwoBit>, items0: seq<TwoBit>, live: set<nat>, depth: nat, b: nat, c: nat)
    requires FreeUpTo(items, items0, live, depth, b, c) && c > 1 && items[Sibling(c) - 1] == NODE_FREE
    ensures !HasBelow(live, Sibling(c))
  {
    hide Pow2, Level;
    SiblingState(items, items0, live, depth, b, c);
    SiblingShape(depth, c);
  }

  lemma SiblingStale(items: seq<TwoBit>, items0: seq<TwoBit>, live: set<nat>, depth: nat, b: nat, c: nat, i: nat)
    requires FreeUpTo(items, items0, live, depth, b, c) && c > 1 && items[Sibling(c) - 1] == NODE_FREE
    requires 1 <= i < Pow2(depth + 1) && Under(i, Sibling(c)) && !Under(i, c)
    ensures StaleAt(items, i)
  {
    SiblingState(items, items0, live, depth, b, c);
    assert StateAt(items, i, items0[i - 1]);
    if i != Sibling(c) {
      BelowFree(live, Sibling(c), i);
      assert NodeOk(items0, live, depth, i);
    }
  }

  /** The whole tree has become free. */
  lemma FreeAll(items: seq<TwoBit>, items0: seq<TwoBit>, live: set<nat>, depth: nat, b: nat)
    requires FreeUpTo(items, items0, live, depth, b, 1)
    ensures CanonOk(items, live - {b}, depth)
  {
    forall x | x in live
      ensures x == b
    {
      UnderRoot(x);
    }
    assert live - {b} == {};
    forall i | 1 <= i < Pow2(depth + 1)
      ensures NodeOk(items, live - {b}, depth, i)
    {
      UnderRoot(i);
      assert StaleAt(items, i);
    }
  }

  /** Above `c`, the proper ancestors down to but excluding `q` are split already. */
  ghost predicate SplitUpTo(items: seq<TwoBit>, items0: seq<TwoBit>, live: set<nat>, depth: nat, b: nat, c: nat,
                            q: nat) {
    && LiveOk(live, depth) && CanonOk(items0, live, depth) && |items| == |items0|
    && b in live && InTree(depth, c) && Under(b, c) && c > 1 && items[c - 1] == NODE_FREE
    && (q == 0 || Under(c / 2, q))
    && (forall i :: 1 <= i < Pow2(depth + 1) && Under(c / 2, i) && i > q ==> StateAt(items, i, NODE_SPLIT))
    && (forall i :: 1 <= i < Pow2(depth + 1) && Under(c / 2, i) && i <= q ==> StateAt(items, i, items0[i - 1]))
    && (forall i :: 1 <= i < Pow2(depth + 1) && !Under(i, c) && !Under(c / 2, i) ==> StateAt(items, i, items0[i - 1]))
    && (forall i :: 1 <= i < Pow2(depth + 1) && Under(i, c) ==> StaleAt(items, i))
    && (forall x :: x in live && Under(x, c) ==> x == b)
    && HasBelow(live - {b}, c / 2)
  }

  lemma SplitStart(items: seq<TwoBit>, items0: seq<TwoBit>, live: set<nat>, depth: nat, b: nat, c: nat)
    requires FreeUpTo(items, items0, live, depth, b, c) && c > 1 && items[Sibling(c) - 1] != NODE_FREE
    ensures SplitUpTo(items, items0, live, depth, b, c, c / 2)
  {
    var p, s := c / 2, Sibling(c);
    SiblingState(items, items0, live, depth, b, c);
    SiblingShape(depth, c);
    if s in live {
      assert Under(s, s);
    }
    var x :| x in live && Under(x, s);
    assert Under(s, p) && Under(p, p);
    UnderTrans(x, s, p);
    assert x != b by {
      if x == b {
        UnderChain(b, s, c);
      }
    }
    assert x in live - {b};
    forall i | 1 <= i < Pow2(depth + 1) && Under(p, i)
      ensures i <= p && StateAt(items, i, items0[i - 1])
    {
      UnderLe(p, i);
      if Under(i, c) {
        UnderLe(i, c);
      }
    }
  }

  /** An ancestor of a live block is split or full. */
  lemma AncestorState(items0: seq<TwoBit>, live: set<nat>, depth: nat, b: nat, q: nat)
    requires LiveOk(live, depth) && CanonOk(items0, live, depth) && b in live && Under(b, q) && b != q && q >= 1
    ensures InTree(depth, q) && items0[q - 1] == if Covered(live, q, Height(depth, q)) then NODE_FULL else NODE_SPLIT
  {
    UnderLe(b, q);
    AboveLive(live, b, q);
    UpVisible(live, b, q);
    assert NodeOk(items0, live, depth, q);
  }

  lemma SplitStep(items: seq<TwoBit>, items0: seq<TwoBit>, live: set<nat>, depth: nat, b: nat, c: nat, q: nat)
    requires SplitUpTo(items, items0, live, depth, b, c, q) && q >= 1
    ensures InTree(depth, q)
    ensures SplitUpTo(items[q - 1 := NODE_SPLIT], items0, live, depth, b, c, q / 2)
  {
    var p, after := c / 2, items[q - 1 := NODE_SPLIT];
    UnderLe(p, q);
    if q > 1 {
      assert Under(q, q / 2);
      UnderTrans(p, q, q / 2);
    }
    forall i | 1 <= i < Pow2(depth + 1) && Under(p, i) && i > q / 2
      ensures StateAt(after, i, NODE_SPLIT)
    {
      if i <= q {
        UnderChain(p, i, q);
        BetweenParent(q, i);
      }
      assert i > q ==> StateAt(items, i, NODE_SPLIT);
    }
    forall i | 1 <= i < Pow2(depth + 1) && Under(p, i) && i <= q / 2
      ensures StateAt(after, i, items0[i - 1])
    {
      assert StateAt(items, i, items0[i - 1]);
    }
    forall i | 1 <= i < Pow2(depth + 1) && !Under(i, c) && !Under(p, i)
      ensures StateAt(after, i, items0[i - 1])
    {
      assert StateAt(items, i, items0[i - 1]);
    }
    forall i | 1 <= i < Pow2(depth + 1) && Under(i, c)
      ensures StaleAt(after, i)
    {
      UnderLe(i, c);
      assert StaleAt(items, i);
    }
  }

  /** No ancestor of `q` lies strictly between `q / 2` and `q`. */
  lemma BetweenParent(q: nat, i: nat)
    requires q >= 1 && i > q / 2 && i <= q && (Under(i, q) || Under(q, i))
    ensures i == q
  {
    assert !Under(q / 2, i);
    if Under(i, q) {
      UnderLe(i, q);
    }
  }

  /** The marking stops at a node that is split already: the tree is canonical without `b`. */
  lemma SplitEnd(items: seq<TwoBit>, items0: seq<TwoBit>, live: set<nat>, depth: nat, b: nat, c: nat, q: nat)
    requires SplitUpTo(items, items0, live, depth, b, c, q)
             && (q == 0 || (InTree(depth, q) && items[q - 1] != NODE_FULL))
    ensures CanonOk(items, live - {b}, depth)
  {
    forall i | 1 <= i < Pow2(depth + 1)
      ensures NodeOk(items, live - {b}, depth, i)
    {
      if Under(i, c) {
        FreedBelow(items, items0, live, depth, b, c, q, i);
      } else if Under(c / 2, i) {
        FreedAbove(items, items0, live, depth, b, c, q, i);
      } else {
        FreedElsewhere(items, items0, live, depth, b, c, q, i);
      }
    }
  }

  lemma FreedBelow(items: seq<TwoBit>, items0: seq<TwoBit>, live: set<nat>, depth: nat, b: nat, c: nat, q: nat, i: nat)
    requires SplitUpTo(items, items0, live, depth, b, c, q) && 1 <= i < Pow2(depth + 1) && Under(i, c)
    ensures NodeOk(items, live - {b}, depth, i)
  {
    var rest := live - {b};
    assert StaleAt(items, i);
    assert forall x :: x in rest ==> !Under(x, c);
    if i != c {
      BelowFree(rest, c, i);
    } else {
      assert Under(c, c);
    }
  }

  lemma FreedAbove(items: seq<TwoBit>, items0: seq<TwoBit>, live: set<nat>, depth: nat, b: nat, c: nat, q: nat, i: nat)
    requires SplitUpTo(items, items0, live, depth, b, c, q)
             && (q == 0 || (InTree(depth, q) && items[q - 1] != NODE_FULL))
    requires 1 <= i < Pow2(depth + 1) && Under(c / 2, i)
    ensures NodeOk(items, live - {b}, depth, i)
  {
    var rest := live - {b};
    assert Under(c, c / 2);
    UnderTrans(c, c / 2, i);
    UnderTrans(b, c, i);
    UnderLe(c / 2, i);
    UnderLe(b, c);
    AboveLive(live, b, i);
    HasBelowUp(rest, c / 2, i);
    SplitAbove(items, items0, live, depth, b, c, q, i);
    RestNotCovered(live, depth, b, c, i);
    assert Antichain(rest);
    var x :| x in rest && Under(x, i);
    if x != i {
      UpVisible(rest, x, i);
    }
  }

  /** All proper ancestors of `c` are split when the marking stops. */
  lemma SplitAbove(items: seq<TwoBit>, items0: seq<TwoBit>, live: set<nat>, depth: nat, b: nat, c: nat, q: nat, i: nat)
    requires SplitUpTo(items, items0, live, depth, b, c, q)
             && (q == 0 || (InTree(depth, q) && items[q - 1] != NODE_FULL))
    requires 1 <= i < Pow2(depth + 1) && Under(c / 2, i) && Under(b, i) && b != i
    ensures items[i - 1] == NODE_SPLIT
  {
    if i > q {
      assert StateAt(items, i, NODE_SPLIT);
    } else {
      assert StateAt(items, i, items0[i - 1]);
      assert Under(q, q);
      assert StateAt(items, q, items0[q - 1]);
      UnderChain(c / 2, q, i);
      if Under(i, q) {
        UnderLe(i, q);
      }
      assert Under(q, i);
      assert Under(c, c / 2);
      UnderTrans(c, c / 2, q);
      UnderTrans(b, c, q);
      UnderLe(c / 2, q);
      UnderLe(b, c);
      AncestorState(items0, live, depth, b, q);
      AncestorState(items0, live, depth, b, i);
      HeightInTree(depth, q);
      HeightInTree(depth, i);
      UnderLevel(q, i);
      forall x | x in live
        ensures !Under(q, x)
      {
        if Under(q, x) {
          UnderTrans(b, q, x);
          UnderLe(q, x);
          AboveLive(live, b, x);
        }
      }
      NotCoveredAbove(live, q, i, Height(depth, q), Height(depth, i));
    }
  }

  lemma RestNotCovered(live: set<nat>, depth: nat, b: nat, c: nat, i: nat)
    requires LiveOk(live, depth) && b in live && InTree(depth, c) && Under(b, c) && Under(c, i) && InTree(depth, i)
    requires forall x :: x in live && Under(x, c) ==> x == b
    ensures !Covered(live - {b}, i, Height(depth, i))
  {
    var rest := live - {b};
    HeightInTree(depth, c);
    HeightInTree(depth, i);
    assert forall x :: x in rest ==> !Under(x, c);
    ApartNotCovered(rest, c, Height(depth, c));
    UnderLevel(c, i);
    forall x | x in rest
      ensures !Under(c, x)
    {
      if Under(c, x) {
        UnderTrans(b, c, x);
      }
    }
    NotCoveredAbove(rest, c, i, Height(depth, c), Height(depth, i));
  }

  lemma FreedElsewhere(items: seq<TwoBit>, items0: seq<TwoBit>, live: set<nat>, depth: nat, b: nat, c: nat, q: nat,
                       i: nat)
    requires SplitUpTo(items, items0, live, depth, b, c, q)
    requires 1 <= i < Pow2(depth + 1) && !Under(i, c) && !Under(c / 2, i)
    ensures NodeOk(items, live - {b}, depth, i)
  {
    var rest := live - {b};
    assert rest + {b} == live;
    assert NodeOk(items0, live, depth, i);
    assert StateAt(items, i, items0[i - 1]);
    if Under(b, i) {
      UnderChain(b, i, c);
    }
    CanonElsewhere(rest, depth, b, i);
    if i > 1 {
      HasBelowAdd(rest, b, i / 2);
      if Under(b, i / 2) {
        UnderChain(b, i / 2, c);
        assert !Under(i / 2, c);
        UnderLe(c, i / 2);
        HasBelowUp(rest, c / 2, i / 2);
        UnderLe(b, c);
      }
    }
  }
}
