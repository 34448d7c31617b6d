/** The canonical form of the metadata allocator's buddy tree: the live blocks alone determine
    every node state the allocator relies on. */
module MetaTree {
  import opened TreeIndex
  import opened PackedStates

  const NODE_FULL: TwoBit := 0
  const NODE_SPLIT: TwoBit := 1
  const NODE_USED: TwoBit := 2
  const NODE_FREE: TwoBit := 3

  const BLOCK_SIZE: nat := 32

  /** Live blocks are nodes of the tree with disjoint memory. */
  ghost predicate LiveOk(live: set<nat>, depth: nat) {
    Antichain(live) && forall x :: x in live ==> InTree(depth, x)
  }

  /** Nodes below a free or a used node keep whatever they stored; all others are visible. */
  ghost predicate Visible(live: set<nat>, i: nat) {
    i == 1 || (i > 1 && HasBelow(live, i / 2) && i / 2 !in live)
  }

  ghost function Canon(live: set<nat>, depth: nat, i: nat): TwoBit
    requires InTree(depth, i)
  {
    if i in live then NODE_USED
    else if !HasBelow(live, i) then NODE_FREE
    else if Covered(live, i, Height(depth, i)) then NODE_FULL
    else NODE_SPLIT
  }

  /** A visible node has its canonical state; a stale one is never used or split. */
  ghost predicate NodeOk(items: seq<TwoBit>, live: set<nat>, depth: nat, i: nat)
    requires 1 <= i < Pow2(depth + 1) <= |items|
  {
    if Visible(live, i) then items[i - 1] == Canon(live, depth, i)
    else items[i - 1] == NODE_FREE || items[i - 1] == NODE_FULL
  }

  ghost predicate CanonOk(items: seq<TwoBit>, live: set<nat>, depth: nat) {
    && Pow2(depth + 1) <= |items|
    && forall i :: 1 <= i < Pow2(depth + 1) ==> NodeOk(items, live, depth, i)
  }

  // ---- HasBelow and Visible ---------------------------------------------------------------

  lemma HasBelowUp(live: set<nat>, i: nat, a: nat)
    requires HasBelow(live, i) && Under(i, a)
    ensures HasBelow(live, a)
  {
    var x :| x in live && Under(x, i);
    UnderTrans(x, i, a);
  }

  lemma LiveIsVisible(live: set<nat>, x: nat)
    requires Antichain(live) && x in live && x >= 1
    ensures Visible(live, x)
  {
    if x > 1 {
      assert Under(x, x / 2);
    }
  }

  /** Every ancestor of a visible node is visible and split or full. */
  lemma VisibleParent(live: set<nat>, i: nat)
    requires Antichain(live) && Visible(live, i) && i > 1
    ensures Visible(live, i / 2) && HasBelow(live, i / 2) && i / 2 !in live
  {
    var p := i / 2;
    var x :| x in live && Under(x, p);
    if p > 1 {
      assert Under(p, p / 2);
      HasBelowUp(live, p, p / 2);
      UnderTrans(x, p, p / 2);
      assert x != p / 2 by {
        UnderLe(x, p);
      }
    }
  }

  lemma {:induction false} AncestorsVisible(live: set<nat>, i: nat, a: nat)
    requires Antichain(live) && Visible(live, i) && 1 <= a && Under(i, a)
    ensures Visible(live, a) && (a != i ==> HasBelow(live, a) && a !in live)
    decreases i
  {
    if i != a {
      VisibleParent(live, i);
      AncestorsVisible(live, i / 2, a);
    }
  }

  /** A visible free node is apart from all live blocks. */
  lemma FreeIsApart(live: set<nat>, i: nat)
    requires Antichain(live) && 0 !in live && Visible(live, i) && i >= 1 && !HasBelow(live, i)
    ensures Apart(live, i)
  {
    assert Under(i, i);
    forall x | x in live
      ensures !Under(x, i) && !Under(i, x)
    {
      if Under(i, x) {
        AncestorsVisible(live, i, x);
      }
    }
  }

  /** Below a covered node nothing is apart from the live blocks. */
  lemma {:induction false} CoveredBlocks(live: set<nat>, i: nat, h: nat, j: nat)
    requires i >= 1 && Covered(live, i, h) && Under(j, i) && Level(j) <= Level(i) + h && j >= 1
    ensures !Apart(live, j)
    decreases h
  {
    if j == i {
      CoveredHasBelow(live, i, h);
    } else if i !in live {
      UnderChild(j, i);
      ChildLevel(i);
      if Under(j, 2 * i) {
        CoveredBlocks(live, 2 * i, h - 1, j);
      } else {
        CoveredBlocks(live, 2 * i + 1, h - 1, j);
      }
    }
  }

  lemma {:induction false} ApartNotCovered(live: set<nat>, i: nat, h: nat)
    requires i >= 1 && !HasBelow(live, i)
    ensures !Covered(live, i, h)
  {
    if Covered(live, i, h) {
      CoveredHasBelow(live, i, h);
    }
  }

  // ---- Memory accounting ------------------------------------------------------------------

  lemma {:induction false} LeavesBound(live: set<nat>, i: nat, h: nat)
    ensures LeavesIn(live, i, h) <= Pow2(h)
    ensures Covered(live, i, h) <==> LeavesIn(live, i, h) == Pow2(h)
    decreases h
  {
    if i !in live && h > 0 {
      LeavesBound(live, 2 * i, h - 1);
      LeavesBound(live, 2 * i + 1, h - 1);
    }
  }

  lemma {:induction false} LeavesElsewhere(live: set<nat>, x: nat, i: nat, h: nat)
    requires i >= 1 && !Under(x, i)
    ensures LeavesIn(live + {x}, i, h) == LeavesIn(live, i, h)
    decreases h
  {
    assert x != i;
    if h > 0 {
      ChildUnder(i);
      if Under(x, 2 * i) {
        UnderTrans(x, 2 * i, i);
      }
      if Under(x, 2 * i + 1) {
        UnderTrans(x, 2 * i + 1, i);
      }
      LeavesElsewhere(live, x, 2 * i, h - 1);
      LeavesElsewhere(live, x, 2 * i + 1, h - 1);
    }
  }

  lemma {:induction false} LeavesNone(live: set<nat>, i: nat, h: nat)
    requires i >= 1 && !HasBelow(live, i)
    ensures LeavesIn(live, i, h) == 0
    decreases h
  {
    assert Under(i, i);
    if h > 0 {
      ChildUnder(i);
      if HasBelow(live, 2 * i) {
        HasBelowUp(live, 2 * i, i);
      }
      if HasBelow(live, 2 * i + 1) {
        HasBelowUp(live, 2 * i + 1, i);
      }
      LeavesNone(live, 2 * i, h - 1);
      LeavesNone(live, 2 * i + 1, h - 1);
    }
  }

  lemma ApartNot(live: set<nat>, t: nat, i: nat)
    requires Apart(live, t) && Under(t, i) && t != i
    ensures i !in live + {t}
  {
  }

  /** A new block adds exactly its own leaves. */
  lemma {:induction false} LeavesAdd(live: set<nat>, t: nat, i: nat, h: nat, ht: nat)
    requires i >= 1 && Under(t, i) && Apart(live, t) && Level(t) + ht == Level(i) + h
    ensures LeavesIn(live + {t}, i, h) == LeavesIn(live, i, h) + Pow2(ht)
    decreases h
  {
    hide Level;
    if t == i {
      LeavesNone(live, i, h);
    } else {
      ApartNot(live, t, i);
      UnderLevel(t, i);
      UnderChild(t, i);
      ChildLevel(i);
      if Under(t, 2 * i) {
        LeavesAdd(live, t, 2 * i, h - 1, ht);
        LeavesElsewhere(live, t, 2 * i + 1, h - 1);
      } else {
        LeavesAdd(live, t, 2 * i + 1, h - 1, ht);
        LeavesElsewhere(live, t, 2 * i, h - 1);
      }
    }
  }

  /** A free block still fits into what the live blocks leave. */
  lemma FreeBlockFits(live: set<nat>, depth: nat, t: nat)
    requires InTree(depth, t) && Apart(live, t)
    ensures LeavesIn(live + {t}, 1, depth) == LeavesIn(live, 1, depth) + Pow2(Height(depth, t)) <= Pow2(depth)
  {
    UnderRoot(t);
    HeightInTree(depth, t);
    LeavesAdd(live, t, 1, depth, Height(depth, t));
    LeavesBound(live + {t}, 1, depth);
  }

  // ---- Handing out a block ----------------------------------------------------------------

  /** The tree just before the free node `t` is marked used: its ancestors are split, and all
      other nodes are as they have to be once `t` is live. */
  ghost predicate PendingOk(items: seq<TwoBit>, live: set<nat>, depth: nat, t: nat) {
    && Pow2(depth + 1) <= |items| && InTree(depth, t) && Apart(live, t) && items[t - 1] == NODE_FREE
    && (forall i :: 1 <= i < Pow2(depth + 1) && i != t && Under(t, i) ==> StateAt(items, i, NODE_SPLIT))
    && (forall i :: 1 <= i < Pow2(depth + 1) && !Under(t, i) ==> NodeOk(items, live + {t}, depth, i))
  }

  ghost predicate StateAt(items: seq<TwoBit>, i: nat, state: TwoBit)
    requires 1 <= i <= |items|
  {
    items[i - 1] == state
  }

  /** Nodes that are not above `t` do not notice that `t` becomes live, except that the children
      of its new ancestors become visible. */
  lemma CanonElsewhere(live: set<nat>, depth: nat, t: nat, i: nat)
    requires InTree(depth, i) && !Under(t, i)
    ensures Canon(live + {t}, depth, i) == Canon(live, depth, i)
    ensures HasBelow(live + {t}, i) == HasBelow(live, i)
  {
    CoveredElsewhere(live, t, i, Height(depth, i));
    assert Under(i, i);
    if HasBelow(live, i) {
      var x :| x in live && Under(x, i);
      assert x in live + {t};
    }
  }

  lemma HasBelowAdd(live: set<nat>, t: nat, i: nat)
    ensures HasBelow(live + {t}, i) <==> HasBelow(live, i) || Under(t, i)
  {
    if HasBelow(live, i) {
      var x :| x in live && Under(x, i);
      assert x in live + {t};
    }
    if Under(t, i) {
      assert t in live + {t};
    }
  }

  /** A visible free node is ready to be handed out. */
  lemma PendingFromCanon(items: seq<TwoBit>, live: set<nat>, depth: nat, t: nat)
    requires LiveOk(live, depth) && CanonOk(items, live, depth) && InTree(depth, t) && Visible(live, t)
    requires items[t - 1] == NODE_FREE
    ensures PendingOk(items, live, depth, t)
  {
    assert NodeOk(items, live, depth, t);
    FreeIsApart(live, t);
    HeightInTree(depth, t);
    forall i | 1 <= i < Pow2(depth + 1) && i != t && Under(t, i)
      ensures StateAt(items, i, NODE_SPLIT)
    {
      AncestorsVisible(live, t, i);
      assert NodeOk(items, live, depth, i);
      HeightInTree(depth, i);
      UnderLevel(t, i);
      if Covered(live, i, Height(depth, i)) {
        CoveredBlocks(live, i, Height(depth, i), t);
      }
    }
    forall i | 1 <= i < Pow2(depth + 1) && !Under(t, i)
      ensures NodeOk(items, live + {t}, depth, i)
    {
      assert NodeOk(items, live, depth, i);
      CanonElsewhere(live, depth, t, i);
      SameVisible(live, t, i);
    }
  }

  /** If `t` was visible, no other node becomes visible by its becoming live. */
  lemma SameVisible(live: set<nat>, t: nat, i: nat)
    requires Antichain(live) && Visible(live, t) && Apart(live, t) && t >= 1 && i >= 1 && !Under(t, i)
    ensures Visible(live + {t}, i) == Visible(live, i)
  {
    if i > 1 {
      HasBelowAdd(live, t, i / 2);
      if Under(t, i / 2) {
        if i / 2 == t {
          if HasBelow(live, t) {
            assert false;
          }
        } else {
          AncestorsVisible(live, t, i / 2);
        }
      }
    }
  }

  /** Splitting a pending node makes its left half pending. */
  lemma SplitPending(items: seq<TwoBit>, live: set<nat>, depth: nat, i: nat)
    requires PendingOk(items, live, depth, i) && Height(depth, i) > 0
    ensures InTree(depth, 2 * i) && InTree(depth, 2 * i + 1)
    ensures PendingOk(items[i - 1 := NODE_SPLIT][2 * i - 1 := NODE_FREE][2 * i := NODE_FREE], live, depth, 2 * i)
  {
    var l := 2 * i;
    ChildrenInTree(depth, i);
    ChildUnder(i);
    ApartBelow(live, l, i);
    var after := items[i - 1 := NODE_SPLIT][l - 1 := NODE_FREE][l := NODE_FREE];
    forall j | 1 <= j < Pow2(depth + 1) && j != l && Under(l, j)
      ensures StateAt(after, j, NODE_SPLIT)
    {
      assert Under(i, j);
      UnderLe(i, j);
      assert j != i ==> StateAt(items, j, NODE_SPLIT);
    }
    forall j | 1 <= j < Pow2(depth + 1) && !Under(l, j)
      ensures NodeOk(after, live + {l}, depth, j)
    {
      SplitElsewhere(items, live, depth, i, j);
    }
  }

  lemma ChildrenInTree(depth: nat, i: nat)
    requires InTree(depth, i) && Height(depth, i) > 0
    ensures InTree(depth, 2 * i) && InTree(depth, 2 * i + 1)
    ensures Height(depth, 2 * i) == Height(depth, 2 * i + 1) == Height(depth, i) - 1
  {
    HeightInTree(depth, i);
    ChildLevel(i);
    Pow2Monotone(Level(i) + 1, depth);
  }

  lemma SplitElsewhere(items: seq<TwoBit>, live: set<nat>, depth: nat, i: nat, j: nat)
    requires PendingOk(items, live, depth, i) && InTree(depth, 2 * i) && InTree(depth, 2 * i + 1)
    requires InTree(depth, j) && !Under(2 * i, j)
    ensures NodeOk(items[i - 1 := NODE_SPLIT][2 * i - 1 := NODE_FREE][2 * i := NODE_FREE], live + {2 * i}, depth, j)
  {
    var l := 2 * i;
    ChildUnder(i);
    CanonElsewhere(live, depth, l, j);
    HasBelowAdd(live, l, j / 2);
    assert Under(l, l) && Under(i, i) && j != i && j != l;
    if j == l + 1 {
      SiblingFree(live, i);
    } else {
      if Under(i, j) {
        UnderTrans(l, i, j);
      }
      assert NodeOk(items, live + {i}, depth, j);
      CanonElsewhere(live, depth, i, j);
      HasBelowAdd(live, i, j / 2);
      if j > 1 {
        SplitVisible(live, i, j);
      }
    }
  }

  lemma SiblingFree(live: set<nat>, i: nat)
    requires Apart(live, i) && i >= 1
    ensures !HasBelow(live, 2 * i + 1) && 2 * i + 1 !in live && i !in live
  {
    ChildUnder(i);
    assert Under(i, i) && Under(2 * i + 1, 2 * i + 1);
    if HasBelow(live, 2 * i + 1) {
      HasBelowUp(live, 2 * i + 1, i);
    }
  }

  lemma SplitVisible(live: set<nat>, i: nat, j: nat)
    requires Apart(live, i) && i >= 1 && j > 1 && !Under(2 * i, j) && !Under(i, j) && j != 2 * i + 1
    ensures Visible(live + {2 * i}, j) == Visible(live + {i}, j)
  {
    var p := j / 2;
    ChildUnder(i);
    HasBelowAdd(live, 2 * i, p);
    HasBelowAdd(live, i, p);
    assert p != i;
    assert Under(2 * i, p) <==> p == 2 * i || Under(i, p) by {
      if Under(i, p) {
        UnderLe(i, p);
      }
    }
    if p == 2 * i {
      if HasBelow(live, p) {
        HasBelowUp(live, p, i);
      }
      assert p in live + {2 * i};
    }
  }

  /** After marking: the path from `t` to `c` is fully covered, the nodes above are still split. */
  ghost predicate FullUpTo(items: seq<TwoBit>, live: set<nat>, depth: nat, t: nat, c: nat) {
    && Pow2(depth + 1) <= |items| && InTree(depth, t) && InTree(depth, c) && Under(t, c) && t in live
    && Covered(live, c, Height(depth, c))
    && (forall i :: 1 <= i < Pow2(depth + 1) && i != c && Under(c, i) ==> StateAt(items, i, NODE_SPLIT))
    && (forall i :: 1 <= i < Pow2(depth + 1) && (i == c || !Under(c, i)) ==> NodeOk(items, live, depth, i))
  }

  lemma FullStart(items: seq<TwoBit>, live: set<nat>, depth: nat, t: nat)
    requires PendingOk(items, live, depth, t)
    ensures FullUpTo(items[t - 1 := NODE_USED], live + {t}, depth, t, t)
  {
    var after := items[t - 1 := NODE_USED];
    assert Under(t, t);
    forall i | 1 <= i < Pow2(depth + 1) && i != t && Under(t, i)
      ensures StateAt(after, i, NODE_SPLIT)
    {
      assert StateAt(items, i, NODE_SPLIT);
    }
    forall i | 1 <= i < Pow2(depth + 1) && (i == t || !Under(t, i))
      ensures NodeOk(after, live + {t}, depth, i)
    {
      if i == t {
        PendingVisible(live, t);
      } else {
        assert NodeOk(items, live + {t}, depth, i);
      }
    }
  }

  lemma PendingVisible(live: set<nat>, t: nat)
    requires Apart(live, t) && t >= 1
    ensures Visible(live + {t}, t)
  {
    if t > 1 {
      assert Under(t, t / 2);
      HasBelowAdd(live, t, t / 2);
      assert t / 2 !in live;
    }
  }

  /** Above `t` no node is live. */
  lemma AboveLive(live: set<nat>, t: nat, a: nat)
    requires Antichain(live) && t in live && Under(t, a) && a != t
    ensures a !in live && HasBelow(live, a)
  {
  }

  lemma SiblingVisible(live: set<nat>, t: nat, c: nat)
    requires Antichain(live) && t in live && Under(t, c) && c > 1
    ensures Visible(live, Sibling(c)) && Sibling(c) >= 1
  {
    SiblingParent(c);
    assert Under(c, c / 2);
    UnderTrans(t, c, c / 2);
    UnderLe(t, c);
    AboveLive(live, t, c / 2);
  }

  /** The sibling is full or used as well: the parent is full. */
  lemma FullStep(items: seq<TwoBit>, live: set<nat>, depth: nat, t: nat, c: nat)
    requires LiveOk(live, depth) && FullUpTo(items, live, depth, t, c) && c > 1
    requires items[Sibling(c) - 1] == NODE_FULL || items[Sibling(c) - 1] == NODE_USED
    ensures FullUpTo(items[c / 2 - 1 := NODE_FULL], live, depth, t, c / 2)
  {
    hide Covered, Level, Antichain, Visible, HasBelow;
    var p, after := c / 2, items[c / 2 - 1 := NODE_FULL];
    ParentFull(items, live, depth, t, c);
    forall i | 1 <= i < Pow2(depth + 1) && i != p && Under(p, i)
      ensures StateAt(after, i, NODE_SPLIT)
    {
      UnderLe(p, i);
      assert StateAt(items, i, NODE_SPLIT);
    }
    forall i | 1 <= i < Pow2(depth + 1) && (i == p || !Under(p, i))
      ensures NodeOk(after, live, depth, i)
    {
      if i == p {
      } else {
        assert i == c || !Under(c, i);
        assert NodeOk(items, live, depth, i);
        SameNodeOk(items, after, live, depth, i);
      }
    }
  }

  /** With both children covered, the parent is covered. */
  lemma ParentFull(items: seq<TwoBit>, live: set<nat>, depth: nat, t: nat, c: nat)
    requires LiveOk(live, depth) && FullUpTo(items, live, depth, t, c) && c > 1
    requires items[Sibling(c) - 1] == NODE_FULL || items[Sibling(c) - 1] == NODE_USED
    ensures InTree(depth, c / 2) && Under(c, c / 2) && Under(t, c / 2) && t in live
    ensures Covered(live, c / 2, Height(depth, c / 2)) && c / 2 !in live && HasBelow(live, c / 2)
            && Visible(live, c / 2)
    ensures forall i :: Under(c / 2, i) ==> i != c && Under(c, i)
  {
    hide Pow2, Level;
    var p := c / 2;
    Doubled(depth);
    LevelHalf(c);
    SiblingShape(depth, c);
    SiblingVisible(live, t, c);
    HeightInTree(depth, c);
    HeightInTree(depth, p);
    HeightInTree(depth, Sibling(c));
    assert NodeOk(items, live, depth, Sibling(c));
    assert Covered(live, Sibling(c), Height(depth, Sibling(c)));
    assert Covered(live, p, Height(depth, p));
    assert Under(c, p);
    UnderTrans(t, c, p);
    UnderLe(t, c);
    AboveLive(live, t, p);
    UpVisible(live, t, p);
    forall i | Under(p, i)
      ensures i != c && Under(c, i)
    {
      UnderLe(p, i);
    }
  }

  lemma SameNodeOk(items: seq<TwoBit>, items': seq<TwoBit>, live: set<nat>, depth: nat, i: nat)
    requires InTree(depth, i) && Pow2(depth + 1) <= |items| == |items'| && items'[i - 1] == items[i - 1]
             && NodeOk(items, live, depth, i)
    ensures NodeOk(items', live, depth, i)
  {
  }

  lemma UpVisible(live: set<nat>, t: nat, a: nat)
    requires Antichain(live) && t in live && Under(t, a) && a >= 1 && t >= 1
    ensures Visible(live, a)
  {
    LiveIsVisible(live, t);
    AncestorsVisible(live, t, a);
  }

  /** The climb ends: no node above is fully covered. */
  lemma FullEnd(items: seq<TwoBit>, live: set<nat>, depth: nat, t: nat, c: nat)
    requires LiveOk(live, depth) && FullUpTo(items, live, depth, t, c)
    requires c == 1 || (items[Sibling(c) - 1] != NODE_FULL && items[Sibling(c) - 1] != NODE_USED)
    ensures CanonOk(items, live, depth)
  {
    if c > 1 {
      NotCoveredParent(items, live, depth, t, c);
    }
    forall i | 1 <= i < Pow2(depth + 1) && i != c && Under(c, i)
      ensures NodeOk(items, live, depth, i)
    {
      UnderLe(c, i);
      assert Under(c / 2, i);
      assert StateAt(items, i, NODE_SPLIT);
      AboveNotCovered(live, depth, t, c, i);
      UnderTrans(t, c, i);
      UpVisible(live, t, i);
      UnderLe(t, c);
      AboveLive(live, t, i);
    }
  }

  lemma NotCoveredParent(items: seq<TwoBit>, live: set<nat>, depth: nat, t: nat, c: nat)
    requires LiveOk(live, depth) && FullUpTo(items, live, depth, t, c) && c > 1
    requires items[Sibling(c) - 1] != NODE_FULL && items[Sibling(c) - 1] != NODE_USED
    ensures InTree(depth, c / 2) && !Covered(live, c / 2, Height(depth, c / 2))
  {
    hide Pow2, Level;
    var p := c / 2;
    Doubled(depth);
    LevelHalf(c);
    SiblingShape(depth, c);
    SiblingVisible(live, t, c);
    HeightInTree(depth, c);
    HeightInTree(depth, p);
    HeightInTree(depth, Sibling(c));
    assert NodeOk(items, live, depth, Sibling(c));
    if Covered(live, Sibling(c), Height(depth, Sibling(c))) {
      CoveredHasBelow(live, Sibling(c), Height(depth, Sibling(c)));
    }
    assert Under(c, p);
    UnderTrans(t, c, p);
    UnderLe(t, c);
    AboveLive(live, t, p);
  }

  /** If the parent of `c` is not covered, no node above `c` is. */
  lemma AboveNotCovered(live: set<nat>, depth: nat, t: nat, c: nat, a: nat)
    requires LiveOk(live, depth) && t in live && Under(t, c) && InTree(depth, c) && c > 1 && 1 <= a && Under(c / 2, a)
    requires InTree(depth, c / 2) && !Covered(live, c / 2, Height(depth, c / 2))
    ensures InTree(depth, a) && !Covered(live, a, Height(depth, a))
  {
    var p := c / 2;
    UnderLe(p, a);
    HeightInTree(depth, p);
    HeightInTree(depth, a);
    UnderLevel(p, a);
    assert Under(c, p);
    UnderTrans(t, c, p);
    UnderLe(t, c);
    forall x | x in live
      ensures !Under(p, x)
    {
      if Under(p, x) {
        UnderTrans(t, p, x);
        UnderLe(p, x);
        AboveLive(live, t, x);
      }
    }
    NotCoveredAbove(live, p, a, Height(depth, p), Height(depth, a));
  }
}
