/** The buddy tree of a chunk: which node answers for an address, and what releasing does. */
module ChunkTree {
  import opened TreeIndex
  import opened PackedStates
  import opened JumpList
  import opened ChunkSpec

  // ---- Finding the run that starts at a leaf ----------------------------------------------

  /** The first leaf below node `x` is `leaf`. */
  ghost predicate StartsAt(depth: nat, x: nat, leaf: nat) {
    InTree(depth, x) && x * Pow2(Height(depth, x)) == leaf
  }

  lemma StartParent(depth: nat, i: nat, leaf: nat)
    requires StartsAt(depth, i, leaf) && i >= 2 && i % 2 == 0
    ensures StartsAt(depth, i / 2, leaf) && Height(depth, i / 2) == Height(depth, i) + 1
  {
    HeightInTree(depth, i);
    HeightInTree(depth, i / 2);
    Twice(i / 2, Pow2(Height(depth, i)));
  }

  lemma Twice(k: nat, p: nat)
    ensures (2 * k) * p == k * (2 * p) == 2 * (k * p)
  {
  }

  lemma SameStart(depth: nat, x: nat, y: nat, leaf: nat)
    requires StartsAt(depth, x, leaf) && StartsAt(depth, y, leaf) && Height(depth, x) == Height(depth, y)
    ensures x == y
  {
    Cancel(x, y, Pow2(Height(depth, x)));
  }

  lemma Cancel(a: nat, b: nat, p: nat)
    requires p >= 1 && a * p == b * p
    ensures a == b
  {
    assert (a + 1) * p == a * p + p && (b + 1) * p == b * p + p;
    if a < b {
      MulMonotone(a + 1, b, p);
    } else if b < a {
      MulMonotone(b + 1, a, p);
    }
  }

  /** A higher node with the same first leaf is reached by going up from left children only. */
  lemma StartAbove(depth: nat, x: nat, i: nat, leaf: nat)
    requires StartsAt(depth, x, leaf) && StartsAt(depth, i, leaf) && Height(depth, x) > Height(depth, i)
    ensures i >= 2 && i % 2 == 0 && Under(i, x)
  {
    HeightInTree(depth, x);
    HeightInTree(depth, i);
    var d := Height(depth, x) - Height(depth, i);
    HigherMultiple(x, i, d, Height(depth, i));
    UnderInterval(i, x, d);
  }

  lemma HigherMultiple(x: nat, i: nat, d: nat, h: nat)
    requires d >= 1 && x >= 1 && x * Pow2(d + h) == i * Pow2(h)
    ensures i >= 2 && i % 2 == 0 && x * Pow2(d) <= i < (x + 1) * Pow2(d)
  {
    Pow2Add(d, h);
    Assoc(x, Pow2(d), Pow2(h));
    Cancel(i, x * Pow2(d), Pow2(h));
    Twice(x, Pow2(d - 1));
    assert (x + 1) * Pow2(d) == x * Pow2(d) + Pow2(d);
    MulMonotone(1, x, Pow2(d));
  }

  lemma Assoc(a: nat, b: nat, c: nat)
    ensures a * (b * c) == (a * b) * c
  {
  }

  /** At or below a node in use nothing is released. */
  lemma UsedNotCovered(nodes: set<nat>, released: set<nat>, i: nat, h: nat, x: nat)
    requires Antichain(nodes) && released <= nodes && i >= 1 && x in nodes && x !in released && Under(i, x)
    ensures !Covered(released, i, h)
  {
    if Covered(released, i, h) {
      CoveredHasBelow(released, i, h);
      var y :| y in released && Under(y, i);
      UnderTrans(y, i, x);
    }
  }

  /** Every node in `live` whose first leaf is `leaf` has at least height `d`. */
  ghost predicate NoStartBelow(live: set<nat>, depth: nat, leaf: nat, d: nat) {
    forall x :: x in live && StartsAt(depth, x, leaf) ==> Height(depth, x) >= d
  }

  ghost predicate NoStart(live: set<nat>, depth: nat, leaf: nat) {
    forall x :: x in live ==> !StartsAt(depth, x, leaf)
  }

  /** Address `ptr` lies in the first leaf of the run at node `x`. */
  ghost predicate InFirstLeaf(key: nat, depth: nat, x: nat, ptr: nat) {
    InTree(depth, x) && RunBase(key, depth, x) <= ptr < RunBase(key, depth, x) + LEAF_SIZE
  }

  lemma LeafStart(depth: nat, leaf: nat)
    requires Pow2(depth) <= leaf < Pow2(depth + 1)
    ensures StartsAt(depth, leaf, leaf) && Height(depth, leaf) == 0
  {
    HeightInTree(depth, leaf);
  }

  /** The memory of every node lies inside the chunk. */
  lemma RunInside(key: nat, depth: nat, x: nat)
    requires InTree(depth, x)
    ensures key <= RunBase(key, depth, x)
    ensures RunBase(key, depth, x) + RunSize(depth, x) <= key + LEAF_SIZE * Pow2(depth)
  {
    SpanBounds(depth, x);
  }

  lemma SpanBounds(depth: nat, x: nat)
    requires InTree(depth, x)
    ensures Pow2(depth) <= x * Pow2(Height(depth, x))
    ensures x * Pow2(Height(depth, x)) + Pow2(Height(depth, x)) <= 2 * Pow2(depth)
  {
    HeightInTree(depth, x);
    var h := Height(depth, x);
    Pow2Add(Level(x), h);
    Pow2Add(Level(x) + 1, h);
    ScaleInterval(Pow2(Level(x)), x, Pow2(Level(x) + 1), Pow2(h));
  }

  /** The memory of a node is the left or the right half of its parent's. */
  lemma ParentMemory(key: nat, depth: nat, i: nat)
    requires InTree(depth, i) && i > 1
    ensures InTree(depth, i / 2) && Height(depth, i / 2) == Height(depth, i) + 1
    ensures RunSize(depth, i / 2) == 2 * RunSize(depth, i)
    ensures RunBase(key, depth, i / 2) == RunBase(key, depth, i) - (if i % 2 == 1 then RunSize(depth, i) else 0)
  {
    HeightInTree(depth, i);
    HeightInTree(depth, i / 2);
    var p := Pow2(Height(depth, i));
    Twice(i / 2, p);
    assert (2 * (i / 2) + 1) * p == (2 * (i / 2)) * p + p;
  }

  lemma FirstLeafIff(key: nat, depth: nat, x: nat, ptr: nat, leaf: nat)
    requires key <= ptr && leaf == Pow2(depth) + (ptr - key) / LEAF_SIZE
    ensures InFirstLeaf(key, depth, x, ptr) <==> StartsAt(depth, x, leaf)
  {
    if InTree(depth, x) {
      var m := x * Pow2(Height(depth, x)) - Pow2(depth);
      assert RunBase(key, depth, x) == key + LEAF_SIZE * m;
    }
  }

  /** A node that is not in use does not answer. */
  lemma NotUsedHere(items: seq<TwoBit>, nodes: set<nat>, released: set<nat>, depth: nat, i: nat, leaf: nat)
    requires StatesOk(items, nodes, released, depth) && StartsAt(depth, i, leaf)
    requires NoStartBelow(nodes - released, depth, leaf, Height(depth, i)) && items[i - 1] != NODE_USED
    ensures NoStartBelow(nodes - released, depth, leaf, Height(depth, i) + 1)
  {
    assert StateIs(items, nodes, released, depth, i);
    forall x | x in nodes - released && StartsAt(depth, x, leaf)
      ensures Height(depth, x) >= Height(depth, i) + 1
    {
      if Height(depth, x) == Height(depth, i) {
        SameStart(depth, x, i, leaf);
      }
    }
  }

  /** Above a right child, or the root, no run starts at the leaf. */
  lemma StartNowhere(live: set<nat>, depth: nat, i: nat, leaf: nat)
    requires StartsAt(depth, i, leaf) && NoStartBelow(live, depth, leaf, Height(depth, i) + 1) && i % 2 == 1
    ensures NoStart(live, depth, leaf)
  {
    forall x | x in live
      ensures !StartsAt(depth, x, leaf)
    {
      if StartsAt(depth, x, leaf) {
        StartAbove(depth, x, i, leaf);
      }
    }
  }

  /** Above an unmapped node no run is in use. */
  lemma UnmappedHere(items: seq<TwoBit>, nodes: set<nat>, released: set<nat>, depth: nat, i: nat, leaf: nat)
    requires StatesOk(items, nodes, released, depth) && Antichain(nodes) && released <= nodes
    requires StartsAt(depth, i, leaf) && NoStartBelow(nodes - released, depth, leaf, Height(depth, i) + 1)
    requires items[i - 1] == NODE_DEPLETED || items[i - 1] == NODE_UNMAPPED
    ensures NoStart(nodes - released, depth, leaf)
  {
    assert StateIs(items, nodes, released, depth, i);
    forall x | x in nodes - released
      ensures !StartsAt(depth, x, leaf)
    {
      if StartsAt(depth, x, leaf) {
        StartAbove(depth, x, i, leaf);
        UsedNotCovered(nodes, released, i, Height(depth, i), x);
      }
    }
  }

  /** At most one run in use starts at the leaf. */
  lemma OneStart(nodes: set<nat>, released: set<nat>, depth: nat, i: nat, leaf: nat, x: nat)
    requires Antichain(nodes) && i in nodes - released && StartsAt(depth, i, leaf)
    requires NoStartBelow(nodes - released, depth, leaf, Height(depth, i)) && x in nodes - released
             && StartsAt(depth, x, leaf)
    ensures x == i
  {
    if Height(depth, x) > Height(depth, i) {
      StartAbove(depth, x, i, leaf);
    } else {
      SameStart(depth, x, i, leaf);
    }
  }

  lemma SizeOf(depth: nat, i: nat)
    requires InTree(depth, i)
    ensures RunSize(depth, i) == LEAF_SIZE * Pow2(Height(depth, i))
    ensures Pow2(0) == 1
  {
  }

  lemma DoubleSize(h: nat)
    ensures LEAF_SIZE * Pow2(h + 1) == LEAF_SIZE * Pow2(h) * 2
  {
  }

  lemma StartInTree(items: seq<TwoBit>, nodes: set<nat>, released: set<nat>, depth: nat, i: nat, leaf: nat)
    requires StatesOk(items, nodes, released, depth) && StartsAt(depth, i, leaf)
    ensures InTree(depth, i) && 1 <= i <= |items|
    ensures NoStartBelow(nodes - released, depth, leaf, 0)
  {
  }

  lemma UsedIsLive(items: seq<TwoBit>, nodes: set<nat>, released: set<nat>, depth: nat, i: nat)
    requires StatesOk(items, nodes, released, depth) && InTree(depth, i) && 1 <= i <= |items|
             && items[i - 1] == NODE_USED
    ensures i in nodes - released
  {
    assert StateIs(items, nodes, released, depth, i);
  }

  lemma RunAtBlock(key: nat, depth: nat, x: nat, ptr: nat, leaf: nat)
    requires key <= ptr && leaf == Pow2(depth) + (ptr - key) / LEAF_SIZE && StartsAt(depth, x, leaf)
    ensures RunBase(key, depth, x) == key + (ptr - key) / LEAF_SIZE * LEAF_SIZE
    ensures Height(depth, x) == 0 ==> x == leaf
  {
  }

  // ---- Coalescing -------------------------------------------------------------------------

  /** Node at which marking the ancestors of `i` stops: the first whose sibling is not in `state`. */
  ghost function CoalesceTop(items: seq<TwoBit>, i: nat, state: TwoBit): nat
    requires 1 <= i && i + 1 <= |items|
    decreases i
  {
    if i > 1 && items[Sibling(i) - 1] == state then CoalesceTop(items[i / 2 - 1 := state], i / 2, state) else i
  }

  ghost function CoalesceItems(items: seq<TwoBit>, i: nat, state: TwoBit): seq<TwoBit>
    requires 1 <= i && i + 1 <= |items|
    decreases i
  {
    if i > 1 && items[Sibling(i) - 1] == state then CoalesceItems(items[i / 2 - 1 := state], i / 2, state) else items
  }

  lemma CoalesceUnfold(items: seq<TwoBit>, i: nat, state: TwoBit)
    requires 1 <= i && i + 1 <= |items|
    ensures i == 1 || items[Sibling(i) - 1] != state ==>
              CoalesceTop(items, i, state) == i && CoalesceItems(items, i, state) == items
    ensures i > 1 && items[Sibling(i) - 1] == state ==>
              && CoalesceTop(items, i, state) == CoalesceTop(items[i / 2 - 1 := state], i / 2, state)
              && CoalesceItems(items, i, state) == CoalesceItems(items[i / 2 - 1 := state], i / 2, state)
  {
  }

  /** Between calls the tree shows for each node whether it is in use or fully released. */
  ghost predicate StatesOk(items: seq<TwoBit>, nodes: set<nat>, released: set<nat>, depth: nat) {
    && Pow2(depth + 1) <= |items|
    && forall i :: 1 <= i < Pow2(depth + 1) ==> StateIs(items, nodes, released, depth, i)
  }

  ghost predicate StateIs(items: seq<TwoBit>, nodes: set<nat>, released: set<nat>, depth: nat, i: nat)
    requires 1 <= i < Pow2(depth + 1) <= |items|
  {
    items[i - 1] == StateOf(nodes, released, depth, i)
  }

  /** As StatesOk after releasing `x`, but the proper ancestors of `c` are not yet updated. */
  ghost predicate StatesUpTo(items: seq<TwoBit>, nodes: set<nat>, released: set<nat>, depth: nat, x: nat, c: nat) {
    && Pow2(depth + 1) <= |items|
    && (forall i :: 1 <= i < Pow2(depth + 1) && (i == c || !Under(c, i)) ==>
          StateIs(items, nodes, released + {x}, depth, i))
    && (forall i :: 1 <= i < Pow2(depth + 1) && i != c && Under(c, i) ==> StateIs(items, nodes, released, depth, i))
  }

  ghost predicate ReleaseOk(nodes: set<nat>, released: set<nat>, depth: nat, x: nat, c: nat) {
    && Antichain(nodes) && released <= nodes && x in nodes && x !in released
    && InTree(depth, c) && Under(x, c)
    && Covered(released + {x}, c, Height(depth, c))
    && forall y :: y in nodes ==> InTree(depth, y)
  }

  /** A node other than `x` on the path from `x` to the root is neither in use nor released. */
  lemma PathNode(nodes: set<nat>, released: set<nat>, depth: nat, x: nat, a: nat)
    requires Antichain(nodes) && x in nodes && Under(x, a) && a != x
    ensures a !in nodes
  {
  }

  /** One step up: the sibling is fully released as well, so the parent is. */
  lemma CoalesceStep(items: seq<TwoBit>, nodes: set<nat>, released: set<nat>, depth: nat, x: nat, c: nat)
    requires ReleaseOk(nodes, released, depth, x, c) && StatesUpTo(items, nodes, released, depth, x, c)
    requires c > 1 && items[Sibling(c) - 1] == NODE_UNMAPPED
    ensures ReleaseOk(nodes, released, depth, x, c / 2)
    ensures StatesUpTo(items[c / 2 - 1 := NODE_UNMAPPED], nodes, released, depth, x, c / 2)
  {
    hide Covered, Pow2, Antichain, StateOf, Level;
    var p := c / 2;
    ParentReleased(items, nodes, released, depth, x, c);
    var items' := items[p - 1 := NODE_UNMAPPED];
    forall i | 1 <= i < Pow2(depth + 1) && (i == p || !Under(p, i))
      ensures StateIs(items', nodes, released + {x}, depth, i)
    {
      if i != p {
        assert i == c || !Under(c, i);
        assert StateIs(items, nodes, released + {x}, depth, i);
      }
    }
    forall i | 1 <= i < Pow2(depth + 1) && i != p && Under(p, i)
      ensures StateIs(items', nodes, released, depth, i)
    {
      UnderLe(p, i);
      assert StateIs(items, nodes, released, depth, i);
    }
  }

  /** With both children released, the parent is released. */
  lemma ParentReleased(items: seq<TwoBit>, nodes: set<nat>, released: set<nat>, depth: nat, x: nat, c: nat)
    requires ReleaseOk(nodes, released, depth, x, c) && StatesUpTo(items, nodes, released, depth, x, c)
    requires c > 1 && items[Sibling(c) - 1] == NODE_UNMAPPED
    ensures ReleaseOk(nodes, released, depth, x, c / 2) && 1 <= c / 2 < Pow2(depth + 1) <= |items|
    ensures StateOf(nodes, released + {x}, depth, c / 2) == NODE_UNMAPPED
    ensures forall i :: i != c / 2 && !Under(c / 2, i) ==> i == c || !Under(c, i)
    ensures Under(c, c / 2)
    ensures forall i :: Under(c / 2, i) ==> i != c && Under(c, i)
  {
    hide Pow2, Level;
    var p := c / 2;
    SiblingShape(depth, c);
    HeightInTree(depth, c);
    Doubled(depth);
    LevelHalf(c);
    HeightInTree(depth, p);
    HeightInTree(depth, Sibling(c));
    assert StateIs(items, nodes, released + {x}, depth, Sibling(c));
    assert Under(c, p);
    UnderTrans(x, c, p);
    UnderLe(x, c);
    PathNode(nodes, released, depth, x, p);
    PathAbove(c);
  }

  lemma PathAbove(c: nat)
    requires c > 1
    ensures Under(c, c / 2)
    ensures forall i :: Under(c / 2, i) ==> i != c && Under(c, i)
    ensures forall i :: i != c / 2 && !Under(c / 2, i) ==> i == c || !Under(c, i)
  {
    forall i | Under(c / 2, i)
      ensures i != c && Under(c, i)
    {
      UnderLe(c / 2, i);
    }
  }

  /** The climb ends where the parent is not fully released; no ancestor changes then. */
  lemma CoalesceEnd(items: seq<TwoBit>, nodes: set<nat>, released: set<nat>, depth: nat, x: nat, c: nat)
    requires ReleaseOk(nodes, released, depth, x, c) && StatesUpTo(items, nodes, released, depth, x, c)
    requires c == 1 || items[Sibling(c) - 1] != NODE_UNMAPPED
    ensures StatesOk(items, nodes, released + {x}, depth)
    ensures c == 1 <==> Covered(released + {x}, 1, depth)
  {
    hide Covered, Level, Antichain;
    var r := released + {x};
    if c > 1 {
      var p := c / 2;
      ParentUncovered(items, nodes, released, depth, x, c);
      forall a | 1 <= a && Under(p, a)
        ensures InTree(depth, a) && !Covered(r, a, Height(depth, a)) && a !in nodes
      {
        AncestorUncovered(nodes, released, depth, x, p, a);
      }
      UnderRoot(p);
    }
    forall i | 1 <= i < Pow2(depth + 1) && i != c && Under(c, i)
      ensures StateIs(items, nodes, r, depth, i)
    {
      UnderLe(c, i);
      assert Under(c / 2, i);
      assert StateIs(items, nodes, released, depth, i);
      if Covered(released, i, Height(depth, i)) {
        CoveredMonotone(released, r, i, Height(depth, i));
      }
    }
    HeightInTree(depth, 1);
  }

  lemma ParentUncovered(items: seq<TwoBit>, nodes: set<nat>, released: set<nat>, depth: nat, x: nat, c: nat)
    requires ReleaseOk(nodes, released, depth, x, c) && StatesUpTo(items, nodes, released, depth, x, c)
    requires c > 1 && items[Sibling(c) - 1] != NODE_UNMAPPED
    ensures InTree(depth, c / 2) && !Covered(released + {x}, c / 2, Height(depth, c / 2)) && Under(x, c / 2)
            && x != c / 2
  {
    var r, p := released + {x}, c / 2;
    SiblingShape(depth, c);
    HeightInTree(depth, c);
    HeightInTree(depth, p);
    HeightInTree(depth, Sibling(c));
    assert Under(c, p);
    UnderTrans(x, c, p);
    UnderLe(x, c);
    PathNode(nodes, released, depth, x, p);
    assert StateIs(items, nodes, r, depth, Sibling(c));
    if Sibling(c) in nodes && Sibling(c) !in r {
      assert Under(Sibling(c), Sibling(c));
      UsedNotCovered(nodes, r, Sibling(c), Height(depth, Sibling(c)), Sibling(c));
    }
  }

  lemma AncestorUncovered(nodes: set<nat>, released: set<nat>, depth: nat, x: nat, p: nat, a: nat)
    requires Antichain(nodes) && released <= nodes && x in nodes && InTree(depth, p) && Under(x, p) && x != p
    requires !Covered(released + {x}, p, Height(depth, p)) && 1 <= a && Under(p, a)
    ensures InTree(depth, a) && !Covered(released + {x}, a, Height(depth, a)) && a !in nodes
  {
    UnderLe(p, a);
    UnderLe(x, p);
    HeightInTree(depth, p);
    HeightInTree(depth, a);
    UnderLevel(p, a);
    UnderTrans(x, p, a);
    PathNode(nodes, released, depth, x, a);
    forall y | y in released + {x} && Under(p, y) && Under(y, a)
      ensures y == p
    {
      UnderTrans(x, p, y);
      UnderLe(p, y);
      PathNode(nodes, released, depth, x, y);
    }
    NotCoveredAbove(released + {x}, p, a, Height(depth, p), Height(depth, a));
  }

  /** Coalescing after a release brings the whole tree up to date. */
  lemma {:induction false} CoalesceCorrect(items: seq<TwoBit>, nodes: set<nat>, released: set<nat>, depth: nat,
                                           x: nat, c: nat)
    requires ReleaseOk(nodes, released, depth, x, c) && StatesUpTo(items, nodes, released, depth, x, c)
    ensures StatesOk(CoalesceItems(items, c, NODE_UNMAPPED), nodes, released + {x}, depth)
    ensures CoalesceTop(items, c, NODE_UNMAPPED) == 1 <==> Covered(released + {x}, 1, depth)
    decreases c
  {
    if c > 1 && items[Sibling(c) - 1] == NODE_UNMAPPED {
      CoalesceStep(items, nodes, released, depth, x, c);
      CoalesceCorrect(items[c / 2 - 1 := NODE_UNMAPPED], nodes, released, depth, x, c / 2);
    } else {
      CoalesceEnd(items, nodes, released, depth, x, c);
    }
  }

  lemma NotHanded(nodes: set<nat>, idx: nat)
    requires Available(nodes, idx)
    ensures idx !in nodes
  {
    assert Under(idx, idx);
  }

  lemma ScaleInterval(lo: nat, x: nat, hi: nat, p: nat)
    requires lo <= x < hi && p >= 1
    ensures lo * p <= x * p && x * p + p <= hi * p
  {
    MulMonotone(lo, x, p);
    MulMonotone(x + 1, hi, p);
    assert (x + 1) * p == x * p + p;
  }

  /** Marking the node handed out as in use brings the buddy tree up to date. */
  lemma StatesAfterHandOut(items: seq<TwoBit>, items': seq<TwoBit>, nodes: set<nat>, released: set<nat>, depth: nat,
                           idx: nat)
    requires StatesOk(items, nodes, released, depth) && InTree(depth, idx) && released <= nodes && idx !in nodes
    requires items' == items[idx - 1 := NODE_USED]
    ensures StatesOk(items', nodes + {idx}, released, depth)
  {
    forall i | 1 <= i < Pow2(depth + 1)
      ensures StateIs(items', nodes + {idx}, released, depth, i)
    {
      assert StateIs(items, nodes, released, depth, i);
    }
  }

  /** The marks of all leaves agree with the history. */
  ghost predicate MarksAre(depth: nat, handed: seq<Handed>, marks: seq<nat>) {
    |marks| == Pow2(depth) && forall k :: 0 <= k < |marks| ==> MarkOf(handed, Pow2(depth) + k, marks[k])
  }

  /** Only the leaf handed out, if it is one, gets a new mark. */
  ghost predicate MarkedAs(marks: seq<nat>, marks': seq<nat>, depth: nat, h: Handed) {
    && |marks| == |marks'| == Pow2(depth)
    && (h.node >= Pow2(depth) ==> h.regSize == LEAF_SIZE || h.regSize < REG_MARK_BAD_VALUE)
    && forall k :: 0 <= k < |marks| ==>
         marks'[k] == if Pow2(depth) + k == h.node && h.regSize != LEAF_SIZE then h.regSize else marks[k]
  }

  lemma MarkedNothing(marks: seq<nat>, depth: nat, h: Handed)
    requires h.node < Pow2(depth) == |marks|
    ensures MarkedAs(marks, marks, depth, h)
  {
  }

  lemma MarksAfter(handed: seq<Handed>, h: Handed, depth: nat, marks: seq<nat>, marks': seq<nat>)
    requires HandedOk(depth, handed) && InTree(depth, h.node) && h.node !in Nodes(handed)
    requires MarksAre(depth, handed, marks) && MarkedAs(marks, marks', depth, h)
    ensures MarksAre(depth, handed + [h], marks')
  {
    hide Nodes, HandedOk, Pow2;
    forall k | 0 <= k < |marks'|
      ensures MarkOf(handed + [h], Pow2(depth) + k, marks'[k])
    {
      assert MarkOf(handed, Pow2(depth) + k, marks[k]);
      if Pow2(depth) + k == h.node {
        MarkNew(depth, handed, h, marks'[k]);
      } else {
        MarkKept(handed, h, Pow2(depth) + k, marks[k]);
      }
    }
  }

  /** What handing out an available node means for the history. */
  lemma HandOutFacts(depth: nat, handed: seq<Handed>, h: Handed, level: nat)
    requires HandedOk(depth, handed) && OnLevel(h.node, level) && 1 <= level <= depth
             && Available(Nodes(handed), h.node)
    ensures InTree(depth, h.node) && h.node !in Nodes(handed) && Nodes(handed + [h]) == Nodes(handed) + {h.node}
    ensures HandedOk(depth, handed + [h])
    ensures LeavesOf(depth, handed + [h]) == LeavesOf(depth, handed) + Pow2(depth - level)
    ensures h.node >= Pow2(depth) <==> level == depth
  {
    OnLevelInTree(depth, h.node, level);
    HeightInTree(depth, h.node);
    HandOut(depth, handed, h);
    NodesAdd(handed, h);
    NotHanded(Nodes(handed), h.node);
  }

  /** Releasing `x` finds no depleted sibling, and coalescing brings the tree up to date. */
  lemma ReleaseCorrect(items: seq<TwoBit>, nodes: set<nat>, released: set<nat>, depth: nat, x: nat)
    requires StatesOk(items, nodes, released, depth) && Antichain(nodes) && released <= nodes
    requires x in nodes && x !in released && forall y :: y in nodes ==> InTree(depth, y)
    ensures InTree(depth, x)
    ensures var depleted := items[x - 1 := NODE_DEPLETED];
            && CoalesceTop(depleted, x, NODE_DEPLETED) == x && CoalesceItems(depleted, x, NODE_DEPLETED) == depleted
    ensures var unmapped := items[x - 1 := NODE_DEPLETED][x - 1 := NODE_UNMAPPED];
            && StatesOk(CoalesceItems(unmapped, x, NODE_UNMAPPED), nodes, released + {x}, depth)
            && (CoalesceTop(unmapped, x, NODE_UNMAPPED) == 1 <==> Covered(released + {x}, 1, depth))
  {
    if x > 1 {
      SiblingShape(depth, x);
      assert StateIs(items, nodes, released, depth, Sibling(x));
    }
    var unmapped := items[x - 1 := NODE_DEPLETED][x - 1 := NODE_UNMAPPED];
    assert Under(x, x);
    ReleaseStart(items, unmapped, nodes, released, depth, x);
    CoalesceCorrect(unmapped, nodes, released, depth, x, x);
  }

  lemma ReleaseStart(items: seq<TwoBit>, unmapped: seq<TwoBit>, nodes: set<nat>, released: set<nat>, depth: nat, x: nat)
    requires StatesOk(items, nodes, released, depth) && x in nodes && InTree(depth, x)
    requires unmapped == items[x - 1 := NODE_UNMAPPED]
    ensures StatesUpTo(unmapped, nodes, released, depth, x, x)
  {
    forall i | 1 <= i < Pow2(depth + 1) && (i == x || !Under(x, i))
      ensures StateIs(unmapped, nodes, released + {x}, depth, i)
    {
      assert StateIs(items, nodes, released, depth, i);
      if i != x {
        CoveredElsewhere(released, x, i, Height(depth, i));
      }
    }
    forall i | 1 <= i < Pow2(depth + 1) && i != x && Under(x, i)
      ensures StateIs(unmapped, nodes, released, depth, i)
    {
      assert StateIs(items, nodes, released, depth, i);
    }
  }

  // ---- A fresh chunk ----------------------------------------------------------------------

  lemma {:induction false} NothingCovered(i: nat, h: nat)
    ensures !Covered({}, i, h)
    decreases h
  {
    if h > 0 {
      NothingCovered(2 * i, h - 1);
    }
  }

  lemma FreshTree(depth: nat, items: seq<TwoBit>)
    requires Pow2(depth + 1) <= |items| && forall k :: 0 <= k < |items| ==> items[k] == NODE_FREE
    ensures StatesOk(items, Nodes([]), {}, depth)
  {
    assert Nodes([]) == {};
    forall i | 1 <= i < Pow2(depth + 1)
      ensures StateIs(items, Nodes([]), {}, depth, i)
    {
      NothingCovered(i, Height(depth, i));
    }
  }

  lemma FreshMarks(depth: nat, marks: seq<nat>)
    requires forall k :: 0 <= k < |marks| ==> marks[k] == REG_MARK_BAD_VALUE
    requires |marks| == Pow2(depth)
    ensures MarksAre(depth, [], marks)
  {
  }

  /** The root is never handed out, so it is unmapped or free. */
  lemma RootState(items: seq<TwoBit>, nodes: set<nat>, released: set<nat>, depth: nat, handed: seq<Handed>)
    requires StatesOk(items, nodes, released, depth) && HandedOk(depth, handed) && nodes == Nodes(handed)
    ensures |items| >= 1 && (items[0] == NODE_UNMAPPED <==> Covered(released, 1, depth))
  {
    assert 1 < Pow2(depth + 1);
    HandedAntichain(depth, handed);
    HeightInTree(depth, 1);
    assert StateIs(items, nodes, released, depth, 1);
  }

  /** The packed tree has room for all nodes. */
  lemma TreeBytes(depth: nat)
    requires depth >= 1
    ensures Pow2(depth + 1) <= 4 * ((2 * (Pow2(depth + 1) - 1) + 7) / 8)
  {
    var q := Pow2(depth - 1);
    assert Pow2(depth + 1) == 4 * q;
    assert (2 * (4 * q - 1) + 7) / 8 == q;
  }

  lemma RunBaseIs(key: nat, depth: nat, idx: nat, level: nat)
    requires level <= depth && OnLevel(idx, level) && InTree(depth, idx)
    ensures RunBase(key, depth, idx) == key + (Leftmost(idx, depth - level) - Pow2(depth)) * LEAF_SIZE
  {
    LevelUnique(idx, level);
  }

  lemma OnLevelInTree(depth: nat, idx: nat, level: nat)
    requires OnLevel(idx, level) && level <= depth
    ensures InTree(depth, idx) && Level(idx) == level
  {
    LevelUnique(idx, level);
    Pow2Monotone(level + 1, depth + 1);
  }

  lemma LeftmostSelf(idx: nat)
    ensures Leftmost(idx, 0) == idx
  {
  }
}
