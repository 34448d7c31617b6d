/** What the chunk metadata guarantees to the rest of the allocator. */
module ChunkTheorems {
  import opened TreeIndex
  import opened JumpList
  import opened ChunkSpec
  import opened ChunkTree
  import opened ChunkIndex

  // ---- One-time allocation ----------------------------------------------------------------

  /** The memory of a node is inside the chunk and aligned to its own size. */
  lemma RunAligned(key: nat, depth: nat, x: nat)
    requires InTree(depth, x)
    ensures key <= RunBase(key, depth, x)
    ensures RunBase(key, depth, x) + RunSize(depth, x) <= key + LEAF_SIZE * Pow2(depth)
    ensures (RunBase(key, depth, x) - key) % RunSize(depth, x) == 0
  {
    hide Pow2, Level, Under;
    RunInside(key, depth, x);
    DepthProduct(depth, x);
    Multiple(x, Pow2(Level(x)), Pow2(Height(depth, x)), Pow2(depth));
  }

  lemma DepthProduct(depth: nat, x: nat)
    requires InTree(depth, x)
    ensures Pow2(Level(x)) <= x && Pow2(depth) == Pow2(Level(x)) * Pow2(Height(depth, x))
  {
    HeightInTree(depth, x);
    Pow2Add(Level(x), Height(depth, x));
  }

  lemma Multiple(x: nat, lo: nat, p: nat, q: nat)
    requires p >= 1 && lo <= x && q == lo * p
    ensures (LEAF_SIZE * (x * p - q)) % (LEAF_SIZE * p) == 0
  {
    assert LEAF_SIZE * (x * p - q) == (x - lo) * (LEAF_SIZE * p) + 0;
    DivModUnique(LEAF_SIZE * (x * p - q), LEAF_SIZE * p, x - lo, 0);
  }

  /** Unrelated nodes have disjoint memory. */
  lemma UnrelatedDisjoint(key: nat, depth: nat, x: nat, y: nat)
    requires InTree(depth, x) && InTree(depth, y) && !Under(x, y) && !Under(y, x)
    ensures RunBase(key, depth, x) + RunSize(depth, x) <= RunBase(key, depth, y)
         || RunBase(key, depth, y) + RunSize(depth, y) <= RunBase(key, depth, x)
  {
    HeightInTree(depth, x);
    HeightInTree(depth, y);
    if Level(x) <= Level(y) {
      DeeperDisjoint(key, depth, x, y);
    } else {
      DeeperDisjoint(key, depth, y, x);
    }
  }

  lemma DeeperDisjoint(key: nat, depth: nat, x: nat, y: nat)
    requires InTree(depth, x) && InTree(depth, y) && !Under(y, x) && Level(x) <= Level(y) <= depth
    ensures RunBase(key, depth, x) + RunSize(depth, x) <= RunBase(key, depth, y)
         || RunBase(key, depth, y) + RunSize(depth, y) <= RunBase(key, depth, x)
  {
    hide Pow2, Level, Under;
    var d, h := Level(y) - Level(x), Height(depth, y);
    HeightInTree(depth, x);
    HeightInTree(depth, y);
    UnderInterval(y, x, d);
    Spans(x, y, d, h);
  }

  lemma Spans(x: nat, y: nat, d: nat, h: nat)
    requires !(x * Pow2(d) <= y < (x + 1) * Pow2(d))
    ensures y * Pow2(h) + Pow2(h) <= x * Pow2(d + h) || x * Pow2(d + h) + Pow2(d + h) <= y * Pow2(h)
  {
    Pow2Add(d, h);
    Scaled(x, y, Pow2(d), Pow2(h));
  }

  lemma Scaled(x: nat, y: nat, p: nat, q: nat)
    requires p >= 1 && q >= 1 && (y < x * p || (x + 1) * p <= y)
    ensures y * q + q <= x * (p * q) || x * (p * q) + p * q <= y * q
  {
    assert x * (p * q) == (x * p) * q && (x + 1) * p == x * p + p;
    if y < x * p {
      MulMonotone(y + 1, x * p, q);
      assert (y + 1) * q == y * q + q;
    } else {
      MulMonotone(x * p + p, y, q);
      assert (x * p + p) * q == (x * p) * q + p * q;
    }
  }

  /** Over its whole life a chunk never hands out the same memory twice. */
  lemma OneTimeAllocation(key: nat, depth: nat, handed: seq<Handed>, k: nat, m: nat)
    requires HandedOk(depth, handed) && k < |handed| && m < |handed| && k != m
    ensures InTree(depth, handed[k].node) && InTree(depth, handed[m].node)
    ensures var x, y := handed[k].node, handed[m].node;
            RunBase(key, depth, x) + RunSize(depth, x) <= RunBase(key, depth, y)
            || RunBase(key, depth, y) + RunSize(depth, y) <= RunBase(key, depth, x)
  {
    UnrelatedDisjoint(key, depth, handed[k].node, handed[m].node);
  }

  // ---- The index --------------------------------------------------------------------------

  /** The nodes handed out determine the index: the lists, and every entry of the three tables. */
  lemma IndexDetermined(nodes: set<nat>, depth: nat, x: Index, lists: seq<seq<nat>>, y: Index, lists': seq<seq<nat>>)
    requires IndexIs(depth, x, lists) && ListsAre(nodes, depth, lists)
    requires IndexIs(depth, y, lists') && ListsAre(nodes, depth, lists')
    ensures lists == lists' && x == y
  {
    forall l | 0 <= l <= depth
      ensures lists[l] == lists'[l]
    {
      assert LevelOk(x.jump, x.first, x.count, lists[l], l) && LevelOk(y.jump, y.first, y.count, lists'[l], l);
      if l > 0 {
        ListUnique(lists[l], lists'[l]);
      }
    }
    forall l | 0 <= l <= depth
      ensures x.first[l] == y.first[l] && x.count[l] == y.count[l]
    {
      assert LevelOk(x.jump, x.first, x.count, lists[l], l) && LevelOk(y.jump, y.first, y.count, lists[l], l);
    }
    forall k | 0 <= k < |x.jump|
      ensures x.jump[k] == y.jump[k]
    {
      var l := Level(k + 1);
      HeightInTree(depth, k + 1);
      assert LevelOk(x.jump, x.first, x.count, lists[l], l) && LevelOk(y.jump, y.first, y.count, lists[l], l);
      SameLinks(x.jump, y.jump, lists[l], Pow2(l), Pow2(l + 1), k + 1);
    }
  }

  lemma SameLinks(x: seq<JumpNode>, y: seq<JumpNode>, s: seq<nat>, lo: nat, hi: nat, i: nat)
    requires IsList(x, s, lo, hi) && IsList(y, s, lo, hi) && |x| == |y| && 1 <= lo <= i < hi && i <= |x|
    ensures x[i - 1] == y[i - 1]
  {
    if i in s {
      var k :| 0 <= k < |s| && s[k] == i;
      LinkedAt(x, s, k);
      LinkedAt(y, s, k);
    }
  }

  /** A level's list is empty exactly when no node of the level is available. */
  lemma EmptyIffNone(nodes: set<nat>, s: seq<nat>, l: nat)
    requires ListsAvailable(nodes, s, l) && Within(s, Pow2(l), Pow2(l + 1))
    ensures s == [] <==> forall i :: OnLevel(i, l) ==> !Available(nodes, i)
  {
    if s != [] {
      assert OnLevel(s[0], l) && s[0] in s;
    }
  }

  /** Distances, counts and first indexes never overflow their 16-bit fields (32-bit for the
      first indexes) in a tree of at most 15 levels below the root; a chunk has 11. */
  lemma NoOverflow(depth: nat, x: Index, lists: seq<seq<nat>>, l: nat, i: nat)
    requires IndexIs(depth, x, lists) && 1 <= depth <= 15 && l <= depth && OnLevel(i, l)
    ensures i <= |x.jump| && x.jump[i - 1].prev < 0x1_0000 && x.jump[i - 1].next < 0x1_0000
    ensures x.count[l] < 0x1_0000 && x.first[l] < 0x1_0000
  {
    IndexLevel(depth, x, lists, l);
    LevelInTree(depth, l);
    var s := lists[l];
    if s != [] {
      GapAtLeast(s, 0, |s| - 1);
      assert Pow2(l) <= s[0] && s[|s| - 1] < Pow2(l + 1);
    }
    if i in s {
      var k :| 0 <= k < |s| && s[k] == i;
      LinkedAt(x.jump, s, k);
    }
  }

  // ---- Release ----------------------------------------------------------------------------

  ghost predicate LeafReleased(released: set<nat>, leaf: nat) {
    exists x :: x in released && Under(leaf, x)
  }

  /** Every leaf below `i`, a node of height `h`, lies under a node in `released`. */
  ghost predicate LeavesReleased(released: set<nat>, i: nat, h: nat)
    requires i >= 1
  {
    forall leaf :: leaf >= 1 && Under(leaf, i) && Level(leaf) == Level(i) + h ==> LeafReleased(released, leaf)
  }

  /** A subtree is fully released exactly when every leaf of it lies under a released node. */
  lemma {:induction false} CoveredIffLeaves(released: set<nat>, i: nat, h: nat)
    requires i >= 1 && forall x :: x in released && Under(i, x) ==> x == i
    ensures Covered(released, i, h) <==> LeavesReleased(released, i, h)
    decreases h
  {
    hide LeavesReleased;
    if i in released {
      LeavesOfReleased(released, i, h);
    } else if h == 0 {
      LeafItself(released, i);
    } else {
      NoReleasedAbove(released, i, 2 * i);
      NoReleasedAbove(released, i, 2 * i + 1);
      CoveredIffLeaves(released, 2 * i, h - 1);
      CoveredIffLeaves(released, 2 * i + 1, h - 1);
      LeavesOfChildren(released, i, h);
    }
  }

  lemma LeavesOfReleased(released: set<nat>, i: nat, h: nat)
    requires i >= 1 && i in released
    ensures LeavesReleased(released, i, h)
  {
    forall leaf | leaf >= 1 && Under(leaf, i)
      ensures LeafReleased(released, leaf)
    {
      assert i in released && Under(leaf, i);
    }
  }

  lemma LeafItself(released: set<nat>, i: nat)
    requires i >= 1 && forall x :: x in released && Under(i, x) ==> x == i
    ensures LeavesReleased(released, i, 0) <==> i in released
  {
    assert Under(i, i);
    forall leaf | leaf >= 1 && Under(leaf, i) && Level(leaf) == Level(i)
      ensures leaf == i
    {
      UnderLevel(leaf, i);
    }
  }

  lemma LeavesOfChildren(released: set<nat>, i: nat, h: nat)
    requires i >= 1 && h > 0
    ensures LeavesReleased(released, i, h) <==>
            LeavesReleased(released, 2 * i, h - 1) && LeavesReleased(released, 2 * i + 1, h - 1)
  {
    ChildLevel(i);
    LeavesSplit(i, h);
  }

  lemma NoReleasedAbove(released: set<nat>, i: nat, c: nat)
    requires i >= 1 && i !in released && (c == 2 * i || c == 2 * i + 1)
    requires forall x :: x in released && Under(i, x) ==> x == i
    ensures forall x :: x in released && Under(c, x) ==> x == c
  {
    forall x | x in released && x != c
      ensures !Under(c, x)
    {
      assert x != i && c / 2 == i;
      assert !Under(i, x);
    }
  }

  /** The leaves below a node are those below its two children. */
  lemma LeavesSplit(i: nat, h: nat)
    requires i >= 1 && h > 0
    ensures forall leaf :: leaf >= 1 && Level(leaf) == Level(i) + h ==>
              (Under(leaf, i) <==> Under(leaf, 2 * i) || Under(leaf, 2 * i + 1))
  {
    forall leaf | leaf >= 1 && Level(leaf) == Level(i) + h
      ensures Under(leaf, i) <==> Under(leaf, 2 * i) || Under(leaf, 2 * i + 1)
    {
      ChildUnder(i);
      if Under(leaf, i) {
        assert leaf != i;
        UnderChild(leaf, i);
      } else if Under(leaf, 2 * i) {
        UnderTrans(leaf, 2 * i, i);
      } else if Under(leaf, 2 * i + 1) {
        UnderTrans(leaf, 2 * i + 1, i);
      }
    }
  }

  /** The whole chunk is reported as unmapped exactly when every leaf of it has been released. */
  lemma WholeReleased(handed: seq<Handed>, released: set<nat>, depth: nat)
    requires HandedOk(depth, handed) && released <= Nodes(handed)
    ensures Covered(released, 1, depth) <==>
            forall leaf :: OnLevel(leaf, depth) ==> LeafReleased(released, leaf)
  {
    HandedAntichain(depth, handed);
    forall x | x in released
      ensures !Under(1, x)
    {
      if Under(1, x) {
        UnderLe(1, x);
      }
    }
    CoveredIffLeaves(released, 1, depth);
    assert LeavesReleased(released, 1, depth) <==> Covered(released, 1, depth);
    forall leaf | leaf >= 1
      ensures Under(leaf, 1) && Level(leaf) == Level(1) + depth <==> OnLevel(leaf, depth)
    {
      UnderRoot(leaf);
      if OnLevel(leaf, depth) {
        LevelUnique(leaf, depth);
      }
    }
  }
}
