/** The metadata of one chunk: a buddy tree of node states, and an index of the available nodes
    of every level. */
module Chunks {
  import opened TreeIndex
  import opened PackedStates
  import opened JumpList
  import opened ChunkSpec
  import opened ChunkTree
  import opened ChunkIndex
  import opened Utils

  /** The climb of a release through the buddy tree. */
  class BuddyCtx {
    var idx: nat
    var curSize: nat
    var depthToLeaf: nat
    var ptr: int

    constructor (i: nat, size: nat, d: nat, p: int)
      ensures idx == i && curSize == size && depthToLeaf == d && ptr == p
    {
      idx, curSize, depthToLeaf, ptr := i, size, d, p;
    }

    /** Size, height and address belong to the current node. */
    ghost predicate At(key: nat, depth: nat)
      reads this
    {
      && InTree(depth, idx) && depthToLeaf == Height(depth, idx)
      && curSize == RunSize(depth, idx) && ptr == RunBase(key, depth, idx)
    }

    lemma AtNode(key: nat, depth: nat)
      requires InTree(depth, idx) && depthToLeaf == Height(depth, idx)
      requires curSize == RunSize(depth, idx) && ptr == RunBase(key, depth, idx)
      ensures At(key, depth)
    {
    }

    method GoUp(ghost key: nat, ghost depth: nat)
      requires At(key, depth) && idx > 1
      modifies this
      ensures At(key, depth) && idx == old(idx) / 2
    {
      ParentMemory(key, depth, idx);
      ptr := if idx % 2 == 1 then ptr - curSize else ptr;
      idx := idx / 2;
      curSize := curSize * 2;
      depthToLeaf := depthToLeaf + 1;
    }
  }

  /** Outcome of a release: the program is stopped, or the memory of a run is unmapped; `whole`
      tells whether nothing of the chunk is left. */
  datatype Release = NoRun | Released(whole: bool, ptr: int, len: nat)

  datatype RunInfo = RunInfo(base: int, size: nat, regSize: nat)

  /** What the chunk tells about a run; the region size of a large run is its size. */
  ghost function InfoOf(key: nat, depth: nat, h: Handed): RunInfo
    requires InTree(depth, h.node)
  {
    RunInfo(RunBase(key, depth, h.node), RunSize(depth, h.node),
            if h.node >= Pow2(depth) && h.regSize != LEAF_SIZE then h.regSize else 0)
  }

  /** The mark of a leaf tells the region size of its run. */
  lemma InfoFromMark(key: nat, depth: nat, handed: seq<Handed>, k: nat, block: nat, marks: seq<nat>)
    requires MarksAre(depth, handed, marks) && k < |handed| && InTree(depth, handed[k].node) && block < |marks|
    requires Height(depth, handed[k].node) == 0 ==> handed[k].node == Pow2(depth) + block
    requires RunBase(key, depth, handed[k].node) == key + block * LEAF_SIZE
    ensures InfoOf(key, depth, handed[k]) ==
            RunInfo(key + block * LEAF_SIZE, RunSize(depth, handed[k].node),
                    if Height(depth, handed[k].node) == 0
                    && marks[block] != REG_MARK_BAD_VALUE then marks[block] else 0)
  {
    assert MarkOf(handed, Pow2(depth) + block, marks[block]);
    HeightInTree(depth, handed[k].node);
  }

  lemma ShiftedBase(key: nat, offset: nat, depth: nat, x: nat)
    requires InTree(depth, x)
    ensures RunBase(key + offset, depth, x) == RunBase(key, depth, x) + offset
  {
  }

  lemma BlockInLevel(depth: nat, rel: nat)
    requires rel < LEAF_SIZE * Pow2(depth)
    ensures rel / LEAF_SIZE < Pow2(depth) && Pow2(depth + 1) == 2 * Pow2(depth)
  {
  }

  class Chunk {
    const depth: nat
    const key: nat
    const count: array<nat>
    const first: array<nat>
    const jump: array<JumpNode>
    const regSizes: array<nat>
    const tree: StateArray

    ghost var handed: seq<Handed>
    ghost var released: set<nat>
    ghost var lists: seq<seq<nat>>

    ghost predicate Shape() {
      && 1 <= depth <= 15
      && count.Length == depth + 1 && first.Length == depth + 1
      && jump.Length == Pow2(depth + 1) - 1 && regSizes.Length == Pow2(depth)
      && count != first && count != regSizes && first != regSizes
      && jump as object !in {count as object, first, regSizes}
      && tree.mem as object !in {count as object, first, regSizes, jump}
    }

    /** The buddy tree, the index and the region sizes all agree with the history of the chunk. */
    ghost predicate Valid()
      reads this, tree, tree.mem, count, first, jump, regSizes
    {
      && IndexValid()
      && tree.Valid() && Pow2(depth + 1) <= |tree.items|
      && released <= Nodes(handed)
      && StatesOk(tree.items, Nodes(handed), released, depth)
    }

    ghost predicate IndexValid()
      reads this`handed, this`lists, count, first, jump, regSizes
    {
      && Shape() && HandedOk(depth, handed)
      && IndexIs(depth, Tables(), lists) && ListsAre(Nodes(handed), depth, lists)
      && MarksAre(depth, handed, regSizes[..])
      && |lists[depth]| + LeavesOf(depth, handed) == Pow2(depth)
    }

    lemma ShapeFacts()
      requires Shape()
      ensures 1 <= depth <= 15 && count.Length == depth + 1 && first.Length == depth + 1
      ensures jump.Length == Pow2(depth + 1) - 1 && regSizes.Length == Pow2(depth)
      ensures Tables() == Index(jump[..], first[..], count[..])
    {
    }

    lemma ValidFacts()
      requires Valid()
      ensures Shape() && IndexValid() && tree.Valid() && Pow2(depth + 1) <= |tree.items|
      ensures HandedOk(depth, handed) && released <= Nodes(handed) && Antichain(Nodes(handed))
      ensures forall y :: y in Nodes(handed) ==> InTree(depth, y)
      ensures IndexIs(depth, Tables(), lists) && ListsAre(Nodes(handed), depth, lists) && |lists| == depth + 1
      ensures StatesOk(tree.items, Nodes(handed), released, depth)
      ensures MarksAre(depth, handed, regSizes[..])
      ensures Live() == Nodes(handed) - released
    {
      HandedAntichain(depth, handed);
    }

    ghost function Tables(): Index
      reads count, first, jump
    {
      Index(jump[..], first[..], count[..])
    }

    /** Nodes of the runs in use. */
    ghost function Live(): set<nat>
      reads this`handed, this`released
    {
      Nodes(handed) - released
    }

    /** A fresh chunk over the memory at `heap`, with `levels` levels below the root. */
    constructor (heap: nat, levels: nat)
      requires 1 <= levels <= 15
      ensures Valid() && fresh(tree) && fresh(tree.mem) && fresh(count) && fresh(first) && fresh(jump)
              && fresh(regSizes)
      ensures key == heap && depth == levels && handed == [] && released == {}
    {
      key := heap;
      depth := levels;
      count := new nat[levels + 1];
      first := new nat[levels + 1];
      regSizes := new nat[Pow2(levels)](_ => REG_MARK_BAD_VALUE);
      jump := new JumpNode[Pow2(levels + 1) - 1];
      tree := new StateArray((2 * (Pow2(levels + 1) - 1) + 7) / 8);
      handed := [];
      released := {};
      lists := seq(levels + 1, l requires l >= 0 => if l == 0 then [] else FullLevel(l));
      new;
      TreeBytes(levels);
      InitIndex();
      hide IndexIs, ListsAre, StatesOk, MarksAre;
      FreshTree(depth, tree.items);
      FreshMarks(depth, regSizes[..]);
      assert |lists[depth]| + LeavesOf(depth, handed) == Pow2(depth);
    }

    /** Links all nodes of every level but the root's. */
    method InitIndex()
      requires Shape() && |lists| == depth + 1 && lists[0] == []
      requires forall l :: 1 <= l <= depth ==> lists[l] == FullLevel(l)
      modifies jump, first, count
      ensures IndexIs(depth, Tables(), lists) && ListsAre(Nodes([]), depth, lists)
    {
      forall i | 0 <= i < jump.Length {
        jump[i] := JumpNode(1, 1);
      }
      var l := 1;
      for i := 0 to depth + 1
        invariant l == U16(Pow2(i)) && (i <= depth ==> l == Pow2(i))
        invariant forall m :: 0 <= m < i ==> LevelFresh(jump[..], first[..], count[..], m)
        invariant forall k :: Pow2(i) - 1 <= k < jump.Length ==> jump[k] == JumpNode(1, 1)
      {
        InitLevel(i, l);
        l := U16(2 * l);
        if i < depth {
          LevelInTree(depth, i + 1);
        }
      }
      ghost var f0, c0 := first[..], count[..];
      assert LevelFresh(jump[..], f0, c0, 0) && Pow2(1) == 2;
      assert jump[0] == NO_LINKS;
      count[0] := 0;
      first[0] := 0;
      forall m | 1 <= m <= depth
        ensures LevelFresh(jump[..], first[..], count[..], m)
      {
        assert LevelFresh(jump[..], f0, c0, m);
      }
      FreshChunk(depth, jump[..], first[..], count[..], lists);
    }

    method InitLevel(i: nat, l: nat)
      requires Shape() && i <= depth && l == Pow2(i)
      requires forall m :: 0 <= m < i ==> LevelFresh(jump[..], first[..], count[..], m)
      requires forall k :: Pow2(i) - 1 <= k < jump.Length ==> jump[k] == JumpNode(1, 1)
      modifies jump, first, count
      ensures forall m :: 0 <= m <= i ==> LevelFresh(jump[..], first[..], count[..], m)
      ensures forall k :: Pow2(i + 1) - 1 <= k < jump.Length ==> jump[k] == JumpNode(1, 1)
    {
      ghost var j0, f0, c0 := jump[..], first[..], count[..];
      LevelInTree(depth, i);
      first[i] := l;
      jump[l - 1] := jump[l - 1].(prev := 0);
      jump[2 * l - 2] := jump[2 * l - 2].(next := 0);
      count[i] := l;
      forall m | 0 <= m < i
        ensures LevelFresh(jump[..], first[..], count[..], m)
      {
        Pow2Monotone(m + 1, i);
        assert LevelFresh(j0, f0, c0, m);
      }
    }

    /** Links the neighbours of one node to each other. */
    method SkipNode(node: JumpNode, idx: nat, level: nat)
      requires 1 <= idx <= jump.Length && node == jump[idx - 1] && level < first.Length
      requires node.prev < idx && idx + node.next <= jump.Length
      modifies jump, first
      ensures jump[..] == Relink(old(jump[..]), idx, idx)
      ensures first[..] == if node.prev == 0
              && node.next != 0 then old(first[..])[level := idx + node.next] else old(first[..])
    {
      ghost var before := jump[..];
      if node.next == 0 {
        jump[idx - node.prev - 1] := jump[idx - node.prev - 1].(next := 0);
        assert jump[..] == Relink(before, idx, idx);
      } else if node.prev == 0 {
        first[level] := idx + node.next;
        jump[idx + node.next - 1] := jump[idx + node.next - 1].(prev := 0);
        assert jump[..] == Relink(before, idx, idx);
      } else {
        var nextIdx, prevIdx := idx + node.next, idx - node.prev;
        jump[prevIdx - 1] := jump[prevIdx - 1].(next := U16(jump[prevIdx - 1].next + node.next));
        jump[nextIdx - 1] := jump[nextIdx - 1].(prev := U16(jump[nextIdx - 1].prev + node.prev));
        assert jump[..] == Relink(before, idx, idx);
      }
    }

    /** Unlinks one available node from the list of its level. */
    method UnlinkNode(node: JumpNode, idx: nat, level: nat)
      requires Shape() && IndexIs(depth, Tables(), lists) && level <= depth && idx in lists[level]
      requires 1 <= idx <= jump.Length && node == jump[idx - 1]
      modifies jump, first, count, this`lists
      ensures IndexIs(depth, Tables(), lists)
      ensures |lists| == |old(lists)| && lists == old(lists)[level := lists[level]]
      ensures forall i :: i in lists[level] <==> i in old(lists[level]) && i != idx
    {
      hide *;
      ShapeFacts();
      ghost var x := Tables();
      IndexLevel(depth, x, lists, level);
      ghost var t := UnlinkOne(node, idx, level, lists[level]);
      ShapeFacts();
      IndexStep(depth, x, lists, Tables(), level, t);
      lists := lists[level := t];
    }

    method UnlinkOne(node: JumpNode, idx: nat, level: nat, ghost s: seq<nat>) returns (ghost t: seq<nat>)
      requires Shape() && level <= depth && idx in s && LevelOk(jump[..], first[..], count[..], s, level)
      requires 1 <= idx <= jump.Length && node == jump[idx - 1]
      modifies jump, first, count
      ensures LevelOk(jump[..], first[..], count[..], t, level) && Only(old(Tables()), Tables(), level)
      ensures forall i :: i in t <==> i in s && i != idx
    {
      ghost var j0 := jump[..];
      LevelInTree(depth, level);
      t := UnlinkStep(j0, first[..], count[..], s, level, idx, idx);
      SkipNode(node, idx, level);
      jump[idx - 1] := NO_LINKS;
      ClearStep(j0, Relink(j0, idx, idx), jump[..], s, t, Pow2(level), Pow2(level + 1), idx, idx);
      count[level] := count[level] - 1;
      if count[level] == 0 {
        first[level] := 0;
      }
    }

    /** Unlinks `idx` and all its available ancestors. */
    method UnlinkAncestors(node: JumpNode, idx: nat, level: nat, ghost nodes: set<nat>)
      requires Shape() && IndexIs(depth, Tables(), lists) && ListsAre(nodes, depth, lists)
      requires 1 <= level <= depth && OnLevel(idx, level) && Available(nodes, idx)
      requires 1 <= idx <= jump.Length && node == jump[idx - 1]
      modifies jump, first, count, this`lists
      ensures IndexIs(depth, Tables(), lists) && Pruned(old(lists), lists, idx)
    {
      hide *;
      var currentNode, currentIdx: nat, currentLevel: nat := node, idx, level;
      ghost var lists0 := lists;
      ShapeFacts();
      ListedHere(nodes, depth, lists, level, idx);
      IndexWithin(depth, Tables(), lists);
      ClimbStart(idx, level, lists);
      while currentNode.next != 0 || currentNode.prev != 0 || first[currentLevel] == currentIdx
        invariant |lists| == depth + 1 && IndexIs(depth, Tables(), lists)
        invariant Climbed(idx, level, currentIdx, currentLevel, lists0, lists)
        invariant currentLevel <= level && OnLevel(currentIdx, currentLevel)
        invariant 1 <= currentIdx <= jump.Length && currentNode == jump[currentIdx - 1]
        decreases currentLevel
      {
        ShapeFacts();
        IndexTells(depth, Tables(), lists, currentLevel, currentIdx);
        ghost var lists1 := lists;
        UnlinkNode(currentNode, currentIdx, currentLevel);
        ClimbStep(idx, level, currentIdx, currentLevel, lists0, lists1, lists);

        currentLevel := currentLevel - 1;
        currentIdx := currentIdx / 2;
        currentNode := jump[currentIdx - 1];
      }
      ShapeFacts();
      IndexTells(depth, Tables(), lists, currentLevel, currentIdx);
      ClimbEnd(nodes, idx, level, currentIdx, currentLevel, lists0, lists);
    }

    /** Links the outer neighbours of the nodes `l..r` to each other; `span` is their number. */
    method SkipSpan(l: nat, r: nat, span: nat, level: nat)
      requires 1 <= l <= r <= jump.Length && span == r - l + 1 && level < first.Length
      requires jump[l - 1].prev < l && r + jump[r - 1].next <= jump.Length
      modifies jump, first
      ensures jump[..] == Relink(old(jump[..]), l, r)
      ensures first[..] == if old(jump[l - 1].prev) != 0 then old(first[..])
                           else if old(jump[r - 1].next) != 0 then old(first[..])[level := r + old(jump[r - 1].next)]
                           else old(first[..])[level := 0]
    {
      ghost var before := jump[..];
      var nodeLeft, nodeRight := jump[l - 1], jump[r - 1];
      if nodeLeft.prev == 0 && nodeRight.next == 0 {
        first[level] := 0;
      } else if nodeLeft.prev == 0 {
        first[level] := r + nodeRight.next;
        jump[r + nodeRight.next - 1] := jump[r + nodeRight.next - 1].(prev := 0);
        assert jump[..] == Relink(before, l, r);
      } else if nodeRight.next == 0 {
        jump[l - nodeLeft.prev - 1] := jump[l - nodeLeft.prev - 1].(next := 0);
        assert jump[..] == Relink(before, l, r);
      } else {
        var before', after' := l - nodeLeft.prev, r + nodeRight.next;
        jump[before' - 1] := jump[before' - 1].(next := U16(jump[before' - 1].next + (span - 1) + nodeRight.next));
        jump[after' - 1] := jump[after' - 1].(prev := U16(jump[after' - 1].prev + (span - 1) + nodeLeft.prev));
        assert jump[..] == Relink(before, l, r);
      }
    }

    /** Unlinks the listed nodes `l..r` from their level, without clearing them. */
    method UnlinkBlock(l: nat, r: nat, span: nat, level: nat, ghost s: seq<nat>) returns (ghost t: seq<nat>)
      requires Shape() && level <= depth && LevelOk(jump[..], first[..], count[..], s, level)
      requires 1 <= l <= r && span == r - l + 1 && forall i :: l <= i <= r ==> i in s
      modifies jump, first, count
      ensures LevelDirty(jump[..], first[..], count[..], t, level, l, r)
      ensures Only(old(Tables()), Tables(), level)
      ensures forall i :: i in t <==> i in s && !(l <= i <= r)
    {
      LevelInTree(depth, level);
      t := UnlinkStep(jump[..], first[..], count[..], s, level, l, r);
      SkipSpan(l, r, span, level);
      count[level] := count[level] - span;
    }

    /** Unlinks the nodes below `idx` on one level; all of them are listed. */
    method UnlinkSpan(l: nat, r: nat, span: nat, level: nat, ghost idx: nat, ghost top: nat)
      requires Shape() && top < level <= depth && DirtyIs(depth, Tables(), lists, idx, top, top + 1, level)
      requires 1 <= l <= r && span == r - l + 1
      requires l == Leftmost(idx, level - top) && r == Rightmost(idx, level - top)
      requires forall i :: l <= i <= r ==> i in lists[level]
      modifies jump, first, count, this`lists
      ensures DirtyIs(depth, Tables(), lists, idx, top, top + 1, level + 1)
      ensures |lists| == depth + 1 && lists == old(lists)[level := lists[level]]
      ensures NoDescendants(old(lists[level]), lists[level], idx, level - top)
    {
      ghost var x := Tables();
      ghost var t := UnlinkBlock(l, r, span, level, lists[level]);
      assert NoDescendants(lists[level], t, idx, level - top);
      hide LevelOk, LevelDirty, Leftmost, Rightmost, Only, NoDescendants;
      DirtyStep(depth, x, lists, Tables(), idx, top, level, t);
      lists := lists[level := t];
    }

    /** Clears the nodes below `idx` on one level. */
    method PurgeLevel(start: nat, span: nat, level: nat, ghost idx: nat, ghost top: nat)
      requires Shape() && top < level <= depth && DirtyIs(depth, Tables(), lists, idx, top, level, depth + 1)
      requires start == Leftmost(idx, level - top) && span == Pow2(level - top)
      requires OnLevel(start, level) && OnLevel(Rightmost(idx, level - top), level)
      modifies jump
      ensures DirtyIs(depth, Tables(), lists, idx, top, level + 1, depth + 1)
    {
      ghost var x := Tables();
      assert LevelDirty(x.jump, x.first, x.count, lists[level], level, start, start + span - 1);
      LevelInTree(depth, level);
      forall k | start - 1 <= k < start - 1 + span {
        jump[k] := NO_LINKS;
      }
      assert Only(x, Tables(), level);
      hide DirtyIs, Only;
      PurgeStep(x.jump, x.first, x.count, jump[..], lists[level], level, start, start + span - 1);
      PurgeAll(depth, x, lists, Tables(), idx, top, level);
    }

    /** Unlinks the whole subtree below `idx`, level by level. */
    method UnlinkSubtree(idx: nat, level: nat)
      requires Shape() && IndexIs(depth, Tables(), lists) && level < depth && OnLevel(idx, level)
      requires SpansListed(depth, idx, level, lists)
      modifies jump, first, count, this`lists
      ensures DirtyIs(depth, Tables(), lists, idx, level, level + 1, depth + 1)
      ensures Cut(old(lists), lists, idx, level, depth + 1)
    {
      hide *;
      var leftIdx, rightIdx, currentLevelNodesSpan := 2 * idx, 2 * idx + 1, 2;
      var currentLevel := level + 1;
      ghost var lists0 := lists;
      DirtyStart(depth, Tables(), lists, idx, level);
      CutStart(lists, idx, level);
      FirstSpan(idx);
      while currentLevel <= depth
        invariant level < currentLevel <= depth + 1
        invariant leftIdx == Leftmost(idx, currentLevel - level) && rightIdx == Rightmost(idx, currentLevel - level)
        invariant currentLevelNodesSpan == Pow2(currentLevel - level)
        invariant DirtyIs(depth, Tables(), lists, idx, level, level + 1, currentLevel)
        invariant Cut(lists0, lists, idx, level, currentLevel)
      {
        SpanOnLevel(idx, level, currentLevel);
        SpanFacts(depth, idx, level, lists0, lists, currentLevel);
        ghost var lists1 := lists;
        UnlinkSpan(leftIdx, rightIdx, currentLevelNodesSpan, currentLevel, idx, level);
        CutStep(lists0, lists1, idx, level, currentLevel, lists[currentLevel]);
        NextSpan(idx, currentLevel - level);
        leftIdx := 2 * leftIdx;
        rightIdx := 2 * rightIdx + 1;
        currentLevel := currentLevel + 1;
        currentLevelNodesSpan := 2 * currentLevelNodesSpan;
      }
    }

    /** Clears the whole subtree below `idx`, level by level. */
    method PurgeSubtree(idx: nat, level: nat)
      requires Shape() && level < depth && OnLevel(idx, level)
      requires DirtyIs(depth, Tables(), lists, idx, level, level + 1, depth + 1)
      modifies jump
      ensures IndexIs(depth, Tables(), lists)
    {
      hide *;
      var startClearIdx, currentLevelNodesSpan, currentLevel := 2 * idx, 2, level + 1;
      FirstSpan(idx);
      while currentLevel <= depth
        invariant level < currentLevel <= depth + 1
        invariant startClearIdx == Leftmost(idx, currentLevel - level)
                  && currentLevelNodesSpan == Pow2(currentLevel - level)
        invariant DirtyIs(depth, Tables(), lists, idx, level, currentLevel, depth + 1)
      {
        SpanOnLevel(idx, level, currentLevel);
        PurgeLevel(startClearIdx, currentLevelNodesSpan, currentLevel, idx, level);
        NextSpan(idx, currentLevel - level);
        currentLevel := currentLevel + 1;
        currentLevelNodesSpan := 2 * currentLevelNodesSpan;
        startClearIdx := 2 * startClearIdx;
      }
      DirtyEnd(depth, Tables(), lists, idx, level);
    }

    /** Makes `idx` unavailable, together with all its ancestors and descendants. */
    method UnlinkFamily(node: JumpNode, idx: nat, level: nat, ghost nodes: set<nat>)
      requires Shape() && IndexIs(depth, Tables(), lists) && ListsAre(nodes, depth, lists)
      requires 1 <= level <= depth && OnLevel(idx, level) && Available(nodes, idx)
      requires 1 <= idx <= jump.Length && node == jump[idx - 1]
      modifies jump, first, count, this`lists
      ensures |lists| == |old(lists)| == depth + 1
      ensures IndexIs(depth, Tables(), lists) && ListsAre(nodes + {idx}, depth, lists)
      ensures |lists[depth]| + Pow2(depth - level) == |old(lists)[depth]|
    {
      hide *;
      ShapeFacts();
      ghost var lists0, x0 := lists, Tables();
      LeafIsLast(depth, idx, level);
      UnlinkAncestors(node, idx, level, nodes);
      ghost var lists1 := lists;
      LastLevel(depth, Tables(), lists);
      if idx < Pow2(depth) {
        SubtreeListed(nodes, depth, idx, level, lists0, lists1);
        UnlinkSubtree(idx, level);
        PurgeSubtree(idx, level);
      } else {
      }
      AllListsAfter(nodes, depth, idx, level, lists0, lists1, lists);
      LastLevel(depth, x0, lists0);
      LastLevel(depth, Tables(), lists);
      CountAfter(nodes, depth, idx, level, lists0, lists1, lists);
    }

    /** Records the region size of a run that spans one leaf. */
    method MarkLeaf(idx: nat, regSize: nat)
      requires Shape() && Pow2(depth) <= idx < Pow2(depth + 1)
      requires regSize != LEAF_SIZE ==> regSize < REG_MARK_BAD_VALUE
      modifies regSizes
      ensures MarkedAs(old(regSizes[..]), regSizes[..], depth, Handed(idx, regSize))
    {
      if regSize != LEAF_SIZE {
        regSizes[idx - Pow2(depth)] := U16(regSize);
      }
    }

    /** Brings all tables up to date for handing out the available node `idx`. */
    method TakeNode(node: JumpNode, idx: nat, level: nat, regSize: nat)
      requires Valid() && 1 <= level <= depth && OnLevel(idx, level) && Available(Nodes(handed), idx)
      requires 1 <= idx <= jump.Length && node == jump[idx - 1]
      requires regSize != LEAF_SIZE && level == depth ==> regSize < REG_MARK_BAD_VALUE
      modifies jump, first, count, regSizes, tree`items, tree.mem, this`lists, this`handed
      ensures Valid() && handed == old(handed) + [Handed(idx, regSize)]
    {
      ghost var h, nodes, marks := Handed(idx, regSize), Nodes(handed), regSizes[..];
      assert Shape() && IndexValid();
      HandOutFacts(depth, handed, h, level);
      hide HandedOk, IndexIs, ListsAre, MarksAre, MarkedAs, StatesOk, Available, LeavesOf, OnLevel;
      UnlinkFamily(node, idx, level, nodes);
      tree.Set(idx - 1, NODE_USED);
      StatesAfterHandOut(old(tree.items), tree.items, nodes, released, depth, idx);
      if idx >= Pow2(depth) {
        MarkLeaf(idx, regSize);
      } else {
        MarkedNothing(marks, depth, h);
      }
      MarksAfter(handed, h, depth, marks, regSizes[..]);
      handed := handed + [h];
    }

    /** Hands out the available node `idx` and returns the address of its memory. */
    method AllocateWithNode(node: JumpNode, idx: nat, level: nat, regSize: nat) returns (ptr: nat)
      requires Valid() && 1 <= level <= depth && OnLevel(idx, level) && Available(Nodes(handed), idx)
      requires 1 <= idx <= jump.Length && node == jump[idx - 1]
      requires regSize != LEAF_SIZE && level == depth ==> regSize < REG_MARK_BAD_VALUE
      modifies jump, first, count, regSizes, tree`items, tree.mem, this`lists, this`handed
      ensures Valid() && handed == old(handed) + [Handed(idx, regSize)]
      ensures InTree(depth, idx) && ptr == RunBase(key, depth, idx)
    {
      hide Valid, IndexValid, Shape, HandedOk, Available, OnLevel, Pow2, RunBase, Level, Leftmost, Nodes;
      ValidFacts();
      ShapeFacts();
      LevelInTree(depth, level);
      OnLevelInTree(depth, idx, level);
      RunBaseIs(key, depth, idx, level);
      LeafIsLast(depth, idx, level);
      TakeNode(node, idx, level, regSize);
      if idx >= Pow2(depth) {
        ptr := key + (idx - Pow2(level)) * LEAF_SIZE;
        LeftmostSelf(idx);
      } else {
        SpanOnLevel(idx, level, depth);
        var offset := Leftmost(idx, depth - level) - Pow2(depth);
        ptr := key + offset * LEAF_SIZE;
      }
    }

    /** Draws a few nodes of the level at random, hoping to hit an available one. */
    method ProbeNodes(level: nat, draws: seq<nat>, ghost s: seq<nat>) returns (hit: Option<nat>)
      requires Shape() && level <= depth && LevelOk(jump[..], first[..], count[..], s, level)
      requires s != [] && |draws| == RANDOM_LOOKUP_TRIES + 1
      ensures hit.Some? ==> hit.value == Probe(s, level, draws, 0) && hit.value in s
      ensures hit.None? ==> Probe(s, level, draws, 0) == s[draws[RANDOM_LOOKUP_TRIES] % |s|]
    {
      hide *;
      ShapeFacts();
      LevelInTree(depth, level);
      var allNodes := Pow2(level);
      assert Pow2(level + 1) <= jump.Length + 1;
      for i := 0 to RANDOM_LOOKUP_TRIES
        invariant Probe(s, level, draws, 0) == Probe(s, level, draws, i)
      {
        var idx := allNodes + draws[i] % allNodes;
        ProbeStep(s, level, draws, i);
        LevelTells(jump[..], first[..], count[..], s, level, idx);
        var node := jump[idx - 1];
        if node.prev != 0 || node.next != 0 {
          return Some(idx);
        }
      }
      ProbeLast(s, level, draws);
      hit := None;
    }

    /** Walks `steps` nodes along the list of the level. */
    method WalkNodes(level: nat, steps: nat, ghost s: seq<nat>) returns (idx: nat)
      requires Shape() && level <= depth && LevelOk(jump[..], first[..], count[..], s, level) && steps < |s|
      ensures idx == s[steps]
    {
      WalkStep(jump[..], first[..], count[..], s, level, 0);
      var randIdx := steps;
      idx := first[level];
      var node := jump[idx - 1];
      while randIdx > 0
        invariant 0 <= randIdx <= steps && idx == s[steps - randIdx]
        invariant 1 <= idx <= jump.Length && node == jump[idx - 1]
      {
        WalkStep(jump[..], first[..], count[..], s, level, steps - randIdx);
        WalkStep(jump[..], first[..], count[..], s, level, steps - randIdx + 1);
        randIdx := randIdx - 1;
        idx := idx + node.next;
        node := jump[idx - 1];
      }
    }

    /** Chooses an available node of the level, at random. */
    method ChooseNode(level: nat, draws: seq<nat>) returns (idx: nat)
      requires Shape() && IndexIs(depth, Tables(), lists) && level <= depth && lists[level] != []
               && |draws| == RANDOM_LOOKUP_TRIES + 1
      ensures idx == Pick(lists[level], level, draws) && idx in lists[level]
    {
      var availNodes, allNodes := count[level], Pow2(level);
      ghost var s := lists[level];
      IndexLevel(depth, Tables(), lists, level);
      var randIdx := draws[0] % availNodes;
      if availNodes * 100 / allNodes > RANDOM_LOOKUP_TRESHOLD_PERCENTAGE {
        var hit := ProbeNodes(level, draws, s);
        if hit.Some? {
          return hit.value;
        }
        randIdx := draws[RANDOM_LOOKUP_TRIES] % availNodes;
      }
      idx := WalkNodes(level, randIdx, s);
    }

    /** Hands out a randomly chosen available node that spans `runSize` bytes. */
    method AllocateRun(runSize: nat, regSize: nat, draws: seq<nat>) returns (ptr: Option<nat>)
      requires Valid() && LEAF_SIZE <= runSize <= LEAF_SIZE * Pow2(depth)
      requires |draws| == RANDOM_LOOKUP_TRIES + 1
      requires regSize != LEAF_SIZE && runSize < 2 * LEAF_SIZE ==> regSize < REG_MARK_BAD_VALUE
      modifies jump, first, count, regSizes, tree`items, tree.mem, this`lists, this`handed
      ensures Valid()
      ensures 0 <= RunLevel(depth, runSize) <= depth
      ensures var s := old(lists)[RunLevel(depth, runSize)];
              if s == [] then ptr == None && handed == old(handed)
              else
                var idx := Pick(s, RunLevel(depth, runSize), draws);
                InTree(depth, idx) && ptr == Some(RunBase(key, depth, idx))
                && handed == old(handed) + [Handed(idx, regSize)]
    {
      hide Valid, IndexValid, Shape, HandedOk, IndexIs, ListsAre, Available, Pick, RunBase, Level, Pow2;
      ValidFacts();
      ShapeFacts();
      RunLevelInTree(depth, runSize);
      var shift := Ctz(runSize / LEAF_SIZE);
      var level: nat := depth - shift;
      IndexLevel(depth, Tables(), lists, level);
      if count[level] == 0 {
        return None;
      }
      var idx := ChooseNode(level, draws);
      ListedNode(depth, Tables(), Nodes(handed), lists, level, idx);
      var p := AllocateWithNode(jump[idx - 1], idx, level, regSize);
      ptr := Some(p);
    }

    /** Marks the ancestors of the fully released node of `ctx`, as far as they are. The address of the
        node is counted from `base`, which is that of the chunk unless the release started inside a leaf. */
    method CoalesceUnmappedNodes(ctx: BuddyCtx, ghost base: nat)
      requires tree.Valid() && ctx.At(base, depth) && Pow2(depth + 1) <= |tree.items|
      modifies ctx, tree`items, tree.mem
      ensures tree.Valid() && tree.items == CoalesceItems(old(tree.items), old(ctx.idx), NODE_UNMAPPED)
      ensures ctx.idx == CoalesceTop(old(tree.items), old(ctx.idx), NODE_UNMAPPED)
    {
      hide Pow2, RunBase, RunSize, Height, CoalesceItems, CoalesceTop;
      while ctx.idx > 1
        invariant tree.Valid() && ctx.At(base, depth) && |tree.items| == |old(tree.items)|
        invariant CoalesceItems(tree.items, ctx.idx, NODE_UNMAPPED) ==
                    CoalesceItems(old(tree.items), old(ctx.idx), NODE_UNMAPPED)
        invariant CoalesceTop(tree.items, ctx.idx, NODE_UNMAPPED) ==
                    CoalesceTop(old(tree.items), old(ctx.idx), NODE_UNMAPPED)
        decreases ctx.idx
      {
        CoalesceUnfold(tree.items, ctx.idx, NODE_UNMAPPED);
        var neighIdx := if ctx.idx % 2 == 1 then ctx.idx - 1 else ctx.idx + 1;
        var node := tree.Get(neighIdx - 1);
        if node == NODE_UNMAPPED {
          tree.Set(ctx.idx / 2 - 1, NODE_UNMAPPED);
        } else {
          break;
        }
        ctx.GoUp(base, depth);
      }
      CoalesceUnfold(tree.items, ctx.idx, NODE_UNMAPPED);
    }

    /** Merges depleted nodes upwards, returns their memory to the system and marks it unmapped. */
    method CoalesceDepletedNodes(ctx: BuddyCtx, ghost base: nat) returns (unmapPtr: int, unmapLen: nat)
      requires tree.Valid() && ctx.At(base, depth) && Pow2(depth + 1) <= |tree.items|
      modifies ctx, tree`items, tree.mem
      ensures tree.Valid()
      ensures var top := CoalesceTop(old(tree.items), old(ctx.idx), NODE_DEPLETED);
              var merged := CoalesceItems(old(tree.items), old(ctx.idx), NODE_DEPLETED);
              && InTree(depth, top) && |merged| == |old(tree.items)|
              && unmapPtr == RunBase(base, depth, top) && unmapLen == RunSize(depth, top)
              && tree.items == CoalesceItems(merged[top - 1 := NODE_UNMAPPED], top, NODE_UNMAPPED)
              && ctx.idx == CoalesceTop(merged[top - 1 := NODE_UNMAPPED], top, NODE_UNMAPPED)
    {
      hide Pow2, RunBase, RunSize, Height, CoalesceItems, CoalesceTop;
      while ctx.idx > 1
        invariant tree.Valid() && ctx.At(base, depth) && |tree.items| == |old(tree.items)|
        invariant CoalesceItems(tree.items, ctx.idx, NODE_DEPLETED) ==
                    CoalesceItems(old(tree.items), old(ctx.idx), NODE_DEPLETED)
        invariant CoalesceTop(tree.items, ctx.idx, NODE_DEPLETED) ==
                    CoalesceTop(old(tree.items), old(ctx.idx), NODE_DEPLETED)
        decreases ctx.idx
      {
        CoalesceUnfold(tree.items, ctx.idx, NODE_DEPLETED);
        var neighIdx := if ctx.idx % 2 == 1 then ctx.idx - 1 else ctx.idx + 1;
        var node := tree.Get(neighIdx - 1);
        if node == NODE_DEPLETED {
          tree.Set(ctx.idx / 2 - 1, NODE_DEPLETED);
        } else {
          break;
        }
        ctx.GoUp(base, depth);
      }
      CoalesceUnfold(tree.items, ctx.idx, NODE_DEPLETED);
      unmapPtr, unmapLen := ctx.ptr, ctx.curSize;
      tree.Set(ctx.idx - 1, NODE_UNMAPPED);
      CoalesceUnmappedNodes(ctx, base);
    }

    lemma NoRunAt(ptr: nat, leaf: nat)
      requires key <= ptr && leaf == Pow2(depth) + (ptr - key) / LEAF_SIZE && NoStart(Live(), depth, leaf)
      ensures forall x :: x in Live() ==> !InFirstLeaf(key, depth, x, ptr)
    {
      forall x | x in Live()
        ensures !InFirstLeaf(key, depth, x, ptr)
      {
        FirstLeafIff(key, depth, x, ptr, leaf);
      }
    }

    /** Climbs from a leaf, as long as it is the first leaf of the current node, to the node in
        use that starts there. */
    method FindRun(leaf: nat) returns (found: bool, idx: nat, depthToLeaf: nat, curSize: nat)
      requires Valid() && Pow2(depth) <= leaf < Pow2(depth + 1)
      ensures found ==>
                && StartsAt(depth, idx, leaf) && idx in Live() && NoStartBelow(Live(), depth, leaf, depthToLeaf)
                && depthToLeaf == Height(depth, idx) && curSize == RunSize(depth, idx)
      ensures !found ==> NoStart(Live(), depth, leaf)
    {
      hide *;
      idx, depthToLeaf, curSize := leaf, 0, LEAF_SIZE;
      ghost var items, nodes := tree.items, Nodes(handed);
      ValidFacts();
      ShapeFacts();
      LeafStart(depth, leaf);
      SizeOf(depth, idx);
      StartInTree(items, nodes, released, depth, idx, leaf);
      var node := tree.Get(idx - 1);
      while node != NODE_USED
        invariant StartsAt(depth, idx, leaf) && 1 <= idx <= |items| && node == items[idx - 1]
        invariant InTree(depth, idx) && depthToLeaf == Height(depth, idx) && curSize == LEAF_SIZE * Pow2(depthToLeaf)
        invariant NoStartBelow(Live(), depth, leaf, depthToLeaf)
        decreases idx
      {
        NotUsedHere(items, nodes, released, depth, idx, leaf);
        if idx == 1 || idx % 2 == 1 {
          StartNowhere(Live(), depth, idx, leaf);
          return false, idx, depthToLeaf, curSize;
        }
        if node == NODE_DEPLETED || node == NODE_UNMAPPED {
          UnmappedHere(items, nodes, released, depth, idx, leaf);
          return false, idx, depthToLeaf, curSize;
        }
        StartParent(depth, idx, leaf);
        idx := idx / 2;
        depthToLeaf := depthToLeaf + 1;
        DoubleSize(depthToLeaf - 1);
        curSize := curSize * 2;
        StartInTree(items, nodes, released, depth, idx, leaf);
        node := tree.Get(idx - 1);
      }
      UsedIsLive(items, nodes, released, depth, idx);
      SizeOf(depth, idx);
      found := true;
    }

    /** Releases the run in use whose first leaf contains `runPtr`. The range to unmap has the length of
        the run and starts at `runPtr`: it is the run exactly if that is where the run starts. */
    method DeallocateRun(runPtr: nat) returns (r: Release, ghost x: nat)
      requires Valid() && key <= runPtr < key + LEAF_SIZE * Pow2(depth)
      modifies tree`items, tree.mem, this`released
      ensures Valid()
      ensures r.NoRun? ==> released == old(released) && forall y :: y in Live() ==> !InFirstLeaf(key, depth, y, runPtr)
      ensures r.Released? ==>
                && x in old(Live()) && InFirstLeaf(key, depth, x, runPtr)
                && released == old(released) + {x}
                && r.ptr == runPtr && r.len == RunSize(depth, x)
                && (r.whole <==> Covered(released, 1, depth))
    {
      hide Valid, IndexValid, Shape, HandedOk, StartsAt, NoStart, NoStartBelow, Pow2, Nodes, Live, Covered, RunBase;
      var leaf := Pow2(depth) + (runPtr - key) / LEAF_SIZE;
      ValidFacts();
      BlockInLevel(depth, runPtr - key);
      var found, idx, depthToLeaf, curSize := FindRun(leaf);
      if !found {
        NoRunAt(runPtr, leaf);
        return NoRun, 0;
      }
      FirstLeafIff(key, depth, idx, runPtr, leaf);
      r := ReleaseNode(idx, depthToLeaf, runPtr, runPtr - RunBase(key, depth, idx));
      x := idx;
    }

    method ReleaseNode(idx: nat, depthToLeaf: nat, runPtr: nat, ghost offset: nat) returns (r: Release)
      requires Valid() && idx in Live() && InTree(depth, idx)
      requires depthToLeaf == Height(depth, idx) && runPtr == RunBase(key, depth, idx) + offset
      modifies tree`items, tree.mem, this`released
      ensures Valid() && released == old(released) + {idx}
      ensures r.Released? && r.ptr == runPtr && r.len == RunSize(depth, idx)
      ensures r.whole <==> Covered(released, 1, depth)
    {
      hide *;
      ghost var nodes, rel, items := Nodes(handed), released, tree.items;
      ValidFacts();
      SizeOf(depth, idx);
      ReleaseCorrect(items, nodes, rel, depth, idx);
      ShiftedBase(key, offset, depth, idx);
      tree.Set(idx - 1, NODE_DEPLETED);
      var unmapPtr, unmapLen, top := CoalesceFrom(idx, depthToLeaf, runPtr, key + offset);
      released := released + {idx};
      SameIndex(nodes, rel, idx);
      r := Released(top == 1, unmapPtr, unmapLen);
    }

    method CoalesceFrom(idx: nat, depthToLeaf: nat, runPtr: nat, ghost base: nat)
      returns (unmapPtr: int, unmapLen: nat, top: nat)
      requires tree.Valid() && Pow2(depth + 1) <= |tree.items| && InTree(depth, idx) && idx + 1 <= |tree.items|
      requires depthToLeaf == Height(depth, idx) && runPtr == RunBase(base, depth, idx)
      requires CoalesceTop(tree.items, idx, NODE_DEPLETED) == idx
               && CoalesceItems(tree.items, idx, NODE_DEPLETED) == tree.items
      modifies tree`items, tree.mem
      ensures tree.Valid() && unmapPtr == runPtr && unmapLen == RunSize(depth, idx)
      ensures tree.items == CoalesceItems(old(tree.items)[idx - 1 := NODE_UNMAPPED], idx, NODE_UNMAPPED)
      ensures top == CoalesceTop(old(tree.items)[idx - 1 := NODE_UNMAPPED], idx, NODE_UNMAPPED)
    {
      hide *;
      SizeOf(depth, idx);
      var ctx := new BuddyCtx(idx, LEAF_SIZE * Pow2(depthToLeaf), depthToLeaf, runPtr);
      ctx.AtNode(base, depth);
      unmapPtr, unmapLen := CoalesceDepletedNodes(ctx, base);
      top := ctx.idx;
    }

    /** Releasing a node does not touch the index. */
    lemma SameIndex(nodes: set<nat>, rel: set<nat>, idx: nat)
      requires IndexValid() && tree.Valid() && nodes == Nodes(handed) && Pow2(depth + 1) <= |tree.items|
      requires released == rel + {idx} && rel <= nodes && idx in nodes
      requires StatesOk(tree.items, nodes, rel + {idx}, depth)
      ensures Valid()
    {
    }

    lemma NotInLive(ptr: nat)
      requires forall x :: x in Live() ==> !InFirstLeaf(key, depth, x, ptr)
      ensures forall k :: 0 <= k < |handed| && handed[k].node in Live() ==>
                !InFirstLeaf(key, depth, handed[k].node, ptr)
    {
    }

    lemma NoRunOutside(ptr: nat)
      requires HandedOk(depth, handed) && (ptr < key || key + LEAF_SIZE * Pow2(depth) <= ptr)
      ensures forall x :: x in Live() ==> !InFirstLeaf(key, depth, x, ptr)
    {
      HandedAntichain(depth, handed);
      forall x | x in Live()
        ensures !InFirstLeaf(key, depth, x, ptr)
      {
        RunInside(key, depth, x);
      }
    }

    /** Has the whole chunk been handed out and released again? */
    method IsUnmapped() returns (r: bool)
      requires Valid()
      ensures r <==> Covered(released, 1, depth)
    {
      hide Valid, IndexValid, HandedOk, Covered, Nodes, Pow2;
      ValidFacts();
      RootState(tree.items, Nodes(handed), released, depth, handed);
      var node := tree.Get(0);
      r := node == NODE_UNMAPPED;
    }

    /** Have all leaves been handed out? */
    method IsFull() returns (r: bool)
      requires Valid()
      ensures r <==> LeavesOf(depth, handed) == Pow2(depth)
    {
      IndexLevel(depth, Tables(), lists, depth);
      r := count[depth] == 0;
    }

    /** Finds the run in use whose first leaf contains `ptr`. */
    method GetRunPtr(ptr: nat) returns (r: Option<RunInfo>)
      requires Valid()
      ensures r == None <==> forall k :: 0 <= k < |handed| && handed[k].node in Live() ==>
                !InFirstLeaf(key, depth, handed[k].node, ptr)
      ensures forall k ::
                0 <= k < |handed| && handed[k].node in Live() && InFirstLeaf(key, depth, handed[k].node, ptr) ==>
                  r == Some(InfoOf(key, depth, handed[k]))
    {
      hide Valid, IndexValid, Shape, HandedOk, InFirstLeaf, InfoOf, StartsAt, NoStart, NoStartBelow, Pow2, Nodes,
           Live;
      ValidFacts();
      ShapeFacts();
      if ptr < key || key + LEAF_SIZE * Pow2(depth) <= ptr {
        NoRunOutside(ptr);
        NotInLive(ptr);
        return None;
      }
      var blockOffset := (ptr - key) / LEAF_SIZE;
      var targetRunPtr := key + blockOffset * LEAF_SIZE;
      var leaf := Pow2(depth) + blockOffset;
      BlockInLevel(depth, ptr - key);
      var found, idx, depthToLeaf, curSize := FindRun(leaf);
      if !found {
        NoRunAt(ptr, leaf);
        NotInLive(ptr);
        return None;
      }
      FoundRun(ptr, idx, leaf);
      if depthToLeaf == 0 && regSizes[blockOffset] != REG_MARK_BAD_VALUE {
        return Some(RunInfo(targetRunPtr, curSize, regSizes[blockOffset]));
      }
      r := Some(RunInfo(targetRunPtr, curSize, 0));
    }

    /** Only the run at `idx` answers for `ptr`. */
    lemma OnlyRun(ptr: nat, idx: nat, leaf: nat)
      requires HandedOk(depth, handed) && key <= ptr && leaf == Pow2(depth) + (ptr - key) / LEAF_SIZE
      requires StartsAt(depth, idx, leaf) && idx in Live() && NoStartBelow(Live(), depth, leaf, Height(depth, idx))
      ensures exists k :: 0 <= k < |handed| && handed[k].node in Live() && InFirstLeaf(key, depth, handed[k].node, ptr)
      ensures forall k ::
                0 <= k < |handed| && handed[k].node in Live() && InFirstLeaf(key, depth, handed[k].node, ptr) ==>
                  handed[k].node == idx
    {
      HandedAntichain(depth, handed);
      FirstLeafIff(key, depth, idx, ptr, leaf);
      assert idx in Nodes(handed);
      var m :| 0 <= m < |handed| && handed[m].node == idx;
      assert handed[m].node in Live();
      forall k | 0 <= k < |handed| && handed[k].node in Live() && InFirstLeaf(key, depth, handed[k].node, ptr)
        ensures handed[k].node == idx
      {
        FirstLeafIff(key, depth, handed[k].node, ptr, leaf);
        OneStart(Nodes(handed), released, depth, idx, leaf, handed[k].node);
      }
    }

    /** The region size of the run that answers is the mark of its leaf. */
    lemma FoundRun(ptr: nat, idx: nat, leaf: nat)
      requires Valid() && key <= ptr < key + LEAF_SIZE * Pow2(depth) && leaf == Pow2(depth) + (ptr - key) / LEAF_SIZE
      requires StartsAt(depth, idx, leaf) && idx in Live() && NoStartBelow(Live(), depth, leaf, Height(depth, idx))
      ensures exists k :: 0 <= k < |handed| && handed[k].node in Live() && InFirstLeaf(key, depth, handed[k].node, ptr)
      ensures forall k ::
                0 <= k < |handed| && handed[k].node in Live() && InFirstLeaf(key, depth, handed[k].node, ptr) ==>
                  var mark := regSizes[(ptr - key) / LEAF_SIZE];
                  InfoOf(key, depth, handed[k]) ==
                  RunInfo(key + (ptr - key) / LEAF_SIZE * LEAF_SIZE, RunSize(depth, idx),
                          if Height(depth, idx) == 0 && mark != REG_MARK_BAD_VALUE then mark else 0)
    {
      hide Valid, IndexValid, Shape, HandedOk, InFirstLeaf, InfoOf, StartsAt, NoStart, NoStartBelow, Pow2, Nodes,
           Live, RunBase, RunSize, Height, MarksAre;
      ValidFacts();
      ShapeFacts();
      BlockInLevel(depth, ptr - key);
      HeightInTree(depth, idx);
      RunAtBlock(key, depth, idx, ptr, leaf);
      OnlyRun(ptr, idx, leaf);
      forall k | 0 <= k < |handed| && handed[k].node in Live() && InFirstLeaf(key, depth, handed[k].node, ptr)
        ensures InfoOf(key, depth, handed[k]) ==
                RunInfo(key + (ptr - key) / LEAF_SIZE * LEAF_SIZE, RunSize(depth, idx),
                        if Height(depth, idx) == 0 && regSizes[(ptr - key) / LEAF_SIZE] != REG_MARK_BAD_VALUE
                        then regSizes[(ptr - key) / LEAF_SIZE] else 0)
      {
        InfoFromMark(key, depth, handed, k, (ptr - key) / LEAF_SIZE, regSizes[..]);
      }
    }
  }
}
