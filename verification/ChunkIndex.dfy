/** The index of available nodes as a value, and how handing out a node changes it. */
module ChunkIndex {
  import opened TreeIndex
  import opened JumpList
  import opened ChunkSpec
  import opened ChunkTree

  /** The three tables: the jump tree, and the first index and the count of each level. */
  datatype Index = Index(jump: seq<JumpNode>, first: seq<nat>, count: seq<nat>)

  /** The tables hold exactly the given lists, one for each level. */
  ghost predicate IndexIs(depth: nat, x: Index, lists: seq<seq<nat>>) {
    && |x.first| == |x.count| == |lists| == depth + 1 && |x.jump| == Pow2(depth + 1) - 1
    && forall l :: 0 <= l <= depth ==> LevelOk(x.jump, x.first, x.count, lists[l], l)
  }

  /** As IndexIs, but the levels from `from` up to but excluding `next` still hold the old distances
      in the subtree of `idx`, a node of level `top`. */
  ghost predicate DirtyIs(depth: nat, x: Index, lists: seq<seq<nat>>, idx: nat, top: nat, from: nat, next: nat)
    requires top < from
  {
    && |x.first| == |x.count| == |lists| == depth + 1 && |x.jump| == Pow2(depth + 1) - 1
    && (forall l :: 0 <= l <= depth && !(from <= l < next) ==> LevelOk(x.jump, x.first, x.count, lists[l], l))
    && (forall l :: 0 <= l <= depth && from <= l < next ==>
          LevelDirty(x.jump, x.first, x.count, lists[l], l, Leftmost(idx, l - top), Rightmost(idx, l - top)))
  }

  /** The lists hold exactly the nodes that are not related to a node in `nodes`. */
  ghost predicate ListsAre(nodes: set<nat>, depth: nat, lists: seq<seq<nat>>) {
    && |lists| == depth + 1 && lists[0] == []
    && forall l :: 1 <= l <= depth ==> ListsAvailable(nodes, lists[l], l)
  }

  /** `after` is `before` without `idx` and its ancestors. */
  ghost predicate Pruned(before: seq<seq<nat>>, after: seq<seq<nat>>, idx: nat) {
    |after| == |before| && forall l :: 0 <= l < |before| ==> NoAncestors(before[l], after[l], idx)
  }

  /** `after` is `before` without the descendants of `idx` on the levels between `level` and `next`. */
  ghost predicate Cut(before: seq<seq<nat>>, after: seq<seq<nat>>, idx: nat, level: nat, next: nat) {
    && |after| == |before|
    && (forall l :: 0 <= l < |before| && !(level < l < next) ==> after[l] == before[l])
    && (forall l :: 0 <= l < |before| && level < l < next ==> NoDescendants(before[l], after[l], idx, l - level))
  }

  ghost predicate SpansListed(depth: nat, idx: nat, level: nat, lists: seq<seq<nat>>) {
    && |lists| == depth + 1
    && forall l, i :: level < l <= depth && Leftmost(idx, l - level) <= i <= Rightmost(idx, l - level) ==> i in lists[l]
  }

  ghost predicate AllWithin(lists: seq<seq<nat>>) {
    forall l :: 0 <= l < |lists| ==> Within(lists[l], Pow2(l), Pow2(l + 1))
  }

  ghost predicate Only(x: Index, y: Index, l: nat) {
    OnlyLevel(x.jump, x.first, x.count, y.jump, y.first, y.count, l)
  }

  lemma IndexLevel(depth: nat, x: Index, lists: seq<seq<nat>>, l: nat)
    requires IndexIs(depth, x, lists) && l <= depth <= 15
    ensures LevelOk(x.jump, x.first, x.count, lists[l], l)
    ensures Pow2(l + 1) <= |x.jump| + 1 && Pow2(l + 1) == 2 * Pow2(l) <= 0x1_0000
    ensures |x.first| == |x.count| == |lists| == depth + 1
    ensures x.count[l] == |lists[l]|
  {
    LevelInTree(depth, l);
  }

  lemma IndexWithin(depth: nat, x: Index, lists: seq<seq<nat>>)
    requires IndexIs(depth, x, lists)
    ensures |lists| == depth + 1 && AllWithin(lists)
  {
    forall l | 0 <= l < |lists|
      ensures Within(lists[l], Pow2(l), Pow2(l + 1))
    {
      assert LevelOk(x.jump, x.first, x.count, lists[l], l);
    }
  }

  lemma ListedHere(nodes: set<nat>, depth: nat, lists: seq<seq<nat>>, l: nat, i: nat)
    requires ListsAre(nodes, depth, lists) && 1 <= l <= depth && OnLevel(i, l) && Available(nodes, i)
    ensures |lists| == depth + 1 && i in lists[l] && lists[0] == []
  {
  }

  /** A listed node is an available node of its level. */
  lemma ListedNode(depth: nat, x: Index, nodes: set<nat>, lists: seq<seq<nat>>, l: nat, i: nat)
    requires IndexIs(depth, x, lists) && ListsAre(nodes, depth, lists) && l <= depth <= 15
    requires l < |lists| && i in lists[l]
    ensures l >= 1 && OnLevel(i, l) && Available(nodes, i) && InTree(depth, i) && 1 <= i <= |x.jump|
  {
    assert LevelOk(x.jump, x.first, x.count, lists[l], l);
    OnLevelInTree(depth, i, l);
  }

  /** What the tables say about one node. */
  lemma IndexTells(depth: nat, x: Index, lists: seq<seq<nat>>, l: nat, i: nat)
    requires IndexIs(depth, x, lists) && l <= depth <= 15 && OnLevel(i, l)
    ensures |x.first| == |lists| == depth + 1 && 1 <= i <= |x.jump|
    ensures i in lists[l] <==> x.jump[i - 1].next != 0 || x.jump[i - 1].prev != 0 || x.first[l] == i
  {
    LevelInTree(depth, l);
    LevelTells(x.jump, x.first, x.count, lists[l], l, i);
  }

  lemma IndexStep(depth: nat, x: Index, lists: seq<seq<nat>>, y: Index, l: nat, t: seq<nat>)
    requires IndexIs(depth, x, lists) && Only(x, y, l) && l <= depth && LevelOk(y.jump, y.first, y.count, t, l)
    ensures IndexIs(depth, y, lists[l := t])
  {
    forall m | 0 <= m <= depth && m != l
      ensures LevelOk(y.jump, y.first, y.count, lists[m], m)
    {
      LevelKept(x.jump, x.first, x.count, y.jump, y.first, y.count, l, lists[m], m);
    }
  }

  /** One more level has lost the subtree of `idx`. */
  lemma DirtyStep(depth: nat, x: Index, lists: seq<seq<nat>>, y: Index, idx: nat, top: nat, l: nat, t: seq<nat>)
    requires top < l <= depth && DirtyIs(depth, x, lists, idx, top, top + 1, l) && Only(x, y, l)
    requires LevelDirty(y.jump, y.first, y.count, t, l, Leftmost(idx, l - top), Rightmost(idx, l - top))
    ensures DirtyIs(depth, y, lists[l := t], idx, top, top + 1, l + 1)
  {
    hide LevelOk, LevelDirty, Leftmost, Rightmost, OnlyLevel;
    forall m | 0 <= m <= depth && !(top < m <= l)
      ensures LevelOk(y.jump, y.first, y.count, lists[m], m)
    {
      LevelKept(x.jump, x.first, x.count, y.jump, y.first, y.count, l, lists[m], m);
    }
    forall m | 0 <= m <= depth && top < m < l
      ensures LevelDirty(y.jump, y.first, y.count, lists[m], m, Leftmost(idx, m - top), Rightmost(idx, m - top))
    {
      DirtyKept(x.jump, x.first, x.count, y.jump, y.first, y.count, l, lists[m], m, Leftmost(idx, m - top),
                Rightmost(idx, m - top));
    }
    OnlyLengths(x, y, l);
  }

  lemma OnlyLengths(x: Index, y: Index, l: nat)
    requires Only(x, y, l)
    ensures |x.jump| == |y.jump| && |x.first| == |y.first| && |x.count| == |y.count|
  {
  }

  /** One more level is cleared. */
  lemma PurgeAll(depth: nat, x: Index, lists: seq<seq<nat>>, y: Index, idx: nat, top: nat, l: nat)
    requires top < l <= depth && DirtyIs(depth, x, lists, idx, top, l, depth + 1) && Only(x, y, l)
    requires LevelOk(y.jump, y.first, y.count, lists[l], l)
    ensures DirtyIs(depth, y, lists, idx, top, l + 1, depth + 1)
  {
    hide LevelOk, LevelDirty, Leftmost, Rightmost, OnlyLevel;
    forall m | 0 <= m < l
      ensures LevelOk(y.jump, y.first, y.count, lists[m], m)
    {
      LevelKept(x.jump, x.first, x.count, y.jump, y.first, y.count, l, lists[m], m);
    }
    forall m | l < m <= depth
      ensures LevelDirty(y.jump, y.first, y.count, lists[m], m, Leftmost(idx, m - top), Rightmost(idx, m - top))
    {
      DirtyKept(x.jump, x.first, x.count, y.jump, y.first, y.count, l, lists[m], m, Leftmost(idx, m - top),
                Rightmost(idx, m - top));
    }
    OnlyLengths(x, y, l);
  }

  lemma DirtyStart(depth: nat, x: Index, lists: seq<seq<nat>>, idx: nat, top: nat)
    requires IndexIs(depth, x, lists)
    ensures DirtyIs(depth, x, lists, idx, top, top + 1, top + 1)
  {
  }

  lemma DirtyEnd(depth: nat, x: Index, lists: seq<seq<nat>>, idx: nat, top: nat)
    requires top <= depth && DirtyIs(depth, x, lists, idx, top, depth + 1, depth + 1)
    ensures IndexIs(depth, x, lists)
  {
  }

  lemma CutStart(lists: seq<seq<nat>>, idx: nat, level: nat)
    ensures Cut(lists, lists, idx, level, level + 1)
  {
  }

  lemma CutStep(before: seq<seq<nat>>, after: seq<seq<nat>>, idx: nat, level: nat, l: nat, t: seq<nat>)
    requires level < l < |before| && Cut(before, after, idx, level, l) && NoDescendants(after[l], t, idx, l - level)
    ensures Cut(before, after[l := t], idx, level, l + 1)
  {
  }

  lemma LeafIsLast(depth: nat, idx: nat, level: nat)
    requires level <= depth && OnLevel(idx, level)
    ensures idx >= Pow2(depth) <==> level == depth
  {
    if level < depth {
      Pow2Monotone(level + 1, depth);
    }
  }

  lemma SpanOnLevel(idx: nat, top: nat, level: nat)
    requires top < level && OnLevel(idx, top)
    ensures OnLevel(Leftmost(idx, level - top), level) && OnLevel(Rightmost(idx, level - top), level)
  {
    Pow2Add(top, level - top);
    Pow2Add(top + 1, level - top);
    ScaleInterval(Pow2(top), idx, Pow2(top + 1), Pow2(level - top));
  }

  lemma NextSpan(idx: nat, d: nat)
    ensures Leftmost(idx, d + 1) == 2 * Leftmost(idx, d)
    ensures Rightmost(idx, d + 1) == 2 * Rightmost(idx, d) + 1
    ensures Pow2(d + 1) == 2 * Pow2(d)
  {
    Twice(idx, Pow2(d));
  }

  lemma SubtreeListed(nodes: set<nat>, depth: nat, idx: nat, level: nat, before: seq<seq<nat>>, mid: seq<seq<nat>>)
    requires 1 <= level <= depth && OnLevel(idx, level) && Available(nodes, idx)
    requires ListsAre(nodes, depth, before) && Pruned(before, mid, idx)
    ensures SpansListed(depth, idx, level, mid)
  {
    forall l, i | level < l <= depth && Leftmost(idx, l - level) <= i <= Rightmost(idx, l - level)
      ensures i in mid[l]
    {
      SpanOnLevel(idx, level, l);
      SpanListed(nodes, idx, level, before[l], mid[l], l, i);
    }
  }

  /** All lists after handing out `idx`. */
  lemma AllListsAfter(nodes: set<nat>, depth: nat, idx: nat, level: nat,
                      before: seq<seq<nat>>, mid: seq<seq<nat>>, after: seq<seq<nat>>)
    requires 1 <= level <= depth && OnLevel(idx, level) && ListsAre(nodes, depth, before)
    requires Pruned(before, mid, idx) && Cut(mid, after, idx, level, depth + 1)
    ensures ListsAre(nodes + {idx}, depth, after)
  {
    if after[0] != [] {
      HasMember(after[0]);
    }
    forall l | 1 <= l <= depth
      ensures ListsAvailable(nodes + {idx}, after[l], l)
    {
      ListAfter(nodes, idx, level, before[l], mid[l], after[l], l);
    }
  }

  /** The leaf list loses exactly the leaves of the node handed out. */
  lemma CountAfter(nodes: set<nat>, depth: nat, idx: nat, level: nat,
                   before: seq<seq<nat>>, mid: seq<seq<nat>>, after: seq<seq<nat>>)
    requires 1 <= level <= depth && OnLevel(idx, level) && Available(nodes, idx) && ListsAre(nodes, depth, before)
    requires Pruned(before, mid, idx) && Cut(mid, after, idx, level, depth + 1)
    requires Ascending(before[depth]) && Ascending(after[depth]) && Within(before[depth], Pow2(depth), Pow2(depth + 1))
    ensures |after[depth]| + Pow2(depth - level) == |before[depth]|
  {
    var b, m, a := before[depth], mid[depth], after[depth];
    if level == depth {
      forall i | i in b
        ensures Under(idx, i) <==> i == idx
      {
        LevelUnique(idx, depth);
        LevelUnique(i, depth);
        if Under(idx, i) {
          AncestorUnique(idx, i, idx);
        }
      }
      assert idx in b;
      BlockLength(b, a, idx, idx);
    } else {
      SpanOnLevel(idx, level, depth);
      SubtreeListed(nodes, depth, idx, level, before, mid);
      forall i | i in b
        ensures !Under(idx, i)
      {
        InSpan(idx, level, i, depth);
      }
      BlockLength(b, a, Leftmost(idx, depth - level), Rightmost(idx, depth - level));
    }
  }

  /** The ancestors of `idx` below level `cl` are unlinked; `c` is its ancestor on level `cl`. */
  ghost predicate Climbed(idx: nat, level: nat, c: nat, cl: nat, before: seq<seq<nat>>, after: seq<seq<nat>>) {
    && cl <= level < |before| == |after|
    && OnLevel(c, cl) && Under(idx, c) && (cl == level ==> c == idx)
    && (forall l :: 0 <= l <= cl ==> after[l] == before[l])
    && (forall l :: cl < l < |before| ==> NoAncestors(before[l], after[l], idx))
    && AllWithin(before)
  }

  lemma ListedOnLevel(list: seq<nat>, l: nat, i: nat)
    requires Within(list, Pow2(l), Pow2(l + 1)) && i in list
    ensures OnLevel(i, l)
  {
  }

  /** At an unlisted ancestor of `idx` all its ancestors are unlinked. */
  lemma ClimbEnd(nodes: set<nat>, idx: nat, level: nat, c: nat, cl: nat, before: seq<seq<nat>>, after: seq<seq<nat>>)
    requires Climbed(idx, level, c, cl, before, after) && Available(nodes, idx) && c !in after[cl]
    requires |before| >= 1 && ListsAre(nodes, |before| - 1, before)
    ensures Pruned(before, after, idx)
  {
    forall l | 0 <= l <= cl
      ensures NoAncestors(before[l], after[l], idx)
    {
      UnlistedAbove(nodes, idx, c, cl, before[l], l);
    }
  }

  lemma ClimbStart(idx: nat, level: nat, lists: seq<seq<nat>>)
    requires level < |lists| && OnLevel(idx, level) && AllWithin(lists)
    ensures Climbed(idx, level, idx, level, lists, lists)
  {
    LevelUnique(idx, level);
    forall l | level < l < |lists|
      ensures NoAncestors(lists[l], lists[l], idx)
    {
      forall i | i in lists[l]
        ensures !Under(idx, i)
      {
        ListedOnLevel(lists[l], l, i);
        LevelUnique(i, l);
        if Under(idx, i) {
          UnderLevel(idx, i);
        }
      }
    }
  }

  lemma ClimbStep(idx: nat, level: nat, c: nat, cl: nat, lists0: seq<seq<nat>>, before: seq<seq<nat>>,
                  after: seq<seq<nat>>)
    requires Climbed(idx, level, c, cl, lists0, before) && c in before[cl] && lists0[0] == []
    requires |after| == |before| && after == before[cl := after[cl]]
    requires forall i :: i in after[cl] <==> i in before[cl] && i != c
    ensures 1 <= cl <= level && c > 1 && OnLevel(c / 2, cl - 1)
    ensures Climbed(idx, level, c / 2, cl - 1, lists0, after)
  {
    UnderTrans(idx, c, c / 2);
    LevelUnique(c, cl);
    forall i | i in before[cl]
      ensures Under(idx, i) <==> i == c
    {
      LevelUnique(i, cl);
      if Under(idx, i) {
        AncestorUnique(idx, i, c);
      }
    }
  }

  /** No ancestor of an unlisted ancestor `c` of `idx` is listed. */
  lemma UnlistedAbove(nodes: set<nat>, idx: nat, c: nat, level: nat, list: seq<nat>, l: nat)
    requires Available(nodes, idx) && Under(idx, c) && !Available(nodes, c)
    requires l <= level && Pow2(level) <= c < Pow2(level + 1)
    requires Within(list, Pow2(l), Pow2(l + 1)) && if l == 0 then list == [] else ListsAvailable(nodes, list, l)
    ensures NoAncestors(list, list, idx)
  {
    forall i | i in list && Under(idx, i)
      ensures !Available(nodes, i)
    {
      LevelUnique(c, level);
      LevelUnique(i, l);
      UnderChain(idx, c, i);
      if Under(i, c) {
        UnderLevel(i, c);
      }
      if c != 1 {
        NotApartAbove(nodes, idx, c, i);
      }
    }
  }

  lemma LevelInTree(depth: nat, level: nat)
    requires level <= depth <= 15
    ensures Pow2(level + 1) <= Pow2(depth + 1) && Pow2(level + 1) == 2 * Pow2(level) <= 0x1_0000
  {
    Pow2Monotone(level + 1, depth + 1);
    LevelBound(level);
  }

  lemma FirstSpan(idx: nat)
    ensures Leftmost(idx, 1) == 2 * idx && Rightmost(idx, 1) == 2 * idx + 1 && Pow2(1) == 2
  {
    assert Pow2(1) == 2;
  }

  lemma SpanFacts(depth: nat, idx: nat, level: nat, lists0: seq<seq<nat>>, lists: seq<seq<nat>>, l: nat)
    requires level < l <= depth && SpansListed(depth, idx, level, lists0) && Cut(lists0, lists, idx, level, l)
    requires OnLevel(Leftmost(idx, l - level), l)
    ensures |lists| == depth + 1 && 1 <= Leftmost(idx, l - level) <= Rightmost(idx, l - level)
    ensures Rightmost(idx, l - level) - Leftmost(idx, l - level) + 1 == Pow2(l - level)
    ensures forall i :: Leftmost(idx, l - level) <= i <= Rightmost(idx, l - level) ==> i in lists[l]
  {
  }

  lemma LastLevel(depth: nat, x: Index, lists: seq<seq<nat>>)
    requires IndexIs(depth, x, lists)
    ensures |lists| == depth + 1 && Ascending(lists[depth]) && Within(lists[depth], Pow2(depth), Pow2(depth + 1))
  {
    assert LevelOk(x.jump, x.first, x.count, lists[depth], depth);
  }

  // ---- A fresh index ---------------------------------------------------------------------

  ghost function FullLevel(l: nat): seq<nat> {
    seq(Pow2(l), k requires k >= 0 => Pow2(l) + k)
  }

  /** What initialisation leaves on a level: all its nodes in one list. */
  ghost predicate LevelFresh(jump: seq<JumpNode>, first: seq<nat>, count: seq<nat>, l: nat) {
    && l < |first| && l < |count| && Pow2(l + 1) <= |jump| + 1
    && first[l] == Pow2(l) && count[l] == Pow2(l)
    && forall k :: Pow2(l) - 1 <= k < Pow2(l + 1) - 1 ==>
         jump[k] == JumpNode(if k == Pow2(l) - 1 then 0 else 1, if k == Pow2(l + 1) - 2 then 0 else 1)
  }

  lemma FreshLevel(jump: seq<JumpNode>, first: seq<nat>, count: seq<nat>, l: nat)
    requires LevelFresh(jump, first, count, l) && l >= 1
    ensures LevelOk(jump, first, count, FullLevel(l), l) && ListsAvailable({}, FullLevel(l), l)
  {
    var list := FullLevel(l);
    FullList(list, Pow2(l));
    forall k | 0 <= k < |list|
      ensures 1 <= list[k] <= |jump| && jump[list[k] - 1] == LinksAt(list, k)
    {
      assert list[k] == Pow2(l) + k;
    }
  }

  lemma FullList(list: seq<nat>, lo: nat)
    requires |list| == lo && forall k :: 0 <= k < |list| ==> list[k] == lo + k
    ensures Ascending(list) && Within(list, lo, 2 * lo)
    ensures forall i :: lo <= i < 2 * lo ==> i in list
  {
    forall i | lo <= i < 2 * lo
      ensures i in list
    {
      assert list[i - lo] == i;
    }
  }

  lemma FreshChunk(depth: nat, jump: seq<JumpNode>, first: seq<nat>, count: seq<nat>, lists: seq<seq<nat>>)
    requires |first| == |count| == depth + 1 && |lists| == depth + 1 && |jump| == Pow2(depth + 1) - 1
    requires lists[0] == [] && forall l :: 1 <= l <= depth ==> lists[l] == FullLevel(l)
    requires forall l :: 1 <= l <= depth ==> LevelFresh(jump, first, count, l)
    requires first[0] == 0 && count[0] == 0 && jump[0] == NO_LINKS
    ensures IndexIs(depth, Index(jump, first, count), lists) && ListsAre(Nodes([]), depth, lists)
  {
    assert Nodes([]) == {};
    assert Pow2(1) == 2;
    forall l | 1 <= l <= depth
      ensures LevelOk(jump, first, count, lists[l], l) && ListsAvailable({}, lists[l], l)
    {
      FreshLevel(jump, first, count, l);
    }
  }
}
