/** What the chunk metadata means: the nodes handed out so far and those released again
    determine every table of the chunk. */
module ChunkSpec {
  import opened TreeIndex
  import opened PackedStates
  import opened JumpList

  const NODE_FREE: TwoBit := 0
  const NODE_USED: TwoBit := 1
  const NODE_DEPLETED: TwoBit := 2
  const NODE_UNMAPPED: TwoBit := 3

  const LEAF_SIZE: nat := 16384
  const CHUNK_DEPTH: nat := 11
  const REG_MARK_BAD_VALUE: nat := 65535
  const RANDOM_LOOKUP_TRESHOLD_PERCENTAGE: nat := 25
  const RANDOM_LOOKUP_TRIES: nat := 4

  /** A run handed out by the chunk: its node and the region size recorded with it. */
  datatype Handed = Handed(node: nat, regSize: nat)

  ghost function Nodes(handed: seq<Handed>): set<nat> {
    set k | 0 <= k < |handed| :: handed[k].node
  }

  /** Address and length of the memory below a node. */
  ghost function RunBase(key: nat, depth: nat, i: nat): int
    requires InTree(depth, i)
  {
    key + LEAF_SIZE * (i * Pow2(Height(depth, i)) - Pow2(depth))
  }

  ghost function RunSize(depth: nat, i: nat): nat
    requires InTree(depth, i)
  {
    LEAF_SIZE * Pow2(Height(depth, i))
  }

  /** Leaves ever handed out. */
  ghost function LeavesOf(depth: nat, handed: seq<Handed>): nat
    requires forall k :: 0 <= k < |handed| ==> InTree(depth, handed[k].node)
  {
    if handed == [] then 0
    else LeavesOf(depth, handed[..|handed| - 1]) + Pow2(Height(depth, handed[|handed| - 1].node))
  }

  /** Every node handed out is a proper node of the tree, and none is handed out twice. */
  ghost predicate HandedOk(depth: nat, handed: seq<Handed>) {
    && (forall k :: 0 <= k < |handed| ==> 2 <= handed[k].node < Pow2(depth + 1))
    && (forall k, m :: 0 <= k < |handed| && 0 <= m < |handed| && Under(handed[k].node, handed[m].node) ==> k == m)
  }

  /** The root is never available; any other node is until a related node is handed out. */
  ghost predicate Available(nodes: set<nat>, i: nat) {
    i >= 2 && Apart(nodes, i)
  }

  ghost function StateOf(nodes: set<nat>, released: set<nat>, depth: nat, i: nat): TwoBit
    requires InTree(depth, i)
  {
    if i in nodes && i !in released then NODE_USED
    else if Covered(released, i, Height(depth, i)) then NODE_UNMAPPED
    else NODE_FREE
  }

  /** The region size stored for the leaf with index `l`. */
  ghost predicate MarkOf(handed: seq<Handed>, l: nat, mark: nat) {
    && (l !in Nodes(handed) ==> mark == REG_MARK_BAD_VALUE)
    && (forall k :: 0 <= k < |handed| && handed[k].node == l ==>
          if handed[k].regSize == LEAF_SIZE then mark == REG_MARK_BAD_VALUE
            else mark == handed[k].regSize < REG_MARK_BAD_VALUE)
  }

  /** One level of the three tables that index the available nodes. */
  ghost predicate LevelOk(jump: seq<JumpNode>, first: seq<nat>, count: seq<nat>, list: seq<nat>, l: nat) {
    && l < |first| && l < |count|
    && IsList(jump, list, Pow2(l), Pow2(l + 1))
    && first[l] == FirstOf(list)
    && count[l] == |list|
  }

  /** As LevelOk, but the unlinked nodes `l..r` still store their old distances. */
  ghost predicate LevelDirty(jump: seq<JumpNode>, first: seq<nat>, count: seq<nat>, list: seq<nat>,
                             m: nat, l: nat, r: nat)
  {
    && m < |first| && m < |count|
    && Ascending(list) && Within(list, Pow2(m), Pow2(m + 1)) && Linked(jump, list)
    && (forall i :: Pow2(m) <= i < Pow2(m + 1) && i !in list && 1 <= i <= |jump| && !(l <= i <= r) ==>
          jump[i - 1] == NO_LINKS)
    && (forall i :: l <= i <= r ==> i !in list)
    && first[m] == FirstOf(list)
    && count[m] == |list|
  }

  /** The links of a node, and the first index of its level, tell whether it is listed. */
  lemma LevelTells(jump: seq<JumpNode>, first: seq<nat>, count: seq<nat>, list: seq<nat>, l: nat, i: nat)
    requires LevelOk(jump, first, count, list, l) && OnLevel(i, l) && Pow2(l + 1) <= |jump| + 1
    ensures i in list <==> jump[i - 1].next != 0 || jump[i - 1].prev != 0 || first[l] == i
    ensures i in list && |list| > 1 <==> jump[i - 1].next != 0 || jump[i - 1].prev != 0
  {
    LinksTellMembership(jump, list, Pow2(l), Pow2(l + 1), i);
  }

  ghost predicate ListsAvailable(nodes: set<nat>, list: seq<nat>, l: nat) {
    forall i :: Pow2(l) <= i < Pow2(l + 1) ==> (i in list <==> Available(nodes, i))
  }

  /** Two versions of the index tables agree outside level `l`. */
  ghost predicate OnlyLevel(jump: seq<JumpNode>, first: seq<nat>, count: seq<nat>,
                            jump': seq<JumpNode>, first': seq<nat>, count': seq<nat>, l: nat)
  {
    && |jump'| == |jump| && |first'| == |first| && |count'| == |count|
    && (forall k :: 0 <= k < |jump| && !(Pow2(l) <= k + 1 < Pow2(l + 1)) ==> jump'[k] == jump[k])
    && (forall m :: 0 <= m < |first| && m != l ==> first'[m] == first[m])
    && (forall m :: 0 <= m < |count| && m != l ==> count'[m] == count[m])
  }

  lemma LevelKept(jump: seq<JumpNode>, first: seq<nat>, count: seq<nat>,
                  jump': seq<JumpNode>, first': seq<nat>, count': seq<nat>, l: nat, list: seq<nat>, m: nat)
    requires OnlyLevel(jump, first, count, jump', first', count', l) && m != l
    requires LevelOk(jump, first, count, list, m)
    ensures LevelOk(jump', first', count', list, m)
  {
    if m < l {
      Pow2Monotone(m + 1, l);
    } else {
      Pow2Monotone(l + 1, m);
    }
    ListKept(jump, jump', list, Pow2(m), Pow2(m + 1));
  }

  lemma DirtyKept(jump: seq<JumpNode>, first: seq<nat>, count: seq<nat>,
                  jump': seq<JumpNode>, first': seq<nat>, count': seq<nat>, v: nat,
                  list: seq<nat>, m: nat, l: nat, r: nat)
    requires OnlyLevel(jump, first, count, jump', first', count', v) && m != v
    requires LevelDirty(jump, first, count, list, m, l, r)
    ensures LevelDirty(jump', first', count', list, m, l, r)
  {
    if m < v {
      Pow2Monotone(m + 1, v);
    } else {
      Pow2Monotone(v + 1, m);
    }
    var lo, hi := Pow2(m), Pow2(m + 1);
    hide Pow2;
    LinkedKept(jump, jump', list, lo, hi);
    forall k | lo <= k + 1 < hi && 0 <= k < |jump'|
      ensures jump'[k] == jump[k]
    {
    }
  }

  lemma LinkedKept(jump: seq<JumpNode>, jump': seq<JumpNode>, list: seq<nat>, lo: nat, hi: nat)
    requires 1 <= lo && |jump'| == |jump| && Ascending(list) && Within(list, lo, hi) && Linked(jump, list)
    requires forall k :: 0 <= k < |jump| && lo <= k + 1 < hi ==> jump'[k] == jump[k]
    ensures Linked(jump', list)
  {
    forall k | 0 <= k < |list|
      ensures 1 <= list[k] <= |jump'| && jump'[list[k] - 1] == LinksAt(list, k)
    {
      LinkedAt(jump, list, k);
      assert jump'[list[k] - 1] == jump[list[k] - 1];
    }
  }

  /** Clearing the dirty nodes completes the level. */
  lemma PurgeStep(jump: seq<JumpNode>, first: seq<nat>, count: seq<nat>, jump': seq<JumpNode>,
                  list: seq<nat>, m: nat, l: nat, r: nat)
    requires LevelDirty(jump, first, count, list, m, l, r) && |jump'| == |jump|
    requires forall k :: 0 <= k < |jump| ==> jump'[k] == if l <= k + 1 <= r then NO_LINKS else jump[k]
    ensures LevelOk(jump', first, count, list, m)
  {
    forall k | 0 <= k < |list|
      ensures 1 <= list[k] <= |jump'| && jump'[list[k] - 1] == LinksAt(list, k)
    {
      LinkedAt(jump, list, k);
      assert list[k] in list;
    }
  }

  /** A list depends only on the nodes of its level. */
  lemma ListKept(jump: seq<JumpNode>, jump': seq<JumpNode>, list: seq<nat>, lo: nat, hi: nat)
    requires 1 <= lo && |jump'| == |jump| && IsList(jump, list, lo, hi)
    requires forall k :: 0 <= k < |jump| && lo <= k + 1 < hi ==> jump'[k] == jump[k]
    ensures IsList(jump', list, lo, hi)
  {
    LinkedKept(jump, jump', list, lo, hi);
  }

  /** Unlinking the listed nodes `l..r`, and clearing them, removes exactly them from the list. */
  lemma UnlinkStep(jump: seq<JumpNode>, first: seq<nat>, count: seq<nat>, s: seq<nat>, level: nat, l: nat, r: nat)
      returns (t: seq<nat>)
    requires LevelOk(jump, first, count, s, level) && Pow2(level + 1) <= |jump| + 1 && level <= 15
    requires 1 <= l <= r && forall i :: l <= i <= r ==> i in s
    ensures Pow2(level) <= l && r < Pow2(level + 1)
    ensures jump[l - 1].prev < l && r + jump[r - 1].next <= |jump|
    ensures |Relink(jump, l, r)| == |jump|
    ensures Ascending(t) && Within(t, Pow2(level), Pow2(level + 1)) && Linked(Relink(jump, l, r), t)
    ensures forall i :: i in t <==> i in s && !(l <= i <= r)
    ensures forall k :: 0 <= k < |jump| && k + 1 !in t ==> Relink(jump, l, r)[k] == jump[k]
    ensures |t| == |s| - (r - l + 1)
    ensures FirstOf(t) == if jump[l - 1].prev != 0 then first[level]
                          else if jump[r - 1].next != 0 then r + jump[r - 1].next
                          else 0
  {
    var a, b := FindBlock(s, l, r);
    LevelBound(level);
    RelinkBlock(jump, s, Pow2(level), Pow2(level + 1), a, b);
    t := Without(s, a, b);
    BlockMembers(s, a, b);
    assert forall k {:trigger jump[k]} :: 0 <= k < |jump| && k + 1 !in t ==>
             Relink(jump, l, r)[k + 1 - 1] == jump[k + 1 - 1];
  }

  /** Clearing nodes that are not listed leaves the list as it is. */
  lemma ClearStep(before: seq<JumpNode>, jump: seq<JumpNode>, jump': seq<JumpNode>,
                  s: seq<nat>, t: seq<nat>, lo: nat, hi: nat, l: nat, r: nat)
    requires 1 <= lo && |before| == |jump| == |jump'|
    requires IsList(before, s, lo, hi)
    requires Ascending(t) && Within(t, lo, hi) && Linked(jump, t)
    requires forall i :: i in t <==> i in s && !(l <= i <= r)
    requires forall k :: 0 <= k < |jump| && k + 1 !in t ==> jump[k] == before[k]
    requires forall k :: 0 <= k < |jump| ==> jump'[k] == if l <= k + 1 <= r then NO_LINKS else jump[k]
    ensures IsList(jump', t, lo, hi)
  {
    forall k | 0 <= k < |t|
      ensures 1 <= t[k] <= |jump'| && jump'[t[k] - 1] == LinksAt(t, k)
    {
      LinkedAt(jump, t, k);
      assert t[k] in t;
    }
  }

  // ---- Effect of handing out a node -------------------------------------------------------

  /** First and last node `d` levels below `idx`. */
  function Leftmost(idx: nat, d: nat): nat {
    idx * Pow2(d)
  }

  function Rightmost(idx: nat, d: nat): nat {
    idx * Pow2(d) + (Pow2(d) - 1)
  }

  /** The list `after` is `before` without the ancestors of `idx` (and `idx` itself). */
  ghost predicate NoAncestors(before: seq<nat>, after: seq<nat>, idx: nat) {
    forall i {:trigger i in after} {:trigger i in before} :: i in after <==> i in before && !Under(idx, i)
  }

  /** The list `after` is `before` without the nodes `d` levels below `idx`. */
  ghost predicate NoDescendants(before: seq<nat>, after: seq<nat>, idx: nat, d: nat) {
    forall i :: i in after <==> i in before && !(Leftmost(idx, d) <= i <= Rightmost(idx, d))
  }

  lemma InSpan(idx: nat, level: nat, i: nat, l: nat)
    requires level < l && OnLevel(idx, level) && OnLevel(i, l)
    ensures Leftmost(idx, l - level) <= i <= Rightmost(idx, l - level) <==> Under(i, idx)
    ensures !Under(idx, i)
  {
    LevelUnique(idx, level);
    LevelUnique(i, l);
    UnderInterval(i, idx, l - level);
    assert (idx + 1) * Pow2(l - level) == idx * Pow2(l - level) + Pow2(l - level);
    if Under(idx, i) {
      UnderLevel(idx, i);
    }
  }

  lemma NotBelowHigher(idx: nat, level: nat, i: nat, l: nat)
    requires l <= level && OnLevel(idx, level) && OnLevel(i, l)
    ensures Under(i, idx) ==> Under(idx, i)
  {
    LevelUnique(idx, level);
    LevelUnique(i, l);
    if Under(i, idx) {
      UnderLevel(i, idx);
    }
  }

  /** Unlinking `idx`, its ancestors and its descendants leaves the nodes that stay available. */
  lemma ListAfter(nodes: set<nat>, idx: nat, level: nat, before: seq<nat>, mid: seq<nat>, after: seq<nat>, l: nat)
    requires OnLevel(idx, level) && ListsAvailable(nodes, before, l)
    requires NoAncestors(before, mid, idx)
    requires if l <= level then after == mid else NoDescendants(mid, after, idx, l - level)
    ensures ListsAvailable(nodes + {idx}, after, l)
  {
    forall i | Pow2(l) <= i < Pow2(l + 1)
      ensures i in after <==> Available(nodes + {idx}, i)
    {
      assert i in before <==> Available(nodes, i);
      if l <= level {
        NotBelowHigher(idx, level, i, l);
      } else {
        InSpan(idx, level, i, l);
      }
    }
  }

  /** Every node below an available node is available. */
  lemma SpanListed(nodes: set<nat>, idx: nat, level: nat, before: seq<nat>, mid: seq<nat>, l: nat, i: nat)
    requires 1 <= level < l && OnLevel(idx, level) && Available(nodes, idx)
    requires ListsAvailable(nodes, before, l) && NoAncestors(before, mid, idx)
    requires OnLevel(Leftmost(idx, l - level), l) && OnLevel(Rightmost(idx, l - level), l)
    requires Leftmost(idx, l - level) <= i <= Rightmost(idx, l - level)
    ensures i in mid
  {
    InSpan(idx, level, i, l);
    ApartBelow(nodes, i, idx);
  }

  /** Number of nodes that leave a list with a block. */
  lemma BlockLength(before: seq<nat>, after: seq<nat>, l: nat, r: nat)
    requires Ascending(before) && Ascending(after) && l <= r
    requires forall i :: i in after <==> i in before && !(l <= i <= r)
    requires forall i :: l <= i <= r ==> i in before
    ensures |after| + (r - l + 1) == |before|
  {
    var a, b := FindBlock(before, l, r);
    BlockMembers(before, a, b);
    assert Ascending(Without(before, a, b)) by {
      assert forall k :: 0 <= k < |Without(before, a, b)| ==>
          Without(before, a, b)[k] == before[if k < a then k else k + (b + 1 - a)];
    }
    ListUnique(Without(before, a, b), after);
  }

  lemma NodesAdd(handed: seq<Handed>, h: Handed)
    ensures Nodes(handed + [h]) == Nodes(handed) + {h.node}
  {
    var all := handed + [h];
    forall n
      ensures n in Nodes(all) <==> n in Nodes(handed) + {h.node}
    {
      if n in Nodes(handed) {
        var k :| 0 <= k < |handed| && handed[k].node == n;
        assert all[k].node == n;
      }
      if n == h.node {
        assert all[|handed|].node == n;
      }
      if n in Nodes(all) {
        var k :| 0 <= k < |all| && all[k].node == n;
        assert k < |handed| ==> handed[k].node == n;
      }
    }
  }

  lemma HandedAntichain(depth: nat, handed: seq<Handed>)
    requires HandedOk(depth, handed)
    ensures Antichain(Nodes(handed))
    ensures forall n :: n in Nodes(handed) ==> 2 <= n && InTree(depth, n)
  {
  }

  /** Handing out an available node keeps the history well formed. */
  lemma HandOut(depth: nat, handed: seq<Handed>, h: Handed)
    requires HandedOk(depth, handed) && InTree(depth, h.node) && Available(Nodes(handed), h.node)
    ensures HandedOk(depth, handed + [h])
    ensures LeavesOf(depth, handed + [h]) == LeavesOf(depth, handed) + Pow2(Height(depth, h.node))
  {
    var all := handed + [h];
    assert all[..|all| - 1] == handed;
    forall k | 0 <= k < |handed|
      ensures !Under(all[k].node, h.node) && !Under(h.node, all[k].node)
    {
      assert handed[k].node in Nodes(handed);
    }
  }

  /** The marks of the other leaves do not change. */
  lemma MarkKept(handed: seq<Handed>, h: Handed, l: nat, mark: nat)
    requires MarkOf(handed, l, mark) && h.node != l
    ensures MarkOf(handed + [h], l, mark)
  {
    NodesAdd(handed, h);
  }

  lemma MarkNew(depth: nat, handed: seq<Handed>, h: Handed, mark: nat)
    requires HandedOk(depth, handed) && h.node !in Nodes(handed) && h.node >= 1
    requires if h.regSize == LEAF_SIZE then mark == REG_MARK_BAD_VALUE else mark == h.regSize < REG_MARK_BAD_VALUE
    ensures MarkOf(handed + [h], h.node, mark)
  {
    NodesAdd(handed, h);
    assert forall k :: 0 <= k < |handed| ==> handed[k].node in Nodes(handed);
  }

  // ---- Random choice of a node ------------------------------------------------------------

  /** The node that the random draws select from the list `s` of available nodes of a level. */
  ghost function Pick(s: seq<nat>, level: nat, draws: seq<nat>): nat
    requires s != [] && |draws| == RANDOM_LOOKUP_TRIES + 1
  {
    if Probing(|s|, level)
    then Probe(s, level, draws, 0)
    else s[draws[0] % |s|]
  }

  predicate Probing(avail: nat, level: nat) {
    avail * 100 / Pow2(level) > RANDOM_LOOKUP_TRESHOLD_PERCENTAGE
  }

  ghost function Probe(s: seq<nat>, level: nat, draws: seq<nat>, i: nat): nat
    requires s != [] && |draws| == RANDOM_LOOKUP_TRIES + 1 && i <= RANDOM_LOOKUP_TRIES
    decreases RANDOM_LOOKUP_TRIES - i
  {
    if i == RANDOM_LOOKUP_TRIES then s[draws[i] % |s|]
    else
      var c := Pow2(level) + draws[i] % Pow2(level);
      if c in s && |s| > 1 then c else Probe(s, level, draws, i + 1)
  }

  /** Whatever is drawn, an available node of the level is chosen. */
  lemma {:induction false} ProbeListed(s: seq<nat>, level: nat, draws: seq<nat>, i: nat)
    requires s != [] && |draws| == RANDOM_LOOKUP_TRIES + 1 && i <= RANDOM_LOOKUP_TRIES
    ensures Probe(s, level, draws, i) in s
    decreases RANDOM_LOOKUP_TRIES - i
  {
    if i < RANDOM_LOOKUP_TRIES {
      ProbeListed(s, level, draws, i + 1);
    }
  }

  lemma PickListed(s: seq<nat>, level: nat, draws: seq<nat>)
    requires s != [] && |draws| == RANDOM_LOOKUP_TRIES + 1
    ensures Pick(s, level, draws) in s
  {
    ProbeListed(s, level, draws, 0);
  }

  /** Every available node of the level is chosen by some 32-bit draws. */
  lemma PickReaches(s: seq<nat>, level: nat, i: nat) returns (draws: seq<nat>)
    requires Ascending(s) && Within(s, Pow2(level), Pow2(level + 1)) && i in s && level <= 15
    ensures |draws| == RANDOM_LOOKUP_TRIES + 1 && forall k :: 0 <= k < |draws| ==> draws[k] < 0x1_0000_0000
    ensures Pick(s, level, draws) == i
  {
    var k: nat :| k < |s| && s[k] == i;
    LevelBound(level);
    GapAtLeast(s, 0, k);
    if |s| == 1 {
      draws := [0, 0, 0, 0, 0];
      PickListed(s, level, draws);
    } else if Probing(|s|, level) {
      draws := [i - Pow2(level), 0, 0, 0, 0];
      ProbeHits(s, level, i, draws);
    } else {
      draws := [k, 0, 0, 0, 0];
      SmallMod(k, |s|);
    }
  }

  lemma ProbeHits(s: seq<nat>, level: nat, i: nat, draws: seq<nat>)
    requires |s| > 1 && i in s && Pow2(level) <= i < 2 * Pow2(level)
    requires |draws| == RANDOM_LOOKUP_TRIES + 1 && draws[0] == i - Pow2(level)
    ensures Probe(s, level, draws, 0) == i
  {
    SmallMod(i - Pow2(level), Pow2(level));
  }

  /** The numbers below `m` that leave the remainder `k`. */
  ghost function Residues(m: nat, n: nat, k: nat): set<nat>
    requires n >= 1
  {
    set d: nat | d < m && d % n == k
  }

  lemma {:induction false} ResiduesCount(m: nat, n: nat, k: nat)
    requires k < n
    ensures |Residues(m, n, k)| == m / n + if k < m % n then 1 else 0
    decreases m
  {
    if m > 0 {
      ResiduesCount(m - 1, n, k);
      NextQuotient(m - 1, n);
      var last: nat := m - 1;
      assert Residues(m, n, k) == Residues(m - 1, n, k) + (if last % n == k then {last} else {});
    } else {
      NextQuotient(0, n);
      assert Residues(0, n, k) == {};
    }
  }

  lemma NextQuotient(m: nat, n: nat)
    requires n >= 1
    ensures 0 / n == 0 % n == 0
    ensures if m % n == n - 1 then (m + 1) / n == m / n + 1 && (m + 1) % n == 0
            else (m + 1) / n == m / n && (m + 1) % n == m % n + 1
  {
    var q, r := m / n, m % n;
    Parts(m, n);
    DivModUnique(0, n, 0, 0);
    if r == n - 1 {
      assert (q + 1) * n == q * n + n;
      DivModUnique(m + 1, n, q + 1, 0);
    } else {
      DivModUnique(m + 1, n, q, r + 1);
    }
  }

  /** The node that probe number `m` looks at. */
  function Candidate(level: nat, draws: seq<nat>, m: nat): nat
    requires m < |draws|
  {
    Pow2(level) + draws[m] % Pow2(level)
  }

  /** Of the available nodes of a level, those before node `i`. */
  ghost function Before(s: seq<nat>, i: nat): set<nat> {
    set j | j in s && j < i
  }

  lemma {:induction false} RankOf(s: seq<nat>, k: nat)
    requires Ascending(s) && k < |s|
    ensures |Before(s, s[k])| == k
    decreases k
  {
    if k > 0 {
      RankOf(s, k - 1);
      BeforeNext(s, k);
    } else {
      assert Before(s, s[0]) == {};
    }
  }

  lemma BeforeNext(s: seq<nat>, k: nat)
    requires Ascending(s) && 1 <= k < |s|
    ensures Before(s, s[k]) == Before(s, s[k - 1]) + {s[k - 1]} && s[k - 1] !in Before(s, s[k - 1])
  {
    var p, q := s[k - 1], s[k];
    forall j | j in s
      ensures j < q <==> j < p || j == p
    {
      var m :| 0 <= m < |s| && s[m] == j;
      if m < k - 1 {
        assert s[m] < s[k - 1];
      } else if m > k {
        assert s[k] < s[m];
      }
    }
  }

  /** What the draws choose: the first candidate that is available, if the level is probed and one of the
      probes hits; otherwise the node with as many available ones before it as the last draw says. */
  lemma PickMeans(s: seq<nat>, level: nat, draws: seq<nat>)
    requires Ascending(s) && s != [] && |draws| == RANDOM_LOOKUP_TRIES + 1
    ensures !Probing(|s|, level) ==> |Before(s, Pick(s, level, draws))| == draws[0] % |s|
    ensures Probing(|s|, level) && |s| > 1 ==> forall m: nat ::
              m < RANDOM_LOOKUP_TRIES && Candidate(level, draws, m) in s
              && (forall j: nat :: j < m ==> Candidate(level, draws, j) !in s) ==>
                Pick(s, level, draws) == Candidate(level, draws, m)
    ensures Probing(|s|, level) && (forall m: nat :: m < RANDOM_LOOKUP_TRIES ==> Candidate(level, draws, m) !in s) ==>
              |Before(s, Pick(s, level, draws))| == draws[RANDOM_LOOKUP_TRIES] % |s|
  {
    RankOf(s, draws[0] % |s|);
    RankOf(s, draws[RANDOM_LOOKUP_TRIES] % |s|);
    ProbeMeans(s, level, draws, 0);
  }

  lemma {:induction false} ProbeMeans(s: seq<nat>, level: nat, draws: seq<nat>, i: nat)
    requires s != [] && |draws| == RANDOM_LOOKUP_TRIES + 1 && i <= RANDOM_LOOKUP_TRIES
    ensures |s| > 1 ==> forall m: nat ::
              i <= m < RANDOM_LOOKUP_TRIES && Candidate(level, draws, m) in s
              && (forall j: nat :: i <= j < m ==> Candidate(level, draws, j) !in s) ==>
                Probe(s, level, draws, i) == Candidate(level, draws, m)
    ensures (forall m: nat :: i <= m < RANDOM_LOOKUP_TRIES ==> Candidate(level, draws, m) !in s) ==>
              Probe(s, level, draws, i) == s[draws[RANDOM_LOOKUP_TRIES] % |s|]
    decreases RANDOM_LOOKUP_TRIES - i
  {
    if i < RANDOM_LOOKUP_TRIES {
      ProbeMeans(s, level, draws, i + 1);
      assert Candidate(level, draws, i) == Pow2(level) + draws[i] % Pow2(level);
    }
  }

  /** Where nothing is probed, equally many 32-bit draws choose each node of the list, up to one. */
  lemma PickFair(s: seq<nat>, level: nat, k: nat, rest: seq<nat>) returns (draws: set<nat>)
    requires Ascending(s) && k < |s| && !Probing(|s|, level) && |rest| == RANDOM_LOOKUP_TRIES
    ensures forall d: nat :: d in draws <==> d < 0x1_0000_0000 && Pick(s, level, [d] + rest) == s[k]
    ensures 0x1_0000_0000 / |s| <= |draws| <= 0x1_0000_0000 / |s| + 1
  {
    draws := Residues(0x1_0000_0000, |s|, k);
    ResiduesCount(0x1_0000_0000, |s|, k);
    forall d: nat
      ensures Pick(s, level, [d] + rest) == s[k] <==> d % |s| == k
    {
      assert ([d] + rest)[0] == d;
      var i := d % |s|;
      if i < k {
        assert s[i] < s[k];
      } else if k < i {
        assert s[k] < s[i];
      }
    }
  }

  lemma LevelBound(level: nat)
    requires level <= 15
    ensures Pow2(level + 1) == 2 * Pow2(level) <= 0x1_0000
  {
    Pow2Monotone(level + 1, 16);
    Pow2Values();
  }

  /** The level whose nodes span `runSize` bytes. */
  function RunLevel(depth: nat, runSize: nat): int
    requires LEAF_SIZE <= runSize
  {
    depth - Level(runSize / LEAF_SIZE)
  }

  lemma RunLevelInTree(depth: nat, runSize: nat)
    requires LEAF_SIZE <= runSize <= LEAF_SIZE * Pow2(depth)
    ensures runSize / LEAF_SIZE >= 1 && 0 <= RunLevel(depth, runSize) <= depth
    ensures RunLevel(depth, runSize) == depth <==> runSize < 2 * LEAF_SIZE
  {
    var q := runSize / LEAF_SIZE;
    if Level(q) > depth {
      Pow2Monotone(depth + 1, Level(q));
    }
  }

  lemma ProbeStep(s: seq<nat>, level: nat, draws: seq<nat>, i: nat)
    requires s != [] && |draws| == RANDOM_LOOKUP_TRIES + 1 && i < RANDOM_LOOKUP_TRIES
    ensures var c := Pow2(level) + draws[i] % Pow2(level);
            OnLevel(c, level) && c >= 1 &&
            Probe(s, level, draws, i) == if c in s && |s| > 1 then c else Probe(s, level, draws, i + 1)
  {
  }

  lemma ProbeLast(s: seq<nat>, level: nat, draws: seq<nat>)
    requires s != [] && |draws| == RANDOM_LOOKUP_TRIES + 1
    ensures Probe(s, level, draws, RANDOM_LOOKUP_TRIES) == s[draws[RANDOM_LOOKUP_TRIES] % |s|]
  {
  }

  /** The list can be walked from its first index along the stored distances. */
  lemma WalkStep(jump: seq<JumpNode>, first: seq<nat>, count: seq<nat>, s: seq<nat>, level: nat, k: nat)
    requires LevelOk(jump, first, count, s, level) && s != [] && k <= |s|
    ensures first[level] == s[0]
    ensures k < |s| ==> 1 <= s[k] <= |jump|
    ensures k + 1 < |s| ==> jump[s[k] - 1].next == s[k + 1] - s[k]
  {
    if k < |s| {
      LinkedAt(jump, s, k);
    }
  }

  lemma SmallMod(x: nat, n: nat)
    requires x < n
    ensures x % n == x
  {
  }
}
