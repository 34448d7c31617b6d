/** The depth-first search for a metadata block: what holds between its steps. */
module MetaSearch {
  import opened TreeIndex
  import opened PackedStates
  import opened MetaTree
  import opened MetaFree

  datatype SearchState = Down | UpLeft | UpRight

  /** The local variables of the search. */
  datatype Search = Search(idx: nat, state: SearchState, curSize: nat, ptr: int)

  /** What a search is started with. */
  datatype Request = Request(depth: nat, memory: nat, live: set<nat>, size: nat, items: seq<TwoBit>)

  /** A search is on its way, or has split a free node and is descending in it, or has gone astray
      after backing out of the root. */
  datatype Mode = Plain | Splitting | Astray(step: nat)

  /** Height of the smallest block that holds `size` bytes. */
  function FitHeight(size: nat): nat {
    if size <= BLOCK_SIZE then 0 else 1 + FitHeight((size + 1) / 2)
  }

  ghost function Total(depth: nat): nat {
    BLOCK_SIZE * Pow2(depth)
  }

  /** The request fits into the whole memory, and not all memory is in use. */
  ghost predicate RequestOk(e: Request) {
    && e.depth >= 2 && FitHeight(e.size) <= e.depth
    && LiveOk(e.live, e.depth) && CanonOk(e.items, e.live, e.depth)
    && BLOCK_SIZE * LeavesIn(e.live, 1, e.depth) + e.size <= Total(e.depth)
    && !Covered(e.live, 1, e.depth)
  }

  /** No block of the requested height that starts before leaf `f` is free. */
  ghost predicate NoneBefore(e: Request, f: nat)
    requires FitHeight(e.size) <= e.depth
  {
    forall j: nat :: OnLevel(j, e.depth - FitHeight(e.size)) && j * Pow2(FitHeight(e.size)) < f ==> !Apart(e.live, j)
  }

  /** Node `t` is the free block of the requested height with the lowest address. */
  ghost predicate FirstFit(e: Request, t: nat)
    requires FitHeight(e.size) <= e.depth
  {
    && OnLevel(t, e.depth - FitHeight(e.size)) && Apart(e.live, t)
    && forall j: nat :: OnLevel(j, e.depth - FitHeight(e.size)) && j < t ==> !Apart(e.live, j)
  }

  ghost predicate NoFit(e: Request)
    requires FitHeight(e.size) <= e.depth
  {
    forall j: nat :: OnLevel(j, e.depth - FitHeight(e.size)) ==> !Apart(e.live, j)
  }

  /** The search leaves the tree: more than half of the memory is requested, the root is split,
      and one half is free as a whole. */
  ghost predicate GoesAstray(items: seq<TwoBit>, depth: nat, size: nat)
    requires |items| >= 3
  {
    items[0] == NODE_SPLIT && Total(depth) < 2 * size && (items[1] == NODE_FREE || items[2] == NODE_FREE)
  }

  /** First leaf that the search has not passed yet. */
  ghost function Frontier(e: Request, s: Search): nat
    requires InTree(e.depth, s.idx)
  {
    var h := Height(e.depth, s.idx);
    match s.state
    case Down => First(e.depth, s.idx)
    case UpLeft => First(e.depth, s.idx) + (if h > 0 then Pow2(h - 1) else 0)
    case UpRight => First(e.depth, s.idx) + Pow2(h)
  }

  ghost predicate At(e: Request, s: Search) {
    && InTree(e.depth, s.idx) && s.curSize == BlockLen(e.depth, s.idx)
    && s.ptr == BlockAddr(e.memory, e.depth, s.idx)
  }

  ghost predicate OnTheWay(e: Request, s: Search)
    requires FitHeight(e.size) <= e.depth
  {
    && At(e, s) && Height(e.depth, s.idx) >= FitHeight(e.size)
    && NoneBefore(e, Frontier(e, s))
  }

  ghost predicate PlainInv(e: Request, items: seq<TwoBit>, s: Search)
    requires FitHeight(e.size) <= e.depth
  {
    && OnTheWay(e, s) && items == e.items && Visible(e.live, s.idx)
    && (s.state != Down ==>
          Height(e.depth, s.idx) > FitHeight(e.size) && HasBelow(e.live, s.idx) && s.idx !in e.live)
  }

  /** The seven steps of a search that backed out of the split root. */
  ghost predicate AstrayInv(e: Request, items: seq<TwoBit>, s: Search, n: nat) {
    var m := Total(e.depth);
    && items == e.items && |items| >= 3 && items[0] == NODE_SPLIT && m < 2 * e.size && 1 <= n <= 7
    && FitHeight(e.size) == e.depth
    && (n >= 5 ==> items[1] != NODE_FREE) && (n == 7 ==> items[2] != NODE_FREE)
    && s == match n
            case 1 => Search(0, UpRight, 2 * m, e.memory - m)
            case 2 => Search(0, UpLeft, 4 * m, e.memory - m)
            case 3 => Search(1, Down, 2 * m, e.memory + m)
            case 4 => Search(2, Down, m, e.memory + m)
            case 5 => Search(1, UpLeft, 2 * m, e.memory + m)
            case 6 => Search(3, Down, m, e.memory + 2 * m)
            case _ => Search(1, UpRight, 2 * m, e.memory + m)
  }

  /** What holds before every step of the search. */
  ghost predicate Inv(e: Request, items: seq<TwoBit>, s: Search, m: Mode)
    requires FitHeight(e.size) <= e.depth
  {
    match m
    case Plain => PlainInv(e, items, s)
    case Splitting => OnTheWay(e, s) && s.state == Down && s.idx > 1 && PendingOk(items, e.live, e.depth, s.idx)
    case Astray(n) => AstrayInv(e, items, s, n)
  }

  // ---- Termination ------------------------------------------------------------------------

  ghost function Rank0(e: Request, s: Search, m: Mode): nat {
    if m.Astray? || !InTree(e.depth, s.idx) || Frontier(e, s) > 2 * Pow2(e.depth) then 0
    else 1 + 2 * Pow2(e.depth) - Frontier(e, s)
  }

  ghost function Rank1(s: Search, m: Mode): nat {
    match m
    case Astray(n) => if n <= 8 then 8 - n else 0
    case _ => match s.state case Down => 0 case UpLeft => 1 case UpRight => 2
  }

  ghost function Rank2(e: Request, s: Search, m: Mode): nat {
    if m.Astray? || !InTree(e.depth, s.idx) then 0
    else if s.state == Down then Height(e.depth, s.idx)
    else if Height(e.depth, s.idx) <= e.depth then e.depth - Height(e.depth, s.idx) else 0
  }

  /** The position in the walk around the tree advances. */
  ghost predicate Advances(e: Request, s: Search, m: Mode, s': Search, m': Mode) {
    || Rank0(e, s', m') < Rank0(e, s, m)
    || (Rank0(e, s', m') == Rank0(e, s, m) &&
        (Rank1(s', m') < Rank1(s, m) || (Rank1(s', m') == Rank1(s, m) && Rank2(e, s', m') < Rank2(e, s, m))))
  }

  // ---- Steps ------------------------------------------------------------------------------

  function GoUp(s: Search): Search {
    Search(s.idx / 2, if s.idx % 2 == 1 then UpRight else UpLeft, s.curSize * 2, if s.idx % 2 == 1
             then s.ptr - s.curSize else s.ptr)
  }

  function GoLeft(s: Search): Search {
    Search(2 * s.idx, s.state, s.curSize / 2, s.ptr)
  }

  function GoRight(s: Search): Search {
    Search(2 * s.idx + 1, Down, s.curSize / 2, s.ptr + s.curSize / 2)
  }

  predicate Fits(s: Search, size: nat) {
    s.curSize / 2 < size && size <= s.curSize
  }

  lemma {:induction false} FitHeightBounds(size: nat)
    ensures size <= BLOCK_SIZE * Pow2(FitHeight(size))
    ensures FitHeight(size) > 0 ==> size > BLOCK_SIZE * Pow2(FitHeight(size) - 1)
    decreases size
  {
    if size > BLOCK_SIZE {
      FitHeightBounds((size + 1) / 2);
    }
  }

  /** A block of height `h` is the smallest that fits exactly if its size says so. */
  lemma FitsIff(e: Request, s: Search)
    requires At(e, s) && Height(e.depth, s.idx) > 0
    ensures Fits(s, e.size) <==> Height(e.depth, s.idx) == FitHeight(e.size)
  {
    FitHeightBounds(e.size);
    FitsIffHeight(e.size, FitHeight(e.size), Height(e.depth, s.idx));
  }

  lemma FitsIffHeight(size: nat, k: nat, h: nat)
    requires h > 0 && size <= BLOCK_SIZE * Pow2(k) && (k > 0 ==> size > BLOCK_SIZE * Pow2(k - 1))
    requires k == 0 || size > BLOCK_SIZE * Pow2(k - 1)
    ensures BLOCK_SIZE * Pow2(h) / 2 == BLOCK_SIZE * Pow2(h - 1)
    ensures BLOCK_SIZE * Pow2(h - 1) < size <= BLOCK_SIZE * Pow2(h) <==> h == k
  {
    if h < k {
      Pow2Monotone(h, k - 1);
    } else if k < h {
      Pow2Monotone(k, h - 1);
    }
  }

  lemma StartSearch(e: Request)
    requires RequestOk(e)
    ensures Inv(e, e.items, Search(1, Down, Total(e.depth), e.memory), Plain)
  {
    RootFirst(e.depth);
    var k := FitHeight(e.size);
    forall j: nat | OnLevel(j, e.depth - k)
      ensures j * Pow2(k) >= Pow2(e.depth)
    {
      Pow2Add(e.depth - k, k);
      MulMonotone(Pow2(e.depth - k), j, Pow2(k));
    }
  }

  /** A block of the requested height that starts inside the memory of `i` lies below `i`. */
  lemma StartsBelow(e: Request, i: nat, j: nat)
    requires FitHeight(e.size) <= e.depth && InTree(e.depth, i) && Height(e.depth, i) >= FitHeight(e.size)
    requires OnLevel(j, e.depth - FitHeight(e.size))
    requires First(e.depth, i) <= j * Pow2(FitHeight(e.size)) < First(e.depth, i) + Pow2(Height(e.depth, i))
    ensures Under(j, i) && InTree(e.depth, j) && Level(j) == e.depth - FitHeight(e.size)
  {
    hide FitHeight, Under, Level, Pow2;
    var k, h := FitHeight(e.size), Height(e.depth, i);
    LevelUnique(j, e.depth - k);
    Pow2Monotone(e.depth - k + 1, e.depth + 1);
    HeightInTree(e.depth, i);
    UnderInterval(j, i, h - k);
    Pow2Add(h - k, k);
    BelowScale(i, j, Pow2(h - k), Pow2(k));
  }

  lemma BelowScale(i: nat, j: nat, p: nat, q: nat)
    requires p >= 1 && q >= 1 && i * (p * q) <= j * q < i * (p * q) + p * q
    ensures i * p <= j < (i + 1) * p
  {
    assert i * (p * q) == (i * p) * q && (i + 1) * p == i * p + p && (i * p + p) * q == (i * p) * q + p * q;
    assert (j + 1) * q == j * q + q;
    if j < i * p {
      MulMonotone(j + 1, i * p, q);
    } else if j >= i * p + p {
      MulMonotone(i * p + p, j, q);
    }
  }

  /** Nothing free lies below a node that is used, full, or split at the requested height. */
  lemma BlockedNode(e: Request, i: nat)
    requires RequestOk(e) && InTree(e.depth, i) && Visible(e.live, i) && Height(e.depth, i) >= FitHeight(e.size)
    requires e.items[i - 1] != NODE_FREE
    requires e.items[i - 1] == NODE_SPLIT ==> Height(e.depth, i) == FitHeight(e.size)
    requires NoneBefore(e, First(e.depth, i))
    ensures NoneBefore(e, First(e.depth, i) + Pow2(Height(e.depth, i)))
  {
    hide First, FitHeight, CanonOk, Canon, Covered, Level, Pow2, Apart, Visible, HasBelow;
    var k, h := FitHeight(e.size), Height(e.depth, i);
    forall j: nat | OnLevel(j, e.depth - k) && First(e.depth, i) <= j * Pow2(k) < First(e.depth, i) + Pow2(h)
      ensures !Apart(e.live, j)
    {
      StartsBelow(e, i, j);
      BlockedBelow(e, i, j);
    }
  }

  lemma BlockedBelow(e: Request, i: nat, j: nat)
    requires RequestOk(e) && InTree(e.depth, i) && Visible(e.live, i) && Height(e.depth, i) >= FitHeight(e.size)
    requires e.items[i - 1] != NODE_FREE && (e.items[i - 1] == NODE_SPLIT ==> Height(e.depth, i) == FitHeight(e.size))
    requires Under(j, i) && InTree(e.depth, j) && Level(j) == e.depth - FitHeight(e.size)
    ensures !Apart(e.live, j)
  {
    hide FitHeight, LeavesIn, Level;
    assert NodeOk(e.items, e.live, e.depth, i);
    HeightInTree(e.depth, i);
    if e.items[i - 1] == NODE_SPLIT {
      if i != j {
        UnderLevel(j, i);
      }
    } else {
      assert Covered(e.live, i, Height(e.depth, i));
      CoveredBlocks(e.live, i, Height(e.depth, i), j);
    }
  }

  /** Geometry of a step up. */
  lemma UpGeometry(e: Request, s: Search)
    requires At(e, s) && s.idx > 1
    ensures At(e, GoUp(s)) && Height(e.depth, s.idx / 2) == Height(e.depth, s.idx) + 1
    ensures Frontier(e, GoUp(s)) == First(e.depth, s.idx) + Pow2(Height(e.depth, s.idx))
  {
    var p := s.idx / 2;
    assert s.idx == 2 * p + s.idx % 2;
    HeightInTree(e.depth, s.idx);
    HeightInTree(e.depth, p);
    ChildFirst(e.depth, p);
    UpAddress(e, s, p);
  }

  lemma UpAddress(e: Request, s: Search, p: nat)
    requires At(e, s) && (s.idx == 2 * p || s.idx == 2 * p + 1) && InTree(e.depth, p)
             && Height(e.depth, p) == Height(e.depth, s.idx) + 1
    requires Pow2(Height(e.depth, p)) == 2 * Pow2(Height(e.depth, s.idx))
    requires First(e.depth, s.idx) == First(e.depth, p) + if s.idx == 2 * p then 0 else Pow2(Height(e.depth, s.idx))
    ensures At(e, GoUp(s))
    ensures Frontier(e, GoUp(s)) == First(e.depth, s.idx) + Pow2(Height(e.depth, s.idx))
  {
    hide First, Level, Height, Pow2, InTree;
  }

  lemma FrontierBound(e: Request, s: Search)
    requires InTree(e.depth, s.idx)
    ensures Frontier(e, s) <= 2 * Pow2(e.depth)
  {
    UnderRoot(s.idx);
    RootFirst(e.depth);
    Nested(e.depth, s.idx, 1);
    HeightInTree(e.depth, s.idx);
    if Height(e.depth, s.idx) > 0 {
      assert Pow2(Height(e.depth, s.idx)) == 2 * Pow2(Height(e.depth, s.idx) - 1);
    }
  }

  /** Backing out of a node that offers nothing. */
  lemma StepBlocked(e: Request, items: seq<TwoBit>, s: Search)
    requires RequestOk(e) && PlainInv(e, items, s) && s.state == Down && s.idx > 1 && items[s.idx - 1] != NODE_FREE
    requires items[s.idx - 1] == NODE_SPLIT ==> Height(e.depth, s.idx) == FitHeight(e.size)
    ensures Inv(e, items, GoUp(s), Plain) && Advances(e, s, Plain, GoUp(s), Plain)
  {
    BlockedNode(e, s.idx);
    UpGeometry(e, s);
    VisibleParent(e.live, s.idx);
    FrontierBound(e, GoUp(s));
  }

  lemma StepUp(e: Request, items: seq<TwoBit>, s: Search)
    requires RequestOk(e) && PlainInv(e, items, s) && s.state == UpRight && s.idx > 1
    ensures Inv(e, items, GoUp(s), Plain) && Advances(e, s, Plain, GoUp(s), Plain)
  {
    UpGeometry(e, s);
    VisibleParent(e.live, s.idx);
    FrontierBound(e, GoUp(s));
    HeightInTree(e.depth, s.idx / 2);
  }

  /** Backing out of the split root. */
  lemma StepAstray(e: Request, items: seq<TwoBit>, s: Search)
    requires RequestOk(e) && PlainInv(e, items, s) && s.state == Down && s.idx == 1 && items[0] == NODE_SPLIT
    requires Height(e.depth, 1) == FitHeight(e.size)
    ensures Inv(e, items, GoUp(s), Astray(1)) && Advances(e, s, Plain, GoUp(s), Astray(1))
  {
    RootFirst(e.depth);
    FitHeightBounds(e.size);
    FrontierBound(e, s);
    assert Pow2(e.depth) == 2 * Pow2(e.depth - 1);
    assert 3 < Pow2(e.depth + 1);
  }

  lemma StepLeft(e: Request, items: seq<TwoBit>, s: Search)
    requires RequestOk(e) && PlainInv(e, items, s) && s.state == Down && items[s.idx - 1] == NODE_SPLIT
    requires Height(e.depth, s.idx) > FitHeight(e.size)
    ensures Inv(e, items, GoLeft(s), Plain) && Advances(e, s, Plain, GoLeft(s), Plain)
  {
    hide RequestOk, At, Frontier, First, BlockAddr, BlockLen, Pow2, NoneBefore, Height, InTree, HasBelow;
    LeftFacts(e, items, s);
    LeftGeometry(e, s);
  }

  lemma LeftFacts(e: Request, items: seq<TwoBit>, s: Search)
    requires RequestOk(e) && PlainInv(e, items, s) && items[s.idx - 1] == NODE_SPLIT
    ensures At(e, s) && InTree(e.depth, s.idx) && FitHeight(e.size) <= e.depth
    ensures Visible(e.live, 2 * s.idx) && Frontier(e, s) <= 2 * Pow2(e.depth)
  {
    FrontierBound(e, s);
    assert NodeOk(items, e.live, e.depth, s.idx);
    assert (2 * s.idx) / 2 == s.idx;
  }

  /** Geometry of a step to the left child. */
  lemma LeftGeometry(e: Request, s: Search)
    requires At(e, s) && Height(e.depth, s.idx) > 0
    ensures At(e, GoLeft(s)) && Height(e.depth, 2 * s.idx) == Height(e.depth, s.idx) - 1
    ensures s.state == Down ==> Frontier(e, GoLeft(s)) == Frontier(e, s)
  {
    ChildFirst(e.depth, s.idx);
  }

  /** Geometry of a step to the right child. */
  lemma RightGeometry(e: Request, s: Search)
    requires At(e, s) && Height(e.depth, s.idx) > 0
    ensures At(e, GoRight(s)) && Height(e.depth, 2 * s.idx + 1) == Height(e.depth, s.idx) - 1
    ensures s.state == UpLeft ==> Frontier(e, GoRight(s)) == Frontier(e, s)
  {
    ChildFirst(e.depth, s.idx);
  }

  lemma StepRight(e: Request, items: seq<TwoBit>, s: Search)
    requires RequestOk(e) && PlainInv(e, items, s) && s.state == UpLeft
    ensures Inv(e, items, GoRight(s), Plain) && Advances(e, s, Plain, GoRight(s), Plain)
  {
    hide RequestOk, At, Frontier, First, BlockAddr, BlockLen, Pow2, NoneBefore, Height, InTree, HasBelow;
    RightFacts(e, items, s);
    RightGeometry(e, s);
  }

  lemma RightFacts(e: Request, items: seq<TwoBit>, s: Search)
    requires RequestOk(e) && PlainInv(e, items, s) && s.state == UpLeft
    ensures At(e, s) && InTree(e.depth, s.idx) && Height(e.depth, s.idx) > 0 && FitHeight(e.size) <= e.depth
    ensures Visible(e.live, 2 * s.idx + 1) && Frontier(e, s) <= 2 * Pow2(e.depth)
  {
    FrontierBound(e, s);
    assert (2 * s.idx + 1) / 2 == s.idx;
  }

  /** Splitting a free node that is larger than requested. */
  lemma StepSplit(e: Request, items: seq<TwoBit>, s: Search, m: Mode)
    requires RequestOk(e) && Inv(e, items, s, m) && !m.Astray? && s.state == Down
    requires InTree(e.depth, s.idx) && s.idx <= |items| && items[s.idx - 1] == NODE_FREE
             && Height(e.depth, s.idx) > FitHeight(e.size)
    ensures 2 * s.idx + 1 < Pow2(e.depth + 1) <= |items|
    ensures Inv(e, items[s.idx - 1 := NODE_SPLIT][2 * s.idx - 1 := NODE_FREE][2 * s.idx := NODE_FREE], GoLeft(s),
                Splitting)
    ensures Advances(e, s, m, GoLeft(s), Splitting)
  {
    if m.Plain? {
      PendingFromCanon(items, e.live, e.depth, s.idx);
    }
    ChildFirst(e.depth, s.idx);
    SplitPending(items, e.live, e.depth, s.idx);
    FrontierBound(e, GoLeft(s));
  }

  /** The first free node of the requested height is the first fit. */
  lemma VisitFree(e: Request, items: seq<TwoBit>, s: Search, m: Mode)
    requires RequestOk(e) && Inv(e, items, s, m) && !m.Astray? && s.state == Down
    requires InTree(e.depth, s.idx) && s.idx <= |items| && items[s.idx - 1] == NODE_FREE
             && Height(e.depth, s.idx) == FitHeight(e.size)
    ensures PendingOk(items, e.live, e.depth, s.idx) && FirstFit(e, s.idx)
    ensures |e.items| >= 3 && !GoesAstray(e.items, e.depth, e.size)
    ensures s.ptr == BlockAddr(e.memory, e.depth, s.idx) && s.curSize == BlockLen(e.depth, s.idx)
  {
    hide NoneBefore, CanonOk, PendingOk, Apart, Visible, GoesAstray, BlockLen, BlockAddr, FirstFit, First, Total,
         LeavesIn, FitHeight;
    FreeIsPending(e, items, s, m);
    FreeIsFirst(e, items, s, m);
    FreeOnCourse(e, items, s, m);
  }

  lemma FreeIsPending(e: Request, items: seq<TwoBit>, s: Search, m: Mode)
    requires RequestOk(e) && Inv(e, items, s, m) && !m.Astray?
    requires InTree(e.depth, s.idx) && s.idx <= |items| && items[s.idx - 1] == NODE_FREE
    ensures PendingOk(items, e.live, e.depth, s.idx) && Apart(e.live, s.idx)
  {
    hide NoneBefore, CanonOk, At, Frontier, Antichain, Visible;
    if m.Plain? {
      PendingFromCanon(items, e.live, e.depth, s.idx);
    }
  }

  lemma FreeIsFirst(e: Request, items: seq<TwoBit>, s: Search, m: Mode)
    requires RequestOk(e) && Inv(e, items, s, m) && !m.Astray? && s.state == Down && Apart(e.live, s.idx)
    requires InTree(e.depth, s.idx) && Height(e.depth, s.idx) == FitHeight(e.size)
    ensures FirstFit(e, s.idx)
  {
    hide CanonOk, PendingOk, Apart, Visible, Antichain, BlockLen, BlockAddr;
    var k := FitHeight(e.size);
    HeightInTree(e.depth, s.idx);
    forall j: nat | OnLevel(j, e.depth - k) && j < s.idx
      ensures !Apart(e.live, j)
    {
      BeforeScale(j, s.idx, Pow2(k));
    }
  }

  lemma BeforeScale(j: nat, i: nat, p: nat)
    requires j < i && p >= 1
    ensures j * p < i * p
  {
    MulMonotone(j + 1, i, p);
    assert (j + 1) * p == j * p + p;
  }

  /** A request for more than half of the memory fits the root only. */
  lemma FreeOnCourse(e: Request, items: seq<TwoBit>, s: Search, m: Mode)
    requires RequestOk(e) && Inv(e, items, s, m) && !m.Astray?
    requires InTree(e.depth, s.idx) && s.idx <= |items| && items[s.idx - 1] == NODE_FREE
             && Height(e.depth, s.idx) == FitHeight(e.size)
    ensures |e.items| >= 3 && !GoesAstray(e.items, e.depth, e.size)
  {
    hide NoneBefore, PendingOk, Apart, Visible, Antichain, BlockLen, BlockAddr, LeavesIn, HasBelow, Covered;
    HeightInTree(e.depth, s.idx);
    FitHeightBounds(e.size);
    assert Pow2(e.depth) == 2 * Pow2(e.depth - 1);
    assert Pow2(2) == 4;
    Pow2Monotone(2, e.depth);
    if FitHeight(e.size) < e.depth {
      Pow2Monotone(FitHeight(e.size), e.depth - 1);
    } else {
      assert Level(s.idx) == 0;
      assert s.idx == 1;
    }
  }

  /** The search ends at the root: nothing fits. */
  lemma EndOfSearch(e: Request, items: seq<TwoBit>, s: Search, m: Mode)
    requires RequestOk(e) && Inv(e, items, s, m) && s.idx == 1 && s.state == UpRight
    ensures items == e.items && NoFit(e)
    ensures |e.items| >= 3 && !GoesAstray(e.items, e.depth, e.size)
  {
    var k := FitHeight(e.size);
    RootFirst(e.depth);
    FitHeightBounds(e.size);
    assert 3 < Pow2(e.depth + 1);
    if m.Plain? {
      Pow2Monotone(k, e.depth - 1);
      assert Pow2(e.depth) == 2 * Pow2(e.depth - 1);
      forall j: nat | OnLevel(j, e.depth - k)
        ensures j * Pow2(k) < 2 * Pow2(e.depth)
      {
        Pow2Add(e.depth - k + 1, k);
        MulMonotone(j + 1, Pow2(e.depth - k + 1), Pow2(k));
        assert (j + 1) * Pow2(k) == j * Pow2(k) + Pow2(k);
      }
    } else {
      RootTaken(e);
    }
  }

  lemma RootTaken(e: Request)
    requires RequestOk(e) && FitHeight(e.size) == e.depth && e.items[0] == NODE_SPLIT
    ensures NoFit(e)
  {
    assert 1 < Pow2(e.depth + 1);
    assert NodeOk(e.items, e.live, e.depth, 1);
    assert forall j: nat :: OnLevel(j, 0) ==> j == 1;
  }

  // ---- Astray -----------------------------------------------------------------------------

  /** With more than half of the memory free, neither half is used up. */
  lemma HalvesNotFull(e: Request)
    requires RequestOk(e) && e.items[0] == NODE_SPLIT && Total(e.depth) < 2 * e.size
    ensures |e.items| >= 3 && e.items[1] in {NODE_FREE, NODE_SPLIT} && e.items[2] in {NODE_FREE, NODE_SPLIT}
  {
    var d := e.depth;
    assert Pow2(d) == 2 * Pow2(d - 1) && 3 < Pow2(d + 1);
    RootFirst(d);
    ChildFirst(d, 1);
    assert NodeOk(e.items, e.live, d, 1);
    assert Visible(e.live, 2) && Visible(e.live, 3);
    assert NodeOk(e.items, e.live, d, 2) && NodeOk(e.items, e.live, d, 3);
    LeavesBound(e.live, 2, d - 1);
    LeavesBound(e.live, 3, d - 1);
  }

  /** One step of a search that is astray; it allocates exactly if a half is free. */
  lemma StepsAstray(e: Request, items: seq<TwoBit>, s: Search, n: nat)
    requires RequestOk(e) && AstrayInv(e, items, s, n) && n < 7
    ensures |items| >= 3 && (s.idx == 0 || 1 <= s.idx <= 3)
    ensures n == 1 || n == 2 ==> s.idx == 0
    ensures n == 1 ==> s.state == UpRight && AstrayInv(e, items, GoUp(s), 2)
    ensures n == 2 || n == 5 ==> s.state == UpLeft && AstrayInv(e, items, GoRight(s), n + 1)
    ensures n == 3 ==>
              s.state == Down && items[s.idx - 1] == NODE_SPLIT && !Fits(s, e.size) && AstrayInv(e, items, GoLeft(s), 4)
    ensures n == 4 || n == 6 ==>
              s.state == Down && Fits(s, e.size) && (items[s.idx - 1] == NODE_FREE || items[s.idx - 1] == NODE_SPLIT)
    ensures n == 4 || n == 6 ==> items[s.idx - 1] == NODE_SPLIT ==> AstrayInv(e, items, GoUp(s), n + 1)
    ensures n == 4 || n == 6 ==> items[s.idx - 1] == NODE_FREE ==>
              GoesAstray(e.items, e.depth, e.size) && s.curSize == Total(e.depth)
              && (s.ptr == e.memory + Total(e.depth) || s.ptr == e.memory + 2 * Total(e.depth))
  {
    HalvesNotFull(e);
    LeavesBound(e.live, 1, e.depth);
  }

  // ---- The branches of the loop -----------------------------------------------------------

  /** The mode after a step that splits nothing. */
  ghost function Next(s: Search, m: Mode): Mode {
    if m.Astray? then Astray(m.step + 1)
    else if m.Plain? && s.idx == 1 && s.state == Down then Astray(1)
    else m
  }

  /** What the loop may rely on when it looks at the tree. */
  lemma Looking(e: Request, items: seq<TwoBit>, s: Search, m: Mode)
    requires RequestOk(e) && Inv(e, items, s, m) && Pow2(e.depth + 1) <= |items|
    ensures s.state == Down ==> InTree(e.depth, s.idx)
    ensures Pow2(e.depth) <= s.idx ==>
              s.state == Down && !m.Astray? && Height(e.depth, s.idx) == FitHeight(e.size)
              && items[s.idx - 1] in {NODE_FREE, NODE_USED}
  {
    hide NoneBefore, At, Frontier, Covered, CanonOk, LeavesIn, Apart, Antichain;
    assert Pow2(e.depth + 1) == 2 * Pow2(e.depth) && Pow2(2) == 4;
    Pow2Monotone(2, e.depth);
    AlwaysInTree(e, items, s, m);
    if Pow2(e.depth) <= s.idx {
      HeightInTree(e.depth, s.idx);
      LeafState(e, items, s, m);
    }
  }

  lemma AlwaysInTree(e: Request, items: seq<TwoBit>, s: Search, m: Mode)
    requires RequestOk(e) && Inv(e, items, s, m)
    ensures !m.Astray? ==> InTree(e.depth, s.idx) && Height(e.depth, s.idx) >= FitHeight(e.size)
    ensures m.Astray? ==> s.idx <= 3
  {
    hide NoneBefore, Frontier, Covered, CanonOk, LeavesIn, Apart, Antichain, PendingOk;
  }

  lemma LeafState(e: Request, items: seq<TwoBit>, s: Search, m: Mode)
    requires RequestOk(e) && Inv(e, items, s, m) && !m.Astray? && InTree(e.depth, s.idx) && Height(e.depth, s.idx) == 0
    requires s.idx <= |items|
    ensures items[s.idx - 1] in {NODE_FREE, NODE_USED}
  {
    hide NoneBefore, At, Frontier, LeavesIn, Apart, Antichain, Under, Level;
    if m.Plain? {
      assert NodeOk(items, e.live, e.depth, s.idx);
      if HasBelow(e.live, s.idx) {
        HeightInTree(e.depth, s.idx);
        LeafLive(e, s.idx);
      }
    }
  }

  lemma LeafLive(e: Request, i: nat)
    requires LiveOk(e.live, e.depth) && InTree(e.depth, i) && Height(e.depth, i) == 0 && HasBelow(e.live, i)
    ensures i in e.live
  {
    var x :| x in e.live && Under(x, i);
    HeightInTree(e.depth, i);
    HeightInTree(e.depth, x);
    if x != i {
      UnderLevel(x, i);
    }
  }

  /** Nothing can be had from this node: back out. */
  lemma StepBack(e: Request, items: seq<TwoBit>, s: Search, m: Mode)
    requires RequestOk(e) && Inv(e, items, s, m) && Pow2(e.depth + 1) <= |items| && s.state == Down
             && InTree(e.depth, s.idx)
    requires items[s.idx - 1] != NODE_FREE
             && (items[s.idx - 1] == NODE_SPLIT ==> Fits(s, e.size) && s.idx < Pow2(e.depth))
    ensures Inv(e, items, GoUp(s), Next(s, m)) && Advances(e, s, m, GoUp(s), Next(s, m))
  {
    hide NoneBefore, At, Frontier, LeavesIn, Apart, Antichain, Under, Level, NodeOk, First;
    if m.Astray? {
      StepsAstray(e, items, s, m.step);
    } else {
      assert m.Plain?;
      if items[s.idx - 1] == NODE_SPLIT {
        HeightInTree(e.depth, s.idx);
        FitsIff(e, s);
      }
      if s.idx == 1 {
        RootSplit(e);
        StepAstray(e, items, s);
      } else {
        StepBlocked(e, items, s);
      }
    }
  }

  /** The root is not full or used, as some memory is free. */
  lemma RootSplit(e: Request)
    requires RequestOk(e)
    ensures InTree(e.depth, 1) && Height(e.depth, 1) == e.depth && e.items[0] in {NODE_FREE, NODE_SPLIT}
  {
    RootFirst(e.depth);
    assert NodeOk(e.items, e.live, e.depth, 1);
  }

  /** A split node that is larger than requested: look into its left half. */
  lemma StepInto(e: Request, items: seq<TwoBit>, s: Search, m: Mode)
    requires RequestOk(e) && Inv(e, items, s, m) && Pow2(e.depth + 1) <= |items| && s.state == Down
             && 1 <= s.idx < Pow2(e.depth)
    requires items[s.idx - 1] == NODE_SPLIT && !Fits(s, e.size)
    ensures Inv(e, items, GoLeft(s), if m.Astray? then Next(s, m) else m)
            && Advances(e, s, m, GoLeft(s), if m.Astray? then Next(s, m) else m)
  {
    hide NoneBefore, Frontier, LeavesIn, Apart, Antichain, Under, Level, NodeOk, First;
    if m.Astray? {
      StepsAstray(e, items, s, m.step);
    } else {
      assert m.Plain?;
      HeightInTree(e.depth, s.idx);
      FitsIff(e, s);
      StepLeft(e, items, s);
    }
  }

  /** On the way up from a left child, or on through the root when astray. */
  lemma StepOver(e: Request, items: seq<TwoBit>, s: Search, m: Mode)
    requires RequestOk(e) && Inv(e, items, s, m) && s.state == UpLeft
    ensures Inv(e, items, GoRight(s), Next(s, m)) && Advances(e, s, m, GoRight(s), Next(s, m))
  {
    hide NoneBefore, At, Frontier, LeavesIn, Apart, Antichain, Under, Level, NodeOk, First;
    if m.Astray? {
      StepsAstray(e, items, s, m.step);
    } else {
      StepRight(e, items, s);
    }
  }

  lemma StepOut(e: Request, items: seq<TwoBit>, s: Search, m: Mode)
    requires RequestOk(e) && Inv(e, items, s, m) && s.state == UpRight && s.idx != 1
    ensures Inv(e, items, GoUp(s), Next(s, m)) && Advances(e, s, m, GoUp(s), Next(s, m))
  {
    hide NoneBefore, Frontier, LeavesIn, Apart, Antichain, Under, Level, NodeOk, First;
    if m.Astray? {
      StepsAstray(e, items, s, m.step);
    } else {
      StepUp(e, items, s);
    }
  }

  /** Where a free node is met that fits: it is the first fit, or the search is astray. */
  lemma StepTake(e: Request, items: seq<TwoBit>, s: Search, m: Mode)
    requires RequestOk(e) && Inv(e, items, s, m) && Pow2(e.depth + 1) <= |items| && s.state == Down
             && InTree(e.depth, s.idx)
    requires items[s.idx - 1] == NODE_FREE && (Fits(s, e.size) || Pow2(e.depth) <= s.idx)
    ensures |e.items| >= 3 && (m.Astray? <==> GoesAstray(e.items, e.depth, e.size))
    ensures !m.Astray? ==> PendingOk(items, e.live, e.depth, s.idx) && FirstFit(e, s.idx)
    ensures !m.Astray? ==> s.ptr == BlockAddr(e.memory, e.depth, s.idx) && s.curSize == BlockLen(e.depth, s.idx)
    ensures m.Astray? ==> AstrayTake(e, items, s)
  {
    hide NoneBefore, At, Frontier, LeavesIn, Apart, Antichain, Under, Level, NodeOk, First, BlockAddr, BlockLen;
    if m.Astray? {
      StepsAstray(e, items, s, m.step);
      HalvesNotFull(e);
    } else {
      HeightInTree(e.depth, s.idx);
      if s.idx < Pow2(e.depth) {
        FitsIff(e, s);
      } else {
        Looking(e, items, s, m);
      }
      VisitFree(e, items, s, m);
    }
  }

  /** What an astray search takes: a half, with an address behind the memory and the size of all of it. */
  ghost predicate AstrayTake(e: Request, items: seq<TwoBit>, s: Search) {
    && items == e.items && |items| >= 3 && (s.idx == 2 || s.idx == 3) && s.curSize == Total(e.depth)
    && s.ptr == e.memory + (s.idx - 1) * Total(e.depth)
    && items[0] == NODE_SPLIT && items[1] in {NODE_FREE, NODE_SPLIT} && items[2] in {NODE_FREE, NODE_SPLIT}
  }

  /** A free node that is larger than requested is split. */
  lemma StepDivide(e: Request, items: seq<TwoBit>, s: Search, m: Mode)
    requires RequestOk(e) && Inv(e, items, s, m) && Pow2(e.depth + 1) <= |items| && s.state == Down
             && 1 <= s.idx < Pow2(e.depth)
    requires items[s.idx - 1] == NODE_FREE && !Fits(s, e.size)
    ensures 2 * s.idx + 1 < Pow2(e.depth + 1)
    ensures Inv(e, items[s.idx - 1 := NODE_SPLIT][2 * s.idx - 1 := NODE_FREE][2 * s.idx := NODE_FREE], GoLeft(s),
                Splitting)
    ensures Advances(e, s, m, GoLeft(s), Splitting)
  {
    hide NoneBefore, At, Frontier, LeavesIn, Apart, Antichain, Under, Level, NodeOk, First, BlockAddr, BlockLen;
    assert !m.Astray? by {
      if m.Astray? {
        StepsAstray(e, items, s, m.step);
      }
    }
    HeightInTree(e.depth, s.idx);
    FitsIff(e, s);
    AlwaysInTree(e, items, s, m);
    StepSplit(e, items, s, m);
  }
}
