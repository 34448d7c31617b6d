/** The buddy allocator for the allocator's own records. */
module InternalAllocators {
  import opened TreeIndex
  import opened PackedStates
  import opened Utils
  import opened MetaTree
  import opened MetaFree
  import opened MetaSearch
  import opened MetaTurns

  /** Free and live memory add up to the whole. */
  ghost predicate Ledger(live: set<nat>, depth: nat, freeMem: nat) {
    freeMem + BLOCK_SIZE * LeavesIn(live, 1, depth) == Total(depth)
  }

  /** No free block can hold the request. */
  ghost predicate Unfit(e: Request) {
    FitHeight(e.size) <= e.depth ==> NoFit(e)
  }

  /** The search for this request leaves the tree. */
  ghost predicate Strays(e: Request, freeMem: nat) {
    e.size <= freeMem && |e.items| >= 3 && GoesAstray(e.items, e.depth, e.size)
  }

  /** Block `t` is what the request has to get. */
  ghost predicate Granted(e: Request, t: nat, ptr: int) {
    && FitHeight(e.size) <= e.depth && InTree(e.depth, t) && FirstFit(e, t)
    && ptr == BlockAddr(e.memory, e.depth, t)
  }

  /** The outcome of a search inside the tree: the first fit becomes live, or nothing changes
      because nothing fits. */
  ghost predicate Served(e: Request, freeMem: nat, r: Option<int>, items: seq<TwoBit>, freeMem': nat, live': set<nat>) {
    && (r.None? <==> Unfit(e))
    && (r.None? ==> items == e.items && freeMem' == freeMem && live' == e.live)
    && (r.Some? ==>
          exists t: nat ::
            Granted(e, t, r.value) && live' == e.live + {t} && freeMem' == freeMem - BlockLen(e.depth, t))
  }

  /** The outcome of a search outside the tree: an address behind the memory, a half of the
      memory lost, and the free memory below zero and wrapped around. */
  ghost predicate Strayed(e: Request, freeMem: nat, r: Option<int>, items: seq<TwoBit>, freeMem': nat,
                          live': set<nat>) {
    && r.Some? && r.value >= e.memory + Total(e.depth) && live' == e.live
    && freeMem' == freeMem + WORD_LIMIT - Total(e.depth)
    && |e.items| >= 3 && (items == e.items[1 := NODE_USED] || items == e.items[2 := NODE_USED])
  }

  /** Block `b` is live and starts at `ptr`. */
  ghost predicate Starts(live: set<nat>, memory: nat, depth: nat, ptr: int, b: nat) {
    b in live && InTree(depth, b) && BlockAddr(memory, depth, b) == ptr
  }

  /** Marking ancestors full for as long as the sibling is used up too. */
  function CoalesceFullItems(items: seq<TwoBit>, depth: nat, idx: nat): seq<TwoBit>
    requires |items| == Pow2(depth + 1) && 1 <= idx < Pow2(depth + 1)
    decreases idx
  {
    if idx == 1 then items
    else
      SiblingInTree(depth, idx);
      if items[Sibling(idx) - 1] == NODE_FULL || items[Sibling(idx) - 1] == NODE_USED
      then CoalesceFullItems(items[idx / 2 - 1 := NODE_FULL], depth, idx / 2)
      else items
  }

  lemma SiblingInTree(depth: nat, idx: nat)
    requires 2 <= idx < Pow2(depth + 1)
    ensures 2 <= Sibling(idx) < Pow2(depth + 1)
  {
    assert Pow2(depth + 1) == 2 * Pow2(depth);
  }

  lemma CoalesceFullStep(items: seq<TwoBit>, depth: nat, idx: nat)
    requires |items| == Pow2(depth + 1) && 1 <= idx < Pow2(depth + 1)
    ensures idx == 1 ==> CoalesceFullItems(items, depth, idx) == items
    ensures idx > 1 ==> Sibling(idx) - 1 < |items|
    ensures idx > 1 ==>
              CoalesceFullItems(items, depth, idx) ==
              if items[Sibling(idx) - 1] == NODE_FULL || items[Sibling(idx) - 1] == NODE_USED
              then CoalesceFullItems(items[idx / 2 - 1 := NODE_FULL], depth, idx / 2) else items
  {
    if idx > 1 {
      SiblingInTree(depth, idx);
    }
  }

  class InternalAllocator {
    const depth: nat
    const memory: nat
    const tree: StateArray
    var freeMem: nat
    ghost var live: set<nat>

    ghost predicate Shape()
      reads tree, tree.mem
    {
      2 <= depth <= 58 && tree.Valid() && |tree.items| == Pow2(depth + 1)
    }

    ghost predicate Valid()
      reads this, tree, tree.mem
    {
      && Shape() && LiveOk(live, depth) && CanonOk(tree.items, live, depth) && Ledger(live, depth, freeMem)
    }

    ghost function Asked(size: nat): Request
      reads this, tree
    {
      Request(depth, memory, live, size, tree.items)
    }

    constructor (depth: nat, memory: nat)
      requires 2 <= depth <= 58
      ensures Valid() && fresh(tree) && fresh(tree.mem)
      ensures this.depth == depth && this.memory == memory && live == {} && freeMem == Total(depth)
    {
      this.depth := depth;
      this.memory := memory;
      assert Pow2(depth + 1) == 4 * Pow2(depth - 1);
      var size := (2 * (Pow2(depth + 1) - 1) + 7) / 8;
      assert size == Pow2(depth - 1);
      var t := new StateArray(size);
      tree := t;
      freeMem := BLOCK_SIZE * Pow2(depth);
      live := {};
      new;
      tree.Set(0, NODE_FREE);
      EmptyCanon(tree.items, depth);
      LeavesNone({}, 1, depth);
    }

    // ---- Allocation -----------------------------------------------------------------------

    method CoalesceFull(start: nat)
      requires Shape() && 1 <= start < Pow2(depth + 1)
      modifies tree`items, tree.mem
      ensures Shape() && tree.items == CoalesceFullItems(old(tree.items), depth, start)
    {
      hide Pow2, CoalesceFullItems;
      var idx: nat := start;
      while idx > 1
        invariant Shape() && 1 <= idx < Pow2(depth + 1)
        invariant CoalesceFullItems(tree.items, depth, idx) == CoalesceFullItems(old(tree.items), depth, start)
      {
        SiblingInTree(depth, idx);
        CoalesceFullStep(tree.items, depth, idx);
        var neigh := if idx % 2 == 1 then idx - 1 else idx + 1;
        var state := tree.Get(neigh - 1);
        if state == NODE_FULL || state == NODE_USED {
          tree.Set(idx / 2 - 1, NODE_FULL);
        } else {
          return;
        }
        idx := idx / 2;
      }
      CoalesceFullStep(tree.items, depth, idx);
    }

    /** What the search does with the node it settles on. */
    method Take(ghost e: Request, s: Search, ghost m: Mode)
      requires Shape() && e.depth == depth && Ledger(live, depth, freeMem) && e.live == live && e.size <= freeMem
      requires RequestOk(e) && Inv(e, tree.items, s, m) && s.state == Down && InTree(depth, s.idx)
      requires tree.items[s.idx - 1] == NODE_FREE && (Fits(s, e.size) || Pow2(depth) <= s.idx)
      modifies `freeMem, `live, tree`items, tree.mem
      ensures Shape()
      ensures !Strays(e, old(freeMem)) ==> Valid() && Served(e, old(freeMem), Some(s.ptr), tree.items, freeMem, live)
      ensures Strays(e, old(freeMem)) ==> Strayed(e, old(freeMem), Some(s.ptr), tree.items, freeMem, live)
    {
      hide RequestOk, At, NoneBefore, PendingOk, CanonOk, LiveOk, FirstFit, Inv, GoesAstray, BlockLen,
           CoalesceFullItems, AstrayTake, LeavesIn, NodeOk, BlockAddr, Height, Served, Strayed, Ledger, Pow2, Strays;
      StepTake(e, tree.items, s, m);
      if m.Astray? {
        TakeAstray(e, tree.items, s, freeMem);
      } else {
        TakeKeeps(e, tree.items, s, freeMem);
        live := live + {s.idx};
      }
      tree.Set(s.idx - 1, NODE_USED);
      freeMem := (freeMem - s.curSize) % WORD_LIMIT;
      CoalesceFull(s.idx);
    }

    /** Requests are refused by the guard, or searched for. The search ends because some memory is free:
        `EndsIff` shows that a request of size 0 to a full arena goes round in circles. */
    method Alloc(size: nat) returns (r: Option<int>)
      requires Valid() && (size > 0 || freeMem > 0)
      modifies `freeMem, `live, tree`items, tree.mem
      ensures Shape()
      ensures !Strays(old(Asked(size)), old(freeMem)) ==>
                Valid() && Served(old(Asked(size)), old(freeMem), r, tree.items, freeMem, live)
      ensures Strays(old(Asked(size)), old(freeMem)) ==>
                Strayed(old(Asked(size)), old(freeMem), r, tree.items, freeMem, live)
      ensures size <= old(freeMem) ==> EndsWith(old(Asked(size)), r)
    {
      hide RequestOk, At, NoneBefore, PendingOk, CanonOk, LiveOk, Granted, FirstFit, NoFit, Inv, Rank0, Rank1, Rank2,
           GoesAstray, BlockLen, CoalesceFullItems, AstrayTake, LeavesIn, NodeOk, BlockAddr, Height, Served, Strayed,
           Ledger, Next, Unfit, Pow2, GoUp, GoLeft, GoRight, Turns, EndsWith;
      ghost var e, n := Asked(size), 0;
      var s := Search(1, Down, BLOCK_SIZE * Pow2(depth), memory);
      if freeMem < size {
        TooLarge(e, freeMem);
        return None;
      }
      RequestFits(e, freeMem);
      StartSearch(e);
      ghost var m := Plain;
      FirstTurn(e);
      while !(s.idx == 1 && s.state == UpRight)
        invariant Shape() && freeMem == old(freeMem) && live == old(live)
        invariant RequestOk(e) && Inv(e, tree.items, s, m)
        invariant Turns(depth, size, e.items, Start(e), n) == Going(tree.items, s)
        decreases Rank0(e, s, m), Rank1(s, m), Rank2(e, s, m)
      {
        Looking(e, tree.items, s, m);
        TurnsNext(depth, size, e.items, Start(e), n, tree.items, s);
        n := n + 1;
        if s.idx >= Pow2(depth) || s.state == Down {
          var node := tree.Get(s.idx - 1);
          // The original's error exits, for a leaf that is split or full, are never taken.
          assert s.idx >= Pow2(depth) ==> node == NODE_FREE || node == NODE_USED;
          if node == NODE_FREE && (s.idx >= Pow2(depth) || (s.curSize / 2 < size && size <= s.curSize)) {
            SearchEnded(e, n, Some(s.ptr));
            Take(e, s, m);
            return Some(s.ptr);
          } else if node == NODE_FREE {
            StepDivide(e, tree.items, s, m);
            tree.Set(s.idx - 1, NODE_SPLIT);
            tree.Set(2 * s.idx - 1, NODE_FREE);
            tree.Set(2 * s.idx, NODE_FREE);
            m, s := Splitting, GoLeft(s);
          } else if node == NODE_SPLIT && !(s.curSize / 2 < size && size <= s.curSize) {
            StepInto(e, tree.items, s, m);
            m, s := if m.Astray? then Next(s, m) else m, GoLeft(s);
          } else {
            StepBack(e, tree.items, s, m);
            m, s := Next(s, m), GoUp(s);
          }
        } else if s.state == UpLeft {
          StepOver(e, tree.items, s, m);
          m, s := Next(s, m), GoRight(s);
        } else {
          StepOut(e, tree.items, s, m);
          m, s := Next(s, m), GoUp(s);
        }
      }
      TurnsNext(depth, size, e.items, Start(e), n, tree.items, s);
      SearchEnded(e, n + 1, None);
      EndOfSearch(e, tree.items, s, m);
      EndServed(e, freeMem);
      return None;
    }

    // ---- Freeing --------------------------------------------------------------------------

    /** Ancestors of a freed block that were full are split from now on. */
    method MarkSplit(start: nat, ghost before: seq<TwoBit>, ghost b: nat, ghost c: nat)
      requires Shape() && start < Pow2(depth + 1) && SplitUpTo(tree.items, before, live, depth, b, c, start)
      modifies tree`items, tree.mem
      ensures Shape() && CanonOk(tree.items, live - {b}, depth)
    {
      hide SplitUpTo, CanonOk, LiveOk, Under;
      var idx: nat := start;
      while idx > 0
        invariant Shape() && idx < Pow2(depth + 1) && SplitUpTo(tree.items, before, live, depth, b, c, idx)
      {
        var state := tree.Get(idx - 1);
        if state == NODE_FULL {
          SplitStep(tree.items, before, live, depth, b, c, idx);
          tree.Set(idx - 1, NODE_SPLIT);
        } else {
          break;
        }
        idx := idx / 2;
      }
      SplitEnd(tree.items, before, live, depth, b, c, idx);
    }

    method CoalesceFree(start: nat, ghost before: seq<TwoBit>, ghost b: nat)
      requires Shape() && InTree(depth, start) && FreeUpTo(tree.items, before, live, depth, b, start)
      modifies tree`items, tree.mem
      ensures Shape() && CanonOk(tree.items, live - {b}, depth)
    {
      hide FreeUpTo, SplitUpTo, CanonOk, LiveOk, Under, Canon;
      var idx := start;
      while idx > 1
        invariant Shape() && InTree(depth, idx) && FreeUpTo(tree.items, before, live, depth, b, idx)
      {
        SiblingState(tree.items, before, live, depth, b, idx);
        var neigh := if idx % 2 == 1 then idx - 1 else idx + 1;
        var state := tree.Get(neigh - 1);
        if state == NODE_FREE {
          FreeStep(tree.items, before, live, depth, b, idx);
          tree.Set(idx / 2 - 1, NODE_FREE);
        } else {
          SplitStart(tree.items, before, live, depth, b, idx);
          MarkSplit(idx / 2, before, b, idx);
          return;
        }
        idx := idx / 2;
      }
      FreeAll(tree.items, before, live, depth, b);
    }

    /** The descent to the block that starts at `ptr`. */
    method Find(ptr: int) returns (found: bool, idx: nat, curSize: nat)
      requires Valid()
      ensures found ==> Starts(live, memory, depth, ptr, idx) && curSize == BlockLen(depth, idx)
      ensures found <==> exists b :: Starts(live, memory, depth, ptr, b)
    {
      hide LiveOk, CanonOk, Under, LeavesIn, OnlyBelow, BlockLen, BlockAddr, Height, Ledger;
      idx, curSize := 1, BLOCK_SIZE * Pow2(depth);
      var cur: nat := memory;
      StartAtRoot(memory, depth);
      OnlyBelowRoot(live, memory, depth, ptr);
      var state := tree.Get(idx - 1);
      while !(cur == ptr && state == NODE_USED)
        invariant InTree(depth, idx) && curSize == BlockLen(depth, idx) && cur == BlockAddr(memory, depth, idx)
        invariant state == tree.items[idx - 1] && OnlyBelow(live, memory, depth, ptr, idx)
        decreases Height(depth, idx)
      {
        UsedIffLive(tree.items, live, depth, idx);
        HeightInTree(depth, idx);
        if idx >= Pow2(depth) {
          NoBlock(live, memory, depth, ptr, idx);
          return false, idx, curSize;
        }
        GoToHalf(live, memory, depth, ptr, idx);
        curSize := curSize / 2;
        if ptr >= cur + curSize {
          idx := 2 * idx + 1;
          cur := cur + curSize;
        } else {
          idx := 2 * idx;
        }
        state := tree.Get(idx - 1);
      }
      UsedIffLive(tree.items, live, depth, idx);
      assert Starts(live, memory, depth, ptr, idx);
      return true, idx, curSize;
    }

    /** Fails, where the original reports an error and exits, exactly if no live block starts at `ptr`. */
    method Free(ptr: int) returns (ok: bool)
      requires Valid()
      modifies `freeMem, `live, tree`items, tree.mem
      ensures Valid()
      ensures ok <==> exists b :: Starts(old(live), memory, depth, ptr, b)
      ensures !ok ==> tree.items == old(tree.items) && freeMem == old(freeMem) && live == old(live)
      ensures ok ==> exists b :: Starts(old(live), memory, depth, ptr, b) && live == old(live) - {b}
                                 && freeMem == old(freeMem) + BlockLen(depth, b)
    {
      hide FreeUpTo, CanonOk, LiveOk, Under, LeavesIn, BlockLen, BlockAddr, Height, Ledger, Pow2;
      var found, idx, curSize := Find(ptr);
      if !found {
        return false;
      }
      ghost var before := tree.items;
      FreeStart(before, live, depth, idx);
      tree.Set(idx - 1, NODE_FREE);
      freeMem := freeMem + curSize;
      CoalesceFree(idx, before, idx);
      FreeLedger(live, depth, idx, freeMem);
      live := live - {idx};
      return true;
    }
  }

  lemma StartAtRoot(memory: nat, depth: nat)
    ensures InTree(depth, 1) && BlockLen(depth, 1) == BLOCK_SIZE * Pow2(depth) && BlockAddr(memory, depth, 1) == memory
  {
    RootFirst(depth);
  }

  /** One step of the descent of `Free`. */
  lemma GoToHalf(live: set<nat>, memory: nat, depth: nat, ptr: int, i: nat)
    requires InTree(depth, i) && Height(depth, i) > 0 && OnlyBelow(live, memory, depth, ptr, i)
    requires i !in live || BlockAddr(memory, depth, i) != ptr
    ensures InTree(depth, 2 * i) && InTree(depth, 2 * i + 1)
    ensures BlockLen(depth, 2 * i) == BlockLen(depth, 2 * i + 1) == BlockLen(depth, i) / 2
    ensures BlockAddr(memory, depth, 2 * i) == BlockAddr(memory, depth, i)
    ensures BlockAddr(memory, depth, 2 * i + 1) == BlockAddr(memory, depth, i) + BlockLen(depth, i) / 2
    ensures ptr >= BlockAddr(memory, depth, i) + BlockLen(depth, i) / 2 ==>
              OnlyBelow(live, memory, depth, ptr, 2 * i + 1)
    ensures ptr < BlockAddr(memory, depth, i) + BlockLen(depth, i) / 2 ==> OnlyBelow(live, memory, depth, ptr, 2 * i)
    ensures Height(depth, 2 * i) < Height(depth, i) && Height(depth, 2 * i + 1) < Height(depth, i)
  {
    Descend(live, memory, depth, ptr, i);
    ChildFirst(depth, i);
  }

  lemma EmptyCanon(items: seq<TwoBit>, depth: nat)
    requires Pow2(depth + 1) <= |items| && items[0] == NODE_FREE
    requires forall k :: 1 <= k < |items| ==> items[k] == NODE_FULL
    ensures LiveOk({}, depth) && CanonOk(items, {}, depth)
  {
  }

  /** The guard rejects only what cannot be met. */
  lemma TooLarge(e: Request, freeMem: nat)
    requires Ledger(e.live, e.depth, freeMem) && e.size > freeMem
    ensures Unfit(e) && Served(e, freeMem, None, e.items, freeMem, e.live) && !Strays(e, freeMem)
  {
    if FitHeight(e.size) <= e.depth {
      forall j: nat | OnLevel(j, e.depth - FitHeight(e.size))
        ensures !Apart(e.live, j)
      {
        BlockTooLarge(e, freeMem, j);
      }
    }
  }

  lemma EndServed(e: Request, freeMem: nat)
    requires RequestOk(e) && NoFit(e) && |e.items| >= 3 && !GoesAstray(e.items, e.depth, e.size)
    ensures Served(e, freeMem, None, e.items, freeMem, e.live) && !Strays(e, freeMem)
  {
  }

  lemma BlockTooLarge(e: Request, freeMem: nat, j: nat)
    requires Ledger(e.live, e.depth, freeMem) && e.size > freeMem && FitHeight(e.size) <= e.depth
    requires OnLevel(j, e.depth - FitHeight(e.size))
    ensures !Apart(e.live, j)
  {
    var k := FitHeight(e.size);
    LevelUnique(j, e.depth - k);
    Pow2Monotone(e.depth - k + 1, e.depth + 1);
    HeightInTree(e.depth, j);
    FitHeightBounds(e.size);
    if Apart(e.live, j) {
      FreeBlockFits(e.live, e.depth, j);
    }
  }

  lemma RequestFits(e: Request, freeMem: nat)
    requires e.depth >= 2 && LiveOk(e.live, e.depth) && CanonOk(e.items, e.live, e.depth)
    requires Ledger(e.live, e.depth, freeMem) && e.size <= freeMem && freeMem > 0
    ensures RequestOk(e)
  {
    FitHeightBounds(e.size);
    if FitHeight(e.size) > e.depth {
      Pow2Monotone(e.depth, FitHeight(e.size) - 1);
    }
    LeavesBound(e.live, 1, e.depth);
  }

  lemma {:induction false} FullClimb(items: seq<TwoBit>, live: set<nat>, depth: nat, t: nat, c: nat)
    requires |items| == Pow2(depth + 1) && LiveOk(live, depth) && FullUpTo(items, live, depth, t, c)
    ensures CanonOk(CoalesceFullItems(items, depth, c), live, depth)
    decreases c
  {
    hide CanonOk, LiveOk, Under, NodeOk, Antichain;
    if c > 1 {
      SiblingInTree(depth, c);
      if items[Sibling(c) - 1] == NODE_FULL || items[Sibling(c) - 1] == NODE_USED {
        FullStep(items, live, depth, t, c);
        FullClimb(items[c / 2 - 1 := NODE_FULL], live, depth, t, c / 2);
        return;
      }
    }
    FullEnd(items, live, depth, t, c);
  }

  /** Handing out the first fit keeps the canonical form and the ledger. */
  lemma TakeKeeps(e: Request, items: seq<TwoBit>, s: Search, freeMem: nat)
    requires RequestOk(e) && |items| == Pow2(e.depth + 1) && e.depth <= 58
    requires InTree(e.depth, s.idx) && PendingOk(items, e.live, e.depth, s.idx) && FirstFit(e, s.idx)
    requires s.ptr == BlockAddr(e.memory, e.depth, s.idx) && s.curSize == BlockLen(e.depth, s.idx)
    requires Ledger(e.live, e.depth, freeMem) && |e.items| >= 3 && !GoesAstray(e.items, e.depth, e.size)
    ensures LiveOk(e.live + {s.idx}, e.depth) && !Strays(e, freeMem) && s.curSize <= freeMem
    ensures Served(e, freeMem, Some(s.ptr), CoalesceFullItems(items[s.idx - 1 := NODE_USED], e.depth, s.idx),
                   freeMem - s.curSize, e.live + {s.idx})
    ensures CanonOk(CoalesceFullItems(items[s.idx - 1 := NODE_USED], e.depth, s.idx), e.live + {s.idx}, e.depth)
    ensures (freeMem - s.curSize) % WORD_LIMIT == freeMem - s.curSize
    ensures Ledger(e.live + {s.idx}, e.depth, freeMem - s.curSize)
  {
    hide FullUpTo, NodeOk, LeavesIn, CanonOk, Ledger, Pow2, BlockLen, BlockAddr, GoesAstray, Height,
         CoalesceFullItems;
    PendingApart(items, e.live, e.depth, s.idx);
    FullStart(items, e.live, e.depth, s.idx);
    FullClimb(items[s.idx - 1 := NODE_USED], e.live + {s.idx}, e.depth, s.idx, s.idx);
    Debit(e.live, e.depth, s.idx, freeMem);
  }

  lemma PendingApart(items: seq<TwoBit>, live: set<nat>, depth: nat, t: nat)
    requires LiveOk(live, depth) && PendingOk(items, live, depth, t)
    ensures Apart(live, t) && LiveOk(live + {t}, depth)
  {
  }

  lemma Debit(live: set<nat>, depth: nat, t: nat, freeMem: nat)
    requires InTree(depth, t) && Apart(live, t) && depth <= 58 && Ledger(live, depth, freeMem)
    ensures BlockLen(depth, t) <= freeMem && Ledger(live + {t}, depth, freeMem - BlockLen(depth, t))
    ensures (freeMem - BlockLen(depth, t)) % WORD_LIMIT == freeMem - BlockLen(depth, t)
  {
    FreeBlockFits(live, depth, t);
    TotalBound(depth);
  }

  lemma TotalBound(depth: nat)
    requires depth <= 58
    ensures Total(depth) < WORD_LIMIT
  {
    Pow2Monotone(depth, 58);
    Pow2Values();
    Pow2Add(16, 16);
    Pow2Add(32, 16);
    Pow2Add(48, 10);
  }

  /** An astray search marks a half used without filling its parent, and debits all memory. */
  lemma TakeAstray(e: Request, items: seq<TwoBit>, s: Search, freeMem: nat)
    requires RequestOk(e) && |items| == Pow2(e.depth + 1) && AstrayTake(e, items, s) && 2 <= e.depth <= 58
    requires Ledger(e.live, e.depth, freeMem) && GoesAstray(e.items, e.depth, e.size) && e.size <= freeMem
    ensures s.idx < Pow2(e.depth + 1) && Strays(e, freeMem)
    ensures Strayed(e, freeMem, Some(s.ptr), CoalesceFullItems(items[s.idx - 1 := NODE_USED], e.depth, s.idx),
                    (freeMem - s.curSize) % WORD_LIMIT, e.live)
  {
    hide CanonOk, LiveOk, LeavesIn, Covered, BlockAddr, Pow2, CoalesceFullItems;
    Pow2Monotone(2, e.depth + 1);
    FourNodes();
    CoalesceFullStep(items[s.idx - 1 := NODE_USED], e.depth, s.idx);
    TotalBound(e.depth);
    SplitRoot(e, items);
    assert s.idx - 1 >= 1;
    MulMonotone(1, s.idx - 1, Total(e.depth));
  }

  lemma FourNodes()
    ensures Pow2(2) == 4
  {
  }

  /** Below a split root some memory is in use. */
  lemma SplitRoot(e: Request, items: seq<TwoBit>)
    requires RequestOk(e) && items == e.items && |items| >= 3 && items[0] == NODE_SPLIT
    ensures LeavesIn(e.live, 1, e.depth) > 0
  {
    hide LeavesIn;
    RootFirst(e.depth);
    assert NodeOk(items, e.live, e.depth, 1);
    var x :| x in e.live && Under(x, 1);
    SomeLeaves(e.live, e.depth, x);
  }

  lemma SomeLeaves(live: set<nat>, depth: nat, x: nat)
    requires LiveOk(live, depth) && x in live
    ensures LeavesIn(live, 1, depth) > 0
  {
    var rest := live - {x};
    assert live == rest + {x};
    FreeBlockFits(rest, depth, x);
  }

  lemma FreeLedger(live: set<nat>, depth: nat, b: nat, freeMem: nat)
    requires LiveOk(live, depth) && b in live && InTree(depth, b) && freeMem >= BlockLen(depth, b)
    requires Ledger(live, depth, freeMem - BlockLen(depth, b))
    ensures LiveOk(live - {b}, depth) && Ledger(live - {b}, depth, freeMem)
  {
    var rest := live - {b};
    assert live == rest + {b};
    FreeBlockFits(rest, depth, b);
  }
}
