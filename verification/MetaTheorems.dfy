/** What the metadata allocator guarantees over whole runs. */
module MetaTheorems {
  import opened TreeIndex
  import opened PackedStates
  import opened Utils
  import opened MetaTree
  import opened MetaFree
  import opened MetaSearch
  import opened MetaTurns
  import opened InternalAllocators

  // ---- History independence ---------------------------------------------------------------

  /** Two histories that leave the same blocks live leave the same tree, as far as it is visible,
      and the same amount of free memory. */
  lemma HistoryIndependence(items: seq<TwoBit>, items': seq<TwoBit>, live: set<nat>, depth: nat, freeMem: nat,
                            freeMem': nat)
    requires CanonOk(items, live, depth) && CanonOk(items', live, depth)
    requires Ledger(live, depth, freeMem) && Ledger(live, depth, freeMem')
    ensures freeMem == freeMem'
    ensures forall i :: 1 <= i < Pow2(depth + 1) && Visible(live, i) ==>
              items[i - 1] == items'[i - 1] == Canon(live, depth, i)
  {
    forall i | 1 <= i < Pow2(depth + 1) && Visible(live, i)
      ensures items[i - 1] == items'[i - 1] == Canon(live, depth, i)
    {
      assert NodeOk(items, live, depth, i) && NodeOk(items', live, depth, i);
    }
  }

  /** What a search hands out, and what it leaves behind, is determined by the live blocks. */
  lemma AnswerIndependence(e: Request, e': Request, freeMem: nat, r: Option<int>, r': Option<int>,
                           after: seq<TwoBit>, after': seq<TwoBit>, freeMem1: nat, freeMem1': nat,
                           live1: set<nat>, live1': set<nat>)
    requires e' == e.(items := e'.items)
    requires Served(e, freeMem, r, after, freeMem1, live1) && Served(e', freeMem, r', after', freeMem1', live1')
    ensures r == r' && live1 == live1' && freeMem1 == freeMem1'
  {
    hide FitHeight, Apart, Pow2, BlockAddr, BlockLen;
    assert Unfit(e) == Unfit(e') by {
      if FitHeight(e.size) <= e.depth {
        assert NoFit(e) == NoFit(e');
      }
    }
    if r.Some? {
      var t: nat :| Granted(e, t, r.value) && live1 == e.live + {t} && freeMem1 == freeMem - BlockLen(e.depth, t);
      var t': nat :| Granted(e', t', r'.value) && live1' == e.live + {t'}
                     && freeMem1' == freeMem - BlockLen(e.depth, t');
    }
  }

  // ---- Blocks -----------------------------------------------------------------------------

  lemma BlockFacts(memory: nat, depth: nat, x: nat)
    requires InTree(depth, x)
    ensures BlockLen(depth, x) >= BLOCK_SIZE
    ensures memory <= BlockAddr(memory, depth, x)
            && BlockAddr(memory, depth, x) + BlockLen(depth, x) <= memory + Total(depth)
    ensures (BlockAddr(memory, depth, x) - memory) % BlockLen(depth, x) == 0
  {
    UnderRoot(x);
    RootFirst(depth);
    Nested(depth, x, 1);
    HeightInTree(depth, x);
    var h := Height(depth, x);
    Pow2Add(depth - h, h);
    BlockAligned(x, Pow2(depth - h), Pow2(h));
  }

  lemma BlockAligned(x: nat, p: nat, q: nat)
    requires q >= 1 && x * q >= p * q
    ensures (32 * (x * q - p * q)) % (32 * q) == 0
  {
    if x < p {
      BeforeScale(x, p, q);
    }
    assert 32 * (x * q - p * q) == (x - p) * (32 * q) + 0;
    DivModUnique(32 * (x * q - p * q), 32 * q, x - p, 0);
  }

  /** Live blocks lie inside the memory and do not overlap. */
  lemma LiveBlocksDisjoint(live: set<nat>, memory: nat, depth: nat, x: nat, y: nat)
    requires LiveOk(live, depth) && x in live && y in live && x != y
    ensures || BlockAddr(memory, depth, x) + BlockLen(depth, x) <= BlockAddr(memory, depth, y)
            || BlockAddr(memory, depth, y) + BlockLen(depth, y) <= BlockAddr(memory, depth, x)
  {
    if Level(x) <= Level(y) {
      ApartBlocks(depth, x, y);
    } else {
      ApartBlocks(depth, y, x);
    }
  }

  /** A node that is not below `a`, on a level not above that of `a`, lies to one side of `a`. */
  lemma ApartBlocks(depth: nat, a: nat, x: nat)
    requires InTree(depth, a) && InTree(depth, x) && Level(a) <= Level(x) && !Under(x, a)
    ensures || First(depth, a) + Pow2(Height(depth, a)) <= First(depth, x)
            || First(depth, x) + Pow2(Height(depth, x)) <= First(depth, a)
  {
    HeightInTree(depth, a);
    HeightInTree(depth, x);
    var d, h := Level(x) - Level(a), Height(depth, x);
    UnderInterval(x, a, d);
    Pow2Add(d, h);
    ApartScale(a, x, Pow2(d), Pow2(h));
  }

  lemma ApartScale(a: nat, x: nat, p: nat, q: nat)
    requires !(a * p <= x < (a + 1) * p)
    ensures a * (p * q) + p * q <= x * q || x * q + q <= a * (p * q)
  {
    assert (a + 1) * p == a * p + p && a * (p * q) == (a * p) * q && (a * p + p) * q == (a * p) * q + p * q;
    if x < a * p {
      MulMonotone(x + 1, a * p, q);
      assert (x + 1) * q == x * q + q;
    } else {
      MulMonotone(a * p + p, x, q);
    }
  }

  /** An address starts at most one live block: what `Free` gives back is no matter of choice. */
  lemma StartsUnique(live: set<nat>, memory: nat, depth: nat, ptr: int, x: nat, y: nat)
    requires LiveOk(live, depth) && Starts(live, memory, depth, ptr, x) && Starts(live, memory, depth, ptr, y)
    ensures x == y
  {
    if x != y {
      LiveBlocksDisjoint(live, memory, depth, x, y);
    }
  }

  // ---- Whole runs -------------------------------------------------------------------------

  /** Freeing a block just handed out frees that block, and brings back the live blocks, the free
      memory and the visible tree from before. */
  lemma FreeUndoes(e: Request, freeMem: nat, t: nat, ptr: int, b: nat, after: seq<TwoBit>, freed: nat)
    requires LiveOk(e.live, e.depth) && CanonOk(e.items, e.live, e.depth) && Ledger(e.live, e.depth, freeMem)
             && Granted(e, t, ptr)
    requires Starts(e.live + {t}, e.memory, e.depth, ptr, b)
    requires CanonOk(after, e.live + {t} - {b}, e.depth) && Ledger(e.live + {t} - {b}, e.depth, freed)
    ensures b == t && e.live + {t} - {b} == e.live && freed == freeMem
    ensures forall i :: 1 <= i < Pow2(e.depth + 1) && Visible(e.live, i) ==> after[i - 1] == e.items[i - 1]
  {
    assert Apart(e.live, t) && LiveOk(e.live + {t}, e.depth);
    StartsUnique(e.live + {t}, e.memory, e.depth, ptr, t, b);
    assert t !in e.live by {
      assert Under(t, t);
    }
    assert e.live + {t} - {b} == e.live;
    HistoryIndependence(after, e.items, e.live, e.depth, freed, freeMem);
  }

  /** Allocates a block and frees it at once; nothing that is visible changes. */
  method AllocThenFree(a: InternalAllocator, size: nat) returns (p: Option<int>)
    requires a.Valid() && (size > 0 || a.freeMem > 0) && !Strays(a.Asked(size), a.freeMem)
    modifies a, a.tree, a.tree.mem
    ensures a.Valid() && a.live == old(a.live) && a.freeMem == old(a.freeMem)
    ensures forall i :: 1 <= i < Pow2(a.depth + 1) && Visible(a.live, i) ==>
              a.tree.items[i - 1] == old(a.tree.items)[i - 1]
    ensures p.None? <==> Unfit(old(a.Asked(size)))
  {
    hide LiveOk, CanonOk, Ledger, Strays, Unfit, Visible, Granted, Starts;
    ghost var e, freeMem := a.Asked(size), a.freeMem;
    p := a.Alloc(size);
    if p.Some? {
      ghost var t: nat :| Granted(e, t, p.value) && a.live == e.live + {t};
      GrantedStarts(e, t, p.value);
      var ok := a.Free(p.value);
      ghost var b :| Starts(e.live + {t}, e.memory, e.depth, p.value, b) && a.live == e.live + {t} - {b};
      FreeUndoes(e, freeMem, t, p.value, b, a.tree.items, a.freeMem);
    }
  }

  lemma GrantedStarts(e: Request, t: nat, ptr: int)
    requires Granted(e, t, ptr)
    ensures Starts(e.live + {t}, e.memory, e.depth, ptr, t)
  {
  }

  /** The root is free exactly when nothing is live; then all memory is free. */
  lemma AllFreed(items: seq<TwoBit>, live: set<nat>, depth: nat, freeMem: nat)
    requires LiveOk(live, depth) && CanonOk(items, live, depth) && Ledger(live, depth, freeMem)
    ensures 1 <= |items| && (items[0] == NODE_FREE <==> live == {})
    ensures freeMem == Total(depth) <==> live == {}
  {
    RootFirst(depth);
    assert NodeOk(items, live, depth, 1);
    forall x | x in live
      ensures Under(x, 1) && LeavesIn(live, 1, depth) > 0
    {
      UnderRoot(x);
      SomeLeaves(live, depth, x);
    }
    if live == {} {
      LeavesNone(live, 1, depth);
    }
  }

  // ---- First fit --------------------------------------------------------------------------

  /** The block handed out is the smallest that holds the request, and of all free aligned blocks
      of its size it has the lowest address. */
  lemma FirstFitByAddress(e: Request, t: nat, ptr: int, j: nat)
    requires Granted(e, t, ptr)
    ensures e.size <= BlockLen(e.depth, t) && (BlockLen(e.depth, t) == BLOCK_SIZE || BlockLen(e.depth, t) < 2 * e.size)
    ensures InTree(e.depth, j) && BlockLen(e.depth, j) == BlockLen(e.depth, t) && Apart(e.live, j) ==>
              ptr <= BlockAddr(e.memory, e.depth, j)
  {
    var k := FitHeight(e.size);
    HeightInTree(e.depth, t);
    LevelUnique(t, e.depth - k);
    FitHeightBounds(e.size);
    if InTree(e.depth, j) && BlockLen(e.depth, j) == BlockLen(e.depth, t) && Apart(e.live, j) {
      SameHeight(e.depth, j, t);
      HeightInTree(e.depth, j);
      assert OnLevel(j, e.depth - k) && t <= j;
      MulMonotone(t, j, Pow2(k));
    }
  }

  lemma SameHeight(depth: nat, x: nat, y: nat)
    requires InTree(depth, x) && InTree(depth, y) && BlockLen(depth, x) == BlockLen(depth, y)
    ensures Height(depth, x) == Height(depth, y)
  {
    if Height(depth, x) < Height(depth, y) {
      Pow2Monotone(Height(depth, x) + 1, Height(depth, y));
    } else if Height(depth, y) < Height(depth, x) {
      Pow2Monotone(Height(depth, y) + 1, Height(depth, x));
    }
  }

  // ---- When the search ends ---------------------------------------------------------------

  /** A request is refused by the guard, or its search comes to an end, exactly if it asks for
      something or some memory is free. */
  lemma EndsIff(e: Request, freeMem: nat)
    requires e.depth >= 2 && |e.items| == Pow2(e.depth + 1)
    requires LiveOk(e.live, e.depth) && CanonOk(e.items, e.live, e.depth) && Ledger(e.live, e.depth, freeMem)
    ensures freeMem < e.size || Ends(e) <==> e.size > 0 || freeMem > 0
  {
    hide Turns, LiveOk, CanonOk, RequestOk, Inv, FitHeight;
    if freeMem > 0 && e.size <= freeMem {
      RequestFits(e, freeMem);
      StartSearch(e);
      var n := SearchEnds(e, e.items, Start(e), Plain);
      var p := Turns(e.depth, e.size, e.items, Start(e), n);
      SearchEnded(e, n, if p.Taken? then Some(p.s.ptr) else None);
    } else if freeMem == 0 {
      FullRoot(e.items, e.live, e.depth);
      forall n: nat
        ensures Turns(e.depth, e.size, e.items, Start(e), n).Going?
      {
        CirclesForEver(e.depth, e.size, e.items, Start(e), n);
      }
      NeverEnds(e);
    }
  }

  lemma NeverEnds(e: Request)
    requires forall n: nat :: Turns(e.depth, e.size, e.items, Start(e), n).Going?
    ensures !Ends(e)
  {
    hide Turns;
  }

  /** With no memory free the root is full or used. */
  lemma FullRoot(items: seq<TwoBit>, live: set<nat>, depth: nat)
    requires |items| == Pow2(depth + 1) && LiveOk(live, depth) && CanonOk(items, live, depth) && Ledger(live, depth, 0)
    ensures items[0] in {NODE_FULL, NODE_USED}
  {
    RootFirst(depth);
    LeavesBound(live, 1, depth);
    CoveredHasBelow(live, 1, depth);
    assert NodeOk(items, live, depth, 1);
  }

  // ---- When the search strays -------------------------------------------------------------

  /** A search leaves the tree exactly if more than half of the memory is asked for, that much is
      free in total, something is live, and all live blocks lie in the same half. */
  lemma StraysIff(e: Request, freeMem: nat)
    requires e.depth >= 2 && LiveOk(e.live, e.depth) && CanonOk(e.items, e.live, e.depth)
             && Ledger(e.live, e.depth, freeMem)
    ensures Strays(e, freeMem) <==>
              e.size <= freeMem && Total(e.depth) < 2 * e.size && e.live != {}
              && (!HasBelow(e.live, 2) || !HasBelow(e.live, 3))
  {
    var d := e.depth;
    RootFirst(d);
    ChildFirst(d, 1);
    Pow2Monotone(2, d);
    FourNodes();
    assert NodeOk(e.items, e.live, d, 1);
    LeavesBound(e.live, 1, d);
    SomethingLive(e.live, d);
    if HasBelow(e.live, 1) && 1 !in e.live {
      assert NodeOk(e.items, e.live, d, 2) && NodeOk(e.items, e.live, d, 3);
      assert Visible(e.live, 2) && Visible(e.live, 3);
      HasBelowSelf(e.live, 2);
      HasBelowSelf(e.live, 3);
    }
  }

  lemma HasBelowSelf(live: set<nat>, i: nat)
    ensures i in live ==> HasBelow(live, i)
  {
    assert Under(i, i);
  }

  lemma SomethingLive(live: set<nat>, depth: nat)
    requires LiveOk(live, depth)
    ensures live != {} <==> HasBelow(live, 1)
  {
    if live != {} {
      var x :| x in live;
      UnderRoot(x);
    }
  }

  /** In the original's arena of 8 MB, one live block of 32 bytes at its start is enough for a request
      of one byte more than 4 MB to stray, although nothing fits. */
  lemma StrayExample(e: Request, freeMem: nat)
    requires e.depth == 18 && e.live == {262144} && e.size == 4194305
    requires CanonOk(e.items, e.live, e.depth) && Ledger(e.live, e.depth, freeMem)
    ensures LiveOk(e.live, e.depth) && Strays(e, freeMem) && Unfit(e)
  {
    hide CanonOk, LeavesIn, FitHeight, Pow2, HasBelow, LiveOk, Apart, GoesAstray;
    OriginalPowers();
    FirstLeafLive();
    HeightOfHalf();
    StraysIff(e, freeMem);
    forall j: nat | OnLevel(j, 0)
      ensures !Apart(e.live, j)
    {
    }
  }

  /** Two requests to a fresh arena lead there: the second gets an address behind the arena. */
  method StrayRun(memory: nat) returns (p: Option<int>, q: Option<int>)
    ensures p == Some(memory) && q.Some? && q.value >= memory + 8388608
  {
    hide LiveOk, CanonOk, Ledger, Strays, Unfit, Granted, BlockLen, Pow2;
    var a := new InternalAllocator(18, memory);
    OriginalArena(a.Asked(1), a.freeMem);
    ghost var e := a.Asked(1);
    p := a.Alloc(1);
    FirstServed(e);
    ghost var t: nat :| Granted(e, t, p.value) && a.live == e.live + {t};
    FirstGranted(e, t, p.value);
    assert a.live == {262144};
    StrayExample(a.Asked(4194305), a.freeMem);
    q := a.Alloc(4194305);
  }

  lemma FirstServed(e: Request)
    requires e.depth == 18 && e.live == {} && e.size == 1
    ensures !Unfit(e)
  {
    hide Pow2, FitHeight, Apart, OnLevel;
    FirstLeafFree();
  }

  lemma FirstLeafFree()
    ensures FitHeight(1) == 0 && OnLevel(262144, 18) && Apart({}, 262144)
  {
    hide Pow2, Under;
    OriginalPowers();
  }

  lemma FirstGranted(e: Request, t: nat, ptr: int)
    requires e.depth == 18 && e.live == {} && e.size == 1 && Granted(e, t, ptr)
    ensures t == 262144 && ptr == e.memory
  {
    hide Pow2, Level, FitHeight, Apart;
    OriginalPowers();
    FirstLeafFree();
    HeightInTree(18, t);
    LevelUnique(t, 18);
  }

  lemma OriginalPowers()
    ensures Pow2(0) == 1 && Pow2(1) == 2 && Pow2(2) == 4 && Pow2(17) == 131072 && Pow2(18) == 262144
            && Pow2(19) == 524288
  {
    Pow2Values();
    FourNodes();
    assert Pow2(17) == 2 * Pow2(16) && Pow2(18) == 2 * Pow2(17) && Pow2(19) == 2 * Pow2(18);
  }

  /** The first leaf lies below node 2 and not below node 3. */
  lemma FirstLeafLive()
    ensures LiveOk({262144}, 18) && LeavesIn({262144}, 1, 18) == 1
    ensures HasBelow({262144}, 2) && !HasBelow({262144}, 3) && !Apart({262144}, 1)
  {
    hide Pow2, LeavesIn, Under, Level;
    OriginalPowers();
    LevelUnique(262144, 18);
    LevelUnique(2, 1);
    LevelUnique(3, 1);
    HeightInTree(18, 262144);
    UnderRoot(262144);
    UnderInterval(262144, 2, 17);
    UnderInterval(262144, 3, 17);
    NothingLive(262144);
    FreeBlockFits({}, 18, 262144);
    assert {} + {262144} == {262144};
  }

  lemma NothingLive(x: nat)
    ensures !HasBelow({}, 1) && Apart({}, x) && LeavesIn({}, 1, 18) == 0
  {
    hide LeavesIn, Under;
    LeavesNone({}, 1, 18);
  }

  lemma HeightOfHalf()
    ensures FitHeight(4194305) == 18
  {
    hide Pow2, FitHeight;
    var k := FitHeight(4194305);
    OriginalPowers();
    FitHeightBounds(4194305);
    if k < 18 {
      Pow2Monotone(k, 17);
    } else if k > 18 {
      Pow2Monotone(18, k - 1);
    }
  }

  /** The original's arena: 2^18 leaves of 32 bytes make 8 MB, and all bookkeeping records it is
      asked for, up to 4 MB, are served inside it. */
  lemma OriginalArena(e: Request, freeMem: nat)
    requires e.depth == 18
    ensures Total(e.depth) == 8388608
    ensures e.size <= 4194304 ==> !Strays(e, freeMem)
  {
    Pow2Values();
    Pow2Add(16, 2);
    assert Pow2(2) == 4;
  }
}
