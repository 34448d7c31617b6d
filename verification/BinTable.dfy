/** The bins of the arena, one for each size class. */
module BinTables {
  import opened TreeIndex
  import opened PackedStates
  import opened Utils
  import opened Runs
  import opened SizeClass
  import opened LinkedList
  import opened Bins

  type RunTable = map<nat, RunView>

  /** The bin of the least large class, which is also found for a size of 0. */
  const ZERO_BIN: nat := NO_SMALL_SIZE_CLASSES + NO_MEDIUM_SIZE_CLASSES

  /** What the rest of the allocator sees of a bin; the size is zero before the bin is used. */
  datatype BinView = BinView(size: nat, avail: nat, runs: RunTable, members: set<Entry<Run>>)

  /** Bin `i` is unused, or serves the regions of class `i`. */
  ghost predicate BinOk(b: Bin, foot: set<object>, i: nat, v: BinView)
    reads b, foot
  {
    && b.Repr == foot && b in foot && b.active in foot && b.inactive in foot && b.Valid()
    && (b.regSize == 0 || b.regSize == SizeOfBin(i)) && v == BinView(b.regSize, b.availRegs, b.table, b.members)
  }

  ghost predicate BinsOk(bins: seq<Bin>, feet: seq<set<object>>, all: set<object>, views: seq<BinView>)
    reads all
  {
    && |bins| == |feet| == |views|
    && (forall j :: 0 <= j < |bins| ==> bins[j] in all && feet[j] <= all && BinOk(bins[j], feet[j], j, views[j]))
    && (forall j, k :: 0 <= j < k < |bins| ==> feet[j] !! feet[k])
  }

  /** As BinsOk, but nothing is said about the state of bin `i`. */
  ghost predicate BinsExcept(bins: seq<Bin>, feet: seq<set<object>>, all: set<object>, views: seq<BinView>, i: nat)
    requires i < |feet|
    reads all - feet[i]
  {
    && |bins| == |feet| == |views| && feet[i] <= all
    && (forall j :: 0 <= j < |bins| && j != i ==>
          bins[j] in feet[j] && feet[j] <= all && feet[j] !! feet[i] && BinOk(bins[j], feet[j], j, views[j]))
    && (forall j, k :: 0 <= j < k < |bins| ==> feet[j] !! feet[k])
  }

  lemma BinsAllBut(bins: seq<Bin>, feet: seq<set<object>>, all: set<object>, views: seq<BinView>, i: nat)
    requires BinsOk(bins, feet, all, views) && i < |bins|
    ensures BinsExcept(bins, feet, all, views, i) && BinOk(bins[i], feet[i], i, views[i])
  {
    hide Bin.Valid;
  }

  lemma BinsBack(bins: seq<Bin>, feet: seq<set<object>>, all: set<object>, views: seq<BinView>, i: nat,
                 foot: set<object>, v: BinView)
    requires i < |feet| && BinsExcept(bins, feet, all, views, i) && i < |bins|
    requires BinOk(bins[i], foot, i, v) && foot !! (all - feet[i])
    ensures BinsOk(bins, feet[i := foot], all + foot, views[i := v])
  {
    hide Bin.Valid;
    forall j | 0 <= j < |bins| && j != i
      ensures feet[j] !! foot
    {
      assert feet[j] <= all - feet[i];
    }
  }

  lemma BinsAppend(bins: seq<Bin>, feet: seq<set<object>>, all: set<object>, views: seq<BinView>, b: Bin,
                   foot: set<object>, v: BinView)
    requires BinsOk(bins, feet, all, views) && BinOk(b, foot, |bins|, v) && foot !! all
    ensures BinsOk(bins + [b], feet + [foot], all + foot, views + [v])
  {
    hide Bin.Valid;
  }

  class BinTable {
    const bins: seq<Bin>
    ghost var Repr: set<object>
    ghost var feet: seq<set<object>>
    ghost var all: set<object>
    ghost var views: seq<BinView>

    ghost predicate Valid()
      reads this, Repr
    {
      && this in Repr && all <= Repr && this !in all && |bins| == |views| == ARENA_NO_BINS
      && BinsOk(bins, feet, all, views)
    }

    constructor ()
      ensures Valid() && fresh(Repr) && this in Repr && |views| == ARENA_NO_BINS
      ensures forall j :: 0 <= j < ARENA_NO_BINS ==> views[j] == BinView(0, 0, map[], {})
    {
      var s;
      ghost var f, a, v;
      s, f, a, v := ZeroedBins();
      bins := s;
      feet, all, views := f, a, v;
      Repr := a + {this};
    }

    /** The bin for a class, set up when it is asked for the first time. */
    method GetBin(regSize: nat) returns (i: nat)
      requires Valid() && IsClass(regSize)
      modifies Repr
      ensures Valid() && Repr == old(Repr) && i < ARENA_NO_BINS && SizeOfBin(i) == regSize
      ensures views == old(views)[i := old(views)[i].(size := regSize)]
      ensures old(views)[i].size == 0 || old(views)[i].size == regSize
    {
      hide Bin.Valid, BinsOk, BinsExcept, IsClass;
      ghost var all0, views0 := all, views;
      i := BinIndex(regSize);
      var bin := BinAt(i);
      ghost var foot := feet[i];
      if bin.regSize == 0 {
        bin.Init(regSize);
      }
      Back(i, foot);
      views := views[i := BinView(bin.regSize, bin.availRegs, bin.table, bin.members)];
      assert feet[i := foot] == feet && all + foot == all;
    }

    /** The bin that is found for a size of 0, if it has been set up; the original divides by zero when
        it sets up a bin for that size. */
    method GetZeroBin() returns (r: Option<nat>)
      requires Valid()
      ensures r == if views[ZERO_BIN].size > 0 then Some(ZERO_BIN) else None
      ensures r.Some? ==> views[r.value].size == SizeOfBin(r.value) == LARGE_SIZE_MIN_REGION
    {
      hide Bin.Valid, BinsOk, BinsExcept, IsClass;
      ClassZero();
      var rounded := AlignUpLarge(0);
      var i := BinIndex(rounded);
      var bin := BinAt(i);
      return if bin.regSize == 0 then None else Some(i);
    }

    lemma Back(i: nat, foot: set<object>)
      requires |bins| == ARENA_NO_BINS && i < |feet| && i < |bins| && BinsExcept(bins, feet, all, views, i)
      requires bins[i].Repr == foot && bins[i].Valid() && (bins[i].regSize == 0 || bins[i].regSize == SizeOfBin(i))
      requires foot !! (all - feet[i])
      ensures BinsOk(bins, feet[i := foot], all + foot,
                     views[i := BinView(bins[i].regSize, bins[i].availRegs, bins[i].table, bins[i].members)])
    {
      var v := BinView(bins[i].regSize, bins[i].availRegs, bins[i].table, bins[i].members);
      assert BinOk(bins[i], foot, i, v);
      BinsBack(bins, feet, all, views, i, foot, v);
    }

    /** Bin `i`, and what is known about it and the others. */
    method BinAt(i: nat) returns (b: Bin)
      requires Valid() && i < ARENA_NO_BINS
      ensures i < |bins| && i < |feet| == |views| && b == bins[i] && BinOk(b, feet[i], i, views[i])
      ensures BinsExcept(bins, feet, all, views, i) && feet[i] <= all
    {
      BinsAllBut(bins, feet, all, views, i);
      b := bins[i];
    }

    /** What is known about a run of bin `i`. */
    lemma MemberFacts(i: nat, e: Entry<Run>)
      requires Valid() && i < ARENA_NO_BINS && e in views[i].members
      ensures e.key in views[i].runs && e.addr == views[i].runs[e.key].addr && e.key == e.item.key && views[i].size > 0
    {
      hide Bin.Valid, BinsOk, BinsExcept;
      BinsAllBut(bins, feet, all, views, i);
      bins[i].MemberFacts(e);
    }

    lemma SizeIs(i: nat)
      requires Valid() && i < ARENA_NO_BINS
      ensures views[i].avail > 0 ==> views[i].size > 0
      ensures views[i].size > 0 ==> views[i].size == SizeOfBin(i) && IsClass(views[i].size)
    {
      hide Bin.Valid, BinsOk, BinsExcept;
      BinsAllBut(bins, feet, all, views, i);
      bins[i].SizeFacts();
    }

    lemma CountersBound(i: nat)
      requires Valid() && i < ARENA_NO_BINS && views[i].size > 0
      ensures i < |bins| && bins[i].availRegs == views[i].avail
      ensures bins[i].activeCnt <= views[i].avail && bins[i].regMaskSizeBits <= 2 * MAX_ELEMS
    {
      hide Bin.Valid, BinsOk, BinsExcept;
      BinsAllBut(bins, feet, all, views, i);
      bins[i].CountersBound();
    }

    /** Region size, run size and regions of a run for bin `i`. */
    method Sizes(i: nat) returns (regSize: nat, runSize: nat, elems: nat)
      requires Valid() && i < ARENA_NO_BINS && views[i].size > 0
      ensures regSize == views[i].size == SizeOfBin(i) && IsClass(regSize)
      ensures runSize == RunPages(regSize) * PAGE_SIZE && elems == RunElems(regSize)
    {
      hide Bin.Valid, BinsOk, BinsExcept;
      var bin := BinAt(i);
      bin.SizeFacts();
      regSize, runSize, elems := bin.regSize, bin.runSizePages * PAGE_SIZE, bin.regMaskSizeBits / 2;
    }

    method AddRun(i: nat, e: Entry<Run>)
      requires Valid() && i < ARENA_NO_BINS && views[i].size > 0 && e !in Repr && RunFoot(e.item) !! Repr
      requires e.item.Valid() && e.key == e.item.key && e.item.regSize == views[i].size
               && e.item.elems == RunElems(views[i].size)
      requires e.item.navail == e.item.elems && e.fd == null && e.bk == null && e.key !in views[i].runs
      modifies Repr, e
      ensures Valid() && Repr == old(Repr) + {e} + RunFoot(e.item) && e.key == old(e.key)
      ensures views == old(views)[i := BinView(old(views)[i].size, old(views)[i].avail + e.item.elems,
                                               old(views)[i].runs[e.key := RunView(e.addr, e.item.bitmap.items)],
                                               old(views)[i].members + {e})]
      ensures i < |bins| && bins[i].active.entries != [] && bins[i].active.entries[0] == e
    {
      hide Bin.Valid, BinsOk, BinsExcept, Run.Valid, RunFoot;
      var bin := BinAt(i);
      bin.SizeFacts();
      ghost var foot := feet[i] + {e} + RunFoot(e.item);
      assert foot !! (all - feet[i]);
      bin.AddRun(e);
      Back(i, foot);
      views := views[i := BinView(bin.regSize, bin.availRegs, bin.table, bin.members)];
      feet, all, Repr := feet[i := foot], all + foot, Repr + {e} + RunFoot(e.item);
      NotOwn(e);
    }

    lemma NotOwn(e: Entry<Run>)
      ensures this !in {e} + RunFoot(e.item)
    {
    }

    /** Takes a region of bin `i`, from the run that the draw selects. */
    method AllocateRegion(i: nat, draw: nat) returns (ptr: nat, ghost key: nat, ghost s: nat)
      requires Valid() && i < ARENA_NO_BINS && views[i].avail > 0
      modifies Repr
      ensures Valid() && Repr == old(Repr)
      ensures var v := old(views)[i];
              && v.size > 0 && key in v.runs && s < RunElems(v.size) && s < |v.runs[key].items|
              && v.runs[key].items[s] == STATE_FREE
              && ptr == Region(key, v.size, s)
              && views == old(views)[i := BinView(v.size, v.avail - 1,
                   v.runs[key := v.runs[key].(items := v.runs[key].items[s := STATE_ALLOC])], v.members)]
      ensures i < |bins| && old(bins[i].Selects(draw, key, s))
    {
      hide Bin.Valid, BinsOk, BinsExcept, Region, Bin.Selects;
      var bin := BinAt(i);
      bin.SizeFacts();
      ghost var foot := feet[i];
      ptr, key, s := bin.AllocateRegion(draw);
      bin.SizeFacts();
      Back(i, foot);
      views := views[i := BinView(bin.regSize, bin.availRegs, bin.table, bin.members)];
      assert feet[i := foot] == feet && all + foot == all;
    }

    method GetRunByAddr(i: nat, key: nat) returns (e: Entry?<Run>)
      requires Valid() && i < ARENA_NO_BINS
      ensures e == null <==> key !in views[i].runs
      ensures e != null ==> e in views[i].members && e.key == key
    {
      hide Bin.Valid, BinsOk, BinsExcept;
      var bin := BinAt(i);
      e := bin.GetRunByAddr(key);
    }

    /** Tells whether a region in use of run `e` starts at `ptr`. */
    method ValidateRegion(i: nat, e: Entry<Run>, ptr: nat) returns (ok: bool)
      requires Valid() && i < ARENA_NO_BINS && e in views[i].members && e.key in views[i].runs
      requires e.key <= ptr && views[i].size > 0 && ReadsInside(ptr - e.key, views[i].size, RunElems(views[i].size))
      ensures ok <==> exists s: nat :: Held(views[i].runs, views[i].size, RunElems(views[i].size), e.key, ptr, s)
    {
      hide Bin.Valid, BinsOk, BinsExcept, Region, Busy;
      var bin := BinAt(i);
      bin.SizeFacts();
      assert bin.regMaskSizeBits / 2 == RunElems(views[i].size);
      ok := bin.ValidateRegion(e, ptr);
    }

    /** Releases a region; the run leaves its bin with its last region. */
    method ReleaseRegion(i: nat, e: Entry<Run>, ptr: nat) returns (ok: bool, freeable: bool, ghost s: nat)
      requires Valid() && i < ARENA_NO_BINS && e in views[i].members && e.key in views[i].runs
      requires e.key <= ptr && views[i].size > 0 && ReadsInside(ptr - e.key, views[i].size, RunElems(views[i].size))
      modifies Repr
      ensures Valid() && Repr == old(Repr) && e.key == old(e.key)
      ensures var v := old(views)[i];
              && (ok <==> exists s: nat :: Held(v.runs, v.size, RunElems(v.size), e.key, ptr, s))
              && (!ok ==> views == old(views) && !freeable)
              && (ok ==> Held(v.runs, v.size, RunElems(v.size), e.key, ptr, s) && s < |v.runs[e.key].items|)
              && (ok ==> (freeable <==> AllReleased(v.runs[e.key].items, RunElems(v.size), s)))
              && (ok && freeable ==>
                    views == old(views)[i := BinView(v.size, v.avail, v.runs - {e.key}, v.members - {e})])
              && (ok && !freeable ==> views == old(views)[i := BinView(v.size, v.avail,
                    v.runs[e.key := v.runs[e.key].(items := v.runs[e.key].items[s := STATE_ALLOC_FREE])], v.members)])
    {
      hide Bin.Valid, BinsOk, BinsExcept, Region, Busy, AllReleased;
      var bin := BinAt(i);
      bin.SizeFacts();
      ghost var foot, v, n := feet[i], views[i], RunElems(views[i].size);
      assert v.runs == bin.table && v.size == bin.regSize && bin.regMaskSizeBits / 2 == n;
      ok, freeable, s := bin.ReleaseRegion(e, ptr);
      assert ok <==> exists s: nat :: Held(v.runs, v.size, n, e.key, ptr, s);
      Back(i, foot);
      views := views[i := BinView(bin.regSize, bin.availRegs, bin.table, bin.members)];
      assert feet[i := foot] == feet && all + foot == all;
    }

    /** What is known about every run. */
    lemma RunFacts(i: nat, key: nat)
      requires Valid() && i < ARENA_NO_BINS && key in views[i].runs
      ensures views[i].size == SizeOfBin(i) > 0 && SlotsOk(views[i].runs[key].items, RunElems(SizeOfBin(i)))
    {
      hide Bin.Valid, BinsOk, BinsExcept;
      BinsAllBut(bins, feet, all, views, i);
      bins[i].TableFacts(key);
    }
  }

  /** Bins as the zeroed arena holds them. */
  method ZeroedBins()
    returns (bins: seq<Bin>, ghost feet: seq<set<object>>, ghost all: set<object>, ghost views: seq<BinView>)
    ensures |bins| == ARENA_NO_BINS && fresh(all) && BinsOk(bins, feet, all, views)
    ensures forall j :: 0 <= j < ARENA_NO_BINS ==> views[j] == BinView(0, 0, map[], {})
  {
    hide BinsOk;
    bins, feet, all, views := [], [], {}, [];
    NoBins();
    for k := 0 to ARENA_NO_BINS
      invariant |bins| == k && |views| == k && fresh(all) && BinsOk(bins, feet, all, views)
      invariant forall j :: 0 <= j < k ==> views[j] == BinView(0, 0, map[], {})
    {
      var b := new Bin();
      BinsAppend(bins, feet, all, views, b, b.Repr, BinView(0, 0, map[], {}));
      bins, feet, all, views := bins + [b], feet + [b.Repr], all + b.Repr, views + [BinView(0, 0, map[], {})];
    }
  }

  lemma NoBins()
    ensures BinsOk([], [], {}, [])
  {
  }
}
