/** Runs: the order in which regions are handed out, and their life cycle. */
module Runs {
  import opened TreeIndex
  import opened PackedStates
  import opened Coprime
  import opened Utils

  const STATE_FREE: TwoBit := 0
  const STATE_ALLOC: TwoBit := 1
  const STATE_ALLOC_FREE: TwoBit := 2

  /** No bin has more regions to a run. */
  const MAX_ELEMS: nat := 1024

  /** Number of slots below `n` in state `t`. */
  ghost function CountOf(items: seq<TwoBit>, n: nat, t: TwoBit): nat
    requires n <= |items|
  {
    if n == 0 then 0 else CountOf(items, n - 1, t) + if items[n - 1] == t then 1 else 0
  }

  lemma {:induction false} CountUpdate(items: seq<TwoBit>, n: nat, t: TwoBit, i: nat, x: TwoBit)
    requires n <= |items| && i < |items|
    ensures CountOf(items[i := x], n, t) ==
            CountOf(items, n, t) + (if i < n && x == t then 1 else 0) - (if i < n && items[i] == t then 1 else 0)
  {
    if n > 0 {
      CountUpdate(items, n - 1, t, i, x);
    }
  }

  lemma {:induction false} CountZeroed(items: seq<TwoBit>, n: nat)
    requires n <= |items| && forall k :: 0 <= k < n ==> items[k] == 0
    ensures CountOf(items, n, 0) == n && CountOf(items, n, 2) == 0
  {
    if n > 0 {
      CountZeroed(items, n - 1);
    }
  }

  /** Together the three states account for at most all slots; a count is total exactly if all
      slots are in that state, and zero exactly if none is. */
  lemma {:induction false} CountBounds(items: seq<TwoBit>, n: nat, t: TwoBit, u: TwoBit)
    requires n <= |items| && t != u
    ensures CountOf(items, n, t) + CountOf(items, n, u) <= n
    ensures CountOf(items, n, t) == n <==> forall k :: 0 <= k < n ==> items[k] == t
    ensures CountOf(items, n, t) == 0 <==> forall k :: 0 <= k < n ==> items[k] != t
  {
    if n > 0 {
      CountBounds(items, n - 1, t, u);
    }
  }

  /** Slots that have been handed out after `m` allocations, and slots that have not. */
  ghost predicate Order(items: seq<TwoBit>, start: nat, gen: nat, n: nat, m: nat)
    requires 1 <= n <= |items|
  {
    && (forall k: nat :: k < n ==> (items[k] == STATE_FREE <==> k !in Reached(start, gen, n, m)))
    && (forall k: nat :: n <= k < |items| ==> items[k] == STATE_FREE)
    && (forall k: nat :: k < |items| ==> items[k] != 3)
  }

  /** The next slot of the walk is still free, and marking it is the next step. */
  lemma NextIsFree(items: seq<TwoBit>, start: nat, gen: nat, n: nat, m: nat)
    requires 1 <= n <= |items| && Gcd(gen, n) == 1 && m < n && Order(items, start, gen, n, m)
    ensures var i := Walk(start, gen, n, m + 1);
            i < n && items[i] == STATE_FREE && Order(items[i := STATE_ALLOC], start, gen, n, m + 1)
  {
    var i := Walk(start, gen, n, m + 1);
    forall k: nat | 1 <= k <= m
      ensures Walk(start, gen, n, k) != i
    {
      WalkDistinct(start, gen, n, k, m + 1);
    }
    assert i !in Reached(start, gen, n, m);
    ReachedNext(start, gen, n, m);
  }

  lemma ReachedNext(start: nat, gen: nat, n: nat, m: nat)
    requires n >= 1
    ensures Reached(start, gen, n, m + 1) == Reached(start, gen, n, m) + {Walk(start, gen, n, m + 1)}
  {
  }

  // ---- The life of a region ---------------------------------------------------------------

  /** A free region is handed out, or one in use is released, or nothing happens. */
  ghost predicate StateStep(items: seq<TwoBit>, items': seq<TwoBit>) {
    || items' == items
    || exists i :: 0 <= i < |items| && (|| (items[i] == STATE_FREE && items' == items[i := STATE_ALLOC])
                                        || (items[i] == STATE_ALLOC && items' == items[i := STATE_ALLOC_FREE]))
  }

  lemma Stepped(items: seq<TwoBit>, i: nat, t: TwoBit)
    requires i < |items|
             && ((items[i] == STATE_FREE && t == STATE_ALLOC) || (items[i] == STATE_ALLOC && t == STATE_ALLOC_FREE))
    ensures StateStep(items, items[i := t])
  {
  }

  ghost predicate StepAt(trace: seq<seq<TwoBit>>, k: nat)
    requires k + 1 < |trace|
  {
    StateStep(trace[k], trace[k + 1])
  }

  /** No region has gone back to an earlier state, and what was released is released. */
  ghost predicate Advanced(items: seq<TwoBit>, items': seq<TwoBit>) {
    && |items'| == |items|
    && forall i :: 0 <= i < |items| ==>
      items[i] <= items'[i] && (items[i] == STATE_ALLOC_FREE ==> items'[i] == STATE_ALLOC_FREE)
  }

  /** However often regions are handed out and released, none goes back to an earlier state. */
  lemma {:induction false} StatesAdvance(trace: seq<seq<TwoBit>>, a: nat, b: nat)
    requires a <= b < |trace| && forall k: nat :: k + 1 < |trace| ==> StepAt(trace, k)
    ensures Advanced(trace[a], trace[b])
    decreases b
  {
    if a < b {
      StatesAdvance(trace, a, b - 1);
      assert StepAt(trace, b - 1);
    }
  }

  /** No region is handed out twice. */
  lemma HandedOutOnce(trace: seq<seq<TwoBit>>, a: nat, b: nat, i: nat)
    requires a < b && b + 1 < |trace| && forall k: nat :: k + 1 < |trace| ==> StepAt(trace, k)
    requires i < |trace[a]| == |trace[a + 1]| && trace[a][i] == STATE_FREE && trace[a + 1][i] == STATE_ALLOC
    ensures i < |trace[b]| && trace[b][i] != STATE_FREE
  {
    StatesAdvance(trace, a + 1, b);
  }

  /** Region `i` starts at `ptr` and is in use. */
  ghost predicate Busy(items: seq<TwoBit>, key: nat, regSize: nat, elems: nat, ptr: int, i: nat) {
    i < elems && i < |items| && ptr == Region(key, regSize, i) && items[i] == STATE_ALLOC
  }

  function Region(key: nat, regSize: nat, i: nat): nat {
    key + i * regSize
  }

  /** Slots in the bytes of the bitmap of a run with `n` regions: two bits each, in whole bytes. */
  function BitmapSlots(n: nat): nat {
    4 * ((2 * n + 7) / 8)
  }

  /** Validating a pointer at offset `rel` of a run reads the bitmap only if the offset is a multiple
      of the region size, and then within the bytes of the bitmap. */
  predicate ReadsInside(rel: nat, regSize: nat, elems: nat)
    requires regSize >= 1
  {
    rel % regSize == 0 ==> rel / regSize < BitmapSlots(elems)
  }

  class Run {
    const key: nat
    const regSize: nat
    const elems: nat
    const gen: nat
    const bitmap: StateArray
    var navail: nat
    var nfreed: nat
    var currentIdx: nat
    ghost const start: nat

    ghost predicate Valid()
      reads this, bitmap, bitmap.mem
    {
      && 1 <= elems <= MAX_ELEMS && regSize >= 1 && Gcd(gen, elems) == 1 && gen <= elems
      && bitmap.Valid() && |bitmap.items| == BitmapSlots(elems) >= elems
      && navail <= elems && currentIdx == Walk(start, gen, elems, elems - navail)
      && Order(bitmap.items, start, gen, elems, elems - navail)
      && navail == CountOf(bitmap.items, elems, STATE_FREE)
      && nfreed == CountOf(bitmap.items, elems, STATE_ALLOC_FREE)
    }

    /** State of region `i`. */
    ghost function State(i: nat): TwoBit
      requires i < |bitmap.items|
      reads bitmap
    {
      bitmap.items[i]
    }

    /** The draws choose the step from the list of all possible ones, and the slot where the walk starts. */
    ghost predicate Drawn(genDraw: nat, startDraw: nat) {
      elems >= 1 && gen == Coprimes(elems)[genDraw % |Coprimes(elems)|] && start == startDraw % elems
    }

    /** A run over the memory at `heap`; the draws choose the step and the first region. */
    constructor (heap: nat, regSize: nat, elems: nat, genDraw: nat, startDraw: nat)
      requires 1 <= elems <= MAX_ELEMS && regSize >= 1
      ensures Valid() && fresh(bitmap) && fresh(bitmap.mem)
      ensures key == heap && this.regSize == regSize && this.elems == elems
      ensures navail == elems && nfreed == 0
      ensures Drawn(genDraw, startDraw)
      ensures forall i :: 0 <= i < |bitmap.items| ==> bitmap.items[i] == STATE_FREE
    {
      hide Gcd, CoprimesUpTo, Coprimes, CountOf, Order, Walk;
      CoprimesAre(elems);
      var table := Coprimes(elems);
      var step := table[genDraw % |table|];
      assert step in table;
      key := heap;
      this.regSize := regSize;
      this.elems := elems;
      gen := step;
      navail := elems;
      nfreed := 0;
      currentIdx := startDraw % elems;
      start := startDraw % elems;
      bitmap := new StateArray((2 * elems + 7) / 8);
      new;
      CountZeroed(bitmap.items, elems);
      OrderZeroed(bitmap.items, start, gen, elems);
      WalkZero(start, gen, elems);
    }

    /** The region that the walk comes to next. */
    ghost function NextSlot(): nat
      reads this
    {
      if elems >= 1 && navail <= elems then Walk(start, gen, elems, elems - navail + 1) else 0
    }

    /** Hands out the next region of the walk. The original's sanity check, that the region is
        free, is the second postcondition. */
    method Allocate() returns (ptr: nat)
      requires Valid() && navail > 0
      modifies `navail, `currentIdx, bitmap`items, bitmap.mem
      ensures Valid() && navail == old(navail) - 1
      ensures var i := Walk(start, gen, elems, elems - old(navail) + 1);
              && i == old(NextSlot()) && i < elems && currentIdx == i && old(bitmap.items)[i] == STATE_FREE
              && ptr == Region(key, regSize, i) && bitmap.items == old(bitmap.items)[i := STATE_ALLOC]
      ensures StateStep(old(bitmap.items), bitmap.items)
    {
      hide Order, CountOf, Walk, Gcd, StateStep;
      NextIsFree(bitmap.items, start, gen, elems, elems - navail);
      WalkStep(start, gen, elems, elems - navail);
      currentIdx := (gen + currentIdx) % elems;
      CountUpdate(bitmap.items, elems, STATE_FREE, currentIdx, STATE_ALLOC);
      CountUpdate(bitmap.items, elems, STATE_ALLOC_FREE, currentIdx, STATE_ALLOC);
      bitmap.Set(currentIdx, STATE_ALLOC);
      navail := navail - 1;
      ptr := key + currentIdx * regSize;
      Stepped(old(bitmap.items), currentIdx, STATE_ALLOC);
    }

    /** The region in use that starts at `ptr`. As in the original the caller answers for the range:
        no slot is looked up behind the bitmap. `BehindBitmap` tells which pointers that excludes. */
    method ValidatePtr(ptr: nat) returns (r: Option<nat>)
      requires Valid() && key <= ptr && ReadsInside(ptr - key, regSize, elems)
      ensures r.Some? ==> Busy(bitmap.items, key, regSize, elems, ptr, r.value)
      ensures r.None? ==> forall i: nat :: !Busy(bitmap.items, key, regSize, elems, ptr, i)
    {
      hide CountOf, Walk, Gcd, Reached;
      var relPtr := ptr - key;
      var bitmapIdx := relPtr / regSize;
      SlotOf(relPtr, regSize);
      if relPtr % regSize != 0 {
        return None;
      }
      var state := bitmap.Get(bitmapIdx);
      if state != STATE_ALLOC {
        return None;
      }
      r := Some(bitmapIdx);
    }

    /** Releases the region in use that starts at `ptr`, if there is one. */
    method Deallocate(ptr: nat) returns (ok: bool)
      requires Valid() && key <= ptr && ReadsInside(ptr - key, regSize, elems)
      modifies `nfreed, bitmap`items, bitmap.mem
      ensures Valid()
      ensures ok <==> exists i: nat :: Busy(old(bitmap.items), key, regSize, elems, ptr, i)
      ensures !ok ==> nfreed == old(nfreed) && bitmap.items == old(bitmap.items)
      ensures ok ==> nfreed == old(nfreed) + 1
                     && exists i: nat :: Busy(old(bitmap.items), key, regSize, elems, ptr, i) && i < |old(bitmap.items)|
                                         && bitmap.items == old(bitmap.items)[i := STATE_ALLOC_FREE]
      ensures StateStep(old(bitmap.items), bitmap.items)
    {
      hide CountOf, Walk, Gcd;
      var r := ValidatePtr(ptr);
      if r.None? {
        return false;
      }
      var i := r.value;
      CountUpdate(bitmap.items, elems, STATE_FREE, i, STATE_ALLOC_FREE);
      CountUpdate(bitmap.items, elems, STATE_ALLOC_FREE, i, STATE_ALLOC_FREE);
      bitmap.Set(i, STATE_ALLOC_FREE);
      nfreed := nfreed + 1;
      ok := true;
    }

    /** No region is left to hand out. */
    predicate IsDepleted()
      reads this
    {
      navail == 0
    }

    /** Every region has been handed out and released again. */
    predicate IsFreeable()
      reads this
    {
      nfreed == elems
    }

    lemma Counters()
      requires Valid()
      ensures 1 <= elems <= MAX_ELEMS && navail <= elems && elems <= |bitmap.items| == BitmapSlots(elems)
              && regSize >= 1
      ensures nfreed <= elems
    {
      CountBounds(bitmap.items, elems, STATE_ALLOC_FREE, STATE_FREE);
    }

    /** A run with a region in use is not freeable. */
    lemma NotFreeable(i: nat)
      requires Valid() && i < elems && bitmap.items[i] == STATE_ALLOC
      ensures nfreed < elems
    {
      CountBounds(bitmap.items, elems, STATE_ALLOC_FREE, STATE_FREE);
    }

    /** What the two status tests mean for the regions. */
    lemma StatusMeaning()
      requires Valid()
      ensures IsDepleted() <==> forall i :: 0 <= i < elems ==> bitmap.items[i] != STATE_FREE
      ensures IsFreeable() <==> forall i :: 0 <= i < elems ==> bitmap.items[i] == STATE_ALLOC_FREE
      ensures IsFreeable() ==> IsDepleted()
    {
      CountBounds(bitmap.items, elems, STATE_FREE, STATE_ALLOC_FREE);
      CountBounds(bitmap.items, elems, STATE_ALLOC_FREE, STATE_FREE);
    }
  }

  lemma OrderZeroed(items: seq<TwoBit>, start: nat, gen: nat, n: nat)
    requires 1 <= n <= |items| && forall k :: 0 <= k < |items| ==> items[k] == 0
    ensures Order(items, start, gen, n, 0)
  {
  }

  /** An offset starts a region exactly if it is a multiple of the region size. */
  lemma SlotOf(rel: nat, size: nat)
    requires size >= 1
    ensures rel % size == 0 ==> rel == (rel / size) * size
    ensures forall i: nat :: rel == i * size ==> rel % size == 0 && rel / size == i
  {
    forall i: nat | rel == i * size
      ensures rel % size == 0 && rel / size == i
    {
      DivModUnique(rel, size, i, 0);
    }
  }

  /** The one offset of a run at which validating would read behind the bitmap: right behind the last
      region, if the run has bytes left there and its last bitmap byte has no slot left. */
  lemma BehindBitmap(rel: nat, bytes: nat, regSize: nat)
    requires regSize >= 1 && rel < bytes
    ensures !ReadsInside(rel, regSize, bytes / regSize) <==>
              rel == (bytes / regSize) * regSize && (bytes / regSize) % 4 == 0
  {
    var n := bytes / regSize;
    Parts(bytes, regSize);
    Parts(rel, regSize);
    assert (n + 1) * regSize == n * regSize + regSize;
    if rel / regSize > n {
      MulMonotone(n + 1, rel / regSize, regSize);
    }
    if rel == n * regSize {
      DivModUnique(rel, regSize, n, 0);
    }
  }

  /** Different regions of a run do not overlap, and none leaves the run. */
  lemma RegionsDisjoint(key: nat, regSize: nat, elems: nat, i: nat, j: nat)
    requires i < j < elems
    ensures Region(key, regSize, i) + regSize <= Region(key, regSize, j)
    ensures Region(key, regSize, j) + regSize <= Region(key, regSize, elems)
  {
    MulMonotone(i + 1, j, regSize);
    MulMonotone(j + 1, elems, regSize);
    assert (i + 1) * regSize == i * regSize + regSize && (j + 1) * regSize == j * regSize + regSize;
  }

  /** A fresh run hands out every region exactly once, whatever is drawn. */
  method Drain(run: Run) returns (ptrs: seq<nat>)
    requires run.Valid() && run.navail == run.elems
    modifies run`navail, run`currentIdx, run.bitmap`items, run.bitmap.mem
    ensures run.Valid() && run.IsDepleted() && |ptrs| == run.elems
    ensures forall k :: 0 <= k < |ptrs| ==>
              ptrs[k] == Region(run.key, run.regSize, Walk(run.start, run.gen, run.elems, k + 1))
    ensures forall s :: 0 <= s < run.elems ==> Region(run.key, run.regSize, s) in ptrs
    ensures forall k, m :: 0 <= k < m < |ptrs| ==> ptrs[k] + run.regSize <= ptrs[m] || ptrs[m] + run.regSize <= ptrs[k]
  {
    hide Order, CountOf, Walk, Gcd, Region;
    ptrs := [];
    ghost var start, gen, n := run.start, run.gen, run.elems;
    while !run.IsDepleted()
      invariant run.Valid() && |ptrs| == n - run.navail
      invariant forall k :: 0 <= k < |ptrs| ==> ptrs[k] == Region(run.key, run.regSize, Walk(start, gen, n, k + 1))
      decreases run.navail
    {
      var p := run.Allocate();
      ptrs := ptrs + [p];
    }
    DrainedAll(run.key, run.regSize, start, gen, n, ptrs);
  }

  lemma DrainedAll(key: nat, regSize: nat, start: nat, gen: nat, n: nat, ptrs: seq<nat>)
    requires n >= 1 && Gcd(gen, n) == 1 && |ptrs| == n && regSize >= 1
    requires forall k :: 0 <= k < n ==> ptrs[k] == Region(key, regSize, Walk(start, gen, n, k + 1))
    ensures forall s :: 0 <= s < n ==> Region(key, regSize, s) in ptrs
    ensures forall k, m :: 0 <= k < m < n ==> ptrs[k] + regSize <= ptrs[m] || ptrs[m] + regSize <= ptrs[k]
  {
    WalkIsPermutation(start, gen, n);
    SlotsAre(n);
    forall s | 0 <= s < n
      ensures Region(key, regSize, s) in ptrs
    {
      assert s in Slots(n);
      var k :| 1 <= k <= n && Walk(start, gen, n, k) == s;
      assert ptrs[k - 1] == Region(key, regSize, s);
    }
    forall k, m | 0 <= k < m < n
      ensures ptrs[k] + regSize <= ptrs[m] || ptrs[m] + regSize <= ptrs[k]
    {
      var a, b := Walk(start, gen, n, k + 1), Walk(start, gen, n, m + 1);
      assert a != b;
      if a < b {
        RegionsDisjoint(key, regSize, n, a, b);
      } else {
        RegionsDisjoint(key, regSize, n, b, a);
      }
    }
  }
}
