/** Bins: the runs that serve one region size. */
module Bins {
  import opened TreeIndex
  import opened PackedStates
  import opened Coprime
  import opened Runs
  import opened SizeClass
  import opened LinkedList
  import opened Utils

  const RUN_SIZE_SMALL_PAGES: nat := 4
  const RUN_SIZE_MEDIUM_PAGES: nat := 4
  const BIN_MINIMUM_REGIONS: nat := 256

  /** Pages of a run for regions of a class. */
  function RunPages(regSize: nat): nat {
    if IsSmall(regSize) then RUN_SIZE_SMALL_PAGES
    else if IsMedium(regSize) then RUN_SIZE_MEDIUM_PAGES
    else regSize / PAGE_SIZE
  }

  /** Regions of a run. */
  function RunElems(regSize: nat): nat
    requires regSize > 0
  {
    RunPages(regSize) * PAGE_SIZE / regSize
  }

  lemma ElemsBounds(regSize: nat)
    requires IsClass(regSize)
    ensures 1 <= RunElems(regSize) <= MAX_ELEMS
    ensures RunElems(regSize) * regSize <= RunPages(regSize) * PAGE_SIZE
    ensures RunPages(regSize) * PAGE_SIZE < (RunElems(regSize) + 1) * regSize
    ensures if IsLarge(regSize) then RunElems(regSize) == 1 && RunPages(regSize) * PAGE_SIZE == regSize
            else RunPages(regSize) == 4
  {
    hide Pow2, Level;
    ClassUnits(regSize);
    NoMoreFit(RunPages(regSize) * PAGE_SIZE, regSize);
    if IsLarge(regSize) {
      LargePages(regSize, regSize / LARGE_SIZE_MIN_REGION);
      ExactQuotient(regSize, 1);
    } else {
      Parts(16384, regSize);
      QuotientBounds(16384, regSize);
    }
  }

  lemma NoMoreFit(n: nat, d: nat)
    requires d >= 1
    ensures n < (n / d + 1) * d
  {
    Parts(n, d);
    assert (n / d + 1) * d == (n / d) * d + d;
  }

  lemma LargePages(n: nat, d: nat)
    requires n == 16384 * d
    ensures n / 4096 * 4096 == n
  {
    var k := 4 * d;
    assert n == 4096 * k;
    ExactQuotient(4096, k);
  }

  lemma QuotientBounds(n: nat, d: nat)
    requires n == 16384 && 16 <= d <= 16384
    ensures 1 <= n / d <= 1024
  {
    QuotientBelow(n, 1025, d);
    if n / d == 0 {
      Parts(n, d);
    }
  }

  /** The classes whose runs have an offset at which the bitmap would be read behind its end. */
  lemma TailClasses(size: nat)
    requires IsClass(size)
    ensures (exists rel: nat :: rel < RunPages(size) * PAGE_SIZE && !ReadsInside(rel, size, RunElems(size))) <==>
            size in {80, 240, 272, 288, 336, 368, 400, 448}
  {
    hide ReadsInside, Pow2, Level;
    var bytes, n := RunPages(size) * PAGE_SIZE, RunElems(size);
    ElemsBounds(size);
    TailSizes(size);
    forall rel: nat | rel < bytes && !ReadsInside(rel, size, n)
      ensures n * size < bytes && n % 4 == 0
    {
      BehindBitmap(rel, bytes, size);
    }
    if n * size < bytes && n % 4 == 0 {
      BehindBitmap(n * size, bytes, size);
    }
  }

  lemma TailSizes(size: nat)
    requires IsClass(size)
    ensures RunElems(size) * size < RunPages(size) * PAGE_SIZE && RunElems(size) % 4 == 0 <==>
            size in {80, 240, 272, 288, 336, 368, 400, 448}
  {
    hide Pow2, Level, IsClass;
    ClassUnits(size);
    ElemsBounds(size);
    if IsSmall(size) {
      SmallTails(size, size / 16);
    } else if IsMedium(size) {
      MediumTails(size / MEDIUM_SIZE_MIN_REGION);
    }
  }

  lemma SmallTails(size: nat, d: nat)
    requires size == 16 * d && 1 <= d <= 32
    ensures var n := 16384 / size; n * size < 16384 && n % 4 == 0 <==> d in {5, 15, 17, 18, 21, 23, 25, 28}
  {
    if d <= 8 {
      assert d == 1 || d == 2 || d == 3 || d == 4 || d == 5 || d == 6 || d == 7 || d == 8;
    } else if d <= 16 {
      assert d == 9 || d == 10 || d == 11 || d == 12 || d == 13 || d == 14 || d == 15 || d == 16;
    } else if d <= 24 {
      assert d == 17 || d == 18 || d == 19 || d == 20 || d == 21 || d == 22 || d == 23 || d == 24;
    } else {
      assert d == 25 || d == 26 || d == 27 || d == 28 || d == 29 || d == 30 || d == 31 || d == 32;
    }
  }

  lemma MediumTails(d: nat)
    requires d >= 1 && d == Pow2(Level(d)) && Level(d) < NO_MEDIUM_SIZE_CLASSES
    ensures d in {1, 2, 4, 8}
  {
    var l := Level(d);
    assert l == 0 || l == 1 || l == 2 || l == 3;
    assert Pow2(2) == 4 && Pow2(3) == 8;
  }

  /** A run of 204 regions of 80 bytes: offset 16320 is inside the run, and its slot is behind the
      51 bytes of the bitmap. */
  lemma TailExample()
    ensures IsClass(80) && RunElems(80) == 204 && 16320 < RunPages(80) * PAGE_SIZE && BitmapSlots(204) == 4 * 51
    ensures !ReadsInside(16320, 80, RunElems(80))
  {
    assert SizeOfBin(4) == 80;
  }

  // ---- Sums -------------------------------------------------------------------------------

  ghost function Sum(s: seq<nat>): nat {
    if s == [] then 0 else s[0] + Sum(s[1..])
  }

  lemma {:induction false} SumUpdate(s: seq<nat>, k: nat, x: nat)
    requires k < |s|
    ensures Sum(s[k := x]) == Sum(s) - s[k] + x
    ensures Sum(s) >= s[k]
    decreases |s|
  {
    var t := s[k := x];
    if k == 0 {
      assert t[1..] == s[1..];
    } else {
      assert t[1..] == s[1..][k - 1 := x];
      SumUpdate(s[1..], k - 1, x);
    }
  }

  lemma {:induction false} SumRemove(s: seq<nat>, k: nat)
    requires k < |s|
    ensures Sum(s[..k] + s[k + 1..]) == Sum(s) - s[k]
    ensures Sum(s) >= s[k]
    decreases |s|
  {
    var t := s[..k] + s[k + 1..];
    if k == 0 {
      assert t == s[1..];
    } else {
      assert t[1..] == s[1..][..k - 1] + s[1..][k..];
      SumRemove(s[1..], k - 1);
    }
  }

  lemma SumCons(x: nat, s: seq<nat>)
    ensures Sum([x] + s) == x + Sum(s)
  {
    assert ([x] + s)[1..] == s;
  }

  lemma SumZero(s: seq<nat>)
    ensures Sum(s) == 0 <==> forall k :: 0 <= k < |s| ==> s[k] == 0
  {
    if s != [] {
      SumZero(s[1..]);
      assert forall k :: 1 <= k < |s| ==> s[k] == s[1..][k - 1];
    }
  }

  lemma {:induction false} SumOfPositives(s: seq<nat>)
    requires forall k :: 0 <= k < |s| ==> s[k] > 0
    ensures |s| <= Sum(s)
  {
    if s != [] {
      SumOfPositives(s[1..]);
    }
  }

  // ---- Bins -------------------------------------------------------------------------------

  /** What the rest of the allocator sees of a run: the address of its record, and the states of
      its regions. */
  datatype RunView = RunView(addr: int, items: seq<TwoBit>)

  ghost function RunFoot(r: Run): set<object> {
    {r, r.bitmap, r.bitmap.mem}
  }

  ghost predicate Separate(r: Run, q: Run) {
    r != q && r.bitmap != q.bitmap && r.bitmap.mem != q.bitmap.mem
  }

  ghost predicate RunOk(e: Entry<Run>, regSize: nat, mask: nat, table: map<nat, RunView>)
    reads e`key, RunFoot(e.item)
  {
    && e.item.Valid() && e.key == e.item.key && e.item.regSize == regSize && 2 * e.item.elems == mask
    && e.key in table && table[e.key] == RunView(e.addr, e.item.bitmap.items)
  }

  /** The runs of a bin are well formed, share no state, and are what `table` says. */
  ghost predicate RunsOk(members: set<Entry<Run>>, feet: set<object>, regSize: nat, mask: nat, table: map<nat, RunView>)
    reads members`key, feet
  {
    && (forall e :: e in members ==> RunFoot(e.item) <= feet && RunOk(e, regSize, mask, table))
    && (forall e, f :: e in members && f in members && e != f ==> Separate(e.item, f.item) && e.key != f.key)
    && (forall k :: k in table ==> exists e :: e in members && e.key == k)
  }

  /** Slot `i` of the run at `key` is what `ptr` points to, and is in use. */
  ghost predicate Held(t: map<nat, RunView>, regSize: nat, elems: nat, key: nat, ptr: int, i: nat) {
    key in t && Busy(t[key].items, key, regSize, elems, ptr, i)
  }

  /** A run has a slot for every region, and possibly some slots that are never used. */
  ghost predicate SlotsOk(items: seq<TwoBit>, n: nat) {
    n <= |items| == BitmapSlots(n) && forall k :: n <= k < |items| ==> items[k] == STATE_FREE
  }

  /** All slots below `n`, except slot `i`, have been released. */
  ghost predicate AllReleased(items: seq<TwoBit>, n: nat, i: nat) {
    n <= |items| && forall k :: 0 <= k < n && k != i ==> items[k] == STATE_ALLOC_FREE
  }

  lemma NewSeparate(feet: set<object>, e: Run, f: Run)
    requires RunFoot(e) !! feet && RunFoot(f) <= feet
    ensures Separate(e, f) && Separate(f, e)
  {
    assert f in RunFoot(f) && f.bitmap in RunFoot(f) && f.bitmap.mem in RunFoot(f);
  }

  lemma NotOwnFoot(e: Entry<Run>)
    ensures e !in RunFoot(e.item)
  {
  }

  lemma RunsAdd(members: set<Entry<Run>>, feet: set<object>, regSize: nat, mask: nat, table: map<nat, RunView>,
                e: Entry<Run>)
    requires RunsOk(members, feet, regSize, mask, table) && e !in members && e.key !in table
    requires RunFoot(e.item) !! feet
    requires e.item.Valid() && e.key == e.item.key && e.item.regSize == regSize && 2 * e.item.elems == mask
    ensures RunsOk(members + {e}, feet + RunFoot(e.item), regSize, mask,
                   table[e.key := RunView(e.addr, e.item.bitmap.items)])
  {
    hide Run.Valid, Separate, RunFoot;
    var all, table' := members + {e}, table[e.key := RunView(e.addr, e.item.bitmap.items)];
    forall f | f in members
      ensures RunOk(f, regSize, mask, table') && Separate(e.item, f.item) && Separate(f.item, e.item) && e.key != f.key
    {
      assert RunOk(f, regSize, mask, table);
      NewSeparate(feet, e.item, f.item);
    }
    forall k | k in table'
      ensures exists f :: f in all && f.key == k
    {
      if k == e.key {
        assert e in all;
      } else {
        var f :| f in members && f.key == k;
        assert f in all;
      }
    }
  }

  lemma RunsRemove(members: set<Entry<Run>>, feet: set<object>, regSize: nat, mask: nat, table: map<nat, RunView>,
                   e: Entry<Run>)
    requires RunsOk(members, feet, regSize, mask, table) && e in members
    ensures RunsOk(members - {e}, feet, regSize, mask, table - {e.key})
  {
    hide Run.Valid, Separate, RunFoot;
    var rest, table' := members - {e}, table - {e.key};
    forall f | f in rest
      ensures RunOk(f, regSize, mask, table')
    {
      assert RunOk(f, regSize, mask, table);
    }
    forall k | k in table'
      ensures exists f :: f in rest && f.key == k
    {
      var f :| f in members && f.key == k;
      assert f in rest;
    }
  }

  /** As RunsOk, but nothing is said about the state of the run of `e`. */
  ghost predicate RunsExcept(members: set<Entry<Run>>, feet: set<object>, regSize: nat, mask: nat,
                             table: map<nat, RunView>, e: Entry<Run>)
    reads members`key, feet - RunFoot(e.item)
  {
    && e in members && RunFoot(e.item) <= feet && e.key in table
    && (forall f :: f in members && f != e ==>
          RunFoot(f.item) <= feet && RunFoot(f.item) !! RunFoot(e.item) && RunOk(f, regSize, mask, table))
    && (forall e, f :: e in members && f in members && e != f ==> Separate(e.item, f.item) && e.key != f.key)
    && (forall k :: k in table ==> exists e :: e in members && e.key == k)
  }

  lemma RunsAllBut(members: set<Entry<Run>>, feet: set<object>, regSize: nat, mask: nat, table: map<nat, RunView>,
                   e: Entry<Run>)
    requires RunsOk(members, feet, regSize, mask, table) && e in members
    ensures RunsExcept(members, feet, regSize, mask, table, e) && RunOk(e, regSize, mask, table)
  {
    hide Run.Valid;
    assert RunOk(e, regSize, mask, table);
    forall f | f in members && f != e
      ensures RunFoot(f.item) !! RunFoot(e.item)
    {
      assert Separate(f.item, e.item);
    }
  }

  /** With the run of `e` changed but well formed, the runs are what the updated table says. */
  lemma RunsBack(members: set<Entry<Run>>, feet: set<object>, regSize: nat, mask: nat, table: map<nat, RunView>,
                 e: Entry<Run>)
    requires RunsExcept(members, feet, regSize, mask, table, e)
    requires e.item.Valid() && e.key == e.item.key && e.item.regSize == regSize && 2 * e.item.elems == mask
    ensures RunsOk(members, feet, regSize, mask, table[e.key := RunView(e.addr, e.item.bitmap.items)])
  {
    hide Run.Valid;
    var table' := table[e.key := RunView(e.addr, e.item.bitmap.items)];
    forall f | f in members && f != e
      ensures RunOk(f, regSize, mask, table')
    {
      assert RunOk(f, regSize, mask, table);
    }
  }

  lemma EmptyRuns(members: set<Entry<Run>>, feet: set<object>, regSize: nat, mask: nat, table: map<nat, RunView>)
    requires RunsOk(members, feet, regSize, mask, table) && members == {}
    ensures table == map[]
  {
  }

  lemma NoRuns(members: set<Entry<Run>>, feet: set<object>, regSize: nat, mask: nat, table: map<nat, RunView>)
    requires members == {} && table == map[]
    ensures RunsOk(members, feet, regSize, mask, table)
  {
  }

  lemma NoneListed(s: seq<Entry<Run>>, members: set<Entry<Run>>)
    requires members == {} && forall e :: e in s ==> e in members
    ensures s == []
  {
    if s != [] {
      SomeListed(s);
    }
  }

  lemma SomeListed(s: seq<Entry<Run>>)
    requires s != []
    ensures exists e :: e in s
  {
    assert s[0] in s;
  }

  class Bin {
    const active: List<Run>
    const inactive: List<Run>
    var activeCnt: nat
    var availRegs: nat
    var regSize: nat
    var runSizePages: nat
    var regMaskSizeBits: nat
    ghost var Repr: set<object>
    ghost var members: set<Entry<Run>>
    ghost var feet: set<object>
    ghost var table: map<nat, RunView>

    /** Size of the regions, and what follows from it; zero before the bin is used. */
    ghost predicate Sized()
      reads this`regSize, this`runSizePages, this`regMaskSizeBits
    {
      regSize > 0 ==>
        IsClass(regSize) && runSizePages == RunPages(regSize) && regMaskSizeBits == 2 * RunElems(regSize)
    }

    ghost predicate Owned()
      reads this`Repr, this`members, this`feet
    {
      && this in Repr && active in Repr && inactive in Repr && active != inactive
      && members <= Repr && feet <= Repr && feet !! {this, active, inactive} && feet !! members
    }

    /** Every run is on one of the two lists. */
    ghost predicate Lists()
      reads this`members, active, inactive, members
    {
      && (forall e :: e in members ==> e in active.entries || e in inactive.entries)
      && (forall e :: e in active.entries ==> e in members && e !in inactive.entries)
      && (forall e :: e in inactive.entries ==> e in members)
      && active.Valid() && inactive.Valid() && active != inactive
    }

    /** Both lists, and the runs on them. */
    ghost predicate Listed()
      reads this`Repr, this`members, this`feet, this`table, this`regSize, this`runSizePages, this`regMaskSizeBits
      reads active, inactive, members, feet
    {
      && Owned() && Sized() && Lists()
      && RunsOk(members, feet, regSize, regMaskSizeBits, table)
      && (regSize == 0 ==> members == {})
    }

    ghost function Navails(s: seq<Entry<Run>>): seq<nat>
      reads set e | e in s :: e.item
    {
      seq(|s|, i requires 0 <= i < |s| reads set e | e in s :: e.item => s[i].item.navail)
    }

    /** The counters agree with the lists; active runs have free regions, inactive runs have none
        but still some that have not been released. */
    ghost predicate Counted()
      reads this, active, inactive, set e | e in active.entries + inactive.entries :: e.item
    {
      && activeCnt == |active.entries| && availRegs == Sum(Navails(active.entries))
      && (forall e :: e in active.entries ==> e.item.navail > 0)
      && (forall e :: e in inactive.entries ==> e.item.navail == 0 && e.item.nfreed < e.item.elems)
    }

    ghost predicate Valid()
      reads this, active, inactive, Repr
    {
      Owned() && Listed() && Counted()
    }

    constructor ()
      ensures Valid() && fresh(Repr) && regSize == 0 && availRegs == 0 && table == map[] && members == {}
    {
      active := new List<Run>();
      inactive := new List<Run>();
      activeCnt, availRegs, regSize, runSizePages, regMaskSizeBits := 0, 0, 0, 0, 0;
      table := map[];
      members := {};
      feet := {};
      new;
      Repr := {this, active, inactive};
      assert Navails(active.entries) == [];
    }

    lemma SizeFacts()
      requires Valid()
      ensures regSize > 0 ==>
                IsClass(regSize) && regMaskSizeBits == 2 * RunElems(regSize) && runSizePages == RunPages(regSize)
      ensures availRegs > 0 ==> regSize > 0
    {
      hide RunsOk;
      if regSize == 0 {
        NoneListed(active.entries, members);
        assert Navails(active.entries) == [];
      }
    }

    /** There are no more active runs than free regions, and a run has at most 1024 regions. */
    lemma CountersBound()
      requires Valid()
      ensures activeCnt <= availRegs && (regSize > 0 ==> regMaskSizeBits <= 2 * MAX_ELEMS)
    {
      hide RunsOk;
      SumOfPositives(Navails(active.entries));
      if regSize > 0 {
        ElemsBounds(regSize);
      }
    }

    lemma MemberFacts(e: Entry<Run>)
      requires Valid() && e in members
      ensures e.key in table && table[e.key].addr == e.addr && e.key == e.item.key && regSize > 0
    {
      hide Run.Valid;
      assert RunOk(e, regSize, regMaskSizeBits, table);
    }

    lemma TableFacts(key: nat)
      requires Valid() && key in table
      ensures regSize > 0 && SlotsOk(table[key].items, RunElems(regSize))
    {
      hide Walk, Gcd, CountOf, Reached, Separate;
      var e :| e in members && e.key == key;
      assert RunOk(e, regSize, regMaskSizeBits, table);
    }

    /** Gives a bin that has not been used so far its region size. */
    method Init(size: nat)
      requires Valid() && regSize == 0 && IsClass(size)
      modifies this
      ensures Valid() && Repr == old(Repr) && table == old(table) && members == old(members)
      ensures regSize == size && availRegs == 0 == old(availRegs)
    {
      hide RunsOk, Run.Valid;
      EmptyRuns(members, feet, regSize, regMaskSizeBits, table);
      NoneListed(active.entries, members);
      NoneListed(inactive.entries, members);
      assert Navails(active.entries) == [];
      ElemsBounds(size);
      ClassUnits(size);
      if IsSmall(size) {
        runSizePages := RUN_SIZE_SMALL_PAGES;
      } else if IsMedium(size) {
        runSizePages := RUN_SIZE_MEDIUM_PAGES;
      } else {
        runSizePages := size / PAGE_SIZE;
      }
      regSize := size;
      availRegs := 0;
      regMaskSizeBits := runSizePages * PAGE_SIZE / size * 2;
      activeCnt := 0;
      assert Navails(active.entries) == [];
      NoRuns(members, feet, regSize, regMaskSizeBits, table);
    }

    method AddRun(e: Entry<Run>)
      requires Valid() && regSize > 0 && e !in Repr && RunFoot(e.item) !! Repr
      requires e.item.Valid() && e.key == e.item.key && e.item.regSize == regSize && 2 * e.item.elems == regMaskSizeBits
      requires e.item.navail == e.item.elems && e.fd == null && e.bk == null && e.key !in table
      modifies Repr, e
      ensures Valid() && Repr == old(Repr) + {e} + RunFoot(e.item)
      ensures table == old(table)[e.key := RunView(e.addr, e.item.bitmap.items)]
      ensures availRegs == old(availRegs) + e.item.elems && regSize == old(regSize) && members == old(members) + {e}
      ensures active.entries == [e] + old(active.entries) && inactive.entries == old(inactive.entries)
      ensures e.key == old(e.key)
    {
      hide RunsOk, RunFoot, Sized, Run.Valid, Lists, OthersCounted, Sum;
      ghost var act, inact := active.entries, inactive.entries;
      OthersFrom(act, inact, e);
      ghost var before := Navails(act);
      e.item.Counters();
      EntriesOwned();
      Link(e);
      assert Navails(act) == before && OthersCounted(act, inact, e);
      NavailsCons(e, act);
      SumCons(e.item.navail, before);
      availRegs := availRegs + e.item.navail;
      activeCnt := activeCnt + 1;
    }

    lemma EntriesOwned()
      requires Owned() && Listed()
      ensures forall f :: f in active.entries || f in inactive.entries ==> f in Repr && f !in feet
    {
      hide RunsOk;
    }

    lemma NavailsCons(e: Entry<Run>, act: seq<Entry<Run>>)
      ensures Navails([e] + act) == [e.item.navail] + Navails(act)
    {
    }

    /** Lists a new run as active. */
    method Link(e: Entry<Run>)
      requires Listed() && regSize > 0 && e !in Repr && RunFoot(e.item) !! Repr
      requires e.item.Valid() && e.key == e.item.key && e.item.regSize == regSize && 2 * e.item.elems == regMaskSizeBits
      requires e.fd == null && e.bk == null && e.key !in table
      modifies this`Repr, this`table, this`members, this`feet, active, active.entries`bk, e`fd, e`bk
      ensures Listed() && Repr == old(Repr) + {e} + RunFoot(e.item)
      ensures table == old(table)[e.key := RunView(e.addr, e.item.bitmap.items)]
      ensures active.entries == [e] + old(active.entries) && inactive.entries == old(inactive.entries)
      ensures members == old(members) + {e}
    {
      hide RunsOk, RunFoot, Run.Valid, Lists;
      assert !active.HasKey(e.key) by {
        KeyMissing(e.key);
      }
      RunsAdd(members, feet, regSize, regMaskSizeBits, table, e);
      NotOwnFoot(e);
      Repr := Repr + {e} + RunFoot(e.item);
      table := table[e.key := RunView(e.addr, e.item.bitmap.items)];
      feet := feet + RunFoot(e.item);
      ListActive(e);
    }

    method ListActive(e: Entry<Run>)
      requires Lists() && e !in members && !active.HasKey(e.key) && e.fd == null && e.bk == null
      modifies this`members, active, active.entries`bk, e`fd, e`bk
      ensures Lists() && members == old(members) + {e}
      ensures active.entries == [e] + old(active.entries) && inactive.entries == old(inactive.entries)
    {
      assert forall i :: 0 <= i < |inactive.entries| ==>
               inactive.entries[i] in inactive.entries && inactive.entries[i] !in active.entries;
      members := members + {e};
      active.Add(e);
    }

    lemma KeyMissing(key: nat)
      requires Listed() && key !in table
      ensures !active.HasKey(key) && !inactive.HasKey(key)
    {
      hide Run.Valid;
      forall e | e in members
        ensures e.key in table
      {
        assert RunOk(e, regSize, regMaskSizeBits, table);
      }
      assert forall k :: 0 <= k < |active.entries| ==> active.entries[k] in active.entries;
      assert forall k :: 0 <= k < |inactive.entries| ==> inactive.entries[k] in inactive.entries;
    }

    /** Takes a run of which nothing is left from the list of inactive runs. */
    method DeleteRun(e: Entry<Run>)
      requires Lists() && Listed() && e in inactive.entries
      modifies this`table, this`members, inactive, inactive.entries`fd, inactive.entries`bk
      ensures Listed() && e.fd == null && e.bk == null
      ensures var k := old(inactive.Position(e));
              inactive.entries == old(inactive.entries[..k] + inactive.entries[k + 1..])
      ensures e !in inactive.entries && forall f :: f in inactive.entries ==> f in old(inactive.entries)
      ensures table == old(table) - {e.key} && members == old(members) - {e}
    {
      hide RunsOk, RunFoot, Run.Valid;
      RunsRemove(members, feet, regSize, regMaskSizeBits, table, e);
      table := table - {e.key};
      Unlist(e);
      assert Owned();
      assert Sized();
      assert RunsOk(members, feet, regSize, regMaskSizeBits, table);
    }

    method Unlist(e: Entry<Run>)
      requires Lists() && e in inactive.entries
      modifies this`members, inactive, inactive.entries`fd, inactive.entries`bk
      ensures Lists() && members == old(members) - {e} && e.fd == null && e.bk == null
      ensures var k := old(inactive.Position(e));
              inactive.entries == old(inactive.entries[..k] + inactive.entries[k + 1..])
      ensures e !in inactive.entries && forall f :: f in inactive.entries ==> f in old(inactive.entries)
    {
      members := members - {e};
      assert forall i :: 0 <= i < |active.entries| ==>
               active.entries[i] in active.entries && active.entries[i] !in inactive.entries;
      inactive.Del(e);
    }

    /** The run at `key` is the first active one, with the step and the start that were drawn. */
    ghost predicate NewestDrawn(key: nat, genDraw: nat, startDraw: nat)
      reads active
    {
      active.entries != [] && active.entries[0].item.key == key && active.entries[0].item.Drawn(genDraw, startDraw)
    }

    /** The draw selects the run at `key`, and region `i` is next in its walk. */
    ghost predicate Selects(draw: nat, key: nat, i: nat)
      reads active, active.entries, set e | e in active.entries :: e.item
    {
      active.entries != [] && var e := active.entries[draw % |active.entries|]; key == e.key && i == e.item.NextSlot()
    }

    /** Selects an active run at random, and counts the region that has to be taken from it. */
    method GetRunForAllocation(draw: nat) returns (e: Entry<Run>)
      requires Valid() && availRegs > 0
      modifies this`availRegs
      ensures 0 < activeCnt == |active.entries| && e == active.entries[draw % activeCnt]
      ensures availRegs == old(availRegs) - 1 && Owned() && Listed()
    {
      hide RunsOk, RunFoot, Sized, Run.Valid;
      assert Navails([]) == [];
      var runIdx := draw % activeCnt;
      var entry := active.head;
      ghost var k := 0;
      while entry != null
        invariant 0 <= k <= draw % activeCnt && runIdx == draw % activeCnt - k && entry == active.entries[k]
        decreases runIdx
      {
        assert Links(active.entries, k);
        if runIdx == 0 {
          availRegs := availRegs - 1;
          return entry;
        }
        runIdx := runIdx - 1;
        entry := entry.fd;
        k := k + 1;
      }
      assert false;
    }

    /** Moves a run without free regions to the list of inactive runs. */
    method RetireRun(e: Entry<Run>)
      requires Lists() && Listed() && e in active.entries && activeCnt == |active.entries|
      modifies this`activeCnt, active, inactive, active.entries`fd, active.entries`bk, inactive.entries`bk
      ensures Listed() && activeCnt == old(activeCnt) - 1
      ensures var k := old(active.Position(e)); active.entries == old(active.entries[..k] + active.entries[k + 1..])
      ensures inactive.entries == [e] + old(inactive.entries)
    {
      hide RunsOk, RunFoot, Sized, Run.Valid, Lists;
      assert !inactive.HasKey(e.key) by {
        KeysApart(e);
      }
      EntriesOwned();
      Move(e);
      activeCnt := activeCnt - 1;
    }

    method Move(e: Entry<Run>)
      requires Lists() && e in active.entries && !inactive.HasKey(e.key)
      modifies active, inactive, active.entries`fd, active.entries`bk, inactive.entries`bk
      ensures Lists()
      ensures var k := old(active.Position(e)); active.entries == old(active.entries[..k] + active.entries[k + 1..])
      ensures inactive.entries == [e] + old(inactive.entries)
    {
      hide UniqueKeys, Links;
      assert forall i :: 0 <= i < |inactive.entries| ==>
               inactive.entries[i] in inactive.entries && inactive.entries[i] !in active.entries;
      active.Del(e);
      assert forall i :: 0 <= i < |active.entries| ==>
               active.entries[i] in active.entries && active.entries[i] !in inactive.entries;
      inactive.Add(e);
    }

    lemma KeysApart(e: Entry<Run>)
      requires Listed() && e in active.entries
      ensures !inactive.HasKey(e.key)
    {
      hide Run.Valid;
      assert forall k :: 0 <= k < |inactive.entries| ==> inactive.entries[k] in inactive.entries;
    }

    /** Takes a region from a run selected at random, and retires the run if that was its last one. */
    method AllocateRegion(draw: nat) returns (ptr: nat, ghost key: nat, ghost i: nat)
      requires Valid() && availRegs > 0
      modifies Repr
      ensures Valid() && Repr == old(Repr) && regSize == old(regSize) && availRegs == old(availRegs) - 1
              && members == old(members)
      ensures key in old(table) && i < |old(table)[key].items| && old(table)[key].items[i] == STATE_FREE
      ensures 2 * i < regMaskSizeBits && ptr == Region(key, regSize, i)
      ensures table == old(table)[key := old(table)[key].(items := old(table)[key].items[i := STATE_ALLOC])]
      ensures old(Selects(draw, key, i))
      ensures Settled(old(active.entries), old(inactive.entries), draw % |old(active.entries)|)
    {
      hide RunsOk, RunFoot, Sized, Run.Valid, Lists, Walk, Region, Sum, OthersCounted, Settled;
      var e := GetRunForAllocation(draw);
      key := e.key;
      ActiveOwned(e);
      OthersFrom(active.entries, inactive.entries, e);
      ghost var p := draw % activeCnt;
      PositionIs(p);
      ghost var before := Navails(active.entries);
      ptr, i := TakeRegion(e, before, p);
      SumUpdate(before, p, e.item.navail);
      Settle(e, p);
    }

    /** The lists after a region has been taken from run `k` of the active list `act`: the run is put to the
        front of the inactive list if it has none left. */
    ghost predicate Settled(act: seq<Entry<Run>>, inact: seq<Entry<Run>>, k: nat)
      reads active, inactive, set e | e in act :: e.item
    {
      && k < |act|
      && if act[k].item.navail > 0 then active.entries == act && inactive.entries == inact
         else active.entries == act[..k] + act[k + 1..] && inactive.entries == [act[k]] + inact
    }

    lemma PositionIs(k: nat)
      requires Listed() && k < |active.entries|
      ensures active.Position(active.entries[k]) == k
    {
      hide RunsOk;
      assert active.Valid();
    }

    /** Retires the run that a region has been taken from if that was its last one. */
    method Settle(e: Entry<Run>, ghost p: nat)
      requires Owned() && Listed() && e in active.entries && p == active.Position(e) && activeCnt == |active.entries|
      requires e.item.nfreed < e.item.elems && OthersCounted(active.entries, inactive.entries, e)
      requires availRegs == Sum(Navails(active.entries)) && e !in inactive.entries
      modifies this`activeCnt, active, inactive, active.entries`fd, active.entries`bk, inactive.entries`bk
      ensures Listed() && Counted() && Settled(old(active.entries), old(inactive.entries), p)
    {
      hide RunsOk, RunFoot, Sized, Run.Valid, Lists, Sum, OthersCounted, Listed;
      if e.item.IsDepleted() {
        RetireDepleted(e, p);
      } else {
        KeptCounts(active.entries, inactive.entries, e);
      }
    }

    method RetireDepleted(e: Entry<Run>, ghost p: nat)
      requires Owned() && Listed() && e in active.entries && p == active.Position(e) && activeCnt == |active.entries|
      requires e.item.navail == 0 && e.item.nfreed < e.item.elems && OthersCounted(active.entries, inactive.entries, e)
      requires availRegs == Sum(Navails(active.entries))
      modifies this`activeCnt, active, inactive, active.entries`fd, active.entries`bk, inactive.entries`bk
      ensures Listed() && Counted()
      ensures active.entries == old(active.entries[..p] + active.entries[p + 1..])
      ensures inactive.entries == [e] + old(inactive.entries)
    {
      hide RunsOk, RunFoot, Sized, Run.Valid, Lists, Sum, OthersCounted, Listed;
      ghost var act, inact := active.entries, inactive.entries;
      ghost var before := Navails(act);
      ListsOf(e);
      RetireRun(e);
      assert Navails(act) == before && OthersCounted(act, inact, e);
      NavailsWithout(act, p);
      SumRemove(before, p);
      RetiredCounts(act, inact, e, p);
    }

    lemma ListsOf(e: Entry<Run>)
      requires Listed() && e in active.entries
      ensures Lists()
      ensures var p := active.Position(e); e !in active.entries[..p] + active.entries[p + 1..]
    {
      hide RunsOk;
      MembersWithout(active.entries, active.Position(e));
    }

    lemma NavailsWithout(act: seq<Entry<Run>>, p: nat)
      requires p < |act|
      ensures Navails(act[..p] + act[p + 1..]) == Navails(act)[..p] + Navails(act)[p + 1..]
    {
    }

    /** Takes a region from an active run; the counters are adjusted elsewhere. */
    method TakeRegion(e: Entry<Run>, ghost before: seq<nat>, ghost p: nat) returns (ptr: nat, ghost i: nat)
      requires Owned() && Listed() && e in active.entries && e.item.navail > 0
               && OthersCounted(active.entries, inactive.entries, e)
      requires before == Navails(active.entries) && p == active.Position(e)
      modifies RunFoot(e.item), this`table
      ensures Owned() && Listed()
      ensures e.key in old(table) && i < |old(table)[e.key].items| && old(table)[e.key].items[i] == STATE_FREE
      ensures 2 * i < regMaskSizeBits && ptr == Region(e.key, regSize, i) && i == old(e.item.NextSlot())
      ensures table == old(table)[e.key := old(table)[e.key].(items := old(table)[e.key].items[i := STATE_ALLOC])]
      ensures e.item.nfreed < e.item.elems && OthersCounted(active.entries, inactive.entries, e)
      ensures p < |before| && before[p] == e.item.navail + 1 && Navails(active.entries) == before[p := e.item.navail]
    {
      hide Run.Valid, Sized, Walk, Region, RunsOk, RunsExcept, RunFoot, Lists;
      ActiveOwned(e);
      RunsAllBut(members, feet, regSize, regMaskSizeBits, table, e);
      e.item.Counters();
      Apart(e, p);
      ptr := e.item.Allocate();
      i := e.item.currentIdx;
      e.item.NotFreeable(i);
      RunsBack(members, feet, regSize, regMaskSizeBits, table, e);
      table := table[e.key := RunView(e.addr, e.item.bitmap.items)];
    }

    lemma Apart(e: Entry<Run>, p: nat)
      requires Listed() && p < |active.entries| && e == active.entries[p]
      ensures forall f :: (f in active.entries || f in inactive.entries) && f != e ==> f.item !in RunFoot(e.item)
      ensures forall k :: 0 <= k < |active.entries| && k != p ==> active.entries[k].item !in RunFoot(e.item)
    {
      hide Run.Valid;
      forall k | 0 <= k < |active.entries| && k != p
        ensures active.entries[k].item !in RunFoot(e.item)
      {
        assert active.entries[k].key != active.entries[p].key;
        assert active.entries[k] in active.entries;
      }
    }

    lemma ActiveOwned(e: Entry<Run>)
      requires Owned() && Listed() && e in active.entries
      ensures e in members && RunFoot(e.item) <= feet && Lists()
      ensures forall f :: f in active.entries || f in inactive.entries ==> f in Repr && f !in feet
      ensures {e.item, e.item.bitmap} <= RunFoot(e.item) && e.item.bitmap.mem in RunFoot(e.item)
    {
      hide Run.Valid;
    }

    /** As Counted, for all runs but that of `e`, and without the sum. */
    ghost predicate OthersCounted(act: seq<Entry<Run>>, inact: seq<Entry<Run>>, e: Entry<Run>)
      reads set f | f in act + inact && f != e :: f.item
    {
      && (forall f :: f in act && f != e ==> f.item.navail > 0)
      && (forall f :: f in inact && f != e ==> f.item.navail == 0 && f.item.nfreed < f.item.elems)
    }

    lemma OthersFrom(act: seq<Entry<Run>>, inact: seq<Entry<Run>>, e: Entry<Run>)
      requires forall f :: f in act ==> f.item.navail > 0
      requires forall f :: f in inact ==> f.item.navail == 0 && f.item.nfreed < f.item.elems
      ensures OthersCounted(act, inact, e)
    {
    }

    lemma KeptCounts(act: seq<Entry<Run>>, inact: seq<Entry<Run>>, e: Entry<Run>)
      requires OthersCounted(act, inact, e) && e.item.navail > 0 && e !in inact
      ensures forall f :: f in act ==> f.item.navail > 0
      ensures forall f :: f in inact ==> f.item.navail == 0 && f.item.nfreed < f.item.elems
    {
    }

    lemma RetiredCounts(act: seq<Entry<Run>>, inact: seq<Entry<Run>>, e: Entry<Run>, p: nat)
      requires OthersCounted(act, inact, e) && e.item.navail == 0 && e.item.nfreed < e.item.elems
      requires p < |act| && e !in act[..p] + act[p + 1..]
      ensures forall f :: f in act[..p] + act[p + 1..] ==> f.item.navail > 0
      ensures forall f :: f in [e] + inact ==> f.item.navail == 0 && f.item.nfreed < f.item.elems
    {
    }

    // ---- Releasing a region ---------------------------------------------------------------

    /** The run with a given address, wherever it is listed. */
    method GetRunByAddr(key: nat) returns (e: Entry?<Run>)
      requires Valid()
      ensures e == null <==> key !in table
      ensures e != null ==> e in members && e.key == key
    {
      hide RunsOk, RunFoot, Run.Valid, Sized;
      KeyListed(key);
      e := active.Find(key);
      if e == null {
        e := inactive.Find(key);
      }
    }

    lemma KeyListed(key: nat)
      requires Listed()
      ensures key in table <==> active.HasKey(key) || inactive.HasKey(key)
    {
      hide Run.Valid;
      if key in table {
        var e :| e in members && e.key == key;
      } else {
        KeyMissing(key);
      }
    }

    lemma LastReleased(items: seq<TwoBit>, n: nat, i: nat)
      requires n <= |items| && i < |items|
      ensures var after := items[i := STATE_ALLOC_FREE];
              (forall k :: 0 <= k < n ==> after[k] == STATE_ALLOC_FREE) <==> AllReleased(items, n, i)
    {
      var after := items[i := STATE_ALLOC_FREE];
      assert forall k :: 0 <= k < n && k != i ==> after[k] == items[k];
    }

    /** Tells whether a region in use starts at `ptr`. */
    method ValidateRegion(e: Entry<Run>, ptr: nat) returns (ok: bool)
      requires Valid() && e in members && e.key <= ptr && regSize > 0
               && ReadsInside(ptr - e.key, regSize, regMaskSizeBits / 2)
      ensures ok <==> exists i: nat :: Held(table, regSize, regMaskSizeBits / 2, e.key, ptr, i)
    {
      hide RunsOk, RunFoot, Sized, Run.Valid, Lists, Busy;
      MemberOwned(e);
      assert e.item.key == e.key && e.item.regSize == regSize && e.item.elems == regMaskSizeBits / 2;
      e.item.Counters();
      var r := e.item.ValidatePtr(ptr);
      ok := r.Some?;
      if ok {
        assert Held(table, regSize, regMaskSizeBits / 2, e.key, ptr, r.value);
      }
    }

    /** Releases a region; if it was the last one of its run, the run leaves the bin. */
    method ReleaseRegion(e: Entry<Run>, ptr: nat) returns (ok: bool, freeable: bool, ghost i: nat)
      requires Valid() && e in members && e.key <= ptr && regSize > 0
               && ReadsInside(ptr - e.key, regSize, regMaskSizeBits / 2)
      modifies Repr
      ensures Valid() && Repr == old(Repr) && regSize == old(regSize) && availRegs == old(availRegs)
      ensures e.key == old(e.key)
      ensures regMaskSizeBits == old(regMaskSizeBits)
              && members == if freeable then old(members) - {e} else old(members)
      ensures ok <==> exists i: nat :: Held(old(table), regSize, regMaskSizeBits / 2, e.key, ptr, i)
      ensures !ok ==> table == old(table) && !freeable
      ensures ok ==> Held(old(table), regSize, regMaskSizeBits / 2, e.key, ptr, i) && i < |old(table)[e.key].items|
      ensures ok ==> (freeable <==> AllReleased(old(table)[e.key].items, regMaskSizeBits / 2, i))
      ensures ok && freeable ==> table == old(table) - {e.key}
      ensures ok && !freeable ==>
                var v := old(table)[e.key];
                table == old(table)[e.key := v.(items := v.items[i := STATE_ALLOC_FREE])]
    {
      hide AllReleased, RunsOk, RunFoot, Sized, Run.Valid, Lists, Busy, Sum, OthersCounted;
      MemberOwned(e);
      OthersFrom(active.entries, inactive.entries, e);
      ok, i := FreeRegion(e, ptr);
      freeable := false;
      if ok && e.item.IsFreeable() {
        MemberOwned(e);
        ghost var inact := inactive.entries;
        DeleteRun(e);
        DeletedCounts(active.entries, inact, inactive.entries, e);
        freeable := true;
      } else {
        SplitCounts(active.entries, inactive.entries, e);
      }
    }

    /** Releases a region of a run; the lists are adjusted elsewhere. */
    method FreeRegion(e: Entry<Run>, ptr: nat) returns (ok: bool, ghost i: nat)
      requires Owned() && Listed() && e in members && OthersCounted(active.entries, inactive.entries, e)
      requires e.key <= ptr && regSize > 0 && ReadsInside(ptr - e.key, regSize, regMaskSizeBits / 2)
      modifies RunFoot(e.item), this`table
      ensures Owned() && Listed() && OthersCounted(active.entries, inactive.entries, e)
      ensures Navails(active.entries) == old(Navails(active.entries)) && e.item.navail == old(e.item.navail)
      ensures ok <==> exists i: nat :: Held(old(table), regSize, regMaskSizeBits / 2, e.key, ptr, i)
      ensures !ok ==> table == old(table) && e.item.nfreed == old(e.item.nfreed)
      ensures ok ==> Held(old(table), regSize, regMaskSizeBits / 2, e.key, ptr, i) && i < |old(table)[e.key].items|
      ensures ok ==>
                var v := old(table)[e.key];
                table == old(table)[e.key := v.(items := v.items[i := STATE_ALLOC_FREE])]
      ensures ok ==> (e.item.IsFreeable() <==> AllReleased(old(table)[e.key].items, regMaskSizeBits / 2, i))
      ensures ok && e.item.IsFreeable() ==> e.item.navail == 0
      ensures e.item.nfreed <= e.item.elems
    {
      hide Run.Valid, Sized, RunsOk, RunsExcept, RunFoot, Lists, Busy, AllReleased;
      MemberOwned(e);
      assert e.item.key == e.key && e.item.regSize == regSize && e.item.elems == regMaskSizeBits / 2;
      e.item.Counters();
      RunsAllBut(members, feet, regSize, regMaskSizeBits, table, e);
      MembersApart(e);
      i := 0;
      ghost var items := e.item.bitmap.items;
      ok := e.item.Deallocate(ptr);
      RunsBack(members, feet, regSize, regMaskSizeBits, table, e);
      e.item.Counters();
      if ok {
        i :| Busy(items, e.key, regSize, e.item.elems, ptr, i) && i < |items|
             && e.item.bitmap.items == items[i := STATE_ALLOC_FREE];
        assert Held(table, regSize, regMaskSizeBits / 2, e.key, ptr, i);
        e.item.StatusMeaning();
        LastReleased(items, e.item.elems, i);
      }
      table := table[e.key := RunView(e.addr, e.item.bitmap.items)];
    }

    lemma MembersApart(e: Entry<Run>)
      requires Listed() && e in members
      ensures forall f :: (f in active.entries || f in inactive.entries) && f != e ==> f.item !in RunFoot(e.item)
    {
      hide Run.Valid;
    }

    lemma MemberOwned(e: Entry<Run>)
      requires Owned() && Listed() && e in members
      ensures RunFoot(e.item) <= feet && Lists() && e in active.entries + inactive.entries
      ensures forall f :: f in active.entries || f in inactive.entries ==> f in Repr && f !in feet
      ensures {e.item, e.item.bitmap} <= RunFoot(e.item) && e.item.bitmap.mem in RunFoot(e.item)
      ensures RunOk(e, regSize, regMaskSizeBits, table)
    {
      hide Run.Valid;
    }

    lemma DeletedCounts(act: seq<Entry<Run>>, inact: seq<Entry<Run>>, rest: seq<Entry<Run>>, e: Entry<Run>)
      requires OthersCounted(act, inact, e) && e !in act && e !in rest && forall f :: f in rest ==> f in inact
      ensures forall f :: f in act ==> f.item.navail > 0
      ensures forall f :: f in rest ==> f.item.navail == 0 && f.item.nfreed < f.item.elems
    {
    }

    lemma SplitCounts(act: seq<Entry<Run>>, inact: seq<Entry<Run>>, e: Entry<Run>)
      requires OthersCounted(act, inact, e)
      requires (e in act ==> e.item.navail > 0) && (e in inact ==> e.item.navail == 0 && e.item.nfreed < e.item.elems)
      ensures forall f :: f in act ==> f.item.navail > 0
      ensures forall f :: f in inact ==> f.item.navail == 0 && f.item.nfreed < f.item.elems
    {
    }
  }
}
