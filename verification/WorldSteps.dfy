/** Every step of the allocator keeps what holds for the whole. */
module WorldSteps {
  import opened TreeIndex
  import opened Utils
  import opened PackedStates
  import opened ChunkSpec
  import opened ChunkTree
  import opened ChunkTheorems
  import opened ChunkPools
  import opened SizeClass
  import opened Runs
  import opened Bins
  import opened BinTables
  import opened HugePools
  import opened MetaPools
  import opened AddressSpaces
  import opened World

  /** The set of mapped addresses after a mapping, and after an unmapping. */
  ghost predicate MapsTo(before: set<nat>, after: set<nat>, ptr: nat, len: nat) {
    && ptr > 0 && ptr % PAGE_SIZE == 0
    && (forall a: nat :: In(a, ptr, len) ==> a !in before)
    && (forall a :: a in after <==> a in before || In(a, ptr, len))
  }

  ghost predicate UnmapsTo(before: set<nat>, after: set<nat>, ptr: nat, len: nat) {
    forall a :: a in after <==> a in before && !In(a, ptr, len)
  }

  lemma MappedKeys(before: map<nat, bv8>, after: map<nat, bv8>, ptr: nat, len: nat)
    ensures Mapped(before, after, ptr, len) ==> MapsTo(before.Keys, after.Keys, ptr, len)
    ensures Unmapped(before, after, ptr, len) ==> UnmapsTo(before.Keys, after.Keys, ptr, len)
  {
  }

  /** Run `base` of bin `i` is, or becomes, `v`. */
  ghost function SetRun(runs: seq<RunTable>, i: nat, base: nat, v: RunView): seq<RunTable>
    requires i < |runs|
  {
    var t: RunTable := runs[i][base := v];
    runs[i := t]
  }

  // ---- New metadata arena -----------------------------------------------------------------

  lemma GrowArenas(w: State, base: nat, mapped: set<nat>)
    requires WorldOk(w) && base !in w.arenas && MapsTo(w.mapped, mapped, base, META_MAP)
    ensures WorldOk(w.(arenas := w.arenas + {base}, mapped := mapped))
  {
    hide RunsMatch, RecordsOk, LiveIs, ChunksFine, ChunkOwns, MemoryOk;
    MemoryAdd(w.chunks, w.huges, w.arenas, w.mapped, w.chunks, w.huges, w.arenas + {base}, mapped, MetaMemory(base),
              base, META_MAP);
  }

  // ---- New chunk --------------------------------------------------------------------------

  lemma NewChunk(w: State, key: nat, addr: int, len: nat, mapped: set<nat>)
    requires WorldOk(w) && key !in w.chunks && addr !in w.blocks && SmallestBlock(CHUNK_RECORD, len)
             && MapsTo(w.mapped, mapped, key, CHUNK_SIZE)
    ensures WorldOk(w.(chunks := w.chunks[key := ChunkView(addr, [], {})], blocks := w.blocks[addr := len],
                       mapped := mapped))
  {
    hide RunsMatch, RecordsOk, LiveIs, MemoryOk, Covered, Has;
    var v := ChunkView(addr, [], {});
    var chunks := w.chunks[key := v];
    FreshChunkFine(v);
    forall q, a
      ensures Owns(chunks, w.huges, w.arenas, q, a) <==>
              Owns(w.chunks, w.huges, w.arenas, q, a) || (q == ChunkMemory(key) && In(a, key, CHUNK_SIZE))
    {
    }
    MemoryAdd(w.chunks, w.huges, w.arenas, w.mapped, chunks, w.huges, w.arenas, mapped, ChunkMemory(key), key,
              CHUNK_SIZE);
    ChunkAddRuns(w.chunks, chunks, w.runs, key);
    ChunkAddRecord(w.chunks, chunks, w.runs, w.huges, key, addr);
    RecordAdd(w.chunks, w.runs, w.huges, w.blocks, chunks, w.runs, w.huges, ChunkRecord(key), addr, len);
  }

  lemma FreshChunkFine(v: ChunkView)
    requires v.handed == [] && v.released == {}
    ensures HandedOk(CHUNK_DEPTH, v.handed) && v.released <= Nodes(v.handed) && !Covered(v.released, 1, CHUNK_DEPTH)
  {
    if Covered({}, 1, CHUNK_DEPTH) {
      CoveredHasBelow({}, 1, CHUNK_DEPTH);
    }
  }

  lemma ChunkAddRecord(chunks: ChunkTable, chunks': ChunkTable, runs: seq<RunTable>, huges: HugeTable, key: nat,
                       addr: int)
    requires key !in chunks && chunks' == chunks[key := ChunkView(addr, [], {})]
    ensures forall s, q :: Has(chunks', runs, huges, s, q) <==>
              Has(chunks, runs, huges, s, q) || (s == ChunkRecord(key) && q == addr)
  {
  }

  lemma ChunkAddRuns(chunks: ChunkTable, chunks': ChunkTable, runs: seq<RunTable>, key: nat)
    requires RunsMatch(chunks, runs) && key !in chunks && key in chunks' && chunks'[key].handed == []
    requires chunks' == chunks[key := chunks'[key]]
    ensures RunsMatch(chunks', runs)
  {
    RunsCarried(chunks, runs, chunks', runs);
  }

  /** Runs that are found as before stay accounted for. */
  lemma RunsCarried(chunks: ChunkTable, runs: seq<RunTable>, chunks': ChunkTable, runs': seq<RunTable>)
    requires RunsMatch(chunks, runs) && |runs'| == |runs|
    requires forall key, k, i, base :: RunIn(chunks, runs, key, k, i, base) ==> RunIn(chunks', runs', key, k, i, base)
    requires forall key, k: nat :: key in chunks' && LiveIn(chunks'[key], k) ==> key in chunks && LiveIn(chunks[key], k)
    requires forall i: nat, base :: i < ARENA_NO_BINS && base in runs'[i] ==> base in runs[i]
    ensures RunsMatch(chunks', runs')
  {
    hide RunIn;
    forall key, k: nat | key in chunks' && LiveIn(chunks'[key], k)
      ensures HasBin(chunks', runs', key, k)
    {
      assert HasBin(chunks, runs, key, k);
    }
    forall i: nat, base | i < ARENA_NO_BINS && base in runs'[i]
      ensures HasChunk(chunks', runs', i, base)
    {
      assert HasChunk(chunks, runs, i, base);
    }
  }

  // ---- New run ----------------------------------------------------------------------------

  /** A node that is available shares no byte with a run in use. */
  lemma RoomIsFree(w: State, key: nat, x: nat, bytes: nat, a: nat, key': nat, k: nat, i: nat, base: nat)
    requires WorldOk(w) && key in w.chunks && Room(w.chunks[key], bytes, x) && InRun(key, x, a)
    requires RunIn(w.chunks, w.runs, key', k, i, base)
    ensures !In(a, base, RunBytes(i))
  {
    hide RunsMatch, RecordsOk, LiveIs, RunBase, RunSize, Pow2, Covered, Under, RunBytes;
    var y := w.chunks[key'].handed[k].node;
    assert y in Nodes(w.chunks[key'].handed);
    if In(a, base, RunBytes(i)) {
      RunOwned(w.chunks, w.runs, w.huges, w.arenas, key', k, i, base, a);
      RoomOwned(w, key, x, bytes, a);
      assert ChunkMemory(key) == ChunkMemory(key');
      RunsRelated(key, x, y, a);
    }
  }

  lemma RoomOwned(w: State, key: nat, x: nat, bytes: nat, a: nat)
    requires ChunksFine(w.chunks) && key in w.chunks && Room(w.chunks[key], bytes, x) && InRun(key, x, a)
    ensures Owns(w.chunks, w.huges, w.arenas, ChunkMemory(key), a)
  {
    hide RunBase, RunSize, Pow2, Covered, Under;
    InsideChunk(key, x);
    forall y | y in w.chunks[key].released
      ensures !InRun(key, y, a)
    {
      assert y in Nodes(w.chunks[key].handed);
      if InRun(key, y, a) {
        RunsRelated(key, x, y, a);
      }
    }
  }

  lemma NodeStart(key: nat, x: nat)
    requires 2 <= x < Pow2(CHUNK_DEPTH + 1)
    ensures InTree(CHUNK_DEPTH, x) && RunBase(key, CHUNK_DEPTH, x) >= 0 && InRun(key, x, RunBase(key, CHUNK_DEPTH, x))
  {
    InsideChunk(key, x);
  }

  /** No bin has a run yet where a new one is handed out. */
  lemma FreshBase(w: State, key: nat, x: nat, bytes: nat, i: nat, base: nat)
    requires WorldOk(w) && key in w.chunks && i < ARENA_NO_BINS && Room(w.chunks[key], bytes, x)
             && base == RunBase(key, CHUNK_DEPTH, x)
    ensures base !in w.runs[i]
  {
    hide RecordsOk, LiveIs, RunBase, RunSize, Pow2, Covered, Under, ChunksFine, MemoryOk;
    if base in w.runs[i] {
      assert HasChunk(w.chunks, w.runs, i, base);
      var key', k :| RunIn(w.chunks, w.runs, key', k, i, base);
      NodeStart(key, x);
      RoomIsFree(w, key, x, bytes, base, key', k, i, base);
      BytesPositive(i);
    }
  }

  lemma BytesPositive(i: nat)
    requires i < ARENA_NO_BINS
    ensures RunBytes(i) >= LEAF_SIZE && RunSizeOk(RunBytes(i))
  {
    var size := SizeOfBin(i);
    assert IsClass(size);
    ElemsBounds(size);
    ClassUnits(size);
    assert Pow2(0) == 1;
    if IsLarge(size) {
      assert RunBytes(i) == LEAF_SIZE * Pow2(Level(size / LARGE_SIZE_MIN_REGION));
    } else {
      assert RunBytes(i) == LEAF_SIZE * Pow2(0);
    }
  }

  lemma NewRun(w: State, key: nat, x: nat, i: nat, base: nat, addr: int, len: nat, items: seq<TwoBit>)
    returns (w': State)
    requires WorldOk(w) && key in w.chunks && i < ARENA_NO_BINS && Room(w.chunks[key], RunBytes(i), x)
    requires SmallestBlock(RecordSize(RunRecord(i, base)), len)
    requires base == RunBase(key, CHUNK_DEPTH, x) && addr !in w.blocks && forall k :: 0 <= k < |items| ==>
               items[k] == STATE_FREE
    ensures w' == w.(chunks := w.chunks[key := HandedOut(w.chunks[key], x, SizeOfBin(i))],
                     runs := SetRun(w.runs, i, base, RunView(addr, items)), blocks := w.blocks[addr := len])
    ensures WorldOk(w')
  {
    hide RunBase, RunSize, Pow2, Covered, Under, RunBytes, SizeOfBin;
    FreshBase(w, key, x, RunBytes(i), i, base);
    var chunks := w.chunks[key := HandedOut(w.chunks[key], x, SizeOfBin(i))];
    var runs := SetRun(w.runs, i, base, RunView(addr, items));
    w' := w.(chunks := chunks, runs := runs, blocks := w.blocks[addr := len]);
    NewRunFine(w.chunks, chunks, key, x, i);
    NewRunMemory(w, chunks, key, x, i);
    NewRunRuns(w.chunks, w.runs, chunks, runs, key, x, i, base);
    RecordAdd(w.chunks, w.runs, w.huges, w.blocks, chunks, runs, w.huges, RunRecord(i, base), addr, len);
    NewRunLive(w, runs, i, base, addr, items);
  }

  lemma NewRunFine(chunks: ChunkTable, chunks': ChunkTable, key: nat, x: nat, i: nat)
    requires ChunksFine(chunks) && key in chunks && InTree(CHUNK_DEPTH, x) && Available(Nodes(chunks[key].handed), x)
    requires chunks' == chunks[key := HandedOut(chunks[key], x, SizeOfBin(i))]
    ensures ChunksFine(chunks')
  {
    hide Covered, Under, Pow2;
    var v, h := chunks[key], Handed(x, SizeOfBin(i));
    HandOut(CHUNK_DEPTH, v.handed, h);
    NodesAdd(v.handed, h);
  }

  lemma NewRunMemory(w: State, chunks: ChunkTable, key: nat, x: nat, i: nat)
    requires MemoryOk(w.chunks, w.huges, w.arenas, w.mapped) && key in w.chunks
    requires chunks == w.chunks[key := HandedOut(w.chunks[key], x, SizeOfBin(i))]
    ensures MemoryOk(chunks, w.huges, w.arenas, w.mapped)
  {
    SameOwners(w.chunks, chunks, w.huges, w.arenas, w.mapped);
  }

  /** Who owns what depends only on what has been released. */
  lemma SameOwners(chunks: ChunkTable, chunks': ChunkTable, huges: HugeTable, arenas: set<nat>, mapped: set<nat>)
    requires MemoryOk(chunks, huges, arenas, mapped) && chunks.Keys == chunks'.Keys
    requires forall key :: key in chunks ==> chunks'[key].released == chunks[key].released
    ensures MemoryOk(chunks', huges, arenas, mapped)
  {
    hide InRun;
    forall o, a
      ensures Owns(chunks', huges, arenas, o, a) <==> Owns(chunks, huges, arenas, o, a)
    {
    }
    forall a | a in mapped
      ensures exists o :: Owns(chunks', huges, arenas, o, a)
    {
      var o :| Owns(chunks, huges, arenas, o, a);
      assert Owns(chunks', huges, arenas, o, a);
    }
  }

  lemma NewRunRuns(chunks: ChunkTable, runs: seq<RunTable>, chunks': ChunkTable, runs': seq<RunTable>, key: nat,
                   x: nat, i: nat, base: nat)
    requires RunsMatch(chunks, runs) && key in chunks && i < ARENA_NO_BINS && Room(chunks[key], RunBytes(i), x)
             && base !in runs[i]
    requires base == RunBase(key, CHUNK_DEPTH, x) && chunks[key].released <= Nodes(chunks[key].handed)
    requires chunks' == chunks[key := HandedOut(chunks[key], x, SizeOfBin(i))]
    requires |runs'| == |runs| && base in runs'[i] && runs' == SetRun(runs, i, base, runs'[i][base])
    ensures RunsMatch(chunks', runs')
  {
    hide RunBase, RunSize, Pow2, Under, RunBytes, SizeOfBin;
    var n := |chunks[key].handed|;
    assert x !in Nodes(chunks[key].handed) by {
      NotSelf(chunks[key], x);
    }
    assert RunIn(chunks', runs', key, n, i, base);
    forall key', k: nat | key' in chunks' && LiveIn(chunks'[key'], k)
      ensures HasBin(chunks', runs', key', k)
    {
      if key' != key || k < n {
        assert HasBin(chunks, runs, key', k);
        var j, b :| RunIn(chunks, runs, key', k, j, b);
        assert RunIn(chunks', runs', key', k, j, b);
      }
    }
    forall j: nat, b | j < ARENA_NO_BINS && b in runs'[j]
      ensures HasChunk(chunks', runs', j, b)
    {
      if j != i || b != base {
        assert HasChunk(chunks, runs, j, b);
        var key', k :| RunIn(chunks, runs, key', k, j, b);
        assert RunIn(chunks', runs', key', k, j, b);
      }
    }
  }

  lemma NotSelf(v: ChunkView, x: nat)
    requires Available(Nodes(v.handed), x)
    ensures x !in Nodes(v.handed)
  {
    assert Under(x, x);
  }

  lemma NewRunLive(w: State, runs: seq<RunTable>, i: nat, base: nat, addr: int, items: seq<TwoBit>)
    requires LiveIs(w.runs, w.huges, w.live) && i < |w.runs| && base !in w.runs[i]
    requires runs == SetRun(w.runs, i, base, RunView(addr, items)) && forall k :: 0 <= k < |items| ==>
               items[k] == STATE_FREE
    ensures LiveIs(runs, w.huges, w.live)
  {
    hide SizeOfBin, RunElems;
    forall pl, p, n
      ensures At(runs, w.huges, pl, p, n) <==> At(w.runs, w.huges, pl, p, n)
    {
    }
    SameLive(w.runs, w.huges, runs, w.huges, w.live);
  }

  lemma SameLive(runs: seq<RunTable>, huges: HugeTable, runs': seq<RunTable>, huges': HugeTable, live: map<nat, nat>)
    requires LiveIs(runs, huges, live)
    requires forall pl, p, n :: At(runs', huges', pl, p, n) <==> At(runs, huges, pl, p, n)
    ensures LiveIs(runs', huges', live)
  {
    hide At;
    forall p | p in live
      ensures exists pl :: At(runs', huges', pl, p, live[p])
    {
      var pl :| At(runs, huges, pl, p, live[p]);
      assert At(runs', huges', pl, p, live[p]);
    }
  }

  // ---- Regions ----------------------------------------------------------------------------

  /** The state of one region of a run becomes `t`. */
  ghost function SetSlot(runs: seq<RunTable>, i: nat, base: nat, s: nat, t: TwoBit): seq<RunTable>
    requires i < |runs| && base in runs[i] && s < |runs[i][base].items|
  {
    SetRun(runs, i, base, runs[i][base].(items := runs[i][base].items[s := t]))
  }

  /** Changing the state of a region changes neither the runs nor the records. */
  lemma SetSlotKeeps(w: State, i: nat, base: nat, s: nat, t: TwoBit)
    requires RunsMatch(w.chunks, w.runs) && RecordsOk(w.chunks, w.runs, w.huges, w.blocks)
    requires i < |w.runs| && base in w.runs[i] && s < |w.runs[i][base].items|
    ensures RunsMatch(w.chunks, SetSlot(w.runs, i, base, s, t))
    ensures RecordsOk(w.chunks, SetSlot(w.runs, i, base, s, t), w.huges, w.blocks)
  {
    hide RunBytes, SizeOfBin, RunBase, RunSize;
    var runs := SetSlot(w.runs, i, base, s, t);
    RunsCarried(w.chunks, w.runs, w.chunks, runs);
    forall r, p
      ensures Has(w.chunks, runs, w.huges, r, p) <==> Has(w.chunks, w.runs, w.huges, r, p)
    {
    }
    forall p | p in w.blocks
      ensures exists r :: Has(w.chunks, runs, w.huges, r, p)
    {
      var r :| Has(w.chunks, w.runs, w.huges, r, p);
      assert Has(w.chunks, runs, w.huges, r, p);
    }
  }

  /** A region that is not in use lies in no place in use. */
  lemma FreeSlotNotLive(w: State, i: nat, base: nat, s: nat, p: nat)
    requires WorldOk(w) && i < ARENA_NO_BINS && base in w.runs[i] && s < BinElems(i) && s < |w.runs[i][base].items|
    requires w.runs[i][base].items[s] != STATE_ALLOC && p == Region(base, SizeOfBin(i), s)
    ensures p !in w.live
  {
    hide RecordsOk, RunBytes, RunIn, SizeOfBin, Owns, ChunksFine, Region;
    if p in w.live {
      var pl :| At(w.runs, w.huges, pl, p, w.live[p]);
      assert HasChunk(w.chunks, w.runs, i, base);
      var key, k :| RunIn(w.chunks, w.runs, key, k, i, base);
      SlotStart(base, i, s, p);
      RunOwned(w.chunks, w.runs, w.huges, w.arenas, key, k, i, base, p);
      LiveLength(w, pl, p, w.live[p]);
      var o := PlaceOwned(w, pl, p, w.live[p], p);
      if pl.Slot? {
        var k' :| RunIn(w.chunks, w.runs, o.key, k', pl.bin, pl.base);
        OneRun(w.chunks, w.runs, w.huges, w.arenas, w.mapped, p, key, k, i, base, o.key, k', pl.bin, pl.base);
        SameSlot(base, SizeOfBin(i), s, pl.s);
      }
    }
  }

  lemma LiveLength(w: State, pl: Place, p: nat, n: nat)
    requires WorldOk(w) && At(w.runs, w.huges, pl, p, n)
    ensures n >= 16 && In(p, p, n)
  {
    hide RunsMatch, RecordsOk, LiveIs, ChunksFine, MemoryOk;
    if pl.Slot? {
      SizeAtLeast16(pl.bin);
    }
  }

  lemma SlotStart(base: nat, i: nat, s: nat, p: nat)
    requires i < ARENA_NO_BINS && s < BinElems(i) && p == Region(base, SizeOfBin(i), s)
    ensures In(p, base, RunBytes(i))
  {
    hide SizeOfBin, RunElems, RunPages, Region;
    assert IsClass(SizeOfBin(i));
    ElemsBounds(SizeOfBin(i));
    SizeAtLeast16(i);
    SlotSpan(base, SizeOfBin(i), BinElems(i), RunBytes(i), s);
  }

  lemma SlotSpan(base: nat, size: nat, elems: nat, bytes: nat, s: nat)
    requires s < elems && elems * size <= bytes && size >= 1
    ensures In(Region(base, size, s), base, bytes)
  {
    SlotEnd(s, elems, size);
  }

  lemma SameSlot(base: nat, size: nat, s: nat, t: nat)
    requires size > 0 && Region(base, size, s) == Region(base, size, t)
    ensures s == t
  {
    if s < t {
      RegionsDisjoint(base, size, t + 1, s, t);
    } else if t < s {
      RegionsDisjoint(base, size, s + 1, t, s);
    }
  }

  /** Handing out a free region. */
  lemma TakeRegion(w: State, i: nat, base: nat, s: nat, p: nat) returns (w': State)
    requires WorldOk(w) && i < ARENA_NO_BINS && base in w.runs[i] && s < BinElems(i) && s < |w.runs[i][base].items|
    requires w.runs[i][base].items[s] == STATE_FREE && p == Region(base, SizeOfBin(i), s)
    ensures w' == w.(runs := SetSlot(w.runs, i, base, s, STATE_ALLOC), live := w.live[p := SizeOfBin(i)])
    ensures WorldOk(w') && p !in w.live
  {
    hide RunsMatch, RecordsOk, ChunksFine, MemoryOk, SizeOfBin, Region;
    BinsCount(w);
    var runs, live := SetSlot(w.runs, i, base, s, STATE_ALLOC), w.live[p := SizeOfBin(i)];
    w' := w.(runs := runs, live := live);
    FreeSlotNotLive(w, i, base, s, p);
    SetSlotKeeps(w, i, base, s, STATE_ALLOC);
    SetSlotAt(w.runs, w.huges, i, base, s, STATE_ALLOC);
    AddLive(w.runs, w.huges, runs, w.huges, w.live, Slot(i, base, s), p, SizeOfBin(i));
  }

  lemma BinsCount(w: State)
    requires WorldOk(w)
    ensures |w.runs| == ARENA_NO_BINS
  {
  }

  /** Only the place of the region itself is affected. */
  lemma SetSlotAt(runs: seq<RunTable>, huges: HugeTable, i: nat, base: nat, s: nat, t: TwoBit)
    requires i < |runs| && base in runs[i] && s < |runs[i][base].items|
    ensures forall pl, p, n :: pl != Slot(i, base, s) ==>
              (At(SetSlot(runs, i, base, s, t), huges, pl, p, n) <==> At(runs, huges, pl, p, n))
    ensures t != STATE_ALLOC ==> forall p, n :: !At(SetSlot(runs, i, base, s, t), huges, Slot(i, base, s), p, n)
  {
    hide SizeOfBin, RunElems, Region;
  }

  /** A place comes into use. */
  lemma AddLive(runs: seq<RunTable>, huges: HugeTable, runs': seq<RunTable>, huges': HugeTable, live: map<nat, nat>,
                pl: Place, p: nat, n: nat)
    requires LiveIs(runs, huges, live) && p !in live
    requires At(runs', huges', pl, p, n) && forall q, m :: At(runs', huges', pl, q, m) ==> q == p && m == n
    requires forall pl', q, m :: pl' != pl ==> (At(runs', huges', pl', q, m) <==> At(runs, huges, pl', q, m))
    requires forall q, m :: !At(runs, huges, pl, q, m)
    ensures LiveIs(runs', huges', live[p := n])
  {
    hide At;
    var live' := live[p := n];
    forall q | q in live'
      ensures exists pl' :: At(runs', huges', pl', q, live'[q])
    {
      if q == p {
        assert At(runs', huges', pl, p, n);
      } else {
        var pl' :| At(runs, huges, pl', q, live[q]);
        assert At(runs', huges', pl', q, live'[q]);
      }
    }
  }

  /** A place goes out of use. */
  lemma DropLive(runs: seq<RunTable>, huges: HugeTable, runs': seq<RunTable>, huges': HugeTable, live: map<nat, nat>,
                 pl: Place, p: nat, n: nat)
    requires LiveIs(runs, huges, live) && At(runs, huges, pl, p, n)
    requires forall pl', q, m :: At(runs', huges', pl', q, m) <==> At(runs, huges, pl', q, m) && pl' != pl
    requires forall pl', q, m :: At(runs, huges, pl', q, m) && q == p ==> pl' == pl
    requires forall q, m :: At(runs, huges, pl, q, m) ==> q == p
    ensures LiveIs(runs', huges', live - {p})
  {
    hide At;
    var live' := live - {p};
    forall q | q in live'
      ensures exists pl' :: At(runs', huges', pl', q, live'[q])
    {
      var pl' :| At(runs, huges, pl', q, live[q]);
      assert At(runs', huges', pl', q, live'[q]);
    }
  }

  /** A pointer in use belongs to one place. */
  lemma PlaceUnique(w: State, pl: Place, p: nat, n: nat)
    requires WorldOk(w) && At(w.runs, w.huges, pl, p, n)
    ensures forall pl', q, m :: At(w.runs, w.huges, pl', q, m) && q == p ==> pl' == pl && m == n
    ensures forall q, m :: At(w.runs, w.huges, pl, q, m) ==> q == p && m == n
    ensures p in w.live && w.live[p] == n
  {
    LiveLength(w, pl, p, n);
    forall pl', q, m | At(w.runs, w.huges, pl', q, m) && q == p
      ensures pl' == pl && m == n
    {
      LiveLength(w, pl', q, m);
      PlacesDisjoint(w, pl, p, n, pl', q, m, p);
    }
  }

  /** Freeing a region of a run that keeps other regions, or free ones. */
  lemma FreeRegion(w: State, i: nat, base: nat, s: nat, p: nat) returns (w': State)
    requires WorldOk(w) && At(w.runs, w.huges, Slot(i, base, s), p, SizeOfBin(i)) && s < |w.runs[i][base].items|
    ensures w' == w.(runs := SetSlot(w.runs, i, base, s, STATE_ALLOC_FREE), live := w.live - {p})
    ensures WorldOk(w') && p in w.live
  {
    hide RunsMatch, RecordsOk, ChunksFine, MemoryOk, SizeOfBin, Region;
    var runs := SetSlot(w.runs, i, base, s, STATE_ALLOC_FREE);
    w' := w.(runs := runs, live := w.live - {p});
    PlaceUnique(w, Slot(i, base, s), p, SizeOfBin(i));
    SetSlotKeeps(w, i, base, s, STATE_ALLOC_FREE);
    SetSlotAt(w.runs, w.huges, i, base, s, STATE_ALLOC_FREE);
    DropLive(w.runs, w.huges, runs, w.huges, w.live, Slot(i, base, s), p, SizeOfBin(i));
  }

  // ---- Releasing a run --------------------------------------------------------------------

  ghost function DropRun(runs: seq<RunTable>, i: nat, base: nat): seq<RunTable>
    requires i < |runs|
  {
    var t: RunTable := runs[i] - {base};
    runs[i := t]
  }

  /** The chunks after run `k` of the chunk at `key` has been released. */
  ghost function DropFrom(chunks: ChunkTable, key: nat, k: nat): ChunkTable
    requires key in chunks && k < |chunks[key].handed|
  {
    if Covered(WithReleased(chunks[key], k).released, 1, CHUNK_DEPTH) then chunks - {key}
      else chunks[key := WithReleased(chunks[key], k)]
  }

  /** The metadata blocks after the records of a run, and possibly of its chunk, have been freed. */
  ghost function DropBlocks(w: State, key: nat, k: nat, i: nat, base: nat): map<int, nat>
    requires key in w.chunks && k < |w.chunks[key].handed| && i < |w.runs| && base in w.runs[i]
  {
    var rest := w.blocks - {w.runs[i][base].addr};
    if Covered(WithReleased(w.chunks[key], k).released, 1, CHUNK_DEPTH) then rest - {w.chunks[key].addr} else rest
  }

  lemma ReleaseRun(w: State, i: nat, base: nat, s: nat, p: nat, key: nat, k: nat, mapped: set<nat>) returns (w': State)
    requires WorldOk(w) && At(w.runs, w.huges, Slot(i, base, s), p, SizeOfBin(i))
             && RunIn(w.chunks, w.runs, key, k, i, base)
    requires AllReleased(w.runs[i][base].items, BinElems(i), s) && UnmapsTo(w.mapped, mapped, base, RunBytes(i))
    ensures w' == w.(chunks := DropFrom(w.chunks, key, k), runs := DropRun(w.runs, i, base),
                     blocks := DropBlocks(w, key, k, i, base),
                     mapped := mapped, live := w.live - {p})
    ensures WorldOk(w') && p in w.live
  {
    hide RunBytes, SizeOfBin, Covered, RunBase, RunSize, Region, Under, RunElems;
    var chunks, runs := DropFrom(w.chunks, key, k), DropRun(w.runs, i, base);
    w' := w.(chunks := chunks, runs := runs, blocks := DropBlocks(w, key, k, i, base), mapped := mapped,
             live := w.live - {p});
    DropFine(w.chunks, key, k);
    DropMemory(w, key, k, i, base, mapped);
    DropRuns(w, key, k, i, base);
    DropRecords(w, key, k, i, base);
    DropRunLive(w, i, base, s, p);
  }

  lemma DropFine(chunks: ChunkTable, key: nat, k: nat)
    requires ChunksFine(chunks) && key in chunks && k < |chunks[key].handed|
    ensures ChunksFine(DropFrom(chunks, key, k))
  {
    hide Covered, HandedOk;
    assert chunks[key].handed[k].node in Nodes(chunks[key].handed);
  }

  lemma DropMemory(w: State, key: nat, k: nat, i: nat, base: nat, mapped: set<nat>)
    requires ChunksFine(w.chunks) && MemoryOk(w.chunks, w.huges, w.arenas, w.mapped)
             && RunIn(w.chunks, w.runs, key, k, i, base)
    requires UnmapsTo(w.mapped, mapped, base, RunBytes(i))
    ensures MemoryOk(DropFrom(w.chunks, key, k), w.huges, w.arenas, mapped)
  {
    hide Covered, HandedOk, RunBase, RunSize, RunBytes, Nodes;
    var chunks := DropFrom(w.chunks, key, k);
    var v' := WithReleased(w.chunks[key], k);
    forall q, a
      ensures Owns(chunks, w.huges, w.arenas, q, a) <==>
                Owns(w.chunks, w.huges, w.arenas, q, a) && !In(a, base, RunBytes(i))
    {
      if In(a, base, RunBytes(i)) {
        RunOwned(w.chunks, w.runs, w.huges, w.arenas, key, k, i, base, a);
        assert q != ChunkMemory(key) ==> !Owns(w.chunks, w.huges, w.arenas, q, a);
      }
      if q == ChunkMemory(key) {
        ReleasedOwns(key, w.chunks[key], k, base, RunBytes(i), a);
        ReleasedFine(w.chunks[key], k);
        if Covered(v'.released, 1, CHUNK_DEPTH) {
          CoveredOwnsNothing(key, v', a);
        }
      }
    }
    MemoryRemove(w.chunks, w.huges, w.arenas, w.mapped, chunks, w.huges, w.arenas, mapped, base, RunBytes(i));
  }

  lemma ReleasedFine(v: ChunkView, k: nat)
    requires HandedOk(CHUNK_DEPTH, v.handed) && v.released <= Nodes(v.handed) && k < |v.handed|
    ensures WithReleased(v, k).released <= Nodes(v.handed) && WithReleased(v, k).handed == v.handed
  {
  }

  lemma ReleasedOwns(key: nat, v: ChunkView, k: nat, base: nat, len: nat, a: nat)
    requires LiveIn(v, k) && InTree(CHUNK_DEPTH, v.handed[k].node)
    requires base == RunBase(key, CHUNK_DEPTH, v.handed[k].node) && len == RunSize(CHUNK_DEPTH, v.handed[k].node)
    ensures ChunkOwns(key, WithReleased(v, k), a) <==> ChunkOwns(key, v, a) && !In(a, base, len)
  {
    hide RunBase, RunSize;
    assert InRun(key, v.handed[k].node, a) <==> In(a, base, len);
  }

  lemma DropRuns(w: State, key: nat, k: nat, i: nat, base: nat)
    requires WorldOk(w) && RunIn(w.chunks, w.runs, key, k, i, base)
    ensures RunsMatch(DropFrom(w.chunks, key, k), DropRun(w.runs, i, base))
  {
    hide Covered, HandedOk, RunBase, RunSize, RunBytes, Nodes, RecordsOk, LiveIs, MemoryOk, SizeOfBin;
    var chunks, runs := DropFrom(w.chunks, key, k), DropRun(w.runs, i, base);
    forall key', k': nat | key' in chunks && LiveIn(chunks[key'], k')
      ensures HasBin(chunks, runs, key', k')
    {
      assert key' == key ==> k' != k;
      assert HasBin(w.chunks, w.runs, key', k');
      var j, b :| RunIn(w.chunks, w.runs, key', k', j, b);
      DifferentRuns(w, key, k, i, base, key', k', j, b);
      assert RunIn(chunks, runs, key', k', j, b);
    }
    forall j: nat, b | j < ARENA_NO_BINS && b in runs[j]
      ensures HasChunk(chunks, runs, j, b)
    {
      assert HasChunk(w.chunks, w.runs, j, b);
      var key', k' :| RunIn(w.chunks, w.runs, key', k', j, b);
      assert key' != key || k' != k by {
        if key' == key && k' == k {
          BinsDistinct(i, j);
        }
      }
      StillLive(w, key, k, i, base, key', k', j, b);
      assert RunIn(chunks, runs, key', k', j, b);
    }
  }

  /** Two runs in use start at different addresses. */
  lemma DifferentRuns(w: State, key: nat, k: nat, i: nat, base: nat, key': nat, k': nat, j: nat, b: nat)
    requires WorldOk(w) && RunIn(w.chunks, w.runs, key, k, i, base) && RunIn(w.chunks, w.runs, key', k', j, b)
    requires key != key' || k != k'
    ensures b != base
  {
    hide RunBase, RunSize, RunBytes, Nodes, RecordsOk, LiveIs, SizeOfBin, HasBin, HasChunk, RunIn;
    BinsCount(w);
    RunIndex(w.chunks, w.runs, key, k, i, base);
    RunIndex(w.chunks, w.runs, key', k', j, b);
    BytesPositive(i);
    BytesPositive(j);
    if b == base {
      OneRun(w.chunks, w.runs, w.huges, w.arenas, w.mapped, base, key, k, i, base, key', k', j, b);
    }
  }

  lemma RunIndex(chunks: ChunkTable, runs: seq<RunTable>, key: nat, k: nat, i: nat, base: nat)
    requires RunIn(chunks, runs, key, k, i, base)
    ensures i < |runs| && base in runs[i] && key in chunks && LiveIn(chunks[key], k)
  {
  }

  /** The release of one run leaves every other run in use. */
  lemma StillLive(w: State, key: nat, k: nat, i: nat, base: nat, key': nat, k': nat, j: nat, b: nat)
    requires WorldOk(w) && RunIn(w.chunks, w.runs, key, k, i, base) && RunIn(w.chunks, w.runs, key', k', j, b)
    requires key != key' || k != k'
    ensures key' in DropFrom(w.chunks, key, k) && LiveIn(DropFrom(w.chunks, key, k)[key'], k')
    ensures DropFrom(w.chunks, key, k)[key'].handed == w.chunks[key'].handed
  {
    hide RunBase, RunSize, RunBytes, RecordsOk, LiveIs, SizeOfBin, HasBin, HasChunk, Covered, Under, InRun;
    if key' == key {
      var v, v' := w.chunks[key], WithReleased(w.chunks[key], k);
      ReleasedFine(v, k);
      OtherNode(v, k, k');
      BytesPositive(j);
      RunOwned(w.chunks, w.runs, w.huges, w.arenas, key, k', j, b, b);
      if In(b, base, RunBytes(i)) {
        OneRun(w.chunks, w.runs, w.huges, w.arenas, w.mapped, b, key, k, i, base, key', k', j, b);
      }
      ReleasedOwns(key, v, k, base, RunBytes(i), b);
      if Covered(v'.released, 1, CHUNK_DEPTH) {
        CoveredOwnsNothing(key, v', b);
      }
    }
  }

  lemma OtherNode(v: ChunkView, k: nat, k': nat)
    requires HandedOk(CHUNK_DEPTH, v.handed) && k < |v.handed| && k' < |v.handed| && k != k'
    ensures v.handed[k].node != v.handed[k'].node
  {
    assert Under(v.handed[k].node, v.handed[k].node);
  }

  lemma DropRecords(w: State, key: nat, k: nat, i: nat, base: nat)
    requires RecordsOk(w.chunks, w.runs, w.huges, w.blocks) && RunIn(w.chunks, w.runs, key, k, i, base)
    ensures RecordsOk(DropFrom(w.chunks, key, k), DropRun(w.runs, i, base), w.huges, DropBlocks(w, key, k, i, base))
  {
    hide RunBase, RunSize, RunBytes, SizeOfBin, Covered;
    var v', runs := WithReleased(w.chunks[key], k), DropRun(w.runs, i, base);
    var mid := w.chunks[key := v'];
    RecordRemove(w.chunks, w.runs, w.huges, w.blocks, mid, runs, w.huges, RunRecord(i, base), w.runs[i][base].addr);
    if Covered(v'.released, 1, CHUNK_DEPTH) {
      DropChunkRecord(mid, runs, w.huges, key);
      assert mid - {key} == w.chunks - {key};
      RecordRemove(mid, runs, w.huges, w.blocks - {w.runs[i][base].addr}, w.chunks - {key}, runs, w.huges,
                   ChunkRecord(key), v'.addr);
    }
  }

  lemma DropChunkRecord(chunks: ChunkTable, runs: seq<RunTable>, huges: HugeTable, key: nat)
    ensures forall r, p :: Has(chunks - {key}, runs, huges, r, p) <==>
              Has(chunks, runs, huges, r, p) && r != ChunkRecord(key)
  {
  }

  lemma DropRunLive(w: State, i: nat, base: nat, s: nat, p: nat)
    requires WorldOk(w) && At(w.runs, w.huges, Slot(i, base, s), p, SizeOfBin(i))
             && AllReleased(w.runs[i][base].items, BinElems(i), s)
    ensures LiveIs(DropRun(w.runs, i, base), w.huges, w.live - {p}) && p in w.live
  {
    hide SizeOfBin, RunElems, Region, RecordsOk, MemoryOk, ChunksFine, RunsMatch;
    PlaceUnique(w, Slot(i, base, s), p, SizeOfBin(i));
    var runs := DropRun(w.runs, i, base);
    forall pl', q, m
      ensures At(runs, w.huges, pl', q, m) <==> At(w.runs, w.huges, pl', q, m) && pl' != Slot(i, base, s)
    {
    }
    DropLive(w.runs, w.huges, runs, w.huges, w.live, Slot(i, base, s), p, SizeOfBin(i));
  }

  // ---- Huge mappings ----------------------------------------------------------------------

  ghost function PutHuge(huges: HugeTable, key: nat, addr: int, len: nat): HugeTable {
    huges[key := HugeView(addr, len)]
  }

  lemma NewHuge(w: State, key: nat, addr: int, blen: nat, len: nat, mapped: set<nat>) returns (w': State)
    requires WorldOk(w) && addr !in w.blocks && SmallestBlock(HUGE_RECORD, blen) && MapsTo(w.mapped, mapped, key, len)
    requires len > LARGE_SIZE_MAX_REGION && len % PAGE_SIZE == 0
    ensures w' == w.(huges := PutHuge(w.huges, key, addr, len), blocks := w.blocks[addr := blen], mapped := mapped,
                     live := w.live[key := len])
    ensures WorldOk(w') && key !in w.huges && key !in w.live
  {
    hide RunsMatch, ChunksFine, LiveIs, RecordsOk, MemoryOk, Owns;
    NotYetLive(w, key, len, mapped);
    var huges := PutHuge(w.huges, key, addr, len);
    w' := w.(huges := huges, blocks := w.blocks[addr := blen], mapped := mapped, live := w.live[key := len]);
    HugeOwner(w, huges, key, addr, len);
    MemoryAdd(w.chunks, w.huges, w.arenas, w.mapped, w.chunks, huges, w.arenas, mapped, HugeMemory(key), key, len);
    RecordAdd(w.chunks, w.runs, w.huges, w.blocks, w.chunks, w.runs, huges, HugeRecord(key), addr, blen);
    HugeAt(w.runs, w.huges, huges, key, addr, len);
    AddLive(w.runs, w.huges, w.runs, huges, w.live, Mapping(key), key, len);
  }

  /** Nothing in use starts at the address of a new mapping. */
  lemma NotYetLive(w: State, key: nat, len: nat, mapped: set<nat>)
    requires WorldOk(w) && MapsTo(w.mapped, mapped, key, len) && len > 0
    ensures key !in w.huges && key !in w.live
  {
    hide RunsMatch, ChunksFine, RecordsOk, MemoryOk;
    assert In(key, key, len);
    assert key in w.huges ==> At(w.runs, w.huges, Mapping(key), key, w.huges[key].len);
    if key in w.live {
      var pl :| At(w.runs, w.huges, pl, key, w.live[key]);
      LiveLength(w, pl, key, w.live[key]);
      var o := PlaceOwned(w, pl, key, w.live[key], key);
    }
  }

  lemma HugeOwner(w: State, huges: HugeTable, key: nat, addr: int, len: nat)
    requires key !in w.huges && huges == PutHuge(w.huges, key, addr, len)
    ensures forall q, a :: Owns(w.chunks, huges, w.arenas, q, a) <==>
              Owns(w.chunks, w.huges, w.arenas, q, a) || (q == HugeMemory(key) && In(a, key, len))
  {
    hide ChunkOwns;
  }

  lemma HugeAt(runs: seq<RunTable>, huges: HugeTable, huges': HugeTable, key: nat, addr: int, len: nat)
    requires key !in huges && huges' == PutHuge(huges, key, addr, len)
    ensures At(runs, huges', Mapping(key), key, len)
    ensures forall p, n :: At(runs, huges', Mapping(key), p, n) ==> p == key && n == len
    ensures forall p, n :: !At(runs, huges, Mapping(key), p, n)
    ensures forall pl, p, n :: pl != Mapping(key) ==> (At(runs, huges', pl, p, n) <==> At(runs, huges, pl, p, n))
  {
    hide Busy;
  }

  lemma DropHuge(w: State, key: nat, mapped: set<nat>) returns (w': State)
    requires WorldOk(w) && key in w.huges && UnmapsTo(w.mapped, mapped, key, w.huges[key].len)
    ensures w' == w.(huges := w.huges - {key}, blocks := w.blocks - {w.huges[key].addr}, mapped := mapped,
                     live := w.live - {key})
    ensures WorldOk(w') && key in w.live && w.live[key] == w.huges[key].len
    ensures w.huges[key].addr in w.blocks && SmallestBlock(HUGE_RECORD, w.blocks[w.huges[key].addr])
  {
    hide RunsMatch, ChunksFine, LiveIs, RecordsOk, MemoryOk, Owns, Has;
    var huges, len := w.huges - {key}, w.huges[key].len;
    w' := w.(huges := huges, blocks := w.blocks - {w.huges[key].addr}, mapped := mapped, live := w.live - {key});
    assert At(w.runs, w.huges, Mapping(key), key, len);
    PlaceUnique(w, Mapping(key), key, len);
    HugeOwnerGone(w, key);
    MemoryRemove(w.chunks, w.huges, w.arenas, w.mapped, w.chunks, huges, w.arenas, mapped, key, len);
    HugeRecordGone(w, key);
    RecordRemove(w.chunks, w.runs, w.huges, w.blocks, w.chunks, w.runs, huges, HugeRecord(key), w.huges[key].addr);
    HugeGone(w.runs, w.huges, key);
    DropLive(w.runs, w.huges, w.runs, huges, w.live, Mapping(key), key, len);
  }

  lemma HugeOwnerGone(w: State, key: nat)
    requires MemoryOk(w.chunks, w.huges, w.arenas, w.mapped) && key in w.huges
    ensures forall q, a :: Owns(w.chunks, w.huges - {key}, w.arenas, q, a) <==>
              Owns(w.chunks, w.huges, w.arenas, q, a) && !In(a, key, w.huges[key].len)
  {
    hide ChunkOwns;
    forall q, a
      ensures Owns(w.chunks, w.huges - {key}, w.arenas, q, a) <==>
              Owns(w.chunks, w.huges, w.arenas, q, a) && !In(a, key, w.huges[key].len)
    {
      assert Owns(w.chunks, w.huges, w.arenas, HugeMemory(key), a) <==> In(a, key, w.huges[key].len);
      if q != HugeMemory(key) {
        assert Owns(w.chunks, w.huges - {key}, w.arenas, q, a) <==> Owns(w.chunks, w.huges, w.arenas, q, a);
      }
    }
  }

  lemma HugeRecordGone(w: State, key: nat)
    requires RecordsOk(w.chunks, w.runs, w.huges, w.blocks) && key in w.huges
    ensures Has(w.chunks, w.runs, w.huges, HugeRecord(key), w.huges[key].addr)
    ensures w.huges[key].addr in w.blocks && SmallestBlock(HUGE_RECORD, w.blocks[w.huges[key].addr])
    ensures forall r, p :: Has(w.chunks, w.runs, w.huges - {key}, r, p) <==>
              Has(w.chunks, w.runs, w.huges, r, p) && r != HugeRecord(key)
  {
    assert Has(w.chunks, w.runs, w.huges, HugeRecord(key), w.huges[key].addr);
  }

  lemma HugeGone(runs: seq<RunTable>, huges: HugeTable, key: nat)
    ensures forall pl, p, n :: At(runs, huges - {key}, pl, p, n) <==> At(runs, huges, pl, p, n) && pl != Mapping(key)
  {
    hide Busy;
  }

  /** A huge region moves to a new mapping; its record stays where it is. */
  lemma MoveHuge(w: State, key: nat, key': nat, len: nat, mid: set<nat>, mapped: set<nat>) returns (w': State)
    requires WorldOk(w) && key in w.huges && MapsTo(w.mapped, mid, key', len)
             && UnmapsTo(mid, mapped, key, w.huges[key].len)
    requires len > LARGE_SIZE_MAX_REGION && len % PAGE_SIZE == 0
    ensures w' == w.(huges := PutHuge(w.huges - {key}, key', w.huges[key].addr, len), mapped := mapped,
                     live := (w.live - {key})[key' := len])
    ensures WorldOk(w') && key in w.live && w.live[key] == w.huges[key].len && key' !in w.huges && key' !in w.live
  {
    hide RunsMatch, ChunksFine, LiveIs, RecordsOk, MemoryOk, HugesFine;
    var addr, old_len := w.huges[key].addr, w.huges[key].len;
    var rest := set a | a in w.mapped && !In(a, key, old_len);
    var w1 := DropHuge(w, key, rest);
    NotYetLive(w, key', len, mid);
    OldIsMapped(w, key);
    w' := NewHuge(w1, key', addr, w.blocks[addr], len, mapped);
    assert (w.blocks - {addr})[addr := w.blocks[addr]] == w.blocks;
  }

  lemma OldIsMapped(w: State, key: nat)
    requires WorldOk(w) && key in w.huges
    ensures forall a: nat :: In(a, key, w.huges[key].len) ==> a in w.mapped
  {
    forall a: nat | In(a, key, w.huges[key].len)
      ensures a in w.mapped
    {
      assert Owns(w.chunks, w.huges, w.arenas, HugeMemory(key), a);
    }
  }
}
