/** The arena: all parts of the allocator together. */
module Arenas {
  import opened TreeIndex
  import opened Utils
  import opened PackedStates
  import opened ChunkSpec
  import opened ChunkTree
  import opened Chunks
  import opened ChunkPools
  import opened SizeClass
  import opened LinkedList
  import opened Runs
  import opened Bins
  import opened BinTables
  import opened HugePools
  import opened MetaPools
  import opened AddressSpaces
  import opened World
  import opened WorldSteps
  import opened OneTime
  import opened ArenaFacts

  class Arena {
    const space: AddressSpace
    const meta: MetaPool
    const chunks: ChunkPool
    const huges: HugePool
    const bins: BinTable
    ghost var live: map<nat, nat>

    ghost function Repr(): set<object>
      reads this, meta, chunks, huges, bins
    {
      {this, space} + meta.Repr + chunks.Repr + huges.Repr + bins.Repr
    }

    /** The parts are well formed and share no state. */
    ghost predicate Parts()
      reads space, meta, meta.list, meta.Repr, chunks, chunks.list, chunks.Repr, huges, huges.list, huges.Repr, bins,
            bins.Repr
    {
      && meta.Valid() && chunks.Valid() && huges.Valid() && bins.Valid()
      && {meta, meta.list} <= meta.Repr && {chunks, chunks.list} <= chunks.Repr && {huges, huges.list} <= huges.Repr
      && bins in bins.Repr
      && Disjoint(this, space, meta.Repr, chunks.Repr, huges.Repr, bins.Repr)
    }

    ghost function View(): State
      reads this, space, meta, chunks, huges, bins
    {
      State(chunks.table, RunsOf(bins.views), huges.table, meta.table.Keys, meta.blocks, space.bytes.Keys, live)
    }

    ghost function Listed(): Lists
      reads meta, chunks, huges, bins
    {
      Lists(bins.views, chunks.members, huges.index, chunks.order, MetaView(meta.order, meta.table))
    }

    constructor ()
      ensures Ready() && live == map[] && space.bytes == map[] && fresh(Repr())
      ensures forall i :: 0 <= i < ARENA_NO_BINS ==> bins.views[i] == BinView(0, 0, map[], {})
    {
      hide MetaPool.Valid, ChunkPool.Valid, HugePool.Valid, BinTable.Valid, WorldOk;
      var s, m, c, h, t := EmptyParts();
      space, meta, chunks, huges, bins := s, m, c, h, t;
      live := map[];
      new;
      EmptyWorld(View());
    }

    // ---- Metadata -------------------------------------------------------------------------

    /** Memory for a record; the chunks may be ahead of the bins at this point. */
    method InternalAlloc(size: nat) returns (addr: int, ghost len: nat)
      requires Parts() && MemoryOk(chunks.table, huges.table, meta.table.Keys, space.bytes.Keys)
      requires 1 <= size <= CHUNK_RECORD
      modifies Repr()
      ensures Parts() && fresh(Repr() - old(Repr())) && Listed() == old(Listed()).(meta := Listed().meta)
              && MetaGrown(old(Listed()).meta, Listed().meta)
      ensures View() ==
                old(View()).(arenas := View().arenas, mapped := View().mapped,
                             blocks := old(View()).blocks[addr := len])
      ensures addr !in old(View()).blocks && SmallestBlock(size, len)
      ensures Grown(old(View()).arenas, old(View()).mapped, View().arenas, View().mapped)
      ensures Keeps(old(space.bytes), space.bytes)
    {
      hide MetaPool.Valid, ChunkPool.Valid, HugePool.Valid, BinTable.Valid, MemoryOk, RunsOf, MetaGrown, FromListed,
           FromNew;
      MetaMapped(View());
      meta.OrderKeys();
      ghost var m, grown := Listed().meta, None;
      ghost var before := space.bytes;
      addr, len, grown := meta.Alloc(space, size);
      if grown.Some? {
        MappedKeys(before, space.bytes, grown.value, META_MAP);
        MetaFromNew(m, Listed().meta, grown.value, size, addr, len);
      } else {
        MetaFromListed(m, Listed().meta, size, addr, len);
      }
    }

    /** Memory for the record of a run of bin `i` with `elems` regions. */
    method RunMemory(i: nat, elems: nat, ghost base: nat) returns (addr: int, ghost len: nat)
      requires Parts() && MemoryOk(chunks.table, huges.table, meta.table.Keys, space.bytes.Keys)
      requires elems == BinElems(i) && elems <= MAX_ELEMS
      modifies Repr()
      ensures Parts() && fresh(Repr() - old(Repr())) && Listed() == old(Listed()).(meta := Listed().meta)
              && MetaGrown(old(Listed()).meta, Listed().meta)
      ensures View() ==
                old(View()).(arenas := View().arenas, mapped := View().mapped,
                             blocks := old(View()).blocks[addr := len])
      ensures addr !in old(View()).blocks && SmallestBlock(RecordSize(RunRecord(i, base)), len)
      ensures Grown(old(View()).arenas, old(View()).mapped, View().arenas, View().mapped)
      ensures Keeps(old(space.bytes), space.bytes)
    {
      hide Parts, MemoryOk, SmallestBlock, RunsOf, Grown, Keeps, BinElems;
      addr, len := InternalAlloc(RUN_RECORD + (2 * elems + 7) / 8);
    }

    /** Gives back the memory of a record; the original's error exit is never taken. */
    method InternalFree(addr: int)
      requires Parts() && addr in View().blocks
      modifies Repr()
      ensures Parts() && fresh(Repr() - old(Repr())) && Listed() == old(Listed()).(meta := Listed().meta)
              && Listed().meta.order == old(Listed()).meta.order
      ensures View() == old(View()).(blocks := old(View()).blocks - {addr}) && space.bytes == old(space.bytes)
    {
      hide MetaPool.Valid, ChunkPool.Valid, HugePool.Valid, BinTable.Valid, RunsOf;
      var ok := meta.Free(addr);
      assert ok;
    }

    // ---- Chunks and runs ------------------------------------------------------------------

    /** Maps a chunk, and puts its record at `addr` to the front of the list. */
    method MapChunk(addr: int) returns (e: Entry<Chunk>)
      requires Parts() && ChunksFine(chunks.table)
               && MemoryOk(chunks.table, huges.table, meta.table.Keys, space.bytes.Keys)
      modifies Repr()
      ensures Parts() && fresh(Repr() - old(Repr())) && e in chunks.members
      ensures Listed() == old(Listed()).(chunks := old(Listed()).chunks + {e}, order := [e.key] + old(Listed()).order)
              && e.key !in old(View()).chunks
      ensures View() ==
                old(View()).(chunks := old(View()).chunks[e.key := ChunkView(addr, [], {})], mapped := View().mapped)
      ensures MapsTo(old(View()).mapped, View().mapped, e.key, CHUNK_SIZE) && Keeps(old(space.bytes), space.bytes)
    {
      hide MetaPool.Valid, ChunkPool.Valid, HugePool.Valid, BinTable.Valid, MemoryOk, ChunksFine, RunsOf;
      ChunksAnchored(View());
      ghost var before := space.bytes;
      e := chunks.AddChunk(space, addr);
      MappedKeys(before, space.bytes, e.key, CHUNK_SIZE);
    }

    method AllocateChunk() returns (e: Entry<Chunk>)
      requires Parts() && WorldOk(View())
      modifies Repr()
      ensures Parts() && WorldOk(View()) && fresh(Repr() - old(Repr())) && e in chunks.members
      ensures Listed() == old(Listed()).(chunks := old(Listed()).chunks + {e}, order := [e.key] + old(Listed()).order,
                                             meta := Listed().meta)
              && MetaGrown(old(Listed()).meta, Listed().meta)
      ensures e.key !in old(View()).chunks && e.key in View().chunks && View().chunks[e.key].handed == []
      ensures View().chunks == old(View()).chunks[e.key := View().chunks[e.key]] && View().chunks[e.key].released == {}
      ensures View() ==
                old(View()).(chunks := View().chunks, arenas := View().arenas, mapped := View().mapped,
                             blocks := View().blocks)
      ensures Keeps(old(space.bytes), space.bytes) && WorldGrown(old(View()), View())
    {
      hide MetaGrown, Grown, SmallestBlock, Parts, MemoryOk, ChunksFine, RunsMatch, RecordsOk, LiveIs, RunsOf,
           HugesFine;
      ghost var w := View();
      var addr: int;
      ghost var len: nat;
      addr, len := InternalAlloc(CHUNK_RECORD);
      ghost var w1 := w.(arenas := View().arenas, mapped := View().mapped);
      GrownOk(w, w1.arenas, w1.mapped);
      e := MapChunk(addr);
      NewChunk(w1, e.key, addr, len, View().mapped);
    }

    /** Asks the listed chunks for a run. */
    method AskChunks(runSize: nat, regSize: nat, draws: seq<nat>) returns (r: Option<nat>, ghost key: nat, ghost x: nat)
      requires Parts() && RunSizeOk(runSize) && |draws| == RANDOM_LOOKUP_TRIES + 1
               && (regSize != LEAF_SIZE && runSize < 2 * LEAF_SIZE ==> regSize < REG_MARK_BAD_VALUE)
      modifies Repr()
      ensures Parts() && fresh(Repr() - old(Repr())) && Listed() == old(Listed()) && space.bytes == old(space.bytes)
      ensures r.None? ==> View() == old(View()) && forall k :: k in View().chunks ==> NoRoom(View().chunks[k], runSize)
      ensures r.Some? ==> RunTaken(old(View()), View(), key, x, runSize, regSize, draws, r.value)
                          && FirstWithRoom(Listed().order, old(View()).chunks, runSize, key)
    {
      hide MetaPool.Valid, ChunkPool.Valid, HugePool.Valid, BinTable.Valid, RunsOf, Room, NoRoom, RunBase, RunSizeOk,
           Chosen, FirstWithRoom;
      r, key, x := chunks.AllocateRun(runSize, regSize, draws);
    }

    method AskChunk(e: Entry<Chunk>, runSize: nat, regSize: nat, draws: seq<nat>) returns (r: Option<nat>, ghost x: nat)
      requires Parts() && RunSizeOk(runSize) && |draws| == RANDOM_LOOKUP_TRIES + 1
               && (regSize != LEAF_SIZE && runSize < 2 * LEAF_SIZE ==> regSize < REG_MARK_BAD_VALUE)
      requires e in chunks.members && e.key in View().chunks && View().chunks[e.key].handed == []
      modifies Repr()
      ensures Parts() && fresh(Repr() - old(Repr())) && Listed() == old(Listed()) && space.bytes == old(space.bytes)
      ensures r.Some? && RunTaken(old(View()), View(), old(e.key), x, runSize, regSize, draws, r.value)
    {
      hide MetaPool.Valid, ChunkPool.Valid, HugePool.Valid, BinTable.Valid, RunsOf, Room, NoRoom, RunBase, RunSizeOk,
           ChunkFoot, Chosen;
      chunks.MemberFoot(e);
      FreshRoom(chunks.table[e.key], runSize);
      r, x := chunks.TryChunk(e, runSize, regSize, draws);
    }

    /** Takes a run from the first chunk with room, or from a new chunk. */
    method TakeRun(i: nat, draws: seq<nat>) returns (base: nat, ghost w: State, ghost key: nat, ghost x: nat)
      requires |draws| == RANDOM_LOOKUP_TRIES + 1
      requires Parts() && WorldOk(View()) && i < |bins.views| == ARENA_NO_BINS && bins.views[i].size > 0
      modifies Repr()
      ensures Parts() && fresh(Repr() - old(Repr()))
      ensures Listed() == old(Listed()).(chunks := Listed().chunks, order := Listed().order, meta := Listed().meta)
              && MetaGrown(old(Listed()).meta, Listed().meta)
              && old(Listed()).chunks <= Listed().chunks
      ensures FromChunk(old(Listed()).order, old(View()).chunks, Listed().order, w.chunks, key, RunBytes(i))
      ensures Keeps(old(space.bytes), space.bytes)
      ensures WorldOk(w)
              && w == old(View()).(chunks := w.chunks, arenas := w.arenas, mapped := w.mapped, blocks := w.blocks)
      ensures WorldGrown(old(View()), View())
      ensures RunTaken(w, View(), key, x, RunBytes(i), SizeOfBin(i), draws, base)
    {
      hide MetaGrown, Parts, WorldOk, RunsOf, RunTaken, RunSizeOk, SizeOfBin, RunPages, RunElems, RunBytes,
           WorldGrown, NoRoom, FirstWithRoom;
      var regSize, runSize, elems := BinSizes(i);
      BytesPositive(i);
      RegionFits(i);
      w := View();
      GrownSelf(w);
      MetaGrownSelf(Listed().meta);
      var r;
      r, key, x := AskChunks(runSize, regSize, draws);
      if r.None? {
        var e := AllocateChunk();
        w, key := View(), e.key;
        r, x := AskChunk(e, runSize, regSize, draws);
      }
      base := r.value;
      TakenGrows(w, View(), key, x, runSize, regSize, draws, base);
      GrownOn(old(View()), w, View());
    }

    method BinSizes(i: nat) returns (regSize: nat, runSize: nat, elems: nat)
      requires Parts() && i < |bins.views| == ARENA_NO_BINS && bins.views[i].size > 0
      ensures regSize == bins.views[i].size == SizeOfBin(i) && IsClass(regSize)
      ensures runSize == RunPages(regSize) * PAGE_SIZE && elems == RunElems(regSize)
    {
      hide MetaPool.Valid, ChunkPool.Valid, HugePool.Valid, BinTable.Valid;
      regSize, runSize, elems := bins.Sizes(i);
    }

    lemma BinSizeKnown(i: nat)
      requires Parts() && i < |bins.views| == ARENA_NO_BINS && bins.views[i].size > 0
      ensures bins.views[i].size == SizeOfBin(i)
    {
      hide MetaPool.Valid, ChunkPool.Valid, HugePool.Valid, BinTable.Valid;
      bins.SizeIs(i);
    }

    /** Sets up the record of a run at `addr`, and lists the run in bin `i`. */
    method ListRun(i: nat, base: nat, addr: int, regSize: nat, elems: nat, genDraw: nat, startDraw: nat)
      returns (ghost items: seq<TwoBit>)
      requires Parts() && i < |bins.views| == ARENA_NO_BINS && IsClass(regSize) && bins.views[i].size == regSize
               && elems == RunElems(regSize)
      requires base !in bins.views[i].runs
      modifies Repr()
      ensures Parts() && fresh(Repr() - old(Repr())) && space.bytes == old(space.bytes)
      ensures |bins.views| == ARENA_NO_BINS && (forall k :: 0 <= k < |items| ==> items[k] == STATE_FREE)
      ensures RunListed(old(Listed()), Listed(), i, base, addr, items) && Listed().meta == old(Listed()).meta
      ensures View() == old(View()).(runs := SetRun(old(View()).runs, i, base, RunView(addr, items)))
      ensures i < |bins.bins| && bins.bins[i].NewestDrawn(base, genDraw, startDraw)
    {
      hide Parts, RunElems, Run.Valid, IsClass, RunFoot, RunListed, Run.Drawn;
      ClassUnits(regSize);
      var e := MakeRun(base, addr, regSize, elems, genDraw, startDraw);
      items := e.item.bitmap.items;
      PutRun(i, e);
    }

    method PutRun(i: nat, e: Entry<Run>)
      requires Parts() && i < |bins.views| == ARENA_NO_BINS && e !in Repr() && RunFoot(e.item) !! Repr()
               && bins.views[i].size > 0
      requires e.item.Valid() && e.key == e.item.key && e.item.regSize == bins.views[i].size
               && e.item.elems == RunElems(bins.views[i].size)
      requires e.item.navail == e.item.elems && e.fd == null && e.bk == null && e.key !in bins.views[i].runs
      modifies Repr(), e
      ensures Parts() && Repr() == old(Repr()) + {e} + RunFoot(e.item) && space.bytes == old(space.bytes)
      ensures |bins.views| == ARENA_NO_BINS
      ensures RunListed(old(Listed()), Listed(), i, old(e.key), e.addr, old(e.item.bitmap.items))
              && Listed().meta == old(Listed()).meta
      ensures View() ==
                old(View()).(runs := SetRun(old(View()).runs, i, old(e.key), RunView(e.addr, old(e.item.bitmap.items))))
      ensures i < |bins.bins| && bins.bins[i].active.entries != [] && bins.bins[i].active.entries[0] == e
    {
      hide MetaPool.Valid, ChunkPool.Valid, HugePool.Valid, BinTable.Valid, RunElems, Run.Valid, RunFoot, RunsOf;
      ghost var views, v := bins.views, RunView(e.addr, e.item.bitmap.items);
      PutFrame(e);
      bins.AddRun(i, e);
      RunsOfSet(views, bins.views, i, e.key, v);
    }

    lemma PutFrame(e: Entry<Run>)
      requires e !in Repr() && RunFoot(e.item) !! Repr()
      ensures e.item.bitmap !in bins.Repr && e.item.bitmap != e as object
      ensures e !in bins.Repr && RunFoot(e.item) !! bins.Repr
              && {e} + RunFoot(e.item) !! meta.Repr + chunks.Repr + huges.Repr + {this, space}
    {
    }

    lemma OrderListed()
      requires Parts()
      ensures forall k :: k in Listed().order <==> k in View().chunks
    {
      hide MetaPool.Valid, ChunkPool.Valid, HugePool.Valid, BinTable.Valid;
      chunks.OrderKeys();
    }

    /** Adds a new run to bin `i`. */
    method AddRun(i: nat, draws: seq<nat>, genDraw: nat, startDraw: nat)
      returns (ghost w: State, ghost key: nat, ghost x: nat, ghost base: nat)
      requires |draws| == RANDOM_LOOKUP_TRIES + 1
      requires Parts() && WorldOk(View()) && i < |bins.views| == ARENA_NO_BINS && bins.views[i].size > 0
      modifies Repr()
      ensures Parts() && WorldOk(View()) && fresh(Repr() - old(Repr()))
      ensures Keeps(old(space.bytes), space.bytes) && View().live == old(View()).live
              && View().huges == old(View()).huges
      ensures RunAdded(old(Listed()), Listed(), i)
      ensures GrownFor(old(View()), old(Listed()), View(), Listed(), i)
      ensures FromChunk(old(Listed()).order, old(View()).chunks, Listed().order, w.chunks, key, RunBytes(i))
      ensures ChunkServes(w.chunks, View().chunks, key, x, RunBytes(i), SizeOfBin(i), draws, base)
      ensures i < |bins.bins| && bins.bins[i].NewestDrawn(base, genDraw, startDraw)
    {
      hide MetaGrown, Bin.NewestDrawn, Parts, WorldOk, RunTaken, RunElems, RunPages, RunBytes, SizeOfBin, MemoryOk,
           WorldGrown, FromChunk, ChunkServes, GrownFor;
      ghost var w0, l0 := View(), Listed();
      OrderListed();
      var p;
      p, w, key, x := TakeRun(i, draws);
      base := p;
      ghost var l1, w1 := Listed(), View();
      TakenServes(w, w1, key, x, RunBytes(i), SizeOfBin(i), draws, base);
      ghost var addr, items := RecordRun(i, p, w, key, x, draws, genDraw, startDraw);
      GrownOn(w0, w1, View());
      MetaGrownOn(l0.meta, l1.meta, Listed().meta);
      RunGrows(w0, l0, w, View(), Listed(), i, key, x, draws, base);
    }

    /** Adds a new run to bin `i`, whatever is drawn. */
    method AddAnyRun(i: nat)
      requires Parts() && WorldOk(View()) && i < |bins.views| == ARENA_NO_BINS && bins.views[i].size > 0
      modifies Repr()
      ensures Parts() && WorldOk(View()) && fresh(Repr() - old(Repr()))
      ensures Keeps(old(space.bytes), space.bytes) && View().live == old(View()).live
              && View().huges == old(View()).huges
      ensures RunAdded(old(Listed()), Listed(), i) && GrownFor(old(View()), old(Listed()), View(), Listed(), i)
    {
      hide Parts, WorldOk, RunAdded, GrownFor, FromChunk, ChunkServes, Keeps, RunsOf;
      var draws := Draw();
      var genDraw: nat, startDraw: nat := *, *;
      ghost var w, key, x, base := AddRun(i, draws, genDraw, startDraw);
    }

    /** Sets up the record of a run that has just been handed out, and lists it in bin `i`. */
    method RecordRun(i: nat, base: nat, ghost w: State, ghost key: nat, ghost x: nat, ghost draws: seq<nat>,
                     genDraw: nat, startDraw: nat)
      returns (ghost recAddr: int, ghost items: seq<TwoBit>)
      requires Parts() && WorldOk(w) && i < |bins.views| == ARENA_NO_BINS && bins.views[i].size > 0
      requires RunTaken(w, View(), key, x, RunBytes(i), SizeOfBin(i), draws, base)
      modifies Repr()
      ensures Parts() && WorldOk(View()) && fresh(Repr() - old(Repr()))
      ensures Keeps(old(space.bytes), space.bytes) && View().live == w.live && View().huges == w.huges
      ensures RunListed(old(Listed()), Listed(), i, base, recAddr, items) && WorldGrown(old(View()), View())
              && View().chunks == old(View()).chunks && MetaGrown(old(Listed()).meta, Listed().meta)
      ensures i < |bins.bins| && bins.bins[i].NewestDrawn(base, genDraw, startDraw)
    {
      hide MetaGrown, Bin.NewestDrawn, Parts, WorldOk, RunTaken, RunListed, RunElems, RunPages, RunBytes, SizeOfBin,
           MemoryOk, WorldGrown, SmallestBlock, RecordSize;
      var regSize, runSize, elems := BinSizes(i);
      SmallRecord(regSize);
      TakenMemory(w, View(), key, x, i, draws, base);
      var addr: int;
      ghost var len: nat;
      addr, len := RunMemory(i, elems, base);
      ghost var w1 := w.(arenas := View().arenas, mapped := View().mapped);
      GrownOk(w, w1.arenas, w1.mapped);
      BaseIsNew(w, w1, key, x, i, draws, base);
      assert w1.runs[i] == bins.views[i].runs;
      recAddr := addr;
      ghost var l1 := Listed();
      items := ListRun(i, base, addr, regSize, elems, genDraw, startDraw);
      ListedBeside(old(Listed()), l1, Listed(), i, base, addr, items);
      ghost var w' := NewRun(w1, key, x, i, base, addr, len, items);
      assert View() == w';
      SetRunGrown(old(View()), w', i, base, RunView(addr, items));
    }

    /** The bin for a class. */
    method BinFor(regSize: nat) returns (i: nat)
      requires Parts() && IsClass(regSize) && |bins.views| == ARENA_NO_BINS
      modifies Repr()
      ensures Parts() && fresh(Repr() - old(Repr())) && space.bytes == old(space.bytes) && View() == old(View())
      ensures i < |bins.views| == ARENA_NO_BINS && SizeOfBin(i) == regSize
              && BinReady(old(Listed()), Listed(), i, regSize)
    {
      hide MetaPool.Valid, ChunkPool.Valid, HugePool.Valid, BinTable.Valid, IsClass;
      ghost var views := bins.views;
      i := bins.GetBin(regSize);
      assert RunsOf(views) == RunsOf(bins.views);
    }

    method BinAvail(i: nat) returns (avail: nat)
      requires Parts() && i < |bins.views| == ARENA_NO_BINS
      ensures avail == bins.views[i].avail
    {
      hide MetaPool.Valid, ChunkPool.Valid, HugePool.Valid, BinTable.Valid, BinsExcept;
      var bin := bins.BinAt(i);
      avail := bin.availRegs;
    }

    /** Pumps runs into a bin that is below the minimum of free regions: as few as possible. */
    method SupplyRuns(i: nat)
      requires Parts() && WorldOk(View()) && i < |bins.views| == ARENA_NO_BINS && bins.views[i].size > 0
      requires bins.views[i].avail < BIN_MINIMUM_REGIONS
      modifies Repr()
      ensures Parts() && WorldOk(View()) && fresh(Repr() - old(Repr()))
      ensures Keeps(old(space.bytes), space.bytes) && View().live == old(View()).live
              && View().huges == old(View()).huges
      ensures Supplied(old(Listed()), Listed(), i)
      ensures GrownFor(old(View()), old(Listed()), View(), Listed(), i)
      ensures BIN_MINIMUM_REGIONS <= bins.views[i].avail < BIN_MINIMUM_REGIONS + BinElems(i)
              && Stocked(bins.views[i].avail)
    {
      hide Parts, WorldOk, RunElems, RunPages, SizeOfBin, IsClass, GrownFor, Keeps, Supplied, RunAdded;
      GrownForSelf(View(), Listed(), i);
      KeepsSelf(space.bytes);
      SuppliedNone(Listed(), i);
      var regSize, runSize, elems := BinSizes(i);
      SmallRecord(regSize);
      var avail := BinAvail(i);
      var runs := CeilDiv(BIN_MINIMUM_REGIONS - avail, elems);
      EnoughRuns(BIN_MINIMUM_REGIONS - avail, elems);
      ghost var l := Listed();
      for k := 0 to runs
        invariant Parts() && WorldOk(View()) && fresh(Repr() - old(Repr()))
        invariant Keeps(old(space.bytes), space.bytes) && View().live == old(View()).live
                  && View().huges == old(View()).huges
        invariant i < |Listed().views| == ARENA_NO_BINS && Listed().views[i].size == regSize
        invariant Supplied(l, Listed(), i) && Listed().views[i].avail == avail + k * elems
        invariant GrownFor(old(View()), old(Listed()), View(), Listed(), i)
      {
        NextRun(k, elems);
        ghost var w1, l1, b1 := View(), Listed(), space.bytes;
        AddAnyRun(i);
        KeepsOn(old(space.bytes), b1, space.bytes);
        SuppliedAgain(l, l1, Listed(), i);
        GrownForOn(old(View()), l, w1, l1, View(), Listed(), i);
      }
    }

    /** Takes a region from a bin that has one, from the run that the draw selects; it is in use from
        now on. */
    method TakeRegion(i: nat, draw: nat) returns (ptr: nat)
      requires Parts() && WorldOk(View()) && i < |bins.views| == ARENA_NO_BINS && bins.views[i].avail > 0
      modifies Repr()
      ensures Parts() && WorldOk(View()) && fresh(Repr() - old(Repr())) && space.bytes == old(space.bytes)
      ensures ptr !in old(View()).live && View().live == old(View()).live[ptr := SizeOfBin(i)]
              && View().huges == old(View()).huges
      ensures RegionTaken(old(Listed()), Listed(), i)
      ensures i < |bins.bins| && exists key, s: nat ::
                old(bins.bins[i].Selects(draw, key, s)) && ptr == Region(key, SizeOfBin(i), s)
      ensures GrownFor(old(View()), old(Listed()), View(), Listed(), i)
    {
      hide GrownFor, WorldGrown, MetaPool.Valid, ChunkPool.Valid, HugePool.Valid, BinTable.Valid, WorldOk, Region,
           SizeOfBin, Bin.Selects;
      ghost var w, l, views, key, s := View(), Listed(), bins.views, 0, 0;
      bins.SizeIs(i);
      ptr, key, s := bins.AllocateRegion(i, draw);
      live := live[ptr := SizeOfBin(i)];
      ghost var w' := WorldSteps.TakeRegion(w, i, key, s, ptr);
      RunsOfSet(views, bins.views, i, key, bins.views[i].runs[key]);
      SetSlotGrown(w, w', i, key, s);
      GrownForSame(w, l, w', Listed(), i);
    }

    /** Takes a region from a bin, after adding a run if its stock is low. */
    method AllocateWithBin(i: nat, draw: nat) returns (ptr: nat)
      requires Parts() && WorldOk(View()) && i < |bins.views| == ARENA_NO_BINS && bins.views[i].size > 0
      requires Stocked(bins.views[i].avail)
      modifies Repr()
      ensures Parts() && WorldOk(View()) && fresh(Repr() - old(Repr())) && Keeps(old(space.bytes), space.bytes)
      ensures ptr !in old(View()).live && View().live == old(View()).live[ptr := SizeOfBin(i)]
              && View().huges == old(View()).huges
      ensures Supplied(old(Listed()), Listed(), i) && Stocked(bins.views[i].avail)
      ensures old(bins.views)[i].avail >= BIN_MINIMUM_REGIONS ==>
                && RegionTaken(old(Listed()), Listed(), i)
                && i < |bins.bins| && exists key, s: nat ::
                     old(bins.bins[i].Selects(draw, key, s)) && ptr == Region(key, SizeOfBin(i), s)
      ensures old(bins.views)[i].avail < BIN_MINIMUM_REGIONS ==>
                bins.views[i].avail == old(bins.views)[i].avail + BinElems(i) - 1
      ensures GrownFor(old(View()), old(Listed()), View(), Listed(), i)
    {
      hide Parts, WorldOk, RunElems, RunPages, SizeOfBin, GrownFor, Bin.Selects, Region, Keeps, Supplied, RunAdded,
           RegionTaken, BinElems;
      ghost var w0, l0 := View(), Listed();
      BinSizeKnown(i);
      KeepsSelf(space.bytes);
      GrownForSelf(w0, l0, i);
      var avail := BinAvail(i);
      if avail < BIN_MINIMUM_REGIONS {
        AddAnyRun(i);
      }
      ghost var w1, l1 := View(), Listed();
      AddedStock(l0, l1, i, avail < BIN_MINIMUM_REGIONS);
      ptr := TakeRegion(i, draw);
      GrownForOn(w0, l0, w1, l1, View(), Listed(), i);
      TakenStock(l0, l1, Listed(), i);
    }

    /** Maps memory for a huge request, and lists its record. */
    method AllocateHuge(len: nat) returns (ptr: nat)
      requires Parts() && WorldOk(View()) && len > LARGE_SIZE_MAX_REGION && len % PAGE_SIZE == 0
      modifies Repr()
      ensures Parts() && WorldOk(View()) && fresh(Repr() - old(Repr())) && Keeps(old(space.bytes), space.bytes)
      ensures ptr !in old(View()).live && View().live == old(View()).live[ptr := len]
      ensures Listed() == old(Listed()).(huges := Listed().huges, meta := Listed().meta)
              && MetaGrown(old(Listed()).meta, Listed().meta) && ptr > 0 && WorldGrown(old(View()), View())
    {
      hide MetaGrown, SmallestBlock, Grown, Parts;
      ghost var w := View();
      var addr: int;
      ghost var blen: nat;
      addr, blen := InternalAlloc(HUGE_RECORD);
      GrownOk(w, View().arenas, View().mapped);
      ghost var w1 := w.(arenas := View().arenas, mapped := View().mapped);
      ptr := MapHuge(addr, len, w1, blen);
      assert WorldGrown(w1, View());
    }

    method MapHuge(addr: int, len: nat, ghost w: State, ghost blen: nat) returns (ptr: nat)
      requires Parts() && WorldOk(w) && View() == w.(blocks := w.blocks[addr := blen]) && addr !in w.blocks
               && SmallestBlock(HUGE_RECORD, blen)
      requires len > LARGE_SIZE_MAX_REGION && len % PAGE_SIZE == 0
      modifies Repr()
      ensures Parts() && WorldOk(View()) && fresh(Repr() - old(Repr())) && Keeps(old(space.bytes), space.bytes)
      ensures ptr !in w.live && View().live == w.live[ptr := len]
      ensures Listed() == old(Listed()).(huges := Listed().huges) && ptr > 0 && WorldGrown(w, View())
    {
      hide MetaPool.Valid, ChunkPool.Valid, HugePool.Valid, BinTable.Valid, WorldOk, Mapped, RunsOf;
      ghost var before := space.bytes;
      ptr := space.Map(len);
      MappedKeys(before, space.bytes, ptr, len);
      ghost var w' := NewHuge(w, ptr, addr, blen, len, space.bytes.Keys);
      huges.Add(ptr, addr, len);
      live := live[ptr := len];
      PutHugeGrown(w, View(), ptr, addr, len);
    }

    // ---- Requests -------------------------------------------------------------------------

    /** What holds between any two calls. */
    ghost predicate Ready()
      reads this, space, meta, meta.list, meta.Repr, chunks, chunks.list, chunks.Repr, huges, huges.list, huges.Repr,
            bins, bins.Repr
    {
      Parts() && WorldOk(View()) && Warm(bins.views)
    }

    /** A pointer in use is not null. It is a multiple of 16, and of a page if its region is larger than
        two pages. */
    lemma LivePointers(p: nat)
      requires Ready() && p in live
      ensures p > 0 && p % 16 == 0 && (live[p] > MEDIUM_SIZE_MAX_REGION ==> p % PAGE_SIZE == 0)
    {
      hide Parts, WorldOk;
      LiveAligned(View(), p);
    }

    /** The records of the allocator lie in mapped memory, share no byte with each other, and none with
        a region in use. */
    lemma RecordsApart(r: Record, p: int, s: Record, q: int, a: nat)
      requires Ready() && Has(View().chunks, View().runs, View().huges, r, p)
               && Has(View().chunks, View().runs, View().huges, s, q)
      requires In(a, p, RecordSize(r))
      ensures a in space.bytes
      ensures In(a, q, RecordSize(s)) ==> r == s
      ensures forall u :: u in live ==> !In(a, u, live[u])
    {
      hide MetaPool.Valid, ChunkPool.Valid, HugePool.Valid, BinTable.Valid, WorldOk, RecordSize, Has;
      RecordHeld(View(), r, p);
      RecordHeld(View(), s, q);
      var b := meta.PoolBlocks(p, q);
      if In(a, q, RecordSize(s)) {
        assert p == q;
        SameRecord(View(), r, s, p);
      }
      ArenaByte(View(), b, a);
    }

    /** Regions in use are mapped and share no byte. */
    lemma LiveRegions(p: nat, q: nat, a: nat)
      requires Ready() && p in live && q in live && In(a, p, live[p])
      ensures a in space.bytes
      ensures In(a, q, live[q]) ==> p == q
    {
      hide Parts, WorldOk;
      RegionsDisjointAndMapped(View(), p, q, a);
    }

    /** The counters of a bin in use stay far below the 32 bits that the original has for them. */
    lemma CountersFit(i: nat)
      requires Ready() && i < ARENA_NO_BINS && bins.views[i].size > 0
      ensures i < |bins.bins| && bins.bins[i].availRegs < 1280 && bins.bins[i].activeCnt < 1280
      ensures bins.bins[i].regMaskSizeBits <= 2048
    {
      hide MetaPool.Valid, ChunkPool.Valid, HugePool.Valid, BinTable.Valid, WorldOk;
      bins.CountersBound(i);
    }

    /** Serves a request that is not huge from the bin of its class. */
    method AllocateRegular(size: nat) returns (ptr: nat)
      requires Ready() && 1 <= size <= LARGE_SIZE_MAX_REGION
      modifies Repr()
      ensures Ready() && fresh(Repr() - old(Repr())) && Keeps(old(space.bytes), space.bytes)
      ensures ptr !in old(View()).live && View().live == old(View()).live[ptr := ClassFor(size)]
              && View().huges == old(View()).huges
      ensures StillListed(old(Listed()), Listed())
      ensures WorldGrown(old(View()), View())
      ensures ServedFrom(old(Listed()), Listed(), View().chunks, ClassFor(size))
              && MetaGrown(old(Listed()).meta, Listed().meta)
    {
      hide Parts, WorldOk, RunElems, RunPages, SizeOfBin, ClassFor, BinReady, Supplied, StillListed, Warm, IsClass,
           StockServed, ServedFrom, GrownFor, WorldGrown, OrderGrown, RunBytes, BinElems, MetaGrown;
      ghost var w, l := View(), Listed();
      WarmCount(l.views);
      var aligned := RoundToClass(size);
      var i := BinFor(aligned);
      ghost var l1 := Listed();
      ReadyBin(l, l1, i, aligned);
      ptr := ServeFrom(i);
      GrownForFacts(w, l1, View(), Listed(), i);
      AllocatedStill(l, l1, Listed(), i, aligned);
      ServedFromBin(l, l1, Listed(), View().chunks, i, aligned);
    }

    /** Takes a region from a bin, which is given its stock at the first use. */
    method ServeFrom(i: nat) returns (ptr: nat)
      requires Parts() && WorldOk(View()) && i < |bins.views| == ARENA_NO_BINS && bins.views[i].size > 0
      requires bins.views[i].avail == 0 || Stocked(bins.views[i].avail)
      modifies Repr()
      ensures Parts() && WorldOk(View()) && fresh(Repr() - old(Repr())) && Keeps(old(space.bytes), space.bytes)
      ensures ptr !in old(View()).live && View().live == old(View()).live[ptr := SizeOfBin(i)]
              && View().huges == old(View()).huges
      ensures Supplied(old(Listed()), Listed(), i) && Stocked(bins.views[i].avail)
      ensures StockServed(old(bins.views)[i].avail, bins.views[i].avail, BinElems(i))
      ensures GrownFor(old(View()), old(Listed()), View(), Listed(), i)
    {
      hide Parts, WorldOk, SizeOfBin, RunElems, GrownFor, BinElems;
      ghost var l, w := Listed(), View();
      GrownForSelf(w, l, i);
      var avail := BinAvail(i);
      if avail == 0 {
        SupplyRuns(i);
      }
      ghost var l1, w1 := Listed(), View();
      var draw: nat := *;
      ptr := AllocateWithBin(i, draw);
      GrownForOn(w, l, w1, l1, View(), Listed(), i);
    }

    /** The pointer handed out is not null and was not in use, it is aligned, and its usable size is
        what the request is rounded up to; all other regions, and the contents of all memory, stay as
        they are. */
    method Malloc(request: nat) returns (ptr: nat)
      requires Ready() && request <= MAX_REQUEST
      modifies Repr()
      ensures Ready() && fresh(Repr() - old(Repr())) && Keeps(old(space.bytes), space.bytes)
      ensures ptr !in old(live) && live == old(live)[ptr := UsableSize(request)]
      ensures IsSizeFor(request, live[ptr])
      ensures ptr > 0 && ptr % 16 == 0 && (live[ptr] > MEDIUM_SIZE_MAX_REGION ==> ptr % PAGE_SIZE == 0)
      ensures !IsHuge(request) ==> View().huges == old(View()).huges && Listed().huges == old(Listed()).huges
      ensures RequestServed(old(Listed()), Listed(), View().chunks, live[ptr])
      ensures OneCall(old(View()), View())
    {
      hide MetaGrown, ServedFrom, Parts, WorldOk, ClassFor, Warm, OneCall, WorldGrown, IsSizeFor;
      UsableHugeIff(request);
      UsableIsSize(request);
      ghost var w := View();
      var size := request;
      if size == 0 {
        size := SMALL_SIZE_MIN_REGION;
      }
      if IsHuge(size) {
        PageAligned(size);
        ptr := AllocateHuge(AlignUpPage(size));
        LivePointers(ptr);
        HandingOut(w, View(), ptr);
        return;
      }
      ghost var l := Listed();
      ptr := AllocateRegular(size);
      LivePointers(ptr);
      HandingOut(w, View(), ptr);
    }

    // ---- Locating a pointer ---------------------------------------------------------------

    method FindRun(ptr: nat) returns (e: Entry?<Chunk>, info: RunInfo, ghost k: nat)
      requires Parts()
      ensures e == null ==> AllSilent(View().chunks, ptr)
      ensures e != null ==> e in chunks.members && e.key == e.item.key && e.key in View().chunks
      ensures e != null ==>
                Answers(e.key, View().chunks[e.key], k, ptr)
                && info == InfoOf(e.key, CHUNK_DEPTH, View().chunks[e.key].handed[k])
    {
      hide MetaPool.Valid, ChunkPool.Valid, HugePool.Valid, BinTable.Valid;
      e, info, k := chunks.Locate(ptr);
      if e != null {
        chunks.MemberFoot(e);
      }
    }

    method FindHuge(ptr: nat) returns (h: Entry?<Huge>)
      requires Parts()
      ensures h == null <==> ptr !in View().huges
      ensures h != null ==> h.key == ptr && ptr in huges.index && huges.index[ptr] == h
    {
      hide MetaPool.Valid, ChunkPool.Valid, HugePool.Valid, BinTable.Valid;
      h := huges.Find(ptr);
    }

    method FindRecord(i: nat, base: nat) returns (r: Entry?<Run>)
      requires Parts() && i < |bins.views| == ARENA_NO_BINS
      ensures r == null <==> base !in bins.views[i].runs
      ensures r != null ==>
                r in bins.views[i].members && r.key == base && r.item.key == base
                && r.addr == bins.views[i].runs[base].addr
    {
      hide MetaPool.Valid, ChunkPool.Valid, HugePool.Valid, BinTable.Valid;
      r := bins.GetRunByAddr(i, base);
      if r != null {
        bins.MemberFacts(i, r);
      }
    }

    lemma SizeKnown(i: nat, base: nat)
      requires Parts() && i < |bins.views| == ARENA_NO_BINS && base in bins.views[i].runs
      ensures bins.views[i].size == SizeOfBin(i) > 0 && BinElems(i) == RunElems(bins.views[i].size)
    {
      bins.RunFacts(i, base);
    }

    lemma NotAPart()
      requires Parts()
      ensures this !in meta.Repr && this !in chunks.Repr && this !in huges.Repr && this !in bins.Repr
              && this as object != space
      ensures {meta, meta.list} <= meta.Repr && {chunks, chunks.list} <= chunks.Repr
              && {huges, huges.list} <= huges.Repr && bins in bins.Repr
    {
    }

    /** Finds the records that a pointer belongs to; every region in use is found. */
    method Locate(ptr: nat) returns (m: Located, ghost k: nat, ghost base: nat)
      requires Parts() && WorldOk(View())
      modifies Repr()
      ensures Parts() && fresh(Repr() - old(Repr())) && View() == old(View()) && Listed() == old(Listed())
              && space.bytes == old(space.bytes)
      ensures m.NotFound? ==> ptr !in View().live
      ensures m.InMapping? ==> MappingFound(View(), Listed(), m.huge, ptr)
      ensures m.InRun? ==> RunFound(View(), Listed(), m.chunk, m.run, m.bin, ptr, k, base)
    {
      hide Parts, WorldOk, SizeOfBin, RunIn, AllSilent, Answers, RunBytes, InfoOf, RunFound, MappingFound, At,
           LiveIs;
      ghost var w, l := View(), Listed();
      BinsCount(w);
      k, base := 0, 0;
      var e, info;
      e, info, k := FindRun(ptr);
      if e == null {
        SilentMeans(w, ptr);
        var h := FindHuge(ptr);
        if h == null {
          return NotFound, k, base;
        }
        MappingFoundFrom(w, l, h, ptr);
        return InMapping(h), k, base;
      }
      ghost var j;
      ghost var key := e.key;
      j, base := AnswersOnce(w, key, k, ptr);
      RunIndex(w.chunks, w.runs, key, k, j, base);
      InfoIsClass(w.chunks, w.runs, key, k, j, base, info);
      SizeKnown(j, base);
      var i := BinFor(if info.regSize > 0 then info.regSize else info.size);
      BinsDistinct(i, j);
      assert w.runs[i] == l.views[i].runs;
      var r := FindRecord(i, info.base);
      RunFoundFrom(w, l, e, key, r, i, ptr, k, base);
      m := InRun(e, r, i);
    }

    // ---- Freeing --------------------------------------------------------------------------

    /** Releases the region at `ptr` of a run, if there is one; with the last region the run leaves
        its bin. */
    method ReleaseSlot(i: nat, r: Entry<Run>, ptr: nat) returns (ok: bool, freeable: bool, ghost s: nat)
      requires Parts() && i < |bins.views| == ARENA_NO_BINS && r in bins.views[i].members
               && r.item.key in bins.views[i].runs
      requires r.item.key <= ptr && bins.views[i].size > 0
      requires ReadsInside(ptr - r.item.key, bins.views[i].size, RunElems(bins.views[i].size))
      modifies Repr()
      ensures Parts() && fresh(Repr() - old(Repr())) && space.bytes == old(space.bytes)
      ensures SlotReleased(old(View()), View(), old(Listed()), Listed(), i, r, ptr, ok, freeable, s)
    {
      hide MetaPool.Valid, ChunkPool.Valid, HugePool.Valid, BinTable.Valid, Held, AllReleased, SizeOfBin;
      bins.MemberFacts(i, r);
      bins.SizeIs(i);
      ghost var w, l := View(), Listed();
      assert l.views[i].size == SizeOfBin(i) && BinElems(i) == RunElems(l.views[i].size) && r.key == r.item.key;
      ok, freeable, s := bins.ReleaseRegion(i, r, ptr);
      SlotReleasedFrom(w, View(), l, Listed(), i, r, ptr, ok, freeable, s);
    }

    /** Releases the run of a chunk that starts at `runPtr`, and unmaps its memory. */
    method UnmapRun(c: Entry<Chunk>, runPtr: nat, ghost k: nat) returns (whole: bool)
      requires Parts() && c in chunks.members && c.item.key in View().chunks
      requires LiveIn(View().chunks[c.item.key], k) && InTree(CHUNK_DEPTH, View().chunks[c.item.key].handed[k].node)
      requires runPtr == RunBase(c.item.key, CHUNK_DEPTH, View().chunks[c.item.key].handed[k].node)
      modifies Repr()
      ensures Parts() && fresh(Repr() - old(Repr())) && Listed() == old(Listed())
      ensures var old_chunks := old(View()).chunks;
              View() == old(View()).(chunks := old_chunks[c.item.key := WithReleased(old_chunks[c.item.key], k)],
                                     mapped := View().mapped)
      ensures UnmapsTo(old(View()).mapped, View().mapped, runPtr,
                       RunSize(CHUNK_DEPTH, old(View()).chunks[c.item.key].handed[k].node))
      ensures Keeps(space.bytes, old(space.bytes))
      ensures whole <==> Covered(View().chunks[c.item.key].released, 1, CHUNK_DEPTH)
    {
      hide MetaPool.Valid, ChunkPool.Valid, HugePool.Valid, BinTable.Valid, RunBase, RunSize, Covered;
      chunks.MemberFoot(c);
      var p, len;
      whole, p, len := chunks.ReleaseRun(c, runPtr, k);
      ghost var before := space.bytes;
      space.Unmap(p, len);
      MappedKeys(before, space.bytes, p, len);
    }

    /** Takes a chunk off the list, and gives back the memory of its record. */
    method DeallocateChunk(c: Entry<Chunk>)
      requires Parts() && c in chunks.members && c.item.key in View().chunks
               && View().chunks[c.item.key].addr in View().blocks
      modifies Repr()
      ensures Parts() && fresh(Repr() - old(Repr())) && space.bytes == old(space.bytes)
      ensures Listed() == old(Listed()).(chunks := old(Listed()).chunks - {c}, order := Listed().order,
                                             meta := Listed().meta)
              && Unlisted(old(Listed()).order, Listed().order, c.item.key)
      ensures View() == old(View()).(chunks := old(View()).chunks - {c.item.key},
                                     blocks := old(View()).blocks - {old(View()).chunks[c.item.key].addr})
    {
      hide Parts;
      var addr := UnlistChunk(c);
      InternalFree(addr);
    }

    method UnlistChunk(c: Entry<Chunk>) returns (addr: int)
      requires Parts() && c in chunks.members && c.item.key in View().chunks
      modifies Repr()
      ensures Parts() && fresh(Repr() - old(Repr())) && space.bytes == old(space.bytes)
              && addr == old(View()).chunks[c.item.key].addr
      ensures Listed() == old(Listed()).(chunks := old(Listed()).chunks - {c}, order := Listed().order)
              && Unlisted(old(Listed()).order, Listed().order, c.item.key)
      ensures View() == old(View()).(chunks := old(View()).chunks - {c.item.key})
    {
      hide MetaPool.Valid, ChunkPool.Valid, HugePool.Valid, BinTable.Valid;
      chunks.MemberFoot(c);
      chunks.RemoveChunk(c);
      addr := c.addr;
    }

    /** Frees the region at `ptr` of a run that has been located; fails, where the original aborts,
        exactly if no region in use starts there. */
    method FreeWithMetadata(c: Entry<Chunk>, r: Entry<Run>, i: nat, ptr: nat, ghost k: nat, ghost base: nat)
      returns (ok: bool)
      requires Parts() && WorldOk(View()) && RunFound(View(), Listed(), c, r, i, ptr, k, base) && !AtTail(View(), ptr)
      modifies Repr()
      ensures Parts() && WorldOk(View()) && fresh(Repr() - old(Repr())) && Keeps(space.bytes, old(space.bytes))
      ensures ok <==> ptr in old(View()).live
      ensures View().live == old(View()).live - {ptr} && View().huges == old(View()).huges
      ensures !ok ==> View() == old(View())
      ensures ok ==> exists s: nat :: GivenBack(old(View()), View(), c.item.key, k, i, base, s, ptr)
      ensures SameStock(old(Listed()).views, bins.views) && Listed().huges == old(Listed()).huges
              && OrderDropped(old(Listed()).order, Listed().order)
    {
      hide OrderDropped, Parts, WorldOk, RunFound, SizeOfBin, SlotReleased, AtTail, ReadsInside, RunElems, SameStock,
           LastRegion, At, BinElems, AllReleased, GivenBack;
      ghost var w, l := View(), Listed();
      NothingDropped(l.order);
      RunFoundFacts(w, l, c, r, i, ptr, k, base);
      SizeKnown(i, base);
      TailIff(w, i, base, ptr);
      var freeable;
      ghost var s;
      ok, freeable, s := ReleaseSlot(i, r, ptr);
      SlotOutcome(w, View(), l, Listed(), c, r, i, ptr, k, base, ok, freeable, s);
      if !ok {
        return;
      }
      NotAPart();
      live := live - {ptr};
      if freeable {
        ReleaseWhole(c, r, i, ptr, k, base, w, s);
      } else {
        ghost var w' := FreeRegion(w, i, base, s, ptr);
        assert View() == w';
        SlotGivenBack(w, w', l, c, r, i, ptr, k, base, s);
      }
    }

    /** Gives back the memory of a run, and the record of its chunk if nothing of the chunk is left. */
    method UnmapFromChunk(c: Entry<Chunk>, runPtr: nat, ghost k: nat)
      requires Parts() && c in chunks.members && c.item.key in View().chunks
               && View().chunks[c.item.key].addr in View().blocks
      requires LiveIn(View().chunks[c.item.key], k) && InTree(CHUNK_DEPTH, View().chunks[c.item.key].handed[k].node)
      requires runPtr == RunBase(c.item.key, CHUNK_DEPTH, View().chunks[c.item.key].handed[k].node)
      modifies Repr()
      ensures Parts() && fresh(Repr() - old(Repr()))
              && Listed() == old(Listed()).(chunks := Listed().chunks, order := Listed().order, meta := Listed().meta)
      ensures OrderDropped(old(Listed()).order, Listed().order)
      ensures var w := old(View());
              View() == w.(chunks := DropFrom(w.chunks, c.item.key, k), mapped := View().mapped,
                           blocks := if Covered(WithReleased(w.chunks[c.item.key], k).released, 1, CHUNK_DEPTH)
                                     then w.blocks - {w.chunks[c.item.key].addr} else w.blocks)
      ensures UnmapsTo(old(View()).mapped, View().mapped, runPtr,
                       RunSize(CHUNK_DEPTH, old(View()).chunks[c.item.key].handed[k].node))
      ensures Keeps(space.bytes, old(space.bytes))
    {
      hide Parts, RunBase, RunSize, Covered;
      ghost var w := View();
      var whole := UnmapRun(c, runPtr, k);
      if whole {
        DeallocateChunk(c);
        assert View().chunks == DropFrom(w.chunks, c.item.key, k);
      }
    }

    /** Gives back all that belonged to a run whose last region has been freed. */
    method ReleaseWhole(c: Entry<Chunk>, r: Entry<Run>, i: nat, ptr: nat, ghost k: nat, ghost base: nat,
                        ghost w: State, ghost s: nat)
      requires Parts() && WorldOk(w) && LastRegion(w, c, r, i, ptr, k, base, s) && c in chunks.members
      requires View() == w.(runs := DropRun(w.runs, i, base), live := w.live - {ptr})
      modifies Repr()
      ensures Parts() && WorldOk(View()) && fresh(Repr() - old(Repr())) && Keeps(space.bytes, old(space.bytes))
      ensures View().live == w.live - {ptr} && View().huges == w.huges
      ensures GivenBack(w, View(), c.item.key, k, i, base, s, ptr)
              && OrderDropped(old(Listed()).order, Listed().order)
      ensures Listed() == old(Listed()).(chunks := Listed().chunks, order := Listed().order, meta := Listed().meta)
    {
      hide Parts, WorldOk, SizeOfBin, RunBase, RunSize, Covered, At, AllReleased, LiveIn, RunIn, RunBytes, BinElems,
           GivenBack;
      LastFacts(w, c, r, i, ptr, k, base, s);
      UnmapFromChunk(c, r.item.key, k);
      ghost var mapped := View().mapped;
      InternalFree(r.addr);
      ghost var w' := ReleaseRun(w, i, base, s, ptr, c.item.key, k, mapped);
      assert View().blocks == DropBlocks(w, c.item.key, k, i, base);
      assert View().chunks == DropFrom(w.chunks, c.item.key, k);
      assert View() == w';
      RunGivenBack(w, w', c, r, i, ptr, k, base, s);
    }

    /** Unmaps a huge region, and takes its record off the list. */
    method UnmapHuge(h: Entry<Huge>, ptr: nat) returns (addr: int)
      requires Parts() && ptr in View().huges && ptr in Listed().huges && Listed().huges[ptr] == h
      modifies Repr()
      ensures Parts() && fresh(Repr() - old(Repr())) && Listed() == old(Listed()) && addr == old(View()).huges[ptr].addr
      ensures View() == old(View()).(huges := old(View()).huges - {ptr}, mapped := View().mapped)
      ensures UnmapsTo(old(View()).mapped, View().mapped, ptr, old(View()).huges[ptr].len)
              && Keeps(space.bytes, old(space.bytes))
    {
      hide MetaPool.Valid, ChunkPool.Valid, HugePool.Valid, BinTable.Valid, RunsOf;
      huges.Indexed(ptr, h);
      ghost var before := space.bytes;
      space.Unmap(h.key, h.item.len);
      MappedKeys(before, space.bytes, ptr, huges.table[ptr].len);
      huges.Remove(h);
      addr := h.addr;
    }

    method DeallocateHuge(h: Entry<Huge>, ptr: nat)
      requires Parts() && WorldOk(View()) && MappingFound(View(), Listed(), h, ptr)
      modifies Repr()
      ensures Parts() && WorldOk(View()) && fresh(Repr() - old(Repr())) && Keeps(space.bytes, old(space.bytes))
      ensures View().live == old(View()).live - {ptr} && Listed() == old(Listed()).(meta := Listed().meta)
      ensures OneCall(old(View()), View()) && View().mapped <= old(View()).mapped
              && View().chunks == old(View()).chunks
    {
      hide Parts, WorldOk;
      ghost var w := View();
      HugeBlock(w, ptr);
      var addr := UnmapHuge(h, ptr);
      InternalFree(addr);
      NotAPart();
      live := live - {ptr};
      ghost var w' := DropHuge(w, ptr, View().mapped);
      assert View() == w';
      MappingLasts(w, w', ptr);
    }

    /** Frees the region in use that starts at `ptr`, and touches no other; fails, where the
        original aborts, exactly if there is none. */
    method Free(ptr: nat) returns (ok: bool)
      requires Ready() && (ptr != 0 ==> !AtTail(View(), ptr))
      modifies Repr()
      ensures Ready() && fresh(Repr() - old(Repr())) && Keeps(space.bytes, old(space.bytes))
      ensures ok <==> ptr == 0 || ptr in old(live)
      ensures live == old(live) - {ptr} && 0 !in live
      ensures OneCall(old(View()), View())
    {
      hide Parts, WorldOk, RunFound, Warm, SameStock, AtTail, MappingFound, OneCall, GivenBack;
      ghost var w := View();
      LiveNotNull(w);
      NothingDone(w);
      if ptr == 0 {
        return true;
      }
      var m;
      ghost var k, base;
      m, k, base := Locate(ptr);
      match m
      case NotFound =>
        return false;
      case InMapping(h) =>
        MappingLive(View(), Listed(), h, ptr);
        DeallocateHuge(h, ptr);
        ok := true;
      case InRun(c, r, i) =>
        ghost var views := bins.views;
        ok := FreeWithMetadata(c, r, i, ptr, k, base);
        StockWarm(views, bins.views);
        if ok {
          ghost var s: nat :| GivenBack(w, View(), c.item.key, k, i, base, s, ptr);
          GivenBackLasts(w, View(), c.item.key, k, i, base, s, ptr);
        }
    }

    // ---- Reallocation ---------------------------------------------------------------------

    /** Tells whether a region in use starts at a pointer that has been located in a run. */
    method Validate(c: Entry<Chunk>, r: Entry<Run>, i: nat, ptr: nat, ghost k: nat, ghost base: nat) returns (ok: bool)
      requires Parts() && WorldOk(View()) && RunFound(View(), Listed(), c, r, i, ptr, k, base) && !AtTail(View(), ptr)
      ensures ok <==> ptr in View().live
    {
      hide Parts, WorldOk, RunFound, SizeOfBin, AtTail, ReadsInside, RunElems, BinElems;
      RunFoundFacts(View(), Listed(), c, r, i, ptr, k, base);
      SizeKnown(i, base);
      TailIff(View(), i, base, ptr);
      ok := ValidateSlot(i, r, ptr);
      assert View().runs[i] == bins.views[i].runs;
      HeldIsLive(View(), Listed(), c, r, i, ptr, k, base);
    }

    method ValidateSlot(i: nat, r: Entry<Run>, ptr: nat) returns (ok: bool)
      requires Parts() && i < |bins.views| == ARENA_NO_BINS && r in bins.views[i].members
               && r.item.key in bins.views[i].runs
      requires r.item.key <= ptr && bins.views[i].size == SizeOfBin(i) > 0
      requires ReadsInside(ptr - r.item.key, bins.views[i].size, RunElems(bins.views[i].size))
      ensures ok <==> exists s: nat :: Held(bins.views[i].runs, SizeOfBin(i), BinElems(i), r.item.key, ptr, s)
    {
      hide MetaPool.Valid, ChunkPool.Valid, HugePool.Valid, BinTable.Valid, Held, SizeOfBin, RunElems;
      bins.MemberFacts(i, r);
      assert BinElems(i) == RunElems(bins.views[i].size) && r.key == r.item.key;
      ok := bins.ValidateRegion(i, r, ptr);
    }

    /** Copies the first bytes of one region in use to another. */
    method CopyRegion(dst: nat, src: nat, n: nat)
      requires Parts() && WorldOk(View()) && dst in live && src in live && dst != src && n <= live[dst]
               && n <= live[src]
      modifies Repr()
      ensures Parts() && fresh(Repr() - old(Repr())) && View() == old(View()) && Listed() == old(Listed())
      ensures Copied(old(space.bytes), space.bytes, dst, src, n)
    {
      hide MetaPool.Valid, ChunkPool.Valid, HugePool.Valid, BinTable.Valid, WorldOk, RunsOf, Copied, HasRange;
      LiveRange(View(), space.bytes, dst, src, n);
      ghost var before := space.bytes;
      space.Copy(dst, src, n);
      CopiedKeys(before, space.bytes, dst, src, n);
    }

    /** Maps memory for the new size of a huge region, copies what fits, and unmaps the old memory. */
    method MoveBytes(h: Entry<Huge>, ptr: nat, newSize: nat)
      returns (ptr': nat, ghost b1: map<nat, bv8>, ghost b2: map<nat, bv8>)
      requires Parts() && WorldOk(View()) && MappingFound(View(), Listed(), h, ptr) && newSize > LARGE_SIZE_MAX_REGION
      modifies Repr()
      ensures Parts() && fresh(Repr() - old(Repr())) && Listed() == old(Listed())
      ensures View() == old(View()).(mapped := View().mapped)
      ensures Mapped(old(space.bytes), b1, ptr', newSize)
      ensures var len := old(View()).huges[ptr].len;
              Copied(b1, b2, ptr', ptr, Min(len, newSize)) && Unmapped(b2, space.bytes, ptr, len)
    {
      hide MetaPool.Valid, ChunkPool.Valid, HugePool.Valid, BinTable.Valid, RunsOf, WorldOk, Mapped, Copied,
           Unmapped, HasRange;
      huges.Indexed(ptr, h);
      OldRange(View(), space.bytes, ptr);
      ghost var b0 := space.bytes;
      ptr' := space.Map(newSize);
      b1 := space.bytes;
      ApartFromOld(b0, b1, ptr, h.item.len, ptr', newSize);
      if h.item.len > newSize {
        space.Copy(ptr', h.key, newSize);
      } else {
        space.Copy(ptr', h.key, h.item.len);
      }
      b2 := space.bytes;
      space.Unmap(h.key, h.item.len);
    }

    method ReplaceHuge(h: Entry<Huge>, ptr: nat, ptr': nat, newSize: nat)
      requires Parts() && ptr in View().huges && ptr in Listed().huges && Listed().huges[ptr] == h
               && ptr' !in View().huges
      modifies Repr()
      ensures Parts() && fresh(Repr() - old(Repr())) && Listed() == old(Listed()).(huges := Listed().huges)
              && space.bytes == old(space.bytes)
      ensures View() ==
                old(View()).(huges := PutHuge(old(View()).huges - {ptr}, ptr', old(View()).huges[ptr].addr, newSize))
    {
      hide MetaPool.Valid, ChunkPool.Valid, HugePool.Valid, BinTable.Valid, RunsOf;
      huges.Indexed(ptr, h);
      huges.Replace(h, ptr', newSize);
    }

    /** Moves a huge region to a mapping of another size; its record is kept. */
    method ReallocateHuge(h: Entry<Huge>, ptr: nat, newSize: nat) returns (ptr': nat)
      requires Parts() && WorldOk(View()) && MappingFound(View(), Listed(), h, ptr)
      requires newSize > LARGE_SIZE_MAX_REGION && newSize % PAGE_SIZE == 0
      modifies Repr()
      ensures Parts() && WorldOk(View()) && fresh(Repr() - old(Repr()))
      ensures Listed() == old(Listed()).(huges := Listed().huges)
      ensures ptr' !in old(live) && live == (old(live) - {ptr})[ptr' := newSize]
      ensures OneCall(old(View()), View())
      ensures Reallocated(old(live), live, old(space.bytes), space.bytes, ptr, ptr', newSize)
    {
      hide Parts, WorldOk, Mapped, Copied, Unmapped, Reallocated, OneCall;
      ghost var w, b0, b1, b2 := View(), space.bytes, map[], map[];
      ptr', b1, b2 := MoveBytes(h, ptr, newSize);
      ghost var b3, n := space.bytes, Min(w.huges[ptr].len, newSize);
      MappedKeys(b0, b1, ptr', newSize);
      CopiedKeys(b1, b2, ptr', ptr, n);
      MappedKeys(b2, b3, ptr, w.huges[ptr].len);
      ghost var w' := MoveHuge(w, ptr, ptr', newSize, b1.Keys, b3.Keys);
      ReplaceHuge(h, ptr, ptr', newSize);
      NotAPart();
      live := (live - {ptr})[ptr' := newSize];
      assert View() == w';
      MoveLasts(w, w', ptr, ptr', newSize, b1.Keys);
      MovedContents(w, w', b0, b1, b2, b3, ptr, ptr', newSize, n);
    }

    /** Reallocation of a huge region, to a size that has been rounded up to pages. */
    method ReallocHuge(h: Entry<Huge>, ptr: nat, newSize: nat) returns (ptr': nat)
      requires Ready() && MappingFound(View(), Listed(), h, ptr) && newSize % PAGE_SIZE == 0 && newSize <= MAX_REQUEST
      modifies Repr()
      ensures Ready() && fresh(Repr() - old(Repr()))
      ensures ptr' !in old(live) && live == (old(live) - {ptr})[ptr' := UsableSize(newSize)]
      ensures Reallocated(old(live), live, old(space.bytes), space.bytes, ptr, ptr', newSize)
      ensures ReallocServed(old(Listed()), Listed(), View().chunks, live[ptr'])
      ensures OneCall(old(View()), View())
    {
      hide RequestServed, ReallocServed, HandedSame, OrderDropped, IsSizeFor, ServedFrom, Parts, WorldOk,
           Reallocated, Warm, Keeps, Copied, OneCall;
      ghost var w, b0 := View(), space.bytes;
      WarmCount(bins.views);
      MappingSize(w, Listed(), h, ptr);
      UsableHuge(newSize);
      if IsHuge(newSize) {
        ghost var l0 := Listed();
        ptr' := ReallocateHuge(h, ptr, newSize);
        NothingServed(l0, Listed(), View().chunks, newSize);
        return;
      }
      ghost var l := Listed();
      ptr' := Malloc(newSize);
      ghost var w1, b1 := View(), space.bytes;
      CopyRegion(ptr', ptr, newSize);
      ghost var b2 := space.bytes;
      ghost var l1 := Listed();
      DeallocateHuge(h, ptr);
      ThenSame(l, l1, Listed(), w1.chunks, UsableSize(newSize));
      assert live == (w.live - {ptr})[ptr' := UsableSize(newSize)];
      ThenGivesBack(w, w1, View());
      NewApart(w, w1, ptr', newSize);
      CopyContents(w, View(), b0, b1, b2, space.bytes, ptr, ptr', UsableSize(newSize), newSize, newSize);
    }

    /** The new region for a reallocation, and the number of bytes to copy to it. */
    method AllocateFor(newSize: nat, oldSize: nat) returns (ptr': nat, n: nat)
      requires Ready() && 1 <= newSize <= MAX_REQUEST && oldSize <= LARGE_SIZE_MAX_REGION
      modifies Repr()
      ensures Ready() && fresh(Repr() - old(Repr())) && Keeps(old(space.bytes), space.bytes)
      ensures ptr' !in old(live) && live == old(live)[ptr' := UsableSize(newSize)]
      ensures WorldGrown(old(View()), View()) && RunsStill(old(Listed()), Listed())
      ensures n == Min(oldSize, UsableSize(newSize))
      ensures RequestServed(old(Listed()), Listed(), View().chunks, UsableSize(newSize))
    {
      hide MetaGrown, ServedFrom, Parts, WorldOk, Warm, Keeps, StillListed, ClassFor, WorldGrown;
      ghost var w, l := View(), Listed();
      UsableHugeIff(newSize);
      WarmCount(l.views);
      if IsHuge(newSize) {
        PageAligned(newSize);
        ptr' := AllocateHuge(AlignUpPage(newSize));
        n := oldSize;
      } else {
        var newRegSize := RoundToClass(newSize);
        ptr' := AllocateRegular(newSize);
        n := if newRegSize > oldSize then oldSize else newRegSize;
        RunsListed(l, Listed());
      }
    }

    /** Copies the first bytes of a region of a run to another region, and frees the first. */
    method MoveRegion(c: Entry<Chunk>, r: Entry<Run>, i: nat, ptr: nat, ptr': nat, n: nat, ghost k: nat,
                      ghost base: nat)
      returns (ghost copied: map<nat, bv8>)
      requires Parts() && WorldOk(View()) && RunFound(View(), Listed(), c, r, i, ptr, k, base)
      requires ptr in live && ptr' in live && ptr' != ptr && n <= live[ptr] && n <= live[ptr']
      modifies Repr()
      ensures Parts() && WorldOk(View()) && fresh(Repr() - old(Repr())) && View().live == old(View()).live - {ptr}
      ensures SameStock(old(Listed()).views, bins.views)
      ensures OneCall(old(View()), View()) && View().mapped <= old(View()).mapped
      ensures HandedSame(old(View()).chunks, View().chunks) && OrderDropped(old(Listed()).order, Listed().order)
      ensures Copied(old(space.bytes), copied, ptr', ptr, n) && Keeps(space.bytes, copied)
    {
      hide Parts, WorldOk, RunFound, AtTail, SameStock, Copied, Keeps, OneCall, GivenBack;
      ghost var w := View();
      CopyRegion(ptr', ptr, n);
      copied := space.bytes;
      LiveNotAtTail(View(), ptr);
      var ok := FreeWithMetadata(c, r, i, ptr, k, base);
      ghost var s: nat :| GivenBack(w, View(), c.item.key, k, i, base, s, ptr);
      GivenBackLasts(w, View(), c.item.key, k, i, base, s, ptr);
      GivenBackHanded(w, View(), c.item.key, k, i, base, s, ptr);
    }

    /** Reallocation of a region of a run. */
    method ReallocRun(c: Entry<Chunk>, r: Entry<Run>, i: nat, ptr: nat, newSize: nat, ghost k: nat, ghost base: nat)
      returns (ptr': nat)
      requires Ready() && RunFound(View(), Listed(), c, r, i, ptr, k, base) && ptr in View().live
               && 1 <= newSize <= MAX_REQUEST
      modifies Repr()
      ensures Ready() && fresh(Repr() - old(Repr()))
      ensures ptr' !in old(live) && live == (old(live) - {ptr})[ptr' := UsableSize(newSize)]
      ensures Reallocated(old(live), live, old(space.bytes), space.bytes, ptr, ptr',
                          UsableSize(newSize))
      ensures ReallocServed(old(Listed()), Listed(), View().chunks, live[ptr'])
      ensures OneCall(old(View()), View())
    {
      hide RequestServed, ReallocServed, HandedSame, OrderDropped, OneCall, UsableSize, Stocked, RunSize, Parts,
           WorldOk, Reallocated, Warm, Keeps, Copied, RunFound, SizeOfBin, RunsStill, AtTail, SameStock, IsClass,
           RunElems, RunPages, WorldGrown;
      ghost var w, l, b0 := View(), Listed(), space.bytes;
      RunSizeIs(w, l, c, r, i, ptr, k, base);
      SizeKnown(i, base);
      var oldSize, oldRun, oldElems := BinSizes(i);
      ClassUnits(oldSize);
      var n;
      ptr', n := AllocateFor(newSize, oldSize);
      ghost var w1, l1, b1, views := View(), Listed(), space.bytes, bins.views;
      MemberStill(l, l1, c, i, r);
      StillInRun(w, w1, l, l1, c, r, i, ptr, k, base);
      ghost var b2 := MoveRegion(c, r, i, ptr, ptr', n, k, base);
      ThenDropped(l, l1, Listed(), w1.chunks, View().chunks, UsableSize(newSize));
      StockWarm(views, bins.views);
      assert live == (w.live - {ptr})[ptr' := UsableSize(newSize)];
      HandingOut(w, w1, ptr');
      ThenGivesBack(w, w1, View());
      NewApart(w, w1, ptr', n);
      CopyContents(w, View(), b0, b1, b2, space.bytes, ptr, ptr', UsableSize(newSize), UsableSize(newSize), n);
    }

    /** The size to serve a reallocation of a region of a run with; none where the original divides by zero. */
    method SizeToServe(newSize: nat) returns (r: Option<nat>)
      requires Parts() && |bins.views| == ARENA_NO_BINS
      ensures r.None? <==> newSize == 0 && bins.views[ZERO_BIN].size == 0
      ensures r.Some? ==>
                r.value == ServedSize(newSize, false) >= 1 && (newSize <= MAX_REQUEST ==> r.value <= MAX_REQUEST)
    {
      hide MetaPool.Valid, ChunkPool.Valid, HugePool.Valid, BinTable.Valid;
      if newSize > 0 {
        return Some(newSize);
      }
      var i := bins.GetZeroBin();
      if i.None? {
        return None;
      }
      r := Some(LARGE_SIZE_MIN_REGION);
    }

    /** Reallocation of whatever a pointer into a run stands for. */
    method ReallocSlot(c: Entry<Chunk>, run: Entry<Run>, i: nat, oldPtr: nat, newSize: nat, ghost k: nat,
                       ghost base: nat)
      returns (r: Option<nat>)
      requires Ready() && RunFound(View(), Listed(), c, run, i, oldPtr, k, base) && !AtTail(View(), oldPtr)
      requires newSize < WORD_LIMIT && (newSize <= MAX_REQUEST || oldPtr !in live)
      modifies Repr()
      ensures Ready() && fresh(Repr() - old(Repr())) && OneCall(old(View()), View()) && oldPtr !in old(View()).huges
      ensures r.None? <==> oldPtr !in old(live) || (newSize == 0 && old(bins.views)[ZERO_BIN].size == 0)
      ensures r.None? ==> live == old(live) && space.bytes == old(space.bytes)
      ensures r.Some? ==> r.value !in old(live) && r.value > 0
      ensures r.Some? ==> live == (old(live) - {oldPtr})[r.value := UsableSize(ServedSize(newSize, false))]
      ensures r.Some? ==> Reallocated(old(live), live, old(space.bytes), space.bytes, oldPtr, r.value, live[r.value])
      ensures r.Some? ==> IsNewSize(newSize, false, live[r.value])
      ensures r.Some? ==> ReallocServed(old(Listed()), Listed(), View().chunks, live[r.value])
    {
      hide RequestServed, ReallocServed, Parts, WorldOk, RunFound, Warm, AtTail, Reallocated, UsableSize, OneCall,
           IsNewSize;
      NothingDone(View());
      WarmCount(bins.views);
      RunNotHuge(View(), Listed(), c, run, i, oldPtr, k, base);
      var ok := Validate(c, run, i, oldPtr, k, base);
      if !ok {
        return None;
      }
      var size := SizeToServe(newSize);
      if size.None? {
        return None;
      }
      ServedIsNewSize(newSize, false);
      var p := ReallocRun(c, run, i, oldPtr, size.value, k, base);
      LivePointers(p);
      r := Some(p);
    }

    /** Gives the region in use that starts at `oldPtr` another size: the old pointer is dead, the
        new region starts with the bytes of the old one, and no other region in use changes. Fails
        exactly if no region in use starts there, where the original aborts, or if a region of a run
        shall get size 0 before any region of the least large class has been asked for, where the
        original divides by zero. */
    method Realloc(oldPtr: nat, newSize: nat) returns (r: Option<nat>)
      requires Ready() && (oldPtr != 0 ==> !AtTail(View(), oldPtr)) && newSize < WORD_LIMIT
      requires newSize <= MAX_REQUEST || (oldPtr != 0 && (oldPtr in View().huges || oldPtr !in live))
      modifies Repr()
      ensures Ready() && fresh(Repr() - old(Repr()))
      ensures r.None? <==> oldPtr != 0 && (oldPtr !in old(live) ||
                             (newSize == 0 && oldPtr !in old(View()).huges && old(bins.views)[ZERO_BIN].size == 0))
      ensures r.None? ==> live == old(live) && space.bytes == old(space.bytes)
      ensures r.Some? ==> r.value !in old(live) && r.value > 0
      ensures OneCall(old(View()), View())
      ensures oldPtr == 0 ==> live == old(live)[r.value := UsableSize(newSize)] && Keeps(old(space.bytes), space.bytes)
                              && IsSizeFor(newSize, live[r.value])
      ensures oldPtr != 0 && r.Some? ==>
                var size := ServedSize(newSize, oldPtr in old(View()).huges);
                && live == (old(live) - {oldPtr})[r.value := UsableSize(size)]
                && Reallocated(old(live), live, old(space.bytes), space.bytes, oldPtr, r.value,
                               if oldPtr in old(View()).huges then size else live[r.value])
      ensures oldPtr != 0 && r.Some? ==> IsNewSize(newSize, oldPtr in old(View()).huges, live[r.value])
      ensures r.Some? ==> if oldPtr == 0 then RequestServed(old(Listed()), Listed(), View().chunks, live[r.value])
                          else ReallocServed(old(Listed()), Listed(), View().chunks, live[r.value])
    {
      hide RequestServed, ReallocServed, ServedFrom, Parts, WorldOk, RunFound, Warm, AtTail, MappingFound,
           Reallocated, Keeps, UsableSize, OneCall, IsSizeFor, IsNewSize;
      ghost var w := View();
      NothingDone(w);
      WarmCount(bins.views);
      if oldPtr == 0 {
        var p := Malloc(newSize);
        return Some(p);
      }
      var m;
      ghost var k, base;
      m, k, base := Locate(oldPtr);
      match m
      case NotFound =>
        r := None;
      case InMapping(h) =>
        MappingSize(w, Listed(), h, oldPtr);
        PageAligned(newSize);
        ServedIsNewSize(newSize, true);
        var p := ReallocHuge(h, oldPtr, AlignUpPage(newSize));
        LivePointers(p);
        r := Some(p);
      case InRun(c, run, i) =>
        RunNotHuge(w, Listed(), c, run, i, oldPtr, k, base);
        r := ReallocSlot(c, run, i, oldPtr, newSize, k, base);
    }

    method ClearRegion(ptr: nat, n: nat)
      requires Parts() && WorldOk(View()) && ptr in live && n <= live[ptr]
      modifies Repr()
      ensures Parts() && fresh(Repr() - old(Repr())) && View() == old(View()) && Listed() == old(Listed())
      ensures forall a :: a in space.bytes ==>
                a in old(space.bytes) && space.bytes[a] == if In(a, ptr, n) then 0 else old(space.bytes)[a]
    {
      hide MetaPool.Valid, ChunkPool.Valid, HugePool.Valid, BinTable.Valid, WorldOk, RunsOf, HasRange;
      OneRange(View(), space.bytes, ptr, n);
      space.Clear(ptr, n);
    }

    /** Memory for an array, filled with zero bytes; the number of its bytes is taken as a word. */
    method Calloc(nmemb: nat, size: nat) returns (ptr: nat)
      requires Ready() && nmemb < WORD_LIMIT && size < WORD_LIMIT && Product(nmemb, size) <= MAX_REQUEST
      modifies Repr()
      ensures Ready() && fresh(Repr() - old(Repr()))
      ensures nmemb == 0 || size == 0 ==> ptr == 0 && live == old(live) && space.bytes == old(space.bytes)
      ensures nmemb != 0 && size != 0 ==>
                && ptr > 0 && ptr !in old(live) && live == old(live)[ptr := UsableSize(Product(nmemb, size))]
                && ArrayServed(nmemb, size, ptr, live[ptr], old(space.bytes), space.bytes)
                && RequestServed(old(Listed()), Listed(), View().chunks, live[ptr])
                && (forall q, a: nat :: q in old(live) && In(a, q, old(live)[q]) ==>
                      a in old(space.bytes) && a in space.bytes && space.bytes[a] == old(space.bytes)[a])
      ensures OneCall(old(View()), View())
    {
      hide RequestServed, ServedFrom, Parts, WorldOk, Warm, Keeps, UsableSize, Product, OneCall, IsSizeFor,
           ArrayServed;
      NothingDone(View());
      if nmemb == 0 || size == 0 {
        return 0;
      }
      var n := Product(nmemb, size);
      ghost var w, b0 := View(), space.bytes;
      ptr := Malloc(n);
      ghost var w1, b1 := View(), space.bytes;
      ClearRegion(ptr, n);
      ClearedContents(w, w1, b0, b1, space.bytes, ptr, n);
      ServesArray(nmemb, size, n, ptr, live[ptr], b0, space.bytes);
    }

    /** A listed run is known to its bin. */
    lemma MemberStill(l: Lists, l1: Lists, c: Entry<Chunk>, i: nat, r: Entry<Run>)
      requires Parts() && l1 == Listed() && RunsStill(l, l1) && i < |l.views| && c in l.chunks
               && r in l.views[i].members
      ensures c in l1.chunks && i < |l1.views| == ARENA_NO_BINS && r in l1.views[i].members
      ensures r.item.key in l1.views[i].runs && r.addr == l1.views[i].runs[r.item.key].addr
    {
      hide MetaPool.Valid, ChunkPool.Valid, HugePool.Valid, BinTable.Valid;
      bins.MemberFacts(i, r);
    }
  }

  /** A region that is freed is not handed out again, in whole or in part, where it is still mapped. */
  method FreeBetween(arena: Arena, n: nat, m: nat) returns (p: nat, q: nat, ghost mapped: set<nat>)
    requires arena.Ready() && n <= MAX_REQUEST && m <= MAX_REQUEST
    modifies arena.Repr()
    ensures arena.Ready() && arena.live == old(arena.live)[q := UsableSize(m)]
    ensures forall a: nat :: In(a, p, UsableSize(n)) && In(a, q, UsableSize(m)) ==> a !in mapped
  {
    hide RequestServed, ServedFrom, IsSizeFor, Arena.Parts, WorldOk, Warm, AtTail, OneCall, UsableSize;
    ghost var w0 := arena.View();
    p := arena.Malloc(n);
    ghost var w1 := arena.View();
    LiveNotAtTail(w1, p);
    var ok := arena.Free(p);
    ghost var w2 := arena.View();
    mapped := w2.mapped;
    q := arena.Malloc(m);
    NotAgain(w0, w1, w2, arena.View(), p, q);
    assert forall a :: In(a, p, UsableSize(n)) ==> HandsOut(w0, w1, p, a);
    assert forall a :: In(a, q, UsableSize(m)) ==> HandsOut(w2, arena.View(), q, a);
  }

  /** The record of a run that has just been set up. */
  method MakeRun(base: nat, addr: int, regSize: nat, elems: nat, genDraw: nat, startDraw: nat) returns (e: Entry<Run>)
    requires IsClass(regSize) && regSize > 0 && elems == RunElems(regSize)
    ensures fresh(e) && fresh(RunFoot(e.item)) && e.item.Valid() && e.key == e.item.key == base && e.addr == addr
    ensures e.item.regSize == regSize && e.item.elems == elems && e.item.navail == elems && e.fd == null && e.bk == null
    ensures forall k :: 0 <= k < |e.item.bitmap.items| ==> e.item.bitmap.items[k] == STATE_FREE
    ensures e.item.Drawn(genDraw, startDraw)
  {
    hide RunElems, Run.Valid, IsClass, Run.Drawn;
    SmallRecord(regSize);
    var run := new Run(base, regSize, elems, genDraw, startDraw);
    e := new Entry(base, addr, run);
  }

  /** The parts of an arena before its first use. */
  method EmptyParts() returns (s: AddressSpace, m: MetaPool, c: ChunkPool, h: HugePool, t: BinTable)
    ensures m.Valid() && c.Valid() && h.Valid() && t.Valid()
    ensures {m, m.list} <= m.Repr && {c, c.list} <= c.Repr && {h, h.list} <= h.Repr && t in t.Repr
    ensures fresh(s) && fresh(m.Repr) && fresh(c.Repr) && fresh(h.Repr) && fresh(t.Repr)
    ensures s !in m.Repr && s !in c.Repr && s !in h.Repr && s !in t.Repr
    ensures m.Repr !! c.Repr && m.Repr !! h.Repr && m.Repr !! t.Repr && c.Repr !! h.Repr && c.Repr !! t.Repr
            && h.Repr !! t.Repr
    ensures s.bytes == map[] && m.table == map[] && m.blocks == map[] && c.table == map[] && h.table == map[]
    ensures |t.views| == ARENA_NO_BINS && forall i :: 0 <= i < ARENA_NO_BINS ==> t.views[i] == BinView(0, 0, map[], {})
  {
    hide MetaPool.Valid, ChunkPool.Valid, HugePool.Valid, BinTable.Valid;
    s := new AddressSpace();
    m := new MetaPool();
    c := new ChunkPool();
    h := new HugePool();
    t := new BinTable();
  }
}
