/** What the whole allocator keeps: who owns each byte of memory and each metadata block, and which
    regions are in use. */
module World {
  import opened TreeIndex
  import opened Utils
  import opened PackedStates
  import opened ChunkSpec
  import opened ChunkTree
  import opened Chunks
  import opened ChunkTheorems
  import opened ChunkPools
  import opened SizeClass
  import opened Runs
  import opened Bins
  import opened BinTables
  import opened HugePools
  import opened MetaPools
  import opened AddressSpaces
  import MetaFree

  type ChunkTable = map<nat, ChunkView>
  type HugeTable = map<nat, HugeView>

  // ---- Memory -----------------------------------------------------------------------------

  datatype Owner = ChunkMemory(key: nat) | HugeMemory(key: nat) | MetaMemory(base: nat)

  /** Address `a` belongs to the memory of node `x`. */
  ghost predicate InRun(key: nat, x: nat, a: nat) {
    InTree(CHUNK_DEPTH, x) && RunBase(key, CHUNK_DEPTH, x) <= a < RunBase(key, CHUNK_DEPTH, x) + RunSize(CHUNK_DEPTH, x)
  }

  /** A chunk owns its memory, except for the runs that have been released. */
  ghost predicate ChunkOwns(key: nat, v: ChunkView, a: nat) {
    In(a, key, CHUNK_SIZE) && forall x :: x in v.released ==> !InRun(key, x, a)
  }

  ghost predicate Owns(chunks: ChunkTable, huges: HugeTable, arenas: set<nat>, o: Owner, a: nat) {
    match o
    case ChunkMemory(key) => key in chunks && ChunkOwns(key, chunks[key], a)
    case HugeMemory(key) => key in huges && In(a, key, huges[key].len)
    case MetaMemory(base) => base in arenas && In(a, base, META_MAP)
  }

  /** Exactly the mapped bytes have an owner, and none has two; nothing is mapped at address 0. */
  ghost predicate MemoryOk(chunks: ChunkTable, huges: HugeTable, arenas: set<nat>, mapped: set<nat>) {
    && 0 !in mapped
    && (forall o, a :: Owns(chunks, huges, arenas, o, a) ==> a in mapped)
    && (forall a :: a in mapped ==> exists o :: Owns(chunks, huges, arenas, o, a))
    && (forall o, q, a :: Owns(chunks, huges, arenas, o, a) && Owns(chunks, huges, arenas, q, a) ==> o == q)
  }

  ghost predicate ChunksFine(chunks: ChunkTable) {
    forall key :: key in chunks ==>
      && key % PAGE_SIZE == 0
      && HandedOk(CHUNK_DEPTH, chunks[key].handed) && chunks[key].released <= Nodes(chunks[key].handed)
      && !Covered(chunks[key].released, 1, CHUNK_DEPTH)
  }

  /** A new mapping gets a new owner. */
  lemma MemoryAdd(chunks: ChunkTable, huges: HugeTable, arenas: set<nat>, mapped: set<nat>,
                  chunks': ChunkTable, huges': HugeTable, arenas': set<nat>, mapped': set<nat>,
                  o: Owner, base: nat, len: nat)
    requires MemoryOk(chunks, huges, arenas, mapped) && base > 0
    requires forall a: nat :: In(a, base, len) ==> a !in mapped
    requires forall a :: a in mapped' <==> a in mapped || In(a, base, len)
    requires forall q, a :: Owns(chunks', huges', arenas', q, a) <==>
               Owns(chunks, huges, arenas, q, a) || (q == o && In(a, base, len))
    ensures MemoryOk(chunks', huges', arenas', mapped')
  {
    hide Owns;
    forall a | a in mapped'
      ensures exists q :: Owns(chunks', huges', arenas', q, a)
    {
      if In(a, base, len) {
        assert Owns(chunks', huges', arenas', o, a);
      } else {
        var q :| Owns(chunks, huges, arenas, q, a);
        assert Owns(chunks', huges', arenas', q, a);
      }
    }
  }

  /** An unmapped range loses its owner. */
  lemma MemoryRemove(chunks: ChunkTable, huges: HugeTable, arenas: set<nat>, mapped: set<nat>,
                     chunks': ChunkTable, huges': HugeTable, arenas': set<nat>, mapped': set<nat>, base: nat, len: nat)
    requires MemoryOk(chunks, huges, arenas, mapped)
    requires forall a :: a in mapped' <==> a in mapped && !In(a, base, len)
    requires forall q, a :: Owns(chunks', huges', arenas', q, a) <==>
               Owns(chunks, huges, arenas, q, a) && !In(a, base, len)
    ensures MemoryOk(chunks', huges', arenas', mapped')
  {
    hide Owns;
    forall a | a in mapped'
      ensures exists q :: Owns(chunks', huges', arenas', q, a)
    {
      var q :| Owns(chunks, huges, arenas, q, a);
      assert Owns(chunks', huges', arenas', q, a);
    }
  }

  // ---- Geometry of chunks -----------------------------------------------------------------

  /** The memory of a node contains the memory of the nodes below it. */
  lemma RunNested(key: nat, x: nat, y: nat, a: nat)
    requires InTree(CHUNK_DEPTH, y) && Under(x, y) && InRun(key, x, a)
    ensures InRun(key, y, a)
  {
    hide Pow2, Under, Height;
    MetaFree.Nested(CHUNK_DEPTH, x, y);
  }

  /** A byte lies in the memory of related nodes only. */
  lemma RunsRelated(key: nat, x: nat, y: nat, a: nat)
    requires InRun(key, x, a) && InRun(key, y, a)
    ensures Under(x, y) || Under(y, x)
  {
    hide RunBase, RunSize;
    if !Under(x, y) && !Under(y, x) {
      UnrelatedDisjoint(key, CHUNK_DEPTH, x, y);
    }
  }

  /** The leaf to which an address of the chunk belongs. */
  lemma LeafAt(key: nat, a: nat) returns (leaf: nat)
    requires In(a, key, CHUNK_SIZE)
    ensures OnLevel(leaf, CHUNK_DEPTH) && InRun(key, leaf, a)
  {
    leaf := 2048 + (a - key) / LEAF_SIZE;
    Pow2Values();
    assert Pow2(0) == 1;
    HeightInTree(CHUNK_DEPTH, leaf);
  }

  lemma LeafRange(key: nat, leaf: nat)
    requires OnLevel(leaf, CHUNK_DEPTH)
    ensures var a := key + LEAF_SIZE * (leaf - 2048); leaf >= 2048 && InRun(key, leaf, a) && In(a, key, CHUNK_SIZE)
    ensures leaf >= 1 && Level(leaf) == CHUNK_DEPTH
  {
    Pow2Values();
    assert Pow2(0) == 1;
    LevelUnique(leaf, CHUNK_DEPTH);
    HeightInTree(CHUNK_DEPTH, leaf);
  }

  /** Of a chunk that has been released as a whole nothing is left. */
  lemma CoveredOwnsNothing(key: nat, v: ChunkView, a: nat)
    requires HandedOk(CHUNK_DEPTH, v.handed) && v.released <= Nodes(v.handed) && Covered(v.released, 1, CHUNK_DEPTH)
    ensures !ChunkOwns(key, v, a)
  {
    hide InRun, Covered, Pow2, Under;
    if In(a, key, CHUNK_SIZE) {
      WholeReleased(v.handed, v.released, CHUNK_DEPTH);
      HandedAntichain(CHUNK_DEPTH, v.handed);
      var leaf := LeafAt(key, a);
      assert LeafReleased(v.released, leaf);
      var x :| x in v.released && Under(leaf, x);
      RunNested(key, leaf, x, a);
    }
  }

  /** Of any other chunk something is left. */
  lemma NotCoveredOwns(key: nat, v: ChunkView) returns (a: nat)
    requires HandedOk(CHUNK_DEPTH, v.handed) && v.released <= Nodes(v.handed) && !Covered(v.released, 1, CHUNK_DEPTH)
    ensures ChunkOwns(key, v, a)
  {
    hide InRun, Covered, Pow2;
    WholeReleased(v.handed, v.released, CHUNK_DEPTH);
    HandedAntichain(CHUNK_DEPTH, v.handed);
    var leaf: nat :| OnLevel(leaf, CHUNK_DEPTH) && !LeafReleased(v.released, leaf);
    LeafRange(key, leaf);
    a := key + LEAF_SIZE * (leaf - 2048);
    forall x | x in v.released
      ensures !InRun(key, x, a)
    {
      if InRun(key, x, a) {
        RunsRelated(key, leaf, x, a);
        LeafBelow(x, leaf);
      }
    }
  }

  lemma LeafBelow(x: nat, leaf: nat)
    requires InTree(CHUNK_DEPTH, x) && leaf >= 1 && Level(leaf) == CHUNK_DEPTH && (Under(x, leaf) || Under(leaf, x))
    ensures Under(leaf, x)
  {
    HeightInTree(CHUNK_DEPTH, x);
    if Under(x, leaf) && x != leaf {
      UnderLevel(x, leaf);
    }
    assert Under(leaf, leaf);
  }

  // ---- Runs -------------------------------------------------------------------------------

  /** Bytes of a run of bin `i`. */
  ghost function RunBytes(i: nat): nat {
    RunPages(SizeOfBin(i)) * PAGE_SIZE
  }

  /** Regions of a run of bin `i`. */
  ghost function BinElems(i: nat): nat {
    RunElems(SizeOfBin(i))
  }

  /** Run `k` of the chunk at `key`, which is in use, is the run at `base` of bin `i`. */
  ghost predicate RunIn(chunks: ChunkTable, runs: seq<RunTable>, key: nat, k: nat, i: nat, base: nat) {
    && key in chunks && LiveIn(chunks[key], k) && InTree(CHUNK_DEPTH, chunks[key].handed[k].node)
    && base == RunBase(key, CHUNK_DEPTH, chunks[key].handed[k].node)
    && i < |runs| && base in runs[i]
    && chunks[key].handed[k].regSize == SizeOfBin(i) && RunSize(CHUNK_DEPTH, chunks[key].handed[k].node) == RunBytes(i)
  }

  ghost predicate HasBin(chunks: ChunkTable, runs: seq<RunTable>, key: nat, k: nat) {
    exists i, base :: RunIn(chunks, runs, key, k, i, base)
  }

  ghost predicate HasChunk(chunks: ChunkTable, runs: seq<RunTable>, i: nat, base: nat) {
    exists key, k :: RunIn(chunks, runs, key, k, i, base)
  }

  /** The runs of the chunks that are in use are exactly the runs of the bins. */
  ghost predicate RunsMatch(chunks: ChunkTable, runs: seq<RunTable>) {
    && |runs| == ARENA_NO_BINS
    && (forall key, k: nat {:trigger HasBin(chunks, runs, key, k)} :: key in chunks && LiveIn(chunks[key], k) ==>
          HasBin(chunks, runs, key, k))
    && (forall i: nat, base {:trigger HasChunk(chunks, runs, i, base)} :: i < ARENA_NO_BINS && base in runs[i] ==>
          HasChunk(chunks, runs, i, base))
  }

  /** All bytes of a run in use are owned by its chunk. */
  lemma RunOwned(chunks: ChunkTable, runs: seq<RunTable>, huges: HugeTable, arenas: set<nat>, key: nat, k: nat,
                 i: nat, base: nat, a: nat)
    requires ChunksFine(chunks) && RunIn(chunks, runs, key, k, i, base) && In(a, base, RunBytes(i))
    ensures InRun(key, chunks[key].handed[k].node, a)
    ensures Owns(chunks, huges, arenas, ChunkMemory(key), a)
  {
    hide RunBase, RunSize, Pow2, Covered, Under, RunBytes;
    var v := chunks[key];
    var x := v.handed[k].node;
    InsideChunk(key, x);
    forall y | y in v.released
      ensures !InRun(key, y, a)
    {
      if InRun(key, y, a) {
        RunsRelated(key, x, y, a);
        SameNode(v, k, y);
      }
    }
  }

  /** Related nodes that have been handed out are one node. */
  lemma SameNode(v: ChunkView, k: nat, y: nat)
    requires HandedOk(CHUNK_DEPTH, v.handed) && k < |v.handed| && y in Nodes(v.handed)
    requires Under(v.handed[k].node, y) || Under(y, v.handed[k].node)
    ensures v.handed[k].node == y
    ensures forall m: nat :: m < |v.handed| && v.handed[m].node == y ==> m == k
  {
    var m :| 0 <= m < |v.handed| && v.handed[m].node == y;
    assert Under(y, y);
  }

  /** A byte belongs to at most one run in use. */
  lemma OneRun(chunks: ChunkTable, runs: seq<RunTable>, huges: HugeTable, arenas: set<nat>, mapped: set<nat>, a: nat,
               key: nat, k: nat, i: nat, base: nat, key': nat, k': nat, i': nat, base': nat)
    requires ChunksFine(chunks) && MemoryOk(chunks, huges, arenas, mapped) && |runs| == ARENA_NO_BINS
    requires RunIn(chunks, runs, key, k, i, base) && In(a, base, RunBytes(i))
    requires RunIn(chunks, runs, key', k', i', base') && In(a, base', RunBytes(i'))
    ensures key == key' && k == k' && i == i' && base == base'
  {
    hide RunBase, RunSize, Pow2, Covered, Under, RunBytes, InRun, Owns, SizeOfBin;
    RunOwned(chunks, runs, huges, arenas, key, k, i, base, a);
    RunOwned(chunks, runs, huges, arenas, key', k', i', base', a);
    assert ChunkMemory(key) == ChunkMemory(key');
    var v := chunks[key];
    RunsRelated(key, v.handed[k].node, v.handed[k'].node, a);
    SameNode(v, k, v.handed[k'].node);
    BinsDistinct(i, i');
  }

  // ---- Records ----------------------------------------------------------------------------

  /** Sizes of the records on a 64-bit system; that of a run is followed by its bitmap. */
  const CHUNK_RECORD: nat := 21600
  const HUGE_RECORD: nat := 32
  const RUN_RECORD: nat := 32

  datatype Record = ChunkRecord(key: nat) | RunRecord(bin: nat, key: nat) | HugeRecord(key: nat)

  /** The record lies at address `p` of the metadata memory. */
  ghost predicate Has(chunks: ChunkTable, runs: seq<RunTable>, huges: HugeTable, r: Record, p: int) {
    match r
    case ChunkRecord(key) => key in chunks && chunks[key].addr == p
    case RunRecord(i, key) => i < |runs| && key in runs[i] && runs[i][key].addr == p
    case HugeRecord(key) => key in huges && huges[key].addr == p
  }

  ghost function RecordSize(r: Record): nat {
    match r
    case ChunkRecord(_) => CHUNK_RECORD
    case RunRecord(i, _) => RUN_RECORD + (2 * BinElems(i) + 7) / 8
    case HugeRecord(_) => HUGE_RECORD
  }

  /** The live metadata blocks are exactly the records on the lists, one each, and are no larger than it takes. */
  ghost predicate RecordsOk(chunks: ChunkTable, runs: seq<RunTable>, huges: HugeTable, blocks: map<int, nat>) {
    && (forall r, p :: Has(chunks, runs, huges, r, p) ==> p in blocks && SmallestBlock(RecordSize(r), blocks[p]))
    && (forall p :: p in blocks ==> exists r :: Has(chunks, runs, huges, r, p))
    && (forall r, s, p :: Has(chunks, runs, huges, r, p) && Has(chunks, runs, huges, s, p) ==> r == s)
  }

  lemma RecordAdd(chunks: ChunkTable, runs: seq<RunTable>, huges: HugeTable, blocks: map<int, nat>,
                  chunks': ChunkTable, runs': seq<RunTable>, huges': HugeTable, r: Record, p: int, len: nat)
    requires RecordsOk(chunks, runs, huges, blocks) && p !in blocks && SmallestBlock(RecordSize(r), len)
    requires forall s, q :: Has(chunks', runs', huges', s, q) <==> Has(chunks, runs, huges, s, q) || (s == r && q == p)
    ensures RecordsOk(chunks', runs', huges', blocks[p := len])
  {
    hide Has, RecordSize;
    var blocks' := blocks[p := len];
    forall q | q in blocks'
      ensures exists s :: Has(chunks', runs', huges', s, q)
    {
      if q == p {
        assert Has(chunks', runs', huges', r, p);
      } else {
        var s :| Has(chunks, runs, huges, s, q);
        assert Has(chunks', runs', huges', s, q);
      }
    }
  }

  lemma RecordRemove(chunks: ChunkTable, runs: seq<RunTable>, huges: HugeTable, blocks: map<int, nat>,
                     chunks': ChunkTable, runs': seq<RunTable>, huges': HugeTable, r: Record, p: int)
    requires RecordsOk(chunks, runs, huges, blocks) && Has(chunks, runs, huges, r, p)
    requires forall s, q :: Has(chunks', runs', huges', s, q) <==> Has(chunks, runs, huges, s, q) && s != r
    ensures RecordsOk(chunks', runs', huges', blocks - {p})
  {
    hide RecordSize;
    forall q | q in blocks - {p}
      ensures exists s :: Has(chunks', runs', huges', s, q)
    {
      var s :| Has(chunks, runs, huges, s, q);
      assert Has(chunks', runs', huges', s, q);
    }
  }

  // ---- Regions in use ---------------------------------------------------------------------

  /** What serves a pointer: a slot of a run, or a mapping of its own. */
  datatype Place = Slot(bin: nat, base: nat, s: nat) | Mapping(key: nat)

  /** The place is in use, and serves the `n` bytes at `p`. */
  ghost predicate At(runs: seq<RunTable>, huges: HugeTable, pl: Place, p: nat, n: nat) {
    match pl
    case Slot(i, base, s) =>
      && i < |runs| && base in runs[i] && n == SizeOfBin(i)
      && Busy(runs[i][base].items, base, SizeOfBin(i), RunElems(SizeOfBin(i)), p, s)
    case Mapping(key) => key in huges && p == key && n == huges[key].len
  }

  /** The pointers handed out and not yet freed, with their usable sizes, are the places in use. */
  ghost predicate LiveIs(runs: seq<RunTable>, huges: HugeTable, live: map<nat, nat>) {
    && (forall pl, p, n :: At(runs, huges, pl, p, n) ==> p in live && live[p] == n)
    && (forall p :: p in live ==> exists pl :: At(runs, huges, pl, p, live[p]))
  }

  /** A slot lies inside its run. */
  lemma SlotInside(i: nat, base: nat, s: nat, a: nat)
    requires i < ARENA_NO_BINS && s < BinElems(i) && In(a, Region(base, SizeOfBin(i), s), SizeOfBin(i))
    ensures In(a, base, RunBytes(i))
  {
    hide RunElems, RunPages, SizeOfBin;
    assert IsClass(SizeOfBin(i));
    ElemsBounds(SizeOfBin(i));
    SlotEnd(s, RunElems(SizeOfBin(i)), SizeOfBin(i));
  }

  /** A region lies inside its run. */
  lemma SlotInRun(runs: seq<RunTable>, huges: HugeTable, i: nat, base: nat, s: nat, p: nat, n: nat, a: nat)
    requires |runs| == ARENA_NO_BINS && At(runs, huges, Slot(i, base, s), p, n) && In(a, p, n)
    ensures In(a, base, RunBytes(i)) && n >= 16
  {
    hide RunElems, RunPages, SizeOfBin;
    SlotInside(i, base, s, a);
    SizeAtLeast16(i);
  }

  lemma SizeAtLeast16(i: nat)
    ensures SizeOfBin(i) >= 16
  {
  }

  lemma SlotEnd(s: nat, elems: nat, size: nat)
    requires s < elems
    ensures s * size + size <= elems * size
  {
    MulMonotone(s + 1, elems, size);
    assert (s + 1) * size == s * size + size;
  }

  // ---- The whole --------------------------------------------------------------------------

  /** The parts of the allocator, as far as they concern each other; `runs[i]` are those of bin `i`. */
  datatype State = State(chunks: ChunkTable, runs: seq<RunTable>, huges: HugeTable, arenas: set<nat>,
                         blocks: map<int, nat>,
                         mapped: set<nat>, live: map<nat, nat>)

  ghost predicate HugesFine(huges: HugeTable) {
    forall key :: key in huges ==>
      key % PAGE_SIZE == 0 && huges[key].len > LARGE_SIZE_MAX_REGION && huges[key].len % PAGE_SIZE == 0
  }

  /** What all parts together keep between two calls. */
  ghost predicate WorldOk(w: State) {
    && ChunksFine(w.chunks) && HugesFine(w.huges) && MemoryOk(w.chunks, w.huges, w.arenas, w.mapped)
    && RunsMatch(w.chunks, w.runs)
    && RecordsOk(w.chunks, w.runs, w.huges, w.blocks) && LiveIs(w.runs, w.huges, w.live)
  }

  /** Byte `a` has been handed out: it belongs to a region that is in use or has been released, of a run
      that is still listed, or to a huge mapping. */
  ghost predicate SpentAt(runs: seq<RunTable>, huges: HugeTable, pl: Place, a: nat) {
    match pl
    case Slot(i, base, s) =>
      && i < |runs| && base in runs[i] && s < BinElems(i) && s < |runs[i][base].items|
      && runs[i][base].items[s] != STATE_FREE && In(a, Region(base, SizeOfBin(i), s), SizeOfBin(i))
    case Mapping(key) => key in huges && In(a, key, huges[key].len)
  }

  ghost predicate Spent(w: State, a: nat) {
    exists pl :: SpentAt(w.runs, w.huges, pl, a)
  }

  /** A place in use has been handed out. */
  lemma AtSpent(runs: seq<RunTable>, huges: HugeTable, pl: Place, p: nat, n: nat, a: nat)
    requires At(runs, huges, pl, p, n) && In(a, p, n)
    ensures SpentAt(runs, huges, pl, a)
  {
    hide SizeOfBin, RunElems;
  }

  /** The memory of a place that has been handed out is mapped, and belongs to a chunk or to the mapping
      itself. */
  lemma SpentOwned(w: State, pl: Place, a: nat) returns (o: Owner)
    requires WorldOk(w) && SpentAt(w.runs, w.huges, pl, a)
    ensures Owns(w.chunks, w.huges, w.arenas, o, a) && a in w.mapped
    ensures pl.Mapping? ==> o == HugeMemory(pl.key)
    ensures pl.Slot? ==> o.ChunkMemory? && exists k :: RunIn(w.chunks, w.runs, o.key, k, pl.bin, pl.base)
    ensures pl.Slot? ==> In(a, pl.base, RunBytes(pl.bin))
  {
    hide RecordsOk, ChunksFine, RunIn, RunBytes, LiveIs, SizeOfBin, RunElems, Region;
    match pl
    case Slot(i, base, s) =>
      SlotInside(i, base, s, a);
      assert HasChunk(w.chunks, w.runs, i, base);
      var key, k :| RunIn(w.chunks, w.runs, key, k, i, base);
      RunOwned(w.chunks, w.runs, w.huges, w.arenas, key, k, i, base, a);
      o := ChunkMemory(key);
    case Mapping(key) =>
      o := HugeMemory(key);
  }

  /** The memory of a place in use is mapped, and belongs to a chunk or to the mapping itself. */
  lemma PlaceOwned(w: State, pl: Place, p: nat, n: nat, a: nat) returns (o: Owner)
    requires WorldOk(w) && At(w.runs, w.huges, pl, p, n) && In(a, p, n)
    ensures Owns(w.chunks, w.huges, w.arenas, o, a) && a in w.mapped
    ensures pl.Mapping? ==> o == HugeMemory(pl.key)
    ensures pl.Slot? ==> o.ChunkMemory? && exists k :: RunIn(w.chunks, w.runs, o.key, k, pl.bin, pl.base)
    ensures pl.Slot? ==> In(a, pl.base, RunBytes(pl.bin))
  {
    hide WorldOk, At, SpentAt;
    AtSpent(w.runs, w.huges, pl, p, n, a);
    o := SpentOwned(w, pl, a);
  }

  /** A byte has been handed out at one place only. */
  lemma SpentOnce(w: State, pl: Place, pl': Place, a: nat)
    requires WorldOk(w) && SpentAt(w.runs, w.huges, pl, a) && SpentAt(w.runs, w.huges, pl', a)
    ensures pl == pl'
  {
    hide RecordsOk, ChunksFine, RunIn, RunBytes, LiveIs, Owns, HasBin, HasChunk, SizeOfBin, RunElems, Region;
    var o := SpentOwned(w, pl, a);
    var o' := SpentOwned(w, pl', a);
    assert o == o';
    if pl.Slot? && pl'.Slot? {
      var k :| RunIn(w.chunks, w.runs, o.key, k, pl.bin, pl.base);
      var k' :| RunIn(w.chunks, w.runs, o'.key, k', pl'.bin, pl'.base);
      OneRun(w.chunks, w.runs, w.huges, w.arenas, w.mapped, a, o.key, k, pl.bin, pl.base, o'.key, k', pl'.bin,
             pl'.base);
      SlotsDisjoint(pl.base, SizeOfBin(pl.bin), BinElems(pl.bin), pl.s, pl'.s, a);
    }
  }

  /** Two places in use that share a byte are the same. */
  lemma PlacesDisjoint(w: State, pl: Place, p: nat, n: nat, pl': Place, p': nat, n': nat, a: nat)
    requires WorldOk(w)
    requires At(w.runs, w.huges, pl, p, n) && In(a, p, n) && At(w.runs, w.huges, pl', p', n') && In(a, p', n')
    ensures pl == pl' && p == p' && n == n'
  {
    hide WorldOk, SpentAt, SizeOfBin, RunElems, Region;
    AtSpent(w.runs, w.huges, pl, p, n, a);
    AtSpent(w.runs, w.huges, pl', p', n', a);
    SpentOnce(w, pl, pl', a);
  }

  lemma SlotsDisjoint(base: nat, size: nat, elems: nat, s: nat, s': nat, a: nat)
    requires s < elems && s' < elems && In(a, Region(base, size, s), size) && In(a, Region(base, size, s'), size)
    ensures s == s'
  {
    if s < s' {
      RegionsDisjoint(base, size, elems, s, s');
    } else if s' < s {
      RegionsDisjoint(base, size, elems, s', s);
    }
  }

  /** The regions in use are pairwise disjoint, and all their bytes are mapped. */
  lemma RegionsDisjointAndMapped(w: State, p: nat, q: nat, a: nat)
    requires WorldOk(w) && p in w.live && q in w.live && In(a, p, w.live[p])
    ensures a in w.mapped
    ensures In(a, q, w.live[q]) ==> p == q
  {
    hide RecordsOk, ChunksFine, MemoryOk, RunsMatch, At;
    var pl :| At(w.runs, w.huges, pl, p, w.live[p]);
    var pl' :| At(w.runs, w.huges, pl', q, w.live[q]);
    var o := PlaceOwned(w, pl, p, w.live[p], a);
    if In(a, q, w.live[q]) {
      PlacesDisjoint(w, pl, p, w.live[p], pl', q, w.live[q], a);
    }
  }

  /** A pointer in use is not null, and a multiple of 16, or of a page where a region is larger than
      two pages. */
  lemma LiveAligned(w: State, p: nat)
    requires WorldOk(w) && p in w.live
    ensures p > 0 && p % 16 == 0
    ensures w.live[p] > MEDIUM_SIZE_MAX_REGION ==> p % PAGE_SIZE == 0
  {
    hide RecordsOk, ChunksFine, RunIn, RunBytes, Owns, SizeOfBin, RunElems, Region, HasBin, HasChunk;
    var pl :| At(w.runs, w.huges, pl, p, w.live[p]);
    if pl.Slot? {
      SizeAtLeast16(pl.bin);
    }
    var o := PlaceOwned(w, pl, p, w.live[p], p);
    if pl.Slot? {
      var k :| RunIn(w.chunks, w.runs, o.key, k, pl.bin, pl.base);
      BaseAligned(w, o.key, k, pl.bin, pl.base);
      SlotAligned(pl.base, pl.bin, pl.s);
    }
  }

  lemma LiveNotNull(w: State)
    requires WorldOk(w)
    ensures 0 !in w.live
  {
    hide WorldOk;
    if 0 in w.live {
      LiveAligned(w, 0);
    }
  }

  lemma BaseAligned(w: State, key: nat, k: nat, i: nat, base: nat)
    requires ChunksFine(w.chunks) && RunIn(w.chunks, w.runs, key, k, i, base)
    ensures base % PAGE_SIZE == 0
  {
    var x := w.chunks[key].handed[k].node;
    assert base == key + LEAF_SIZE * (x * Pow2(Height(CHUNK_DEPTH, x)) - Pow2(CHUNK_DEPTH));
  }

  lemma SlotAligned(base: nat, i: nat, s: nat)
    requires base % PAGE_SIZE == 0 && i < ARENA_NO_BINS && s < BinElems(i)
    ensures Region(base, SizeOfBin(i), s) % 16 == 0
    ensures SizeOfBin(i) > MEDIUM_SIZE_MAX_REGION ==> Region(base, SizeOfBin(i), s) % PAGE_SIZE == 0
  {
    hide RunElems, RunPages, SizeOfBin, Region, Pow2, Level;
    assert IsClass(SizeOfBin(i));
    ElemsBounds(SizeOfBin(i));
    ClassOf16(SizeOfBin(i));
    MultipleOf16(base, SizeOfBin(i), SizeOfBin(i) / 16, s);
  }

  lemma ClassOf16(size: nat)
    requires IsClass(size)
    ensures size == 16 * (size / 16) && (size > MEDIUM_SIZE_MAX_REGION ==> IsLarge(size))
  {
    hide IsClass, Pow2, Level;
    ClassUnits(size);
  }

  lemma MultipleOf16(base: nat, size: nat, d: nat, s: nat)
    requires base % PAGE_SIZE == 0 && size == 16 * d
    ensures Region(base, size, s) % 16 == 0
    ensures s == 0 ==> Region(base, size, s) == base
  {
    var e, q := s * d, base / PAGE_SIZE;
    assert base == 16 * (256 * q);
    assert s * (16 * d) == 16 * e;
  }

  // ---- Locating a run ---------------------------------------------------------------------

  /** A region in use starts in the first leaf of its run. */
  lemma LiveAnswers(w: State, i: nat, base: nat, s: nat, p: nat, n: nat, key: nat, k: nat)
    requires WorldOk(w) && At(w.runs, w.huges, Slot(i, base, s), p, n) && RunIn(w.chunks, w.runs, key, k, i, base)
    ensures Answers(key, w.chunks[key], k, p)
  {
    hide RecordsOk, ChunksFine, MemoryOk, LiveIs, Pow2, Level, Height, RunBase, RunSize;
    assert IsClass(SizeOfBin(i));
    ElemsBounds(SizeOfBin(i));
    SizeAtLeast16(i);
    SlotInRun(w.runs, w.huges, i, base, s, p, n, p);
    if !IsLarge(SizeOfBin(i)) {
      ClassUnits(SizeOfBin(i));
      assert RunBytes(i) == LEAF_SIZE;
    }
  }

  /** Only one run answers for an address, and it is a run of some bin. */
  lemma AnswersOnce(w: State, key: nat, k: nat, p: nat) returns (i: nat, base: nat)
    requires WorldOk(w) && key in w.chunks && Answers(key, w.chunks[key], k, p)
    ensures i < ARENA_NO_BINS && RunIn(w.chunks, w.runs, key, k, i, base) && In(p, base, RunBytes(i))
            && p < base + LEAF_SIZE
    ensures forall key', k', i', base': nat ::
              RunIn(w.chunks, w.runs, key', k', i', base') && In(p, base', RunBytes(i')) ==>
                key' == key && k' == k && i' == i && base' == base
  {
    hide RecordsOk, MemoryOk, LiveIs, Pow2, Level, Height, RunBase, RunSize, RunBytes, Covered;
    assert HasBin(w.chunks, w.runs, key, k);
    i, base :| RunIn(w.chunks, w.runs, key, k, i, base);
    InsideChunk(key, w.chunks[key].handed[k].node);
    forall key', k', i', base': nat | RunIn(w.chunks, w.runs, key', k', i', base') && In(p, base', RunBytes(i'))
      ensures key' == key && k' == k && i' == i && base' == base
    {
      OneRun(w.chunks, w.runs, w.huges, w.arenas, w.mapped, p, key, k, i, base, key', k', i', base');
    }
  }

  /** For a mapping in use no run answers. */
  lemma MappingSilent(w: State, p: nat, n: nat)
    requires WorldOk(w) && At(w.runs, w.huges, Mapping(p), p, n)
    ensures forall key, k :: key in w.chunks ==> !Answers(key, w.chunks[key], k, p)
  {
    hide RecordsOk, LiveIs, RunIn, RunBytes;
    assert Owns(w.chunks, w.huges, w.arenas, HugeMemory(p), p);
    forall key, k | key in w.chunks && Answers(key, w.chunks[key], k, p)
      ensures false
    {
      var i, base := AnswersOnce(w, key, k, p);
      RunOwned(w.chunks, w.runs, w.huges, w.arenas, key, k, i, base, p);
    }
  }

  /** What a chunk tells about a run identifies its class. */
  lemma InfoIsClass(chunks: ChunkTable, runs: seq<RunTable>, key: nat, k: nat, i: nat, base: nat, info: RunInfo)
    requires |runs| == ARENA_NO_BINS && RunIn(chunks, runs, key, k, i, base)
    requires info == InfoOf(key, CHUNK_DEPTH, chunks[key].handed[k])
    ensures info.base == base && SizeOfBin(i) == if info.regSize > 0 then info.regSize else info.size
  {
    hide Level, RunBase;
    var x := chunks[key].handed[k].node;
    assert IsClass(SizeOfBin(i));
    ElemsBounds(SizeOfBin(i));
    ClassUnits(SizeOfBin(i));
    HeightInTree(CHUNK_DEPTH, x);
    Pow2Injective(Height(CHUNK_DEPTH, x), 0);
    assert Pow2(0) == 1;
  }
}
