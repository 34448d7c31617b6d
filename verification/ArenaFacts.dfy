/** What the steps of the arena do to its parts, seen from outside. */
module ArenaFacts {
  import opened TreeIndex
  import opened Utils
  import opened PackedStates
  import opened ChunkSpec
  import opened ChunkTree
  import opened Chunks
  import opened ChunkPools
  import opened SizeClass
  import opened LinkedList
  import opened Runs
  import opened Bins
  import opened BinTables
  import opened HugePools
  import opened MetaPools
  import opened AddressSpaces
  import opened World
  import opened WorldSteps
  import opened OneTime

  /** The runs of all bins. */
  ghost function RunsOf(views: seq<BinView>): seq<RunTable> {
    seq(|views|, i requires 0 <= i < |views| => views[i].runs)
  }

  /** Nothing that was mapped has changed. */
  ghost predicate Keeps(before: map<nat, bv8>, after: map<nat, bv8>) {
    forall a :: a in before ==> a in after && after[a] == before[a]
  }

  lemma KeepsSelf(b: map<nat, bv8>)
    ensures Keeps(b, b)
  {
  }

  lemma KeepsOn(b0: map<nat, bv8>, b1: map<nat, bv8>, b2: map<nat, bv8>)
    requires Keeps(b0, b1) && Keeps(b1, b2)
    ensures Keeps(b0, b2)
  {
  }

  /** The metadata arenas may have grown by one. */
  ghost predicate Grown(arenas: set<nat>, mapped: set<nat>, arenas': set<nat>, mapped': set<nat>) {
    || (arenas' == arenas && mapped' == mapped)
    || exists base: nat :: base !in arenas && arenas' == arenas + {base} && MapsTo(mapped, mapped', base, META_MAP)
  }

  lemma GrownOk(w: State, arenas: set<nat>, mapped: set<nat>)
    requires WorldOk(w) && Grown(w.arenas, w.mapped, arenas, mapped)
    ensures WorldOk(w.(arenas := arenas, mapped := mapped))
  {
    hide WorldOk;
    if arenas != w.arenas || mapped != w.mapped {
      var base: nat :| base !in w.arenas && arenas == w.arenas + {base} && MapsTo(w.mapped, mapped, base, META_MAP);
      GrowArenas(w, base, mapped);
    } else {
      assert w.(arenas := arenas, mapped := mapped) == w;
    }
  }

  ghost predicate Disjoint(a: object, b: object, m: set<object>, c: set<object>, h: set<object>, t: set<object>) {
    && a != b && {a, b} !! m && {a, b} !! c && {a, b} !! h && {a, b} !! t
    && m !! c && m !! h && m !! t && c !! h && c !! t && h !! t
  }

  /** What is listed, beside the state of the whole. */
  datatype Lists = Lists(views: seq<BinView>, chunks: set<Entry<Chunk>>, huges: map<nat, Entry<Huge>>, order: seq<nat>,
                         meta: MetaView)

  /** The metadata arenas as they are listed, and their live blocks. */
  datatype MetaView = MetaView(order: seq<nat>, table: map<nat, set<nat>>)

  /** The size that a reallocation is served with: huge regions get whole pages, and a region of a run
      gets the least large class where a size of 0 is asked for. */
  function ServedSize(newSize: nat, huge: bool): (n: nat)
    ensures newSize <= MAX_REQUEST ==> n >= newSize
  {
    if huge then PageAligned(newSize); AlignUpPage(newSize)
    else if newSize == 0 then LARGE_SIZE_MIN_REGION
    else newSize
  }

  /** A pointer found in a run is not a mapping. */
  lemma RunNotHuge(w: State, l: Lists, c: Entry<Chunk>, r: Entry<Run>, i: nat, ptr: nat, k: nat, base: nat)
    requires WorldOk(w) && RunFound(w, l, c, r, i, ptr, k, base)
    ensures ptr !in w.huges
  {
    hide RecordsOk, RunsMatch, LiveIs, RunBytes, RunIn;
    assert ptr in w.huges ==> Owns(w.chunks, w.huges, w.arenas, HugeMemory(ptr), ptr);
    RunOwned(w.chunks, w.runs, w.huges, w.arenas, c.item.key, k, i, base, ptr);
  }

  lemma OneRange(w: State, bytes: map<nat, bv8>, p: nat, n: nat)
    requires WorldOk(w) && bytes.Keys == w.mapped && p in w.live && n <= w.live[p]
    ensures HasRange(bytes, p, n)
  {
    hide WorldOk;
    forall a: nat | In(a, p, n)
      ensures a in bytes
    {
      RegionsDisjointAndMapped(w, p, p, a);
    }
  }

  lemma ClearedContents(w: State, w1: State, b0: map<nat, bv8>, b1: map<nat, bv8>, b2: map<nat, bv8>, p: nat, n: nat)
    requires WorldOk(w) && WorldOk(w1) && b0.Keys == w.mapped && b1.Keys == w1.mapped == b2.Keys && Keeps(b0, b1)
    requires p in w1.live && p !in w.live && n <= w1.live[p] && forall r :: r in w.live ==>
               r in w1.live && w1.live[r] == w.live[r]
    requires forall a :: a in b2 ==> a in b1 && b2[a] == if In(a, p, n) then 0 else b1[a]
    ensures forall a: nat :: In(a, p, n) ==> a in b2 && b2[a] == 0
    ensures forall a :: a in b0 && !In(a, p, n) ==> a in b2 && b2[a] == b0[a]
    ensures forall q, a: nat :: q in w.live && In(a, q, w.live[q]) ==> a in b0 && a in b2 && b2[a] == b0[a]
  {
    hide WorldOk;
    OneRange(w1, b2, p, n);
    NewApart(w, w1, p, n);
    forall q, a: nat | q in w.live && In(a, q, w.live[q])
      ensures a in b0 && a in b2 && b2[a] == b0[a]
    {
      RegionsDisjointAndMapped(w, q, q, a);
      RegionsDisjointAndMapped(w1, q, q, a);
    }
  }

  lemma MappingSize(w: State, l: Lists, h: Entry<Huge>, ptr: nat)
    requires WorldOk(w) && MappingFound(w, l, h, ptr)
    ensures ptr in w.live && w.live[ptr] == w.huges[ptr].len > LARGE_SIZE_MAX_REGION && ptr in w.huges
  {
  }

  lemma UsableHuge(newSize: nat)
    requires newSize % PAGE_SIZE == 0 && newSize <= MAX_REQUEST
    ensures IsHuge(newSize) ==> UsableSize(newSize) == newSize
  {
    PageAligned(newSize);
  }

  /** A new region shares no byte with a region in use. */
  lemma NewApart(w: State, w1: State, q: nat, n: nat)
    requires WorldOk(w1) && q in w1.live && n <= w1.live[q] && q !in w.live
    requires forall r :: r in w.live ==> r in w1.live && w1.live[r] == w.live[r]
    ensures forall r, a: nat :: r in w.live && In(a, r, w.live[r]) ==> !In(a, q, n)
  {
    hide WorldOk;
    forall r, a: nat | r in w.live && In(a, r, w.live[r])
      ensures !In(a, q, n)
    {
      assert In(a, q, n) ==> In(a, q, w1.live[q]);
      RegionsDisjointAndMapped(w1, r, q, a);
    }
  }

  lemma RunSizeIs(w: State, l: Lists, c: Entry<Chunk>, r: Entry<Run>, i: nat, ptr: nat, k: nat, base: nat)
    requires WorldOk(w) && RunFound(w, l, c, r, i, ptr, k, base) && ptr in w.live
    ensures |l.views| == ARENA_NO_BINS == |w.runs| && i < ARENA_NO_BINS && base in w.runs[i]
            && w.live[ptr] == SizeOfBin(i)
    ensures r in l.views[i].members && c in l.chunks && r.item.key == base
  {
    hide SizeOfBin, RunBytes, RunIn, ChunksFine, MemoryOk, RecordsOk, RunsMatch;
    var s :| At(w.runs, w.huges, Slot(i, base, s), ptr, SizeOfBin(i));
  }

  /** Whatever chunks and runs were listed are still listed. */
  ghost predicate RunsStill(l: Lists, l': Lists) {
    && |l.views| == |l'.views| == ARENA_NO_BINS && l.chunks <= l'.chunks
    && forall j :: 0 <= j < ARENA_NO_BINS ==> l.views[j].members <= l'.views[j].members
  }

  lemma RunsListed(l: Lists, l': Lists)
    requires StillListed(l, l')
    ensures RunsStill(l, l')
  {
  }

  /** After an allocation, a pointer in use is still found where it was. */
  lemma StillInRun(w: State, w1: State, l: Lists, l1: Lists, c: Entry<Chunk>, r: Entry<Run>, i: nat, ptr: nat, k: nat,
                   base: nat)
    requires WorldOk(w) && WorldOk(w1) && RunFound(w, l, c, r, i, ptr, k, base) && ptr in w.live && ptr in w1.live
    requires WorldGrown(w, w1) && c in l1.chunks && |l1.views| == ARENA_NO_BINS && r in l1.views[i].members
    requires w1.runs == RunsOf(l1.views) && r.item.key in l1.views[i].runs
             && r.addr == l1.views[i].runs[r.item.key].addr
    ensures RunFound(w1, l1, c, r, i, ptr, k, base)
  {
    hide SizeOfBin, RunBytes, ChunksFine, MemoryOk, RecordsOk, RunsMatch, RunBase, RunSize, RunsAdvanced, BinElems,
         Region;
    var key := c.item.key;
    var s :| At(w.runs, w.huges, Slot(i, base, s), ptr, SizeOfBin(i));
    LiveAnswers(w, i, base, s, ptr, SizeOfBin(i), key, k);
    assert w1.runs[i] == l1.views[i].runs;
    assert w1.chunks[key].handed[k] == w.chunks[key].handed[k];
    assert Answers(key, w1.chunks[key], k, ptr);
    RunFoundFrom(w1, l1, c, key, r, i, ptr, k, base);
  }

  /** A pointer in use is not behind the last region of any run. */
  lemma LiveNotAtTail(w: State, ptr: nat)
    requires WorldOk(w) && ptr in w.live
    ensures !AtTail(w, ptr)
  {
    hide SizeOfBin, RunBytes, ChunksFine, RecordsOk, RunIn, Owns, Region, RunElems;
    var pl :| At(w.runs, w.huges, pl, ptr, w.live[ptr]);
    LiveLength(w, pl, ptr, w.live[ptr]);
    var o := PlaceOwned(w, pl, ptr, w.live[ptr], ptr);
    BinsCount(w);
    if AtTail(w, ptr) {
      var i: nat, base :| i < |w.runs| && base in w.runs[i] && In(ptr, base, RunBytes(i))
                          && ptr == Region(base, SizeOfBin(i), BinElems(i));
      assert HasChunk(w.chunks, w.runs, i, base);
      var key, k :| RunIn(w.chunks, w.runs, key, k, i, base);
      RunOwned(w.chunks, w.runs, w.huges, w.arenas, key, k, i, base, ptr);
      assert o == ChunkMemory(key);
      var k' :| RunIn(w.chunks, w.runs, o.key, k', pl.bin, pl.base);
      OneRun(w.chunks, w.runs, w.huges, w.arenas, w.mapped, ptr, key, k, i, base, o.key, k', pl.bin, pl.base);
      SlotBelow(base, SizeOfBin(i), BinElems(i), pl.s);
    }
  }

  lemma SlotBelow(base: nat, size: nat, elems: nat, s: nat)
    requires s < elems && size > 0
    ensures Region(base, size, s) < Region(base, size, elems)
  {
    SlotEnd(s, elems, size);
  }

  /** The product of two words, in 64 bits. */
  function Product(a: nat, b: nat): (r: nat)
    ensures IsWordOf(r, a * b)
  {
    WordOf(a * b);
    a * b % WORD_LIMIT
  }

  /** The word that a number leaves in 64 bits. */
  predicate IsWordOf(r: nat, m: nat) {
    r < WORD_LIMIT && (m - r) % WORD_LIMIT == 0
  }

  lemma WordOf(m: nat)
    ensures IsWordOf(m % WORD_LIMIT, m)
    ensures forall r: nat :: IsWordOf(r, m) ==> r == m % WORD_LIMIT
  {
  }

  function Min(a: nat, b: nat): nat {
    if a > b then b else a
  }

  /** The first bytes of the new region are those of the old one, no other byte is written, and all other
      regions in use hold what they held. */
  ghost predicate Reallocated(live: map<nat, nat>, live': map<nat, nat>, before: map<nat, bv8>, after: map<nat, bv8>,
                              p: nat, q: nat, size: nat) {
    && p in live && q in live'
    && (forall a: nat :: In(a, q, Min(live[p], size)) ==>
          a in after && a - q + p in before && after[a] == before[a - q + p])
    && (forall r, a: nat :: r in live' && r != q && In(a, r, live'[r]) ==>
          r in live && live[r] == live'[r] && a in before && a in after && after[a] == before[a])
    && (forall a: nat :: a in before && a in after && !In(a, q, Min(live[p], size)) ==> after[a] == before[a])
  }

  lemma OldRange(w: State, bytes: map<nat, bv8>, ptr: nat)
    requires WorldOk(w) && bytes.Keys == w.mapped && ptr in w.huges
    ensures HasRange(bytes, ptr, w.huges[ptr].len) && w.huges[ptr].len > LARGE_SIZE_MAX_REGION
  {
    OldIsMapped(w, ptr);
  }

  lemma ApartFromOld(before: map<nat, bv8>, after: map<nat, bv8>, ptr: nat, len: nat, ptr': nat, newSize: nat)
    requires Mapped(before, after, ptr', newSize) && HasRange(before, ptr, len) && newSize > 0 && len > 0
    ensures ptr + len <= ptr' || ptr' + newSize <= ptr
    ensures forall n: nat :: n <= newSize ==> HasRange(after, ptr', n)
    ensures forall n: nat :: n <= len ==> HasRange(after, ptr, n)
  {
    FreshApart(before, after, ptr', newSize, ptr, len);
    forall n: nat, a: nat | n <= len && In(a, ptr, n)
      ensures a in after
    {
      assert In(a, ptr, len);
    }
    forall n: nat, a: nat | n <= newSize && In(a, ptr', n)
      ensures a in after
    {
      assert In(a, ptr', newSize);
    }
  }

  /** Contents of memory around the copy of a region: nothing in use is overwritten, except for the
      new region, and nothing in use afterwards is unmapped. */
  lemma CopyContents(w: State, w': State, b0: map<nat, bv8>, b1: map<nat, bv8>, b2: map<nat, bv8>, b3: map<nat, bv8>,
                     p: nat, q: nat, len: nat, size: nat, n: nat)
    requires WorldOk(w) && WorldOk(w') && b0.Keys == w.mapped && b3.Keys == w'.mapped
    requires p in w.live && q !in w.live && w'.live == (w.live - {p})[q := len] && n <= w.live[p] && n <= len
    requires n == Min(w.live[p], size)
    requires forall r, a: nat :: r in w.live && In(a, r, w.live[r]) ==> !In(a, q, n)
    requires Keeps(b0, b1) && Copied(b1, b2, q, p, n) && Keeps(b3, b2)
    ensures Reallocated(w.live, w'.live, b0, b3, p, q, size)
  {
    hide WorldOk, Keeps, Copied;
    forall a: nat | In(a, q, Min(w.live[p], size))
      ensures a in b3 && a - q + p in b0 && b3[a] == b0[a - q + p]
    {
      assert In(a, q, len) && In(a, q, n) && In(a - q + p, p, w.live[p]);
      RegionsDisjointAndMapped(w', q, q, a);
      RegionsDisjointAndMapped(w, p, p, a - q + p);
      CopiedByte(b0, b1, b2, b3, q, p, n, a);
    }
    forall r, a: nat | r in w'.live && r != q && In(a, r, w'.live[r])
      ensures r in w.live && w.live[r] == w'.live[r] && a in b0 && a in b3 && b3[a] == b0[a]
    {
      RegionsDisjointAndMapped(w', r, r, a);
      RegionsDisjointAndMapped(w, r, r, a);
      KeptByte(b0, b1, b2, b3, q, p, n, a);
    }
    forall a: nat | a in b0 && a in b3 && !In(a, q, n)
      ensures b3[a] == b0[a]
    {
      KeptByte(b0, b1, b2, b3, q, p, n, a);
    }
  }

  lemma CopiedByte(b0: map<nat, bv8>, b1: map<nat, bv8>, b2: map<nat, bv8>, b3: map<nat, bv8>, q: nat, p: nat, n: nat,
                   a: nat)
    requires Keeps(b0, b1) && Copied(b1, b2, q, p, n) && Keeps(b3, b2) && In(a, q, n) && a in b3 && a - q + p in b0
    ensures b3[a] == b0[a - q + p]
  {
  }

  lemma KeptByte(b0: map<nat, bv8>, b1: map<nat, bv8>, b2: map<nat, bv8>, b3: map<nat, bv8>, q: nat, p: nat, n: nat,
                 a: nat)
    requires Keeps(b0, b1) && Copied(b1, b2, q, p, n) && Keeps(b3, b2) && !In(a, q, n) && a in b3 && a in b0
    ensures b3[a] == b0[a]
  {
  }

  lemma MovedContents(w: State, w': State, b0: map<nat, bv8>, b1: map<nat, bv8>, b2: map<nat, bv8>, b3: map<nat, bv8>,
                      p: nat, q: nat, size: nat, n: nat)
    requires WorldOk(w) && WorldOk(w') && b0.Keys == w.mapped && b3.Keys == w'.mapped && p in w.huges
    requires p in w.live && w.live[p] == w.huges[p].len && q !in w.live && w'.live == (w.live - {p})[q := size]
    requires n == Min(w.live[p], size)
    requires Mapped(b0, b1, q, size) && Copied(b1, b2, q, p, n) && Unmapped(b2, b3, p, w.live[p])
    ensures Reallocated(w.live, w'.live, b0, b3, p, q, size)
  {
    hide WorldOk, Copied, Reallocated;
    forall r, a: nat | r in w.live && In(a, r, w.live[r])
      ensures !In(a, q, n)
    {
      RegionsDisjointAndMapped(w, r, r, a);
      assert In(a, q, n) ==> In(a, q, size);
    }
    CopyContents(w, w', b0, b1, b2, b3, p, q, size, size, n);
  }

  lemma HeldIsLive(w: State, l: Lists, c: Entry<Chunk>, r: Entry<Run>, i: nat, ptr: nat, k: nat, base: nat)
    requires WorldOk(w) && RunFound(w, l, c, r, i, ptr, k, base)
    ensures ptr in w.live <==> exists s: nat :: Held(w.runs[i], SizeOfBin(i), BinElems(i), r.item.key, ptr, s)
  {
    hide SizeOfBin, RunBytes, RunIn, ChunksFine, MemoryOk, RecordsOk, RunsMatch, Region, RunElems;
    if exists s: nat :: Held(w.runs[i], SizeOfBin(i), BinElems(i), r.item.key, ptr, s) {
      var s: nat :| Held(w.runs[i], SizeOfBin(i), BinElems(i), r.item.key, ptr, s);
      assert At(w.runs, w.huges, Slot(i, base, s), ptr, SizeOfBin(i));
    }
    if ptr in w.live {
      var t :| At(w.runs, w.huges, Slot(i, base, t), ptr, SizeOfBin(i));
      assert Held(w.runs[i], SizeOfBin(i), BinElems(i), r.item.key, ptr, t);
    }
  }

  lemma CopiedKeys(before: map<nat, bv8>, after: map<nat, bv8>, dst: nat, src: nat, n: nat)
    requires Copied(before, after, dst, src, n)
    ensures after.Keys == before.Keys
  {
  }

  /** Two regions in use are mapped and do not overlap. */
  lemma LiveRange(w: State, bytes: map<nat, bv8>, p: nat, q: nat, n: nat)
    requires WorldOk(w) && bytes.Keys == w.mapped && p in w.live && q in w.live && p != q && n <= w.live[p]
             && n <= w.live[q]
    ensures HasRange(bytes, p, n) && HasRange(bytes, q, n)
    ensures p + n <= q || q + n <= p
  {
    hide WorldOk;
    forall a: nat | In(a, p, n) || In(a, q, n)
      ensures a in w.mapped
    {
      if In(a, p, n) {
        RegionsDisjointAndMapped(w, p, p, a);
      } else {
        RegionsDisjointAndMapped(w, q, q, a);
      }
    }
    var a := if p <= q then q else p;
    if n > 0 && In(a, p, n) && In(a, q, n) {
      RegionsDisjointAndMapped(w, p, q, a);
    }
  }

  lemma MappingLive(w: State, l: Lists, h: Entry<Huge>, ptr: nat)
    requires MappingFound(w, l, h, ptr)
    ensures ptr in w.live
  {
  }

  lemma StockWarm(views: seq<BinView>, views': seq<BinView>)
    requires Warm(views) && SameStock(views, views')
    ensures Warm(views')
  {
  }

  lemma HugeBlock(w: State, ptr: nat)
    requires WorldOk(w) && ptr in w.huges
    ensures w.huges[ptr].addr in w.blocks
  {
    hide MemoryOk, RunsMatch, ChunksFine, LiveIs;
    assert Has(w.chunks, w.runs, w.huges, HugeRecord(ptr), w.huges[ptr].addr);
  }

  /** The region at `ptr` is the last of its run that has not been released yet. */
  ghost predicate LastRegion(w: State, c: Entry<Chunk>, r: Entry<Run>, i: nat, ptr: nat, k: nat, base: nat, s: nat) {
    && i < |w.runs| && base in w.runs[i] && r.item.key == base && r.addr == w.runs[i][base].addr
    && At(w.runs, w.huges, Slot(i, base, s), ptr, SizeOfBin(i)) && RunIn(w.chunks, w.runs, c.item.key, k, i, base)
    && AllReleased(w.runs[i][base].items, BinElems(i), s)
  }

  /** What is left after region `s` of run `base` has been freed. Records and memory of the run are given
      back exactly if it was the last region of the run, and the record of the chunk exactly if then
      all of the chunk has been released. */
  ghost predicate GivenBack(w: State, w': State, key: nat, k: nat, i: nat, base: nat, s: nat, ptr: nat) {
    && i < |w.runs| && base in w.runs[i] && key in w.chunks && k < |w.chunks[key].handed| && s < |w.runs[i][base].items|
    && At(w.runs, w.huges, Slot(i, base, s), ptr, SizeOfBin(i))
    && if AllReleased(w.runs[i][base].items, BinElems(i), s) then
         && UnmapsTo(w.mapped, w'.mapped, base, RunBytes(i))
         && w' == w.(runs := DropRun(w.runs, i, base), chunks := DropFrom(w.chunks, key, k),
                     blocks := DropBlocks(w, key, k, i, base),
                     mapped := w'.mapped, live := w.live - {ptr})
       else
         w' == w.(runs := SetSlot(w.runs, i, base, s, STATE_ALLOC_FREE), live := w.live - {ptr})
  }

  lemma SlotGivenBack(w: State, w': State, l: Lists, c: Entry<Chunk>, r: Entry<Run>, i: nat, ptr: nat, k: nat,
                      base: nat, s: nat)
    requires RunFound(w, l, c, r, i, ptr, k, base) && i < |w.runs| && base in w.runs[i] && s < |w.runs[i][base].items|
    requires At(w.runs, w.huges, Slot(i, base, s), ptr, SizeOfBin(i))
             && !AllReleased(w.runs[i][base].items, BinElems(i), s)
    requires w' == w.(runs := SetSlot(w.runs, i, base, s, STATE_ALLOC_FREE), live := w.live - {ptr})
    ensures GivenBack(w, w', c.item.key, k, i, base, s, ptr)
  {
    hide At, RunBytes, SizeOfBin, BinElems, AllReleased;
  }

  lemma RunGivenBack(w: State, w': State, c: Entry<Chunk>, r: Entry<Run>, i: nat, ptr: nat, k: nat, base: nat, s: nat)
    requires LastRegion(w, c, r, i, ptr, k, base, s) && UnmapsTo(w.mapped, w'.mapped, base, RunBytes(i))
    requires c.item.key in w.chunks && k < |w.chunks[c.item.key].handed|
    requires i < |w.runs| && base in w.runs[i]
    requires w' == w.(runs := DropRun(w.runs, i, base), chunks := DropFrom(w.chunks, c.item.key, k),
                      blocks := DropBlocks(w, c.item.key, k, i, base), mapped := w'.mapped, live := w.live - {ptr})
    ensures GivenBack(w, w', c.item.key, k, i, base, s, ptr)
  {
    hide RunBytes, SizeOfBin, BinElems, AllReleased, RunIn, Covered;
  }

  lemma LastFacts(w: State, c: Entry<Chunk>, r: Entry<Run>, i: nat, ptr: nat, k: nat, base: nat, s: nat)
    requires WorldOk(w) && LastRegion(w, c, r, i, ptr, k, base, s)
    ensures i < |w.runs| && base in w.runs[i] && r.item.key == base && c.item.key in w.chunks
            && LiveIn(w.chunks[c.item.key], k)
    ensures k < |w.chunks[c.item.key].handed| && InTree(CHUNK_DEPTH, w.chunks[c.item.key].handed[k].node)
    ensures base == RunBase(c.item.key, CHUNK_DEPTH, w.chunks[c.item.key].handed[k].node)
    ensures RunBytes(i) == RunSize(CHUNK_DEPTH, w.chunks[c.item.key].handed[k].node)
    ensures RunIn(w.chunks, w.runs, c.item.key, k, i, base)
    ensures r.addr == w.runs[i][base].addr && r.addr in w.blocks
    ensures w.chunks[c.item.key].addr in w.blocks && w.chunks[c.item.key].addr != r.addr
  {
    hide MemoryOk, LiveIs, RunsMatch, ChunksFine, SizeOfBin, RunBytes, At;
    assert Has(w.chunks, w.runs, w.huges, RunRecord(i, base), r.addr);
    assert Has(w.chunks, w.runs, w.huges, ChunkRecord(c.item.key), w.chunks[c.item.key].addr);
  }

  /** What releasing a region does to its bin. */
  ghost predicate SlotReleased(w: State, w': State, l: Lists, l': Lists, i: nat, r: Entry<Run>, ptr: nat, ok: bool,
                               freeable: bool, s: nat) {
    && i < |w.runs| == ARENA_NO_BINS && r.item.key in w.runs[i]
    && (ok <==> exists t: nat :: Held(w.runs[i], SizeOfBin(i), BinElems(i), r.item.key, ptr, t))
    && (!ok ==> w' == w && !freeable)
    && (ok ==> Held(w.runs[i], SizeOfBin(i), BinElems(i), r.item.key, ptr, s) && s < |w.runs[i][r.item.key].items|)
    && (ok ==> (freeable <==> AllReleased(w.runs[i][r.item.key].items, BinElems(i), s)))
    && (ok && freeable ==> w' == w.(runs := DropRun(w.runs, i, r.item.key)))
    && (ok && !freeable ==> w' == w.(runs := SetSlot(w.runs, i, r.item.key, s, STATE_ALLOC_FREE)))
    && SameStock(l.views, l'.views) && l'.chunks == l.chunks && l'.huges == l.huges && l'.order == l.order
  }

  /** No bin has more or fewer free regions than before, and no run is new. */
  ghost predicate SameStock(views: seq<BinView>, views': seq<BinView>) {
    && |views| == |views'|
    && forall j :: 0 <= j < |views| ==>
      views'[j].avail == views[j].avail && (views[j].runs == map[] ==> views'[j].runs == map[])
  }

  lemma SlotReleasedFrom(w: State, w': State, l: Lists, l': Lists, i: nat, r: Entry<Run>, ptr: nat, ok: bool,
                         freeable: bool, s: nat)
    requires i < |l.views| == ARENA_NO_BINS && r.item.key in l.views[i].runs && l.views[i].size == SizeOfBin(i) > 0
    requires w.runs == RunsOf(l.views) && w' == w.(runs := RunsOf(l'.views)) && l' == l.(views := l'.views)
    requires var v, n := l.views[i], BinElems(i);
             && (ok <==> exists t: nat :: Held(v.runs, v.size, n, r.item.key, ptr, t))
             && (!ok ==> l'.views == l.views && !freeable)
             && (ok ==> Held(v.runs, v.size, n, r.item.key, ptr, s) && s < |v.runs[r.item.key].items|)
             && (ok ==> (freeable <==> AllReleased(v.runs[r.item.key].items, n, s)))
             && (ok && freeable ==>
                   l'.views == l.views[i := BinView(v.size, v.avail, v.runs - {r.item.key}, v.members - {r})])
             && (ok && !freeable ==> l'.views == l.views[i := BinView(v.size, v.avail,
                   v.runs[r.item.key := v.runs[r.item.key].(items := v.runs[r.item.key].items[s := STATE_ALLOC_FREE])],
                   v.members)])
    ensures SlotReleased(w, w', l, l', i, r, ptr, ok, freeable, s)
  {
    hide Held, AllReleased, SizeOfBin;
    assert w.runs[i] == l.views[i].runs;
    if ok && freeable {
      assert RunsOf(l'.views) == DropRun(w.runs, i, r.item.key);
    } else if ok {
      assert RunsOf(l'.views) == SetSlot(w.runs, i, r.item.key, s, STATE_ALLOC_FREE);
    }
  }

  /** A pointer is right behind the last region of a run, and the bitmap of the run ends with the slot
      of that region. */
  ghost predicate AtTail(w: State, ptr: nat) {
    exists i: nat, base :: i < |w.runs| && base in w.runs[i] && In(ptr, base, RunBytes(i))
                           && ptr == Region(base, SizeOfBin(i), BinElems(i)) && BinElems(i) % 4 == 0
  }

  /** For a pointer into a run, these are exactly the pointers for which the bitmap is read behind its end. */
  lemma TailIff(w: State, i: nat, base: nat, ptr: nat)
    requires WorldOk(w) && i < |w.runs| && base in w.runs[i] && In(ptr, base, RunBytes(i)) && SizeOfBin(i) > 0
    ensures AtTail(w, ptr) <==> !ReadsInside(ptr - base, SizeOfBin(i), BinElems(i))
  {
    hide SizeOfBin, RunBytes, ChunksFine, RecordsOk, RunIn, Owns, LiveIs, ReadsInside, RunPages;
    BinsCount(w);
    TailOffset(base, i, ptr);
    if AtTail(w, ptr) {
      var j: nat, b :| j < |w.runs| && b in w.runs[j] && In(ptr, b, RunBytes(j))
                       && ptr == Region(b, SizeOfBin(j), BinElems(j))
                       && BinElems(j) % 4 == 0;
      assert HasChunk(w.chunks, w.runs, i, base) && HasChunk(w.chunks, w.runs, j, b);
      var key, k :| RunIn(w.chunks, w.runs, key, k, i, base);
      var key', k' :| RunIn(w.chunks, w.runs, key', k', j, b);
      OneRun(w.chunks, w.runs, w.huges, w.arenas, w.mapped, ptr, key, k, i, base, key', k', j, b);
    }
  }

  lemma TailOffset(base: nat, i: nat, ptr: nat)
    requires In(ptr, base, RunBytes(i)) && SizeOfBin(i) > 0
    ensures !ReadsInside(ptr - base, SizeOfBin(i), BinElems(i)) <==>
            ptr == Region(base, SizeOfBin(i), BinElems(i)) && BinElems(i) % 4 == 0
  {
    hide SizeOfBin, ReadsInside, RunPages;
    BehindBitmap(ptr - base, RunBytes(i), SizeOfBin(i));
  }

  lemma RunFoundFacts(w: State, l: Lists, c: Entry<Chunk>, r: Entry<Run>, i: nat, ptr: nat, k: nat, base: nat)
    requires RunFound(w, l, c, r, i, ptr, k, base)
    ensures |l.views| == ARENA_NO_BINS && |w.runs| == ARENA_NO_BINS && i < ARENA_NO_BINS && c in l.chunks
            && r in l.views[i].members
    ensures base in w.runs[i] && r.item.key == base <= ptr && In(ptr, base, RunBytes(i))
  {
  }

  /** What the outcome means for the pointer. */
  lemma SlotOutcome(w: State, w': State, l: Lists, l': Lists, c: Entry<Chunk>, r: Entry<Run>, i: nat, ptr: nat,
                    k: nat, base: nat,
                 ok: bool, freeable: bool, s: nat)
    requires WorldOk(w) && RunFound(w, l, c, r, i, ptr, k, base)
             && SlotReleased(w, w', l, l', i, r, ptr, ok, freeable, s)
    ensures ok <==> ptr in w.live
    ensures !ok ==> w' == w && w.live - {ptr} == w.live
    ensures SameStock(l.views, l'.views) && l'.chunks == l.chunks && l'.huges == l.huges && c in l'.chunks
    ensures l'.order == l.order
    ensures ok && freeable ==> LastRegion(w, c, r, i, ptr, k, base, s) && w' == w.(runs := DropRun(w.runs, i, base))
    ensures ok && !freeable ==> i < |w.runs| && base in w.runs[i] && s < |w.runs[i][base].items|
                                && !AllReleased(w.runs[i][base].items, BinElems(i), s)
                                && w' == w.(runs := SetSlot(w.runs, i, base, s, STATE_ALLOC_FREE))
                                && At(w.runs, w.huges, Slot(i, base, s), ptr, SizeOfBin(i))
  {
    hide SizeOfBin, RunBytes, RunIn, ChunksFine, MemoryOk, RecordsOk, RunsMatch, Region, RunElems, SameStock;
    if ok {
      assert At(w.runs, w.huges, Slot(i, base, s), ptr, SizeOfBin(i));
    }
    if ptr in w.live {
      var t :| At(w.runs, w.huges, Slot(i, base, t), ptr, SizeOfBin(i));
      assert Held(w.runs[i], SizeOfBin(i), BinElems(i), r.item.key, ptr, t);
    }
  }

  /** Freeing a region is one call. */
  lemma GivenBackLasts(w: State, w': State, key: nat, k: nat, i: nat, base: nat, s: nat, ptr: nat)
    requires WorldOk(w) && GivenBack(w, w', key, k, i, base, s, ptr)
    ensures OneCall(w, w') && w'.mapped <= w.mapped
  {
    hide At, RunBytes, SizeOfBin, BinElems, AllReleased, DropBlocks, DropFrom, OneCall, ChunksFine, MemoryOk,
         RecordsOk, LiveIs;
    if AllReleased(w.runs[i][base].items, BinElems(i), s) {
      RunLasts(w, w', i, base, ptr);
    } else {
      SlotLasts(w, w', i, base, s, ptr);
    }
  }

  /** The records that a pointer belongs to. */
  datatype Located = NotFound | InRun(chunk: Entry<Chunk>, run: Entry<Run>, bin: nat) | InMapping(huge: Entry<Huge>)

  ghost predicate MappingFound(w: State, l: Lists, h: Entry<Huge>, ptr: nat) {
    ptr in w.huges && ptr in l.huges && l.huges[ptr] == h && ptr in w.live && w.live[ptr] == w.huges[ptr].len
  }

  /** The chunk, run and bin found are those of the pointer; if a region in use starts there, it is
      a region of this run. */
  ghost predicate RunFound(w: State, l: Lists, e: Entry<Chunk>, r: Entry<Run>, i: nat, ptr: nat, k: nat, base: nat) {
    && |l.views| == ARENA_NO_BINS && |w.runs| == ARENA_NO_BINS && e in l.chunks && i < ARENA_NO_BINS
    && r in l.views[i].members
    && e.item.key in w.chunks && r.item.key == base && base in w.runs[i] && r.addr == w.runs[i][base].addr
    && RunIn(w.chunks, w.runs, e.item.key, k, i, base) && In(ptr, base, RunBytes(i))
    && (ptr in w.live ==> exists s :: At(w.runs, w.huges, Slot(i, base, s), ptr, SizeOfBin(i)))
  }

  ghost predicate AllSilent(chunks: ChunkTable, ptr: nat) {
    forall key :: key in chunks ==> Silent(key, chunks[key], ptr)
  }

  /** If all chunks are silent about a pointer, only a mapping can be in use there. */
  lemma SilentMeans(w: State, ptr: nat)
    requires WorldOk(w) && AllSilent(w.chunks, ptr)
    ensures ptr in w.live ==> ptr in w.huges
  {
    hide RecordsOk, ChunksFine, MemoryOk, RunIn, Answers, RunsMatch;
    if ptr in w.live {
      var pl :| At(w.runs, w.huges, pl, ptr, w.live[ptr]);
      if pl.Slot? {
        var key, k := SlotChunk(w, pl.bin, pl.base, pl.s, ptr, w.live[ptr]);
        LiveAnswers(w, pl.bin, pl.base, pl.s, ptr, w.live[ptr], key, k);
      }
    }
  }

  lemma SlotChunk(w: State, i: nat, base: nat, s: nat, p: nat, n: nat) returns (key: nat, k: nat)
    requires WorldOk(w) && At(w.runs, w.huges, Slot(i, base, s), p, n)
    ensures RunIn(w.chunks, w.runs, key, k, i, base) && key in w.chunks
  {
    hide RecordsOk, ChunksFine, MemoryOk, LiveIs;
    assert HasChunk(w.chunks, w.runs, i, base);
    key, k :| RunIn(w.chunks, w.runs, key, k, i, base);
  }

  lemma MappingFoundFrom(w: State, l: Lists, h: Entry<Huge>, ptr: nat)
    requires WorldOk(w) && ptr in w.huges && ptr in l.huges && l.huges[ptr] == h
    ensures MappingFound(w, l, h, ptr)
  {
    assert At(w.runs, w.huges, Mapping(ptr), ptr, w.huges[ptr].len);
  }

  lemma RunFoundFrom(w: State, l: Lists, e: Entry<Chunk>, key: nat, r: Entry<Run>, i: nat, ptr: nat, k: nat, base: nat)
    requires WorldOk(w) && |l.views| == ARENA_NO_BINS && e in l.chunks && i < ARENA_NO_BINS && r in l.views[i].members
    requires e.item.key == key && key in w.chunks && r.item.key == base && RunIn(w.chunks, w.runs, key, k, i, base)
             && In(ptr, base, RunBytes(i))
    requires Answers(key, w.chunks[key], k, ptr) && |w.runs| == ARENA_NO_BINS && base in w.runs[i]
             && r.addr == w.runs[i][base].addr
    ensures RunFound(w, l, e, r, i, ptr, k, base)
  {
    hide RecordsOk, ChunksFine, MemoryOk, RunIn, Answers, RunBytes, RunsMatch, SizeOfBin;
    BinsCount(w);
    if ptr in w.live {
      var pl :| At(w.runs, w.huges, pl, ptr, w.live[ptr]);
      LiveLength(w, pl, ptr, w.live[ptr]);
      if pl.Mapping? {
        MappingSilent(w, ptr, w.live[ptr]);
      } else {
        var key', k' := SlotChunk(w, pl.bin, pl.base, pl.s, ptr, w.live[ptr]);
        SlotInRun(w.runs, w.huges, pl.bin, pl.base, pl.s, ptr, w.live[ptr], ptr);
        var i0, base0 := AnswersOnce(w, key, k, ptr);
        assert i0 == i && base0 == base;
        assert pl == Slot(i, base, pl.s) && w.live[ptr] == SizeOfBin(i);
      }
    }
  }

  /** Usable size of the region that serves a request. */
  function UsableSize(request: nat): (n: nat)
    ensures request <= MAX_REQUEST ==> n >= request
  {
    var size := if request == 0 then SMALL_SIZE_MIN_REGION else request;
    if IsHuge(size) then PageAligned(size); AlignUpPage(size)
    else ClassIsLeast(size); ClassFor(size)
  }

  predicate Pages(n: nat) {
    n % PAGE_SIZE == 0
  }

  /** The least multiple of a page that is not below `request`. */
  ghost predicate LeastPages(request: nat, n: nat) {
    request <= n && Pages(n) && forall m :: Pages(m) && request <= m ==> n <= m
  }

  /** The size of the region that has to serve a request: the least class that holds it, or beyond 1 MB
      the least multiple of a page. */
  ghost predicate IsSizeFor(request: nat, n: nat) {
    if request > LARGE_SIZE_MAX_REGION then LeastPages(request, n)
    else request <= n && IsClass(n) && forall c :: IsClass(c) && request <= c ==> n <= c
  }

  /** The size of the region after a reallocation. Huge regions are asked for in whole pages; where the
      rounding wraps around, and where a region of a run shall get size 0, the size is what the
      original's arithmetic leaves. */
  ghost predicate IsNewSize(newSize: nat, huge: bool, n: nat) {
    if huge && newSize > MAX_REQUEST then n == SMALL_SIZE_MIN_REGION
    else if huge then exists m :: LeastPages(newSize, m) && IsSizeFor(m, n)
    else if newSize == 0 then n == LARGE_SIZE_MIN_REGION
    else IsSizeFor(newSize, n)
  }

  /** The region at `ptr` serves `n` bytes; exactly these are cleared, and nothing else is written. */
  ghost predicate IsArrayFor(n: nat, ptr: nat, len: nat, before: map<nat, bv8>, after: map<nat, bv8>) {
    && IsSizeFor(n, len)
    && (forall a: nat :: In(a, ptr, n) ==> a in after && after[a] == 0)
    && (forall a :: a in before && !In(a, ptr, n) ==> a in after && after[a] == before[a])
  }

  /** The region at `ptr` serves an array: it is for the number of its bytes, in 64 bits. */
  ghost predicate ArrayServed(nmemb: nat, size: nat, ptr: nat, len: nat, before: map<nat, bv8>, after: map<nat, bv8>) {
    && (forall n: nat :: IsWordOf(n, nmemb * size) ==> IsArrayFor(n, ptr, len, before, after))
    && (0 < nmemb * size < WORD_LIMIT ==> IsArrayFor(nmemb * size, ptr, len, before, after))
  }

  lemma ServesArray(nmemb: nat, size: nat, n: nat, ptr: nat, len: nat, before: map<nat, bv8>, after: map<nat, bv8>)
    requires n == Product(nmemb, size) && IsArrayFor(n, ptr, len, before, after)
    ensures ArrayServed(nmemb, size, ptr, len, before, after)
  {
    hide IsArrayFor, Product;
    WordOf(nmemb * size);
    assert IsWordOf(n, nmemb * size);
  }

  lemma PagesLeast(n: nat)
    requires n <= MAX_REQUEST
    ensures LeastPages(n, AlignUpPage(n))
  {
    PageAligned(n);
  }

  lemma UsableIsSize(request: nat)
    requires request <= MAX_REQUEST
    ensures IsSizeFor(request, UsableSize(request))
  {
    hide ClassFor, IsClass, LeastPages;
    PagesLeast(request);
    ClassIsLeast(if 1 <= request <= LARGE_SIZE_MAX_REGION then request else SMALL_SIZE_MIN_REGION);
    SmallestClass();
    forall c: nat | IsClass(c)
      ensures c >= SMALL_SIZE_MIN_REGION
    {
      AtLeastSmallest(c);
    }
  }

  lemma AtLeastSmallest(c: nat)
    requires IsClass(c)
    ensures c >= SMALL_SIZE_MIN_REGION
  {
    hide IsClass;
    ClassesAre(c);
  }

  lemma ServedIsNewSize(newSize: nat, huge: bool)
    requires newSize < WORD_LIMIT && (huge || newSize <= MAX_REQUEST)
    ensures IsNewSize(newSize, huge, UsableSize(ServedSize(newSize, huge)))
  {
    hide ClassFor, IsClass, IsSizeFor, LeastPages, UsableSize;
    PageRoundsUp(newSize);
    PageAligned(newSize);
    UsableIsSize(ServedSize(newSize, huge));
    if huge && newSize <= MAX_REQUEST {
      PagesLeast(newSize);
    }
    SmallSizes();
  }

  lemma SmallSizes()
    ensures UsableSize(0) == SMALL_SIZE_MIN_REGION && UsableSize(LARGE_SIZE_MIN_REGION) == LARGE_SIZE_MIN_REGION
  {
    hide ClassFor, IsClass;
    SmallestClass();
    ClassesAre(LARGE_SIZE_MIN_REGION);
    ClassFixed(LARGE_SIZE_MIN_REGION);
  }

  /** A region is as large as requested exactly if rounding the request up does not wrap around. */
  lemma UsableIff(request: nat)
    requires request < WORD_LIMIT
    ensures UsableSize(request) >= request <==> request <= MAX_REQUEST
    ensures UsableSize(request) <= MAX_REQUEST
  {
    hide ClassFor;
    PageRoundsUp(request);
    PageAligned(request);
    if 1 <= request <= LARGE_SIZE_MAX_REGION {
      ClassIsLeast(request);
    }
    SmallestClass();
  }

  /** A request is huge exactly if the region for it is. */
  lemma UsableHugeIff(request: nat)
    requires request <= MAX_REQUEST
    ensures IsHuge(UsableSize(request)) <==> IsHuge(request)
  {
    hide ClassFor, IsClass;
    PageAligned(request);
    SmallestClass();
    if 1 <= request <= LARGE_SIZE_MAX_REGION {
      ClassIsLeast(request);
      ClassUnits(ClassFor(request));
    }
  }

  lemma SmallestClass()
    ensures ClassFor(SMALL_SIZE_MIN_REGION) == SMALL_SIZE_MIN_REGION
  {
  }

  /** The region for an array holds it exactly if the number of its bytes is a word. */
  lemma ArrayFits(nmemb: nat, size: nat)
    requires Product(nmemb, size) <= MAX_REQUEST
    ensures UsableSize(Product(nmemb, size)) >= nmemb * size <==> nmemb * size < WORD_LIMIT
  {
    hide UsableSize;
    UsableIff(Product(nmemb, size));
  }

  /** An array of 2^32 members of 2^32 bytes gets 16 bytes. */
  lemma ArrayExample()
    ensures Product(0x1_0000_0000, 0x1_0000_0000) == 0 && UsableSize(Product(0x1_0000_0000, 0x1_0000_0000)) == 16
  {
    SmallestClass();
  }

  /** A huge region gets at least the new size exactly if rounding it up does not wrap around. */
  lemma ReallocFits(newSize: nat)
    requires newSize < WORD_LIMIT
    ensures UsableSize(ServedSize(newSize, true)) >= newSize <==> newSize <= MAX_REQUEST
    ensures newSize > MAX_REQUEST ==> UsableSize(ServedSize(newSize, true)) == 16
  {
    hide ClassFor;
    PageRoundsUp(newSize);
    PageAligned(newSize);
    UsableIff(AlignUpPage(newSize));
    SmallestClass();
  }

  /** Runs are added below 256 free regions only, and one run more is enough. */
  predicate Stocked(avail: nat) {
    BIN_MINIMUM_REGIONS - 1 <= avail < BIN_MINIMUM_REGIONS + MAX_ELEMS
  }

  /** Free regions of a bin after one has been taken. Runs of `elems` regions are added only below 256: one
      at a time, or as many as needed at the first use. */
  predicate StockServed(avail: nat, avail': nat, elems: nat) {
    if avail == 0 then BIN_MINIMUM_REGIONS <= avail' + 1 < BIN_MINIMUM_REGIONS + elems
    else avail' == avail + (if avail < BIN_MINIMUM_REGIONS then elems else 0) - 1
  }

  /** A region of the given size has been taken from the bin of its class. No other bin has changed, and
      chunks have been mapped only as far as needed. */
  ghost predicate ServedFrom(l: Lists, l': Lists, chunks': ChunkTable, size: nat) {
    exists i: nat ::
      && i < |l.views| == |l'.views| == ARENA_NO_BINS && SizeOfBin(i) == size
      && (forall j :: 0 <= j < ARENA_NO_BINS && j != i ==> l'.views[j] == l.views[j])
      && StockServed(l.views[i].avail, l'.views[i].avail, BinElems(i))
      && OrderGrown(l.order, l'.order, chunks', RunBytes(i))
  }

  /** What serving a request with a region of the given size takes. */
  ghost predicate RequestServed(l: Lists, l': Lists, chunks': ChunkTable, size: nat) {
    && MetaGrown(l.meta, l'.meta)
    && if IsHuge(size) then l' == l.(huges := l'.huges, meta := l'.meta) else ServedFrom(l, l', chunks', size)
  }

  /** At most one chunk has been taken off the list. */
  ghost predicate OrderDropped(order: seq<nat>, order': seq<nat>) {
    order' == order || exists key :: Unlisted(order, order', key)
  }

  /** Bin `i` has served a region, and `o` is the list of chunks before one of them may have been dropped. */
  ghost predicate ReallocFrom(l: Lists, l': Lists, chunks': ChunkTable, size: nat, i: nat, o: seq<nat>)
    requires |l.views| == |l'.views| == ARENA_NO_BINS
  {
    && i < ARENA_NO_BINS && SizeOfBin(i) == size && OrderDropped(o, l'.order)
    && (forall j :: 0 <= j < ARENA_NO_BINS && j != i ==> l'.views[j].avail == l.views[j].avail)
    && StockServed(l.views[i].avail, l'.views[i].avail, BinElems(i))
    && |l.order| <= |o| && o[|o| - |l.order|..] == l.order
    && (|o| > |l.order| ==> forall j :: 1 <= j < |o| && o[j] in chunks' ==> NoRoom(chunks'[o[j]], RunBytes(i)))
  }

  lemma NothingDropped(order: seq<nat>)
    ensures OrderDropped(order, order)
  {
  }

  /** What is left of that once the old region has been given back, and possibly its chunk with it. */
  ghost predicate ReallocServed(l: Lists, l': Lists, chunks': ChunkTable, size: nat) {
    && |l.views| == |l'.views| == ARENA_NO_BINS
    && if IsHuge(size) then
         (forall j :: 0 <= j < ARENA_NO_BINS ==> l'.views[j].avail == l.views[j].avail)
         && OrderDropped(l.order, l'.order)
       else
         exists i: nat, o: seq<nat> :: ReallocFrom(l, l', chunks', size, i, o)
  }

  /** Whatever is still listed has not handed out anything. */
  ghost predicate HandedSame(chunks: ChunkTable, chunks': ChunkTable) {
    forall key :: key in chunks' ==> key in chunks && chunks'[key].handed == chunks[key].handed
  }

  lemma ThenDropped(l: Lists, l1: Lists, l': Lists, chunks1: ChunkTable, chunks': ChunkTable, size: nat)
    requires RequestServed(l, l1, chunks1, size) && |l.views| == ARENA_NO_BINS && SameStock(l1.views, l'.views)
    requires OrderDropped(l1.order, l'.order) && HandedSame(chunks1, chunks')
    ensures ReallocServed(l, l', chunks', size)
  {
    hide OrderDropped, NoRoom, SizeOfBin, BinElems, RunBytes, StockServed;
    if !IsHuge(size) {
      var i: nat :| && i < |l.views| == |l1.views| == ARENA_NO_BINS && SizeOfBin(i) == size
                    && (forall j :: 0 <= j < ARENA_NO_BINS && j != i ==> l1.views[j] == l.views[j])
                    && StockServed(l.views[i].avail, l1.views[i].avail, BinElems(i))
                    && OrderGrown(l.order, l1.order, chunks1, RunBytes(i));
      var o := l1.order;
      forall j | 1 <= j < |o| && |o| > |l.order| && o[j] in chunks'
        ensures NoRoom(chunks'[o[j]], RunBytes(i))
      {
        StillNoRoom(chunks1[o[j]], chunks'[o[j]], RunBytes(i));
      }
      assert ReallocFrom(l, l', chunks', size, i, o);
    }
  }

  /** Giving back a huge region leaves the bins and the list of chunks alone. */
  lemma ThenSame(l: Lists, l1: Lists, l': Lists, chunks: ChunkTable, size: nat)
    requires RequestServed(l, l1, chunks, size) && |l.views| == ARENA_NO_BINS && l' == l1.(meta := l'.meta)
    ensures ReallocServed(l, l', chunks, size)
  {
    hide RequestServed, ReallocServed;
    StockSame(l1.views);
    ThenDropped(l, l1, l', chunks, chunks, size);
  }

  lemma StockSame(views: seq<BinView>)
    ensures SameStock(views, views)
  {
  }

  lemma NothingServed(l: Lists, l': Lists, chunks: ChunkTable, size: nat)
    requires l' == l.(huges := l'.huges) && |l.views| == ARENA_NO_BINS && IsHuge(size)
    ensures ReallocServed(l, l', chunks, size)
  {
  }

  lemma GivenBackHanded(w: State, w': State, key: nat, k: nat, i: nat, base: nat, s: nat, ptr: nat)
    requires GivenBack(w, w', key, k, i, base, s, ptr)
    ensures HandedSame(w.chunks, w'.chunks)
  {
    hide At, RunBytes, SizeOfBin, BinElems, AllReleased, DropBlocks, Covered;
  }

  lemma ServedFromBin(l: Lists, l1: Lists, l': Lists, chunks': ChunkTable, i: nat, size: nat)
    requires BinReady(l, l1, i, size) && SizeOfBin(i) == size && Supplied(l1, l', i)
    requires StockServed(l1.views[i].avail, l'.views[i].avail, BinElems(i))
             && OrderGrown(l1.order, l'.order, chunks', RunBytes(i))
    ensures ServedFrom(l, l', chunks', size)
  {
    hide StockServed, OrderGrown, SizeOfBin, BinElems, RunBytes;
    assert l1.order == l.order && l1.views[i].avail == l.views[i].avail;
  }

  /** A bin has never been used, or it has its stock of free regions. */
  ghost predicate Warm(views: seq<BinView>) {
    && |views| == ARENA_NO_BINS
    && forall j :: 0 <= j < ARENA_NO_BINS ==> (views[j].avail == 0 && views[j].runs == map[]) || Stocked(views[j].avail)
  }

  lemma WarmCount(views: seq<BinView>)
    requires Warm(views)
    ensures |views| == ARENA_NO_BINS
  {
  }

  /** Whatever was listed is still listed. */
  ghost predicate StillListed(l: Lists, l': Lists) {
    && |l.views| == |l'.views| == ARENA_NO_BINS && l.chunks <= l'.chunks && l'.huges == l.huges
    && forall j :: 0 <= j < ARENA_NO_BINS ==> l.views[j].members <= l'.views[j].members
  }

  lemma ReadyBin(l: Lists, l1: Lists, i: nat, regSize: nat)
    requires BinReady(l, l1, i, regSize) && Warm(l.views)
    ensures i < |l1.views| == ARENA_NO_BINS && l1.views[i].size == regSize > 0 && Warm(l1.views) && l1.meta == l.meta
    ensures l1.views[i].avail == 0 || Stocked(l1.views[i].avail)
  {
  }

  lemma AllocatedStill(l: Lists, l1: Lists, l3: Lists, i: nat, regSize: nat)
    requires BinReady(l, l1, i, regSize) && Supplied(l1, l3, i)
    requires Warm(l.views) && Stocked(l3.views[i].avail)
    ensures StillListed(l, l3) && Warm(l3.views)
  {
  }

  /** Bin `i` has one free region less. */
  ghost predicate RegionTaken(l: Lists, l': Lists, i: nat) {
    && i < |l.views| == |l'.views| == ARENA_NO_BINS && l.views[i].avail > 0 && l.views[i].size > 0
    && l' == l.(views := l.views[i := l'.views[i]])
    && l'.views[i] == l.views[i].(avail := l.views[i].avail - 1, runs := l'.views[i].runs)
  }

  /** Bin `i` serves regions of the given size. */
  ghost predicate BinReady(l: Lists, l': Lists, i: nat, regSize: nat) {
    && i < |l.views| == |l'.views| && regSize > 0
    && l' == l.(views := l.views[i := l.views[i].(size := regSize)])
    && (l.views[i].size == 0 || l.views[i].size == regSize)
  }

  /** Bin `i` has got new runs; all entries listed before are still listed. */
  ghost predicate Supplied(l: Lists, l': Lists, i: nat) {
    && i < |l.views| == |l'.views| == ARENA_NO_BINS && l.chunks <= l'.chunks && l'.huges == l.huges
    && l'.views == l.views[i := l'.views[i]] && l'.views[i].size == l.views[i].size > 0
    && l.views[i].members <= l'.views[i].members
  }

  lemma SuppliedNone(l: Lists, i: nat)
    requires i < |l.views| == ARENA_NO_BINS && l.views[i].size > 0
    ensures Supplied(l, l, i)
  {
  }

  /** A run is added exactly if fewer than 256 regions are free. */
  lemma AddedStock(l0: Lists, l1: Lists, i: nat, added: bool)
    requires i < |l0.views| == ARENA_NO_BINS && l0.views[i].size == SizeOfBin(i) > 0
    requires if added then RunAdded(l0, l1, i) else l1 == l0
    ensures i < |l1.views| == ARENA_NO_BINS && l1.views[i].size == l0.views[i].size && Supplied(l0, l1, i)
    ensures l1.views[i].avail == l0.views[i].avail + (if added then BinElems(i) else 0)
    ensures 1 <= BinElems(i) <= MAX_ELEMS
  {
    hide RunElems;
    assert IsClass(SizeOfBin(i));
    ElemsBounds(SizeOfBin(i));
  }

  lemma TakenStock(l0: Lists, l1: Lists, l2: Lists, i: nat)
    requires Supplied(l0, l1, i) && RegionTaken(l1, l2, i)
    ensures Supplied(l0, l2, i) && l2.views[i].avail == l1.views[i].avail - 1
  {
  }

  lemma SuppliedAgain(l: Lists, l1: Lists, l2: Lists, i: nat)
    requires Supplied(l, l1, i) && RunAdded(l1, l2, i)
    ensures Supplied(l, l2, i) && i < |l2.views| == ARENA_NO_BINS && l2.views[i].size == l1.views[i].size
    ensures l2.views[i].avail == l1.views[i].avail + RunElems(l2.views[i].size)
  {
    hide RunElems;
  }

  lemma EnoughRuns(need: nat, elems: nat)
    requires elems >= 1 && need >= 1
    ensures need <= CeilDiv(need, elems) * elems < need + elems
  {
    var q, r := need / elems, need % elems;
    Parts(need, elems);
    assert (q + 1) * elems == q * elems + elems;
  }

  lemma NextRun(k: nat, elems: nat)
    ensures (k + 1) * elems == k * elems + elems
  {
  }

  lemma RunsOfSet(views: seq<BinView>, views': seq<BinView>, i: nat, base: nat, v: RunView)
    requires i < |views| == |views'| && views' == views[i := views'[i]] && views'[i].runs == views[i].runs[base := v]
    ensures RunsOf(views') == SetRun(RunsOf(views), i, base, v)
  {
  }

  lemma TakenGrows(w: State, w': State, key: nat, x: nat, runSize: nat, regSize: nat, draws: seq<nat>, base: nat)
    requires RunTaken(w, w', key, x, runSize, regSize, draws, base)
    ensures WorldGrown(w, w')
  {
  }

  /** A run without regions in use has been put into bin `i`. */
  ghost predicate RunListed(l: Lists, l': Lists, i: nat, base: nat, addr: int, items: seq<TwoBit>) {
    && i < |l.views| == |l'.views| && l'.chunks == l.chunks && l'.huges == l.huges && l'.order == l.order
    && l'.views == l.views[i := l'.views[i]] && l'.views[i].size == l.views[i].size > 0
    && l.views[i].members <= l'.views[i].members
    && l'.views[i].avail == l.views[i].avail + RunElems(l.views[i].size)
  }

  lemma ListedBeside(l: Lists, l1: Lists, l': Lists, i: nat, base: nat, addr: int, items: seq<TwoBit>)
    requires l1 == l.(meta := l1.meta) && RunListed(l1, l', i, base, addr, items)
    ensures RunListed(l, l', i, base, addr, items)
  {
  }

  /** Bin `i` has got a new run; all entries listed before are still listed. */
  ghost predicate RunAdded(l: Lists, l': Lists, i: nat) {
    && i < |l.views| == |l'.views| && l.chunks <= l'.chunks && l'.huges == l.huges
    && l'.views == l.views[i := l'.views[i]] && l'.views[i].size == l.views[i].size > 0
    && l.views[i].members <= l'.views[i].members
    && l'.views[i].avail == l.views[i].avail + RunElems(l.views[i].size)
  }

  lemma TakenMemory(w: State, w': State, key: nat, x: nat, i: nat, draws: seq<nat>, base: nat)
    requires WorldOk(w) && RunTaken(w, w', key, x, RunBytes(i), SizeOfBin(i), draws, base)
    ensures MemoryOk(w'.chunks, w'.huges, w'.arenas, w'.mapped) && key in w.chunks
    ensures w' == w.(chunks := w.chunks[key := HandedOut(w.chunks[key], x, SizeOfBin(i))])
  {
    hide MemoryOk, SizeOfBin, RunsMatch, RecordsOk, LiveIs, RunBytes, Room;
    NewRunMemory(w, w'.chunks, key, x, i);
  }

  lemma BaseIsNew(w: State, w1: State, key: nat, x: nat, i: nat, draws: seq<nat>, base: nat)
    requires WorldOk(w1) && w1.chunks == w.chunks && w1.runs == w.runs && i < ARENA_NO_BINS
    requires exists w' :: RunTaken(w, w', key, x, RunBytes(i), SizeOfBin(i), draws, base)
    ensures key in w.chunks && Room(w.chunks[key], RunBytes(i), x) && base == RunBase(key, CHUNK_DEPTH, x)
    ensures i < |w1.runs| && base !in w1.runs[i]
  {
    hide SizeOfBin, RunBytes, RunsMatch, RecordsOk, LiveIs, Room, MemoryOk, ChunksFine;
    FreshBase(w1, key, x, RunBytes(i), i, base);
    BinsCount(w1);
  }

  /** Node `x` of the chunk at `key` has been handed out. */
  ghost predicate RunTaken(w: State, w': State, key: nat, x: nat, runSize: nat, regSize: nat, draws: seq<nat>,
                           base: nat) {
    && ChunkServes(w.chunks, w'.chunks, key, x, runSize, regSize, draws, base) && w' == w.(chunks := w'.chunks)
  }

  /** Chunk `key` hands out the node that the draws choose. */
  ghost predicate ChunkServes(chunks: ChunkTable, chunks': ChunkTable, key: nat, x: nat, runSize: nat, regSize: nat,
                              draws: seq<nat>, base: nat) {
    && key in chunks && Room(chunks[key], runSize, x) && Chosen(chunks[key], runSize, draws, x)
    && base == RunBase(key, CHUNK_DEPTH, x) && chunks' == chunks[key := HandedOut(chunks[key], x, regSize)]
  }

  lemma TakenServes(w: State, w': State, key: nat, x: nat, runSize: nat, regSize: nat, draws: seq<nat>, base: nat)
    requires RunTaken(w, w', key, x, runSize, regSize, draws, base)
    ensures ChunkServes(w.chunks, w'.chunks, key, x, runSize, regSize, draws, base)
  {
  }

  /** Where a run of `bytes` bytes comes from: from the first listed chunk that has room, or if none has,
      from a new chunk, which is listed first. */
  ghost predicate FromChunk(order: seq<nat>, chunks: ChunkTable, order': seq<nat>, chunks': ChunkTable, key: nat,
                            bytes: nat) {
    || (order' == order && chunks' == chunks && FirstWithRoom(order, chunks, bytes, key))
    || (&& order' == [key] + order && key !in chunks && (forall k :: k in chunks ==> NoRoom(chunks[k], bytes))
        && key in chunks' && chunks' == chunks[key := chunks'[key]] && chunks'[key].handed == []
        && chunks'[key].released == {})
  }

  /** New chunks are listed first, and there are some only if no chunk listed behind the first of them has
      room for a run of `bytes` bytes. */
  ghost predicate OrderGrown(order: seq<nat>, order': seq<nat>, chunks': ChunkTable, bytes: nat) {
    && |order| <= |order'| && order'[|order'| - |order|..] == order
    && (|order'| > |order| ==> forall j :: 1 <= j < |order'| ==>
          order'[j] in chunks' && NoRoom(chunks'[order'[j]], bytes))
  }

  lemma SuffixOn(o0: seq<nat>, o1: seq<nat>, o2: seq<nat>)
    requires |o0| <= |o1| <= |o2| && o1[|o1| - |o0|..] == o0 && o2[|o2| - |o1|..] == o1
    ensures o2[|o2| - |o0|..] == o0
    ensures |o2| == |o1| ==> o2 == o1
  {
    assert o2[|o2| - |o0|..] == o2[|o2| - |o1|..][|o1| - |o0|..];
  }

  lemma OrderGrownOn(o0: seq<nat>, o1: seq<nat>, o2: seq<nat>, c1: ChunkTable, c2: ChunkTable, bytes: nat)
    requires OrderGrown(o0, o1, c1, bytes) && OrderGrown(o1, o2, c2, bytes) && ChunksGrown(c1, c2)
    ensures OrderGrown(o0, o2, c2, bytes)
  {
    hide NoRoom;
    SuffixOn(o0, o1, o2);
    if |o2| == |o1| {
      forall j | 1 <= j < |o2| && |o2| > |o0|
        ensures o2[j] in c2 && NoRoom(c2[o2[j]], bytes)
      {
        StillNoRoom(c1[o1[j]], c2[o1[j]], bytes);
      }
    }
  }

  /** Nothing has been given back, and chunks have been mapped for runs of bin `i` only as far as needed. */
  ghost predicate GrownFor(w: State, l: Lists, w': State, l': Lists, i: nat) {
    WorldGrown(w, w') && OrderGrown(l.order, l'.order, w'.chunks, RunBytes(i)) && MetaGrown(l.meta, l'.meta)
  }

  /** New metadata arenas are listed first, and there are some only if no arena listed behind the first of
      them has room for the largest record. */
  ghost predicate MetaGrown(m: MetaView, m': MetaView) {
    && |m.order| <= |m'.order| && m'.order[|m'.order| - |m.order|..] == m.order
    && TableGrown(m.table, m'.table) && (|m'.order| > |m.order| ==> OthersRefuse(m'))
  }

  ghost predicate TableGrown(table: map<nat, set<nat>>, table': map<nat, set<nat>>) {
    forall b :: b in table ==> b in table' && table[b] <= table'[b]
  }

  ghost predicate OthersRefuse(m: MetaView) {
    forall j :: 1 <= j < |m.order| ==> m.order[j] in m.table && Refuses(m.table[m.order[j]], CHUNK_RECORD)
  }

  lemma TableGrownOn(t0: map<nat, set<nat>>, t1: map<nat, set<nat>>, t2: map<nat, set<nat>>)
    requires TableGrown(t0, t1) && TableGrown(t1, t2)
    ensures TableGrown(t0, t2)
  {
  }

  lemma StillRefuse(m: MetaView, m': MetaView)
    requires OthersRefuse(m) && TableGrown(m.table, m'.table) && m'.order == m.order
    ensures OthersRefuse(m')
  {
    hide Refuses;
    forall j | 1 <= j < |m'.order|
      ensures m'.order[j] in m'.table && Refuses(m'.table[m'.order[j]], CHUNK_RECORD)
    {
      RefusesMore(m.table[m.order[j]], m'.table[m.order[j]], CHUNK_RECORD, CHUNK_RECORD);
    }
  }

  lemma MetaGrownSelf(m: MetaView)
    ensures MetaGrown(m, m)
  {
  }

  lemma MetaGrownOn(m0: MetaView, m1: MetaView, m2: MetaView)
    requires MetaGrown(m0, m1) && MetaGrown(m1, m2)
    ensures MetaGrown(m0, m2)
  {
    hide TableGrown, OthersRefuse;
    SuffixOn(m0.order, m1.order, m2.order);
    TableGrownOn(m0.table, m1.table, m2.table);
    if |m2.order| == |m1.order| && |m1.order| > |m0.order| {
      StillRefuse(m1, m2);
    }
  }

  /** A record has been placed in a listed arena. */
  lemma MetaFromListed(m: MetaView, m': MetaView, size: nat, ptr: int, len: nat)
    requires m'.order == m.order && FromListed(m.order, m.table, m'.table, size, ptr, len)
    ensures MetaGrown(m, m')
  {
    hide Serves, Refuses;
    var k: nat, t: nat :| AnsweredBy(m.order, m.table, size, k, t, ptr, len)
                          && m'.table == m.table[m.order[k] := m.table[m.order[k]] + {t}];
    assert |m'.order| - |m.order| == 0 && m'.order[0..] == m.order;
  }

  /** A record has been placed in a new arena. */
  lemma MetaFromNew(m: MetaView, m': MetaView, base: nat, size: nat, ptr: int, len: nat)
    requires m'.order == [base] + m.order && FromNew(base, m.table, m'.table, size, ptr, len) && size <= CHUNK_RECORD
    requires forall b :: b in m.order ==> b in m.table
    ensures MetaGrown(m, m')
  {
    hide Serves, Refuses;
    assert m'.order[1..] == m.order;
    forall j | 1 <= j < |m'.order|
      ensures m'.order[j] in m'.table && Refuses(m'.table[m'.order[j]], CHUNK_RECORD)
    {
      var b := m.order[j - 1];
      assert m'.order[j] == b && b in m.order;
      RefusesMore(m.table[b], m'.table[b], size, CHUNK_RECORD);
    }
  }

  lemma GrownForSelf(w: State, l: Lists, i: nat)
    ensures GrownFor(w, l, w, l, i)
  {
    GrownSelf(w);
    MetaGrownSelf(l.meta);
  }

  /** As long as the list of chunks stays as it is, nothing is mapped. */
  lemma GrownForSame(w: State, l: Lists, w': State, l': Lists, i: nat)
    requires WorldGrown(w, w') && l'.order == l.order && l'.meta == l.meta
    ensures GrownFor(w, l, w', l', i)
  {
    MetaGrownSelf(l.meta);
  }

  lemma GrownForOn(w0: State, l0: Lists, w1: State, l1: Lists, w2: State, l2: Lists, i: nat)
    requires GrownFor(w0, l0, w1, l1, i) && GrownFor(w1, l1, w2, l2, i)
    ensures GrownFor(w0, l0, w2, l2, i)
  {
    hide OrderGrown, RunsAdvanced, ChunksGrown, RunBytes, MetaGrown;
    GrownOn(w0, w1, w2);
    MetaGrownOn(l0.meta, l1.meta, l2.meta);
    OrderGrownOn(l0.order, l1.order, l2.order, w1.chunks, w2.chunks, RunBytes(i));
  }

  lemma GrownForFacts(w: State, l: Lists, w': State, l': Lists, i: nat)
    requires GrownFor(w, l, w', l', i)
    ensures WorldGrown(w, w') && OrderGrown(l.order, l'.order, w'.chunks, RunBytes(i)) && MetaGrown(l.meta, l'.meta)
  {
  }

  /** One more run. */
  lemma RunGrows(w: State, l: Lists, w1: State, w': State, l': Lists, i: nat, key: nat, x: nat, draws: seq<nat>,
                 base: nat)
    requires FromChunk(l.order, w.chunks, l'.order, w1.chunks, key, RunBytes(i)) && WorldGrown(w, w')
    requires ChunkServes(w1.chunks, w'.chunks, key, x, RunBytes(i), SizeOfBin(i), draws, base)
    requires (forall k :: k in l.order ==> k in w.chunks) && MetaGrown(l.meta, l'.meta)
    ensures GrownFor(w, l, w', l', i)
  {
    hide FromChunk, OrderGrown, RunBytes, SizeOfBin, Room, Chosen, RunBase, WorldGrown, MetaGrown;
    FromChunkGrows(l.order, w.chunks, l'.order, w1.chunks, w'.chunks, key, RunBytes(i));
  }

  /** A chunk without room gets none by handing out more. */
  lemma StillNoRoom(v: ChunkView, v': ChunkView, bytes: nat)
    requires NoRoom(v, bytes) && v.handed <= v'.handed
    ensures NoRoom(v', bytes)
  {
    hide RunSize;
    assert forall k :: 0 <= k < |v.handed| ==> v'.handed[k] == v.handed[k];
    assert Nodes(v.handed) <= Nodes(v'.handed);
  }

  lemma FromChunkGrows(o: seq<nat>, c: ChunkTable, o': seq<nat>, c1: ChunkTable, c2: ChunkTable, key: nat, bytes: nat)
    requires FromChunk(o, c, o', c1, key, bytes) && (forall k :: k in o ==> k in c)
    requires key in c1 && key in c2 && c2 == c1[key := c2[key]]
    ensures OrderGrown(o, o', c2, bytes)
  {
    hide NoRoom, FirstWithRoom;
    if o' != o {
      forall j | 1 <= j < |o'|
        ensures o'[j] in c2 && NoRoom(c2[o'[j]], bytes)
      {
        assert o'[j] == o[j - 1] && o[j - 1] in o;
      }
      assert o'[1..] == o;
    }
  }

  /** The mappings of the metadata arenas are in place. */
  lemma MetaMapped(w: State)
    requires MemoryOk(w.chunks, w.huges, w.arenas, w.mapped)
    ensures forall b, a: nat :: b in w.arenas && In(a, b, META_MAP) ==> a in w.mapped
  {
    forall b, a: nat | b in w.arenas && In(a, b, META_MAP)
      ensures a in w.mapped
    {
      assert Owns(w.chunks, w.huges, w.arenas, MetaMemory(b), a);
    }
  }

  lemma RecordHeld(w: State, r: Record, p: int)
    requires WorldOk(w) && Has(w.chunks, w.runs, w.huges, r, p)
    ensures p in w.blocks && SmallestBlock(RecordSize(r), w.blocks[p])
  {
    hide ChunksFine, HugesFine, MemoryOk, RunsMatch, LiveIs, Has, RecordSize;
  }

  lemma SameRecord(w: State, r: Record, s: Record, p: int)
    requires WorldOk(w) && Has(w.chunks, w.runs, w.huges, r, p) && Has(w.chunks, w.runs, w.huges, s, p)
    ensures r == s
  {
    hide ChunksFine, HugesFine, MemoryOk, RunsMatch, LiveIs, Has, RecordSize;
  }

  /** The memory of a metadata arena is mapped, and no region in use lies in it. */
  lemma ArenaByte(w: State, b: nat, a: nat)
    requires WorldOk(w) && b in w.arenas && In(a, b, META_MAP)
    ensures a in w.mapped && forall u :: u in w.live ==> !In(a, u, w.live[u])
  {
    hide ChunksFine, HugesFine, RunsMatch, RecordsOk, At;
    assert Owns(w.chunks, w.huges, w.arenas, MetaMemory(b), a);
    forall u | u in w.live && In(a, u, w.live[u])
      ensures false
    {
      var pl :| At(w.runs, w.huges, pl, u, w.live[u]);
      var o := PlaceOwned(w, pl, u, w.live[u], a);
    }
  }

  /** Every chunk on the list still has memory mapped. */
  lemma ChunksAnchored(w: State)
    requires ChunksFine(w.chunks) && MemoryOk(w.chunks, w.huges, w.arenas, w.mapped)
    ensures forall k :: k in w.chunks ==> exists a :: In(a, k, CHUNK_SIZE) && a in w.mapped
  {
    forall k | k in w.chunks
      ensures exists a :: In(a, k, CHUNK_SIZE) && a in w.mapped
    {
      var a := NotCoveredOwns(k, w.chunks[k]);
      assert Owns(w.chunks, w.huges, w.arenas, ChunkMemory(k), a);
    }
  }

  lemma RegionFits(i: nat)
    requires i < ARENA_NO_BINS
    ensures RunBytes(i) == RunPages(SizeOfBin(i)) * PAGE_SIZE
    ensures SizeOfBin(i) != LEAF_SIZE && RunBytes(i) < 2 * LEAF_SIZE ==> SizeOfBin(i) < REG_MARK_BAD_VALUE
  {
    assert IsClass(SizeOfBin(i));
    ElemsBounds(SizeOfBin(i));
    MulMonotone(1, RunElems(SizeOfBin(i)), SizeOfBin(i));
  }

  lemma SmallRecord(regSize: nat)
    requires IsClass(regSize)
    ensures 1 <= RunElems(regSize) <= MAX_ELEMS && regSize >= 1
    ensures 2 * (RUN_RECORD + (2 * RunElems(regSize) + 7) / 8) <= META_BYTES
  {
    ElemsBounds(regSize);
    ClassUnits(regSize);
  }

  /** A fresh chunk has room for every run. */
  lemma FreshRoom(v: ChunkView, runSize: nat)
    requires v.handed == [] && RunSizeOk(runSize)
    ensures !NoRoom(v, runSize)
  {
    SizeLevel(runSize);
    var i := Pow2(RunLevel(CHUNK_DEPTH, runSize));
    Pow2Monotone(RunLevel(CHUNK_DEPTH, runSize) + 1, CHUNK_DEPTH + 1);
    Pow2Monotone(1, RunLevel(CHUNK_DEPTH, runSize));
    assert Pow2(1) == 2;
    assert OnLevel(i, RunLevel(CHUNK_DEPTH, runSize)) && Available(Nodes([]), i);
  }

  lemma EmptyWorld(w: State)
    requires w.chunks == map[] && w.huges == map[] && w.arenas == {} && w.blocks == map[] && w.mapped == {}
             && w.live == map[]
    requires |w.runs| == ARENA_NO_BINS && forall i :: 0 <= i < ARENA_NO_BINS ==> w.runs[i] == map[]
    ensures WorldOk(w)
  {
  }
}
