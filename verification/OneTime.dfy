/** No byte is handed out twice for as long as it stays mapped. */
module OneTime {
  import opened TreeIndex
  import opened Utils
  import opened PackedStates
  import opened ChunkPools
  import opened SizeClass
  import opened Runs
  import opened Bins
  import opened BinTables
  import opened HugePools
  import opened AddressSpaces
  import opened World
  import opened WorldSteps

  // ---- While memory is handed out ---------------------------------------------------------

  /** Chunks may have been added, and may have handed out more runs. */
  ghost predicate ChunksGrown(chunks: ChunkTable, chunks': ChunkTable) {
    forall key :: key in chunks ==>
      && key in chunks' && chunks'[key].released == chunks[key].released
      && chunks[key].handed <= chunks'[key].handed
  }

  /** Runs may have been added, and no region has gone back to an earlier state. */
  ghost predicate RunsAdvanced(runs: seq<RunTable>, runs': seq<RunTable>) {
    && |runs'| == |runs|
    && forall i: nat, base :: i < |runs| && base in runs[i] ==>
         base in runs'[i] && Advanced(runs[i][base].items, runs'[i][base].items)
  }

  /** Nothing has been given back. */
  ghost predicate WorldGrown(w: State, w': State) {
    && ChunksGrown(w.chunks, w'.chunks) && RunsAdvanced(w.runs, w'.runs)
    && forall key :: key in w.huges ==> key in w'.huges && w'.huges[key] == w.huges[key]
  }

  lemma GrownSelf(w: State)
    ensures WorldGrown(w, w)
  {
  }

  lemma GrownOn(w0: State, w1: State, w2: State)
    requires WorldGrown(w0, w1) && WorldGrown(w1, w2)
    ensures WorldGrown(w0, w2)
  {
    forall i: nat, base | i < |w0.runs| && base in w0.runs[i]
      ensures base in w2.runs[i] && Advanced(w0.runs[i][base].items, w2.runs[i][base].items)
    {
    }
  }

  /** A new run. */
  lemma SetRunGrown(w: State, w': State, i: nat, base: nat, v: RunView)
    requires i < |w.runs| && base !in w.runs[i] && w'.runs == SetRun(w.runs, i, base, v)
    requires w'.chunks == w.chunks && w'.huges == w.huges
    ensures WorldGrown(w, w')
  {
  }

  /** A region that is handed out. */
  lemma SetSlotGrown(w: State, w': State, i: nat, base: nat, s: nat)
    requires i < |w.runs| && base in w.runs[i] && s < |w.runs[i][base].items| && w.runs[i][base].items[s] == STATE_FREE
    requires w'.runs == SetSlot(w.runs, i, base, s, STATE_ALLOC) && w'.chunks == w.chunks && w'.huges == w.huges
    ensures WorldGrown(w, w')
  {
  }

  // ---- Calls ------------------------------------------------------------------------------

  /** What has been handed out is so for good, or is no longer mapped. */
  ghost predicate Lasting(w: State, w': State) {
    forall a :: Spent(w, a) ==> Spent(w', a) || a !in w'.mapped
  }

  /** Byte `a` is handed out with the region at `p`. */
  ghost predicate HandsOut(w: State, w': State, p: nat, a: nat) {
    p in w'.live && p !in w.live && In(a, p, w'.live[p])
  }

  /** What every call keeps: new regions consist of bytes that had not been handed out, and what has
      been handed out stays so until it is unmapped. */
  ghost predicate OneCall(w: State, w': State) {
    && Lasting(w, w')
    && forall p, a :: HandsOut(w, w', p, a) ==> !Spent(w, a)
  }

  /** A new mapping. */
  lemma PutHugeGrown(w: State, w': State, key: nat, addr: int, len: nat)
    requires key !in w.huges && w'.huges == PutHuge(w.huges, key, addr, len) && w'.runs == w.runs
             && w'.chunks == w.chunks
    ensures WorldGrown(w, w')
  {
  }

  lemma NothingDone(w: State)
    ensures OneCall(w, w)
  {
  }

  /** Two calls in a row; the second neither maps memory nor hands out any. */
  lemma ThenGivesBack(w0: State, w1: State, w2: State)
    requires OneCall(w0, w1) && OneCall(w1, w2) && w2.mapped <= w1.mapped
    requires forall p :: p in w2.live ==> p in w1.live && w2.live[p] == w1.live[p]
    ensures OneCall(w0, w2)
  {
    hide Spent;
    forall p, a | HandsOut(w0, w2, p, a)
      ensures !Spent(w0, a)
    {
      assert HandsOut(w0, w1, p, a);
    }
  }

  lemma LiveSpent(w: State, p: nat, a: nat)
    requires WorldOk(w) && p in w.live && In(a, p, w.live[p])
    ensures Spent(w, a)
  {
    hide ChunksFine, MemoryOk, RunsMatch, RecordsOk, At;
    var pl :| At(w.runs, w.huges, pl, p, w.live[p]);
    AtSpent(w.runs, w.huges, pl, p, w.live[p], a);
  }

  lemma SpentGrows(w: State, w': State, pl: Place, a: nat)
    requires WorldGrown(w, w') && SpentAt(w.runs, w.huges, pl, a)
    ensures SpentAt(w'.runs, w'.huges, pl, a)
  {
    hide SizeOfBin, RunElems, Region, ChunksGrown;
  }

  /** A place that is in use now, and was handed out before, was in use before. */
  lemma UsedBefore(w: State, w': State, pl: Place, p: nat, n: nat, a: nat)
    requires WorldGrown(w, w') && At(w'.runs, w'.huges, pl, p, n) && SpentAt(w.runs, w.huges, pl, a)
    ensures At(w.runs, w.huges, pl, p, n)
  {
    hide SizeOfBin, RunElems, Region, ChunksGrown;
  }

  /** Handing out one more region, with whatever runs and mappings that takes. */
  lemma HandingOut(w: State, w': State, p: nat)
    requires WorldOk(w) && WorldOk(w') && WorldGrown(w, w') && p !in w.live && p in w'.live
    requires w'.live == w.live[p := w'.live[p]]
    ensures OneCall(w, w')
  {
    hide ChunksFine, MemoryOk, RunsMatch, RecordsOk, At, SpentAt, WorldGrown;
    forall a | Spent(w, a)
      ensures Spent(w', a)
    {
      var pl :| SpentAt(w.runs, w.huges, pl, a);
      SpentGrows(w, w', pl, a);
    }
    forall q, a | HandsOut(w, w', q, a)
      ensures !Spent(w, a)
    {
      assert q == p;
      if Spent(w, a) {
        var pl :| SpentAt(w.runs, w.huges, pl, a);
        SpentGrows(w, w', pl, a);
        var pl' :| At(w'.runs, w'.huges, pl', p, w'.live[p]);
        AtSpent(w'.runs, w'.huges, pl', p, w'.live[p], a);
        SpentOnce(w', pl, pl', a);
        UsedBefore(w, w', pl, p, w'.live[p], a);
      }
    }
  }

  /** Releasing a region. */
  lemma SlotLasts(w: State, w': State, i: nat, base: nat, s: nat, p: nat)
    requires i < |w.runs| && base in w.runs[i] && s < |w.runs[i][base].items|
    requires w' == w.(runs := SetSlot(w.runs, i, base, s, STATE_ALLOC_FREE), live := w.live - {p})
    ensures OneCall(w, w')
  {
    hide SizeOfBin, RunElems, Region;
    forall a | Spent(w, a)
      ensures Spent(w', a)
    {
      var pl :| SpentAt(w.runs, w.huges, pl, a);
      assert SpentAt(w'.runs, w'.huges, pl, a);
    }
  }

  /** Unmapping a run. */
  lemma RunLasts(w: State, w': State, i: nat, base: nat, p: nat)
    requires |w.runs| == ARENA_NO_BINS && i < ARENA_NO_BINS && UnmapsTo(w.mapped, w'.mapped, base, RunBytes(i))
    requires w'.runs == DropRun(w.runs, i, base) && w'.huges == w.huges && w'.live == w.live - {p}
    ensures OneCall(w, w')
  {
    hide SizeOfBin, RunElems, Region, RunBytes;
    forall a | Spent(w, a)
      ensures Spent(w', a) || a !in w'.mapped
    {
      var pl :| SpentAt(w.runs, w.huges, pl, a);
      if pl.Slot? && pl.bin == i && pl.base == base {
        SlotInside(i, base, pl.s, a);
      } else {
        assert SpentAt(w'.runs, w'.huges, pl, a);
      }
    }
  }

  /** Unmapping a huge region. */
  lemma MappingLasts(w: State, w': State, key: nat)
    requires key in w.huges && UnmapsTo(w.mapped, w'.mapped, key, w.huges[key].len)
    requires w'.runs == w.runs && w'.huges == w.huges - {key} && w'.live == w.live - {key}
    ensures OneCall(w, w') && w'.mapped <= w.mapped
  {
    hide SizeOfBin, RunElems, Region;
    forall a | Spent(w, a)
      ensures Spent(w', a) || a !in w'.mapped
    {
      var pl :| SpentAt(w.runs, w.huges, pl, a);
      assert pl != Mapping(key) ==> SpentAt(w'.runs, w'.huges, pl, a);
    }
  }

  /** Moving a huge region. */
  lemma MoveLasts(w: State, w': State, key: nat, key': nat, len: nat, mid: set<nat>)
    requires WorldOk(w) && key in w.huges && MapsTo(w.mapped, mid, key', len)
             && UnmapsTo(mid, w'.mapped, key, w.huges[key].len)
    requires key' !in w.huges && w'.runs == w.runs && w'.huges == PutHuge(w.huges - {key}, key', w.huges[key].addr, len)
    requires w'.live == (w.live - {key})[key' := len]
    ensures OneCall(w, w')
  {
    hide WorldOk, SizeOfBin, RunElems, Region;
    forall a | Spent(w, a)
      ensures Spent(w', a) || a !in w'.mapped
      ensures !In(a, key', len)
    {
      var pl :| SpentAt(w.runs, w.huges, pl, a);
      var o := SpentOwned(w, pl, a);
      assert pl != Mapping(key) ==> SpentAt(w'.runs, w'.huges, pl, a);
    }
  }

  // ---- Whole runs -------------------------------------------------------------------------

  ghost predicate CallAt(trace: seq<State>, k: nat)
    requires k + 1 < |trace|
  {
    WorldOk(trace[k]) && WorldOk(trace[k + 1]) && OneCall(trace[k], trace[k + 1])
  }

  /** Over any sequence of calls, a byte that has been handed out stays so until it is unmapped. */
  lemma {:induction false} SpentLasts(trace: seq<State>, j: nat, k: nat, a: nat)
    requires j <= k < |trace| && Spent(trace[j], a) && forall m: nat :: m + 1 < |trace| ==> CallAt(trace, m)
    ensures Spent(trace[k], a) || exists m: nat :: j < m <= k && a !in trace[m].mapped
    decreases k
  {
    hide Spent, WorldOk;
    if j < k {
      SpentLasts(trace, j, k - 1, a);
      assert CallAt(trace, k - 1);
    }
  }

  /** If two calls hand out the same byte, it has been unmapped in between. */
  lemma NeverTwice(trace: seq<State>, j: nat, k: nat, p: nat, q: nat, a: nat)
    requires j < k && k + 1 < |trace| && forall m: nat :: m + 1 < |trace| ==> CallAt(trace, m)
    requires HandsOut(trace[j], trace[j + 1], p, a) && HandsOut(trace[k], trace[k + 1], q, a)
    ensures exists m: nat :: j < m <= k && a !in trace[m].mapped
  {
    hide Spent, WorldOk;
    assert CallAt(trace, j) && CallAt(trace, k);
    LiveSpent(trace[j + 1], p, a);
    SpentLasts(trace, j + 1, k, a);
  }

  /** Memory that is handed out, given back and handed out again has been unmapped. */
  lemma NotAgain(w0: State, w1: State, w2: State, w3: State, p: nat, q: nat)
    requires WorldOk(w0) && WorldOk(w1) && WorldOk(w2) && WorldOk(w3) && w2.mapped <= w1.mapped
    requires OneCall(w0, w1) && OneCall(w1, w2) && OneCall(w2, w3)
    ensures forall a :: HandsOut(w0, w1, p, a) && HandsOut(w2, w3, q, a) ==> a !in w2.mapped
  {
    hide WorldOk, OneCall;
    var trace := [w0, w1, w2, w3];
    assert CallAt(trace, 0) && CallAt(trace, 1) && CallAt(trace, 2);
    forall a | HandsOut(w0, w1, p, a) && HandsOut(w2, w3, q, a)
      ensures a !in w2.mapped
    {
      NeverTwice(trace, 0, 2, p, q, a);
    }
  }
}
