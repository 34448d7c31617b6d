/** The chunks of the arena: a list, and what it says about every run. */
module ChunkPools {
  import opened TreeIndex
  import opened Utils
  import opened PackedStates
  import opened JumpList
  import opened ChunkSpec
  import opened ChunkTree
  import opened ChunkIndex
  import opened Chunks
  import opened ChunkTheorems
  import opened LinkedList
  import opened AddressSpaces

  const CHUNK_SIZE: nat := 33554432

  /** What the rest of the allocator sees of a chunk: the address of its record, the runs handed
      out, and the nodes of those that have been released. */
  datatype ChunkView = ChunkView(addr: int, handed: seq<Handed>, released: set<nat>)

  ghost function ChunkFoot(c: Chunk): set<object> {
    {c, c.tree, c.tree.mem, c.count, c.first, c.jump, c.regSizes}
  }

  ghost function ViewOf(e: Entry<Chunk>): ChunkView
    reads e.item`handed, e.item`released
  {
    ChunkView(e.addr, e.item.handed, e.item.released)
  }

  ghost predicate ChunkOk(e: Entry<Chunk>, table: map<nat, ChunkView>)
    reads e`key, ChunkFoot(e.item)
  {
    && e.item.Valid() && e.item.depth == CHUNK_DEPTH && e.key == e.item.key
    && e.key in table && table[e.key] == ViewOf(e)
  }

  ghost predicate ChunksOk(members: set<Entry<Chunk>>, feet: set<object>, table: map<nat, ChunkView>)
    reads members`key, feet
  {
    && (forall e :: e in members ==> ChunkFoot(e.item) <= feet && ChunkOk(e, table))
    && (forall e, f :: e in members && f in members && e != f ==> ChunkFoot(e.item) !! ChunkFoot(f.item))
    && (forall k :: k in table ==> exists e :: e in members && e.key == k)
  }

  /** As ChunksOk, but nothing is said about the state of the chunk of `e`. */
  ghost predicate ChunksExcept(members: set<Entry<Chunk>>, feet: set<object>, table: map<nat, ChunkView>,
                               e: Entry<Chunk>)
    reads members`key, feet - ChunkFoot(e.item)
  {
    && e in members && ChunkFoot(e.item) <= feet && e.key in table
    && (forall f :: f in members && f != e ==>
          ChunkFoot(f.item) <= feet && ChunkFoot(f.item) !! ChunkFoot(e.item) && ChunkOk(f, table))
    && (forall e, f :: e in members && f in members && e != f ==>
          ChunkFoot(e.item) !! ChunkFoot(f.item) && e.key != f.key)
    && (forall k :: k in table ==> exists e :: e in members && e.key == k)
  }

  lemma ChunksAllBut(members: set<Entry<Chunk>>, feet: set<object>, table: map<nat, ChunkView>, e: Entry<Chunk>)
    requires ChunksOk(members, feet, table) && e in members
    requires forall e, f :: e in members && f in members && e != f ==> e.key != f.key
    ensures ChunksExcept(members, feet, table, e) && ChunkOk(e, table)
  {
    hide Chunk.Valid, ChunkFoot;
    assert ChunkOk(e, table);
  }

  lemma ChunksBack(members: set<Entry<Chunk>>, feet: set<object>, table: map<nat, ChunkView>, e: Entry<Chunk>)
    requires ChunksExcept(members, feet, table, e)
    requires e.item.Valid() && e.item.depth == CHUNK_DEPTH && e.key == e.item.key
    ensures ChunksOk(members, feet, table[e.key := ViewOf(e)])
  {
    hide Chunk.Valid, ChunkFoot;
    var table' := table[e.key := ViewOf(e)];
    forall f | f in members && f != e
      ensures ChunkOk(f, table')
    {
      assert ChunkOk(f, table);
    }
  }

  lemma ChunksAdd(members: set<Entry<Chunk>>, feet: set<object>, table: map<nat, ChunkView>, e: Entry<Chunk>)
    requires ChunksOk(members, feet, table) && e !in members && e.key !in table && ChunkFoot(e.item) !! feet
    requires e.item.Valid() && e.item.depth == CHUNK_DEPTH && e.key == e.item.key
    ensures ChunksOk(members + {e}, feet + ChunkFoot(e.item), table[e.key := ViewOf(e)])
  {
    hide Chunk.Valid, ChunkFoot;
    var all, table' := members + {e}, table[e.key := ViewOf(e)];
    forall f | f in members
      ensures ChunkOk(f, table') && ChunkFoot(f.item) <= feet
    {
      assert ChunkOk(f, table);
    }
    forall k | k in table'
      ensures exists f :: f in all && f.key == k
    {
      if k == e.key {
        assert e in all;
      } else {
        var f :| f in members && f.key == k;
        assert f in all;
      }
    }
  }

  lemma ChunksRemove(members: set<Entry<Chunk>>, feet: set<object>, table: map<nat, ChunkView>, e: Entry<Chunk>)
    requires ChunksOk(members, feet, table) && e in members
    requires forall e, f :: e in members && f in members && e != f ==> e.key != f.key
    ensures ChunksOk(members - {e}, feet, table - {e.key})
  {
    hide Chunk.Valid, ChunkFoot;
    var rest, table' := members - {e}, table - {e.key};
    forall f | f in rest
      ensures ChunkOk(f, table')
    {
      assert ChunkOk(f, table);
    }
    forall k | k in table'
      ensures exists f :: f in rest && f.key == k
    {
      var f :| f in members && f.key == k;
      assert f in rest;
    }
  }

  // ---- What a chunk offers ----------------------------------------------------------------

  /** No node of the requested size is available. */
  ghost predicate NoRoom(v: ChunkView, runSize: nat) {
    forall i :: InTree(CHUNK_DEPTH, i) && RunSize(CHUNK_DEPTH, i) == runSize ==> !Available(Nodes(v.handed), i)
  }

  /** Node `x` is available and of the requested size. */
  ghost predicate Room(v: ChunkView, runSize: nat, x: nat) {
    InTree(CHUNK_DEPTH, x) && RunSize(CHUNK_DEPTH, x) == runSize && Available(Nodes(v.handed), x)
  }

  ghost function HandedOut(v: ChunkView, x: nat, regSize: nat): ChunkView {
    v.(handed := v.handed + [Handed(x, regSize)])
  }

  /** Sizes that the arena asks for: up to 64 leaves. */
  ghost predicate RunSizeOk(runSize: nat) {
    exists j: nat :: j <= 6 && runSize == LEAF_SIZE * Pow2(j)
  }

  lemma SizeLevel(runSize: nat)
    requires RunSizeOk(runSize)
    ensures LEAF_SIZE <= runSize < LEAF_SIZE * Pow2(CHUNK_DEPTH)
    ensures 1 <= RunLevel(CHUNK_DEPTH, runSize) <= CHUNK_DEPTH
    ensures forall i :: InTree(CHUNK_DEPTH, i) ==>
              (RunSize(CHUNK_DEPTH, i) == runSize <==> OnLevel(i, RunLevel(CHUNK_DEPTH, runSize)))
  {
    var j: nat :| j <= 6 && runSize == LEAF_SIZE * Pow2(j);
    Pow2Monotone(j, 6);
    SmallPow();
    LevelUnique(Pow2(j), j);
    assert runSize / LEAF_SIZE == Pow2(j);
    forall i | InTree(CHUNK_DEPTH, i)
      ensures RunSize(CHUNK_DEPTH, i) == runSize <==> OnLevel(i, CHUNK_DEPTH - j)
    {
      SizeOfNode(i, j);
    }
  }

  lemma SmallPow()
    ensures Pow2(6) == 64 && Pow2(11) == 2048 && LEAF_SIZE * Pow2(11) == CHUNK_SIZE
  {
    Pow2Values();
    assert Pow2(3) == 8;
    Pow2Add(3, 3);
  }

  lemma SizeOfNode(i: nat, j: nat)
    requires InTree(CHUNK_DEPTH, i) && j <= 6
    ensures RunSize(CHUNK_DEPTH, i) == LEAF_SIZE * Pow2(j) <==> OnLevel(i, CHUNK_DEPTH - j)
  {
    hide Pow2, Level;
    HeightInTree(CHUNK_DEPTH, i);
    Pow2Injective(Height(CHUNK_DEPTH, i), j);
    if OnLevel(i, CHUNK_DEPTH - j) {
      LevelUnique(i, CHUNK_DEPTH - j);
    }
  }

  lemma Pow2Injective(m: nat, n: nat)
    ensures Pow2(m) == Pow2(n) <==> m == n
  {
    if m < n {
      Pow2Monotone(m + 1, n);
    } else if n < m {
      Pow2Monotone(n + 1, m);
    }
  }

  /** What the list of a level means. */
  lemma ListedMeans(c: Chunk, level: nat)
    requires c.Valid() && 1 <= level <= c.depth
    ensures |c.lists| == c.depth + 1 && Ascending(c.lists[level])
    ensures forall i :: OnLevel(i, level) ==> (i in c.lists[level] <==> Available(Nodes(c.handed), i))
    ensures forall i :: i in c.lists[level] ==> OnLevel(i, level)
  {
    hide Chunk.Shape, MarksAre, StatesOk, HandedOk, LeavesOf;
    assert LevelOk(c.jump[..], c.first[..], c.count[..], c.lists[level], level);
  }

  /** Of the nodes that are available and of the requested size, listed by address, the draws choose `x`. */
  ghost predicate Chosen(v: ChunkView, runSize: nat, draws: seq<nat>, x: nat) {
    && |draws| == RANDOM_LOOKUP_TRIES + 1
    && exists s: seq<nat>, level: nat ::
         && s != [] && Ascending(s) && (forall i: nat :: i in s <==> Room(v, runSize, i))
         && level <= CHUNK_DEPTH && runSize == LEAF_SIZE * Pow2(CHUNK_DEPTH - level) && x == Pick(s, level, draws)
  }

  /** The outcome of asking a chunk for a run. */
  ghost predicate Asked(v: ChunkView, v': ChunkView, runSize: nat, regSize: nat, draws: seq<nat>, r: Option<nat>,
                        key: nat, x: nat) {
    match r
    case None => v' == v && NoRoom(v, runSize)
    case Some(ptr) =>
      && Room(v, runSize, x) && Chosen(v, runSize, draws, x) && v' == HandedOut(v, x, regSize)
      && ptr == RunBase(key, CHUNK_DEPTH, x)
  }

  lemma ChosenFrom(v: ChunkView, runSize: nat, draws: seq<nat>, s: seq<nat>)
    requires RunSizeOk(runSize) && |draws| == RANDOM_LOOKUP_TRIES + 1 && s != [] && Ascending(s)
    requires forall i: nat :: i in s <==> Room(v, runSize, i)
    ensures 0 <= RunLevel(CHUNK_DEPTH, runSize)
            && Chosen(v, runSize, draws, Pick(s, RunLevel(CHUNK_DEPTH, runSize), draws))
  {
    hide Pick, Room, Pow2, Level;
    var j: nat :| j <= 6 && runSize == LEAF_SIZE * Pow2(j);
    SizeLevel(runSize);
    Doubled(j);
    LevelUnique(Pow2(j), j);
    assert runSize / LEAF_SIZE == Pow2(j);
  }

  /** Chunk `key` is listed, and no chunk listed before it has room. */
  ghost predicate FirstWithRoom(order: seq<nat>, table: map<nat, ChunkView>, runSize: nat, key: nat) {
    exists j :: && 0 <= j < |order| && order[j] == key
                && forall i :: 0 <= i < j ==> order[i] in table && NoRoom(table[order[i]], runSize)
  }

  lemma RoomIffListed(v: ChunkView, runSize: nat, s: seq<nat>, level: nat)
    requires RunSizeOk(runSize) && level == RunLevel(CHUNK_DEPTH, runSize) && level <= CHUNK_DEPTH
    requires forall i :: OnLevel(i, level) ==> (i in s <==> Available(Nodes(v.handed), i))
    requires forall i :: i in s ==> OnLevel(i, level)
    ensures forall i: nat :: i in s <==> Room(v, runSize, i)
    ensures s == [] ==> NoRoom(v, runSize)
  {
    hide Available, RunSize, Pow2, InTree, OnLevel, RunLevel;
    SizeLevel(runSize);
    forall i: nat
      ensures i in s <==> Room(v, runSize, i)
    {
      if OnLevel(i, level) {
        OnLevelInTree(CHUNK_DEPTH, i, level);
      }
    }
    if s == [] {
      forall i | InTree(CHUNK_DEPTH, i) && RunSize(CHUNK_DEPTH, i) == runSize
        ensures !Available(Nodes(v.handed), i)
      {
        assert Room(v, runSize, i) ==> i in s;
      }
    }
  }

  /** Key `key` has been taken off the list. */
  ghost predicate Unlisted(order: seq<nat>, order': seq<nat>, key: nat) {
    exists p :: 0 <= p < |order| && order[p] == key && order' == order[..p] + order[p + 1..]
  }

  ghost predicate OrderIs(s: seq<Entry<Chunk>>, order: seq<nat>)
    reads s
  {
    |order| == |s| && forall k :: 0 <= k < |s| ==> order[k] == s[k].key
  }

  class ChunkPool {
    const list: List<Chunk>
    ghost var Repr: set<object>
    ghost var members: set<Entry<Chunk>>
    ghost var feet: set<object>
    ghost var table: map<nat, ChunkView>
    /** Keys of the chunks, as they are listed. */
    ghost var order: seq<nat>

    ghost predicate Owned()
      reads this`Repr, this`members, this`feet
    {
      && this in Repr && list in Repr && members <= Repr && feet <= Repr
      && feet !! {this, list} && feet !! members
    }

    ghost predicate Lists()
      reads this`members, this`order, list, members
    {
      && (forall e :: e in members ==> e in list.entries)
      && (forall e :: e in list.entries ==> e in members)
      && list.Valid() && OrderIs(list.entries, order)
    }

    ghost predicate Valid()
      reads this, list, Repr
    {
      Owned() && Lists() && ChunksOk(members, feet, table)
    }

    constructor ()
      ensures Valid() && fresh(Repr) && {this, list} <= Repr && table == map[] && order == []
    {
      list := new List<Chunk>();
      members, feet, table, order := {}, {}, map[], [];
      new;
      Repr := {this, list};
    }

    lemma KeysDiffer()
      requires Lists()
      ensures forall e, f :: e in members && f in members && e != f ==> e.key != f.key
    {
    }

    lemma KeyMissing(key: nat)
      requires Lists() && ChunksOk(members, feet, table) && key !in table
      ensures !list.HasKey(key)
    {
      hide Chunk.Valid;
      forall e | e in members
        ensures e.key in table
      {
        assert ChunkOk(e, table);
      }
      assert forall k :: 0 <= k < |list.entries| ==> list.entries[k] in list.entries;
    }

    lemma ChunkOwned(e: Entry<Chunk>)
      requires Valid() && e in members
      ensures ChunkFoot(e.item) <= feet && ChunkOk(e, table) && ChunksExcept(members, feet, table, e)
      ensures ChunkFoot(e.item) ==
                {e.item, e.item.tree, e.item.tree.mem, e.item.count, e.item.first, e.item.jump, e.item.regSizes}
    {
      hide Chunk.Valid;
      KeysDiffer();
      ChunksAllBut(members, feet, table, e);
    }

    lemma MemberFoot(e: Entry<Chunk>)
      requires Valid() && e in members
      ensures ChunkFoot(e.item) <= Repr && e.key in table && e.key == e.item.key && e.addr == table[e.key].addr
    {
      hide Chunk.Valid;
      assert ChunkOk(e, table);
    }

    // ---- Handing out runs -----------------------------------------------------------------

    /** Asks one chunk for a run. */
    method TryChunk(e: Entry<Chunk>, runSize: nat, regSize: nat, draws: seq<nat>) returns (r: Option<nat>, ghost x: nat)
      requires Valid() && e in members && RunSizeOk(runSize) && |draws| == RANDOM_LOOKUP_TRIES + 1
      requires regSize != LEAF_SIZE && runSize < 2 * LEAF_SIZE ==> regSize < REG_MARK_BAD_VALUE
      modifies ChunkFoot(e.item), this`table
      ensures Valid() && table.Keys == old(table).Keys && e.key in table && e.key == old(e.key)
      ensures table == old(table)[e.key := table[e.key]] && Repr == old(Repr) && members == old(members)
              && order == old(order)
      ensures Asked(old(table)[e.key], table[e.key], runSize, regSize, draws, r, e.key, x)
    {
      hide Chunk.Valid, ChunkFoot, ChunksOk, ChunksExcept, Lists, Pick, RunSizeOk, RunBase, RunSize, Available,
           Nodes, Level, Pow2, InTree, OnLevel;
      ChunkOwned(e);
      SizeLevel(runSize);
      ghost var level := RunLevel(CHUNK_DEPTH, runSize);
      ListedMeans(e.item, level);
      ghost var s, v := e.item.lists[level], ViewOf(e);
      x := 0;
      RoomIffListed(v, runSize, s, level);
      r := e.item.AllocateRun(runSize, regSize, draws);
      if s != [] {
        x := Pick(s, level, draws);
        PickListed(s, level, draws);
        ChosenFrom(v, runSize, draws, s);
      }
      ChunksBack(members, feet, table, e);
      table := table[e.key := ViewOf(e)];
    }

    /** The outcome of asking all chunks in turn. */
    ghost predicate RunHanded(before: map<nat, ChunkView>, runSize: nat, regSize: nat, draws: seq<nat>, r: Option<nat>,
                              key: nat, x: nat)
      reads this`table
    {
      && (r.None? ==> table == before && forall k :: k in before ==> NoRoom(before[k], runSize))
      && (r.Some? ==> key in before && Room(before[key], runSize, x) && Chosen(before[key], runSize, draws, x)
                      && r.value == RunBase(key, CHUNK_DEPTH, x)
                      && table == before[key := HandedOut(before[key], x, regSize)])
    }

    /** Takes a run from the first chunk that has one; only that chunk uses the draws. */
    method AllocateRun(runSize: nat, regSize: nat, draws: seq<nat>)
      returns (r: Option<nat>, ghost key: nat, ghost x: nat)
      requires Valid() && RunSizeOk(runSize) && |draws| == RANDOM_LOOKUP_TRIES + 1
      requires regSize != LEAF_SIZE && runSize < 2 * LEAF_SIZE ==> regSize < REG_MARK_BAD_VALUE
      modifies Repr
      ensures Valid() && Repr == old(Repr) && members == old(members)
              && RunHanded(old(table), runSize, regSize, draws, r, key, x)
      ensures order == old(order) && (r.Some? ==> FirstWithRoom(order, old(table), runSize, key))
    {
      hide Chunk.Valid, ChunkFoot, ChunksOk, ChunksExcept, ChunkOk, Room, NoRoom, RunSizeOk, RunBase, Chosen;
      key, x := 0, 0;
      var entry := list.head;
      ghost var k := 0;
      while entry != null
        invariant Valid() && Repr == old(Repr) && table == old(table) && members == old(members) && order == old(order)
        invariant 0 <= k <= |list.entries| && list.entries == old(list.entries)
        invariant entry == (if k == |list.entries| then null else list.entries[k])
        invariant forall i :: 0 <= i < k ==> list.entries[i].key in table && NoRoom(table[list.entries[i].key], runSize)
        decreases |list.entries| - k
      {
        assert Links(list.entries, k);
        ChunkOwned(entry);
        r, x := TryChunk(entry, runSize, regSize, draws);
        if r.Some? {
          key := entry.key;
          return;
        }
        assert Links(list.entries, k);
        entry := entry.fd;
        k := k + 1;
      }
      AllListed();
      r := None;
    }

    /** The list holds exactly the chunks of the table. */
    lemma OrderKeys()
      requires Valid()
      ensures forall key :: key in order <==> key in table
    {
      hide Chunk.Valid;
      AllListed();
      forall e | e in members
        ensures e.key in table
      {
        assert ChunkOk(e, table);
      }
      forall key: nat | key in order
        ensures key in table
      {
        var k :| 0 <= k < |order| && order[k] == key;
        assert list.entries[k] in list.entries;
      }
    }

    lemma AllListed()
      requires Valid()
      ensures forall key :: key in table ==> exists k :: 0 <= k < |list.entries| && list.entries[k].key == key
    {
      hide Chunk.Valid;
    }

    // ---- New chunks -----------------------------------------------------------------------

    /** Maps a new chunk and puts it in front of the list. */
    method AddChunk(space: AddressSpace, addr: int) returns (e: Entry<Chunk>)
      requires Valid() && space !in Repr && forall k :: k in table ==>
                 exists a :: In(a, k, CHUNK_SIZE) && a in space.bytes
      modifies Repr, space
      ensures Valid() && fresh(Repr - old(Repr)) && old(Repr) <= Repr && space !in Repr && members == old(members) + {e}
      ensures Mapped(old(space.bytes), space.bytes, e.key, CHUNK_SIZE) && e.key !in old(table) && e.key > 0
      ensures order == [e.key] + old(order)
      ensures table == old(table)[e.key := ChunkView(addr, [], {})]
    {
      hide ChunksOk, Chunk.Valid, Lists;
      ghost var before := space.bytes;
      var ptr := space.Map(CHUNK_SIZE);
      var chunk := new Chunk(ptr, CHUNK_DEPTH);
      e := new Entry(ptr, addr, chunk);
      assert ptr !in table;
      EntriesOwned();
      Adopt(e);
    }

    method Adopt(e: Entry<Chunk>)
      requires Valid() && e !in Repr && ChunkFoot(e.item) !! Repr && e.fd == null && e.bk == null
      requires e.item.Valid() && e.item.depth == CHUNK_DEPTH && e.key == e.item.key && e.key !in table
      modifies this`Repr, this`members, this`feet, this`table, this`order, list, list.entries`bk, e`fd, e`bk
      ensures order == [e.key] + old(order)
      ensures Valid() && Repr == old(Repr) + {e} + ChunkFoot(e.item) && members == old(members) + {e}
      ensures table == old(table)[e.key := ViewOf(e)]
    {
      hide ChunksOk, Chunk.Valid, Lists, ChunkFoot;
      KeyMissing(e.key);
      NewFoot(e);
      ChunksAdd(members, feet, table, e);
      table := table[e.key := ViewOf(e)];
      feet := feet + ChunkFoot(e.item);
      Repr := Repr + {e} + ChunkFoot(e.item);
      ListNew(e);
    }

    lemma EntriesOwned()
      requires Valid()
      ensures forall f :: f in list.entries ==> f in Repr && f !in feet
    {
      hide ChunksOk;
    }

    lemma NewFoot(e: Entry<Chunk>)
      ensures e !in ChunkFoot(e.item) && this !in ChunkFoot(e.item) && list !in ChunkFoot(e.item)
      ensures ChunkFoot(e.item) ==
                {e.item, e.item.tree, e.item.tree.mem, e.item.count, e.item.first, e.item.jump, e.item.regSizes}
      ensures Lists() ==> forall f :: f in list.entries ==> f in members
    {
    }

    method ListNew(e: Entry<Chunk>)
      requires Lists() && e !in members && !list.HasKey(e.key) && e.fd == null && e.bk == null
      modifies this`members, this`order, list, list.entries`bk, e`fd, e`bk
      ensures Lists() && members == old(members) + {e} && order == [e.key] + old(order)
    {
      members := members + {e};
      order := [e.key] + order;
      list.Add(e);
    }

    /** Takes a chunk off the list. */
    method RemoveChunk(e: Entry<Chunk>)
      requires Valid() && e in members
      modifies Repr
      ensures Valid() && Repr == old(Repr) && members == old(members) - {e} && table == old(table) - {old(e.key)}
      ensures Unlisted(old(order), order, old(e.key))
    {
      hide ChunksOk, Chunk.Valid, Lists, ChunkFoot;
      KeysDiffer();
      EntriesOwned();
      ChunksRemove(members, feet, table, e);
      NewFoot(e);
      table := table - {e.key};
      Unlist(e);
    }

    method Unlist(e: Entry<Chunk>)
      requires Lists() && e in members
      modifies this`members, this`order, list, list.entries`fd, list.entries`bk
      ensures Lists() && members == old(members) - {e} && Unlisted(old(order), order, old(e.key))
    {
      members := members - {e};
      ghost var p := list.Position(e);
      order := order[..p] + order[p + 1..];
      list.Del(e);
    }

    // ---- Looking up runs ------------------------------------------------------------------

    /** The first chunk behind `start` whose memory contains `ptr`. */
    method GetChunkFromPtr(ptr: nat, start: Entry?<Chunk>, ghost from: nat)
      returns (entry: Entry?<Chunk>, ghost at: nat)
      requires Valid() && from <= |list.entries| && start == (if from == 0 then null else list.entries[from - 1])
      ensures from <= at <= |list.entries| && entry == (if at == |list.entries| then null else list.entries[at])
      ensures entry != null ==> In(ptr, entry.key, CHUNK_SIZE)
      ensures forall i :: from <= i < at ==> !In(ptr, list.entries[i].key, CHUNK_SIZE)
    {
      hide ChunksOk, Chunk.Valid;
      assert from > 0 ==> Links(list.entries, from - 1);
      entry := if start == null then list.head else start.fd;
      at := from;
      while entry != null
        invariant from <= at <= |list.entries| && entry == (if at == |list.entries| then null else list.entries[at])
        invariant forall i :: from <= i < at ==> !In(ptr, list.entries[i].key, CHUNK_SIZE)
        decreases |list.entries| - at
      {
        assert Links(list.entries, at);
        if entry.key <= ptr && ptr < entry.key + CHUNK_SIZE {
          return;
        }
        entry := entry.fd;
        at := at + 1;
      }
    }

    /** The run in whose first leaf `ptr` lies, if there is one in any chunk. */
    method Locate(ptr: nat) returns (e: Entry?<Chunk>, info: RunInfo, ghost k: nat)
      requires Valid()
      ensures e == null ==> forall key :: key in table ==> Silent(key, table[key], ptr)
      ensures e != null ==> e in members && e.key in table && Answers(e.key, table[e.key], k, ptr)
                            && info == InfoOf(e.key, CHUNK_DEPTH, table[e.key].handed[k])
    {
      hide ChunksOk, ChunksExcept, Chunk.Valid, ChunkFoot, InfoOf, Answers, Silent, Nodes;
      info, k := RunInfo(0, 0, 0), 0;
      ghost var at: nat;
      e, at := GetChunkFromPtr(ptr, null, 0);
      SilentOutside(ptr, 0, at);
      while e != null
        invariant at <= |list.entries| && e == (if at == |list.entries| then null else list.entries[at])
        invariant forall i :: 0 <= i < at ==>
                    list.entries[i].key in table && Silent(list.entries[i].key, table[list.entries[i].key], ptr)
        decreases |list.entries| - at
      {
        ChunkOwned(e);
        var r := e.item.GetRunPtr(ptr);
        k := ChunkAnswer(e, ptr, r);
        if r.Some? {
          info := r.value;
          return;
        }
        ghost var last := at;
        e, at := GetChunkFromPtr(ptr, e, at + 1);
        SilentOutside(ptr, last + 1, at);
      }
      AllListed();
    }

    /** A chunk is silent about addresses outside its memory. */
    lemma SilentOutside(ptr: nat, from: nat, to: nat)
      requires Valid() && from <= to <= |list.entries|
      requires forall i :: from <= i < to ==> !In(ptr, list.entries[i].key, CHUNK_SIZE)
      ensures forall i :: from <= i < to ==>
                list.entries[i].key in table && Silent(list.entries[i].key, table[list.entries[i].key], ptr)
    {
      hide ChunksOk, ChunksExcept, Chunk.Valid, ChunkFoot, Silent;
      forall i | from <= i < to
        ensures list.entries[i].key in table && Silent(list.entries[i].key, table[list.entries[i].key], ptr)
      {
        var e := list.entries[i];
        ChunkOwned(e);
        e.item.ValidFacts();
        OutsideSilent(e.key, ViewOf(e), ptr);
      }
    }

    /** What the answer of one chunk means. */
    lemma ChunkAnswer(e: Entry<Chunk>, ptr: nat, r: Option<RunInfo>) returns (k: nat)
      requires Valid() && e in members
      requires r == None <==> forall k :: 0 <= k < |e.item.handed| && e.item.handed[k].node in e.item.Live() ==>
                 !InFirstLeaf(e.item.key, e.item.depth, e.item.handed[k].node, ptr)
      requires forall k :: 0 <= k < |e.item.handed| && e.item.handed[k].node in e.item.Live()
                           && InFirstLeaf(e.item.key, e.item.depth, e.item.handed[k].node, ptr) ==>
                 r == Some(InfoOf(e.item.key, e.item.depth, e.item.handed[k]))
      ensures e.key in table
      ensures r == None ==> Silent(e.key, table[e.key], ptr)
      ensures r.Some? ==>
                Answers(e.key, table[e.key], k, ptr) && r.value == InfoOf(e.key, CHUNK_DEPTH, table[e.key].handed[k])
    {
      hide ChunksOk, ChunksExcept, Chunk.Valid, ChunkFoot, InFirstLeaf, InfoOf;
      ChunkOwned(e);
      k := 0;
      if r == None {
        forall k: nat | LiveIn(table[e.key], k)
          ensures !Answers(e.key, table[e.key], k, ptr)
        {
          assert e.item.handed[k].node in Nodes(e.item.handed);
        }
      } else {
        k :| 0 <= k < |e.item.handed| && e.item.handed[k].node in e.item.Live()
             && InFirstLeaf(e.item.key, e.item.depth, e.item.handed[k].node, ptr);
      }
    }

    // ---- Releasing runs -------------------------------------------------------------------

    /** Releases the run that starts at `runPtr`; its memory has to be unmapped. */
    method ReleaseRun(e: Entry<Chunk>, runPtr: nat, ghost k: nat) returns (whole: bool, ptr: nat, len: nat)
      requires Valid() && e in members && LiveIn(table[e.key], k) && InTree(CHUNK_DEPTH, table[e.key].handed[k].node)
      requires runPtr == RunBase(e.key, CHUNK_DEPTH, table[e.key].handed[k].node)
      modifies Repr
      ensures Repr == old(Repr) && members == old(members) && e.key == old(e.key) && order == old(order)
      ensures Valid() && e.key in table && ptr == runPtr
              && len == RunSize(CHUNK_DEPTH, old(table)[e.key].handed[k].node)
      ensures table == old(table)[e.key := WithReleased(old(table)[e.key], k)]
      ensures whole <==> Covered(table[e.key].released, 1, CHUNK_DEPTH)
    {
      hide Chunk.Valid, ChunkFoot, ChunksOk, ChunksExcept, Lists, RunBase, RunSize, Covered, Nodes;
      ChunkOwned(e);
      ghost var v, node := ViewOf(e), table[e.key].handed[k].node;
      e.item.ValidFacts();
      RunStart(e.key, v, k);
      var r;
      ghost var x;
      r, x := e.item.DeallocateRun(runPtr);
      ReleasedHere(e.key, v, k, r, x, runPtr);
      whole, ptr, len := r.whole, r.ptr, r.len;
      ChunksBack(members, feet, table, e);
      table := table[e.key := ViewOf(e)];
    }
  }

  /** Run `k` of the chunk is in use. */
  ghost predicate LiveIn(v: ChunkView, k: nat) {
    k < |v.handed| && v.handed[k].node !in v.released
  }

  /** Run `k` of the chunk is in use, and `ptr` lies in its first leaf. */
  ghost predicate Answers(key: nat, v: ChunkView, k: nat, ptr: nat) {
    LiveIn(v, k) && InFirstLeaf(key, CHUNK_DEPTH, v.handed[k].node, ptr)
  }

  ghost predicate Silent(key: nat, v: ChunkView, ptr: nat) {
    forall k: nat :: !Answers(key, v, k, ptr)
  }

  ghost function WithReleased(v: ChunkView, k: nat): ChunkView
    requires k < |v.handed|
  {
    v.(released := v.released + {v.handed[k].node})
  }

  lemma OutsideSilent(key: nat, v: ChunkView, ptr: nat)
    requires HandedOk(CHUNK_DEPTH, v.handed) && !In(ptr, key, CHUNK_SIZE)
    ensures Silent(key, v, ptr)
  {
    hide RunBase, RunSize, Pow2;
    forall k: nat | LiveIn(v, k)
      ensures !Answers(key, v, k, ptr)
    {
      InsideChunk(key, v.handed[k].node);
    }
  }

  lemma InsideChunk(key: nat, x: nat)
    requires 2 <= x < Pow2(CHUNK_DEPTH + 1)
    ensures InTree(CHUNK_DEPTH, x) && RunSize(CHUNK_DEPTH, x) >= LEAF_SIZE
    ensures key <= RunBase(key, CHUNK_DEPTH, x)
    ensures RunBase(key, CHUNK_DEPTH, x) + RunSize(CHUNK_DEPTH, x) <= key + CHUNK_SIZE
  {
    RunAligned(key, CHUNK_DEPTH, x);
    SmallPow();
  }

  lemma RunStart(key: nat, v: ChunkView, k: nat)
    requires HandedOk(CHUNK_DEPTH, v.handed) && LiveIn(v, k)
    ensures InTree(CHUNK_DEPTH, v.handed[k].node)
    ensures var p := RunBase(key, CHUNK_DEPTH, v.handed[k].node);
            key <= p < key + LEAF_SIZE * Pow2(CHUNK_DEPTH) && (p - key) % LEAF_SIZE == 0
  {
    hide RunSize, Pow2;
    InsideChunk(key, v.handed[k].node);
    SmallPow();
  }

  /** The release concerns exactly the run that starts at the given address. */
  lemma ReleasedHere(key: nat, v: ChunkView, k: nat, r: Release, x: nat, runPtr: nat)
    requires HandedOk(CHUNK_DEPTH, v.handed) && LiveIn(v, k) && InTree(CHUNK_DEPTH, v.handed[k].node)
    requires runPtr == RunBase(key, CHUNK_DEPTH, v.handed[k].node)
    requires r.NoRun? ==> forall y :: y in Nodes(v.handed) - v.released ==> !InFirstLeaf(key, CHUNK_DEPTH, y, runPtr)
    requires r.Released? ==> x in Nodes(v.handed) - v.released && InFirstLeaf(key, CHUNK_DEPTH, x, runPtr)
    ensures r.Released? && x == v.handed[k].node
  {
    hide RunBase, RunSize, Pow2;
    var y := v.handed[k].node;
    assert y in Nodes(v.handed) - v.released;
    if r.Released? {
      var m :| 0 <= m < |v.handed| && v.handed[m].node == x;
      if m != k {
        OneTimeAllocation(key, CHUNK_DEPTH, v.handed, k, m);
        InsideChunk(key, x);
        InsideChunk(key, y);
      }
    }
  }

  /** Whatever the random number generator yields. */
  method Draw() returns (draws: seq<nat>)
    ensures |draws| == RANDOM_LOOKUP_TRIES + 1
  {
    var a: nat, b: nat, c: nat, d: nat, e: nat := *, *, *, *, *;
    draws := [a, b, c, d, e];
  }
}
