/** All memory for the allocator's own records: a list of metadata arenas. */
module MetaPools {
  import opened TreeIndex
  import opened Utils
  import opened PackedStates
  import opened MetaTree
  import opened MetaFree
  import opened MetaSearch
  import opened InternalAllocators
  import opened MetaTheorems
  import opened LinkedList
  import opened AddressSpaces

  const META_DEPTH: nat := 18
  const META_BYTES: nat := 8388608
  /** Offset of the memory behind the fields of an arena, and length of its mapping. */
  const META_HEADER: nat := 131104
  const META_MAP: nat := 8523776

  ghost function ArenaFoot(a: InternalAllocator): set<object> {
    {a, a.tree, a.tree.mem}
  }

  /** One arena is well formed, and its live blocks are those of the table. */
  ghost predicate ArenaOk(e: Entry<InternalAllocator>, table: map<nat, set<nat>>)
    reads e`key, ArenaFoot(e.item)
  {
    && e.item.Valid() && e.item.depth == META_DEPTH && e.item.memory == e.key + META_HEADER
    && e.key in table && table[e.key] == e.item.live
  }

  ghost predicate ArenasOk(members: set<Entry<InternalAllocator>>, feet: set<object>, table: map<nat, set<nat>>)
    reads members`key, feet
  {
    && (forall e :: e in members ==> ArenaFoot(e.item) <= feet && ArenaOk(e, table))
    && (forall e, f :: e in members && f in members && e != f ==> ArenaFoot(e.item) !! ArenaFoot(f.item))
    && (forall k :: k in table ==> exists e :: e in members && e.key == k)
  }

  /** The mappings of two arenas do not overlap. */
  ghost predicate Spread(table: map<nat, set<nat>>) {
    forall b, c :: b in table && c in table && b != c ==> b + META_MAP <= c || c + META_MAP <= b
  }

  /** The live blocks of all arenas, by address. */
  ghost predicate BlocksAre(table: map<nat, set<nat>>, blocks: map<int, nat>) {
    && (forall b, x :: b in table && x in table[b] ==>
          InTree(META_DEPTH, x) && BlockOf(b, x) in blocks && blocks[BlockOf(b, x)] == BlockLen(META_DEPTH, x))
    && (forall p :: p in blocks ==>
          exists b, x :: b in table && x in table[b] && InTree(META_DEPTH, x) && BlockOf(b, x) == p)
  }

  ghost function BlockOf(base: nat, x: nat): int
    requires InTree(META_DEPTH, x)
  {
    BlockAddr(base + META_HEADER, META_DEPTH, x)
  }

  lemma ArenaInFeet(members: set<Entry<InternalAllocator>>, feet: set<object>, table: map<nat, set<nat>>,
                    e: Entry<InternalAllocator>)
    requires ArenasOk(members, feet, table) && e in members
    ensures ArenaFoot(e.item) <= feet && ArenaOk(e, table)
    ensures {e.item, e.item.tree} <= ArenaFoot(e.item) && e.item.tree.mem in ArenaFoot(e.item)
  {
  }

  lemma ArenasAdd(members: set<Entry<InternalAllocator>>, feet: set<object>, table: map<nat, set<nat>>,
                  e: Entry<InternalAllocator>)
    requires ArenasOk(members, feet, table) && e !in members && e.key !in table && ArenaFoot(e.item) !! feet
    requires e.item.Valid() && e.item.depth == META_DEPTH && e.item.memory == e.key + META_HEADER
    ensures ArenasOk(members + {e}, feet + ArenaFoot(e.item), table[e.key := e.item.live])
  {
    hide InternalAllocator.Valid, ArenaFoot;
    var all, table' := members + {e}, table[e.key := e.item.live];
    forall f | f in members
      ensures ArenaOk(f, table') && ArenaFoot(f.item) <= feet
    {
      assert ArenaOk(f, table);
    }
    forall k | k in table'
      ensures exists f :: f in all && f.key == k
    {
      if k == e.key {
        assert e in all;
      } else {
        var f :| f in members && f.key == k;
        assert f in all;
      }
    }
  }

  /** As ArenasOk, but nothing is said about the state of the arena of `e`. */
  ghost predicate ArenasExcept(members: set<Entry<InternalAllocator>>, feet: set<object>, table: map<nat, set<nat>>,
                               e: Entry<InternalAllocator>)
    reads members`key, feet - ArenaFoot(e.item)
  {
    && e in members && ArenaFoot(e.item) <= feet && e.key in table
    && (forall f :: f in members && f != e ==>
          ArenaFoot(f.item) <= feet && ArenaFoot(f.item) !! ArenaFoot(e.item) && ArenaOk(f, table))
    && (forall e, f :: e in members && f in members && e != f ==>
          ArenaFoot(e.item) !! ArenaFoot(f.item) && e.key != f.key)
    && (forall k :: k in table ==> exists e :: e in members && e.key == k)
  }

  lemma ArenasAllBut(members: set<Entry<InternalAllocator>>, feet: set<object>, table: map<nat, set<nat>>,
                     e: Entry<InternalAllocator>)
    requires ArenasOk(members, feet, table) && e in members
    requires forall e, f :: e in members && f in members && e != f ==> e.key != f.key
    ensures ArenasExcept(members, feet, table, e) && ArenaOk(e, table)
  {
    hide InternalAllocator.Valid, ArenaFoot;
    assert ArenaOk(e, table);
  }

  lemma ArenasBack(members: set<Entry<InternalAllocator>>, feet: set<object>, table: map<nat, set<nat>>,
                   e: Entry<InternalAllocator>)
    requires ArenasExcept(members, feet, table, e)
    requires e.item.Valid() && e.item.depth == META_DEPTH && e.item.memory == e.key + META_HEADER
    ensures ArenasOk(members, feet, table[e.key := e.item.live])
  {
    hide InternalAllocator.Valid, ArenaFoot;
    var table' := table[e.key := e.item.live];
    forall f | f in members && f != e
      ensures ArenaOk(f, table')
    {
      assert ArenaOk(f, table);
    }
  }

  // ---- Answers ----------------------------------------------------------------------------

  /** In an arena with these live blocks no free block can hold the request. */
  ghost predicate Refuses(live: set<nat>, size: nat) {
    Unfit(Request(META_DEPTH, 0, live, size, []))
  }

  /** Block `t`, at `ptr`, is what an arena at `base` with these live blocks has to hand out. */
  ghost predicate Serves(base: nat, live: set<nat>, size: nat, t: nat, ptr: int) {
    Granted(Request(META_DEPTH, base + META_HEADER, live, size, []), t, ptr)
  }

  /** The arena with number `k` of the list is the first that does not refuse, and hands out block `t`. */
  ghost predicate AnsweredBy(keys: seq<nat>, table: map<nat, set<nat>>, size: nat, k: nat, t: nat, ptr: int, len: nat) {
    && k < |keys| && keys[k] in table && Serves(keys[k], table[keys[k]], size, t, ptr)
    && InTree(META_DEPTH, t) && len == BlockLen(META_DEPTH, t)
    && forall j :: 0 <= j < k ==> keys[j] in table && Refuses(table[keys[j]], size)
  }

  ghost predicate FromListed(keys: seq<nat>, table: map<nat, set<nat>>, table': map<nat, set<nat>>, size: nat,
                             ptr: int, len: nat) {
    exists k: nat, t: nat ::
      AnsweredBy(keys, table, size, k, t, ptr, len) && table' == table[keys[k] := table[keys[k]] + {t}]
  }

  /** All arenas refuse, and the block comes from a new one. */
  ghost predicate FromNew(base: nat, table: map<nat, set<nat>>, table': map<nat, set<nat>>, size: nat, ptr: int,
                          len: nat) {
    && base !in table && (forall b :: b in table ==> Refuses(table[b], size))
    && exists t: nat ::
         Serves(base, {}, size, t, ptr) && InTree(META_DEPTH, t) && len == BlockLen(META_DEPTH, t)
         && table' == table[base := {t}]
  }

  lemma ListedAnswer(keys: seq<nat>, table: map<nat, set<nat>>, table': map<nat, set<nat>>, size: nat, k: nat, t: nat,
                     ptr: int, len: nat)
    requires k < |keys| && keys[k] in table && Serves(keys[k], table[keys[k]], size, t, ptr)
    requires InTree(META_DEPTH, t) && len == BlockLen(META_DEPTH, t) && table' == table[keys[k] := table[keys[k]] + {t}]
    requires forall j :: 0 <= j < k ==> keys[j] in table && Refuses(table[keys[j]], size)
    ensures FromListed(keys, table, table', size, ptr, len)
  {
    hide Serves, Refuses;
    assert AnsweredBy(keys, table, size, k, t, ptr, len);
  }

  lemma NewAnswer(base: nat, table: map<nat, set<nat>>, table1: map<nat, set<nat>>, table': map<nat, set<nat>>,
                  size: nat, t: nat, ptr: int, len: nat)
    requires base !in table && (forall b :: b in table ==> Refuses(table[b], size)) && table1 == table[base := {}]
    requires Serves(base, table1[base], size, t, ptr) && InTree(META_DEPTH, t) && len == BlockLen(META_DEPTH, t)
    requires table' == table1[base := table1[base] + {t}]
    ensures FromNew(base, table, table', size, ptr, len)
  {
    hide Serves, Refuses;
    assert table1[base] + {t} == {t};
    assert table' == table[base := {t}];
  }

  /** A block has 32 bytes or a doubling of that, and no smaller one holds the record. */
  ghost predicate SmallestBlock(size: nat, n: nat) {
    size <= n && (n == BLOCK_SIZE || n < 2 * size) && exists k: nat :: n == BLOCK_SIZE * Pow2(k)
  }

  ghost predicate OrderIs(s: seq<Entry<InternalAllocator>>, order: seq<nat>)
    reads s
  {
    |order| == |s| && forall k :: 0 <= k < |s| ==> order[k] == s[k].key
  }

  lemma {:induction false} FitHeightMonotone(m: nat, n: nat)
    requires m <= n
    ensures FitHeight(m) <= FitHeight(n)
  {
    hide FitHeight;
    FitHeightBounds(m);
    FitHeightBounds(n);
    if FitHeight(n) < FitHeight(m) {
      Pow2Monotone(FitHeight(n), FitHeight(m) - 1);
    }
  }

  /** An arena that refuses a request refuses larger ones, and goes on to do so while more is live. */
  lemma RefusesMore(live: set<nat>, live': set<nat>, size: nat, size': nat)
    requires Refuses(live, size) && live <= live' && size <= size'
    ensures Refuses(live', size')
  {
    hide FitHeight, Pow2;
    FitHeightMonotone(size, size');
    var k, k' := FitHeight(size), FitHeight(size');
    if k' <= META_DEPTH {
      forall j: nat | OnLevel(j, META_DEPTH - k')
        ensures !Apart(live', j)
      {
        Pow2Monotone(0, META_DEPTH - k');
        var i := LeftmostBelow(j, META_DEPTH - k', k' - k);
        assert Apart(live', i) ==> Apart(live, i);
        if Apart(live', j) {
          ApartBelow(live', i, j);
        }
      }
    }
  }

  lemma {:induction false} LeftmostBelow(j: nat, l: nat, d: nat) returns (i: nat)
    requires j >= 1 && OnLevel(j, l)
    ensures OnLevel(i, l + d) && Under(i, j) && i >= j
    decreases d
  {
    if d == 0 {
      i := j;
    } else {
      var h := LeftmostBelow(j, l, d - 1);
      i := 2 * h;
      Doubled(l + d - 1);
      Doubled(l + d);
      assert i / 2 == h && Under(h, j);
    }
  }

  // ---- Blocks -----------------------------------------------------------------------------

  ghost predicate LivesOk(table: map<nat, set<nat>>) {
    forall b :: b in table ==> LiveOk(table[b], META_DEPTH)
  }

  lemma LivesFromArenas(members: set<Entry<InternalAllocator>>, feet: set<object>, table: map<nat, set<nat>>)
    requires ArenasOk(members, feet, table)
    ensures LivesOk(table)
  {
    hide ArenaFoot, CanonOk, LiveOk, Ledger;
    forall b | b in table
      ensures LiveOk(table[b], META_DEPTH)
    {
      var e :| e in members && e.key == b;
      assert ArenaOk(e, table);
    }
  }

  /** A block lies inside the memory of its arena. */
  lemma BlockInArena(base: nat, x: nat)
    requires InTree(META_DEPTH, x)
    ensures base + META_HEADER <= BlockOf(base, x)
    ensures BlockOf(base, x) + BlockLen(META_DEPTH, x) <= base + META_HEADER + META_BYTES <= base + META_MAP
    ensures BlockLen(META_DEPTH, x) >= 32
  {
    hide BlockAddr, BlockLen, Pow2;
    BlockFacts(base + META_HEADER, META_DEPTH, x);
    MetaTotal();
  }

  lemma MetaTotal()
    ensures Total(META_DEPTH) == META_BYTES
  {
    Pow2Values();
    Pow2Add(16, 2);
    FourNodes();
  }

  /** Different live blocks, of one arena or of two, share no byte. */
  lemma BlocksApart(table: map<nat, set<nat>>, b: nat, x: nat, c: nat, y: nat)
    requires Spread(table) && LivesOk(table) && b in table && c in table && x in table[b] && y in table[c]
             && (b != c || x != y)
    ensures InTree(META_DEPTH, x) && InTree(META_DEPTH, y) && BlockOf(b, x) != BlockOf(c, y)
    ensures || BlockOf(b, x) + BlockLen(META_DEPTH, x) <= BlockOf(c, y)
            || BlockOf(c, y) + BlockLen(META_DEPTH, y) <= BlockOf(b, x)
  {
    hide BlockAddr, BlockLen, Pow2;
    BlockInArena(b, x);
    BlockInArena(c, y);
    if b == c {
      LiveBlocksDisjoint(table[b], b + META_HEADER, META_DEPTH, x, y);
    }
  }

  lemma BlocksAdd(table: map<nat, set<nat>>, blocks: map<int, nat>, b: nat, t: nat)
    requires Spread(table) && BlocksAre(table, blocks) && b in table && t !in table[b] && InTree(META_DEPTH, t)
    requires LivesOk(table[b := table[b] + {t}])
    ensures Spread(table[b := table[b] + {t}]) && BlockOf(b, t) !in blocks
    ensures BlocksAre(table[b := table[b] + {t}], blocks[BlockOf(b, t) := BlockLen(META_DEPTH, t)])
  {
    hide BlockAddr, BlockLen, Pow2, BlockOf, LiveOk, InTree;
    var table' := table[b := table[b] + {t}];
    var blocks' := blocks[BlockOf(b, t) := BlockLen(META_DEPTH, t)];
    forall c, x | c in table && x in table[c]
      ensures InTree(META_DEPTH, x) && BlockOf(c, x) != BlockOf(b, t)
    {
      assert x in table'[c];
      BlocksApart(table', b, t, c, x);
    }
    assert BlockOf(b, t) !in blocks;
    forall p | p in blocks'
      ensures exists c, x :: c in table' && x in table'[c] && InTree(META_DEPTH, x) && BlockOf(c, x) == p
    {
      if p == BlockOf(b, t) {
        assert t in table'[b];
      } else {
        var c, x :| c in table && x in table[c] && InTree(META_DEPTH, x) && BlockOf(c, x) == p;
        assert x in table'[c];
      }
    }
  }

  lemma BlocksRemove(table: map<nat, set<nat>>, blocks: map<int, nat>, b: nat, t: nat)
    requires Spread(table) && BlocksAre(table, blocks) && LivesOk(table) && b in table && t in table[b]
    ensures Spread(table[b := table[b] - {t}])
    ensures InTree(META_DEPTH, t) && BlockOf(b, t) in blocks
            && BlocksAre(table[b := table[b] - {t}], blocks - {BlockOf(b, t)})
  {
    hide BlockAddr, BlockLen, Pow2, BlockOf, LiveOk, InTree;
    var table' := table[b := table[b] - {t}];
    var blocks' := blocks - {BlockOf(b, t)};
    forall c, x | c in table' && x in table'[c]
      ensures InTree(META_DEPTH, x) && BlockOf(c, x) in blocks'
    {
      assert x in table[c];
      BlocksApart(table, b, t, c, x);
    }
    forall p | p in blocks'
      ensures exists c, x :: c in table' && x in table'[c] && InTree(META_DEPTH, x) && BlockOf(c, x) == p
    {
      var c, x :| c in table && x in table[c] && InTree(META_DEPTH, x) && BlockOf(c, x) == p;
      assert x in table'[c];
    }
  }

  /** Exactly the blocks of one arena start inside its memory. */
  lemma BlockHome(table: map<nat, set<nat>>, blocks: map<int, nat>, b: nat, memory: nat, p: int)
    requires Spread(table) && BlocksAre(table, blocks) && LivesOk(table) && b in table
    requires memory == b + META_HEADER && memory <= p <= memory + META_BYTES
    ensures p in blocks <==> exists x :: Starts(table[b], memory, META_DEPTH, p, x)
  {
    hide BlockAddr, BlockLen, Pow2, LiveOk, InTree;
    if p in blocks {
      var c, x :| c in table && x in table[c] && InTree(META_DEPTH, x) && BlockOf(c, x) == p;
      BlockInArena(c, x);
      assert c == b;
      assert Starts(table[b], memory, META_DEPTH, p, x);
    }
    if exists x :: Starts(table[b], memory, META_DEPTH, p, x) {
      var x :| Starts(table[b], memory, META_DEPTH, p, x);
      assert BlockOf(b, x) == p;
    }
  }

  lemma NoHome(table: map<nat, set<nat>>, blocks: map<int, nat>, p: int)
    requires BlocksAre(table, blocks)
    requires forall b :: b in table ==> !(b + META_HEADER <= p <= b + META_HEADER + META_BYTES)
    ensures p !in blocks
  {
    hide BlockAddr, BlockLen, Pow2, BlockOf;
    if p in blocks {
      var c, x :| c in table && x in table[c] && InTree(META_DEPTH, x) && BlockOf(c, x) == p;
      BlockInArena(c, x);
    }
  }

  class MetaPool {
    const list: List<InternalAllocator>
    ghost var Repr: set<object>
    ghost var members: set<Entry<InternalAllocator>>
    ghost var feet: set<object>
    ghost var table: map<nat, set<nat>>
    ghost var blocks: map<int, nat>
    /** Keys of the arenas, as they are listed. */
    ghost var order: seq<nat>

    ghost predicate Owned()
      reads this`Repr, this`members, this`feet
    {
      && this in Repr && list in Repr && members <= Repr && feet <= Repr
      && feet !! {this, list} && feet !! members
    }

    ghost predicate Lists()
      reads this`members, this`order, list, members
    {
      && (forall e :: e in members ==> e in list.entries)
      && (forall e :: e in list.entries ==> e in members)
      && list.Valid() && OrderIs(list.entries, order)
    }

    ghost predicate Valid()
      reads this, list, Repr
    {
      && Owned() && Lists() && ArenasOk(members, feet, table)
      && Spread(table) && BlocksAre(table, blocks)
    }

    constructor ()
      ensures Valid() && fresh(Repr) && {this, list} <= Repr && table == map[] && blocks == map[] && order == []
    {
      list := new List<InternalAllocator>();
      members, feet, table, blocks, order := {}, {}, map[], map[], [];
      new;
      Repr := {this, list};
    }

    lemma KeysDiffer()
      requires Lists()
      ensures forall e, f :: e in members && f in members && e != f ==> e.key != f.key
    {
    }

    lemma ArenaOwned(e: Entry<InternalAllocator>)
      requires Valid() && e in members
      ensures ArenaFoot(e.item) <= feet && ArenaOk(e, table) && LivesOk(table)
      ensures {e.item, e.item.tree} <= ArenaFoot(e.item) && e.item.tree.mem in ArenaFoot(e.item)
      ensures ArenasExcept(members, feet, table, e)
    {
      hide InternalAllocator.Valid;
      ArenaInFeet(members, feet, table, e);
      LivesFromArenas(members, feet, table);
      KeysDiffer();
      ArenasAllBut(members, feet, table, e);
    }

    /** Asks one arena for a block. */
    method TryArena(e: Entry<InternalAllocator>, size: nat) returns (r: Option<int>, ghost len: nat, ghost t: nat)
      requires Valid() && e in members && 1 <= size && 2 * size <= META_BYTES
      modifies ArenaFoot(e.item), this`table, this`blocks
      ensures Valid() && table.Keys == old(table).Keys
      ensures r.None? ==> blocks == old(blocks) && table == old(table)
      ensures r.None? ==> e.key in table && table[e.key] != {}
      ensures r.Some? ==> r.value !in old(blocks) && blocks == old(blocks)[r.value := len]
                          && SmallestBlock(size, len)
      ensures e.key in old(table) && e.key == old(e.key)
      ensures r.None? ==> Refuses(old(table)[e.key], size)
      ensures r.Some? ==>
                Serves(e.key, old(table)[e.key], size, t, r.value) && InTree(META_DEPTH, t)
                && len == BlockLen(META_DEPTH, t)
                          && table == old(table)[e.key := old(table)[e.key] + {t}]
    {
      hide InternalAllocator.Valid, ArenaFoot, ArenasOk, ArenasExcept, Lists, BlocksAre, Spread, Served, LivesOk,
           Granted, BlockOf, BlockAddr, BlockLen, Unfit, Serves, Refuses;
      ArenaOwned(e);
      ghost var q := e.item.Asked(size);
      MetaTotal();
      ghost var free := e.item.freeMem;
      len, t := 0, 0;
      r := e.item.Alloc(size);
      ArenasBack(members, feet, table, e);
      if r.Some? {
        t := ServedBlock(q, free, r, e.item.tree.items, e.item.freeMem, e.item.live);
        LivesFromArenas(members, feet, table[e.key := e.item.live]);
        BlocksAdd(table, blocks, e.key, t);
        table := table[e.key := e.item.live];
        len := BlockLen(META_DEPTH, t);
        blocks := blocks[r.value := len];
      } else {
        ServedNone(q, free, r, e.item.tree.items, e.item.freeMem, e.item.live);
        assert table[e.key := e.item.live] == table;
      }
    }

    /** Maps a new arena and puts it in front of the list. */
    method Grow(space: AddressSpace) returns (e: Entry<InternalAllocator>)
      requires Valid() && space !in Repr && forall b :: b in table ==> HasRange(space.bytes, b, META_MAP)
      modifies this`Repr, this`members, this`feet, this`table, this`order, list, list.entries`bk, space
      ensures Valid() && fresh(Repr - old(Repr)) && old(Repr) <= Repr && space !in Repr && e in members
              && blocks == old(blocks)
      ensures order == [e.key] + old(order)
      ensures Mapped(old(space.bytes), space.bytes, e.key, META_MAP) && e.key !in old(table)
      ensures table == old(table)[e.key := {}]
    {
      hide ArenasOk, InternalAllocator.Valid, LiveOk, BlocksAre, Lists, Spread, Mapped, HasRange;
      ghost var before := space.bytes;
      var base := space.Map(META_MAP);
      var ia := new InternalAllocator(META_DEPTH, base + META_HEADER);
      e := new Entry(base, base, ia);
      NewBase(table, before, space.bytes, base);
      Adopt(e);
    }

    method Adopt(e: Entry<InternalAllocator>)
      requires Valid() && e !in Repr && ArenaFoot(e.item) !! Repr && e.fd == null && e.bk == null
      requires e.item.Valid() && e.item.depth == META_DEPTH && e.item.memory == e.key + META_HEADER && e.item.live == {}
      requires e.key !in table && Spread(table[e.key := {}])
      modifies this`Repr, this`members, this`feet, this`table, this`order, list, list.entries`bk, e`fd, e`bk
      ensures Valid() && Repr == old(Repr) + {e} + ArenaFoot(e.item) && e in members
      ensures table == old(table)[e.key := {}] && blocks == old(blocks)
      ensures e.key == old(e.key) && order == [e.key] + old(order)
    {
      hide ArenasOk, InternalAllocator.Valid, LiveOk, BlocksAre, Lists, ArenaFoot, Spread;
      KeyMissing(e.key);
      NewFoot(e);
      ArenasAdd(members, feet, table, e);
      BlocksGrow(table, blocks, e.key);
      table := table[e.key := {}];
      feet := feet + ArenaFoot(e.item);
      Repr := Repr + {e} + ArenaFoot(e.item);
      ListNew(e);
    }

    /** Takes a block from the first arena on the list that has one; if all refuse, from a new arena,
        which goes to the front of the list. */
    method Alloc(space: AddressSpace, size: nat) returns (ptr: int, ghost len: nat, ghost grown: Option<nat>)
      requires Valid() && 1 <= size && 2 * size <= META_BYTES
      requires space !in Repr && forall b :: b in table ==> HasRange(space.bytes, b, META_MAP)
      modifies Repr, space
      ensures Valid() && fresh(Repr - old(Repr)) && old(Repr) <= Repr && space !in Repr
      ensures ptr !in old(blocks) && blocks == old(blocks)[ptr := len] && SmallestBlock(size, len)
      ensures grown.None? ==> space.bytes == old(space.bytes) && table.Keys == old(table).Keys
      ensures grown.Some? ==> Mapped(old(space.bytes), space.bytes, grown.value, META_MAP) && grown.value !in old(table)
                              && table.Keys == old(table).Keys + {grown.value}
      ensures var keys := old(order);
              && (grown.None? ==> order == keys && FromListed(keys, old(table), table, size, ptr, len))
              && (grown.Some? ==>
                    FromNew(grown.value, old(table), table, size, ptr, len)
                    && order == [grown.value] + keys)
    {
      hide ArenasOk, InternalAllocator.Valid, LiveOk, BlocksAre, ArenaFoot, Spread, Mapped, HasRange, ArenaOk,
           ArenasExcept, LivesOk, Refuses, Serves, BlockLen, FromListed, FromNew, InTree;
      var root := list.head;
      ghost var k, t := 0, 0;
      ghost var keys := order;
      var r: Option<int>;
      while root != null
        invariant Valid() && Repr == old(Repr) && blocks == old(blocks) && table == old(table)
                  && space.bytes == old(space.bytes)
        invariant 0 <= k <= |list.entries| && list.entries == old(list.entries) && order == keys
        invariant forall j :: 0 <= j < k ==> keys[j] in table && Refuses(table[keys[j]], size)
        invariant root == (if k == |list.entries| then null else list.entries[k])
        decreases |list.entries| - k
      {
        assert Links(list.entries, k);
        ArenaOwned(root);
        assert keys[k] == root.key;
        r, len, t := TryArena(root, size);
        if r.Some? {
          ListedAnswer(keys, old(table), table, size, k, t, r.value, len);
          return r.value, len, None;
        }
        assert Links(list.entries, k);
        root := root.fd;
        k := k + 1;
      }
      AllRefuse(keys, size);
      var e := Grow(space);
      ArenaOwned(e);
      ghost var table1 := table;
      r, len, t := TryArena(e, size);
      NewAnswer(e.key, old(table), table1, table, size, t, r.value, len);
      return r.value, len, Some(e.key);
    }

    // ---- Freeing --------------------------------------------------------------------------

    /** The arena whose memory contains an address, or ends there. */
    method FindArena(ptr: int) returns (root: Entry?<InternalAllocator>)
      requires Valid()
      ensures root != null ==> root in members && root.key + META_HEADER <= ptr <= root.key + META_HEADER + META_BYTES
      ensures root == null ==> forall b :: b in table ==> !(b + META_HEADER <= ptr <= b + META_HEADER + META_BYTES)
    {
      hide InternalAllocator.Valid, LiveOk, BlocksAre, ArenaFoot, Spread;
      root := list.head;
      ghost var k := 0;
      while root != null
        invariant 0 <= k <= |list.entries| && root == (if k == |list.entries| then null else list.entries[k])
        invariant forall i :: 0 <= i < k ==>
                    !(list.entries[i].key + META_HEADER <= ptr <= list.entries[i].key + META_HEADER + META_BYTES)
        decreases |list.entries| - k
      {
        assert Links(list.entries, k) && ArenaOk(root, table);
        if root.item.memory <= ptr && ptr <= root.item.memory + META_BYTES {
          return;
        }
        root := root.fd;
        k := k + 1;
      }
    }

    /** Gives back a block; fails, where the original reports an error and exits, exactly if no
        block starts at `ptr`. */
    method Free(ptr: int) returns (ok: bool)
      requires Valid()
      modifies Repr
      ensures Valid() && Repr == old(Repr) && table.Keys == old(table).Keys
      ensures ok <==> ptr in old(blocks)
      ensures blocks == old(blocks) - {ptr} && order == old(order)
    {
      hide ArenasOk, InternalAllocator.Valid, LiveOk, BlocksAre, ArenaFoot, Spread, ArenasExcept, LivesOk, Starts;
      var root := FindArena(ptr);
      if root == null {
        NoHome(table, blocks, ptr);
        return false;
      }
      ArenaOwned(root);
      BlockHome(table, blocks, root.key, root.key + META_HEADER, ptr);
      ok := FreeIn(root, ptr);
    }

    method FreeIn(e: Entry<InternalAllocator>, ptr: int) returns (ok: bool)
      requires Valid() && e in members
      requires ptr in blocks <==> exists x :: Starts(e.item.live, e.item.memory, META_DEPTH, ptr, x)
      modifies ArenaFoot(e.item), this`table, this`blocks
      ensures Valid() && table.Keys == old(table).Keys
      ensures ok <==> ptr in old(blocks)
      ensures blocks == old(blocks) - {ptr}
    {
      hide InternalAllocator.Valid, ArenaFoot, ArenasOk, ArenasExcept, Lists, BlocksAre, Spread, LivesOk, BlockAddr,
           BlockLen;
      ArenaOwned(e);
      ghost var live0 := e.item.live;
      ok := e.item.Free(ptr);
      ArenasBack(members, feet, table, e);
      if ok {
        ghost var b :| Starts(live0, e.item.memory, META_DEPTH, ptr, b) && e.item.live == live0 - {b};
        BlocksRemove(table, blocks, e.key, b);
        table := table[e.key := e.item.live];
        blocks := blocks - {ptr};
      } else {
        assert table[e.key := e.item.live] == table;
        assert blocks == blocks - {ptr};
      }
    }

    lemma NewFoot(e: Entry<InternalAllocator>)
      ensures e !in ArenaFoot(e.item) && this !in ArenaFoot(e.item) && list !in ArenaFoot(e.item)
      ensures ArenaFoot(e.item) == {e.item, e.item.tree, e.item.tree.mem}
      ensures Lists() ==> forall f :: f in list.entries ==> f in members
    {
    }

    method ListNew(e: Entry<InternalAllocator>)
      requires Lists() && e !in members && !list.HasKey(e.key) && e.fd == null && e.bk == null
      modifies this`members, this`order, list, list.entries`bk, e`fd, e`bk
      ensures Lists() && members == old(members) + {e}
      ensures e.key == old(e.key) && order == [e.key] + old(order)
    {
      members := members + {e};
      order := [e.key] + order;
      list.Add(e);
    }

    /** The list holds exactly the arenas of the table. */
    lemma OrderKeys()
      requires Valid()
      ensures forall b :: b in order <==> b in table
    {
      hide InternalAllocator.Valid, BlocksAre, Spread;
      forall b | b in order
        ensures b in table
      {
        var j :| 0 <= j < |order| && order[j] == b;
        assert list.entries[j] in members && ArenaOk(list.entries[j], table);
      }
      forall b | b in table
        ensures b in order
      {
        var e :| e in members && e.key == b;
        var j :| 0 <= j < |list.entries| && list.entries[j] == e;
        assert order[j] == b;
      }
    }

    /** All arenas are on the list. */
    lemma AllRefuse(keys: seq<nat>, size: nat)
      requires Valid() && keys == order
      requires forall j :: 0 <= j < |keys| ==> keys[j] in table && Refuses(table[keys[j]], size)
      ensures forall b :: b in table ==> Refuses(table[b], size)
    {
      hide InternalAllocator.Valid, Refuses, BlocksAre, Spread;
      forall b | b in table
        ensures Refuses(table[b], size)
      {
        var e :| e in members && e.key == b;
        var j :| 0 <= j < |list.entries| && list.entries[j] == e;
        assert keys[j] == b;
      }
    }

    /** Live blocks lie in the mappings of the arenas, and share no byte. */
    lemma PoolBlocks(p: int, q: int) returns (b: nat)
      requires Valid() && p in blocks && q in blocks
      ensures b in table && b + META_HEADER <= p && p + blocks[p] <= b + META_MAP
      ensures p != q ==> p + blocks[p] <= q || q + blocks[q] <= p
    {
      hide InternalAllocator.Valid, BlockLen, BlockOf, LivesOk, ArenasOk, Spread;
      LivesFromArenas(members, feet, table);
      var x;
      b, x :| b in table && x in table[b] && InTree(META_DEPTH, x) && BlockOf(b, x) == p;
      var c, y :| c in table && y in table[c] && InTree(META_DEPTH, y) && BlockOf(c, y) == q;
      BlockInArena(b, x);
      if p != q {
        BlocksApart(table, b, x, c, y);
      }
    }

    lemma KeyMissing(key: nat)
      requires Lists() && ArenasOk(members, feet, table) && key !in table
      ensures !list.HasKey(key)
    {
      hide InternalAllocator.Valid;
      forall e | e in members
        ensures e.key in table
      {
        assert ArenaOk(e, table);
      }
      assert forall k :: 0 <= k < |list.entries| ==> list.entries[k] in list.entries;
    }
  }

  lemma NewBase(table: map<nat, set<nat>>, before: map<nat, bv8>, after: map<nat, bv8>, base: nat)
    requires Mapped(before, after, base, META_MAP) && forall b :: b in table ==> HasRange(before, b, META_MAP)
    requires Spread(table)
    ensures base !in table && Spread(table[base := {}])
  {
    hide HasRange, Mapped;
    forall b | b in table
      ensures b + META_MAP <= base || base + META_MAP <= b
    {
      FreshApart(before, after, base, META_MAP, b, META_MAP);
    }
  }

  lemma BlocksGrow(table: map<nat, set<nat>>, blocks: map<int, nat>, base: nat)
    requires BlocksAre(table, blocks) && base !in table
    ensures BlocksAre(table[base := {}], blocks)
  {
    var table' := table[base := {}];
    forall p | p in blocks
      ensures exists b, x :: b in table' && x in table'[b] && InTree(META_DEPTH, x) && BlockOf(b, x) == p
    {
      var b, x :| b in table && x in table[b] && InTree(META_DEPTH, x) && BlockOf(b, x) == p;
      assert x in table'[b];
    }
  }

  lemma BlockIsDoubling(x: nat)
    requires InTree(META_DEPTH, x)
    ensures exists k: nat :: BlockLen(META_DEPTH, x) == BLOCK_SIZE * Pow2(k)
  {
    assert BlockLen(META_DEPTH, x) == BLOCK_SIZE * Pow2(Height(META_DEPTH, x));
  }

  lemma ServedBlock(q: Request, free: nat, r: Option<int>, items: seq<TwoBit>, free': nat, live': set<nat>)
    returns (t: nat)
    requires Served(q, free, r, items, free', live') && r.Some? && q.depth == META_DEPTH && q.memory >= META_HEADER
    ensures Serves(q.memory - META_HEADER, q.live, q.size, t, r.value)
    ensures InTree(META_DEPTH, t) && t !in q.live && live' == q.live + {t}
    ensures r.value == BlockOf(q.memory - META_HEADER, t) && SmallestBlock(q.size, BlockLen(META_DEPTH, t))
  {
    hide BlockAddr, BlockLen;
    t :| Granted(q, t, r.value) && live' == q.live + {t} && free' == free - BlockLen(q.depth, t);
    var plain := Request(META_DEPTH, q.memory, q.live, q.size, []);
    assert FirstFit(q, t) == FirstFit(plain, t) && Granted(plain, t, r.value);
    FirstFitByAddress(q, t, r.value, t);
    BlockIsDoubling(t);
    assert Under(t, t);
  }

  /** A small request is refused only where something is live. */
  lemma ServedNone(q: Request, free: nat, r: Option<int>, items: seq<TwoBit>, free': nat, live': set<nat>)
    requires Served(q, free, r, items, free', live') && r.None? && q.size <= Total(q.depth) && q.depth == META_DEPTH
    ensures live' == q.live && q.live != {} && Refuses(q.live, q.size)
  {
    var plain := Request(META_DEPTH, 0, q.live, q.size, []);
    assert FitHeight(q.size) <= q.depth ==> NoFit(q) == NoFit(plain);
    if q.live == {} {
      EmptyFits(q);
    }
  }

  lemma EmptyFits(q: Request)
    requires q.live == {} && q.size <= Total(q.depth)
    ensures !Unfit(q)
  {
    FitHeightBounds(q.size);
    if FitHeight(q.size) > q.depth {
      Pow2Monotone(q.depth, FitHeight(q.size) - 1);
    } else {
      var j := Pow2(q.depth - FitHeight(q.size));
      assert OnLevel(j, q.depth - FitHeight(q.size)) && Apart({}, j);
    }
  }
}
