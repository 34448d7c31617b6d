/** The mappings that serve huge requests. */
module HugePools {
  import opened LinkedList

  class Huge {
    var len: nat

    constructor (len: nat)
      ensures this.len == len
    {
      this.len := len;
    }
  }

  /** The address of the record of a mapping, and the length of the mapping. */
  datatype HugeView = HugeView(addr: int, len: nat)

  ghost predicate HugesOk(members: set<Entry<Huge>>, feet: set<object>, table: map<nat, HugeView>)
    reads members`key, feet
  {
    && (forall e :: e in members ==> e.item in feet && e.key in table && table[e.key] == HugeView(e.addr, e.item.len))
    && (forall e, f :: e in members && f in members && e != f ==> e.item != f.item)
    && (forall k :: k in table ==> exists e :: e in members && e.key == k)
  }

  class HugePool {
    const list: List<Huge>
    ghost var Repr: set<object>
    ghost var members: set<Entry<Huge>>
    ghost var feet: set<object>
    ghost var table: map<nat, HugeView>
    ghost var index: map<nat, Entry<Huge>>

    ghost predicate Owned()
      reads this`Repr, this`members, this`feet
    {
      && this in Repr && list in Repr && members <= Repr && feet <= Repr
      && feet !! {this, list} && feet !! members
    }

    ghost predicate Lists()
      reads this`members, list, members
    {
      && (forall e :: e in members ==> e in list.entries)
      && (forall e :: e in list.entries ==> e in members)
      && list.Valid()
    }

    ghost predicate Valid()
      reads this, list, Repr
    {
      && Owned() && Lists() && HugesOk(members, feet, table)
      && forall e :: e in members ==> e.key in index && index[e.key] == e
    }

    constructor ()
      ensures Valid() && fresh(Repr) && {this, list} <= Repr && table == map[]
    {
      list := new List<Huge>();
      members, feet, table, index := {}, {}, map[], map[];
      new;
      Repr := {this, list};
    }

    lemma KeyListed(key: nat)
      requires Valid()
      ensures key in table <==> list.HasKey(key)
      ensures forall e, f :: e in members && f in members && e != f ==> e.key != f.key
      ensures forall f :: f in list.entries ==> f in Repr && f !in feet
      ensures forall f :: f in members ==> f in list.entries && f.item in feet
    {
      assert forall k :: 0 <= k < |list.entries| ==> list.entries[k] in list.entries;
    }

    /** Puts the record of a new mapping to the front of the list. */
    method Add(key: nat, addr: int, len: nat)
      requires Valid() && key !in table
      modifies Repr
      ensures Valid() && fresh(Repr - old(Repr)) && old(Repr) <= Repr && table == old(table)[key := HugeView(addr, len)]
    {
      hide HugesOk, Lists;
      KeyListed(key);
      var huge := new Huge(len);
      var e := new Entry(key, addr, huge);
      AddEntry(e);
    }

    method AddEntry(e: Entry<Huge>)
      requires Valid() && e.key !in table && e !in Repr && e.item !in Repr && e.item != e as object && e.fd == null
               && e.bk == null
      modifies this, list, list.entries`bk, e`fd, e`bk
      ensures Valid() && Repr == old(Repr) + {e, e.item} && table == old(table)[e.key := HugeView(e.addr, e.item.len)]
    {
      hide HugesOk, Lists;
      KeyListed(e.key);
      HugesAdd(members, feet, table, e);
      feet := feet + {e.item};
      table := table[e.key := HugeView(e.addr, e.item.len)];
      index := index[e.key := e];
      Repr := Repr + {e, e.item};
      ListNew(e);
    }

    method ListNew(e: Entry<Huge>)
      requires Lists() && e !in members && !list.HasKey(e.key) && e.fd == null && e.bk == null
      modifies this`members, list, list.entries`bk, e`fd, e`bk
      ensures Lists() && members == old(members) + {e}
    {
      members := members + {e};
      list.Add(e);
    }

    /** The entry for a key is known. */
    lemma Indexed(key: nat, e: Entry<Huge>)
      requires Valid() && key in table && key in index && index[key] == e
      ensures e in members && e.key == key && table[key] == HugeView(e.addr, e.item.len)
    {
    }

    /** The record of the mapping that starts at `key`. */
    method Find(key: nat) returns (e: Entry?<Huge>)
      requires Valid()
      ensures e == null <==> key !in table
      ensures e != null ==> e in members && e.key == key && key in index && index[key] == e
      ensures e != null ==> table[key] == HugeView(e.addr, e.item.len)
    {
      KeyListed(key);
      e := list.Find(key);
    }

    /** Takes the record of a mapping off the list. */
    method Remove(e: Entry<Huge>)
      requires Valid() && e in members
      modifies Repr
      ensures Valid() && Repr == old(Repr) && index == old(index) && table == old(table) - {old(e.key)}
    {
      hide HugesOk, Lists;
      KeyListed(e.key);
      HugesRemove(members, feet, table, e);
      table := table - {e.key};
      Unlist(e);
    }

    method Unlist(e: Entry<Huge>)
      requires Lists() && e in members
      modifies this`members, list, list.entries`fd, list.entries`bk
      ensures Lists() && members == old(members) - {e}
    {
      members := members - {e};
      list.Del(e);
    }

    /** Lets a listed record describe another mapping. */
    method Replace(e: Entry<Huge>, key: nat, len: nat)
      requires Valid() && e in members && key !in table
      modifies Repr
      ensures Valid() && Repr == old(Repr) && e.key == key && e in members
      ensures table == (old(table) - {old(e.key)})[key := HugeView(e.addr, len)] && index == old(index)[key := e]
    {
      hide HugesOk, Lists;
      ghost var oldKey, rest, rem := e.key, members - {e}, feet - {e.item};
      ghost var table0 := table - {oldKey};
      KeyListed(key);
      HugesRemove(members, feet, table, e);
      Rekey(e, key);
      SetLen(e, len, rest, rem, table0);
      assert rest + {e} == members && rem + {e.item} == feet;
      table := table0[key := HugeView(e.addr, len)];
      index := index[key := e];
    }

    method SetLen(e: Entry<Huge>, len: nat, ghost rest: set<Entry<Huge>>, ghost rem: set<object>,
                  ghost table0: map<nat, HugeView>)
      requires HugesOk(rest, rem, table0) && e !in rest && e.item !in rem && e.key !in table0
      modifies e.item
      ensures e.item.len == len && HugesOk(rest + {e}, rem + {e.item}, table0[e.key := HugeView(e.addr, len)])
    {
      hide HugesOk;
      e.item.len := len;
      HugesAdd(rest, rem, table0, e);
    }

    method Rekey(e: Entry<Huge>, key: nat)
      requires Lists() && e in members && !list.HasKey(key)
      modifies e`key
      ensures Lists() && e.key == key
    {
      list.Rekey(e, key);
    }
  }

  lemma HugesAdd(members: set<Entry<Huge>>, feet: set<object>, table: map<nat, HugeView>, e: Entry<Huge>)
    requires HugesOk(members, feet, table) && e !in members && e.key !in table && e.item !in feet
    ensures HugesOk(members + {e}, feet + {e.item}, table[e.key := HugeView(e.addr, e.item.len)])
  {
    var all, table' := members + {e}, table[e.key := HugeView(e.addr, e.item.len)];
    forall k | k in table'
      ensures exists f :: f in all && f.key == k
    {
      if k == e.key {
        assert e in all;
      } else {
        var f :| f in members && f.key == k;
        assert f in all;
      }
    }
  }

  lemma HugesRemove(members: set<Entry<Huge>>, feet: set<object>, table: map<nat, HugeView>, e: Entry<Huge>)
    requires HugesOk(members, feet, table) && e in members
    requires forall e, f :: e in members && f in members && e != f ==> e.key != f.key
    ensures HugesOk(members - {e}, feet, table - {e.key})
    ensures HugesOk(members - {e}, feet - {e.item}, table - {e.key})
  {
    var rest, table' := members - {e}, table - {e.key};
    forall k | k in table'
      ensures exists f :: f in rest && f.key == k
    {
      var f :| f in members && f.key == k;
      assert f in rest;
    }
  }
}
