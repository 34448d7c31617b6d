/** The intrusive doubly linked lists that hold all records of the allocator. */
module LinkedList {

  /** A list entry, with the record it is part of. */
  class Entry<T> {
    var key: nat
    var fd: Entry?<T>
    var bk: Entry?<T>
    /** Address of the record in the metadata memory. */
    const addr: int
    const item: T

    constructor (key: nat, addr: int, item: T)
      ensures this.key == key && this.addr == addr && this.item == item && fd == null && bk == null
    {
      this.key := key;
      this.addr := addr;
      this.item := item;
      fd := null;
      bk := null;
    }
  }

  ghost function Before<T>(s: seq<Entry<T>>, k: int): Entry?<T>
    requires 0 <= k < |s|
  {
    if k == 0 then null else s[k - 1]
  }

  ghost function After<T>(s: seq<Entry<T>>, k: int): Entry?<T>
    requires 0 <= k < |s|
  {
    if k == |s| - 1 then null else s[k + 1]
  }

  ghost predicate Links<T>(s: seq<Entry<T>>, k: int)
    requires 0 <= k < |s|
    reads s[k]
  {
    s[k].bk == Before(s, k) && s[k].fd == After(s, k)
  }

  /** No two entries of the list share a key; so no entry is listed twice. */
  ghost predicate UniqueKeys<T>(s: seq<Entry<T>>)
    reads s
  {
    forall i, j :: 0 <= i < j < |s| ==> s[i].key != s[j].key
  }

  lemma UniqueWithout<T>(s: seq<Entry<T>>, k: nat)
    requires UniqueKeys(s) && k < |s|
    ensures UniqueKeys(s[..k] + s[k + 1..])
  {
    var t := s[..k] + s[k + 1..];
    forall i, j | 0 <= i < j < |t|
      ensures t[i].key != t[j].key
    {
      assert t[i] == s[if i < k then i else i + 1] && t[j] == s[if j < k then j else j + 1];
    }
  }

  lemma MembersWithout<T>(s: seq<Entry<T>>, k: nat)
    requires UniqueKeys(s) && k < |s|
    ensures s[k] !in s[..k] + s[k + 1..]
    ensures forall e :: e in s[..k] + s[k + 1..] ==> e in s
    ensures forall e :: e in s && e != s[k] ==> e in s[..k] + s[k + 1..]
  {
    forall e | e in s && e != s[k]
      ensures e in s[..k] + s[k + 1..]
    {
      var i :| 0 <= i < |s| && s[i] == e;
      assert i < k ==> s[..k][i] == e;
      assert i > k ==> s[k + 1..][i - k - 1] == e;
    }
  }

  /** Entry `j` bypasses entry `k`. */
  ghost predicate Bypasses<T>(s: seq<Entry<T>>, k: int, j: int)
    requires 0 <= k < |s| && 0 <= j < |s|
    reads s[j]
  {
    && s[j].bk == (if j == k + 1 then Before(s, k) else Before(s, j))
    && s[j].fd == (if j == k - 1 then After(s, k) else After(s, j))
  }

  lemma BypassedLinks<T>(s: seq<Entry<T>>, t: seq<Entry<T>>, k: nat)
    requires k < |s| && t == s[..k] + s[k + 1..]
    requires forall j :: 0 <= j < |s| && j != k ==> Bypasses(s, k, j)
    ensures forall i :: 0 <= i < |t| ==> Links(t, i)
  {
    forall i | 0 <= i < |t|
      ensures Links(t, i)
    {
      var j := if i < k then i else i + 1;
      assert t[i] == s[j] && Bypasses(s, k, j);
      assert i > 0 ==> t[i - 1] == s[if i - 1 < k then i - 1 else i];
      assert i < |t| - 1 ==> t[i + 1] == s[if i + 1 < k then i + 1 else i + 2];
    }
  }

  class List<T> {
    var head: Entry?<T>
    ghost var entries: seq<Entry<T>>

    ghost predicate Valid()
      reads this, entries
    {
      && UniqueKeys(entries)
      && head == (if entries == [] then null else entries[0])
      && forall k :: 0 <= k < |entries| ==> Links(entries, k)
    }

    ghost predicate HasKey(key: nat)
      reads this, entries
    {
      exists k :: 0 <= k < |entries| && entries[k].key == key
    }

    constructor ()
      ensures Valid() && entries == []
    {
      head := null;
      entries := [];
    }

    /** Puts an entry to the front. */
    method Add(item: Entry<T>)
      requires Valid() && item !in entries && item.fd == null && item.bk == null && !HasKey(item.key)
      modifies this, item`fd, item`bk, entries`bk
      ensures Valid() && entries == [item] + old(entries)
    {
      if head == null {
        head := item;
        item.fd := null;
        item.bk := null;
      } else {
        var fst := head;
        item.bk := null;
        item.fd := fst;
        fst.bk := item;
        head := item;
      }
      ghost var s := entries;
      assert forall k :: 0 <= k < |s| ==> old(Links(s, k));
      entries := [item] + s;
      forall k | 0 <= k < |entries|
        ensures Links(entries, k)
      {
        if k > 0 {
          assert entries[k] == s[k - 1] && old(Links(s, k - 1));
        }
      }
    }

    /** Position of an entry. */
    ghost function Position(item: Entry<T>): (k: nat)
      requires item in entries
      reads this
      ensures k < |entries| && entries[k] == item
    {
      var k :| 0 <= k < |entries| && entries[k] == item;
      k
    }

    /** Takes an entry out; all others stay in their order. */
    method Del(item: Entry<T>)
      requires Valid() && item in entries
      modifies this, entries`fd, entries`bk
      ensures Valid() && item.fd == null && item.bk == null
      ensures var k := old(Position(item)); entries == old(entries[..k] + entries[k + 1..])
      ensures item !in entries
      ensures forall e :: e in entries ==> e in old(entries)
      ensures forall e :: e in old(entries) && e != item ==> e in entries
    {
      ghost var k, s := Position(item), entries;
      Detach(item, k);
      forall j | 0 <= j < |s| && j != k
        ensures Bypasses(s, k, j)
      {
        assert old(Links(s, j)) && old(Links(s, k));
      }
      UniqueWithout(s, k);
      MembersWithout(s, k);
      entries := s[..k] + s[k + 1..];
      BypassedLinks(s, entries, k);
    }

    /** Lets the neighbours of an entry, or the head, bypass it. */
    method Detach(item: Entry<T>, ghost k: nat)
      requires Valid() && k < |entries| && item == entries[k]
      modifies this`head, entries`fd, entries`bk
      ensures item.fd == null && item.bk == null
      ensures head == if k == 0 then old(item.fd) else old(head)
      ensures forall j :: 0 <= j < |entries| && j != k ==>
                && entries[j].bk == (if j == k + 1 then old(item.bk) else old(entries[j].bk))
                && entries[j].fd == (if j == k - 1 then old(item.fd) else old(entries[j].fd))
    {
      assert Links(entries, k) && (k > 0 ==> Links(entries, k - 1)) && (k + 1 < |entries| ==> Links(entries, k + 1));
      if head == item {
        if head.fd == null {
          head := null;
        } else {
          head := head.fd;
          head.bk := null;
        }
      }
      if item.fd != null {
        item.fd.bk := item.bk;
      }
      if item.bk != null {
        item.bk.fd := item.fd;
      }
      item.fd := null;
      item.bk := null;
    }

    method Find(key: nat) returns (res: Entry?<T>)
      requires Valid()
      ensures res == null <==> !HasKey(key)
      ensures res != null ==> res in entries && res.key == key
    {
      res := head;
      ghost var k := 0;
      while res != null
        invariant 0 <= k <= |entries| && res == (if k == |entries| then null else entries[k])
        invariant forall i :: 0 <= i < k ==> entries[i].key != key
        decreases |entries| - k
      {
        assert Links(entries, k);
        if res.key == key {
          return;
        }
        res := res.fd;
        k := k + 1;
      }
    }

    /** Changes the key of a listed entry in place. */
    method Rekey(item: Entry<T>, key: nat)
      requires Valid() && item in entries && !HasKey(key)
      modifies item`key
      ensures Valid() && item.key == key
    {
      item.key := key;
      forall k | 0 <= k < |entries|
        ensures Links(entries, k)
      {
        assert old(Links(entries, k));
      }
    }
  }
}
