/** The skip list of one tree level: every available node stores the distance to the previous
    and to the next available node of its level, every other node stores (0, 0). */
module JumpList {

  datatype JumpNode = JumpNode(prev: nat, next: nat)

  const NO_LINKS := JumpNode(0, 0)

  /** Conversion to `unsigned short`. */
  function U16(x: nat): nat {
    x % 0x1_0000
  }

  ghost predicate Ascending(s: seq<nat>) {
    forall a, b :: 0 <= a < b < |s| ==> s[a] < s[b]
  }

  ghost predicate Within(s: seq<nat>, lo: nat, hi: nat) {
    forall k :: 0 <= k < |s| ==> lo <= s[k] < hi
  }

  /** What the k-th node of the list `s` has to store. */
  ghost function LinksAt(s: seq<nat>, k: nat): JumpNode
    requires k < |s| && Ascending(s)
  {
    JumpNode(if k == 0 then 0 else s[k] - s[k - 1],
             if k == |s| - 1 then 0 else s[k + 1] - s[k])
  }

  ghost predicate Linked(jump: seq<JumpNode>, s: seq<nat>)
    requires Ascending(s)
  {
    forall k {:trigger LinksAt(s, k)} :: 0 <= k < |s| ==> 1 <= s[k] <= |jump| && jump[s[k] - 1] == LinksAt(s, k)
  }

  ghost predicate Cleared(jump: seq<JumpNode>, s: seq<nat>, lo: nat, hi: nat)
  {
    forall i :: lo <= i < hi && i !in s && 1 <= i <= |jump| ==> jump[i - 1] == NO_LINKS
  }

  /** The part `[lo, hi)` of the jump tree is exactly the doubly linked list `s`. */
  ghost predicate IsList(jump: seq<JumpNode>, s: seq<nat>, lo: nat, hi: nat) {
    Ascending(s) && Within(s, lo, hi) && Linked(jump, s) && Cleared(jump, s, lo, hi)
  }

  ghost function FirstOf(s: seq<nat>): nat {
    if s == [] then 0 else s[0]
  }

  /** Unlinks the nodes `l..r` (all listed): their outer neighbours are linked to each other. */
  function Relink(jump: seq<JumpNode>, l: nat, r: nat): seq<JumpNode>
    requires 1 <= l <= r <= |jump|
    requires jump[l - 1].prev < l && r + jump[r - 1].next <= |jump|
  {
    var p, n := jump[l - 1].prev, jump[r - 1].next;
    if p == 0 && n == 0 then jump
    else if p == 0 then
      jump[r + n - 1 := jump[r + n - 1].(prev := 0)]
    else if n == 0 then
      jump[l - p - 1 := jump[l - p - 1].(next := 0)]
    else
      jump[l - p - 1 := jump[l - p - 1].(next := U16(jump[l - p - 1].next + (r - l) + n))]
          [r + n - 1 := jump[r + n - 1].(prev := U16(jump[r + n - 1].prev + (r - l) + p))]
  }

  /** The list without its entries `a..b`. */
  ghost function Without(s: seq<nat>, a: nat, b: nat): seq<nat>
    requires a <= b < |s|
  {
    s[..a] + s[b + 1..]
  }

  lemma {:induction false} GapAtLeast(s: seq<nat>, a: nat, b: nat)
    requires Ascending(s) && a <= b < |s|
    ensures s[b] - s[a] >= b - a
    decreases b
  {
    if a < b {
      GapAtLeast(s, a, b - 1);
    }
  }

  lemma LinkedAt(jump: seq<JumpNode>, s: seq<nat>, k: nat)
    requires Ascending(s) && Linked(jump, s) && k < |s|
    ensures 1 <= s[k] <= |jump| && jump[s[k] - 1] == LinksAt(s, k)
  {
    var links := LinksAt(s, k);
  }

  /** What Relink stores at node `i`. */
  lemma RelinkAt(jump: seq<JumpNode>, l: nat, r: nat, i: nat)
    requires 1 <= l <= r <= |jump| && 1 <= i <= |jump|
    requires jump[l - 1].prev < l && r + jump[r - 1].next <= |jump|
    ensures |Relink(jump, l, r)| == |jump|
    ensures var p, n, at := jump[l - 1].prev, jump[r - 1].next, jump[i - 1];
            Relink(jump, l, r)[i - 1] == JumpNode(
              if n != 0 && i == r + n then (if p == 0 then 0 else U16(at.prev + (r - l) + p)) else at.prev,
              if p != 0 && i == l - p then (if n == 0 then 0 else U16(at.next + (r - l) + n)) else at.next)
  {
  }

  lemma WithoutShape(s: seq<nat>, lo: nat, hi: nat, a: nat, b: nat)
    requires Ascending(s) && Within(s, lo, hi) && a <= b < |s|
    ensures var t := Without(s, a, b);
            && |t| == |s| - (b + 1 - a)
            && (forall k :: 0 <= k < |t| ==> t[k] == s[if k < a then k else k + (b + 1 - a)])
            && Ascending(t) && Within(t, lo, hi)
  {
    var t := Without(s, a, b);
    assert forall k :: 0 <= k < |t| ==> t[k] == s[if k < a then k else k + (b + 1 - a)];
  }

  /** How the links a node has to store change when the block `a..b` leaves the list. */
  lemma KeptLinks(s: seq<nat>, a: nat, b: nat, m: nat)
    requires Ascending(s) && a <= b < |s| && m < |s| && !(a <= m <= b)
    requires Ascending(Without(s, a, b))
    ensures var k := if m < a then m else m - (b + 1 - a);
            && k < |Without(s, a, b)| && Without(s, a, b)[k] == s[m]
            && LinksAt(Without(s, a, b), k) == JumpNode(
                 if m == b + 1 then (if a == 0 then 0 else s[m] - s[a - 1]) else LinksAt(s, m).prev,
                 if m + 1 == a then (if b + 1 == |s| then 0 else s[b + 1] - s[m]) else LinksAt(s, m).next)
  {
    var t := Without(s, a, b);
    if m < a {
      assert t[m] == s[m];
      assert m > 0 ==> t[m - 1] == s[m - 1];
      assert m + 1 < a ==> t[m + 1] == s[m + 1];
      assert m + 1 == a && b + 1 < |s| ==> t[m + 1] == s[b + 1];
    } else {
      var k := m - (b + 1 - a);
      assert t[k] == s[m];
      assert m > b + 1 ==> t[k - 1] == s[m - 1];
      assert m == b + 1 && a > 0 ==> t[k - 1] == s[a - 1];
      assert m + 1 < |s| ==> t[k + 1] == s[m + 1];
    }
  }

  /** The remaining nodes store what they have to after relinking. */
  lemma RelinkLinks(jump: seq<JumpNode>, s: seq<nat>, lo: nat, hi: nat, a: nat, b: nat, m: nat)
    requires Ascending(s) && Within(s, lo, hi) && Linked(jump, s)
    requires 1 <= lo && hi <= |jump| + 1 && hi - lo <= 0x1_0000
    requires a <= b < |s| && s[b] - s[a] == b - a && m < |s| && !(a <= m <= b)
    requires jump[s[a] - 1].prev < s[a] && s[b] + jump[s[b] - 1].next <= |jump|
    requires Ascending(Without(s, a, b))
    ensures Relink(jump, s[a], s[b])[s[m] - 1] ==
            LinksAt(Without(s, a, b), if m < a then m else m - (b + 1 - a))
  {
    KeptLinks(s, a, b, m);
    RelinkAt(jump, s[a], s[b], s[m]);
    var p, n := LinksAt(s, a).prev, LinksAt(s, b).next;
    assert jump[s[a] - 1].prev == p && jump[s[b] - 1].next == n;
    assert jump[s[m] - 1] == LinksAt(s, m);
    Neighbours(s, a, b, m);
    assert s[m] < lo + 0x1_0000 && s[m] >= lo;
    if m == b + 1 && a > 0 {
      assert s[a - 1] >= lo;
      SmallGap(LinksAt(s, m).prev + (s[b] - s[a]) + p, s[a - 1], s[m], lo);
    } else if m + 1 == a && b + 1 < |s| {
      assert s[b + 1] < lo + 0x1_0000;
      SmallGap(LinksAt(s, m).next + (s[b] - s[a]) + n, s[m], s[b + 1], lo);
    }
  }

  /** The outer neighbours of the block are where its links point. */
  lemma Neighbours(s: seq<nat>, a: nat, b: nat, m: nat)
    requires Ascending(s) && a <= b < |s| && m < |s| && !(a <= m <= b)
    ensures var p, n := LinksAt(s, a).prev, LinksAt(s, b).next;
            && (p != 0 <==> a > 0) && (n != 0 <==> b + 1 < |s|)
            && (n != 0 ==> (s[m] == s[b] + n <==> m == b + 1))
            && (p != 0 ==> p <= s[a] && (s[m] == s[a] - p <==> m + 1 == a))
  {
  }

  /** A distance within one level fits `unsigned short`. */
  lemma SmallGap(x: nat, from: nat, to: nat, lo: nat)
    requires lo <= from <= to < lo + 0x1_0000 && x == to - from
    ensures U16(x) == x
  {
  }

  /** Relinking around the listed block `s[a..b]` yields the list without that block. */
  lemma RelinkBlock(jump: seq<JumpNode>, s: seq<nat>, lo: nat, hi: nat, a: nat, b: nat)
    requires Ascending(s) && Within(s, lo, hi) && Linked(jump, s)
    requires 1 <= lo && hi <= |jump| + 1 && hi - lo <= 0x1_0000
    requires a <= b < |s| && s[b] - s[a] == b - a
    ensures jump[s[a] - 1].prev < s[a] && s[b] + jump[s[b] - 1].next <= |jump|
    ensures |Relink(jump, s[a], s[b])| == |jump|
    ensures Ascending(Without(s, a, b)) && Within(Without(s, a, b), lo, hi)
    ensures Linked(Relink(jump, s[a], s[b]), Without(s, a, b))
    ensures forall i :: 1 <= i <= |jump| && i !in Without(s, a, b) ==>
              Relink(jump, s[a], s[b])[i - 1] == jump[i - 1]
    ensures FirstOf(Without(s, a, b)) ==
            if jump[s[a] - 1].prev != 0 then FirstOf(s)
            else if jump[s[b] - 1].next != 0 then s[b] + jump[s[b] - 1].next
            else 0
  {
    assert jump[s[a] - 1] == LinksAt(s, a) && jump[s[b] - 1] == LinksAt(s, b);
    assert b + 1 < |s| ==> s[b] < s[b + 1] < hi;
    WithoutShape(s, lo, hi, a, b);
    RelinkKeeps(jump, s, lo, hi, a, b);
    RelinkLinked(jump, s, lo, hi, a, b);
  }

  lemma RelinkLinked(jump: seq<JumpNode>, s: seq<nat>, lo: nat, hi: nat, a: nat, b: nat)
    requires Ascending(s) && Within(s, lo, hi) && Linked(jump, s)
    requires 1 <= lo && hi <= |jump| + 1 && hi - lo <= 0x1_0000
    requires a <= b < |s| && s[b] - s[a] == b - a
    requires jump[s[a] - 1].prev < s[a] && s[b] + jump[s[b] - 1].next <= |jump|
    requires |Relink(jump, s[a], s[b])| == |jump|
    ensures Ascending(Without(s, a, b)) && Linked(Relink(jump, s[a], s[b]), Without(s, a, b))
  {
    WithoutShape(s, lo, hi, a, b);
    var after, t := Relink(jump, s[a], s[b]), Without(s, a, b);
    forall k {:trigger LinksAt(t, k)} | 0 <= k < |t|
      ensures 1 <= t[k] <= |after| && after[t[k] - 1] == LinksAt(t, k)
    {
      var m := if k < a then k else k + (b + 1 - a);
      assert t[k] == s[m];
      RelinkLinks(jump, s, lo, hi, a, b, m);
    }
  }

  lemma RelinkKeeps(jump: seq<JumpNode>, s: seq<nat>, lo: nat, hi: nat, a: nat, b: nat)
    requires Ascending(s) && Within(s, lo, hi) && Linked(jump, s) && a <= b < |s|
    requires 1 <= lo && hi <= |jump| + 1
    requires jump[s[a] - 1].prev < s[a] && s[b] + jump[s[b] - 1].next <= |jump|
    ensures |Relink(jump, s[a], s[b])| == |jump|
    ensures forall i :: 1 <= i <= |jump| && i !in Without(s, a, b) ==>
              Relink(jump, s[a], s[b])[i - 1] == jump[i - 1]
  {
    var t := Without(s, a, b);
    assert jump[s[a] - 1] == LinksAt(s, a) && jump[s[b] - 1] == LinksAt(s, b);
    assert a > 0 ==> t[a - 1] == s[a - 1];
    assert b + 1 < |s| ==> t[a] == s[b + 1];
    forall i | 1 <= i <= |jump| && i !in t
      ensures Relink(jump, s[a], s[b])[i - 1] == jump[i - 1]
    {
      RelinkAt(jump, s[a], s[b], i);
    }
  }

  /** Removing the block removes exactly the nodes `s[a]..s[b]`. */
  lemma BlockMembers(s: seq<nat>, a: nat, b: nat)
    requires Ascending(s) && a <= b < |s| && s[b] - s[a] == b - a
    ensures forall i :: i in Without(s, a, b) <==> i in s && !(s[a] <= i <= s[b])
  {
    var t := Without(s, a, b);
    forall i | i in s
      ensures i in t <==> !(s[a] <= i <= s[b])
    {
      var k :| 0 <= k < |s| && s[k] == i;
      if k < a {
        assert t[k] == i;
      } else if k > b {
        assert t[k - (b + 1 - a)] == i;
      } else {
        assert i !in s[..a] && i !in s[b + 1..];
      }
    }
    forall i | i in t
      ensures i in s && !(s[a] <= i <= s[b])
    {
      var k :| 0 <= k < |t| && t[k] == i;
      assert i == s[if k < a then k else k + (b + 1 - a)];
    }
  }

  /** Nodes `l..r` that are all listed form one block of the list. */
  lemma {:induction false} FindBlock(s: seq<nat>, l: nat, r: nat) returns (a: nat, b: nat)
    requires Ascending(s) && l <= r && forall i :: l <= i <= r ==> i in s
    ensures a <= b < |s| && s[a] == l && s[b] == r && b - a == r - l
    decreases r
  {
    if l == r {
      assert l in s;
      a :| 0 <= a < |s| && s[a] == l;
      b := a;
    } else {
      a, b := FindBlock(s, l, r - 1);
      assert r in s;
      var c: nat :| c < |s| && s[c] == r;
      assert c > b;
      GapAtLeast(s, b, c);
      assert s[b + 1] > s[b];
      assert c == b + 1;
      b := c;
    }
  }

  /** A list is determined by its members. */
  lemma {:induction false} ListUnique(s: seq<nat>, t: seq<nat>)
    requires Ascending(s) && Ascending(t) && forall i :: i in s <==> i in t
    ensures s == t
    decreases |s|
  {
    assert s != [] ==> s[0] in t;
    assert t != [] ==> t[0] in s;
    if s == [] {
    } else {
      assert s[0] in t && t != [] && t[0] in s;
      assert s[0] == t[0];
      forall i
        ensures i in s[1..] <==> i in t[1..]
      {
        assert s == [s[0]] + s[1..] && t == [t[0]] + t[1..];
        assert s[0] !in s[1..] && t[0] !in t[1..];
        assert i in s <==> i == s[0] || i in s[1..];
        assert i in t <==> i == t[0] || i in t[1..];
      }
      ListUnique(s[1..], t[1..]);
      assert s == [s[0]] + s[1..] && t == [t[0]] + t[1..];
    }
  }

  /** An unlisted node stores (0, 0); a listed one does too only when it is alone. */
  lemma LinksTellMembership(jump: seq<JumpNode>, s: seq<nat>, lo: nat, hi: nat, i: nat)
    requires IsList(jump, s, lo, hi) && 1 <= lo <= i < hi <= |jump| + 1
    ensures i in s <==> jump[i - 1] != NO_LINKS || FirstOf(s) == i
    ensures jump[i - 1] != NO_LINKS <==> i in s && |s| > 1
  {
    if i in s {
      var k :| 0 <= k < |s| && s[k] == i;
      assert jump[s[k] - 1] == LinksAt(s, k);
    }
  }

  lemma HasMember(s: seq<nat>)
    requires s != []
    ensures exists i :: i in s
  {
    assert s[0] in s;
  }
}
