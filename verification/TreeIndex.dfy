/** Index arithmetic of the complete binary trees that both buddy allocators keep:
    node 1 is the root, the children of node `i` are `2 * i` and `2 * i + 1`. */
module TreeIndex {

  function Pow2(n: nat): (p: nat)
    ensures p >= 1
  {
    if n == 0 then 1 else 2 * Pow2(n - 1)
  }

  /** Number of edges between node `i` and the root. */
  function Level(i: nat): (l: nat)
    requires i >= 1
    ensures Pow2(l) <= i < Pow2(l + 1)
  {
    if i == 1 then 0 else 1 + Level(i / 2)
  }

  ghost predicate OnLevel(i: nat, l: nat) {
    Pow2(l) <= i < Pow2(l + 1)
  }

  /** A tree of depth `depth` has the levels 0 to `depth`. */
  ghost predicate InTree(depth: nat, i: nat) {
    1 <= i < Pow2(depth + 1)
  }

  ghost function Height(depth: nat, i: nat): nat
    requires InTree(depth, i)
  {
    if Level(i) <= depth then depth - Level(i) else 0
  }

  function Sibling(i: nat): nat
    requires i >= 2
  {
    if i % 2 == 1 then i - 1 else i + 1
  }

  /** Node `i` is node `a` or one of its descendants. */
  ghost predicate Under(i: nat, a: nat)
    decreases i
  {
    i == a || (i > a && Under(i / 2, a))
  }

  /** No node of `s` is an ancestor, a descendant or `i` itself. */
  ghost predicate Apart(s: set<nat>, i: nat) {
    forall x :: x in s ==> !Under(x, i) && !Under(i, x)
  }

  /** The nodes of `s` lie in pairwise disjoint subtrees. */
  ghost predicate Antichain(s: set<nat>) {
    forall x, y :: x in s && y in s && Under(x, y) ==> x == y
  }

  /** Some node of `s` lies at or below `i`. */
  ghost predicate HasBelow(s: set<nat>, i: nat) {
    exists x :: x in s && Under(x, i)
  }

  /** The nodes of `s` together cover the whole subtree of height `h` rooted at `i`. */
  ghost predicate Covered(s: set<nat>, i: nat, h: nat)
    decreases h
  {
    i in s || (h > 0 && Covered(s, 2 * i, h - 1) && Covered(s, 2 * i + 1, h - 1))
  }

  /** Number of leaves below `i` (a node of height `h`) that the nodes of `s` cover. */
  ghost function LeavesIn(s: set<nat>, i: nat, h: nat): nat
    decreases h
  {
    if i in s then Pow2(h)
    else if h == 0 then 0
    else LeavesIn(s, 2 * i, h - 1) + LeavesIn(s, 2 * i + 1, h - 1)
  }

  lemma Pow2Monotone(m: nat, n: nat)
    requires m <= n
    ensures Pow2(m) <= Pow2(n)
    decreases n
  {
    if m < n {
      Pow2Monotone(m, n - 1);
    }
  }

  lemma MulMonotone(a: nat, b: nat, p: nat)
    requires a <= b
    ensures a * p <= b * p
  {
    var d := b - a;
    assert b * p == a * p + d * p;
  }

  /** Quotient and remainder are unique. */
  lemma DivModUnique(n: nat, q: nat, d: nat, m: nat)
    requires m < q && n == d * q + m
    ensures n / q == d && n % q == m
  {
    var d', m' := n / q, n % q;
    assert n == d' * q + m';
    assert (d + 1) * q == d * q + q && (d' + 1) * q == d' * q + q;
    if d' < d {
      MulMonotone(d' + 1, d, q);
    } else if d < d' {
      MulMonotone(d + 1, d', q);
    }
  }

  lemma Parts(n: nat, p: nat)
    requires p >= 1
    ensures n == (n / p) * p + n % p && n % p < p
  {
  }

  lemma {:induction false} Pow2Add(m: nat, n: nat)
    ensures Pow2(m + n) == Pow2(m) * Pow2(n)
    decreases n
  {
    if n > 0 {
      Pow2Add(m, n - 1);
      calc {
        Pow2(m + n);
        2 * Pow2(m + n - 1);
        2 * (Pow2(m) * Pow2(n - 1));
        Pow2(m) * (2 * Pow2(n - 1));
        Pow2(m) * Pow2(n);
      }
    }
  }

  lemma Pow2Values()
    ensures Pow2(10) == 1024 && Pow2(11) == 2048 && Pow2(12) == 4096
    ensures Pow2(15) == 0x8000 && Pow2(16) == 0x1_0000
  {
    assert Pow2(5) == 32;
    Pow2Add(5, 5);
    Pow2Add(10, 5);
  }

  /** The interval of a level determines it. */
  lemma LevelUnique(i: nat, l: nat)
    requires Pow2(l) <= i < Pow2(l + 1)
    ensures i >= 1 && Level(i) == l
  {
    if Level(i) < l {
      Pow2Monotone(Level(i) + 1, l);
    } else if Level(i) > l {
      Pow2Monotone(l + 1, Level(i));
    }
  }

  lemma ChildLevel(i: nat)
    requires i >= 1
    ensures Level(2 * i) == Level(2 * i + 1) == Level(i) + 1
  {
    assert (2 * i) / 2 == i && (2 * i + 1) / 2 == i;
  }

  // ---- Under is a tree order --------------------------------------------------------------

  lemma {:induction false} UnderTrans(i: nat, j: nat, k: nat)
    requires Under(i, j) && Under(j, k)
    ensures Under(i, k)
    decreases i
  {
    if i != j {
      UnderTrans(i / 2, j, k);
      UnderLe(j, k);
    }
  }

  lemma {:induction false} UnderLe(i: nat, a: nat)
    requires Under(i, a)
    ensures a <= i
  {
  }

  /** Two ancestors of one node are comparable. */
  lemma {:induction false} UnderChain(i: nat, a: nat, b: nat)
    requires Under(i, a) && Under(i, b)
    ensures Under(a, b) || Under(b, a)
    decreases i
  {
    if i != a && i != b {
      UnderChain(i / 2, a, b);
    }
  }

  lemma {:induction false} UnderRoot(i: nat)
    requires i >= 1
    ensures Under(i, 1)
    decreases i
  {
    if i > 1 {
      UnderRoot(i / 2);
    }
  }

  lemma {:induction false} UnderLevel(i: nat, a: nat)
    requires a >= 1 && Under(i, a)
    ensures i >= a && Level(i) >= Level(a)
    ensures i != a ==> Level(i) > Level(a)
    decreases i
  {
    if i != a {
      UnderLevel(i / 2, a);
    }
  }

  lemma ChildUnder(i: nat)
    requires i >= 1
    ensures Under(2 * i, i) && Under(2 * i + 1, i)
  {
    assert (2 * i) / 2 == i && (2 * i + 1) / 2 == i;
  }

  /** A node has one ancestor on each level. */
  lemma AncestorUnique(i: nat, a: nat, b: nat)
    requires a >= 1 && b >= 1 && Under(i, a) && Under(i, b) && Level(a) == Level(b)
    ensures a == b
  {
    UnderChain(i, a, b);
    if Under(a, b) {
      UnderLevel(a, b);
    } else {
      UnderLevel(b, a);
    }
  }

  /** Below a node that is apart from `s`, every node is. */
  lemma ApartBelow(s: set<nat>, i: nat, a: nat)
    requires Apart(s, a) && Under(i, a)
    ensures Apart(s, i)
  {
    forall x | x in s
      ensures !Under(x, i) && !Under(i, x)
    {
      if Under(x, i) {
        UnderTrans(x, i, a);
      } else if Under(i, x) {
        UnderChain(i, a, x);
      }
    }
  }

  /** Above a node that is not apart from `s`, but has a descendant that is, no node is apart. */
  lemma NotApartAbove(s: set<nat>, i: nat, c: nat, a: nat)
    requires Apart(s, i) && Under(i, c) && !Apart(s, c) && Under(c, a)
    ensures !Apart(s, a)
  {
    var x :| x in s && (Under(x, c) || Under(c, x));
    if Under(c, x) {
      UnderTrans(i, c, x);
    } else {
      UnderTrans(x, c, a);
    }
  }

  // ---- Covered ----------------------------------------------------------------------------

  lemma {:induction false} CoveredHasBelow(s: set<nat>, i: nat, h: nat)
    requires i >= 1 && Covered(s, i, h)
    ensures HasBelow(s, i)
    decreases h
  {
    if i in s {
      assert Under(i, i);
    } else {
      CoveredHasBelow(s, 2 * i, h - 1);
      var x :| x in s && Under(x, 2 * i);
      ChildUnder(i);
      UnderTrans(x, 2 * i, i);
    }
  }

  /** Adding a node that is not below `i` changes nothing about `i`. */
  lemma {:induction false} CoveredElsewhere(s: set<nat>, x: nat, i: nat, h: nat)
    requires i >= 1 && !Under(x, i)
    ensures Covered(s + {x}, i, h) == Covered(s, i, h)
    decreases h
  {
    assert x != i;
    if h > 0 {
      ChildUnder(i);
      if Under(x, 2 * i) {
        UnderTrans(x, 2 * i, i);
      }
      if Under(x, 2 * i + 1) {
        UnderTrans(x, 2 * i + 1, i);
      }
      CoveredElsewhere(s, x, 2 * i, h - 1);
      CoveredElsewhere(s, x, 2 * i + 1, h - 1);
    }
  }

  lemma {:induction false} CoveredMonotone(s: set<nat>, t: set<nat>, i: nat, h: nat)
    requires s <= t && Covered(s, i, h)
    ensures Covered(t, i, h)
    decreases h
  {
    if i !in s {
      CoveredMonotone(s, t, 2 * i, h - 1);
      CoveredMonotone(s, t, 2 * i + 1, h - 1);
    }
  }

  /** If `c` is not covered, its ancestors are not, unless one of them is itself in `s`. */
  lemma {:induction false} NotCoveredAbove(s: set<nat>, c: nat, a: nat, h: nat, k: nat)
    requires a >= 1 && Under(c, a) && !Covered(s, c, h) && k == h + Level(c) - Level(a)
    requires forall x :: x in s && Under(c, x) && Under(x, a) ==> x == c
    ensures !Covered(s, a, k)
    decreases k
  {
    if c != a {
      UnderLevel(c, a);
      UnderChild(c, a);
      ChildLevel(a);
      ChildUnder(a);
      var b := if Under(c, 2 * a) then 2 * a else 2 * a + 1;
      forall x | x in s && Under(c, x) && Under(x, b)
        ensures x == c
      {
        UnderTrans(x, b, a);
      }
      UnderLevel(c, b);
      NotCoveredAbove(s, c, b, h, k - 1);
      assert Under(a, a) && a !in s;
    }
  }

  /** A strict descendant of `a` lies under exactly one child of `a`. */
  lemma {:induction false} UnderChild(i: nat, a: nat)
    requires a >= 1 && Under(i, a) && i != a
    ensures Under(i, 2 * a) != Under(i, 2 * a + 1)
    decreases i
  {
    if i / 2 == a {
      assert i == 2 * a || i == 2 * a + 1;
    } else {
      UnderChild(i / 2, a);
      UnderLe(i / 2, a);
      if Under(i / 2, 2 * a) {
        UnderLe(i / 2, 2 * a);
      } else {
        UnderLe(i / 2, 2 * a + 1);
      }
    }
  }

  /** The descendants of `a` exactly `d` levels below it are one interval of indexes. */
  lemma {:induction false} UnderInterval(x: nat, a: nat, d: nat)
    requires a >= 1 && x >= 1 && Level(x) == Level(a) + d
    ensures Under(x, a) <==> a * Pow2(d) <= x < (a + 1) * Pow2(d)
    decreases d
  {
    if d == 0 {
      if Under(x, a) && x != a {
        UnderLevel(x, a);
      }
    } else {
      assert Level(x) == 1 + Level(x / 2);
      UnderInterval(x / 2, a, d - 1);
      HalfInterval(x, a, Pow2(d - 1));
      UnderParent(x, a);
    }
  }

  lemma UnderParent(x: nat, a: nat)
    requires a >= 1 && x >= 1 && Level(x) > Level(a)
    ensures Under(x, a) <==> Under(x / 2, a)
  {
    if Under(x / 2, a) {
      UnderLe(x / 2, a);
    }
  }

  lemma HalfInterval(x: nat, a: nat, p: nat)
    ensures a * p <= x / 2 < (a + 1) * p <==> a * (2 * p) <= x < (a + 1) * (2 * p)
  {
    var m, n := a * p, (a + 1) * p;
    assert a * (2 * p) == 2 * m && (a + 1) * (2 * p) == 2 * n;
  }

  lemma HeightInTree(depth: nat, i: nat)
    requires InTree(depth, i)
    ensures Level(i) <= depth && Height(depth, i) == depth - Level(i)
    ensures Height(depth, i) == 0 <==> Pow2(depth) <= i
  {
    if Level(i) > depth {
      Pow2Monotone(depth + 1, Level(i));
    }
    if Pow2(depth) <= i {
      LevelUnique(i, depth);
    }
  }

  lemma SiblingParent(c: nat)
    requires c > 1
    ensures Sibling(c) / 2 == c / 2 && Sibling(c) >= 2
  {
    if c % 2 == 1 {
      assert c == 2 * (c / 2) + 1;
    } else {
      assert c == 2 * (c / 2);
    }
  }

  lemma Doubled(n: nat)
    ensures Pow2(n + 1) == 2 * Pow2(n)
  {
  }

  lemma LevelHalf(i: nat)
    requires i >= 2
    ensures Level(i) == 1 + Level(i / 2)
  {
  }

  lemma SiblingShape(depth: nat, c: nat)
    requires 2 <= c < Pow2(depth + 1)
    ensures InTree(depth, Sibling(c)) && Sibling(c) / 2 == c / 2 && Level(Sibling(c)) == Level(c)
    ensures !Under(c, Sibling(c)) && !Under(Sibling(c), c)
    ensures {c, Sibling(c)} == {2 * (c / 2), 2 * (c / 2) + 1}
  {
    hide Under, Pow2, Level;
    Doubled(depth);
    LevelHalf(c);
    LevelHalf(Sibling(c));
    if Under(c, Sibling(c)) {
      UnderLevel(c, Sibling(c));
    }
    if Under(Sibling(c), c) {
      UnderLevel(Sibling(c), c);
    }
  }
}
