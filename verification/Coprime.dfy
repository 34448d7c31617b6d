/** Walks around a cycle of `n` slots with a fixed step. */
module Coprime {
  import opened TreeIndex
  import JumpList

  function Gcd(a: nat, b: nat): nat
    decreases b
  {
    if b == 0 then a else Gcd(b, a % b)
  }

  /** The steps that a run with `n` regions may draw: the numbers from 1 to `n` coprime to `n`. */
  function CoprimesUpTo(m: nat, n: nat): seq<nat> {
    if m == 0 then []
    else if Gcd(m, n) == 1 then CoprimesUpTo(m - 1, n) + [m]
    else CoprimesUpTo(m - 1, n)
  }

  function Coprimes(n: nat): (r: seq<nat>)
    ensures n >= 1 ==> |r| > 0 && 1 in r
  {
    if n >= 1 then
      OneCoprime(n);
      CoprimesUpToAre(n, n, 1);
      CoprimesUpTo(n, n)
    else []
  }

  lemma {:induction false} CoprimesUpToAre(m: nat, n: nat, g: nat)
    ensures g in CoprimesUpTo(m, n) <==> 1 <= g <= m && Gcd(g, n) == 1
  {
    if m > 0 {
      CoprimesUpToAre(m - 1, n, g);
    }
  }

  lemma {:induction false} UpToAscends(m: nat, n: nat)
    ensures JumpList.Ascending(CoprimesUpTo(m, n)) && forall g :: g in CoprimesUpTo(m, n) ==> g <= m
  {
    if m > 0 {
      UpToAscends(m - 1, n);
      var s := CoprimesUpTo(m - 1, n);
      forall a | 0 <= a < |s|
        ensures s[a] < m
      {
        assert s[a] in s;
      }
    }
  }

  /** The list of steps is complete and correct, and ascends. */
  lemma CoprimesAre(n: nat)
    requires n >= 1
    ensures forall g :: g in Coprimes(n) <==> 1 <= g <= n && Gcd(g, n) == 1
    ensures JumpList.Ascending(Coprimes(n))
  {
    UpToAscends(n, n);
    forall g: nat
      ensures g in Coprimes(n) <==> 1 <= g <= n && Gcd(g, n) == 1
    {
      CoprimesUpToAre(n, n, g);
    }
  }

  /** So it is the only ascending list of the numbers from 1 to `n` coprime to `n`. */
  lemma CoprimesDetermined(n: nat, s: seq<nat>)
    requires n >= 1 && JumpList.Ascending(s) && forall g :: g in s <==> 1 <= g <= n && Gcd(g, n) == 1
    ensures s == Coprimes(n)
  {
    hide Coprimes, Gcd, CoprimesUpTo;
    CoprimesAre(n);
    JumpList.ListUnique(s, Coprimes(n));
  }

  lemma OneCoprime(n: nat)
    requires n >= 1
    ensures Gcd(1, n) == 1
  {
    assert 1 % n == if n == 1 then 0 else 1;
    assert n % 1 == 0;
    if n > 1 {
      assert Gcd(1, n) == Gcd(n, 1) == Gcd(1, 0);
    }
  }

  ghost predicate Divides(d: nat, m: int) {
    exists q: int :: m == d * q
  }

  /** The greatest common divisor is an integer combination. */
  lemma {:induction false} Bezout(a: nat, b: nat) returns (x: int, y: int)
    ensures a * x + b * y == Gcd(a, b)
    decreases b
  {
    if b == 0 {
      x, y := 1, 0;
    } else {
      var u, v := Bezout(b, a % b);
      x, y := v, u - (a / b) * v;
      BezoutStep(a, b, a / b, a % b, u, v);
    }
  }

  lemma BezoutStep(a: int, b: int, q: int, r: int, u: int, v: int)
    requires a == b * q + r
    ensures a * v + b * (u - q * v) == b * u + r * v
  {
    Distribute(v, b * q, r);
    Associate(b, q, v);
    assert b * (u - q * v) == b * u - b * (q * v);
  }

  lemma {:induction false} GcdDivides(a: nat, b: nat)
    ensures Divides(Gcd(a, b), a) && Divides(Gcd(a, b), b)
    decreases b
  {
    if b == 0 {
      assert a == a * 1 && b == a * 0;
    } else {
      GcdDivides(b, a % b);
      var g := Gcd(a, b);
      var s :| b == g * s;
      var t :| a % b == g * t;
      var q := a / b;
      assert a == b * q + a % b;
      assert (g * s) * q == g * (s * q);
      assert a == g * (s * q + t);
    }
  }

  /** The greatest common divisor divides both numbers, and every common divisor divides it. */
  lemma GcdIsGreatest(a: nat, b: nat, d: nat)
    ensures Divides(Gcd(a, b), a) && Divides(Gcd(a, b), b)
    ensures Divides(d, a) && Divides(d, b) ==> Divides(d, Gcd(a, b))
  {
    hide Gcd;
    GcdDivides(a, b);
    var x, y := Bezout(a, b);
    if Divides(d, a) && Divides(d, b) {
      var s :| a == d * s;
      var t :| b == d * t;
      Associate(d, s, x);
      Associate(d, t, y);
      Distribute(d, s * x, t * y);
      assert Gcd(a, b) == d * (s * x + t * y);
    }
  }

  /** A coprime factor can be cancelled. */
  lemma Cancel(g: nat, n: nat, k: int)
    requires Gcd(g, n) == 1 && Divides(n, g * k)
    ensures Divides(n, k)
  {
    var x, y := Bezout(g, n);
    var q :| g * k == n * q;
    CancelWith(g, n, k, x, y, q);
  }

  lemma CancelWith(g: nat, n: nat, k: int, x: int, y: int, q: int)
    requires g * x + n * y == 1 && g * k == n * q
    ensures k == n * (q * x + y * k)
  {
    calc {
      k;
      (g * x + n * y) * k;
      { Distribute(k, g * x, n * y); }
      (g * x) * k + (n * y) * k;
      { Swap(g, x, k); Associate(n, y, k); }
      (g * k) * x + n * (y * k);
      { Associate(n, q, x); }
      n * (q * x) + n * (y * k);
      { Distribute(n, q * x, y * k); }
      n * (q * x + y * k);
    }
  }

  lemma Associate(a: int, b: int, c: int)
    ensures (a * b) * c == a * (b * c)
  {
  }

  lemma Swap(a: int, b: int, c: int)
    ensures (a * b) * c == (a * c) * b
  {
  }

  lemma Distribute(a: int, b: int, c: int)
    ensures (b + c) * a == b * a + c * a && a * (b + c) == a * b + a * c
  {
  }

  // ---- The walk ---------------------------------------------------------------------------

  /** The slot reached after `k` steps. */
  function Walk(start: nat, g: nat, n: nat, k: nat): nat
    requires n >= 1
  {
    (start + k * g) % n
  }

  lemma WalkZero(start: nat, g: nat, n: nat)
    requires start < n
    ensures Walk(start, g, n, 0) == start
  {
  }

  lemma WalkStep(start: nat, g: nat, n: nat, k: nat)
    requires n >= 1
    ensures Walk(start, g, n, k + 1) == (g + Walk(start, g, n, k)) % n
  {
    hide Walk;
    var m := start + k * g;
    WalkAt(start, g, n, k, m);
    WalkAt(start, g, n, k + 1, m + g);
    StepMod(m, g, n);
  }

  lemma WalkAt(start: nat, g: nat, n: nat, k: nat, m: nat)
    requires n >= 1 && m == start + k * g
    ensures Walk(start, g, n, k) == m % n
  {
  }

  lemma StepMod(m: nat, g: nat, n: nat)
    requires n >= 1
    ensures (m + g) % n == (g + m % n) % n
  {
    var s: nat := g + m % n;
    Distribute(n, m / n, s / n);
    SameRemainder(m + g, n, m / n + s / n, s % n);
  }

  lemma SameRemainder(m: nat, n: nat, q: nat, r: nat)
    requires r < n && m == q * n + r
    ensures m % n == r
  {
    DivModUnique(m, n, q, r);
  }

  lemma ModShift(m: nat, q: nat, n: nat)
    requires n >= 1
    ensures (q * n + m) % n == m % n
  {
    var d, r := m / n, m % n;
    assert q * n + m == (q + d) * n + r;
    DivModUnique(q * n + m, n, q + d, r);
  }

  /** Two step counts reach the same slot exactly if `n` divides their distance along the walk. */
  lemma SameSlot(start: nat, g: nat, n: nat, i: nat, j: nat)
    requires n >= 1 && i <= j
    ensures Walk(start, g, n, i) == Walk(start, g, n, j) <==> Divides(n, g * (j - i))
  {
    var a, d := start + i * g, g * (j - i);
    assert start + j * g == a + d;
    var q, r := a / n, a % n;
    if (a + d) % n == r {
      var q' := (a + d) / n;
      assert d == (q' * n + r) - (q * n + r) == n * (q' - q);
    }
    if Divides(n, d) {
      var p :| d == n * p;
      QuotientSign(n, p);
      assert a + d == p * n + a;
      ModShift(a, p, n);
    }
  }

  lemma QuotientSign(n: nat, p: int)
    requires n >= 1
    ensures n * p >= 0 <==> p >= 0
    ensures n * p > 0 <==> p > 0
  {
  }

  lemma NoMultipleBetween(n: nat, k: int)
    requires 0 < k < n
    ensures !Divides(n, k)
  {
    if Divides(n, k) {
      var q :| k == n * q;
      QuotientSign(n, q);
      QuotientSign(n, q - 1);
      Distribute(n, q - 1, 1);
    }
  }

  /** Fewer than `n` steps apart, a coprime walk never comes back to a slot. */
  lemma WalkDistinct(start: nat, g: nat, n: nat, i: nat, j: nat)
    requires n >= 1 && Gcd(g, n) == 1 && i < j < i + n
    ensures Walk(start, g, n, i) != Walk(start, g, n, j)
  {
    SameSlot(start, g, n, i, j);
    if Divides(n, g * (j - i)) {
      Cancel(g, n, j - i);
      NoMultipleBetween(n, j - i);
    }
  }

  /** The slots reached by the steps 1 to `m`. */
  ghost function Reached(start: nat, g: nat, n: nat, m: nat): set<nat>
    requires n >= 1
  {
    set k: nat | 1 <= k <= m :: Walk(start, g, n, k)
  }

  lemma {:induction false} ReachedSize(start: nat, g: nat, n: nat, m: nat)
    requires n >= 1 && Gcd(g, n) == 1 && m <= n
    ensures |Reached(start, g, n, m)| == m
    decreases m
  {
    if m > 0 {
      ReachedSize(start, g, n, m - 1);
      var w := Walk(start, g, n, m);
      assert w !in Reached(start, g, n, m - 1) by {
        forall k: nat | 1 <= k <= m - 1
          ensures Walk(start, g, n, k) != w
        {
          WalkDistinct(start, g, n, k, m);
        }
      }
      assert Reached(start, g, n, m) == Reached(start, g, n, m - 1) + {w};
    }
  }

  ghost function Slots(n: nat): set<nat> {
    if n == 0 then {} else Slots(n - 1) + {n - 1}
  }

  lemma {:induction false} SlotsAre(n: nat)
    ensures forall i :: i in Slots(n) <==> 0 <= i < n
  {
    if n > 0 {
      SlotsAre(n - 1);
    }
  }

  lemma {:induction false} SlotsSize(n: nat)
    ensures |Slots(n)| == n
  {
    if n > 0 {
      SlotsSize(n - 1);
      SlotsAre(n - 1);
    }
  }

  lemma FullSubset(a: set<nat>, b: set<nat>)
    requires a <= b && |a| == |b|
    ensures a == b
  {
    if a != b {
      var x :| x in b && x !in a;
      assert a <= b - {x};
      SubsetSize(a, b - {x});
    }
  }

  lemma {:induction false} SubsetSize(a: set<nat>, b: set<nat>)
    requires a <= b
    ensures |a| <= |b|
    decreases a
  {
    if a != {} {
      var x :| x in a;
      SubsetSize(a - {x}, b - {x});
    }
  }

  /** The first `n` steps of a coprime walk visit every slot exactly once. */
  lemma WalkIsPermutation(start: nat, g: nat, n: nat)
    requires n >= 1 && Gcd(g, n) == 1
    ensures forall i, j :: 1 <= i < j <= n ==> Walk(start, g, n, i) != Walk(start, g, n, j)
    ensures Reached(start, g, n, n) == Slots(n)
  {
    forall i, j | 1 <= i < j <= n
      ensures Walk(start, g, n, i) != Walk(start, g, n, j)
    {
      WalkDistinct(start, g, n, i, j);
    }
    ReachedSize(start, g, n, n);
    SlotsSize(n);
    SlotsAre(n);
    FullSubset(Reached(start, g, n, n), Slots(n));
  }

  /** With any other step the walk is back early: the step has to be coprime. */
  lemma OtherStepsRepeat(start: nat, g: nat, n: nat) returns (k: nat)
    requires n >= 1 && Gcd(g, n) != 1
    ensures 1 <= k < n && Walk(start, g, n, k) == Walk(start, g, n, 0)
  {
    GcdDivides(g, n);
    var d := Gcd(g, n);
    var p :| g == d * p;
    var q :| n == d * q;
    QuotientSign(d, q);
    QuotientSign(d, q - 1);
    Shorter(d, q);
    k := q;
    assert g * k == n * p by {
      Swap(d, p, q);
    }
    SameSlot(start, g, n, 0, k);
  }

  lemma Shorter(d: nat, q: int)
    requires d != 1 && d * q >= 1
    ensures 1 <= q < d * q
  {
    QuotientSign(d, q);
    assert d * q == 2 * q + (d - 2) * q;
    QuotientSign(q, d - 2);
  }
}
