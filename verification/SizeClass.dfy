/** Size classes, and the bit trick that rounds up to a power of two. */
module SizeClass {
  import opened TreeIndex
  import opened Utils

  const PAGE_SIZE: nat := 4096
  const SMALL_SIZE_CLASS_ALIGNMENT: nat := 16
  const SMALL_SIZE_MIN_REGION: nat := 16
  const SMALL_SIZE_MAX_REGION: nat := 512
  const MEDIUM_SIZE_MIN_REGION: nat := 1024
  const MEDIUM_SIZE_MAX_REGION: nat := 8192
  const LARGE_SIZE_MIN_REGION: nat := 16384
  const LARGE_SIZE_MAX_REGION: nat := 1048576
  const NO_SMALL_SIZE_CLASSES: nat := 32
  const NO_MEDIUM_SIZE_CLASSES: nat := 4
  const NO_LARGE_SIZE_CLASSES: nat := 7
  const ARENA_NO_BINS: nat := 43
  const U32: nat := 0x1_0000_0000

  predicate IsSmall(size: nat) {
    1 <= size <= SMALL_SIZE_MAX_REGION
  }

  predicate IsMedium(size: nat) {
    SMALL_SIZE_MAX_REGION < size <= MEDIUM_SIZE_MAX_REGION
  }

  predicate IsLarge(size: nat) {
    MEDIUM_SIZE_MAX_REGION < size <= LARGE_SIZE_MAX_REGION
  }

  predicate IsHuge(size: nat) {
    size > LARGE_SIZE_MAX_REGION
  }

  // ---- Bitwise or -------------------------------------------------------------------------

  function BitOr(a: nat, b: nat): nat {
    if a == 0 then b
    else if b == 0 then a
    else 2 * BitOr(a / 2, b / 2) + if a % 2 == 1 || b % 2 == 1 then 1 else 0
  }

  lemma {:induction false} BitOrBounds(a: nat, b: nat, k: nat)
    ensures BitOr(a, b) >= a && BitOr(a, b) >= b
    ensures a < Pow2(k) && b < Pow2(k) ==> BitOr(a, b) < Pow2(k)
    decreases a
  {
    if a != 0 && b != 0 {
      BitOrBounds(a / 2, b / 2, if k == 0 then 0 else k - 1);
    }
  }

  /** The high part of `a` is not touched by a smaller `b`. */
  lemma {:induction false} BitOrHigh(q: nat, r: nat, b: nat, k: nat)
    requires r < Pow2(k) && b < Pow2(k)
    ensures BitOr(q * Pow2(k) + r, b) == q * Pow2(k) + BitOr(r, b)
    decreases k
  {
    hide BitOr;
    if k == 0 {
      OrNothing(q + r);
      OrNothing(r);
    } else {
      HalfParts(q, r, Pow2(k), Pow2(k - 1));
      BitOrHigh(q, r / 2, b / 2, k - 1);
      HalfParts(q, BitOr(r, b), Pow2(k), Pow2(k - 1));
      OrUnfold(q * Pow2(k) + r, b);
      OrUnfold(r, b);
    }
  }

  lemma OrNothing(n: nat)
    ensures BitOr(n, 0) == n
  {
  }

  lemma HalfParts(q: nat, r: nat, w: nat, p: nat)
    requires w == 2 * p
    ensures (q * w + r) / 2 == q * p + r / 2
    ensures (q * w + r) % 2 == r % 2
  {
    var m := q * p;
    assert q * (2 * p) == 2 * m;
  }

  lemma OrUnfold(a: nat, b: nat)
    ensures BitOr(a, b) == 2 * BitOr(a / 2, b / 2) + if a % 2 == 1 || b % 2 == 1 then 1 else 0
  {
    assert BitOr(0, b / 2) == b / 2;
  }

  // ---- The bit trick ----------------------------------------------------------------------

  function ShiftRight(n: nat, s: nat): nat {
    if s == 0 then n else ShiftRight(n / 2, s - 1)
  }

  lemma {:induction false} ShiftIsDivision(n: nat, s: nat)
    ensures ShiftRight(n, s) == n / Pow2(s)
    decreases s
  {
    if s > 0 {
      ShiftIsDivision(n / 2, s - 1);
      HalfThenRest(n, Pow2(s - 1));
    }
  }

  lemma HalfThenRest(n: nat, w: nat)
    requires w >= 1
    ensures n / 2 / w == n / (2 * w)
  {
    var d, r := n / 2 / w, n / 2 % w;
    assert n / 2 == d * w + r;
    assert d * (2 * w) == 2 * (d * w);
    DivModUnique(n, 2 * w, d, 2 * r + n % 2);
  }

  /** The highest `s` of the `l + 1` bits of `n` are ones. */
  ghost predicate TopOnes(n: nat, l: nat, s: nat) {
    && Pow2(l) <= n < Pow2(l + 1)
    && n >= Pow2(l + 1) - Pow2(if s <= l + 1 then l + 1 - s else 0)
  }

  /** Or-ing a number with itself, shifted right by as many bits as it has leading ones, doubles
      the number of leading ones. */
  lemma Smear(n: nat, l: nat, s: nat)
    requires TopOnes(n, l, s)
    ensures TopOnes(BitOr(n, ShiftRight(n, s)), l, 2 * s)
  {
    hide BitOr, Pow2;
    ShiftIsDivision(n, s);
    ShiftSmaller(n, Pow2(s));
    BitOrBounds(n, ShiftRight(n, s), l + 1);
    if s <= l + 1 {
      SmearHigh(n, l, s, l + 1 - s);
    }
  }

  lemma ShiftSmaller(n: nat, w: nat)
    requires w >= 1
    ensures n / w <= n
  {
    QuotientBelow(n, n + 1, w);
    MulMonotone(1, w, n + 1);
  }

  /** The leading ones stay, and the shifted ones come to lie just behind them. */
  lemma SmearHigh(n: nat, l: nat, s: nat, k: nat)
    requires TopOnes(n, l, s) && k + s == l + 1
    ensures BitOr(n, ShiftRight(n, s)) >= Pow2(l + 1) - Pow2(if 2 * s <= l + 1 then l + 1 - 2 * s else 0)
  {
    hide BitOr, Pow2;
    var p, w := Pow2(k), Pow2(s);
    Pow2Add(k, s);
    ShiftIsDivision(n, s);
    QuotientBelow(n, p, w);
    var b, q, r := ShiftRight(n, s), n / p, n % p;
    Parts(n, p);
    BitOrHigh(q, r, b, k);
    BitOrBounds(r, b, k);
    HighPart(n, p, w);
    ShiftedOnes(n, l, s, b);
  }

  lemma QuotientBelow(n: nat, p: nat, w: nat)
    requires w >= 1 && n < p * w
    ensures n / w < p
  {
    var b := n / w;
    if b >= p {
      MulMonotone(p, b, w);
    }
  }

  lemma HighPart(n: nat, p: nat, w: nat)
    requires p >= 1 && w >= 1 && p * w - p <= n < p * w
    ensures (n / p) * p == p * w - p
  {
    assert (w - 1) * p == p * w - p;
    DivModUnique(n, p, w - 1, n - (w - 1) * p);
  }

  /** The shifted number keeps its leading ones. */
  lemma ShiftedOnes(n: nat, l: nat, s: nat, b: nat)
    requires TopOnes(n, l, s) && s <= l + 1 && b == ShiftRight(n, s)
    ensures b >= Pow2(l + 1 - s) - Pow2(if 2 * s <= l + 1 then l + 1 - 2 * s else 0)
  {
    var k, w := l + 1 - s, Pow2(s);
    ShiftIsDivision(n, s);
    Pow2Add(k, s);
    if s <= k {
      Pow2Add(k - s, s);
      ShiftedBound(n, Pow2(k), Pow2(k - s), w);
    } else {
      Pow2Monotone(k, s);
      ShiftedBound(n, Pow2(k), 1, w);
    }
  }

  lemma ShiftedBound(n: nat, p: nat, m: nat, w: nat)
    requires w >= 1 && n >= p * w - m * w
    ensures n / w >= p - m
  {
    var q := n / w;
    assert n < (q + 1) * w by {
      assert (q + 1) * w == q * w + w;
    }
    assert (p - m) * w == p * w - m * w;
    LessFactor(p - m, q + 1, w);
  }

  lemma LessFactor(a: int, b: nat, w: nat)
    requires a * w < b * w
    ensures a < b
  {
    if a >= b {
      MulMonotone(b, a, w);
    }
  }

  /** Least power of two that is at least `n`. */
  function NextPow2(n: nat): nat {
    if n <= 1 then 1 else Pow2(Level(n - 1) + 1)
  }

  /** `NextPow2` is a power of two and the least one that is not below `n`. */
  lemma NextPow2Least(n: nat)
    ensures exists k: nat :: NextPow2(n) == Pow2(k)
    ensures n <= NextPow2(n) && (n > 1 ==> NextPow2(n) < 2 * n)
    ensures forall j: nat :: n <= Pow2(j) ==> NextPow2(n) <= Pow2(j)
  {
    if n > 1 {
      forall j: nat | n <= Pow2(j)
        ensures NextPow2(n) <= Pow2(j)
      {
        if j <= Level(n - 1) {
          Pow2Monotone(j, Level(n - 1));
        } else {
          Pow2Monotone(Level(n - 1) + 1, j);
        }
      }
    } else {
      assert Pow2(0) == 1;
    }
  }

  /** Rounds up to a power of two by smearing the highest bit to the right, in 32 bits. */
  method NPow2(n: nat) returns (p: nat)
    requires n < U32
    ensures 1 <= n <= U32 / 2 ==> p == NextPow2(n)
    ensures n == 0 || n > U32 / 2 ==> p == 0
  {
    hide Pow2, Level, BitOr, Smeared, ShiftRight;
    var m: nat := (n - 1) % U32;
    ghost var l := if m == 0 then 0 else Level(m);
    SmearStart(m, l);
    SmearStep(m, l, 1);
    m := BitOr(m, ShiftRight(m, 1));
    SmearStep(m, l, 2);
    m := BitOr(m, ShiftRight(m, 2));
    SmearStep(m, l, 4);
    m := BitOr(m, ShiftRight(m, 4));
    SmearStep(m, l, 8);
    m := BitOr(m, ShiftRight(m, 8));
    SmearStep(m, l, 16);
    m := BitOr(m, ShiftRight(m, 16));
    SmearEnd(n, m, l);
    p := (m + 1) % U32;
  }

  /** What holds between the steps of the bit trick. */
  ghost predicate Smeared(m: nat, l: nat, s: nat) {
    m == 0 || (TopOnes(m, l, s) && l <= 31)
  }

  lemma SmearStart(m: nat, l: nat)
    requires m < U32 && (m > 0 ==> l == Level(m))
    ensures Smeared(m, l, 1)
  {
    if m > 0 {
      PowersOfShifts();
      if l > 31 {
        Pow2Monotone(32, l);
      }
    }
  }

  lemma SmearStep(m: nat, l: nat, s: nat)
    requires Smeared(m, l, s)
    ensures Smeared(BitOr(m, ShiftRight(m, s)), l, 2 * s) && (m == 0 <==> BitOr(m, ShiftRight(m, s)) == 0)
  {
    hide TopOnes, Pow2, BitOr, ShiftRight;
    PowersOfShifts();
    if m > 0 {
      Smear(m, l, s);
      StillPositive(m, ShiftRight(m, s), l, 2 * s);
    } else {
      OrOfZero(s);
    }
  }

  lemma StillPositive(m: nat, b: nat, l: nat, s: nat)
    requires m > 0 && TopOnes(BitOr(m, b), l, s)
    ensures BitOr(m, b) > 0
  {
  }

  lemma OrOfZero(s: nat)
    ensures BitOr(0, ShiftRight(0, s)) == 0
  {
    ShiftIsDivision(0, s);
    QuotientBelow(0, 1, Pow2(s));
  }

  lemma PowersOfShifts()
    ensures Pow2(0) == 1 && Pow2(1) == 2 && Pow2(2) == 4 && Pow2(4) == 16 && Pow2(8) == 256 && Pow2(16) == 65536
            && Pow2(32) == U32
  {
    Pow2Values();
    Pow2Add(4, 4);
    Pow2Add(16, 16);
  }

  lemma SmearEnd(n: nat, m: nat, l: nat)
    requires n < U32 && Smeared(m, l, 32) && (m == 0 <==> (n - 1) % U32 == 0)
    requires (n - 1) % U32 > 0 ==> l == Level((n - 1) % U32)
    ensures 1 <= n <= U32 / 2 ==> (m + 1) % U32 == NextPow2(n)
    ensures n == 0 || n > U32 / 2 ==> (m + 1) % U32 == 0
  {
    hide Pow2, Level;
    PowersOfShifts();
    AllOnes(l);
    if m > 0 {
      assert m == Pow2(l + 1) - 1;
    }
    if n > 1 {
      LevelBelow(n - 1, 31);
    }
  }

  lemma LevelBelow(n: nat, k: nat)
    requires n >= 1
    ensures n < Pow2(k) <==> Level(n) < k
  {
    if Level(n) < k {
      Pow2Monotone(Level(n) + 1, k);
    } else {
      Pow2Monotone(k, Level(n));
    }
  }

  lemma AllOnes(l: nat)
    ensures Pow2(32) == 2 * Pow2(31)
    ensures l < 31 ==> Pow2(l + 1) <= Pow2(31)
    ensures l == 31 ==> Pow2(l + 1) == U32
  {
    PowersOfShifts();
    if l < 31 {
      Pow2Monotone(l + 1, 31);
    }
  }

  // ---- Rounding up to a class -------------------------------------------------------------

  function CeilDiv(a: nat, b: nat): nat
    requires b > 0
  {
    a / b + if a % b == 0 then 0 else 1
  }

  /** Least size of the form `unit * 2^k` that is at least `n`, for `n > 0`. */
  function RoundUp(n: nat, unit: nat): nat
    requires unit > 0
  {
    unit * NextPow2(CeilDiv(n, unit))
  }

  function AlignUpSmall(n: nat): nat {
    (n + (SMALL_SIZE_CLASS_ALIGNMENT - 1)) - (n + (SMALL_SIZE_CLASS_ALIGNMENT - 1)) % SMALL_SIZE_CLASS_ALIGNMENT
  }

  method AlignUp(n: nat, unit: nat) returns (r: nat)
    requires unit == MEDIUM_SIZE_MIN_REGION || unit == LARGE_SIZE_MIN_REGION
    requires n < U32
    ensures r == if n == 0 then 0 else RoundUp(n, unit) % U32
  {
    var d := CeilDiv(n, unit);
    var p := NPow2(d);
    r := (p * unit) % U32;
  }

  method AlignUpMedium(n: nat) returns (r: nat)
    requires n < U32
    ensures r == if n == 0 then 0 else RoundUp(n, MEDIUM_SIZE_MIN_REGION) % U32
  {
    r := AlignUp(n, MEDIUM_SIZE_MIN_REGION);
  }

  method AlignUpLarge(n: nat) returns (r: nat)
    requires n < U32
    ensures r == if n == 0 then 0 else RoundUp(n, LARGE_SIZE_MIN_REGION) % U32
  {
    r := AlignUp(n, LARGE_SIZE_MIN_REGION);
  }

  // ---- Classes ----------------------------------------------------------------------------

  /** Region size of the bin with index `i`. */
  function SizeOfBin(i: nat): nat {
    if i < NO_SMALL_SIZE_CLASSES then SMALL_SIZE_CLASS_ALIGNMENT * (i + 1)
    else if i < NO_SMALL_SIZE_CLASSES + NO_MEDIUM_SIZE_CLASSES
           then MEDIUM_SIZE_MIN_REGION * Pow2(i - NO_SMALL_SIZE_CLASSES)
    else LARGE_SIZE_MIN_REGION * Pow2(i - (NO_SMALL_SIZE_CLASSES + NO_MEDIUM_SIZE_CLASSES))
  }

  ghost predicate IsClass(size: nat) {
    exists i: nat :: i < ARENA_NO_BINS && size == SizeOfBin(i)
  }

  /** The class a request is served from. */
  function ClassFor(size: nat): nat {
    if IsSmall(size) then AlignUpSmall(size)
    else if IsMedium(size) then RoundUp(size, MEDIUM_SIZE_MIN_REGION)
    else RoundUp(size, LARGE_SIZE_MIN_REGION)
  }

  /** Position of the bin for a region size, which has to be a class; 0, to which a size of 0 is rounded,
      leads to the first large class. */
  method BinIndex(size: nat) returns (i: nat)
    requires IsClass(size) || size == 0
    ensures i < ARENA_NO_BINS
    ensures IsClass(size) ==> SizeOfBin(i) == size
    ensures size == 0 ==> i == NO_SMALL_SIZE_CLASSES + NO_MEDIUM_SIZE_CLASSES
  {
    hide Pow2, Level, IsClass;
    ClassZero();
    if size > 0 {
      ClassUnits(size);
    }
    if IsSmall(size) {
      i := size / SMALL_SIZE_CLASS_ALIGNMENT - 1;
    } else if IsMedium(size) {
      var k := Ctz(size / MEDIUM_SIZE_MIN_REGION);
      i := NO_SMALL_SIZE_CLASSES + k;
    } else {
      var k := Ctz(size / LARGE_SIZE_MIN_REGION);
      i := NO_SMALL_SIZE_CLASSES + NO_MEDIUM_SIZE_CLASSES + k;
    }
  }

  /** The classes are the multiples of 16 up to 512, and the powers of two from 1024 to 1 MB. */
  lemma ClassesAre(size: nat)
    ensures IsClass(size) <==>
              || (1 <= size <= 512 && size % 16 == 0)
              || size in {1024, 2048, 4096, 8192, 16384, 32768, 65536, 131072, 262144, 524288, 1048576}
  {
    hide Pow2, Level;
    Doublings();
    if 1 <= size <= 512 && size % 16 == 0 {
      assert SizeOfBin(size / 16 - 1) == size;
    }
    assert SizeOfBin(32) == 1024 && SizeOfBin(33) == 2048 && SizeOfBin(34) == 4096 && SizeOfBin(35) == 8192;
    assert SizeOfBin(36) == 16384 && SizeOfBin(37) == 32768 && SizeOfBin(38) == 65536 && SizeOfBin(39) == 131072;
    assert SizeOfBin(40) == 262144 && SizeOfBin(41) == 524288 && SizeOfBin(42) == 1048576;
    forall i: nat | 32 <= i < ARENA_NO_BINS
      ensures SizeOfBin(i) in {1024, 2048, 4096, 8192, 16384, 32768, 65536, 131072, 262144, 524288, 1048576}
    {
      assert i == 32 || i == 33 || i == 34 || i == 35 || i == 36 || i == 37 || i == 38 || i == 39 || i == 40
             || i == 41 || i == 42;
    }
  }

  lemma Doublings()
    ensures Pow2(0) == 1 && Pow2(1) == 2 && Pow2(2) == 4 && Pow2(3) == 8 && Pow2(4) == 16 && Pow2(5) == 32
            && Pow2(6) == 64
  {
    assert Pow2(2) == 4;
    assert Pow2(4) == 16;
  }

  lemma ClassZero()
    ensures !IsClass(0) && SizeOfBin(NO_SMALL_SIZE_CLASSES + NO_MEDIUM_SIZE_CLASSES) == LARGE_SIZE_MIN_REGION
  {
    assert Pow2(0) == 1;
  }

  /** What the three kinds of classes look like. */
  lemma ClassUnits(size: nat)
    requires IsClass(size)
    ensures 1 <= size <= LARGE_SIZE_MAX_REGION
    ensures IsSmall(size) ==> size % SMALL_SIZE_CLASS_ALIGNMENT == 0 && 1 <= size / SMALL_SIZE_CLASS_ALIGNMENT <= 32
    ensures IsMedium(size) ==> var d := size / MEDIUM_SIZE_MIN_REGION;
              d >= 1 && size == MEDIUM_SIZE_MIN_REGION * d && d == Pow2(Level(d)) && Level(d) < NO_MEDIUM_SIZE_CLASSES
    ensures IsLarge(size) ==> var d := size / LARGE_SIZE_MIN_REGION;
              d >= 1 && size == LARGE_SIZE_MIN_REGION * d && d == Pow2(Level(d)) && Level(d) < NO_LARGE_SIZE_CLASSES
  {
    hide Pow2, Level;
    var i: nat :| i < ARENA_NO_BINS && size == SizeOfBin(i);
    SmallPowers();
    if i >= NO_SMALL_SIZE_CLASSES + NO_MEDIUM_SIZE_CLASSES {
      PowUnit(i - (NO_SMALL_SIZE_CLASSES + NO_MEDIUM_SIZE_CLASSES), LARGE_SIZE_MIN_REGION);
      Pow2Monotone(i - (NO_SMALL_SIZE_CLASSES + NO_MEDIUM_SIZE_CLASSES), 6);
    } else if i >= NO_SMALL_SIZE_CLASSES {
      PowUnit(i - NO_SMALL_SIZE_CLASSES, MEDIUM_SIZE_MIN_REGION);
      Pow2Monotone(i - NO_SMALL_SIZE_CLASSES, 3);
    }
  }

  lemma PowUnit(k: nat, unit: nat)
    requires unit >= 1
    ensures (unit * Pow2(k)) / unit == Pow2(k) && Level(Pow2(k)) == k
  {
    hide Level, Pow2;
    PowLevel(k);
    ExactQuotient(unit, Pow2(k));
  }

  lemma PowLevel(k: nat)
    ensures Level(Pow2(k)) == k
  {
    LevelUnique(Pow2(k), k);
  }

  lemma ExactQuotient(unit: nat, p: nat)
    requires unit >= 1
    ensures (unit * p) / unit == p
  {
    DivModUnique(unit * p, unit, p, 0);
  }

  lemma SmallPowers()
    ensures Pow2(0) == 1 && Pow2(3) == 8 && Pow2(6) == 64
  {
    Pow2Add(3, 3);
  }

  /** The class of a request is the first bin that is large enough. */
  lemma ClassBin(size: nat) returns (i: nat)
    requires 1 <= size <= LARGE_SIZE_MAX_REGION
    ensures i < ARENA_NO_BINS && ClassFor(size) == SizeOfBin(i) && size <= SizeOfBin(i)
    ensures i > 0 ==> SizeOfBin(i - 1) < size
    ensures if IsSmall(size) then SizeOfBin(i) < size + 16 else SizeOfBin(i) < 2 * size
  {
    hide Pow2, NextPow2, CeilDiv, RoundUp, AlignUpSmall;
    SmallPowers();
    if IsSmall(size) {
      i := SmallBin(size);
    } else if IsMedium(size) {
      var k := UnitBin(size, MEDIUM_SIZE_MIN_REGION, 3);
      i := NO_SMALL_SIZE_CLASSES + k;
    } else {
      var k := UnitBin(size, LARGE_SIZE_MIN_REGION, 6);
      i := NO_SMALL_SIZE_CLASSES + NO_MEDIUM_SIZE_CLASSES + k;
    }
  }

  lemma SmallBin(size: nat) returns (i: nat)
    requires IsSmall(size)
    ensures i < NO_SMALL_SIZE_CLASSES && AlignUpSmall(size) == SizeOfBin(i) && size <= SizeOfBin(i) < size + 16
    ensures i > 0 ==> SizeOfBin(i - 1) < size
  {
    hide Pow2;
    i := (size + 15) / 16 - 1;
  }

  lemma UnitBin(size: nat, unit: nat, top: nat) returns (k: nat)
    requires unit >= 2 && unit % 2 == 0 && unit < 2 * size && size <= unit * Pow2(top)
    ensures k <= top && RoundUp(size, unit) == unit * Pow2(k) && size <= unit * Pow2(k) < 2 * size
    ensures k > 0 ==> unit * Pow2(k - 1) < size
  {
    hide Pow2, Level;
    var d := CeilDiv(size, unit);
    CeilFacts(size, unit, Pow2(top));
    NextIsPow(d, top);
    k := if d <= 1 then 0 else Level(d - 1) + 1;
    CeilOrder(size, unit, Pow2(k));
    if k > 0 {
      CeilOrder(size, unit, Pow2(k - 1));
      DoublePow(k);
    }
    PowZero();
  }

  lemma PowZero()
    ensures Pow2(0) == 1
  {
  }

  lemma DoublePow(k: nat)
    requires k > 0
    ensures Pow2(k) == 2 * Pow2(k - 1)
  {
  }

  lemma NextIsPow(d: nat, top: nat)
    requires 1 <= d <= Pow2(top)
    ensures var k := if d <= 1 then 0 else Level(d - 1) + 1;
            k <= top && NextPow2(d) == Pow2(k) && d <= Pow2(k) && (k > 0 ==> Pow2(k - 1) < d)
  {
    if d > 1 {
      LevelBelow(d - 1, top);
    }
  }

  lemma CeilFacts(size: nat, unit: nat, p: nat)
    requires unit >= 1 && 1 <= size <= unit * p
    ensures 1 <= CeilDiv(size, unit) <= p
  {
    CeilOrder(size, unit, p);
    CeilOrder(size, unit, 0);
  }

  /** A multiple of the unit is large enough exactly if its factor is. */
  lemma CeilOrder(size: nat, unit: nat, p: nat)
    requires unit >= 1
    ensures size <= unit * p <==> CeilDiv(size, unit) <= p
  {
    var q, r := size / unit, size % unit;
    Parts(size, unit);
    assert unit * p == p * unit;
    if p <= q {
      MulMonotone(p, q, unit);
    } else {
      MulMonotone(q + 1, p, unit);
      assert (q + 1) * unit == q * unit + unit;
    }
  }

  lemma {:induction false} BinsAscend(i: nat, j: nat)
    requires i < j < ARENA_NO_BINS
    ensures SizeOfBin(i) < SizeOfBin(j)
    decreases j
  {
    SmallPowers();
    NextBin(j - 1);
    if i < j - 1 {
      BinsAscend(i, j - 1);
    }
  }

  lemma NextBin(i: nat)
    requires i + 1 < ARENA_NO_BINS
    ensures SizeOfBin(i) < SizeOfBin(i + 1)
  {
    SmallPowers();
    if NO_SMALL_SIZE_CLASSES <= i < NO_SMALL_SIZE_CLASSES + NO_MEDIUM_SIZE_CLASSES {
      Pow2Monotone(i - NO_SMALL_SIZE_CLASSES, 3);
    }
  }

  /** The class of a request is the least class that can hold it, and it wastes less than 16 bytes
      for a small request and less than half of the region otherwise. */
  lemma ClassIsLeast(size: nat)
    requires 1 <= size <= LARGE_SIZE_MAX_REGION
    ensures IsClass(ClassFor(size)) && size <= ClassFor(size)
    ensures forall c :: IsClass(c) && size <= c ==> ClassFor(size) <= c
    ensures if IsSmall(size) then ClassFor(size) < size + 16 else ClassFor(size) < 2 * size
  {
    hide SizeOfBin, ClassFor;
    var i := ClassBin(size);
    forall c | IsClass(c) && size <= c
      ensures ClassFor(size) <= c
    {
      var j: nat :| j < ARENA_NO_BINS && c == SizeOfBin(j);
      if j < i - 1 {
        BinsAscend(j, i - 1);
      } else if i < j {
        BinsAscend(i, j);
      }
    }
  }

  /** Rounding up keeps the order, and keeps classes. */
  lemma ClassMonotone(m: nat, n: nat)
    requires 1 <= m <= n <= LARGE_SIZE_MAX_REGION
    ensures ClassFor(m) <= ClassFor(n)
    ensures IsClass(n) ==> ClassFor(n) == n
  {
    ClassIsLeast(m);
    ClassIsLeast(n);
  }

  /** The class of a class is itself, and only a class is its own class. */
  lemma ClassFixed(n: nat)
    requires 1 <= n <= LARGE_SIZE_MAX_REGION
    ensures IsClass(n) <==> ClassFor(n) == n
  {
    ClassIsLeast(n);
  }

  /** Bins and classes correspond one to one. */
  lemma BinsDistinct(i: nat, j: nat)
    requires i < ARENA_NO_BINS && j < ARENA_NO_BINS && SizeOfBin(i) == SizeOfBin(j)
    ensures i == j
  {
    if i < j {
      BinsAscend(i, j);
    } else if j < i {
      BinsAscend(j, i);
    }
  }

  /** Up to 1 MB the sizes that are aligned are 0 and the classes; beyond, where no class is left, they are
      the further doublings of the last class that fit into 32 bits. */
  method IsSizeAligned(size: nat) returns (ok: bool)
    requires size < U32
    ensures size <= LARGE_SIZE_MAX_REGION ==> (ok <==> size == 0 || IsClass(size))
    ensures size > LARGE_SIZE_MAX_REGION ==> (ok <==> exists k: nat :: size == LARGE_SIZE_MIN_REGION * Pow2(k))
  {
    hide IsClass, Pow2, RoundUp;
    if 0 < size <= LARGE_SIZE_MAX_REGION {
      ClassFixed(size);
      RoundUpFits(size);
    } else if size > 0 {
      AlignedBeyond(size);
    }
    if IsSmall(size) {
      return AlignUpSmall(size) == size;
    } else if IsMedium(size) {
      var r := AlignUpMedium(size);
      return r == size;
    }
    var r := AlignUpLarge(size);
    ok := r == size;
  }

  /** Rounding up to a class does not wrap around. */
  lemma RoundUpFits(size: nat)
    requires 1 <= size <= LARGE_SIZE_MAX_REGION
    ensures IsMedium(size) ==>
              ClassFor(size) == RoundUp(size, MEDIUM_SIZE_MIN_REGION) == RoundUp(size, MEDIUM_SIZE_MIN_REGION) % U32
    ensures IsLarge(size) ==>
              ClassFor(size) == RoundUp(size, LARGE_SIZE_MIN_REGION) == RoundUp(size, LARGE_SIZE_MIN_REGION) % U32
    ensures IsSmall(size) ==> ClassFor(size) == AlignUpSmall(size)
  {
    hide RoundUp, IsClass;
    ClassIsLeast(size);
  }

  /** A size beyond 1 MB survives rounding up in 32 bits exactly if it is a doubling of the least large class. */
  lemma AlignedBeyond(size: nat)
    requires LARGE_SIZE_MAX_REGION < size < U32
    ensures RoundUp(size, LARGE_SIZE_MIN_REGION) % U32 == size <==>
              exists k: nat :: size == LARGE_SIZE_MIN_REGION * Pow2(k)
  {
    hide RoundUp, Pow2;
    PowersOfShifts();
    Pow2Add(16, 2);
    var k := UnitBin(size, LARGE_SIZE_MIN_REGION, 18);
    if k < 18 {
      Pow2Monotone(k, 17);
    }
    forall j: nat | size == LARGE_SIZE_MIN_REGION * Pow2(j)
      ensures j == k && k < 18
    {
      if j < k {
        Pow2Monotone(j, k - 1);
      } else if j > k {
        Pow2Monotone(k, j);
        assert Pow2(j) == Pow2(k);
        DoublePow(j);
        Pow2Monotone(k, j - 1);
      }
    }
  }

  /** Rounds a request that is not huge up to its class. */
  method RoundToClass(size: nat) returns (r: nat)
    requires 1 <= size <= LARGE_SIZE_MAX_REGION
    ensures r == ClassFor(size) && IsClass(r) && size <= r
  {
    hide ClassFor, RoundUp, IsClass;
    ClassIsLeast(size);
    RoundUpFits(size);
    if IsSmall(size) {
      r := AlignUpSmall(size);
    } else if IsMedium(size) {
      r := AlignUpMedium(size);
    } else {
      r := AlignUpLarge(size);
    }
  }
}
