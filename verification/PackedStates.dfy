/** Node and region states are stored two bits each, four to a byte. */
module PackedStates {

  /** The enumerators of all three C state enumerations. */
  newtype TwoBit = x: int | 0 <= x < 4

  function ToBits(t: TwoBit): bv8 {
    if t == 0 then 0 else if t == 1 then 1 else if t == 2 then 2 else 3
  }

  function FromBits(b: bv8): TwoBit {
    if b == 0 then 0 else if b == 1 then 1 else if b == 2 then 2 else 3
  }

  /** The field of byte `b` at position `off`. */
  function GetField(b: bv8, off: nat): TwoBit
    requires off < 4
  {
    FromBits((b >> (2 * off)) & 3)
  }

  /** Byte `b` with its field at position `off` cleared and then set to `t`. */
  function SetField(b: bv8, off: nat, t: TwoBit): bv8
    requires off < 4
  {
    (b & !(3 << (2 * off))) | (ToBits(t) << (2 * off))
  }

  lemma GetAfterSet(b: bv8, off: nat, t: TwoBit, k: nat)
    requires off < 4 && k < 4
    ensures GetField(SetField(b, off, t), k) == if k == off then t else GetField(b, k)
  {
    hide GetField, SetField;
    Fields0(b, t);
    Fields1(b, t);
    Fields2(b, t);
    Fields3(b, t);
    assert off == 0 || off == 1 || off == 2 || off == 3;
    assert k == 0 || k == 1 || k == 2 || k == 3;
  }

  lemma Fields0(b: bv8, t: TwoBit)
    ensures var s := SetField(b, 0, t);
            GetField(s, 0) == t && GetField(s, 1) == GetField(b, 1) && GetField(s, 2) == GetField(b, 2)
            && GetField(s, 3) == GetField(b, 3)
  {
  }

  lemma Fields1(b: bv8, t: TwoBit)
    ensures var s := SetField(b, 1, t);
            GetField(s, 0) == GetField(b, 0) && GetField(s, 1) == t && GetField(s, 2) == GetField(b, 2)
            && GetField(s, 3) == GetField(b, 3)
  {
  }

  lemma Fields2(b: bv8, t: TwoBit)
    ensures var s := SetField(b, 2, t);
            GetField(s, 0) == GetField(b, 0) && GetField(s, 1) == GetField(b, 1) && GetField(s, 2) == t
            && GetField(s, 3) == GetField(b, 3)
  {
  }

  lemma Fields3(b: bv8, t: TwoBit)
    ensures var s := SetField(b, 3, t);
            GetField(s, 0) == GetField(b, 0) && GetField(s, 1) == GetField(b, 1) && GetField(s, 2) == GetField(b, 2)
            && GetField(s, 3) == t
  {
  }

  /** A byte buffer read and written as an array of two-bit states. */
  class StateArray {
    const mem: array<bv8>
    ghost var items: seq<TwoBit>

    ghost predicate Valid()
      reads this, mem
    {
      && |items| == 4 * mem.Length
      && forall k :: 0 <= k < |items| ==> items[k] == GetField(mem[k / 4], k % 4)
    }

    /** A buffer of zero bytes, as `memset` or a fresh mapping leaves it. */
    constructor (bytes: nat)
      ensures Valid() && fresh(mem) && mem.Length == bytes
      ensures forall k :: 0 <= k < |items| ==> items[k] == 0
    {
      mem := new bv8[bytes](_ => 0);
      items := seq(4 * bytes, _ => 0);
      new;
      forall k | 0 <= k < |items|
        ensures items[k] == GetField(mem[k / 4], k % 4)
      {
        ZeroByte(k % 4);
      }
    }

    method Get(k: nat) returns (t: TwoBit)
      requires Valid() && k < |items|
      ensures t == items[k]
    {
      hide GetField;
      var word, off := k / 4, k % 4;
      t := GetField(mem[word], off);
    }

    method Set(k: nat, t: TwoBit)
      requires Valid() && k < |items|
      modifies `items, mem
      ensures Valid() && items == old(items)[k := t]
    {
      hide GetField, SetField;
      var word, off := k / 4, k % 4;
      mem[word] := SetField(mem[word], off, t);
      items := items[k := t];
      forall m | 0 <= m < |items|
        ensures items[m] == GetField(mem[m / 4], m % 4)
      {
        if m / 4 == word {
          GetAfterSet(old(mem[word]), off, t, m % 4);
        }
      }
    }
  }

  lemma ZeroByte(off: nat)
    requires off < 4
    ensures GetField(0, off) == 0
  {
    assert off == 0 || off == 1 || off == 2 || off == 3;
  }
}
