/** Helpers shared by the allocator's files. */
module Utils {
  import opened TreeIndex

  /** Machine words have 64 bits. */
  const WORD_LIMIT: nat := 0x1_0000_0000_0000_0000

  datatype Option<+T> = None | Some(value: T)

  /** Despite its name the C helper counts how often `x` can be halved, which is the
      position of its highest set bit. */
  method Ctz(x: nat) returns (cnt: nat)
    ensures x >= 1 ==> cnt == Level(x)
    ensures x >= 1 ==> Pow2(cnt) <= x < Pow2(cnt + 1)
    ensures x == 0 ==> cnt == 0
  {
    cnt := 0;
    var y := x;
    while y > 1
      invariant x >= 1 ==> y >= 1 && Level(x) == cnt + Level(y)
      invariant x == 0 ==> y == 0 && cnt == 0
    {
      cnt := cnt + 1;
      y := y / 2;
    }
  }
}
