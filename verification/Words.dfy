// Fixed-width unsigned arithmetic, written out on unbounded integers.
module Words {
  const TWO_32: int := 0x1_0000_0000
  const TWO_64: int := 0x1_0000_0000_0000_0000

  // The value a 32-bit unsigned object holds after being assigned x.
  function Wrap32(x: int): (r: int)
    ensures 0 <= r < TWO_32
    ensures 0 <= x < TWO_32 ==> r == x
  {
    x % TWO_32
  }

  // The value a 64-bit unsigned object holds after being assigned x.
  function Wrap64(x: int): (r: int)
    ensures 0 <= r < TWO_64
    ensures 0 <= x < TWO_64 ==> r == x
  {
    x % TWO_64
  }

  // Two integers leave the same remainder exactly when they differ by a multiple.
  lemma Wrap64Shift(x: int, k: int)
    ensures Wrap64(x + k * TWO_64) == Wrap64(x)
  {
  }

  // Wrapping the operands of a sum first changes nothing modulo 2^64.
  lemma Wrap64Sum(x: int, y: int)
    ensures Wrap64(Wrap64(x) + Wrap64(y)) == Wrap64(x + y)
  {
    Wrap64Shift(Wrap64(x) + Wrap64(y), x / TWO_64 + y / TWO_64);
  }

  // The same for a difference.
  lemma Wrap64Difference(x: int, y: int)
    ensures Wrap64(Wrap64(x) - Wrap64(y)) == Wrap64(x - y)
  {
    Wrap64Shift(Wrap64(x) - Wrap64(y), x / TWO_64 - y / TWO_64);
  }
}
