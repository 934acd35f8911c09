/** Signed 32-bit words: arithmetic wraps in two's complement. */
module Word32 {
  const HALF: int := 0x8000_0000

  // The word that x is stored as.
  function Wrap(x: int): (r: int)
    ensures -HALF <= r < HALF
    ensures (x - r) % 0x1_0000_0000 == 0
    ensures -HALF <= x < HALF ==> r == x
  {
    (x + HALF) % 0x1_0000_0000 - HALF
  }

  // One step below the least word.
  lemma WrapBelow(x: int)
    requires -2 * HALF <= x < HALF
    ensures Wrap(x) == if x < -HALF then x + 2 * HALF else x
  {}

  // Numbers that differ by a multiple of 2^32 are stored alike.
  lemma WrapShift(x: int, q: int)
    ensures Wrap(x + q * 0x1_0000_0000) == Wrap(x)
  {}

  // Wrapping a term first makes no difference to a sum ...
  lemma WrapSum(x: int, y: int)
    ensures Wrap(Wrap(x) + y) == Wrap(x + y) && Wrap(x + Wrap(y)) == Wrap(x + y)
  {
    WrapShift(Wrap(x) + y, (x - Wrap(x)) / 0x1_0000_0000);
    WrapShift(x + Wrap(y), (y - Wrap(y)) / 0x1_0000_0000);
  }

  // ... nor does wrapping a factor to a product.
  lemma WrapProduct(x: int, y: int)
    ensures Wrap(Wrap(x) * y) == Wrap(x * y)
  {
    var q := (x - Wrap(x)) / 0x1_0000_0000;
    assert x == Wrap(x) + q * 0x1_0000_0000;
    assert x * y == Wrap(x) * y + q * y * 0x1_0000_0000;
    WrapShift(Wrap(x) * y, q * y);
  }
}
