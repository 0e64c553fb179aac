/** Go's 64-bit `int`. */
module GoInt {
  type int64 = x: int | -0x8000_0000_0000_0000 <= x < 0x8000_0000_0000_0000

  /** Two's-complement wrap-around of a sum. */
  function Wrap(x: int): int64 {
    (x + 0x8000_0000_0000_0000) % 0x1_0000_0000_0000_0000 - 0x8000_0000_0000_0000
  }

  lemma WrapIsExact(x: int)
    requires -0x8000_0000_0000_0000 <= x < 0x8000_0000_0000_0000
    ensures Wrap(x) == x
  {
  }

  const WORD: int := 0x1_0000_0000_0000_0000

  lemma WrapIgnoresWords(x: int, k: int)
    ensures Wrap(x + k * WORD) == Wrap(x)
  {
    assert (x + 0x8000_0000_0000_0000 + k * WORD) % WORD == (x + 0x8000_0000_0000_0000) % WORD;
  }

  lemma WrapDropsWords(x: int) returns (k: int)
    ensures Wrap(x) == x + k * WORD
  {
    k := -((x + 0x8000_0000_0000_0000) / WORD);
  }

  /** A sum may be wrapped at every step or only at the end. */
  lemma WrapCancels(a: int, b: int)
    ensures Wrap(Wrap(a) + b) == Wrap(a + b)
  {
    var k := WrapDropsWords(a);
    WrapIgnoresWords(a + b, k);
    assert Wrap(a) + b == a + b + k * WORD;
  }
}
