/** Bytes as bits of a machine word. */
module ByteBits {
  import opened Coding

  /** The bits of a byte, in two halves. */
  function Bits(b: Byte): bv32 {
    Halves((b / 16) as bv4, (b % 16) as bv4)
  }

  function Halves(high: bv4, low: bv4): bv32 {
    ((high as bv32) << 4) | (low as bv32)
  }

  lemma HalvesInjective(a: bv4, b: bv4, c: bv4, d: bv4)
    requires Halves(a, b) == Halves(c, d)
    ensures a == c && b == d
  {
  }

  lemma HalfBack(n: int)
    requires 0 <= n < 16
    ensures (n as bv4) as int == n
  {
  }

  lemma HalfForth(x: bv4)
    ensures (x as int) as bv4 == x
  {
  }

  /** Different bytes have different bits. */
  lemma BitsInjective(b: Byte, d: Byte)
    requires Bits(b) == Bits(d)
    ensures b == d
  {
    hide Halves;
    HalvesInjective((b / 16) as bv4, (b % 16) as bv4, (d / 16) as bv4, (d % 16) as bv4);
    HalfBack(b / 16);
    HalfBack(b % 16);
    HalfBack(d / 16);
    HalfBack(d % 16);
  }

  lemma BitsAre(b: Byte, high: bv4, low: bv4)
    requires b == 16 * high as int + low as int
    ensures Bits(b) == Halves(high, low)
  {
    hide Halves;
    HalfForth(high);
    HalfForth(low);
    assert b / 16 == high as int && b % 16 == low as int;
  }

  /** A word is the bits of its value. */
  lemma BackAndForth(x: bv32)
    ensures (x as int) as bv32 == x
  {
  }

  lemma XorCancels(x: bv32, y: bv32, z: bv32)
    ensures x ^ z == y ^ z ==> x == y
    ensures z ^ x == z ^ y ==> x == y
  {
  }
}
