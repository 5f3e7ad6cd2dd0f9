/** Machine words as the C code handles them: bit vectors, with shifts and rotations by a
    run-time count read as that many one-bit steps. */
module Words {

  function Iterate<T>(f: T -> T, x: T, n: nat): T {
    if n == 0 then x else f(Iterate(f, x, n - 1))
  }

  /** count chunks of size c, by repeated addition. */
  function Times(count: nat, c: nat): nat {
    if count == 0 then 0 else Times(count - 1, c) + c
  }

  lemma {:induction false} TimesIs(count: nat, c: nat)
    ensures Times(count, c) == count * c
  {
    if count > 0 {
      TimesIs(count - 1, c);
      assert count * c == (count - 1) * c + c;
    }
  }

  lemma ChunkCount(n: nat, c: nat)
    requires c > 0
    ensures n == Times(n / c, c) + n % c
  {
    TimesIs(n / c, c);
  }

  lemma ChunkLeft(count: nat, c: nat)
    requires count > 0
    ensures Times(count, c) == Times(count - 1, c) + c
  {
  }

  lemma NoChunkLeft(c: nat)
    ensures Times(0, c) == 0
  {
  }

  /** A `uint64_t`, as its two halves. */
  datatype Double = Double(high: bv32, low: bv32)

  function Or32(x: bv32, y: bv32): bv32 { x | y }

  function Twice32(x: bv32): bv32 { x << 1 }

  /** The highest bit, as the lowest. */
  function TopOf(x: bv32): bv32 { x >> 31 }

  function Shift1(x: Double): Double {
    Double(Or32(Twice32(x.high), TopOf(x.low)), Twice32(x.low))
  }

  function Rotate1(v: Double): Double {
    Double(Or32(Twice32(v.high), TopOf(v.low)), Or32(Twice32(v.low), TopOf(v.high)))
  }

  function ShiftLeft(x: Double, n: nat): Double {
    Iterate(Shift1, x, n)
  }

  /** `rotate_left`. A count of 0, which the C expression turns into a shift by 64, leaves the
      word as it is. */
  function RotateLeft(u: Double, n: nat): Double {
    Iterate(Rotate1, u, n)
  }

  /** `bswap4`: the four bytes of a word in the opposite order. */
  function Bswap4(x: bv32): bv32 {
    (x >> 24) | ((x & 0xff0000) >> 8) | ((x & 0xff00) << 8) | (x << 24)
  }

  function Xor(x: bv32, y: bv32): bv32 {
    x ^ y
  }

  function Not(x: bv32): bv32 {
    !x
  }

  lemma XorAssociates(x: bv32, y: bv32, z: bv32)
    ensures Xor(Xor(x, y), z) == Xor(x, Xor(y, z))
  {
  }

  lemma XorZero(x: bv32)
    ensures Xor(x, 0) == x && Xor(0, x) == x
  {
  }

  /** A word combined with two different words gives two different results. */
  lemma XorCancels(x: bv32, y: bv32, z: bv32)
    ensures Xor(x, y) == Xor(x, z) <==> y == z
  {
  }

  /** Byte k of a word, the most significant byte first. */
  function WordByte(w: bv32, k: nat): bv8
    requires k < 4
  {
    if k == 0 then (w >> 24) as bv8
    else if k == 1 then ((w >> 16) & 0xff) as bv8
    else if k == 2 then ((w >> 8) & 0xff) as bv8
    else (w & 0xff) as bv8
  }

  /** Byte j of a 64-bit word in memory, the least significant first. */
  function MemoryByte(t: Double, j: nat): bv8
    requires j < 8
  {
    if j < 4 then WordByte(t.low, 3 - j) else WordByte(t.high, 7 - j)
  }

  function XorByte(x: bv8, y: bv8): bv8 {
    x ^ y
  }

  lemma XorTwice(x: bv8, y: bv8)
    ensures XorByte(XorByte(x, y), y) == x
  {
  }
}
