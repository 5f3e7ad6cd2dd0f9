/** The bits of a 64-bit word. A shift by a run-time count is that many one-bit steps. */
module Bits {
  function And64(x: bv64, y: bv64): bv64 { x & y }

  function Or64(x: bv64, y: bv64): bv64 { x | y }

  function Xor64(x: bv64, y: bv64): bv64 { x ^ y }

  function Without64(x: bv64, m: bv64): bv64 { x & !m }

  function Half(x: bv64): bv64 { x >> 1 }

  function Twice(x: bv64): bv64 { x << 1 }

  predicate Odd(x: bv64) { x & 1 == 1 }

  function ShiftRight64(x: bv64, n: nat): bv64 {
    if n == 0 then x else ShiftRight64(Half(x), n - 1)
  }

  function ShiftLeft64(x: bv64, n: nat): bv64 {
    if n == 0 then x else Twice(ShiftLeft64(x, n - 1))
  }

  predicate Bit(x: bv64, n: nat) {
    Odd(ShiftRight64(x, n))
  }

  lemma XorStep(x: bv64, y: bv64)
    ensures Half(Xor64(x, y)) == Xor64(Half(x), Half(y)) && (Odd(Xor64(x, y)) <==> Odd(x) != Odd(y))
  {
  }

  lemma {:induction false} BitXor(x: bv64, y: bv64, n: nat)
    ensures Bit(Xor64(x, y), n) <==> Bit(x, n) != Bit(y, n)
    decreases n
  {
    hide Half, Xor64, Odd;
    XorStep(x, y);
    if n > 0 {
      BitXor(Half(x), Half(y), n - 1);
    }
  }

  lemma AndStep(x: bv64, y: bv64)
    ensures Half(And64(x, y)) == And64(Half(x), Half(y)) && (Odd(And64(x, y)) <==> Odd(x) && Odd(y))
  {
  }

  lemma {:induction false} BitAnd(x: bv64, y: bv64, n: nat)
    ensures Bit(And64(x, y), n) <==> Bit(x, n) && Bit(y, n)
    decreases n
  {
    hide Half, And64, Odd;
    AndStep(x, y);
    if n > 0 {
      BitAnd(Half(x), Half(y), n - 1);
    }
  }

  lemma HalfOfOr(x: bv64, y: bv64)
    ensures Half(Or64(x, y)) == Or64(Half(x), Half(y))
  {
  }

  lemma OddOr(x: bv64, y: bv64)
    ensures Odd(Or64(x, y)) <==> Odd(x) || Odd(y)
  {
  }

  lemma {:induction false} BitOr(x: bv64, y: bv64, n: nat)
    ensures Bit(Or64(x, y), n) <==> Bit(x, n) || Bit(y, n)
    decreases n
  {
    hide Half, Or64, Odd;
    HalfOfOr(x, y);
    OddOr(x, y);
    if n > 0 {
      BitOr(Half(x), Half(y), n - 1);
    }
  }

  lemma WithoutStep(x: bv64, m: bv64)
    ensures Half(Without64(x, m)) == Without64(Half(x), Half(m)) && (Odd(Without64(x, m)) <==> Odd(x) && !Odd(m))
  {
  }

  lemma {:induction false} BitWithout(x: bv64, m: bv64, n: nat)
    ensures Bit(Without64(x, m), n) <==> Bit(x, n) && !Bit(m, n)
    decreases n
  {
    hide Half, Without64, Odd;
    WithoutStep(x, m);
    if n > 0 {
      BitWithout(Half(x), Half(m), n - 1);
    }
  }

  /** The n lowest bits. */
  function Ones(n: nat): bv64 {
    if n == 0 then 0 else Or64(Twice(Ones(n - 1)), 1)
  }

  lemma OnesAre()
    ensures Ones(28) == 0xfff_ffff && Ones(63) == 0x7fff_ffff_ffff_ffff && Ones(64) == 0xffff_ffff_ffff_ffff
  {
    assert Ones(7) == 0x7f;
    assert Ones(14) == 0x3fff;
    assert Ones(21) == 0x1f_ffff;
    assert Ones(28) == 0xfff_ffff;
    assert Ones(35) == 0x7_ffff_ffff;
    assert Ones(42) == 0x3ff_ffff_ffff;
    assert Ones(49) == 0x1_ffff_ffff_ffff;
    assert Ones(56) == 0xff_ffff_ffff_ffff;
  }

  lemma MaskStep(x: bv64, m: bv64)
    requires !Odd(x) && And64(Half(x), m) == 0
    ensures And64(x, Or64(Twice(m), 1)) == 0
  {
  }

  lemma MaskNone(x: bv64)
    ensures And64(x, 0) == 0
  {
  }

  /** A word whose n lowest bits are clear. */
  lemma {:induction false} ClearLow(x: bv64, n: nat)
    requires forall k: nat | k < n :: !Bit(x, k)
    ensures And64(x, Ones(n)) == 0
    decreases n
  {
    hide Half, And64, Or64, Twice, Odd;
    MaskNone(x);
    if n > 0 {
      assert !Bit(x, 0);
      forall k: nat | k < n - 1
        ensures !Bit(Half(x), k)
      {
        assert !Bit(x, k + 1);
      }
      ClearLow(Half(x), n - 1);
      MaskStep(x, Ones(n - 1));
    }
  }

  lemma XorIsZero(x: bv64, y: bv64)
    requires And64(Xor64(x, y), 0xffff_ffff_ffff_ffff) == 0
    ensures x == y
  {
  }

  /** A word is determined by its 64 bits. */
  lemma SameBits(x: bv64, y: bv64)
    requires forall k: nat | k < 64 :: Bit(x, k) == Bit(y, k)
    ensures x == y
  {
    hide Bit, And64, Xor64;
    forall k: nat | k < 64
      ensures !Bit(Xor64(x, y), k)
    {
      BitXor(x, y, k);
    }
    ClearLow(Xor64(x, y), 64);
    OnesAre();
    XorIsZero(x, y);
  }

  lemma UnmaskStep(x: bv64, m: bv64)
    requires And64(x, Or64(Twice(m), 1)) == 0
    ensures !Odd(x) && And64(Half(x), m) == 0
  {
  }

  /** The converse of ClearLow. */
  lemma {:induction false} LowIsClear(x: bv64, n: nat, k: nat)
    requires And64(x, Ones(n)) == 0 && k < n
    ensures !Bit(x, k)
    decreases n
  {
    hide Half, And64, Or64, Twice, Odd;
    UnmaskStep(x, Ones(n - 1));
    if k > 0 {
      LowIsClear(Half(x), n - 1, k - 1);
    }
  }

  lemma TwiceStep(x: bv64)
    ensures !Odd(Twice(x)) && And64(Xor64(Half(Twice(x)), x), Ones(63)) == 0
  {
    hide Ones;
    OnesAre();
  }

  lemma BitNext(x: bv64, k: nat)
    ensures k == 0 ==> (Bit(x, k) <==> Odd(x))
    ensures k > 0 ==> (Bit(x, k) <==> Bit(Half(x), k - 1))
  {
    hide Half, Odd;
  }

  lemma BitTwice(x: bv64, k: nat)
    requires k < 64
    ensures Bit(Twice(x), k) <==> k > 0 && Bit(x, k - 1)
  {
    hide Bit, Half, And64, Xor64, Twice, Odd, Ones;
    TwiceStep(x);
    BitNext(Twice(x), k);
    if k > 0 {
      LowIsClear(Xor64(Half(Twice(x)), x), 63, k - 1);
      BitXor(Half(Twice(x)), x, k - 1);
    }
  }

  lemma {:induction false} BitShifted(x: bv64, n: nat, k: nat)
    requires k < 64
    ensures Bit(ShiftLeft64(x, n), k) <==> k >= n && Bit(x, k - n)
    decreases n
  {
    hide Bit, Twice;
    if n > 0 {
      BitTwice(ShiftLeft64(x, n - 1), k);
      if k > 0 {
        BitShifted(x, n - 1, k - 1);
      }
    }
  }

  lemma {:induction false} BitZero(k: nat)
    ensures !Bit(0, k)
    decreases k
  {
    assert Half(0) == 0;
    if k > 0 {
      BitZero(k - 1);
    }
  }

  lemma BitOne(k: nat)
    ensures Bit(1, k) <==> k == 0
  {
    assert Half(1) == 0;
    if k > 0 {
      BitZero(k - 1);
    }
  }

  lemma {:induction false} BitOnes(n: nat, k: nat)
    requires k < 64
    ensures Bit(Ones(n), k) <==> k < n
  {
    hide Bit, Or64, Twice;
    if n == 0 {
      BitZero(k);
    } else {
      BitOr(Twice(Ones(n - 1)), 1, k);
      BitTwice(Ones(n - 1), k);
      BitOne(k);
      if k > 0 {
        BitOnes(n - 1, k - 1);
      }
    }
  }

  lemma {:induction false} BitShiftedRight(x: bv64, n: nat, k: nat)
    ensures Bit(ShiftRight64(x, n), k) <==> Bit(x, n + k)
    decreases n
  {
    hide Half, Odd;
    if n > 0 {
      BitShiftedRight(Half(x), n - 1, k);
    }
  }

  // ---- Bytes ----

  function Wide(b: bv8): bv64 {
    b as bv64
  }

  lemma WideIsLow(b: bv8)
    ensures And64(Wide(b), Ones(8)) == Wide(b)
  {
    assert Ones(4) == 15;
    assert Ones(8) == 255;
  }

  function ByteBit(b: bv8, j: nat): bool {
    if j == 0 then b & 1 != 0 else if j == 1 then b & 2 != 0 else if j == 2 then b & 4 != 0
    else if j == 3 then b & 8 != 0 else if j == 4 then b & 16 != 0 else if j == 5 then b & 32 != 0
    else if j == 6 then b & 64 != 0 else b & 128 != 0
  }

  lemma HalfWide(b: bv8)
    ensures Half(Wide(b)) == Wide(b >> 1) && (Odd(Wide(b)) <==> b & 1 != 0)
  {
  }

  lemma NextByteBit(b: bv8, j: nat)
    requires 0 < j < 8
    ensures ByteBit(b, j) <==> ByteBit(b >> 1, j - 1)
  {
  }

  lemma {:induction false} WideBit(b: bv8, j: nat)
    requires j < 8
    ensures Bit(Wide(b), j) <==> ByteBit(b, j)
    decreases j
  {
    hide Wide, Half, Odd;
    HalfWide(b);
    if j > 0 {
      NextByteBit(b, j);
      WideBit(b >> 1, j - 1);
    }
  }

  lemma Bits63(k: nat)
    requires k < 64
    ensures Bit(63, k) <==> k < 6
  {
    hide Bit;
    assert Ones(6) == 63;
    BitOnes(6, k);
  }
}
