/** The bits of a 32-bit word, by way of the 64-bit word of the same value. */
module Bits32 {
  import opened Words
  import opened Bits

  function And32(x: bv32, y: bv32): bv32 { x & y }

  function Half32(x: bv32): bv32 { x >> 1 }

  function Shr32(x: bv32, n: nat): bv32
    decreases n
  {
    if n == 0 then x else Shr32(Half32(x), n - 1)
  }

  function Shl32(x: bv32, n: nat): bv32 {
    if n == 0 then x else Twice32(Shl32(x, n - 1))
  }

  function Wide32(x: bv32): bv64 {
    x as bv64
  }

  predicate Bit32(x: bv32, k: nat) {
    Bit(Wide32(x), k)
  }

  lemma WideXor(x: bv32, y: bv32)
    ensures Wide32(Xor(x, y)) == Xor64(Wide32(x), Wide32(y))
  {
  }

  lemma WideAnd(x: bv32, y: bv32)
    ensures Wide32(And32(x, y)) == And64(Wide32(x), Wide32(y))
  {
  }

  lemma WideOr(x: bv32, y: bv32)
    ensures Wide32(Or32(x, y)) == Or64(Wide32(x), Wide32(y))
  {
  }

  lemma WideShifts(x: bv32)
    ensures (x >> 1) as bv64 == (x as bv64) >> 1
    ensures (x << 1) as bv64 == ((x as bv64) << 1) & 0xffff_ffff
  {
  }

  lemma WideHalf(x: bv32)
    ensures Wide32(Half32(x)) == Half(Wide32(x))
  {
    assert Half32(x) == x >> 1;
    assert Wide32(x) == x as bv64;
    assert Wide32(x >> 1) == (x >> 1) as bv64;
    WideShifts(x);
  }

  lemma WideTwice(x: bv32)
    ensures Wide32(Twice32(x)) == And64(Twice(Wide32(x)), 0xffff_ffff)
  {
    assert Twice32(x) == x << 1;
    assert Wide32(x) == x as bv64;
    assert Twice(x as bv64) == (x as bv64) << 1;
    WideShifts(x);
  }

  lemma WideIs32(x: bv32)
    ensures And64(Wide32(x), 0xffff_ffff) == Wide32(x)
  {
  }

  lemma SameWide(x: bv32, y: bv32)
    requires Wide32(x) == Wide32(y)
    ensures x == y
  {
  }

  lemma Ones32(k: nat)
    requires k < 64
    ensures Bit(0xffff_ffff, k) <==> k < 32
  {
    hide Bit;
    assert Ones(8) == 0xff;
    assert Ones(16) == 0xffff;
    assert Ones(24) == 0xff_ffff;
    assert Ones(32) == 0xffff_ffff;
    BitOnes(32, k);
  }

  lemma High32(x: bv32, k: nat)
    requires 32 <= k < 64
    ensures !Bit32(x, k)
  {
    hide Bit, Wide32, And64;
    WideIs32(x);
    BitAnd(Wide32(x), 0xffff_ffff, k);
    Ones32(k);
  }

  lemma Xor32Bit(x: bv32, y: bv32, k: nat)
    ensures Bit32(Xor(x, y), k) <==> Bit32(x, k) != Bit32(y, k)
  {
    hide Bit, Wide32, Xor, Xor64;
    WideXor(x, y);
    BitXor(Wide32(x), Wide32(y), k);
  }

  lemma And32Bit(x: bv32, y: bv32, k: nat)
    ensures Bit32(And32(x, y), k) <==> Bit32(x, k) && Bit32(y, k)
  {
    hide Bit, Wide32, And32, And64;
    WideAnd(x, y);
    BitAnd(Wide32(x), Wide32(y), k);
  }

  lemma Or32Bit(x: bv32, y: bv32, k: nat)
    ensures Bit32(Or32(x, y), k) <==> Bit32(x, k) || Bit32(y, k)
  {
    hide Bit, Wide32, Or32, Or64;
    WideOr(x, y);
    BitOr(Wide32(x), Wide32(y), k);
  }

  lemma {:induction false} ShrBit(x: bv32, n: nat, k: nat)
    ensures Bit32(Shr32(x, n), k) <==> Bit32(x, n + k)
    decreases n
  {
    hide Bit, Wide32, Half32, Half;
    if n > 0 {
      ShrBit(Half32(x), n - 1, k);
      WideHalf(x);
      BitNext(Wide32(x), n + k);
    }
  }

  lemma TwiceBit(x: bv32, k: nat)
    requires k < 32
    ensures Bit32(Twice32(x), k) <==> k > 0 && Bit32(x, k - 1)
  {
    hide Bit, Wide32, Twice32, And64, Twice;
    WideTwice(x);
    BitAnd(Twice(Wide32(x)), 0xffff_ffff, k);
    Ones32(k);
    BitTwice(Wide32(x), k);
  }

  lemma {:induction false} ShlBit(x: bv32, n: nat, k: nat)
    requires k < 32
    ensures Bit32(Shl32(x, n), k) <==> k >= n && Bit32(x, k - n)
    decreases n
  {
    hide Bit32, Twice32;
    if n > 0 {
      TwiceBit(Shl32(x, n - 1), k);
      if k > 0 {
        ShlBit(x, n - 1, k - 1);
      }
    }
  }

  /** A word is determined by its 32 bits. */
  lemma SameBits32(x: bv32, y: bv32)
    requires forall k: nat | k < 32 :: Bit32(x, k) == Bit32(y, k)
    ensures x == y
  {
    hide Bit, Wide32;
    forall k: nat | k < 64
      ensures Bit(Wide32(x), k) == Bit(Wide32(y), k)
    {
      if k < 32 {
        assert Bit32(x, k) == Bit32(y, k);
      } else {
        High32(x, k);
        High32(y, k);
      }
    }
    SameBits(Wide32(x), Wide32(y));
    SameWide(x, y);
  }

  // ---- The bytes of a word ----

  function Fourth32(x: bv32): bv32 { x >> 2 }

  function Sixteenth32(x: bv32): bv32 { x >> 4 }

  function Byte32(x: bv32): bv32 { x >> 8 }

  lemma ShiftsCompose(x: bv32)
    ensures (x >> 1) >> 1 == x >> 2 && (x >> 2) >> 2 == x >> 4 && (x >> 4) >> 4 == x >> 8
  {
  }

  lemma TwoHalves(x: bv32)
    ensures Half32(Half32(x)) == Fourth32(x)
  {
    assert Half32(x) == x >> 1;
    assert Half32(x >> 1) == (x >> 1) >> 1;
    assert Fourth32(x) == x >> 2;
    ShiftsCompose(x);
  }

  lemma TwoFourths(x: bv32)
    ensures Fourth32(Fourth32(x)) == Sixteenth32(x)
  {
    assert Fourth32(x) == x >> 2;
    assert Fourth32(x >> 2) == (x >> 2) >> 2;
    assert Sixteenth32(x) == x >> 4;
    ShiftsCompose(x);
  }

  lemma TwoSixteenths(x: bv32)
    ensures Sixteenth32(Sixteenth32(x)) == Byte32(x)
  {
    assert Sixteenth32(x) == x >> 4;
    assert Sixteenth32(x >> 4) == (x >> 4) >> 4;
    assert Byte32(x) == x >> 8;
    ShiftsCompose(x);
  }

  lemma Shift4(x: bv32)
    ensures Shr32(x, 4) == Sixteenth32(x)
  {
    hide Half32, Fourth32, Sixteenth32;
    TwoHalves(x);
    TwoHalves(Fourth32(x));
    TwoFourths(x);
    assert Shr32(x, 2) == Half32(Half32(x));
    assert Shr32(Fourth32(x), 2) == Half32(Half32(Fourth32(x)));
    ShiftsAdd(x, 2, 2);
  }

  lemma {:induction false} ShiftsAdd(x: bv32, m: nat, n: nat)
    ensures Shr32(x, m + n) == Shr32(Shr32(x, m), n)
    decreases m
  {
    hide Half32;
    if m > 0 {
      ShiftsAdd(Half32(x), m - 1, n);
    }
  }

  lemma Shift8(x: bv32)
    ensures Shr32(x, 8) == Byte32(x)
  {
    hide Shr32, Sixteenth32, Byte32;
    Shift4(x);
    Shift4(Sixteenth32(x));
    TwoSixteenths(x);
    ShiftsAdd(x, 4, 4);
  }

  lemma ByteOfWord(x: bv32)
    ensures And64(Wide32(x), 0xff) == Wide(WordByte(x, 3))
  {
  }

  lemma LowByteBit(x: bv32, j: nat)
    requires j < 8
    ensures Bit32(x, j) <==> ByteBit(WordByte(x, 3), j)
  {
    hide Bit, Wide32, Wide, WordByte, And64, ByteBit;
    ByteOfWord(x);
    assert Ones(4) == 15;
    assert Ones(8) == 255;
    BitAnd(Wide32(x), 0xff, j);
    BitOnes(8, j);
    WideBit(WordByte(x, 3), j);
  }

  lemma NextByte(x: bv32)
    ensures WordByte(Byte32(x), 3) == WordByte(x, 2)
    ensures WordByte(Byte32(x), 2) == WordByte(x, 1)
    ensures WordByte(Byte32(x), 1) == WordByte(x, 0)
  {
  }

  /** Bit k of a word is bit k % 8 of byte k / 8, counting bytes from the least significant one. */
  lemma {:induction false} WordBit(x: bv32, k: nat)
    requires k < 32
    ensures Bit32(x, k) <==> ByteBit(WordByte(x, 3 - k / 8), k % 8)
    decreases k
  {
    hide Bit32, WordByte, ByteBit, Byte32, Shr32;
    if k < 8 {
      LowByteBit(x, k);
    } else {
      Shift8(x);
      ShrBit(x, 8, k - 8);
      WordBit(Byte32(x), k - 8);
      NextByte(x);
    }
  }

  lemma WideXorByte(x: bv8, y: bv8)
    ensures Wide(XorByte(x, y)) == Xor64(Wide(x), Wide(y))
  {
  }

  /** Bit j of two bytes combined is set if it is set in one of them and not in the other. */
  lemma XorByteBit(x: bv8, y: bv8, j: nat)
    requires j < 8
    ensures ByteBit(XorByte(x, y), j) <==> ByteBit(x, j) != ByteBit(y, j)
  {
    hide Bit, Wide, Xor64, XorByte, ByteBit;
    WideXorByte(x, y);
    BitXor(Wide(x), Wide(y), j);
    WideBit(x, j);
    WideBit(y, j);
    WideBit(XorByte(x, y), j);
  }

  // ---- A pair of words as 64 bits ----

  /** Bit k of a 64-bit word. */
  predicate DoubleBit(x: Double, k: nat) {
    if k < 32 then Bit32(x.low, k) else Bit32(x.high, k - 32)
  }

  lemma TopBit(x: bv32)
    ensures TopOf(x) == if ByteBit(WordByte(x, 0), 7) then 1 else 0
  {
  }

  lemma OneBit32(k: nat)
    ensures (Bit32(1, k) <==> k == 0) && !Bit32(0, k)
  {
    hide Bit;
    assert Wide32(1) == 1 && Wide32(0) == 0;
    BitOne(k);
    BitZero(k);
  }

  lemma TopOfBit(x: bv32, k: nat)
    ensures Bit32(TopOf(x), k) <==> k == 0 && Bit32(x, 31)
  {
    hide Bit32, WordByte, ByteBit;
    WordBit(x, 31);
    TopBit(x);
    OneBit32(k);
  }

  lemma Shift1Bit(x: Double, k: nat)
    requires k < 64
    ensures DoubleBit(Shift1(x), k) <==> k > 0 && DoubleBit(x, k - 1)
  {
    hide Bit32, Twice32, Or32, TopOf;
    if k < 32 {
      TwiceBit(x.low, k);
    } else {
      Or32Bit(Twice32(x.high), TopOf(x.low), k - 32);
      TwiceBit(x.high, k - 32);
      TopOfBit(x.low, k - 32);
    }
  }

  lemma {:induction false} ShiftLeftBit(x: Double, n: nat, k: nat)
    requires k < 64
    ensures DoubleBit(ShiftLeft(x, n), k) <==> k >= n && DoubleBit(x, k - n)
  {
    hide DoubleBit, Shift1;
    if n > 0 {
      assert ShiftLeft(x, n) == Shift1(ShiftLeft(x, n - 1));
      Shift1Bit(ShiftLeft(x, n - 1), k);
      if k > 0 {
        ShiftLeftBit(x, n - 1, k - 1);
      }
    }
  }

  lemma Rotate1Bit(x: Double, k: nat)
    requires k < 64
    ensures DoubleBit(Rotate1(x), k) <==> DoubleBit(x, if k == 0 then 63 else k - 1)
  {
    hide Bit32, Twice32, Or32, TopOf;
    if k < 32 {
      Or32Bit(Twice32(x.low), TopOf(x.high), k);
      TwiceBit(x.low, k);
      TopOfBit(x.high, k);
    } else {
      Or32Bit(Twice32(x.high), TopOf(x.low), k - 32);
      TwiceBit(x.high, k - 32);
      TopOfBit(x.low, k - 32);
    }
  }

  lemma {:induction false} RotateLeftBit(x: Double, n: nat, k: nat)
    requires n <= 64 && k < 64
    ensures DoubleBit(RotateLeft(x, n), k) <==> DoubleBit(x, if k >= n then k - n else k + 64 - n)
  {
    hide DoubleBit, Rotate1;
    if n > 0 {
      assert RotateLeft(x, n) == Rotate1(RotateLeft(x, n - 1));
      Rotate1Bit(RotateLeft(x, n - 1), k);
      RotateLeftBit(x, n - 1, if k == 0 then 63 else k - 1);
    }
  }
}
