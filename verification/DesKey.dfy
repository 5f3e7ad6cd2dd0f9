/** The key schedule of lib/des_key.c, bit by bit, and what it makes of a complemented, a weak and a
    parity-changed key. */
module DesKey {
  import opened Words
  import opened Bits
  import opened DesBlock

  // ---- permute_64b ----

  /** `bit_get64b` */
  function BitGet(val: bv64, n: nat): (b: bv64)
    ensures b == if Bit(val, n) then 1 else 0
  {
    ShiftRight64(val, n) & 1
  }

  /** `bit_set64b` */
  function BitSet(val: bv64, n: nat, b: bv64): bv64
  {
    Or64(Without64(val, ShiftLeft64(1, n)), ShiftLeft64(b, n))
  }

  lemma BitSetBits(val: bv64, n: nat, b: bv64, k: nat)
    requires n < 64 && k < 64 && (b == 0 || b == 1)
    ensures Bit(BitSet(val, n, b), k) <==> if k == n then b == 1 else Bit(val, k)
  {
    hide Bit, Without64, Or64, ShiftLeft64;
    var m := ShiftLeft64(1, n);
    BitOr(Without64(val, m), ShiftLeft64(b, n), k);
    BitWithout(val, m, k);
    BitShifted(1, n, k);
    BitShifted(b, n, k);
    if k >= n {
      BitOne(k - n);
      BitZero(k - n);
    }
  }

  /** Out bit i is in bit pattern[i] - 1, and the bits past the pattern are clear. */
  ghost predicate Permuted(out: bv64, input: bv64, pattern: seq<int>)
    requires forall i | 0 <= i < |pattern| :: 1 <= pattern[i] <= 64
  {
    forall k: nat | k < 64 :: Bit(out, k) == (k < |pattern| && Bit(input, pattern[k] - 1))
  }

  /** `permute_64b` */
  method Permute64b(input: bv64, pattern: seq<int>) returns (out: bv64)
    requires |pattern| <= 64 && forall i | 0 <= i < |pattern| :: 1 <= pattern[i] <= 64
    ensures Permuted(out, input, pattern)
  {
    hide Bit, BitSet;
    out := 0;
    forall k: nat ensures !Bit(0, k) { BitZero(k); }
    for n := 0 to |pattern|
      invariant forall k: nat | k < 64 :: Bit(out, k) == (k < n && Bit(input, pattern[k] - 1))
    {
      var m := pattern[n] - 1;
      var bitVal := BitGet(input, m);
      forall k: nat | k < 64
        ensures Bit(BitSet(out, n, bitVal), k) <==> if k == n then bitVal == 1 else Bit(out, k)
      {
        BitSetBits(out, n, bitVal, k);
      }
      out := BitSet(out, n, bitVal);
    }
  }

  // ---- Loading the key ----

  /** `reflect_tab` */
  function ReflectTab(n: bv8): bv8 {
    if n == 0 then 0 else if n == 1 then 8 else if n == 2 then 4 else if n == 3 then 12
    else if n == 4 then 2 else if n == 5 then 10 else if n == 6 then 6 else if n == 7 then 14
    else if n == 8 then 1 else if n == 9 then 9 else if n == 10 then 5 else if n == 11 then 13
    else if n == 12 then 3 else if n == 13 then 11 else if n == 14 then 7 else 15
  }

  /** `reflect_8b` */
  function Reflect8b(b: bv8): bv8 {
    ReflectTab(b >> 4) | (ReflectTab(b & 15) << 4)
  }

  lemma ReflectBit(b: bv8, j: nat)
    requires j < 8
    ensures ByteBit(Reflect8b(b), j) <==> ByteBit(b, 7 - j)
  {
  }

  /** `load64_reflect` */
  function Load64Reflect(key: seq<bv8>): bv64
    requires |key| == 8
  {
    Or64(Or64(Or64(Or64(Or64(Or64(Or64(
      Loaded(key, 0), Loaded(key, 1)), Loaded(key, 2)), Loaded(key, 3)),
      Loaded(key, 4)), Loaded(key, 5)), Loaded(key, 6)), Loaded(key, 7))
  }

  function Loaded(key: seq<bv8>, i: nat): bv64
    requires i < |key| == 8
  {
    ShiftLeft64(Wide(Reflect8b(key[i])), 8 * i)
  }

  /** Bit k of the key in the numbering of FIPS 46-3: from 1, the most significant bit of a byte first. */
  predicate KeyBit(key: seq<bv8>, k: int)
    requires |key| == 8 && 1 <= k <= 64
  {
    Bit(Wide(key[(k - 1) / 8]), 7 - (k - 1) % 8)
  }

  lemma LoadedBit(key: seq<bv8>, i: nat, k: nat)
    requires i < |key| == 8 && k < 64
    ensures Bit(Loaded(key, i), k) <==> i == k / 8 && KeyBit(key, k + 1)
  {
    hide Bit, Reflect8b, ShiftLeft64, Ones, ByteBit, Wide;
    var b := Wide(Reflect8b(key[i]));
    BitShifted(b, 8 * i, k);
    if k >= 8 * i {
      var j := k - 8 * i;
      WideIsLow(Reflect8b(key[i]));
      BitAnd(b, Ones(8), j);
      BitOnes(8, j);
      if j < 8 {
        ReflectBit(key[i], j);
        WideBit(Reflect8b(key[i]), j);
        WideBit(key[i], 7 - j);
        assert i == k / 8 && j == k % 8;
      }
    }
  }

  /** The loaded word has key bit k as its bit k - 1. */
  lemma LoadBit(key: seq<bv8>, k: nat)
    requires |key| == 8 && k < 64
    ensures Bit(Load64Reflect(key), k) <==> KeyBit(key, k + 1)
  {
    hide Bit, Or64, Loaded, KeyBit;
    forall i: nat | i < 8
      ensures Bit(Loaded(key, i), k) <==> i == k / 8 && KeyBit(key, k + 1)
    {
      LoadedBit(key, i, k);
    }
    var w1 := Or64(Loaded(key, 0), Loaded(key, 1));
    var w2 := Or64(w1, Loaded(key, 2));
    var w3 := Or64(w2, Loaded(key, 3));
    var w4 := Or64(w3, Loaded(key, 4));
    var w5 := Or64(w4, Loaded(key, 5));
    var w6 := Or64(w5, Loaded(key, 6));
    BitOr(Loaded(key, 0), Loaded(key, 1), k);
    BitOr(w1, Loaded(key, 2), k);
    BitOr(w2, Loaded(key, 3), k);
    BitOr(w3, Loaded(key, 4), k);
    BitOr(w4, Loaded(key, 5), k);
    BitOr(w5, Loaded(key, 6), k);
    BitOr(w6, Loaded(key, 7), k);
  }

  // ---- rotate28 ----

  /** `rotate28` */
  function Rotate28(val: bv32, nshift: nat): bv32
    requires nshift <= 28
  {
    ((val >> nshift) & 0xfff_ffff) | ((val << (28 - nshift)) & 0xfff_ffff)
  }

  /** Its use in the schedule: a 64-bit variable truncated to 32 bits and widened again. */
  function Rotated(c: bv64, nshift: nat): bv64
    requires nshift <= 28
  {
    Rotate28((c & 0xffff_ffff) as bv32, nshift) as bv64
  }

  /** A word of 28 bits. */
  predicate Is28(c: bv64) {
    c & 0xfff_ffff == c
  }

  lemma RotateByOne(c: bv64)
    requires Is28(c)
    ensures Is28(Rotated(c, 1)) && Rotated(c, 1) == if Odd(c) then Or64(Half(c), 0x800_0000) else Half(c)
  {
  }

  function RotateOnce(c: bv64): bv64 {
    (c >> 1) | ((c & 1) << 27)
  }

  lemma RotatedForms(c: bv64)
    requires Is28(c)
    ensures Rotated(c, 1) == RotateOnce(c) && Rotated(c, 2) == (c >> 2) | ((c & 3) << 26)
  {
  }

  lemma RotateOnceTwice(c: bv64)
    requires Is28(c)
    ensures RotateOnce(RotateOnce(c)) == (c >> 2) | ((c & 3) << 26)
  {
  }

  lemma RotateByTwo(c: bv64)
    requires Is28(c)
    ensures Rotated(c, 2) == Rotated(Rotated(c, 1), 1)
  {
    hide Rotated, RotateOnce, Is28;
    RotateByOne(c);
    RotatedForms(c);
    RotatedForms(Rotated(c, 1));
    RotateOnceTwice(c);
  }

  lemma Bit27(k: nat)
    requires k < 64
    ensures Bit(0x800_0000, k) <==> k == 27
  {
    hide Bit;
    assert ShiftLeft64(1, 9) == 0x200;
    assert ShiftLeft64(1, 18) == 0x4_0000;
    assert ShiftLeft64(1, 27) == 0x800_0000;
    BitShifted(1, 27, k);
    if k >= 27 {
      BitOne(k - 27);
    }
  }

  /** Being 28 bits wide, in terms of bits. */
  lemma Is28Bits(c: bv64)
    ensures Is28(c) <==> And64(c, Ones(28)) == c
  {
    hide Ones;
    OnesAre();
  }

  lemma NoHighBits(c: bv64, k: nat)
    requires Is28(c) && 28 <= k < 64
    ensures !Bit(c, k)
  {
    hide Bit, And64, Ones, Is28;
    Is28Bits(c);
    BitAnd(c, Ones(28), k);
    BitOnes(28, k);
  }

  lemma HighBitsClear(c: bv64)
    requires forall k: nat | 28 <= k < 64 :: !Bit(c, k)
    ensures Is28(c)
  {
    hide Bit, And64, Ones, Is28;
    forall k: nat | k < 64
      ensures Bit(And64(c, Ones(28)), k) == Bit(c, k)
    {
      BitAnd(c, Ones(28), k);
      BitOnes(28, k);
    }
    SameBits(And64(c, Ones(28)), c);
    Is28Bits(c);
  }

  lemma RotatedOnceBit(c: bv64, k: nat)
    requires Is28(c) && k < 28
    ensures Bit(Rotated(c, 1), k) <==> Bit(c, (k + 1) % 28)
  {
    hide Bit, Half, Odd, Or64, Rotated, Is28;
    RotateByOne(c);
    BitNext(c, k + 1);
    BitNext(c, 0);
    if k == 27 {
      NoHighBits(c, 28);
    }
    if Odd(c) {
      BitOr(Half(c), 0x800_0000, k);
      Bit27(k);
    }
  }

  /** Rotating by 1 or 2 places moves each bit that many places down, round the 28. */
  lemma RotatedBit(c: bv64, n: nat, k: nat)
    requires Is28(c) && 1 <= n <= 2 && k < 28
    ensures Is28(Rotated(c, n)) && (Bit(Rotated(c, n), k) <==> Bit(c, (k + n) % 28))
  {
    hide Bit, Rotated, Is28;
    RotateByOne(c);
    RotatedOnceBit(c, k);
    if n == 2 {
      RotateByTwo(c);
      RotateByOne(Rotated(c, 1));
      RotatedOnceBit(Rotated(c, 1), k);
      RotatedOnceBit(c, (k + 1) % 28);
    }
  }

  // ---- expand_8x6_to_8x8 ----

  function Group(x: bv64, g: nat): bv64 {
    ShiftLeft64(And64(ShiftRight64(x, 6 * g), 63), 8 * g)
  }

  /** `expand_8x6_to_8x8` */
  function Expand8x6To8x8(x: bv64): bv64 {
    Or64(Or64(Or64(Or64(Or64(Or64(Or64(Group(x, 0), Group(x, 1)), Group(x, 2)), Group(x, 3)),
      Group(x, 4)), Group(x, 5)), Group(x, 6)), Group(x, 7))
  }

  lemma GroupBit(x: bv64, g: nat, k: nat)
    requires g < 8 && k < 64
    ensures Bit(Group(x, g), k) <==> g == k / 8 && k % 8 < 6 && Bit(x, 6 * g + k % 8)
  {
    hide Bit, And64, ShiftLeft64, ShiftRight64;
    var y := ShiftRight64(x, 6 * g);
    BitShifted(And64(y, 63), 8 * g, k);
    if k >= 8 * g {
      BitAnd(y, 63, k - 8 * g);
      Bits63(k - 8 * g);
      BitShiftedRight(x, 6 * g, k - 8 * g);
    }
  }

  /** Bit b of byte g is bit b of group g, for b < 6. */
  lemma ExpandBit(x: bv64, k: nat)
    requires k < 64
    ensures Bit(Expand8x6To8x8(x), k) <==> k % 8 < 6 && Bit(x, 6 * (k / 8) + k % 8)
  {
    hide Bit, Or64, Group;
    forall g: nat | g < 8
      ensures Bit(Group(x, g), k) <==> g == k / 8 && k % 8 < 6 && Bit(x, 6 * g + k % 8)
    {
      GroupBit(x, g, k);
    }
    var w1 := Or64(Group(x, 0), Group(x, 1));
    var w2 := Or64(w1, Group(x, 2));
    var w3 := Or64(w2, Group(x, 3));
    var w4 := Or64(w3, Group(x, 4));
    var w5 := Or64(w4, Group(x, 5));
    var w6 := Or64(w5, Group(x, 6));
    BitOr(Group(x, 0), Group(x, 1), k);
    BitOr(w1, Group(x, 2), k);
    BitOr(w2, Group(x, 3), k);
    BitOr(w3, Group(x, 4), k);
    BitOr(w4, Group(x, 5), k);
    BitOr(w5, Group(x, 6), k);
    BitOr(w6, Group(x, 7), k);
  }

  // ---- The tables ----

  /** A key bit that is not a parity bit. */
  type KeyBitNumber = k: int | 1 <= k <= 64 && k % 8 != 0 witness 1
  type PairBitNumber = k: int | 1 <= k <= 56 witness 1
  type Places = n: int | 1 <= n <= 2 witness 1

  type HalfTable = s: seq<KeyBitNumber> | |s| == 28 witness seq(28, _ => 1)
  type PairTable = s: seq<PairBitNumber> | |s| == 48 witness seq(48, _ => 1)
  type ShiftTable = s: seq<Places> | |s| == 16 witness seq(16, _ => 1)

  /** `pc1c_table_fips46_3` */
  const PC1C: HalfTable := [
    57, 49, 41, 33, 25, 17, 9, 1, 58, 50, 42, 34, 26, 18,
    10, 2, 59, 51, 43, 35, 27, 19, 11, 3, 60, 52, 44, 36]

  /** `pc1d_table_fips46_3` */
  const PC1D: HalfTable := [
    63, 55, 47, 39, 31, 23, 15, 7, 62, 54, 46, 38, 30, 22,
    14, 6, 61, 53, 45, 37, 29, 21, 13, 5, 28, 20, 12, 4]

  /** `pc2_table_fips46_3` */
  const PC2: PairTable := [
    14, 17, 11, 24, 1, 5, 3, 28, 15, 6, 21, 10, 23, 19, 12, 4, 26, 8, 16, 7, 27, 20, 13, 2] + [
    41, 52, 31, 37, 47, 55, 30, 40, 51, 45, 33, 48, 44, 49, 39, 56, 34, 53, 46, 42, 50, 36, 29, 32]

  /** `shift_tab_fips46_3` */
  const SHIFTS: ShiftTable := [1, 1, 2, 2, 2, 2, 2, 2, 1, 2, 2, 2, 2, 2, 2, 1]

  /** The places rotated in the first n rounds. */
  function Total(n: nat): (t: nat)
    requires n <= 16
    ensures n <= t
  {
    if n == 0 then 0 else Total(n - 1) + SHIFTS[n - 1]
  }

  // ---- The schedule ----

  /** The key bit that is bit j of the 48 selected in round n. */
  function Source(n: nat, j: nat): KeyBitNumber
    requires n < 16 && j < 48
  {
    var q: int := PC2[j];
    if q <= 28 then PC1C[(q - 1 + Total(n + 1)) % 28] else PC1D[(q - 29 + Total(n + 1)) % 28]
  }

  /** Bit b of byte g of a schedule word is a key bit for b < 6, and clear for the other two. */
  ghost predicate IsScheduleWord(key: seq<bv8>, n: nat, k: bv64)
    requires |key| == 8 && n < 16
  {
    forall i: nat | i < 64 :: Bit(k, i) == (i % 8 < 6 && KeyBit(key, Source(n, 6 * (i / 8) + i % 8)))
  }

  ghost predicate IsSchedule(key: seq<bv8>, ks: seq<bv64>)
    requires |key| == 8
  {
    |ks| == 16 && forall n: nat | n < 16 :: IsScheduleWord(key, n, ks[n])
  }

  /** A half of the key after rotations by t places in all. */
  ghost predicate IsHalf(key: seq<bv8>, table: HalfTable, t: nat, c: bv64)
    requires |key| == 8
  {
    Is28(c) && forall k: nat | k < 28 :: Bit(c, k) == KeyBit(key, table[(k + t) % 28])
  }

  lemma PermutedBit(out: bv64, input: bv64, pattern: seq<int>, k: nat)
    requires forall i | 0 <= i < |pattern| :: 1 <= pattern[i] <= 64
    requires Permuted(out, input, pattern) && k < 64
    ensures Bit(out, k) == (k < |pattern| && Bit(input, pattern[k] - 1))
  {
    hide Bit;
  }

  lemma FirstHalfBit(key: seq<bv8>, table: HalfTable, c: bv64, k: nat)
    requires |key| == 8 && Permuted(c, Load64Reflect(key), table) && k < 64
    ensures Bit(c, k) == (k < 28 && KeyBit(key, table[k]))
  {
    hide Bit, Load64Reflect, KeyBit, Permuted;
    PermutedBit(c, Load64Reflect(key), table, k);
    if k < 28 {
      var m: int := table[k];
      LoadBit(key, m - 1);
    }
  }

  lemma FirstHalf(key: seq<bv8>, table: HalfTable, c: bv64)
    requires |key| == 8 && Permuted(c, Load64Reflect(key), table)
    ensures IsHalf(key, table, 0, c)
  {
    hide Bit, Is28, Load64Reflect, KeyBit, Permuted;
    forall k: nat | 28 <= k < 64
      ensures !Bit(c, k)
    {
      FirstHalfBit(key, table, c, k);
    }
    HighBitsClear(c);
    forall k: nat | k < 28
      ensures Bit(c, k) == KeyBit(key, table[(k + 0) % 28])
    {
      FirstHalfBit(key, table, c, k);
      assert (k + 0) % 28 == k;
    }
  }

  lemma TurnOn(k: nat, s: nat, t: nat)
    ensures ((k + s) % 28 + t) % 28 == (k + (t + s)) % 28
  {
  }

  lemma NextHalf(key: seq<bv8>, table: HalfTable, t: nat, c: bv64, n: nat)
    requires |key| == 8 && IsHalf(key, table, t, c) && 1 <= n <= 2
    ensures IsHalf(key, table, t + n, Rotated(c, n))
  {
    hide Bit, Is28, Rotated, KeyBit;
    forall k: nat | k < 28
      ensures Is28(Rotated(c, n)) && Bit(Rotated(c, n), k) == KeyBit(key, table[(k + (t + n)) % 28])
    {
      RotatedBit(c, n, k);
      TurnOn(k, n, t);
    }
    RotatedBit(c, n, 0);
  }

  lemma PairBit(c: bv64, d: bv64, q: nat)
    requires Is28(c) && q < 56
    ensures Bit(Or64(c, ShiftLeft64(d, 28)), q) <==> if q < 28 then Bit(c, q) else Bit(d, q - 28)
  {
    hide Bit, Or64, ShiftLeft64, Is28;
    BitOr(c, ShiftLeft64(d, 28), q);
    BitShifted(d, 28, q);
    if q >= 28 {
      NoHighBits(c, q);
    }
  }

  lemma HalfBit(key: seq<bv8>, table: HalfTable, t: nat, c: bv64, k: nat)
    requires |key| == 8 && IsHalf(key, table, t, c) && k < 28
    ensures Is28(c) && Bit(c, k) == KeyBit(key, table[(k + t) % 28])
  {
    hide Bit, Is28, KeyBit;
  }

  lemma ScheduleBit(key: seq<bv8>, n: nat, c: bv64, d: bv64, t: bv64, j: nat)
    requires |key| == 8 && n < 16 && j < 48
    requires IsHalf(key, PC1C, Total(n + 1), c) && IsHalf(key, PC1D, Total(n + 1), d)
    requires Permuted(t, Or64(c, ShiftLeft64(d, 28)), PC2)
    ensures Bit(t, j) == KeyBit(key, Source(n, j))
  {
    hide Bit, Or64, ShiftLeft64, Is28, KeyBit, Permuted, IsHalf, Total, PC1C, PC1D, PC2;
    PermutedBit(t, Or64(c, ShiftLeft64(d, 28)), PC2, j);
    var q: int := PC2[j];
    HalfBit(key, PC1C, Total(n + 1), c, 0);
    PairBit(c, d, q - 1);
    if q <= 28 {
      HalfBit(key, PC1C, Total(n + 1), c, q - 1);
    } else {
      HalfBit(key, PC1D, Total(n + 1), d, q - 29);
    }
  }

  lemma ScheduleWord(key: seq<bv8>, n: nat, c: bv64, d: bv64, t: bv64)
    requires |key| == 8 && n < 16
    requires IsHalf(key, PC1C, Total(n + 1), c) && IsHalf(key, PC1D, Total(n + 1), d)
    requires Permuted(t, Or64(c, ShiftLeft64(d, 28)), PC2)
    ensures IsScheduleWord(key, n, Expand8x6To8x8(t))
  {
    hide Bit, Or64, ShiftLeft64, KeyBit, Expand8x6To8x8, Source, IsHalf, Permuted;
    forall i: nat | i < 64
      ensures Bit(Expand8x6To8x8(t), i) == (i % 8 < 6 && KeyBit(key, Source(n, 6 * (i / 8) + i % 8)))
    {
      ExpandBit(t, i);
      if i % 8 < 6 {
        ScheduleBit(key, n, c, d, t, 6 * (i / 8) + i % 8);
      }
    }
  }

  /** `des_key_schedule` */
  method DesKeySchedule(ks: array<bv64>, key: seq<bv8>)
    requires |key| == 8 && ks.Length >= 16
    modifies ks
    ensures IsSchedule(key, ks[..16])
    ensures ks[16..] == old(ks[16..])
  {
    hide Bit, KeyBit, IsHalf, Permuted, IsScheduleWord, Total, PC1C, PC1D, PC2, SHIFTS;
    hide Or64, ShiftLeft64, Rotated, Load64Reflect, Expand8x6To8x8;
    var t := Load64Reflect(key);
    var c := Permute64b(t, PC1C);
    var d := Permute64b(t, PC1D);
    FirstHalf(key, PC1C, c);
    FirstHalf(key, PC1D, d);
    NoTotal();
    for n := 0 to 16
      invariant IsHalf(key, PC1C, Total(n), c) && IsHalf(key, PC1D, Total(n), d)
      invariant forall m: nat | m < n :: IsScheduleWord(key, m, ks[m])
      invariant ks[16..] == old(ks[16..])
    {
      NextTotal(n);
      NextHalf(key, PC1C, Total(n), c, SHIFTS[n]);
      NextHalf(key, PC1D, Total(n), d, SHIFTS[n]);
      c := Rotated(c, SHIFTS[n]);
      d := Rotated(d, SHIFTS[n]);
      t := Permute64b(Or64(c, ShiftLeft64(d, 28)), PC2);
      ScheduleWord(key, n, c, d, t);
      ks[n] := Expand8x6To8x8(t);
    }
  }

  lemma NoTotal()
    ensures Total(0) == 0
  {
  }

  lemma NextTotal(n: nat)
    requires n < 16
    ensures 1 <= SHIFTS[n] <= 2 && Total(n + 1) == Total(n) + SHIFTS[n]
  {
  }

  // ---- The rotations cancel ----

  /** A half after n rounds. */
  function AfterRounds(c: bv64, n: nat): bv64
    requires n <= 16
  {
    if n == 0 then c else Rotated(AfterRounds(c, n - 1), SHIFTS[n - 1])
  }

  lemma {:induction false} AfterRoundsBit(c: bv64, n: nat, k: nat)
    requires Is28(c) && n <= 16 && k < 28
    ensures Is28(AfterRounds(c, n)) && (Bit(AfterRounds(c, n), k) <==> Bit(c, (k + Total(n)) % 28))
  {
    hide Bit, Is28, Rotated, SHIFTS, Total;
    NoTotal();
    if n > 0 {
      var s: int := SHIFTS[n - 1];
      NextTotal(n - 1);
      AfterRoundsBit(c, n - 1, (k + s) % 28);
      RotatedBit(AfterRounds(c, n - 1), s, k);
      TurnOn(k, s, Total(n - 1));
    }
  }

  lemma ShiftsAre()
    ensures SHIFTS[0] == SHIFTS[1] == SHIFTS[8] == SHIFTS[15] == 1
    ensures SHIFTS[2] == SHIFTS[3] == SHIFTS[4] == SHIFTS[5] == SHIFTS[6] == SHIFTS[7] == 2
    ensures SHIFTS[9] == SHIFTS[10] == SHIFTS[11] == SHIFTS[12] == SHIFTS[13] == SHIFTS[14] == 2
  {
  }

  lemma TotalIs28()
    ensures Total(16) == 28
  {
    hide SHIFTS;
    ShiftsAre();
    assert Total(6) == 10;
    assert Total(11) == 19;
  }

  /** The sixteen rotations make one full turn. */
  lemma FullTurn(c: bv64)
    requires Is28(c)
    ensures Total(16) == 28 && AfterRounds(c, 16) == c
  {
    hide Bit, Is28, AfterRounds, Total;
    TotalIs28();
    forall k: nat | k < 64
      ensures Bit(AfterRounds(c, 16), k) == Bit(c, k)
    {
      if k < 28 {
        AfterRoundsBit(c, 16, k);
      } else {
        AfterRoundsBit(c, 16, 0);
        NoHighBits(c, k);
        NoHighBits(AfterRounds(c, 16), k);
      }
    }
    SameBits(AfterRounds(c, 16), c);
  }

  // ---- What the schedule depends on ----

  /** The schedule is a function of the key, and of its 56 non-parity bits only. */
  lemma ParityIsIgnored(key: seq<bv8>, key': seq<bv8>, ks: seq<bv64>, ks': seq<bv64>)
    requires |key| == |key'| == 8 && IsSchedule(key, ks) && IsSchedule(key', ks')
    requires forall k: KeyBitNumber :: KeyBit(key, k) == KeyBit(key', k)
    ensures ks == ks'
  {
    hide Bit, KeyBit, Source;
    forall n: nat | n < 16
      ensures ks[n] == ks'[n]
    {
      assert IsScheduleWord(key, n, ks[n]) && IsScheduleWord(key', n, ks'[n]);
      SameBits(ks[n], ks'[n]);
    }
  }

  function FlipKeyBytes(key: seq<bv8>): (r: seq<bv8>)
    ensures |r| == |key|
  {
    seq(|key|, i requires 0 <= i < |key| => NotByte(key[i]))
  }

  function NotByte(b: bv8): bv8 { !b }

  lemma NotByteBit(b: bv8, j: nat)
    requires j < 8
    ensures ByteBit(NotByte(b), j) <==> !ByteBit(b, j)
  {
  }

  lemma FlippedKeyBit(key: seq<bv8>, k: int)
    requires |key| == 8 && 1 <= k <= 64
    ensures KeyBit(FlipKeyBytes(key), k) <==> !KeyBit(key, k)
  {
    hide Bit, Wide, ByteBit, NotByte;
    var b, j := key[(k - 1) / 8], 7 - (k - 1) % 8;
    WideBit(b, j);
    WideBit(NotByte(b), j);
    NotByteBit(b, j);
  }

  lemma FlipKeyBit(k: bv64, i: nat)
    requires i < 64
    ensures Bit(FlipKey(k), i) <==> Bit(k, i) != (i % 8 < 6)
  {
    hide Bit, Xor64, Sixes, SIX_OF_EIGHT;
    SixesAre();
    BitXor(k, SIX_OF_EIGHT, i);
    SixesBit(8, i);
  }

  /** Complementing the key flips the six bits in use of every schedule byte, and nothing else. */
  lemma ScheduleComplement(key: seq<bv8>, ks: seq<bv64>, ks': seq<bv64>)
    requires |key| == 8 && IsSchedule(key, ks) && IsSchedule(FlipKeyBytes(key), ks')
    ensures ks' == FlipKeys(ks)
  {
    hide Bit, KeyBit, Source, FlipKey;
    forall n: nat | n < 16
      ensures ks'[n] == FlipKey(ks[n])
    {
      assert IsScheduleWord(key, n, ks[n]) && IsScheduleWord(FlipKeyBytes(key), n, ks'[n]);
      forall i: nat | i < 64
        ensures Bit(ks'[n], i) == Bit(FlipKey(ks[n]), i)
      {
        FlipKeyBit(ks[n], i);
        if i % 8 < 6 {
          FlippedKeyBit(key, Source(n, 6 * (i / 8) + i % 8));
        }
      }
      SameBits(ks'[n], FlipKey(ks[n]));
    }
  }

  /** The complementation property of DES, from key bytes to block: a complemented key and block give the
      complemented result, for any S-boxes and in both directions. */
  lemma DesComplementation(sb: SBoxes, key: seq<bv8>, ks: seq<bv64>, ks': seq<bv64>, data: Double, enc: bool)
    requires |key| == 8 && IsSchedule(key, ks) && IsSchedule(FlipKeyBytes(key), ks')
    ensures Block(FRK(sb), ks', Complement(data), enc) == Complement(Block(FRK(sb), ks, data, enc))
  {
    hide Block, FRK, IsSchedule, Complement;
    ScheduleComplement(key, ks, ks');
    BlockComplement(sb, ks, data, enc);
  }

  /** A key whose halves are each all zeros or all ones makes encryption its own inverse. */
  lemma WeakKey(f: RoundFunction, key: seq<bv8>, ks: seq<bv64>, c: bool, d: bool, data: Double)
    requires |key| == 8 && IsSchedule(key, ks)
    requires forall i: nat | i < 28 :: KeyBit(key, PC1C[i]) == c && KeyBit(key, PC1D[i]) == d
    ensures Block(f, ks, Block(f, ks, data, true), true) == data
  {
    hide Bit, KeyBit, Block, PC1C, PC1D, PC2, SHIFTS, Total;
    forall n: nat | n < 16
      ensures ks[n] == ks[15 - n]
    {
      assert IsScheduleWord(key, n, ks[n]) && IsScheduleWord(key, 15 - n, ks[15 - n]);
      SameBits(ks[n], ks[15 - n]);
    }
    PalindromicSchedule(f, ks, data);
  }
}
