/** The DES block cipher of lib/des_basic.c: delta-swap permutations around sixteen Feistel rounds,
    for any S-box tables and any key schedule. */
module DesBlock {
  import opened Words
  import opened Bits
  import opened Bits32

  /** The round function of one key schedule word. */
  type RoundFunction = (bv32, bv64) -> bv32

  // ---- Permutations ----

  /** `permute_operation`: the bits of b under the mask m exchanged with the bits of a n places up. */
  function DeltaSwap(a: bv32, b: bv32, n: nat, m: bv32): (bv32, bv32) {
    var t := And32(Xor(b, Shr32(a, n)), m);
    (Xor(a, Shl32(t, n)), Xor(b, t))
  }

  /** `ip_z(pl, pr)`, as the new pair (l, r) */
  function IpZ(l0: bv32, r0: bv32): (bv32, bv32) {
    var (r1, l1) := DeltaSwap(r0, l0, 4, 0x0f0f0f0f);
    var (l2, r2) := DeltaSwap(l1, r1, 16, 0x0000ffff);
    var (r3, l3) := DeltaSwap(r2, l2, 2, 0x33333333);
    var (l4, r4) := DeltaSwap(l3, r3, 8, 0x00ff00ff);
    var (r5, l5) := DeltaSwap(r4, l4, 1, 0x55555555);
    (l5, r5)
  }

  /** `fp_z(pl, pr)`, as the new pair (l, r) */
  function FpZ(l0: bv32, r0: bv32): (bv32, bv32) {
    var (l1, r1) := DeltaSwap(l0, r0, 1, 0x55555555);
    var (r2, l2) := DeltaSwap(r1, l1, 8, 0x00ff00ff);
    var (l3, r3) := DeltaSwap(l2, r2, 2, 0x33333333);
    var (r4, l4) := DeltaSwap(r3, l3, 16, 0x0000ffff);
    var (l5, r5) := DeltaSwap(l4, r4, 4, 0x0f0f0f0f);
    (l5, r5)
  }

  // ---- What the delta swaps do ----

  /** Bit by bit, for any shift and mask. */
  lemma SwapBit(a: bv32, b: bv32, n: nat, m: bv32, k: nat)
    requires k < 32
    ensures var p := DeltaSwap(a, b, n, m);
            && (Bit32(p.0, k) <==> if k >= n && Bit32(m, k - n) then Bit32(b, k - n) else Bit32(a, k))
            && (Bit32(p.1, k) <==> if Bit32(m, k) then Bit32(a, k + n) else Bit32(b, k))
  {
    hide Bit32, Xor, And32, Shl32, Shr32;
    var t := And32(Xor(b, Shr32(a, n)), m);
    Xor32Bit(a, Shl32(t, n), k);
    Xor32Bit(b, t, k);
    ShlBit(t, n, k);
    TermBit(a, b, n, m, k);
    if k >= n {
      TermBit(a, b, n, m, k - n);
    }
  }

  lemma TermBit(a: bv32, b: bv32, n: nat, m: bv32, k: nat)
    ensures Bit32(And32(Xor(b, Shr32(a, n)), m), k) <==> Bit32(m, k) && Bit32(b, k) != Bit32(a, k + n)
  {
    hide Bit32, Xor, And32, Shr32;
    And32Bit(Xor(b, Shr32(a, n)), m, k);
    Xor32Bit(b, Shr32(a, n), k);
    ShrBit(a, n, k);
  }

  /** The mask has the bits k for which k / n is even. */
  ghost predicate IsMask(n: nat, m: bv32) {
    && (n == 1 || n == 2 || n == 4 || n == 8 || n == 16)
    && forall k: nat | k < 32 :: Bit32(m, k) <==> k / n % 2 == 0
  }

  lemma MaskBytes(k: nat)
    requires k < 32
    ensures WordByte(0x0f0f0f0f, 3 - k / 8) == 0x0f && WordByte(0x33333333, 3 - k / 8) == 0x33
    ensures WordByte(0x55555555, 3 - k / 8) == 0x55
    ensures WordByte(0x00ff00ff, 3 - k / 8) == if k / 8 % 2 == 0 then 0xff else 0
    ensures WordByte(0x0000ffff, 3 - k / 8) == if k / 16 % 2 == 0 then 0xff else 0
  {
  }

  lemma MaskBits(j: nat)
    requires j < 8
    ensures ByteBit(0x0f, j) <==> j / 4 % 2 == 0
    ensures ByteBit(0x33, j) <==> j / 2 % 2 == 0
    ensures ByteBit(0x55, j) <==> j % 2 == 0
    ensures ByteBit(0xff, j) && !ByteBit(0, j)
  {
  }

  lemma DivideBy4(n: nat, r: nat)
    ensures (4 * n + r) / 4 == n + r / 4
  {
  }

  lemma DivideBy2(n: nat, r: nat)
    ensures (2 * n + r) / 2 == n + r / 2 && (2 * n + r) % 2 == r % 2
  {
  }

  lemma PlaceInByte(k: nat)
    ensures k % 8 / 4 % 2 == k / 4 % 2 && k % 8 / 2 % 2 == k / 2 % 2 && k % 8 % 2 == k / 1 % 2
  {
    var q, r := k / 8, k % 8;
    assert k == 8 * q + r;
    DivideBy4(2 * q, r);
    DivideBy2(4 * q, r);
    DivideBy2(q, r / 4);
    DivideBy2(2 * q, r / 2);
  }

  /** The masks of `ip_z` and `fp_z`. */
  lemma Masks()
    ensures IsMask(1, 0x55555555) && IsMask(2, 0x33333333) && IsMask(4, 0x0f0f0f0f)
    ensures IsMask(8, 0x00ff00ff) && IsMask(16, 0x0000ffff)
  {
    hide Bit32, WordByte, ByteBit;
    forall k: nat | k < 32
      ensures Bit32(0x55555555, k) <==> k / 1 % 2 == 0
      ensures Bit32(0x33333333, k) <==> k / 2 % 2 == 0
      ensures Bit32(0x0f0f0f0f, k) <==> k / 4 % 2 == 0
      ensures Bit32(0x00ff00ff, k) <==> k / 8 % 2 == 0
      ensures Bit32(0x0000ffff, k) <==> k / 16 % 2 == 0
    {
      WordBit(0x55555555, k);
      WordBit(0x33333333, k);
      WordBit(0x0f0f0f0f, k);
      WordBit(0x00ff00ff, k);
      WordBit(0x0000ffff, k);
      MaskBytes(k);
      MaskBits(k % 8);
      PlaceInByte(k);
    }
  }

  /** With such a mask a swap exchanges the place of a bit, first or second word, with one binary digit of its
      number. */
  lemma StageBit(a: bv32, b: bv32, n: nat, m: bv32, k: nat)
    requires IsMask(n, m) && k < 32
    ensures var p := DeltaSwap(a, b, n, m);
            && (Bit32(p.0, k) <==> if k / n % 2 == 1 then Bit32(b, k - n) else Bit32(a, k))
            && (Bit32(p.1, k) <==> if k / n % 2 == 0 then Bit32(a, k + n) else Bit32(b, k))
  {
    hide Bit32, DeltaSwap;
    SwapBit(a, b, n, m, k);
    Neighbour(k, n);
  }

  lemma Neighbour(k: nat, n: nat)
    requires n == 1 || n == 2 || n == 4 || n == 8 || n == 16
    ensures k < n ==> k / n % 2 == 0
    ensures k >= n ==> (k / n % 2 == 1 <==> (k - n) / n % 2 == 0)
    ensures k < 32 && k / n % 2 == 0 ==> k + n < 32 && (k + n) / n % 2 == 1
  {
    Quotients(k, n);
    Parity(k / n);
    if k < 32 && k / n % 2 == 0 {
      Room(k, n);
    }
  }

  lemma Quotients(k: nat, n: nat)
    requires n == 1 || n == 2 || n == 4 || n == 8 || n == 16
    ensures k < n ==> k / n == 0
    ensures k >= n ==> (k - n) / n == k / n - 1
    ensures (k + n) / n == k / n + 1
  {
    if n == 1 {
    } else if n == 2 {
      var q, r := k / 2, k % 2;
      assert k - 2 == 2 * (q - 1) + r && k + 2 == 2 * (q + 1) + r;
    } else if n == 4 {
      var q, r := k / 4, k % 4;
      assert k - 4 == 4 * (q - 1) + r && k + 4 == 4 * (q + 1) + r;
    } else if n == 8 {
      var q, r := k / 8, k % 8;
      assert k - 8 == 8 * (q - 1) + r && k + 8 == 8 * (q + 1) + r;
    } else {
      var q, r := k / 16, k % 16;
      assert k - 16 == 16 * (q - 1) + r && k + 16 == 16 * (q + 1) + r;
    }
  }

  lemma Parity(q: nat)
    ensures (q + 1) % 2 == 1 - q % 2
    ensures q > 0 ==> (q - 1) % 2 == 1 - q % 2
  {
  }

  lemma Room(k: nat, n: nat)
    requires (n == 1 || n == 2 || n == 4 || n == 8 || n == 16) && k < 32 && k / n % 2 == 0
    ensures k + n < 32
  {
    if n == 1 {
      assert k != 31;
    } else if n == 2 {
      assert k / 2 != 15;
    } else if n == 4 {
      assert k / 4 != 7;
    } else if n == 8 {
      assert k / 8 != 3;
    } else {
      assert k / 16 != 1;
    }
  }

  /** Such a swap is its own inverse ... */
  lemma SwapTwice(a: bv32, b: bv32, n: nat, m: bv32)
    requires IsMask(n, m)
    ensures var p := DeltaSwap(a, b, n, m); DeltaSwap(p.0, p.1, n, m) == (a, b)
  {
    hide Bit32, DeltaSwap, IsMask;
    var (a', b') := DeltaSwap(a, b, n, m);
    var (a'', b'') := DeltaSwap(a', b', n, m);
    forall k: nat | k < 32
      ensures Bit32(a'', k) == Bit32(a, k) && Bit32(b'', k) == Bit32(b, k)
    {
      SwapTwiceBit(a, b, n, m, k);
    }
    SameBits32(a'', a);
    SameBits32(b'', b);
  }

  lemma SwapTwiceBit(a: bv32, b: bv32, n: nat, m: bv32, k: nat)
    requires IsMask(n, m) && k < 32
    ensures var p := DeltaSwap(a, b, n, m);
            var q := DeltaSwap(p.0, p.1, n, m);
            Bit32(q.0, k) == Bit32(a, k) && Bit32(q.1, k) == Bit32(b, k)
  {
    hide Bit32, DeltaSwap;
    var p := DeltaSwap(a, b, n, m);
    StageBit(p.0, p.1, n, m, k);
    StageBit(a, b, n, m, k);
    Neighbour(k, n);
    if k / n % 2 == 1 {
      StageBit(a, b, n, m, k - n);
    } else {
      StageBit(a, b, n, m, k + n);
    }
  }

  lemma NotBit(x: bv32, k: nat)
    requires k < 32
    ensures Bit32(Not(x), k) <==> !Bit32(x, k)
  {
    hide Bit32, Xor;
    NotIsXor(x);
    Xor32Bit(x, 0xffff_ffff, k);
    AllOnes(k);
  }

  lemma NotIsXor(x: bv32)
    ensures Not(x) == Xor(x, 0xffff_ffff)
  {
    assert Not(x) == !x;
    assert Xor(x, 0xffff_ffff) == x ^ 0xffff_ffff;
  }

  lemma AllOnes(k: nat)
    requires k < 32
    ensures Bit32(0xffff_ffff, k)
  {
    hide Bit;
    assert Wide32(0xffff_ffff) == 0xffff_ffff;
    Ones32(k);
  }

  /** ... and, whatever the mask, commutes with complementing both words. */
  lemma SwapComplement(a: bv32, b: bv32, n: nat, m: bv32)
    requires n <= 32 && (forall k: nat | k < 32 && Bit32(m, k) :: k + n < 32)
    ensures var p := DeltaSwap(a, b, n, m); DeltaSwap(Not(a), Not(b), n, m) == (Not(p.0), Not(p.1))
  {
    hide Bit32, DeltaSwap, Not;
    var p, q := DeltaSwap(a, b, n, m), DeltaSwap(Not(a), Not(b), n, m);
    forall k: nat | k < 32
      ensures Bit32(q.0, k) == Bit32(Not(p.0), k) && Bit32(q.1, k) == Bit32(Not(p.1), k)
    {
      SwapBit(a, b, n, m, k);
      SwapBit(Not(a), Not(b), n, m, k);
      NotBit(a, k);
      NotBit(b, k);
      NotBit(p.0, k);
      NotBit(p.1, k);
      if k >= n {
        NotBit(b, k - n);
      }
      if k + n < 32 {
        NotBit(a, k + n);
      }
    }
    SameBits32(q.0, Not(p.0));
    SameBits32(q.1, Not(p.1));
  }

  lemma MaskFits(n: nat, m: bv32)
    requires IsMask(n, m)
    ensures n <= 32 && forall k: nat | k < 32 && Bit32(m, k) :: k + n < 32
  {
    hide Bit32;
    forall k: nat | k < 32 && Bit32(m, k)
      ensures k + n < 32
    {
      Neighbour(k, n);
    }
  }

  /** Both laws. */
  lemma SwapLaws(a: bv32, b: bv32, n: nat, m: bv32)
    requires IsMask(n, m)
    ensures var p := DeltaSwap(a, b, n, m); DeltaSwap(p.0, p.1, n, m) == (a, b)
    ensures var p := DeltaSwap(a, b, n, m); DeltaSwap(Not(a), Not(b), n, m) == (Not(p.0), Not(p.1))
  {
    hide DeltaSwap, IsMask, Not;
    SwapTwice(a, b, n, m);
    MaskFits(n, m);
    SwapComplement(a, b, n, m);
  }

  /** `fp_z` with its arguments exchanged undoes `ip_z`. */
  lemma FpUndoesIp(l0: bv32, r0: bv32)
    ensures var p := IpZ(l0, r0); FpZ(p.1, p.0) == (r0, l0)
  {
    hide DeltaSwap, IsMask;
    Masks();
    var (r1, l1) := DeltaSwap(r0, l0, 4, 0x0f0f0f0f);
    var (l2, r2) := DeltaSwap(l1, r1, 16, 0x0000ffff);
    var (r3, l3) := DeltaSwap(r2, l2, 2, 0x33333333);
    var (l4, r4) := DeltaSwap(l3, r3, 8, 0x00ff00ff);
    SwapLaws(r0, l0, 4, 0x0f0f0f0f);
    SwapLaws(l1, r1, 16, 0x0000ffff);
    SwapLaws(r2, l2, 2, 0x33333333);
    SwapLaws(l3, r3, 8, 0x00ff00ff);
    SwapLaws(r4, l4, 1, 0x55555555);
  }

  /** ... and the other way round. */
  lemma IpUndoesFp(l0: bv32, r0: bv32)
    ensures var p := FpZ(l0, r0); IpZ(p.1, p.0) == (r0, l0)
  {
    hide DeltaSwap, IsMask;
    Masks();
    var (l1, r1) := DeltaSwap(l0, r0, 1, 0x55555555);
    var (r2, l2) := DeltaSwap(r1, l1, 8, 0x00ff00ff);
    var (l3, r3) := DeltaSwap(l2, r2, 2, 0x33333333);
    var (r4, l4) := DeltaSwap(r3, l3, 16, 0x0000ffff);
    SwapLaws(l0, r0, 1, 0x55555555);
    SwapLaws(r1, l1, 8, 0x00ff00ff);
    SwapLaws(l2, r2, 2, 0x33333333);
    SwapLaws(r3, l3, 16, 0x0000ffff);
    SwapLaws(l4, r4, 4, 0x0f0f0f0f);
  }

  lemma IpComplement(l0: bv32, r0: bv32)
    ensures IpZ(Not(l0), Not(r0)) == var p := IpZ(l0, r0); (Not(p.0), Not(p.1))
  {
    hide DeltaSwap, IsMask, Not;
    Masks();
    var (r1, l1) := DeltaSwap(r0, l0, 4, 0x0f0f0f0f);
    var (l2, r2) := DeltaSwap(l1, r1, 16, 0x0000ffff);
    var (r3, l3) := DeltaSwap(r2, l2, 2, 0x33333333);
    var (l4, r4) := DeltaSwap(l3, r3, 8, 0x00ff00ff);
    SwapLaws(r0, l0, 4, 0x0f0f0f0f);
    SwapLaws(l1, r1, 16, 0x0000ffff);
    SwapLaws(r2, l2, 2, 0x33333333);
    SwapLaws(l3, r3, 8, 0x00ff00ff);
    SwapLaws(r4, l4, 1, 0x55555555);
  }

  lemma FpComplement(l0: bv32, r0: bv32)
    ensures FpZ(Not(l0), Not(r0)) == var p := FpZ(l0, r0); (Not(p.0), Not(p.1))
  {
    hide DeltaSwap, IsMask, Not;
    Masks();
    var (l1, r1) := DeltaSwap(l0, r0, 1, 0x55555555);
    var (r2, l2) := DeltaSwap(r1, l1, 8, 0x00ff00ff);
    var (l3, r3) := DeltaSwap(l2, r2, 2, 0x33333333);
    var (r4, l4) := DeltaSwap(r3, l3, 16, 0x0000ffff);
    SwapLaws(l0, r0, 1, 0x55555555);
    SwapLaws(r1, l1, 8, 0x00ff00ff);
    SwapLaws(l2, r2, 2, 0x33333333);
    SwapLaws(r3, l3, 16, 0x0000ffff);
    SwapLaws(l4, r4, 4, 0x0f0f0f0f);
  }

  // ---- Rounds ----

  /** The halves after n rounds, the half that changes next first. */
  function Rounds(f: RoundFunction, ks: seq<bv64>, n: nat, l: bv32, r: bv32): (bv32, bv32)
    requires n <= |ks|
  {
    if n == 0 then (l, r) else var (a, b) := Rounds(f, ks, n - 1, l, r); (b, Xor(a, f(b, ks[n - 1])))
  }

  function Reversed(ks: seq<bv64>): (r: seq<bv64>)
    ensures |r| == |ks| && forall i | 0 <= i < |ks| :: r[i] == ks[|ks| - 1 - i]
  {
    seq(|ks|, i requires 0 <= i < |ks| => ks[|ks| - 1 - i])
  }

  /** The rounds with the keys in reverse order, from the halves exchanged, walk the rounds back. */
  lemma {:induction false} RoundsWalkBack(f: RoundFunction, ks: seq<bv64>, j: nat, l: bv32, r: bv32)
    requires j <= |ks|
    ensures var (a, b) := Rounds(f, ks, |ks|, l, r);
            var (x, y) := Rounds(f, ks, |ks| - j, l, r);
            Rounds(f, Reversed(ks), j, b, a) == (y, x)
  {
    hide Xor;
    if j > 0 {
      RoundsWalkBack(f, ks, j - 1, l, r);
      var (x, y) := Rounds(f, ks, |ks| - j, l, r);
      XorUndone(x, f(y, ks[|ks| - j]));
    }
  }

  lemma XorUndone(x: bv32, y: bv32)
    ensures Xor(Xor(x, y), y) == x
  {
  }

  // ---- The block ----

  /** `enc_dec_1`: the halves and their exchange are those of its pointers. */
  function Block(f: RoundFunction, ks: seq<bv64>, data: Double, enc: bool): Double {
    var (r0, l0) := IpZ(data.low, data.high);
    var (l, r) := Rounds(f, if enc then ks else Reversed(ks), |ks|, l0, r0);
    var (r', l') := FpZ(r, l);
    Double(r', l')
  }

  lemma {:induction false} ReversedTwice(ks: seq<bv64>)
    ensures Reversed(Reversed(ks)) == ks
  {
  }

  /** Decryption undoes encryption and encryption undoes decryption, for every round function and every
      key schedule of any length. */
  lemma BlockInverse(f: RoundFunction, ks: seq<bv64>, data: Double, enc: bool)
    ensures Block(f, ks, Block(f, ks, data, enc), !enc) == data
  {
    hide IpZ, FpZ, Xor;
    var keys := if enc then ks else Reversed(ks);
    ReversedTwice(ks);
    var (r0, l0) := IpZ(data.low, data.high);
    var (l, r) := Rounds(f, keys, |ks|, l0, r0);
    RoundsWalkBack(f, keys, |ks|, l0, r0);
    IpUndoesFp(r, l);
    FpUndoesIp(data.low, data.high);
  }

  /** With a schedule that reads the same in both directions, encryption is its own inverse. */
  lemma PalindromicSchedule(f: RoundFunction, ks: seq<bv64>, data: Double)
    requires forall i | 0 <= i < |ks| :: ks[i] == ks[|ks| - 1 - i]
    ensures Block(f, ks, Block(f, ks, data, true), true) == data
  {
    hide IpZ, FpZ, Rounds;
    assert Reversed(ks) == ks;
    BlockInverse(f, ks, data, true);
  }

  // ---- The code: sixteen steps on l and r ----

  lemma TwoRounds(f: RoundFunction, ks: seq<bv64>, n: nat, l0: bv32, r0: bv32, l: bv32, r: bv32)
    requires n + 2 <= |ks| && Rounds(f, ks, n, l0, r0) == (l, r)
    ensures var l' := Xor(l, f(r, ks[n])); Rounds(f, ks, n + 2, l0, r0) == (l', Xor(r, f(l', ks[n + 1])))
  {
    hide Xor;
    assert Rounds(f, ks, n + 1, l0, r0) == (r, Xor(l, f(r, ks[n])));
  }

  /** `enc_dec_1` */
  method EncDec1(f: RoundFunction, data: Double, ks: seq<bv64>, enc: bool) returns (out: Double)
    requires |ks| == 16
    ensures out == Block(f, ks, data, enc)
  {
    hide Xor, IpZ, FpZ, Rounds;
    var r, l := data.low, data.high;
    var p := IpZ(r, l);
    r, l := p.0, p.1;
    ghost var keys, l0, r0 := if enc then ks else Reversed(ks), l, r;
    assert Rounds(f, keys, 0, l0, r0) == (l, r) by { NoRounds(f, keys, l0, r0); }
    TwoRounds(f, keys, 0, l0, r0, l, r);
    if enc {
      l := Xor(l, f(r, ks[0]));
      r := Xor(r, f(l, ks[1]));
      TwoRounds(f, keys, 2, l0, r0, l, r);
      l := Xor(l, f(r, ks[2]));
      r := Xor(r, f(l, ks[3]));
      TwoRounds(f, keys, 4, l0, r0, l, r);
      l := Xor(l, f(r, ks[4]));
      r := Xor(r, f(l, ks[5]));
      TwoRounds(f, keys, 6, l0, r0, l, r);
      l := Xor(l, f(r, ks[6]));
      r := Xor(r, f(l, ks[7]));
      TwoRounds(f, keys, 8, l0, r0, l, r);
      l := Xor(l, f(r, ks[8]));
      r := Xor(r, f(l, ks[9]));
      TwoRounds(f, keys, 10, l0, r0, l, r);
      l := Xor(l, f(r, ks[10]));
      r := Xor(r, f(l, ks[11]));
      TwoRounds(f, keys, 12, l0, r0, l, r);
      l := Xor(l, f(r, ks[12]));
      r := Xor(r, f(l, ks[13]));
      TwoRounds(f, keys, 14, l0, r0, l, r);
      l := Xor(l, f(r, ks[14]));
      r := Xor(r, f(l, ks[15]));
    } else {
      l := Xor(l, f(r, ks[15]));
      r := Xor(r, f(l, ks[14]));
      TwoRounds(f, keys, 2, l0, r0, l, r);
      l := Xor(l, f(r, ks[13]));
      r := Xor(r, f(l, ks[12]));
      TwoRounds(f, keys, 4, l0, r0, l, r);
      l := Xor(l, f(r, ks[11]));
      r := Xor(r, f(l, ks[10]));
      TwoRounds(f, keys, 6, l0, r0, l, r);
      l := Xor(l, f(r, ks[9]));
      r := Xor(r, f(l, ks[8]));
      TwoRounds(f, keys, 8, l0, r0, l, r);
      l := Xor(l, f(r, ks[7]));
      r := Xor(r, f(l, ks[6]));
      TwoRounds(f, keys, 10, l0, r0, l, r);
      l := Xor(l, f(r, ks[5]));
      r := Xor(r, f(l, ks[4]));
      TwoRounds(f, keys, 12, l0, r0, l, r);
      l := Xor(l, f(r, ks[3]));
      r := Xor(r, f(l, ks[2]));
      TwoRounds(f, keys, 14, l0, r0, l, r);
      l := Xor(l, f(r, ks[1]));
      r := Xor(r, f(l, ks[0]));
    }
    p := FpZ(r, l);
    r, l := p.0, p.1;
    out := Double(r, l);
  }

  lemma NoRounds(f: RoundFunction, ks: seq<bv64>, l: bv32, r: bv32)
    ensures Rounds(f, ks, 0, l, r) == (l, r)
  {
  }

  // ---- The round function, and complements ----

  /** The eight combined S-box and P tables, by number. */
  type SBoxes = (nat, bv6) -> bv32

  /** `e_phase`: 32 bits as eight groups of six, one to a byte. */
  function EPhase(half: bv32): bv64 {
    var R := Wide32(half);
    Or64(Or64(Or64(Or64(Or64(Or64(Or64(Or64(Or64(
      And64(ShiftLeft64(R, 1), 0x3e), And64(ShiftRight64(R, 31), 1)),
      And64(ShiftLeft64(R, 5), 0x3f00)), And64(ShiftLeft64(R, 9), 0x3f_0000)),
      And64(ShiftLeft64(R, 13), 0x3f00_0000)), And64(ShiftLeft64(R, 17), 0x3f_0000_0000)),
      And64(ShiftLeft64(R, 21), 0x3f00_0000_0000)), And64(ShiftLeft64(R, 25), 0x3f_0000_0000_0000)),
      And64(ShiftLeft64(R, 29), 0x1f00_0000_0000_0000)), ShiftLeft64(And64(R, 1), 61))
  }

  /** Six bits from bit 8g on. */
  function SixMask(g: nat): bv64
    requires g < 7
  {
    if g == 0 then 0x3f else if g == 1 then 0x3f00 else if g == 2 then 0x3f_0000 else if g == 3 then 0x3f00_0000
    else if g == 4 then 0x3f_0000_0000 else if g == 5 then 0x3f00_0000_0000 else 0x3f_0000_0000_0000
  }

  /** Five bits from bit 8g on. */
  function FiveMask(g: nat): bv64
    requires g < 8
  {
    if g == 0 then 0x1f else if g == 1 then 0x1f00 else if g == 2 then 0x1f_0000 else if g == 3 then 0x1f00_0000
    else if g == 4 then 0x1f_0000_0000 else if g == 5 then 0x1f00_0000_0000 else if g == 6 then 0x1f_0000_0000_0000
    else 0x1f00_0000_0000_0000
  }

  lemma SixMasks()
    ensures forall g: nat | g < 6 :: SixMask(g + 1) == ShiftLeft64(SixMask(g), 8)
  {
    forall g: nat | g < 6
      ensures SixMask(g + 1) == ShiftLeft64(SixMask(g), 8)
    {
      if g == 0 { assert ShiftLeft64(0x3f, 8) == 0x3f00; }
      if g == 1 { assert ShiftLeft64(0x3f00, 8) == 0x3f_0000; }
      if g == 2 { assert ShiftLeft64(0x3f_0000, 8) == 0x3f00_0000; }
      if g == 3 { assert ShiftLeft64(0x3f00_0000, 8) == 0x3f_0000_0000; }
      if g == 4 { assert ShiftLeft64(0x3f_0000_0000, 8) == 0x3f00_0000_0000; }
      if g == 5 { assert ShiftLeft64(0x3f00_0000_0000, 8) == 0x3f_0000_0000_0000; }
    }
  }

  lemma FiveMasks()
    ensures forall g: nat | g < 7 :: FiveMask(g + 1) == ShiftLeft64(FiveMask(g), 8)
  {
    forall g: nat | g < 7
      ensures FiveMask(g + 1) == ShiftLeft64(FiveMask(g), 8)
    {
      if g == 0 { assert ShiftLeft64(0x1f, 8) == 0x1f00; }
      if g == 1 { assert ShiftLeft64(0x1f00, 8) == 0x1f_0000; }
      if g == 2 { assert ShiftLeft64(0x1f_0000, 8) == 0x1f00_0000; }
      if g == 3 { assert ShiftLeft64(0x1f00_0000, 8) == 0x1f_0000_0000; }
      if g == 4 { assert ShiftLeft64(0x1f_0000_0000, 8) == 0x1f00_0000_0000; }
      if g == 5 { assert ShiftLeft64(0x1f00_0000_0000, 8) == 0x1f_0000_0000_0000; }
      if g == 6 { assert ShiftLeft64(0x1f_0000_0000_0000, 8) == 0x1f00_0000_0000_0000; }
    }
  }

  lemma {:induction false} SixMaskBit(g: nat, k: nat)
    requires g < 7 && k < 64
    ensures Bit(SixMask(g), k) <==> 8 * g <= k < 8 * g + 6
    decreases g
  {
    hide Bit, ShiftLeft64;
    if g == 0 {
      Bits63(k);
    } else {
      hide SixMask;
      SixMasks();
      BitShifted(SixMask(g - 1), 8, k);
      if k >= 8 {
        SixMaskBit(g - 1, k - 8);
      }
    }
  }

  lemma {:induction false} FiveMaskBit(g: nat, k: nat)
    requires g < 8 && k < 64
    ensures Bit(FiveMask(g), k) <==> 8 * g <= k < 8 * g + 5
    decreases g
  {
    hide Bit, ShiftLeft64;
    if g == 0 {
      assert Ones(5) == 0x1f;
      BitOnes(5, k);
    } else {
      hide FiveMask;
      FiveMasks();
      BitShifted(FiveMask(g - 1), 8, k);
      if k >= 8 {
        FiveMaskBit(g - 1, k - 8);
      }
    }
  }

  lemma Bits62(k: nat)
    requires k < 64
    ensures Bit(0x3e, k) <==> 1 <= k < 6
  {
    hide Bit;
    assert Ones(5) == 0x1f;
    assert ShiftLeft64(0x1f, 1) == 0x3e;
    BitShifted(0x1f, 1, k);
    if k >= 1 {
      BitOnes(5, k - 1);
    }
  }

  /** The bit of the half that bit k of the expansion is: group k / 8 holds six consecutive bits, cyclically,
      from the bit before bit 4 * (k / 8) on. */
  function ESource(k: nat): nat {
    (4 * (k / 8) + k % 8 + 31) % 32
  }

  /** A group in the middle. */
  lemma MiddleGroup(half: bv32, g: nat, k: nat)
    requires 1 <= g <= 6 && k < 64
    ensures Bit(And64(ShiftLeft64(Wide32(half), 4 * g + 1), SixMask(g)), k)
       <==> g == k / 8 && k % 8 < 6 && Bit32(half, ESource(k))
  {
    hide Bit, And64, ShiftLeft64, SixMask, Wide32;
    BitAnd(ShiftLeft64(Wide32(half), 4 * g + 1), SixMask(g), k);
    SixMaskBit(g, k);
    BitShifted(Wide32(half), 4 * g + 1, k);
    if 8 * g <= k < 8 * g + 6 {
      assert k / 8 == g && k % 8 == k - 8 * g;
      assert ESource(k) == k - (4 * g + 1);
    }
  }

  /** The first group, which begins with the last bit. */
  lemma FirstGroup(half: bv32, k: nat)
    requires k < 64
    ensures Bit(Or64(And64(ShiftLeft64(Wide32(half), 1), 0x3e), And64(ShiftRight64(Wide32(half), 31), 1)), k)
       <==> 0 == k / 8 && k % 8 < 6 && Bit32(half, ESource(k))
  {
    hide Bit, And64, Or64, ShiftLeft64, ShiftRight64, Wide32;
    var R := Wide32(half);
    BitOr(And64(ShiftLeft64(R, 1), 0x3e), And64(ShiftRight64(R, 31), 1), k);
    BitAnd(ShiftLeft64(R, 1), 0x3e, k);
    BitAnd(ShiftRight64(R, 31), 1, k);
    Bits62(k);
    BitOne(k);
    BitShifted(R, 1, k);
    BitShiftedRight(R, 31, k);
  }

  /** The last group, which ends with the first bit. */
  lemma LastGroup(half: bv32, k: nat)
    requires k < 64
    ensures Bit(Or64(And64(ShiftLeft64(Wide32(half), 29), FiveMask(7)), ShiftLeft64(And64(Wide32(half), 1), 61)), k)
       <==> 7 == k / 8 && k % 8 < 6 && Bit32(half, ESource(k))
  {
    hide Bit, And64, Or64, ShiftLeft64, Wide32, FiveMask;
    var R := Wide32(half);
    BitOr(And64(ShiftLeft64(R, 29), FiveMask(7)), ShiftLeft64(And64(R, 1), 61), k);
    BitAnd(ShiftLeft64(R, 29), FiveMask(7), k);
    FiveMaskBit(7, k);
    BitShifted(R, 29, k);
    BitShifted(And64(R, 1), 61, k);
    if k >= 61 {
      BitAnd(R, 1, k - 61);
      BitOne(k - 61);
    }
  }

  /** The expansion of FIPS 46-3, bit by bit; the two high bits of each byte are clear. */
  lemma EPhaseBit(half: bv32, k: nat)
    requires k < 64
    ensures Bit(EPhase(half), k) <==> k % 8 < 6 && Bit32(half, ESource(k))
  {
    hide Bit, Bit32, And64, Or64, ShiftLeft64, ShiftRight64, Wide32, ESource;
    var R := Wide32(half);
    forall g: nat | 1 <= g <= 6
      ensures Bit(And64(ShiftLeft64(R, 4 * g + 1), SixMask(g)), k)
         <==> g == k / 8 && k % 8 < 6 && Bit32(half, ESource(k))
    {
      MiddleGroup(half, g, k);
    }
    FirstGroup(half, k);
    LastGroup(half, k);
    var t0 := Or64(And64(ShiftLeft64(R, 1), 0x3e), And64(ShiftRight64(R, 31), 1));
    var t1, t2 := And64(ShiftLeft64(R, 5), SixMask(1)), And64(ShiftLeft64(R, 9), SixMask(2));
    var t3, t4 := And64(ShiftLeft64(R, 13), SixMask(3)), And64(ShiftLeft64(R, 17), SixMask(4));
    var t5, t6 := And64(ShiftLeft64(R, 21), SixMask(5)), And64(ShiftLeft64(R, 25), SixMask(6));
    var t7, t8 := And64(ShiftLeft64(R, 29), FiveMask(7)), ShiftLeft64(And64(R, 1), 61);
    var w1 := Or64(t0, t1);
    var w2 := Or64(w1, t2);
    var w3 := Or64(w2, t3);
    var w4 := Or64(w3, t4);
    var w5 := Or64(w4, t5);
    var w6 := Or64(w5, t6);
    var w7 := Or64(w6, t7);
    assert EPhase(half) == Or64(w7, t8);
    hide EPhase, SixMask, FiveMask;
    BitOr(t0, t1, k);
    BitOr(w1, t2, k);
    BitOr(w2, t3, k);
    BitOr(w3, t4, k);
    BitOr(w4, t5, k);
    BitOr(w5, t6, k);
    BitOr(w6, t7, k);
    BitOr(w7, t8, k);
    BitOr(t7, t8, k);
    ByteNumber(k);
  }

  lemma ByteNumber(k: nat)
    requires k < 64
    ensures 0 <= k / 8 < 8
  {
  }

  /** The low six bits of byte g. */
  function Six(x: bv64, g: nat): bv6 {
    (ShiftRight64(x, 8 * g) & 0x3f) as bv6
  }

  /** The tables looked up with the low six bits of each byte. */
  function SBoxLayer(sb: SBoxes, x: bv64): bv32 {
    Or32(Or32(Or32(Or32(Or32(Or32(Or32(
      sb(0, Six(x, 0)), sb(1, Six(x, 1))), sb(2, Six(x, 2))), sb(3, Six(x, 3))),
      sb(4, Six(x, 4))), sb(5, Six(x, 5))), sb(6, Six(x, 6))), sb(7, Six(x, 7)))
  }

  /** `fRK` */
  function FRK(sb: SBoxes): RoundFunction {
    (R, K) => SBoxLayer(sb, Xor64(EPhase(R), K))
  }

  /** The bits of a key schedule word that are in use: six in each byte. */
  const SIX_OF_EIGHT: bv64 := 0x3f3f_3f3f_3f3f_3f3f

  function Sixes(n: nat): bv64 {
    if n == 0 then 0 else Or64(ShiftLeft64(Sixes(n - 1), 8), 63)
  }

  lemma {:induction false} SixesBit(n: nat, i: nat)
    requires i < 64
    ensures Bit(Sixes(n), i) <==> i / 8 < n && i % 8 < 6
  {
    hide Bit, Or64, ShiftLeft64;
    if n == 0 {
      BitZero(i);
    } else {
      BitOr(ShiftLeft64(Sixes(n - 1), 8), 63, i);
      BitShifted(Sixes(n - 1), 8, i);
      Bits63(i);
      if i >= 8 {
        SixesBit(n - 1, i - 8);
      }
    }
  }

  lemma EightUp()
    ensures ShiftLeft64(0, 8) == 0 && ShiftLeft64(0x3f, 8) == 0x3f00 && ShiftLeft64(0x3f3f, 8) == 0x3f_3f00
    ensures ShiftLeft64(0x3f_3f3f, 8) == 0x3f3f_3f00 && ShiftLeft64(0x3f3f_3f3f, 8) == 0x3f_3f3f_3f00
    ensures ShiftLeft64(0x3f_3f3f_3f3f, 8) == 0x3f3f_3f3f_3f00
    ensures ShiftLeft64(0x3f3f_3f3f_3f3f, 8) == 0x3f_3f3f_3f3f_3f00
    ensures ShiftLeft64(0x3f_3f3f_3f3f_3f3f, 8) == 0x3f3f_3f3f_3f3f_3f00
  {
  }

  lemma SixesAre()
    ensures Sixes(8) == SIX_OF_EIGHT
  {
    hide ShiftLeft64;
    EightUp();
    assert Sixes(2) == 0x3f3f;
    assert Sixes(4) == 0x3f3f_3f3f;
    assert Sixes(6) == 0x3f3f_3f3f_3f3f;
  }

  function FlipKey(k: bv64): bv64 {
    Xor64(k, SIX_OF_EIGHT)
  }

  function FlipKeys(ks: seq<bv64>): (r: seq<bv64>)
    ensures |r| == |ks| && forall i | 0 <= i < |ks| :: r[i] == FlipKey(ks[i])
  {
    seq(|ks|, i requires 0 <= i < |ks| => FlipKey(ks[i]))
  }

  function Complement(x: Double): Double {
    Double(Not(x.high), Not(x.low))
  }

  /** Complementing the half flips every bit of every group, ... */
  lemma EPhaseFlips(R: bv32)
    ensures EPhase(Not(R)) == Xor64(EPhase(R), SIX_OF_EIGHT)
  {
    hide Bit, Bit32, EPhase, Not, Xor64, Sixes, SIX_OF_EIGHT;
    SixesAre();
    forall k: nat | k < 64
      ensures Bit(EPhase(Not(R)), k) == Bit(Xor64(EPhase(R), SIX_OF_EIGHT), k)
    {
      EPhaseBit(R, k);
      EPhaseBit(Not(R), k);
      NotBit(R, ESource(k));
      BitXor(EPhase(R), SIX_OF_EIGHT, k);
      SixesBit(8, k);
    }
    SameBits(EPhase(Not(R)), Xor64(EPhase(R), SIX_OF_EIGHT));
  }

  lemma FlipsCancel(e: bv64, k: bv64)
    ensures Xor64(Xor64(e, SIX_OF_EIGHT), FlipKey(k)) == Xor64(e, k)
  {
  }

  /** ... so with the key flipped as well the S-boxes see the same. */
  lemma RoundFunctionComplement(sb: SBoxes, R: bv32, K: bv64)
    ensures FRK(sb)(Not(R), FlipKey(K)) == FRK(sb)(R, K)
  {
    hide EPhase, Not, FlipKey, SBoxLayer, Xor64, SIX_OF_EIGHT;
    EPhaseFlips(R);
    FlipsCancel(EPhase(R), K);
  }

  lemma XorNot(x: bv32, y: bv32)
    ensures Xor(Not(x), y) == Not(Xor(x, y))
  {
  }

  lemma {:induction false} RoundsComplement(sb: SBoxes, ks: seq<bv64>, n: nat, l: bv32, r: bv32)
    requires n <= |ks|
    ensures Rounds(FRK(sb), FlipKeys(ks), n, Not(l), Not(r))
         == var (a, b) := Rounds(FRK(sb), ks, n, l, r); (Not(a), Not(b))
  {
    hide Xor, Not, FlipKey, FRK;
    if n > 0 {
      RoundsComplement(sb, ks, n - 1, l, r);
      var (a, b) := Rounds(FRK(sb), ks, n - 1, l, r);
      RoundFunctionComplement(sb, b, ks[n - 1]);
      XorNot(a, FRK(sb)(b, ks[n - 1]));
    }
  }

  /** The complementation property: complementing the block and flipping the key complements the output,
      for any S-boxes, in both directions. */
  lemma BlockComplement(sb: SBoxes, ks: seq<bv64>, data: Double, enc: bool)
    ensures Block(FRK(sb), FlipKeys(ks), Complement(data), enc) == Complement(Block(FRK(sb), ks, data, enc))
  {
    hide IpZ, FpZ, Not, FlipKey, FRK, Rounds;
    var keys := if enc then ks else Reversed(ks);
    assert Reversed(FlipKeys(ks)) == FlipKeys(Reversed(ks));
    var (r0, l0) := IpZ(data.low, data.high);
    var (l, r) := Rounds(FRK(sb), keys, |ks|, l0, r0);
    IpComplement(data.low, data.high);
    RoundsComplement(sb, keys, |ks|, l0, r0);
    FpComplement(r, l);
  }
}
