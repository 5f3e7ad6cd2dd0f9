/** DES as FIPS 46-3 states it, on strings of bits numbered from the left, for any S-boxes and any permutation P;
    and that the code of lib/des_basic.c and lib/des_key.c computes it. */
module DesFips {
  import opened Words
  import opened Bits
  import opened Bits32
  import opened DesBlock
  import opened DesKey

  // ---- The standard ----

  /** Table IP: a row steps down by 8; the first row begins with 58 and the fifth with 57. */
  function IP(i: nat): (n: int)
    requires i < 64
    ensures 1 <= n <= 64
  {
    (if i / 8 < 4 then 58 + 2 * (i / 8) else 49 + 2 * (i / 8)) - 8 * (i % 8)
  }

  /** Table IP^-1: a row alternates between two halves of the bytes and steps up by 8; a column steps down by 1. */
  function FP(i: nat): (n: int)
    requires i < 64
    ensures 1 <= n <= 64
  {
    (if i % 2 == 0 then 40 else 8) + 8 * (i % 8 / 2) - i / 8
  }

  /** The E bit-selection table: rows of six, each from the bit before bit 4 * g + 1 on, cyclically. */
  function E(j: nat): (n: int)
    requires j < 48
    ensures 1 <= n <= 32
  {
    (4 * (j / 6) + j % 6 + 31) % 32 + 1
  }

  /** Output bit n of S-box g for six bits. */
  type SBox = (nat, seq<bool>, nat) -> bool

  /** Table P. */
  type PTable = s: seq<int> | |s| == 32 && forall i | 0 <= i < 32 :: 1 <= s[i] <= 32
    witness seq(32, _ => 1)

  type Half32Bits = s: seq<bool> | |s| == 32 witness seq(32, _ => false)
  type KeyBits48 = s: seq<bool> | |s| == 48 witness seq(48, _ => false)
  type Block64Bits = s: seq<bool> | |s| == 64 witness seq(64, _ => false)

  function XorHalves(x: Half32Bits, y: Half32Bits): (r: Half32Bits)
    ensures forall i | 0 <= i < 32 :: r[i] == (x[i] != y[i])
  {
    seq(32, i requires 0 <= i < 32 => x[i] != y[i])
  }

  /** E(R) combined with a key. */
  function Mixed(r: Half32Bits, k: KeyBits48): (b: KeyBits48)
    ensures forall j | 0 <= j < 48 :: b[j] == (r[E(j) - 1] != k[j])
  {
    seq(48, j requires 0 <= j < 48 => r[E(j) - 1] != k[j])
  }

  /** Bit m of the 32 bits that the eight S-boxes give. */
  function SBoxBit(S: SBox, b: KeyBits48, m: nat): bool
    requires m < 32
  {
    S(m / 4, b[6 * (m / 4)..6 * (m / 4) + 6], m % 4)
  }

  /** The cipher function f(R, K). */
  function F(S: SBox, P: PTable, r: Half32Bits, k: KeyBits48): (x: Half32Bits)
    ensures forall i | 0 <= i < 32 :: x[i] == SBoxBit(S, Mixed(r, k), P[i] - 1)
  {
    seq(32, i requires 0 <= i < 32 => SBoxBit(S, Mixed(r, k), P[i] - 1))
  }

  /** L and R after n rounds. */
  function Network(S: SBox, P: PTable, keys: seq<KeyBits48>, n: nat, l: Half32Bits, r: Half32Bits)
    : (Half32Bits, Half32Bits)
    requires n <= |keys|
  {
    if n == 0 then (l, r)
    else var (a, b) := Network(S, P, keys, n - 1, l, r); (b, XorHalves(a, F(S, P, b, keys[n - 1])))
  }

  function Initial(block: Block64Bits): (x: Block64Bits)
    ensures forall i | 0 <= i < 64 :: x[i] == block[IP(i) - 1]
  {
    seq(64, i requires 0 <= i < 64 => block[IP(i) - 1])
  }

  function Final(block: Block64Bits): (x: Block64Bits)
    ensures forall i | 0 <= i < 64 :: x[i] == block[FP(i) - 1]
  {
    seq(64, i requires 0 <= i < 64 => block[FP(i) - 1])
  }

  /** The cipher for one sequence of keys: with the keys reversed it deciphers. */
  function Cipher(S: SBox, P: PTable, keys: seq<KeyBits48>, block: Block64Bits): Block64Bits {
    var x := Initial(block);
    var (l, r) := Network(S, P, keys, |keys|, x[..32], x[32..]);
    Final(r + l)
  }

  lemma FpInvertsIp(i: nat)
    requires i < 64
    ensures IP(FP(i) - 1) == i + 1 && FP(IP(i) - 1) == i + 1
  {
    var a, c, d := i / 8, i % 8 / 2, i % 2;
    assert i == 8 * a + 2 * c + d;
    var m := FP(i) - 1;
    assert m == 8 * (4 * (1 - d) + c) + (7 - a);
    assert m / 8 == 4 * (1 - d) + c && m % 8 == 7 - a;
    IpInverse(i);
  }

  lemma IpInverse(i: nat)
    requires i < 64
    ensures FP(IP(i) - 1) == i + 1
  {
    var a, b := i / 8, i % 8;
    var e := if a < 4 then 1 else 0;
    var c := if a < 4 then a else a - 4;
    var m := IP(i) - 1;
    assert m == 8 * (7 - b) + (2 * c + e);
    assert m / 8 == 7 - b && m % 8 == 2 * c + e;
    assert m % 8 / 2 == c && m % 2 == e;
  }

  lemma FinalUndoesInitial(block: Block64Bits)
    ensures Final(Initial(block)) == block && Initial(Final(block)) == block
  {
    forall i | 0 <= i < 64
      ensures Final(Initial(block))[i] == block[i] && Initial(Final(block))[i] == block[i]
    {
      FpInvertsIp(i);
    }
  }

  // ---- The code's words as bits ----

  /** Bit n of a half is bit n - 1 of the word. */
  function HalfBits(x: bv32): (r: Half32Bits)
    ensures forall k | 0 <= k < 32 :: r[k] == Bit32(x, k)
  {
    seq(32, k requires 0 <= k < 32 => Bit32(x, k))
  }

  /** The bits of a block in memory, the most significant bit of each byte first. */
  function BlockBits(x: Double): (r: Block64Bits)
    ensures forall i | 0 <= i < 64 :: r[i] == ByteBit(MemoryByte(x, i / 8), 7 - i % 8)
  {
    seq(64, i requires 0 <= i < 64 => ByteBit(MemoryByte(x, i / 8), 7 - i % 8))
  }

  /** The 48 bits of a schedule word, six from each byte. */
  function KeyWordBits(k: bv64): (r: KeyBits48)
    ensures forall j | 0 <= j < 48 :: r[j] == Bit(k, 8 * (j / 6) + j % 6)
  {
    seq(48, j requires 0 <= j < 48 => Bit(k, 8 * (j / 6) + j % 6))
  }

  function KeyWordsBits(ks: seq<bv64>): (r: seq<KeyBits48>)
    ensures |r| == |ks| && forall n | 0 <= n < |ks| :: r[n] == KeyWordBits(ks[n])
  {
    seq(|ks|, n requires 0 <= n < |ks| => KeyWordBits(ks[n]))
  }

  // ---- The initial permutation ----

  lemma BlockBitAt(x: Double, m: nat)
    requires m < 64
    ensures BlockBits(x)[m] == Bit32(if m / 8 < 4 then x.low else x.high, 8 * (m / 8 % 4) + (7 - m % 8))
  {
    hide Bit32, WordByte, ByteBit;
    var k := 8 * (m / 8 % 4) + (7 - m % 8);
    assert k / 8 == m / 8 % 4 && k % 8 == 7 - m % 8;
    WordBit(if m / 8 < 4 then x.low else x.high, k);
  }

  /** A stage of `ip_z` on bit j, in the first (e = 0) or the second word of its result. The binary digit d of
      weight n of the bit's number is the word it comes from, and e is its digit there. */
  lemma Stage(a: bv32, b: bv32, n: nat, m: bv32, e: nat, j: nat, d: nat, j': int)
    requires IsMask(n, m) && e < 2 && j < 32 && d == j / n % 2
    requires j' == j + (if e == 1 then n else 0) - (if d == 1 then n else 0)
    ensures var p := DeltaSwap(a, b, n, m);
            0 <= j' < 32 && Bit32(if e == 0 then p.0 else p.1, j) == Bit32(if d == 1 then b else a, j')
  {
    hide Bit32, DeltaSwap, IsMask;
    StageBit(a, b, n, m, j);
    Weight(n, m, j);
  }

  lemma Weight(n: nat, m: bv32, j: nat)
    requires IsMask(n, m) && j < 32
    ensures j / n % 2 == 0 ==> j + n < 32
    ensures j / n % 2 == 1 ==> n <= j
  {
    hide Bit32;
    Neighbour(j, n);
  }

  /** The number with the given binary digits. */
  function Number(p: nat, q: nat, r: nat, s: nat, t: nat): nat {
    16 * p + 8 * q + 4 * r + 2 * s + t
  }

  lemma DigitsAre(p: nat, q: nat, r: nat, s: nat, t: nat)
    requires p < 2 && q < 2 && r < 2 && s < 2 && t < 2
    ensures var k := Number(p, q, r, s, t);
            && k < 32 && k / 16 % 2 == p && k / 8 % 2 == q && k / 4 % 2 == r && k / 2 % 2 == s && k / 1 % 2 == t
  {
    var k := Number(p, q, r, s, t);
    Halves(8 * p + 4 * q + 2 * r + s, t);
    Quarters(4 * p + 2 * q + r, 2 * s + t);
    ByteAndBit(2 * p + q, 4 * r + 2 * s + t);
    Sixteenths(p, 8 * q + 4 * r + 2 * s + t);
    Halves(4 * p + 2 * q + r, s);
    Halves(2 * p + q, r);
    Halves(p, q);
    Halves(0, p);
  }

  lemma Halves(n: nat, r: nat)
    requires r < 2
    ensures (2 * n + r) / 2 == n && (2 * n + r) % 2 == r
  {
  }

  lemma Quarters(n: nat, r: nat)
    requires r < 4
    ensures (4 * n + r) / 4 == n && (4 * n + r) % 4 == r
  {
  }

  lemma Sixteenths(n: nat, r: nat)
    requires r < 16
    ensures (16 * n + r) / 16 == n
  {
  }

  lemma ByteAndBit(b: nat, c: nat)
    requires c < 8
    ensures (8 * b + c) / 8 == b && (8 * b + c) % 8 == c
  {
  }

  lemma Stage1(a: bv32, b: bv32, e: nat, p: nat, q: nat, r: nat, s: nat, t: nat)
    requires p < 2 && q < 2 && r < 2 && s < 2 && t < 2 && e < 2
    ensures var x := DeltaSwap(a, b, 1, 0x55555555);
            Bit32(if e == 0 then x.0 else x.1, Number(p, q, r, s, t))
            == Bit32(if t == 1 then b else a, Number(p, q, r, s, e))
  {
    hide Bit32, DeltaSwap, IsMask;
    Masks();
    DigitsAre(p, q, r, s, t);
    Stage(a, b, 1, 0x55555555, e, Number(p, q, r, s, t), t, Number(p, q, r, s, e));
  }

  lemma Stage2(a: bv32, b: bv32, e: nat, p: nat, q: nat, r: nat, s: nat, t: nat)
    requires p < 2 && q < 2 && r < 2 && s < 2 && t < 2 && e < 2
    ensures var x := DeltaSwap(a, b, 2, 0x33333333);
            Bit32(if e == 0 then x.0 else x.1, Number(p, q, r, s, t))
            == Bit32(if s == 1 then b else a, Number(p, q, r, e, t))
  {
    hide Bit32, DeltaSwap, IsMask;
    Masks();
    DigitsAre(p, q, r, s, t);
    Stage(a, b, 2, 0x33333333, e, Number(p, q, r, s, t), s, Number(p, q, r, e, t));
  }

  lemma Stage4(a: bv32, b: bv32, e: nat, p: nat, q: nat, r: nat, s: nat, t: nat)
    requires p < 2 && q < 2 && r < 2 && s < 2 && t < 2 && e < 2
    ensures var x := DeltaSwap(a, b, 4, 0x0f0f0f0f);
            Bit32(if e == 0 then x.0 else x.1, Number(p, q, r, s, t))
            == Bit32(if r == 1 then b else a, Number(p, q, e, s, t))
  {
    hide Bit32, DeltaSwap, IsMask;
    Masks();
    DigitsAre(p, q, r, s, t);
    Stage(a, b, 4, 0x0f0f0f0f, e, Number(p, q, r, s, t), r, Number(p, q, e, s, t));
  }

  lemma Stage8(a: bv32, b: bv32, e: nat, p: nat, q: nat, r: nat, s: nat, t: nat)
    requires p < 2 && q < 2 && r < 2 && s < 2 && t < 2 && e < 2
    ensures var x := DeltaSwap(a, b, 8, 0x00ff00ff);
            Bit32(if e == 0 then x.0 else x.1, Number(p, q, r, s, t))
            == Bit32(if q == 1 then b else a, Number(p, e, r, s, t))
  {
    hide Bit32, DeltaSwap, IsMask;
    Masks();
    DigitsAre(p, q, r, s, t);
    Stage(a, b, 8, 0x00ff00ff, e, Number(p, q, r, s, t), q, Number(p, e, r, s, t));
  }

  lemma Stage16(a: bv32, b: bv32, e: nat, p: nat, q: nat, r: nat, s: nat, t: nat)
    requires p < 2 && q < 2 && r < 2 && s < 2 && t < 2 && e < 2
    ensures var x := DeltaSwap(a, b, 16, 0x0000ffff);
            Bit32(if e == 0 then x.0 else x.1, Number(p, q, r, s, t))
            == Bit32(if p == 1 then b else a, Number(e, q, r, s, t))
  {
    hide Bit32, DeltaSwap, IsMask;
    Masks();
    DigitsAre(p, q, r, s, t);
    Stage(a, b, 16, 0x0000ffff, e, Number(p, q, r, s, t), p, Number(e, q, r, s, t));
  }

  /** The bit of the input that a bit of the left (e = 0) or right (e = 1) half is. */
  lemma IpBit(high: bv32, low: bv32, e: nat, p: nat, q: nat, r: nat, s: nat, t: nat)
    requires p < 2 && q < 2 && r < 2 && s < 2 && t < 2 && e < 2
    ensures Bit32(if e == 0 then IpZ(low, high).1 else IpZ(low, high).0, Number(p, q, r, s, t))
         == Bit32(if r == 1 then low else high, Number(1 - s, 1 - t, 1 - p, 1 - q, e))
  {
    hide Bit32, DeltaSwap, Number;
    var (r1, l1) := DeltaSwap(high, low, 4, 0x0f0f0f0f);
    var (l2, r2) := DeltaSwap(l1, r1, 16, 0x0000ffff);
    var (r3, l3) := DeltaSwap(r2, l2, 2, 0x33333333);
    var (l4, r4) := DeltaSwap(l3, r3, 8, 0x00ff00ff);
    Stage1(r4, l4, e, p, q, r, s, t);
    Stage8(l3, r3, 1 - t, p, q, r, s, e);
    Stage2(r2, l2, 1 - q, p, 1 - t, r, s, e);
    Stage16(l1, r1, 1 - s, p, 1 - t, r, 1 - q, e);
    Stage4(high, low, 1 - p, 1 - s, 1 - t, r, 1 - q, e);
  }

  /** A bit of the block in the place that table IP says. */
  lemma IpPlace(x: Double, i: nat)
    requires i < 64
    ensures Bit32(if i < 32 then IpZ(x.low, x.high).1 else IpZ(x.low, x.high).0, i % 32) == BlockBits(x)[IP(i) - 1]
  {
    hide Bit32, IpZ, BlockBits, IP, Number;
    var (e, p, q, r, s, t) := Binary(i);
    BinaryIs(i);
    IpBit(x.high, x.low, e, p, q, r, s, t);
    Place(e, p, q, r, s, t);
    BlockBitAt(x, IP(i) - 1);
  }

  function Binary(i: nat): (nat, nat, nat, nat, nat, nat) {
    var k := i % 32;
    (i / 32, k / 16, k % 16 / 8, k % 16 % 8 / 4, k % 16 % 8 % 4 / 2, k % 16 % 8 % 4 % 2)
  }

  lemma BinaryIs(i: nat)
    requires i < 64
    ensures var (e, p, q, r, s, t) := Binary(i);
            && e < 2 && p < 2 && q < 2 && r < 2 && s < 2 && t < 2
            && i % 32 == Number(p, q, r, s, t) && i == 32 * e + Number(p, q, r, s, t)
  {
    var k := i % 32;
    var k1 := k % 16;
    var k2 := k1 % 8;
    var k3 := k2 % 4;
    assert k == 16 * (k / 16) + k1 && k1 == 8 * (k1 / 8) + k2;
    assert k2 == 4 * (k2 / 4) + k3 && k3 == 2 * (k3 / 2) + k3 % 2;
  }

  lemma Place(e: nat, p: nat, q: nat, r: nat, s: nat, t: nat)
    requires p < 2 && q < 2 && r < 2 && s < 2 && t < 2 && e < 2
    ensures var i := 32 * e + Number(p, q, r, s, t);
            && i < 64 && ((IP(i) - 1) / 8 < 4 <==> r == 1)
            && 8 * ((IP(i) - 1) / 8 % 4) + (7 - (IP(i) - 1) % 8) == Number(1 - s, 1 - t, 1 - p, 1 - q, e)
  {
    hide IP;
    var i, b, c := 32 * e + Number(p, q, r, s, t), 3 - 2 * s - t, 4 * p + 2 * q + (1 - e);
    PlaceValue(e, p, q, r, s, t);
    ByteAndBit(4 * (1 - r) + b, c);
    Quarters(1 - r, b);
  }

  lemma PlaceValue(e: nat, p: nat, q: nat, r: nat, s: nat, t: nat)
    requires p < 2 && q < 2 && r < 2 && s < 2 && t < 2 && e < 2
    ensures var i := 32 * e + Number(p, q, r, s, t);
            i < 64 && IP(i) - 1 == 8 * (4 * (1 - r) + (3 - 2 * s - t)) + (4 * p + 2 * q + (1 - e))
  {
    hide IP;
    var row, column := 4 * e + 2 * p + q, 4 * r + 2 * s + t;
    assert row < 8 && (row < 4 <==> e == 0) && column < 8;
    assert 32 * e + Number(p, q, r, s, t) == 8 * row + column;
    IpValue(8 * row + column, row, column);
  }

  lemma IpValue(i: nat, row: nat, column: nat)
    requires i == 8 * row + column && i < 64 && column < 8
    ensures IP(i) == (if row < 4 then 58 + 2 * row else 49 + 2 * row) - 8 * column
  {
    ByteAndBit(row, column);
  }

  /** `ip_z` is the initial permutation: its second result is the left half. */
  lemma IpIsInitial(x: Double)
    ensures var ip := IpZ(x.low, x.high); HalfBits(ip.1) + HalfBits(ip.0) == Initial(BlockBits(x))
  {
    hide Bit32, IpZ, BlockBits, IP;
    var ip := IpZ(x.low, x.high);
    forall i: nat | i < 64
      ensures (HalfBits(ip.1) + HalfBits(ip.0))[i] == Initial(BlockBits(x))[i]
    {
      IpPlace(x, i);
      if i < 32 {
        assert i % 32 == i;
      } else {
        assert i % 32 == i - 32;
        assert (HalfBits(ip.1) + HalfBits(ip.0))[i] == HalfBits(ip.0)[i - 32];
      }
    }
  }

  /** And `fp_z` the final one. */
  lemma FpIsFinal(l: bv32, r: bv32)
    ensures var fp := FpZ(r, l); BlockBits(Double(fp.0, fp.1)) == Final(HalfBits(r) + HalfBits(l))
  {
    hide IpZ, FpZ, BlockBits, HalfBits, Initial, Final;
    var fp := FpZ(r, l);
    IpUndoesFp(r, l);
    IpIsInitial(Double(fp.0, fp.1));
    FinalUndoesInitial(BlockBits(Double(fp.0, fp.1)));
  }

  // ---- The cipher function ----

  function Wide6(v: bv6): bv64 {
    v as bv64
  }

  /** The six bits of a table index, the first bit of the group lowest. */
  function SixBits(v: bv6): (r: seq<bool>)
    ensures |r| == 6 && forall i | 0 <= i < 6 :: r[i] == Bit(Wide6(v), i)
  {
    seq(6, i requires 0 <= i < 6 => Bit(Wide6(v), i))
  }

  /** Tables of S-boxes and P in one: entry v of table g holds the four output bits of S-box g in the places where
      P puts them, and no others. */
  ghost predicate Combined(sb: SBoxes, S: SBox, P: PTable) {
    forall g: nat, v: bv6, i: nat | g < 8 && i < 32 ::
      Bit32(sb(g, v), i) <==> (P[i] - 1) / 4 == g && S(g, SixBits(v), (P[i] - 1) % 4)
  }

  lemma SixIs(x: bv64, g: nat)
    ensures Wide6(Six(x, g)) == And64(ShiftRight64(x, 8 * g), 63)
  {
    SixWide(ShiftRight64(x, 8 * g));
  }

  lemma SixWide(y: bv64)
    ensures ((y & 0x3f) as bv6) as bv64 == And64(y, 63)
  {
  }

  lemma SixBitsAre(x: bv64, g: nat)
    requires g < 8
    ensures forall i: nat | i < 6 :: SixBits(Six(x, g))[i] == Bit(x, 8 * g + i)
  {
    hide Bit, And64, ShiftRight64, Six, Wide6;
    SixIs(x, g);
    forall i: nat | i < 6
      ensures SixBits(Six(x, g))[i] == Bit(x, 8 * g + i)
    {
      BitAnd(ShiftRight64(x, 8 * g), 63, i);
      Bits63(i);
      BitShiftedRight(x, 8 * g, i);
    }
  }

  lemma EntryBit(sb: SBoxes, S: SBox, P: PTable, x: bv64, g: nat, i: nat)
    requires Combined(sb, S, P) && g < 8 && i < 32
    ensures Bit32(sb(g, Six(x, g)), i) <==> (P[i] - 1) / 4 == g && S(g, SixBits(Six(x, g)), (P[i] - 1) % 4)
  {
    hide Bit32, Six, SixBits;
  }

  lemma LayerBit(sb: SBoxes, S: SBox, P: PTable, x: bv64, i: nat)
    requires Combined(sb, S, P) && i < 32
    ensures var g := (P[i] - 1) / 4;
            Bit32(SBoxLayer(sb, x), i) <==> S(g, SixBits(Six(x, g)), (P[i] - 1) % 4)
  {
    hide Bit32, Or32, Six, SixBits, Combined;
    forall g: nat | g < 8
      ensures Bit32(sb(g, Six(x, g)), i) <==> (P[i] - 1) / 4 == g && S(g, SixBits(Six(x, g)), (P[i] - 1) % 4)
    {
      EntryBit(sb, S, P, x, g, i);
    }
    var w1 := Or32(sb(0, Six(x, 0)), sb(1, Six(x, 1)));
    var w2 := Or32(w1, sb(2, Six(x, 2)));
    var w3 := Or32(w2, sb(3, Six(x, 3)));
    var w4 := Or32(w3, sb(4, Six(x, 4)));
    var w5 := Or32(w4, sb(5, Six(x, 5)));
    var w6 := Or32(w5, sb(6, Six(x, 6)));
    Or32Bit(sb(0, Six(x, 0)), sb(1, Six(x, 1)), i);
    Or32Bit(w1, sb(2, Six(x, 2)), i);
    Or32Bit(w2, sb(3, Six(x, 3)), i);
    Or32Bit(w3, sb(4, Six(x, 4)), i);
    Or32Bit(w4, sb(5, Six(x, 5)), i);
    Or32Bit(w5, sb(6, Six(x, 6)), i);
    Or32Bit(w6, sb(7, Six(x, 7)), i);
    assert 0 <= (P[i] - 1) / 4 < 8;
  }

  lemma MixedBit(R: bv32, K: bv64, g: nat, i: nat)
    requires g < 8 && i < 6
    ensures Bit(Xor64(EPhase(R), K), 8 * g + i) == Mixed(HalfBits(R), KeyWordBits(K))[6 * g + i]
  {
    hide Bit, Bit32, EPhase, Xor64;
    BitXor(EPhase(R), K, 8 * g + i);
    EPhaseBit(R, 8 * g + i);
    InGroup(g, i);
  }

  lemma InGroup(g: nat, i: nat)
    requires g < 8 && i < 6
    ensures var j := 6 * g + i; j < 48 && j / 6 == g && j % 6 == i && E(j) - 1 == ESource(8 * g + i)
    ensures (8 * g + i) / 8 == g && (8 * g + i) % 8 == i
  {
    ByteAndBit(g, i);
  }

  /** What enters S-box g. */
  lemma GroupIs(R: bv32, K: bv64, g: nat)
    requires g < 8
    ensures SixBits(Six(Xor64(EPhase(R), K), g)) == Mixed(HalfBits(R), KeyWordBits(K))[6 * g..6 * g + 6]
  {
    hide Bit, Six, EPhase, Xor64, SixBits, Mixed, HalfBits, KeyWordBits;
    var x, b := Xor64(EPhase(R), K), Mixed(HalfBits(R), KeyWordBits(K));
    SixBitsAre(x, g);
    forall i: nat | i < 6
      ensures SixBits(Six(x, g))[i] == b[6 * g..6 * g + 6][i]
    {
      MixedBit(R, K, g, i);
    }
  }

  /** `fRK` is the cipher function. */
  lemma FrkIsF(sb: SBoxes, S: SBox, P: PTable, R: bv32, K: bv64)
    requires Combined(sb, S, P)
    ensures HalfBits(FRK(sb)(R, K)) == F(S, P, HalfBits(R), KeyWordBits(K))
  {
    hide Bit32, Six, EPhase, Xor64, SixBits, SBoxLayer, Combined, Mixed;
    var x := Xor64(EPhase(R), K);
    forall i: nat | i < 32
      ensures HalfBits(FRK(sb)(R, K))[i] == F(S, P, HalfBits(R), KeyWordBits(K))[i]
    {
      LayerBit(sb, S, P, x, i);
      GroupIs(R, K, (P[i] - 1) / 4);
    }
  }

  // ---- The block ----

  lemma {:induction false} RoundsAreNetwork(sb: SBoxes, S: SBox, P: PTable, ks: seq<bv64>, n: nat, l: bv32, r: bv32)
    requires Combined(sb, S, P) && n <= |ks|
    ensures var (a, b) := Rounds(FRK(sb), ks, n, l, r);
            Network(S, P, KeyWordsBits(ks), n, HalfBits(l), HalfBits(r)) == (HalfBits(a), HalfBits(b))
  {
    hide Combined, FRK, Xor, F, HalfBits, KeyWordBits;
    if n > 0 {
      RoundsAreNetwork(sb, S, P, ks, n - 1, l, r);
      var (a, b) := Rounds(FRK(sb), ks, n - 1, l, r);
      FrkIsF(sb, S, P, b, ks[n - 1]);
      XorIsXor(a, FRK(sb)(b, ks[n - 1]));
    }
  }

  lemma XorIsXor(x: bv32, y: bv32)
    ensures HalfBits(Xor(x, y)) == XorHalves(HalfBits(x), HalfBits(y))
  {
    hide Bit32, Xor;
    forall i: nat | i < 32
      ensures HalfBits(Xor(x, y))[i] == XorHalves(HalfBits(x), HalfBits(y))[i]
    {
      Xor32Bit(x, y, i);
    }
  }

  /** `enc_dec_1` with the code's round function is the cipher of FIPS 46-3, for any S-boxes, P and keys. */
  lemma BlockIsCipher(sb: SBoxes, S: SBox, P: PTable, ks: seq<bv64>, data: Double, enc: bool)
    requires Combined(sb, S, P)
    ensures BlockBits(Block(FRK(sb), ks, data, enc))
         == Cipher(S, P, KeyWordsBits(if enc then ks else Reversed(ks)), BlockBits(data))
  {
    hide Combined, FRK, IpZ, FpZ, HalfBits, BlockBits, Initial, Final, Rounds, Network, KeyWordsBits, Reversed;
    var keys := if enc then ks else Reversed(ks);
    var (r0, l0) := IpZ(data.low, data.high);
    var (l, r) := Rounds(FRK(sb), keys, |ks|, l0, r0);
    IpIsInitial(data);
    var x := Initial(BlockBits(data));
    assert x[..32] == HalfBits(l0) && x[32..] == HalfBits(r0);
    RoundsAreNetwork(sb, S, P, keys, |keys|, l0, r0);
    FpIsFinal(l, r);
  }

  /** Such tables exist for any S-boxes and P. */
  lemma TablesExist(S: SBox, P: PTable)
    ensures Combined(CombinedTables(S, P), S, P)
  {
    hide Bit32, Pack, SixBits;
    forall g: nat, v: bv6, i: nat | g < 8 && i < 32
      ensures Bit32(CombinedTables(S, P)(g, v), i) <==> (P[i] - 1) / 4 == g && S(g, SixBits(v), (P[i] - 1) % 4)
    {
      PackBit(Entry(S, P, g, SixBits(v)), 32, i);
    }
  }

  function Entry(S: SBox, P: PTable, g: nat, b: seq<bool>): nat -> bool {
    (i: nat) => i < 32 && (P[i] - 1) / 4 == g && S(g, b, (P[i] - 1) % 4)
  }

  function CombinedTables(S: SBox, P: PTable): SBoxes {
    (g: nat, v: bv6) => Pack(Entry(S, P, g, SixBits(v)), 32)
  }

  /** The word of the first n of the given bits. */
  function Pack(f: nat -> bool, n: nat): bv32 {
    if n == 0 then 0 else Or32(Pack(f, n - 1), Shl32(if f(n - 1) then 1 else 0, n - 1))
  }

  lemma {:induction false} PackBit(f: nat -> bool, n: nat, k: nat)
    requires k < 32
    ensures Bit32(Pack(f, n), k) <==> k < n && f(k)
  {
    hide Bit32, Or32, Shl32;
    OneBit32(k);
    if n > 0 {
      PackBit(f, n - 1, k);
      var b: bv32 := if f(n - 1) then 1 else 0;
      Or32Bit(Pack(f, n - 1), Shl32(b, n - 1), k);
      ShlBit(b, n - 1, k);
      if k >= n - 1 {
        OneBit32(k - (n - 1));
      }
    }
  }

  // ---- The tables of the key schedule ----

  /** Permuted choice 1, C and then D: the bits of the key down the columns of its bytes, without the last column. C
      takes the first three columns and half of the fourth; D takes them from the seventh back, and the other half. */
  function ChoiceOne(i: nat): (n: int)
    requires i < 56
    ensures 1 <= n <= 64
  {
    if i < 28 then 57 + i / 8 - 8 * (i % 8)
    else if i < 52 then 63 - (i - 28) / 8 - 8 * ((i - 28) % 8)
    else 28 - 8 * (i - 52)
  }

  /** Permuted choice 2. */
  function ChoiceTwo(j: nat): (n: int)
    requires j < 48
    ensures 1 <= n <= 56
  {
    if j == 0 then 14 else if j == 1 then 17 else if j == 2 then 11 else if j == 3 then 24
    else if j == 4 then 1 else if j == 5 then 5 else if j == 6 then 3 else if j == 7 then 28
    else if j == 8 then 15 else if j == 9 then 6 else if j == 10 then 21 else if j == 11 then 10
    else if j == 12 then 23 else if j == 13 then 19 else if j == 14 then 12 else if j == 15 then 4
    else if j == 16 then 26 else if j == 17 then 8 else if j == 18 then 16 else if j == 19 then 7
    else if j == 20 then 27 else if j == 21 then 20 else if j == 22 then 13 else if j == 23 then 2
    else if j == 24 then 41 else if j == 25 then 52 else if j == 26 then 31 else if j == 27 then 37
    else if j == 28 then 47 else if j == 29 then 55 else if j == 30 then 30 else if j == 31 then 40
    else if j == 32 then 51 else if j == 33 then 45 else if j == 34 then 33 else if j == 35 then 48
    else if j == 36 then 44 else if j == 37 then 49 else if j == 38 then 39 else if j == 39 then 56
    else if j == 40 then 34 else if j == 41 then 53 else if j == 42 then 46 else if j == 43 then 42
    else if j == 44 then 50 else if j == 45 then 36 else if j == 46 then 29 else 32
  }

  /** The left shifts of round n: one place in rounds 1, 2, 9 and 16, two in the others. */
  function ShiftsOf(n: nat): (s: nat)
    ensures 1 <= s <= 2
  {
    if n == 1 || n == 2 || n == 9 || n == 16 then 1 else 2
  }

  // The code's tables are the standard's, entry by entry.

  lemma PC1CBegins()
    ensures PC1C[0] == 57 && PC1C[1] == 49 && PC1C[2] == 41 && PC1C[3] == 33 && PC1C[4] == 25 && PC1C[5] == 17
    ensures PC1C[6] == 9 && PC1C[7] == 1 && PC1C[8] == 58 && PC1C[9] == 50 && PC1C[10] == 42 && PC1C[11] == 34
    ensures PC1C[12] == 26 && PC1C[13] == 18
  {
  }

  lemma PC1CEnds()
    ensures PC1C[14] == 10 && PC1C[15] == 2 && PC1C[16] == 59 && PC1C[17] == 51 && PC1C[18] == 43 && PC1C[19] == 35
    ensures PC1C[20] == 27 && PC1C[21] == 19 && PC1C[22] == 11 && PC1C[23] == 3 && PC1C[24] == 60 && PC1C[25] == 52
    ensures PC1C[26] == 44 && PC1C[27] == 36
  {
  }

  lemma PC1DBegins()
    ensures PC1D[0] == 63 && PC1D[1] == 55 && PC1D[2] == 47 && PC1D[3] == 39 && PC1D[4] == 31 && PC1D[5] == 23
    ensures PC1D[6] == 15 && PC1D[7] == 7 && PC1D[8] == 62 && PC1D[9] == 54 && PC1D[10] == 46 && PC1D[11] == 38
    ensures PC1D[12] == 30 && PC1D[13] == 22
  {
  }

  lemma PC1DEnds()
    ensures PC1D[14] == 14 && PC1D[15] == 6 && PC1D[16] == 61 && PC1D[17] == 53 && PC1D[18] == 45 && PC1D[19] == 37
    ensures PC1D[20] == 29 && PC1D[21] == 21 && PC1D[22] == 13 && PC1D[23] == 5 && PC1D[24] == 28 && PC1D[25] == 20
    ensures PC1D[26] == 12 && PC1D[27] == 4
  {
  }

  lemma PC2Values1()
    ensures PC2[0] == 14 && PC2[1] == 17 && PC2[2] == 11 && PC2[3] == 24 && PC2[4] == 1 && PC2[5] == 5
    ensures PC2[6] == 3 && PC2[7] == 28
  {
  }

  lemma PC2Values2()
    ensures PC2[8] == 15 && PC2[9] == 6 && PC2[10] == 21 && PC2[11] == 10 && PC2[12] == 23 && PC2[13] == 19
    ensures PC2[14] == 12 && PC2[15] == 4
  {
  }

  lemma PC2Values3()
    ensures PC2[16] == 26 && PC2[17] == 8 && PC2[18] == 16 && PC2[19] == 7 && PC2[20] == 27 && PC2[21] == 20
    ensures PC2[22] == 13 && PC2[23] == 2
  {
  }

  lemma PC2Values4()
    ensures PC2[24] == 41 && PC2[25] == 52 && PC2[26] == 31 && PC2[27] == 37 && PC2[28] == 47 && PC2[29] == 55
    ensures PC2[30] == 30 && PC2[31] == 40
  {
  }

  lemma PC2Values5()
    ensures PC2[32] == 51 && PC2[33] == 45 && PC2[34] == 33 && PC2[35] == 48 && PC2[36] == 44 && PC2[37] == 49
    ensures PC2[38] == 39 && PC2[39] == 56
  {
  }

  lemma PC2Values6()
    ensures PC2[40] == 34 && PC2[41] == 53 && PC2[42] == 46 && PC2[43] == 42 && PC2[44] == 50 && PC2[45] == 36
    ensures PC2[46] == 29 && PC2[47] == 32
  {
  }

  lemma PC1CAt(k: nat)
    requires k < 28
    ensures PC1C[k] == ChoiceOne(k)
  {
    PC1CBegins();
    PC1CEnds();
    hide PC1C;
    if k < 7 {
      assert k == 0 || k == 1 || k == 2 || k == 3 || k == 4 || k == 5 || k == 6;
    } else if k < 14 {
      assert k == 7 || k == 8 || k == 9 || k == 10 || k == 11 || k == 12 || k == 13;
    } else if k < 21 {
      assert k == 14 || k == 15 || k == 16 || k == 17 || k == 18 || k == 19 || k == 20;
    } else {
      assert k == 21 || k == 22 || k == 23 || k == 24 || k == 25 || k == 26 || k == 27;
    }
  }

  lemma PC1DAt(k: nat)
    requires k < 28
    ensures PC1D[k] == ChoiceOne(28 + k)
  {
    PC1DBegins();
    PC1DEnds();
    hide PC1D;
    if k < 7 {
      assert k == 0 || k == 1 || k == 2 || k == 3 || k == 4 || k == 5 || k == 6;
    } else if k < 14 {
      assert k == 7 || k == 8 || k == 9 || k == 10 || k == 11 || k == 12 || k == 13;
    } else if k < 21 {
      assert k == 14 || k == 15 || k == 16 || k == 17 || k == 18 || k == 19 || k == 20;
    } else {
      assert k == 21 || k == 22 || k == 23 || k == 24 || k == 25 || k == 26 || k == 27;
    }
  }

  lemma PC2At(k: nat)
    requires k < 48
    ensures PC2[k] == ChoiceTwo(k)
  {
    PC2Values1();
    PC2Values2();
    PC2Values3();
    PC2Values4();
    PC2Values5();
    PC2Values6();
    hide PC2;
    if k < 7 {
      assert k == 0 || k == 1 || k == 2 || k == 3 || k == 4 || k == 5 || k == 6;
    } else if k < 14 {
      assert k == 7 || k == 8 || k == 9 || k == 10 || k == 11 || k == 12 || k == 13;
    } else if k < 21 {
      assert k == 14 || k == 15 || k == 16 || k == 17 || k == 18 || k == 19 || k == 20;
    } else if k < 28 {
      assert k == 21 || k == 22 || k == 23 || k == 24 || k == 25 || k == 26 || k == 27;
    } else if k < 35 {
      assert k == 28 || k == 29 || k == 30 || k == 31 || k == 32 || k == 33 || k == 34;
    } else if k < 42 {
      assert k == 35 || k == 36 || k == 37 || k == 38 || k == 39 || k == 40 || k == 41;
    } else {
      assert k == 42 || k == 43 || k == 44 || k == 45 || k == 46 || k == 47;
    }
  }

  lemma ShiftsAreStandard(n: nat)
    requires n < 16
    ensures SHIFTS[n] == ShiftsOf(n + 1)
  {
    ShiftsAre();
    hide SHIFTS;
    if n < 8 {
      assert n == 0 || n == 1 || n == 2 || n == 3 || n == 4 || n == 5 || n == 6 || n == 7;
    } else {
      assert n == 8 || n == 9 || n == 10 || n == 11 || n == 12 || n == 13 || n == 14 || n == 15;
    }
  }

  // ---- The key schedule ----

  type Half28Bits = s: seq<bool> | |s| == 28 witness seq(28, _ => false)

  /** The key, the most significant bit of each byte first. */
  function KeyBits(key: seq<bv8>): (r: Block64Bits)
    requires |key| == 8
    ensures forall i | 0 <= i < 64 :: r[i] == KeyBit(key, i + 1)
  {
    seq(64, i requires 0 <= i < 64 => KeyBit(key, i + 1))
  }

  /** C (first = 0) or D (first = 28) before the rounds. */
  function Chosen(key: Block64Bits, first: nat): (r: Half28Bits)
    requires first <= 28
    ensures forall k | 0 <= k < 28 :: r[k] == key[ChoiceOne(first + k) - 1]
  {
    seq(28, k requires 0 <= k < 28 => key[ChoiceOne(first + k) - 1])
  }

  function LeftShift(c: Half28Bits, n: nat): Half28Bits
    requires n <= 28
  {
    c[n..] + c[..n]
  }

  /** C or D after n rounds. */
  function HalfAfter(key: Block64Bits, first: nat, n: nat): Half28Bits
    requires first <= 28
  {
    if n == 0 then Chosen(key, first) else LeftShift(HalfAfter(key, first, n - 1), ShiftsOf(n))
  }

  /** C followed by D. */
  function Joined(c: seq<bool>, d: seq<bool>): seq<bool> {
    c + d
  }

  /** Permuted choice 2 of C and D. */
  function RoundKey(c: Half28Bits, d: Half28Bits): (r: KeyBits48)
    ensures forall j | 0 <= j < 48 :: r[j] == Joined(c, d)[ChoiceTwo(j) - 1]
  {
    seq(48, j requires 0 <= j < 48 => Joined(c, d)[ChoiceTwo(j) - 1])
  }

  /** K(n + 1). */
  function KeyOf(key: Block64Bits, n: nat): KeyBits48 {
    RoundKey(HalfAfter(key, 0, n + 1), HalfAfter(key, 28, n + 1))
  }

  /** The key schedule KS of FIPS 46-3. */
  function RoundKeys(key: Block64Bits): (r: seq<KeyBits48>)
    ensures |r| == 16 && forall n: nat | n < 16 :: r[n] == KeyOf(key, n)
  {
    seq(16, n requires 0 <= n < 16 => KeyOf(key, n))
  }

  lemma LeftShiftBit(c: Half28Bits, n: nat, k: nat)
    requires 1 <= n <= 2 && k < 28
    ensures LeftShift(c, n)[k] == c[(k + n) % 28]
  {
    if k + n < 28 {
      assert (k + n) % 28 == k + n;
    } else {
      assert (k + n) % 28 == k + n - 28;
    }
  }

  lemma {:induction false} HalfAfterBit(key: Block64Bits, first: nat, n: nat, k: nat)
    requires first <= 28 && n <= 16 && k < 28
    ensures HalfAfter(key, first, n)[k] == key[ChoiceOne(first + (k + Total(n)) % 28) - 1]
  {
    hide SHIFTS, Total, LeftShift, ChoiceOne, ShiftsOf;
    NoTotal();
    if n > 0 {
      var s := ShiftsOf(n);
      ShiftsAreStandard(n - 1);
      NextTotal(n - 1);
      LeftShiftBit(HalfAfter(key, first, n - 1), s, k);
      HalfAfterBit(key, first, n - 1, (k + s) % 28);
      TurnOn(k, s, Total(n - 1));
    }
  }

  lemma SourceOf(n: nat, j: nat)
    requires n < 16 && j < 48
    ensures var q, t := ChoiceTwo(j), Total(n + 1);
            Source(n, j) == if q <= 28 then ChoiceOne((q - 1 + t) % 28) else ChoiceOne(28 + (q - 29 + t) % 28)
  {
    hide PC1C, PC1D, PC2, Total, ChoiceOne, ChoiceTwo;
    var q, t := ChoiceTwo(j), Total(n + 1);
    PC2At(j);
    if q <= 28 {
      PC1CAt((q - 1 + t) % 28);
    } else {
      PC1DAt((q - 29 + t) % 28);
    }
  }

  lemma RoundKeyBit(key: seq<bv8>, n: nat, j: nat)
    requires |key| == 8 && n < 16 && j < 48
    ensures RoundKeys(KeyBits(key))[n][j] == KeyBit(key, Source(n, j))
  {
    hide KeyBit, KeyBits, HalfAfter, Total, Source, ChoiceOne, ChoiceTwo;
    var q, c, d := ChoiceTwo(j), HalfAfter(KeyBits(key), 0, n + 1), HalfAfter(KeyBits(key), 28, n + 1);
    SourceOf(n, j);
    if q <= 28 {
      HalfAfterBit(KeyBits(key), 0, n + 1, q - 1);
      assert Joined(c, d)[q - 1] == c[q - 1];
    } else {
      HalfAfterBit(KeyBits(key), 28, n + 1, q - 29);
      assert Joined(c, d)[q - 1] == d[q - 29];
    }
  }

  /** The schedule that the code fills is KS. */
  lemma ScheduleIsKS(key: seq<bv8>, ks: seq<bv64>)
    requires |key| == 8 && IsSchedule(key, ks)
    ensures KeyWordsBits(ks) == RoundKeys(KeyBits(key))
  {
    hide Bit, KeyBit, KeyBits, Source, IsScheduleWord, RoundKeys, KeyWordBits;
    forall n: nat | n < 16
      ensures KeyWordBits(ks[n]) == RoundKeys(KeyBits(key))[n]
    {
      assert IsScheduleWord(key, n, ks[n]);
      forall j: nat | j < 48
        ensures KeyWordBits(ks[n])[j] == RoundKeys(KeyBits(key))[n][j]
      {
        RoundKeyBit(key, n, j);
        ScheduleWordBit(key, n, ks[n], j);
      }
    }
  }

  lemma ScheduleWordBit(key: seq<bv8>, n: nat, k: bv64, j: nat)
    requires |key| == 8 && n < 16 && j < 48 && IsScheduleWord(key, n, k)
    ensures KeyWordBits(k)[j] == KeyBit(key, Source(n, j))
  {
    hide Bit, KeyBit, Source;
    InGroup(j / 6, j % 6);
    assert 6 * (j / 6) + j % 6 == j;
  }

  function Backwards(keys: seq<KeyBits48>): (r: seq<KeyBits48>)
    ensures |r| == |keys| && forall n | 0 <= n < |keys| :: r[n] == keys[|keys| - 1 - n]
  {
    seq(|keys|, n requires 0 <= n < |keys| => keys[|keys| - 1 - n])
  }

  /** Deciphering is the same computation with the keys in reverse order. */
  function Decipher(S: SBox, P: PTable, keys: seq<KeyBits48>, block: Block64Bits): Block64Bits {
    Cipher(S, P, Backwards(keys), block)
  }

  lemma ReversedWords(ks: seq<bv64>)
    ensures KeyWordsBits(Reversed(ks)) == Backwards(KeyWordsBits(ks))
  {
    hide KeyWordBits;
  }

  /** From the bytes of the key and the block to the bytes of the result: the code is FIPS 46-3, for any S-boxes
      and P. */
  lemma DesIsFips(sb: SBoxes, S: SBox, P: PTable, key: seq<bv8>, ks: seq<bv64>, data: Double)
    requires Combined(sb, S, P) && |key| == 8 && IsSchedule(key, ks)
    ensures BlockBits(Block(FRK(sb), ks, data, true)) == Cipher(S, P, RoundKeys(KeyBits(key)), BlockBits(data))
    ensures BlockBits(Block(FRK(sb), ks, data, false)) == Decipher(S, P, RoundKeys(KeyBits(key)), BlockBits(data))
  {
    hide Combined, FRK, Block, BlockBits, Cipher, IsSchedule, KeyBits, KeyWordsBits, RoundKeys, Reversed, Backwards;
    ScheduleIsKS(key, ks);
    BlockIsCipher(sb, S, P, ks, data, true);
    BlockIsCipher(sb, S, P, ks, data, false);
    ReversedWords(ks);
  }
}
