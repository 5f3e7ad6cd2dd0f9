/** The hash driver of lib/sha_one_block.c: whole blocks from the data, then one or two blocks of padding, around
    any compression function. */
module Sha {
  import opened Words
  import opened Bits

  /** The union of 32-bit and 64-bit chaining values; a hash uses the one or the other. */
  datatype Values = Values(digest1: seq<bv32>, digest2: seq<Double>)
  type State = v: Values | |v.digest1| == 8 && |v.digest2| == 8
    witness Values(seq(8, _ => 0), seq(8, _ => Double(0, 0)))

  type Compression = (State, seq<bv8>) -> State

  // ---- Padding, as in section 5.1 of FIPS 180-4 ----

  function Append(b: bv8, bit: bool): bv8 {
    if bit then (b << 1) | 1 else b << 1
  }

  /** The byte of value n, from its binary digits. */
  function ByteOf(n: int): bv8
    requires 0 <= n < 256
  {
    if n == 0 then 0 else Append(ByteOf(n / 2), n % 2 == 1)
  }

  function Zeros(n: nat): (r: seq<bv8>)
    ensures |r| == n && forall i | 0 <= i < n :: r[i] == 0
  {
    seq(n, _ => 0)
  }

  /** The n lowest base-256 digits of v, the highest first. */
  function BigEndian(v: nat, n: nat): (r: seq<bv8>)
    ensures |r| == n
  {
    if n == 0 then [] else BigEndian(v / 256, n - 1) + [ByteOf(v % 256)]
  }

  ghost predicate IsSize(blk: nat, pad: nat) {
    (blk == 64 && pad == 8) || (blk == 128 && pad == 16)
  }

  /** The number of zero bytes that completes the last block. */
  function Gap(length: nat, blk: nat, pad: nat): nat
    requires IsSize(blk, pad)
  {
    (2 * blk - 1 - pad - length % blk) % blk
  }

  /** The message, a 1 bit, zeros and a length field. */
  function Padded(data: seq<bv8>, blk: nat, field: seq<bv8>): (m: seq<bv8>)
    requires IsSize(blk, |field|)
  {
    data + [0x80] + Zeros(Gap(|data|, blk, |field|)) + field
  }

  /** The padding of FIPS 180-4: the length in bits fills the field. */
  function FipsPadded(data: seq<bv8>, blk: nat, pad: nat): seq<bv8>
    requires IsSize(blk, pad)
  {
    Padded(data, blk, BigEndian(8 * |data|, pad))
  }

  const TWO_TO_64: nat := 0x1_0000_0000_0000_0000

  /** The driver's: the length in bits is a 64-bit word, at the end of a field that is otherwise zero. */
  function DriverPadded(data: seq<bv8>, blk: nat, pad: nat): seq<bv8>
    requires IsSize(blk, pad)
  {
    Padded(data, blk, Zeros(pad - 8) + BigEndian(8 * |data| % TWO_TO_64, 8))
  }

  // ---- Numbers as bytes ----

  /** A byte of at most j binary digits. */
  predicate Below(b: bv8, j: nat) {
    if j == 0 then b == 0 else if j == 1 then b < 2 else if j == 2 then b < 4 else if j == 3 then b < 8
    else if j == 4 then b < 16 else if j == 5 then b < 32 else if j == 6 then b < 64 else b < 128
  }

  function Power2(j: nat): nat {
    if j == 0 then 1 else 2 * Power2(j - 1)
  }

  lemma AppendBelow(b: bv8, bit: bool, j: nat)
    requires j < 7 && Below(b, j)
    ensures Below(Append(b, bit), j + 1)
  {
  }

  lemma ZeroBelow(j: nat)
    ensures Below(0, j)
  {
  }

  lemma {:induction false} ByteOfBelow(n: int, j: nat)
    requires 0 <= n < Power2(j) && n < 256 && j <= 7
    ensures Below(ByteOf(n), j)
    decreases j
  {
    hide Below, Append;
    ZeroBelow(j);
    if n > 0 {
      ByteOfBelow(n / 2, j - 1);
      AppendBelow(ByteOf(n / 2), n % 2 == 1, j - 1);
    }
  }

  /** The number of a byte: the weights of its set bits from bit j on, bit j counting one. */
  function ByteValue(b: bv8, j: nat): nat
    requires j <= 8
    decreases 8 - j
  {
    if j == 8 then 0 else (if ByteBit(b, j) then 1 else 0) + 2 * ByteValue(b, j + 1)
  }

  lemma AppendBit(b: bv8, bit: bool, j: nat)
    requires j < 8
    ensures ByteBit(Append(b, bit), j) <==> if j == 0 then bit else ByteBit(b, j - 1)
  {
  }

  lemma HighBitClear(b: bv8)
    requires Below(b, 7)
    ensures !ByteBit(b, 7)
  {
  }

  lemma {:induction false} AppendValue(b: bv8, bit: bool, j: nat)
    requires 1 <= j <= 8 && Below(b, 7)
    ensures ByteValue(Append(b, bit), j) == ByteValue(b, j - 1)
    decreases 8 - j
  {
    hide Append, Below, ByteBit;
    HighBitClear(b);
    if j == 8 {
      assert ByteValue(b, 8) == 0;
    } else {
      AppendBit(b, bit, j);
      AppendValue(b, bit, j + 1);
    }
  }

  lemma ZeroValue(j: nat)
    requires j <= 8
    ensures ByteValue(0, j) == 0
    decreases 8 - j
  {
    if j < 8 {
      ZeroValue(j + 1);
    }
  }

  /** The byte of value n has the number n. */
  lemma {:induction false} ByteOfValue(n: int)
    requires 0 <= n < 256
    ensures ByteValue(ByteOf(n), 0) == n
  {
    hide Append, Below, ByteBit;
    if n == 0 {
      ZeroValue(0);
    } else {
      assert Power2(7) == 128;
      ByteOfBelow(n / 2, 7);
      ByteOfValue(n / 2);
      AppendBit(ByteOf(n / 2), n % 2 == 1, 0);
      AppendValue(ByteOf(n / 2), n % 2 == 1, 1);
    }
  }

  lemma ByteOfInjective(m: int, n: int)
    requires 0 <= m < 256 && 0 <= n < 256 && ByteOf(m) == ByteOf(n)
    ensures m == n
  {
    ByteOfValue(m);
    ByteOfValue(n);
  }

  /** The number that bytes stand for, the most significant first. */
  function NumberOf(b: seq<bv8>): nat {
    if b == [] then 0 else 256 * NumberOf(b[..|b| - 1]) + ByteValue(b[|b| - 1], 0)
  }

  function Power256(n: nat): (p: nat)
    ensures p > 0
  {
    if n == 0 then 1 else 256 * Power256(n - 1)
  }

  lemma {:induction false} BigEndianInjective(v: nat, w: nat, n: nat)
    requires v < Power256(n) && w < Power256(n) && BigEndian(v, n) == BigEndian(w, n)
    ensures v == w
  {
    hide ByteOf;
    if n > 0 {
      var x, y := BigEndian(v, n), BigEndian(w, n);
      assert x[n - 1] == ByteOf(v % 256) && y[n - 1] == ByteOf(w % 256);
      assert x[..n - 1] == BigEndian(v / 256, n - 1) && y[..n - 1] == BigEndian(w / 256, n - 1);
      ByteOfInjective(v % 256, w % 256);
      BigEndianInjective(v / 256, w / 256, n - 1);
    }
  }

  lemma {:induction false} BigEndianZero(n: nat)
    ensures BigEndian(0, n) == Zeros(n)
  {
    if n > 0 {
      BigEndianZero(n - 1);
      assert ByteOf(0) == 0;
    }
  }

  function Low(v: nat, n: nat): nat {
    if n == 0 then 0 else 256 * Low(v / 256, n - 1) + v % 256
  }

  function High(v: nat, n: nat): nat {
    if n == 0 then v else High(v / 256, n - 1)
  }

  /** The n low digits and the digits above them. */
  lemma {:induction false} BigEndianSplit(v: nat, a: nat, n: nat)
    ensures BigEndian(v, a + n) == BigEndian(High(v, n), a) + BigEndian(Low(v, n), n)
    decreases n
  {
    hide ByteOf;
    if n > 0 {
      BigEndianSplit(v / 256, a, n - 1);
      assert Low(v, n) / 256 == Low(v / 256, n - 1);
    }
  }

  lemma {:induction false} LowBound(v: nat, n: nat)
    ensures Low(v, n) < Power256(n)
  {
    if n > 0 {
      LowBound(v / 256, n - 1);
    }
  }

  lemma {:induction false} HighAndLow(v: nat, n: nat)
    ensures v == Power256(n) * High(v, n) + Low(v, n)
  {
    if n > 0 {
      HighAndLow(v / 256, n - 1);
      Regroup(v / 256, Power256(n - 1), High(v / 256, n - 1), Low(v / 256, n - 1), v % 256);
    }
  }

  /** The digits of a number stand for its remainder. */
  lemma BigEndianValue(v: nat, n: nat)
    ensures NumberOf(BigEndian(v, n)) == v % Power256(n)
  {
    hide BigEndian, Power256;
    DigitsValue(v, n);
    HighAndLow(v, n);
    LowBound(v, n);
    Remainder(v, Power256(n), High(v, n), Low(v, n));
  }

  lemma {:induction false} DigitsValue(v: nat, n: nat)
    ensures NumberOf(BigEndian(v, n)) == Low(v, n)
  {
    hide ByteOf, ByteValue;
    if n > 0 {
      DigitsValue(v / 256, n - 1);
      ByteOfValue(v % 256);
      var b := BigEndian(v, n);
      assert b[..|b| - 1] == BigEndian(v / 256, n - 1) && b[|b| - 1] == ByteOf(v % 256);
    }
  }

  lemma {:induction false} AtLeast(p: nat, k: nat)
    requires k > 0
    ensures p * k >= p
  {
    if k > 1 {
      AtLeast(p, k - 1);
      assert p * k == p * (k - 1) + p;
    }
  }

  lemma Remainder(v: nat, p: nat, h: nat, l: nat)
    requires v == p * h + l && l < p
    ensures v % p == l
  {
    var q := v / p;
    assert v == p * q + v % p;
    if h > q {
      AtLeast(p, h - q);
    } else if h < q {
      AtLeast(p, q - h);
    }
  }

  lemma Regroup(w: nat, p: nat, h: nat, l: nat, d: nat)
    requires w == p * h + l
    ensures 256 * w + d == (256 * p) * h + (256 * l + d)
  {
  }

  lemma Digits8(v: nat)
    ensures Power256(8) == TWO_TO_64 && High(v, 8) == v / TWO_TO_64 && Low(v, 8) == v % TWO_TO_64
  {
    assert Power256(4) == 0x1_0000_0000;
    assert Power256(8) == TWO_TO_64;
    LowBound(v, 8);
    HighAndLow(v, 8);
  }

  // ---- What the padding is good for ----

  /** Different messages have different padded forms. */
  lemma PaddingInjective(x: seq<bv8>, y: seq<bv8>, blk: nat, pad: nat)
    requires IsSize(blk, pad) && 8 * |x| < Power256(pad) && 8 * |y| < Power256(pad)
    requires FipsPadded(x, blk, pad) == FipsPadded(y, blk, pad)
    ensures x == y
  {
    hide BigEndian, Gap, Zeros, Power256;
    var m, n := FipsPadded(x, blk, pad), |FipsPadded(x, blk, pad)| - pad;
    assert m[n..] == BigEndian(8 * |x|, pad) == BigEndian(8 * |y|, pad);
    BigEndianInjective(8 * |x|, 8 * |y|, pad);
    assert m[..|x|] == x && m[..|y|] == y;
  }

  /** Where the driver's length field is that of FIPS 180-4: always in an 8-byte field; in a 16-byte field
      for messages of less than 2^61 bytes, and for those only. */
  lemma DriverPadsByFips(data: seq<bv8>, blk: nat, pad: nat)
    requires IsSize(blk, pad) && |data| < TWO_TO_64
    ensures DriverPadded(data, blk, pad) == FipsPadded(data, blk, pad) <==> pad == 8 || 8 * |data| < TWO_TO_64
  {
    hide BigEndian, Gap, Zeros, Power256, High, Low;
    var v := 8 * |data|;
    Digits8(v);
    BigEndianSplit(v, pad - 8, 8);
    var fips, driver := BigEndian(v, pad), Zeros(pad - 8) + BigEndian(v % TWO_TO_64, 8);
    assert fips == BigEndian(v / TWO_TO_64, pad - 8) + BigEndian(v % TWO_TO_64, 8);
    if v < TWO_TO_64 {
      BigEndianZero(pad - 8);
    } else if pad == 16 {
      assert driver[..8] == Zeros(8) && fips[..8] == BigEndian(v / TWO_TO_64, 8);
      BigEndianZero(8);
      if driver == fips {
        BigEndianInjective(v / TWO_TO_64, 0, 8);
        assert false;
      }
    }
    SamePadding(data, blk, fips, driver);
  }

  lemma SamePadding(data: seq<bv8>, blk: nat, f: seq<bv8>, g: seq<bv8>)
    requires IsSize(blk, |f|) && |g| == |f|
    ensures Padded(data, blk, f) == Padded(data, blk, g) <==> f == g
  {
    var m, n := Padded(data, blk, f), Padded(data, blk, g);
    assert m[|m| - |f|..] == f && n[|m| - |f|..] == g;
  }

  /** The shortest message that the driver pads otherwise for SHA-384 and SHA-512. */
  lemma LongMessageDiffers()
    ensures var data := Zeros(0x2000_0000_0000_0000);
            DriverPadded(data, 128, 16) != FipsPadded(data, 128, 16)
  {
    hide DriverPadded, FipsPadded;
    DriverPadsByFips(Zeros(0x2000_0000_0000_0000), 128, 16);
  }

  // ---- Hashing a padded message, as in section 6 of FIPS 180-4 ----

  /** The chaining value after the whole blocks of m, one compression each. */
  function Absorb(c: Compression, s: State, m: seq<bv8>, blk: nat): State
    requires blk > 0
    decreases |m|
  {
    if |m| < blk then s else Absorb(c, c(s, m[..blk]), m[blk..], blk)
  }

  lemma AbsorbBlock(c: Compression, s: State, block: seq<bv8>, rest: seq<bv8>, blk: nat)
    requires |block| == blk > 0
    ensures Absorb(c, s, block + rest, blk) == Absorb(c, c(s, block), rest, blk)
  {
    assert (block + rest)[..blk] == block && (block + rest)[blk..] == rest;
  }

  lemma AbsorbNothing(c: Compression, s: State, blk: nat)
    requires blk > 0
    ensures Absorb(c, s, [], blk) == s
  {
  }

  // ---- The driver ----

  /** `bswap8` */
  function Bswap8(x: Double): Double {
    Double(Bswap4(x.low), Bswap4(x.high))
  }

  lemma Bswap4Bytes(w: bv32)
    ensures WordByte(Bswap4(w), 0) == WordByte(w, 3) && WordByte(Bswap4(w), 1) == WordByte(w, 2)
    ensures WordByte(Bswap4(w), 2) == WordByte(w, 1) && WordByte(Bswap4(w), 3) == WordByte(w, 0)
  {
  }

  function Word(a: bv8, b: bv8, c: bv8, d: bv8): bv32 {
    ((a as bv32) << 24) | ((b as bv32) << 16) | ((c as bv32) << 8) | (d as bv32)
  }

  lemma WordBytes(a: bv8, b: bv8, c: bv8, d: bv8)
    ensures var w := Word(a, b, c, d);
            WordByte(w, 0) == a && WordByte(w, 1) == b && WordByte(w, 2) == c && WordByte(w, 3) == d
  {
  }

  /** The 64-bit word of value v. */
  function Uint64(v: nat): Double
    requires v < TWO_TO_64
  {
    var b := BigEndian(v, 8);
    Double(Word(b[0], b[1], b[2], b[3]), Word(b[4], b[5], b[6], b[7]))
  }

  /** The first |items| elements from `at` on are the items; the others are as before. */
  ghost predicate Stored(before: seq<bv8>, after: seq<bv8>, at: nat, items: seq<bv8>) {
    && at + |items| <= |before| == |after|
    && after == before[..at] + items + before[at + |items|..]
  }

  lemma SwappedBytes(v: nat, j: nat)
    requires v < TWO_TO_64 && j < 8
    ensures MemoryByte(Bswap8(Uint64(v)), j) == BigEndian(v, 8)[j]
  {
    hide BigEndian, Word, WordByte, Bswap4;
    var b := BigEndian(v, 8);
    WordBytes(b[0], b[1], b[2], b[3]);
    WordBytes(b[4], b[5], b[6], b[7]);
    Bswap4Bytes(Uint64(v).high);
    Bswap4Bytes(Uint64(v).low);
  }

  /** `store8_be` of the word of value v: one 64-bit store, so the lowest byte of the swapped word first. */
  method Store8Be(out: array<bv8>, at: nat, v: nat)
    requires v < TWO_TO_64 && at + 8 <= out.Length
    modifies out
    ensures Stored(old(out[..]), out[..], at, BigEndian(v, 8))
  {
    hide BigEndian, Uint64, Bswap8, MemoryByte;
    var w := Bswap8(Uint64(v));
    forall j | 0 <= j < 8 {
      out[at + j] := MemoryByte(w, j);
    }
    forall j: nat | j < 8 ensures MemoryByte(w, j) == BigEndian(v, 8)[j] { SwappedBytes(v, j); }
  }

  /** `var_memcpy` */
  method VarMemcpy(dst: array<bv8>, src: seq<bv8>)
    requires |src| <= dst.Length
    modifies dst
    ensures Stored(old(dst[..]), dst[..], 0, src)
  {
    for i := 0 to |src|
      invariant forall k | 0 <= k < dst.Length :: dst[k] == if k < i then src[k] else old(dst[k])
    {
      dst[i] := src[i];
    }
  }

  /** 32-bit words, each with its most significant byte first. */
  function Bytes4(w: seq<bv32>): (r: seq<bv8>)
    ensures |r| == 4 * |w| && forall k | 0 <= k < |r| :: r[k] == WordByte(w[k / 4], k % 4)
  {
    seq(4 * |w|, k requires 0 <= k < 4 * |w| => WordByte(w[k / 4], k % 4))
  }

  function DoubleByte(x: Double, k: nat): bv8
    requires k < 8
  {
    if k < 4 then WordByte(x.high, k) else WordByte(x.low, k - 4)
  }

  /** 64-bit words, each with its most significant byte first. */
  function Bytes8(w: seq<Double>): (r: seq<bv8>)
    ensures |r| == 8 * |w| && forall k | 0 <= k < |r| :: r[k] == DoubleByte(w[k / 8], k % 8)
  {
    seq(8 * |w|, k requires 0 <= k < 8 * |w| => DoubleByte(w[k / 8], k % 8))
  }

  lemma Bswap8Bytes(x: Double, j: nat)
    requires j < 8
    ensures MemoryByte(Bswap8(x), j) == DoubleByte(x, j)
  {
    hide WordByte, Bswap4;
    if j < 4 {
      Bswap4Byte(x.high, j);
    } else {
      Bswap4Byte(x.low, j - 4);
    }
  }

  lemma Bswap4Byte(w: bv32, j: nat)
    requires j < 4
    ensures WordByte(Bswap4(w), 3 - j) == WordByte(w, j)
  {
    hide WordByte, Bswap4;
    Bswap4Bytes(w);
  }

  /** `copy_bswap4_array` */
  method CopyBswap4Array(dst: array<bv8>, src: seq<bv32>, num: nat)
    requires num <= |src| && 4 * num <= dst.Length
    modifies dst
    ensures Stored(old(dst[..]), dst[..], 0, Bytes4(src[..num]))
  {
    hide WordByte, Bswap4;
    for i := 0 to num
      invariant forall k | 0 <= k < dst.Length ::
                  dst[k] == if k < 4 * i then WordByte(src[k / 4], k % 4) else old(dst[k])
    {
      var w := Bswap4(src[i]);
      Bswap4Bytes(src[i]);
      assert forall j | 0 <= j < 4 :: WordByte(w, 3 - j) == WordByte(src[i], j);
      forall j | 0 <= j < 4 {
        dst[4 * i + j] := WordByte(w, 3 - j);
      }
    }
  }

  /** `copy_bswap8_array` */
  method CopyBswap8Array(dst: array<bv8>, src: seq<Double>, num: nat)
    requires num <= |src| && 8 * num <= dst.Length
    modifies dst
    ensures Stored(old(dst[..]), dst[..], 0, Bytes8(src[..num]))
  {
    hide MemoryByte, DoubleByte, Bswap8;
    for i := 0 to num
      invariant forall k | 0 <= k < dst.Length ::
                  dst[k] == if k < 8 * i then DoubleByte(src[k / 8], k % 8) else old(dst[k])
    {
      var w := Bswap8(src[i]);
      forall j: nat | j < 8 ensures MemoryByte(w, j) == DoubleByte(src[i], j) { Bswap8Bytes(src[i], j); }
      forall j | 0 <= j < 8 {
        dst[8 * i + j] := MemoryByte(w, j);
      }
    }
  }

  datatype ShaType = Sha1 | Sha224 | Sha256 | Sha384 | Sha512

  /** The leading words of the final chaining value, most significant byte first. */
  function DigestOf(t: ShaType, s: State): (r: seq<bv8>)
  {
    match t
    case Sha1 => Bytes4(s.digest1[..5])
    case Sha224 => Bytes4(s.digest1[..7])
    case Sha256 => Bytes4(s.digest1[..8])
    case Sha384 => Bytes8(s.digest2[..6])
    case Sha512 => Bytes8(s.digest2[..8])
  }

  function DigestSize(t: ShaType): nat {
    match t case Sha1 => 20 case Sha224 => 28 case Sha256 => 32 case Sha384 => 48 case Sha512 => 64
  }

  function BlockSize(t: ShaType): nat {
    if t.Sha384? || t.Sha512? then 128 else 64
  }

  function PadSize(t: ShaType): nat {
    if t.Sha384? || t.Sha512? then 16 else 8
  }

  /** The sizes of FIPS 180-4, in bits: the digest in the name of the hash (160 for SHA-1), blocks of 512 or 1024 and
      length fields of 64 or 128. */
  lemma HashSizes(s: State)
    ensures forall t :: |DigestOf(t, s)| == DigestSize(t) && IsSize(BlockSize(t), PadSize(t))
    ensures 8 * DigestSize(Sha1) == 160 && 8 * DigestSize(Sha224) == 224 && 8 * DigestSize(Sha256) == 256
    ensures 8 * DigestSize(Sha384) == 384 && 8 * DigestSize(Sha512) == 512
    ensures forall t | t in {Sha1, Sha224, Sha256} :: 8 * BlockSize(t) == 512 && 8 * PadSize(t) == 64
    ensures forall t | t in {Sha384, Sha512} :: 8 * BlockSize(t) == 1024 && 8 * PadSize(t) == 128
  {
  }

  /** `sha_generic_write_digest` */
  method WriteDigest(dst: array<bv8>, src: State, t: ShaType)
    requires DigestSize(t) <= dst.Length
    modifies dst
    ensures Stored(old(dst[..]), dst[..], 0, DigestOf(t, src))
  {
    match t
    case Sha1 => CopyBswap4Array(dst, src.digest1, 5);
    case Sha224 => CopyBswap4Array(dst, src.digest1, 7);
    case Sha256 => CopyBswap4Array(dst, src.digest1, 8);
    case Sha384 => CopyBswap8Array(dst, src.digest2, 6);
    case Sha512 => CopyBswap8Array(dst, src.digest2, 8);
  }

  /** The last bytes of the data as the driver lays them out: one block, or two when the length field does
      not fit after them. */
  lemma LastBlocks(tail: seq<bv8>, blk: nat, pad: nat, field: seq<bv8>)
    requires IsSize(blk, pad) && |tail| < blk && |field| == pad
    ensures Padded(tail, blk, field)
         == if |tail| < blk - pad then tail + [0x80] + Zeros(blk - pad - |tail| - 1) + field
            else (tail + [0x80] + Zeros(blk - |tail| - 1)) + (Zeros(blk - pad) + field)
  {
    assert |tail| % blk == |tail|;
    if |tail| < blk - pad {
      assert Gap(|tail|, blk, pad) == blk - pad - |tail| - 1;
    } else {
      assert Gap(|tail|, blk, pad) == 2 * blk - 1 - pad - |tail|;
      assert Zeros(blk - |tail| - 1) + Zeros(blk - pad) == Zeros(2 * blk - 1 - pad - |tail|);
    }
  }

  lemma SameGap(length: nat, blk: nat, pad: nat)
    requires IsSize(blk, pad) && length >= blk
    ensures Gap(length, blk, pad) == Gap(length - blk, blk, pad)
  {
    if blk == 64 {
      assert (length - 64) % 64 == length % 64;
    } else {
      assert (length - 128) % 128 == length % 128;
    }
  }

  /** A whole block of data is the first block of the padded message. */
  lemma FirstBlock(c: Compression, s: State, data: seq<bv8>, blk: nat, field: seq<bv8>)
    requires IsSize(blk, |field|) && |data| >= blk
    ensures Absorb(c, s, Padded(data, blk, field), blk)
            == Absorb(c, c(s, data[..blk]), Padded(data[blk..], blk, field), blk)
  {
    hide Gap, Zeros, Absorb;
    SameGap(|data|, blk, |field|);
    assert Padded(data, blk, field) == data[..blk] + Padded(data[blk..], blk, field);
    AbsorbBlock(c, s, data[..blk], Padded(data[blk..], blk, field), blk);
  }

  /** What the driver does with the fewer than blk bytes that are left is to absorb their padded form. */
  lemma AbsorbLast(c: Compression, s: State, tail: seq<bv8>, blk: nat, field: seq<bv8>)
    requires IsSize(blk, |field|) && |tail| < blk
    ensures Absorb(c, s, Padded(tail, blk, field), blk)
         == if |tail| < blk - |field| then c(s, tail + [0x80] + Zeros(blk - |field| - |tail| - 1) + field)
            else c(c(s, tail + [0x80] + Zeros(blk - |tail| - 1)), Zeros(blk - |field|) + field)
  {
    hide Padded, Gap, Zeros, Absorb;
    LastBlocks(tail, blk, |field|, field);
    if |tail| < blk - |field| {
      var b := tail + [0x80] + Zeros(blk - |field| - |tail| - 1) + field;
      assert b + [] == b;
      AbsorbBlock(c, s, b, [], blk);
      AbsorbNothing(c, c(s, b), blk);
    } else {
      var b1, b2 := tail + [0x80] + Zeros(blk - |tail| - 1), Zeros(blk - |field|) + field;
      AbsorbBlock(c, s, b1, b2, blk);
      assert b2 + [] == b2;
      AbsorbBlock(c, c(s, b1), b2, [], blk);
      AbsorbNothing(c, c(c(s, b1), b2), blk);
    }
  }

  lemma Over64(n: nat, r: nat)
    ensures (64 * n + r) / 64 == n + r / 64 && (64 * n + r) % 64 == r % 64
  {
  }

  lemma Over128(n: nat, r: nat)
    ensures (128 * n + r) / 128 == n + r / 128 && (128 * n + r) % 128 == r % 128
  {
  }

  lemma CallCount(length: nat, n: nat, r: nat, blk: nat, pad: nat)
    requires IsSize(blk, pad) && length == Times(n, blk) + r && r < blk
    ensures length % blk == r
    ensures (length + pad) / blk + 1 == n + if r >= blk - pad then 2 else 1
  {
    hide Times;
    TimesIs(n, blk);
    if blk == 64 {
      assert length == 64 * n + r;
      Over64(n, r);
      Over64(n, r + 8);
    } else {
      assert length == 128 * n + r;
      Over128(n, r);
      Over128(n, r + 16);
    }
  }

  /** Padding gives a whole number of blocks, the least that holds the message, a 1 bit and the field; it is
      the number of calls of the compression function. */
  lemma PaddedLength(data: seq<bv8>, blk: nat, field: seq<bv8>)
    requires IsSize(blk, |field|)
    ensures |Padded(data, blk, field)| == Times((|data| + |field|) / blk + 1, blk)
  {
    hide Gap, Zeros, Times;
    var n, r := |data| / blk, |data| % blk;
    ChunkCount(|data|, blk);
    GapIs(|data|, blk, |field|);
    CallCount(|data|, n, r, blk, |field|);
    ChunkLeft(n + 1, blk);
    ChunkLeft(n + 2, blk);
  }

  lemma GapIs(length: nat, blk: nat, pad: nat)
    requires IsSize(blk, pad)
    ensures var r := length % blk; Gap(length, blk, pad) == (if r < blk - pad then blk else 2 * blk) - 1 - pad - r
  {
    var r := length % blk;
    if blk == 64 {
      Reduce(119 - r, 64);
    } else {
      Reduce(239 - r, 128);
    }
  }

  lemma Reduce(x: nat, m: nat)
    requires 0 < m && x < 2 * m
    ensures x % m == if x < m then x else x - m
  {
    if x >= m {
      assert (x - m) % m == x - m;
    }
  }

  /** The condition of the driver's loop, in 64-bit arithmetic. */
  predicate MoreBlocks(length: nat, idx: nat, blk: nat) {
    (idx + blk) % TWO_TO_64 <= length
  }

  lemma NoWrap(length: nat, idx: nat, blk: nat)
    requires idx <= length && length + blk < TWO_TO_64
    ensures MoreBlocks(length, idx, blk) <==> idx + blk <= length
  {
  }

  /** The loop has an end for messages that are shorter than 2^64 bytes by more than a block, and for those only:
      for a longer one the condition holds at every multiple of the block size that the index can have. */
  lemma LoopEndsIff(length: nat, blk: nat, pad: nat)
    requires IsSize(blk, pad) && length < TWO_TO_64
    ensures (exists idx: nat | idx < TWO_TO_64 && idx % blk == 0 :: !MoreBlocks(length, idx, blk))
       <==> length + blk < TWO_TO_64
  {
    if length + blk < TWO_TO_64 {
      var idx := length - length % blk;
      ChunkCount(length, blk);
      WholeBlocks(length / blk, blk);
      assert idx == Times(length / blk, blk);
      assert !MoreBlocks(length, idx, blk);
    } else {
      forall idx: nat | idx < TWO_TO_64 && idx % blk == 0
        ensures MoreBlocks(length, idx, blk)
      {
        LastMultiple(idx, blk);
      }
    }
  }

  lemma WholeBlocks(n: nat, blk: nat)
    requires blk == 64 || blk == 128
    ensures Times(n, blk) % blk == 0
  {
    TimesIs(n, blk);
    if blk == 64 {
      assert (64 * n) % 64 == 0;
    } else {
      assert (128 * n) % 128 == 0;
    }
  }

  lemma LastMultiple(idx: nat, blk: nat)
    requires (blk == 64 || blk == 128) && idx < TWO_TO_64 && idx % blk == 0
    ensures idx + blk <= TWO_TO_64
  {
  }

  function Digest(c: Compression, init: State, t: ShaType, m: seq<bv8>): seq<bv8> {
    DigestOf(t, Absorb(c, init, m, BlockSize(t)))
  }

  /** `sha_generic`, with a count of the calls of the compression function. */
  method ShaGeneric(c: Compression, init: State, data: seq<bv8>, digest: array<bv8>, t: ShaType)
    returns (ghost calls: nat)
    requires |data| + BlockSize(t) < TWO_TO_64 && DigestSize(t) <= digest.Length
    modifies digest
    ensures Stored(old(digest[..]), digest[..], 0,
                   Digest(c, init, t, DriverPadded(data, BlockSize(t), PadSize(t))))
    ensures 8 * |data| < TWO_TO_64 ==>
              Stored(old(digest[..]), digest[..], 0, Digest(c, init, t, FipsPadded(data, BlockSize(t), PadSize(t))))
    ensures calls == (|data| + PadSize(t)) / BlockSize(t) + 1
  {
    hide BigEndian, Gap, Zeros, DigestOf, Absorb, Padded, FipsPadded, Stored, Times, MoreBlocks;
    var blkSize, padSize := BlockSize(t), PadSize(t);
    var length, ld, idx := |data|, init, 0;
    ghost var field := Zeros(padSize - 8) + BigEndian(8 * length % TWO_TO_64, 8);
    ghost var want := Absorb(c, init, DriverPadded(data, blkSize, padSize), blkSize);
    calls := 0;
    assert data[0..] == data;
    ghost var bytes := digest[..];
    NoChunkLeft(blkSize);
    NoWrap(length, idx, blkSize);
    while MoreBlocks(length, idx, blkSize)
      invariant idx <= length && idx == Times(calls, blkSize)
      invariant MoreBlocks(length, idx, blkSize) <==> idx + blkSize <= length
      invariant digest[..] == bytes
      invariant Absorb(c, ld, Padded(data[idx..], blkSize, field), blkSize) == want
      decreases length - idx
    {
      FirstBlock(c, ld, data[idx..], blkSize, field);
      assert data[idx..][..blkSize] == data[idx..idx + blkSize] && data[idx..][blkSize..] == data[idx + blkSize..];
      ChunkLeft(calls + 1, blkSize);
      ld := c(ld, data[idx..idx + blkSize]);
      calls := calls + 1;
      idx := idx + blkSize;
      NoWrap(length, idx, blkSize);
    }
    CallCount(length, calls, length - idx, blkSize, padSize);
    AbsorbLast(c, ld, data[idx..], blkSize, field);
    ld, calls := LastCalls(c, ld, data[idx..], length, blkSize, padSize, calls);
    assert ld == want;
    assert digest[..] == bytes;
    WriteDigest(digest, ld, t);
    DriverPadsByFips(data, blkSize, padSize);
  }

  /** The block as copied: the data, a 1 bit, zeros. */
  lemma MarkedBlock(cb: seq<bv8>, tail: seq<bv8>, blk: nat)
    requires |tail| < blk <= 128 && |cb| == 128 && Stored(Zeros(128), cb, 0, tail)
    ensures cb[|tail| := 0x80][..blk] == tail + [0x80] + Zeros(blk - |tail| - 1)
  {
  }

  /** A length stored at the end of a block that ends in zeros. */
  lemma LengthStored(cb: seq<bv8>, cb': seq<bv8>, head: seq<bv8>, blk: nat, pad: nat, length8: seq<bv8>)
    requires IsSize(blk, pad) && |cb| == 128 && |length8| == 8 && |head| <= blk - pad
    requires cb[..blk] == head + Zeros(blk - |head|) && Stored(cb, cb', blk - 8, length8)
    ensures cb'[..blk] == head + Zeros(blk - pad - |head|) + (Zeros(pad - 8) + length8)
  {
    assert cb'[..blk] == cb[..blk - 8] + length8;
    assert cb[..blk - 8] == cb[..blk][..blk - 8];
  }

  /** The end of `sha_generic`: the block cb, once or twice. */
  method LastCalls(c: Compression, s: State, tail: seq<bv8>, length: nat, blkSize: nat, padSize: nat, ghost before: nat)
    returns (ld: State, ghost calls: nat)
    requires IsSize(blkSize, padSize) && |tail| < blkSize
    ensures var field := Zeros(padSize - 8) + BigEndian(8 * length % TWO_TO_64, 8);
            ld == Absorb(c, s, Padded(tail, blkSize, field), blkSize)
    ensures calls == before + if |tail| >= blkSize - padSize then 2 else 1
  {
    hide BigEndian, Gap, Absorb, Padded, Stored, Zeros;
    ghost var length8 := BigEndian(8 * length % TWO_TO_64, 8);
    ghost var field := Zeros(padSize - 8) + length8;
    AbsorbLast(c, s, tail, blkSize, field);
    ld, calls := s, before;
    var r := |tail|;
    var cb := new bv8[128](_ => 0);
    assert cb[..] == Zeros(128);
    VarMemcpy(cb, tail);
    MarkedBlock(cb[..], tail, blkSize);
    cb[r] := 0x80;
    ghost var head := tail + [0x80];
    assert cb[..blkSize] == cb[..][..blkSize] == head + Zeros(blkSize - |head|);
    if r >= blkSize - padSize {
      ld := c(ld, cb[..blkSize]);
      calls := calls + 1;
      forall k | 0 <= k < cb.Length { cb[k] := 0; }
      head := [];
      assert cb[..blkSize] == head + Zeros(blkSize - |head|);
    }
    ghost var full := cb[..];
    Store8Be(cb, blkSize - 8, 8 * length % TWO_TO_64);
    LengthStored(full, cb[..], head, blkSize, padSize, length8);
    assert cb[..][..blkSize] == cb[..blkSize];
    assert [] + Zeros(blkSize - padSize) + field == Zeros(blkSize - padSize) + field;
    ld := c(ld, cb[..blkSize]);
    calls := calls + 1;
  }
}
