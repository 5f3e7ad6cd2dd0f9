/** CBC, 3DES CBC and DOCSIS modes of lib/des_basic.c. A buffer is its whole 64-bit words followed by 0 to
    7 bytes; input and output may be the same buffer. */
module DesModes {
  import opened Words
  import opened Bits
  import opened Bits32
  import opened DesBlock
  import opened DesKey
  import opened DesFips

  function XorDouble(x: Double, y: Double): Double {
    Double(Xor(x.high, y.high), Xor(x.low, y.low))
  }

  lemma XorDoubleTwice(x: Double, y: Double)
    ensures XorDouble(XorDouble(x, y), y) == x
  {
    hide Xor;
    XorUndone(x.high, y.high);
    XorUndone(x.low, y.low);
  }

  /** Each bit of a block combined with the bit in its place. */
  lemma XorDoubleBit(x: Double, y: Double, i: nat)
    requires i < 64
    ensures BlockBits(XorDouble(x, y))[i] == (BlockBits(x)[i] != BlockBits(y)[i])
  {
    hide Bit32, Xor, BlockBits;
    BlockBitAt(x, i);
    BlockBitAt(y, i);
    BlockBitAt(XorDouble(x, y), i);
    var k := 8 * (i / 8 % 4) + (7 - i % 8);
    if i / 8 < 4 {
      Xor32Bit(x.low, y.low, k);
    } else {
      Xor32Bit(x.high, y.high, k);
    }
  }

  lemma XorDoubleZero(x: Double)
    ensures XorDouble(Double(0, 0), x) == x
  {
    hide Xor;
    XorZero(x.high);
    XorZero(x.low);
  }

  type Permutation = Double -> Double

  ghost predicate Inverse(d: Permutation, e: Permutation) {
    forall x :: d(e(x)) == x
  }

  // ---- Cipher block chaining ----

  /** The block before block i, or the initialization vector. */
  function Before(iv: Double, blocks: seq<Double>, i: nat): Double
    requires i <= |blocks|
  {
    if i == 0 then iv else blocks[i - 1]
  }

  /** Ciphertext block i. */
  function Chained(e: Permutation, iv: Double, p: seq<Double>, i: nat): Double
    requires i < |p|
    decreases i, 1
  {
    e(XorDouble(p[i], Link(e, iv, p, i)))
  }

  /** What plaintext block n is combined with. */
  function Link(e: Permutation, iv: Double, p: seq<Double>, n: nat): Double
    requires n <= |p|
    decreases n, 0
  {
    if n == 0 then iv else Chained(e, iv, p, n - 1)
  }

  /** One encryption step stores Chained block n, which is the next link. */
  lemma NextLink(e: Permutation, iv: Double, p: seq<Double>, n: nat)
    requires n < |p|
    ensures Chained(e, iv, p, n) == Link(e, iv, p, n + 1) == e(XorDouble(p[n], Link(e, iv, p, n)))
  {
  }

  lemma FirstLink(e: Permutation, iv: Double, p: seq<Double>)
    ensures Link(e, iv, p, 0) == iv
  {
  }

  function CbcEnc(e: Permutation, iv: Double, p: seq<Double>): (c: seq<Double>)
    ensures |c| == |p| && forall i | 0 <= i < |p| :: c[i] == Chained(e, iv, p, i)
  {
    seq(|p|, i requires 0 <= i < |p| => Chained(e, iv, p, i))
  }

  /** Plaintext block i. */
  function Unchained(d: Permutation, iv: Double, c: seq<Double>, i: nat): Double
    requires i < |c|
  {
    XorDouble(d(c[i]), Before(iv, c, i))
  }

  function CbcDec(d: Permutation, iv: Double, c: seq<Double>): (p: seq<Double>)
    ensures |p| == |c| && forall i | 0 <= i < |c| :: p[i] == Unchained(d, iv, c, i)
  {
    seq(|c|, i requires 0 <= i < |c| => Unchained(d, iv, c, i))
  }

  /** Decryption undoes encryption on every sequence of blocks. */
  lemma CbcRoundTrip(e: Permutation, d: Permutation, iv: Double, p: seq<Double>)
    requires Inverse(d, e)
    ensures CbcDec(d, iv, CbcEnc(e, iv, p)) == p
  {
    hide XorDouble;
    var c := CbcEnc(e, iv, p);
    forall i | 0 <= i < |p|
      ensures CbcDec(d, iv, c)[i] == p[i]
    {
      NextLink(e, iv, p, i);
      if i > 0 { NextLink(e, iv, p, i - 1); }
      XorDoubleTwice(p[i], Before(iv, c, i));
      assert c[i] == e(XorDouble(p[i], Before(iv, c, i)));
    }
  }

  /** One block is combined with the initialization vector and enciphered; a block of zeros gives the enciphered
      vector. */
  lemma CbcOneBlock(e: Permutation, iv: Double, x: Double)
    ensures CbcEnc(e, iv, [x]) == [e(XorDouble(x, iv))]
    ensures CbcEnc(e, iv, [Double(0, 0)]) == [e(iv)]
  {
    hide XorDouble;
    NextLink(e, iv, [x], 0);
    NextLink(e, iv, [Double(0, 0)], 0);
    XorDoubleZero(iv);
  }

  /** Encrypting a concatenation is encrypting its parts, the second with the last block of the first as its
      initialization vector. */
  lemma CbcConcat(e: Permutation, iv: Double, p: seq<Double>, q: seq<Double>)
    ensures var c := CbcEnc(e, iv, p);
            CbcEnc(e, iv, p + q) == c + CbcEnc(e, if c == [] then iv else c[|c| - 1], q)
  {
    var c := CbcEnc(e, iv, p);
    forall i | 0 <= i < |p| + |q|
      ensures Chained(e, iv, p + q, i) == if i < |p| then c[i] else Chained(e, Before(iv, c, |p|), q, i - |p|)
    {
      ChainedConcat(e, iv, p, q, i);
    }
  }

  /** A changed initialization vector changes exactly the bits in the same places of the first plaintext block, and no
      other block. */
  lemma CbcVectorSpread(d: Permutation, iv: Double, iv': Double, c: seq<Double>)
    requires c != []
    ensures var p, p' := CbcDec(d, iv, c), CbcDec(d, iv', c);
            && (forall i | 0 <= i < 64 ::
                  (BlockBits(p'[0])[i] != BlockBits(p[0])[i]) == (BlockBits(iv')[i] != BlockBits(iv)[i]))
            && forall n | 0 < n < |c| :: p'[n] == p[n]
  {
    hide XorDouble, BlockBits;
    var p, p' := CbcDec(d, iv, c), CbcDec(d, iv', c);
    forall i: nat | i < 64
      ensures (BlockBits(p'[0])[i] != BlockBits(p[0])[i]) == (BlockBits(iv')[i] != BlockBits(iv)[i])
    {
      XorDoubleBit(d(c[0]), iv, i);
      XorDoubleBit(d(c[0]), iv', i);
    }
  }

  lemma {:induction false} ChainedConcat(e: Permutation, iv: Double, p: seq<Double>, q: seq<Double>, i: nat)
    requires i < |p| + |q|
    ensures var c := CbcEnc(e, iv, p);
            Chained(e, iv, p + q, i) == if i < |p| then c[i] else Chained(e, Before(iv, c, |p|), q, i - |p|)
  {
    hide XorDouble;
    NextLink(e, iv, p + q, i);
    if i < |p| {
      NextLink(e, iv, p, i);
    } else {
      NextLink(e, Before(iv, CbcEnc(e, iv, p), |p|), q, i - |p|);
    }
    if i > 0 {
      ChainedConcat(e, iv, p, q, i - 1);
    }
  }

  /** A changed ciphertext block changes its own plaintext block and the next one, and no other; the next one
      exactly by the change. */
  lemma CbcErrorSpread(d: Permutation, iv: Double, c: seq<Double>, j: nat, x: Double)
    requires j < |c|
    ensures var p, p' := CbcDec(d, iv, c), CbcDec(d, iv, c[j := x]);
            && (forall i | 0 <= i < |c| && i != j && i != j + 1 :: p'[i] == p[i])
            && (j + 1 < |c| ==> XorDouble(p'[j + 1], x) == XorDouble(p[j + 1], c[j]))
  {
    hide XorDouble;
    if j + 1 < |c| {
      XorDoubleTwice(d(c[j + 1]), c[j]);
      XorDoubleTwice(d(c[j + 1]), x);
    }
  }

  // ---- The ciphers ----

  function DesEnc(f: RoundFunction, ks: seq<bv64>): Permutation {
    x => Block(f, ks, x, true)
  }

  function DesDec(f: RoundFunction, ks: seq<bv64>): Permutation {
    x => Block(f, ks, x, false)
  }

  function Triple(f: RoundFunction, ks1: seq<bv64>, ks2: seq<bv64>, ks3: seq<bv64>, x: Double): Double {
    Block(f, ks3, Block(f, ks2, Block(f, ks1, x, true), false), true)
  }

  function TripleBack(f: RoundFunction, ks1: seq<bv64>, ks2: seq<bv64>, ks3: seq<bv64>, x: Double): Double {
    Block(f, ks1, Block(f, ks2, Block(f, ks3, x, false), true), false)
  }

  function Des3Enc(f: RoundFunction, ks1: seq<bv64>, ks2: seq<bv64>, ks3: seq<bv64>): Permutation {
    x => Triple(f, ks1, ks2, ks3, x)
  }

  function Des3Dec(f: RoundFunction, ks1: seq<bv64>, ks2: seq<bv64>, ks3: seq<bv64>): Permutation {
    x => TripleBack(f, ks1, ks2, ks3, x)
  }

  lemma DesInverse(f: RoundFunction, ks: seq<bv64>)
    ensures Inverse(DesDec(f, ks), DesEnc(f, ks))
  {
    hide Block;
    forall x
      ensures DesDec(f, ks)(DesEnc(f, ks)(x)) == x
    {
      BlockInverse(f, ks, x, true);
    }
  }

  lemma TripleInverse(f: RoundFunction, ks1: seq<bv64>, ks2: seq<bv64>, ks3: seq<bv64>, x: Double)
    ensures TripleBack(f, ks1, ks2, ks3, Triple(f, ks1, ks2, ks3, x)) == x
  {
    hide Block;
    var y := Block(f, ks1, x, true);
    BlockInverse(f, ks1, x, true);
    BlockInverse(f, ks2, y, false);
    BlockInverse(f, ks3, Block(f, ks2, y, false), true);
  }

  /** The triple is encipher, decipher, encipher of FIPS 46-3, under the first, the second and the third key. */
  lemma TripleIsFips(sb: SBoxes, S: SBox, P: PTable, key1: seq<bv8>, key2: seq<bv8>, key3: seq<bv8>,
                     ks1: seq<bv64>, ks2: seq<bv64>, ks3: seq<bv64>, x: Double)
    requires Combined(sb, S, P) && |key1| == |key2| == |key3| == 8
    requires IsSchedule(key1, ks1) && IsSchedule(key2, ks2) && IsSchedule(key3, ks3)
    ensures var k1, k2, k3 := RoundKeys(KeyBits(key1)), RoundKeys(KeyBits(key2)), RoundKeys(KeyBits(key3));
            BlockBits(Triple(FRK(sb), ks1, ks2, ks3, x))
            == Cipher(S, P, k3, Decipher(S, P, k2, Cipher(S, P, k1, BlockBits(x))))
  {
    hide Combined, FRK, Block, BlockBits, Cipher, Decipher, IsSchedule, KeyBits, RoundKeys;
    var f := FRK(sb);
    var y := Block(f, ks1, x, true);
    DesIsFips(sb, S, P, key1, ks1, x);
    DesIsFips(sb, S, P, key2, ks2, y);
    DesIsFips(sb, S, P, key3, ks3, Block(f, ks2, y, false));
  }

  lemma Des3Inverse(f: RoundFunction, ks1: seq<bv64>, ks2: seq<bv64>, ks3: seq<bv64>)
    ensures Inverse(Des3Dec(f, ks1, ks2, ks3), Des3Enc(f, ks1, ks2, ks3))
  {
    hide Triple, TripleBack;
    forall x
      ensures Des3Dec(f, ks1, ks2, ks3)(Des3Enc(f, ks1, ks2, ks3)(x)) == x
    {
      TripleInverse(f, ks1, ks2, ks3, x);
    }
  }

  /** With its first two keys equal, 3DES is DES under the third, on every buffer. */
  lemma Des3WithEqualKeys(f: RoundFunction, ks: seq<bv64>, ks3: seq<bv64>, iv: Double, p: seq<Double>)
    ensures CbcEnc(Des3Enc(f, ks, ks, ks3), iv, p) == CbcEnc(DesEnc(f, ks3), iv, p)
  {
    hide Block;
    var e3, e1 := Des3Enc(f, ks, ks, ks3), DesEnc(f, ks3);
    forall x
      ensures e3(x) == e1(x)
    {
      BlockInverse(f, ks, x, true);
    }
    forall i | 0 <= i < |p|
      ensures Chained(e3, iv, p, i) == Chained(e1, iv, p, i)
    {
      ChainedCongruence(e3, e1, iv, p, i);
    }
  }

  lemma {:induction false} ChainedCongruence(e: Permutation, e': Permutation, iv: Double, p: seq<Double>, i: nat)
    requires i < |p| && forall x :: e(x) == e'(x)
    ensures Chained(e, iv, p, i) == Chained(e', iv, p, i)
  {
    hide XorDouble;
    if i > 0 {
      ChainedCongruence(e, e', iv, p, i - 1);
    }
  }

  // ---- The loops ----

  /** A buffer now starts with the given items; the others are as they were. */
  ghost predicate Overwritten<T(!new)>(before: seq<T>, after: seq<T>, items: seq<T>) {
    && |items| <= |before| == |after|
    && forall k | 0 <= k < |before| :: after[k] == if k < |items| then items[k] else before[k]
  }

  lemma FirstBefore(iv: Double, c: seq<Double>)
    ensures Before(iv, c, 0) == iv
  {
  }

  lemma NextBefore(d: Permutation, iv: Double, c: seq<Double>, n: nat)
    requires n < |c|
    ensures Unchained(d, iv, c, n) == XorDouble(d(c[n]), Before(iv, c, n)) && Before(iv, c, n + 1) == c[n]
  {
  }

  /** `des_enc_cbc_basic` */
  method DesEncCbc(f: RoundFunction, input: array<Double>, output: array<Double>, size: nat, ks: seq<bv64>,
                   ivec: Double)
    requires |ks| == 16 && size / 8 <= input.Length && size / 8 <= output.Length
    modifies output
    ensures Overwritten(old(output[..]), output[..], CbcEnc(DesEnc(f, ks), ivec, old(input[..size / 8])))
  {
    hide Block, XorDouble, Chained, Link;
    var nblocks, iv := size / 8, ivec;
    ghost var e, p := DesEnc(f, ks), input[..nblocks];
    FirstLink(e, ivec, p);
    for n := 0 to nblocks
      invariant forall k | n <= k < nblocks :: input[k] == p[k]
      invariant iv == Link(e, ivec, p, n)
      invariant forall k | 0 <= k < n :: output[k] == Chained(e, ivec, p, k)
      invariant forall k | n <= k < output.Length :: output[k] == old(output[k])
    {
      NextLink(e, ivec, p, n);
      iv := EncDec1(f, XorDouble(input[n], iv), ks, true);
      output[n] := iv;
    }
  }

  /** `des_dec_cbc_basic` */
  method DesDecCbc(f: RoundFunction, input: array<Double>, output: array<Double>, size: nat, ks: seq<bv64>,
                   ivec: Double)
    requires |ks| == 16 && size / 8 <= input.Length && size / 8 <= output.Length
    modifies output
    ensures Overwritten(old(output[..]), output[..], CbcDec(DesDec(f, ks), ivec, old(input[..size / 8])))
  {
    hide Block, XorDouble, Before, Unchained;
    var nblocks, iv := size / 8, ivec;
    ghost var d, c := DesDec(f, ks), input[..nblocks];
    FirstBefore(ivec, c);
    for n := 0 to nblocks
      invariant forall k | n <= k < nblocks :: input[k] == c[k]
      invariant iv == Before(ivec, c, n)
      invariant forall k | 0 <= k < n :: output[k] == Unchained(d, ivec, c, k)
      invariant forall k | n <= k < output.Length :: output[k] == old(output[k])
    {
      NextBefore(d, ivec, c, n);
      var inBlock := input[n];
      var t := EncDec1(f, inBlock, ks, false);
      output[n] := XorDouble(t, iv);
      iv := inBlock;
    }
  }

  /** `des3_enc_cbc_basic` */
  method Des3EncCbc(f: RoundFunction, input: array<Double>, output: array<Double>, size: nat,
                    ks1: seq<bv64>, ks2: seq<bv64>, ks3: seq<bv64>, ivec: Double)
    requires |ks1| == |ks2| == |ks3| == 16 && size / 8 <= input.Length && size / 8 <= output.Length
    modifies output
    ensures Overwritten(old(output[..]), output[..], CbcEnc(Des3Enc(f, ks1, ks2, ks3), ivec, old(input[..size / 8])))
  {
    hide Block, XorDouble, Chained, Link;
    var nblocks, iv := size / 8, ivec;
    ghost var e, p := Des3Enc(f, ks1, ks2, ks3), input[..nblocks];
    FirstLink(e, ivec, p);
    for n := 0 to nblocks
      invariant forall k | n <= k < nblocks :: input[k] == p[k]
      invariant iv == Link(e, ivec, p, n)
      invariant forall k | 0 <= k < n :: output[k] == Chained(e, ivec, p, k)
      invariant forall k | n <= k < output.Length :: output[k] == old(output[k])
    {
      NextLink(e, ivec, p, n);
      var t := XorDouble(input[n], iv);
      t := EncDec1(f, t, ks1, true);
      t := EncDec1(f, t, ks2, false);
      t := EncDec1(f, t, ks3, true);
      iv := t;
      output[n] := t;
    }
  }

  /** `des3_dec_cbc_basic` */
  method Des3DecCbc(f: RoundFunction, input: array<Double>, output: array<Double>, size: nat,
                    ks1: seq<bv64>, ks2: seq<bv64>, ks3: seq<bv64>, ivec: Double)
    requires |ks1| == |ks2| == |ks3| == 16 && size / 8 <= input.Length && size / 8 <= output.Length
    modifies output
    ensures Overwritten(old(output[..]), output[..], CbcDec(Des3Dec(f, ks1, ks2, ks3), ivec, old(input[..size / 8])))
  {
    hide Block, XorDouble, Before, Unchained;
    var nblocks, iv := size / 8, ivec;
    ghost var d, c := Des3Dec(f, ks1, ks2, ks3), input[..nblocks];
    FirstBefore(ivec, c);
    for n := 0 to nblocks
      invariant forall k | n <= k < nblocks :: input[k] == c[k]
      invariant iv == Before(ivec, c, n)
      invariant forall k | 0 <= k < n :: output[k] == Unchained(d, ivec, c, k)
      invariant forall k | n <= k < output.Length :: output[k] == old(output[k])
    {
      NextBefore(d, ivec, c, n);
      var nextIv := input[n];
      var t := EncDec1(f, nextIv, ks3, false);
      t := EncDec1(f, t, ks2, true);
      t := EncDec1(f, t, ks1, false);
      output[n] := XorDouble(t, iv);
      iv := nextIv;
    }
  }

  /** Encrypting the whole words of one buffer into a second, and decrypting the second into a third, copies
      the words; any two of the buffers may be the same. */
  lemma BufferRoundTrip(e: Permutation, d: Permutation, iv: Double, n: nat,
                        plain: seq<Double>, cipher0: seq<Double>, cipher: seq<Double>, out0: seq<Double>,
                        out: seq<Double>)
    requires Inverse(d, e) && n <= |plain|
    requires Overwritten(cipher0, cipher, CbcEnc(e, iv, plain[..n]))
    requires Overwritten(out0, out, CbcDec(d, iv, cipher[..n]))
    ensures out[..n] == plain[..n]
  {
    CbcRoundTrip(e, d, iv, plain[..n]);
    assert cipher[..n] == CbcEnc(e, iv, plain[..n]);
  }

  // ---- DOCSIS: CBC over the whole words, CFB over the remaining 0 to 7 bytes ----

  function Cfb(t: Double, bytes: seq<bv8>): (r: seq<bv8>)
    requires |bytes| <= 8
    ensures |r| == |bytes|
  {
    seq(|bytes|, j requires 0 <= j < |bytes| => XorByte(bytes[j], MemoryByte(t, j)))
  }

  lemma CfbTwice(t: Double, bytes: seq<bv8>)
    requires |bytes| <= 8
    ensures Cfb(t, Cfb(t, bytes)) == bytes
  {
    hide MemoryByte;
    forall j | 0 <= j < |bytes|
      ensures Cfb(t, Cfb(t, bytes))[j] == bytes[j]
    {
      XorTwice(bytes[j], MemoryByte(t, j));
    }
  }

  function Shr8(t: Double): Double {
    Double(t.high >> 8, (t.low >> 8) | (t.high << 24))
  }

  function Shr16(t: Double): Double {
    Double(t.high >> 16, (t.low >> 16) | (t.high << 16))
  }

  lemma ShiftedBytes(h: bv32, l: bv32)
    ensures var w := (l >> 8) | (h << 24);
            WordByte(w, 3) == WordByte(l, 2) && WordByte(w, 2) == WordByte(l, 1)
            && WordByte(w, 1) == WordByte(l, 0) && WordByte(w, 0) == WordByte(h, 3)
    ensures var w := h >> 8;
            WordByte(w, 3) == WordByte(h, 2) && WordByte(w, 2) == WordByte(h, 1) && WordByte(w, 1) == WordByte(h, 0)
  {
  }

  lemma Shr8Byte(t: Double, j: nat)
    requires j < 7
    ensures MemoryByte(Shr8(t), j) == MemoryByte(t, j + 1)
  {
    hide WordByte;
    ShiftedBytes(t.high, t.low);
  }

  lemma Shr16IsTwice(t: Double)
    ensures Shr16(t) == Shr8(Shr8(t))
  {
  }

  lemma Shr16Byte(t: Double, j: nat)
    requires j < 6
    ensures MemoryByte(Shr16(t), j) == MemoryByte(t, j + 2)
  {
    hide MemoryByte, Shr8, Shr16;
    Shr16IsTwice(t);
    Shr8Byte(Shr8(t), j);
    Shr8Byte(t, j + 1);
  }

  /** n bytes from `at` on are combined with the first n of t, and no others. */
  ghost predicate Pieced(input: seq<bv8>, output: seq<bv8>, output': seq<bv8>, at: nat, n: nat, t: Double) {
    && at + n <= |input| && |output'| == |output| && n <= 8
    && forall k | 0 <= k < |output| ::
      output'[k] == if at <= k < at + n then XorByte(input[k], MemoryByte(t, k - at)) else output[k]
  }

  /** One access of 1, 2 or 4 bytes: read, combine, write. */
  method XorPiece(input: array<bv8>, output: array<bv8>, at: nat, n: nat, t: Double)
    requires (n == 1 || n == 2 || n == 4) && at + n <= input.Length && at + n <= output.Length
    modifies output
    ensures Pieced(old(input[..]), old(output[..]), output[..], at, n, t)
    ensures input[at + n..] == old(input[at + n..])
  {
    hide MemoryByte, XorByte;
    if n == 1 {
      output[at] := XorByte(input[at], MemoryByte(t, 0));
    } else if n == 2 {
      output[at], output[at + 1] := XorByte(input[at], MemoryByte(t, 0)), XorByte(input[at + 1], MemoryByte(t, 1));
    } else {
      output[at], output[at + 1], output[at + 2], output[at + 3] :=
        XorByte(input[at], MemoryByte(t, 0)), XorByte(input[at + 1], MemoryByte(t, 1)),
        XorByte(input[at + 2], MemoryByte(t, 2)), XorByte(input[at + 3], MemoryByte(t, 3));
    }
  }

  /** Two pieces one after the other are one piece. */
  lemma PiecesJoin(input: seq<bv8>, input': seq<bv8>, o: seq<bv8>, o': seq<bv8>, o'': seq<bv8>, at: nat, n: nat,
                   t: Double, t0: Double)
    requires Pieced(input, o, o', 0, at, t0) && Pieced(input', o', o'', at, n, t) && Without(t, t0, at)
    requires |input| == |input'| && input'[at..] == input[at..] && at + n <= 8
    ensures Pieced(input, o, o'', 0, at + n, t0)
  {
    hide MemoryByte, XorByte;
    forall k | at <= k < at + n && k < |o|
      ensures o''[k] == XorByte(input[k], MemoryByte(t0, k))
    {
      assert input'[k] == input'[at..][k - at] == input[at..][k - at] == input[k];
      assert MemoryByte(t, k - at) == MemoryByte(t0, k);
    }
  }

  /** t is t0 without its first n bytes. */
  ghost predicate Without(t: Double, t0: Double, n: nat) {
    forall j | n <= j < 8 :: MemoryByte(t, j - n) == MemoryByte(t0, j)
  }

  lemma WithoutMore(t: Double, t0: Double, n: nat)
    requires Without(t, t0, n)
    ensures Without(Shr8(t), t0, n + 1) && Without(Shr16(t), t0, n + 2)
  {
    hide MemoryByte, Shr8, Shr16;
    forall j | n + 1 <= j < 8
      ensures MemoryByte(Shr8(t), j - n - 1) == MemoryByte(t0, j)
    {
      Shr8Byte(t, j - n - 1);
    }
    forall j | n + 2 <= j < 8
      ensures MemoryByte(Shr16(t), j - n - 2) == MemoryByte(t0, j)
    {
      Shr16Byte(t, j - n - 2);
    }
  }

  /** `cfb_one_basic`: 1, 2 and 4 bytes at a time, as far as the size has them; nothing for size 8. */
  method CfbOne(f: RoundFunction, input: array<bv8>, output: array<bv8>, size: nat, ks: seq<bv64>, ivec: Double)
    requires |ks| == 16 && size <= 8 && size % 8 <= input.Length && size % 8 <= output.Length
    modifies output
    ensures Overwritten(old(output[..]), output[..], Cfb(Block(f, ks, ivec, true), old(input[..size % 8])))
  {
    hide Block, MemoryByte, XorByte, Shr8, Shr16, Pieced, Without, Overwritten, Cfb;
    var t := EncDec1(f, ivec, ks, true);
    ghost var t0, inBytes, bytes := t, input[..], output[..];
    var at := 0;
    NoPiece(inBytes, bytes, t);
    if size % 2 == 1 {
      XorPiece(input, output, at, 1, t);
      PiecesJoin(inBytes, inBytes, bytes, bytes, output[..], at, 1, t, t0);
      WithoutMore(t, t0, at);
      t := Shr8(t);
      at := at + 1;
    }
    if size / 2 % 2 == 1 {
      ghost var now, nowOut := input[..], output[..];
      XorPiece(input, output, at, 2, t);
      PiecesJoin(inBytes, now, bytes, nowOut, output[..], at, 2, t, t0);
      WithoutMore(t, t0, at);
      t := Shr16(t);
      at := at + 2;
    }
    if size / 4 % 2 == 1 {
      ghost var now, nowOut := input[..], output[..];
      XorPiece(input, output, at, 4, t);
      PiecesJoin(inBytes, now, bytes, nowOut, output[..], at, 4, t, t0);
      at := at + 4;
    }
    PieceIsCfb(inBytes, bytes, output[..], at, t0);
  }

  lemma NoPiece(input: seq<bv8>, output: seq<bv8>, t: Double)
    ensures Pieced(input, output, output, 0, 0, t) && Without(t, t, 0)
  {
  }

  lemma PieceIsCfb(input: seq<bv8>, output: seq<bv8>, output': seq<bv8>, n: nat, t: Double)
    requires n <= |output| && Pieced(input, output, output', 0, n, t)
    ensures Overwritten(output, output', Cfb(t, input[..n]))
  {
    hide MemoryByte, XorByte;
  }

  /** A buffer of any number of bytes. */
  datatype Buffer = Buffer(words: seq<Double>, tail: seq<bv8>)
  {
    ghost predicate Valid() { |tail| < 8 }
  }

  function Docsis(e: Permutation, iv: Double, plain: Buffer): Buffer
    requires plain.Valid()
  {
    var c := CbcEnc(e, iv, plain.words);
    Buffer(c, Cfb(e(Before(iv, c, |c|)), plain.tail))
  }

  function DocsisBack(e: Permutation, d: Permutation, iv: Double, cipher: Buffer): Buffer
    requires cipher.Valid()
  {
    var c := cipher.words;
    Buffer(CbcDec(d, iv, c), Cfb(e(Before(iv, c, |c|)), cipher.tail))
  }

  /** Decryption undoes encryption for every number of bytes. */
  lemma DocsisRoundTrip(e: Permutation, d: Permutation, iv: Double, plain: Buffer)
    requires Inverse(d, e) && plain.Valid()
    ensures DocsisBack(e, d, iv, Docsis(e, iv, plain)) == plain
  {
    var c := CbcEnc(e, iv, plain.words);
    CbcRoundTrip(e, d, iv, plain.words);
    CfbTwice(e(Before(iv, c, |c|)), plain.tail);
  }

  /** The words of a buffer are other memory than the bytes after them. */
  ghost predicate Apart(input: array<Double>, inTail: array<bv8>, output: array<Double>, outTail: array<bv8>) {
    {input as object, output as object} !! {inTail as object, outTail as object}
  }

  /** The last ciphertext word takes the place of the initialization vector for the remaining bytes, in both
      directions. */
  lemma DocsisTail(e: Permutation, d: Permutation, iv: Double, plain: Buffer, cipher: Buffer)
    requires plain.Valid() && plain.words != [] && cipher.Valid() && cipher.words != []
    ensures var c := CbcEnc(e, iv, plain.words);
            Docsis(e, iv, plain).tail == Docsis(e, c[|c| - 1], Buffer([], plain.tail)).tail
    ensures var c := cipher.words;
            DocsisBack(e, d, iv, cipher).tail == DocsisBack(e, d, c[|c| - 1], Buffer([], cipher.tail)).tail
  {
    hide Cfb, CbcEnc, CbcDec;
  }

  /** With no whole word, the bytes are combined with the first bytes of the enciphered vector. */
  lemma DocsisShort(e: Permutation, d: Permutation, iv: Double, tail: seq<bv8>, j: nat, i: nat)
    requires j < |tail| < 8 && i < 8
    ensures Docsis(e, iv, Buffer([], tail)).words == [] && |Docsis(e, iv, Buffer([], tail)).tail| == |tail|
    ensures ByteBit(Docsis(e, iv, Buffer([], tail)).tail[j], 7 - i)
         == (ByteBit(tail[j], 7 - i) != BlockBits(e(iv))[8 * j + i])
    ensures DocsisBack(e, d, iv, Buffer([], tail)) == Docsis(e, iv, Buffer([], tail))
  {
    hide XorByte, MemoryByte, ByteBit;
    XorByteBit(tail[j], MemoryByte(e(iv), j), 7 - i);
    assert (8 * j + i) / 8 == j && (8 * j + i) % 8 == i;
  }

  /** `docsis_des_enc_basic`; its loop is that of `des_enc_cbc_basic`. */
  method DocsisDesEnc(f: RoundFunction, input: array<Double>, inTail: array<bv8>, output: array<Double>,
                      outTail: array<bv8>, size: nat, ks: seq<bv64>, ivec: Double)
    requires |ks| == 16 && size / 8 <= input.Length && size / 8 <= output.Length
    requires size % 8 <= inTail.Length && size % 8 <= outTail.Length && Apart(input, inTail, output, outTail)
    modifies output, outTail
    ensures var r := Docsis(DesEnc(f, ks), ivec, Buffer(old(input[..size / 8]), old(inTail[..size % 8])));
            Overwritten(old(output[..]), output[..], r.words) && Overwritten(old(outTail[..]), outTail[..], r.tail)
  {
    hide Block, XorDouble, Chained, Cfb;
    var nblocks, partial := size / 8, size % 8;
    ghost var e, p, tail := DesEnc(f, ks), input[..nblocks], inTail[..partial];
    ghost var c := CbcEnc(e, ivec, p);
    DesEncCbc(f, input, output, size, ks, ivec);
    ghost var words := output[..];
    if partial != 0 {
      if nblocks != 0 {
        assert output[nblocks - 1] == Before(ivec, c, nblocks);
        CfbOne(f, inTail, outTail, partial, ks, output[nblocks - 1]);
      } else {
        CfbOne(f, inTail, outTail, partial, ks, ivec);
      }
    }
    assert Overwritten(old(outTail[..]), outTail[..], Cfb(e(Before(ivec, c, nblocks)), tail));
    assert output[..] == words;
  }

  /** `docsis_des_dec_basic`: the remaining bytes come first, while the last ciphertext word is still there. */
  method DocsisDesDec(f: RoundFunction, input: array<Double>, inTail: array<bv8>, output: array<Double>,
                      outTail: array<bv8>, size: nat, ks: seq<bv64>, ivec: Double)
    requires |ks| == 16 && size / 8 <= input.Length && size / 8 <= output.Length
    requires size % 8 <= inTail.Length && size % 8 <= outTail.Length && Apart(input, inTail, output, outTail)
    modifies output, outTail
    ensures var r := DocsisBack(DesEnc(f, ks), DesDec(f, ks), ivec,
                                Buffer(old(input[..size / 8]), old(inTail[..size % 8])));
            Overwritten(old(output[..]), output[..], r.words) && Overwritten(old(outTail[..]), outTail[..], r.tail)
  {
    hide Block, XorDouble, Unchained, Cfb;
    var nblocks, partial := size / 8, size % 8;
    ghost var e, c, tail, words := DesEnc(f, ks), input[..nblocks], inTail[..partial], output[..];
    if partial != 0 {
      if nblocks == 0 {
        CfbOne(f, inTail, outTail, partial, ks, ivec);
        assert output[..] == words;
        return;
      }
      assert input[nblocks - 1] == Before(ivec, c, nblocks);
      CfbOne(f, inTail, outTail, partial, ks, input[nblocks - 1]);
    }
    assert Overwritten(old(outTail[..]), outTail[..], Cfb(e(Before(ivec, c, nblocks)), tail));
    assert output[..] == words && input[..nblocks] == c;
    ghost var bytes := outTail[..];
    DesDecCbc(f, input, output, size, ks, ivec);
    assert outTail[..] == bytes;
  }

  /** The bytes of a buffer, as the words and the bytes after them, before and after a call. */
  ghost predicate Became(words0: seq<Double>, tail0: seq<bv8>, words: seq<Double>, tail: seq<bv8>, b: Buffer) {
    Overwritten(words0, words, b.words) && Overwritten(tail0, tail, b.tail)
  }

  /** Encrypting the first bytes of one buffer into a second, and decrypting the second into a third, copies the
      bytes, any number of them; any two of the buffers may be the same. */
  lemma DocsisBufferRoundTrip(f: RoundFunction, ks: seq<bv64>, iv: Double, size: nat,
                              plainW: seq<Double>, plainT: seq<bv8>,
                              cipherW0: seq<Double>, cipherT0: seq<bv8>, cipherW: seq<Double>, cipherT: seq<bv8>,
                              outW0: seq<Double>, outT0: seq<bv8>, outW: seq<Double>, outT: seq<bv8>)
    requires size / 8 <= |plainW| && size % 8 <= |plainT|
    requires Became(cipherW0, cipherT0, cipherW, cipherT,
                    Docsis(DesEnc(f, ks), iv, Buffer(plainW[..size / 8], plainT[..size % 8])))
    requires size / 8 <= |cipherW| && size % 8 <= |cipherT|
    requires Became(outW0, outT0, outW, outT,
                    DocsisBack(DesEnc(f, ks), DesDec(f, ks), iv, Buffer(cipherW[..size / 8], cipherT[..size % 8])))
    ensures size / 8 <= |outW| && outW[..size / 8] == plainW[..size / 8]
    ensures size % 8 <= |outT| && outT[..size % 8] == plainT[..size % 8]
  {
    hide DesEnc, DesDec, CbcEnc, CbcDec, Cfb, Before;
    var plain := Buffer(plainW[..size / 8], plainT[..size % 8]);
    var cipher := Docsis(DesEnc(f, ks), iv, plain);
    DesInverse(f, ks);
    DocsisRoundTrip(DesEnc(f, ks), DesDec(f, ks), iv, plain);
    assert cipherW[..size / 8] == cipher.words && cipherT[..size % 8] == cipher.tail;
  }
}
