/** The order of ciphering and hashing in lib/chacha20_poly1305.c, for any keystream and any polynomial step. */
module ChaPoly {
  import opened Words
  import opened Bits
  import opened Bits32
  import opened Sha

  /** The accumulator of Poly1305, as the kernels keep it between calls. */
  datatype Acc = Acc(a0: Double, a1: Double, a2: Double)

  const NO_HASH := Acc(Double(0, 0), Double(0, 0), Double(0, 0))

  /** What one key and one nonce give: the keystream, the step of the polynomial for a 16-byte block, and the final
      reduction and addition. */
  datatype Keys = Keys(stream: nat -> bv8, step: (Acc, seq<bv8>) -> Acc, complete: Acc -> seq<bv8>)

  // ---- Poly1305 over blocks (section 2.5 of RFC 8439) ----

  /** The polynomial over a whole number of 16-byte blocks. */
  function Poly(keys: Keys, acc: Acc, m: seq<bv8>): Acc
    decreases |m|
  {
    if |m| < 16 then acc else Poly(keys, keys.step(acc, m[..16]), m[16..])
  }

  lemma {:induction false} PolyConcat(keys: Keys, acc: Acc, m: seq<bv8>, n: seq<bv8>)
    requires |m| % 16 == 0
    ensures Poly(keys, acc, m + n) == Poly(keys, Poly(keys, acc, m), n)
    decreases |m|
  {
    if m == [] {
      assert m + n == n;
    } else {
      assert (m + n)[..16] == m[..16] && (m + n)[16..] == m[16..] + n;
      PolyConcat(keys, keys.step(acc, m[..16]), m[16..], n);
    }
  }

  /** Zeros up to a multiple of 16 bytes. */
  function Pad16(m: seq<bv8>): (r: seq<bv8>)
    ensures |r| % 16 == 0 && |m| <= |r| < |m| + 16 && r[..|m|] == m
    ensures forall i | |m| <= i < |r| :: r[i] == 0
  {
    m + Zeros((16 - |m| % 16) % 16)
  }

  lemma NextBlock(keys: Keys, h: Acc, m: seq<bv8>, at: nat)
    requires at + 16 <= |m|
    ensures Poly(keys, h, Pad16(m)[at..]) == Poly(keys, keys.step(h, m[at..at + 16]), Pad16(m)[at + 16..])
  {
    hide Pad16;
    forall k | 0 <= k < 16
      ensures Pad16(m)[at..][..16][k] == m[at..at + 16][k]
    {
      assert Pad16(m)[at + k] == Pad16(m)[..|m|][at + k];
    }
    assert Pad16(m)[at..][..16] == m[at..at + 16];
    assert Pad16(m)[at..][16..] == Pad16(m)[at + 16..];
  }

  lemma LastBlock(keys: Keys, h: Acc, m: seq<bv8>, at: nat)
    requires at % 16 == 0 && at <= |m| < at + 16
    ensures Poly(keys, h, Pad16(m)[at..])
         == if at < |m| then keys.step(h, m[at..] + Zeros(16 - (|m| - at))) else h
  {
    var rest := Pad16(m)[at..];
    if at < |m| {
      var block := m[at..] + Zeros(16 - (|m| - at));
      assert |m| % 16 == |m| - at;
      assert rest == block;
      assert block[..16] == block && block[16..] == [];
    } else {
      assert rest == [];
    }
  }

  /** `poly1305_aead_update`: whole blocks, then what is left with zeros after it. */
  method AeadUpdate(keys: Keys, m: seq<bv8>, hash: Acc) returns (hash': Acc)
    ensures hash' == Poly(keys, hash, Pad16(m))
  {
    hide Zeros, Poly, Pad16;
    hash' := hash;
    var at := 0;
    assert Pad16(m)[0..] == Pad16(m);
    while at + 16 <= |m|
      invariant at <= |m| && at % 16 == 0
      invariant Poly(keys, hash', Pad16(m)[at..]) == Poly(keys, hash, Pad16(m))
    {
      NextBlock(keys, hash', m, at);
      hash' := keys.step(hash', m[at..at + 16]);
      at := at + 16;
    }
    LastBlock(keys, hash', m, at);
    if at < |m| {
      hash' := keys.step(hash', m[at..] + Zeros(16 - (|m| - at)));
    }
  }

  // ---- The construction (section 2.8 of RFC 8439) ----

  /** A 64-bit word in memory. */
  function Length8(v: nat): (r: seq<bv8>)
    requires v < TWO_TO_64
    ensures |r| == 8
  {
    seq(8, j requires 0 <= j < 8 => MemoryByte(Uint64(v), j))
  }

  /** What is authenticated: the padded additional data, the padded text, and both lengths. */
  function MacData(aad: seq<bv8>, text: seq<bv8>): seq<bv8>
    requires |aad| < TWO_TO_64 && |text| < TWO_TO_64
  {
    Pad16(aad) + Pad16(text) + (Length8(|aad|) + Length8(|text|))
  }

  function Tag(keys: Keys, aad: seq<bv8>, text: seq<bv8>): seq<bv8>
    requires |aad| < TWO_TO_64 && |text| < TWO_TO_64
  {
    keys.complete(Poly(keys, NO_HASH, MacData(aad, text)))
  }

  /** ChaCha20 in either direction. */
  function Cipher(keys: Keys, text: seq<bv8>): (r: seq<bv8>)
    ensures |r| == |text|
  {
    seq(|text|, i requires 0 <= i < |text| => XorByte(text[i], keys.stream(i)))
  }

  /** The first i bytes of a text are enciphered to place `at` on; the other bytes are as before. */
  ghost predicate Upto(keys: Keys, before: seq<bv8>, now: seq<bv8>, at: nat, text: seq<bv8>, i: nat) {
    && at + |text| <= |before| == |now| && i <= |text|
    && forall k | 0 <= k < |now| ::
         now[k] == if at <= k < at + i then XorByte(text[k - at], keys.stream(k - at)) else before[k]
  }

  lemma UptoNone(keys: Keys, before: seq<bv8>, at: nat, text: seq<bv8>)
    requires at + |text| <= |before|
    ensures Upto(keys, before, before, at, text, 0)
  {
  }

  lemma UptoNext(keys: Keys, before: seq<bv8>, now: seq<bv8>, at: nat, text: seq<bv8>, i: nat)
    requires i < |text| && Upto(keys, before, now, at, text, i)
    ensures Upto(keys, before, now[at + i := XorByte(text[i], keys.stream(i))], at, text, i + 1)
  {
    hide XorByte;
  }

  lemma UptoAll(keys: Keys, before: seq<bv8>, after: seq<bv8>, at: nat, text: seq<bv8>)
    requires Upto(keys, before, after, at, text, |text|)
    ensures after == before[..at] + Cipher(keys, text) + before[at + |text|..]
  {
    hide XorByte;
  }

  /** A text and a tag. */
  datatype Output = Output(text: seq<bv8>, tag: seq<bv8>)

  function Seal(keys: Keys, aad: seq<bv8>, plain: seq<bv8>): Output
    requires |aad| < TWO_TO_64 && |plain| < TWO_TO_64
  {
    Output(Cipher(keys, plain), Tag(keys, aad, Cipher(keys, plain)))
  }

  function Open(keys: Keys, aad: seq<bv8>, cipher: seq<bv8>): Output
    requires |aad| < TWO_TO_64 && |cipher| < TWO_TO_64
  {
    Output(Cipher(keys, cipher), Tag(keys, aad, cipher))
  }

  /** Opening what was sealed gives the plaintext back, and the tag that was sent. */
  lemma OpenSealed(keys: Keys, aad: seq<bv8>, plain: seq<bv8>)
    requires |aad| < TWO_TO_64 && |plain| < TWO_TO_64
    ensures Open(keys, aad, Seal(keys, aad, plain).text) == Output(plain, Seal(keys, aad, plain).tag)
  {
    hide XorByte;
    forall i | 0 <= i < |plain|
      ensures Cipher(keys, Cipher(keys, plain))[i] == plain[i]
    {
      XorTwice(plain[i], keys.stream(i));
    }
  }

  lemma Length8Byte(v: nat, j: nat)
    requires v < TWO_TO_64 && j < 8
    ensures Length8(v)[j] == BigEndian(v, 8)[7 - j]
  {
    hide BigEndian, Bswap8, Word, WordByte;
    var b := BigEndian(v, 8);
    WordBytes(b[0], b[1], b[2], b[3]);
    WordBytes(b[4], b[5], b[6], b[7]);
  }

  lemma Length8Injective(v: nat, w: nat)
    requires v < TWO_TO_64 && w < TWO_TO_64 && Length8(v) == Length8(w)
    ensures v == w
  {
    hide BigEndian, Length8, Power256;
    var b, c := BigEndian(v, 8), BigEndian(w, 8);
    forall j: nat | j < 8
      ensures b[j] == c[j]
    {
      Length8Byte(v, 7 - j);
      Length8Byte(w, 7 - j);
    }
    assert b == c;
    Digits8(0);
    BigEndianInjective(v, w, 8);
  }

  /** Different pairs of additional data and text are authenticated as different byte strings: nothing can be moved
      from the one to the other. */
  lemma MacDataInjective(aad: seq<bv8>, text: seq<bv8>, aad': seq<bv8>, text': seq<bv8>)
    requires |aad| < TWO_TO_64 && |text| < TWO_TO_64 && |aad'| < TWO_TO_64 && |text'| < TWO_TO_64
    requires MacData(aad, text) == MacData(aad', text')
    ensures aad == aad' && text == text'
  {
    hide Length8, Pad16;
    var m, n := MacData(aad, text), |MacData(aad, text)| - 16;
    assert m[n..n + 8] == Length8(|aad|) == Length8(|aad'|);
    assert m[n + 8..] == Length8(|text|) == Length8(|text'|);
    Length8Injective(|aad|, |aad'|);
    Length8Injective(|text|, |text'|);
    var a := |Pad16(aad)|;
    SamePad(aad, aad');
    assert m[..a] == Pad16(aad) == Pad16(aad');
    assert m[a..n] == Pad16(text) == Pad16(text');
    assert aad == Pad16(aad)[..|aad|] && text == Pad16(text)[..|text|];
  }

  lemma SamePad(x: seq<bv8>, y: seq<bv8>)
    requires |x| == |y|
    ensures |Pad16(x)| == |Pad16(y)|
  {
  }

  /** The polynomial begins at zero: with nothing to authenticate it is one step, over the lengths 0 and 0, from an
      accumulator of three zero words. */
  lemma EmptyTag(keys: Keys)
    ensures Tag(keys, [], [])
         == keys.complete(keys.step(Acc(Double(0, 0), Double(0, 0), Double(0, 0)), Zeros(16)))
  {
    hide Length8, BigEndian, Poly, Pad16;
    forall j: nat | j < 8
      ensures Length8(0)[j] == 0
    {
      Length8Byte(0, j);
      BigEndianZero(8);
    }
    assert Length8(0) + Length8(0) == Zeros(16);
    Pad16Whole([]);
    assert MacData([], []) == Zeros(16);
    OneStep(keys, NO_HASH);
  }

  lemma OneStep(keys: Keys, h: Acc)
    ensures Poly(keys, h, Zeros(16)) == keys.step(h, Zeros(16))
  {
    assert Zeros(16)[..16] == Zeros(16) && Zeros(16)[16..] == [];
  }

  /** Zeros become the keystream. */
  lemma CipherOfZeros(keys: Keys, n: nat, i: nat)
    requires i < n
    ensures Cipher(keys, Zeros(n))[i] == keys.stream(i)
  {
  }

  /** The bits of the output are those of the input combined with those of the keystream. */
  lemma CipherBit(keys: Keys, text: seq<bv8>, i: nat, j: nat)
    requires i < |text| && j < 8
    ensures ByteBit(Cipher(keys, text)[i], j) == (ByteBit(text[i], j) != ByteBit(keys.stream(i), j))
  {
    hide ByteBit, XorByte;
    XorByteBit(text[i], keys.stream(i), j);
  }

  /** The length words are little-endian: reversed, they stand for the lengths. */
  lemma Length8Value(v: nat)
    requires v < TWO_TO_64
    ensures NumberOf(seq(8, i requires 0 <= i < 8 => Length8(v)[7 - i])) == v
  {
    hide Length8, BigEndian, NumberOf, Power256;
    var r := seq(8, i requires 0 <= i < 8 => Length8(v)[7 - i]);
    forall i: nat | i < 8
      ensures r[i] == BigEndian(v, 8)[i]
    {
      Length8Byte(v, 7 - i);
    }
    assert r == BigEndian(v, 8);
    BigEndianValue(v, 8);
    Digits8(v);
  }

  /** The three updates in turn are one polynomial over what is authenticated. */
  lemma StagedUpdates(keys: Keys, aad: seq<bv8>, text: seq<bv8>)
    requires |aad| < TWO_TO_64 && |text| < TWO_TO_64
    ensures var h1 := Poly(keys, NO_HASH, Pad16(aad));
            var h2 := Poly(keys, h1, Pad16(text));
            Poly(keys, h2, Pad16(Length8(|aad|) + Length8(|text|))) == Poly(keys, NO_HASH, MacData(aad, text))
  {
    hide Length8, Pad16, Poly;
    var last := Length8(|aad|) + Length8(|text|);
    Pad16Whole(last);
    PolyConcat(keys, NO_HASH, Pad16(aad), Pad16(text));
    WholeSum(|Pad16(aad)|, |Pad16(text)|);
    PolyConcat(keys, NO_HASH, Pad16(aad) + Pad16(text), last);
  }

  lemma Pad16Whole(m: seq<bv8>)
    requires |m| % 16 == 0
    ensures Pad16(m) == m
  {
  }

  lemma WholeSum(a: nat, b: nat)
    requires a % 16 == 0 && b % 16 == 0
    ensures (a + b) % 16 == 0
  {
  }

  // ---- The job ----

  /** The two completion bits of a job's status: `STS_COMPLETED_AES` and `STS_COMPLETED_HMAC`. */
  const STS_COMPLETED: bv32 := 3

  lemma BothCompleted(status: bv32)
    ensures (status | STS_COMPLETED) & 1 == 1 && (status | STS_COMPLETED) & 2 == 2
    ensures (status | STS_COMPLETED) & 0xffff_fffc == status & 0xffff_fffc
  {
  }

  class Job {
    const keys: Keys
    const encrypt: bool
    const aad: seq<bv8>
    const src: array<bv8>
    const hashStart: nat
    const hashLen: nat
    const cipherStart: nat
    const cipherLen: nat
    /** Where the output starts: in another buffer, or in the source. */
    const dst: array<bv8>
    const dstAt: nat
    var authTag: seq<bv8>
    var status: bv32

    constructor (keys: Keys, encrypt: bool, aad: seq<bv8>, src: array<bv8>, hashStart: nat, hashLen: nat,
                 cipherStart: nat, cipherLen: nat, dst: array<bv8>, dstAt: nat)
      ensures this.keys == keys && this.encrypt == encrypt && this.aad == aad && this.src == src && this.dst == dst
      ensures this.hashStart == hashStart && this.hashLen == hashLen && this.cipherStart == cipherStart
      ensures this.cipherLen == cipherLen && this.dstAt == dstAt && status == 0
    {
      this.keys, this.encrypt, this.aad, this.src, this.dst, this.dstAt := keys, encrypt, aad, src, dst, dstAt;
      this.hashStart, this.hashLen, this.cipherStart, this.cipherLen := hashStart, hashLen, cipherStart, cipherLen;
      authTag, status := [], 0;
    }

    /** The ranges lie in their buffers; the output is in place, or does not overlap the input. */
    predicate Valid() {
      && |aad| < TWO_TO_64 && hashLen < TWO_TO_64
      && cipherStart + cipherLen <= src.Length && dstAt + cipherLen <= dst.Length
      && (if encrypt then dstAt + hashLen <= dst.Length else hashStart + hashLen <= src.Length)
      && (dst != src || dstAt == cipherStart || dstAt + cipherLen <= cipherStart || cipherStart + cipherLen <= dstAt)
    }

    /** What is hashed is what is sent: the output on encryption, the input on decryption. */
    predicate Matched() {
      hashLen == cipherLen && (encrypt || hashStart == cipherStart)
    }

    function Input(): seq<bv8>
      requires Valid()
      reads src
    {
      src[cipherStart..cipherStart + cipherLen]
    }

    /** `submit_job_chacha20_enc_dec_*` */
    method Chacha20()
      requires Valid()
      modifies dst
      ensures dst[..] == old(dst[..dstAt]) + Cipher(keys, old(Input())) + old(dst[dstAt + cipherLen..])
    {
      hide XorByte, Upto;
      ghost var input, before := Input(), dst[..];
      UptoNone(keys, before, dstAt, input);
      for i := 0 to cipherLen
        invariant Upto(keys, before, dst[..], dstAt, input, i)
        invariant forall k | i <= k < cipherLen :: src[cipherStart + k] == input[k]
      {
        UptoNext(keys, before, dst[..], dstAt, input, i);
        ghost var now := dst[..];
        dst[dstAt + i] := XorByte(src[cipherStart + i], keys.stream(i));
        assert dst[..] == now[dstAt + i := XorByte(input[i], keys.stream(i))];
      }
      UptoAll(keys, before, dst[..], dstAt, input);
    }

    /** `aead_chacha20_poly1305` */
    method AeadChacha20Poly1305()
      requires Valid()
      modifies this`authTag, this`status, dst
      ensures dst[..] == old(dst[..dstAt]) + Cipher(keys, old(Input())) + old(dst[dstAt + cipherLen..])
      ensures var hashed := if encrypt then dst[dstAt..dstAt + hashLen] else old(src[hashStart..hashStart + hashLen]);
              authTag == Tag(keys, aad, hashed)
      ensures Matched() ==>
                Output(dst[dstAt..dstAt + cipherLen], authTag)
                == (if encrypt then Seal(keys, aad, old(Input())) else Open(keys, aad, old(Input())))
      ensures status == old(status) | STS_COMPLETED
    {
      hide Length8, MacData, Poly, Pad16;
      var hash := NO_HASH;
      hash := AeadUpdate(keys, aad, hash);
      ghost var text;
      if !encrypt {
        text := src[hashStart..hashStart + hashLen];
        hash := AeadUpdate(keys, src[hashStart..hashStart + hashLen], hash);
      }
      Chacha20();
      if encrypt {
        text := dst[dstAt..dstAt + hashLen];
        hash := AeadUpdate(keys, dst[dstAt..dstAt + hashLen], hash);
      }
      StagedUpdates(keys, aad, text);
      hash := AeadUpdate(keys, Length8(|aad|) + Length8(hashLen), hash);
      authTag := keys.complete(hash);
      status := status | STS_COMPLETED;
      assert dst[dstAt..dstAt + cipherLen] == Cipher(keys, old(Input()));
    }
  }

  /** Two jobs one after the other, the second on what the first has written: the text and the tag come back. Each
      may work in place, and the second may write over the source of the first. */
  method SealThenOpen(sealing: Job, opening: Job)
    requires sealing != opening && sealing.Valid() && opening.Valid() && sealing.Matched() && opening.Matched()
    requires sealing.encrypt && !opening.encrypt && sealing.keys == opening.keys && sealing.aad == opening.aad
    requires opening.src == sealing.dst && opening.cipherStart == sealing.dstAt
    requires opening.cipherLen == sealing.cipherLen
    modifies sealing`authTag, sealing`status, sealing.dst, opening`authTag, opening`status, opening.dst
    ensures opening.dst[opening.dstAt..opening.dstAt + opening.cipherLen] == old(sealing.Input())
    ensures opening.authTag == sealing.authTag
  {
    hide Seal, Open, Tag, Cipher;
    ghost var plain := sealing.Input();
    sealing.AeadChacha20Poly1305();
    assert opening.Input() == Seal(sealing.keys, sealing.aad, plain).text;
    opening.AeadChacha20Poly1305();
    OpenSealed(sealing.keys, sealing.aad, plain);
  }
}
