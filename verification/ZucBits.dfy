/** 128-EEA3 and 128-EIA3 bit by bit, as 3GPP TS 35.221 numbers bits: from 0, the most significant bit of each byte
    and word first. */
module ZucBits {
  import opened Words
  import opened Bits
  import opened Bits32
  import opened ZucSpec

  /** Bit n of the keystream. */
  predicate KeystreamBit(z: Keystream, n: nat) {
    Bit32(z(n / 32), 31 - n % 32)
  }

  /** Bit i of a message is bit i % 8, from the left, of byte i / 8. */
  lemma MessageBitPlace(msg: seq<bv8>, i: nat)
    requires i / 8 < |msg|
    ensures MessageBit(msg, i) <==> ByteBit(msg[i / 8], 7 - i % 8)
  {
  }

  // ---- 128-EEA3 ----

  lemma KeystreamByteBit(z: Keystream, i: nat)
    ensures ByteBit(KeystreamByte(z, i / 8), 7 - i % 8) <==> KeystreamBit(z, i)
  {
    hide Bit32, WordByte, ByteBit;
    var k := 31 - i % 32;
    BytePlace(i);
    WordBit(z(i / 32), k);
  }

  lemma BytePlace(i: nat)
    ensures i / 8 / 4 == i / 32 && i / 8 % 4 == 3 - (31 - i % 32) / 8 && 7 - i % 8 == (31 - i % 32) % 8
  {
    var q, r := i / 32, i % 32;
    assert i == 32 * q + r;
    assert i / 8 == 4 * q + r / 8;
    assert i % 8 == r % 8;
    assert (31 - r) / 8 == 3 - r / 8;
  }

  /** Bit i of the output is bit i of the input combined with bit i of the keystream. */
  lemma Eea3Bit(z: Keystream, data: seq<bv8>, i: nat)
    requires i / 8 < |data|
    ensures MessageBit(Eea3(z, data), i) <==> MessageBit(data, i) != KeystreamBit(z, i)
  {
    hide MessageBit, KeystreamBit, ByteBit, XorByte, KeystreamByte;
    MessageBitPlace(data, i);
    MessageBitPlace(Eea3(z, data), i);
    XorByteBit(data[i / 8], KeystreamByte(z, i / 8), 7 - i % 8);
    KeystreamByteBit(z, i);
  }

  /** Zeros become the keystream. */
  lemma Eea3OfZeros(z: Keystream, n: nat, k: nat)
    requires k < n
    ensures Eea3(z, seq(n, _ => 0))[k] == WordByte(z(k / 4), k % 4)
  {
    hide WordByte;
    ZeroByte(WordByte(z(k / 4), k % 4));
  }

  lemma ZeroByte(x: bv8)
    ensures XorByte(0, x) == x
  {
  }

  // ---- GET_WORD ----

  /** Bit j of GET_WORD(i), from the left, is bit i + j of the keystream. */
  lemma GetWordBit(z: Keystream, i: nat, j: nat)
    requires j < 32
    ensures Bit32(GetWord(z, i), 31 - j) <==> KeystreamBit(z, i + j)
  {
    hide Bit32;
    var q, r := i / 32, i % 32;
    ShiftLeftBit(Double(z(q), z(q + 1)), r, 63 - j);
    BitPlace(i, j);
  }

  lemma BitPlace(i: nat, j: nat)
    requires j < 32
    ensures var n := i % 32 + j;
            (i + j) / 32 == i / 32 + (if n < 32 then 0 else 1) && (i + j) % 32 == if n < 32 then n else n - 32
  {
    var q, r := i / 32, i % 32;
    assert i + j == 32 * q + (r + j);
    if r + j >= 32 {
      assert i + j == 32 * (q + 1) + (r + j - 32);
    }
  }

  // ---- 128-EIA3 ----

  /** Whether an odd number of set bits among the first n of the message meet a set bit of the keystream j places
      on. */
  predicate Odds(z: Keystream, msg: seq<bv8>, n: nat, j: nat)
    requires n <= 8 * |msg|
  {
    n > 0 && (Odds(z, msg, n - 1, j) != (ByteBit(msg[(n - 1) / 8], 7 - (n - 1) % 8) && KeystreamBit(z, n - 1 + j)))
  }

  lemma {:induction false} MacBitsBit(z: Keystream, msg: seq<bv8>, n: nat, j: nat)
    requires n <= 8 * |msg| && j < 32
    ensures Bit32(MacBits(z, msg, n), 31 - j) <==> Odds(z, msg, n, j)
  {
    hide Bit32, Xor, GetWord, KeystreamBit, ByteBit, MessageBit;
    OneBit32(31 - j);
    if n > 0 {
      MacBitsBit(z, msg, n - 1, j);
      MessageBitPlace(msg, n - 1);
      GetWordBit(z, n - 1, j);
      Xor32Bit(MacBits(z, msg, n - 1), MacTerm(z, msg, n - 1), 31 - j);
    }
  }

  /** The MAC bit by bit: the message's bits, the bit of GET_WORD(LENGTH), and the bit of the last keystream word,
      which begins at bit 32 * (L - 1) for L = ceil(LENGTH / 32) + 2. */
  lemma Eia3MacBit(z: Keystream, msg: seq<bv8>, n: nat, j: nat)
    requires n <= 8 * |msg| && j < 32
    ensures Bit32(Eia3Mac(z, msg, n), 31 - j)
       <==> ((Odds(z, msg, n, j) != KeystreamBit(z, n + j)) != KeystreamBit(z, 32 * ((n + 31) / 32 + 1) + j))
  {
    hide Bit32, Xor, GetWord, MacBits, Odds;
    var last := (n + 31) / 32 + 1;
    MacBitsBit(z, msg, n, j);
    GetWordBit(z, n, j);
    Xor32Bit(MacBits(z, msg, n), GetWord(z, n), 31 - j);
    Xor32Bit(Xor(MacBits(z, msg, n), GetWord(z, n)), z(last), 31 - j);
    InWord(last, j);
  }

  lemma InWord(q: nat, j: nat)
    requires j < 32
    ensures (32 * q + j) / 32 == q && (32 * q + j) % 32 == j
  {
  }

  /** A message of zeros has the MAC of its length alone. */
  lemma Eia3OfZeros(z: Keystream, msg: seq<bv8>, n: nat)
    requires n <= 8 * |msg| && forall i: nat | i < n :: !ByteBit(msg[i / 8], 7 - i % 8)
    ensures Eia3Mac(z, msg, n) == Xor(GetWord(z, n), z(KeystreamWords(n) - 1))
  {
    hide Xor, GetWord, MacBits;
    NoBits(z, msg, n);
    XorZero(GetWord(z, n));
  }

  lemma {:induction false} NoBits(z: Keystream, msg: seq<bv8>, n: nat)
    requires n <= 8 * |msg| && forall i: nat | i < n :: !ByteBit(msg[i / 8], 7 - i % 8)
    ensures MacBits(z, msg, n) == 0
  {
    hide Xor, GetWord, MessageBit, ByteBit;
    if n > 0 {
      NoBits(z, msg, n - 1);
      MessageBitPlace(msg, n - 1);
      XorZero(0);
    }
  }

  /** A single set bit, number i, contributes GET_WORD(i). */
  lemma {:induction false} OneBit(z: Keystream, msg: seq<bv8>, n: nat, i: nat)
    requires i < n <= 8 * |msg|
    requires forall k: nat | k < n :: ByteBit(msg[k / 8], 7 - k % 8) <==> k == i
    ensures MacBits(z, msg, n) == GetWord(z, i)
  {
    hide Xor, GetWord, MessageBit, ByteBit;
    MessageBitPlace(msg, n - 1);
    XorZero(GetWord(z, i));
    if i == n - 1 {
      NoBits(z, msg, n - 1);
    } else {
      OneBit(z, msg, n - 1, i);
    }
  }
}
