/** The 3GPP algorithms 128-EEA3 and 128-EIA3 over an arbitrary ZUC keystream, bit by bit and
    byte by byte, with no windows, lanes or chunks. A key and an IV appear only as the
    keystream they produce. */
module ZucSpec {
  import opened Words
  import opened Bits32

  /** The words Z(0), Z(1), ... that ZUC generates for one key and IV. */
  type Keystream = nat -> bv32

  // ---- 128-EIA3 (section 4 of 3GPP TS 35.221) ----

  /** 32 consecutive bits of the string w0 || w1, from bit r on. */
  function Splice(w0: bv32, w1: bv32, r: nat): bv32 {
    ShiftLeft(Double(w0, w1), r).high
  }

  /** The 32 keystream bits from bit i on. */
  function GetWord(z: Keystream, i: nat): bv32 {
    Splice(z(i / 32), z(i / 32 + 1), i % 32)
  }

  const BIT_MASKS: seq<bv8> := [0x80, 0x40, 0x20, 0x10, 0x08, 0x04, 0x02, 0x01]

  /** Bit i of a message, the most significant bit of each byte first. */
  predicate MessageBit(msg: seq<bv8>, i: nat)
    requires i / 8 < |msg|
  {
    msg[i / 8] & BIT_MASKS[i % 8] != 0
  }

  /** What bit i of the message contributes to the MAC. */
  function MacTerm(z: Keystream, msg: seq<bv8>, i: nat): bv32
    requires i / 8 < |msg|
  {
    if MessageBit(msg, i) then GetWord(z, i) else 0
  }

  /** The XOR of GET_WORD(i) over the set bits i < n of the message. */
  function MacBits(z: Keystream, msg: seq<bv8>, n: nat): bv32
    requires n <= 8 * |msg|
  {
    if n == 0 then 0 else Xor(MacBits(z, msg, n - 1), MacTerm(z, msg, n - 1))
  }

  /** The number of keystream words for a message of n bits: two more than the message fills. */
  function KeystreamWords(n: nat): nat {
    (n + 31) / 32 + 2
  }

  function Eia3Mac(z: Keystream, msg: seq<bv8>, n: nat): bv32
    requires n <= 8 * |msg|
  {
    Xor(Xor(MacBits(z, msg, n), GetWord(z, n)), z(KeystreamWords(n) - 1))
  }

  lemma MacTermLocal(z: Keystream, z': Keystream, msg: seq<bv8>, i: nat)
    requires i / 8 < |msg|
    requires z(i / 32) == z'(i / 32) && z(i / 32 + 1) == z'(i / 32 + 1)
    ensures MacTerm(z, msg, i) == MacTerm(z', msg, i)
  {
    hide Splice, MessageBit;
  }

  /** Only the first KeystreamWords(n) words of a keystream matter to the MAC. */
  lemma {:induction false} MacBitsLocal(z: Keystream, z': Keystream, msg: seq<bv8>, n: nat)
    requires n <= 8 * |msg|
    requires forall g: nat :: g < KeystreamWords(n) - 1 ==> z(g) == z'(g)
    ensures MacBits(z, msg, n) == MacBits(z', msg, n)
  {
    hide MacTerm, Xor;
    if n > 0 {
      MacBitsLocal(z, z', msg, n - 1);
      MacTermLocal(z, z', msg, n - 1);
    }
  }

  /** The C code's view of the keystream bits from bit r of w0 on: two words loaded at once and
      rotated left by r. */
  lemma RotatedPairIsSplice(w0: bv32, w1: bv32, r: nat)
    requires r < 32
    ensures RotateLeft(Double(w1, w0), r).low == Splice(w0, w1, r)
  {
    hide Bit32;
    var low, splice := RotateLeft(Double(w1, w0), r).low, Splice(w0, w1, r);
    forall k: nat | k < 32
      ensures Bit32(low, k) == Bit32(splice, k)
    {
      RotateLeftBit(Double(w1, w0), r, k);
      ShiftLeftBit(Double(w0, w1), r, k + 32);
    }
    SameBits32(low, splice);
  }

  lemma SpliceAligned(w0: bv32, w1: bv32)
    ensures Splice(w0, w1, 0) == w0
  {
  }

  lemma GetWordLocal(z: Keystream, z': Keystream, n: nat)
    requires forall g: nat :: g < KeystreamWords(n) - 1 ==> z(g) == z'(g)
    ensures GetWord(z, n) == GetWord(z', n)
  {
    if n % 32 == 0 {
      SpliceAligned(z(n / 32), z(n / 32 + 1));
      SpliceAligned(z'(n / 32), z'(n / 32 + 1));
    }
  }

  lemma Eia3MacLocal(z: Keystream, z': Keystream, msg: seq<bv8>, n: nat)
    requires n <= 8 * |msg|
    requires forall g: nat :: g < KeystreamWords(n) ==> z(g) == z'(g)
    ensures Eia3Mac(z, msg, n) == Eia3Mac(z', msg, n)
  {
    MacBitsLocal(z, z', msg, n);
    GetWordLocal(z, z', n);
  }

  // ---- 128-EEA3 (section 3 of 3GPP TS 35.221) ----

  function KeystreamByte(z: Keystream, k: nat): bv8 {
    WordByte(z(k / 4), k % 4)
  }

  /** Each byte of a buffer combined with the keystream byte at its position. */
  function Eea3(z: Keystream, data: seq<bv8>): (r: seq<bv8>)
    ensures |r| == |data|
  {
    seq(|data|, k requires 0 <= k < |data| => XorByte(data[k], KeystreamByte(z, k)))
  }

  /** Deciphering is enciphering again. */
  lemma Eea3Involution(z: Keystream, data: seq<bv8>)
    ensures Eea3(z, Eea3(z, data)) == data
  {
    forall k | 0 <= k < |data|
      ensures Eea3(z, Eea3(z, data))[k] == data[k]
    {
      XorTwice(data[k], KeystreamByte(z, k));
    }
  }
}
