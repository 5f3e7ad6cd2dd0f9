/** The 128-EIA3 drivers for one buffer, over keystream windows of 4, 8 and 16 words, and the code that
    finishes one lane of the others. */
module ZucEia3 {
  import opened Words
  import opened ZucSpec
  import opened ZucKernels

  /** The keystream words of one round: 16, 32 or 64 bytes. */
  predicate IsRound(R: nat) {
    R == 4 || R == 8 || R == 16
  }

  /** The length arithmetic is 32-bit; no intermediate value of it may wrap. */
  predicate FitsUint32(lengthInBits: nat) {
    lengthInBits + 2 * 32 + 31 < 0x1_0000_0000
  }

  /** One round of one buffer: the next keystream words into the second half of its row, R words of
      message bits, and the second half over the first. */
  method OneRound(R: nat, state: ZucState, words: nat, ks: array2<bv32>, row: nat, T0: bv32,
                  msg: seq<bv8>, at: nat, ghost z: Keystream, ghost base: nat) returns (T: bv32)
    requires IsRound(R) && row < ks.Length0 && ks.Length1 == 2 * R
    requires words == 2 || words == R
    requires at == 4 * base && 32 * base + 32 * R <= 8 * |msg|
    requires Shows(Row(ks, row), z, base, R) && T0 == MacBits(z, msg, 32 * base)
    requires Continues(state.z, state.pos, z, base + R)
    modifies state`pos, ks
    ensures Shows(Row(ks, row), z, base + R, words) && T == MacBits(z, msg, 32 * (base + R))
    ensures Continues(state.z, state.pos, z, base + R + words)
    ensures forall i, j | 0 <= i < ks.Length0 && 0 <= j < ks.Length1 && i != row :: ks[i, j] == old(ks[i, j])
  {
    hide MacBits, WindowBits;
    state.GenKeystream(ks, row, R, words);
    WindowBitsExtend(Row(ks, row), z, base, msg, 32 * R);
    T := Xor(T0, WindowBits(Row(ks, row), msg, at, 32 * R));
    SlideWindow(ks, row, R);
  }

  /** One buffer on its own, from any point where the first half of its row shows the next R words
      of keystream `z` and the generator continues it: all whole rounds, the rest, and the end. */
  method FinishAlone(R: nat, state: ZucState, ks: array2<bv32>, row: nat, T0: bv32, msg: seq<bv8>,
                     at: nat, bits: nat, L0: nat, ghost z: Keystream, ghost base: nat)
    returns (mac: bv32)
    requires IsRound(R) && row < ks.Length0 && ks.Length1 == 2 * R
    requires at == 4 * base && 32 * base + bits <= 8 * |msg|
    requires L0 == KeystreamWords(bits)
    requires Shows(Row(ks, row), z, base, R) && T0 == MacBits(z, msg, 32 * base)
    requires bits > 32 * (R - 2) ==> Continues(state.z, state.pos, z, base + R)
    modifies state`pos, ks
    ensures mac == Bswap4(Eia3Mac(z, msg, 32 * base + bits))
    ensures forall i, j | 0 <= i < ks.Length0 && 0 <= j < ks.Length1 && i != row :: ks[i, j] == old(ks[i, j])
  {
    hide MacBits, Finish, WindowBits, Eia3Mac;
    var T, pIn, remainingBits: nat, L: nat := T0, at, bits, L0;
    ghost var b := base;
    while remainingBits >= 32 * R
      invariant pIn == 4 * b && 32 * b + remainingBits == 32 * base + bits
      invariant L == KeystreamWords(remainingBits)
      invariant Shows(Row(ks, row), z, b, if b > base && remainingBits == 0 then 2 else R)
      invariant T == MacBits(z, msg, 32 * b)
      invariant remainingBits > 32 * (R - 2) ==> Continues(state.z, state.pos, z, b + R)
      invariant forall i, j | 0 <= i < ks.Length0 && 0 <= j < ks.Length1 && i != row :: ks[i, j] == old(ks[i, j])
    {
      remainingBits := remainingBits - 32 * R;
      L := L - R;
      T := OneRound(R, state, if remainingBits == 0 then 2 else R, ks, row, T, msg, pIn, z, b);
      pIn := pIn + 4 * R;
      b := b + R;
    }
    mac := End(R, state, ks, row, T, msg, pIn, remainingBits, L, z, b);
  }

  /** The end of one buffer: 8 more bytes of keystream if the rest needs them, the rest, and the key block. */
  method End(R: nat, state: ZucState, ks: array2<bv32>, row: nat, T0: bv32, msg: seq<bv8>,
             at: nat, remainingBits: nat, L: nat, ghost z: Keystream, ghost b: nat)
    returns (mac: bv32)
    requires IsRound(R) && row < ks.Length0 && ks.Length1 == 2 * R && remainingBits < 32 * R
    requires at == 4 * b && 32 * b + remainingBits <= 8 * |msg| && L == KeystreamWords(remainingBits)
    requires Shows(Row(ks, row), z, b, if remainingBits == 0 then 2 else R) && T0 == MacBits(z, msg, 32 * b)
    requires remainingBits > 32 * (R - 2) ==> Continues(state.z, state.pos, z, b + R)
    modifies state`pos, ks
    ensures mac == Bswap4(Eia3Mac(z, msg, 32 * b + remainingBits))
    ensures forall i, j | 0 <= i < ks.Length0 && 0 <= j < ks.Length1 && i != row :: ks[i, j] == old(ks[i, j])
  {
    hide MacBits, Finish, WindowBits, Eia3Mac;
    if remainingBits > 32 * (R - 2) {
      state.GenKeystream(ks, row, R, 2);
    }
    WindowBitsExtend(Row(ks, row), z, b, msg, remainingBits);
    var T := Xor(T0, WindowBits(Row(ks, row), msg, at, remainingBits));
    FinishCompletes(T, Row(ks, row), z, b, msg, remainingBits);
    mac := Finish(T, Row(ks, row), remainingBits, L);
  }

  /** `_zuc_eia3_1_buffer_avx` (R = 4), `_avx2` (R = 8) and `_avx512` (R = 16). */
  method Eia3OneBuffer(R: nat, z: Keystream, msg: seq<bv8>, lengthInBits: nat) returns (mac: bv32)
    requires IsRound(R) && FitsUint32(lengthInBits) && lengthInBits <= 8 * |msg|
    ensures mac == Bswap4(Eia3Mac(z, msg, lengthInBits))
  {
    hide Eia3Mac;
    var keyStream := new bv32[1, 2 * R];
    var N := lengthInBits + 2 * 32;
    var L := (N + 31) / 32;
    var state := new ZucState(z);
    state.GenKeystream(keyStream, 0, 0, R);
    mac := FinishAlone(R, state, keyStream, 0, 0, msg, 0, lengthInBits, L, z, 0);
  }
}
