/** The assembly primitives the ZUC drivers call, each as the contract the drivers rely on:
    keystream generators that write the next words of a stream and advance, and the EIA3
    primitives that combine keystream words read from a window. */
module ZucKernels {
  import opened Words
  import opened ZucSpec

  /** `ZucState_t`: one generator, `pos` words into its keystream. */
  class ZucState {
    var z: Keystream
    var pos: nat

    /** `asm_ZucInitialization_avx` */
    constructor (z: Keystream)
      ensures this.z == z && pos == 0
    {
      this.z, pos := z, 0;
    }

    /** `asm_ZucGenKeystream8B/16B/32B/64B_avx`: the next `words` words, written to one row of a
        keystream buffer from column `at` on. */
    method GenKeystream(ks: array2<bv32>, row: nat, at: nat, words: nat)
      requires row < ks.Length0 && at + words <= ks.Length1
      modifies this`pos, ks
      ensures pos == old(pos) + words
      ensures forall i, j | 0 <= i < ks.Length0 && 0 <= j < ks.Length1 ::
                ks[i, j] == if i == row && at <= j < at + words then z(old(pos) + j - at) else old(ks[i, j])
    {
      for k := 0 to words
        invariant pos == old(pos) + k
        invariant forall i, j | 0 <= i < ks.Length0 && 0 <= j < ks.Length1 ::
                    ks[i, j] == if i == row && at <= j < at + k then z(old(pos) + j - at) else old(ks[i, j])
      {
        ks[row, at + k] := z(pos);
        pos := pos + 1;
      }
    }
  }

  /** `ZucState4_t`, `ZucState8_t`, `ZucState16_t`: one generator a lane. */
  class ZucLanes {
    var z: seq<Keystream>
    var pos: seq<nat>

    ghost predicate Valid()
      reads this
    {
      |z| == |pos|
    }

    /** `asm_ZucInitialization_4/8/16` */
    constructor (z: seq<Keystream>)
      ensures Valid() && this.z == z
      ensures forall i | 0 <= i < |z| :: pos[i] == 0
    {
      this.z, pos := z, seq(|z|, _ => 0);
    }

    /** `asm_ZucGenKeystream8B/16B/32B/64B_4/8/16`: the next `words` words of every lane in the mask,
        each written to the lane's row from column `at` on. The other lanes stand still. */
    method GenKeystream(ks: array2<bv32>, at: nat, words: nat, mask: seq<bool>)
      requires Valid() && |z| == |mask| == ks.Length0 && at + words <= ks.Length1
      modifies this`pos, ks
      ensures Valid()
      ensures forall i | 0 <= i < |mask| :: pos[i] == old(pos)[i] + (if mask[i] then words else 0)
      ensures forall i, j | 0 <= i < ks.Length0 && 0 <= j < ks.Length1 ::
                ks[i, j] == if mask[i] && at <= j < at + words then z[i](old(pos)[i] + j - at) else old(ks[i, j])
    {
      for n := 0 to |mask|
        invariant Valid()
        invariant forall i | 0 <= i < |mask| :: pos[i] == old(pos)[i] + (if i < n && mask[i] then words else 0)
        invariant forall i, j | 0 <= i < ks.Length0 && 0 <= j < ks.Length1 ::
                    ks[i, j] == if i < n && mask[i] && at <= j < at + words then z[i](old(pos)[i] + j - at)
                                else old(ks[i, j])
      {
        if mask[n] {
          var lane := new ZucState(z[n]);
          lane.pos := pos[n];
          lane.GenKeystream(ks, n, at, words);
          pos := pos[n := lane.pos];
        }
      }
    }
  }

  /** One lane's row of a keystream buffer, as the pointer passed to a primitive shows it. */
  function Row(ks: array2<bv32>, row: nat): (r: seq<bv32>)
    requires row < ks.Length0
    reads ks
    ensures |r| == ks.Length1 && forall j | 0 <= j < |r| :: r[j] == ks[row, j]
  {
    seq(ks.Length1, j requires 0 <= j < ks.Length1 reads ks => ks[row, j])
  }

  /** A window holds words `base`, `base + 1`, ... of a keystream in its first n places. */
  ghost predicate Shows(win: seq<bv32>, z: Keystream, base: nat, n: nat) {
    n <= |win| && forall j | 0 <= j < n :: win[j] == z(base + j)
  }

  /** From word `pos` on, the keystream `src` is `z` from word g on. */
  ghost predicate Continues(src: Keystream, pos: nat, z: Keystream, g: nat) {
    forall p: nat | pos <= p :: src(p) == z(g + (p - pos))
  }

  /** `memcpy` of the last `half` words of a row over the first `half`. */
  method SlideWindow(ks: array2<bv32>, row: nat, half: nat)
    requires row < ks.Length0 && ks.Length1 == 2 * half
    modifies ks
    ensures forall i, j | 0 <= i < ks.Length0 && 0 <= j < ks.Length1 ::
              ks[i, j] == if i == row && j < half then old(ks[row, half + j]) else old(ks[i, j])
  {
    for k := 0 to half
      invariant forall i, j | 0 <= i < ks.Length0 && 0 <= j < ks.Length1 ::
                  ks[i, j] == if i == row && j < k then old(ks[row, half + j]) else old(ks[i, j])
    {
      ks[row, k] := ks[row, half + k];
    }
  }

  /** What bit i after byte `at` of the message contributes, read from the window. */
  function WindowTerm(win: seq<bv32>, msg: seq<bv8>, at: nat, i: nat): bv32
    requires i / 32 + 1 < |win| && 8 * at + i < 8 * |msg|
  {
    if MessageBit(msg, 8 * at + i) then Splice(win[i / 32], win[i / 32 + 1], i % 32) else 0
  }

  /** `asm_Eia3Round*` and the first part of `asm_Eia3Remainder*`: the XOR of the 32-bit views of
      the window at each set bit among n message bits, starting at byte `at` of the message. */
  function WindowBits(win: seq<bv32>, msg: seq<bv8>, at: nat, n: nat): bv32
    requires (n + 31) / 32 + 1 <= |win| && 8 * at + n <= 8 * |msg|
  {
    if n == 0 then 0 else Xor(WindowBits(win, msg, at, n - 1), WindowTerm(win, msg, at, n - 1))
  }

  /** The end of the MAC: `T ^= rotate_left(load_uint64(&ks[n / 32]), n % 32)`, then the key block
      `ks[L - 1]`, then the byte swap. */
  function Finish(t: bv32, win: seq<bv32>, n: nat, L: nat): bv32
    requires n / 32 + 1 < |win| && 0 < L <= |win|
  {
    Bswap4(Xor(Xor(t, RotateLeft(Double(win[n / 32 + 1], win[n / 32]), n % 32).low), win[L - 1]))
  }

  lemma TermsAgree(win: seq<bv32>, z: Keystream, base: nat, msg: seq<bv8>, i: nat)
    requires i / 32 + 1 < |win| && 32 * base + i < 8 * |msg|
    requires win[i / 32] == z(base + i / 32) && win[i / 32 + 1] == z(base + i / 32 + 1)
    ensures MacTerm(z, msg, 32 * base + i) == WindowTerm(win, msg, 4 * base, i)
  {
    hide MessageBit, Splice;
    assert (32 * base + i) / 32 == base + i / 32 && (32 * base + i) % 32 == i % 32;
  }

  /** On a window that shows the keystream from word `base` on, the window's bits are the next
      terms of the MAC. */
  lemma {:induction false} WindowBitsExtend(win: seq<bv32>, z: Keystream, base: nat, msg: seq<bv8>, n: nat)
    requires 32 * base + n <= 8 * |msg|
    requires Shows(win, z, base, (n + 31) / 32 + 1)
    ensures MacBits(z, msg, 32 * base + n)
         == Xor(MacBits(z, msg, 32 * base), WindowBits(win, msg, 4 * base, n))
  {
    hide Xor, MacTerm, WindowTerm;
    if n == 0 {
      XorZero(MacBits(z, msg, 32 * base));
    } else {
      WindowBitsExtend(win, z, base, msg, n - 1);
      TermsAgree(win, z, base, msg, n - 1);
      XorAssociates(MacBits(z, msg, 32 * base), WindowBits(win, msg, 4 * base, n - 1),
                    WindowTerm(win, msg, 4 * base, n - 1));
    }
  }

  /** On such a window, the end of the MAC is the end the specification asks for. */
  lemma FinishCompletes(t: bv32, win: seq<bv32>, z: Keystream, base: nat, msg: seq<bv8>, n: nat)
    requires 32 * base + n <= 8 * |msg|
    requires Shows(win, z, base, KeystreamWords(n))
    requires t == MacBits(z, msg, 32 * base + n)
    ensures Finish(t, win, n, KeystreamWords(n)) == Bswap4(Eia3Mac(z, msg, 32 * base + n))
  {
    hide Xor, Bswap4, RotateLeft, Splice;
    var i := 32 * base + n;
    assert i / 32 == base + n / 32 && i % 32 == n % 32;
    RotatedPairIsSplice(win[n / 32], win[n / 32 + 1], n % 32);
    assert KeystreamWords(i) == base + KeystreamWords(n);
  }
}
