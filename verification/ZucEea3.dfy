/** The 128-EEA3 drivers for one buffer, in chunks of 16, 32 or 64 bytes, and for 4, 8 or 16 buffers in lock
    step. Each buffer may be enciphered in place. */
module ZucEea3 {
  import opened Words
  import opened ZucSpec
  import opened ZucKernels
  import opened ZucEia3
  import opened ZucMac

  /** `ZUC_MAX_BYTELEN` */
  const MAX_BYTES: nat := 8188

  /** The first `len` bytes of the output are the input combined with the keystream, byte by byte; the
      rest of the output is as it was. */
  ghost predicate Ciphered(z: Keystream, input: seq<bv8>, output: seq<bv8>, len: nat, output': seq<bv8>) {
    && len <= |input| && len <= |output| == |output'|
    && forall k | 0 <= k < |output| ::
         output'[k] == if k < len then XorByte(input[k], KeystreamByte(z, k)) else output[k]
  }

  /** That is what 128-EEA3 asks for. */
  lemma CipheredIsEea3(z: Keystream, input: seq<bv8>, output: seq<bv8>, len: nat, output': seq<bv8>)
    requires Ciphered(z, input, output, len, output')
    ensures output' == Eea3(z, input[..len]) + output[len..]
  {
    hide KeystreamByte, XorByte;
  }

  /** `asm_XorKeyStream16B/32B/64B`: bytes combined with the words of one window row, each word's most
      significant byte first. */
  method XorKeyStream(ks: array2<bv32>, row: nat, input: array<bv8>, output: array<bv8>, at: nat, n: nat)
    requires row < ks.Length0 && n <= 4 * ks.Length1
    requires at + n <= input.Length && at + n <= output.Length
    modifies output
    ensures forall k | 0 <= k < output.Length ::
              output[k] == if at <= k < at + n
                           then XorByte(old(input[k]), WordByte(ks[row, (k - at) / 4], (k - at) % 4))
                           else old(output[k])
  {
    hide WordByte, XorByte;
    for j := 0 to n
      invariant forall k | 0 <= k < output.Length ::
                  output[k] == if at <= k < at + j
                               then XorByte(old(input[k]), WordByte(ks[row, (k - at) / 4], (k - at) % 4))
                               else old(output[k])
    {
      output[at + j] := XorByte(input[at + j], WordByte(ks[row, j / 4], j % 4));
    }
  }

  /** `memcpy` between two different buffers */
  method CopyBytes(src: array<bv8>, from: nat, dst: array<bv8>, to: nat, n: nat)
    requires src != dst && from + n <= src.Length && to + n <= dst.Length
    modifies dst
    ensures forall k | 0 <= k < dst.Length :: dst[k] == if to <= k < to + n then src[from + (k - to)] else old(dst[k])
  {
    for j := 0 to n
      invariant forall k | 0 <= k < dst.Length ::
                  dst[k] == if to <= k < to + j then src[from + (k - to)] else old(dst[k])
    {
      dst[to + j] := src[from + j];
    }
  }

  /** The same for a part of a chunk, through temporary buffers of a whole one. */
  method XorThroughTemporaries(R: nat, ks: array2<bv32>, input: array<bv8>, output: array<bv8>, at: nat, n: nat)
    requires 0 < ks.Length0 && ks.Length1 == R && n <= 4 * R
    requires at + n <= input.Length && at + n <= output.Length
    modifies output
    ensures forall k | 0 <= k < output.Length ::
              output[k] == if at <= k < at + n then XorByte(old(input[k]), WordByte(ks[0, (k - at) / 4], (k - at) % 4))
                           else old(output[k])
  {
    hide WordByte, XorByte;
    var tempSrc, tempDst := new bv8[4 * R], new bv8[4 * R];
    CopyBytes(input, at, tempSrc, 0, n);
    XorKeyStream(ks, 0, tempSrc, tempDst, 0, 4 * R);
    CopyBytes(tempDst, 0, output, at, n);
  }

  /** In a window that shows enough keystream words from the word of byte `at` on, each of n bytes of
      the keystream is where the chunk looks for it. */
  lemma ByteInWindow(win: seq<bv32>, words: nat, z: Keystream, at: nat, n: nat, j: nat)
    requires at % 4 == 0 && j < n <= 4 * words && Shows(win, z, at / 4, words)
    ensures j / 4 < words <= |win|
    ensures WordByte(win[j / 4], j % 4) == KeystreamByte(z, at + j)
  {
    hide WordByte;
    assert (at + j) / 4 == at / 4 + j / 4 && (at + j) % 4 == j % 4;
  }

  /** `n` bytes at byte `at`, where the generator stands, from enough new keystream words. */
  method CipherChunk(R: nat, state: ZucState, ks: array2<bv32>, words: nat, input: array<bv8>, output: array<bv8>,
                     at: nat, n: nat)
    requires ks.Length0 == 1 && ks.Length1 == R && words <= R && n <= 4 * words
    requires at % 4 == 0 && state.pos == at / 4 && at + n <= input.Length && at + n <= output.Length
    modifies state`pos, ks, output
    ensures state.pos == at / 4 + words
    ensures forall k | 0 <= k < output.Length ::
              output[k] == if at <= k < at + n then XorByte(old(input[k]), KeystreamByte(state.z, k))
                           else old(output[k])
  {
    hide WordByte, XorByte, KeystreamByte;
    state.GenKeystream(ks, 0, 0, words);
    if n == 4 * R {
      XorKeyStream(ks, 0, input, output, at, n);
    } else {
      XorThroughTemporaries(R, ks, input, output, at, n);
    }
    forall k | at <= k < at + n
      ensures WordByte(ks[0, (k - at) / 4], (k - at) % 4) == KeystreamByte(state.z, k)
    {
      ByteInWindow(Row(ks, 0), words, state.z, at, n, k - at);
    }
  }

  /** The same, for a buffer whose first `at` bytes are done. */
  method CipherMore(R: nat, state: ZucState, ks: array2<bv32>, words: nat, input: array<bv8>, output: array<bv8>,
                    at: nat, n: nat, ghost input0: seq<bv8>, ghost output0: seq<bv8>)
    requires ks.Length0 == 1 && ks.Length1 == R && words <= R && n <= 4 * words
    requires at % 4 == 0 && state.pos == at / 4 && at + n <= input.Length && at + n <= output.Length
    requires Ciphered(state.z, input0, output0, at, output[..])
    requires |input0| == input.Length && forall k | at <= k < input.Length :: input[k] == input0[k]
    modifies state`pos, ks, output
    ensures state.pos == at / 4 + words
    ensures Ciphered(state.z, input0, output0, at + n, output[..])
    ensures forall k | at + n <= k < input.Length :: input[k] == input0[k]
  {
    hide KeystreamByte, XorByte;
    CipherChunk(R, state, ks, words, input, output, at, n);
  }

  /** One buffer from byte `at` on, with a generator that stands there: whole chunks, then up to
      4R - 1 bytes. `input0` and `output0` are the buffers before their first `at` bytes were done. */
  method CipherAlone(R: nat, state: ZucState, input: array<bv8>, output: array<bv8>, at: nat, length: nat,
                     ghost input0: seq<bv8>, ghost output0: seq<bv8>)
    requires IsRound(R) && at % 4 == 0 && at <= length <= input.Length && length <= output.Length
    requires state.pos == at / 4
    requires Ciphered(state.z, input0, output0, at, output[..])
    requires |input0| == input.Length && forall k | at <= k < input.Length :: input[k] == input0[k]
    modifies state`pos, output
    ensures Ciphered(state.z, input0, output0, length, output[..])
    ensures forall k | length <= k < input.Length :: input[k] == input0[k]
  {
    hide KeystreamByte, XorByte, Times;
    var keyStream := new bv32[1, R];
    var chunk := 4 * R;
    var numKeyStreamsPerPkt := (length - at) / chunk;
    var numBytesLeftOver := (length - at) % chunk;
    ChunkCount(length - at, chunk);
    var done := at;
    while numKeyStreamsPerPkt > 0
      invariant at <= done <= length && done % 4 == 0 && state.pos == done / 4
      invariant 0 <= numKeyStreamsPerPkt && length - done == Times(numKeyStreamsPerPkt, chunk) + numBytesLeftOver
      invariant Ciphered(state.z, input0, output0, done, output[..])
      invariant forall k | done <= k < input.Length :: input[k] == input0[k]
    {
      ChunkLeft(numKeyStreamsPerPkt, chunk);
      numKeyStreamsPerPkt := numKeyStreamsPerPkt - 1;
      CipherMore(R, state, keyStream, R, input, output, done, chunk, input0, output0);
      done := done + chunk;
    }
    NoChunkLeft(chunk);
    if numBytesLeftOver != 0 {
      CipherMore(R, state, keyStream, (numBytesLeftOver - 1) / 4 + 1, input, output, done, numBytesLeftOver,
                 input0, output0);
    }
  }

  /** `_zuc_eea3_1_buffer_avx` (R = 4), `_avx2` (R = 8) and `_avx512` (R = 16) */
  method Eea3OneBuffer(R: nat, z: Keystream, input: array<bv8>, output: array<bv8>, length: nat)
    requires IsRound(R) && length <= input.Length && length <= output.Length
    modifies output
    ensures Ciphered(z, old(input[..]), old(output[..]), length, output[..])
    ensures forall k | length <= k < input.Length :: input[k] == old(input[k])
  {
    hide KeystreamByte, XorByte;
    var zucState := new ZucState(z);
    CipherAlone(R, zucState, input, output, 0, length, input[..], output[..]);
  }

  // ---- Several buffers ----

  /** One keystream, input, output and length a buffer. */
  datatype Buffers = Buffers(z: seq<Keystream>, input: seq<array<bv8>>, output: seq<array<bv8>>, length: seq<nat>) {
    ghost predicate Valid() {
      && |z| == |input| == |output| == |length|
      && (forall i | 0 <= i < |z| ::
            length[i] <= input[i].Length && length[i] <= output[i].Length && length[i] <= MAX_BYTES)
      && forall i, j | 0 <= i < |z| && 0 <= j < |z| && i != j :: output[i] != output[j] && output[i] != input[j]
    }
  }

  function Up4(n: nat): nat {
    (n + 3) / 4 * 4
  }

  /** What the lock-step part does of a lane. */
  function SharedBytes(common: nat, length: nat): nat {
    if length <= Up4(common) then length else Up4(common)
  }

  /** The contents of the buffers. */
  function Contents(arrays: seq<array<bv8>>): (r: seq<seq<bv8>>)
    reads arrays
    ensures |r| == |arrays| && forall i | 0 <= i < |arrays| :: r[i] == arrays[i][..]
  {
    seq(|arrays|, i requires 0 <= i < |arrays| reads arrays => arrays[i][..])
  }

  /** Buffer i is done up to byte `done`; its input is not yet overwritten beyond. */
  ghost predicate DoneTo(bufs: Buffers, i: nat, done: nat, input0: seq<bv8>, output0: seq<bv8>)
    requires bufs.Valid() && i < |bufs.z|
    reads bufs.input[i], bufs.output[i]
  {
    && Ciphered(bufs.z[i], input0, output0, done, bufs.output[i][..])
    && |input0| == bufs.input[i].Length
    && forall k | done <= k < |input0| :: bufs.input[i][k] == input0[k]
  }

  /** How far each buffer is. */
  ghost predicate Progress(bufs: Buffers, done: seq<nat>, input0: seq<seq<bv8>>, output0: seq<seq<bv8>>)
    requires bufs.Valid()
    reads bufs.input, bufs.output
  {
    && |done| == |bufs.z| == |input0| == |output0|
    && forall k | 0 <= k < |done| :: DoneTo(bufs, k, done[k], input0[k], output0[k])
  }

  lemma SharedFits(common: nat, length: nat)
    ensures SharedBytes(common, length) <= length
    ensures SharedBytes(common, length) < length ==>
              SharedBytes(common, length) % 4 == 0 && SharedBytes(common, length) / 4 == (common + 3) / 4
  {
  }

  /** The first bytes of one lane in the lock-step part. */
  method CipherPrefix(bufs: Buffers, i: nat, count: nat, ghost done: seq<nat>,
                      ghost input0: seq<seq<bv8>>, ghost output0: seq<seq<bv8>>)
    requires bufs.Valid() && i < |bufs.z| && count <= bufs.length[i]
    requires Progress(bufs, done, input0, output0) && done[i] == 0
    modifies bufs.output[i]
    ensures Progress(bufs, done[i := count], input0, output0)
  {
    hide KeystreamByte, XorByte;
    for j := 0 to count
      invariant DoneTo(bufs, i, j, input0[i], output0[i])
    {
      bufs.output[i][j] := XorByte(bufs.input[i][j], KeystreamByte(bufs.z[i], j));
    }
  }

  /** `asm_ZucCipher_4/8/16` on `count` buffers from `first` on: the common length of every lane, rounded up to
      whole words where the lane goes on; the lengths that remain; and every generator moved by the words
      made. */
  method CipherLanes(state: ZucLanes, bufs: Buffers, first: nat, count: nat, common: nat, ghost done0: seq<nat>,
                     ghost input0: seq<seq<bv8>>, ghost output0: seq<seq<bv8>>)
    returns (remainBytes: seq<nat>, ghost done: seq<nat>)
    requires bufs.Valid() && first + count <= |bufs.z| && |done0| == |bufs.z|
    requires Progress(bufs, done0, input0, output0) && forall k | first <= k < first + count :: done0[k] == 0
    requires state.Valid() && |state.z| == count
    modifies state`pos, bufs.output
    ensures state.Valid() && |remainBytes| == count && |done| == |bufs.z|
    ensures forall i | 0 <= i < count ::
              state.pos[i] == (common + 3) / 4 && remainBytes[i] + done[first + i] == bufs.length[first + i]
    ensures forall k | 0 <= k < |done| ::
              done[k] == if first <= k < first + count then SharedBytes(common, bufs.length[k]) else done0[k]
    ensures Progress(bufs, done, input0, output0)
  {
    hide Progress, SharedBytes;
    remainBytes, done := [], done0;
    for n := 0 to count
      invariant |remainBytes| == n && |done| == |bufs.z| && Progress(bufs, done, input0, output0)
      invariant forall i | 0 <= i < n :: remainBytes[i] + done[first + i] == bufs.length[first + i]
      invariant forall k | 0 <= k < |done| ::
                  done[k] == if first <= k < first + n then SharedBytes(common, bufs.length[k]) else done0[k]
    {
      SharedFits(common, bufs.length[first + n]);
      var shared := SharedBytes(common, bufs.length[first + n]);
      CipherPrefix(bufs, first + n, shared, done, input0, output0);
      remainBytes := remainBytes + [bufs.length[first + n] - shared];
      done := done[first + n := shared];
    }
    state.pos := seq(count, _ => (common + 3) / 4);
  }

  /** The rest of one lane, alone, with the generator copied out of the shared state if it is needed. */
  method FinishLane(R: nat, z: Keystream, pos: nat, singlePktState: ZucState, bufs: Buffers, i: nat, remain: nat,
                    ghost common: nat, ghost done: seq<nat>, ghost input0: seq<seq<bv8>>, ghost output0: seq<seq<bv8>>)
    requires IsRound(R) && bufs.Valid() && i < |bufs.z| && z == bufs.z[i] && pos == (common + 3) / 4
    requires Progress(bufs, done, input0, output0)
    requires done[i] == SharedBytes(common, bufs.length[i]) && remain == bufs.length[i] - done[i]
    modifies singlePktState, bufs.output[i]
    ensures Progress(bufs, done[i := bufs.length[i]], input0, output0)
  {
    hide Ciphered, SharedBytes;
    SharedFits(common, bufs.length[i]);
    if remain != 0 {
      singlePktState.z, singlePktState.pos := z, pos;
      CipherAlone(R, singlePktState, bufs.input[i], bufs.output[i], bufs.length[i] - remain, bufs.length[i],
                  input0[i], output0[i]);
    }
  }

  /** The buffers before `first` are complete, and the others have not been started. */
  function DoneBefore(bufs: Buffers, first: nat): (done: seq<nat>)
    requires bufs.Valid() && first <= |bufs.z|
    ensures |done| == |bufs.z| && forall k | 0 <= k < |done| :: done[k] == if k < first then bufs.length[k] else 0
  {
    seq(|bufs.z|, k requires 0 <= k < |bufs.z| => if k < first then bufs.length[k] else 0)
  }

  /** The buffers before `first` are enciphered, and the others are as they were. */
  ghost predicate Reached(bufs: Buffers, first: nat, input0: seq<seq<bv8>>, output0: seq<seq<bv8>>)
    requires bufs.Valid() && first <= |bufs.z|
    reads bufs.input, bufs.output
  {
    Progress(bufs, DoneBefore(bufs, first), input0, output0)
  }

  /** Every lane's rest, one lane after the other. */
  method FinishLanes(R: nat, state: ZucLanes, bufs: Buffers, first: nat, count: nat, remainBytes: seq<nat>,
                     ghost common: nat,
                     ghost done0: seq<nat>, ghost input0: seq<seq<bv8>>, ghost output0: seq<seq<bv8>>)
    requires IsRound(R) && bufs.Valid() && first + count <= |bufs.z| == |done0|
    requires state.Valid() && state.z == bufs.z[first..first + count] && |remainBytes| == count
    requires forall i | 0 <= i < count ::
               && state.pos[i] == (common + 3) / 4
               && done0[first + i] == SharedBytes(common, bufs.length[first + i])
               && remainBytes[i] + done0[first + i] == bufs.length[first + i]
    requires Progress(bufs, done0, input0, output0)
    modifies bufs.output
    ensures Progress(bufs, seq(|done0|, k requires 0 <= k < |done0| =>
                                 if first <= k < first + count then bufs.length[k] else done0[k]), input0, output0)
  {
    hide Progress, SharedBytes;
    var singlePktState := new ZucState(_ => 0);
    ghost var done := done0;
    for n := 0 to count
      modifies singlePktState, bufs.output
      invariant |done| == |bufs.z| && Progress(bufs, done, input0, output0)
      invariant forall k | 0 <= k < |done| :: done[k] == if first <= k < first + n then bufs.length[k] else done0[k]
    {
      FinishLane(R, state.z[n], state.pos[n], singlePktState, bufs, first + n, remainBytes[n], common, done,
                 input0, output0);
      done := done[first + n := bufs.length[first + n]];
    }
    assert done == seq(|done0|, k requires 0 <= k < |done0| =>
                                  if first <= k < first + count then bufs.length[k] else done0[k]);
  }

  /** The 4-, 8- and 16-lane drivers on `count` buffers from `first` on, given their smallest length. */
  method Eea3Lanes(R: nat, bufs: Buffers, first: nat, count: nat, common: nat,
                   ghost input0: seq<seq<bv8>>, ghost output0: seq<seq<bv8>>)
    requires IsRound(R) && bufs.Valid() && first + count <= |bufs.z| && IsMin(bufs.length[first..first + count], common)
    requires Reached(bufs, first, input0, output0)
    modifies bufs.output
    ensures Reached(bufs, first + count, input0, output0)
  {
    hide Progress, SharedBytes, IsMin;
    var state := new ZucLanes(bufs.z[first..first + count]);
    var remainBytes, done := CipherLanes(state, bufs, first, count, common, DoneBefore(bufs, first), input0, output0);
    FinishLanes(R, state, bufs, first, count, remainBytes, common, done, input0, output0);
    assert seq(|done|, k requires 0 <= k < |done| => if first <= k < first + count then bufs.length[k] else done[k])
        == DoneBefore(bufs, first + count);
  }

  /** Complete buffers are enciphered buffers. */
  lemma CompleteMeansCiphered(bufs: Buffers, input0: seq<seq<bv8>>, output0: seq<seq<bv8>>)
    requires bufs.Valid() && Reached(bufs, |bufs.z|, input0, output0)
    ensures |input0| == |output0| == |bufs.z|
    ensures forall k | 0 <= k < |bufs.z| ::
              Ciphered(bufs.z[k], input0[k], output0[k], bufs.length[k], bufs.output[k][..])
  {
    hide Ciphered;
    assert forall k | 0 <= k < |bufs.z| :: DoneTo(bufs, k, bufs.length[k], input0[k], output0[k]);
  }

  lemma NothingDone(bufs: Buffers)
    requires bufs.Valid()
    ensures Reached(bufs, 0, Contents(bufs.input), Contents(bufs.output))
  {
  }
}
