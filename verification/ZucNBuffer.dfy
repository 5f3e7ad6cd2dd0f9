/** The n-buffer entry points: batches of 16, 8 and 4 buffers, largest first, then one at a time. */
module ZucNBuffer {
  import opened Words
  import opened ZucSpec
  import opened ZucLockStep
  import opened ZucEia3
  import opened ZucMac
  import opened ZucEea3

  // ---- 128-EEA3 ----

  /** The smallest length of 4, 8 or 16. */
  method CommonOf(lengths: seq<nat>) returns (common: nat)
    requires |lengths| == 4 || |lengths| == 8 || |lengths| == 16
    requires forall x | x in lengths :: x < 0x1_0000
    ensures IsMin(lengths, common)
  {
    var allCommonBits;
    if |lengths| == 4 {
      common, allCommonBits := CommonOfFour(lengths);
    } else if |lengths| == 8 {
      common, allCommonBits := FindMinLength32(lengths);
    } else {
      common := FindMinOfSixteen(lengths);
    }
  }

  /** `_zuc_eea3_4_buffer_avx`, `_zuc_eea3_8_buffer_avx2` or `_zuc_eea3_16_buffer_avx512` on the buffers
      from i on. */
  method Eea3Batch(bufs: Buffers, i: nat, size: nat, ghost input0: seq<seq<bv8>>, ghost output0: seq<seq<bv8>>)
    requires bufs.Valid() && i + size <= |bufs.z| && (size == 4 || size == 8 || size == 16)
    requires Reached(bufs, i, input0, output0)
    modifies bufs.output
    ensures Reached(bufs, i + size, input0, output0)
  {
    hide Reached, IsMin;
    var common := CommonOf(bufs.length[i..i + size]);
    Eea3Lanes(size, bufs, i, size, common, input0, output0);
  }

  /** One buffer alone. */
  method Eea3Single(bufs: Buffers, R: nat, i: nat, ghost input0: seq<seq<bv8>>, ghost output0: seq<seq<bv8>>)
    requires IsRound(R) && bufs.Valid() && i < |bufs.z| && Reached(bufs, i, input0, output0)
    modifies bufs.output
    ensures Reached(bufs, i + 1, input0, output0)
  {
    assert DoneTo(bufs, i, 0, input0[i], output0[i]);
    assert bufs.output[i][..] == output0[i] && bufs.input[i][..] == input0[i];
    Eea3OneBuffer(R, bufs.z[i], bufs.input[i], bufs.output[i], bufs.length[i]);
  }

  /** `_zuc_eea3_n_buffer` (AVX512) */
  method Eea3NBuffersAvx512(bufs: Buffers, ghost input0: seq<seq<bv8>>, ghost output0: seq<seq<bv8>>)
    requires bufs.Valid() && Reached(bufs, 0, input0, output0)
    modifies bufs.output
    ensures Reached(bufs, |bufs.z|, input0, output0)
  {
    hide Reached, Buffers.Valid;
    var i, packetCount := 0, |bufs.z|;
    while packetCount >= 16
      invariant 0 <= packetCount && i + packetCount == |bufs.z| && Reached(bufs, i, input0, output0)
    {
      packetCount := packetCount - 16;
      Eea3Batch(bufs, i, 16, input0, output0);
      i := i + 16;
    }
    while packetCount >= 8
      invariant 0 <= packetCount && i + packetCount == |bufs.z| && Reached(bufs, i, input0, output0)
    {
      packetCount := packetCount - 8;
      Eea3Batch(bufs, i, 8, input0, output0);
      i := i + 8;
    }
    while packetCount >= 4
      invariant 0 <= packetCount && i + packetCount == |bufs.z| && Reached(bufs, i, input0, output0)
    {
      packetCount := packetCount - 4;
      Eea3Batch(bufs, i, 4, input0, output0);
      i := i + 4;
    }
    while packetCount > 0
      invariant 0 <= packetCount && i + packetCount == |bufs.z| && Reached(bufs, i, input0, output0)
    {
      packetCount := packetCount - 1;
      Eea3Single(bufs, 16, i, input0, output0);
      i := i + 1;
    }
  }

  /** `zuc_eea3_n_buffer_avx2` */
  method Eea3NBuffersAvx2(bufs: Buffers, ghost input0: seq<seq<bv8>>, ghost output0: seq<seq<bv8>>)
    requires bufs.Valid() && Reached(bufs, 0, input0, output0)
    modifies bufs.output
    ensures Reached(bufs, |bufs.z|, input0, output0)
  {
    hide Reached, Buffers.Valid;
    var i, packetCount := 0, |bufs.z|;
    while packetCount >= 8
      invariant 0 <= packetCount && i + packetCount == |bufs.z| && Reached(bufs, i, input0, output0)
    {
      packetCount := packetCount - 8;
      Eea3Batch(bufs, i, 8, input0, output0);
      i := i + 8;
    }
    if packetCount >= 4 {
      packetCount := packetCount - 4;
      Eea3Batch(bufs, i, 4, input0, output0);
      i := i + 4;
    }
    while packetCount > 0
      invariant 0 <= packetCount && i + packetCount == |bufs.z| && Reached(bufs, i, input0, output0)
    {
      packetCount := packetCount - 1;
      Eea3Single(bufs, 8, i, input0, output0);
      i := i + 1;
    }
  }

  /** `zuc_eea3_n_buffer_avx` */
  method Eea3NBuffersAvx(bufs: Buffers, ghost input0: seq<seq<bv8>>, ghost output0: seq<seq<bv8>>)
    requires bufs.Valid() && Reached(bufs, 0, input0, output0)
    modifies bufs.output
    ensures Reached(bufs, |bufs.z|, input0, output0)
  {
    hide Reached, Buffers.Valid;
    var i, packetCount := 0, |bufs.z|;
    while packetCount >= 4
      invariant 0 <= packetCount && i + packetCount == |bufs.z| && Reached(bufs, i, input0, output0)
    {
      packetCount := packetCount - 4;
      Eea3Batch(bufs, i, 4, input0, output0);
      i := i + 4;
    }
    while packetCount > 0
      invariant 0 <= packetCount && i + packetCount == |bufs.z| && Reached(bufs, i, input0, output0)
    {
      packetCount := packetCount - 1;
      Eea3Single(bufs, 4, i, input0, output0);
      i := i + 1;
    }
  }

  datatype Arch = Avx | Avx2 | Avx512

  /** `zuc_eea3_n_buffer_avx`, `_avx2` and `_avx512`: every buffer is enciphered exactly once, as one buffer
      alone would be. */
  method Eea3NBuffers(bufs: Buffers, arch: Arch)
    requires bufs.Valid()
    modifies bufs.output
    ensures forall k | 0 <= k < |bufs.z| ::
              Ciphered(bufs.z[k], old(bufs.input[k][..]), old(bufs.output[k][..]), bufs.length[k], bufs.output[k][..])
  {
    hide Ciphered, Reached;
    ghost var input0, output0 := Contents(bufs.input), Contents(bufs.output);
    NothingDone(bufs);
    match arch {
      case Avx => Eea3NBuffersAvx(bufs, input0, output0);
      case Avx2 => Eea3NBuffersAvx2(bufs, input0, output0);
      case Avx512 => Eea3NBuffersAvx512(bufs, input0, output0);
    }
    CompleteMeansCiphered(bufs, input0, output0);
  }

  // ---- 128-EIA3 ----

  /** The buffers of one call: each of them live. */
  ghost predicate Jobs(lanes: Lanes) {
    && Callable(lanes, |lanes.z|) && (forall i | 0 <= i < |lanes.z| :: lanes.live[i])
    && forall i | 0 <= i < |lanes.z| :: lanes.bits[i] < 0x1_0000
  }

  function SpecMac(lanes: Lanes, k: nat): bv32
    requires Jobs(lanes) && k < |lanes.z|
  {
    Bswap4(Eia3Mac(lanes.z[k], lanes.msg[k], lanes.bits[k]))
  }

  function Slice(lanes: Lanes, from: nat, to: nat): (r: Lanes)
    requires Jobs(lanes) && from <= to <= |lanes.z|
    ensures Jobs(r) && |r.z| == to - from && r.bits == lanes.bits[from..to]
    ensures r.z == lanes.z[from..to] && r.msg == lanes.msg[from..to]
    ensures forall x | x in r.bits :: x < 0x1_0000
    ensures forall j | 0 <= j < to - from :: r.live[j] && SpecMac(r, j) == SpecMac(lanes, from + j)
  {
    Lanes(lanes.z[from..to], lanes.msg[from..to], lanes.bits[from..to], lanes.live[from..to])
  }

  /** Buffer k is in no batch of 16, or its lane is complete in its batch: the smallest length there is no
      positive multiple of 512 bits, or it is the buffer's own. */
  ghost predicate Exact(lanes: Lanes, k: nat)
    requires Jobs(lanes) && k < |lanes.z|
  {
    var first := k / 16 * 16;
    first + 16 <= |lanes.z| ==>
      forall m | IsMin(lanes.bits[first..first + 16], m) :: LaneComplete(16, m, true, lanes.bits[k])
  }

  /** The condition in terms of lengths: in a batch of 16 with smallest length m. */
  lemma ExactIff(lanes: Lanes, k: nat, m: nat)
    requires Jobs(lanes) && k < |lanes.z|
    ensures var first := k / 16 * 16;
            && (first + 16 > |lanes.z| ==> Exact(lanes, k))
            && (first + 16 <= |lanes.z| && IsMin(lanes.bits[first..first + 16], m) ==>
                  (Exact(lanes, k) <==> m == 0 || m % 512 != 0 || lanes.bits[k] == m))
  {
    var first := k / 16 * 16;
    if first + 16 <= |lanes.z| && IsMin(lanes.bits[first..first + 16], m) {
      var batch := lanes.bits[first..first + 16];
      assert forall n | IsMin(batch, n) :: n == m;
      assert Exact(lanes, k) <==> LaneComplete(16, m, true, lanes.bits[k]);
    }
  }

  /** The value is the MAC over the keystream that lane k's windows show when its batch has smallest length m and
      the second half of its window held `junk`. */
  ghost predicate SeenWith(lanes: Lanes, k: nat, m: nat, junk: seq<bv32>, value: bv32)
    requires Jobs(lanes) && k < |lanes.z|
  {
    && |junk| == 32
    && value == Bswap4(Eia3Mac(LaneStream(lanes.z[k], junk, 16, m, true), lanes.msg[k], lanes.bits[k]))
  }

  /** Buffer k has the MAC of the specification, or in a batch of 16 the MAC over the keystream its lane saw. */
  ghost predicate Seen(lanes: Lanes, k: nat, value: bv32)
    requires Jobs(lanes) && k < |lanes.z|
  {
    var first := k / 16 * 16;
    if first + 16 <= |lanes.z| then
      exists m, junk | IsMin(lanes.bits[first..first + 16], m) :: SeenWith(lanes, k, m, junk, value)
    else
      value == SpecMac(lanes, k)
  }

  /** What the outputs before i are, with batches of 16 and without; the outputs from i on are as they were. */
  ghost predicate MacsBefore(lanes: Lanes, i: nat, mac: seq<bv32>, mac0: seq<bv32>, sixteens: bool)
    requires Jobs(lanes)
  {
    && i <= |lanes.z| <= |mac| == |mac0|
    && (forall k | 0 <= k < i :: if sixteens then Seen(lanes, k, mac[k]) else mac[k] == SpecMac(lanes, k))
    && (forall k | i <= k < |mac| :: mac[k] == mac0[k])
  }

  /** An exact buffer has the MAC of the specification. */
  lemma ExactIsRight(lanes: Lanes, k: nat, value: bv32)
    requires Jobs(lanes) && k < |lanes.z| && Exact(lanes, k) && Seen(lanes, k, value)
    ensures value == SpecMac(lanes, k)
  {
    hide Eia3Mac, LaneStream, LaneComplete, Bswap4, IsMin;
    var first := k / 16 * 16;
    if first + 16 <= |lanes.z| {
      var m, junk :| IsMin(lanes.bits[first..first + 16], m) && SeenWith(lanes, k, m, junk, value);
      CompleteLaneIsExact(lanes.z[k], junk, 16, m, true, lanes.msg[k], lanes.bits[k]);
    }
  }

  method Eia3Sixteen(lanes: Lanes, mac: array<bv32>, i: nat, ghost mac0: seq<bv32>)
    requires Jobs(lanes) && i + 16 <= |lanes.z| && i % 16 == 0
    requires MacsBefore(lanes, i, mac[..], mac0, true)
    modifies mac
    ensures MacsBefore(lanes, i + 16, mac[..], mac0, true)
  {
    hide Eia3Mac, LaneStream, LaneComplete, Bswap4, Seen, IsMin, SpecMac;
    var batch := Slice(lanes, i, i + 16);
    var common, junk := Eia3SixteenBuffers(batch, mac, i);
    forall k | i <= k < i + 16
      ensures Seen(lanes, k, mac[k])
    {
      var j := k - i;
      assert mac[k] == mac[i + j];
      assert batch.z[j] == lanes.z[k] && batch.msg[j] == lanes.msg[k] && batch.bits[j] == lanes.bits[k];
      SeenInBatch(lanes, k, i, common, junk[j], mac[k]);
    }
  }

  lemma SeenInBatch(lanes: Lanes, k: nat, first: nat, m: nat, junk: seq<bv32>, value: bv32)
    requires Jobs(lanes) && first % 16 == 0 && first <= k < first + 16 <= |lanes.z|
    requires IsMin(lanes.bits[first..first + 16], m) && SeenWith(lanes, k, m, junk, value)
    ensures Seen(lanes, k, value)
  {
    hide IsMin, SeenWith;
    assert k / 16 * 16 == first;
  }

  lemma SeenAlone(lanes: Lanes, k: nat)
    requires Jobs(lanes) && k < |lanes.z| && k / 16 * 16 + 16 > |lanes.z|
    ensures Seen(lanes, k, SpecMac(lanes, k))
  {
    hide SpecMac;
  }

  method Eia3Small(lanes: Lanes, mac: array<bv32>, i: nat, size: nat, ghost mac0: seq<bv32>, ghost sixteens: bool)
    requires Jobs(lanes) && i + size <= |lanes.z| && (size == 4 || size == 8)
    requires MacsBefore(lanes, i, mac[..], mac0, sixteens) && (sixteens ==> Tail(|lanes.z|, i))
    modifies mac
    ensures MacsBefore(lanes, i + size, mac[..], mac0, sixteens)
  {
    hide Eia3Mac, Bswap4, Seen, SpecMac, Tail;
    var batch := Slice(lanes, i, i + size);
    if size == 4 {
      Eia3FourBuffers(batch, mac, i);
    } else {
      Eia3EightBuffers(batch, mac, i);
    }
    forall k | i <= k < i + size
      ensures mac[k] == SpecMac(lanes, k) && (sixteens ==> Seen(lanes, k, mac[k]))
    {
      var j := k - i;
      assert SpecMac(batch, j) == SpecMac(lanes, i + j);
      BatchMac(batch, j);
      assert mac[i + j] == SpecMac(batch, j);
      if sixteens {
        AfterBatches(|lanes.z|, i, k);
        SeenAlone(lanes, k);
      }
    }
  }

  lemma BatchMac(lanes: Lanes, j: nat)
    requires Jobs(lanes) && j < |lanes.z|
    ensures lanes.live[j] && SpecMac(lanes, j) == Bswap4(Eia3Mac(lanes.z[j], lanes.msg[j], lanes.bits[j]))
  {
    hide Eia3Mac, Bswap4;
  }

  lemma AllMacs(lanes: Lanes, mac: seq<bv32>, mac0: seq<bv32>)
    requires Jobs(lanes) && MacsBefore(lanes, |lanes.z|, mac, mac0, false)
    ensures forall k | 0 <= k < |lanes.z| :: mac[k] == Bswap4(Eia3Mac(lanes.z[k], lanes.msg[k], lanes.bits[k]))
    ensures |mac| == |mac0| && forall k | |lanes.z| <= k < |mac| :: mac[k] == mac0[k]
  {
    hide Eia3Mac, Bswap4;
  }

  lemma AllSeen(lanes: Lanes, mac: seq<bv32>, mac0: seq<bv32>)
    requires Jobs(lanes) && MacsBefore(lanes, |lanes.z|, mac, mac0, true)
    ensures forall k | 0 <= k < |lanes.z| :: Seen(lanes, k, mac[k])
    ensures forall k | 0 <= k < |lanes.z| && Exact(lanes, k) ::
              mac[k] == Bswap4(Eia3Mac(lanes.z[k], lanes.msg[k], lanes.bits[k]))
    ensures |mac| == |mac0| && forall k | |lanes.z| <= k < |mac| :: mac[k] == mac0[k]
  {
    hide Eia3Mac, Bswap4, Seen, Exact;
    forall k | 0 <= k < |lanes.z| && Exact(lanes, k)
      ensures mac[k] == SpecMac(lanes, k)
    {
      ExactIsRight(lanes, k, mac[k]);
    }
  }

  /** Buffer i comes after the last whole batch of 16. */
  predicate Tail(count: nat, i: nat) {
    count / 16 * 16 <= i
  }

  lemma AfterBatches(count: nat, i: nat, k: nat)
    requires Tail(count, i) && i <= k < count
    ensures k / 16 * 16 + 16 > count
  {
    var q := count / 16;
    assert k / 16 >= q;
  }

  method Eia3Single(lanes: Lanes, R: nat, mac: array<bv32>, i: nat, ghost mac0: seq<bv32>, ghost sixteens: bool)
    requires IsRound(R) && Jobs(lanes) && i < |lanes.z| && MacsBefore(lanes, i, mac[..], mac0, sixteens)
    requires sixteens ==> Tail(|lanes.z|, i)
    modifies mac
    ensures MacsBefore(lanes, i + 1, mac[..], mac0, sixteens)
  {
    hide Eia3Mac, Bswap4, Seen, Tail;
    mac[i] := Eia3OneBuffer(R, lanes.z[i], lanes.msg[i], lanes.bits[i]);
    if sixteens {
      AfterBatches(|lanes.z|, i, i);
      SeenAlone(lanes, i);
    }
  }

  /** `_zuc_eia3_n_buffer` (AVX512): right for every buffer outside the batches of 16 and for the exact ones in them;
      the others get the MAC over the keystream their lanes saw. */
  method Eia3NBuffersAvx512(lanes: Lanes, mac: array<bv32>)
    requires Jobs(lanes) && |lanes.z| <= mac.Length
    modifies mac
    ensures forall k | 0 <= k < |lanes.z| :: Seen(lanes, k, mac[k])
    ensures forall k | 0 <= k < |lanes.z| && Exact(lanes, k) ::
              mac[k] == Bswap4(Eia3Mac(lanes.z[k], lanes.msg[k], lanes.bits[k]))
    ensures forall k | |lanes.z| <= k < mac.Length :: mac[k] == old(mac[k])
  {
    hide Jobs, SpecMac, Exact, Seen;
    var i, packetCount := 0, |lanes.z|;
    while packetCount >= 16
      invariant 0 <= packetCount && i + packetCount == |lanes.z| && i % 16 == 0
      invariant MacsBefore(lanes, i, mac[..], old(mac[..]), true)
    {
      packetCount := packetCount - 16;
      Eia3Sixteen(lanes, mac, i, old(mac[..]));
      i := i + 16;
    }
    assert Tail(|lanes.z|, i);
    if packetCount >= 8 {
      packetCount := packetCount - 8;
      Eia3Small(lanes, mac, i, 8, old(mac[..]), true);
      i := i + 8;
    }
    if packetCount >= 4 {
      packetCount := packetCount - 4;
      Eia3Small(lanes, mac, i, 4, old(mac[..]), true);
      i := i + 4;
    }
    while packetCount > 0
      invariant 0 <= packetCount && i + packetCount == |lanes.z| && Tail(|lanes.z|, i)
      invariant MacsBefore(lanes, i, mac[..], old(mac[..]), true)
    {
      packetCount := packetCount - 1;
      Eia3Single(lanes, 16, mac, i, old(mac[..]), true);
      i := i + 1;
    }
    AllSeen(lanes, mac[..], old(mac[..]));
  }

  /** `zuc_eia3_n_buffer_avx2`: right for every buffer. */
  method Eia3NBuffersAvx2(lanes: Lanes, mac: array<bv32>)
    requires Jobs(lanes) && |lanes.z| <= mac.Length
    modifies mac
    ensures forall k | 0 <= k < |lanes.z| :: mac[k] == Bswap4(Eia3Mac(lanes.z[k], lanes.msg[k], lanes.bits[k]))
    ensures forall k | |lanes.z| <= k < mac.Length :: mac[k] == old(mac[k])
  {
    hide Jobs, SpecMac, Exact;
    var i, packetCount := 0, |lanes.z|;
    while packetCount >= 8
      invariant 0 <= packetCount && i + packetCount == |lanes.z|
      invariant MacsBefore(lanes, i, mac[..], old(mac[..]), false)
    {
      packetCount := packetCount - 8;
      Eia3Small(lanes, mac, i, 8, old(mac[..]), false);
      i := i + 8;
    }
    if packetCount >= 4 {
      packetCount := packetCount - 4;
      Eia3Small(lanes, mac, i, 4, old(mac[..]), false);
      i := i + 4;
    }
    while packetCount > 0
      invariant 0 <= packetCount && i + packetCount == |lanes.z|
      invariant MacsBefore(lanes, i, mac[..], old(mac[..]), false)
    {
      packetCount := packetCount - 1;
      Eia3Single(lanes, 8, mac, i, old(mac[..]), false);
      i := i + 1;
    }
    AllMacs(lanes, mac[..], old(mac[..]));
  }

  /** `zuc_eia3_n_buffer_avx`: right for every buffer. */
  method Eia3NBuffersAvx(lanes: Lanes, mac: array<bv32>)
    requires Jobs(lanes) && |lanes.z| <= mac.Length
    modifies mac
    ensures forall k | 0 <= k < |lanes.z| :: mac[k] == Bswap4(Eia3Mac(lanes.z[k], lanes.msg[k], lanes.bits[k]))
    ensures forall k | |lanes.z| <= k < mac.Length :: mac[k] == old(mac[k])
  {
    hide Jobs, SpecMac, Exact;
    var i, packetCount := 0, |lanes.z|;
    while packetCount >= 4
      invariant 0 <= packetCount && i + packetCount == |lanes.z|
      invariant MacsBefore(lanes, i, mac[..], old(mac[..]), false)
    {
      packetCount := packetCount - 4;
      Eia3Small(lanes, mac, i, 4, old(mac[..]), false);
      i := i + 4;
    }
    while packetCount > 0
      invariant 0 <= packetCount && i + packetCount == |lanes.z|
      invariant MacsBefore(lanes, i, mac[..], old(mac[..]), false)
    {
      packetCount := packetCount - 1;
      Eia3Single(lanes, 4, mac, i, old(mac[..]), false);
      i := i + 1;
    }
    AllMacs(lanes, mac[..], old(mac[..]));
  }
}
