/** The EIA3 entry points over the lock-step driver: how each computes its common length and its
    8-byte shortcut, and what that does to the result. */
module ZucMac {
  import opened Words
  import opened ZucSpec
  import opened ZucKernels
  import opened ZucEia3
  import opened ZucLockStep

  // ---- Common lengths ----

  ghost predicate IsMin(lengths: seq<nat>, m: nat) {
    m in lengths && forall x | x in lengths :: m <= x
  }

  ghost predicate AllEqual(lengths: seq<nat>) {
    forall x, y | x in lengths && y in lengths :: x == y
  }

  lemma MinBounds(lengths: seq<nat>, m: nat)
    requires IsMin(lengths, m)
    ensures forall i | 0 <= i < |lengths| :: m <= lengths[i]
    ensures AllEqual(lengths) ==> forall i | 0 <= i < |lengths| :: m == lengths[i]
  {
    assert forall i | 0 <= i < |lengths| :: lengths[i] in lengths;
  }

  /** The 4-lane drivers: a plain comparison of the lengths. */
  method CommonOfFour(lengths: seq<nat>) returns (common: nat, allCommonBits: bool)
    requires |lengths| == 4
    ensures IsMin(lengths, common)
    ensures allCommonBits <==> AllEqual(lengths)
  {
    assert forall k | 0 <= k < 4 :: lengths[k] in lengths;
    if lengths[0] == lengths[1] && lengths[0] == lengths[2] && lengths[0] == lengths[3] {
      common, allCommonBits := lengths[0], true;
    } else {
      var bits1 := if lengths[0] < lengths[1] then lengths[0] else lengths[1];
      var bits2 := if lengths[2] < lengths[3] then lengths[2] else lengths[3];
      common, allCommonBits := if bits1 < bits2 then bits1 else bits2, false;
    }
  }

  /** `_mm_minpos_epu16`: the smallest of eight 16-bit words. */
  method MinPos(v: seq<nat>) returns (m: nat)
    requires |v| == 8
    ensures IsMin(v, m)
  {
    m := v[0];
    for k := 1 to 8
      invariant m in v[..k] && forall x | x in v[..k] :: m <= x
    {
      assert v[..k + 1] == v[..k] + [v[k]];
      if v[k] < m { m := v[k]; }
    }
    assert v[..8] == v;
  }

  /** The two bytes of a 16-bit word exchanged. */
  function Swap16(x: nat): nat {
    x % 256 * 256 + x / 256
  }

  /** The AVX2 comparison of eight 16-bit words: `bcast_mask` picks bytes 1 and 0 of the first one, so
      each word is compared with the first word byte-swapped. */
  method CompareWithFirst(v: seq<nat>) returns (equal: bool)
    requires |v| == 8
    ensures equal <==> forall x | x in v :: x == Swap16(v[0])
  {
    equal := true;
    for k := 0 to 8
      invariant equal <==> forall i | 0 <= i < k :: v[i] == Swap16(v[0])
    {
      equal := equal && v[k] == Swap16(v[0]);
    }
    assert forall i | 0 <= i < 8 :: v[i] in v;
  }

  /** The word with bytes `high` and `low` becomes the one with bytes `low` and `high`. */
  lemma SwapBytes(high: nat, low: nat)
    requires high < 256 && low < 256
    ensures Swap16(256 * high + low) == 256 * low + high
  {
    assert (256 * high + low) / 256 == high;
  }

  /** The flag is sound, but not complete: equal lengths raise it only if their two bytes are equal. */
  lemma CompareIsSound(v: seq<nat>)
    requires |v| == 8 && forall x | x in v :: x < 0x1_0000
    ensures (forall x | x in v :: x == Swap16(v[0])) <==> AllEqual(v) && v[0] % 256 == v[0] / 256
  {
    assert v[0] in v;
  }

  /** `find_min_length16` (AVX2) */
  method FindMinLength16(lengths: seq<nat>) returns (common: nat, allCommonBits: bool)
    requires |lengths| == 8 && forall x | x in lengths :: x < 0x1_0000
    ensures IsMin(lengths, common)
    ensures allCommonBits <==> AllEqual(lengths) && lengths[0] % 256 == lengths[0] / 256
  {
    CompareIsSound(lengths);
    allCommonBits := CompareWithFirst(lengths);
    common := MinPos(lengths);
  }

  /** Eight 32-bit lengths as eight 16-bit words: the first four shifted left by 16 bits and combined
      with the last four. */
  function Pack(lengths: seq<nat>): (v: seq<nat>)
    requires |lengths| == 8
    ensures forall x :: x in v <==> x in lengths
  {
    [lengths[4], lengths[0], lengths[5], lengths[1], lengths[6], lengths[2], lengths[7], lengths[3]]
  }

  /** `find_min_length32` (AVX2), for lengths that fit 16 bits */
  method FindMinLength32(lengths: seq<nat>) returns (common: nat, allCommonBits: bool)
    requires |lengths| == 8 && forall x | x in lengths :: x < 0x1_0000
    ensures IsMin(lengths, common)
    ensures allCommonBits <==> AllEqual(lengths) && lengths[0] % 256 == lengths[0] / 256
  {
    assert lengths[0] in lengths && lengths[4] in lengths;
    common, allCommonBits := FindMinLength16(Pack(lengths));
  }

  /** `find_min_length32` (AVX512): eight lengths at a time, then the smaller of the two minima */
  method FindMinOfSixteen(lengths: seq<nat>) returns (common: nat)
    requires |lengths| == 16 && forall x | x in lengths :: x < 0x1_0000
    ensures IsMin(lengths, common)
  {
    var min1 := MinPos(lengths[..8]);
    var min2 := MinPos(lengths[8..]);
    assert lengths == lengths[..8] + lengths[8..];
    common := if min1 < min2 then min1 else min2;
  }

  // ---- When a lane sees its own keystream ----

  /** All the words lane i needs were made in the shared rounds or are made after them. */
  predicate LaneComplete(R: nat, common: nat, shortcut: bool, bits: nat)
    requires IsRound(R)
  {
    StopsShort(R, common, shortcut) ==> bits == common
  }

  lemma CompleteLaneIsExact(z: Keystream, junk: seq<bv32>, R: nat, common: nat, shortcut: bool, msg: seq<bv8>,
                            bits: nat)
    requires IsRound(R) && |junk| == 2 * R && bits <= 8 * |msg|
    requires LaneComplete(R, common, shortcut, bits)
    ensures Eia3Mac(LaneStream(z, junk, R, common, shortcut), msg, bits) == Eia3Mac(z, msg, bits)
  {
    hide Eia3Mac;
    if StopsShort(R, common, shortcut) {
      assert KeystreamWords(bits) == common / 32 + 2 by {
        WholeWordsIn(R, common);
      }
      Eia3MacLocal(LaneStream(z, junk, R, common, shortcut), z, msg, bits);
    }
  }

  /** A keystream with one word replaced. */
  function WithWord(z: Keystream, g: nat, w: bv32): Keystream {
    (k: nat) => if k == g then w else z(k)
  }

  /** The specification's MAC depends on the last keystream word it asks for. */
  lemma MacNeedsKeyBlock(z: Keystream, msg: seq<bv8>, n: nat, v: bv32, w: bv32)
    requires n <= 8 * |msg| && v != w
    ensures var last := KeystreamWords(n) - 1;
            Eia3Mac(WithWord(z, last, v), msg, n) != Eia3Mac(WithWord(z, last, w), msg, n)
  {
    hide MacBits, GetWord, Xor;
    var last := KeystreamWords(n) - 1;
    var zv, zw := WithWord(z, last, v), WithWord(z, last, w);
    MacBitsLocal(zv, zw, msg, n);
    GetWordLocal(zv, zw, n);
    XorCancels(Xor(MacBits(zv, msg, n), GetWord(zv, n)), v, w);
  }

  /** A lane that is longer than rounds which stop short never sees that word. */
  lemma ShortLaneMissesKeyBlock(z: Keystream, junk: seq<bv32>, R: nat, common: nat, msg: seq<bv8>, n: nat, v: bv32)
    requires IsRound(R) && |junk| == 2 * R && common < n <= 8 * |msg|
    requires StopsShort(R, common, true)
    ensures var last := KeystreamWords(n) - 1;
            Eia3Mac(LaneStream(WithWord(z, last, v), junk, R, common, true), msg, n)
            == Eia3Mac(LaneStream(z, junk, R, common, true), msg, n)
  {
    hide Eia3Mac, LaneStream, StopsShort;
    var last := KeystreamWords(n) - 1;
    forall g: nat | g < KeystreamWords(n)
      ensures LaneStream(WithWord(z, last, v), junk, R, common, true)(g) == LaneStream(z, junk, R, common, true)(g)
    {
      ShortLaneWord(z, junk, R, common, n, v, g);
    }
    Eia3MacLocal(LaneStream(WithWord(z, last, v), junk, R, common, true), LaneStream(z, junk, R, common, true), msg, n);
  }

  lemma ShortLaneWord(z: Keystream, junk: seq<bv32>, R: nat, common: nat, n: nat, v: bv32, g: nat)
    requires IsRound(R) && |junk| == 2 * R && common < n && g < KeystreamWords(n)
    requires StopsShort(R, common, true)
    ensures LaneStream(WithWord(z, KeystreamWords(n) - 1, v), junk, R, common, true)(g)
         == LaneStream(z, junk, R, common, true)(g)
  {
    PastTheWords(R, common, n);
  }

  lemma PastTheWords(R: nat, common: nat, n: nat)
    requires IsRound(R) && common < n && StopsShort(R, common, true)
    ensures KeystreamWords(n) - 1 >= common / 32 + 2
  {
    WholeWordsIn(R, common);
    assert common == 32 * (common / 32);
    assert (n + 31) / 32 >= common / 32 + 1;
  }

  lemma WholeWordsIn(R: nat, common: nat)
    requires IsRound(R) && Rest(R, common) == 0
    ensures common % 32 == 0
  {
    if R == 4 {
      assert common == 128 * (common / 128);
      Multiple32(4 * (common / 128));
    } else if R == 8 {
      assert common == 256 * (common / 256);
      Multiple32(8 * (common / 256));
    } else {
      assert common == 512 * (common / 512);
      Multiple32(16 * (common / 512));
    }
  }

  lemma Multiple32(n: nat)
    ensures (32 * n) % 32 == 0
  {
  }

  /** Such a lane gets the right MAC for at most one value of the word, whatever the message and the
      rest of the keystream are. */
  lemma ShortLaneIsWrong(z: Keystream, junk: seq<bv32>, common: nat, msg: seq<bv8>, n: nat, v: bv32, w: bv32)
    requires |junk| == 32 && common < n <= 8 * |msg| && v != w
    requires StopsShort(16, common, true)
    ensures var last := KeystreamWords(n) - 1;
            exists x | x in {v, w} ::
              Eia3Mac(LaneStream(WithWord(z, last, x), junk, 16, common, true), msg, n)
              != Eia3Mac(WithWord(z, last, x), msg, n)
  {
    hide Eia3Mac, LaneStream, WithWord;
    MacNeedsKeyBlock(z, msg, n, v, w);
    ShortLaneMissesKeyBlock(z, junk, 16, common, msg, n, v);
    ShortLaneMissesKeyBlock(z, junk, 16, common, msg, n, w);
    assert v in {v, w} && w in {v, w};
  }

  /** The 16-lane driver gives a lane the right MAC for every keystream and message exactly if the
      shared rounds do not stop short or the lane is no longer than they are. */
  lemma SixteenLanesExactIff(common: nat, bits: nat)
    requires common <= bits
    ensures LaneComplete(16, common, true, bits)
       <==> forall z: Keystream, junk: seq<bv32>, msg: seq<bv8> | |junk| == 32 && bits <= 8 * |msg| ::
              Eia3Mac(LaneStream(z, junk, 16, common, true), msg, bits) == Eia3Mac(z, msg, bits)
  {
    hide Eia3Mac, LaneStream;
    if LaneComplete(16, common, true, bits) {
      forall z: Keystream, junk: seq<bv32>, msg: seq<bv8> | |junk| == 32 && bits <= 8 * |msg|
        ensures Eia3Mac(LaneStream(z, junk, 16, common, true), msg, bits) == Eia3Mac(z, msg, bits)
      {
        CompleteLaneIsExact(z, junk, 16, common, true, msg, bits);
      }
    } else {
      var z, junk, msg := (_: nat) => 0 as bv32, seq(32, _ => 0), seq(bits, _ => 0);
      ShortLaneIsWrong(z, junk, common, msg, bits, 0, 1);
    }
  }

  // ---- The entry points ----

  /** One keystream, message and length a lane, each message long enough. */
  ghost predicate Callable(lanes: Lanes, count: nat) {
    && |lanes.z| == |lanes.msg| == |lanes.bits| == |lanes.live| == count
    && forall i | 0 <= i < count && lanes.live[i] :: lanes.bits[i] <= 8 * |lanes.msg[i]| && FitsUint32(lanes.bits[i])
  }

  /** The bytes that hold the bits of a message are enough, for every length a job may have. */
  lemma EnoughBytes(lanes: Lanes)
    requires |lanes.z| == |lanes.msg| == |lanes.bits| == |lanes.live|
    requires forall i | 0 <= i < |lanes.z| && lanes.live[i] ::
               lanes.bits[i] <= 65504 && |lanes.msg[i]| == (lanes.bits[i] + 7) / 8
    ensures Callable(lanes, |lanes.z|)
  {
    forall i | 0 <= i < |lanes.z| && lanes.live[i]
      ensures lanes.bits[i] <= 8 * |lanes.msg[i]|
    {
      assert |lanes.msg[i]| == (lanes.bits[i] + 7) / 8;
    }
  }

  /** Each live lane has the MAC the single-buffer driver gives, and nothing else has changed. */
  twostate predicate SingleMacs(lanes: Lanes, mac: array<bv32>, first: nat)
    requires Callable(lanes, |lanes.z|) && first + |lanes.z| <= mac.Length
    reads mac
  {
    && (forall i | 0 <= i < |lanes.z| ::
          mac[first + i] == if lanes.live[i] then Bswap4(Eia3Mac(lanes.z[i], lanes.msg[i], lanes.bits[i]))
                            else old(mac[first + i]))
    && (forall k | 0 <= k < mac.Length && !(first <= k < first + |lanes.z|) :: mac[k] == old(mac[k]))
  }

  /** The lock-step driver when every live lane is complete. */
  method CompleteLanes(R: nat, lanes: Lanes, common: nat, shortcut: bool, mac: array<bv32>, first: nat)
    requires IsRound(R) && Callable(lanes, |lanes.z|) && first + |lanes.z| <= mac.Length
    requires forall i | 0 <= i < |lanes.z| && lanes.live[i] ::
               common <= lanes.bits[i] && LaneComplete(R, common, shortcut, lanes.bits[i])
    modifies mac
    ensures SingleMacs(lanes, mac, first)
  {
    hide Eia3Mac, LaneStream, LaneComplete;
    var junk := Eia3Lanes(R, lanes, common, shortcut, mac, first);
    forall i | 0 <= i < |lanes.z| && lanes.live[i]
      ensures Eia3Mac(LaneStream(lanes.z[i], junk[i], R, common, shortcut), lanes.msg[i], lanes.bits[i])
           == Eia3Mac(lanes.z[i], lanes.msg[i], lanes.bits[i])
    {
      CompleteLaneIsExact(lanes.z[i], junk[i], R, common, shortcut, lanes.msg[i], lanes.bits[i]);
    }
  }

  /** `_zuc_eia3_4_buffer_avx` and, with a mask, `zuc_eia3_4_buffer_job_avx` */
  method Eia3FourBuffers(lanes: Lanes, mac: array<bv32>, first: nat)
    requires Callable(lanes, 4) && first + 4 <= mac.Length
    modifies mac
    ensures SingleMacs(lanes, mac, first)
  {
    var common, allCommonBits := CommonOfFour(lanes.bits);
    MinBounds(lanes.bits, common);
    CompleteLanes(4, lanes, common, allCommonBits, mac, first);
  }

  /** `_zuc_eia3_8_buffer_avx2` */
  method Eia3EightBuffers(lanes: Lanes, mac: array<bv32>, first: nat)
    requires Callable(lanes, 8) && first + 8 <= mac.Length
    requires forall x | x in lanes.bits :: x < 0x1_0000
    modifies mac
    ensures SingleMacs(lanes, mac, first)
  {
    var common, allCommonBits := FindMinLength32(lanes.bits);
    MinBounds(lanes.bits, common);
    CompleteLanes(8, lanes, common, allCommonBits, mac, first);
  }

  /** `zuc_eia3_8_buffer_job_avx2` */
  method Eia3EightBufferJob(lanes: Lanes, mac: array<bv32>, first: nat)
    requires Callable(lanes, 8) && first + 8 <= mac.Length
    requires forall x | x in lanes.bits :: x < 0x1_0000
    modifies mac
    ensures SingleMacs(lanes, mac, first)
  {
    var common, allCommonBits := FindMinLength16(lanes.bits);
    MinBounds(lanes.bits, common);
    CompleteLanes(8, lanes, common, allCommonBits, mac, first);
  }

  /** `_zuc_eia3_16_buffer_avx512`, which takes the shortcut whenever the common bits run out. */
  method Eia3SixteenBuffers(lanes: Lanes, mac: array<bv32>, first: nat)
    returns (common: nat, ghost junk: seq<seq<bv32>>)
    requires Callable(lanes, 16) && first + 16 <= mac.Length
    requires forall x | x in lanes.bits :: x < 0x1_0000
    requires forall i | 0 <= i < 16 :: lanes.live[i]
    modifies mac
    ensures IsMin(lanes.bits, common) && |junk| == 16 && forall i | 0 <= i < 16 :: |junk[i]| == 32
    ensures forall i | 0 <= i < 16 ::
              mac[first + i] == Bswap4(Eia3Mac(LaneStream(lanes.z[i], junk[i], 16, common, true),
                                               lanes.msg[i], lanes.bits[i]))
    ensures forall i | 0 <= i < 16 && LaneComplete(16, common, true, lanes.bits[i]) ::
              mac[first + i] == Bswap4(Eia3Mac(lanes.z[i], lanes.msg[i], lanes.bits[i]))
    ensures forall k | 0 <= k < mac.Length && !(first <= k < first + 16) :: mac[k] == old(mac[k])
  {
    hide Eia3Mac, LaneStream, LaneComplete;
    common := FindMinOfSixteen(lanes.bits);
    MinBounds(lanes.bits, common);
    junk := Eia3Lanes(16, lanes, common, true, mac, first);
    forall i | 0 <= i < 16 && LaneComplete(16, common, true, lanes.bits[i])
      ensures Eia3Mac(LaneStream(lanes.z[i], junk[i], 16, common, true), lanes.msg[i], lanes.bits[i])
           == Eia3Mac(lanes.z[i], lanes.msg[i], lanes.bits[i])
    {
      CompleteLaneIsExact(lanes.z[i], junk[i], 16, common, true, lanes.msg[i], lanes.bits[i]);
    }
  }
}
