/** The resumable 16-lane EIA3 job: a call authenticates the length its lanes have in common, keeps
    the last two keystream words of each lane, and takes up the longer lanes in a later call,
    beside whatever jobs have joined since. */
module ZucJob {
  import opened Words
  import opened ZucSpec
  import opened ZucKernels
  import opened ZucMac
  import ZucEea3
  import ZucEia3

  const NO_JOB: nat := 0xFFFF
  const MAX_BITS: nat := 65504

  /** The limits: a free lane has the largest 16-bit length, a job at most the largest whole number of words below
      it, the same in bits and in bytes, and no 32-bit length arithmetic wraps for it. */
  lemma Limits(n: nat)
    ensures NO_JOB < 0x1_0000 && (n < 0x1_0000 ==> n <= NO_JOB)
    ensures MAX_BITS % 32 == 0 && MAX_BITS < NO_JOB && (n % 32 == 0 && n < NO_JOB ==> n <= MAX_BITS)
    ensures MAX_BITS == 8 * ZucEea3.MAX_BYTES && (n <= MAX_BITS ==> ZucEia3.FitsUint32(n))
  {
  }

  /** One lane of `MB_MGR_ZUC_OOO`: the job (`z`, `msg`, `total`), its generator (`pos`), and the lane's
      entries in `args.in`, `lens`, `args.prev_ks`, `init_not_done`, `job_in_lane` and `args.digest`. */
  datatype Lane = Lane(z: Keystream, msg: seq<bv8>, total: nat, pos: nat, at: nat, len: nat,
                       prev: (bv32, bv32), initNotDone: bool, inUse: bool, digest: bv32)

  function Up32(n: nat): nat {
    (n + 31) / 32 * 32
  }

  /** A job that has just been submitted. */
  ghost predicate Fresh(l: Lane) {
    l.initNotDone && l.pos == 0 && l.at == 0 && l.len == l.total && l.digest == 0
  }

  /** A job between two calls: the message up to byte `at` is in the digest, the next two keystream
      words are saved, and the generator stands behind them. */
  ghost predicate Suspended(l: Lane) {
    && !l.initNotDone && 0 < l.len && 8 * l.at + l.len == l.total <= 8 * |l.msg| && l.at % 4 == 0
    && l.pos == l.at / 4 + 2 && l.prev == (l.z(l.at / 4), l.z(l.at / 4 + 1))
    && l.digest == MacBits(l.z, l.msg, 8 * l.at)
  }

  /** A job that is complete. */
  ghost predicate Done(l: Lane) {
    !l.initNotDone && l.len == 0 && l.total <= 8 * |l.msg| && l.digest == Bswap4(Eia3Mac(l.z, l.msg, l.total))
  }

  ghost predicate LaneValid(l: Lane) {
    l.inUse ==> 0 < l.total <= MAX_BITS && l.total <= 8 * |l.msg| && (Fresh(l) || Suspended(l) || Done(l))
  }

  /** What one call with the given common length is to do to a lane that holds a job: its generator makes the
      words that the common length fills, and two more for a new job, and the last two are saved. */
  ghost predicate Step(l: Lane, common: nat, l': Lane) {
    && SameJob(l, l')
    && l'.pos == Begun(l).pos + (common + 31) / 32 && l'.pos >= 2
    && l'.prev == (l.z(l'.pos - 2), l.z(l'.pos - 1))
    && (if l.len <= Up32(common) then Done(l') else Suspended(l') && l'.len == l.len - Up32(common))
  }

  // ---- The primitives on one lane ----

  /** `asm_Eia3Round64B_16` on one lane: a whole round of its message. */
  function RoundLane(l: Lane, win: seq<bv32>): Lane
    requires |win| == 32 && 512 <= l.len && 8 * l.at + 512 <= 8 * |l.msg|
  {
    l.(digest := Xor(l.digest, WindowBits(win, l.msg, l.at, 512)), at := l.at + 64, len := l.len - 512)
  }

  /** 16-bit subtraction, read as a signed number. */
  function SignedDifference(x: int, y: int): int {
    (x - y + 0x8000) % 0x1_0000 - 0x8000
  }

  /** The bits that `asm_Eia3RemainderAVX512_16` leaves of a lane: it subtracts the rounded common length
      and takes a negative difference for a lane that ends. */
  function BitsLeft(len: nat, common: nat): (r: nat)
    requires len < 0x1_0000 && common < 512
    ensures r == if len <= Up32(common) || len >= Up32(common) + 0x8000 then 0 else len - Up32(common)
  {
    var d := SignedDifference(len, Up32(common));
    if d < 0 then 0 else d
  }

  predicate InRange(l: Lane, common: nat) {
    l.len < Up32(common) + 0x8000
  }

  /** `asm_Eia3RemainderAVX512_16` on one lane: the rest of the common length, rounded up to whole
      words where the lane goes on; the end of the MAC where it does not. Beyond 512 bits it runs past its
      window and leaves `junk` as the tag. */
  function RemainderLane(l: Lane, win: seq<bv32>, common: nat, junk: bv32): Lane
    requires |win| == 32 && common < 512 && 8 * l.at + l.len <= 8 * |l.msg| && l.len < 0x1_0000
  {
    var len' := BitsLeft(l.len, common);
    var bits := l.len - len';
    l.(len := len', at := l.at + bits / 8,
       digest := if bits > 512 then junk
                 else
                   var t := Xor(l.digest, WindowBits(win, l.msg, l.at, bits));
                   if len' == 0 then Finish(t, win, bits, KeystreamWords(bits)) else t)
  }

  /** A lane in the middle of a call: its window shows the next W words of its keystream, and its
      generator stands behind them. */
  ghost predicate Fed(l: Lane, win: seq<bv32>, W: nat) {
    && |win| == 32 && l.at % 4 == 0 && !l.initNotDone
    && 8 * l.at + l.len == l.total <= 8 * |l.msg|
    && Shows(win, l.z, l.at / 4, W) && l.pos == l.at / 4 + W
    && l.digest == MacBits(l.z, l.msg, 8 * l.at)
  }

  lemma RoundKeepsFed(l: Lane, mid: seq<bv32>, win': seq<bv32>, words: nat)
    requires 512 <= l.len && 2 <= words <= 16 && Fed(l, mid, 16 + words)
    requires |win'| == 32 && forall j | 0 <= j < 16 :: win'[j] == mid[16 + j]
    ensures Fed(RoundLane(l, mid), win', words)
  {
    hide WindowBits, MacBits, Xor;
    WindowBitsExtend(mid, l.z, l.at / 4, l.msg, 512);
    forall j | 0 <= j < words
      ensures win'[j] == l.z((l.at + 64) / 4 + j)
    {
      assert mid[16 + j] == l.z(l.at / 4 + (16 + j));
    }
  }

  /** With exactly the words the rest of the common length asks for, the remainder primitive brings
      the lane to the state the call promises. */
  lemma RemainderSteps(l: Lane, win: seq<bv32>, common: nat, junk: bv32, l': Lane)
    requires common < 512 && common <= l.len < 0x1_0000 && InRange(l, common)
    requires Fed(l, win, KeystreamWords(common))
    requires var n := KeystreamWords(common);
             l' == RemainderLane(l, win, common, junk).(prev := (win[n - 2], win[n - 1]))
    ensures if l.len <= Up32(common) then Done(l') else Suspended(l') && l'.len == l.len - Up32(common)
  {
    hide WindowBits, MacBits, Xor, Eia3Mac, Finish;
    var b := l.at / 4;
    var bits := if l.len <= Up32(common) then l.len else Up32(common);
    assert (bits + 31) / 32 == (common + 31) / 32;
    assert KeystreamWords(bits) == KeystreamWords(common);
    WindowBitsExtend(win, l.z, b, l.msg, bits);
    if l.len <= Up32(common) {
      FinishCompletes(MacBits(l.z, l.msg, 32 * b + bits), win, l.z, b, l.msg, bits);
    } else {
      assert l'.at == l.at + 4 * ((common + 31) / 32);
    }
  }

  /** `MB_MGR_ZUC_OOO`, as an array of lanes. */
  class ZucOoo {
    const lanes: array<Lane>

    ghost predicate Valid()
      reads lanes
    {
      lanes.Length == 16 && forall i | 0 <= i < 16 :: LaneValid(lanes[i])
    }

    constructor (empty: Lane)
      requires !empty.inUse
      ensures Valid() && fresh(lanes) && forall i | 0 <= i < 16 :: !lanes[i].inUse
    {
      lanes := new Lane[16](_ => empty);
    }

    /** A new job in a free lane. */
    method Submit(i: nat, z: Keystream, msg: seq<bv8>, total: nat)
      requires Valid() && i < 16 && !lanes[i].inUse
      requires 0 < total <= MAX_BITS && total <= 8 * |msg|
      modifies lanes
      ensures Valid() && Fresh(lanes[i]) && lanes[i].inUse
      ensures lanes[i].z == z && lanes[i].msg == msg && lanes[i].total == total
      ensures forall k | 0 <= k < 16 && k != i :: lanes[k] == old(lanes[k])
    {
      lanes[i] := Lane(z, msg, total, 0, 0, total, lanes[i].prev, true, true, 0);
    }

    /** A completed job taken out of its lane, which keeps its length of 0 until it is needed or marked. */
    method Complete(i: nat) returns (tag: bv32)
      requires Valid() && i < 16 && lanes[i].inUse && lanes[i].len == 0
      modifies lanes
      ensures Valid() && lanes[i] == old(lanes[i]).(inUse := false)
      ensures tag == Bswap4(Eia3Mac(old(lanes[i]).z, old(lanes[i]).msg, old(lanes[i]).total))
      ensures forall k | 0 <= k < 16 && k != i :: lanes[k] == old(lanes[k])
    {
      tag := lanes[i].digest;
      lanes[i] := lanes[i].(inUse := false);
    }

    /** Free lanes have the length that no job has. */
    ghost predicate Marked()
      requires lanes.Length == 16
      reads lanes
    {
      forall i | 0 <= i < 16 && !lanes[i].inUse :: lanes[i].len == NO_JOB
    }

    /** What a flush does first: the lengths of the free lanes set so that they are never the smallest. */
    method MarkFreeLanes()
      requires Valid()
      modifies lanes
      ensures Valid() && Marked()
      ensures forall i | 0 <= i < 16 ::
                lanes[i] == if old(lanes[i]).inUse then old(lanes[i]) else old(lanes[i]).(len := NO_JOB)
    {
      hide LaneValid;
      for n := 0 to 16
        invariant forall i | 0 <= i < 16 ::
                    lanes[i] == if i >= n || old(lanes[i]).inUse then old(lanes[i]) else old(lanes[i]).(len := NO_JOB)
      {
        if !lanes[n].inUse {
          lanes[n] := lanes[n].(len := NO_JOB);
        }
      }
      forall i | 0 <= i < 16
        ensures LaneValid(lanes[i])
      {
        assert LaneValid(old(lanes[i]));
        if !lanes[i].inUse { FreeIsValid(lanes[i]); }
      }
    }

    /** `keystr_8B_gen_16`, `keystr_64B_gen_16` and `keystr_var_gen_16`: between 1 and 16 words for every lane
        in the mask. */
    method GenKeystream(ks: array2<bv32>, at: nat, words: nat, mask: seq<bool>)
      requires lanes.Length == ks.Length0 == |mask| == 16 && at + words <= ks.Length1 && 0 < words <= 16
      modifies lanes, ks
      ensures forall i | 0 <= i < 16 ::
                lanes[i] == if mask[i] then old(lanes[i]).(pos := old(lanes[i]).pos + words) else old(lanes[i])
      ensures forall i, j | 0 <= i < 16 && 0 <= j < ks.Length1 ::
                ks[i, j] == if mask[i] && at <= j < at + words then old(lanes[i]).z(old(lanes[i]).pos + (j - at))
                            else old(ks[i, j])
    {
      for n := 0 to 16
        invariant forall i | 0 <= i < 16 ::
                    lanes[i] == if i < n && mask[i] then old(lanes[i]).(pos := old(lanes[i]).pos + words)
                                else old(lanes[i])
        invariant forall i, j | 0 <= i < 16 && 0 <= j < ks.Length1 ::
                    ks[i, j] == if i < n && mask[i] && at <= j < at + words
                                then old(lanes[i]).z(old(lanes[i]).pos + (j - at)) else old(ks[i, j])
      {
        if mask[n] {
          var lane := new ZucState(lanes[n].z);
          lane.pos := lanes[n].pos;
          lane.GenKeystream(ks, n, at, words);
          lanes[n] := lanes[n].(pos := lane.pos);
        }
      }
    }

    /** The first two words of every window: new ones for a new job, the saved ones for a resumed one. */
    method FirstWords(ks: array2<bv32>)
      requires lanes.Length == ks.Length0 == 16 && ks.Length1 == 32
      modifies lanes, ks
      ensures forall i | 0 <= i < 16 :: lanes[i] == Begun(old(lanes[i]))
      ensures forall i | 0 <= i < 16 :: (ks[i, 0], ks[i, 1]) == FirstPair(old(lanes[i]))
    {
      GenKeystream(ks, 0, 2, seq(16, i requires 0 <= i < 16 reads lanes => lanes[i].initNotDone));
      for n := 0 to 16
        invariant forall i | 0 <= i < 16 && old(lanes[i]).initNotDone ::
                    lanes[i] == old(lanes[i]).(pos := old(lanes[i]).pos + 2, initNotDone := i >= n)
        invariant forall i | 0 <= i < 16 && !old(lanes[i]).initNotDone :: lanes[i] == old(lanes[i])
        invariant forall i | 0 <= i < 16 && (old(lanes[i]).initNotDone || i < n) ::
                    (ks[i, 0], ks[i, 1]) == FirstPair(old(lanes[i]))
      {
        if !lanes[n].initNotDone {
          ks[n, 0], ks[n, 1] := lanes[n].prev.0, lanes[n].prev.1;
        } else {
          lanes[n] := lanes[n].(initNotDone := false);
        }
      }
    }

    /** `round64B_16`: a whole round of every lane that holds a job, and the slide of every window. The primitive
        moves the data pointers of free lanes too, and leaves some value, `junk`, as their digests. */
    method Round(ks: array2<bv32>, junk: seq<bv32>)
      requires lanes.Length == ks.Length0 == |junk| == 16 && ks.Length1 == 32
      requires forall i | 0 <= i < 16 && lanes[i].inUse ::
                 512 <= lanes[i].len && 8 * lanes[i].at + 512 <= 8 * |lanes[i].msg|
      modifies lanes, ks
      ensures forall i | 0 <= i < 16 ::
                lanes[i] == var l := old(lanes[i]);
                            if l.inUse then RoundLane(l, old(Row(ks, i))) else l.(at := l.at + 64, digest := junk[i])
      ensures forall i, j | 0 <= i < 16 && 0 <= j < 16 :: ks[i, j] == old(ks[i, 16 + j])
    {
      hide RoundLane;
      for n := 0 to 16
        invariant forall i | n <= i < 16 :: lanes[i] == old(lanes[i])
        invariant forall i | 0 <= i < n ::
                    lanes[i] == var l := old(lanes[i]);
                                if l.inUse then RoundLane(l, old(Row(ks, i)))
                                else l.(at := l.at + 64, digest := junk[i])
        invariant forall i, j | 0 <= i < 16 && 0 <= j < 32 ::
                    ks[i, j] == if i < n && j < 16 then old(ks[i, 16 + j]) else old(ks[i, j])
      {
        if lanes[n].inUse {
          assert Row(ks, n) == old(Row(ks, n));
          lanes[n] := RoundLane(lanes[n], Row(ks, n));
        } else {
          lanes[n] := lanes[n].(at := lanes[n].at + 64, digest := junk[n]);
        }
        SlideWindow(ks, n, 16);
      }
    }

    /** `asm_Eia3RemainderAVX512_16` for every lane that holds a job; it counts no bits for the others. Then the
        last two keystream words of every lane, kept for the next call. */
    method Remainder(ks: array2<bv32>, common: nat, junk: seq<bv32>)
      requires lanes.Length == ks.Length0 == |junk| == 16 && ks.Length1 == 32 && common < 512
      requires forall i | 0 <= i < 16 && lanes[i].inUse ::
                 8 * lanes[i].at + lanes[i].len <= 8 * |lanes[i].msg| && lanes[i].len < 0x1_0000
      modifies lanes
      ensures forall i | 0 <= i < 16 ::
                lanes[i] == var l := old(lanes[i]); var n := KeystreamWords(common);
                            var l' := if l.inUse then RemainderLane(l, Row(ks, i), common, junk[i]) else l;
                            l'.(prev := (ks[i, n - 2], ks[i, n - 1]))
    {
      hide RemainderLane;
      for n := 0 to 16
        invariant forall i | 0 <= i < 16 ::
                    lanes[i] == if i < n && old(lanes[i]).inUse
                                then RemainderLane(old(lanes[i]), Row(ks, i), common, junk[i])
                                else old(lanes[i])
      {
        if lanes[n].inUse {
          lanes[n] := RemainderLane(lanes[n], Row(ks, n), common, junk[n]);
        }
      }
      label done:
      var remainL := (common + 31) / 32 + 2;
      for n := 0 to 16
        invariant forall i | 0 <= i < 16 ::
                    lanes[i] == if i < n then old@done(lanes[i]).(prev := (ks[i, remainL - 2], ks[i, remainL - 1]))
                                else old@done(lanes[i])
      {
        lanes[n] := lanes[n].(prev := (ks[n, remainL - 2], ks[n, remainL - 1]));
      }
    }

    /** More words for every lane, behind the W its window shows. */
    method Feed(ks: array2<bv32>, W: nat, words: nat, ghost l0: seq<Lane>, ghost remain: nat, ghost common: nat)
      requires lanes.Length == ks.Length0 == |l0| == 16 && ks.Length1 == 32 && W + words <= 32 && 0 < words <= 16
      requires AllRunning(l0, ks, W, remain, common)
      modifies lanes, ks
      ensures AllRunning(l0, ks, W + words, remain, common)
    {
      hide Fed;
      GenKeystream(ks, W, words, seq(16, _ => true));
      forall i | 0 <= i < 16 && l0[i].inUse
        ensures Running(l0[i], lanes[i], Row(ks, i), W + words, remain, common)
      {
        FedMore(old(lanes[i]), old(Row(ks, i)), W, Row(ks, i), words);
      }
    }

    /** Every job of `l0` is on its way through a call, and every other lane is still free. */
    ghost predicate AllRunning(l0: seq<Lane>, ks: array2<bv32>, W: nat, remain: nat, common: nat)
      requires lanes.Length == ks.Length0 == |l0| == 16
      reads lanes, ks
    {
      forall i | 0 <= i < 16 ::
        if l0[i].inUse then Running(l0[i], lanes[i], Row(ks, i), W, remain, common)
        else !lanes[i].inUse && lanes[i].len == NO_JOB
    }

    /** A shared round on windows that hold `words` words beyond their first half. */
    method RoundAll(ks: array2<bv32>, junk: seq<bv32>, ghost words: nat, ghost l0: seq<Lane>, ghost remain: nat,
                    ghost common: nat)
      requires lanes.Length == ks.Length0 == |l0| == |junk| == 16 && ks.Length1 == 32
      requires 2 <= words <= 16 && 512 <= remain
      requires AllRunning(l0, ks, 16 + words, remain, common)
      modifies lanes, ks
      ensures AllRunning(l0, ks, words, remain - 512, common)
    {
      hide RoundLane;
      Round(ks, junk);
      forall i | 0 <= i < 16 && l0[i].inUse
        ensures Running(l0[i], lanes[i], Row(ks, i), words, remain - 512, common)
      {
        RoundKeepsFed(old(lanes[i]), old(Row(ks, i)), Row(ks, i), words);
        RoundFields(old(lanes[i]), old(Row(ks, i)));
      }
    }

    /** The end of a call. */
    method RemainderAll(ks: array2<bv32>, remain: nat, junk: seq<bv32>, ghost l0: seq<Lane>, ghost common: nat)
      requires lanes.Length == ks.Length0 == |l0| == |junk| == 16 && ks.Length1 == 32 && remain < 512
      requires AllRunning(l0, ks, KeystreamWords(remain), remain, common)
      requires remain <= common && (common - remain) % 512 == 0
      modifies lanes
      ensures forall i | 0 <= i < 16 :: if l0[i].inUse then Ends(l0[i], common, lanes[i])
                                        else !lanes[i].inUse && lanes[i].len == NO_JOB
    {
      hide RemainderLane, Ends;
      Remainder(ks, remain, junk);
      forall i | 0 <= i < 16 && l0[i].inUse
        ensures Ends(l0[i], common, lanes[i])
      {
        RunningEnds(l0[i], old(lanes[i]), old(Row(ks, i)), remain, common, junk[i], lanes[i]);
      }
      forall i | 0 <= i < 16 && !l0[i].inUse
        ensures !lanes[i].inUse && lanes[i].len == NO_JOB
      {
      }
    }

    /** `find_min_length16` on the lengths of the lanes: free lanes never decide it. */
    method CommonLength() returns (common: nat)
      requires Valid() && Marked() && exists i | 0 <= i < 16 :: lanes[i].inUse
      ensures exists i | 0 <= i < 16 :: lanes[i].inUse && common == lanes[i].len
      ensures forall i | 0 <= i < 16 && lanes[i].inUse :: common <= lanes[i].len
    {
      hide Fresh, Suspended, Done;
      ghost var used :| 0 <= used < 16 && lanes[used].inUse;
      forall i | 0 <= i < 16
        ensures lanes[i].inUse ==> lanes[i].len <= MAX_BITS
      {
        if lanes[i].inUse { LengthBounds(lanes[i]); }
      }
      var lens := seq(16, i requires 0 <= i < 16 reads lanes => lanes[i].len);
      common := FindMinOfSixteen(lens);
      MinBounds(lens, common);
      ghost var k :| 0 <= k < 16 && lens[k] == common;
      assert lens[used] == lanes[used].len && lens[k] == lanes[k].len;
      assert forall i | 0 <= i < 16 :: lens[i] == lanes[i].len;
    }

    /** The rounds of a call of 448 common bits or more. At the head of the loop the words in the windows
        and the `L` words still to be made are together exactly what the rest of the call needs; every
        request for words is for at least 1 and at most 16. */
    method SharedRounds(ks: array2<bv32>, common: nat, pending: nat, junk: seq<bv32>, ghost l0: seq<Lane>)
      returns (remainCommonBits: nat)
      requires lanes.Length == ks.Length0 == |l0| == |junk| == 16 && ks.Length1 == 32
      requires 16 + pending == KeystreamWords(common)
      requires AllRunning(l0, ks, 16, common, common)
      modifies lanes, ks
      ensures remainCommonBits < 512 && remainCommonBits <= common && (common - remainCommonBits) % 512 == 0
      ensures AllRunning(l0, ks, KeystreamWords(remainCommonBits), remainCommonBits, common)
    {
      hide AllRunning, KeystreamWords;
      WordBudget(common);
      remainCommonBits := common;
      var L := pending;
      ghost var W: nat := 16;
      while remainCommonBits >= 512
        invariant 0 <= remainCommonBits <= common && (common - remainCommonBits) % 512 == 0
        invariant W + L == KeystreamWords(remainCommonBits) && W <= 16 && (W == 16 || L == 0)
        invariant AllRunning(l0, ks, W, remainCommonBits, common)
      {
        ghost var words := if L < 16 then L else 16;
        WordBudget(remainCommonBits);
        RoundsOff(common, remainCommonBits);
        if L < 16 {
          Feed(ks, 16, L, l0, remainCommonBits, common);
          L := 0;
        } else {
          Feed(ks, 16, 16, l0, remainCommonBits, common);
          L := L - 16;
        }
        RoundAll(ks, junk, words, l0, remainCommonBits, common);
        remainCommonBits := remainCommonBits - 512;
        W := words;
      }
      WordBudget(remainCommonBits);
      if L != 0 {
        Feed(ks, 16, L, l0, remainCommonBits, common);
      }
    }

    /** `_zuc_eia3_16_buffer_job`: every job advances by the smallest remaining length, rounded up to
        whole words, and the jobs that this completes have their MAC, exactly if they are no more than
        32767 bits longer than that. A longer job is reported complete. */
    method Call(junk: seq<bv32>) returns (common: nat)
      requires Valid() && Marked() && |junk| == 16 && exists i | 0 <= i < 16 :: lanes[i].inUse
      requires forall i | 0 <= i < 16 && lanes[i].inUse :: lanes[i].len > 0
      modifies lanes
      ensures exists i | 0 <= i < 16 :: old(lanes[i]).inUse && common == old(lanes[i]).len && Done(lanes[i])
      ensures forall i | 0 <= i < 16 :: if old(lanes[i]).inUse then Ends(old(lanes[i]), common, lanes[i])
                                        else !lanes[i].inUse && lanes[i].len == NO_JOB
      ensures (forall i | 0 <= i < 16 && old(lanes[i]).inUse :: InRange(old(lanes[i]), common)) ==> Valid()
    {
      hide Done, Ends, LaneValid, AllRunning, InRange;
      ghost var l0 := lanes[..];
      common := CommonLength();
      ghost var shortest :| 0 <= shortest < 16 && lanes[shortest].inUse && common == lanes[shortest].len;
      var keyStr := new bv32[16, 32];
      Begin(keyStr, l0, common);
      var remainCommonBits := common;
      var L := (remainCommonBits + 31) / 32;
      if L < 14 {
        Feed(keyStr, 2, L, l0, common, common);
      } else {
        Feed(keyStr, 2, 14, l0, common, common);
        remainCommonBits := SharedRounds(keyStr, common, L - 14, junk, l0);
      }
      RemainderAll(keyStr, remainCommonBits, junk, l0, common);
      forall i | 0 <= i < 16 && (l0[i].inUse ==> InRange(l0[i], common))
        ensures LaneValid(lanes[i])
      {
        if l0[i].inUse { EndKeepsValid(l0[i], common, lanes[i]); } else { FreeIsValid(lanes[i]); }
      }
      ShortestIsDone(l0[shortest], lanes[shortest]);
    }

    /** The start of a call: every job has two words in its window. */
    method Begin(ks: array2<bv32>, ghost l0: seq<Lane>, ghost common: nat)
      requires Valid() && Marked() && l0 == lanes[..] && ks.Length0 == 16 && ks.Length1 == 32
      requires forall i | 0 <= i < 16 && l0[i].inUse :: 0 < l0[i].len && common <= l0[i].len
      modifies lanes, ks
      ensures AllRunning(l0, ks, 2, common, common)
    {
      hide LaneValid, Begun, FirstPair, Running;
      FirstWords(ks);
      StartRunning(ks, l0, common);
    }

    lemma StartRunning(ks: array2<bv32>, l0: seq<Lane>, common: nat)
      requires lanes.Length == ks.Length0 == |l0| == 16 && ks.Length1 == 32
      requires forall i | 0 <= i < 16 :: LaneValid(l0[i])
      requires forall i | 0 <= i < 16 ::
                 if l0[i].inUse then 0 < l0[i].len && common <= l0[i].len else l0[i].len == NO_JOB
      requires forall i | 0 <= i < 16 :: lanes[i] == Begun(l0[i]) && (ks[i, 0], ks[i, 1]) == FirstPair(l0[i])
      ensures AllRunning(l0, ks, 2, common, common)
    {
      hide FirstPair, Fed, LaneValid;
      forall i | 0 <= i < 16 && l0[i].inUse
        ensures Running(l0[i], lanes[i], Row(ks, i), 2, common, common)
      {
        BegunIsFed(l0[i], Row(ks, i));
      }
      forall i | 0 <= i < 16 && !l0[i].inUse
        ensures !lanes[i].inUse && lanes[i].len == NO_JOB
      {
        FreeLane(l0[i]);
      }
    }
  }

  /** The words that n bits need, before and after a round. */
  lemma WordBudget(n: nat)
    ensures 2 <= KeystreamWords(n) && (n < 512 ==> KeystreamWords(n) <= 18)
    ensures n >= 512 ==> KeystreamWords(n) >= 18 && KeystreamWords(n - 512) == KeystreamWords(n) - 16
  {
  }

  lemma RoundsOff(common: nat, remain: nat)
    requires 512 <= remain <= common && (common - remain) % 512 == 0
    ensures (common - (remain - 512)) % 512 == 0
  {
    assert (common - remain + 512) % 512 == (common - remain) % 512;
  }

  lemma LengthBounds(l: Lane)
    requires LaneValid(l) && l.inUse
    ensures l.len <= MAX_BITS
  {
  }

  lemma FreeIsValid(l: Lane)
    requires !l.inUse
    ensures LaneValid(l)
  {
  }

  lemma EndKeepsValid(l: Lane, common: nat, l': Lane)
    requires LaneValid(l) && l.inUse && Ends(l, common, l') && InRange(l, common)
    ensures LaneValid(l')
  {
  }

  lemma ShortestIsDone(l: Lane, l': Lane)
    requires Ends(l, l.len, l')
    ensures Done(l')
  {
  }

  /** What a call does to a lane that holds a job: what it is to do exactly if the lane is in range. */
  ghost predicate Ends(l: Lane, common: nat, l': Lane) {
    && SameJob(l, l')
    && (Step(l, common, l') <==> InRange(l, common))
    && (!InRange(l, common) ==> l'.len == 0)
  }

  /** A job of 32832 bits, just submitted, beside one of 32 bits: whatever the call does to it, it is reported
      complete after its first 32 bits. */
  lemma LongJobIsCutShort(l': Lane)
    ensures var l := Lane(_ => 0, seq(4104, _ => 0), 32832, 0, 0, 32832, (0, 0), true, true, 0);
            && l.inUse && LaneValid(l) && Fresh(l) && !InRange(l, 32)
            && (Ends(l, 32, l') ==> l'.len == 0 && l'.total == 32832 && !Step(l, 32, l'))
  {
  }

  lemma FreeLane(l: Lane)
    requires l.len == NO_JOB && !l.inUse
    ensures Begun(l).len == NO_JOB && !Begun(l).inUse
  {
  }

  /** The remainder completes the step of a job that the shared rounds have carried so far. */
  lemma RunningEnds(l0: Lane, l: Lane, win: seq<bv32>, remain: nat, common: nat, junk: bv32, l': Lane)
    requires Running(l0, l, win, KeystreamWords(remain), remain, common)
    requires remain < 512 && (common - remain) % 512 == 0
    requires var n := KeystreamWords(remain);
             l' == RemainderLane(l, win, remain, junk).(prev := (win[n - 2], win[n - 1]))
    ensures Ends(l0, common, l')
  {
    hide Suspended, Done, Fed, Up32, KeystreamWords;
    WholeRoundsUp(common, remain);
    if InRange(l, remain) {
      RemainderSteps(l, win, remain, junk, l');
      RunningPlace(l0, l, win, remain, common);
    }
  }

  /** Where the generator of such a job stands, and what the last two words of its window are. */
  lemma RunningPlace(l0: Lane, l: Lane, win: seq<bv32>, remain: nat, common: nat)
    requires Running(l0, l, win, KeystreamWords(remain), remain, common)
    requires remain < 512 && (common - remain) % 512 == 0
    ensures var n := KeystreamWords(remain);
            l.pos == Begun(l0).pos + (common + 31) / 32 && l.pos >= 2
            && (win[n - 2], win[n - 1]) == (l0.z(l.pos - 2), l0.z(l.pos - 1))
  {
    hide MacBits, Up32;
    WholeRoundsUp(common, remain);
    assert 8 * l.at == 8 * l0.at + (common - remain);
  }

  lemma WholeRoundsUp(common: nat, remain: nat)
    requires remain <= common && (common - remain) % 512 == 0
    ensures Up32(common) == (common - remain) + Up32(remain)
    ensures (common + 31) / 32 == (remain + 31) / 32 + (common - remain) / 32
  {
    var q := (common - remain) / 512;
    assert common + 31 == (remain + 31) + 32 * (16 * q);
    assert (common + 31) / 32 == (remain + 31) / 32 + 16 * q;
  }

  /** A job in the middle of a call that has `remain` of its common bits still to do. */
  ghost predicate Running(l0: Lane, l: Lane, win: seq<bv32>, W: nat, remain: nat, common: nat) {
    && SameJob(l0, l) && Fed(l, win, W) && Placed(l0)
    && remain <= common <= l0.len && l.len == l0.len - (common - remain)
  }

  /** A job whose place in the message and in the keystream fit. */
  predicate Placed(l: Lane) {
    8 * l.at + l.len == l.total <= MAX_BITS && l.at % 4 == 0 && Begun(l).pos == l.at / 4 + 2
  }

  ghost predicate SameJob(l: Lane, l': Lane) {
    l'.inUse && l'.z == l.z && l'.msg == l.msg && l'.total == l.total
  }

  lemma FedMore(l: Lane, win: seq<bv32>, W: nat, win': seq<bv32>, words: nat)
    requires Fed(l, win, W) && |win'| == 32 && W + words <= 32
    requires forall j | 0 <= j < W :: win'[j] == win[j]
    requires forall j | W <= j < W + words :: win'[j] == l.z(l.pos + (j - W))
    ensures Fed(l.(pos := l.pos + words), win', W + words)
  {
    hide MacBits;
  }

  lemma RoundFields(l: Lane, win: seq<bv32>)
    requires |win| == 32 && 512 <= l.len && 8 * l.at + 512 <= 8 * |l.msg|
    ensures SameJob(l, RoundLane(l, win)) <==> l.inUse
    ensures RoundLane(l, win).len == l.len - 512
  {
  }

  function Begun(l: Lane): Lane {
    if l.initNotDone then l.(pos := l.pos + 2, initNotDone := false) else l
  }

  function FirstPair(l: Lane): (bv32, bv32) {
    if l.initNotDone then (l.z(l.pos), l.z(l.pos + 1)) else l.prev
  }

  lemma BegunIsFed(l: Lane, win: seq<bv32>)
    requires LaneValid(l) && l.inUse && l.len > 0
    requires |win| == 32 && (win[0], win[1]) == FirstPair(l)
    ensures Fed(Begun(l), win, 2) && Placed(l)
  {
    hide Eia3Mac;
  }

  // ---- Runs of calls ----

  /** The same tag, generator position and saved words and, for a job that is not complete, the same place
      in the message. */
  predicate SameState(l: Lane, l': Lane) {
    l.len == l'.len && l.digest == l'.digest && l.pos == l'.pos && l.prev == l'.prev && (l.len > 0 ==> l.at == l'.at)
  }

  /** A job that a call has left: its tag and its place follow from what is left of it. */
  lemma StateFollowsFromLength(l: Lane, l': Lane)
    requires SameJob(l, l') && l.len == l'.len && l.pos == l'.pos && l.prev == l'.prev
    requires (Suspended(l) || Done(l)) && (Suspended(l') || Done(l'))
    ensures SameState(l, l')
  {
    hide MacBits, Eia3Mac, Bswap4;
  }

  /** Two calls are one: a call of c1 bits, a whole number of words, and one of c2 bits leave a job as
      one call of c1 + c2 bits does. */
  lemma TwoCallsAreOne(l: Lane, c1: nat, l1: Lane, c2: nat, l2: Lane, l2': Lane)
    requires LaneValid(l) && l.inUse && c1 % 32 == 0
    requires Step(l, c1, l1) && Step(l1, c2, l2) && Step(l, c1 + c2, l2')
    ensures SameState(l2, l2')
  {
    hide Suspended, Done, Step;
    assert Up32(c1 + c2) == c1 + Up32(c2);
    assert (c1 + c2 + 31) / 32 == c1 / 32 + (c2 + 31) / 32;
    StepLength(l, c1, l1);
    StepLength(l1, c2, l2);
    StepLength(l, c1 + c2, l2');
    DoneIffEmpty(l1);
    StateFollowsFromLength(l2, l2');
  }

  lemma StepLength(l: Lane, common: nat, l': Lane)
    requires Step(l, common, l')
    ensures SameJob(l, l') && (Suspended(l') || Done(l'))
    ensures l'.len == if l.len <= Up32(common) then 0 else l.len - Up32(common)
    ensures l'.pos == Begun(l).pos + (common + 31) / 32 && l'.pos >= 2 && !l'.initNotDone
    ensures l'.prev == (l.z(l'.pos - 2), l.z(l'.pos - 1))
  {
  }

  /** A job's states from its submission on, through calls that find it in range. What the other lanes do
      meanwhile does not appear. */
  ghost predicate Run(ls: seq<Lane>, commons: seq<nat>) {
    && |ls| == |commons| + 1
    && LaneValid(ls[0]) && ls[0].inUse && Fresh(ls[0])
    && forall k | 0 <= k < |commons| :: Step(ls[k], commons[k], ls[k + 1])
  }

  function Sum32(commons: seq<nat>): nat {
    if commons == [] then 0 else Sum32(commons[..|commons| - 1]) + Up32(commons[|commons| - 1])
  }

  /** After any run a job has used up what its calls had in common, word for word, and when nothing is
      left its tag is the MAC of the whole message. */
  lemma {:induction false} RunEnds(ls: seq<Lane>, commons: seq<nat>)
    requires Run(ls, commons)
    ensures SameJob(ls[0], ls[|commons|])
    ensures |commons| > 0 ==> Suspended(ls[|commons|]) || Done(ls[|commons|])
    ensures |commons| > 0 ==> EndsAt(ls[|commons|], Sum32(commons) / 32 + 2)
    ensures ls[|commons|].len == if ls[0].total <= Sum32(commons) then 0 else ls[0].total - Sum32(commons)
    ensures ls[0].total <= Sum32(commons) ==>
              ls[|commons|].digest == Bswap4(Eia3Mac(ls[0].z, ls[0].msg, ls[0].total))
  {
    hide Suspended, Done, Step;
    var n := |commons|;
    if n > 0 {
      RunEnds(ls[..n], commons[..n - 1]);
      StepLength(ls[n - 1], commons[n - 1], ls[n]);
      WholeWords(commons[..n - 1], commons[n - 1]);
      DoneIffEmpty(ls[n]);
    }
  }

  /** The generator stands behind word `pos`, and the two words before it are saved. */
  predicate EndsAt(l: Lane, pos: nat)
    requires pos >= 2
  {
    l.pos == pos && l.prev == (l.z(pos - 2), l.z(pos - 1)) && !l.initNotDone
  }

  lemma {:induction false} WholeWords(commons: seq<nat>, common: nat)
    ensures Sum32(commons) % 32 == 0
    ensures (Sum32(commons) + Up32(common)) / 32 == Sum32(commons) / 32 + (common + 31) / 32
  {
    if commons != [] {
      WholeWords(commons[..|commons| - 1], commons[|commons| - 1]);
    }
  }

  lemma DoneIffEmpty(l: Lane)
    requires Suspended(l) || Done(l)
    ensures Done(l) <==> l.len == 0
    ensures Done(l) ==> l.digest == Bswap4(Eia3Mac(l.z, l.msg, l.total))
  {
  }

  /** However a message is cut into calls, the state they leave depends on the bits covered only. */
  lemma RunsAgree(ls: seq<Lane>, commons: seq<nat>, ls': seq<Lane>, commons': seq<nat>)
    requires Run(ls, commons) && Run(ls', commons') && ls[0] == ls'[0]
    requires Sum32(commons) == Sum32(commons') && commons != [] && commons' != []
    ensures |ls| == |commons| + 1 && |ls'| == |commons'| + 1 && SameState(ls[|commons|], ls'[|commons'|])
  {
    hide Suspended, Done, Step, Sum32, Run, SameState;
    RunLength(ls, commons);
    RunLength(ls', commons');
    RunEnds(ls, commons);
    RunEnds(ls', commons');
    StateFollowsFromLength(ls[|commons|], ls'[|commons'|]);
  }

  lemma RunLength(ls: seq<Lane>, commons: seq<nat>)
    requires Run(ls, commons)
    ensures |ls| == |commons| + 1
  {
  }
}
