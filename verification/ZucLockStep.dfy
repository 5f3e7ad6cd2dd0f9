/** 128-EIA3 on several buffers in lock step: the common prefix of all lanes together, then each
    lane alone from a copied-out generator. */
module ZucLockStep {
  import opened Words
  import opened ZucSpec
  import opened ZucKernels
  import opened ZucEia3

  // ---- The keystream a lane sees ----

  /** The bits left over when n bits are cut into whole rounds. */
  function Rest(R: nat, n: nat): nat
    requires IsRound(R)
  {
    if R == 4 then n % 128 else if R == 8 then n % 256 else n % 512
  }

  /** The lock-step rounds end on the common length with only two words of the next round made. */
  predicate StopsShort(R: nat, common: nat, shortcut: bool)
    requires IsRound(R)
  {
    shortcut && 0 < common && Rest(R, common) == 0
  }

  /** The words a lane's window goes through. If the rounds stop short, the words after the two
      made are what the second half of the window held before (`junk` if nothing was ever put
      there), and the generator continues R - 2 words late. */
  function LaneStream(z: Keystream, junk: seq<bv32>, R: nat, common: nat, shortcut: bool): Keystream
    requires IsRound(R) && |junk| == 2 * R
  {
    if !StopsShort(R, common, shortcut) then z
    else
      var m := common / 32;
      (g: nat) =>
        if g < m + 2 then z(g)
        else if g < m + R then (if m == R then junk[g] else if R <= g then z(g - R) else 0)
        else z(g - (R - 2))
  }

  /** The input of one call: one keystream, message and length a lane, and which lanes hold a job. */
  datatype Lanes = Lanes(z: seq<Keystream>, msg: seq<seq<bv8>>, bits: seq<nat>, live: seq<bool>) {
    ghost predicate Valid(common: nat) {
      && |z| == |msg| == |bits| == |live|
      && forall i | 0 <= i < |live| && live[i] ::
           common <= bits[i] <= 8 * |msg[i]| && FitsUint32(bits[i])
    }
  }

  /** `asm_Eia3Round*` and the `memcpy` for every live lane. */
  method RoundOfLanes(R: nat, ks: array2<bv32>, T0: seq<bv32>, lanes: Lanes, at: nat) returns (T: seq<bv32>)
    requires IsRound(R) && ks.Length1 == 2 * R && ks.Length0 == |T0| == |lanes.live| == |lanes.msg|
    requires forall i | 0 <= i < |T0| && lanes.live[i] :: 8 * at + 32 * R <= 8 * |lanes.msg[i]|
    modifies ks
    ensures |T| == |T0|
    ensures forall i | 0 <= i < |T| && lanes.live[i] ::
              T[i] == Xor(T0[i], WindowBits(old(Row(ks, i)), lanes.msg[i], at, 32 * R))
    ensures forall i, j | 0 <= i < ks.Length0 && 0 <= j < ks.Length1 ::
              ks[i, j] == if lanes.live[i] && j < R then old(ks[i, R + j]) else old(ks[i, j])
  {
    hide Xor, WindowBits;
    T := T0;
    for n := 0 to |T0|
      invariant |T| == |T0|
      invariant forall i | 0 <= i < n && lanes.live[i] ::
                  T[i] == Xor(T0[i], WindowBits(old(Row(ks, i)), lanes.msg[i], at, 32 * R))
      invariant forall i | n <= i < |T| :: T[i] == T0[i]
      invariant forall i, j | 0 <= i < ks.Length0 && 0 <= j < ks.Length1 ::
                  ks[i, j] == if i < n && lanes.live[i] && j < R then old(ks[i, R + j]) else old(ks[i, j])
    {
      if lanes.live[n] {
        assert Row(ks, n) == old(Row(ks, n));
        T := T[n := Xor(T[n], WindowBits(Row(ks, n), lanes.msg[n], at, 32 * R))];
        SlideWindow(ks, n, R);
      }
    }
  }

  // ---- One lane through the shared rounds ----

  /** The words made in the round after word b. */
  function RoundWords(R: nat, common: nat, shortcut: bool, b: nat): nat {
    if 32 * b + 32 * R == common && shortcut then 2 else R
  }

  /** Whole rounds lie behind word b. */
  predicate RoundsBehind(R: nat, common: nat, b: nat)
    requires IsRound(R)
  {
    32 * b <= common && Rest(R, common - 32 * b) == Rest(R, common)
  }

  /** ... and one more lies ahead. */
  predicate RoundAhead(R: nat, common: nat, b: nat)
    requires IsRound(R)
  {
    RoundsBehind(R, common, b) && 32 * b + 32 * R <= common
  }

  /** A lane after the shared rounds over its first `b` words: its row shows the next R words of
      the keystream it sees, and until the last round the second half of the row holds what
      LaneStream says it does. */
  ghost predicate InStep(R: nat, z: Keystream, junk: seq<bv32>, common: nat, shortcut: bool, b: nat, row: seq<bv32>)
    requires IsRound(R) && |junk| == 2 * R
  {
    && |row| == 2 * R
    && Shows(row, LaneStream(z, junk, R, common, shortcut), b, R)
    && (32 * b + 32 * R <= common ==>
          forall j | R <= j < 2 * R :: row[j] == if b == 0 then junk[j] else row[j - R])
  }

  /** What the generator of such a lane will produce next. */
  ghost predicate OnTrack(R: nat, z: Keystream, junk: seq<bv32>, common: nat, shortcut: bool, b: nat, pos: nat)
    requires IsRound(R) && |junk| == 2 * R
  {
    if 32 * b + 32 * R <= common then pos == b + R
    else Continues(z, pos, LaneStream(z, junk, R, common, shortcut), b + R)
  }

  lemma WholeRounds(R: nat, common: nat, b: nat)
    requires IsRound(R) && RoundAhead(R, common, b)
    ensures Rest(R, common) == 0 ==> 32 * b + 32 * R == common || 32 * b + 64 * R <= common
    ensures 32 * b + 32 * R == common ==> Rest(R, common) == 0
  {
  }

  lemma NextRound(R: nat, common: nat, b: nat)
    requires IsRound(R) && RoundAhead(R, common, b)
    ensures RoundsBehind(R, common, b + R)
  {
    OneLess(R, common - 32 * b);
  }

  lemma OneLess(R: nat, n: nat)
    requires IsRound(R) && n >= 32 * R
    ensures Rest(R, n - 32 * R) == Rest(R, n)
  {
    if R == 4 {
      Less128(n);
    } else if R == 8 {
      Less256(n);
    } else {
      Less512(n);
    }
  }

  lemma Less128(n: int)
    ensures (n - 128) % 128 == n % 128
  {
  }

  lemma Less256(n: int)
    ensures (n - 256) % 256 == n % 256
  {
  }

  lemma Less512(n: int)
    ensures (n - 512) % 512 == n % 512
  {
  }

  /** What a lane sees is its own keystream up to two words into the last round, and all of it unless the rounds
      stop short. */
  lemma SeenBefore(R: nat, z: Keystream, junk: seq<bv32>, common: nat, shortcut: bool, g: nat)
    requires IsRound(R) && |junk| == 2 * R
    requires StopsShort(R, common, shortcut) ==> g < common / 32 + 2
    ensures LaneStream(z, junk, R, common, shortcut)(g) == z(g)
    ensures !StopsShort(R, common, shortcut) ==> LaneStream(z, junk, R, common, shortcut) == z
  {
    hide StopsShort;
  }

  /** The generator of such a lane once they have stopped short. */
  lemma SeenAfter(R: nat, z: Keystream, junk: seq<bv32>, common: nat, shortcut: bool)
    requires IsRound(R) && |junk| == 2 * R && StopsShort(R, common, shortcut)
    ensures Continues(z, common / 32 + 2, LaneStream(z, junk, R, common, shortcut), common / 32 + R)
  {
    hide StopsShort, LaneStream;
    var m, seen := common / 32, LaneStream(z, junk, R, common, shortcut);
    forall p: nat | m + 2 <= p
      ensures z(p) == seen(m + R + (p - (m + 2)))
    {
      var g := m + R + (p - (m + 2));
      SeenLate(R, z, junk, common, shortcut, g);
      assert g - (R - 2) == p;
    }
  }

  lemma SeenLate(R: nat, z: Keystream, junk: seq<bv32>, common: nat, shortcut: bool, g: nat)
    requires IsRound(R) && |junk| == 2 * R && StopsShort(R, common, shortcut) && g >= common / 32 + R
    ensures LaneStream(z, junk, R, common, shortcut)(g) == z(g - (R - 2))
  {
    hide StopsShort;
  }

  lemma Itself(z: Keystream, p: nat)
    ensures Continues(z, p, z, p)
  {
  }

  lemma StaysOnTrack(R: nat, z: Keystream, junk: seq<bv32>, common: nat, shortcut: bool, b: nat)
    requires IsRound(R) && |junk| == 2 * R && RoundAhead(R, common, b)
    ensures OnTrack(R, z, junk, common, shortcut, b + R, b + R + RoundWords(R, common, shortcut, b))
    ensures LaneStream(z, junk, R, common, shortcut)(b + R) == z(b + R)
  {
    hide Rest, LaneStream, Continues;
    WholeRounds(R, common, b);
    Itself(z, b + R + R);
    if StopsShort(R, common, shortcut) && 32 * b + 32 * R == common {
      assert common / 32 == b + R;
      SeenAfter(R, z, junk, common, shortcut);
    }
    SeenBefore(R, z, junk, common, shortcut, b + R);
  }

  lemma StaysInStepAt(R: nat, z: Keystream, junk: seq<bv32>, common: nat, shortcut: bool, b: nat,
                      low: bv32, high: bv32, low': bv32, j: nat)
    requires IsRound(R) && |junk| == 2 * R && j < R && RoundAhead(R, common, b)
    requires low == LaneStream(z, junk, R, common, shortcut)(b + j)
    requires high == if b == 0 then junk[R + j] else low
    requires low' == if j < RoundWords(R, common, shortcut, b) then z(b + R + j) else high
    ensures low' == LaneStream(z, junk, R, common, shortcut)(b + R + j)
  {
    WholeRounds(R, common, b);
  }

  /** A round writes R words or, at the end, two into the second half of the row, and then that
      half over the first. */
  lemma StaysInStep(R: nat, z: Keystream, junk: seq<bv32>, common: nat, shortcut: bool, b: nat,
                    row: seq<bv32>, row': seq<bv32>)
    requires IsRound(R) && |junk| == 2 * R && RoundAhead(R, common, b)
    requires InStep(R, z, junk, common, shortcut, b, row) && |row'| == 2 * R
    requires forall j | 0 <= j < R :: row'[j] == row'[R + j]
    requires forall j | 0 <= j < R ::
               row'[j] == if j < RoundWords(R, common, shortcut, b) then z(b + R + j) else row[R + j]
    ensures InStep(R, z, junk, common, shortcut, b + R, row')
  {
    hide LaneStream;
    forall j | 0 <= j < R
      ensures row'[j] == LaneStream(z, junk, R, common, shortcut)(b + R + j)
    {
      StaysInStepAt(R, z, junk, common, shortcut, b, row[j], row[R + j], row'[j], j);
    }
    forall j | R <= j < 2 * R
      ensures row'[j] == row'[j - R]
    {
      assert row'[j - R] == row'[R + (j - R)];
    }
  }

  /** A lane on its way: in step, on track, and with the bits of its first `b` words in its tag. */
  ghost predicate Ready(R: nat, z: Keystream, junk: seq<bv32>, msg: seq<bv8>, common: nat, shortcut: bool,
                        b: nat, row: seq<bv32>, pos: nat, t: bv32)
  {
    && IsRound(R) && |junk| == 2 * R && 32 * b <= common <= 8 * |msg|
    && InStep(R, z, junk, common, shortcut, b, row)
    && OnTrack(R, z, junk, common, shortcut, b, pos)
    && t == MacBits(LaneStream(z, junk, R, common, shortcut), msg, 32 * b)
  }

  lemma StartsReady(R: nat, z: Keystream, junk: seq<bv32>, msg: seq<bv8>, common: nat, shortcut: bool, row: seq<bv32>)
    requires IsRound(R) && |row| == |junk| == 2 * R && common <= 8 * |msg|
    requires forall j | 0 <= j < 2 * R :: row[j] == if j < R then z(j) else junk[j]
    ensures Ready(R, z, junk, msg, common, shortcut, 0, row, R, 0)
  {
    assert StopsShort(R, common, shortcut) ==> 32 * R <= common;
  }

  /** A row once the next words are in its second half. */
  ghost predicate Refilled(R: nat, z: Keystream, row: seq<bv32>, pos: nat, words: nat, mid: seq<bv32>) {
    && |mid| == |row| == 2 * R && 2 <= words <= R
    && (forall j | 0 <= j < R :: mid[j] == row[j])
    && (forall j | R <= j < 2 * R :: mid[j] == if j < R + words then z(pos + (j - R)) else row[j])
  }

  /** A row once its second half is copied over the first. */
  ghost predicate Slid(R: nat, mid: seq<bv32>, row': seq<bv32>) {
    && |mid| == |row'| == 2 * R
    && (forall j | 0 <= j < R :: row'[j] == mid[R + j])
    && (forall j | R <= j < 2 * R :: row'[j] == mid[j])
  }

  lemma RefilledAndSlid(R: nat, z: Keystream, row: seq<bv32>, pos: nat, words: nat, mid: seq<bv32>, row': seq<bv32>)
    requires Refilled(R, z, row, pos, words, mid) && Slid(R, mid, row')
    ensures forall j | 0 <= j < R :: row'[j] == row'[R + j]
    ensures forall j | 0 <= j < R :: row'[j] == if j < words then z(pos + j) else row[R + j]
  {
  }

  /** One shared round takes a lane from one point to the next. */
  lemma RoundKeepsReady(R: nat, z: Keystream, junk: seq<bv32>, msg: seq<bv8>, common: nat, shortcut: bool, b: nat,
                        row: seq<bv32>, pos: nat, t: bv32, mid: seq<bv32>, row': seq<bv32>)
    requires IsRound(R) && RoundAhead(R, common, b)
    requires Ready(R, z, junk, msg, common, shortcut, b, row, pos, t)
    requires Refilled(R, z, row, pos, RoundWords(R, common, shortcut, b), mid) && Slid(R, mid, row')
    ensures Ready(R, z, junk, msg, common, shortcut, b + R, row', pos + RoundWords(R, common, shortcut, b),
                  Xor(t, WindowBits(mid, msg, 4 * b, 32 * R)))
  {
    hide LaneStream, MacBits, WindowBits, Xor;
    StaysOnTrack(R, z, junk, common, shortcut, b);
    assert Shows(mid, LaneStream(z, junk, R, common, shortcut), b, R + 1);
    WindowBitsExtend(mid, LaneStream(z, junk, R, common, shortcut), b, msg, 32 * R);
    RefilledAndSlid(R, z, row, pos, RoundWords(R, common, shortcut, b), mid, row');
    StaysInStep(R, z, junk, common, shortcut, b, row, row');
  }

  // ---- The driver ----

  /** One shared round: `words` new words for every lane, then every live lane's bits and slide. */
  method SharedRound(R: nat, lanes: Lanes, words: nat, ks: array2<bv32>, state: ZucLanes, T0: seq<bv32>, at: nat)
    returns (T: seq<bv32>, ghost mid: seq<seq<bv32>>)
    requires IsRound(R) && 2 <= words <= R && ks.Length1 == 2 * R
    requires |lanes.z| == |lanes.live| == |lanes.msg| == |T0| == ks.Length0 && state.Valid() && state.z == lanes.z
    requires forall i | 0 <= i < |T0| && lanes.live[i] :: 8 * at + 32 * R <= 8 * |lanes.msg[i]|
    modifies ks, state`pos
    ensures |T| == |mid| == |T0| && state.Valid()
    ensures forall i | 0 <= i < |T| && lanes.live[i] ::
              && Refilled(R, lanes.z[i], old(Row(ks, i)), old(state.pos)[i], words, mid[i])
              && Slid(R, mid[i], Row(ks, i)) && state.pos[i] == old(state.pos)[i] + words
              && T[i] == Xor(T0[i], WindowBits(mid[i], lanes.msg[i], at, 32 * R))
  {
    hide Xor, WindowBits;
    state.GenKeystream(ks, R, words, seq(|T0|, _ => true));
    mid := seq(|T0|, i requires 0 <= i < |T0| reads ks => Row(ks, i));
    T := RoundOfLanes(R, ks, T0, lanes, at);
  }

  /** The shared rounds of the lock-step driver. */
  method SharedRounds(R: nat, lanes: Lanes, common: nat, shortcut: bool, keyStr: array2<bv32>,
                      state: ZucLanes, ghost junk: seq<seq<bv32>>)
    returns (numKeyStr: nat, T: seq<bv32>)
    requires IsRound(R) && lanes.Valid(common)
    requires keyStr.Length0 == |lanes.z| == |junk| && keyStr.Length1 == 2 * R
    requires state.Valid() && state.z == lanes.z
    requires forall i | 0 <= i < |junk| :: |junk[i]| == 2 * R && state.pos[i] == R
    requires forall i, j | 0 <= i < |junk| && 0 <= j < 2 * R ::
               keyStr[i, j] == if j < R then lanes.z[i](j) else junk[i][j]
    modifies keyStr, state`pos
    ensures numKeyStr * R * 32 <= common < numKeyStr * R * 32 + 32 * R && |T| == |lanes.z| && state.Valid()
    ensures forall i | 0 <= i < |T| && lanes.live[i] ::
              Ready(R, lanes.z[i], junk[i], lanes.msg[i], common, shortcut, numKeyStr * R, Row(keyStr, i),
                    state.pos[i], T[i])
  {
    hide InStep, OnTrack, LaneStream, WindowBits, Xor, MacBits, Refilled, Slid, Rest;
    numKeyStr, T := 0, seq(|lanes.z|, _ => 0);
    var remainCommonBits, pIn := common, 0;
    ghost var b: nat := 0;
    forall i | 0 <= i < |T| && lanes.live[i]
      ensures Ready(R, lanes.z[i], junk[i], lanes.msg[i], common, shortcut, 0, Row(keyStr, i), state.pos[i], T[i])
    {
      StartsReady(R, lanes.z[i], junk[i], lanes.msg[i], common, shortcut, Row(keyStr, i));
    }
    while remainCommonBits >= 32 * R
      invariant b == numKeyStr * R && pIn == 4 * b && 0 <= remainCommonBits == common - 32 * b
                && RoundsBehind(R, common, b)
      invariant |T| == |lanes.z| && state.Valid() && state.z == lanes.z
      invariant forall i | 0 <= i < |T| && lanes.live[i] ::
                  Ready(R, lanes.z[i], junk[i], lanes.msg[i], common, shortcut, b, Row(keyStr, i), state.pos[i], T[i])
    {
      ghost var before, pos, t := seq(|T|, i requires 0 <= i < |T| reads keyStr => Row(keyStr, i)), state.pos, T;
      remainCommonBits := remainCommonBits - 32 * R;
      numKeyStr := numKeyStr + 1;
      ghost var mid;
      T, mid := SharedRound(R, lanes, if remainCommonBits == 0 && shortcut then 2 else R, keyStr, state, T, pIn);
      forall i | 0 <= i < |T| && lanes.live[i]
        ensures Ready(R, lanes.z[i], junk[i], lanes.msg[i], common, shortcut, b + R, Row(keyStr, i), state.pos[i], T[i])
      {
        RoundKeepsReady(R, lanes.z[i], junk[i], lanes.msg[i], common, shortcut, b,
                        before[i], pos[i], t[i], mid[i], Row(keyStr, i));
      }
      NextRound(R, common, b);
      pIn := pIn + 4 * R;
      b := b + R;
    }
  }

  /** What a lane that is out of shared rounds hands to the single-buffer code. */
  lemma ReadyToFinish(R: nat, z: Keystream, junk: seq<bv32>, msg: seq<bv8>, common: nat, shortcut: bool,
                      b: nat, row: seq<bv32>, pos: nat, t: bv32)
    requires Ready(R, z, junk, msg, common, shortcut, b, row, pos, t) && common < 32 * b + 32 * R
    ensures Shows(row, LaneStream(z, junk, R, common, shortcut), b, R)
    ensures Continues(z, pos, LaneStream(z, junk, R, common, shortcut), b + R)
    ensures t == MacBits(LaneStream(z, junk, R, common, shortcut), msg, 32 * b)
  {
  }

  /** The rest of one lane, with the generator copied out of the shared state if it is needed. */
  method FinishLane(R: nat, ks: array2<bv32>, lane: nat, state: ZucLanes, msg: seq<bv8>, lengthInBits: nat,
                    common: nat, shortcut: bool, numKeyStr: nat, T: bv32, singlePktState: ZucState,
                    ghost junk: seq<bv32>)
    returns (mac: bv32)
    requires IsRound(R) && lane < ks.Length0 == |state.z| && ks.Length1 == 2 * R == |junk| && state.Valid()
    requires common <= lengthInBits <= 8 * |msg| && FitsUint32(lengthInBits)
    requires Ready(R, state.z[lane], junk, msg, common, shortcut, numKeyStr * R, Row(ks, lane), state.pos[lane], T)
    requires common < 32 * (numKeyStr * R) + 32 * R
    modifies ks, singlePktState
    ensures mac == Bswap4(Eia3Mac(LaneStream(state.z[lane], junk, R, common, shortcut), msg, lengthInBits))
    ensures forall i, j | 0 <= i < ks.Length0 && 0 <= j < ks.Length1 && i != lane :: ks[i, j] == old(ks[i, j])
  {
    hide Eia3Mac, MacBits, LaneStream, Bswap4;
    ReadyToFinish(R, state.z[lane], junk, msg, common, shortcut, numKeyStr * R, Row(ks, lane), state.pos[lane], T);
    var N := lengthInBits + 2 * 32;
    var L := (N + 31) / 32 - numKeyStr * R;
    var remainBits := lengthInBits - 32 * (numKeyStr * R);
    if remainBits > 32 * (R - 2) {
      singlePktState.z, singlePktState.pos := state.z[lane], state.pos[lane];
    }
    mac := FinishAlone(R, singlePktState, ks, lane, T, msg, 4 * (numKeyStr * R), remainBits, L,
                       LaneStream(state.z[lane], junk, R, common, shortcut), numKeyStr * R);
  }

  /** Each live lane's MAC, one lane after the other. */
  method FinishLanes(R: nat, lanes: Lanes, common: nat, shortcut: bool, keyStr: array2<bv32>, state: ZucLanes,
                     numKeyStr: nat, T: seq<bv32>, mac: array<bv32>, first: nat, ghost junk: seq<seq<bv32>>)
    requires IsRound(R) && lanes.Valid(common) && first + |lanes.z| <= mac.Length
    requires keyStr.Length0 == |lanes.z| == |junk| == |T| && keyStr.Length1 == 2 * R
    requires state.Valid() && state.z == lanes.z
    requires forall i | 0 <= i < |junk| :: |junk[i]| == 2 * R
    requires common < 32 * (numKeyStr * R) + 32 * R
    requires forall i | 0 <= i < |T| && lanes.live[i] ::
               Ready(R, lanes.z[i], junk[i], lanes.msg[i], common, shortcut, numKeyStr * R, Row(keyStr, i),
                     state.pos[i], T[i])
    modifies mac, keyStr
    ensures forall i | 0 <= i < |lanes.z| ::
              mac[first + i] == if lanes.live[i]
                then Bswap4(Eia3Mac(LaneStream(lanes.z[i], junk[i], R, common, shortcut), lanes.msg[i], lanes.bits[i]))
                else old(mac[first + i])
    ensures forall k | 0 <= k < mac.Length && !(first <= k < first + |lanes.z|) :: mac[k] == old(mac[k])
  {
    hide Eia3Mac, MacBits, LaneStream, Bswap4, Ready;
    var singlePktState := new ZucState(_ => 0);
    for n := 0 to |T|
      invariant forall i, j | n <= i < |T| && 0 <= j < 2 * R :: keyStr[i, j] == old(keyStr[i, j])
      invariant forall i | 0 <= i < n ::
                  mac[first + i] == if lanes.live[i]
                    then Bswap4(Eia3Mac(LaneStream(lanes.z[i], junk[i], R, common, shortcut), lanes.msg[i],
                                        lanes.bits[i]))
                    else old(mac[first + i])
      invariant forall k | 0 <= k < mac.Length && !(first <= k < first + n) :: mac[k] == old(mac[k])
    {
      if lanes.live[n] {
        assert Row(keyStr, n) == old(Row(keyStr, n));
        mac[first + n] := FinishLane(R, keyStr, n, state, lanes.msg[n], lanes.bits[n], common, shortcut,
                                     numKeyStr, T[n], singlePktState, junk[n]);
      }
    }
  }

  /** The lock-step driver, for 4, 8 or 16 lanes, with a mask of the lanes that hold a job. `common`
      is the length the caller computed for the shared rounds; `shortcut` is the permission to make
      only 8 bytes in the last one. Each live lane gets the MAC of the keystream it sees; the other
      outputs are not touched. */
  method Eia3Lanes(R: nat, lanes: Lanes, common: nat, shortcut: bool, mac: array<bv32>, first: nat)
    returns (ghost junk: seq<seq<bv32>>)
    requires IsRound(R) && lanes.Valid(common) && first + |lanes.z| <= mac.Length
    modifies mac
    ensures |junk| == |lanes.z| && forall i | 0 <= i < |junk| :: |junk[i]| == 2 * R
    ensures forall i | 0 <= i < |lanes.z| ::
              mac[first + i] == if lanes.live[i]
                then Bswap4(Eia3Mac(LaneStream(lanes.z[i], junk[i], R, common, shortcut), lanes.msg[i], lanes.bits[i]))
                else old(mac[first + i])
    ensures forall k | 0 <= k < mac.Length && !(first <= k < first + |lanes.z|) :: mac[k] == old(mac[k])
  {
    hide Eia3Mac, MacBits, LaneStream, Bswap4, Ready, Continues;
    var count := |lanes.z|;
    var keyStr := new bv32[count, 2 * R];
    junk := seq(count, i requires 0 <= i < count reads keyStr => Row(keyStr, i));
    var state := new ZucLanes(lanes.z);
    state.GenKeystream(keyStr, 0, R, seq(count, _ => true));
    var numKeyStr, T := SharedRounds(R, lanes, common, shortcut, keyStr, state, junk);
    FinishLanes(R, lanes, common, shortcut, keyStr, state, numKeyStr, T, mac, first, junk);
  }
}
