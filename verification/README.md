# Verified models of the multi-buffer crypto drivers

Dafny models of C code that sits above the assembly kernels of the multi-buffer crypto library, and proofs
about them. `dafny verify dfyconfig.toml` checks everything.

- **ZUC** (`Zuc*.dfy`): the 128-EEA3 and 128-EIA3 drivers for AVX, AVX2 and AVX512. `ZucSpec` states both algorithms
  of 3GPP TS 35.221 over an arbitrary keystream, and `ZucBits` proves what each bit of their results is. The drivers
  keep a window of the keystream, slide it, run several buffers in lock step, finish each alone, stop and resume. They
  are methods over arrays and generator objects, proved against that specification.
- **DES** (`DesBlock`, `DesKey`, `DesFips`, `DesModes`, `Bits`, `Bits32`): block cipher, key schedule, CBC, 3DES and
  DOCSIS, for any S-box contents. `DesFips` states the cipher and key schedule of FIPS 46-3 on strings of bits; the code
  is proved to compute them.
- **SHA** (`Sha`): the streaming driver and its padding against FIPS 180-4, for any compression function.
- **ChaCha20-Poly1305** (`ChaPoly`): the order of hashing and ciphering against section 2.8 of RFC 8439.
- **MD5** (`Md5`): the unrolled block against section 3.4 of RFC 1321.

## How the code is modelled

Words are bit vectors. A `uint64_t` that is handled as two halves is a pair of 32-bit words; a shift or rotation by a
run-time count is that many one-bit steps. `rotate_left` by 0, which C turns into a shift by 64, leaves the word as it
is. A key and an IV appear as the keystream they produce. The 4-, 8- and 16-lane drivers differ in the number of words
of a round, in how the common length and the shortcut flag are computed and in the mask; `ZucLockStep` is one method
over those parameters, and `ZucMac` has one entry point for each driver. Generators, `asm_Eia3*`, `asm_ZucCipher_*`, XOR
and Poly1305 primitives are contracts with bodies that say what the drivers rely on.

What the contracts assume of the assembly:

- `asm_ZucCipher_*` takes min(length, common length rounded up to words) bytes off each lane and leaves
  the generator behind the last word used.
- The primitives combine bits from the most significant bit of each byte on, and keystream bytes from the most
  significant byte of each word on.

## Where the code and its promise differ

- The 16-lane EIA3 driver (lib/avx512/zuc_avx512_top.c:642) generates only 8 bytes whenever the common bits run out,
  without the test for equal lengths of lib/avx/zuc_avx_top.c:537. A longer lane then misses keystream words.
  `ZucMac.SixteenLanesExactIff` states exactly when a lane is right; `ZucMac.ShortLaneIsWrong` shows that otherwise it
  is wrong for all but at most one value of one keystream word, and `ZucNBuffer.Eia3NBuffersAvx512` carries the
  condition.
- `asm_Eia3RemainderAVX512_16` (lib/avx512/zuc_avx512.asm:1708-1723) tests the sign of a 16-bit difference of lengths,
  though lengths go up to 65504 bits. In the resumable job a lane that is 32768 bits or more beyond the common length
  rounded up is reported complete too early. `ZucJob.RunningEnds` has the exact condition,
  `ZucJob.LongJobIsCutShort` an input.
- The AVX2 comparison (lib/avx2/zuc_avx2_top.c:56-67, 78-103) looks for lengths equal to the first one byte-swapped. The
  flag is sound and not complete; the MAC needs soundness only.
- The AVX2 single-buffer driver subtracts `keyStreamLengthInBits / KEYSTR_ROUND_LEN` words
  (lib/avx2/zuc_avx2_top.c:462), which is 256 / 32 = 8 and so the right number by coincidence of the constants.
- `idx + blk_size` in the SHA driver (lib/sha_one_block.c:270) wraps for lengths within a block of 2^64, and the loop
  then never ends; `Sha.LoopEndsIff` has the exact condition, which is the requirement of `Sha.ShaGeneric`.
- For SHA-384 and SHA-512 the length field has 16 bytes and the driver fills 8 (lib/sha_one_block.c:285).
  `Sha.DriverPadsByFips` gives the exact bound.

## Model

| member | source | states |
|---|---|---|
| `ZucSpec.RotatedPairIsSplice` | lib/avx/zuc_avx_top.c:408-416 | the low word of two keystream words loaded at once and rotated left by r is the 32-bit view of the keystream from bit r on (GET_WORD of 128-EIA3) |
| `ZucSpec.Eia3MacLocal` | lib/avx/zuc_avx_top.c:428-430 | the MAC of n bits depends on the first ceil(n/32) + 2 keystream words and on no others |
| `ZucSpec.Eea3Involution` | lib/avx/zuc_avx_top.c:64-118 | enciphering twice with one keystream is the identity, for every buffer |
| `ZucBits.MessageBitPlace` | lib/avx/zuc_avx.asm:65-75 | message bits are taken most significant first in each byte |
| `ZucBits.GetWordBit` | lib/avx/zuc_avx_top.c:462-463 | bit j of GET_WORD(i), from the left, is bit i + j of the keystream |
| `ZucBits.MacBitsBit` | lib/avx/zuc_avx_top.c:449-461 | each bit of the MAC counts, modulo 2, the set message bits that meet a set keystream bit at its distance |
| `ZucBits.Eia3MacBit` | lib/avx/zuc_avx_top.c:428-467 | the whole MAC bit by bit: the message's bits, GET_WORD(LENGTH) and the last keystream word, at bit 32 * (L - 1) for L = ceil(LENGTH / 32) + 2 |
| `ZucBits.OneBit` | lib/avx/zuc_avx_top.c:449-461 | a message whose only set bit is number i contributes GET_WORD(i) |
| `ZucBits.Eia3OfZeros` | lib/avx/zuc_avx_top.c:462-467 | a message of zeros has the MAC GET_WORD(LENGTH) XOR the last keystream word |
| `ZucBits.KeystreamByteBit` | lib/avx/zuc_avx_top.c:80-84 | bit i of the keystream bytes is bit i of the keystream words |
| `ZucBits.Eea3Bit` | lib/avx/zuc_avx_top.c:80-84 | bit i of the output is bit i of the input XOR bit i of the keystream |
| `ZucBits.Eea3OfZeros` | lib/avx/zuc_avx_top.c:80-84 | enciphering zeros gives the keystream |
| `Bits32.XorByteBit` | lib/include/wireless_common.asm:48-84 | combining two bytes is XOR, bit by bit |
| `Bits32.Xor32Bit` | lib/avx/zuc_avx_top.c:462-467 | combining two words is XOR, bit by bit |
| `ZucKernels.ZucState.GenKeystream` | lib/avx/zuc_avx_top.c:436-448 | contract of the one-lane generators: the next words of the stream into one row, the position advanced by as many, everything else untouched |
| `ZucKernels.ZucLanes.GenKeystream` | lib/avx512/zuc_avx512_top.c:133-161 | contract of the multi-lane generators: the same for every lane in the mask; the other lanes stand still |
| `ZucKernels.SlideWindow` | lib/avx/zuc_avx_top.c:450-451 | the second half of a window copied over the first |
| `ZucKernels.WindowBitsExtend` | lib/avx/zuc_avx_top.c:449-461 | on a window that shows the keystream from word `base` on, what the round and remainder primitives add is the next terms of the bit-by-bit MAC |
| `ZucKernels.FinishCompletes` | lib/avx/zuc_avx_top.c:461-467 | rotated pair, key block `ks[L - 1]` and byte swap complete the MAC when `L` counts the words still needed |
| `ZucEia3.OneRound` | lib/avx/zuc_avx_top.c:441-452 | one round advances the window, the relative index and the MAC together, for windows of 4, 8 and 16 words |
| `ZucEia3.FinishAlone` | lib/avx/zuc_avx_top.c:440-467 | from any point where the window shows the next words, the single-buffer code ends with the MAC of the whole message and touches no other row |
| `ZucEia3.End` | lib/avx/zuc_avx_top.c:455-467 | the end of a message: 8 more bytes of keystream when the rest needs them, and the completed MAC |
| `ZucEia3.Eia3OneBuffer` | lib/avx/zuc_avx_top.c:418-474 | for every bit length, the sliding-window loop with its 8-byte shortcut returns the specification's MAC over the whole keystream |
| `ZucLockStep.RoundOfLanes` | lib/avx/zuc_avx_top.c:541-548 | a shared round adds each live lane's bits and slides its window; lanes without a job keep theirs |
| `ZucLockStep.StaysInStep` | lib/avx/zuc_avx_top.c:531-549 | a shared round of R words, or of two at the end, leaves every window showing the keystream that the lane sees, stale words included |
| `ZucLockStep.RoundKeepsReady` | lib/avx/zuc_avx_top.c:531-549 | one shared round keeps window, generator position and partial MAC of a lane consistent |
| `ZucLockStep.SharedRounds` | lib/avx/zuc_avx_top.c:530-550 | after all shared rounds every live lane is ready for the single-buffer code, less than one round from the common length |
| `ZucLockStep.ReadyToFinish` | lib/avx/zuc_avx_top.c:552-582 | what the copied-out generator and the window of a lane continue |
| `ZucLockStep.FinishLane` | lib/avx/zuc_avx_top.c:552-620 | one lane finished alone gets the MAC over the keystream it saw |
| `ZucLockStep.FinishLanes` | lib/avx/zuc_avx_top.c:552-620 | all live lanes finished in turn; nothing written for the others |
| `ZucLockStep.Eia3Lanes` | lib/avx2/zuc_avx2_top.c:498-621 | for any lengths, mask and shortcut flag, each live lane gets the MAC over the keystream its windows showed, and no other output changes |
| `ZucMac.CommonOfFour` | lib/avx/zuc_avx_top.c:502-518 | the smallest of four lengths, and a flag that is set exactly if they are equal |
| `ZucMac.MinPos` | lib/avx2/zuc_avx2_top.c:69-71 | contract of the packed minimum: the smallest of eight words |
| `ZucMac.CompareWithFirst` | lib/avx2/zuc_avx2_top.c:56-67 | the flag compares every length with the first one byte-swapped |
| `ZucMac.SwapBytes` | lib/avx2/zuc_avx2_top.c:56-65 | the comparison sees the word with its two bytes exchanged |
| `ZucMac.CompareIsSound` | lib/avx2/zuc_avx2_top.c:56-67 | so it is set exactly if all lengths are equal and their two bytes are equal: sound, not complete |
| `ZucMac.FindMinLength16` | lib/avx2/zuc_avx2_top.c:52-72 | the minimum, and the exact condition of the flag |
| `ZucMac.FindMinLength32` | lib/avx2/zuc_avx2_top.c:74-107 | the same for 32-bit lengths packed into 16 bits |
| `ZucMac.FindMinOfSixteen` | lib/avx512/zuc_avx512_top.c:50-120 | the smallest of sixteen lengths, by eights |
| `ZucMac.CompleteLaneIsExact` | lib/avx/zuc_avx_top.c:536-540 | a lane sees its own keystream if the rounds do not stop short or it is no longer than they are |
| `ZucMac.MacNeedsKeyBlock` | lib/avx512/zuc_avx512_top.c:589-590 | two values of the last keystream word give two different MACs |
| `ZucMac.ShortLaneMissesKeyBlock` | lib/avx512/zuc_avx512_top.c:642-646 | a longer lane of rounds that stop short never sees its last keystream word |
| `ZucMac.ShortLaneIsWrong` | lib/avx512/zuc_avx512_top.c:637-714 | of any two values of that word at least one makes its MAC wrong, for every message and whatever the window held before |
| `ZucMac.SixteenLanesExactIff` | lib/avx512/zuc_avx512_top.c:637-714 | the 16-lane driver gives a lane the right MAC for every keystream and message if and only if the smallest length is 0, no multiple of 512 bits, or the lane's own |
| `ZucMac.CompleteLanes` | lib/avx2/zuc_avx2_top.c:530-621 | lock step equals independent runs when every live lane is complete |
| `ZucMac.EnoughBytes` | lib/avx/zuc_avx_top.c:836-853 | lanes whose messages have exactly the bytes of their bits, up to 65504 bits, may be given to every driver |
| `ZucMac.Eia3FourBuffers` | lib/avx/zuc_avx_top.c:476-629 | for any mix of lengths each of the four lanes gets the single-buffer MAC |
| `ZucMac.Eia3EightBuffers` | lib/avx2/zuc_avx2_top.c:491-630 | the same for eight lanes, from the soundness of the flag alone |
| `ZucMac.Eia3EightBufferJob` | lib/avx2/zuc_avx2_top.c:664-809 | with a job mask: each live lane's MAC whatever the other lanes are or carry as lengths; their outputs untouched |
| `ZucMac.Eia3SixteenBuffers` | lib/avx512/zuc_avx512_top.c:593-723 | every complete lane gets the single-buffer MAC, and every lane the MAC over the keystream it saw |
| `ZucJob.Limits` | lib/include/zuc_internal.h:58-63 | the length of a free lane is the largest 16-bit number; the longest job is the largest whole number of words below it, in bits as in bytes, and no 32-bit length arithmetic wraps up to it |
| `ZucJob.RoundKeepsFed` | lib/avx512/zuc_avx512_top.c:814-824 | a round of the resumable job leaves the window with exactly the words generated beyond its first half |
| `ZucJob.RemainderSteps` | lib/avx512/zuc_avx512_top.c:829-839 | with exactly the words that the rest of the common length asks for, the remainder brings a lane in range to the state the call promises |
| `ZucJob.BitsLeft` | lib/avx512/zuc_avx512.asm:1708-1723 | what the signed test leaves of a lane: the difference, or nothing if the lane ends or is 32768 bits or more beyond the rounded common length |
| `ZucJob.RunningEnds` | lib/avx512/zuc_avx512.asm:1708-1723 | the signed 16-bit comparison of the remainder: a call does to a lane what it is to do if and only if the lane is less than 32768 bits longer than the rounded common length; otherwise it reports the job complete |
| `ZucJob.LongJobIsCutShort` | lib/avx512/zuc_avx512.asm:1708-1723 | a job of 32832 bits, valid and just submitted, beside one of 32 bits: whatever a call leaves of it has length 0 and is not what the call is to do |
| `ZucJob.ZucOoo.Submit` | lib/avx512/mb_mgr_zuc_submit_flush_avx512.asm:537-569 | a new job in a free lane: length, zero digest, initialization pending; other lanes unchanged |
| `ZucJob.ZucOoo.Complete` | lib/avx512/mb_mgr_zuc_submit_flush_avx512.asm:622-639 | a lane with nothing left holds the finished MAC of its job; taking it out frees the lane and leaves its length at 0 |
| `ZucJob.ZucOoo.MarkFreeLanes` | lib/avx512/mb_mgr_zuc_submit_flush_avx512.asm:711-722 | a flush gives the free lanes the length 0xFFFF and touches no job |
| `ZucJob.ZucOoo.FirstWords` | lib/avx512/zuc_avx512_top.c:777-790 | two new words for new jobs, the saved two for resumed ones |
| `ZucJob.ZucOoo.Round` | lib/avx512/zuc_avx512_top.c:822-823 | contract of the shared round: window, data position, length and digest of every job; the data pointers of free lanes move too |
| `ZucJob.ZucOoo.Remainder` | lib/avx512/zuc_avx512_top.c:829-839 | contract of the remainder for every job, free lanes untouched, and the last two words of every lane saved for the next call |
| `ZucJob.ZucOoo.CommonLength` | lib/avx512/zuc_avx512_top.c:763-764 | the smallest length of the jobs; free lanes never decide it |
| `ZucJob.ZucOoo.SharedRounds` | lib/avx512/zuc_avx512_top.c:808-828 | exact keystream budget: at the loop head window words plus pending `L` are ceil(remaining/32) + 2, every request is for 1 to 16 words, and the remainder sees exactly what it needs |
| `ZucJob.ZucOoo.Call` | lib/avx512/zuc_avx512_top.c:757-845 | one call advances every job by the common length rounded up to words, and its generator by ceil(common/32) words, two more for a new job; jobs that this completes have the specification's MAC, the others are suspended with their next two words: exactly if they are in range; free lanes stay free, and the shortest job completes |
| `ZucJob.TwoCallsAreOne` | lib/avx512/zuc_avx512_top.c:781-791 | a call of c1 bits, c1 a multiple of 32, and one of c2 bits leave digest, length, position, place and saved words as one call of c1 + c2 bits does |
| `ZucJob.RunEnds` | lib/avx512/zuc_avx512_top.c:757-845 | over any run of calls that find it in range a job has used up what its calls had in common, its generator stands two words further, and it ends with the MAC of its whole message |
| `ZucJob.RunsAgree` | lib/avx512/zuc_avx512_top.c:781-791 | however the message is cut into calls, the state depends on the bits covered only |
| `ZucEea3.CipheredIsEea3` | lib/avx/zuc_avx_top.c:64-118 | what every driver leaves in an output buffer is the cipher of the input, and the bytes after it as before |
| `ZucEea3.XorKeyStream` | lib/avx/zuc_avx_top.c:80-84 | contract of the XOR primitive, in place or not |
| `ZucEea3.XorThroughTemporaries` | lib/avx/zuc_avx_top.c:99-112 | the last bytes by way of temporaries: no byte beyond them is written |
| `ZucEea3.CipherChunk` | lib/avx/zuc_avx_top.c:75-85 | one chunk enciphered with the keystream at its own position |
| `ZucEea3.CipherAlone` | lib/avx/zuc_avx_top.c:75-118 | the single-buffer loop from any word-aligned point: whole chunks, then the rest |
| `ZucEea3.Eea3OneBuffer` | lib/avx2/zuc_avx2_top.c:109-182 | output is input XOR keystream prefix for every length; chunks of 16, 32 and 64 bytes agree |
| `ZucEea3.CipherLanes` | lib/avx2/zuc_avx2_top.c:227-228 | contract of the multi-lane cipher: the common part of every lane, `remainBytes` and the generators |
| `ZucEea3.FinishLane` | lib/avx2/zuc_avx2_top.c:230-314 | a lane's rest continues its keystream where the shared part stopped |
| `ZucEea3.Eea3Lanes` | lib/avx2/zuc_avx2_top.c:184-323 | 4, 8 and 16 lanes: every buffer of the batch becomes what a single run makes of it, and no other buffer changes |
| `ZucNBuffer.CommonOf` | lib/avx512/zuc_avx512_top.c:273 | the smallest length of a batch |
| `ZucNBuffer.Eea3NBuffersAvx512` | lib/avx512/zuc_avx512_top.c:473-513 | batches of 16, 8, 4, 1 visit every index once, in order, and stay within the buffers |
| `ZucNBuffer.Eea3NBuffersAvx` | lib/avx/zuc_avx_top.c:378-397 | the same for batches of 4, 1 |
| `ZucNBuffer.Eea3NBuffersAvx2` | lib/avx2/zuc_avx2_top.c:388-417 | the same for batches of 8, 4, 1 |
| `ZucNBuffer.Eea3NBuffers` | lib/avx512/zuc_avx512_top.c:439-544 | the whole call enciphers each buffer exactly as one buffer alone |
| `ZucNBuffer.Eia3NBuffersAvx` | lib/avx/zuc_avx_top.c:855-874 | every output is the MAC of its own buffer |
| `ZucNBuffer.Eia3NBuffersAvx2` | lib/avx2/zuc_avx2_top.c:844-873 | every output is the MAC of its own buffer |
| `ZucNBuffer.ExactIff` | lib/avx512/zuc_avx512_top.c:637-714 | a buffer is exact if and only if it is outside the batches of 16, or the smallest length of its batch is 0, no multiple of 512 bits or its own length |
| `ZucNBuffer.ExactIsRight` | lib/avx512/zuc_avx512_top.c:637-714 | the MAC over the keystream a lane saw is the MAC of the specification when the buffer is outside the batches of 16 or complete in its batch |
| `ZucNBuffer.Eia3NBuffersAvx512` | lib/avx512/zuc_avx512_top.c:894-933 | every output is its own buffer's MAC over the keystream the driver gave it, which is the specification's MAC outside the batches of 16 and for every complete buffer in them; nothing beyond the buffers is written |
| `DesBlock.SwapBit` | lib/des_basic.c:39-47 | a delta swap bit by bit, for any shift and mask |
| `DesBlock.SwapLaws` | lib/des_basic.c:39-47 | the delta swaps in use are their own inverses and commute with complement |
| `DesBlock.FpUndoesIp` | lib/des_basic.c:49-69 | `fp_z` with its arguments exchanged undoes `ip_z` |
| `DesBlock.IpUndoesFp` | lib/des_basic.c:49-69 | and the other way round |
| `DesBlock.RoundsWalkBack` | lib/des_basic.c:422-456 | the rounds with reversed keys, from the exchanged halves, walk the rounds back step by step |
| `DesBlock.BlockInverse` | lib/des_basic.c:413-460 | decryption undoes encryption and encryption undoes decryption, for every block, round function and key schedule of any length |
| `DesBlock.PalindromicSchedule` | lib/des_basic.c:422-456 | a schedule that reads the same both ways makes encryption its own inverse |
| `DesBlock.EncDec1` | lib/des_basic.c:413-460 | the sixteen unrolled steps on l and r are the Feistel network, with the half swap in the order of the pointers |
| `DesBlock.EPhaseBit` | lib/des_basic.c:75-99 | the expansion bit by bit: six cyclically consecutive bits in each byte, its two high bits clear |
| `DesBlock.EPhaseFlips` | lib/des_basic.c:75-99 | complementing the half flips every bit of every group |
| `DesBlock.RoundFunctionComplement` | lib/des_basic.c:381-411 | with the key word flipped too the round function does not change, for any S-boxes |
| `DesBlock.BlockComplement` | lib/des_basic.c:381-460 | complementing the block and flipping the key schedule complements the output, in both directions |
| `DesFips.IpIsInitial` | lib/des_basic.c:49-58 | `ip_z` is the initial permutation: every bit of both halves is the bit of the block that table IP of FIPS 46-3 says |
| `DesFips.FpIsFinal` | lib/des_basic.c:60-69 | `fp_z` is the final permutation, table IP^-1, of the exchanged halves |
| `DesFips.FrkIsF` | lib/des_basic.c:381-411 | `fRK` with combined tables is the cipher function f(R, K): expansion, S-boxes on groups of six, permutation P |
| `DesFips.TablesExist` | lib/des_basic.c:395-410 | any S-boxes and any P have combined tables |
| `DesFips.BlockIsCipher` | lib/des_basic.c:413-460 | `enc_dec_1` is the cipher of FIPS 46-3 on bit strings, for any S-boxes, P and keys, and with the keys reversed the deciphering |
| `DesFips.PC1CAt` | lib/des_key.c:76-81 | the table for C is that of FIPS 46-3, entry by entry, and the first half of a closed form |
| `DesFips.PC1DAt` | lib/des_key.c:83-88 | the table for D likewise |
| `DesFips.PC2At` | lib/des_key.c:90-99 | permuted choice 2 is that of FIPS 46-3, entry by entry |
| `DesFips.ShiftsAreStandard` | lib/des_key.c:101-104 | one left shift in rounds 1, 2, 9 and 16, two in the others |
| `DesFips.ScheduleIsKS` | lib/des_key.c:106-151 | the filled schedule is KS of FIPS 46-3, with the standard's own tables: permuted choice 1, left shifts, permuted choice 2 |
| `DesFips.DesIsFips` | lib/des_key.c:106-151 | from key and block bytes to result bytes the code computes the enciphering and the deciphering of FIPS 46-3 |
| `DesModes.CbcRoundTrip` | lib/des_basic.c:484-485 | CBC decryption undoes encryption on every sequence of blocks, for any invertible block function |
| `DesModes.XorDoubleBit` | lib/des_basic.c:485 | combining two blocks is XOR, bit by bit in the numbering of FIPS 46-3 |
| `DesModes.CbcOneBlock` | lib/des_basic.c:484-485 | one block is combined with the initialization vector and enciphered; a zero block gives the enciphered vector |
| `DesModes.CbcVectorSpread` | lib/des_basic.c:516-521 | a changed initialization vector changes exactly its bits in the first plaintext block, and no other block |
| `DesModes.CbcConcat` | lib/des_basic.c:484-485 | encrypting a concatenation is encrypting its parts with the last block chained |
| `DesModes.CbcErrorSpread` | lib/des_basic.c:516-521 | a changed ciphertext block changes at most its own plaintext block and the next, and that one exactly by the change |
| `DesModes.DesInverse` | lib/des_basic.c:462-527 | DES decryption and encryption are inverse block functions |
| `DesModes.TripleIsFips` | lib/des_basic.c:555-562 | the triple is encipher, decipher, encipher of FIPS 46-3 under the first, second and third key |
| `DesModes.Des3Inverse` | lib/des_basic.c:555-606 | so are the two triples |
| `DesModes.Des3WithEqualKeys` | lib/des_basic.c:555-562 | with ks1 == ks2, CBC 3DES is CBC DES under ks3 on every buffer |
| `DesModes.DesEncCbc` | lib/des_basic.c:462-492 | the loop leaves the CBC encryption of the input's words and nothing else changed, also in place |
| `DesModes.DesDecCbc` | lib/des_basic.c:494-527 | the same for decryption |
| `DesModes.Des3EncCbc` | lib/des_basic.c:529-568 | the same for 3DES encryption |
| `DesModes.Des3DecCbc` | lib/des_basic.c:570-612 | the same for 3DES decryption |
| `DesModes.BufferRoundTrip` | lib/des_basic.c:462-612 | encrypting one buffer into a second and that into a third restores the words, whichever of the three coincide |
| `DesModes.Shr8Byte` | lib/des_basic.c:637-640 | shifting the CFB block moves each byte down one place |
| `DesModes.XorPiece` | lib/des_basic.c:638-655 | one access of 1, 2 or 4 bytes |
| `DesModes.CfbOne` | lib/des_basic.c:614-662 | 1, 2 and 4 byte accesses with shifts in between combine each byte with the block's byte at its own position; nothing is written for size 8 |
| `DesModes.CfbTwice` | lib/des_basic.c:614-662 | CFB of the last bytes is its own inverse |
| `DesModes.DocsisRoundTrip` | lib/des_basic.c:664-750 | DOCSIS decryption undoes encryption for every number of bytes, with or without whole blocks and residue |
| `DesModes.DocsisBufferRoundTrip` | lib/des_basic.c:664-750 | the contracts of the two DOCSIS loops composed: any number of bytes comes back, whichever of the three buffers coincide |
| `DesModes.DocsisTail` | lib/des_basic.c:689-696 | the last ciphertext word stands for the initialization vector over the remaining bytes, in both directions |
| `DesModes.DocsisShort` | lib/des_basic.c:694-695 | with no whole word each bit of the bytes is combined with the bit of the enciphered vector in its place |
| `DesModes.DocsisDesEnc` | lib/des_basic.c:664-702 | exactly `size` bytes become the DOCSIS encryption of the input, also in place |
| `DesModes.DocsisDesDec` | lib/des_basic.c:704-750 | the same for decryption, where the residue is done before the ciphertext block it depends on is overwritten |
| `DesKey.BitSetBits` | lib/include/des_utils.h:60-67 | setting bit n sets that bit and no other |
| `DesKey.Permute64b` | lib/include/des_utils.h:82-99 | output bit i is input bit pattern[i] - 1, the bits past the pattern are clear |
| `DesKey.ReflectBit` | lib/include/des_utils.h:101-116 | the nibble table reverses the bits of a byte |
| `DesKey.LoadBit` | lib/include/des_utils.h:118-131 | the loaded word has key bit k, in the numbering of FIPS 46-3, as its bit k - 1 |
| `DesKey.RotatedBit` | lib/des_key.c:46-54 | rotating by 1 or 2 moves every bit that many places round the 28 |
| `DesKey.ExpandBit` | lib/des_key.c:63-74 | bit b of byte g is bit b of six-bit group g, and the other two bits are clear |
| `DesKey.ScheduleWord` | lib/des_key.c:137-142 | permuted choice 2 and expansion of the rotated halves put each key bit where FIPS 46-3 has it |
| `DesKey.DesKeySchedule` | lib/des_key.c:106-151 | each of the 16 words, bit by bit, as key bits in closed form: PC2, then the total rotation, then PC1 |
| `DesKey.FullTurn` | lib/des_key.c:101-104 | the sixteen rotations add up to 28 and restore both halves |
| `DesKey.ParityIsIgnored` | lib/des_key.c:123-129 | the schedule is a function of the 56 bits that are not parity bits |
| `DesKey.ScheduleComplement` | lib/des_key.c:106-151 | complementing the key flips exactly the 0x3f bits of every schedule byte |
| `DesKey.DesComplementation` | lib/des_key.c:106-151 | the complementation property from key bytes to block |
| `DesKey.WeakKey` | lib/des_key.c:106-151 | a key whose halves are each constant makes encryption its own inverse |
| `Sha.PaddingInjective` | lib/sha_one_block.c:273-285 | different messages have different padded forms |
| `Sha.DriverPadsByFips` | lib/sha_one_block.c:285 | the 64-bit length `length * 8` is the FIPS 180-4 length field always for 8-byte fields, and for 16-byte fields if and only if the length is below 2^61 |
| `Sha.LongMessageDiffers` | lib/sha_one_block.c:285 | a concrete length at which the 16-byte field differs |
| `Sha.PaddedLength` | lib/sha_one_block.c:273-286 | the padded message is floor((length + pad) / blk) + 1 blocks |
| `Sha.ByteOfValue` | lib/sha_one_block.c:285 | the byte of a number stands for it, by the weights of its bits |
| `Sha.BigEndianValue` | lib/sha_one_block.c:285 | the digits of a number stand for its remainder modulo the power of 256 |
| `Sha.HashSizes` | lib/sha_one_block.c:233-246 | digests, blocks and length fields have the sizes of FIPS 180-4 |
| `Sha.Store8Be` | lib/sha_one_block.c:66-77 | one 64-bit store of the swapped word writes the number most significant byte first |
| `Sha.VarMemcpy` | lib/sha_one_block.c:79-88 | exactly the given bytes are copied |
| `Sha.CopyBswap4Array` | lib/sha_one_block.c:90-99 | 32-bit words written most significant byte first, and nothing after them |
| `Sha.CopyBswap8Array` | lib/sha_one_block.c:101-110 | 64-bit words likewise |
| `Sha.WriteDigest` | lib/sha_one_block.c:233-246 | the leading 5, 7, 8, 6 or 8 words of the chaining value, big-endian |
| `Sha.LoopEndsIff` | lib/sha_one_block.c:270 | in 64-bit arithmetic the loop over the blocks can end if and only if the length is more than a block below 2^64 |
| `Sha.FirstBlock` | lib/sha_one_block.c:270-271 | a whole block of data is the first block of the padded message |
| `Sha.AbsorbLast` | lib/sha_one_block.c:273-286 | one block, or two when the length field does not fit, absorb the padded form of what is left |
| `Sha.LastCalls` | lib/sha_one_block.c:273-286 | the reused block buffer holds exactly those blocks, and their number |
| `Sha.ShaGeneric` | lib/sha_one_block.c:248-298 | the digest is the compression folded over the padded message, that of FIPS 180-4 below 2^61 bytes, with exactly floor((length + pad) / blk) + 1 calls |
| `ChaPoly.PolyConcat` | lib/chacha20_poly1305.c:50-83 | Poly1305 over whole blocks can be cut anywhere between blocks |
| `ChaPoly.AeadUpdate` | lib/poly1305.asm:474-553 | contract of an update: whole blocks, then what is left with zeros after it |
| `ChaPoly.StagedUpdates` | lib/chacha20_poly1305.c:50-83 | the three updates are one polynomial over pad16(AAD), pad16(text) and both lengths |
| `ChaPoly.MacDataInjective` | lib/chacha20_poly1305.c:77-83 | different pairs of AAD and text are authenticated as different strings |
| `ChaPoly.EmptyTag` | lib/chacha20_poly1305.c:39 | the accumulator begins with three zero words |
| `ChaPoly.Length8Value` | lib/chacha20_poly1305.c:81-83 | the length words are little-endian |
| `ChaPoly.CipherBit` | lib/chacha20_poly1305.c:65-70 | the cipher is XOR with the keystream, bit by bit |
| `ChaPoly.BothCompleted` | lib/chacha20_poly1305.c:91 | both completion bits are set, and no other bit of the status changes |
| `ChaPoly.OpenSealed` | lib/chacha20_poly1305.c:54-86 | opening what was sealed gives the plaintext and the same tag |
| `ChaPoly.SealThenOpen` | lib/chacha20_poly1305.c:35-93 | an opening job on the output of a sealing job restores its input and gives the same tag, each in place or not |
| `ChaPoly.Job.Chacha20` | lib/chacha20_poly1305.c:61-70 | contract of the cipher call, in place or into other memory |
| `ChaPoly.Job.AeadChacha20Poly1305` | lib/chacha20_poly1305.c:35-93 | hash before cipher on decryption and after it on encryption: the tag is over the ciphertext in both, also when the output overwrites the input; completion bits set |
| `Md5.SameMix` | lib/md5_one_block.c:45-48 | F1 to F4 are F, G, H and I of RFC 1321 |
| `Md5.RotateIsRotl` | lib/md5_one_block.c:33-38 | the macro is rotation for all sixteen amounts |
| `Md5.NextBits` | lib/md5_one_block.c:50-54 | counting on 32-bit words, bit by bit |
| `Md5.PlusCounts` | lib/md5_one_block.c:50-54 | addition is repeated counting |
| `Md5.FirstRegisters` | lib/md5_one_block.c:40-43 | the registers begin with the sixteen bytes of RFC 1321, low-order first |
| `Md5.Constants1` | lib/md5_one_block.c:99-128 | the constants of round 1, one for each line (and likewise `Constants2` to `Constants4`) |
| `Md5.Indices2` | lib/md5_one_block.c:129-144 | the words of round 2 by the formula of the loop (and likewise for the other rounds) |
| `Md5.FourLines` | lib/md5_one_block.c:50-69 | four lines of the code are four steps of the loop, after which the registers are back in place |
| `Md5.Round1From0` | lib/md5_one_block.c:96-106 | words of the block are loaded before they are used (this and the next three) |
| `Md5.Round1From4` | lib/md5_one_block.c:107-114 | lines 5 to 8 |
| `Md5.Round1From8` | lib/md5_one_block.c:115-122 | lines 9 to 12 |
| `Md5.Round1From12` | lib/md5_one_block.c:123-128 | lines 13 to 16 |
| `Md5.Md5OneBlock` | lib/md5_one_block.c:91-181 | the unrolled block is the 64-step loop of RFC 1321 with the initial registers added |
| `Md5.StepsBijective` | lib/md5_one_block.c:99-176 | for a fixed block any number of steps is a bijection on the registers, with its inverse |

## Left out

- ZucJob.ZucOoo.Remainder: the tag of a lane that is cut short is a parameter, because the primitive then reads past its window.
- ZucJob.ZucOoo.Round: the digests that the round leaves in free lanes are a parameter; nothing reads them, and a submission clears them.
- ZucKernels.ZucState.GenKeystream: generators are positions in an arbitrary keystream; the LFSR, the registers R1 and R2 and their initialization are not modelled.
- DesModes.DocsisDesEnc: a buffer is its whole words followed by 0 to 7 bytes, so input and output either coincide or are different buffers; overlapping at a distance is not modelled. The same holds for all CBC loops.
- Sha.ShaGeneric: initial values and compression functions are parameters. Lengths at which the loop over the blocks has no end (`Sha.LoopEndsIff`) are excluded.
- Md5.Md5OneBlock: one C function is split at its rounds, and the first round at every fourth line; the block is given as its sixteen little-endian words.
- ChaPoly.Job.AeadChacha20Poly1305: the arithmetic of Poly1305 and the ChaCha20 block are parameters of the key.
- Md5.RotateIsRotl: for the amounts in use only.
- S-box contents, SHA initial values and the numerical origin of the MD5 constants: finite tables.
- Job managers, apart from a ZUC lane's submission and completion; flushing and the choice of lanes.
- SAFE_DATA clearing, SAFE_PARAM checks, saving of vector registers, alignment, constant-time lookup: no effect on results.
- KASUMI, SNOW3G, GCM, AES-XCBC, CPU detection and the performance tool.
