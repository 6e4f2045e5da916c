# Caching, ciphers and audio streams of an embedded kernel, in Dafny

This project models six components of the NuttX kernel whose correctness is decided by the code itself, and
proves what they promise for every input, every state or every run.

| component | source | files |
|---|---|---|
| read-ahead / write buffer between a client and a block driver | drivers/rwbuffer.c | RwSpec, RwRuns, RwQuiet, RwBuffer, RwInvalidate, Memory |
| AES-128 with fused in-place rounds | crypto/aes.c | AesField, AesSbox, AesSpec, Aes, AesExample |
| BLAKE2s, streaming and one-call | crypto/blake2s.c | Blake2sSpec, Blake2sInverse, Blake2sStream, Blake2s, Blake2sExample |
| entropy pool and the BLAKE2Xs generator | crypto/random_pool.c | PoolSpec, PoolStirring, RngSpec, RandomPool, Arithmetic |
| PCM/WAV decoder with in-place sub-sampling | audio/pcm_decode.c | PcmSpec, PcmStream, Pcm |
| composite audio device | audio/audio_comp.c | AudioComp |

`dafny verify dfyconfig.toml` checks all of it. A file that ends in `Spec`, and `RwRuns`, `RwQuiet`,
`PcmStream`, `Blake2sStream`, hold the reference definitions and the theorems about them; the other files hold the
code as classes and methods on arrays, each method tied to a reference definition. Standards are stated
independently of the code: FIPS 197 in AesSpec and AesSbox, RFC 7693 in Blake2sSpec. The constants and positions in
those statements are fixed by worked examples, proved round by round in AesExample and Blake2sExample.

How things are represented:

- A block of the block device is a value of a type parameter, so the buffers are arrays of blocks and byte
  offsets are block offsets. A callback transfers every block it is asked for, or fails and transfers nothing.
- Concurrency is a state machine. A `Step` is one section between two lock operations, and `RwRuns` quantifies
  over every sequence of them, of any number of clients. `Alone` is what one client guarantees besides: no other
  client's read or write comes between its own sections. Each method of `RwBuffer.Buffer` is that one client; it
  records its steps in `history` and lets the worker's timeout come in between any two of them, and between
  serving from the window and reloading it, while `wrsem` is free and a block may be dirty (`MayTimeOut`). A run of
  one client is good when no flush failed and each flush found the two buffers in agreement where they overlap.
  `timeouts` counts the timeouts that came, and `RwQuiet` gives the whole new state of a call that none disturbs.
  Whether a callback may fail inside the media is a property of the device (`reliable`).
- Words and bytes of the ciphers are bit vectors. The 64-bit BLAKE2s counter is two integers below 2^32 with the
  source's carry, and 32-bit node offsets wrap explicitly. The `uint8_t` truncation of `skip` is explicit.
- What a lower device, a driver callback or the clock answers is a parameter or a non-deterministic choice.
- A pointer that may be null is a nullable array; a pointer into the middle of a buffer is an index.

Promises that the code does not keep in general are stated with the exact condition and a witness:

- Flushing does not reset the read-ahead window, and a reload may read media that lies under dirty blocks. With
  one client the window stays coherent exactly when at each flush both buffers agree where they overlap
  (`CoherentExactlyWhenFlushesAgree`), for instance when no reload reads a dirty block (`MissingReloadsAgree`);
  `StaleRead` and `StaleReadInCode` go wrong. A client that flushes what it wrote before it reads is safe, whatever
  times out (`ExecuteOrderly`).
- `rwb_write` gives `rhsem` back before it writes, so another client's read may load the blocks again. For any
  number of clients the window stays coherent exactly when every section finds what `Agrees` says
  (`CoherentExactlyWhenAllAgree`); `TwoClientStaleRead` goes wrong.
- `rwb_write` of more blocks than the buffer holds gives `wrsem` back between its flush and its transfer. Its
  blocks show exactly when no other contents were buffered for them meanwhile (`PlainExactlyWhenAllShow`,
  `HiddenWrite`), and it then overtakes what was buffered (`StepConservesExactlyWhen`).
- `rwb_invalidate_readahead` keeps the wrong number of blocks when the window ends inside the region
  (`RegionGoneExactlyWhen`).
- The gap between two kept samples is stored in eight bits; the filter is the intended one exactly when the gap
  is below 256 (`IntendedExactlyWhenGapFits`), which holds for all rates and formats the driver announces.
- Neither end of a stream resets the sub-sampling phase, so the next stream is filtered as a continuation
  (`NextStreamContinues`, `SameSizeContinues`), and as a new stream exactly when the first was a whole number of periods
  (`FreshStartExactlyWhen`).
- A phase left by longer samples may not fit shorter ones: the copy that completes a partial sample then runs
  2^32 bytes, and samples of no bytes keep the loop from ending. The filter comes to an end inside its window
  exactly when the partial sample is not longer than a sample, and samples have bytes or the window lies in a gap
  (`RunsToEndExactlyWhen`); which headers may follow which streams is `NextHeaderFitsExactlyWhen`;
  `LeftoverOverruns` and `NoBytesNeverEnds` are inputs that go wrong.
- Node offsets of the generator repeat exactly when a call does not find room for its blocks among the 2^32 of
  the current root (`OneCallExactlyWhen`, `NeverRepeatsExactlyWhen`). The offset itself does not tell: a call that
  uses the last one leaves zero without a reseed (`WrapRepeats`).
- After a failed start, the devices that stay up are exactly those that came up and provide no undo
  (`NoneLeftUpExactlyWhen`).

`pcm_parsewav` returns `-EINVAL` from a function of type `bool` for a format it cannot sub-sample, which the
caller reads as success. The model follows the code: such a format is accepted. Its DEBUGASSERT on the sample
size is taken as compiled out.

## Model

| member | source | states |
|---|---|---|
| RwSpec.OverlapMeansSharing | drivers/rwbuffer.c:123-140 | for non-empty runs the overlap test holds iff the runs share a block; an empty first run overlaps exactly the runs that reach strictly around it |
| RwSpec.FlushKeepsImage | drivers/rwbuffer.c:166-189 | writing the dirty run out and resetting it leaves the array of blocks that a client sees unchanged |
| RwSpec.BufferedWrites | drivers/rwbuffer.c:253-306 | a buffered write changes exactly the blocks it names to the given contents, whether or not it flushes first, and the run stays within its capacity |
| RwSpec.DirectWritesExactlyWhen | drivers/rwbuffer.c:991-1023 | a write straight to the media changes exactly the blocks it names iff every dirty block among them already holds what is written |
| RwSpec.LossShowsExactlyWhen | drivers/rwbuffer.c:166-189 | dropping the run leaves what a client sees unchanged iff the media already holds the run |
| RwSpec.CoherentExactlyWhenWindowOk | drivers/rwbuffer.c:793-939 | every block reads as its current contents iff the window equals the media on every block outside the dirty run |
| RwSpec.FlushKeepsWindowExactlyWhen | drivers/rwbuffer.c:166-189 | a flush keeps the window coherent iff the window already holds the dirty contents of the dirty blocks in it; disjoint buffers satisfy this |
| RwSpec.OverlapCanGoStale | drivers/rwbuffer.c:166-189 | whenever a dirty block is in the window, some contents of the same shape are coherent before the flush and stale after it |
| RwSpec.BufferedKeepsWindowExactlyWhen | drivers/rwbuffer.c:268-284 | a buffered write, wherever the window is, keeps it coherent iff, in case it flushes, the two buffers agree where they overlap outside the blocks written |
| RwSpec.DirectKeepsWindowExactlyWhen | drivers/rwbuffer.c:991-1023 | a direct write keeps the window coherent iff the window already holds it on the blocks that are not dirty |
| RwSpec.LossKeepsWindowExactlyWhen | drivers/rwbuffer.c:166-189 | dropping the run keeps the window coherent iff the window holds the media under the run |
| RwSpec.InvalidateKeepsWindow | drivers/rwbuffer.c:560-662 | in all five cases the surviving window stays on the media and coherent |
| RwRuns.StepKeepsShape | drivers/rwbuffer.c:147-410 | every section keeps wrnblocks and rhnblocks within their maxima, wrexpectedblock at the end of the run and the window on the media |
| RwRuns.StepWritesExactlyWhen | drivers/rwbuffer.c:147-410 | a section of any client changes what is seen by exactly its own write, if it is one, iff it is not a direct write under other dirty contents nor the loss of a run the media lacks |
| RwRuns.StepKeepsWindowExactlyWhen | drivers/rwbuffer.c:166-410 | one section of any client keeps the window coherent iff it finds what Agrees states for it |
| RwRuns.PlainExactlyWhenAllShow | drivers/rwbuffer.c:166-1143 | over every run of any number of clients, media overlaid with the dirty run is at every lock boundary the plain array after the same writes iff every section finds what Shows states |
| RwRuns.CoherentExactlyWhenAllAgree | drivers/rwbuffer.c:166-1143 | over every run of any number of clients, failed flushes included, the window is coherent at every lock boundary iff every section finds what Agrees states |
| RwRuns.CoherentExactlyWhenFlushesAgree | drivers/rwbuffer.c:166-1143 | with one client and no failed flush, iff each flush finds the two buffers in agreement where they overlap |
| RwRuns.MissingReloadsAgree | drivers/rwbuffer.c:362-410 | with one client, if no reload reads a dirty block then every flush does |
| RwRuns.RunRefinesPlainArray | drivers/rwbuffer.c:166-1143 | after every run of any number of clients whose sections find both, each block reads as the last value written to it |
| RwRuns.OneClientRefinesPlainArray | drivers/rwbuffer.c:166-1143 | with one client and no failed flush, agreement at the flushes is enough for that |
| RwRuns.InterleavedRead | drivers/rwbuffer.c:874-939 | whatever any number of clients do between a read's look at the dirty run and its fetch, it delivers contents the block held at some moment in between or a concurrent direct write put there |
| RwRuns.InterleavedReadOfShown | drivers/rwbuffer.c:874-939 | if every section shows its write, always contents the block held at some moment in between |
| RwRuns.HiddenWriteFetched | drivers/rwbuffer.c:874-999 | otherwise a read may deliver what a direct write put under a block buffered meanwhile, which no client ever sees there |
| RwRuns.NoReadAheadAgrees | drivers/rwbuffer.c:793-868 | with rhmaxblocks zero the flushes agree in every run |
| RwRuns.NoWriteBufferAgrees | drivers/rwbuffer.c:1015-1023 | with wrmaxblocks zero the flushes agree in every run and no write can be lost |
| RwRuns.StaleRead | drivers/rwbuffer.c:166-410 | one client: a write, a read that loads ahead over the dirty block and a timeout, after which the block reads as before the write |
| RwRuns.TwoClientStaleRead | drivers/rwbuffer.c:951-1023 | two clients without a write buffer: a reload between the two sections of a write, after which the block reads as before the write although all flushes agree |
| RwRuns.HiddenWrite | drivers/rwbuffer.c:988-999 | two clients: blocks buffered between the flush and the transfer of a large write hide it |
| RwRuns.StepConservesExactlyWhen | drivers/rwbuffer.c:166-306 | a section that loses no run conserves the (block, contents) pairs, and their order iff it is not a direct write overtaking other dirty contents |
| RwRuns.ConservationOfBlocks | drivers/rwbuffer.c:166-1026 | over every run of any number of clients without a failed flush, the pairs accepted are those handed to the media and those in the dirty run, each as often |
| RwRuns.Conservation | drivers/rwbuffer.c:166-1026 | and in the same order when no write overtakes another, which one client never does |
| RwQuiet.LoadedWindow | drivers/rwbuffer.c:793-868 | reading through the window moves only the window: not at all if it holds every block, else to a full reload from a block of the request on that holds the last one |
| RwQuiet.AfterWriteImage | drivers/rwbuffer.c:946-1026 | on each path of a write the client's view is updated by exactly the blocks written |
| RwQuiet.MediaSparedExactlyWhen | drivers/rwbuffer.c:253-306 | which writes join the run, which replace it after a flush, and which bypass it |
| RwQuiet.WrittenOutDisjoint | drivers/rwbuffer.c:946-1026 | a write that finds the window clear of its blocks and of the dirty run leaves it so, and its flush agrees |
| RwBuffer.Buffer.WrFlush | drivers/rwbuffer.c:166-214 | leaves nothing dirty; the media changes at most on the dirty blocks, the window not at all, and the client's view only when the callback failed; on media that never fails the run is written out, and a good run stays good iff the buffers agree |
| RwBuffer.Buffer.MayTimeOut | drivers/rwbuffer.c:197-214 | a timeout flushes at most; none leaves everything as it is; with nothing dirty, or no dirty block in the window, it is harmless |
| RwBuffer.Buffer.WriteBuffer | drivers/rwbuffer.c:253-306 | on success exactly the section BufferWrite: the client's view is updated by the blocks, and a good run stays good iff a flush it needs finds the buffers in agreement; on a failed flush nothing changes; it succeeds if the dirty run lies on media that never fails |
| RwBuffer.Buffer.ClearOverlap | drivers/rwbuffer.c:951-979 | afterwards no block about to be written is in the window, and the client's view is unchanged |
| RwBuffer.Buffer.Write | drivers/rwbuffer.c:946-1026 | in a good run success updates the client's view by exactly the blocks written and failure leaves it unchanged, with a timeout possible in between; in any run the accepted writes are recorded in order; a write on media that never fails succeeds and leaves the dirty run on it; without a timeout a good run stays good iff its own flush, if it makes one, finds the cleared window in agreement, and the whole new state is AfterWrite; buffers with no block in common stay so |
| RwBuffer.Buffer.WriteOut | drivers/rwbuffer.c:981-1023 | the part of a write that takes wrsem: which of the three paths it takes and the state it leaves, and that only its own flush can spoil the run |
| RwBuffer.Buffer.RhReload | drivers/rwbuffer.c:362-410 | success loads the window so that it contains the block asked for, -ESPIPE exactly past the end and without effect, -EIO leaves the window empty |
| RwBuffer.Buffer.BufferRead | drivers/rwbuffer.c:328-354 | copies the asked blocks out of the window and changes nothing below or above them |
| RwBuffer.Buffer.ReadLoop | drivers/rwbuffer.c:798-852 | terminates although a pass may deliver nothing (remaining, then whether the window misses the next block), in a good run delivers the media contents of every block not dirty at entry, and succeeds for blocks on media that never fails; without a timeout a good run stays good, media and dirty run stay as they are and the window becomes that of Loaded |
| RwBuffer.Buffer.ReadAhead | drivers/rwbuffer.c:793-868 | in a good run success delivers n blocks of the media outside the dirty run, with or without a window, timeouts in between or not; it succeeds for blocks on media that never fails; only a timeout can spoil the run or touch the media or the dirty run |
| RwBuffer.Buffer.ReadDirty | drivers/rwbuffer.c:886-932 | in a good run delivers the blocks before the dirty run and the dirty ones as the client sees them, up to the end of the dirty run; what remains contains no dirty block; it succeeds for blocks on media that never fails, and under wrsem nothing spoils the run |
| RwBuffer.Buffer.Read | drivers/rwbuffer.c:874-939 | in a good run success delivers every block with the contents the client last wrote or the media held, although the dirty run may be flushed half way through, and nothing the client sees changes; it succeeds for blocks on media that never fails; without a timeout, and with nothing dirty in any case, a good run stays good; without a timeout media and dirty run are not touched and the whole new state is AfterRead |
| RwBuffer.Buffer.Flush | drivers/rwbuffer.c:1135-1143 | leaves nothing dirty and in a good run does not change what the client sees; on media that never fails it writes the run out, and a good run stays good iff the buffers agree |
| RwBuffer.Buffer.Execute | drivers/rwbuffer.c:874-1143 | any sequence of reads, writes and flushes with timeouts anywhere between answers like a plain array of blocks as long as the run is good, and none fails if all lie on media that never fails; then, if no timeout came, the run is good iff the flushes of the calls themselves, computed from the first state and the calls, find the buffers in agreement |
| RwBuffer.Buffer.ExecuteReliably | drivers/rwbuffer.c:874-1143 | with only one of the two buffers, on media that never fails: every in-range sequence of calls is answered like a plain array, every read with the last values written, and no call fails |
| RwBuffer.Buffer.ExecuteOrderly | drivers/rwbuffer.c:874-1143 | the same with both buffers, whatever times out, if the client flushes what it wrote before it reads |
| RwBuffer.Buffer.WriteBufferOnly | drivers/rwbuffer.c:874-1143 | without read-ahead a run is good iff no flush failed |
| RwBuffer.Buffer.ReadAheadOnly | drivers/rwbuffer.c:314-410 | without a write buffer every run is good, the window equals the media and the client sees the media |
| RwBuffer.Buffer.NothingLost | drivers/rwbuffer.c:166-306 | at any time the accepted writes are those handed to the media followed by the contents of wrbuffer |
| RwBuffer.StaleReadInCode | drivers/rwbuffer.c:166-410 | the sections of a write, a read, a timeout and a read, taken in this order on a fresh buffer over media that never fails: the block holds what was written, nothing is dirty, and the last read delivers what it held before |
| RwInvalidate.InvalidateReadahead | drivers/rwbuffer.c:560-662 | the window becomes the one of InvalidatedWindow as one more section of the run, which stays as good as it was; the result is OK in every case that assigns it |
| RwInvalidate.RegionGoneExactlyWhen | drivers/rwbuffer.c:580-655 | no block of the region survives iff the window does not end inside it or the part inside is no longer than the part before |
| RwInvalidate.OutsideKept | drivers/rwbuffer.c:580-655 | which blocks outside the region survive, in each case |
| AesField.TablesInverse | crypto/aes.c:58-99 | the two S-box tables are inverse permutations of the 256 bytes |
| AesSbox.SboxIsInverseThenAffine | crypto/aes.c:58-77 | every entry of g_sbox is the multiplicative inverse in GF(2^8) followed by the affine map of section 5.1.1 of FIPS 197 |
| AesField.Mul2Linear | crypto/aes.c:175-186 | doubling in GF(2^8) distributes over addition |
| AesField.FastRowIsMixRow | crypto/aes.c:256-291 | the code's one-doubling form of a row of MixColumns equals the products 2, 3, 1, 1 |
| AesInverse.MixColumnTwice | crypto/aes.c:433-469 | applying MixColumn twice is the "barreto" step |
| AesInverse.MixAfterBarreto | crypto/aes.c:433-505 | "barreto" followed by MixColumn is the inverse matrix 14, 11, 13, 9 of section 5.3.3 |
| AesInverse.MixColumnInverse | crypto/aes.c:256-291 | that matrix is the two-sided inverse of MixColumn |
| AesInverse.CipherInverse | crypto/aes.c:214-540 | for every key schedule the cipher and the inverse cipher undo each other, both ways |
| AesInverse.DecryptEncrypt | crypto/aes.c:563-594 | for every key and state decryption undoes encryption and encryption undoes decryption |
| Aes.AddSubShift | crypto/aes.c:223-255 | the fused row moves with their temporaries are AddRoundKey, SubBytes, ShiftRows |
| Aes.MixColumnsInPlace | crypto/aes.c:256-291 | the in-place column code is MixColumns |
| Aes.InvMixColumnsInPlace | crypto/aes.c:433-505 | the in-place "barreto" and column code is InvMixColumns |
| Aes.InvSubShiftAdd | crypto/aes.c:507-538 | the fused row moves are InvShiftRows, InvSubBytes, AddRoundKey |
| Aes.EncryptRounds | crypto/aes.c:214-344 | aes_encr in place computes the cipher of section 5.1 for every state and schedule |
| Aes.DecryptRounds | crypto/aes.c:371-540 | aes_decr in place computes the inverse cipher of section 5.3 for every state and schedule |
| Aes.RconIsPower | crypto/aes.c:103-106 | g_rcon holds the powers of x in GF(2^8) |
| Aes.ExpandKey | crypto/aes.c:129-159 | for every key the 176 bytes are the 44-word recurrence of section 5.2, which FirstWordOfRound and the example of appendix A.1 fix byte by byte |
| Aes.FirstWordOfRound | crypto/aes.c:139-145 | the first word of a round, byte by byte: the last word turned left by one byte and sent through g_sbox, with the power of x in its first byte, added to the word four before |
| AesExample.Key10 | crypto/aes.c:129-159 | the last round key of the example of appendix A.1 of FIPS 197, after Key1 to Key9 with the 36 words before it |
| Aes.PreviousKeyInverse | crypto/aes.c:139-158 | one round of the expansion is a bijection of round keys with an explicit inverse |
| Aes.RoundKeyDeterminesKey | crypto/aes.c:129-159 | keys that agree on any one round key are equal |
| Aes.EveryStateIsARoundKey | crypto/aes.c:129-159 | every 16 bytes are round key r of some key |
| Aes.Aes128.EncryptBlock | crypto/aes.c:563-569 | aes_encrypt replaces the state by the encryption of section 5 under the key, whatever g_expanded_key held |
| AesExample.CipherExample | crypto/aes.c:563-569 | the cipher text of appendix B of FIPS 197, after Round1 to Round9 with the states before it |
| Aes.Aes128.DecryptBlock | crypto/aes.c:588-594 | aes_decrypt replaces the state by the decryption under the key |
| Aes.EncryptThenDecrypt | crypto/aes.c:563-594 | encrypting and then decrypting in place restores the sixteen bytes |
| Blake2sSpec.StoreLoad | include/nuttx/crypto/blake2s.h:127-191 | storing a loaded little-endian word gives back its bytes |
| Blake2sSpec.SigmaPermutes | crypto/blake2s.c:71-83 | every round uses every message word |
| Blake2sExample.Round10 | crypto/blake2s.c:71-83 | the working vector after the tenth round for the block 00 01 .. 3f, whose sixteen words differ, after Round1 to Round9 with the vectors before it |
| Blake2sExample.DigestExample | crypto/blake2s.c:556-606 | the unkeyed digest of 32 bytes of the message 00 01 .. 3f is 56f34e8b 96557e90 .. b8eaaa3e |
| Blake2sSpec.IvFromPrimes | crypto/blake2s.c:65-69 | the constants, with their integer parts, are the square roots of the first eight primes to 32 bits |
| Blake2sSpec.IvIsRoots | crypto/blake2s.c:65-69 | the initialisation vector is their fractional parts |
| Blake2sInverse.MixInverse | crypto/blake2s.c:214-224 | G on four words has a two-sided inverse for every pair of message words |
| Blake2sInverse.GInverse | crypto/blake2s.c:214-224 | so has G at any four positions of the working vector |
| Blake2sInverse.RoundsInverse | crypto/blake2s.c:226-248 | for a fixed block any number of rounds is a bijection of the working vector with an explicit inverse |
| Blake2sInverse.RoundsInjective | crypto/blake2s.c:241-248 | the ten rounds map different vectors to different vectors |
| Blake2sStream.CountsModulo | crypto/blake2s.c:171-175 | two words and a carry count modulo 2^64 |
| Blake2sStream.CompressedIsF | crypto/blake2s.c:187-272 | a compression with its counter and flag words is F of section 3.2 of RFC 7693 |
| Blake2sStream.UpdatedTwice | crypto/blake2s.c:466-503 | two updates equal one update with the concatenation, for h, t, f and the live buffer |
| Blake2sStream.PiecesDoNotMatter | crypto/blake2s.c:466-503 | feeding a message in any pieces leaves the state that feeding it at once leaves |
| Blake2sStream.CanonicalForm | crypto/blake2s.c:466-503 | after any data all blocks strictly before the last are in the chain, t counts them modulo 2^64 and the rest is in the buffer |
| Blake2sStream.FinishedIsHashed | crypto/blake2s.c:505-529 | finishing that state yields the chain of section 3.3, for empty data and exact multiples of 64 too |
| Blake2sStream.StreamedDigest | crypto/blake2s.c:427-554 | a key block and then a message in any pieces give the digest of section 3.3, cut to nn bytes |
| Blake2s.MixInPlace | crypto/blake2s.c:214-224 | the macro G on the array is G of section 3.1 |
| Blake2s.RoundsInPlace | crypto/blake2s.c:226-248 | the loop on the array is the ten rounds of section 3.2 |
| Blake2s.LayoutWords | include/nuttx/crypto/blake2s.h:83-97 | for all parameters, what each of the first four words of the parameter block holds, and where salt and personalisation lie |
| Blake2s.SequentialStart | crypto/blake2s.c:401-424 | the parameter block of a sequential hash, XORed into the vector word by word, is the start value of section 3.3 |
| Blake2s.State.IncrementCounter | crypto/blake2s.c:171-175 | the two words become those of Incremented, and nothing else changes |
| Blake2s.State.Compress | crypto/blake2s.c:187-272 | the chain becomes the compressed one, and nothing else changes |
| Blake2s.State.Update | crypto/blake2s.c:466-503 | the state becomes that of Updated, for every length of input and of buffer |
| Blake2s.State.InitParam | crypto/blake2s.c:368-397 | a fresh state whose chain is the vector XORed with the parameter block, with its digest length |
| Blake2s.State.Init | crypto/blake2s.c:401-425 | -1 iff the length is not in 1..32, without effect; otherwise the fresh unkeyed start |
| Blake2s.State.InitKey | crypto/blake2s.c:427-464 | -1 iff a length is out of range or the key is missing, without effect; otherwise the keyed start after the padded key block |
| Blake2s.State.Final | crypto/blake2s.c:505-554 | -1 iff there is no room or the state is already final, without effect; otherwise the first min(n, 32) bytes of the finished chain, with a partial last word, and no byte beyond |
| Blake2s.HashMessage | crypto/blake2s.c:556-606 | -1 exactly on the listed bad arguments and then out is untouched; otherwise out holds the digest of section 3.3 of RFC 7693, keyed or not, which DigestExample fixes on an example, and the rest of out is untouched |
| PoolSpec.TwistIsCrc | crypto/random_pool.c:126-132 | shifting by three and XORing the table entry is three steps of the CRC-32 register |
| PoolSpec.TwistBack | crypto/random_pool.c:193 | the twist of a word can be undone |
| PoolSpec.UntwistBack | crypto/random_pool.c:193 | every word is a twist |
| PoolSpec.MaskWraps | crypto/random_pool.c:99 | with 128 words, masking is wrapping |
| PoolSpec.TapsIgnore | crypto/random_pool.c:186-191 | no tap of the polynomial is the word being replaced |
| PoolStirring.TapsExactly | crypto/random_pool.c:122-191 | a change of a word changes what is stirred in at i iff it lies 1, 25, 51, 76 or 104 above i, modulo the pool size |
| PoolStirring.RotlBit | crypto/random_pool.c:173 | the rotation moves bit k to bit k + r modulo 32 |
| PoolStirring.RotateAfter | crypto/random_pool.c:182 | over every buffer each word adds seven to the rotation, and seven more where the pointer passes zero |
| PoolStirring.PassTurnsBySeven | crypto/random_pool.c:176-182 | a pass over the 128 words from any position leaves the rotation seven further than the pass before |
| PoolStirring.TwoWords | crypto/random_pool.c:166-201 | what the words 1 and 1 make of an empty pool |
| PoolSpec.StepBack | crypto/random_pool.c:166-199 | mixing in one word can be undone |
| PoolSpec.UndoStepBack | crypto/random_pool.c:166-199 | and the undoing can be redone |
| PoolSpec.AddedIsBijective | crypto/random_pool.c:158-201 | a fixed buffer maps pools to pools bijectively, with an explicit inverse |
| PoolSpec.PointerAfter | crypto/random_pool.c:166-201 | rd_addptr ends at (start - n) modulo the pool size |
| PoolSpec.DifferentBuffers | crypto/random_pool.c:158-201 | up to one word for each position, different buffers give different pools |
| PoolSpec.EveryPoolReachable | crypto/random_pool.c:158-201 | one chosen word for each position turns any pool into any other |
| PoolSpec.DifferentBuffersExactlyWhen | crypto/random_pool.c:158-201 | different buffers of n words always give different pools iff n is at most the pool size |
| RngSpec.OutputBlock | crypto/random_pool.c:346-365 | block k of the output is the hash of the root with node offset start + k modulo 2^32, the last one shorter |
| RngSpec.RootLayout | crypto/random_pool.c:278-287 | the parameter block of a root, byte by byte |
| RngSpec.OutLayout | crypto/random_pool.c:307-354 | the parameter block of an output block, byte by byte, with its size and node offset |
| RngSpec.RootInput | crypto/random_pool.c:292-304 | the root is the hash of the pool bytes followed by the previous root |
| RngSpec.AlwaysCounting | crypto/random_pool.c:268-366 | in every run the offsets since the last reseed are 0, 1, 2, ... modulo 2^32 |
| RngSpec.NoRepeatsExactlyWhen | crypto/random_pool.c:318-366 | in every run no two blocks since the last reseed share an offset iff there are at most 2^32 of them |
| RngSpec.ReseededInTime | crypto/random_pool.c:318-366 | if each call ends by UINT32_MAX, no run ever repeats an offset |
| RngSpec.OneCallExactlyWhen | crypto/random_pool.c:318-366 | from every reachable state a call repeats no offset iff the blocks since the last reseed, or none if it reseeds, and its own are at most 2^32 |
| RngSpec.NeverRepeatsExactlyWhen | crypto/random_pool.c:318-366 | over every run no offset of a root is ever repeated iff every call finds that room |
| RngSpec.WrapRepeats | crypto/random_pool.c:336-346 | after 32 calls for 2^32 - 1 bytes the offset is zero, no reseed is due and the next block repeats it |
| RandomPool.Rng.AddEntropy | crypto/random_pool.c:158-201 | the pool, pointer and rotation become those of Added, and rd_newentr counts the words if asked to |
| RandomPool.Rng.GetEntropy | crypto/random_pool.c:226-253 | the hash absorbs the pool after one more word, another word follows, and rd_newentr is zero |
| RandomPool.SeedsWithOneWord | crypto/random_pool.c:226-253 | the hash sees the pool with exactly the first of the two words mixed in |
| RandomPool.Rng.Reseed | crypto/random_pool.c:268-316 | the new root is the hash of the pool and the previous root, the offset starts over |
| RandomPool.Rng.ForceReseed | crypto/random_pool.c:500-524 | reseeds iff at least 128 new words have arrived |
| RandomPool.Rng.BufInternal | crypto/random_pool.c:318-366 | reseeds iff not initialised, 1024 new words have arrived or the offset is 2^32 - 1, and then the root is the new hash and offsets start at zero; then exactly nbytes bytes of output from the right offset, nothing beyond, and the offsets used are recorded |
| PcmSpec.KeptConcat | audio/pcm_decode.c:508-661 | filtering a concatenation is filtering the parts, carrying the phase |
| PcmSpec.KeptIsSelect | audio/pcm_decode.c:508-661 | the filter keeps exactly the bytes whose position in the period is below align |
| PcmSpec.SubsampledStream | audio/pcm_decode.c:508-661 | for every way of cutting a stream into buffers, the output is the bytes whose offset modulo align * subsample is below align |
| PcmSpec.WideGapIsTruncated | audio/pcm_decode.c:594-638 | a gap of 256 or more already spoils a stream of one sample, the truncated gap and one byte |
| PcmSpec.IntendedExactlyWhenGapFits | audio/pcm_decode.c:540-638 | the filter is the intended one on all streams iff align * (subsample - 1) < 256 |
| PcmSpec.AnnouncedRatesFit | audio/pcm_decode.c:540 | one or two channels of 8 or 16 bits at 2, 4, 8 or 16 times all fit |
| PcmSpec.RateChange | audio/pcm_decode.c:486-493 | after a change of rate or of sample size the bytes already owed are kept or dropped first, then the new period starts |
| PcmSpec.CopyInsideExactlyWhen | audio/pcm_decode.c:566-574 | the copy that completes a sample stays inside the window iff the partial sample is not longer than a sample, or the window has nearly 2^32 bytes |
| PcmSpec.ProgressExactlyWhen | audio/pcm_decode.c:602-655 | a turn of the loop moves on iff samples have bytes or a gap is owed |
| PcmSpec.EndsExactlyWhen | audio/pcm_decode.c:602-655 | the loop ends iff samples have bytes or the window lies in the gap owed |
| PcmSpec.RunsToEndExactlyWhen | audio/pcm_decode.c:508-661 | filtering copies inside the window and ends iff the partial sample is not longer than a sample, and samples have bytes or the window lies in the gap owed |
| PcmSpec.AlwaysSafeExactlyWhen | audio/pcm_decode.c:508-661 | for windows of every length that is the phase fitting the sample size |
| PcmStream.ValidWavBytes | audio/pcm_decode.c:328-339 | a header is accepted iff its bytes are the tags RIFF, WAVE, fmt and data, a format chunk of 16 bytes, format 1, and zero high bytes of channels, alignment and sample width |
| PcmStream.FormatBytes | audio/pcm_decode.c:385-393 | which bytes of an accepted header make the channels, sample rate, byte rate, alignment and sample width |
| PcmStream.EnqueueOutcomes | audio/pcm_decode.c:1022-1168 | the result and the state in each case: inside a stream the lower device's answer, outside -EINVAL without effect for a short buffer, -EINVAL and a completion for a bad header or a refused buffer, the error of a refused configuration, or the start of a stream |
| PcmStream.StaysReady | audio/pcm_decode.c:434-661 | within a stream neither a buffer nor a change of rate leaves the filter out of phase |
| PcmStream.WholeStream | audio/pcm_decode.c:1022-1168 | from the first buffer to the final one the lower device is given exactly the filtered bytes after the header, for every way of cutting |
| PcmStream.StreamingBetweenFirstAndFinal | audio/pcm_decode.c:1022-1168 | streaming is true exactly between the first buffer and the final one |
| PcmStream.SubsampledPlay | audio/pcm_decode.c:1022-1168 | with fast forward from the start, those are the first align bytes of every align * subsample |
| PcmStream.RateChangeMidStream | audio/pcm_decode.c:434-494 | what is passed after starting, stopping or changing fast forward between any two buffers of a stream |
| PcmStream.NextHeaderFitsExactlyWhen | audio/pcm_decode.c:1022-1168 | whatever phase a stream found, the phase it leaves fits the samples of a next header iff they have bytes and it did not end further inside a sample than they reach |
| PcmStream.NextStreamContinues | audio/pcm_decode.c:1022-1168 | a stream of any format that fits is filtered as the continuation of the one before, whatever phase that one found: what is owed, then a new period |
| PcmStream.SameSizeContinues | audio/pcm_decode.c:1022-1168 | with samples of the same size the selection goes on from the position at which the stream before ended |
| PcmStream.LeftoverOverruns | audio/pcm_decode.c:551-574 | a stereo 16-bit stream that ends three bytes into a sample, then an accepted mono 8-bit header with fast forward still on: the copy would run 2^32 - 2 bytes |
| PcmStream.NoBytesNeverEnds | audio/pcm_decode.c:401-655 | an accepted header with samples of no bytes: with more payload than the gap owed the loop never ends |
| PcmStream.FreshStartExactlyWhen | audio/pcm_decode.c:508-661 | that equals filtering it as a new stream, whatever its bytes, iff the first was a whole number of periods or nothing is dropped |
| Pcm.CopyDown | audio/pcm_decode.c:643-646 | the byte loop moves a range down correctly even where the ranges overlap, and leaves everything above alone |
| Pcm.Decoder.CompletePartial | audio/pcm_decode.c:561-595 | for a partial sample of at most one sample, completes it at the front of this buffer, leaving the rest unread |
| Pcm.Decoder.Turn | audio/pcm_decode.c:602-655 | one turn of the loop is LoopTurn and moves iff samples have bytes or a gap is owed; if it moves it filters its chunk and overwrites no unread byte |
| Pcm.Decoder.Subsample | audio/pcm_decode.c:508-661 | whenever filtering runs to its end, in place the window becomes what the filter keeps of it and the fields become the phase after it; without fast forward nothing changes |
| Pcm.Decoder.Configure | audio/pcm_decode.c:434-494 | the three cases of a change of rate |
| Pcm.Decoder.ParseWav | audio/pcm_decode.c:328-422 | true iff the 44 bytes are an accepted header, as ValidWavBytes spells it, and then its format, as FormatBytes spells it, is stored |
| Pcm.Decoder.EnqueueBuffer | audio/pcm_decode.c:1022-1168 | whenever filtering runs to its end, the whole new state and the result, for streaming or not, short, invalid or valid headers and every answer of the lower device |
| AudioComp.AscendingExactly | audio/audio_comp.c:339-374 | the calls made on the way up go to exactly the providers below n |
| AudioComp.AscendingOrder | audio/audio_comp.c:339-374 | each once, in strictly ascending order |
| AudioComp.DescendingExactly | audio/audio_comp.c:296-311 | the calls made on the way down go to exactly the providers below n |
| AudioComp.DescendingOrder | audio/audio_comp.c:359-369 | each once, in strictly descending order |
| AudioComp.LeftUpAfterFailure | audio/audio_comp.c:339-374 | after a failure at k exactly the devices below k stay up that came up and provide no undo |
| AudioComp.NoneLeftUpExactlyWhen | audio/audio_comp.c:339-374 | none stays up iff every device that came up provides the undo |
| AudioComp.FailedBringUp | audio/audio_comp.c:339-374 | if device k is the first to fail, exactly the providers up to k are called and exactly the providers of the undo below k are undone; a device stays up iff it is below k, came up and has no undo |
| AudioComp.FailedBringUpOrder | audio/audio_comp.c:339-374 | no bring-up call follows an undo, the bring-ups ascend and the undos descend |
| AudioComp.CompleteBringUp | audio/audio_comp.c:339-374 | if none fails, every provider is called, nothing is undone, and every provider that did not answer -ENOTTY is up |
| AudioComp.BringUpResult | audio/audio_comp.c:339-374 | the answer is that of the first device to fail, else of the last that supports the operation, else the default |
| AudioComp.LeftUpAfterTearDown | audio/audio_comp.c:401-422 | after a complete start and a stop only devices without a stop operation stay up, whatever the stops answer |
| AudioComp.TearDownStep | audio/audio_comp.c:296-311 | the loop's condition keeps the lowest failure, else the lowest supported answer, else the default |
| AudioComp.TearDownResult | audio/audio_comp.c:296-311 | the answer is that of the lowest device to fail, else of the lowest that supports the operation, else the default |
| AudioComp.Composite.BringUp | audio/audio_comp.c:339-374 | the calls up to the first failure in ascending order followed by the undo calls below it in descending order; returns the first failure, else the last supported answer, else the default; FailedBringUp, CompleteBringUp and BringUpResult say so by device |
| AudioComp.Composite.TearDown | audio/audio_comp.c:401-422 | every provider called in descending order despite errors; returns the lowest-index failure, else the lowest-index supported answer, else the default |
| AudioComp.Composite.StartAll | audio/audio_comp.c:339-374 | start with stop as its undo and -ENOTTY as the default |
| AudioComp.Composite.ResumeAll | audio/audio_comp.c:497-532 | resume with pause as its undo and -ENOTTY as the default |
| AudioComp.Composite.ReserveAll | audio/audio_comp.c:774-837 | reserve with release as its undo and OK as the default; -ENOMEM and no call without memory for the sessions; a session is given iff no reserve failed |
| AudioComp.Composite.StopAll | audio/audio_comp.c:401-422 | tear-down with stop |
| AudioComp.Composite.PauseAll | audio/audio_comp.c:449-470 | tear-down with pause |
| AudioComp.Composite.ShutdownAll | audio/audio_comp.c:289-314 | tear-down with shutdown |
| AudioComp.Composite.ReleaseAll | audio/audio_comp.c:862-887 | tear-down with release and OK as the default |

## Left out

- RwBuffer.Buffer.Execute: the methods are one client with the worker's timeouts; several clients are the runs of RwRuns, where a read is stated block by block (`InterleavedRead`).
- RwBuffer.Buffer.Write: the branch for CONFIG_DRVR_INVALIDATE inside `rwb_write`, which takes `rhsem` a second time, is not modelled; the plain reset of the window is.
- RwInvalidate.InvalidateReadahead: the result is left open when there is no window and when the region covers the beginning of the window, because the source never assigns it there.
- rwb_invalidate_writebuffer: its tail case keeps the wrong number of blocks, a region adjacent to the run falls into its last case and wrexpectedblock is not updated, so the promises about the dirty run do not extend to it.
- A failed flush by `rwb_wrflush` loses the dirty run; it is a step of the model (`LoseRun`), and the theorems about conservation and about one client exclude it by name (`NoLoss`).
- Bytes inside a block, allocation failure in `rwb_initialize`, media removal, and the unimplemented `rwb_readbytes`.
- Pcm.Decoder.EnqueueBuffer: what memory holds after a copy past the end of the window; the inputs that lead there are exactly those shut out (`RunsToEndExactlyWhen`).
- The big-endian helpers of the decoder, and its capability, volume and session operations, which pass through to the lower device.
- Blake2s.State.Final: the caller's output buffer is not the buffer inside the state.
- The self-test of BLAKE2s and the clearing of key material. Loads and stores are those of BLAKE2_UNALIGNED on a little-endian machine: without that macro line 120 of crypto/blake2s.c names an undeclared variable, so there is no other little-endian build.
- RandomPool.Rng.GetEntropy: the clock, processor load and stack address that `up_rngaddentropy` mixes in are two arbitrary words; its rate limiting of interrupt sources is not modelled.
- RandomPool.Rng.AddEntropy: the pool may have any size above 104; the source has 128 words and masks positions. ROTL_32 by zero is the identity.
- The semaphore around the generator: its operations are atomic.
- The contents of the session array of the composite device, which each lower device fills and is given back.
- AudioComp.LeftUpAfterFailure: a device is up after a do that does not fail and down after an undo, whatever the undo answers.
- The configure, buffer and ioctl operations of the composite device, audio/audio.c, crypto/cryptodev.c, binfmt and the simple drivers, which would only add easy members.
- Secrecy and side channels of the ciphers and the generator.
