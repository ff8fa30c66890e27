# Verified model of librist

librist carries live media over RIST: a sender keeps what it has sent in a ring, a receiver
puts packets back in order in another ring, asks for what is missing, and both spread load over
bonded legs. This project models the parts of it whose correctness is not visible from one
function body, and proves what they promise for every input, every run and every reachable state.

Four families are modelled, one module a component:

- **Cryptography.** `Sha256` streams a message through a 64-byte buffer; `Pbkdf2` is the fast
  derivation that skips HMAC inside its loop and works on raw compression calls and a padding
  block made once. Both are proved against FIPS 180-4, RFC 2104 and RFC 8018 for *any*
  compression function. `AesTables`, `AesField`, `Aes` and `AesModes` hold the tabled cipher, its
  inverse, and the counter and chaining modes.
- **Argument scanning.** `Permute` is the in-place exchange of two adjacent blocks along the
  cycles of a rotation; `Getopt` is the scan that calls it.
- **Recovery.** `SenderRing` (queue, retention window, retransmission indices), `Ring` (the
  reorder ring as a value), `Pass` (a run of the reader over it), `Receiver` (the flow that does
  both) and `History` (arrivals and passes in any order), `MissingList` (linked list of missing packets and the passes that ask for them),
  `NackRoute` (which leg a request goes to), `Nack` and `NackRtcp` (requests on the wire, both
  ends), `SplitMerge` (halves and partners), `Streaming` (from payloads written to blocks
  read) and `Schedule` (arrivals and passes by which all of them are), `Bonding` (stalled and muted legs) and `Balancer` (weighted distribution).
- **Signals.** `Pacer`, `AdvTs` (clock reconstruction) and `MpegTs` (null packets).

`Arith`, `Bytes`, `Clock`, `SeqNo` and `Wrappers` hold what several of them share. Code that updates
state is a class or a method over arrays, and each method is proved against a function or predicate
whose own properties are lemmas. Times and clock readings are arguments; a locked section is one step. `1.1 * x` is the
rational `11 * x / 10`.

Where the code does not do what one would expect of it, the model keeps the code and the
contracts say exactly when it does:

- `PBKDF2` computes its block count in 32 bits, so an output longer than 2^32 - 32 bytes is only
  filled in part (`Pbkdf2.ReachIsWhole`).
- With a lone `-` at the end of an option group and no long options, `getopt_internal` stops in the
  middle of the vector and never permutes it (`Getopt.GroupGivesUp`, `Getopt.GivesUp`).
- While one leg is muted, its weight is taken off the shared counter at every packet. The counter
  then misses zero, and with two legs of weight 5 the sixth packet is handed to no leg although
  one is open, because the retry that would catch it never runs (`Balancer.MutedLegCostsPackets`,
  `Balancer.DroppedExactly`).
- With fewer than two legs that could be muted, the mute check leaves earlier flags as they are: a
  leg left alone while muted carries nothing (`Bonding.Bond.Tick`).
- `receiver_mark_missing` called for the number found last marks the whole ring
  (`MissingList.MarksWhatIsBetween`).
- A packet put in a slot that holds another number leaves the old bytes counted, and a 32-bit
  packet from behind the reader is taken for one ahead of it (`Receiver.Flow.Insert`,
  `Receiver.Flow.Accept`).
- `SHA256_Update` counts in 32 bits: an update of 2^32 bytes or more never ends
  (`Sha256.NeverEnds`), so the streaming statements are about shorter ones.
- Where no leg is usable, `send_nack_group` empties the collection all the same: the requests are
  lost if no leg is marked gone, and otherwise sent once for every leg from the first one gone on
  (`NackRoute.SentOnce`).
- A payload with a packet out of sync is refused by `suppress_null_packets` with its length already
  reduced by the null packets before it, and with the flag it means to clear still set
  (`MpegTs.Suppress`).
- With 65536 numbers in flight two halves of different payloads pass for a pair
  (`SplitMerge.OneTooMany`): exactly where two payloads a multiple of 32768 apart have the same
  time (`SplitMerge.WindowMerges`).
- A gap wider than `max_holes` is not counted as lost. What the reader travels is delivered plus
  dropped plus lost if and only if no packet left behind such a gap (`Pass.HiddenExactly`,
  `History.AccountExact`).
- A 16-bit packet that comes again after it was read, but before it is too old, is taken for one
  almost a whole range ahead; alone in the ring it is handed over again and sets the reader back
  (`Streaming.ReadAgain`, `Streaming.Repeat`).

`dafny verify dfyconfig.toml` checks the project.

## Model

| member | source | states |
|---|---|---|
| Permute.ComputeGcd | contrib/getopt-shim.c:138-151 | Euclid's loop on two positive lengths returns their greatest common divisor |
| Permute.GcdIsGreatest | contrib/getopt-shim.c:138-151 | what the loop returns divides both lengths and is divided by every common divisor |
| Permute.OrbitInjective | contrib/getopt-shim.c:165-187 | within one cycle of (n+m)/gcd steps no position is visited twice |
| Permute.OrbitCloses | contrib/getopt-shim.c:165-187 | after (n+m)/gcd steps the cycle is back at its start |
| Permute.OrbitCovers | contrib/getopt-shim.c:165-187 | the cycle reaches every position with the start's remainder modulo the gcd |
| Permute.CyclesPartition | contrib/getopt-shim.c:165-187 | the gcd(n,m) cycles are disjoint, together visit every position, and each moves its elements by the rotation |
| Permute.MoveCycle | contrib/getopt-shim.c:172-187 | swapping along a cycle moves each of its elements to its target and nothing else |
| Permute.AllClassesMoved | contrib/getopt-shim.c:165-187 | once every cycle is moved, the two blocks are exchanged exactly |
| Permute.PermuteArgs | contrib/getopt-shim.c:158-188 | two non-empty adjacent blocks are exchanged in place, each in its own order, the rest of the vector untouched |
| Getopt.SearchTable | contrib/getopt-shim.c:221-244 | the table search finds the first row named like the word; without one, the first row the word abbreviates, ambiguous exactly if it abbreviates another that means something else; a single letter that is a short option abbreviates nothing |
| Getopt.OptionYields | contrib/getopt-shim.c:195-511 | what one option yields, told by the word and the option string: a letter without colon takes nothing and leaves the rest of its word, with one it takes the rest or else the whole next word, with two the rest or nothing; a long option takes what follows `=` or, if it must, the whole next word; unknown, ambiguous, missing and unwanted cases yield `?` or `:` |
| Getopt.EventsTold | contrib/getopt-shim.c:360-514 | so the options returned are those the words tell, one after the other, up to `--`, the end or a word given up on |
| Getopt.Scanner.PermuteBlocks | contrib/getopt-shim.c:360-434 | every permutation made while scanning is of two non-empty adjacent blocks and brings the options in front |
| Getopt.Scanner.PassNonOption | contrib/getopt-shim.c:399-411 | stepping over a non-option keeps the arrangement: options read, then the non-options passed, both in original order |
| Getopt.Scanner.FinishAtDashes | contrib/getopt-shim.c:413-433 | at `--` the vector is left with options and the dashes in front and all the rest behind |
| Getopt.Scanner.GetoptInternal | contrib/getopt-shim.c:323-514 | each call returns the next option of the original vector with its argument, keeps the arrangement and makes progress; an end result means none is left, and is the finished layout or a word given up on |
| Getopt.Scanner.ScanAll | contrib/getopt-shim.c:323-514 | calling until the end returns the options and arguments the words of the original vector tell, in order, and finishes with options, arguments and `--` first, then the non-options, both in original order, `optind` between them, exactly if the reading of the vector is never stuck |
| Getopt.ReadIsStablePartition | contrib/getopt-shim.c:360-434 | the two groups of the final layout are the words of the vector told apart, each group in original order |
| Getopt.LayoutIsPermutation | contrib/getopt-shim.c:360-434 | the final vector is a permutation of the original |
| Getopt.GroupGivesUp | contrib/getopt-shim.c:458-469 | a group of letters stops the scan if and only if there is no long-option table, `-` is no option letter, the group ends in `-`, and no earlier letter takes that as its argument |
| Getopt.ReadFinishes | contrib/getopt-shim.c:360-511 | the scan finishes if and only if the reading of the vector meets no word of that kind |
| Getopt.GivesUp | contrib/getopt-shim.c:458-469 | `prog x -a-` with option letter `a` stops the scan before the permutation |
| Sha256.FoldAppend | contrib/sha256.c:108-121 | chaining over a message is chaining over its first part, then over the rest |
| Sha256.FeedByte | contrib/sha256.c:112-120 | one more byte keeps state, buffer and bit count those of the message fed so far |
| Sha256.Context.Update | contrib/sha256.c:108-121 | after any update the 32-bit index can count, the context has absorbed the message so far followed by the new bytes |
| Sha256.NeverEnds | contrib/sha256.c:110-112 | the 32-bit index stays below a length of 2^32 or more whatever it is |
| Sha256.InitialState | contrib/sha256.c:98-105 | the words the chaining starts from are the first 32 bits of the fractions of the square roots of the first eight primes, as section 5.3.3 of FIPS 180-4 says |
| Sha256.Be64Is | contrib/sha256.c:143-152 | the eight length bytes are the bit count, most significant first |
| Sha256.DigestIs | contrib/sha256.c:155-166 | bytes 4i to 4i + 3 of a digest are state word i, most significant first |
| Sha256.Context.PadShort | contrib/sha256.c:130-134 | a rest below 56 bytes is padded to 56 in the same block |
| Sha256.Context.PadLong | contrib/sha256.c:135-141 | a rest of 56 to 63 bytes is padded into a block of its own, followed by 56 zero bytes |
| Sha256.PaddedRest | contrib/sha256.c:123-153 | either way the state is the chaining over the message padded as section 5.1.1 of FIPS 180-4 says |
| Sha256.Context.Final | contrib/sha256.c:123-167 | the digest is the one-shot hash of everything absorbed |
| Sha256.HashInPieces | contrib/sha256.c:94-167 | every way of cutting a message into updates, each short enough for the 32-bit index, gives its one-shot hash |
| Pbkdf2.FastHmac | contrib/fastpbkdf2.c:225-232 | two raw compressions of a 32-byte input behind the keyed states are HMAC as section 2 of RFC 2104 defines it |
| Pbkdf2.MdPadIsPadding | contrib/fastpbkdf2.c:86-96 | the padding block made once is the SHA-256 padding of 32 bytes behind a 64-byte key block |
| Pbkdf2.Int32Is | contrib/fastpbkdf2.c:51-61 | the four counter bytes are the block number, most significant first |
| Pbkdf2.HmacContext.PrepareKey | contrib/fastpbkdf2.c:141-162 | short keys are zero-padded and long ones hashed to a key block |
| Pbkdf2.HmacContext.Final | contrib/fastpbkdf2.c:188-194 | initialise, update and finish give HMAC of the concatenated updates |
| Pbkdf2.KeyedCompression | contrib/fastpbkdf2.c:225-228 | copying the keyed state and compressing the block in place leaves the new chaining value in front of the unchanged padding |
| Pbkdf2.FirstIteration | contrib/fastpbkdf2.c:211-218 | the first pass computes U_1 from salt and big-endian counter and starts the sum |
| Pbkdf2.NextIteration | contrib/fastpbkdf2.c:223-233 | a further pass turns U_(c-1) into HMAC of it without initialising, updating or finishing |
| Pbkdf2.Accumulate | contrib/fastpbkdf2.c:223-234 | each pass adds its U to the result by exclusive or on hash states |
| Pbkdf2.BlockF | contrib/fastpbkdf2.c:198-238 | the fast loop returns F(P, S, c, i) of section 5.2 of RFC 8018 for every iteration count |
| Pbkdf2.ReachIsWhole | contrib/fastpbkdf2.c:251-263 | the blocks fill the output if and only if it is at most 2^32 - 32 bytes long |
| Pbkdf2.Pbkdf2 | contrib/fastpbkdf2.c:240-321 | the output is PBKDF2 of RFC 8018 truncated to its length, as far as the 32-bit block count reaches |
| AesTables.SBoxInverse | contrib/aes.c:54-90 | the inverse S-box undoes the S-box on every byte |
| AesTables.SBoxSubstitutes | contrib/aes.c:54-71 | the S-box is the substitution of section 5.1.1 of FIPS 197: the affine image of the inverse in the field, or of 0 |
| AesTables.Mul14Product | contrib/aes.c:98-228 | the table column for 14 is multiplication by 14 in the field of FIPS 197; likewise for the columns below |
| AesTables.Mul13Product | contrib/aes.c:98-228 | the table column for 13 is multiplication by 13 |
| AesTables.Mul11Product | contrib/aes.c:98-228 | the table column for 11 is multiplication by 11 |
| AesTables.Mul9Product | contrib/aes.c:98-228 | the table column for 9 is multiplication by 9 |
| AesField.ProductsLinear | contrib/aes.c:756-934 | every tabled product distributes over exclusive or |
| AesField.InvMixMix | contrib/aes.c:756-934 | the tabled InvMixColumns undoes the tabled MixColumns on every column |
| Aes.ShiftsRows | contrib/aes.c:697-721 | row r moves left by r columns, as section 5.1.2 of FIPS 197 says |
| Aes.MixIs | contrib/aes.c:756-844 | each row of a mixed column is the sum of products in the field that section 5.1.3 of FIPS 197 gives |
| Aes.InvMixIs | contrib/aes.c:846-934 | likewise for the inverse and section 5.3.3 |
| Aes.InvRoundsUndo | contrib/aes.c:1037-1061 | the inverse rounds undo any number of rounds under any key array |
| Aes.InvCipherInverts | contrib/aes.c:940-1080 | the inverse cipher undoes the cipher for every block, key array and number of rounds |
| Aes.RoundsAgree | contrib/aes.c:978-1049 | encryption and decryption run the same number of rounds if and only if the key size is 128 or at least 192 |
| Aes.DecryptInvertsEncrypt | contrib/aes.c:940-1080 | decrypting an encrypted block gives it back for the three key sizes |
| Aes.Encrypt | contrib/aes.c:940-1011 | the in-place rounds on the 4x4 state compute the cipher of section 5.1 of FIPS 197 over the given key array |
| Aes.Decrypt | contrib/aes.c:1013-1080 | the in-place inverse rounds compute the inverse cipher |
| Aes.MixColumns | contrib/aes.c:756-844 | mixing in place maps every column by the tabled polynomial and keeps the others |
| AesModes.IncrementAddsOne | contrib/aes.c:316-326 | the byte-wise increment with carry adds one to the big-endian value, modulo its range |
| AesModes.IncrementIv | contrib/aes.c:316-326 | the carry loop increments the trailing counter bytes in place and leaves the rest alone |
| AesModes.CounterCounts | contrib/aes.c:316-351 | counter block i is the first one plus i, modulo 2^128 |
| AesModes.KeyStreamAt | contrib/aes.c:330-351 | byte j of the key stream is byte j mod 16 of the encrypted counter block j div 16 |
| AesModes.CtrInvolution | contrib/aes.c:330-357 | counter mode undoes itself for messages of any byte length |
| AesModes.EncryptCtr | contrib/aes.c:330-351 | the block loop with its short last block computes counter mode as section 6.5 of SP 800-38A defines it |
| AesModes.DecryptCtr | contrib/aes.c:353-357 | decrypting is the same loop and gives the message back |
| AesModes.CbcInverts | contrib/aes.c:242-311 | chaining decryption undoes chaining encryption for any number of blocks |
| AesModes.EncryptCbc | contrib/aes.c:242-263 | the loop computes cipher block chaining of section 6.2 of SP 800-38A, and refuses lengths that are not whole blocks |
| AesModes.DecryptCbc | contrib/aes.c:290-311 | the loop computes its inverse, and refuses the same lengths |
| SenderRing.Sender.constructor | src/rist.c:436-461 | a new ring holds nothing and satisfies the ring invariant |
| SenderRing.AgeInTicks | src/rist-common.c:4350-4359 | the ages compared, in whole milliseconds of 4294967 ticks, reach the recovery time exactly when so many ticks lie between the stamps, and are past 1.1 times it exactly from the next whole millisecond on |
| SenderRing.Sender.Enqueue | src/udp.c:887-947 | a buffer is appended to the log in an empty slot, or refused exactly when max - 1 are held; counts and bytes follow |
| SenderRing.Sender.MarkSent | src/rist-common.c:4294-4339 | the oldest unsent buffer gets the next number and enters the indices; nothing else changes |
| SenderRing.Sender.EnterIndices | src/rist-common.c:4328-4338 | both indices then point at the newest sent buffer for every number they cover |
| SenderRing.Sender.FreeOldest | src/rist-common.c:4367-4375 | the buffer freed is the oldest one held, and sizes and bytes lose just its share |
| SenderRing.Sender.Trim | src/rist-common.c:4341-4376 | the oldest buffer is freed exactly if the clock, as read then, shows it past the recovery time, and the next one exactly if the first was 1.1 times past it and the second is past it at the following reading |
| SenderRing.Sender.TrimOldest | src/rist-common.c:4342-4371 | one round frees the buffer at the far end of the window or lets the window grow, and shrinks it at most once |
| SenderRing.FreesOnlyOld | src/rist-common.c:4341-4376 | over any number of rounds every buffer freed was at least the recovery time old, in ticks, at a reading taken in the pass |
| SenderRing.FreesAtLeast | src/rist-common.c:4341-4376 | while buffers are past the recovery time at least one leaves for each one sent |
| SenderRing.Sender.SendOne | src/rist-common.c:4294-4376 | a round sends the next buffer, if there is one, and then trims once |
| SenderRing.Sender.SendData | src/rist-common.c:4290-4379 | a pass sends up to maxcount + 1 buffers in order, changes none but their numbers, frees exactly those the rounds above free at the successive readings of the clock, and keeps the ring invariant |
| SenderRing.SeqIndexedStep | src/rist-common.c:4330 | the 32-bit index keeps every retained sent number in its own slot across wrap |
| SenderRing.RtpIndexedStep | src/rist-common.c:4334-4337 | the 16-bit index keeps pointing at the newest sent buffer of each number |
| SenderRing.LookupAgrees | src/udp.c:1123-1138 | an index that points where a scan would stop makes the lookup agree with the scan |
| SenderRing.Sender.Find | src/udp.c:1123-1235 | the indexed lookup with its number check finds what a newest-first scan of the retained sent buffers finds, and never a sent buffer of another number |
| Ring.SlotOf | src/rist-common.c:880 | a number lies as many slots past the reader's slot as it is ahead of the reader, for any ring size that divides the range |
| Ring.HolesAreTheGap | src/rist-common.c:1153-1192 | in a ring whose packets are within one turn ahead, the slots stepped over are exactly the missing numbers |
| Ring.TakeKeeps | src/rist-common.c:1412-1420 | taking out the first packet met keeps every other in its slot, the reader's slot right, and the ring within one turn |
| Ring.PutKeeps | src/rist-common.c:955-976 | a packet keeps the ring within one turn if and only if it is itself less than a ring ahead |
| Ring.NoStaleSlot | src/rist-common.c:955-971 | in such a ring an occupied slot holds the very number, so nothing stale is ever replaced |
| Ring.ShortIsLive | src/rist-common.c:880 | a 16-bit flow's ring is always within one turn |
| Receiver.Flow.FindFirst | src/rist-common.c:1153-1175 | the walk finds the first packet from the reader's slot on, or that there is none |
| Receiver.Flow.Look | src/rist-common.c:1150-1253 | whether a packet waits, is dropped, resets the flow or is released follows from how long it has been held, when it is due and how many were too late before it; what is added to `lost` is the whole gap if it is at most 32768, or half the ring in a 32-bit flow, else nothing, or one for a discontinuity without holes, and the count of late packets, the latch and the size afterwards are exact |
| Receiver.Flow.FormBlock | src/rist-common.c:1289-1356 | the block is the packet or, with merging on and its second half at hand, the pair; the discontinuity flag tells exactly whether the expected number was skipped |
| Receiver.Flow.Leave | src/rist-common.c:1410-1420 | the reader moves behind the packet: output index and last number stay in step, bytes and packets are conserved, and the travel is accounted for |
| Receiver.Flow.Depart | src/rist-common.c:1340-1420 | a merged pair leaves both slots and moves the reader past both |
| Receiver.Flow.Step | src/rist-common.c:1150-1420 | each round ends the pass for its reason, or takes out the packet met first: its unwrapped number, the block made of it with both flags, and the whole state afterwards are determined, and the accounts are kept |
| Receiver.Flow.EndOfPacket | src/rist-common.c:1421-1436 | an emptied ring ends the pass, and resets the flow exactly if nothing was output for more than a buffer |
| Pass.LeavesTheRest | src/rist-common.c:1142-1437 | over any run of rounds the ring is left without exactly the packets that left |
| Pass.LeavesOnce | src/rist-common.c:1142-1437 | no packet leaves twice |
| Pass.LeavesInOrder | src/rist-common.c:1142-1437 | the numbers of the packets that leave are strictly increasing |
| Pass.BlocksAreHeld | src/rist-common.c:1289-1356 | the blocks are, one for one and in order, packets of the ring as it was with the numbers claimed, or pairs of partners in it |
| Pass.DropsAreLate | src/rist-common.c:1205-1224 | every packet dropped was held for more than two buffers by the clock as then read |
| Pass.StaysUp | src/rist-common.c:1421-1434 | packets leaving reset the flow if and only if the last of them leaves the ring empty and idle |
| Receiver.Flow.Output | src/rist-common.c:1142-1437 | a pass is a run of such rounds that ends for its reason: the blocks are the packets and pairs of the ring as it was, in strictly increasing order; the ring is left without exactly those handed over and those held for more than two buffers; the flow is reset exactly by a late packet after a hundred others, an empty ring that claims bytes, or idleness; distance travelled is delivered plus dropped plus lost plus the gaps wider than the cap, and with no packet farther ahead than the cap there are none of those |
| Receiver.Flow.Insert | src/rist-common.c:622-650 | the packet is in the slot of its number and its bytes counted; a replaced packet's bytes stay counted |
| Receiver.ReanchorCheck | src/rist-reanchor.h:37-47 | a packet more than a buffer behind the newest source time has to wait, unless waiting has lasted a buffer |
| Receiver.Flow.Empty | src/flow.c:49-67 | the ring is cleared, completely if every packet had a payload, and what was cleared is accounted for |
| Receiver.Flow.Anchor | src/rist-common.c:767-842 | the first packet after a reset places the reader right before it in an empty ring, clears the counters and starts a new account in which nothing was delivered, dropped or left uncounted |
| Receiver.Flow.Accept | src/rist-common.c:845-1010 | a packet is dropped if and only if it is too old or its slot is the one kept free behind the reader, and a duplicate if and only if its slot holds its number; missing numbers are marked exactly for a first transmission that is newest and not next; the counters and the resets they cause are exact, and the account of the travel is not touched; the ring stays within one turn if and only if the packet is less than a ring ahead |
| Receiver.Flow.Enqueue | src/rist-common.c:752-1011 | a reset flow is anchored exactly by a first transmission that is current or has been waited for long enough, with a new account; in an anchored flow a packet is taken, a duplicate or dropped, and missing numbers marked, exactly as `Accept` says, and losses, flags and account stay as they were but for one more packet accepted |
| Pass.Travels | src/rist-common.c:1142-1437 | over any run of rounds the distance travelled is what was handed over, dropped and counted as lost, and what lies in gaps not counted |
| Pass.WhatCounts | src/rist-common.c:1185-1192 | a gap behind holes counts in full up to 32768, or half the ring in a 32-bit flow, and not at all beyond; without holes a discontinuity counts one |
| Pass.HiddenExactly | src/rist-common.c:1185-1192 | in a ring with every packet less than a ring ahead no number in a gap is counted twice, and all are counted if and only if every gap crossed is at most 32768, or half the ring in a 32-bit flow |
| Pass.NothingHidden | src/rist-common.c:1185-1192 | the case where nothing is farther ahead than the cap: every gap is counted in full |
| History.Account | src/rist-common.c:752-1437 | the same over any run of arrivals and passes between two resets |
| History.AccountExact | src/rist-common.c:752-1437 | if every packet was taken less than a ring ahead and the flow is not reset, distance is delivered plus dropped plus lost if and only if no packet left behind a gap wider than 32768, or than half the ring in a 32-bit flow; otherwise less is counted |
| History.ShortIsNear | src/rist-common.c:752-1437 | in a 16-bit flow every packet is taken less than a ring ahead |
| History.NeverFarIsExact | src/rist-common.c:752-1437 | the case where no packet was taken farther ahead than the cap |
| History.Run | src/rist-common.c:752-1437 | the flow itself, fed any packets and read at any times, goes through such a run, and its account is that: always for 16-bit numbers, else where nothing is taken a ring ahead or more |
| MissingList.Flow.Append | src/flow.c:15-47 | the entry is linked in at the tail, due after one round trip, with the time given or, if that is past the buffer or to come, now |
| MissingList.Flow.MarkMissing | src/rist-common.c:652-718 | the numbers appended are those after the last found, in order across wrap, as many as the walk is long and the limits leave room for, with times in equal steps between those of the packets around them |
| MissingList.MarksWhatIsBetween | src/rist-common.c:676-717 | below the cap those are exactly the numbers strictly between if and only if the two numbers differ; if they are equal the walk covers the ring |
| MissingList.Flow.Found | src/rist-common.c:990-1008 | the numbers missing before a packet are listed if they are to be marked, and a first transmission in order becomes the newest found |
| MissingList.WalkIsBetween | src/rist-common.c:676-717 | a newest packet within the cap makes the walk as long as the numbers between it and the one before |
| MissingList.BetweenNumber | src/rist-common.c:676-717 | and the numbers appended are those between, one for one |
| MissingList.FoundOrListed | src/rist-common.c:986-1008 | of what is listed, unlimited, as one newest packet after the other is found: every number from the first found to the newest was either found as newest or listed, and none both |
| MissingList.FindAll | src/rist-common.c:986-1008 | and that is what the entries are after a run of the flow's own steps from an empty list, in order and modulo the range, where each packet is within the cap of the one before and the list has room |
| MissingList.Flow.ProcessNack | src/rist-common.c:1013-1083 | an entry is given up when out of retries or time, asked for when due, else left; a request is written in bounds and the next is due 1.1 round trips later, so an entry never exceeds its retries |
| MissingList.Flow.SendGroup | src/rist-common.c:1442-1491 | the numbers collected become one packet of 1 to 200, sent where `NackRoute.Route` says, and the collection is emptied; a flow without legs keeps it |
| NackRoute.Choose | src/rist-common.c:1456-1470 | the leg chosen is the first of the live control legs that no other beats in priority, then round trip |
| NackRoute.Route | src/rist-common.c:1442-1487 | a packet goes once to that leg; without one, every turn from the first leg gone on sends it to the latest leg gone |
| NackRoute.SentOnce | src/rist-common.c:1471-1487 | it is sent to nobody if and only if no leg is usable and none gone, and once if and only if one is usable or the last leg alone is gone |
| MissingList.Flow.LinkOut | src/rist-common.c:1606-1612 | unlinking an entry leaves the list linked without it, the tail right and the count one less |
| MissingList.Flow.Turn | src/rist-common.c:1513-1598 | each entry is judged as the tests say in their order, and room is made in the packet before it overflows |
| MissingList.Flow.NackOutput | src/rist-common.c:1494-1624 | a pass keeps exactly the entries not removed, in order, updates exactly those asked for, and makes packets of exactly their numbers in order after what was still collected, 199 in each but the last, each sent where `NackRoute.Route` says |
| MissingList.Flow.Flush | src/flow.c:69-81 | flushing empties the list and leaves the tail dangling harmlessly |
| Nack.CapCosts | src/adv_ctrl.c:648 | the cap of 10000 costs a number if and only if some message spans more than it |
| Nack.PutWordIs | src/adv_ctrl.c:65-180 | a word goes out most significant byte first |
| Nack.BitAdds | src/udp.c:714 | marking a number sets its power of two in the mask and changes nothing else |
| Nack.SendRanges | src/udp.c:722-735 | the range messages span exactly the list, in order, across 32-bit wrap, in runs as long as can be |
| Nack.RangeRoundTrip | src/udp.c:722-735 | what the receiver of the ranges asks for is the list, exactly when no message is over the cap, and always for lists within it |
| Nack.SendBitmasks | src/udp.c:707-721 | the bitmask messages ask for the numbers of the list and no others, each once if it occurs once; a new message is begun only for a number not among the 32 after the last base |
| Nack.Receive | src/adv_ctrl.c:618-656 | the decoding loops ask for the base and every marked number, or for the capped range, and nothing for a short body |
| Nack.BitmaskRoundTrip | src/udp.c:707-721 | encoding and decoding a list as bitmasks asks for its numbers and no others |
| NackRtcp.ReceiveRanges | src/rist-common.c:2024-2063 | the decoder asks for the records' ranges in order, cut to 257 numbers a record and 4096 a packet, and for nothing if the length field does not fit |
| NackRtcp.SendRanges16 | src/udp.c:791-823 | the records span the low halves of the list in order, as many to a record as can be; 65535 and 0 never share a record |
| NackRtcp.RangeRoundTrip16 | src/udp.c:791-823 | the numbers asked for are the list's low halves under the sender's upper half, exactly if no record spans more than 257 numbers and the list has at most 4096 |
| NackRtcp.ReceiveBitmasks | src/rist-common.c:2064-2085 | the decoder asks for each record's base and marked numbers |
| NackRtcp.SendBitmasks16 | src/udp.c:757-790 | read against the numbers the records were opened with, they ask for the list and nothing else; a new record is begun only for a number not among the 16 after the last base |
| NackRtcp.ReadsStand | src/rist-common.c:2071-2084 | decoding from the low halves gives numbers with the right low half, and the right number where the list has 16-bit numbers |
| NackRtcp.BitmaskRoundTrip16 | src/udp.c:757-790 | encoding and decoding a list as RTCP bitmasks asks for numbers that stand one for one for a cover of the list |
| SplitMerge.Writer.Write | src/rist.c:617-724 | the packets queued are the halves of the payload under the next even number and its successor, whatever earlier writes failed |
| SplitMerge.CutsBetween | src/rist.c:655-673 | transport packets are cut between two of them as near the middle as can be, anything else in the middle |
| SplitMerge.PartnersAreHalves | src/rist-common.c:1291-1301 | packets fewer than 65536 numbers apart that pass for partners are the two halves of one payload |
| SplitMerge.MergedIsWritten | src/rist-common.c:1291-1346 | under any loss or reordering, across 16-bit wrap, a merged block is one written payload and carries its number |
| SplitMerge.BlocksAreWritten | src/rist-common.c:1289-1356 | so in any pass, whatever was lost, each merged block handed over is one written payload with its number, and each other block one half |
| SplitMerge.PartnersByTime | src/rist-common.c:1291-1301 | where no two payloads have the same time, packets that pass for partners are halves of one payload however far apart |
| SplitMerge.OneTooMany | src/rist-common.c:1291-1301 | with 65536 numbers in flight and equal times this fails |
| SplitMerge.PartnersExactly | src/rist-common.c:1291-1301 | two packets of the stream pass for partners if and only if the first is a first half, the second's number follows modulo 65536, and their payloads have the same time |
| SplitMerge.WindowMerges | src/rist-common.c:1291-1301 | every pair in a window merges right if and only if no two payloads a multiple of 32768 apart, whose first and second half the window holds, have the same time |
| SplitMerge.WriteAll | src/rist.c:617-724 | writing payload after payload queues exactly their halves, in order |
| Streaming.PairByPair | src/rist-common.c:1142-1437 | in a pass from payload k of a stream of any length, in which whatever can be released has its other half and everything before it in the ring, block i is payload k + i |
| Streaming.NothingLost | src/rist-common.c:1142-1437 | such a pass hands over exactly as many payloads as the clock releases, never resets the flow, and leaves the rest of the stream as it was |
| Streaming.Arrive | src/rist-common.c:752-1011 | a half less than a ring ahead and not too old joins the stream in its slot, and one found there changes nothing |
| Streaming.ReadOnce | src/rist-common.c:1142-1437 | `receiver_output` on that flow returns the next payloads |
| Streaming.Play | src/rist-common.c:752-1437 | over any interleaving of arrivals and passes what has been read is what was written, up to where the stream stands |
| Streaming.AllRead | src/rist-common.c:752-1437 | after a pass by which every half has come and is due it is all of it |
| Streaming.Transfer | src/rist-common.c:752-1437 | from end to end: any number of payloads written in a split mode, their halves enqueued in any order between passes, are read as they were written |
| Schedule.OnePass | src/rist-common.c:1142-1437 | fewer than 32768 payloads that all come in time for one pass are such a stream |
| Schedule.RoundsGoWell | src/rist-common.c:752-1437 | so are any number of payloads that come at most a buffer apart and at most 32766 to a buffer, with a pass after each, and each payload is read in the first pass after it is due |
| Schedule.ConstantRate | src/rist-common.c:752-1437 | payloads at a constant rate with a buffer of `d` periods come so |
| Schedule.Relay | src/rist-common.c:752-1437 | written, enqueued and read that way they all come back, in order |
| Streaming.ReadAgain | src/rist-common.c:1176-1192 | a half that was read, in the ring again with nothing else, is taken for one almost a whole range ahead, leaves again and sets the reader back behind it |
| Streaming.Repeat | src/rist-common.c:752-1437 | enqueued again into an empty ring and due at the next pass, a half that was read is handed over again if and only if it is neither too old nor the one in the slot behind the reader, and then the reader is set back behind it |
| Bonding.MuteState.Step | src/rist-rtt-mute.h:43-76 | a leg changes sides only across its threshold after holding the condition for the settling time, so two changes are a settling time apart |
| Bonding.Peer.RttUpdate | src/rist-private.h:913-923 | the mirrored average keeps a leg that wants muting measured, unless its first measurement is zero |
| Bonding.Bond.StallCheck | src/rist-common.c:4700-4735 | a leg is left stalled exactly if it has not been heard for more than three keepalive intervals while another bonded leg is heard, so some bonded leg stays live |
| Bonding.Bond.StepAll | src/rist-common.c:4758-4776 | every measured eligible leg is judged by its own thresholds and settling times, from milliseconds to ticks, a restore threshold not below the drop threshold replaced by four fifths of it |
| Bonding.Bond.Survey | src/rist-common.c:4779-4797 | the survey tells whether any leg carries of itself, the incumbent, and the first leg with the least round trip among those that could carry |
| Bonding.Bond.PickKeep | src/rist-common.c:4804-4813 | a leg is kept exactly when none carries of itself and one is live; it is the incumbent unless a leg twice as good takes over after its settling time |
| Bonding.Bond.AssignSole | src/rist-common.c:4814-4823 | at most one bonded leg holds the sole-carrier role, timed from when it was taken |
| Bonding.Bond.ApplyMute | src/rist-common.c:4826-4860 | a leg is muted if and only if it wants muting and is not kept; each transition is counted and restarts its ramp |
| Bonding.Bond.MuteCheck | src/rist-common.c:4746-4861 | with two eligible legs the flags agree with the hysteresis and some leg carries if one is live; with fewer nothing changes |
| Bonding.Bond.Tick | src/rist-common.c:4905-4912 | after a stall check and a mute check with two eligible legs some bonded leg is neither muted nor stalled; with fewer this holds exactly if one was left unmuted and is not stalled now |
| Balancer.RampRises | src/rist-rtt-mute.h:121-130 | the ramped weight of a rejoining leg only rises and ends at the full weight |
| Balancer.RampIs | src/rist-rtt-mute.h:121-130 | while the ramp runs the share is the weight in proportion to the time past, rounded down, but at least one; before and after it is the weight |
| Balancer.Elect | src/udp.c:1068-1074 | the elected leg is the first with the most weight left; none only if every open weighted leg has spent its share |
| Balancer.Fallback | src/udp.c:1026-1036 | the fallback is a live held leg that no other beats: muted before stalled, then least round trip |
| Balancer.WherePacketsGo | src/udp.c:962-1121 | every packet goes once to each open duplicate leg and to no open weighted leg but the elected one |
| Balancer.DroppedExactly | src/udp.c:1040-1120 | a packet goes nowhere if and only if no duplicate is open, no trickle due, every open weighted leg spent, and either some leg is open or none can be fallen back to |
| Balancer.SteadySend | src/udp.c:1078-1107 | with no leg skipped or ramping, the counter stays the sum of the shares left, exactly one weighted leg carries each packet, and the last share of a round restores all |
| Balancer.Round | src/udp.c:962-1121 | a round of total-weight packets gives every leg exactly its weight and ends as it began |
| Balancer.Rounds | src/udp.c:962-1121 | over any number of rounds every leg carries its weight once a round |
| Balancer.MutedLegCostsPackets | src/udp.c:1008-1037 | with two legs of weight 5 and one muted, the sixth packet is sent to nobody |
| Balancer.Rotation.Pass | src/udp.c:973-1076 | the loop over the legs computes the election, the fallback, the early sends and the drained counter, and restores skipped legs' shares |
| Balancer.Rotation.SendData | src/udp.c:962-1121 | the code as a whole is the packet function the theorems speak of |
| AdvTs.TicksExact | src/rist-adv-ts.h:72-73 | the 64-bit product never overflows and a step is off by less than a tick |
| AdvTs.WireDelta | src/rist-adv-ts.h:72 | the signed 32-bit difference is the true step wherever the counter has wrapped |
| AdvTs.VerdictKeeps | src/rist-adv-ts.h:85-122 | a clock within half of real time over the window, rounding granted, is kept |
| AdvTs.VerdictDrops | src/rist-adv-ts.h:85-122 | a clock further off than that, or one that went back, is given up |
| AdvTs.State.Reconstruct | src/rist-adv-ts.h:50-135 | after n live packets the rebuilt clock is within n ticks of the sender's across any number of wraps; retransmissions change nothing; a window begins at the first packet and at each verdict, which falls on the first live packet past the deadline and is right in both directions about the sender's time since the window began; the result is that clock or the arrival time as the verdicts say |
| Pacer.StaysInRange | src/rist_pacer.c:40-43 | the average never leaves the range of the rates measured |
| Pacer.Converges | src/rist_pacer.c:40-44 | fed a constant rate the estimate reaches it exactly after finitely many windows and stays |
| Pacer.RateIs | src/rist_pacer.c:38 | the rate of a window times its length is the bits counted in it, to within one rate step |
| Pacer.Rate.Add | src/rist_pacer.c:22-49 | a window that ends in time is averaged in, one across an outage is not, and the estimate stays within all rates seen |
| Pacer.ReleasedInWindow | src/rist_pacer.c:94-126 | at a constant interval no window sees more than (window + slip) / interval + 1 datagrams, however calls and resynchronisations fall |
| Pacer.Pacing.Quota | src/rist_pacer.c:110-126 | the releasing loop releases what is due up to its maximum and moves the due time on by an interval each: the last one released was due, and unless the maximum was reached the next is not |
| MpegTs.Restores | src/mpegts.c:58-102 | filling what suppression left gives the payload back with every null packet in canonical form |
| MpegTs.NormalAt | src/mpegts.c:87-99 | in the restored payload each packet is the original or canonical, at its own place |
| MpegTs.CanonicalIs | src/mpegts.c:91-96 | the packet filled in is in sync and null, carries a payload flag and is stuffed with 0xFF |
| MpegTs.Suppress | src/mpegts.c:12-56 | the bits tell exactly the null packets, the rest is copied in order, and the length and result follow; the cases refused and the length then left are exact |
| MpegTs.Expand | src/mpegts.c:58-102 | the positions the bits mark are filled with null packets and the others in order from the payload; a payload too short leaves the length as it was |
| MpegTs.RoundTrip | src/mpegts.c:12-102 | suppressing and expanding restores the length and every packet, and both count the same bytes |

## Left out

- The SHA-256 compression function (contrib/sha256.c:53-92): every statement holds for any function in its place.
- AES key schedule, CBC-MAC and CCM (contrib/aes.c:265-288, 363-600): the cipher theorems hold for every key array.
- getopt with `+` or `-` leading the option string or POSIXLY_CORRECT set, error messages, `optopt`, `*idx` and flag stores (contrib/getopt-shim.c:343-358): only the permuting mode is modelled; a long option whose value is -1 is a result of its own.
- SenderRing.Sender.Enqueue: null-packet suppression is a module of its own (`MpegTs`), and neither running out of memory nor a sender without peers is modelled.
- SenderRing.Sender.Find: the retry ring (src/udp.c:1240-1330) that feeds it and the bandwidth checks behind it are not modelled; buffers not yet sent carry number 0 and may answer a request for it.
- SenderRing.Sender.SendData: the buffers are data buffers; RTCP buffers in the queue and the choice of leg (`Balancer`) are separate.
- Receiver.Flow.Accept: the packet time and the newest packet time come from outside (src/rist-common.c:593-620), as do arrival-time interpolation and the clock-offset median; a source clock that wraps, which lowers the newest source time again, is not modelled; RTC timing, buffer scaling and constant-bitrate holds are off, and the clock does not run back.
- Receiver.Flow.Output: the data-out fifo, callbacks, shutdown and statistics other than losses are not modelled; blocks are returned in order.
- MissingList.Flow.NackOutput: the legs do not change during a pass, and the clock is read once a pass.
- MissingList.Flow.MarkMissing: the packet times of the two ring slots are arguments.
- Nack.SendRanges: control headers and sequence numbers of the carrying packets (src/adv_ctrl.c:36-57) are not part of the message body modelled.
- Balancer.Rotation.SendData: listening legs with their children are not modelled, nor is changing a weight while running.
- Bonding.Bond.Tick: legs do not come or go during a tick; a bond can be set up from any legs left from before.
- SplitMerge.Writer.Write: numbers set by the caller are refused in split modes and not modelled; the queue's answer for each half is an argument.
- Pacer.Pacing.Quota: the floating-point occupancy trim (src/rist_pacer.c:68-91) is off, as its caller has it.
- AdvTs.State.Reconstruct: the true step of a packet is below 2^31 microseconds in size; a larger one cannot be told from its complement.
- Streaming.Transfer: that no event comes too early or too late is asked of the stream as it stands at each event; a half that misses its pass is covered block by block (`SplitMerge.BlocksAreWritten`). `Schedule` has two families for which it holds.
- MissingList.Flow.Found: the list and the ring are separate flows here; limits on the list and entries given up leave numbers unlisted.
- Sockets, threads, URLs, statistics, key exchange and compression.
