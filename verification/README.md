# A verified model of libmemcached's core

This project models the parts of libmemcached-awesome where correctness is hardest to see from the code, and
proves what they are meant to guarantee. `dafny verify dfyconfig.toml` checks all of it.

| files | what they model |
|---|---|
| `SubstitutionTables`, `Rijndael`, `KeySchedule`, `BlockCipher`, `Fips197`, `GrowableString`, `Aes` | the built-in AES: tables, key schedules, the cipher and the equivalent inverse cipher of FIPS 197, messages with padding, the string they are written to |
| `Md5`, `Md5Transform`, `Jenkins`, `Crc32`, `HashExamples` | digests whose fast form must equal a simple one, and entries of the repository's own list of hashes |
| `Ring`, `Continuum`, `Disruption`, `Distribution` | the ketama ring: sorting, look-up, weights, what ejection and addition move, and rebuilds over the life of a client |
| `StreamIo`, `Progress`, `Closing`, `Instance` | buffered I/O on one connection with the purge that re-enters it: the streams as functions, what holds of any outcome, when the operations succeed, when and how the connection is given up, and the instance with its two fixed buffers as a class |
| `Octets` | bytes as numbers, for the modules that count with them |
| `MultiGet` | sending a replicated multi-get under arbitrary failures |
| `Storage`, `Commands`, `Handlers` | the example server: a circular doubly linked list as a map, its commands, compare-and-swap over any run, and both callback interfaces |

The imperative code is imperative here: classes and arrays updated in place by loops, each method tied by its
`ensures` to a function of the old state, and the theorems stated about those functions.

## Main results

- **AES.** For every key, the table-driven decryption under the schedule of `rijndaelKeySetupDec` inverts the
  table-driven encryption under the schedule of `rijndaelKeySetupEnc`, and every message comes back from
  `aes_decrypt(aes_encrypt(m))`, whatever the length of the key string. What encryption computes is said byte by byte:
  the substitution is the affine image of the inverse in GF(2^8), and each byte of every round and of the key schedule
  is the sum of products that FIPS 197 asks for.
- **Digests.** Streaming MD5 is the block-by-block digest of RFC 1321 however the message is cut; the three alignment
  paths of Jenkins compute one function of the key bytes alone, whose mixing can be undone; table-driven CRC-32 is the
  bit-by-bit one. The sixty-four written-out steps of MD5 are the four rounds of RFC 1321. All three give the hashes
  that the repository's tests list for a key.
- **Ring.** Binary search on the sorted ring is a linear scan of the points. Without weights, ejecting a host moves
  only the hashes it owned and adding one moves hashes only to it, even when point values collide; with or without
  weights, exactly when this holds for every digest function is read off the digest counts of the other hosts.
  Weighted allocation never overruns the continuum and never leaves it empty. After a build every host is on the ring
  or left out, by its retry time alone, and the rebuild time is the least retry time among the hosts left out.
- **I/O.** Received bytes are never lost, repeated or reordered, over any run of writes, vectored writes and reads and
  for any answers of the operating system. After every successful run the accepted bytes are a subsequence of wire and
  buffer: none is lost or reordered, and for each purge inside a send loop at most one stretch, no longer than a
  buffer, is sent again. Every successful run on a fresh connection leaves exactly the accepted bytes, in order, on
  the wire and in the buffer if and only if `poll_timeout` is zero, the message watermark is at most two or the byte
  watermark is zero. Sends, reads and lines succeed exactly when the operating system takes or delivers enough, and a
  purge acts exactly when a watermark is reached. A connection that is given up leaves nothing to be read.
- **Multi-get.** Each key is written at most once, only to one of its replicas, never to a server that has failed, in
  at most keys + servers attempts, and each attempt goes to the first choice of its key that has not failed. Whether
  every unsent key has only failed replicas is decided exactly, for all numbers of servers, replicas and keys and
  every randomized start.
- **Store.** Over any run of both interfaces the list stays one cycle that represents a map. Tokens are distinct, a
  swap succeeds, with memory at hand, exactly on the very item that was given its token, and at most one swap per
  token succeeds, counting every set on a key that is there. A token stays good over any run that does not touch its
  key. What a command stored is read back as it was asked for after any run that does not touch it.

## Where the code falls short of what one might expect

Each of these is stated as an if-and-only-if.

- `io_wait` purges before it polls. A purge that becomes due inside the send loop sends the whole buffer again from its
  start. A successful flush has sent the buffer once, for all answers of the operating system, if and only if no
  purge can become due before the last byte or `poll_timeout` is zero (`StreamIo.FlushExact`). Over whole runs this
  never happens if and only if the settings rule it out (`StreamIo.RunExact`); for all others a run is given in which
  it does (`StreamIo.RepeatingRunRepeats`).
- `memcached_purge` reports three read errors only, although its comment speaks of any problem reading from the network.
  So a flush can succeed on a connection that it has just closed, if and only if a purge with replies to read is due
  at its start (`StreamIo.FlushStaysOpen`).
- With weights, a host that is ejected or added changes the digest counts of the others, and hashes can move between
  them. For every digest function only hashes of host h change their owner from one build to another without h if and
  only if, among the other hosts, none gains digests while a different one has some before, and none loses digests
  while a different one has some after (`Disruption.DisruptionExact`). `Disruption.WeightedEjectionMoves` gives hosts
  of weight 1, 1 and 2: ejecting the third moves a hash from the first to the second.
- `replication_binary_mget` stops after the first round without a failure, and a randomized start can miss replicas. No
  key is ever left unsent with a live replica if and only if there is no key, or both of these hold: the start is a
  multiple of the server count or leaves a shifted round for every server; and there is at most one key, at most one
  replica or at most two servers (`MultiGet.CompletenessExact`). `MultiGet.KeyLost` and `MultiGet.UnreachedReplica`
  give the failures for all other numbers.
- `aes_encrypt` of an empty message allocates nothing but writes one block (`Aes.CipherTextFits`).
- The guard `i + 63 < inputLen` of `MD5Update` wraps around if and only if the buffered bytes and the input together
  reach 2^32 bytes (`Md5.GuardStops`, with an input in `Md5.GuardWraps`). `md5_signature` and `MD5Final` never pass
  such an input: the former starts with an empty buffer, the latter passes at most 64 bytes.
- `set` with a spent token succeeds if and only if its key is gone (`Commands.SetOnSpentToken`, with such a run in
  `Commands.SpentTokenAccepted`). `set`, `replace`, increment and decrement delete the old item before they create the
  new one, and lose it when memory runs out; `Commands.FailureEffect` says exactly when.
- The increment handler of interface_v1.cc copies the key into 1024 bytes. The copy stays in bounds if and only if the key
  has at most 1024 bytes (`Handlers.CopyInBounds`).
- `put_item` does not look for its key: the list still stands for a map if and only if the key was not there
  (`Storage.Store.PutItem`).

## Model

| member | source | states |
|---|---|---|
| SubstitutionTables.SiInvertsS | src/libhashkit/rijndael.cc:192-427 | the inverse table undoes the substitution table on every byte |
| Fips197.SubstitutionMeaning | src/libhashkit/rijndael.cc:192-230 | undoing the affine transformation of an entry gives the inverse of its index in GF(2^8), zero for zero (section 5.1.1 of FIPS 197) |
| Rijndael.InvMixColumnLinear | src/libhashkit/rijndael.cc:21-33 | InvMixColumn distributes over exclusive or |
| Rijndael.InvMixColumnInverts | src/libhashkit/rijndael.cc:21-33 | InvMixColumn undoes MixColumn for every column |
| Rijndael.InvSubShiftInverts | src/libhashkit/rijndael.cc:694-817 | inverse substitution and row shift, in the order decryption applies them, undo those of encryption |
| Rijndael.EncWordIsRound | src/libhashkit/rijndael.cc:569-692 | four table look-ups and a key word are one column of SubBytes, ShiftRows, MixColumns and AddRoundKey |
| Rijndael.DecWordIsRound | src/libhashkit/rijndael.cc:694-817 | the same for a round of the equivalent inverse cipher |
| Rijndael.LastWords | src/libhashkit/rijndael.cc:676-692 | the masked look-ups of the last round are a round without the mixing, for encryption and decryption |
| Rijndael.DecKeyWordIsInvMix | src/libhashkit/rijndael.cc:555-565 | the look-ups applied to middle round keys are InvMixColumn |
| Rijndael.BackwardMeetsForward | src/libhashkit/rijndael.cc:569-817 | after r rounds of decryption the state is the one encryption had with nr - 1 - r rounds behind it |
| Rijndael.InvCipherInverts | src/libhashkit/rijndael.cc:569-817 | for any number of rounds the inverse cipher under an inverse schedule gives back every block |
| KeySchedule.RconIsPowerOfX | src/libhashkit/rijndael.cc:428-432 | the round constants are the powers of x in GF(2^8) |
| KeySchedule.FirstWordIsKeyStep | src/libhashkit/rijndael.cc:459-526 | the masked look-ups and the constant are RotWord, SubWord and Rcon of section 5.2 of FIPS 197 |
| KeySchedule.FifthWordIsKeyStep | src/libhashkit/rijndael.cc:515-517 | the extra look-up of 256-bit keys is the SubWord of section 5.2 of FIPS 197 |
| KeySchedule.KeySetupEnc | src/libhashkit/rijndael.cc:459-526 | for each key size the array ends up as the schedule of section 5.2 of FIPS 197 and the round count is returned, zero for other sizes |
| KeySchedule.Expand128 | src/libhashkit/rijndael.cc:467-481 | the loop for 128-bit keys fills all 44 words of the schedule |
| KeySchedule.Expand192 | src/libhashkit/rijndael.cc:482-500 | the loop for 192-bit keys fills all 52 words |
| KeySchedule.Expand256 | src/libhashkit/rijndael.cc:501-524 | the loop for 256-bit keys fills all 60 words |
| KeySchedule.KeySetupDec | src/libhashkit/rijndael.cc:533-567 | for each key size the array ends up as the inverse schedule: round keys reversed, the middle ones mixed |
| KeySchedule.ReverseKeys | src/libhashkit/rijndael.cc:540-554 | swapping from both ends puts round key nr - r at r, for all r |
| KeySchedule.MixMiddleKeys | src/libhashkit/rijndael.cc:555-565 | every round key but the first and last is mixed, exactly once |
| Fips197.KeyWordMeaning | src/libhashkit/rijndael.cc:459-526 | each byte of the schedule is a key byte, or the sum of the byte nk words before and of the byte before it: substituted and rotated with the power of x at a group's start, substituted in the middle of a group of eight |
| Fips197.KeyExample128 | src/libhashkit/rijndael.cc:467-481 | a word of the schedule in appendix A.1 of FIPS 197 |
| Fips197.KeyExample256 | src/libhashkit/rijndael.cc:501-524 | a word of the schedule in appendix A.3 of FIPS 197 |
| BlockCipher.DecryptInvertsEncrypt | src/libhashkit/rijndael.cc:569-817 | decrypting the bytes of an encrypted block gives the block |
| BlockCipher.EncRoundIsRound | src/libhashkit/rijndael.cc:654-675 | one unrolled step on s0..s3 is one round of the cipher |
| BlockCipher.DecRoundIsInvRound | src/libhashkit/rijndael.cc:779-800 | one unrolled step is one round of the inverse cipher |
| BlockCipher.EncryptWords | src/libhashkit/rijndael.cc:569-692 | the loop, two rounds at a time, computes the cipher of FIPS 197 |
| BlockCipher.DecryptWords | src/libhashkit/rijndael.cc:694-817 | the loop computes the equivalent inverse cipher |
| BlockCipher.Encrypt | src/libhashkit/rijndael.cc:569-692 | the sixteen output bytes are the encrypted block and nothing else is written |
| BlockCipher.Decrypt | src/libhashkit/rijndael.cc:694-817 | the same for decryption |
| Fips197.CellByte | src/libhashkit/rijndael.cc:443-452 | input and output bytes fill the columns of the state one after the other |
| Fips197.ShiftedCell | src/libhashkit/rijndael.cc:569-692 | a byte after substitution and shift is the substituted byte as many columns to the right as its row |
| Fips197.MixColumnRow | src/libhashkit/rijndael.cc:21-33 | a mixed byte is twice the byte, three times the next and the two after that, in GF(2^8) |
| Fips197.RoundMeaning | src/libhashkit/rijndael.cc:569-692 | each byte of a full round, of the last round and of the first addition from bytes of the state before |
| Fips197.CipherMeaning | src/libhashkit/rijndael.cc:569-692 | the states of an encryption are, byte by byte, those of section 5.1 of FIPS 197, from the first key addition to the last round |
| Fips197.KeyCell | src/libhashkit/rijndael.cc:569-692 | round key i is words 4 i to 4 i + 3 of the schedule, one for each column |
| Fips197.BlockMeaning | src/libhashkit/rijndael.cc:569-692 | from the sixteen bytes put in to the sixteen that come out: they fill the columns of the first state, the states are those of section 5.1 of FIPS 197, and the columns of the last are written out in order |
| GrowableString.OverflowTestExact | src/libhashkit/string.cc:39-43 | the test new_size < need fires exactly when the size did not fit in size_t; the new size is whole blocks of 1024 bytes more, beyond what is needed by at most one |
| GrowableString.HashkitString.Check | src/libhashkit/string.cc:29-58 | succeeds exactly when there is room or the block-wise growth is granted, keeps the contents, and leaves the room that was asked for |
| GrowableString.HashkitString.SetLength | src/libhashkit/string.cc:190-195 | the length is set exactly when room can be had, with the old contents kept |
| GrowableString.Create | src/libhashkit/string.cc:65-77 | an empty string of the grown capacity; nothing exactly when an allocation fails or the capacity is beyond any object |
| Aes.DecryptBlocksInverts | src/libhashkit/aes.cc:228-265 | decrypting block by block undoes encrypting block by block |
| Aes.MessageRoundTrip | src/libhashkit/aes.cc:217-284 | decryption gives back every message of every length from its padded cipher text |
| Aes.MessageMeaning | src/libhashkit/aes.cc:217-240 | what is encrypted block by block is the message followed by 1 to 16 bytes, each of which is their number |
| Aes.KeyRoundTrip | src/libhashkit/aes.cc:179-284 | every key made by aes_create_key decrypts what it encrypted |
| Aes.BlocksApart | src/libhashkit/aes.cc:228-233 | every block is encrypted on its own, where it stands |
| Aes.PaddingExact | src/libhashkit/aes.cc:266-280 | whatever was encrypted, decryption takes off as many bytes as its last byte says, and refuses more than sixteen |
| Aes.SumOfStrideAppend | src/libhashkit/aes.cc:186-195 | one more key byte changes only the folded byte at its position modulo 32 |
| Aes.FoldMeaning | src/libhashkit/aes.cc:186-195 | a key string of at most 32 bytes is padded with zeros; of a longer one the first 32 bytes are added to the key made of the rest |
| Aes.FoldKey | src/libhashkit/aes.cc:186-195 | byte i of the key is the sum of the key string's bytes i, i + 32, i + 64 and so on |
| Aes.AesKey.constructor | src/libhashkit/aes.cc:182-198 | the encoding schedule is that of the folded key and the decoding schedule its inverse |
| Aes.CreateKey | src/libhashkit/aes.cc:179-202 | nothing exactly when the allocation fails, else such a key |
| Aes.CipherTextFits | src/libhashkit/aes.cc:224-240 | the string created for n bytes holds all cipher blocks if and only if n > 0 |
| Aes.AesEncrypt | src/libhashkit/aes.cc:217-244 | nothing exactly without a key or memory, else a string holding the encrypted padded message |
| Aes.EncodeInto | src/libhashkit/aes.cc:226-240 | the block loop and the padded last block write the encrypted message |
| Aes.AesDecrypt | src/libhashkit/aes.cc:246-284 | nothing exactly without a key or memory, for an empty text or one that is not whole blocks, or for a last byte above 16; else a string holding the decrypted message |
| Aes.DecodeBlocks | src/libhashkit/aes.cc:258-265 | the loop over all blocks but the last decrypts them |
| Aes.DecodeInto | src/libhashkit/aes.cc:256-280 | the last byte is the padding length and what precedes the padding is the message |
| Md5.ChainAppend | src/libhashkit/md5.cc:145-176 | chaining over a whole number of blocks and then the rest is chaining over both |
| Md5.InitialBytes | src/libhashkit/md5.cc:129-138 | the initial state is the sixteen bytes of section 3.3 of RFC 1321 |
| Md5.ChainMeaning | src/libhashkit/md5.cc:145-176 | chaining passes through one state for each block, in order |
| Md5.DigestMeaning | src/libhashkit/md5.cc:129-206 | the digest said of bytes: the message, 0x80, zeros, and the bit count in two words fill whole blocks and no more than needed; the blocks are compressed in order from the initial words; the last four words are written out low byte first |
| Md5.GuardStops | src/libhashkit/md5.cc:167 | the loop guard is false with fewer than 64 bytes left if and only if buffered bytes and input stay below 2^32 bytes |
| Md5.GuardWraps | src/libhashkit/md5.cc:167 | with 32 bytes buffered and 2^32 - 1 more, the loop goes on with 31 bytes left |
| Md5.Context.constructor | src/libhashkit/md5.cc:129-138 | a context that has absorbed nothing |
| Md5.Context.Update | src/libhashkit/md5.cc:145-176 | appends the input to the message absorbed: state, two-word bit count and buffer follow it |
| Md5.Context.AddCount | src/libhashkit/md5.cc:154-157 | the two-word addition adds eight times the length modulo 2^64 |
| Md5.Context.Absorb | src/libhashkit/md5.cc:159-175 | state and buffer follow the message with the input appended |
| Md5.Context.Compress | src/libhashkit/md5.cc:163-170 | the state covers every whole block of message and input |
| Md5.Context.CompressBlocks | src/libhashkit/md5.cc:167-168 | the loop, with its 32-bit index, stops at the last whole block |
| Md5.Context.KeepTail | src/libhashkit/md5.cc:174-175 | the buffer keeps exactly the input that is left |
| Md5.Context.Pad | src/libhashkit/md5.cc:182-198 | the state covers message, padding and bit count of sections 3.1 and 3.2 of RFC 1321 |
| Md5.Context.Final | src/libhashkit/md5.cc:182-206 | the digest is the RFC 1321 digest of everything absorbed, and the context is cleared |
| Md5.SameMessageSameContext | src/libhashkit/md5.cc:145-176 | contexts that absorbed the same message in any pieces agree on state, count and buffered bytes |
| Md5.Encode | src/libhashkit/md5.cc:300-309 | words become bytes, low byte first |
| Md5.Signature | src/libhashkit/md5.cc:119-125 | for every message below 2^32 bytes the result is its RFC 1321 digest |
| Md5Transform.Round1 | src/libhashkit/md5.cc:215-231 | the sixteen written-out steps are the first four groups of the rounds of RFC 1321, with their words, rotations and constants |
| Md5Transform.Round2 | src/libhashkit/md5.cc:233-249 | the same for the second round |
| Md5Transform.Round3 | src/libhashkit/md5.cc:251-267 | the same for the third round |
| Md5Transform.Round4 | src/libhashkit/md5.cc:269-285 | the same for the fourth round |
| Md5Transform.Decode | src/libhashkit/md5.cc:314-320 | a block becomes sixteen words, low byte first |
| Md5Transform.WordRoundTrip | src/libhashkit/md5.cc:300-320 | encoding a decoded word gives its four bytes |
| Md5Transform.Transform | src/libhashkit/md5.cc:210-296 | the new state is the old one plus the four rounds over the words of the block (section 3.4 of RFC 1321) |
| Md5Transform.HashkitMd5 | src/libhashkit/md5.cc:322-330 | the bytes of the hash, low byte first, are the first four of the digest |
| HashExamples.Md5OfFox | test/fixtures/hashes.hpp:43-47 | the digest of the last key listed, and its hash |
| Jenkins.LastBlock | src/libhashkit/jenkins.cc:110-174 | a last block adds the key's words padded with zeros |
| Jenkins.AddRead32IsPlus | src/libhashkit/jenkins.cc:110-174 | reading a whole word and masking it adds the zero-padded word, whatever lies beyond the key |
| Jenkins.AddRead16IsPlus | src/libhashkit/jenkins.cc:190-239 | two half-words add the same word |
| Jenkins.AddRead8IsPlus | src/libhashkit/jenkins.cc:262-306 | single bytes, added from the last to the first, add the same word |
| Jenkins.AddFourIsPlus | src/libhashkit/jenkins.cc:243-258 | four shifted bytes add the same word |
| Jenkins.ByWords | src/libhashkit/jenkins.cc:97-174 | the 4-byte-aligned path computes the reference hash of the key |
| Jenkins.ByHalves | src/libhashkit/jenkins.cc:176-239 | the 2-byte-aligned path computes the same |
| Jenkins.ByBytes | src/libhashkit/jenkins.cc:241-306 | the byte path computes the same |
| Jenkins.HashAt | src/libhashkit/jenkins.cc:83-313 | the hash depends on the key's bytes only, not on its address or on what follows it |
| Jenkins.HashMeaning | src/libhashkit/jenkins.cc:97-312 | blocks of twelve bytes are mixed in while more than twelve are left, and the last one to twelve go through final; an empty key is not mixed |
| Jenkins.HashOfKey | src/libhashkit/jenkins.cc:83-312 | the hash of every key from its length, 0xdeadbeef and 13 on |
| Jenkins.ZeroPadded | src/libhashkit/jenkins.cc:110-174 | a short last block adds what it would add with zeros behind it |
| Jenkins.MixReversible | src/libhashkit/jenkins.cc:22-42 | mixing loses nothing: there is a state-by-state inverse |
| Jenkins.FinalMixReversible | src/libhashkit/jenkins.cc:44-60 | the same for the final mixing |
| HashExamples.JenkinsOfFox | test/fixtures/hashes.hpp:98-102 | the hash of the last key listed |
| Crc32.TableIsStep8 | src/libhashkit/crc32.cc:18-51 | every entry of the table is eight bit steps of its index |
| Crc32.TableStep | src/libhashkit/crc32.cc:58 | one look-up is feeding one byte bit by bit |
| Crc32.SignDoesNotMatter | src/libhashkit/crc32.cc:58 | a key byte above 127 selects the same entry whether char is signed or not |
| Crc32.CrcOfNothing | src/libhashkit/crc32.cc:53-61 | the CRC of an empty key is zero |
| Crc32.CrcOfOneMore | src/libhashkit/crc32.cc:57-60 | one more byte is fed, bit by bit, to the complement of the CRC so far |
| Crc32.Hash | src/libhashkit/crc32.cc:53-61 | bits 16 to 30 of the bit-by-bit CRC-32 (section 8 of RFC 1952) of the key |
| HashExamples.CrcOfApple | test/fixtures/hashes.hpp:49-52 | the hash of the first key listed |
| Ring.InsertSorted | src/libmemcached/hosts.cc:84-103 | inserting into a sorted ring keeps it sorted and adds exactly one point |
| Ring.SortSorts | src/libmemcached/hosts.cc:270-272 | the sorted points are sorted and are the same points |
| Ring.SortedMeaning | src/libmemcached/hosts.cc:84-103 | sorted means by value and, among equal values, by host |
| Ring.SortUnique | src/libmemcached/hosts.cc:84-103 | continuum_item_cmp leaves one sorted order only, so every correct qsort gives it |
| Ring.Scan | src/libmemcached/hash.cc:36-52 | a point that no other comes before, counting from the hash upward and then from zero |
| Ring.ScanMeaning | src/libmemcached/hash.cc:36-52 | it is the least point at or above the hash if there is one, else the least point |
| Ring.Dispatch | src/libmemcached/hash.cc:36-52 | binary search with wraparound returns the host of the scan |
| Ring.ScanSubset | src/libmemcached/hash.cc:36-52 | removing other points does not change the winner |
| Ring.ScanReordered | src/libmemcached/hash.cc:36-52 | the winner does not depend on the order of the points |
| Continuum.ShareBounds | src/libmemcached/hosts.cc:178-184 | the shares of any first hosts sum up to their part of the total weight, within the error |
| Continuum.AllocationBound | src/libmemcached/hosts.cc:178-184 | with weights, at least one digest and at most 40 for each live host are handed out in all, if the rounding errors of the live hosts stay below one digest |
| Continuum.DigestsNonNegative | src/libmemcached/hosts.cc:178-184 | no host's share is negative |
| Continuum.PointsCounted | src/libmemcached/hosts.cc:173-264 | the number of points written is what pointer_counter counts |
| Continuum.PointsFit | src/libmemcached/hosts.cc:143-272 | the points of a build with a live host fit the continuum and are not none |
| Continuum.PointsAre | src/libmemcached/hosts.cc:173-264 | the ring has exactly the points of the live hosts |
| Disruption.AllAre | src/libmemcached/hosts.cc:173-264 | a ring point is one of the values of the digests its host has in that build |
| Disruption.LiveMeaning | src/libmemcached/hosts.cc:119-135 | the live hosts counted are those whose retry time is not after now, or all without auto-eject |
| Disruption.WeightMeaning | src/libmemcached/hosts.cc:164-171 | the total weight is the number of units of weight of those hosts |
| Disruption.RingMeaning | src/libmemcached/hosts.cc:173-264 | over retry times and weights alone: a point is on the ring if and only if its host is live and it is one of that host's 100 digests, or of the four values of the digests of its share of the weight |
| Disruption.RingSize | src/libmemcached/hosts.cc:143-190 | without weights the ring has 100 points for each live host |
| Disruption.OwnerMeaning | src/libmemcached/hash.cc:36-52 | the owner of a hash has the least value at or above it, or the least of all, and is the first host with that value |
| Disruption.OwnerSurvives | src/libmemcached/hosts.cc:173-272 | with or without weights, if the other hosts' digests are undisturbed, every hash not owned by the host that goes keeps its owner |
| Disruption.GainDisturbs | src/libmemcached/hosts.cc:178-184 | for a host that gains digests and another that had some, digest values for which a hash moves from the latter to the former |
| Disruption.LossDisturbs | src/libmemcached/hosts.cc:178-184 | for a host that loses digests and another that has some afterwards, digest values for which a hash moves to the latter |
| Disruption.DisruptionExact | src/libmemcached/hosts.cc:173-272 | with or without weights, for every digest function only hashes of the host that goes change their owner, if and only if the other hosts' digests are undisturbed |
| Disruption.EjectionMovesOnlyItsHashes | src/libmemcached/hosts.cc:105-272 | without weights, ejecting a host, with another still live, changes the owner only of hashes it owned |
| Disruption.AdditionMovesOnlyToNewHost | src/libmemcached/hosts.cc:105-272 | without weights, after appending a host each hash keeps its owner or moves to the new host |
| Disruption.WeightedEjectionMoves | src/libmemcached/hosts.cc:178-184 | with weights 1, 1 and 2 and exact shares, ejecting the third host can move a hash from the first to the second |
| Distribution.Client.CountLive | src/libmemcached/hosts.cc:119-135 | counts the live hosts; the rebuild time is the least retry time among the hosts still waiting, zero if there are none |
| Distribution.LiveOrLeftOut | src/libmemcached/hosts.cc:119-135 | by retry times: no host is counted live if and only if all are waiting, and a host is left out if and only if it is waiting |
| Distribution.LeastIsScheduled | src/libmemcached/hosts.cc:119-135 | over retry times alone: the rebuild time is the retry time of a waiting host and no later than that of any other, zero if none is waiting |
| Distribution.Client.UpdateContinuum | src/libmemcached/hosts.cc:105-285 | the ring is the sorted points of the live hosts at that time: by retry times, each host that is not waiting has its points there, every other is left out, there are no further points, and the next rebuild is due at the least retry time among those left out; with no live host the old ring stays as it was, and likewise without memory, which is reported exactly when 160 points for each live host, 100 without weights, do not fit and cannot be had |
| Distribution.Client.Rebuild | src/libmemcached/hosts.cc:164-272 | points written, counted and sorted in place are the one sorted order of the live hosts' points |
| Distribution.RebuiltPoints | src/libmemcached/hosts.cc:270-272 | the sorted ring has the points of the build and no others |
| Distribution.Client.TotalWeight | src/libmemcached/hosts.cc:164-171 | the weight of the live hosts |
| Distribution.Client.Fill | src/libmemcached/hosts.cc:173-264 | writes the points of all live hosts, in order, within the continuum, and counts them |
| Distribution.Client.WriteHost | src/libmemcached/hosts.cc:193-261 | appends the points of one host |
| Distribution.SortPrefix | src/libmemcached/hosts.cc:270-272 | the points counted end up sorted by continuum_item_cmp, each as often as before, and nothing behind them is touched |
| Distribution.Client.ServerAdd | src/libmemcached/hosts.cc:287-325 | appends a host, switches to weights when needed, rebuilds and schedules the next rebuild; if the host list cannot grow nothing changes |
| Distribution.Client.AppendHost | src/libmemcached/hosts.cc:299-322 | the hosts before keep their place and ring, and the new one is live |
| Distribution.Client.ServersReset | src/libmemcached/memcached.cc:234-247 | no hosts and no ring; the rebuild time and the hosts left out stay |
| Distribution.Client.SetRetry | src/libmemcached/server.hpp:51-57 | a change of a retry time keeps the ring of the last build |
| Distribution.Client.Regenerate | src/libmemcached/hash.cc:95-103 | rebuilds exactly when the retry time of a host left out has passed; then the hosts left out are those still waiting and the next rebuild is due at the least of their retry times, else both are as before; no host left out is overdue |
| Distribution.Client.Lookup | src/libmemcached/hash.cc:109-116 | over any history of additions, resets and rebuilds, the host is the scan's choice among the points of the last build and is a host there is; the schedule is kept as by Regenerate |
| Distribution.LookupPoints | src/libmemcached/hash.cc:36-52 | scanning the sorted ring and scanning the points of the build agree |
| StreamIo.RepackConserves | src/libmemcached/io.cc:35-85 | an attempt to receive more loses and repeats no byte and leaves the sending side alone |
| StreamIo.FillConserves | src/libmemcached/io.cc:392-464 | filling the buffer, through any interrupts and waits, loses and repeats no byte; success means at least one |
| StreamIo.ReadExact | src/libmemcached/io.cc:466-511 | for any split of the stream into receives, bytes handed out, unread and not yet received concatenate to the same stream as before |
| StreamIo.ReadGives | src/libmemcached/io.cc:768-789 | a successful read hands out exactly the next length bytes of the stream |
| StreamIo.LineExact | src/libmemcached/io.cc:791-838 | a line is the bytes up to the first newline; one that would fill the buffer is refused; nothing is lost |
| StreamIo.OneReplyRead | src/libmemcached/response.cc:745-769 | a reply read on a connection that stays open lowers the pending count by one, or not if it announces another |
| StreamIo.RepliesRead | src/libmemcached/purge.cc:97-122 | after n replies the pending count is lower by n, plus those announced |
| StreamIo.PurgeLaw | src/libmemcached/purge.cc:52-128 | a purge clears is_purging and restores poll_timeout on every path, puts the buffer on the wire once, and leaves one reply pending besides those announced |
| StreamIo.WaitLaw | src/libmemcached/io.cc:257-276 | waiting for the socket either changes nothing or sends the whole buffer |
| StreamIo.SendLoopLaw | src/libmemcached/io.cc:307-379 | without a purge inside it the loop puts a prefix of the rest on the wire, all of it if it succeeds; with one, a prefix of the rest with the whole buffer inserted at one place, all of it if it succeeds |
| StreamIo.FlushAccepts | src/libmemcached/io.cc:278-382 | a flush, with the purge at its start, puts the accepted bytes on the wire in order, in part if it fails, with one stretch repeated in its own middle for each purge inside the loop, and strictly more than the accepted bytes if there was one |
| StreamIo.RepeatsKeeps | src/libmemcached/io.cc:307-379 | bytes repeated in this way any number of times still hold the accepted bytes as a subsequence |
| StreamIo.WriteAccepts | src/libmemcached/io.cc:566-610 | the same for a write of any length |
| StreamIo.WritevAccepts | src/libmemcached/io.cc:628-651 | the same for a vectored write |
| StreamIo.RunAccepts | src/libmemcached/io.cc:566-651 | the same for any run of writes, vectored writes, expected replies and replies read |
| StreamIo.RunConserves | src/libmemcached/io.cc:278-651 | after any successful run the accepted bytes are a subsequence of wire and buffer, and all of them if and only if no purge ran inside a send loop; received bytes, is_purging and poll_timeout are kept either way |
| StreamIo.FewPending | src/libmemcached/purge.cc:52-128 | outside a purge the send loop is entered with fewer replies pending than the watermark, or at most one besides those announced |
| StreamIo.QuietLoop | src/libmemcached/io.cc:307-379 | if no purge can become due before the last byte, none runs inside the loop |
| StreamIo.QuietFlush | src/libmemcached/io.cc:278-382 | then none runs inside the loop of a flush |
| StreamIo.RepeatingFlush | src/libmemcached/io.cc:278-382 | otherwise there are answers of the operating system for which a flush succeeds after such a purge |
| StreamIo.ZeroTimeout | src/libmemcached/io.cc:162-165 | with poll_timeout zero no loop succeeds after a purge inside it |
| StreamIo.FlushExact | src/libmemcached/io.cc:278-382 | every successful flush has sent the buffer once if and only if the instance is quiet or poll_timeout is zero |
| StreamIo.CalmRun | src/libmemcached/purge.cc:55-63 | with poll_timeout zero, a message watermark of at most two or a byte watermark of zero, no purge runs inside a send loop of a successful run |
| StreamIo.RepeatingRunRepeats | src/libmemcached/io.cc:257-276 | with all other settings, a run and answers of the operating system for which one does |
| StreamIo.RunExact | src/libmemcached/io.cc:278-651 | on a fresh connection every successful run leaves exactly the accepted bytes in order on the wire and in the buffer if and only if the settings are such |
| StreamIo.FlushStaysOpen | src/libmemcached/purge.cc:97-127 | every successful flush leaves the connection open if and only if no purge with replies to read is due at its start |
| Progress.PurgeGuard | src/libmemcached/purge.cc:52-95 | inside a purge, below both watermarks, or with fewer than two replies pending past the byte watermark, a purge changes nothing; otherwise, if it succeeds, the buffer is on the wire and all replies but one are read |
| Progress.SendExact | src/libmemcached/io.cc:307-379 | while no send blocks, the loop succeeds if and only if the answers take enough bytes; then all of the rest is on the wire and nothing else changed, else as much of it as was taken and the connection is closed |
| Progress.Blocked | src/libmemcached/io.cc:333-356 | on EAGAIN with nothing to receive and no purge due, the loop goes on when the socket is ready, stops when it is not in time and closes the connection otherwise |
| Progress.BlockedReceives | src/libmemcached/io.cc:333-345 | on EAGAIN with something to receive, it is received and the loop goes on without waiting |
| Progress.WriteExact | src/libmemcached/io.cc:566-610 | if the answers take enough, a write puts every full buffer of 8196 bytes on the wire and keeps the rest, or all with a flush |
| Progress.WriteSplits | src/libmemcached/io.cc:566-610 | for any answers, writing two pieces one after the other is writing them as one |
| Progress.WritevIsWrite | src/libmemcached/io.cc:628-651 | for any answers, a vectored write is a write of the pieces joined |
| Progress.FillGives | src/libmemcached/io.cc:392-464 | if no receive fails and every wait ends with the socket ready, a fill succeeds if and only if there is something to come, else the connection is closed |
| Progress.ReadSucceeds | src/libmemcached/io.cc:466-511 | then a read succeeds if and only if there are as many bytes, and leaves all the others |
| Progress.LineOutcomeExact | src/libmemcached/io.cc:791-838 | then a line is complete if and only if there is a newline before the last place in the buffer, and refused if and only if the buffer fills up without |
| Progress.ReportsExact | src/libmemcached/purge.cc:97-122 | the replies read in a purge are reported as failed if and only if one of them has one of the three codes |
| Progress.RepliesArrive | src/libmemcached/purge.cc:97-122 | replies that are there are all read, and the connection stays open |
| Progress.PurgeSucceeds | src/libmemcached/purge.cc:52-128 | a purge that is due succeeds if its bytes are taken and its replies arrive, whatever poll_timeout was |
| Closing.FillSettles | src/libmemcached/io.cc:392-464 | filling leaves the connection open, or closed with both buffers, the count of bytes sent and the expected replies all gone |
| Closing.ReadSettles | src/libmemcached/io.cc:466-511 | the same for a read of any length |
| Closing.SendSettles | src/libmemcached/io.cc:307-379 | the same for the send loop, with any purge inside it |
| Closing.PurgeSettles | src/libmemcached/purge.cc:52-128 | the same for a purge |
| Closing.FlushSettles | src/libmemcached/io.cc:278-382 | the same for a flush |
| Closing.DoDrains | src/libmemcached/io.cc:278-651 | any operation on an open connection leaves it open, or closed with no byte unread, none counted and no reply expected, and with nothing to be written if it failed |
| Closing.RunDrains | src/libmemcached/io.cc:278-651 | the same for any run, but for what is to be written |
| Closing.NothingReadAfter | src/libmemcached/io.cc:667-697 | nothing can be read after that, not even a line that was buffered |
| Closing.FillAnswers | src/libmemcached/io.cc:392-464 | what each answer leads to while filling: a failed receive and a hang-up give the connection up, another poll error or no answer in time does not |
| Closing.ReplyOutcome | src/libmemcached/response.cc:745-769 | a reply leaves the connection open if and only if all of it arrives and its code is not fatal |
| Closing.PurgeOutcome | src/libmemcached/purge.cc:52-128 | a due purge whose bytes are taken, and the flush that it comes before, succeed if and only if none of the replies it reads has one of the three codes |
| Closing.BlockedPurges | src/libmemcached/io.cc:257-276 | a blocked send with a purge due purges before it polls, and gives the connection up if the purge fails or loses it |
| Instance.Instance.constructor | src/libmemcached/instance.cc:23-53 | both buffers empty, nothing sent, nothing pending |
| Instance.Instance.CloseSocket | src/libmemcached/io.cc:667-697 | closed, with both offsets, the count of bytes sent and the response count zero |
| Instance.Instance.Recv | src/libmemcached/io.cc:52-76 | received bytes are appended to the unread part of the buffer |
| Instance.Instance.RepackInputBuffer | src/libmemcached/io.cc:35-85 | moves the unread bytes to the front and receives once into the room behind them |
| Instance.Instance.MoveToFront | src/libmemcached/io.cc:36-42 | the overlapping move keeps the unread bytes |
| Instance.Instance.IoPoll | src/libmemcached/io.cc:150-255 | the outcome of a poll, which closes the connection on a hang-up |
| Instance.Instance.IoFill | src/libmemcached/io.cc:392-464 | does to the buffers what filling does to the streams |
| Instance.Instance.IoRead | src/libmemcached/io.cc:466-511 | on success the caller's buffer holds the next length bytes of the stream |
| Instance.Instance.SafeRead | src/libmemcached/io.cc:768-789 | the same, with everything else about the stream kept |
| Instance.Instance.IoReadline | src/libmemcached/io.cc:791-838 | the caller's buffer holds a line in the sense of LineExact |
| Instance.Instance.ReadOneResponse | src/libmemcached/response.cc:745-769 | one reply is read and counted |
| Instance.Instance.ReadResponses | src/libmemcached/purge.cc:97-122 | the loop reads on after a failure and reports it at the end |
| Instance.Instance.MemcachedPurge | src/libmemcached/purge.cc:52-128 | does what a purge does to the streams, and keeps PurgeLaw |
| Instance.Instance.IoWait | src/libmemcached/io.cc:257-276 | purges, then polls |
| Instance.Instance.TryAgain | src/libmemcached/io.cc:333-356 | after EAGAIN, whether and from which state the loop goes on |
| Instance.Instance.SendAll | src/libmemcached/io.cc:307-382 | the loop over the buffer with its local pointer and length sends what the send loop sends |
| Instance.Instance.IoFlush | src/libmemcached/io.cc:278-382 | the purge comes first, and the offset is read only afterwards |
| Instance.Instance.IoWrite | src/libmemcached/io.cc:566-626 | the accepted bytes, in order and with one stretch repeated for each purge inside a send loop, are on the wire and in the buffer, in part on the wire if the write fails |
| Instance.Instance.IoWritev | src/libmemcached/io.cc:628-651 | the same for all vectors in order |
| Instance.Instance.Perform | src/libmemcached/io.cc:466-651 | any write, vectored write, expected reply or reply read does to the buffers what it does to the streams |
| Instance.Instance.PerformAll | src/libmemcached/io.cc:278-651 | over any run of them on the buffers: is_purging and poll_timeout are kept, received bytes conserved, the accepted bytes a subsequence of wire and buffer, and all of them if and only if no purge ran inside a send loop, always so with the settings of CalmRun |
| MultiGet.TryKeySafe | src/libmemcached/get.cc:471-537 | one attempt keeps the safety invariant |
| MultiGet.SendSafe | src/libmemcached/get.cc:455-545 | for every pattern of failures, with or without a randomized start, each key is written at most once, only to one of its replicas, never to a server that failed, in at most keys + servers attempts |
| MultiGet.SendMeaning | src/libmemcached/get.cc:455-545 | over the attempts alone: each goes to the first choice of its key, counted from the randomized start, that has not failed by then; a key is marked sent if and only if it was written, a server dead if and only if it failed |
| MultiGet.SendOrdered | src/libmemcached/get.cc:467-542 | the attempts come round by round and in each round key by key, each to the choice of its key in that round |
| MultiGet.NoFailures | src/libmemcached/get.cc:471-541 | without failures every key is sent to its first choice |
| MultiGet.SendComplete | src/libmemcached/get.cc:467-542 | unless a round without failures ends it early, every unsent key has only dead replicas |
| MultiGet.KeyLost | src/libmemcached/get.cc:539-541 | for two or more keys, two or more replicas, three or more servers and any start that reaches all, hashes and failures for which the early end leaves a key unsent with a live replica |
| MultiGet.RoundsUnshifted | src/libmemcached/get.cc:476-485 | a randomized start that is a multiple of the server count changes nothing |
| MultiGet.ShiftedTryAll | src/libmemcached/get.cc:467-542 | if there is a shifted round for every server, a single key is sent or every server is dead |
| MultiGet.LastSkipped | src/libmemcached/get.cc:476-490 | otherwise, when every attempt fails, the call ends before it comes to the server behind the last replica |
| MultiGet.TwoServers | src/libmemcached/get.cc:467-542 | with two servers and two shifted rounds, every unsent key has only dead replicas |
| MultiGet.ReachingComplete | src/libmemcached/get.cc:467-542 | whenever the start reaches all replicas and an early end loses nothing, every unsent key has only dead replicas |
| MultiGet.UnreachedReplica | src/libmemcached/get.cc:476-490 | for every other start and any number of keys, hashes and failures for which a live replica is never tried |
| MultiGet.CompletenessExact | src/libmemcached/get.cc:455-545 | for all hashes and failures every unsent key has only dead replicas, if and only if there is no key, or the start is a multiple of the server count or leaves a shifted round for every server and there is at most one key, at most one replica or at most two servers |
| MultiGet.SendKeys | src/libmemcached/get.cc:455-545 | the nested loops over the two arrays do this, and the response count of each server that has not failed is the number of replies it owes, those read by the purges of the writes taken off |
| MultiGet.SendRound | src/libmemcached/get.cc:471-537 | one round over all keys, with the same counts |
| MultiGet.SendKey | src/libmemcached/get.cc:472-536 | one attempt, marking the key sent or the server dead, with the same counts |
| MultiGet.OwedAtMost | src/libmemcached/purge.cc:52-122 | a server never owes more replies than the keys it accepted |
| MultiGet.OwedNext | src/libmemcached/purge.cc:52-122 | one more request adds one reply owed; replies are read only when a watermark is reached, past the byte watermark only if two are owed, and never more than are owed |
| MultiGet.OwedExactly | src/libmemcached/purge.cc:55-63 | while both watermarks are unreached it owes exactly one for each |
| MultiGet.ServerFor | src/libmemcached/get.cc:476-485 | the subtraction loop is the remainder modulo the server count |
| Storage.Store.constructor | example/storage.cc:16-22 | an empty list is the empty map |
| Storage.Store.GetItem | example/storage.cc:50-70 | walks the cycle at most once and finds the item exactly when the map has the key |
| Storage.Store.PutItem | example/storage.cc:29-48 | puts one item in front under a fresh token and keeps everything else; the list still represents a map if and only if the key was not there |
| Storage.Store.LinkIn | example/storage.cc:33-47 | the list stays one cycle with next and prev mutually inverse |
| Storage.Store.DeleteItem | example/storage.cc:108-139 | removes exactly one node and exactly that key, if it is there |
| Storage.Store.Unlink | example/storage.cc:114-130 | the other nodes stay one cycle, starting behind the removed one |
| Storage.Store.Flush | example/storage.cc:141-159 | visits and frees every node once and leaves the empty map |
| Storage.CycleRotates | example/storage.cc:125-129 | the cycle can be entered anywhere, as delete_item does by moving root |
| Storage.InsertBefore | example/storage.cc:39-44 | the four assignments keep next and prev mutually inverse on one longer cycle |
| Storage.TakeOut | example/storage.cc:118-130 | the assignments leave one cycle without the entry, and none when it was the last |
| Commands.DecodeEncode | example/interface_v1.cc:107-147 | a counter read back from its eight bytes is the counter stored |
| Commands.DecodeMeaning | example/interface_v1.cc:107-147 | byte i of a counter of any length is digit i of its value to the base 256 |
| Commands.CountMeaning | example/interface_v1.cc:203-241 | in numbers below 2^64 an increment gives the sum or what is left of it after a wrap-around, a decrement the difference or zero when there is none, and a missing key the initial value |
| Commands.CounterStored | example/interface_v1.cc:203-241 | the eight bytes of the new item are that count |
| Commands.StepShape | example/interface_v1.cc:31-378 | every command either only removes items or stores one item under the next token |
| Commands.Answer | example/interface_v0.cc:118-511 | which of not found, exists and no memory every command answers, said of its inputs |
| Commands.Effect | example/interface_v0.cc:118-511 | a command that succeeds has stored what it was asked to under the next token, removed its key or emptied the store, and changed nothing else |
| Commands.FailureEffect | example/interface_v0.cc:118-511 | a failed command changes the store if and only if there is no memory, the key is there, and it is increment, decrement, or a set or replace whose token is zero or matches; then the old item is lost and nothing else |
| Commands.NextConsistent | example/storage.cc:161-164 | every command keeps: tokens count the stores, each was given to one item alone, and stored items are unaltered |
| Commands.TokensDistinct | example/storage.cc:161-164 | no two keys ever hold the same token |
| Commands.RunConsistent | example/storage.cc:161-164 | the same over any run of fewer than 2^64 - 1 stores, with the history only growing |
| Commands.SwapIsExact | example/interface_v1.cc:65-339 | a replace, append, prepend, token-checking delete, or set on a key that is there, succeeds with a token only on the very item that was given it, and spends it |
| Commands.SwapSucceeds | example/interface_v1.cc:65-339 | with memory at hand a swap succeeds if and only if its key is there with its token |
| Commands.SpentStays | example/interface_v1.cc:65-339 | a spent token stays spent and no swap with it succeeds |
| Commands.NoneOnceSpent | example/interface_v1.cc:65-339 | over any run no swap with a spent token succeeds |
| Commands.AtMostOneSwap | example/interface_v1.cc:65-339 | over any run at most one swap per token succeeds |
| Commands.OneWinner | example/interface_v0.cc:280-511 | of two swaps with one token anywhere in a run, the later one is refused if the earlier one succeeded |
| Commands.FreshTokenWins | example/interface_v1.cc:65-339 | after any run a swap with the token an item had before succeeds, with memory at hand, if and only if that very item is still there; so always after a run that does not touch its key |
| Commands.ReadBack | example/interface_v1.cc:31-378 | what is stored under a key is there unaltered after any run of commands that do not touch it |
| Commands.StoreReadBack | example/interface_v1.cc:31-378 | after such a run, what any command stored is read as it was asked for: the given data, the old data followed or preceded by it, or the new count, with flags and expiration given or kept |
| Commands.SetOnSpentToken | example/interface_v1.cc:341-378 | set with a spent token succeeds if and only if the key is not there and memory is |
| Commands.SpentTokenAccepted | example/interface_v1.cc:341-378 | set, delete, and set with the deleted item's token all succeed |
| Handlers.Create | example/storage.cc:72-106 | creating and putting an item stores it under the next token |
| Handlers.Add | example/interface_v1.cc:31-63 | does what the command does to the map, for both interfaces, and returns the new token |
| Handlers.Concat | example/interface_v0.cc:280-344 | the same for append and prepend |
| Handlers.CopyInBounds | example/interface_v1.cc:231-232 | the copy of the key stays in its buffer if and only if the key has at most 1024 bytes |
| Handlers.CopyKey | example/interface_v1.cc:231-232 | then the buffer starts with the key |
| Handlers.Arithmetic | example/interface_v0.cc:176-251 | the same for increment and decrement, returning the count that the eight bytes of the new item hold |
| Handlers.Delete | example/interface_v1.cc:149-176 | the same for delete, whose token only one interface looks at |
| Handlers.Get | example/interface_v1.cc:184-201 | the item stored under the key, unaltered |
| Handlers.Flush | example/interface_v0.cc:151-174 | the same for flush, which only one interface carries out |
| Handlers.Replace | example/interface_v0.cc:455-511 | the same for replace |
| Handlers.Set | example/interface_v0.cc:346-404 | the same for set |
| Handlers.Dispatch | example/interface_v1.cc:31-378 | any command of either interface keeps the list a map and does what the command says |
| Handlers.Serve | example/interface_v0.cc:118-511 | so does any run of commands of both interfaces in any mix, and the answers are those of the run on the map |

## Left out

- Aes.AesEncrypt: empty messages are excluded by its precondition, because no room is allocated for the block the code then writes; CipherTextFits states the exact condition.
- Md5.Context.Update: excludes inputs for which i + 63 wraps around; GuardStops states the exact condition.
- Md5.Context.Absorb: excludes the same inputs.
- Md5.Context.Compress: excludes the same inputs.
- Md5.Context.CompressBlocks: excludes the same inputs.
- Commands.RunConsistent: excludes runs in which the 64-bit token counter wraps around.
- Handlers.Arithmetic: requires the stored data to have eight bytes, which is what the code reads, and for an increment of interface_v1 a key of at most 1024 bytes; CopyInBounds states the exact condition.
- Handlers.CopyKey: excludes keys of more than 1024 bytes, which the code would copy past the end of its buffer.
- Handlers.Dispatch: excludes the same calls as Arithmetic.
- Handlers.Serve: excludes runs with such calls.
- Jenkins.HashAt: little-endian machines; the 4-byte path may read to the end of the key's last word.
- Distribution.Client.UpdateContinuum: `use_sort_hosts` reorders the hosts before it and is not modelled, neither is the error return for a host name too long for its buffer, nor the difference in key text between the ketama variants, whose digests are any function of name, port and number.
- Distribution.Client.ServerAdd: host names that instance_create_with rejects are not modelled.
- Continuum.AllocationBound: floats are reals computed with a relative error; exact float semantics are not modelled.
- Disruption.DisruptionExact: both builds are weighted or both are not, and hosts have distinct addresses; the change to weights when the first weighted host is added is not compared.
- Disruption.OwnerSurvives: both builds are weighted or both are not.
- Disruption.EjectionMovesOnlyItsHashes: without weights only, because with weights it fails; DisruptionExact states exactly when it holds.
- Disruption.AdditionMovesOnlyToNewHost: the same.
- MultiGet.SendKeys: how many replies a purge reads, and when a server's bytes sent pass the byte watermark, are inputs.
- MultiGet.SendRound: the same.
- MultiGet.SendKey: the same.
- StreamIo.RunConserves: follows one connection; a run ends when the connection is closed, and reconnecting is not modelled.
- StreamIo.FlushExact: the answers of the operating system are finite lists, so a loop that is never let go is not a run.
- Closing.RunDrains: says nothing of the write buffer, because a write that goes on after a flush that succeeded on a connection it closed keeps what it is given since; DoDrains says when it is empty.
- Progress.SendExact: for answers that take bytes or ask to try again; Blocked and BlockedReceives say what one blocked send leads to.
- Progress.WriteExact: with no replies pending, so that no purge comes between; RunConserves covers writes with purges.
- Progress.FillGives: while no receive fails; FillConserves covers failures.
- Progress.ReadSucceeds: the same.
- Progress.LineOutcomeExact: the same.
- StreamIo.OneReplyRead: a reply is a byte count with an outcome; how it is parsed is not modelled.
- Instance.Instance.ReadOneResponse: the same.
- Instance.Instance.ReadResponses: user callbacks are not modelled.
- Instance.Instance.MemcachedPurge: user callbacks are not modelled.
- Instance.Instance.TryAgain: `process_input_buffer`, which acts only when there are user callbacks, is not modelled.
- Instance.Instance.IoReadline: requires room for at least one byte; the copying loop and the refill are one loop of single bytes here.
- Instance.Instance.IoPoll: the outcome of polling is an input; the loop over interrupted polls and its clock are not modelled.
- `memcached_response`, which drains replies before it reads its own, is left to the caller of memcached_read_one_response.
- T-tables: Te0 to Te3 and Td0 to Td3 are defined from the substitution tables as the comment in rijndael.cc says, and their printed entries are not compared.
- Md5.Signature: for any compression function; Md5Transform.Transform is the one of the source, which the context takes as a parameter.
- qsort is given by its contract, not by the library's algorithm; allocation, the clock, failures of send and recv are inputs.
- UDP, `memcached_io_slurp` and the wait counters.
- Assertions that abort debug builds are taken as compiled out.
- 32-bit overflow of counts of bytes sent, pending replies, hosts and ring points.
- Response packets of the example server, and the quiet variants, which differ only in what they answer.
- `simple_binary_mget`, the other distributions, the other hash functions, the OpenSSL branch of aes.cc, connecting, SASL, the connection pool, configuration parsing and the command-line tools.
