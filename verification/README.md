# Verified models of the support software of CORE-V Wally

This project models the algorithms that the Wally repository keeps beside its hardware: the cache
simulator that checks the cache logs, the thread barrier of the C tests, the AES and GF(2^n) examples,
the boot loader's SD card reader with its checksums, the CRC32 benchmark with its heap library, and
the number printing and parsing of the bare-metal C library. Code that works in place is modelled by
classes and methods over arrays and fields, each proved against a function; what the code is for is
then proved about those functions, for all inputs, all runs or all interleavings.

`dafny verify dfyconfig.toml` checks everything.

## The modules

| module | what it holds |
|---|---|
| `Powers`, `Gf2`, `Seqs`, `Sets` | powers of two and shifts; polynomials over GF(2) written as numbers, with product, division and remainders; overwriting part of a sequence; sizes of subsets |
| `PseudoLru`, `PlruBits` | the replacement tree as an inductive tree, the bit list as its heap layout, and the two walks over it; the same walks bit by bit |
| `CacheModel`, `CacheHistory`, `CacheSim`, `CacheBlocks` | one set of the cache and its abstract map of resident blocks; what a history of operations says about dirty blocks; the whole simulator as a class; what its operations do to each block |
| `Barrier` | the sense-reversing barrier as a transition system |
| `GfByte`, `GfLong`, `GfMatrix`, `Euclid` | the three field multipliers, linear algebra over GF(2^8), and the extended Euclidean algorithm |
| `AesTables`, `AesRounds`, `AesCipher`, `AesBytes`, `Aes` | the tables, the transformations of a round, the two ciphers and the key schedule, both written out byte by byte, and the routines that work in place |
| `CrcCode`, `CrcDistance`, `ByteStream` | cyclic redundancy codes of any width as polynomial remainders, the flipped bits they detect, and bytes as streams of bits |
| `Crc7`, `CrcTable16`, `Crc16`, `Crc16Distance`, `CrcTable32`, `Crc32` | the three codes as the sources compute them, and the order of x modulo the CRC16 generator |
| `DiskRead`, `CardStream` | the SPI FIFOs and the block loop of the SD card reader; the reader from the card's side |
| `Beebs`, `RandomPeriod` | the bump allocator and the random numbers, and their period |
| `Syscalls`, `Formats` | `printnum`, the flags and the `%d` case of `vprintfmt`, `atol`; every format of a signed number |

A byte is a `bv8`, and wider registers are `bv16`, `bv32` and `bv64`. Polynomials over GF(2) are natural
numbers whose binary digits are the coefficients, as the Python and C sources write them; the meaning
of a register is the number `Value` of it. Variables that only a proof needs are ghost: the list `Sets`
of the cache class, the counters of episodes of the barrier, the cofactors of the modulus in Euclid's
algorithm.

## Main results

- Tree pseudo-LRU guarantees reuse: with at most log2(ways) competing blocks in between, the next access
  to a block is a hit, and one more competitor is too many (`CacheSim.ReuseGuarantee`,
  `CacheModel.ReuseIsTight`). Evictions go round all ways and restore the bits (`PseudoLru.EvictionFairness`).
- The simulator refines a map from resident blocks to dirty bits, and dirty blocks are conserved over any
  run (`CacheModel.AccessRefines`, `CacheSim.WriteBacksAreExact`, `CacheSim.DirtyBlocksAreConserved`). Each
  operation has exactly its effect on each block of the whole cache (`CacheBlocks.FlushCleans`,
  `CacheBlocks.CboEffect`, `CacheBlocks.InvalidateEmpties`, `CacheBlocks.AccessEffect`), and in every reachable
  state an eviction reports a write-back exactly if the block was written since it was last filled, flushed or
  cleaned (`CacheBlocks.EvictionsTell`). The outcomes of a test in a log depend on that test alone
  (`CacheBlocks.TestsAreIndependent`).
- The barrier is safe over every interleaving and any number of episodes, and leaves its counter clean
  (`Barrier.Safety`, `Barrier.ReleasedClean`). From every reachable state, once all n threads have entered an
  episode, every schedule ends it as soon as it has made more than 6n moves, however often threads spin in
  between, and every fair schedule does so within 6n + 1 rounds (`Barrier.EpisodeEnds`,
  `Barrier.FairEpisodeEnds`).
- The three field multipliers are multiplication modulo the field polynomial (`GfLong.MultipliersAgree`), and
  outside a field their low digits still are, modulo a polynomial made of the low digits (`GfLong.LowProduct`);
  Euclid's algorithm inverts exactly what has an inverse (`Euclid.GfInverse`); the AES polynomial is
  irreducible and the S-box holds the inverses (`Euclid.AesPolynomialIrreducible`,
  `Euclid.SboxHoldsInverses`).
- AES encryption and decryption undo each other for every block and every key (`AesCipher.RoundTrip`), and
  the code that works in place computes them (`Aes.AesEncrypt`, `Aes.AesDecrypt`, `Aes.KeyExpansion`). What it
  computes is also stated on bytes alone: every byte of every state is the sum that section 5 of FIPS 197 gives for
  it, from the block to the result, and so is every byte of the expanded key (`AesBytes.CipherStates`,
  `AesBytes.InvCipherStates`, `AesBytes.ExpansionBytes`).
- The table-driven, parallel and bit-serial forms of CRC16, CRC7 and CRC32 are polynomial remainders
  (`Crc16.FormsAgree`, `Crc7.RegisterIsRemainder`, `Crc32.RegisterIsRemainder`), and no burst up to the width
  of the code goes unnoticed, in the data or in the checksum behind it (`CrcCode.BurstDetected`,
  `DiskRead.BurstNotAccepted`). Nor do one, two, three or any odd number of flipped bits in a block and its
  checksum, wherever they lie (`DiskRead.FewBitsNotAccepted`): x has order 32767 modulo the CRC16 generator
  (`Crc16Distance.PeriodIff`). Four can (`Crc16Distance.FourCanGoUnnoticed`).
- The SD card reader copies exactly the blocks that the card sends and stays inside the FIFO and the buffer
  (`DiskRead.DiskRead`, `DiskRead.ReturnedBlocks`). In the other direction, any number of blocks sent with their
  tokens and checksums, with any busy bytes between them, is read, and the first wrong checksum is where the reading
  fails (`CardStream.BlocksAreRead`, `CardStream.BadBlockFails`).
- Over any calls, the blocks of the bump allocator lie inside the heap and apart from each other exactly if
  no call that hands out a block wraps around the address space (`Beebs.WellPlacedIff`, `Beebs.InOrderIff`);
  on an aligned heap all are aligned (`Beebs.BlocksAligned`), and a `realloc` keeps the bytes of every earlier block
  (`Beebs.ReallocKeeps`). The heap check never reports a failure that did not happen, and exactly when it
  misses one is known (`Beebs.CheckTells`, `Beebs.CheckTellsUnlessSumWraps`), on an aligned heap
  as a condition on sums of the sizes (`Beebs.CheckTellsBySums`). The random numbers have the full period: a seed of
  31 bits comes back exactly after the multiples of 2^31 calls (`RandomPeriod.SeedPeriod`).
- Every format of a signed number, with any flags, width, precision and number of `l`s, is read as what it says
  (`Formats.FormatIsRead`); what it prints is written out (`Formats.PrintedText`), and `atol` reads it back exactly
  under a condition on width and padding (`Formats.FormatRoundTrip`), so always for `%d` and `%ld`
  (`Formats.PlainRoundTrip`).

## Where code and comments differ

The models follow the code.

- `bin/CacheSim.py:261`: the variable is called `IsCBOClean`, but it is true for the operations that
  invalidate.
- `examples/C/common/syscalls.c:281-284`: the comment says that `-` pads on the right. For numbers it
  makes `-` the padding character on the left, and the sign is printed before the padding. `Syscalls.RoundTrip`
  says exactly which outputs `atol` still reads back.
- `examples/C/crc32/beebsc.c:72-75`: the comment promises that the check is true when no request was too
  large. That way it always holds, but the check can also be true after a request was too large
  (`Beebs.CheckForgets`). If no block that was handed out wraps, that happens exactly if the sum of what was
  asked for leaves the heap and wraps back into it (`Beebs.CheckTellsUnlessSumWraps`); the condition for any
  calls is in `Beebs.CheckTells`.
- `examples/crypto/eea/gf_inverse.py:79` asserts that `gf_mul` of an element and its inverse is 1. `gf_mul` is
  fixed to degree 8. For a modulus of that degree the assertion holds exactly for the elements that are
  congruent to their low 8 digits (`Euclid.CheckPasses`, and `Euclid.CheckFailsUnreduced` for one that is
  not). For a smaller modulus with a constant term it fails for every element of at most 8 digits except 1
  (`Euclid.CheckSmallField`, `Euclid.CheckFailsInSmallField`), although `gf_inverse` computes the inverse there
  too. For moduli above degree 8, for smaller ones without a constant term, and for longer elements with a
  smaller modulus, no such condition on the element is given, only what the assertion tests
  (`Euclid.CheckMeans`). Above degree 8 the final mask of `gf_inverse` can already lose the inverse
  (`Euclid.CutLosesInverse`).
- `fpga/zsbl/sd.c:47` doubts the byte step of CRC16. It is right (`Crc16.FormsAgree`).

## Model

| member | source | states |
|---|---|---|
| PseudoLru.TouchGuards | bin/CacheSim.py:157-168 | right after an access to a way, no node on the path to it points towards it |
| PseudoLru.TouchKeepsGuarded | bin/CacheSim.py:157-168 | an access to another way keeps a way guarded: the only node it can turn towards the way is the one where the two paths part, and there the other way is a witness |
| PseudoLru.GuardCount | bin/CacheSim.py:172-192 | a guarded way is the victim only if at least as many other ways guard it as the tree has levels |
| PseudoLru.EvictionFairness | bin/CacheSim.py:157-192 | from any bit pattern, as many successive evictions as there are ways pick every way exactly once and restore the pattern |
| PseudoLru.BitsRestored | bin/CacheSim.py:157-192 | the same on the bit list of a set: equal trees are equal lists, so the list is restored |
| PlruBits.TouchTurns | bin/CacheSim.py:157-168 | after an access exactly the nodes above the way are changed, in every row one, and each points to the side the way is not on |
| PlruBits.VictimLeads | bin/CacheSim.py:172-192 | the selected way is one that the nodes above it point to in every row |
| PlruBits.LeadsToOne | bin/CacheSim.py:172-192 | there is only one such way, for any bits |
| CacheModel.RunValid | bin/CacheSim.py:85-153 | no sequence of operations ever puts one tag into two valid lines of a set |
| CacheModel.AccessRefines | bin/CacheSim.py:123-153 | an access refines a map from resident blocks to dirty: hit exactly if resident, miss only while there is room, eviction removes exactly one block and reports whether it was dirty |
| CacheModel.RunIgnoresInvalid | bin/CacheSim.py:85-153 | two sets that agree on valid lines and replacement bits agree after any operations |
| CacheModel.SetReuse | bin/CacheSim.py:123-192 | the reuse guarantee for one set |
| CacheModel.ReuseIsTight | bin/CacheSim.py:123-192 | one more competing block is too many: in a full set any block can be evicted by log2(ways) + 1 others |
| CacheModel.MissEvicts | bin/CacheSim.py:145-153 | a new block in a full set replaces exactly the line of the selected way |
| CacheHistory.DirtyIsWritten | bin/CacheSim.py:85-153 | in every reachable state, a resident block is dirty exactly if it was written since its last fill, flush or clean |
| CacheHistory.DirtyConserved | bin/CacheSim.py:85-153 | over any run of a set, blocks that became dirty equal those written back, cleaned, discarded or still dirty |
| CacheHistory.TallyCounts | bin/CacheSim.py:85-153 | what the four counts of that balance count, operation by operation |
| CacheHistory.StreamReplacesAll | bin/CacheSim.py:145-192 | as many new blocks as there are ways replace every block of a full set and leave the replacement bits as they were |
| CacheSim.SplitIsExact | bin/CacheSim.py:113-118 | tag, set number and offset together are the address, and of a longer one its bits up to the length of an address |
| CacheSim.SameBlock | bin/CacheSim.py:113-118 | two addresses have the same tag and set exactly if they agree above the offset, up to the length of an address |
| CacheSim.ReuseGuarantee | bin/CacheSim.py:123-192 | the second access to a block is a hit if at most log2(ways) other blocks of its set were accessed in between, any number of times, and nothing invalidated it |
| CacheSim.NeverDuplicates | bin/CacheSim.py:85-153 | over any run of the whole cache no set holds a tag twice |
| CacheSim.InvalidLinesNeverShow | bin/CacheSim.py:85-153 | tags and dirty bits left in invalid lines never influence a later outcome |
| CacheSim.WriteBacksAreExact | bin/CacheSim.py:145-153 | in every reachable state, an eviction reports a write-back exactly if the evicted block was written since its last fill, flush or clean |
| CacheSim.DirtyBlocksAreConserved | bin/CacheSim.py:85-153 | conservation of dirty blocks for every set of the whole cache, from the empty cache on |
| CacheSim.MarkPath | bin/CacheSim.py:161-168 | the walk from leaf to root over the bit list turns every node of the way's path away from the way, and nothing else |
| CacheSim.PowersAccepted | bin/CacheSim.py:65-82 | the constructor's demand on a number is met exactly by the powers of two |
| CacheSim.Cache.constructor | bin/CacheSim.py:65-82 | all lines invalid, clean, with tag 0 and distinct objects; all replacement bits 0; the sizes as given |
| CacheSim.Cache.Flush | bin/CacheSim.py:85-88 | no line is dirty, and valid bits, tags and replacement bits are as they were |
| CacheSim.Cache.Cbo | bin/CacheSim.py:91-98 | of the lines of the address's set, those valid ones with its tag are clean and, if asked to, invalid; all other lines and all replacement bits are as they were |
| CacheSim.Cache.Invalidate | bin/CacheSim.py:101-104 | no line is valid, and tags, dirty and replacement bits are as they were |
| CacheSim.Cache.ClearPLRU | bin/CacheSim.py:107-110 | all replacement bits 0 |
| CacheSim.Cache.SplitAddr | bin/CacheSim.py:113-118 | the three fields of an address |
| CacheSim.Cache.CacheAccess | bin/CacheSim.py:123-153 | a hit exactly if the block is found, a miss only with an invalid line, else an eviction of the way the bits lead to, with a write-back exactly if its line is dirty; afterwards that way holds the block, and all other lines and trees are as they were |
| CacheSim.Cache.UpdatePLRU | bin/CacheSim.py:157-168 | the tree of one set is the touched tree, in every row of which the node above the way points away from it; other sets stay |
| CacheSim.Cache.GetVictimWay | bin/CacheSim.py:172-192 | the walk from root to leaf ends at the victim of the tree, the way to which the bits lead |
| CacheSim.Cache.Perform | bin/CacheSim.py:235-290 | one line of a log: which operation it stands for, and whether the outcome differs from the reported one |
| CacheSim.Cache.Simulate | bin/CacheSim.py:234-290 | a whole log: the final cache, and the number of mismatches |
| CacheBlocks.FlushCleans | bin/CacheSim.py:85-88 | after a flush no block of the cache is dirty, and the resident blocks are the same |
| CacheBlocks.InvalidateEmpties | bin/CacheSim.py:101-104 | after an invalidation or a new test no block is resident and every access is a miss |
| CacheBlocks.CboEffect | bin/CacheSim.py:91-98 | after a cache-block operation its block is clean, resident exactly if it was and is not to be invalidated, and every other block is as it was |
| CacheBlocks.AccessEffect | bin/CacheSim.py:123-153 | an access is a hit exactly if its block is resident, and makes it so; another block is as it was, or was evicted from the same set with the outcome that tells its dirtiness |
| CacheBlocks.EmptyCache | bin/CacheSim.py:65-82 | in a new cache every access is a miss |
| CacheBlocks.RunSteps | bin/CacheSim.py:234-290 | a run is its operations one after the other |
| CacheBlocks.DirtyIsWrittenSince | bin/CacheSim.py:85-153 | after any run from the empty cache, a resident block is dirty exactly if it was written since it was last filled, flushed or cleaned |
| CacheBlocks.EvictionsTell | bin/CacheSim.py:145-153 | after any run, an access that throws a block out answers D if it was written since, and E if not |
| CacheBlocks.TestsAreIndependent | bin/CacheSim.py:238-243 | a new test starts afresh: whatever ran before, every later outcome is that of a new cache |
| CacheBlocks.LettersAndKinds | bin/CacheSim.py:235-290 | the letters of the outcomes, and the operation that each kind of a log line stands for |
| CacheBlocks.OpsByLine | bin/CacheSim.py:234-290 | the operations of a log are those of its lines, in order |
| CacheBlocks.MismatchesCounted | bin/CacheSim.py:288-290 | the number of mismatches is the number of lines whose letter differs from the outcome in the state that the lines before them lead to |
| Barrier.StepInv | examples/C/common/util.h:46-61 | the invariant of the barrier is kept by every atomic step of every thread |
| Barrier.Safety | examples/C/common/util.h:44-62 | over every interleaving of n threads and any number of reuses, no thread has left an episode that some thread has not entered, and no two threads are more than one episode apart |
| Barrier.ReleasedClean | examples/C/common/util.h:53-57 | whenever threads are about to be released, count is 0 again and all threads have entered |
| Barrier.SomeoneMoves | examples/C/common/util.h:50-61 | in every reachable state: if all threads are inside, or one is released but still spins, some thread inside can do more than spin |
| Barrier.EpisodeEnds | examples/C/common/util.h:50-61 | from every reachable state in which all n threads have entered an episode, any schedule with more than 6n steps that are not idle spinning, and any number that are, brings all of them out of it |
| Barrier.FairEpisodeEnds | examples/C/common/util.h:50-61 | so does any schedule of more than 6n rounds in which every thread has a turn |
| Barrier.NeverStuck | examples/C/common/util.h:50-61 | in every reachable state, until all have left, some thread inside can move |
| Barrier.CanFinish | examples/C/common/util.h:50-61 | the threads inside can finish the episode without any new call, from every reachable state |
| GfByte.GfMul | examples/crypto/aes/aes.c:231-240 | the eight rounds compute the product |
| GfByte.TimesIsMulMod | examples/crypto/aes/aes.c:231-240 | the byte loop multiplies the polynomials modulo x^8 + x^4 + x^3 + x + 1 (section 4.2 of FIPS 197) |
| GfByte.TimesComm | examples/crypto/aes/aes.c:231-240 | it is commutative |
| GfByte.TimesAssoc | examples/crypto/aes/aes.c:231-240 | it is associative |
| GfByte.TimesXor | examples/crypto/aes/aes.c:231-240 | it distributes over addition |
| GfLong.GfMulC | examples/crypto/gfmul/gfmul.c:7-18 | for any arguments whose shifts stay defined, the low n digits of the result are a product of polynomials, and in a field of n digits the result is the product modulo m |
| GfLong.FieldFits | examples/crypto/gfmul/gfmul.c:7-18 | in every field of at most 30 digits no value exceeds a 32-bit int |
| GfLong.LowProduct | examples/crypto/gfmul/gfmul.c:7-18 | for any arguments the low n digits of the loop's result are the low digits of a times b, modulo x^n plus the low digits of m |
| GfLong.GfMulPython | examples/crypto/eea/gf_inverse.py:5-14 | the loop fixed to 8 digits is, for any arguments, the low 8 digits of a times b modulo x^8 plus the low digits of the modulus; in a field of 8 digits that is the product modulo the modulus |
| GfLong.LongSumIsMulMod | examples/crypto/gfmul/gfmul.c:7-18 | adding up the rounds of the loop gives the product of the polynomials modulo m |
| GfLong.LongSumLaws | examples/crypto/gfmul/gfmul.c:7-18 | in any such field the loop's product is commutative, associative and distributive |
| GfLong.MultipliersAgree | examples/crypto/eea/gf_inverse.py:5-14 | the multipliers of aes.c, gfmul.c and gf_inverse.py agree on all bytes |
| Euclid.GfMulPoly | examples/crypto/eea/gf_inverse.py:16-23 | the carry-less product |
| Euclid.GfDivMod | examples/crypto/eea/gf_inverse.py:25-36 | quotient and remainder, and the error exactly for the divisor 0 |
| Euclid.DivModUnique | examples/crypto/eea/gf_inverse.py:25-36 | there is only one quotient and one remainder |
| Euclid.NextBezout | examples/crypto/eea/gf_inverse.py:48-56 | every turn keeps the remainders combinations of the arguments, and the arguments combinations of the remainders |
| Euclid.NextDegrees | examples/crypto/eea/gf_inverse.py:48-56 | every turn keeps the degrees of s1 and r0 adding up to that of the modulus, and remainders shrinking |
| Euclid.NextStarted | examples/crypto/eea/gf_inverse.py:48-56 | also if a is not shorter than the modulus, the degrees add up after at most two turns |
| Euclid.GfInverse | examples/crypto/eea/gf_inverse.py:38-64 | it terminates, raises exactly for 0 and for a common factor, and else returns the inverse for every modulus up to degree 8, and for a larger one exactly if the inverse has at most 8 digits |
| Euclid.CutLosesInverse | examples/crypto/eea/gf_inverse.py:64 | for 2 and the modulus 0x211 the mask cuts the inverse 0x108 to 8, which is none |
| Euclid.CheckMeans | examples/crypto/eea/gf_inverse.py:77-79 | for any element and any modulus, the assertion tests whether the result inverts the low 8 digits of the element modulo x^8 plus the low digits of the modulus |
| Euclid.CheckPasses | examples/crypto/eea/gf_inverse.py:77-79 | for a modulus of degree 8 the assertion holds exactly if the element is congruent to its low 8 digits, as every byte is |
| Euclid.CheckSmallField | examples/crypto/eea/gf_inverse.py:77-79 | for a smaller modulus with a constant term the assertion holds for no element of at most 8 digits but 1 |
| Euclid.CheckFailsInSmallField | examples/crypto/eea/gf_inverse.py:77-79 | it fails for 2 in GF(8), whose inverse is 5 |
| Euclid.CheckFailsUnreduced | examples/crypto/eea/gf_inverse.py:77-79 | and for 0x11a with the polynomial of AES, whose inverse is 1 |
| Euclid.InverseUnique | examples/crypto/eea/gf_inverse.py:38-64 | there is only one inverse |
| Euclid.InverseMeansCoprime | examples/crypto/eea/gf_inverse.py:61-62 | an element with an inverse has no common factor with the modulus, so no invertible element is refused |
| Euclid.FieldHasInverses | examples/crypto/eea/gf_inverse.py:61-62 | modulo an irreducible polynomial no nonzero element has a common factor, so nothing is raised |
| Euclid.AesPolynomialIrreducible | examples/crypto/eea/gf_inverse.py:71-72 | the polynomial of AES is irreducible |
| Euclid.SboxHoldsInverses | examples/crypto/aes/aes.c:17-34 | the S-box is the affine image of what gf_inverse computes, for every nonzero byte |
| AesTables.SboxInverse | examples/crypto/aes/aes.c:17-54 | the inverse S-box undoes the S-box |
| AesTables.RsboxInverse | examples/crypto/aes/aes.c:17-54 | the S-box undoes the inverse S-box |
| AesTables.SboxIsAffineInverse | examples/crypto/aes/aes.c:17-34 | every entry is the affine map of the multiplicative inverse (section 5.1.1 of FIPS 197) |
| AesTables.RconPowers | examples/crypto/aes/aes.c:56-87 | the round constants are the powers of x |
| AesRounds.SubBytesInverse | examples/crypto/aes/aes.c:197-201 | SubBytes and its inverse undo each other |
| AesRounds.ShiftRowsInverse | examples/crypto/aes/aes.c:203-221 | ShiftRows and its inverse undo each other |
| AesRounds.MixInverse | examples/crypto/aes/aes.c:425-455 | invMixColumn undoes mixColumn, and the other way around, for every column |
| AesRounds.MixColumnsInverse | examples/crypto/aes/aes.c:406-423 | MixColumns and its inverse undo each other |
| AesCipher.InvCipherCipher | examples/crypto/aes/aes.c:465-483 | for any round keys the inverse cipher undoes the cipher |
| AesCipher.CipherInvCipher | examples/crypto/aes/aes.c:303-331 | for any round keys the cipher undoes the inverse cipher |
| AesCipher.RoundTrip | examples/crypto/aes/aes.c:333-530 | for every block and every key of 16, 24 or 32 bytes, decryption undoes encryption and encryption undoes decryption |
| AesBytes.RoundBytes | examples/crypto/aes/aes.c:278-290 | a round byte by byte, over all columns and rows |
| AesBytes.LastRoundBytes | examples/crypto/aes/aes.c:323-330 | the last round byte by byte, without the matrix |
| AesBytes.InvRoundBytes | examples/crypto/aes/aes.c:457-463 | an inverse round byte by byte |
| AesBytes.LastInvRoundBytes | examples/crypto/aes/aes.c:477-482 | the last inverse round byte by byte, without the matrix |
| AesBytes.CipherStates | examples/crypto/aes/aes.c:303-331 | the result of the cipher is the end of a sequence of states in which each follows from the one before by the byte equations of its round and 16 bytes of the expanded key |
| AesBytes.InvCipherStates | examples/crypto/aes/aes.c:465-483 | so is the result of the inverse cipher |
| AesBytes.CoreBytes | examples/crypto/aes/aes.c:141-156 | the core of the schedule on the four bytes of a word |
| AesBytes.ExpansionBytes | examples/crypto/aes/aes.c:159-195 | the key schedule as a recurrence on the bytes of the expanded key, which starts with the key |
| Aes.SubBytes | examples/crypto/aes/aes.c:197-201 | the array holds the substituted state |
| Aes.ShiftRow | examples/crypto/aes/aes.c:209-221 | four bytes of the array are rotated, the others stay |
| Aes.ShiftRows | examples/crypto/aes/aes.c:203-207 | row r of the array is rotated left by r |
| Aes.AddRoundKey | examples/crypto/aes/aes.c:223-227 | the array holds the sum with the round key |
| Aes.MixColumn | examples/crypto/aes/aes.c:262-274 | the column is multiplied by the matrix of section 5.1.3 of FIPS 197 |
| Aes.MixColumns | examples/crypto/aes/aes.c:243-260 | every column of the array is mixed |
| Aes.CipherRound | examples/crypto/aes/aes.c:278-290 | every byte of the array is row 2 3 1 1 (rotated) of the matrix times the four substituted bytes of its diagonal, plus the key byte |
| Aes.CreateRoundKey | examples/crypto/aes/aes.c:292-300 | sixteen bytes of the expanded key, transposed |
| Aes.AesMain | examples/crypto/aes/aes.c:303-331 | the array holds the result of the cipher, which is the last of a sequence of states linked by the byte equations of the rounds, the first of which adds the key and the last of which leaves out the matrix |
| Aes.InvSubBytes | examples/crypto/aes/aes.c:380-384 | the array holds the state with the inverse substitution |
| Aes.InvShiftRow | examples/crypto/aes/aes.c:392-404 | four bytes of the array are rotated back |
| Aes.InvShiftRows | examples/crypto/aes/aes.c:386-390 | row r of the array is rotated right by r |
| Aes.InvMixColumn | examples/crypto/aes/aes.c:425-455 | the column is multiplied by the matrix of section 5.3.3 of FIPS 197 |
| Aes.InvMixColumns | examples/crypto/aes/aes.c:406-423 | every column of the array is unmixed |
| Aes.AesInvRound | examples/crypto/aes/aes.c:457-463 | every byte of the array is row 14 11 13 9 (rotated) times the four inversely substituted bytes of the opposite diagonal with the key added |
| Aes.AesInvCipher | examples/crypto/aes/aes.c:465-483 | the array holds the result of the inverse cipher, which is the last of a sequence of states linked by the byte equations of the inverse rounds, with the round keys backwards |
| Aes.CoreSchedule | examples/crypto/aes/aes.c:141-156 | a word rotated to the left, substituted, and the round constant added to its first byte |
| Aes.KeyExpansion | examples/crypto/aes/aes.c:159-195 | for keys of 16, 24 and 32 bytes exactly 176, 208 and 240 bytes are filled: the key, and then every word by the recurrence of section 5.2 of FIPS 197 on its four bytes, with the extra substitution for 256 bits |
| Aes.SameKeys | examples/crypto/aes/aes.c:292-300 | the round keys read from the expanded key are those of the key schedule |
| Aes.AesEncrypt | examples/crypto/aes/aes.c:333-378 | the output block is the encryption of the input block, also when the arrays are the same, by states and an expanded key that obey the byte equations; the error and an untouched output exactly if the size is not 16, 24 or 32 |
| Aes.AesDecrypt | examples/crypto/aes/aes.c:485-530 | the same for decryption |
| CrcCode.CodeAppended | fpga/zsbl/boot.c:178-182 | a stream followed by w bits has remainder 0 exactly if these bits are its code |
| CrcCode.BurstDetected | fpga/zsbl/boot.c:178-182 | no code of w bits misses a difference inside a window of w bits |
| CrcDistance.OddDetected | fpga/zsbl/boot.c:178-182 | a generator with an even number of terms detects every odd number of flipped bits |
| CrcDistance.TwoDetected | fpga/zsbl/boot.c:178-182 | two flipped bits go unnoticed only if they are a period of x apart |
| CrcTable16.TableIsSerial | fpga/zsbl/boot.c:56-89 | every entry of the table is eight rounds of the bit-serial register |
| Crc16.TableEntry | fpga/zsbl/boot.c:56-89 | every entry is the remainder of its index times x^16 |
| Crc16.StepsAgree | fpga/zsbl/sd.c:48-56 | the byte step of sd.c is the table step of boot.c |
| Crc16.RegisterIsRemainder | fpga/zsbl/boot.c:151 | folding the table step over any bytes gives the remainder of the message times x^16 by x^16 + x^12 + x^5 + 1 |
| Crc16.FormsAgree | fpga/zsbl/sd.c:48-56 | table-driven, parallel and bit-serial forms agree on every message |
| Crc16.ChecksumAppended | fpga/zsbl/boot.c:178-182 | the comparison passes exactly if the register is 0 after the two checksum bytes, high one first |
| Crc16.BurstChangesChecksum | fpga/zsbl/boot.c:178-188 | messages that differ only inside a window of 16 bits have different checksums |
| Crc16Distance.PeriodIff | fpga/zsbl/boot.c:56-89 | the powers of x modulo the generator repeat exactly after the multiples of 32767 |
| Crc16Distance.OddChangesChecksum | fpga/zsbl/boot.c:178-188 | messages that differ in an odd number of bits, wherever these lie, have different checksums |
| Crc16Distance.PairChangesChecksum | fpga/zsbl/boot.c:178-188 | so have messages of at most 32767 bits that differ in two |
| Crc16Distance.FourCanGoUnnoticed | fpga/zsbl/boot.c:178-188 | two messages that differ in four bits and have the same checksum |
| Crc7.RegisterIsRemainder | fpga/zsbl/sd.c:39-45 | folding crc7 from 0 gives the bit-serial remainder by x^7 + x^3 + 1 shifted left by one, with low bit 0 |
| Crc32.StepFits | examples/C/crc32/crc_32.c:52 | the step on a 64-bit register below 2^32 is the step on 32 bits, so the register stays below 2^32 |
| Crc32.RegisterFits | examples/C/crc32/crc_32.c:162-165 | the same for whole messages |
| Crc32.StepIsSerial | examples/C/crc32/crc_32.c:52 | the table step is eight bits through the reflected register of 0xEDB88320 |
| Crc32.RegisterIsSerial | examples/C/crc32/crc_32.c:162-165 | folding UPDC32 over a message is the reflected bit-serial register, from any start |
| Crc32.RegisterIsRemainder | examples/C/crc32/crc_32.c:107-165 | read as a reflected polynomial, the register is a remainder by the CRC-32 generator |
| Crc32.BurstChangesCode | examples/C/crc32/crc_32.c:162-165 | messages that differ only inside a window of 32 bits have different codes |
| Crc32.Crc32Pseudo | examples/C/crc32/crc_32.c:154-168 | the benchmark's result is the complement of the register after 1024 random bytes |
| Crc32.OctetsAre | examples/C/crc32/crc_32.c:162-165 | the random bytes are bits 16 to 23 of the successive seeds |
| DiskRead.CommandChecksum | fpga/zsbl/boot.c:100-106 | the command's last byte is the CRC7 of its five bytes, the remainder by x^7 + x^3 + 1, and an end bit |
| DiskRead.CommandCarriesSector | fpga/zsbl/boot.c:100-106 | the five bytes are 0x52 and the low 32 bits of the sector, the highest byte first |
| DiskRead.WaitForToken | fpga/zsbl/boot.c:128 | the reading stops right after the first data token, or waits forever if there is none |
| DiskRead.ReadEight | fpga/zsbl/boot.c:140-152 | eight bytes sent before any is read, never more than eight outstanding; the answers go to the buffer in order and through the checksum |
| DiskRead.ReadBody | fpga/zsbl/boot.c:138-153 | the 512 bytes of a block, and their checksum |
| DiskRead.ReadChecksum | fpga/zsbl/boot.c:178-180 | the two bytes after a block, high one first |
| DiskRead.ReadBlock | fpga/zsbl/boot.c:122-188 | one block: token, data, comparison, and nothing written outside its 512 bytes |
| DiskRead.DiskRead | fpga/zsbl/boot.c:122-197 | for any card replies: whether the reading returns, fails at a block or waits forever, and the buffer, of which nothing past 512 * count is written |
| DiskRead.ReturnedBlocks | fpga/zsbl/boot.c:122-197 | if it returns, every block in the buffer is the 512 bytes after the first token behind the block before it, and matched its checksum |
| DiskRead.StoppedBlock | fpga/zsbl/boot.c:128-188 | if it does not return, all blocks before the one it stops at are read, and that one mismatches its checksum or is not completed by the replies |
| DiskRead.GoodIffZero | fpga/zsbl/boot.c:178-182 | a block is accepted exactly if its 512 bytes and the two behind them drive the register to 0 |
| DiskRead.BurstNotAccepted | fpga/zsbl/boot.c:178-188 | two blocks that, with their checksum bytes, differ only inside a window of 16 bits are never both accepted |
| DiskRead.DataBurstNotAccepted | fpga/zsbl/boot.c:178-188 | in particular if the checksum bytes are the same |
| DiskRead.FewBitsNotAccepted | fpga/zsbl/boot.c:178-188 | two blocks that, with their checksum bytes, differ in two bits or in an odd number of bits, wherever these lie, are never both accepted |
| CardStream.BlocksAreRead | fpga/zsbl/boot.c:122-197 | any number of blocks, each sent as busy bytes, 0xfe, 512 bytes and their remainder by x^16 + x^12 + x^5 + 1, are read in order, up to the end of the last |
| CardStream.BadBlockFails | fpga/zsbl/boot.c:178-188 | the first block sent with another checksum is where the reading fails, with exactly the blocks before it read |
| CardStream.SilentCardWaits | fpga/zsbl/boot.c:128 | if the card sends no further token, the next block is waited for |
| Beebs.Library.RandBeebs | examples/C/crc32/beebsc.c:42-47 | the seed becomes (seed * 1103515245 + 12345) mod 2^31, and the result is its upper 15 bits |
| Beebs.Library.SrandBeebs | examples/C/crc32/beebsc.c:52-56 | the seed |
| Beebs.Library.InitHeapBeebs | examples/C/crc32/beebsc.c:62-69 | the heap is the given memory block |
| Beebs.Library.CheckHeapBeebs | examples/C/crc32/beebsc.c:77-81 | whether what was asked for fits the heap |
| Beebs.Library.MallocBeebs | examples/C/crc32/beebsc.c:93-125 | the new state and the pointer, with the wrap-around of sizes and pointers |
| Beebs.Library.CallocBeebs | examples/C/crc32/beebsc.c:132-144 | the same for a product of two sizes, which wraps around |
| Beebs.Library.ReallocBeebs | examples/C/crc32/beebsc.c:152-171 | for every call whose copy stays in the memory block: a new block, each byte of which is what its source holds when the forward copy gets there, also where the two overlap; everything outside the block is as it was |
| Beebs.MallocNumbers | examples/C/crc32/beebsc.c:93-125 | a block ends at the next multiple of 8, in 64 bits, what was asked for grows by the padded size, and the call fails exactly if that end is behind the heap or the size is 0 |
| Beebs.CopyBytes | examples/C/crc32/beebsc.c:161-167 | the forward copy byte by byte, with overlap |
| Beebs.ReallocKeeps | examples/C/crc32/beebsc.c:152-171 | after any calls and a realloc, every block handed out before keeps its bytes, and the new block starts with the contents of the old one |
| Beebs.InsideIffNoWrap | examples/C/crc32/beebsc.c:99-119 | a block that is handed out lies inside the heap exactly if its padded end does not wrap around |
| Beebs.BehindIffNoWrap | examples/C/crc32/beebsc.c:99-119 | and what is free afterwards lies behind it exactly then |
| Beebs.LaterBlockBehind | examples/C/crc32/beebsc.c:93-125 | over any calls a later block lies behind an earlier one exactly if the earlier call did not wrap, provided none in between wrapped that handed out a block |
| Beebs.InOrderIff | examples/C/crc32/beebsc.c:93-125 | every block lies behind all earlier ones exactly if no call wrapped that handed out a block and was followed by another |
| Beebs.BlocksInside | examples/C/crc32/beebsc.c:93-125 | if no call that hands out a block wraps, every block lies inside the heap |
| Beebs.BlocksDisjoint | examples/C/crc32/beebsc.c:93-125 | and no two blocks overlap |
| Beebs.WellPlacedIff | examples/C/crc32/beebsc.c:93-125 | over any calls, blocks are inside the heap and in order exactly if no call that hands out a block wraps |
| Beebs.BlocksAligned | examples/C/crc32/beebsc.c:93-125 | on an aligned heap every block is aligned, whatever the sizes |
| Beebs.WrapOverlaps | examples/C/crc32/beebsc.c:99-119 | a request just below 2^64 succeeds and lets the next block overlap an earlier one |
| Beebs.FailedIff | examples/C/crc32/beebsc.c:93-125 | for any sizes, some call fails exactly if the sizes, added up in the arithmetic of pointers, pass the heap end or reach the null address |
| Beebs.CheckTells | examples/C/crc32/beebsc.c:77-81 | for any calls: what the check tests, that it is true if no call has failed, and that it tells whether one has exactly if a last sum inside the heap means that no sum before was outside |
| Beebs.CheckTellsUnlessSumWraps | examples/C/crc32/beebsc.c:77-81 | if no block that was handed out wraps, the check is right exactly unless the sum of what was asked for leaves the heap and wraps back into it |
| Beebs.TotalIsSum | examples/C/crc32/beebsc.c:93-125 | on an aligned heap, what is asked for is the sum of the sizes, each rounded up to the alignment |
| Beebs.CheckTellsBySums | examples/C/crc32/beebsc.c:77-81 | on an aligned heap, for any calls: what the check tests, whether a call has failed, and exactly when the one tells the other, by sums of the sizes alone |
| Beebs.SmallSizes | examples/C/crc32/beebsc.c:93-125 | no block wraps if every size leaves room between the heap end and the top of the address space |
| Beebs.CheckForgets | examples/C/crc32/beebsc.c:77-81 | after two failed calls for half the address space the check is true |
| RandomPeriod.SeedPeriod | examples/C/crc32/beebsc.c:42-47 | a seed of 31 bits comes back exactly after the multiples of 2^31 calls |
| RandomPeriod.SeedsDistinct | examples/C/crc32/beebsc.c:42-47 | no seed comes twice within 2^31 calls |
| Syscalls.FillDigits | examples/C/common/syscalls.c:215-224 | the digits, lowest first, never more than the 64 entries of the buffer in any base |
| Syscalls.DigitsFit | examples/C/common/syscalls.c:215-224 | a number below 2^k has at most k digits in any base |
| Syscalls.DigitsValue | examples/C/common/syscalls.c:218-224 | the digits stand for the number |
| Syscalls.NoLeadingZero | examples/C/common/syscalls.c:218-224 | and there is no leading zero but that of 0 |
| Syscalls.PrintNum | examples/C/common/syscalls.c:212-231 | the output is the numeral, filled up on the left to the larger of the width and its length |
| Syscalls.PrintDecimal | examples/C/common/syscalls.c:353-360 | the sign, then the padded magnitude |
| Syscalls.ScanFlags | examples/C/common/syscalls.c:271-330 | the flags up to the conversion character, and the arguments that asterisks leave |
| Syscalls.FlagsPad | examples/C/common/syscalls.c:271-330 | only a space, a zero or a dash can become the padding character |
| Syscalls.Convert | examples/C/common/syscalls.c:262-388 | the output of a conversion that ends in d, whose text `Formats.PrintedText` gives: the first argument the flags leave, signed, with their width and padding |
| Syscalls.Atol | examples/C/common/syscalls.c:506-525 | the number read, for any string |
| Syscalls.RoundTrip | examples/C/common/syscalls.c:506-525 | atol reads back the output of %ld exactly if there was no padding, zeros, or spaces before a number that is not negative, and in one accidental case |
| Syscalls.PaddingMisread | examples/C/common/syscalls.c:353-360 | two outputs that are read back as other numbers |
| Syscalls.NoOverflow | examples/C/common/syscalls.c:519-522 | reading such an output never takes the accumulator past the magnitude of the number |
| Formats.FormatIsRead | examples/C/common/syscalls.c:271-330 | any format of a signed number (flag characters, width, precision, l's, d) is read as what it says, and takes the arguments of its asterisks |
| Formats.PrintedText | examples/C/common/syscalls.c:353-378 | what is printed: a minus sign, padding characters up to the width, and the decimal digits of the magnitude without a leading zero |
| Formats.FormatRoundTrip | examples/C/common/syscalls.c:353-525 | for any such format and number, atol reads the output back exactly if there was no padding, zeros, or spaces before a number that is not negative, and for a single dash before 0 |
| Formats.PlainRoundTrip | examples/C/common/syscalls.c:353-525 | %d with any number of l's, none included, is read back for every number |
| Formats.LongRoundTrip | examples/C/common/syscalls.c:353-525 | so is %0 with any width, in the format or from the arguments |
| Formats.AtolReads | examples/C/common/syscalls.c:506-525 | atol skips spaces, takes one sign, and reads all that follows as a decimal number, digit or not |
| Formats.DecimalValue | examples/C/common/syscalls.c:519-522 | that number, character by character: ten times what came before plus the distance from the character 0 |
| Formats.DigitChars | examples/C/common/syscalls.c:228-230 | the characters of the digits, above 9 the letters from a on |

## Left out

- CacheSim.Cache.Perform: splitting a line of the log into words and parsing its hexadecimal address are not modelled; a line comes as a `LogLine`. Command line arguments, verbose output, hit ratios and distributions are left out too.
- CacheSim.Cache.constructor: `int(math.log(numsets, 2))` is the exact logarithm, not a floating point one; numbers of sets and ways are powers of two, as the arguments' help text demands.
- Barrier.Safety: sequential consistency is assumed, as the fences of the source suggest; weaker memory models are not modelled. That every thread gets its turns is a hypothesis of `Barrier.FairEpisodeEnds`, not a property of a scheduler.
- Aes.AesEncrypt: the error for a failed `malloc`, and the printing of states, are not modelled; nor is the `main` of aes.c.
- Euclid.GfInverse: the printed table is not modelled, and arguments are not negative. For the moduli 0 and 1, which are no moduli to compute with, only the errors and the cut are described.
- GfLong.GfMulC: arguments are not negative (for a negative `b` the C loop does not end), and shifts that C leaves undefined, beyond 31 bits, are excluded.
- DiskRead.DiskRead: starts after the command is accepted, with an empty receive FIFO. `sd_cmd`, `init_sd`, the polling of registers and the output to the serial line are not part of this model; `fail` does not return, and a card without further replies is waited for forever. The time a reply takes is not modelled.
- Beebs.Library.ReallocBeebs: calls whose copy would read or write outside the memory block are excluded; C leaves them undefined.
- Beebs.Library.InitHeapBeebs: the memory block is one array, and pointers are its address plus an index; pointers have 64 bits.
- Syscalls.ScanFlags: widths are unbounded integers; at an asterisk without an argument, which C leaves undefined, the reading stops.
- Syscalls.Atol: computes on unbounded integers; signed overflow is undefined in C. `Syscalls.NoOverflow` says where it cannot happen.
- Syscalls.PrintDecimal: numbers have a magnitude below 2^63; negating the smallest 64-bit integer is undefined in C.
- The conversions c, s, u, o, x and p of `vprintfmt`, the loop over a whole format string, and the other functions of syscalls.c.
- `spi_read64` and `sd_read64`, which start from an uninitialised value; `gpt.c`, which copies from fixed addresses; the SoftFloat wrappers.
- The other copies of `util.h`, `syscalls.c`, `beebsc.c` and `crc_32.c`, which are near duplicates.
