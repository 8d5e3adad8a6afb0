# A verified model of the filters and their machinery

This project models the approximate-membership filters of the repository and the code that
carries them, and proves what they are for. Every main statement ranges over all inputs, all
runs or all interleavings.

| part | files | what is proved |
|---|---|---|
| Long and magic division | `LongDivision`, `DoubleWord`, `UnsignedDivider`, `SignedDivider` | the portable long divisions are exact; dividing by a generated magic number is division, for every divisor and numerator, for words of 32 and of 64 bits; recovery inverts generation |
| Addressing | `MagicAddressing`, `VacuumAddressing`, `MortonAddressing`, `MortonGeometry` | addresses and alternate addresses have the values of a remainder, a scaled hash, an exclusive or or a modular sum; they are in range and the alternate is an involution, with the exact condition where it is not |
| Morton filter | `MortonTable`, `MortonInvariant`, `MortonSteps`, `MortonPlacement`, `MortonFilter`, `MortonResize`, `MortonCollision`, `MortonLoss` | an insertion fails only after every relocation and 300 rounds of kicking out found no room; no run of successful inserts and deletions of live keys loses a key, although the second bucket is read only when an overflow bit is set; resizing keeps that, exactly under a stated condition |
| Packed blocks | `BlockStore`, `PackedMorton`, `PackedStore`, `Reductions` | the shifting and masking of words is list insertion, removal and update on the table model, and the packed store and delete are those of the table; both fast counter reductions are the serial prefix sum |
| Task queue | `TaskQueue` | in every interleaving each entry runs once, barriers separate, nothing blocks for ever |
| Partitioning | `Partition`, `SequentialPartition`, `ParallelPartition`, `PartitionRun` | every schedule of the tasks leaves the contents of the sequential form, with nothing but the barriers of the queue between the levels |
| Cuckoo filter | `SingleTable`, `CuckooFilter`, `Occupancy` | the table and the victim slot hold exactly the entries of the live keys, and room is used before the victim slot; lookups are exact in terms of keys and their hash bits |
| Semi-sorted buckets | `PermCode`, `PackedBucket`, `PackedTable`, `VacuumCode`, `VacuumBucket`, `VacuumTable`, `VacuumFilter` | the bucket codes are bijections; a bucket reads back sorted and no neighbour changes; the vacuum kick chain conserves fingerprints and fails only when every round was stuck |
| Bit fields | `BitFields`, `Windows`, `FieldAccess`, `Lanes` | reading and writing fields across words and bytes is reading and writing one number; the three access strategies agree |

`Arith` holds the arithmetic that these share: powers of two, quotients and remainders, and the
bitwise operators on natural numbers. `Runs` holds what the filters share about runs of insertions
and deletions: in terms of keys, those inserted and not deleted.

How the model is set up:

- Hash functions are uninterpreted: a filter object is given an arbitrary function from keys to
  hash values. Random choices are arbitrary choices in range.
- Machine words are natural numbers with explicit remainders, bit sequences, or bit vectors where
  the source plays bit tricks. The dividers are parametric in half the word width, which is
  16 or 32 bits.
- Code that updates arrays and fields is a class with methods and loops; each is proved against a
  specification, and the laws of the specification are lemmas.
- A filter keeps, as specification state, the multiset of its live keys' entries. An entry is a
  fingerprint with the buckets it may be in.
- Threads are state machines whose steps are interleaved arbitrarily. Fetching a queue position,
  arriving at the barrier and leaving it are atomic steps; spurious wake-ups change nothing,
  because leaving is possible only after the generation has changed.

Where the code does not meet what one would expect of it, the exact condition is proved:

- A deletion of a key that was never inserted from a Morton filter succeeds if and only if a key of
  the same fingerprint with the two candidate buckets exchanged is live, and then removes that key
  (`MortonFilter.MortonFilter.DeleteItem`). `MortonCollision.DeleteStranger` is a filter that this
  empties.
- Growing a Morton filter keeps every live key findable if and only if the configuration lets
  overflow indices survive (`MortonLoss.GrowsSafelyExactly`, `MortonResize.OtaSurvivesExactly`);
  otherwise `MortonLoss.LosesKey` is a filter that loses a key.
- The chunk sizes of `src/address/addresser_vacuum.hpp` cover a request if and only if twice the
  request fits the word (`VacuumAddressing.SizeFitsExactly`); `VacuumAddressing.LostRequest` is one
  that does not.
- The correction at `src/address/addresser_morton.hpp` line 83 has the opposite sign to lines 103
  and 123. `MortonAddressing.ReversedExactly` says for which addresses that matters, and
  `MortonAddressing.ReversedLeaves` is one.
- The search of both buckets of the packed table, `lib/efficient_cuckoofilter/packedtable.h` lines
  310 to 351, has the shifts of tags with nine direct bits whatever the width. It reads the tags of
  every bucket if and only if they have nine (`PackedTable.NineSpacedExactly`);
  `PackedTable.TagMissed` is a table with a tag that it does not see.

The segments of a large vacuum filter rest on one assumption about the floating-point load estimate,
`VacuumFilter.Sensible`: the first length is above 1024, and a length that is enough for all
fingerprints is enough for the second and third kind, and half of it for the last. Given that,
alternates stay in the table (`VacuumFilter.LargeSegments`); `VacuumFilter.LargeSegmentsExactly` is
the condition for arbitrary lengths.

A failed insertion into a Morton or vacuum filter loses one fingerprint; the contracts of the
insertions say so.

## Model

| member | source | states |
|---|---|---|
| LongDivision.QuotientDigit | lib/libdivide/libdivide.h:427-442 | The digit loop (estimate, test with wrap-around, decrement, early exit) ends in the exact quotient digit of the running remainder by the divisor. |
| LongDivision.TwoDigits | lib/libdivide/libdivide.h:431-457 | The two digits put together are the exact quotient, and the wrapped subtraction is the exact remainder. |
| LongDivision.Div128By64 | lib/libdivide/libdivide.h:399-456 | For every divisor and every dividend whose high word is below it, the exact quotient and remainder; otherwise all ones for both, the overflow answer. |
| LongDivision.CountLeadingZeros | lib/libdivide/libdivide.h:303-350 | The shift that brings the highest set bit to the top of the word. |
| DoubleWord.MulHigh | lib/libdivide/libdivide.h:262-276 | The four partial products give exactly the high word of the full product. |
| DoubleWord.Shift128 | lib/libdivide/libdivide.h:462-474 | Shifting a pair of words by a positive, negative or zero amount is scaling or flooring its value. |
| DoubleWord.EstimateWithinOne | lib/libdivide/libdivide.h:511-534 | The quotient estimated from the normalised divisor is the true one or one above it. |
| DoubleWord.CorrectQuotient | lib/libdivide/libdivide.h:529-570 | Taking one off the estimate, multiplying back and adding one where the remainder allows it gives the exact quotient and remainder. |
| DoubleWord.Div128By128 | lib/libdivide/libdivide.h:496-570 | The 128 by 128 bit division is exact whenever the quotient fits one word, for every nonzero divisor. |
| UnsignedDivider.MagicQuotient | lib/libdivide/libdivide.h:590-620 | Multiplying by a reciprocal whose error is below the bound and shifting is exact floor division, for every numerator of the word. |
| UnsignedDivider.PlainIsMagic | lib/libdivide/libdivide.h:598-604 | A reciprocal accepted without the add step is below the word and has a small enough error. |
| UnsignedDivider.AddIsMagic | lib/libdivide/libdivide.h:605-620 | The doubled reciprocal, computed with wrap-around, has a small enough error one bit up. |
| UnsignedDivider.InternalGen | lib/libdivide/libdivide.h:576-626 | The generator, which divides a double word by the divisor, produces the divider of the specification, for words of 32 and of 64 bits. |
| UnsignedDivider.DividesExactly | lib/libdivide/libdivide.h:659-674 | For every nonzero divisor and every numerator, dividing with the generated divider is floor division, through the shift, the plain and the add path, without overflow in the add path. |
| UnsignedDivider.BranchfreeDividesExactly | lib/libdivide/libdivide.h:650-680 | The branchfree form gives floor division for every divisor above one. |
| UnsignedDivider.RecoverInvertsGen | lib/libdivide/libdivide.h:682-718 | Recovering the divisor of a generated divider gives the divisor back. |
| UnsignedDivider.BranchfreeRecoverInvertsGen | lib/libdivide/libdivide.h:720-749 | The same for branchfree dividers. |
| UnsignedDivider.U64Recover | lib/libdivide/libdivide.h:841-882 | The 64-bit recovery, which needs the 128 by 128 bit division for the add path, returns the divisor. |
| SignedDivider.InternalSGen | lib/libdivide/libdivide.h:920-985 | The signed generator produces the divider of the specification, with negated magic numbers for negative divisors. |
| SignedDivider.SignedMagicQuotient | lib/libdivide/libdivide.h:997-1023 | A signed high product with a small enough error, corrected by the sign bit, is division truncated towards zero. |
| SignedDivider.SDividesExactly | lib/libdivide/libdivide.h:997-1023 | For every nonzero signed divisor and every numerator, the result is division truncated towards zero, wrapped in the word (the smallest number by minus one). |
| SignedDivider.BranchfreeSDividesExactly | lib/libdivide/libdivide.h:1025-1047 | The same for the branchfree form. |
| SignedDivider.SRecoverInvertsGen | lib/libdivide/libdivide.h:1049-1088 | Recovering the divisor of a generated signed divider gives the divisor back, sign included. |
| MagicAddressing.U32CheapGen | lib/libdivide/libdivide.h:634-648 | The search ends without wrapping, at the smallest divisor at or above the request and two whose divider needs neither a shift path nor an add step. |
| MagicAddressing.LargestWordIsCheap | lib/libdivide/libdivide.h:639-646 | Such a divisor exists below the word size, so the search always ends. |
| MagicAddressing.ReduceIsRemainder | src/address/addresser_magic.hpp:81-91 | Two multiplications and a subtraction give the remainder by the divisor, for every hash. |
| MagicAddressing.MagicAddresser.constructor | src/address/addresser_magic.hpp:55-67 | Every partition gets the smallest cheap divisor that covers the requested size, and the divider that belongs to it. |
| MagicAddressing.MagicAddresser.AddressIsRemainder | src/address/addresser_magic.hpp:81-106 | Addresses are remainders of the hash, inside a table at least as large as requested. |
| MagicAddressing.MagicAddresser.AlternativeInvolution | src/address/addresser_magic.hpp:122-131 | The alternate address is in the table and leads back to the address. |
| MagicAddressing.MagicAddresser.AlternativeSum | src/address/addresser_magic.hpp:122-131 | An address and its alternate add up to the hashed signature, modulo the divisor. |
| MagicAddressing.ReflectInvolution | src/address/addresser_magic.hpp:122-131 | Reflection at the signature in word arithmetic stays below the size and is its own inverse. |
| MagicAddressing.LemireAlternateInvolution | src/address/addresser_lemire.hpp:79-89 | The alternate address by multiply-high addressing is in the table and leads back. |
| MagicAddressing.LemireAlternateSum | src/address/addresser_lemire.hpp:77-90 | An address and its alternate add up, modulo the size, to the hashed signature scaled to the size, rounded down. |
| MagicAddressing.MultiplyHighInRange | src/address/addresser_lemire.hpp:58-75 | The high word of hash times size is below the size. |
| MagicAddressing.MultiplyHighIsFloor | src/address/addresser_lemire.hpp:58-75 | The high word is the product of hash and size divided by the word, rounded down. |
| VacuumAddressing.VacuumAddresser.constructor | src/address/addresser_vacuum.hpp:45-62 | For every request that is a word: up to half the word, zero included, the table covers its request, is at most twice as large and consists of whole chunks of its mask; above, it is empty. |
| VacuumAddressing.SizeFitsExactly | src/address/addresser_vacuum.hpp:49-61 | For every request that is a word, the computed size and mask cover it in whole chunks if and only if twice the request fits; otherwise the power of two is lost and the table is empty. |
| VacuumAddressing.SizeChunks | src/address/addresser_vacuum.hpp:49-61 | The chunk is a power of two with eight to sixteen chunks to the request and the size is the least multiple that covers it, or the size is one power of two below twice the request. |
| VacuumAddressing.LostRequest | src/address/addresser_vacuum.hpp:49-61 | A request of two to the thirty-first and one gets a table of size zero. |
| VacuumAddressing.ChunkInvolution | src/address/addresser_vacuum.hpp:93-97 | The exclusive or with masked hash bits stays in its chunk, in the table, and leads back. |
| VacuumAddressing.AlternateIsXor | src/address/addresser_vacuum.hpp:93-97 | The exclusive or of an address and its alternate is the masked hash. |
| VacuumAddressing.StaysInRangeExactly | src/address/addresser_vacuum.hpp:93-97 | Every alternate address of every hash stays in the table if and only if the table consists of whole chunks that contain the mask. |
| VacuumAddressing.VacuumAddresser.AlternativeInvolution | src/address/addresser_vacuum.hpp:75-109 | Addresses of the object are in the table, alternates too, and they lead back. |
| VacuumAddressing.VacuumAddresser.AlternativeIsXor | src/address/addresser_vacuum.hpp:75-109 | The address is the hash scaled to the size, rounded down, and the exclusive or with its alternate is the hashed signature modulo the chunk. |
| MortonAddressing.OddOffsetRange | src/address/addresser_morton.hpp:91-92 | The offset of a signature is odd and below 0x2000. |
| MortonAddressing.AlternateIsStep | src/address/addresser_morton.hpp:88-105 | The word arithmetic with its wrapped comparison is the parity-directed step on integers. |
| MortonAddressing.AlternateInvolution | src/address/addresser_morton.hpp:88-105 | In a table of even size with a smaller odd offset the alternate address stays in the table and leads back. |
| MortonAddressing.InvolutionExactly | src/address/addresser_morton.hpp:88-105 | It leads back from every address if and only if the size is even. |
| MortonAddressing.ReversedExactly | src/address/addresser_morton.hpp:67-85 | With the opposite sign of the correction, as in the gathering form, the alternate is in the table exactly when it needs no correction or the wrong one wraps around the word, and it is the right one exactly when it needs no correction or the table is half the word. |
| MortonAddressing.ReversedLeaves | src/address/addresser_morton.hpp:67-85 | From address 3 of a table of four with offset 3 the gathering form leads to 10, the other forms to 2. |
| MortonGeometry.MapToBucketLegal | lib/amd_mortonfilter/compressed_cuckoo_filter.h:361-378 | The primary bucket of a hash is in the table and, after resizing, in the child block that the fingerprint chooses. |
| MortonGeometry.MapToBucketIs | lib/amd_mortonfilter/compressed_cuckoo_filter.h:361-378 | Its number before resizing is the low bits of the hash scaled to the original number of buckets, rounded down. |
| MortonGeometry.AlternateInvolution | lib/amd_mortonfilter/compressed_cuckoo_filter.h:387-451 | The alternate bucket is in the table, suits the fingerprint and leads back, also after resizing. |
| MortonGeometry.AlternateIs | lib/amd_mortonfilter/compressed_cuckoo_filter.h:387-451 | Before resizing, the alternate is the bucket up or down by the offset of the fingerprint, by the parity of the bucket, modulo the original number of buckets. |
| MortonGeometry.OffsetIs | lib/amd_mortonfilter/compressed_cuckoo_filter.h:387-451 | The computed offset is thirteen bits of the hashed fingerprint and the size of a block, made odd; the tabulated one is the same for two fingerprints exactly when their low five bits are. |
| MortonGeometry.StepIs | lib/amd_mortonfilter/compressed_cuckoo_filter.h:387-451 | The step with its two wrap-around branches is addition or subtraction modulo the table size. |
| MortonGeometry.AlternateOtherBlock | lib/amd_mortonfilter/compressed_cuckoo_filter.h:387-451 | In a table of safe size the two candidate buckets are in different blocks. |
| MortonGeometry.OtaIndexInRange | lib/amd_mortonfilter/compressed_cuckoo_filter.h:2053-2085 | The overflow bit of a bucket and fingerprint is inside the overflow array for all three hashing methods. |
| MortonGeometry.OtaIndexIs | lib/amd_mortonfilter/compressed_cuckoo_filter.h:2053-2085 | The bit is the fingerprint scaled to the array, the remainder of the bucket, or the number of its group of neighbours, the smallest groups for which the bits suffice; where blocks are no power of two, a filter that can grow takes the old block. |
| MortonGeometry.FingerprintFits | lib/amd_mortonfilter/compressed_cuckoo_filter.h:350-359 | Fingerprints fit their width. |
| MortonGeometry.SameFingerprintExactly | lib/amd_mortonfilter/compressed_cuckoo_filter.h:350-359 | Two hashes have one fingerprint if and only if they agree in their high bits. |
| MortonTable.StoreBuckets | lib/amd_mortonfilter/compressed_cuckoo_filter.h:1878-1948 | Storing puts the fingerprint at the head of its bucket and leaves every other bucket of the block as it was. |
| MortonTable.DeleteBuckets | lib/amd_mortonfilter/compressed_cuckoo_filter.h:976-1011 | Deleting a slot takes exactly that element out of its bucket and leaves the others. |
| MortonTable.ReplaceBuckets | lib/amd_mortonfilter/compressed_cuckoo_filter.h:2205-2231 | Overwriting a slot changes exactly that element of its bucket. |
| MortonTable.StoreValid | lib/amd_mortonfilter/compressed_cuckoo_filter.h:1878-1948 | A block with room stays laid out: counters within the slots, their sum the number of fingerprints, within the capacity. |
| MortonTable.DeleteValid | lib/amd_mortonfilter/compressed_cuckoo_filter.h:976-1011 | A block from which a slot is deleted stays laid out. |
| MortonTable.StoreInTable | lib/amd_mortonfilter/compressed_cuckoo_filter.h:1878-1948 | In the whole table, storing adds one copy in one bucket and changes no other count and no overflow bit. |
| MortonTable.DeleteInTable | lib/amd_mortonfilter/compressed_cuckoo_filter.h:976-1011 | In the whole table, deleting takes one copy from one bucket. |
| MortonTable.ReplaceInTable | lib/amd_mortonfilter/compressed_cuckoo_filter.h:2205-2231 | In the whole table, overwriting takes one copy out and puts one in, in one bucket. |
| MortonInvariant.LiveIsFound | lib/amd_mortonfilter/compressed_cuckoo_filter.h:1135-1166 | When the table tracks the live keys, every live key is in its primary bucket, or in its alternate bucket with the primary's overflow bit set. |
| MortonInvariant.FlowTracks | lib/amd_mortonfilter/compressed_cuckoo_filter.h:2372-2453 | Any change of the table that moves fingerprints between their two buckets and records each move out of a bucket in its overflow bit keeps the tracking. |
| MortonInvariant.Drop | lib/amd_mortonfilter/compressed_cuckoo_filter.h:2159-2293 | A fingerprint given up at the end of a kick chain costs exactly one live key of its two buckets. |
| MortonInvariant.RemoveLive | lib/amd_mortonfilter/compressed_cuckoo_filter.h:1111-1132 | Deleting one copy of a live key found as lookups find it keeps all other live keys tracked. |
| MortonInvariant.StoredExactly | lib/amd_mortonfilter/compressed_cuckoo_filter.h:1107-1133 | When the table tracks the live keys, a fingerprint is in one of its two buckets if and only if a key with it is live in one of them. |
| MortonSteps.StoreFlows | lib/amd_mortonfilter/compressed_cuckoo_filter.h:1878-1948 | A first-level store puts the fingerprint in hand into its bucket. |
| MortonSteps.RelocateInBucketFlows | lib/amd_mortonfilter/compressed_cuckoo_filter.h:1952-1985 | Relocating a fingerprint of the full bucket moves it to its alternate, records the overflow and stores the new one. |
| MortonSteps.RelocateInBlockFlows | lib/amd_mortonfilter/compressed_cuckoo_filter.h:1996-2051 | The same for a fingerprint of any bucket of a full block. |
| MortonSteps.KickFromBucketFlows | lib/amd_mortonfilter/compressed_cuckoo_filter.h:2205-2231 | Kicking out of a full bucket takes the victim in hand and records its overflow. |
| MortonSteps.KickFromBlockFlows | lib/amd_mortonfilter/compressed_cuckoo_filter.h:2236-2286 | Kicking out of a full block deletes the victim, records its overflow and stores the new one. |
| MortonSteps.ViaSecondary | lib/amd_mortonfilter/compressed_cuckoo_filter.h:2420-2453 | Inserting through the secondary bucket with the primary's overflow bit set tracks the key under its primary bucket. |
| MortonFilter.TotalBucketsLaws | lib/amd_mortonfilter/morton_util.h:50-69 | The bucket count is even, a whole number of blocks, and covers the requested slots. |
| MortonFilter.TotalBucketsIsLeast | lib/amd_mortonfilter/morton_util.h:50-69 | No smaller even number of buckets in whole blocks covers the requested slots. |
| MortonPlacement.FailsOnly | lib/amd_mortonfilter/compressed_cuckoo_filter.h:2372-2453 | An insertion fails only when both candidate buckets are crowded, no fingerprint of either bucket or block can move, and 300 rounds of kicking out found no room. |
| MortonPlacement.Succeeds | lib/amd_mortonfilter/compressed_cuckoo_filter.h:2372-2453 | With room in a candidate bucket, or a fingerprint to move out of one, an insertion succeeds; the primary bucket is taken first, then the alternate with the overflow recorded. |
| MortonPlacement.ChainFindsNoRoom | lib/amd_mortonfilter/compressed_cuckoo_filter.h:2159-2293 | No round of a kick-out chain but the last finds room. |
| MortonFilter.MortonFilter.constructor | lib/amd_mortonfilter/compressed_cuckoo_filter.h:276-335 | An empty filter tracks no keys; its blocks hold no fingerprint, count none and record no overflow. |
| MortonFilter.MortonFilter.ReduceUpToIndex | lib/amd_mortonfilter/compressed_cuckoo_filter.h:786-793 | The serial sum of the counters below an index is where the bucket starts. |
| MortonFilter.MortonFilter.FirstLevelStore | lib/amd_mortonfilter/compressed_cuckoo_filter.h:1878-1948 | Succeeds exactly when the bucket and the block have room, and then puts the fingerprint at the head of its bucket; otherwise changes nothing. |
| MortonFilter.MortonFilter.TryRelocation | lib/amd_mortonfilter/compressed_cuckoo_filter.h:1952-1985 | Succeeds if and only if a fingerprint of the bucket can move to its other bucket; the first such slot is relocated, and a failure changes nothing. |
| MortonFilter.MortonFilter.TryRelocationOnBlockOverflow | lib/amd_mortonfilter/compressed_cuckoo_filter.h:1996-2051 | The same over all buckets of the block: succeeds if and only if one of them has a fingerprint that can move, and the first one moves. |
| MortonFilter.MortonFilter.RandomKickoutCuckoo | lib/amd_mortonfilter/compressed_cuckoo_filter.h:2159-2293 | Whatever the random choices, the rounds are a chain of kick-outs, each from a bucket or block without room; it ends with a store, or after 300 rounds with the last victim in hand, and keeps table and hand tracking the keys. |
| MortonFilter.MortonFilter.ResolveCollision | lib/amd_mortonfilter/compressed_cuckoo_filter.h:2372-2417 | The searches in their order, then the kick-out chain: each is reached only when those before it find nothing to move, and the table is that of the first that succeeds. |
| MortonFilter.MortonFilter.TableStore | lib/amd_mortonfilter/compressed_cuckoo_filter.h:2420-2453 | With room in the primary bucket the table is the old one with the fingerprint stored there; with room in the alternate only, stored there with the primary's overflow bit set; otherwise what collision resolution leaves. A success tracks the new key. |
| MortonFilter.MortonFilter.Insert | lib/amd_mortonfilter/compressed_cuckoo_filter.h:912-955 | Room in either candidate bucket means success. A successful insert adds exactly its key to the live keys; a failed one gives up one key, the one of the fingerprint that the chain left in hand. |
| MortonFilter.MortonFilter.ReturnSlotIdOnMatch | lib/amd_mortonfilter/compressed_cuckoo_filter.h:1286-1340 | The last slot that holds the fingerprint, because the loop runs on after a match, or the number of slots when there is none. |
| MortonFilter.MortonFilter.TableReadAndCompare | lib/amd_mortonfilter/compressed_cuckoo_filter.h:1447-1461 | True exactly when the bucket holds the fingerprint. |
| MortonFilter.MortonFilter.LikelyContains | lib/amd_mortonfilter/compressed_cuckoo_filter.h:1135-1166 | Reports a key if and only if its fingerprint is in its primary bucket, or its overflow bit is set and it is in the alternate. So every live key is reported, and whatever is reported has its fingerprint live in one of the two buckets. |
| MortonFilter.MortonFilter.TableDeleteItem | lib/amd_mortonfilter/compressed_cuckoo_filter.h:976-1011 | Succeeds exactly when the bucket holds the fingerprint, and takes away its first match. |
| MortonFilter.MortonFilter.DeleteItem | lib/amd_mortonfilter/compressed_cuckoo_filter.h:1111-1132 | Succeeds if and only if the key is live or a key of the same fingerprint with the two buckets exchanged is; then exactly that entry goes, by taking out its first copy, of the primary bucket when there is one there, and otherwise nothing changes. |
| MortonFilter.MortonFilter.Perform | lib/amd_mortonfilter/compressed_cuckoo_filter.h:912-1132 | Each operation of a run leaves the table that insertion or deletion prescribes. Over any run in which all inserts succeed and only live keys are deleted, the live keys are exactly those inserted and not deleted. |
| MortonFilter.MortonFilter.PresentIsReported | lib/amd_mortonfilter/compressed_cuckoo_filter.h:912-1166 | Over runs from an empty filter that delete only keys that are present, every key inserted and not deleted is live, and so reported. |
| MortonFilter.MortonFilter.LiveExactly | lib/amd_mortonfilter/compressed_cuckoo_filter.h:912-1166 | After such runs a key has its fingerprint live in one of its two buckets if and only if a present key has the same high hash bits and one of these buckets for its own. |
| MortonFilter.MortonFilter.Resize | lib/amd_mortonfilter/compressed_cuckoo_filter.h:2310-2359 | Resizing keeps every live key findable when overflow indices survive it. |
| MortonCollision.ExampleKeys | lib/amd_mortonfilter/compressed_cuckoo_filter.h:361-451 | At a concrete geometry, two hash values with the same fingerprint whose primary buckets are each other's alternates. |
| MortonCollision.ResidentTable | lib/amd_mortonfilter/compressed_cuckoo_filter.h:912-955 | A table that tracks just the second of these keys. |
| MortonCollision.DeleteStranger | lib/amd_mortonfilter/compressed_cuckoo_filter.h:1107-1133 | On such a filter, deleting the first key, which was never inserted, succeeds and empties the filter. |
| MortonResize.HandOut | lib/amd_mortonfilter/compressed_cuckoo_filter.h:2326-2346 | One round of the hand-out loop appends to each child the fingerprints of the bucket that it is chosen for. |
| MortonResize.ChildBucket | lib/amd_mortonfilter/compressed_cuckoo_filter.h:2326-2346 | Bucket by bucket, a child holds exactly the parent's fingerprints that choose it, in order. |
| MortonResize.ChildValid | lib/amd_mortonfilter/compressed_cuckoo_filter.h:2326-2346 | Each child block keeps the packed layout. |
| MortonResize.SplitBlock | lib/amd_mortonfilter/compressed_cuckoo_filter.h:2326-2357 | The in-place loops over buckets and slots build these children, with the parent's overflow array copied to each. |
| MortonResize.SplitTable | lib/amd_mortonfilter/compressed_cuckoo_filter.h:2310-2359 | The whole table becomes the split table. |
| MortonResize.SplitCopies | lib/amd_mortonfilter/compressed_cuckoo_filter.h:361-378 | After the split a bucket search finds a fingerprint as often as before, in the bucket that the new resize count names. |
| MortonResize.MovedPrimary | lib/amd_mortonfilter/compressed_cuckoo_filter.h:361-378 | The primary bucket of a hash after resizing is the moved primary bucket. |
| MortonResize.MovedAlternate | lib/amd_mortonfilter/compressed_cuckoo_filter.h:387-451 | Moving a bucket and taking its alternate commute. |
| MortonResize.OtaSurvivesExactly | lib/amd_mortonfilter/compressed_cuckoo_filter.h:2053-2085 | Overflow indices are the same before and after resizing, for every bucket and fingerprint, if and only if the configuration does not combine raw bucket hashing with a power of two of buckets per block that the overflow length does not divide. |
| MortonResize.SplitTracks | lib/amd_mortonfilter/compressed_cuckoo_filter.h:2310-2359 | Under that condition the split table tracks the moved live keys. |
| MortonLoss.LosesKey | lib/amd_mortonfilter/compressed_cuckoo_filter.h:2053-2085 | Outside that condition there is a tracked table with one live key whose lookup fails after growing: its bucket is empty and the overflow bit at the new index is clear. |
| MortonLoss.GrowsSafelyExactly | lib/amd_mortonfilter/compressed_cuckoo_filter.h:2310-2359 | Growing keeps every live key of every tracked table findable if and only if overflow indices survive. |
| MortonResize.StaysLive | lib/amd_mortonfilter/compressed_cuckoo_filter.h:361-378 | A key that was live is live after the move. |
| BlockStore.ReadCrossIsSlice | lib/amd_mortonfilter/block.h:325-352 | Reading a field that may cross from one atom into the next returns the bits of the field. |
| BlockStore.ShiftOutUndoesShiftIn | lib/amd_mortonfilter/block.h:362-520 | Removing an inserted element gives back the array up to the slot that fell off. |
| BlockStore.RippleIsAddition | lib/amd_mortonfilter/block.h:300-322 | Flipping the bits from a position up to the first zero adds that power of two, modulo the width of the array. |
| BlockStore.RippleInField | lib/amd_mortonfilter/block.h:300-322 | An increment of a field that is not full stays inside the field. |
| BlockStore.PackedBlock.AddCross | lib/amd_mortonfilter/block.h:166-195 | Writing a field changes exactly its bits, across two atoms if need be. |
| BlockStore.PackedBlock.AddCrossLeftDisplace | lib/amd_mortonfilter/block.h:417-457 | The whole block shifted and merged is the array with the element inserted at its index, the bits below fixed. |
| BlockStore.PackedBlock.AddCrossLeftDisplaceV2 | lib/amd_mortonfilter/block.h:362-402 | The second form computes the same block. |
| BlockStore.PackedBlock.DelCrossRightDisplace | lib/amd_mortonfilter/block.h:476-520 | The element at the index is removed and the ones above move down. |
| BlockStore.PackedBlock.StickySetBit | lib/amd_mortonfilter/block.h:108-115 | Sets one bit if the value is set, and never clears it. |
| BlockStore.PackedBlock.IncCross | lib/amd_mortonfilter/block.h:300-322 | Adds one to the number from the position on, carrying over atoms. |
| PackedMorton.LeftDisplaceRefines | lib/amd_mortonfilter/block.h:417-457 | On a block that represents counters, overflow bits and fingerprints, the bit-level insertion is the list insertion of the table model. |
| PackedMorton.RightDisplaceRefines | lib/amd_mortonfilter/block.h:476-520 | The bit-level removal is the list removal. |
| PackedMorton.WriteRefines | lib/amd_mortonfilter/compressed_cuckoo_filter.h:1471-1484 | The bit-level overwrite is the list update. |
| PackedMorton.IncrementRefines | lib/amd_mortonfilter/compressed_cuckoo_filter.h:827-851 | The bit-level increment raises one counter and touches no other field. |
| PackedMorton.SetCounterRefines | lib/amd_mortonfilter/compressed_cuckoo_filter.h:795-825 | Writing a counter field sets that counter and touches no other field. |
| PackedMorton.SetBitRefines | lib/amd_mortonfilter/compressed_cuckoo_filter.h:2139-2157 | Setting an overflow bit sets that bit and touches no other field. |
| PackedStore.FirstLevelStore | lib/amd_mortonfilter/compressed_cuckoo_filter.h:1878-1948 | On a packed block that holds a table block, the shift and the counter increment leave a packed block that holds the table block after the store, exactly when there is room. |
| PackedStore.TableDeleteItem | lib/amd_mortonfilter/compressed_cuckoo_filter.h:976-1011 | The packed search, removal and counter write leave a packed block that holds the table block after deleting the first match, exactly when there is one. |
| PackedStore.Increment | lib/amd_mortonfilter/compressed_cuckoo_filter.h:827-851 | The packed increment of a counter with room raises that counter of the table block. |
| PackedStore.SetFullnessCounter | lib/amd_mortonfilter/compressed_cuckoo_filter.h:801-822 | The packed write of a counter sets that counter of the table block. |
| PackedStore.ReadCounter | lib/amd_mortonfilter/compressed_cuckoo_filter.h:1556-1586 | Reading across words returns the counter of the table block. |
| PackedStore.ReadFingerprint | lib/amd_mortonfilter/compressed_cuckoo_filter.h:1527-1552 | Reading across words returns the fingerprint of the table block. |
| PackedStore.ReduceUpToIndex | lib/amd_mortonfilter/compressed_cuckoo_filter.h:786-793 | The serial sum over packed counters is where the bucket starts. |
| PackedStore.ReduceWithPopcount | lib/amd_mortonfilter/compressed_cuckoo_filter.h:759-784 | The weighted population counts over the block's first word are where the bucket starts. |
| PackedStore.ReduceWithParallelSum | lib/amd_mortonfilter/compressed_cuckoo_filter.h:649-678 | The tree reduction over the block's counters is where the bucket starts, when that fits the widened lanes. |
| Reductions.ExclusiveReduceWithPopcount64 | lib/amd_mortonfilter/compressed_cuckoo_filter.h:759-784 | The weighted sum of masked population counts is the sum of the counters below the index. |
| Reductions.ExclusiveReduceWithPopcount128 | lib/amd_mortonfilter/compressed_cuckoo_filter.h:730-757 | The same over two words. |
| Reductions.GenerateReductionMask | lib/amd_mortonfilter/compressed_cuckoo_filter.h:514-530 | The shifted and added mask keeps every other lane. |
| Reductions.MaskedPass | lib/amd_mortonfilter/compressed_cuckoo_filter.h:670-672 | A masked shift-and-add adds neighbouring lanes without overflow. |
| Reductions.UnmaskedPass | lib/amd_mortonfilter/compressed_cuckoo_filter.h:673-675 | An unmasked pass adds lanes at a distance while they have room. |
| Reductions.ExclusiveReduceWithParallelSum | lib/amd_mortonfilter/compressed_cuckoo_filter.h:649-678 | The tree reduction is the sum of the counters below the index, when the total fits the widened lanes. |
| TaskQueue.StepKeepsInv | src/task/task_queue.hpp:64-72 | Every step of any thread keeps the invariant of queue, barrier and threads. |
| TaskQueue.SomeoneCanGoOn | src/task/task_queue.hpp:113-127 | Unless all threads have finished, some thread can step: no deadlock. |
| TaskQueue.StepMakesProgress | src/task/task_queue.hpp:113-127 | Every step lowers a measure that is bounded below, so every run ends. |
| TaskQueue.FinishedLog | src/task/task_queue.hpp:113-127 | When all threads have finished, whatever the interleaving, every entry has been run exactly once, no entry after a barrier has started before all earlier ones completed, and each barrier was taken by that many distinct threads. |
| TaskQueue.StepKeepsLog | src/task/task_queue.hpp:64-72 | Every step keeps what the log of starts and completions says of the state. |
| TaskQueue.BarrierSeparates | src/task/task_queue.hpp:104-111 | Two entries in different groups have a whole barrier between them. |
| TaskQueue.AddBarrierGrouped | src/task/task_queue.hpp:104-111 | A barrier is one entry per thread, so groups stay whole. |
| TaskQueue.Barrier.Arrive | src/task/barrier.hpp:23-36 | The last arrival starts a new generation and resets the counter; the others wait for it. |
| TaskQueue.TaskQueue.StepWorker | src/task/task_queue.hpp:64-72 | One step of one thread on the shared fields is the step of the model. |
| TaskQueue.TaskQueue.ExecuteTasks | src/task/task_queue.hpp:113-127 | Running the threads in any order until all have finished has all three properties and resets the queue. |
| TaskQueue.TaskQueue.AddTask | src/task/task_queue.hpp:99-102 | Appends one entry. |
| TaskQueue.TaskQueue.AddBarrier | src/task/task_queue.hpp:104-111 | Appends as many barrier entries as there are threads. |
| Partition.PartitionIsRemainder | src/partition/partition_set.hpp:80-87 | For a power of two of partitions the mask selects the remainder. |
| Partition.ChosenMeans | src/partition/partition_set.hpp:106-115 | Choosing keeps exactly the occurrences of the elements of a partition. |
| Partition.OffsetApart | src/partition/partition_set.hpp:90-95 | The padded regions of two partitions do not overlap. |
| Partition.SameContents | src/partition/partition_set.hpp:79-227 | Any two results that are partitioned have the same histogram, offsets and partition contents; so the sequential and every parallel run agree. |
| SequentialPartition.PushStep | src/partition/partition_set.hpp:106-115 | Putting an element into its buffer, with the store of a full buffer, extends the contents of its partition and disturbs no other. |
| SequentialPartition.FlushStep | src/partition/partition_set.hpp:117-121 | Storing a rest, although a whole buffer is written, completes its partition and disturbs no finished one. |
| SequentialPartition.PartitionSet.CountElements | src/partition/partition_set.hpp:85-88 | The histogram counts each partition. |
| SequentialPartition.PartitionSet.LayOut | src/partition/partition_set.hpp:90-96 | Offsets are the sums of the padded counts. |
| SequentialPartition.PartitionSet.Init | src/partition/partition_set.hpp:79-124 | Every partition's range holds exactly its subsequence of the input, in input order. |
| ParallelPartition.RangesApart | src/partition/partition_set.hpp:162-177 | The write ranges of different tasks and partitions do not overlap and are in bounds. |
| ParallelPartition.NextKeepsInv | src/partition/partition_set.hpp:183-212 | Every step of every task on any thread keeps the invariant of ranges, buffers and counts. |
| ParallelPartition.SomeTaskCanGoOn | src/partition/partition_set.hpp:183-212 | While a task is unfinished, some task can go on. |
| ParallelPartition.NextMakesProgress | src/partition/partition_set.hpp:183-212 | Every step lowers a bounded measure. |
| ParallelPartition.ResultIsPartitioned | src/partition/partition_set.hpp:126-227 | When all tasks are finished, whatever the schedule, every partition's range holds its subsequence of the input, in input order. |
| ParallelPartition.ParallelPartitionSet.CountTask | src/partition/partition_set.hpp:145-158 | A counting task fills its own row of the local histograms. |
| ParallelPartition.ParallelPartitionSet.LayOutTask | src/partition/partition_set.hpp:162-179 | The layout task gives every task its own range in every partition. |
| ParallelPartition.ParallelPartitionSet.FeedTask | src/partition/partition_set.hpp:189-199 | One element goes into the thread's buffer, and a full buffer to the task's range. |
| ParallelPartition.ParallelPartitionSet.Init | src/partition/partition_set.hpp:126-227 | Level after level in the method's own order, with the scattering tasks assigned and interleaved in any way, the result is partitioned. |
| PartitionRun.AddTasks | src/partition/partition_set.hpp:143-212 | Adding the tasks and the barriers level by level gives the queue of the machine. |
| PartitionRun.TaskStands | src/partition/partition_set.hpp:143-212 | Each task stands in the queue behind exactly as many whole groups of barrier entries as its level says. |
| PartitionRun.LevelsApart | src/task/task_queue.hpp:104-127 | When a worker runs a task, every task of every lower level is done; nothing but the barriers sees to it. |
| PartitionRun.StepKeepsInv | src/partition/partition_set.hpp:126-227 | Every step of any worker, of the queue or of the counting, layout, scattering or clean-up task it is running, keeps the invariant of the whole run. |
| PartitionRun.SomeoneCanGoOn | src/task/task_queue.hpp:113-127 | Until every worker has come to an end, some worker can go on. |
| PartitionRun.StepMakesProgress | src/partition/partition_set.hpp:126-227 | Every step leaves less to do, of a task or of the queue, so every run ends. |
| PartitionRun.FinishedIsPartitioned | src/partition/partition_set.hpp:126-227 | When every worker has come to an end, whatever the interleaving of all tasks and barriers, every partition's range holds its subsequence of the input, in input order. |
| PartitionRun.Execute | src/task/task_queue.hpp:113-127 | Under any schedule the run ends, and its result is partitioned. |
| SingleTable.ReadAfterWrite | lib/efficient_cuckoofilter/singletable.h:66-122 | Reading a tag after writing one returns the masked tag in its slot and the old tags in the others, for 4, 8, 12, 16 and 32 bits. |
| SingleTable.SearchLanes4 | lib/efficient_cuckoofilter/bitsutil.h:8-9 | The word trick for four bits finds a value if and only if one of the four lanes holds it. |
| SingleTable.SearchLanes8 | lib/efficient_cuckoofilter/bitsutil.h:11-12 | The same for eight bits. |
| SingleTable.SearchLanes12 | lib/efficient_cuckoofilter/bitsutil.h:14-15 | The same for twelve bits. |
| SingleTable.SearchLanes16 | lib/efficient_cuckoofilter/bitsutil.h:17-19 | The same for sixteen bits. |
| SingleTable.FoundInBucket | lib/efficient_cuckoofilter/singletable.h:151-177 | The word loaded at a bucket answers whether the bucket holds the tag, whatever the bytes beyond it. |
| SingleTable.SingleTable.FindTagInBuckets | lib/efficient_cuckoofilter/singletable.h:124-149 | True exactly when one of the two buckets holds the tag. |
| SingleTable.SingleTable.DeleteTagFromBucket | lib/efficient_cuckoofilter/singletable.h:179-188 | Clears the first slot that holds the tag, if any. |
| SingleTable.SingleTable.InsertTagToBucket | lib/efficient_cuckoofilter/singletable.h:190-204 | Fills the first empty slot; in a full bucket, when kicking out, replaces any slot and returns its tag. |
| CuckooFilter.AltInvolution | lib/efficient_cuckoofilter/cuckoofilter.h:73-79 | The two buckets of a tag lead to each other and are in the table. |
| CuckooFilter.AltIsXor | lib/efficient_cuckoofilter/cuckoofilter.h:73-79 | The exclusive or of the two buckets is the hashed tag modulo the number of buckets. |
| CuckooFilter.TagIsLowBits | lib/efficient_cuckoofilter/cuckoofilter.h:62-67 | A tag is the remainder of the hash by two to its width, or one when that is zero. |
| CuckooFilter.SameTagExactly | lib/efficient_cuckoofilter/cuckoofilter.h:62-67 | Two hashes have one tag if and only if their low bits are equal, or are zero and one. |
| CuckooFilter.RoomIsUsed | lib/efficient_cuckoofilter/cuckoofilter.h:138-163 | With an empty slot in the first bucket, or else in the second, the tag goes into the first such slot and nothing is kicked out. |
| CuckooFilter.VictimMeans | lib/efficient_cuckoofilter/cuckoofilter.h:138-163 | A victim is left only after 500 rounds, all of full buckets, each the alternate of the tag in hand. |
| CuckooFilter.CanonSame | lib/efficient_cuckoofilter/cuckoofilter.h:73-79 | Two places have the same entry exactly when they are the two buckets of one tag. |
| CuckooFilter.LookupIsExact | lib/efficient_cuckoofilter/cuckoofilter.h:166-185 | Looking in the two buckets finds an entry if and only if the table holds it. |
| CuckooFilter.EntriesCount | lib/efficient_cuckoofilter/cuckoofilter.h:116-116 | Every nonzero tag is one entry. |
| CuckooFilter.CuckooFilter.AddImpl | lib/efficient_cuckoofilter/cuckoofilter.h:139-162 | The rounds alternate between the two buckets of the tag in hand, the first empty slot ends them, and the victim slot is taken only after 500 rounds that all found their bucket full. The table and the victim slot together hold what they held and the new entry. |
| CuckooFilter.CuckooFilter.Add | lib/efficient_cuckoofilter/cuckoofilter.h:124-135 | Adds exactly the entry of the key by such rounds, or refuses without any change exactly when the victim slot is taken. |
| CuckooFilter.CuckooFilter.Contain | lib/efficient_cuckoofilter/cuckoofilter.h:166-185 | Reports a key exactly when a live key has its tag and its pair of buckets, the victim included. |
| CuckooFilter.CuckooFilter.Delete | lib/efficient_cuckoofilter/cuckoofilter.h:189-219 | Takes away exactly one entry of the key, exactly when there is one: the first match in the first bucket, else in the second, after either of which the victim is added again, else the victim itself. |
| CuckooFilter.CuckooFilter.Perform | lib/efficient_cuckoofilter/cuckoofilter.h:124-219 | Each operation of a run leaves the state that addition or deletion prescribes. Over any run the live keys are exactly those added and not deleted, and the filter holds exactly their entries; it stops only at an addition while the victim slot is taken. |
| CuckooFilter.CuckooFilter.PresentIsReported | lib/efficient_cuckoofilter/cuckoofilter.h:124-219 | Over runs from an empty filter that delete only keys that are present, every key added and not deleted is reported. |
| CuckooFilter.CuckooFilter.ReportedExactly | lib/efficient_cuckoofilter/cuckoofilter.h:124-219 | After such runs a key is reported if and only if a present key has the same low hash bits, up to zero and one, and one of its two buckets. |
| CuckooFilter.CuckooFilter.TryEliminateVictim | lib/efficient_cuckoofilter/cuckoofilter.h:211-217 | The victim is added again by the same rounds as a new tag, which changes no entry. |
| CuckooFilter.CuckooFilter.SizeCountsLive | lib/efficient_cuckoofilter/cuckoofilter.h:116-116 | The number of items is that of the live keys without the victim. |
| PermCode.GenTables | lib/efficient_cuckoofilter/permencoding.h:69-85 | The recursive generator numbers the ascending quadruples without gap or repetition. |
| PermCode.MakeTables | lib/efficient_cuckoofilter/permencoding.h:37-43 | The constructor fills both tables. |
| PermCode.TablesInverse | lib/efficient_cuckoofilter/permencoding.h:49-67 | The two tables are inverse to each other between the codes and the ascending quadruples. |
| PermCode.UnpackPack | lib/efficient_cuckoofilter/permencoding.h:22-34 | Unpacking undoes packing, although the middle nibbles change places. |
| PackedBucket.SortTagsSorts | lib/efficient_cuckoofilter/packedtable.h:101-113 | The five comparisons sort any four tags by their low nibbles and keep them as a multiset. |
| PackedBucket.UnpackedPacked | lib/efficient_cuckoofilter/packedtable.h:118-308 | Unpacking a packed bucket gives back its sorted tags, for any number of direct bits. |
| PackedTable.WindowFits | lib/efficient_cuckoofilter/packedtable.h:25-34 | The bytes loaded at a bucket contain it and stay in the allocated table, also when it starts in the middle of a byte. |
| PackedTable.WriteLaws | lib/efficient_cuckoofilter/packedtable.h:252-306 | A bucket stored through its window reads back, and no bucket that shares a byte with it changes. |
| PackedTable.PackedTable.ReadBucket | lib/efficient_cuckoofilter/packedtable.h:118-207 | Returns the four tags of the bucket. |
| PackedTable.PackedTable.WriteBucket | lib/efficient_cuckoofilter/packedtable.h:212-308 | The table is the old one with the bucket replaced by the tags, sorted unless the caller has sorted them. |
| PackedTable.PackedTable.FindTagInBucket | lib/efficient_cuckoofilter/packedtable.h:353-365 | True exactly when the bucket holds the tag. |
| PackedTable.PackedTable.FindTagInBuckets | lib/efficient_cuckoofilter/packedtable.h:310-351 | With nine direct bits, true exactly when one of the two buckets holds the tag. |
| PackedTable.NineSpacedExactly | lib/efficient_cuckoofilter/packedtable.h:310-351 | The shifts of this search read the tags of every bucket if and only if the tags have nine direct bits. |
| PackedTable.TagMissed | lib/efficient_cuckoofilter/packedtable.h:310-351 | For every other width, a table whose first bucket holds a tag that the search does not see. |
| PackedTable.PackedTable.DeleteTagFromBucket | lib/efficient_cuckoofilter/packedtable.h:367-381 | Clears one slot that holds the tag, if any, and sorts the bucket again. |
| PackedTable.PackedTable.InsertTagToBucket | lib/efficient_cuckoofilter/packedtable.h:383-427 | Fills an empty slot or, when kicking out, replaces a tag and returns it. |
| VacuumCode.FillTables | lib/vacuumfilter/vacuum.h:179-188 | The four nested loops number the descending quadruples without gap or repetition. |
| VacuumCode.TablesInverse | lib/vacuumfilter/vacuum.h:179-188 | The two tables are inverse to each other. |
| VacuumBucket.SortStoreSorts | lib/vacuumfilter/vacuum.h:279-291 | The five comparisons sort any four fingerprints in descending order and keep them as a multiset. |
| VacuumBucket.DecodeEncode | lib/vacuumfilter/vacuum.h:240-310 | Decoding an encoded bucket gives back its sorted fingerprints, for fingerprints of 5 to 16 bits. |
| BitFields.ReadFieldIsExtract | lib/vacuumfilter/vacuum.h:215-238 | Reading a field from one or two words is reading it from the number that the words stand for. |
| BitFields.WriteFieldIsDeposit | lib/vacuumfilter/vacuum.h:312-343 | Writing a field to one or two words replaces exactly that field of the number. |
| VacuumTable.BucketWritten | lib/vacuumfilter/vacuum.h:284-345 | A bucket written and read back is sorted and complete, and every other bucket is unchanged, also across words. |
| VacuumTable.PutEntries | lib/vacuumfilter/vacuum.h:284-345 | Writing one slot and sorting exchanges one entry and changes no other. |
| VacuumFilter.AlternateInvolution | lib/vacuumfilter/vacuum.h:472-477 | The alternate bucket is in the table and leads back. |
| VacuumFilter.AlternateIsXor | lib/vacuumfilter/vacuum.h:472-477 | The exclusive or of the two buckets is the hashed fingerprint under the mask that its two lowest bits choose. |
| VacuumFilter.SameFingerprintExactly | lib/vacuumfilter/vacuum.h:197-203 | Two hashes have one fingerprint if and only if they agree modulo one less than the number of fingerprints. |
| VacuumFilter.SmallSegments | lib/vacuumfilter/vacuum.h:142-151 | For small tables, a request of zero included, the segment lengths divide the size, so alternates stay in the table; the length is the least power of two that covers the request, from 256 buckets on a quarter of it, and the size is the fewest segments that cover the request. |
| VacuumFilter.ProperAltRange | lib/vacuumfilter/vacuum.h:97-111 | The doubling search ends at the first length that passes the load test or covers the table. |
| VacuumFilter.AltRangeIsLeast | lib/vacuumfilter/vacuum.h:97-111 | No smaller power of two from where the search starts passes the load test or covers the table. |
| VacuumFilter.LargeSegments | lib/vacuumfilter/vacuum.h:152-163 | A large table covers the request and is a multiple of the first segment length; when the load estimate is sensible, alternates stay in the table. |
| VacuumFilter.LargeSegmentsExactly | lib/vacuumfilter/vacuum.h:152-163 | For large tables and any four lengths the search can return, alternates stay in the table if and only if the other lengths divide the size, and 2048 does when the first length is at most 1024. |
| VacuumFilter.OrderedSegments | lib/vacuumfilter/vacuum.h:152-163 | Lengths of which the first is above 1024 and no other, the last doubled, is larger keep all alternates in the table. |
| VacuumFilter.SensibleIsOrdered | lib/vacuumfilter/vacuum.h:97-163 | The lengths that the search returns are in that order when the estimate is sensible. |
| VacuumFilter.ChooseSegments | lib/vacuumfilter/vacuum.h:142-163 | For every request the table covers it with less than one segment of the first length to spare, and all alternates stay in it. |
| VacuumFilter.PositionInRange | lib/vacuumfilter/vacuum.h:39-41 | The signed remainder put right is a bucket number. |
| VacuumFilter.VacuumFilter.constructor | lib/vacuumfilter/vacuum.h:139-189 | From the number of buckets asked for: an empty filter that covers the request, with the chosen segments, which alternates do not leave. |
| VacuumFilter.VacuumFilter.GetBucket | lib/vacuumfilter/vacuum.h:206-276 | The four fingerprints of the bucket and their number. |
| VacuumFilter.VacuumFilter.SetBucket | lib/vacuumfilter/vacuum.h:284-345 | The table with that bucket replaced by the sorted fingerprints. |
| VacuumFilter.VacuumFilter.Insert | lib/vacuumfilter/vacuum.h:480-560 | Room in either bucket means success. A successful insertion adds exactly the entry of the key, whatever is kicked out on the way; a failed one also loses exactly one entry, that of the fingerprint in hand after the last round. |
| VacuumFilter.FailsOnly | lib/vacuumfilter/vacuum.h:480-560 | An insertion fails only when both buckets are full and every round of the chain found its bucket full and nothing in it that could move ahead. |
| VacuumFilter.VacuumFilter.TryBoth | lib/vacuumfilter/vacuum.h:493-508 | The emptier of the two buckets takes the fingerprint, exactly when one of them has room. |
| VacuumFilter.VacuumFilter.Perform | lib/vacuumfilter/vacuum.h:435-560 | Each operation of a run leaves the table that insertion or deletion prescribes. Over any run of successful insertions and deletions the filter holds exactly the entries of the keys inserted and not deleted; the first failed insertion ends the run and loses exactly one. |
| VacuumFilter.VacuumFilter.PresentIsHeld | lib/vacuumfilter/vacuum.h:378-560 | Over runs from an empty filter in which insertions succeed and only keys that are present are deleted, the entry of every key inserted and not deleted is in the filter, so that it is found. |
| VacuumFilter.VacuumFilter.FoundExactly | lib/vacuumfilter/vacuum.h:378-560 | After such runs a key is found if and only if a present key has the same fingerprint class and one of its two buckets. |
| VacuumFilter.VacuumFilter.KickStep | lib/vacuumfilter/vacuum.h:528-557 | One round ends if and only if the bucket has room or a fingerprint in it can move ahead; otherwise one slot is swapped with the fingerprint in hand. Filter and hand together keep what they hold. |
| VacuumFilter.VacuumFilter.TryNeighbours | lib/vacuumfilter/vacuum.h:531-545 | Looking one step ahead succeeds if and only if the other bucket of one of the four fingerprints has room, and moves one of these; otherwise nothing changes. |
| VacuumFilter.VacuumFilter.Lookup | lib/vacuumfilter/vacuum.h:378-415 | A key is found if and only if an entry like its own is in the filter. |
| VacuumFilter.VacuumFilter.Del | lib/vacuumfilter/vacuum.h:418-452 | Deletes exactly one entry of the key, exactly when there is one, from the first bucket when that holds it. |
| FieldAccess.AlignedGatherIs | src/simd/helper.hpp:160-163 | The strategy for fields that never cross a word reads the field of the memory. |
| FieldAccess.ByteGatherIs | src/simd/helper.hpp:164-167 | The strategy that loads from the first byte reads the field of the memory. |
| FieldAccess.WordGatherIs | src/simd/helper.hpp:168-176 | The strategy that joins two words, with the shift done in two parts, reads the field of the memory. |
| FieldAccess.GathersAgree | src/simd/helper.hpp:152-177 | Wherever several strategies apply they read the same number. |
| FieldAccess.AlignedScatter | src/simd/helper.hpp:204-210 | Writes the masked value into exactly its field. |
| FieldAccess.ByteScatter | src/simd/helper.hpp:211-215 | Writes the masked value into exactly its field. |
| FieldAccess.WordScatter | src/simd/helper.hpp:216-231 | Writes the masked value into exactly its field, in one word or two. |
| FieldAccess.FieldsAfterWrite | src/simd/helper.hpp:194-232 | After a write the number reads back masked and every other number is unchanged. |
| Runs.LiveArePresent | lib/efficient_cuckoofilter/cuckoofilter.h:124-219 | In a run that deletes only keys that are present, the live entries are exactly those of the keys inserted and not deleted. |
| Runs.PresentDeletesLive | lib/efficient_cuckoofilter/cuckoofilter.h:124-219 | Such a run deletes only live entries. |

## Left out

- Morton filter: insertion methods other than first-fit, batched operations, the block-fullness array, null fingerprints, the Bloom form and the selective threshold of the overflow array, and printing. Remapping, collision resolution and overflow tracking are taken as switched on.
- Morton filter: the alternate bucket of Fan et al., and the counter and fingerprint read methods that do not cross words.
- MortonFilter.MortonFilter.Insert: the printed message of a failed insert is not part of this model.
- MortonFilter.MortonFilter.constructor: only tables at least one block larger than the largest offset, so that the two candidate buckets are in different blocks.
- BlockStore.PackedBlock.IncCross: not for a field of all ones, which the source leaves to its callers; `PackedStore.Increment` has room in its counter.
- Reductions.ExclusiveReduceWithParallelSum: the number of masked passes is a parameter, because the code computes it with a floating-point logarithm.
- Cuckoo filter: the sizing by load factor in the constructor; the number of buckets is a parameter that is a power of two.
- Cuckoo filter: two-bit tags, whose write only sets bits, and the semi-sorted table as the table of the filter object.
- PackedTable.PackedTable.FindTagInBuckets: only for nine direct bits; for other widths, where a code read from the middle of a byte may be none, `PackedTable.NineSpacedExactly` and `PackedTable.TagMissed` say what goes wrong.
- VacuumFilter.ChooseSegments: the number of buckets asked for and the floating-point load estimate are parameters, and for large tables the estimate is assumed to be `Sensible`.
- VacuumFilter.VacuumFilter.constructor: not for a request of zero buckets, of which every operation would take a remainder by zero.
- Bit-and with a complemented mask followed by bit-or is modelled as replacing the field, in the vacuum filter, the packed table and the field access.
- FieldAccess: vector lanes; one lane is modelled. Summing bits in registers and the bit extraction helpers are not part of this model.
- VacuumAddressing.VacuumAddresser.constructor: addresses of 32 bits only.
- MortonAddressing: the vector branches, which need a comparison operator that the vectors do not have.
- PartitionRun.StepKeepsInv: a step of a task counts one element, flushes one buffer or lays out everything; steps are sequentially consistent.
- libdivide: the assembly and native 128-bit variants, vector division, and the fatal error for a zero divisor.
- SequentialPartition.PartitionSet.Init: starts from zeroed histograms, as after construction, and needs a power of two of partitions, as the mask does.
- ParallelPartition.ParallelPartitionSet.Init: its levels follow one another in the method and a counting task runs as a whole; `PartitionRun` has the queue, its barriers and every interleaving, on values instead of arrays.
- Partitioning: offsets and counts are unbounded, so an overflow of the element type is not modelled; neither are alignment, non-temporal stores and freeing of buffers.
- TaskQueue: thread creation and processor affinity, and the memory order of the atomic counter; steps are sequentially consistent.
- The Bloom, xor and cuckoo containers of `src`, benchmarks, generators, plotting, memory allocation and false-positive formulas.
