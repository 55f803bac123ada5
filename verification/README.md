# A verified model of a Bitcoin node's data structures

This project models, in Dafny, the parts of a C++ Bitcoin node that carry real invariants, and
proves what they promise.  Code that updates state in place is modelled by classes and methods;
each method is tied to a function of the old state, and the properties are proved about those
functions for all inputs, all runs and all interleavings.

| files | subject |
|---|---|
| AddrManState, AddrManProofs, AddrManOps, AddrManRuns, AddrManEffects, AddrManCheck, AddrManCases, AddrManDisk, AddrManLoad, AddrMan, ServiceBits | the address manager: five redundant indexes, its own consistency check, its file format |
| MerkleTree, MerkleProofs, MerkleAccept, MerkleBlock | the partial Merkle tree (BIP 37, section "Partial Merkle branch format") |
| CoinsCache, CoinsOps, CoinsStack, CoinsRuns, CoinsView | the stack of write-back caches over the unspent outputs |
| VarInt, VarIntFormat, Compressor, ScriptCodec, CoinsCodec, CoinsDecode, CoinsFormat | the serialized form of unspent outputs |
| CheckQueueState, CheckQueueRuns, CheckQueue | the concurrent check queue as atomic steps |
| Limbs, ArithUint256, ArithMul, ArithShift, ArithDiv, Compact, CompactCodec, CompactCases, Pow, PowRules | 256-bit arithmetic, the compact encoding, retargeting |
| Radix, Base58, Base58Codec, Base58Order | Base 58 |
| BlockTree, Chain, HeaderTips, HeaderCases, HeaderDB | skip pointers, the indexed chain, header tips |
| BlockTemplate, MinerRounds, MinerStops, MinerFees, MinerCases, Miner | block assembly |
| Bloom | Bloom filters and the rolling filter |
| Bits | powers of two, bitwise operators, products and quotients |

`dafny verify dfyconfig.toml` checks the whole project.

Hashes are uninterpreted functions.  Where a property rests on a hash, the lemma concludes that it
holds or that two different inputs collide among those hashed there.  Random choices, the clock, the order in a heap and the order by
score are arguments or open choices, so the results hold for all of them.  The address hash, the
grouping of addresses, the key library, script validation and the signature-operation policy are
parameters.

## Findings

Where the code differs from its documentation or from the obvious expectation, the model follows
the code and the exact condition is proved.

- The bound of 2N - 1 flag bits in merkleblock.h is false for a matched right edge with an only
  child: `MerkleProofs.BitBoundFails`, `MerkleProofs.BitBoundIff`.
- The 32-bit width of a tree level is exact only up to 2^31 transactions: `MerkleTree.WidthExactIff`.
  At 2^31 the test on the number of hashes rejects every proof: `MerkleBlock.RejectedAtLimit`; below
  that a proof of more than 2^32 - 8 flag bits is rejected as well: `MerkleBlock.RoundTrip`.
- Add answers true for a new address even when the entry is discarded at once:
  `AddrManRuns.AddKeepsIff`, on a run in `AddrManCases.AddedAndGone`.
- Good with a time that is not positive, and Attempt with a negative one, break the node's own
  consistency check: `AddrManRuns.GoodConsistentIff`, `AddrManRuns.AttemptKeepsIndexes`, on runs in
  `AddrManCases.GoodAtZero`, `AddrManCases.AttemptBeforeZero`.
- ModifyNewCoins forgets to subtract the usage of an entry it overwrites, so the counter can be
  too large until the next flush, but never too small: `CoinsRuns.UsageExactIff`.  The run in
  `CoinsRuns.OverwriteCountsTwice` is legal for the class, but no caller makes it: coinbases go
  through ModifyCoins, and BIP 30 refuses any other unspent duplicate first.
- Flushing a cache with a null best block makes the cache below forget its own:
  `CoinsRuns.NullFlushForgets`.
- A negative version or height does not survive serialization: `CoinsDecode.RestoredIff`.  A
  transaction may have version -1, and its record comes back with version 127:
  `CoinsDecode.VersionLost`.
- Multiplying a number by itself in place gives zero, which is right only for multiples of 2^128:
  `ArithMul.MulAssign`, `ArithMul.SquareVanishesIff`.
- The assertion on pindex6 fails on chains of fewer than seven blocks whose last block is off the
  limit: `Pow.BetweenAdjustments`, `Pow.ShortChainAsserts`.  That takes a first block off the limit
  or an interval of fewer than seven blocks; no other chain the node grows gets there:
  `Pow.GrownNeverAsserts`.
- A header marked as failed can stay on, or even become, the main header chain:
  `HeaderTips.FailedStaysIff`, on runs in `HeaderCases.FailedStays` and
  `HeaderCases.FailedBecomesTip`; and pindexBestHeader is not updated in one case:
  `HeaderDB.DB.AppendHeader`.
- With priority space, block assembly can lose a transaction that was never refused, has its
  parents in the block and, if there is room left, still fits: the loop ends although the child of
  the last one added by score is back in the priority queue.  Under the node's policies this cannot
  happen up to a priority space of 1001001 bytes, and happens for every larger one, to a pool the
  node admits: `MinerCases.NothingLostIff`, `MinerCases.LeftOutThoughFitting`.  The default is 50000.
- The priority space is not the maximum its option calls it: the transaction that ends it is
  added without paying, however large.  There is never more than one such:
  `MinerFees.FreeOnes`, `MinerFees.FreeRide`.
- Two of the encodings listed in serialize.h, for 16511 and 65535, are those of other numbers:
  `VarIntFormat.WrongExamples`; the formula above them is right: `VarIntFormat.ReadIs`.

## Model

| member | source | states |
|---|---|---|
| AddrManRuns.EveryRunIsConsistent | src/addrman.cpp:274-391 | From the constructor, every sequence of Add, Good, Attempt, Connected and GetAddr with positive (Good) or non-negative (Attempt) times leaves the whole consistency condition of validateInteral true, together with the order of ids and the inverse address index. |
| AddrManRuns.GoodConsistentIff | src/addrman.cpp:274-323 | Good keeps a consistent manager consistent if and only if the address is unknown or the time is positive; a known entry ends up tried, with that time as last success and no attempts. |
| AddrManRuns.AttemptKeepsIndexes | src/addrman.cpp:393-412 | Attempt keeps every index, and keeps the time condition if and only if the entry is unknown or the time is not negative. |
| AddrManRuns.ConnectedKeepsIndexes | src/addrman.cpp:568-588 | Connected keeps every index and the time condition. |
| AddrManRuns.MarkTriedEffect | src/addrman.cpp:226-272 | What MarkTried does to both tables and both counters: the tried slot goes to the new entry; an occupant is moved to its own new slot, and whoever held that slot by its last reference is the only entry lost. |
| AddrManOps.MarkTriedOk | src/addrman.cpp:226-272 | The evict, clear, delete path of MarkTried restores every index and counter, and the time condition when the entry has succeeded. |
| AddrManOps.EvictedReadmits | src/addrman.cpp:245-266 | After leaving its new slots, an entry finds its tried slot's occupant known, in range and ready to go back: no assertion of the eviction path fires. |
| AddrManOps.ReadmitOk | src/addrman.cpp:250-265 | An evicted entry put back into the new table becomes counted and referenced again, with every other index kept, including when the slot had to be cleared first. |
| AddrManOps.ReadmitEffect | src/addrman.cpp:250-265 | Putting an evicted entry back changes one new slot, one reference count and the new counter, and removes exactly the displaced entry. |
| AddrManProofs.SwapRandomOk | src/addrman.cpp:177-195 | SwapRandom keeps all indexes, permutes the random order, and changes nothing of the entries but their positions. |
| AddrManProofs.DeleteOk | src/addrman.cpp:197-209 | Deleting an unreferenced entry removes it from all indexes and keeps the rest of the condition. |
| AddrManProofs.ClearNewOk | src/addrman.cpp:211-224 | ClearNew keeps every index, whether the slot is empty, its holder has other references, or the holder is deleted. |
| AddrManProofs.ClearNewEffect | src/addrman.cpp:211-224 | ClearNew empties one slot, lowers one reference count, and removes exactly the entry whose last reference it was; nothing else changes but random positions. |
| AddrManProofs.TakeSlotOk | src/addrman.cpp:379-384 | Taking a free new slot at a hashed place raises the reference count by one and keeps every index. |
| AddrManProofs.CreateOk | src/addrman.cpp:165-175 | A created entry is in all indexes and is the only one without a reference. |
| AddrManRuns.AddOk | src/addrman.cpp:325-391 | Add keeps every index and the time condition, on every path; what it does to a known address is in `AddrManEffects.AddKnownIff`, to a new one in `AddrManRuns.AddKeepsIff`. |
| AddrManRuns.AddKeepsIff | src/addrman.cpp:325-391 | For a new address, Add answers true but keeps the entry if and only if its slot was free or the holder yields; when it is kept, it holds that one slot with one reference, otherwise the tables and the ids are as before. |
| AddrManEffects.AddKnownIff | src/addrman.cpp:334-388 | A known address gains exactly the slot hashed for this source and one reference if and only if the report has a time newer than the refreshed one, the entry is not tried and has fewer than 8 references, the draw is divisible by 2^nRefCount, and that slot is not its own and is free or held by a terrible entry; otherwise tables, references and ids stay. |
| AddrManEffects.RefreshedMeans | src/addrman.cpp:334-343 | The time of a known entry never goes back and is afterwards at most an hour (when seen within the last day) or a day, and the penalty, behind the report; no service bit is lost or made up; nothing else changes. |
| AddrManEffects.AddNewEntry | src/addrman.cpp:363-367 | A new address that is kept has the time of the report less the penalty, its source, no attempts and no success. |
| AddrManEffects.GoodEffect | src/addrman.cpp:274-323 | Good gives a known entry this time as last try and last success and no attempts; it is tried afterwards, at its hashed slot, without references; for an unknown one nothing changes. |
| AddrManEffects.AttemptEffect | src/addrman.cpp:393-412 | Attempt counts one more attempt and remembers the time; nothing else changes, and nothing at all for an unknown address. |
| AddrManEffects.ConnectedEffect | src/addrman.cpp:568-588 | Connected never takes the time of an entry back, leaves it at most 20 minutes behind, and changes nothing else. |
| AddrManEffects.NotTerribleIff | src/addrman.cpp:101-123 | When an entry is kept: tried within the last minute, or seen in the last 30 days and not from the future, with a success or fewer than three attempts, and a success in the last week or fewer than ten failures. |
| AddrManEffects.TriedSpreadBound | src/addrman.h:166-167 | All addresses of one group share at most 8 tried buckets. |
| AddrManEffects.NewSpreadBound | src/addrman.h:169-170 | All addresses reported by one source group share at most 64 new buckets. |
| AddrManEffects.ShuffleReaches | src/addrman.cpp:551-560 | Each entry not yet placed can come next in the answer, for one draw exactly given. |
| AddrManRuns.PlaceOk | src/addrman.cpp:366-388 | Placing a reference, clearing the slot first if its holder yields, and deleting an entry left without any reference restore every index. |
| AddrManRuns.ShuffledOk | src/addrman.cpp:551-566 | Any number of steps of the shuffle keep every index, permute the random order and change no entry but its position. |
| AddrManRuns.GetAddrLimit | src/addrman.cpp:547-549 | The limit is the smaller of 23 percent of the entries and 2500. |
| AddrManCases.GoodAtZero | src/addrman.cpp:291-300 | From the constructor: an Add, consistent, then a Good with time 0, no longer consistent. |
| AddrManCases.AttemptBeforeZero | src/addrman.cpp:409-411 | From the constructor: an Add, consistent, then an Attempt with time -1, no longer consistent. |
| AddrManCases.AddedAndGone | src/addrman.cpp:366-388 | From the constructor: the second of two addresses with one slot is answered to be new and is not known afterwards. |
| AddrManCheck.CheckEntries | src/addrman.cpp:473-502 | The first loop returns 0 exactly when every entry passes its checks, and collects the tried ids and the reference counts. |
| AddrManCheck.CheckTried | src/addrman.cpp:504-516 | The second loop returns 0 exactly when the tried table and the tried ids match, each id at its hashed place once. |
| AddrManCheck.CheckNew | src/addrman.cpp:518-536 | The third loop returns 0 exactly when the new table holds only new entries at their hashed places and each as often as counted. |
| AddrManCheck.ValidateInternal | src/addrman.cpp:464-540 | The answer 0 means exactly that all the conditions hold. |
| AddrManCheck.CheckedIffConsistent | src/addrman.cpp:464-540 | On a manager whose address index is right, the condition checked and the declared invariant are the same, both ways. |
| AddrManager.AddrMan.constructor | src/addrman.cpp:610-613 | A new manager is empty and consistent. |
| AddrManager.AddrMan.SwapRandom | src/addrman.cpp:177-195 | In place, what the function on states does. |
| AddrManager.AddrMan.Delete | src/addrman.cpp:197-209 | In place, what the function on states does. |
| AddrManager.AddrMan.ClearNew | src/addrman.cpp:211-224 | In place, what the function on states does, and the invariant is kept. |
| AddrManager.AddrMan.MarkTried | src/addrman.cpp:226-272 | The bucket loop, the eviction and the new place, in place; the invariant holds again. |
| AddrManager.AddrMan.Find | src/addrman.cpp:152-163 | The id of the entry with that address, or -1 when and only when there is none; no other entry has it. |
| AddrManager.AddrMan.FindNewBucket | src/addrman.cpp:302-312 | The probing loop finds a bucket that holds the entry, from any random start, unless it has no reference. |
| AddrManager.AddrMan.Good | src/addrman.cpp:274-323 | In place, Good as a function of the state; the indexes hold afterwards. |
| AddrManager.AddrMan.Attempt | src/addrman.cpp:393-412 | In place, Attempt as a function of the state; the indexes hold afterwards. |
| AddrManager.AddrMan.Connected | src/addrman.cpp:568-588 | In place, Connected as a function of the state; the indexes hold afterwards. |
| AddrManager.AddrMan.Create | src/addrman.cpp:165-175 | In place, the entry is in all three indexes under the next id. |
| AddrManager.AddrMan.PlaceNew | src/addrman.cpp:366-388 | In place, the slot step of Add; the indexes hold afterwards. |
| AddrManager.AddrMan.Add | src/addrman.cpp:325-391 | In place, Add as a function of the state, with its answer, for which `AddrManEffects.AddKnownIff` and `AddrManRuns.AddKeepsIff` say what is gained; the indexes hold afterwards. |
| AddrManager.AddrMan.GetAddr | src/addrman.cpp:542-566 | At most 23 percent and at most 2500 addresses, all of entries that are not terrible, no address twice, and all of them when fewer than the limit; only random positions change. |
| AddrManager.AddrMan.ValidateInternal | src/addrman.cpp:464-540 | Returns 0 exactly when the invariant holds with the time condition. |
| AddrManDisk.RankOfPlace | src/addrman.h:296-318 | Numbering the new entries, then the tried ones, by increasing id is a bijection onto the positions. |
| AddrManDisk.RenumberedConsistent | src/addrman.h:333-426 | The state with all ids renamed by their position on disk is consistent. |
| AddrManDisk.RenumberedSame | src/addrman.h:333-426 | The renaming keeps key, addresses, counters, all an entry says but its last try and its random position, and for each slot of both tables the address it holds. |
| AddrManDisk.FlipTwice | src/addrman.h:294-295 | Marking the bucket count with bit 30 is undone by doing it again. |
| AddrManLoad.StreamBucket | src/addrman.h:319-330 | Where each bucket's count and indexes are in the stream. |
| AddrManLoad.ReadStep | src/addrman.h:352-391 | Reading one more entry extends the entries, the address index, the random order and, for a tried one, a free tried slot: nothing collides. |
| AddrManLoad.IndexRead | src/addrman.h:393-411 | Each index read names an entry read before, with room for a reference, whose hashed slot in that bucket is free. |
| AddrManLoad.NothingLost | src/addrman.h:413-425 | After all buckets, the tables are the renamed ones and no entry is left without a reference to be pruned. |
| AddrManager.AddrMan.Serialize | src/addrman.h:283-331 | Writes exactly the stream of header, entries in order of kind, and buckets with renamed indexes. |
| AddrManager.AddrMan.Unserialize | src/addrman.h:333-426 | On a fresh manager, a stream saved from a consistent one is read completely and gives its renamed state, which is consistent; the key is the saved one. |
| MerkleProofs.ExtractIsSound | src/merkleblock.cpp:96-177 | For arbitrary bits and hashes: when the root extracted is the block's and not null, the matches are txids of the block in block order, or two different pairs collide among those hashed for the block's tree and on the way through the streams. |
| MerkleAccept.AcceptedHasNoTwins | src/merkleblock.cpp:119-124 | For arbitrary streams and counts: when a root comes out, two equal hashes were paired only at nodes whose right child lies beyond the width. |
| MerkleAccept.PowerHasNoTwins | src/merkleblock.cpp:119-124 | With a power of two of transactions claimed, no two equal hashes were paired at all: a shorter block does not pass for a longer one by repeating its last part. |
| MerkleAccept.TwinsRejected | src/merkleblock.cpp:119-124 | Two transactions with one id, all flags set: null root, error. |
| MerkleAccept.AcceptedIsTight | src/merkleblock.cpp:148-177 | What is accepted had no error before, claims a transaction, and is not accepted with a hash or a byte of flags appended. |
| MerkleAccept.RootIsLastLevel | src/merkleblock.cpp:61-76 | The root is what is left when the list of ids is hashed level by level, neighbours together, a last one without a neighbour with itself. |
| MerkleBlock.RoundTrip | src/merkleblock.cpp:132-177 | For distinct txids, any mask and no collision among the pairs of the block's tree: packing, unpacking and extracting what was built gives the root, exactly the matched txids in order, and no error, if there are fewer than 2^31 transactions and at most 2^32 - 8 flag bits; otherwise the null root. |
| MerkleBlock.RoundTripBelow | src/merkleblock.cpp:132-177 | Up to 2^31 - 19 transactions the round trip always succeeds. |
| MerkleBlock.RejectedAtLimit | src/merkleblock.cpp:154 | At 2^31 transactions every proof with a hash is rejected. |
| MerkleProofs.SubtreeNodes | src/merkleblock.cpp:78-94 | A subtree of height h takes fewer than 2^(h+1) bits, so the 32-bit counter of bits does not wrap on what was built. |
| MerkleProofs.SubtreeComplete | src/merkleblock.cpp:78-130 | Extracting the part built for a node consumes exactly its bits and hashes and yields the node's hash and its matched leaves. |
| MerkleProofs.SameHashSameNode | src/merkleblock.cpp:120-124 | Without a collision among the pairs hashed for them, two nodes of a level never have the same hash, so the left-equals-right test never rejects an honest tree. |
| MerkleProofs.SizeBounds | src/merkleblock.h:35-48 | At most one hash per transaction, at most 1 + matches * height, and at most 2 * hashes - 1 + height bits. |
| MerkleProofs.BitBoundIff | src/merkleblock.h:47 | The documented bound of 2N - 1 bits holds if and only if no matched right edge of the tree is an only child. |
| MerkleProofs.BitBoundFails | src/merkleblock.h:47 | Three leaves with the last one matched: the documented bound fails. |
| MerkleProofs.SubtreeBits | src/merkleblock.cpp:78-94 | The bits of a subtree are twice its hashes less one, plus one for every inner node with a single child. |
| MerkleProofs.SubtreeHashes | src/merkleblock.cpp:78-94 | The hashes of a subtree are bounded by its matches and its height. |
| MerkleTree.WidthExactIff | src/merkleblock.h:66-68 | The 32-bit width computation is exact on all levels if and only if there are at most 2^31 transactions. |
| MerkleTree.Height | src/merkleblock.cpp:139-142 | The height loop ends at the first level of at most one node, within 31 steps. |
| MerkleTree.RootExists | src/merkleblock.cpp:139-142 | The top level has exactly one node. |
| MerkleBlock.UnpackPack | src/merkleblock.h:88-107 | Unpacking packed bits gives them back with fewer than 8 zero bits added. |
| MerkleBlock.PackedBit | src/merkleblock.h:97-102 | Bit i of a packed byte is the i-th flag, the lowest first. |
| MerkleBlock.PackBits | src/merkleblock.h:93-99 | The packing loop yields the packed bytes. |
| MerkleBlock.UnpackBits | src/merkleblock.h:100-106 | The unpacking loop yields the bits of the bytes. |
| MerkleBlock.PartialMerkleTree.NodeHash | src/merkleblock.cpp:61-76 | The hash of the node, with the last one of an odd level paired with itself. |
| MerkleBlock.PartialMerkleTree.HasMatch | src/merkleblock.cpp:80-82 | The loop answers whether any leaf under the node is matched. |
| MerkleBlock.PartialMerkleTree.TraverseAndBuild | src/merkleblock.cpp:78-94 | Appends exactly the bits and hashes of the subtree to the two streams. |
| MerkleBlock.PartialMerkleTree.FromTxids | src/merkleblock.cpp:132-144 | The streams of the whole tree, no error flag. |
| MerkleBlock.PartialMerkleTree.TraverseAndExtract | src/merkleblock.cpp:96-130 | Hash, positions, matches and error flag as the recursive definition gives them, for arbitrary streams; that equal siblings are refused is `MerkleAccept.AcceptedHasNoTwins`. |
| MerkleBlock.PartialMerkleTree.ExtractMatches | src/merkleblock.cpp:148-177 | Root, matches and error flag as the definition gives them, with every reason to reject, the product and the counters taken on 32 bits; what an answer other than null rules out is in `MerkleAccept.AcceptedHasNoTwins` and `MerkleAccept.AcceptedIsTight`. |
| CoinsCache.CleanupKeeps | src/coins.h:114-119 | Cleaning up keeps whether anything is unspent; afterwards nothing is unspent exactly when the list is empty. |
| CoinsCache.MergeOk | src/coins.cpp:158-199 | Writing a child's entry into a cache changes what the cache shows as laying the entry over it does, and keeps the flags truthful. |
| CoinsCache.OverlayErase | src/coins.cpp:209-216 | Dropping an entry that is not dirty, or a fresh one that is spent, shows nothing new. |
| CoinsCache.FreshMustBeAbsent | src/coins.h:412-420 | Writing down a spent fresh entry removes the record if and only if the base did not have it, which is what the precondition of ModifyNewCoins is for. |
| CoinsOps.FetchKeeps | src/coins.cpp:68-84 | Filling the cache from the base keeps the flags truthful and shows nothing new. |
| CoinsOps.ModifySame | src/coins.cpp:95-114 | Marking a record dirty, after filling it in, shows nothing new. |
| CoinsOps.ReleaseKeeps | src/coins.cpp:279-291 | The end of a modifier keeps the flags truthful and shows the record cleaned up, also when the entry is erased. |
| CoinsOps.ReleaseCounted | src/coins.cpp:279-291 | The usage counter is right after a modifier ends, erased or not. |
| CoinsOps.MergeCounted | src/coins.cpp:158-199 | The usage counter is right after an entry is written down, on every branch. |
| CoinsOps.SpendsOnlyThat | src/coins.cpp:33-40 | Without output nPos a record has every other output unspent exactly if it was, with its value and script, and the same coinbase flag, height and version; it is fully spent if and only if no other output was unspent. |
| CoinsCache.MergeAllShows | src/coins.cpp:158-199 | Writing all entries of a child, in any order, shows them laid over what was shown. |
| CoinsStacks.GetCoinsAnswer | src/coins.cpp:68-93 | What a read through any number of levels finds is what the view has, or is spent. |
| CoinsStacks.GetCoinsKeeps | src/coins.cpp:68-84 | Reading, which fills in every level on the way, changes no view, no best block and no counter's excess of any level, and keeps the stack right. |
| CoinsStacks.GetBestBlockKeeps | src/coins.cpp:148-152 | Remembering the best block on every level changes none and no view. |
| CoinsRuns.FlushKeeps | src/coins.cpp:202-207 | A flush changes the view of the level below to this one's and no other, and makes this level's counter exact without touching the others. |
| CoinsRuns.CallAtKeeps | src/coins.cpp:68-216 | Reading, flushing or trimming a level in the middle shows nothing new above it. |
| CoinsRuns.StepRefines | src/coins.cpp:68-291 | Each legal call on a stack keeps it right, and every level then shows what the same call makes of a stack of plain maps. |
| CoinsRuns.RunRefines | src/coins.cpp:68-291 | In every run of calls over a database, on any number of levels, each level shows what the same calls make of plain maps. |
| CoinsRuns.UsageExactIff | src/coins.cpp:68-291 | In every run, the counter of a level between modifications is the memory of its entries if and only if no ModifyNewCoins since its last flush met a cached entry that held memory; otherwise it is greater. |
| CoinsRuns.OverwriteCountsTwice | src/coins.cpp:116-123 | A legal run of the class, which no caller makes: a record made anew twice while cached, after which the counter is twice the memory of the entries. |
| CoinsRuns.NullFlushForgets | src/coins.cpp:199-207 | A run on which flushing a cache without a best block makes the one below show the database's instead of its own. |
| CoinsViews.CoinsViewDB.BatchWrite | src/txdb.cpp:37-58 | The database afterwards is the entries laid over it; a null best block is not written. |
| CoinsViews.CoinsViewCache.OverDatabase | src/coins.cpp:57 | A new cache shows its database. |
| CoinsViews.CoinsViewCache.OverCache | src/coins.cpp:57 | A new cache shows the cache below it. |
| CoinsViews.CoinsViewCache.FetchCoins | src/coins.cpp:68-84 | Found exactly when cached afterwards; at most this entry is added, FRESH exactly when spent; all levels become what reading makes of them, and no view and no counter's excess of any level changes. |
| CoinsViews.CoinsViewCache.GetCoins | src/coins.cpp:86-93 | The record the cache shows; anything else found is spent; no view and no counter's excess of any level changes. |
| CoinsViews.CoinsViewCache.HaveCoins | src/coins.cpp:134-141 | The quick test for an empty list is right, except for a record under modification, where it never misses one; no view of any level changes. |
| CoinsViews.CoinsViewCache.GetBestBlock | src/coins.cpp:148-152 | The best block shown, remembered. |
| CoinsViews.CoinsViewCache.ModifyCoins | src/coins.cpp:95-114 | The record as shown, or a spent one, dirty and under modification; nothing shown changes. |
| CoinsViews.CoinsViewCache.ModifyNewCoins | src/coins.cpp:116-123 | An emptied record, fresh and dirty, when the base has none, with nothing for its modifier to subtract; nothing else changes on any level. |
| CoinsViews.CoinsViewCache.Assign | src/coins.h:356-357 | Writing through the modifier shows the new record. |
| CoinsViews.CoinsViewCache.Release | src/coins.cpp:279-291 | The record is shown cleaned up, a fresh spent one is erased, and the counter's subtraction does not underflow. |
| CoinsViews.CoinsViewCache.Spend | src/coins.cpp:33-40 | Succeeds exactly for an unspent output shown; that output is spent, every other one and the rest of the record are as before, the record stays shown if and only if another output was unspent, and no other record changes; failing changes nothing shown. |
| CoinsViews.CoinsViewCache.BatchWrite | src/coins.cpp:158-200 | The cache shows the entries laid over what it showed; the best block is the one given, even a null one. |
| CoinsViews.CoinsViewCache.Flush | src/coins.cpp:202-207 | Nothing shown changes, the base shows the same, the cache and its counter are empty; with a null hash a cache below forgets its own best block, the database does not. |
| CoinsViews.CoinsViewCache.Uncache | src/coins.cpp:209-216 | Exactly an entry with no flags is dropped, and nothing shown changes. |
| CoinsViews.CoinsViewCache.BelowChanged | src/coins.cpp:202-216 | Whatever a cache below does without changing what it shows is invisible in the cache above. |
| CoinsViews.CoinsViewCache.StackedOk | src/coins.cpp:57-291 | The objects from a cache down stand for a stack that is right and shows what they show, so the results about runs hold of them. |
| CoinsViews.CoinsViewCache.UsageCovers | src/coins.cpp:160-216 | Between modifications the counter is at least the memory of all entries, so no subtraction of one of them underflows. |
| VarInt.ReadWritten | src/serialize.h:343-371 | Reading what was written gives the number back and uses exactly its bytes, whatever follows. |
| VarInt.OneEncoding | src/serialize.h:306-328 | Whatever byte string is read as a number is the encoding of that number. |
| VarInt.SignedIff | src/serialize.h:343-371 | A signed integer comes back if and only if it is not negative. |
| VarInt.WriteVarInt | src/serialize.h:343-358 | The loop over the temporary buffer writes the encoding. |
| VarInt.GetSizeOfVarInt | src/serialize.h:330-341 | The length of the encoding. |
| VarInt.Read | src/serialize.h:360-371 | The reading loop gives the number and the position, or fails exactly on a stream that ends too soon. |
| VarInt.WrappedIs | src/serialize.h:360-371 | In an unsigned type the number read is the same one modulo the number of its values, from the same bytes: too long an input is not refused. |
| VarIntFormat.ReadIs | src/serialize.h:310-313 | Reading stops at the first byte without bit 128, and the number is the documented sum. |
| VarIntFormat.ReadFailsIff | src/serialize.h:360-371 | Reading fails exactly on a stream without such a byte. |
| VarIntFormat.SizeClasses | src/serialize.h:316 | One byte up to 127, two up to 16511, three up to 2113663, and exactly those. |
| VarIntFormat.Examples | src/serialize.h:322-327 | Nine of the documented encodings. |
| VarIntFormat.WrongExamples | src/serialize.h:322-327 | The encodings of 16511 and 65535, and the numbers the documented bytes stand for. |
| Compressor.DecompressCompress | src/compressor.cpp:142-185 | Every amount comes back from its compressed form. |
| Compressor.CompressDecompress | src/compressor.cpp:142-185 | Every number is the compressed form of what it decompresses to. |
| Compressor.NoOverflow | src/compressor.cpp:142-159 | In the range of money the compressed form fits 64 bits. |
| CoinsFormat.Amounts | src/test/compress_tests.cpp:39-46 | The documented compressed amounts. |
| Compressor.CompressAmount | src/compressor.cpp:142-159 | The loop computes the compressed form modulo 2^64, and the digit is never 0. |
| Compressor.DecompressAmount | src/compressor.cpp:161-185 | The loop computes the amount modulo 2^64. |
| ScriptCodec.DecompressCompress | src/compressor.cpp:48-140 | Each of the six special forms gives the script back. |
| CoinsFormat.SpecialForms | src/compressor.cpp:48-83 | Which scripts have a special form, of 21 or 33 bytes, and by which tag; for keys the form is the compressed key, with 2 added to the tag of a long one. |
| ScriptCodec.ScriptRoundTrip | src/compressor.h:66-93 | Every script comes back from its bytes, using exactly those. |
| ScriptCodec.OutRoundTrip | src/compressor.h:108-120 | Every output in the range of money comes back from its bytes, using exactly those. |
| CoinsCodec.CalcMaskSize | src/coins.cpp:15-31 | The mask runs to the last byte that is not zero, and those that are not zero are counted. |
| CoinsCodec.MaskTest | src/coins.h:194-200 | Each bit of a mask byte says whether its output is unspent. |
| CoinsCodec.BeyondMask | src/coins.cpp:15-31 | Outputs beyond the mask are spent. |
| CoinsCodec.SomeUsed | src/coins.h:184 | A record that is not fully spent satisfies the assertion of Serialize. |
| CoinsCodec.Serialize | src/coins.h:179-206 | Writes version, code, mask, outputs and height in this order. |
| CoinsCodec.GetSerializeSize | src/coins.h:156-176 | The length of the bytes, without writing them. |
| CoinsDecode.HeaderFields | src/coins.h:216-220 | The header code gives back the coinbase flag, the first two outputs and the count of mask bytes. |
| CoinsDecode.ReadMask | src/coins.h:221-231 | Reading stops exactly at the end of the mask, because its last byte is not zero. |
| CoinsDecode.ReadOuts | src/coins.h:232-237 | The outputs come back in their places, spent ones null. |
| CoinsDecode.Unserialize | src/coins.h:208-241 | Whatever was serialized comes back cleaned up, from exactly its bytes. |
| CoinsFormat.FirstRecord | src/coins.h:40-53 | The first documented record and its bytes. |
| CoinsFormat.SecondRecord | src/coins.h:55-72 | The second documented record, a coinbase with a mask, and its bytes. |
| CoinsDecode.RestoredIff | src/coins.h:208-241 | What comes back is the cleaned-up record if and only if neither version nor height is negative. |
| CoinsDecode.VersionLost | src/coins.h:188 | The record of a transaction of version -1 is written and comes back with version 127. |
| CheckQueueRuns.StepKeeps | src/checkqueue.h:69-161 | Every step of every thread keeps the invariant: the three counters, every check in one place, the meaning of fAllOk and of each thread's fOk, the waiting master, the answers given. |
| CheckQueueRuns.EveryWaitIsRight | src/checkqueue.h:69-161 | In every interleaving of a master and any number of workers, each Wait has answered true exactly when all checks added since the one before are true, no check is lost or held twice, and the counters are exact. |
| CheckQueueRuns.WaitReturns | src/checkqueue.h:90-100 | A call of Wait answers for exactly the checks added since the last, with nothing queued and no batch held. |
| CheckQueueRuns.IsIdleIff | src/checkqueue.h:164-168 | IsIdle holds if and only if nothing is queued, no thread holds a batch and all added checks are true. |
| CheckQueueRuns.IdleBetweenUses | src/checkqueue.h:184-191 | With nothing added since the last Wait the queue is idle: the controller's assertion holds. |
| CheckQueueRuns.NeverStuck | src/checkqueue.h:85-102 | While the master is in Wait some useful step is possible, and if it waits without a notification pending, some thread has a batch to run or to end. |
| CheckQueueRuns.StepProgress | src/checkqueue.h:69-127 | Every useful step during a Wait lowers a measure or ends the Wait; a spurious wake-up changes nothing. |
| CheckQueueRuns.WaitEnds | src/checkqueue.h:69-127 | A Wait returns after a bounded number of useful steps. |
| CheckQueueRuns.TakenSplits | src/checkqueue.h:108-117 | What is moved to the batch leaves the queue, and nothing else does. |
| CheckQueueRuns.BatchBounds | src/checkqueue.h:105-110 | A thread takes at least one check, otherwise no more than the batch size and than an even share among all threads and once more the idle ones, and as many as that allows. |
| CheckQueues.CheckQueue.Add | src/checkqueue.h:146-158 | In place, the step of adding. |
| CheckQueues.CheckQueue.Enter | src/checkqueue.h:77-120 | In place, entering Loop up to the release of the mutex, with the value returned. |
| CheckQueues.CheckQueue.Wake | src/checkqueue.h:89-120 | In place, the critical section after waking up. |
| CheckQueues.CheckQueue.EndBatch | src/checkqueue.h:79-120 | In place, the critical section after a batch. |
| CheckQueues.CheckQueue.RunCheck | src/checkqueue.h:121-125 | One check run, or skipped once a failure is known. |
| CheckQueues.CheckQueue.IsIdle | src/checkqueue.h:164-168 | What the test means for the work left. |
| ArithUint256.AddAssign | src/arith_uint256.h:135-145 | The sum modulo 2^256, also of a number with itself. |
| ArithUint256.Increment | src/arith_uint256.h:173-180 | One more, modulo 2^256. |
| ArithUint256.Decrement | src/arith_uint256.h:190-197 | One less, modulo 2^256. |
| ArithUint256.Invert | src/arith_uint256.h:69-75 | 2^256 - 1 less the number. |
| ArithUint256.Negate | src/arith_uint256.h:77-84 | The negative, modulo 2^256. |
| ArithUint256.SubAssign | src/arith_uint256.h:147-151 | The difference modulo 2^256, also of a number with itself. |
| ArithMul.MulAssign32 | src/arith_uint256.cpp:55-65 | The product modulo 2^256; the 64-bit carry never overflows. |
| ArithMul.MulAssign | src/arith_uint256.cpp:67-81 | The product modulo 2^256 of two different objects; multiplied by itself, a number becomes zero. |
| ArithMul.SquareVanishesIff | src/arith_uint256.cpp:67-81 | That zero is the product if and only if the number is a multiple of 2^128. |
| ArithShift.ShiftLeft | src/arith_uint256.cpp:21-36 | The product with a power of two, modulo 2^256, for every shift. |
| ArithShift.ShiftRight | src/arith_uint256.cpp:38-53 | The quotient by a power of two, for every shift. |
| ArithShift.CompareTo | src/arith_uint256.cpp:109-119 | The order of the numbers. |
| ArithShift.EqualTo | src/arith_uint256.cpp:121-133 | Equality with a 64-bit number. |
| ArithShift.GetLow64 | src/arith_uint256.h:245-249 | The number modulo 2^64. |
| ArithShift.NumBits | src/arith_uint256.cpp:171-184 | The position of the highest bit plus one, or 0. |
| ArithShift.BitLenUnique | src/arith_uint256.cpp:171-184 | That position is the only one with the number between the two powers of two. |
| ArithDiv.DivAssign | src/arith_uint256.cpp:83-107 | The quotient for every divisor but zero, which is reported and leaves zero; the shifted divisor is exact as long as it is used. |
| ArithDiv.DivideStep | src/arith_uint256.cpp:97-104 | One round keeps quotient times divisor plus rest, and halves the bound of the rest. |
| CompactCodec.SetCompact | src/arith_uint256.cpp:204-222 | The number decoded modulo 2^256; the overflow flag exactly when it needs more; the sign flag exactly for a number other than zero. |
| CompactCodec.OverflowIff | src/arith_uint256.cpp:218-220 | The three comparisons hold if and only if the number decoded is at least 2^256. |
| CompactCodec.GetCompact | src/arith_uint256.cpp:224-245 | The encoding of the number; both assertions hold. |
| Compact.EncodeDecode | src/arith_uint256.cpp:204-245 | Encoding what an encoded number stands for gives it again; decoding it never exceeds the number and flags neither overflow nor a wrong sign. |
| Compact.CanonicalIff | src/arith_uint256.cpp:204-245 | Decoding and encoding is the identity exactly on the compact numbers whose mantissa starts with a full byte and holds no bits below the units. |
| Compact.RoundedIs | src/arith_uint256.cpp:224-245 | Encoding rounds down to a multiple of the step, which is at most a 32768th of the number. |
| Compact.RoundedMonotone | src/arith_uint256.cpp:224-245 | Encoding and decoding is monotone. |
| Compact.DecodedKept | src/arith_uint256.cpp:204-245 | What any compact number stands for is not changed by rounding. |
| CompactCases.DecodedValues | src/test/arith_uint256_tests.cpp:412-536 | The documented values of compact numbers. |
| CompactCases.EncodedValues | src/arith_uint256.h:261-273 | The documented compact forms of numbers, positive and negative. |
| Pow.GetBlockProof | src/pow.cpp:136-149 | Exactly 2^256 / (target + 1), rounded down, for every accepted nBits, and 0 for the others. |
| Pow.TargetPlusOne | src/pow.cpp:148 | No target decoded is 2^256 - 1: adding one does not wrap. |
| Pow.ProofFormula | src/pow.cpp:144-148 | The detour by the complement gives the quotient. |
| Pow.CheckProofOfWork | src/pow.cpp:117-134 | True exactly for an accepted target within the limit that the hash does not exceed. |
| Pow.CalculateNextWorkRequired | src/pow.cpp:83-115 | The encoding of the clamped, scaled and limited target, with the timespan cut to 32 bits and the product to 256; `PowRules.RetargetInBounds`, `PowRules.RetargetMonotone` and `PowRules.RetargetDirection` say which way it goes. |
| PowRules.RetargetInBounds | src/pow.cpp:89-115 | With a limit below 2^224 and four timespans in 32 bits: the next target is the rounding of the old one times the time taken over the timespan, of the old one at a quarter of the timespan if it took less, or of four times the old one if it took more, or of the limit; within the limit and within four times the old one. |
| PowRules.RetargetMonotone | src/pow.cpp:89-115 | An interval that took longer never gets a smaller target. |
| PowRules.RetargetDirection | src/pow.cpp:89-115 | An interval exactly on time keeps its target, a faster one never eases it, a slower one never makes it harder. |
| PowRules.AtAdjustment | src/pow.cpp:24-33 | At an adjustment the time taken is that from the block that opened the interval to the last one. |
| Pow.LastRealIs | src/pow.cpp:42-46 | The walk back stops at the last block that is not a minimum-difficulty one, opens an interval or is the first. |
| Pow.GetNextWorkRequired | src/pow.cpp:15-81 | The next nBits on every branch, with the assertion on pindex6 as an outcome; `PowRules.AtAdjustment`, `PowRules.EasedIff` and `PowRules.LateBlocksLeaveNoTrace` say what the branches amount to. |
| Pow.EasedWithinQuarter | src/pow.cpp:70-80 | The 12-hour rule never lowers the target, raises it by at most a quarter, and stays within the limit. |
| Pow.BetweenAdjustments | src/pow.cpp:50-80 | Between adjustments the target stays or is eased by at most a quarter; the assertion on pindex6 fails if and only if the chain has fewer than seven blocks, the rule is active and the last block is not at the limit. |
| PowRules.EasedIff | src/pow.cpp:50-80 | Between adjustments the target grows if and only if the rule is active, the six blocks before took 12 hours or more by median time, the target is at least 4 and below the rounded limit; it grows to the rounding of a quarter more, within the limit, and otherwise stays. |
| PowRules.LateBlocksLeaveNoTrace | src/pow.cpp:35-48 | On every chain grown under the test-network rule, between adjustments, a block more than two spacings late is at the limit and every other one is as hard as the block that opened its interval. |
| Pow.ShortChainAsserts | src/pow.cpp:63-64 | With the main network's limit and timespan, the assertion fails on a chain whose only block has target 1, which is off the limit. |
| Pow.GrownNeverAsserts | src/pow.cpp:15-81 | On every chain that starts at the limit and has the nBits required of each block, with the rule active or not at any of them, the assertion never fails, when an interval has at least seven blocks. |
| Base58.DecodeEncode | src/base58.cpp:21-100 | Decoding the encoding of any bytes gives the bytes. |
| Base58.EncodeDecode | src/base58.cpp:21-100 | Encoding what a valid string decodes to gives the string without the spaces around it. |
| Base58.EncodeSize | src/base58.cpp:75 | n * 138 / 100 + 1 digits in base 58 hold every number of n bytes. |
| Base58.DecodeSize | src/base58.cpp:33 | n * 733 / 1000 + 1 bytes hold every number of n digits in base 58. |
| Base58.AlphabetIff | src/base58.cpp:18-19 | The alphabet is all letters and digits but 0, I, O and l. |
| Base58Order.AlphabetIncreasing | src/base58.cpp:19 | The alphabet is strictly increasing; with the set of its characters this determines the table. |
| Base58Order.OrderIff | src/base58.cpp:21-65 | Texts of one length are in dictionary order exactly as their numbers. |
| Base58Order.EncodedOrderIff | src/base58.cpp:67-100 | Encodings of one length are in dictionary order exactly as the bytes read as big-endian numbers. |
| Base58Order.Examples | src/test/data/base58_encode_decode.json:3-13 | Documented encodings: 61 is 2g, 626262 is a3gV, ten zero bytes are ten ones. |
| Base58Codec.Apply | src/base58.cpp:40-48 | One pass over the buffer multiplies and adds; what is carried out is exactly what does not fit. |
| Base58Codec.Convert | src/base58.cpp:76-87 | All digits go into the buffer with nothing carried out: the assertion on the carry holds. |
| Base58Codec.EncodeBase58 | src/base58.cpp:67-100 | The in-place conversion yields the text defined by the number and the leading zeros, in the alphabet that `Base58.AlphabetIff` and `Base58Order.AlphabetIncreasing` determine. |
| Base58Codec.ReadWord | src/base58.cpp:34-51 | Characters are taken up to the next space; an unknown one fails; the assertion on the carry holds. |
| Base58Codec.DecodeBase58 | src/base58.cpp:21-65 | True exactly for valid strings, and then the bytes they stand for, by the same alphabet. |
| Radix.DigitsUnique | src/base58.cpp:88-92 | Digits without leading zeros are determined by their number. |
| BlockTree.BlockIndex.GetAncestor | src/chain.cpp:76-99 | Agrees with walking pprev, null out of range, and ends, whatever skip pointers are built. |
| BlockTree.BlockIndex.BuildSkip | src/chain.cpp:106-110 | The pointer is the ancestor at the skip height; every tree keeps right pointers, in any order of building. |
| BlockTree.LowestOne | src/chain.cpp:62-63 | n & (n - 1) turns off exactly the lowest bit that is on. |
| BlockTree.SkipLower | src/chain.cpp:66-74 | The skip height is strictly lower. |
| Chain.CChain.SetTip | src/chain.cpp:11-21 | Exactly the ancestor path of the tip, although the loop stops at the first entry that is right. |
| Chain.CChain.FindFork | src/chain.cpp:51-60 | A common block of chain and ancestors, and none is higher. |
| Chain.CChain.GetLocator | src/chain.cpp:23-49 | The blocks are ancestors at the locator heights, complete down to genesis, by index inside the chain and by search outside. |
| Chain.LocatorShape | src/chain.cpp:23-49 | A locator starts at the block, descends strictly, and has at most twelve plus floor(log2(height)) entries. |
| Chain.LocatorStep | src/chain.cpp:33-46 | Ten steps of one, then each twice the one before, down to genesis. |
| Chain.CChain.ContainsIff | src/chain.h:377-379 | In the chain means to be the tip or an ancestor of it. |
| Chain.CChain.NextIsChild | src/chain.h:382-387 | The next block has this one as its parent, and only the tip has none. |
| HeaderTips.AppendKeeps | src/BlocksDB.cpp:488-546 | A valid header keeps the tips pairwise unrelated, covering and of no more work than the main one; the answer is true exactly when the main tip changed, to one with more work. |
| HeaderTips.EveryRun | src/BlocksDB.cpp:488-546 | From nothing, in any order of arrival: no tip below another, every header below some tip, no header with more work than the main tip. |
| HeaderTips.FailedStaysIff | src/BlocksDB.cpp:488-546 | When a header marked as failed is still on the main chain afterwards: if and only if no tip is below it and either the first tip above it is on another branch while the main chain has it, or no tip is above it and it has more work. |
| HeaderCases.FailedStays | src/BlocksDB.cpp:517-528 | From nothing, four headers with a fork, then the block below the fork fails: only the other branch is cut back and the main tip stays above the failed block. |
| HeaderCases.FailedBecomesTip | src/BlocksDB.cpp:529-545 | From nothing, four headers, then a failed header with more work: it becomes the main tip without being in the list of tips. |
| HeaderDB.DB.AppendHeader | src/BlocksDB.cpp:488-546 | Tips, chain and answer as the function of the state gives them, valid or failed, in every state such calls lead to, and where pindexBestHeader is left behind. |
| BlockTemplates.PushAssembled | src/miner.cpp:222-283 | The tests made before a transaction is added are enough for the block to stay well assembled. |
| BlockTemplates.AncestorsFirst | src/miner.cpp:215-230 | Everything a transaction depends on, over any number of steps, is earlier in the block. |
| BlockTemplates.FinishKeeps | src/miner.cpp:312-317 | The fees of the template sum to zero. |
| MinerRounds.JudgeMeans | src/miner.cpp:238-267 | The tests add a transaction exactly when it pays, or goes by priority, and fits; they pass over only what does not fit. |
| MinerStops.StopIff | src/miner.cpp:238-267 | The tests end the loop exactly at a transaction that pays too little; at one too large, with less than 100 bytes left or more than 50 others passed over; and at one with too many signature operations, when one more is all the block takes; when the counter of those passed over grows. |
| MinerStops.PassedOver | src/miner.cpp:242-252 | In every run the counter is at most the number of rounds with less than 1000 bytes left, at most 51, and zero before. |
| MinerStops.LeftEarly | src/miner.cpp:191-267 | A run left early has come to a transaction with its parents in the block that pays too little, or does not fit into the last 1000 bytes (the last 100, unless more than 50 rounds were spent there), or the block is within one signature operation of the limit. |
| MinerFees.FreeOnes | src/miner.cpp:191-283 | In every run, all transactions added but one pay the relay fee, or were added below the minimum size, or had the priority and the space for it; all of them as long as priority space lasts, and if there is none. |
| MinerFees.FreeRide | src/allowed_args.cpp:421 | A run on which a free transaction larger than the priority space is added. |
| MinerRounds.StillDoesNotFit | src/miner.cpp:242-267 | What did not fit once does not fit later, as long as the limit on signature operations does not grow. |
| MinerRounds.RoundKeeps | src/miner.cpp:191-308 | Every round keeps the block well assembled and every entry accounted for: in the block, refused, still to come, postponed for a missing parent, or stranded. |
| MinerRounds.LeftOut | src/miner.cpp:191-308 | When the loop has run to its end, with or without priority space, whatever is left out did not fit at some point, or misses a parent in the block, or was put into waitSet while priority space lasted; the last only when a transaction once refused was added by score during that time. |
| MinerRounds.LeftOutSteady | src/miner.cpp:191-308 | Without priority space, or with a limit on signature operations that does not grow within it, whatever is left out did not fit at some point or misses a parent in the block; `MinerCases.NothingLostIff` has both directions for the node's limit. |
| MinerRounds.DefaultIsSteady | src/policy/policy.cpp:214-218 | The node's own limit does not grow within the priority space if and only if that is at most 1001001 bytes. |
| MinerCases.NothingLostIff | src/miner.cpp:191-308 | Under the node's policies: whatever any complete run leaves out of any pool, in any order, was refused or misses a parent, if and only if the priority space is at most 1001001 bytes. |
| MinerCases.LeftOutThoughFitting | src/miner.cpp:191-308 | For every larger priority space, a complete run, by priority and by fee rate, on a pool the node admits, that leaves out a transaction never refused whose parent is in the block, and which still fits in a block of at least 1001102 bytes. |
| MinerCases.PoolAdmitted | src/main.cpp:1035-1086 | The pool of that run is within the default limits on size, signature operations, fee, ancestors and descendants. |
| MinerCases.OrderIs | src/txmempool.h:238-250 | The order of that run is strictly by fee rate, whatever the hashes. |
| Miner.Select | src/miner.cpp:191-308 | The loop ends, with a block in which each transaction appears once, after its parents, final, with right totals below both limits; it is a run of rounds from the start to its end or to the test that leaves it early. |
| Miner.Handle | src/miner.cpp:213-307 | In place, what a round does with the transaction taken: passed, put off, refused, added with its children released, or the end. |
| Miner.TakeNext | src/miner.cpp:193-211 | One entry leaves one queue: the priority queue first, then what was postponed, then by score. |
| Miner.Consider | src/miner.cpp:232-267 | A transaction is added exactly if it pays or the block is small, and size, finality and signature operations allow it; when priority space ends. |
| Miner.Release | src/miner.cpp:291-307 | Exactly the waiting children move to the queue in use. |
| Miner.CreateNewBlock | src/miner.cpp:318-348 | Ends with a valid finished template of some part of the pool, or throws, and then an empty block is invalid. |
| Miner.RemovedKeeps | src/miner.cpp:335-339 | Removing a block and its dependents leaves a smaller pool that contains the parents of its entries. |
| Bloom.BloomFilter.Insert | src/bloom.cpp:58-69 | Unless the filter is full, the bits set afterwards are exactly those of the keys since the last clear; no bit is cleared. |
| Bloom.BloomFilter.Contains | src/bloom.cpp:85-99 | True exactly when full, or not empty and all bits set; true for everything inserted; unless full, true only if every hash of the key is one of a key inserted. |
| Bloom.BloomFilter.Clear | src/bloom.cpp:115-120 | All bits zero, empty again. |
| Bloom.RollingBloomFilter.Insert | src/bloom.cpp:229-241 | Each filter holds exactly the keys since it was last cleared, b1 when the count was 0, b2 when it was half the size. |
| Bloom.RollingBloomFilter.Contains | src/bloom.cpp:249-255 | Each of the last nElements insertions since the reset is found, and what is found has every hash in common with one of the last 2 * nElements. |
| Bloom.RollingBloomFilter.Reset | src/bloom.cpp:263-269 | Both filters empty, counting anew. |

## Left out

- Select, getdouble, GetChance, GetPriority and the sizing of Bloom filters: floating point and probability without an exact claim.
- increaseUselessness, setKnowsXThin and the setters of services: single fields that no index depends on.
- Clear on a populated manager and MakeDeterministic: only fresh objects are loaded into.
- Reading an address file of another version or bucket count: only files the same code wrote are proved to come back; other input is only kept from breaking the random index.
- AddrManager.AddrMan.Add: ids, counters and times are unbounded integers; the clock is read once per call; the two-dimensional tables are flattened to bucket * 64 + position.
- CMerkleBlock's filter and the choice of matched transactions: they only supply the mask.
- SetBackend, GetStats, GetValueIn, HaveInputs, GetOutputFor and AccessCoins: readers that add nothing to FetchCoins, or replace the base.
- CoinsOps.Counted: memory is a function of the record's value; the capacity a C++ vector keeps after shrinking is not modelled.
- CoinsViews.CoinsViewDB.BatchWrite: the key-value store is a map that always succeeds; batching and errors of LevelDB are not modelled.
- VarInt.Read: numbers are unbounded; `VarInt.WrappedIs` says what an unsigned type makes of them, the overflow of a signed type is not modelled.
- ScriptCodec.ScriptRoundTrip: the key library is taken to find a valid key again from its short form.
- CoinsDecode.Unserialize: about input that was not serialized by the same code nothing is said but that it is read within its bounds.
- Worker notifications of the check queue and shutdown by fQuit, which nothing sets: a waiting worker may wake up at any time, which covers both.
- The 32-bit width of nTodo: a count of more than 2^32 checks at once is not modelled.
- GetHex, SetHex, the string forms and the conversions between uint256 and arith_uint256: formatting.
- GetBlockProofEquivalentTime: a composition of the operators above with a clamp.
- Pow.GetNextWorkRequired: the median time past is given with each block, and the log lines are left out; heights are unbounded.
- Base58Codec.DecodeBase58: strings end before a null character, as a C string does; the check-sum form and addresses are not part of this model.
- Genesis and the comparison of two chains: one expression each.
- HeaderTips.EveryRun: headers marked as failed make no claim of most work, because the code falls back to the parent without choosing among the tips; `HeaderTips.FailedStaysIff` says what does hold.
- Priorities' order, the score order and the log of CreateNewBlock: any order is allowed.
- UpdateEmptyFull and the filter's size limits: they concern filters received from peers.
- File mapping, LevelDB wrappers, network, RPC, wallet and command line: input and output.
