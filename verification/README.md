# DigiByte Core: verified components

This project models eleven components of the DigiByte node in Dafny and proves what
they are for. Each pairs a fast or stateful form with a simple specification.

- **Coins** (`Coin`, `CoinsView`, `CoinsRefinement`, `CoinsRun`, `CoinsContents`,
  `CoinsCache`, `CoinKeys`, `CoinsCursor`): a stack of caches with FRESH and DIRTY flags over
  a database, against a stack of plain maps; what each cache holds; and the merging cursor
  over it.
- **Header sync** (`HeadersWork`, `HeadersRules`, `HeadersSync`, `HeadersSyncRun`,
  `HeadersTotals`, `HeadersReplay`, `HeadersExact`, `HeadersSyncState`): the two-pass download
  with one-bit commitments and a lookahead buffer, exactly what it accepts, and the bounded
  history that counts work like the full chain.
- **Address manager** (`AddrMan`, `AddrManKeeps`, `AddrManMove`, `AddrManTried`,
  `AddrManEntry`, `AddrManCollisions`, `AddrManEviction`, `AddrManGroups`, `AddrManRules`,
  `AddrManImpl`, `AddrManCheck`, `AddrManTimes`, `AddrManPublic`): several indexes of the same
  entries, kept consistent by every operation, who keeps a place in them, and the run-time
  check of them around every call.
- **Check queue** (`CheckQueue`, `CheckQueueRun`, `CheckQueueImpl`): one master and any number
  of workers, as a state machine of critical sections.
- **Block index** (`SkipWalk`, `Chain`): ancestors through skip links and how many links that
  takes, the active chain, forks, locators.
- **256-bit numbers and block work** (`Limbs`, `ArithSteps`, `Arith256`, `Compact`, `NthRoot`,
  `BlockWork`): limb arithmetic in place, compact targets, roots, and the work of a block.
- **Cuckoo cache** (`BitFlags`, `Cuckoo`, `CuckooCache`, `CuckooRun`): what an insertion keeps,
  and for how long.
- **Compact blocks** (`CompactBlock`, `CompactBlockScan`, `PartialBlock`), as in BIP 152.
- **Amounts** (`AmountCompression`, `AmountVectors`).
- **Base 58** (`Base58Digits`, `Base58`, `Base58Exact`, `DigiDollarAddress`).
- **Bech32 and Bech32m** (`Bech32Checksum`, `Bech32`, `Bech32Exact`), as in BIP 173 and BIP 350.
- `Bits`, `Integers` and `Wrappers` hold what several of them share.

Code that updates fields, arrays or variables step by step is modelled by classes and
methods with loops; each is proved against a function of the old state or a stated
relation to it, and the main results are lemmas about those functions, over all inputs and
whole runs. Where the table says that the asserts of the original hold, they stand in the
model as proved assertions.

Hashes, keyed hashes, the retargeting formula, script and transaction contents and outcomes
of checks are functions that are left open. Clocks and random choices are parameters, so
the results hold for all of them. Integers are unbounded unless the width matters; then
the wrap-around is written out or excluded by proof.

Where code and comments differ the model follows the code. Such differences, and other
behaviour that a reader may not expect:

- `SpendCoin` also answers true for an outpoint the cache holds as spent, and one of the
  five documented flag states never occurs (`SpendCoinAnswer`, `SpendTwice`,
  `RunKeepsNoSpentFresh`).
- `CheckAddrman` accepts some states that are not consistent; `CheckExact` says which.
- The count of extra transactions in a compact block can wrap below zero;
  `ExtraCountExact` says when it is right.
- Scaling the block work by 2^7 can lose bits (`WorkLost`); `GetBlockProof` says for which
  required targets it does not.
- A walk over the skip list is not logarithmic: it is quadratic in the number of digits
  of the height (`WalkBound`, `BoundReached`, `Quadratic`, `NotLogarithmic`).
- Times at or before the epoch make the address manager's own check fail
  (`EarlyAttemptFails`); `RunPasses` says exactly when.
- The first displacement of a cuckoo insertion goes to the second location of the element,
  not to the first as the comment in `src/cuckoocache.h:422-426` says (`NextLoc`).
- A negative length limit does not keep Base 58 from decoding a text without characters
  (`LimitKept`).

`dafny verify dfyconfig.toml` checks the project with Dafny 4.11.

## Model

| member | source | states |
|---|---|---|
| CoinsRun.RunRefines | src/coins.cpp:51-488 | over every run of reads, additions, spends, uncachings, Flushes and Syncs at any level, with caches pushed and discarded, no step throws (a run would end with the error), the flags stay coherent, and every level shows exactly the coins that a stack of plain maps shows |
| CoinsRun.StepRefines | src/coins.cpp:346-488 | one allowed step at any level of the stack succeeds, keeps coherence and changes the visible coins of every level as the plain step does; in particular the "FRESH flag misapplied" throw is unreachable |
| CoinsRun.AddCoinExact | src/coins.cpp:77-115 | adding a spendable coin succeeds and stays coherent if and only if overwriting was allowed or the outpoint has no unspent coin in the view |
| CoinsRun.DiscardRollsBack | src/coins.h:321-327 | pushing a cache, any run of reads, additions, spends and uncachings, and discarding it unwritten throws nowhere, and every level of caches then shows what it showed before, with coherent flags |
| CoinsRun.SpendCoinAnswer | src/coins.cpp:136-156 | SpendCoin answers true if and only if the outpoint was visible or this cache holds an entry for it, spent ones included |
| CoinsRun.SpendTwice | src/coins.cpp:136-156 | a coin of the base that is spent twice in a cache: both calls answer true, though before the second nothing is visible |
| CoinsRun.RunKeepsNoSpentFresh | src/coins.h:94-106 | of the five documented flag states, the fourth (spent and FRESH) never occurs on any level in any run that starts without it |
| CoinsRefinement.GetCoinRefines | src/coins.cpp:68-75 | GetCoin answers from the visible coins, changes none of them at any level, and what it caches on the way is coherent |
| CoinsRefinement.FetchCoinRefines | src/coins.cpp:51-66 | after a fetch the entry is the visible coin, or there is none or a spent one, and no level shows a different set of coins |
| CoinsRefinement.AddCoinRefines | src/coins.cpp:77-115 | an allowed addition keeps coherence and changes the top level only, at one outpoint; unspendable coins change nothing |
| CoinsRefinement.SpendCoinRefines | src/coins.cpp:136-156 | spending removes exactly the outpoint from the top level and hands out the coin that was visible |
| CoinsRefinement.UncacheRefines | src/coins.cpp:475-488 | uncaching changes no visible coin |
| CoinsRefinement.BatchWriteRefines | src/coins.cpp:346-418 | writing a coherent child never throws, keeps the parent coherent, leaves what lies below alone, and the parent then shows what the child showed |
| CoinsRefinement.FlushRefines | src/coins.cpp:420-445 | Flush succeeds, and the level below then shows what the flushed cache shows |
| CoinsRefinement.SyncRefines | src/coins.cpp:447-473 | Sync succeeds and has the same visible effect as Flush |
| CoinsRefinement.MergeCoherent | src/coins.cpp:346-414 | merging a coherent child entry into a coherent parent entry, in each of the flag cases, gives a coherent entry |
| CoinsCache.CoinsViewCache.FetchCoin | src/coins.cpp:51-66 | the object with its entries, flags and usage counter, and every object below it, go to the state the specification gives |
| CoinsCache.CoinsViewCache.GetCoin | src/coins.cpp:68-75 | the object does what the specification does, through any number of objects below |
| CoinsCache.CoinsViewCache.AddCoin | src/coins.cpp:77-115 | the object goes to the specified state, or reports the specified error |
| CoinsCache.CoinsViewCache.SpendCoin | src/coins.cpp:136-156 | the object goes to the specified state and hands out the specified coin |
| CoinsCache.CoinsViewCache.Uncache | src/coins.cpp:475-488 | the object drops a clean entry and its usage, and nothing else: a dirty or FRESH entry stays, and so does every other |
| CoinsCache.CoinsViewCache.BatchWrite | src/coins.cpp:346-418 | the loop over a child's entries, erasing or not, gives the merged entries, usage and what is left of the child's map, or the specified error |
| CoinsCache.CoinsViewCache.Flush | src/coins.cpp:420-445 | writing up and clearing gives the specified states of both levels; no entry is left and the usage is zero |
| CoinsCache.CoinsViewCache.Sync | src/coins.cpp:447-473 | writing up, dropping spent entries and clearing flags gives the specified states of both levels; exactly the unspent entries are left, all clean |
| CoinsCache.CoinsViewCache.SanityCheck | src/coins.cpp:516-531 | the loop passes if and only if every entry is in one of the five flag states and the usage counter is the recount |
| CoinsContents.FlushContents | src/coins.cpp:420-445 | flushing succeeds and leaves no entry and no memory in the cache; the base holds what was dirty, with exact flags: FRESH entries that were spent are gone, other spent ones are marked for deletion |
| CoinsContents.SyncContents | src/coins.cpp:447-473 | syncing writes to the base what flushing writes, and exactly the outpoints with unspent entries stay cached, all clean |
| CoinsContents.SyncThenFlush | src/coins.cpp:447-473 | after syncing every cached coin is the one below, and flushing then gives the same stack as flushing at once |
| CoinsContents.FetchContents | src/coins.cpp:51-66 | reading caches the visible coin, clean, and changes no other entry of the cache; a known outpoint is not asked for again |
| CoinsContents.UncacheContents | src/coins.cpp:475-488 | a clean entry is gone with its memory, a dirty or FRESH one stays, every other entry is as it was |
| CoinsContents.UncacheThenFetch | src/coins.cpp:475-488 | reading undoes uncaching, entry for entry |
| CoinsContents.SpendContents | src/coins.cpp:136-156 | spending deletes a FRESH entry and leaves a spent DIRTY one for any other known coin; other entries stay |
| CoinsContents.CreatedThenSpent | src/coins.h:120-129 | a coin new to a cache, created and spent there, leaves the cache, its memory and all levels below as they were |
| CoinsContents.CreatedFlushedSpent | src/coins.h:120-129 | created, flushed one level down and spent there, it leaves no entry on either level |
| CoinsContents.ShortLived | src/coins.h:120-129 | so it is with any allowed run in between that does not write or leave the cache: no entry is left, and nothing to write |
| CoinsContents.LegalAttributes | src/coins.cpp:519-525 | the legal flag states are those whose attribute is none of 2, 4 and 7 |
| CoinsContents.MemoryExactly | src/coins.h:86-88 | a script of up to 28 bytes uses no memory of its own, a longer one its length and 16 to 31 bytes more, in whole 16 bytes |
| CoinsContents.NeverCached | src/coins.cpp:77-81 | an output that begins with OP_RETURN or has more than 10000 bytes never changes a cache |
| CoinKeys.KeyOrder | src/coins.cpp:209-219 | the comparison is the byte order of the serialized keys: hash, then the output number as a variable-length integer |
| CoinKeys.KeyInjective | src/coins.cpp:209-219 | different outpoints have different serialized keys |
| CoinKeys.KeyLessTotal | src/coins.cpp:209-219 | the comparison is asymmetric, and of two different outpoints one is less |
| CoinKeys.KeyLessTransitive | src/coins.cpp:209-219 | the comparison is transitive |
| CoinKeys.NotNumericOrder | src/coins.cpp:206-219 | the order is not the numeric one: output 16512 of a transaction sorts before output 256 |
| CoinsCursor.WalkEnumerates | src/coins.cpp:221-344 | a walk over any stack of caches hands out every visible coin exactly once, in strictly increasing key order |
| CoinsCursor.WalkUnchanged | src/coins.cpp:221-344 | the walk is the same before and after any run of reads, uncachings, Flushes and Syncs at any level |
| CoinsCursor.EnumerationUnique | src/coins.cpp:221-245 | a set of coins has only one enumeration in key order |
| CoinsCursor.MergeEnumerates | src/coins.cpp:260-294 | merging an enumeration of the coins below with the sorted changed entries enumerates the overlaid coins |
| CoinsCursor.SortRows | src/coins.cpp:300-309 | copying and sorting the changed entries gives their enumeration |
| CoinsCursor.CacheCoinsCursor.Seek | src/coins.cpp:260-294 | seeking ends at the next row to hand out, past every spent entry, with nothing skipped |
| CoinsCursor.CacheCoinsCursor.Next | src/coins.cpp:330-335 | one step leaves exactly the rows after the first |
| CoinsCursor.CacheCoinsCursor.OverCache | src/coins.cpp:297-311 | a new cursor over the cursor of another cache has the whole merged enumeration ahead of it |
| CoinsCursor.Walk | src/coins.cpp:312-336 | draining a cursor yields the rows it had left |
| HeadersReplay.Replay | src/headerssync.cpp:162-399 | if the second pass serves the headers of the first pass again, as a part of them or with more to follow, in any batching into messages that are full but for the last, nothing is rejected: as soon as the redownloaded work reaches the minimum, by a full message or not, the sync ends in FINAL with exactly the served headers released; before that it goes on, and is given up only for a message that is not full |
| HeadersReplay.FirstPassReplayable | src/headerssync.cpp:162-313 | the headers of a first pass that switched, if linked from the fork point, are acceptable for the second pass up to any number of them, and all of them reach the threshold |
| HeadersReplay.ReplayMessage | src/headerssync.cpp:193-222 | one message of such a second pass is accepted; crossing the threshold releases everything received and ends the sync |
| HeadersReplay.SwitchState | src/headerssync.cpp:233-313 | on switching, the stored commitments are exactly those of the headers received, whose work reaches the minimum; counting starts again at the fork point |
| HeadersExact.CommitmentsKept | src/headerssync.cpp:162-399 | over every run: after a first pass of given headers, whatever a second pass releases is linked, permitted and counted, and its commitments up to the threshold are those of the first pass in order; while the second pass goes on so are all headers received, and the commitments left are the rest |
| HeadersExact.BrokenCommitmentRejected | src/headerssync.cpp:355-375 | a header before the threshold whose commitment is not the one of the first pass, or for which none is left, ends the sync in FINAL without success, and nothing of its message is released |
| HeadersExact.SecondMessageExact | src/headerssync.cpp:193-222 | a message of the second pass succeeds if and only if all headers so far are linked, permitted, counted and meet their commitments; more is requested exactly if it succeeds, is full and the threshold is not reached; at the threshold all headers are released; else the sync is over and nothing more is released |
| HeadersExact.SecondHeaderExact | src/headerssync.cpp:315-383 | one header of the second pass is accepted if and only if the headers with it are linked, permitted, counted and meet their commitments |
| HeadersExact.FirstMessageExact | src/headerssync.cpp:169-191 | a message of the first pass succeeds if and only if it continues the headers before it and all of them are permitted, counted and within the commitment limit; the second pass begins exactly when the work has reached the minimum, and else the sync goes on exactly after a full message |
| HeadersExact.FirstHeaderExact | src/headerssync.cpp:272-313 | one header of the first pass is accepted if and only if the headers with it are permitted, counted and within the commitment limit |
| HeadersExact.FirstPassLinks | src/headerssync.cpp:233-313 | in a first pass that goes on or switches, every message names the last header before it, and all headers are acceptable |
| HeadersTotals.CountedExactly | src/headerssync.cpp:303-311 | headers are counted if and only if each is accepted on top of those before it, and the total is the work at the fork point plus theirs, modulo 2^256 |
| HeadersTotals.ReachedExactly | src/headerssync.cpp:343-353 | the threshold is reached exactly if the headers up to some point count for the minimum |
| HeadersTotals.LinkedExactly | src/headerssync.cpp:322-327 | headers are linked exactly if each names the hash of the one before it, the first one that of the fork point |
| HeadersTotals.PermittedExactly | src/headerssync.cpp:329-341 | targets are permitted exactly if each is a permitted transition from the one before it, at its height |
| HeadersTotals.CommitmentAt | src/headerssync.cpp:290-301 | a header whose height is the offset modulo 606 has its commitment next after those of the headers before it |
| HeadersTotals.OnePerPeriod | src/headerssync.cpp:290-301 | the number of commitments is the number of those heights, one in every 606 |
| HeadersSyncRun.RunSafe | src/headerssync.cpp:162-399 | over every run of messages the released headers are, field for field, a prefix of those received in REDOWNLOAD, linked by hash back to the fork point, and commitments and buffer stay within their bounds after every message |
| HeadersSyncRun.ReleaseRule | src/headerssync.cpp:385-399 | a header is released only under at least REDOWNLOAD_BUFFER_SIZE others, or once the redownloaded work has reached the minimum |
| HeadersSyncRun.PopReleases | src/headerssync.cpp:385-399 | popping releases the next received headers unchanged |
| HeadersSyncRun.ExpandInverse | src/headerssync.h:44-83 | compressing linked headers and giving them back their predecessors is the identity |
| HeadersSyncRun.CommitmentsBounded | src/headerssync.cpp:294-306 | an accepted message never leaves more commitments than the maximum |
| HeadersSyncRun.StepKeeps | src/headerssync.cpp:162-231 | every message, accepted or rejected, keeps the invariant of a run |
| HeadersWork.HeadersWorkState.constructor | src/headerssync.cpp:24-37 | the recent blocks are the last ones of the chain at the fork point, as many as the history limit allows |
| HeadersWork.HeadersWorkState.AddHeader | src/headerssync.cpp:39-101 | with only the bounded history, a header is accepted or rejected, and its work counted, exactly as on the full chain; the history stays the last blocks of the full chain, and each seeded entry the latest eligible block of its algorithm |
| HeadersWork.HeadersWorkState.PreviousAlgos | src/headerssync.cpp:58-76 | the entries used for a header are the latest eligible blocks of the active algorithms on the full chain, although they are seeded from the fork point on first use |
| HeadersWork.HeadersWorkState.Append | src/headerssync.cpp:86-101 | recording a block keeps the history and the entries true of the longer chain |
| HeadersWork.HistorySuffices | src/headerssync.cpp:24-37 | once the two oldest difficulty rules are over, the required target computed from the kept history is the one computed from the full chain |
| HeadersWork.ActiveTargetsAgree | src/headerssync.cpp:58-84 | agreeing on the active algorithms is enough for the work of a block |
| HeadersRules.AcceptedExactly | src/headerssync.cpp:39-84 | a chain of headers is accepted if and only if each has a target in range, an algorithm in use from the lock height on, and the required target from the work change on |
| HeadersRules.SwapEnforced | src/headerssync.cpp:52-56 | from the lock height on no accepted header uses an unknown algorithm, Groestl after the swap, or Odo before it |
| HeadersRules.WorkExactly | src/chain.cpp:293-333 | the work of an accepted header is that of its own target before the work change, and from then on that of the targets that exactly the algorithms in use require of a block at its time |
| HeadersRules.ActiveExactly | src/validation.cpp:2476-2503 | Scrypt alone at first, then exactly five algorithms: Odo takes the place of Groestl once both heights of the swap are reached |
| HeadersRules.LatestExactly | src/pow.cpp:407-423 | the latest block of an algorithm is the last of it that is not a late block of a network with the minimum difficulty rule, and there is none exactly if no block counts |
| HeadersRules.LateBlocks | src/pow.cpp:260-273 | more than two spacings after its parent a block needs only the minimum difficulty exactly where the network allows it; elsewhere its own time does not matter, and the oldest rules hold below their height |
| HeadersRules.WindowsDecide | src/pow.cpp:139-157 | once the oldest rules are over, chains with the same tip and the same two spans of eleven blocks require the same target; the initial one without a block of the algorithm or with too short a chain |
| HeadersRules.AlgoRoundTrip | src/primitives/block.h:50-74 | the algorithm of a version is read back whatever the other bits are; other algorithm bits name none, and a block index takes them for Scrypt |
| HeadersSyncState.HeadersSyncState.Finalize | src/headerssync.cpp:144-157 | everything held is given up and the state is FINAL |
| HeadersSyncState.HeadersSyncState.ProcessNextHeaders | src/headerssync.cpp:162-231 | the object goes to the specified state and gives the specified answer, for every message in every state |
| HeadersSyncState.HeadersSyncState.ValidateAndStoreHeadersCommitments | src/headerssync.cpp:233-270 | the loop over a message accepts or rejects and stores commitments as specified, and switches at the minimum work |
| HeadersSyncState.HeadersSyncState.ValidateAndProcessSingleHeader | src/headerssync.cpp:272-313 | one header of the first pass is accepted or rejected, counted and committed to as specified |
| HeadersSyncState.HeadersSyncState.ValidateAndStoreRedownloadedHeader | src/headerssync.cpp:315-383 | one header of the second pass is accepted or rejected and stored as the function does of which SecondHeaderExact says, exactly, that it accepts linked, permitted and counted headers that meet their commitments |
| HeadersSyncState.HeadersSyncState.CheckCommitment | src/headerssync.cpp:355-375 | where a commitment is due the header passes exactly if the next one is there and equals its own, which is then used up; elsewhere it passes and none is used |
| HeadersSyncState.HeadersSyncState.StartRedownload | src/headerssync.cpp:259-268 | the second pass begins at the fork point with the commitments stored |
| HeadersSyncState.HeadersSyncState.PopHeadersReadyForAcceptance | src/headerssync.cpp:385-399 | the loop pops and expands as many headers as are ready |
| AddrManImpl.AddrManImpl.constructor | src/addrman.cpp:108-124 | an empty manager is consistent |
| AddrManImpl.AddrManImpl.Create | src/addrman.cpp:415-429 | the new entry is entered into all indexes under the next id |
| AddrManImpl.AddrManImpl.SwapRandom | src/addrman.cpp:431-453 | two places of the random order are exchanged, with the positions their entries record; the asserts hold |
| AddrManImpl.AddrManImpl.Delete | src/addrman.cpp:455-470 | an unreferenced entry leaves all indexes; the asserts hold |
| AddrManImpl.AddrManImpl.ClearNew | src/addrman.cpp:472-488 | the slot is empty, the indexes stay sound, and only the entry that was there can have lost its last reference and be gone; the assert holds |
| AddrManImpl.AddrManImpl.DropFromNew | src/addrman.cpp:494-505 | the scan from the default bucket removes every reference to the entry and nothing else, so its reference count is zero |
| AddrManImpl.AddrManImpl.MakeRoom | src/addrman.cpp:517-540 | the entry in the tried slot goes to its default new slot; at most one entry, which had that slot, is lost |
| AddrManImpl.AddrManImpl.MakeTried | src/addrman.cpp:490-547 | the indexes stay sound, the entry has its tried slot and no other tried slot changed, its references are gone, an evicted entry is in its default new slot, no record changed, and no tried entry was lost; the asserts hold |
| AddrManImpl.AddrManImpl.AddSingle | src/addrman.cpp:549-623 | the manager stays consistent and goes to the specified state: not routable, known and not worth another bucket, entered, or refused |
| AddrManImpl.AddrManImpl.Refresh | src/addrman.cpp:564-593 | the record of a known address is updated as specified, and the odds of another bucket halve with each reference |
| AddrManImpl.AddrManImpl.Enter | src/addrman.cpp:599-622 | the entry takes the slot, leaves it to a better entry, or is deleted for want of any bucket; the indexes end sound and no other entry is lost |
| AddrManEntry.RefusedNewcomer | src/addrman.cpp:594-620 | an unknown address that finds no place leaves no trace but a used id and a counter for its network |
| AddrManImpl.AddrManImpl.Good | src/addrman.cpp:625-677 | the manager stays consistent, and the address is unknown, updated, recorded as colliding, or moved to the tried table, exactly as specified; ids are not reused and no occupied tried slot becomes empty |
| AddrManImpl.AddrManImpl.Add | src/addrman.cpp:679-689 | a list of addresses is added one by one through consistent states, and the answer is whether any was inserted |
| AddrManImpl.AddrManImpl.Attempt | src/addrman.cpp:691-709 | the manager stays consistent, and only the record of a known address changes, as specified |
| AddrManImpl.AddrManImpl.GetAddr | src/addrman.cpp:804-840 | only the random order changes; the list is the listable entries of a prefix of that order, and it stops at the limit or at the end |
| AddrManCollisions.ListedAll | src/addrman.cpp:818-837 | a list from the whole order holds every listable entry exactly once |
| AddrManCollisions.ListedMeans | src/addrman.cpp:818-837 | a list from distinct ids holds exactly the listable ones among them, without repetition |
| AddrManImpl.AddrManImpl.Connected | src/addrman.cpp:866-883 | the manager stays consistent; the time changes if it is more than 20 minutes old |
| AddrManImpl.AddrManImpl.SetServices | src/addrman.cpp:885-899 | the manager stays consistent; only the services of a known address change |
| AddrManImpl.AddrManImpl.ResolveOne | src/addrman.cpp:905-961 | by the times on record, an incumbent with a success in the last four hours keeps its tried slot and the collision is erased, one that must go loses it to the colliding address, and else nothing changes; a recorded collision is kept, dropped, or settled by taking the address as good, exactly as the times of both entries say; the manager stays consistent |
| AddrManImpl.AddrManImpl.ResolveCollisions | src/addrman.cpp:901-962 | all recorded collisions are settled by increasing id, each in the state that the ones before it left |
| AddrManImpl.AddrManImpl.SelectTriedCollision | src/addrman.cpp:964-990 | for a known colliding address the entry in its tried slot exists and is handed out: id -1 is never looked up |
| AddrManCollisions.CollisionOccupied | src/addrman.cpp:986-989 | in a consistent state a known colliding address has an occupied tried slot |
| AddrManEntry.CollisionsEvolve | src/addrman.cpp:659-672 | since ids are not reused and occupied slots stay occupied, recorded collisions stay with occupied slots |
| AddrManKeeps.CreateKeeps | src/addrman.cpp:415-429 | creating an entry keeps the indexes sound but for its missing bucket |
| AddrManKeeps.DeleteKeeps | src/addrman.cpp:455-470 | deleting an unreferenced entry keeps the indexes sound and touches no other record |
| AddrManKeeps.ClearNewKeeps | src/addrman.cpp:472-488 | clearing a slot keeps the indexes sound |
| AddrManKeeps.SwapRandomKeeps | src/addrman.cpp:431-453 | exchanging two places of the random order keeps the indexes sound |
| AddrManTried.AllScanned | src/addrman.cpp:494-505 | after the scan, cut short or not, no reference is left |
| AddrManImpl.AddrManImpl.CheckAddrman | src/addrman.cpp:1052-1155 | between operations the check returns 0 if and only if the times are in order and the key is set |
| AddrManCheck.CheckAddrman | src/addrman.cpp:1052-1155 | the check with its loops returns 0 if and only if the declarative condition holds |
| AddrManCheck.CheckTried | src/addrman.cpp:1105-1121 | the loop over the tried table finds a fault, or leaves ids over, exactly when the table does not match the entries |
| AddrManCheck.CheckNew | src/addrman.cpp:1123-1136 | the loop that strikes off references finds a fault, or leaves some over, exactly when positions or reference counts are wrong |
| AddrManCheck.CheckEntries | src/addrman.cpp:1066-1098 | the loop over the entries passes if and only if each is in order, and gathers the tried ids, the reference counts and the counts by network |
| AddrManCheck.CheckCounts | src/addrman.cpp:1145-1152 | the comparison of counters passes if and only if there are enough of them and those present are right |
| AddrManCheck.CheckExact | src/addrman.cpp:1052-1155 | the indexes are sound, the times are in order and the key is set if and only if the check passes, the address index has no stale entry and every known network has a counter |
| AddrManCheck.SoundPasses | src/addrman.cpp:1052-1155 | with sound indexes the check passes if and only if the times are in order and the key is set |
| AddrManCheck.CheckMissesCounter | src/addrman.cpp:1143-1152 | the check passes for a state in which the only network has no counter |
| AddrManCheck.CheckMissesStaleAddress | src/addrman.cpp:1086-1089 | the check passes for a state in which the address index names an entry that does not exist |
| AddrManTimes.GoodTimes | src/addrman.cpp:625-677 | a recorded success keeps the times in order if and only if its own time is after the epoch, or at the epoch for an entry that a collision keeps in the new table |
| AddrManTimes.AttemptTimes | src/addrman.cpp:691-709 | a recorded attempt keeps the times in order if and only if it is not before the epoch |
| AddrManTimes.AddTimes | src/addrman.cpp:549-623 | an announced address keeps the times in order, whatever its own time |
| AddrManTimes.AddStepsTimes | src/addrman.cpp:679-689 | so does a list of them |
| AddrManTimes.ResolveTimes | src/addrman.cpp:901-962 | settling a collision keeps the times in order if and only if the address is not taken as good at or before the epoch |
| AddrManTimes.ResolveStepsTimes | src/addrman.cpp:901-962 | so does settling all of them by a clock after the epoch |
| AddrManTimes.ListTimes | src/addrman.cpp:804-840 | the shuffle for a list changes nothing about the times |
| AddrManTimes.RecordTimes | src/addrman.cpp:866-899 | a recorded connection and a change of services change nothing about the times |
| AddrManTimes.OpTimes | src/addrman.cpp:625-990 | each operation on a state that passes the check leaves one that passes if and only if its time is accepted |
| AddrManTimes.RunPasses | src/addrman.cpp:1037-1050 | over every run of operations the run-time check passes in all states if and only if every operation has an accepted time |
| AddrManTimes.EarlyAttemptFails | src/addrman.cpp:1091-1093 | a manager with one address passes the check, and fails it after an attempt recorded at time -1, with sound indexes |
| AddrManEviction.CollisionSettled | src/addrman.cpp:919-950 | the tried slot of a known valid address changes hands if and only if its incumbent, another entry, had no success for four hours and was either tried between a minute and four hours ago, or not tried for four hours while the address succeeded more than forty minutes ago; a success in the last four hours erases the collision and nothing else; in the other cases nothing changes |
| AddrManEviction.CollisionGone | src/addrman.cpp:911-953 | an unknown or invalid address only loses its collision, and one whose slot is free takes it |
| AddrManEviction.PassSpares | src/addrman.cpp:901-962 | a pass over all collisions leaves every incumbent with a success in the last four hours in its slot |
| AddrManEviction.SlotKept | src/addrman.cpp:549-962 | no announcement, failure, connection, change of services, list or success that tests first takes an occupied tried slot from its entry |
| AddrManEviction.SlotChangesHands | src/addrman.cpp:549-962 | over every run in which successes test first, a tried slot changes hands only at a collision for which its incumbent must go by the times on record |
| AddrManGroups.TriedPerGroup | src/addrman.cpp:47-52 | the tried addresses of one network group lie in at most 8 buckets, so there are at most 512 of them, in every consistent state |
| AddrManGroups.AnnouncementsContained | src/addrman.cpp:54-60 | over every run of announcements from one source group at most 64 of the 1024 new buckets change, and no tried slot |
| AddrManGroups.NewBucketWithin | src/addrman.cpp:54-60 | every address announced by a source group goes to one of the 64 buckets of that group |
| AddrManRules.UnknownTakenUp | src/addrman.cpp:599-612 | an unknown address is taken up if and only if its slot is free or its occupant has another place or is terrible, told in numbers: not tried in the last minute, and from the future, unheard of for 30 days, failed 3 times without a success or 10 times in a week |
| AddrManRules.UnknownOutcome | src/addrman.cpp:594-622 | then it has one reference and the announced time less the penalty, which a self-announcement is spared; else nothing of it is kept |
| AddrManRules.KnownRefreshed | src/addrman.cpp:564-593 | the time of a known address only moves forward, and only for news an hour (or a day) younger after the penalty; services accumulate; at most one reference is added, only by a draw of one in 2^references, and none to a tried entry or one with eight |
| AddrManRules.SuccessRecorded | src/addrman.cpp:625-645 | a success sets the two times of a known address and forgets its failures, wherever the address ends up, and any success is remembered |
| AddrManRules.FailuresCountOnce | src/addrman.cpp:691-709 | any number of failed attempts after a success of any peer counts as one |
| AddrManRules.CollisionsBounded | src/addrman.cpp:659-662 | in every state of every run at most ten collisions are recorded |
| AddrManRules.CollisionsStep | src/addrman.cpp:625-677 | only a success that tests first and finds its slot taken adds a collision, its own, while there are fewer than ten |
| AddrManRules.ListExactly | src/addrman.cpp:817-836 | a list without a limit names exactly the entries of the given network class that are not terrible, told in numbers |
| AddrManRules.LimitMeans | src/addrman.cpp:804-815 | a list has as many addresses as fit the given number and the given percentage |
| AddrManPublic.CheckedAddrMan.constructor | src/addrman.cpp:108-124 | a new manager with a key passes the check |
| AddrManPublic.CheckedAddrMan.Check | src/addrman.cpp:1037-1050 | the assertion fails exactly if the check is due and would not return 0 |
| AddrManPublic.CheckedAddrMan.Good | src/addrman.cpp:1175-1182 | on a manager that passes, the check after the call fails exactly if it is due and the time is not accepted; the call does what Good does unless the check before it fails |
| AddrManPublic.CheckedAddrMan.Attempt | src/addrman.cpp:1184-1190 | the same for an attempt, whose time is accepted from the epoch on |
| AddrManPublic.CheckedAddrMan.Add | src/addrman.cpp:1166-1173 | on a manager that passes, both checks pass, whatever is announced |
| AddrManPublic.CheckedAddrMan.ResolveCollisions | src/addrman.cpp:1192-1198 | on a manager that passes, both checks pass if the clock reads after the epoch |
| AddrManPublic.CheckedAddrMan.SelectTriedCollision | src/addrman.cpp:1200-1207 | on a manager that passes, both checks pass |
| AddrManPublic.CheckedAddrMan.GetAddr | src/addrman.cpp:1218-1225 | on a manager that passes, both checks pass, and the list is that of the operation |
| AddrManPublic.CheckedAddrMan.Connected | src/addrman.cpp:1236-1242 | on a manager that passes, both checks pass |
| AddrManPublic.CheckedAddrMan.SetServices | src/addrman.cpp:1244-1250 | on a manager that passes, both checks pass |
| CheckQueueRun.WaitCorrect | src/checkqueue.h:69-126 | whenever Wait returns, after any interleaving of one master and any number of workers: as multisets, the checks added since the last return are the ones completed and the ones taken in batches, and the result says whether all of them succeed; only the master returns |
| CheckQueueRun.RunKeeps | src/checkqueue.h:69-180 | in every reachable state nTodo is the number of queued and taken checks, nIdle and nTotal count the sleeping and the participating threads, no check is lost, and the verdicts so far are right |
| CheckQueueRun.StepKeeps | src/checkqueue.h:69-126 | every critical section and every executed check keeps that invariant |
| CheckQueueRun.FinishMid | src/checkqueue.h:82-90 | cleaning up after a batch never takes nTodo below zero |
| CheckQueueRun.NeverStuck | src/checkqueue.h:93-103 | while the master is in the loop, some step is possible that is neither an addition nor a wake-up in vain |
| CheckQueueRun.SleeperServed | src/checkqueue.h:82-103 | a master that sleeps without a notification has a worker that holds a batch |
| CheckQueueRun.MasterNeverForgotten | src/checkqueue.h:69-126 | after every interleaving: a master that sleeps without a notification has a worker in flight, and while it is in the loop a step is possible that is neither an addition nor in vain |
| CheckQueueRun.StepProgress | src/checkqueue.h:69-126 | every step but adding and a wake-up to an empty queue brings the end of Wait nearer |
| CheckQueueRun.WaitEnds | src/checkqueue.h:69-126 | a stretch of such steps without a return is no longer than the work that was left |
| CheckQueue.BatchFits | src/checkqueue.h:108-116 | a batch has at least one check and no more than the queue holds or the largest batch allows |
| CheckQueue.BatchExact | src/checkqueue.h:108-113 | two or more checks are taken exactly as long as they are within the largest batch and every joined or idle worker, and one more, could have as many |
| CheckQueue.SectionTakes | src/checkqueue.h:108-120 | a thread that finds work takes the end of the queue, in order, and after a recorded failure takes it as failed |
| CheckQueueImpl.CCheckQueue.Add | src/checkqueue.h:163-180 | checks are queued and counted; nobody, one worker or all workers are woken |
| CheckQueueImpl.CCheckQueue.Begin | src/checkqueue.h:78-119 | the critical section cleans up or joins and ends as specified; the master is notified exactly by the worker that finished the last check |
| CheckQueueImpl.CCheckQueue.Proceed | src/checkqueue.h:93-119 | the part after the clean-up returns, sleeps or takes a batch as specified |
| CheckQueueImpl.CCheckQueue.Resume | src/checkqueue.h:91-119 | after waking up, with the idle count taken back, the section goes on as specified |
| CheckQueueImpl.CCheckQueue.Execute | src/checkqueue.h:121-124 | executing a batch finds out whether it was still good before and all its checks succeed |
| Chain.CBlockIndex.GetAncestor | src/chain.cpp:219-244 | jumping over skip links gives the block that the plain walk along the parents gives, and nothing for a height out of range; where all links are set, the number of links followed is that of SkipWalk |
| Chain.CBlockIndex.BuildSkip | src/chain.cpp:251-255 | the skip link leads to the ancestor at the skip height; a line whose links are all set stays so |
| SkipWalk.WalkBound | src/chain.cpp:206-244 | below height 2^d no walk between any two heights follows more than MaxSteps(d) links |
| SkipWalk.BoundReached | src/chain.cpp:206-244 | for every d from 9 on, the walk from 2^d - 8 to 2 follows exactly that many |
| SkipWalk.BelowTwoTo18 | src/chain.cpp:206-244 | for instance at most 110 links below height 2^18, and exactly 110 from 262136 to 2 |
| SkipWalk.Quadratic | src/chain.cpp:206-244 | MaxSteps(d) lies between d(d - 2)/4 and d(d + 8)/4 |
| SkipWalk.NotLogarithmic | src/chain.cpp:206-244 | no multiple of the number of binary digits bounds the walk, with a height for each multiple |
| SkipWalk.LowReached | src/chain.cpp:206-244 | the exact length of the walk from 2^b - 1 to 2 |
| SkipWalk.SkipLower | src/chain.cpp:206-217 | the skip height is below the height |
| Chain.CChain.SetTip | src/chain.cpp:89-96 | although it stops where it meets the old chain, the chain then holds the tip's ancestor at every height |
| Chain.CChain.HeightIsLast | src/chain.h:510-536 | there is a block at exactly the heights from zero to that of the chain |
| Chain.CChain.FindFork | src/chain.cpp:127-136 | the result is the highest block of the line that is on the chain, or nothing if there is none |
| Chain.LastCommonAncestor | src/chain.cpp:389-405 | for blocks over one genesis block, the result is on both lines, and no higher block is; the final assert holds |
| Chain.SharedBelow | src/chain.cpp:389-405 | lines that share a block share everything below it |
| Chain.LocatorEntries | src/chain.cpp:98-115 | the entries are the hashes at eleven heights in a row and then at heights whose distances double, down to the genesis block; the step stays within 32 bits |
| Chain.StepsFitExact | src/chain.cpp:98-115 | the steps of a locator stay within 32 bits exactly up to height 2^30 + 9 |
| Chain.LocatorDescends | src/chain.cpp:98-115 | the heights of a locator go strictly down from the block to the genesis block |
| Chain.LocatorIsShort | src/chain.cpp:98-115 | a locator of a block at height h has at most 11 + ceil(log2 h) entries |
| Arith256.BaseUint.AddAssign | src/arith_uint256.h:133-143 | the sum modulo 2^256, also when both operands are the same object |
| Arith256.BaseUint.Complement | src/arith_uint256.h:67-73 | 2^256 - 1 less the value |
| Arith256.BaseUint.Negate | src/arith_uint256.h:75-82 | the negation modulo 2^256 |
| Arith256.BaseUint.SubAssign | src/arith_uint256.h:145-149 | the difference modulo 2^256 |
| Arith256.BaseUint.Increment | src/arith_uint256.h:172-179 | one more, modulo 2^256 |
| Arith256.BaseUint.ShiftLeft | src/arith_uint256.cpp:21-35 | the value times 2^shift modulo 2^256, for every shift |
| Arith256.BaseUint.ShiftRight | src/arith_uint256.cpp:38-52 | the value divided by 2^shift, for every shift |
| Arith256.BaseUint.MulWord | src/arith_uint256.cpp:55-64 | the product with a word modulo 2^256 |
| Arith256.BaseUint.MulAssign | src/arith_uint256.cpp:67-80 | the product modulo 2^256 |
| Arith256.BaseUint.DivWord | src/arith_uint256.cpp:83-96 | the quotient by a word; by zero an error and no change |
| Arith256.BaseUint.DivAssign | src/arith_uint256.cpp:99-122 | shift-subtract division gives the quotient of the integers; by zero an error and zero |
| Arith256.BaseUint.CompareTo | src/arith_uint256.cpp:125-134 | the sign of the difference |
| Arith256.BaseUint.EqualTo | src/arith_uint256.cpp:137-148 | equality with a 64-bit number |
| Arith256.BaseUint.Length | src/arith_uint256.cpp:187-199 | the number of binary digits |
| Arith256.BaseUint.GetLow64 | src/arith_uint256.h:247-251 | the value modulo 2^64 |
| Compact.SetCompact | src/arith_uint256.cpp:247-265 | the value is the denoted number modulo 2^256; overflow is set exactly when the number does not fit, negative exactly when it is not zero and the sign bit is set |
| Compact.OverflowExact | src/arith_uint256.cpp:259-263 | the three size conditions are exactly that mantissa times 256^(size-3) reaches 2^256 |
| Compact.GetCompact | src/arith_uint256.cpp:267-288 | the compact form denotes the value rounded down to units of its last mantissa digit, with a mantissa of at least 0x8000, and is the given form if the value was denoted by a canonical one; the asserts hold |
| Compact.CompactInverse | src/arith_uint256.cpp:247-288 | a canonical form is found again from the number it denotes |
| Compact.CompactExactly | src/arith_uint256.cpp:247-288 | a positive form is found again if and only if it is canonical |
| NthRoot.ApproxNthRoot | src/arith_uint256.cpp:202-225 | for every value v and 1 < n < 64 the result r has r^n <= v < (r + 2^shifts)^n, and its lowest shifts digits are 0 |
| NthRoot.RootDetermined | src/arith_uint256.cpp:202-225 | only one number meets that |
| NthRoot.SearchRoot | src/arith_uint256.cpp:212-221 | the binary search finds the largest r with r^n at most the head |
| NthRoot.PowerFits | src/arith_uint256.cpp:216-218 | no power in the search leaves 64 bits |
| NthRoot.HeadFits | src/arith_uint256.cpp:206-209 | the shifted value fits the search |
| BlockWork.GetBlockProofBase | src/chain.cpp:280-291 | floor(2^256 / (target + 1)) for every accepted target, zero for the others |
| BlockWork.GetBlockProof | src/chain.cpp:257-333 | the base proof times the factor of the algorithm, or 2^256 / (product of the roots + 1) scaled by 2^7, or zero if a required target is unusable; the scaling keeps all bits if and only if the product of the exact fifth roots of the required targets is at least 128 |
| BlockWork.MeanTarget | src/chain.cpp:304-327 | the product of the roots of all active targets is exact: no multiplication leaves 256 bits |
| BlockWork.ProductBound | src/chain.cpp:321-325 | at most n n-th roots of numbers up to a bound multiply to at most that bound |
| BlockWork.RootsFit | src/chain.cpp:308-327 | there are at most five roots, and their product is positive and at least 256 below 2^256, so adding one cannot wrap |
| BlockWork.ActiveAtMost | src/validation.cpp:2476-2506 | at most five of the eight algorithms are active at any height |
| BlockWork.FactorsExact | src/chain.cpp:257-278 | the factor of each algorithm, which is one for all of them before there are several |
| BlockWork.WorkDetermined | src/chain.cpp:304-331 | the required targets determine the roots, and so the mean and the work of a block |
| BlockWork.MeanSmall | src/chain.cpp:304-331 | the product of the approximate roots is below 128 if and only if that of the exact fifth roots is, a condition on the required targets alone |
| BlockWork.WorkLost | src/chain.cpp:304-331 | with required targets of 1, all accepted, every root is 1 and the scaled work is zero |
| BlockWork.ScaleExact | src/chain.cpp:328-331 | the final shift by 7 keeps all bits if and only if the mean target is at least 128 |
| CuckooCache.Cache.Insert | src/cuckoocache.h:398-447 | what is not recent is released, and the rest made old, exactly if the counter is at zero and the current epoch has at least an epoch of live elements; then the element is kept where it was, added (in its first open location, if it has one, with no other slot changed), or, if none of its eight locations is open, added at the cost of one live element; every other live element keeps its epoch |
| CuckooCache.Cache.Displace | src/cuckoocache.h:412-446 | along the whole displacement chain the live elements, each with its epoch, and the argument are conserved but for at most one that is lost at the end |
| CuckooCache.Cache.NextLoc | src/cuckoocache.h:422-437 | the location after the last one among the eight, and the second one if there is no last |
| CuckooCache.Cache.Contains | src/cuckoocache.h:475-485 | the answer is whether one of the eight locations holds the element; every live element is found; erasing releases the first such slot and nothing else |
| CuckooCache.Cache.EpochCheck | src/cuckoocache.h:286-318 | the cache is aged exactly if the counter is at zero and the count of live elements of the current epoch has reached the epoch size; the counter goes down by one, or to the epoch size, or to what the epoch lacks and at least a sixteenth of it |
| CuckooCache.Cache.constructor | src/cuckoocache.h:336-350 | an empty cache with at least two slots; an epoch is 45 times the size, modulo 2^32, divided by 100, and at least one |
| CuckooRun.WhyGone | src/cuckoocache.h:286-485 | an operation after which an element is gone erased it, lost it at the depth limit, or ended an epoch, with at least an epoch of live recent elements, in which the element was not recent |
| CuckooRun.Survives | src/cuckoocache.h:286-447 | over every run an element that is neither erased nor lost stays until the second end of an epoch, or until the first if it was not recent |
| CuckooRun.EpochsLong | src/cuckoocache.h:286-318 | a second epoch ends only after at least one epoch of insertions and two |
| CuckooRun.Lifetime | src/cuckoocache.h:398-447 | an inserted element that is neither erased nor lost is still held after an epoch of further insertions and one more |
| CuckooRun.ScansRare | src/cuckoocache.h:311-317 | over every run at most one insertion in a sixteenth of an epoch, and one more, counts the table |
| Cuckoo.RecentsCount | src/cuckoocache.h:294-299 | the count is the number of slots with a live element of the current epoch |
| Cuckoo.AgedLive | src/cuckoocache.h:303-309 | a new epoch releases exactly the live elements of the previous one, and those of the current one become the previous |
| Cuckoo.CheckedBounded | src/cuckoocache.h:286-318 | the current epoch never exceeds its size by more than a sixteenth (or one) |
| Cuckoo.LiveFound | src/cuckoocache.h:475-485 | what is live is stored at one of its locations |
| Cuckoo.InsertedFound | src/cuckoocache.h:383-397 | after an insertion the element is found, unless it is the one lost |
| Cuckoo.InRange | src/cuckoocache.h:240-250 | every location is within the table |
| BitFlags.BitPackedFlags.constructor | src/cuckoocache.h:63-71 | there are at least as many flags as asked for, all set |
| BitFlags.BitPackedFlags.Set | src/cuckoocache.h:93-96 | exactly this flag is set, in its byte and beyond |
| BitFlags.BitPackedFlags.Unset | src/cuckoocache.h:104-107 | exactly this flag is cleared, in its byte and beyond |
| PartialBlock.PartiallyDownloadedBlock.InitData | src/blockencodings.cpp:50-171 | the status is determined exactly; when it succeeds, all indexing was in bounds, the short ids lead in order to exactly the positions that are not prefilled, both scans came to what is said below, mempool_count is the number of slots filled, and the other positions are as prefilled |
| PartialBlock.MapShortIds | src/blockencodings.cpp:85-109 | the walk over the positions stays in bounds and 16 bits, and succeeds exactly if the short ids are distinct and no bucket is crowded |
| PartialBlock.PartiallyDownloadedBlock.PlacePrefilled | src/blockencodings.cpp:62-79 | the loop succeeds exactly if each prefilled transaction is not null and at a position the block can have, and then each is at its position |
| PartialBlock.PartiallyDownloadedBlock.ScanPool | src/blockencodings.cpp:110-135 | after the scan a slot holds the transaction with its short id if exactly one was seen, and none otherwise; the scan stops at the end or as soon as every slot is filled; the count is that of the filled slots |
| PartialBlock.PartiallyDownloadedBlock.ScanExtra | src/blockencodings.cpp:137-166 | after the scan a slot holds the transaction it had, or else the first match, unless another transaction matches too; one that the mempool had two matches for stays empty; the scan stops at the end or as soon as every slot is filled |
| PartialBlock.PartiallyDownloadedBlock.FillBlock | src/blockencodings.cpp:181-226 | too few or too many transactions are invalid, with the state the original then leaves; otherwise each position has the transaction at hand or the next one sent, and the verdict is that of the block check |
| PartialBlock.RoundTrip | src/blockencodings.cpp:20-226 | a block encoded, initialized from and completed with exactly the missing transactions: it fails exactly for a null first transaction, ambiguous short ids or a crowded bucket; otherwise every position has its own transaction or one listed under the same short id, and without such others the block is the same |
| PartialBlock.Missing | src/blockencodings.cpp:173-179 | the transactions at the positions that are not available, in order |
| PartialBlock.Reconstructs | src/blockencodings.cpp:20-226 | after any scan, completing with the missing transactions gives every position its own transaction or one listed under the same short id |
| PartialBlock.Encode | src/blockencodings.cpp:20-30 | the loop gives a short id for each transaction but the first, which is prefilled |
| PartialBlock.ExtraCountExact | src/blockencodings.cpp:137-160 | the count of extra transactions is the number of slots they filled if and only if none of those looked at conflicts with a transaction from the mempool |
| PartialBlock.ExtraCountWraps | src/blockencodings.cpp:146-160 | one mempool and one extra transaction with the same short id take the unsigned count below zero |
| CompactBlock.EmptiesCount | src/blockencodings.cpp:60-93 | exactly as many positions are left empty as there are short ids |
| CompactBlock.PlacedAt | src/blockencodings.cpp:62-79 | each prefilled transaction is at its position, and nothing else is |
| CompactBlock.PrefilledExactly | src/blockencodings.cpp:62-79 | every prefilled transaction is accepted if and only if none is null and the last one is at a position within the block and below 65536 |
| AmountCompression.AmountRoundTrip | src/compressor.cpp:301-325 | every amount in money range has a 64-bit code and is decompressed to itself |
| AmountCompression.CodeIsCanonical | src/compressor.cpp:301-325 | every code whose value, before any wrap-around, is in money range is the code of that value |
| AmountCompression.CodesDisjoint | src/compressor.cpp:256-262 | no legacy code of an amount in money range is an extended code |
| AmountCompression.CompressedInjective | src/compressor.cpp:301-315 | different amounts in money range have different codes |
| AmountCompression.CodeRoundTrip | src/compressor.cpp:142-223 | without a size limit the legacy decoding undoes the legacy coding |
| AmountCompression.DecodeRoundTrip | src/compressor.cpp:142-223 | and the coding undoes the decoding |
| AmountCompression.UncompressibleExact | src/compressor.cpp:228-231 | the amounts whose legacy code does not fit are, for each last digit but zero, exactly those from the computed minimum on |
| AmountCompression.CountTotal | src/compressor.cpp:248-260 | there are 45325592629044838 of them |
| AmountCompression.RankInverse | src/compressor.cpp:264-284 | the amount for the rank of an amount is that amount |
| AmountCompression.ForRankInverse | src/compressor.cpp:264-284 | the rank of the amount for a rank is that rank |
| AmountCompression.CompressAmount | src/compressor.cpp:301-315 | for every 64-bit amount the loops give the specified code |
| AmountCompression.DecompressAmount | src/compressor.cpp:317-325 | for every 64-bit code the loops give the specified value |
| AmountCompression.LegacyCompressAmount | src/compressor.cpp:172-197 | the code, unless it needs more than 64 bits; the digit assert holds |
| AmountCompression.LegacyDecompressAmount | src/compressor.cpp:199-223 | the value modulo 2^64 |
| AmountCompression.GetUncompressibleAmountForRank | src/compressor.cpp:273-284 | the lookup finds the amount and never runs past the last digit |
| AmountVectors.KnownAmounts | src/test/compress_tests.cpp:42-48 | the seven known pairs of amount and legacy code hold in both directions |
| AmountVectors.KnownExtended | src/test/compress_tests.cpp:49-50 | and so do the two known pairs with an extended code |
| Base58.DecodeEncode | src/base58.cpp:44-131 | every byte string is decoded from its encoding |
| Base58.EncodeDecode | src/base58.cpp:44-131 | every text without spaces that can be decoded is the encoding of what it decodes to |
| Base58.LimitKept | src/base58.cpp:44-91 | what is decoded is within the length limit if and only if the limit is not negative; with limit -1 the empty text is decoded |
| Base58Exact.SpacesIgnored | src/base58.cpp:44-91 | a word of valid characters with spaces around it is decoded like the word |
| Base58Exact.DecodedShape | src/base58.cpp:44-91 | every text that is decoded is the encoding of its value with nothing but spaces around it |
| Base58Exact.Alphabet | src/base58.cpp:24-24 | the 58 digits are, in order, the characters of the alphabet |
| Base58Exact.KnownWords | src/test/data/base58_encode_decode.json:3-4 | the byte 61 is written 2g, and the bytes 62 62 62 are written a3gV |
| Base58.EncodeBase58 | src/base58.cpp:93-131 | the carry loops give the specified text; the buffer of 138/100 of the length never leaves a carry |
| Base58.DecodeBase58 | src/base58.cpp:44-91 | the loops give the specified bytes or refuse, with spaces, leading ones and any length limit, negative ones included; the buffer of 733/1000 of the length never leaves a carry |
| Base58.MultiplyAdd | src/base58.cpp:71-79 | the in-place loop multiplies the number in the buffer and adds a digit, leaves no carry if the result fits, and keeps the exact length |
| Base58Digits.EncodeRoom | src/base58.cpp:103-104 | 256^k is at most 58^(k*138/100 + 1) |
| Base58Digits.DecodeRoom | src/base58.cpp:58-60 | 58^k is at most 256^(k*733/1000 + 1) |
| DigiDollarAddress.CheckRoundTrip | src/base58.cpp:141-165 | every byte string is decoded from its encoding with a checksum |
| DigiDollarAddress.CheckCanonical | src/base58.cpp:141-165 | every text without spaces that decodes with a checksum is the encoding of what it decodes to |
| DigiDollarAddress.AddressPrefix | src/base58.cpp:179-182 | whatever the key and the checksum, an address has 52 characters and starts with DD, TD or RD, as its version says |
| DigiDollarAddress.AddressRoundTrip | src/base58.cpp:188-292 | a text reads as a version and a key if and only if it is their address |
| DigiDollarAddress.CDigiDollarAddress.constructor | src/base58.cpp:188-219 | the object is valid exactly if the text is an address, and then holds its version and key |
| DigiDollarAddress.CDigiDollarAddress.ToString | src/base58.cpp:279-292 | the address of a valid object, nothing otherwise |
| DigiDollarAddress.CDigiDollarAddress.SetDigiDollar | src/base58.cpp:221-261 | exactly a taproot key and one of the three versions are taken |
| Bech32.DecodeEncode | src/bech32.cpp:357-397 | every legal human-readable part and all 5-bit data within 90 characters are decoded from their encoding, under the same encoding |
| Bech32.EncodeDecode | src/bech32.cpp:357-397 | what is decoded is encoded again as the same text in lower case |
| Bech32.ChangeDetected | src/bech32.cpp:327-338 | for data of any length, changing one symbol never verifies under the same encoding |
| Bech32.ChecksumAccepted | src/bech32.cpp:341-352 | a created checksum verifies, under its own encoding |
| Bech32Exact.DecodedExact | src/bech32.cpp:373-397 | a text is read as given parts if and only if it is printable, of one case, at most 90 characters long, and in lower case is what legal parts of 5-bit values are written as |
| Bech32Exact.CaseInsensitive | src/bech32.cpp:373-397 | a text of one case reads like the same text in lower case |
| Bech32Exact.CharacterClasses | src/bech32.cpp:287-309 | printable characters are those from ! to ~, and the letters of the two cases are 32 apart |
| Bech32Exact.ExpandedInjective | src/bech32.cpp:312-324 | human-readable parts of one length with the same expansion are the same |
| Bech32Exact.HrpChangeDetected | src/bech32.cpp:312-338 | a character of the human-readable part replaced by another with the same high bits (a letter by a letter, a digit by a digit) or the same low bits never verifies under the same encoding |
| Bech32Exact.SameKind | src/bech32.cpp:312-324 | lower-case letters share their high bits, and so do digits |
| Bech32Exact.KnownTexts | src/test/bech32_tests.cpp:14-40 | the part a without data is written a12uel5l in Bech32 and a1lqfn3a in Bech32m |
| Bech32Exact.KnownTextsRead | src/test/bech32_tests.cpp:14-40 | and both are read, in upper case, as that part without data |
| Bech32Exact.Alphabet | src/bech32.cpp:22-23 | the 32 symbols are, in order, those of the alphabet |
| Bech32Checksum.PolyModLinear | src/bech32.cpp:130-216 | the remainder of a sum is the sum of the remainders |
| Bech32Checksum.OneChange | src/bech32.cpp:130-216 | changing one symbol of a sequence of any length changes the remainder |
| Bech32Checksum.StepNonZero | src/bech32.cpp:194-214 | multiplying by x loses nothing |
| Bech32Checksum.ChecksumVerifies | src/bech32.cpp:341-352 | a checksum brings the remainder to the constant |
| Bech32Checksum.ChecksumUnique | src/bech32.cpp:341-352 | no other six values do |
| Bech32Checksum.PolyMod | src/bech32.cpp:177-216 | the loop gives the specified remainder |
| Bech32.ExpandHrp | src/bech32.cpp:312-324 | the loop gives the high bits, a zero and the low bits, from which ExpandedInjective gets the characters back |
| Bech32.CheckCharacters | src/bech32.cpp:287-309 | the loop finds no error exactly if all characters are printable and not of both cases |
| Bech32.CreateChecksum | src/bech32.cpp:341-352 | the loop gives the six groups of the specified remainder |
| Bech32.Encode | src/bech32.cpp:357-370 | the loop gives the specified text, for 5-bit values and a human-readable part without capitals |
| Bech32.Decode | src/bech32.cpp:373-397 | the loops give the specified parts or refuse |

## Left out

- Coins: best block and DigiDollar state, which travel beside the coins; `AccessByTxid`, `HaveInputs`, memory pool reallocation, `EmplaceCoinInternalDANGER`; failed writes of the base, and what a thrown error leaves behind.
- Coins: the memory usage of a coin is a function of the coin; spare capacity of scripts is not modelled.
- Coin cursor: read errors of the database cursor.
- HeadersWork.HeadersWorkState.AddHeader: the retargeting formulas are left open: the two newer ones as a function of what they read (the height, two median times and the latest block of the algorithm), the two older ones as a function of the chain, which are over before the work change on every network. The results hold for all such formulas.
- Header sync: locators and logging; the hash and the salt are left open.
- Address manager: `Select_` and `GetChance` (floating point and probabilistic termination), serialization, `GetEntries_`, `FindAddressEntry_`, `Size_`, which only read.
- Check queue: the stop request and thread creation. A check is executed in one step of its own, since it shares nothing.
- CheckQueueRun.WaitEnds: says nothing about a scheduler that only ever wakes threads in vain.
- Chain: `FindEarliestAtLeast` and `GetBlockProofEquivalentTime`.
- Chain.LocatorEntries: block heights above 2^30 + 9, where the doubled step leaves 32 bits and the behaviour of the original is undefined (`StepsFitExact`).
- Arithmetic: decrement, bitwise operators, hexadecimal and floating-point conversions of 256-bit numbers.
- BlockWork.GetBlockProof: the proof for one algorithm (`src/chain.cpp:345-369`) would only repeat these results.
- CuckooCache.Cache.constructor: the depth limit is a parameter, at least one, in place of a floating-point logarithm.
- Cuckoo cache: concurrent erasure, `setup_bytes`.
- PartialBlock.PartiallyDownloadedBlock.InitData: a message holds at most 65535 transactions, which deserialization enforces, and the object is used once.
- Compact blocks: `DifferenceFormatter` and the message formats; the verdict of the block check is a parameter.
- Compressor: script compression, which needs curve arithmetic.
- DigiDollar addresses: destinations other than a taproot key are one case; the network of the running node is not modelled.
- Bech32: `LocateErrors` and its tables; two or more changed symbols, as when a character of the human-readable part changes in both its high and its low bits.
- Everything else in the repository: validation, networking, wallet, interfaces and storage.
