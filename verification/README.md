# Vireon: a verified model of the chain, the node, the indexer and the pool

Vireon is a proof-of-work chain written in Rust. This project models the parts whose
correctness depends on several components agreeing exactly, and proves that they do.
`dafny verify dfyconfig.toml` checks everything.

- **Core** (`Transactions`, `Merkle`, `Blocks`, `Emission`, `Difficulty`, `Consensus`,
  `Ledgers`, `LedgerStates`, `Chains`, `ChainIdentity`, `ChainObjects`): wire encoding,
  signatures, merkle tree, proof-of-work identity, emission, base fee and difficulty, the
  account ledger, validated chains, their identity and their work.
- **Node** (`Sorting`, `Mempool`, `TemplateSelection`, `MempoolEvents`, `MempoolMethods`,
  `Nodes`, `NodeObjects`, `NodeOutcomes`, `Templates`): the pool of pending transactions,
  tip append, compare-and-swap replacement with an archive of detached blocks, block
  templates, and what every run of events keeps.
- **Sync** (`Locators`, `Sync`, `SyncObjects`, `SyncSafety`, `SyncCompletion`,
  `SyncCorollaries`, `SyncRules`): the Hello, FindAncestor, Headers and Blocks exchange; it
  is safe against any peer and completes against an honest one.
- **Indexer** (`Indexes`, `IndexRefinement`, `IndexMeaning`, `IndexRows`): incremental
  indexing refines the full rebuild, and the rebuild explains balances and says field by
  field what every transaction, block and address row holds.
- **Pool** (`PoolSplits`, `PoolFairness`, `PoolBooks`, `PoolRuns`, `PoolMeaning`, `PoolStores`):
  the reward split and the books of immature, mature, pending and paid balances.
- **Nonce allocator** (`NonceLeases`): every interleaving of leases and resets.
- **Samples** (`Samples`, `SampleWork`, `SampleForks`, `SampleSelections`): concrete chains,
  templates, peers and pools that meet the hypotheses of the theorems, and that fail just
  outside them.

How it is modelled. Hashes are free constructors, so equal digests mean equal preimages.
Address parsing, signature checks and the native proof-of-work routine are function-valued
fields of `Crypto`, and every result holds for all of them. The clock is a parameter.
Machine integers are subset types; checked, saturating, wrapping and truncating operations
are written out. Code that updates objects or runs loops is a class or method proved against
a function on values; the theorems are about those functions and their runs. An SQL
transaction, a mempool lock and the pool's mutex are each one atomic step.

Main results, with what they rest on:

- `Nodes.RunSafety`, `SyncSafety.SessionSafety`, `Nodes.NeverReturns`, `Nodes.NothingVanishes`:
  any run from a node whose chain was accepted; nothing is assumed about peers or events.
- `SyncCompletion.SyncCompletes` and `SyncCompletion.SyncStalls` together state exactly when
  the exchange completes: no resume height above the meeting point (within the peer's chain),
  and either a direct extension or at most 2048 blocks from the meeting point. Otherwise it
  stalls for good (`SyncCompletion.StallsForever`), and both cases occur
  (`SampleForks.LongForkStalls`, `SampleForks.PartialSyncStalls`).
- `IndexRefinement.EnsureIsRebuild`: the stored index came from rebuilding any accepted chain.
- `ChainIdentity.ChainSpendsAreSigned`, `ChainIdentity.ChainBlocksMeetTarget` and
  `IndexMeaning.OnlyTheSignerSpends`: acceptance of the chain alone.
  `ChainIdentity.ForkChoiceIsByTrials`, with `SampleWork.ShorterChainWins`: work counts, not length.
- `ChainIdentity.TipDeterminesChain`: no assumption beyond acceptance of both chains.
- `Templates.TemplateIsAccepted`: same-network miner, tip below now plus the drift limit, room
  in the store's height column, and addresses of the length Bech32m gives them; then the block
  is accepted exactly if its coinbase hash is fresh and no sender repeats a nonce.
- `PoolRuns.BooksBalance`: what the recorded blocks have allocated fits 64 bits in total; this
  follows from the rewards alone while the work of a round stays below 2^128
  (`PoolRuns.RewardsFit`). The split is exact under the same bound and fair while its products
  fit 128 bits; `PoolFairness.StuckTotalOverpays` and `PoolFairness.WrappedProductsAreUnfair`
  show what happens otherwise.
- `NonceLeases.LeasesTile`: none. `NonceLeases.QuietLeasesStayInside`: resets do not overlap
  and the lease spans none; `NonceLeases.SpanningLeaseEscapes` and
  `NonceLeases.OverlappingResetsMix` show that both conditions are needed. The module
  comment of the allocator promises disjoint ranges per template; across a reset the code
  gives disjointness only between consecutive cursor stores.

Four facts about the code that are stated as they are: applying a block can still fail after
validation if the coinbase hash repeats, since the coinbase nonce need not equal the height
(`Ledgers.ApplyBlockOutcome`, with a case in `Samples.TemplateOutcomes`); submission appends in arrival order while sanitizing sorts by
sender, so both orders are covered by "applies in order" and only the sanitized one is a
fixed point (`Mempool.SanitizeIsIdempotent`); truncation after a reorg cuts records without
reporting them (`MempoolEvents.ReconcileMeaning` names them `cut`); the indexer's comment
promises a full rebuild when the sampled parent links do not match, but an index whose tip
matches is returned as it is (`IndexRefinement.FailingSampleIsIgnored`).

## Model

| member | source | states |
|---|---|---|
| `Transactions.EncodeToBuffer` | vireon-core/src/transaction.rs:130-178 | the byte buffer pushed field by field is exactly the encoding that transaction hashes commit to, in both layouts |
| `Transactions.EncodingRoundTrip` | vireon-core/src/transaction.rs:156-178 | a decoder recovers a transaction from its encoding if and only if its strings are shorter than 2^32 bytes |
| `Transactions.EncodingInjective` | vireon-core/src/transaction.rs:156-182 | two such transactions with the same hash are the same transaction |
| `Transactions.LayoutsNeverCollide` | vireon-core/src/transaction.rs:367-401 | a signed and an unsigned encoding never coincide, with no bound on lengths: the byte of the signing domain where the other layout has its option tag is no tag |
| `Transactions.LongStringsCollide` | vireon-core/src/transaction.rs:387-391 | beyond 2^32 bytes the truncated length prefix makes two different transactions encode alike: a concrete pair |
| `Transactions.VerifiedShape` | vireon-core/src/transaction.rs:252-365 | what passing verification guarantees: non-zero amount, parseable parties of one network, a complete signature unless coinbase, fees within the supply cap |
| `Transactions.VerifyMeaning` | vireon-core/src/transaction.rs:252-365 | a spend verifies if and only if it is well shaped, its key derives its sender's address on the common network, and that key's signature over the unsigned payload checks; a coinbase needs the shape alone |
| `Transactions.SignatureCommits` | vireon-core/src/transaction.rs:130-154 | what is signed determines every field but key and signature, and the network |
| `Transactions.SignatureNamesNetwork` | vireon-core/src/transaction.rs:130-154 | equal signed bytes are for the same network, however the two sides read addresses |
| `Merkle.ComputeMerkleRoot` | vireon-core/src/block.rs:139-163 | the in-place level-by-level loop computes the recursive tree root and fails exactly on an empty list |
| `Merkle.HashPairs` | vireon-core/src/block.rs:148-160 | one round of pairing, the odd element paired with itself |
| `Merkle.RootOfHalves` | vireon-core/src/block.rs:139-163 | over a power of two of hashes the root is the node over the roots of the two halves, the first on the left |
| `Merkle.RootDeterminesLevel` | vireon-core/src/block.rs:139-163 | among levels without repeats, of any two lengths, equal roots mean equal levels despite odd-level duplication |
| `Merkle.RootDeterminesTransactions` | vireon-core/src/block.rs:139-163 | the root determines the transaction list among lists with no repeated hash |
| `Merkle.RepetitionIsInvisible` | vireon-core/src/block.rs:150-158 | why repeats must be excluded: repeating the last of an odd number of transactions leaves the root unchanged |
| `Blocks.PowFixesHeader` | vireon-core/src/firopow.rs:222-237 | among blocks that pass the proof-of-work check, the hash determines every header field except network id and base fee |
| `Blocks.EnsurePowMeaning` | vireon-core/src/firopow.rs:531-581 | a block passes if and only if the native routine runs, gives its mix hash and verifies at the boundary, and the block hash has at least as many leading zero bits as its difficulty |
| `Blocks.FillBoundary` | vireon-core/src/firopow.rs:167-186 | the array filled in place is the target boundary, for every bit count including 255 |
| `Blocks.HashMeetsBoundary` | vireon-core/src/firopow.rs:188-200 | the byte loop decides the big-endian comparison, equality included |
| `Blocks.TargetIsLeadingZeros` | vireon-core/src/firopow.rs:167-218 | a hash meets the target for b bits exactly if it has at least b leading zero bits, for every b |
| `Emission.EmittedBounded` | vireon-core/src/consensus.rs:19-41 | the subsidies of any number of heights sum to at most 5,999,999,968,382,400, below the cap |
| `Emission.TotalTheoreticalEmission` | vireon-core/src/consensus.rs:28-43 | the halving loop returns exactly that total and none of its checked operations fails |
| `Difficulty.LwmaNextDifficulty` | vireon-core/src/consensus.rs:98-170 | the weighted loop over the window computes the specified difficulty |
| `Difficulty.DifficultyMovesLittle` | vireon-core/src/consensus.rs:98-170 | with an ancestor, the next difficulty stays in the network bounds and within +4 and -3 of the clamped previous one |
| `Difficulty.DifficultyFollowsSolveTimes` | vireon-core/src/consensus.rs:113-168 | weighted solve times at most 90% of the target raise the difficulty one bit per doubling of the speed, from 110% on they lower it likewise, one to four bits within the bounds; in between it stays |
| `Difficulty.OnTimeKeepsDifficulty` | vireon-core/src/consensus.rs:113-168 | blocks exactly on a target of at least ten seconds keep the difficulty |
| `Difficulty.LaterIntervalsWeighMore` | vireon-core/src/consensus.rs:126-146 | delaying one block inside the window lowers the weighted solve time by the delay: each interval weighs one more than the one before |
| `Difficulty.FallbackIgnored` | vireon-core/src/consensus.rs:98-112 | with any ancestor the candidate-supplied fallback has no influence |
| `Difficulty.SlowerBlocksNeverRaiseDifficulty` | vireon-core/src/consensus.rs:113-168 | lengthening solve times anywhere in the window never raises the difficulty |
| `Consensus.EmptyBlocksReachTheFloor` | vireon-core/src/consensus.rs:57-79 | the base fee stays at least 1 and empty blocks lower it by at least one each until it rests at 1 |
| `Consensus.BaseFeeMeaning` | vireon-core/src/consensus.rs:53-79 | one user transaction keeps the base fee, each further one raises it by an eighth, none lowers it by an eighth; at least 1 either way, never below 1 |
| `Consensus.BaseFeeIsMonotone` | vireon-core/src/consensus.rs:57-79 | more transactions never make the next block cheaper |
| `Consensus.CoinbaseMeaning` | vireon-core/src/consensus.rs:179-238 | the coinbase checks pass if and only if exactly the first transaction is a coinbase, without fees, paying subsidy plus all tips, and every spend covers the base fee |
| `Consensus.MedianIsMiddle` | vireon-core/src/consensus.rs:256-272 | on increasing timestamps the median is that of the middle one of the last eleven blocks |
| `Consensus.MedianTimePastIsImplied` | vireon-core/src/consensus.rs:240-284 | on strictly increasing timestamps the median-time-past rule follows from the previous-block rule |
| `Consensus.CheckTransactionBodies` | vireon-core/src/consensus.rs:322-338 | the loop with its growing set of hashes performs size, verification and duplicate checks in order |
| `Consensus.AcceptedBodies` | vireon-core/src/consensus.rs:322-338 | accepted bodies are small, verified and pairwise different by hash |
| `Consensus.ClockOnlyRelaxes` | vireon-core/src/consensus.rs:287-297 | a block valid at one time is valid at every later time |
| `Ledgers.SpendConserves` | vireon-core/src/state.rs:162-201 | a spend moves value without creating any: balances plus burned fees drop by exactly the tip; nonce and applied hash advance, nothing else changes |
| `Ledgers.AdmissionMeaning` | vireon-core/src/state.rs:122-160 | a spend validates if and only if it is new, well shaped, signed by its sender, next in the sender's order and covered by the balance: amount, base fee and tip |
| `Ledgers.SpendNeverOverflows` | vireon-core/src/state.rs:162-201 | while all value held fits 64 bits, a validated spend cannot fail half-way |
| `Ledgers.ReplayEffect` | vireon-core/src/state.rs:304-323 | a list that applies in order has fresh distinct hashes and, per sender, consecutive nonces from the expected one |
| `Ledgers.SimulationIsReplay` | vireon-core/src/state.rs:203-302 | the dry run and the live run end in the same ledger, and the tips counted are what left the balances |
| `Ledgers.SupplyCapNeverFires` | vireon-core/src/state.rs:290-300 | on a sound ledger the supply-cap and overflow checks always pass |
| `Ledgers.ApplyBlockOutcome` | vireon-core/src/state.rs:304-334 | after validation, applying a block fails if and only if the coinbase hash was used before, and otherwise keeps the ledger sound |
| `Ledgers.RepeatedCoinbaseValidates` | vireon-core/src/state.rs:304-334 | a concrete run: the second block pays the same coinbase transaction as the first, validates, and cannot be applied |
| `Ledgers.CoinbaseOnlyValidates` | vireon-core/src/state.rs:203-302 | a block that only pays its subsidy validates on any sound ledger it continues |
| `Ledgers.AppliedBlockEffect` | vireon-core/src/state.rs:304-334 | what an applied block leaves behind: supply equation, applied hashes, tip, fees and rewards of its height, nonce runs |
| `LedgerStates.LedgerState.Clone` | vireon-core/src/state.rs:30-51 | a separate object with the same contents, for the dry run |
| `LedgerStates.LedgerState.CreditBalance` | vireon-core/src/state.rs:337-341 | adds with an overflow check, unchanged on failure |
| `LedgerStates.LedgerState.DebitBalance` | vireon-core/src/state.rs:343-347 | subtracts with an underflow check, unchanged on failure |
| `LedgerStates.LedgerState.ValidateAgainst` | vireon-core/src/state.rs:122-160 | the checks of a transaction against the current fields, in order |
| `LedgerStates.LedgerState.Apply` | vireon-core/src/state.rs:162-201 | the in-place update agrees with the ledger function, including the state left behind by a failure |
| `LedgerStates.LedgerState.ReplayAll` | vireon-core/src/state.rs:311-316 | transactions applied one after another, stopping at the first failure |
| `LedgerStates.LedgerState.SimulateAll` | vireon-core/src/state.rs:269-278 | the dry-run loop sums the fees that the ledger function sums |
| `LedgerStates.LedgerState.ValidateBlockAgainst` | vireon-core/src/state.rs:203-302 | the block checks against the live object, which stays unchanged |
| `LedgerStates.LedgerState.ApplyBlockTo` | vireon-core/src/state.rs:304-334 | the in-place block application agrees with the ledger function |
| `Chains.InvariantStep` | vireon-core/src/chain.rs:87-98 | one appended block keeps the chain invariant |
| `Chains.ValidChainInvariant` | vireon-core/src/chain.rs:76-98 | every accepted chain is linked, has increasing time, conserves supply exactly, records exactly its transaction hashes and gives each account nonces 1, 2, 3, ... |
| `Chains.ValidationIsAcceptance` | vireon-core/src/consensus.rs:306-451 | the validator passes a block if and only if it obeys the listed rules, comes after the median time and stays below the supply cap |
| `ChainIdentity.ChainBlocksMeetTarget` | vireon-core/src/firopow.rs:561-581 | every block of an accepted chain has at least as many leading zero bits as its difficulty, which is at least the network's minimum |
| `ChainIdentity.ChainSpendsAreSigned` | vireon-core/src/consensus.rs:306-451 | on an accepted chain exactly the first transaction of each block is a coinbase and every other one is signed with the key its sender's address derives from, on the chain's network |
| `ChainIdentity.ChainHeaders` | vireon-core/src/consensus.rs:347-409 | every block of an accepted chain carries the network, version 1 and the base fee that follows from the fee and the number of spends of the block before, 1 at genesis |
| `ChainIdentity.ChainDifficulties` | vireon-core/src/consensus.rs:81-168 | every difficulty of an accepted chain from the third block on follows the last sixty weighted solve times against a minute, within the network's bounds; the second equals the first |
| `ChainIdentity.MainnetGenesisIsFixed` | vireon-core/src/consensus.rs:413 | an accepted main-network chain starts from the pinned genesis hash |
| `ChainIdentity.LaterClock` | vireon-core/src/chain.rs:76-98 | a chain accepted once is accepted later with the same ledger |
| `ChainIdentity.TipDeterminesChain` | vireon-core/src/firopow.rs:531-581 | two accepted chains with the same tip hash are equal block by block and belong to one network, although proof of work omits network id, base fee and mix hash |
| `ChainIdentity.SharedBlockSharesHistory` | vireon-core/src/chain.rs:31-38 | agreement on one hash at one height means agreement on everything up to it |
| `ChainIdentity.ValidHashesDistinct` | vireon-core/src/chain.rs:76-98 | no hash occurs twice on an accepted chain |
| `ChainIdentity.SumWork` | vireon-core/src/chain.rs:17-29 | the fold with overflow checks computes the specified total |
| `ChainIdentity.WorkIsTrials` | vireon-core/src/chain.rs:17-29 | the total is the sum over all headers of two to the difficulty, and fails if and only if a difficulty reaches 128 or the sum does not fit 128 bits |
| `ChainIdentity.WorkWithinBounds` | vireon-core/src/chain.rs:17-29 | work of an accepted chain never overflows 128 bits |
| `ChainIdentity.AppendAddsWork` | vireon-core/src/chain.rs:17-29 | every further block of an accepted chain adds exactly two to the power of its difficulty |
| `ChainIdentity.ForkChoiceIsByTrials` | vireon-core/src/chain.rs:40-58 | a candidate from the same genesis is adopted if and only if its sum of two to the difficulty is larger; length plays no part |
| `ChainIdentity.CommonAncestorIsForkPoint` | vireon-core/src/chain.rs:31-38 | the reported ancestor is the exact fork point and is missing exactly if the genesis differs |
| `ChainObjects.ValidateCandidate` | vireon-core/src/consensus.rs:306-451 | the sequence of validation checks, stopping at the first that fails |
| `ChainObjects.ChainObject.Append` | vireon-core/src/chain.rs:87-98 | validates, applies in place and pushes the block; a failure leaves the blocks alone and the ledger exactly as far as the block had been applied |
| `ChainObjects.RebuildChain` | vireon-core/src/chain.rs:76-85 | appending block by block into a fresh object yields the chain function's result |
| `ChainObjects.ScanNextNonce` | vireon-node/src/devnet.rs:1537-1545 | the full scan returns one more than the largest nonce an address spent with, wrapping at 64 bits, or 1 |
| `ChainObjects.LedgerNonceIsScan` | vireon-node/src/devnet.rs:1537-1545 | on every accepted chain the ledger's next nonce equals the full scan if and only if the account spent fewer than 2^64 - 1 times; after that the counter sticks and the scan wraps to zero |
| `Sorting.SortByPermutes` | vireon-node/src/mempool.rs:331-366 | sorting keeps exactly the records, with multiplicity |
| `Sorting.SortBySorts` | vireon-node/src/mempool.rs:331-366 | the result is ordered by the key |
| `Mempool.FilterCandidates` | vireon-node/src/mempool.rs:290-318 | the loop drops expired, mined and repeated records in one pass |
| `Mempool.FilterMeaning` | vireon-node/src/mempool.rs:290-318 | every record is kept or reported; the kept ones are fresh, unmined and distinct |
| `Mempool.FilterIsExact` | vireon-node/src/mempool.rs:290-318 | a hash is kept if and only if it is unmined and one of its records is no older than the limit; nothing older is kept |
| `Mempool.AdmissionOrder` | vireon-node/src/mempool.rs:331-347 | the admission order groups by sender, then lower nonce, higher tip, older, lower hash |
| `Mempool.FeeOrder` | vireon-node/src/mempool.rs:349-368 | the fee order is higher tip, higher maximum fee, older, lower hash |
| `Mempool.SortedRecords` | vireon-node/src/mempool.rs:331-368 | sorted for admission a sender's nonces never fall; sorted by fee the tips never rise |
| `Mempool.SanitizePending` | vireon-node/src/mempool.rs:194-222 | filter, sort and admit in a loop over a running ledger copy |
| `Mempool.AdmitMeaning` | vireon-node/src/mempool.rs:204-221 | admission never aborts; what it admits applies in order, the rest is reported |
| `Mempool.PendingMeaning` | vireon-node/src/mempool.rs:194-222 | a list that applies in order to the tip has no duplicate and no mined hash, and gapless nonces per sender |
| `Mempool.PendingAreSigned` | vireon-node/src/mempool.rs:401-424 | every record of an applicable pool is a well-shaped spend signed with the key its sender's address derives from |
| `Mempool.SanitizeMeaning` | vireon-node/src/mempool.rs:194-222 | sanitizing always succeeds and yields an applicable list with its end ledger; each record is kept or reported, mined ones reported |
| `Mempool.SanitizeIsIdempotent` | vireon-node/src/mempool.rs:194-222 | sanitizing a sanitized list changes nothing and drops nothing |
| `TemplateSelection.OnePass` | vireon-node/src/mempool.rs:253-281 | one greedy pass over the remaining records |
| `TemplateSelection.SelectPending` | vireon-node/src/mempool.rs:228-288 | bounded greedy passes over fee-sorted candidates |
| `TemplateSelection.SelectMeaning` | vireon-node/src/mempool.rs:228-288 | the selection applies in order to the tip, respects the limit, accounts for every record, and with room left nothing skipped could still be added, unless over 64 candidates were offered and 64 are already selected |
| `TemplateSelection.BestTipLeads` | vireon-node/src/mempool.rs:228-288 | no candidate that the tip ledger admits offers a higher tip than the first transaction selected |
| `MempoolEvents.SurplusLeavesRoom` | vireon-node/src/devnet.rs:840-881 | dropping a sender's surplus leaves exactly one slot below the per-sender cap; the surplus is the sender's own and none of it tips above what stays |
| `MempoolEvents.RefreshMeaning` | vireon-node/src/devnet.rs:930-945 | a refresh leaves an applicable pool and reports every record it drops |
| `MempoolEvents.CapMeaning` | vireon-node/src/devnet.rs:840-881 | enforcing the cap never fails, keeps the pool applicable and leaves the sender below 32 |
| `MempoolEvents.RoomMeaning` | vireon-node/src/devnet.rs:883-909 | eviction ends with an applicable pool strictly below the configured size, without any record of the cheapest package that tips below the incoming transaction |
| `MempoolEvents.RoomOutcome` | vireon-node/src/devnet.rs:883-905 | a full pool makes room if and only if there is a cheapest package below the incoming tip and the pool without its sender, sanitized, is below the limit; otherwise the submission is refused as full |
| `MempoolEvents.SubmitMeaning` | vireon-node/src/devnet.rs:803-928 | after a successful submission the pool applies in order, is within the total limit, ends with the new record and holds at most 32 of its sender |
| `MempoolEvents.SubmitAddsOne` | vireon-node/src/devnet.rs:803-928 | below the sender's cap and the pool's limit a submission is accepted if and only if it is new, on the network and admissible after the pending ones, and then adds one record and removes none |
| `MempoolEvents.ReconcileMeaning` | vireon-node/src/mempool.rs:124-157 | after a reorg the pool is applicable and within its limit, and every old record and detached transaction is kept, reported or cut by the capacity |
| `MempoolEvents.VictimMeaning` | vireon-node/src/mempool.rs:370-399 | a victim exists exactly if some sender's package tips below the incoming transaction, and it is the least package by tip, age, address |
| `MempoolEvents.PackageFigures` | vireon-node/src/mempool.rs:377-389 | a package's figures bound every record of its sender |
| `MempoolEvents.PackageIsAttained` | vireon-node/src/mempool.rs:370-399 | both figures of a package belong to records of its sender |
| `MempoolEvents.VictimIsCheapest` | vireon-node/src/mempool.rs:370-399 | the victim has the least tip among the packages below the incoming one, then the earliest arrival, then the lowest address |
| `MempoolMethods.GatherPackages` | vireon-node/src/mempool.rs:377-389 | the map filled in one pass holds each sender's least tip and earliest arrival |
| `MempoolMethods.LowestFeePackage` | vireon-node/src/mempool.rs:370-399 | map and running minimum find the specified victim |
| `MempoolMethods.EnforceSenderCap` | vireon-node/src/devnet.rs:840-881 | collect, sort, remove and re-sanitize, in loops |
| `MempoolMethods.EvictForRoom` | vireon-node/src/devnet.rs:883-909 | eviction of the cheapest package, refused when it does not help |
| `MempoolMethods.SubmitToPool` | vireon-node/src/devnet.rs:803-928 | the whole submission as the node runs it |
| `MempoolMethods.ReturnDetached` | vireon-node/src/mempool.rs:131-149 | the set of known hashes guides which detached transactions return |
| `MempoolMethods.ReconcileAfterReorg` | vireon-node/src/mempool.rs:124-157 | reconciliation with its truncation |
| `Nodes.VerifyChainStructure` | vireon-node/src/storage.rs:644-686 | the index loop accepts exactly gapless, linked block lists from height zero |
| `Nodes.AppendIsSafe` | vireon-node/src/storage.rs:197-210 | a successful append adds one validated block on the tip |
| `Nodes.AppendFits` | vireon-node/src/storage.rs:243-267 | what the validator accepts also passes the store's tip and uniqueness checks, below height 2^63-1 |
| `Nodes.ReplacementIsSafe` | vireon-node/src/storage.rs:212-240 | a successful replacement is a validated chain of the same genesis with strictly more work |
| `Nodes.HashDeterminesBlock` | vireon-node/src/storage.rs:311-337 | a hash identifies a block among all ever accepted on a network, so the archive never confuses two |
| `Nodes.ArchiveMeaning` | vireon-node/src/storage.rs:269-290 | every detached block is filed under its hash; nothing filed earlier is lost or changed |
| `Nodes.ReplacementKeepsBlocks` | vireon-node/src/storage.rs:269-290 | each stored block stays canonical or archived across a replacement |
| `Nodes.SubmitKeeps` | vireon-node/src/devnet.rs:803-928 | a submission keeps the node invariant and the pool guarantees, and touches only the pool |
| `Nodes.UnminedMeaning` | vireon-node/src/devnet.rs:569-586 | a mined block removes exactly its own user transactions from the pool |
| `NodeOutcomes.SubmitOutcome` | vireon-node/src/devnet.rs:554-595 | a mined block is accepted if and only if it continues the stored chain and its height fits the store; it becomes the tip and its transactions leave the pool |
| `NodeOutcomes.ReplacementOutcome` | vireon-node/src/storage.rs:212-240 | a candidate replaces the stored chain if and only if the tip is the expected one, the candidate is valid from the same genesis, took more expected trials, and fits the store |
| `Nodes.RefreshKeeps` | vireon-node/src/devnet.rs:930-945 | a refresh keeps the node invariant and leaves an applicable pool |
| `Nodes.AdoptKeeps` | vireon-node/src/devnet.rs:602-670 | adoption detaches exactly the blocks above the fork point, never fails after the commit, and leaves a clean pool within its limit |
| `Nodes.ReorgAccountsForTransactions` | vireon-node/src/devnet.rs:617-669 | each user transaction of a detached block ends up mined, pending, reported as dropped, or cut while the pool is full |
| `Nodes.FreshNode` | vireon-node/src/devnet.rs:2001-2029 | a fresh node, whose genesis is written unvalidated: if the genesis passes validation the invariant holds, and otherwise no event ever changes the node |
| `Nodes.StepKeeps` | vireon-node/src/devnet.rs:554-670 | every event keeps the invariant and changes the chain only by one validated block or to more work |
| `Nodes.RunSafety` | vireon-node/src/devnet.rs:554-670 | over every run, honest or not: the genesis stays, and the chain is the same or has strictly more work |
| `Nodes.NeverReturns` | vireon-node/src/devnet.rs:602-670 | a chain once left is never canonical again |
| `Nodes.NothingVanishes` | vireon-node/src/storage.rs:212-337 | over every run, a block once stored stays canonical or archived, unchanged |
| `NodeObjects.NodeObject.SubmitBlock` | vireon-node/src/devnet.rs:554-595 | the in-place append and pool cleanup, or no change at all |
| `NodeObjects.NodeObject.DropMined` | vireon-node/src/devnet.rs:569-586 | removes exactly the mined records from the pool |
| `NodeObjects.NodeObject.ReplaceTables` | vireon-node/src/storage.rs:269-290 | archive, delete and refill as one transaction: all or nothing |
| `NodeObjects.NodeObject.Judge` | vireon-node/src/devnet.rs:618-662 | validation of both chains, fork choice, ancestor and detached blocks |
| `NodeObjects.NodeObject.Adopt` | vireon-node/src/devnet.rs:602-670 | compare-and-swap replacement followed by pool reconciliation |
| `NodeObjects.NodeObject.SubmitTx` | vireon-node/src/devnet.rs:803-928 | submission against the stored pool |
| `NodeObjects.NodeObject.RefreshMempool` | vireon-node/src/devnet.rs:930-945 | the stored pool is replaced by its sanitized form |
| `Templates.TemplateIsAccepted` | vireon-node/src/devnet.rs:478-595 | a template given any nonce and mix hash that meet the target is accepted on the same tip by validator, ledger and store, at any later time, if and only if its coinbase hash is fresh and no sender repeats a nonce; the latter holds unless a nonce counter nears its 64-bit end |
| `Templates.TemplateContents` | vireon-node/src/devnet.rs:478-552 | a template pays the asked miner subsidy and tips, holds the transactions it reports within the three limits, reports the others, and could take no further one unless more than 64 compete and 64 are in |
| `Templates.TemplateTimeIs` | vireon-node/src/devnet.rs:478-552 | the template's time is the clock, or one second after the tip if the clock is behind |
| `Locators.BlockLocator` | vireon-node/src/p2p.rs:1247-1279 | the loop with growing stride and seen set lists the specified heights with their hashes |
| `Locators.LocatorShape` | vireon-node/src/p2p.rs:1247-1279 | at most 32 entries, strictly descending from the tip to genesis |
| `Locators.LocatorDepths` | vireon-node/src/p2p.rs:1247-1279 | entry k lies k below the tip up to 8, then 7 + 2^(k-8), down to genesis; the 32nd is genesis |
| `Locators.FindAncestorFirst` | vireon-node/src/p2p.rs:928-932 | the answer is the first listed entry on the peer's chain, missing only if there is none |
| `Locators.AncestorFound` | vireon-node/src/p2p.rs:919-942 | for a shared genesis an ancestor is always found, it is the highest listed one, and it lies at most twice as deep as the true fork within the first 31 entries |
| `Sync.ValidateHeaderChain` | vireon-node/src/p2p.rs:1334-1384 | the running previous-hash loop accepts exactly gapless linked headers continuing the branch |
| `SyncRules.LinksMeaning` | vireon-node/src/p2p.rs:1334-1384 | headers pass if and only if their heights follow each other and each names the one before it |
| `SyncRules.ForeignPeersAreRefused` | vireon-node/src/p2p.rs:1406-1432 | a response from another protocol version, network or genesis is refused and changes nothing, and such a request is rejected |
| `SyncRules.OnlyMoreWorkIsFollowed` | vireon-node/src/p2p.rs:1016-1074 | a greeting or an ancestor leads to a request only if the peer announces more work than the node's sum of two to the difficulty |
| `SyncRules.TargetIsElsewhere` | vireon-node/src/p2p.rs:1016-1036 | after a greeting the node never aims for the tip it is on |
| `SyncRules.AnswersAreRuns` | vireon-node/src/p2p.rs:943-990 | a peer serves consecutive blocks and headers of its chain from the height asked for, as many as asked for up to 128 and 512 |
| `SyncRules.OnlyAnnouncedBlocks` | vireon-node/src/p2p.rs:1116-1150 | bodies change anything only if the branch was verified for the same tip and work and every body matches an announced header |
| `SyncRules.SessionKeepsTraced` | vireon-node/src/p2p.rs:992-1218 | in any session every branch keeps gapless linked headers from its ancestor, is verified only after reaching the announced tip, and stages only announced blocks, at most 2048 |
| `SyncRules.CompletionIsGenuine` | vireon-node/src/p2p.rs:1116-1218 | when bodies are accepted and nothing more is requested, the node is on a chain with the announced tip and work |
| `SyncSafety.ResponseIsEvents` | vireon-node/src/p2p.rs:992-1218 | any response, honest or not, acts on the node like a list of ordinary validated events |
| `SyncSafety.SessionSafety` | vireon-node/src/p2p.rs:992-1218 | any mix of peer responses and local events keeps the invariant and never lowers the work |
| `SyncSafety.SessionKeepsBlocks` | vireon-node/src/p2p.rs:992-1218 | no such session loses a block |
| `SyncCompletion.MeetingIsShared` | vireon-node/src/p2p.rs:919-942 | discovery settles on a block both chains share, below the peer's tip |
| `SyncCompletion.HeaderPhase` | vireon-node/src/p2p.rs:1076-1115 | headers arrive in rounds of 512 until the whole branch is verified |
| `SyncCompletion.DirectPhase` | vireon-node/src/p2p.rs:1160-1184 | bodies extending our tip arrive in rounds of 128 until the chains are equal |
| `SyncCompletion.StagedPhase` | vireon-node/src/p2p.rs:1185-1215 | bodies of a fork are staged in rounds of 128 and adopted, or refused beyond 2048 |
| `SyncCompletion.SyncCompletes` | vireon-node/src/p2p.rs:882-1218 | against an honest static peer with more work the exchange ends on its chain after 2 + ceil(missing/512) + ceil(missing/128) rounds |
| `SyncCompletion.SyncStalls` | vireon-node/src/p2p.rs:1036-1190 | if a resume height lies above the meeting point or a fork exceeds 2048 blocks, no number of rounds changes our chain or the resume height |
| `SyncCompletion.StallsForever` | vireon-node/src/p2p.rs:1016-1190 | greeting the same peer again, any number of times, stalls again |
| `SyncCompletion.RoundsIsCeiling` | vireon-node/src/p2p.rs:992-1218 | the round count is a ceiling division |
| `SyncCorollaries.ExtensionCompletes` | vireon-node/src/p2p.rs:1160-1184 | a peer that extends our chain is followed to its tip, however far ahead |
| `SyncCorollaries.ForkCompletes` | vireon-node/src/p2p.rs:1185-1215 | a real fork is followed if their branch plus twice our depth stays within the staging limit |
| `SyncObjects.SyncObject.Greeted` | vireon-node/src/p2p.rs:1016-1035 | target remembered or cleared in place, ancestor request sent |
| `SyncObjects.SyncObject.AncestorChosen` | vireon-node/src/p2p.rs:1036-1075 | branch created or dropped in place, resume height honoured |
| `SyncObjects.SyncObject.HeadersReceived` | vireon-node/src/p2p.rs:1076-1115 | branch headers extended in place, then more headers or bodies requested |
| `SyncObjects.SyncObject.SubmitBlocks` | vireon-node/src/p2p.rs:1164-1166 | blocks submitted one at a time; accepted ones stay if a later one fails |
| `SyncObjects.SyncObject.DirectReceived` | vireon-node/src/p2p.rs:1160-1184 | direct extension with its durable resume height |
| `SyncObjects.SyncObject.StagedReceived` | vireon-node/src/p2p.rs:1185-1215 | staging, validation of the candidate and adoption |
| `SyncObjects.SyncObject.BlocksReceived` | vireon-node/src/p2p.rs:1116-1159 | the checks on a body response before it is used |
| `SyncObjects.SyncObject.Handle` | vireon-node/src/p2p.rs:992-1218 | one response handled in place agrees with the transition function in state, request and outcome |
| `Indexes.AppendBlockToTables` | vireon-indexer/src/index.rs:453-568 | the loop over a block's transactions updates all six tables as specified |
| `Indexes.AppendBlocksToTables` | vireon-indexer/src/index.rs:171-274 | the loop over blocks, stopping at a block without coinbase |
| `Indexes.WriteBalances` | vireon-indexer/src/index.rs:276-282 | each ledger account is entered with its balance, in any order |
| `Indexes.ClearBalances` | vireon-indexer/src/index.rs:415-418 | every balance is cleared before the refresh |
| `Indexes.IndexChain` | vireon-indexer/src/index.rs:156-319 | the full rebuild |
| `Indexes.LinksContinue` | vireon-indexer/src/index.rs:393-401 | the window check accepts exactly linked continuations of the tip |
| `Indexes.TryAppendIndex` | vireon-indexer/src/index.rs:357-451 | the append path with all its refusals |
| `Indexes.SampleParentLinks` | vireon-indexer/src/index.rs:571-613 | the walk over up to 17 trailing rows |
| `Indexes.EnsureIndexMatchesChain` | vireon-indexer/src/index.rs:329-354 | the choice between keeping, appending and rebuilding |
| `IndexRefinement.PrefixRemembered` | vireon-indexer/src/index.rs:453-489 | a later ledger reports the same fees and rewards for every earlier height and forgets no account |
| `IndexRefinement.ExtensionIsRebuild` | vireon-indexer/src/index.rs:357-451 | appending the new blocks to the rebuild of any prefix gives the rebuild of the whole chain |
| `IndexRefinement.AppendOutcome` | vireon-indexer/src/index.rs:357-451 | the append path is taken exactly when the indexed chain is a prefix of the current one, and then returns the rebuild |
| `IndexRefinement.EnsureIsRebuild` | vireon-indexer/src/index.rs:329-354 | starting from no index or the rebuild of any earlier accepted chain, the result is the exact rebuild of a chain read during the call, even if the chain changes between its four reads |
| `IndexRefinement.IndexIsExact` | vireon-indexer/src/index.rs:329-354 | on one view of the chain, unchanged, extended, shortened or reorganised, the result equals a full rebuild |
| `IndexRefinement.SampleMeaning` | vireon-indexer/src/index.rs:571-614 | the parent-link sample holds if and only if the indexed tip is the chain's and the last 17 rows carry their block's and parent's hash |
| `IndexRefinement.MatchingTipIsKept` | vireon-indexer/src/index.rs:325-397 | on one view an index whose tip is the chain's is returned unchanged, whatever its rows are |
| `IndexRefinement.FailingSampleIsIgnored` | vireon-indexer/src/index.rs:325-397 | against its comment, a failing sample does not lead to a rebuild: a concrete index with empty tables is kept |
| `IndexRefinement.WatchStaysExact` | vireon-indexer/src/index.rs:616-649 | over any number of polls the stored index is always the exact rebuild of a chain that was read |
| `IndexMeaning.SpendFlow` | vireon-core/src/state.rs:180-195 | a spend takes amount and effective fee from its sender and gives the amount to its recipient; the index's plain addition of the two never wraps |
| `IndexMeaning.BalanceIsNetFlow` | vireon-core/src/state.rs:162-201 | on every accepted chain an account's balance is all it received minus all it parted with |
| `IndexMeaning.OnlyTheSignerSpends` | vireon-core/src/state.rs:122-201 | if an account holds less than after an earlier block, a block since then holds a spend from it signed with a key its address derives from |
| `IndexMeaning.IndexExplainsBalances` | vireon-indexer/src/index.rs:209-250 | the index shows the ledger balance, and its totals explain it exactly while receipts fit 64 bits |
| `IndexMeaning.IndexLocatesTransactions` | vireon-indexer/src/index.rs:209-254 | the index knows exactly the chain's transactions, each under its hash with its block and position |
| `IndexRows.TransactionRows` | vireon-indexer/src/index.rs:759-816 | there is a row for exactly the chain's transactions, with its own block's height and hash, its position and count, the parties, amounts, nonce, fees paid and authorization |
| `IndexRows.RowSaysWhatLeft` | vireon-indexer/src/index.rs:759-816 | amount, burned fee and tip of a spend's row are together what left its sender's balance when it was applied |
| `IndexRows.BlockRows` | vireon-indexer/src/index.rs:233-262 | there is a row for exactly the chain's blocks, under height and hash, with its own and its parent's hash, miner, payout, subsidy, burned fees, tips and transaction hashes |
| `IndexRows.AddressHistory` | vireon-indexer/src/index.rs:209-254 | every address lists exactly the transactions it sent and received and the heights it mined, in chain order, and totals its subsidies |
| `IndexRows.MinedByMeaning` | vireon-indexer/src/index.rs:241-246 | the heights listed are exactly those of the blocks whose coinbase pays the address, ascending |
| `IndexRows.SummaryMeaning` | vireon-indexer/src/index.rs:284-308 | the summary names network, tip, time, block and transaction counts, and splits the cap into emitted and remaining supply |
| `PoolSplits.WorkIgnoresOrder` | vireon-mining-pool/src/store.rs:395-402 | the work per miner does not depend on the order of shares |
| `PoolSplits.FloorAmounts` | vireon-mining-pool/src/store.rs:413-424 | the loop computes every quota and their saturating sum |
| `PoolSplits.RankByRemainder` | vireon-mining-pool/src/store.rs:426-427 | the sort by remainder and address yields the one strict ranking of the miners |
| `PoolSplits.HandOutDust` | vireon-mining-pool/src/store.rs:428-436 | the countdown gives one unit to each of the first miners of the ranking |
| `PoolSplits.LargestBy` | vireon-mining-pool/src/store.rs:437-447 | the running maximum finds the top miner |
| `PoolSplits.AllocateByShareWork` | vireon-mining-pool/src/store.rs:385-449 | maps, sort and countdown compute the specified split for every input, and fail exactly without shares |
| `PoolFairness.FitsWhenTotalFits` | vireon-mining-pool/src/store.rs:417-420 | distributable times total work below 2^128 implies the weaker condition used here |
| `PoolFairness.DustIsSmall` | vireon-mining-pool/src/store.rs:425-425 | the dust is smaller than the number of miners and completes the sum |
| `PoolFairness.SplitIsExact` | vireon-mining-pool/src/store.rs:391-449 | while products fit 128 bits: exactly the distributable amount, each miner the exact share rounded down or one more, larger remainders first, leftover branch never reached |
| `PoolFairness.SplitIsComplete` | vireon-mining-pool/src/store.rs:391-449 | as long as the work total does not stick, exactly the distributable amount is handed out, even where products wrap |
| `PoolFairness.MoreWorkNeverEarnsLess` | vireon-mining-pool/src/store.rs:391-449 | strictly more work never earns less |
| `PoolFairness.SplitIgnoresOrder` | vireon-mining-pool/src/store.rs:391-449 | shares in any order give the same split |
| `PoolFairness.StuckTotalOverpays` | vireon-mining-pool/src/store.rs:403-405 | once the total sticks at 2^128-1 the split can hand out 2 of 1 unit: a concrete case |
| `PoolFairness.WrappedProductsAreUnfair` | vireon-mining-pool/src/store.rs:417-420 | once products wrap, a miner with half the work can receive 1 of 8 units: a concrete case |
| `PoolRuns.TransitionKeepsBooks` | vireon-mining-pool/src/store.rs:136-228 | one block changing status keeps the accounting equations, with the part a clawback missed as shortfall |
| `PoolRuns.MaturityMeaning` | vireon-mining-pool/src/store.rs:136-228 | a block ripens if and only if it is immature, canonical and confirmed; it is orphaned if and only if replaced, or mature, absent and above the tip; otherwise its status stays, and nothing but statuses and accounts changes |
| `PoolRuns.NoPayForReplacedBlocks` | vireon-mining-pool/src/store.rs:136-228 | after a pass no block that the canonical chain contradicts is immature or mature |
| `PoolRuns.VoidingMeaning` | vireon-mining-pool/src/store.rs:232-253 | voiding orphans exactly the immature blocks above the tip |
| `PoolMeaning.WorkIsTrials` | vireon-mining-pool/src/store.rs:385-404 | a miner's work is the sum of two to the bits of his shares, capped at 128 bits |
| `PoolMeaning.RecordShareMeaning` | vireon-mining-pool/src/store.rs:47-61 | a new share goes last with the next id and the oldest make way |
| `PoolMeaning.SharesStayInOrder` | vireon-mining-pool/src/store.rs:47-61 | over every run the stored shares have rising ids and no hash twice |
| `PoolMeaning.EligibleMeaning` | vireon-mining-pool/src/store.rs:88-95 | a round considers exactly the stored shares accepted after the latest block and by now |
| `PoolMeaning.LatestIsAttained` | vireon-mining-pool/src/store.rs:82-87 | the latest block time is that of some recorded block, or zero without any |
| `PoolMeaning.PaidMeaning` | vireon-mining-pool/src/store.rs:82-112 | a block pays the shares since the latest block, or the most recent of them up to the window, or without any the most recent of all; none only if no share was accepted by then |
| `PoolMeaning.RecordBlockMeaning` | vireon-mining-pool/src/store.rs:63-134 | a new block is recorded if and only if its fee fits and a share was accepted by then, with its own figures, fee rounded down, and the split of the rest added to the immature columns |
| `PoolMeaning.BlocksStayDistinct` | vireon-mining-pool/src/store.rs:72-75 | over every run no block is recorded twice |
| `PoolMeaning.PrepareMeaning` | vireon-mining-pool/src/store.rs:255-293 | a batch holds exactly the accounts at or above the minimum, with all they have mature, which moves to pending |
| `PoolMeaning.ConfirmMeaning` | vireon-mining-pool/src/store.rs:295-336 | a batch is confirmed if and only if it is prepared and gets new well-formed transaction hashes; only its items move to paid |
| `Prelude.HexDigits` | vireon-mining-pool/src/store.rs:299-306 | a well-formed transaction hash is 64 characters of 0-9, a-f and A-F |
| `PoolMeaning.CancelMeaning` | vireon-mining-pool/src/store.rs:338-363 | a cancelled batch returns its items from pending to mature and nothing else changes |
| `PoolMeaning.HashesStayUsedOnce` | vireon-mining-pool/src/store.rs:295-336 | over every run no transaction hash stands for two payouts, and only submitted ones have any |
| `PoolRuns.CancelIsConsistent` | vireon-mining-pool/src/store.rs:338-363 | with the books in order, cancelling fails only for an unknown payout |
| `PoolRuns.StepKeepsBooks` | vireon-mining-pool/src/store.rs:63-363 | every operation keeps the accounting equations |
| `PoolRuns.BooksBalance` | vireon-mining-pool/src/store.rs:63-363 | over every run, refused and repeated calls included, and every address: immature, pending and paid equal the immature allocations, prepared items and submitted items; mature plus pending plus paid equal mature allocations plus unclawed shortfall |
| `PoolRuns.NothingSaturates` | vireon-mining-pool/src/store.rs:63-363 | over every run no saturating addition or subtraction on any of the four balance columns saturates |
| `PoolRuns.RewardsFit` | vireon-mining-pool/src/store.rs:116-134 | the run hypothesis follows once the distributable rewards fit 64 bits and the work totals do not stick |
| `PoolRuns.ShareIdsCount` | vireon-mining-pool/src/store.rs:52-53 | share numbering cannot stick in fewer than 2^64 - 1 operations |
| `PoolRuns.FeeWithinReward` | vireon-mining-pool/src/store.rs:76-79 | the fee never exceeds the reward, for every reward, if and only if it is at most 10,000 basis points; above, reward minus fee sticks at zero |
| `PoolRuns.MaturityIsExact` | vireon-mining-pool/src/store.rs:162-164 | the saturating maturity height decides like the exact sum, except at a tip of 2^64 - 1 |
| `PoolRuns.CancelNeverInconsistent` | vireon-mining-pool/src/store.rs:338-363 | over every run the inconsistency error of cancelling is unreachable |
| `PoolRuns.RoundsAreDisjoint` | vireon-mining-pool/src/store.rs:81-109 | a share in the round of one recorded block is in no later round |
| `PoolStores.PoolStore.AcceptShare` | vireon-mining-pool/src/store.rs:45-61 | a known hash is answered idempotently; otherwise the share is numbered, stored and the list trimmed |
| `PoolStores.PoolStore.SharesToPay` | vireon-mining-pool/src/store.rs:81-114 | the round, its cap and its fallback, up to order |
| `PoolStores.PoolStore.AcceptBlock` | vireon-mining-pool/src/store.rs:63-134 | block recorded with its split added to the immature column, or nothing changed |
| `PoolStores.PoolStore.Mature` | vireon-mining-pool/src/store.rs:136-228 | statuses first, collected transitions afterwards: same result as settling block by block |
| `PoolStores.PoolStore.Void` | vireon-mining-pool/src/store.rs:230-253 | immature blocks above the tip are orphaned and counted |
| `PoolStores.PoolStore.Prepare` | vireon-mining-pool/src/store.rs:255-293 | all balances at the threshold move to pending as one batch |
| `PoolStores.PoolStore.Confirm` | vireon-mining-pool/src/store.rs:295-336 | a prepared batch moves from pending to paid under new transaction hashes |
| `PoolStores.PoolStore.Cancel` | vireon-mining-pool/src/store.rs:338-363 | a prepared batch returns to mature; an uncovered item stops it after some covered ones have been released |
| `NonceLeases.StepKeeps` | vireon-miner/src/nonce.rs:64-115 | every atomic step of every thread keeps the allocator invariant |
| `NonceLeases.LeasesTile` | vireon-miner/src/nonce.rs:86-115 | in every interleaving the leases between any two consecutive cursor resets are pairwise disjoint and tile exactly from the reset nonce to where the cursor stood at the next reset, or stands now |
| `NonceLeases.NoNonceSkipped` | vireon-miner/src/nonce.rs:86-115 | every nonce between the reset nonce and the cursor was handed out |
| `NonceLeases.QuietLeasesStayInside` | vireon-miner/src/nonce.rs:64-115 | while resets do not overlap, a lease that spans no reset never passes its window end |
| `NonceLeases.TakeIsExact` | vireon-miner/src/nonce.rs:96-104 | a successful exchange takes what was asked for or what is left below the cap, at least one nonce, and never wraps |
| `NonceLeases.EpochsAreResets` | vireon-miner/src/nonce.rs:61-74 | in every interleaving each epoch but the first starts at the nonce and ends with the window of one call to reset |
| `NonceLeases.GenerationsStayInStep` | vireon-miner/src/nonce.rs:61-74 | in every interleaving the generation advances once per advance of the work generation, apart from resets between the two |
| `NonceLeases.SpanningLeaseEscapes` | vireon-miner/src/nonce.rs:86-115 | a lease that spans a reset can pass the new window end: a concrete interleaving |
| `NonceLeases.OverlappingResetsMix` | vireon-miner/src/nonce.rs:64-75 | two overlapping resets can pair one's cursor with the other's window: a concrete interleaving |
| `Samples.GenesisIsValid` | vireon-core/src/chain.rs:76-98 | a concrete genesis block is an accepted chain, so the theorems about accepted chains speak of something |
| `Samples.GrowIsPlain` | vireon-core/src/chain.rs:76-98 | coinbase-only chains of every length up to 7,000 blocks are accepted |
| `Samples.TemplateOutcomes` | vireon-node/src/devnet.rs:478-595 | a concrete node accepts the block mined from its own template, except on a genesis whose coinbase carries the nonce 1: there the template repeats that coinbase and is refused |
| `SampleSelections.PassLimitBites` | vireon-node/src/mempool.rs:253-281 | 65 spends of one sender with tips rising with the nonce: 64 passes select 64, and the one left over could still be added |
| `SampleWork.ShorterChainWins` | vireon-core/src/chain.rs:40-58 | concrete Devnet chains: three blocks of difficulties 4, 4, 8 beat four of difficulty 4, from either side |
| `SampleForks.AheadIsHonest` | vireon-node/src/p2p.rs:882-1218 | concrete nodes meet the hypotheses of sync completion |
| `SampleForks.LongForkStalls` | vireon-node/src/p2p.rs:1185-1190 | a concrete honest peer whose fork of 2049 blocks cannot be followed |
| `SampleForks.PartialSyncStalls` | vireon-node/src/p2p.rs:1036-1115 | a run of ordinary messages, one of two blocks received before the peer disappears, after which an honest peer with more work on a two-block fork cannot be followed because of the resume height alone |

## Left out

- TemplateSelection.SelectMeaning: claims nothing about what could still be added once more than 64 candidates were offered and 64 selected, because the source stops after 64 passes; `SampleSelections.PassLimitBites` is a case where it could.
- PoolStores.PoolStore.Cancel: does not say which covered items were released before an uncovered one was met, because that depends on address order; `PoolRuns.CancelNeverInconsistent` shows that it does not happen.
- MempoolMethods.EnforceSenderCap: removes the surplus in one pass instead of index by index from the back; the resulting list is the same.
- NonceLeases.Step: the retry loop is modelled by its atomic steps only, since a weak exchange may fail without bound; there is no sequential method for it.
- The store commit and the pool update that follows it in one operation are taken as one event of a run; interleavings of other operations between the two are not modelled.
- FiroPoW, Keccak, Blake3, SHA-256, ed25519, Bech32m and key derivation: uninterpreted. The proof-of-work seed is a record of its fields, not their bytes, and the header serialisation used on the wire is not modelled.
- Error values: kinds only, without payloads, and a few kinds are merged (all handshake errors of a response, all refusals of the pool's configuration checks).
- Hex, decimal and JSON renderings: hashes and numbers stand for their text; texts a peer may send instead are kept as opaque values.
- Blank strings are recognised for ASCII whitespace only; heights do not wrap at 2^64.
- Genesis review and approval, configuration files, checkpoints beyond the check that they match, CLI, RPC and status reports.
- SQLite, file locks, migration, backups and I/O failures; `detached_at` and `source_tip_hash` of archived blocks.
- libp2p swarm, gossip, peer tables, reputation, bans and mining presence.
- Labels and constant strings of index records, the order of address and payout lists, and unreadable index files.
- Pool shares keep only the fields that accounting reads; HTTP handlers, vardiff, hashrate views and upstream lookups are not modelled.
- The miner's main loop, device backends and hashrate estimates.
