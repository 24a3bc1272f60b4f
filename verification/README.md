# Skalacoin consensus core, modelled in Dafny

Skalacoin is an account-model proof-of-work node. This project models its consensus core and proves
what every run of it keeps.

The project has two layers. The first is pure: the ledger passes (`Ledger`), targets and work
(`Targets`), emission (`Emission`), the DAG-size votes (`DagVotes`), and the state machine over
blocks, balance sheet, supply, reward and mempool (`Protocol`), with theorems about branch swaps
(`Reorg`) and whole runs (`History`, `Mempool`), about the orphan pool's branches (`Branches`), the runs that
attach them (`AttachRuns`) and what those runs must try (`Adoption`). `RetargetLaw`, `Acceptance` and
`PowBinding` say in elementary terms what a retarget does, what exactly is accepted, and what the
proof-of-work hash depends on. The second is imperative, in the source's own form: loops
and classes that update their fields in place, each proved to compute what the first layer says. These are
`BlockChecks`, `Retargeting`, `ChainState` (the chain object, with header-only blocks and the copy on
disk), `UInt256` and `CompactBytes` (limbs and bytes), `HashTable` (khash, over `Probing`),
`OrphanPool`, `ProofOfWork`, `Framing`, `BlockWire` (over `ByteOrder`) and `Builder`. `Limits` proves
where restoration ends; `Witnesses` holds inputs at which the source's promises fail, on states that mining
blocks reaches and out of pools that the receive path can fill.

How the source's notions appear:

- SHA-256, Blake2b, signature checks and the key-to-address map are function values (`Crypto`,
  `Blake2b`), so every theorem holds for all of them. Where distinct transactions must have distinct
  hashes, the hypothesis is `NoCollisions` over the transactions of the run's own blocks.
- Addresses, hashes, keys and signatures are numbers of the right width. C integers are ranges of
  `int`; every wrap-around the code relies on or suffers from is written out with `%`.
- `State(blocks, sheet, supply, reward, pool)` is what a node holds. `Add`, `Rollback` and `Replace` are
  the three chain operations; `Run` is any sequence of them from an empty chain.
- `LedgerInv` says that the blocks are a chain the node accepts and that balances, replay guards and
  supply are those of applying it once. `FullInv` adds that every block was paid, and the next one will
  be, the reward that only ever appending this chain produces.
- The clock, the initial-download verdict and the reorg delay reach the model as one boolean gate on
  each swap; the success of an allocation is an input of the DAG build.

## Where the code and its promises differ

- `Chain_ReplaceBranch` promises that a failed swap restores the reward (include/block/chain.h:76).
  Outside phase one the reward depends on the mutable `g_currentReward`. A rollback restores the reward
  exactly when the height is memoryless (phase one, or an epoch boundary) or the block there was mined
  at the reward now in force (`RollbackRestoresIff`). A failed swap restores everything exactly when the
  same holds, as long as the candidate stays within one epoch (`FailedSwapWithinEpoch`); a candidate that
  had passed an epoch boundary when it failed carries that boundary's reward instead
  (`FailedSwapRestoresIff`). After phase one every rollback over an epoch boundary loses the reward, and
  every failed swap there truncates the chain (`RollbackAcrossEpochsForgets`, `SwapAcrossEpochsTruncates`);
  `RestorationCanFail` reaches such a state, with a pool of three blocks whose collected branch does it.
- So an attach run can lower the cumulative work. It cannot if the chain's reward is its own, the pooled
  blocks name their recipients, and either all pooled blocks lie in the tip's epoch below its last two
  heights, or the chain would be in phase one even with all pooled coinbases minted at the lowest pooled
  height (`SafeRuns`); a caller can check this before the run.
- A transaction with a second amount and no second recipient passes `Transaction_Verify`, and its
  block then fails after it was pushed. `AppendCompletesIff` proves that this is the only way to fail
  after the push, and that it always fails; `NoRecipientSticks` and `SomeBlockGetsStuck` give such
  blocks. Once one is on the chain, a later swap out of an ordinary pool can lose work
  (`StuckBlockLosesWork`).
- The rounding sum of the emission curve wraps in 64 bits. `CurveExact` gives exactly when the result is still
  the intended one, `CurveCanWrap` an input where it is not; `EmissionMatchesCurve` proves that no run
  reaches such an input.
- `OrphanPool_CollectBranchLocked` is described as building the longest branch
  (src/nets/orphan_pool.c:220). It takes the first child each time. `NotAlwaysLongest` is a pool of three
  blocks for which that is too short; `OnlyBranchIff` proves that every branch of the pool is part of the
  collected one exactly when no collected block has a sibling, and `LongestIff` that it is the longest
  exactly when no sibling of a collected block starts a longer branch than the collected one has left.
- Pruning takes out the blocks the chain already holds only after the attach loop has ended. Such a
  block may have been collected in place of a rival, so pruning can uncover a branch that the loop would
  have adopted (`PruningUncovers`). If no pooled block is on the chain before the call, none is after
  it, pruning removes nothing, and nothing adoptable is left (`AttemptAttach`).
- The miner does not check that the fees it sums fit 64 bits, nor that pooled timestamps are new and
  distinct. `BuiltBodyIff` lists what has to hold for its block to be accepted, `SomeBodyIsRefused` gives
  a mempool of two payments whose block is not.

## Model

| member | source | states |
|---|---|---|
| Ledger.LedgerTotal | src/block/chain.c:512-548 | the ledger pass of a block changes the sum of all balances by its coinbases minus its fees |
| Ledger.ReplayAgrees | src/block/chain.c:759-839 | the rollback replay of a block that the ledger pass accepts ends at the same balances and guards |
| Ledger.SimulationSound | src/balance_sheet.c:281-340 | if the overlay accepts every spend of a block, the later debit/credit pass cannot fail, with self-payments, chained spends and coinbase anywhere, and ends at the simulated balances plus the coinbase credit |
| Ledger.MissingRecipientFails | src/block/chain.c:535-540 | a second amount without a second recipient always makes the ledger pass fail |
| Ledger.LedgerLastTx | src/block/chain.c:102-125 | after a block each account's guard is the maximum of the old guard and its latest spend in the block |
| Targets.RetargetBounds | src/block/chain.c:1810-1899 | one retarget at most doubles the target, at least halves it up to one unit of the mantissa, moves in the direction of the elapsed time and keeps it normal |
| Targets.ReachableTargetNormal | src/block/chain.c:1901-1910 | every target reachable from genesis decodes to at least 1, whatever the timestamps |
| Targets.TargetIsLocal | src/block/chain.c:1901-1910 | the target depends only on the headers below the last boundary |
| Targets.TargetForPrefix | src/block/chain.c:1901-1910 | the target for a height is the same seen from any longer chain |
| Targets.TargetValueBound | include/utils.h:99-131 | a decoded compact target is below 2^255 |
| Targets.WorkAntitone | src/block/chain.c:1912-1944 | smaller targets never have less work; work lies between 2 and 2^256 |
| Targets.WorkIsExpectedHashes | src/block/chain.c:1912-1944 | the work of every target that decodes above 0 is how often the target plus one goes into 2^256, and no other target has work |
| RetargetLaw.CompactMeaning | include/utils.h:99-131 | the value of every compact form by exponent, mantissa and sign, and which forms have none |
| RetargetLaw.RetargetScales | src/block/chain.c:1848-1898 | for every normal target and span the new value is the old one times the span, limited to T/2..2T, over T = 345,510,000 ms, in whole steps of the resulting mantissa, with the floor at one step and the saturation at exponent 32 exact |
| RetargetLaw.RetargetExtremes | src/block/chain.c:1848-1870 | off the ends of the range a span of at least 2T doubles the value up to a step and one of at most T/2 halves it |
| RetargetLaw.NormalUnique | src/block/chain.c:1871-1898 | two normal compact forms of one value are equal, so the scaled value fixes the result |
| RetargetLaw.TargetForLaw | src/block/chain.c:1810-1910 | initial target below 3840, unchanged between boundaries, and at each boundary rescaled by the time between the headers at height - 3840 and height - 1 |
| Emission.CurveExact | include/constants.h:257-307 | the computed phase-one curve is max(remaining >> 20, ceil(remaining / blocksLeft)) exactly when the 64-bit sum does not spoil it |
| Emission.CurveCanWrap | include/constants.h:257-307 | a supply and height at which the wrapped sum gives a different reward |
| Emission.EmissionMatchesCurve | include/constants.h:257-307 | on every run, with any fees, the phase-one reward is the intended curve and never exceeds what remains |
| Emission.PhaseOneIsInitial | include/constants.h:301-303 | phase one is never re-entered once left and the reward never rose while in it |
| Emission.CapReached | include/constants.h:257-307 | by height 3,000,000 every run has a supply of at least 2^64 - 1 |
| Emission.HiddenStateMatters | include/constants.h:214-250 | the reward is independent of the hidden current reward exactly in phase one and at epoch boundaries |
| Emission.HiddenRewardExample | include/constants.h:214-250 | two hidden rewards that give two answers at the same supply and height |
| Emission.RewardByCase | include/constants.h:214-307 | the reward by case with literal constants: the curve above the tail emission, 15/1000 of the supply over 350,000 blocks at an epoch boundary (and what is left of it when it leaves 64 bits), else the reward in force or the tail emission |
| DagVotes.TableSurvivesAppend | src/block/chain.c:2036-2116 | a memo table that equals the recurrence still does after any append |
| DagVotes.DagSizeInBand | include/constants.h:176-202 | every epoch's size is in the band and one step at most from the last |
| DagVotes.BandIsTheWholeBand | include/constants.h:176-202 | the band is every whole step between the bounds, all multiples of a lane |
| DagVotes.RestrictingNeverGrows | src/block/chain.c:2036-2116 | turning any votes from grow to hold to down never raises the size of any epoch |
| DagVotes.SizeRule | src/block/chain.c:2055-2112 | over the sets of an epoch's voters: one step down exactly when above 2 GiB and more than 7/8 of the last two epochs voted down, one step up exactly when below 8 GiB and at most half voted hold or down, else equal |
| DagVotes.SeedRule | src/block/chain.c:2125-2151 | the seed of every height of an epoch is the hash of the last block before the epoch, zero in the first |
| Protocol.MoneyConserved | src/block/chain.c:418-456 | on every accepted chain balances plus all fees ever paid equal the supply, which is below 2^128 |
| Protocol.ReplayMatchesChain | src/block/chain.c:759-839 | replaying any accepted chain gives the sheet that appending it gave |
| Protocol.AppendCompletesIff | src/block/chain.c:485-548 | a block that passed validation completes exactly when it names its second recipients; it is pushed either way |
| Protocol.AppendIsAtomic | src/block/chain.c:296-585 | an append completes exactly when header and body checks pass, and otherwise changes nothing |
| Protocol.AppendKeepsLedger | src/block/chain.c:565-575 | an accepted block keeps the ledger invariant and raises the sum of balances by exactly the base reward |
| Protocol.RollbackKeepsLedger | src/block/chain.c:685-846 | a rollback to any height leaves the ledger of the kept prefix |
| Protocol.AddAllKeepsPrefix | src/block/chain.c:1222-1229 | applying a branch never touches the blocks below it, and on success ends at the ledger of the whole |
| Protocol.ReplaceKeepsLedger | src/block/chain.c:1036-1264 | any swap, even one that fails partway on a malformed block, keeps the ledger invariant |
| Reorg.ReaddIsIdentity | src/block/chain.c:1246-1252 | re-adding the dropped blocks of a chain succeeds and ends at that chain's state |
| Reorg.RollbackRestoresIff | src/block/chain.c:685-846 | a rollback restores the reward exactly when the height is memoryless or the block there was mined at the tip's reward; ledger and supply always |
| Reorg.RollbackIsReplay | src/block/chain.c:685-846 | under that condition a rollback equals only ever having added the kept blocks, and re-adding the rest is the identity |
| Reorg.FailedSwapRestoresIff | src/block/chain.c:1236-1252 | a swap that fails at its block k restores blocks, sheet, supply and reward exactly when the fork is memoryless or the reward after k blocks is the one the block at the fork was mined at; otherwise the chain ends at the fork |
| Reorg.UndoneReward | src/block/chain.c:1236-1244 | off memoryless forks that reward is the tip's, or the one set by the last epoch boundary the candidate passed |
| Reorg.FailedSwapWithinEpoch | src/block/chain.c:1236-1252 | for a candidate within one epoch a failed swap restores everything exactly when the fork is memoryless or the block there was mined at the reward now in force |
| Reorg.AdoptedIff | src/block/chain.c:1217-1234 | a successful swap is prefix plus candidate, and pays every block its due exactly under the same condition |
| Reorg.SwapIsAllOrNothing | src/block/chain.c:1036-1264 | a swap that its checks refuse changes nothing; an allowed one, under a condition known before the call: true means prefix plus candidate with strictly more cumulative work, false means blocks, sheet, supply and reward exactly as before |
| Reorg.SameEpochIsRecoverable | include/constants.h:214-250 | every fork in the tip's own epoch is recoverable, in phase one or after it |
| Reorg.ChainFollowsEmission | src/block/chain.c:565-575 | an accepted chain's supply and reward are those of the emission recurrence with its fees |
| Reorg.PhaseOneIsMemoryless | include/constants.h:301-303 | a chain now in phase one has a memoryless height at every fork point |
| History.GuardIsLatestOnChain | src/block/chain.c:804-810 | each account's guard is the maximum timestamp of its spends on chain |
| History.HistoryIncreases | src/block/chain.c:980-1030 | each sender's timestamps strictly increase in chain order |
| History.NothingReplayed | src/block/chain.c:460-483 | no transaction appears twice on an accepted chain |
| History.AddLosesNothing | src/block/chain.c:550-563 | an append, even one that fails after the push, loses no known transaction and keeps chain and mempool disjoint |
| History.RollbackLosesNothing | src/block/chain.c:715-737 | a rollback loses no known transaction |
| History.ReplaceLosesNothing | src/block/chain.c:1217-1252 | a swap, failed or not, loses no known transaction |
| History.ReplaceKeepsApart | src/block/chain.c:1217-1252 | a swap keeps chain and mempool disjoint, if no two transactions of chain and candidate have the same hash |
| History.EveryRun | src/block/chain.c:296-585 | after every run of appends, rollbacks and swaps the ledger invariant holds and, if no two transactions of the run's blocks have the same hash, nothing is both on chain and pooled |
| History.NothingLost | src/block/chain.c:550-563 | no run of appends, rollbacks and swaps, from any state and with any blocks, loses a transaction from chain and mempool |
| Mempool.PoolIsGenuine | src/block/chain.c:715-737 | after every run from any state the mempool holds only spends that were pooled or in a block, never a coinbase, each under its own hash |
| Mempool.DroppedIsPooled | src/block/chain.c:715-737 | a spend that a rollback drops is in the mempool under its hash, unless another transaction has that hash |
| History.RunSafety | src/block/chain.c:512-575 | on every run: conservation, supply below 2^128, guards are the latest spends, timestamps increase |
| History.SteadyRuns | src/block/chain.c:565-575 | over every run whose rollbacks and allowed swaps meet their conditions the reward too is the one the present chain determines |
| History.PhaseOneRuns | include/constants.h:301-303 | every run in phase one meets them |
| Acceptance.SelectionIsGreedy | src/balance_sheet.c:281-340 | a candidate is selected exactly when its sender authorised it and the balances left by those before it cover amounts and fee |
| Acceptance.AllAcceptedIff | src/balance_sheet.c:281-340 | the overlay accepts a whole list exactly when each spend is authorised and payable in turn, and then shows each balance with the list's net effect |
| Acceptance.BodyOkIff | src/block/chain.c:368-483 | a body passes every check exactly when its spends are authorised, payable in turn and in order, and its one coinbase pays the reward and all fees |
| Acceptance.AppendIff | src/block/chain.c:296-585 | a block joins exactly when its header is good, its body is good and second recipients are named; without a good header and body nothing changes |
| Acceptance.UnauthorisedIsRefused | src/block/transaction.c:65-108 | from any state, a block with one spend that lacks a valid signature, the sender's own key, version 1, a fee within its amount or proper recipients is refused and changes nothing |
| Acceptance.RunIsAuthorised | src/block/transaction.c:65-108 | on every run, with no hypothesis, every spend on the chain was authorised and every block has exactly one coinbase |
| Acceptance.AcceptedBodies | src/block/block.c:332-396 | on every accepted chain every spend was authorised and each block's one coinbase pays the reward plus the fees |
| Acceptance.AcceptedHeaders | src/block/chain.c:304-366 | on every accepted chain blocks are numbered and linked, meet their targets on their epoch's DAG, and targets follow the retarget law over the chain's own timestamps |
| Acceptance.BalanceIsEarned | src/block/chain.c:512-548 | on every accepted chain a balance is what the account received and mined less what it paid |
| Acceptance.AllowedIff | src/block/chain.c:1055-1158 | a swap is let through exactly when the gate is open, numbers and hashes join from the fork up, every block has work and the candidate's sum is strictly more |
| Acceptance.SwapSucceedsIff | src/block/chain.c:1036-1264 | a swap succeeds exactly when the gate is open and prefix plus candidate is a chain that appending would have built, at its due rewards, with more work |
| BlockChecks.GetSimEntry | src/balance_sheet.c:7-47 | the overlay shows the simulated entry, else the sheet's, else a zero one, and remembers it |
| BlockChecks.ApplyCandidate | src/balance_sheet.c:70-139 | one candidate's simulation, including what a refused one leaves behind |
| BlockChecks.SelectSpendable | src/balance_sheet.c:281-340 | the loop accepts what the specification selects, with 64-bit fees |
| BlockChecks.ValidateCoinbaseAndFees | src/block/block.c:332-396 | accepts exactly one coinbase of the expected amount, all verified, fees within 64 bits, and returns the fee sum |
| BlockChecks.RespectsSenderOrdering | src/block/chain.c:980-1030 | the double loop decides exactly: newer than the ledger and strictly increasing per sender |
| BlockChecks.BranchIsLinked | src/block/chain.c:929-964 | accepts exactly branches linked by hash over consecutive heights |
| BlockChecks.SumWork | src/block/chain.c:1946-1997 | the work of a range, or none when a target has none or the sum overflows |
| Retargeting.NormaliseLoops | src/block/chain.c:1872-1898 | the two normalisation loops end and give the normal form |
| Retargeting.ComputeTargetAtHeight | src/block/chain.c:1810-1899 | the boundary computation with its clamps and early exits |
| Retargeting.GetTargetForHeight | src/block/chain.c:1901-1910 | replaying every boundary gives the recursive target |
| Retargeting.VerifyTargets | src/main.c:679-692 | the verifier's incremental target accepts exactly the headers whose target is the replayed one |
| ChainState.Chain.ApplyLedger | src/block/chain.c:512-548 | the in-place second pass, stopping at the first failure |
| ChainState.Chain.CreditAddress | src/block/chain.c:75-100 | credits an account or fails on overflow |
| ChainState.Chain.DebitAddress | src/block/chain.c:102-125 | debits an account, refusing a missing or short one, and advances its guard |
| ChainState.Chain.RemoveMined | src/block/chain.c:550-563 | mined spends leave the mempool |
| ChainState.Chain.ReturnToPool | src/block/chain.c:715-737 | a dropped block's spends return to the mempool |
| ChainState.Chain.Borrow | src/block/chain.c:136-168 | borrowing yields the transactions the uncompacted chain holds, wherever they are |
| ChainState.Chain.Save | src/block/chain.c:1322-1418 | saving writes the full chain and leaves every block header-only, invisibly |
| ChainState.Chain.CountEpochVotes | src/block/chain.c:2064-2080 | the vote loop counts an epoch's hold and down votes |
| ChainState.Chain.FoldDagEpoch | src/block/chain.c:2055-2112 | one fold extends a correct memo table by one correct entry |
| ChainState.Chain.ExtendDagEpochs | src/block/chain.c:2036-2116 | the memo is extended exactly as far as complete epochs allow and always equals the recurrence |
| ChainState.Chain.DagParams | src/block/chain.c:2153-2189 | size and seed for a height are those of the recurrence from scratch |
| ChainState.Chain.CheckHeader | src/block/chain.c:304-366 | accepts exactly headers at the next height, linked, with valid work at the required target |
| ChainState.Chain.CheckBody | src/block/chain.c:368-483 | accepts exactly bodies that pass simulation, coinbase and ordering rules |
| ChainState.Chain.AddBlock | src/block/chain.c:296-585 | performs the pure append on the chain seen through compaction; the memo stays right |
| ChainState.Chain.RebuildLedger | src/block/chain.c:750-839 | replaying every kept block rebuilds sheet and supply |
| ChainState.Chain.RollbackTo | src/block/chain.c:685-846 | performs the pure rollback; returned transactions, ledger, supply, reward and memo |
| ChainState.Chain.RecomputeRuntimeState | src/block/chain.c:170-205 | recomputes the same supply as the appends, refusing on overflow without a change |
| ChainState.Chain.Snapshot | src/block/chain.c:1160-1194 | the snapshot is the full suffix, compacted or not |
| ChainState.Chain.CheckSwap | src/block/chain.c:1055-1158 | the swap goes ahead exactly when linked, allowed by the gate and strictly heavier |
| ChainState.Chain.ReplaceBranch | src/block/chain.c:1036-1264 | performs the pure swap in every outcome |
| ChainState.Chain.PerformAll | src/block/chain.c:1322-1418 | after any sequence of appends, rollbacks, swaps and saves the state is that of the sequence without the saves, and every header-only block is on disk |
| UInt256.AddU64 | include/uint256.h:22-36 | 256-bit addition of a word with its overflow flag |
| UInt256.Add | include/uint256.h:42-56 | limb addition with carry gives the sum modulo 2^256 and its overflow |
| UInt256.Subtract | include/uint256.h:83-103 | exact difference, or refusal without a change |
| UInt256.Compare | include/uint256.h:109-115 | the order of the values |
| UInt256.ShiftIn | include/uint256.h:157-181 | the remainder's shift, and exactly which bit it would lose |
| UInt256.Divide | include/uint256.h:157-181 | restoring division gives the floor quotient for every nonzero denominator, also above 2^255 |
| UInt256.DividedNext | include/uint256.h:157-181 | the shifted remainder never exceeds the numerator's prefix, so no bit is lost |
| UInt256.BringDown | include/uint256.h:157-181 | the remainder becomes exactly twice itself plus the numerator's next bit |
| CompactBytes.DecodeCompactTarget | include/utils.h:99-131 | the 32 bytes written are the compact target's value, refused exactly when it has none |
| CompactBytes.CompareHashToTarget | include/utils.h:82-97 | byte comparison is the comparison of the 256-bit values |
| CompactBytes.FromBigEndian | include/uint256.h:125-142 | the limbs hold the value of the bytes |
| CompactBytes.Complement | include/uint256.h:144-151 | the complement is 2^256 - 1 minus the value |
| CompactBytes.ComputeBlockWork | src/block/chain.c:1912-1944 | work is exactly floor(2^256 / (target + 1)), defined exactly when the target is at least 1 |
| CompactBytes.DivideLimbs | include/constants.h:214-250 | long division over limbs gives the floor quotient |
| CompactBytes.EpochInflation | include/constants.h:214-250 | the limb loops compute 15 supplies modulo 2^256 over 1000 epochs' blocks, lowest 64 bits |
| Probing.ProbeNext | include/khash/khash.h:236-239 | the step loop visits the triangular probes |
| Probing.ProbesDistinct | include/khash/khash.h:229-242 | over a power of two the first n triangular probes are distinct |
| Probing.ProbesCover | include/khash/khash.h:229-242 | they visit every bucket |
| HashTable.Table.Get | include/khash/khash.h:229-242 | finds exactly the live keys, with their values |
| HashTable.Table.FindSlot | include/khash/khash.h:318-334 | the key's bucket, or a free one on the key's own probe path |
| HashTable.Table.Put | include/khash/khash.h:306-347 | adds the key, keeps every other entry, and reports whether it was present |
| HashTable.Table.Delete | include/khash/khash.h:348-354 | removes exactly the entry in the bucket |
| HashTable.Table.Expand | include/khash/khash.h:309-317 | a full table is rehashed or grown so that a bucket stays empty |
| HashTable.Table.Resize | include/khash/khash.h:243-305 | any requested size keeps the map; too small a size changes nothing |
| HashTable.Relocate | include/khash/khash.h:269-292 | the kick-out chain ends and loses no entry |
| HashTable.KickOut | include/khash/khash.h:282-285 | one kick-out swaps an unmoved entry out and a moved one in |
| HashTable.RehashAll | include/khash/khash.h:268-293 | after the sweep every entry is on its new probe path |
| HashTable.Table.Insert | src/txmempool.c:62-84 | the map with one binding changed |
| HashTable.Table.Lookup | src/txmempool.c:86-103 | the map's value, or none |
| HashTable.Table.Remove | src/txmempool.c:190-206 | the map without the key, and whether it was there |
| HashTable.Table.Perform | include/khash/khash.h:229-354 | any sequence of put, delete and resize computes the finite map's |
| AttachRuns.AddNeverLowersWork | src/block/chain.c:296-585 | an append changes nothing or raises the work, accepted or stuck |
| AttachRuns.AttachNeverLowersWork | src/nets/orphan_pool.c:553-584 | no run of appends and swaps whose allowed swaps meet their conditions lowers cumulative work, and one that attaches anything raises it |
| AttachRuns.UndisturbedWork | src/nets/orphan_pool.c:553-584 | the same for every attach run that stays in phase one, over a pool that names its recipients |
| AttachRuns.EpochRuns | src/nets/orphan_pool.c:553-584 | every run out of a pool inside the tip's epoch meets them |
| AttachRuns.DeepRuns | src/nets/orphan_pool.c:553-584 | every run meets them if all pooled coinbases at the lowest pooled height still leave the chain in phase one |
| AttachRuns.SafeRuns | src/nets/orphan_pool.c:553-584 | under either condition, checked before the run, no run lowers the work, and one that attaches anything raises it |
| AttachRuns.AppendsRaiseWork | src/nets/orphan_pool.c:399-456 | extending the tip raises the work by every block attached, with no hypothesis on pool or chain |
| AttachRuns.FruitlessSwaps | src/nets/orphan_pool.c:462-547 | a pass whose swaps all fail leaves chain, sheet, supply and reward alone, if its allowed swaps meet their conditions |
| Adoption.CollectedUnique | src/nets/orphan_pool.c:227-311 | from one parent the pool collects one branch |
| Adoption.FruitlessWalk | src/nets/orphan_pool.c:470-543 | when a steady walk over every fork with open gates adopts nothing, no collected branch is allowed and applies in full |
| Adoption.NothingHeavier | src/nets/orphan_pool.c:458-461 | then at every recoverable fork no collected branch makes a heavier chain that appending would have built at its due rewards |
| Adoption.SwapBlocks | src/block/chain.c:1180-1252 | every swap leaves kept prefix plus candidate when it succeeds and a prefix of the old chain when it fails |
| Branches.CollectedIsFollowed | src/nets/orphan_pool.c:227-311 | the branch of first children follows hash links over consecutive heights and cannot be extended from the pool |
| Branches.OnlyBranchIff | src/nets/orphan_pool.c:219-226 | every branch of the pool is part of the collected one exactly when no collected entry has a sibling |
| Branches.LongestIff | src/nets/orphan_pool.c:219-226 | the collected branch is the longest exactly when no sibling of a collected entry starts a longer branch than the collected one has left |
| Branches.LongestIfSoleChildren | src/nets/orphan_pool.c:219-226 | the collected branch is the longest if no two entries share height and parent |
| Branches.NotAlwaysLongest | src/nets/orphan_pool.c:219-226 | a pool of three entries whose collected branch has one block although one of two exists |
| OrphanPool.Pool.FindByHash | src/nets/orphan_pool.c:56-70 | the entry with a hash, or none has it |
| OrphanPool.Pool.EvictOldest | src/nets/orphan_pool.c:74-96 | the entry inserted first goes |
| OrphanPool.Pool.MakeRoom | src/nets/orphan_pool.c:122-126 | the oldest entries go until one more fits |
| OrphanPool.Pool.Insert | src/nets/orphan_pool.c:98-143 | duplicates are ignored; otherwise the oldest entries make room and the pool stays within 512 distinct hashes |
| OrphanPool.Pool.FindChild | src/nets/orphan_pool.c:188-217 | the first entry that extends the hash at the height, or none does |
| OrphanPool.Pool.CollectBranch | src/nets/orphan_pool.c:227-311 | ends with the branch of first children and its earliest observation |
| OrphanPool.Pool.DropBranch | src/nets/orphan_pool.c:530-534 | exactly the entries of the branch go |
| OrphanPool.Pool.Drop | src/nets/orphan_pool.c:175-182 | exactly the entry with the hash goes |
| OrphanPool.Pool.PruneStale | src/nets/orphan_pool.c:316-393 | exactly the entries the chain already holds go, and the pool is as it was if there are none |
| OrphanPool.Pool.ExtendTip | src/nets/orphan_pool.c:399-456 | every operation appends a pooled block that extends the tip at that time; ends because each round removes an entry, leaves none that extends the tip, and removes none that was not offered to the chain |
| OrphanPool.Pool.TryAdopt | src/nets/orphan_pool.c:462-547 | each operation swaps in what the pool collects at its fork, forks going down; if nothing is adopted, a steady run tried every fork of the chain with what is collected there; if something is, every shallower fork was tried and refused, and exactly the adopted branch leaves the pool |
| OrphanPool.Pool.AttemptAttach | src/nets/orphan_pool.c:553-584 | ends because each productive pass shrinks the pool; only offered or adopted blocks leave before pruning; from a safe pool it never lowers the work, raises it when it attaches, leaves nothing that extends the tip and, when the penalty held nothing back (always if forced), no fork of the final chain with a collected branch that could be adopted |
| ProofOfWork.LaneOfDag | src/autolykos2/autolykos2.c:165-186 | lane i of a built DAG is the half digest the light path derives |
| ProofOfWork.HeavyIsLight | src/autolykos2/autolykos2.c:372-447 | the hash over a DAG built from a seed equals the light hash for that seed and size |
| ProofOfWork.LightAnswersIff | src/autolykos2/autolykos2.c:412-447 | the light path answers exactly for whole lanes that fit 32 bits |
| ProofOfWork.AcceptanceIsTheVerdict | src/block/chain.c:342-357 | every size the votes can produce has a light hash, so block acceptance is the verdict |
| ProofOfWork.PowContext.DagAllocate | src/autolykos2/autolykos2.c:293-312 | a zeroed buffer of the size, or nothing changed |
| ProofOfWork.PowContext.DagGenerate | src/autolykos2/autolykos2.c:328-358 | the loop fills the whole buffer with the seed's lanes |
| ProofOfWork.PowContext.EnsureDag | src/block/block.c:50-85 | a true answer leaves a usable DAG; a failed build leaves none |
| ProofOfWork.PowContext.Shutdown | src/block/block.c:40-48 | no DAG is usable afterwards |
| ProofOfWork.PowContext.HashCore | src/autolykos2/autolykos2.c:188-262 | 32 rounds of lanes XORed in place, then the final digests; none if a lane is out of the buffer |
| ProofOfWork.PowContext.PowHashHeavy | src/block/block.c:87-113 | answers exactly with a usable DAG, and then with the light hash |
| ProofOfWork.PowContext.PowHashLight | src/block/block.c:115-128 | the light hash |
| ProofOfWork.PowContext.HasValidProofOfWork | src/block/block.c:253-278 | the verdict depends on header, size and seed only, never on the DAG's state, and fails closed |
| ProofOfWork.PowContext.RunThenJudge | src/block/block.c:50-128 | after any sequence of builds, failed builds, shutdowns and seed changes the heavy path answers exactly for the DAG left ready, with the light hash, and the verdict is that without any DAG |
| PowBinding.AccumulatorBits | src/autolykos2/autolykos2.c:207-228 | each bit of the accumulator is the parity of that bit over the rounds' lanes, each lane chosen by the first four digest bytes, little-endian, modulo the lane count |
| PowBinding.FinishBinds | src/autolykos2/autolykos2.c:230-249 | equal final digests come from equal header bytes, nonce, height and accumulator, unless the digest collides on what was digested |
| PowBinding.LightHashBinds | src/autolykos2/autolykos2.c:412-447 | equal light hashes come from the same header and from lanes with the same exclusive or |
| PowBinding.SeedEntersTheHash | src/autolykos2/autolykos2.c:230-249 | a digest and two seeds under which every header has two different hashes |
| Framing.ParseSplit | src/tcpd/tcpconnection.c:104-182 | parsing a stream in two pieces gives the frames, remainder and verdict of the whole |
| Framing.FramesRoundTrip | src/tcpd/tcpconnection.c:210-227 | the decoder inverts the encoder on every list of payloads that fit |
| Framing.ParseIsExact | src/tcpd/tcpconnection.c:104-182 | an accepted stream is the encoding of its frames followed by an incomplete one |
| Framing.Connection.TakeHeader | src/tcpd/tcpconnection.c:112-154 | header bytes, and what they decide once complete |
| Framing.Connection.DecideHeader | src/tcpd/tcpconnection.c:124-153 | the length limit, the empty frame and the start of a payload |
| Framing.Connection.TakePayload | src/tcpd/tcpconnection.c:156-178 | payload bytes and delivery of a complete frame |
| Framing.Connection.Feed | src/tcpd/tcpconnection.c:104-182 | delivers and keeps what one parse of the pending bytes and the input says; an oversize header resets and refuses |
| Framing.Connection.FeedAll | src/tcpd/tcpserver.c:49-64 | however a stream is cut, frames, verdict and state left are those of the whole |
| Framing.SendFramed | src/tcpd/tcpconnection.c:210-227 | the bytes sent parse to the payload; refused exactly above the limit |
| BlockWire.HeaderRoundTrip | src/nets/net_node.c:508-510 | the 96 header bytes decode to the header |
| BlockWire.HeaderExact | src/nets/net_node.c:508-510 | and every 96 bytes are the encoding of what they decode to |
| BlockWire.TxRoundTrip | src/nets/net_node.c:537-539 | the 232 transaction bytes decode to the transaction |
| BlockWire.TxExact | src/nets/net_node.c:537-539 | and every 232 bytes are the encoding of what they decode to |
| BlockWire.Serialise | src/nets/net_node.c:1670-1688 | the loop writes the block's payload |
| BlockWire.ParseBlock | src/nets/net_node.c:495-545 | the parser's result, with its length and count checks |
| BlockWire.PayloadRoundTrip | src/nets/net_node.c:495-545 | parsing a serialised block, with anything after it, gives the block at the announced height |
| BlockWire.DecodedIsExact | src/nets/net_node.c:495-545 | the parser accepts exactly payloads that begin with some block's encoding and reports that block |
| BlockWire.SendPacket | src/nets/net_node.c:907-935 | a framed type byte and payload, refused exactly for a bad type or too long a payload |
| BlockWire.BlockSurvivesTheWire | src/nets/net_node.c:479-545 | any chunks that join to a block's frame parse to one packet that decodes to the block |
| BlockWire.Transmit | src/nets/net_node.c:479-545 | serialised, sent, cut anywhere, fed to a connection, decoded and parsed, a block arrives exactly when its packet fits one frame |
| Builder.OrderSameSender | src/main.c:221-249 | a permutation that keeps every slot's sender and every coinbase, and sorts each sender's transactions |
| Builder.FindEarliest | src/main.c:231-240 | the earliest remaining transaction of a slot's sender |
| Builder.SortedPassesGuardIff | src/block/chain.c:980-1030 | a sorted list passes the replay guard exactly when its timestamps are new and distinct per sender |
| Builder.BuildSelection | src/main.c:269-307 | from any snapshot order the selection is sorted, and passes the guard if pooled timestamps are distinct and new |
| Builder.SelectAgain | src/balance_sheet.c:281-340 | the validator's simulation of a built block accepts exactly what the miner's selection accepted |
| Builder.BuildBody | src/main.c:1082-1096 | coinbase of reward plus fees followed by the selection, or none on overflow |
| Builder.BuiltBodyIff | src/block/chain.c:368-483 | a built body passes every body check exactly when fees fit 64 bits, the coinbase is payable and timestamps are new and distinct |
| Builder.MinedBlockJoinsIff | src/block/chain.c:296-585 | on every reachable ledger a mined block with a good header joins the chain exactly when that holds and second recipients are named |
| Builder.FirstBlockJoins | src/main.c:1064-1103 | an empty chain accepts the first mined block, and the result satisfies every invariant above |
| Builder.SomeHeaderIsGood | src/block/chain.c:304-366 | a header that the checks accept exists, so the theorems about accepted chains are not about empty ones only |
| Limits.EpochRewardsIncrease | include/constants.h:214-250 | after phase one each epoch pays more than any earlier one, for 66 epochs |
| Limits.RollbackAcrossEpochsForgets | src/block/chain.c:841-845 | every rollback over an epoch boundary after phase one keeps the later reward, and refuses the dropped blocks |
| Limits.SwapAcrossEpochsTruncates | src/block/chain.c:1236-1252 | every allowed swap over an epoch boundary after phase one that fails, wherever it fails, truncates the chain to the fork |
| Witnesses.MineMany | src/main.c:1064-1103 | chains of every length exist that satisfy every invariant |
| Witnesses.RivalsPooled | src/nets/net_node.c:564-631 | three blocks of their own headers that the receive path takes, in a valid pool that collects them at their fork and nothing above it |
| Witnesses.RestorationCanFail | src/block/chain.c:1236-1252 | a reached state whose rollback does not restore it, and such a pool whose swap fails and truncates its chain |
| Witnesses.NoRecipientSticks | src/block/chain.c:535-540 | on every ledger, each affordable new spend without its second recipient makes a block that passes every check and gets stuck |
| Witnesses.SomeBlockGetsStuck | src/block/chain.c:485-548 | such a block on a reached state |
| Witnesses.StuckBlockLosesWork | src/block/chain.c:1246-1252 | a reached chain with a stuck block and one above it, and such a pool whose swap at a restorable fork fails and lowers the work |
| Witnesses.SomeBodyIsRefused | src/main.c:269-307 | a mempool of two new payments with one timestamp whose built body is refused |
| Witnesses.CollisionFreeExists | src/txmempool.c:62-84 | any 2^256 transactions can have distinct hashes |
| Witnesses.SomeRunStaysApart | src/block/chain.c:715-737 | a run that mines two spends and rolls them back, without collisions: both are pooled and not on chain |
| Witnesses.PruningUncovers | src/nets/orphan_pool.c:573-582 | a reached chain of two blocks and a valid pool with its tip and two rivals: nothing adoptable with the tip pooled, the rivals adoptable once it is pruned |

## Left out

- Sockets, threads, peer discovery, connection reaping, the command loop, wallets and logging: chain operations are atomic steps, as they run under one lock.
- SHA-256, Blake2b, secp256k1 and the foreign Autolykos reference: uninterpreted functions.
- The size of the reorg penalty and the median-time test for initial download: one free boolean on each swap.
- Merkle roots, `Block_HasValidStructure` and the vote range check: they run on receipt and not where a block joins the chain.
- Loading from files, failed writes, crash consistency of the renames, and allocation failure outside the DAG build.
- Mempool admission policy and expiry: the mempool changes by chain operations only.
- Wrap-around of `size_t` counters, of the orphan sequence number and of 32-bit bucket counts in khash, and the bit packing of its flags: indices are unbounded numbers and a flag is a value.
- The power-of-two rounding of khash is the next power of two and not its bit trick.
- Branches that cannot be taken are not written out: the wrap tests of the probe loops, the overflow tests inside the work computation, a failed borrow of a saved block, and the length test inside the parser's loop.
- The big-endian host: native integers in packets are little-endian.
- History.EveryRun: directly appended blocks must name their second recipients, because the code leaves a block that does not on the chain half applied; candidate branches may hold anything, and History.NothingLost needs no hypothesis.
- Reorg.SwapIsAllOrNothing: asks of an allowed swap a memoryless fork, or one whose block was mined at the reward now in force with a candidate inside one epoch, because otherwise the code keeps hidden state; Reorg.FailedSwapRestoresIff and Reorg.AdoptedIff are the exact conditions and Witnesses.RestorationCanFail an input where restoration fails.
- AttachRuns.AttachNeverLowersWork: asks the same of every allowed swap, and that appended blocks name their recipients, because the claim is false otherwise (Witnesses.RestorationCanFail, Witnesses.StuckBlockLosesWork); AttachRuns.AppendsRaiseWork needs neither.
- AttachRuns.FruitlessSwaps: asks the same of every allowed swap tried, for the same reason.
- OrphanPool.Pool.TryAdopt: that every fork was tried is stated of runs whose allowed swaps meet their conditions, because a failed swap may truncate the chain otherwise (Witnesses.RestorationCanFail).
- OrphanPool.Pool.AttemptAttach: that nothing adoptable is left is stated of the pool before pruning, and of the final pool if no pooled block was on the chain before the call, because pruning can uncover a branch (Witnesses.PruningUncovers).
- Acceptance.SwapSucceedsIff: asks that a rollback to the fork restores the reward, because otherwise the candidate is judged by the wrong reward (Witnesses.RestorationCanFail), and sums of work below 2^256; Acceptance.AllowedIff asks nothing.
- Adoption.NothingHeavier: asks the same; Adoption.FruitlessWalk does not.
- Witnesses.RivalsPooled: the Merkle root of its blocks is any value, since Merkle roots are not part of this model.
