# A Dafny model of the HDDcoin consensus layer

The project models how an HDDcoin node decides which blocks extend a chain, what they do to
the coin set, how it follows competing branches with one coin table, and how its database is
converted and validated. `dafny verify dfyconfig.toml` checks all of it.

## How it is laid out

| files | what they hold |
|---|---|
| `Types`, `Rewards`, `CoinSums`, `PotIterations` | coins, blocks, constants; reward schedule; amounts; signage- and infusion-point arithmetic |
| `CoinLedger`, `ForkOverlay` | the coin table as a fold over block effects, its characterisation, and the lookup through a fork |
| `Headers`, `HeaderTheorems`, `HeaderValidation` | header rules over the chain of ancestors; what they mean for a whole chain; the checks as loops and walks over the block table |
| `Bodies`, `BodyTheorems`, `ChainContents`, `Supply`, `Progress`, `BodyValidation` | body rules against the replayed chain; whole-chain theorems; what the table holds, read off the blocks' own fields; the money supply; which chains can grow; `validate_block_body` against another chain's coin table |
| `BlockStore`, `CoinStore`, `ForkInfo`, `ForkPoint`, `Blockchain` | the node's state: block table, coin table, branch record, fork search, adding blocks and switching branches |
| `BlockCreation`, `MerkleRoots` | building a block at its signage point and finishing it at its infusion point; the two roots |
| `DbValidate`, `DbUpgrade`, `NodeDatabase` | `validate_v2`, `convert_v1_to_v2`, and the node's own table as `validate_v2` sees it |

## Main results

* **A branch is judged as if it had been replayed.** `BodyValidation.ValidateBlockBody` looks at the
  coin table of the *main* chain and at what the branch added and removed since the fork. Its verdict,
  error by error, is the one that the branch's own replayed table calls for, for every main chain,
  branch and block (`ForkOverlay.OverlayAgreesWithReplay`).
* **Every state of a node is right.** `Blockchains.Blockchain.ReceiveAll` takes blocks in any order, on
  any branches. In every state reached, each stored block sits on a valid chain, the peak is a heaviest
  block, the coin table equals the replay of the main chain, and the `in_main_chain` flags mark exactly
  that chain. Rolling back to a fork is exact (`CoinLedger.RollBackIsReplay`).
* **What a chain holds.** The coin table of a valid chain holds exactly the outputs of its blocks' spends and
  the scheduled rewards, each under its own puzzle hash, amount, height and timestamp
  (`ChainContents.CoinsMadeAt`, `CoinsSpentAt`, `RecordOf`, `RewardsPaid`); a fee is what the spends leave over
  (`FeeIsLeftOver`); and both roots describe exactly what the table has at the block's height
  (`RootsDescribeBlock`).
* **Money.** On every valid chain no coin is created or spent twice (`BodyTheorems.NoDoubleSpend`), each
  block's two rewards are created exactly once (`BodyTheorems.RewardsExactlyOnce`), and circulation plus
  the unclaimed fees is the reward schedule, in closed form (`Supply.ExactSupply`).
* **Time.** Sub-slots account for all iterations and hold a bounded number of blocks, all finished sub-slots
  form one hash chain, the deficit counts blocks between challenge blocks, the infused chain runs exactly
  where the deficit says, and transaction blocks are ordered by signage point and
  timestamp (`HeaderTheorems`).
* **No dead ends.** Whatever the spends, sub-slots and deficits of a valid chain, and whatever
  difficulty, sub-slot iterations and required iterations the next block is given, a transaction block can
  follow, exactly when those iterations are defined, genesis has a timestamp and the prefarm is a possible
  amount (`Progress.GrowsExactlyWhen`). With a positive difficulty it becomes the node's next peak
  (`Progress.PeakCanGrow`), and chains of every length exist exactly for suitable constants
  (`Progress.ChainsExistExactlyWhen`). The equivalences are about the rules modelled here: the five-minute
  limit on timestamps, the fixed widths of heights, weights and iterations, and sub-epoch summaries are
  not among them.
* **Production agrees with validation.** `BlockCreation.ProduceBlock` creates a block from its generator
  on one stored chain, at a signage point where the two overflow tests agree, and finishes it on another
  chain that extends the first. Creation fails exactly when the fee is
  negative or too large, and then the validator refuses the fee as well. Otherwise the block carries what was
  asked for, is a transaction block exactly when no other came in between, its header is accepted exactly
  when the infusion point fits the chain, and its body exactly when its own spends do.
* **Databases.** `validate_v2` accepts exactly the tables that hold a main chain (`DbValidate.Walk`), and
  accepts whatever a node has stored (`NodeDatabase.NodeTableIsValid`). Converting a v1 store and validating
  the result succeeds exactly when the v1 tables hold the whole chain of their peak, above height 0 and from
  the expected challenge (`DbUpgrade.ConvertAndValidate`).

## Where the code does not meet a property

* `convert_v1_to_v2` on a chain of one block divides by the peak height 0 in its progress line
  (`DbUpgrade.GenesisOnlyFails`); above height 0 it writes whatever chain the tables trace
  (`DbUpgrade.FollowWritesChain`).
* `convert_v1_to_v2` does not notice a missing record: `DbUpgrade.MissingRecordUnnoticed` gives tables on
  which it ends early without an error. `DbUpgrade.FollowExactlyWhen` says, from the v1 tables, exactly when
  it ends without an error and after how many rows; only `validate_v2` rejects the short result
  (`DbUpgrade.ConvertedExactlyWhen`).
* `validate_v2` does not notice a missing height: `DbValidate.GapIsAccepted` gives a table with a gap that
  is accepted, and `DbValidate.ContiguousExactlyWhen` says exactly when there are no gaps.
* `advance_fork_info` converts the height of the ForkInfo's peak to an unsigned integer, so it raises when
  that peak is still at -1 and the block is not the one after it. `full_node.py:1128-1129` makes such an
  object for a fork below genesis. `Blockchains.Blockchain.AdvanceForkInfo` states exactly when it raises.
* `validate_block_body` asserts that the previous transaction block's timestamp is not 0, so a genesis
  block with timestamp 0 can never be followed by a transaction block
  (`BodyTheorems.GenesisTimestampDecides`, `Progress.GrowsExactlyWhen`).
* The creator decides overflow by `sp_iters > ip_iters` and the validator by the signage point index.
  `PotIterations.OverflowTestsAgree` says at which signage points the two agree, and
  `PotIterations.OverflowTestsAgreeExactlyWhen` for which constants they agree at all that the validator
  gets past (it raises on an overflow at signage point 0). `HeaderTheorems.SignagePointTotalsDiffer` is a
  block that passes the validator's iteration checks with another signage-point total than its creator's.

## Modelling decisions

* A hash is a number, and a block's hash identifies it. A coin is its own name: its parent is a reward tag
  (kind and height) or another coin. This makes names collision-free and ancestry acyclic.
* A Merkle root stands for the set that it hashes, and the hash of a list of coin ids, which the code sorts
  first, for the multiset of ids.
* The result of running a generator (spends, outputs, reserved fee) is part of the block.
* `Block` joins a full block with its block record; difficulty, sub-slot iterations and required iterations
  are the values that the validator is handed. That the sub-slot iterations do not change inside a
  sub-slot is part of the iteration rule.
* An exception or a failed assertion is an outcome of its own, or a rejection of the header.
* Amounts are unbounded; the conversions to 64 bits are modelled where they decide something (fees, reward
  coins). The reward amounts are products of floats that are exact, so integers are faithful.
* SQL cursors are sequences of rows in the stated order, and primary keys are stated as such.

## Model

| member | source | states |
|---|---|---|
| Rewards.PoolReward | hddcoin/consensus/block_rewards.py:10-30 | at every height the pool earns seven times what the farmer earns |
| Rewards.ScheduleIsClosedForm | hddcoin/consensus/block_rewards.py:10-53 | the rewards of the first n heights add up to the prefarm, four halving eras and a tail, for every n |
| PotIterations.IpIters | hddcoin/consensus/pot_iterations.py:27-45 | the infusion point lies strictly inside its sub-slot |
| PotIterations.OverflowTestsAgree | hddcoin/consensus/pot_iterations.py:10-45 | the index test for overflow and the creator's comparison of iterations agree at a signage point if and only if the extra intervals fit into a sub-slot or, reduced, move the point past one |
| PotIterations.OverflowTestsAgreeExactlyWhen | hddcoin/consensus/block_creation.py:348-349 | they agree at all signage points above 0 if and only if the extra intervals are fewer than the signage points, or one short of a multiple of them |
| CoinLedger.StepKeepsLedger | hddcoin/full_node/coin_store.py:80-133 | one accepted block keeps the table exactly characterised: every addition and spend recorded at its height, nothing else, parents spent where children appear |
| CoinLedger.AddedIsFresh | hddcoin/consensus/block_body_validation.py:363-403 | a coin that an accepted block adds was never added before, by acyclicity and because parents are spent in the same block |
| CoinLedger.GenesisAddsNothing | hddcoin/consensus/block_body_validation.py:385-403 | the first block can neither spend nor create a coin |
| CoinLedger.ReplayIsLedger | hddcoin/full_node/coin_store.py:80-133 | replaying a sound chain gives the characterised table |
| CoinLedger.LedgerIsUnique | hddcoin/full_node/coin_store.py:42-54 | the characterisation determines the table |
| CoinLedger.CreatedOnceSpentOnce | hddcoin/consensus/block_body_validation.py:363-444 | over a whole sound run a coin is added once, spent once, and not spent before it exists |
| CoinLedger.RollBackIsReplay | hddcoin/full_node/coin_store.py:414-450 | dropping coins and spends after a height turns the table of a chain into the table of its prefix |
| ForkOverlay.OverlayAgreesWithReplay | hddcoin/consensus/block_body_validation.py:381-444 | for every main chain, branch and coin, the lookup through the fork concludes what the branch's own table says, with the same coin, height and timestamp |
| ForkOverlay.IncludeKeepsBranch | hddcoin/consensus/block_body_validation.py:104-117 | including the next accepted block keeps the two dictionaries exactly the branch's effects, and its coins are new to them |
| ForkOverlay.PickedIsBlock | hddcoin/consensus/blockchain.py:534-547 | filtering the dictionaries by height recovers exactly the block's rewards, additions and removals |
| ForkInfos.ForkInfo.constructor | hddcoin/consensus/block_body_validation.py:62-82 | a new object describes the empty branch at its fork block |
| ForkInfos.ForkInfo.Reset | hddcoin/consensus/block_body_validation.py:84-90 | afterwards the object describes the empty branch at the given block |
| ForkInfos.ForkInfo.IncludeSpends | hddcoin/consensus/block_body_validation.py:92-117 | on every accepted block no assertion fails and the object describes the longer branch: hashes, heights, additions and removals |
| CoinStores.CoinStore.GetCoinRecords | hddcoin/full_node/coin_store.py:149-174 | exactly the records of the known names, each once, and as many as names only if all are known |
| CoinStores.CoinStore.NewBlock | hddcoin/full_node/coin_store.py:80-133 | the table becomes the table with the block applied, and the update count cannot be wrong |
| CoinStores.CoinStore.RollbackToBlock | hddcoin/full_node/coin_store.py:414-450 | the table is cut off after the height, for -1 too, and the changes are handed back |
| CoinStores.ChangesAreReported | hddcoin/full_node/coin_store.py:420-450 | the changes are exactly the coins whose record is removed or different afterwards, with the record they then have, or height and timestamp 0 |
| BlockStore.WalkToTx | hddcoin/util/prev_transaction_block.py:15-17 | the walk ends at the most recent transaction block |
| BlockStore.WalkToSlotStart | hddcoin/consensus/block_header_validation.py:449-458 | the walk ends at the first block of the sub-slot and counts its steps |
| BlockStore.WalkToIccAnchor | hddcoin/consensus/block_header_validation.py:152-154 | the walk ends at the most recent challenge block or slot start |
| BlockStore.AddKeepsValid | hddcoin/consensus/blockchain.py:439-448 | storing an accepted block keeps every stored block on a valid chain |
| ForkPoint.LookupForkChain | hddcoin/consensus/find_fork_point.py:61-105 | the returned hashes are exactly the second chain's hashes above the last common height of the two chains, so their number tells it; the fork hash is that block's, or zero when nothing is shared |
| HeaderTheorems.Grounded | hddcoin/consensus/block_header_validation.py:885-902 | heights count the chain and every backward walk finds what it looks for |
| HeaderTheorems.SlotAccounting | hddcoin/consensus/block_header_validation.py:548-573 | total iterations minus infusion iterations equals the summed length of all sub-slots finished so far |
| HeaderTheorems.InfusionIters | hddcoin/consensus/block_header_validation.py:926-957 | the iterations of every infusion VDF are those from the end of all finished sub-slots to the block |
| HeaderTheorems.SlotCapacity | hddcoin/consensus/block_header_validation.py:449-458 | no sub-slot of an accepted chain holds more than the maximum number of blocks |
| HeaderTheorems.BlockCountMeaning | hddcoin/consensus/block_header_validation.py:449-458 | check 4 limits exactly the number of blocks since the sub-slot's first one, the new block included |
| HeaderTheorems.OverflowNeedsSlot | hddcoin/consensus/block_header_validation.py:573 | no signage point lies before the start of the chain, so an overflow block has a finished sub-slot below it |
| HeaderTheorems.WeightIsTotalDifficulty | hddcoin/consensus/block_header_validation.py:885-902 | the weight of a block is the sum of all difficulties up to it |
| HeaderTheorems.DeficitMeaning | hddcoin/consensus/deficit.py:10-55 | after deficit 0 the next challenge block is the one that finishes a sub-slot with its signage point past the previous block's sub-slot, and others wait at MIN; at MIN and in between likewise by signage point and by counting down |
| HeaderTheorems.SlotCarriesDeficit | hddcoin/consensus/block_header_validation.py:362-391 | the deficit in a finished sub-slot is the one that the block after it counts down from |
| HeaderTheorems.WaitingIsOverflow | hddcoin/consensus/deficit.py:31-41 | a block at deficit MIN is an overflow block, as the code's comment says |
| HeaderTheorems.SignagePointTotalsAgree | hddcoin/consensus/block_record.py:98-119 | validator and block record compute the same signage-point total, and it is the creator's if and only if the overflow tests agree at that point |
| HeaderTheorems.SignagePointTotalsDiffer | hddcoin/consensus/block_creation.py:348-385 | with two signage points and two extra intervals, a block that passes the iteration checks and whose totals differ |
| HeaderTheorems.ChallengeChainLinks | hddcoin/consensus/block_header_validation.py:109-135 | the finished sub-slots of all blocks form one hash chain from the genesis challenge, and the walk finds its end |
| HeaderTheorems.InfusionStartsAtLatestSlot | hddcoin/consensus/block_header_validation.py:926-940 | every infusion VDF starts from the latest finished sub-slot |
| HeaderTheorems.DeficitInRange | hddcoin/consensus/deficit.py:27-55 | deficits stay between 0 and the minimum |
| HeaderTheorems.IccWalkSucceeds | hddcoin/consensus/block_header_validation.py:152-162 | whenever an infused chain must exist, the walk stops inside the sub-slot at a block that has its hash, and the committed iterations are not negative |
| HeaderTheorems.InfusedChainRule | hddcoin/consensus/block_header_validation.py:141-250 | a sub-slot carries an infused chain if and only if the deficit is below the minimum and it is the first or the deficit is positive; the other chains carry its hash, the challenge chain only first after deficit 0 |
| HeaderTheorems.InfusedChainStart | hddcoin/consensus/block_header_validation.py:150-166 | the infused chain that the walk finds has the hash of its challenge block or sub-slot, and runs from there to the end of the sub-slot |
| HeaderTheorems.InfusedChainContinues | hddcoin/consensus/block_header_validation.py:141-183 | within a block every sub-slot continues the infused chain of the one before it |
| HeaderTheorems.SlotHasIcc | hddcoin/consensus/block_header_validation.py:167-180 | the same, for the slots checked so far, so that the assertion on the previous slot holds |
| HeaderTheorems.IccInfusionHasSlot | hddcoin/consensus/block_header_validation.py:1002-1020 | a block with an infused infusion VDF always has an infused chain to start it from |
| HeaderValidation.IccInfusionChallenge | hddcoin/consensus/block_header_validation.py:1017-1036 | no assertion fails, and the second walk finds the hash that the first one commits to |
| HeaderTheorems.BlocksSinceChallenge | hddcoin/consensus/deficit.py:10-55 | at deficit d at least MIN minus d blocks were infused since the latest challenge block, itself included |
| HeaderTheorems.ItersGrow | hddcoin/consensus/block_header_validation.py:548-564 | total iterations never decrease along a chain |
| HeaderTheorems.TransactionOrder | hddcoin/consensus/block_header_validation.py:692-713 | a transaction block's signage point is past every earlier transaction block and its timestamp later; any other block's is not |
| HeaderValidation.IccBefore | hddcoin/consensus/block_header_validation.py:150-162 | the loop finds the infused chain to continue, and its assertion cannot fail |
| HeaderValidation.IccExpected | hddcoin/consensus/block_header_validation.py:143-183 | the expected infused chain of each sub-slot, with the assertion on the previous slot proved |
| HeaderValidation.CheckSlots | hddcoin/consensus/block_header_validation.py:104-391 | the loop accepts if and only if every finished sub-slot meets the rule |
| HeaderValidation.CheckIters | hddcoin/consensus/block_header_validation.py:496-573 | accepts if and only if the iteration rule holds, including the assertion on signage point 0 and the unsigned conversions |
| HeaderValidation.CheckTransactionStatus | hddcoin/consensus/block_header_validation.py:692-713 | accepts if and only if all marks of a transaction block agree with the rule |
| HeaderValidation.CheckTransactionLink | hddcoin/consensus/block_header_validation.py:797-828 | accepts if and only if the previous transaction block is named and the timestamp is later |
| HeaderValidation.CheckInfusion | hddcoin/consensus/block_header_validation.py:926-957 | accepts if and only if challenge and iterations of the infusion VDF are the expected ones |
| HeaderValidation.ValidateFinishedHeaderBlock | hddcoin/consensus/block_header_validation.py:832-1066 | the error is the first failing rule, and there is none if and only if the header is accepted on the chain of ancestors |
| HeaderValidation.HeaderErrorMeans | hddcoin/consensus/block_header_validation.py:832-1066 | an error names a rule that the header violates, and there is none if and only if it is accepted |
| BodyTheorems.ChainIsSound | hddcoin/consensus/block_body_validation.py:243-247 | every valid chain replays soundly, and the reward coins in its table are exactly the claimed ones |
| BodyTheorems.NoDoubleSpend | hddcoin/consensus/block_body_validation.py:313-444 | on every valid chain a coin is created once, spent once, never spent before it exists, and genesis has no spends |
| BodyTheorems.ClaimIntervals | hddcoin/consensus/block_body_validation.py:191-247 | successive transaction blocks claim adjacent intervals of heights, without duplicates |
| BodyTheorems.RewardsExactlyOnce | hddcoin/consensus/block_body_validation.py:191-247 | the table holds exactly one pool and one farmer coin for each claimed height and none for later ones |
| BodyTheorems.GenesisTimestampDecides | hddcoin/consensus/block_body_validation.py:200-201 | the timestamp assertion holds on a valid chain if and only if the genesis timestamp is not 0 |
| ChainContents.CreatedIsMade | hddcoin/consensus/block_body_validation.py:312-318 | the coins a list of spends creates are exactly its outputs, with their parent, puzzle hash and amount |
| ChainContents.RecordOf | hddcoin/full_node/coin_store.py:80-133 | every record of a valid chain's table is under its own coin, with height and timestamp of a transaction block, flagged for rewards only |
| ChainContents.CoinsMadeAt | hddcoin/consensus/block_body_validation.py:104-117 | the other coins confirmed at a height are exactly the outputs of that block's spends |
| ChainContents.CoinsSpentAt | hddcoin/consensus/block_body_validation.py:104-108 | the coins spent at a height are exactly those of that block's spends |
| ChainContents.FeeIsLeftOver | hddcoin/consensus/block_body_validation.py:446-483 | the declared fee is the amount spent minus the amount of all outputs, at least the reserved fee, and puzzles are the coins' |
| ChainContents.ClaimedMeaning | hddcoin/consensus/block_body_validation.py:193-241 | a block's rewards are claimed if and only if a transaction block at or above it is followed by another |
| ChainContents.RewardsPaid | hddcoin/consensus/block_body_validation.py:203-239 | each claimed block pays its pool and its farmer puzzle hash the scheduled amounts, the farmer with the fees, and nothing else has those parents |
| ChainContents.RootsDescribeBlock | hddcoin/consensus/block_root_validation.py:23-39 | the two roots of a block hold exactly the puzzle hashes and groups of the coins confirmed at its height, and the coins spent there |
| Supply.CirculationStep | hddcoin/consensus/block_body_validation.py:446-458 | a block moves circulation by what it adds minus what it spends |
| Supply.ExpectedClaimsTotal | hddcoin/consensus/block_body_validation.py:203-241 | the claims pay the schedule since the last claim plus the fees of one block |
| Supply.ExactSupply | hddcoin/consensus/block_body_validation.py:446-478 | circulation plus unclaimed fees equals the schedule up to the last but one transaction block, also in closed form |
| Progress.CoinsInRange | hddcoin/consensus/block_body_validation.py:329-336 | no coin in the table of a valid chain exceeds the maximum amount |
| Progress.GrowsExactlyWhen | hddcoin/consensus/block_body_validation.py:193-201 | a transaction block of any given hash, difficulty and iterations can follow a valid chain if and only if the iterations are defined, the genesis timestamp is not 0 and the prefarm is a possible amount |
| Progress.PeakCanGrow | hddcoin/consensus/blockchain.py:487-515 | in every state of a node with a peak, such a block of positive difficulty is one that the node adopts |
| Progress.StartsExactlyWhen | hddcoin/consensus/block_header_validation.py:496-552 | a genesis block exists if and only if the starting constants define iterations, a signage point that does not raise, a deficit and a possible reward |
| Progress.ChainsExistExactlyWhen | hddcoin/consensus/block_header_validation.py:832-916 | valid chains of n transaction blocks exist for every n from 2, if and only if the constants allow genesis and its prefarm |
| BodyValidation.ClaimsInRange | hddcoin/consensus/block_body_validation.py:472-474 | the reward coins that the next block must create pass its amount check and fit into 64 bits |
| BodyValidation.ExpectedRewardCoins | hddcoin/consensus/block_body_validation.py:193-241 | the walk collects exactly the expected claims, all of them fit into 64 bits, and it raises if and only if the timestamp is 0 |
| BodyValidation.CheckRemovals | hddcoin/consensus/block_body_validation.py:381-444 | the three phases give the error of the pointwise lookup, in order, and on success one usable record per removal |
| BodyValidation.ValidateRemovals | hddcoin/consensus/block_body_validation.py:375-444 | the removal checks against the main chain's table give the verdict of the branch's table, and hand on its unspent coins, heights and timestamps |
| BodyValidation.CheckFees | hddcoin/consensus/block_body_validation.py:446-483 | fees, reserved fee, limit and puzzle hashes, with the right error each |
| BodyValidation.NoErrorIsAccepted | hddcoin/consensus/block_body_validation.py:145-483 | there is no error if and only if the body, roots included, is accepted on the replayed chain, wherever the fork lies |
| BodyValidation.BodyErrorMeans | hddcoin/consensus/block_body_validation.py:145-483 | every error names what is wrong with the block's own spends, claims, roots or fee on the branch's table |
| BodyValidation.ValidateBlockBody | hddcoin/consensus/block_body_validation.py:120-530 | the error is exactly the one that the replayed branch calls for |
| Blockchains.RunBlocks | hddcoin/consensus/blockchain.py:242-268 | running the blocks of a branch brings the ForkInfo up to its end, and its peak is always the next block's parent |
| Blockchains.Blockchain.AdvanceForkInfo | hddcoin/consensus/blockchain.py:210-245 | the ForkInfo describes the block's parent, or the height conversion raises: exactly when its peak is below height 0 and is not that parent |
| Blockchains.Blockchain.BuildForkInfo | hddcoin/consensus/blockchain.py:339-376 | the slow path builds a ForkInfo for the true fork |
| Blockchains.ApplyBranch | hddcoin/consensus/blockchain.py:523-555 | applying the branch to a table at the fork gives the branch's table, and no insert or update fails |
| Blockchains.Blockchain.ReconsiderPeak | hddcoin/consensus/blockchain.py:487-576 | the peak changes if and only if the block is heavier, and then table and flags are the new chain's |
| Blockchains.Blockchain.AddBlock | hddcoin/consensus/blockchain.py:270-483 | a block is stored if and only if it is new, connected and accepted; every outcome keeps the invariant of the node |
| Blockchains.Blockchain.ReceiveBlock | hddcoin/consensus/blockchain.py:270-483 | a block is stored if and only if it is new and accepted on its ancestors, and becomes the peak if and only if it is then heavier |
| Blockchains.Blockchain.ReceiveAll | hddcoin/consensus/blockchain.py:270-483 | any blocks in any order keep the invariant, and nothing stored is lost |
| BlockCreation.GetPrevTransactionBlock | hddcoin/util/prev_transaction_block.py:10-23 | whether a block is a transaction block, and which block is handed back |
| BlockCreation.ComputeBlockFee | hddcoin/consensus/block_creation.py:45-52 | the fee balances additions and removals; it raises if and only if the block would mint or the fee needs more than 64 bits |
| BlockCreation.CollectClaims | hddcoin/consensus/block_creation.py:157-196 | the creator's claim list is the expected one, in order, and every amount fits into 64 bits |
| BlockCreation.CreateFoliage | hddcoin/consensus/block_creation.py:55-284 | status, previous transaction block, claims, both roots, and the fee taken before the list of additions is extended in place |
| BlockCreation.CreateUnfinishedBlock | hddcoin/consensus/block_creation.py:287-428 | the two iteration totals and the foliage of the chain built on |
| BlockCreation.StatusAtInfusion | hddcoin/consensus/block_creation.py:465-486 | transaction status is kept if and only if no transaction block came in between, never gained, and then claims and previous transaction block are unchanged |
| BlockCreation.FinishBlock | hddcoin/consensus/block_creation.py:431-537 | the finished block in terms of the chain at the infusion point |
| BlockCreation.FinishedBlock | hddcoin/consensus/block_creation.py:465-520 | the finished block meets the header's link and transaction rules; kept it has the claims and roots of checks 5 and 11, lost it has no transaction data |
| BlockCreation.CreatedBlockPasses | hddcoin/consensus/block_creation.py:145-197 | a created block passes the body checks if and only if its own spends fit the chain at the infusion point |
| BlockCreation.RefusedIsRejected | hddcoin/consensus/block_creation.py:45-52 | where the fee cannot be computed the validator rejects, as minting exactly when the fee is negative, and otherwise by reserved fee or amount |
| BlockCreation.ProduceBlock | hddcoin/consensus/block_creation.py:287-537 | creating and finishing from a generator fails if and only if the fee does not fit; otherwise the block carries the request and the infusion values, and the verdicts on header and body are as the validator computes them |
| MerkleRoots.GroupByPuzzle | hddcoin/consensus/block_root_validation.py:23-30 | the dictionary holds, for each puzzle hash, exactly its coins |
| MerkleRoots.GroupCounts | hddcoin/consensus/block_root_validation.py:26-30 | a group holds each coin as often as the list does |
| MerkleRoots.RootsCommit | hddcoin/consensus/block_root_validation.py:23-39 | additions roots are equal if and only if the lists are permutations of each other, removals roots if and only if they have the same members |
| MerkleRoots.ValidateBlockMerkleRoots | hddcoin/consensus/block_root_validation.py:12-46 | the error names the first root that differs |
| MerkleRoots.ComputeAdditionsRoot | hddcoin/consensus/block_creation.py:209-226 | the creator's loops compute the same root |
| MerkleRoots.ListedRoot | hddcoin/consensus/block_body_validation.py:251-252 | listing the set of expected rewards in any order gives the root of the claims in the block |
| DbValidate.Walk | hddcoin/cmds/db_validate_func.py:76-181 | one pass raises nothing if and only if the table holds a main chain (and the blobs match, when they are decoded), and a failure names what the table shows |
| DbValidate.ValidateV2 | hddcoin/cmds/db_validate_func.py:32-181 | accepted if and only if version, peak and table are valid, with the right failure for each missing part |
| DbValidate.ChainIsUnique | hddcoin/cmds/db_validate_func.py:133-169 | there is at most one main chain to find |
| DbValidate.ContiguousExactlyWhen | hddcoin/cmds/db_validate_func.py:133-142 | the accepted chain has no gaps if and only if every height has a row |
| DbValidate.GapIsAccepted | hddcoin/cmds/db_validate_func.py:133-142 | a table with a missing height that is accepted |
| DbUpgrade.FollowIsChain | hddcoin/cmds/db_upgrade_func.py:204-238 | whatever is written is linked, with consecutive heights, from the peak |
| DbUpgrade.FollowWritesChain | hddcoin/cmds/db_upgrade_func.py:204-238 | whatever chain the v1 tables trace from the peak, nothing raises and exactly its rows are written |
| DbUpgrade.FollowExactlyWhen | hddcoin/cmds/db_upgrade_func.py:204-238 | the walk ends without an error after n rows if and only if the v1 tables (ordered, keyed, with equal heights for equal hashes) trace a chain of n records |
| DbUpgrade.MissingRecordUnnoticed | hddcoin/cmds/db_upgrade_func.py:204-210 | tables without the genesis record on which the walk ends early without an error |
| DbUpgrade.GenesisOnlyFails | hddcoin/cmds/db_upgrade_func.py:239-244 | on a well-formed store of one block the progress line divides by zero |
| DbUpgrade.TableHoldsRows | hddcoin/cmds/db_upgrade_func.py:247-260 | the written table holds exactly the rows of the walk |
| DbUpgrade.RowMatchesExactlyWhen | hddcoin/cmds/db_upgrade_func.py:223-237 | the written row has the v1 hashes and the block's height, and passes the validator's comparisons if and only if record and block decode to what the v1 rows say |
| DbUpgrade.ConvertBlocks | hddcoin/cmds/db_upgrade_func.py:183-260 | for every commit rate the nested loops write exactly the rows of the walk, or stop with its error |
| DbUpgrade.ConvertV1 | hddcoin/cmds/db_upgrade_func.py:172-260 | the same from the flagged peak, or the error that there is none |
| DbUpgrade.AcceptedExactlyWhen | hddcoin/cmds/db_validate_func.py:172-181 | written rows are valid if and only if they reach height 0 and the expected challenge (and the blobs match) |
| DbUpgrade.ConvertedExactlyWhen | hddcoin/cmds/db_upgrade_func.py:204-260 | what was written without an error is valid if and only if the v1 tables held a whole chain from the expected challenge (that decodes to what it should) |
| DbUpgrade.ConvertAndValidate | hddcoin/cmds/db_upgrade_func.py:172-260 | conversion and validation of its table both succeed if and only if there is a peak above height 0 whose whole chain the v1 tables hold |
| DbUpgrade.ConvertCoins | hddcoin/cmds/db_upgrade_func.py:340-392 | for every batch size the coin snapshot is the table cut off at the peak |
| DbUpgrade.SnapshotIsReplay | hddcoin/cmds/db_upgrade_func.py:355-362 | if the coins are those of a valid chain, the snapshot is the coin table of its prefix up to the peak |
| NodeDatabase.NodeTableIsValid | hddcoin/full_node/block_store.py:105-115 | a node's block table is valid for validate_v2 if and only if its genesis challenge is the expected one |

## Left out

- Signatures, VDF and proof-of-space verification, and running generators: foreign libraries; their results are inputs.
- Hash, cost, generator-root, filter and time-lock checks of the body (3, 4, 7 to 9, 12, 21, 22): they compare values computed by other components.
- Sub-epoch summaries and difficulty adjustment: the expected difficulty and sub-slot iterations are inputs.
- Pool targets, the prefarm puzzle hashes and the five-minute limit on future timestamps: single comparisons.
- The part of the header check for unfinished overflow blocks whose last sub-slot is not yet known: only the finished form is modelled.
- The bounds of heights, weights and iterations as fixed-width integers: they are natural numbers, with only the lower bound 0 modelled.
- Hints, sub-epoch segments and indices in the conversion, and the unused height-to-hash buffer of validate_v2: straight copies.
- Caching, locking and database transactions of the node: one block is added at a time, and a failed write is not modelled.
- HeaderValidation.FirstFailing: errors are named per rule, not per comparison inside a rule.
- HeaderValidation.CheckSlots: sub-epoch summaries, new difficulties and the VDFs of a sub-slot are not part of it.
- HeaderValidation.CheckTransactionLink: the five-minute limit on future timestamps is not part of it.
- HeaderValidation.ValidateFinishedHeaderBlock: accepts on the modelled rules only, and names errors per rule.
- BlockCreation.CreateFoliage: filter, cost, generator hashes and signatures are not part of it.
