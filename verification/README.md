# BT2C in Dafny

A model of the in-memory rules of a BT2C node, with proofs of what they keep over whole runs. Every component is a
module of its own. Where the program updates objects in place, a class does the same and each of its methods is proved
against a function on values; the laws are then proved about that function, for every input and every run.

| files | component |
|---|---|
| `Ledger`, `LedgerConservation`, `LedgerRuns`, `LedgerBlocks`, `LedgerSolvency`, `LedgerChain`, `LedgerStakes`, `LedgerMachine` | the ledger: blocks, transactions, staking, awards, rollback |
| `Issuance`, `Metrics` | the halving schedule and the monitoring figure computed from it |
| `Validators`, `ValidatorLaws` | the validator record |
| `Rpos`, `RposSafety`, `RposPrecommits`, `RposOutcomes`, `RposEngine` | the consensus round and voting engine |
| `Selection`, `Merits`, `ValidatorManager`, `Influence` | stake-and-reputation selection |
| `Mempool`, `Merkle` | block filling and the transaction root |
| `Staking`, `StakingOutcomes`, `StakingMachine` | the staking ledger with distribution rewards |
| `PeerStore`, `Stun` | the peer store and the STUN response parser |
| `BlockFile`, `Checkpoints` | the append-only block file and the checkpoint index |
| `Common` | options, identifiers, finite sums and small set facts |

`dafny verify dfyconfig.toml` checks everything.

## Reading the model

* JavaScript numbers are exact: `real` for amounts, `int` or `nat` for heights, nonces and counters.
* An address or hash is an `Id`; `Absent` stands for every falsy value.
* Clock readings, draws, file-write outcomes and whether a later step throws are inputs of the call that meets them.
* Hashing, serialisation and compression are abstract functions, injective or invertible where a law needs it.
* `Run(ops)` is the state after any sequence of calls; a law about `Run` is a law about every reachable state.
* A ghost map beside each map of live objects records their fields; a predicate ties the two together, so the
  contracts speak of field values and rule out aliasing between a snapshot and the live state.

## What the proofs found

* Acceptance of a block depends on the order of its transactions only once awards have pushed the supply over the
  cap, for then the reward is negative (`LedgerBlocks.OverCapOrderMatters`); the exact condition is
  `LedgerBlocks.OrderIndependentIff`.
* The award for early validators is looked up in the validator map before registration inserts the validator
  (src/blockchain/state_machine.js:507 and 511), so registration never pays it, although its name and comments
  promise it. The code is followed (`LedgerRuns.AwardSupply`).
* Over the cap an accepted block takes the excess from its validator, who may be left owing
  (`LedgerSolvency.DebtIsReachable`); a run leaves nobody owing exactly under `LedgerSolvency.SolventIff`.
* The consensus engine mints a known proposer's reward twice (`RposSafety.KnownProposerPaidTwice`). The
  minimum reward can take the supply over the cap (`RposOutcomes.AwardExceedsCapIff`), though never by more than itself
  (`RposOutcomes.SupplyStaysNearCap`).
* A node keeps no lock on what it precommitted: after a failed round it may precommit another block at the same height
  (`RposPrecommits.TwoBlocksOneHeight`), so two precommits of one member are no evidence of a fault. It precommits at
  most one while all proposals held at a height are for the same block (`RposPrecommits.OnePrecommitPerHeight`).
* Of two validators of equal stake the one of greater reputation has the greater share, but rounding to whole draws can
  leave it with one draw less (`Merits.GreaterReputationFewerDraws`); `Merits.AtLeastAsManyDrawsIff` says when, and
  between two validators it never does (`Merits.AtLeastAsManyOfTwo`).
* Producing a block raises its proposer's reputation only at an uptime above 85 percent
  (`ValidatorLaws.ProducingRaisesIff`). Jailing a tombstoned validator undoes the tombstone
  (`ValidatorLaws.JailUndoesTombstone`).
* In the staking ledger a negative unstaking raises the stake even when the balance cannot pay
  (`Staking.NegativeUnstakeCreates`); the exact condition is `Staking.UnstakeConservesIff`. A negative staking can leave
  the stake under the minimum (`Staking.NegativeStakeSinks`), exactly as `Staking.StakeKeepsMinimumIff` says.
* The transaction root binds lists of equal length only (`Merkle.RootBindsIffEqualLengths`): repeating the last entry of
  an odd list keeps it, and so does taking the first level of a list for its transactions
  (`Merkle.RepeatedLastCollides`, `Merkle.LevelCollides`). Since two hashes are joined without a separator, it also needs
  hashes of one length (`Merkle.MovedCharacterCollides`).
* The STUN parser accepts a datagram that ends inside the address (`Stun.CutAddressIsAccepted`).
* The block file does not look at how much of a block was written. A block is lost by a short write unless the missing
  bytes were in the file already (`BlockFile.ReadsBackIff`, `BlockFile.OneByteOfTwo`, `BlockFile.FailedThenShort`);
  the blocks before and after it are not affected.
* A transaction without a fee passes the pool's minimum-fee check, for nothing compares below the minimum with a missing
  number (`Mempool.TransactionPool.AddTransaction`).


## Model

| member | source | states |
|---|---|---|
| `LedgerBlocks.AcceptedIff` | src/blockchain/state_machine.js:96-189 | a block is accepted if and only if it names a hash and a validator, stands at the next height, names the last accepted hash if there is one and is at most 60000 ms ahead, every transaction is well formed, affordable and next-nonce in the pre-block state, senders are distinct, and each can pay at its own turn after the reward; the accounts are then those of applying the list |
| `LedgerBlocks.AcceptedIffUnderCap` | src/blockchain/state_machine.js:96-189 | with the supply at or below the cap, the block's own fields against the pre-block state decide acceptance |
| `LedgerBlocks.PreValidateIff` | src/blockchain/state_machine.js:136-148 | pre-validation passes exactly when each transaction passes against the pre-block accounts, whatever accounts the loop has created meanwhile |
| `LedgerBlocks.ApplyTxsIff` | src/blockchain/state_machine.js:154-159 | given next nonces, applying the list succeeds exactly when senders are distinct and each is affordable at its turn |
| `LedgerBlocks.UsedNonceFails` | src/blockchain/state_machine.js:244-249 | a transaction whose nonce is already used anywhere in a list makes the whole list fail |
| `LedgerBlocks.ApplyTxsClosedForm` | src/blockchain/state_machine.js:196-282 | every account after a list of transactions: balance plus the sum of what it received, nonce plus one if it sent, stake untouched, and exactly the touched accounts exist |
| `LedgerBlocks.OrderIndependentIff` | src/blockchain/state_machine.js:96-282 | every order of an accepted block is accepted with the same resulting ledger if and only if its validator can pay for its own transactions from the rewarded pre-block balance |
| `LedgerBlocks.OrderIndependentUnderCap` | src/blockchain/state_machine.js:96-334 | under the cap every order of an accepted block is accepted and leads to the same ledger |
| `LedgerBlocks.ReorderedState` | src/blockchain/state_machine.js:154-163 | two accepted orders of one block give the same accounts, nonces, supply, height and hash |
| `LedgerBlocks.WorstOrder` | src/blockchain/state_machine.js:154-159 | when the validator cannot pay for its own transactions, some order of the block is refused |
| `LedgerBlocks.OverCapOrderMatters` | src/blockchain/state_machine.js:313-334 | a reachable ledger over its cap and a block that is accepted in one order although its validator cannot pay first: the guard is needed |
| `LedgerConservation.Conservation` | src/blockchain/state_machine.js:196-307 | in every reachable state balances plus stakes plus fees of transactions naming no validator equal the total supply, rollbacks included |
| `LedgerConservation.TotalEffect` | src/blockchain/state_machine.js:196-282 | one transaction moves value but for an unclaimed fee, also when sender, recipient and fee receiver coincide |
| `LedgerConservation.TotalStake` | src/blockchain/state_machine.js:405-472 | staking and unstaking never change the total, whether accepted or refused |
| `LedgerConservation.TotalRegister` | src/blockchain/state_machine.js:479-521 | registration changes accounts and supply by the same amount |
| `LedgerConservation.TotalAwards` | src/blockchain/state_machine.js:628-668 | each award raises accounts and supply by the same amount |
| `LedgerConservation.TotalStep` | src/blockchain/state_machine.js:96-521 | any single operation changes accounts and supply equally, less the fees it burns |
| `LedgerRuns.EffectAt` | src/blockchain/state_machine.js:252-264 | the exact change a transaction makes to any address, roles adding up when addresses coincide; only the sender's nonce changes |
| `LedgerRuns.RewardSign` | src/blockchain/state_machine.js:313-334 | the block reward is negative exactly when the supply is already over the cap, and otherwise never takes it over |
| `LedgerRuns.AwardSupply` | src/blockchain/state_machine.js:479-521 | an operation other than a block changes the supply by its award alone and never the height; registration pays at most the developer award, because the early-validator award runs before the map insert |
| `LedgerRuns.HeightCountsBlocks` | src/blockchain/state_machine.js:162-163 | over any run the height is the number of accepted blocks |
| `LedgerRuns.SupplyIsSchedule` | src/blockchain/state_machine.js:288-334 | while awards plus the whole schedule fit under the cap, the supply over any run is the block-by-block schedule plus the awards, strictly below the cap, and the next reward is the scheduled one: the cap branch is unreachable |
| `LedgerRuns.NoncesAreConsecutive` | src/blockchain/state_machine.js:244-255 | over any run, rolled-back blocks included, the nonces that took effect from an account are 1, 2, 3, ... and their number is its stored nonce |
| `LedgerRuns.NoReplay` | src/blockchain/state_machine.js:136-159 | of two transactions of one sender that took effect, the later has the greater nonce, so no pair of sender and nonce takes effect twice |
| `LedgerRuns.BlockEndsUnderCap` | src/blockchain/state_machine.js:313-334 | after any accepted block the supply is at or below the cap; from above, the negative reward lands exactly on it |
| `LedgerRuns.OnlyRecentAwardsExceedCap` | src/blockchain/state_machine.js:288-334 | over any run the supply exceeds the cap by no more than the awards paid since the last accepted block |
| `LedgerSolvency.SolventIff` | src/blockchain/state_machine.js:96-334 | nobody owes anything anywhere along a run if and only if no call accepts a block that leaves its own validator owing |
| `LedgerSolvency.BlockSolventIff` | src/blockchain/state_machine.js:134-163 | an accepted block keeps everyone solvent if and only if its validator's balance, the reward and what the transactions bring it are not negative together |
| `LedgerSolvency.ApplyTxsKeepsAt` | src/blockchain/state_machine.js:196-282 | transactions never take an address that owes nothing below zero, whoever else owes something, and leave every stake alone |
| `LedgerSolvency.AlwaysSolvent` | src/blockchain/state_machine.js:96-334 | nobody owes anything along any run on which the supply is at or below the cap whenever a block is offered, also when the cap is reached |
| `LedgerSolvency.FittingRunsStayUnderCap` | src/blockchain/state_machine.js:288-334 | runs whose awards and schedule fit under the cap are such runs |
| `LedgerSolvency.EmptyBlockTakesExcess` | src/blockchain/state_machine.js:313-334 | over the cap an accepted empty block takes the whole excess from its validator, whatever it has |
| `LedgerSolvency.DebtIsReachable` | src/blockchain/state_machine.js:288-334 | a reachable ledger and an accepted empty block after which a validator owes |
| `LedgerChain.AcceptedBlocksAreChain` | src/blockchain/state_machine.js:96-163 | over any run the accepted blocks are a hash chain: heights 1, 2, 3, ..., each naming the hash of the block accepted before it, none from more than a minute ahead; the ledger points at its end |
| `LedgerChain.BlockMovesTip` | src/blockchain/state_machine.js:96-163 | a block is accepted only on the current tip, and moves height and hash to itself; a refused one changes nothing |
| `LedgerChain.StrangerIsRefused` | src/blockchain/state_machine.js:113-116 | a block that names another parent is refused whatever else it says |
| `LedgerChain.ChainCanGrow` | src/blockchain/state_machine.js:96-163 | an empty well-linked block is accepted in every state |
| `LedgerChain.BlockOutcome` | src/blockchain/state_machine.js:130-163 | balance, nonce and stake of every address after an accepted block, from what was minted and the transactions' own fields |
| `LedgerChain.RewardNearCap` | src/blockchain/state_machine.js:313-334 | a block mints the scheduled reward while it fits, and else what is left or the minimum, whichever is less |
| `LedgerChain.TxAcceptedIff` | src/blockchain/state_machine.js:196-249 | a transaction is accepted exactly with both parties, a positive amount, a fee not negative, a balance that covers them and the next nonce |
| `LedgerChain.TxMoves` | src/blockchain/state_machine.js:252-264 | what an accepted transaction takes from its sender and gives its recipient and the fee's receiver |
| `LedgerStakes.StakeOutcome` | src/blockchain/state_machine.js:405-427 | staking is accepted exactly when the balance covers it, unstaking when the stake does; it then moves that amount between the two, and nothing anywhere else |
| `LedgerStakes.ValidatorFollows` | src/blockchain/state_machine.js:429-465 | the registered validator takes its account's stake, becomes active from inactive at the minimum and inactive from active below it; other states, and other validators, stay |
| `LedgerStakes.StakingActivates` | src/blockchain/state_machine.js:405-472 | staking 40 of 100 leaves 60 and activates a waiting validator with 40 |
| `LedgerStakes.StakeIsSumOfMoves` | src/blockchain/state_machine.js:405-472 | over any run each account's stake is the sum of the amounts staked and unstaked there |
| `LedgerStakes.ValidatorStakeIsAccountStake` | src/blockchain/state_machine.js:405-521 | over any run every registered validator's stake is its account's |
| `LedgerStakes.RegisterOutcome` | src/blockchain/state_machine.js:479-521 | accepted exactly for a new address with the minimum staked; the first registration in the period is paid the developer reward, and no other anything |
| `LedgerStakes.RegisterLeavesOthers` | src/blockchain/state_machine.js:479-521 | registration leaves all other accounts alone |
| `LedgerStakes.DeveloperAwardOutcome` | src/blockchain/state_machine.js:628-643 | pays its address and the supply whatever happened before |
| `LedgerStakes.EarlyAwardOnce` | src/blockchain/state_machine.js:649-668 | pays a registered validator that was not paid yet; a second call changes nothing |
| `LedgerMachine.StateMachine.ApplyBlock` | src/blockchain/state_machine.js:96-189 | on live objects in two maps, the whole new state is the transition function's, whose outcome LedgerBlocks.AcceptedIff and LedgerChain.BlockOutcome state; a block refused at any point leaves every field of every record as it was |
| `LedgerMachine.StateMachine.ApplyOrRollBack` | src/blockchain/state_machine.js:130-188 | snapshot, try, and on failure copy back: the state after a failure is the state before |
| `LedgerMachine.StateMachine.TryBlock` | src/blockchain/state_machine.js:134-163 | pre-validate, mint and apply in place agree with the transition function on accounts, supply, height and hash |
| `LedgerMachine.StateMachine.PreValidate` | src/blockchain/state_machine.js:136-148 | the first loop, which creates accounts as it looks them up |
| `LedgerMachine.StateMachine.ApplyAll` | src/blockchain/state_machine.js:154-159 | the second loop, stopping at the first failure |
| `LedgerMachine.StateMachine.ApplyTransaction` | src/blockchain/state_machine.js:196-282 | both field conventions, every error branch, and the in-place debit, credit, nonce and fee |
| `LedgerMachine.StateMachine.Move` | src/blockchain/state_machine.js:252-255 | the three assignments of a transaction on account objects that may be one and the same |
| `LedgerMachine.StateMachine.ProcessBlockReward` | src/blockchain/state_machine.js:288-307 | credits the block's validator and the supply with one and the same reward |
| `LedgerMachine.StateMachine.CalculateBlockReward` | src/blockchain/state_machine.js:313-334 | division by a power of two equals repeated halving, with the remainder under the cap |
| `LedgerMachine.StateMachine.GetOrCreateAccount` | src/blockchain/state_machine.js:341-359 | returns the live object of an address, creating it empty if missing, and leaves every other entry the same object |
| `LedgerMachine.StateMachine.UpdateAccountBalance` | src/blockchain/state_machine.js:376-397 | refuses a debit beyond the balance, having created the account |
| `LedgerMachine.StateMachine.UpdateAccountStake` | src/blockchain/state_machine.js:405-472 | on live objects: the account, the amount and the validator behind it end up as the transition function says, whose outcome LedgerStakes.StakeOutcome and ValidatorFollows state field by field |
| `LedgerMachine.StateMachine.AwardDeveloperNodeReward` | src/blockchain/state_machine.js:628-643 | credits the award and the supply and claims the developer slot |
| `LedgerMachine.StateMachine.AwardEarlyValidatorReward` | src/blockchain/state_machine.js:649-668 | pays only a validator already in the map, once |
| `LedgerMachine.StateMachine.CreateStateSnapshot` | src/blockchain/state_machine.js:674-695 | the snapshot holds the state in fresh objects, none of them live |
| `LedgerMachine.StateMachine.RestoreStateSnapshot` | src/blockchain/state_machine.js:701-719 | restores every field from the snapshot into fresh objects |
| `LedgerMachine.StateMachine.constructor` | src/blockchain/state_machine.js:22-46 | a new machine is empty, at height 0 with no supply |
| `LedgerMachine.StateMachine.RegisterValidator` | src/blockchain/state_machine.js:479-521 | refusals, awards before the map insert, and the caller's own object, not a copy, stored under its address |
| `Issuance.MintedClosedForm` | src/blockchain/state_machine.js:313-334 | everything minted so far plus what remains is always twice one era of full rewards |
| `Issuance.MintedBounded` | src/blockchain/state_machine.js:313-334 | however many blocks are applied, minted rewards stay strictly below 2 * reward * interval |
| `Issuance.HalvedIsQuotient` | src/blockchain/state_machine.js:313-334 | dividing by 2 to the number of halvings equals halving step by step |
| `Issuance.MintedEra` | src/monitoring/metrics_integration.js:274-285 | within one era, the block-by-block sum grows by the same reward each block, so one multiplication gives it |
| `Metrics.AddEras` | src/monitoring/metrics_integration.js:274-285 | the era loop equals the block-by-block sum for every height |
| `Metrics.SupplyInRange` | src/monitoring/metrics_integration.js:287-289 | the block-by-block figure lies between 110 and the maximum supply at every height, so the cap never bites |
| `Metrics.MetricsIntegration.CalculateCurrentSupply` | src/monitoring/metrics_integration.js:254-296 | cached or computed, after any sequence of calls, the answer is 110 plus the block-by-block sum |
| `Metrics.AgreesWithLedger` | src/monitoring/metrics_integration.js:254-296 | on every ledger run whose awards fit under the cap, the figure is the ledger's supply with its awards replaced by 110 |
| `Validators.Validator.UpdateStats` | src/blockchain/validator.js:157-167 | exact effect on counters and uptime |
| `Validators.Validator.UpdateReputation` | src/blockchain/validator.js:72-91 | the new reputation as a function of outcome, accuracy and uptime, clamped to [0, 200] |
| `Validators.Validator.Jail` | src/blockchain/validator.js:97-101 | jails from any state, also from tombstoned |
| `Validators.Validator.TryUnjail` | src/blockchain/validator.js:107-113 | releases exactly a jailed validator whose term is strictly over |
| `Validators.Validator.Tombstone` | src/blockchain/validator.js:118-121 | sets the state and zeroes the reputation |
| `Validators.Validator.Activate` | src/blockchain/validator.js:127-134 | activates exactly an inactive validator |
| `Validators.Validator.CheckAndJailIfNeeded` | src/blockchain/validator.js:175-181 | jails exactly when more blocks are missed than allowed |
| `ValidatorLaws.CountersCount` | src/blockchain/validator.js:157-167 | over any sequence of outcomes the counters count them and uptime is the percentage produced |
| `ValidatorLaws.ReputationIsEarned` | src/blockchain/validator.js:72-91 | one point for a block, five lost for a miss, a fifth of a point for each percent of accuracy and uptime above 95, stopped at 0 and 200 |
| `ValidatorLaws.BetterIsNoWorse` | src/blockchain/validator.js:72-91 | doing better never earns less |
| `ValidatorLaws.ProducingRaisesIff` | src/blockchain/validator.js:72-91 | producing a block raises reputation if and only if it is below 200 and uptime is above 85 percent |
| `ValidatorLaws.MissingLowers` | src/blockchain/validator.js:72-91 | a miss costs at least 23 points, or all there are |
| `ValidatorLaws.JailLastsItsTerm` | src/blockchain/validator.js:97-113 | jail costs 20 points and ends with the first request strictly after the term |
| `ValidatorLaws.JailedForMissing` | src/blockchain/validator.js:175-181 | jailed for more misses than allowed, untouched otherwise |
| `ValidatorLaws.TombstoneHolds` | src/blockchain/validator.js:107-134 | neither release nor activation nor stake brings a tombstoned validator back |
| `ValidatorLaws.JailUndoesTombstone` | src/blockchain/validator.js:97-134 | but jailing it does: released and activated, it can be selected again |
| `RposSafety.StepKeeps` | src/consensus/rpos.js:228-681 | every handler in every state keeps the invariant: recorded precommits are members' and for the current proposal, accepted blocks have a quorum, proposals are next to the height, accepted heights are settled, reputations are bounded |
| `RposSafety.HeightNeverFalls` | src/consensus/rpos.js:552-618 | along every interleaving of proposals, votes, late votes, stale timers, rejections and timeouts the height never falls, rises by at most one per step, and a held proposal is at the height or one above |
| `RposSafety.OneBlockPerHeight` | src/consensus/rpos.js:467-618 | one engine accepts at most one block per height, however often late votes accept it again |
| `RposSafety.QuorumIntersection` | src/consensus/rpos.js:429-511 | if two engines over the same members accept x and y, at least two thresholds less the membership precommitted both |
| `RposSafety.ReputationsStayBounded` | src/blockchain/validator.js:72-91 | over every run of accept, reject, timeout, jail and tombstone steps reputation stays in [0, 201] |
| `RposSafety.MoreThanAThirdSignedBoth` | src/consensus/rpos.js:467-511 | with the default threshold of 0.67, more than a third of the members precommitted both blocks, which is no proof of a fault: see RposPrecommits.TwoBlocksOneHeight |
| `RposSafety.KnownProposerPaidTwice` | src/consensus/rpos.js:552-618 | while two more rewards fit, accepting a known proposer's block mints its reward twice, any other block's once |
| `RposPrecommits.StepPrecommitsProposal` | src/consensus/rpos.js:376-448 | whatever the step, a new precommit is for the proposal held |
| `RposPrecommits.OnePrecommitPerHeight` | src/consensus/rpos.js:376-511 | while all proposals held at one height are for the same block, no member precommits two blocks of one height |
| `RposPrecommits.TwoBlocksOneHeight` | src/consensus/rpos.js:376-511 | otherwise a node precommits two blocks of one height in successive rounds: a run that does so, with nothing accepted |
| `RposOutcomes.AnyVoteOutcome` | src/consensus/rpos.js:429-511 | a vote is kept under its voter; if the precommits then reach the threshold the held block is accepted, at its height, round 0, waiting, and below it nothing else changes |
| `RposOutcomes.VoteOutcome` | src/consensus/rpos.js:429-511 | the same for a vote in a run, whose own block hash is the proposal's |
| `RposOutcomes.PrecommitTimerOutcome` | src/consensus/rpos.js:393-407 | the delayed precommit is cast exactly on a quorum of prevotes |
| `RposOutcomes.QuorumsAreAccepted` | src/consensus/rpos.js:228-681 | in every state of every run, a held proposal whose precommits reach the threshold has been accepted |
| `RposOutcomes.RoundOutcome` | src/consensus/rpos.js:228-263 | a round starts if the engine runs with members enough, forgets proposal and votes, and proposes if it is this node's turn |
| `RposOutcomes.ProposalOutcome` | src/consensus/rpos.js:356-371 | taken up exactly from the expected proposer, at the next height, not older than the round |
| `RposOutcomes.VotingTimerOutcome` | src/consensus/rpos.js:467-511 | accepts on a quorum, however late; otherwise counts two rounds |
| `RposOutcomes.AcceptanceSettles` | src/consensus/rpos.js:552-618 | credits the proposer with a block and jails exactly the active validators with too many misses; the proposer earns two points, one more beyond the clamp, and a fifth of a point for each percent of uptime above 95; nobody else is touched |
| `RposOutcomes.TimeoutPenalises` | src/consensus/rpos.js:656-681 | a timeout costs the expected proposer a miss and at least 23 points, and its freedom if the misses are too many, nobody else anything; a new round starts |
| `RposOutcomes.InvalidProposalPenalises` | src/consensus/rpos.js:625-651 | so does an invalid proposal, to its sender |
| `RposOutcomes.RewardHalves` | src/consensus/rpos.js:720-737 | the full reward for the first halving interval, and half as much an interval later |
| `RposOutcomes.AwardExceedsCapIff` | src/consensus/rpos.js:720-737 | an award takes the supply over the cap if and only if the schedule pays less than the minimum, fits, and the minimum does not |
| `RposOutcomes.SupplyStaysNearCap` | src/consensus/rpos.js:552-737 | over any run that starts at or below the cap the supply stays less than one minimal reward, 0.00000001, above it |
| `RposEngine.RPoSConsensus.RunConsensusRound` | src/consensus/rpos.js:228-263 | a new round clears the proposal and the votes; the chain of calls it starts ends, by its decreases clause |
| `RposEngine.RPoSConsensus.ProposeBlock` | src/consensus/rpos.js:1039-1070 | this node's own block always validates, so proposing never leads back to rejecting |
| `RposEngine.RPoSConsensus.HandleProposedBlock` | src/consensus/rpos.js:356-371 | a valid proposal opens voting, an invalid one is penalised and starts a round |
| `RposEngine.RPoSConsensus.StartVotingPhase` | src/consensus/rpos.js:376-421 | wipes votes and prevotes for the proposal |
| `RposEngine.RPoSConsensus.PrecommitTimeout` | src/consensus/rpos.js:393-407 | the delayed precommit looks at whatever prevotes there are when it fires |
| `RposEngine.RPoSConsensus.CheckVotingProgress` | src/consensus/rpos.js:453-462 | finalizes exactly when precommits reach the rounded-up threshold |
| `RposEngine.RPoSConsensus.FinalizeVoting` | src/consensus/rpos.js:467-511 | accepts on quorum, otherwise counts a round and starts another |
| `RposEngine.RPoSConsensus.RejectBlock` | src/consensus/rpos.js:625-651 | penalises the proposer and starts a round |
| `RposEngine.RPoSConsensus.HandleProposalTimeout` | src/consensus/rpos.js:656-681 | penalises the current proposer and starts a round |
| `RposEngine.RPoSConsensus.CheckAndJailValidators` | src/consensus/rpos.js:686-695 | jails every active validator that has missed too many blocks |
| `RposEngine.RPoSConsensus.CastVote` | src/consensus/rpos.js:429-448 | with a proposal held, records any vote by anyone as it stands and finalizes on quorum, also after an acceptance; RposOutcomes.AnyVoteOutcome states the outcome |
| `RposEngine.RPoSConsensus.AcceptBlock` | src/consensus/rpos.js:552-618 | takes the proposal's height, resets the round, awards the reward once or twice and updates every validator |
| `RposEngine.RPoSConsensus.AwardBlockReward` | src/consensus/rpos.js:701-714 | adds the current reward to the supply |
| `RposEngine.RPoSConsensus.CalculateBlockReward` | src/consensus/rpos.js:720-737 | the halved reward, never below the minimum except for the remainder under the cap |
| `Selection.Select` | src/blockchain/validator_manager.js:543-551 | the first entry whose cumulative share reaches the draw; there always is one |
| `Selection.LastHits` | src/blockchain/validator_manager.js:543-551 | every draw hits the last entry at the latest, so the default is never relied on |
| `Selection.SelectIffBetween` | src/blockchain/validator_manager.js:523-551 | the draws that select an entry are exactly the integers between two consecutive boundaries |
| `Selection.CountIsGap` | src/blockchain/validator_manager.js:523-551 | the number of draws for an entry is the gap between its boundaries |
| `Selection.CountingFairness` | src/blockchain/validator_manager.js:504-551 | among all 2^32 draws, the number that select an entry differs from (2^32 - 1) * weight / total by at most one |
| `Selection.BoundedInfluence` | src/blockchain/validator.js:55-64 | reputation moves an eligible validator's share by at most a factor 4.02 either way from its share of eligible stake |
| `Merits.SelectionRule` | src/blockchain/validator_manager.js:504-551 | a draw selects the validator whose part of all stake * (66.665 + reputation) covers it |
| `Merits.ExactShare` | src/blockchain/validator.js:55-64 | each eligible validator's share of the draws is exactly its part of that sum |
| `Merits.ReputationCounts` | src/blockchain/validator.js:55-64 | of two of equal stake, the one of greater reputation has the strictly greater share |
| `Merits.FullReputationQuadruples` | src/blockchain/validator.js:55-64 | reputation 200 has more than four times the share of reputation 0 |
| `Merits.AtLeastAsManyDrawsIff` | src/blockchain/validator_manager.js:504-551 | at least as many whole draws if and only if the difference in share is not rounded away |
| `Merits.ReputationCostsAtMostOneDraw` | src/blockchain/validator_manager.js:504-551 | at equal stake greater reputation costs at most one of 2^32 draws, and none if the share is a draw greater |
| `Merits.AtLeastAsManyOfTwo` | src/blockchain/validator_manager.js:504-551 | between two validators of equal stake, greater reputation has at least as many draws |
| `Merits.GreaterReputationFewerDraws` | src/blockchain/validator_manager.js:504-551 | three validators of equal stake of whom one of greater reputation has one draw less |
| `Merits.ReputationDecides` | src/blockchain/validator_manager.js:504-551 | draw 0x66666666 between two of equal stake selects the second or the first by reputation alone |
| `ValidatorManager.Accumulate` | src/blockchain/validator_manager.js:524-534 | the running sums of stake share times multiplier are prefix sums of weights over the total stake; Merits.SelectionRule says what they select |
| `ValidatorManager.Normalise` | src/blockchain/validator_manager.js:536-541 | divides by the last sum when it is positive |
| `ValidatorManager.ScanTestIsHit` | src/blockchain/validator_manager.js:521-551 | the normalised comparison is the selection test whatever the positive total stake |
| `ValidatorManager.FilterEligible` | src/blockchain/validator_manager.js:315-318 | exactly the eligible validators, in insertion order |
| `ValidatorManager.Manager.RegisterValidator` | src/blockchain/validator_manager.js:228-263 | refuses exactly a taken address or a low stake, otherwise appends a fresh inactive validator with its two flags |
| `ValidatorManager.Scan` | src/blockchain/validator_manager.js:543-551 | stops at the first entry at or above the value; with none it is the first entry |
| `ValidatorManager.ScanSelects` | src/blockchain/validator_manager.js:524-551 | whatever the total stake but zero, the three loops end on the entry the selection rule names |
| `ValidatorManager.NegativeTotalHitsNothing` | src/blockchain/validator_manager.js:524-551 | with a negative total no entry is at or above any draw |
| `ValidatorManager.Choose` | src/blockchain/validator_manager.js:524-551 | the three loops together, for every total stake: if it is positive, the validator whose part of the merits covers the draw, else the default |
| `ValidatorManager.Manager.SelectValidator` | src/blockchain/validator_manager.js:504-568 | whatever total stake is recorded: null exactly when no validator is active with one unit of stake; otherwise, if the total is positive, the validator whose stake * (66.665 + reputation) covers the draw, and else the first one; the choice joins the last 1000 |
| `ValidatorManager.Manager.UpdateStats` | src/blockchain/validator_manager.js:142-174 | counts by state, averages, claimed rewards and the total stake, all recomputed |
| `ValidatorManager.CountsAddUp` | src/blockchain/validator_manager.js:142-174 | the four counts cover every validator once |
| `Influence.ShareOnEveryRun` | src/blockchain/validator_manager.js:504-551 | in every state of every consensus run, each eligible validator's share of the draws, and its number of draws to within one, is within a factor 4.02 of its share of stake |
| `Mempool.TopIsBest` | src/mempool/transaction_pool.js:440-470 | no choice of m entries pays more than the m best |
| `Mempool.SortDescends` | src/mempool/transaction_pool.js:440-447 | the order by fee per byte |
| `Mempool.TransactionPool.RemoveTransaction` | src/mempool/transaction_pool.js:403-423 | removes exactly the transaction with that hash and its bytes |
| `Mempool.GreedyIsOptimal` | src/mempool/transaction_pool.js:440-470 | in a pool whose transactions all have fees, the greedy block is feasible and no feasible choice pays more in fees |
| `Mempool.TransactionPool.SelectTransactionsForBlock` | src/mempool/transaction_pool.js:440-470 | in such a pool the selection is a duplicate-free part within both limits whose total fee no other such part exceeds |
| `Mempool.TransactionPool.AddTransaction` | src/mempool/transaction_pool.js:136-193 | admits exactly a transaction whose hash is new and present, with both parties, good signature and hash, a fee of at least the minimum or none, a nonce above the one stored for its sender field and not below its payer's; keeps hashes distinct and the byte count exact |
| `Merkle.CalculateMerkleRoot` | src/blockchain/block.js:42-74 | the nested loops end and give the level-by-level root, or the empty hash for no transactions |
| `Merkle.RootIsTreeTop` | src/blockchain/block.js:42-74 | the level-by-level root is the top of the recursive pair tree that repeats a last child |
| `Merkle.RootBindsOrCollides` | src/blockchain/block.js:42-74 | for any pair hash, equally long lists with one root are the same, or their two trees hash two different pairs to one value |
| `Merkle.RootBinds` | src/blockchain/block.js:42-74 | under an injective pair hash, equally long lists have the same root if and only if they are the same |
| `Merkle.StringRootBinds` | src/blockchain/block.js:55-66 | for the hash of a concatenation, with all hashes of one length: the same lists, or two different strings among those hashed have one hash |
| `Merkle.MovedCharacterCollides` | src/blockchain/block.js:55-66 | without one length, for every hash: moving a character between neighbours keeps the root |
| `Merkle.RepeatedLastCollides` | src/blockchain/block.js:49-71 | repeating the last of an odd list keeps the root |
| `Merkle.LevelCollides` | src/blockchain/block.js:55-71 | every list longer than two has the same root as its own first level |
| `Merkle.LengthsCollide` | src/blockchain/block.js:42-74 | any two lengths have lists with one root |
| `Merkle.RootBindsIffEqualLengths` | src/blockchain/block.js:42-74 | under an injective pair hash, the root binds lists of two given lengths if and only if the lengths are equal |
| `PeerStore.StreamingBestK` | src/network/peer_store.js:179-204 | after any sequence of offers with new ids the stored reputations are exactly the maxPeers greatest of all offered |
| `PeerStore.BestIsUnique` | src/network/peer_store.js:179-204 | a collection has one best part of a given size |
| `PeerStore.OfferStep` | src/network/peer_store.js:179-204 | one offer keeps the store the best part of everything offered |
| `PeerStore.Store.AddPeer` | src/network/peer_store.js:179-204 | adds while there is room, or in place of the first-lowest peer if strictly better, and reports whether it did |
| `PeerStore.Store.GetLowestReputationPeer` | src/network/peer_store.js:303-313 | the first of the lowest |
| `PeerStore.Store.RemovePeer` | src/network/peer_store.js:232-249 | removes exactly the peer with that id |
| `Stun.ParseReadsResponse` | src/network/nat_traversal.js:214-277 | every well-formed response parses to what its attributes say: the last IPv4 mapped address, or nothing if a mapped address is too short |
| `Stun.WalkReadsAttributes` | src/network/nat_traversal.js:236-267 | the walk reads every attribute at its own offset, whatever its length and padding |
| `Stun.Unmasked` | src/network/nat_traversal.js:243-258 | unmasking with the cookie undoes the encoding, octet by octet, also of a value cut short |
| `Stun.OtherTransactionIgnored` | src/network/nat_traversal.js:229-233 | a response to another request is ignored |
| `Stun.OnMessage` | src/network/nat_traversal.js:214-277 | the handler resolves with what the message parses to |
| `Stun.ParseAttributes` | src/network/nat_traversal.js:236-267 | the loop ends, stays on four-byte boundaries, and agrees with the walk; a read past the end gives nothing |
| `Stun.Next` | src/network/nat_traversal.js:262-266 | the offset advances by at least four and keeps its alignment |
| `Stun.RoundTrip` | src/network/nat_traversal.js:214-277 | the endpoint a server encodes per RFC 5389 section 15.2, wherever it stands among other attributes of any length, is the one returned; mapped addresses before it are overridden |
| `Stun.WalkSkips` | src/network/nat_traversal.js:236-267 | the walk gets past whole attributes with what they say, whatever follows |
| `Stun.CutAddressIsAccepted` | src/network/nat_traversal.js:243-258 | a datagram that ends inside the address of its last attribute, whatever stands before, is accepted, with the right endpoint if and only if the missing octets equal the cookie's |
| `Stun.HeaderIsRequired` | src/network/nat_traversal.js:214-233 | an endpoint is read only from a message that starts with octets 01 01, has 21 12 A4 42 from octet 4 and the transaction id from octet 8 |
| `Stun.WireResponse` | src/network/nat_traversal.js:236-258 | a response with one mapped address, octet by octet |
| `Stun.SampleAddress` | src/network/nat_traversal.js:243-258 | the octets of the IPv4 sample response in section 2.2 of RFC 5769 read as 192.0.2.1, port 32853 |
| `Stun.XorDigit` | src/network/nat_traversal.js:247-256 | the exclusive or of two numbers goes hexadecimal digit by digit |
| `Staking.UnstakeConservesIff` | src/consensus/state_machine.js:713-799 | an accepted unstaking keeps the total if and only if the amount is positive or the balance can pay for it |
| `Staking.NegativeUnstakeCreates` | src/consensus/state_machine.js:739-764 | a negative unstaking from an empty account raises the stake and pays nothing |
| `Staking.StakeTotal` | src/consensus/state_machine.js:626-706 | staking keeps the total whatever the amount |
| `Staking.RewardedOnce` | src/consensus/distribution.js:149-288 | over any run no address is rewarded twice, and the rewarded set holds exactly the addresses paid |
| `Staking.RunBooks` | src/consensus/distribution.js:205-288 | over any run the total distributed and the counters agree with the set of rewarded addresses |
| `Staking.StakeKeepsMinimumIff` | src/consensus/state_machine.js:626-706 | staking keeps every stake at the minimum if and only if the new stake reaches it |
| `Staking.RunKeepsFloors` | src/consensus/state_machine.js:440-513 | over any run no balance is negative, and with positive amounts no stake is below the minimum |
| `Staking.UnstakeUndoesStake` | src/consensus/state_machine.js:713-799 | unstaking what was just staked restores the whole state |
| `Staking.DistributionIsAllThatGrows` | src/consensus/state_machine.js:323-799 | over any run of positive amounts balances plus stakes grow by exactly what was distributed: the developer reward, if paid, plus one validator reward per validator rewarded; by nothing if the period pays elsewhere |
| `Staking.RunTotal` | src/consensus/state_machine.js:323-799 | over any run whatever the amounts, the total grows by what was paid into this ledger plus what unbacked unstaking created |
| `Staking.RegisterTotal` | src/consensus/state_machine.js:323-431 | registration moves the stake and adds exactly the reward paid into this ledger |
| `Staking.NegativeStakeSinks` | src/consensus/state_machine.js:648-672 | a validator at the minimum stakes a negative amount, is accepted, and its stake is below the minimum |
| `StakingOutcomes.ClaimOutcome` | src/consensus/distribution.js:149-288 | a reward is paid exactly inside the period, once an address, the developer's once and to the address named; it is then on the books and in the account |
| `StakingOutcomes.RegisterOutcome` | src/consensus/state_machine.js:323-431 | accepted exactly with all parameters, a new address and a stake that the balance covers and that reaches the minimum; moves the stake and pays the reward due |
| `StakingOutcomes.StakeOutcome` | src/consensus/state_machine.js:626-706 | accepted exactly for a registered validator whose balance covers it; moves the amount, and touches no other address |
| `StakingOutcomes.UnstakeOutcome` | src/consensus/state_machine.js:713-799 | accepted exactly if the stake stays at the minimum; the stake falls, and the balance gains, by the amount |
| `StakingOutcomes.JailLastsItsTerm` | src/consensus/state_machine.js:807-958 | a jailed validator is released by its first request after the term and by none before |
| `StakingOutcomes.OnlyJailedAreReleased` | src/consensus/state_machine.js:874-958 | a request of a validator that is not jailed changes nothing |
| `StakingOutcomes.StakeIsSumOfMoves` | src/consensus/state_machine.js:323-799 | over any run a stake is what was registered and staked less what was unstaked |
| `StakingMachine.StateMachine.UpdateBalance` | src/consensus/state_machine.js:440-513 | refuses exactly a debit beyond the balance, with the account created |
| `StakingMachine.StateMachine.AddBalance` | src/consensus/state_machine.js:522-541 | credits positive amounts only |
| `StakingMachine.StateMachine.StakeTokens` | src/consensus/state_machine.js:626-706 | every refusal, then stake and debit in place |
| `StakingMachine.StateMachine.UnstakeTokens` | src/consensus/state_machine.js:713-799 | every refusal, then stake and credit in place, the credit's refusal ignored |
| `StakingMachine.StateMachine.JailValidator` | src/consensus/state_machine.js:807-868 | jails any registered validator until now plus the term |
| `StakingMachine.StateMachine.UnjailValidator` | src/consensus/state_machine.js:874-958 | releases exactly a jailed validator whose term is over |
| `StakingMachine.DistributionPeriod.CheckEligibility` | src/consensus/distribution.js:149-197 | the refusals in order and the kind of reward otherwise |
| `StakingMachine.StateMachine.RegisterValidator` | src/consensus/state_machine.js:323-431 | every refusal in order, then stake, debit and distribution reward in place, into this machine, another one or none |
| `StakingMachine.DistributionPeriod.ProcessReward` | src/consensus/distribution.js:205-288 | pays an eligible address into the state machine, if there is one, and enters it in the books |
| `BlockFile.BlockchainStore.AddBlock` | src/storage/add_block_implementation.js:7-75 | refuses exactly a block without hash or not at the next height, and then changes nothing; a failed write leaves the indices alone, a later throw does not undo them |
| `BlockFile.BlockchainStore.GetBlockByHeight` | src/storage/blockchain_store.js:803-829 | reads the range and decodes it |
| `BlockFile.BlockchainStore.GetBlockByHash` | src/storage/blockchain_store.js:836-850 | looks the height up and reads it |
| `BlockFile.RangesTile` | src/storage/add_block_implementation.js:46-75 | after any run, whatever its writes did, the ranges of heights 0 to currentHeight follow one another from 0 to filePosition |
| `BlockFile.EveryHeightReads` | src/storage/blockchain_store.js:803-829 | after any run every height up to the current one reads as what its own write landed decodes to, and no other height reads |
| `BlockFile.ReadsBackIff` | src/storage/blockchain_store.js:803-829 | a height reads back as the block accepted there if and only if its write was whole or the bytes it left out were there already, with all other writes arbitrary |
| `BlockFile.WholeWriteReadsBack` | src/storage/blockchain_store.js:803-829 | a height whose own write was whole reads back as the block accepted there |
| `BlockFile.LaterCallsKeepBlocks` | src/storage/add_block_implementation.js:46-75 | no later call, whatever becomes of it, changes what an accepted height reads as |
| `BlockFile.HashReads` | src/storage/blockchain_store.js:836-850 | a hash reads as the last accepted height that has it, and as nothing if none has |
| `BlockFile.AddAgrees` | src/storage/add_block_implementation.js:46-75 | one call keeps the index in agreement with the log of accepted blocks, whatever its write did |
| `BlockFile.ShortWriteLosesBlock` | src/storage/add_block_implementation.js:59-64 | a short write that reports success loses a first block that does not end in a zero byte |
| `BlockFile.OneByteOfTwo` | src/storage/add_block_implementation.js:59-64 | a call after which the accepted block reads as nothing |
| `BlockFile.FailedThenShort` | src/storage/add_block_implementation.js:59-64 | a short write is harmless after a failed write of the same block |
| `BlockFile.NextCallOutcome` | src/storage/add_block_implementation.js:7-75 | after any run, exactly a call with the next block and a write that succeeds makes the log longer, by that block; other calls move no height and no index |
| `BlockFile.NextBlockReadsBack` | src/storage/add_block_implementation.js:7-75 | after any run the next block, once written as a whole, reads back by its height |
| `Checkpoints.PrunedIsTopOfEver` | src/storage/checkpoint_manager.js:456-490 | pruning along the way loses nothing that pruning at the end would keep |
| `Checkpoints.RunKeepsLast` | src/storage/checkpoint_manager.js:155-220 | over any run the last checkpoint height is the greatest stored height, or 0 if none is positive |
| `Checkpoints.LatestIsLatestEver` | src/storage/checkpoint_manager.js:314-320 | pruning never loses the latest checkpoint |
| `Checkpoints.PruningKeepsNearestIff` | src/storage/checkpoint_manager.js:327-337 | pruning leaves the nearest checkpoint at a height unchanged if and only if some kept height is at most it or there was none |
| `Checkpoints.TopIsUnique` | src/storage/checkpoint_manager.js:456-475 | one set is the k greatest |
| `Checkpoints.CheckpointManager.PruneOldCheckpoints` | src/storage/checkpoint_manager.js:456-490 | sort, slice and delete keep exactly the greatest |
| `Checkpoints.CheckpointManager.CreateCheckpoint` | src/storage/checkpoint_manager.js:155-241 | nothing is stored unless the block is found and the file written; then store and prune, after which a newest checkpoint is both the latest and the nearest at its height |
| `Checkpoints.CheckpointManager.Store` | src/storage/checkpoint_manager.js:630-640 | the map gains exactly this entry, and the last height rises to it if it is higher |
| `Checkpoints.CheckpointManager.ImportCheckpoints` | src/storage/checkpoint_manager.js:536-593 | afterwards every height on the list holds the last entry for it, and every other height what it held |
| `Checkpoints.CheckpointManager.GetNearestCheckpoint` | src/storage/checkpoint_manager.js:327-337 | the checkpoint at the greatest positive height at or below, or none |
| `Checkpoints.CheckpointManager.GetLatestCheckpoint` | src/storage/checkpoint_manager.js:314-320 | the checkpoint at the last height, or none |
| `Checkpoints.StoredWasHanded` | src/storage/checkpoint_manager.js:155-241 | over any run what is stored at a height is the last checkpoint created, saved or imported there, and the last height is the greatest of all of them |
| `Checkpoints.PrunedIsTopOfHanded` | src/storage/checkpoint_manager.js:456-490 | right after a creation or pruning, the stored heights are the maxCheckpoints greatest of all those handed over |
| `Checkpoints.NothingIsLostEarly` | src/storage/checkpoint_manager.js:155-241 | while no more were handed over than are kept, all of them are stored, the last at each height |
| `Checkpoints.CreatedIsLatest` | src/storage/checkpoint_manager.js:314-337 | a checkpoint just created at a height no lower than any before is the latest and the nearest at its height |

## Left out

- Floating-point rounding, NaN and infinities: amounts are exact reals. The one place where NaN decides a branch, a
  pre-validated transaction without amount or fee, is modelled as the comparison failing.
- Events, listeners and log lines; an `error` event without a listener would throw.
- Timestamps kept for display, monitoring counters, getters, `toJSON`/`fromJSON` pairs and statistics: easy members.
- PostgreSQL and Redis persistence, the websocket and HTTP interfaces, sockets, hole punching and peer exchange.
- Interleavings inside one asynchronous call: each call is one step, and calls follow one another.
- Jailing, unjailing and tombstoning through the ledger: `unjailValidator` calls methods the validator record does not
  have, and after a rollback the records are plain copies without methods.
- Insertion order of maps, except in the mempool, the peer store and the selection scan, where it decides the result.
- `finalizedBlocks` of the consensus engine, and `lastProposedBlock` and `proposedBlocks`, which `acceptBlock` writes
  into a validator record that declares neither.
- Rpos.Award: halvings of a negative height, which no run reaches, count as none.
- Starting the engine, loading validators, and adding, removing or slashing them: `activeValidators` is fixed during a run.
- RposEngine.RPoSConsensus.CastVote: demands that a proposal is held, for a quorum without one would dereference null.
- RposSafety.StepKeeps: runs are made of votes by members for the proposal held, as `startVotingPhase` casts them; the
  method itself checks neither, and `RposEngine.RPoSConsensus.CastVote` is proved for every vote.
- RposSafety.MoreThanAThirdSignedBoth: stated for the default threshold; `RposSafety.QuorumIntersection` covers any other.
- ValidatorManager.Manager.SelectValidator: demands reputations that are not negative, as every run keeps them
  (`RposSafety.ReputationsStayBounded`); the hash of the seed is the input `draw`.
- The other operations of the validator manager, such as changing a stake or paying its distribution rewards.
- `evictLowerFeeTransactions` and the size limit of the pool: nothing calls the former.
- Transaction expiry and inclusion marks of the pool, and what a transaction's own `verify` and hash compute: two flags.
- Mempool.GreedyIsOptimal: every transaction in the pool has a fee. Without one its rate is not a number, the comparison
  function of the sort is inconsistent, and the order it leaves is up to the library.
- Mempool.TransactionPool.SelectTransactionsForBlock: the same; the library sort is a stable insertion sort by fee per byte.
- Merkle.RootBinds: for an injective hash of a pair, which no hash of bounded length is; `Merkle.RootBindsOrCollides` and
  `Merkle.StringRootBinds` need no such assumption and exhibit the collision. SHA-256 itself is not part of this model.
- PeerStore.StreamingBestK: ids are new and reputations do not change between offers.
- Stun.OnMessage: the address is four octets; writing it as dotted text is left out.
- BlockFile.ReadsBackIff: assumes of the decoder that nothing but a block's own encoding, among byte strings of that
  length, decodes to the block; `BlockFile.EveryHeightReads` says what a height reads as without it.
- BlockFile.BlockchainStore.AddBlock: transaction maps and the UTXO store are one flag, whether a later step throws.
- Checkpoints.RunKeepsLast: at least one checkpoint is kept, as the option's default enforces for zero.
- Checkpoints.CheckpointManager.ImportCheckpoints: signatures are checked before; the list holds what passed.
- Loading the block index and checkpoints from disk, signatures, hashes and restoring from a checkpoint.
- StakingMachine.StateMachine.RegisterValidator: the two clock readings of one registration are one.
