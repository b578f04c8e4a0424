/** What staking, registration and the awards do to an account and to the validator behind it, over every run. */
module LedgerStakes {
  import opened Wrappers
  import opened Validators
  import opened Ledger
  import opened LedgerRuns
  import opened LedgerBlocks
  import LedgerSolvency

  function BalanceOf(s: State, a: Address): real { if a in s.accounts then s.accounts[a].balance else 0.0 }

  function StakeOf(s: State, a: Address): real { if a in s.accounts then s.accounts[a].stake else 0.0 }

  function NonceOf(s: State, a: Address): int { if a in s.accounts then s.accounts[a].nonce else 0 }

  // ----------------------------------------------------------------- staking

  /** A stake can grow by what the balance holds and shrink by what is staked. */
  predicate CanMove(s: State, a: Address, x: real) {
    (x < 0.0 ==> -x <= StakeOf(s, a)) && (x > 0.0 ==> x <= BalanceOf(s, a))
  }

  /** The state of a registered validator after its stake has moved, from the state before. */
  function StatusAt(before: Status, stake: real, minimum: real): Status {
    match before
    case Inactive => if stake >= minimum then Active else Inactive
    case Active => if stake < minimum then Inactive else Active
    case Jailed => Jailed
    case Tombstoned => Tombstoned
  }

  /** Staking is accepted exactly when it can move, and then moves the amount and nothing else. */
  lemma StakeOutcome(o: Options, s: State, a: Address, x: real, other: Address)
    ensures var r := UpdateStake(o, s, a, x);
            && (r.accepted <==> CanMove(s, a, x))
            && StakeOf(r.state, a) == StakeOf(s, a) + (if r.accepted then x else 0.0)
            && BalanceOf(r.state, a) == BalanceOf(s, a) - (if r.accepted then x else 0.0)
            && NonceOf(r.state, a) == NonceOf(s, a)
            && (other != a ==> (other in r.state.accounts <==> other in s.accounts))
            && (other != a && other in s.accounts ==> r.state.accounts[other] == s.accounts[other])
            && (r.state.supply, r.state.height, r.state.lastHash) == (s.supply, s.height, s.lastHash)
            && r.state.developerSet == s.developerSet
  {}

  /** The validator behind the account follows it, in stake and across the minimum; nothing else about it changes. */
  lemma ValidatorFollows(o: Options, s: State, a: Address, x: real, other: Address)
    requires CanMove(s, a, x)
    ensures var r := UpdateStake(o, s, a, x).state;
            && r.validators.Keys == s.validators.Keys
            && (other != a && other in s.validators ==> r.validators[other] == s.validators[other])
            && (a in s.validators ==>
                  r.validators[a] == s.validators[a].(
                    stake := StakeOf(r, a), status := StatusAt(s.validators[a].status, StakeOf(r, a), o.minimumStake)))
  {}

  lemma RefusedStakeTouchesNoValidator(o: Options, s: State, a: Address, x: real)
    requires !CanMove(s, a, x)
    ensures UpdateStake(o, s, a, x).state.validators == s.validators
  {}

  /** For instance, staking 40 of 100 activates a waiting validator. */
  lemma StakingActivates(o: Options, s: State, a: Address, hundred: real, forty: real)
    requires 0.0 < forty <= hundred && BalanceOf(s, a) == hundred && StakeOf(s, a) == 0.0
    requires a in s.validators && s.validators[a].status == Inactive && o.minimumStake <= forty
    ensures var r := UpdateStake(o, s, a, forty);
            && r.accepted && BalanceOf(r.state, a) == hundred - forty && StakeOf(r.state, a) == forty
            && r.state.validators[a].stake == forty && r.state.validators[a].status == Active
  {
    StakeOutcome(o, s, a, forty, a);
    ValidatorFollows(o, s, a, forty, a);
  }

  // ------------------------------------------------------------- whole runs

  /** The sum of the amounts staked and unstaked at an address over a run, as far as they could move. */
  function Staked(o: Options, ops: seq<Op>, a: Address): real
    requires o.Valid()
  {
    if ops == [] then 0.0
    else
      var before, op := ops[..|ops| - 1], ops[|ops| - 1];
      Staked(o, before, a)
      + if op.StakeOp? && op.address == a && CanMove(Run(o, before), a, op.amount) then op.amount else 0.0
  }

  lemma ApplyTxKeepsStake(m: Accounts, t: Tx, a: Address)
    ensures Lookup(ApplyTx(m, t).accounts, a).stake == Lookup(m, a).stake
  {
    if ApplyTx(m, t).ok {
      EffectAt(m, t, a);
    }
  }

  lemma BlockKeepsStake(o: Options, s: State, b: Option<Block>, now: int, a: Address)
    requires o.Valid()
    ensures Lookup(ApplyBlock(o, s, b, now).state.accounts, a).stake == Lookup(s.accounts, a).stake
    ensures ApplyBlock(o, s, b, now).state.validators == s.validators
  {
    if ApplyBlock(o, s, b, now).accepted {
      assert ApplyBlock(o, s, b, now).state.validators == s.validators;
      AcceptedByParts(o, s, b, now);
      LedgerSolvency.BlockAt(o, s, b.value, now, a);
    } else {
      BlockSupply(o, s, b, now);
    }
  }

  lemma OtherKeepsStake(o: Options, s: State, op: Op, a: Address)
    requires o.Valid() && (op.RegisterOp? || op.DeveloperOp? || op.EarlyOp?)
    ensures Lookup(Step(o, s, op).accounts, a).stake == Lookup(s.accounts, a).stake
  {}

  lemma StepStake(o: Options, s: State, op: Op, a: Address)
    requires o.Valid()
    ensures StakeOf(Step(o, s, op), a) == StakeOf(s, a)
              + if op.StakeOp? && op.address == a && CanMove(s, a, op.amount) then op.amount else 0.0
  {
    hide ApplyBlock, ApplyTx, UpdateStake, Register, AwardDeveloper, AwardEarly;
    match op
    case BlockOp(b, now) => BlockKeepsStake(o, s, b, now, a);
    case TxOp(t) => ApplyTxKeepsStake(s.accounts, t, a);
    case StakeOp(b, x) => StakeOutcome(o, s, b, x, a);
    case _ => OtherKeepsStake(o, s, op, a);
  }

  /** Over any run each account's stake is the sum of the amounts staked less those unstaked. */
  lemma {:induction false} StakeIsSumOfMoves(o: Options, ops: seq<Op>, a: Address)
    requires o.Valid()
    ensures StakeOf(Run(o, ops), a) == Staked(o, ops, a)
  {
    if ops != [] {
      hide Step, CanMove, StakeOf;
      var before := ops[..|ops| - 1];
      StakeIsSumOfMoves(o, before, a);
      StepStake(o, Run(o, before), ops[|ops| - 1], a);
    } else {
      assert StakeOf(INITIAL, a) == 0.0;
    }
  }

  /** Every registered validator's stake is its account's. */
  predicate InStep(s: State) {
    forall a :: a in s.validators ==> s.validators[a].stake == StakeOf(s, a)
  }

  lemma StakeKeepsInStep(o: Options, s: State, a: Address, x: real)
    requires InStep(s)
    ensures InStep(UpdateStake(o, s, a, x).state)
  {
    hide UpdateStake;
    var r := UpdateStake(o, s, a, x).state;
    if CanMove(s, a, x) {
      ValidatorFollows(o, s, a, x, a);
      forall b | b in r.validators ensures r.validators[b].stake == StakeOf(r, b) {
        StakeOutcome(o, s, a, x, b);
        ValidatorFollows(o, s, a, x, b);
      }
    } else {
      RefusedStakeTouchesNoValidator(o, s, a, x);
      forall b | b in r.validators ensures r.validators[b].stake == StakeOf(r, b) {
        StakeOutcome(o, s, a, x, b);
      }
    }
  }

  lemma OtherKeepsInStep(o: Options, s: State, op: Op)
    requires o.Valid() && InStep(s) && (op.RegisterOp? || op.DeveloperOp? || op.EarlyOp?)
    ensures InStep(Step(o, s, op))
  {}

  lemma StepKeepsInStep(o: Options, s: State, op: Op)
    requires o.Valid() && InStep(s)
    ensures InStep(Step(o, s, op))
  {
    hide InStep, ApplyBlock, ApplyTx, UpdateStake, Register, AwardDeveloper, AwardEarly;
    match op
    case BlockOp(b, now) => BlockKeepsInStep(o, s, b, now);
    case TxOp(t) => TxKeepsInStep(s, t);
    case StakeOp(a, x) => StakeKeepsInStep(o, s, a, x);
    case _ => OtherKeepsInStep(o, s, op);
  }

  lemma BlockKeepsInStep(o: Options, s: State, b: Option<Block>, now: int)
    requires o.Valid() && InStep(s)
    ensures InStep(ApplyBlock(o, s, b, now).state)
  {
    hide ApplyBlock;
    var r := ApplyBlock(o, s, b, now).state;
    BlockKeepsStake(o, s, b, now, Absent);
    forall a | a in r.validators ensures r.validators[a].stake == StakeOf(r, a) {
      BlockKeepsStake(o, s, b, now, a);
    }
  }

  lemma TxKeepsInStep(s: State, t: Tx)
    requires InStep(s)
    ensures InStep(s.(accounts := ApplyTx(s.accounts, t).accounts))
  {
    hide ApplyTx;
    var r := s.(accounts := ApplyTx(s.accounts, t).accounts);
    forall a | a in r.validators ensures r.validators[a].stake == StakeOf(r, a) {
      ApplyTxKeepsStake(s.accounts, t, a);
    }
  }

  /** Over any run the stake recorded for a registered validator is the stake of its account. */
  lemma {:induction false} ValidatorStakeIsAccountStake(o: Options, ops: seq<Op>)
    requires o.Valid()
    ensures InStep(Run(o, ops))
  {
    if ops != [] {
      hide Step, InStep;
      ValidatorStakeIsAccountStake(o, ops[..|ops| - 1]);
      StepKeepsInStep(o, Run(o, ops[..|ops| - 1]), ops[|ops| - 1]);
    }
  }

  // ----------------------------------------------------- registration and awards

  /**
   Registration is accepted exactly for a new address that has the minimum staked. The validator then stands under its
   address with its account's stake, the first one marked as such; while the period lasts, the first one is paid the
   developer reward, and no one is paid anything else.
   */
  lemma RegisterOutcome(o: Options, s: State, a: Address, v: ValidatorData, now: int)
    ensures var r := Register(o, s, a, v, now);
            && (r.accepted <==> a !in s.validators && StakeOf(s, a) >= o.minimumStake)
            && (!r.accepted ==>
                  && r.state.validators == s.validators && r.state.developerSet == s.developerSet
                  && r.state.supply == s.supply && BalanceOf(r.state, a) == BalanceOf(s, a))
            && (r.accepted ==>
                  var paid := if s.developerSet || now >= o.distributionEnd then 0.0 else o.developerNodeReward;
                  && r.state.validators
                     == s.validators[a := v.(stake := StakeOf(s, a), isFirst := !s.developerSet || v.isFirst)]
                  && r.state.developerSet
                  && r.state.supply == s.supply + paid && BalanceOf(r.state, a) == BalanceOf(s, a) + paid)
            && (r.state.height, r.state.lastHash) == (s.height, s.lastHash)
  {}

  lemma RegisterLeavesOthers(o: Options, s: State, a: Address, v: ValidatorData, now: int, other: Address)
    requires other != a
    ensures var r := Register(o, s, a, v, now).state;
            && (other in r.accounts <==> other in s.accounts)
            && (other in s.accounts ==> r.accounts[other] == s.accounts[other])
  {}

  /** The developer award pays its address whatever has happened before, and claims the slot. */
  lemma DeveloperAwardOutcome(o: Options, s: State, a: Address)
    ensures var r := AwardDeveloper(o, s, a);
            && BalanceOf(r, a) == BalanceOf(s, a) + o.developerNodeReward && r.supply == s.supply + o.developerNodeReward
            && r.developerSet && r.validators == s.validators
  {}

  /** The early-validator award pays a registered validator once, and only once. */
  lemma EarlyAwardOnce(o: Options, s: State, a: Address)
    ensures var once, twice := AwardEarly(o, s, a), AwardEarly(o, AwardEarly(o, s, a), a);
            var due := a in s.validators && !s.validators[a].rewardClaimed;
            && BalanceOf(once, a) == BalanceOf(s, a) + (if due then o.earlyValidatorReward else 0.0)
            && once.supply == s.supply + (if due then o.earlyValidatorReward else 0.0)
            && (a in s.validators ==> once.validators[a].rewardClaimed)
            && twice == once
  {}
}
