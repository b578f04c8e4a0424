/**
 * The staking ledger of src/consensus/state_machine.js with the distribution rewards of
 * src/consensus/distribution.js, as functions on values; StakingMachine holds the classes.
 */
module Staking {
  import opened Wrappers
  import Sums

  type Address = Id

  datatype Account = Account(balance: real, nonce: int)

  type Accounts = map<Address, Account>

  datatype Validator = Validator(publicKey: Id, stake: real, status: Status, jailedUntil: Option<int>, missedBlocks: nat)

  /** The options of a distribution period. */
  datatype Terms = Terms(start: int, end: int, developerAddress: Address, developerReward: real, validatorReward: real) {
    predicate IsActive(now: int) { start <= now <= end }
  }

  /** The options of a ledger, and whether its distribution period, if it has one, pays into this ledger. */
  datatype Rules = Rules(
    minStake: real, jailDuration: int, developerAddress: Address, terms: Option<Terms>, attached: bool)
  {
    predicate Valid() {
      minStake > 0.0 && (terms.Some? ==> terms.value.developerReward > 0.0 && terms.value.validatorReward > 0.0)
    }
  }

  datatype Distribution = Distribution(
    rewarded: set<Address>, developerRewarded: bool, validatorsRewarded: nat, totalDistributed: real)

  datatype State = State(accounts: Accounts, validators: map<Address, Validator>, distribution: Distribution)

  // ---------------------------------------------------------------- accounts

  function Balance(m: Accounts, a: Address): real {
    if a in m then m[a].balance else 0.0
  }

  /** getAccount: a missing account comes into being empty. */
  function Touch(m: Accounts, a: Address): Accounts {
    if a in m then m else m[a := Account(0.0, 0)]
  }

  predicate Refuses(m: Accounts, a: Address, amount: real) {
    amount < 0.0 && Balance(m, a) + amount < 0.0
  }

  function UpdateBalance(m: Accounts, a: Address, amount: real): Accounts {
    var t := Touch(m, a);
    if Refuses(m, a, amount) then t else t[a := t[a].(balance := t[a].balance + amount)]
  }

  function AddBalance(m: Accounts, a: Address, amount: real): Accounts {
    if amount <= 0.0 then m else UpdateBalance(m, a, amount)
  }

  // ------------------------------------------------------------ distribution

  datatype Reward = NotEligible | DeveloperReward | ValidatorReward

  function Eligibility(t: Terms, d: Distribution, a: Address, isDeveloper: bool, now: int): Reward {
    if !t.IsActive(now) || a in d.rewarded then NotEligible
    else if !isDeveloper then ValidatorReward
    else if d.developerRewarded || (t.developerAddress.Id? && a != t.developerAddress) then NotEligible
    else DeveloperReward
  }

  function Amount(t: Terms, r: Reward): real {
    match r
    case NotEligible => 0.0
    case DeveloperReward => t.developerReward
    case ValidatorReward => t.validatorReward
  }

  function Record(t: Terms, d: Distribution, a: Address, r: Reward): Distribution {
    match r
    case NotEligible => d
    case DeveloperReward =>
      Distribution(d.rewarded + {a}, true, d.validatorsRewarded, d.totalDistributed + t.developerReward)
    case ValidatorReward =>
      Distribution(d.rewarded + {a}, d.developerRewarded, d.validatorsRewarded + 1, d.totalDistributed + t.validatorReward)
  }

  function ProcessReward(t: Terms, attached: bool, s: State, a: Address, isDeveloper: bool, now: int): State {
    var r := Eligibility(t, s.distribution, a, isDeveloper, now);
    if r.NotEligible? then s
    else s.(accounts := if attached then AddBalance(s.accounts, a, Amount(t, r)) else s.accounts,
            distribution := Record(t, s.distribution, a, r))
  }

  // -------------------------------------------------------------- operations

  datatype Op =
    | Register(address: Address, publicKey: Id, stake: real, signature: Id, now: int)
    | Stake(address: Address, amount: real, signature: Id)
    | Unstake(address: Address, amount: real, signature: Id)
    | Jail(address: Address, now: int)
    | Unjail(address: Address, signature: Id, now: int)
    | ClaimReward(address: Address, isDeveloper: bool, now: int)

  predicate CanRegister(rules: Rules, s: State, op: Op)
    requires op.Register?
  {
    && op.address.Id? && op.publicKey.Id? && op.stake != 0.0 && op.signature.Id?
    && op.address !in s.validators
    && Balance(s.accounts, op.address) >= op.stake >= rules.minStake
  }

  function AfterRegister(rules: Rules, s: State, op: Op): State
    requires op.Register?
  {
    var a := op.address;
    if !op.address.Id? || !op.publicKey.Id? || op.stake == 0.0 || !op.signature.Id? || a in s.validators then s
    else if !CanRegister(rules, s, op) then s.(accounts := Touch(s.accounts, a))
    else
      var t := s.(validators := s.validators[a := Validator(op.publicKey, op.stake, Active, None, 0)],
                  accounts := UpdateBalance(s.accounts, a, -op.stake));
      if rules.terms.None? then t
      else ProcessReward(rules.terms.value, rules.attached, t, a, a == rules.developerAddress, op.now)
  }

  predicate CanStake(s: State, op: Op)
    requires op.Stake?
  {
    && op.address.Id? && op.amount != 0.0 && op.signature.Id?
    && op.address in s.validators
    && Balance(s.accounts, op.address) >= op.amount
  }

  function AfterStake(s: State, op: Op): State
    requires op.Stake?
  {
    var a := op.address;
    if CanStake(s, op) then
      s.(validators := s.validators[a := s.validators[a].(stake := s.validators[a].stake + op.amount)],
         accounts := UpdateBalance(s.accounts, a, -op.amount))
    else if a.Id? && op.amount != 0.0 && op.signature.Id? && a in s.validators then s.(accounts := Touch(s.accounts, a))
    else s
  }

  predicate CanUnstake(rules: Rules, s: State, op: Op)
    requires op.Unstake?
  {
    && op.address.Id? && op.amount != 0.0 && op.signature.Id?
    && op.address in s.validators
    && s.validators[op.address].stake >= op.amount
    && s.validators[op.address].stake - op.amount >= rules.minStake
  }

  function AfterUnstake(rules: Rules, s: State, op: Op): State
    requires op.Unstake?
  {
    var a := op.address;
    if CanUnstake(rules, s, op) then
      s.(validators := s.validators[a := s.validators[a].(stake := s.validators[a].stake - op.amount)],
         accounts := UpdateBalance(s.accounts, a, op.amount))
    else s
  }

  function AfterJail(rules: Rules, s: State, op: Op): State
    requires op.Jail?
  {
    var a := op.address;
    if a !in s.validators then s
    else s.(validators := s.validators[a :=
      s.validators[a].(status := Jailed, jailedUntil := Some(op.now + rules.jailDuration * 1000))])
  }

  predicate CanUnjail(s: State, op: Op)
    requires op.Unjail?
  {
    && op.address.Id? && op.signature.Id? && op.address in s.validators
    && s.validators[op.address].status.Jailed?
    && (s.validators[op.address].jailedUntil.Some? ==>
          s.validators[op.address].jailedUntil.value == 0 || s.validators[op.address].jailedUntil.value <= op.now)
  }

  function AfterUnjail(s: State, op: Op): State
    requires op.Unjail?
  {
    var a := op.address;
    if !CanUnjail(s, op) then s
    else s.(validators := s.validators[a := s.validators[a].(status := Active, jailedUntil := None, missedBlocks := 0)])
  }

  function Step(rules: Rules, s: State, op: Op): State {
    match op
    case Register(_, _, _, _, _) => AfterRegister(rules, s, op)
    case Stake(_, _, _) => AfterStake(s, op)
    case Unstake(_, _, _) => AfterUnstake(rules, s, op)
    case Jail(_, _) => AfterJail(rules, s, op)
    case Unjail(_, _, _) => AfterUnjail(s, op)
    case ClaimReward(a, isDeveloper, now) =>
      if rules.terms.None? then s else ProcessReward(rules.terms.value, rules.attached, s, a, isDeveloper, now)
  }

  function Run(rules: Rules, s: State, ops: seq<Op>): State {
    if ops == [] then s else Step(rules, Run(rules, s, ops[..|ops| - 1]), ops[|ops| - 1])
  }

  // ------------------------------------------------------------ conservation

  ghost function Balances(m: Accounts): map<Address, real> {
    map a | a in m :: m[a].balance
  }

  ghost function Stakes(m: map<Address, Validator>): map<Address, real> {
    map a | a in m :: m[a].stake
  }

  /** Everything there is: balances and stakes. */
  ghost function Total(s: State): real {
    Sums.OverMap(Balances(s.accounts)) + Sums.OverMap(Stakes(s.validators))
  }

  /** What the distribution has paid into this ledger from one state to another. */
  function Distributed(rules: Rules, s: State, s': State): real {
    if rules.attached then s'.distribution.totalDistributed - s.distribution.totalDistributed else 0.0
  }

  lemma SetAccount(m: Accounts, a: Address, x: Account)
    ensures Sums.OverMap(Balances(m[a := x])) == Sums.OverMap(Balances(m)) - Balance(m, a) + x.balance
  {
    assert Balances(m[a := x]) == Balances(m)[a := x.balance];
    Sums.Update(Balances(m), a, x.balance);
  }

  lemma SetValidator(m: map<Address, Validator>, a: Address, x: Validator)
    ensures Sums.OverMap(Stakes(m[a := x])) == Sums.OverMap(Stakes(m)) - (if a in m then m[a].stake else 0.0) + x.stake
  {
    assert Stakes(m[a := x]) == Stakes(m)[a := x.stake];
    Sums.Update(Stakes(m), a, x.stake);
  }

  lemma TouchKeepsSum(m: Accounts, a: Address)
    ensures Sums.OverMap(Balances(Touch(m, a))) == Sums.OverMap(Balances(m))
  {
    SetAccount(m, a, Account(0.0, 0));
  }

  lemma UpdateBalanceSum(m: Accounts, a: Address, amount: real)
    ensures Sums.OverMap(Balances(UpdateBalance(m, a, amount)))
         == Sums.OverMap(Balances(m)) + if Refuses(m, a, amount) then 0.0 else amount
  {
    hide Balances;
    TouchKeepsSum(m, a);
    var t := Touch(m, a);
    SetAccount(t, a, t[a].(balance := t[a].balance + amount));
  }

  /** What a step lets out of nowhere: an accepted unstaking of a negative amount the balance cannot pay for. */
  function Unbacked(rules: Rules, s: State, op: Op): (x: real)
    ensures x >= 0.0
  {
    if op.Unstake? && CanUnstake(rules, s, op) && Refuses(s.accounts, op.address, op.amount) then -op.amount else 0.0
  }

  lemma RewardTotal(rules: Rules, s: State, a: Address, isDeveloper: bool, now: int)
    requires rules.Valid() && rules.terms.Some?
    ensures var s' := ProcessReward(rules.terms.value, rules.attached, s, a, isDeveloper, now);
            Total(s') == Total(s) + Distributed(rules, s, s')
  {
    hide Balances, UpdateBalance;
    var t := rules.terms.value;
    var r := Eligibility(t, s.distribution, a, isDeveloper, now);
    UpdateBalanceSum(s.accounts, a, Amount(t, r));
  }

  lemma RegisterTotal(rules: Rules, s: State, op: Op)
    requires rules.Valid() && op.Register?
    ensures var s' := AfterRegister(rules, s, op);
            Total(s') == Total(s) + Distributed(rules, s, s')
  {
    hide Balances, Stakes, UpdateBalance, Touch, ProcessReward;
    var a := op.address;
    TouchKeepsSum(s.accounts, a);
    if CanRegister(rules, s, op) {
      var v := Validator(op.publicKey, op.stake, Active, None, 0);
      var t := s.(validators := s.validators[a := v], accounts := UpdateBalance(s.accounts, a, -op.stake));
      UpdateBalanceSum(s.accounts, a, -op.stake);
      SetValidator(s.validators, a, v);
      if rules.terms.Some? {
        RewardTotal(rules, t, a, a == rules.developerAddress, op.now);
      }
    }
  }

  lemma StakeTotal(s: State, op: Op)
    requires op.Stake?
    ensures Total(AfterStake(s, op)) == Total(s)
  {
    hide Balances, Stakes, UpdateBalance, Touch;
    var a := op.address;
    TouchKeepsSum(s.accounts, a);
    if CanStake(s, op) {
      UpdateBalanceSum(s.accounts, a, -op.amount);
      SetValidator(s.validators, a, s.validators[a].(stake := s.validators[a].stake + op.amount));
    }
  }

  lemma UnstakeTotal(rules: Rules, s: State, op: Op)
    requires op.Unstake?
    ensures Total(AfterUnstake(rules, s, op)) == Total(s) + Unbacked(rules, s, op)
  {
    hide Balances, Stakes, UpdateBalance, Touch;
    var a := op.address;
    if CanUnstake(rules, s, op) {
      UpdateBalanceSum(s.accounts, a, op.amount);
      SetValidator(s.validators, a, s.validators[a].(stake := s.validators[a].stake - op.amount));
    }
  }

  /** Unstaking keeps the total if and only if the amount is positive or the balance can pay for it. */
  lemma UnstakeConservesIff(rules: Rules, s: State, op: Op)
    requires op.Unstake? && CanUnstake(rules, s, op)
    ensures Total(AfterUnstake(rules, s, op)) == Total(s) <==>
            op.amount > 0.0 || Balance(s.accounts, op.address) + op.amount >= 0.0
  {
    hide Total, AfterUnstake;
    UnstakeTotal(rules, s, op);
  }

  /** For instance, an empty account that unstakes a negative amount raises its stake and pays nothing. */
  lemma NegativeUnstakeCreates(rules: Rules, a: Address, signature: Id, v: Validator, x: real)
    requires a.Id? && signature.Id? && x > 0.0 && v.stake >= rules.minStake > 0.0
    ensures var s := State(map[], map[a := v], Distribution({}, false, 0, 0.0));
            var s' := AfterUnstake(rules, s, Unstake(a, -x, signature));
            s'.validators[a].stake == v.stake + x && Balance(s'.accounts, a) == 0.0 && Total(s') == Total(s) + x
  {
    hide Total;
    var s := State(map[], map[a := v], Distribution({}, false, 0, 0.0));
    UnstakeTotal(rules, s, Unstake(a, -x, signature));
  }

  lemma JailTotal(rules: Rules, s: State, op: Op)
    requires op.Jail? || op.Unjail?
    ensures Total(Step(rules, s, op)) == Total(s)
  {
    var a := op.address;
    if a in s.validators {
      var v := Step(rules, s, op).validators[a];
      SetValidator(s.validators, a, v);
      assert Step(rules, s, op).validators == s.validators[a := v];
    }
  }

  lemma StepTotal(rules: Rules, s: State, op: Op)
    requires rules.Valid()
    ensures var s' := Step(rules, s, op);
            Total(s') == Total(s) + Distributed(rules, s, s') + Unbacked(rules, s, op)
  {
    hide Total, ProcessReward, AfterRegister, AfterStake, AfterUnstake, CanUnstake;
    match op
    case Register(_, _, _, _, _) =>
      RegisterTotal(rules, s, op);
    case Stake(_, _, _) =>
      StakeTotal(s, op);
      StakePays(s, op);
    case Unstake(_, _, _) =>
      UnstakeTotal(rules, s, op);
      UnstakePays(rules, s, op);
    case Jail(_, _) =>
      JailTotal(rules, s, op);
    case Unjail(_, _, _) =>
      JailTotal(rules, s, op);
    case ClaimReward(a, isDeveloper, now) =>
      if rules.terms.Some? {
        RewardTotal(rules, s, a, isDeveloper, now);
      }
  }

  lemma StakePays(s: State, op: Op)
    requires op.Stake?
    ensures AfterStake(s, op).distribution == s.distribution
  {
  }

  lemma UnstakePays(rules: Rules, s: State, op: Op)
    requires op.Unstake?
    ensures AfterUnstake(rules, s, op).distribution == s.distribution
  {
  }

  /** What a whole run lets out of nowhere. */
  function RunUnbacked(rules: Rules, s: State, ops: seq<Op>): (x: real)
    ensures x >= 0.0
  {
    if ops == [] then 0.0
    else
      var before := ops[..|ops| - 1];
      RunUnbacked(rules, s, before) + Unbacked(rules, Run(rules, s, before), ops[|ops| - 1])
  }

  /** Over any run, the total grows by exactly what was distributed plus what unbacked unstaking created. */
  lemma {:induction false} RunTotal(rules: Rules, s: State, ops: seq<Op>)
    requires rules.Valid()
    ensures var s' := Run(rules, s, ops);
            Total(s') == Total(s) + Distributed(rules, s, s') + RunUnbacked(rules, s, ops)
  {
    if ops != [] {
      hide Total, Step, Unbacked;
      var before := ops[..|ops| - 1];
      RunTotal(rules, s, before);
      StepTotal(rules, Run(rules, s, before), ops[|ops| - 1]);
    }
  }

  /** Calls that stake and unstake positive amounts only. */
  predicate Positive(op: Op) {
    (op.Stake? || op.Unstake?) ==> op.amount > 0.0
  }

  predicate AllPositive(ops: seq<Op>) {
    forall i :: 0 <= i < |ops| ==> Positive(ops[i])
  }

  lemma {:induction false} PositiveIsBacked(rules: Rules, s: State, ops: seq<Op>)
    requires AllPositive(ops)
    ensures RunUnbacked(rules, s, ops) == 0.0
  {
    if ops != [] {
      PositiveIsBacked(rules, s, ops[..|ops| - 1]);
      assert Positive(ops[|ops| - 1]);
    }
  }

  // ----------------------------------------------------- rewards, each once

  /** The developer reward, if paid, plus one validator reward for each validator rewarded. */
  function Due(t: Terms, d: Distribution): real {
    (if d.developerRewarded then t.developerReward else 0.0) + d.validatorsRewarded as real * t.validatorReward
  }

  /** The books of the distribution agree with the set of rewarded addresses. */
  predicate Books(rules: Rules, d: Distribution) {
    && |d.rewarded| == d.validatorsRewarded + (if d.developerRewarded then 1 else 0)
    && (rules.terms.None? ==> d.totalDistributed == 0.0)
    && (rules.terms.Some? ==> d.totalDistributed == Due(rules.terms.value, d))
  }

  lemma OneMore(n: nat, x: real)
    ensures (n + 1) as real * x == n as real * x + x
  {
  }

  lemma RecordKeepsBooks(rules: Rules, d: Distribution, a: Address, isDeveloper: bool, now: int)
    requires rules.terms.Some? && Books(rules, d)
    ensures Books(rules, Record(rules.terms.value, d, a, Eligibility(rules.terms.value, d, a, isDeveloper, now)))
  {
    OneMore(d.validatorsRewarded, rules.terms.value.validatorReward);
  }

  /** Whom a step rewards. */
  function Payee(rules: Rules, s: State, op: Op): Option<Address> {
    if rules.terms.None? then None
    else if op.Register? then
      if CanRegister(rules, s, op)
         && !Eligibility(rules.terms.value, s.distribution, op.address,
                         op.address == rules.developerAddress, op.now).NotEligible?
      then Some(op.address) else None
    else if op.ClaimReward?
            && !Eligibility(rules.terms.value, s.distribution, op.address, op.isDeveloper, op.now).NotEligible?
    then Some(op.address)
    else None
  }

  lemma StepBooks(rules: Rules, s: State, op: Op)
    requires Books(rules, s.distribution)
    ensures Books(rules, Step(rules, s, op).distribution)
  {
    hide Books, Eligibility, Record, UpdateBalance, Touch;
    if rules.terms.Some? && op.Register? {
      RecordKeepsBooks(rules, s.distribution, op.address, op.address == rules.developerAddress, op.now);
    } else if rules.terms.Some? && op.ClaimReward? {
      RecordKeepsBooks(rules, s.distribution, op.address, op.isDeveloper, op.now);
    }
  }

  /** Only an address not rewarded before is rewarded, and it is on the books from then on. */
  lemma StepPayee(rules: Rules, s: State, op: Op)
    ensures var p, d, d' := Payee(rules, s, op), s.distribution.rewarded, Step(rules, s, op).distribution.rewarded;
            d' == (if p.Some? then d + {p.value} else d) && (p.Some? ==> p.value !in d)
  {
    hide UpdateBalance, Touch;
  }

  function Payees(rules: Rules, s: State, ops: seq<Op>): seq<Address> {
    if ops == [] then []
    else
      var before := ops[..|ops| - 1];
      var p := Payee(rules, Run(rules, s, before), ops[|ops| - 1]);
      Payees(rules, s, before) + if p.Some? then [p.value] else []
  }

  predicate Fresh(s: State) {
    s.distribution == Distribution({}, false, 0, 0.0)
  }

  lemma {:induction false} RunBooks(rules: Rules, s: State, ops: seq<Op>)
    requires Books(rules, s.distribution)
    ensures Books(rules, Run(rules, s, ops).distribution)
  {
    if ops != [] {
      hide Books, Step;
      RunBooks(rules, s, ops[..|ops| - 1]);
      StepBooks(rules, Run(rules, s, ops[..|ops| - 1]), ops[|ops| - 1]);
    }
  }

  /** Over any run no address is rewarded twice, and the rewarded addresses are the ones on the books. */
  lemma {:induction false} RewardedOnce(rules: Rules, s: State, ops: seq<Op>)
    requires s.distribution.rewarded == {}
    ensures var p := Payees(rules, s, ops);
            && (forall i, j :: 0 <= i < j < |p| ==> p[i] != p[j])
            && (forall a :: a in Run(rules, s, ops).distribution.rewarded <==> a in p)
  {
    if ops != [] {
      hide Step, Payee;
      var before := ops[..|ops| - 1];
      RewardedOnce(rules, s, before);
      StepPayee(rules, Run(rules, s, before), ops[|ops| - 1]);
      var p := Payees(rules, s, before);
      forall i | 0 <= i < |p| ensures p[i] in Run(rules, s, before).distribution.rewarded {
        assert p[i] in p;
      }
    }
  }

  /**
   * Over any run of positive amounts from a fresh distribution that pays into this ledger, the sum of balances and
   * stakes grows by exactly the developer reward, if paid, plus one validator reward for each validator rewarded.
   * Without one, or with one that pays elsewhere, it does not change.
   */
  lemma DistributionIsAllThatGrows(rules: Rules, s: State, ops: seq<Op>)
    requires rules.Valid() && Fresh(s) && AllPositive(ops)
    ensures var s' := Run(rules, s, ops); var d := s'.distribution;
            && |d.rewarded| == d.validatorsRewarded + (if d.developerRewarded then 1 else 0)
            && (rules.terms.Some? && rules.attached ==>
                  Total(s') == Total(s) + d.totalDistributed == Total(s) + Due(rules.terms.value, d))
            && (rules.terms.None? || !rules.attached ==> Total(s') == Total(s))
  {
    hide Total, Run, RunUnbacked;
    RunTotal(rules, s, ops);
    PositiveIsBacked(rules, s, ops);
    assert Books(rules, s.distribution);
    RunBooks(rules, s, ops);
  }

  // ----------------------------------------------------- stakes and balances

  predicate StakesSuffice(rules: Rules, m: map<Address, Validator>) {
    forall a :: a in m ==> m[a].stake >= rules.minStake
  }

  predicate NoDebts(m: Accounts) {
    forall a :: a in m ==> m[a].balance >= 0.0
  }

  /** Staking keeps every stake at the minimum or above if and only if the new stake reaches it. */
  lemma StakeKeepsMinimumIff(rules: Rules, s: State, op: Op)
    requires op.Stake? && CanStake(s, op) && StakesSuffice(rules, s.validators)
    ensures StakesSuffice(rules, AfterStake(s, op).validators) <==>
            s.validators[op.address].stake + op.amount >= rules.minStake
  {
    var m := AfterStake(s, op).validators;
    assert m[op.address].stake == s.validators[op.address].stake + op.amount;
  }

  /** For instance, a validator at the minimum stakes a negative amount: its stake sinks below and its balance gains. */
  lemma NegativeStakeSinks(rules: Rules, a: Address, signature: Id, v: Validator, x: real)
    requires a.Id? && signature.Id? && x > 0.0 && v.stake == rules.minStake
    ensures var s := State(map[], map[a := v], Distribution({}, false, 0, 0.0));
            var s' := AfterStake(s, Stake(a, -x, signature));
            && CanStake(s, Stake(a, -x, signature)) && StakesSuffice(rules, s.validators)
            && s'.validators[a].stake < rules.minStake && Balance(s'.accounts, a) == x
  {
  }

  lemma StepKeepsStakes(rules: Rules, s: State, op: Op)
    requires StakesSuffice(rules, s.validators) && Positive(op)
    ensures StakesSuffice(rules, Step(rules, s, op).validators)
  {
    hide UpdateBalance, Touch, Eligibility, Record;
    if op.Stake? && CanStake(s, op) {
      StakeKeepsMinimumIff(rules, s, op);
    }
  }

  lemma UpdateKeepsNoDebts(m: Accounts, a: Address, amount: real)
    requires NoDebts(m)
    ensures NoDebts(UpdateBalance(m, a, amount)) && NoDebts(Touch(m, a))
  {
  }

  lemma RewardKeepsNoDebts(t: Terms, attached: bool, s: State, a: Address, isDeveloper: bool, now: int)
    requires NoDebts(s.accounts)
    ensures NoDebts(ProcessReward(t, attached, s, a, isDeveloper, now).accounts)
  {
    hide NoDebts, UpdateBalance, Eligibility, Record;
    UpdateKeepsNoDebts(s.accounts, a, Amount(t, Eligibility(t, s.distribution, a, isDeveloper, now)));
  }

  /** Whatever the amounts, no balance goes below zero. */
  lemma StepKeepsNoDebts(rules: Rules, s: State, op: Op)
    requires NoDebts(s.accounts)
    ensures NoDebts(Step(rules, s, op).accounts)
  {
    hide NoDebts, UpdateBalance, Touch, ProcessReward;
    var a := op.address;
    match op
    case Register(_, _, _, _, _) =>
      UpdateKeepsNoDebts(s.accounts, a, -op.stake);
      if rules.terms.Some? {
        var v := Validator(op.publicKey, op.stake, Active, None, 0);
        var t := s.(validators := s.validators[a := v], accounts := UpdateBalance(s.accounts, a, -op.stake));
        RewardKeepsNoDebts(rules.terms.value, rules.attached, t, a, a == rules.developerAddress, op.now);
      }
    case Stake(_, _, _) =>
      UpdateKeepsNoDebts(s.accounts, a, -op.amount);
    case Unstake(_, _, _) =>
      UpdateKeepsNoDebts(s.accounts, a, op.amount);
    case Jail(_, _) =>
    case Unjail(_, _, _) =>
    case ClaimReward(_, isDeveloper, now) =>
      if rules.terms.Some? {
        RewardKeepsNoDebts(rules.terms.value, rules.attached, s, a, isDeveloper, now);
      }
  }

  /** Over any run no balance goes below zero; with positive amounts no stake goes below the minimum. */
  lemma {:induction false} RunKeepsFloors(rules: Rules, s: State, ops: seq<Op>)
    requires NoDebts(s.accounts) && StakesSuffice(rules, s.validators)
    ensures NoDebts(Run(rules, s, ops).accounts)
    ensures AllPositive(ops) ==> StakesSuffice(rules, Run(rules, s, ops).validators)
  {
    if ops != [] {
      hide NoDebts, StakesSuffice, Step, Positive;
      var before, op := ops[..|ops| - 1], ops[|ops| - 1];
      RunKeepsFloors(rules, s, before);
      StepKeepsNoDebts(rules, Run(rules, s, before), op);
      if AllPositive(ops) {
        StepKeepsStakes(rules, Run(rules, s, before), op);
      }
    }
  }

  /** Unstaking what was just staked restores balances and stakes. */
  lemma UnstakeUndoesStake(rules: Rules, s: State, op: Op)
    requires op.Stake? && op.amount > 0.0 && CanStake(s, op)
    requires s.validators[op.address].stake >= rules.minStake > 0.0
    ensures AfterUnstake(rules, AfterStake(s, op), Unstake(op.address, op.amount, op.signature)) == s
  {
    var s' := AfterStake(s, op);
    var a, back := op.address, Unstake(op.address, op.amount, op.signature);
    assert CanUnstake(rules, s', back);
    var s'' := AfterUnstake(rules, s', back);
    assert s''.accounts == s.accounts;
    assert s''.validators == s.validators;
  }
}
