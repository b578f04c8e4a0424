/**
 The ledger of src/blockchain/state_machine.js as a state-transition system on values: what each public
 operation does to accounts, validators, height and supply, and what a run of operations is.
 */
module Ledger {
  import opened Wrappers
  import opened Validators
  import Issuance

  type Address = Id

  datatype AccountData = AccountData(balance: real, nonce: int, stake: real)

  type Accounts = map<Address, AccountData>

  const EMPTY: AccountData := AccountData(0.0, 0, 0.0)

  datatype Options = Options(
    minimumStake: real, developerNodeReward: real, earlyValidatorReward: real, distributionEnd: int,
    halvingInterval: nat, blockReward: real, maxSupply: real)
  {
    predicate Valid() {
      halvingInterval > 0 && blockReward > 0.0 && developerNodeReward > 0.0 && earlyValidatorReward > 0.0
    }
  }

  /** A transaction as it arrives: either naming convention may be used, any field may be missing. */
  datatype Tx =
    | NoTx
    | Tx(from: Address, sender: Address, to: Address, recipient: Address,
         amount: Option<real>, fee: Option<real>, nonce: int, feeTo: Address)
  {
    function Sender(): Address {
      if NoTx? then Absent else if from.Id? then from else sender
    }

    function Recipient(): Address {
      if NoTx? then Absent else if to.Id? then to else recipient
    }

    /** The structural checks of applyTransaction. */
    predicate WellFormed() {
      && Tx?
      && Sender().Id? && Recipient().Id?
      && amount.Some? && amount.value > 0.0
      && fee.Some? && fee.value >= 0.0
    }

    function Cost(): real
      requires WellFormed()
    {
      amount.value + fee.value
    }

    /** The fee reaches a validator only when it is positive and a validator is named. */
    predicate PaysFee() { WellFormed() && fee.value > 0.0 && feeTo.Id? }

    /** The fee leaves circulation when no validator is named. */
    function Burned(): real {
      if WellFormed() && !PaysFee() then fee.value else 0.0
    }
  }

  datatype Block = Block(
    height: int, hash: Id, previousHash: Id, timestamp: int,
    validatorAddress: Address, transactions: Option<seq<Tx>>)

  datatype State = State(
    accounts: Accounts, validators: map<Address, ValidatorData>,
    height: nat, lastHash: Id, supply: real, developerSet: bool)

  const INITIAL: State := State(map[], map[], 0, Absent, 0.0, false)

  // ---------------------------------------------------------------- accounts

  function Lookup(m: Accounts, a: Address): AccountData {
    if a in m then m[a] else EMPTY
  }

  /** getOrCreateAccount */
  function Touch(m: Accounts, a: Address): Accounts {
    m[a := Lookup(m, a)]
  }

  function Credit(m: Accounts, a: Address, x: real): Accounts {
    m[a := Lookup(m, a).(balance := Lookup(m, a).balance + x)]
  }

  // ------------------------------------------------------------ transactions

  datatype Outcome = Outcome(accounts: Accounts, ok: bool)

  /** Debit the sender, credit the recipient, advance the nonce; sender and recipient may be one account. */
  function Transfer(m: Accounts, t: Tx): Accounts
    requires t.WellFormed()
  {
    var m1 := Credit(Touch(m, t.Recipient()), t.Sender(), -t.Cost());
    var m2 := Credit(m1, t.Recipient(), t.amount.value);
    m2[t.Sender() := m2[t.Sender()].(nonce := t.nonce)]
  }

  /** The accounts after a well-formed, affordable, next-nonce transaction. */
  function Effect(m: Accounts, t: Tx): Accounts
    requires t.WellFormed()
  {
    if t.PaysFee() then Credit(Transfer(m, t), t.feeTo, t.fee.value) else Transfer(m, t)
  }

  predicate Funded(m: Accounts, t: Tx)
    requires t.WellFormed()
  {
    && t.Cost() <= Lookup(m, t.Sender()).balance
    && t.nonce == Lookup(m, t.Sender()).nonce + 1
  }

  /** applyTransaction: a transaction refused for funds or nonce has still created its two accounts. */
  function ApplyTx(m: Accounts, t: Tx): Outcome {
    if !t.WellFormed() then Outcome(m, false)
    else if !Funded(m, t) then Outcome(Touch(Touch(m, t.Sender()), t.Recipient()), false)
    else Outcome(Effect(m, t), true)
  }

  /** The second loop of applyBlock. */
  function ApplyTxs(m: Accounts, txs: seq<Tx>): Outcome
    decreases |txs|
  {
    if txs == [] then Outcome(m, true)
    else
      var r := ApplyTx(m, txs[0]);
      if r.ok then ApplyTxs(r.accounts, txs[1..]) else r
  }

  /** One pre-validation check. Arithmetic on a missing amount or fee gives NaN, and no comparison with NaN holds. */
  predicate PreChecks(m: Accounts, t: Tx)
    requires t.Tx?
  {
    && (t.amount.Some? && t.fee.Some? ==> t.amount.value + t.fee.value <= Lookup(m, t.Sender()).balance)
    && t.nonce == Lookup(m, t.Sender()).nonce + 1
  }

  /** The first loop of applyBlock: every transaction is checked against the pre-block accounts. */
  function PreValidate(m: Accounts, txs: seq<Tx>): Outcome
    decreases |txs|
  {
    if txs == [] then Outcome(m, true)
    else if txs[0].NoTx? then Outcome(m, false)
    else
      var m1 := Touch(m, txs[0].Sender());
      if PreChecks(m1, txs[0]) then PreValidate(m1, txs[1..]) else Outcome(m1, false)
  }

  // ------------------------------------------------------------------ blocks

  /** calculateBlockReward: the schedule, or the small remainder once the cap would be passed. */
  function BlockReward(o: Options, height: nat, supply: real): real
    requires o.Valid()
  {
    var reward := Issuance.Scheduled(o.blockReward, o.halvingInterval, height);
    if supply + reward > o.maxSupply then Min(o.maxSupply - supply, Issuance.MIN_REWARD) else reward
  }

  predicate HeaderOk(s: State, block: Option<Block>, now: int) {
    && block.Some?
    && var b := block.value;
    && b.hash.Id? && b.validatorAddress.Id? && b.transactions.Some?
    && b.height == s.height + 1
    && (s.lastHash.Id? ==> b.previousHash == s.lastHash)
    && b.timestamp <= now + 60000
  }

  /** The body of the try block: pre-validate, mint, apply. */
  function TryBlock(o: Options, m: Accounts, height: nat, supply: real, validator: Address, txs: seq<Tx>): Outcome
    requires o.Valid()
  {
    var pre := PreValidate(m, txs);
    if !pre.ok then pre else ApplyTxs(Credit(pre.accounts, validator, BlockReward(o, height, supply)), txs)
  }

  datatype Result = Result(state: State, accepted: bool)

  /** applyBlock: take effect as a whole, or leave everything as it was. */
  function ApplyBlock(o: Options, s: State, block: Option<Block>, now: int): Result
    requires o.Valid()
  {
    if !HeaderOk(s, block, now) then Result(s, false)
    else
      var b := block.value;
      var r := TryBlock(o, s.accounts, s.height, s.supply, b.validatorAddress, b.transactions.value);
      if !r.ok then Result(s, false)
      else
        Result(s.(accounts := r.accounts, height := b.height, lastHash := b.hash,
                  supply := s.supply + BlockReward(o, s.height, s.supply)), true)
  }

  // ------------------------------------------------------ staking and awards

  /** updateAccountStake */
  function UpdateStake(o: Options, s: State, a: Address, amount: real): Result {
    var acc := Lookup(s.accounts, a);
    if (amount < 0.0 && -amount > acc.stake) || (amount > 0.0 && amount > acc.balance)
    then Result(s.(accounts := Touch(s.accounts, a)), false)
    else
      var acc' := acc.(stake := acc.stake + amount, balance := acc.balance - amount);
      Result(s.(accounts := s.accounts[a := acc'],
                validators := if a in s.validators
                              then s.validators[a := s.validators[a].Following(acc'.stake, o.minimumStake)]
                              else s.validators), true)
  }

  /** awardDeveloperNodeReward */
  function AwardDeveloper(o: Options, s: State, a: Address): State {
    s.(accounts := Credit(s.accounts, a, o.developerNodeReward),
       supply := s.supply + o.developerNodeReward, developerSet := true)
  }

  predicate EarlyAwardDue(s: State, a: Address) {
    a in s.validators && !s.validators[a].rewardClaimed
  }

  /** awardEarlyValidatorReward: only a validator already in the map, and only once. */
  function AwardEarly(o: Options, s: State, a: Address): State {
    if !EarlyAwardDue(s, a) then s
    else
      s.(accounts := Credit(s.accounts, a, o.earlyValidatorReward),
         supply := s.supply + o.earlyValidatorReward,
         validators := s.validators[a := s.validators[a].(rewardClaimed := true, joinedDuringDistribution := true)])
  }

  /** What registration pays; it claims the developer slot whether or not the distribution period is over. */
  function RegistrationAward(o: Options, s: State, a: Address, now: int): State {
    if !s.developerSet then
      (if now < o.distributionEnd then AwardDeveloper(o, s, a) else s.(developerSet := true))
    else
      (if now < o.distributionEnd then AwardEarly(o, s, a) else s)
  }

  /** registerValidator: the awards run before the validator enters the map. */
  function Register(o: Options, s: State, a: Address, v: ValidatorData, now: int): Result {
    if a in s.validators then Result(s, false)
    else
      var s1 := s.(accounts := Touch(s.accounts, a));
      var stake := s1.accounts[a].stake;
      if stake < o.minimumStake then Result(s1, false)
      else
        var s2 := RegistrationAward(o, s1, a, now);
        var v' := v.(stake := stake, isFirst := !s.developerSet || v.isFirst);
        Result(s2.(validators := s2.validators[a := v']), true)
  }

  // -------------------------------------------------------------------- runs

  /** One call of a public operation. */
  datatype Op =
    | BlockOp(block: Option<Block>, now: int)
    | TxOp(tx: Tx)
    | StakeOp(address: Address, amount: real)
    | RegisterOp(address: Address, validator: ValidatorData, now: int)
    | DeveloperOp(address: Address)
    | EarlyOp(address: Address)

  function Step(o: Options, s: State, op: Op): State
    requires o.Valid()
  {
    match op
    case BlockOp(b, now) => ApplyBlock(o, s, b, now).state
    case TxOp(t) => s.(accounts := ApplyTx(s.accounts, t).accounts)
    case StakeOp(a, x) => UpdateStake(o, s, a, x).state
    case RegisterOp(a, v, now) => Register(o, s, a, v, now).state
    case DeveloperOp(a) => AwardDeveloper(o, s, a)
    case EarlyOp(a) => AwardEarly(o, s, a)
  }

  /** The state after any sequence of calls on a new machine. */
  function Run(o: Options, ops: seq<Op>): State
    requires o.Valid()
  {
    if ops == [] then INITIAL else Step(o, Run(o, ops[..|ops| - 1]), ops[|ops| - 1])
  }

  /** The transactions one call makes take effect; a refused block contributes none. */
  function Accepted(o: Options, s: State, op: Op): seq<Tx>
    requires o.Valid()
  {
    match op
    case BlockOp(b, now) => if ApplyBlock(o, s, b, now).accepted then b.value.transactions.value else []
    case TxOp(t) => if ApplyTx(s.accounts, t).ok then [t] else []
    case _ => []
  }

  /** All transactions that took effect over a run, in order. */
  function History(o: Options, ops: seq<Op>): seq<Tx>
    requires o.Valid()
  {
    if ops == [] then []
    else History(o, ops[..|ops| - 1]) + Accepted(o, Run(o, ops[..|ops| - 1]), ops[|ops| - 1])
  }
}
