/** The StateMachine of src/consensus/state_machine.js and the DistributionPeriod of src/consensus/distribution.js. */
module StakingMachine {
  import opened Wrappers
  import opened Staking

  class DistributionPeriod {
    const terms: Terms
    var stateMachine: StateMachine?
    var rewardedAddresses: set<Address>
    var developerRewarded: bool
    var validatorsRewarded: nat
    var totalDistributed: real

    constructor (terms: Terms)
      ensures this.terms == terms && stateMachine == null
      ensures View() == Distribution({}, false, 0, 0.0)
    {
      this.terms, stateMachine := terms, null;
      rewardedAddresses, developerRewarded, validatorsRewarded, totalDistributed := {}, false, 0, 0.0;
    }

    ghost function View(): Distribution
      reads this
    {
      Distribution(rewardedAddresses, developerRewarded, validatorsRewarded, totalDistributed)
    }

    method CheckEligibility(address: Address, isDeveloper: bool, now: int) returns (r: Reward)
      ensures r == Eligibility(terms, View(), address, isDeveloper, now)
    {
      if !(now >= terms.start && now <= terms.end) {
        return NotEligible;
      }
      if address in rewardedAddresses {
        return NotEligible;
      }
      if isDeveloper {
        if developerRewarded {
          return NotEligible;
        }
        if terms.developerAddress.Id? && address != terms.developerAddress {
          return NotEligible;
        }
        return DeveloperReward;
      }
      return ValidatorReward;
    }

    /** Pays one reward into the state machine, if there is one, and enters it in the books. */
    method ProcessReward(address: Address, isDeveloper: bool, now: int) returns (success: bool)
      modifies this`rewardedAddresses, this`developerRewarded, this`validatorsRewarded, this`totalDistributed
      modifies if stateMachine == null then {} else {stateMachine}`accounts
      ensures success == !Eligibility(terms, old(View()), address, isDeveloper, now).NotEligible?
      ensures View() == Record(terms, old(View()), address, Eligibility(terms, old(View()), address, isDeveloper, now))
      ensures stateMachine != null ==>
                State(stateMachine.accounts, stateMachine.validators, View())
                == Staking.ProcessReward(terms, true, old(State(stateMachine.accounts, stateMachine.validators, View())),
                                         address, isDeveloper, now)
    {
      var eligibility := CheckEligibility(address, isDeveloper, now);
      if eligibility.NotEligible? {
        return false;
      }
      var rewardAmount := if eligibility.DeveloperReward? then terms.developerReward else terms.validatorReward;
      if stateMachine != null {
        var added := stateMachine.AddBalance(address, rewardAmount);
      }
      rewardedAddresses := rewardedAddresses + {address};
      if eligibility.DeveloperReward? {
        developerRewarded := true;
      } else {
        validatorsRewarded := validatorsRewarded + 1;
      }
      totalDistributed := totalDistributed + rewardAmount;
      return true;
    }
  }

  class StateMachine {
    const minStake: real
    const jailDuration: int
    const developerAddress: Address
    const distributionPeriod: DistributionPeriod?
    var accounts: Accounts
    var validators: map<Address, Validator>

    constructor (minStake: real, jailDuration: int, developerAddress: Address, distributionPeriod: DistributionPeriod?)
      ensures this.minStake == minStake && this.jailDuration == jailDuration && this.developerAddress == developerAddress
      ensures this.distributionPeriod == distributionPeriod && accounts == map[] && validators == map[]
    {
      this.minStake, this.jailDuration, this.developerAddress := minStake, jailDuration, developerAddress;
      this.distributionPeriod, accounts, validators := distributionPeriod, map[], map[];
    }

    function GetRules(): Rules
      reads distributionPeriod
    {
      Rules(minStake, jailDuration, developerAddress,
            if distributionPeriod == null then None else Some(distributionPeriod.terms),
            distributionPeriod != null && distributionPeriod.stateMachine == this)
    }

    /** The distribution period pays into another machine. */
    ghost predicate PaysElsewhere()
      reads distributionPeriod
    {
      distributionPeriod != null && distributionPeriod.stateMachine != null && distributionPeriod.stateMachine != this
    }

    ghost function PayeeAccounts(): Accounts
      reads distributionPeriod, if distributionPeriod == null then null else distributionPeriod.stateMachine
    {
      if distributionPeriod == null || distributionPeriod.stateMachine == null then map[]
      else distributionPeriod.stateMachine.accounts
    }

    ghost function View(): State
      reads this, distributionPeriod
    {
      State(accounts, validators,
            if distributionPeriod == null then Distribution({}, false, 0, 0.0) else distributionPeriod.View())
    }

    method GetAccount(address: Address) returns (account: Account)
      modifies this`accounts
      ensures accounts == Touch(old(accounts), address) && address in accounts && account == accounts[address]
    {
      if address !in accounts {
        accounts := accounts[address := Account(0.0, 0)];
      }
      return accounts[address];
    }

    method UpdateBalance(address: Address, amount: real) returns (success: bool)
      modifies this`accounts
      ensures accounts == Staking.UpdateBalance(old(accounts), address, amount)
      ensures success == !Refuses(old(accounts), address, amount)
    {
      var account := GetAccount(address);
      if amount < 0.0 && account.balance + amount < 0.0 {
        return false;
      }
      accounts := accounts[address := account.(balance := account.balance + amount)];
      return true;
    }

    method AddBalance(address: Address, amount: real) returns (success: bool)
      modifies this`accounts
      ensures accounts == Staking.AddBalance(old(accounts), address, amount)
    {
      if amount <= 0.0 {
        return false;
      }
      success := UpdateBalance(address, amount);
    }

    method RegisterValidator(op: Op) returns (success: bool)
      requires op.Register?
      modifies this`accounts, this`validators, distributionPeriod
      modifies if distributionPeriod == null || distributionPeriod.stateMachine == null then {}
               else {distributionPeriod.stateMachine}`accounts
      ensures GetRules() == old(GetRules())
      ensures distributionPeriod != null ==> distributionPeriod.stateMachine == old(distributionPeriod.stateMachine)
      ensures View() == AfterRegister(GetRules(), old(View()), op)
      ensures success == CanRegister(GetRules(), old(View()), op)
      ensures PaysElsewhere() ==>
                distributionPeriod.stateMachine.accounts == Staking.AddBalance(old(PayeeAccounts()), op.address,
                  if !success then 0.0
                  else Amount(distributionPeriod.terms,
                              Eligibility(distributionPeriod.terms, old(View().distribution), op.address,
                                          op.address == developerAddress, op.now)))
    {
      if !op.address.Id? || !op.publicKey.Id? || op.stake == 0.0 || !op.signature.Id? {
        return false;
      }
      if op.address in validators {
        return false;
      }
      var account := GetAccount(op.address);
      if account.balance < op.stake {
        return false;
      }
      if op.stake < minStake {
        return false;
      }
      validators := validators[op.address := Validator(op.publicKey, op.stake, Active, None, 0)];
      var paid := UpdateBalance(op.address, -op.stake);
      if distributionPeriod != null && distributionPeriod.terms.IsActive(op.now) {
        var isDeveloper := op.address == developerAddress;
        var rewarded := distributionPeriod.ProcessReward(op.address, isDeveloper, op.now);
      }
      return true;
    }

    method StakeTokens(op: Op) returns (success: bool)
      requires op.Stake?
      modifies this`accounts, this`validators
      ensures View() == AfterStake(old(View()), op)
      ensures success == CanStake(old(View()), op)
    {
      if !op.address.Id? || op.amount == 0.0 || !op.signature.Id? {
        return false;
      }
      if op.address !in validators {
        return false;
      }
      var account := GetAccount(op.address);
      if account.balance < op.amount {
        return false;
      }
      var newStake := validators[op.address].stake + op.amount;
      validators := validators[op.address := validators[op.address].(stake := newStake)];
      var paid := UpdateBalance(op.address, -op.amount);
      return true;
    }

    method UnstakeTokens(op: Op) returns (success: bool)
      requires op.Unstake?
      modifies this`accounts, this`validators
      ensures View() == AfterUnstake(GetRules(), old(View()), op)
      ensures success == CanUnstake(GetRules(), old(View()), op)
    {
      if !op.address.Id? || op.amount == 0.0 || !op.signature.Id? {
        return false;
      }
      if op.address !in validators {
        return false;
      }
      var validator := validators[op.address];
      if validator.stake < op.amount {
        return false;
      }
      if validator.stake - op.amount < minStake {
        return false;
      }
      validators := validators[op.address := validator.(stake := validator.stake - op.amount)];
      var paid := UpdateBalance(op.address, op.amount);
      return true;
    }

    method JailValidator(op: Op) returns (success: bool)
      requires op.Jail?
      modifies this`validators
      ensures View() == AfterJail(GetRules(), old(View()), op)
      ensures success == (op.address in old(validators))
    {
      if op.address !in validators {
        return false;
      }
      var jailedUntil := op.now + jailDuration * 1000;
      validators := validators[op.address := validators[op.address].(status := Jailed, jailedUntil := Some(jailedUntil))];
      return true;
    }

    method UnjailValidator(op: Op) returns (success: bool)
      requires op.Unjail?
      modifies this`validators
      ensures View() == AfterUnjail(old(View()), op)
      ensures success == CanUnjail(old(View()), op)
    {
      if !op.address.Id? || !op.signature.Id? {
        return false;
      }
      if op.address !in validators {
        return false;
      }
      var validator := validators[op.address];
      if !validator.status.Jailed? {
        return false;
      }
      if validator.jailedUntil.Some? && validator.jailedUntil.value != 0 && validator.jailedUntil.value > op.now {
        return false;
      }
      validators := validators[op.address := validator.(status := Active, jailedUntil := None, missedBlocks := 0)];
      return true;
    }
  }
}
