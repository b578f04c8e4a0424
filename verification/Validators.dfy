/** The validator record of src/blockchain/validator.js: lifecycle states, reputation and uptime. */
module Validators {
  import opened Wrappers

  /** The data fields of a validator object; a copy made by object spread is exactly this value. */
  datatype ValidatorData = ValidatorData(
    stake: real, status: Status, reputation: real,
    produced: nat, missed: nat, uptime: real, jailedUntil: int,
    isFirst: bool, joinedDuringDistribution: bool, rewardClaimed: bool)
  {
    function WithStats(made: bool): ValidatorData {
      var p := if made then produced + 1 else produced;
      var q := if made then missed else missed + 1;
      this.(produced := p, missed := q, uptime := p as real / (p + q) as real * 100.0)
    }

    function WithReputation(made: bool, accuracy: real, currentUptime: real): ValidatorData {
      var raw := reputation + (if made then 1.0 else -5.0) + (accuracy - 95.0) / 5.0 + (currentUptime - 95.0) / 5.0;
      this.(reputation := Max(0.0, Min(200.0, raw)))
    }

    function AfterJail(now: int, duration: int): ValidatorData {
      this.(status := Jailed, jailedUntil := now + duration * 1000, reputation := Max(0.0, reputation - 20.0))
    }

    function AfterJailCheck(maxMissed: nat, now: int, duration: int): ValidatorData {
      if missed > maxMissed then AfterJail(now, duration) else this
    }

    function AfterUnjail(now: int): ValidatorData {
      if status.Jailed? && now > jailedUntil then this.(status := Inactive) else this
    }

    function AfterTombstone(): ValidatorData {
      this.(status := Tombstoned, reputation := 0.0)
    }

    function AfterActivate(): ValidatorData {
      if status.Inactive? then this.(status := Active) else this
    }

    /** The record follows its account's stake and crosses the minimum in both directions. */
    function Following(stake: real, minimum: real): ValidatorData {
      this.(stake := stake,
            status := if stake >= minimum
                      then (if status.Inactive? then Active else status)
                      else (if status.Active? then Inactive else status))
    }

    predicate Eligible() { status.Active? && stake >= 1.0 }

    /** The multiplier applied to the stake share: 0.5 + reputation / 133.33. */
    function Multiplier(): real { 0.5 + reputation / 133.33 }

    /** calculateSelectionProbability */
    function Probability(totalStake: real): real
      requires totalStake != 0.0
    {
      stake / totalStake * Multiplier()
    }

    /** The initial clamp is [0, 200]; accepting a block adds one more point outside the clamp. */
    predicate Bounded() { 0.0 <= reputation <= 201.0 }
  }

  class Validator {
    const address: Id
    var stake: real
    var status: Status
    var reputation: real
    var blocksProduced: nat
    var blocksMissed: nat
    var uptime: real
    var jailedUntil: int
    var isFirst: bool
    var joinedDuringDistribution: bool
    var rewardClaimed: bool

    ghost function View(): ValidatorData
      reads this
    {
      ValidatorData(stake, status, reputation, blocksProduced, blocksMissed, uptime, jailedUntil,
                    isFirst, joinedDuringDistribution, rewardClaimed)
    }

    constructor (address: Id, stake: real)
      ensures this.address == address
      ensures View() == ValidatorData(stake, Inactive, 100.0, 0, 0, 100.0, 0, false, false, false)
    {
      this.address, this.stake := address, stake;
      status, reputation, blocksProduced, blocksMissed, uptime := Inactive, 100.0, 0, 0, 100.0;
      jailedUntil, isFirst, joinedDuringDistribution, rewardClaimed := 0, false, false, false;
    }

    /** The object spread `{ ...validator }`: a new object with the same data. */
    constructor Copy(other: Validator)
      ensures address == other.address
      ensures View() == other.View()
    {
      address, stake, status, reputation := other.address, other.stake, other.status, other.reputation;
      blocksProduced, blocksMissed, uptime := other.blocksProduced, other.blocksMissed, other.uptime;
      jailedUntil, isFirst := other.jailedUntil, other.isFirst;
      joinedDuringDistribution, rewardClaimed := other.joinedDuringDistribution, other.rewardClaimed;
    }

    method UpdateStats(produced: bool)
      modifies this
      ensures View() == old(View()).WithStats(produced)
    {
      if produced {
        blocksProduced := blocksProduced + 1;
      } else {
        blocksMissed := blocksMissed + 1;
      }
      var total := blocksProduced + blocksMissed;
      uptime := if total > 0 then blocksProduced as real / total as real * 100.0 else 100.0;
    }

    method UpdateReputation(producedBlock: bool, validationAccuracy: real, currentUptime: real)
      modifies this
      ensures View() == old(View()).WithReputation(producedBlock, validationAccuracy, currentUptime)
    {
      var newReputation := reputation;
      if producedBlock {
        newReputation := newReputation + 1.0;
      } else {
        newReputation := newReputation - 5.0;
      }
      newReputation := newReputation + (validationAccuracy - 95.0) / 5.0;
      newReputation := newReputation + (currentUptime - 95.0) / 5.0;
      reputation := Max(0.0, Min(200.0, newReputation));
    }

    method Jail(now: int, duration: int)
      modifies this
      ensures View() == old(View()).AfterJail(now, duration)
    {
      status := Jailed;
      jailedUntil := now + duration * 1000;
      reputation := Max(0.0, reputation - 20.0);
    }

    method CheckAndJailIfNeeded(maxMissedBlocks: nat, now: int, jailDuration: int) returns (jailed: bool)
      modifies this
      ensures jailed == (old(blocksMissed) > maxMissedBlocks)
      ensures View() == old(View()).AfterJailCheck(maxMissedBlocks, now, jailDuration)
    {
      jailed := blocksMissed > maxMissedBlocks;
      if jailed {
        Jail(now, jailDuration);
      }
    }

    method TryUnjail(now: int) returns (unjailed: bool)
      modifies this
      ensures unjailed == (old(status).Jailed? && now > old(jailedUntil))
      ensures View() == old(View()).AfterUnjail(now)
    {
      unjailed := status.Jailed? && now > jailedUntil;
      if unjailed {
        status := Inactive;
      }
    }

    /** The validator part of updateAccountStake. */
    method FollowStake(newStake: real, minimum: real)
      modifies this
      ensures View() == old(View()).Following(newStake, minimum)
    {
      stake := newStake;
      if stake >= minimum {
        if status.Inactive? {
          status := Active;
        }
      } else {
        if status.Active? {
          status := Inactive;
        }
      }
    }

    method Tombstone()
      modifies this
      ensures View() == old(View()).AfterTombstone()
    {
      status := Tombstoned;
      reputation := 0.0;
    }

    method Activate() returns (activated: bool)
      modifies this
      ensures activated == old(status).Inactive?
      ensures View() == old(View()).AfterActivate()
    {
      activated := status.Inactive?;
      if activated {
        status := Active;
      }
    }
  }

  /** The map's objects hold exactly these records, each under its own address, so no two entries share an object. */
  ghost predicate HoldsValidators(validators: map<Id, Validator>, m: map<Id, ValidatorData>, objects: set<Validator>)
    reads objects
  {
    && validators.Keys == m.Keys
    && forall a {:trigger validators[a]} :: a in validators ==>
         validators[a] in objects && validators[a].address == a && validators[a].View() == m[a]
  }
}
