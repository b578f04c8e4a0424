/** What the records of a validator's life amount to: outcomes counted, reputation earned and lost, terms served. */
module ValidatorLaws {
  import opened Wrappers
  import opened Validators

  // ------------------------------------------------------------- statistics

  /** The record after a sequence of outcomes, true for a block produced. */
  function AfterOutcomes(v: ValidatorData, outcomes: seq<bool>): ValidatorData {
    if outcomes == [] then v
    else AfterOutcomes(v, outcomes[..|outcomes| - 1]).WithStats(outcomes[|outcomes| - 1])
  }

  function Count(outcomes: seq<bool>, made: bool): nat {
    if outcomes == [] then 0
    else Count(outcomes[..|outcomes| - 1], made) + if outcomes[|outcomes| - 1] == made then 1 else 0
  }

  /** The counters count the outcomes, and uptime is the percentage of blocks produced among all due. */
  lemma {:induction false} CountersCount(v: ValidatorData, outcomes: seq<bool>)
    requires outcomes != []
    ensures var r := AfterOutcomes(v, outcomes);
            && r.produced == v.produced + Count(outcomes, true) && r.missed == v.missed + Count(outcomes, false)
            && r.produced + r.missed == v.produced + v.missed + |outcomes|
            && r.uptime * (r.produced + r.missed) as real == 100.0 * r.produced as real
  {
    hide ValidatorData.WithStats;
    var before := outcomes[..|outcomes| - 1];
    if before != [] {
      CountersCount(v, before);
    }
    OneMore(AfterOutcomes(v, before), outcomes[|outcomes| - 1]);
  }

  lemma OneMore(v: ValidatorData, made: bool)
    ensures var r := v.WithStats(made);
            && r.produced == v.produced + (if made then 1 else 0) && r.missed == v.missed + (if made then 0 else 1)
            && r.uptime * (r.produced + r.missed) as real == 100.0 * r.produced as real
  {
    Percentage(if made then v.produced + 1 else v.produced, if made then v.missed else v.missed + 1);
  }

  lemma Percentage(p: nat, q: nat)
    requires p + q > 0
    ensures p as real / (p + q) as real * 100.0 * (p + q) as real == 100.0 * p as real
  {
    var u := p as real / (p + q) as real;
    assert u * (p + q) as real == p as real;
    assert u * 100.0 * (p + q) as real == 100.0 * (u * (p + q) as real);
  }

  // -------------------------------------------------------------- reputation

  /** One point for a block made or five lost for one missed, and a fifth of a point for each percent above 95. */
  function Earned(made: bool, accuracy: real, uptime: real): real {
    (if made then 1.0 else -5.0) + (accuracy + uptime - 190.0) / 5.0
  }

  /** A reputation update adds what was earned, and stops at 0 and at 200. */
  lemma ReputationIsEarned(v: ValidatorData, made: bool, accuracy: real, uptime: real)
    ensures var r, x := v.WithReputation(made, accuracy, uptime), v.reputation + Earned(made, accuracy, uptime);
            && (x <= 0.0 ==> r.reputation == 0.0)
            && (0.0 <= x <= 200.0 ==> r.reputation == x)
            && (x >= 200.0 ==> r.reputation == 200.0)
            && r == v.(reputation := r.reputation)
  {
  }

  /** Doing better never earns less. */
  lemma BetterIsNoWorse(v: ValidatorData, made: bool, a: real, u: real, made': bool, a': real, u': real)
    requires (made ==> made') && a <= a' && u <= u'
    ensures v.WithReputation(made, a, u).reputation <= v.WithReputation(made', a', u').reputation
  {
    ReputationIsEarned(v, made, a, u);
    ReputationIsEarned(v, made', a', u');
  }

  /** A block raises its proposer's reputation if and only if there is room and its uptime is above 85 percent. */
  lemma ProducingRaisesIff(v: ValidatorData, uptime: real)
    requires 0.0 <= v.reputation <= 201.0
    ensures v.WithReputation(true, 100.0, uptime).reputation > v.reputation <==> v.reputation < 200.0 && uptime > 85.0
  {
    ReputationIsEarned(v, true, 100.0, uptime);
  }

  /** A miss costs at least 23 points, or all there are. */
  lemma MissingLowers(v: ValidatorData, uptime: real)
    requires uptime <= 100.0
    ensures v.WithReputation(false, 0.0, uptime).reputation <= Max(0.0, v.reputation - 23.0)
  {
    ReputationIsEarned(v, false, 0.0, uptime);
  }

  // --------------------------------------------------------------- lifecycle

  /** Jailing costs 20 points, or all there are, and ends with the first request strictly after the term. */
  lemma JailLastsItsTerm(v: ValidatorData, now: int, seconds: int, later: int)
    ensures var jailed := v.AfterJail(now, seconds); var asked := jailed.AfterUnjail(later);
            && jailed.status == Jailed && !jailed.Eligible()
            && (v.reputation >= 20.0 ==> jailed.reputation == v.reputation - 20.0)
            && (v.reputation <= 20.0 ==> jailed.reputation == 0.0)
            && (later <= now + 1000 * seconds ==> asked == jailed)
            && (later > now + 1000 * seconds ==> asked == jailed.(status := Inactive))
  {
  }

  /** Jail is for those who have missed more than allowed, and for nobody else. */
  lemma JailedForMissing(v: ValidatorData, allowed: nat, now: int, seconds: int)
    ensures v.missed <= allowed ==> v.AfterJailCheck(allowed, now, seconds) == v
    ensures v.missed > allowed ==>
              v.AfterJailCheck(allowed, now, seconds).status == Jailed
              && v.AfterJailCheck(allowed, now, seconds).jailedUntil == now + 1000 * seconds
  {
  }

  /** An active validator with one unit of stake is what can be selected; waiting, jailed and tombstoned ones cannot. */
  lemma WhoIsEligible(v: ValidatorData)
    ensures v.Eligible() <==> v.status == Active && v.stake >= 1.0
  {
  }

  /** Neither release nor activation brings a tombstoned validator back, nor does stake. */
  lemma TombstoneHolds(v: ValidatorData, now: int, stake: real, minimum: real)
    ensures var dead := v.AfterTombstone();
            && dead.status == Tombstoned && dead.reputation == 0.0 && !dead.Eligible()
            && dead.AfterUnjail(now) == dead && dead.AfterActivate() == dead
            && !dead.Following(stake, minimum).Eligible()
  {
  }

  /** But jail does: jailed, released and activated, a tombstoned validator with stake can be selected again. */
  lemma JailUndoesTombstone(v: ValidatorData, now: int, seconds: int)
    requires v.stake >= 1.0
    ensures v.AfterTombstone().AfterJail(now, seconds).AfterUnjail(now + 1000 * seconds + 1).AfterActivate().Eligible()
  {
  }

  /** Activation is for waiting validators. */
  lemma ActivationOutcome(v: ValidatorData)
    ensures v.status == Inactive ==> v.AfterActivate() == v.(status := Active)
    ensures v.status != Inactive ==> v.AfterActivate() == v
  {
  }
}
