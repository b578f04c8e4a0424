/** The ValidatorManager class of src/blockchain/validator_manager.js: registration, stakes, and the selection scan. */
module ValidatorManager {
  import opened Wrappers
  import opened Validators
  import Merits
  import S = Selection

  const MIN_STAKE: real := 1.0

  ghost function Views(vs: seq<Validator>): (data: seq<ValidatorData>)
    reads vs
    ensures |data| == |vs| && forall i :: 0 <= i < |vs| ==> data[i] == vs[i].View()
  {
    if vs == [] then [] else Views(vs[..|vs| - 1]) + [vs[|vs| - 1].View()]
  }

  /** The eligible validators, in the map's insertion order. */
  ghost function EligibleOf(vs: seq<Validator>): (eligible: seq<Validator>)
    reads vs
    ensures forall i :: 0 <= i < |eligible| ==> eligible[i] in vs && eligible[i].View().Eligible()
    ensures forall i :: 0 <= i < |vs| && vs[i].View().Eligible() ==> vs[i] in eligible
  {
    if vs == [] then []
    else EligibleOf(vs[..|vs| - 1]) + if vs[|vs| - 1].View().Eligible() then [vs[|vs| - 1]] else []
  }

  ghost function StakeSum(vs: seq<Validator>): real
    reads vs
  {
    if vs == [] then 0.0 else StakeSum(vs[..|vs| - 1]) + vs[|vs| - 1].stake
  }

  method FilterEligible(vs: seq<Validator>) returns (eligible: seq<Validator>)
    ensures eligible == EligibleOf(vs)
  {
    eligible := [];
    for i := 0 to |vs|
      invariant eligible == EligibleOf(vs[..i])
    {
      assert vs[..i + 1][..i] == vs[..i];
      if vs[i].status.Active? && vs[i].stake >= 1.0 {
        eligible := eligible + [vs[i]];
      }
    }
    assert vs[..|vs|] == vs;
  }

  // --------------------------------------------------- the three selection loops

  lemma ProbabilityIsWeight(v: ValidatorData, totalStake: real)
    requires totalStake != 0.0
    ensures v.Probability(totalStake) == S.Weight(v) / totalStake
  {
    var p, m := v.stake / totalStake, v.Multiplier();
    assert v.stake == p * totalStake;
    assert S.Weight(v) == p * totalStake * m == p * m * totalStake;
  }

  /** First loop: running sums of stake / totalStake * multiplier. */
  method Accumulate(eligible: seq<Validator>, totalStake: real) returns (entries: seq<real>, cumulative: real)
    requires totalStake != 0.0
    ensures var ws := S.Weights(Views(eligible));
            && |entries| == |ws|
            && (forall i :: 0 <= i < |ws| ==> entries[i] == S.Prefix(ws, i + 1) / totalStake)
            && cumulative == S.Total(ws) / totalStake
  {
    ghost var ws := S.Weights(Views(eligible));
    entries, cumulative := [], 0.0;
    for i := 0 to |eligible|
      invariant |entries| == i && cumulative == S.Prefix(ws, i) / totalStake
      invariant forall j :: 0 <= j < i ==> entries[j] == S.Prefix(ws, j + 1) / totalStake
    {
      ProbabilityIsWeight(eligible[i].View(), totalStake);
      S.SumOfQuotients(S.Prefix(ws, i), ws[i], totalStake);
      var probability := eligible[i].stake / totalStake * (0.5 + eligible[i].reputation / 133.33);
      cumulative := cumulative + probability;
      entries := entries + [cumulative];
    }
  }

  /** Second loop: divide every running sum by the last one. */
  method Normalise(entries: seq<real>, cumulative: real) returns (normalised: seq<real>)
    ensures |normalised| == |entries|
    ensures forall i :: 0 <= i < |entries| ==>
              normalised[i] == if cumulative > 0.0 then entries[i] / cumulative else entries[i]
  {
    normalised := entries;
    if cumulative > 0.0 {
      for i := 0 to |entries|
        invariant |normalised| == |entries|
        invariant forall j :: 0 <= j < |entries| ==>
                    normalised[j] == if j < i then entries[j] / cumulative else entries[j]
      {
        normalised := normalised[i := normalised[i] / cumulative];
      }
    }
  }

  /** Third loop: the first entry at or above the random value, or entry 0 by default. */
  method Scan(normalised: seq<real>, randomValue: real) returns (index: nat)
    requires normalised != []
    ensures index < |normalised|
    ensures forall j :: 0 <= j < index ==> randomValue > normalised[j]
    ensures randomValue <= normalised[index]
         || (index == 0 && forall j :: 0 <= j < |normalised| ==> randomValue > normalised[j])
  {
    for i := 0 to |normalised|
      invariant forall j :: 0 <= j < i ==> randomValue > normalised[j]
    {
      if randomValue <= normalised[i] {
        return i;
      }
    }
    return 0;
  }

  lemma QuotientOfQuotients(a: real, b: real, t: real)
    requires t > 0.0 && b > 0.0
    ensures b / t > 0.0 && (a / t) / (b / t) == a / b
  {
    var x, y := a / t, b / t;
    assert x * t == a && y * t == b;
    S.TimesStrict(0.0, y, t);
    if y <= 0.0 {
      S.TimesMonotone(y, 0.0, t);
    }
    var q := x / y;
    assert q * y == x;
    assert q * b == q * (y * t) == (q * y) * t == a;
    Unique(q, a / b, b);
  }

  lemma Unique(p: real, q: real, b: real)
    requires b > 0.0 && p * b == q * b
    ensures p == q
  {
    S.Cancel(p, q, b);
    S.Cancel(q, p, b);
  }

  /** Comparing the divided draw with a normalised running sum is the test of the selection rule. */
  lemma ScanTestIsHit(ws: seq<real>, draw: nat, i: nat, totalStake: real)
    requires S.Positive(ws) && i < |ws| && totalStake > 0.0
    ensures S.Total(ws) > 0.0 && S.Total(ws) / totalStake > 0.0
    ensures draw as real / S.MAX_DRAW as real <= (S.Prefix(ws, i + 1) / totalStake) / (S.Total(ws) / totalStake)
       <==> S.Hits(ws, draw, i)
  {
    var m, a, b := S.MAX_DRAW as real, S.Prefix(ws, i + 1), S.Total(ws);
    S.PrefixGrows(ws, 0, |ws|);
    QuotientOfQuotients(a, b, totalStake);
    CompareQuotients(draw as real, m, a, b);
  }

  lemma CompareQuotients(d: real, m: real, a: real, b: real)
    requires m > 0.0 && b > 0.0
    ensures d / m <= a / b <==> d * b <= m * a
  {
    S.QuotientIff(d * b, m * a, 1.0);
    S.QuotientIff(d / m, a, b);
    assert (d / m) * b * m == d * b;
    if (d / m) * b <= a {
      S.TimesMonotone((d / m) * b, a, m);
    }
    if d * b <= m * a {
      S.Cancel((d / m) * b, a, m);
    }
  }

  function Trimmed(history: seq<Id>): seq<Id> {
    if |history| > 1000 then history[1..] else history
  }

  /** The entry the three loops select: with a total stake that is not positive, the default. */
  function Choice(ws: seq<real>, draw: nat, totalStake: real): (i: nat)
    requires ws != [] && S.Positive(ws) && draw <= S.MAX_DRAW
    ensures i < |ws|
  {
    if totalStake > 0.0 then S.Select(ws, draw) else 0
  }

  lemma NegativeQuotient(a: real, t: real)
    requires a > 0.0 && t < 0.0
    ensures a / t < 0.0
  {
    var q := a / t;
    assert q * t == a;
    if q >= 0.0 {
      S.TimesMonotone(t, 0.0, q);
    }
  }

  /** What the second loop leaves of a list of weights. */
  ghost predicate AreNormalised(normalised: seq<real>, ws: seq<real>, totalStake: real)
    requires totalStake != 0.0
  {
    && |normalised| == |ws|
    && forall i :: 0 <= i < |ws| ==>
         normalised[i] == if S.Total(ws) / totalStake > 0.0
                          then (S.Prefix(ws, i + 1) / totalStake) / (S.Total(ws) / totalStake)
                          else S.Prefix(ws, i + 1) / totalStake
  }

  /** With a negative total no entry is at or above a draw, so the scan falls back to the first. */
  lemma NegativeTotalHitsNothing(ws: seq<real>, draw: nat, totalStake: real, normalised: seq<real>, i: nat)
    requires S.Positive(ws) && i < |ws| && totalStake < 0.0 && AreNormalised(normalised, ws, totalStake)
    ensures draw as real / S.MAX_DRAW as real > normalised[i]
  {
    S.PrefixGrows(ws, 0, i + 1);
    S.PrefixGrows(ws, 0, |ws|);
    NegativeQuotient(S.Prefix(ws, i + 1), totalStake);
    NegativeQuotient(S.Total(ws), totalStake);
  }

  /** The scan over normalised sums ends on the entry the selection rule names. */
  lemma ScanSelects(ws: seq<real>, draw: nat, totalStake: real, normalised: seq<real>, index: nat)
    requires ws != [] && S.Positive(ws) && draw <= S.MAX_DRAW && totalStake != 0.0 && index < |ws|
    requires AreNormalised(normalised, ws, totalStake)
    requires var x := draw as real / S.MAX_DRAW as real;
             && (forall j :: 0 <= j < index ==> x > normalised[j])
             && (x <= normalised[index] || (index == 0 && forall j :: 0 <= j < |normalised| ==> x > normalised[j]))
    ensures index == Choice(ws, draw, totalStake)
  {
    hide S.Hits, S.Prefix;
    if totalStake > 0.0 {
      S.LastHits(ws, draw);
      forall i | 0 <= i < |ws|
        ensures draw as real / S.MAX_DRAW as real <= normalised[i] <==> S.Hits(ws, draw, i)
      {
        ScanTestIsHit(ws, draw, i, totalStake);
      }
    } else {
      NegativeTotalHitsNothing(ws, draw, totalStake, normalised, index);
    }
  }

  ghost predicate NoneEligible(vs: seq<Validator>)
    reads vs
  {
    forall i :: 0 <= i < |vs| ==> !vs[i].status.Active? || vs[i].stake < 1.0
  }

  lemma EligibleOrNone(vs: seq<Validator>)
    ensures EligibleOf(vs) == [] <==> NoneEligible(vs)
    ensures forall i :: 0 <= i < |EligibleOf(vs)| ==>
              var v := EligibleOf(vs)[i]; v in vs && v.status.Active? && v.stake >= 1.0
  {
    if EligibleOf(vs) != [] {
      assert EligibleOf(vs)[0] in vs;
    }
  }

  /** The selected one is the entry whose part of the merits, by stake and reputation, covers the draw. */
  ghost predicate ByMerit(eligible: seq<Validator>, vs: seq<ValidatorData>, draw: nat, selected: Validator) {
    exists i :: 0 <= i < |eligible| && Merits.Covers(vs, i, draw) && selected == eligible[i]
  }

  /**
   * The three loops together. With a total of zero every share is infinite and every normalised sum is not a number,
   * which no comparison finds at or above the draw.
   */
  method Choose(eligible: seq<Validator>, draw: nat, totalStake: real) returns (selected: Validator)
    requires eligible != [] && draw <= S.MAX_DRAW && S.EligibleAndReputable(Views(eligible))
    ensures var ws := S.Weights(Views(eligible));
            S.Positive(ws) && selected == eligible[Choice(ws, draw, totalStake)]
    ensures totalStake > 0.0 ==> ByMerit(eligible, Views(eligible), draw, selected)
  {
    S.WeightsPositive(Views(eligible));
    if totalStake == 0.0 {
      return eligible[0];
    }
    var entries, cumulative := Accumulate(eligible, totalStake);
    var normalised := Normalise(entries, cumulative);
    var index := Scan(normalised, draw as real / S.MAX_DRAW as real);
    ScanSelects(S.Weights(Views(eligible)), draw, totalStake, normalised, index);
    Merits.SelectionRule(Views(eligible), draw, index);
    selected := eligible[index];
  }

  // -------------------------------------------------------------- statistics

  datatype Stats = Stats(
    active: nat, inactive: nat, jailed: nat, tombstoned: nat, totalValidators: nat,
    averageStake: real, averageReputation: real, distributionRewardsClaimed: nat)

  ghost function CountIn(vs: seq<Validator>, status: Status): nat
    reads vs
  {
    if vs == [] then 0
    else CountIn(vs[..|vs| - 1], status) + if vs[|vs| - 1].status == status then 1 else 0
  }

  ghost function CountClaimed(vs: seq<Validator>): nat
    reads vs
  {
    if vs == [] then 0 else CountClaimed(vs[..|vs| - 1]) + if vs[|vs| - 1].rewardClaimed then 1 else 0
  }

  ghost function ReputationSum(vs: seq<Validator>): real
    reads vs
  {
    if vs == [] then 0.0 else ReputationSum(vs[..|vs| - 1]) + vs[|vs| - 1].reputation
  }

  ghost function StatsOf(vs: seq<Validator>): Stats
    reads vs
  {
    Stats(CountIn(vs, Active), CountIn(vs, Inactive), CountIn(vs, Jailed), CountIn(vs, Tombstoned), |vs|,
          if vs == [] then 0.0 else StakeSum(vs) / |vs| as real,
          if vs == [] then 0.0 else ReputationSum(vs) / |vs| as real, CountClaimed(vs))
  }

  /** The four counts together cover every validator once. */
  lemma {:induction false} CountsAddUp(vs: seq<Validator>)
    ensures CountIn(vs, Active) + CountIn(vs, Inactive) + CountIn(vs, Jailed) + CountIn(vs, Tombstoned) == |vs|
  {
    if vs != [] {
      CountsAddUp(vs[..|vs| - 1]);
    }
  }

  // ------------------------------------------------------------------- manager

  class Manager {
    const developerNodeAddress: Id
    const distributionEndTime: int
    /** The validators Map, as the sequence of its values in insertion order. */
    var validators: seq<Validator>
    var totalStake: real
    var stats: Stats
    var selectionHistory: seq<Id>

    /** Addresses are keys, and every stake was at least the minimum when it came in. */
    ghost predicate Valid()
      reads this, validators
    {
      DistinctAddresses(validators) && AllStaked(validators)
    }

    constructor (developerNodeAddress: Id, distributionEndTime: int)
      ensures Valid() && validators == [] && selectionHistory == [] && totalStake == 0.0
      ensures this.developerNodeAddress == developerNodeAddress && this.distributionEndTime == distributionEndTime
    {
      this.developerNodeAddress, this.distributionEndTime := developerNodeAddress, distributionEndTime;
      validators, totalStake, selectionHistory := [], 0.0, [];
      stats := Stats(0, 0, 0, 0, 0, 0.0, 0.0, 0);
    }

    /** _updateStats: counts by state, averages, claimed rewards and the total stake, all recomputed. */
    method UpdateStats()
      modifies this`totalStake, this`stats
      ensures totalStake == StakeSum(validators) && stats == StatsOf(validators)
    {
      var active, inactive, jailed, tombstoned, claimed := 0, 0, 0, 0, 0;
      var stake, reputation := 0.0, 0.0;
      for i := 0 to |validators|
        invariant active == CountIn(validators[..i], Active) && inactive == CountIn(validators[..i], Inactive)
        invariant jailed == CountIn(validators[..i], Jailed) && tombstoned == CountIn(validators[..i], Tombstoned)
        invariant claimed == CountClaimed(validators[..i])
        invariant stake == StakeSum(validators[..i]) && reputation == ReputationSum(validators[..i])
      {
        assert validators[..i + 1][..i] == validators[..i];
        var v := validators[i];
        match v.status {
          case Active => active := active + 1;
          case Inactive => inactive := inactive + 1;
          case Jailed => jailed := jailed + 1;
          case Tombstoned => tombstoned := tombstoned + 1;
        }
        stake, reputation := stake + v.stake, reputation + v.reputation;
        if v.rewardClaimed {
          claimed := claimed + 1;
        }
      }
      assert validators[..|validators|] == validators;
      var n := |validators|;
      var averageStake := if n > 0 then stake / n as real else 0.0;
      var averageReputation := if n > 0 then reputation / n as real else 0.0;
      stats := Stats(active, inactive, jailed, tombstoned, n, averageStake, averageReputation, claimed);
      totalStake := stake;
    }

    /** None stands for the thrown error: the address is taken or the stake is below the minimum. */
    method RegisterValidator(address: Id, stake: real, now: int) returns (validator: Option<Validator>)
      requires Valid()
      modifies this`validators, this`totalStake, this`stats
      ensures Valid()
      ensures validator.None? <==> Taken(old(validators), address) || stake < MIN_STAKE
      ensures validator.None? ==> totalStake == old(totalStake) && stats == old(stats)
      ensures validators == old(validators) + if validator.Some? then [validator.value] else []
      ensures validator.Some? ==>
                && fresh(validator.value) && validator.value.address == address
                && validator.value.View() == ValidatorData(stake, Inactive, 100.0, 0, 0, 100.0, 0,
                     address == developerNodeAddress, now < distributionEndTime, false)
                && totalStake == StakeSum(validators) && stats == StatsOf(validators)
    {
      hide DistinctAddresses, AllStaked;
      for i := 0 to |validators|
        invariant forall j :: 0 <= j < i ==> validators[j].address != address
      {
        if validators[i].address == address {
          return None;
        }
      }
      if stake < MIN_STAKE {
        return None;
      }
      var created := Create(address, stake, now);
      Appended(validators, created);
      validators := validators + [created];
      UpdateStats();
      return Some(created);
    }

    method Create(address: Id, stake: real, now: int) returns (created: Validator)
      ensures fresh(created) && created.address == address
      ensures created.View() == ValidatorData(stake, Inactive, 100.0, 0, 0, 100.0, 0,
                                  address == developerNodeAddress, now < distributionEndTime, false)
    {
      created := new Validator(address, stake);
      if address == developerNodeAddress {
        created.isFirst := true;
      }
      if now < distributionEndTime {
        created.joinedDuringDistribution := true;
      }
    }

    method Pick(draw: nat) returns (selected: Validator?)
      requires draw <= S.MAX_DRAW && S.EligibleAndReputable(Views(EligibleOf(validators)))
      ensures var eligible := EligibleOf(validators);
              if eligible == [] then selected == null
              else
                var ws := S.Weights(Views(eligible));
                && S.Positive(ws) && selected == eligible[Choice(ws, draw, totalStake)]
                && (totalStake > 0.0 ==> ByMerit(eligible, Views(eligible), draw, selected))
    {
      hide EligibleOf, S.EligibleAndReputable, Choice, ByMerit;
      var eligible := FilterEligible(validators);
      if |eligible| == 0 {
        return null;
      }
      selected := Choose(eligible, draw, totalStake);
    }

    method Record(address: Id)
      modifies this`totalStake, this`stats, this`selectionHistory
      ensures selectionHistory == Trimmed(old(selectionHistory) + [address])
      ensures totalStake == StakeSum(validators) && stats == StatsOf(validators)
    {
      selectionHistory := selectionHistory + [address];
      if |selectionHistory| > 1000 {
        selectionHistory := selectionHistory[1..];
      }
      UpdateStats();
    }

    /**
     selectValidator, whatever the recorded total stake: null exactly when nobody is eligible; otherwise, with a positive
     total, the eligible validator whose weight the draw hits, and else the first one. The choice joins a history of at
     most the last 1000, and the statistics are brought up to date.
     */
    method SelectValidator(draw: nat) returns (selected: Validator?)
      requires draw <= S.MAX_DRAW && S.EligibleAndReputable(Views(EligibleOf(validators)))
      modifies this`totalStake, this`stats, this`selectionHistory
      ensures selected == null <==> NoneEligible(validators)
      ensures selected != null ==> selected in validators && selected.status.Active? && selected.stake >= 1.0
      ensures var eligible := old(EligibleOf(validators));
              if eligible == [] then
                selected == null && selectionHistory == old(selectionHistory) && totalStake == old(totalStake)
              else
                var ws := S.Weights(old(Views(EligibleOf(validators))));
                && S.Positive(ws)
                && selected == eligible[Choice(ws, draw, old(totalStake))]
                && (old(totalStake) > 0.0 ==> ByMerit(eligible, old(Views(EligibleOf(validators))), draw, selected))
                && selectionHistory == Trimmed(old(selectionHistory) + [selected.address])
                && totalStake == StakeSum(validators) && stats == StatsOf(validators)
    {
      hide EligibleOf, NoneEligible, S.EligibleAndReputable, Choice, ByMerit;
      hide S.Positive, S.Weights, Trimmed, StakeSum, StatsOf;
      EligibleOrNone(validators);
      selected := Pick(draw);
      if selected != null {
        Record(selected.address);
      }
    }
  }

  ghost predicate DistinctAddresses(vs: seq<Validator>) {
    forall i, j :: 0 <= i < j < |vs| ==> vs[i].address != vs[j].address
  }

  ghost predicate AllStaked(vs: seq<Validator>)
    reads vs
  {
    forall i :: 0 <= i < |vs| ==> vs[i].stake >= MIN_STAKE
  }

  predicate Taken(vs: seq<Validator>, address: Id) {
    exists i :: 0 <= i < |vs| && vs[i].address == address
  }

  lemma Appended(vs: seq<Validator>, v: Validator)
    requires DistinctAddresses(vs) && AllStaked(vs) && !Taken(vs, v.address) && v.stake >= MIN_STAKE
    ensures DistinctAddresses(vs + [v]) && AllStaked(vs + [v])
  {
  }
}
