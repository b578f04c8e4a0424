/** How far reputation can move a validator's chances in any state any run of the consensus engine reaches. */
module Influence {
  import opened Wrappers
  import opened Validators
  import opened Rpos
  import RposSafety
  import S = Selection

  predicate AreEligible(registry: map<Id, ValidatorData>, who: seq<Id>) {
    forall j :: 0 <= j < |who| ==> who[j] in registry && registry[who[j]].Eligible()
  }

  /** The records of a list of validators. */
  function Records(registry: map<Id, ValidatorData>, who: seq<Id>): (vs: seq<ValidatorData>)
    requires AreEligible(registry, who)
    ensures |vs| == |who| && forall j :: 0 <= j < |who| ==> vs[j] == registry[who[j]]
  {
    seq(|who|, j requires 0 <= j < |who| => registry[who[j]])
  }

  lemma RunKeepsThemBounded(c: Config, run: seq<Engine>, i: nat, who: seq<Id>)
    requires c.Valid() && RposSafety.IsRun(c, run) && i < |run| && AreEligible(run[i].validators, who)
    ensures S.EligibleAndBounded(Records(run[i].validators, who))
  {
    hide RposSafety.IsRun;
    forall j | 0 <= j < |who| ensures run[i].validators[who[j]].Bounded() {
      RposSafety.ReputationsStayBounded(c, run, i, who[j]);
    }
  }

  lemma Scale(a: real, b: real, m: real)
    requires a <= 4.02 * b && m >= 0.0
    ensures m * a <= 4.02 * (m * b)
  {
    S.TimesMonotone(a, 4.02 * b, m);
  }

  lemma QuotientOfProduct(m: real, a: real, t: real)
    requires t > 0.0
    ensures m * a / t == m * (a / t)
  {
    var q := a / t;
    assert q * t == a;
    assert m * a == (m * q) * t;
    S.Cancel(m * a / t, m * q, t);
    S.Cancel(m * q, m * a / t, t);
  }

  /**
   * In every state of every run, and for any list of validators eligible in it, the share of the draws a validator
   * gets is within a factor 4.02 of its share of their stake, and so is its number of draws, to within one draw.
   */
  lemma ShareOnEveryRun(c: Config, run: seq<Engine>, i: nat, who: seq<Id>, k: nat)
    requires c.Valid() && RposSafety.IsRun(c, run) && i < |run| && AreEligible(run[i].validators, who) && k < |who|
    ensures var vs := Records(run[i].validators, who); var ws := S.Weights(vs);
            && S.Positive(ws) && S.Total(ws) > 0.0 && S.Total(S.Stakes(vs)) > 0.0
            && var share, stakeShare := ws[k] / S.Total(ws), vs[k].stake / S.Total(S.Stakes(vs));
            && share <= 4.02 * stakeShare && stakeShare <= 4.02 * share
            && var draws, fair := |S.DrawsFor(ws, k)| as real, S.MAX_DRAW as real * stakeShare;
            && draws - 1.0 <= 4.02 * fair && fair <= 4.02 * (draws + 1.0)
  {
    hide RposSafety.IsRun, AreEligible, S.EligibleAndBounded, S.DrawsFor, S.Prefix, S.Positive;
    RunKeepsThemBounded(c, run, i, who);
    var vs := Records(run[i].validators, who);
    var ws := S.Weights(vs);
    S.BoundedInfluence(vs, k);
    S.CountingFairness(ws, k);
    var share, stakeShare := ws[k] / S.Total(ws), vs[k].stake / S.Total(S.Stakes(vs));
    var m := S.MAX_DRAW as real;
    QuotientOfProduct(m, ws[k], S.Total(ws));
    Scale(share, stakeShare, m);
    Scale(stakeShare, share, m);
  }
}
