/**
 How much a validator's reputation counts in the selection: everything here is stated by stake and reputation alone.
 A unit of stake counts 66.665 points, plus one for each point of reputation.
 */
module Merits {
  import opened Facts
  import opened Validators
  import opened Selection

  function Merit(v: ValidatorData): real { v.stake * (66.665 + v.reputation) }

  function MeritPrefix(vs: seq<ValidatorData>, k: nat): real
    requires k <= |vs|
  {
    if k == 0 then 0.0 else MeritPrefix(vs, k - 1) + Merit(vs[k - 1])
  }

  function MeritTotal(vs: seq<ValidatorData>): real { MeritPrefix(vs, |vs|) }

  // -------------------------------------------------------- the rule, exactly

  /** The draw, as a part of all draws, falls into the part of the merits that is the entry's own. */
  predicate Covers(vs: seq<ValidatorData>, i: nat, draw: nat) {
    && i < |vs|
    && draw as real * MeritTotal(vs) <= MAX_DRAW as real * MeritPrefix(vs, i + 1)
    && (i > 0 ==> MAX_DRAW as real * MeritPrefix(vs, i) < draw as real * MeritTotal(vs))
  }

  lemma MeritIsWeight(v: ValidatorData)
    ensures Merit(v) == 133.33 * Weight(v)
  {
    var m := v.Multiplier();
    assert 133.33 * m == 66.665 + v.reputation;
    assert v.stake * (133.33 * m) == 133.33 * (v.stake * m);
  }

  lemma {:induction false} PrefixIsMerit(vs: seq<ValidatorData>, k: nat)
    requires k <= |vs|
    ensures MeritPrefix(vs, k) == 133.33 * Prefix(Weights(vs), k)
  {
    if k > 0 {
      hide Merit, Weight;
      PrefixIsMerit(vs, k - 1);
      MeritIsWeight(vs[k - 1]);
    }
  }

  lemma ScaledCompare(d: real, t: real, m: real, p: real)
    ensures d * t <= m * p <==> d * (133.33 * t) <= m * (133.33 * p)
  {
    assert d * (133.33 * t) == 133.33 * (d * t);
    assert m * (133.33 * p) == 133.33 * (m * p);
  }

  lemma HitIsByMerit(vs: seq<ValidatorData>, draw: nat, i: nat)
    requires i < |vs|
    ensures Hits(Weights(vs), draw, i) <==> draw as real * MeritTotal(vs) <= MAX_DRAW as real * MeritPrefix(vs, i + 1)
  {
    hide Weights, MeritPrefix, Prefix;
    PrefixIsMerit(vs, i + 1);
    PrefixIsMerit(vs, |vs|);
    ScaledCompare(draw as real, Total(Weights(vs)), MAX_DRAW as real, Prefix(Weights(vs), i + 1));
  }

  /** The validator a draw selects is the one whose part of the merits covers it. */
  lemma SelectionRule(vs: seq<ValidatorData>, draw: nat, i: nat)
    requires vs != [] && EligibleAndReputable(vs) && draw <= MAX_DRAW && i < |vs|
    ensures Positive(Weights(vs))
    ensures Select(Weights(vs), draw) == i <==> Covers(vs, i, draw)
  {
    hide Weights, Hits, MeritPrefix;
    WeightsPositive(vs);
    var ws := Weights(vs);
    var s := Select(ws, draw);
    HitIsByMerit(vs, draw, i);
    if i > 0 {
      HitIsByMerit(vs, draw, i - 1);
      if s < i {
        HitsFrom(ws, draw, s, i - 1);
      }
    }
  }

  // ------------------------------------------------------------------ shares

  /** The stretch of draws, as a real number, that is a validator's own. */
  ghost function Gap(vs: seq<ValidatorData>, k: nat): real
    requires EligibleAndReputable(vs) && k < |vs|
  {
    TotalPositive(vs);
    Bound(Weights(vs), k + 1) - Bound(Weights(vs), k)
  }

  lemma TotalPositive(vs: seq<ValidatorData>)
    requires EligibleAndReputable(vs) && vs != []
    ensures Positive(Weights(vs)) && Total(Weights(vs)) > 0.0 && MeritTotal(vs) > 0.0
  {
    hide Weights, MeritPrefix;
    WeightsPositive(vs);
    PrefixGrows(Weights(vs), 0, |vs|);
    PrefixIsMerit(vs, |vs|);
  }

  lemma QuotientTimes(x: real, t: real)
    requires t > 0.0
    ensures x / t * t == x
  {
  }

  lemma ScaledProduct(g: real, t: real, m: real, w: real)
    requires g * t == m * w
    ensures g * (133.33 * t) == m * (133.33 * w)
  {
    assert g * (133.33 * t) == 133.33 * (g * t);
    assert m * (133.33 * w) == 133.33 * (m * w);
  }

  /** A validator's stretch of all draws is its part of the merits: stake times 66.665 plus reputation. */
  lemma ExactShare(vs: seq<ValidatorData>, k: nat)
    requires EligibleAndReputable(vs) && k < |vs|
    ensures MeritTotal(vs) > 0.0
    ensures Gap(vs, k) * MeritTotal(vs) == MAX_DRAW as real * (vs[k].stake * (66.665 + vs[k].reputation))
  {
    hide MeritPrefix, Prefix, Weight;
    TotalPositive(vs);
    var ws, m := Weights(vs), MAX_DRAW as real;
    BoundStep(ws, k);
    QuotientTimes(m * ws[k], Total(ws));
    PrefixIsMerit(vs, |vs|);
    MeritIsWeight(vs[k]);
    ScaledProduct(Gap(vs, k), Total(ws), m, ws[k]);
  }

  lemma CancelStrict(a: real, b: real, t: real)
    requires t > 0.0 && a * t > b * t
    ensures a > b
  {
    if a <= b {
      TimesMonotone(a, b, t);
    }
  }

  lemma MoreTimes(m: real, s: real, a: real, b: real)
    requires m > 0.0 && s > 0.0 && a > b
    ensures m * (s * a) > m * (s * b)
  {
    ProductPositive(s, a - b);
    ProductPositive(m, s * (a - b));
    assert m * (s * a) - m * (s * b) == m * (s * (a - b));
  }

  /** Of two eligible validators of equal stake, the one of greater reputation has the strictly greater share. */
  lemma ReputationCounts(vs: seq<ValidatorData>, a: nat, b: nat)
    requires EligibleAndReputable(vs) && a < |vs| && b < |vs|
    requires vs[a].stake == vs[b].stake && vs[a].reputation > vs[b].reputation
    ensures Gap(vs, a) > Gap(vs, b)
  {
    hide Gap, MeritPrefix;
    ExactShare(vs, a);
    ExactShare(vs, b);
    MoreTimes(MAX_DRAW as real, vs[a].stake, 66.665 + vs[a].reputation, 66.665 + vs[b].reputation);
    CancelStrict(Gap(vs, a), Gap(vs, b), MeritTotal(vs));
  }

  /** Going from reputation 0 to 200 makes a share more than four times as large. */
  lemma FullReputationQuadruples(vs: seq<ValidatorData>, a: nat, b: nat)
    requires EligibleAndReputable(vs) && a < |vs| && b < |vs| && vs[a].stake == vs[b].stake
    requires vs[a].reputation == 200.0 && vs[b].reputation == 0.0
    ensures Gap(vs, a) > 4.0 * Gap(vs, b)
  {
    hide Gap, MeritPrefix;
    ExactShare(vs, a);
    ExactShare(vs, b);
    MoreTimes(MAX_DRAW as real, vs[a].stake, 266.665, 4.0 * 66.665);
    var m, s, t := MAX_DRAW as real, vs[a].stake, MeritTotal(vs);
    assert m * (s * (4.0 * 66.665)) == 4.0 * (m * (s * 66.665)) == (4.0 * Gap(vs, b)) * t;
    CancelStrict(Gap(vs, a), 4.0 * Gap(vs, b), t);
  }

  // ------------------------------------------------------------ whole draws

  /** The draws, out of all 2^32, that select a validator. */
  ghost function Draws(vs: seq<ValidatorData>, k: nat): set<nat>
    requires EligibleAndReputable(vs) && k < |vs|
  {
    TotalPositive(vs);
    DrawsFor(Weights(vs), k)
  }

  function Fraction(x: real): real { x - x.Floor as real }

  /** What rounding takes from a validator's share; the first one also gets the draw 0. */
  ghost function Rounding(vs: seq<ValidatorData>, k: nat): real
    requires EligibleAndReputable(vs) && k < |vs|
  {
    TotalPositive(vs);
    Fraction(Bound(Weights(vs), k + 1)) - if k == 0 then 1.0 else Fraction(Bound(Weights(vs), k))
  }

  /** The number of draws is the share less the rounding, which is less than one draw either way, or one for the first. */
  lemma DrawsAreRounded(vs: seq<ValidatorData>, k: nat)
    requires EligibleAndReputable(vs) && k < |vs|
    ensures |Draws(vs, k)| as real == Gap(vs, k) - Rounding(vs, k)
    ensures -1.0 <= Rounding(vs, k) < 1.0
  {
    TotalPositive(vs);
    var ws := Weights(vs);
    CountIsGap(ws, k);
    assert Bound(ws, 0) == 0.0 by { BoundOfNone(ws); }
  }

  lemma BoundOfNone(ws: seq<real>)
    requires Total(ws) > 0.0
    ensures Bound(ws, 0) == 0.0
  {
    assert MAX_DRAW as real * Prefix(ws, 0) == 0.0;
  }

  /** A greater share means at least as many draws exactly when it is not rounded away. */
  lemma AtLeastAsManyDrawsIff(vs: seq<ValidatorData>, a: nat, b: nat)
    requires EligibleAndReputable(vs) && a < |vs| && b < |vs|
    ensures |Draws(vs, a)| >= |Draws(vs, b)| <==> Gap(vs, a) - Gap(vs, b) >= Rounding(vs, a) - Rounding(vs, b)
  {
    hide Draws, Gap, Rounding;
    DrawsAreRounded(vs, a);
    DrawsAreRounded(vs, b);
  }

  /** At equal stake, greater reputation never costs more than one draw, and none if the share is a draw greater. */
  lemma ReputationCostsAtMostOneDraw(vs: seq<ValidatorData>, a: nat, b: nat)
    requires EligibleAndReputable(vs) && a < |vs| && b < |vs|
    requires vs[a].stake == vs[b].stake && vs[a].reputation > vs[b].reputation
    ensures |Draws(vs, a)| >= |Draws(vs, b)| - 1
    ensures Gap(vs, a) >= Gap(vs, b) + 1.0 ==> |Draws(vs, a)| >= |Draws(vs, b)|
  {
    hide Draws, Gap, Rounding;
    ReputationCounts(vs, a, b);
    DrawsAreRounded(vs, a);
    DrawsAreRounded(vs, b);
  }

  lemma BoundOfAll(ws: seq<real>)
    requires Total(ws) > 0.0
    ensures Bound(ws, |ws|) == MAX_DRAW as real
  {
    assert MAX_DRAW as real * Total(ws) / Total(ws) == MAX_DRAW as real;
  }

  /** Between two validators of equal stake, the one of greater reputation has at least as many draws. */
  lemma AtLeastAsManyOfTwo(vs: seq<ValidatorData>, a: nat, b: nat)
    requires |vs| == 2 && EligibleAndReputable(vs) && a < 2 && b < 2
    requires vs[a].stake == vs[b].stake && vs[a].reputation > vs[b].reputation
    ensures |Draws(vs, a)| >= |Draws(vs, b)|
  {
    TotalPositive(vs);
    ReputationCounts(vs, a, b);
    hide Weights;
    var ws := Weights(vs);
    BoundOfNone(ws);
    BoundOfAll(ws);
    CountIsGap(ws, 0);
    CountIsGap(ws, 1);
  }

  /**
   * Among three it can cost one: with reputations 100, 100 + e and 100 - e for a tiny e, the first validator's share
   * is a whole number of draws and it also gets the draw 0, while the second's greater share is rounded down.
   */
  lemma GreaterReputationFewerDraws(vs: seq<ValidatorData>, e: real)
    requires 0.0 < e <= 0.0000001 && |vs| == 3 && forall i :: 0 <= i < 3 ==> vs[i].stake == 1.0 && vs[i].status.Active?
    requires vs[0].reputation == 100.0 && vs[1].reputation == 100.0 + e && vs[2].reputation == 100.0 - e
    ensures EligibleAndReputable(vs) && vs[1].reputation > vs[0].reputation
    ensures |Draws(vs, 1)| == |Draws(vs, 0)| - 1
  {
    var ws, m := Weights(vs), MAX_DRAW as real;
    TotalPositive(vs);
    ExactShare(vs, 0);
    ExactShare(vs, 1);
    assert MeritTotal(vs) == 499.995 by { TotalOfThree(vs); }
    BoundOfNone(ws);
    CountIsGap(ws, 0);
    CountIsGap(ws, 1);
    assert Gap(vs, 0) == 1431655765.0;
    assert Gap(vs, 1) * 499.995 == m * 166.665 + m * e;
  }

  lemma TotalOfThree(vs: seq<ValidatorData>)
    requires |vs| == 3
    ensures MeritTotal(vs) == Merit(vs[0]) + Merit(vs[1]) + Merit(vs[2])
  {
    assert MeritPrefix(vs, 1) == Merit(vs[0]);
    assert MeritPrefix(vs, 2) == Merit(vs[0]) + Merit(vs[1]);
  }

  /**
   * For instance, of two validators of one stake the draw 0x66666666 selects the second if it has reputation 200 and the
   * first has none, and the first if both have reputation 100.
   */
  lemma ReputationDecides(far: seq<ValidatorData>, even: seq<ValidatorData>)
    requires |far| == |even| == 2 && EligibleAndReputable(far) && EligibleAndReputable(even)
    requires forall i :: 0 <= i < 2 ==> far[i].stake == even[i].stake == 1.0 && even[i].reputation == 100.0
    requires far[0].reputation == 0.0 && far[1].reputation == 200.0
    ensures Positive(Weights(far)) && Select(Weights(far), 0x6666_6666) == 1
    ensures Positive(Weights(even)) && Select(Weights(even), 0x6666_6666) == 0
  {
    hide Weights;
    SelectionRule(far, 0x6666_6666, 1);
    SelectionRule(even, 0x6666_6666, 0);
    TotalOfTwo(far);
    TotalOfTwo(even);
  }

  lemma TotalOfTwo(vs: seq<ValidatorData>)
    requires |vs| == 2
    ensures MeritPrefix(vs, 1) == Merit(vs[0]) && MeritPrefix(vs, 2) == MeritTotal(vs) == Merit(vs[0]) + Merit(vs[1])
  {
    assert MeritPrefix(vs, 1) == MeritPrefix(vs, 0) + Merit(vs[0]);
  }
}
