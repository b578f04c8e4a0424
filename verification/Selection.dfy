/**
 Stake-and-reputation selection (src/blockchain/validator_manager.js with src/blockchain/validator.js): which entry
 a 32-bit draw hits, how many draws hit each entry, and how far reputation can move a validator's share.
 */
module Selection {
  import opened Facts
  import opened Validators

  /** A draw is the first eight hex digits of a hash, divided by 0xffffffff. */
  const MAX_DRAW: nat := 0xffff_ffff

  /** The sum of the first k weights. */
  function Prefix(ws: seq<real>, k: nat): real
    requires k <= |ws|
  {
    if k == 0 then 0.0 else Prefix(ws, k - 1) + ws[k - 1]
  }

  function Total(ws: seq<real>): real { Prefix(ws, |ws|) }

  predicate Positive(ws: seq<real>) {
    forall i :: 0 <= i < |ws| ==> ws[i] > 0.0
  }

  /** draw / MAX_DRAW <= Prefix / Total, with the positive denominators multiplied out. */
  predicate Hits(ws: seq<real>, draw: nat, i: nat)
    requires i < |ws|
  {
    draw as real * Total(ws) <= MAX_DRAW as real * Prefix(ws, i + 1)
  }

  /** The first entry at or after `from` that the draw hits. */
  function FirstHit(ws: seq<real>, draw: nat, from: nat): (i: nat)
    requires from < |ws| && Positive(ws) && draw <= MAX_DRAW
    ensures from <= i < |ws| && Hits(ws, draw, i)
    ensures forall j :: from <= j < i ==> !Hits(ws, draw, j)
    decreases |ws| - from
  {
    if Hits(ws, draw, from) then from
    else
      LastHits(ws, draw);
      FirstHit(ws, draw, from + 1)
  }

  lemma {:induction false} PrefixGrows(ws: seq<real>, i: nat, j: nat)
    requires Positive(ws) && i <= j <= |ws|
    ensures 0.0 <= Prefix(ws, i) <= Prefix(ws, j)
    ensures i < j ==> Prefix(ws, i) < Prefix(ws, j)
  {
    if j > 0 {
      PrefixGrows(ws, if i < j then i else j - 1, j - 1);
    }
  }

  lemma TimesMonotone(a: real, b: real, c: real)
    requires a <= b && c >= 0.0
    ensures a * c <= b * c
  {}

  /** Every draw hits the last entry at the latest, so the scan's default is never needed. */
  lemma LastHits(ws: seq<real>, draw: nat)
    requires Positive(ws) && ws != [] && draw <= MAX_DRAW
    ensures Hits(ws, draw, |ws| - 1)
  {
    PrefixGrows(ws, 0, |ws|);
    TimesMonotone(draw as real, MAX_DRAW as real, Total(ws));
  }

  /** The entry a draw selects. */
  function Select(ws: seq<real>, draw: nat): (i: nat)
    requires ws != [] && Positive(ws) && draw <= MAX_DRAW
    ensures i < |ws| && Hits(ws, draw, i)
    ensures forall j :: 0 <= j < i ==> !Hits(ws, draw, j)
  {
    FirstHit(ws, draw, 0)
  }

  // ---------------------------------------------------------------- counting

  /** The real boundary of entry k - 1: draws at or below it hit one of the first k entries. */
  ghost function Bound(ws: seq<real>, k: nat): real
    requires k <= |ws| && Total(ws) > 0.0
  {
    MAX_DRAW as real * Prefix(ws, k) / Total(ws)
  }

  lemma QuotientIff(x: real, y: real, t: real)
    requires t > 0.0
    ensures x * t <= y <==> x <= y / t
  {
    assert y == (y / t) * t;
    if x <= y / t {
      TimesMonotone(x, y / t, t);
    } else {
      assert (x - y / t) * t > 0.0;
    }
  }

  lemma HitsIffBelow(ws: seq<real>, draw: nat, i: nat)
    requires i < |ws| && Total(ws) > 0.0
    ensures Hits(ws, draw, i) <==> draw <= Bound(ws, i + 1).Floor
  {
    QuotientIff(draw as real, MAX_DRAW as real * Prefix(ws, i + 1), Total(ws));
  }

  /** The last draw that falls before entry i. */
  ghost function Before(ws: seq<real>, i: nat): int
    requires i < |ws| && Total(ws) > 0.0
  {
    if i == 0 then -1 else Bound(ws, i).Floor
  }

  /** The draws that select one entry are exactly the integers between two consecutive boundaries. */
  lemma SelectIffBetween(ws: seq<real>, draw: nat, i: nat)
    requires ws != [] && Positive(ws) && draw <= MAX_DRAW && i < |ws| && Total(ws) > 0.0
    ensures Select(ws, draw) == i <==> Before(ws, i) < draw <= Bound(ws, i + 1).Floor
  {
    var s := Select(ws, draw);
    HitsIffBelow(ws, draw, i);
    if i > 0 {
      HitsIffBelow(ws, draw, i - 1);
    }
    if s < i {
      HitsFrom(ws, draw, s, i - 1);
    }
  }

  lemma HitsFrom(ws: seq<real>, draw: nat, i: nat, j: nat)
    requires i <= j < |ws| && Positive(ws) && Hits(ws, draw, i)
    ensures Hits(ws, draw, j)
  {
    PrefixGrows(ws, i + 1, j + 1);
    TimesMonotone(Prefix(ws, i + 1), Prefix(ws, j + 1), MAX_DRAW as real);
  }

  /** The integers above lo and up to hi. */
  ghost function Interval(lo: int, hi: int): (s: set<nat>)
    requires -1 <= lo <= hi
    ensures forall d: nat :: d in s <==> lo < d <= hi
    ensures |s| == hi - lo
    decreases hi - lo
  {
    if lo == hi then {} else Interval(lo, hi - 1) + {hi}
  }

  /** The draws, out of all 2^32, that select entry i. */
  ghost function DrawsFor(ws: seq<real>, i: nat): set<nat>
    requires ws != [] && Positive(ws) && i < |ws|
  {
    set draw: nat | draw <= MAX_DRAW && Select(ws, draw) == i
  }

  lemma BoundInRange(ws: seq<real>, k: nat)
    requires Positive(ws) && k <= |ws| && Total(ws) > 0.0
    ensures 0.0 <= Bound(ws, k) <= MAX_DRAW as real
  {
    PrefixGrows(ws, 0, k);
    PrefixGrows(ws, k, |ws|);
    QuotientIff(0.0, MAX_DRAW as real * Prefix(ws, k), Total(ws));
    TimesMonotone(Prefix(ws, k), Total(ws), MAX_DRAW as real);
    AtMostOne(MAX_DRAW as real * Prefix(ws, k), MAX_DRAW as real, Total(ws));
  }

  lemma TimesStrict(a: real, b: real, t: real)
    requires t > 0.0
    ensures a > b ==> a * t > b * t
  {}

  lemma Cancel(a: real, b: real, t: real)
    requires t > 0.0 && a * t <= b * t
    ensures a <= b
  {
    TimesStrict(a, b, t);
  }

  lemma AtMostOne(y: real, m: real, t: real)
    requires t > 0.0 && y <= t * m
    ensures y / t <= m
  {
    assert (y / t) * t == y;
    Cancel(y / t, m, t);
  }

  lemma BoundStep(ws: seq<real>, i: nat)
    requires Positive(ws) && i < |ws| && Total(ws) > 0.0
    ensures Bound(ws, i + 1) - Bound(ws, i) == MAX_DRAW as real * ws[i] / Total(ws) >= 0.0
  {
    var t, m := Total(ws), MAX_DRAW as real;
    SumOfQuotients(m * Prefix(ws, i), m * ws[i], t);
    QuotientIff(0.0, m * ws[i], t);
  }

  lemma SumOfQuotients(a: real, b: real, t: real)
    requires t != 0.0
    ensures (a + b) / t == a / t + b / t
  {
    assert ((a + b) / t - a / t - b / t) * t == 0.0;
  }

  lemma CountIsGap(ws: seq<real>, i: nat)
    requires ws != [] && Positive(ws) && i < |ws| && Total(ws) > 0.0
    ensures |DrawsFor(ws, i)| == Bound(ws, i + 1).Floor - Before(ws, i)
  {
    var lo, hi := Before(ws, i), Bound(ws, i + 1).Floor;
    BoundInRange(ws, i);
    BoundInRange(ws, i + 1);
    BoundStep(ws, i);
    forall d: nat ensures d in DrawsFor(ws, i) <==> d in Interval(lo, hi) {
      if d <= MAX_DRAW {
        SelectIffBetween(ws, d, i);
      }
    }
    assert DrawsFor(ws, i) == Interval(lo, hi);
  }

  /** Among all 2^32 draws, the number that select an entry is its exact share, to within one draw. */
  lemma CountingFairness(ws: seq<real>, i: nat)
    requires ws != [] && Positive(ws) && i < |ws|
    ensures Total(ws) > 0.0
    ensures -1.0 <= |DrawsFor(ws, i)| as real - MAX_DRAW as real * ws[i] / Total(ws) <= 1.0
  {
    PrefixGrows(ws, 0, |ws|);
    CountIsGap(ws, i);
    BoundStep(ws, i);
  }

  // ------------------------------------------------------- reputation's reach

  function Weight(v: ValidatorData): real { v.stake * v.Multiplier() }

  function Weights(vs: seq<ValidatorData>): (ws: seq<real>)
    ensures |ws| == |vs|
  {
    seq(|vs|, i requires 0 <= i < |vs| => Weight(vs[i]))
  }

  function Stakes(vs: seq<ValidatorData>): seq<real> { seq(|vs|, i requires 0 <= i < |vs| => vs[i].stake) }

  lemma WeightPositive(v: ValidatorData)
    requires v.Eligible() && v.reputation >= 0.0
    ensures Weight(v) > 0.0
  {
    TimesMonotone(0.5, v.Multiplier(), v.stake);
  }

  predicate EligibleAndReputable(vs: seq<ValidatorData>) {
    forall i :: 0 <= i < |vs| ==> vs[i].Eligible() && vs[i].reputation >= 0.0
  }

  lemma WeightsPositive(vs: seq<ValidatorData>)
    requires EligibleAndReputable(vs)
    ensures Positive(Weights(vs))
  {
    forall i | 0 <= i < |vs| ensures Weights(vs)[i] > 0.0 {
      WeightPositive(vs[i]);
    }
  }

  /** Every validator is eligible and its reputation is in the range all runs keep. */
  predicate EligibleAndBounded(vs: seq<ValidatorData>) {
    forall i :: 0 <= i < |vs| ==> vs[i].Eligible() && vs[i].Bounded()
  }

  lemma WeightBetween(v: ValidatorData)
    requires v.stake >= 1.0 && v.Bounded()
    ensures 0.5 * v.stake <= Weight(v) <= 2.01 * v.stake
  {
    TimesMonotone(0.5, v.Multiplier(), v.stake);
    TimesMonotone(v.Multiplier(), 2.01, v.stake);
  }

  lemma {:induction false} TotalsBetween(vs: seq<ValidatorData>, k: nat)
    requires EligibleAndBounded(vs) && k <= |vs|
    ensures 0.5 * Prefix(Stakes(vs), k) <= Prefix(Weights(vs), k) <= 2.01 * Prefix(Stakes(vs), k)
    ensures Prefix(Stakes(vs), k) >= k as real
  {
    if k > 0 {
      TotalsBetween(vs, k - 1);
      WeightBetween(vs[k - 1]);
    }
  }

  lemma CrossMultiply(w: real, s: real, wTotal: real, sTotal: real)
    requires s >= 0.0 && sTotal >= 0.0
    requires 0.5 * s <= w <= 2.01 * s && 0.5 * sTotal <= wTotal <= 2.01 * sTotal
    ensures w * sTotal <= 4.02 * (s * wTotal) && s * wTotal <= 4.02 * (w * sTotal)
  {
    TimesMonotone(w, 2.01 * s, sTotal);
    TimesMonotone(0.5 * sTotal, wTotal, s);
    TimesMonotone(wTotal, 2.01 * sTotal, s);
    TimesMonotone(0.5 * s, w, sTotal);
  }

  /** Reputation moves an eligible validator's share of the draws by at most a factor of 4.02 either way. */
  lemma BoundedInfluence(vs: seq<ValidatorData>, i: nat)
    requires EligibleAndBounded(vs) && i < |vs|
    ensures Positive(Weights(vs)) && Total(Weights(vs)) > 0.0 && Total(Stakes(vs)) > 0.0
    ensures var share, stakeShare := Weight(vs[i]) / Total(Weights(vs)), vs[i].stake / Total(Stakes(vs));
            share <= 4.02 * stakeShare && stakeShare <= 4.02 * share
  {
    TotalsBetween(vs, |vs|);
    forall j | 0 <= j < |vs| ensures Weights(vs)[j] > 0.0 {
      WeightBetween(vs[j]);
    }
    WeightBetween(vs[i]);
    CrossMultiply(Weight(vs[i]), vs[i].stake, Total(Weights(vs)), Total(Stakes(vs)));
    SharesCompare(Weight(vs[i]), Total(Weights(vs)), vs[i].stake, Total(Stakes(vs)));
    SharesCompare(vs[i].stake, Total(Stakes(vs)), Weight(vs[i]), Total(Weights(vs)));
  }

  lemma SharesCompare(a: real, p: real, b: real, q: real)
    requires p > 0.0 && q > 0.0 && a * q <= 4.02 * (b * p)
    ensures a / p <= 4.02 * (b / q)
  {
    var x, y := a / p, b / q;
    assert a == x * p && b == y * q;
    assert x * p * q <= 4.02 * (y * q * p);
    ProductPositive(p, q);
    assert x * p * q == x * (p * q) && 4.02 * (y * q * p) == (4.02 * y) * (p * q);
    Cancel(x, 4.02 * y, p * q);
  }
}
