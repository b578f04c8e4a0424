/** The halving schedule, its closed form, and the bound on everything it can ever issue. */
module Issuance {
  import opened Facts

  const MIN_REWARD: real := 0.00000001

  /** A reward after a number of halvings. */
  function Halved(reward: real, halvings: nat): real {
    if halvings == 0 then reward else Halved(reward, halvings - 1) / 2.0
  }

  /** Dividing by a power of two, as the code does, is the same as halving step by step. */
  lemma {:induction false} HalvedIsQuotient(reward: real, halvings: nat)
    ensures Halved(reward, halvings) == reward / Pow2(halvings) as real
  {
    if halvings > 0 {
      HalvedIsQuotient(reward, halvings - 1);
      HalvingStep(reward, Pow2(halvings - 1));
    }
  }

  lemma HalvingStep(reward: real, p: nat)
    requires p >= 1
    ensures reward / (2 * p) as real == (reward / p as real) / 2.0
  {
    var u, v := reward / p as real, reward / (2 * p) as real;
    assert v * (2.0 * p as real) == reward == u * p as real;
    assert (2.0 * v - u) * p as real == 0.0;
  }

  lemma {:induction false} HalvedPositive(reward: real, halvings: nat)
    requires reward > 0.0
    ensures 0.0 < Halved(reward, halvings) <= reward
  {
    if halvings > 0 {
      HalvedPositive(reward, halvings - 1);
    }
  }

  /** The reward the schedule assigns to the block applied at a given height. */
  function Scheduled(reward: real, interval: nat, height: nat): real
    requires interval > 0
  {
    Halved(reward, height / interval)
  }

  /** The rewards of the first `blocks` blocks, one block at a time. */
  function Minted(reward: real, interval: nat, blocks: nat): real
    requires interval > 0
  {
    if blocks == 0 then 0.0 else Minted(reward, interval, blocks - 1) + Scheduled(reward, interval, blocks - 1)
  }

  lemma AtLeastOneMultiple(d: int, n: int)
    requires n > 0
    ensures d >= 1 ==> d * n >= n
    ensures d <= -1 ==> d * n <= 0 - n
  {
    assert d >= 1 ==> (d - 1) * n >= 0;
    assert d <= -1 ==> (d + 1) * n <= 0;
  }

  lemma DivUnique(x: nat, n: nat, q: nat, r: nat)
    requires n > 0 && x == q * n + r && r < n
    ensures x / n == q && x % n == r
  {
    var d := x / n - q;
    assert d * n == (x / n) * n - q * n == r - x % n;
    AtLeastOneMultiple(d, n);
  }

  lemma DivStep(h: nat, n: nat)
    requires n > 0
    ensures (h + 1) % n == 0 ==> (h + 1) / n == h / n + 1 && h % n == n - 1
    ensures (h + 1) % n != 0 ==> (h + 1) / n == h / n && (h + 1) % n == h % n + 1
  {
    var q, r := h / n, h % n;
    assert h == q * n + r;
    if r == n - 1 {
      assert h + 1 == (q + 1) * n;
      DivUnique(h + 1, n, q + 1, 0);
    } else {
      DivUnique(h + 1, n, q, r + 1);
    }
  }

  /** What is still to come after `blocks` blocks. */
  function Remaining(reward: real, interval: nat, blocks: nat): real
    requires interval > 0
  {
    (2 * interval - blocks % interval) as real * Scheduled(reward, interval, blocks)
  }

  /** Everything the schedule can ever mint. */
  function Limit(reward: real, interval: nat): real { 2.0 * interval as real * reward }

  /** One block takes its own reward out of what remains, also across a halving. */
  lemma RemainingStep(reward: real, interval: nat, h: nat)
    requires interval > 0
    ensures Remaining(reward, interval, h + 1) == Remaining(reward, interval, h) - Scheduled(reward, interval, h)
  {
    DivStep(h, interval);
    var u := Scheduled(reward, interval, h);
    if (h + 1) % interval == 0 {
      Double(interval as real, u);
      Split(interval as real + 1.0, u);
    } else {
      Split((2 * interval - h % interval) as real, u);
    }
  }

  lemma Split(k: real, u: real)
    ensures k * u - u == (k - 1.0) * u
  {}

  lemma Double(k: real, u: real)
    ensures (2.0 * k) * (u / 2.0) == k * u
  {}

  /** Closed form of the schedule: everything minted so far plus what remains is twice one era. */
  lemma {:induction false} MintedClosedForm(reward: real, interval: nat, blocks: nat)
    requires interval > 0
    ensures Minted(reward, interval, blocks) + Remaining(reward, interval, blocks) == Limit(reward, interval)
  {
    if blocks == 0 {
      DivUnique(0, interval, 0, 0);
    } else {
      MintedClosedForm(reward, interval, blocks - 1);
      RemainingStep(reward, interval, blocks - 1);
    }
  }

  /** However many blocks are applied, the schedule never reaches twice one era's rewards. */
  lemma MintedBounded(reward: real, interval: nat, blocks: nat)
    requires interval > 0 && reward > 0.0
    ensures Minted(reward, interval, blocks) < Limit(reward, interval)
  {
    MintedClosedForm(reward, interval, blocks);
    HalvedPositive(reward, blocks / interval);
    ProductPositive((2 * interval - blocks % interval) as real, Scheduled(reward, interval, blocks));
  }

  lemma {:induction false} MintedNonNegative(reward: real, interval: nat, blocks: nat)
    requires interval > 0 && reward > 0.0
    ensures Minted(reward, interval, blocks) >= 0.0
  {
    if blocks > 0 {
      MintedNonNegative(reward, interval, blocks - 1);
      HalvedPositive(reward, (blocks - 1) / interval);
    }
  }

  function Repeated(u: real, n: nat): real {
    if n == 0 then 0.0 else Repeated(u, n - 1) + u
  }

  lemma {:induction false} RepeatedIsProduct(u: real, n: nat)
    ensures Repeated(u, n) == n as real * u
  {
    if n > 0 {
      RepeatedIsProduct(u, n - 1);
      Split(n as real, u);
    }
  }

  /** The blocks of one era all carry the same reward, across any prefix of the era. */
  lemma {:induction false} MintedEra(reward: real, interval: nat, era: nat, base: nat, n: nat)
    requires interval > 0 && n <= interval && base == era * interval
    ensures Minted(reward, interval, base + n) == Minted(reward, interval, base) + Repeated(Halved(reward, era), n)
  {
    if n > 0 {
      MintedEra(reward, interval, era, base, n - 1);
      DivUnique(base + n - 1, interval, era, n - 1);
    }
  }
}
