/** MetricsIntegration.calculateCurrentSupply of src/monitoring/metrics_integration.js: an era loop with a cache. */
module Metrics {
  import opened Wrappers
  import opened Facts
  import opened Issuance
  import L = Ledger
  import LedgerRuns

  const MAX_SUPPLY: real := 21000000.0
  const INITIAL_REWARD: real := 21.0
  const HALVING_INTERVAL: nat := 210000

  /** Block-by-block supply at a height, with the fixed initial distribution of 100 + 10. */
  function SupplyAt(height: int): real {
    110.0 + Minted(INITIAL_REWARD, HALVING_INTERVAL, if height < 0 then 0 else height)
  }

  lemma SupplyInRange(height: int)
    ensures 110.0 <= SupplyAt(height) < MAX_SUPPLY
  {
    MintedBounded(INITIAL_REWARD, HALVING_INTERVAL, if height < 0 then 0 else height);
    MintedNonNegative(INITIAL_REWARD, HALVING_INTERVAL, if height < 0 then 0 else height);
  }

  /**
   The figure shown is the ledger's own supply with its awards replaced by the fixed estimate of 110, on every
   run of a ledger with the same schedule whose awards leave room under the cap.
   */
  lemma AgreesWithLedger(o: L.Options, ops: seq<L.Op>)
    requires o.Valid() && LedgerRuns.FitsUnderCap(o, ops)
    requires o.blockReward == INITIAL_REWARD && o.halvingInterval == HALVING_INTERVAL
    ensures SupplyAt(L.Run(o, ops).height) == L.Run(o, ops).supply - LedgerRuns.Awards(o, ops) + 110.0
  {
    hide L.Run, LedgerRuns.Awards, LedgerRuns.FitsUnderCap, Minted;
    LedgerRuns.SupplyIsSchedule(o, ops);
  }

  method EraSupply(blocks: nat, halvings: nat) returns (supply: real)
    ensures supply == Repeated(Halved(INITIAL_REWARD, halvings), blocks)
  {
    HalvedIsQuotient(INITIAL_REWARD, halvings);
    RepeatedIsProduct(Halved(INITIAL_REWARD, halvings), blocks);
    supply := blocks as real * (INITIAL_REWARD / Pow2(halvings) as real);
  }

  /** The era loop: one multiplication per halving era gives the block-by-block sum. */
  method AddEras(start: real, height: nat) returns (supply: real)
    ensures supply == start + Minted(INITIAL_REWARD, HALVING_INTERVAL, height)
  {
    supply := start;
    var remainingHeight: nat := height;
    var halvingCount: nat := 0;
    while remainingHeight > 0
      invariant remainingHeight <= height
      invariant height - remainingHeight == halvingCount * HALVING_INTERVAL || remainingHeight == 0
      invariant supply == start + Minted(INITIAL_REWARD, HALVING_INTERVAL, height - remainingHeight)
    {
      var blocksInThisEra := if remainingHeight < HALVING_INTERVAL then remainingHeight else HALVING_INTERVAL;
      var eraSupply := EraSupply(blocksInThisEra, halvingCount);
      MintedEra(INITIAL_REWARD, HALVING_INTERVAL, halvingCount, height - remainingHeight, blocksInThisEra);
      supply := supply + eraSupply;
      remainingHeight := remainingHeight - blocksInThisEra;
      halvingCount := halvingCount + 1;
    }
  }

  class MetricsIntegration {
    var lastCalculatedSupply: real
    var lastCalculatedHeight: int

    /** A filled cache holds the block-by-block supply of its height. */
    ghost predicate Valid()
      reads this
    {
      lastCalculatedSupply > 0.0 ==> lastCalculatedSupply == SupplyAt(lastCalculatedHeight)
    }

    constructor ()
      ensures Valid()
      ensures lastCalculatedSupply == 0.0 && lastCalculatedHeight == 0
    {
      lastCalculatedSupply, lastCalculatedHeight := 0.0, 0;
    }

    /** Computed or cached, the answer is the block-by-block supply: the cap in the code never bites. */
    method CalculateCurrentSupply(height: int) returns (supply: real)
      requires Valid()
      modifies this
      ensures Valid()
      ensures supply == SupplyAt(height)
      ensures lastCalculatedHeight == height && lastCalculatedSupply == supply
    {
      if height == lastCalculatedHeight && lastCalculatedSupply > 0.0 {
        return lastCalculatedSupply;
      }
      supply := 0.0;
      supply := supply + 100.0;
      var estimatedInitialValidators := 10.0;
      supply := supply + estimatedInitialValidators;
      if height > 0 {
        supply := AddEras(supply, height);
      }
      SupplyInRange(height);
      lastCalculatedHeight := height;
      lastCalculatedSupply := Min(supply, MAX_SUPPLY);
      return lastCalculatedSupply;
    }
  }
}
