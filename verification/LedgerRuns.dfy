/** Issuance and nonce laws of the ledger, over every run of its operations. */
module LedgerRuns {
  import opened Wrappers
  import opened Ledger
  import Issuance

  // --------------------------------------------- what one transaction changes

  /** The change a transaction makes to one address; its three roles add up when addresses coincide. */
  function Delta(t: Tx, a: Address): real {
    if !t.WellFormed() then 0.0
    else
      (if a == t.Sender() then -t.Cost() else 0.0) +
      (if a == t.Recipient() then t.amount.value else 0.0) +
      (if t.PaysFee() && a == t.feeTo then t.fee.value else 0.0)
  }

  function Touched(t: Tx): set<Address> {
    {t.Sender(), t.Recipient()} + if t.PaysFee() then {t.feeTo} else {}
  }

  lemma EffectAt(m: Accounts, t: Tx, a: Address)
    requires t.WellFormed()
    ensures Lookup(Effect(m, t), a).balance == Lookup(m, a).balance + Delta(t, a)
    ensures Lookup(Effect(m, t), a).nonce == if a == t.Sender() then t.nonce else Lookup(m, a).nonce
    ensures Lookup(Effect(m, t), a).stake == Lookup(m, a).stake
  {}

  lemma EffectKeys(m: Accounts, t: Tx)
    requires t.WellFormed()
    ensures Effect(m, t).Keys == m.Keys + Touched(t)
  {}

  lemma {:induction false} PreValidateAt(m: Accounts, txs: seq<Tx>, a: Address)
    ensures Lookup(PreValidate(m, txs).accounts, a) == Lookup(m, a)
    decreases |txs|
  {
    if txs != [] && txs[0].Tx? {
      PreValidateAt(Touch(m, txs[0].Sender()), txs[1..], a);
    }
  }

  // ---------------------------------------------------------------- issuance

  /** The distribution awards one call pays. Registration never pays an early-validator award. */
  function Award(o: Options, s: State, op: Op): real {
    match op
    case RegisterOp(a, v, now) =>
      if Register(o, s, a, v, now).accepted && !s.developerSet && now < o.distributionEnd
      then o.developerNodeReward else 0.0
    case DeveloperOp(a) => o.developerNodeReward
    case EarlyOp(a) => if EarlyAwardDue(s, a) then o.earlyValidatorReward else 0.0
    case _ => 0.0
  }

  function Awards(o: Options, ops: seq<Op>): real
    requires o.Valid()
  {
    if ops == [] then 0.0
    else Awards(o, ops[..|ops| - 1]) + Award(o, Run(o, ops[..|ops| - 1]), ops[|ops| - 1])
  }

  /** Awards paid so far leave room for the whole schedule under the cap. */
  predicate FitsUnderCap(o: Options, ops: seq<Op>)
    requires o.Valid()
  {
    Awards(o, ops) + Issuance.Limit(o.blockReward, o.halvingInterval) <= o.maxSupply
  }

  function BlocksAccepted(o: Options, ops: seq<Op>): nat
    requires o.Valid()
  {
    if ops == [] then 0
    else
      var s := Run(o, ops[..|ops| - 1]);
      var op := ops[|ops| - 1];
      BlocksAccepted(o, ops[..|ops| - 1]) +
      (if op.BlockOp? && ApplyBlock(o, s, op.block, op.now).accepted then 1 else 0)
  }

  /** The reward is negative exactly when awards have already pushed the supply over the cap. */
  lemma RewardSign(o: Options, height: nat, supply: real)
    requires o.Valid()
    ensures BlockReward(o, height, supply) < 0.0 <==> supply > o.maxSupply
    ensures supply <= o.maxSupply ==> supply + BlockReward(o, height, supply) <= o.maxSupply
  {
    Issuance.HalvedPositive(o.blockReward, height / o.halvingInterval);
  }

  lemma BlockSupply(o: Options, s: State, b: Option<Block>, now: int)
    requires o.Valid()
    ensures var r := ApplyBlock(o, s, b, now);
            if r.accepted
            then r.state.supply == s.supply + BlockReward(o, s.height, s.supply) && r.state.height == s.height + 1
            else r.state == s
  {}

  lemma AwardSupply(o: Options, s: State, op: Op)
    requires o.Valid() && !op.BlockOp?
    ensures Step(o, s, op).supply == s.supply + Award(o, s, op)
    ensures Step(o, s, op).height == s.height
    ensures Award(o, s, op) >= 0.0
  {}

  lemma {:induction false} HeightCountsBlocks(o: Options, ops: seq<Op>)
    requires o.Valid()
    ensures Run(o, ops).height == BlocksAccepted(o, ops)
  {
    if ops != [] {
      var s, op := Run(o, ops[..|ops| - 1]), ops[|ops| - 1];
      HeightCountsBlocks(o, ops[..|ops| - 1]);
      if op.BlockOp? {
        BlockSupply(o, s, op.block, op.now);
      } else {
        AwardSupply(o, s, op);
      }
    }
  }

  /** The supply is the block-by-block schedule plus the awards. */
  predicate OnSchedule(o: Options, ops: seq<Op>)
    requires o.Valid()
  {
    Run(o, ops).supply == Issuance.Minted(o.blockReward, o.halvingInterval, Run(o, ops).height) + Awards(o, ops)
  }

  /** On schedule and with room left, the next reward is the scheduled one and stays under the cap. */
  lemma RewardIsScheduled(o: Options, height: nat, supply: real, awards: real)
    requires o.Valid() && awards + Issuance.Limit(o.blockReward, o.halvingInterval) <= o.maxSupply
    requires supply == Issuance.Minted(o.blockReward, o.halvingInterval, height) + awards
    ensures BlockReward(o, height, supply) == Issuance.Scheduled(o.blockReward, o.halvingInterval, height)
    ensures supply < o.maxSupply
  {
    Issuance.MintedBounded(o.blockReward, o.halvingInterval, height + 1);
    Issuance.MintedBounded(o.blockReward, o.halvingInterval, height);
  }

  lemma FitsBefore(o: Options, ops: seq<Op>)
    requires o.Valid() && ops != [] && FitsUnderCap(o, ops)
    ensures FitsUnderCap(o, ops[..|ops| - 1])
  {
    var s, op := Run(o, ops[..|ops| - 1]), ops[|ops| - 1];
    if !op.BlockOp? {
      AwardSupply(o, s, op);
    }
  }

  /**
   While awards plus the whole schedule fit under the cap, the cap branch is never taken: the supply is the
   block-by-block schedule up to the current height, plus the awards.
   */
  lemma {:induction false} SupplyIsSchedule(o: Options, ops: seq<Op>)
    requires o.Valid() && FitsUnderCap(o, ops)
    ensures OnSchedule(o, ops)
    ensures BlockReward(o, Run(o, ops).height, Run(o, ops).supply)
         == Issuance.Scheduled(o.blockReward, o.halvingInterval, Run(o, ops).height)
    ensures Run(o, ops).supply < o.maxSupply
  {
    if ops != [] {
      var before, op := ops[..|ops| - 1], ops[|ops| - 1];
      var s := Run(o, before);
      FitsBefore(o, ops);
      SupplyIsSchedule(o, before);
      if op.BlockOp? {
        BlockSupply(o, s, op.block, op.now);
      } else {
        AwardSupply(o, s, op);
      }
    }
    RewardIsScheduled(o, Run(o, ops).height, Run(o, ops).supply, Awards(o, ops));
  }

  /** An accepted block leaves the supply at or below the cap; from above, its reward lands exactly on it. */
  lemma BlockEndsUnderCap(o: Options, s: State, b: Option<Block>, now: int)
    requires o.Valid() && ApplyBlock(o, s, b, now).accepted
    ensures ApplyBlock(o, s, b, now).state.supply <= o.maxSupply
    ensures s.supply > o.maxSupply ==> ApplyBlock(o, s, b, now).state.supply == o.maxSupply
  {
    BlockSupply(o, s, b, now);
    Issuance.HalvedPositive(o.blockReward, s.height / o.halvingInterval);
  }

  /** The awards paid since the last accepted block. */
  function RecentAwards(o: Options, ops: seq<Op>): real
    requires o.Valid()
  {
    if ops == [] then 0.0
    else
      var before, op := ops[..|ops| - 1], ops[|ops| - 1];
      if op.BlockOp? && ApplyBlock(o, Run(o, before), op.block, op.now).accepted then 0.0
      else RecentAwards(o, before) + Award(o, Run(o, before), op)
  }

  /** Over any run, only awards paid since the last accepted block can hold the supply above the cap. */
  lemma {:induction false} OnlyRecentAwardsExceedCap(o: Options, ops: seq<Op>)
    requires o.Valid()
    ensures Run(o, ops).supply <= Max(0.0, o.maxSupply) + RecentAwards(o, ops)
  {
    if ops != [] {
      hide ApplyBlock;
      var before, op := ops[..|ops| - 1], ops[|ops| - 1];
      var s := Run(o, before);
      OnlyRecentAwardsExceedCap(o, before);
      if op.BlockOp? {
        BlockSupply(o, s, op.block, op.now);
        if ApplyBlock(o, s, op.block, op.now).accepted {
          BlockEndsUnderCap(o, s, op.block, op.now);
        }
      } else {
        AwardSupply(o, s, op);
      }
    }
  }

  // ------------------------------------------------------------------ nonces

  /** The nonces of one sender's transactions, in order. */
  function NoncesOf(txs: seq<Tx>, a: Address): seq<int> {
    if txs == [] then []
    else
      var t := txs[|txs| - 1];
      NoncesOf(txs[..|txs| - 1], a) + if t.Tx? && t.Sender() == a then [t.nonce] else []
  }

  predicate OneTwoThree(ns: seq<int>) {
    forall i :: 0 <= i < |ns| ==> ns[i] == i + 1
  }

  /** The history so far agrees with the nonce stored for an address. */
  predicate Agrees(history: seq<Tx>, a: Address, nonce: int) {
    var ns := NoncesOf(history, a);
    OneTwoThree(ns) && |ns| == nonce
  }

  lemma AgreesSnoc(history: seq<Tx>, t: Tx, a: Address, nonce: int)
    requires t.Tx? && Agrees(history, a, nonce)
    requires a == t.Sender() ==> t.nonce == nonce + 1
    ensures Agrees(history + [t], a, if a == t.Sender() then t.nonce else nonce)
  {
    var h := history + [t];
    assert h[..|h| - 1] == history;
  }

  lemma {:induction false} NoncesApplyTxs(m: Accounts, txs: seq<Tx>, history: seq<Tx>, a: Address)
    requires ApplyTxs(m, txs).ok && Agrees(history, a, Lookup(m, a).nonce)
    ensures Agrees(history + txs, a, Lookup(ApplyTxs(m, txs).accounts, a).nonce)
    decreases |txs|
  {
    if txs == [] {
      assert history + txs == history;
    } else {
      var h := history + [txs[0]];
      AgreesSnoc(history, txs[0], a, Lookup(m, a).nonce);
      EffectAt(m, txs[0], a);
      NoncesApplyTxs(Effect(m, txs[0]), txs[1..], h, a);
      assert h + txs[1..] == history + txs;
    }
  }

  lemma NoncesBlock(o: Options, s: State, b: Option<Block>, now: int, history: seq<Tx>, a: Address)
    requires o.Valid() && ApplyBlock(o, s, b, now).accepted
    requires Agrees(history, a, Lookup(s.accounts, a).nonce)
    ensures Agrees(history + b.value.transactions.value, a, Lookup(ApplyBlock(o, s, b, now).state.accounts, a).nonce)
  {
    var txs := b.value.transactions.value;
    PreValidateAt(s.accounts, txs, a);
    var m := Credit(PreValidate(s.accounts, txs).accounts, b.value.validatorAddress, BlockReward(o, s.height, s.supply));
    NoncesApplyTxs(m, txs, history, a);
  }

  lemma NoncesOther(o: Options, s: State, op: Op, a: Address)
    requires o.Valid() && Accepted(o, s, op) == []
    ensures op.BlockOp? || Lookup(Step(o, s, op).accounts, a).nonce == Lookup(s.accounts, a).nonce
  {}

  /**
   Over any run, rolled-back blocks included, each sender's transactions that took effect carry the nonces
   1, 2, 3, ... and their number is the nonce stored in the account.
   */
  lemma {:induction false} NoncesAreConsecutive(o: Options, ops: seq<Op>, a: Address)
    requires o.Valid()
    ensures Agrees(History(o, ops), a, Lookup(Run(o, ops).accounts, a).nonce)
  {
    if ops != [] {
      var before, op := ops[..|ops| - 1], ops[|ops| - 1];
      var s, history := Run(o, before), History(o, before);
      NoncesAreConsecutive(o, before, a);
      if op.BlockOp? && ApplyBlock(o, s, op.block, op.now).accepted {
        NoncesBlock(o, s, op.block, op.now, history, a);
      } else if op.TxOp? && ApplyTx(s.accounts, op.tx).ok {
        assert ApplyTxs(Effect(s.accounts, op.tx), [op.tx][1..]).ok;
        NoncesApplyTxs(s.accounts, [op.tx], history, a);
      } else {
        NoncesOther(o, s, op, a);
        assert history + [] == history;
      }
    }
  }

  lemma {:induction false} PositionOf(txs: seq<Tx>, i: nat) returns (k: nat)
    requires i < |txs| && txs[i].Tx?
    ensures k < |NoncesOf(txs, txs[i].Sender())|
    ensures NoncesOf(txs, txs[i].Sender())[k] == txs[i].nonce
    ensures k == |NoncesOf(txs[..i], txs[i].Sender())|
  {
    if i == |txs| - 1 {
      k := |NoncesOf(txs[..i], txs[i].Sender())|;
    } else {
      var front := txs[..|txs| - 1];
      k := PositionOf(front, i);
      assert front[..i] == txs[..i];
    }
  }

  lemma {:induction false} NoncesMonotone(txs: seq<Tx>, i: nat, j: nat, a: Address)
    requires i <= j <= |txs|
    ensures |NoncesOf(txs[..i], a)| <= |NoncesOf(txs[..j], a)|
  {
    if i < j {
      NoncesMonotone(txs, i, j - 1, a);
      assert txs[..j][..j - 1] == txs[..j - 1];
    }
  }

  /** In a history that agrees with a stored nonce, the later of two transactions of one sender has the greater nonce. */
  lemma LaterNonceIsGreater(txs: seq<Tx>, i: nat, j: nat, nonce: int)
    requires i < j < |txs| && txs[i].Tx? && txs[j].Tx? && txs[i].Sender() == txs[j].Sender()
    requires Agrees(txs, txs[i].Sender(), nonce)
    ensures txs[i].nonce < txs[j].nonce
  {
    var a := txs[i].Sender();
    var ki := PositionOf(txs, i);
    var kj := PositionOf(txs, j);
    NoncesMonotone(txs, i + 1, j, a);
    assert txs[..i + 1][..i] == txs[..i];
  }

  /** No (sender, nonce) pair takes effect twice in any run. */
  lemma NoReplay(o: Options, ops: seq<Op>, i: nat, j: nat)
    requires o.Valid() && i < j < |History(o, ops)|
    requires History(o, ops)[i].Tx? && History(o, ops)[j].Tx?
    requires History(o, ops)[i].Sender() == History(o, ops)[j].Sender()
    ensures History(o, ops)[i].nonce < History(o, ops)[j].nonce
  {
    hide Run, History, Agrees;
    var a := History(o, ops)[i].Sender();
    NoncesAreConsecutive(o, ops, a);
    LaterNonceIsGreater(History(o, ops), i, j, Lookup(Run(o, ops).accounts, a).nonce);
  }
}
