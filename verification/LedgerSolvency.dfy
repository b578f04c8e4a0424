/** Who can come to owe the ledger: exactly which accepted blocks leave a negative balance behind. */
module LedgerSolvency {
  import opened Wrappers
  import opened Ledger
  import opened LedgerRuns
  import opened LedgerBlocks

  predicate Solvent(m: Accounts) {
    forall a :: a in m ==> m[a].balance >= 0.0 && m[a].stake >= 0.0
  }

  // ------------------------------------------------------------- one address

  lemma EffectKeepsAt(m: Accounts, t: Tx, a: Address)
    requires t.WellFormed() && Funded(m, t)
    ensures Lookup(m, a).balance >= 0.0 ==> Lookup(Effect(m, t), a).balance >= 0.0
    ensures Lookup(Effect(m, t), a).stake == Lookup(m, a).stake
  {
    EffectAt(m, t, a);
  }

  /** Whoever else owes something, transactions never take an address that owes nothing below zero. */
  lemma {:induction false} ApplyTxsKeepsAt(m: Accounts, txs: seq<Tx>, a: Address)
    requires ApplyTxs(m, txs).ok
    ensures Lookup(m, a).balance >= 0.0 ==> Lookup(ApplyTxs(m, txs).accounts, a).balance >= 0.0
    ensures Lookup(ApplyTxs(m, txs).accounts, a).stake == Lookup(m, a).stake
    decreases |txs|
  {
    if txs != [] {
      hide Effect, Funded;
      EffectKeepsAt(m, txs[0], a);
      ApplyTxsKeepsAt(Effect(m, txs[0]), txs[1..], a);
    }
  }

  lemma SolventAt(m: Accounts, a: Address)
    requires Solvent(m)
    ensures Lookup(m, a).balance >= 0.0 && Lookup(m, a).stake >= 0.0
  {
  }

  // --------------------------------------------------------------- one block

  /** What a block's validator ends up with: its balance, the reward, and what the block's transactions bring it. */
  ghost function ValidatorEnds(o: Options, s: State, b: Block): real
    requires o.Valid() && b.transactions.Some?
  {
    Lookup(s.accounts, b.validatorAddress).balance + BlockReward(o, s.height, s.supply)
    + Received(b.transactions.value, b.validatorAddress)
  }

  /** The accounts after an accepted block, one address at a time. */
  lemma BlockAt(o: Options, s: State, b: Block, now: int, a: Address)
    requires o.Valid() && ApplyBlock(o, s, Some(b), now).accepted
    ensures b.transactions.Some?
    ensures var after, v := ApplyBlock(o, s, Some(b), now).state.accounts, b.validatorAddress;
            && v in after && Lookup(after, v).balance == ValidatorEnds(o, s, b)
            && Lookup(after, a).stake == Lookup(s.accounts, a).stake
            && (a != v && Lookup(s.accounts, a).balance >= 0.0 ==> Lookup(after, a).balance >= 0.0)
  {
    hide ApplyBlock, ApplyTxs, Received, Delta;
    AcceptedByParts(o, s, Some(b), now);
    AcceptedApplies(o, s, b, now);
    var m, txs, v := Rewarded(o, s, b), b.transactions.value, b.validatorAddress;
    ApplyTxsClosedForm(m, txs, v);
    ApplyTxsKeepsAt(m, txs, a);
  }

  lemma AcceptedApplies(o: Options, s: State, b: Block, now: int)
    requires o.Valid() && ApplyBlock(o, s, Some(b), now).accepted
    ensures b.transactions.Some?
    ensures var m, txs := Rewarded(o, s, b), b.transactions.value;
            AllWellFormed(txs) && NextNonces(m, txs) && DistinctSenders(txs) && ApplyTxs(m, txs).ok
  {
    hide ApplyBlock, ApplyTxs, AffordableInTurn;
    AcceptedByParts(o, s, Some(b), now);
    ApplyTxsIff(Rewarded(o, s, b), b.transactions.value);
  }

  /** An accepted block leaves everyone solvent if and only if it leaves its own validator so. */
  lemma BlockSolventIff(o: Options, s: State, b: Block, now: int)
    requires o.Valid() && Solvent(s.accounts) && ApplyBlock(o, s, Some(b), now).accepted
    ensures Solvent(ApplyBlock(o, s, Some(b), now).state.accounts) <==> ValidatorEnds(o, s, b) >= 0.0
  {
    hide ApplyBlock, ValidatorEnds;
    var after := ApplyBlock(o, s, Some(b), now).state.accounts;
    forall a ensures a in after && a != b.validatorAddress ==> after[a].balance >= 0.0
             ensures a in after ==> after[a].stake >= 0.0
    {
      BlockAt(o, s, b, now, a);
      SolventAt(s.accounts, a);
    }
    BlockAt(o, s, b, now, b.validatorAddress);
  }

  /** With the supply at or below the cap the reward is not negative, so an accepted block leaves everyone solvent. */
  lemma UnderCapKeepsSolvent(o: Options, s: State, b: Block, now: int)
    requires o.Valid() && Solvent(s.accounts) && s.supply <= o.maxSupply && ApplyBlock(o, s, Some(b), now).accepted
    ensures ValidatorEnds(o, s, b) >= 0.0
  {
    hide ApplyBlock, ApplyTxs, Received;
    RewardSign(o, s.height, s.supply);
    AcceptedApplies(o, s, b, now);
    SolventAt(s.accounts, b.validatorAddress);
    ApplyTxsKeepsAt(Rewarded(o, s, b), b.transactions.value, b.validatorAddress);
    ApplyTxsClosedForm(Rewarded(o, s, b), b.transactions.value, b.validatorAddress);
  }

  // ---------------------------------------------------------------- whole runs

  /** A call that accepts a block at its validator's expense. */
  ghost predicate Indebts(o: Options, s: State, op: Op)
    requires o.Valid()
  {
    op.BlockOp? && ApplyBlock(o, s, op.block, op.now).accepted && ValidatorEnds(o, s, op.block.value) < 0.0
  }

  lemma SolventOther(o: Options, s: State, op: Op)
    requires o.Valid() && Solvent(s.accounts) && !op.BlockOp? && !op.TxOp?
    ensures Solvent(Step(o, s, op).accounts)
  {}

  lemma SolventTx(s: State, t: Tx)
    requires Solvent(s.accounts)
    ensures Solvent(ApplyTx(s.accounts, t).accounts)
  {
    if ApplyTx(s.accounts, t).ok {
      forall a ensures Lookup(Effect(s.accounts, t), a).balance >= 0.0 && Lookup(Effect(s.accounts, t), a).stake >= 0.0 {
        SolventAt(s.accounts, a);
        EffectKeepsAt(s.accounts, t, a);
      }
      var after := Effect(s.accounts, t);
      forall a | a in after ensures after[a].balance >= 0.0 && after[a].stake >= 0.0 {
        assert after[a] == Lookup(after, a);
      }
    }
  }

  /** A call keeps a ledger solvent if and only if it does not accept a block at its validator's expense. */
  lemma StepSolventIff(o: Options, s: State, op: Op)
    requires o.Valid() && Solvent(s.accounts)
    ensures Solvent(Step(o, s, op).accounts) <==> !Indebts(o, s, op)
  {
    hide Solvent, ValidatorEnds, ApplyTx, ApplyBlock;
    match op
    case BlockOp(b, now) =>
      BlockSupply(o, s, b, now);
      if ApplyBlock(o, s, b, now).accepted {
        AcceptedByParts(o, s, b, now);
        BlockSolventIff(o, s, b.value, now);
      }
    case TxOp(t) => SolventTx(s, t);
    case _ => SolventOther(o, s, op);
  }

  ghost predicate SolventThroughout(o: Options, ops: seq<Op>)
    requires o.Valid()
  {
    Solvent(Run(o, ops).accounts) && (ops != [] ==> SolventThroughout(o, ops[..|ops| - 1]))
  }

  ghost predicate NobodyIndebted(o: Options, ops: seq<Op>)
    requires o.Valid()
  {
    ops != [] ==>
      var before := ops[..|ops| - 1];
      NobodyIndebted(o, before) && !Indebts(o, Run(o, before), ops[|ops| - 1])
  }

  /** Nobody owes anything anywhere along a run if and only if no call accepts a block at its validator's expense. */
  lemma {:induction false} SolventIff(o: Options, ops: seq<Op>)
    requires o.Valid()
    ensures SolventThroughout(o, ops) <==> NobodyIndebted(o, ops)
  {
    if ops == [] {
      assert Run(o, ops).accounts == map[];
    } else {
      hide Indebts, Step, Solvent;
      var before := ops[..|ops| - 1];
      SolventIff(o, before);
      if SolventThroughout(o, before) {
        StepSolventIff(o, Run(o, before), ops[|ops| - 1]);
      }
    }
  }

  /** The supply is at or below the cap whenever a block is offered. */
  predicate UnderCapAtBlocks(o: Options, ops: seq<Op>)
    requires o.Valid()
  {
    ops != [] ==>
      var before := ops[..|ops| - 1];
      UnderCapAtBlocks(o, before) && (ops[|ops| - 1].BlockOp? ==> Run(o, before).supply <= o.maxSupply)
  }

  /** No account ever owes anything while the supply is at or below the cap whenever a block is offered. */
  lemma {:induction false} AlwaysSolvent(o: Options, ops: seq<Op>)
    requires o.Valid() && UnderCapAtBlocks(o, ops)
    ensures SolventThroughout(o, ops)
  {
    if ops == [] {
      assert Run(o, ops).accounts == map[];
    } else {
      hide ValidatorEnds, Step, Solvent, ApplyBlock;
      var before, op := ops[..|ops| - 1], ops[|ops| - 1];
      AlwaysSolvent(o, before);
      StepSolventIff(o, Run(o, before), op);
      if op.BlockOp? && ApplyBlock(o, Run(o, before), op.block, op.now).accepted {
        AcceptedByParts(o, Run(o, before), op.block, op.now);
        UnderCapKeepsSolvent(o, Run(o, before), op.block.value, op.now);
      }
    }
  }

  /** In particular while awards and the whole schedule fit under the cap. */
  lemma {:induction false} FittingRunsStayUnderCap(o: Options, ops: seq<Op>)
    requires o.Valid() && FitsUnderCap(o, ops)
    ensures UnderCapAtBlocks(o, ops)
  {
    if ops != [] {
      hide Run, FitsUnderCap, OnSchedule;
      FitsBefore(o, ops);
      FittingRunsStayUnderCap(o, ops[..|ops| - 1]);
      SupplyIsSchedule(o, ops[..|ops| - 1]);
    }
  }

  // ------------------------------------------------------------- over the cap

  /** Over the cap, an accepted empty block takes the whole excess from its validator, whatever it has. */
  lemma EmptyBlockTakesExcess(o: Options, s: State, b: Block, now: int)
    requires o.Valid() && s.supply > o.maxSupply && b.transactions == Some([])
    requires ApplyBlock(o, s, Some(b), now).accepted
    ensures Lookup(ApplyBlock(o, s, Some(b), now).state.accounts, b.validatorAddress).balance
         == Lookup(s.accounts, b.validatorAddress).balance - (s.supply - o.maxSupply)
  {
    hide ApplyBlock;
    BlockSupply(o, s, Some(b), now);
    BlockEndsUnderCap(o, s, Some(b), now);
    BlockAt(o, s, b, now, b.validatorAddress);
  }

  /**
   * For instance, two developer awards of 2u under a cap of 3u leave the supply u over, and a validator with nothing
   * owes u after proposing an empty block, which is accepted.
   */
  lemma DebtIsReachable(o: Options, u: real, v: Address, y: Address, w: Address, hash: Id)
    requires u > 0.0 && v.Id? && y.Id? && w.Id? && hash.Id? && v != y && w != v && w != y
    requires o.Valid() && o.developerNodeReward == 2.0 * u && o.maxSupply == 3.0 * u
    ensures var s := Run(o, [DeveloperOp(v), DeveloperOp(y)]);
            var b := Block(1, hash, Absent, 0, w, Some([]));
            && ApplyBlock(o, s, Some(b), 0).accepted
            && Lookup(ApplyBlock(o, s, Some(b), 0).state.accounts, w).balance == -u
  {
    TwoAwards(o, v, y);
    var s := Run(o, [DeveloperOp(v), DeveloperOp(y)]);
    var b := Block(1, hash, Absent, 0, w, Some([]));
    assert s.supply == 4.0 * u && w !in s.accounts;
    hide Run, AwardDeveloper, BlockReward;
    EmptyBlockTakesExcess(o, s, b, 0);
  }
}
