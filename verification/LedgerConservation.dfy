/** Conservation of value in the ledger over every run of its operations. */
module LedgerConservation {
  import opened Wrappers
  import opened Validators
  import opened Ledger
  import Sums

  // ------------------------------------------------------------ conservation

  /** What each account holds, in balance and stake. */
  ghost function Holdings(m: Accounts): map<Address, real> {
    map a | a in m :: m[a].balance + m[a].stake
  }

  /** The sum of all balances and stakes. */
  ghost function Total(m: Accounts): real { Sums.OverMap(Holdings(m)) }

  lemma TotalUpdate(m: Accounts, a: Address, x: AccountData)
    ensures Total(m[a := x]) == Total(m) - (Lookup(m, a).balance + Lookup(m, a).stake) + (x.balance + x.stake)
  {
    assert Holdings(m[a := x]) == Holdings(m)[a := x.balance + x.stake];
    Sums.Update(Holdings(m), a, x.balance + x.stake);
  }

  lemma TotalTouch(m: Accounts, a: Address)
    ensures Total(Touch(m, a)) == Total(m)
  {
    TotalUpdate(m, a, Lookup(m, a));
  }

  lemma TotalCredit(m: Accounts, a: Address, x: real)
    ensures Total(Credit(m, a, x)) == Total(m) + x
  {
    TotalUpdate(m, a, Lookup(m, a).(balance := Lookup(m, a).balance + x));
  }

  /** A transaction moves value but for a fee nobody receives; sender, recipient and fee receiver may coincide. */
  lemma TotalEffect(m: Accounts, t: Tx)
    requires t.WellFormed()
    ensures Total(Effect(m, t)) == Total(m) - t.Burned()
  {
    var m0 := Touch(m, t.Recipient());
    var m1 := Credit(m0, t.Sender(), -t.Cost());
    var m2 := Credit(m1, t.Recipient(), t.amount.value);
    var m3 := m2[t.Sender() := m2[t.Sender()].(nonce := t.nonce)];
    TotalTouch(m, t.Recipient());
    TotalCredit(m0, t.Sender(), -t.Cost());
    TotalCredit(m1, t.Recipient(), t.amount.value);
    TotalUpdate(m2, t.Sender(), m2[t.Sender()].(nonce := t.nonce));
    if t.PaysFee() {
      TotalCredit(m3, t.feeTo, t.fee.value);
    }
  }

  function BurnedBy(txs: seq<Tx>): real {
    if txs == [] then 0.0 else BurnedBy(txs[..|txs| - 1]) + txs[|txs| - 1].Burned()
  }

  lemma {:induction false} BurnedConcat(xs: seq<Tx>, ys: seq<Tx>)
    ensures BurnedBy(xs + ys) == BurnedBy(xs) + BurnedBy(ys)
  {
    if ys == [] {
      assert xs + ys == xs;
    } else {
      assert (xs + ys)[..|xs + ys| - 1] == xs + ys[..|ys| - 1];
      BurnedConcat(xs, ys[..|ys| - 1]);
    }
  }

  lemma {:induction false} TotalApplyTxs(m: Accounts, txs: seq<Tx>)
    requires ApplyTxs(m, txs).ok
    ensures Total(ApplyTxs(m, txs).accounts) == Total(m) - BurnedBy(txs)
    decreases |txs|
  {
    if txs != [] {
      TotalEffect(m, txs[0]);
      TotalApplyTxs(Effect(m, txs[0]), txs[1..]);
      BurnedConcat([txs[0]], txs[1..]);
      assert [txs[0]] + txs[1..] == txs;
      assert BurnedBy([txs[0]]) == BurnedBy([]) + txs[0].Burned();
    }
  }

  lemma {:induction false} TotalPreValidate(m: Accounts, txs: seq<Tx>)
    ensures Total(PreValidate(m, txs).accounts) == Total(m)
    decreases |txs|
  {
    if txs != [] && txs[0].Tx? {
      TotalTouch(m, txs[0].Sender());
      TotalPreValidate(Touch(m, txs[0].Sender()), txs[1..]);
    }
  }

  lemma TotalBlock(o: Options, s: State, b: Option<Block>, now: int)
    requires o.Valid() && ApplyBlock(o, s, b, now).accepted
    ensures var r := ApplyBlock(o, s, b, now).state;
            Total(r.accounts) - r.supply == Total(s.accounts) - s.supply - BurnedBy(b.value.transactions.value)
  {
    var txs := b.value.transactions.value;
    var pre := PreValidate(s.accounts, txs);
    var reward := BlockReward(o, s.height, s.supply);
    TotalPreValidate(s.accounts, txs);
    TotalCredit(pre.accounts, b.value.validatorAddress, reward);
    TotalApplyTxs(Credit(pre.accounts, b.value.validatorAddress, reward), txs);
  }

  lemma TotalTx(s: State, t: Tx)
    ensures var r := ApplyTx(s.accounts, t);
            Total(r.accounts) == Total(s.accounts) - (if r.ok then t.Burned() else 0.0)
  {
    if ApplyTx(s.accounts, t).ok {
      TotalEffect(s.accounts, t);
    } else if t.WellFormed() {
      TotalTouch(s.accounts, t.Sender());
      TotalTouch(Touch(s.accounts, t.Sender()), t.Recipient());
    }
  }

  lemma TotalStake(o: Options, s: State, a: Address, x: real)
    ensures Total(UpdateStake(o, s, a, x).state.accounts) == Total(s.accounts)
  {
    var acc := Lookup(s.accounts, a);
    TotalTouch(s.accounts, a);
    TotalUpdate(s.accounts, a, acc.(stake := acc.stake + x, balance := acc.balance - x));
  }

  lemma TotalAwards(o: Options, s: State, a: Address)
    ensures Total(AwardDeveloper(o, s, a).accounts) - AwardDeveloper(o, s, a).supply == Total(s.accounts) - s.supply
    ensures Total(AwardEarly(o, s, a).accounts) - AwardEarly(o, s, a).supply == Total(s.accounts) - s.supply
  {
    TotalCredit(s.accounts, a, o.developerNodeReward);
    TotalCredit(s.accounts, a, o.earlyValidatorReward);
  }

  lemma TotalRegister(o: Options, s: State, a: Address, v: ValidatorData, now: int)
    ensures var r := Register(o, s, a, v, now).state;
            Total(r.accounts) - r.supply == Total(s.accounts) - s.supply
  {
    TotalTouch(s.accounts, a);
    TotalAwards(o, s.(accounts := Touch(s.accounts, a)), a);
  }

  lemma TotalStep(o: Options, s: State, op: Op)
    requires o.Valid()
    ensures var r := Step(o, s, op);
            Total(r.accounts) - r.supply == Total(s.accounts) - s.supply - BurnedBy(Accepted(o, s, op))
  {
    match op
    case BlockOp(b, now) =>
      if ApplyBlock(o, s, b, now).accepted {
        TotalBlock(o, s, b, now);
      }
    case TxOp(t) =>
      TotalTx(s, t);
      assert BurnedBy([t]) == BurnedBy([]) + t.Burned();
    case StakeOp(a, x) => TotalStake(o, s, a, x);
    case RegisterOp(a, v, now) => TotalRegister(o, s, a, v, now);
    case DeveloperOp(a) => TotalAwards(o, s, a);
    case EarlyOp(a) => TotalAwards(o, s, a);
  }

  /** In every reachable state, balances plus stakes plus burned fees are exactly the total supply. */
  lemma {:induction false} Conservation(o: Options, ops: seq<Op>)
    requires o.Valid()
    ensures Total(Run(o, ops).accounts) + BurnedBy(History(o, ops)) == Run(o, ops).supply
  {
    if ops != [] {
      var before := ops[..|ops| - 1];
      Conservation(o, before);
      TotalStep(o, Run(o, before), ops[|ops| - 1]);
      BurnedConcat(History(o, before), Accepted(o, Run(o, before), ops[|ops| - 1]));
    }
  }
}
