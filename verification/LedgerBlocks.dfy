/** Exactly when a block is accepted, and exactly when the order of its transactions does not matter. */
module LedgerBlocks {
  import opened Wrappers
  import opened Ledger
  import opened LedgerRuns
  import Sums

  predicate AllWellFormed(txs: seq<Tx>) {
    forall i :: 0 <= i < |txs| ==> txs[i].WellFormed()
  }

  predicate AllFunded(m: Accounts, txs: seq<Tx>)
    requires AllWellFormed(txs)
  {
    forall i :: 0 <= i < |txs| ==> Funded(m, txs[i])
  }

  predicate DistinctSenders(txs: seq<Tx>)
    requires AllWellFormed(txs)
  {
    forall i, j :: 0 <= i < j < |txs| ==> txs[i].Sender() != txs[j].Sender()
  }

  ghost function DeltaAt(a: Address): Tx -> real { t => Delta(t, a) }

  /** What a list of transactions adds to one address. */
  ghost function Received(txs: seq<Tx>, a: Address): real { Sums.Of(DeltaAt(a), txs) }

  // ---------------------------------------------------------- pre-validation

  /** Pre-validation looks at the pre-block accounts only, whatever it has already created. */
  lemma {:induction false} PreValidateIff(m: Accounts, txs: seq<Tx>)
    ensures PreValidate(m, txs).ok <==> forall i :: 0 <= i < |txs| ==> txs[i].Tx? && PreChecks(m, txs[i])
    decreases |txs|
  {
    if txs != [] && txs[0].Tx? {
      var m1 := Touch(m, txs[0].Sender());
      PreValidateIff(m1, txs[1..]);
      assert forall j :: 0 < j < |txs| ==> txs[j] == txs[1..][j - 1];
    }
  }

  /** A sender who can pay already has an account, so a clean block's pre-validation creates none. */
  lemma {:induction false} PreValidateClean(m: Accounts, txs: seq<Tx>)
    requires AllWellFormed(txs) && AllFunded(m, txs)
    ensures PreValidate(m, txs) == Outcome(m, true)
    decreases |txs|
  {
    if txs != [] {
      assert Touch(m, txs[0].Sender()) == m;
      PreValidateClean(m, txs[1..]);
    }
  }

  // -------------------------------------------------------------- application

  /** Nonces only grow, so a transaction whose nonce is already used sinks the whole list. */
  lemma {:induction false} UsedNonceFails(m: Accounts, txs: seq<Tx>, i: nat)
    requires i < |txs| && txs[i].WellFormed() && txs[i].nonce <= Lookup(m, txs[i].Sender()).nonce
    ensures !ApplyTxs(m, txs).ok
    decreases |txs|
  {
    if i > 0 && ApplyTx(m, txs[0]).ok {
      EffectAt(m, txs[0], txs[i].Sender());
      UsedNonceFails(Effect(m, txs[0]), txs[1..], i - 1);
    }
  }

  /** Every transaction is affordable at its own turn. */
  ghost predicate AffordableInTurn(m: Accounts, txs: seq<Tx>)
    requires AllWellFormed(txs)
  {
    forall i :: 0 <= i < |txs| ==>
      txs[i].Cost() <= Lookup(m, txs[i].Sender()).balance + Received(txs[..i], txs[i].Sender())
  }

  predicate NextNonces(m: Accounts, txs: seq<Tx>)
    requires AllWellFormed(txs)
  {
    forall i :: 0 <= i < |txs| ==> txs[i].nonce == Lookup(m, txs[i].Sender()).nonce + 1
  }

  lemma ReceivedShift(txs: seq<Tx>, i: nat, a: Address)
    requires 0 < i <= |txs|
    ensures Received(txs[..i], a) == Delta(txs[0], a) + Received(txs[1..][..i - 1], a)
  {
    assert txs[..i][1..] == txs[1..][..i - 1];
  }

  lemma AffordableShift(m: Accounts, txs: seq<Tx>)
    requires AllWellFormed(txs) && txs != []
    ensures AffordableInTurn(m, txs) <==>
            txs[0].Cost() <= Lookup(m, txs[0].Sender()).balance && AffordableInTurn(Effect(m, txs[0]), txs[1..])
  {
    var m1, rest := Effect(m, txs[0]), txs[1..];
    assert txs[..0] == [];
    forall i | 0 < i < |txs|
      ensures Lookup(m, txs[i].Sender()).balance + Received(txs[..i], txs[i].Sender())
           == Lookup(m1, rest[i - 1].Sender()).balance + Received(rest[..i - 1], rest[i - 1].Sender())
    {
      EffectAt(m, txs[0], txs[i].Sender());
      ReceivedShift(txs, i, txs[i].Sender());
    }
    if AffordableInTurn(m, txs) {
      forall j | 0 <= j < |rest|
        ensures rest[j].Cost() <= Lookup(m1, rest[j].Sender()).balance + Received(rest[..j], rest[j].Sender())
      {
        assert rest[j] == txs[j + 1];
      }
    }
    if txs[0].Cost() <= Lookup(m, txs[0].Sender()).balance && AffordableInTurn(m1, rest) {
      forall i | 0 <= i < |txs|
        ensures txs[i].Cost() <= Lookup(m, txs[i].Sender()).balance + Received(txs[..i], txs[i].Sender())
      {
        if i > 0 {
          assert txs[i] == rest[i - 1];
        }
      }
    }
  }

  /** No later transaction shares the first one's sender. */
  predicate FirstIsAlone(txs: seq<Tx>)
    requires txs != []
  {
    forall i :: 1 <= i < |txs| ==> txs[i].Sender() != txs[0].Sender()
  }

  lemma NextNoncesShift(m: Accounts, txs: seq<Tx>)
    requires AllWellFormed(txs) && NextNonces(m, txs) && txs != [] && FirstIsAlone(txs)
    ensures NextNonces(Effect(m, txs[0]), txs[1..])
  {
    forall j | 0 <= j < |txs[1..]|
      ensures txs[1..][j].nonce == Lookup(Effect(m, txs[0]), txs[1..][j].Sender()).nonce + 1
    {
      EffectAt(m, txs[0], txs[j + 1].Sender());
    }
  }

  lemma DistinctShift(txs: seq<Tx>)
    requires AllWellFormed(txs) && txs != []
    ensures DistinctSenders(txs) <==> FirstIsAlone(txs) && DistinctSenders(txs[1..])
  {
    assert forall i :: 1 <= i < |txs| ==> txs[i] == txs[1..][i - 1];
  }

  lemma SharedSenderFails(m: Accounts, txs: seq<Tx>)
    requires AllWellFormed(txs) && NextNonces(m, txs) && txs != [] && !FirstIsAlone(txs)
    ensures !ApplyTxs(m, txs).ok
  {
    if Funded(m, txs[0]) {
      var i :| 1 <= i < |txs| && txs[i].Sender() == txs[0].Sender();
      EffectAt(m, txs[0], txs[0].Sender());
      UsedNonceFails(Effect(m, txs[0]), txs[1..], i - 1);
    }
  }

  /** The second loop succeeds exactly when senders are distinct and each can pay at its turn. */
  lemma {:induction false} ApplyTxsIff(m: Accounts, txs: seq<Tx>)
    requires AllWellFormed(txs) && NextNonces(m, txs)
    ensures ApplyTxs(m, txs).ok <==> DistinctSenders(txs) && AffordableInTurn(m, txs)
    decreases |txs|
  {
    if txs != [] {
      AffordableShift(m, txs);
      DistinctShift(txs);
      if !FirstIsAlone(txs) {
        SharedSenderFails(m, txs);
      } else if Funded(m, txs[0]) {
        NextNoncesShift(m, txs);
        ApplyTxsIff(Effect(m, txs[0]), txs[1..]);
      }
    }
  }

  /** Only a sender can lose by a transaction. */
  lemma {:induction false} OthersGain(txs: seq<Tx>, a: Address)
    requires AllWellFormed(txs) && forall i :: 0 <= i < |txs| ==> txs[i].Sender() != a
    ensures Received(txs, a) >= 0.0
  {
    if txs != [] {
      OthersGain(txs[1..], a);
    }
  }

  // -------------------------------------------------------------- acceptance

  /** What pre-validation and the rules for a transaction demand of the pre-block state. */
  predicate Clean(m: Accounts, txs: seq<Tx>) {
    AllWellFormed(txs) && AllFunded(m, txs) && DistinctSenders(txs)
  }

  /** The accounts once the block reward has been paid to the block's validator. */
  function Rewarded(o: Options, s: State, b: Block): Accounts
    requires o.Valid()
  {
    Credit(s.accounts, b.validatorAddress, BlockReward(o, s.height, s.supply))
  }

  lemma ApplyTxsWellFormed(m: Accounts, txs: seq<Tx>)
    requires ApplyTxs(m, txs).ok
    ensures AllWellFormed(txs)
    decreases |txs|
  {
    if txs != [] {
      ApplyTxsWellFormed(Effect(m, txs[0]), txs[1..]);
      assert forall j :: 0 < j < |txs| ==> txs[j] == txs[1..][j - 1];
    }
  }

  lemma AcceptedByParts(o: Options, s: State, block: Option<Block>, now: int)
    requires o.Valid()
    ensures ApplyBlock(o, s, block, now).accepted <==>
            && HeaderOk(s, block, now)
            && Clean(s.accounts, block.value.transactions.value)
            && AffordableInTurn(Rewarded(o, s, block.value), block.value.transactions.value)
    ensures var r := ApplyBlock(o, s, block, now);
            r.accepted ==>
              r.state.accounts == ApplyTxs(Rewarded(o, s, block.value), block.value.transactions.value).accounts
  {
    if HeaderOk(s, block, now) {
      var txs := block.value.transactions.value;
      PreValidateIff(s.accounts, txs);
      var pre := PreValidate(s.accounts, txs);
      var m := Credit(pre.accounts, block.value.validatorAddress, BlockReward(o, s.height, s.supply));
      if pre.ok && ApplyTxs(m, txs).ok {
        ApplyTxsWellFormed(m, txs);
      }
      if AllWellFormed(txs) && AllFunded(s.accounts, txs) {
        PreValidateClean(s.accounts, txs);
        ApplyTxsIff(m, txs);
      }
    }
  }

  /** What the header of a block must say, on the block's own fields. */
  predicate WellLinked(block: Option<Block>, height: nat, lastHash: Id, now: int) {
    && block.Some?
    && block.value.hash != Absent && block.value.validatorAddress != Absent && block.value.transactions != None
    && block.value.height == height + 1
    && (lastHash != Absent ==> block.value.previousHash == lastHash)
    && block.value.timestamp <= now + 60000
  }

  /** Acceptance without any assumption on the supply. */
  lemma AcceptedIff(o: Options, s: State, block: Option<Block>, now: int)
    requires o.Valid()
    ensures ApplyBlock(o, s, block, now).accepted <==>
            && WellLinked(block, s.height, s.lastHash, now)
            && Clean(s.accounts, block.value.transactions.value)
            && AffordableInTurn(Rewarded(o, s, block.value), block.value.transactions.value)
    ensures var r := ApplyBlock(o, s, block, now);
            r.accepted ==>
              r.state.accounts == ApplyTxs(Rewarded(o, s, block.value), block.value.transactions.value).accounts
  {
    AcceptedByParts(o, s, block, now);
  }

  /** With distinct senders, paying at one's turn follows from paying out of the rewarded pre-block balance. */
  lemma AffordableFromStart(m: Accounts, txs: seq<Tx>)
    requires AllWellFormed(txs) && DistinctSenders(txs)
    requires forall i :: 0 <= i < |txs| ==> txs[i].Cost() <= Lookup(m, txs[i].Sender()).balance
    ensures AffordableInTurn(m, txs)
  {
    forall i | 0 <= i < |txs|
      ensures txs[i].Cost() <= Lookup(m, txs[i].Sender()).balance + Received(txs[..i], txs[i].Sender())
    {
      assert txs[i] in txs;
      OthersGain(txs[..i], txs[i].Sender());
    }
  }

  /** With the supply at or below the cap, the pre-block state alone decides. */
  lemma AcceptedIffUnderCap(o: Options, s: State, block: Option<Block>, now: int)
    requires o.Valid() && s.supply <= o.maxSupply
    ensures ApplyBlock(o, s, block, now).accepted <==>
            WellLinked(block, s.height, s.lastHash, now) && Clean(s.accounts, block.value.transactions.value)
  {
    AcceptedByParts(o, s, block, now);
    RewardSign(o, s.height, s.supply);
    if HeaderOk(s, block, now) && Clean(s.accounts, block.value.transactions.value) {
      AffordableFromStart(Rewarded(o, s, block.value), block.value.transactions.value);
    }
  }

  // ------------------------------------------------------- order independence

  ghost function Senders(txs: seq<Tx>): set<Address> {
    set t | t in txs && t.Tx? :: t.Sender()
  }

  ghost function AllTouched(txs: seq<Tx>): set<Address> {
    set t, a | t in txs && t.WellFormed() && a in Touched(t) :: a
  }

  /** Every address's final record in terms of sums and sets that do not depend on order. */
  lemma {:induction false} ApplyTxsClosedForm(m: Accounts, txs: seq<Tx>, a: Address)
    requires AllWellFormed(txs) && NextNonces(m, txs) && DistinctSenders(txs) && ApplyTxs(m, txs).ok
    ensures Lookup(ApplyTxs(m, txs).accounts, a).balance == Lookup(m, a).balance + Received(txs, a)
    ensures Lookup(ApplyTxs(m, txs).accounts, a).nonce
         == Lookup(m, a).nonce + if a in Senders(txs) then 1 else 0
    ensures Lookup(ApplyTxs(m, txs).accounts, a).stake == Lookup(m, a).stake
    ensures a in ApplyTxs(m, txs).accounts <==> a in m || a in AllTouched(txs)
    decreases |txs|
  {
    if txs != [] {
      var t, m1 := txs[0], Effect(m, txs[0]);
      EffectAt(m, t, a);
      EffectKeys(m, t);
      NextNoncesShift(m, txs);
      ApplyTxsClosedForm(m1, txs[1..], a);
      SetsCons(txs, a);
    }
  }

  lemma SetsCons(txs: seq<Tx>, a: Address)
    requires txs != [] && AllWellFormed(txs) && DistinctSenders(txs)
    ensures a in Senders(txs) <==> a == txs[0].Sender() || a in Senders(txs[1..])
    ensures !(a == txs[0].Sender() && a in Senders(txs[1..]))
    ensures a in AllTouched(txs) <==> a in Touched(txs[0]) || a in AllTouched(txs[1..])
  {
    assert forall t :: t in txs <==> t == txs[0] || t in txs[1..];
  }

  lemma WellFormedPermutes(m: Accounts, xs: seq<Tx>, ys: seq<Tx>)
    requires AllWellFormed(xs) && AllFunded(m, xs) && multiset(xs) == multiset(ys)
    ensures AllWellFormed(ys) && AllFunded(m, ys)
    ensures Senders(xs) == Senders(ys) && AllTouched(xs) == AllTouched(ys)
  {
    Sums.SameElements(xs, ys);
    forall i | 0 <= i < |ys| ensures ys[i].WellFormed() && Funded(m, ys[i]) {
      assert ys[i] in xs;
    }
  }

  /** Two transactions with one sender would also collide in the other order. */
  lemma DistinctPermutes(xs: seq<Tx>, ys: seq<Tx>)
    requires AllWellFormed(xs) && DistinctSenders(xs) && AllWellFormed(ys) && multiset(xs) == multiset(ys)
    ensures DistinctSenders(ys)
  {
    Sums.SameElements(xs, ys);
    forall i, j | 0 <= i < j < |ys| ensures ys[i].Sender() != ys[j].Sender() {
      if ys[i] == ys[j] {
        Twice(ys, i, j);
        OnceIfDistinct(xs, ys[i]);
      } else {
        assert ys[i] in xs && ys[j] in xs;
      }
    }
  }

  lemma CleanPermutes(m: Accounts, xs: seq<Tx>, ys: seq<Tx>)
    requires Clean(m, xs) && multiset(xs) == multiset(ys)
    ensures Clean(m, ys)
  {
    WellFormedPermutes(m, xs, ys);
    DistinctPermutes(xs, ys);
  }

  lemma Twice(ys: seq<Tx>, i: nat, j: nat)
    requires i < j < |ys| && ys[i] == ys[j]
    ensures multiset(ys)[ys[i]] >= 2
  {
    var rest := ys[..i] + ys[i + 1..];
    Sums.RemoveOne(ys, i);
    assert rest[j - 1] == ys[i];
    assert ys[i] in multiset(rest);
  }

  lemma {:induction false} OnceIfDistinct(xs: seq<Tx>, t: Tx)
    requires AllWellFormed(xs) && DistinctSenders(xs)
    ensures multiset(xs)[t] <= 1
  {
    if xs != [] {
      OnceIfDistinct(xs[1..], t);
      assert xs == [xs[0]] + xs[1..];
      if xs[0] == t {
        assert t !in xs[1..] by {
          assert forall k :: 0 <= k < |xs[1..]| ==> xs[1..][k] == xs[k + 1];
        }
        assert t !in multiset(xs[1..]);
      }
    }
  }

  /** If both orders are accepted, the resulting accounts are the same, entry for entry. */
  lemma SameAccounts(m: Accounts, xs: seq<Tx>, ys: seq<Tx>)
    requires AllWellFormed(xs) && NextNonces(m, xs) && DistinctSenders(xs) && ApplyTxs(m, xs).ok
    requires AllWellFormed(ys) && NextNonces(m, ys) && DistinctSenders(ys) && ApplyTxs(m, ys).ok
    requires multiset(xs) == multiset(ys) && Senders(xs) == Senders(ys) && AllTouched(xs) == AllTouched(ys)
    ensures ApplyTxs(m, xs).accounts == ApplyTxs(m, ys).accounts
  {
    var p, q := ApplyTxs(m, xs).accounts, ApplyTxs(m, ys).accounts;
    forall a ensures (a in p <==> a in q) && Lookup(p, a) == Lookup(q, a) {
      ApplyTxsClosedForm(m, xs, a);
      ApplyTxsClosedForm(m, ys, a);
      Sums.OfPermutes(DeltaAt(a), xs, ys);
    }
    assert forall a :: a in p ==> Lookup(p, a) == p[a] && Lookup(q, a) == q[a];
  }

  function Reordered(b: Block, txs: seq<Tx>): Block { b.(transactions := Some(txs)) }

  /** Reordering an accepted block's transactions, when accepted, gives the very same ledger. */
  lemma ReorderedState(o: Options, s: State, b: Block, now: int, ys: seq<Tx>)
    requires o.Valid() && ApplyBlock(o, s, Some(b), now).accepted
    requires multiset(b.transactions.value) == multiset(ys)
    requires ApplyBlock(o, s, Some(Reordered(b, ys)), now).accepted
    ensures ApplyBlock(o, s, Some(Reordered(b, ys)), now).state == ApplyBlock(o, s, Some(b), now).state
  {
    var xs := b.transactions.value;
    AcceptedByParts(o, s, Some(b), now);
    AcceptedByParts(o, s, Some(Reordered(b, ys)), now);
    WellFormedPermutes(s.accounts, xs, ys);
    ApplyTxsIff(Rewarded(o, s, b), xs);
    ApplyTxsIff(Rewarded(o, s, b), ys);
    SameAccounts(Rewarded(o, s, b), xs, ys);
  }

  /** The block's validator can pay for its own transactions without help from the others in the block. */
  predicate ValidatorCanPay(o: Options, s: State, b: Block)
    requires o.Valid() && b.transactions.Some? && AllWellFormed(b.transactions.value)
  {
    var txs := b.transactions.value;
    forall i :: 0 <= i < |txs| && txs[i].Sender() == b.validatorAddress ==>
      txs[i].Cost() <= Lookup(Rewarded(o, s, b), b.validatorAddress).balance
  }

  /** Under the cap the reward is not negative, so a clean block's validator can always pay. */
  lemma ValidatorPaysUnderCap(o: Options, s: State, b: Block)
    requires o.Valid() && s.supply <= o.maxSupply
    requires b.transactions.Some? && Clean(s.accounts, b.transactions.value)
    ensures ValidatorCanPay(o, s, b)
  {
    RewardSign(o, s.height, s.supply);
  }

  lemma ReorderedAccepted(o: Options, s: State, b: Block, now: int, ys: seq<Tx>)
    requires o.Valid() && ApplyBlock(o, s, Some(b), now).accepted
    requires multiset(b.transactions.value) == multiset(ys)
    requires AllWellFormed(b.transactions.value) && ValidatorCanPay(o, s, b)
    ensures ApplyBlock(o, s, Some(Reordered(b, ys)), now).accepted
  {
    AcceptedByParts(o, s, Some(b), now);
    AcceptedByParts(o, s, Some(Reordered(b, ys)), now);
    CleanPermutes(s.accounts, b.transactions.value, ys);
    Sums.SameElements(b.transactions.value, ys);
    forall i | 0 <= i < |ys| ensures ys[i].Cost() <= Lookup(Rewarded(o, s, b), ys[i].Sender()).balance {
      assert ys[i] in b.transactions.value;
    }
    AffordableFromStart(Rewarded(o, s, b), ys);
  }

  /** Otherwise the order that puts the validator's own transaction first is refused. */
  lemma WorstOrder(o: Options, s: State, b: Block, now: int) returns (ys: seq<Tx>)
    requires o.Valid() && b.transactions.Some?
    requires AllWellFormed(b.transactions.value) && !ValidatorCanPay(o, s, b)
    ensures multiset(ys) == multiset(b.transactions.value)
    ensures !ApplyBlock(o, s, Some(Reordered(b, ys)), now).accepted
  {
    var xs := b.transactions.value;
    var k :| 0 <= k < |xs| && xs[k].Sender() == b.validatorAddress
          && xs[k].Cost() > Lookup(Rewarded(o, s, b), b.validatorAddress).balance;
    ys := [xs[k]] + (xs[..k] + xs[k + 1..]);
    Sums.RemoveOne(xs, k);
    AcceptedByParts(o, s, Some(Reordered(b, ys)), now);
    assert ys[..0] == [];
  }

  /**
   An accepted block is accepted in every order of its transactions, with the same resulting ledger,
   exactly when its validator can pay for its own transactions out of the rewarded pre-block balance.
   */
  lemma OrderIndependentIff(o: Options, s: State, b: Block, now: int)
    requires o.Valid() && ApplyBlock(o, s, Some(b), now).accepted
    ensures AllWellFormed(b.transactions.value)
    ensures (forall ys :: multiset(ys) == multiset(b.transactions.value) ==>
                ApplyBlock(o, s, Some(Reordered(b, ys)), now) == ApplyBlock(o, s, Some(b), now))
       <==> ValidatorCanPay(o, s, b)
  {
    AcceptedByParts(o, s, Some(b), now);
    if ValidatorCanPay(o, s, b) {
      forall ys | multiset(ys) == multiset(b.transactions.value)
        ensures ApplyBlock(o, s, Some(Reordered(b, ys)), now) == ApplyBlock(o, s, Some(b), now)
      {
        ReorderedAccepted(o, s, b, now, ys);
        ReorderedState(o, s, b, now, ys);
      }
    } else {
      var ys := WorstOrder(o, s, b, now);
    }
  }

  /** Under the cap every order of an accepted block is accepted and leads to the same ledger. */
  lemma OrderIndependentUnderCap(o: Options, s: State, b: Block, now: int, ys: seq<Tx>)
    requires o.Valid() && s.supply <= o.maxSupply && ApplyBlock(o, s, Some(b), now).accepted
    requires multiset(ys) == multiset(b.transactions.value)
    ensures ApplyBlock(o, s, Some(Reordered(b, ys)), now) == ApplyBlock(o, s, Some(b), now)
  {
    AcceptedIffUnderCap(o, s, Some(b), now);
    ValidatorPaysUnderCap(o, s, b);
    OrderIndependentIff(o, s, b, now);
  }

  lemma TwoAwards(o: Options, v: Address, y: Address)
    requires o.Valid()
    ensures Run(o, [DeveloperOp(v), DeveloperOp(y)]) == AwardDeveloper(o, AwardDeveloper(o, INITIAL, v), y)
  {
    var ops := [DeveloperOp(v), DeveloperOp(y)];
    var first := ops[..1];
    assert first == [DeveloperOp(v)];
    assert first[..0] == [];
    assert Run(o, first) == AwardDeveloper(o, INITIAL, v);
  }

  lemma PayThenSpend(m: Accounts, pay: Tx, spend: Tx)
    requires pay.WellFormed() && spend.WellFormed()
    requires pay.Cost() <= Lookup(m, pay.Sender()).balance
    requires spend.Cost() <= Lookup(m, spend.Sender()).balance + Delta(pay, spend.Sender())
    ensures AllWellFormed([pay, spend]) && AffordableInTurn(m, [pay, spend])
  {
    var txs := [pay, spend];
    assert AllWellFormed(txs);
    assert txs[..0] == [] && txs[..1] == [pay] && txs[..1][1..] == [];
    assert Received(txs[..1], spend.Sender()) == Delta(pay, spend.Sender()) + Received([], spend.Sender());
  }

  /**
   Over the cap the guard is needed. Two developer awards of 2u under a cap of 3u leave the supply u over, so the
   next reward is -u, and a validator holding 2u can spend 2u only after receiving u in the same block.
   */
  lemma OverCapOrderMatters(o: Options, u: real, v: Address, y: Address, x: Address, hash: Id)
    requires u > 0.0 && v.Id? && y.Id? && x.Id? && hash.Id? && v != y && v != x
    requires o.Valid() && o.developerNodeReward == 2.0 * u && o.maxSupply == 3.0 * u
    ensures var s := Run(o, [DeveloperOp(v), DeveloperOp(y)]);
            var pay := Tx(y, Absent, v, Absent, Some(u), Some(0.0), 1, Absent);
            var spend := Tx(v, Absent, x, Absent, Some(2.0 * u), Some(0.0), 1, Absent);
            var b := Block(1, hash, Absent, 0, v, Some([pay, spend]));
            && ApplyBlock(o, s, Some(b), 0).accepted
            && AllWellFormed(b.transactions.value) && !ValidatorCanPay(o, s, b)
  {
    TwoAwards(o, v, y);
    var s := Run(o, [DeveloperOp(v), DeveloperOp(y)]);
    var pay := Tx(y, Absent, v, Absent, Some(u), Some(0.0), 1, Absent);
    var spend := Tx(v, Absent, x, Absent, Some(2.0 * u), Some(0.0), 1, Absent);
    var b := Block(1, hash, Absent, 0, v, Some([pay, spend]));
    var m := Rewarded(o, s, b);
    RewardSign(o, 0, s.supply);
    assert s.supply == 4.0 * u;
    assert BlockReward(o, 0, s.supply) == -u;
    assert Clean(s.accounts, [pay, spend]);
    assert Lookup(m, v).balance == u;
    PayThenSpend(m, pay, spend);
    AcceptedByParts(o, s, Some(b), 0);
    assert b.transactions.value[1] == spend;
  }
}
