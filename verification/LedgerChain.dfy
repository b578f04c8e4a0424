/** What every ledger run leaves behind: a hash chain of accepted blocks, and what each of them does. */
module LedgerChain {
  import opened Wrappers
  import opened Ledger
  import opened LedgerRuns
  import opened LedgerBlocks
  import Issuance
  import LedgerSolvency

  // -------------------------------------------------------------- hash chain

  /** An accepted block and the clock reading of the call that accepted it. */
  datatype Link = Link(block: Block, now: int)

  /** All blocks accepted over a run, in order. */
  function Links(o: Options, ops: seq<Op>): seq<Link>
    requires o.Valid()
  {
    if ops == [] then []
    else
      var before, op := ops[..|ops| - 1], ops[|ops| - 1];
      Links(o, before)
      + if op.BlockOp? && ApplyBlock(o, Run(o, before), op.block, op.now).accepted
        then [Link(op.block.value, op.now)] else []
  }

  /** Heights from 1 on, each block naming the hash of the one before it, none from more than a minute ahead. */
  predicate IsChain(links: seq<Link>) {
    && (forall i :: 0 <= i < |links| ==>
          && links[i].block.hash != Absent && links[i].block.validatorAddress != Absent
          && links[i].block.height == i + 1
          && links[i].block.timestamp <= links[i].now + 60000)
    && (forall i :: 0 < i < |links| ==> links[i].block.previousHash == links[i - 1].block.hash)
  }

  /** The ledger points at the end of the chain. */
  predicate PointsAt(height: nat, lastHash: Id, links: seq<Link>) {
    && height == |links|
    && lastHash == if links == [] then Absent else links[|links| - 1].block.hash
  }

  lemma OtherKeepsTip(o: Options, s: State, op: Op)
    requires o.Valid() && !op.BlockOp?
    ensures Step(o, s, op).height == s.height && Step(o, s, op).lastHash == s.lastHash
  {}

  lemma BlockMovesTip(o: Options, s: State, b: Option<Block>, now: int)
    requires o.Valid()
    ensures var r := ApplyBlock(o, s, b, now);
            if r.accepted
            then WellLinked(b, s.height, s.lastHash, now)
                 && r.state.height == s.height + 1 && r.state.lastHash == b.value.hash
            else r.state == s
  {
    AcceptedIff(o, s, b, now);
  }

  /** Over any run the accepted blocks are a hash chain, and the ledger's height and last hash are its end. */
  lemma {:induction false} AcceptedBlocksAreChain(o: Options, ops: seq<Op>)
    requires o.Valid()
    ensures IsChain(Links(o, ops)) && PointsAt(Run(o, ops).height, Run(o, ops).lastHash, Links(o, ops))
  {
    if ops != [] {
      hide ApplyBlock;
      var before, op := ops[..|ops| - 1], ops[|ops| - 1];
      AcceptedBlocksAreChain(o, before);
      if op.BlockOp? {
        BlockMovesTip(o, Run(o, before), op.block, op.now);
      } else {
        OtherKeepsTip(o, Run(o, before), op);
      }
    }
  }

  /** For instance, a block that names another parent is refused, whatever else it says. */
  lemma StrangerIsRefused(o: Options, s: State, b: Block, now: int)
    requires o.Valid() && s.lastHash != Absent && b.previousHash != s.lastHash
    ensures !ApplyBlock(o, s, Some(b), now).accepted && ApplyBlock(o, s, Some(b), now).state == s
  {
    AcceptedIff(o, s, Some(b), now);
    BlockMovesTip(o, s, Some(b), now);
  }

  /** An empty well-linked block is accepted in every state, so the chain can always grow. */
  lemma ChainCanGrow(o: Options, s: State, hash: Id, validator: Address, now: int)
    requires o.Valid() && hash != Absent && validator != Absent
    ensures ApplyBlock(o, s, Some(Block(s.height + 1, hash, s.lastHash, now, validator, Some([]))), now).accepted
  {
    AcceptedIff(o, s, Some(Block(s.height + 1, hash, s.lastHash, now, validator, Some([]))), now);
  }

  // ------------------------------------------------- what a block does, by address

  /** Balance, nonce and stake of every address after an accepted block, from the transactions' own fields. */
  lemma BlockOutcome(o: Options, s: State, b: Block, now: int, a: Address)
    requires o.Valid() && ApplyBlock(o, s, Some(b), now).accepted
    ensures b.transactions.Some?
    ensures var after, txs := ApplyBlock(o, s, Some(b), now).state, b.transactions.value;
            var reward := after.supply - s.supply;
            && Lookup(after.accounts, a).balance
               == Lookup(s.accounts, a).balance + (if a == b.validatorAddress then reward else 0.0) + Received(txs, a)
            && Lookup(after.accounts, a).nonce == Lookup(s.accounts, a).nonce + (if a in Senders(txs) then 1 else 0)
            && Lookup(after.accounts, a).stake == Lookup(s.accounts, a).stake
            && after.validators == s.validators && after.developerSet == s.developerSet
  {
    BlockKeepsRegistry(o, s, b, now);
    hide ApplyBlock, ApplyTxs, Received, Delta, Senders, BlockReward;
    AcceptedByParts(o, s, Some(b), now);
    LedgerSolvency.AcceptedApplies(o, s, b, now);
    ApplyTxsClosedForm(Rewarded(o, s, b), b.transactions.value, a);
    BlockSupply(o, s, Some(b), now);
  }

  lemma BlockKeepsRegistry(o: Options, s: State, b: Block, now: int)
    requires o.Valid()
    ensures ApplyBlock(o, s, Some(b), now).state.validators == s.validators
    ensures ApplyBlock(o, s, Some(b), now).state.developerSet == s.developerSet
  {}

  /** Near the cap, a block is paid what is left or the minimum, whichever is less. */
  lemma RewardNearCap(o: Options, s: State, b: Option<Block>, now: int)
    requires o.Valid() && ApplyBlock(o, s, b, now).accepted
    ensures var scheduled := Issuance.Scheduled(o.blockReward, o.halvingInterval, s.height);
            var minted := ApplyBlock(o, s, b, now).state.supply - s.supply;
            if s.supply + scheduled <= o.maxSupply then minted == scheduled
            else minted <= o.maxSupply - s.supply && minted <= 0.00000001
                 && (minted == o.maxSupply - s.supply || minted == 0.00000001)
  {
    BlockSupply(o, s, b, now);
  }

  // ------------------------------------------------------------ transactions

  /** A transaction is accepted exactly on these conditions on its own fields and its sender's account. */
  lemma TxAcceptedIff(m: Accounts, t: Tx)
    requires t.Tx?
    ensures var sender := if t.from != Absent then t.from else t.sender;
            var balance := if sender in m then m[sender].balance else 0.0;
            var nonce := if sender in m then m[sender].nonce else 0;
            ApplyTx(m, t).ok <==>
              && sender != Absent && (t.to != Absent || t.recipient != Absent)
              && t.amount != None && t.amount.value > 0.0 && t.fee != None && t.fee.value >= 0.0
              && balance >= t.amount.value + t.fee.value && t.nonce == nonce + 1
  {}

  /** What an accepted transaction takes from its sender, its recipient and the fee's receiver get, all different. */
  lemma TxMoves(m: Accounts, t: Tx, sender: Address, recipient: Address)
    requires t.Tx? && ApplyTx(m, t).ok
    requires sender == (if t.from != Absent then t.from else t.sender)
    requires recipient == (if t.to != Absent then t.to else t.recipient)
    requires sender != recipient && t.feeTo != sender && t.feeTo != recipient
    ensures t.amount.Some? && t.fee.Some?
    ensures var after := ApplyTx(m, t).accounts;
            && Lookup(after, sender).balance == Lookup(m, sender).balance - t.amount.value - t.fee.value
            && Lookup(after, sender).nonce == Lookup(m, sender).nonce + 1
            && Lookup(after, recipient).balance == Lookup(m, recipient).balance + t.amount.value
            && (t.feeTo != Absent ==> Lookup(after, t.feeTo).balance == Lookup(m, t.feeTo).balance + t.fee.value)
  {
    EffectAt(m, t, sender);
    EffectAt(m, t, recipient);
    EffectAt(m, t, t.feeTo);
  }
}
