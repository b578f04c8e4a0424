/** The TransactionPool of src/mempool/transaction_pool.js: admission, size accounting and block selection. */
module Mempool {
  import opened Wrappers
  import Sums

  /** A submitted transaction; the two checks are what its own verify and calculateHash methods answer. */
  datatype Tx = Tx(hash: Id, from: Id, sender: Id, to: Id, recipient: Id, fee: Option<real>, nonce: int,
                   signatureOk: bool, hashOk: bool)
  {
    function Payer(): Id { if from.Id? then from else sender }

    function Payee(): Id { if to.Id? then to else recipient }

    function Fee(): real { if fee.Some? then fee.value else 0.0 }
  }

  /** estimateTransactionSize: the same for every transaction. */
  const TX_SIZE: int := 386

  function FeePerByte(t: Tx): real { t.Fee() / TX_SIZE as real }

  /** Every rate is a number, so that the comparison function of the sort orders the pool. */
  predicate Priced(txs: seq<Tx>) {
    forall i :: 0 <= i < |txs| ==> txs[i].fee.Some?
  }

  ghost function FeeOf(): Tx -> real { (t: Tx) => t.Fee() }

  ghost function TotalFee(txs: seq<Tx>): real { Sums.Of(FeeOf(), txs) }

  // ----------------------------------------------------------------- sorting

  predicate Descending(s: seq<Tx>) {
    forall i, j :: 0 <= i < j < |s| ==> s[i].Fee() >= s[j].Fee()
  }

  /** Ahead of entries it does not rank below, so that equal rates keep their order. */
  function Insert(t: Tx, s: seq<Tx>): (r: seq<Tx>)
    ensures multiset(r) == multiset(s) + multiset{t}
  {
    if s == [] then [t]
    else if FeePerByte(s[0]) <= FeePerByte(t) then [t] + s
    else
      assert s == [s[0]] + s[1..];
      [s[0]] + Insert(t, s[1..])
  }

  /** The stable descending sort of the pool by fee per byte. */
  function SortedByRate(txs: seq<Tx>): (r: seq<Tx>)
    ensures multiset(r) == multiset(txs)
  {
    if txs == [] then []
    else
      assert txs == [txs[0]] + txs[1..];
      Insert(txs[0], SortedByRate(txs[1..]))
  }

  lemma {:induction false} InsertDescends(t: Tx, s: seq<Tx>)
    requires Descending(s)
    ensures Descending(Insert(t, s))
  {
    if s != [] && FeePerByte(s[0]) > FeePerByte(t) {
      var rest := Insert(t, s[1..]);
      InsertDescends(t, s[1..]);
      forall j | 0 <= j < |rest| ensures s[0].Fee() >= rest[j].Fee() {
        assert rest[j] in multiset(rest);
        assert rest[j] == t || rest[j] in s[1..];
      }
    }
  }

  lemma {:induction false} SortDescends(txs: seq<Tx>)
    ensures Descending(SortedByRate(txs))
  {
    if txs != [] {
      SortDescends(txs[1..]);
      InsertDescends(txs[0], SortedByRate(txs[1..]));
    }
  }

  // -------------------------------------------------------------- optimality

  /** A duplicate-free choice from the pool, since the pool itself has no duplicates. */
  predicate Feasible(pool: seq<Tx>, chosen: seq<Tx>, maxBytes: int, maxTransactions: int) {
    && multiset(chosen) <= multiset(pool)
    && |chosen| <= maxTransactions
    && TX_SIZE * |chosen| <= maxBytes
  }

  lemma TotalFeeCons(t: Tx, s: seq<Tx>)
    ensures TotalFee([t] + s) == t.Fee() + TotalFee(s)
  {
    assert ([t] + s)[1..] == s;
  }

  lemma {:induction false} TotalFeeNonNegative(s: seq<Tx>)
    requires forall i :: 0 <= i < |s| ==> s[i].Fee() >= 0.0
    ensures TotalFee(s) >= 0.0
  {
    if s != [] {
      TotalFeeNonNegative(s[1..]);
    }
  }

  lemma {:induction false} LongerPrefixPaysMore(s: seq<Tx>, i: nat, j: nat)
    requires i <= j <= |s| && forall k :: 0 <= k < |s| ==> s[k].Fee() >= 0.0
    ensures TotalFee(s[..i]) <= TotalFee(s[..j])
  {
    assert s[..j] == s[..i] + s[i..j];
    Sums.OfConcat(FeeOf(), s[..i], s[i..j]);
    TotalFeeNonNegative(s[i..j]);
  }

  lemma SmallerChoice(chosen: seq<Tx>, k: nat, s: seq<Tx>)
    requires k < |chosen| && s != [] && multiset(chosen) <= multiset(s)
    requires chosen[k] == s[0] || s[0] !in chosen
    ensures multiset(chosen[..k] + chosen[k + 1..]) <= multiset(s[1..])
  {
    Sums.RemoveOne(chosen, k);
    assert s == [s[0]] + s[1..];
    assert multiset(s[1..]) == multiset(s) - multiset{s[0]};
    if chosen[k] != s[0] {
      assert s[0] !in multiset(chosen);
    }
  }

  lemma NonEmptySource(s: seq<Tx>, chosen: seq<Tx>)
    requires chosen != [] && multiset(chosen) <= multiset(s)
    ensures s != []
  {
    assert chosen[0] in multiset(chosen);
  }

  /** No choice of m entries of a descending list pays more than its first m. */
  lemma {:induction false} TopIsBest(s: seq<Tx>, chosen: seq<Tx>)
    requires Descending(s) && multiset(chosen) <= multiset(s)
    ensures |chosen| <= |s|
    ensures TotalFee(chosen) <= TotalFee(s[..|chosen|])
    decreases |s|
  {
    if chosen == [] {
      assert s[..0] == [];
    } else {
      NonEmptySource(s, chosen);
      var k := if s[0] in chosen then FirstIndex(chosen, s[0]) else 0;
      var others := chosen[..k] + chosen[k + 1..];
      SmallerChoice(chosen, k, s);
      TopIsBest(s[1..], others);
      Sums.OfRemove(FeeOf(), chosen, k);
      assert chosen[k].Fee() <= s[0].Fee() by {
        assert chosen[k] in multiset(chosen);
        assert chosen[k] in s;
      }
      TotalFeeCons(s[0], s[1..][..|others|]);
      assert s[..|chosen|] == [s[0]] + s[1..][..|others|];
    }
  }

  function FirstIndex(s: seq<Tx>, t: Tx): (k: nat)
    requires t in s
    ensures k < |s| && s[k] == t
  {
    if s[0] == t then 0 else 1 + FirstIndex(s[1..], t)
  }

  /** How many transactions fit, all being the same size. */
  function Capacity(n: nat, maxBytes: int, maxTransactions: int): nat {
    var byBytes := if maxBytes < 0 then 0 else maxBytes / TX_SIZE;
    var byCount := if maxTransactions < 0 then 0 else maxTransactions;
    if n <= byBytes && n <= byCount then n else if byBytes <= byCount then byBytes else byCount
  }

  lemma SortedPool(pool: seq<Tx>)
    requires forall i :: 0 <= i < |pool| ==> pool[i].Fee() >= 0.0
    ensures |SortedByRate(pool)| == |pool| && Descending(SortedByRate(pool))
    ensures forall k :: 0 <= k < |pool| ==> SortedByRate(pool)[k].Fee() >= 0.0
  {
    var s := SortedByRate(pool);
    SameSize(s, pool);
    SortDescends(pool);
    forall k | 0 <= k < |s| ensures s[k].Fee() >= 0.0 {
      assert s[k] in multiset(s);
      assert s[k] in pool;
    }
  }

  lemma CapacityFits(n: nat, maxBytes: int, maxTransactions: int)
    requires maxBytes >= 0 && maxTransactions >= 0
    ensures Capacity(n, maxBytes, maxTransactions) <= maxTransactions
    ensures TX_SIZE * Capacity(n, maxBytes, maxTransactions) <= maxBytes
  {}

  lemma PrefixIsChoice(s: seq<Tx>, n: nat)
    requires n <= |s|
    ensures multiset(s[..n]) <= multiset(s)
  {
    assert s == s[..n] + s[n..];
  }

  /** The greedy block is itself feasible, and no feasible choice from the pool pays more in fees. */
  lemma GreedyIsOptimal(pool: seq<Tx>, maxBytes: int, maxTransactions: int)
    requires Priced(pool) && forall i :: 0 <= i < |pool| ==> pool[i].fee.value >= 0.0
    ensures Capacity(|pool|, maxBytes, maxTransactions) <= |SortedByRate(pool)| == |pool|
    ensures var block := SortedByRate(pool)[..Capacity(|pool|, maxBytes, maxTransactions)];
            && (maxBytes >= 0 && maxTransactions >= 0 ==> Feasible(pool, block, maxBytes, maxTransactions))
            && forall chosen :: Feasible(pool, chosen, maxBytes, maxTransactions) ==> TotalFee(chosen) <= TotalFee(block)
  {
    var s, n := SortedByRate(pool), Capacity(|pool|, maxBytes, maxTransactions);
    SortedPool(pool);
    if maxBytes >= 0 && maxTransactions >= 0 {
      CapacityFits(|pool|, maxBytes, maxTransactions);
      PrefixIsChoice(s, n);
    }
    forall chosen | Feasible(pool, chosen, maxBytes, maxTransactions) ensures TotalFee(chosen) <= TotalFee(s[..n]) {
      TopIsBest(s, chosen);
      LongerPrefixPaysMore(s, |chosen|, n);
    }
  }

  lemma SameSize(s: seq<Tx>, t: seq<Tx>)
    requires multiset(s) == multiset(t)
    ensures |s| == |t|
  {
    assert |multiset(s)| == |s| && |multiset(t)| == |t|;
  }

  // --------------------------------------------------------------------- pool

  datatype AddResult = Added | AlreadyExists | InvalidTx(reason: Reason) | NonceTooOld

  datatype Reason = MissingHash | MissingSender | MissingRecipient | BadSignature | BadHash | LowFee | LowNonce

  class TransactionPool {
    const minFee: real
    /** The transactions Map, as the sequence of its values in insertion order. */
    var transactions: seq<Tx>
    var accountNonces: map<Id, int>
    var sizeBytes: int

    ghost predicate Valid()
      reads this
    {
      && minFee >= 0.0
      && (forall i, j :: 0 <= i < j < |transactions| ==> transactions[i].hash != transactions[j].hash)
      && (forall i :: 0 <= i < |transactions| ==> transactions[i].fee.Some? ==> transactions[i].fee.value >= minFee)
      && sizeBytes == TX_SIZE * |transactions|
    }

    constructor (minFee: real)
      requires minFee >= 0.0
      ensures Valid() && transactions == [] && accountNonces == map[]
    {
      this.minFee := minFee;
      transactions, accountNonces, sizeBytes := [], map[], 0;
    }

    function NonceOf(a: Id): int
      reads this
    {
      if a in accountNonces then accountNonces[a] else 0
    }

    /**
     validateTransaction. A missing fee is never below the minimum, and the nonce check looks the account up under the
     sender field alone.
     */
    function ValidateTransaction(t: Tx): (r: Option<Reason>)
      reads this
    {
      if !t.hash.Id? then Some(MissingHash)
      else if !t.Payer().Id? then Some(MissingSender)
      else if !t.Payee().Id? then Some(MissingRecipient)
      else if !t.signatureOk then Some(BadSignature)
      else if !t.hashOk then Some(BadHash)
      else if t.fee.Some? && t.fee.value < minFee then Some(LowFee)
      else if t.nonce <= NonceOf(t.sender) then Some(LowNonce)
      else None
    }

    /** addTransaction: no duplicates, fees at least the minimum, exact size accounting. */
    method AddTransaction(t: Tx) returns (result: AddResult)
      requires Valid()
      modifies this
      ensures Valid()
      ensures result.Added? <==>
              && (forall i :: 0 <= i < |old(transactions)| ==> old(transactions)[i].hash != t.hash)
              && t.hash != Absent && (t.from != Absent || t.sender != Absent) && (t.to != Absent || t.recipient != Absent)
              && t.signatureOk && t.hashOk && (t.fee == None || t.fee.value >= minFee)
              && t.nonce > (if t.sender in old(accountNonces) then old(accountNonces)[t.sender] else 0)
              && t.nonce >= var payer := if t.from != Absent then t.from else t.sender;
                            if payer in old(accountNonces) then old(accountNonces)[payer] else 0
      ensures result.AlreadyExists? <==> exists i :: 0 <= i < |old(transactions)| && old(transactions)[i].hash == t.hash
      ensures result.InvalidTx? ==> old(ValidateTransaction(t)) == Some(result.reason)
      ensures result.NonceTooOld? ==> old(ValidateTransaction(t)).None?
      ensures transactions == old(transactions) + if result.Added? then [t] else []
      ensures accountNonces == if result.Added? && t.nonce > old(NonceOf(t.Payer()))
                               then old(accountNonces)[t.Payer() := t.nonce] else old(accountNonces)
    {
      for i := 0 to |transactions|
        invariant forall j :: 0 <= j < i ==> transactions[j].hash != t.hash
      {
        if transactions[i].hash == t.hash {
          return AlreadyExists;
        }
      }
      var reason := ValidateTransaction(t);
      if reason.Some? {
        return InvalidTx(reason.value);
      }
      if t.nonce < NonceOf(t.Payer()) {
        return NonceTooOld;
      }
      transactions := transactions + [t];
      if t.nonce > NonceOf(t.Payer()) {
        accountNonces := accountNonces[t.Payer() := t.nonce];
      }
      sizeBytes := sizeBytes + TX_SIZE;
      return Added;
    }

    method RemoveTransaction(hash: Id) returns (removed: bool)
      requires Valid()
      modifies this`transactions, this`sizeBytes
      ensures Valid()
      ensures removed <==> exists i :: 0 <= i < |old(transactions)| && old(transactions)[i].hash == hash
      ensures !removed ==> transactions == old(transactions)
      ensures removed ==> exists k :: 0 <= k < |old(transactions)| && old(transactions)[k].hash == hash
                                      && transactions == old(transactions)[..k] + old(transactions)[k + 1..]
    {
      for i := 0 to |transactions|
        invariant forall j :: 0 <= j < i ==> transactions[j].hash != hash
      {
        if transactions[i].hash == hash {
          transactions := transactions[..i] + transactions[i + 1..];
          sizeBytes := sizeBytes - TX_SIZE;
          return true;
        }
      }
      return false;
    }

    /** The selection loop takes the best-paying transactions until a limit stops it. */
    method SelectTransactionsForBlock(maxBytes: int, maxTransactions: int) returns (selected: seq<Tx>)
      requires Valid() && Priced(transactions)
      ensures var sorted := SortedByRate(transactions);
              var n := Capacity(|transactions|, maxBytes, maxTransactions);
              n <= |sorted| && selected == sorted[..n]
      ensures maxBytes >= 0 && maxTransactions >= 0 ==> Feasible(transactions, selected, maxBytes, maxTransactions)
      ensures forall chosen :: Feasible(transactions, chosen, maxBytes, maxTransactions) ==>
                TotalFee(chosen) <= TotalFee(selected)
    {
      hide SortedByRate, Feasible, TotalFee;
      GreedyIsOptimal(transactions, maxBytes, maxTransactions);
      var sorted := SortedByRate(transactions);
      SameSize(sorted, transactions);
      ghost var n := Capacity(|sorted|, maxBytes, maxTransactions);
      selected := [];
      var selectedBytes := 0;
      for i := 0 to |sorted|
        invariant |selected| == (if i <= n then i else n) && selected == sorted[..|selected|]
        invariant selectedBytes == TX_SIZE * |selected|
      {
        if |selected| >= maxTransactions {
          break;
        }
        var txSize := TX_SIZE;
        if selectedBytes + txSize > maxBytes {
          continue;
        }
        selected := selected + [sorted[i]];
        selectedBytes := selectedBytes + txSize;
      }
    }
  }
}
