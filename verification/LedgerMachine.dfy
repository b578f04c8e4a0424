/**
 The StateMachine class of src/blockchain/state_machine.js: account and validator objects in two maps, updated in
 place, with a snapshot that is copied back when a block fails. Every method is proved against the transition
 functions of the ledger.
 */
module LedgerMachine {
  import opened Wrappers
  import opened Validators
  import L = Ledger
  import Facts
  import Issuance

  class Account {
    const address: Id
    var balance: real
    var nonce: int
    var stake: real

    ghost function View(): L.AccountData
      reads this
    {
      L.AccountData(balance, nonce, stake)
    }

    constructor (address: Id)
      ensures this.address == address && View() == L.EMPTY
    {
      this.address := address;
      balance, nonce, stake := 0.0, 0, 0.0;
    }

    /** The object spread `{ ...account }`. */
    constructor Copy(other: Account)
      ensures address == other.address && View() == other.View()
    {
      address, balance, nonce, stake := other.address, other.balance, other.nonce, other.stake;
    }
  }

  /** The map's objects hold exactly these records, each under its own address, so no two entries share an object. */
  ghost predicate HoldsAccounts(accounts: map<Id, Account>, m: L.Accounts, objects: set<Account>)
    reads objects
  {
    && accounts.Keys == m.Keys
    && forall a {:trigger accounts[a]} :: a in accounts ==>
         accounts[a] in objects && accounts[a].address == a && accounts[a].View() == m[a]
  }

  /** A new map of new objects with the same records. */
  method CopyAccounts(accounts: map<Id, Account>, ghost m: L.Accounts, ghost objects: set<Account>)
    returns (copy: map<Id, Account>, ghost copies: set<Account>)
    requires HoldsAccounts(accounts, m, objects)
    ensures fresh(copies) && HoldsAccounts(copy, m, copies)
  {
    copy, copies := map[], {};
    var rest := accounts.Keys;
    ghost var done: L.Accounts := map[];
    while rest != {}
      invariant rest <= accounts.Keys && done.Keys == accounts.Keys - rest
      invariant forall a :: a in done ==> done[a] == m[a]
      invariant fresh(copies) && HoldsAccounts(copy, done, copies)
    {
      var a :| a in rest;
      var account := new Account.Copy(accounts[a]);
      copy, copies := copy[a := account], copies + {account};
      done := done[a := m[a]];
      rest := rest - {a};
    }
    assert done == m;
  }

  method CopyValidators(validators: map<Id, Validator>, ghost m: map<Id, ValidatorData>, ghost objects: set<Validator>)
    returns (copy: map<Id, Validator>, ghost copies: set<Validator>)
    requires HoldsValidators(validators, m, objects)
    ensures fresh(copies) && HoldsValidators(copy, m, copies)
  {
    copy, copies := map[], {};
    var rest := validators.Keys;
    ghost var done: map<Id, ValidatorData> := map[];
    while rest != {}
      invariant rest <= validators.Keys && done.Keys == validators.Keys - rest
      invariant forall a :: a in done ==> done[a] == m[a]
      invariant fresh(copies) && HoldsValidators(copy, done, copies)
    {
      var a :| a in rest;
      var validator := new Validator.Copy(validators[a]);
      copy, copies := copy[a := validator], copies + {validator};
      done := done[a := m[a]];
      rest := rest - {a};
    }
    assert done == m;
  }

  method ClaimReward(v: Validator)
    modifies v
    ensures v.View() == old(v.View()).(rewardClaimed := true, joinedDuringDistribution := true)
  {
    v.rewardClaimed := true;
    v.joinedDuringDistribution := true;
  }

  lemma TouchedAt(m: L.Accounts, a: Id)
    ensures a in L.Touch(m, a) && L.Touch(m, a)[a] == L.Lookup(m, a)
  {}

  lemma TouchedSet(m: L.Accounts, a: Id, x: L.AccountData)
    ensures L.Touch(m, a)[a := x] == m[a := x]
  {}

  lemma TouchedTransfer(m: L.Accounts, t: L.Tx)
    requires t.WellFormed()
    ensures L.Transfer(L.Touch(L.Touch(m, t.Sender()), t.Recipient()), t) == L.Transfer(m, t)
  {}

  datatype Snapshot = Snapshot(
    accounts: map<Id, Account>, validators: map<Id, Validator>,
    height: nat, lastHash: Id, supply: real, developerSet: bool)

  /** The snapshot's own objects hold this state. */
  ghost predicate Saves(snapshot: Snapshot, s: L.State, accountCopies: set<Account>, validatorCopies: set<Validator>)
    reads accountCopies, validatorCopies
  {
    && HoldsAccounts(snapshot.accounts, s.accounts, accountCopies)
    && HoldsValidators(snapshot.validators, s.validators, validatorCopies)
    && s == L.State(s.accounts, s.validators, snapshot.height, snapshot.lastHash, snapshot.supply, snapshot.developerSet)
  }

  class StateMachine {
    const options: L.Options
    var accounts: map<Id, Account>
    var validators: map<Id, Validator>
    var currentHeight: nat
    var lastBlockHash: Id
    var totalSupply: real
    var developerNodeSet: bool
    ghost var ledger: L.Accounts
    ghost var registry: map<Id, ValidatorData>
    ghost var accountObjects: set<Account>
    ghost var validatorObjects: set<Validator>

    ghost predicate AccountsOk()
      reads this`accounts, this`ledger, this`accountObjects, accountObjects
    {
      HoldsAccounts(accounts, ledger, accountObjects)
    }

    ghost predicate ValidatorsOk()
      reads this`validators, this`registry, this`validatorObjects, validatorObjects
    {
      HoldsValidators(validators, registry, validatorObjects)
    }

    /** The state as a value; AccountsOk and ValidatorsOk tie its two maps to the live objects. */
    ghost function View(): L.State
      reads this
    {
      L.State(ledger, registry, currentHeight, lastBlockHash, totalSupply, developerNodeSet)
    }

    constructor (options: L.Options)
      requires options.Valid()
      ensures AccountsOk() && ValidatorsOk() && this.options == options
      ensures accountObjects == {} && validatorObjects == {}
      ensures View() == L.INITIAL
    {
      this.options := options;
      accounts, validators := map[], map[];
      currentHeight, lastBlockHash, totalSupply, developerNodeSet := 0, Absent, 0.0, false;
      ledger, registry, accountObjects, validatorObjects := map[], map[], {}, {};
    }

    method GetOrCreateAccount(address: Id) returns (account: Account)
      requires AccountsOk()
      modifies this`accounts, this`ledger, this`accountObjects
      ensures AccountsOk() && accountObjects >= old(accountObjects) && fresh(accountObjects - old(accountObjects))
      ensures address in accounts && account == accounts[address] && account in accountObjects
      ensures account.address == address && account.View() == ledger[address]
      ensures forall a :: a in old(accounts) ==> a in accounts && accounts[a] == old(accounts)[a]
      ensures ledger == L.Touch(old(ledger), address)
    {
      if address !in accounts {
        var created := new Account(address);
        accounts := accounts[address := created];
        ledger := ledger[address := L.EMPTY];
        accountObjects := accountObjects + {created};
      }
      account := accounts[address];
    }

    method AddBalance(account: Account, x: real)
      requires AccountsOk() && account.address in accounts && account == accounts[account.address]
      modifies account, this`ledger
      ensures AccountsOk()
      ensures ledger == L.Credit(old(ledger), account.address, x)
    {
      account.balance := account.balance + x;
      ledger := L.Credit(ledger, account.address, x);
    }

    /** `const v = this.getOrCreateAccount(address); v.balance += x` */
    method CreditAccount(address: Id, x: real)
      requires AccountsOk()
      modifies this`accounts, this`ledger, this`accountObjects, accountObjects
      ensures AccountsOk() && accountObjects >= old(accountObjects) && fresh(accountObjects - old(accountObjects))
      ensures ledger == L.Credit(old(ledger), address, x)
    {
      hide HoldsAccounts, HoldsValidators;
      var account := GetOrCreateAccount(address);
      AddBalance(account, x);
    }

    /** The three assignments of a transaction, on account objects that may be the same one. */
    method Move(sender: Account, recipient: Account, t: L.Tx)
      requires AccountsOk() && t.WellFormed()
      requires t.Sender() in accounts && sender == accounts[t.Sender()]
      requires t.Recipient() in accounts && recipient == accounts[t.Recipient()]
      modifies sender, recipient, this`ledger
      ensures AccountsOk()
      ensures ledger == L.Transfer(old(ledger), t)
    {
      sender.balance := sender.balance - (t.amount.value + t.fee.value);
      recipient.balance := recipient.balance + t.amount.value;
      sender.nonce := t.nonce;
      ledger := L.Transfer(ledger, t);
    }

    method GetBothAccounts(from: Id, to: Id) returns (sender: Account, recipient: Account)
      requires AccountsOk()
      modifies this`accounts, this`ledger, this`accountObjects
      ensures AccountsOk() && accountObjects >= old(accountObjects) && fresh(accountObjects - old(accountObjects))
      ensures from in accounts && sender == accounts[from]
      ensures to in accounts && recipient == accounts[to]
      ensures ledger == L.Touch(L.Touch(old(ledger), from), to)
    {
      sender := GetOrCreateAccount(from);
      recipient := GetOrCreateAccount(to);
    }

    /** applyTransaction once the transaction's structure has been checked. */
    method ApplyWellFormed(t: L.Tx, senderAddress: Id, recipientAddress: Id) returns (accepted: bool)
      requires AccountsOk() && t.WellFormed() && senderAddress == t.Sender() && recipientAddress == t.Recipient()
      modifies this`accounts, this`ledger, this`accountObjects, accountObjects
      ensures AccountsOk() && accountObjects >= old(accountObjects) && fresh(accountObjects - old(accountObjects))
      ensures accepted == L.ApplyTx(old(ledger), t).ok
      ensures ledger == L.ApplyTx(old(ledger), t).accounts
    {
      var sender, recipient := GetBothAccounts(senderAddress, recipientAddress);
      assert sender.View() == L.Lookup(old(ledger), t.Sender());
      if sender.balance < t.amount.value + t.fee.value {
        return false;
      }
      if t.nonce != sender.nonce + 1 {
        return false;
      }
      ghost var both := ledger;
      Move(sender, recipient, t);
      TouchedTransfer(old(ledger), t);
      if t.fee.value > 0.0 {
        if t.feeTo.Id? {
          CreditAccount(t.feeTo, t.fee.value);
        }
      }
      return true;
    }

    method ApplyTransaction(t: L.Tx) returns (accepted: bool)
      requires AccountsOk()
      modifies this`accounts, this`ledger, this`accountObjects, accountObjects
      ensures AccountsOk() && accountObjects >= old(accountObjects) && fresh(accountObjects - old(accountObjects))
      ensures accepted == L.ApplyTx(old(ledger), t).ok
      ensures ledger == L.ApplyTx(old(ledger), t).accounts
    {
      hide HoldsAccounts, HoldsValidators;
      if t.NoTx? {
        return false;
      }
      var senderAddress := if t.from.Id? then t.from else t.sender;
      var recipientAddress := if t.to.Id? then t.to else t.recipient;
      if !senderAddress.Id? || !recipientAddress.Id? {
        return false;
      }
      if t.amount.None? || t.amount.value <= 0.0 {
        return false;
      }
      if t.fee.None? || t.fee.value < 0.0 {
        return false;
      }
      accepted := ApplyWellFormed(t, senderAddress, recipientAddress);
    }

    // ------------------------------------------------------------------ blocks

    method CalculateBlockReward() returns (reward: real)
      requires options.Valid()
      ensures reward == L.BlockReward(options, currentHeight, totalSupply)
    {
      var halvings := currentHeight / options.halvingInterval;
      Issuance.HalvedIsQuotient(options.blockReward, halvings);
      reward := options.blockReward / Facts.Pow2(halvings) as real;
      var minReward := 0.00000001;
      if totalSupply + reward > options.maxSupply {
        return Min(options.maxSupply - totalSupply, minReward);
      }
    }

    method ProcessBlockReward(validatorAddress: Id)
      requires AccountsOk() && options.Valid()
      modifies this`accounts, this`ledger, this`accountObjects, accountObjects, this`totalSupply
      ensures AccountsOk() && accountObjects >= old(accountObjects) && fresh(accountObjects - old(accountObjects))
      ensures var reward := L.BlockReward(options, currentHeight, old(totalSupply));
              ledger == L.Credit(old(ledger), validatorAddress, reward) && totalSupply == old(totalSupply) + reward
    {
      hide HoldsAccounts, HoldsValidators;
      var reward := CalculateBlockReward();
      CreditAccount(validatorAddress, reward);
      totalSupply := totalSupply + reward;
    }

    /** The first loop of applyBlock; a failed check throws with the accounts created so far still in the map. */
    method PreValidate(txs: seq<L.Tx>) returns (ok: bool)
      requires AccountsOk()
      modifies this`accounts, this`ledger, this`accountObjects
      ensures AccountsOk() && accountObjects >= old(accountObjects) && fresh(accountObjects - old(accountObjects))
      ensures L.Outcome(ledger, ok) == L.PreValidate(old(ledger), txs)
    {
      hide HoldsAccounts, HoldsValidators;
      var i := 0;
      assert txs[0..] == txs;
      while i < |txs|
        invariant 0 <= i <= |txs|
        invariant AccountsOk() && accountObjects >= old(accountObjects) && fresh(accountObjects - old(accountObjects))
        invariant L.PreValidate(old(ledger), txs) == L.PreValidate(ledger, txs[i..])
      {
        var t := txs[i];
        assert txs[i..][1..] == txs[i + 1..];
        if t.NoTx? {
          return false;
        }
        var sender := GetOrCreateAccount(if t.from.Id? then t.from else t.sender);
        if t.amount.Some? && t.fee.Some? && sender.balance < t.amount.value + t.fee.value {
          return false;
        }
        if t.nonce != sender.nonce + 1 {
          return false;
        }
        i := i + 1;
      }
      return true;
    }

    /** The second loop of applyBlock. */
    method ApplyAll(txs: seq<L.Tx>) returns (ok: bool)
      requires AccountsOk()
      modifies this`accounts, this`ledger, this`accountObjects, accountObjects
      ensures AccountsOk() && accountObjects >= old(accountObjects) && fresh(accountObjects - old(accountObjects))
      ensures L.Outcome(ledger, ok) == L.ApplyTxs(old(ledger), txs)
    {
      hide HoldsAccounts, HoldsValidators;
      var i := 0;
      assert txs[0..] == txs;
      while i < |txs|
        invariant 0 <= i <= |txs|
        invariant AccountsOk() && accountObjects >= old(accountObjects) && fresh(accountObjects - old(accountObjects))
        invariant L.ApplyTxs(old(ledger), txs) == L.ApplyTxs(ledger, txs[i..])
      {
        assert txs[i..][1..] == txs[i + 1..];
        var accepted := ApplyTransaction(txs[i]);
        if !accepted {
          return false;
        }
        i := i + 1;
      }
      return true;
    }

    /** The body of the try block of applyBlock; false stands for a thrown error. */
    method TryBlock(b: L.Block) returns (ok: bool)
      requires AccountsOk() && options.Valid() && b.transactions.Some? && b.height == currentHeight + 1
      modifies this`accounts, this`ledger, this`accountObjects, accountObjects
      modifies this`totalSupply, this`currentHeight, this`lastBlockHash
      ensures AccountsOk()
      ensures L.Outcome(ledger, ok) == L.TryBlock(options, old(ledger), old(currentHeight), old(totalSupply),
                                                  b.validatorAddress, b.transactions.value)
      ensures ok ==> totalSupply == old(totalSupply) + L.BlockReward(options, old(currentHeight), old(totalSupply))
      ensures ok ==> currentHeight == b.height && lastBlockHash == b.hash
    {
      hide HoldsAccounts, HoldsValidators;
      ok := PreValidate(b.transactions.value);
      if ok {
        ProcessBlockReward(b.validatorAddress);
        ok := ApplyAll(b.transactions.value);
        if ok {
          currentHeight := b.height;
          lastBlockHash := b.hash;
        }
      }
    }

    /**
     applyBlock: the whole new state is the transition function's, so a block refused at any point, even after
     accounts were created and balances changed in place, leaves every field of every record as it was.
     */
    method ApplyBlock(block: Option<L.Block>, now: int) returns (accepted: bool)
      requires AccountsOk() && ValidatorsOk() && options.Valid()
      modifies this, accountObjects
      ensures AccountsOk() && ValidatorsOk()
      ensures View() == L.ApplyBlock(options, old(View()), block, now).state
      ensures accepted == L.ApplyBlock(options, old(View()), block, now).accepted
      ensures !accepted ==> View() == old(View())
    {
      hide HoldsAccounts, HoldsValidators;
      if block.None? {
        return false;
      }
      var b := block.value;
      if !b.hash.Id? || !b.validatorAddress.Id? || b.transactions.None? {
        return false;
      }
      if b.height != currentHeight + 1 {
        return false;
      }
      if lastBlockHash.Id? && b.previousHash != lastBlockHash {
        return false;
      }
      if b.timestamp > now + 60000 {
        return false;
      }
      accepted := ApplyOrRollBack(b);
    }

    /** Snapshot, try, and on failure copy the snapshot back into new maps of new objects. */
    method ApplyOrRollBack(b: L.Block) returns (accepted: bool)
      requires AccountsOk() && ValidatorsOk() && options.Valid()
      requires b.transactions.Some? && b.height == currentHeight + 1
      modifies this, accountObjects
      ensures AccountsOk() && ValidatorsOk()
      ensures var r := L.TryBlock(options, old(ledger), old(currentHeight), old(totalSupply),
                                  b.validatorAddress, b.transactions.value);
              && accepted == r.ok
              && (accepted ==>
                    View() == old(View()).(accounts := r.accounts, height := b.height, lastHash := b.hash,
                      supply := old(totalSupply) + L.BlockReward(options, old(currentHeight), old(totalSupply))))
              && (!accepted ==> View() == old(View()))
    {
      hide HoldsAccounts, HoldsValidators;
      var snapshot, accountCopies, validatorCopies := CreateStateSnapshot();
      accepted := TryBlock(b);
      if !accepted {
        RestoreStateSnapshot(snapshot, old(View()), accountCopies, validatorCopies);
      }
    }

    method CreateStateSnapshot()
      returns (snapshot: Snapshot, ghost accountCopies: set<Account>, ghost validatorCopies: set<Validator>)
      requires AccountsOk() && ValidatorsOk()
      ensures fresh(accountCopies) && fresh(validatorCopies)
      ensures Saves(snapshot, View(), accountCopies, validatorCopies)
    {
      var accountsCopy, validatorsCopy;
      accountsCopy, accountCopies := CopyAccounts(accounts, ledger, accountObjects);
      validatorsCopy, validatorCopies := CopyValidators(validators, registry, validatorObjects);
      snapshot := Snapshot(accountsCopy, validatorsCopy, currentHeight, lastBlockHash, totalSupply, developerNodeSet);
    }

    method RestoreStateSnapshot(snapshot: Snapshot, ghost before: L.State,
                                ghost accountCopies: set<Account>, ghost validatorCopies: set<Validator>)
      requires Saves(snapshot, before, accountCopies, validatorCopies)
      modifies this
      ensures AccountsOk() && ValidatorsOk() && fresh(accountObjects) && fresh(validatorObjects)
      ensures View() == before
    {
      hide HoldsAccounts, HoldsValidators;
      RestoreAccounts(snapshot.accounts, before.accounts, accountCopies);
      RestoreValidators(snapshot.validators, before.validators, validatorCopies);
      RestoreScalars(snapshot);
    }

    method RestoreScalars(snapshot: Snapshot)
      modifies this`currentHeight, this`lastBlockHash, this`totalSupply, this`developerNodeSet
      ensures currentHeight == snapshot.height && lastBlockHash == snapshot.lastHash
      ensures totalSupply == snapshot.supply && developerNodeSet == snapshot.developerSet
    {
      currentHeight, lastBlockHash := snapshot.height, snapshot.lastHash;
      totalSupply, developerNodeSet := snapshot.supply, snapshot.developerSet;
    }

    method RestoreAccounts(saved: map<Id, Account>, ghost before: L.Accounts, ghost copies: set<Account>)
      requires HoldsAccounts(saved, before, copies)
      modifies this`accounts, this`ledger, this`accountObjects
      ensures AccountsOk() && fresh(accountObjects) && ledger == before
    {
      accounts, accountObjects := CopyAccounts(saved, before, copies);
      ledger := before;
    }

    method RestoreValidators(saved: map<Id, Validator>, ghost before: map<Id, ValidatorData>, ghost copies: set<Validator>)
      requires HoldsValidators(saved, before, copies)
      modifies this`validators, this`registry, this`validatorObjects
      ensures ValidatorsOk() && fresh(validatorObjects) && registry == before
    {
      validators, validatorObjects := CopyValidators(saved, before, copies);
      registry := before;
    }

    // ---------------------------------------------------- staking and awards

    method UpdateAccountBalance(address: Id, amount: real) returns (updated: bool)
      requires AccountsOk()
      modifies this`accounts, this`ledger, this`accountObjects, accountObjects
      ensures AccountsOk() && accountObjects >= old(accountObjects) && fresh(accountObjects - old(accountObjects))
      ensures updated == !(amount < 0.0 && -amount > L.Lookup(old(ledger), address).balance)
      ensures ledger == if updated then L.Credit(old(ledger), address, amount) else L.Touch(old(ledger), address)
    {
      hide HoldsAccounts, HoldsValidators;
      var account := GetOrCreateAccount(address);
      if amount < 0.0 && -amount > account.balance {
        return false;
      }
      AddBalance(account, amount);
      return true;
    }

    /** Move an amount between an account's balance and its stake, in either direction. */
    method MoveStake(account: Account, amount: real)
      requires AccountsOk() && account.address in accounts && account == accounts[account.address]
      modifies account, this`ledger
      ensures AccountsOk() && account.stake == old(account.stake) + amount
      ensures ledger == old(ledger)[account.address := account.View()]
      ensures account.View() == old(account.View()).(stake := old(account.stake) + amount,
                                                      balance := old(account.balance) - amount)
    {
      account.stake := account.stake + amount;
      if amount > 0.0 {
        account.balance := account.balance - amount;
      } else if amount < 0.0 {
        account.balance := account.balance + (-amount);
      }
      ledger := ledger[account.address := account.View()];
    }

    method SyncValidator(address: Id, stake: real)
      requires ValidatorsOk()
      modifies validatorObjects, this`registry
      ensures ValidatorsOk()
      ensures registry == if address in old(registry)
                          then old(registry)[address := old(registry)[address].Following(stake, options.minimumStake)]
                          else old(registry)
    {
      if address in validators {
        validators[address].FollowStake(stake, options.minimumStake);
        registry := registry[address := validators[address].View()];
      }
    }

    method UpdateAccountStake(address: Id, amount: real) returns (updated: bool)
      requires AccountsOk() && ValidatorsOk()
      modifies this`accounts, this`ledger, this`accountObjects, accountObjects, this`registry, validatorObjects
      ensures AccountsOk() && ValidatorsOk() && fresh(accountObjects - old(accountObjects))
      ensures View() == L.UpdateStake(options, old(View()), address, amount).state
      ensures updated == L.UpdateStake(options, old(View()), address, amount).accepted
    {
      hide HoldsAccounts, HoldsValidators, ValidatorData.Following, L.Touch;
      var account := GetOrCreateAccount(address);
      TouchedAt(old(ledger), address);
      if amount < 0.0 && -amount > account.stake {
        return false;
      }
      if amount > 0.0 && amount > account.balance {
        return false;
      }
      MoveStake(account, amount);
      TouchedSet(old(ledger), address, account.View());
      SyncValidator(address, account.stake);
      return true;
    }

    method AwardDeveloperNodeReward(address: Id)
      requires AccountsOk() && ValidatorsOk() && options.Valid()
      modifies this`accounts, this`ledger, this`accountObjects, accountObjects, this`totalSupply, this`developerNodeSet
      ensures AccountsOk() && ValidatorsOk() && fresh(accountObjects - old(accountObjects))
      ensures View() == L.AwardDeveloper(options, old(View()), address)
    {
      hide HoldsAccounts, HoldsValidators;
      var _ := UpdateAccountBalance(address, options.developerNodeReward);
      totalSupply := totalSupply + options.developerNodeReward;
      developerNodeSet := true;
    }

    method MarkClaimed(address: Id)
      requires ValidatorsOk() && address in validators
      modifies validatorObjects, this`registry
      ensures ValidatorsOk()
      ensures registry == old(registry)[address :=
                old(registry)[address].(rewardClaimed := true, joinedDuringDistribution := true)]
    {
      ClaimReward(validators[address]);
      registry := registry[address := validators[address].View()];
    }

    method EarlyAwardDue(address: Id) returns (due: bool)
      requires ValidatorsOk()
      ensures due == L.EarlyAwardDue(View(), address)
      ensures due ==> address in validators
    {
      due := !(address !in validators || validators[address].rewardClaimed);
    }

    method AwardEarlyValidatorReward(address: Id)
      requires AccountsOk() && ValidatorsOk() && options.Valid()
      modifies this`accounts, this`ledger, this`accountObjects, accountObjects, this`totalSupply
      modifies this`registry, validatorObjects
      ensures AccountsOk() && ValidatorsOk() && fresh(accountObjects - old(accountObjects))
      ensures View() == L.AwardEarly(options, old(View()), address)
      ensures address !in old(registry) ==> unchanged(old(validatorObjects))
    {
      hide HoldsAccounts, HoldsValidators;
      var due := EarlyAwardDue(address);
      if !due {
        return;
      }
      MarkClaimed(address);
      var _ := UpdateAccountBalance(address, options.earlyValidatorReward);
      totalSupply := totalSupply + options.earlyValidatorReward;
    }

    /** registerValidator keeps the caller's own object; an early-validator award comes before the map insert. */
    method RegisterValidator(validator: Validator, now: int) returns (registered: bool)
      requires AccountsOk() && ValidatorsOk() && options.Valid()
      modifies this, accountObjects, validatorObjects, validator
      ensures AccountsOk() && ValidatorsOk()
      ensures View() == L.Register(options, old(View()), validator.address, old(validator.View()), now).state
      ensures registered == L.Register(options, old(View()), validator.address, old(validator.View()), now).accepted
      ensures registered ==> validator.address in validators && validators[validator.address] == validator
    {
      hide HoldsAccounts, HoldsValidators;
      var known := HasValidator(validator.address);
      if known {
        return false;
      }
      var account := GetOrCreateAccount(validator.address);
      if account.stake < options.minimumStake {
        return false;
      }
      SetStake(validator, account.stake, !developerNodeSet);
      PayRegistrationAward(validator.address, now);
      Insert(validator);
      return true;
    }

    method PayRegistrationAward(address: Id, now: int)
      requires AccountsOk() && ValidatorsOk() && options.Valid() && address !in registry
      modifies this`accounts, this`ledger, this`accountObjects, accountObjects, this`totalSupply, this`developerNodeSet
      modifies this`registry, validatorObjects
      ensures AccountsOk() && ValidatorsOk() && fresh(accountObjects - old(accountObjects))
      ensures View() == L.RegistrationAward(options, old(View()), address, now)
      ensures unchanged(old(validatorObjects))
    {
      hide HoldsAccounts, HoldsValidators;
      if !developerNodeSet {
        developerNodeSet := true;
        if now < options.distributionEnd {
          AwardDeveloperNodeReward(address);
        }
      } else if now < options.distributionEnd {
        AwardEarlyValidatorReward(address);
      }
    }

    method HasValidator(address: Id) returns (known: bool)
      requires ValidatorsOk()
      ensures known == (address in registry) && known == (address in validators)
    {
      known := address in validators;
    }

    /** The caller's object cannot be a live one, since live objects sit under their own addresses. */
    method SetStake(validator: Validator, stake: real, isFirst: bool)
      requires ValidatorsOk() && validator.address !in validators
      modifies validator
      ensures ValidatorsOk()
      ensures validator.View() == old(validator.View()).(stake := stake, isFirst := isFirst || old(validator.isFirst))
    {
      validator.stake := stake;
      if isFirst {
        validator.isFirst := true;
      }
    }

    method Insert(validator: Validator)
      requires ValidatorsOk() && validator.address !in registry
      modifies this`validators, this`registry, this`validatorObjects
      ensures ValidatorsOk()
      ensures registry == old(registry)[validator.address := validator.View()]
      ensures validators == old(validators)[validator.address := validator]
    {
      validators := validators[validator.address := validator];
      registry := registry[validator.address := validator.View()];
      validatorObjects := validatorObjects + {validator};
    }
  }
}
