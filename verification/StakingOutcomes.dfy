/** What each call on the staking ledger is accepted for and what it does, field by field, and what that adds up to. */
module StakingOutcomes {
  import opened Wrappers
  import opened Staking

  function StakeOf(s: State, a: Address): real { if a in s.validators then s.validators[a].stake else 0.0 }

  /** Nothing about any other address, or about the distribution, differs. */
  ghost predicate OnlyAt(s: State, s': State, a: Address) {
    && (forall b :: b != a ==> (b in s'.accounts <==> b in s.accounts) && (b in s'.validators <==> b in s.validators))
    && (forall b :: b in s.accounts && b != a ==> s'.accounts[b] == s.accounts[b])
    && (forall b :: b in s.validators && b != a ==> s'.validators[b] == s.validators[b])
  }

  // ----------------------------------------------------------------- rewards

  /** Inside the period, once an address, the developer's once at all and only to the address named for it, if any. */
  predicate RewardDue(t: Terms, d: Distribution, a: Address, isDeveloper: bool, now: int) {
    && t.start <= now <= t.end && a !in d.rewarded
    && (isDeveloper ==> !d.developerRewarded && (t.developerAddress == Absent || t.developerAddress == a))
  }

  function RewardFor(t: Terms, isDeveloper: bool): real {
    if isDeveloper then t.developerReward else t.validatorReward
  }

  /** A reward is paid exactly if it is due; it is then on the books, and in the account if the period pays here. */
  lemma ClaimOutcome(rules: Rules, s: State, a: Address, isDeveloper: bool, now: int)
    requires rules.terms.Some?
    ensures var t := rules.terms.value;
            var s' := Step(rules, s, ClaimReward(a, isDeveloper, now)); var d, d' := s.distribution, s'.distribution;
            && (!RewardDue(t, d, a, isDeveloper, now) ==> s' == s)
            && (RewardDue(t, d, a, isDeveloper, now) ==>
                  && d'.rewarded == d.rewarded + {a}
                  && d'.totalDistributed == d.totalDistributed + RewardFor(t, isDeveloper)
                  && d'.developerRewarded == (d.developerRewarded || isDeveloper)
                  && d'.validatorsRewarded == d.validatorsRewarded + (if isDeveloper then 0 else 1)
                  && s'.validators == s.validators && OnlyAt(s, s', a)
                  && (rules.attached && RewardFor(t, isDeveloper) > 0.0 ==>
                        Balance(s'.accounts, a) == Balance(s.accounts, a) + RewardFor(t, isDeveloper))
                  && (!rules.attached ==> s'.accounts == s.accounts))
  {
  }

  // --------------------------------------------------- registering and staking

  /** With all parameters, a new address, and a stake that the balance covers and that reaches the minimum. */
  predicate MayRegister(rules: Rules, s: State, op: Op)
    requires op.Register?
  {
    && op.address != Absent && op.publicKey != Absent && op.stake != 0.0 && op.signature != Absent
    && op.address !in s.validators
    && op.stake <= Balance(s.accounts, op.address) && op.stake >= rules.minStake
  }

  /** Registration moves the stake out of the balance, and pays the reward that is due. */
  lemma RegisterOutcome(rules: Rules, s: State, op: Op)
    requires rules.Valid() && op.Register?
    ensures var s', a := Step(rules, s, op), op.address;
            && (a in s'.validators <==> a in s.validators || MayRegister(rules, s, op))
            && (!MayRegister(rules, s, op) ==>
                  && s'.validators == s.validators && s'.distribution == s.distribution
                  && Balance(s'.accounts, a) == Balance(s.accounts, a))
            && (MayRegister(rules, s, op) ==>
                  var isDeveloper := a == rules.developerAddress;
                  var paid := if rules.terms.Some? && rules.attached
                                 && RewardDue(rules.terms.value, s.distribution, a, isDeveloper, op.now)
                              then RewardFor(rules.terms.value, isDeveloper) else 0.0;
                  && s'.validators[a] == Validator(op.publicKey, op.stake, Active, None, 0)
                  && Balance(s'.accounts, a) == Balance(s.accounts, a) - op.stake + paid)
            && OnlyAt(s, s', a)
  {
  }

  predicate MayStake(s: State, op: Op)
    requires op.Stake?
  {
    && op.address != Absent && op.signature != Absent && op.amount != 0.0
    && op.address in s.validators && op.amount <= Balance(s.accounts, op.address)
  }

  lemma StakeOutcome(rules: Rules, s: State, op: Op)
    requires op.Stake?
    ensures var s', a := Step(rules, s, op), op.address;
            && (MayStake(s, op) ==>
                  && s'.validators[a] == s.validators[a].(stake := s.validators[a].stake + op.amount)
                  && (Balance(s.accounts, a) - op.amount >= 0.0 ==>
                        Balance(s'.accounts, a) == Balance(s.accounts, a) - op.amount))
            && (!MayStake(s, op) ==>
                  s'.validators == s.validators && Balance(s'.accounts, a) == Balance(s.accounts, a))
            && OnlyAt(s, s', a) && s'.distribution == s.distribution
  {
  }

  predicate MayUnstake(rules: Rules, s: State, op: Op)
    requires op.Unstake?
  {
    && op.address != Absent && op.signature != Absent && op.amount != 0.0
    && op.address in s.validators
    && op.amount <= s.validators[op.address].stake && rules.minStake <= s.validators[op.address].stake - op.amount
  }

  lemma UnstakeOutcome(rules: Rules, s: State, op: Op)
    requires op.Unstake?
    ensures var s', a := Step(rules, s, op), op.address;
            && (MayUnstake(rules, s, op) ==>
                  && s'.validators[a] == s.validators[a].(stake := s.validators[a].stake - op.amount)
                  && Balance(s'.accounts, a) == Balance(s.accounts, a)
                     + if op.amount > 0.0 || Balance(s.accounts, a) + op.amount >= 0.0 then op.amount else 0.0)
            && (!MayUnstake(rules, s, op) ==> s' == s)
            && OnlyAt(s, s', a) && s'.distribution == s.distribution
  {
  }

  // ------------------------------------------------------------------ jailing

  /** A jailed validator is released by its first request after the term, and by none before. */
  lemma JailLastsItsTerm(rules: Rules, s: State, a: Address, now: int, later: int, signature: Id)
    requires a != Absent && a in s.validators && signature != Absent && now + rules.jailDuration * 1000 != 0
    ensures var jailed := Step(rules, s, Jail(a, now));
            var asked := Step(rules, jailed, Unjail(a, signature, later));
            && jailed.validators[a].status == Jailed && OnlyAt(s, jailed, a) && OnlyAt(jailed, asked, a)
            && (later < now + rules.jailDuration * 1000 ==> asked == jailed)
            && (later >= now + rules.jailDuration * 1000 ==>
                  asked.validators[a] == s.validators[a].(status := Active, jailedUntil := None, missedBlocks := 0))
            && asked.accounts == s.accounts
  {
  }

  /** Only a jailed validator can be released. */
  lemma OnlyJailedAreReleased(rules: Rules, s: State, a: Address, now: int, signature: Id)
    requires a in s.validators ==> s.validators[a].status != Jailed
    ensures Step(rules, s, Unjail(a, signature, now)) == s
  {
  }

  // --------------------------------------------------------------- whole runs

  /** What one call adds to the stake of an address. */
  function Moved(rules: Rules, s: State, op: Op, a: Address): real {
    match op
    case Register(b, _, stake, _, _) => if b == a && MayRegister(rules, s, op) then stake else 0.0
    case Stake(b, amount, _) => if b == a && MayStake(s, op) then amount else 0.0
    case Unstake(b, amount, _) => if b == a && MayUnstake(rules, s, op) then -amount else 0.0
    case _ => 0.0
  }

  function AllMoved(rules: Rules, s: State, ops: seq<Op>, a: Address): real {
    if ops == [] then 0.0
    else
      var before := ops[..|ops| - 1];
      AllMoved(rules, s, before, a) + Moved(rules, Run(rules, s, before), ops[|ops| - 1], a)
  }

  lemma JailKeepsStakes(rules: Rules, s: State, op: Op, a: Address)
    requires op.Jail? || op.Unjail?
    ensures StakeOf(Step(rules, s, op), a) == StakeOf(s, a)
  {
  }

  lemma ClaimKeepsStakes(rules: Rules, s: State, op: Op, a: Address)
    requires op.ClaimReward?
    ensures StakeOf(Step(rules, s, op), a) == StakeOf(s, a)
  {
  }

  lemma StepMoves(rules: Rules, s: State, op: Op, a: Address)
    requires rules.Valid()
    ensures StakeOf(Step(rules, s, op), a) == StakeOf(s, a) + Moved(rules, s, op, a)
  {
    match op
    case Register(_, _, _, _, _) => RegisterOutcome(rules, s, op);
    case Stake(_, _, _) => StakeOutcome(rules, s, op);
    case Unstake(_, _, _) => UnstakeOutcome(rules, s, op);
    case Jail(_, _) => JailKeepsStakes(rules, s, op, a);
    case Unjail(_, _, _) => JailKeepsStakes(rules, s, op, a);
    case ClaimReward(_, _, _) => ClaimKeepsStakes(rules, s, op, a);
  }

  /** Over any run a validator's stake is what it registered with, plus what it staked, less what it unstaked. */
  lemma {:induction false} StakeIsSumOfMoves(rules: Rules, s: State, ops: seq<Op>, a: Address)
    requires rules.Valid()
    ensures StakeOf(Run(rules, s, ops), a) == StakeOf(s, a) + AllMoved(rules, s, ops, a)
  {
    if ops != [] {
      hide Step, StakeOf, Moved;
      var before := ops[..|ops| - 1];
      StakeIsSumOfMoves(rules, s, before, a);
      StepMoves(rules, Run(rules, s, before), ops[|ops| - 1], a);
    }
  }
}
