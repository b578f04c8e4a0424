/** What each handler of the round machine brings about, by the fields it leaves behind, and what quorums bring about. */
module RposOutcomes {
  import opened Wrappers
  import opened Facts
  import opened Validators
  import opened Rpos
  import opened RposSafety
  import Issuance

  // ------------------------------------------------------------------ voting

  /** The members whose precommits are counted once a vote has been recorded. */
  function Voters(e: Engine, kind: VoteKind, v: Id): set<Id> {
    if kind.Precommit? then e.precommits.Keys + {v} else e.precommits.Keys
  }

  /**
   * A recorded vote is kept under its voter, whatever it says; if the precommits then reach the threshold, the held
   * block is accepted, and otherwise nothing else happens.
   */
  lemma AnyVoteOutcome(c: Config, e: Engine, kind: VoteKind, v: Id, vote: Vote, env: Env)
    requires e.proposal.Some?
    ensures var r, b := CastAnyVote(c, e, kind, v, vote, env), e.proposal.value.block;
            && r.precommits.Keys == Voters(e, kind, v)
            && r.prevotes.Keys == (if kind.Prevote? then e.prevotes.Keys + {v} else e.prevotes.Keys)
            && (if kind.Precommit? then r.precommits else r.prevotes)[v] == vote
            && r.proposal == e.proposal
            && (|Voters(e, kind, v)| >= c.threshold ==>
                  && r.height == b.height && r.round == 0 && r.phase == Waiting
                  && r.log == e.log + [VoteCast(kind, v, vote.blockHash), Accepted(b.height, b.hash)])
            && (|Voters(e, kind, v)| < c.threshold ==>
                  && r.height == e.height && r.round == e.round && r.phase == e.phase
                  && r.log == e.log + [VoteCast(kind, v, vote.blockHash)]
                  && r.validators == e.validators && r.supply == e.supply)
  {
    hide AllAfterAccept, Awarded, RecordVote, Voters;
    RecordedOutcome(e, kind, v, vote);
  }

  lemma RecordedOutcome(e: Engine, kind: VoteKind, v: Id, vote: Vote)
    ensures var r := RecordVote(e, kind, v, vote);
            && r.precommits.Keys == Voters(e, kind, v) && |r.precommits| == |Voters(e, kind, v)|
            && r.prevotes.Keys == (if kind.Prevote? then e.prevotes.Keys + {v} else e.prevotes.Keys)
            && (if kind.Precommit? then r.precommits else r.prevotes)[v] == vote
            && r.log == e.log + [VoteCast(kind, v, vote.blockHash)]
            && (r.proposal, r.height, r.round, r.phase) == (e.proposal, e.height, e.round, e.phase)
            && (r.validators, r.supply) == (e.validators, e.supply)
  {
    KeysOfUpdate(e.prevotes, v, vote);
    KeysOfUpdate(e.precommits, v, vote);
    SizeOfMap(e.precommits);
    match kind
    case Prevote =>
    case Precommit =>
  }

  lemma KeysOfUpdate<K, V>(m: map<K, V>, k: K, x: V)
    ensures m[k := x].Keys == m.Keys + {k} && m[k := x][k] == x
    ensures |m[k := x]| == |m.Keys + {k}|
  {
    SizeOfMap(m[k := x]);
  }

  lemma SizeOfMap<K, V>(m: map<K, V>)
    ensures |m| == |m.Keys|
  {
  }

  /** The same for a vote in a run. */
  lemma VoteOutcome(c: Config, e: Engine, kind: VoteKind, v: Id, env: Env)
    requires c.Valid() && VotesNeedProposal(e) && Enabled(c, e, VoteOp(kind, v, env))
    ensures var r, b := Step(c, e, VoteOp(kind, v, env)), e.proposal.value.block;
            && r.precommits.Keys == Voters(e, kind, v)
            && r.prevotes.Keys == (if kind.Prevote? then e.prevotes.Keys + {v} else e.prevotes.Keys)
            && r.proposal == e.proposal
            && (|Voters(e, kind, v)| >= c.threshold ==>
                  && r.height == b.height && r.round == 0 && r.phase == Waiting
                  && r.log == e.log + [VoteCast(kind, v, b.hash), Accepted(b.height, b.hash)])
            && (|Voters(e, kind, v)| < c.threshold ==>
                  && r.height == e.height && r.round == e.round && r.phase == e.phase
                  && r.log == e.log + [VoteCast(kind, v, b.hash)]
                  && r.validators == e.validators && r.supply == e.supply)
  {
    hide CastAnyVote, Voters;
    AnyVoteOutcome(c, e, kind, v, VoteFor(e), env);
  }

  /** The delayed precommit is cast exactly if the prevotes reach the threshold, and is then a vote like any other. */
  lemma PrecommitTimerOutcome(c: Config, e: Engine, env: Env)
    requires c.Valid() && VotesNeedProposal(e) && Enabled(c, e, PrecommitTimerOp(env)) && c.self in c.members
    ensures |e.prevotes| < c.threshold ==> Step(c, e, PrecommitTimerOp(env)) == e
    ensures |e.prevotes| >= c.threshold ==>
              && Enabled(c, e, VoteOp(Precommit, c.self, env))
              && Step(c, e, PrecommitTimerOp(env)) == Step(c, e, VoteOp(Precommit, c.self, env))
  {
    hide CastVote;
    ThresholdPositive(c);
  }

  // ---------------------------------------------- a quorum always means acceptance

  /** A held proposal with a quorum of precommits has been accepted. */
  predicate QuorumIsAccepted(c: Config, e: Engine) {
    e.proposal.Some? && |e.precommits| >= c.threshold ==>
      Accepted(e.proposal.value.block.height, e.proposal.value.block.hash) in e.log
  }

  lemma OpenVotingHasNoQuorum(c: Config, e: Engine, p: Proposal)
    requires c.Valid()
    ensures QuorumIsAccepted(c, OpenVoting(c, e, p))
  {
    ThresholdPositive(c);
    assert |OpenVoting(c, e, p).precommits| == 0;
  }

  lemma NewRoundKeepsQuorums(c: Config, e: Engine, env: Env)
    requires c.Valid() && QuorumIsAccepted(c, e)
    ensures QuorumIsAccepted(c, NewRound(c, e, env))
  {
    hide OpenVoting, Config.Valid;
    var e1 := e.(round := e.round + 1, roundStart := env.now, proposal := None,
                 prevotes := map[], precommits := map[],
                 proposer := if env.choice.Chosen? then env.choice.address else e.proposer);
    OpenVotingHasNoQuorum(c, e1, Proposal(OwnBlock(c, e1, env.later), c.self));
  }

  lemma VoteKeepsQuorums(c: Config, e: Engine, kind: VoteKind, v: Id, env: Env)
    requires c.Valid() && VotesNeedProposal(e) && Enabled(c, e, VoteOp(kind, v, env)) && QuorumIsAccepted(c, e)
    ensures QuorumIsAccepted(c, Step(c, e, VoteOp(kind, v, env)))
  {
    VoteOutcome(c, e, kind, v, env);
    hide Step;
    var r := Step(c, e, VoteOp(kind, v, env));
    assert |r.precommits| == |r.precommits.Keys|;
    if |Voters(e, kind, v)| >= c.threshold {
      assert r.log[|e.log| + 1] == Accepted(e.proposal.value.block.height, e.proposal.value.block.hash);
    }
  }

  lemma StepKeepsQuorums(c: Config, e: Engine, op: Op)
    requires c.Valid() && VotesNeedProposal(e) && Enabled(c, e, op) && QuorumIsAccepted(c, e)
    ensures QuorumIsAccepted(c, Step(c, e, op))
  {
    hide QuorumIsAccepted, OpenVoting, NewRound, Penalised, CastVote, AllAfterAccept, Awarded, Config.Valid;
    match op
    case ProposeOp(b, p, env) =>
      var penalised := e.(validators := Penalised(c, e.validators, p, env.now));
      OtherFieldsKeepQuorums(c, e, penalised);
      OpenVotingHasNoQuorum(c, e, Proposal(b, p));
      NewRoundKeepsQuorums(c, penalised, env);
    case VoteOp(kind, v, env) => VoteKeepsQuorums(c, e, kind, v, env);
    case PrecommitTimerOp(env) => PrecommitTimerKeepsQuorums(c, e, env);
    case VotingTimerOp(env) => VotingTimerKeepsQuorums(c, e, env);
    case ProposalTimerOp(env) =>
      var penalised := e.(validators := Penalised(c, e.validators, e.proposer, env.now));
      OtherFieldsKeepQuorums(c, e, penalised);
      NewRoundKeepsQuorums(c, penalised, env);
    case BlockTimerOp(env) => NewRoundKeepsQuorums(c, e, env);
    case JailOp(_, _, _) => OtherFieldsKeepQuorums(c, e, Step(c, e, op));
    case TombstoneOp(_) => OtherFieldsKeepQuorums(c, e, Step(c, e, op));
    case StopOp => OtherFieldsKeepQuorums(c, e, Step(c, e, op));
  }

  lemma OtherFieldsKeepQuorums(c: Config, e: Engine, e': Engine)
    requires QuorumIsAccepted(c, e) && e'.proposal == e.proposal && e'.precommits == e.precommits && e'.log == e.log
    ensures QuorumIsAccepted(c, e')
  {
  }

  lemma PrecommitTimerKeepsQuorums(c: Config, e: Engine, env: Env)
    requires c.Valid() && VotesNeedProposal(e) && Enabled(c, e, PrecommitTimerOp(env)) && QuorumIsAccepted(c, e)
    ensures QuorumIsAccepted(c, Step(c, e, PrecommitTimerOp(env)))
  {
    PrecommitTimerOutcome(c, e, env);
    hide Step;
    if |e.prevotes| >= c.threshold {
      VoteKeepsQuorums(c, e, Precommit, c.self, env);
    }
  }

  lemma VotingTimerKeepsQuorums(c: Config, e: Engine, env: Env)
    requires c.Valid() && VotesNeedProposal(e) && Enabled(c, e, VotingTimerOp(env)) && QuorumIsAccepted(c, e)
    ensures QuorumIsAccepted(c, Step(c, e, VotingTimerOp(env)))
  {
    hide OpenVoting, NewRound, AllAfterAccept, Awarded;
    var e1 := e.(round := e.round + 1);
    OtherFieldsKeepQuorums(c, e, e1);
    NewRoundKeepsQuorums(c, e1, env);
  }

  /** In every state of every run, a held proposal whose precommits reach the threshold has been accepted. */
  lemma {:induction false} QuorumsAreAccepted(c: Config, run: seq<Engine>, i: nat)
    requires c.Valid() && IsRun(c, run) && i < |run|
    ensures QuorumIsAccepted(c, run[i])
  {
    if i > 0 {
      hide QuorumIsAccepted, Initial;
      QuorumsAreAccepted(c, run, i - 1);
      assert Follows(c, run[i - 1], run[i - 1 + 1]);
      var op :| Enabled(c, run[i - 1], op) && run[i] == Step(c, run[i - 1], op);
      StepKeepsQuorums(c, run[i - 1], op);
    }
  }

  // ------------------------------------------------------- rounds and proposals

  /** A round starts if the engine runs and has members enough; it forgets the proposal and all votes. */
  lemma RoundOutcome(c: Config, e: Engine, env: Env)
    requires c.Valid() && VotesNeedProposal(e) && env.now <= env.later
    ensures var r := Step(c, e, BlockTimerOp(env));
            var proposer := if env.choice.Chosen? then env.choice.address else e.proposer;
            && r.height == e.height && r.validators == e.validators && r.supply == e.supply
            && (!e.running || |c.members| < c.minValidators ==> r == e)
            && (e.running && |c.members| >= c.minValidators ==>
                  && r.round == e.round + 1 && r.roundStart == env.now && r.proposer == proposer
                  && r.precommits == map[]
                  && (proposer != c.self || c.self == Absent ==>
                        r.proposal == None && r.prevotes == map[] && r.log == e.log)
                  && (proposer == c.self != Absent ==>
                        && r.proposal.Some? && r.proposal.value.proposer == c.self
                        && r.proposal.value.block.height == e.height + 1
                        && r.phase == Voting && r.prevotes.Keys == {c.self}))
  {
  }

  /** A proposal is taken up exactly if it is the expected proposer's, for the next height, from this round or later. */
  lemma ProposalOutcome(c: Config, e: Engine, b: Block, p: Id, env: Env)
    requires c.Valid() && VotesNeedProposal(e) && env.now <= env.later
    ensures var r := Step(c, e, ProposeOp(b, p, env));
            var good := p == e.proposer && b.height == e.height + 1 && b.timestamp >= e.roundStart;
            && r.height == e.height && r.supply == e.supply
            && (good ==>
                  && r.proposal == Some(Proposal(b, p)) && r.phase == Voting && r.round == e.round
                  && r.precommits == map[] && r.validators == e.validators
                  && r.prevotes.Keys == (if c.self != Absent then {c.self} else {}))
            && (!good && e.running && |c.members| >= c.minValidators ==>
                  && r.round == e.round + 1 && r.precommits == map[]
                  && (r.proposal.Some? ==> r.proposal.value.proposer == c.self && r.proposer == c.self))
            && (!good && (!e.running || |c.members| < c.minValidators) ==> r.proposal == e.proposal)
  {
    hide Penalised;
  }

  /** A voting timer accepts the held block on a quorum, however late it fires; otherwise two rounds are counted. */
  lemma VotingTimerOutcome(c: Config, e: Engine, env: Env)
    requires c.Valid() && VotesNeedProposal(e) && env.now <= env.later
    ensures var r := Step(c, e, VotingTimerOp(env));
            && (|e.precommits| >= c.threshold ==>
                  && e.proposal.Some? && r.height == e.proposal.value.block.height && r.round == 0 && r.phase == Waiting
                  && r.log == e.log + [Accepted(e.proposal.value.block.height, e.proposal.value.block.hash)])
            && (|e.precommits| < c.threshold ==>
                  && r.height == e.height && r.validators == e.validators
                  && r.round == e.round + if e.running && |c.members| >= c.minValidators then 2 else 1)
  {
    hide AllAfterAccept, Awarded;
    ThresholdPositive(c);
  }

  // ------------------------------------------------------------ the validators

  lemma SettledOne(c: Config, v: ValidatorData, isProposer: bool, now: int)
    ensures var r := AfterAccept(c, v, isProposer, now);
            && r.missed == v.missed && r.stake == v.stake && r.produced == v.produced + (if isProposer then 1 else 0)
            && (v.status.Active? && v.missed > c.maxMissedBlocks ==>
                  r.status == Jailed && r.jailedUntil == now + c.jailDuration * 1000)
            && (v.status.Active? && v.missed <= c.maxMissedBlocks ==> r.status == Active)
            && (!v.status.Active? ==> r.status == v.status)
            && (!isProposer && r.status == v.status ==> r == v)
            && (isProposer && r.status == v.status && (v.status.Active? ==> v.missed <= c.maxMissedBlocks) ==>
                  r.reputation == 1.0 + Max(0.0, Min(200.0, v.reputation + 2.0 + (r.uptime - 95.0) / 5.0)))
  {
    ProducerEarns(v);
    hide ValidatorData.WithReputation;
    Relabels(v.WithStats(true), true, 100.0, v.WithStats(true).uptime);
  }

  lemma ProducerEarns(v: ValidatorData)
    ensures var w := v.WithStats(true);
            w.WithReputation(true, 100.0, w.uptime).reputation
            == Max(0.0, Min(200.0, v.reputation + 2.0 + (w.uptime - 95.0) / 5.0))
  {
  }

  /** Reputation is all that a reputation update changes. */
  lemma Relabels(v: ValidatorData, made: bool, accuracy: real, uptime: real)
    ensures v.WithReputation(made, accuracy, uptime)
         == v.(reputation := v.WithReputation(made, accuracy, uptime).reputation)
  {
  }

  /** Accepting a block credits its proposer with it, and leaves no active validator with too many misses. */
  lemma AcceptanceSettles(c: Config, e: Engine, env: Env, a: Id)
    requires c.Valid() && VotesNeedProposal(e) && env.now <= env.later && |e.precommits| >= c.threshold
    requires a in e.validators
    ensures e.proposal.Some?
    ensures var r, before := Step(c, e, VotingTimerOp(env)), e.validators[a];
            && r.validators.Keys == e.validators.Keys
            && var after := r.validators[a];
            && after.missed == before.missed && after.stake == before.stake
            && after.produced == before.produced + (if a == e.proposal.value.proposer then 1 else 0)
            && (before.status.Active? && before.missed > c.maxMissedBlocks ==>
                  after.status == Jailed && after.jailedUntil == env.now + c.jailDuration * 1000)
            && (before.status.Active? && before.missed <= c.maxMissedBlocks ==> after.status == Active)
            && (!before.status.Active? ==> after.status == before.status)
            && (a != e.proposal.value.proposer && after.status == before.status ==> after == before)
            && (a == e.proposal.value.proposer && after.status == before.status
                && (before.status.Active? ==> before.missed <= c.maxMissedBlocks) ==>
                  after.reputation
                  == 1.0 + Max(0.0, Min(200.0, before.reputation + 2.0 + (after.uptime - 95.0) / 5.0)))
  {
    hide Awarded, AfterAccept, NewRound;
    ThresholdPositive(c);
    SettledOne(c, e.validators[a], a == e.proposal.value.proposer, env.now);
  }

  lemma PartOfWhole(x: real, y: real)
    requires 0.0 <= x <= y && y > 0.0
    ensures 0.0 <= x / y <= 1.0
  {
    assert x / y * y == x;
  }

  lemma MissIsPunished(c: Config, v: ValidatorData, now: int)
    ensures var r := Missed(c, v, now);
            && r.missed == v.missed + 1 && r.produced == v.produced
            && r.reputation <= Max(0.0, v.reputation - 23.0)
            && (v.missed + 1 > c.maxMissedBlocks ==> r.status == Jailed && r.jailedUntil == now + c.jailDuration * 1000)
            && (v.missed + 1 <= c.maxMissedBlocks ==> r.status == v.status)
  {
    PartOfWhole(v.produced as real, (v.produced + v.missed + 1) as real);
  }

  lemma NewRoundKeepsValidators(c: Config, e: Engine, env: Env)
    ensures var r := NewRound(c, e, env);
            && r.validators == e.validators && r.height == e.height && r.supply == e.supply
            && (e.running && |c.members| >= c.minValidators ==> r.round == e.round + 1 && r.precommits == map[])
            && (!e.running || |c.members| < c.minValidators ==> r == e)
  {
  }

  /** What a miss does to one validator out of all. */
  predicate Punished(c: Config, before: map<Id, ValidatorData>, after: map<Id, ValidatorData>, a: Id, now: int) {
    && after.Keys == before.Keys
    && (forall b :: b in before && b != a ==> after[b] == before[b])
    && (a in before ==>
          && after[a].missed == before[a].missed + 1 && after[a].produced == before[a].produced
          && after[a].reputation <= Max(0.0, before[a].reputation - 23.0)
          && (before[a].missed + 1 > c.maxMissedBlocks ==>
                after[a].status == Jailed && after[a].jailedUntil == now + c.jailDuration * 1000)
          && (before[a].missed + 1 <= c.maxMissedBlocks ==> after[a].status == before[a].status))
  }

  lemma PenaltyPunishes(c: Config, vs: map<Id, ValidatorData>, a: Id, now: int)
    ensures Punished(c, vs, Penalised(c, vs, a, now), a, now)
  {
    hide Missed;
    if a in vs {
      MissIsPunished(c, vs[a], now);
    }
  }

  /**
   * A timeout costs the expected proposer a miss and at least 23 points, and its freedom if the misses are too many. It
   * then starts a round, if the engine runs with members enough.
   */
  lemma TimeoutPenalises(c: Config, e: Engine, env: Env)
    requires c.Valid() && VotesNeedProposal(e) && env.now <= env.later
    ensures var r := Step(c, e, ProposalTimerOp(env));
            && Punished(c, e.validators, r.validators, e.proposer, env.now)
            && (e.running && |c.members| >= c.minValidators ==> r.round == e.round + 1 && r.precommits == map[])
            && (!e.running || |c.members| < c.minValidators ==> r.proposal == e.proposal && r.round == e.round)
  {
    hide NewRound, Penalised, Punished;
    PenaltyPunishes(c, e.validators, e.proposer, env.now);
    NewRoundKeepsValidators(c, e.(validators := Penalised(c, e.validators, e.proposer, env.now)), env);
  }

  /** So does an invalid proposal, to the one who sent it. */
  lemma InvalidProposalPenalises(c: Config, e: Engine, b: Block, p: Id, env: Env)
    requires c.Valid() && VotesNeedProposal(e) && env.now <= env.later
    requires !(p == e.proposer && b.height == e.height + 1 && b.timestamp >= e.roundStart)
    ensures Punished(c, e.validators, Step(c, e, ProposeOp(b, p, env)).validators, p, env.now)
  {
    hide NewRound, Penalised, Punished, OpenVoting;
    PenaltyPunishes(c, e.validators, p, env.now);
    NewRoundKeepsValidators(c, e.(validators := Penalised(c, e.validators, p, env.now)), env);
  }

  // ------------------------------------------------------------------- supply

  lemma RewardPositive(c: Config, height: int)
    requires c.blockReward > 0.0
    ensures 0.0 < Reward(c, height) <= c.blockReward
  {
    Issuance.HalvedPositive(c.blockReward, (if height < 0 then 0 else height) / c.halvingInterval);
  }

  /** The reward is the full one for the first interval, and half as much an interval later. */
  lemma RewardHalves(c: Config, height: nat)
    ensures height < c.halvingInterval ==> Reward(c, height) == c.blockReward
    ensures Reward(c, height + c.halvingInterval) == Reward(c, height) / 2.0
  {
    var n: nat := c.halvingInterval;
    Issuance.DivUnique(height + n, n, height / n + 1, height % n);
    if height < n {
      Issuance.DivUnique(height, n, 0, height);
    }
  }

  /** An award takes the supply over the cap exactly when the minimum is paid where only less than it is left. */
  lemma AwardExceedsCapIff(c: Config, height: int, supply: real)
    ensures supply + Award(c, height, supply) > c.maxSupply <==>
              && Reward(c, height) < Issuance.MIN_REWARD
              && supply + Reward(c, height) <= c.maxSupply < supply + Issuance.MIN_REWARD
  {
    hide Reward;
  }

  lemma AwardStaysNear(c: Config, height: int, supply: real)
    requires c.blockReward > 0.0 && supply < c.maxSupply + Issuance.MIN_REWARD
    ensures supply + Award(c, height, supply) < c.maxSupply + Issuance.MIN_REWARD
  {
    hide Reward;
    RewardPositive(c, height);
  }

  /** The supply after a step, if a block of some height has been accepted and paid for once or twice. */
  ghost predicate Paid(c: Config, before: real, after: real) {
    exists height: int, known: bool :: after == Awarded(c, height, before, known)
  }

  lemma FinalizeSupply(c: Config, e: Engine, env: Env)
    requires c.Valid() && VotesNeedProposal(e) && |e.precommits| >= c.threshold
    ensures e.proposal.Some? && Paid(c, e.supply, Finalize(c, e, env).supply)
  {
    hide AllAfterAccept, Awarded;
    ThresholdPositive(c);
    var p := e.proposal.value;
    assert Finalize(c, e, env).supply == Awarded(c, p.block.height, e.supply, p.proposer in e.validators);
  }

  lemma VoteSupply(c: Config, e: Engine, kind: VoteKind, v: Id, env: Env)
    requires c.Valid() && VotesNeedProposal(e) && Enabled(c, e, VoteOp(kind, v, env))
    ensures var r := Step(c, e, VoteOp(kind, v, env)); r.supply == e.supply || Paid(c, e.supply, r.supply)
  {
    hide AllAfterAccept, Awarded, Voters, RecordVote;
    RecordedOutcome(e, kind, v, VoteFor(e));
    var p := e.proposal.value;
    var paid := Awarded(c, p.block.height, e.supply, p.proposer in e.validators);
    assert |Voters(e, kind, v)| >= c.threshold ==> Step(c, e, VoteOp(kind, v, env)).supply == paid;
    VoteOutcome(c, e, kind, v, env);
  }

  lemma PrecommitTimerSupply(c: Config, e: Engine, env: Env)
    requires c.Valid() && VotesNeedProposal(e) && Enabled(c, e, PrecommitTimerOp(env))
    ensures var r := Step(c, e, PrecommitTimerOp(env)); r.supply == e.supply || Paid(c, e.supply, r.supply)
  {
    PrecommitTimerOutcome(c, e, env);
    hide Step, Paid;
    if |e.prevotes| >= c.threshold {
      VoteSupply(c, e, Precommit, c.self, env);
    }
  }

  lemma StepSupply(c: Config, e: Engine, op: Op)
    requires c.Valid() && VotesNeedProposal(e) && Enabled(c, e, op)
    ensures Step(c, e, op).supply == e.supply || Paid(c, e.supply, Step(c, e, op).supply)
  {
    hide Paid, OpenVoting, NewRound, Penalised, CastVote, AllAfterAccept, Awarded, Config.Valid;
    match op
    case ProposeOp(b, p, env) =>
      OpenVotingKeepsSupply(c, e, Proposal(b, p));
      NewRoundKeepsValidators(c, e.(validators := Penalised(c, e.validators, p, env.now)), env);
    case VoteOp(kind, v, env) => VoteSupply(c, e, kind, v, env);
    case PrecommitTimerOp(env) =>
      PrecommitTimerSupply(c, e, env);
    case VotingTimerOp(env) =>
      NewRoundKeepsValidators(c, e.(round := e.round + 1), env);
      if |e.precommits| >= c.threshold {
        FinalizeSupply(c, e, env);
      }
    case ProposalTimerOp(env) =>
      NewRoundKeepsValidators(c, e.(validators := Penalised(c, e.validators, e.proposer, env.now)), env);
    case BlockTimerOp(env) => NewRoundKeepsValidators(c, e, env);
    case _ =>
  }

  lemma OpenVotingKeepsSupply(c: Config, e: Engine, p: Proposal)
    ensures OpenVoting(c, e, p).supply == e.supply
  {
  }

  lemma PaymentStaysNear(c: Config, before: real, after: real)
    requires c.blockReward > 0.0 && before < c.maxSupply + Issuance.MIN_REWARD && Paid(c, before, after)
    ensures after < c.maxSupply + Issuance.MIN_REWARD
  {
    hide Award;
    var height: int, known: bool :| after == Awarded(c, height, before, known);
    AwardStaysNear(c, height, before);
    AwardStaysNear(c, height, before + Award(c, height, before));
  }

  /** Over any run that starts at or below the cap, the supply stays less than one minimal reward above it. */
  lemma {:induction false} SupplyStaysNearCap(c: Config, run: seq<Engine>, i: nat)
    requires c.Valid() && IsRun(c, run) && i < |run|
    requires c.blockReward > 0.0 && run[0].supply <= c.maxSupply
    ensures run[i].supply < c.maxSupply + Issuance.MIN_REWARD
  {
    if i > 0 {
      hide Initial, Paid;
      SupplyStaysNearCap(c, run, i - 1);
      assert Follows(c, run[i - 1], run[i - 1 + 1]);
      var op :| Enabled(c, run[i - 1], op) && run[i] == Step(c, run[i - 1], op);
      StepSupply(c, run[i - 1], op);
      if Paid(c, run[i - 1].supply, run[i].supply) {
        PaymentStaysNear(c, run[i - 1].supply, run[i].supply);
      }
    }
  }
}
