/**
 The consensus round machine of src/consensus/rpos.js as a state-transition system on values: what every handler
 does, in any state and in any order, including handlers fired by timers that were never cancelled.
 */
module Rpos {
  import opened Wrappers
  import opened Validators
  import Issuance

  datatype Phase = Syncing | Waiting | Proposing | Voting | Finalizing

  datatype VoteKind = Prevote | Precommit

  datatype Block = Block(height: int, hash: Id, timestamp: int)

  datatype Proposal = Proposal(block: Block, proposer: Id)

  datatype Vote = Vote(blockHash: Id, height: int, round: nat)

  /** The emitted events that matter here: vote:cast and block:accepted. */
  datatype Event =
    | VoteCast(kind: VoteKind, validator: Id, blockHash: Id)
    | Accepted(height: int, blockHash: Id)

  /** What selectProposer leaves in currentProposer: nothing new when no validator can be selected. */
  datatype Choice = Unchanged | Chosen(address: Id)

  /** Clock readings and the proposer selection one handler call sees. */
  datatype Env = Env(now: int, later: int, choice: Choice)

  type Interval = n: nat | n > 0 witness 1

  /** Options, this node's own address, and the active validators, which no handler here changes. */
  datatype Config = Config(
    self: Id, members: set<Id>, minValidators: nat, votingThreshold: real, threshold: int,
    maxMissedBlocks: nat, jailDuration: int, blockReward: real, halvingInterval: Interval, maxSupply: real,
    blockHash: (int, int) -> Id)
  {
    predicate Valid() {
      && |members| >= 1 && votingThreshold > 0.0
      && (self.Id? ==> self in members)
      && ThresholdIsCeiling()
    }

    /** Math.ceil(activeValidators * votingThreshold), worked out once instead of at every vote. */
    predicate ThresholdIsCeiling() { threshold == Ceiling(|members| as real * votingThreshold) }
  }

  function Ceiling(x: real): int { -((-x).Floor) }

  datatype Engine = Engine(
    running: bool, phase: Phase, height: int, round: nat, roundStart: int, proposer: Id,
    proposal: Option<Proposal>, prevotes: map<Id, Vote>, precommits: map<Id, Vote>,
    validators: map<Id, ValidatorData>, supply: real, log: seq<Event>)

  // ---------------------------------------------------------------- handlers

  /** The vote startVotingPhase casts: for the current proposal, in the current round. */
  function VoteFor(e: Engine): Vote
    requires e.proposal.Some?
  {
    Vote(e.proposal.value.block.hash, e.proposal.value.block.height, e.round)
  }

  /** What castVote records, whatever the vote says and whoever casts it. */
  function RecordVote(e: Engine, kind: VoteKind, v: Id, vote: Vote): Engine {
    var e1 := e.(log := e.log + [VoteCast(kind, v, vote.blockHash)]);
    match kind
    case Prevote => e1.(prevotes := e.prevotes[v := vote])
    case Precommit => e1.(precommits := e.precommits[v := vote])
  }

  function Record(e: Engine, kind: VoteKind, v: Id): Engine
    requires e.proposal.Some?
  {
    RecordVote(e, kind, v, VoteFor(e))
  }

  /** A fresh proposal wipes all votes, then this node prevotes for it. */
  function OpenVoting(c: Config, e: Engine, p: Proposal): Engine {
    var e1 := e.(proposal := Some(p), phase := Voting, prevotes := map[], precommits := map[]);
    if c.self.Id? then Record(e1, Prevote, c.self) else e1
  }

  function OwnBlock(c: Config, e: Engine, timestamp: int): Block {
    Block(e.height + 1, c.blockHash(e.height + 1, timestamp), timestamp)
  }

  /** runConsensusRound, including this node's own proposal when it is selected. */
  function NewRound(c: Config, e: Engine, env: Env): Engine {
    if !e.running || |c.members| < c.minValidators then e
    else
      var e1 := e.(round := e.round + 1, roundStart := env.now, proposal := None,
                   prevotes := map[], precommits := map[],
                   proposer := if env.choice.Chosen? then env.choice.address else e.proposer);
      if c.self.Id? && e1.proposer == c.self
      then OpenVoting(c, e1, Proposal(OwnBlock(c, e1, env.later), c.self))
      else e1
  }

  function AfterAccept(c: Config, v: ValidatorData, isProposer: bool, now: int): ValidatorData {
    var v1 := if isProposer then v.WithStats(true).WithReputation(true, 100.0, v.WithStats(true).uptime) else v;
    var v2 := if v1.status.Active? then v1.AfterJailCheck(c.maxMissedBlocks, now, c.jailDuration) else v1;
    if isProposer then v2.(reputation := v2.reputation + 1.0) else v2
  }

  function AllAfterAccept(c: Config, vs: map<Id, ValidatorData>, proposer: Id, now: int): map<Id, ValidatorData> {
    map a | a in vs :: AfterAccept(c, vs[a], a == proposer, now)
  }

  /** The reward by the halving schedule alone. */
  function Reward(c: Config, height: int): real {
    Issuance.Halved(c.blockReward, (if height < 0 then 0 else height) / c.halvingInterval)
  }

  /** calculateBlockReward, which sees the height already raised. */
  function Award(c: Config, height: int, supply: real): real {
    var reward := Reward(c, height);
    if supply + reward > c.maxSupply then Min(c.maxSupply - supply, Issuance.MIN_REWARD)
    else Max(reward, Issuance.MIN_REWARD)
  }

  /** awardBlockReward is called once for a known proposer and once more in any case. */
  function Awarded(c: Config, height: int, supply: real, known: bool): real {
    var once := if known then supply + Award(c, height, supply) else supply;
    once + Award(c, height, once)
  }

  function Accept(c: Config, e: Engine, env: Env): Engine
    requires e.proposal.Some?
  {
    var p := e.proposal.value;
    e.(height := p.block.height, round := 0, phase := Waiting,
       validators := AllAfterAccept(c, e.validators, p.proposer, env.now),
       supply := Awarded(c, p.block.height, e.supply, p.proposer in e.validators),
       log := e.log + [Accepted(p.block.height, p.block.hash)])
  }

  predicate Quorum(c: Config, e: Engine) { |e.precommits| >= c.threshold }

  /** finalizeVoting; it is also what a voting timer runs, however stale. */
  function Finalize(c: Config, e: Engine, env: Env): Engine
    requires Quorum(c, e) ==> e.proposal.Some?
  {
    if Quorum(c, e) then Accept(c, e, env) else NewRound(c, e.(round := e.round + 1), env)
  }

  /** castVote with a proposal held. */
  function CastAnyVote(c: Config, e: Engine, kind: VoteKind, v: Id, vote: Vote, env: Env): Engine
    requires e.proposal.Some?
  {
    var e1 := RecordVote(e, kind, v, vote);
    if Quorum(c, e1) then Accept(c, e1, env) else e1
  }

  /** A vote of the kind startVotingPhase casts. */
  function CastVote(c: Config, e: Engine, kind: VoteKind, v: Id, env: Env): Engine
    requires e.proposal.Some?
  {
    CastAnyVote(c, e, kind, v, VoteFor(e), env)
  }

  predicate Validates(e: Engine, b: Block, proposer: Id) {
    proposer == e.proposer && b.height == e.height + 1 && b.timestamp >= e.roundStart
  }

  function Missed(c: Config, v: ValidatorData, now: int): ValidatorData {
    v.WithStats(false).WithReputation(false, 0.0, v.WithStats(false).uptime)
     .AfterJailCheck(c.maxMissedBlocks, now, c.jailDuration)
  }

  function Penalised(c: Config, vs: map<Id, ValidatorData>, a: Id, now: int): map<Id, ValidatorData> {
    if a in vs then vs[a := Missed(c, vs[a], now)] else vs
  }

  function HandleProposed(c: Config, e: Engine, b: Block, proposer: Id, env: Env): Engine {
    if Validates(e, b, proposer) then OpenVoting(c, e, Proposal(b, proposer))
    else NewRound(c, e.(validators := Penalised(c, e.validators, proposer, env.now)), env)
  }

  function ProposalTimeout(c: Config, e: Engine, env: Env): Engine {
    NewRound(c, e.(validators := Penalised(c, e.validators, e.proposer, env.now)), env)
  }

  /** The delayed precommit, which looks at whatever prevotes there are when it fires. */
  function PrecommitTimer(c: Config, e: Engine, env: Env): Engine
    requires |e.prevotes| >= c.threshold ==> e.proposal.Some?
  {
    if |e.prevotes| >= c.threshold then CastVote(c, e, Precommit, c.self, env) else e
  }

  // -------------------------------------------------------------------- runs

  datatype Op =
    | ProposeOp(block: Block, proposer: Id, env: Env)
    | VoteOp(kind: VoteKind, validator: Id, env: Env)
    | PrecommitTimerOp(env: Env)
    | VotingTimerOp(env: Env)
    | ProposalTimerOp(env: Env)
    | BlockTimerOp(env: Env)
    | JailOp(address: Id, now: int, duration: int)
    | TombstoneOp(address: Id)
    | StopOp

  /** The clock does not run backwards inside a call, and a vote comes from a member for a current proposal. */
  predicate Enabled(c: Config, e: Engine, op: Op) {
    match op
    case VoteOp(_, v, env) => e.proposal.Some? && v in c.members && env.now <= env.later
    case PrecommitTimerOp(env) => c.self.Id? && env.now <= env.later
    case ProposeOp(_, _, env) => env.now <= env.later
    case VotingTimerOp(env) => env.now <= env.later
    case ProposalTimerOp(env) => env.now <= env.later
    case BlockTimerOp(env) => env.now <= env.later
    case _ => true
  }

  /** Without a proposal there are no votes, so no handler dereferences a missing proposal. */
  predicate VotesNeedProposal(e: Engine) {
    e.proposal.None? ==> e.prevotes == map[] && e.precommits == map[]
  }

  lemma CeilingPositive(x: real)
    requires x > 0.0
    ensures Ceiling(x) >= 1 && Ceiling(x) as real >= x
  {}

  lemma ThresholdPositive(c: Config)
    requires c.Valid()
    ensures c.threshold >= 1
  {
    assert |c.members| as real * c.votingThreshold > 0.0;
    CeilingPositive(|c.members| as real * c.votingThreshold);
  }

  function Step(c: Config, e: Engine, op: Op): Engine
    requires c.Valid() && VotesNeedProposal(e) && Enabled(c, e, op)
  {
    ThresholdPositive(c);
    match op
    case ProposeOp(b, p, env) => HandleProposed(c, e, b, p, env)
    case VoteOp(kind, v, env) => CastVote(c, e, kind, v, env)
    case PrecommitTimerOp(env) => PrecommitTimer(c, e, env)
    case VotingTimerOp(env) => Finalize(c, e, env)
    case ProposalTimerOp(env) => ProposalTimeout(c, e, env)
    case BlockTimerOp(env) => NewRound(c, e, env)
    case JailOp(a, now, d) =>
      if a in e.validators then e.(validators := e.validators[a := e.validators[a].AfterJail(now, d)]) else e
    case TombstoneOp(a) =>
      if a in e.validators then e.(validators := e.validators[a := e.validators[a].AfterTombstone()]) else e
    case StopOp => e.(running := false)
  }
}
