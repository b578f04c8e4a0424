/** Safety of the round machine over every run, alone and across many engines. */
module RposSafety {
  import opened Wrappers
  import opened Validators
  import opened Rpos
  import opened Facts
  import Issuance

  /** The members whose precommit for a block this engine has recorded. */
  ghost function Precommitters(c: Config, log: seq<Event>, hash: Id): set<Id> {
    set v | v in c.members && VoteCast(Precommit, v, hash) in log
  }

  /** Every recorded precommit is a member's, for the current proposal, and was announced. */
  ghost predicate VotesAreCurrent(c: Config, e: Engine) {
    && VotesNeedProposal(e)
    && forall v :: v in e.precommits ==>
         v in c.members && VoteCast(Precommit, v, e.proposal.value.block.hash) in e.log
  }

  /** Every accepted block has a quorum of precommits behind it. */
  ghost predicate AcceptedHaveQuorum(c: Config, log: seq<Event>) {
    forall h, hash :: Accepted(h, hash) in log ==> |Precommitters(c, log, hash)| >= c.threshold
  }

  predicate ProposalIsNear(e: Engine) {
    e.proposal.Some? ==> e.height <= e.proposal.value.block.height <= e.height + 1
  }

  /** Accepted heights are behind the engine, and a proposal still held at the current height is the accepted one. */
  ghost predicate HeightsAreSettled(e: Engine) {
    && (forall h, hash :: Accepted(h, hash) in e.log ==> h <= e.height)
    && (e.proposal.Some? && e.proposal.value.block.height == e.height ==>
          forall hash :: Accepted(e.height, hash) in e.log ==> hash == e.proposal.value.block.hash)
    && (forall h, x, y :: Accepted(h, x) in e.log && Accepted(h, y) in e.log ==> x == y)
  }

  predicate AllBounded(e: Engine) {
    forall a :: a in e.validators ==> e.validators[a].Bounded()
  }

  ghost predicate Inv(c: Config, e: Engine) {
    && VotesAreCurrent(c, e)
    && AcceptedHaveQuorum(c, e.log)
    && ProposalIsNear(e)
    && HeightsAreSettled(e)
    && AllBounded(e)
  }

  // ------------------------------------------------------------- set counting

  lemma Overlap<T>(a: set<T>, b: set<T>, all: set<T>)
    requires a <= all && b <= all
    ensures |a * b| >= |a| + |b| - |all|
  {
    SubsetCount(a + b, all);
    assert |a + b| + |a * b| == |a| + |b|;
  }

  lemma MoreEventsMorePrecommitters(c: Config, log: seq<Event>, more: seq<Event>, hash: Id)
    ensures |Precommitters(c, log, hash)| <= |Precommitters(c, log + more, hash)|
  {
    SubsetCount(Precommitters(c, log, hash), Precommitters(c, log + more, hash));
  }

  // --------------------------------------------------- each handler keeps Inv

  lemma QuorumsSurvive(c: Config, log: seq<Event>, event: Event)
    requires AcceptedHaveQuorum(c, log)
    requires event.Accepted? ==> |Precommitters(c, log, event.blockHash)| >= c.threshold
    ensures AcceptedHaveQuorum(c, log + [event])
  {
    forall h, hash | Accepted(h, hash) in log + [event]
      ensures |Precommitters(c, log + [event], hash)| >= c.threshold
    {
      MoreEventsMorePrecommitters(c, log, [event], hash);
      if Accepted(h, hash) !in log {
        assert event == Accepted(h, hash);
      }
    }
  }

  lemma RecordKeeps(c: Config, e: Engine, kind: VoteKind, v: Id)
    requires c.Valid() && Inv(c, e) && e.proposal.Some? && v in c.members
    ensures Inv(c, Record(e, kind, v))
  {
    QuorumsSurvive(c, e.log, VoteCast(kind, v, e.proposal.value.block.hash));
  }

  lemma OpenVotingKeeps(c: Config, e: Engine, p: Proposal)
    requires c.Valid() && Inv(c, e) && p.block.height == e.height + 1
    ensures Inv(c, OpenVoting(c, e, p))
    ensures OpenVoting(c, e, p).height == e.height
  {
    var e1 := e.(proposal := Some(p), phase := Voting, prevotes := map[], precommits := map[]);
    assert Inv(c, e1);
    if c.self.Id? {
      RecordKeeps(c, e1, Prevote, c.self);
    }
  }

  lemma NewRoundKeeps(c: Config, e: Engine, env: Env)
    requires c.Valid() && Inv(c, e)
    ensures Inv(c, NewRound(c, e, env)) && NewRound(c, e, env).height == e.height
  {
    var e1 := e.(round := e.round + 1, roundStart := env.now, proposal := None,
                 prevotes := map[], precommits := map[],
                 proposer := if env.choice.Chosen? then env.choice.address else e.proposer);
    assert Inv(c, e1);
    OpenVotingKeeps(c, e1, Proposal(OwnBlock(c, e1, env.later), c.self));
  }

  lemma ReputationBounded(v: ValidatorData, made: bool, accuracy: real, uptime: real)
    ensures 0.0 <= v.WithReputation(made, accuracy, uptime).reputation <= 200.0
  {}

  lemma AfterAcceptBounded(c: Config, v: ValidatorData, isProposer: bool, now: int)
    requires v.Bounded()
    ensures AfterAccept(c, v, isProposer, now).Bounded()
  {
    ReputationBounded(v.WithStats(true), true, 100.0, v.WithStats(true).uptime);
  }

  lemma PenalisedBounded(c: Config, e: Engine, a: Id, now: int)
    requires AllBounded(e)
    ensures AllBounded(e.(validators := Penalised(c, e.validators, a, now)))
  {
    if a in e.validators {
      ReputationBounded(e.validators[a].WithStats(false), false, 0.0, e.validators[a].WithStats(false).uptime);
    }
  }

  lemma AcceptKeeps(c: Config, e: Engine, env: Env)
    requires c.Valid() && Inv(c, e) && Quorum(c, e) && e.proposal.Some?
    ensures Inv(c, Accept(c, e, env))
    ensures e.height <= Accept(c, e, env).height <= e.height + 1
  {
    var p := e.proposal.value;
    SubsetCount(e.precommits.Keys, Precommitters(c, e.log, p.block.hash));
    QuorumsSurvive(c, e.log, Accepted(p.block.height, p.block.hash));
    forall a | a in e.validators ensures AfterAccept(c, e.validators[a], a == p.proposer, env.now).Bounded() {
      AfterAcceptBounded(c, e.validators[a], a == p.proposer, env.now);
    }
  }

  lemma CastVoteKeeps(c: Config, e: Engine, kind: VoteKind, v: Id, env: Env)
    requires c.Valid() && Inv(c, e) && e.proposal.Some? && v in c.members
    ensures Inv(c, CastVote(c, e, kind, v, env))
    ensures e.height <= CastVote(c, e, kind, v, env).height <= e.height + 1
  {
    RecordKeeps(c, e, kind, v);
    if Quorum(c, Record(e, kind, v)) {
      AcceptKeeps(c, Record(e, kind, v), env);
    }
  }

  lemma RegistryKeeps(c: Config, e: Engine, vs: map<Id, ValidatorData>)
    requires Inv(c, e) && AllBounded(e.(validators := vs))
    ensures Inv(c, e.(validators := vs))
  {}

  lemma PenaltyKeeps(c: Config, e: Engine, a: Id, env: Env)
    requires c.Valid() && Inv(c, e)
    ensures var e1 := NewRound(c, e.(validators := Penalised(c, e.validators, a, env.now)), env);
            Inv(c, e1) && e1.height == e.height
  {
    var vs := Penalised(c, e.validators, a, env.now);
    PenalisedBounded(c, e, a, env.now);
    RegistryKeeps(c, e, vs);
    NewRoundKeeps(c, e.(validators := vs), env);
  }

  lemma HandleProposedKeeps(c: Config, e: Engine, b: Block, p: Id, env: Env)
    requires c.Valid() && Inv(c, e)
    ensures Inv(c, HandleProposed(c, e, b, p, env)) && HandleProposed(c, e, b, p, env).height == e.height
  {
    if Validates(e, b, p) {
      OpenVotingKeeps(c, e, Proposal(b, p));
    } else {
      PenaltyKeeps(c, e, p, env);
    }
  }

  lemma RoundKeeps(c: Config, e: Engine, r: nat)
    requires Inv(c, e)
    ensures Inv(c, e.(round := r))
  {
    var e1 := e.(round := r);
    assert e1.log == e.log && e1.proposal == e.proposal && e1.precommits == e.precommits;
  }

  lemma FinalizeKeeps(c: Config, e: Engine, env: Env)
    requires c.Valid() && Inv(c, e) && (Quorum(c, e) ==> e.proposal.Some?)
    ensures Inv(c, Finalize(c, e, env))
    ensures e.height <= Finalize(c, e, env).height <= e.height + 1
  {
    hide Inv, Accept, NewRound;
    if Quorum(c, e) {
      AcceptKeeps(c, e, env);
    } else {
      RoundKeeps(c, e, e.round + 1);
      NewRoundKeeps(c, e.(round := e.round + 1), env);
    }
  }

  lemma SanctionKeeps(c: Config, e: Engine, a: Id, v: ValidatorData)
    requires Inv(c, e) && v.Bounded()
    ensures Inv(c, e.(validators := e.validators[a := v]))
  {
    RegistryKeeps(c, e, e.validators[a := v]);
  }

  /**
   Every handler, fired in any state of any run, keeps the invariant; the height never falls and rises by at most one.
   */
  lemma StepKeeps(c: Config, e: Engine, op: Op)
    requires c.Valid() && Inv(c, e) && Enabled(c, e, op)
    ensures Inv(c, Step(c, e, op))
    ensures e.height <= Step(c, e, op).height <= e.height + 1
  {
    ThresholdPositive(c);
    match op
    case ProposeOp(b, p, env) => HandleProposedKeeps(c, e, b, p, env);
    case VoteOp(kind, v, env) => CastVoteKeeps(c, e, kind, v, env);
    case PrecommitTimerOp(env) =>
      if |e.prevotes| >= c.threshold {
        CastVoteKeeps(c, e, Precommit, c.self, env);
      }
    case VotingTimerOp(env) => FinalizeKeeps(c, e, env);
    case ProposalTimerOp(env) => PenaltyKeeps(c, e, e.proposer, env);
    case BlockTimerOp(env) => NewRoundKeeps(c, e, env);
    case JailOp(a, now, d) =>
      if a in e.validators {
        SanctionKeeps(c, e, a, e.validators[a].AfterJail(now, d));
      }
    case TombstoneOp(a) =>
      if a in e.validators {
        SanctionKeeps(c, e, a, e.validators[a].AfterTombstone());
      }
    case StopOp =>
  }

  // -------------------------------------------------------------------- runs

  /** A new engine: nothing proposed, voted or accepted yet. */
  predicate Initial(e: Engine) {
    && e.proposal.None? && e.prevotes == map[] && e.precommits == map[]
    && e.log == [] && e.height == 0
    && AllBounded(e)
  }

  /** A run: every state follows from the one before by some handler. */
  ghost predicate IsRun(c: Config, run: seq<Engine>) {
    && run != [] && Initial(run[0])
    && forall i :: 0 <= i < |run| - 1 ==> Follows(c, run[i], run[i + 1])
  }

  ghost predicate Follows(c: Config, e: Engine, e': Engine) {
    c.Valid() && VotesNeedProposal(e) && exists op :: Enabled(c, e, op) && e' == Step(c, e, op)
  }

  lemma {:induction false} RunKeeps(c: Config, run: seq<Engine>, i: nat)
    requires c.Valid() && IsRun(c, run) && i < |run|
    ensures Inv(c, run[i])
  {
    if i > 0 {
      RunKeeps(c, run, i - 1);
      assert Follows(c, run[i - 1], run[i - 1 + 1]);
      var op :| Enabled(c, run[i - 1], op) && run[i] == Step(c, run[i - 1], op);
      StepKeeps(c, run[i - 1], op);
    }
  }

  /** Along any run the height never falls, rises by at most one per step, and stays next to any held proposal. */
  lemma HeightNeverFalls(c: Config, run: seq<Engine>, i: nat)
    requires c.Valid() && IsRun(c, run) && i + 1 < |run|
    ensures run[i].height <= run[i + 1].height <= run[i].height + 1
    ensures run[i].proposal.Some? ==> run[i].height <= run[i].proposal.value.block.height <= run[i].height + 1
  {
    RunKeeps(c, run, i);
    assert Follows(c, run[i], run[i + 1]);
    var op :| Enabled(c, run[i], op) && run[i + 1] == Step(c, run[i], op);
    StepKeeps(c, run[i], op);
  }

  /** One engine accepts at most one block per height, however often late votes accept that block again. */
  lemma OneBlockPerHeight(c: Config, run: seq<Engine>, i: nat, h: int, x: Id, y: Id)
    requires c.Valid() && IsRun(c, run) && i < |run|
    requires Accepted(h, x) in run[i].log && Accepted(h, y) in run[i].log
    ensures x == y
  {
    RunKeeps(c, run, i);
  }

  /** Reputations stay within [0, 201] along every run. */
  lemma ReputationsStayBounded(c: Config, run: seq<Engine>, i: nat, a: Id)
    requires c.Valid() && IsRun(c, run) && i < |run| && a in run[i].validators
    ensures 0.0 <= run[i].validators[a].reputation <= 201.0
  {
    RunKeeps(c, run, i);
  }

  // ------------------------------------------------------------ many engines

  /** Two engines over the same members, each with its own address and options but one threshold. */
  predicate SamePeers(c: Config, d: Config) {
    c.members == d.members && c.votingThreshold == d.votingThreshold
  }

  /** The members on record as having precommitted one block to one engine and another block to the other. */
  ghost function DoublePrecommitters(c: Config, e: Engine, x: Id, f: Engine, y: Id): set<Id> {
    set v | v in c.members && VoteCast(Precommit, v, x) in e.log && VoteCast(Precommit, v, y) in f.log
  }

  lemma DoubleIsBoth(c: Config, e: Engine, x: Id, f: Engine, y: Id)
    ensures DoublePrecommitters(c, e, x, f, y) == Precommitters(c, e.log, x) * Precommitters(c, f.log, y)
  {}

  lemma AcceptedHasQuorum(c: Config, run: seq<Engine>, i: nat, h: int, x: Id)
    requires c.Valid() && IsRun(c, run) && i < |run| && Accepted(h, x) in run[i].log
    ensures |Precommitters(c, run[i].log, x)| >= c.threshold
  {
    RunKeeps(c, run, i);
  }

  lemma SameThreshold(c: Config, d: Config)
    requires c.Valid() && d.Valid() && SamePeers(c, d)
    ensures c.threshold == d.threshold
  {}

  /**
   If two engines accept x and y, the members that precommitted both number at least two thresholds less the
   membership. The two runs are arbitrary, so this covers every interleaving of any number of engines.
   */
  lemma QuorumIntersection(c: Config, run: seq<Engine>, i: nat, h: int, x: Id,
                           d: Config, other: seq<Engine>, j: nat, k: int, y: Id)
    requires c.Valid() && d.Valid() && SamePeers(c, d)
    requires IsRun(c, run) && i < |run| && Accepted(h, x) in run[i].log
    requires IsRun(d, other) && j < |other| && Accepted(k, y) in other[j].log
    ensures |DoublePrecommitters(c, run[i], x, other[j], y)| >= 2 * c.threshold - |c.members|
  {
    hide IsRun, Config.Valid;
    AcceptedHasQuorum(c, run, i, h, x);
    AcceptedHasQuorum(d, other, j, k, y);
    SameThreshold(c, d);
    DoubleIsBoth(c, run[i], x, other[j], y);
    assert Precommitters(d, other[j].log, y) == Precommitters(c, other[j].log, y);
    Overlap(Precommitters(c, run[i].log, x), Precommitters(c, other[j].log, y), c.members);
  }

  /** With the default threshold of 0.67, more than a third of the members precommitted both blocks. */
  lemma MoreThanAThirdSignedBoth(c: Config, run: seq<Engine>, i: nat, h: int, x: Id,
                                 d: Config, other: seq<Engine>, j: nat, k: int, y: Id)
    requires c.Valid() && d.Valid() && SamePeers(c, d) && c.votingThreshold == 0.67
    requires IsRun(c, run) && i < |run| && Accepted(h, x) in run[i].log
    requires IsRun(d, other) && j < |other| && Accepted(k, y) in other[j].log
    ensures 3 * |DoublePrecommitters(c, run[i], x, other[j], y)| > |c.members|
  {
    QuorumIntersection(c, run, i, h, x, d, other, j, k, y);
    CeilingPositive(|c.members| as real * 0.67);
  }

  // ------------------------------------------------------------------ supply

  /** While two more rewards fit, accepting a block of a known proposer mints its reward twice, any other block's once. */
  lemma KnownProposerPaidTwice(c: Config, e: Engine, env: Env)
    requires e.proposal.Some?
    requires var r := Reward(c, e.proposal.value.block.height);
             r >= Issuance.MIN_REWARD && e.supply + 2.0 * r <= c.maxSupply
    ensures var p := e.proposal.value; var r := Reward(c, p.block.height);
            Accept(c, e, env).supply == e.supply + if p.proposer in e.validators then 2.0 * r else r
  {
    hide AllAfterAccept, Reward;
  }
}
