/**
 * How often one node precommits at one height. The engine keeps no lock: a failed round clears the votes, and the next
 * proposal at the same height is voted for afresh.
 */
module RposPrecommits {
  import opened Wrappers
  import opened Rpos
  import opened RposSafety

  // ------------------------------------------- when it is at most one block

  /** A member's first precommit for a block is recorded in this step. */
  ghost predicate PrecommitsAt(run: seq<Engine>, i: nat, v: Id, x: Id)
    requires i + 1 < |run|
  {
    VoteCast(Precommit, v, x) in run[i + 1].log && VoteCast(Precommit, v, x) !in run[i].log
  }

  lemma OpenVotingPrecommitsNothing(c: Config, e: Engine, p: Proposal, v: Id, x: Id)
    requires VoteCast(Precommit, v, x) !in e.log
    ensures VoteCast(Precommit, v, x) !in OpenVoting(c, e, p).log
  {
  }

  lemma NewRoundPrecommitsNothing(c: Config, e: Engine, env: Env, v: Id, x: Id)
    requires VoteCast(Precommit, v, x) !in e.log
    ensures VoteCast(Precommit, v, x) !in NewRound(c, e, env).log
  {
    hide OpenVoting;
    var e1 := e.(round := e.round + 1, roundStart := env.now, proposal := None,
                 prevotes := map[], precommits := map[],
                 proposer := if env.choice.Chosen? then env.choice.address else e.proposer);
    OpenVotingPrecommitsNothing(c, e1, Proposal(OwnBlock(c, e1, env.later), c.self), v, x);
  }

  lemma CastVotePrecommitsProposal(c: Config, e: Engine, kind: VoteKind, u: Id, env: Env, v: Id, x: Id)
    requires e.proposal.Some? && VoteCast(Precommit, v, x) !in e.log
    ensures VoteCast(Precommit, v, x) in CastVote(c, e, kind, u, env).log ==> x == e.proposal.value.block.hash
  {
    hide Awarded, AllAfterAccept;
  }

  /** Whatever the step, a new precommit is for the proposal held. */
  lemma StepPrecommitsProposal(c: Config, e: Engine, op: Op, v: Id, x: Id)
    requires c.Valid() && VotesNeedProposal(e) && Enabled(c, e, op) && VoteCast(Precommit, v, x) !in e.log
    ensures VoteCast(Precommit, v, x) in Step(c, e, op).log ==>
              e.proposal.Some? && x == e.proposal.value.block.hash
  {
    hide OpenVoting, NewRound, CastVote, Penalised, Awarded, AllAfterAccept;
    ThresholdPositive(c);
    match op
    case ProposeOp(b, p, env) =>
      OpenVotingPrecommitsNothing(c, e, Proposal(b, p), v, x);
      NewRoundPrecommitsNothing(c, e.(validators := Penalised(c, e.validators, p, env.now)), env, v, x);
    case VoteOp(kind, u, env) => CastVotePrecommitsProposal(c, e, kind, u, env, v, x);
    case PrecommitTimerOp(env) =>
      if |e.prevotes| >= c.threshold {
        CastVotePrecommitsProposal(c, e, Precommit, c.self, env, v, x);
      }
    case VotingTimerOp(env) => NewRoundPrecommitsNothing(c, e.(round := e.round + 1), env, v, x);
    case ProposalTimerOp(env) =>
      NewRoundPrecommitsNothing(c, e.(validators := Penalised(c, e.validators, e.proposer, env.now)), env, v, x);
    case BlockTimerOp(env) => NewRoundPrecommitsNothing(c, e, env, v, x);
    case _ =>
  }

  lemma PrecommitIsForProposal(c: Config, run: seq<Engine>, i: nat, v: Id, x: Id)
    requires c.Valid() && IsRun(c, run) && i + 1 < |run| && PrecommitsAt(run, i, v, x)
    ensures run[i].proposal.Some? && run[i].proposal.value.block.hash == x
  {
    assert Follows(c, run[i], run[i + 1]);
    var op :| Enabled(c, run[i], op) && run[i + 1] == Step(c, run[i], op);
    StepPrecommitsProposal(c, run[i], op, v, x);
  }

  /** Whatever proposal is held at a height is for the one block given for that height. */
  predicate OneProposalPerHeight(run: seq<Engine>, hashAt: int -> Id) {
    forall i :: 0 <= i < |run| && run[i].proposal.Some? ==>
      run[i].proposal.value.block.hash == hashAt(run[i].proposal.value.block.height)
  }

  /** Then every precommit of a member is for the one block of its height, so there are no two for one height. */
  lemma OnePrecommitPerHeight(c: Config, run: seq<Engine>, hashAt: int -> Id, i: nat, v: Id, x: Id)
    requires c.Valid() && IsRun(c, run) && OneProposalPerHeight(run, hashAt)
    requires i + 1 < |run| && PrecommitsAt(run, i, v, x)
    ensures run[i].proposal.Some? && x == hashAt(run[i].proposal.value.block.height)
  {
    PrecommitIsForProposal(c, run, i, v, x);
  }

  // --------------------------------------------------- when it is two blocks

  lemma Extend(c: Config, run: seq<Engine>, op: Op)
    requires c.Valid() && IsRun(c, run) && Enabled(c, run[|run| - 1], op)
    ensures VotesNeedProposal(run[|run| - 1]) && IsRun(c, run + [Step(c, run[|run| - 1], op)])
  {
    hide Step, Enabled, VotesNeedProposal, Config.Valid, Initial;
    RunKeeps(c, run, |run| - 1);
    HasNeeded(c, run[|run| - 1]);
    var next := run + [Step(c, run[|run| - 1], op)];
    forall i | 0 <= i < |next| - 1 ensures Follows(c, next[i], next[i + 1]) {
      if i < |run| - 1 {
        assert Follows(c, run[i], run[i + 1]);
      }
    }
  }

  lemma HasNeeded(c: Config, e: Engine)
    requires Inv(c, e)
    ensures VotesNeedProposal(e)
  {
  }

  /** A quorum of prevotes is two, one of them this node's own, and the node is not the proposer. */
  predicate TwoVoters(c: Config, e: Engine, other: Id) {
    && c.Valid() && c.self.Id? && c.threshold == 2 && other in c.members && other != c.self
    && e.proposer != c.self
  }

  lemma Prevotes(c: Config, e: Engine, other: Id, env: Env)
    requires c.Valid() && VotesNeedProposal(e) && e.proposal.Some? && other in c.members && env.now <= env.later
    requires c.threshold == 2 && e.precommits == map[]
    ensures Enabled(c, e, VoteOp(Prevote, other, env))
    ensures Step(c, e, VoteOp(Prevote, other, env)) == Record(e, Prevote, other)
  {
    assert |Record(e, Prevote, other).precommits| == 0;
  }

  lemma Precommits(c: Config, e: Engine, env: Env)
    requires c.Valid() && VotesNeedProposal(e) && e.proposal.Some? && c.self.Id? && env.now <= env.later
    requires c.threshold == 2 == |e.prevotes| && e.precommits == map[]
    ensures Enabled(c, e, PrecommitTimerOp(env))
    ensures Step(c, e, PrecommitTimerOp(env)) == Record(e, Precommit, c.self)
  {
    assert Record(e, Precommit, c.self).precommits.Keys == {c.self};
    assert |Record(e, Precommit, c.self).precommits| == 1;
  }

  lemma TwoPrevotes(e: Engine, a: Id, b: Id)
    requires a != b && e.prevotes.Keys == {a, b}
    ensures |e.prevotes| == 2
  {
    assert |{a, b}| == 2;
  }

  /** A block is proposed, this node and one other prevote for it, and this node precommits it. */
  lemma UpToPrecommit(c: Config, run: seq<Engine>, b: Block, other: Id, env: Env) returns (more: seq<Engine>)
    requires run != [] && IsRun(c, run) && TwoVoters(c, run[|run| - 1], other) && env.now <= env.later
    requires Validates(run[|run| - 1], b, run[|run| - 1].proposer)
    ensures IsRun(c, more) && more != [] && more[0] == run[0]
    ensures var e, last := run[|run| - 1], more[|more| - 1];
            && last.proposal.Some? && last.height == e.height && last.proposer == e.proposer && last.running == e.running
            && last.precommits.Keys == {c.self}
            && last.log == e.log + [VoteCast(Prevote, c.self, b.hash), VoteCast(Prevote, other, b.hash),
                                    VoteCast(Precommit, c.self, b.hash)]
  {
    hide IsRun, Step;
    var e := run[|run| - 1];
    var e1 := OpenVoting(c, e, Proposal(b, e.proposer));
    Extend(c, run, ProposeOp(b, e.proposer, env));
    assert Step(c, e, ProposeOp(b, e.proposer, env)) == e1 by { Proposes(c, e, b, env); }
    var run1 := run + [e1];
    Prevotes(c, e1, other, env);
    Extend(c, run1, VoteOp(Prevote, other, env));
    var e2 := Record(e1, Prevote, other);
    var run2 := run1 + [e2];
    TwoPrevotes(e2, c.self, other);
    Precommits(c, e2, env);
    Extend(c, run2, PrecommitTimerOp(env));
    more := run2 + [Record(e2, Precommit, c.self)];
  }

  lemma Proposes(c: Config, e: Engine, b: Block, env: Env)
    requires c.Valid() && VotesNeedProposal(e) && env.now <= env.later && Validates(e, b, e.proposer)
    ensures Step(c, e, ProposeOp(b, e.proposer, env)) == OpenVoting(c, e, Proposal(b, e.proposer))
  {
    hide OpenVoting;
  }

  /** The voting timer of a round that found no quorum of precommits clears it, and another may follow. */
  lemma RoundFails(c: Config, run: seq<Engine>, env: Env) returns (more: seq<Engine>)
    requires run != [] && IsRun(c, run) && c.Valid() && c.threshold == 2 && env.now <= env.later && env.choice.Unchanged?
    requires var e := run[|run| - 1];
             e.running && |c.members| >= c.minValidators && e.proposer != c.self && e.precommits.Keys == {c.self}
    ensures IsRun(c, more) && more != [] && more[0] == run[0]
    ensures var e, last := run[|run| - 1], more[|more| - 1];
            && last.height == e.height && last.proposer == e.proposer && last.roundStart == env.now
            && last.running && last.log == e.log
  {
    hide IsRun;
    var e := run[|run| - 1];
    assert |e.precommits| == 1 by { assert |e.precommits.Keys| == 1; }
    Extend(c, run, VotingTimerOp(env));
    more := run + [Step(c, e, VotingTimerOp(env))];
  }

  /**
   * With a quorum of two, from any new engine, this node precommits two blocks of its choice one after the other at
   * the same height: x, whose round fails, and then y. Nothing has been accepted in between.
   */
  lemma TwoBlocksOneHeight(c: Config, e: Engine, x: Block, y: Block, other: Id, env: Env) returns (run: seq<Engine>)
    requires Initial(e) && e.running && TwoVoters(c, e, other) && |c.members| >= c.minValidators
    requires env.now <= env.later && env.choice.Unchanged?
    requires x.height == y.height == e.height + 1 && x.timestamp >= e.roundStart && y.timestamp >= env.now
    ensures IsRun(c, run) && run[0] == e
    ensures var last := run[|run| - 1];
            && last.height == e.height
            && VoteCast(Precommit, c.self, x.hash) in last.log && VoteCast(Precommit, c.self, y.hash) in last.log
  {
    hide IsRun, Config.Valid;
    StartsRun(c, e);
    var first := UpToPrecommit(c, [e], x, other, env);
    assert first[|first| - 1].log[|e.log| + 2] == VoteCast(Precommit, c.self, x.hash);
    var failed := RoundFails(c, first, env);
    run := UpToPrecommit(c, failed, y, other, env);
    assert run[|run| - 1].log[|failed[|failed| - 1].log| + 2] == VoteCast(Precommit, c.self, y.hash);
  }

  lemma StartsRun(c: Config, e: Engine)
    requires Initial(e)
    ensures IsRun(c, [e])
  {
  }
}
