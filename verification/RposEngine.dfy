/**
 The RPoSConsensus class of src/consensus/rpos.js. Its handlers call each other in a circle (a round proposes, a
 proposal is handled, a rejected proposal starts a round, a vote may finalize, a failed vote starts a round); the
 decreases clauses show that no chain of calls goes round twice, and each handler is proved against the round machine.
 */
module RposEngine {
  import opened Wrappers
  import opened Validators
  import Facts
  import Issuance
  import R = Rpos

  class RPoSConsensus {
    const config: R.Config
    var isRunning: bool
    var state: R.Phase
    var activeValidators: nat
    var currentHeight: int
    var currentRound: nat
    var roundStartTime: int
    var currentProposer: Id
    var currentProposal: Option<R.Proposal>
    var prevotes: map<Id, R.Vote>
    var precommits: map<Id, R.Vote>
    var validators: map<Id, Validator>
    var totalSupply: real
    var emitted: seq<R.Event>
    ghost var registry: map<Id, ValidatorData>
    ghost var validatorObjects: set<Validator>

    ghost predicate Ok()
      reads this, validatorObjects
    {
      && config.Valid() && activeValidators == |config.members|
      && R.VotesNeedProposal(View())
      && HoldsValidators(validators, registry, validatorObjects)
    }

    ghost function View(): R.Engine
      reads this
    {
      R.Engine(isRunning, state, currentHeight, currentRound, roundStartTime, currentProposer,
               currentProposal, prevotes, precommits, registry, totalSupply, emitted)
    }

    constructor (config: R.Config)
      requires config.Valid()
      ensures this.config == config && Ok()
      ensures View() == R.Engine(false, R.Syncing, 0, 0, 0, Absent, None, map[], map[], map[], 0.0, [])
    {
      this.config, activeValidators := config, |config.members|;
      isRunning, state, currentHeight, currentRound, roundStartTime := false, R.Syncing, 0, 0, 0;
      currentProposer, currentProposal, prevotes, precommits := Absent, None, map[], map[];
      validators, emitted, registry, validatorObjects, totalSupply := map[], [], map[], {}, 0.0;
    }

    method Threshold() returns (threshold: int)
      requires Ok()
      ensures threshold == config.threshold >= 1
    {
      R.ThresholdPositive(config);
      threshold := R.Ceiling(activeValidators as real * config.votingThreshold);
    }

    // ------------------------------------------------------------------ rounds

    method RunConsensusRound(env: R.Env)
      requires Ok() && env.now <= env.later
      modifies this, validatorObjects
      ensures Ok() && View() == R.NewRound(config, old(View()), env)
      ensures validatorObjects == old(validatorObjects)
      decreases 20
    {
      hide HoldsValidators, R.OpenVoting, R.OwnBlock;
      if !isRunning {
        return;
      }
      if activeValidators < config.minValidators {
        return;
      }
      currentRound, roundStartTime := currentRound + 1, env.now;
      prevotes, precommits, currentProposal := map[], map[], None;
      if env.choice.Chosen? {
        currentProposer := env.choice.address;
      }
      if currentProposer == config.self {
        ProposeBlock(env);
      }
    }

    /** This node's own block always validates, so proposing never comes back to rejecting. */
    method ProposeBlock(env: R.Env)
      requires Ok() && currentProposer == config.self && roundStartTime == env.now <= env.later
      modifies this, validatorObjects
      ensures Ok()
      ensures View() == if config.self.Id?
                        then R.OpenVoting(config, old(View()),
                               R.Proposal(R.OwnBlock(config, old(View()), env.later), config.self))
                        else old(View())
      ensures validatorObjects == old(validatorObjects)
      decreases 15
    {
      hide HoldsValidators;
      if !config.self.Id? {
        return;
      }
      state := R.Proposing;
      var height := currentHeight + 1;
      var block := R.Block(height, config.blockHash(height, env.later), env.later);
      HandleProposedBlock(block, config.self, env);
    }

    method HandleProposedBlock(block: R.Block, proposer: Id, env: R.Env)
      requires Ok() && env.now <= env.later
      modifies this, validatorObjects
      ensures Ok() && View() == R.HandleProposed(config, old(View()), block, proposer, env)
      ensures validatorObjects == old(validatorObjects)
      decreases if R.Validates(View(), block, proposer) then 10 else 30
    {
      hide HoldsValidators;
      if ValidateBlock(block, proposer) {
        currentProposal := Some(R.Proposal(block, proposer));
        StartVotingPhase(env);
      } else {
        RejectBlock(proposer, env);
      }
    }

    predicate ValidateBlock(block: R.Block, proposer: Id)
      reads this
    {
      proposer == currentProposer && block.height == currentHeight + 1 && block.timestamp >= roundStartTime
    }

    method StartVotingPhase(env: R.Env)
      requires config.Valid() && activeValidators == |config.members| && currentProposal.Some?
      requires HoldsValidators(validators, registry, validatorObjects) && env.now <= env.later
      modifies this, validatorObjects
      ensures Ok() && View() == R.OpenVoting(config, old(View()), old(currentProposal).value)
      ensures validatorObjects == old(validatorObjects)
      decreases 9
    {
      hide HoldsValidators;
      state := R.Voting;
      prevotes, precommits := map[], map[];
      if config.self.Id? {
        R.ThresholdPositive(config);
        CastVote(R.Prevote, config.self, CurrentVote(), env);
      }
    }

    // ------------------------------------------------------------------ voting

    /** The vote object both of startVotingPhase's calls build. */
    function CurrentVote(): R.Vote
      requires currentProposal.Some?
      reads this
    {
      R.Vote(currentProposal.value.block.hash, currentProposal.value.block.height, currentRound)
    }

    method CastVote(kind: R.VoteKind, validatorAddress: Id, vote: R.Vote, env: R.Env)
      requires Ok() && currentProposal.Some? && env.now <= env.later
      modifies this, validatorObjects
      ensures Ok() && View() == R.CastAnyVote(config, old(View()), kind, validatorAddress, vote, env)
      ensures validatorObjects == old(validatorObjects)
      decreases if R.Quorum(config, R.RecordVote(View(), kind, validatorAddress, vote)) then 30 else 8
    {
      hide HoldsValidators;
      match kind {
        case Prevote => prevotes := prevotes[validatorAddress := vote];
        case Precommit => precommits := precommits[validatorAddress := vote];
      }
      emitted := emitted + [R.VoteCast(kind, validatorAddress, vote.blockHash)];
      CheckVotingProgress(env);
    }

    method CheckVotingProgress(env: R.Env)
      requires Ok() && currentProposal.Some? && env.now <= env.later
      modifies this, validatorObjects
      ensures Ok()
      ensures View() == if R.Quorum(config, old(View())) then R.Accept(config, old(View()), env) else old(View())
      ensures validatorObjects == old(validatorObjects)
      decreases if R.Quorum(config, View()) then 29 else 7
    {
      hide HoldsValidators;
      var threshold := Threshold();
      if |precommits| >= threshold {
        FinalizeVoting(env);
      }
    }

    method FinalizeVoting(env: R.Env)
      requires Ok() && (R.Quorum(config, View()) ==> currentProposal.Some?) && env.now <= env.later
      modifies this, validatorObjects
      ensures Ok() && View() == R.Finalize(config, old(View()), env)
      ensures validatorObjects == old(validatorObjects)
      decreases 28
    {
      hide HoldsValidators;
      var threshold := Threshold();
      if |precommits| >= threshold {
        state := R.Finalizing;
        AcceptBlock(currentProposal.value.block, currentProposal.value.proposer, env);
      } else {
        currentRound := currentRound + 1;
        RunConsensusRound(env);
      }
    }

    /** The delayed precommit of startVotingPhase. */
    method PrecommitTimeout(env: R.Env)
      requires Ok() && config.self.Id? && env.now <= env.later
      modifies this, validatorObjects
      ensures Ok() && validatorObjects == old(validatorObjects)
      ensures |old(prevotes)| >= config.threshold ==> old(currentProposal).Some?
      ensures View() == R.PrecommitTimer(config, old(View()), env)
    {
      hide HoldsValidators;
      var threshold := Threshold();
      if |prevotes| >= threshold {
        CastVote(R.Precommit, config.self, CurrentVote(), env);
      }
    }

    // ------------------------------------------------- accepting and rejecting

    method AcceptBlock(block: R.Block, proposer: Id, env: R.Env)
      requires Ok() && currentProposal == Some(R.Proposal(block, proposer))
      modifies this`currentHeight, this`currentRound, this`state, this`totalSupply, this`registry, this`emitted
      modifies validatorObjects
      ensures Ok() && View() == R.Accept(config, old(View()), env)
      ensures validatorObjects == old(validatorObjects)
      decreases 5
    {
      hide HoldsValidators, R.AllAfterAccept, R.Awarded, R.Config.Valid;
      Settle(block, proposer, env.now);
    }

    method Settle(block: R.Block, proposer: Id, now: int)
      requires HoldsValidators(validators, registry, validatorObjects)
      modifies this`currentHeight, this`currentRound, this`state, this`totalSupply, this`registry, this`emitted
      modifies validatorObjects
      ensures HoldsValidators(validators, registry, validatorObjects)
      ensures currentHeight == block.height && currentRound == 0 && state == R.Waiting
      ensures registry == R.AllAfterAccept(config, old(registry), proposer, now)
      ensures totalSupply == R.Awarded(config, block.height, old(totalSupply), proposer in old(registry))
      ensures emitted == old(emitted) + [R.Accepted(block.height, block.hash)]
    {
      hide HoldsValidators, R.AllAfterAccept, R.Awarded;
      currentHeight, currentRound := block.height, 0;
      var known := KnownProposer(proposer);
      PayProposer(proposer, known);
      SettleValidators(proposer, now);
      emitted, state := emitted + [R.Accepted(currentHeight, block.hash)], R.Waiting;
    }

    method KnownProposer(proposer: Id) returns (known: bool)
      requires HoldsValidators(validators, registry, validatorObjects)
      ensures known == (proposer in registry)
    {
      known := proposer in validators;
    }

    /** Both awards; nothing between them touches the supply. */
    method PayProposer(proposer: Id, known: bool)
      modifies this`totalSupply
      ensures totalSupply == R.Awarded(config, currentHeight, old(totalSupply), known)
    {
      if known {
        AwardBlockReward();
      }
      AwardBlockReward();
    }

    method SettleValidators(proposer: Id, now: int)
      requires HoldsValidators(validators, registry, validatorObjects)
      modifies this`registry, validatorObjects
      ensures HoldsValidators(validators, registry, validatorObjects)
      ensures registry == R.AllAfterAccept(config, old(registry), proposer, now)
    {
      hide HoldsValidators, Rewarded, OnePoint, JailChecked, R.AllAfterAccept;
      RewardProposer(proposer);
      CheckAndJailValidators(now);
      AddReputation(proposer);
      AcceptedRegistry(config, old(registry), registry, proposer, now);
    }

    method CalculateBlockReward() returns (reward: real)
      ensures reward == R.Award(config, currentHeight, totalSupply)
    {
      var halvings := (if currentHeight < 0 then 0 else currentHeight) / config.halvingInterval;
      Issuance.HalvedIsQuotient(config.blockReward, halvings);
      reward := config.blockReward / Facts.Pow2(halvings) as real;
      if totalSupply + reward > config.maxSupply {
        return Min(config.maxSupply - totalSupply, Issuance.MIN_REWARD);
      }
      return Max(reward, Issuance.MIN_REWARD);
    }

    method AwardBlockReward()
      modifies this`totalSupply
      ensures totalSupply == old(totalSupply) + R.Award(config, currentHeight, old(totalSupply))
    {
      var reward := CalculateBlockReward();
      totalSupply := totalSupply + reward;
    }

    method RewardProposer(proposer: Id)
      requires HoldsValidators(validators, registry, validatorObjects)
      modifies this`registry, validatorObjects
      ensures HoldsValidators(validators, registry, validatorObjects)
      ensures registry == Rewarded(old(registry), proposer)
    {
      if proposer in validators {
        RecordOutcome(validators[proposer], true, 100.0);
        registry := registry[proposer := validators[proposer].View()];
      }
    }

    method AddReputation(proposer: Id)
      requires HoldsValidators(validators, registry, validatorObjects)
      modifies this`registry, validatorObjects
      ensures HoldsValidators(validators, registry, validatorObjects)
      ensures registry == OnePoint(old(registry), proposer)
    {
      if proposer in validators {
        AddPoint(validators[proposer]);
        registry := registry[proposer := validators[proposer].View()];
      }
    }

    method JailCheckAt(address: Id, now: int)
      requires HoldsValidators(validators, registry, validatorObjects) && address in registry
      modifies this`registry, validatorObjects
      ensures HoldsValidators(validators, registry, validatorObjects)
      ensures registry == old(registry)[address := JailCheckedOne(config, old(registry)[address], now)]
    {
      JailCheck(config, validators[address], now);
      registry := registry[address := validators[address].View()];
    }

    method CheckAndJailValidators(now: int)
      requires HoldsValidators(validators, registry, validatorObjects)
      modifies this`registry, validatorObjects
      ensures HoldsValidators(validators, registry, validatorObjects)
      ensures registry == JailChecked(config, old(registry), now)
    {
      var rest := validators.Keys;
      assert rest == registry.Keys;
      hide HoldsValidators;
      while rest != {}
        invariant rest <= registry.Keys == old(registry).Keys
        invariant HoldsValidators(validators, registry, validatorObjects)
        invariant forall a :: a in rest ==> registry[a] == old(registry)[a]
        invariant forall a :: a in registry && a !in rest ==> registry[a] == JailCheckedOne(config, old(registry)[a], now)
      {
        var a :| a in rest;
        JailCheckAt(a, now);
        rest := rest - {a};
      }
    }

    method Penalise(address: Id, now: int)
      requires HoldsValidators(validators, registry, validatorObjects)
      modifies this`registry, validatorObjects
      ensures HoldsValidators(validators, registry, validatorObjects)
      ensures registry == R.Penalised(config, old(registry), address, now)
    {
      if address in validators {
        Miss(config, validators[address], now);
        registry := registry[address := validators[address].View()];
      }
    }

    method RejectBlock(proposer: Id, env: R.Env)
      requires Ok() && env.now <= env.later
      modifies this, validatorObjects
      ensures Ok() && validatorObjects == old(validatorObjects)
      ensures View() == R.NewRound(config,
                          old(View()).(validators := R.Penalised(config, old(registry), proposer, env.now)), env)
      decreases 25
    {
      hide HoldsValidators;
      Penalise(proposer, env.now);
      RunConsensusRound(env);
    }

    method HandleProposalTimeout(env: R.Env)
      requires Ok() && env.now <= env.later
      modifies this, validatorObjects
      ensures Ok() && View() == R.ProposalTimeout(config, old(View()), env)
      ensures validatorObjects == old(validatorObjects)
      decreases 25
    {
      hide HoldsValidators;
      Penalise(currentProposer, env.now);
      RunConsensusRound(env);
    }
  }

  method AddPoint(v: Validator)
    modifies v
    ensures v.View() == old(v.View()).(reputation := old(v.reputation) + 1.0)
  {
    v.reputation := v.reputation + 1.0;
  }

  method RecordOutcome(v: Validator, produced: bool, accuracy: real)
    modifies v
    ensures v.View() == old(v.View()).WithStats(produced)
                        .WithReputation(produced, accuracy, old(v.View()).WithStats(produced).uptime)
  {
    v.UpdateStats(produced);
    v.UpdateReputation(produced, accuracy, v.uptime);
  }

  /** What a rejected block and a proposal timeout both do to the proposer. */
  method Miss(config: R.Config, v: Validator, now: int)
    modifies v
    ensures v.View() == R.Missed(config, old(v.View()), now)
  {
    RecordOutcome(v, false, 0.0);
    var _ := v.CheckAndJailIfNeeded(config.maxMissedBlocks, now, config.jailDuration);
  }

  method JailCheck(config: R.Config, v: Validator, now: int)
    modifies v
    ensures v.View() == JailCheckedOne(config, old(v.View()), now)
  {
    if v.status.Active? {
      var _ := v.CheckAndJailIfNeeded(config.maxMissedBlocks, now, config.jailDuration);
    }
  }

  function Rewarded(vs: map<Id, ValidatorData>, a: Id): map<Id, ValidatorData> {
    if a in vs then vs[a := vs[a].WithStats(true).WithReputation(true, 100.0, vs[a].WithStats(true).uptime)] else vs
  }

  function OnePoint(vs: map<Id, ValidatorData>, a: Id): map<Id, ValidatorData> {
    if a in vs then vs[a := vs[a].(reputation := vs[a].reputation + 1.0)] else vs
  }

  function JailCheckedOne(c: R.Config, v: ValidatorData, now: int): ValidatorData {
    if v.status.Active? then v.AfterJailCheck(c.maxMissedBlocks, now, c.jailDuration) else v
  }

  function JailChecked(c: R.Config, vs: map<Id, ValidatorData>, now: int): map<Id, ValidatorData> {
    map a | a in vs :: JailCheckedOne(c, vs[a], now)
  }

  /** Reward, jail check and bonus point, one after the other, are the one-step update of the round machine. */
  lemma AcceptedRegistry(c: R.Config, before: map<Id, ValidatorData>, after: map<Id, ValidatorData>,
                         proposer: Id, now: int)
    requires after == OnePoint(JailChecked(c, Rewarded(before, proposer), now), proposer)
    ensures after == R.AllAfterAccept(c, before, proposer, now)
  {}
}
