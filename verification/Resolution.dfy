/** A whole batch from its providers to the ledger: inference, decisions, commits. */
module Resolution {
  import opened Types
  import opened LedgerSpec
  import opened Outbox
  import opened Batches
  import opened Pipeline
  import MemoryLedgers
  import Candidates
  import FactorGraphs
  import SumProduct
  import Decisions
  import Inference

  /** What the pipeline takes from outside to turn a decision into a proposal: the identity behind a candidate number,
      the record's contents, and the planner. */
  datatype Planner = Planner(
    name: nat -> IdentityReference,
    body: Decisions.NormalizedDistribution -> Payload,
    plan: (Observation, DecisionAction) -> Option<HostRelation>)

  function ActionOf(planner: Planner, action: Decisions.PolicyAction): DecisionAction {
    match action
    case Assign(x) => DecisionAction.Assign(planner.name(x))
    case CreateIdentity => CreateNew
    case RejectNoise => DecisionAction.RejectNoise
    case Abstain => DecisionAction.Abstain
  }

  /** What is committed for each action: the assignment to the candidate's identity, a creation, a rejection or an
      abstention. */
  predicate Means(planner: Planner, action: Decisions.PolicyAction, committed: DecisionAction) {
    match action
    case Assign(x) => committed.Assign? && committed.target == planner.name(x)
    case CreateIdentity => committed.CreateNew?
    case RejectNoise => committed.RejectNoise?
    case Abstain => committed.Abstain?
  }

  function ProposalOf(planner: Planner, o: Observation, d: Inference.Decided): Proposal {
    Proposal(planner.body(d.posterior), ActionOf(planner, d.action), planner.plan(o, ActionOf(planner, d.action)))
  }

  function ProposalsOf(planner: Planner, observations: seq<Observation>, decided: seq<Inference.Decided>)
    : (proposals: seq<Proposal>)
    requires |decided| == |observations|
    ensures |proposals| == |observations|
  {
    seq(|observations|, v requires 0 <= v < |observations| => ProposalOf(planner, observations[v], decided[v]))
  }

  /** `p` proposes the first least-loss action of observation `v`, with the record of its posterior and the host write
      planned for that action. */
  ghost predicate ProposesBest(
    planner: Planner, solver: SumProduct.SumProductConfig, loss: Decisions.LossModel, groups: seq<seq<nat>>,
    factors: seq<FactorGraphs.FactorTable>, o: Observation, v: nat, p: Proposal)
    requires v < |groups|
  {
    && p.relation == planner.plan(o, p.action)
    && exists d: Inference.Decided {:trigger Inference.DecidesBest(solver, loss, groups, factors, v, d)} ::
         && Inference.DecidesBest(solver, loss, groups, factors, v, d)
         && Means(planner, d.action, p.action) && p.body == planner.body(d.posterior)
  }

  lemma {:induction false} CommitsBoth<E>(
    runtime: ResolutionRuntime, observations: seq<Observation>, proposals: Result<seq<Proposal>, E>,
    evidenceStored: bool, resolutionStored: bool)
    requires runtime.Commits(observations, proposals, evidenceStored, resolutionStored)
    ensures proposals.Ok? && runtime.CommitsEvidence(observations, evidenceStored)
  {
    hide Accepted, Commit;
  }

  /** Commits what inference decided about a batch. */
  method CommitDecided(
    runtime: ResolutionRuntime, observations: seq<Observation>,
    inferred: Result<seq<Inference.Decided>, Inference.InferenceError>, planner: Planner,
    evidenceStored: bool, resolutionStored: bool, faults: nat -> Fault, receiptsStored: nat -> bool)
    returns (r: Result<ProcessResult, PipelineError<Inference.InferenceError>>)
    requires runtime.Valid() && (inferred.Ok? ==> |inferred.value| == |observations|)
    modifies runtime`ids, runtime`pending, runtime.ledger, runtime.host, runtime.workspace
    ensures runtime.Valid()
    ensures observations == [] <==> r == Err(EmptyBatch)
    ensures r.Ok? ==> inferred.Ok?
                      && BatchLogged(runtime.ledger.View().transactions, |old(runtime.ledger.View().transactions)|,
                                     observations, ProposalsOf(planner, observations, inferred.value),
                                     runtime.configuration, r.value.decisions)
    ensures (r.Err? && r.error.InferenceFailed?) <==>
            old(runtime.CommitsEvidence(observations, evidenceStored)) && inferred.Err?
    ensures r.Err? && r.error.InferenceFailed? ==> r.error.error == inferred.error
    ensures inferred.Err? ==>
              r.Err? && runtime.ledger.View().transactions ==
                old(runtime.ledger.View().transactions)
                + if old(runtime.CommitsEvidence(observations, evidenceStored))
                  then [old(runtime.EvidenceEntry(observations))] else []
    ensures !old(runtime.CommitsEvidence(observations, evidenceStored)) ==>
              r.Err? && runtime.ledger.View().transactions == old(runtime.ledger.View().transactions)
  {
    hide ResolutionRuntime.Valid, ResolutionRuntime.HotCurrent, ResolutionRuntime.CommitsEvidence,
         ResolutionRuntime.Commits, ResolutionRuntime.EvidenceEntry, ResolutionRuntime.ResolutionEntry, Extends,
         BatchDecisions, BatchAssociations, BatchLogged, MemoryLedgers.MemoryLedger.View;
    var proposals :=
      if inferred.Ok? then Ok(ProposalsOf(planner, observations, inferred.value)) else Err(inferred.error);
    if runtime.Commits(observations, proposals, evidenceStored, resolutionStored) {
      CommitsBoth(runtime, observations, proposals, evidenceStored, resolutionStored);
    }
    r := runtime.ProcessBatch(observations, proposals, evidenceStored, resolutionStored, faults, receiptsStored);
  }

  /** Resolves a batch. Inference looks at neither ledger nor cache, so it may be computed ahead of the evidence commit
      that precedes it. A completed batch is in the log as proposed, and what is proposed for each observation is the
      first action of least expected loss under its posterior, which on a forest is the exact marginal. */
  method ResolveBatch(
    runtime: ResolutionRuntime, observations: seq<Observation>, providers: seq<Inference.Provider>,
    solver: SumProduct.SumProductConfig, loss: Decisions.LossModel, planner: Planner,
    buffer: Candidates.CandidateBuffer, scratch: Candidates.CandidateBuffer,
    evidenceStored: bool, resolutionStored: bool, faults: nat -> Fault, receiptsStored: nat -> bool)
    returns (r: Result<ProcessResult, PipelineError<Inference.InferenceError>>, ghost proposals: seq<Proposal>)
    requires runtime.Valid() && SumProduct.ValidConfig(solver) && Inference.EmitTables(providers) && buffer != scratch
    modifies buffer, scratch, runtime`ids, runtime`pending, runtime.ledger, runtime.host, runtime.workspace
    ensures runtime.Valid()
    ensures observations == [] <==> r == Err(EmptyBatch)
    ensures var inputs := Inference.BatchInputs(|observations|, providers);
            && (r.Ok? ==>
                  && inputs.Ok? && |inputs.value.0| == |proposals| == |observations|
                  && (forall v: nat {:trigger proposals[v]} :: v < |observations| ==>
                        ProposesBest(planner, solver, loss, inputs.value.0, inputs.value.1, observations[v], v,
                                     proposals[v]))
                  && BatchLogged(runtime.ledger.View().transactions, |old(runtime.ledger.View().transactions)|,
                                 observations, proposals, runtime.configuration, r.value.decisions))
            && (inputs.Err? ==>
                  r.Err? && (old(runtime.CommitsEvidence(observations, evidenceStored)) ==>
                               r.error == InferenceFailed(inputs.error)))
    ensures !old(runtime.CommitsEvidence(observations, evidenceStored)) ==>
              r.Err? && runtime.ledger.View().transactions == old(runtime.ledger.View().transactions)
    ensures r.Err? && r.error.InferenceFailed? ==>
              runtime.ledger.View().transactions ==
              old(runtime.ledger.View().transactions) + [old(runtime.EvidenceEntry(observations))]
  {
    hide ResolutionRuntime.Valid, ResolutionRuntime.CommitsEvidence, ResolutionRuntime.EvidenceEntry, BatchLogged,
         MemoryLedgers.MemoryLedger.View, Inference.BatchInputs, Inference.DecidesBest, Inference.EmitTables,
         SumProduct.ValidConfig;
    ghost var commits := runtime.CommitsEvidence(observations, evidenceStored);
    ghost var before := runtime.ledger.View().transactions;
    ghost var entry := runtime.EvidenceEntry(observations);
    var inferred := Inference.Infer(|observations|, providers, solver, loss, buffer, scratch);
    assert runtime.CommitsEvidence(observations, evidenceStored) == commits;
    assert runtime.ledger.View().transactions == before && runtime.EvidenceEntry(observations) == entry;
    r := CommitDecided(
      runtime, observations, inferred, planner, evidenceStored, resolutionStored, faults, receiptsStored);
    proposals := if inferred.Ok? then ProposalsOf(planner, observations, inferred.value) else [];
    if r.Ok? {
      ghost var inputs := Inference.BatchInputs(|observations|, providers).value;
      forall v: nat | v < |observations|
        ensures ProposesBest(planner, solver, loss, inputs.0, inputs.1, observations[v], v, proposals[v])
      {
        assert Inference.DecidesBest(solver, loss, inputs.0, inputs.1, v, inferred.value[v]);
      }
    }
  }
}
