/** A concrete batch that associates one identity twice. */
module PipelineCounterexamples {
  import opened Types
  import opened LedgerSpec
  import opened LedgerRuns
  import opened MemoryLedgers
  import opened HostGraph
  import opened Workspace
  import opened Outbox
  import opened Deliveries
  import opened Batches
  import opened Pipeline

  const SIGHTINGS := [Observation(1, 0, 0, None, []), Observation(2, 0, 0, None, [])]

  /** The first observation is new; the second is assigned to the identity just created. */
  const PROPOSALS := [Proposal([], CreateNew, None), Proposal([], Assign(Latent(1)), None)]

  const SETUP := Configuration([ProviderArtifact(1, 1, 1, 1)], 1, 1, 1)

  const EVIDENCE := EnvelopeOf(1, 0, 0, [], [PersistObservation(SIGHTINGS[0]), PersistObservation(SIGHTINGS[1])])

  const SECOND_IDS := Ids(2, 1, 1, 1, 1)

  const FIRST_RESOLUTION := ResolutionOf(SIGHTINGS[0], PROPOSALS[0], SETUP, SECOND_IDS, 2)

  const SECOND_RESOLUTION := ResolutionOf(SIGHTINGS[1], PROPOSALS[1], SETUP, IdsNext(PROPOSALS[0], SECOND_IDS), 2)

  lemma {:induction false} EvidenceAccepted()
    ensures EvidenceEnvelope(EMPTY, FIRST_IDS, SIGHTINGS, 0) == EVIDENCE && Accepted(EMPTY, EVIDENCE)
  {
    assert EvidenceCommands(SIGHTINGS) == EVIDENCE.commands;
    assert CheckPrefix(EMPTY, 1, EVIDENCE.commands, 0) == Ok(NOTHING_PENDING);
    var p := CheckCommand(EMPTY, NOTHING_PENDING, 1, EVIDENCE.commands[0]);
    assert CheckPrefix(EMPTY, 1, EVIDENCE.commands, 1) == p && p.Ok?;
    assert CheckPrefix(EMPTY, 1, EVIDENCE.commands, 2) == CheckCommand(EMPTY, p.value, 1, EVIDENCE.commands[1]);
    assert FirstInactive(EMPTY, []) == None;
  }

  /** What the ledger holds after the evidence commit. */
  ghost predicate HoldsSightings(l: Ledger) {
    && l.version == 1 && l.observations.Keys == {1, 2} && l.identities == map[] && l.inferences == map[]
    && l.decisions == map[] && l.idempotency.Keys == {1} && l.transactionIndexes == map[1 := 0]
    && l.transactions == [TransactionRecord(1, EVIDENCE, true)]
  }

  lemma {:induction false} EvidenceApplied()
    ensures Accepted(EMPTY, EVIDENCE) && HoldsSightings(Commit(EMPTY, EVIDENCE).0)
  {
    hide Accepted, Prepare;
    EvidenceAccepted();
    CommitIsApply(EMPTY, EVIDENCE);
    assert ApplyPrefix(EMPTY, EVIDENCE, 1, 0) == EMPTY;
    assert ApplyPrefix(EMPTY, EVIDENCE, 1, 1) == ApplyCommand(EMPTY, 1, 1, EVIDENCE.commands[0]);
    assert ApplyPrefix(EMPTY, EVIDENCE, 1, 2) ==
           ApplyCommand(ApplyPrefix(EMPTY, EVIDENCE, 1, 1), 1, 1, EVIDENCE.commands[1]);
  }

  const RESOLUTION := EnvelopeOf(2, 1, 0, [1], [FIRST_RESOLUTION, SECOND_RESOLUTION])

  lemma {:induction false} ResolutionPlanned()
    ensures ResolutionEnvelope(1, SECOND_IDS, SETUP, SIGHTINGS, PROPOSALS, 0, 1) == RESOLUTION
    ensures BatchAssociations(SIGHTINGS, PROPOSALS, 1, 2) == [Association(1, 1), Association(1, 2)]
  {
    assert BatchCommands(SIGHTINGS, PROPOSALS, SETUP, SECOND_IDS, 2, 0) == [];
    assert BatchCommands(SIGHTINGS, PROPOSALS, SETUP, SECOND_IDS, 2, 1) == [FIRST_RESOLUTION];
    assert IdsAfter(PROPOSALS, 1, SECOND_IDS) == IdsNext(PROPOSALS[0], SECOND_IDS);
    assert BatchCommands(SIGHTINGS, PROPOSALS, SETUP, SECOND_IDS, 2, 2) == [FIRST_RESOLUTION, SECOND_RESOLUTION];
    assert BatchAssociations(SIGHTINGS, PROPOSALS, 1, 0) == [];
    assert BatchAssociations(SIGHTINGS, PROPOSALS, 1, 1) == [Association(1, 1)];
    assert Creations(PROPOSALS, 1) == 1;
  }

  lemma {:induction false} ResolutionAccepted(l: Ledger)
    requires HoldsSightings(l)
    ensures Accepted(l, RESOLUTION)
  {
    assert IsActive(l, 1);
    assert FirstInactive(l, [1]) == FirstInactive(l, []) == None;
    assert CheckPrefix(l, 2, RESOLUTION.commands, 0) == Ok(NOTHING_PENDING);
    var p := CheckCommand(l, NOTHING_PENDING, 2, FIRST_RESOLUTION);
    assert CheckPrefix(l, 2, RESOLUTION.commands, 1) == p && p.Ok?;
    assert StatusOf(l, p.value, 1) == Some(Active);
    assert CheckPrefix(l, 2, RESOLUTION.commands, 2) == CheckCommand(l, p.value, 2, SECOND_RESOLUTION);
  }

  /** Validation accepts a batch that creates an identity and assigns a second observation to it. */
  lemma {:induction false} DoubleResolves()
    ensures Resolves(EMPTY, FIRST_IDS, SETUP, SIGHTINGS, PROPOSALS, 0, true, true)
    ensures !DistinctIdentities(BatchAssociations(SIGHTINGS, PROPOSALS, FIRST_IDS.identity, 2))
  {
    hide Accepted, Commit, EvidenceEnvelope, ResolutionEnvelope, BatchAssociations;
    EvidenceAccepted();
    EvidenceApplied();
    ResolutionPlanned();
    ResolutionAccepted(Commit(EMPTY, EVIDENCE).0);
    assert IdsAfter(PROPOSALS, 1, SECOND_IDS) == IdsNext(PROPOSALS[0], SECOND_IDS);
    var all := BatchAssociations(SIGHTINGS, PROPOSALS, FIRST_IDS.identity, 2);
    assert all[0].identity == all[1].identity;
  }

  lemma {:induction false} IssuedAtZero()
    ensures LatestIngestion(SIGHTINGS) == 0
  {
    assert LatestIngestion(SIGHTINGS[..1]) == 0;
  }

  /** That batch, the very first of a new runtime and with everything working, is committed and ends in
      `StaleCommit`; a cache that keeps any history is behind the ledger afterwards. */
  method StaleBatch(historyCapacity: nat)
    returns (runtime: ResolutionRuntime, r: Result<ProcessResult, PipelineError<()>>)
    ensures r == Err(WorkspaceRefused(StaleCommit))
    ensures historyCapacity > 0 ==> !runtime.HotCurrent()
  {
    hide Resolves, DistinctIdentities, BatchAssociations, LatestIngestion, ResolutionRuntime.Valid,
         ResolutionRuntime.HotCurrent;
    var ledger := new MemoryLedger();
    var host := new AuthoritativeHostGraph();
    var workspace := new HotWorkspace();
    runtime := new ResolutionRuntime(ledger, host, workspace, SETUP, historyCapacity);
    DoubleResolves();
    IssuedAtZero();
    r := runtime.ProcessBatch(SIGHTINGS, Ok(PROPOSALS), true, true, _ => Works, _ => true);
  }

  // ----- two sightings of an identity already known -----

  /** What the ledger and the identifiers need for two new sightings of a known identity to be committed. */
  ghost predicate ReadyFor(
    l: Ledger, ids: Ids, c: Configuration, x: IdentityId, first: Observation, second: Observation)
  {
    && IdsFresh(l, ids) && l.version + 1 < MAX_VERSION
    && (forall i {:trigger i in l.inferences} :: i in l.inferences ==> i < ids.inference)
    && (forall d {:trigger d in l.decisions} :: d in l.decisions ==> d < ids.decision)
    && ids.transaction + 1 < MAX_ID && ids.inference + 1 < MAX_ID && ids.decision + 1 < MAX_ID
    && ids.identity <= MAX_ID && ids.materialization <= MAX_ID
    && first.id != second.id && first.id !in l.observations && second.id !in l.observations
    && first.supersedes.None? && second.supersedes.None?
    && x in l.identities && (l.identities[x] == Active || l.identities[x] == Dormant)
    && c.providers != [] && (forall a :: a in c.providers ==> !Incomplete(a))
    && c.solverVersion != 0 && c.policyVersion != 0 && c.lossVersion != 0
  }

  function Sighting(x: IdentityId, body: Payload): Proposal { Proposal(body, Assign(Latent(x)), None) }

  lemma {:induction false} SightingsPersist(
    l: Ledger, ids: Ids, c: Configuration, x: IdentityId, first: Observation, second: Observation, at: Timestamp)
    requires ReadyFor(l, ids, c, x, first, second)
    ensures var e := EvidenceEnvelope(l, ids, [first, second], at);
            && Accepted(l, e) && e.commands == [PersistObservation(first), PersistObservation(second)]
  {
    var e := EvidenceEnvelope(l, ids, [first, second], at);
    assert e.commands == [PersistObservation(first), PersistObservation(second)];
    assert CheckPrefix(l, l.version + 1, e.commands, 0) == Ok(NOTHING_PENDING);
    var p := CheckCommand(l, NOTHING_PENDING, l.version + 1, e.commands[0]);
    assert CheckPrefix(l, l.version + 1, e.commands, 1) == p && p.Ok?;
    assert CheckPrefix(l, l.version + 1, e.commands, 2) == CheckCommand(l, p.value, l.version + 1, e.commands[1]);
    assert FirstInactive(l, []) == None;
  }

  /** Two observations persisted one after the other change nothing but the observations held. */
  lemma {:induction false} BothPersisted(
    l: Ledger, e: Envelope, v: CommitVersion, first: Observation, second: Observation)
    requires e.commands == [PersistObservation(first), PersistObservation(second)]
    ensures var m := ApplyPrefix(l, e, v, 2);
            && m.observations.Keys == l.observations.Keys + {first.id, second.id}
            && m.identities == l.identities && m.inferences == l.inferences && m.decisions == l.decisions
  {
    assert ApplyPrefix(l, e, v, 0) == l;
    assert ApplyPrefix(l, e, v, 1) == ApplyCommand(l, e.transaction, v, e.commands[0]);
    assert ApplyPrefix(l, e, v, 2) == ApplyCommand(ApplyPrefix(l, e, v, 1), e.transaction, v, e.commands[1]);
  }

  /** The evidence commit adds the observations and its own log entry. */
  lemma {:induction false} SightingsHeld(
    l: Ledger, ids: Ids, c: Configuration, x: IdentityId, first: Observation, second: Observation, at: Timestamp)
    requires ReadyFor(l, ids, c, x, first, second)
    ensures var now := Commit(l, EvidenceEnvelope(l, ids, [first, second], at)).0;
            && now.version == l.version + 1 && now.observations.Keys == l.observations.Keys + {first.id, second.id}
            && now.identities == l.identities && now.inferences == l.inferences && now.decisions == l.decisions
            && now.idempotency.Keys == l.idempotency.Keys + {ids.transaction}
            && now.transactionIndexes.Keys == l.transactionIndexes.Keys + {ids.transaction}
            && IsActive(now, ids.transaction)
  {
    hide Accepted, Commit, Prepare, IdsFresh, Incomplete, AddDependents, ApplyPrefix;
    var e, v := EvidenceEnvelope(l, ids, [first, second], at), l.version + 1;
    SightingsPersist(l, ids, c, x, first, second, at);
    CommitIsApply(l, e);
    assert AllPlain(e.commands);
    PlainCommit(l, e);
    BothPersisted(l, e, v, first, second);
  }

  lemma {:induction false} SightingsPlanned(
    c: Configuration, ids: Ids, x: IdentityId, first: Observation, second: Observation, a: Payload, b: Payload,
    v: CommitVersion, f: IdentityId)
    ensures var proposals := [Sighting(x, a), Sighting(x, b)];
            && BatchCommands([first, second], proposals, c, ids, v, 2) ==
               [ResolutionOf(first, proposals[0], c, ids, v),
                ResolutionOf(second, proposals[1], c, IdsNext(proposals[0], ids), v)]
            && IdsAfter(proposals, 2, ids) == ids.(inference := ids.inference + 2, decision := ids.decision + 2)
            && BatchAssociations([first, second], proposals, f, 2) ==
               [Association(x, first.id), Association(x, second.id)]
  {
    var observations, proposals := [first, second], [Sighting(x, a), Sighting(x, b)];
    assert IdsAfter(proposals, 1, ids) == IdsNext(proposals[0], IdsAfter(proposals, 0, ids));
    assert BatchCommands(observations, proposals, c, ids, v, 0) == [];
    assert BatchCommands(observations, proposals, c, ids, v, 1) == [ResolutionOf(first, proposals[0], c, ids, v)];
    assert BatchAssociations(observations, proposals, f, 0) == [];
    assert BatchAssociations(observations, proposals, f, 1) == [Association(x, first.id)];
  }

  lemma {:induction false} SightingsResolve(
    now: Ledger, ids: Ids, c: Configuration, x: IdentityId, first: Observation, second: Observation, a: Payload,
    b: Payload, e: Envelope)
    requires now.version < MAX_VERSION && first.id in now.observations && second.id in now.observations
    requires x in now.identities && (now.identities[x] == Active || now.identities[x] == Dormant)
    requires ids.inference !in now.inferences && ids.inference + 1 !in now.inferences
    requires ids.decision !in now.decisions && ids.decision + 1 !in now.decisions
    requires c.providers != [] && (forall p :: p in c.providers ==> !Incomplete(p))
    requires c.solverVersion != 0 && c.policyVersion != 0 && c.lossVersion != 0
    requires e.commands == [ResolutionOf(first, Sighting(x, a), c, ids, now.version + 1),
                            ResolutionOf(second, Sighting(x, b), c, IdsNext(Sighting(x, a), ids), now.version + 1)]
    ensures CheckPrefix(now, now.version + 1, e.commands, 2).Ok?
  {
    var v := now.version + 1;
    assert CheckPrefix(now, v, e.commands, 0) == Ok(NOTHING_PENDING);
    var p := CheckCommand(now, NOTHING_PENDING, v, e.commands[0]);
    assert CheckPrefix(now, v, e.commands, 1) == p && p.Ok?;
    assert CheckPrefix(now, v, e.commands, 2) == CheckCommand(now, p.value, v, e.commands[1]);
  }

  /** In every such state both commits go through, whatever else the ledger holds. */
  lemma {:induction false} KnownTwiceResolves(
    l: Ledger, ids: Ids, c: Configuration, x: IdentityId, first: Observation, second: Observation, a: Payload,
    b: Payload, at: Timestamp)
    requires ReadyFor(l, ids, c, x, first, second)
    ensures Resolves(l, ids, c, [first, second], [Sighting(x, a), Sighting(x, b)], at, true, true)
    ensures !DistinctIdentities(
              BatchAssociations([first, second], [Sighting(x, a), Sighting(x, b)], ids.identity, 2))
  {
    hide Commit, EvidenceEnvelope, ResolutionOf, BatchCommands, BatchAssociations, IdsAfter, CheckPrefix, IsActive,
         Incomplete;
    var observations, proposals := [first, second], [Sighting(x, a), Sighting(x, b)];
    var now, next := Commit(l, EvidenceEnvelope(l, ids, observations, at)).0, NextTransaction(ids);
    SightingsPersist(l, ids, c, x, first, second, at);
    SightingsHeld(l, ids, c, x, first, second, at);
    SightingsPlanned(c, next, x, first, second, a, b, now.version + 1, ids.identity);
    var e := ResolutionEnvelope(now.version, next, c, observations, proposals, at, ids.transaction);
    SightingsResolve(now, next, c, x, first, second, a, b, e);
    OneDependency(now, ids.transaction);
    var all := BatchAssociations(observations, proposals, ids.identity, 2);
    assert all[0].identity == all[1].identity;
  }

  lemma {:induction false} OneDependency(l: Ledger, t: TransactionId)
    requires IsActive(l, t)
    ensures FirstInactive(l, [t]) == None
  {
    assert FirstInactive(l, [t]) == FirstInactive(l, []);
  }

  /** Two new sightings of one known identity in one batch end in `StaleCommit` on any runtime. */
  method SeenTwice(
    runtime: ResolutionRuntime, x: IdentityId, first: Observation, second: Observation, a: Payload, b: Payload)
    returns (r: Result<ProcessResult, PipelineError<()>>)
    requires runtime.Valid()
    requires ReadyFor(runtime.ledger.View(), runtime.ids, runtime.configuration, x, first, second)
    modifies runtime, runtime.ledger, runtime.host, runtime.workspace
    ensures runtime.Valid() && r == Err(WorkspaceRefused(StaleCommit))
    ensures old(runtime.HotCurrent()) && runtime.historyCapacity > 0 ==> !runtime.HotCurrent()
  {
    hide Resolves, DistinctIdentities, BatchAssociations, LatestIngestion, ReadyFor, ResolutionRuntime.Valid,
         ResolutionRuntime.HotCurrent, MemoryLedger.View;
    var observations, proposals := [first, second], [Sighting(x, a), Sighting(x, b)];
    KnownTwiceResolves(runtime.ledger.View(), runtime.ids, runtime.configuration, x, first, second, a, b,
                       LatestIngestion(observations));
    r := runtime.ProcessBatch(observations, Ok(proposals), true, true, _ => Works, _ => true);
  }
}
