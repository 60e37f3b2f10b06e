/** Identifiers, durable records and the command vocabulary of the resolution ledger.

    Identifiers, timestamps and versions are natural numbers: only their equality and order are used.
    The 64-bit bound of commit versions is checked explicitly where the ledger checks it.
    Record parts no rule looks into (distributions, diagnostics, payload bytes, quality metadata) are
    one opaque `Payload`.
  */
module Types {

  datatype Option<+T> = None | Some(value: T) {
    function GetOr(default: T): T { if Some? then value else default }
  }

  datatype Result<+T, +E> = Ok(value: T) | Err(error: E)

  /** No element occurs twice. */
  predicate Distinct<T(==)>(s: seq<T>) { forall i, j :: 0 <= i < j < |s| ==> s[i] != s[j] }

  type CommitVersion = nat
  type Timestamp = nat
  type ObservationId = nat
  type InferenceId = nat
  type DecisionId = nat
  type IdentityId = nat
  type TransactionId = nat
  type MaterializationId = nat
  type IdempotencyKey = nat
  type HostEntityRef = nat
  type Payload = seq<nat>

  const MAX_VERSION: nat := 0xFFFF_FFFF_FFFF_FFFF

  /** Half-open durable validity `[begin, end)`; an open interval has no end. */
  datatype VersionInterval = VersionInterval(begin: CommitVersion, end: Option<CommitVersion>) {
    predicate Open() { end.None? }

    predicate Contains(version: CommitVersion) {
      version >= begin && (end.None? || version < end.value)
    }

    /** The update made at every closing site: an end that is not after `begin` is rejected by the
        interval constructor, and the rejection is silently ignored. */
    function ClosedAt(close: CommitVersion): VersionInterval {
      if close <= begin then this else VersionInterval(begin, Some(close))
    }
  }

  datatype Observation = Observation(
    id: ObservationId, eventTime: Timestamp, ingestionTime: Timestamp,
    supersedes: Option<ObservationId>, body: Payload)

  datatype IdentityReference = Latent(identity: IdentityId) | KnownEntity(entity: HostEntityRef)

  datatype DecisionAction =
    | Assign(target: IdentityReference)
    | CreateNew
    | RejectNoise
    | Abstain

  datatype ProviderArtifact = ProviderArtifact(provider: nat, schema: nat, modelVersion: nat, calibrationId: nat)

  datatype InferenceRecord = InferenceRecord(
    id: InferenceId, observation: ObservationId, providers: seq<ProviderArtifact>, solverVersion: nat,
    body: Payload, validity: VersionInterval)

  datatype DecisionRecord = DecisionRecord(
    id: DecisionId, inference: InferenceId, action: DecisionAction,
    policyVersion: nat, lossVersion: nat, validity: VersionInterval)

  datatype IdentityStatus = Active | Dormant | Resolved | Merged | Retired

  datatype RevertMode = Strict | Cascade | Compensating

  datatype HostNodeId = StateNode(state: nat) | EventNode(event: nat) | PhysicalNode(physical: nat)

  datatype HostRole = TriggersRole | LeadsToRole | EvolutionRole | ContainRole | OccurRole | InfluenceRole

  datatype HostRelation =
    | Triggers(state: nat, event: nat)
    | LeadsTo(event: nat, state: nat)
    | Evolution(from: nat, to: nat)
    | Contain(container: nat, contained: nat)
    | Occur(event: nat, physical: nat)
    | Influence(event: nat, physical: nat)
  {
    function Role(): HostRole {
      match this
      case Triggers(_, _) => TriggersRole
      case LeadsTo(_, _) => LeadsToRole
      case Evolution(_, _) => EvolutionRole
      case Contain(_, _) => ContainRole
      case Occur(_, _) => OccurRole
      case Influence(_, _) => InfluenceRole
    }

    function Endpoints(): (HostNodeId, HostNodeId) {
      match this
      case Triggers(s, e) => (StateNode(s), EventNode(e))
      case LeadsTo(e, s) => (EventNode(e), StateNode(s))
      case Evolution(f, t) => (StateNode(f), StateNode(t))
      case Contain(c, d) => (EventNode(c), EventNode(d))
      case Occur(e, p) => (EventNode(e), PhysicalNode(p))
      case Influence(e, p) => (EventNode(e), PhysicalNode(p))
    }
  }

  datatype SplitPartition = SplitPartition(identity: IdentityId, observations: seq<ObservationId>)

  datatype SplitPlan = SplitPlan(
    closeMerges: seq<DecisionId>, partitions: seq<SplitPartition>, invalidateDependents: seq<TransactionId>)

  datatype Command =
    | PersistObservation(observation: Observation)
    | CommitResolution(inference: InferenceRecord, decision: DecisionRecord, created: Option<IdentityId>)
    | CreateIdentity(identity: IdentityId, createdAt: Timestamp)
    | Promote(identity: IdentityId, target: HostEntityRef)
    | Merge(merge: DecisionId, left: IdentityId, right: IdentityId, support: seq<DecisionId>,
            policyVersion: nat, lossVersion: nat)
    | Split(plan: SplitPlan)
    | MakeDormant(identity: IdentityId)
    | Reactivate(identity: IdentityId)
    | Retire(identity: IdentityId)
    | Revert(transaction: TransactionId, mode: RevertMode)
    | Materialized(materialization: MaterializationId, responsible: DecisionId)
    | EnqueueMaterialization(materialization: MaterializationId, responsible: DecisionId, relation: HostRelation)

  datatype Envelope = Envelope(
    transaction: TransactionId, expectedVersion: CommitVersion, idempotency: IdempotencyKey,
    issuedAt: Timestamp, dependsOn: seq<TransactionId>, commands: seq<Command>)

  datatype MergeRecord = MergeRecord(
    decision: DecisionId, left: IdentityId, right: IdentityId, support: seq<DecisionId>,
    policyVersion: nat, lossVersion: nat, validity: VersionInterval, transaction: TransactionId)

  datatype OutboxEntry = OutboxEntry(
    id: MaterializationId, decision: DecisionId, relation: HostRelation, commit: CommitVersion, completed: bool)

  datatype Receipt = Receipt(materialization: MaterializationId, decision: DecisionId, commit: CommitVersion)

  datatype TransactionRecord = TransactionRecord(version: CommitVersion, envelope: Envelope, active: bool)

  datatype CommitResult = CommitResult(version: CommitVersion, replayed: bool)

  datatype LedgerError =
    | Storage
    | CorruptDurableLog
    | VersionConflict(expected: CommitVersion, current: CommitVersion)
    | VersionExhausted
    | IdempotencyCollision
    | DuplicateTransaction(duplicate: TransactionId)
    | ImmutableObservation(immutable: ObservationId)
    | MissingObservation(missing: ObservationId)
    | MissingSupersededObservation(superseded: ObservationId)
    | DuplicateIdentity(duplicated: IdentityId)
    | MissingIdentity(absent: IdentityId)
    | InvalidLifecycle(identity: IdentityId, status: IdentityStatus)
    | DuplicateRecord
    | InvalidLineage
    | IncompleteProvenance
    | InvalidCreation
    | InvalidAssignment
    | MissingDependency(dependency: TransactionId)
    | InvalidMerge
    | InvalidSplit
    | ActiveDependents
    | InvalidRevert
    | DuplicateMaterialization(materialization: MaterializationId)
    | InvalidReceipt
}
