/** What the ledger means: one immutable value per state and one function per transition.

    The value has no canonical forest. The canonical identity is a function of the open merges
    (`CanonicalOf`); the mutable ledger keeps a forest and is proved to agree with it.
  */
module LedgerSpec {
  import opened Types
  import opened Canonical

  datatype Ledger = Ledger(
    version: CommitVersion,
    observations: map<ObservationId, Observation>,
    observationCommits: map<ObservationId, CommitVersion>,
    inferences: map<InferenceId, InferenceRecord>,
    decisions: map<DecisionId, DecisionRecord>,
    currentInference: map<ObservationId, InferenceId>,
    currentDecision: map<ObservationId, DecisionId>,
    identities: map<IdentityId, IdentityStatus>,
    promotions: map<IdentityId, HostEntityRef>,
    merges: map<DecisionId, MergeRecord>,
    outbox: map<MaterializationId, OutboxEntry>,
    receipts: seq<Receipt>,
    transactions: seq<TransactionRecord>,
    transactionIndexes: map<TransactionId, nat>,
    dependents: map<TransactionId, seq<TransactionId>>,
    idempotency: map<IdempotencyKey, (CommitVersion, TransactionId)>)

  const EMPTY :=
    Ledger(0, map[], map[], map[], map[], map[], map[], map[], map[], map[], map[], [], [], map[], map[], map[])

  // ----- canonical classes -----

  /** Endpoints of the merges that are still open. */
  function OpenMerges(l: Ledger): set<(IdentityId, IdentityId)> {
    set d | d in l.merges && l.merges[d].validity.Open() :: (l.merges[d].left, l.merges[d].right)
  }

  ghost function CanonicalOf(l: Ledger, x: IdentityId): Option<IdentityId> {
    if x in l.identities then Some(ClassMinimum(OpenMerges(l), l.identities.Keys, x)) else None
  }

  // ----- validation -----

  /** What earlier commands of the batch add while it is validated; `statuses` overlays the ledger's. */
  datatype Pending = Pending(
    observations: set<ObservationId>, statuses: map<IdentityId, IdentityStatus>,
    inferences: set<InferenceId>, decisions: set<DecisionId>, materializations: set<MaterializationId>)

  const NOTHING_PENDING := Pending({}, map[], {}, {}, {})

  function StatusOf(l: Ledger, p: Pending, x: IdentityId): Option<IdentityStatus> {
    if x in p.statuses then Some(p.statuses[x])
    else if x in l.identities then Some(l.identities[x])
    else None
  }

  function InsertNew(l: Ledger, p: Pending, x: IdentityId): Result<Pending, LedgerError> {
    if StatusOf(l, p, x).Some? then Err(DuplicateIdentity(x)) else Ok(p.(statuses := p.statuses[x := Active]))
  }

  function Transition(l: Ledger, p: Pending, x: IdentityId, from: set<IdentityStatus>, to: IdentityStatus)
    : Result<Pending, LedgerError>
  {
    match StatusOf(l, p, x)
    case None => Err(MissingIdentity(x))
    case Some(s) => if s in from then Ok(p.(statuses := p.statuses[x := to])) else Err(InvalidLifecycle(x, s))
  }

  predicate IsActive(l: Ledger, t: TransactionId) {
    t in l.transactionIndexes && l.transactionIndexes[t] < |l.transactions|
    && l.transactions[l.transactionIndexes[t]].active
  }

  function CheckCreation(l: Ledger, p: Pending, action: DecisionAction, created: Option<IdentityId>)
    : Result<Pending, LedgerError>
  {
    match (action, created)
    case (CreateNew, Some(x)) => InsertNew(l, p, x)
    case (CreateNew, None) => Err(InvalidCreation)
    case (Assign(Latent(x)), None) =>
      (match StatusOf(l, p, x)
       case None => Err(MissingIdentity(x))
       case Some(s) => if s == Active || s == Dormant then Ok(p) else Err(InvalidAssignment))
    case (_, None) => Ok(p)
    case (_, Some(_)) => Err(InvalidCreation)
  }

  predicate Incomplete(a: ProviderArtifact) {
    a.provider == 0 || a.schema == 0 || a.modelVersion == 0 || a.calibrationId == 0
  }

  function CheckResolution(
    l: Ledger, p: Pending, next: CommitVersion, inference: InferenceRecord, decision: DecisionRecord,
    created: Option<IdentityId>): Result<Pending, LedgerError>
 
  {
    if inference.observation !in l.observations && inference.observation !in p.observations then
      Err(MissingObservation(inference.observation))
    else if inference.id in l.inferences || inference.id in p.inferences
            || decision.id in l.decisions || decision.id in p.decisions then
      Err(DuplicateRecord)
    else if decision.inference != inference.id
            || inference.validity != VersionInterval(next, None)
               || decision.validity != VersionInterval(next, None) then
      Err(InvalidLineage)
    else if inference.providers == []
            || (exists a :: a in inference.providers && Incomplete(a))
            || inference.solverVersion == 0 || decision.policyVersion == 0 || decision.lossVersion == 0 then
      Err(IncompleteProvenance)
    else
      CheckCreation(l, p.(inferences := p.inferences + {inference.id}, decisions := p.decisions + {decision.id}),
                    decision.action, created)
  }

  predicate Mergeable(s: IdentityStatus) { s == Active || s == Dormant || s == Merged }

  function CheckEndpoint(l: Ledger, p: Pending, x: IdentityId): Option<LedgerError> {
    match StatusOf(l, p, x)
    case None => Some(MissingIdentity(x))
    case Some(s) => if Mergeable(s) then None else Some(InvalidMerge)
  }

  function CheckMerge(l: Ledger, p: Pending, c: Command): Result<Pending, LedgerError>
    requires c.Merge?
  {
    if c.left == c.right || c.merge in l.decisions || c.merge in l.merges || c.merge in p.decisions then
      Err(InvalidMerge)
    else
      var p' := p.(decisions := p.decisions + {c.merge});
      if CheckEndpoint(l, p', c.left).Some? then Err(CheckEndpoint(l, p', c.left).value)
      else if CheckEndpoint(l, p', c.right).Some? then Err(CheckEndpoint(l, p', c.right).value)
      else if exists d :: d in c.support && d !in l.decisions && d !in p'.decisions then Err(InvalidMerge)
      else Ok(p')
  }

  function FirstMissing(l: Ledger, p: Pending, observations: seq<ObservationId>): Option<ObservationId> {
    if observations == [] then None
    else if observations[0] !in l.observations && observations[0] !in p.observations then Some(observations[0])
    else FirstMissing(l, p, observations[1..])
  }

  function CheckPartitions(l: Ledger, p: Pending, parts: seq<SplitPartition>): Result<Pending, LedgerError>
    decreases |parts|
  {
    if parts == [] then Ok(p)
    else if StatusOf(l, p, parts[0].identity).None? then Err(MissingIdentity(parts[0].identity))
    else
      match FirstMissing(l, p, parts[0].observations)
      case Some(o) => Err(MissingObservation(o))
      case None => CheckPartitions(l, p.(statuses := p.statuses[parts[0].identity := Active]), parts[1..])
  }

  predicate OpenMerge(l: Ledger, d: DecisionId) { d in l.merges && l.merges[d].validity.Open() }

  function CheckRevert(l: Ledger, p: Pending, t: TransactionId, mode: RevertMode): Result<Pending, LedgerError> {
    if !IsActive(l, t) then Err(InvalidRevert)
    else if mode == Strict && t in l.dependents && exists d :: d in l.dependents[t] && IsActive(l, d) then
      Err(ActiveDependents)
    else Ok(p)
  }

  /** One command against the ledger as it was before the batch, plus what the batch has pending. */
  function CheckCommand(l: Ledger, p: Pending, next: CommitVersion, c: Command): Result<Pending, LedgerError> {
    match c
    case PersistObservation(o) =>
      if o.id in l.observations || o.id in p.observations then Err(ImmutableObservation(o.id))
      else
        var p' := p.(observations := p.observations + {o.id});
        if o.supersedes.Some? && o.supersedes.value !in l.observations && o.supersedes.value !in p'.observations
        then Err(MissingSupersededObservation(o.supersedes.value))
        else Ok(p')
    case CommitResolution(i, d, created) => CheckResolution(l, p, next, i, d, created)
    case CreateIdentity(x, _) => InsertNew(l, p, x)
    case Promote(x, _) => Transition(l, p, x, {Active, Dormant}, Resolved)
    case Merge(_, _, _, _, _, _) => CheckMerge(l, p, c)
    case Split(plan) =>
      if exists d :: d in plan.closeMerges && !OpenMerge(l, d) then Err(InvalidSplit)
      else CheckPartitions(l, p, plan.partitions)
    case MakeDormant(x) => Transition(l, p, x, {Active}, Dormant)
    case Reactivate(x) => Transition(l, p, x, {Dormant}, Active)
    case Retire(x) => Transition(l, p, x, {Active, Dormant}, Retired)
    case Revert(t, mode) => CheckRevert(l, p, t, mode)
    case EnqueueMaterialization(m, d, _) =>
      if m in l.outbox || m in p.materializations then Err(DuplicateMaterialization(m))
      else if d !in l.decisions && d !in p.decisions then Err(InvalidLineage)
      else Ok(p.(materializations := p.materializations + {m}))
    case Materialized(m, d) =>
      if m in l.outbox && !l.outbox[m].completed && l.outbox[m].decision == d then Ok(p) else Err(InvalidReceipt)
  }

  /** The first `i` commands; the first failing command decides the error. */
  function CheckPrefix(l: Ledger, next: CommitVersion, commands: seq<Command>, i: nat): Result<Pending, LedgerError>
    requires i <= |commands|
  {
    if i == 0 then Ok(NOTHING_PENDING)
    else
      match CheckPrefix(l, next, commands, i - 1)
      case Err(e) => Err(e)
      case Ok(p) => CheckCommand(l, p, next, commands[i - 1])
  }

  function FirstInactive(l: Ledger, dependencies: seq<TransactionId>): Option<TransactionId> {
    if dependencies == [] then None
    else if !IsActive(l, dependencies[0]) then Some(dependencies[0])
    else FirstInactive(l, dependencies[1..])
  }

  function Validate(l: Ledger, e: Envelope): Result<CommitVersion, LedgerError> {
    if e.expectedVersion != l.version then Err(VersionConflict(e.expectedVersion, l.version))
    else if e.transaction in l.transactionIndexes then Err(DuplicateTransaction(e.transaction))
    else if l.version >= MAX_VERSION then Err(VersionExhausted)
    else
      match FirstInactive(l, e.dependsOn)
      case Some(t) => Err(MissingDependency(t))
      case None =>
        match CheckPrefix(l, l.version + 1, e.commands, |e.commands|)
        case Err(error) => Err(error)
        case Ok(_) => Ok(l.version + 1)
  }

  // ----- effects -----

  function ClosedInferences(m: map<InferenceId, InferenceRecord>, i: InferenceId, end: CommitVersion)
    : map<InferenceId, InferenceRecord>
  {
    if i in m then m[i := m[i].(validity := m[i].validity.ClosedAt(end))] else m
  }

  function ClosedDecisions(m: map<DecisionId, DecisionRecord>, d: DecisionId, end: CommitVersion)
    : map<DecisionId, DecisionRecord>
  {
    if d in m then m[d := m[d].(validity := m[d].validity.ClosedAt(end))] else m
  }

  function ClosedMerges(
    m: map<DecisionId, MergeRecord>, d: DecisionId, end: CommitVersion)
    : map<DecisionId, MergeRecord>
  {
    if d in m then m[d := m[d].(validity := m[d].validity.ClosedAt(end))] else m
  }

  function CloseInference(l: Ledger, i: InferenceId, end: CommitVersion): Ledger {
    l.(inferences := ClosedInferences(l.inferences, i, end))
  }

  function CloseDecision(l: Ledger, d: DecisionId, end: CommitVersion): Ledger {
    l.(decisions := ClosedDecisions(l.decisions, d, end))
  }

  function CloseMerge(l: Ledger, d: DecisionId, end: CommitVersion): Ledger {
    l.(merges := ClosedMerges(l.merges, d, end))
  }

  function CurrentClosedInferences(l: Ledger, o: ObservationId, end: CommitVersion): map<InferenceId, InferenceRecord> {
    if o in l.currentInference then ClosedInferences(l.inferences, l.currentInference[o], end) else l.inferences
  }

  function CurrentClosedDecisions(l: Ledger, o: ObservationId, end: CommitVersion): map<DecisionId, DecisionRecord> {
    if o in l.currentDecision then ClosedDecisions(l.decisions, l.currentDecision[o], end) else l.decisions
  }

  function CloseCurrent(l: Ledger, o: ObservationId, end: CommitVersion): Ledger {
    l.(inferences := CurrentClosedInferences(l, o, end), decisions := CurrentClosedDecisions(l, o, end))
  }

  /** Status side of a canonical rebuild: whoever is not its class minimum becomes `Merged`. */
  ghost function Rebuilt(l: Ledger): Ledger {
    l.(identities := map x | x in l.identities :: RebuiltStatus(l, x))
  }

  ghost function RebuiltStatus(l: Ledger, x: IdentityId): IdentityStatus
    requires x in l.identities
  {
    if CanonicalOf(l, x) == Some(x) then l.identities[x] else Merged
  }

  function Born(
    identities: map<IdentityId, IdentityStatus>, created: Option<IdentityId>)
    : map<IdentityId, IdentityStatus>
  {
    if created.Some? then identities[created.value := Active] else identities
  }

  /** Closes the observation's current records, then makes the new ones current. */
  function Resolve(l: Ledger, i: InferenceRecord, d: DecisionRecord, created: Option<IdentityId>, v: CommitVersion)
    : Ledger
  {
    l.(currentInference := l.currentInference[i.observation := i.id],
       currentDecision := l.currentDecision[i.observation := d.id],
       inferences := CurrentClosedInferences(l, i.observation, v)[i.id := i],
       decisions := CurrentClosedDecisions(l, i.observation, v)[d.id := d],
       identities := Born(l.identities, created))
  }

  /** Two classes become one: the larger minimum is `Merged`, a `Merged` smaller one comes back. */
  function AfterUnion(identities: map<IdentityId, IdentityStatus>, minimum: IdentityId, replaced: IdentityId)
    : map<IdentityId, IdentityStatus>
  {
    var marked := identities[replaced := Merged];
    if minimum in marked && marked[minimum] == Merged then marked[minimum := Active] else marked
  }

  function RecordOf(c: Command, transaction: TransactionId, v: CommitVersion): MergeRecord
    requires c.Merge?
  {
    MergeRecord(
      c.merge, c.left, c.right, c.support, c.policyVersion, c.lossVersion, VersionInterval(v, None), transaction)
  }

  /** The class minima a merge of two known, separate classes keeps and replaces. */
  ghost function UnitedMinima(l: Ledger, left: IdentityId, right: IdentityId): Option<(IdentityId, IdentityId)> {
    if left in l.identities && right in l.identities
    then Survivor(CanonicalOf(l, left).value, CanonicalOf(l, right).value)
    else None
  }

  ghost function MergedStatuses(l: Ledger, left: IdentityId, right: IdentityId): map<IdentityId, IdentityStatus> {
    match UnitedMinima(l, left, right)
    case None => l.identities
    case Some((minimum, replaced)) => AfterUnion(l.identities, minimum, replaced)
  }

  ghost function MergeIdentities(l: Ledger, c: Command, transaction: TransactionId, v: CommitVersion): Ledger
    requires c.Merge?
  {
    l.(merges := l.merges[c.merge := RecordOf(c, transaction, v)], identities := MergedStatuses(l, c.left, c.right))
  }

  function CloseMerges(l: Ledger, ds: seq<DecisionId>, i: nat, v: CommitVersion): Ledger
    requires i <= |ds|
  {
    if i == 0 then l else CloseMerge(CloseMerges(l, ds, i - 1, v), ds[i - 1], v)
  }

  function Reopen(identities: map<IdentityId, IdentityStatus>, parts: seq<SplitPartition>, i: nat)
    : map<IdentityId, IdentityStatus>
    requires i <= |parts|
  {
    if i == 0 then identities else Reopen(identities, parts, i - 1)[parts[i - 1].identity := Active]
  }

  ghost function SplitIdentities(l: Ledger, plan: SplitPlan, v: CommitVersion): Ledger {
    var l1 := CloseMerges(l, plan.closeMerges, |plan.closeMerges|, v);
    Rebuilt(l1.(identities := Reopen(l1.identities, plan.partitions, |plan.partitions|)))
  }

  // ----- revert -----

  /** Breadth-first closure over `dependents`, in the order the ledger visits it. */
  function Visit(output: seq<TransactionId>, found: seq<TransactionId>): seq<TransactionId>
    decreases |found|
  {
    if found == [] then output
    else Visit(if found[0] in output then output else output + [found[0]], found[1..])
  }

  function Mentioned(dependents: map<TransactionId, seq<TransactionId>>): set<TransactionId> {
    set t, d | t in dependents && d in dependents[t] :: d
  }

  function DependentsOf(dependents: map<TransactionId, seq<TransactionId>>, t: TransactionId): seq<TransactionId> {
    if t in dependents then dependents[t] else []
  }

  lemma {:induction false} DistinctSize<T>(s: seq<T>, universe: set<T>)
    requires Distinct(s) && forall x :: x in s ==> x in universe
    ensures |s| <= |universe|
  {
    if s != [] {
      var last := s[|s| - 1];
      var front := s[..|s| - 1];
      assert forall x :: x in front ==> x in s;
      assert last !in front;
      DistinctSize(front, universe - {last});
    }
  }

  lemma {:induction false} VisitGrows(
    output: seq<TransactionId>, found: seq<TransactionId>, universe: set<TransactionId>)
    requires Distinct(output) && (forall x :: x in output ==> x in universe)
    requires forall x :: x in found ==> x in universe
    ensures Distinct(Visit(output, found)) && output <= Visit(output, found)
    ensures forall x :: x in Visit(output, found) ==> x in universe
    ensures forall x :: x in Visit(output, found) <==> x in output || x in found
    decreases |found|
  {
    if found != [] {
      var next := if found[0] in output then output else output + [found[0]];
      assert forall x :: x in next <==> x in output || x == found[0];
      assert forall x :: x in found <==> x == found[0] || x in found[1..];
      VisitGrows(next, found[1..], universe);
    }
  }

  function Closure(
    dependents: map<TransactionId, seq<TransactionId>>, output: seq<TransactionId>, cursor: nat,
    ghost universe: set<TransactionId>): seq<TransactionId>
    requires cursor <= |output| && Distinct(output) && Mentioned(dependents) <= universe
    requires forall x :: x in output ==> x in universe
    decreases |universe| - cursor
  {
    if cursor == |output| then output
    else
      DistinctSize(output, universe);
      var found := DependentsOf(dependents, output[cursor]);
      assert forall x :: x in found ==> x in universe;
      VisitGrows(output, found, universe);
      Closure(dependents, Visit(output, found), cursor + 1, universe)
  }

  function RevertTargets(l: Ledger, t: TransactionId, mode: RevertMode): seq<TransactionId> {
    if mode != Cascade then [t] else Closure(l.dependents, [t], 0, Mentioned(l.dependents) + {t})
  }

  function ClosedIfOpen(l: Ledger, m: DecisionId, v: CommitVersion): map<DecisionId, MergeRecord> {
    if OpenMerge(l, m) then ClosedMerges(l.merges, m, v) else l.merges
  }

  /** Forgetting a closed current resolution. */
  function Withdraw(l: Ledger, i: InferenceRecord, v: CommitVersion): Ledger {
    if i.observation in l.currentInference && l.currentInference[i.observation] == i.id then
      CloseCurrent(l, i.observation, v).(currentInference := l.currentInference - {i.observation},
                                         currentDecision := l.currentDecision - {i.observation})
    else l
  }

  function DeactivateCommand(l: Ledger, c: Command, v: CommitVersion): Ledger {
    match c
    case CommitResolution(i, d, _) => CloseDecision(Withdraw(l, i, v), d.id, v)
    case Merge(m, _, _, _, _, _) => l.(merges := ClosedIfOpen(l, m, v))
    case EnqueueMaterialization(m, _, _) => l.(outbox := l.outbox - {m})
    case _ => l
  }

  function DeactivateCommands(l: Ledger, commands: seq<Command>, i: nat, v: CommitVersion): Ledger
    requires i <= |commands|
  {
    if i == 0 then l else DeactivateCommand(DeactivateCommands(l, commands, i - 1, v), commands[i - 1], v)
  }

  ghost function Deactivate(l: Ledger, t: TransactionId, v: CommitVersion): Ledger {
    if t !in l.transactionIndexes || l.transactionIndexes[t] >= |l.transactions| then l
    else
      var index := l.transactionIndexes[t];
      var commands := l.transactions[index].envelope.commands;
      var l1 := l.(transactions := l.transactions[index := l.transactions[index].(active := false)]);
      Rebuilt(DeactivateCommands(l1, commands, |commands|, v))
  }

  ghost function DeactivateAll(l: Ledger, targets: seq<TransactionId>, i: nat, v: CommitVersion): Ledger
    requires i <= |targets|
  {
    if i == 0 then l else Deactivate(DeactivateAll(l, targets, i - 1, v), targets[i - 1], v)
  }

  ghost function RevertTransaction(l: Ledger, t: TransactionId, mode: RevertMode, v: CommitVersion): Ledger {
    if mode == Compensating then l
    else
      var targets := RevertTargets(l, t, mode);
      DeactivateAll(l, targets, |targets|, v)
  }

  // ----- whole commits -----

  function Completed(
    outbox: map<MaterializationId, OutboxEntry>, m: MaterializationId)
    : map<MaterializationId, OutboxEntry>
  {
    if m in outbox then outbox[m := outbox[m].(completed := true)] else outbox
  }

  ghost function ApplyCommand(l: Ledger, transaction: TransactionId, v: CommitVersion, c: Command): Ledger {
    match c
    case PersistObservation(o) =>
      l.(observationCommits := l.observationCommits[o.id := v], observations := l.observations[o.id := o])
    case CommitResolution(i, d, created) => Resolve(l, i, d, created, v)
    case CreateIdentity(x, _) => l.(identities := l.identities[x := Active])
    case Promote(x, target) =>
      l.(identities := l.identities[x := Resolved], promotions := l.promotions[x := target])
    case Merge(_, _, _, _, _, _) => MergeIdentities(l, c, transaction, v)
    case Split(plan) => SplitIdentities(l, plan, v)
    case MakeDormant(x) => l.(identities := l.identities[x := Dormant])
    case Reactivate(x) => l.(identities := l.identities[x := Active])
    case Retire(x) => l.(identities := l.identities[x := Retired])
    case Revert(t, mode) => RevertTransaction(l, t, mode, v)
    case EnqueueMaterialization(m, d, relation) =>
      l.(outbox := l.outbox[m := OutboxEntry(m, d, relation, v, false)])
    case Materialized(m, d) =>
      l.(outbox := Completed(l.outbox, m),
         receipts := l.receipts + [Receipt(m, d, v)])
  }

  ghost function ApplyPrefix(l: Ledger, e: Envelope, v: CommitVersion, i: nat): Ledger
    requires i <= |e.commands|
  {
    if i == 0 then l else ApplyCommand(ApplyPrefix(l, e, v, i - 1), e.transaction, v, e.commands[i - 1])
  }

  function AddDependents(
    dependents: map<TransactionId, seq<TransactionId>>, dependsOn: seq<TransactionId>, i: nat, t: TransactionId)
    : map<TransactionId, seq<TransactionId>>
    requires i <= |dependsOn|
  {
    if i == 0 then dependents
    else
      var before := AddDependents(dependents, dependsOn, i - 1, t);
      before[dependsOn[i - 1] := DependentsOf(before, dependsOn[i - 1]) + [t]]
  }

  /** Log entry, indexes and version, after all commands took effect. */
  function Record(l: Ledger, e: Envelope, v: CommitVersion): Ledger {
    l.(dependents := AddDependents(l.dependents, e.dependsOn, |e.dependsOn|, e.transaction),
       transactions := l.transactions + [TransactionRecord(v, e, true)],
       transactionIndexes := l.transactionIndexes[e.transaction := |l.transactions|],
       idempotency := l.idempotency[e.idempotency := (v, e.transaction)],
       version := v)
  }

  ghost function Apply(l: Ledger, e: Envelope, v: CommitVersion): Ledger {
    Record(ApplyPrefix(l, e, v, |e.commands|), e, v)
  }

  datatype Prepared = Replay(result: CommitResult) | Fresh(next: CommitVersion)

  /** The envelope this replay key was first committed with, if its log entry is there. */
  predicate SameEnvelope(l: Ledger, t: TransactionId, e: Envelope) {
    t in l.transactionIndexes && l.transactionIndexes[t] < |l.transactions|
    && l.transactions[l.transactionIndexes[t]].envelope == e
  }

  function Prepare(l: Ledger, e: Envelope): Result<Prepared, LedgerError> {
    if e.idempotency in l.idempotency then
      var (version, t) := l.idempotency[e.idempotency];
      if SameEnvelope(l, t, e) then Ok(Replay(CommitResult(version, true))) else Err(IdempotencyCollision)
    else
      match Validate(l, e)
      case Err(error) => Err(error)
      case Ok(next) => Ok(Fresh(next))
  }

  predicate Accepted(l: Ledger, e: Envelope) {
    Prepare(l, e).Ok? && Prepare(l, e).value.Fresh?
  }

  ghost function Commit(l: Ledger, e: Envelope): (Ledger, Result<CommitResult, LedgerError>) {
    match Prepare(l, e)
    case Err(error) => (l, Err(error))
    case Ok(Replay(result)) => (l, Ok(result))
    case Ok(Fresh(next)) => (Apply(l, e, next), Ok(CommitResult(next, false)))
  }
}
