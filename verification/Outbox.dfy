/** What the pipeline's commits do to the ledger: its outbox, its log and the associations it records. */
module Outbox {
  import opened Types
  import opened LedgerSpec
  import opened LedgerRuns
  import opened HostGraph
  import opened Workspace

  /** The commands the pipeline issues. */
  predicate Plain(c: Command) {
    c.PersistObservation? || c.CommitResolution? || c.EnqueueMaterialization? || c.Materialized?
  }

  ghost predicate AllPlain(commands: seq<Command>) { forall i :: 0 <= i < |commands| ==> Plain(commands[i]) }

  function OutboxStep(
    outbox: map<MaterializationId, OutboxEntry>, c: Command, v: CommitVersion)
    : map<MaterializationId, OutboxEntry>
  {
    match c
    case EnqueueMaterialization(m, d, relation) => outbox[m := OutboxEntry(m, d, relation, v, false)]
    case Materialized(m, _) => Completed(outbox, m)
    case _ => outbox
  }

  function OutboxAfter(
    outbox: map<MaterializationId, OutboxEntry>, commands: seq<Command>, v: CommitVersion)
    : map<MaterializationId, OutboxEntry>
  {
    if commands == [] then outbox
    else OutboxStep(OutboxAfter(outbox, commands[..|commands| - 1], v), commands[|commands| - 1], v)
  }

  /** Nothing but the records, the outbox and the receipts. */
  ghost predicate SameLogFields(l: Ledger, now: Ledger) {
    && now.version == l.version && now.transactions == l.transactions && now.transactionIndexes == l.transactionIndexes
    && now.dependents == l.dependents && now.idempotency == l.idempotency
  }

  lemma {:induction false} PlainPrefix(l: Ledger, e: Envelope, v: CommitVersion, i: nat)
    requires i <= |e.commands| && AllPlain(e.commands)
    ensures var now := ApplyPrefix(l, e, v, i);
            SameLogFields(l, now) && now.outbox == OutboxAfter(l.outbox, e.commands[..i], v)
  {
    hide ApplyCommand, OutboxStep, Plain;
    if i > 0 {
      PlainPrefix(l, e, v, i - 1);
      assert e.commands[..i][..i - 1] == e.commands[..i - 1];
      PlainCommand(ApplyPrefix(l, e, v, i - 1), e.transaction, v, e.commands[i - 1]);
    }
  }

  lemma {:induction false} PlainCommand(l: Ledger, t: TransactionId, v: CommitVersion, c: Command)
    requires Plain(c)
    ensures var now := ApplyCommand(l, t, v, c);
            SameLogFields(l, now) && now.outbox == OutboxStep(l.outbox, c, v)
  {}

  /** An accepted envelope of the pipeline appends one log entry and steps the outbox command by command. */
  lemma {:induction false} PlainCommit(l: Ledger, e: Envelope)
    requires Accepted(l, e) && AllPlain(e.commands)
    ensures var (now, r) := Commit(l, e);
            && r == Ok(CommitResult(l.version + 1, false)) && now.version == l.version + 1
            && now.outbox == OutboxAfter(l.outbox, e.commands, l.version + 1)
            && now.transactions == l.transactions + [TransactionRecord(l.version + 1, e, true)]
            && now.transactionIndexes == l.transactionIndexes[e.transaction := |l.transactions|]
            && now.idempotency == l.idempotency[e.idempotency := (l.version + 1, e.transaction)]
  {
    AcceptedIsValidated(l, e);
    PlainPrefix(l, e, l.version + 1, |e.commands|);
    assert e.commands[..|e.commands|] == e.commands;
  }

  // ----- identifiers -----

  /** The next value of each identifier sequence. */
  datatype Ids = Ids(transaction: nat, inference: nat, decision: nat, identity: nat, materialization: nat)

  const FIRST_IDS := Ids(1, 1, 1, 1, 1)

  /** Nothing in the ledger uses a transaction, replay key or materialization still to be handed out. */
  ghost predicate IdsFresh(l: Ledger, ids: Ids) {
    && (forall t {:trigger t in l.transactionIndexes} :: t in l.transactionIndexes ==> t < ids.transaction)
    && (forall k {:trigger k in l.idempotency} :: k in l.idempotency ==> k < ids.transaction)
    && (forall m {:trigger m in l.outbox} :: m in l.outbox ==> m < ids.materialization)
  }

  /** The transaction's raw id doubles as its replay key. */
  function EnvelopeOf(
    raw: nat, expected: CommitVersion, issuedAt: Timestamp, dependsOn: seq<TransactionId>, commands: seq<Command>)
    : Envelope
  {
    Envelope(raw, expected, raw, issuedAt, dependsOn, commands)
  }

  /** A fresh envelope is either refused without effect or accepted; it is never a replay or a collision. */
  lemma {:induction false} FreshNeverReplays(l: Ledger, ids: Ids, e: Envelope)
    requires IdsFresh(l, ids) && e.transaction == e.idempotency == ids.transaction
    ensures Accepted(l, e)
            || (Commit(l, e).0 == l && Commit(l, e).1.Err? && Commit(l, e).1.error != LedgerError.IdempotencyCollision)
  {
    assert e.idempotency !in l.idempotency;
    ValidateNeverCollides(l, e);
  }

  lemma {:induction false} PrefixNeverCollides(l: Ledger, next: CommitVersion, commands: seq<Command>, i: nat)
    requires i <= |commands|
    ensures CheckPrefix(l, next, commands, i) != Err(LedgerError.IdempotencyCollision)
  {
    if i > 0 {
      PrefixNeverCollides(l, next, commands, i - 1);
      var before := CheckPrefix(l, next, commands, i - 1);
      if before.Ok? { CommandNeverCollides(l, before.value, next, commands[i - 1]); }
    }
  }

  lemma {:induction false} CommandNeverCollides(l: Ledger, p: Pending, next: CommitVersion, c: Command)
    ensures CheckCommand(l, p, next, c) != Err(LedgerError.IdempotencyCollision)
  {
    if c.Split? { PartitionsNeverCollide(l, p, c.plan.partitions); }
  }

  lemma {:induction false} PartitionsNeverCollide(l: Ledger, p: Pending, parts: seq<SplitPartition>)
    ensures CheckPartitions(l, p, parts) != Err(LedgerError.IdempotencyCollision)
    decreases |parts|
  {
    if parts != [] && StatusOf(l, p, parts[0].identity).Some? && FirstMissing(l, p, parts[0].observations).None? {
      PartitionsNeverCollide(l, p.(statuses := p.statuses[parts[0].identity := Active]), parts[1..]);
    }
  }

  lemma {:induction false} ValidateNeverCollides(l: Ledger, e: Envelope)
    ensures Validate(l, e) != Err(LedgerError.IdempotencyCollision)
  {
    PrefixNeverCollides(l, l.version + 1, e.commands, |e.commands|);
  }

  // ----- outbox and host agree -----

  /** Every written fact is its outbox entry's, and every completed entry has been written. */
  ghost predicate EntryMatches(l: Ledger, written: map<MaterializationId, HostFact>, m: MaterializationId)
    requires m in l.outbox
  {
    var entry := l.outbox[m];
    && entry.id == m
    && (entry.completed ==> m in written)
    && (m in written ==> written[m] == FactOf(entry.relation, entry.decision, entry.commit))
  }

  ghost predicate OutboxMatches(l: Ledger, written: map<MaterializationId, HostFact>) {
    && (forall m {:trigger EntryMatches(l, written, m)} :: m in l.outbox ==> EntryMatches(l, written, m))
    && (forall m {:trigger m in written} :: m in written ==> m in l.outbox)
  }

  /** A host write owed for an outbox entry. */
  datatype Write = Write(materialization: MaterializationId, decision: DecisionId, relation: HostRelation)

  ghost predicate Owed(outbox: map<MaterializationId, OutboxEntry>, w: Write, v: CommitVersion) {
    w.materialization in outbox
      && outbox[w.materialization] == OutboxEntry(w.materialization, w.decision, w.relation, v, false)
  }

  // ----- associations -----

  datatype Association = Association(identity: IdentityId, observation: ObservationId)

  function AssociationOf(c: Command): Option<Association> {
    match c
    case CommitResolution(i, d, created) =>
      (match (d.action, created)
       case (Assign(Latent(x)), _) => Some(Association(x, i.observation))
       case (CreateNew, Some(x)) => Some(Association(x, i.observation))
       case _ => None)
    case _ => None
  }

  function Associations(commands: seq<Command>): seq<Association> {
    if commands == [] then []
    else
      var last := AssociationOf(commands[|commands| - 1]);
      Associations(commands[..|commands| - 1]) + if last.Some? then [last.value] else []
  }

  lemma {:induction false} AssociationsAppend(commands: seq<Command>, c: Command)
    ensures Associations(commands + [c]) ==
            Associations(commands) + if AssociationOf(c).Some? then [AssociationOf(c).value] else []
  {
    assert (commands + [c])[..|commands|] == commands;
  }

  lemma {:induction false} OutboxAppend(
    outbox: map<MaterializationId, OutboxEntry>, commands: seq<Command>, c: Command, v: CommitVersion)
    ensures OutboxAfter(outbox, commands + [c], v) == OutboxStep(OutboxAfter(outbox, commands, v), c, v)
  {
    assert (commands + [c])[..|commands|] == commands;
  }

  /** An observation given to an identity by a commit. */
  datatype Given = Given(observation: ObservationId, version: CommitVersion)

  function ForIdentity(associations: seq<Association>, x: IdentityId, v: CommitVersion): seq<Given> {
    if associations == [] then []
    else
      var last := associations[|associations| - 1];
      ForIdentity(associations[..|associations| - 1], x, v)
      + if last.identity == x then [Given(last.observation, v)] else []
  }

  /** What the log's commits gave identity `x`, in commit order. */
  function AssignedTo(transactions: seq<TransactionRecord>, x: IdentityId): seq<Given> {
    if transactions == [] then []
    else
      var last := transactions[|transactions| - 1];
      AssignedTo(transactions[..|transactions| - 1], x)
        + ForIdentity(Associations(last.envelope.commands), x, last.version)
  }

  lemma {:induction false} AssignedAppend(
    transactions: seq<TransactionRecord>, record: TransactionRecord, x: IdentityId)
    ensures AssignedTo(transactions + [record], x) ==
            AssignedTo(transactions, x) + ForIdentity(Associations(record.envelope.commands), x, record.version)
  {
    assert (transactions + [record])[..|transactions|] == transactions;
  }

  function ObservationsOf(given: seq<Given>): seq<ObservationId> {
    if given == [] then [] else ObservationsOf(given[..|given| - 1]) + [given[|given| - 1].observation]
  }

  /** A hot entry holds the newest observations given to it, up to its capacity, and the newest version. */
  ghost predicate HotRight(hot: HotIdentity, given: seq<Given>, capacity: nat) {
    && given != []
    && hot.history.capacity == capacity
    && hot.history.entries == LastOf(ObservationsOf(given), capacity)
    && hot.appliedVersion == given[|given| - 1].version
  }

  ghost predicate HotAgreesOn(
    identities: map<IdentityId, HotIdentity>, given: seq<Given>, capacity: nat, x: IdentityId)
  {
    if x in identities then HotRight(identities[x], given, capacity) else given == []
  }

  /** The hot cache is what the log's associations make it. */
  ghost predicate HotAgrees(
    identities: map<IdentityId, HotIdentity>, transactions: seq<TransactionRecord>, capacity: nat)
  {
    forall x {:trigger AssignedTo(transactions, x)} :: HotAgreesOn(identities, AssignedTo(transactions, x), capacity, x)
  }

  /** No entry is ahead of the ledger. */
  ghost predicate HotBelow(identities: map<IdentityId, HotIdentity>, v: CommitVersion) {
    forall x {:trigger identities[x]} :: x in identities ==> identities[x].appliedVersion <= v
  }

  predicate DistinctIdentities(associations: seq<Association>) {
    forall i, j :: 0 <= i < j < |associations| ==> associations[i].identity != associations[j].identity
  }

  lemma {:induction false} ForIdentityStep(associations: seq<Association>, j: nat, x: IdentityId, v: CommitVersion)
    requires j < |associations|
    ensures ForIdentity(associations[..j + 1], x, v) ==
            ForIdentity(associations[..j], x, v)
            + if associations[j].identity == x then [Given(associations[j].observation, v)] else []
  {
    assert associations[..j + 1][..j] == associations[..j];
  }

  // ----- the three kinds of pipeline commits -----

  ghost predicate SameAssigned(before: seq<TransactionRecord>, after: seq<TransactionRecord>) {
    forall x {:trigger AssignedTo(after, x)} :: AssignedTo(after, x) == AssignedTo(before, x)
  }

  lemma {:induction false} HotKept(
    identities: map<IdentityId, HotIdentity>, before: seq<TransactionRecord>, after: seq<TransactionRecord>,
    capacity: nat)
    requires HotAgrees(identities, before, capacity) && SameAssigned(before, after)
    ensures HotAgrees(identities, after, capacity)
  {
    forall x ensures HotAgreesOn(identities, AssignedTo(after, x), capacity, x) {
      assert HotAgreesOn(identities, AssignedTo(before, x), capacity, x);
    }
  }

  lemma {:induction false} EvidenceLeavesOutbox(
    outbox: map<MaterializationId, OutboxEntry>, commands: seq<Command>, v: CommitVersion)
    requires forall i :: 0 <= i < |commands| ==> commands[i].PersistObservation?
    ensures OutboxAfter(outbox, commands, v) == outbox && Associations(commands) == []
  {
    if commands != [] { EvidenceLeavesOutbox(outbox, commands[..|commands| - 1], v); }
  }

  lemma {:induction false} FreshAfter(l: Ledger, now: Ledger, e: Envelope, ids: Ids, ids': Ids)
    requires IdsFresh(l, ids) && e.transaction == e.idempotency == ids.transaction
    requires ids'.transaction == ids.transaction + 1
    requires now.transactionIndexes == l.transactionIndexes[e.transaction := |l.transactions|]
    requires now.idempotency.Keys == l.idempotency.Keys + {e.idempotency}
    requires forall m {:trigger m in now.outbox} :: m in now.outbox ==> m < ids'.materialization
    ensures IdsFresh(now, ids')
  {
    forall k | k in now.idempotency ensures k < ids'.transaction { assert k in now.idempotency.Keys; }
  }

  lemma {:induction false} NothingAssigned(transactions: seq<TransactionRecord>, record: TransactionRecord)
    requires Associations(record.envelope.commands) == []
    ensures SameAssigned(transactions, transactions + [record])
  {
    forall x ensures AssignedTo(transactions + [record], x) == AssignedTo(transactions, x) {
      AssignedAppend(transactions, record, x);
    }
  }

  /** Persisting evidence leaves outbox and associations alone. */
  lemma {:induction false} EvidenceStep(l: Ledger, e: Envelope, ids: Ids, written: map<MaterializationId, HostFact>)
    requires Accepted(l, e) && IdsFresh(l, ids) && e.transaction == e.idempotency == ids.transaction
    requires forall i :: 0 <= i < |e.commands| ==> e.commands[i].PersistObservation?
    requires OutboxMatches(l, written)
    ensures var now := Commit(l, e).0;
            && IdsFresh(now, ids.(transaction := ids.transaction + 1)) && OutboxMatches(now, written)
            && SameAssigned(l.transactions, now.transactions) && now.version == l.version + 1
            && Commit(l, e).1 == Ok(CommitResult(l.version + 1, false))
  {
    hide Accepted, Commit;
    PlainCommit(l, e);
    EvidenceLeavesOutbox(l.outbox, e.commands, l.version + 1);
    var now := Commit(l, e).0;
    FreshAfter(l, now, e, ids, ids.(transaction := ids.transaction + 1));
    NothingAssigned(l.transactions, TransactionRecord(l.version + 1, e, true));
    forall m | m in now.outbox ensures EntryMatches(now, written, m) { assert EntryMatches(l, written, m); }
  }

  /** A receipt completes its entry and changes no other. */
  lemma {:induction false} ReceiptStep(
    l: Ledger, e: Envelope, ids: Ids, written: map<MaterializationId, HostFact>, m: MaterializationId, d: DecisionId)
    requires Accepted(l, e) && IdsFresh(l, ids) && e.transaction == e.idempotency == ids.transaction
    requires e.commands == [Materialized(m, d)] && m in written
    requires OutboxMatches(l, written)
    ensures var now := Commit(l, e).0;
            && IdsFresh(now, ids.(transaction := ids.transaction + 1)) && OutboxMatches(now, written)
            && now.outbox == Completed(l.outbox, m)
            && SameAssigned(l.transactions, now.transactions) && now.version == l.version + 1
  {
    hide Accepted, Commit;
    PlainCommit(l, e);
    var now, v := Commit(l, e).0, l.version + 1;
    OutboxAppend(l.outbox, [], Materialized(m, d), v);
    AssociationsAppend([], Materialized(m, d));
    assert [] + [Materialized(m, d)] == e.commands;
    FreshAfter(l, now, e, ids, ids.(transaction := ids.transaction + 1));
    NothingAssigned(l.transactions, TransactionRecord(v, e, true));
    forall k | k in now.outbox ensures EntryMatches(now, written, k) { assert EntryMatches(l, written, k); }
  }

  /** A receipt for a written, still open entry is refused only when the version space is exhausted. */
  lemma {:induction false} ReceiptAccepted(
    l: Ledger, ids: Ids, issuedAt: Timestamp, m: MaterializationId, d: DecisionId)
    requires IdsFresh(l, ids) && m in l.outbox && !l.outbox[m].completed && l.outbox[m].decision == d
    ensures Accepted(l, EnvelopeOf(ids.transaction, l.version, issuedAt, [], [Materialized(m, d)])) <==>
            l.version < MAX_VERSION
  {
    var e := EnvelopeOf(ids.transaction, l.version, issuedAt, [], [Materialized(m, d)]);
    assert CheckPrefix(l, l.version + 1, e.commands, 0) == Ok(NOTHING_PENDING);
    assert CheckPrefix(l, l.version + 1, e.commands, 1).Ok?;
  }

  /** What enqueueing leaves in the outbox: the old entries, and one open entry per owed write. */
  ghost predicate OutboxOwes(
    before: map<MaterializationId, OutboxEntry>, after: map<MaterializationId, OutboxEntry>, writes: seq<Write>,
    v: CommitVersion, first: nat)
 
  {
    && (forall m {:trigger m in before} :: m in before ==> m in after && after[m] == before[m])
    && (forall j: nat {:trigger writes[j]} :: j < |writes| ==>
          writes[j].materialization == first + j && Owed(after, writes[j], v))
    && (forall m {:trigger m in after} :: m in after ==> m in before || first <= m < first + |writes|)
  }

  /** A resolution commit owes exactly the writes it enqueued, none of them written yet. */
  lemma {:induction false} ResolutionStep(
    l: Ledger, e: Envelope, ids: Ids, ids': Ids, written: map<MaterializationId, HostFact>, writes: seq<Write>)
    requires Accepted(l, e) && IdsFresh(l, ids) && e.transaction == e.idempotency == ids.transaction
    requires AllPlain(e.commands) && OutboxMatches(l, written)
    requires OutboxOwes(
               l.outbox, OutboxAfter(l.outbox, e.commands, l.version + 1), writes, l.version + 1, ids.materialization)
    requires ids'.transaction == ids.transaction + 1 && ids'.materialization == ids.materialization + |writes|
    ensures var now := Commit(l, e).0;
            && IdsFresh(now, ids') && OutboxMatches(now, written) && now.version == l.version + 1
            && (forall j: nat {:trigger writes[j]} :: j < |writes| ==> Owed(now.outbox, writes[j], l.version + 1))
            && now.transactions == l.transactions + [TransactionRecord(l.version + 1, e, true)]
            && Commit(l, e).1 == Ok(CommitResult(l.version + 1, false))
  {
    hide Accepted, Commit;
    PlainCommit(l, e);
    var now := Commit(l, e).0;
    FreshAfter(l, now, e, ids, ids');
    forall m | m in now.outbox ensures EntryMatches(now, written, m) {
      if m in l.outbox {
        assert EntryMatches(l, written, m);
      } else {
        var w := writes[m - ids.materialization];
        assert Owed(now.outbox, w, l.version + 1);
      }
    }
  }

  // ----- applying a batch's associations -----

  /** The cache after the first associations of a batch. */
  ghost predicate HotMidway(
    identities: map<IdentityId, HotIdentity>, transactions: seq<TransactionRecord>, applied: seq<Association>,
    v: CommitVersion, capacity: nat)
 
  {
    forall x {:trigger AssignedTo(transactions, x)} ::
      HotAgreesOn(identities, AssignedTo(transactions, x) + ForIdentity(applied, x, v), capacity, x)
  }

  lemma {:induction false} MidwayStart(
    identities: map<IdentityId, HotIdentity>, transactions: seq<TransactionRecord>, v: CommitVersion, capacity: nat)
    requires HotAgrees(identities, transactions, capacity)
    ensures HotMidway(identities, transactions, [], v, capacity)
  {
    forall x ensures HotAgreesOn(identities, AssignedTo(transactions, x) + ForIdentity([], x, v), capacity, x) {
      assert AssignedTo(transactions, x) + ForIdentity([], x, v) == AssignedTo(transactions, x);
    }
  }

  lemma {:induction false} MidwayEnd(
    identities: map<IdentityId, HotIdentity>, transactions: seq<TransactionRecord>, record: TransactionRecord,
    capacity: nat)
    requires HotMidway(identities, transactions, Associations(record.envelope.commands), record.version, capacity)
    ensures HotAgrees(identities, transactions + [record], capacity)
  {
    var after := transactions + [record];
    forall x ensures HotAgreesOn(identities, AssignedTo(after, x), capacity, x) {
      AssignedAppend(transactions, record, x);
      var given := ForIdentity(Associations(record.envelope.commands), x, record.version);
      assert HotAgreesOn(identities, AssignedTo(transactions, x) + given, capacity, x);
    }
  }

  lemma {:induction false} ObservationsAppend(given: seq<Given>, g: Given)
    ensures ObservationsOf(given + [g]) == ObservationsOf(given) + [g.observation]
  {
    assert (given + [g])[..|given|] == given;
  }

  /** An entry with one more observation is right for one more given observation. */
  lemma {:induction false} HotRightStep(
    before: HotIdentity, now: HotIdentity, given: seq<Given>, g: Given, capacity: nat)
    requires before.history.capacity == capacity && before.history.entries == LastOf(ObservationsOf(given), capacity)
    requires now.history.capacity == capacity && now.appliedVersion == g.version
    requires now.history.entries == LastOf(before.history.entries + [g.observation], capacity)
    ensures HotRight(now, given + [g], capacity)
  {
    ObservationsAppend(given, g);
    LastOfLast(ObservationsOf(given), [g.observation], capacity);
  }

  ghost predicate Named(associations: seq<Association>, k: nat, x: IdentityId)
    requires k <= |associations|
  {
    exists j: nat :: j < k && associations[j].identity == x
  }

  /** Exactly the identities of the first `k` associations carry version `v`; no entry is beyond it. */
  ghost predicate TouchedExactly(
    identities: map<IdentityId, HotIdentity>, associations: seq<Association>, k: nat, v: CommitVersion)
    requires k <= |associations|
  {
    && HotBelow(identities, v)
    && forall x {:trigger Named(associations, k, x)} ::
         Named(associations, k, x) <==> x in identities && identities[x].appliedVersion == v
  }

  lemma {:induction false} TouchedStart(
    identities: map<IdentityId, HotIdentity>, associations: seq<Association>, v: CommitVersion)
    requires v > 0 && HotBelow(identities, v - 1)
    ensures TouchedExactly(identities, associations, 0, v)
  {
    forall x ensures Named(associations, 0, x) <==> x in identities && identities[x].appliedVersion == v {
      if x in identities { assert identities[x].appliedVersion <= v - 1; }
    }
  }

  lemma {:induction false} TouchedStep(
    before: map<IdentityId, HotIdentity>, after: map<IdentityId, HotIdentity>, associations: seq<Association>, k: nat,
    v: CommitVersion)
    requires k < |associations| && TouchedExactly(before, associations, k, v)
    requires after.Keys == before.Keys + {associations[k].identity}
             && after[associations[k].identity].appliedVersion == v
    requires forall x {:trigger after[x]} :: x in after && x != associations[k].identity ==> after[x] == before[x]
    ensures TouchedExactly(after, associations, k + 1, v)
  {
    var next, own := k + 1, associations[k].identity;
    forall x {:trigger Named(associations, next, x)}
      ensures Named(associations, next, x) <==> x in after && after[x].appliedVersion == v
    {
      assert Named(associations, next, x) <==> Named(associations, k, x) || x == own;
      assert x in after <==> x in before || x == own;
    }
    forall x | x in after ensures after[x].appliedVersion <= v {
      if x != own { assert x in before && before[x].appliedVersion <= v; }
    }
  }

  lemma {:induction false} DistinctStep(associations: seq<Association>, k: nat)
    requires k < |associations|
    ensures DistinctIdentities(associations[..k + 1]) <==>
            DistinctIdentities(associations[..k]) && !Named(associations, k, associations[k].identity)
  {
    var shorter, longer := associations[..k], associations[..k + 1];
    if DistinctIdentities(longer) {
      forall i, j | 0 <= i < j < k ensures shorter[i].identity != shorter[j].identity {
        assert longer[i] == shorter[i] && longer[j] == shorter[j];
      }
      forall j: nat | j < k ensures associations[j].identity != associations[k].identity {
        assert longer[j] == associations[j] && longer[k] == associations[k];
      }
    }
    if DistinctIdentities(shorter) && !Named(associations, k, associations[k].identity) {
      forall i, j | 0 <= i < j < |longer| ensures longer[i].identity != longer[j].identity {
        if j < k { assert shorter[i] == longer[i] && shorter[j] == longer[j]; }
      }
    }
  }

  lemma {:induction false} DistinctPrefix(associations: seq<Association>, k: nat)
    requires k <= |associations| && !DistinctIdentities(associations[..k])
    ensures !DistinctIdentities(associations)
  {
    var i, j :| 0 <= i < j < k && associations[..k][i].identity == associations[..k][j].identity;
    assert associations[i].identity == associations[j].identity;
  }

  /** The entry an association updates: the present one, or a new one without history. */
  function Base(identities: map<IdentityId, HotIdentity>, x: IdentityId, capacity: nat): BoundedHistory {
    if x in identities then identities[x].history else BoundedHistory([], capacity)
  }

  lemma {:induction false} MidwayStep(
    before: map<IdentityId, HotIdentity>, after: map<IdentityId, HotIdentity>, transactions: seq<TransactionRecord>,
    associations: seq<Association>, j: nat, v: CommitVersion, capacity: nat)
    requires j < |associations| && HotMidway(before, transactions, associations[..j], v, capacity)
    requires var a := associations[j];
             && after.Keys == before.Keys + {a.identity}
             && (forall x {:trigger after[x]} :: x in after && x != a.identity ==> after[x] == before[x])
             && after[a.identity].history.capacity == Base(before, a.identity, capacity).capacity
             && after[a.identity].history.entries ==
                LastOf(Base(before, a.identity, capacity).entries + [a.observation],
                       Base(before, a.identity, capacity).capacity)
             && after[a.identity].appliedVersion == v
    ensures HotMidway(after, transactions, associations[..j + 1], v, capacity)
  {
    var a := associations[j];
    forall x
      ensures HotAgreesOn(after, AssignedTo(transactions, x) + ForIdentity(associations[..j + 1], x, v), capacity, x)
    {
      var given := AssignedTo(transactions, x) + ForIdentity(associations[..j], x, v);
      ForIdentityStep(associations, j, x, v);
      assert HotAgreesOn(before, given, capacity, x);
      if x == a.identity {
        assert AssignedTo(transactions, x) + ForIdentity(associations[..j + 1], x, v) ==
                 given + [Given(a.observation, v)];
        HotRightStep(HotIdentity(x, Base(before, x, capacity), 0, 0), after[x], given, Given(a.observation, v),
            capacity);
      } else {
        assert ForIdentity(associations[..j + 1], x, v) == ForIdentity(associations[..j], x, v);
        assert x in after <==> x in before;
      }
    }
  }

  /** A resolution command leaves the outbox and what it owes alone. */
  lemma {:induction false} OwesResolution(
    before: map<MaterializationId, OutboxEntry>, commands: seq<Command>, c: Command, writes: seq<Write>,
    v: CommitVersion, first: nat)
    requires AllPlain(commands) && c.CommitResolution?
             && OutboxOwes(before, OutboxAfter(before, commands, v), writes, v, first)
    ensures AllPlain(commands + [c]) && OutboxOwes(before, OutboxAfter(before, commands + [c], v), writes, v, first)
  {
    OutboxAppend(before, commands, c, v);
  }

  /** Enqueueing the next materialization owes one more write. */
  lemma {:induction false} OwesEnqueue(
    before: map<MaterializationId, OutboxEntry>, commands: seq<Command>, w: Write, writes: seq<Write>, v: CommitVersion,
    first: nat)
    requires AllPlain(commands) && OutboxOwes(before, OutboxAfter(before, commands, v), writes, v, first)
    requires (forall m {:trigger m in before} :: m in before ==> m < first) && w.materialization == first + |writes|
    ensures var c := EnqueueMaterialization(w.materialization, w.decision, w.relation);
            && AllPlain(commands + [c]) && AssociationOf(c) == None
            && OutboxOwes(before, OutboxAfter(before, commands + [c], v), writes + [w], v, first)
  {
    hide OutboxAfter;
    var c := EnqueueMaterialization(w.materialization, w.decision, w.relation);
    OutboxAppend(before, commands, c, v);
    var after, more, all := OutboxAfter(before, commands, v), OutboxAfter(before, commands + [c], v), writes + [w];
    forall j: nat {:trigger all[j]} | j < |all| ensures all[j].materialization == first + j && Owed(more, all[j], v) {
      if j < |writes| { assert writes[j].materialization == first + j && Owed(after, writes[j], v); }
    }
  }

  /** Completing one entry leaves the other owed writes owed. */
  lemma {:induction false} StillOwed(
    outbox: map<MaterializationId, OutboxEntry>, m: MaterializationId, w: Write, v: CommitVersion)
    requires Owed(outbox, w, v) && w.materialization != m
    ensures Owed(Completed(outbox, m), w, v)
  {}

  // ----- a batch that associates an identity twice -----

  predicate DistinctObservations(associations: seq<Association>) {
    forall i, j :: 0 <= i < j < |associations| ==> associations[i].observation != associations[j].observation
  }

  /** Every observation given by a batch comes from one of its associations with that identity. */
  lemma {:induction false} GivenComesFrom(associations: seq<Association>, x: IdentityId, v: CommitVersion, i: nat)
    requires i < |ForIdentity(associations, x, v)|
    ensures exists j ::
              0 <= j < |associations| && associations[j].observation == ForIdentity(associations, x, v)[i].observation
  {
    var shorter := associations[..|associations| - 1];
    if i < |ForIdentity(shorter, x, v)| {
      GivenComesFrom(shorter, x, v, i);
      var j :| 0 <= j < |shorter| && shorter[j].observation == ForIdentity(shorter, x, v)[i].observation;
      assert associations[j].observation == shorter[j].observation;
    } else {
      assert associations[|associations| - 1].observation == ForIdentity(associations, x, v)[i].observation;
    }
  }

  lemma {:induction false} ForIdentitySplits(associations: seq<Association>, j: nat, x: IdentityId, v: CommitVersion)
    requires j <= |associations|
    ensures ForIdentity(associations, x, v) ==
              ForIdentity(associations[..j], x, v) + ForIdentity(associations[j..], x, v)
  {
    if j < |associations| {
      var last := |associations| - 1;
      ForIdentitySplits(associations[..last], j, x, v);
      assert associations[..last][..j] == associations[..j];
      assert associations[..last][j..] == associations[j..][..last - j];
    } else {
      assert associations[..j] == associations;
    }
  }

  lemma {:induction false} GivenNotEmpty(associations: seq<Association>, i: nat, x: IdentityId, v: CommitVersion)
    requires i < |associations| && associations[i].identity == x
    ensures ForIdentity(associations, x, v) != []
  {
    if i < |associations| - 1 { GivenNotEmpty(associations[..|associations| - 1], i, x, v); }
  }

  lemma {:induction false} LastObservation(given: seq<Given>, capacity: nat)
    requires given != [] && capacity > 0
    ensures var kept := LastOf(ObservationsOf(given), capacity);
            kept != [] && kept[|kept| - 1] == given[|given| - 1].observation
  {
    ObservationsLength(given);
  }

  lemma {:induction false} ObservationsLength(given: seq<Given>)
    ensures |ObservationsOf(given)| == |given|
    ensures given != [] ==> ObservationsOf(given)[|given| - 1] == given[|given| - 1].observation
  {
    if given != [] { ObservationsLength(given[..|given| - 1]); }
  }

  /** Stopping at an identity's second association leaves its newest observation out of the cache. */
  lemma {:induction false} DoubleLeavesStale(
    identities: map<IdentityId, HotIdentity>, transactions: seq<TransactionRecord>, record: TransactionRecord, j: nat,
    capacity: nat)
    requires var all := Associations(record.envelope.commands);
             && j < |all| && Named(all, j, all[j].identity) && DistinctObservations(all)
             && HotMidway(identities, transactions, all[..j], record.version, capacity)
    requires capacity > 0
    ensures !HotAgrees(identities, transactions + [record], capacity)
  {
    hide HotMidway, Associations, DistinctObservations, LastOf;
    var all, v := Associations(record.envelope.commands), record.version;
    var x := all[j].identity;
    var early, late := ForIdentity(all[..j], x, v), ForIdentity(all[j..], x, v);
    LastsDiffer(all, j, v);
    ForIdentitySplits(all, j, x, v);
    var before, after := AssignedTo(transactions, x) + early, AssignedTo(transactions + [record], x);
    AssignedAppend(transactions, record, x);
    assert after == before + late;
    MidwayOn(identities, transactions, all[..j], v, capacity, x);
    LastObservation(before, capacity);
    LastObservation(after, capacity);
    assert !HotAgreesOn(identities, after, capacity, x);
  }

  lemma {:induction false} MidwayOn(
    identities: map<IdentityId, HotIdentity>, transactions: seq<TransactionRecord>, applied: seq<Association>,
    v: CommitVersion, capacity: nat, x: IdentityId)
    requires HotMidway(identities, transactions, applied, v, capacity)
    ensures HotAgreesOn(identities, AssignedTo(transactions, x) + ForIdentity(applied, x, v), capacity, x)
  {}

  /** The newest observation before the repeated association is not the newest of all. */
  lemma {:induction false} LastsDiffer(all: seq<Association>, j: nat, v: CommitVersion)
    requires j < |all| && Named(all, j, all[j].identity) && DistinctObservations(all)
    ensures var early, late := ForIdentity(all[..j], all[j].identity, v), ForIdentity(all[j..], all[j].identity, v);
            early != [] && late != [] && early[|early| - 1].observation != late[|late| - 1].observation
  {
    var x := all[j].identity;
    var i: nat :| i < j && all[i].identity == x;
    var early, late := ForIdentity(all[..j], x, v), ForIdentity(all[j..], x, v);
    GivenNotEmpty(all[..j], i, x, v);
    GivenNotEmpty(all[j..], 0, x, v);
    GivenComesFrom(all[..j], x, v, |early| - 1);
    GivenComesFrom(all[j..], x, v, |late| - 1);
    var p: nat :| p < j && all[..j][p].observation == early[|early| - 1].observation;
    var q: nat :| q < |all| - j && all[j..][q].observation == late[|late| - 1].observation;
    assert all[p].observation != all[j + q].observation;
  }

  // ----- evidence is never persisted twice -----

  predicate DistinctIds(observations: seq<Observation>) {
    forall i, j :: 0 <= i < j < |observations| ==> observations[i].id != observations[j].id
  }

  ghost predicate PersistsAll(commands: seq<Command>, observations: seq<Observation>) {
    |commands| == |observations| && forall i :: 0 <= i < |commands| ==>
        commands[i] == PersistObservation(observations[i])
  }

  lemma {:induction false} EvidencePending(
    l: Ledger, next: CommitVersion, commands: seq<Command>, observations: seq<Observation>, i: nat)
    requires i <= |commands| && PersistsAll(commands, observations) && CheckPrefix(l, next, commands, i).Ok?
    ensures forall j :: 0 <= j < i ==> observations[j].id in CheckPrefix(l, next, commands, i).value.observations
    ensures DistinctIds(observations[..i])
  {
    if i > 0 { EvidencePending(l, next, commands, observations, i - 1); }
  }

  /** An accepted evidence commit holds no observation twice. */
  lemma {:induction false} EvidenceDistinct(l: Ledger, e: Envelope, observations: seq<Observation>)
    requires Accepted(l, e) && PersistsAll(e.commands, observations)
    ensures DistinctIds(observations)
  {
    assert CheckPrefix(l, l.version + 1, e.commands, |e.commands|).Ok?;
    EvidencePending(l, l.version + 1, e.commands, observations, |e.commands|);
    assert observations[..|e.commands|] == observations;
  }
}
