/** What a command may touch, and what validation promises the state a command is applied to. */
module LedgerFrames {
  import opened Types
  import opened Canonical
  import opened LedgerSpec

  // ----- revisions: closing, deactivating and re-marking never create or rewrite a record -----

  predicate Revised(before: VersionInterval, after: VersionInterval, v: CommitVersion) {
    after == before || after == before.ClosedAt(v)
  }

  predicate Submap<K, V(==)>(small: map<K, V>, large: map<K, V>) {
    small.Keys <= large.Keys && forall k :: k in small ==> small[k] == large[k]
  }

  predicate SameInference(
    a: map<InferenceId, InferenceRecord>, b: map<InferenceId, InferenceRecord>, i: InferenceId, v: CommitVersion)
    requires i in a && i in b
  {
    b[i] == a[i].(validity := b[i].validity) && Revised(a[i].validity, b[i].validity, v)
  }

  predicate SameDecision(
    a: map<DecisionId, DecisionRecord>, b: map<DecisionId, DecisionRecord>, d: DecisionId, v: CommitVersion)
    requires d in a && d in b
  {
    b[d] == a[d].(validity := b[d].validity) && Revised(a[d].validity, b[d].validity, v)
  }

  predicate SameMerge(a: map<DecisionId, MergeRecord>, b: map<DecisionId, MergeRecord>, d: DecisionId, v: CommitVersion)
    requires d in a && d in b
  {
    b[d] == a[d].(validity := b[d].validity) && Revised(a[d].validity, b[d].validity, v)
  }

  predicate SameEntry(a: seq<TransactionRecord>, b: seq<TransactionRecord>, i: nat)
    requires i < |a| && i < |b|
  {
    b[i] == a[i].(active := b[i].active) && (b[i].active ==> a[i].active)
  }

  ghost predicate SameRecords(l: Ledger, l': Ledger, v: CommitVersion) {
    && l'.inferences.Keys == l.inferences.Keys
    && l'.decisions.Keys == l.decisions.Keys
    && l'.merges.Keys == l.merges.Keys
    && (forall i {:trigger SameInference(l.inferences, l'.inferences, i, v)} ::
          i in l.inferences ==> SameInference(l.inferences, l'.inferences, i, v))
    && (forall d {:trigger SameDecision(l.decisions, l'.decisions, d, v)} ::
          d in l.decisions ==> SameDecision(l.decisions, l'.decisions, d, v))
    && (forall d {:trigger SameMerge(l.merges, l'.merges, d, v)} ::
          d in l.merges ==> SameMerge(l.merges, l'.merges, d, v))
  }

  ghost predicate SameLog(l: Ledger, l': Ledger) {
    && l'.version == l.version
    && l'.transactionIndexes == l.transactionIndexes
    && l'.dependents == l.dependents
    && l'.idempotency == l.idempotency
    && |l'.transactions| == |l.transactions|
    && forall i {:trigger SameEntry(l.transactions, l'.transactions, i)} ::
         0 <= i < |l.transactions| ==> SameEntry(l.transactions, l'.transactions, i)
  }

  ghost predicate Revision(l: Ledger, l': Ledger, v: CommitVersion) {
    && SameLog(l, l') && SameRecords(l, l', v)
    && l'.observations == l.observations && l'.observationCommits == l.observationCommits
    && l'.promotions == l.promotions && l'.receipts == l.receipts
    && l'.identities.Keys == l.identities.Keys
    && Submap(l'.outbox, l.outbox)
    && Submap(l'.currentInference, l.currentInference)
    && Submap(l'.currentDecision, l.currentDecision)
  }

  lemma {:induction false} RevisionTransitive(a: Ledger, b: Ledger, c: Ledger, v: CommitVersion)
    requires Revision(a, b, v) && Revision(b, c, v)
    ensures Revision(a, c, v)
  {
    SameLogTransitive(a, b, c);
    forall i | i in a.inferences ensures SameInference(a.inferences, c.inferences, i, v) {
      assert SameInference(a.inferences, b.inferences, i, v) && SameInference(b.inferences, c.inferences, i, v);
    }
    forall d | d in a.decisions ensures SameDecision(a.decisions, c.decisions, d, v) {
      assert SameDecision(a.decisions, b.decisions, d, v) && SameDecision(b.decisions, c.decisions, d, v);
    }
    forall d | d in a.merges ensures SameMerge(a.merges, c.merges, d, v) {
      assert SameMerge(a.merges, b.merges, d, v) && SameMerge(b.merges, c.merges, d, v);
    }
  }

  lemma {:induction false} SameLogTransitive(a: Ledger, b: Ledger, c: Ledger)
    requires SameLog(a, b) && SameLog(b, c)
    ensures SameLog(a, c)
  {
    forall i | 0 <= i < |a.transactions| ensures SameEntry(a.transactions, c.transactions, i) {
      assert SameEntry(a.transactions, b.transactions, i) && SameEntry(b.transactions, c.transactions, i);
    }
  }

  lemma {:induction false} CloseInferenceRevises(l: Ledger, i: InferenceId, v: CommitVersion)
    ensures Revision(l, CloseInference(l, i, v), v)
  {}

  lemma {:induction false} CloseDecisionRevises(l: Ledger, d: DecisionId, v: CommitVersion)
    ensures Revision(l, CloseDecision(l, d, v), v)
  {}

  lemma {:induction false} CloseMergeRevises(l: Ledger, d: DecisionId, v: CommitVersion)
    ensures Revision(l, CloseMerge(l, d, v), v)
  {}

  lemma {:induction false} RevisionReflexive(l: Ledger, v: CommitVersion)
    ensures Revision(l, l, v)
  {}

  lemma {:induction false} RebuiltRevises(l: Ledger, v: CommitVersion)
    ensures Revision(l, Rebuilt(l), v)
  {
    hide RebuiltStatus;
  }

  lemma {:induction false} CloseCurrentRevises(l: Ledger, o: ObservationId, v: CommitVersion)
    ensures Revision(l, CloseCurrent(l, o, v), v)
  {
    hide Revision, ClosedInferences, ClosedDecisions;
    RevisionReflexive(l, v);
    var l1 := l.(inferences := CurrentClosedInferences(l, o, v));
    assert Revision(l, l1, v) by {
      if o in l.currentInference { CloseInferenceRevises(l, l.currentInference[o], v); } else { assert l1 == l; }
    }
    var l2 := CloseCurrent(l, o, v);
    assert l2 == l1.(decisions := CurrentClosedDecisions(l, o, v));
    assert Revision(l1, l2, v) by {
      RevisionReflexive(l1, v);
      if o in l.currentDecision { CloseDecisionRevises(l1, l.currentDecision[o], v); }
    }
    RevisionTransitive(l, l1, l2, v);
  }

  lemma {:induction false} ForgetRevises(l: Ledger, o: ObservationId, v: CommitVersion)
    ensures Revision(l, l.(currentInference := l.currentInference - {o}, currentDecision := l.currentDecision - {o}), v)
  {}

  lemma {:induction false} WithdrawRevises(l: Ledger, i: InferenceRecord, v: CommitVersion)
    ensures Revision(l, Withdraw(l, i, v), v)
  {
    hide CurrentClosedInferences, CurrentClosedDecisions, Revision;
    CloseCurrentRevises(l, i.observation, v);
    RevisionReflexive(l, v);
    if i.observation in l.currentInference && l.currentInference[i.observation] == i.id {
      var l1 := CloseCurrent(l, i.observation, v);
      ForgetRevises(l1, i.observation, v);
      RevisionTransitive(l, l1, Withdraw(l, i, v), v);
    }
  }

  lemma {:induction false} DeactivateCommandRevises(l: Ledger, c: Command, v: CommitVersion)
    ensures Revision(l, DeactivateCommand(l, c, v), v)
  {
    hide Revision, CloseCurrent, CloseDecision, ClosedMerges;
    match c
    case CommitResolution(i, d, _) =>
      WithdrawRevises(l, i, v);
      CloseDecisionRevises(Withdraw(l, i, v), d.id, v);
      RevisionTransitive(l, Withdraw(l, i, v), DeactivateCommand(l, c, v), v);
    case Merge(m, _, _, _, _, _) =>
      CloseMergeRevises(l, m, v);
      RevisionReflexive(l, v);
      if !OpenMerge(l, m) { assert DeactivateCommand(l, c, v) == l; }
    case EnqueueMaterialization(m, _, _) => OutboxRevises(l, m, v);
    case _ => RevisionReflexive(l, v);
  }

  lemma {:induction false} OutboxRevises(l: Ledger, m: MaterializationId, v: CommitVersion)
    ensures Revision(l, l.(outbox := l.outbox - {m}), v)
  {}

  lemma {:induction false} DeactivateCommandsRevises(l: Ledger, commands: seq<Command>, i: nat, v: CommitVersion)
    requires i <= |commands|
    ensures Revision(l, DeactivateCommands(l, commands, i, v), v)
  {
    hide Revision, DeactivateCommand;
    RevisionReflexive(l, v);
    if i > 0 {
      DeactivateCommandsRevises(l, commands, i - 1, v);
      var l1 := DeactivateCommands(l, commands, i - 1, v);
      DeactivateCommandRevises(l1, commands[i - 1], v);
      RevisionTransitive(l, l1, DeactivateCommands(l, commands, i, v), v);
    }
  }

  lemma {:induction false} ClearActiveRevises(l: Ledger, index: nat, v: CommitVersion)
    requires index < |l.transactions|
    ensures Revision(l, l.(transactions := l.transactions[index := l.transactions[index].(active := false)]), v)
  {}

  lemma {:induction false} DeactivateRevises(l: Ledger, t: TransactionId, v: CommitVersion)
    ensures Revision(l, Deactivate(l, t, v), v)
  {
    hide Revision, Rebuilt, DeactivateCommands;
    RevisionReflexive(l, v);
    if t in l.transactionIndexes && l.transactionIndexes[t] < |l.transactions| {
      var index := l.transactionIndexes[t];
      var commands := l.transactions[index].envelope.commands;
      var l1 := l.(transactions := l.transactions[index := l.transactions[index].(active := false)]);
      ClearActiveRevises(l, index, v);
      DeactivateCommandsRevises(l1, commands, |commands|, v);
      var l2 := DeactivateCommands(l1, commands, |commands|, v);
      RevisionTransitive(l, l1, l2, v);
      RebuiltRevises(l2, v);
      RevisionTransitive(l, l2, Rebuilt(l2), v);
    }
  }

  lemma {:induction false} DeactivateAllRevises(l: Ledger, targets: seq<TransactionId>, i: nat, v: CommitVersion)
    requires i <= |targets|
    ensures Revision(l, DeactivateAll(l, targets, i, v), v)
  {
    hide Revision, Deactivate;
    RevisionReflexive(l, v);
    if i > 0 {
      DeactivateAllRevises(l, targets, i - 1, v);
      var l1 := DeactivateAll(l, targets, i - 1, v);
      DeactivateRevises(l1, targets[i - 1], v);
      RevisionTransitive(l, l1, DeactivateAll(l, targets, i, v), v);
    }
  }

  lemma {:induction false} RevertRevises(l: Ledger, t: TransactionId, mode: RevertMode, v: CommitVersion)
    ensures Revision(l, RevertTransaction(l, t, mode, v), v)
  {
    hide Revision, DeactivateAll, RevertTargets;
    RevisionReflexive(l, v);
    if mode != Compensating {
      var targets := RevertTargets(l, t, mode);
      DeactivateAllRevises(l, targets, |targets|, v);
    }
  }

  lemma {:induction false} CloseMergesRevises(l: Ledger, ds: seq<DecisionId>, i: nat, v: CommitVersion)
    requires i <= |ds|
    ensures Revision(l, CloseMerges(l, ds, i, v), v)
    ensures CloseMerges(l, ds, i, v).identities == l.identities
  {
    hide Revision;
    RevisionReflexive(l, v);
    if i > 0 {
      CloseMergesRevises(l, ds, i - 1, v);
      var l1 := CloseMerges(l, ds, i - 1, v);
      CloseMergeRevises(l1, ds[i - 1], v);
      RevisionTransitive(l, l1, CloseMerges(l, ds, i, v), v);
    }
  }

  /** One of the first `n` partitions names `x`. */
  predicate HasPart(parts: seq<SplitPartition>, n: nat, x: IdentityId)
    requires n <= |parts|
  {
    exists k :: 0 <= k < n && parts[k].identity == x
  }

  predicate KnownParts(l: Ledger, parts: seq<SplitPartition>) {
    forall k :: 0 <= k < |parts| ==> parts[k].identity in l.identities
  }

  lemma {:induction false} ReopenKeys(identities: map<IdentityId, IdentityStatus>, parts: seq<SplitPartition>, i: nat)
    requires i <= |parts| && forall k :: 0 <= k < |parts| ==> parts[k].identity in identities
    ensures Reopen(identities, parts, i).Keys == identities.Keys
  {
    if i > 0 { ReopenKeys(identities, parts, i - 1); }
  }

  lemma {:induction false} SplitRevises(l: Ledger, plan: SplitPlan, v: CommitVersion)
    requires KnownParts(l, plan.partitions)
    ensures Revision(l, SplitIdentities(l, plan, v), v)
  {
    hide Revision, Rebuilt, CloseMerges, Reopen;
    var l1 := CloseMerges(l, plan.closeMerges, |plan.closeMerges|, v);
    CloseMergesRevises(l, plan.closeMerges, |plan.closeMerges|, v);
    ReopenKeys(l1.identities, plan.partitions, |plan.partitions|);
    var l2 := l1.(identities := Reopen(l1.identities, plan.partitions, |plan.partitions|));
    RemarkRevises(l1, l2.identities, v);
    RebuiltRevises(l2, v);
    RevisionTransitive(l, l1, l2, v);
    RevisionTransitive(l, l2, Rebuilt(l2), v);
  }

  lemma {:induction false} RemarkRevises(l: Ledger, identities: map<IdentityId, IdentityStatus>, v: CommitVersion)
    requires identities.Keys == l.identities.Keys
    ensures Revision(l, l.(identities := identities), v)
  {}

  // ----- what a validated command finds when its turn comes -----

  /** The facts about the partly applied batch that applying `c` relies on. */
  predicate Ready(l: Ledger, v: CommitVersion, c: Command) {
    match c
    case PersistObservation(o) => o.id !in l.observations
    case CommitResolution(i, d, created) =>
      && i.id !in l.inferences && d.id !in l.decisions && d.inference == i.id
      && i.observation in l.observations
      && i.validity == VersionInterval(v, None) && d.validity == VersionInterval(v, None)
      && (created.Some? ==> created.value !in l.identities)
    case CreateIdentity(x, _) => x !in l.identities
    case Promote(x, _) => x in l.identities
    case Merge(m, a, b, _, _, _) => a != b && m !in l.merges && a in l.identities && b in l.identities
    case Split(plan) => KnownParts(l, plan.partitions)
    case MakeDormant(x) => x in l.identities
    case Reactivate(x) => x in l.identities
    case Retire(x) => x in l.identities
    case _ => true
  }

  /** The partly applied batch holds exactly what was there before plus what is pending. */
  ghost predicate InStep(l: Ledger, p: Pending, now: Ledger) {
    && now.identities.Keys == l.identities.Keys + p.statuses.Keys
    && now.observations.Keys == l.observations.Keys + p.observations
    && now.inferences.Keys == l.inferences.Keys + p.inferences
    && now.decisions.Keys <= l.decisions.Keys + p.decisions
    && now.merges.Keys <= l.merges.Keys + p.decisions
    && SameLog(l, now)
  }

  lemma {:induction false} PartitionsKnown(l: Ledger, p: Pending, parts: seq<SplitPartition>)
    requires CheckPartitions(l, p, parts).Ok?
    ensures var q := CheckPartitions(l, p, parts).value;
            && q == p.(statuses := q.statuses)
            && l.identities.Keys + q.statuses.Keys == l.identities.Keys + p.statuses.Keys
    ensures forall k :: 0 <= k < |parts| ==> parts[k].identity in l.identities.Keys + p.statuses.Keys
    decreases |parts|
  {
    if parts != [] {
      PartitionsKnown(l, p.(statuses := p.statuses[parts[0].identity := Active]), parts[1..]);
      forall k | 0 <= k < |parts| ensures parts[k].identity in l.identities.Keys + p.statuses.Keys {
        if k > 0 { assert parts[k] == parts[1..][k - 1]; }
      }
    }
  }

  lemma {:induction false} CheckedIsReady(l: Ledger, p: Pending, now: Ledger, v: CommitVersion, c: Command)
    requires InStep(l, p, now) && CheckCommand(l, p, v, c).Ok?
    ensures Ready(now, v, c)
  {
    match c
    case Split(plan) => PartitionsKnown(l, p, plan.partitions);
    case _ =>
  }

  lemma {:induction false} CanonicalKnown(l: Ledger, x: IdentityId)
    ensures CanonicalOf(l, x).Some? <==> x in l.identities
    ensures CanonicalOf(l, x).Some? ==> CanonicalOf(l, x).value in l.identities
  {
    if x in l.identities {
      assert ClassMinimum(OpenMerges(l), l.identities.Keys, x) in Members(OpenMerges(l), l.identities.Keys, x);
    }
  }

  lemma {:induction false} AfterUnionKeys(
    identities: map<IdentityId, IdentityStatus>, minimum: IdentityId, replaced: IdentityId)
    requires minimum in identities && replaced in identities
    ensures AfterUnion(identities, minimum, replaced).Keys == identities.Keys
  {}

  lemma {:induction false} UnitedKnown(l: Ledger, left: IdentityId, right: IdentityId)
    requires UnitedMinima(l, left, right).Some?
    ensures var (minimum, replaced) := UnitedMinima(l, left, right).value;
            minimum in l.identities && replaced in l.identities && minimum < replaced
  {
    hide CanonicalOf;
    CanonicalKnown(l, left);
    CanonicalKnown(l, right);
  }

  lemma {:induction false} MergedKeys(l: Ledger, left: IdentityId, right: IdentityId)
    ensures MergedStatuses(l, left, right).Keys == l.identities.Keys
  {
    hide UnitedMinima, AfterUnion;
    if UnitedMinima(l, left, right).Some? {
      UnitedKnown(l, left, right);
      AfterUnionKeys(l.identities, UnitedMinima(l, left, right).value.0, UnitedMinima(l, left, right).value.1);
    }
  }

  lemma {:induction false} CurrentClosedKeys(l: Ledger, o: ObservationId, v: CommitVersion)
    ensures CurrentClosedInferences(l, o, v).Keys == l.inferences.Keys
    ensures CurrentClosedDecisions(l, o, v).Keys == l.decisions.Keys
  {
    hide CurrentClosedInferences, CurrentClosedDecisions;
    CloseCurrentRevises(l, o, v);
  }

  lemma {:induction false} StaysInStep(
    l: Ledger, p: Pending, now: Ledger, v: CommitVersion, t: TransactionId, c: Command)
    requires InStep(l, p, now) && CheckCommand(l, p, v, c).Ok?
    ensures InStep(l, CheckCommand(l, p, v, c).value, ApplyCommand(now, t, v, c))
  {
    hide Resolve, MergeIdentities, SplitIdentities, RevertTransaction, SameLog, InStep;
    match c
    case PersistObservation(_) => PlainStaysInStep(l, p, now, v, t, c);
    case CommitResolution(i, d, created) => ResolveStaysInStep(l, p, now, v, c);
    case CreateIdentity(_, _) => PlainStaysInStep(l, p, now, v, t, c);
    case Merge(_, _, _, _, _, _) => MergeStaysInStep(l, p, now, v, t, c);
    case Split(plan) => SplitStaysInStep(l, p, now, v, c);
    case Revert(target, mode) =>
      RevertRevises(now, target, mode, v);
      RevisionStaysInStep(l, p, now, RevertTransaction(now, target, mode, v), v);
    case EnqueueMaterialization(_, _, _) => OutboxStaysInStep(l, p, now, v, t, c);
    case Materialized(_, _) => OutboxStaysInStep(l, p, now, v, t, c);
    case _ => LifecycleStaysInStep(l, p, now, v, t, c);
  }

  lemma {:induction false} RevisionStaysInStep(l: Ledger, p: Pending, now: Ledger, next: Ledger, v: CommitVersion)
    requires InStep(l, p, now) && Revision(now, next, v)
    ensures InStep(l, p, next)
  {
    hide SameLog;
    SameLogTransitive(l, now, next);
  }

  lemma {:induction false} PlainStaysInStep(
    l: Ledger, p: Pending, now: Ledger, v: CommitVersion, t: TransactionId, c: Command)
    requires InStep(l, p, now) && CheckCommand(l, p, v, c).Ok? && (c.PersistObservation? || c.CreateIdentity?)
    ensures InStep(l, CheckCommand(l, p, v, c).value, ApplyCommand(now, t, v, c))
  {
    hide SameLog;
    SameLogFields(l, now, ApplyCommand(now, t, v, c));
  }

  lemma {:induction false} LifecycleStaysInStep(
    l: Ledger, p: Pending, now: Ledger, v: CommitVersion, t: TransactionId, c: Command)
    requires InStep(l, p, now) && CheckCommand(l, p, v, c).Ok?
    requires c.Promote? || c.MakeDormant? || c.Reactivate? || c.Retire?
    ensures InStep(l, CheckCommand(l, p, v, c).value, ApplyCommand(now, t, v, c))
  {
    hide InStep, Transition;
    var next := ApplyCommand(now, t, v, c);
    TransitionPending(l, p, c.identity, {Active, Dormant}, Resolved);
    TransitionPending(l, p, c.identity, {Active}, Dormant);
    TransitionPending(l, p, c.identity, {Dormant}, Active);
    TransitionPending(l, p, c.identity, {Active, Dormant}, Retired);
    RelabelStaysInStep(l, p, now, next, c.identity, CheckCommand(l, p, v, c).value);
  }

  /** Giving a known identity a status, as pending says too, keeps the batch in step. */
  lemma {:induction false} RelabelStaysInStep(
    l: Ledger, p: Pending, now: Ledger, next: Ledger, x: IdentityId, p': Pending)
    requires InStep(l, p, now) && x in l.identities.Keys + p.statuses.Keys
    requires x in p'.statuses && p' == p.(statuses := p.statuses[x := p'.statuses[x]])
    requires next.identities == now.identities[x := p'.statuses[x]]
    requires next == now.(identities := next.identities, promotions := next.promotions)
    ensures InStep(l, p', next)
  {
    hide SameLog;
    SameLogFields(l, now, next);
  }

  lemma {:induction false} TransitionPending(
    l: Ledger, p: Pending, x: IdentityId, from: set<IdentityStatus>, to: IdentityStatus)
    ensures Transition(l, p, x, from, to).Ok? ==>
              && x in l.identities.Keys + p.statuses.Keys
              && Transition(l, p, x, from, to).value == p.(statuses := p.statuses[x := to])
  {}

  lemma {:induction false} OutboxStaysInStep(
    l: Ledger, p: Pending, now: Ledger, v: CommitVersion, t: TransactionId, c: Command)
    requires InStep(l, p, now) && CheckCommand(l, p, v, c).Ok? && (c.EnqueueMaterialization? || c.Materialized?)
    ensures InStep(l, CheckCommand(l, p, v, c).value, ApplyCommand(now, t, v, c))
  {
    hide SameLog, Completed;
    SameLogFields(l, now, ApplyCommand(now, t, v, c));
  }

  lemma {:induction false} ResolutionPending(
    l: Ledger, p: Pending, v: CommitVersion, i: InferenceRecord, d: DecisionRecord, created: Option<IdentityId>)
    requires CheckResolution(l, p, v, i, d, created).Ok?
    ensures CheckResolution(l, p, v, i, d, created).value ==
            p.(inferences := p.inferences + {i.id}, decisions := p.decisions + {d.id},
               statuses := Born(p.statuses, created))
  {}

  lemma {:induction false} ResolveStaysInStep(l: Ledger, p: Pending, now: Ledger, v: CommitVersion, c: Command)
    requires InStep(l, p, now) && c.CommitResolution? && CheckCommand(l, p, v, c).Ok?
    ensures InStep(l, CheckCommand(l, p, v, c).value, Resolve(now, c.inference, c.decision, c.created, v))
  {
    hide SameLog, CurrentClosedInferences, CurrentClosedDecisions, CheckResolution;
    ResolutionPending(l, p, v, c.inference, c.decision, c.created);
    CurrentClosedKeys(now, c.inference.observation, v);
    SameLogFields(l, now, Resolve(now, c.inference, c.decision, c.created, v));
  }

  lemma {:induction false} MergeStaysInStep(
    l: Ledger, p: Pending, now: Ledger, v: CommitVersion, t: TransactionId, c: Command)
    requires InStep(l, p, now) && c.Merge? && CheckCommand(l, p, v, c).Ok?
    ensures InStep(l, CheckCommand(l, p, v, c).value, MergeIdentities(now, c, t, v))
  {
    hide SameLog, MergedStatuses, CheckEndpoint;
    MergedKeys(now, c.left, c.right);
    SameLogFields(l, now, MergeIdentities(now, c, t, v));
  }

  lemma {:induction false} SplitStaysInStep(l: Ledger, p: Pending, now: Ledger, v: CommitVersion, c: Command)
    requires InStep(l, p, now) && c.Split? && CheckCommand(l, p, v, c).Ok?
    ensures InStep(l, CheckCommand(l, p, v, c).value, SplitIdentities(now, c.plan, v))
  {
    hide SameLog, SplitIdentities, CheckPartitions;
    PartitionsKnown(l, p, c.plan.partitions);
    SplitRevises(now, c.plan, v);
    SameLogTransitive(l, now, SplitIdentities(now, c.plan, v));
  }

  lemma {:induction false} SameLogFields(l: Ledger, now: Ledger, next: Ledger)
    requires SameLog(l, now)
    requires next.version == now.version && next.transactionIndexes == now.transactionIndexes
    requires next.dependents == now.dependents && next.idempotency == now.idempotency
    requires next.transactions == now.transactions
    ensures SameLog(l, next)
  {}

  lemma {:induction false} NothingPending(l: Ledger)
    ensures InStep(l, NOTHING_PENDING, l)
  {}

  /** Validation passes over the batch in the order application does, so it vouches for every step. */
  lemma {:induction false} ValidatedInStep(l: Ledger, e: Envelope, v: CommitVersion, i: nat)
    requires i <= |e.commands| && CheckPrefix(l, v, e.commands, i).Ok?
    ensures InStep(l, CheckPrefix(l, v, e.commands, i).value, ApplyPrefix(l, e, v, i))
    ensures forall k :: 0 <= k < i ==> Ready(ApplyPrefix(l, e, v, k), v, e.commands[k])
  {
    hide InStep, Ready, CheckCommand, ApplyCommand;
    if i == 0 {
      NothingPending(l);
    } else {
      ValidatedInStep(l, e, v, i - 1);
      var p, now := CheckPrefix(l, v, e.commands, i - 1).value, ApplyPrefix(l, e, v, i - 1);
      CheckedIsReady(l, p, now, v, e.commands[i - 1]);
      StaysInStep(l, p, now, v, e.transaction, e.commands[i - 1]);
    }
  }

  ghost predicate Applicable(l: Ledger, e: Envelope, v: CommitVersion) {
    && v == l.version + 1
    && (forall k :: 0 <= k < |e.commands| ==> Ready(ApplyPrefix(l, e, v, k), v, e.commands[k]))
    && (forall k :: 0 <= k <= |e.commands| ==> SameLog(l, ApplyPrefix(l, e, v, k)))
  }

  lemma {:induction false} PrefixOk(l: Ledger, v: CommitVersion, commands: seq<Command>, i: nat, j: nat)
    requires i <= j <= |commands| && CheckPrefix(l, v, commands, j).Ok?
    ensures CheckPrefix(l, v, commands, i).Ok?
    decreases j
  {
    hide CheckCommand;
    if i < j { PrefixOk(l, v, commands, i, j - 1); }
  }

  lemma {:induction false} ValidatedIsApplicable(l: Ledger, e: Envelope)
    requires Validate(l, e).Ok?
    ensures Validate(l, e).value == l.version + 1 && Applicable(l, e, l.version + 1)
  {
    hide Ready, CheckCommand, ApplyCommand, SameLog;
    var v := l.version + 1;
    forall k | 0 <= k <= |e.commands| ensures SameLog(l, ApplyPrefix(l, e, v, k)) {
      PrefixOk(l, v, e.commands, k, |e.commands|);
      ValidatedInStep(l, e, v, k);
    }
    ValidatedInStep(l, e, v, |e.commands|);
  }

  lemma {:induction false} ReadyAt(l: Ledger, e: Envelope, v: CommitVersion, i: nat)
    requires Applicable(l, e, v) && i < |e.commands|
    ensures Ready(ApplyPrefix(l, e, v, i), v, e.commands[i])
    ensures SameLog(l, ApplyPrefix(l, e, v, i)) && SameLog(l, ApplyPrefix(l, e, v, i + 1))
  {
    hide Ready, ApplyPrefix, SameLog;
  }
}
