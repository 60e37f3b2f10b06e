/** When the ledger accepts a batch, told from its log, its records and the commands alone.

    Validation keeps an overlay of what earlier commands of the batch add. Here nothing of that appears: a
    command meets the observations, records and writes of the ledger and of the commands before it, and each
    identity has the status the last of those commands gave it.
  */
module Acceptance {
  import opened Types
  import opened LedgerSpec
  import opened LedgerFrames
  import opened LedgerRuns
  import opened Dependencies

  // ----- what a command adds -----

  predicate Observes(c: Command, o: ObservationId) { c.PersistObservation? && c.observation.id == o }

  predicate Infers(c: Command, i: InferenceId) { c.CommitResolution? && c.inference.id == i }

  /** Resolutions and merges draw their decision ids from one supply. */
  predicate Decides(c: Command, d: DecisionId) {
    (c.CommitResolution? && c.decision.id == d) || (c.Merge? && c.merge == d)
  }

  predicate Enqueues(c: Command, m: MaterializationId) { c.EnqueueMaterialization? && c.materialization == m }

  /** The status a command gives an identity by itself. */
  function Label(c: Command, x: IdentityId): Option<IdentityStatus> {
    match c
    case CommitResolution(_, _, created) => if created == Some(x) then Some(Active) else None
    case CreateIdentity(y, _) => if x == y then Some(Active) else None
    case Promote(y, _) => if x == y then Some(Resolved) else None
    case Split(plan) => if HasPart(plan.partitions, |plan.partitions|, x) then Some(Active) else None
    case MakeDormant(y) => if x == y then Some(Dormant) else None
    case Reactivate(y) => if x == y then Some(Active) else None
    case Retire(y) => if x == y then Some(Retired) else None
    case _ => None
  }

  // ----- what a command meets -----

  ghost predicate Observed(l: Ledger, commands: seq<Command>, i: nat, o: ObservationId)
    requires i <= |commands|
  {
    o in l.observations || exists j: nat {:trigger commands[j]} :: j < i && Observes(commands[j], o)
  }

  ghost predicate Inferred(l: Ledger, commands: seq<Command>, i: nat, x: InferenceId)
    requires i <= |commands|
  {
    x in l.inferences || exists j: nat {:trigger commands[j]} :: j < i && Infers(commands[j], x)
  }

  ghost predicate Decided(l: Ledger, commands: seq<Command>, i: nat, d: DecisionId)
    requires i <= |commands|
  {
    d in l.decisions || exists j: nat {:trigger commands[j]} :: j < i && Decides(commands[j], d)
  }

  ghost predicate Enqueued(l: Ledger, commands: seq<Command>, i: nat, m: MaterializationId)
    requires i <= |commands|
  {
    m in l.outbox || exists j: nat {:trigger commands[j]} :: j < i && Enqueues(commands[j], m)
  }

  /** The status left by the earlier commands. */
  function StatusBefore(l: Ledger, commands: seq<Command>, i: nat, x: IdentityId): Option<IdentityStatus>
    requires i <= |commands|
  {
    if i == 0 then if x in l.identities then Some(l.identities[x]) else None
    else if Label(commands[i - 1], x).Some? then Label(commands[i - 1], x)
    else StatusBefore(l, commands, i - 1, x)
  }

  /** The log entry of `t` is active. */
  ghost predicate InForce(l: Ledger, t: TransactionId) {
    exists k: nat {:trigger l.transactions[k]} ::
      k < |l.transactions| && l.transactions[k].envelope.transaction == t && l.transactions[k].active
  }

  /** An active log entry declares to depend on `t`. */
  ghost predicate Supporting(l: Ledger, t: TransactionId) {
    exists k: nat {:trigger l.transactions[k]} ::
      k < |l.transactions| && t in l.transactions[k].envelope.dependsOn && l.transactions[k].active
  }

  // ----- what each command needs -----

  predicate Attributed(inference: InferenceRecord, decision: DecisionRecord) {
    && |inference.providers| > 0
    && (forall i {:trigger inference.providers[i]} :: 0 <= i < |inference.providers| ==>
          var a := inference.providers[i];
          a.provider > 0 && a.schema > 0 && a.modelVersion > 0 && a.calibrationId > 0)
    && inference.solverVersion > 0 && decision.policyVersion > 0 && decision.lossVersion > 0
  }

  /** A new identity must be new; an assignment to a latent one must meet it active or dormant. */
  predicate Creates(
    l: Ledger, commands: seq<Command>, i: nat, action: DecisionAction, created: Option<IdentityId>)
    requires i <= |commands|
  {
    match action
    case CreateNew => created.Some? && StatusBefore(l, commands, i, created.value) == None
    case Assign(Latent(x)) => created == None && Living(StatusBefore(l, commands, i, x))
    case _ => created == None
  }

  predicate Living(status: Option<IdentityStatus>) { status == Some(Active) || status == Some(Dormant) }

  predicate Joinable(status: Option<IdentityStatus>) { Living(status) || status == Some(Merged) }

  ghost predicate PartKnown(l: Ledger, commands: seq<Command>, i: nat, part: SplitPartition)
    requires i <= |commands|
  {
    && StatusBefore(l, commands, i, part.identity).Some?
    && forall k {:trigger part.observations[k]} :: 0 <= k < |part.observations| ==>
         Observed(l, commands, i, part.observations[k])
  }

  /** What command `i` of the batch needs to be accepted. */
  ghost predicate Admits(l: Ledger, commands: seq<Command>, i: nat)
    requires i < |commands|
  {
    match commands[i]
    case PersistObservation(o) =>
      && !Observed(l, commands, i, o.id)
      && (o.supersedes.Some? ==>
            o.supersedes.value == o.id || Observed(l, commands, i, o.supersedes.value))
    case CommitResolution(inference, decision, created) =>
      && Observed(l, commands, i, inference.observation)
      && !Inferred(l, commands, i, inference.id) && !Decided(l, commands, i, decision.id)
      && decision.inference == inference.id
      && inference.validity.begin == decision.validity.begin == l.version + 1
      && inference.validity.end == decision.validity.end == None
      && Attributed(inference, decision)
      && Creates(l, commands, i, decision.action, created)
    case CreateIdentity(x, _) => StatusBefore(l, commands, i, x) == None
    case Promote(x, _) => Living(StatusBefore(l, commands, i, x))
    case Merge(m, left, right, support, _, _) =>
      && left != right && !Decided(l, commands, i, m) && m !in l.merges
      && Joinable(StatusBefore(l, commands, i, left)) && Joinable(StatusBefore(l, commands, i, right))
      && (forall d :: d in support ==> d == m || Decided(l, commands, i, d))
    case Split(plan) =>
      && (forall d :: d in plan.closeMerges ==> d in l.merges && l.merges[d].validity.end == None)
      && (forall k {:trigger plan.partitions[k]} :: 0 <= k < |plan.partitions| ==>
            PartKnown(l, commands, i, plan.partitions[k]))
    case MakeDormant(x) => StatusBefore(l, commands, i, x) == Some(Active)
    case Reactivate(x) => StatusBefore(l, commands, i, x) == Some(Dormant)
    case Retire(x) => Living(StatusBefore(l, commands, i, x))
    case Revert(t, mode) => InForce(l, t) && (mode == Strict ==> !Supporting(l, t))
    case EnqueueMaterialization(m, d, _) => !Enqueued(l, commands, i, m) && Decided(l, commands, i, d)
    case Materialized(m, d) => m in l.outbox && !l.outbox[m].completed && l.outbox[m].decision == d
  }

  /** Why command `i` is refused, when the commands before it are not: the first of its conditions that fails. */
  ghost predicate Reason(l: Ledger, commands: seq<Command>, i: nat, error: LedgerError)
    requires i < |commands|
  {
    match commands[i]
    case PersistObservation(o) =>
      if Observed(l, commands, i, o.id) then error == ImmutableObservation(o.id)
      else o.supersedes.Some? && error == MissingSupersededObservation(o.supersedes.value)
    case CommitResolution(inference, decision, created) =>
      if !Observed(l, commands, i, inference.observation) then error == MissingObservation(inference.observation)
      else if Inferred(l, commands, i, inference.id) || Decided(l, commands, i, decision.id)
      then error == DuplicateRecord
      else if decision.inference != inference.id || inference.validity != VersionInterval(l.version + 1, None)
              || decision.validity != VersionInterval(l.version + 1, None) then error == InvalidLineage
      else if !Attributed(inference, decision) then error == IncompleteProvenance
      else if decision.action.CreateNew? && created.Some? then error == DuplicateIdentity(created.value)
      else if decision.action.CreateNew? || created.Some? then error == InvalidCreation
      else
        && decision.action.Assign? && decision.action.target.Latent?
        && var x := decision.action.target.identity;
           error == if StatusBefore(l, commands, i, x) == None then MissingIdentity(x) else InvalidAssignment
    case CreateIdentity(x, _) => error == DuplicateIdentity(x)
    case Merge(m, left, right, support, _, _) =>
      if left == right || Decided(l, commands, i, m) || m in l.merges then error == InvalidMerge
      else if StatusBefore(l, commands, i, left) == None then error == MissingIdentity(left)
      else if !Joinable(StatusBefore(l, commands, i, left)) then error == InvalidMerge
      else if StatusBefore(l, commands, i, right) == None then error == MissingIdentity(right)
      else error == InvalidMerge
    case Split(plan) =>
      if exists d :: d in plan.closeMerges && !(d in l.merges && l.merges[d].validity.end == None)
      then error == InvalidSplit
      else exists k: nat {:trigger plan.partitions[k]} ::
             k < |plan.partitions| && PartReason(l, commands, i, plan.partitions, k, error)
    case Revert(t, mode) => error == if InForce(l, t) then ActiveDependents else InvalidRevert
    case EnqueueMaterialization(m, d, _) =>
      error == if Enqueued(l, commands, i, m) then DuplicateMaterialization(m) else InvalidLineage
    case Materialized(_, _) => error == InvalidReceipt
    case _ =>
      error == match StatusBefore(l, commands, i, commands[i].identity)
               case None => MissingIdentity(commands[i].identity)
               case Some(s) => InvalidLifecycle(commands[i].identity, s)
  }

  /** Partition `k` is the first that is not known, and `error` names what of it is missing first. */
  ghost predicate PartReason(
    l: Ledger, commands: seq<Command>, i: nat, parts: seq<SplitPartition>, k: nat, error: LedgerError)
    requires i <= |commands| && k < |parts|
  {
    && (forall j {:trigger parts[j]} :: 0 <= j < k ==> PartKnown(l, commands, i, parts[j]))
    && if StatusBefore(l, commands, i, parts[k].identity) == None then error == MissingIdentity(parts[k].identity)
       else exists n {:trigger parts[k].observations[n]} ::
              && 0 <= n < |parts[k].observations| && error == MissingObservation(parts[k].observations[n])
              && !Observed(l, commands, i, parts[k].observations[n])
              && forall h {:trigger parts[k].observations[h]} :: 0 <= h < n ==>
                   Observed(l, commands, i, parts[k].observations[h])
  }

  /** The log has an entry of `t`. */
  ghost predicate LoggedAs(l: Ledger, t: TransactionId) {
    exists k: nat {:trigger l.transactions[k]} ::
      k < |l.transactions| && l.transactions[k].envelope.transaction == t
  }

  ghost predicate AllInForce(l: Ledger, ts: seq<TransactionId>) {
    forall k: nat {:trigger ts[k]} :: k < |ts| ==> InForce(l, ts[k])
  }

  /** What a batch under a new replay key needs to be accepted. */
  ghost predicate Admissible(l: Ledger, e: Envelope) {
    && e.expectedVersion == l.version && l.version < 0xFFFF_FFFF_FFFF_FFFF
    && !LoggedAs(l, e.transaction) && AllInForce(l, e.dependsOn)
    && (forall i: nat {:trigger Admits(l, e.commands, i)} :: i < |e.commands| ==> Admits(l, e.commands, i))
  }

  // ----- what the overlay holds -----

  /** The overlay after `i` commands holds what those commands add, and nothing else. */
  ghost predicate Summarises(l: Ledger, commands: seq<Command>, i: nat, p: Pending)
    requires i <= |commands|
  {
    && (forall o {:trigger Observed(l, commands, i, o)} ::
          Observed(l, commands, i, o) <==> o in l.observations || o in p.observations)
    && (forall x {:trigger Inferred(l, commands, i, x)} ::
          Inferred(l, commands, i, x) <==> x in l.inferences || x in p.inferences)
    && (forall d {:trigger Decided(l, commands, i, d)} ::
          Decided(l, commands, i, d) <==> d in l.decisions || d in p.decisions)
    && (forall m {:trigger Enqueued(l, commands, i, m)} ::
          Enqueued(l, commands, i, m) <==> m in l.outbox || m in p.materializations)
    && (forall x {:trigger StatusBefore(l, commands, i, x)} ::
          StatusBefore(l, commands, i, x) == StatusOf(l, p, x))
  }

  lemma {:induction false} NothingSummarised(l: Ledger, commands: seq<Command>)
    ensures Summarises(l, commands, 0, NOTHING_PENDING)
  {}

  /** What one accepted command adds to the overlay. */
  ghost predicate AddsTo(l: Ledger, p: Pending, p': Pending, c: Command) {
    && (forall o :: o in p'.observations <==> o in p.observations || Observes(c, o))
    && (forall x :: x in p'.inferences <==> x in p.inferences || Infers(c, x))
    && (forall d :: d in p'.decisions <==> d in p.decisions || Decides(c, d))
    && (forall m :: m in p'.materializations <==> m in p.materializations || Enqueues(c, m))
    && (forall x {:trigger StatusOf(l, p', x)} ::
          StatusOf(l, p', x) == if Label(c, x).Some? then Label(c, x) else StatusOf(l, p, x))
  }

  lemma {:induction false} PartitionsAdd(l: Ledger, p: Pending, parts: seq<SplitPartition>)
    requires CheckPartitions(l, p, parts).Ok?
    ensures var p' := CheckPartitions(l, p, parts).value;
            && p'.(statuses := p.statuses) == p
            && forall x {:trigger StatusOf(l, p', x)} ::
                 StatusOf(l, p', x) == if HasPart(parts, |parts|, x) then Some(Active) else StatusOf(l, p, x)
    decreases |parts|
  {
    hide FirstMissing;
    if parts != [] {
      PartitionsAdd(l, p.(statuses := p.statuses[parts[0].identity := Active]), parts[1..]);
      forall x ensures HasPart(parts, |parts|, x) <==> parts[0].identity == x || HasPart(parts[1..], |parts[1..]|, x) {
        FirstOrLater(parts, x);
      }
    }
  }

  lemma {:induction false} FirstOrLater(parts: seq<SplitPartition>, x: IdentityId)
    requires parts != []
    ensures HasPart(parts, |parts|, x) <==> parts[0].identity == x || HasPart(parts[1..], |parts[1..]|, x)
  {
    if HasPart(parts, |parts|, x) {
      var i: nat :| i < |parts| && parts[i].identity == x;
      if i > 0 { assert parts[1..][i - 1] == parts[i]; }
    }
  }

  lemma {:induction false} CheckedAdds(l: Ledger, p: Pending, next: CommitVersion, c: Command)
    requires CheckCommand(l, p, next, c).Ok?
    ensures AddsTo(l, p, CheckCommand(l, p, next, c).value, c)
  {
    hide HasPart, CheckPartitions, CheckEndpoint, Incomplete, IsActive;
    if c.Split? { PartitionsAdd(l, p, c.plan.partitions); }
  }

  lemma {:induction false} OneMoreCommand(l: Ledger, commands: seq<Command>, i: nat)
    requires i < |commands|
    ensures forall o {:trigger Observed(l, commands, i + 1, o)} ::
              Observed(l, commands, i + 1, o) <==> Observed(l, commands, i, o) || Observes(commands[i], o)
    ensures forall x {:trigger Inferred(l, commands, i + 1, x)} ::
              Inferred(l, commands, i + 1, x) <==> Inferred(l, commands, i, x) || Infers(commands[i], x)
    ensures forall d {:trigger Decided(l, commands, i + 1, d)} ::
              Decided(l, commands, i + 1, d) <==> Decided(l, commands, i, d) || Decides(commands[i], d)
    ensures forall m {:trigger Enqueued(l, commands, i + 1, m)} ::
              Enqueued(l, commands, i + 1, m) <==> Enqueued(l, commands, i, m) || Enqueues(commands[i], m)
  {
    hide Observes, Infers, Decides, Enqueues;
    var c := commands[i];
    forall o ensures Observed(l, commands, i + 1, o) <==> Observed(l, commands, i, o) || Observes(c, o) {
      if Observes(c, o) { assert Observes(commands[i], o); }
    }
    forall x ensures Inferred(l, commands, i + 1, x) <==> Inferred(l, commands, i, x) || Infers(c, x) {
      if Infers(c, x) { assert Infers(commands[i], x); }
    }
    forall d ensures Decided(l, commands, i + 1, d) <==> Decided(l, commands, i, d) || Decides(c, d) {
      if Decides(c, d) { assert Decides(commands[i], d); }
    }
    forall m ensures Enqueued(l, commands, i + 1, m) <==> Enqueued(l, commands, i, m) || Enqueues(c, m) {
      if Enqueues(c, m) { assert Enqueues(commands[i], m); }
    }
  }

  lemma {:induction false} StillSummarises(l: Ledger, commands: seq<Command>, i: nat, p: Pending, p': Pending)
    requires i < |commands| && Summarises(l, commands, i, p) && AddsTo(l, p, p', commands[i])
    ensures Summarises(l, commands, i + 1, p')
  {
    hide Observed, Inferred, Decided, Enqueued, StatusOf, Label;
    OneMoreCommand(l, commands, i);
    forall x ensures StatusBefore(l, commands, i + 1, x) == StatusOf(l, p', x) {
      assert StatusBefore(l, commands, i, x) == StatusOf(l, p, x);
    }
    forall o ensures Observed(l, commands, i + 1, o) <==> o in l.observations || o in p'.observations {
      assert Observed(l, commands, i, o) <==> o in l.observations || o in p.observations;
    }
    forall x ensures Inferred(l, commands, i + 1, x) <==> x in l.inferences || x in p'.inferences {
      assert Inferred(l, commands, i, x) <==> x in l.inferences || x in p.inferences;
    }
    forall d ensures Decided(l, commands, i + 1, d) <==> d in l.decisions || d in p'.decisions {
      assert Decided(l, commands, i, d) <==> d in l.decisions || d in p.decisions;
    }
    forall m ensures Enqueued(l, commands, i + 1, m) <==> m in l.outbox || m in p'.materializations {
      assert Enqueued(l, commands, i, m) <==> m in l.outbox || m in p.materializations;
    }
  }

  // ----- one command -----

  lemma {:induction false} FirstMissingIs(l: Ledger, p: Pending, observations: seq<ObservationId>)
    ensures FirstMissing(l, p, observations) == None <==>
            forall k {:trigger observations[k]} :: 0 <= k < |observations| ==>
              observations[k] in l.observations || observations[k] in p.observations
    ensures FirstMissing(l, p, observations).Some? ==>
              exists n {:trigger observations[n]} ::
                && 0 <= n < |observations| && observations[n] == FirstMissing(l, p, observations).value
                && observations[n] !in l.observations && observations[n] !in p.observations
                && forall h {:trigger observations[h]} :: 0 <= h < n ==>
                     observations[h] in l.observations || observations[h] in p.observations
  {
    if observations != [] {
      var rest := observations[1..];
      FirstMissingIs(l, p, rest);
      if observations[0] in l.observations || observations[0] in p.observations {
        if FirstMissing(l, p, rest).Some? {
          var n :| 0 <= n < |rest| && rest[n] == FirstMissing(l, p, rest).value
                   && rest[n] !in l.observations && rest[n] !in p.observations
                   && forall h {:trigger rest[h]} :: 0 <= h < n ==>
                        rest[h] in l.observations || rest[h] in p.observations;
          forall h | 0 <= h < n + 1 ensures observations[h] in l.observations || observations[h] in p.observations {
            if h > 0 { assert observations[h] == rest[h - 1]; }
          }
          assert observations[n + 1] == rest[n];
        } else {
          forall k | 0 <= k < |observations|
            ensures observations[k] in l.observations || observations[k] in p.observations
          {
            if k > 0 { assert observations[k] == rest[k - 1]; }
          }
        }
      }
    }
  }

  // ----- the transaction index and the dependents index name the log -----

  /** Both indexes are exact: every log entry by its transaction, every declared dependency by its dependent. */
  ghost predicate LogIndexed(l: Ledger) {
    && WellIndexed(l)
    && (forall t, d {:trigger t in DependentsOf(l.dependents, d)} ::
          t in DependentsOf(l.dependents, d) <==> DeclaredBy(l, t, d))
  }

  ghost predicate DeclaredBy(l: Ledger, t: TransactionId, d: TransactionId) {
    exists k: nat {:trigger l.transactions[k]} ::
      k < |l.transactions| && l.transactions[k].envelope.transaction == t && d in l.transactions[k].envelope.dependsOn
  }

  /** They are in every run. */
  lemma {:induction false} RunsIndexed(log: seq<Envelope>, k: nat)
    requires ValidLog(log) && k <= |log|
    ensures LogIndexed(State(log, k))
  {
    hide ValidLog, Accepted, WellIndexed, Declared, DeclaredBy;
    var l := State(log, k);
    StateWellIndexed(log, k);
    forall t, d ensures t in DependentsOf(l.dependents, d) <==> DeclaredBy(l, t, d) {
      DependentsExact(log, k, t, d);
      DeclaredInLog(log, k, l, t, d);
    }
  }

  lemma {:induction false} DeclaredInLog(log: seq<Envelope>, k: nat, l: Ledger, t: TransactionId, d: TransactionId)
    requires k <= |log| && |l.transactions| == k && forall i :: 0 <= i < k ==> l.transactions[i].envelope == log[i]
    ensures Declared(log, k, t, d) <==> DeclaredBy(l, t, d)
  {
    if DeclaredBy(l, t, d) {
      var i: nat :| i < k && l.transactions[i].envelope.transaction == t && d in l.transactions[i].envelope.dependsOn;
      assert DependsAt(log, i, t, d);
    }
  }

  lemma {:induction false} ActiveIsInForce(l: Ledger, t: TransactionId)
    requires WellIndexed(l)
    ensures IsActive(l, t) <==> InForce(l, t)
  {
    if InForce(l, t) {
      var k: nat :| k < |l.transactions| && l.transactions[k].envelope.transaction == t && l.transactions[k].active;
      assert Indexed(l, k);
    }
  }

  lemma {:induction false} ActiveDependentIsSupporting(l: Ledger, t: TransactionId)
    requires LogIndexed(l)
    ensures (t in l.dependents && exists d :: d in l.dependents[t] && IsActive(l, d)) <==> Supporting(l, t)
  {
    hide WellIndexed;
    if t in l.dependents && exists d :: d in l.dependents[t] && IsActive(l, d) {
      var d :| d in l.dependents[t] && IsActive(l, d);
      assert d in DependentsOf(l.dependents, t);
      ActiveIsInForce(l, d);
      DependentEntry(l, d, t);
    } else if Supporting(l, t) {
      var k: nat :| k < |l.transactions| && t in l.transactions[k].envelope.dependsOn && l.transactions[k].active;
      var d := l.transactions[k].envelope.transaction;
      assert DeclaredBy(l, d, t) && d in DependentsOf(l.dependents, t);
      ActiveIsInForce(l, d);
    }
  }

  lemma {:induction false} DependentEntry(l: Ledger, d: TransactionId, t: TransactionId)
    requires WellIndexed(l) && DeclaredBy(l, d, t) && InForce(l, d)
    ensures Supporting(l, t)
  {
    var k: nat :| k < |l.transactions| && l.transactions[k].envelope.transaction == d
                  && t in l.transactions[k].envelope.dependsOn;
    var j: nat :| j < |l.transactions| && l.transactions[j].envelope.transaction == d && l.transactions[j].active;
    assert Indexed(l, k) && Indexed(l, j);
  }

  // ----- one command -----

  /** As far as partitions ask: the observations, and which identities there are. */
  ghost predicate KnowsParts(l: Ledger, commands: seq<Command>, i: nat, p: Pending)
    requires i <= |commands|
  {
    && (forall o {:trigger Observed(l, commands, i, o)} ::
          Observed(l, commands, i, o) <==> o in l.observations || o in p.observations)
    && (forall x {:trigger StatusBefore(l, commands, i, x)} ::
          StatusBefore(l, commands, i, x).Some? <==> StatusOf(l, p, x).Some?)
  }

  lemma {:induction false} PartKnownIs(l: Ledger, commands: seq<Command>, i: nat, p: Pending, part: SplitPartition)
    requires i <= |commands| && KnowsParts(l, commands, i, p)
    ensures PartKnown(l, commands, i, part) <==>
            StatusOf(l, p, part.identity).Some? && FirstMissing(l, p, part.observations) == None
  {
    hide Observed, StatusBefore, StatusOf;
    FirstMissingIs(l, p, part.observations);
    assert StatusBefore(l, commands, i, part.identity).Some? <==> StatusOf(l, p, part.identity).Some?;
    forall k | 0 <= k < |part.observations|
      ensures Observed(l, commands, i, part.observations[k]) <==>
              part.observations[k] in l.observations || part.observations[k] in p.observations {}
  }

  lemma {:induction false} PartReasonIs(
    l: Ledger, commands: seq<Command>, i: nat, p: Pending, parts: seq<SplitPartition>)
    requires i <= |commands| && KnowsParts(l, commands, i, p) && parts != []
    requires !PartKnown(l, commands, i, parts[0])
    ensures var r := CheckPartitions(l, p, parts); r.Err? && PartReason(l, commands, i, parts, 0, r.error)
  {
    hide Observed, StatusBefore, StatusOf, PartKnown;
    PartKnownIs(l, commands, i, p, parts[0]);
    FirstMissingIs(l, p, parts[0].observations);
    assert StatusBefore(l, commands, i, parts[0].identity).Some? <==> StatusOf(l, p, parts[0].identity).Some?;
    if StatusOf(l, p, parts[0].identity).Some? {
      var missing := parts[0].observations;
      var n :| 0 <= n < |missing| && missing[n] == FirstMissing(l, p, missing).value
               && missing[n] !in l.observations && missing[n] !in p.observations
               && forall h {:trigger missing[h]} :: 0 <= h < n ==>
                    missing[h] in l.observations || missing[h] in p.observations;
      assert Observed(l, commands, i, missing[n]) <==> missing[n] in l.observations || missing[n] in p.observations;
      forall h | 0 <= h < n ensures Observed(l, commands, i, missing[h]) {
        assert Observed(l, commands, i, missing[h]) <==> missing[h] in l.observations || missing[h] in p.observations;
      }
    }
  }

  ghost predicate AllPartsKnown(l: Ledger, commands: seq<Command>, i: nat, parts: seq<SplitPartition>)
    requires i <= |commands|
  {
    forall k {:trigger parts[k]} :: 0 <= k < |parts| ==> PartKnown(l, commands, i, parts[k])
  }

  lemma {:induction false} FirstPartAndRest(l: Ledger, commands: seq<Command>, i: nat, parts: seq<SplitPartition>)
    requires i <= |commands| && parts != []
    ensures AllPartsKnown(l, commands, i, parts) <==>
            PartKnown(l, commands, i, parts[0]) && AllPartsKnown(l, commands, i, parts[1..])
  {
    hide PartKnown;
    if PartKnown(l, commands, i, parts[0]) && AllPartsKnown(l, commands, i, parts[1..]) {
      forall k | 0 <= k < |parts| ensures PartKnown(l, commands, i, parts[k]) {
        if k > 0 { assert parts[1..][k - 1] == parts[k]; }
      }
    }
    if AllPartsKnown(l, commands, i, parts) {
      forall k | 0 <= k < |parts[1..]| ensures PartKnown(l, commands, i, parts[1..][k]) {
        assert parts[k + 1] == parts[1..][k];
      }
    }
  }

  lemma {:induction false} LaterReason(
    l: Ledger, commands: seq<Command>, i: nat, parts: seq<SplitPartition>, k: nat, error: LedgerError)
    requires i <= |commands| && parts != [] && PartKnown(l, commands, i, parts[0])
    requires k < |parts[1..]| && PartReason(l, commands, i, parts[1..], k, error)
    ensures PartReason(l, commands, i, parts, k + 1, error)
  {
    hide PartKnown, Observed;
    assert parts[1..][k] == parts[k + 1];
    forall j | 0 <= j < k + 1 ensures PartKnown(l, commands, i, parts[j]) {
      if j > 0 { assert parts[1..][j - 1] == parts[j]; }
    }
  }

  lemma {:induction false} PartitionsDecided(
    l: Ledger, commands: seq<Command>, i: nat, p: Pending, parts: seq<SplitPartition>)
    requires i <= |commands| && KnowsParts(l, commands, i, p)
    ensures var r := CheckPartitions(l, p, parts);
            && (r.Ok? <==> AllPartsKnown(l, commands, i, parts))
            && (r.Err? ==> exists k: nat {:trigger parts[k]} ::
                  k < |parts| && PartReason(l, commands, i, parts, k, r.error))
    decreases |parts|
  {
    hide Observed, StatusBefore, PartKnown, FirstMissing, PartReason, AllPartsKnown;
    if parts == [] {
      NoParts(l, commands, i);
    } else {
      FirstPartAndRest(l, commands, i, parts);
      PartKnownIs(l, commands, i, p, parts[0]);
      if PartKnown(l, commands, i, parts[0]) {
        var p' := p.(statuses := p.statuses[parts[0].identity := Active]);
        StillKnowsParts(l, commands, i, p, p', parts[0].identity);
        PartitionsDecided(l, commands, i, p', parts[1..]);
        var r := CheckPartitions(l, p', parts[1..]);
        if r.Err? {
          var k: nat :| k < |parts[1..]| && PartReason(l, commands, i, parts[1..], k, r.error);
          LaterReason(l, commands, i, parts, k, r.error);
          assert parts[1..][k] == parts[k + 1];
        }
      } else {
        PartReasonIs(l, commands, i, p, parts);
      }
    }
  }

  lemma {:induction false} NoParts(l: Ledger, commands: seq<Command>, i: nat)
    requires i <= |commands|
    ensures AllPartsKnown(l, commands, i, [])
  {}

  lemma {:induction false} StillKnowsParts(
    l: Ledger, commands: seq<Command>, i: nat, p: Pending, p': Pending, x: IdentityId)
    requires i <= |commands| && KnowsParts(l, commands, i, p) && StatusOf(l, p, x).Some?
    requires p' == p.(statuses := p.statuses[x := Active])
    ensures KnowsParts(l, commands, i, p')
  {
    hide Observed, StatusBefore;
    forall y ensures StatusBefore(l, commands, i, y).Some? <==> StatusOf(l, p', y).Some? {
      assert StatusBefore(l, commands, i, y).Some? <==> StatusOf(l, p, y).Some?;
    }
  }

  /** Accepted or refused, and why. */
  ghost predicate DecidedBy(l: Ledger, commands: seq<Command>, i: nat, r: Result<Pending, LedgerError>)
    requires i < |commands|
  {
    (r.Ok? <==> Admits(l, commands, i)) && (r.Err? ==> Reason(l, commands, i, r.error))
  }

  lemma {:induction false} SplitDecided(l: Ledger, commands: seq<Command>, i: nat, p: Pending)
    requires i < |commands| && Summarises(l, commands, i, p) && commands[i].Split?
    ensures DecidedBy(l, commands, i, CheckCommand(l, p, l.version + 1, commands[i]))
  {
    hide Observed, Inferred, Decided, Enqueued, StatusBefore, StatusOf, PartKnown, CheckPartitions, PartReason;
    var plan, r := commands[i].plan, CheckCommand(l, p, l.version + 1, commands[i]);
    PartitionsDecided(l, commands, i, p, plan.partitions);
    assert forall d :: OpenMerge(l, d) <==> d in l.merges && l.merges[d].validity.end == None;
    if exists d :: d in plan.closeMerges && !OpenMerge(l, d) {
      assert r == Err(InvalidSplit) && !Admits(l, commands, i) && Reason(l, commands, i, InvalidSplit);
    } else {
      assert r == CheckPartitions(l, p, plan.partitions);
      assert Admits(l, commands, i) <==> AllPartsKnown(l, commands, i, plan.partitions);
      if r.Err? {
        var k: nat :| k < |plan.partitions| && PartReason(l, commands, i, plan.partitions, k, r.error);
        assert forall d :: d in plan.closeMerges ==> d in l.merges && l.merges[d].validity.end == None;
        assert commands[i].plan.partitions[k] == plan.partitions[k];
        assert Reason(l, commands, i, r.error);
      }
    }
  }

  lemma {:induction false} RevertDecided(l: Ledger, commands: seq<Command>, i: nat, p: Pending)
    requires i < |commands| && LogIndexed(l) && commands[i].Revert?
    ensures DecidedBy(l, commands, i, CheckCommand(l, p, l.version + 1, commands[i]))
  {
    hide LogIndexed, InForce, Supporting;
    assert WellIndexed(l) by { IndexedWell(l); }
    ActiveIsInForce(l, commands[i].transaction);
    ActiveDependentIsSupporting(l, commands[i].transaction);
  }

  lemma {:induction false} IndexedWell(l: Ledger)
    requires LogIndexed(l)
    ensures WellIndexed(l)
  {}

  lemma {:induction false} AttributedIs(inference: InferenceRecord, decision: DecisionRecord)
    ensures Attributed(inference, decision) <==>
            !(inference.providers == [] || (exists a :: a in inference.providers && Incomplete(a))
              || inference.solverVersion == 0 || decision.policyVersion == 0 || decision.lossVersion == 0)
  {
    if forall a :: a in inference.providers ==> !Incomplete(a) {
      forall i | 0 <= i < |inference.providers| ensures !Incomplete(inference.providers[i]) {
        assert inference.providers[i] in inference.providers;
      }
    }
  }

  lemma {:induction false} ResolutionDecided(l: Ledger, commands: seq<Command>, i: nat, p: Pending)
    requires i < |commands| && Summarises(l, commands, i, p) && commands[i].CommitResolution?
    ensures DecidedBy(l, commands, i, CheckCommand(l, p, l.version + 1, commands[i]))
  {
    hide Observed, Inferred, Decided, Enqueued, StatusBefore, Attributed, Incomplete;
    var inference, decision, created := commands[i].inference, commands[i].decision, commands[i].created;
    AttributedIs(inference, decision);
    var p' := p.(inferences := p.inferences + {inference.id}, decisions := p.decisions + {decision.id});
    forall x ensures StatusOf(l, p', x) == StatusBefore(l, commands, i, x) {}
    assert Observed(l, commands, i, inference.observation) <==>
           inference.observation in l.observations || inference.observation in p.observations;
    assert Inferred(l, commands, i, inference.id) <==> inference.id in l.inferences || inference.id in p.inferences;
    assert Decided(l, commands, i, decision.id) <==> decision.id in l.decisions || decision.id in p.decisions;
  }

  lemma {:induction false} MergeDecided(l: Ledger, commands: seq<Command>, i: nat, p: Pending)
    requires i < |commands| && Summarises(l, commands, i, p) && commands[i].Merge?
    ensures DecidedBy(l, commands, i, CheckCommand(l, p, l.version + 1, commands[i]))
  {
    hide Observed, Inferred, Decided, Enqueued, StatusBefore;
    var c := commands[i];
    var p' := p.(decisions := p.decisions + {c.merge});
    forall x ensures StatusOf(l, p', x) == StatusBefore(l, commands, i, x) {}
    forall d ensures Decided(l, commands, i, d) <==> d in l.decisions || d in p.decisions {}
  }

  lemma {:induction false} OtherDecided(l: Ledger, commands: seq<Command>, i: nat, p: Pending)
    requires i < |commands| && Summarises(l, commands, i, p)
    requires !commands[i].CommitResolution? && !commands[i].Merge? && !commands[i].Split? && !commands[i].Revert?
    ensures DecidedBy(l, commands, i, CheckCommand(l, p, l.version + 1, commands[i]))
  {
    hide Observed, Inferred, Decided, Enqueued, StatusBefore;
    forall x ensures StatusOf(l, p, x) == StatusBefore(l, commands, i, x) {}
    forall o ensures Observed(l, commands, i, o) <==> o in l.observations || o in p.observations {}
    forall d ensures Decided(l, commands, i, d) <==> d in l.decisions || d in p.decisions {}
    forall m ensures Enqueued(l, commands, i, m) <==> m in l.outbox || m in p.materializations {}
  }

  lemma {:induction false} CommandDecided(l: Ledger, commands: seq<Command>, i: nat, p: Pending)
    requires i < |commands| && LogIndexed(l) && Summarises(l, commands, i, p)
    ensures DecidedBy(l, commands, i, CheckCommand(l, p, l.version + 1, commands[i]))
  {
    hide LogIndexed, Summarises, DecidedBy, CheckCommand;
    match commands[i] {
      case CommitResolution(_, _, _) => ResolutionDecided(l, commands, i, p);
      case Merge(_, _, _, _, _, _) => MergeDecided(l, commands, i, p);
      case Split(_) => SplitDecided(l, commands, i, p);
      case Revert(_, _) => RevertDecided(l, commands, i, p);
      case _ => OtherDecided(l, commands, i, p);
    }
  }

  // ----- whole batches -----

  /** The overlay pass gets through the first `i` commands exactly if each of them is admitted; otherwise it ends in
      the reason of the first that is not. */
  lemma {:induction false} PrefixDecided(l: Ledger, commands: seq<Command>, i: nat)
    requires i <= |commands| && LogIndexed(l)
    ensures var r := CheckPrefix(l, l.version + 1, commands, i);
            && (r.Ok? <==> forall j: nat {:trigger Admits(l, commands, j)} :: j < i ==> Admits(l, commands, j))
            && (r.Ok? ==> Summarises(l, commands, i, r.value))
            && (r.Err? ==> exists j: nat {:trigger FirstRefused(l, commands, j, r.error)} ::
                  j < i && FirstRefused(l, commands, j, r.error))
  {
    hide LogIndexed, Summarises, CheckCommand, Admits, Reason, AddsTo;
    if i == 0 {
      NothingSummarised(l, commands);
    } else {
      PrefixDecided(l, commands, i - 1);
      var last: nat := i - 1;
      var before := CheckPrefix(l, l.version + 1, commands, last);
      if before.Err? {
        var j: nat :| j < last && FirstRefused(l, commands, j, before.error);
        assert !Admits(l, commands, j);
      } else {
        CommandDecided(l, commands, last, before.value);
        var r := CheckCommand(l, before.value, l.version + 1, commands[last]);
        assert DecidedBy(l, commands, last, r);
        if r.Ok? {
          CheckedAdds(l, before.value, l.version + 1, commands[last]);
          StillSummarises(l, commands, last, before.value, r.value);
        } else {
          assert FirstRefused(l, commands, last, r.error);
        }
      }
    }
  }

  /** Command `j` is the first that is not admitted, and `error` says why. */
  ghost predicate FirstRefused(l: Ledger, commands: seq<Command>, j: nat, error: LedgerError)
    requires j < |commands|
  {
    && !Admits(l, commands, j) && Reason(l, commands, j, error)
    && forall h: nat {:trigger Admits(l, commands, h)} :: h < j ==> Admits(l, commands, h)
  }

  /** Why a batch under a new replay key is refused: the first thing of its header, then of its commands, that fails. */
  ghost predicate Refuses(l: Ledger, e: Envelope, error: LedgerError) {
    if e.expectedVersion != l.version then error == VersionConflict(e.expectedVersion, l.version)
    else if LoggedAs(l, e.transaction) then error == DuplicateTransaction(e.transaction)
    else if l.version >= 0xFFFF_FFFF_FFFF_FFFF then error == VersionExhausted
    else if !AllInForce(l, e.dependsOn) then
      exists k: nat {:trigger e.dependsOn[k]} ::
        && k < |e.dependsOn| && !InForce(l, e.dependsOn[k]) && AllInForce(l, e.dependsOn[..k])
        && error == MissingDependency(e.dependsOn[k])
    else exists i: nat {:trigger FirstRefused(l, e.commands, i, error)} ::
           i < |e.commands| && FirstRefused(l, e.commands, i, error)
  }

  lemma {:induction false} KnownIsLogged(l: Ledger, t: TransactionId)
    requires WellIndexed(l)
    ensures t in l.transactionIndexes <==> LoggedAs(l, t)
  {
    if LoggedAs(l, t) {
      var k: nat :| k < |l.transactions| && l.transactions[k].envelope.transaction == t;
      assert Indexed(l, k);
    }
  }

  lemma {:induction false} FirstInactiveIs(l: Ledger, ts: seq<TransactionId>)
    requires WellIndexed(l)
    ensures FirstInactive(l, ts) == None <==> AllInForce(l, ts)
    ensures FirstInactive(l, ts).Some? ==> exists k: nat {:trigger ts[k]} ::
                k < |ts| && !InForce(l, ts[k]) && AllInForce(l, ts[..k]) && FirstInactive(l, ts) == Some(ts[k])
  {
    hide WellIndexed, InForce, IsActive;
    if ts != [] {
      var rest := ts[1..];
      ActiveIsInForce(l, ts[0]);
      FirstInactiveIs(l, rest);
      if IsActive(l, ts[0]) {
        if FirstInactive(l, rest).Some? {
          var k: nat :| k < |rest| && !InForce(l, rest[k]) && AllInForce(l, rest[..k])
                        && FirstInactive(l, rest) == Some(rest[k]);
          assert ts[k + 1] == rest[k];
          var upTo := ts[..k + 1];
          forall j: nat | j < |upTo| ensures InForce(l, upTo[j]) {
            if j > 0 { assert upTo[j] == rest[..k][j - 1]; }
          }
        } else {
          forall j: nat | j < |ts| ensures InForce(l, ts[j]) {
            if j > 0 { assert ts[j] == rest[j - 1]; }
          }
        }
      } else {
        assert AllInForce(l, ts[..0]);
      }
    }
  }

  /** The whole verdict of validation. */
  lemma {:induction false} ValidationDecided(l: Ledger, e: Envelope)
    requires LogIndexed(l)
    ensures Validate(l, e).Ok? <==> Admissible(l, e)
    ensures Validate(l, e).Ok? ==> Validate(l, e) == Ok(l.version + 1)
    ensures Validate(l, e).Err? ==> Refuses(l, e, Validate(l, e).error)
  {
    hide LogIndexed, Admits, InForce, FirstInactive, CheckPrefix, FirstRefused, LoggedAs;
    IndexedWell(l);
    KnownIsLogged(l, e.transaction);
    FirstInactiveIs(l, e.dependsOn);
    PrefixDecided(l, e.commands, |e.commands|);
    if !AllInForce(l, e.dependsOn) {
      var k: nat :| k < |e.dependsOn| && !InForce(l, e.dependsOn[k]) && AllInForce(l, e.dependsOn[..k])
                    && FirstInactive(l, e.dependsOn) == Some(e.dependsOn[k]);
      assert !InForce(l, e.dependsOn[k]);
    }
  }

  /** At every state of every run, a batch is accepted exactly when its replay key is new and it is admissible. */
  lemma {:induction false} SubmittedAcceptedIff(log: seq<Envelope>, k: nat, e: Envelope)
    requires ValidLog(log) && k <= |log|
    ensures Accepted(State(log, k), e) <==>
            e.idempotency !in State(log, k).idempotency && Admissible(State(log, k), e)
    ensures e.idempotency !in State(log, k).idempotency && !Accepted(State(log, k), e) ==>
              exists error ::
                Commit(State(log, k), e) == (State(log, k), Err(error)) && Refuses(State(log, k), e, error)
  {
    hide ValidLog, State, Validate, LogIndexed, Admissible, Refuses;
    RunsIndexed(log, k);
    ValidationDecided(State(log, k), e);
  }
}
