/** The pipeline's outbox protocol: commit, host write, receipt, retry; and the hot cache beside it.

    A batch arrives with the proposals that inference, policy and planner made for it, or with the error that
    stage ended in. The host adapter and the durable backend fail whenever the environment says so.
  */
module Pipeline {
  import opened Types
  import opened LedgerSpec
  import opened MemoryLedgers
  import opened HostGraph
  import opened Workspace
  import opened Outbox
  import opened Deliveries
  import opened Batches

  /** What the host adapter does with one write: an adapter can also fail after the write went through. */
  datatype Fault = Works | FailsBefore | FailsAfter

  datatype CommitError = IdExhausted | LedgerRefused(cause: LedgerError)

  /** `E` is what the inference stage can fail with. */
  datatype PipelineError<+E> =
    | EmptyBatch
    | InferenceFailed(error: E)
    | CommitFailed(failure: CommitError)
    | WorkspaceRefused(reason: WorkspaceError)

  datatype RetryError = MissingOutbox(missing: MaterializationId) | HostFailed | ReceiptRefused(refusal: CommitError)

  datatype ProcessResult = ProcessResult(
    evidence: CommitResult, resolution: CommitResult, finalVersion: CommitVersion, decisions: seq<DecisionRecord>,
    pending: seq<MaterializationId>)

  /** A write is settled when its entry is completed, or it is reported as pending. */
  ghost predicate Settled(
    outbox: map<MaterializationId, OutboxEntry>, pending: seq<MaterializationId>, m: MaterializationId)
  {
    m in outbox && (outbox[m].completed <==> m !in pending)
  }

  /** The first `k` writes are settled, and only they are pending. */
  ghost predicate SettledUpTo(
    outbox: map<MaterializationId, OutboxEntry>, pending: seq<MaterializationId>, writes: seq<Write>, k: nat)
  {
    && (forall j: nat {:trigger writes[j]} :: j < k && j < |writes| ==>
         Settled(outbox, pending, writes[j].materialization))
    && (forall m {:trigger m in pending} :: m in pending ==>
         exists j: nat :: j < k && j < |writes| && writes[j].materialization == m)
  }

  ghost predicate AllOwed(outbox: map<MaterializationId, OutboxEntry>, writes: seq<Write>, v: CommitVersion, k: nat) {
    forall j: nat {:trigger writes[j]} :: k <= j < |writes| ==> Owed(outbox, writes[j], v)
  }

  lemma {:induction false} AllOwedNow(outbox: map<MaterializationId, OutboxEntry>, writes: seq<Write>, v: CommitVersion)
    requires forall j: nat {:trigger writes[j]} :: j < |writes| ==> Owed(outbox, writes[j], v)
    ensures AllOwed(outbox, writes, v, 0)
  {}

  lemma {:induction false} NothingSettled(outbox: map<MaterializationId, OutboxEntry>, writes: seq<Write>)
    ensures SettledUpTo(outbox, [], writes, 0)
  {}

  lemma {:induction false} OneOwed(
    outbox: map<MaterializationId, OutboxEntry>, writes: seq<Write>, v: CommitVersion, k: nat)
    requires k < |writes| && AllOwed(outbox, writes, v, k)
    ensures Owed(outbox, writes[k], v)
  {}

  /** Completing the next write settles it; so does reporting it as pending. */
  lemma {:induction false} SettleOne(
    outbox: map<MaterializationId, OutboxEntry>, pending: seq<MaterializationId>, writes: seq<Write>,
    v: CommitVersion, k: nat)
    requires k < |writes| && AllOwed(outbox, writes, v, k) && SettledUpTo(outbox, pending, writes, k)
    requires forall i: nat, j: nat {:trigger writes[i], writes[j]} :: i < j < |writes| ==>
               writes[i].materialization != writes[j].materialization
    ensures var m := writes[k].materialization;
            && AllOwed(Completed(outbox, m), writes, v, k + 1) && AllOwed(outbox, writes, v, k + 1)
            && SettledUpTo(Completed(outbox, m), pending, writes, k + 1)
            && SettledUpTo(outbox, pending + [m], writes, k + 1)
  {
    assert Owed(outbox, writes[k], v);
    forall j: nat | k < j < |writes| ensures Owed(Completed(outbox, writes[k].materialization), writes[j], v) {
      StillOwed(outbox, writes[k].materialization, writes[j], v);
    }
  }

  ghost predicate AllSettled(
    outbox: map<MaterializationId, OutboxEntry>, pending: seq<MaterializationId>, first: nat, end: nat)
  {
    forall m {:trigger Settled(outbox, pending, m)} :: first <= m < end ==> Settled(outbox, pending, m)
  }

  function Plainly(associations: seq<CommittedAssociation>): (plain: seq<Association>)
    ensures |plain| == |associations|
    ensures forall j: nat {:trigger plain[j]} :: j < |plain| ==>
              plain[j] == Association(associations[j].identity, associations[j].observation)
  {
    seq(|associations|,
        j requires 0 <= j < |associations| => Association(associations[j].identity, associations[j].observation))
  }

  class ResolutionRuntime {
    const ledger: MemoryLedger
    const host: AuthoritativeHostGraph
    const workspace: HotWorkspace
    const configuration: Configuration
    const historyCapacity: nat
    var ids: Ids
    var pending: seq<MaterializationId>

    ghost predicate Valid()
      reads this, ledger, host, workspace
    {
      && ledger.Valid() && host.Valid() && workspace.Valid()
      && IdsFresh(ledger.View(), ids) && WithinIds(ids)
      && OutboxMatches(ledger.View(), host.Written())
      && HotBelow(workspace.identities, ledger.View().version)
      && HotFollows()
    }

    /** The hot cache holds what every committed batch delivered up to its first repeated identity. */
    ghost predicate HotFollows()
      reads this, ledger, workspace
    {
      HotAgrees(workspace.identities, DeliveredLog(ledger.View().transactions), historyCapacity)
    }

    /** The hot cache agrees with the committed decisions. */
    ghost predicate HotCurrent()
      reads this, ledger, workspace
    {
      HotAgrees(workspace.identities, ledger.View().transactions, historyCapacity)
    }

    /** Every outbox entry has at most one host edge, a completed one exactly one, and the edge leaves and enters the
        nodes the entry's own relation names, for its decision and commit. All edges have the kinds of endpoints their
        roles ask for. */
    lemma {:induction false} EntriesWrittenOnce(m: MaterializationId)
      requires Valid()
      ensures forall i: nat, j: nat {:trigger host.edges[i], host.edges[j]} ::
                i < |host.edges| && j < |host.edges| && i != j ==>
                  host.edges[i].materialization != host.edges[j].materialization
      ensures m in host.materializations ==> m in ledger.View().outbox
      ensures m in ledger.View().outbox && ledger.View().outbox[m].completed ==>
                exists i: nat :: i < |host.edges| && host.edges[i].materialization == m
      ensures m in ledger.View().outbox && m in host.materializations ==>
                var entry := ledger.View().outbox[m];
                && host.Fact(m) == FactOf(entry.relation, entry.decision, entry.commit)
                && host.Writes(host.materializations[m], entry.relation, entry.decision, entry.commit)
      ensures forall i: nat {:trigger host.edges[i]} :: i < |host.edges| ==>
                WellTyped(host.edges[i].role, host.nodes[host.edges[i].source], host.nodes[host.edges[i].target])
    {
      hide MemoryLedger.Valid, MemoryLedger.View, IdsFresh, Joins, WellTyped, FactOf;
      if m in host.materializations { assert m in host.Written(); }
      if m in ledger.View().outbox {
        var entry := ledger.View().outbox[m];
        assert EntryMatches(ledger.View(), host.Written(), m);
        if m in host.materializations { host.WritesIsFact(m, entry.relation, entry.decision, entry.commit); }
      }
    }

    /** In every reachable state each entry of the cache holds the newest observations its identity was given by
        the delivered part of the log, and the version of the last. It therefore agrees with the whole log if and
        only if what was not delivered makes no visible difference, and always if no batch repeats an identity. */
    lemma {:induction false} HotHistory(x: IdentityId)
      requires Valid()
      ensures x in workspace.identities <==> AssignedTo(DeliveredLog(ledger.View().transactions), x) != []
      ensures x in workspace.identities ==>
                var hot, given := workspace.identities[x], AssignedTo(DeliveredLog(ledger.View().transactions), x);
                && hot.history.entries == LastOf(ObservationsOf(given), historyCapacity)
                && hot.appliedVersion == given[|given| - 1].version
      ensures HotCurrent() <==>
              forall y {:trigger FullyShown(ledger.View().transactions, historyCapacity, y)} ::
                FullyShown(ledger.View().transactions, historyCapacity, y)
      ensures NoDoubles(ledger.View().transactions) ==> HotCurrent()
    {
      hide MemoryLedger.Valid, MemoryLedger.View, IdsFresh, OutboxMatches, FullyShown, LastOf, ObservationsOf,
           AssignedTo;
      var transactions := ledger.View().transactions;
      AgreesIff(workspace.identities, transactions, historyCapacity);
      if NoDoubles(transactions) { AllDelivered(transactions); }
      assert HotAgreesOn(workspace.identities, AssignedTo(DeliveredLog(transactions), x), historyCapacity, x);
    }

    constructor (
      ledger: MemoryLedger, host: AuthoritativeHostGraph, workspace: HotWorkspace, configuration: Configuration,
      historyCapacity: nat)
      requires ledger.Valid() && ledger.View() == EMPTY
      requires host.Valid() && host.Written() == map[]
      requires workspace.Valid() && workspace.identities == map[]
      ensures Valid() && HotCurrent()
      ensures this.ledger == ledger && this.host == host && this.workspace == workspace
      ensures this.configuration == configuration && this.historyCapacity == historyCapacity && ids == FIRST_IDS
    {
      this.ledger, this.host, this.workspace := ledger, host, workspace;
      this.configuration, this.historyCapacity := configuration, historyCapacity;
      ids, pending := FIRST_IDS, [];
    }

    /** Takes the next transaction id and submits an envelope. A refused envelope has no effect, nor has an
        accepted one that the backend fails to store. */
    method Submit(
      expected: CommitVersion, issuedAt: Timestamp, dependsOn: seq<TransactionId>, commands: seq<Command>,
      stored: bool)
      returns (r: Result<CommitResult, CommitError>)
      requires ledger.Valid() && IdsFresh(ledger.View(), ids) && WithinIds(ids)
      modifies this`ids, ledger
      ensures ledger.Valid()
      ensures ids == NextTransaction(old(ids)) && WithinIds(ids)
      ensures r == Err(IdExhausted) <==> old(ids).transaction >= MAX_ID
      ensures var e := EnvelopeOf(old(ids).transaction, expected, issuedAt, dependsOn, commands);
              && (r.Err? ==> ledger.View() == old(ledger.View())
                             && r.error != LedgerRefused(LedgerError.IdempotencyCollision))
              && (r.Ok? ==> Accepted(old(ledger.View()), e)
                            && (ledger.View(), Ok(r.value)) == Commit(old(ledger.View()), e))
              && (r.Ok? <==> old(ids).transaction < MAX_ID && stored && Accepted(old(ledger.View()), e))
              && (old(ids).transaction < MAX_ID && !Accepted(old(ledger.View()), e) ==>
                    Commit(old(ledger.View()), e).1.Err?
                    && r == Err(LedgerRefused(Commit(old(ledger.View()), e).1.error)))
              && (old(ids).transaction < MAX_ID && Accepted(old(ledger.View()), e) && !stored ==>
                    r == Err(LedgerRefused(Storage)))
    {
      hide Prepare, IdsFresh, MemoryLedger.Valid;
      if ids.transaction >= MAX_ID { return Err(IdExhausted); }
      var e := EnvelopeOf(ids.transaction, expected, issuedAt, dependsOn, commands);
      FreshNeverReplays(ledger.View(), ids, e);
      AcceptedCommits(ledger.View(), e);
      ids := ids.(transaction := ids.transaction + 1);
      var prepared := ledger.PrepareEnvelope(e);
      if prepared.Err? { return Err(LedgerRefused(prepared.error)); }
      if !stored { return Err(LedgerRefused(Storage)); }
      var committed := ledger.CommitEnvelope(e);
      return Ok(committed.value);
    }

    /** Commits the receipt of a written entry. */
    method CommitReceipt(
      m: MaterializationId, d: DecisionId, issuedAt: Timestamp, stored: bool)
      returns (r: Result<CommitResult, CommitError>)
      requires Valid() && m in host.materializations
      modifies this`ids, ledger
      ensures Valid() && (old(HotCurrent()) ==> HotCurrent())
      ensures ids == NextTransaction(old(ids))
      ensures r.Ok? ==> ledger.View().outbox == Completed(old(ledger.View().outbox), m)
      ensures r.Ok? ==> Extends(old(ledger.View().transactions), ledger.View().transactions)
      ensures r.Err? ==> ledger.View() == old(ledger.View())
      ensures m in old(ledger.View().outbox) && old(ledger.View().outbox)[m].decision == d
              && !old(ledger.View().outbox)[m].completed ==>
                (r.Ok? <==> stored && old(ids).transaction < MAX_ID && old(ledger.View().version) < MAX_VERSION)
    {
      hide Accepted, Commit, IdsFresh, OutboxMatches, HotAgrees, MemoryLedger.Valid, MemoryLedger.View,
           AuthoritativeHostGraph.Valid;
      ghost var before, written := ledger.View(), host.Written();
      ghost var e := EnvelopeOf(ids.transaction, before.version, issuedAt, [], [Materialized(m, d)]);
      ViewVersion(ledger);
      if m in before.outbox && before.outbox[m].decision == d && !before.outbox[m].completed {
        ReceiptAccepted(before, ids, issuedAt, m, d);
      }
      r := Submit(ledger.version, issuedAt, [], [Materialized(m, d)], stored);
      if r.Ok? {
        ReceiptStep(before, e, old(ids), written, m, d);
        CommitExtends(before, e);
        ReceiptQuiet(before, e, m, d);
        HotKept(workspace.identities, DeliveredLog(before.transactions), DeliveredLog(ledger.View().transactions),
            historyCapacity);
        if old(HotCurrent()) {
          HotKept(workspace.identities, before.transactions, ledger.View().transactions, historyCapacity);
        }
      } else {
        IdsAdvance(before, old(ids));
      }
    }

    /** Writes an outbox entry's relation to the host. The host never sees two different writes for one entry. */
    method WriteHost(m: MaterializationId, relation: HostRelation, d: DecisionId, commit: CommitVersion, fault: Fault)
      returns (ok: bool, error: Option<HostGraphError>)
      requires Valid() && m in ledger.View().outbox
      requires var entry := ledger.View().outbox[m];
               entry.relation == relation && entry.decision == d && entry.commit == commit
      modifies host
      ensures Valid()
      ensures error != Some(HostGraphError.IdempotencyCollision)
      ensures ok ==> m in host.materializations
      ensures fault == Works && relation.Endpoints().0 in host.indexes && relation.Endpoints().1 in host.indexes ==> ok
      ensures host.indexes == old(host.indexes)
      ensures host.Written() == old(host.Written())
              || host.Written() == old(host.Written())[m := FactOf(relation, d, commit)]
    {
      hide IdsFresh, MemoryLedger.Valid, MemoryLedger.View, HotBelow, FactOf, Joins, HostRelation.Role,
           HostRelation.Endpoints, WellTyped;
      if fault == FailsBefore { return false, None; }
      ghost var l, written := ledger.View(), host.Written();
      assert EntryMatches(l, written, m);
      if m in host.materializations {
        assert m in written;
        host.WritesIsFact(m, relation, d, commit);
      }
      JoinsEndpoints(relation, relation.Role(), relation.Endpoints().0, relation.Endpoints().1);
      var outcome := host.Materialize(relation, d, commit, m);
      WrittenMatches(l, written, m);
      if outcome.Err? { return false, Some(outcome.error); }
      assert m in host.Written();
      return fault != FailsAfter, None;
    }

    /** Retries one outbox entry: a completed one needs nothing, any other is written again and receipted. */
    method RetryMaterialization(
      m: MaterializationId, issuedAt: Timestamp, fault: Fault, stored: bool)
      returns (r: Result<(), RetryError>)
      requires Valid()
      modifies this`ids, ledger, host
      ensures Valid() && (old(HotCurrent()) ==> HotCurrent())
      ensures m !in old(ledger.View().outbox) ==> r == Err(MissingOutbox(m))
      ensures m in old(ledger.View().outbox) && old(ledger.View().outbox)[m].completed ==>
                r == Ok(()) && ledger.View() == old(ledger.View())
      ensures r.Ok? ==> m in ledger.View().outbox && ledger.View().outbox[m].completed
      ensures r == Err(HostFailed) ==> ledger.View() == old(ledger.View())
      ensures (&& m in old(ledger.View().outbox) && fault == Works && stored
               && old(ids).transaction < MAX_ID && old(ledger.View().version) < MAX_VERSION
               && old(ledger.View().outbox)[m].relation.Endpoints().0 in old(host.indexes)
               && old(ledger.View().outbox)[m].relation.Endpoints().1 in old(host.indexes)) ==> r.Ok?
    {
      hide IdsFresh, OutboxMatches, HotAgrees, MemoryLedger.Valid, AuthoritativeHostGraph.Valid, HotBelow;
      if m !in ledger.outbox { return Err(MissingOutbox(m)); }
      var entry := ledger.outbox[m];
      if entry.completed { return Ok(()); }
      EntryNamed(ledger.View(), host.Written(), m);
      var ok, _ := WriteHost(entry.id, entry.relation, entry.decision, entry.commit, fault);
      if !ok { return Err(HostFailed); }
      var receipt := CommitReceipt(entry.id, entry.decision, issuedAt, stored);
      if receipt.Err? { return Err(ReceiptRefused(receipt.error)); }
      return Ok(());
    }

    /** One owed host write and its receipt. */
    method WriteOne(
      w: Write, v: CommitVersion, issuedAt: Timestamp, fault: Fault, stored: bool)
      returns (r: Result<bool, CommitError>)
      requires Valid() && Owed(ledger.View().outbox, w, v)
      modifies this`ids, ledger, host
      ensures Valid() && (old(HotCurrent()) ==> HotCurrent())
      ensures ids.materialization == old(ids).materialization
      ensures Extends(old(ledger.View().transactions), ledger.View().transactions)
      ensures r == Ok(true) ==> ledger.View().outbox == Completed(old(ledger.View().outbox), w.materialization)
      ensures r != Ok(true) ==> ledger.View() == old(ledger.View())
    {
      hide IdsFresh, OutboxMatches, HotAgrees, MemoryLedger.Valid, MemoryLedger.View, AuthoritativeHostGraph.Valid,
           HotBelow;
      var ok, _ := WriteHost(w.materialization, w.relation, w.decision, v, fault);
      if !ok { return Ok(false); }
      var receipt := CommitReceipt(w.materialization, w.decision, issuedAt, stored);
      if receipt.Err? { return Err(receipt.error); }
      return Ok(true);
    }

    /** Writes a batch's owed materializations one by one; a failed write stays pending. */
    method WriteAll(
      writes: seq<Write>, v: CommitVersion, issuedAt: Timestamp, faults: nat -> Fault, stored: nat -> bool)
      returns (r: Result<(), CommitError>)
      requires Valid() && AllOwed(ledger.View().outbox, writes, v, 0)
      requires forall i: nat, j: nat {:trigger writes[i], writes[j]} :: i < j < |writes| ==>
                 writes[i].materialization != writes[j].materialization
      modifies this`ids, this`pending, ledger, host
      ensures Valid() && (old(HotCurrent()) ==> HotCurrent())
      ensures ids.materialization == old(ids).materialization
      ensures Extends(old(ledger.View().transactions), ledger.View().transactions)
      ensures r.Ok? ==> SettledUpTo(ledger.View().outbox, pending, writes, |writes|)
    {
      hide IdsFresh, OutboxMatches, HotAgrees, MemoryLedger.Valid, MemoryLedger.View, AuthoritativeHostGraph.Valid,
           HotBelow, Completed, AllOwed, SettledUpTo, HotWorkspace.Valid;
      pending := [];
      NothingSettled(ledger.View().outbox, writes);
      for k := 0 to |writes|
        invariant Valid() && (old(HotCurrent()) ==> HotCurrent())
        invariant ids.materialization == old(ids).materialization
        invariant Extends(old(ledger.View().transactions), ledger.View().transactions)
        invariant AllOwed(ledger.View().outbox, writes, v, k) && SettledUpTo(ledger.View().outbox, pending, writes, k)
      {
        ghost var outbox := ledger.View().outbox;
        OneOwed(outbox, writes, v, k);
        var written := WriteOne(writes[k], v, issuedAt, faults(k), stored(k));
        if written.Err? { return Err(written.error); }
        SettleOne(outbox, pending, writes, v, k);
        if !written.value { pending := pending + [writes[k].materialization]; }
      }
      return Ok(());
    }

    /** Applies one association to its hot entry, which is created on first sight. */
    method Associate(a: CommittedAssociation) returns (r: Result<(), WorkspaceError>)
      requires workspace.Valid() && a.version > 0
      modifies workspace
      ensures workspace.Valid()
      ensures var before, now := old(workspace.identities), workspace.identities;
              && (r.Err? <==> a.identity in before && a.version <= before[a.identity].appliedVersion)
              && (r.Err? ==> r.error == StaleCommit && now == before)
              && (r.Ok? ==>
                    && now.Keys == before.Keys + {a.identity} && now[a.identity].appliedVersion == a.version
                    && (forall x {:trigger now[x]} :: x in now && x != a.identity ==> now[x] == before[x])
                    && var base := Base(before, a.identity, historyCapacity);
                       && now[a.identity].history.capacity == base.capacity
                       && now[a.identity].history.entries == LastOf(base.entries + [a.observation], base.capacity))
    {
      if a.identity !in workspace.identities {
        var _ := workspace.Insert(HotIdentity(a.identity, BoundedHistory([], historyCapacity), a.eventTime, 0));
      }
      var applied := workspace.ApplyCommitted(a);
      if applied.Err? { return Err(applied.error); }
      return Ok(());
    }

    /** Updates the hot cache with a committed batch; stops at an identity the batch already associated. Whatever
        log the cache agreed with, it then agrees with that log and the associations before the stop. */
    method ApplyAssociations(
      associations: seq<CommittedAssociation>, v: CommitVersion, ghost log: seq<TransactionRecord>,
      ghost delivered: seq<TransactionRecord>)
      returns (r: Result<(), WorkspaceError>, ghost done: nat)
      requires workspace.Valid() && v > 0 && HotBelow(workspace.identities, v - 1)
      requires forall j: nat {:trigger associations[j]} :: j < |associations| ==> associations[j].version == v
      modifies workspace
      ensures workspace.Valid() && HotBelow(workspace.identities, v)
      ensures r.Ok? <==> DistinctIdentities(Plainly(associations))
      ensures r.Ok? ==> done == |associations|
      ensures r.Err? ==> r.error == StaleCommit && FirstRepeat(Plainly(associations), done)
      ensures done <= |associations| && TouchedExactly(workspace.identities, Plainly(associations), done, v)
      ensures HotAgrees(old(workspace.identities), log, historyCapacity) ==>
                HotMidway(workspace.identities, log, Plainly(associations)[..done], v, historyCapacity)
      ensures HotAgrees(old(workspace.identities), delivered, historyCapacity) ==>
                HotMidway(workspace.identities, delivered, Plainly(associations)[..done], v, historyCapacity)
    {
      hide HotAgrees, HotMidway, Named, DistinctIdentities;
      ghost var all := Plainly(associations);
      ghost var agreed := HotAgrees(workspace.identities, log, historyCapacity);
      ghost var follows := HotAgrees(workspace.identities, delivered, historyCapacity);
      if agreed { MidwayStart(workspace.identities, log, v, historyCapacity); }
      if follows { MidwayStart(workspace.identities, delivered, v, historyCapacity); }
      TouchedStart(workspace.identities, all, v);
      NoneDistinct(all);
      for k := 0 to |associations|
        invariant workspace.Valid() && TouchedExactly(workspace.identities, all, k, v)
        invariant DistinctIdentities(all[..k])
        invariant agreed ==> HotMidway(workspace.identities, log, all[..k], v, historyCapacity)
        invariant follows ==> HotMidway(workspace.identities, delivered, all[..k], v, historyCapacity)
      {
        ghost var before := workspace.identities;
        assert Named(all, k, all[k].identity) <==>
               all[k].identity in before && before[all[k].identity].appliedVersion == v;
        DistinctStep(all, k);
        var applied := Associate(associations[k]);
        if applied.Err? {
          assert before[all[k].identity].appliedVersion <= v;
          DistinctPrefix(all, k + 1);
          return applied, k;
        }
        TouchedStep(before, workspace.identities, all, k, v);
        if agreed { MidwayStep(before, workspace.identities, log, all, k, v, historyCapacity); }
        if follows { MidwayStep(before, workspace.identities, delivered, all, k, v, historyCapacity); }
      }
      assert all[..|associations|] == all;
      return Ok(()), |associations|;
    }

    /** Turns one observation's proposal into a resolution, an association and an owed host write. A sequence
        that is exhausted stops the batch; what was drawn before stays drawn. */
    method Propose(o: Observation, p: Proposal, v: CommitVersion)
      returns (ok: bool, resolution: Command, association: Option<CommittedAssociation>, write: Option<Write>)
      requires WithinIds(ids)
      modifies this`ids
      ensures WithinIds(ids) && ids.transaction == old(ids).transaction
      ensures ids.materialization >= old(ids).materialization
      ensures ok <==> WithinIds(IdsNext(p, old(ids)))
      ensures ok ==> ids == IdsNext(p, old(ids))
      ensures ok ==> resolution == ResolutionOf(o, p, configuration, old(ids), v)
      ensures ok ==> write == WriteOf(p, old(ids))
      ensures ok ==> association == match IdentityFor(p, old(ids).identity)
                                    case None => None
                                    case Some(x) => Some(CommittedAssociation(o.id, x, v, o.eventTime))
    {
      ok, resolution, association, write := false, MakeDormant(0), None, None;
      if ids.inference >= MAX_ID { return; }
      var inferenceId := ids.inference;
      ids := ids.(inference := ids.inference + 1);
      if ids.decision >= MAX_ID { return; }
      var decision := DecisionRecord(
        ids.decision, inferenceId, p.action, configuration.policyVersion, configuration.lossVersion,
        VersionInterval(v, None));
      ids := ids.(decision := ids.decision + 1);
      var inference := InferenceRecord(
        inferenceId, o.id, configuration.providers, configuration.solverVersion, p.body, VersionInterval(v, None));
      var created: Option<IdentityId> := None;
      if p.action.CreateNew? {
        if ids.identity >= MAX_ID { return; }
        created := Some(ids.identity);
        ids := ids.(identity := ids.identity + 1);
      }
      resolution := CommitResolution(inference, decision, created);
      association := match (p.action, created) {
        case (Assign(Latent(x)), _) => Some(CommittedAssociation(o.id, x, v, o.eventTime))
        case (CreateNew, Some(x)) => Some(CommittedAssociation(o.id, x, v, o.eventTime))
        case _ => None
      };
      if p.relation.Some? {
        if ids.materialization >= MAX_ID { return; }
        write := Some(Write(ids.materialization, decision.id, p.relation.value));
        ids := ids.(materialization := ids.materialization + 1);
      }
      ok := true;
    }

    /** The commands, decisions, associations and owed host writes of a whole batch. */
    method BuildResolution(
      observations: seq<Observation>, proposals: seq<Proposal>, v: CommitVersion,
      ghost outbox: map<MaterializationId, OutboxEntry>)
      returns (ok: bool, commands: seq<Command>, decisions: seq<DecisionRecord>,
               associations: seq<CommittedAssociation>, writes: seq<Write>)
      requires |observations| == |proposals| && WithinIds(ids)
      requires forall m {:trigger m in outbox} :: m in outbox ==> m < ids.materialization
      modifies this`ids
      ensures WithinIds(ids) && ids.transaction == old(ids).transaction
      ensures ids.materialization >= old(ids).materialization
      ensures ok <==> WithinIds(IdsAfter(proposals, |observations|, old(ids)))
      ensures ok ==> ids == IdsAfter(proposals, |observations|, old(ids))
      ensures ok ==> ids.materialization == old(ids).materialization + |writes|
      ensures ok ==> commands == BatchCommands(observations, proposals, configuration, old(ids), v, |observations|)
      ensures ok ==> decisions == BatchDecisions(proposals, configuration, old(ids), v, |observations|)
      ensures ok ==> Plainly(associations) ==
                     BatchAssociations(observations, proposals, old(ids).identity, |observations|)
      ensures AllPlain(commands)
      ensures ok ==> OutboxOwes(outbox, OutboxAfter(outbox, commands, v), writes, v, old(ids).materialization)
      ensures forall j: nat {:trigger associations[j]} :: j < |associations| ==> associations[j].version == v
    {
      hide OutboxOwes, OutboxAfter, AllPlain, WithinIds, IdsNext;
      ok, commands, decisions, associations, writes := false, [], [], [], [];
      NothingOwed(outbox, v, ids.materialization);
      for k := 0 to |observations|
        invariant ids == IdsAfter(proposals, k, old(ids)) && WithinIds(ids)
        invariant ids.transaction == old(ids).transaction
        invariant ids.materialization == old(ids).materialization + |writes|
        invariant commands == BatchCommands(observations, proposals, configuration, old(ids), v, k)
        invariant decisions == BatchDecisions(proposals, configuration, old(ids), v, k)
        invariant Plainly(associations) == BatchAssociations(observations, proposals, old(ids).identity, k)
        invariant AllPlain(commands)
        invariant OutboxOwes(outbox, OutboxAfter(outbox, commands, v), writes, v, old(ids).materialization)
        invariant forall j: nat {:trigger associations[j]} :: j < |associations| ==> associations[j].version == v
      {
        ghost var earlier, before := commands, ids;
        IdentityCounts(proposals, k, old(ids));
        WritesCounted(proposals[k], before);
        IdsGrowAlong(proposals, k + 1, |proposals|, old(ids));
        var drawn, resolution, association, write := Propose(observations[k], proposals[k], v);
        if !drawn { return; }
        OwesResolution(outbox, commands, resolution, writes, v, old(ids).materialization);
        commands := commands + [resolution];
        decisions := decisions + [resolution.decision];
        if association.Some? {
          PlainlyAppend(associations, association.value);
          associations := associations + [association.value];
        }
        if write.Some? {
          OwesEnqueue(outbox, commands, write.value, writes, v, old(ids).materialization);
          commands := commands + [EnqueueOf(write.value)];
          writes := writes + [write.value];
        }
        assert commands == earlier + ([resolution] + if write.Some? then [EnqueueOf(write.value)] else []);
      }
      ok := true;
    }

    // ----- a whole batch -----

    /** Whether both commits of the batch will go through. */
    ghost predicate Commits<E>(
      observations: seq<Observation>, proposals: Result<seq<Proposal>, E>, evidenceStored: bool, resolutionStored: bool)
      reads this, ledger
    {
      && proposals.Ok? && |proposals.value| == |observations|
      && Resolves(ledger.View(), ids, configuration, observations, proposals.value, LatestIngestion(observations),
                  evidenceStored, resolutionStored)
    }

    /** Whether its evidence commit will. */
    ghost predicate CommitsEvidence(observations: seq<Observation>, stored: bool)
      reads this, ledger
    {
      EvidenceGoesIn(ledger.View(), ids, observations, LatestIngestion(observations), stored)
    }

    /** The associations the batch asks for. */
    ghost function Associating<E>(observations: seq<Observation>, proposals: Result<seq<Proposal>, E>): seq<Association>
      reads this
    {
      if proposals.Ok? && |proposals.value| == |observations|
      then BatchAssociations(observations, proposals.value, ids.identity, |observations|) else []
    }

    /** The log entry of the evidence commit. */
    ghost function EvidenceEntry(observations: seq<Observation>): TransactionRecord
      reads this, ledger
    {
      TransactionRecord(ledger.View().version + 1,
                        EvidenceEnvelope(ledger.View(), ids, observations, LatestIngestion(observations)), true)
    }

    /** The log entry of the resolution commit that depends on transaction `evidence`. */
    ghost function ResolutionEntry(
      observations: seq<Observation>, proposals: seq<Proposal>, version: CommitVersion, next: Ids,
      evidence: TransactionId): TransactionRecord
      requires |observations| == |proposals|
      reads this
    {
      TransactionRecord(
        version + 1,
        ResolutionEnvelope(
          version, next, configuration, observations, proposals, LatestIngestion(observations), evidence),
        true)
    }

    /** One batch: evidence commit, inference, resolution commit, hot cache, host writes and receipts. */
    method ProcessBatch<E>(
      observations: seq<Observation>, proposals: Result<seq<Proposal>, E>,
      evidenceStored: bool, resolutionStored: bool, faults: nat -> Fault, receiptsStored: nat -> bool)
      returns (r: Result<ProcessResult, PipelineError<E>>)
      requires Valid() && (proposals.Ok? ==> |proposals.value| == |observations|)
      modifies this`ids, this`pending, ledger, host, workspace
      ensures Valid()
      ensures observations == [] <==> r == Err(EmptyBatch)
      ensures (r.Err? && r.error.InferenceFailed?) <==>
              old(CommitsEvidence(observations, evidenceStored)) && proposals.Err?
      ensures r.Err? && r.error.InferenceFailed? ==> r.error.error == proposals.error
      ensures r.Ok? ==> old(Commits(observations, proposals, evidenceStored, resolutionStored))
                        && DistinctIdentities(old(Associating(observations, proposals)))
      ensures r == Err(WorkspaceRefused(StaleCommit)) <==>
              old(Commits(observations, proposals, evidenceStored, resolutionStored))
              && !DistinctIdentities(old(Associating(observations, proposals)))
      ensures r.Err? && r.error.WorkspaceRefused? ==> r.error.reason == StaleCommit
      ensures old(HotCurrent()) ==>
                (HotCurrent() <==>
                 (old(Commits(observations, proposals, evidenceStored, resolutionStored)) ==>
                    KeepsAgreement(old(Associating(observations, proposals)), historyCapacity)))
      ensures old(Commits(observations, proposals, evidenceStored, resolutionStored)) ==>
                Extends(old(ledger.View().transactions)
                        + [old(EvidenceEntry(observations)),
                           old(ResolutionEntry(observations, proposals.value, ledger.View().version + 1,
                                               NextTransaction(ids), ids.transaction))],
                        ledger.View().transactions)
      ensures !old(Commits(observations, proposals, evidenceStored, resolutionStored)) ==>
                r.Err? && ledger.View().transactions ==
                  old(ledger.View().transactions)
                  + if old(CommitsEvidence(observations, evidenceStored))
                    then [old(EvidenceEntry(observations))] else []
      ensures r.Ok? ==>
                && r.value.evidence == CommitResult(old(ledger.View().version) + 1, false)
                && r.value.resolution == CommitResult(old(ledger.View().version) + 2, false)
                && r.value.finalVersion == ledger.View().version
                && r.value.decisions ==
                     BatchDecisions(proposals.value, configuration, old(NextTransaction(ids)),
                                    old(ledger.View().version) + 2, |observations|)
      ensures r.Ok? ==> BatchLogged(ledger.View().transactions, |old(ledger.View().transactions)|, observations,
                                    proposals.value, configuration, r.value.decisions)
      ensures r.Ok? ==> AllSettled(ledger.View().outbox, r.value.pending, old(ids).materialization, ids.materialization)
    {
      hide Accepted, Commit, Extends, DistinctIdentities, KeepsAgreement, AllSettled, BatchAssociations, BatchCommands,
           BatchDecisions, EvidenceEnvelope, DistinctIds, LatestIngestion, MemoryLedger.View, Valid, HotCurrent,
           BatchLogged, ResolutionEnvelope;
      if observations == [] { return Err(EmptyBatch); }
      var issuedAt := LatestIngestion(observations);
      ghost var started, first := ledger.View(), ids;
      ghost var before, entry := started.transactions, EvidenceEntry(observations);
      var evidence := PersistEvidence(observations, issuedAt, evidenceStored);
      if evidence.Err? { return Err(CommitFailed(evidence.error)); }
      if proposals.Err? { return Err(InferenceFailed(proposals.error)); }
      ghost var next := ResolutionEntry(observations, proposals.value, ledger.View().version, ids, evidence.value.0);
      r := Resolve(observations, issuedAt, proposals.value, evidence.value, resolutionStored, faults, receiptsStored);
      assert before + [entry] + [next] == before + [entry, next];
      if r.Ok? {
        TwoEntries(before, entry, next, ledger.View().transactions);
        EnvelopesSay(ledger.View().transactions, |before|, started, first, NextTransaction(first), configuration,
            observations, proposals.value);
      }
    }

    /** Commits a batch's observations. */
    method PersistEvidence(observations: seq<Observation>, issuedAt: Timestamp, stored: bool)
      returns (r: Result<(TransactionId, CommitResult), CommitError>)
      requires Valid() && observations != [] && issuedAt == LatestIngestion(observations)
      modifies this`ids, ledger
      ensures Valid() && (old(HotCurrent()) ==> HotCurrent())
      ensures ids == NextTransaction(old(ids))
      ensures r.Ok? <==> old(CommitsEvidence(observations, stored))
      ensures r.Ok? ==> DistinctIds(observations)
      ensures r.Ok? ==>
                && ledger.View() == Commit(old(ledger.View()), old(EvidenceEntry(observations)).envelope).0
                && ledger.View().transactions == old(ledger.View().transactions) + [old(EvidenceEntry(observations))]
      ensures r.Ok? ==> r.value == (old(ids).transaction, CommitResult(old(ledger.View().version) + 1, false))
                        && ledger.View().version == old(ledger.View().version) + 1
      ensures r.Err? ==> ledger.View() == old(ledger.View())
    {
      hide Accepted, Commit, IdsFresh, OutboxMatches, HotAgrees, LatestIngestion, EvidenceCommands, DistinctIds,
           DeliveredLog, SameAssigned, WithinIds, MemoryLedger.Valid, MemoryLedger.View, AuthoritativeHostGraph.Valid,
           HotWorkspace.Valid;
      ghost var before, written := ledger.View(), host.Written();
      var commands := EvidenceCommands(observations);
      ghost var e := EnvelopeOf(ids.transaction, before.version, issuedAt, [], commands);
      var transaction := ids.transaction;
      ViewVersion(ledger);
      var committed := Submit(ledger.version, issuedAt, [], commands, stored);
      if committed.Err? {
        IdsAdvance(before, old(ids));
        return Err(committed.error);
      }
      EvidenceStep(before, e, old(ids), written);
      EvidenceDistinct(before, e, observations);
      PlainCommit(before, e);
      EvidenceQuiet(before, e);
      HotKept(workspace.identities, DeliveredLog(before.transactions), DeliveredLog(ledger.View().transactions),
          historyCapacity);
      if old(HotCurrent()) {
        HotKept(workspace.identities, before.transactions, ledger.View().transactions, historyCapacity);
      }
      return Ok((transaction, committed.value));
    }

    /** Commits a batch's resolution and carries it out. */
    method Resolve<E>(
      observations: seq<Observation>, issuedAt: Timestamp, proposals: seq<Proposal>,
      evidence: (TransactionId, CommitResult), stored: bool, faults: nat -> Fault, receiptsStored: nat -> bool)
      returns (r: Result<ProcessResult, PipelineError<E>>)
      requires Valid() && |proposals| == |observations| && evidence.1.version == ledger.View().version
      requires DistinctIds(observations) && issuedAt == LatestIngestion(observations)
      modifies this`ids, this`pending, ledger, host, workspace
      ensures Valid()
      ensures r.Err? ==> !r.error.EmptyBatch? && !r.error.InferenceFailed?
      ensures var entry := old(ResolutionEntry(observations, proposals, ledger.View().version, ids, evidence.0));
              var all := BatchAssociations(observations, proposals, old(ids).identity, |observations|);
              var resolves := Suffices(old(ids), proposals) && stored && Accepted(old(ledger.View()), entry.envelope);
              && (r.Ok? ==> resolves && DistinctIdentities(all))
              && (r == Err(WorkspaceRefused(StaleCommit)) <==> resolves && !DistinctIdentities(all))
              && (r.Err? && r.error.WorkspaceRefused? ==> r.error.reason == StaleCommit)
              && (old(HotCurrent()) ==> (HotCurrent() <==> (resolves ==> KeepsAgreement(all, historyCapacity))))
              && (resolves ==> Extends(old(ledger.View().transactions) + [entry], ledger.View().transactions))
              && (!resolves ==> ledger.View() == old(ledger.View()))
      ensures r.Ok? ==> r.value.evidence == evidence.1
                        && r.value.resolution == CommitResult(old(ledger.View().version) + 1, false)
                        && r.value.finalVersion == ledger.View().version
                        && r.value.decisions == BatchDecisions(proposals, configuration, old(ids),
                                                               old(ledger.View().version) + 1, |observations|)
      ensures r.Ok? ==> AllSettled(ledger.View().outbox, r.value.pending, old(ids).materialization, ids.materialization)
    {
      hide Accepted, Commit, IdsFresh, OutboxMatches, HotAgrees, HotMidway, DistinctIdentities, OutboxOwes, AllPlain,
           FirstRepeat, Extends, TouchedExactly, NothingLost, BatchCommands, BatchDecisions, BatchAssociations,
           MemoryLedger.Valid, MemoryLedger.View, AuthoritativeHostGraph.Valid, HotWorkspace.Valid, DeliveredCommands,
           DeliveredLog, Associations, OutboxAfter, DistinctIds, DistinctObservations, IdsAfter, AllOwed, Completed,
           LatestIngestion;
      ghost var before, written, started := ledger.View(), host.Written(), ids;
      if evidence.1.version >= MAX_VERSION {
        NoVersionLeft(before, ResolutionEntry(observations, proposals, before.version, ids, evidence.0).envelope);
        return Err(CommitFailed(IdExhausted));
      }
      var v := evidence.1.version + 1;
      MaterializationsBelow(before, ids);
      var built, commands, decisions, associations, writes :=
        BuildResolution(observations, proposals, v, before.outbox);
      ghost var drawn := ids;
      IdsGrow(before, started, drawn);
      if !built { return Err(CommitFailed(IdExhausted)); }
      BatchRecords(observations, proposals, configuration, started, v, |observations|);
      AssociationsAreOwn(observations, proposals, started.identity, |observations|);
      ghost var e := EnvelopeOf(drawn.transaction, evidence.1.version, issuedAt, [evidence.0], commands);
      var committed := Submit(evidence.1.version, issuedAt, [evidence.0], commands, stored);
      if committed.Err? {
        IdsAdvance(before, drawn);
        return Err(CommitFailed(committed.error));
      }
      ghost var all := Plainly(associations);
      ResolutionStep(before, e, started.(transaction := drawn.transaction), ids, written, writes);
      ghost var record := TransactionRecord(v, e, true);
      var applied, done := ApplyAssociations(associations, v, before.transactions, DeliveredLog(before.transactions));
      if applied.Err? {
        DeliveredUpTo(commands, done);
        FollowsBatch(workspace.identities, before.transactions, record, all[..done], historyCapacity);
        if old(HotCurrent()) {
          StoppedAgreesIff(workspace.identities, before.transactions, record, done, historyCapacity);
        }
        ExtendsItself(ledger.View().transactions);
        return Err(WorkspaceRefused(applied.error));
      }
      assert all[..done] == all;
      WholeBatchDelivered(commands);
      FollowsBatch(workspace.identities, before.transactions, record, all, historyCapacity);
      if old(HotCurrent()) { MidwayEnd(workspace.identities, before.transactions, record, historyCapacity); }
      AllOwedNow(ledger.View().outbox, writes, v);
      WritesDistinct(before.outbox, OutboxAfter(before.outbox, commands, v), writes, v, started.materialization);
      var carried := WriteAll(writes, v, issuedAt, faults, receiptsStored);
      if carried.Err? { return Err(CommitFailed(carried.error)); }
      ViewVersion(ledger);
      r := Ok(ProcessResult(evidence.1, committed.value, ledger.version, decisions, pending));
      ghost var outbox := ledger.View().outbox;
      forall m | started.materialization <= m < drawn.materialization ensures Settled(outbox, pending, m) {
        WriteNumbered(before.outbox, OutboxAfter(before.outbox, commands, v), writes, v, started.materialization, m);
        assert Settled(outbox, pending, writes[m - started.materialization].materialization);
      }
    }
  }

  lemma {:induction false} NoVersionLeft(l: Ledger, e: Envelope)
    requires l.version >= MAX_VERSION
    ensures !Accepted(l, e)
  {}

  lemma {:induction false} WholeBatchDelivered(commands: seq<Command>)
    requires DistinctIdentities(Associations(commands))
    ensures DeliveredCommands(commands) == commands
  {}

  lemma {:induction false} ExtendsItself(transactions: seq<TransactionRecord>)
    ensures Extends(transactions, transactions)
  {}

  lemma {:induction false} WritesCounted(p: Proposal, ids: Ids)
    ensures IdsNext(p, ids).transaction == ids.transaction
    ensures IdsNext(p, ids).materialization == ids.materialization + if WriteOf(p, ids).Some? then 1 else 0
  {}

  lemma {:induction false} NothingOwed(outbox: map<MaterializationId, OutboxEntry>, v: CommitVersion, first: nat)
    ensures AllPlain([]) && OutboxOwes(outbox, OutboxAfter(outbox, [], v), [], v, first)
  {}

  lemma {:induction false} PlainlyAppend(associations: seq<CommittedAssociation>, a: CommittedAssociation)
    ensures Plainly(associations + [a]) == Plainly(associations) + [Association(a.identity, a.observation)]
  {}

  lemma {:induction false} MaterializationsBelow(l: Ledger, ids: Ids)
    requires IdsFresh(l, ids)
    ensures forall m {:trigger m in l.outbox} :: m in l.outbox ==> m < ids.materialization
  {}

  lemma {:induction false} IdsGrow(l: Ledger, ids: Ids, more: Ids)
    requires IdsFresh(l, ids) && more.transaction == ids.transaction && more.materialization >= ids.materialization
    ensures IdsFresh(l, more)
  {}

  lemma {:induction false} WritesDistinct(
    before: map<MaterializationId, OutboxEntry>, after: map<MaterializationId, OutboxEntry>, writes: seq<Write>,
    v: CommitVersion, first: nat)
    requires OutboxOwes(before, after, writes, v, first)
    ensures forall i: nat, j: nat {:trigger writes[i], writes[j]} :: i < j < |writes| ==>
              writes[i].materialization != writes[j].materialization
  {}

  lemma {:induction false} WriteNumbered(
    before: map<MaterializationId, OutboxEntry>, after: map<MaterializationId, OutboxEntry>, writes: seq<Write>,
    v: CommitVersion, first: nat, m: nat)
    requires OutboxOwes(before, after, writes, v, first) && first <= m < first + |writes|
    ensures writes[m - first].materialization == m
  {}

  lemma {:induction false} NoneDistinct(all: seq<Association>)
    ensures DistinctIdentities(all[..0]) && all[..0] == []
  {}

  /** The log only grew. */
  ghost predicate Extends(before: seq<TransactionRecord>, after: seq<TransactionRecord>) {
    |before| <= |after| && before == after[..|before|]
  }

  lemma {:induction false} TwoEntries(
    before: seq<TransactionRecord>, first: TransactionRecord, second: TransactionRecord, after: seq<TransactionRecord>)
    requires Extends(before + [first, second], after)
    ensures |before| + 1 < |after| && after[|before|] == first && after[|before| + 1] == second
  {
    assert (before + [first, second])[|before|] == first && (before + [first, second])[|before| + 1] == second;
  }

  lemma {:induction false} CommitExtends(l: Ledger, e: Envelope)
    requires Accepted(l, e) && AllPlain(e.commands)
    ensures Extends(l.transactions, Commit(l, e).0.transactions)
  {
    PlainCommit(l, e);
  }

  lemma {:induction false} AcceptedCommits(l: Ledger, e: Envelope)
    ensures Accepted(l, e) ==> Commit(l, e).1.Ok?
  {}

  lemma {:induction false} ViewVersion(ledger: MemoryLedger)
    ensures ledger.View().version == ledger.version && ledger.View().outbox == ledger.outbox
  {}

  lemma {:induction false} IdsAdvance(l: Ledger, ids: Ids)
    requires IdsFresh(l, ids)
    ensures IdsFresh(l, NextTransaction(ids))
  {}

  lemma {:induction false} EntryNamed(l: Ledger, written: map<MaterializationId, HostFact>, m: MaterializationId)
    requires OutboxMatches(l, written) && m in l.outbox
    ensures l.outbox[m].id == m
  {
    assert EntryMatches(l, written, m);
  }

  /** Writing an entry's own fact keeps host and outbox matching. */
  lemma {:induction false} WrittenMatches(l: Ledger, written: map<MaterializationId, HostFact>, m: MaterializationId)
    requires OutboxMatches(l, written) && m in l.outbox
    ensures OutboxMatches(l, written[m := FactOf(l.outbox[m].relation, l.outbox[m].decision, l.outbox[m].commit)])
  {
    var more := written[m := FactOf(l.outbox[m].relation, l.outbox[m].decision, l.outbox[m].commit)];
    forall k | k in l.outbox ensures EntryMatches(l, more, k) { assert EntryMatches(l, written, k); }
  }
}
