/** The outbox against the log: which materializations are open, and what a revert takes away. */
module Withdrawals {
  import opened Types
  import opened LedgerSpec
  import opened LedgerFrames
  import opened LedgerRuns
  import opened Dependencies
  import opened Acceptance

  ghost predicate EnqueuedIn(commands: seq<Command>, n: nat, m: MaterializationId)
    requires n <= |commands|
  {
    exists i: nat {:trigger Enqueues(commands[i], m)} :: i < n && Enqueues(commands[i], m)
  }

  /** Log entry `i` enqueued `m`. */
  ghost predicate EnqueuedBy(l: Ledger, i: nat, m: MaterializationId)
    requires i < |l.transactions|
  {
    EnqueuedIn(l.transactions[i].envelope.commands, |l.transactions[i].envelope.commands|, m)
  }

  /** The revert `c` names or cascades to a log entry that enqueued `m`. */
  ghost predicate Withdraws(l: Ledger, c: Command, m: MaterializationId) {
    exists i: nat {:trigger EnqueuedBy(l, i, m)} ::
      i < |l.transactions| && EnqueuedBy(l, i, m) && Hits(l, c, IdAt(l, i))
  }

  // ----- one revert -----

  /** `b` is `a` without the entries of `gone`. */
  ghost predicate OutboxKept(
    a: map<MaterializationId, OutboxEntry>, b: map<MaterializationId, OutboxEntry>, m: MaterializationId, gone: bool)
  {
    (m in b <==> m in a && !gone) && (m in b ==> b[m] == a[m])
  }

  lemma {:induction false} WithdrawKeepsOutbox(l: Ledger, i: InferenceRecord, d: DecisionId, v: CommitVersion)
    ensures CloseDecision(Withdraw(l, i, v), d, v).outbox == l.outbox
  {
    hide CurrentClosedInferences, CurrentClosedDecisions, ClosedDecisions;
  }

  lemma {:induction false} DeactivateCommandOutbox(l: Ledger, c: Command, v: CommitVersion, m: MaterializationId)
    ensures OutboxKept(l.outbox, DeactivateCommand(l, c, v).outbox, m, Enqueues(c, m))
  {
    hide Withdraw, CloseDecision, ClosedIfOpen;
    match c
    case CommitResolution(i, d, _) => WithdrawKeepsOutbox(l, i, d.id, v);
    case EnqueueMaterialization(_, _, _) =>
    case _ => assert DeactivateCommand(l, c, v).outbox == l.outbox;
  }

  lemma {:induction false} OneMoreEnqueued(commands: seq<Command>, n: nat, m: MaterializationId)
    requires n < |commands|
    ensures EnqueuedIn(commands, n + 1, m) <==> EnqueuedIn(commands, n, m) || Enqueues(commands[n], m)
  {
    hide Enqueues;
  }

  lemma {:induction false} DeactivateCommandsOutbox(
    l: Ledger, commands: seq<Command>, n: nat, v: CommitVersion, m: MaterializationId)
    requires n <= |commands|
    ensures OutboxKept(l.outbox, DeactivateCommands(l, commands, n, v).outbox, m, EnqueuedIn(commands, n, m))
  {
    hide DeactivateCommand, EnqueuedIn, Enqueues;
    if n == 0 {
      assert !EnqueuedIn(commands, 0, m) by { NothingEnqueued(commands, m); }
    } else {
      DeactivateCommandsOutbox(l, commands, n - 1, v, m);
      DeactivateCommandOutbox(DeactivateCommands(l, commands, n - 1, v), commands[n - 1], v, m);
      OneMoreEnqueued(commands, n - 1, m);
    }
  }

  lemma {:induction false} NothingEnqueued(commands: seq<Command>, m: MaterializationId)
    ensures !EnqueuedIn(commands, 0, m)
  {}

  /** Transaction `t` is in the log and enqueued `m`. */
  ghost predicate EnqueuedUnder(l: Ledger, t: TransactionId, m: MaterializationId) {
    exists i: nat {:trigger EnqueuedBy(l, i, m)} ::
      i < |l.transactions| && EnqueuedBy(l, i, m) && IdAt(l, i) == t
  }

  lemma {:induction false} DeactivateOutbox(l: Ledger, t: TransactionId, v: CommitVersion, m: MaterializationId)
    requires WellIndexed(l)
    ensures OutboxKept(l.outbox, Deactivate(l, t, v).outbox, m, EnqueuedUnder(l, t, m))
  {
    hide DeactivateCommands, RebuiltStatus, EnqueuedIn;
    if t in l.transactionIndexes {
      var index := l.transactionIndexes[t];
      var commands := l.transactions[index].envelope.commands;
      var l1 := l.(transactions := l.transactions[index := l.transactions[index].(active := false)]);
      DeactivateCommandsOutbox(l1, commands, |commands|, v, m);
      assert EnqueuedBy(l, index, m) ==> EnqueuedUnder(l, t, m);
    }
    if EnqueuedUnder(l, t, m) {
      var i: nat :| i < |l.transactions| && EnqueuedBy(l, i, m) && IdAt(l, i) == t;
      assert Indexed(l, i);
    }
  }

  ghost predicate OneEnqueued(l: Ledger, targets: seq<TransactionId>, n: nat, m: MaterializationId)
    requires n <= |targets|
  {
    exists i: nat {:trigger EnqueuedUnder(l, targets[i], m)} :: i < n && EnqueuedUnder(l, targets[i], m)
  }

  lemma {:induction false} SameEnqueued(l: Ledger, l': Ledger, t: TransactionId, m: MaterializationId)
    requires SameLog(l, l') && |l'.transactions| == |l.transactions|
    ensures EnqueuedUnder(l', t, m) <==> EnqueuedUnder(l, t, m)
  {
    forall i: nat | i < |l.transactions|
      ensures IdAt(l', i) == IdAt(l, i) && (EnqueuedBy(l', i, m) <==> EnqueuedBy(l, i, m))
    {
      SameIds(l, l', i);
    }
  }

  lemma {:induction false} DeactivateAllLength(l: Ledger, targets: seq<TransactionId>, n: nat, v: CommitVersion)
    requires n <= |targets|
    ensures |DeactivateAll(l, targets, n, v).transactions| == |l.transactions|
  {
    DeactivateAllRevises(l, targets, n, v);
  }

  lemma {:induction false} DeactivateAllOutbox(
    l: Ledger, targets: seq<TransactionId>, n: nat, v: CommitVersion, m: MaterializationId)
    requires WellIndexed(l) && n <= |targets|
    ensures OutboxKept(l.outbox, DeactivateAll(l, targets, n, v).outbox, m, OneEnqueued(l, targets, n, m))
  {
    hide Deactivate, WellIndexed, SameEntry, SameRecords, EnqueuedUnder;
    if n > 0 {
      DeactivateAllOutbox(l, targets, n - 1, v, m);
      var l1 := DeactivateAll(l, targets, n - 1, v);
      DeactivateAllRevises(l, targets, n - 1, v);
      DeactivateAllLength(l, targets, n - 1, v);
      SameLogWellIndexed(l, l1);
      DeactivateOutbox(l1, targets[n - 1], v, m);
      SameEnqueued(l, l1, targets[n - 1], m);
      assert OneEnqueued(l, targets, n, m) <==>
             OneEnqueued(l, targets, n - 1, m) || EnqueuedUnder(l, targets[n - 1], m);
    }
  }

  /** A revert takes away exactly the materializations that the transactions it deactivates enqueued, and leaves the
      other entries as they are. */
  lemma {:induction false} RevertWithdraws(
    l: Ledger, t: TransactionId, mode: RevertMode, v: CommitVersion, m: MaterializationId)
    requires WellIndexed(l)
    ensures OutboxKept(l.outbox, RevertTransaction(l, t, mode, v).outbox, m, Withdraws(l, Revert(t, mode), m))
  {
    hide DeactivateAll, WellIndexed, Reaches, Closure, EnqueuedBy;
    if mode != Compensating {
      var targets := RevertTargets(l, t, mode);
      DeactivateAllOutbox(l, targets, |targets|, v, m);
      if mode == Cascade { CascadeIsClosure(l, t); }
      EnqueuersAreHit(l, targets, Revert(t, mode), m);
    }
  }

  lemma {:induction false} EnqueuersAreHit(l: Ledger, targets: seq<TransactionId>, c: Command, m: MaterializationId)
    requires forall x :: x in targets <==> Hits(l, c, x)
    ensures OneEnqueued(l, targets, |targets|, m) <==> Withdraws(l, c, m)
  {
    hide EnqueuedBy, Hits;
    if OneEnqueued(l, targets, |targets|, m) {
      var k: nat :| k < |targets| && EnqueuedUnder(l, targets[k], m);
      var i: nat :| i < |l.transactions| && EnqueuedBy(l, i, m) && IdAt(l, i) == targets[k];
      assert targets[k] in targets && Hits(l, c, IdAt(l, i));
    }
    if Withdraws(l, c, m) {
      var i: nat :| i < |l.transactions| && EnqueuedBy(l, i, m) && Hits(l, c, IdAt(l, i));
      var k: nat :| k < |targets| && targets[k] == IdAt(l, i);
      assert EnqueuedUnder(l, targets[k], m);
    }
  }

  // ----- one command -----

  /** What becomes of an entry under one command. */
  ghost predicate EntryStep(l: Ledger, now: Ledger, v: CommitVersion, c: Command, m: MaterializationId) {
    && (m in now.outbox <==> (m in l.outbox || Enqueues(c, m)) && !Withdraws(l, c, m))
    && (m in now.outbox ==>
          if Enqueues(c, m) then now.outbox[m] == OutboxEntry(m, c.responsible, c.relation, v, false)
          else if c.Materialized? && c.materialization == m then now.outbox[m] == l.outbox[m].(completed := true)
          else now.outbox[m] == l.outbox[m])
  }

  lemma {:induction false} CommandOutbox(
    l: Ledger, t: TransactionId, v: CommitVersion, c: Command, m: MaterializationId)
    requires WellIndexed(l) && Ready(l, v, c)
    ensures EntryStep(l, ApplyCommand(l, t, v, c), v, c, m)
  {
    hide WellIndexed, EnqueuedBy, RevertTransaction, SplitIdentities, MergedStatuses, CurrentClosedInferences,
         CurrentClosedDecisions, SameLog, SameRecords, KnownParts;
    match c
    case Revert(target, mode) => RevertWithdraws(l, target, mode, v, m);
    case Split(plan) => SplitOutbox(l, plan, v);
    case _ =>
  }

  lemma {:induction false} SplitOutbox(l: Ledger, plan: SplitPlan, v: CommitVersion)
    ensures SplitIdentities(l, plan, v).outbox == l.outbox
  {
    hide CloseMerges, RebuiltStatus, Reopen;
    CloseMergesFlags(l, plan.closeMerges, |plan.closeMerges|, v);
  }

  // ----- every entry is a logged, active one -----

  /** The entry's commit is an active log entry that enqueued it with this decision and relation. */
  ghost predicate EntryLogged(l: Ledger, m: MaterializationId)
    requires m in l.outbox
  {
    var entry := l.outbox[m];
    && entry.id == m && 1 <= entry.commit <= |l.transactions|
    && l.transactions[entry.commit - 1].active
    && EnqueueMaterialization(m, entry.decision, entry.relation) in l.transactions[entry.commit - 1].envelope.commands
  }

  /** In the middle of a batch, also the batch's own commands may have enqueued it. */
  ghost predicate EntryMidBatch(
    l: Ledger, now: Ledger, commands: seq<Command>, n: nat, v: CommitVersion, m: MaterializationId)
    requires n <= |commands| && m in now.outbox
  {
    var entry := now.outbox[m];
    || EntryLogged(now, m)
    || (entry.id == m && entry.commit == v
        && EnqueueMaterialization(m, entry.decision, entry.relation) in commands[..n])
  }

  lemma {:induction false} LoggedEntryStays(
    l: Ledger, now: Ledger, t: TransactionId, v: CommitVersion, c: Command, m: MaterializationId)
    requires WellIndexed(now) && Ready(now, v, c) && m in now.outbox && EntryLogged(now, m)
    requires now.dependents == l.dependents && !Enqueues(c, m)
    ensures var next := ApplyCommand(now, t, v, c);
            |next.transactions| == |now.transactions| && (m in next.outbox ==> EntryLogged(next, m))
  {
    hide WellIndexed, Ready, ApplyCommand, Hits;
    var next, k: nat := ApplyCommand(now, t, v, c), now.outbox[m].commit - 1;
    CommandOutbox(now, t, v, c, m);
    CommandFlags(now, now, t, v, c, k);
    CommandKeepsEnvelope(now, t, v, c, k);
    var commands := now.transactions[k].envelope.commands;
    var i: nat :| i < |commands|
                  && commands[i] == EnqueueMaterialization(m, now.outbox[m].decision, now.outbox[m].relation);
    assert Enqueues(commands[i], m) && EnqueuedBy(now, k, m);
  }

  lemma {:induction false} CommandKeepsEnvelope(l: Ledger, t: TransactionId, v: CommitVersion, c: Command, k: nat)
    requires WellIndexed(l) && Ready(l, v, c) && k < |l.transactions|
    ensures |ApplyCommand(l, t, v, c).transactions| == |l.transactions|
    ensures ApplyCommand(l, t, v, c).transactions[k].envelope == l.transactions[k].envelope
  {
    hide WellIndexed, Reaches, RevertTransaction, Hits;
    CommandFlags(l, l, t, v, c, k);
    if c.Revert? {
      RevertRevises(l, c.transaction, c.mode, v);
      SameIds(l, RevertTransaction(l, c.transaction, c.mode, v), k);
    } else {
      PlainCommandFlags(l, t, v, c);
    }
  }

  lemma {:induction false} MidBatchStep(l: Ledger, e: Envelope, v: CommitVersion, n: nat, m: MaterializationId)
    requires WellIndexed(l) && Applicable(l, e, v) && n < |e.commands| && v == |l.transactions| + 1
    requires var now := ApplyPrefix(l, e, v, n); m in now.outbox ==> EntryMidBatch(l, now, e.commands, n, v, m)
    requires m in ApplyPrefix(l, e, v, n + 1).outbox
    ensures EntryMidBatch(l, ApplyPrefix(l, e, v, n + 1), e.commands, n + 1, v, m)
  {
    hide WellIndexed, Ready, ApplyCommand, EntryLogged, SameLog, Applicable, Withdraws;
    var now, c := ApplyPrefix(l, e, v, n), e.commands[n];
    ReadyAt(l, e, v, n);
    PrefixSameLog(l, e, v, n);
    SameLogWellIndexed(l, now);
    CommandOutbox(now, e.transaction, v, c, m);
    assert e.commands[..n + 1] == e.commands[..n] + [c];
    if !Enqueues(c, m) && EntryLogged(now, m) { LoggedEntryStays(l, now, e.transaction, v, c, m); }
  }

  lemma {:induction false} BatchEntries(l: Ledger, e: Envelope, v: CommitVersion, n: nat, m: MaterializationId)
    requires WellIndexed(l) && Applicable(l, e, v) && n <= |e.commands| && v == |l.transactions| + 1
    requires m in l.outbox ==> EntryLogged(l, m)
    ensures var now := ApplyPrefix(l, e, v, n); m in now.outbox ==> EntryMidBatch(l, now, e.commands, n, v, m)
  {
    hide WellIndexed, Applicable, ApplyCommand, EntryLogged;
    if n > 0 {
      BatchEntries(l, e, v, n - 1, m);
      if m in ApplyPrefix(l, e, v, n).outbox { MidBatchStep(l, e, v, n - 1, m); }
    }
  }

  lemma {:induction false} RecordedEntry(l: Ledger, now: Ledger, e: Envelope, v: CommitVersion, m: MaterializationId)
    requires m in now.outbox && EntryMidBatch(l, now, e.commands, |e.commands|, v, m)
    requires v == |now.transactions| + 1
    ensures EntryLogged(Record(now, e, v), m)
  {
    hide AddDependents;
    assert e.commands[..|e.commands|] == e.commands;
  }

  /** In every run, every outbox entry is one that an active log entry enqueued: reverted transactions have none. */
  lemma {:induction false} EntriesAreLogged(log: seq<Envelope>, k: nat, m: MaterializationId)
    requires ValidLog(log) && k <= |log| && m in State(log, k).outbox
    ensures EntryLogged(State(log, k), m)
  {
    hide ValidLog, Accepted, Applicable, Validate, ApplyPrefix, AddDependents, WellIndexed, Logged, EntryLogged,
         EntryMidBatch, SameLog;
    if k > 0 {
      var l, e := State(log, k - 1), log[k - 1];
      if m in l.outbox { EntriesAreLogged(log, k - 1, m); }
      StateAccepts(log, k - 1);
      StateWellIndexed(log, k - 1);
      BatchEntries(l, e, k, |e.commands|, m);
      PrefixSameLog(l, e, k, |e.commands|);
      RecordedEntry(l, ApplyPrefix(l, e, k, |e.commands|), e, k, m);
    }
  }

  // ----- which materializations are open -----

  /** No revert among the first `n` commands takes `m` away. */
  ghost predicate Spared(l: Ledger, commands: seq<Command>, from: nat, n: nat, m: MaterializationId)
    requires n <= |commands|
  {
    forall i: nat {:trigger Withdraws(l, commands[i], m)} :: from <= i < n ==> !Withdraws(l, commands[i], m)
  }

  /** Command `i` enqueues `m`, and no later one takes it away. */
  ghost predicate LeftBy(l: Ledger, commands: seq<Command>, i: nat, n: nat, m: MaterializationId)
    requires i < n <= |commands|
  {
    Enqueues(commands[i], m) && Spared(l, commands, i + 1, n, m)
  }

  ghost predicate LeftEnqueued(l: Ledger, commands: seq<Command>, n: nat, m: MaterializationId)
    requires n <= |commands|
  {
    exists i: nat {:trigger LeftBy(l, commands, i, n, m)} :: i < n && LeftBy(l, commands, i, n, m)
  }

  lemma {:induction false} SameWithdrawals(l: Ledger, now: Ledger, c: Command, m: MaterializationId)
    requires SameLog(l, now) && |now.transactions| == |l.transactions| && now.dependents == l.dependents
    ensures Withdraws(now, c, m) <==> Withdraws(l, c, m)
  {
    hide Hits;
    forall i: nat | i < |l.transactions|
      ensures IdAt(now, i) == IdAt(l, i) && (EnqueuedBy(now, i, m) <==> EnqueuedBy(l, i, m))
      ensures Hits(now, c, IdAt(now, i)) <==> Hits(l, c, IdAt(l, i))
    {
      SameIds(l, now, i);
      SameHits(l, now, c, IdAt(l, i));
    }
  }

  lemma {:induction false} LeftStep(l: Ledger, commands: seq<Command>, n: nat, m: MaterializationId)
    requires n < |commands|
    ensures Spared(l, commands, 0, n + 1, m) <==> Spared(l, commands, 0, n, m) && !Withdraws(l, commands[n], m)
    ensures LeftEnqueued(l, commands, n + 1, m) <==>
            (LeftEnqueued(l, commands, n, m) && !Withdraws(l, commands[n], m)) || Enqueues(commands[n], m)
  {
    hide Withdraws, Enqueues;
    if LeftEnqueued(l, commands, n, m) && !Withdraws(l, commands[n], m) {
      var i: nat :| i < n && LeftBy(l, commands, i, n, m);
      assert LeftBy(l, commands, i, n + 1, m);
    }
    if Enqueues(commands[n], m) { assert LeftBy(l, commands, n, n + 1, m); }
    if LeftEnqueued(l, commands, n + 1, m) && !Enqueues(commands[n], m) {
      var i: nat :| i < n + 1 && LeftBy(l, commands, i, n + 1, m);
      assert LeftBy(l, commands, i, n, m);
    }
  }

  lemma {:induction false} EnqueuingWithdrawsNothing(l: Ledger, c: Command, m: MaterializationId)
    ensures Enqueues(c, m) ==> !Withdraws(l, c, m)
  {}

  lemma {:induction false} BatchOutbox(l: Ledger, e: Envelope, v: CommitVersion, n: nat, m: MaterializationId)
    requires WellIndexed(l) && Applicable(l, e, v) && n <= |e.commands|
    ensures m in ApplyPrefix(l, e, v, n).outbox <==>
            (m in l.outbox && Spared(l, e.commands, 0, n, m)) || LeftEnqueued(l, e.commands, n, m)
  {
    hide WellIndexed, Applicable, ApplyCommand, Ready, Withdraws, Spared, LeftEnqueued, Enqueues, SameLog;
    if n == 0 {
      NothingLeft(l, e.commands, m);
    } else {
      BatchOutbox(l, e, v, n - 1, m);
      var now, c := ApplyPrefix(l, e, v, n - 1), e.commands[n - 1];
      ReadyAt(l, e, v, n - 1);
      PrefixSameLog(l, e, v, n - 1);
      SameLogWellIndexed(l, now);
      CommandOutbox(now, e.transaction, v, c, m);
      SameWithdrawals(l, now, c, m);
      LeftStep(l, e.commands, n - 1, m);
      EnqueuingWithdrawsNothing(l, c, m);
    }
  }

  lemma {:induction false} NothingLeft(l: Ledger, commands: seq<Command>, m: MaterializationId)
    ensures Spared(l, commands, 0, 0, m) && !LeftEnqueued(l, commands, 0, m)
  {}

  /** Log entry `j` takes `m` nowhere away. */
  ghost predicate SparedAt(log: seq<Envelope>, j: nat, m: MaterializationId)
    requires j < |log|
  {
    Spared(State(log, j), log[j].commands, 0, |log[j].commands|, m)
  }

  /** Log entry `j` enqueues `m`, and none of the entry's later commands takes it away. */
  ghost predicate LeftAt(log: seq<Envelope>, j: nat, m: MaterializationId)
    requires j < |log|
  {
    LeftEnqueued(State(log, j), log[j].commands, |log[j].commands|, m)
  }

  ghost predicate Standing(log: seq<Envelope>, j: nat, k: nat, m: MaterializationId)
    requires j < k <= |log|
  {
    LeftAt(log, j, m) && forall h: nat {:trigger SparedAt(log, h, m)} :: j < h < k ==> SparedAt(log, h, m)
  }

  ghost predicate Outstanding(log: seq<Envelope>, k: nat, m: MaterializationId)
    requires k <= |log|
  {
    exists j: nat {:trigger LeftAt(log, j, m)} :: j < k && Standing(log, j, k, m)
  }

  lemma {:induction false} OutstandingStep(log: seq<Envelope>, k: nat, m: MaterializationId)
    requires k < |log|
    ensures Outstanding(log, k + 1, m) <==> (Outstanding(log, k, m) && SparedAt(log, k, m)) || LeftAt(log, k, m)
  {
    hide LeftAt, SparedAt;
    if Outstanding(log, k, m) && SparedAt(log, k, m) {
      var j: nat :| j < k && Standing(log, j, k, m);
      assert LeftAt(log, j, m) && Standing(log, j, k + 1, m);
    }
    if LeftAt(log, k, m) { assert Standing(log, k, k + 1, m); }
    if Outstanding(log, k + 1, m) && !LeftAt(log, k, m) {
      var j: nat :| j < k + 1 && Standing(log, j, k + 1, m);
      assert LeftAt(log, j, m) && Standing(log, j, k, m);
    }
  }

  lemma {:induction false} NothingOutstanding(log: seq<Envelope>, m: MaterializationId)
    ensures !Outstanding(log, 0, m) && m !in State(log, 0).outbox
  {}

  lemma {:induction false} ApplyKeepsOutbox(l: Ledger, e: Envelope, v: CommitVersion)
    ensures Apply(l, e, v).outbox == ApplyPrefix(l, e, v, |e.commands|).outbox
  {
    hide ApplyPrefix, AddDependents;
  }

  /** In every run, the outbox holds exactly the materializations that were enqueued and whose transactions no later
      revert named or cascaded to. */
  lemma {:induction false} OutstandingIff(log: seq<Envelope>, k: nat, m: MaterializationId)
    requires ValidLog(log) && k <= |log|
    ensures m in State(log, k).outbox <==> Outstanding(log, k, m)
  {
    hide State, ValidLog, Accepted, Apply, Applicable, Validate, ApplyPrefix, WellIndexed, Logged, Standing, Spared,
         LeftEnqueued, Outstanding;
    if k == 0 {
      NothingOutstanding(log, m);
    } else {
      OutstandingIff(log, k - 1, m);
      OutstandingStep(log, k - 1, m);
      StateAccepts(log, k - 1);
      StateWellIndexed(log, k - 1);
      BatchOutbox(State(log, k - 1), log[k - 1], k, |log[k - 1].commands|, m);
      ApplyKeepsOutbox(State(log, k - 1), log[k - 1], k);
    }
  }
}
