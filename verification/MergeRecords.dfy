/** When merges end: which splits and reverts close them, and with which version. */
module MergeRecords {
  import opened Types
  import opened LedgerSpec
  import opened LedgerFrames
  import opened LedgerRuns
  import opened Dependencies
  import opened MemoryLedgers
  import opened Statuses
  import opened Representatives
  import opened Acceptance
  import opened Effects

  ghost predicate MergedBy(l: Ledger, i: nat, m: DecisionId)
    requires i < |l.transactions|
  {
    m in MergesNamed(l.transactions[i].envelope.commands)
  }

  /** The split `c` names merge `m`, or the revert `c` names or cascades to the log entry that brought it. */
  ghost predicate Closes(l: Ledger, c: Command, m: DecisionId) {
    || (c.Split? && m in c.plan.closeMerges)
    || exists i: nat {:trigger MergedBy(l, i, m)} ::
         i < |l.transactions| && MergedBy(l, i, m) && Hits(l, c, IdAt(l, i))
  }

  // ----- one command -----

  /** What becomes of an earlier merge: an open one ends now if the command closes it; an ended one stays as it is
      unless a split names it. */
  ghost predicate MergeStep(l: Ledger, now: Ledger, v: CommitVersion, c: Command, m: DecisionId)
    requires m in l.merges
  {
    && m in now.merges && Revised(l.merges[m].validity, now.merges[m].validity, v)
    && (l.merges[m].validity.end == None && l.merges[m].validity.begin < v && Closes(l, c, m) ==>
          now.merges[m].validity == VersionInterval(l.merges[m].validity.begin, Some(v)))
    && (!Closes(l, c, m) || (l.merges[m].validity.end.Some? && !c.Split?)
        || l.merges[m].validity == VersionInterval(v, None) ==>
          now.merges[m] == l.merges[m])
  }

  lemma {:induction false} MergesOfTarget(l: Ledger, t: TransactionId, m: DecisionId)
    requires WellIndexed(l)
    ensures m in MergesOf(l, t) <==> exists i: nat {:trigger MergedBy(l, i, m)} ::
                i < |l.transactions| && MergedBy(l, i, m) && IdAt(l, i) == t
  {
    if m in MergesOf(l, t) { assert MergedBy(l, l.transactionIndexes[t], m); }
    if i: nat :| i < |l.transactions| && MergedBy(l, i, m) && IdAt(l, i) == t { assert Indexed(l, i); }
  }

  lemma {:induction false} MergesOfTargets(l: Ledger, targets: seq<TransactionId>, n: nat, m: DecisionId)
    requires n <= |targets|
    ensures m in MergesOfAll(l, targets, n) <==>
            exists k: nat {:trigger targets[k]} :: k < n && m in MergesOf(l, targets[k])
  {
    hide MergesOf;
    if n > 0 { MergesOfTargets(l, targets, n - 1, m); }
  }

  lemma {:induction false} RevertCloses(l: Ledger, c: Command, m: DecisionId)
    requires WellIndexed(l) && c.Revert? && c.mode != Compensating
    ensures var targets := RevertTargets(l, c.transaction, c.mode);
            m in MergesOfAll(l, targets, |targets|) <==> Closes(l, c, m)
  {
    hide WellIndexed, MergesOf, MergedBy, Reaches, Closure, MergesOfAll;
    var targets := RevertTargets(l, c.transaction, c.mode);
    MergesOfTargets(l, targets, |targets|, m);
    if c.mode == Cascade { CascadeIsClosure(l, c.transaction); }
    assert forall x :: x in targets <==> Hits(l, c, x);
    if m in MergesOfAll(l, targets, |targets|) {
      var k: nat :| k < |targets| && m in MergesOf(l, targets[k]);
      MergesOfTarget(l, targets[k], m);
    }
    if i: nat :| i < |l.transactions| && MergedBy(l, i, m) && Hits(l, c, IdAt(l, i)) {
      var k: nat :| k < |targets| && targets[k] == IdAt(l, i);
      MergesOfTarget(l, targets[k], m);
    }
  }

  lemma {:induction false} DeactivateCommandEnded(l: Ledger, c: Command, v: CommitVersion, m: DecisionId)
    requires m in l.merges && l.merges[m].validity.end.Some?
    ensures m in DeactivateCommand(l, c, v).merges && DeactivateCommand(l, c, v).merges[m] == l.merges[m]
  {
    hide CurrentClosedInferences, CurrentClosedDecisions, ClosedDecisions;
  }

  lemma {:induction false} DeactivateCommandsEnded(
    l: Ledger, commands: seq<Command>, n: nat, v: CommitVersion, m: DecisionId)
    requires n <= |commands| && m in l.merges && l.merges[m].validity.end.Some?
    ensures var now := DeactivateCommands(l, commands, n, v); m in now.merges && now.merges[m] == l.merges[m]
  {
    hide DeactivateCommand;
    if n > 0 {
      DeactivateCommandsEnded(l, commands, n - 1, v, m);
      DeactivateCommandEnded(DeactivateCommands(l, commands, n - 1, v), commands[n - 1], v, m);
    }
  }

  lemma {:induction false} DeactivateEnded(l: Ledger, t: TransactionId, v: CommitVersion, m: DecisionId)
    requires m in l.merges && l.merges[m].validity.end.Some?
    ensures m in Deactivate(l, t, v).merges && Deactivate(l, t, v).merges[m] == l.merges[m]
  {
    hide DeactivateCommands, RebuiltStatus;
    if t in l.transactionIndexes && l.transactionIndexes[t] < |l.transactions| {
      var index := l.transactionIndexes[t];
      var commands := l.transactions[index].envelope.commands;
      var l1 := l.(transactions := l.transactions[index := l.transactions[index].(active := false)]);
      DeactivateCommandsEnded(l1, commands, |commands|, v, m);
    }
  }

  lemma {:induction false} DeactivateAllEnded(
    l: Ledger, targets: seq<TransactionId>, n: nat, v: CommitVersion, m: DecisionId)
    requires n <= |targets| && m in l.merges && l.merges[m].validity.end.Some?
    ensures var now := DeactivateAll(l, targets, n, v); m in now.merges && now.merges[m] == l.merges[m]
  {
    hide Deactivate;
    if n > 0 {
      DeactivateAllEnded(l, targets, n - 1, v, m);
      DeactivateEnded(DeactivateAll(l, targets, n - 1, v), targets[n - 1], v, m);
    }
  }

  lemma {:induction false} WithoutStep(
    l: Ledger, now: Ledger, withdrawn: set<DecisionId>, v: CommitVersion, c: Command, m: DecisionId)
    requires m in l.merges && Without(l, now, withdrawn, v) && SameRecords(l, now, v)
    requires m in withdrawn <==> Closes(l, c, m)
    requires l.merges[m].validity.end.Some? && (!c.Split? || !Closes(l, c, m)) ==> now.merges[m] == l.merges[m]
    ensures MergeStep(l, now, v, c, m)
  {
    hide Closes;
    assert OneWithout(l.merges, now.merges, withdrawn, v, m) && SameMerge(l.merges, now.merges, m, v);
  }

  lemma {:induction false} CloseMergesUnnamed(
    l: Ledger, ds: seq<DecisionId>, n: nat, v: CommitVersion, m: DecisionId)
    requires n <= |ds| && m in l.merges && m !in ds[..n]
    ensures var now := CloseMerges(l, ds, n, v); m in now.merges && now.merges[m] == l.merges[m]
  {
    if n > 0 {
      assert ds[..n] == ds[..n - 1] + [ds[n - 1]];
      CloseMergesUnnamed(l, ds, n - 1, v, m);
    }
  }

  lemma {:induction false} SplitStep(l: Ledger, c: Command, v: CommitVersion, m: DecisionId)
    requires c.Split? && m in l.merges && KnownParts(l, c.plan.partitions)
    ensures MergeStep(l, SplitIdentities(l, c.plan, v), v, c, m)
  {
    hide Without, CloseMerges, Reopen, RebuiltStatus, SameRecords, SameLog;
    var ds := c.plan.closeMerges;
    var n, l1, now := |ds|, CloseMerges(l, ds, |ds|, v), SplitIdentities(l, c.plan, v);
    assert ds[..n] == ds;
    CloseMergesWithout(l, ds, n, v);
    SplitRevises(l, c.plan, v);
    SameMergesWithout(l, l, l1, now, Elements(ds), v);
    if m !in ds { CloseMergesUnnamed(l, ds, n, v, m); }
    assert !Hits(l, c, 0) && (Closes(l, c, m) <==> m in ds);
    WithoutStep(l, now, Elements(ds), v, c, m);
  }

  lemma {:induction false} RevertStep(l: Ledger, c: Command, v: CommitVersion, m: DecisionId)
    requires c.Revert? && m in l.merges && WellIndexed(l)
    ensures MergeStep(l, RevertTransaction(l, c.transaction, c.mode, v), v, c, m)
  {
    hide Without, DeactivateAll, RevertTargets, SameRecords, SameLog, WellIndexed, MergesOfAll, MergedBy, Closes;
    if c.mode == Compensating {
      CompensatingCloses(l, c, m);
    } else {
      var targets := RevertTargets(l, c.transaction, c.mode);
      var now := DeactivateAll(l, targets, |targets|, v);
      DeactivateAllWithout(l, targets, |targets|, v);
      DeactivateAllRevises(l, targets, |targets|, v);
      RevertCloses(l, c, m);
      if l.merges[m].validity.end.Some? { DeactivateAllEnded(l, targets, |targets|, v, m); }
      WithoutStep(l, now, MergesOfAll(l, targets, |targets|), v, c, m);
    }
  }

  lemma {:induction false} CompensatingCloses(l: Ledger, c: Command, m: DecisionId)
    requires c.Revert? && c.mode == Compensating
    ensures !Closes(l, c, m)
  {}

  lemma {:induction false} CommandMergeStep(
    l: Ledger, t: TransactionId, v: CommitVersion, c: Command, m: DecisionId)
    requires WellIndexed(l) && Ready(l, v, c) && m in l.merges
    ensures MergeStep(l, ApplyCommand(l, t, v, c), v, c, m)
  {
    hide WellIndexed, MergedBy, RevertTransaction, SplitIdentities, MergedStatuses, CurrentClosedInferences,
         CurrentClosedDecisions, KnownParts, Completed;
    match c
    case Revert(_, _) => RevertStep(l, c, v, m);
    case Split(_) => SplitStep(l, c, v, m);
    case _ =>
  }

  // ----- a batch -----

  /** Some command among the first `n` closes `m`. */
  ghost predicate ClosedIn(l: Ledger, commands: seq<Command>, n: nat, m: DecisionId)
    requires n <= |commands|
  {
    exists i: nat {:trigger Closes(l, commands[i], m)} :: i < n && Closes(l, commands[i], m)
  }

  lemma {:induction false} ClosedStep(l: Ledger, commands: seq<Command>, n: nat, m: DecisionId)
    requires n < |commands|
    ensures ClosedIn(l, commands, n + 1, m) <==> ClosedIn(l, commands, n, m) || Closes(l, commands[n], m)
  {
    hide Closes;
  }

  lemma {:induction false} NothingClosed(l: Ledger, commands: seq<Command>, m: DecisionId)
    ensures !ClosedIn(l, commands, 0, m)
  {}

  lemma {:induction false} SameClosing(l: Ledger, now: Ledger, c: Command, m: DecisionId)
    requires SameLog(l, now)
    ensures Closes(now, c, m) <==> Closes(l, c, m)
  {
    hide Hits, MergesNamed;
    forall i: nat | i < |l.transactions|
      ensures IdAt(now, i) == IdAt(l, i) && (MergedBy(now, i, m) <==> MergedBy(l, i, m))
      ensures Hits(now, c, IdAt(now, i)) <==> Hits(l, c, IdAt(l, i))
    {
      SameIds(l, now, i);
      SameHits(l, now, c, IdAt(l, i));
    }
  }

  /** An accepted split names open merges only. */
  lemma {:induction false} SplitsNameOpen(l: Ledger, e: Envelope, v: CommitVersion, n: nat, m: DecisionId)
    requires CheckPrefix(l, v, e.commands, |e.commands|).Ok? && n < |e.commands| && e.commands[n].Split?
    requires m in e.commands[n].plan.closeMerges
    ensures m in l.merges && l.merges[m].validity.end == None
  {
    hide CheckPartitions;
    PrefixOk(l, v, e.commands, n + 1, |e.commands|);
  }

  /** The validity an earlier merge has after the first `n` commands of an accepted batch. */
  lemma {:induction false} BatchMerge(l: Ledger, e: Envelope, v: CommitVersion, n: nat, m: DecisionId)
    requires WellIndexed(l) && Applicable(l, e, v) && CheckPrefix(l, v, e.commands, |e.commands|).Ok?
    requires n <= |e.commands| && m in l.merges && l.merges[m].validity.begin < v
    ensures var now := ApplyPrefix(l, e, v, n);
            && m in now.merges
            && now.merges[m].validity ==
               if l.merges[m].validity.end == None && ClosedIn(l, e.commands, n, m)
               then VersionInterval(l.merges[m].validity.begin, Some(v)) else l.merges[m].validity
  {
    hide WellIndexed, Applicable, ApplyCommand, Ready, Closes, ClosedIn, SameLog;
    if n == 0 {
      NothingClosed(l, e.commands, m);
    } else {
      BatchMerge(l, e, v, n - 1, m);
      var now, c := ApplyPrefix(l, e, v, n - 1), e.commands[n - 1];
      ReadyAt(l, e, v, n - 1);
      SameLogWellIndexed(l, now);
      CommandMergeStep(now, e.transaction, v, c, m);
      SameClosing(l, now, c, m);
      ClosedStep(l, e.commands, n - 1, m);
      if c.Split? && Closes(l, c, m) {
        SplitCloses(l, c, m);
        SplitsNameOpen(l, e, v, n - 1, m);
      }
    }
  }

  lemma {:induction false} SplitCloses(l: Ledger, c: Command, m: DecisionId)
    requires c.Split?
    ensures Closes(l, c, m) <==> m in c.plan.closeMerges
  {}

  /** A merge cannot end in the commit that brings it. */
  lemma {:induction false} BatchOwnMerge(l: Ledger, e: Envelope, v: CommitVersion, n: nat, m: DecisionId)
    requires WellIndexed(l) && Applicable(l, e, v) && n <= |e.commands| && m in MergesNamed(e.commands[..n])
    ensures var now := ApplyPrefix(l, e, v, n); m in now.merges && now.merges[m].validity == VersionInterval(v, None)
  {
    hide WellIndexed, Applicable, ApplyCommand, Ready, Closes, SameLog;
    var now, c := ApplyPrefix(l, e, v, n - 1), e.commands[n - 1];
    assert e.commands[..n] == e.commands[..n - 1] + [c];
    ReadyAt(l, e, v, n - 1);
    SameLogWellIndexed(l, now);
    if m in MergesNamed(e.commands[..n - 1]) {
      BatchOwnMerge(l, e, v, n - 1, m);
      CommandMergeStep(now, e.transaction, v, c, m);
    } else {
      MergeOpens(now, e.transaction, v, c);
    }
  }

  lemma {:induction false} MergeOpens(l: Ledger, t: TransactionId, v: CommitVersion, c: Command)
    requires c.Merge?
    ensures var now := ApplyCommand(l, t, v, c);
            c.merge in now.merges && now.merges[c.merge].validity == VersionInterval(v, None)
  {}

  // ----- runs -----

  /** Log entry `h` closes `m`: one of its splits names it, or one of its reverts withdraws the entry that brought
      it. */
  ghost predicate ClosedAt(log: seq<Envelope>, h: nat, m: DecisionId)
    requires h < |log|
  {
    ClosedIn(State(log, h), log[h].commands, |log[h].commands|, m)
  }

  ghost predicate NotClosedUntil(log: seq<Envelope>, j: nat, h: nat, m: DecisionId)
    requires h <= |log|
  {
    forall g: nat {:trigger ClosedAt(log, g, m)} :: j < g < h ==> !ClosedAt(log, g, m)
  }

  /** The interval of a merge that log entry `j` brought: open until the first later entry that closes it. */
  ghost predicate Lasts(log: seq<Envelope>, k: nat, j: nat, m: DecisionId, validity: VersionInterval)
    requires j < k <= |log|
  {
    && validity.begin == j + 1
    && match validity.end
       case None => NotClosedUntil(log, j, k, m)
       case Some(e) => j + 1 < e <= k && ClosedAt(log, e - 1, m) && NotClosedUntil(log, j, e - 1, m)
  }

  lemma {:induction false} LastsStep(
    log: seq<Envelope>, k: nat, j: nat, m: DecisionId, before: VersionInterval, now: VersionInterval)
    requires j < k < |log| && Lasts(log, k, j, m, before)
    requires now == if before.end == None && ClosedAt(log, k, m)
                    then VersionInterval(before.begin, Some(k + 1)) else before
    ensures Lasts(log, k + 1, j, m, now)
  {
    hide ClosedAt;
  }

  lemma {:induction false} LastsAtFirst(log: seq<Envelope>, j: nat, m: DecisionId)
    requires j < |log|
    ensures Lasts(log, j + 1, j, m, VersionInterval(j + 1, None))
  {
    hide ClosedAt;
  }

  /** In every run a merge is open exactly until the first later split that names it, or revert that withdraws it, and
      ends with that commit. */
  lemma {:induction false} MergesLast(log: seq<Envelope>, k: nat, j: nat, m: DecisionId)
    requires ValidLog(log) && j < k <= |log| && m in MergesNamed(log[j].commands)
    ensures m in State(log, k).merges && Lasts(log, k, j, m, State(log, k).merges[m].validity)
  {
    hide State, Accepted, Apply, Applicable, Validate, ApplyPrefix, WellIndexed, Logged, CheckPrefix, MergesNamed,
         Lasts;
    var l, e := State(log, k - 1), log[k - 1];
    StateAccepts(log, k - 1);
    StateWellIndexed(log, k - 1);
    ApplyKeepsMerges(l, e, k);
    if j == k - 1 {
      assert e.commands[..|e.commands|] == e.commands;
      BatchOwnMerge(l, e, k, |e.commands|, m);
      LastsAtFirst(log, j, m);
    } else {
      MergesLast(log, k - 1, j, m);
      AcceptedCommands(l, e);
      LastsBefore(log, k - 1, j, m, l.merges[m].validity);
      BatchMerge(l, e, k, |e.commands|, m);
      LastsStep(log, k - 1, j, m, l.merges[m].validity, State(log, k).merges[m].validity);
    }
  }

  lemma {:induction false} ApplyKeepsMerges(l: Ledger, e: Envelope, v: CommitVersion)
    ensures Apply(l, e, v).merges == ApplyPrefix(l, e, v, |e.commands|).merges
  {
    hide ApplyPrefix, AddDependents;
  }

  lemma {:induction false} LastsBefore(log: seq<Envelope>, k: nat, j: nat, m: DecisionId, validity: VersionInterval)
    requires j < k <= |log| && Lasts(log, k, j, m, validity)
    ensures validity.begin < k + 1
  {
    hide ClosedAt, NotClosedUntil;
  }

  lemma {:induction false} AcceptedCommands(l: Ledger, e: Envelope)
    requires Accepted(l, e)
    ensures CheckPrefix(l, l.version + 1, e.commands, |e.commands|).Ok?
  {
    hide CheckPrefix;
  }
}
