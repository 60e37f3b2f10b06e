/** Receipts of host writes: when does a materialization keep at most one? */
module Receipts {
  import opened Types
  import opened LedgerSpec
  import opened LedgerFrames
  import opened LedgerRuns
  import opened Dependencies

  ghost predicate HasReceipt(l: Ledger, m: MaterializationId) {
    exists i :: 0 <= i < |l.receipts| && l.receipts[i].materialization == m
  }

  predicate OnePerMaterialization(receipts: seq<Receipt>) {
    forall i, j :: 0 <= i < j < |receipts| ==> receipts[i].materialization != receipts[j].materialization
  }

  /** The receipts the first `n` commands of a batch bring. */
  function NewReceipts(commands: seq<Command>, n: nat, v: CommitVersion): seq<Receipt>
    requires n <= |commands|
  {
    if n == 0 then []
    else if commands[n - 1].Materialized?
    then NewReceipts(commands, n - 1, v) + [Receipt(commands[n - 1].materialization, commands[n - 1].responsible, v)]
    else NewReceipts(commands, n - 1, v)
  }

  // ----- nothing but a receipt command touches the receipts -----

  lemma {:induction false} CommandReceipts(l: Ledger, t: TransactionId, v: CommitVersion, c: Command)
    requires Ready(l, v, c)
    ensures ApplyCommand(l, t, v, c).receipts ==
            if c.Materialized? then l.receipts + [Receipt(c.materialization, c.responsible, v)] else l.receipts
  {
    hide SplitIdentities, RevertTransaction, MergedStatuses, Completed, SameLog, SameRecords, KnownParts,
         CurrentClosedInferences, CurrentClosedDecisions;
    match c
    case Split(plan) => SplitRevises(l, plan, v);
    case Revert(target, mode) => RevertRevises(l, target, mode, v);
    case _ =>
  }

  lemma {:induction false} BatchReceipts(l: Ledger, e: Envelope, v: CommitVersion, n: nat)
    requires Applicable(l, e, v) && n <= |e.commands|
    ensures ApplyPrefix(l, e, v, n).receipts == l.receipts + NewReceipts(e.commands, n, v)
  {
    hide Applicable, ApplyCommand, Ready, SameLog;
    if n > 0 {
      BatchReceipts(l, e, v, n - 1);
      ReadyAt(l, e, v, n - 1);
      CommandReceipts(ApplyPrefix(l, e, v, n - 1), e.transaction, v, e.commands[n - 1]);
    }
  }

  /** A commit appends one receipt per receipt command, in batch order, and drops none. */
  lemma {:induction false} CommitAppendsReceipts(log: seq<Envelope>, k: nat)
    requires ValidLog(log) && k < |log|
    ensures State(log, k + 1).receipts ==
            State(log, k).receipts + NewReceipts(log[k].commands, |log[k].commands|, k + 1)
  {
    hide State, ValidLog, Applicable, ApplyPrefix, Validate, AddDependents, Logged;
    StateAccepts(log, k);
    BatchReceipts(State(log, k), log[k], k + 1, |log[k].commands|);
  }

  // ----- when one receipt per materialization is kept -----

  predicate IsReceiptFor(c: Command, m: MaterializationId) { c.Materialized? && c.materialization == m }

  /** The batch names no materialization twice, and none that has its receipt already. */
  ghost predicate FirstReceiptsOnly(l: Ledger, commands: seq<Command>, n: nat)
    requires n <= |commands|
  {
    && (forall i, j :: 0 <= i < j < n && commands[i].Materialized? && commands[j].Materialized? ==>
          commands[i].materialization != commands[j].materialization)
    && (forall i :: 0 <= i < n && commands[i].Materialized? ==> !HasReceipt(l, commands[i].materialization))
  }

  lemma {:induction false} NewReceiptsNamed(commands: seq<Command>, n: nat, v: CommitVersion, m: MaterializationId)
    requires n <= |commands|
    ensures (exists i :: 0 <= i < |NewReceipts(commands, n, v)| && NewReceipts(commands, n, v)[i].materialization == m)
       <==> (exists i :: 0 <= i < n && IsReceiptFor(commands[i], m))
  {
    if n > 0 {
      NewReceiptsNamed(commands, n - 1, v, m);
      var before, now := NewReceipts(commands, n - 1, v), NewReceipts(commands, n, v);
      if i :| 0 <= i < |before| && before[i].materialization == m { assert now[i].materialization == m; }
      if IsReceiptFor(commands[n - 1], m) { assert now[|before|].materialization == m; }
      if i :| 0 <= i < |now| && now[i].materialization == m {
        if i < |before| { assert before[i].materialization == m; } else { assert IsReceiptFor(commands[n - 1], m); }
      }
    }
  }

  lemma {:induction false} BatchKeepsOneReceipt(l: Ledger, commands: seq<Command>, n: nat, v: CommitVersion)
    requires n <= |commands| && OnePerMaterialization(l.receipts)
    ensures OnePerMaterialization(l.receipts + NewReceipts(commands, n, v)) <==> FirstReceiptsOnly(l, commands, n)
  {
    if n > 0 {
      BatchKeepsOneReceipt(l, commands, n - 1, v);
      if commands[n - 1].Materialized? {
        var m := commands[n - 1].materialization;
        NewReceiptsNamed(commands, n - 1, v, m);
        LastReceiptIsNew(l.receipts, NewReceipts(commands, n - 1, v), Receipt(m, commands[n - 1].responsible, v));
        assert forall i :: 0 <= i < n - 1 && IsReceiptFor(commands[i], m) ==>
                 commands[i].Materialized? && commands[i].materialization == commands[n - 1].materialization;
        assert forall i :: 0 <= i < n - 1 && commands[i].Materialized? && commands[i].materialization == m ==>
                 IsReceiptFor(commands[i], m);
      }
    }
  }

  lemma {:induction false} LastReceiptIsNew(kept: seq<Receipt>, batch: seq<Receipt>, r: Receipt)
    ensures OnePerMaterialization(kept + (batch + [r])) <==>
            && OnePerMaterialization(kept + batch)
            && (forall i :: 0 <= i < |kept| ==> kept[i].materialization != r.materialization)
            && (forall i :: 0 <= i < |batch| ==> batch[i].materialization != r.materialization)
  {
    var front, all := kept + batch, kept + (batch + [r]);
    assert all == front + [r];
    if OnePerMaterialization(all) {
      forall i, j | 0 <= i < j < |front| ensures front[i].materialization != front[j].materialization {
        assert all[i] == front[i] && all[j] == front[j];
      }
      forall i | 0 <= i < |front| ensures front[i].materialization != r.materialization {
        assert all[i] == front[i] && all[|front|] == r;
      }
      forall i | 0 <= i < |kept| ensures kept[i].materialization != r.materialization { assert front[i] == kept[i]; }
      forall i | 0 <= i < |batch| ensures batch[i].materialization != r.materialization {
        assert front[|kept| + i] == batch[i];
      }
    }
  }

  /** From a state with at most one receipt per materialization, a commit keeps that if and only if its
      receipt commands name pairwise different materializations, none of which has a receipt yet. */
  lemma {:induction false} CommitKeepsOneReceiptIff(log: seq<Envelope>, k: nat)
    requires ValidLog(log) && k < |log| && OnePerMaterialization(State(log, k).receipts)
    ensures OnePerMaterialization(State(log, k + 1).receipts) <==>
            FirstReceiptsOnly(State(log, k), log[k].commands, |log[k].commands|)
  {
    hide State, ValidLog, OnePerMaterialization, FirstReceiptsOnly;
    CommitAppendsReceipts(log, k);
    BatchKeepsOneReceipt(State(log, k), log[k].commands, |log[k].commands|, k + 1);
  }

  // ----- whole runs -----

  /** Command `i` of log entry `j` is a receipt for `m`. */
  predicate ReceiptAt(log: seq<Envelope>, j: nat, i: nat, m: MaterializationId)
    requires j < |log|
  {
    i < |log[j].commands| && IsReceiptFor(log[j].commands[i], m)
  }

  predicate NamedBy(log: seq<Envelope>, j: nat, m: MaterializationId)
    requires j < |log|
  {
    exists i {:trigger ReceiptAt(log, j, i, m)} :: 0 <= i < |log[j].commands| && ReceiptAt(log, j, i, m)
  }

  lemma {:induction false} ReceiptsAreNamed(log: seq<Envelope>, n: nat, m: MaterializationId)
    requires ValidLog(log) && n <= |log|
    ensures HasReceipt(State(log, n), m) <==> exists j :: 0 <= j < n && NamedBy(log, j, m)
  {
    hide ValidLog, Apply;
    if n > 0 {
      ReceiptsAreNamed(log, n - 1, m);
      var commands := log[n - 1].commands;
      CommitAppendsReceipts(log, n - 1);
      NewReceiptsNamed(commands, |commands|, n, m);
      hide State, NewReceipts;
      NamedByBatch(log, n - 1, m);
      Appended(State(log, n - 1), State(log, n), NewReceipts(commands, |commands|, n), m);
    }
  }

  lemma {:induction false} NamedByBatch(log: seq<Envelope>, j: nat, m: MaterializationId)
    requires j < |log|
    ensures NamedBy(log, j, m) <==> exists i :: 0 <= i < |log[j].commands| && IsReceiptFor(log[j].commands[i], m)
  {
    if i :| 0 <= i < |log[j].commands| && IsReceiptFor(log[j].commands[i], m) { assert ReceiptAt(log, j, i, m); }
  }

  lemma {:induction false} Appended(before: Ledger, after: Ledger, more: seq<Receipt>, m: MaterializationId)
    requires after.receipts == before.receipts + more
    ensures HasReceipt(after, m) <==>
            HasReceipt(before, m) || exists i :: 0 <= i < |more| && more[i].materialization == m
  {
    if i :| 0 <= i < |before.receipts| && before.receipts[i].materialization == m {
      assert after.receipts[i].materialization == m;
    }
    if i :| 0 <= i < |more| && more[i].materialization == m {
      assert after.receipts[|before.receipts| + i].materialization == m;
    }
    if i :| 0 <= i < |after.receipts| && after.receipts[i].materialization == m {
      if i >= |before.receipts| { assert more[i - |before.receipts|].materialization == m; }
    }
  }

  /** Two receipt commands for one materialization, in one entry or in two. */
  predicate Repeats(log: seq<Envelope>, j: nat, i: nat, k: nat, h: nat, m: MaterializationId)
    requires j < |log| && k < |log|
  {
    (j < k || (j == k && i < h)) && ReceiptAt(log, j, i, m) && ReceiptAt(log, k, h, m)
  }

  ghost predicate NoRepeatedReceipt(log: seq<Envelope>, n: nat)
    requires n <= |log|
  {
    forall j, i, k, h, m {:trigger Repeats(log, j, i, k, h, m)} :: 0 <= j < n && 0 <= k < n && 0 <= i && 0 <= h ==>
      !Repeats(log, j, i, k, h, m)
  }

  lemma {:induction false} RepeatedInBatch(log: seq<Envelope>, n: nat, i: nat, h: nat, m: MaterializationId)
    requires n < |log| && i < h && ReceiptAt(log, n, i, m) && ReceiptAt(log, n, h, m)
    ensures !NoRepeatedReceipt(log, n + 1)
  {
    assert Repeats(log, n, i, n, h, m);
  }

  lemma {:induction false} RepeatedLater(log: seq<Envelope>, n: nat, h: nat, m: MaterializationId)
    requires ValidLog(log) && n < |log| && HasReceipt(State(log, n), m) && ReceiptAt(log, n, h, m)
    ensures !NoRepeatedReceipt(log, n + 1)
  {
    hide ValidLog, State, HasReceipt;
    ReceiptsAreNamed(log, n, m);
    var j :| 0 <= j < n && NamedBy(log, j, m);
    var i :| 0 <= i < |log[j].commands| && ReceiptAt(log, j, i, m);
    assert Repeats(log, j, i, n, h, m);
  }

  /** A repetition among the first `n + 1` entries is one among the first `n` or is made by entry `n`. */
  lemma {:induction false} RepeatedWhere(log: seq<Envelope>, n: nat)
    requires ValidLog(log) && n < |log| && !NoRepeatedReceipt(log, n + 1)
    requires FirstReceiptsOnly(State(log, n), log[n].commands, |log[n].commands|)
    ensures !NoRepeatedReceipt(log, n)
  {
    hide ValidLog, State, HasReceipt;
    var j, i, k, h, m :| 0 <= j < n + 1 && 0 <= k < n + 1 && 0 <= i && 0 <= h && Repeats(log, j, i, k, h, m);
    if j < n {
      assert NamedBy(log, j, m);
      ReceiptsAreNamed(log, n, m);
    }
  }

  lemma {:induction false} RepeatStep(log: seq<Envelope>, n: nat)
    requires ValidLog(log) && n < |log|
    ensures NoRepeatedReceipt(log, n + 1) <==>
            NoRepeatedReceipt(log, n) && FirstReceiptsOnly(State(log, n), log[n].commands, |log[n].commands|)
  {
    hide ValidLog, State, HasReceipt;
    var l, commands := State(log, n), log[n].commands;
    if NoRepeatedReceipt(log, n + 1) { FewerEntries(log, n); }
    forall i, h | 0 <= i < h < |commands| && commands[i].Materialized? && commands[h].Materialized?
                  && commands[i].materialization == commands[h].materialization
      ensures !NoRepeatedReceipt(log, n + 1)
    {
      RepeatedInBatch(log, n, i, h, commands[h].materialization);
    }
    forall h | 0 <= h < |commands| && commands[h].Materialized? && HasReceipt(l, commands[h].materialization)
      ensures !NoRepeatedReceipt(log, n + 1)
    {
      RepeatedLater(log, n, h, commands[h].materialization);
    }
    if FirstReceiptsOnly(l, commands, |commands|) && !NoRepeatedReceipt(log, n + 1) { RepeatedWhere(log, n); }
  }

  lemma {:induction false} FewerEntries(log: seq<Envelope>, n: nat)
    requires n < |log| && NoRepeatedReceipt(log, n + 1)
    ensures NoRepeatedReceipt(log, n)
  {}

  /** In every run, materializations have at most one receipt each if and only if no two receipt commands
      of the log, in whatever entries, name the same one. */
  lemma {:induction false} OneReceiptIff(log: seq<Envelope>, n: nat)
    requires ValidLog(log) && n <= |log|
    ensures OnePerMaterialization(State(log, n).receipts) <==> NoRepeatedReceipt(log, n)
  {
    hide State, ValidLog, OnePerMaterialization, NoRepeatedReceipt, FirstReceiptsOnly;
    if n == 0 {
      NothingReceipted(log);
    } else {
      OneReceiptIff(log, n - 1);
      RepeatStep(log, n - 1);
      OneMoreCommit(log, n - 1);
    }
  }

  lemma {:induction false} OneMoreCommit(log: seq<Envelope>, k: nat)
    requires ValidLog(log) && k < |log|
    ensures OnePerMaterialization(State(log, k + 1).receipts) <==>
            && OnePerMaterialization(State(log, k).receipts)
            && FirstReceiptsOnly(State(log, k), log[k].commands, |log[k].commands|)
  {
    hide State, ValidLog, OnePerMaterialization, FirstReceiptsOnly, NewReceipts;
    CommitAppendsReceipts(log, k);
    if OnePerMaterialization(State(log, k).receipts) {
      CommitKeepsOneReceiptIff(log, k);
    } else {
      StillTwo(State(log, k).receipts, State(log, k + 1).receipts);
    }
  }

  lemma {:induction false} NothingReceipted(log: seq<Envelope>)
    ensures OnePerMaterialization(State(log, 0).receipts) && NoRepeatedReceipt(log, 0)
  {}

  lemma {:induction false} StillTwo(before: seq<Receipt>, after: seq<Receipt>)
    requires before <= after && !OnePerMaterialization(before)
    ensures !OnePerMaterialization(after)
  {
    var i, j :| 0 <= i < j < |before| && before[i].materialization == before[j].materialization;
    assert after[i] == before[i] && after[j] == before[j];
  }

  // ----- what lies between two receipts of different commits -----

  predicate NothingOpen(l: Ledger, m: MaterializationId) { m in l.outbox ==> l.outbox[m].completed }

  lemma {:induction false} CommandOpensNothing(
    l: Ledger, t: TransactionId, v: CommitVersion, c: Command, m: MaterializationId)
    requires Ready(l, v, c) && !(c.EnqueueMaterialization? && c.materialization == m)
    requires NothingOpen(l, m) || IsReceiptFor(c, m)
    ensures NothingOpen(ApplyCommand(l, t, v, c), m)
  {
    hide SplitIdentities, RevertTransaction, MergedStatuses, SameLog, SameRecords, KnownParts, CurrentClosedInferences,
         CurrentClosedDecisions;
    match c
    case Split(plan) => SplitRevises(l, plan, v);
    case Revert(target, mode) => RevertRevises(l, target, mode, v);
    case _ =>
  }

  lemma {:induction false} BatchOpensNothing(l: Ledger, e: Envelope, v: CommitVersion, n: nat, m: MaterializationId)
    requires Applicable(l, e, v) && n <= |e.commands| && m in l.outbox
    requires CheckPrefix(l, v, e.commands, |e.commands|).Ok?
    requires NothingOpen(l, m) || exists i :: 0 <= i < n && IsReceiptFor(e.commands[i], m)
    ensures NothingOpen(ApplyPrefix(l, e, v, n), m)
  {
    hide Applicable, ApplyCommand, Ready, SameLog, CheckResolution, CheckPartitions, CheckMerge, CheckRevert;
    if n > 0 {
      var c := e.commands[n - 1];
      if NothingOpen(l, m) || exists i :: 0 <= i < n - 1 && IsReceiptFor(e.commands[i], m) {
        BatchOpensNothing(l, e, v, n - 1, m);
      }
      ReadyAt(l, e, v, n - 1);
      PrefixOk(l, v, e.commands, n, |e.commands|);
      CommandOpensNothing(ApplyPrefix(l, e, v, n - 1), e.transaction, v, c, m);
    }
  }

  lemma {:induction false} ReceiptFindsOpenEntry(l: Ledger, e: Envelope, v: CommitVersion, i: nat, m: MaterializationId)
    requires CheckPrefix(l, v, e.commands, |e.commands|).Ok? && i < |e.commands| && IsReceiptFor(e.commands[i], m)
    ensures m in l.outbox && !l.outbox[m].completed
  {
    PrefixOk(l, v, e.commands, i + 1, |e.commands|);
  }

  lemma {:induction false} CommitOpensNothing(log: seq<Envelope>, k: nat, m: MaterializationId)
    requires ValidLog(log) && k < |log| && m in State(log, k).outbox
    requires NothingOpen(State(log, k), m) || NamedBy(log, k, m)
    ensures NothingOpen(State(log, k + 1), m)
  {
    hide State, ValidLog, Applicable, ApplyPrefix, AddDependents, Logged, CheckPrefix, IsActive;
    StateAccepts(log, k);
    AcceptedDependencies(State(log, k), log[k]);
    NamedByBatch(log, k, m);
    BatchOpensNothing(State(log, k), log[k], k + 1, |log[k].commands|, m);
  }

  lemma {:induction false} NothingOpenUntil(log: seq<Envelope>, j: nat, k: nat, m: MaterializationId)
    requires ValidLog(log) && j < k <= |log| && NamedBy(log, j, m)
    requires forall i {:trigger State(log, i)} :: j < i < k ==> m in State(log, i).outbox
    ensures NothingOpen(State(log, k), m)
    decreases k
  {
    hide State, ValidLog, NothingOpen, Logged, Applicable, Validate;
    if k == j + 1 {
      StateAccepts(log, j);
      var i :| 0 <= i < |log[j].commands| && ReceiptAt(log, j, i, m);
      AcceptedDependencies(State(log, j), log[j]);
      ReceiptFindsOpenEntry(State(log, j), log[j], j + 1, i, m);
    } else {
      NothingOpenUntil(log, j, k - 1, m);
    }
    CommitOpensNothing(log, k - 1, m);
  }

  /** A later commit can bring a second receipt only if the entry left the outbox in between. */
  lemma {:induction false} SecondReceiptNeedsWithdrawal(log: seq<Envelope>, j: nat, k: nat, m: MaterializationId)
    requires ValidLog(log) && j < k < |log| && NamedBy(log, j, m) && NamedBy(log, k, m)
    ensures exists i :: j < i < k && m !in State(log, i).outbox
  {
    hide State, ValidLog, Logged, Applicable, Validate;
    if forall i {:trigger State(log, i)} :: j < i < k ==> m in State(log, i).outbox {
      NothingOpenUntil(log, j, k, m);
      StateAccepts(log, k);
      var i :| 0 <= i < |log[k].commands| && ReceiptAt(log, k, i, m);
      AcceptedDependencies(State(log, k), log[k]);
      ReceiptFindsOpenEntry(State(log, k), log[k], k + 1, i, m);
    }
  }
}
