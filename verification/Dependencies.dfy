/** Reverts and dependencies: what a revert deactivates, and what stays consistent afterwards. */
module Dependencies {
  import opened Types
  import opened LedgerSpec
  import opened LedgerFrames
  import opened LedgerRuns

  type DependentMap = map<TransactionId, seq<TransactionId>>

  // ----- reachability through dependents -----

  predicate Follows(dependents: DependentMap, path: seq<TransactionId>) {
    |path| > 0 && forall i :: 0 <= i < |path| - 1 ==> path[i + 1] in DependentsOf(dependents, path[i])
  }

  ghost predicate Reaches(dependents: DependentMap, from: TransactionId, to: TransactionId) {
    exists path :: Follows(dependents, path) && path[0] == from && path[|path| - 1] == to
  }

  lemma {:induction false} ReachesStep(
    dependents: DependentMap, from: TransactionId, mid: TransactionId, to: TransactionId)
    requires Reaches(dependents, from, mid) && to in DependentsOf(dependents, mid)
    ensures Reaches(dependents, from, to)
  {
    var path :| Follows(dependents, path) && path[0] == from && path[|path| - 1] == mid;
    var longer := path + [to];
    assert Follows(dependents, longer) && longer[0] == from && longer[|longer| - 1] == to;
  }

  lemma {:induction false} ClosedUnderReaches(
    dependents: DependentMap, s: seq<TransactionId>, from: TransactionId, to: TransactionId)
    requires from in s && Reaches(dependents, from, to)
    requires forall t, d :: t in s && d in DependentsOf(dependents, t) ==> d in s
    ensures to in s
  {
    var path :| Follows(dependents, path) && path[0] == from && path[|path| - 1] == to;
    var i := 0;
    while i < |path| - 1
      invariant 0 <= i < |path| && path[i] in s
    {
      i := i + 1;
    }
  }

  ghost predicate Explored(dependents: DependentMap, output: seq<TransactionId>, cursor: nat)
    requires cursor <= |output|
  {
    forall i, d :: 0 <= i < cursor && d in DependentsOf(dependents, output[i]) ==> d in output
  }

  lemma {:induction false} ClosureReaches(
    dependents: DependentMap, root: TransactionId, output: seq<TransactionId>, cursor: nat,
    universe: set<TransactionId>)
    requires cursor <= |output| && Distinct(output) && Mentioned(dependents) <= universe
    requires forall x :: x in output ==> x in universe && Reaches(dependents, root, x)
    requires |output| > 0 && output[0] == root && Explored(dependents, output, cursor)
    ensures var found := Closure(dependents, output, cursor, universe);
            && Distinct(found) && |found| > 0 && found[0] == root
            && (forall x :: x in found <==> Reaches(dependents, root, x))
    decreases |universe| - cursor
  {
    hide Reaches, Visit;
    DistinctSize(output, universe);
    if cursor == |output| {
      forall x | Reaches(dependents, root, x) ensures x in output {
        ClosedUnderReaches(dependents, output, root, x);
      }
    } else {
      var next := DependentsOf(dependents, output[cursor]);
      assert forall x :: x in next ==> x in universe;
      VisitGrows(output, next, universe);
      var grown := Visit(output, next);
      forall x | x in grown ensures Reaches(dependents, root, x) {
        if x !in output { ReachesStep(dependents, root, output[cursor], x); }
      }
      forall i, d | 0 <= i < cursor + 1 && d in DependentsOf(dependents, grown[i]) ensures d in grown {
        assert grown[i] == output[i];
      }
      ClosureReaches(dependents, root, grown, cursor + 1, universe);
    }
  }

  /** A cascade lists exactly the transactions reachable through dependents, each once, root first. */
  lemma {:induction false} CascadeIsClosure(l: Ledger, t: TransactionId)
    ensures var targets := RevertTargets(l, t, Cascade);
            && Distinct(targets) && |targets| > 0 && targets[0] == t
            && (forall x :: x in targets <==> Reaches(l.dependents, t, x))
  {
    assert Follows(l.dependents, [t]) && [t][0] == t;
    assert Reaches(l.dependents, t, t);
    ClosureReaches(l.dependents, t, [t], 0, Mentioned(l.dependents) + {t});
  }

  // ----- activity flags -----

  ghost predicate Indexed(l: Ledger, i: nat)
    requires i < |l.transactions|
  {
    var t := l.transactions[i].envelope.transaction;
    t in l.transactionIndexes && l.transactionIndexes[t] == i
  }

  ghost predicate WellIndexed(l: Ledger) {
    && (forall i {:trigger Indexed(l, i)} :: 0 <= i < |l.transactions| ==> Indexed(l, i))
    && (forall t :: t in l.transactionIndexes ==> l.transactionIndexes[t] < |l.transactions|
                                                  && l.transactions[l.transactionIndexes[t]].envelope.transaction == t)
  }

  lemma {:induction false} SameLogWellIndexed(l: Ledger, l': Ledger)
    requires WellIndexed(l) && SameLog(l, l')
    ensures WellIndexed(l')
  {
    forall i | 0 <= i < |l'.transactions| ensures Indexed(l', i) {
      assert Indexed(l, i) && SameEntry(l.transactions, l'.transactions, i);
    }
    forall t | t in l'.transactionIndexes
      ensures l'.transactionIndexes[t] < |l'.transactions|
              && l'.transactions[l'.transactionIndexes[t]].envelope.transaction == t
    {
      assert SameEntry(l.transactions, l'.transactions, l.transactionIndexes[t]);
    }
  }

  function IdAt(l: Ledger, i: nat): TransactionId
    requires i < |l.transactions|
  {
    l.transactions[i].envelope.transaction
  }

  lemma {:induction false} DeactivateCommandsFlags(l: Ledger, commands: seq<Command>, i: nat, v: CommitVersion)
    requires i <= |commands|
    ensures DeactivateCommands(l, commands, i, v).transactions == l.transactions
  {
    if i > 0 {
      DeactivateCommandsFlags(l, commands, i - 1, v);
      DeactivateCommandFlags(DeactivateCommands(l, commands, i - 1, v), commands[i - 1], v);
    }
  }

  lemma {:induction false} DeactivateCommandFlags(l: Ledger, c: Command, v: CommitVersion)
    ensures DeactivateCommand(l, c, v).transactions == l.transactions
  {}

  lemma {:induction false} DeactivateFlags(l: Ledger, t: TransactionId, v: CommitVersion, i: nat)
    requires WellIndexed(l) && i < |l.transactions|
    ensures |Deactivate(l, t, v).transactions| == |l.transactions|
    ensures Deactivate(l, t, v).transactions[i].active <==> l.transactions[i].active && IdAt(l, i) != t
  {
    hide DeactivateCommands, RebuiltStatus;
    assert Indexed(l, i);
    if t in l.transactionIndexes {
      var index := l.transactionIndexes[t];
      var l1 := l.(transactions := l.transactions[index := l.transactions[index].(active := false)]);
      var commands := l.transactions[index].envelope.commands;
      DeactivateCommandsFlags(l1, commands, |commands|, v);
    }
  }

  lemma {:induction false} DeactivateAllFlags(l: Ledger, targets: seq<TransactionId>, n: nat, v: CommitVersion, i: nat)
    requires WellIndexed(l) && i < |l.transactions| && n <= |targets|
    ensures |DeactivateAll(l, targets, n, v).transactions| == |l.transactions|
    ensures DeactivateAll(l, targets, n, v).transactions[i].active
            <==> l.transactions[i].active && IdAt(l, i) !in targets[..n]
  {
    hide Deactivate, WellIndexed, SameEntry, SameRecords;
    if n > 0 {
      DeactivateAllFlags(l, targets, n - 1, v, i);
      var l1 := DeactivateAll(l, targets, n - 1, v);
      DeactivateAllRevises(l, targets, n - 1, v);
      SameLogWellIndexed(l, l1);
      DeactivateFlags(l1, targets[n - 1], v, i);
      assert targets[..n] == targets[..n - 1] + [targets[n - 1]];
      assert IdAt(l1, i) == IdAt(l, i) by { SameIds(l, l1, i); }
    }
  }

  lemma {:induction false} SameIds(l: Ledger, l': Ledger, i: nat)
    requires SameLog(l, l') && i < |l.transactions|
    ensures IdAt(l', i) == IdAt(l, i) && l'.transactions[i].envelope == l.transactions[i].envelope
  {
    assert SameEntry(l.transactions, l'.transactions, i);
  }

  /** A revert deactivates exactly its targets: for a cascade, all reachable dependents. */
  lemma {:induction false} RevertDeactivatesExactly(
    l: Ledger, t: TransactionId, mode: RevertMode, v: CommitVersion, i: nat)
    requires WellIndexed(l) && i < |l.transactions|
    ensures |RevertTransaction(l, t, mode, v).transactions| == |l.transactions|
    ensures RevertTransaction(l, t, mode, v).transactions[i].active <==>
              && l.transactions[i].active
              && !(mode == Strict && IdAt(l, i) == t)
              && !(mode == Cascade && Reaches(l.dependents, t, IdAt(l, i)))
  {
    hide DeactivateAll, WellIndexed, Reaches, Closure;
    if mode != Compensating {
      var targets := RevertTargets(l, t, mode);
      DeactivateAllFlags(l, targets, |targets|, v, i);
      assert targets[..|targets|] == targets;
      if mode == Cascade { CascadeIsClosure(l, t); }
    }
  }

  // ----- effect of a whole batch -----

  ghost predicate Hits(l: Ledger, c: Command, t: TransactionId) {
    c.Revert?
      && ((c.mode == Strict && c.transaction == t) || (c.mode == Cascade && Reaches(l.dependents, c.transaction, t)))
  }

  lemma {:induction false} SameHits(l: Ledger, now: Ledger, c: Command, t: TransactionId)
    requires now.dependents == l.dependents
    ensures Hits(now, c, t) <==> Hits(l, c, t)
  {
    hide Reaches;
  }

  /** Some revert among the first `n` commands names `t` or cascades to it. */
  ghost predicate Reverted(l: Ledger, commands: seq<Command>, n: nat, t: TransactionId)
    requires n <= |commands|
  {
    exists j {:trigger Hits(l, commands[j], t)} :: 0 <= j < n && Hits(l, commands[j], t)
  }

  lemma {:induction false} PlainCommandFlags(l: Ledger, t: TransactionId, v: CommitVersion, c: Command)
    requires !c.Revert?
    ensures ApplyCommand(l, t, v, c).transactions == l.transactions
  {
    hide CurrentClosedInferences, CurrentClosedDecisions, MergedStatuses, Completed, RebuiltStatus, Reopen;
    match c
    case Split(plan) => CloseMergesFlags(l, plan.closeMerges, |plan.closeMerges|, v);
    case _ =>
  }

  lemma {:induction false} CloseMergesFlags(l: Ledger, ds: seq<DecisionId>, i: nat, v: CommitVersion)
    requires i <= |ds|
    ensures CloseMerges(l, ds, i, v) == l.(merges := CloseMerges(l, ds, i, v).merges)
  {
    if i > 0 { CloseMergesFlags(l, ds, i - 1, v); }
  }

  lemma {:induction false} PrefixSameLog(l: Ledger, e: Envelope, v: CommitVersion, n: nat)
    requires Applicable(l, e, v) && n <= |e.commands|
    ensures var now := ApplyPrefix(l, e, v, n);
            SameLog(l, now) && |now.transactions| == |l.transactions| && now.dependents == l.dependents
  {
    hide ApplyPrefix, Ready, SameEntry;
  }

  lemma {:induction false} NothingReverted(l: Ledger, commands: seq<Command>, t: TransactionId)
    ensures !Reverted(l, commands, 0, t)
  {}

  lemma {:induction false} BatchFlags(l: Ledger, e: Envelope, v: CommitVersion, n: nat, i: nat)
    requires WellIndexed(l) && Applicable(l, e, v) && n <= |e.commands| && i < |l.transactions|
    ensures |ApplyPrefix(l, e, v, n).transactions| == |l.transactions|
    ensures ApplyPrefix(l, e, v, n).transactions[i].active
            <==> l.transactions[i].active && !Reverted(l, e.commands, n, IdAt(l, i))
  {
    hide WellIndexed, Applicable, Ready, ApplyCommand, SameLog, Hits, IdAt;
    PrefixSameLog(l, e, v, n);
    if n == 0 {
      NothingReverted(l, e.commands, IdAt(l, i));
    } else {
      BatchFlags(l, e, v, n - 1, i);
      var now, c := ApplyPrefix(l, e, v, n - 1), e.commands[n - 1];
      PrefixSameLog(l, e, v, n - 1);
      SameLogWellIndexed(l, now);
      SameIds(l, now, i);
      ReversalStep(l, e.commands, n, IdAt(l, i));
      CommandFlags(l, now, e.transaction, v, c, i);
    }
  }

  lemma {:induction false} ReversalStep(l: Ledger, commands: seq<Command>, n: nat, t: TransactionId)
    requires 0 < n <= |commands|
    ensures Reverted(l, commands, n, t) <==> Reverted(l, commands, n - 1, t) || Hits(l, commands[n - 1], t)
  {
    hide Hits;
  }

  lemma {:induction false} CommandFlags(l: Ledger, now: Ledger, t: TransactionId, v: CommitVersion, c: Command, i: nat)
    requires WellIndexed(now) && i < |now.transactions| && now.dependents == l.dependents
    ensures |ApplyCommand(now, t, v, c).transactions| == |now.transactions|
    ensures ApplyCommand(now, t, v, c).transactions[i].active <==>
            now.transactions[i].active && !Hits(l, c, IdAt(now, i))
  {
    hide WellIndexed, Reaches, RevertTransaction;
    if c.Revert? {
      RevertDeactivatesExactly(now, c.transaction, c.mode, v, i);
    } else {
      PlainCommandFlags(now, t, v, c);
    }
  }

  // ----- the dependents index -----

  ghost predicate DependsAt(log: seq<Envelope>, i: nat, t: TransactionId, d: TransactionId)
    requires i < |log|
  {
    log[i].transaction == t && d in log[i].dependsOn
  }

  ghost predicate Declared(log: seq<Envelope>, k: nat, t: TransactionId, d: TransactionId)
    requires k <= |log|
  {
    exists i {:trigger DependsAt(log, i, t, d)} :: 0 <= i < k && DependsAt(log, i, t, d)
  }

  lemma {:induction false} AddDependentsExactly(
    dependents: DependentMap, dependsOn: seq<TransactionId>, n: nat, t: TransactionId, x: TransactionId,
    d: TransactionId)
    requires n <= |dependsOn|
    ensures x in DependentsOf(AddDependents(dependents, dependsOn, n, t), d)
            <==> x in DependentsOf(dependents, d) || (x == t && d in dependsOn[..n])
  {
    if n > 0 {
      AddDependentsExactly(dependents, dependsOn, n - 1, t, x, d);
      assert dependsOn[..n] == dependsOn[..n - 1] + [dependsOn[n - 1]];
    }
  }

  /** The dependents index holds exactly the declared dependencies of the log. */
  lemma {:induction false} DependentsExact(log: seq<Envelope>, k: nat, t: TransactionId, d: TransactionId)
    requires ValidLog(log) && k <= |log|
    ensures t in DependentsOf(State(log, k).dependents, d) <==> Declared(log, k, t, d)
  {
    hide Accepted, Applicable, Validate, AddDependents, ApplyPrefix;
    if k > 0 {
      DependentsExact(log, k - 1, t, d);
      StateAccepts(log, k - 1);
      var l, e := State(log, k - 1), log[k - 1];
      AppliedLog(l, e, k);
      AddDependentsExactly(l.dependents, e.dependsOn, |e.dependsOn|, e.transaction, t, d);
      assert e.dependsOn[..|e.dependsOn|] == e.dependsOn;
      assert Declared(log, k, t, d) <==> Declared(log, k - 1, t, d) || DependsAt(log, k - 1, t, d) by {
        hide DependsAt;
      }
    }
  }

  /** Transaction `t` once for each time its first `n` dependencies name `d`. */
  function Naming(dependsOn: seq<TransactionId>, n: nat, d: TransactionId, t: TransactionId): seq<TransactionId>
    requires n <= |dependsOn|
  {
    if n == 0 then []
    else Naming(dependsOn, n - 1, d, t) + if dependsOn[n - 1] == d then [t] else []
  }

  /** Who declared to depend on `d`, in the order of the log. */
  function DeclaredInOrder(log: seq<Envelope>, k: nat, d: TransactionId): seq<TransactionId>
    requires k <= |log|
  {
    if k == 0 then []
    else
      var e := log[k - 1];
      DeclaredInOrder(log, k - 1, d) + Naming(e.dependsOn, |e.dependsOn|, d, e.transaction)
  }

  lemma {:induction false} AddDependentsInOrder(
    dependents: DependentMap, dependsOn: seq<TransactionId>, n: nat, t: TransactionId, d: TransactionId)
    requires n <= |dependsOn|
    ensures DependentsOf(AddDependents(dependents, dependsOn, n, t), d) ==
            DependentsOf(dependents, d) + Naming(dependsOn, n, d, t)
  {
    if n > 0 { AddDependentsInOrder(dependents, dependsOn, n - 1, t, d); }
  }

  /** The index lists the declared dependents one by one, in the order their envelopes were committed. */
  lemma {:induction false} DependentsInOrder(log: seq<Envelope>, k: nat, d: TransactionId)
    requires ValidLog(log) && k <= |log|
    ensures DependentsOf(State(log, k).dependents, d) == DeclaredInOrder(log, k, d)
  {
    hide ValidLog, Accepted, Applicable, Validate, AddDependents, ApplyPrefix, DependentsOf, Naming, Logged, SameEntry;
    if k == 0 {
      NobodyDepends(d);
    } else {
      DependentsInOrder(log, k - 1, d);
      StateAccepts(log, k - 1);
      var l, e := State(log, k - 1), log[k - 1];
      AppliedLog(l, e, k);
      AddDependentsInOrder(l.dependents, e.dependsOn, |e.dependsOn|, e.transaction, d);
    }
  }

  lemma {:induction false} NobodyDepends(d: TransactionId)
    ensures DependentsOf(EMPTY.dependents, d) == []
  {}

  lemma {:induction false} StateWellIndexed(log: seq<Envelope>, k: nat)
    requires ValidLog(log) && k <= |log|
    ensures WellIndexed(State(log, k)) && |State(log, k).transactions| == k
    ensures forall i :: 0 <= i < k ==> State(log, k).transactions[i].envelope == log[i]
  {
    hide State, Accepted;
    var l := State(log, k);
    LogIsComplete(log, k);
    forall i | 0 <= i < k ensures Indexed(l, i) && l.transactions[i].envelope == log[i] { assert EntryOk(log, l, i); }
    forall t | t in l.transactionIndexes
      ensures l.transactionIndexes[t] < |l.transactions|
              && l.transactions[l.transactionIndexes[t]].envelope.transaction == t
    {
      assert IndexOk(log, l, t) && EntryOk(log, l, l.transactionIndexes[t]);
    }
  }

  // ----- no active transaction rests on an inactive one -----

  ghost predicate Supported(log: seq<Envelope>, k: nat, i: nat)
    requires i < k <= |log|
  {
    && |State(log, k).transactions| == k
    && (State(log, k).transactions[i].active ==> forall d :: d in log[i].dependsOn ==> IsActive(State(log, k), d))
  }

  ghost predicate AllSupported(log: seq<Envelope>, k: nat)
    requires k <= |log|
  {
    forall i {:trigger Supported(log, k, i)} :: 0 <= i < k ==> Supported(log, k, i)
  }

  /** The batch reverts something the envelope itself declares to depend on. */
  ghost predicate UnderminesItself(l: Ledger, e: Envelope) {
    exists d :: d in e.dependsOn && Reverted(l, e.commands, |e.commands|, d)
  }

  lemma {:induction false} ActiveAfter(log: seq<Envelope>, k: nat, i: nat)
    requires ValidLog(log) && i <= k < |log|
    ensures |State(log, k).transactions| == k && |State(log, k + 1).transactions| == k + 1
    ensures State(log, k + 1).transactions[i].active <==>
              i == k || (State(log, k).transactions[i].active
                         && !Reverted(State(log, k), log[k].commands, |log[k].commands|, log[i].transaction))
  {
    hide Accepted, Applicable, Validate, AddDependents, ApplyPrefix, WellIndexed, Reverted;
    StateWellIndexed(log, k);
    StateAccepts(log, k);
    AppliedLog(State(log, k), log[k], k + 1);
    if i < k { BatchFlags(State(log, k), log[k], k + 1, |log[k].commands|, i); }
  }

  lemma {:induction false} ActiveIndex(log: seq<Envelope>, k: nat, d: TransactionId) returns (i: nat)
    requires ValidLog(log) && k <= |log| && d in State(log, k).transactionIndexes
    ensures i < k && |State(log, k).transactions| == k && log[i].transaction == d
    ensures IsActive(State(log, k), d) <==> State(log, k).transactions[i].active
  {
    hide State, Accepted;
    StateWellIndexed(log, k);
    i := State(log, k).transactionIndexes[d];
  }

  lemma {:induction false} SameIndexes(log: seq<Envelope>, k: nat)
    requires ValidLog(log) && k < |log|
    ensures State(log, k + 1).transactionIndexes == State(log, k).transactionIndexes[log[k].transaction := k]
    ensures log[k].transaction !in State(log, k).transactionIndexes
  {
    hide Accepted, Applicable, AddDependents, ApplyPrefix;
    StateAccepts(log, k);
    AppliedLog(State(log, k), log[k], k + 1);
    LogIsComplete(log, k);
  }

  lemma {:induction false} FirstInactiveNone(l: Ledger, ds: seq<TransactionId>)
    requires FirstInactive(l, ds).None?
    ensures forall d :: d in ds ==> IsActive(l, d)
  {
    if ds != [] { FirstInactiveNone(l, ds[1..]); }
  }

  lemma {:induction false} AcceptedDependencies(l: Ledger, e: Envelope)
    requires Validate(l, e).Ok?
    ensures forall d :: d in e.dependsOn ==> IsActive(l, d)
    ensures CheckPrefix(l, l.version + 1, e.commands, |e.commands|).Ok?
  {
    hide IsActive, CheckPrefix;
    FirstInactiveNone(l, e.dependsOn);
  }

  lemma {:induction false} StrictTargetsAlone(l: Ledger, e: Envelope, j: nat)
    requires CheckPrefix(l, l.version + 1, e.commands, |e.commands|).Ok? && j < |e.commands|
    requires e.commands[j].Revert? && e.commands[j].mode == Strict
    ensures forall x :: x in DependentsOf(l.dependents, e.commands[j].transaction) ==> !IsActive(l, x)
  {
    hide IsActive;
    PrefixOk(l, l.version + 1, e.commands, j + 1, |e.commands|);
  }

  /** If `d` is reverted by the batch, so is every active transaction that depends on it. */
  lemma {:induction false} RevertedSpreads(l: Ledger, e: Envelope, d: TransactionId, x: TransactionId)
    requires Validate(l, e).Ok? && Reverted(l, e.commands, |e.commands|, d)
    requires x in DependentsOf(l.dependents, d) && IsActive(l, x)
    ensures Reverted(l, e.commands, |e.commands|, x)
  {
    hide IsActive, CheckPrefix, Validate;
    AcceptedDependencies(l, e);
    var j :| 0 <= j < |e.commands| && Hits(l, e.commands[j], d);
    var c := e.commands[j];
    if c.mode == Strict {
      StrictTargetsAlone(l, e, j);
    } else {
      ReachesStep(l.dependents, c.transaction, d, x);
      assert Hits(l, e.commands[j], x);
    }
  }

  lemma {:induction false} StaysSupported(log: seq<Envelope>, k: nat, i: nat)
    requires ValidLog(log) && i < k < |log| && Supported(log, k, i)
    ensures Supported(log, k + 1, i)
  {
    hide State, Accepted, Reverted, Validate, IsActive;
    var l := State(log, k);
    StateAccepts(log, k);
    ActiveAfter(log, k, i);
    assert Supported(log, k, i);
    if State(log, k + 1).transactions[i].active {
      forall d | d in log[i].dependsOn ensures IsActive(State(log, k + 1), d) {
        DependentsExact(log, k, log[i].transaction, d);
        assert DependsAt(log, i, log[i].transaction, d);
        EntryActive(log, k, i);
        if Reverted(l, log[k].commands, |log[k].commands|, d) {
          RevertedSpreads(l, log[k], d, log[i].transaction);
        }
        DependencyAfter(log, k, d);
      }
    }
  }

  lemma {:induction false} EntryActive(log: seq<Envelope>, k: nat, i: nat)
    requires ValidLog(log) && i < k <= |log|
    ensures |State(log, k).transactions| == k
    ensures IsActive(State(log, k), log[i].transaction) <==> State(log, k).transactions[i].active
  {
    hide State, Accepted;
    StateWellIndexed(log, k);
    assert Indexed(State(log, k), i);
  }

  lemma {:induction false} DependencyAfter(log: seq<Envelope>, k: nat, d: TransactionId)
    requires ValidLog(log) && k < |log| && IsActive(State(log, k), d)
    ensures IsActive(State(log, k + 1), d) <==> !Reverted(State(log, k), log[k].commands, |log[k].commands|, d)
  {
    hide State, Accepted, Reverted;
    SameIndexes(log, k);
    var i := ActiveIndex(log, k, d);
    ActiveAfter(log, k, i);
    EntryActive(log, k + 1, i);
  }

  /** From a supported state, a commit keeps every active transaction supported if and only if the
      envelope does not revert one of its own declared dependencies. */
  lemma {:induction false} CommitKeepsSupportIff(log: seq<Envelope>, k: nat)
    requires ValidLog(log) && k < |log| && AllSupported(log, k)
    ensures AllSupported(log, k + 1) <==> !UnderminesItself(State(log, k), log[k])
  {
    hide State, Accepted, Reverted, Validate, Supported, ValidLog;
    var next := k + 1;
    ActiveAfter(log, k, k);
    forall i {:trigger Supported(log, next, i)} | 0 <= i < k
      ensures Supported(log, next, i)
    {
      StaysSupported(log, k, i);
    }
    NewEntrySupportedIff(log, k);
  }

  lemma {:induction false} NewEntrySupportedIff(log: seq<Envelope>, k: nat)
    requires ValidLog(log) && k < |log|
    ensures Supported(log, k + 1, k) <==> !UnderminesItself(State(log, k), log[k])
  {
    hide State, Accepted, Reverted, Validate, IsActive;
    var l := State(log, k);
    StateAccepts(log, k);
    ActiveAfter(log, k, k);
    AcceptedDependencies(l, log[k]);
    forall d | d in log[k].dependsOn
      ensures IsActive(State(log, k + 1), d) <==> !Reverted(l, log[k].commands, |log[k].commands|, d)
    {
      DependencyAfter(log, k, d);
    }
  }

  /** Entry `i` once inactive stays so. */
  lemma {:induction false} InactiveStays(log: seq<Envelope>, k: nat, i: nat)
    requires ValidLog(log) && i < k < |log| && !IsActive(State(log, k), log[i].transaction)
    ensures !IsActive(State(log, k + 1), log[i].transaction)
  {
    hide State, Accepted, Reverted, IsActive;
    EntryActive(log, k, i);
    EntryActive(log, k + 1, i);
    ActiveAfter(log, k, i);
  }

  lemma {:induction false} Unsupported(log: seq<Envelope>, k: nat, i: nat)
    requires ValidLog(log) && i < k < |log| && !Supported(log, k, i)
    ensures |State(log, k + 1).transactions| == k + 1
    ensures State(log, k + 1).transactions[i].active ==> !Supported(log, k + 1, i)
  {
    hide State, Accepted, Validate, IsActive, Reverted;
    ActiveAfter(log, k, i);
    var d :| d in log[i].dependsOn && !IsActive(State(log, k), d);
    StateAccepts(log, i);
    AcceptedDependencies(State(log, i), log[i]);
    KnownIfActive(State(log, i), d);
    var j := ActiveIndex(log, i, d);
    InactiveStays(log, k, j);
  }

  lemma {:induction false} KnownIfActive(l: Ledger, d: TransactionId)
    requires IsActive(l, d)
    ensures d in l.transactionIndexes
  {}

  /** Whatever happened since, entry `i` is active on an inactive dependency exactly if it undermined itself and
      was not deactivated in its turn. */
  lemma {:induction false} EntrySupportedIff(log: seq<Envelope>, n: nat, i: nat)
    requires ValidLog(log) && i < n <= |log|
    ensures |State(log, n).transactions| == n
    ensures Supported(log, n, i) <==>
            (State(log, n).transactions[i].active ==> !UnderminesItself(State(log, i), log[i]))
    decreases n
  {
    hide State, Accepted, Validate, UnderminesItself, Supported, ValidLog;
    StateWellIndexed(log, n);
    if n == i + 1 {
      ActiveAfter(log, i, i);
      NewEntrySupportedIff(log, i);
    } else {
      EntrySupportedIff(log, n - 1, i);
      ActiveAfter(log, n - 1, i);
      if Supported(log, n - 1, i) {
        StaysSupported(log, n - 1, i);
      } else {
        Unsupported(log, n - 1, i);
      }
      InactiveIsSupported(log, n, i);
    }
  }

  lemma {:induction false} InactiveIsSupported(log: seq<Envelope>, n: nat, i: nat)
    requires i < n <= |log| && |State(log, n).transactions| == n
    ensures !State(log, n).transactions[i].active ==> Supported(log, n, i)
  {}

  /** In every run, no active transaction rests on an inactive one if and only if every envelope that undermined
      itself has been deactivated since. */
  lemma {:induction false} ActiveNeverRestsOnInactive(log: seq<Envelope>, n: nat)
    requires ValidLog(log) && n <= |log|
    ensures |State(log, n).transactions| == n
    ensures AllSupported(log, n) <==>
            forall j {:trigger log[j]} :: 0 <= j < n && UnderminesItself(State(log, j), log[j]) ==>
              !State(log, n).transactions[j].active
  {
    hide State, UnderminesItself, Accepted, Supported, ValidLog;
    StateWellIndexed(log, n);
    forall i {:trigger Supported(log, n, i)} {:trigger log[i]} | 0 <= i < n
      ensures Supported(log, n, i) <==>
              (State(log, n).transactions[i].active ==> !UnderminesItself(State(log, i), log[i]))
    {
      EntrySupportedIff(log, n, i);
    }
  }
}
