/** Lifecycle statuses against merge classes: when is every replaced identity marked `Merged`? */
module Statuses {
  import opened Types
  import opened Connectivity
  import opened Canonical
  import opened LedgerSpec
  import opened LedgerFrames
  import opened LedgerRuns
  import opened Dependencies
  import opened MemoryLedgers

  /** `x` represents its merge class. */
  ghost predicate Least(l: Ledger, x: IdentityId) {
    x in l.identities && IsLeast(x, Members(OpenMerges(l), l.identities.Keys, x))
  }

  lemma {:induction false} LeastIsCanonical(l: Ledger, x: IdentityId)
    requires x in l.identities
    ensures Least(l, x) <==> CanonicalOf(l, x) == Some(x)
  {
    hide Connected, OpenMerges;
  }

  ghost predicate Marked(l: Ledger, x: IdentityId)
    requires x in l.identities
  {
    Least(l, x) || l.identities[x] == Merged
  }

  /** Every identity that does not represent its class has status `Merged`. */
  ghost predicate StatusesAgree(l: Ledger) {
    forall x {:trigger Marked(l, x)} :: x in l.identities ==> Marked(l, x)
  }

  // ----- what changes classes -----

  /** Fewer merges: whoever was least stays least. */
  lemma {:induction false} LeastWithFewerMerges(l: Ledger, l': Ledger, x: IdentityId)
    requires Least(l, x) && l'.identities.Keys == l.identities.Keys && OpenMerges(l') <= OpenMerges(l)
    ensures Least(l', x)
  {
    hide Connected, OpenMerges;
    Reflexive(OpenMerges(l'), x);
    forall y | y in Members(OpenMerges(l'), l'.identities.Keys, x) ensures x <= y {
      Monotone(OpenMerges(l'), OpenMerges(l), x, y);
      assert y in Members(OpenMerges(l), l.identities.Keys, x);
    }
  }

  lemma {:induction false} SameClasses(l: Ledger, l': Ledger, x: IdentityId)
    requires l'.identities.Keys == l.identities.Keys && OpenMerges(l') == OpenMerges(l)
    ensures Least(l', x) <==> Least(l, x)
  {
    hide Connected, OpenMerges;
  }

  lemma {:induction false} BornIsAlone(l: Ledger, l': Ledger, born: IdentityId, x: IdentityId)
    requires MergesKnown(l) && born !in l.identities && x in l.identities
    requires l'.identities.Keys == l.identities.Keys + {born} && OpenMerges(l') == OpenMerges(l)
    ensures (Least(l', x) <==> Least(l, x)) && Least(l', born)
  {
    hide Connected, OpenMerges;
    OpenMergesKnown(l);
    var edges := OpenMerges(l);
    Isolated(edges, l.identities.Keys, born, x);
    assert Members(edges, l'.identities.Keys, x) == Members(edges, l.identities.Keys, x);
    Reflexive(edges, born);
    forall y | y in Members(edges, l'.identities.Keys, born) ensures y == born {
      if y != born { Isolated(edges, l.identities.Keys, born, y); }
    }
  }

  lemma {:induction false} CanonicalIsLeast(l: Ledger, x: IdentityId)
    requires x in l.identities
    ensures Least(l, CanonicalOf(l, x).value) && Connected(OpenMerges(l), x, CanonicalOf(l, x).value)
  {
    hide Connected, OpenMerges;
    var m := CanonicalOf(l, x).value;
    assert IsLeast(m, Members(OpenMerges(l), l.identities.Keys, x));
    assert m in Members(OpenMerges(l), l.identities.Keys, x);
    SameClassSameMembers(OpenMerges(l), l.identities.Keys, x, m);
  }

  lemma {:induction false} LeastUnique(l: Ledger, x: IdentityId, y: IdentityId)
    requires Least(l, x) && Least(l, y) && Connected(OpenMerges(l), x, y)
    ensures x == y
  {
    hide Connected, OpenMerges;
    Symmetric(OpenMerges(l), x, y);
    assert y in Members(OpenMerges(l), l.identities.Keys, x) && x in Members(OpenMerges(l), l.identities.Keys, y);
  }

  lemma {:induction false} CanonicalSame(l: Ledger, x: IdentityId, y: IdentityId)
    requires x in l.identities && y in l.identities
    ensures CanonicalOf(l, x) == CanonicalOf(l, y) <==> Connected(OpenMerges(l), x, y)
  {
    hide Connected, OpenMerges, CanonicalOf, Least;
    CanonicalKnown(l, x);
    CanonicalKnown(l, y);
    CanonicalIsLeast(l, x);
    CanonicalIsLeast(l, y);
    var a, b := CanonicalOf(l, x).value, CanonicalOf(l, y).value;
    var e := OpenMerges(l);
    if a == b {
      Symmetric(e, y, a);
      Transitive(e, x, a, y);
    }
    if Connected(e, x, y) {
      Symmetric(e, x, a);
      Transitive(e, a, x, y);
      Transitive(e, a, y, b);
      LeastUnique(l, a, b);
    }
  }

  /** A merge of two classes dethrones exactly the larger of the two representatives. */
  lemma {:induction false} MergeDethrones(l: Ledger, l': Ledger, left: IdentityId, right: IdentityId, x: IdentityId)
    requires left in l.identities && right in l.identities && x in l.identities
    requires l'.identities.Keys == l.identities.Keys && OpenMerges(l') == OpenMerges(l) + {(left, right)}
    ensures UnitedMinima(l, left, right).None? ==> (Least(l', x) <==> Least(l, x))
    ensures UnitedMinima(l, left, right).Some? ==>
              (Least(l', x) <==> Least(l, x) && x != UnitedMinima(l, left, right).value.1)
  {
    hide Connected, OpenMerges, Least, CanonicalOf, IsLeast;
    CanonicalSame(l, left, right);
    CanonicalKnown(l, left);
    CanonicalKnown(l, right);
    var a, b := CanonicalOf(l, left).value, CanonicalOf(l, right).value;
    CanonicalIsLeast(l, left);
    CanonicalIsLeast(l, right);
    if a == b {
      LeastAfterRedundant(l, l', left, right, x);
    } else {
      LeastAfterMerge(l, l', left, right, a, b, x);
    }
  }

  lemma {:induction false} LeastAfterRedundant(
    l: Ledger, l': Ledger, left: IdentityId, right: IdentityId, x: IdentityId)
    requires l'.identities.Keys == l.identities.Keys && OpenMerges(l') == OpenMerges(l) + {(left, right)}
    requires Connected(OpenMerges(l), left, right)
    ensures Least(l', x) <==> Least(l, x)
  {
    hide Connected, OpenMerges;
    var e := OpenMerges(l);
    Symmetric(e, left, right);
    forall y ensures Connected(OpenMerges(l'), x, y) <==> Connected(e, x, y) {
      AddEdge(e, left, right, x, y);
      if Connected(e, x, left) && Connected(e, right, y) {
        Transitive(e, x, left, right);
        Transitive(e, x, right, y);
      }
      if Connected(e, x, right) && Connected(e, left, y) {
        Transitive(e, x, right, left);
        Transitive(e, x, left, y);
      }
    }
    assert Members(OpenMerges(l'), l'.identities.Keys, x) == Members(e, l.identities.Keys, x);
  }

  lemma {:induction false} LeastAfterMerge(
    l: Ledger, l': Ledger, left: IdentityId, right: IdentityId, a: IdentityId, b: IdentityId, x: IdentityId)
    requires l'.identities.Keys == l.identities.Keys && OpenMerges(l') == OpenMerges(l) + {(left, right)}
    requires x in l.identities && left in l.identities && right in l.identities
    requires Least(l, a) && Connected(OpenMerges(l), left, a)
    requires Least(l, b) && Connected(OpenMerges(l), right, b) && a != b
    ensures Least(l', x) <==> Least(l, x) && x != (if a < b then b else a)
  {
    hide OpenMerges, Connected, IsLeast;
    var e := OpenMerges(l);
    forall y
      ensures Connected(OpenMerges(l'), x, y) <==> Joined(e, left, right, x, y)
    {
      AddEdge(e, left, right, x, y);
    }
    if Connected(e, x, left) {
      LeastOnOneSide(l, l', left, right, a, b, x);
    } else if Connected(e, x, right) {
      forall y ensures Joined(e, left, right, x, y) <==> Joined(e, right, left, x, y) {}
      LeastOnOneSide(l, l', right, left, b, a, x);
    } else {
      Symmetric(e, left, a);
      Symmetric(e, right, b);
      assert Members(OpenMerges(l'), l'.identities.Keys, x) == Members(e, l.identities.Keys, x);
    }
  }

  ghost predicate Joined(
    e: set<(IdentityId, IdentityId)>, left: IdentityId, right: IdentityId, x: IdentityId, y: IdentityId)
  {
    || Connected(e, x, y)
    || (Connected(e, x, left) && Connected(e, right, y))
    || (Connected(e, x, right) && Connected(e, left, y))
  }

  lemma {:induction false} LeastOnOneSide(
    l: Ledger, l': Ledger, left: IdentityId, right: IdentityId, a: IdentityId, b: IdentityId, x: IdentityId)
    requires l'.identities.Keys == l.identities.Keys && x in l.identities
    requires forall y :: Connected(OpenMerges(l'), x, y) <==> Joined(OpenMerges(l), left, right, x, y)
    requires Least(l, a) && Connected(OpenMerges(l), left, a)
    requires Least(l, b) && Connected(OpenMerges(l), right, b) && a != b
    requires Connected(OpenMerges(l), x, left)
    ensures Least(l', x) <==> Least(l, x) && x != (if a < b then b else a)
  {
    hide OpenMerges, Connected;
    var e := OpenMerges(l);
    Transitive(e, x, left, a);
    Symmetric(e, x, a);
    if Least(l', x) {
      assert a in Members(OpenMerges(l'), l'.identities.Keys, x) && b in Members(OpenMerges(l'), l'.identities.Keys, x);
      assert x in Members(e, l.identities.Keys, a);
    }
    if Least(l, x) && x != (if a < b then b else a) {
      LeastUnique(l, x, a);
      Reflexive(OpenMerges(l'), x);
      forall y | y in Members(OpenMerges(l'), l'.identities.Keys, x) ensures x <= y {
        if Connected(e, right, y) {
          Symmetric(e, right, b);
          Transitive(e, b, right, y);
          assert y in Members(e, l.identities.Keys, b);
        } else if Connected(e, left, y) {
          Transitive(e, x, left, y);
          assert y in Members(e, l.identities.Keys, x);
        } else {
          assert y in Members(e, l.identities.Keys, x);
        }
      }
    }
  }

  // ----- one command -----

  predicate Relabels(c: Command) { c.Promote? || c.MakeDormant? || c.Reactivate? || c.Retire? }

  predicate Rebuilds(c: Command) { c.Split? || (c.Revert? && c.mode != Compensating) }

  /** A lifecycle change of an identity that is not its class's representative. */
  ghost predicate Offends(l: Ledger, c: Command) { Relabels(c) && !Least(l, c.identity) }

  lemma {:induction false} RebuiltAgrees(l: Ledger)
    ensures StatusesAgree(Rebuilt(l))
  {
    hide OpenMerges, CanonicalOf, Least;
    forall x | x in Rebuilt(l).identities ensures Marked(Rebuilt(l), x) {
      LeastIsCanonical(l, x);
      OpenMergesField(l, Rebuilt(l));
      SameClasses(l, Rebuilt(l), x);
    }
  }

  lemma {:induction false} SplitAgrees(l: Ledger, plan: SplitPlan, v: CommitVersion)
    ensures StatusesAgree(SplitIdentities(l, plan, v))
  {
    hide StatusesAgree, Rebuilt, CloseMerges, Reopen;
    var l1 := CloseMerges(l, plan.closeMerges, |plan.closeMerges|, v);
    RebuiltAgrees(l1.(identities := Reopen(l1.identities, plan.partitions, |plan.partitions|)));
  }

  lemma {:induction false} DeactivateAllAgrees(l: Ledger, targets: seq<TransactionId>, n: nat, v: CommitVersion)
    requires 0 < n <= |targets| && WellIndexed(l) && targets[0] in l.transactionIndexes
    ensures StatusesAgree(DeactivateAll(l, targets, n, v))
  {
    hide StatusesAgree, Rebuilt, DeactivateCommands, SameRecords, SameEntry, Indexed;
    var l1 := DeactivateAll(l, targets, n - 1, v);
    DeactivateAllRevises(l, targets, n - 1, v);
    SameLogWellIndexed(l, l1);
    if n > 1 { DeactivateAllAgrees(l, targets, n - 1, v); }
    if targets[n - 1] in l1.transactionIndexes {
      var index := l1.transactionIndexes[targets[n - 1]];
      var commands := l1.transactions[index].envelope.commands;
      var l2 := l1.(transactions := l1.transactions[index := l1.transactions[index].(active := false)]);
      RebuiltAgrees(DeactivateCommands(l2, commands, |commands|, v));
    }
  }

  lemma {:induction false} RevertAgrees(l: Ledger, t: TransactionId, mode: RevertMode, v: CommitVersion)
    requires WellIndexed(l) && t in l.transactionIndexes && mode != Compensating
    ensures StatusesAgree(RevertTransaction(l, t, mode, v))
  {
    hide StatusesAgree, DeactivateAll, WellIndexed, Closure, Reaches;
    if mode == Cascade { CascadeIsClosure(l, t); }
    DeactivateAllAgrees(l, RevertTargets(l, t, mode), |RevertTargets(l, t, mode)|, v);
  }

  /** Relabelling a representative is harmless; relabelling anyone else loses `Merged`. */
  lemma {:induction false} RelabelAgrees(l: Ledger, t: TransactionId, v: CommitVersion, c: Command)
    requires Relabels(c) && c.identity in l.identities
    ensures Least(l, c.identity) ==> (StatusesAgree(ApplyCommand(l, t, v, c)) <==> StatusesAgree(l))
    ensures !Least(l, c.identity) ==> !StatusesAgree(ApplyCommand(l, t, v, c))
  {
    hide Least, OpenMerges;
    var l' := ApplyCommand(l, t, v, c);
    OpenMergesField(l, l');
    forall x | x in l.identities ensures Least(l', x) <==> Least(l, x) { SameClasses(l, l', x); }
    if !Least(l, c.identity) { assert !Marked(l', c.identity); }
    if Least(l, c.identity) {
      forall x | x in l.identities ensures Marked(l', x) <==> Marked(l, x) {}
    }
  }

  lemma {:induction false} MergeAgrees(l: Ledger, c: Command, t: TransactionId, v: CommitVersion)
    requires c.Merge? && MergesKnown(l) && c.merge !in l.merges && c.left in l.identities && c.right in l.identities
    ensures StatusesAgree(MergeIdentities(l, c, t, v)) <==> StatusesAgree(l)
  {
    hide Least, OpenMerges, RecordOf, UnitedMinima, MergesKnown;
    var l' := MergeIdentities(l, c, t, v);
    MergedKeys(l, c.left, c.right);
    NewMerge(l, c, t, v);
    OpenMergesField(l.(merges := l'.merges), l');
    forall x | x in l.identities ensures Marked(l', x) <==> Marked(l, x) {
      MergeDethrones(l, l', c.left, c.right, x);
      if UnitedMinima(l, c.left, c.right).Some? { UnitedLeast(l, c.left, c.right); }
    }
  }

  lemma {:induction false} OpenMergesField(a: Ledger, b: Ledger)
    requires a.merges == b.merges
    ensures OpenMerges(a) == OpenMerges(b)
  {}

  lemma {:induction false} UnitedLeast(l: Ledger, left: IdentityId, right: IdentityId)
    requires UnitedMinima(l, left, right).Some?
    ensures var (minimum, replaced) := UnitedMinima(l, left, right).value;
            Least(l, minimum) && Least(l, replaced) && minimum != replaced
  {
    hide Least, CanonicalOf, Connected, OpenMerges;
    CanonicalIsLeast(l, left);
    CanonicalIsLeast(l, right);
  }

  lemma {:induction false} BirthAgrees(l: Ledger, l': Ledger, born: IdentityId)
    requires MergesKnown(l) && born !in l.identities
    requires l'.identities == l.identities[born := Active] && l'.merges == l.merges
    ensures StatusesAgree(l') <==> StatusesAgree(l)
  {
    hide Least, MergesKnown;
    OpenMergesField(l, l');
    hide OpenMerges;
    forall x | x in l.identities ensures Marked(l', x) <==> Marked(l, x) { BornIsAlone(l, l', born, x); }
    if l.identities != map[] {
      var x :| x in l.identities;
      BornIsAlone(l, l', born, x);
    } else {
      FirstIsLeast(l, l', born);
    }
    assert Marked(l', born);
  }

  lemma {:induction false} FirstIsLeast(l: Ledger, l': Ledger, born: IdentityId)
    requires l'.identities.Keys == {born}
    ensures Least(l', born)
  {
    hide OpenMerges;
    Reflexive(OpenMerges(l'), born);
  }

  lemma {:induction false} SameStatusesAgree(l: Ledger, l': Ledger)
    requires l'.identities == l.identities && l'.merges == l.merges
    ensures StatusesAgree(l') <==> StatusesAgree(l)
  {
    hide Least;
    OpenMergesField(l, l');
    hide OpenMerges;
    forall x | x in l.identities ensures Marked(l', x) <==> Marked(l, x) { SameClasses(l, l', x); }
  }

  /** How each command affects agreement. */
  lemma {:induction false} CommandAgrees(l: Ledger, t: TransactionId, v: CommitVersion, c: Command)
    requires MergesKnown(l) && WellIndexed(l) && Ready(l, v, c)
    requires c.Revert? ==> c.transaction in l.transactionIndexes
    ensures Rebuilds(c) ==> StatusesAgree(ApplyCommand(l, t, v, c))
    ensures !Rebuilds(c) ==> (StatusesAgree(ApplyCommand(l, t, v, c)) <==> StatusesAgree(l) && !Offends(l, c))
  {
    hide StatusesAgree, Least, MergeIdentities, SplitIdentities, MergesKnown, WellIndexed, Completed,
         CurrentClosedInferences, CurrentClosedDecisions;
    match c
    case CommitResolution(i, d, created) =>
      var l' := Resolve(l, i, d, created, v);
      if created.Some? { BirthAgrees(l, l', created.value); } else { SameStatusesAgree(l, l'); }
    case CreateIdentity(x, _) => BirthAgrees(l, ApplyCommand(l, t, v, c), x);
    case Merge(_, _, _, _, _, _) => MergeAgrees(l, c, t, v);
    case Split(plan) => SplitAgrees(l, plan, v);
    case Revert(target, mode) => if mode != Compensating { RevertAgrees(l, target, mode, v); }
    case PersistObservation(_) => SameStatusesAgree(l, ApplyCommand(l, t, v, c));
    case EnqueueMaterialization(_, _, _) => SameStatusesAgree(l, ApplyCommand(l, t, v, c));
    case Materialized(_, _) => SameStatusesAgree(l, ApplyCommand(l, t, v, c));
    case _ => RelabelAgrees(l, t, v, c);
  }

  // ----- batches -----

  lemma {:induction false} CommandKeepsMergesKnown(l: Ledger, t: TransactionId, v: CommitVersion, c: Command)
    requires MergesKnown(l) && Ready(l, v, c)
    ensures MergesKnown(ApplyCommand(l, t, v, c))
  {
    hide SplitIdentities, RevertTransaction, Revision, MergedStatuses, Completed, KnownParts;
    match c
    case Split(plan) =>
      SplitRevises(l, plan, v);
      RevisionKeepsMergesKnown(l, SplitIdentities(l, plan, v), v);
    case Revert(target, mode) =>
      RevertRevises(l, target, mode, v);
      RevisionKeepsMergesKnown(l, RevertTransaction(l, target, mode, v), v);
    case Merge(_, _, _, _, _, _) => MergedKeys(l, c.left, c.right);
    case _ =>
  }

  lemma {:induction false} RevertTargetKnown(l: Ledger, e: Envelope, i: nat)
    requires CheckPrefix(l, l.version + 1, e.commands, |e.commands|).Ok? && i < |e.commands| && e.commands[i].Revert?
    ensures e.commands[i].transaction in l.transactionIndexes
  {
    PrefixOk(l, l.version + 1, e.commands, i + 1, |e.commands|);
  }

  /** An offending relabel that no later command of the batch repairs by rebuilding. */
  ghost predicate OffendsLast(l: Ledger, e: Envelope, v: CommitVersion, m: nat, i: nat)
    requires i < m <= |e.commands|
  {
    Offends(ApplyPrefix(l, e, v, i), e.commands[i]) && forall j :: i < j < m ==> !Rebuilds(e.commands[j])
  }

  ghost predicate LeavesOffence(l: Ledger, e: Envelope, v: CommitVersion, m: nat)
    requires m <= |e.commands|
  {
    exists i {:trigger OffendsLast(l, e, v, m, i)} :: 0 <= i < m && OffendsLast(l, e, v, m, i)
  }

  predicate HasRebuild(commands: seq<Command>, m: nat)
    requires m <= |commands|
  {
    exists j :: 0 <= j < m && Rebuilds(commands[j])
  }

  lemma {:induction false} BatchAgrees(l: Ledger, e: Envelope, v: CommitVersion, m: nat)
    requires Applicable(l, e, v) && m <= |e.commands| && MergesKnown(l) && WellIndexed(l)
    requires CheckPrefix(l, l.version + 1, e.commands, |e.commands|).Ok?
    ensures StatusesAgree(ApplyPrefix(l, e, v, m)) <==>
            (StatusesAgree(l) || HasRebuild(e.commands, m)) && !LeavesOffence(l, e, v, m)
    ensures MergesKnown(ApplyPrefix(l, e, v, m))
  {
    hide StatusesAgree, MergesKnown, WellIndexed, Applicable, ApplyCommand, Ready, Offends, Rebuilds, CheckCommand,
         SameEntry;
    if m > 0 {
      BatchAgrees(l, e, v, m - 1);
      var now, c := ApplyPrefix(l, e, v, m - 1), e.commands[m - 1];
      ReadyAt(l, e, v, m - 1);
      SameLogWellIndexed(l, now);
      CommandKeepsMergesKnown(now, e.transaction, v, c);
      if c.Revert? { RevertTargetKnown(l, e, m - 1); }
      CommandAgrees(now, e.transaction, v, c);
      OffenceStep(l, e, v, m);
      RebuildStep(e.commands, m);
    }
  }

  lemma {:induction false} RebuildStep(commands: seq<Command>, m: nat)
    requires 0 < m <= |commands|
    ensures HasRebuild(commands, m) <==> HasRebuild(commands, m - 1) || Rebuilds(commands[m - 1])
  {
    hide Rebuilds;
  }

  lemma {:induction false} OffenceStep(l: Ledger, e: Envelope, v: CommitVersion, m: nat)
    requires 0 < m <= |e.commands|
    ensures var now, c := ApplyPrefix(l, e, v, m - 1), e.commands[m - 1];
            && (Rebuilds(c) ==> !LeavesOffence(l, e, v, m))
            && (!Rebuilds(c) ==> (LeavesOffence(l, e, v, m) <==> LeavesOffence(l, e, v, m - 1) || Offends(now, c)))
  {
    hide ApplyPrefix, Least;
    var c, n := e.commands[m - 1], m - 1;
    if Rebuilds(c) {
      forall i | 0 <= i < m ensures !OffendsLast(l, e, v, m, i) {}
    } else {
      forall i | 0 <= i < n ensures OffendsLast(l, e, v, m, i) <==> OffendsLast(l, e, v, n, i) {}
      assert OffendsLast(l, e, v, m, n) <==> Offends(ApplyPrefix(l, e, v, n), c);
    }
  }

  // ----- runs -----

  lemma {:induction false} StateMergesKnown(log: seq<Envelope>, k: nat)
    requires ValidLog(log) && k <= |log|
    ensures MergesKnown(State(log, k))
  {
    hide Accepted, Applicable, Validate, ApplyPrefix, AddDependents;
    if k > 0 {
      StateMergesKnown(log, k - 1);
      StateAccepts(log, k - 1);
      PrefixMergesKnown(State(log, k - 1), log[k - 1], k, |log[k - 1].commands|);
    }
  }

  lemma {:induction false} PrefixMergesKnown(l: Ledger, e: Envelope, v: CommitVersion, m: nat)
    requires Applicable(l, e, v) && m <= |e.commands| && MergesKnown(l)
    ensures MergesKnown(ApplyPrefix(l, e, v, m))
  {
    hide MergesKnown, Applicable, ApplyCommand, Ready, SameEntry;
    if m > 0 {
      PrefixMergesKnown(l, e, v, m - 1);
      ReadyAt(l, e, v, m - 1);
      CommandKeepsMergesKnown(ApplyPrefix(l, e, v, m - 1), e.transaction, v, e.commands[m - 1]);
    }
  }

  /** Commit `k` leaves an offence behind. */
  ghost predicate CommitOffends(log: seq<Envelope>, k: nat)
    requires k < |log|
  {
    LeavesOffence(State(log, k), log[k], k + 1, |log[k].commands|)
  }

  predicate CommitRebuilds(log: seq<Envelope>, k: nat)
    requires k < |log|
  {
    HasRebuild(log[k].commands, |log[k].commands|)
  }

  lemma {:induction false} CommitAgrees(log: seq<Envelope>, k: nat)
    requires ValidLog(log) && k < |log|
    ensures StatusesAgree(State(log, k + 1)) <==>
            (StatusesAgree(State(log, k)) || CommitRebuilds(log, k)) && !CommitOffends(log, k)
  {
    hide State, ValidLog, Accepted, Applicable, Validate, ApplyPrefix, AddDependents, StatusesAgree, LeavesOffence,
         MergesKnown, WellIndexed, CheckPrefix, IsActive, Logged;
    var l, e := State(log, k), log[k];
    StateAccepts(log, k);
    StateMergesKnown(log, k);
    StateWellIndexed(log, k);
    AcceptedDependencies(l, e);
    BatchAgrees(l, e, k + 1, |e.commands|);
    SameStatusesAgree(ApplyPrefix(l, e, k + 1, |e.commands|), State(log, k + 1));
  }

  /** From an agreeing state a commit ends in an agreeing state if and only if no lifecycle command hit an
      identity that was not representing its class at that moment, unless a later split or effective
      revert of the same batch rebuilt the classes. */
  lemma {:induction false} CommitAgreesIff(log: seq<Envelope>, k: nat)
    requires ValidLog(log) && k < |log| && StatusesAgree(State(log, k))
    ensures StatusesAgree(State(log, k + 1)) <==> !LeavesOffence(State(log, k), log[k], k + 1, |log[k].commands|)
  {
    hide State, ValidLog, StatusesAgree, LeavesOffence, HasRebuild;
    CommitAgrees(log, k);
  }

  /** A commit after `k`, up to the `n`-th, rebuilds the classes. */
  predicate RebuiltSince(log: seq<Envelope>, k: nat, n: nat)
    requires n <= |log|
  {
    exists j {:trigger CommitRebuilds(log, j)} :: k < j < n && CommitRebuilds(log, j)
  }

  ghost predicate OffencesRebuilt(log: seq<Envelope>, n: nat)
    requires n <= |log|
  {
    forall k {:trigger CommitOffends(log, k)} :: 0 <= k < n && CommitOffends(log, k) ==> RebuiltSince(log, k, n)
  }

  lemma {:induction false} OffencesStep(log: seq<Envelope>, n: nat)
    requires n < |log|
    ensures OffencesRebuilt(log, n + 1) <==>
            (OffencesRebuilt(log, n) || CommitRebuilds(log, n)) && !CommitOffends(log, n)
  {
    hide CommitOffends, CommitRebuilds;
    var m := n + 1;
    forall k: nat | k < n ensures RebuiltSince(log, k, m) <==> RebuiltSince(log, k, n) || CommitRebuilds(log, n) {}
    assert !RebuiltSince(log, n, m);
  }

  /** In every run, each identity replaced in a merge is `Merged` if and only if every such offence was followed
      by a commit that rebuilt the classes. */
  lemma {:induction false} ReplacedAreMerged(log: seq<Envelope>, n: nat)
    requires ValidLog(log) && n <= |log|
    ensures StatusesAgree(State(log, n)) <==> OffencesRebuilt(log, n)
  {
    hide ValidLog, Apply, Marked, CommitOffends, CommitRebuilds, OffencesRebuilt;
    if n == 0 {
      NothingToAgree(log);
    } else {
      ReplacedAreMerged(log, n - 1);
      CommitAgrees(log, n - 1);
      OffencesStep(log, n - 1);
    }
  }

  lemma {:induction false} NothingToAgree(log: seq<Envelope>)
    ensures StatusesAgree(EMPTY) && OffencesRebuilt(log, 0)
  {}

  // ----- a condition visible in the batch itself -----

  /** No lifecycle command comes after a merge or split of the same batch. */
  predicate LifecyclesFirst(commands: seq<Command>) {
    forall i, j :: 0 <= i < j < |commands| && (commands[i].Merge? || commands[i].Split?) ==> !Relabels(commands[j])
  }

  predicate OverlayAt(l: Ledger, p: Pending, now: Ledger, x: IdentityId)
    requires x in now.identities
  {
    StatusOf(l, p, x) == Some(now.identities[x])
  }

  /** Validation's overlay shows the statuses the partly applied batch really has. */
  ghost predicate OverlayExact(l: Ledger, p: Pending, now: Ledger) {
    forall x {:trigger OverlayAt(l, p, now, x)} :: x in now.identities ==> OverlayAt(l, p, now, x)
  }

  lemma {:induction false} DeactivateCommandsShrink(l: Ledger, commands: seq<Command>, n: nat, v: CommitVersion)
    requires n <= |commands|
    ensures DeactivateCommands(l, commands, n, v).identities == l.identities
    ensures OpenMerges(DeactivateCommands(l, commands, n, v)) <= OpenMerges(l)
  {
    hide DeactivateCommand, OpenMerges;
    if n > 0 {
      DeactivateCommandsShrink(l, commands, n - 1, v);
      DeactivateCommandShrinks(DeactivateCommands(l, commands, n - 1, v), commands[n - 1], v);
    }
  }

  lemma {:induction false} DeactivateCommandShrinks(l: Ledger, c: Command, v: CommitVersion)
    ensures DeactivateCommand(l, c, v).identities == l.identities
    ensures OpenMerges(DeactivateCommand(l, c, v)) <= OpenMerges(l)
  {
    hide CurrentClosedInferences, CurrentClosedDecisions, ClosedDecisions;
    DeactivateCommandRevises(l, c, v);
    var l' := DeactivateCommand(l, c, v);
    forall e | e in OpenMerges(l') ensures e in OpenMerges(l) {
      var d :| d in l'.merges && l'.merges[d].validity.Open() && e == (l'.merges[d].left, l'.merges[d].right);
      assert SameMerge(l.merges, l'.merges, d, v);
    }
  }

  lemma {:induction false} DeactivateKeepsStatuses(l: Ledger, t: TransactionId, v: CommitVersion)
    requires StatusesAgree(l)
    ensures Deactivate(l, t, v).identities == l.identities && StatusesAgree(Deactivate(l, t, v))
  {
    hide OpenMerges, Least, DeactivateCommands, CanonicalOf;
    if t in l.transactionIndexes && l.transactionIndexes[t] < |l.transactions| {
      var index := l.transactionIndexes[t];
      var commands := l.transactions[index].envelope.commands;
      var l1 := l.(transactions := l.transactions[index := l.transactions[index].(active := false)]);
      var l2 := DeactivateCommands(l1, commands, |commands|, v);
      DeactivateCommandsShrink(l1, commands, |commands|, v);
      OpenMergesField(l, l1);
      RebuiltAgrees(l2);
      forall x | x in l.identities ensures Rebuilt(l2).identities[x] == l.identities[x] {
        LeastIsCanonical(l2, x);
        assert Marked(l, x);
        if Least(l, x) { LeastWithFewerMerges(l, l2, x); }
      }
    }
  }

  lemma {:induction false} DeactivateAllKeepsStatuses(l: Ledger, targets: seq<TransactionId>, n: nat, v: CommitVersion)
    requires StatusesAgree(l) && n <= |targets|
    ensures DeactivateAll(l, targets, n, v).identities == l.identities && StatusesAgree(DeactivateAll(l, targets, n, v))
  {
    hide StatusesAgree, Deactivate;
    if n > 0 {
      DeactivateAllKeepsStatuses(l, targets, n - 1, v);
      DeactivateKeepsStatuses(DeactivateAll(l, targets, n - 1, v), targets[n - 1], v);
    }
  }

  lemma {:induction false} OverlayStep(
    l: Ledger, p: Pending, now: Ledger, v: CommitVersion, t: TransactionId, c: Command)
    requires InStep(l, p, now) && CheckCommand(l, p, v, c).Ok? && OverlayExact(l, p, now) && StatusesAgree(now)
    requires !c.Merge? && !c.Split?
    ensures OverlayExact(l, CheckCommand(l, p, v, c).value, ApplyCommand(now, t, v, c))
    ensures !Offends(now, c)
  {
    hide InStep, StatusesAgree, Least, DeactivateAll, CurrentClosedInferences, CurrentClosedDecisions, Completed,
         CheckResolution, RevertTargets;
    CheckedIsReady(l, p, now, v, c);
    var p', next := CheckCommand(l, p, v, c).value, ApplyCommand(now, t, v, c);
    if Relabels(c) {
      RelabelsRepresentative(l, p, now, v, c);
    } else if c.CommitResolution? {
      ResolutionPending(l, p, v, c.inference, c.decision, c.created);
    } else if c.Revert? && c.mode != Compensating {
      var targets := RevertTargets(now, c.transaction, c.mode);
      DeactivateAllKeepsStatuses(now, targets, |targets|, v);
    }
    forall x | x in next.identities ensures OverlayAt(l, p', next, x) {
      if x in now.identities { assert OverlayAt(l, p, now, x); }
    }
  }

  lemma {:induction false} RelabelsRepresentative(l: Ledger, p: Pending, now: Ledger, v: CommitVersion, c: Command)
    requires CheckCommand(l, p, v, c).Ok? && OverlayExact(l, p, now) && StatusesAgree(now)
    requires Relabels(c) && c.identity in now.identities
    ensures Least(now, c.identity)
  {
    hide Least;
    assert OverlayAt(l, p, now, c.identity) && Marked(now, c.identity);
  }

  lemma {:induction false} OverlayPrefix(l: Ledger, e: Envelope, v: CommitVersion, m: nat)
    requires Applicable(l, e, v) && v == l.version + 1 && m <= |e.commands| && MergesKnown(l) && WellIndexed(l)
    requires CheckPrefix(l, v, e.commands, |e.commands|).Ok? && StatusesAgree(l)
    requires forall i :: 0 <= i < m ==> !e.commands[i].Merge? && !e.commands[i].Split?
    ensures CheckPrefix(l, v, e.commands, m).Ok?
    ensures OverlayExact(l, CheckPrefix(l, v, e.commands, m).value, ApplyPrefix(l, e, v, m))
    ensures forall i :: 0 <= i < m ==> !Offends(ApplyPrefix(l, e, v, i), e.commands[i])
  {
    hide Applicable, MergesKnown, WellIndexed, StatusesAgree, OverlayExact, ApplyCommand, CheckCommand, InStep, Offends,
         Ready;
    PrefixOk(l, v, e.commands, m, |e.commands|);
    if m == 0 {
      NoOverlay(l);
    } else {
      OverlayPrefix(l, e, v, m - 1);
      var p, now := CheckPrefix(l, v, e.commands, m - 1).value, ApplyPrefix(l, e, v, m - 1);
      ValidatedInStep(l, e, v, m - 1);
      BatchAgrees(l, e, v, m - 1);
      NoOffenceYet(l, e, v, m - 1);
      OverlayStep(l, p, now, v, e.transaction, e.commands[m - 1]);
    }
  }

  lemma {:induction false} NoOverlay(l: Ledger)
    ensures OverlayExact(l, NOTHING_PENDING, l)
  {}

  lemma {:induction false} NoOffenceYet(l: Ledger, e: Envelope, v: CommitVersion, m: nat)
    requires m <= |e.commands|
    requires forall i :: 0 <= i < m ==> !Offends(ApplyPrefix(l, e, v, i), e.commands[i])
    ensures !LeavesOffence(l, e, v, m)
  {
    hide Offends, ApplyPrefix;
  }

  /** Batches that keep lifecycle commands ahead of merges and splits never offend: the overlay then
      refuses every lifecycle change of a replaced identity. */
  lemma {:induction false} LifecyclesFirstIsSafe(log: seq<Envelope>, k: nat)
    requires ValidLog(log) && k < |log| && StatusesAgree(State(log, k)) && LifecyclesFirst(log[k].commands)
    ensures !LeavesOffence(State(log, k), log[k], k + 1, |log[k].commands|)
  {
    hide State, Accepted, Applicable, Validate, StatusesAgree, MergesKnown, WellIndexed, CheckPrefix, ApplyPrefix,
         Least, IsActive;
    var l, e := State(log, k), log[k];
    StateAccepts(log, k);
    StateMergesKnown(log, k);
    StateWellIndexed(log, k);
    AcceptedDependencies(l, e);
    forall i | 0 <= i < |e.commands| ensures !Offends(ApplyPrefix(l, e, k + 1, i), e.commands[i]) {
      if Relabels(e.commands[i]) { OverlayPrefix(l, e, k + 1, i + 1); }
    }
    NoOffenceYet(l, e, k + 1, |e.commands|);
  }

  /** Hence every run of such batches keeps all replaced identities `Merged`. */
  lemma {:induction false} LifecyclesFirstKeepsMerged(log: seq<Envelope>, k: nat)
    requires ValidLog(log) && k <= |log| && forall j :: 0 <= j < k ==> LifecyclesFirst(log[j].commands)
    ensures StatusesAgree(State(log, k))
  {
    hide Accepted, LeavesOffence, Apply, Marked, LifecyclesFirst;
    if k > 0 {
      LifecyclesFirstKeepsMerged(log, k - 1);
      LifecyclesFirstIsSafe(log, k - 1);
      CommitAgreesIff(log, k - 1);
    }
  }
}
