/** Concrete logs showing how a status can disagree with the merge classes. */
module MergeCounterexamples {
  import opened Types
  import opened Connectivity
  import opened Canonical
  import opened LedgerSpec
  import opened LedgerRuns
  import Counterexamples

  const PEOPLE := Envelope(1, 0, 1, 0, [], [CreateIdentity(1, 0), CreateIdentity(2, 0)])

  const UNITE := Merge(9, 1, 2, [], 1, 1)

  /** Two identities, nothing merged. */
  ghost predicate HoldsPeople(l: Ledger) {
    && l.version == 1 && l.identities == map[1 := Active, 2 := Active] && l.merges == map[] && l.decisions == map[]
    && l.transactionIndexes == map[1 := 0] && |l.transactions| == 1 && l.idempotency.Keys == {1}
       && l.dependents == map[]
    && l.currentInference == map[]
  }

  lemma {:induction false} OneEffect(l: Ledger, e: Envelope, v: CommitVersion)
    requires |e.commands| == 1
    ensures Apply(l, e, v) == Record(ApplyCommand(l, e.transaction, v, e.commands[0]), e, v)
  {
    assert ApplyPrefix(l, e, v, 0) == l;
  }

  lemma {:induction false} Populated(log: seq<Envelope>)
    requires |log| > 0 && log[0] == PEOPLE
    ensures Accepted(State(log, 0), log[0]) && HoldsPeople(State(log, 1))
  {
    assert State(log, 1) == Apply(State(log, 0), log[0], 1);
    var p := CheckCommand(EMPTY, NOTHING_PENDING, 1, PEOPLE.commands[0]);
    assert CheckPrefix(EMPTY, 1, PEOPLE.commands, 0) == Ok(NOTHING_PENDING);
    assert CheckPrefix(EMPTY, 1, PEOPLE.commands, 1) == p && p.Ok?;
    assert CheckPrefix(EMPTY, 1, PEOPLE.commands, 2) == CheckCommand(EMPTY, p.value, 1, PEOPLE.commands[1]);
    Counterexamples.TwoCommands(EMPTY, PEOPLE, 1);
  }

  lemma {:induction false} MinimumAlone(l: Ledger, x: IdentityId)
    requires OpenMerges(l) == {} && x in l.identities
    ensures CanonicalOf(l, x) == Some(x)
  {
    var members := Members(OpenMerges(l), l.identities.Keys, x);
    forall y | y in members ensures y == x { StaysInside(OpenMerges(l), iset{x}, x, y); }
    assert ClassMinimum(OpenMerges(l), l.identities.Keys, x) in members;
  }

  lemma {:induction false} MinimumJoined(l: Ledger)
    requires OpenMerges(l) == {(1, 2)} && l.identities.Keys == {1, 2}
    ensures CanonicalOf(l, 2) == Some(1)
  {
    Edge(OpenMerges(l), 2, 1);
    assert 1 in Members(OpenMerges(l), l.identities.Keys, 2);
    assert ClassMinimum(OpenMerges(l), l.identities.Keys, 2) in Members(OpenMerges(l), l.identities.Keys, 2);
  }

  /** After the merge, identity 2 is replaced by 1. */
  ghost predicate United(l: Ledger) {
    l.identities == map[1 := Active, 2 := Merged] && OpenMerges(l) == {(1, 2)} && l.merges.Keys == {9}
      && l.merges[9].validity.Open()
    && l.merges[9].left == 1 && l.merges[9].right == 2
  }

  lemma {:induction false} Unites(l: Ledger)
    requires HoldsPeople(l)
    ensures var now := ApplyCommand(l, 2, 2, UNITE);
            && United(now) && now.version == l.version && now.transactions == l.transactions
               && now.dependents == l.dependents
            && now.transactionIndexes == l.transactionIndexes && now.idempotency == l.idempotency
  {
    assert OpenMerges(l) == {};
    MinimumAlone(l, 1);
    MinimumAlone(l, 2);
    var now := ApplyCommand(l, 2, 2, UNITE);
    assert now.merges.Keys == {9};
    assert OpenMerges(now) == {(1, 2)} by {
      assert forall d :: d in now.merges ==> d == 9;
      assert now.merges[9].validity.Open();
    }
  }

  const DOZING := Envelope(2, 1, 2, 0, [], [UNITE, MakeDormant(2)])

  lemma {:induction false} DozingAccepted(l: Ledger)
    requires HoldsPeople(l)
    ensures Accepted(l, DOZING)
  {
    assert CheckPrefix(l, 2, DOZING.commands, 0) == Ok(NOTHING_PENDING);
    var p := CheckCommand(l, NOTHING_PENDING, 2, UNITE);
    assert CheckPrefix(l, 2, DOZING.commands, 1) == p && p.Ok?;
    assert CheckPrefix(l, 2, DOZING.commands, 2) == CheckCommand(l, p.value, 2, MakeDormant(2));
    assert FirstInactive(l, []) == None;
  }

  /** A lifecycle command after a merge in the same batch overwrites `Merged`: the overlay missed the merge. */
  lemma {:induction false} LifecycleOverwritesMerged()
    ensures var log := [PEOPLE, DOZING];
            && ValidLog(log) && 2 in State(log, 2).identities
            && CanonicalOf(State(log, 2), 2) == Some(1) && State(log, 2).identities[2] == Dormant
  {
    hide Accepted, Apply;
    var log := [PEOPLE, DOZING];
    Populated(log);
    var l := State(log, 1);
    DozingAccepted(l);
    assert State(log, 2) == Apply(l, DOZING, 2);
    forall k {:trigger State(log, k)} | 0 <= k < 2 ensures Accepted(State(log, k), log[k]) {}
    Counterexamples.TwoCommands(l, DOZING, 2);
    Unites(l);
    MinimumJoined(State(log, 2));
  }

  const MERGING := Envelope(2, 1, 2, 0, [], [UNITE])

  const UNDOING := Envelope(3, 2, 3, 0, [], [Revert(2, Strict)])

  lemma {:induction false} MergingAccepted(l: Ledger)
    requires HoldsPeople(l)
    ensures Accepted(l, MERGING)
  {
    assert CheckPrefix(l, 2, MERGING.commands, 0) == Ok(NOTHING_PENDING);
    assert CheckPrefix(l, 2, MERGING.commands, 1) == CheckCommand(l, NOTHING_PENDING, 2, UNITE);
    assert FirstInactive(l, []) == None;
  }

  ghost predicate HoldsMerge(l: Ledger) {
    && United(l) && l.version == 2 && |l.transactions| == 2 && l.transactions[1] == TransactionRecord(2, MERGING, true)
    && l.transactionIndexes == map[1 := 0, 2 := 1] && l.idempotency.Keys == {1, 2} && l.dependents == map[]
    && l.merges[9].validity == VersionInterval(2, None)
  }

  lemma {:induction false} Merges(l: Ledger)
    requires HoldsPeople(l)
    ensures HoldsMerge(Apply(l, MERGING, 2))
  {
    hide Apply;
    OneEffect(l, MERGING, 2);
    Unites(l);
  }

  lemma {:induction false} UndoingAccepted(l: Ledger)
    requires HoldsMerge(l)
    ensures Accepted(l, UNDOING)
  {
    assert IsActive(l, 2);
    assert CheckPrefix(l, 3, UNDOING.commands, 0) == Ok(NOTHING_PENDING);
    assert CheckPrefix(l, 3, UNDOING.commands, 1) == CheckRevert(l, NOTHING_PENDING, 2, Strict);
    assert FirstInactive(l, []) == None;
  }

  lemma {:induction false} Withdraws(l: Ledger)
    requires HoldsMerge(l)
    ensures var l1 := l.(transactions := l.transactions[1 := l.transactions[1].(active := false)]);
            var l2 := DeactivateCommands(l1, MERGING.commands, 1, 3);
            l2.identities == l.identities && OpenMerges(l2) == {} && OpenMerges(Rebuilt(l2)) == {}
  {
    hide RebuiltStatus;
    var l1 := l.(transactions := l.transactions[1 := l.transactions[1].(active := false)]);
    var l2 := DeactivateCommands(l1, MERGING.commands, 1, 3);
    assert l2 == DeactivateCommand(DeactivateCommands(l1, MERGING.commands, 0, 3), UNITE, 3);
    assert l2.merges.Keys == {9} && !l2.merges[9].validity.Open();
  }

  lemma {:induction false} Undoes(l: Ledger)
    requires HoldsMerge(l)
    ensures var now := ApplyCommand(l, 3, 3, Revert(2, Strict));
            && now.identities == map[1 := Active, 2 := Merged] && OpenMerges(now) == {}
  {
    hide OpenMerges, DeactivateCommands, CanonicalOf;
    Withdraws(l);
    var l1 := l.(transactions := l.transactions[1 := l.transactions[1].(active := false)]);
    var l2 := DeactivateCommands(l1, MERGING.commands, 1, 3);
    MinimumAlone(l2, 1);
    MinimumAlone(l2, 2);
    assert RevertTargets(l, 2, Strict) == [2];
    assert DeactivateAll(l, [2], 1, 3) == Deactivate(DeactivateAll(l, [2], 0, 3), 2, 3) == Rebuilt(l2);
  }

  /** Reverting a merge leaves its replaced identity `Merged`, although it represents its own class again. */
  lemma {:induction false} RevertLeavesMerged()
    ensures var log := [PEOPLE, MERGING, UNDOING];
            && ValidLog(log) && 2 in State(log, 3).identities
            && CanonicalOf(State(log, 3), 2) == Some(2) && State(log, 3).identities[2] == Merged
  {
    hide Accepted, Apply;
    var log := [PEOPLE, MERGING, UNDOING];
    Populated(log);
    MergingAccepted(State(log, 1));
    Merges(State(log, 1));
    assert State(log, 2) == Apply(State(log, 1), MERGING, 2);
    UndoingAccepted(State(log, 2));
    assert State(log, 3) == Apply(State(log, 2), UNDOING, 3);
    OneEffect(State(log, 2), UNDOING, 3);
    Undoes(State(log, 2));
    MinimumAlone(State(log, 3), 2);
    forall k {:trigger State(log, k)} | 0 <= k < 3 ensures Accepted(State(log, k), log[k]) {
      if k == 0 {} else if k == 1 {} else { assert k == 2; }
    }
  }
}
