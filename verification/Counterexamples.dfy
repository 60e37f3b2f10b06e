/** Concrete logs showing that the hypotheses of the history, dependency and status theorems are needed. */
module Counterexamples {
  import opened Types
  import opened LedgerSpec
  import opened LedgerRuns

  const SIGHTING := Observation(1, 0, 0, None, [])

  const SENSOR := ProviderArtifact(1, 1, 1, 1)

  const EVIDENCE := Envelope(1, 0, 1, 0, [], [PersistObservation(SIGHTING)])

  /** Resolution number `n` of the observation, committed as version `v`. */
  function Resolution(n: nat, v: nat): Command {
    CommitResolution(InferenceRecord(n, 1, [SENSOR], 1, [], VersionInterval(v, None)),
                     DecisionRecord(n, n, Abstain, 1, 1, VersionInterval(v, None)), None)
  }

  /** What the ledger holds after the evidence commit. */
  ghost predicate HoldsEvidence(l: Ledger) {
    && l.version == 1 && l.observations == map[1 := SIGHTING]
    && l.inferences == map[] && l.decisions == map[] && l.currentInference == map[] && l.currentDecision == map[]
    && l.outbox == map[] && l.merges == map[] && l.identities == map[] && l.dependents == map[] && l.receipts == []
    && l.transactions == [TransactionRecord(1, EVIDENCE, true)] && l.transactionIndexes == map[1 := 0]
    && l.idempotency == map[1 := (1, 1)]
  }

  lemma {:induction false} Persisted(log: seq<Envelope>)
    requires |log| > 0 && log[0] == EVIDENCE
    ensures Accepted(State(log, 0), log[0]) && HoldsEvidence(State(log, 1))
  {
    assert State(log, 1) == Apply(State(log, 0), log[0], 1);
    assert CheckPrefix(EMPTY, 1, EVIDENCE.commands, 0) == Ok(NOTHING_PENDING);
    assert CheckPrefix(EMPTY, 1, EVIDENCE.commands, 1).Ok?;
    assert ApplyPrefix(EMPTY, EVIDENCE, 1, 1) == ApplyCommand(EMPTY, 1, 1, EVIDENCE.commands[0]);
  }

  /** A log of the evidence commit and one more envelope. */
  lemma {:induction false} TwoEntries(e: Envelope, l: Ledger)
    requires HoldsEvidence(l) ==> Accepted(l, e)
    requires l == State([EVIDENCE, e], 1)
    ensures ValidLog([EVIDENCE, e]) && HoldsEvidence(l) && State([EVIDENCE, e], 2) == Apply(l, e, 2)
  {
    hide Apply, Accepted;
    var log := [EVIDENCE, e];
    Persisted(log);
    forall k {:trigger State(log, k)} | 0 <= k < 2 ensures Accepted(State(log, k), log[k]) {}
  }

  const TWICE := Envelope(2, 1, 2, 0, [], [Resolution(1, 2), Resolution(2, 2)])

  lemma {:induction false} TwiceAccepted(l: Ledger)
    requires HoldsEvidence(l)
    ensures Accepted(l, TWICE)
  {
    assert CheckPrefix(l, 2, TWICE.commands, 0) == Ok(NOTHING_PENDING);
    var p := CheckCommand(l, NOTHING_PENDING, 2, Resolution(1, 2));
    assert CheckPrefix(l, 2, TWICE.commands, 1) == p && p.Ok?;
    assert CheckPrefix(l, 2, TWICE.commands, 2) == CheckCommand(l, p.value, 2, Resolution(2, 2));
    assert FirstInactive(l, []) == None;
  }

  /** The effects of a batch of two commands. */
  lemma {:induction false} TwoCommands(l: Ledger, e: Envelope, v: CommitVersion)
    requires |e.commands| == 2
    ensures var first := ApplyCommand(l, e.transaction, v, e.commands[0]);
            Apply(l, e, v) == Record(ApplyCommand(first, e.transaction, v, e.commands[1]), e, v)
  {
    assert ApplyPrefix(l, e, v, 0) == l;
    assert ApplyPrefix(l, e, v, 1) == ApplyCommand(l, e.transaction, v, e.commands[0]);
  }

  lemma {:induction false} TwiceApplied(l: Ledger)
    requires HoldsEvidence(l)
    ensures var now := Apply(l, TWICE, 2);
            && 1 in now.inferences && now.inferences[1].validity.Open()
            && 2 in now.inferences && now.inferences[2].validity.Open()
            && now.currentInference == map[1 := 2]
  {
    hide Apply;
    TwoCommands(l, TWICE, 2);
    var l1 := ApplyCommand(l, 2, 2, Resolution(1, 2));
    assert l1.inferences[1].validity == VersionInterval(2, None) && l1.currentInference == map[1 := 1];
  }

  /** Two resolutions of one observation in one batch leave both inferences open. */
  lemma {:induction false} TwoResolutionsStayOpen()
    ensures var log := [EVIDENCE, TWICE];
            && ValidLog(log)
            && 1 in State(log, 2).inferences && State(log, 2).inferences[1].validity.Open()
            && 2 in State(log, 2).inferences && State(log, 2).inferences[2].validity.Open()
            && State(log, 2).currentInference == map[1 := 2]
  {
    hide Apply, Accepted;
    var l := State([EVIDENCE, TWICE], 1);
    if HoldsEvidence(l) { TwiceAccepted(l); }
    TwoEntries(TWICE, l);
    TwiceApplied(l);
  }

  const UNDERMINING := Envelope(2, 1, 2, 0, [1], [Revert(1, Strict)])

  lemma {:induction false} UnderminingAccepted(l: Ledger)
    requires HoldsEvidence(l)
    ensures Accepted(l, UNDERMINING)
  {
    assert IsActive(l, 1);
    assert FirstInactive(l, [1]) == FirstInactive(l, []) == None;
    assert CheckPrefix(l, 2, UNDERMINING.commands, 0) == Ok(NOTHING_PENDING);
    assert CheckPrefix(l, 2, UNDERMINING.commands, 1) == CheckRevert(l, NOTHING_PENDING, 1, Strict);
  }

  lemma {:induction false} UnderminingApplied(l: Ledger)
    requires HoldsEvidence(l)
    ensures Apply(l, UNDERMINING, 2).transactions ==
              [TransactionRecord(1, EVIDENCE, false), TransactionRecord(2, UNDERMINING, true)]
  {
    assert RevertTargets(l, 1, Strict) == [1];
    assert DeactivateAll(l, [1], 1, 2) == Deactivate(DeactivateAll(l, [1], 0, 2), 1, 2) == Deactivate(l, 1, 2);
    assert ApplyPrefix(l, UNDERMINING, 2, 1) == ApplyCommand(l, 2, 2, Revert(1, Strict));
    DeactivationFlags(l);
  }

  /** An envelope may depend on the transaction it reverts: it stays active on an inactive dependency. */
  lemma {:induction false} EnvelopeUnderminesItself()
    ensures var log := [EVIDENCE, UNDERMINING];
            && ValidLog(log)
            && State(log, 2).transactions ==
                 [TransactionRecord(1, EVIDENCE, false), TransactionRecord(2, UNDERMINING, true)]
            && UNDERMINING.dependsOn == [EVIDENCE.transaction]
  {
    hide Apply, Accepted;
    var l := State([EVIDENCE, UNDERMINING], 1);
    if HoldsEvidence(l) { UnderminingAccepted(l); }
    TwoEntries(UNDERMINING, l);
    UnderminingApplied(l);
  }

  lemma {:induction false} DeactivationFlags(l: Ledger)
    requires l.transactions == [TransactionRecord(1, EVIDENCE, true)] && l.transactionIndexes == map[1 := 0]
    ensures Deactivate(l, 1, 2).transactions == [TransactionRecord(1, EVIDENCE, false)]
  {
    var l1 := l.(transactions := l.transactions[0 := l.transactions[0].(active := false)]);
    assert DeactivateCommands(l1, EVIDENCE.commands, 1, 2) ==
           DeactivateCommand(DeactivateCommands(l1, EVIDENCE.commands, 0, 2), EVIDENCE.commands[0], 2);
    assert l1.transactions == [TransactionRecord(1, EVIDENCE, false)];
  }

  // ----- reverting a superseded resolution -----

  const FIRST_ANSWER := Envelope(2, 1, 2, 0, [], [Resolution(1, 2)])

  const SECOND_ANSWER := Envelope(3, 2, 3, 0, [], [Resolution(2, 3)])

  const LATE_REVERT := Envelope(4, 3, 4, 0, [], [Revert(2, Strict)])

  lemma {:induction false} ResolutionAccepted(l: Ledger, n: nat)
    requires l.version == n && l.observations == map[1 := SIGHTING] && 0 < n < 1000
    requires (n + 1) !in l.transactionIndexes && (n + 1) !in l.idempotency && n !in l.inferences && n !in l.decisions
    ensures Accepted(l, Envelope(n + 1, n, n + 1, 0, [], [Resolution(n, n + 1)]))
  {
    var e := Envelope(n + 1, n, n + 1, 0, [], [Resolution(n, n + 1)]);
    assert CheckPrefix(l, n + 1, e.commands, 0) == Ok(NOTHING_PENDING);
    assert CheckPrefix(l, n + 1, e.commands, 1) == CheckCommand(l, NOTHING_PENDING, n + 1, e.commands[0]);
    assert FirstInactive(l, []) == None;
  }

  lemma {:induction false} ResolutionApplied(l: Ledger, n: nat)
    requires l.version == n && 0 < n
    ensures var e := Envelope(n + 1, n, n + 1, 0, [], [Resolution(n, n + 1)]);
            Apply(l, e, n + 1) == Record(ApplyCommand(l, n + 1, n + 1, Resolution(n, n + 1)), e, n + 1)
  {
    var e := Envelope(n + 1, n, n + 1, 0, [], [Resolution(n, n + 1)]);
    assert ApplyPrefix(l, e, n + 1, 1) == ApplyCommand(ApplyPrefix(l, e, n + 1, 0), n + 1, n + 1, Resolution(n, n + 1));
  }

  ghost predicate AnsweredTwice(l: Ledger) {
    && l.version == 3
    && l.decisions.Keys == {1, 2} && l.decisions[1].validity == VersionInterval(2, Some(3))
       && l.decisions[2].validity == VersionInterval(3, None)
    && l.inferences.Keys == {1, 2} && l.currentInference == map[1 := 2] && l.currentDecision == map[1 := 2]
    && |l.transactions| == 3 && l.transactions[1] == TransactionRecord(2, FIRST_ANSWER, true)
    && l.transactionIndexes == map[1 := 0, 2 := 1, 3 := 2] && l.dependents == map[] && 4 !in l.idempotency
  }

  lemma {:induction false} Answers(l: Ledger)
    requires HoldsEvidence(l)
    ensures Accepted(l, FIRST_ANSWER) && Accepted(Apply(l, FIRST_ANSWER, 2), SECOND_ANSWER)
    ensures AnsweredTwice(Apply(Apply(l, FIRST_ANSWER, 2), SECOND_ANSWER, 3))
  {
    hide Apply, Accepted;
    ResolutionAccepted(l, 1);
    ResolutionApplied(l, 1);
    var l2 := Apply(l, FIRST_ANSWER, 2);
    ResolutionAccepted(l2, 2);
    ResolutionApplied(l2, 2);
  }

  lemma {:induction false} LateRevertAccepted(l: Ledger)
    requires AnsweredTwice(l)
    ensures Accepted(l, LATE_REVERT)
  {
    assert IsActive(l, 2);
    assert CheckPrefix(l, 4, LATE_REVERT.commands, 0) == Ok(NOTHING_PENDING);
    assert CheckPrefix(l, 4, LATE_REVERT.commands, 1) == CheckRevert(l, NOTHING_PENDING, 2, Strict);
    assert FirstInactive(l, []) == None;
  }

  lemma {:induction false} LateRevertApplied(l: Ledger)
    requires AnsweredTwice(l)
    ensures var now := Apply(l, LATE_REVERT, 4);
            1 in now.decisions && now.decisions[1].validity == VersionInterval(2, Some(4))
  {
    var l1 := l.(transactions := l.transactions[1 := l.transactions[1].(active := false)]);
    assert DeactivateCommands(l1, FIRST_ANSWER.commands, 1, 4) ==
           DeactivateCommand(DeactivateCommands(l1, FIRST_ANSWER.commands, 0, 4), FIRST_ANSWER.commands[0], 4);
    assert DeactivateAll(l, [2], 1, 4) == Deactivate(DeactivateAll(l, [2], 0, 4), 2, 4) == Deactivate(l, 2, 4);
    assert RevertTargets(l, 2, Strict) == [2];
    assert ApplyPrefix(l, LATE_REVERT, 4, 1) ==
             ApplyCommand(ApplyPrefix(l, LATE_REVERT, 4, 0), 4, 4, Revert(2, Strict));
  }

  /** Reverting a superseded resolution moves its decision's end: at version 3 it did not hold, later it did. */
  lemma {:induction false} LateRevertRewritesHistory()
    ensures var log := [EVIDENCE, FIRST_ANSWER, SECOND_ANSWER, LATE_REVERT];
            && ValidLog(log)
            && 1 in State(log, 3).decisions && !State(log, 3).decisions[1].validity.Contains(3)
            && 1 in State(log, 4).decisions && State(log, 4).decisions[1].validity.Contains(3)
  {
    hide Apply, Accepted;
    var log := [EVIDENCE, FIRST_ANSWER, SECOND_ANSWER, LATE_REVERT];
    Persisted(log);
    Answers(State(log, 1));
    assert State(log, 2) == Apply(State(log, 1), FIRST_ANSWER, 2);
    assert State(log, 3) == Apply(State(log, 2), SECOND_ANSWER, 3);
    assert State(log, 4) == Apply(State(log, 3), LATE_REVERT, 4);
    LateRevertAccepted(State(log, 3));
    LateRevertApplied(State(log, 3));
    forall k {:trigger State(log, k)} | 0 <= k < 4 ensures Accepted(State(log, k), log[k]) {
      if k == 0 {} else if k == 1 {} else if k == 2 {} else { assert k == 3; }
    }
  }

  // ----- two receipts in one batch -----

  const OWED := Envelope(2, 1, 2, 0, [], [Resolution(1, 2), EnqueueMaterialization(7, 1, Triggers(1, 1))])

  const RECEIPTS := Envelope(3, 2, 3, 0, [], [Materialized(7, 1), Materialized(7, 1)])

  lemma {:induction false} OwedAccepted(l: Ledger)
    requires HoldsEvidence(l)
    ensures Accepted(l, OWED)
  {
    assert CheckPrefix(l, 2, OWED.commands, 0) == Ok(NOTHING_PENDING);
    var p := CheckCommand(l, NOTHING_PENDING, 2, Resolution(1, 2));
    assert CheckPrefix(l, 2, OWED.commands, 1) == p && p.Ok?;
    assert CheckPrefix(l, 2, OWED.commands, 2) == CheckCommand(l, p.value, 2, OWED.commands[1]);
    assert FirstInactive(l, []) == None;
  }

  ghost predicate Owing(l: Ledger) {
    && l.version == 2 && l.receipts == [] && l.outbox == map[7 := OutboxEntry(7, 1, Triggers(1, 1), 2, false)]
    && 3 !in l.transactionIndexes && 3 !in l.idempotency
  }

  lemma {:induction false} OwedApplied(l: Ledger)
    requires HoldsEvidence(l)
    ensures Owing(Apply(l, OWED, 2))
  {
    hide Apply;
    TwoCommands(l, OWED, 2);
  }

  lemma {:induction false} ReceiptsCommitted(l: Ledger)
    requires Owing(l)
    ensures Accepted(l, RECEIPTS) && Apply(l, RECEIPTS, 3).receipts == [Receipt(7, 1, 3), Receipt(7, 1, 3)]
  {
    assert CheckPrefix(l, 3, RECEIPTS.commands, 0) == Ok(NOTHING_PENDING);
    assert CheckPrefix(l, 3, RECEIPTS.commands, 1) == Ok(NOTHING_PENDING);
    assert CheckPrefix(l, 3, RECEIPTS.commands, 2) == Ok(NOTHING_PENDING);
    assert FirstInactive(l, []) == None;
    hide Apply;
    TwoCommands(l, RECEIPTS, 3);
  }

  /** Two receipts for one materialization in one batch are both accepted. */
  lemma {:induction false} TwoReceiptsAccepted()
    ensures var log := [EVIDENCE, OWED, RECEIPTS];
            ValidLog(log) && State(log, 3).receipts == [Receipt(7, 1, 3), Receipt(7, 1, 3)]
  {
    hide Apply, Accepted;
    var log := [EVIDENCE, OWED, RECEIPTS];
    Persisted(log);
    OwedAccepted(State(log, 1));
    OwedApplied(State(log, 1));
    assert State(log, 2) == Apply(State(log, 1), OWED, 2);
    ReceiptsCommitted(State(log, 2));
    assert State(log, 3) == Apply(State(log, 2), RECEIPTS, 3);
    forall k {:trigger State(log, k)} | 0 <= k < 3 ensures Accepted(State(log, k), log[k]) {
      if k == 0 {} else if k == 1 {} else { assert k == 2; }
    }
  }
}
