/** Durable inference and decision records: what every state keeps about their lineage and validity. */
module Lineage {
  import opened Types
  import opened LedgerSpec
  import opened LedgerFrames
  import opened LedgerRuns
  import opened Dependencies

  // ----- records -----

  predicate Proper(iv: VersionInterval, v: CommitVersion) {
    1 <= iv.begin <= v && (iv.end.Some? ==> iv.begin < iv.end.value <= v)
  }

  predicate InferenceOk(l: Ledger, i: InferenceId, v: CommitVersion)
    requires i in l.inferences
  {
    l.inferences[i].id == i && Proper(l.inferences[i].validity, v)
  }

  predicate DecisionOk(l: Ledger, d: DecisionId, v: CommitVersion)
    requires d in l.decisions
  {
    && l.decisions[d].id == d && Proper(l.decisions[d].validity, v)
    && l.decisions[d].inference in l.inferences
    && l.decisions[d].validity.begin == l.inferences[l.decisions[d].inference].validity.begin
  }

  /** The records a resolution command committed at version `b` are still there, modulo closing. */
  predicate Committed(l: Ledger, c: Command, b: CommitVersion) {
    c.CommitResolution? ==>
      && c.inference.id in l.inferences && l.inferences[c.inference.id].observation == c.inference.observation
      && l.inferences[c.inference.id].validity.begin == b
      && c.decision.id in l.decisions && l.decisions[c.decision.id].inference == c.inference.id
      && l.decisions[c.decision.id].validity.begin == b
  }

  ghost predicate LogCommitted(l: Ledger, j: nat)
    requires j < |l.transactions|
  {
    forall m {:trigger Committed(l, l.transactions[j].envelope.commands[m], j + 1)} ::
      0 <= m < |l.transactions[j].envelope.commands| ==> Committed(l, l.transactions[j].envelope.commands[m], j + 1)
  }

  ghost predicate Records(l: Ledger, v: CommitVersion) {
    && (forall i {:trigger InferenceOk(l, i, v)} :: i in l.inferences ==> InferenceOk(l, i, v))
    && (forall d {:trigger DecisionOk(l, d, v)} :: d in l.decisions ==> DecisionOk(l, d, v))
    && (forall j {:trigger LogCommitted(l, j)} :: 0 <= j < |l.transactions| ==> LogCommitted(l, j))
  }

  lemma {:induction false} RevisionKeepsRecords(l: Ledger, l': Ledger, v: CommitVersion)
    requires Records(l, v) && Revision(l, l', v)
    ensures Records(l', v)
  {
    hide Submap;
    forall i | i in l'.inferences ensures InferenceOk(l', i, v) {
      assert InferenceOk(l, i, v) && SameInference(l.inferences, l'.inferences, i, v);
    }
    forall d | d in l'.decisions ensures DecisionOk(l', d, v) {
      assert DecisionOk(l, d, v) && SameDecision(l.decisions, l'.decisions, d, v);
      assert SameInference(l.inferences, l'.inferences, l.decisions[d].inference, v);
    }
    forall j | 0 <= j < |l'.transactions| ensures LogCommitted(l', j) {
      assert SameEntry(l.transactions, l'.transactions, j) && LogCommitted(l, j);
      forall m {:trigger Committed(l', l'.transactions[j].envelope.commands[m], j + 1)}
        | 0 <= m < |l'.transactions[j].envelope.commands|
        ensures Committed(l', l'.transactions[j].envelope.commands[m], j + 1)
      {
        CommittedRevised(l, l', l.transactions[j].envelope.commands[m], j + 1, v);
      }
    }
  }

  lemma {:induction false} CommittedRevised(l: Ledger, l': Ledger, c: Command, b: CommitVersion, v: CommitVersion)
    requires Committed(l, c, b) && SameRecords(l, l', v)
    ensures Committed(l', c, b)
  {
    if c.CommitResolution? {
      assert SameInference(l.inferences, l'.inferences, c.inference.id, v);
      assert SameDecision(l.decisions, l'.decisions, c.decision.id, v);
    }
  }

  /** Later bounds are weaker. */
  lemma {:induction false} RecordsLater(l: Ledger, v: CommitVersion, w: CommitVersion)
    requires Records(l, v) && v <= w
    ensures Records(l, w)
  {
    forall i | i in l.inferences ensures InferenceOk(l, i, w) { assert InferenceOk(l, i, v); }
    forall d | d in l.decisions ensures DecisionOk(l, d, w) { assert DecisionOk(l, d, v); }
  }

  /** Records only depend on these fields. */
  lemma {:induction false} SameCoreRecords(l: Ledger, l': Ledger, v: CommitVersion)
    requires Records(l, v)
    requires l'.inferences == l.inferences && l'.decisions == l.decisions && l'.transactions == l.transactions
    ensures Records(l', v)
  {
    forall i | i in l'.inferences ensures InferenceOk(l', i, v) { assert InferenceOk(l, i, v); }
    forall d | d in l'.decisions ensures DecisionOk(l', d, v) { assert DecisionOk(l, d, v); }
    forall j | 0 <= j < |l'.transactions| ensures LogCommitted(l', j) {
      assert LogCommitted(l, j);
      forall m {:trigger Committed(l', l'.transactions[j].envelope.commands[m], j + 1)}
        | 0 <= m < |l'.transactions[j].envelope.commands|
        ensures Committed(l', l'.transactions[j].envelope.commands[m], j + 1)
      {
        assert Committed(l, l.transactions[j].envelope.commands[m], j + 1);
      }
    }
  }

  lemma {:induction false} InsertRecords(l: Ledger, l': Ledger, i: InferenceRecord, d: DecisionRecord, v: CommitVersion)
    requires Records(l, v) && v >= 1
    requires i.id !in l.inferences && d.id !in l.decisions && d.inference == i.id
    requires i.validity == VersionInterval(v, None) && d.validity == VersionInterval(v, None)
    requires l'.inferences == l.inferences[i.id := i] && l'.decisions == l.decisions[d.id := d]
    requires l'.transactions == l.transactions
    ensures Records(l', v)
  {
    forall k | k in l'.inferences ensures InferenceOk(l', k, v) { if k != i.id { assert InferenceOk(l, k, v); } }
    forall k | k in l'.decisions ensures DecisionOk(l', k, v) { if k != d.id { assert DecisionOk(l, k, v); } }
    forall j | 0 <= j < |l'.transactions| ensures LogCommitted(l', j) {
      assert LogCommitted(l, j);
      forall m {:trigger Committed(l', l'.transactions[j].envelope.commands[m], j + 1)}
        | 0 <= m < |l'.transactions[j].envelope.commands|
        ensures Committed(l', l'.transactions[j].envelope.commands[m], j + 1)
      {
        assert Committed(l, l.transactions[j].envelope.commands[m], j + 1);
      }
    }
  }

  // ----- currents -----

  /** A current resolution is one inference with its decision, both open. */
  predicate CurrentOk(l: Ledger, o: ObservationId)
    requires o in l.currentInference
  {
    && o in l.currentDecision
    && l.currentInference[o] in l.inferences && l.currentDecision[o] in l.decisions
    && l.inferences[l.currentInference[o]].observation == o
    && l.decisions[l.currentDecision[o]].inference == l.currentInference[o]
    && l.inferences[l.currentInference[o]].validity.Open()
    && l.decisions[l.currentDecision[o]].validity.Open()
  }

  ghost predicate Currents(l: Ledger) {
    && l.currentDecision.Keys == l.currentInference.Keys
    && forall o {:trigger CurrentOk(l, o)} :: o in l.currentInference ==> CurrentOk(l, o)
  }

  lemma {:induction false} SameCoreCurrents(l: Ledger, l': Ledger)
    requires Currents(l)
    requires l'.inferences == l.inferences && l'.decisions == l.decisions
    requires l'.currentInference == l.currentInference && l'.currentDecision == l.currentDecision
    ensures Currents(l')
  {
    forall o | o in l'.currentInference ensures CurrentOk(l', o) { assert CurrentOk(l, o); }
  }

  /** Records of different observations are different records. */
  lemma {:induction false} CurrentsApart(l: Ledger, o: ObservationId, p: ObservationId)
    requires Currents(l) && o in l.currentInference && p in l.currentInference && o != p
    ensures p in l.currentDecision && o in l.currentDecision
    ensures l.currentInference[o] != l.currentInference[p] && l.currentDecision[o] != l.currentDecision[p]
  {
    assert CurrentOk(l, o) && CurrentOk(l, p);
  }

  lemma {:induction false} ResolveKeepsCurrents(
    l: Ledger, i: InferenceRecord, d: DecisionRecord, created: Option<IdentityId>, v: CommitVersion)
    requires Currents(l) && i.id !in l.inferences && d.id !in l.decisions && d.inference == i.id
    requires i.validity == VersionInterval(v, None) && d.validity == VersionInterval(v, None)
    ensures Currents(Resolve(l, i, d, created, v))
  {
    hide Born;
    var l', o := Resolve(l, i, d, created, v), i.observation;
    forall p | p in l'.currentInference ensures CurrentOk(l', p) {
      if p != o {
        assert CurrentOk(l, p);
        if o in l.currentInference { CurrentsApart(l, o, p); }
      }
    }
  }

  lemma {:induction false} WithdrawKeepsCurrents(l: Ledger, i: InferenceRecord, v: CommitVersion)
    requires Currents(l)
    ensures Currents(Withdraw(l, i, v))
  {
    var o := i.observation;
    if o in l.currentInference && l.currentInference[o] == i.id {
      var l' := Withdraw(l, i, v);
      assert CurrentOk(l, o);
      forall p | p in l'.currentInference ensures CurrentOk(l', p) {
        assert CurrentOk(l, p);
        CurrentsApart(l, o, p);
      }
    }
  }

  lemma {:induction false} CloseDecisionKeepsCurrents(l: Ledger, d: DecisionId, v: CommitVersion)
    requires Currents(l) && forall o :: o in l.currentDecision ==> l.currentDecision[o] != d
    ensures Currents(CloseDecision(l, d, v))
  {
    var l' := CloseDecision(l, d, v);
    forall p | p in l'.currentInference ensures CurrentOk(l', p) { assert CurrentOk(l, p); }
  }

  lemma {:induction false} WithdrawnNotCurrent(l: Ledger, c: Command, b: CommitVersion, v: CommitVersion)
    requires Currents(l) && c.CommitResolution? && Committed(l, c, b)
    ensures var l1 := Withdraw(l, c.inference, v);
            forall o :: o in l1.currentDecision ==> l1.currentDecision[o] != c.decision.id
  {
    hide ClosedDecisions, ClosedInferences;
    var l1 := Withdraw(l, c.inference, v);
    forall o | o in l1.currentDecision ensures l1.currentDecision[o] != c.decision.id {
      assert CurrentOk(l, o);
    }
  }

  lemma {:induction false} OtherDeactivation(l: Ledger, c: Command, v: CommitVersion)
    requires !c.CommitResolution?
    ensures var l' := DeactivateCommand(l, c, v);
            && l'.inferences == l.inferences && l'.decisions == l.decisions
            && l'.currentInference == l.currentInference && l'.currentDecision == l.currentDecision
  {}

  lemma {:induction false} DeactivateCommandKeepsCurrents(l: Ledger, c: Command, b: CommitVersion, v: CommitVersion)
    requires Currents(l) && Committed(l, c, b)
    ensures Currents(DeactivateCommand(l, c, v))
  {
    hide Withdraw, CloseDecision, ClosedIfOpen, Currents, Committed;
    match c
    case CommitResolution(i, d, _) =>
      WithdrawKeepsCurrents(l, i, v);
      WithdrawnNotCurrent(l, c, b, v);
      CloseDecisionKeepsCurrents(Withdraw(l, i, v), d.id, v);
    case _ =>
      OtherDeactivation(l, c, v);
      SameCoreCurrents(l, DeactivateCommand(l, c, v));
  }

  // ----- open records are current -----

  predicate InferenceCurrent(l: Ledger, i: InferenceId)
    requires i in l.inferences
  {
    l.inferences[i].validity.Open() ==>
      l.inferences[i].observation in l.currentInference && l.currentInference[l.inferences[i].observation] == i
  }

  predicate DecisionCurrent(l: Ledger, d: DecisionId)
    requires d in l.decisions && l.decisions[d].inference in l.inferences
  {
    l.decisions[d].validity.Open() ==>
      var o := l.inferences[l.decisions[d].inference].observation;
      o in l.currentDecision && l.currentDecision[o] == d
  }

  ghost predicate OpenCurrent(l: Ledger) {
    && (forall i {:trigger InferenceCurrent(l, i)} :: i in l.inferences ==> InferenceCurrent(l, i))
    && (forall d {:trigger DecisionCurrent(l, d)} :: d in l.decisions && l.decisions[d].inference in l.inferences ==>
          DecisionCurrent(l, d))
  }

  /** Records, currents and, when no observation was ever resolved twice at once, nothing else open. */
  ghost predicate Sound(l: Ledger, v: CommitVersion, single: bool) {
    Records(l, v) && Currents(l) && (single ==> OpenCurrent(l))
  }

  lemma {:induction false} SameCoreOpenCurrent(l: Ledger, l': Ledger)
    requires OpenCurrent(l)
    requires l'.inferences == l.inferences && l'.decisions == l.decisions
    requires l'.currentInference == l.currentInference && l'.currentDecision == l.currentDecision
    ensures OpenCurrent(l')
  {
    forall i | i in l'.inferences ensures InferenceCurrent(l', i) { assert InferenceCurrent(l, i); }
    forall d | d in l'.decisions && l'.decisions[d].inference in l'.inferences ensures DecisionCurrent(l', d) {
      assert DecisionCurrent(l, d);
    }
  }

  lemma {:induction false} SameCoreSound(l: Ledger, l': Ledger, v: CommitVersion, single: bool)
    requires Sound(l, v, single)
    requires l'.inferences == l.inferences && l'.decisions == l.decisions && l'.transactions == l.transactions
    requires l'.currentInference == l.currentInference && l'.currentDecision == l.currentDecision
    ensures Sound(l', v, single)
  {
    hide Records, Currents, OpenCurrent;
    SameCoreRecords(l, l', v);
    SameCoreCurrents(l, l');
    if single { SameCoreOpenCurrent(l, l'); }
  }

  /** Withdrawing an older resolution closes what was open for its observation. */
  lemma {:induction false} WithdrawKeepsOpenCurrent(l: Ledger, i: InferenceRecord, v: CommitVersion)
    requires Records(l, v) && Currents(l) && OpenCurrent(l)
    requires i.id in l.inferences && l.inferences[i.id].validity.begin < v
    requires l.inferences[i.id].observation == i.observation
    ensures OpenCurrent(Withdraw(l, i, v))
  {
    var o, l' := i.observation, Withdraw(l, i, v);
    if o in l.currentInference && l.currentInference[o] == i.id {
      assert CurrentOk(l, o) && DecisionOk(l, l.currentDecision[o], v);
      forall k | k in l'.inferences ensures InferenceCurrent(l', k) {
        assert InferenceCurrent(l, k);
      }
      forall d | d in l'.decisions && l'.decisions[d].inference in l'.inferences ensures DecisionCurrent(l', d) {
        assert DecisionCurrent(l, d);
      }
    }
  }

  lemma {:induction false} CloseDecisionKeepsOpenCurrent(l: Ledger, d: DecisionId, v: CommitVersion)
    requires OpenCurrent(l)
    ensures OpenCurrent(CloseDecision(l, d, v))
  {
    var l' := CloseDecision(l, d, v);
    forall i | i in l'.inferences ensures InferenceCurrent(l', i) { assert InferenceCurrent(l, i); }
    forall k | k in l'.decisions && l'.decisions[k].inference in l'.inferences ensures DecisionCurrent(l', k) {
      assert DecisionCurrent(l, k);
    }
  }

  /** A resolution closes the observation's current records first, unless they are from this very batch. */
  lemma {:induction false} ResolveKeepsOpenCurrent(
    l: Ledger, i: InferenceRecord, d: DecisionRecord, created: Option<IdentityId>, v: CommitVersion)
    requires Records(l, v) && Currents(l) && OpenCurrent(l)
    requires i.id !in l.inferences && d.id !in l.decisions && d.inference == i.id
    requires i.observation in l.currentInference ==>
               && l.currentInference[i.observation] in l.inferences
               && l.inferences[l.currentInference[i.observation]].validity.begin < v
    ensures OpenCurrent(Resolve(l, i, d, created, v))
  {
    hide Born;
    var o, l' := i.observation, Resolve(l, i, d, created, v);
    if o in l.currentInference { assert CurrentOk(l, o) && DecisionOk(l, l.currentDecision[o], v); }
    forall k | k in l'.inferences ensures InferenceCurrent(l', k) {
      if k != i.id { assert InferenceCurrent(l, k); }
    }
    forall k | k in l'.decisions && l'.decisions[k].inference in l'.inferences ensures DecisionCurrent(l', k) {
      if k != d.id { assert DecisionOk(l, k, v) && DecisionCurrent(l, k); }
    }
  }

  lemma {:induction false} ResolveKeepsSound(
    l: Ledger, i: InferenceRecord, d: DecisionRecord, created: Option<IdentityId>, v: CommitVersion, single: bool)
    requires Sound(l, v, single) && v >= 1 && i.id !in l.inferences && d.id !in l.decisions && d.inference == i.id
    requires i.validity == VersionInterval(v, None) && d.validity == VersionInterval(v, None)
    requires single && i.observation in l.currentInference ==>
               && l.currentInference[i.observation] in l.inferences
               && l.inferences[l.currentInference[i.observation]].validity.begin < v
    ensures Sound(Resolve(l, i, d, created, v), v, single)
  {
    hide Records, Currents, OpenCurrent, Revision, Born, CurrentClosedInferences, CurrentClosedDecisions;
    CloseCurrentRevises(l, i.observation, v);
    RevisionKeepsRecords(l, CloseCurrent(l, i.observation, v), v);
    CurrentClosedKeys(l, i.observation, v);
    InsertRecords(CloseCurrent(l, i.observation, v), Resolve(l, i, d, created, v), i, d, v);
    ResolveKeepsCurrents(l, i, d, created, v);
    if single { ResolveKeepsOpenCurrent(l, i, d, created, v); }
  }

  // ----- reverting keeps it all -----

  lemma {:induction false} DeactivateCommandKeepsSound(
    l: Ledger, c: Command, b: CommitVersion, v: CommitVersion, single: bool)
    requires Sound(l, v, single) && Committed(l, c, b) && b < v
    ensures Sound(DeactivateCommand(l, c, v), v, single)
  {
    hide Records, Currents, OpenCurrent, Withdraw, CloseDecision, ClosedIfOpen, Revision;
    DeactivateCommandRevises(l, c, v);
    RevisionKeepsRecords(l, DeactivateCommand(l, c, v), v);
    DeactivateCommandKeepsCurrents(l, c, b, v);
    if single {
      match c
      case CommitResolution(i, d, _) =>
        WithdrawKeepsOpenCurrent(l, i, v);
        CloseDecisionKeepsOpenCurrent(Withdraw(l, i, v), d.id, v);
      case _ => SameCoreOpenCurrent(l, DeactivateCommand(l, c, v));
    }
  }

  ghost predicate AllCommitted(l: Ledger, commands: seq<Command>, b: CommitVersion) {
    forall m {:trigger Committed(l, commands[m], b)} :: 0 <= m < |commands| ==> Committed(l, commands[m], b)
  }

  lemma {:induction false} DeactivateCommandsKeepSound(
    l: Ledger, commands: seq<Command>, n: nat, b: CommitVersion, v: CommitVersion, single: bool)
    requires Sound(l, v, single) && b < v && n <= |commands|
    requires AllCommitted(l, commands, b)
    ensures Sound(DeactivateCommands(l, commands, n, v), v, single)
  {
    hide Sound, Committed, DeactivateCommand, SameRecords;
    if n > 0 {
      DeactivateCommandsKeepSound(l, commands, n - 1, b, v, single);
      var l1 := DeactivateCommands(l, commands, n - 1, v);
      DeactivateCommandsRevises(l, commands, n - 1, v);
      assert Committed(l, commands[n - 1], b);
      CommittedRevised(l, l1, commands[n - 1], b, v);
      DeactivateCommandKeepsSound(l1, commands[n - 1], b, v, single);
    }
  }

  lemma {:induction false} CommittedCommands(l: Ledger, j: nat, commands: seq<Command>)
    requires j < |l.transactions| && LogCommitted(l, j) && commands == l.transactions[j].envelope.commands
    ensures AllCommitted(l, commands, j + 1)
  {
    hide Committed;
  }

  lemma {:induction false} DeactivateKeepsSound(l: Ledger, t: TransactionId, v: CommitVersion, single: bool)
    requires Sound(l, v, single) && WellIndexed(l) && v > |l.transactions|
    ensures Sound(Deactivate(l, t, v), v, single)
  {
    hide DeactivateCommands, RebuiltStatus, Currents, OpenCurrent, InferenceOk, DecisionOk, Committed;
    if t in l.transactionIndexes {
      var j := l.transactionIndexes[t];
      var commands := l.transactions[j].envelope.commands;
      var l1 := l.(transactions := l.transactions[j := l.transactions[j].(active := false)]);
      ClearActiveRevises(l, j, v);
      RevisionKeepsRecords(l, l1, v);
      SameCoreCurrents(l, l1);
      if single { SameCoreOpenCurrent(l, l1); }
      assert LogCommitted(l1, j);
      CommittedCommands(l1, j, commands);
      DeactivateCommandsKeepSound(l1, commands, |commands|, j + 1, v, single);
      var l2 := DeactivateCommands(l1, commands, |commands|, v);
      SameCoreSound(l2, Rebuilt(l2), v, single);
    }
  }

  lemma {:induction false} DeactivateAllKeepsSound(
    l: Ledger, targets: seq<TransactionId>, n: nat, v: CommitVersion, single: bool)
    requires Sound(l, v, single) && WellIndexed(l) && v > |l.transactions| && n <= |targets|
    ensures Sound(DeactivateAll(l, targets, n, v), v, single)
  {
    hide Sound, Deactivate, WellIndexed, SameRecords;
    if n > 0 {
      DeactivateAllKeepsSound(l, targets, n - 1, v, single);
      DeactivateAllRevises(l, targets, n - 1, v);
      SameLogWellIndexed(l, DeactivateAll(l, targets, n - 1, v));
      DeactivateKeepsSound(DeactivateAll(l, targets, n - 1, v), targets[n - 1], v, single);
    }
  }

  lemma {:induction false} RevertKeepsSound(
    l: Ledger, t: TransactionId, mode: RevertMode, v: CommitVersion, single: bool)
    requires Sound(l, v, single) && WellIndexed(l) && v > |l.transactions|
    ensures Sound(RevertTransaction(l, t, mode, v), v, single)
  {
    hide Sound, DeactivateAll, WellIndexed, Closure;
    if mode != Compensating {
      var targets := RevertTargets(l, t, mode);
      DeactivateAllKeepsSound(l, targets, |targets|, v, single);
    }
  }

  lemma {:induction false} PlainCommandCore(l: Ledger, t: TransactionId, v: CommitVersion, c: Command)
    requires !c.Revert? && !c.CommitResolution?
    ensures var l' := ApplyCommand(l, t, v, c);
            && l'.inferences == l.inferences && l'.decisions == l.decisions && l'.transactions == l.transactions
            && l'.currentInference == l.currentInference && l'.currentDecision == l.currentDecision
  {
    hide MergedStatuses, Completed, RebuiltStatus, Reopen;
    match c
    case Split(plan) => CloseMergesFlags(l, plan.closeMerges, |plan.closeMerges|, v);
    case _ =>
  }
}
