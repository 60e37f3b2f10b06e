/** Historical queries: the decision valid at an earlier version is the decision that was current then,
    exactly in the runs that never resolve an observation twice in one batch and never revert a
    transaction with an already closed decision. */
module AsOf {
  import opened Types
  import opened LedgerSpec
  import opened LedgerFrames
  import opened LedgerRuns
  import opened Dependencies
  import opened Lineage
  import opened History

  // ----- which closed decisions a batch closes again -----

  ghost predicate NotCurrent(l: Ledger, d: DecisionId) {
    forall o :: o in l.currentDecision ==> l.currentDecision[o] != d
  }

  ghost predicate NotCurrentInference(l: Ledger, i: InferenceId) {
    forall o :: o in l.currentInference ==> l.currentInference[o] != i
  }

  predicate Resolves(c: Command, d: DecisionId) { c.CommitResolution? && c.decision.id == d }

  ghost predicate OwnedBy(commands: seq<Command>, n: nat, d: DecisionId)
    requires n <= |commands|
  {
    exists q {:trigger Resolves(commands[q], d)} :: 0 <= q < n && Resolves(commands[q], d)
  }

  ghost predicate Owns(l: Ledger, t: TransactionId, d: DecisionId) {
    && t in l.transactionIndexes && l.transactionIndexes[t] < |l.transactions|
    && var commands := l.transactions[l.transactionIndexes[t]].envelope.commands; OwnedBy(commands, |commands|, d)
  }

  ghost predicate OneOwns(l: Ledger, targets: seq<TransactionId>, n: nat, d: DecisionId)
    requires n <= |targets|
  {
    exists q {:trigger Owns(l, targets[q], d)} :: 0 <= q < n && Owns(l, targets[q], d)
  }

  ghost predicate RevertOwns(l: Ledger, c: Command, d: DecisionId) {
    && c.Revert? && c.mode != Compensating
    && var targets := RevertTargets(l, c.transaction, c.mode); OneOwns(l, targets, |targets|, d)
  }

  /** Some revert among the first `m` commands deactivates the transaction that decided `d`. */
  ghost predicate BatchOwns(l: Ledger, commands: seq<Command>, m: nat, d: DecisionId)
    requires m <= |commands|
  {
    exists p {:trigger RevertOwns(l, commands[p], d)} :: 0 <= p < m && RevertOwns(l, commands[p], d)
  }

  /** Every decision the batch's reverts deactivate is still open when the commit begins. */
  ghost predicate RevertsOpen(l: Ledger, e: Envelope) {
    forall d :: d in l.decisions && BatchOwns(l, e.commands, |e.commands|, d) ==> l.decisions[d].validity.Open()
  }

  /** The only thing that happened to `d`: it was closed at `v` if `hit`, else nothing. */
  predicate Touched(l: Ledger, l': Ledger, d: DecisionId, hit: bool, v: CommitVersion) {
    && d in l.decisions && d in l'.decisions
    && (hit ==> l'.decisions[d].validity == l.decisions[d].validity.ClosedAt(v))
    && (!hit ==> l'.decisions[d].validity == l.decisions[d].validity)
  }

  lemma {:induction false} DeactivateCommandTouches(l: Ledger, c: Command, v: CommitVersion, d: DecisionId)
    requires d in l.decisions && NotCurrent(l, d)
    ensures Touched(l, DeactivateCommand(l, c, v), d, Resolves(c, d), v)
    ensures NotCurrent(DeactivateCommand(l, c, v), d)
  {
    hide ClosedIfOpen, Withdraw, CloseDecision, NotCurrent;
    if c.CommitResolution? {
      WithdrawTouches(l, c.inference, v, d);
      CloseTouches(Withdraw(l, c.inference, v), c.decision.id, v, d);
    } else {
      SameTouches(l, DeactivateCommand(l, c, v), d, v);
    }
  }

  lemma {:induction false} SameTouches(l: Ledger, l': Ledger, d: DecisionId, v: CommitVersion)
    requires d in l.decisions && NotCurrent(l, d)
    requires l'.decisions == l.decisions && l'.currentDecision == l.currentDecision
    ensures Touched(l, l', d, false, v) && NotCurrent(l', d)
  {}

  lemma {:induction false} CloseTouches(l: Ledger, x: DecisionId, v: CommitVersion, d: DecisionId)
    requires d in l.decisions && NotCurrent(l, d)
    ensures Touched(l, CloseDecision(l, x, v), d, x == d, v) && NotCurrent(CloseDecision(l, x, v), d)
  {}

  lemma {:induction false} WithdrawTouches(l: Ledger, i: InferenceRecord, v: CommitVersion, d: DecisionId)
    requires d in l.decisions && NotCurrent(l, d)
    ensures Touched(l, Withdraw(l, i, v), d, false, v) && NotCurrent(Withdraw(l, i, v), d)
  {
    hide CurrentClosedInferences;
    if i.observation in l.currentInference && l.currentInference[i.observation] == i.id {
      var l1 := CloseCurrent(l, i.observation, v);
      assert Touched(l, l1, d, false, v);
    }
  }

  lemma {:induction false} DeactivateCommandsTouch(
    l: Ledger, commands: seq<Command>, n: nat, v: CommitVersion, d: DecisionId)
    requires d in l.decisions && NotCurrent(l, d) && n <= |commands|
    ensures Touched(l, DeactivateCommands(l, commands, n, v), d, OwnedBy(commands, n, d), v)
    ensures NotCurrent(DeactivateCommands(l, commands, n, v), d)
  {
    hide NotCurrent, DeactivateCommand, Resolves;
    if n > 0 {
      DeactivateCommandsTouch(l, commands, n - 1, v, d);
      DeactivateCommandTouches(DeactivateCommands(l, commands, n - 1, v), commands[n - 1], v, d);
      assert OwnedBy(commands, n, d) <==> OwnedBy(commands, n - 1, d) || Resolves(commands[n - 1], d);
    }
  }

  lemma {:induction false} DeactivateTouches(l: Ledger, t: TransactionId, v: CommitVersion, d: DecisionId)
    requires d in l.decisions && NotCurrent(l, d)
    ensures Touched(l, Deactivate(l, t, v), d, Owns(l, t, d), v)
    ensures NotCurrent(Deactivate(l, t, v), d)
  {
    hide DeactivateCommands, RebuiltStatus, OwnedBy;
    if t in l.transactionIndexes && l.transactionIndexes[t] < |l.transactions| {
      var index := l.transactionIndexes[t];
      var l1 := l.(transactions := l.transactions[index := l.transactions[index].(active := false)]);
      var commands := l.transactions[index].envelope.commands;
      DeactivateCommandsTouch(l1, commands, |commands|, v, d);
    }
  }

  lemma {:induction false} SameOwner(l: Ledger, l': Ledger, t: TransactionId, d: DecisionId)
    requires SameLog(l, l')
    ensures Owns(l', t, d) <==> Owns(l, t, d)
  {
    hide OwnedBy;
    if t in l.transactionIndexes && l.transactionIndexes[t] < |l.transactions| {
      assert SameEntry(l.transactions, l'.transactions, l.transactionIndexes[t]);
    }
  }

  lemma {:induction false} DeactivateAllTouches(
    l: Ledger, targets: seq<TransactionId>, n: nat, v: CommitVersion, d: DecisionId)
    requires d in l.decisions && NotCurrent(l, d) && n <= |targets|
    ensures Touched(l, DeactivateAll(l, targets, n, v), d, OneOwns(l, targets, n, d), v)
    ensures NotCurrent(DeactivateAll(l, targets, n, v), d)
  {
    hide NotCurrent, Deactivate, Owns, SameEntry, SameRecords;
    if n > 0 {
      DeactivateAllTouches(l, targets, n - 1, v, d);
      var l1 := DeactivateAll(l, targets, n - 1, v);
      DeactivateAllRevises(l, targets, n - 1, v);
      SameOwner(l, l1, targets[n - 1], d);
      DeactivateTouches(l1, targets[n - 1], v, d);
      assert OneOwns(l, targets, n, d) <==> OneOwns(l, targets, n - 1, d) || Owns(l, targets[n - 1], d);
    }
  }

  lemma {:induction false} RevertTouches(l: Ledger, now: Ledger, c: Command, v: CommitVersion, d: DecisionId)
    requires d in now.decisions && NotCurrent(now, d) && SameLog(l, now) && c.Revert?
    ensures var next := RevertTransaction(now, c.transaction, c.mode, v);
            Touched(now, next, d, RevertOwns(l, c, d), v) && NotCurrent(next, d)
  {
    hide NotCurrent, DeactivateAll, Owns, Closure, SameEntry;
    if c.mode != Compensating {
      var targets := RevertTargets(now, c.transaction, c.mode);
      DeactivateAllTouches(now, targets, |targets|, v, d);
      assert OneOwns(now, targets, |targets|, d) <==> OneOwns(l, targets, |targets|, d) by {
        forall q | 0 <= q < |targets| ensures Owns(now, targets[q], d) <==> Owns(l, targets[q], d) {
          SameOwner(l, now, targets[q], d);
        }
      }
    }
  }

  lemma {:induction false} ResolveTouches(
    l: Ledger, i: InferenceRecord, x: DecisionRecord, created: Option<IdentityId>, v: CommitVersion, d: DecisionId)
    requires d in l.decisions && NotCurrent(l, d) && x.id !in l.decisions
    ensures Touched(l, Resolve(l, i, x, created, v), d, false, v) && NotCurrent(Resolve(l, i, x, created, v), d)
  {
    hide Born, CurrentClosedInferences;
  }

  lemma {:induction false} TouchedTransitive(
    a: Ledger, b: Ledger, c: Ledger, d: DecisionId, first: bool, second: bool, v: CommitVersion)
    requires Touched(a, b, d, first, v) && Touched(b, c, d, second, v)
    ensures Touched(a, c, d, first || second, v)
  {}

  /** Across a batch, a decision that was not current is closed again exactly when a revert owns it. */
  lemma {:induction false} BatchTouches(l: Ledger, e: Envelope, v: CommitVersion, m: nat, d: DecisionId)
    requires Applicable(l, e, v) && m <= |e.commands| && d in l.decisions && NotCurrent(l, d)
    ensures Touched(l, ApplyPrefix(l, e, v, m), d, BatchOwns(l, e.commands, m, d), v)
    ensures NotCurrent(ApplyPrefix(l, e, v, m), d)
  {
    hide NotCurrent, RevertOwns, Applicable, Ready, SameLog, Touched, ApplyCommand;
    if m == 0 {
      StartTouched(l, e, v, d);
    } else {
      BatchTouches(l, e, v, m - 1, d);
      var now, c := ApplyPrefix(l, e, v, m - 1), e.commands[m - 1];
      ReadyAt(l, e, v, m - 1);
      assert BatchOwns(l, e.commands, m, d) <==> BatchOwns(l, e.commands, m - 1, d) || RevertOwns(l, c, d);
      assert d in now.decisions by { TouchedKnown(l, now, d, BatchOwns(l, e.commands, m - 1, d), v); }
      CommandTouches(l, now, c, e.transaction, v, d);
      TouchedTransitive(l, now, ApplyCommand(now, e.transaction, v, c), d, BatchOwns(l, e.commands, m - 1, d),
                        RevertOwns(l, c, d), v);
    }
  }

  lemma {:induction false} StartTouched(l: Ledger, e: Envelope, v: CommitVersion, d: DecisionId)
    requires d in l.decisions
    ensures Touched(l, l, d, BatchOwns(l, e.commands, 0, d), v)
  {}

  lemma {:induction false} TouchedKnown(l: Ledger, now: Ledger, d: DecisionId, hit: bool, v: CommitVersion)
    requires Touched(l, now, d, hit, v)
    ensures d in now.decisions
  {}

  lemma {:induction false} CommandTouches(
    l: Ledger, now: Ledger, c: Command, t: TransactionId, v: CommitVersion, d: DecisionId)
    requires SameLog(l, now) && Ready(now, v, c) && d in now.decisions && NotCurrent(now, d)
    ensures Touched(now, ApplyCommand(now, t, v, c), d, RevertOwns(l, c, d), v)
    ensures NotCurrent(ApplyCommand(now, t, v, c), d)
  {
    hide SameLog, OneOwns, Resolve, RevertTransaction, RevertTargets;
    if c.Revert? {
      RevertTouches(l, now, c, v, d);
    } else if c.CommitResolution? {
      ResolveTouches(now, c.inference, c.decision, c.created, v, d);
    } else {
      PlainCommandCore(now, t, v, c);
    }
  }

  // ----- closed inferences are never touched again -----

  predicate InferenceKept(l: Ledger, l': Ledger, i: InferenceId) {
    i in l.inferences && i in l'.inferences && l'.inferences[i] == l.inferences[i]
  }

  lemma {:induction false} DeactivateCommandKeepsInference(l: Ledger, c: Command, v: CommitVersion, i: InferenceId)
    requires i in l.inferences && NotCurrentInference(l, i)
    ensures InferenceKept(l, DeactivateCommand(l, c, v), i) && NotCurrentInference(DeactivateCommand(l, c, v), i)
  {
    hide Withdraw, CloseDecision;
    if c.CommitResolution? {
      WithdrawKeepsInference(l, c.inference, v, i);
      CloseDecisionKeepsInferences(Withdraw(l, c.inference, v), c.decision.id, v);
    } else {
      hide DeactivateCommand;
      OtherDeactivationsKeepInferences(l, c, v);
    }
  }

  lemma {:induction false} OtherDeactivationsKeepInferences(l: Ledger, c: Command, v: CommitVersion)
    requires !c.CommitResolution?
    ensures var now := DeactivateCommand(l, c, v);
            now.inferences == l.inferences && now.currentInference == l.currentInference
  {
    hide ClosedIfOpen;
  }

  lemma {:induction false} CloseDecisionKeepsInferences(l: Ledger, d: DecisionId, v: CommitVersion)
    ensures var now := CloseDecision(l, d, v);
            now.inferences == l.inferences && now.currentInference == l.currentInference
  {}

  lemma {:induction false} WithdrawKeepsInference(l: Ledger, k: InferenceRecord, v: CommitVersion, i: InferenceId)
    requires i in l.inferences && NotCurrentInference(l, i)
    ensures InferenceKept(l, Withdraw(l, k, v), i) && NotCurrentInference(Withdraw(l, k, v), i)
  {
    hide CurrentClosedDecisions;
    if k.observation in l.currentInference && l.currentInference[k.observation] == k.id {
      var l1 := CloseCurrent(l, k.observation, v);
      assert InferenceKept(l, l1, i);
    }
  }

  lemma {:induction false} DeactivateCommandsKeepInference(
    l: Ledger, commands: seq<Command>, n: nat, v: CommitVersion, i: InferenceId)
    requires i in l.inferences && NotCurrentInference(l, i) && n <= |commands|
    ensures InferenceKept(l, DeactivateCommands(l, commands, n, v), i)
    ensures NotCurrentInference(DeactivateCommands(l, commands, n, v), i)
  {
    hide NotCurrentInference, DeactivateCommand;
    if n > 0 {
      DeactivateCommandsKeepInference(l, commands, n - 1, v, i);
      DeactivateCommandKeepsInference(DeactivateCommands(l, commands, n - 1, v), commands[n - 1], v, i);
    }
  }

  lemma {:induction false} DeactivateKeepsInference(l: Ledger, t: TransactionId, v: CommitVersion, i: InferenceId)
    requires i in l.inferences && NotCurrentInference(l, i)
    ensures InferenceKept(l, Deactivate(l, t, v), i) && NotCurrentInference(Deactivate(l, t, v), i)
  {
    hide DeactivateCommands, RebuiltStatus;
    if t in l.transactionIndexes && l.transactionIndexes[t] < |l.transactions| {
      var index := l.transactionIndexes[t];
      var l1 := l.(transactions := l.transactions[index := l.transactions[index].(active := false)]);
      var commands := l.transactions[index].envelope.commands;
      DeactivateCommandsKeepInference(l1, commands, |commands|, v, i);
    }
  }

  lemma {:induction false} DeactivateAllKeepsInference(
    l: Ledger, targets: seq<TransactionId>, n: nat, v: CommitVersion, i: InferenceId)
    requires i in l.inferences && NotCurrentInference(l, i) && n <= |targets|
    ensures InferenceKept(l, DeactivateAll(l, targets, n, v), i)
    ensures NotCurrentInference(DeactivateAll(l, targets, n, v), i)
  {
    hide NotCurrentInference, Deactivate;
    if n > 0 {
      DeactivateAllKeepsInference(l, targets, n - 1, v, i);
      DeactivateKeepsInference(DeactivateAll(l, targets, n - 1, v), targets[n - 1], v, i);
    }
  }

  lemma {:induction false} BatchKeepsInference(l: Ledger, e: Envelope, v: CommitVersion, m: nat, i: InferenceId)
    requires Applicable(l, e, v) && m <= |e.commands| && i in l.inferences && NotCurrentInference(l, i)
    ensures InferenceKept(l, ApplyPrefix(l, e, v, m), i) && NotCurrentInference(ApplyPrefix(l, e, v, m), i)
  {
    hide NotCurrentInference, Applicable, Ready, SameLog, ApplyCommand;
    if m > 0 {
      BatchKeepsInference(l, e, v, m - 1, i);
      ReadyAt(l, e, v, m - 1);
      CommandKeepsInference(ApplyPrefix(l, e, v, m - 1), e.commands[m - 1], e.transaction, v, i);
    }
  }

  lemma {:induction false} CommandKeepsInference(
    now: Ledger, c: Command, t: TransactionId, v: CommitVersion, i: InferenceId)
    requires Ready(now, v, c) && i in now.inferences && NotCurrentInference(now, i)
    ensures InferenceKept(now, ApplyCommand(now, t, v, c), i) && NotCurrentInference(ApplyCommand(now, t, v, c), i)
  {
    hide DeactivateAll, RevertTargets, Born, CurrentClosedDecisions;
    if c.Revert? {
      if c.mode != Compensating {
        var targets := RevertTargets(now, c.transaction, c.mode);
        DeactivateAllKeepsInference(now, targets, |targets|, v, i);
      }
    } else if c.CommitResolution? {
      assert ApplyCommand(now, t, v, c) == Resolve(now, c.inference, c.decision, c.created, v);
    } else {
      PlainCommandCore(now, t, v, c);
    }
  }

  // ----- queries -----

  predicate Concerns(l: Ledger, d: DecisionId, o: ObservationId)
    requires d in l.decisions
  {
    l.decisions[d].inference in l.inferences && l.inferences[l.decisions[d].inference].observation == o
  }

  /** Decisions for `o` whose durable interval contains `c`: what the historical query chooses from. */
  ghost function DecisionsAsOf(l: Ledger, o: ObservationId, c: CommitVersion): set<DecisionId> {
    set d | d in l.decisions && Concerns(l, d, o) && l.decisions[d].validity.Contains(c)
  }

  ghost function InferencesAsOf(l: Ledger, o: ObservationId, c: CommitVersion): set<InferenceId> {
    set i | i in l.inferences && l.inferences[i].observation == o && l.inferences[i].validity.Contains(c)
  }

  function CurrentDecisions(l: Ledger, o: ObservationId): set<DecisionId> {
    if o in l.currentDecision then {l.currentDecision[o]} else {}
  }

  function CurrentInferences(l: Ledger, o: ObservationId): set<InferenceId> {
    if o in l.currentInference then {l.currentInference[o]} else {}
  }

  ghost predicate DecisionFaithful(log: seq<Envelope>, n: nat, c: nat, o: ObservationId)
    requires c <= n <= |log|
  {
    DecisionsAsOf(State(log, n), o, c) == CurrentDecisions(State(log, c), o)
  }

  ghost predicate InferenceFaithful(log: seq<Envelope>, n: nat, c: nat, o: ObservationId)
    requires c <= n <= |log|
  {
    InferencesAsOf(State(log, n), o, c) == CurrentInferences(State(log, c), o)
  }

  /** Asked after `n` commits, every query about an earlier version answers what was current then. */
  ghost predicate DecisionHistory(log: seq<Envelope>, n: nat)
    requires n <= |log|
  {
    forall c, o {:trigger DecisionFaithful(log, n, c, o)} :: 0 <= c <= n ==> DecisionFaithful(log, n, c, o)
  }

  ghost predicate InferenceHistory(log: seq<Envelope>, n: nat)
    requires n <= |log|
  {
    forall c, o {:trigger InferenceFaithful(log, n, c, o)} :: 0 <= c <= n ==> InferenceFaithful(log, n, c, o)
  }

  /** What a commit does to the records: closings and openings at its version, nothing else. */
  lemma {:induction false} CommitGrows(log: seq<Envelope>, k: nat)
    requires ValidLog(log) && k < |log|
    ensures Grown(State(log, k), State(log, k + 1), k + 1)
    ensures Records(State(log, k), k) && Records(State(log, k + 1), k + 1)
    ensures Currents(State(log, k)) && Currents(State(log, k + 1))
  {
    hide State, Accepted, Applicable, Validate, Sound, WellIndexed, Grown, Records, Currents, AddDependents,
         ApplyPrefix;
    var e := log[k];
    BatchResult(log, k, false);
    StateSound(log, k, false);
    StateSound(log, k + 1, false);
    SoundParts(State(log, k), k, false);
    SoundParts(State(log, k + 1), k + 1, false);
    var now := ApplyPrefix(State(log, k), e, k + 1, |e.commands|);
    MidBatchGrown(State(log, k), now, State(log, k + 1), e.commands, k + 1);
  }

  lemma {:induction false} SoundParts(l: Ledger, v: CommitVersion, single: bool)
    requires Sound(l, v, single)
    ensures Records(l, v) && Currents(l) && (single ==> OpenCurrent(l))
  {}

  lemma {:induction false} MidBatchGrown(l: Ledger, now: Ledger, next: Ledger, commands: seq<Command>, v: CommitVersion)
    requires MidBatch(l, now, commands, |commands|, v, false)
    requires next.inferences == now.inferences && next.decisions == now.decisions
    requires next.currentInference == now.currentInference
    ensures Grown(l, next, v)
  {
    hide Grown, Sound, WellIndexed, Ages, BatchCommitted;
    CoreOnly(l, now, next, commands, |commands|, v);
  }

  /** A later commit never takes a version out of a record's interval. */
  lemma {:induction false} AsOfGrows(log: seq<Envelope>, k: nat, c: nat, o: ObservationId)
    requires ValidLog(log) && c <= k < |log|
    ensures DecisionsAsOf(State(log, k), o, c) <= DecisionsAsOf(State(log, k + 1), o, c)
    ensures InferencesAsOf(State(log, k), o, c) <= InferencesAsOf(State(log, k + 1), o, c)
  {
    hide State, Accepted, Currents;
    var l, l' := State(log, k), State(log, k + 1);
    CommitGrows(log, k);
    forall d | d in DecisionsAsOf(l, o, c) ensures d in DecisionsAsOf(l', o, c) {
      assert SameDecision(l.decisions, l'.decisions, d, k + 1);
      assert SameInference(l.inferences, l'.inferences, l.decisions[d].inference, k + 1);
    }
    forall i | i in InferencesAsOf(l, o, c) ensures i in InferencesAsOf(l', o, c) {
      assert SameInference(l.inferences, l'.inferences, i, k + 1);
    }
  }

  /** What is current after a commit is valid as of that commit. */
  lemma {:induction false} CurrentIsAsOf(log: seq<Envelope>, c: nat, o: ObservationId)
    requires ValidLog(log) && c <= |log|
    ensures CurrentDecisions(State(log, c), o) <= DecisionsAsOf(State(log, c), o, c)
    ensures CurrentInferences(State(log, c), o) <= InferencesAsOf(State(log, c), o, c)
  {
    hide State, Accepted;
    var l := State(log, c);
    StateSound(log, c, false);
    if o in l.currentInference {
      assert CurrentOk(l, o) && DecisionOk(l, l.currentDecision[o], c) && InferenceOk(l, l.currentInference[o], c);
    }
  }

  lemma {:induction false} CurrentStaysAsOf(log: seq<Envelope>, n: nat, c: nat, o: ObservationId)
    requires ValidLog(log) && c <= n <= |log|
    ensures CurrentDecisions(State(log, c), o) <= DecisionsAsOf(State(log, n), o, c)
    ensures CurrentInferences(State(log, c), o) <= InferencesAsOf(State(log, n), o, c)
    decreases n
  {
    hide State, Accepted, DecisionsAsOf, InferencesAsOf, CurrentDecisions, CurrentInferences;
    if n == c {
      CurrentIsAsOf(log, c, o);
    } else {
      CurrentStaysAsOf(log, n - 1, c, o);
      AsOfGrows(log, n - 1, c, o);
    }
  }

  // ----- one commit -----

  /** A unique answer for the new version: everything open is current. */
  lemma {:induction false} SingleAnswersNow(log: seq<Envelope>, n: nat, o: ObservationId)
    requires ValidLog(log) && n <= |log| && forall j :: 0 <= j < n ==> ResolvesOnce(log[j].commands)
    ensures DecisionFaithful(log, n, n, o) && InferenceFaithful(log, n, n, o)
  {
    hide State, Accepted;
    var l := State(log, n);
    StateSound(log, n, true);
    CurrentIsAsOf(log, n, o);
    forall d | d in DecisionsAsOf(l, o, n) ensures d in CurrentDecisions(l, o) {
      assert DecisionOk(l, d, n) && DecisionCurrent(l, d);
    }
    forall i | i in InferencesAsOf(l, o, n) ensures i in CurrentInferences(l, o) {
      assert InferenceOk(l, i, n) && InferenceCurrent(l, i);
    }
  }

  /** Two resolutions of one observation in a batch are both valid as of that commit. */
  lemma {:induction false} DoubleAnswers(log: seq<Envelope>, n: nat) returns (o: ObservationId)
    requires ValidLog(log) && n < |log| && !ResolvesOnce(log[n].commands)
    ensures !DecisionFaithful(log, n + 1, n + 1, o) && !InferenceFaithful(log, n + 1, n + 1, o)
  {
    hide Accepted, Applicable, Validate, Sound, WellIndexed, AddDependents, ApplyPrefix, State;
    var l, e, v := State(log, n), log[n], n + 1;
    var p, q :| 0 <= p < q < |e.commands| && e.commands[p].CommitResolution? && e.commands[q].CommitResolution?
                && e.commands[p].inference.observation == e.commands[q].inference.observation;
    BatchResult(log, n, false);
    var now := ApplyPrefix(l, e, v, |e.commands|);
    assert Committed(now, e.commands[p], v) && Committed(now, e.commands[q], v);
    DistinctResolutions(l, e, v, p, q);
    var l' := State(log, v);
    o := e.commands[p].inference.observation;
    var a, b := e.commands[p], e.commands[q];
    NewlyOpen(l, now, e, v, p);
    NewlyOpen(l, now, e, v, q);
    assert a.decision.id in DecisionsAsOf(l', o, v) && b.decision.id in DecisionsAsOf(l', o, v);
    assert a.inference.id in InferencesAsOf(l', o, v) && b.inference.id in InferencesAsOf(l', o, v);
    assert !DecisionFaithful(log, v, v, o) && !InferenceFaithful(log, v, v, o);
  }

  /** The committed pair of a batch command is open at the batch's version when the batch ends. */
  lemma {:induction false} NewlyOpen(l: Ledger, now: Ledger, e: Envelope, v: CommitVersion, p: nat)
    requires p < |e.commands| && e.commands[p].CommitResolution? && Grown(l, now, v) && Applicable(l, e, v)
    requires Committed(now, e.commands[p], v)
    requires e.commands[p].inference.id !in l.inferences && e.commands[p].decision.id !in l.decisions
    ensures var c := e.commands[p];
            now.inferences[c.inference.id].validity == VersionInterval(v, None)
            && now.decisions[c.decision.id].validity == VersionInterval(v, None)
  {
    hide Applicable;
    assert NewInference(l, now, e.commands[p].inference.id, v) && NewDecision(l, now, e.commands[p].decision.id, v);
  }

  lemma {:induction false} PrefixKeepsKeys(l: Ledger, e: Envelope, v: CommitVersion, a: nat, b: nat)
    requires Applicable(l, e, v) && a <= b <= |e.commands|
    ensures ApplyPrefix(l, e, v, a).inferences.Keys <= ApplyPrefix(l, e, v, b).inferences.Keys
    ensures ApplyPrefix(l, e, v, a).decisions.Keys <= ApplyPrefix(l, e, v, b).decisions.Keys
    decreases b
  {
    hide Applicable, ApplyCommand;
    if a < b {
      PrefixKeepsKeys(l, e, v, a, b - 1);
      CommandKeepsKeys(ApplyPrefix(l, e, v, b - 1), e.transaction, v, e.commands[b - 1]);
    }
  }

  lemma {:induction false} CommandKeepsKeys(l: Ledger, t: TransactionId, v: CommitVersion, c: Command)
    ensures l.inferences.Keys <= ApplyCommand(l, t, v, c).inferences.Keys
    ensures l.decisions.Keys <= ApplyCommand(l, t, v, c).decisions.Keys
    ensures c.CommitResolution? ==> c.inference.id in ApplyCommand(l, t, v, c).inferences
                                    && c.decision.id in ApplyCommand(l, t, v, c).decisions
  {
    hide CurrentClosedInferences, CurrentClosedDecisions, Born, RevertTransaction, SameEntry;
    if c.Revert? {
      RevertRevises(l, c.transaction, c.mode, v);
    } else if c.CommitResolution? {
      CurrentClosedKeys(l, c.inference.observation, v);
    } else {
      PlainCommandCore(l, t, v, c);
    }
  }

  lemma {:induction false} DistinctResolutions(l: Ledger, e: Envelope, v: CommitVersion, p: nat, q: nat)
    requires Applicable(l, e, v) && p < q < |e.commands|
    requires e.commands[p].CommitResolution? && e.commands[q].CommitResolution?
    ensures e.commands[p].inference.id != e.commands[q].inference.id
    ensures e.commands[p].decision.id != e.commands[q].decision.id
    ensures e.commands[p].inference.id !in l.inferences && e.commands[p].decision.id !in l.decisions
    ensures e.commands[q].inference.id !in l.inferences && e.commands[q].decision.id !in l.decisions
  {
    hide Applicable, ApplyCommand, SameLog;
    ReadyAt(l, e, v, p);
    ReadyAt(l, e, v, q);
    PrefixKeepsKeys(l, e, v, 0, p);
    PrefixKeepsKeys(l, e, v, 0, q);
    PrefixKeepsKeys(l, e, v, p + 1, q);
    CommandKeepsKeys(ApplyPrefix(l, e, v, p), e.transaction, v, e.commands[p]);
  }

  /** Past answers about inferences never change: a closed inference is never closed again. */
  lemma {:induction false} InferenceAnswersStay(log: seq<Envelope>, n: nat, c: nat, o: ObservationId)
    requires ValidLog(log) && c <= n < |log|
    ensures InferencesAsOf(State(log, n + 1), o, c) == InferencesAsOf(State(log, n), o, c)
  {
    hide State, Accepted, ApplyPrefix, Applicable, AddDependents, Validate;
    var l, l', e := State(log, n), State(log, n + 1), log[n];
    AsOfGrows(log, n, c, o);
    CommitGrows(log, n);
    StateAccepts(log, n);
    forall i | i in InferencesAsOf(l', o, c) ensures i in InferencesAsOf(l, o, c) {
      assert NewInference(l, l', i, n + 1);
      assert SameInference(l.inferences, l'.inferences, i, n + 1);
      if !l.inferences[i].validity.Open() {
        ClosedNotCurrent(l, i);
        BatchKeepsInference(l, e, n + 1, |e.commands|, i);
      }
    }
  }

  lemma {:induction false} ClosedNotCurrent(l: Ledger, i: InferenceId)
    requires Currents(l) && i in l.inferences && !l.inferences[i].validity.Open()
    ensures NotCurrentInference(l, i)
  {
    forall o | o in l.currentInference ensures l.currentInference[o] != i { assert CurrentOk(l, o); }
  }

  lemma {:induction false} ClosedDecisionNotCurrent(l: Ledger, d: DecisionId)
    requires Currents(l) && d in l.decisions && !l.decisions[d].validity.Open()
    ensures NotCurrent(l, d)
  {
    forall o | o in l.currentDecision ensures l.currentDecision[o] != d {
      assert o in l.currentInference && CurrentOk(l, o);
    }
  }

  lemma {:induction false} ReclosedIffOwned(log: seq<Envelope>, n: nat, d: DecisionId)
    requires ValidLog(log) && n < |log| && d in State(log, n).decisions
    requires !State(log, n).decisions[d].validity.Open()
    ensures Touched(State(log, n), State(log, n + 1), d,
              BatchOwns(State(log, n), log[n].commands, |log[n].commands|, d), n + 1)
  {
    hide State, Accepted, ApplyPrefix, Applicable, AddDependents, Validate, BatchOwns, Grown, Records;
    CommitGrows(log, n);
    StateAccepts(log, n);
    ClosedDecisionNotCurrent(State(log, n), d);
    BatchTouches(State(log, n), log[n], n + 1, |log[n].commands|, d);
  }

  /** Past answers about decisions stay when the batch reverts only transactions with open decisions. */
  lemma {:induction false} DecisionAnswersStay(log: seq<Envelope>, n: nat, c: nat, o: ObservationId)
    requires ValidLog(log) && c <= n < |log| && RevertsOpen(State(log, n), log[n])
    ensures DecisionsAsOf(State(log, n + 1), o, c) == DecisionsAsOf(State(log, n), o, c)
  {
    hide State, Accepted, BatchOwns;
    var l, l' := State(log, n), State(log, n + 1);
    AsOfGrows(log, n, c, o);
    CommitGrows(log, n);
    forall d | d in DecisionsAsOf(l', o, c) ensures d in DecisionsAsOf(l, o, c) {
      assert NewDecision(l, l', d, n + 1);
      assert SameDecision(l.decisions, l'.decisions, d, n + 1) && DecisionOk(l, d, n);
      assert SameInference(l.inferences, l'.inferences, l.decisions[d].inference, n + 1);
      if !l.decisions[d].validity.Open() { ReclosedIffOwned(log, n, d); }
    }
  }

  /** Reverting a transaction whose decision is already closed moves its end and rewrites history. */
  lemma {:induction false} ReclosingRewrites(
    log: seq<Envelope>, n: nat) returns (o: ObservationId, c: nat, d: DecisionId)
    requires ValidLog(log) && n < |log| && !RevertsOpen(State(log, n), log[n])
    ensures c <= n && d !in DecisionsAsOf(State(log, n), o, c) && d in DecisionsAsOf(State(log, n + 1), o, c)
  {
    hide State, Accepted, BatchOwns;
    var l, l' := State(log, n), State(log, n + 1);
    d :| d in l.decisions && BatchOwns(l, log[n].commands, |log[n].commands|, d) && !l.decisions[d].validity.Open();
    CommitGrows(log, n);
    ReclosedIffOwned(log, n, d);
    assert DecisionOk(l, d, n) && SameDecision(l.decisions, l'.decisions, d, n + 1);
    assert SameInference(l.inferences, l'.inferences, l.decisions[d].inference, n + 1);
    o, c := l.inferences[l.decisions[d].inference].observation, l.decisions[d].validity.end.value;
  }

  // ----- whole runs -----

  lemma {:induction false} AnswersAsAt(log: seq<Envelope>, n: nat, c: nat, o: ObservationId)
    requires ValidLog(log) && c <= n <= |log|
    ensures InferencesAsOf(State(log, n), o, c) == InferencesAsOf(State(log, c), o, c)
    ensures (forall j :: c <= j < n ==> RevertsOpen(State(log, j), log[j])) ==>
              DecisionsAsOf(State(log, n), o, c) == DecisionsAsOf(State(log, c), o, c)
    decreases n
  {
    hide State, Accepted, InferencesAsOf, DecisionsAsOf, RevertsOpen;
    if c < n {
      AnswersAsAt(log, n - 1, c, o);
      InferenceAnswersStay(log, n - 1, c, o);
      if RevertsOpen(State(log, n - 1), log[n - 1]) { DecisionAnswersStay(log, n - 1, c, o); }
    }
  }

  /** An answer that was not current then never goes away again. */
  lemma {:induction false} ExtraAnswerPersists(
    log: seq<Envelope>, m: nat, n: nat, c: nat, o: ObservationId, d: DecisionId)
    requires ValidLog(log) && c <= m <= n <= |log|
    requires d in DecisionsAsOf(State(log, m), o, c) && d !in CurrentDecisions(State(log, c), o)
    ensures d in DecisionsAsOf(State(log, n), o, c) && !DecisionFaithful(log, n, c, o)
    decreases n
  {
    hide State, Accepted, DecisionsAsOf, CurrentDecisions;
    if m < n {
      ExtraAnswerPersists(log, m, n - 1, c, o, d);
      AsOfGrows(log, n - 1, c, o);
    }
  }

  /** Inference history is right, in every run, if and only if no batch resolved an observation twice;
      reverts of any kind do no harm. */
  lemma {:induction false} InferenceHistoryIff(log: seq<Envelope>, n: nat)
    requires ValidLog(log) && n <= |log|
    ensures InferenceHistory(log, n) <==> forall j :: 0 <= j < n ==> ResolvesOnce(log[j].commands)
  {
    hide State, Accepted, InferencesAsOf, CurrentInferences, ResolvesOnce, DecisionFaithful;
    if forall j :: 0 <= j < n ==> ResolvesOnce(log[j].commands) {
      forall c, o {:trigger InferenceFaithful(log, n, c, o)} | 0 <= c <= n ensures InferenceFaithful(log, n, c, o) {
        AnswersAsAt(log, n, c, o);
        SingleAnswersNow(log, c, o);
      }
    } else {
      var j :| 0 <= j < n && !ResolvesOnce(log[j].commands);
      var o := DoubleAnswers(log, j);
      AnswersAsAt(log, n, j + 1, o);
      assert !InferenceFaithful(log, n, j + 1, o);
    }
  }

  /** Decision history is right, in every run, if and only if no batch resolved an observation twice and
      every revert deactivated only transactions whose decisions were all open. */
  lemma {:induction false} DecisionHistoryIff(log: seq<Envelope>, n: nat)
    requires ValidLog(log) && n <= |log|
    ensures DecisionHistory(log, n) <==> forall j {:trigger Harmless(log, j)} :: 0 <= j < n ==> Harmless(log, j)
  {
    hide State, Accepted, DecisionsAsOf, CurrentDecisions, ResolvesOnce, RevertsOpen, InferenceFaithful;
    if forall j {:trigger Harmless(log, j)} :: 0 <= j < n ==> Harmless(log, j) {
      forall c, o {:trigger DecisionFaithful(log, n, c, o)} | 0 <= c <= n ensures DecisionFaithful(log, n, c, o) {
        forall j | 0 <= j < n ensures ResolvesOnce(log[j].commands) && RevertsOpen(State(log, j), log[j]) {
          assert Harmless(log, j);
        }
        AnswersAsAt(log, n, c, o);
        SingleAnswersNow(log, c, o);
      }
    } else {
      var j :| 0 <= j < n && !Harmless(log, j);
      UnfaithfulAfter(log, j, n);
    }
  }

  /** The batch resolves each observation at most once and reverts only transactions with open decisions. */
  ghost predicate Harmless(log: seq<Envelope>, j: nat)
    requires j < |log|
  {
    ResolvesOnce(log[j].commands) && RevertsOpen(State(log, j), log[j])
  }

  lemma {:induction false} UnfaithfulAfter(log: seq<Envelope>, j: nat, n: nat)
    requires ValidLog(log) && j < n <= |log|
    requires !Harmless(log, j)
    ensures !DecisionHistory(log, n)
  {
    hide State, Accepted, DecisionsAsOf, CurrentDecisions, ResolvesOnce, RevertsOpen, InferenceFaithful;
    if !ResolvesOnce(log[j].commands) {
      var o := DoubleAnswers(log, j);
      CurrentStaysAsOf(log, j + 1, j + 1, o);
      var d :| d in DecisionsAsOf(State(log, j + 1), o, j + 1) && d !in CurrentDecisions(State(log, j + 1), o);
      ExtraAnswerPersists(log, j + 1, n, j + 1, o, d);
    } else {
      var o, c, d := ReclosingRewrites(log, j);
      CurrentStaysAsOf(log, j, c, o);
      ExtraAnswerPersists(log, j + 1, n, c, o, d);
    }
  }

  /** If no batch resolves an observation twice, the intervals of one observation never overlap. */
  lemma {:induction false} IntervalsDisjoint(
    log: seq<Envelope>, n: nat, a: InferenceId, b: InferenceId, w: CommitVersion)
    requires ValidLog(log) && n <= |log| && forall j :: 0 <= j < n ==> ResolvesOnce(log[j].commands)
    requires a in State(log, n).inferences && b in State(log, n).inferences && a != b
    requires State(log, n).inferences[a].observation == State(log, n).inferences[b].observation
    ensures var l := State(log, n); !(l.inferences[a].validity.Contains(w) && l.inferences[b].validity.Contains(w))
  {
    hide State, Accepted, ResolvesOnce;
    var l := State(log, n);
    var o := l.inferences[a].observation;
    InferenceHistoryIff(log, n);
    StateSound(log, n, false);
    assert InferenceOk(l, a, n) && InferenceOk(l, b, n);
    assert InferenceFaithful(log, n, n, o);
    if o in l.currentInference { assert CurrentOk(l, o); }
    var c := if w <= n then w else n;
    assert InferenceFaithful(log, n, c, o);
    assert l.inferences[a].validity.Contains(w) ==> a in InferencesAsOf(l, o, c);
    assert l.inferences[b].validity.Contains(w) ==> b in InferencesAsOf(l, o, c);
  }

  /** If no batch resolves an observation twice, an inference is open exactly when it is its observation's current
      one. */
  lemma {:induction false} OpenIffCurrent(log: seq<Envelope>, n: nat, a: InferenceId)
    requires ValidLog(log) && n <= |log| && forall j :: 0 <= j < n ==> ResolvesOnce(log[j].commands)
    requires a in State(log, n).inferences
    ensures var l, o := State(log, n), State(log, n).inferences[a].observation;
            l.inferences[a].validity.Open() <==> (o in l.currentInference && l.currentInference[o] == a)
  {
    hide State, Accepted, ResolvesOnce;
    var l := State(log, n);
    var o := l.inferences[a].observation;
    InferenceHistoryIff(log, n);
    StateSound(log, n, false);
    assert InferenceOk(l, a, n);
    assert InferenceFaithful(log, n, n, o);
    if o in l.currentInference { assert CurrentOk(l, o); }
    assert l.inferences[a].validity.Open() ==> a in InferencesAsOf(l, o, n);
  }
}
