/** Bitemporal history: what the durable validity intervals say about the past, and when that is right. */
module History {
  import opened Types
  import opened LedgerSpec
  import opened LedgerFrames
  import opened LedgerRuns
  import opened Dependencies
  import opened Lineage

  predicate ResolvesOnce(commands: seq<Command>) {
    forall p, q :: 0 <= p < q < |commands| && commands[p].CommitResolution? && commands[q].CommitResolution? ==>
      commands[p].inference.observation != commands[q].inference.observation
  }

  // ----- one batch, partly applied -----

  predicate NewInference(l: Ledger, now: Ledger, i: InferenceId, v: CommitVersion)
    requires i in now.inferences
  {
    i in l.inferences || now.inferences[i].validity == VersionInterval(v, None)
  }

  predicate NewDecision(l: Ledger, now: Ledger, d: DecisionId, v: CommitVersion)
    requires d in now.decisions
  {
    d in l.decisions || now.decisions[d].validity == VersionInterval(v, None)
  }

  /** Since `l`, records were only closed at `v` or newly opened at `v`. */
  ghost predicate Grown(l: Ledger, now: Ledger, v: CommitVersion) {
    && l.inferences.Keys <= now.inferences.Keys && l.decisions.Keys <= now.decisions.Keys
    && (forall i {:trigger SameInference(l.inferences, now.inferences, i, v)} ::
          i in l.inferences ==> SameInference(l.inferences, now.inferences, i, v))
    && (forall d {:trigger SameDecision(l.decisions, now.decisions, d, v)} ::
          d in l.decisions ==> SameDecision(l.decisions, now.decisions, d, v))
    && (forall i {:trigger NewInference(l, now, i, v)} :: i in now.inferences ==> NewInference(l, now, i, v))
    && (forall d {:trigger NewDecision(l, now, d, v)} :: d in now.decisions ==> NewDecision(l, now, d, v))
  }

  lemma {:induction false} GrownByRevision(l: Ledger, now: Ledger, next: Ledger, v: CommitVersion)
    requires Grown(l, now, v) && SameRecords(now, next, v)
    ensures Grown(l, next, v)
  {
    forall i | i in l.inferences ensures SameInference(l.inferences, next.inferences, i, v) {
      assert SameInference(l.inferences, now.inferences, i, v) && SameInference(now.inferences, next.inferences, i, v);
    }
    forall d | d in l.decisions ensures SameDecision(l.decisions, next.decisions, d, v) {
      assert SameDecision(l.decisions, now.decisions, d, v) && SameDecision(now.decisions, next.decisions, d, v);
    }
    forall i | i in next.inferences ensures NewInference(l, next, i, v) {
      assert NewInference(l, now, i, v) && SameInference(now.inferences, next.inferences, i, v);
    }
    forall d | d in next.decisions ensures NewDecision(l, next, d, v) {
      assert NewDecision(l, now, d, v) && SameDecision(now.decisions, next.decisions, d, v);
    }
  }

  lemma {:induction false} GrownByInsert(
    l: Ledger, now: Ledger, next: Ledger, i: InferenceRecord, d: DecisionRecord, v: CommitVersion)
    requires Grown(l, now, v) && i.id !in now.inferences && d.id !in now.decisions
    requires i.validity == VersionInterval(v, None) && d.validity == VersionInterval(v, None)
    requires next.inferences == now.inferences[i.id := i] && next.decisions == now.decisions[d.id := d]
    ensures Grown(l, next, v)
  {
    forall k | k in l.inferences ensures SameInference(l.inferences, next.inferences, k, v) {
      assert SameInference(l.inferences, now.inferences, k, v);
    }
    forall k | k in l.decisions ensures SameDecision(l.decisions, next.decisions, k, v) {
      assert SameDecision(l.decisions, now.decisions, k, v);
    }
    forall k | k in next.inferences ensures NewInference(l, next, k, v) {
      if k != i.id { assert NewInference(l, now, k, v); }
    }
    forall k | k in next.decisions ensures NewDecision(l, next, k, v) {
      if k != d.id { assert NewDecision(l, now, k, v); }
    }
  }

  ghost predicate ResolvedBefore(commands: seq<Command>, m: nat, o: ObservationId)
    requires m <= |commands|
  {
    exists p :: 0 <= p < m && commands[p].CommitResolution? && commands[p].inference.observation == o
  }

  /** A current inference opened at `v` was resolved by this batch. */
  ghost predicate Aged(now: Ledger, commands: seq<Command>, m: nat, v: CommitVersion, o: ObservationId)
    requires m <= |commands| && o in now.currentInference
  {
    now.currentInference[o] in now.inferences && now.inferences[now.currentInference[o]].validity.begin == v ==>
      ResolvedBefore(commands, m, o)
  }

  ghost predicate Ages(now: Ledger, commands: seq<Command>, m: nat, v: CommitVersion)
    requires m <= |commands|
  {
    forall o {:trigger Aged(now, commands, m, v, o)} :: o in now.currentInference ==> Aged(now, commands, m, v, o)
  }

  ghost predicate BatchCommitted(now: Ledger, commands: seq<Command>, m: nat, v: CommitVersion)
    requires m <= |commands|
  {
    forall p {:trigger Committed(now, commands[p], v)} :: 0 <= p < m ==> Committed(now, commands[p], v)
  }

  ghost predicate MidBatch(l: Ledger, now: Ledger, commands: seq<Command>, m: nat, v: CommitVersion, single: bool)
    requires m <= |commands|
  {
    && Sound(now, v, single) && WellIndexed(now) && v == |now.transactions| + 1
    && Grown(l, now, v) && BatchCommitted(now, commands, m, v) && Ages(now, commands, m, v)
  }

  lemma {:induction false} AgesOn(now: Ledger, next: Ledger, commands: seq<Command>, m: nat, v: CommitVersion)
    requires m < |commands| && Ages(now, commands, m, v) && SameRecords(now, next, v)
    requires Submap(next.currentInference, now.currentInference)
    ensures Ages(next, commands, m + 1, v)
  {
    hide ResolvedBefore;
    var n := m + 1;
    forall o {:trigger Aged(next, commands, n, v, o)} | o in next.currentInference
      ensures Aged(next, commands, n, v, o)
    {
      assert Aged(now, commands, m, v, o);
      if next.currentInference[o] in next.inferences {
        assert SameInference(now.inferences, next.inferences, next.currentInference[o], v);
      }
      ResolvedLater(commands, m, o);
    }
  }

  lemma {:induction false} ResolvedLater(commands: seq<Command>, m: nat, o: ObservationId)
    requires m < |commands|
    ensures ResolvedBefore(commands, m, o) ==> ResolvedBefore(commands, m + 1, o)
    ensures commands[m].CommitResolution? && commands[m].inference.observation == o ==>
              ResolvedBefore(commands, m + 1, o)
  {}

  lemma {:induction false} BatchCommittedOn(now: Ledger, next: Ledger, commands: seq<Command>, m: nat, v: CommitVersion)
    requires m < |commands| && BatchCommitted(now, commands, m, v) && SameRecords(now, next, v)
    requires !commands[m].CommitResolution?
    ensures BatchCommitted(next, commands, m + 1, v)
  {
    hide SameRecords;
    forall p {:trigger Committed(next, commands[p], v)} | 0 <= p < m + 1 ensures Committed(next, commands[p], v) {
      if p < m {
        assert Committed(now, commands[p], v);
        CommittedRevised(now, next, commands[p], v, v);
      }
    }
  }

  lemma {:induction false} PlainStep(
    l: Ledger, now: Ledger, commands: seq<Command>, m: nat, t: TransactionId, v: CommitVersion, single: bool)
    requires m < |commands| && MidBatch(l, now, commands, m, v, single)
    requires !commands[m].Revert? && !commands[m].CommitResolution?
    requires SameLog(now, ApplyCommand(now, t, v, commands[m]))
    ensures MidBatch(l, ApplyCommand(now, t, v, commands[m]), commands, m + 1, v, single)
  {
    hide ApplyCommand, Sound, WellIndexed, Ages, BatchCommitted, Grown;
    var next := ApplyCommand(now, t, v, commands[m]);
    PlainCommandCore(now, t, v, commands[m]);
    SameCoreSound(now, next, v, single);
    SameLogWellIndexed(now, next);
    CoreStep(l, now, next, commands, m, v);
  }

  lemma {:induction false} CoreStep(
    l: Ledger, now: Ledger, next: Ledger, commands: seq<Command>, m: nat, v: CommitVersion)
    requires m < |commands| && !commands[m].CommitResolution?
    requires Grown(l, now, v) && BatchCommitted(now, commands, m, v) && Ages(now, commands, m, v)
    requires next.inferences == now.inferences && next.decisions == now.decisions
    requires next.currentInference == now.currentInference
    ensures Grown(l, next, v) && BatchCommitted(next, commands, m + 1, v) && Ages(next, commands, m + 1, v)
  {
    hide Grown, BatchCommitted, Ages;
    var like := next.(merges := now.merges);
    assert SameRecords(now, like, v);
    GrownByRevision(l, now, like, v);
    BatchCommittedOn(now, like, commands, m, v);
    AgesOn(now, like, commands, m, v);
    CoreOnly(l, like, next, commands, m + 1, v);
  }

  lemma {:induction false} CoreOnly(l: Ledger, a: Ledger, b: Ledger, commands: seq<Command>, m: nat, v: CommitVersion)
    requires m <= |commands|
    requires Grown(l, a, v) && BatchCommitted(a, commands, m, v) && Ages(a, commands, m, v)
    requires b.inferences == a.inferences && b.decisions == a.decisions && b.currentInference == a.currentInference
    ensures Grown(l, b, v) && BatchCommitted(b, commands, m, v) && Ages(b, commands, m, v)
  {
    forall i | i in b.inferences ensures NewInference(l, b, i, v) { assert NewInference(l, a, i, v); }
    forall d | d in b.decisions ensures NewDecision(l, b, d, v) { assert NewDecision(l, a, d, v); }
    forall p {:trigger Committed(b, commands[p], v)} | 0 <= p < m ensures Committed(b, commands[p], v) {
      assert Committed(a, commands[p], v);
    }
    forall o {:trigger Aged(b, commands, m, v, o)} | o in b.currentInference ensures Aged(b, commands, m, v, o) {
      assert Aged(a, commands, m, v, o);
    }
  }

  lemma {:induction false} RevertStep(
    l: Ledger, now: Ledger, commands: seq<Command>, m: nat, t: TransactionId, v: CommitVersion, single: bool)
    requires m < |commands| && MidBatch(l, now, commands, m, v, single) && commands[m].Revert?
    ensures MidBatch(l, ApplyCommand(now, t, v, commands[m]), commands, m + 1, v, single)
  {
    hide RevertTransaction, Sound, WellIndexed, Ages, BatchCommitted, Grown, SameRecords, SameEntry;
    var c := commands[m];
    var next := RevertTransaction(now, c.transaction, c.mode, v);
    RevertRevises(now, c.transaction, c.mode, v);
    RevertKeepsSound(now, c.transaction, c.mode, v, single);
    SameLogWellIndexed(now, next);
    GrownByRevision(l, now, next, v);
    BatchCommittedOn(now, next, commands, m, v);
    AgesOn(now, next, commands, m, v);
  }

  lemma {:induction false} ResolveStep(
    l: Ledger, now: Ledger, commands: seq<Command>, m: nat, t: TransactionId, v: CommitVersion, single: bool)
    requires m < |commands| && MidBatch(l, now, commands, m, v, single) && commands[m].CommitResolution?
    requires Ready(now, v, commands[m]) && (single ==> ResolvesOnce(commands))
    ensures MidBatch(l, ApplyCommand(now, t, v, commands[m]), commands, m + 1, v, single)
  {
    hide Sound, WellIndexed, Grown, CurrentClosedInferences, CurrentClosedDecisions, Born, SameRecords, Revision, Ages,
         BatchCommitted;
    var c := commands[m];
    var i, d := c.inference, c.decision;
    var next := Resolve(now, i, d, c.created, v);
    FreshCurrent(l, now, commands, m, v, single);
    ResolveKeepsSound(now, i, d, c.created, v, single);
    SameLogFields(now, now, next) by { SameLogRefl(now); }
    SameLogWellIndexed(now, next);
    CloseCurrentRevises(now, i.observation, v);
    var closed := CloseCurrent(now, i.observation, v);
    RevisionParts(now, closed, v);
    CurrentClosedKeys(now, i.observation, v);
    GrownByRevision(l, now, closed, v);
    GrownByInsert(l, closed, next, i, d, v);
    ResolveCommits(now, closed, next, commands, m, v);
    assert Currents(now) by { SoundCurrents(now, v, single); }
    ResolveAges(now, closed, next, commands, m, v);
  }

  lemma {:induction false} SoundCurrents(l: Ledger, v: CommitVersion, single: bool)
    requires Sound(l, v, single)
    ensures Currents(l)
  {}

  lemma {:induction false} SameLogRefl(l: Ledger)
    ensures SameLog(l, l)
  {}

  lemma {:induction false} RevisionParts(l: Ledger, l': Ledger, v: CommitVersion)
    requires Revision(l, l', v)
    ensures SameRecords(l, l', v) && SameLog(l, l')
    ensures Submap(l'.currentInference, l.currentInference) && Submap(l'.currentDecision, l.currentDecision)
  {
    hide SameRecords, SameLog, Submap;
  }

  /** In a batch that resolves each observation once, the record about to be superseded is older. */
  lemma {:induction false} FreshCurrent(
    l: Ledger, now: Ledger, commands: seq<Command>, m: nat, v: CommitVersion, single: bool)
    requires m < |commands| && MidBatch(l, now, commands, m, v, single) && commands[m].CommitResolution?
    requires single ==> ResolvesOnce(commands)
    ensures var o := commands[m].inference.observation;
            single && o in now.currentInference ==>
              && now.currentInference[o] in now.inferences
              && now.inferences[now.currentInference[o]].validity.begin < v
  {
    hide WellIndexed, Grown, BatchCommitted, OpenCurrent;
    var o := commands[m].inference.observation;
    if single && o in now.currentInference {
      assert CurrentOk(now, o) && Aged(now, commands, m, v, o) && InferenceOk(now, now.currentInference[o], v);
    }
  }

  lemma {:induction false} ResolveCommits(
    now: Ledger, closed: Ledger, next: Ledger, commands: seq<Command>, m: nat, v: CommitVersion)
    requires m < |commands| && commands[m].CommitResolution? && Ready(now, v, commands[m])
    requires BatchCommitted(now, commands, m, v) && SameRecords(now, closed, v)
    requires next.inferences == closed.inferences[commands[m].inference.id := commands[m].inference]
    requires next.decisions == closed.decisions[commands[m].decision.id := commands[m].decision]
    ensures BatchCommitted(next, commands, m + 1, v)
  {
    forall p {:trigger Committed(next, commands[p], v)} | 0 <= p < m + 1 ensures Committed(next, commands[p], v) {
      if p < m {
        assert Committed(now, commands[p], v);
        CommittedRevised(now, closed, commands[p], v, v);
      }
    }
  }

  lemma {:induction false} ResolveAges(
    now: Ledger, closed: Ledger, next: Ledger, commands: seq<Command>, m: nat, v: CommitVersion)
    requires m < |commands| && commands[m].CommitResolution? && Ready(now, v, commands[m])
    requires Ages(now, commands, m, v) && SameRecords(now, closed, v)
             && Submap(closed.currentInference, now.currentInference)
    requires Currents(now)
    requires next.inferences == closed.inferences[commands[m].inference.id := commands[m].inference]
    requires next.currentInference ==
               closed.currentInference[commands[m].inference.observation := commands[m].inference.id]
    ensures Ages(next, commands, m + 1, v)
  {
    hide ResolvedBefore;
    AgesOn(now, closed, commands, m, v);
    var n := m + 1;
    forall o {:trigger Aged(next, commands, n, v, o)} | o in next.currentInference
      ensures Aged(next, commands, n, v, o)
    {
      if o == commands[m].inference.observation {
        ResolvedLater(commands, m, o);
      } else {
        assert Aged(closed, commands, n, v, o) && CurrentOk(now, o);
      }
    }
  }

  // ----- whole batches and whole logs -----

  lemma {:induction false} BatchStaysSound(l: Ledger, e: Envelope, m: nat, v: CommitVersion, single: bool)
    requires Applicable(l, e, v) && m <= |e.commands| && MidBatch(l, l, e.commands, 0, v, single)
    requires single ==> ResolvesOnce(e.commands)
    ensures MidBatch(l, ApplyPrefix(l, e, v, m), e.commands, m, v, single)
  {
    hide MidBatch, ApplyCommand, Ready, SameLog, ResolvesOnce, Applicable;
    if m > 0 {
      BatchStaysSound(l, e, m - 1, v, single);
      var now, c := ApplyPrefix(l, e, v, m - 1), e.commands[m - 1];
      ReadyAt(l, e, v, m - 1);
      if c.Revert? {
        RevertStep(l, now, e.commands, m - 1, e.transaction, v, single);
      } else if c.CommitResolution? {
        ResolveStep(l, now, e.commands, m - 1, e.transaction, v, single);
      } else {
        PlainCommandCore(now, e.transaction, v, c);
        PlainSameLog(l, now, ApplyCommand(now, e.transaction, v, c));
        PlainStep(l, now, e.commands, m - 1, e.transaction, v, single);
      }
    }
  }

  lemma {:induction false} PlainSameLog(l: Ledger, now: Ledger, next: Ledger)
    requires SameLog(l, now) && SameLog(l, next) && next.transactions == now.transactions
    ensures SameLog(now, next)
  {}

  lemma {:induction false} StartBatch(l: Ledger, e: Envelope, k: nat, single: bool)
    requires Sound(l, k, single) && WellIndexed(l) && |l.transactions| == k
    ensures MidBatch(l, l, e.commands, 0, k + 1, single)
  {
    hide WellIndexed, OpenCurrent;
    var v := k + 1;
    RecordsLater(l, k, v);
    forall o {:trigger Aged(l, e.commands, 0, v, o)} | o in l.currentInference ensures Aged(l, e.commands, 0, v, o) {
      if l.currentInference[o] in l.inferences { assert InferenceOk(l, l.currentInference[o], k); }
    }
  }

  lemma {:induction false} RecordStaysSound(l: Ledger, now: Ledger, e: Envelope, v: CommitVersion, single: bool)
    requires MidBatch(l, now, e.commands, |e.commands|, v, single)
    ensures Sound(Record(now, e, v), v, single)
  {
    hide AddDependents, Grown, WellIndexed, Ages;
    var next := Record(now, e, v);
    forall i | i in next.inferences ensures InferenceOk(next, i, v) { assert InferenceOk(now, i, v); }
    forall d | d in next.decisions ensures DecisionOk(next, d, v) { assert DecisionOk(now, d, v); }
    forall j | 0 <= j < |next.transactions| ensures LogCommitted(next, j) {
      var commands := next.transactions[j].envelope.commands;
      if j < |now.transactions| { assert LogCommitted(now, j); }
      forall m {:trigger Committed(next, next.transactions[j].envelope.commands[m], j + 1)} | 0 <= m < |commands|
        ensures Committed(next, next.transactions[j].envelope.commands[m], j + 1)
      {
        assert j < |now.transactions| ==> Committed(now, now.transactions[j].envelope.commands[m], j + 1);
        assert j == |now.transactions| ==> Committed(now, e.commands[m], v);
      }
    }
    SameCoreCurrents(now, next);
    if single { SameCoreOpenCurrent(now, next); }
  }

  /** Lineage in every run; and when no batch resolves an observation twice, open records are current. */
  lemma {:induction false} StateSound(log: seq<Envelope>, k: nat, single: bool)
    requires ValidLog(log) && k <= |log|
    requires single ==> forall j :: 0 <= j < k ==> ResolvesOnce(log[j].commands)
    ensures Sound(State(log, k), k, single)
  {
    hide Accepted, Applicable, ApplyPrefix, Record, MidBatch, ResolvesOnce, Validate, WellIndexed;
    if k > 0 {
      hide Sound;
      var l, e := State(log, k - 1), log[k - 1];
      StateSound(log, k - 1, single);
      StateWellIndexed(log, k - 1);
      StateAccepts(log, k - 1);
      StartBatch(l, e, k - 1, single);
      BatchStaysSound(l, e, |e.commands|, k, single);
      RecordStaysSound(l, ApplyPrefix(l, e, k, |e.commands|), e, k, single);
    }
  }

  lemma {:induction false} BatchResult(log: seq<Envelope>, k: nat, single: bool)
    requires ValidLog(log) && k < |log|
    requires single ==> forall j :: 0 <= j <= k ==> ResolvesOnce(log[j].commands)
    ensures var l, e := State(log, k), log[k];
            var now := ApplyPrefix(l, e, k + 1, |e.commands|);
            && MidBatch(l, now, e.commands, |e.commands|, k + 1, single)
            && State(log, k + 1) == Record(now, e, k + 1) && Applicable(l, e, k + 1) && Validate(l, e).Ok?
  {
    hide Accepted, Applicable, ApplyPrefix, Record, MidBatch, ResolvesOnce, Validate, WellIndexed, Sound;
    var l, e := State(log, k), log[k];
    StateSound(log, k, single);
    StateWellIndexed(log, k);
    StateAccepts(log, k);
    StartBatch(l, e, k, single);
    BatchStaysSound(l, e, |e.commands|, k + 1, single);
  }
}
