/** Whole runs of the ledger.

    A run is any sequence of submitted envelopes. What it leaves behind is determined by the envelopes
    it accepted, in order: the log. Every later property is stated for all valid logs.
  */
module LedgerRuns {
  import opened Types
  import opened LedgerSpec
  import opened LedgerFrames

  /** The state after the first `k` log entries, applied without looking at validation again. */
  ghost function State(log: seq<Envelope>, k: nat): Ledger
    requires k <= |log|
  {
    if k == 0 then EMPTY else Apply(State(log, k - 1), log[k - 1], k)
  }

  ghost predicate ValidLog(log: seq<Envelope>) {
    forall k {:trigger State(log, k)} :: 0 <= k < |log| ==> Accepted(State(log, k), log[k])
  }

  /** Any submission sequence: accepted, rejected and replayed commits alike. */
  ghost function Run(submitted: seq<Envelope>, k: nat): Ledger
    requires k <= |submitted|
  {
    if k == 0 then EMPTY else Commit(Run(submitted, k - 1), submitted[k - 1]).0
  }

  ghost function AcceptedLog(submitted: seq<Envelope>, k: nat): seq<Envelope>
    requires k <= |submitted|
  {
    if k == 0 then []
    else if Accepted(Run(submitted, k - 1), submitted[k - 1])
    then AcceptedLog(submitted, k - 1) + [submitted[k - 1]]
    else AcceptedLog(submitted, k - 1)
  }

  // ----- the log and its indexes -----

  ghost predicate EntryOk(log: seq<Envelope>, l: Ledger, i: nat)
    requires i < |log| && i < |l.transactions|
  {
    && l.transactions[i].version == i + 1 && l.transactions[i].envelope == log[i]
    && log[i].transaction in l.transactionIndexes && l.transactionIndexes[log[i].transaction] == i
    && log[i].idempotency in l.idempotency && l.idempotency[log[i].idempotency] == (i + 1, log[i].transaction)
  }

  ghost predicate IndexOk(log: seq<Envelope>, l: Ledger, t: TransactionId)
    requires t in l.transactionIndexes
  {
    l.transactionIndexes[t] < |l.transactions| && l.transactionIndexes[t] < |log|
    && log[l.transactionIndexes[t]].transaction == t
  }

  ghost predicate KeyOk(log: seq<Envelope>, l: Ledger, key: IdempotencyKey)
    requires key in l.idempotency
  {
    1 <= l.idempotency[key].0 <= |l.transactions| && l.idempotency[key].0 <= |log|
    && log[l.idempotency[key].0 - 1].idempotency == key
  }

  /** Version, log, transaction index and replay table all say the same thing. */
  ghost predicate Logged(log: seq<Envelope>, k: nat, l: Ledger)
    requires k <= |log|
  {
    && l.version == k && |l.transactions| == k
    && (forall i {:trigger EntryOk(log, l, i)} :: 0 <= i < k ==> EntryOk(log, l, i))
    && (forall t {:trigger IndexOk(log, l, t)} :: t in l.transactionIndexes ==> IndexOk(log, l, t))
    && (forall key {:trigger KeyOk(log, l, key)} :: key in l.idempotency ==> KeyOk(log, l, key))
  }

  lemma {:induction false} AcceptedIsValidated(l: Ledger, e: Envelope)
    requires Accepted(l, e)
    ensures Validate(l, e).Ok? && Prepare(l, e) == Ok(Fresh(l.version + 1)) && Applicable(l, e, l.version + 1)
    ensures e.idempotency !in l.idempotency && e.transaction !in l.transactionIndexes
    ensures l.version < MAX_VERSION && e.expectedVersion == l.version
  {
    hide Applicable, CheckPrefix, FirstInactive;
    ValidatedIsApplicable(l, e);
  }

  lemma {:induction false} RecordLogs(log: seq<Envelope>, k: nat, l: Ledger, now: Ledger)
    requires k < |log| && Logged(log, k, l) && SameLog(l, now)
    requires log[k].idempotency !in l.idempotency && log[k].transaction !in l.transactionIndexes
    ensures Logged(log, k + 1, Record(now, log[k], k + 1))
  {
    hide AddDependents;
    var l' := Record(now, log[k], k + 1);
    forall i | 0 <= i < k + 1 ensures EntryOk(log, l', i) {
      if i < k { assert EntryOk(log, l, i) && SameEntry(l.transactions, now.transactions, i); }
    }
    forall t | t in l'.transactionIndexes ensures IndexOk(log, l', t) {
      if t in l.transactionIndexes { assert IndexOk(log, l, t); }
    }
    forall key | key in l'.idempotency ensures KeyOk(log, l', key) {
      if key in l.idempotency { assert KeyOk(log, l, key); }
    }
  }

  lemma {:induction false} EmptyLogged(log: seq<Envelope>)
    ensures Logged(log, 0, EMPTY)
  {}

  /** In every run the version is the log length, entry `i` has version `i + 1` and still holds the
      envelope it was appended with, and the two indexes point exactly at their entries. */
  lemma {:induction false} LogIsComplete(log: seq<Envelope>, k: nat)
    requires ValidLog(log) && k <= |log|
    ensures Logged(log, k, State(log, k))
  {
    hide Logged, Accepted, Apply;
    if k > 0 {
      LogIsComplete(log, k - 1);
      StepLogged(log, k - 1);
    } else {
      EmptyLogged(log);
    }
  }

  lemma {:induction false} StepLogged(log: seq<Envelope>, k: nat)
    requires k < |log| && Logged(log, k, State(log, k)) && Accepted(State(log, k), log[k])
    ensures Logged(log, k + 1, State(log, k + 1))
  {
    hide ApplyPrefix, Accepted, Record, SameLog, Applicable, Validate, EntryOk, IndexOk, KeyOk;
    var l := State(log, k);
    AcceptedIsValidated(l, log[k]);
    AppliedLog(l, log[k], k + 1);
    RecordLogs(log, k, l, ApplyPrefix(l, log[k], k + 1, |log[k].commands|));
  }

  lemma {:induction false} StateAccepts(log: seq<Envelope>, k: nat)
    requires ValidLog(log) && k < |log|
    ensures State(log, k + 1) == Apply(State(log, k), log[k], k + 1)
    ensures Logged(log, k, State(log, k)) && State(log, k).version == k
    ensures Applicable(State(log, k), log[k], k + 1) && Validate(State(log, k), log[k]).Ok?
  {
    hide Applicable, Apply, Validate, Accepted;
    LogIsComplete(log, k);
    AcceptedIsValidated(State(log, k), log[k]);
  }

  /** Stored envelopes never change, and deactivation is final. */
  lemma {:induction false} ActiveOnlyFalls(log: seq<Envelope>, j: nat, k: nat, i: nat)
    requires ValidLog(log) && i < j <= k <= |log|
    ensures |State(log, j).transactions| == j && |State(log, k).transactions| == k
    ensures State(log, k).transactions[i].envelope == State(log, j).transactions[i].envelope == log[i]
    ensures State(log, k).transactions[i].active ==> State(log, j).transactions[i].active
    decreases k
  {
    hide Applicable, Apply, Validate, Accepted, IndexOk, KeyOk;
    LogIsComplete(log, j);
    LogIsComplete(log, k);
    assert EntryOk(log, State(log, j), i) && EntryOk(log, State(log, k), i);
    if j < k {
      ActiveOnlyFalls(log, j, k - 1, i);
      StateAccepts(log, k - 1);
      AppliedActive(State(log, k - 1), log[k - 1], k, i);
    }
  }

  lemma {:induction false} AppliedActive(l: Ledger, e: Envelope, v: CommitVersion, i: nat)
    requires Applicable(l, e, v) && i < |l.transactions|
    ensures |Apply(l, e, v).transactions| == |l.transactions| + 1
    ensures Apply(l, e, v).transactions[i].active ==> l.transactions[i].active
  {
    hide Applicable, ApplyPrefix;
    AppliedLog(l, e, v);
    assert SameEntry(l.transactions, ApplyPrefix(l, e, v, |e.commands|).transactions, i);
  }

  lemma {:induction false} AppliedLog(l: Ledger, e: Envelope, v: CommitVersion)
    requires Applicable(l, e, v)
    ensures SameLog(l, ApplyPrefix(l, e, v, |e.commands|))
  {
    hide SameLog, ApplyPrefix;
  }

  /** Resubmitting any committed envelope, however much later, reports its original version as a
      replay and changes nothing. */
  lemma {:induction false} ResubmissionReplays(log: seq<Envelope>, k: nat, i: nat)
    requires ValidLog(log) && i < k <= |log|
    ensures Commit(State(log, k), log[i]) == (State(log, k), Ok(CommitResult(i + 1, true)))
  {
    hide State, Validate, Apply;
    LogIsComplete(log, k);
    assert EntryOk(log, State(log, k), i);
  }

  /** A different envelope under a used replay key is always refused. */
  lemma {:induction false} ReusedKeyCollides(log: seq<Envelope>, k: nat, i: nat, e: Envelope)
    requires ValidLog(log) && i < k <= |log| && e.idempotency == log[i].idempotency && e != log[i]
    ensures Commit(State(log, k), e) == (State(log, k), Err(IdempotencyCollision))
  {
    hide State, Validate, Apply;
    LogIsComplete(log, k);
    assert EntryOk(log, State(log, k), i);
  }

  // ----- runs are determined by their accepted envelopes -----

  lemma {:induction false} StateOfPrefix(log: seq<Envelope>, more: seq<Envelope>, k: nat)
    requires k <= |log|
    ensures State(log + more, k) == State(log, k)
  {
    hide Apply;
    if k > 0 { StateOfPrefix(log, more, k - 1); }
  }

  lemma {:induction false} AppendValid(log: seq<Envelope>, e: Envelope)
    requires ValidLog(log) && Accepted(State(log, |log|), e)
    ensures ValidLog(log + [e]) && State(log + [e], |log| + 1) == Apply(State(log, |log|), e, |log| + 1)
  {
    hide Accepted, Apply;
    forall k | 0 <= k < |log + [e]| ensures Accepted(State(log + [e], k), (log + [e])[k]) {
      StateOfPrefix(log, [e], k);
      if k < |log| { assert Accepted(State(log, k), log[k]); }
    }
    StateOfPrefix(log, [e], |log|);
  }

  /** Rejected and replayed submissions leave no trace: every run ends in the state of its log. */
  lemma {:induction false} RunIsLog(submitted: seq<Envelope>, k: nat)
    requires k <= |submitted|
    ensures var log := AcceptedLog(submitted, k); ValidLog(log) && Run(submitted, k) == State(log, |log|)
  {
    hide Apply, Validate, Logged, Accepted, Commit, ValidLog;
    if k == 0 {
      NothingLogged();
    } else {
      RunIsLog(submitted, k - 1);
      var log, e := AcceptedLog(submitted, k - 1), submitted[k - 1];
      CommitIsApply(Run(submitted, k - 1), e);
      if Accepted(Run(submitted, k - 1), e) {
        VersionIsLength(log);
        AppendValid(log, e);
      }
    }
  }

  lemma {:induction false} NothingLogged()
    ensures ValidLog([])
  {}

  lemma {:induction false} CommitIsApply(l: Ledger, e: Envelope)
    ensures Commit(l, e).0 == if Accepted(l, e) then Apply(l, e, l.version + 1) else l
  {
    hide Apply;
    if Accepted(l, e) { AcceptedIsValidated(l, e); }
  }

  lemma {:induction false} VersionIsLength(log: seq<Envelope>)
    requires ValidLog(log)
    ensures State(log, |log|).version == |log|
  {
    LogIsComplete(log, |log|);
  }
}
