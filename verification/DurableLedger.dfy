/** The durable ledger: write the envelope, then apply it; recover by replaying what was written. */
module DurableLedgers {
  import opened Types
  import opened LedgerSpec
  import opened LedgerFrames
  import opened LedgerRuns
  import opened MemoryLedgers
  import opened KeyValue

  /** The envelope serializer. Encoding may fail; a stored value decodes to what was encoded. */
  datatype Codec = Codec(encode: Envelope -> Option<Bytes>, decode: Bytes -> Option<Envelope>)

  ghost predicate RoundTrips(codec: Codec) {
    forall e {:trigger codec.encode(e)} :: codec.encode(e).Some? ==> codec.decode(codec.encode(e).value) == Some(e)
  }

  ghost predicate Encodable(codec: Codec, log: seq<Envelope>) {
    forall i {:trigger codec.encode(log[i])} :: 0 <= i < |log| ==> codec.encode(log[i]).Some?
  }

  /** The table after the first `n` entries of `log` were written under their versions. */
  function Stored(codec: Codec, log: seq<Envelope>, n: nat): Table
    requires n <= |log|
  {
    if n == 0 then map[]
    else
      var before := Stored(codec, log, n - 1);
      var value := codec.encode(log[n - 1]);
      if value.Some? then before[DurableKey(n) := value.value] else before
  }

  /** Recovery as a function of the scanned records. */
  ghost function Recover(codec: Codec, records: seq<Entry>, n: nat): Result<Ledger, LedgerError>
    requires n <= |records|
  {
    if n == 0 then Ok(EMPTY)
    else
      match Recover(codec, records, n - 1)
      case Err(e) => Err(e)
      case Ok(l) => RecoverOne(codec, l, records[n - 1], n)
  }

  ghost function RecoverOne(
    codec: Codec, l: Ledger, record: Entry, version: CommitVersion)
    : Result<Ledger, LedgerError>
  {
    if version > MAX_VERSION || DecodeDurableKey(record.0) != Some(version) then Err(CorruptDurableLog)
    else
      match codec.decode(record.1)
      case None => Err(Storage)
      case Some(e) =>
        match Commit(l, e)
        case (_, Err(error)) => Err(error)
        case (next, Ok(result)) => if result == CommitResult(version, false) then Ok(next) else Err(CorruptDurableLog)
  }

  // ----- the stored table is the log in version order -----

  lemma {:induction false} StoredKeys(codec: Codec, log: seq<Envelope>, n: nat, key: Bytes)
    requires n <= |log| && Encodable(codec, log) && |log| <= MAX_VERSION
    ensures key in Stored(codec, log, n) <==> exists v {:trigger DurableKey(v)} :: 1 <= v <= n && key == DurableKey(v)
  {
    hide DurableKey;
    if n > 0 {
      StoredKeys(codec, log, n - 1, key);
      assert codec.encode(log[n - 1]).Some?;
    }
  }

  lemma {:induction false} StoredValue(codec: Codec, log: seq<Envelope>, n: nat, v: CommitVersion)
    requires 1 <= v <= n <= |log| && Encodable(codec, log) && |log| <= MAX_VERSION
    ensures DurableKey(v) in Stored(codec, log, n)
    ensures codec.encode(log[v - 1]).Some? && Stored(codec, log, n)[DurableKey(v)] == codec.encode(log[v - 1]).value
  {
    hide DurableKey;
    assert codec.encode(log[n - 1]).Some?;
    if v < n {
      StoredValue(codec, log, n - 1, v);
      DurableKeyOrder(v, n);
      LessIrreflexive(DurableKey(v));
    }
  }

  function RecordAt(codec: Codec, log: seq<Envelope>, i: nat): Entry
    requires i < |log|
  {
    (DurableKey(i + 1), codec.encode(log[i]).GetOr([]))
  }

  function RecordsOf(codec: Codec, log: seq<Envelope>): (r: seq<Entry>)
    ensures |r| == |log| && forall i :: 0 <= i < |log| ==> r[i] == RecordAt(codec, log, i)
  {
    seq(|log|, i requires 0 <= i < |log| => RecordAt(codec, log, i))
  }

  /** The stored log can be scanned: its records, in version order, are a scan. */
  lemma {:induction false} LogIsScan(codec: Codec, log: seq<Envelope>)
    requires Encodable(codec, log) && |log| <= MAX_VERSION
    ensures IsScan(Stored(codec, log, |log|), RecordsOf(codec, log))
  {
    hide DurableKey, Less;
    var table, expected := Stored(codec, log, |log|), RecordsOf(codec, log);
    forall i, j | 0 <= i < j < |expected| ensures Less(expected[i].0, expected[j].0) { DurableKeyOrder(i + 1, j + 1); }
    forall e: Entry ensures e in expected <==> e.0 in table && table[e.0] == e.1 && LEDGER_PREFIX <= e.0 {
      if e in expected {
        var i :| 0 <= i < |expected| && expected[i] == e;
        StoredValue(codec, log, |log|, i + 1);
        KeyHasPrefix(i + 1);
      }
      if e.0 in table && table[e.0] == e.1 {
        StoredKeys(codec, log, |log|, e.0);
        var v :| 1 <= v <= |log| && e.0 == DurableKey(v);
        StoredValue(codec, log, |log|, v);
        assert expected[v - 1] == e;
      }
    }
  }

  lemma {:induction false} KeyHasPrefix(v: CommitVersion)
    ensures LEDGER_PREFIX <= DurableKey(v)
  {}

  /** A prefix scan of the stored log yields its records in version order, whatever else it had to skip. */
  lemma {:induction false} ScanYieldsLog(codec: Codec, log: seq<Envelope>, records: seq<Entry>)
    requires Encodable(codec, log) && |log| <= MAX_VERSION
    requires Ascending(records) && Lists(records, Stored(codec, log, |log|), LEDGER_PREFIX)
    ensures records == RecordsOf(codec, log)
  {
    hide Less, Stored, RecordsOf;
    LogIsScan(codec, log);
    AscendingUnique(records, RecordsOf(codec, log));
  }

  // ----- recovery -----

  lemma {:induction false} RecoverLog(codec: Codec, log: seq<Envelope>, n: nat)
    requires RoundTrips(codec) && Encodable(codec, log) && ValidLog(log) && n <= |log| <= MAX_VERSION
    ensures Recover(codec, RecordsOf(codec, log), n) == Ok(State(log, n))
  {
    hide Accepted, Apply, RecoverOne, ValidLog, RecordsOf;
    if n > 0 {
      RecoverLog(codec, log, n - 1);
      RecoverStep(codec, log, n - 1);
    }
  }

  lemma {:induction false} RecoverStep(codec: Codec, log: seq<Envelope>, k: nat)
    requires RoundTrips(codec) && Encodable(codec, log) && ValidLog(log) && k < |log| <= MAX_VERSION
    ensures RecoverOne(codec, State(log, k), RecordsOf(codec, log)[k], k + 1) == Ok(State(log, k + 1))
  {
    hide Accepted, Apply, Validate, Applicable, Logged, DurableKey, DecodeDurableKey;
    LogIsComplete(log, k);
    AcceptedIsValidated(State(log, k), log[k]);
    LoggedVersion(log, k, State(log, k));
    assert codec.encode(log[k]).Some?;
    DurableKeyRoundTrip(k + 1);
  }

  lemma {:induction false} LoggedVersion(log: seq<Envelope>, k: nat, l: Ledger)
    requires k <= |log| && Logged(log, k, l)
    ensures l.version == k
  {}

  /** Replaying the stored log rebuilds exactly the ledger that wrote it. */
  lemma {:induction false} RecoveryIsExact(codec: Codec, log: seq<Envelope>, records: seq<Entry>)
    requires RoundTrips(codec) && Encodable(codec, log) && ValidLog(log) && |log| <= MAX_VERSION
    requires Ascending(records) && Lists(records, Stored(codec, log, |log|), LEDGER_PREFIX)
    ensures Recover(codec, records, |records|) == Ok(State(log, |log|))
  {
    hide ValidLog, State, Recover, RecordsOf;
    ScanYieldsLog(codec, log, records);
    RecordsLength(codec, log);
    RecoverLog(codec, log, |log|);
  }

  lemma {:induction false} RecordsLength(codec: Codec, log: seq<Envelope>)
    ensures |RecordsOf(codec, log)| == |log|
  {}

  // ----- the adapter -----

  /** How the write of one commit turns out: done; refused by the backend with nothing written; or done
      just before the process stops, so that the memory side never sees it. */
  datatype WriteOutcome = Done | Refused | Stopped

  lemma {:induction false} LogFits(log: seq<Envelope>)
    requires ValidLog(log)
    ensures |log| <= MAX_VERSION
  {
    hide Apply, Validate, Applicable, Logged;
    if |log| > 0 {
      var k := |log| - 1;
      LogIsComplete(log, k);
      LoggedVersion(log, k, State(log, k));
      AcceptedIsValidated(State(log, k), log[k]);
    }
  }

  lemma {:induction false} StoredPrefix(codec: Codec, log: seq<Envelope>, e: Envelope, n: nat)
    requires n <= |log|
    ensures Stored(codec, log + [e], n) == Stored(codec, log, n)
  {
    if n > 0 { StoredPrefix(codec, log, e, n - 1); }
  }

  /** Appending one accepted, encodable envelope to the log. */
  lemma {:induction false} AppendStored(codec: Codec, log: seq<Envelope>, e: Envelope)
    requires ValidLog(log) && Encodable(codec, log) && Accepted(State(log, |log|), e) && codec.encode(e).Some?
    ensures var longer := log + [e];
            && ValidLog(longer) && Encodable(codec, longer)
            && State(log, |log|).version == |log|
            && State(longer, |longer|) == Apply(State(log, |log|), e, |log| + 1)
            && Stored(codec, longer, |longer|) ==
                 Stored(codec, log, |log|)[DurableKey(|log| + 1) := codec.encode(e).value]
  {
    hide Accepted, Apply, State, DurableKey, ValidLog;
    AppendValid(log, e);
    VersionIsLength(log);
    StoredPrefix(codec, log, e, |log|);
    var longer := log + [e];
    forall i {:trigger codec.encode(longer[i])} | 0 <= i < |longer| ensures codec.encode(longer[i]).Some? {
      if i < |log| { assert codec.encode(log[i]).Some?; }
    }
  }

  class DurableLedger {
    const codec: Codec
    const backend: MemoryKvBackend
    const memory: MemoryLedger
    /** Proof field: the envelopes written so far. */
    ghost var log: seq<Envelope>

    /** The backend holds exactly the log, and memory is the state of the log. */
    ghost predicate Valid()
      reads this, backend, memory
    {
      && memory.Valid() && Consistent(codec, log, TableOf(backend.tables, ResolutionLedger))
      && memory.View() == State(log, |log|)
    }

    constructor (codec: Codec, backend: MemoryKvBackend, memory: MemoryLedger, ghost log: seq<Envelope>)
      requires memory.Valid() && Consistent(codec, log, TableOf(backend.tables, ResolutionLedger))
      requires memory.View() == State(log, |log|)
      ensures Valid() && this.codec == codec && this.backend == backend && this.memory == memory && this.log == log
    {
      this.codec, this.backend, this.memory, this.log := codec, backend, memory, log;
    }

    /** Commits one envelope. A refused write changes nothing; after a stopped one the backend has the
        envelope and the caller has to open a new ledger on it. */
    method CommitEnvelope(e: Envelope, write: WriteOutcome)
      returns (r: Result<CommitResult, LedgerError>, stopped: bool)
      requires Valid()
      modifies this, backend, memory
      ensures stopped <==> write == Stopped && Writes(codec, old(memory.View()), e)
      ensures stopped ==> Consistent(codec, log, TableOf(backend.tables, ResolutionLedger))
      ensures !stopped ==> Valid()
      ensures !stopped && !Fails(codec, old(memory.View()), e, write) ==>
                (memory.View(), r) == Commit(old(memory.View()), e)
      ensures Fails(codec, old(memory.View()), e, write) ==> r == Err(Storage) && memory.View() == old(memory.View())
      ensures Writes(codec, old(memory.View()), e) && write != Refused ==> log == old(log) + [e]
      ensures !(Writes(codec, old(memory.View()), e) && write != Refused) ==> log == old(log)
    {
      hide ValidLog, State, Apply, Prepare, Stored, DurableKey;
      stopped := false;
      var prepared := memory.PrepareEnvelope(e);
      if prepared.Err? { return Err(prepared.error), false; }
      if prepared.value.Replay? { return Ok(prepared.value.result), false; }
      var version := prepared.value.next;
      FreshIsApplicable(memory.View(), e);
      var value := codec.encode(e);
      if value.None? || write == Refused { return Err(Storage), false; }
      AppendStored(codec, log, e);
      OnePut(backend.tables, DurableKey(version), value.value);
      backend.ApplyTransaction([Put(ResolutionLedger, DurableKey(version), value.value)]);
      log := log + [e];
      if write == Stopped { return Err(Storage), true; }
      memory.ApplyEnvelope(e, version);
      return Ok(CommitResult(version, false)), false;
    }
  }

  /** Opening succeeds on whatever a durable ledger left behind, and yields the ledger of its log. */
  method Reopen(codec: Codec, backend: MemoryKvBackend, ghost log: seq<Envelope>)
    returns (d: DurableLedger)
    requires Consistent(codec, log, TableOf(backend.tables, ResolutionLedger))
    ensures fresh(d) && d.Valid() && d.log == log && d.codec == codec && d.backend == backend && fresh(d.memory)
  {
    hide ValidLog, State, Stored, RoundTrips, Encodable;
    var recovered, records := Open(codec, backend);
    LogFits(log);
    RecoveryIsExact(codec, log, records);
    d := new DurableLedger(codec, backend, recovered.value, log);
  }

  ghost predicate Consistent(codec: Codec, log: seq<Envelope>, table: Table) {
    RoundTrips(codec) && Encodable(codec, log) && ValidLog(log) && table == Stored(codec, log, |log|)
  }

  /** The commit gets as far as writing: validated, not a replay, and serializable. */
  ghost predicate Writes(codec: Codec, l: Ledger, e: Envelope) { Accepted(l, e) && codec.encode(e).Some? }

  /** The commit is fresh but its envelope cannot be encoded or the backend refuses the write. */
  ghost predicate Fails(codec: Codec, l: Ledger, e: Envelope, write: WriteOutcome) {
    Accepted(l, e) && (codec.encode(e).None? || write == Refused)
  }

  lemma {:induction false} OnePut(tables: map<ColumnFamily, Table>, key: Bytes, value: Bytes)
    ensures var batch := [Put(ResolutionLedger, key, value)];
            TableOf(PerformedAll(tables, batch, 1), ResolutionLedger) == TableOf(tables, ResolutionLedger)[key := value]
  {
    var batch := [Put(ResolutionLedger, key, value)];
    assert PerformedAll(tables, batch, 1) == Performed(PerformedAll(tables, batch, 0), batch[0]);
  }

  /** Rebuilds the memory side from a backend by replaying its records in key order. */
  method Open(
    codec: Codec, backend: MemoryKvBackend)
    returns (r: Result<MemoryLedger, LedgerError>, ghost records: seq<Entry>)
    ensures Ascending(records) && Lists(records, TableOf(backend.tables, ResolutionLedger), LEDGER_PREFIX)
    ensures r.Ok? ==> fresh(r.value) && r.value.Valid() && Recover(codec, records, |records|) == Ok(r.value.View())
    ensures r.Err? ==> Recover(codec, records, |records|) == Err(r.error)
  {
    hide Commit, RecoverOne;
    var scanned := backend.PrefixScan(ResolutionLedger, LEDGER_PREFIX);
    records := scanned;
    var memory := new MemoryLedger();
    var i := 0;
    while i < |scanned|
      invariant 0 <= i <= |scanned| && fresh(memory) && memory.Valid()
      invariant Recover(codec, scanned, i) == Ok(memory.View())
    {
      var error := ReplayOne(codec, memory, scanned[i], i + 1);
      if error.Some? {
        RecoverErrorSticks(codec, scanned, i + 1, |scanned|);
        return Err(error.value), records;
      }
      i := i + 1;
    }
    return Ok(memory), records;
  }

  method ReplayOne(codec: Codec, memory: MemoryLedger, record: Entry, version: CommitVersion)
    returns (error: Option<LedgerError>)
    requires memory.Valid()
    modifies memory
    ensures memory.Valid()
    ensures RecoverOne(codec, old(memory.View()), record, version) ==
            if error.Some? then Err(error.value) else Ok(memory.View())
  {
    hide Commit, DecodeDurableKey;
    var decoded := DecodeDurableKey(record.0);
    if decoded.None? || version > MAX_VERSION || decoded.value != version { return Some(CorruptDurableLog); }
    var envelope := codec.decode(record.1);
    if envelope.None? { return Some(Storage); }
    var result := memory.CommitEnvelope(envelope.value);
    if result.Err? { return Some(result.error); }
    if result.value.version != version || result.value.replayed { return Some(CorruptDurableLog); }
    return None;
  }

  lemma {:induction false} RecoverErrorSticks(codec: Codec, records: seq<Entry>, i: nat, j: nat)
    requires i <= j <= |records| && Recover(codec, records, i).Err?
    ensures Recover(codec, records, j) == Recover(codec, records, i)
    decreases j
  {
    hide RecoverOne;
    if i < j { RecoverErrorSticks(codec, records, i, j - 1); }
  }

  // ----- any sequence of commits, failures, stops and restarts -----

  /** The stored table, and the ledger in memory: what the latest opening returned, moved on by commits. */
  datatype System = System(table: Table, memory: Result<Ledger, LedgerError>)

  datatype Attempt = Submit(envelope: Envelope, write: WriteOutcome) | Restart

  /** The table once the next commit of ledger `l` has written `e`. */
  function WithEnvelope(codec: Codec, table: Table, l: Ledger, e: Envelope): Table
    requires codec.encode(e).Some?
  {
    table[DurableKey(l.version + 1) := codec.encode(e).value]
  }

  /** Whatever opening a ledger on `table` may return. */
  ghost predicate Opens(codec: Codec, table: Table, r: Result<Ledger, LedgerError>) {
    exists records {:trigger IsScan(table, records)} ::
      IsScan(table, records) && r == Recover(codec, records, |records|)
  }

  /** One commit attempt or restart. A stopped commit ends with a restart; a ledger that could not be opened
      takes no commits. */
  ghost predicate Step(codec: Codec, s: System, a: Attempt, s': System) {
    match a
    case Restart => s'.table == s.table && Opens(codec, s.table, s'.memory)
    case Submit(e, write) =>
      if s.memory.Ok? && Writes(codec, s.memory.value, e) && write != Refused then
        && s'.table == WithEnvelope(codec, s.table, s.memory.value, e)
        && (write == Done ==> s'.memory == Ok(Commit(s.memory.value, e).0))
        && (write == Stopped ==> Opens(codec, s'.table, s'.memory))
      else s' == s
  }

  ghost predicate IsScan(table: Table, records: seq<Entry>) {
    Ascending(records) && Lists(records, table, LEDGER_PREFIX)
  }

  ghost predicate Reachable(codec: Codec, s: System) {
    exists log {:trigger Consistent(codec, log, s.table)} ::
      Consistent(codec, log, s.table) && s.memory == Ok(State(log, |log|))
  }

  /** A table that holds a valid log can be opened, and opening it can only return the log's ledger. */
  lemma {:induction false} OpeningSucceeds(codec: Codec, log: seq<Envelope>, table: Table)
    requires Consistent(codec, log, table)
    ensures forall r :: Opens(codec, table, r) <==> r == Ok(State(log, |log|))
  {
    hide State, Stored, Encodable, RoundTrips, ValidLog, Recover, Ascending, Lists, RecordsOf;
    LogFits(log);
    LogIsScan(codec, log);
    RecoveryIsExact(codec, log, RecordsOf(codec, log));
    forall records {:trigger IsScan(table, records)} | IsScan(table, records)
      ensures Recover(codec, records, |records|) == Ok(State(log, |log|))
    {
      RecoveryIsExact(codec, log, records);
    }
  }

  /** Wherever the process stops, the table can be opened again, and every opening returns the ledger with the
      interrupted envelope applied. */
  lemma {:induction false} StoppedCommitSurvives(codec: Codec, s: System, e: Envelope)
    requires Reachable(codec, s) && Writes(codec, s.memory.value, e)
    ensures var l := s.memory.value;
            forall r :: Opens(codec, WithEnvelope(codec, s.table, l, e), r) <==> r == Ok(Apply(l, e, l.version + 1))
  {
    hide Accepted, Apply, State, Stored, Encodable, RoundTrips, ValidLog, DurableKey, Opens;
    var log :| Consistent(codec, log, s.table) && s.memory == Ok(State(log, |log|));
    AppendStored(codec, log, e);
    var longer := log + [e];
    OpeningSucceeds(codec, longer, Stored(codec, longer, |longer|));
  }

  lemma {:induction false} StepReachable(codec: Codec, s: System, a: Attempt, s': System)
    requires Reachable(codec, s) && Step(codec, s, a, s')
    ensures Reachable(codec, s')
  {
    hide Accepted, Apply, State, Stored, Encodable, RoundTrips, ValidLog, DurableKey, Opens;
    var log :| Consistent(codec, log, s.table) && s.memory == Ok(State(log, |log|));
    if a == Restart {
      OpeningSucceeds(codec, log, s.table);
      assert Consistent(codec, log, s'.table);
    } else if Writes(codec, s.memory.value, a.envelope) && a.write != Refused {
      AppendStored(codec, log, a.envelope);
      CommitIsApply(s.memory.value, a.envelope);
      var longer := log + [a.envelope];
      assert Consistent(codec, longer, s'.table);
      OpeningSucceeds(codec, longer, s'.table);
      assert s'.memory == Ok(State(longer, |longer|));
    }
  }

  /** After any sequence of accepted, rejected, replayed, refused and stopped commits and restarts, no opening
      so far has failed, the stored table can be opened, and every opening yields the very ledger the survivors
      were applied to. */
  lemma {:induction false} RecoveryAfterAnyRun(codec: Codec, trace: seq<System>, attempts: seq<Attempt>, n: nat)
    requires RoundTrips(codec) && |trace| == |attempts| + 1 && n <= |attempts| && trace[0] == System(map[], Ok(EMPTY))
    requires forall i {:trigger attempts[i]} :: 0 <= i < |attempts| ==> Step(codec, trace[i], attempts[i], trace[i + 1])
    ensures Reachable(codec, trace[n]) && trace[n].memory.Ok?
    ensures forall r :: Opens(codec, trace[n].table, r) <==> r == trace[n].memory
  {
    hide Step, State, Opens, RoundTrips, Consistent;
    if n == 0 {
      EmptyReachable(codec);
    } else {
      RecoveryAfterAnyRun(codec, trace, attempts, n - 1);
      assert attempts[n - 1] == attempts[n - 1];
      StepReachable(codec, trace[n - 1], attempts[n - 1], trace[n]);
    }
    var log :| Consistent(codec, log, trace[n].table) && trace[n].memory == Ok(State(log, |log|));
    OpeningSucceeds(codec, log, trace[n].table);
  }

  lemma {:induction false} EmptyReachable(codec: Codec)
    requires RoundTrips(codec)
    ensures Reachable(codec, System(map[], Ok(EMPTY)))
  {
    assert Consistent(codec, [], map[]);
  }
}
