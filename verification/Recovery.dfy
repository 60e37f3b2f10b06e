/** Which stored tables can be opened: exactly those whose records replay a valid log. */
module Recovery {
  import opened Types
  import opened LedgerSpec
  import opened LedgerFrames
  import opened LedgerRuns
  import opened KeyValue
  import opened DurableLedgers

  /** The record stands under that version and decodes to that envelope. */
  predicate StoredAs(codec: Codec, record: Entry, version: CommitVersion, e: Envelope) {
    record.0 == DurableKey(version) && codec.decode(record.1) == Some(e)
  }

  ghost predicate Replays(codec: Codec, records: seq<Entry>, log: seq<Envelope>) {
    && |log| <= |records| && |log| <= 0xFFFF_FFFF_FFFF_FFFF
    && forall i: nat {:trigger log[i]} :: i < |log| ==> StoredAs(codec, records[i], i + 1, log[i])
  }

  lemma {:induction false} OneMore(codec: Codec, records: seq<Entry>, log: seq<Envelope>, e: Envelope)
    requires Replays(codec, records, log) && |log| < |records| && |log| < 0xFFFF_FFFF_FFFF_FFFF
    requires StoredAs(codec, records[|log|], |log| + 1, e)
    ensures Replays(codec, records, log + [e])
  {
    hide StoredAs;
  }

  lemma {:induction false} OneLess(codec: Codec, records: seq<Entry>, log: seq<Envelope>)
    requires Replays(codec, records, log) && log != []
    ensures Replays(codec, records, log[..|log| - 1])
  {
    hide StoredAs;
    var shorter := log[..|log| - 1];
    forall i: nat | i < |shorter| ensures StoredAs(codec, records[i], i + 1, shorter[i]) {
      assert shorter[i] == log[i];
    }
  }

  lemma {:induction false} KeyDecodes(key: Bytes, v: CommitVersion)
    requires v <= MAX_VERSION
    ensures DecodeDurableKey(key) == Some(v) <==> key == DurableKey(v)
  {
    DurableKeyRoundTrip(v);
    if DecodeDurableKey(key) == Some(v) { OnlyDurableKeysDecode(key, v); }
  }

  /** A commit that is neither refused nor replayed is an accepted one. */
  lemma {:induction false} FreshResult(l: Ledger, e: Envelope)
    ensures Commit(l, e).1 == Ok(CommitResult(l.version + 1, false)) <==> Accepted(l, e)
    ensures Accepted(l, e) ==> Commit(l, e).0 == Apply(l, e, l.version + 1)
    ensures Commit(l, e).1.Ok? && !Accepted(l, e) ==> Commit(l, e).1.value.replayed
  {
    hide Apply, Validate, Applicable;
    if Accepted(l, e) {
      CommitIsApply(l, e);
      AcceptedIsValidated(l, e);
    }
  }

  /** What one record does to the ledger of the log before it. */
  lemma {:induction false} OneRecord(codec: Codec, log: seq<Envelope>, record: Entry)
    requires ValidLog(log)
    ensures var (l, v) := (State(log, |log|), |log| + 1);
            var r := RecoverOne(codec, l, record, v);
            && (r.Ok? <==>
                  && v <= 0xFFFF_FFFF_FFFF_FFFF && record.0 == DurableKey(v) && codec.decode(record.1).Some?
                  && Accepted(l, codec.decode(record.1).value))
            && (r.Ok? ==> r.value == Apply(l, codec.decode(record.1).value, v))
            && (r.Err? ==> Broken(codec, l, record, v, r.error))
  {
    hide State, ValidLog, Accepted, Apply, DecodeDurableKey, DurableKey, Commit;
    var l, v := State(log, |log|), |log| + 1;
    VersionIsLength(log);
    if v <= MAX_VERSION { KeyDecodes(record.0, v); }
    var decoded := codec.decode(record.1);
    if decoded.Some? { FreshResult(l, decoded.value); }
  }

  /** Why a record cannot be replayed: another key than the next version's, a value that does not decode, an envelope
      the ledger refuses, or one it has already. */
  ghost predicate Broken(codec: Codec, l: Ledger, record: Entry, v: CommitVersion, error: LedgerError) {
    if v > 0xFFFF_FFFF_FFFF_FFFF || record.0 != DurableKey(v) then error == CorruptDurableLog
    else if codec.decode(record.1).None? then error == Storage
    else
      var r := Commit(l, codec.decode(record.1).value).1;
      if r.Err? then error == r.error else r.value.replayed && error == CorruptDurableLog
  }

  /** Records that replay a valid log recover its ledger. */
  lemma {:induction false} ValidLogRecovers(codec: Codec, records: seq<Entry>, log: seq<Envelope>)
    requires Replays(codec, records, log) && ValidLog(log)
    ensures Recover(codec, records, |log|) == Ok(State(log, |log|))
  {
    hide RecoverOne, Accepted, Apply, StoredAs;
    if log != [] {
      var k := |log| - 1;
      var shorter := log[..k];
      assert log == shorter + [log[k]];
      OneLess(codec, records, log);
      ShorterValid(log, k);
      ValidLogRecovers(codec, records, shorter);
      OneRecord(codec, shorter, records[k]);
      RecordStored(codec, records, log, k);
    }
  }

  lemma {:induction false} RecordStored(codec: Codec, records: seq<Entry>, log: seq<Envelope>, k: nat)
    requires Replays(codec, records, log) && k < |log|
    ensures records[k].0 == DurableKey(k + 1) && codec.decode(records[k].1) == Some(log[k])
  {
    assert StoredAs(codec, records[k], k + 1, log[k]);
  }

  lemma {:induction false} ShorterValid(log: seq<Envelope>, k: nat)
    requires ValidLog(log) && k <= |log|
    ensures ValidLog(log[..k]) && forall i :: 0 <= i <= k ==> State(log[..k], i) == State(log, i)
  {
    hide Accepted, Apply;
    var shorter := log[..k];
    assert log == shorter + log[k..];
    forall i | 0 <= i <= k ensures State(shorter, i) == State(log, i) { StateOfPrefix(shorter, log[k..], i); }
    forall i | 0 <= i < k ensures Accepted(State(shorter, i), shorter[i]) {
      assert Accepted(State(log, i), log[i]) && shorter[i] == log[i];
    }
  }

  /** Opening gets through the first `n` records exactly if they replay a valid log, whose ledger it yields; otherwise
      it ends in the error of the first record that cannot be replayed on what came before. */
  lemma {:induction false} RecoverIff(codec: Codec, records: seq<Entry>, n: nat) returns (log: seq<Envelope>)
    requires n <= |records|
    ensures |log| <= n && Replays(codec, records, log) && ValidLog(log)
    ensures Recover(codec, records, n).Ok? <==> |log| == n
    ensures Recover(codec, records, n).Ok? ==> Recover(codec, records, n) == Ok(State(log, n))
    ensures Recover(codec, records, n).Err? ==>
              Broken(codec, State(log, |log|), records[|log|], |log| + 1, Recover(codec, records, n).error)
  {
    hide RecoverOne, Accepted, Apply, StoredAs, Broken;
    if n == 0 {
      log := [];
    } else {
      log := RecoverIff(codec, records, n - 1);
      if |log| == n - 1 {
        OneRecord(codec, log, records[n - 1]);
        if Recover(codec, records, n).Ok? {
          var e := codec.decode(records[n - 1].1).value;
          AppendValid(log, e);
          VersionIsLength(log);
          StoredNow(codec, records[n - 1], n, e);
          OneMore(codec, records, log, e);
          log := log + [e];
        }
      }
    }
  }

  lemma {:induction false} StoredNow(codec: Codec, record: Entry, v: CommitVersion, e: Envelope)
    requires record.0 == DurableKey(v) && codec.decode(record.1) == Some(e)
    ensures StoredAs(codec, record, v, e)
  {}
}
