/** Immutable evidence: observations enter once and stay, whatever is reverted later. */
module Evidence {
  import opened Types
  import opened LedgerSpec
  import opened LedgerFrames
  import opened LedgerRuns
  import opened MemoryLedgers

  predicate Persists(c: Command, o: Observation) { c == PersistObservation(o) }

  /** Entry `j` of the log persisted `o`. */
  ghost predicate PersistedAt(log: seq<Envelope>, j: nat, o: Observation)
    requires j < |log|
  {
    exists m {:trigger Persists(log[j].commands[m], o)} :: 0 <= m < |log[j].commands| && Persists(log[j].commands[m], o)
  }

  predicate Holds(l: Ledger, o: Observation, v: CommitVersion) {
    && o.id in l.observations && l.observations[o.id] == o
    && o.id in l.observationCommits && l.observationCommits[o.id] == v
  }

  lemma {:induction false} CommandKeepsEvidence(
    l: Ledger, t: TransactionId, v: CommitVersion, c: Command, o: Observation, w: CommitVersion)
    requires Ready(l, v, c)
    ensures Holds(l, o, w) ==> Holds(ApplyCommand(l, t, v, c), o, w)
    ensures Holds(ApplyCommand(l, t, v, c), o, w) ==> Holds(l, o, w) || (w == v && Persists(c, o))
    ensures Persists(c, o) ==> Holds(ApplyCommand(l, t, v, c), o, v)
  {
    if c.PersistObservation? {
      assert ApplyCommand(l, t, v, c) == l.(observationCommits := l.observationCommits[c.observation.id := v],
                                            observations := l.observations[c.observation.id := c.observation]);
    } else {
      hide ApplyCommand;
      EvidenceUntouched(l, t, v, c);
    }
  }

  lemma {:induction false} EvidenceUntouched(l: Ledger, t: TransactionId, v: CommitVersion, c: Command)
    requires Ready(l, v, c) && !c.PersistObservation?
    ensures ApplyCommand(l, t, v, c).observations == l.observations
    ensures ApplyCommand(l, t, v, c).observationCommits == l.observationCommits
  {
    hide SplitIdentities, RevertTransaction, MergedStatuses, Completed, CurrentClosedInferences, CurrentClosedDecisions,
         Born, SameRecords, SameLog, KnownParts;
    match c
    case Split(plan) => SplitRevises(l, plan, v);
    case Revert(target, mode) => RevertRevises(l, target, mode, v);
    case _ =>
  }

  ghost predicate PersistedBefore(commands: seq<Command>, m: nat, o: Observation)
    requires m <= |commands|
  {
    exists i {:trigger Persists(commands[i], o)} :: 0 <= i < m && Persists(commands[i], o)
  }

  lemma {:induction false} BatchEvidence(
    l: Ledger, e: Envelope, v: CommitVersion, m: nat, o: Observation, w: CommitVersion)
    requires Applicable(l, e, v) && m <= |e.commands|
    ensures Holds(ApplyPrefix(l, e, v, m), o, w) <==> Holds(l, o, w) || (w == v && PersistedBefore(e.commands, m, o))
  {
    hide Applicable, ApplyCommand, Ready, SameLog, Holds, Persists;
    if m > 0 {
      BatchEvidence(l, e, v, m - 1, o, w);
      ReadyAt(l, e, v, m - 1);
      CommandKeepsEvidence(ApplyPrefix(l, e, v, m - 1), e.transaction, v, e.commands[m - 1], o, w);
      assert PersistedBefore(e.commands, m, o) <==>
             PersistedBefore(e.commands, m - 1, o) || Persists(e.commands[m - 1], o);
    }
  }

  /** The ledger holds `o` since version `w` exactly when log entry `w` persisted it. */
  lemma {:induction false} EvidenceIsLogged(log: seq<Envelope>, k: nat, o: Observation, w: CommitVersion)
    requires ValidLog(log) && k <= |log|
    ensures Holds(State(log, k), o, w) <==> 1 <= w <= k && PersistedAt(log, w - 1, o)
  {
    hide Accepted, Applicable, Validate, ApplyPrefix, AddDependents, Persists;
    if k > 0 {
      EvidenceIsLogged(log, k - 1, o, w);
      StateAccepts(log, k - 1);
      BatchEvidence(State(log, k - 1), log[k - 1], k, |log[k - 1].commands|, o, w);
    }
  }

  ghost predicate EvidenceOk(l: Ledger, o: ObservationId)
    requires o in l.observations
  {
    o in l.observationCommits && l.observations[o].id == o
  }

  ghost predicate AllEvidenceOk(l: Ledger) {
    forall o {:trigger EvidenceOk(l, o)} :: o in l.observations ==> EvidenceOk(l, o)
  }

  lemma {:induction false} StateEvidenceOk(log: seq<Envelope>, k: nat)
    requires ValidLog(log) && k <= |log|
    ensures AllEvidenceOk(State(log, k))
  {
    hide Accepted, Applicable, Validate, ApplyPrefix, AddDependents, EvidenceOk;
    if k > 0 {
      StateEvidenceOk(log, k - 1);
      StateAccepts(log, k - 1);
      PrefixEvidenceOk(State(log, k - 1), log[k - 1], k, |log[k - 1].commands|);
      assert forall o {:trigger EvidenceOk(State(log, k), o)} :: o in State(log, k).observations ==>
        EvidenceOk(State(log, k), o) by {
        SameEvidence(ApplyPrefix(State(log, k - 1), log[k - 1], k, |log[k - 1].commands|), State(log, k));
      }
    }
  }

  lemma {:induction false} SameEvidence(a: Ledger, b: Ledger)
    requires AllEvidenceOk(a) && b.observations == a.observations && b.observationCommits == a.observationCommits
    ensures AllEvidenceOk(b)
  {
    forall o | o in b.observations ensures EvidenceOk(b, o) { assert EvidenceOk(a, o); }
  }

  lemma {:induction false} PrefixEvidenceOk(l: Ledger, e: Envelope, v: CommitVersion, m: nat)
    requires Applicable(l, e, v) && m <= |e.commands| && AllEvidenceOk(l)
    ensures AllEvidenceOk(ApplyPrefix(l, e, v, m))
  {
    hide Applicable, ApplyCommand, Ready, SameLog, AllEvidenceOk;
    if m > 0 {
      PrefixEvidenceOk(l, e, v, m - 1);
      ReadyAt(l, e, v, m - 1);
      CommandEvidenceOk(ApplyPrefix(l, e, v, m - 1), e.transaction, v, e.commands[m - 1]);
    }
  }

  lemma {:induction false} CommandEvidenceOk(l: Ledger, t: TransactionId, v: CommitVersion, c: Command)
    requires AllEvidenceOk(l) && Ready(l, v, c)
    ensures AllEvidenceOk(ApplyCommand(l, t, v, c))
  {
    var l' := ApplyCommand(l, t, v, c);
    if c.PersistObservation? {
      forall o | o in l'.observations ensures EvidenceOk(l', o) {
        if o in l.observations { assert EvidenceOk(l, o); }
      }
    } else {
      EvidenceUntouched(l, t, v, c);
      SameEvidence(l, l');
    }
  }

  // ----- bitemporal query -----

  predicate Visible(l: Ledger, o: ObservationId, eventTime: Timestamp, commit: CommitVersion) {
    && o in l.observations && l.observations[o].eventTime <= eventTime
    && o in l.observationCommits && l.observationCommits[o] <= commit
  }

  /** The bitemporal answer: observations by event-time and commit bound, in ascending identifier order. */
  ghost predicate Answers(l: Ledger, eventTime: Timestamp, commit: CommitVersion, output: seq<Observation>) {
    && (forall i, j :: 0 <= i < j < |output| ==> output[i].id < output[j].id)
    && (forall o :: o in output <==> Visible(l, o.id, eventTime, commit) && l.observations[o.id] == o)
  }

  method ObservationsAsOf(ledger: MemoryLedger, eventTime: Timestamp, commit: CommitVersion)
    returns (output: seq<Observation>)
    requires AllEvidenceOk(ledger.View())
    ensures Answers(ledger.View(), eventTime, commit, output)
  {
    output := [];
    var l := ledger.View();
    var remaining := set o | o in l.observations && Visible(l, o, eventTime, commit);
    while remaining != {}
      invariant forall o :: o in remaining ==> Visible(l, o, eventTime, commit)
      invariant forall o :: Visible(l, o, eventTime, commit) && o !in remaining ==> l.observations[o] in output
      invariant forall o :: o in output ==>
                  Visible(l, o.id, eventTime, commit) && l.observations[o.id] == o && o.id !in remaining
      invariant forall o, r :: o in output && r in remaining ==> o.id < r
      invariant forall i, j :: 0 <= i < j < |output| ==> output[i].id < output[j].id
      decreases remaining
    {
      var least := LeastOf(remaining);
      assert EvidenceOk(l, least);
      output := output + [l.observations[least]];
      remaining := remaining - {least};
    }
  }

  method LeastOf(s: set<ObservationId>) returns (least: ObservationId)
    requires s != {}
    ensures least in s && forall x :: x in s ==> least <= x
  {
    least :| least in s;
    var rest := s - {least};
    while rest != {}
      invariant rest <= s && least in s && forall x :: x in s && x !in rest ==> least <= x
      decreases rest
    {
      var x :| x in rest;
      if x < least { least := x; }
      rest := rest - {x};
    }
  }

  /** The query is determined by the log: an observation is visible as of `c` exactly when one of the
      first `c` entries persisted it, and asking later, after any reverts, changes nothing. */
  lemma {:induction false} VisibleForever(log: seq<Envelope>, n: nat, c: nat, o: Observation, eventTime: Timestamp)
    requires ValidLog(log) && c <= n <= |log|
    ensures Visible(State(log, n), o.id, eventTime, c) && State(log, n).observations[o.id] == o
            <==> o.eventTime <= eventTime && exists w {:trigger PersistedAt(log, w, o)} ::
                0 <= w < c && PersistedAt(log, w, o)
    ensures Visible(State(log, n), o.id, eventTime, c) && State(log, n).observations[o.id] == o
            <==> Visible(State(log, c), o.id, eventTime, c) && State(log, c).observations[o.id] == o
  {
    hide State, Accepted, PersistedAt;
    forall k | c <= k <= n
      ensures Visible(State(log, k), o.id, eventTime, c) && State(log, k).observations[o.id] == o
              <==> o.eventTime <= eventTime && exists w {:trigger PersistedAt(log, w, o)} ::
                  0 <= w < c && PersistedAt(log, w, o)
    {
      var l := State(log, k);
      StateEvidenceOk(log, k);
      if o.id in l.observations && l.observations[o.id] == o {
        assert EvidenceOk(l, o.id);
        EvidenceIsLogged(log, k, o, l.observationCommits[o.id]);
      }
      forall w | 0 <= w < c && PersistedAt(log, w, o) ensures Holds(l, o, w + 1) { EvidenceIsLogged(log, k, o, w + 1); }
    }
  }

  lemma {:induction false} FirstIn(s: seq<Observation>)
    requires s != []
    ensures s[0] in s
  {}

  lemma {:induction false} AnswerUnique(a: seq<Observation>, b: seq<Observation>)
    requires forall i, j :: 0 <= i < j < |a| ==> a[i].id < a[j].id
    requires forall i, j :: 0 <= i < j < |b| ==> b[i].id < b[j].id
    requires forall o :: o in a <==> o in b
    ensures a == b
    decreases |a|
  {
    if a == [] {
      if b != [] { FirstIn(b); }
    } else {
      assert a[0] in b && b != [] && b[0] in a;
      forall o ensures o in a[1..] <==> o in b[1..] {
        if o in a[1..] { assert o in a && o != b[0]; }
        if o in b[1..] { assert o in b && o != a[0]; }
      }
      AnswerUnique(a[1..], b[1..]);
      assert a == [a[0]] + a[1..] && b == [b[0]] + b[1..];
    }
  }

  /** The list answering the query about version `c` is the same list, in the same order, at every state from
      `c` on. */
  lemma {:induction false} SameAnswerForever(
    log: seq<Envelope>, n: nat, c: nat, eventTime: Timestamp, asked: seq<Observation>, later: seq<Observation>)
    requires ValidLog(log) && c <= n <= |log|
    requires Answers(State(log, c), eventTime, c, asked) && Answers(State(log, n), eventTime, c, later)
    ensures asked == later
  {
    hide State, ValidLog, Visible, PersistedAt;
    forall o ensures o in asked <==> o in later { VisibleForever(log, n, c, o, eventTime); }
    AnswerUnique(asked, later);
  }
}
