/** What the hot cache got to see of the log, in every run.

    The cache takes a committed batch one association at a time and gives up at an identity it has met in that
    batch before. What it holds is therefore decided by the log alone: by every batch up to its first repetition.
  */
module Deliveries {
  import opened Types
  import opened LedgerSpec
  import opened Workspace
  import opened Outbox

  /** The commands of a batch up to its first repeated association. */
  function DeliveredCommands(commands: seq<Command>): (delivered: seq<Command>)
    ensures delivered <= commands && DistinctIdentities(Associations(delivered))
    decreases |commands|
  {
    if DistinctIdentities(Associations(commands)) then commands
    else DeliveredCommands(commands[..|commands| - 1])
  }

  function Delivered(record: TransactionRecord): TransactionRecord {
    record.(envelope := record.envelope.(commands := DeliveredCommands(record.envelope.commands)))
  }

  function DeliveredLog(transactions: seq<TransactionRecord>): seq<TransactionRecord> {
    if transactions == [] then []
    else DeliveredLog(transactions[..|transactions| - 1]) + [Delivered(transactions[|transactions| - 1])]
  }

  lemma {:induction false} DeliveredAppend(transactions: seq<TransactionRecord>, record: TransactionRecord)
    ensures DeliveredLog(transactions + [record]) == DeliveredLog(transactions) + [Delivered(record)]
  {
    assert (transactions + [record])[..|transactions|] == transactions;
  }

  /** No batch of the log associates an identity twice. */
  ghost predicate NoDoubles(transactions: seq<TransactionRecord>) {
    forall i {:trigger transactions[i]} :: 0 <= i < |transactions| ==>
      DistinctIdentities(Associations(transactions[i].envelope.commands))
  }

  lemma {:induction false} DeliveredWhole(record: TransactionRecord)
    requires DistinctIdentities(Associations(record.envelope.commands))
    ensures Delivered(record) == record
  {}

  lemma {:induction false} AllDelivered(transactions: seq<TransactionRecord>)
    requires NoDoubles(transactions)
    ensures DeliveredLog(transactions) == transactions
  {
    hide Delivered, Associations, DistinctIdentities;
    if transactions != [] {
      var last := transactions[|transactions| - 1];
      AllDelivered(transactions[..|transactions| - 1]);
      DeliveredWhole(last);
    }
  }

  // ----- commits without associations -----

  lemma {:induction false} QuietDelivery(transactions: seq<TransactionRecord>, record: TransactionRecord)
    requires Associations(record.envelope.commands) == []
    ensures SameAssigned(DeliveredLog(transactions), DeliveredLog(transactions + [record]))
  {
    DeliveredAppend(transactions, record);
    NothingAssigned(DeliveredLog(transactions), record);
  }

  lemma {:induction false} EvidenceQuiet(l: Ledger, e: Envelope)
    requires Accepted(l, e) && forall i :: 0 <= i < |e.commands| ==> e.commands[i].PersistObservation?
    ensures SameAssigned(DeliveredLog(l.transactions), DeliveredLog(Commit(l, e).0.transactions))
  {
    hide Accepted, Commit, SameAssigned;
    PlainCommit(l, e);
    EvidenceLeavesOutbox(l.outbox, e.commands, l.version + 1);
    QuietDelivery(l.transactions, TransactionRecord(l.version + 1, e, true));
  }

  lemma {:induction false} ReceiptQuiet(l: Ledger, e: Envelope, m: MaterializationId, d: DecisionId)
    requires Accepted(l, e) && e.commands == [Materialized(m, d)]
    ensures SameAssigned(DeliveredLog(l.transactions), DeliveredLog(Commit(l, e).0.transactions))
  {
    hide Accepted, Commit, SameAssigned;
    PlainCommit(l, e);
    AssociationsAppend([], Materialized(m, d));
    assert [] + [Materialized(m, d)] == e.commands;
    QuietDelivery(l.transactions, TransactionRecord(l.version + 1, e, true));
  }

  // ----- a resolution commit -----

  /** Position `j` is the first to repeat an identity. */
  ghost predicate FirstRepeat(all: seq<Association>, j: nat) {
    j < |all| && Named(all, j, all[j].identity) && DistinctIdentities(all[..j])
  }

  lemma {:induction false} DeliveredUpTo(commands: seq<Command>, j: nat)
    requires FirstRepeat(Associations(commands), j)
    ensures Associations(DeliveredCommands(commands)) == Associations(commands)[..j]
    decreases |commands|
  {
    var all, shorter := Associations(commands), commands[..|commands| - 1];
    DistinctStep(all, j);
    DistinctPrefix(all, j + 1);
    var front := Associations(shorter);
    assert front <= all && |front| >= |all| - 1;
    assert front[..j] == all[..j];
    if j < |front| {
      assert front[j] == all[j];
      assert FirstRepeat(front, j) by { NamedInFront(all, front, j); }
      DeliveredUpTo(shorter, j);
    }
  }

  lemma {:induction false} NamedInFront(all: seq<Association>, front: seq<Association>, j: nat)
    requires front <= all && j < |front| && Named(all, j, all[j].identity)
    ensures Named(front, j, front[j].identity)
  {
    var i: nat :| i < j && all[i].identity == all[j].identity;
    assert front[i] == all[i] && front[j] == all[j];
  }

  /** Once the cache has taken in all deliverable associations of a batch, it follows the longer log. */
  lemma {:induction false} FollowsBatch(
    identities: map<IdentityId, HotIdentity>, transactions: seq<TransactionRecord>, record: TransactionRecord,
    applied: seq<Association>, capacity: nat)
    requires applied == Associations(DeliveredCommands(record.envelope.commands))
    requires HotMidway(identities, DeliveredLog(transactions), applied, record.version, capacity)
    ensures HotAgrees(identities, DeliveredLog(transactions + [record]), capacity)
  {
    hide HotMidway, HotAgrees, DeliveredLog;
    DeliveredAppend(transactions, record);
    MidwayEnd(identities, DeliveredLog(transactions), Delivered(record), capacity);
  }

  // ----- when the cache agrees with the whole log -----

  /** One identity's observations, told apart only by what a cache entry of this capacity shows. */
  ghost predicate LooksSame(a: seq<Given>, b: seq<Given>, capacity: nat) {
    && (a == [] <==> b == [])
    && (a != [] && b != [] ==>
          LastOf(ObservationsOf(a), capacity) == LastOf(ObservationsOf(b), capacity)
          && a[|a| - 1].version == b[|b| - 1].version)
  }

  lemma {:induction false} AgreesOnSame(
    identities: map<IdentityId, HotIdentity>, a: seq<Given>, b: seq<Given>, capacity: nat, x: IdentityId)
    requires HotAgreesOn(identities, a, capacity, x)
    ensures HotAgreesOn(identities, b, capacity, x) <==> LooksSame(a, b, capacity)
  {}

  /** What was delivered of `x`'s observations looks like all of them. */
  ghost predicate FullyShown(transactions: seq<TransactionRecord>, capacity: nat, x: IdentityId) {
    LooksSame(AssignedTo(DeliveredLog(transactions), x), AssignedTo(transactions, x), capacity)
  }

  lemma {:induction false} AgreesIff(
    identities: map<IdentityId, HotIdentity>, transactions: seq<TransactionRecord>, capacity: nat)
    requires HotAgrees(identities, DeliveredLog(transactions), capacity)
    ensures HotAgrees(identities, transactions, capacity) <==>
            forall x {:trigger FullyShown(transactions, capacity, x)} :: FullyShown(transactions, capacity, x)
  {
    hide HotAgreesOn, LooksSame;
    var delivered := DeliveredLog(transactions);
    if HotAgrees(identities, transactions, capacity) {
      forall x ensures FullyShown(transactions, capacity, x) {
        assert HotAgreesOn(identities, AssignedTo(delivered, x), capacity, x);
        assert HotAgreesOn(identities, AssignedTo(transactions, x), capacity, x);
        AgreesOnSame(identities, AssignedTo(delivered, x), AssignedTo(transactions, x), capacity, x);
      }
    }
    if forall x {:trigger FullyShown(transactions, capacity, x)} :: FullyShown(transactions, capacity, x) {
      forall x ensures HotAgreesOn(identities, AssignedTo(transactions, x), capacity, x) {
        assert FullyShown(transactions, capacity, x);
        assert HotAgreesOn(identities, AssignedTo(delivered, x), capacity, x);
        AgreesOnSame(identities, AssignedTo(delivered, x), AssignedTo(transactions, x), capacity, x);
      }
    }
  }

  // ----- what one batch does to a cache that agreed -----

  /** No identity of the batch is met only after the first repetition. */
  ghost predicate NothingLost(all: seq<Association>) {
    forall j, i {:trigger FirstRepeat(all, j), all[i]} ::
      0 <= j <= i < |all| && FirstRepeat(all, j) ==> Named(all, j, all[i].identity)
  }

  /** The batch leaves an agreeing cache in agreement. Without capacity an entry shows no observations, so
      only an identity that is never reached can make a difference. */
  ghost predicate KeepsAgreement(all: seq<Association>, capacity: nat) {
    DistinctIdentities(all) || (capacity == 0 && NothingLost(all))
  }

  lemma {:induction false} FirstRepeatUnique(all: seq<Association>, j: nat, k: nat)
    requires FirstRepeat(all, j) && FirstRepeat(all, k)
    ensures j == k
  {
    if j < k { RepeatInside(all, j, k); }
    if k < j { RepeatInside(all, k, j); }
  }

  lemma {:induction false} RepeatInside(all: seq<Association>, j: nat, k: nat)
    requires j < k <= |all| && Named(all, j, all[j].identity)
    ensures !DistinctIdentities(all[..k])
  {
    var i: nat :| i < j && all[i].identity == all[j].identity;
    assert all[..k][i] == all[i] && all[..k][j] == all[j];
  }

  lemma {:induction false} RepeatMeansDouble(all: seq<Association>, j: nat)
    requires FirstRepeat(all, j)
    ensures !DistinctIdentities(all)
  {
    RepeatInside(all, j, |all|);
    assert all[..|all|] == all;
  }

  /** Stopped at a repeated identity, a cache of no capacity still agrees exactly if nothing was lost. */
  lemma {:induction false} StoppedWithoutCapacity(
    identities: map<IdentityId, HotIdentity>, transactions: seq<TransactionRecord>, record: TransactionRecord, j: nat)
    requires var all := Associations(record.envelope.commands);
             && FirstRepeat(all, j) && TouchedExactly(identities, all, j, record.version)
             && HotMidway(identities, transactions, all[..j], record.version, 0)
    ensures HotAgrees(identities, transactions + [record], 0) <==> NothingLost(Associations(record.envelope.commands))
  {
    var all, v, after := Associations(record.envelope.commands), record.version, transactions + [record];
    assert j < |all|;
    hide HotMidway, Associations, FirstRepeat, DistinctIdentities, HotAgreesOn, LastOf, ForIdentity;
    NothingLostMeans(all, j, v);
    if HotAgrees(identities, after, 0) {
      forall x ensures Named(all, j, x) || ForIdentity(all, x, v) == [] {
        StoppedOn(identities, transactions, record, j, x);
        assert HotAgreesOn(identities, AssignedTo(after, x), 0, x);
      }
    }
    if forall x :: Named(all, j, x) || ForIdentity(all, x, v) == [] {
      forall x ensures HotAgreesOn(identities, AssignedTo(after, x), 0, x) {
        assert Named(all, j, x) || ForIdentity(all, x, v) == [];
        StoppedOn(identities, transactions, record, j, x);
      }
    }
  }

  lemma {:induction false} StoppedOn(
    identities: map<IdentityId, HotIdentity>, transactions: seq<TransactionRecord>, record: TransactionRecord, j: nat,
    x: IdentityId)
    requires var all := Associations(record.envelope.commands);
             && j <= |all| && TouchedExactly(identities, all, j, record.version)
             && HotMidway(identities, transactions, all[..j], record.version, 0)
    ensures var all := Associations(record.envelope.commands);
            HotAgreesOn(identities, AssignedTo(transactions + [record], x), 0, x) <==>
            Named(all, j, x) || ForIdentity(all, x, record.version) == []
  {
    hide HotMidway, Associations, DistinctIdentities, HotAgreesOn, LastOf;
    var all, v, after := Associations(record.envelope.commands), record.version, transactions + [record];
    AssignedAppend(transactions, record, x);
    MidwayOn(identities, transactions, all[..j], v, 0, x);
    ForIdentitySplits(all, j, x, v);
    assert Named(all, j, x) <==> x in identities && identities[x].appliedVersion == v;
    GivenVersions(all, x, v);
    NamedOrNothing(all, j, x, v);
    WithoutCapacity(identities, AssignedTo(transactions, x), ForIdentity(all[..j], x, v), ForIdentity(all, x, v), v, x);
  }

  /** Everything a batch gives carries its version. */
  lemma {:induction false} GivenVersions(all: seq<Association>, x: IdentityId, v: CommitVersion)
    ensures forall i :: 0 <= i < |ForIdentity(all, x, v)| ==> ForIdentity(all, x, v)[i].version == v
  {
    if all != [] { GivenVersions(all[..|all| - 1], x, v); }
  }

  lemma {:induction false} NamedOrNothing(all: seq<Association>, j: nat, x: IdentityId, v: CommitVersion)
    requires j <= |all|
    ensures Named(all, j, x) <==> ForIdentity(all[..j], x, v) != []
  {
    if j > 0 {
      NamedOrNothing(all, j - 1, x, v);
      ForIdentityStep(all, j - 1, x, v);
    }
  }

  lemma {:induction false} WithoutCapacity(
    identities: map<IdentityId, HotIdentity>, earlier: seq<Given>, early: seq<Given>, batch: seq<Given>,
    v: CommitVersion,
    x: IdentityId)
    requires early <= batch && HotAgreesOn(identities, earlier + early, 0, x)
    requires forall i :: 0 <= i < |batch| ==> batch[i].version == v
    requires early == [] ==> !(x in identities && identities[x].appliedVersion == v)
    ensures HotAgreesOn(identities, earlier + batch, 0, x) <==> early != [] || batch == []
  {
    if early != [] {
      assert (earlier + early)[|earlier + early| - 1] == early[|early| - 1];
      assert (earlier + batch)[|earlier + batch| - 1] == batch[|batch| - 1];
    } else {
      assert earlier + early == earlier;
      if batch != [] { assert (earlier + batch)[|earlier + batch| - 1] == batch[|batch| - 1]; }
    }
  }

  lemma {:induction false} NothingLostMeans(all: seq<Association>, j: nat, v: CommitVersion)
    requires FirstRepeat(all, j)
    ensures NothingLost(all) <==> forall x :: Named(all, j, x) || ForIdentity(all, x, v) == []
  {
    assert j < |all|;
    hide FirstRepeat, Named, ForIdentity;
    forall x | ForIdentity(all, x, v) != [] ensures exists i :: 0 <= i < |all| && all[i].identity == x {
      NamedOrNothing(all, |all|, x, v);
      assert all[..|all|] == all;
      NamedSomewhere(all, x);
    }
    forall i: nat | i < |all| ensures ForIdentity(all, all[i].identity, v) != [] {
      GivenNotEmpty(all, i, all[i].identity, v);
    }
    forall i: nat | i < j ensures Named(all, j, all[i].identity) { NamedBefore(all, i, j); }
    if NothingLost(all) {
      forall x ensures Named(all, j, x) || ForIdentity(all, x, v) == [] {
        if ForIdentity(all, x, v) != [] {
          var i: nat :| i < |all| && all[i].identity == x;
          if i >= j { assert FirstRepeat(all, j) && Named(all, j, all[i].identity); }
        }
      }
    }
    if forall x :: Named(all, j, x) || ForIdentity(all, x, v) == [] {
      forall k, i | 0 <= k <= i < |all| && FirstRepeat(all, k) ensures Named(all, k, all[i].identity) {
        FirstRepeatUnique(all, j, k);
      }
    }
  }

  lemma {:induction false} NamedSomewhere(all: seq<Association>, x: IdentityId)
    requires Named(all, |all|, x)
    ensures exists i :: 0 <= i < |all| && all[i].identity == x
  {}

  lemma {:induction false} NamedBefore(all: seq<Association>, i: nat, j: nat)
    requires i < j <= |all|
    ensures Named(all, j, all[i].identity)
  {}

  /** A cache that agreed and then stopped in the batch agrees again exactly if the batch is harmless. */
  lemma {:induction false} StoppedAgreesIff(
    identities: map<IdentityId, HotIdentity>, transactions: seq<TransactionRecord>, record: TransactionRecord, j: nat,
    capacity: nat)
    requires var all := Associations(record.envelope.commands);
             && FirstRepeat(all, j) && DistinctObservations(all)
             && TouchedExactly(identities, all, j, record.version)
             && HotMidway(identities, transactions, all[..j], record.version, capacity)
    ensures HotAgrees(identities, transactions + [record], capacity) <==>
            KeepsAgreement(Associations(record.envelope.commands), capacity)
  {
    hide HotMidway, HotAgrees, TouchedExactly, NothingLost, DistinctObservations, Associations;
    RepeatMeansDouble(Associations(record.envelope.commands), j);
    if capacity > 0 {
      DoubleLeavesStale(identities, transactions, record, j, capacity);
    } else {
      StoppedWithoutCapacity(identities, transactions, record, j);
    }
  }
}
