/** What the commands of the log leave in the records, the promotions and the statuses. */
module Effects {
  import opened Types
  import opened Connectivity
  import opened Canonical
  import opened LedgerSpec
  import opened LedgerFrames
  import opened LedgerRuns
  import opened Dependencies
  import opened MemoryLedgers
  import opened Statuses
  import opened Representatives
  import opened Acceptance

  // ----- records -----

  /** The record a command committed at version `b` is there with everything the command said; only its end may have
      been set since. */
  predicate Recorded(l: Ledger, c: Command, transaction: TransactionId, b: CommitVersion) {
    match c
    case PersistObservation(o) =>
      && o.id in l.observations && l.observations[o.id] == o
      && o.id in l.observationCommits && l.observationCommits[o.id] == b
    case CommitResolution(inference, decision, _) =>
      && inference.id in l.inferences && decision.id in l.decisions
      && var i, d := l.inferences[inference.id], l.decisions[decision.id];
         && i.observation == inference.observation && i.providers == inference.providers
         && i.solverVersion == inference.solverVersion && i.body == inference.body && i.validity.begin == b
         && d.inference == decision.inference && d.action == decision.action
         && d.policyVersion == decision.policyVersion && d.lossVersion == decision.lossVersion && d.validity.begin == b
    case Merge(decision, left, right, support, policyVersion, lossVersion) =>
      && decision in l.merges
      && var m := l.merges[decision];
         && m.decision == decision && m.left == left && m.right == right && m.support == support
         && m.policyVersion == policyVersion && m.lossVersion == lossVersion && m.validity.begin == b
         && m.transaction == transaction
    case _ => true
  }

  lemma {:induction false} RevisionKeeps(
    l: Ledger, l': Ledger, v: CommitVersion, c: Command, transaction: TransactionId, b: CommitVersion)
    requires Revision(l, l', v) && Recorded(l, c, transaction, b)
    ensures Recorded(l', c, transaction, b)
  {
    hide Submap, SameLog;
    match c
    case CommitResolution(inference, decision, _) =>
      assert SameInference(l.inferences, l'.inferences, inference.id, v);
      assert SameDecision(l.decisions, l'.decisions, decision.id, v);
    case Merge(decision, _, _, _, _, _) => assert SameMerge(l.merges, l'.merges, decision, v);
    case _ =>
  }

  /** `l'` has every record of `l`, unchanged. */
  predicate HasRecordsOf(l: Ledger, l': Ledger) {
    && Submap(l.inferences, l'.inferences) && Submap(l.decisions, l'.decisions) && Submap(l.merges, l'.merges)
    && Submap(l.observations, l'.observations)
    && forall o :: o in l.observations && o in l.observationCommits ==>
         o in l'.observationCommits && l'.observationCommits[o] == l.observationCommits[o]
  }

  lemma {:induction false} ExtensionKeeps(
    l: Ledger, l': Ledger, c: Command, transaction: TransactionId, b: CommitVersion)
    requires HasRecordsOf(l, l') && Recorded(l, c, transaction, b)
    ensures Recorded(l', c, transaction, b)
  {}

  lemma {:induction false} CommandExtends(l: Ledger, t: TransactionId, v: CommitVersion, c: Command)
    requires Ready(l, v, c) && !c.Split? && !c.Revert?
    ensures c.CommitResolution? ==> HasRecordsOf(CloseCurrent(l, c.inference.observation, v), ApplyCommand(l, t, v, c))
    ensures !c.CommitResolution? ==> HasRecordsOf(l, ApplyCommand(l, t, v, c))
  {
    hide MergedStatuses, Completed, KnownParts, ClosedInferences, ClosedDecisions;
    if c.CommitResolution? { CloseCurrentKeys(l, c.inference.observation, v); }
  }

  lemma {:induction false} CloseCurrentKeys(l: Ledger, o: ObservationId, v: CommitVersion)
    ensures CurrentClosedInferences(l, o, v).Keys == l.inferences.Keys
    ensures CurrentClosedDecisions(l, o, v).Keys == l.decisions.Keys
  {}

  lemma {:induction false} CommandKeeps(
    l: Ledger, t: TransactionId, v: CommitVersion, next: Command, c: Command, transaction: TransactionId,
    b: CommitVersion)
    requires Ready(l, v, next) && Recorded(l, c, transaction, b)
    ensures Recorded(ApplyCommand(l, t, v, next), c, transaction, b)
  {
    hide Revision, HasRecordsOf, Recorded, Resolve, MergeIdentities, SplitIdentities, RevertTransaction, Completed,
         KnownParts, CloseCurrent;
    match next
    case Split(plan) =>
      SplitRevises(l, plan, v);
      RevisionKeeps(l, SplitIdentities(l, plan, v), v, c, transaction, b);
    case Revert(target, mode) =>
      RevertRevises(l, target, mode, v);
      RevisionKeeps(l, RevertTransaction(l, target, mode, v), v, c, transaction, b);
    case CommitResolution(i, _, _) =>
      CloseCurrentRevises(l, i.observation, v);
      RevisionKeeps(l, CloseCurrent(l, i.observation, v), v, c, transaction, b);
      CommandExtends(l, t, v, next);
      ExtensionKeeps(CloseCurrent(l, i.observation, v), ApplyCommand(l, t, v, next), c, transaction, b);
    case _ =>
      CommandExtends(l, t, v, next);
      ExtensionKeeps(l, ApplyCommand(l, t, v, next), c, transaction, b);
  }

  lemma {:induction false} CommandKept(l: Ledger, t: TransactionId, v: CommitVersion, c: Command)
    requires Ready(l, v, c)
    ensures Recorded(ApplyCommand(l, t, v, c), c, t, v)
  {
    hide SplitIdentities, RevertTransaction, MergedStatuses, Completed, KnownParts, CurrentClosedInferences,
         CurrentClosedDecisions;
  }

  lemma {:induction false} BatchKeeps(
    l: Ledger, e: Envelope, v: CommitVersion, n: nat, c: Command, transaction: TransactionId, b: CommitVersion)
    requires Applicable(l, e, v) && n <= |e.commands|
    requires Recorded(l, c, transaction, b) || (transaction == e.transaction && b == v && c in e.commands[..n])
    ensures Recorded(ApplyPrefix(l, e, v, n), c, transaction, b)
  {
    hide Applicable, ApplyCommand, Ready, Recorded, SameLog;
    if n > 0 {
      ReadyAt(l, e, v, n - 1);
      assert e.commands[..n] == e.commands[..n - 1] + [e.commands[n - 1]];
      if Recorded(l, c, transaction, b) || c in e.commands[..n - 1] {
        BatchKeeps(l, e, v, n - 1, c, transaction, b);
        CommandKeeps(
          ApplyPrefix(l, e, v, n - 1), e.transaction, v, e.commands[n - 1], c, transaction, b);
      } else {
        CommandKept(ApplyPrefix(l, e, v, n - 1), e.transaction, v, c);
      }
    }
  }

  lemma {:induction false} RecordKeeps(
    l: Ledger, e: Envelope, v: CommitVersion, c: Command, transaction: TransactionId, b: CommitVersion)
    requires Recorded(l, c, transaction, b)
    ensures Recorded(Record(l, e, v), c, transaction, b)
  {
    hide AddDependents;
  }

  /** In every run, every observation, inference, decision and merge of the log is recorded word for word, under the
      version of its commit. */
  lemma {:induction false} RecordsAreLogged(log: seq<Envelope>, k: nat, j: nat, i: nat)
    requires ValidLog(log) && j < k <= |log| && i < |log[j].commands|
    ensures Recorded(State(log, k), log[j].commands[i], log[j].transaction, j + 1)
  {
    hide ValidLog, Accepted, Applicable, Validate, ApplyPrefix, Record, Logged, Recorded;
    var l, e, c := State(log, k - 1), log[k - 1], log[j].commands[i];
    StateAccepts(log, k - 1);
    if j < k - 1 { RecordsAreLogged(log, k - 1, j, i); }
    assert e.commands[..|e.commands|] == e.commands;
    BatchKeeps(l, e, k, |e.commands|, c, log[j].transaction, j + 1);
    RecordKeeps(ApplyPrefix(l, e, k, |e.commands|), e, k, c, log[j].transaction, j + 1);
  }

  // ----- promotions -----

  /** What the first `n` commands, on top of `before`, promote `x` to. */
  function Promoted(commands: seq<Command>, n: nat, before: Option<HostEntityRef>, x: IdentityId)
    : Option<HostEntityRef>
    requires n <= |commands|
  {
    if n == 0 then before
    else if commands[n - 1].Promote? && commands[n - 1].identity == x then Some(commands[n - 1].target)
    else Promoted(commands, n - 1, before, x)
  }

  /** The last target the log names for `x`. */
  function LastPromotion(log: seq<Envelope>, k: nat, x: IdentityId): Option<HostEntityRef>
    requires k <= |log|
  {
    if k == 0 then None
    else Promoted(log[k - 1].commands, |log[k - 1].commands|, LastPromotion(log, k - 1, x), x)
  }

  function PromotionOf(l: Ledger, x: IdentityId): Option<HostEntityRef> {
    if x in l.promotions then Some(l.promotions[x]) else None
  }

  lemma {:induction false} CommandPromotes(
    l: Ledger, t: TransactionId, v: CommitVersion, c: Command, x: IdentityId)
    requires Ready(l, v, c)
    ensures PromotionOf(ApplyCommand(l, t, v, c), x) ==
            if c.Promote? && c.identity == x then Some(c.target) else PromotionOf(l, x)
  {
    hide SplitIdentities, RevertTransaction, MergedStatuses, Completed, KnownParts, CurrentClosedInferences,
         CurrentClosedDecisions, SameLog, SameRecords, Submap;
    match c
    case Split(plan) => SplitRevises(l, plan, v);
    case Revert(target, mode) => RevertRevises(l, target, mode, v);
    case _ =>
  }

  lemma {:induction false} BatchPromotes(l: Ledger, e: Envelope, v: CommitVersion, n: nat, x: IdentityId)
    requires Applicable(l, e, v) && n <= |e.commands|
    ensures PromotionOf(ApplyPrefix(l, e, v, n), x) == Promoted(e.commands, n, PromotionOf(l, x), x)
  {
    hide Applicable, ApplyCommand, Ready, SameLog, PromotionOf;
    if n > 0 {
      BatchPromotes(l, e, v, n - 1, x);
      ReadyAt(l, e, v, n - 1);
      CommandPromotes(ApplyPrefix(l, e, v, n - 1), e.transaction, v, e.commands[n - 1], x);
    }
  }

  /** In every run, an identity is promoted to the last target the log names for it; nothing takes a promotion back. */
  lemma {:induction false} PromotionsAreLogged(log: seq<Envelope>, k: nat, x: IdentityId)
    requires ValidLog(log) && k <= |log|
    ensures PromotionOf(State(log, k), x) == LastPromotion(log, k, x)
  {
    hide ValidLog, Accepted, Applicable, Validate, ApplyPrefix, AddDependents, Promoted, Logged;
    if k > 0 {
      PromotionsAreLogged(log, k - 1, x);
      StateAccepts(log, k - 1);
      BatchPromotes(State(log, k - 1), log[k - 1], k, |log[k - 1].commands|, x);
    }
  }

  // ----- statuses -----

  /** The identities a command puts below another one: those no merge that stays open leaves at the head of their
      class. A revert marks once after each transaction it withdraws, so the first withdrawal decides. */
  ghost predicate Displaced(l: Ledger, v: CommitVersion, c: Command, x: IdentityId)
    requires Rebuilds(c)
  {
    match c
    case Split(plan) => !LeastWithout(l, Elements(plan.closeMerges), v, x)
    case Revert(target, _) => !LeastWithout(l, MergesOf(l, target), v, x)
  }

  /** The merge `c` joins the class that `x` heads to another one. */
  ghost predicate Heads(l: Ledger, c: Command, x: IdentityId)
    requires c.Merge?
  {
    && Least(l, x)
    && (Connected(OpenMerges(l), c.left, x) <==> !Connected(OpenMerges(l), c.right, x))
  }

  /** The status `x` has after a command, in terms of the state before it and of the classes after a merge. */
  ghost predicate StatusStep(l: Ledger, now: Ledger, v: CommitVersion, c: Command, x: IdentityId)
    requires x in now.identities
  {
    if Rebuilds(c) && Displaced(l, v, c, x) then now.identities[x] == Merged
    else if Label(c, x).Some? then now.identities[x] == Label(c, x).value
    else if c.Merge? && Heads(l, c, x) && !Least(now, x) then now.identities[x] == Merged
    else if c.Merge? && Heads(l, c, x) && x in l.identities && l.identities[x] == Merged
    then now.identities[x] == Active
    else x in l.identities && now.identities[x] == l.identities[x]
  }

  lemma {:induction false} SplitStatus(l: Ledger, plan: SplitPlan, v: CommitVersion, x: IdentityId)
    requires KnownParts(l, plan.partitions) && x in l.identities
    ensures x in SplitIdentities(l, plan, v).identities
    ensures SplitIdentities(l, plan, v).identities[x] ==
            if !LeastWithout(l, Elements(plan.closeMerges), v, x) then Merged
            else if HasPart(plan.partitions, |plan.partitions|, x) then Active else l.identities[x]
  {
    hide Without, Rebuilt, CloseMerges, Reopen, Least, LeastWithout, OpenMerges, HasPart, RebuiltStatus;
    var n, parts := |plan.closeMerges|, plan.partitions;
    var l1 := CloseMerges(l, plan.closeMerges, n, v);
    CloseMergesRevises(l, plan.closeMerges, n, v);
    CloseMergesWithout(l, plan.closeMerges, n, v);
    assert plan.closeMerges[..n] == plan.closeMerges;
    ReopenKeys(l1.identities, parts, |parts|);
    ReopenedStatus(l1.identities, parts, |parts|, x);
    var l2 := l1.(identities := Reopen(l1.identities, parts, |parts|));
    SameMergesWithout(l, l, l1, l2, Elements(plan.closeMerges), v);
    RemainingDecidesLeast(l, l2, Elements(plan.closeMerges), v, x);
    RebuiltMarks(l2, x);
  }

  /** A withdrawal leaves a status alone or marks it. */
  lemma {:induction false} DeactivateAllStatus(
    l: Ledger, targets: seq<TransactionId>, n: nat, v: CommitVersion, x: IdentityId)
    requires n <= |targets| && x in l.identities
    ensures x in DeactivateAll(l, targets, n, v).identities
    ensures DeactivateAll(l, targets, n, v).identities[x] in {l.identities[x], Merged}
  {
    hide Deactivate, Least;
    if n > 0 {
      DeactivateAllStatus(l, targets, n - 1, v, x);
      DeactivateMarks(DeactivateAll(l, targets, n - 1, v), targets[n - 1], v, x);
    }
  }

  lemma {:induction false} RevertStatus(
    l: Ledger, t: TransactionId, mode: RevertMode, v: CommitVersion, x: IdentityId)
    requires WellIndexed(l) && t in l.transactionIndexes && mode != Compensating && x in l.identities
    ensures x in RevertTransaction(l, t, mode, v).identities
    ensures RevertTransaction(l, t, mode, v).identities[x] ==
            if !LeastWithout(l, MergesOf(l, t), v, x) then Merged else l.identities[x]
  {
    hide Deactivate, Without, Least, LeastWithout, WellIndexed, Closure, Reaches, SameLog, SameRecords, MergesOf;
    var targets := RevertTargets(l, t, mode);
    if mode == Cascade { CascadeIsClosure(l, t); }
    var n := |targets|;
    DeactivateAllMarks(l, targets, n, v, x);
    DeactivateAllStatus(l, targets, n, v, x);
    DeactivateAllRevises(l, targets, 1, v);
    DeactivateAllWithout(l, targets, 1, v);
    assert MergesOfAll(l, targets, 1) == MergesOf(l, t) by { assert MergesOfAll(l, targets, 0) == {}; }
    RemainingDecidesLeast(l, DeactivateAll(l, targets, 1, v), MergesOf(l, t), v, x);
  }

  lemma {:induction false} MergeStatus(l: Ledger, c: Command, t: TransactionId, v: CommitVersion, x: IdentityId)
    requires c.Merge? && MergesKnown(l) && c.merge !in l.merges && c.left in l.identities && c.right in l.identities
    requires x in l.identities
    ensures var now := MergeIdentities(l, c, t, v);
            && x in now.identities
            && now.identities[x] ==
               if Heads(l, c, x) && !Least(now, x) then Merged
               else if Heads(l, c, x) && l.identities[x] == Merged then Active
               else l.identities[x]
  {
    hide Least, OpenMerges, RecordOf, UnitedMinima, MergesKnown, Heads;
    var now := MergeIdentities(l, c, t, v);
    MergedKeys(l, c.left, c.right);
    NewMerge(l, c, t, v);
    OpenMergesField(l.(merges := now.merges), now);
    MergeDethrones(l, now, c.left, c.right, x);
    HeadsAreMinima(l, c, x);
    if UnitedMinima(l, c.left, c.right).Some? { UnitedLeast(l, c.left, c.right); }
  }

  /** The heads of the two classes are the minima the merge unites. */
  lemma {:induction false} HeadsAreMinima(l: Ledger, c: Command, x: IdentityId)
    requires c.Merge? && c.left in l.identities && c.right in l.identities && x in l.identities
    ensures Heads(l, c, x) <==>
            && UnitedMinima(l, c.left, c.right).Some?
            && x in {UnitedMinima(l, c.left, c.right).value.0, UnitedMinima(l, c.left, c.right).value.1}
  {
    hide Least, OpenMerges, Connected;
    HeadIsCanonical(l, c.left, x);
    HeadIsCanonical(l, c.right, x);
    CanonicalKnown(l, c.left);
    CanonicalKnown(l, c.right);
  }

  lemma {:induction false} HeadIsCanonical(l: Ledger, a: IdentityId, x: IdentityId)
    requires a in l.identities && x in l.identities
    ensures Least(l, x) && Connected(OpenMerges(l), a, x) <==> CanonicalOf(l, a) == Some(x)
  {
    hide OpenMerges, Connected, CanonicalOf, Least;
    CanonicalIsLeast(l, a);
    CanonicalKnown(l, a);
    var y := CanonicalOf(l, a).value;
    if Least(l, x) && Connected(OpenMerges(l), a, x) {
      Symmetric(OpenMerges(l), a, x);
      Transitive(OpenMerges(l), x, a, y);
      LeastUnique(l, x, y);
    }
  }

  /** Every command leaves every status as its label, the merges it opens and the merges it leaves open say. */
  lemma {:induction false} StatusAfterCommand(
    l: Ledger, t: TransactionId, v: CommitVersion, c: Command, x: IdentityId)
    requires MergesKnown(l) && WellIndexed(l) && Ready(l, v, c)
    requires c.Revert? ==> c.transaction in l.transactionIndexes
    ensures var now := ApplyCommand(l, t, v, c);
            && (x in now.identities <==> x in l.identities || Label(c, x).Some?)
            && (x in now.identities ==> StatusStep(l, now, v, c, x))
  {
    hide Least, Heads, Displaced, MergeIdentities, SplitIdentities, MergesKnown, WellIndexed, Completed, UnitedMinima,
         HasPart, RevertTargets, DeactivateAll, CurrentClosedInferences, CurrentClosedDecisions,
         RevertTransaction, LeastWithout, MergesOf, SameLog, SameRecords;
    match c
    case Merge(_, left, right, _, _, _) =>
      MergedKeys(l, left, right);
      MergeKeys(l, c, t, v);
      if x in l.identities { MergeStatus(l, c, t, v, x); }
    case Split(plan) =>
      SplitRevises(l, plan, v);
      PartsKnown(l, plan.partitions, x);
      DisplacedBySplit(l, v, c, x);
      if x in l.identities { SplitStatus(l, plan, v, x); }
    case Revert(target, mode) =>
      RevertRevises(l, target, mode, v);
      if mode != Compensating {
        DisplacedByRevert(l, v, c, x);
        if x in l.identities { RevertStatus(l, target, mode, v, x); }
      } else {
        CompensatingKeeps(l, target, v);
      }
    case _ =>
  }

  lemma {:induction false} MergeKeys(l: Ledger, c: Command, t: TransactionId, v: CommitVersion)
    requires c.Merge?
    ensures MergeIdentities(l, c, t, v).identities == MergedStatuses(l, c.left, c.right)
  {}

  lemma {:induction false} PartsKnown(l: Ledger, parts: seq<SplitPartition>, x: IdentityId)
    requires KnownParts(l, parts)
    ensures HasPart(parts, |parts|, x) ==> x in l.identities
  {}

  lemma {:induction false} DisplacedBySplit(l: Ledger, v: CommitVersion, c: Command, x: IdentityId)
    requires c.Split?
    ensures Displaced(l, v, c, x) <==> !LeastWithout(l, Elements(c.plan.closeMerges), v, x)
  {}

  lemma {:induction false} DisplacedByRevert(l: Ledger, v: CommitVersion, c: Command, x: IdentityId)
    requires c.Revert? && c.mode != Compensating
    ensures Displaced(l, v, c, x) <==> !LeastWithout(l, MergesOf(l, c.transaction), v, x)
  {}

  lemma {:induction false} CompensatingKeeps(l: Ledger, t: TransactionId, v: CommitVersion)
    ensures RevertTransaction(l, t, Compensating, v) == l
  {}

  /** In every run, each command of an accepted batch does so where it meets its turn. */
  lemma {:induction false} StatusesFollowCommands(log: seq<Envelope>, k: nat, n: nat, x: IdentityId)
    requires ValidLog(log) && k < |log| && n < |log[k].commands|
    ensures var l := ApplyPrefix(State(log, k), log[k], k + 1, n);
            var now := ApplyPrefix(State(log, k), log[k], k + 1, n + 1);
            && (x in now.identities <==> x in l.identities || Label(log[k].commands[n], x).Some?)
            && (x in now.identities ==> StatusStep(l, now, k + 1, log[k].commands[n], x))
  {
    hide State, Accepted, Applicable, Validate, Logged, MergesKnown, WellIndexed, ApplyCommand, Ready,
         StatusStep, SameLog;
    var s, e := State(log, k), log[k];
    StateAccepts(log, k);
    StateWellIndexed(log, k);
    StateMergesKnown(log, k);
    ReadyAt(s, e, k + 1, n);
    PrefixMergesKnown(s, e, k + 1, n);
    var l := ApplyPrefix(s, e, k + 1, n);
    SameLogWellIndexed(s, l);
    AcceptedReverts(s, e, n);
    IndexKept(s, l);
    StatusAfterCommand(l, e.transaction, k + 1, e.commands[n], x);
  }

  lemma {:induction false} IndexKept(l: Ledger, now: Ledger)
    requires SameLog(l, now)
    ensures now.transactionIndexes == l.transactionIndexes
  {}

  lemma {:induction false} AcceptedReverts(l: Ledger, e: Envelope, n: nat)
    requires Accepted(l, e) && n < |e.commands|
    ensures e.commands[n].Revert? ==> e.commands[n].transaction in l.transactionIndexes
  {
    hide ApplyPrefix;
    PrefixOk(l, l.version + 1, e.commands, n + 1, |e.commands|);
  }
}
