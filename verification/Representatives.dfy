/** Class representatives and the status `Merged`: when does a representative carry it?

    A merge marks the identity it replaces. Splits and reverts take merges away again but rebuild the marks only
    one way, so an identity can represent its class while it is still marked.
  */
module Representatives {
  import opened Types
  import opened Connectivity
  import opened Canonical
  import opened LedgerSpec
  import opened LedgerFrames
  import opened LedgerRuns
  import opened Dependencies
  import opened MemoryLedgers
  import opened Statuses

  /** `x` represents its class although its status says it was replaced. */
  ghost predicate Misnamed(l: Ledger, x: IdentityId) {
    Least(l, x) && l.identities[x] == Merged
  }

  ghost predicate RepresentativesUnmarked(l: Ledger) {
    forall x :: !Misnamed(l, x)
  }

  // ----- which merges a rebuild leaves open -----

  /** Closing a merge in the commit that opened it has no effect: the interval would be empty. */
  predicate StaysOpen(m: MergeRecord, d: DecisionId, withdrawn: set<DecisionId>, v: CommitVersion) {
    m.validity.Open() && !(d in withdrawn && m.validity.begin < v)
  }

  ghost function Remaining(l: Ledger, withdrawn: set<DecisionId>, v: CommitVersion): set<(IdentityId, IdentityId)> {
    set d | d in l.merges && StaysOpen(l.merges[d], d, withdrawn, v) :: (l.merges[d].left, l.merges[d].right)
  }

  /** `x` represents its class once the withdrawn merges are ignored. */
  ghost predicate LeastWithout(l: Ledger, withdrawn: set<DecisionId>, v: CommitVersion, x: IdentityId) {
    x in l.identities && IsLeast(x, Members(Remaining(l, withdrawn, v), l.identities.Keys, x))
  }

  function Elements(ds: seq<DecisionId>): set<DecisionId> { set d | d in ds }

  function MergesNamed(commands: seq<Command>): set<DecisionId> {
    set c | c in commands && c.Merge? :: c.merge
  }

  /** The merges transaction `t` brought. */
  function MergesOf(l: Ledger, t: TransactionId): set<DecisionId> {
    if t in l.transactionIndexes && l.transactionIndexes[t] < |l.transactions|
    then MergesNamed(l.transactions[l.transactionIndexes[t]].envelope.commands)
    else {}
  }

  function MergesOfAll(l: Ledger, targets: seq<TransactionId>, n: nat): set<DecisionId>
    requires n <= |targets|
  {
    if n == 0 then {} else MergesOfAll(l, targets, n - 1) + MergesOf(l, targets[n - 1])
  }

  predicate OneWithout(
    a: map<DecisionId, MergeRecord>, b: map<DecisionId, MergeRecord>, withdrawn: set<DecisionId>, v: CommitVersion,
    d: DecisionId)
    requires d in a && d in b
  {
    && b[d].left == a[d].left && b[d].right == a[d].right && b[d].validity.begin == a[d].validity.begin
    && (b[d].validity.Open() <==> StaysOpen(a[d], d, withdrawn, v))
  }

  ghost predicate Without(a: Ledger, b: Ledger, withdrawn: set<DecisionId>, v: CommitVersion) {
    && b.merges.Keys == a.merges.Keys
    && forall d {:trigger OneWithout(a.merges, b.merges, withdrawn, v, d)} ::
         d in a.merges ==> OneWithout(a.merges, b.merges, withdrawn, v, d)
  }

  lemma {:induction false} WithoutNothing(a: Ledger, b: Ledger, v: CommitVersion)
    requires b.merges == a.merges
    ensures Without(a, b, {}, v)
  {}

  lemma {:induction false} WithoutBoth(
    a: Ledger, b: Ledger, c: Ledger, first: set<DecisionId>, second: set<DecisionId>, v: CommitVersion)
    requires Without(a, b, first, v) && Without(b, c, second, v)
    ensures Without(a, c, first + second, v)
  {
    forall d | d in a.merges ensures OneWithout(a.merges, c.merges, first + second, v, d) {
      assert OneWithout(a.merges, b.merges, first, v, d) && OneWithout(b.merges, c.merges, second, v, d);
    }
  }

  lemma {:induction false} WithoutRemains(a: Ledger, b: Ledger, withdrawn: set<DecisionId>, v: CommitVersion)
    requires Without(a, b, withdrawn, v)
    ensures OpenMerges(b) == Remaining(a, withdrawn, v) <= OpenMerges(a)
  {
    forall d | d in a.merges ensures b.merges[d].validity.Open() <==> StaysOpen(a.merges[d], d, withdrawn, v) {
      assert OneWithout(a.merges, b.merges, withdrawn, v, d);
    }
    forall d | d in a.merges
      ensures (b.merges[d].left, b.merges[d].right) == (a.merges[d].left, a.merges[d].right)
    {
      assert OneWithout(a.merges, b.merges, withdrawn, v, d);
    }
  }

  lemma {:induction false} CloseMergeWithout(l: Ledger, d: DecisionId, v: CommitVersion)
    ensures Without(l, CloseMerge(l, d, v), {d}, v)
  {
    forall k | k in l.merges ensures OneWithout(l.merges, CloseMerge(l, d, v).merges, {d}, v, k) {}
  }

  lemma {:induction false} CloseMergesWithout(l: Ledger, ds: seq<DecisionId>, n: nat, v: CommitVersion)
    requires n <= |ds|
    ensures Without(l, CloseMerges(l, ds, n, v), Elements(ds[..n]), v)
  {
    hide Without, CloseMerge;
    if n == 0 {
      WithoutNothing(l, l, v);
      assert Elements(ds[..0]) == {};
    } else {
      CloseMergesWithout(l, ds, n - 1, v);
      var l1 := CloseMerges(l, ds, n - 1, v);
      CloseMergeWithout(l1, ds[n - 1], v);
      WithoutBoth(l, l1, CloseMerge(l1, ds[n - 1], v), Elements(ds[..n - 1]), {ds[n - 1]}, v);
      assert Elements(ds[..n]) == Elements(ds[..n - 1]) + {ds[n - 1]};
    }
  }

  lemma {:induction false} DeactivateCommandWithout(l: Ledger, c: Command, v: CommitVersion)
    ensures Without(l, DeactivateCommand(l, c, v), MergesNamed([c]), v)
  {
    hide CurrentClosedInferences, CurrentClosedDecisions, ClosedDecisions;
    var l', named := DeactivateCommand(l, c, v), MergesNamed([c]);
    assert c in [c];
    assert c.Merge? ==> named == {c.merge};
    assert !c.Merge? ==> l'.merges == l.merges && named == {};
    forall d | d in l.merges ensures OneWithout(l.merges, l'.merges, named, v, d) {}
  }

  lemma {:induction false} DeactivateCommandsWithout(l: Ledger, commands: seq<Command>, n: nat, v: CommitVersion)
    requires n <= |commands|
    ensures Without(l, DeactivateCommands(l, commands, n, v), MergesNamed(commands[..n]), v)
  {
    hide Without, DeactivateCommand;
    if n == 0 {
      WithoutNothing(l, l, v);
      assert MergesNamed(commands[..0]) == {};
    } else {
      DeactivateCommandsWithout(l, commands, n - 1, v);
      var l1, c := DeactivateCommands(l, commands, n - 1, v), commands[n - 1];
      DeactivateCommandWithout(l1, c, v);
      WithoutBoth(l, l1, DeactivateCommand(l1, c, v), MergesNamed(commands[..n - 1]), MergesNamed([c]), v);
      assert commands[..n] == commands[..n - 1] + [c];
      assert MergesNamed(commands[..n]) == MergesNamed(commands[..n - 1]) + MergesNamed([c]);
    }
  }

  lemma {:induction false} DeactivateWithout(l: Ledger, t: TransactionId, v: CommitVersion)
    ensures Without(l, Deactivate(l, t, v), MergesOf(l, t), v)
  {
    hide Without, DeactivateCommands, RebuiltStatus;
    if t in l.transactionIndexes && l.transactionIndexes[t] < |l.transactions| {
      var index := l.transactionIndexes[t];
      var commands := l.transactions[index].envelope.commands;
      var l1 := l.(transactions := l.transactions[index := l.transactions[index].(active := false)]);
      var l2 := DeactivateCommands(l1, commands, |commands|, v);
      DeactivateCommandsWithout(l1, commands, |commands|, v);
      assert commands[..|commands|] == commands;
      SameMergesWithout(l, l1, l2, Rebuilt(l2), MergesNamed(commands), v);
    } else {
      WithoutNothing(l, l, v);
    }
  }

  lemma {:induction false} SameMergesWithout(
    a: Ledger, a': Ledger, b: Ledger, b': Ledger, withdrawn: set<DecisionId>, v: CommitVersion)
    requires Without(a', b, withdrawn, v) && a'.merges == a.merges && b'.merges == b.merges
    ensures Without(a, b', withdrawn, v)
  {}

  lemma {:induction false} SameMergesOf(l: Ledger, l': Ledger, t: TransactionId)
    requires SameLog(l, l')
    ensures MergesOf(l', t) == MergesOf(l, t)
  {
    if t in l.transactionIndexes && l.transactionIndexes[t] < |l.transactions| {
      assert SameEntry(l.transactions, l'.transactions, l.transactionIndexes[t]);
    }
  }

  lemma {:induction false} DeactivateAllWithout(l: Ledger, targets: seq<TransactionId>, n: nat, v: CommitVersion)
    requires n <= |targets|
    ensures Without(l, DeactivateAll(l, targets, n, v), MergesOfAll(l, targets, n), v)
  {
    hide Without, Deactivate, MergesOf, SameLog, SameRecords;
    if n == 0 {
      WithoutNothing(l, l, v);
    } else {
      DeactivateAllWithout(l, targets, n - 1, v);
      var l1, t := DeactivateAll(l, targets, n - 1, v), targets[n - 1];
      DeactivateAllRevises(l, targets, n - 1, v);
      SameMergesOf(l, l1, t);
      DeactivateWithout(l1, t, v);
      WithoutBoth(l, l1, Deactivate(l1, t, v), MergesOfAll(l, targets, n - 1), MergesOf(l, t), v);
    }
  }

  // ----- what a rebuild does to the marks -----

  lemma {:induction false} RemainingDecidesLeast(
    l: Ledger, l': Ledger, withdrawn: set<DecisionId>, v: CommitVersion, x: IdentityId)
    requires Without(l, l', withdrawn, v) && l'.identities.Keys == l.identities.Keys
    ensures Least(l', x) <==> LeastWithout(l, withdrawn, v, x)
    ensures Least(l, x) ==> Least(l', x)
  {
    hide Without, OpenMerges, Remaining, IsLeast, Members;
    WithoutRemains(l, l', withdrawn, v);
    if Least(l, x) { LeastWithFewerMerges(l, l', x); }
  }

  /** A rebuild marks whoever does not represent its class, and unmarks nobody. */
  lemma {:induction false} RebuiltMarks(l: Ledger, x: IdentityId)
    requires x in l.identities
    ensures x in Rebuilt(l).identities
    ensures Rebuilt(l).identities[x] == if Least(l, x) then l.identities[x] else Merged
    ensures Least(Rebuilt(l), x) <==> Least(l, x)
  {
    hide Least, CanonicalOf, OpenMerges;
    LeastIsCanonical(l, x);
    OpenMergesField(l, Rebuilt(l));
    SameClasses(l, Rebuilt(l), x);
  }

  lemma {:induction false} ReopenedStatus(
    identities: map<IdentityId, IdentityStatus>, parts: seq<SplitPartition>, n: nat, x: IdentityId)
    requires n <= |parts| && x in identities
    ensures x in Reopen(identities, parts, n)
    ensures Reopen(identities, parts, n)[x] == if HasPart(parts, n, x) then Active else identities[x]
  {
    if n > 0 { ReopenedStatus(identities, parts, n - 1, x); }
  }

  lemma {:induction false} SplitMarks(l: Ledger, plan: SplitPlan, v: CommitVersion, x: IdentityId)
    requires KnownParts(l, plan.partitions) && x in l.identities
    ensures x in SplitIdentities(l, plan, v).identities
    ensures Least(l, x) ==> LeastWithout(l, Elements(plan.closeMerges), v, x)
    ensures Misnamed(SplitIdentities(l, plan, v), x) <==>
            && LeastWithout(l, Elements(plan.closeMerges), v, x)
            && l.identities[x] == Merged && !HasPart(plan.partitions, |plan.partitions|, x)
  {
    hide Without, Rebuilt, CloseMerges, Reopen, Least, LeastWithout, OpenMerges, HasPart, RebuiltStatus;
    var n, parts := |plan.closeMerges|, plan.partitions;
    var l1 := CloseMerges(l, plan.closeMerges, n, v);
    CloseMergesRevises(l, plan.closeMerges, n, v);
    CloseMergesWithout(l, plan.closeMerges, n, v);
    assert plan.closeMerges[..n] == plan.closeMerges;
    ReopenKeys(l1.identities, parts, |parts|);
    ReopenedStatus(l1.identities, parts, |parts|, x);
    var l2 := l1.(identities := Reopen(l1.identities, parts, |parts|));
    SameMergesWithout(l, l, l1, l2, Elements(plan.closeMerges), v);
    RemainingDecidesLeast(l, l2, Elements(plan.closeMerges), v, x);
    RebuiltMarks(l2, x);
  }

  lemma {:induction false} DeactivateKeys(l: Ledger, t: TransactionId, v: CommitVersion)
    ensures Deactivate(l, t, v).identities.Keys == l.identities.Keys
  {
    hide Deactivate, SameLog, SameRecords;
    DeactivateRevises(l, t, v);
  }

  lemma {:induction false} DeactivateRebuilds(l: Ledger, t: TransactionId, v: CommitVersion) returns (l2: Ledger)
    requires t in l.transactionIndexes && l.transactionIndexes[t] < |l.transactions|
    ensures Deactivate(l, t, v) == Rebuilt(l2) && l2.identities == l.identities
  {
    hide Rebuilt, DeactivateCommands;
    var index := l.transactionIndexes[t];
    var commands := l.transactions[index].envelope.commands;
    var l1 := l.(transactions := l.transactions[index := l.transactions[index].(active := false)]);
    l2 := DeactivateCommands(l1, commands, |commands|, v);
    DeactivateCommandsShrink(l1, commands, |commands|, v);
  }

  lemma {:induction false} NotIndexed(l: Ledger, t: TransactionId, v: CommitVersion)
    requires !(t in l.transactionIndexes && l.transactionIndexes[t] < |l.transactions|)
    ensures Deactivate(l, t, v) == l
  {}

  lemma {:induction false} DeactivateMarks(l: Ledger, t: TransactionId, v: CommitVersion, x: IdentityId)
    requires x in l.identities
    ensures x in Deactivate(l, t, v).identities
    ensures Least(l, x) ==> Least(Deactivate(l, t, v), x)
    ensures Least(Deactivate(l, t, v), x) ==> Deactivate(l, t, v).identities[x] == l.identities[x]
    ensures !Least(Deactivate(l, t, v), x) && t in l.transactionIndexes
            && l.transactionIndexes[t] < |l.transactions| ==>
              Deactivate(l, t, v).identities[x] == Merged
    ensures Deactivate(l, t, v).identities[x] == l.identities[x] || Deactivate(l, t, v).identities[x] == Merged
  {
    hide Deactivate, Rebuilt, Least, LeastWithout, Without, MergesOf;
    DeactivateKeys(l, t, v);
    DeactivateWithout(l, t, v);
    RemainingDecidesLeast(l, Deactivate(l, t, v), MergesOf(l, t), v, x);
    if t in l.transactionIndexes && l.transactionIndexes[t] < |l.transactions| {
      var l2 := DeactivateRebuilds(l, t, v);
      RebuiltMarks(l2, x);
    } else {
      NotIndexed(l, t, v);
    }
  }

  /** Withdrawing several transactions: merges only disappear, so whoever the first rebuild does not mark is
      marked by none. */
  lemma {:induction false} DeactivateAllMarks(
    l: Ledger, targets: seq<TransactionId>, n: nat, v: CommitVersion, x: IdentityId)
    requires 0 < n <= |targets| && x in l.identities
    requires WellIndexed(l) && targets[0] in l.transactionIndexes
    ensures x in DeactivateAll(l, targets, n, v).identities
    ensures Least(DeactivateAll(l, targets, 1, v), x) ==> Least(DeactivateAll(l, targets, n, v), x)
    ensures DeactivateAll(l, targets, n, v).identities[x] == Merged <==>
            l.identities[x] == Merged || !Least(DeactivateAll(l, targets, 1, v), x)
  {
    hide Deactivate, Least, Indexed;
    if n == 1 {
      assert DeactivateAll(l, targets, 0, v) == l;
      DeactivateMarks(l, targets[0], v, x);
    } else {
      DeactivateAllMarks(l, targets, n - 1, v, x);
      DeactivateMarks(DeactivateAll(l, targets, n - 1, v), targets[n - 1], v, x);
    }
  }

  lemma {:induction false} RevertMarks(l: Ledger, t: TransactionId, mode: RevertMode, v: CommitVersion, x: IdentityId)
    requires WellIndexed(l) && t in l.transactionIndexes && mode != Compensating && x in l.identities
    ensures var targets := RevertTargets(l, t, mode);
            && |targets| > 0 && targets[0] == t
            && x in RevertTransaction(l, t, mode, v).identities
            && (Least(l, x) ==> LeastWithout(l, MergesOfAll(l, targets, |targets|), v, x))
            && (Misnamed(RevertTransaction(l, t, mode, v), x) <==>
                && LeastWithout(l, MergesOfAll(l, targets, |targets|), v, x)
                && (l.identities[x] == Merged || !LeastWithout(l, MergesOf(l, t), v, x)))
  {
    hide Deactivate, Without, Least, LeastWithout, WellIndexed, Closure, Reaches, SameLog, SameRecords, MergesOf;
    var targets := RevertTargets(l, t, mode);
    if mode == Cascade { CascadeIsClosure(l, t); }
    var n := |targets|;
    DeactivateAllMarks(l, targets, n, v, x);
    DeactivateAllRevises(l, targets, n, v);
    DeactivateAllRevises(l, targets, 1, v);
    DeactivateAllWithout(l, targets, n, v);
    DeactivateAllWithout(l, targets, 1, v);
    assert MergesOfAll(l, targets, 1) == MergesOf(l, t) by { assert MergesOfAll(l, targets, 0) == {}; }
    RemainingDecidesLeast(l, DeactivateAll(l, targets, n, v), MergesOfAll(l, targets, n), v, x);
    RemainingDecidesLeast(l, DeactivateAll(l, targets, 1, v), MergesOf(l, t), v, x);
  }

  // ----- one command -----

  /** The split or revert `c` leaves `x` representing its class with the status `Merged`: the merges it leaves
      open no longer put `x` below another identity, `x` is marked, and no partition names it. A revert marks
      `x` itself when `x` is below another identity after the first withdrawn transaction and no longer after
      the last. */
  ghost predicate Leaves(l: Ledger, v: CommitVersion, c: Command, x: IdentityId)
    requires Rebuilds(c)
  {
    && x in l.identities
    && if c.Split? then
         && l.identities[x] == Merged && !HasPart(c.plan.partitions, |c.plan.partitions|, x)
         && LeastWithout(l, Elements(c.plan.closeMerges), v, x)
       else
         var targets := RevertTargets(l, c.transaction, c.mode);
         && LeastWithout(l, MergesOfAll(l, targets, |targets|), v, x)
         && (l.identities[x] == Merged || !LeastWithout(l, MergesOf(l, c.transaction), v, x))
  }

  /** A lifecycle change of `x`, a merge of the class `x` represents, or a partition naming `x`. */
  ghost predicate Repairs(l: Ledger, c: Command, x: IdentityId) {
    || (Relabels(c) && c.identity == x)
    || (c.Merge? && UnitedMinima(l, c.left, c.right).Some?
        && (UnitedMinima(l, c.left, c.right).value.0 == x || UnitedMinima(l, c.left, c.right).value.1 == x))
    || (c.Split? && HasPart(c.plan.partitions, |c.plan.partitions|, x))
  }

  lemma {:induction false} SameMisnamed(l: Ledger, l': Ledger, x: IdentityId)
    requires l'.identities == l.identities && l'.merges == l.merges
    ensures Misnamed(l', x) <==> Misnamed(l, x)
  {
    OpenMergesField(l, l');
    SameClasses(l, l', x);
  }

  lemma {:induction false} BirthMisnames(l: Ledger, l': Ledger, born: IdentityId, x: IdentityId)
    requires MergesKnown(l) && born !in l.identities
    requires l'.identities == l.identities[born := Active] && l'.merges == l.merges
    ensures Misnamed(l', x) <==> Misnamed(l, x)
  {
    hide MergesKnown, OpenMerges;
    OpenMergesField(l, l');
    if x in l.identities { BornIsAlone(l, l', born, x); }
  }

  lemma {:induction false} RelabelMisnames(l: Ledger, t: TransactionId, v: CommitVersion, c: Command, x: IdentityId)
    requires Relabels(c) && c.identity in l.identities
    ensures Misnamed(ApplyCommand(l, t, v, c), x) <==> Misnamed(l, x) && c.identity != x
  {
    hide OpenMerges, Least;
    var l' := ApplyCommand(l, t, v, c);
    OpenMergesField(l, l');
    SameClasses(l, l', x);
    if Misnamed(l', x) { LeastKnown(l', x); }
    if Misnamed(l, x) { LeastKnown(l, x); }
  }

  lemma {:induction false} LeastKnown(l: Ledger, x: IdentityId)
    requires Least(l, x)
    ensures x in l.identities
  {}

  lemma {:induction false} MergeMisnames(l: Ledger, c: Command, t: TransactionId, v: CommitVersion, x: IdentityId)
    requires c.Merge? && MergesKnown(l) && c.merge !in l.merges && c.left in l.identities && c.right in l.identities
    ensures Misnamed(MergeIdentities(l, c, t, v), x) <==> Misnamed(l, x) && !Repairs(l, c, x)
  {
    hide Least, OpenMerges, RecordOf, UnitedMinima, MergesKnown;
    var l' := MergeIdentities(l, c, t, v);
    MergedKeys(l, c.left, c.right);
    NewMerge(l, c, t, v);
    OpenMergesField(l.(merges := l'.merges), l');
    if x in l.identities {
      MergeDethrones(l, l', c.left, c.right, x);
      if UnitedMinima(l, c.left, c.right).Some? { UnitedLeast(l, c.left, c.right); }
    } else {
      if Least(l', x) { LeastKnown(l', x); }
      if Least(l, x) { LeastKnown(l, x); }
    }
  }

  lemma {:induction false} RebuildMisnames(l: Ledger, t: TransactionId, v: CommitVersion, c: Command, x: IdentityId)
    requires Rebuilds(c) && WellIndexed(l) && Ready(l, v, c)
    requires c.Revert? ==> c.transaction in l.transactionIndexes
    ensures Misnamed(ApplyCommand(l, t, v, c), x) <==> Leaves(l, v, c, x)
    ensures Misnamed(l, x) && !Repairs(l, c, x) ==> Leaves(l, v, c, x)
  {
    hide LeastWithout, SplitIdentities, RevertTransaction, WellIndexed, MergesOf, MergesOfAll, RevertTargets, HasPart,
         SameLog, SameRecords;
    if x in l.identities {
      match c
      case Split(plan) => SplitMarks(l, plan, v, x);
      case Revert(target, mode) => RevertMarks(l, target, mode, v, x);
    } else {
      match c
      case Split(plan) => SplitRevises(l, plan, v);
      case Revert(target, mode) => RevertRevises(l, target, mode, v);
    }
  }

  /** How each command affects the misnaming of `x`. */
  lemma {:induction false} CommandMisnames(l: Ledger, t: TransactionId, v: CommitVersion, c: Command, x: IdentityId)
    requires MergesKnown(l) && WellIndexed(l) && Ready(l, v, c)
    requires c.Revert? ==> c.transaction in l.transactionIndexes
    ensures Misnamed(ApplyCommand(l, t, v, c), x) <==>
            (Misnamed(l, x) && !Repairs(l, c, x)) || (Rebuilds(c) && Leaves(l, v, c, x))
  {
    hide Misnamed, Leaves, MergeIdentities, SplitIdentities, MergesKnown, WellIndexed, Completed, UnitedMinima, HasPart,
         RevertTargets, DeactivateAll, CurrentClosedInferences, CurrentClosedDecisions;
    match c
    case CommitResolution(i, d, created) =>
      var l' := Resolve(l, i, d, created, v);
      if created.Some? { BirthMisnames(l, l', created.value, x); } else { SameMisnamed(l, l', x); }
    case CreateIdentity(y, _) => BirthMisnames(l, ApplyCommand(l, t, v, c), y, x);
    case Merge(_, _, _, _, _, _) => MergeMisnames(l, c, t, v, x);
    case Split(_) => RebuildMisnames(l, t, v, c, x);
    case Revert(_, mode) =>
      if mode != Compensating { RebuildMisnames(l, t, v, c, x); } else { SameMisnamed(l, l, x); }
    case PersistObservation(_) => SameMisnamed(l, ApplyCommand(l, t, v, c), x);
    case EnqueueMaterialization(_, _, _) => SameMisnamed(l, ApplyCommand(l, t, v, c), x);
    case Materialized(_, _) => SameMisnamed(l, ApplyCommand(l, t, v, c), x);
    case _ => RelabelMisnames(l, t, v, c, x);
  }

  // ----- batches -----

  /** None of the commands from `i` up to `m` repairs `x`. */
  ghost predicate Unrepaired(l: Ledger, e: Envelope, v: CommitVersion, i: nat, m: nat, x: IdentityId)
    requires m <= |e.commands|
  {
    forall j {:trigger ApplyPrefix(l, e, v, j)} :: i <= j < m ==> !Repairs(ApplyPrefix(l, e, v, j), e.commands[j], x)
  }

  /** Command `i` leaves `x` misnamed and no later command of the first `m` repairs it. */
  ghost predicate LeavesAt(l: Ledger, e: Envelope, v: CommitVersion, i: nat, m: nat, x: IdentityId)
    requires i < m <= |e.commands|
  {
    Rebuilds(e.commands[i]) && Leaves(ApplyPrefix(l, e, v, i), v, e.commands[i], x) && Unrepaired(l, e, v, i + 1, m, x)
  }

  ghost predicate BatchLeaves(l: Ledger, e: Envelope, v: CommitVersion, m: nat, x: IdentityId)
    requires m <= |e.commands|
  {
    exists i {:trigger LeavesAt(l, e, v, i, m, x)} :: 0 <= i < m && LeavesAt(l, e, v, i, m, x)
  }

  lemma {:induction false} BatchMisnames(l: Ledger, e: Envelope, v: CommitVersion, m: nat, x: IdentityId)
    requires Applicable(l, e, v) && m <= |e.commands| && MergesKnown(l) && WellIndexed(l)
    requires CheckPrefix(l, l.version + 1, e.commands, |e.commands|).Ok?
    ensures Misnamed(ApplyPrefix(l, e, v, m), x) <==>
            (Misnamed(l, x) && Unrepaired(l, e, v, 0, m, x)) || BatchLeaves(l, e, v, m, x)
  {
    hide Misnamed, MergesKnown, WellIndexed, Applicable, ApplyCommand, Ready, Rebuilds, CheckCommand, SameEntry, Leaves,
         Repairs, BatchLeaves, Unrepaired;
    if m == 0 {
      NothingLeft(l, e, v, x);
    } else {
      BatchMisnames(l, e, v, m - 1, x);
      var now, c := ApplyPrefix(l, e, v, m - 1), e.commands[m - 1];
      PrefixMergesKnown(l, e, v, m - 1);
      ReadyAt(l, e, v, m - 1);
      SameLogWellIndexed(l, now);
      if c.Revert? { RevertTargetKnown(l, e, m - 1); }
      CommandMisnames(now, e.transaction, v, c, x);
      LeavingStep(l, e, v, m, x);
    }
  }

  lemma {:induction false} NothingLeft(l: Ledger, e: Envelope, v: CommitVersion, x: IdentityId)
    ensures Unrepaired(l, e, v, 0, 0, x) && !BatchLeaves(l, e, v, 0, x)
  {}

  lemma {:induction false} LeavingStep(l: Ledger, e: Envelope, v: CommitVersion, m: nat, x: IdentityId)
    requires 0 < m <= |e.commands|
    ensures var now, c := ApplyPrefix(l, e, v, m - 1), e.commands[m - 1];
            && (BatchLeaves(l, e, v, m, x) <==>
                (BatchLeaves(l, e, v, m - 1, x) && !Repairs(now, c, x)) || (Rebuilds(c) && Leaves(now, v, c, x)))
            && (Unrepaired(l, e, v, 0, m, x) <==> Unrepaired(l, e, v, 0, m - 1, x) && !Repairs(now, c, x))
  {
    hide Leaves, Repairs, Rebuilds;
    var n, c := m - 1, e.commands[m - 1];
    forall i | 0 <= i < n
      ensures LeavesAt(l, e, v, i, m, x) <==> LeavesAt(l, e, v, i, n, x) && !Repairs(ApplyPrefix(l, e, v, n), c, x)
    {
      UnrepairedStep(l, e, v, i + 1, n, x);
    }
    UnrepairedStep(l, e, v, 0, n, x);
    assert LeavesAt(l, e, v, n, m, x) <==> Rebuilds(c) && Leaves(ApplyPrefix(l, e, v, n), v, c, x);
  }

  lemma {:induction false} UnrepairedStep(l: Ledger, e: Envelope, v: CommitVersion, i: nat, n: nat, x: IdentityId)
    requires i <= n < |e.commands|
    ensures Unrepaired(l, e, v, i, n + 1, x) <==>
            Unrepaired(l, e, v, i, n, x) && !Repairs(ApplyPrefix(l, e, v, n), e.commands[n], x)
  {
    hide Repairs;
  }

  // ----- commits -----

  ghost predicate CommitRepairs(log: seq<Envelope>, k: nat, x: IdentityId)
    requires k < |log|
  {
    !Unrepaired(State(log, k), log[k], k + 1, 0, |log[k].commands|, x)
  }

  ghost predicate CommitLeaves(log: seq<Envelope>, k: nat, x: IdentityId)
    requires k < |log|
  {
    BatchLeaves(State(log, k), log[k], k + 1, |log[k].commands|, x)
  }

  lemma {:induction false} CommitMisnames(log: seq<Envelope>, k: nat, x: IdentityId)
    requires ValidLog(log) && k < |log|
    ensures Misnamed(State(log, k + 1), x) <==>
            (Misnamed(State(log, k), x) && !CommitRepairs(log, k, x)) || CommitLeaves(log, k, x)
  {
    hide State, ValidLog, Accepted, Applicable, Validate, ApplyPrefix, AddDependents, Misnamed, BatchLeaves, Unrepaired,
         MergesKnown, WellIndexed, CheckPrefix, IsActive, Logged;
    var l, e := State(log, k), log[k];
    StateAccepts(log, k);
    StateMergesKnown(log, k);
    StateWellIndexed(log, k);
    AcceptedDependencies(l, e);
    BatchMisnames(l, e, k + 1, |e.commands|, x);
    SameMisnamed(ApplyPrefix(l, e, k + 1, |e.commands|), State(log, k + 1), x);
  }

  /** From a state in which no representative is `Merged`, a commit keeps that if and only if no split and no
      revert of its batch leaves a marked identity representing its class with nothing later in the batch
      repairing it. */
  lemma {:induction false} CommitKeepsRepresentativesIff(log: seq<Envelope>, k: nat)
    requires ValidLog(log) && k < |log| && RepresentativesUnmarked(State(log, k))
    ensures RepresentativesUnmarked(State(log, k + 1)) <==> forall x :: !CommitLeaves(log, k, x)
  {
    hide State, ValidLog, Misnamed, CommitLeaves, CommitRepairs;
    var before, after := State(log, k), State(log, k + 1);
    forall x ensures Misnamed(after, x) <==> CommitLeaves(log, k, x) {
      CommitMisnames(log, k, x);
      assert !Misnamed(before, x);
    }
  }

  // ----- whole runs -----

  /** Entry `k` leaves `x` misnamed and no entry after it, up to the `n`-th, repairs it. */
  ghost predicate LeftSince(log: seq<Envelope>, k: nat, n: nat, x: IdentityId)
    requires k < n <= |log|
  {
    CommitLeaves(log, k, x) && forall j {:trigger CommitRepairs(log, j, x)} :: k < j < n ==> !CommitRepairs(log, j, x)
  }

  ghost predicate RunLeaves(log: seq<Envelope>, n: nat, x: IdentityId)
    requires n <= |log|
  {
    exists k {:trigger LeftSince(log, k, n, x)} :: 0 <= k < n && LeftSince(log, k, n, x)
  }

  lemma {:induction false} RunLeavesStep(log: seq<Envelope>, n: nat, x: IdentityId)
    requires n < |log|
    ensures RunLeaves(log, n + 1, x) <==> (RunLeaves(log, n, x) && !CommitRepairs(log, n, x)) || CommitLeaves(log, n, x)
  {
    hide CommitRepairs, CommitLeaves;
    var m := n + 1;
    forall k | 0 <= k < n ensures LeftSince(log, k, m, x) <==> LeftSince(log, k, n, x) && !CommitRepairs(log, n, x) {}
    assert LeftSince(log, n, m, x) <==> CommitLeaves(log, n, x);
    if k :| 0 <= k < n && LeftSince(log, k, n, x) { assert LeftSince(log, k, m, x) <==> !CommitRepairs(log, n, x); }
    if k :| 0 <= k < m && LeftSince(log, k, m, x) { assert k < n ==> LeftSince(log, k, n, x); }
  }

  lemma {:induction false} RunMisnames(log: seq<Envelope>, n: nat, x: IdentityId)
    requires ValidLog(log) && n <= |log|
    ensures Misnamed(State(log, n), x) <==> RunLeaves(log, n, x)
  {
    hide ValidLog, Apply, Misnamed, CommitRepairs, CommitLeaves, RunLeaves;
    if n == 0 {
      NobodyMisnamed(log, x);
    } else {
      RunMisnames(log, n - 1, x);
      CommitMisnames(log, n - 1, x);
      RunLeavesStep(log, n - 1, x);
    }
  }

  lemma {:induction false} NobodyMisnamed(log: seq<Envelope>, x: IdentityId)
    ensures !Misnamed(EMPTY, x) && !RunLeaves(log, 0, x)
  {}

  /** In every run, no representative is `Merged` if and only if every split and revert that left one so was
      followed by a repair. */
  lemma {:induction false} RepresentativesUnmarkedIff(log: seq<Envelope>, n: nat)
    requires ValidLog(log) && n <= |log|
    ensures RepresentativesUnmarked(State(log, n)) <==> forall x :: !RunLeaves(log, n, x)
  {
    hide State, ValidLog, Misnamed, RunLeaves;
    forall x ensures Misnamed(State(log, n), x) <==> RunLeaves(log, n, x) { RunMisnames(log, n, x); }
  }
}
