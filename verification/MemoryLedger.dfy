/** The mutable in-memory ledger, field by field, proved to refine `LedgerSpec`.

    Iteration over a hash map visits keys in an arbitrary order, modelled by an arbitrary pick.
    `roots` and `depths` are proof fields describing the canonical forest.
  */
module MemoryLedgers {
  import opened Types
  import opened Connectivity
  import opened Canonical
  import opened LedgerSpec
  import opened LedgerFrames
  import Acceptance

  ghost predicate MergesKnown(l: Ledger) {
    forall d :: d in l.merges ==> l.merges[d].left in l.identities && l.merges[d].right in l.identities
  }

  lemma {:induction false} OpenMergesKnown(l: Ledger)
    requires MergesKnown(l)
    ensures Known(OpenMerges(l), l.identities.Keys)
  {}

  lemma {:induction false} RevisionKeepsMergesKnown(l: Ledger, l': Ledger, v: CommitVersion)
    requires MergesKnown(l) && Revision(l, l', v)
    ensures MergesKnown(l')
  {
    forall d | d in l'.merges ensures l'.merges[d].left in l'.identities && l'.merges[d].right in l'.identities {
      assert SameMerge(l.merges, l'.merges, d, v);
    }
  }

  /** The forest's classes are the components of the open merges, over exactly the known identities. */
  ghost predicate Tracks(forest: Forest, roots: Roots, depths: Depths, l: Ledger) {
    && IsForest(forest, roots, depths)
    && forest.Keys == l.identities.Keys
    && Represents(roots, OpenMerges(l))
  }

  class MemoryLedger {
    var version: CommitVersion
    var observations: map<ObservationId, Observation>
    var observationCommits: map<ObservationId, CommitVersion>
    var inferences: map<InferenceId, InferenceRecord>
    var decisions: map<DecisionId, DecisionRecord>
    var currentInference: map<ObservationId, InferenceId>
    var currentDecision: map<ObservationId, DecisionId>
    var identities: map<IdentityId, IdentityStatus>
    var promotions: map<IdentityId, HostEntityRef>
    var merges: map<DecisionId, MergeRecord>
    var canonical: Forest
    var outbox: map<MaterializationId, OutboxEntry>
    var receipts: seq<Receipt>
    var transactions: seq<TransactionRecord>
    var transactionIndexes: map<TransactionId, nat>
    var dependents: map<TransactionId, seq<TransactionId>>
    var idempotency: map<IdempotencyKey, (CommitVersion, TransactionId)>
    ghost var roots: Roots
    ghost var depths: Depths

    function View(): Ledger
      reads this
    {
      Ledger(version, observations, observationCommits, inferences, decisions, currentInference, currentDecision,
             identities, promotions, merges, outbox, receipts, transactions, transactionIndexes, dependents,
               idempotency)
    }

    ghost predicate Valid()
      reads this
    {
      Tracks(canonical, roots, depths, View()) && MergesKnown(View())
    }

    constructor ()
      ensures Valid() && View() == EMPTY
    {
      version, observations, observationCommits, inferences, decisions := 0, map[], map[], map[], map[];
      currentInference, currentDecision, identities, promotions, merges := map[], map[], map[], map[], map[];
      canonical, outbox, receipts, transactions, transactionIndexes := map[], map[], [], [], map[];
      dependents, idempotency := map[], map[];
      roots, depths := map[], map[];
    }

    // ----- canonical forest -----

    /** Follows parent links with as much fuel as there are nodes; the fuel is never used up on a known
        identity, and the number of links followed is at most the logarithm of the class size. */
    method Root(identity: IdentityId) returns (root: Option<IdentityId>, ghost steps: nat)
      requires IsForest(canonical, roots, depths)
      ensures root == if identity in canonical then Some(roots[identity]) else None
      ensures identity in canonical ==> Pow2(steps) <= |Class(roots, roots[identity])|
    {
      var current := identity;
      var remaining := |canonical|;
      steps := 0;
      if identity in canonical { DepthBound(canonical, roots, depths, identity); }
      while remaining > 0
        invariant identity in canonical ==>
                    && current in canonical && roots[current] == roots[identity]
                    && steps + depths[current] == depths[identity] && depths[current] < remaining
        invariant identity !in canonical ==> current == identity
        decreases remaining
      {
        if current !in canonical { return None, steps; }
        assert Linked(canonical, roots, depths, current);
        var node := canonical[current];
        if node.parent == current { return Some(current), steps; }
        current := node.parent;
        assert Linked(canonical, roots, depths, current);
        remaining := remaining - 1;
        steps := steps + 1;
      }
      return None, steps;
    }

    method InsertCanonical(identity: IdentityId, ghost edges: set<(IdentityId, IdentityId)>)
      requires IsForest(canonical, roots, depths) && Represents(roots, edges) && Known(edges, canonical.Keys)
      requires identity !in canonical
      modifies this`canonical, this`roots, this`depths
      ensures IsForest(canonical, roots, depths) && Represents(roots, edges)
      ensures canonical.Keys == old(canonical.Keys) + {identity}
    {
      InsertKeepsForest(canonical, roots, depths, edges, identity);
      canonical := canonical[identity := CanonicalNode(identity, identity, 1)];
      roots, depths := roots[identity := identity], depths[identity := 0];
    }

    /** Unites two classes by size; returns the surviving and the replaced class minimum, or nothing when
        both identities already share a class (or one is unknown). */
    method UnionCanonical(left: IdentityId, right: IdentityId, ghost edges: set<(IdentityId, IdentityId)>)
      returns (united: Option<(IdentityId, IdentityId)>)
      requires IsForest(canonical, roots, depths) && Represents(roots, edges)
      modifies this`canonical, this`roots, this`depths
      ensures IsForest(canonical, roots, depths) && canonical.Keys == old(canonical.Keys)
      ensures left !in canonical || right !in canonical ==> united == None && roots == old(roots)
      ensures left in canonical && right in canonical ==>
                && Represents(roots, edges + {(left, right)})
                && united ==
                     Survivor(ClassMinimum(edges, canonical.Keys, left), ClassMinimum(edges, canonical.Keys, right))
    {
      hide IsForest, Represents, IsLeast, Relink, MergedRoots, MergedDepths;
      var leftRoot, _ := Root(left);
      if leftRoot.None? { return None; }
      var rightRoot, _ := Root(right);
      if rightRoot.None? { return None; }
      ghost var a, b := ClassMinimum(edges, canonical.Keys, left), ClassMinimum(edges, canonical.Keys, right);
      RootsAreNodes(canonical, roots, depths, left);
      RootsAreNodes(canonical, roots, depths, right);
      MinimumIsClassMinimum(canonical, roots, depths, edges, left);
      MinimumIsClassMinimum(canonical, roots, depths, edges, right);
      if leftRoot == rightRoot {
        RedundantEdge(roots, edges, left, right);
        return None;
      }
      MinimaDiffer(canonical, roots, depths, left, right);
      var leftNode, rightNode := canonical[leftRoot.value], canonical[rightRoot.value];
      var parent, child, parentNode, childNode := rightRoot.value, leftRoot.value, rightNode, leftNode;
      if leftNode.size > rightNode.size || (leftNode.size == rightNode.size && leftRoot.value < rightRoot.value) {
        parent, child, parentNode, childNode := leftRoot.value, rightRoot.value, leftNode, rightNode;
      }
      var minimum: IdentityId, replaced: IdentityId := parentNode.minimum, childNode.minimum;
      if childNode.minimum < parentNode.minimum {
        minimum, replaced := childNode.minimum, parentNode.minimum;
      }
      RelinkKeepsForest(canonical, roots, depths, parent, child);
      UnionRepresents(roots, edges, left, right, parent, child);
      RelinkInSteps(canonical, parent, child);
      RelinkKeys(canonical, roots, depths, parent, child);
      ghost var relinked := Relink(canonical, parent, child);
      canonical := canonical[child := canonical[child].(parent := parent)];
      canonical :=
          canonical[parent := canonical[parent].(minimum := minimum, size := parentNode.size + childNode.size)];
      assert canonical == relinked;
      roots, depths := MergedRoots(roots, parent, child), MergedDepths(roots, depths, child);
      united := Some((minimum, replaced));
    }

    /** The deterministic representative of the merge class. */
    method CanonicalIdentity(identity: IdentityId) returns (representative: Option<IdentityId>)
      requires Tracks(canonical, roots, depths, View())
      ensures representative == CanonicalOf(View(), identity)
    {
      var root, _ := Root(identity);
      if root.None? { return None; }
      MinimumIsClassMinimum(canonical, roots, depths, OpenMerges(View()), identity);
      return Some(canonical[root.value].minimum);
    }

    /** Rebuilds the forest from the open merges alone, in whatever order the maps iterate. */
    method RebuildCanonical()
      requires MergesKnown(View())
      modifies this`canonical, this`roots, this`depths, this`identities
      ensures Valid() && View() == Rebuilt(old(View()))
    {
      hide IsForest, Represents, Rebuilt, MergesKnown;
      ghost var before := View();
      InsertAll();
      UniteOpenMerges();
      assert View() == before;
      MarkMerged();
    }

    method InsertAll()
      modifies this`canonical, this`roots, this`depths
      ensures IsForest(canonical, roots, depths) && Represents(roots, {}) && canonical.Keys == identities.Keys
    {
      hide IsForest, Represents;
      EmptyForest();
      canonical, roots, depths := map[], map[], map[];
      var remaining := identities.Keys;
      while remaining != {}
        invariant IsForest(canonical, roots, depths) && Represents(roots, {})
        invariant remaining <= identities.Keys && canonical.Keys == identities.Keys - remaining
        decreases remaining
      {
        var identity :| identity in remaining;
        InsertCanonical(identity, {});
        remaining := remaining - {identity};
      }
    }

    method UniteOpenMerges()
      requires IsForest(canonical, roots, depths) && Represents(roots, {}) && canonical.Keys == identities.Keys
      requires MergesKnown(View())
      modifies this`canonical, this`roots, this`depths
      ensures Tracks(canonical, roots, depths, View())
    {
      hide IsForest, Represents, OpenMerges, EdgesOf, MergesKnown;
      ghost var before := View();
      var open := OpenDecisions();
      UniteStart(before, roots);
      while open != {}
        invariant IsForest(canonical, roots, depths)
        invariant Represents(roots, EdgesOf(before, OpenIds(before) - open))
        invariant View() == before && canonical.Keys == before.identities.Keys
        invariant open <= OpenIds(before)
        decreases open
      {
        var d :| d in open;
        assert d in OpenIds(before);
        UniteOne(d, OpenIds(before), open);
        open := open - {d};
      }
      AllOpenEdges(before);
    }

    method OpenDecisions() returns (open: set<DecisionId>)
      ensures open == OpenIds(View())
    {
      open := set d | d in merges && merges[d].validity.Open();
    }

    method UniteOne(d: DecisionId, ghost all: set<DecisionId>, ghost open: set<DecisionId>)
      requires d in merges && d in open && open <= all && MergesKnown(View())
      requires IsForest(canonical, roots, depths) && canonical.Keys == identities.Keys
      requires Represents(roots, EdgesOf(View(), all - open))
      modifies this`canonical, this`roots, this`depths
      ensures IsForest(canonical, roots, depths) && canonical.Keys == identities.Keys
      ensures Represents(roots, EdgesOf(View(), all - (open - {d})))
    {
      hide IsForest, Represents, EdgesOf, Survivor;
      EdgesOfInsert(View(), all, open, d);
      var _ := UnionCanonical(merges[d].left, merges[d].right, EdgesOf(View(), all - open));
    }

    method MarkMerged()
      requires Tracks(canonical, roots, depths, View()) && MergesKnown(View())
      modifies this`identities
      ensures Valid() && View() == Rebuilt(old(View()))
    {
      hide Tracks, MergesKnown, CanonicalOf, MarkedSoFar, Rebuilt;
      ghost var before := View();
      var remaining := identities.Keys;
      StartMarking(before);
      while remaining != {}
        invariant MarkedSoFar(before, identities, remaining) && remaining <= before.identities.Keys
        invariant View() == before.(identities := identities)
        invariant Tracks(canonical, roots, depths, View()) && MergesKnown(View())
        decreases remaining
      {
        var identity :| identity in remaining;
        MarkStep(before, identities, remaining, identity);
        MarkOne(identity);
        remaining := remaining - {identity};
      }
      FinishMarking(before, identities);
    }

    method MarkOne(identity: IdentityId)
      requires Valid() && identity in identities
      modifies this`identities
      ensures Valid()
      ensures old(CanonicalOf(View(), identity)) == Some(identity) ==> identities == old(identities)
      ensures old(CanonicalOf(View(), identity)) != Some(identity) ==> identities == old(identities)[identity := Merged]
    {
      hide Tracks, MergesKnown, CanonicalOf;
      ghost var before := View();
      CanonicalKnown(before, identity);
      var minimum := CanonicalIdentity(identity);
      if minimum.Some? && minimum.value != identity {
        identities := identities[identity := Merged];
        StatusesIrrelevant(canonical, roots, depths, before, View());
      }
    }

    // ----- commands -----

    method CloseCurrentResolution(observation: ObservationId, end: CommitVersion)
      modifies this`inferences, this`decisions
      ensures View() == CloseCurrent(old(View()), observation, end)
    {
      if observation in currentInference && currentInference[observation] in inferences {
        var id := currentInference[observation];
        inferences := inferences[id := inferences[id].(validity := inferences[id].validity.ClosedAt(end))];
      }
      if observation in currentDecision && currentDecision[observation] in decisions {
        var id := currentDecision[observation];
        decisions := decisions[id := decisions[id].(validity := decisions[id].validity.ClosedAt(end))];
      }
    }

    method VisitDependents(output: seq<TransactionId>, found: seq<TransactionId>) returns (grown: seq<TransactionId>)
      ensures grown == Visit(output, found)
    {
      grown := output;
      var i := 0;
      while i < |found|
        invariant 0 <= i <= |found| && Visit(output, found) == Visit(grown, found[i..])
      {
        assert found[i..][0] == found[i] && found[i..][1..] == found[i + 1..];
        if found[i] !in grown { grown := grown + [found[i]]; }
        i := i + 1;
      }
    }

    /** Breadth-first dependency closure; the already visited set is the set of listed transactions. */
    method CollectRevertTargets(transaction: TransactionId, mode: RevertMode) returns (output: seq<TransactionId>)
      ensures output == RevertTargets(View(), transaction, mode)
    {
      output := [transaction];
      if mode != Cascade { return; }
      var cursor := 0;
      ghost var universe := Mentioned(dependents) + {transaction};
      while cursor < |output|
        invariant 0 <= cursor <= |output| && Distinct(output) && Mentioned(dependents) <= universe
        invariant forall x :: x in output ==> x in universe
        invariant Closure(dependents, output, cursor, universe) == RevertTargets(View(), transaction, mode)
        decreases |universe| - cursor
      {
        DistinctSize(output, universe);
        var found := if output[cursor] in dependents then dependents[output[cursor]] else [];
        FoundInUniverse(dependents, output[cursor], universe);
        VisitGrows(output, found, universe);
        output := VisitDependents(output, found);
        cursor := cursor + 1;
      }
    }

    method CloseDecisionRecord(id: DecisionId, end: CommitVersion)
      modifies this`decisions
      ensures View() == CloseDecision(old(View()), id, end)
    {
      if id in decisions {
        decisions := decisions[id := decisions[id].(validity := decisions[id].validity.ClosedAt(end))];
      }
    }

    method CloseMergeRecord(id: DecisionId, end: CommitVersion)
      modifies this`merges
      ensures View() == CloseMerge(old(View()), id, end)
    {
      if id in merges {
        merges := merges[id := merges[id].(validity := merges[id].validity.ClosedAt(end))];
      }
    }

    method WithdrawCurrent(i: InferenceRecord, end: CommitVersion)
      modifies this`inferences, this`decisions, this`currentInference, this`currentDecision
      ensures View() == Withdraw(old(View()), i, end)
    {
      hide CurrentClosedInferences, CurrentClosedDecisions;
      if i.observation in currentInference && currentInference[i.observation] == i.id {
        CloseCurrentResolution(i.observation, end);
        currentInference := currentInference - {i.observation};
        currentDecision := currentDecision - {i.observation};
      }
    }

    method DeactivateOne(c: Command, end: CommitVersion)
      modifies this`inferences, this`decisions, this`merges, this`outbox, this`currentInference, this`currentDecision
      ensures View() == DeactivateCommand(old(View()), c, end)
    {
      hide Withdraw, CloseDecision, ClosedMerges;
      match c
      case CommitResolution(i, d, _) =>
        WithdrawCurrent(i, end);
        CloseDecisionRecord(d.id, end);
      case Merge(m, _, _, _, _, _) =>
        if m in merges && merges[m].validity.Open() { CloseMergeRecord(m, end); }
      case EnqueueMaterialization(m, _, _) => outbox := outbox - {m};
      case _ =>
    }

    method DeactivateTransaction(transaction: TransactionId, end: CommitVersion)
      requires Valid()
      modifies this
      ensures Valid() && View() == Deactivate(old(View()), transaction, end)
    {
      hide Tracks, MergesKnown, Rebuilt, DeactivateCommand;
      if transaction !in transactionIndexes || transactionIndexes[transaction] >= |transactions| { return; }
      var index := transactionIndexes[transaction];
      var commands := transactions[index].envelope.commands;
      transactions := transactions[index := transactions[index].(active := false)];
      ghost var before := View();
      var i := 0;
      while i < |commands|
        invariant 0 <= i <= |commands| && View() == DeactivateCommands(before, commands, i, end)
      {
        DeactivateOne(commands[i], end);
        i := i + 1;
      }
      ClearActiveRevises(old(View()), index, end);
      DeactivateCommandsRevises(before, commands, |commands|, end);
      RevisionTransitive(old(View()), before, View(), end);
      RevisionKeepsMergesKnown(old(View()), View(), end);
      RebuildCanonical();
    }

    method ApplyMerge(c: Command, transaction: TransactionId, v: CommitVersion)
      requires Valid() && c.Merge? && c.merge !in merges && c.left in identities && c.right in identities
      modifies this
      ensures Valid() && View() == MergeIdentities(old(View()), c, transaction, v)
    {
      hide Tracks, MergesKnown, UnitedMinima, AfterUnion, RecordOf;
      MergedKeys(View(), c.left, c.right);
      var united := RecordMerge(c, transaction, v);
      ghost var recorded := View();
      if united.Some? { MarkUnion(united.value.0, united.value.1); }
      StatusesIrrelevant(canonical, roots, depths, recorded, View());
    }

    method RecordMerge(c: Command, transaction: TransactionId, v: CommitVersion)
      returns (united: Option<(IdentityId, IdentityId)>)
      requires Valid() && c.Merge? && c.merge !in merges && c.left in identities && c.right in identities
      modifies this`merges, this`canonical, this`roots, this`depths
      ensures Valid() && View() == old(View()).(merges := old(merges)[c.merge := RecordOf(c, transaction, v)])
      ensures united == UnitedMinima(old(View()), c.left, c.right)
    {
      hide IsForest, Represents, ClassMinimum, OpenMerges, RecordOf, Survivor, MergesKnown, UnitedMinima, CanonicalOf;
      ghost var before := View();
      UnitedIsSurvivor(before, c.left, c.right);
      NewMerge(before, c, transaction, v);
      merges := merges[c.merge := RecordOf(c, transaction, v)];
      ghost var recorded := View();
      assert recorded == before.(merges := merges);
      united := UnionCanonical(c.left, c.right, OpenMerges(before));
      assert View() == recorded;
    }

    method MarkUnion(minimum: IdentityId, replaced: IdentityId)
      modifies this`identities
      ensures identities == AfterUnion(old(identities), minimum, replaced)
    {
      identities := identities[replaced := Merged];
      if minimum in identities && identities[minimum] == Merged {
        identities := identities[minimum := Active];
      }
    }

    method CreateNew(identity: IdentityId)
      requires Valid() && identity !in identities
      modifies this`identities, this`canonical, this`roots, this`depths
      ensures Valid() && View() == old(View()).(identities := old(identities)[identity := Active])
    {
      hide Tracks, IsForest, Represents, OpenMerges, MergesKnown;
      ghost var before := View();
      TracksParts(canonical, roots, depths, before);
      OpenMergesKnown(before);
      NewIdentity(before, identity);
      identities := identities[identity := Active];
      ghost var grown := View();
      assert grown == before.(identities := before.identities[identity := Active]);
      InsertCanonical(identity, OpenMerges(before));
      assert View() == grown;
      TracksWhole(canonical, roots, depths, grown);
    }

    method ApplyResolution(i: InferenceRecord, d: DecisionRecord, created: Option<IdentityId>, v: CommitVersion)
      requires Valid() && (created.Some? ==> created.value !in identities)
      modifies this
      ensures Valid() && View() == Resolve(old(View()), i, d, created, v)
    {
      hide Tracks, MergesKnown, CurrentClosedInferences, CurrentClosedDecisions;
      ghost var before := View();
      CloseCurrentResolution(i.observation, v);
      currentInference := currentInference[i.observation := i.id];
      currentDecision := currentDecision[i.observation := d.id];
      inferences := inferences[i.id := i];
      decisions := decisions[d.id := d];
      ghost var resolved := View();
      assert resolved == Resolve(before, i, d, None, v);
      StatusesIrrelevant(canonical, roots, depths, before, resolved);
      if created.Some? { CreateNew(created.value); }
    }

    method ReopenPartitions(parts: seq<SplitPartition>)
      modifies this`identities
      ensures identities == Reopen(old(identities), parts, |parts|)
    {
      var i := 0;
      while i < |parts|
        invariant 0 <= i <= |parts| && identities == Reopen(old(identities), parts, i)
      {
        identities := identities[parts[i].identity := Active];
        i := i + 1;
      }
    }

    method ApplySplit(plan: SplitPlan, v: CommitVersion)
      requires Valid() && KnownParts(View(), plan.partitions)
      modifies this
      ensures Valid() && View() == SplitIdentities(old(View()), plan, v)
    {
      hide Tracks, MergesKnown, Rebuilt, CloseMerge, Reopen;
      ghost var before := View();
      var i := 0;
      while i < |plan.closeMerges|
        invariant 0 <= i <= |plan.closeMerges| && View() == CloseMerges(before, plan.closeMerges, i, v)
      {
        CloseMergeRecord(plan.closeMerges[i], v);
        i := i + 1;
      }
      ghost var closed := View();
      CloseMergesRevises(before, plan.closeMerges, |plan.closeMerges|, v);
      RevisionKeepsMergesKnown(before, closed, v);
      ReopenKeys(closed.identities, plan.partitions, |plan.partitions|);
      ReopenPartitions(plan.partitions);
      RemarkRevises(closed, identities, v);
      RevisionKeepsMergesKnown(closed, View(), v);
      RebuildCanonical();
    }

    method ApplyRevert(transaction: TransactionId, mode: RevertMode, v: CommitVersion)
      requires Valid()
      modifies this
      ensures Valid() && View() == RevertTransaction(old(View()), transaction, mode, v)
    {
      hide Tracks, MergesKnown, Deactivate, RevertTargets;
      if mode == Compensating { return; }
      ghost var before := View();
      var targets := CollectRevertTargets(transaction, mode);
      var i := 0;
      while i < |targets|
        invariant 0 <= i <= |targets| && Valid() && View() == DeactivateAll(before, targets, i, v)
      {
        DeactivateTransaction(targets[i], v);
        i := i + 1;
      }
    }

    method SetStatus(identity: IdentityId, status: IdentityStatus)
      requires Valid() && identity in identities
      modifies this`identities
      ensures Valid() && View() == old(View()).(identities := old(identities)[identity := status])
    {
      hide Tracks, MergesKnown;
      ghost var before := View();
      identities := identities[identity := status];
      StatusesIrrelevant(canonical, roots, depths, before, View());
    }

    method Persist(o: Observation, v: CommitVersion)
      requires Valid()
      modifies this`observations, this`observationCommits
      ensures Valid()
      ensures View() == old(View()).(observationCommits := old(observationCommits)[o.id := v],
                                     observations := old(observations)[o.id := o])
    {
      hide Tracks, MergesKnown;
      ghost var before := View();
      observationCommits := observationCommits[o.id := v];
      observations := observations[o.id := o];
      StatusesIrrelevant(canonical, roots, depths, before, View());
    }

    method SetPromotion(identity: IdentityId, target: HostEntityRef)
      requires Valid()
      modifies this`promotions
      ensures Valid() && View() == old(View()).(promotions := old(promotions)[identity := target])
    {
      hide Tracks, MergesKnown;
      ghost var before := View();
      promotions := promotions[identity := target];
      StatusesIrrelevant(canonical, roots, depths, before, View());
    }

    method Enqueue(entry: OutboxEntry)
      requires Valid()
      modifies this`outbox
      ensures Valid() && View() == old(View()).(outbox := old(outbox)[entry.id := entry])
    {
      hide Tracks, MergesKnown;
      ghost var before := View();
      outbox := outbox[entry.id := entry];
      StatusesIrrelevant(canonical, roots, depths, before, View());
    }

    method Complete(receipt: Receipt)
      requires Valid()
      modifies this`outbox, this`receipts
      ensures Valid()
      ensures View() == old(View()).(outbox := Completed(old(outbox), receipt.materialization),
                                     receipts := old(receipts) + [receipt])
    {
      hide Tracks, MergesKnown;
      ghost var before := View();
      if receipt.materialization in outbox {
        outbox := outbox[receipt.materialization := outbox[receipt.materialization].(completed := true)];
      }
      receipts := receipts + [receipt];
      StatusesIrrelevant(canonical, roots, depths, before, View());
    }

    method ApplyOne(c: Command, transaction: TransactionId, v: CommitVersion)
      requires Valid() && Ready(View(), v, c)
      modifies this
      ensures Valid() && View() == ApplyCommand(old(View()), transaction, v, c)
    {
      hide Tracks, MergesKnown, Resolve, MergeIdentities, SplitIdentities, RevertTransaction, KnownParts;
      match c {
        case PersistObservation(o) => Persist(o, v);
        case CommitResolution(i, d, created) => ApplyResolution(i, d, created, v);
        case CreateIdentity(x, _) => CreateNew(x);
        case Promote(x, target) =>
          SetStatus(x, Resolved);
          SetPromotion(x, target);
        case Merge(_, _, _, _, _, _) => ApplyMerge(c, transaction, v);
        case Split(plan) => ApplySplit(plan, v);
        case MakeDormant(x) => SetStatus(x, Dormant);
        case Reactivate(x) => SetStatus(x, Active);
        case Retire(x) => SetStatus(x, Retired);
        case Revert(t, mode) => ApplyRevert(t, mode, v);
        case EnqueueMaterialization(m, d, relation) =>
          Enqueue(OutboxEntry(m, d, relation, v, false));
        case Materialized(m, d) => Complete(Receipt(m, d, v));
      }
    }

    method ApplyEnvelope(e: Envelope, v: CommitVersion)
      requires Valid() && Applicable(View(), e, v)
      modifies this
      ensures Valid() && View() == Apply(old(View()), e, v)
    {
      hide Tracks, MergesKnown, Ready, ApplyCommand, Applicable, Record;
      ghost var before := View();
      var i := 0;
      while i < |e.commands|
        invariant 0 <= i <= |e.commands| && Valid() && View() == ApplyPrefix(before, e, v, i)
      {
        ReadyAt(before, e, v, i);
        ApplyOne(e.commands[i], e.transaction, v);
        i := i + 1;
      }
      RecordEntry(e, v);
    }

    method RecordEntry(e: Envelope, v: CommitVersion)
      requires Valid()
      modifies this
      ensures Valid() && View() == Record(old(View()), e, v)
    {
      hide Tracks, MergesKnown, AddDependents;
      ghost var before := View();
      RecordDependencies(e);
      ghost var depending := View();
      assert depending ==
             before.(dependents := AddDependents(before.dependents, e.dependsOn, |e.dependsOn|, e.transaction));
      Append(e, v);
      StatusesIrrelevant(canonical, roots, depths, before, View());
    }

    method Append(e: Envelope, v: CommitVersion)
      modifies this`transactions, this`transactionIndexes, this`idempotency, this`version
      ensures transactions == old(transactions) + [TransactionRecord(v, e, true)] && version == v
      ensures transactionIndexes == old(transactionIndexes)[e.transaction := |old(transactions)|]
      ensures idempotency == old(idempotency)[e.idempotency := (v, e.transaction)]
    {
      var index := |transactions|;
      transactions := transactions + [TransactionRecord(v, e, true)];
      transactionIndexes := transactionIndexes[e.transaction := index];
      idempotency := idempotency[e.idempotency := (v, e.transaction)];
      version := v;
    }

    method RecordDependencies(e: Envelope)
      modifies this`dependents
      ensures dependents == AddDependents(old(dependents), e.dependsOn, |e.dependsOn|, e.transaction)
    {
      var i := 0;
      while i < |e.dependsOn|
        invariant 0 <= i <= |e.dependsOn|
        invariant dependents == AddDependents(old(dependents), e.dependsOn, i, e.transaction)
      {
        var d := e.dependsOn[i];
        dependents := dependents[d := (if d in dependents then dependents[d] else []) + [e.transaction]];
        i := i + 1;
      }
    }

    // ----- commit -----

    /** Validates a whole batch against the untouched ledger. With exact indexes, as in every run, it is accepted
        exactly when its header and each of its commands are admissible, and refused for the first that is not. */
    method ValidateEnvelope(e: Envelope) returns (r: Result<CommitVersion, LedgerError>)
      ensures r == Validate(View(), e)
      ensures Acceptance.LogIndexed(View()) ==>
                (r.Ok? <==> Acceptance.Admissible(View(), e)) && (r.Err? ==> Acceptance.Refuses(View(), e, r.error))
    {
      hide CheckCommand, IsActive, Acceptance.LogIndexed, Acceptance.Admissible, Acceptance.Refuses;
      if Acceptance.LogIndexed(View()) { Acceptance.ValidationDecided(View(), e); }
      if e.expectedVersion != version { return Err(VersionConflict(e.expectedVersion, version)); }
      if e.transaction in transactionIndexes { return Err(DuplicateTransaction(e.transaction)); }
      if version >= MAX_VERSION { return Err(VersionExhausted); }
      var i := 0;
      while i < |e.dependsOn|
        invariant 0 <= i <= |e.dependsOn|
                  && FirstInactive(View(), e.dependsOn) == FirstInactive(View(), e.dependsOn[i..])
      {
        assert e.dependsOn[i..][0] == e.dependsOn[i] && e.dependsOn[i..][1..] == e.dependsOn[i + 1..];
        var active := IsActiveTransaction(e.dependsOn[i]);
        if !active { return Err(MissingDependency(e.dependsOn[i])); }
        i := i + 1;
      }
      var pending := NOTHING_PENDING;
      i := 0;
      while i < |e.commands|
        invariant 0 <= i <= |e.commands| && CheckPrefix(View(), version + 1, e.commands, i) == Ok(pending)
      {
        var checked := CheckCommand(View(), pending, version + 1, e.commands[i]);
        if checked.Err? {
          ErrorSticks(View(), version + 1, e.commands, i + 1, |e.commands|);
          return Err(checked.error);
        }
        pending := checked.value;
        i := i + 1;
      }
      return Ok(version + 1);
    }

    method IsActiveTransaction(t: TransactionId) returns (active: bool)
      ensures active == IsActive(View(), t)
    {
      active := t in transactionIndexes && transactionIndexes[t] < |transactions|
        && transactions[transactionIndexes[t]].active;
    }

    method PrepareEnvelope(e: Envelope) returns (r: Result<Prepared, LedgerError>)
      ensures r == Prepare(View(), e)
    {
      hide Validate;
      if e.idempotency in idempotency {
        var (recorded, t) := idempotency[e.idempotency];
        if t in transactionIndexes && transactionIndexes[t] < |transactions|
           && transactions[transactionIndexes[t]].envelope == e {
          return Ok(Replay(CommitResult(recorded, true)));
        }
        return Err(IdempotencyCollision);
      }
      var validated := ValidateEnvelope(e);
      if validated.Err? { return Err(validated.error); }
      return Ok(Fresh(validated.value));
    }

    /** Validates, then applies: all of the batch or none of it, whatever the outcome. */
    method CommitEnvelope(e: Envelope) returns (r: Result<CommitResult, LedgerError>)
      requires Valid()
      modifies this
      ensures Valid() && (View(), r) == Commit(old(View()), e)
    {
      hide Tracks, MergesKnown, Validate, Applicable, Apply;
      var prepared := PrepareEnvelope(e);
      match prepared {
        case Err(error) => return Err(error);
        case Ok(Replay(result)) => return Ok(result);
        case Ok(Fresh(next)) =>
          FreshIsApplicable(View(), e);
          ApplyEnvelope(e, next);
          return Ok(CommitResult(next, false));
      }
    }
  }

  /** Every identity visited so far carries its rebuilt status, every other one its old status. */
  ghost predicate MarkedSoFar(before: Ledger, now: map<IdentityId, IdentityStatus>, remaining: set<IdentityId>) {
    && now.Keys == before.identities.Keys
    && (forall x :: x in now && x in remaining ==> now[x] == before.identities[x])
    && (forall x :: x in now && x !in remaining ==> now[x] == RebuiltStatus(before, x))
  }

  lemma {:induction false} StartMarking(before: Ledger)
    ensures MarkedSoFar(before, before.identities, before.identities.Keys)
  {
    hide CanonicalOf;
  }

  lemma {:induction false} FinishMarking(before: Ledger, now: map<IdentityId, IdentityStatus>)
    requires MarkedSoFar(before, now, {})
    ensures before.(identities := now) == Rebuilt(before)
  {
    hide CanonicalOf;
    hide RebuiltStatus;
    assert now == Rebuilt(before).identities;
  }

  lemma {:induction false} MarkStep(
    before: Ledger, now: map<IdentityId, IdentityStatus>, remaining: set<IdentityId>, x: IdentityId)
    requires MarkedSoFar(before, now, remaining) && x in remaining && remaining <= before.identities.Keys
    ensures var representative := CanonicalOf(before.(identities := now), x);
            && representative.Some?
            && (representative.value != x ==> MarkedSoFar(before, now[x := Merged], remaining - {x}))
            && (representative.value == x ==> MarkedSoFar(before, now, remaining - {x}))
    ensures x in now
  {
    hide CanonicalOf, OpenMerges;
    SameOpenMerges(before, before.(identities := now), x);
    CanonicalKnown(before, x);
  }

  lemma {:induction false} UnitedIsSurvivor(l: Ledger, left: IdentityId, right: IdentityId)
    requires left in l.identities && right in l.identities
    ensures UnitedMinima(l, left, right) == Survivor(ClassMinimum(OpenMerges(l), l.identities.Keys, left),
                                                     ClassMinimum(OpenMerges(l), l.identities.Keys, right))
  {
    hide OpenMerges, ClassMinimum, Survivor;
  }

  lemma {:induction false} TracksParts(forest: Forest, roots: Roots, depths: Depths, l: Ledger)
    requires Tracks(forest, roots, depths, l)
    ensures IsForest(forest, roots, depths) && forest.Keys == l.identities.Keys && Represents(roots, OpenMerges(l))
  {}

  lemma {:induction false} TracksWhole(forest: Forest, roots: Roots, depths: Depths, l: Ledger)
    requires IsForest(forest, roots, depths) && forest.Keys == l.identities.Keys && Represents(roots, OpenMerges(l))
    ensures Tracks(forest, roots, depths, l)
  {}

  lemma {:induction false} NewIdentity(l: Ledger, x: IdentityId)
    requires MergesKnown(l)
    ensures var l' := l.(identities := l.identities[x := Active]);
            MergesKnown(l') && OpenMerges(l') == OpenMerges(l) && l'.identities.Keys == l.identities.Keys + {x}
  {}

  lemma {:induction false} ErrorSticks(l: Ledger, next: CommitVersion, commands: seq<Command>, i: nat, j: nat)
    requires i <= j <= |commands| && CheckPrefix(l, next, commands, i).Err?
    ensures CheckPrefix(l, next, commands, j) == CheckPrefix(l, next, commands, i)
    decreases j
  {
    hide CheckCommand;
    if i < j { ErrorSticks(l, next, commands, i, j - 1); }
  }

  lemma {:induction false} FreshIsApplicable(l: Ledger, e: Envelope)
    requires Accepted(l, e)
    ensures Prepare(l, e) == Ok(Fresh(l.version + 1)) && Applicable(l, e, l.version + 1)
  {
    hide Applicable, CheckPrefix, FirstInactive;
    ValidatedIsApplicable(l, e);
  }

  lemma {:induction false} FoundInUniverse(
    dependents: map<TransactionId, seq<TransactionId>>, t: TransactionId, universe: set<TransactionId>)
    requires Mentioned(dependents) <= universe
    ensures forall x :: x in DependentsOf(dependents, t) ==> x in universe
  {}

  lemma {:induction false} NewMerge(l: Ledger, c: Command, t: TransactionId, v: CommitVersion)
    requires c.Merge? && c.merge !in l.merges && MergesKnown(l) && c.left in l.identities && c.right in l.identities
    ensures OpenMerges(l.(merges := l.merges[c.merge := RecordOf(c, t, v)])) == OpenMerges(l) + {(c.left, c.right)}
    ensures MergesKnown(l.(merges := l.merges[c.merge := RecordOf(c, t, v)]))
  {
    var l' := l.(merges := l.merges[c.merge := RecordOf(c, t, v)]);
    assert l'.merges[c.merge].validity.Open();
    forall e | e in OpenMerges(l) ensures e in OpenMerges(l') {
      var d :| d in l.merges && l.merges[d].validity.Open() && e == (l.merges[d].left, l.merges[d].right);
      assert l'.merges[d] == l.merges[d];
    }
  }

  lemma {:induction false} RootsAreNodes(forest: Forest, roots: Roots, depths: Depths, x: IdentityId)
    requires IsForest(forest, roots, depths) && x in forest
    ensures roots.Keys == depths.Keys == forest.Keys && roots[x] in forest && roots[roots[x]] == roots[x]
  {
    assert Linked(forest, roots, depths, x);
  }

  /** Relinking first the child and then the parent is relinking. */
  lemma {:induction false} RelinkInSteps(forest: Forest, parent: IdentityId, child: IdentityId)
    requires parent in forest && child in forest && parent != child
    ensures var p, c := forest[parent], forest[child];
            var minimum := if p.minimum <= c.minimum then p.minimum else c.minimum;
            var linked := forest[child := c.(parent := parent)];
            && parent in linked && linked[parent] == p
            && linked[parent := p.(minimum := minimum, size := p.size + c.size)] == Relink(forest, parent, child)
  {}

  lemma {:induction false} MinimaDiffer(forest: Forest, roots: Roots, depths: Depths, x: IdentityId, y: IdentityId)
    requires IsForest(forest, roots, depths) && x in forest && y in forest
    requires roots[x] in forest && roots[y] in forest && roots[x] != roots[y]
    ensures forest[roots[x]].minimum != forest[roots[y]].minimum
  {
    assert Weighted(forest, roots, depths, x) && Weighted(forest, roots, depths, y);
  }

  lemma {:induction false} EmptyForest()
    ensures IsForest(map[], map[], map[]) && Represents(map[], {})
  {}

  lemma {:induction false} StatusesIrrelevant(forest: Forest, roots: Roots, depths: Depths, a: Ledger, b: Ledger)
    requires a.merges == b.merges && a.identities.Keys == b.identities.Keys
    requires Tracks(forest, roots, depths, a) && MergesKnown(a)
    ensures Tracks(forest, roots, depths, b) && MergesKnown(b)
  {
    assert OpenMerges(a) == OpenMerges(b);
  }

  lemma {:induction false} AllOpenEdges(l: Ledger)
    ensures EdgesOf(l, OpenIds(l) - {}) == OpenMerges(l)
  {
    assert OpenIds(l) - {} == OpenIds(l);
  }

  lemma {:induction false} UniteStart(l: Ledger, roots: Roots)
    requires Represents(roots, {})
    ensures Represents(roots, EdgesOf(l, OpenIds(l) - OpenIds(l)))
  {
    hide Represents;
    assert EdgesOf(l, OpenIds(l) - OpenIds(l)) == {};
  }

  function OpenIds(l: Ledger): set<DecisionId> { set d | d in l.merges && l.merges[d].validity.Open() }

  function EdgesOf(l: Ledger, ids: set<DecisionId>): set<(IdentityId, IdentityId)> {
    set d | d in ids && d in l.merges :: (l.merges[d].left, l.merges[d].right)
  }

  lemma {:induction false} EdgesOfInsert(l: Ledger, ids: set<DecisionId>, open: set<DecisionId>, d: DecisionId)
    requires d in open && open <= ids && d in l.merges
    ensures EdgesOf(l, ids - (open - {d})) == EdgesOf(l, ids - open) + {(l.merges[d].left, l.merges[d].right)}
  {
    assert ids - (open - {d}) == (ids - open) + {d};
  }

  lemma {:induction false} SameOpenMerges(a: Ledger, b: Ledger, x: IdentityId)
    requires a.merges == b.merges && a.identities.Keys == b.identities.Keys
    ensures CanonicalOf(a, x) == CanonicalOf(b, x) && OpenMerges(a) == OpenMerges(b)
  {}
}
