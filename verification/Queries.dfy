/** Read-only queries over the mutable ledger, and what they answer about earlier versions. */
module Queries {
  import opened Types
  import opened LedgerSpec
  import opened LedgerRuns
  import opened MemoryLedgers
  import opened Dependencies
  import opened AsOf
  import Sorting

  /** The decision an observation's current resolution made. */
  method CurrentDecision(ledger: MemoryLedger, o: ObservationId) returns (found: Option<DecisionRecord>)
    ensures found.Some? <==> exists d :: d in CurrentDecisions(ledger.View(), o) && d in ledger.View().decisions
    ensures forall d :: d in CurrentDecisions(ledger.View(), o) && d in ledger.View().decisions ==>
              found == Some(ledger.View().decisions[d])
  {
    if o in ledger.currentDecision && ledger.currentDecision[o] in ledger.decisions {
      assert ledger.currentDecision[o] in CurrentDecisions(ledger.View(), o);
      return Some(ledger.decisions[ledger.currentDecision[o]]);
    }
    return None;
  }

  /** The first decision met, in whatever order the decisions are visited, that concerns `o` and was valid at `v`. */
  method DecisionAsOf(ledger: MemoryLedger, o: ObservationId, v: CommitVersion) returns (found: Option<DecisionId>)
    ensures found.None? ==> DecisionsAsOf(ledger.View(), o, v) == {}
    ensures found.Some? ==> found.value in DecisionsAsOf(ledger.View(), o, v)
  {
    var l := ledger.View();
    var remaining := l.decisions.Keys;
    while remaining != {}
      invariant remaining <= l.decisions.Keys
      invariant forall d :: d in l.decisions && d !in remaining ==> d !in DecisionsAsOf(l, o, v)
      decreases remaining
    {
      var d :| d in remaining;
      if Concerns(l, d, o) && l.decisions[d].validity.Contains(v) { return Some(d); }
      remaining := remaining - {d};
    }
    return None;
  }

  /** Over a log of harmless batches, the query at any later state names the decision that was current at the
      version asked about, whatever order it visits the decisions in. */
  method DecisionAsOfRun(ledger: MemoryLedger, o: ObservationId, c: nat, ghost log: seq<Envelope>, ghost n: nat)
    returns (found: Option<DecisionId>)
    requires ValidLog(log) && c <= n <= |log| && ledger.View() == State(log, n)
    requires forall j {:trigger Harmless(log, j)} :: 0 <= j < n ==> Harmless(log, j)
    ensures found == if o in State(log, c).currentDecision then Some(State(log, c).currentDecision[o]) else None
  {
    hide State, ValidLog, Harmless;
    found := DecisionAsOf(ledger, o, c);
    DecisionHistoryIff(log, n);
    assert DecisionFaithful(log, n, c, o);
  }

  /** The transactions reachable through dependents, in ascending order. */
  method DependencyClosure(ledger: MemoryLedger, t: TransactionId) returns (output: seq<TransactionId>)
    ensures Sorting.StrictlyAscending(output)
    ensures forall x: nat {:trigger x in output} :: x in output <==> Reaches(ledger.View().dependents, t, x)
  {
    var targets := ledger.CollectRevertTargets(t, Cascade);
    output := Sorting.Sort(targets);
    CascadeIsClosure(ledger.View(), t);
    SortedDistinct(targets);
    forall x: nat ensures x in output <==> x in targets { Sorting.SortMembers(targets, x); }
  }

  lemma {:induction false} SortedDistinct(s: seq<nat>)
    requires Distinct(s)
    ensures Sorting.StrictlyAscending(Sorting.Sort(s))
  {
    var t := Sorting.Sort(s);
    Sorting.NeighboursShowDuplicates(s);
    Sorting.NeighboursSuffice(t);
    forall i, j | 0 <= i < j < |t| ensures t[i] < t[j] { assert t[i] != t[j]; }
  }
}
