/** Normalised outcome distributions and the minimum-risk decision over them, on exact reals. */
module Decisions {
  import opened Types
  import opened Sorting
  import opened SumProduct
  import opened Solver

  datatype AssociationOutcome = Identity(reference: nat) | New | Noise

  /** Identities by reference, then `new`, then `noise`. */
  predicate Before(a: AssociationOutcome, b: AssociationOutcome) {
    match a
    case Identity(x) => !b.Identity? || x < b.reference
    case New => b.Noise?
    case Noise => false
  }

  datatype OutcomeProbability = OutcomeProbability(outcome: AssociationOutcome, probability: real)

  datatype ResidualMass = ResidualMass(probability: real, hasRule: bool)

  datatype DistributionError =
    | DuplicateOutcome
    | MissingOpenWorldOutcome
    | NotNormalized(sum: real)
    | EmptyTruncationRule

  datatype NormalizedDistribution = NormalizedDistribution(
    entries: seq<OutcomeProbability>, residual: Option<ResidualMass>)

  const NORMALIZATION_TOLERANCE := 0.0000000001

  // ----- canonical order -----

  predicate InOrder(entries: seq<OutcomeProbability>) {
    forall i, j :: 0 <= i < j < |entries| ==> !Before(entries[j].outcome, entries[i].outcome)
  }

  predicate StrictlyInOrder(entries: seq<OutcomeProbability>) {
    forall i, j :: 0 <= i < j < |entries| ==> Before(entries[i].outcome, entries[j].outcome)
  }

  function Outcomes(entries: seq<OutcomeProbability>): (outcomes: seq<AssociationOutcome>)
    ensures |outcomes| == |entries|
  {
    seq(|entries|, i requires 0 <= i < |entries| => entries[i].outcome)
  }

  lemma {:induction false} OrderIsTotal(a: AssociationOutcome, b: AssociationOutcome, c: AssociationOutcome)
    ensures Before(a, b) || Before(b, a) || a == b
    ensures !(Before(a, b) && Before(b, a)) && !Before(a, a)
    ensures Before(a, b) && Before(b, c) ==> Before(a, c)
  {}

  function Place(entry: OutcomeProbability, entries: seq<OutcomeProbability>): seq<OutcomeProbability> {
    if entries == [] then [entry]
    else if !Before(entries[0].outcome, entry.outcome) then [entry] + entries
    else [entries[0]] + Place(entry, entries[1..])
  }

  function SortEntries(entries: seq<OutcomeProbability>): seq<OutcomeProbability> {
    if entries == [] then [] else Place(entries[0], SortEntries(entries[1..]))
  }

  function Mass(entries: seq<OutcomeProbability>): real {
    if entries == [] then 0.0 else entries[0].probability + Mass(entries[1..])
  }

  lemma {:induction false} OutcomesStep(entries: seq<OutcomeProbability>)
    requires entries != []
    ensures Outcomes(entries) == [entries[0].outcome] + Outcomes(entries[1..])
    ensures entries == [entries[0]] + entries[1..]
  {}

  lemma {:induction false} PlaceKeeps(entry: OutcomeProbability, entries: seq<OutcomeProbability>)
    ensures var placed := Place(entry, entries);
            && |placed| == |entries| + 1
            && Mass(placed) == entry.probability + Mass(entries)
            && multiset(placed) == multiset(entries) + multiset{entry}
            && multiset(Outcomes(placed)) == multiset(Outcomes(entries)) + multiset{entry.outcome}
  {
    OutcomesStep(Place(entry, entries));
    if entries != [] {
      OutcomesStep(entries);
      if Before(entries[0].outcome, entry.outcome) { PlaceKeeps(entry, entries[1..]); }
    }
  }

  lemma {:induction false} PlaceInOrder(entry: OutcomeProbability, entries: seq<OutcomeProbability>)
    requires InOrder(entries)
    ensures InOrder(Place(entry, entries))
    ensures Place(entry, entries)[0] == entry || (entries != [] && Place(entry, entries)[0] == entries[0])
  {
    if entries != [] && Before(entries[0].outcome, entry.outcome) {
      PlaceInOrder(entry, entries[1..]);
      PrependInOrder(entries[0], Place(entry, entries[1..]));
    } else if entries != [] {
      PrependInOrder(entry, entries);
    }
  }

  lemma {:induction false} PrependInOrder(entry: OutcomeProbability, entries: seq<OutcomeProbability>)
    requires InOrder(entries) && (entries == [] || !Before(entries[0].outcome, entry.outcome))
    ensures InOrder([entry] + entries)
  {
    var all := [entry] + entries;
    forall i, j | 0 <= i < j < |all| ensures !Before(all[j].outcome, all[i].outcome) {
      if i == 0 && j > 1 {
        assert !Before(entries[j - 1].outcome, entries[0].outcome);
        OrderIsTotal(entries[j - 1].outcome, entries[0].outcome, entry.outcome);
        OrderIsTotal(entry.outcome, entries[0].outcome, entries[j - 1].outcome);
        OrderIsTotal(entries[j - 1].outcome, entry.outcome, entries[0].outcome);
      }
    }
  }

  lemma {:induction false} SortKeeps(entries: seq<OutcomeProbability>)
    ensures var sorted := SortEntries(entries);
            && InOrder(sorted) && Mass(sorted) == Mass(entries)
            && |sorted| == |entries| && multiset(sorted) == multiset(entries)
            && multiset(Outcomes(sorted)) == multiset(Outcomes(entries))
  {
    hide InOrder, Outcomes;
    if entries == [] {
      NothingInOrder();
    } else {
      OutcomesStep(entries);
      SortKeeps(entries[1..]);
      PlaceKeeps(entries[0], SortEntries(entries[1..]));
      PlaceInOrder(entries[0], SortEntries(entries[1..]));
    }
  }

  lemma {:induction false} NothingInOrder()
    ensures InOrder([])
  {}

  predicate NeighboursAgree(entries: seq<OutcomeProbability>) {
    exists i {:trigger entries[i]} :: 0 < i < |entries| && entries[i - 1].outcome == entries[i].outcome
  }

  lemma {:induction false} SortKeepsRepeats(entries: seq<OutcomeProbability>)
    ensures Distinct(Outcomes(SortEntries(entries))) <==> Distinct(Outcomes(entries))
  {
    hide Distinct, InOrder;
    SortKeeps(entries);
    RepeatsShow(Outcomes(entries));
    RepeatsShow(Outcomes(SortEntries(entries)));
    assert forall x :: Multiplicity(Outcomes(entries), x) == Multiplicity(Outcomes(SortEntries(entries)), x);
  }

  lemma {:induction false} StrictOrderIsDistinct(entries: seq<OutcomeProbability>)
    requires StrictlyInOrder(entries)
    ensures Distinct(Outcomes(entries))
  {
    forall i, j | 0 <= i < j < |entries| ensures Outcomes(entries)[i] != Outcomes(entries)[j] {
      OrderIsTotal(entries[i].outcome, entries[j].outcome, entries[j].outcome);
    }
  }

  lemma {:induction false} NeighboursInOrder(sorted: seq<OutcomeProbability>)
    requires InOrder(sorted)
    ensures NeighboursAgree(sorted) <==> !Distinct(Outcomes(sorted))
    ensures !NeighboursAgree(sorted) ==> StrictlyInOrder(sorted)
  {
    hide Before, InOrder;
    if NeighboursAgree(sorted) {
      var i :| 0 < i < |sorted| && sorted[i - 1].outcome == sorted[i].outcome;
      assert Outcomes(sorted)[i - 1] == Outcomes(sorted)[i];
    } else {
      forall i, j | 0 <= i < j < |sorted| ensures Before(sorted[i].outcome, sorted[j].outcome) {
        StrictBetween(sorted, i, j);
      }
      StrictOrderIsDistinct(sorted);
    }
  }

  /** Sorting brings equal outcomes together: equal neighbours appear exactly when an outcome repeats. */
  lemma {:induction false} NeighboursShowDuplicates(entries: seq<OutcomeProbability>)
    ensures NeighboursAgree(SortEntries(entries)) <==> !Distinct(Outcomes(entries))
    ensures !NeighboursAgree(SortEntries(entries)) ==> StrictlyInOrder(SortEntries(entries))
  {
    SortKeeps(entries);
    SortKeepsRepeats(entries);
    NeighboursInOrder(SortEntries(entries));
  }

  lemma {:induction false} StrictBetween(sorted: seq<OutcomeProbability>, i: nat, j: nat)
    requires InOrder(sorted) && !NeighboursAgree(sorted) && i < j < |sorted|
    ensures Before(sorted[i].outcome, sorted[j].outcome)
  {
    OrderIsTotal(sorted[j - 1].outcome, sorted[j].outcome, sorted[j].outcome);
    assert sorted[j - 1].outcome != sorted[j].outcome;
    if i < j - 1 {
      StrictBetween(sorted, i, j - 1);
      OrderIsTotal(sorted[i].outcome, sorted[j - 1].outcome, sorted[j].outcome);
    }
  }

  // ----- construction -----

  function ResidualProbability(residual: Option<ResidualMass>): real {
    match residual
    case None => 0.0
    case Some(mass) => mass.probability
  }

  predicate Near(sum: real) { -NORMALIZATION_TOLERANCE <= sum - 1.0 <= NORMALIZATION_TOLERANCE }

  /** Sorts, validates and freezes a distribution. */
  function NewDistribution(entries: seq<OutcomeProbability>, residual: Option<ResidualMass>)
    : Result<NormalizedDistribution, DistributionError>
  {
    if residual.Some? && !residual.value.hasRule then Err(EmptyTruncationRule)
    else
      var sorted := SortEntries(entries);
      if NeighboursAgree(sorted) then Err(DuplicateOutcome)
      else if New !in Outcomes(sorted) || Noise !in Outcomes(sorted) then Err(MissingOpenWorldOutcome)
      else
        var sum := Mass(sorted) + ResidualProbability(residual);
        if !Near(sum) then Err(NotNormalized(sum)) else Ok(NormalizedDistribution(sorted, residual))
  }

  /** All the mass of a distribution: its entries', and what truncation set aside. */
  ghost function WholeMass(entries: seq<OutcomeProbability>, residual: Option<ResidualMass>): real {
    Mass(entries) + if residual.Some? then residual.value.probability else 0.0
  }

  ghost predicate Acceptable(entries: seq<OutcomeProbability>, residual: Option<ResidualMass>) {
    && (residual.Some? ==> residual.value.hasRule)
    && Distinct(Outcomes(entries))
    && New in Outcomes(entries) && Noise in Outcomes(entries)
    && 0.9999999999 <= WholeMass(entries, residual) <= 1.0000000001
  }

  ghost predicate ValidDistribution(d: NormalizedDistribution) {
    StrictlyInOrder(d.entries) && Acceptable(d.entries, d.residual)
  }

  /** Construction accepts exactly the complete, duplicate-free, normalised lists, and only reorders them. */
  lemma {:induction false} NewDistributionExact(entries: seq<OutcomeProbability>, residual: Option<ResidualMass>)
    ensures NewDistribution(entries, residual).Ok? <==> Acceptable(entries, residual)
    ensures NewDistribution(entries, residual).Ok? ==>
              var d := NewDistribution(entries, residual).value;
              ValidDistribution(d) && multiset(d.entries) == multiset(entries) && d.residual == residual
    ensures NewDistribution(entries, residual).Err? ==>
              NewDistribution(entries, residual).error ==
              if residual.Some? && !residual.value.hasRule then EmptyTruncationRule
              else if !Distinct(Outcomes(entries)) then DuplicateOutcome
              else if New !in Outcomes(entries) || Noise !in Outcomes(entries) then MissingOpenWorldOutcome
              else NotNormalized(WholeMass(entries, residual))
  {
    var sorted := SortEntries(entries);
    NeighboursShowDuplicates(entries);
    SortKeeps(entries);
    assert New in Outcomes(sorted) <==> New in multiset(Outcomes(sorted));
    assert Noise in Outcomes(sorted) <==> Noise in multiset(Outcomes(sorted));
    assert New in Outcomes(entries) <==> New in multiset(Outcomes(entries));
    assert Noise in Outcomes(entries) <==> Noise in multiset(Outcomes(entries));
    SortKeepsRepeats(entries);
  }

  // ----- lookup -----

  /** Binary search for an outcome in canonical order. */
  method Probability(d: NormalizedDistribution, outcome: AssociationOutcome) returns (found: Option<real>)
    requires StrictlyInOrder(d.entries)
    ensures found.Some? <==> outcome in Outcomes(d.entries)
    ensures found.Some? ==> OutcomeProbability(outcome, found.value) in d.entries
  {
    hide Before;
    var lo, hi := 0, |d.entries|;
    while lo < hi
      invariant 0 <= lo <= hi <= |d.entries|
      invariant forall i :: 0 <= i < lo ==> d.entries[i].outcome != outcome
      invariant forall i :: hi <= i < |d.entries| ==> d.entries[i].outcome != outcome
    {
      var mid := lo + (hi - lo) / 2;
      if d.entries[mid].outcome == outcome {
        assert Outcomes(d.entries)[mid] == outcome;
        assert d.entries[mid] == OutcomeProbability(outcome, d.entries[mid].probability);
        return Some(d.entries[mid].probability);
      }
      forall i | 0 <= i < |d.entries| && d.entries[i].outcome == outcome
        ensures if Before(d.entries[mid].outcome, outcome) then mid < i else i < mid
      {
        OrderIsTotal(d.entries[mid].outcome, d.entries[i].outcome, outcome);
        if i < mid { assert Before(d.entries[i].outcome, d.entries[mid].outcome); }
      }
      if Before(d.entries[mid].outcome, outcome) { lo := mid + 1; } else { hi := mid; }
    }
    return None;
  }

  // ----- the solver's posteriors are distributions -----

  /** One entry per candidate in domain order, then `new`, then `noise`. */
  function PosteriorEntries(domain: seq<nat>, marginal: seq<real>): (entries: seq<OutcomeProbability>)
    requires |marginal| == |domain| + 2
    ensures |entries| == |marginal|
  {
    seq(|domain|, i requires 0 <= i < |domain| => OutcomeProbability(Identity(domain[i]), marginal[i]))
      + [OutcomeProbability(New, marginal[|domain|]), OutcomeProbability(Noise, marginal[|domain| + 1])]
  }

  lemma {:induction false} MassAppend(entries: seq<OutcomeProbability>, entry: OutcomeProbability)
    ensures Mass(entries + [entry]) == Mass(entries) + entry.probability
  {
    if entries != [] {
      assert (entries + [entry])[1..] == entries[1..] + [entry];
      MassAppend(entries[1..], entry);
    }
  }

  lemma {:induction false} MassIsTotal(entries: seq<OutcomeProbability>, m: seq<real>)
    requires |entries| == |m| && forall i :: 0 <= i < |m| ==> entries[i].probability == m[i]
    ensures Mass(entries) == Total(m)
  {
    if m != [] {
      var last := |m| - 1;
      MassIsTotal(entries[..last], m[..last]);
      MassAppend(entries[..last], entries[last]);
      assert entries == entries[..last] + [entries[last]];
    }
  }

  lemma {:induction false} SortOfSorted(entries: seq<OutcomeProbability>)
    requires StrictlyInOrder(entries)
    ensures SortEntries(entries) == entries
  {
    if entries != [] {
      SortOfSorted(entries[1..]);
      if |entries| > 1 { OrderIsTotal(entries[0].outcome, entries[1].outcome, entries[1].outcome); }
      assert entries == [entries[0]] + entries[1..];
    }
  }

  /** Over a canonical domain, a solver marginal is always accepted, already in canonical order. */
  lemma {:induction false} PosteriorAccepted(domain: seq<nat>, marginal: seq<real>)
    requires StrictlyAscending(domain) && Distribution(|domain| + 2, marginal)
    ensures NewDistribution(PosteriorEntries(domain, marginal), None) ==
            Ok(NormalizedDistribution(PosteriorEntries(domain, marginal), None))
  {
    var entries := PosteriorEntries(domain, marginal);
    forall i, j | 0 <= i < j < |entries| ensures Before(entries[i].outcome, entries[j].outcome) {}
    SortOfSorted(entries);
    StrictOrderIsDistinct(entries);
    MassIsTotal(entries, marginal);
    assert Outcomes(entries)[|domain|] == New && Outcomes(entries)[|domain| + 1] == Noise;
    NewDistributionExact(entries, None);
  }

  // ----- decisions -----

  datatype PolicyAction = Assign(reference: nat) | CreateIdentity | RejectNoise | Abstain

  datatype DecisionError = InvalidLoss | TargetOutsideDomain

  datatype LossModel = LossModel(falseAssignment: real, falseNew: real, falseRejection: real, abstention: real)

  predicate ValidLoss(loss: LossModel) {
    loss.falseAssignment >= 0.0 && loss.falseNew >= 0.0 && loss.falseRejection >= 0.0 && loss.abstention >= 0.0
  }

  predicate Correct(action: PolicyAction, outcome: AssociationOutcome) {
    match action
    case Assign(selected) => outcome == Identity(selected)
    case CreateIdentity => outcome == New
    case RejectNoise => outcome == Noise
    case Abstain => false
  }

  function Cost(loss: LossModel, action: PolicyAction): real {
    match action
    case Assign(_) => loss.falseAssignment
    case CreateIdentity => loss.falseNew
    case RejectNoise => loss.falseRejection
    case Abstain => loss.abstention
  }

  function Weighted(cost: real, mass: real): real { mass * cost }

  lemma {:induction false} WeightedAdds(cost: real, p: real, q: real)
    ensures Weighted(cost, p + q) == Weighted(cost, p) + Weighted(cost, q)
  {}

  lemma {:induction false} WeightedNothing(cost: real)
    ensures Weighted(cost, 0.0) == 0.0
  {}

  /** The cost of the action, weighted by every entry under which it is wrong. */
  function WrongMass(loss: LossModel, action: PolicyAction, entries: seq<OutcomeProbability>): real {
    if entries == [] then 0.0
    else
      var last := entries[|entries| - 1];
      var earlier := WrongMass(loss, action, entries[..|entries| - 1]);
      if Correct(action, last.outcome) then earlier else Weighted(Cost(loss, action), last.probability) + earlier
  }

  function ExpectedLoss(loss: LossModel, action: PolicyAction, d: NormalizedDistribution): real {
    if action.Abstain? then loss.abstention else WrongMass(loss, action, d.entries)
  }

  /** The mass of the entries under which the action is right. */
  function RightMass(action: PolicyAction, entries: seq<OutcomeProbability>): real {
    if entries == [] then 0.0
    else
      var last := entries[|entries| - 1];
      RightMass(action, entries[..|entries| - 1]) + (if Correct(action, last.outcome) then last.probability else 0.0)
  }

  lemma {:induction false} NoMass()
    ensures Mass([]) == 0.0
  {}

  lemma {:induction false} WrongIsTheRest(loss: LossModel, action: PolicyAction, entries: seq<OutcomeProbability>)
    ensures WrongMass(loss, action, entries) == Weighted(Cost(loss, action), Mass(entries) - RightMass(action, entries))
  {
    hide Cost, Correct, Weighted, Mass;
    var cost := Cost(loss, action);
    if entries == [] {
      NoMass();
      WeightedNothing(cost);
    } else {
      var shorter, last := entries[..|entries| - 1], entries[|entries| - 1];
      WrongIsTheRest(loss, action, shorter);
      MassAppend(shorter, last);
      assert entries == shorter + [last];
      WeightedAdds(cost, Mass(shorter) - RightMass(action, shorter), last.probability);
    }
  }

  // ----- what each action risks -----

  /** The probability of one outcome. */
  ghost function ProbabilityOf(entries: seq<OutcomeProbability>, outcome: AssociationOutcome): real {
    if entries == [] then 0.0
    else
      var last := entries[|entries| - 1];
      ProbabilityOf(entries[..|entries| - 1], outcome) + (if last.outcome == outcome then last.probability else 0.0)
  }

  /** Among entries without duplicates it is what the one entry of that outcome says, or nothing. */
  lemma {:induction false} ProbabilityIsEntry(entries: seq<OutcomeProbability>, entry: OutcomeProbability)
    requires Distinct(Outcomes(entries))
    ensures entry in entries ==> ProbabilityOf(entries, entry.outcome) == entry.probability
    ensures entry.outcome !in Outcomes(entries) ==> ProbabilityOf(entries, entry.outcome) == 0.0
  {
    if entries != [] {
      var n := |entries| - 1;
      var shorter, last := entries[..n], entries[n];
      assert Outcomes(entries) == Outcomes(shorter) + [last.outcome];
      forall i, j | 0 <= i < j < n ensures Outcomes(shorter)[i] != Outcomes(shorter)[j] {
        assert Outcomes(entries)[i] != Outcomes(entries)[j];
      }
      ProbabilityIsEntry(shorter, entry);
      forall i | 0 <= i < n ensures Outcomes(shorter)[i] != last.outcome {
        assert Outcomes(entries)[i] != Outcomes(entries)[n];
      }
      if entry in entries {
        var i :| 0 <= i < |entries| && entries[i] == entry;
        assert Outcomes(entries)[i] == entry.outcome;
        if i < n { assert shorter[i] == entry; }
      }
    }
  }

  lemma {:induction false} RightIsProbability(
    entries: seq<OutcomeProbability>, action: PolicyAction, outcome: AssociationOutcome)
    requires match outcome
             case Identity(x) => action == PolicyAction.Assign(x)
             case New => action == PolicyAction.CreateIdentity
             case Noise => action == PolicyAction.RejectNoise
    ensures RightMass(action, entries) == ProbabilityOf(entries, outcome)
  {
    if entries != [] { RightIsProbability(entries[..|entries| - 1], action, outcome); }
  }

  ghost function NewRisk(loss: LossModel, d: NormalizedDistribution): real {
    loss.falseNew * (Mass(d.entries) - ProbabilityOf(d.entries, New))
  }

  ghost function RejectionRisk(loss: LossModel, d: NormalizedDistribution): real {
    loss.falseRejection * (Mass(d.entries) - ProbabilityOf(d.entries, Noise))
  }

  ghost function AssignmentRisk(loss: LossModel, d: NormalizedDistribution, x: nat): real {
    loss.falseAssignment * (Mass(d.entries) - ProbabilityOf(d.entries, Identity(x)))
  }

  /** Each action's expected loss is its own cost, weighted by all the mass outside its outcome. */
  lemma {:induction false} RiskPerAction(loss: LossModel, d: NormalizedDistribution)
    ensures ExpectedLoss(loss, PolicyAction.CreateIdentity, d) == NewRisk(loss, d)
    ensures ExpectedLoss(loss, PolicyAction.RejectNoise, d) == RejectionRisk(loss, d)
    ensures forall x :: ExpectedLoss(loss, PolicyAction.Assign(x), d) == AssignmentRisk(loss, d, x)
    ensures ExpectedLoss(loss, PolicyAction.Abstain, d) == loss.abstention
  {
    hide WrongMass, RightMass, ProbabilityOf, Mass;
    WrongIsTheRest(loss, PolicyAction.CreateIdentity, d.entries);
    RightIsProbability(d.entries, PolicyAction.CreateIdentity, New);
    WrongIsTheRest(loss, PolicyAction.RejectNoise, d.entries);
    RightIsProbability(d.entries, PolicyAction.RejectNoise, Noise);
    forall x ensures ExpectedLoss(loss, PolicyAction.Assign(x), d) == AssignmentRisk(loss, d, x) {
      WrongIsTheRest(loss, PolicyAction.Assign(x), d.entries);
      RightIsProbability(d.entries, PolicyAction.Assign(x), Identity(x));
    }
  }

  // ----- the order in which actions are tried -----

  function Assignments(entries: seq<OutcomeProbability>): seq<PolicyAction> {
    if entries == [] then []
    else
      var last := entries[|entries| - 1];
      Assignments(entries[..|entries| - 1])
      + if last.outcome.Identity? then [PolicyAction.Assign(last.outcome.reference)] else []
  }

  /** New identity, then assignments in domain order, then noise, then abstention. */
  function Actions(d: NormalizedDistribution): seq<PolicyAction> {
    [PolicyAction.CreateIdentity] + Assignments(d.entries) + [PolicyAction.RejectNoise, PolicyAction.Abstain]
  }

  /** `best` is the first of the tried actions with the least expected loss. */
  ghost predicate FirstBest(loss: LossModel, d: NormalizedDistribution, tried: seq<PolicyAction>, best: PolicyAction) {
    exists k :: BestAt(loss, d, tried, best, k)
  }

  ghost predicate BestAt(
    loss: LossModel, d: NormalizedDistribution, tried: seq<PolicyAction>, best: PolicyAction, k: int)
  {
    && 0 <= k < |tried| && tried[k] == best
    && (forall j :: 0 <= j < |tried| ==> ExpectedLoss(loss, best, d) <= ExpectedLoss(loss, tried[j], d))
    && (forall j :: 0 <= j < k ==> ExpectedLoss(loss, best, d) < ExpectedLoss(loss, tried[j], d))
  }

  lemma {:induction false} TryNext(
    loss: LossModel, d: NormalizedDistribution, tried: seq<PolicyAction>, best: PolicyAction, next: PolicyAction)
    requires FirstBest(loss, d, tried, best)
    ensures FirstBest(loss, d, tried + [next],
                      if ExpectedLoss(loss, next, d) < ExpectedLoss(loss, best, d) then next else best)
  {
    var k :| BestAt(loss, d, tried, best, k);
    if ExpectedLoss(loss, next, d) < ExpectedLoss(loss, best, d) {
      assert BestAt(loss, d, tried + [next], next, |tried|);
    } else {
      assert BestAt(loss, d, tried + [next], best, k);
    }
  }

  lemma {:induction false} AssignmentsAreIdentities(entries: seq<OutcomeProbability>, action: PolicyAction)
    ensures action in Assignments(entries) <==> action.Assign? && Identity(action.reference) in Outcomes(entries)
  {
    if entries != [] {
      var shorter := entries[..|entries| - 1];
      AssignmentsAreIdentities(shorter, action);
      assert Outcomes(entries) == Outcomes(shorter) + [entries[|entries| - 1].outcome];
    }
  }

  /** Every assignment on offer risks at least, or more than, `bound`. */
  ghost predicate NoAssignmentBelow(loss: LossModel, d: NormalizedDistribution, bound: real) {
    forall x: nat {:trigger AssignmentRisk(loss, d, x)} ::
      Identity(x) in Outcomes(d.entries) ==> bound <= AssignmentRisk(loss, d, x)
  }

  ghost predicate AssignmentsAbove(loss: LossModel, d: NormalizedDistribution, bound: real) {
    forall x: nat {:trigger AssignmentRisk(loss, d, x)} ::
      Identity(x) in Outcomes(d.entries) ==> bound < AssignmentRisk(loss, d, x)
  }

  /** When each action is taken: a new identity needs to be no worse than anything else, an assignment better than a
      new identity and than the identities before it, a rejection better than those, and abstaining better than all. */
  ghost predicate Chosen(loss: LossModel, d: NormalizedDistribution, best: PolicyAction) {
    match best
    case CreateIdentity =>
      && NoAssignmentBelow(loss, d, NewRisk(loss, d))
      && NewRisk(loss, d) <= RejectionRisk(loss, d) && NewRisk(loss, d) <= loss.abstention
    case Assign(x) =>
      && Identity(x) in Outcomes(d.entries) && AssignmentRisk(loss, d, x) < NewRisk(loss, d)
      && NoAssignmentBelow(loss, d, AssignmentRisk(loss, d, x))
      && (forall y: nat {:trigger AssignmentRisk(loss, d, y)} ::
            Identity(y) in Outcomes(d.entries) && y < x ==> AssignmentRisk(loss, d, x) < AssignmentRisk(loss, d, y))
      && AssignmentRisk(loss, d, x) <= RejectionRisk(loss, d) && AssignmentRisk(loss, d, x) <= loss.abstention
    case RejectNoise =>
      && RejectionRisk(loss, d) < NewRisk(loss, d) && AssignmentsAbove(loss, d, RejectionRisk(loss, d))
      && RejectionRisk(loss, d) <= loss.abstention
    case Abstain =>
      && loss.abstention < NewRisk(loss, d) && AssignmentsAbove(loss, d, loss.abstention)
      && loss.abstention < RejectionRisk(loss, d)
  }

  /** `k` is a place `action` is tried at, and nothing else is tried there. */
  lemma {:induction false} TriedAt(d: NormalizedDistribution, k: nat)
    requires k < |Actions(d)|
    ensures Actions(d)[0] == PolicyAction.CreateIdentity
    ensures 0 < k < |Actions(d)| - 2 ==>
              Actions(d)[k].Assign? && Identity(Actions(d)[k].reference) in Outcomes(d.entries)
    ensures Actions(d)[|Actions(d)| - 2] == PolicyAction.RejectNoise
    ensures Actions(d)[|Actions(d)| - 1] == PolicyAction.Abstain
  {
    if 0 < k < |Actions(d)| - 2 {
      assert Actions(d)[k] == Assignments(d.entries)[k - 1];
      AssignmentsAreIdentities(d.entries, Actions(d)[k]);
    }
  }

  lemma {:induction false} TriedSomewhere(d: NormalizedDistribution, x: nat) returns (k: nat)
    requires Identity(x) in Outcomes(d.entries)
    ensures 0 < k < |Actions(d)| - 2 && Actions(d)[k] == PolicyAction.Assign(x)
  {
    AssignmentsAreIdentities(d.entries, PolicyAction.Assign(x));
    var i :| 0 <= i < |Assignments(d.entries)| && Assignments(d.entries)[i] == PolicyAction.Assign(x);
    k := i + 1;
  }

  /** Assignments are tried in the order of the identities. */
  lemma {:induction false} TriedInOrder(entries: seq<OutcomeProbability>, i: nat, j: nat)
    requires StrictlyInOrder(entries) && i < j < |Assignments(entries)|
    ensures Assignments(entries)[i].Assign? && Assignments(entries)[j].Assign?
    ensures Assignments(entries)[i].reference < Assignments(entries)[j].reference
  {
    var shorter, last := entries[..|entries| - 1], entries[|entries| - 1];
    if j < |Assignments(shorter)| {
      TriedInOrder(shorter, i, j);
    } else {
      AssignmentsAreIdentities(shorter, Assignments(shorter)[i]);
      var p :| 0 <= p < |shorter| && Outcomes(shorter)[p] == Identity(Assignments(shorter)[i].reference);
      assert Before(entries[p].outcome, last.outcome);
    }
  }

  /** The risk of the `k`-th action tried. */
  ghost function RiskAt(loss: LossModel, d: NormalizedDistribution, k: nat): real
    requires k < |Actions(d)|
  {
    ExpectedLoss(loss, Actions(d)[k], d)
  }

  /** The same numbers, place by place. */
  lemma {:induction false} RisksInOrder(loss: LossModel, d: NormalizedDistribution, k: nat)
    requires k < |Actions(d)|
    ensures |Actions(d)| >= 3 && RiskAt(loss, d, 0) == NewRisk(loss, d)
    ensures RiskAt(loss, d, |Actions(d)| - 2) == RejectionRisk(loss, d)
    ensures RiskAt(loss, d, |Actions(d)| - 1) == loss.abstention
    ensures 0 < k < |Actions(d)| - 2 ==>
              && Actions(d)[k].Assign? && Identity(Actions(d)[k].reference) in Outcomes(d.entries)
              && RiskAt(loss, d, k) == AssignmentRisk(loss, d, Actions(d)[k].reference)
  {
    hide Actions, ExpectedLoss, NewRisk, RejectionRisk, AssignmentRisk;
    assert |Actions(d)| >= 3 by { ThreeOrMore(d); }
    TriedAt(d, k);
    RiskPerAction(loss, d);
  }

  lemma {:induction false} ThreeOrMore(d: NormalizedDistribution)
    ensures |Actions(d)| >= 3
  {}

  lemma {:induction false} LaterIdentity(d: NormalizedDistribution, i: nat, j: nat)
    requires StrictlyInOrder(d.entries) && 0 < i < j < |Actions(d)| - 2
    ensures Actions(d)[i].Assign? && Actions(d)[j].Assign? && Actions(d)[i].reference < Actions(d)[j].reference
  {
    TriedInOrder(d.entries, i - 1, j - 1);
  }

  /** The first least-loss action is the chosen one. */
  lemma {:induction false} FirstBestIsChosen(loss: LossModel, d: NormalizedDistribution, best: PolicyAction)
    requires StrictlyInOrder(d.entries) && FirstBest(loss, d, Actions(d), best)
    ensures Chosen(loss, d, best)
  {
    hide Actions, ExpectedLoss, NewRisk, RejectionRisk, AssignmentRisk, StrictlyInOrder, Outcomes;
    var k: nat :| BestAt(loss, d, Actions(d), best, k);
    var n := |Actions(d)|;
    RisksInOrder(loss, d, k);
    TriedAt(d, k);
    assert forall j: nat :: j < n ==> RiskAt(loss, d, k) <= RiskAt(loss, d, j);
    assert forall j: nat :: j < k ==> RiskAt(loss, d, k) < RiskAt(loss, d, j);
    forall y: nat | Identity(y) in Outcomes(d.entries)
      ensures RiskAt(loss, d, k) <= AssignmentRisk(loss, d, y)
      ensures k >= n - 2 || (best.Assign? && y < best.reference) ==> RiskAt(loss, d, k) < AssignmentRisk(loss, d, y)
    {
      var j := TriedSomewhere(d, y);
      RisksInOrder(loss, d, j);
      if 0 < k < n - 2 && k < j { LaterIdentity(d, k, j); }
    }
  }

  lemma {:induction false} ChosenIsFirstBest(loss: LossModel, d: NormalizedDistribution, best: PolicyAction)
    requires StrictlyInOrder(d.entries) && Chosen(loss, d, best)
    ensures FirstBest(loss, d, Actions(d), best)
  {
    hide Actions, ExpectedLoss, NewRisk, RejectionRisk, AssignmentRisk, StrictlyInOrder, Outcomes;
    ThreeOrMore(d);
    var n, k: nat := |Actions(d)|, 0;
    if best.RejectNoise? { k := n - 2; }
    if best.Abstain? { k := n - 1; }
    if best.Assign? { k := TriedSomewhere(d, best.reference); }
    TriedAt(d, k);
    RisksInOrder(loss, d, k);
    forall j: nat | j < n
      ensures RiskAt(loss, d, k) <= RiskAt(loss, d, j) && (j < k ==> RiskAt(loss, d, k) < RiskAt(loss, d, j))
    {
      RisksInOrder(loss, d, j);
      if 0 < j < k < n - 2 { LaterIdentity(d, j, k); }
    }
    forall j: nat | j < n
      ensures ExpectedLoss(loss, best, d) <= ExpectedLoss(loss, Actions(d)[j], d)
      ensures j < k ==> ExpectedLoss(loss, best, d) < ExpectedLoss(loss, Actions(d)[j], d)
    {
      assert RiskAt(loss, d, k) <= RiskAt(loss, d, j);
    }
    assert BestAt(loss, d, Actions(d), best, k);
  }

  /** Selects the first action of least expected loss; over a valid distribution that is the chosen one. */
  method Decide(loss: LossModel, d: NormalizedDistribution) returns (best: PolicyAction)
    ensures FirstBest(loss, d, Actions(d), best)
    ensures StrictlyInOrder(d.entries) ==> Chosen(loss, d, best)
  {
    hide FirstBest, ExpectedLoss, Chosen, StrictlyInOrder;
    best := PolicyAction.CreateIdentity;
    var bestLoss := ExpectedLoss(loss, best, d);
    ghost var tried := [PolicyAction.CreateIdentity];
    OnlyChoice(loss, d);
    for i := 0 to |d.entries|
      invariant tried == [PolicyAction.CreateIdentity] + Assignments(d.entries[..i])
      invariant bestLoss == ExpectedLoss(loss, best, d)
      invariant FirstBest(loss, d, tried, best)
    {
      assert d.entries[..i + 1][..i] == d.entries[..i];
      if d.entries[i].outcome.Identity? {
        var candidate := PolicyAction.Assign(d.entries[i].outcome.reference);
        TryNext(loss, d, tried, best, candidate);
        tried := tried + [candidate];
        var risk := ExpectedLoss(loss, candidate, d);
        if risk < bestLoss { best, bestLoss := candidate, risk; }
      }
    }
    assert d.entries[..|d.entries|] == d.entries;
    var remaining := [PolicyAction.RejectNoise, PolicyAction.Abstain];
    for i := 0 to 2
      invariant tried == [PolicyAction.CreateIdentity] + Assignments(d.entries) + remaining[..i]
      invariant bestLoss == ExpectedLoss(loss, best, d)
      invariant FirstBest(loss, d, tried, best)
    {
      TryNext(loss, d, tried, best, remaining[i]);
      tried := tried + [remaining[i]];
      var risk := ExpectedLoss(loss, remaining[i], d);
      if risk < bestLoss { best, bestLoss := remaining[i], risk; }
    }
    assert tried == Actions(d);
    if StrictlyInOrder(d.entries) { FirstBestIsChosen(loss, d, best); }
  }

  lemma {:induction false} OnlyChoice(loss: LossModel, d: NormalizedDistribution)
    ensures FirstBest(loss, d, [PolicyAction.CreateIdentity], PolicyAction.CreateIdentity)
  {
    assert BestAt(loss, d, [PolicyAction.CreateIdentity], PolicyAction.CreateIdentity, 0);
  }

  /** Records an action; an assignment must name an identity of the supporting domain. */
  method RecordDecision(
    d: NormalizedDistribution, action: PolicyAction)
    returns (r: Result<PolicyAction, DecisionError>)
    requires StrictlyInOrder(d.entries)
    ensures r == if action.Assign? && Identity(action.reference) !in Outcomes(d.entries)
                 then Err(TargetOutsideDomain) else Ok(action)
  {
    if action.Assign? {
      var found := Probability(d, Identity(action.reference));
      if found.None? { return Err(TargetOutsideDomain); }
    }
    return Ok(action);
  }

  /** What the policy decides is always in the domain, so recording it never fails. */
  method DecideAndRecord(loss: LossModel, d: NormalizedDistribution) returns (r: Result<PolicyAction, DecisionError>)
    requires StrictlyInOrder(d.entries)
    ensures r.Ok? && FirstBest(loss, d, Actions(d), r.value) && Chosen(loss, d, r.value)
  {
    var action := Decide(loss, d);
    BestIsTried(loss, d, action);
    AssignmentsAreIdentities(d.entries, action);
    r := RecordDecision(d, action);
  }

  lemma {:induction false} BestIsTried(loss: LossModel, d: NormalizedDistribution, best: PolicyAction)
    requires FirstBest(loss, d, Actions(d), best)
    ensures best in Actions(d)
    ensures best.Assign? ==> best in Assignments(d.entries)
  {
    var k :| BestAt(loss, d, Actions(d), best, k);
    assert Actions(d)[k] == best;
  }

  /** An assignment, when chosen, goes to an identity of greatest probability. */
  lemma {:induction false} AssignsMostProbable(
    loss: LossModel, d: NormalizedDistribution, best: PolicyAction, other: PolicyAction)
    requires ValidLoss(loss) && loss.falseAssignment > 0.0
    requires FirstBest(loss, d, Actions(d), best) && best.Assign?
    requires other.Assign? && Identity(other.reference) in Outcomes(d.entries)
    ensures RightMass(other, d.entries) <= RightMass(best, d.entries)
  {
    hide WrongMass, RightMass, Mass, Outcomes;
    AssignmentsAreIdentities(d.entries, other);
    NoBetter(loss, d, best, other);
    WrongIsTheRest(loss, best, d.entries);
    WrongIsTheRest(loss, other, d.entries);
    CancelFactor(
      loss.falseAssignment, Mass(d.entries) - RightMass(best, d.entries),
      Mass(d.entries) - RightMass(other, d.entries));
  }

  lemma {:induction false} NoBetter(loss: LossModel, d: NormalizedDistribution, best: PolicyAction, other: PolicyAction)
    requires FirstBest(loss, d, Actions(d), best) && other in Assignments(d.entries)
    ensures ExpectedLoss(loss, best, d) <= ExpectedLoss(loss, other, d)
  {
    var k :| BestAt(loss, d, Actions(d), best, k);
    var j :| 0 <= j < |Assignments(d.entries)| && Assignments(d.entries)[j] == other;
    assert Actions(d)[j + 1] == other;
  }

  lemma {:induction false} ScaleUp(x: real, y: real, z: real)
    requires x > 0.0 && y > z
    ensures x * y > x * z
  {
    assert x * (y - z) > 0.0;
  }

  lemma {:induction false} CancelFactor(x: real, y: real, z: real)
    requires x > 0.0 && x * y <= x * z
    ensures y <= z
  {
    if y > z { ScaleUp(x, y, z); }
  }

  /** A tie between a new identity and an assignment goes to the new identity. */
  lemma {:induction false} TieGoesToNew(loss: LossModel, d: NormalizedDistribution, best: PolicyAction, target: nat)
    requires FirstBest(loss, d, Actions(d), best)
    requires ExpectedLoss(loss, PolicyAction.CreateIdentity, d) == ExpectedLoss(loss, PolicyAction.Assign(target), d)
    ensures best != PolicyAction.Assign(target)
  {
    var k :| BestAt(loss, d, Actions(d), best, k);
    assert Actions(d)[0] == PolicyAction.CreateIdentity;
  }
}
