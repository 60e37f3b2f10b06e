/** The inference stage: candidates from the providers, their factors, the solver, and one decision per observation. */
module Inference {
  import opened Types
  import opened Sorting
  import opened Candidates
  import opened Aggregation
  import opened Forests
  import opened FactorGraphs
  import opened Topology
  import opened SumProduct
  import opened BatchWeights
  import opened Schedules
  import opened Solver
  import opened Decisions

  /** A provider makes its pushes, and emits factors once the candidates of the whole batch are known. */
  datatype Provider = Provider(calls: seq<Call>, emit: seq<seq<nat>> -> Result<seq<FactorTable>, ProviderError>)

  datatype InferenceError =
    | NoCandidates(cause: AggregateError)
    | NoFactors(reason: ProviderError)
    | Unsolvable(error: SolverError)

  /** An observation's posterior and the action taken on it. */
  datatype Decided = Decided(posterior: NormalizedDistribution, action: PolicyAction)

  // ----- what goes into the solver -----

  function CallsOf(providers: seq<Provider>): (calls: seq<seq<Call>>)
    ensures |calls| == |providers|
  {
    seq(|providers|, p requires 0 <= p < |providers| => providers[p].calls)
  }

  /** The factors of the first `n` providers, or the first refusal. */
  function Emitted(providers: seq<Provider>, n: nat, groups: seq<seq<nat>>): Result<seq<FactorTable>, ProviderError>
    requires n <= |providers|
  {
    if n == 0 then Ok([])
    else
      match Emitted(providers, n - 1, groups)
      case Err(error) => Err(error)
      case Ok(earlier) =>
        match providers[n - 1].emit(groups)
        case Err(error) => Err(error)
        case Ok(own) => Ok(earlier + own)
  }

  /** Factor tables only exist validated. */
  ghost predicate EmitTables(providers: seq<Provider>) {
    forall p, groups {:trigger providers[p].emit(groups)} ::
      0 <= p < |providers| && providers[p].emit(groups).Ok? ==> ValidTables(providers[p].emit(groups).value)
  }

  function BatchInputs(batchLength: nat, providers: seq<Provider>)
    : Result<(seq<seq<nat>>, seq<FactorTable>), InferenceError>
  {
    match Aggregate(batchLength, CallsOf(providers))
    case Err(error) => Err(NoCandidates(error))
    case Ok(groups) =>
      match Emitted(providers, |providers|, groups)
      case Err(error) => Err(NoFactors(error))
      case Ok(factors) => Ok((groups, factors))
  }

  function Sizes(groups: seq<seq<nat>>): (sizes: seq<nat>)
    ensures |sizes| == |groups| && forall v :: 0 <= v < |groups| ==> sizes[v] == |groups[v]|
  {
    seq(|groups|, v requires 0 <= v < |groups| => |groups[v]|)
  }

  lemma {:induction false} EmittedValid(providers: seq<Provider>, n: nat, groups: seq<seq<nat>>)
    requires n <= |providers| && EmitTables(providers) && Emitted(providers, n, groups).Ok?
    ensures ValidTables(Emitted(providers, n, groups).value)
  {
    hide ValidTable;
    if n > 0 { EmittedValid(providers, n - 1, groups); }
  }

  lemma {:induction false} EmissionStops(providers: seq<Provider>, n: nat, m: nat, groups: seq<seq<nat>>)
    requires n <= m <= |providers| && Emitted(providers, n, groups).Err?
    ensures Emitted(providers, m, groups) == Emitted(providers, n, groups)
    decreases m
  {
    if n < m { EmissionStops(providers, n, m - 1, groups); }
  }

  // ----- the graph of a batch is determined -----

  /** The compiled graph of the batch. */
  ghost predicate IsGraph(g: FactorGraph, groups: seq<seq<nat>>, factors: seq<FactorTable>) {
    Compiled(g) && g.cardinalities == Cardinalities(Sizes(groups)) && g.factors == factors
  }

  lemma {:induction false} SameSpan(a: seq<Edge>, b: seq<Edge>, e: nat)
    requires |a| == |b| && e <= |a| && forall i :: 0 <= i < e ==> a[i].cardinality == b[i].cardinality
    ensures Span(a, e) == Span(b, e)
  {
    if e > 0 { SameSpan(a, b, e - 1); }
  }

  lemma {:induction false} SameEdge(g: FactorGraph, h: FactorGraph, e: nat)
    requires Compiled(g) && Compiled(h) && g.cardinalities == h.cardinalities && g.factors == h.factors
    requires e < |g.edges|
    ensures e < |h.edges| && g.edges[e] == h.edges[e].(offset := g.edges[e].offset)
  {
    hide Span, First, ValidTables, StridesRight;
    assert EdgeRight(g.cardinalities, g.factors, g.edges, e);
    var k := g.edges[e];
    assert Placed(h.factors, h.edges, k.factor, k.position);
    assert EdgeRight(h.cardinalities, h.factors, h.edges, e);
  }

  lemma {:induction false} SameEdges(g: FactorGraph, h: FactorGraph)
    requires Compiled(g) && Compiled(h) && g.cardinalities == h.cardinalities && g.factors == h.factors
    ensures g.edges == h.edges
  {
    hide First, Span, ValidTables, StridesRight, PlacedUpTo;
    forall e: nat | e < |g.edges| ensures g.edges[e] == h.edges[e] {
      forall i: nat | i <= e ensures g.edges[i] == h.edges[i].(offset := g.edges[i].offset) { SameEdge(g, h, i); }
      assert EdgeRight(g.cardinalities, g.factors, g.edges, e) && EdgeRight(h.cardinalities, h.factors, h.edges, e);
      SameSpan(g.edges, h.edges, e);
    }
  }

  /** Domains and factors determine the compiled graph. */
  lemma {:induction false} GraphUnique(g: FactorGraph, h: FactorGraph)
    requires Compiled(g) && Compiled(h) && g.cardinalities == h.cardinalities && g.factors == h.factors
    ensures g == h
  {
    hide EdgesRight, PlacedUpTo, ValidTables, First, Span;
    SameEdges(g, h);
    forall f: nat | f < |g.factors| ensures g.strides[f] == h.strides[f] {
      TableNamed(g.factors, f);
      assert StridesRight(g.factors[f], g.strides[f]) && StridesRight(h.factors[f], h.strides[f]);
      SameStrides(g.factors[f], g.strides[f], h.strides[f]);
    }
    assert g.strides == h.strides && g.factorEdges == h.factorEdges && g.variableEdges == h.variableEdges;
  }

  lemma {:induction false} TableNamed(factors: seq<FactorTable>, f: nat)
    requires ValidTables(factors) && f < |factors|
    ensures |factors[f].variables| == |factors[f].cardinalities|
  {}

  lemma {:induction false} SameStrides(t: FactorTable, a: seq<nat>, b: seq<nat>)
    requires |t.variables| == |t.cardinalities| && StridesRight(t, a) && StridesRight(t, b)
    ensures a == b
  {
    hide Size;
    forall p: nat | p < |a| ensures a[p] == b[p] { assert a[p] == Stride(t.cardinalities, p) == b[p]; }
  }

  // ----- what a decision promises -----

  function Probabilities(d: NormalizedDistribution): (m: seq<real>)
    ensures |m| == |d.entries|
  {
    seq(|d.entries|, i requires 0 <= i < |d.entries| => d.entries[i].probability)
  }

  /** A posterior over the group: every candidate in order, `new` and `noise`, all positive, summing to one. */
  ghost predicate PosteriorOver(group: seq<nat>, d: NormalizedDistribution) {
    && |d.entries| == |group| + 2 && d.residual == None
    && (forall i: nat {:trigger group[i]} :: i < |group| ==> d.entries[i].outcome == Identity(group[i]))
    && d.entries[|group|].outcome == New && d.entries[|group| + 1].outcome == Noise
    && Distribution(|group| + 2, Probabilities(d)) && ValidDistribution(d)
  }

  /** On a forest the posterior of observation `v` is, for each outcome, the weight of all joint assignments with that
      outcome against the weight of all joint assignments, unless its component has more edges than passes can be
      counted. */
  ghost predicate ExactOnForest(
    c: SumProductConfig, groups: seq<seq<nat>>, factors: seq<FactorTable>, v: nat, d: NormalizedDistribution)
    requires v < |groups|
  {
    forall g {:trigger IsGraph(g, groups, factors)} ::
      IsGraph(g, groups, factors) && Forest(Links(g)) && EdgeCount(g, v) <= 0xFFFF_FFFF ==>
        IsPosterior(c, Sizes(groups), factors, v, Probabilities(d))
  }

  /** Candidates, `new` and `noise` in proportion to their priors. */
  ghost predicate PriorsByOutcome(c: SumProductConfig, group: seq<nat>, d: NormalizedDistribution) {
    var total := |group| as real * c.candidatePrior + c.newPrior + c.noisePrior;
    && total > 0.0
    && (forall x {:trigger Identity(x)} :: x in group ==>
          ProbabilityOf(d.entries, Identity(x)) == c.candidatePrior / total)
    && ProbabilityOf(d.entries, New) == c.newPrior / total
    && ProbabilityOf(d.entries, Noise) == c.noisePrior / total
  }

  /** The decision on observation `v`: the first action of least expected loss under its posterior, and one that can
      be recorded. An observation no factor names is decided on its priors. */
  ghost predicate DecidesBest(
    c: SumProductConfig, loss: LossModel, groups: seq<seq<nat>>, factors: seq<FactorTable>, v: nat, d: Decided)
    requires v < |groups|
  {
    && PosteriorOver(groups[v], d.posterior)
    && ExactOnForest(c, groups, factors, v, d.posterior)
    && (Unnamed(factors, v) ==> PriorsByOutcome(c, groups[v], d.posterior))
    && FirstBest(loss, d.posterior, Actions(d.posterior), d.action) && Chosen(loss, d.posterior, d.action)
    && (d.action.Assign? ==> d.action.reference in groups[v])
  }

  /** The entry at place `i` is its outcome's probability. */
  lemma {:induction false} PlaceProbability(d: NormalizedDistribution, i: nat)
    requires ValidDistribution(d) && i < |d.entries|
    ensures ProbabilityOf(d.entries, d.entries[i].outcome) == Probabilities(d)[i]
  {
    hide ProbabilityOf;
    ProbabilityIsEntry(d.entries, d.entries[i]);
  }

  lemma {:induction false} PriorsCarry(c: SumProductConfig, group: seq<nat>, d: NormalizedDistribution)
    requires PosteriorOver(group, d) && KeepsPriors(c, |group|, Probabilities(d))
    ensures PriorsByOutcome(c, group, d)
  {
    hide ProbabilityOf, Distribution, ValidDistribution, Probabilities;
    var n := |group|;
    var total := n as real * c.candidatePrior + c.newPrior + c.noisePrior;
    PlaceProbability(d, n);
    PlaceProbability(d, n + 1);
    forall x | x in group ensures ProbabilityOf(d.entries, Identity(x)) == c.candidatePrior / total {
      var i: nat :| i < n && group[i] == x;
      PlaceProbability(d, i);
    }
  }

  lemma {:induction false} ExactForBatch(
    c: SumProductConfig, groups: seq<seq<nat>>, factors: seq<FactorTable>, v: nat, g: FactorGraph,
    d: NormalizedDistribution)
    requires v < |groups| && IsGraph(g, groups, factors)
    requires Forest(Links(g)) && EdgeCount(g, v) <= 0xFFFF_FFFF ==>
               ValidTables(factors) && IsPosterior(c, Sizes(groups), factors, v, Probabilities(d))
    ensures ExactOnForest(c, groups, factors, v, d)
  {
    hide Compiled, Forest, EdgeCount, IsPosterior;
    forall h {:trigger IsGraph(h, groups, factors)}
      | IsGraph(h, groups, factors) && Forest(Links(h)) && EdgeCount(h, v) <= 0xFFFF_FFFF
      ensures ValidTables(factors) && IsPosterior(c, Sizes(groups), factors, v, Probabilities(d))
    {
      GraphUnique(g, h);
    }
  }

  lemma {:induction false} EntriesCarry(group: seq<nat>, m: seq<real>)
    requires |m| == |group| + 2
    ensures var d := NormalizedDistribution(PosteriorEntries(group, m), None);
            && Probabilities(d) == m
            && (forall i: nat {:trigger group[i]} :: i < |group| ==> d.entries[i].outcome == Identity(group[i]))
            && d.entries[|group|].outcome == New && d.entries[|group| + 1].outcome == Noise
  {
    assert Probabilities(NormalizedDistribution(PosteriorEntries(group, m), None)) == m;
  }

  /** The entries of a posterior carry the marginal they were made from. */
  lemma {:induction false} PosteriorCarries(group: seq<nat>, m: seq<real>)
    requires StrictlyAscending(group) && Distribution(|group| + 2, m)
    ensures var d := NormalizedDistribution(PosteriorEntries(group, m), None);
            Probabilities(d) == m && PosteriorOver(group, d) && NewDistribution(d.entries, None) == Ok(d)
  {
    hide PosteriorEntries, Probabilities, NewDistribution, ValidDistribution, Total, StrictlyAscending;
    assert |m| == |group| + 2;
    EntriesCarry(group, m);
    PosteriorAccepted(group, m);
    NewDistributionExact(PosteriorEntries(group, m), None);
  }

  lemma {:induction false} AssignsCandidate(
    group: seq<nat>, loss: LossModel, d: NormalizedDistribution, action: PolicyAction)
    requires PosteriorOver(group, d) && FirstBest(loss, d, Actions(d), action) && action.Assign?
    ensures action.reference in group
  {
    hide FirstBest, Actions, ValidDistribution, Distribution;
    BestIsTried(loss, d, action);
    AssignmentsAreIdentities(d.entries, action);
    var i :| 0 <= i < |d.entries| && Outcomes(d.entries)[i] == Identity(action.reference);
    assert i < |group| ==> d.entries[i].outcome == Identity(group[i]);
  }

  // ----- the stage -----

  /** Fills the buffer, over the direct path for a single provider. */
  method FillCandidates(buffer: CandidateBuffer, scratch: CandidateBuffer, batchLength: nat, providers: seq<Provider>)
    returns (r: Result<(), AggregateError>)
    requires buffer != scratch
    modifies buffer, scratch
    ensures var outcome := Aggregate(batchLength, CallsOf(providers));
            && (outcome.Ok? ==> r == Ok(()) && buffer.Valid() && buffer.groups == outcome.value)
            && (outcome.Err? ==> r == Err(outcome.error))
  {
    hide Aggregate, Outcome;
    if |providers| == 1 {
      DirectPathAgrees(batchLength, providers[0].calls);
      assert CallsOf(providers) == [providers[0].calls];
      r := FromOneProvider(buffer, batchLength, providers[0].calls);
    } else {
      r := FromProviders(buffer, scratch, batchLength, CallsOf(providers));
    }
  }

  method CollectFactors(providers: seq<Provider>, groups: seq<seq<nat>>)
    returns (r: Result<seq<FactorTable>, ProviderError>)
    ensures r == Emitted(providers, |providers|, groups)
  {
    var factors: seq<FactorTable> := [];
    for p := 0 to |providers|
      invariant Emitted(providers, p, groups) == Ok(factors)
    {
      var own := providers[p].emit(groups);
      if own.Err? {
        EmissionStops(providers, p + 1, |providers|, groups);
        return Err(own.error);
      }
      factors := factors + own.value;
    }
    return Ok(factors);
  }

  method ReadGroups(buffer: CandidateBuffer, batchLength: nat) returns (groups: seq<seq<nat>>)
    requires buffer.Valid() && |buffer.groups| == batchLength
    ensures groups == buffer.groups
  {
    groups := [];
    for v := 0 to batchLength
      invariant groups == buffer.groups[..v]
    {
      var own := buffer.Get(v);
      groups := groups + [own.GetOr([])];
    }
  }

  method DecideOne(loss: LossModel, group: seq<nat>, marginal: seq<real>) returns (d: Decided)
    requires StrictlyAscending(group) && Distribution(|group| + 2, marginal)
    ensures PosteriorOver(group, d.posterior) && Probabilities(d.posterior) == marginal
    ensures FirstBest(loss, d.posterior, Actions(d.posterior), d.action) && Chosen(loss, d.posterior, d.action)
    ensures d.action.Assign? ==> d.action.reference in group
  {
    hide FirstBest, Chosen, Actions, Distribution, NewDistribution, PosteriorEntries;
    PosteriorCarries(group, marginal);
    var posterior := NewDistribution(PosteriorEntries(group, marginal), None);
    var recorded := DecideAndRecord(loss, posterior.value);
    d := Decided(posterior.value, recorded.value);
    if d.action.Assign? { AssignsCandidate(group, loss, d.posterior, d.action); }
  }

  /** What the solver returned for observation `v` holds of its posterior. */
  lemma {:induction false} OwnPosterior(
    c: SumProductConfig, groups: seq<seq<nat>>, factors: seq<FactorTable>, v: nat, g: FactorGraph,
    history: seq<Messages>, p: BatchPosterior, d: NormalizedDistribution)
    requires v < |groups| && IsGraph(g, groups, factors) && ValidTables(factors)
    requires Promises(g, c, Sizes(groups), history, p)
    requires PosteriorOver(groups[v], d) && Probabilities(d) == p.marginals[v]
    ensures ExactOnForest(c, groups, factors, v, d)
    ensures Unnamed(factors, v) ==> PriorsByOutcome(c, groups[v], d)
  {
    hide Compiled, Forest, EdgeCount, IsPosterior, IsMarginal, ExactOnForest, PosteriorOver, PriorsByOutcome, Schedule,
         Unnamed, KeepsPriors, IsBelief, ValidTables, Distribution, StopsWhenSteady, PassBound, Steady, AllFitting;
    ExactForBatch(c, groups, factors, v, g, d);
    if Unnamed(factors, v) { PriorsCarry(c, groups[v], d); }
  }

  lemma {:induction false} SolvedShapes(
    g: FactorGraph, c: SumProductConfig, domains: seq<nat>, history: seq<Messages>, p: BatchPosterior)
    requires Compiled(g) && ValidTables(g.factors) && |domains| == |g.cardinalities|
    requires Promises(g, c, domains, history, p)
    ensures |p.marginals| == |domains|
    ensures forall v: nat {:trigger p.marginals[v]} :: v < |domains| ==> Distribution(domains[v] + 2, p.marginals[v])
  {
    hide Compiled, Forest, SolvedExactly, StopsWhenSteady, PassBound, Steady, AllFitting, Schedule, IsBelief, Unnamed,
         KeepsPriors, Distribution, ValidTables;
  }

  /** One batch through the stage: the first error in the order candidates, factors, solver; otherwise one recordable
      decision per observation, on a forest the best one under the exact marginal. */
  method Infer(
    batchLength: nat, providers: seq<Provider>, c: SumProductConfig, loss: LossModel, buffer: CandidateBuffer,
    scratch: CandidateBuffer)
    returns (r: Result<seq<Decided>, InferenceError>)
    requires ValidConfig(c) && EmitTables(providers) && buffer != scratch
    modifies buffer, scratch
    ensures var inputs := BatchInputs(batchLength, providers);
            && (inputs.Err? ==> r == Err(inputs.error))
            && (inputs.Ok? ==>
                  && |inputs.value.0| == batchLength && ValidTables(inputs.value.1)
                  && (r.Ok? <==> Fits(Cardinalities(Sizes(inputs.value.0)), inputs.value.1))
                  && (r.Err? ==> r.error.Unsolvable?))
            && (r.Ok? ==>
                  && |r.value| == batchLength
                  && forall v: nat {:trigger r.value[v]} :: v < batchLength ==>
                       DecidesBest(c, loss, inputs.value.0, inputs.value.1, v, r.value[v]))
  {
    hide Aggregate, Emitted, ValidConfig, ValidTables, Fits, EmitTables, Compiled, Forest, Distribution, FirstBest,
         Chosen, Actions, PosteriorOver, ExactOnForest, PriorsByOutcome, Unnamed, Promises;
    AggregateSized(batchLength, CallsOf(providers));
    var filled := FillCandidates(buffer, scratch, batchLength, providers);
    if filled.Err? { return Err(NoCandidates(filled.error)); }
    var groups := ReadGroups(buffer, batchLength);
    var factors := CollectFactors(providers, groups);
    if factors.Err? { return Err(NoFactors(factors.error)); }
    EmittedValid(providers, |providers|, groups);
    var solved, g, history := Solve(c, Sizes(groups), factors.value);
    if solved.Err? { return Err(Unsolvable(solved.error)); }
    SolvedShapes(g, c, Sizes(groups), history, solved.value);
    var decided: seq<Decided> := [];
    for v := 0 to batchLength
      invariant |decided| == v
      invariant forall w: nat {:trigger decided[w]} :: w < v ==>
                  DecidesBest(c, loss, groups, factors.value, w, decided[w])
    {
      GroupsAreUnions(batchLength, CallsOf(providers), v);
      var own := DecideOne(loss, groups[v], solved.value.marginals[v]);
      OwnPosterior(c, groups, factors.value, v, g, history, solved.value, own.posterior);
      decided := decided + [own];
    }
    return Ok(decided);
  }

  lemma {:induction false} AggregateSized(batchLength: nat, providers: seq<seq<Call>>)
    ensures Aggregate(batchLength, providers).Ok? ==> |Aggregate(batchLength, providers).value| == batchLength
  {
    if Aggregate(batchLength, providers).Ok? {
      var gathered := Gathered(batchLength, providers).value;
      RunCallsGroups(gathered, [], batchLength, 0);
      assert Calls(gathered)[0..] == Calls(gathered);
    }
  }
}
