/** What a joint assignment of a batch weighs, read off its domains, its tables and the configuration.

    Each observation picks one of its candidates, a new identity or noise. The weight is the product of one
    prior per pick and one table entry per factor; no graph is mentioned.
  */
module BatchWeights {
  import opened Sums
  import opened FactorGraphs
  import opened Topology
  import opened SumProduct
  import opened JointSums

  /** The weight of one pick among `domain` candidates: values count the candidates, then `new`, then `noise`. */
  ghost function PickWeight(c: SumProductConfig, domain: nat, value: nat): real {
    if value < domain then c.candidatePrior
    else if value == domain then c.newPrior
    else c.noisePrior
  }

  ghost function Picks(c: SumProductConfig, domains: seq<nat>, a: Assignment, n: nat): real
    requires n <= |domains|
  {
    if n == 0 then 1.0 else Picks(c, domains, a, n - 1) * PickWeight(c, domains[n - 1], At(a, n - 1))
  }

  ghost function TableEntries(factors: seq<FactorTable>, a: Assignment, n: nat): real
    requires ValidTables(factors) && n <= |factors|
  {
    if n == 0 then 1.0
    else
      assert ValidTable(factors[n - 1]);
      TableEntries(factors, a, n - 1) * Potential(factors[n - 1], a)
  }

  ghost function BatchWeight(c: SumProductConfig, domains: seq<nat>, factors: seq<FactorTable>): Assignment -> real
    requires ValidTables(factors)
  {
    (a: Assignment) => Picks(c, domains, a, |domains|) * TableEntries(factors, a, |factors|)
  }

  ghost function Below(n: nat): (below: set<nat>)
    ensures |below| == n && forall x: nat :: x in below <==> x < n
  {
    if n == 0 then {} else Below(n - 1) + {n - 1}
  }

  /** The weight of all joint assignments that agree with `fixed` on the variables it names. */
  ghost function BatchSum(
    c: SumProductConfig, domains: seq<nat>, factors: seq<FactorTable>, fixed: Assignment): real
    requires ValidTables(factors)
  {
    SumOver(Below(|domains|) - fixed.Keys, |domains|, Cardinalities(domains), fixed, BatchWeight(c, domains, factors))
  }

  /** `m` gives observation `v` the normalised weights of its picks: for every value, all joint assignments with that
      value against all joint assignments. */
  ghost predicate IsPosterior(
    c: SumProductConfig, domains: seq<nat>, factors: seq<FactorTable>, v: nat, m: seq<real>)
    requires ValidTables(factors) && v < |domains|
  {
    && |m| == domains[v] + 2
    && BatchSum(c, domains, factors, map[]) > 0.0
    && forall s: nat {:trigger m[s]} :: s < |m| ==>
         m[s] == BatchSum(c, domains, factors, map[v := s]) / BatchSum(c, domains, factors, map[])
  }

  // ----- the graph's weights are these -----

  ghost predicate InRange(domains: seq<nat>, a: Assignment) {
    forall v: nat {:trigger At(a, v)} :: v < |domains| ==> At(a, v) < domains[v] + 2
  }

  lemma {:induction false} PickIsPrior(c: SumProductConfig, domain: nat, value: nat)
    requires value < domain + 2
    ensures PickWeight(c, domain, value) == Prior(c, domain + 2, value)
  {}

  lemma {:induction false} PicksAreVariables(
    g: FactorGraph, c: SumProductConfig, domains: seq<nat>, nodes: set<nat>, a: Assignment, n: nat)
    requires Compiled(g) && g.cardinalities == Cardinalities(domains) && n <= |domains|
    requires InRange(domains, a) && forall x: nat :: x < Nodes(g) ==> x in nodes
    ensures Product(g, c, nodes, n, a) == Picks(c, domains, a, n)
  {
    hide Compiled, Prior, PickWeight;
    if n > 0 {
      PicksAreVariables(g, c, domains, nodes, a, n - 1);
      PickIsPrior(c, domains[n - 1], At(a, n - 1));
      VariableWeighs(g, c, n - 1, a);
    }
  }

  lemma {:induction false} VariableWeighs(g: FactorGraph, c: SumProductConfig, v: nat, a: Assignment)
    requires Compiled(g) && v < |g.cardinalities|
    ensures Weight(g, c, v, a) == Prior(c, g.cardinalities[v], At(a, v))
  {}

  lemma {:induction false} FactorWeighs(g: FactorGraph, c: SumProductConfig, f: nat, a: Assignment)
    requires Compiled(g) && f < |g.factors| && ValidTable(g.factors[f])
    ensures Weight(g, c, |g.cardinalities| + f, a) == Potential(g.factors[f], a)
  {}

  lemma {:induction false} EntriesAreFactors(
    g: FactorGraph, c: SumProductConfig, domains: seq<nat>, nodes: set<nat>, a: Assignment, n: nat)
    requires Compiled(g) && g.cardinalities == Cardinalities(domains) && n <= |g.factors|
    requires InRange(domains, a) && forall x: nat :: x < Nodes(g) ==> x in nodes
    ensures Product(g, c, nodes, |domains| + n, a) == Picks(c, domains, a, |domains|) * TableEntries(g.factors, a, n)
  {
    hide Picks, Weight, Potential, Prior;
    if n == 0 {
      PicksAreVariables(g, c, domains, nodes, a, |domains|);
    } else {
      assert ValidTable(g.factors[n - 1]);
      EntriesAreFactors(g, c, domains, nodes, a, n - 1);
      FactorWeighs(g, c, n - 1, a);
      Associate(Picks(c, domains, a, |domains|), TableEntries(g.factors, a, n - 1), Potential(g.factors[n - 1], a));
    }
  }

  /** Summing the graph's weights is summing the batch's. */
  lemma {:induction false} GraphSumIsBatchSum(
    g: FactorGraph, c: SumProductConfig, domains: seq<nat>, nodes: set<nat>, fixed: Assignment)
    requires Compiled(g) && g.cardinalities == Cardinalities(domains)
    requires forall x: nat :: x < Nodes(g) ==> x in nodes
    requires forall v :: v in fixed ==> v < |domains| && fixed[v] < domains[v] + 2
    ensures Z(g, c, Below(|domains|) - fixed.Keys, nodes, fixed) == BatchSum(c, domains, g.factors, fixed)
  {
    hide Compiled, Product, Picks, TableEntries, SumOver;
    assert ValidTables(g.factors) by { CompiledTables(g); }
    var n, over, card := |domains|, Below(|domains|) - fixed.Keys, Cardinalities(domains);
    var graph, batch := NodesWeight(g, c, nodes), BatchWeight(c, domains, g.factors);
    forall b | Within(fixed, b, over, n, card) ensures graph(b) == batch(b) {
      forall v: nat | v < n ensures At(b, v) < domains[v] + 2 {
        if v !in over { assert At(b, v) == At(fixed, v) == fixed[v]; }
      }
      EntriesAreFactors(g, c, domains, nodes, b, |g.factors|);
    }
    SumOverSame(over, n, card, fixed, graph, batch);
  }

  lemma {:induction false} CompiledTables(g: FactorGraph)
    requires Compiled(g)
    ensures ValidTables(g.factors)
  {}

  // ----- observations no factor names -----

  ghost predicate Unnamed(factors: seq<FactorTable>, v: nat) {
    forall f: nat {:trigger factors[f]} :: f < |factors| ==> v !in factors[f].variables
  }

  /** The priors alone: every one of `n` candidates, `new` and `noise` in proportion to its own. */
  ghost predicate KeepsPriors(c: SumProductConfig, n: nat, m: seq<real>) {
    var total := n as real * c.candidatePrior + c.newPrior + c.noisePrior;
    && |m| == n + 2 && total > 0.0
    && (forall i: nat {:trigger m[i]} :: i < n ==> m[i] == c.candidatePrior / total)
    && m[n] == c.newPrior / total && m[n + 1] == c.noisePrior / total
  }

  lemma {:induction false} EdgesName(g: FactorGraph, v: nat, e: nat)
    requires Compiled(g) && v < |g.cardinalities| && e in g.variableEdges[v]
    ensures !Unnamed(g.factors, v)
  {
    PositionsExact(VariableKeys(g.edges), v);
    assert IsPosition(VariableKeys(g.edges), v, e);
    assert EdgeRight(g.cardinalities, g.factors, g.edges, e);
    assert v in g.factors[g.edges[e].factor].variables;
  }

  lemma {:induction false} UnnamedHasNoEdges(g: FactorGraph, v: nat)
    requires Compiled(g) && v < |g.cardinalities| && Unnamed(g.factors, v)
    ensures g.variableEdges[v] == []
  {
    hide Unnamed;
    if g.variableEdges[v] != [] { EdgesName(g, v, g.variableEdges[v][0]); }
  }

  lemma {:induction false} PriorsTotal(c: SumProductConfig, m: seq<real>, n: nat)
    requires |m| <= n && forall i :: 0 <= i < |m| ==> m[i] == c.candidatePrior
    ensures Total(m) == |m| as real * c.candidatePrior
  {
    if m != [] {
      var shorter: nat := |m| - 1;
      PriorsTotal(c, m[..shorter], n);
      OneMore(shorter, c.candidatePrior);
    }
  }

  lemma {:induction false} OneMore(n: nat, x: real)
    ensures n as real * x + x == (n + 1) as real * x
  {}

  lemma {:induction false} NoMessages(
    g: FactorGraph, c: SumProductConfig, v: nat, toVariable: seq<real>, state: nat)
    requires v < |g.cardinalities| == |g.variableEdges| && g.variableEdges[v] == []
    ensures Belief(g, c, v, |g.edges|, toVariable, state) == Prior(c, g.cardinalities[v], state)
  {}

  /** Priors in the order of a domain normalise to their shares. */
  lemma {:induction false} OnlyPriors(c: SumProductConfig, n: nat, raw: seq<real>)
    requires ValidConfig(c) && |raw| == n + 2 && raw[n] == c.newPrior && raw[n + 1] == c.noisePrior
    requires forall i: nat :: i < n ==> raw[i] == c.candidatePrior
    ensures Total(raw) > 0.0 && KeepsPriors(c, n, Normalised(raw))
  {
    var total := n as real * c.candidatePrior + c.newPrior + c.noisePrior;
    assert Total(raw) == total by {
      PriorsTotal(c, raw[..n], n);
      assert raw[..n + 1][..n] == raw[..n];
      TotalStep(raw[..n + 1]);
      TotalStep(raw);
    }
    CandidatesWeigh(n, c.candidatePrior);
  }

  lemma {:induction false} TotalStep(m: seq<real>)
    requires m != []
    ensures Total(m) == Total(m[..|m| - 1]) + m[|m| - 1]
  {}

  /** The belief of an observation no factor names is made of priors alone, whatever the messages. */
  lemma {:induction false} UnnamedKeepsPriors(
    g: FactorGraph, c: SumProductConfig, domains: seq<nat>, v: nat, toVariable: seq<real>)
    requires Compiled(g) && ValidConfig(c) && g.cardinalities == Cardinalities(domains) && v < |domains|
    requires Unnamed(g.factors, v)
    ensures |g.variableEdges| == |g.cardinalities|
    ensures var raw := BeliefMessage(g, c, v, |g.edges|, toVariable);
            Total(raw) > 0.0 && KeepsPriors(c, domains[v], Normalised(raw))
  {
    hide ValidConfig, Total, Normalised, KeepsPriors, Belief;
    UnnamedHasNoEdges(g, v);
    var raw := BeliefMessage(g, c, v, |g.edges|, toVariable);
    forall s: nat | s < domains[v] + 2 ensures raw[s] == Prior(c, domains[v] + 2, s) {
      NoMessages(g, c, v, toVariable, s);
    }
    OnlyPriors(c, domains[v], raw);
  }

  lemma {:induction false} CandidatesWeigh(n: nat, x: real)
    requires x > 0.0
    ensures n as real * x >= 0.0
  {}
}
