/** The solver: synchronous passes, and the exactness of its marginals on every forest. */
module Solver {
  import opened Types
  import opened Connectivity
  import opened Forests
  import opened Sums
  import opened Sorting
  import opened FactorGraphs
  import opened Topology
  import opened SumProduct
  import opened JointSums
  import opened BatchWeights
  import opened Schedules
  import opened Exactness
  import opened ExactMessages
  import opened ExactFactors

  // ----- what is exact after t passes -----

  /** Messages to variables whose factor side has at most `t` nodes are exact. */
  ghost predicate ToVariableReady(g: FactorGraph, c: SumProductConfig, buffer: seq<real>, t: nat)
    requires Compiled(g) && |buffer| == g.messageLength
  {
    forall e: nat {:trigger ExactToVariable(g, c, buffer, e)} ::
      e < |g.edges| && |FactorSide(g, e)| <= t ==> ExactToVariable(g, c, buffer, e)
  }

  /** Messages to factors whose variable side has at most `t` nodes are exact. */
  ghost predicate ToFactorReady(g: FactorGraph, c: SumProductConfig, buffer: seq<real>, t: nat)
    requires Compiled(g) && |buffer| == g.messageLength
  {
    forall e: nat {:trigger ExactToFactor(g, c, buffer, e)} ::
      e < |g.edges| && |VariableSide(g, e)| <= t ==> ExactToFactor(g, c, buffer, e)
  }

  lemma {:induction false} SidesNotEmpty(g: FactorGraph, e: nat)
    requires Compiled(g) && e < |g.edges|
    ensures |FactorSide(g, e)| > 0 && |VariableSide(g, e)| > 0
  {
    EdgeLinks(g, e);
    BehindRoot(Links(g), FactorOf(g, e), VariableOf(g, e));
    BehindRoot(Links(g), VariableOf(g, e), FactorOf(g, e));
    assert FactorOf(g, e) in FactorSide(g, e) && VariableOf(g, e) in VariableSide(g, e);
  }

  /** Nothing is claimed of the initial messages. */
  lemma {:induction false} NothingReady(g: FactorGraph, c: SumProductConfig, buffer: seq<real>)
    requires Compiled(g) && |buffer| == g.messageLength
    ensures ToFactorReady(g, c, buffer, 0)
  {
    forall e: nat | e < |g.edges| ensures |VariableSide(g, e)| > 0 {
      SidesNotEmpty(g, e);
    }
  }

  /** The variable sides around a factor are smaller than the factor's side. */
  lemma {:induction false} VariableSideSmaller(g: FactorGraph, e: nat, d: nat)
    requires KnownEdge(g, e) && Forest(Links(g)) && d in g.factorEdges[FactorIndex(g, e)] && d != e
    ensures d < |g.edges| && |VariableSide(g, d)| < |FactorSide(g, e)|
  {
    hide Compiled, Forest;
    var f := FactorIndex(g, e);
    FactorList(g, f, d);
    FactorSideShape(g, e);
    assert VariableParts(g)(d) == VariablePart(g, d);
    forall x | x in VariableSide(g, d) ensures x in Around(g, e).nodes {
      TogetherMembers(g.factorEdges[f], e, VariableParts(g), x);
    }
    Smaller(VariableSide(g, d) + {FactorOf(g, e)}, FactorSide(g, e));
  }

  /** The factor sides around a variable are smaller than the variable's side. */
  lemma {:induction false} FactorSideSmaller(g: FactorGraph, v: nat, skip: nat, b: nat, d: nat)
    requires Compiled(g) && Forest(Links(g)) && v < |g.cardinalities| == |g.variableEdges|
    requires SkipsVariableEdge(g, v, skip, b) && d in g.variableEdges[v] && d != skip
    ensures d < |g.edges| && VariableOf(g, d) == v && |FactorSide(g, d)| < |Behind(Links(g), Nodes(g), v, b)|
  {
    hide Compiled, Forest, SkipsVariableEdge;
    VariableList(g, v, d);
    BehindVariable(g, v, skip, b);
    assert FactorParts(g)(d) == FactorPart(g, d);
    forall x | x in FactorSide(g, d) ensures x in AroundVariable(g, v, skip).nodes {
      TogetherMembers(g.variableEdges[v], skip, FactorParts(g), x);
    }
    Smaller(FactorSide(g, d) + {v}, Behind(Links(g), Nodes(g), v, b));
  }

  /** A factor pass makes messages to variables exact one node further out. */
  lemma {:induction false} FactorPassCarries(
    g: FactorGraph, c: SumProductConfig, toFactor: seq<real>, before: seq<real>, after: seq<real>, t: nat)
    requires Compiled(g) && ValidConfig(c) && Forest(Links(g)) && |toFactor| == g.messageLength && Positive(toFactor)
    requires Passed(g, c, true, toFactor, before, after, 0.0) && ToFactorReady(g, c, toFactor, t)
    ensures |after| == g.messageLength && ToVariableReady(g, c, after, t + 1)
  {
    forall e: nat | e < |g.edges| && |FactorSide(g, e)| <= t + 1 ensures ExactToVariable(g, c, after, e) {
      FactorPassCarriesEdge(g, c, toFactor, before, after, t, e);
    }
  }

  lemma {:induction false} FactorPassCarriesEdge(
    g: FactorGraph, c: SumProductConfig, toFactor: seq<real>, before: seq<real>, after: seq<real>, t: nat, e: nat)
    requires Compiled(g) && ValidConfig(c) && Forest(Links(g)) && |toFactor| == g.messageLength && Positive(toFactor)
    requires Passed(g, c, true, toFactor, before, after, 0.0) && ToFactorReady(g, c, toFactor, t)
    requires e < |g.edges| && |FactorSide(g, e)| <= t + 1
    ensures |after| == g.messageLength && ExactToVariable(g, c, after, e)
  {
    hide Compiled, Forest, ValidConfig, ExactToFactor, Updated, RawMessage, FactorSide, VariableSide;
    EdgeIsKnown(g, e);
    EdgeNamed(g, e);
    forall d: nat | d in g.factorEdges[FactorIndex(g, e)] && d != e && d < |g.edges|
      ensures ExactToFactor(g, c, toFactor, d)
    {
      VariableSideSmaller(g, e, d);
    }
    FactorMessageExact(g, c, e, toFactor);
    FactorMessagePositive(g, e, toFactor);
    assert MessagePassed(g, c, true, toFactor, before, after, 0.0, e);
    RawIsFactorMessage(g, c, toFactor, e);
    UndampedIsExact(g, c, FactorMessage(g, e, toFactor), Range(g, before, e), VariableOf(g, e), FactorPart(g, e));
  }

  /** A variable pass makes messages to factors exact as far out as those to variables. */
  lemma {:induction false} VariablePassCarries(
    g: FactorGraph, c: SumProductConfig, toVariable: seq<real>, before: seq<real>, after: seq<real>, t: nat)
    requires Compiled(g) && ValidConfig(c) && Forest(Links(g)) && |toVariable| == g.messageLength
             && Positive(toVariable)
    requires Passed(g, c, false, toVariable, before, after, 0.0) && ToVariableReady(g, c, toVariable, t)
    ensures |after| == g.messageLength && ToFactorReady(g, c, after, t)
  {
    forall e: nat | e < |g.edges| && |VariableSide(g, e)| <= t ensures ExactToFactor(g, c, after, e) {
      VariablePassCarriesEdge(g, c, toVariable, before, after, t, e);
    }
  }

  lemma {:induction false} VariablePassCarriesEdge(
    g: FactorGraph, c: SumProductConfig, toVariable: seq<real>, before: seq<real>, after: seq<real>, t: nat, e: nat)
    requires Compiled(g) && ValidConfig(c) && Forest(Links(g)) && |toVariable| == g.messageLength
             && Positive(toVariable)
    requires Passed(g, c, false, toVariable, before, after, 0.0) && ToVariableReady(g, c, toVariable, t)
    requires e < |g.edges| && |VariableSide(g, e)| <= t
    ensures |after| == g.messageLength && ExactToFactor(g, c, after, e)
  {
    hide Compiled, Forest, ValidConfig, ExactToVariable, Updated, RawMessage, BeliefMessage, FactorSide;
    EdgeNamed(g, e);
    ListCounts(g);
    var v := VariableOf(g, e);
    SkipsOwnVariableEdge(g, e);
    ReadyAroundVariable(g, c, toVariable, t, v, e, FactorOf(g, e));
    BeliefExact(g, c, v, e, FactorOf(g, e), toVariable);
    BeliefPositive(g, c, v, e, toVariable);
    BehindVariable(g, v, e, FactorOf(g, e));
    assert WithVariable(g, v, e) == VariablePart(g, e);
    assert MessagePassed(g, c, false, toVariable, before, after, 0.0, e);
    RawIsBelief(g, c, toVariable, e);
    UndampedIsExact(g, c, BeliefMessage(g, c, v, e, toVariable), Range(g, before, e), v, VariablePart(g, e));
  }

  lemma {:induction false} ReadyAroundVariable(
    g: FactorGraph, c: SumProductConfig, toVariable: seq<real>, t: nat, v: nat, skip: nat, b: nat)
    requires Compiled(g) && Forest(Links(g)) && |toVariable| == g.messageLength
    requires ToVariableReady(g, c, toVariable, t) && v < |g.cardinalities| == |g.variableEdges|
    requires SkipsVariableEdge(g, v, skip, b) && |Behind(Links(g), Nodes(g), v, b)| <= t + 1
    ensures ExactAroundVariable(g, c, v, skip, toVariable)
  {
    hide Compiled, Forest, ExactToVariable, SkipsVariableEdge, FactorSide, Behind;
    forall d: nat | d in g.variableEdges[v] && d != skip && d < |g.edges| ensures ExactToVariable(g, c, toVariable, d) {
      FactorSideSmaller(g, v, skip, b, d);
    }
  }

  // ----- the pass bound reaches every message -----

  lemma {:induction false} ComponentIsBehind(g: FactorGraph, v: nat)
    requires Compiled(g) && v < |g.cardinalities|
    ensures Behind(Links(g), Nodes(g), v, Nodes(g)) == ComponentNodes(Links(g), Nodes(g), v)
  {
    var links, none := Links(g), Nodes(g);
    if (v, none) in links { LinkKinds(g, |g.edges|, v, none); }
    if (none, v) in links { LinkKinds(g, |g.edges|, none, v); }
    assert Without(links, v, none) == links;
  }

  /** As many passes as the topology asks for reach across the whole component, unless it has more edges than
      passes can be counted. */
  lemma {:induction false} PassesReach(g: FactorGraph, v: nat, passes: nat)
    requires Compiled(g) && v < |g.cardinalities| && PassBound(g, passes) && EdgeCount(g, v) <= MAX_PASSES
    ensures |Behind(Links(g), Nodes(g), v, Nodes(g))| <= passes + 1
  {
    var largest: nat :| IsLargest(g, largest)
                   && passes == if largest + 1 > MAX_PASSES then MAX_PASSES else largest + 1;
    ComponentIsBehind(g, v);
    ComponentsAreThin(g, |g.edges|, v);
    assert WithinBound(g, |g.edges|, v);
    assert EdgeCount(g, v) <= largest;
  }

  // ----- marginals -----

  ghost function AllNodes(g: FactorGraph): set<nat> { Below(Nodes(g)) }

  ghost function AllVariables(g: FactorGraph): set<nat> { Below(|g.cardinalities|) }

  /** The weight of all joint assignments that give `v` the value `s`. */
  ghost function JointSum(g: FactorGraph, c: SumProductConfig, v: nat, s: nat): real
    requires Compiled(g)
  {
    Z(g, c, AllVariables(g) - {v}, AllNodes(g), map[v := s])
  }

  /** The weight of all joint assignments. */
  ghost function JointTotal(g: FactorGraph, c: SumProductConfig): real
    requires Compiled(g)
  {
    Z(g, c, AllVariables(g), AllNodes(g), map[])
  }

  /** `m` is the exact marginal of `v`. */
  ghost predicate IsMarginal(g: FactorGraph, c: SumProductConfig, v: nat, m: seq<real>)
    requires Compiled(g) && v < |g.cardinalities|
  {
    && |m| == g.cardinalities[v]
    && JointTotal(g, c) > 0.0
    && forall s: nat {:trigger JointSum(g, c, v, s)} :: s < |m| ==> m[s] == JointSum(g, c, v, s) / JointTotal(g, c)
  }

  lemma {:induction false} TotalsAgree(g: FactorGraph, c: SumProductConfig, v: nat)
    requires Compiled(g) && v < |g.cardinalities|
    ensures JointTotal(g, c) == Sum(g.cardinalities[v], (s: nat) => JointSum(g, c, v, s))
  {
    hide Compiled;
    var rest := AllVariables(g) - {v};
    assert AllVariables(g) == {v} + rest;
    var empty: Assignment := map[];
    SumOverPeel(v, rest, |g.cardinalities|, g.cardinalities, empty, NodesWeight(g, c, AllNodes(g)));
    SumSame(g.cardinalities[v],
            (s: nat) => SumOver(rest, |g.cardinalities|, g.cardinalities, empty[v := s],
                NodesWeight(g, c, AllNodes(g))),
            (s: nat) => JointSum(g, c, v, s));
  }

  /** The graph's marginals are the batch's posteriors. */
  lemma {:induction false} MarginalIsPosterior(
    g: FactorGraph, c: SumProductConfig, domains: seq<nat>, v: nat, m: seq<real>)
    requires Compiled(g) && g.cardinalities == Cardinalities(domains) && v < |domains| && IsMarginal(g, c, v, m)
    ensures ValidTables(g.factors) && IsPosterior(c, domains, g.factors, v, m)
  {
    hide Compiled, BatchSum, Z, ValidTables;
    CompiledTables(g);
    var nothing: Assignment := map[];
    assert Below(|domains|) - nothing.Keys == AllVariables(g);
    GraphSumIsBatchSum(g, c, domains, AllNodes(g), nothing);
    forall s: nat | s < |m| ensures JointSum(g, c, v, s) == BatchSum(c, domains, g.factors, map[v := s]) {
      var fixed: Assignment := map[v := s];
      assert Below(|domains|) - fixed.Keys == AllVariables(g) - {v};
      GraphSumIsBatchSum(g, c, domains, AllNodes(g), fixed);
    }
  }

  /** The nodes outside `v`'s component. */
  ghost function Elsewhere(g: FactorGraph, v: nat): set<nat> { AllNodes(g) - ComponentNodes(Links(g), Nodes(g), v) }

  ghost function Here(g: FactorGraph, v: nat): Part {
    Part(Variables(g, ComponentNodes(Links(g), Nodes(g), v)) - {v}, ComponentNodes(Links(g), Nodes(g), v))
  }

  ghost function ElsewhereSum(g: FactorGraph, c: SumProductConfig, v: nat): real
    requires Compiled(g)
  {
    Z(g, c, Variables(g, Elsewhere(g, v)), Elsewhere(g, v), map[])
  }

  lemma {:induction false} NeighboursShareComponent(g: FactorGraph, v: nat, x: nat, w: nat)
    requires Compiled(g) && x < Nodes(g) && Touches(g, x, w)
    ensures w < |g.cardinalities|
    ensures x in ComponentNodes(Links(g), Nodes(g), v) <==> w in ComponentNodes(Links(g), Nodes(g), v)
  {
    if |g.cardinalities| <= x {
      TouchIsLink(g, x, w);
      var links := Links(g);
      Connectivity.Edge(links, w, x);
      Connectivity.Edge(links, x, w);
      if Connected(links, v, x) { Transitive(links, v, x, w); }
      if Connected(links, v, w) { Transitive(links, v, w, x); }
    }
  }

  lemma {:induction false} ComponentsApart(g: FactorGraph, v: nat)
    requires Compiled(g) && v < |g.cardinalities|
    ensures Apart(g, Here(g, v).nodes, Variables(g, Elsewhere(g, v)))
    ensures Apart(g, Elsewhere(g, v), Here(g, v).over) && Apart(g, Elsewhere(g, v), {v})
  {
    hide Compiled, Touches, Connected;
    Reflexive(Links(g), v);
    var here, away := Here(g, v), Elsewhere(g, v);
    forall x: nat, w: nat | x in here.nodes && w in Variables(g, away) ensures !Touches(g, x, w) {
      if Touches(g, x, w) { NeighboursShareComponent(g, v, x, w); }
    }
    forall x: nat, w: nat | x in away && w in here.over + {v} ensures !Touches(g, x, w) {
      if Touches(g, x, w) { NeighboursShareComponent(g, v, x, w); }
    }
  }

  lemma {:induction false} WholeBatch(g: FactorGraph, v: nat)
    requires v < |g.cardinalities|
    ensures AllNodes(g) == Here(g, v).nodes + Elsewhere(g, v) && Here(g, v).nodes !! Elsewhere(g, v)
    ensures AllVariables(g) - {v} == Here(g, v).over + Variables(g, Elsewhere(g, v))
    ensures Here(g, v).over !! Variables(g, Elsewhere(g, v))
  {
    Reflexive(Links(g), v);
    forall x: nat ensures x in AllVariables(g) - {v} <==> x in Here(g, v).over + Variables(g, Elsewhere(g, v)) {}
  }

  /** The rest of the batch only contributes a constant factor. */
  lemma {:induction false} ElsewhereIsConstant(g: FactorGraph, c: SumProductConfig, v: nat, s: nat)
    requires Compiled(g) && v < |g.cardinalities|
    ensures JointSum(g, c, v, s) == PartZ(g, c, Here(g, v), map[v := s]) * ElsewhereSum(g, c, v)
  {
    hide Compiled, Apart, NodesWeight, SumOver, Here, Elsewhere, AllNodes, AllVariables;
    var here, away := Here(g, v), Elsewhere(g, v);
    WholeBatch(g, v);
    ComponentsApart(g, v);
    ZSplits(g, c, here.over, here.nodes, Variables(g, away), away, map[v := s]);
    ApartIsBlind(g, c, away, {v});
    var empty: Assignment := map[];
    assert empty[v := s] == map[v := s];
    SumOverBlind(Variables(g, away), |g.cardinalities|, g.cardinalities, empty, NodesWeight(g, c, away), v, s);
  }

  lemma {:induction false} TotalIsSum(m: seq<real>, f: nat -> real)
    requires forall i: nat :: i < |m| ==> m[i] == f(i)
    ensures Total(m) == Sum(|m|, f)
  {
    if m != [] { TotalIsSum(m[..|m| - 1], f); }
  }

  lemma {:induction false} SameRatio(x: real, total: real, j: real, jointTotal: real, k: real, rest: real)
    requires total > 0.0 && jointTotal > 0.0 && k > 0.0 && rest > 0.0
    requires x * rest == k * j && total * rest == k * jointTotal
    ensures x / total == j / jointTotal
  {
    assert (x * jointTotal) * (rest * k) == (x * rest) * (k * jointTotal) == (k * j) * (total * rest)
        == (j * total) * (rest * k);
    Cancel(x * jointTotal, j * total, rest * k);
    var q := x / total;
    assert (q * jointTotal) * total == (q * total) * jointTotal == x * jointTotal == j * total;
    Cancel(q * jointTotal, j, total);
  }

  lemma {:induction false} Cancel(x: real, y: real, z: real)
    requires x * z == y * z && z > 0.0
    ensures x == y
  {
    assert (x - y) * z == 0.0;
  }

  /** When messages reach across `v`'s component, its normalised belief is its exact marginal. */
  lemma {:induction false} BeliefIsMarginal(g: FactorGraph, c: SumProductConfig, toVariable: seq<real>, t: nat, v: nat)
    requires Compiled(g) && ValidConfig(c) && Forest(Links(g)) && |toVariable| == g.messageLength
             && Positive(toVariable)
    requires v < |g.cardinalities| == |g.variableEdges| && ToVariableReady(g, c, toVariable, t)
    requires |Behind(Links(g), Nodes(g), v, Nodes(g))| <= t + 1
    ensures var raw := BeliefMessage(g, c, v, |g.edges|, toVariable);
            Total(raw) > 0.0 && IsMarginal(g, c, v, Normalised(raw))
  {
    hide Compiled, Forest, ValidConfig, ToVariableReady, BeliefMessage, IsMarginal, SkipsVariableEdge;
    var none, raw := |g.edges|, BeliefMessage(g, c, v, |g.edges|, toVariable);
    NoEdgeSkipped(g, v);
    ReadyAroundVariable(g, c, toVariable, t, v, none, Nodes(g));
    BeliefExact(g, c, v, none, Nodes(g), toVariable);
    BehindVariable(g, v, none, Nodes(g));
    ComponentIsBehind(g, v);
    assert WithVariable(g, v, none) == Here(g, v);
    BeliefPositive(g, c, v, none, toVariable);
    AtLeastTwo(g, v);
    NormalisedPositive(raw);
    ExactIsMarginal(g, c, v, raw);
  }

  lemma {:induction false} AtLeastTwo(g: FactorGraph, v: nat)
    requires Compiled(g) && v < |g.cardinalities|
    ensures g.cardinalities[v] >= 2
  {}

  lemma {:induction false} NoEdgeSkipped(g: FactorGraph, v: nat)
    requires Compiled(g) && v < |g.cardinalities| == |g.variableEdges|
    ensures SkipsVariableEdge(g, v, |g.edges|, Nodes(g))
  {
    forall d: nat | d in g.variableEdges[v] ensures d == |g.edges| <==> FactorOf(g, d) == Nodes(g) {
      VariableList(g, v, d);
      EdgeLinks(g, d);
    }
  }

  /** Proportional entries have proportional totals. */
  lemma {:induction false} TotalsProportional(raw: seq<real>, joint: nat -> real, k: real, rest: real)
    requires forall s: nat {:trigger joint(s)} :: s < |raw| ==> raw[s] * rest == k * joint(s)
    ensures Total(raw) * rest == k * Sum(|raw|, joint)
  {
    hide Total, Sum;
    var plain := (s: nat) => Read(raw, s);
    var product := (s: nat) => plain(s) * rest;
    var scaled := (s: nat) => joint(s) * k;
    TotalIsSum(raw, plain);
    SumScale(|raw|, plain, product, rest);
    SumScale(|raw|, joint, scaled, k);
    SumSame(|raw|, product, scaled);
  }

  /** Each entry, together with the rest of the batch, is the joint sum of its value, up to scale. */
  lemma {:induction false} EntryIsJoint(g: FactorGraph, c: SumProductConfig, v: nat, raw: seq<real>, k: real, s: nat)
    requires Compiled(g) && ValidConfig(c) && v < |g.cardinalities| && |raw| == g.cardinalities[v]
    requires ProportionalBy(g, c, raw, v, Here(g, v), k) && s < |raw|
    ensures raw[s] * ElsewhereSum(g, c, v) == k * JointSum(g, c, v, s)
  {
    hide Compiled, ValidConfig, Here, ElsewhereSum, JointSum, PartZ;
    ElsewhereIsConstant(g, c, v, s);
    var at: Assignment := map[v := s];
    assert At(at, v) == s && raw[At(at, v)] == k * PartZ(g, c, Here(g, v), at);
    var rest := ElsewhereSum(g, c, v);
    assert (k * PartZ(g, c, Here(g, v), at)) * rest == k * (PartZ(g, c, Here(g, v), at) * rest);
  }

  /** Dividing by the total cancels both the message's scale and the rest of the batch. */
  lemma {:induction false} ExactIsMarginal(g: FactorGraph, c: SumProductConfig, v: nat, raw: seq<real>)
    requires Compiled(g) && ValidConfig(c) && v < |g.cardinalities| && |raw| == g.cardinalities[v]
    requires Exact(g, c, raw, v, Here(g, v)) && Total(raw) > 0.0
    ensures IsMarginal(g, c, v, Normalised(raw))
  {
    hide Compiled, ValidConfig, Total, Sum, Here, ElsewhereSum, JointSum, JointTotal, PartZ;
    var k :| ProportionalBy(g, c, raw, v, Here(g, v), k);
    var rest, total, jointTotal := ElsewhereSum(g, c, v), Total(raw), JointTotal(g, c);
    ElsewherePositive(g, c, v);
    var joint := (s: nat) => JointSum(g, c, v, s);
    forall s: nat {:trigger joint(s)} | s < |raw| ensures raw[s] * rest == k * joint(s) {
      EntryIsJoint(g, c, v, raw, k, s);
    }
    TotalsProportional(raw, joint, k, rest);
    TotalsAgree(g, c, v);
    forall s: nat | s < |raw| ensures Normalised(raw)[s] == JointSum(g, c, v, s) / jointTotal {
      assert raw[s] * rest == k * joint(s);
      SameRatio(raw[s], total, joint(s), jointTotal, k, rest);
    }
  }

  lemma {:induction false} ElsewherePositive(g: FactorGraph, c: SumProductConfig, v: nat)
    requires Compiled(g) && ValidConfig(c)
    ensures ElsewhereSum(g, c, v) > 0.0 && JointTotal(g, c) > 0.0
  {
    ZPositive(g, c, Variables(g, Elsewhere(g, v)), Elsewhere(g, v), map[]);
    ZPositive(g, c, AllVariables(g), AllNodes(g), map[]);
  }

  // ----- the solver -----

  datatype StoppingReason = ExactTree | Converged | IterationLimit

  datatype BatchPosterior = BatchPosterior(
    marginals: seq<seq<real>>, iterations: nat, residual: Option<real>, damping: real, stoppingReason: StoppingReason)

  ghost predicate IsBelief(g: FactorGraph, c: SumProductConfig, v: nat, toVariable: seq<real>, m: seq<real>)
    requires v < |g.cardinalities| == |g.variableEdges|
  {
    && Total(BeliefMessage(g, c, v, |g.edges|, toVariable)) > 0.0
    && m == Normalised(BeliefMessage(g, c, v, |g.edges|, toVariable))
  }

  /** The normalised beliefs of every variable. */
  method Collect(g: FactorGraph, c: SumProductConfig, toVariable: array<real>) returns (marginals: seq<seq<real>>)
    requires Compiled(g) && ValidConfig(c) && toVariable.Length == g.messageLength && Positive(toVariable[..])
    requires |g.cardinalities| == |g.variableEdges|
    ensures |marginals| == |g.cardinalities|
    ensures forall v: nat {:trigger marginals[v]} :: v < |marginals| ==>
              IsBelief(g, c, v, toVariable[..], marginals[v])
  {
    hide Compiled, ValidConfig, IsBelief;
    marginals := [];
    ghost var messages := toVariable[..];
    for v := 0 to |g.cardinalities|
      invariant toVariable[..] == messages
      invariant |marginals| == v
      invariant forall w: nat {:trigger marginals[w]} :: w < v ==> IsBelief(g, c, w, messages, marginals[w])
    {
      var marginal := CollectOne(g, c, v, toVariable);
      marginals := marginals + [marginal];
    }
  }

  method CollectOne(g: FactorGraph, c: SumProductConfig, v: nat, toVariable: array<real>) returns (marginal: seq<real>)
    requires Compiled(g) && ValidConfig(c) && toVariable.Length == g.messageLength && Positive(toVariable[..])
    requires v < |g.cardinalities| == |g.variableEdges|
    ensures IsBelief(g, c, v, toVariable[..], marginal)
  {
    hide Compiled, ValidConfig, Belief, Total, Normalised, Positive;
    ghost var messages := toVariable[..];
    var beliefs := new real[g.cardinalities[v]](_ => 0.0);
    for s := 0 to g.cardinalities[v]
      invariant toVariable[..] == messages
      invariant forall r :: 0 <= r < s ==> beliefs[r] == Belief(g, c, v, |g.edges|, messages, r)
    {
      var value := BeliefAt(g, c, v, |g.edges|, toVariable, s);
      beliefs[s] := value;
    }
    ghost var raw := BeliefMessage(g, c, v, |g.edges|, messages);
    assert beliefs[0..g.cardinalities[v]] == raw;
    BeliefPositive(g, c, v, |g.edges|, messages);
    AtLeastTwo(g, v);
    NormalisedPositive(raw);
    var ok := Normalise(beliefs, 0, g.cardinalities[v]);
    marginal := beliefs[0..g.cardinalities[v]];
  }

  /** What the messages hold after `t` passes over a forest. */
  ghost predicate ReadyAfter(g: FactorGraph, c: SumProductConfig, toFactor: seq<real>, toVariable: seq<real>, t: nat)
    requires Compiled(g)
  {
    && |toFactor| == |toVariable| == g.messageLength
    && ToFactorReady(g, c, toFactor, t)
    && (t > 0 ==> ToVariableReady(g, c, toVariable, t))
  }

  lemma {:induction false} ReadyAtStart(g: FactorGraph, c: SumProductConfig, toFactor: seq<real>, toVariable: seq<real>)
    requires Compiled(g) && |toFactor| == |toVariable| == g.messageLength
    ensures ReadyAfter(g, c, toFactor, toVariable, 0)
  {
    NothingReady(g, c, toFactor);
  }

  lemma {:induction false} ReadyStep(g: FactorGraph, c: SumProductConfig, before: Messages, after: Messages, t: nat)
    requires Compiled(g) && ValidConfig(c) && Forest(Links(g))
    requires ReadyAfter(g, c, before.toFactor, before.toVariable, t)
    requires Positive(before.toFactor) && Positive(after.toVariable) && Pass(g, c, before, after, 0.0)
    ensures ReadyAfter(g, c, after.toFactor, after.toVariable, t + 1)
  {
    FactorPassCarries(g, c, before.toFactor, before.toVariable, after.toVariable, t);
    VariablePassCarries(g, c, after.toVariable, before.toFactor, after.toFactor, t + 1);
  }

  /** Runs the passes. A forest takes exactly the topology's pass count and no damping; any other graph
      stops at the first residual within tolerance, or at the iteration limit. */
  method Iterate(
    g: FactorGraph, c: SumProductConfig, acyclic: bool, limit: nat, damping: real,
    toFactor: array<real>, toVariable: array<real>, next: array<real>)
    returns (completed: nat, residual: Option<real>, ghost history: seq<Messages>)
    requires Compiled(g) && ValidConfig(c) && toFactor != toVariable && toFactor != next && toVariable != next
    requires toFactor.Length == toVariable.Length == next.Length == g.messageLength
    requires toFactor[..] == toVariable[..] == Ones(g.messageLength) && 0.0 <= damping < 1.0
    requires acyclic ==> Forest(Links(g)) && damping == 0.0
    requires limit > 0
    modifies toFactor, toVariable, next
    ensures Positive(toVariable[..]) && residual.Some? && 0 < completed <= limit
    ensures acyclic ==> completed == limit && ReadyAfter(g, c, toFactor[..], toVariable[..], limit)
    ensures Schedule(g, c, history, damping) && |history| == completed + 1
    ensures history[completed] == Messages(toFactor[..], toVariable[..])
    ensures AllFitting(g, history) && residual.value == Residual(g, c, history[completed - 1], history[completed])
    ensures !acyclic ==> forall i: nat {:trigger history[i]} ::
                0 < i < completed ==> !Steady(g, c, history[i - 1], history[i], c.tolerance)
    ensures residual.value <= c.tolerance <==> Steady(g, c, history[completed - 1], history[completed], c.tolerance)
    ensures !acyclic && completed < limit ==> residual.value <= c.tolerance
  {
    hide Compiled, Forest, Passed, ReadyAfter, Positive, Schedule, Pass, Residual, Steady, Fitting, ValidConfig;
    completed, residual, history := 0, None, [Messages(toFactor[..], toVariable[..])];
    ScheduleStart(g, c, history, damping);
    ReadyAtStart(g, c, toFactor[..], toVariable[..]);
    for iteration := 0 to limit
      invariant completed == iteration == |history| - 1
      invariant Schedule(g, c, history, damping) && AllFitting(g, history)
      invariant history[iteration] == Messages(toFactor[..], toVariable[..])
      invariant iteration > 0 ==>
                  && residual == Some(Residual(g, c, history[iteration - 1], history[iteration]))
                  && (residual.value <= c.tolerance <==>
                       Steady(g, c, history[iteration - 1], history[iteration], c.tolerance))
      invariant !acyclic ==> forall i: nat {:trigger history[i]} ::
                    0 < i <= iteration ==> !Steady(g, c, history[i - 1], history[i], c.tolerance)
      invariant Positive(toFactor[..]) && Positive(toVariable[..])
      invariant acyclic ==> ReadyAfter(g, c, toFactor[..], toVariable[..], iteration)
    {
      ghost var before := Messages(toFactor[..], toVariable[..]);
      var change, more := IterateOnce(g, c, damping, toFactor, toVariable, next);
      ghost var after := Messages(toFactor[..], toVariable[..]);
      residual := Some(Larger(change, more));
      completed := iteration + 1;
      ScheduleStep(g, c, history, after, damping);
      history := history + [after];
      if acyclic { ReadyStep(g, c, before, after, iteration); }
      if !acyclic && residual.value <= c.tolerance {
        break;
      }
    }
  }

  ghost predicate AllFitting(g: FactorGraph, history: seq<Messages>) {
    forall i: nat {:trigger history[i]} :: i < |history| ==> Fitting(g, history[i])
  }

  lemma {:induction false} ScheduleStart(g: FactorGraph, c: SumProductConfig, history: seq<Messages>, damping: real)
    requires Compiled(g) && history == [Messages(Ones(g.messageLength), Ones(g.messageLength))]
    ensures Schedule(g, c, history, damping) && AllFitting(g, history)
    ensures Positive(history[0].toFactor) && Positive(history[0].toVariable)
  {}

  /** One iteration: all messages to variables, then all messages to factors. */
  method IterateOnce(
    g: FactorGraph, c: SumProductConfig, damping: real,
    toFactor: array<real>, toVariable: array<real>, next: array<real>)
    returns (change: real, more: real)
    requires Compiled(g) && ValidConfig(c) && toFactor != toVariable && toFactor != next && toVariable != next
    requires toFactor.Length == toVariable.Length == next.Length == g.messageLength
    requires Positive(toFactor[..]) && Positive(toVariable[..]) && 0.0 <= damping < 1.0
    modifies toFactor, toVariable, next
    ensures Positive(toFactor[..]) && Positive(toVariable[..])
    ensures var before, after := old(Messages(toFactor[..], toVariable[..])), Messages(toFactor[..], toVariable[..]);
            && Fitting(g, before) && Fitting(g, after) && Pass(g, c, before, after, damping)
            && Larger(change, more) == Residual(g, c, before, after)
            && (Larger(change, more) <= c.tolerance <==> Steady(g, c, before, after, c.tolerance))
  {
    hide Compiled, Passed, Positive, PassChange, Steady, Larger;
    ghost var before := Messages(toFactor[..], toVariable[..]);
    var ok;
    ok, change := FactorPass(g, c, toFactor, toVariable, next, damping);
    ok, more := VariablePass(g, c, toFactor, toVariable, next, damping);
    ResidualWithin(g, c, before, Messages(toFactor[..], toVariable[..]), c.tolerance);
  }

  /** What a solved batch holds, whatever its graph: the beliefs after a run of that many damped passes. An observation
      no factor names keeps its priors. */
  ghost predicate Solved(
    g: FactorGraph, c: SumProductConfig, domains: seq<nat>, history: seq<Messages>, p: BatchPosterior)
    requires Compiled(g) && |domains| == |g.cardinalities|
  {
    && Schedule(g, c, history, p.damping) && |history| == p.iterations + 1 && |p.marginals| == |domains|
    && forall v: nat {:trigger p.marginals[v]} :: v < |domains| ==>
         && IsBelief(g, c, v, history[p.iterations].toVariable, p.marginals[v])
         && Distribution(domains[v] + 2, p.marginals[v])
         && (Unnamed(g.factors, v) ==> KeepsPriors(c, domains[v], p.marginals[v]))
  }

  /** When the passes of a graph with a cycle stop: at the first iteration that recomputes no message further than the
      tolerance from the one before, or at the limit. */
  ghost predicate StopsWhenSteady(
    g: FactorGraph, c: SumProductConfig, history: seq<Messages>, p: BatchPosterior)
    requires Compiled(g)
  {
    && 0 < p.iterations <= c.maxIterations && |history| == p.iterations + 1 && AllFitting(g, history)
    && (forall i: nat {:trigger history[i]} ::
          0 < i < p.iterations ==> !Steady(g, c, history[i - 1], history[i], c.tolerance))
    && (p.stoppingReason == Converged <==>
         Steady(g, c, history[p.iterations - 1], history[p.iterations], c.tolerance))
    && (p.stoppingReason == IterationLimit ==> p.iterations == c.maxIterations)
  }

  /** On a forest every marginal is the exact posterior, if its component has no more edges than passes can be
      counted. */
  ghost predicate SolvedExactly(g: FactorGraph, c: SumProductConfig, domains: seq<nat>, p: BatchPosterior)
    requires Compiled(g) && ValidTables(g.factors) && |p.marginals| == |domains| == |g.cardinalities|
  {
    forall v: nat {:trigger p.marginals[v]} :: v < |domains| && EdgeCount(g, v) <= 0xFFFF_FFFF ==>
      IsMarginal(g, c, v, p.marginals[v]) && IsPosterior(c, domains, g.factors, v, p.marginals[v])
  }

  /** What a solved batch promises: on a forest exactness after the topology's passes, undamped; elsewhere the stopping
      rule under the configured damping. */
  ghost predicate Promises(
    g: FactorGraph, c: SumProductConfig, domains: seq<nat>, history: seq<Messages>, p: BatchPosterior)
    requires Compiled(g) && ValidTables(g.factors) && |domains| == |g.cardinalities|
  {
    && Solved(g, c, domains, history, p) && AllFitting(g, history) && 0 < p.iterations
    && (p.stoppingReason == ExactTree <==> Forest(Links(g)))
    && (Forest(Links(g)) ==>
          && SolvedExactly(g, c, domains, p) && PassBound(g, p.iterations) && p.iterations <= 0xFFFF_FFFF
          && p.damping == 0.0)
    && (!Forest(Links(g)) ==> StopsWhenSteady(g, c, history, p) && p.damping == c.damping)
    && p.residual.Some?
    && (p.residual.value <= c.tolerance <==>
          Steady(g, c, history[p.iterations - 1], history[p.iterations], c.tolerance))
  }

  /** Solves a batch: compiles it, runs the passes, and collects the marginals. On a forest they are exact for every
      variable whose component has no more edges than passes can be counted. */
  method Solve(c: SumProductConfig, domains: seq<nat>, factors: seq<FactorTable>)
    returns (r: Result<BatchPosterior, SolverError>, ghost g: FactorGraph, ghost history: seq<Messages>)
    requires ValidConfig(c) && ValidTables(factors)
    ensures r.Ok? <==> Fits(Cardinalities(domains), factors)
    ensures r.Err? ==> exists f: nat, p: nat ::
                && f < |factors| && p < |factors[f].variables|
                && FitsUpTo(Cardinalities(domains), factors, f, p)
                && Refusal(Cardinalities(domains), factors, f, p) == Some(r.error)
    ensures r.Ok? ==> Compiled(g) && g.cardinalities == Cardinalities(domains) && g.factors == factors
    ensures r.Ok? ==> Promises(g, c, domains, history, r.value)
  {
    hide Compiled, ValidTables, Fits, Promises, ValidConfig;
    history := [];
    var compiled := Compile(domains, factors);
    if compiled.Err? {
      g := FactorGraph([], [], [], [], [], [], 0);
      return Err(compiled.error), g, history;
    }
    g := compiled.value;
    var posterior;
    posterior, history := SolveCompiled(c, domains, compiled.value);
    r := Ok(posterior);
  }

  method SolveCompiled(c: SumProductConfig, domains: seq<nat>, graph: FactorGraph)
    returns (posterior: BatchPosterior, ghost history: seq<Messages>)
    requires Compiled(graph) && ValidConfig(c) && ValidTables(graph.factors)
    requires graph.cardinalities == Cardinalities(domains)
    ensures Promises(graph, c, domains, history, posterior)
  {
    hide Compiled, ValidTables, Forest, PassBound, ReadyAfter, Solved, SolvedExactly, Schedule, Steady, Positive,
         StopsWhenSteady, AllFitting, Residual, Fitting;
    ListCounts(graph);
    var acyclic, passes := FindTopology(graph);
    PassesPositive(graph, passes);
    var limit := if acyclic then Max(passes, 1) else c.maxIterations;
    var damping := if acyclic then 0.0 else c.damping;
    var toFactor := new real[graph.messageLength](_ => 1.0);
    var toVariable := new real[graph.messageLength](_ => 1.0);
    var next := new real[graph.messageLength](_ => 1.0);
    assert toFactor[..] == toVariable[..] == Ones(graph.messageLength);
    var completed, residual;
    completed, residual, history := Iterate(graph, c, acyclic, limit, damping, toFactor, toVariable, next);
    var stopping := if acyclic then ExactTree else if residual.value <= c.tolerance then Converged else IterationLimit;
    var marginals := Collect(graph, c, toVariable);
    posterior := BatchPosterior(marginals, completed, residual, damping, stopping);
    CollectedSolved(graph, c, domains, history, toVariable[..], posterior);
    LoopStops(graph, c, acyclic, history, posterior);
    if acyclic { CollectedExactly(graph, c, domains, toFactor[..], toVariable[..], passes, posterior); }
  }

  lemma {:induction false} LoopStops(
    g: FactorGraph, c: SumProductConfig, acyclic: bool, history: seq<Messages>, p: BatchPosterior)
    requires Compiled(g) && 0 < p.iterations && |history| == p.iterations + 1 && AllFitting(g, history)
    requires !acyclic ==>
               && p.iterations <= c.maxIterations
               && (forall i: nat {:trigger history[i]} ::
                     0 < i < p.iterations ==> !Steady(g, c, history[i - 1], history[i], c.tolerance))
               && p.residual.Some?
               && (p.residual.value <= c.tolerance <==>
                     Steady(g, c, history[p.iterations - 1], history[p.iterations], c.tolerance))
               && (p.iterations < c.maxIterations ==> p.residual.value <= c.tolerance)
               && p.stoppingReason == if p.residual.value <= c.tolerance then Converged else IterationLimit
    ensures !acyclic ==> StopsWhenSteady(g, c, history, p)
  {
    hide Compiled, Steady;
  }

  lemma {:induction false} CollectedSolved(
    g: FactorGraph, c: SumProductConfig, domains: seq<nat>, history: seq<Messages>, toVariable: seq<real>,
    p: BatchPosterior)
    requires Compiled(g) && ValidConfig(c) && g.cardinalities == Cardinalities(domains)
    requires |g.cardinalities| == |g.variableEdges| == |p.marginals| && Positive(toVariable)
    requires Schedule(g, c, history, p.damping) && |history| == p.iterations + 1
    requires history[p.iterations].toVariable == toVariable
    requires forall v: nat {:trigger p.marginals[v]} :: v < |p.marginals| ==>
               IsBelief(g, c, v, toVariable, p.marginals[v])
    ensures Solved(g, c, domains, history, p)
  {
    hide Compiled, ValidConfig, Schedule, Distribution, Unnamed, KeepsPriors, Positive;
    forall v: nat | v < |domains|
      ensures Distribution(domains[v] + 2, p.marginals[v])
      ensures Unnamed(g.factors, v) ==> KeepsPriors(c, domains[v], p.marginals[v])
    {
      BeliefIsDistribution(g, c, v, toVariable, p.marginals[v]);
      if Unnamed(g.factors, v) { UnnamedKeepsPriors(g, c, domains, v, toVariable); }
    }
  }

  lemma {:induction false} CollectedExactly(
    g: FactorGraph, c: SumProductConfig, domains: seq<nat>, toFactor: seq<real>, toVariable: seq<real>, passes: nat,
    p: BatchPosterior)
    requires Compiled(g) && ValidConfig(c) && Forest(Links(g)) && g.cardinalities == Cardinalities(domains)
    requires |g.cardinalities| == |g.variableEdges| == |p.marginals| && Positive(toVariable)
    requires passes > 0 && PassBound(g, passes) && ReadyAfter(g, c, toFactor, toVariable, passes)
    requires forall v: nat {:trigger p.marginals[v]} :: v < |p.marginals| ==>
               IsBelief(g, c, v, toVariable, p.marginals[v])
    ensures ValidTables(g.factors) && SolvedExactly(g, c, domains, p)
  {
    hide Compiled, ValidConfig, Forest, PassBound, ReadyAfter, IsBelief, EdgeCount, IsMarginal, IsPosterior,
         ValidTables, Positive;
    CompiledTables(g);
    forall v: nat | v < |domains| && EdgeCount(g, v) <= 0xFFFF_FFFF
      ensures IsMarginal(g, c, v, p.marginals[v]) && IsPosterior(c, domains, g.factors, v, p.marginals[v])
    {
      AfterPassesMarginal(g, c, toFactor, toVariable, passes, v, p.marginals[v]);
      MarginalIsPosterior(g, c, domains, v, p.marginals[v]);
    }
  }

  function Max(x: nat, y: nat): nat { if x >= y then x else y }

  /** A distribution over a variable's values: all positive, summing to one. */
  ghost predicate Distribution(cardinality: nat, m: seq<real>) { |m| == cardinality && Positive(m) && Total(m) == 1.0 }

  lemma {:induction false} PassesPositive(g: FactorGraph, passes: nat)
    requires PassBound(g, passes)
    ensures 1 <= passes <= 0xFFFF_FFFF
  {}

  lemma {:induction false} BeliefIsDistribution(
    g: FactorGraph, c: SumProductConfig, v: nat, toVariable: seq<real>, m: seq<real>)
    requires Compiled(g) && ValidConfig(c) && Positive(toVariable) && v < |g.cardinalities| == |g.variableEdges|
    requires IsBelief(g, c, v, toVariable, m)
    ensures Distribution(g.cardinalities[v], m)
  {
    BeliefPositive(g, c, v, |g.edges|, toVariable);
    AtLeastTwo(g, v);
    NormalisedPositive(BeliefMessage(g, c, v, |g.edges|, toVariable));
    NormalisedSumsToOne(BeliefMessage(g, c, v, |g.edges|, toVariable));
  }

  lemma {:induction false} AfterPassesMarginal(
    g: FactorGraph, c: SumProductConfig, toFactor: seq<real>, toVariable: seq<real>, passes: nat, v: nat, m: seq<real>)
    requires Compiled(g) && ValidConfig(c) && Forest(Links(g)) && Positive(toVariable)
    requires passes > 0 && PassBound(g, passes) && v < |g.cardinalities| && EdgeCount(g, v) <= MAX_PASSES
    requires ReadyAfter(g, c, toFactor, toVariable, passes)
    requires |g.cardinalities| == |g.variableEdges| && IsBelief(g, c, v, toVariable, m)
    ensures IsMarginal(g, c, v, m)
  {
    hide Compiled, Forest, IsMarginal, PassBound, ToFactorReady, ToVariableReady;
    PassesReach(g, v, passes);
    BeliefIsMarginal(g, c, toVariable, passes, v);
  }
}
