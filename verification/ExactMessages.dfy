/** Each pass carries exactness one step further: messages become proportional to exact sums. */
module ExactMessages {
  import opened Connectivity
  import opened Forests
  import opened Sums
  import opened Sorting
  import opened FactorGraphs
  import opened Topology
  import opened SumProduct
  import opened JointSums
  import opened Exactness

  /** `m` is `k` times the sum over `p`, as a function of the value of `v`. */
  ghost predicate ProportionalBy(g: FactorGraph, c: SumProductConfig, m: seq<real>, v: nat, p: Part, k: real)
    requires Compiled(g)
  {
    && k > 0.0
    && forall a {:trigger PartZ(g, c, p, a)} :: At(a, v) < |m| ==> m[At(a, v)] == k * PartZ(g, c, p, a)
  }

  ghost predicate Exact(g: FactorGraph, c: SumProductConfig, m: seq<real>, v: nat, p: Part)
    requires Compiled(g)
  {
    exists k :: ProportionalBy(g, c, m, v, p, k)
  }

  ghost function Scale(g: FactorGraph, c: SumProductConfig, m: seq<real>, v: nat, p: Part): (k: real)
    requires Compiled(g)
    ensures k > 0.0
    ensures Exact(g, c, m, v, p) ==> ProportionalBy(g, c, m, v, p, k)
  {
    if Exact(g, c, m, v, p) then
      var k :| ProportionalBy(g, c, m, v, p, k);
      k
    else 1.0
  }

  /** A message keeps being exact when it is divided by a positive number. */
  lemma {:induction false} ExactScaled(
    g: FactorGraph, c: SumProductConfig, m: seq<real>, scaled: seq<real>, v: nat, p: Part, by_: real)
    requires Compiled(g) && Exact(g, c, m, v, p) && by_ > 0.0
    requires |scaled| == |m| && forall s :: 0 <= s < |m| ==> scaled[s] == m[s] / by_
    ensures Exact(g, c, scaled, v, p)
  {
    var k :| ProportionalBy(g, c, m, v, p, k);
    SumProduct.Quotient(k, by_);
    forall a | At(a, v) < |scaled| ensures scaled[At(a, v)] == (k / by_) * PartZ(g, c, p, a) {
      DivideProduct(k, PartZ(g, c, p, a), by_);
    }
    assert ProportionalBy(g, c, scaled, v, p, k / by_);
  }

  lemma {:induction false} DivideProduct(x: real, y: real, z: real)
    requires z != 0.0
    ensures (x * y) / z == (x / z) * y
  {
    var q := x / z;
    assert x == q * z;
    assert (q * y) * z == x * y;
  }

  /** Without damping, updating a message only rescales it. */
  lemma {:induction false} UndampedIsExact(
    g: FactorGraph, c: SumProductConfig, raw: seq<real>, current: seq<real>, v: nat, p: Part)
    requires Compiled(g) && Exact(g, c, raw, v, p) && |raw| == |current| > 0 && Positive(raw)
    ensures Exact(g, c, Updated(raw, current, 0.0), v, p)
  {
    NormalisedPositive(raw);
    var normal := Normalised(raw);
    var mixed := Mixed(normal, current, 0.0);
    forall s | 0 <= s < |mixed| ensures mixed[s] == normal[s] { MixNothing(current[s], normal[s]); }
    assert mixed == normal;
    NormalisedPositive(normal);
    ExactScaled(g, c, raw, normal, v, p, Total(raw));
    ExactScaled(g, c, normal, Normalised(normal), v, p, Total(normal));
  }

  lemma {:induction false} MixNothing(x: real, y: real)
    ensures Mix(0.0, x, y) == y
  {}

  // ----- products of messages -----

  lemma {:induction false} OthersScaled(
    list: seq<nat>, skip: nat, term: nat -> real, scale: nat -> real, z: nat -> real)
    requires forall d :: d in list && d != skip ==> term(d) == scale(d) * z(d)
    ensures Others(list, skip, term) == Others(list, skip, scale) * Others(list, skip, z)
  {
    if list != [] {
      var shorter, last := list[..|list| - 1], list[|list| - 1];
      assert last in list;
      OthersScaled(shorter, skip, term, scale, z);
      if last != skip {
        Interleave(Others(shorter, skip, scale), Others(shorter, skip, z), scale(last), z(last));
      }
    }
  }

  lemma {:induction false} Interleave(x: real, y: real, p: real, q: real)
    ensures (x * y) * (p * q) == (x * p) * (y * q)
  {
    assert (x * y) * (p * q) == x * (y * (p * q));
    assert y * (p * q) == p * (y * q);
    assert (x * p) * (y * q) == x * (p * (y * q));
  }

  lemma {:induction false} OthersSame(list: seq<nat>, skip: nat, f: nat -> real, h: nat -> real)
    requires forall d :: d in list && d != skip ==> f(d) == h(d)
    ensures Others(list, skip, f) == Others(list, skip, h)
  {
    if list != [] {
      assert list[|list| - 1] in list;
      OthersSame(list[..|list| - 1], skip, f, h);
    }
  }

  lemma {:induction false} ReadsMessage(g: FactorGraph, buffer: seq<real>, d: nat, s: nat)
    requires Compiled(g) && d < |g.edges| && |buffer| == g.messageLength && s < g.edges[d].cardinality
    ensures MessageAt(g, buffer, d, s) == Range(g, buffer, d)[s]
  {
    RangesDisjoint(g, d, d);
  }

  // ----- from factors through a variable -----

  ghost predicate ExactToVariable(g: FactorGraph, c: SumProductConfig, buffer: seq<real>, d: nat)
    requires Compiled(g) && |buffer| == g.messageLength && d < |g.edges|
  {
    Exact(g, c, Range(g, buffer, d), VariableOf(g, d), FactorPart(g, d))
  }

  ghost predicate ExactToFactor(g: FactorGraph, c: SumProductConfig, buffer: seq<real>, d: nat)
    requires Compiled(g) && |buffer| == g.messageLength && d < |g.edges|
  {
    Exact(g, c, Range(g, buffer, d), VariableOf(g, d), VariablePart(g, d))
  }

  ghost function ToVariableScale(g: FactorGraph, c: SumProductConfig, buffer: seq<real>, d: nat): (k: real)
    requires Compiled(g) && |buffer| == g.messageLength
    ensures k > 0.0
  {
    if d < |g.edges| then Scale(g, c, Range(g, buffer, d), VariableOf(g, d), FactorPart(g, d)) else 1.0
  }

  ghost function ToFactorScale(g: FactorGraph, c: SumProductConfig, buffer: seq<real>, d: nat): (k: real)
    requires Compiled(g) && |buffer| == g.messageLength
    ensures k > 0.0
  {
    if d < |g.edges| then Scale(g, c, Range(g, buffer, d), VariableOf(g, d), VariablePart(g, d)) else 1.0
  }

  lemma {:induction false} ScaledToVariable(
    g: FactorGraph, c: SumProductConfig, buffer: seq<real>, d: nat, a: Assignment)
    requires Compiled(g) && |buffer| == g.messageLength && d < |g.edges| && ExactToVariable(g, c, buffer, d)
    requires At(a, VariableOf(g, d)) < g.edges[d].cardinality
    ensures MessageAt(g, buffer, d, At(a, VariableOf(g, d))) ==
              ToVariableScale(g, c, buffer, d) * PartZ(g, c, FactorPart(g, d), a)
  {
    hide Compiled, PartZ, FactorPart;
    ReadsMessage(g, buffer, d, At(a, VariableOf(g, d)));
    var m := Range(g, buffer, d);
    var k := Scale(g, c, m, VariableOf(g, d), FactorPart(g, d));
    assert ProportionalBy(g, c, m, VariableOf(g, d), FactorPart(g, d), k);
  }

  lemma {:induction false} ScaledToFactor(g: FactorGraph, c: SumProductConfig, buffer: seq<real>, d: nat, a: Assignment)
    requires Compiled(g) && |buffer| == g.messageLength && d < |g.edges| && ExactToFactor(g, c, buffer, d)
    requires At(a, VariableOf(g, d)) < g.edges[d].cardinality
    ensures MessageAt(g, buffer, d, At(a, VariableOf(g, d))) ==
              ToFactorScale(g, c, buffer, d) * PartZ(g, c, VariablePart(g, d), a)
  {
    hide Compiled, PartZ, VariablePart;
    ReadsMessage(g, buffer, d, At(a, VariableOf(g, d)));
    var m := Range(g, buffer, d);
    var k := Scale(g, c, m, VariableOf(g, d), VariablePart(g, d));
    assert ProportionalBy(g, c, m, VariableOf(g, d), VariablePart(g, d), k);
  }

  ghost function WithVariable(g: FactorGraph, v: nat, skip: nat): Part
    requires v < |g.variableEdges|
  {
    Part(AroundVariable(g, v, skip).over, {v} + AroundVariable(g, v, skip).nodes)
  }

  ghost predicate ExactAroundVariable(g: FactorGraph, c: SumProductConfig, v: nat, skip: nat, buffer: seq<real>)
    requires Compiled(g) && |buffer| == g.messageLength && v < |g.variableEdges|
  {
    forall d: nat {:trigger ExactToVariable(g, c, buffer, d)} ::
      d in g.variableEdges[v] && d != skip && d < |g.edges| ==> ExactToVariable(g, c, buffer, d)
  }

  /** A belief built from exact messages is exact for everything behind the variable. */
  lemma {:induction false} BeliefExact(
    g: FactorGraph, c: SumProductConfig, v: nat, skip: nat, b: nat, toVariable: seq<real>)
    requires Compiled(g) && ValidConfig(c) && Forest(Links(g)) && |toVariable| == g.messageLength
    requires v < |g.cardinalities| == |g.variableEdges| && SkipsVariableEdge(g, v, skip, b)
    requires ExactAroundVariable(g, c, v, skip, toVariable)
    ensures Exact(g, c, BeliefMessage(g, c, v, skip, toVariable), v, WithVariable(g, v, skip))
  {
    hide Compiled, Links, Forest, SkipsVariableEdge, ExactAroundVariable, Belief, PartZ, Others, WithVariable;
    var list := g.variableEdges[v];
    var scale := (d: nat) => ToVariableScale(g, c, toVariable, d);
    var k := Others(list, skip, scale);
    OthersPositive(list, skip, scale);
    var message := BeliefMessage(g, c, v, skip, toVariable);
    forall a | At(a, v) < |message| ensures message[At(a, v)] == k * PartZ(g, c, WithVariable(g, v, skip), a) {
      BeliefAtAssignment(g, c, v, skip, b, toVariable, a, k);
    }
    assert ProportionalBy(g, c, message, v, WithVariable(g, v, skip), k);
  }

  lemma {:induction false} BeliefAtAssignment(
    g: FactorGraph, c: SumProductConfig, v: nat, skip: nat, b: nat, toVariable: seq<real>, a: Assignment, k: real)
    requires Compiled(g) && Forest(Links(g)) && |toVariable| == g.messageLength
    requires v < |g.cardinalities| == |g.variableEdges| && SkipsVariableEdge(g, v, skip, b)
    requires ExactAroundVariable(g, c, v, skip, toVariable) && At(a, v) < g.cardinalities[v]
    requires k == Others(g.variableEdges[v], skip, (d: nat) => ToVariableScale(g, c, toVariable, d))
    ensures Belief(g, c, v, skip, toVariable, At(a, v)) == k * PartZ(g, c, WithVariable(g, v, skip), a)
  {
    hide Compiled, Forest, SkipsVariableEdge, ExactAroundVariable, PartZ, Others, ToVariableScale;
    var s, around := At(a, v), AroundVariable(g, v, skip);
    ProductAroundVariable(g, c, v, skip, toVariable, a);
    AroundVariableMultiplies(g, c, v, skip, a);
    VariableMultiplies(g, c, v, skip, b, a);
    var prior, rest := Prior(c, g.cardinalities[v], s), PartZ(g, c, around, a);
    assert Belief(g, c, v, skip, toVariable, s) == prior * (k * rest);
    Reorder(prior, k, rest);
  }

  lemma {:induction false} Reorder(x: real, y: real, z: real)
    ensures x * (y * z) == y * (x * z)
  {}

  lemma {:induction false} VariableMultiplies(
    g: FactorGraph, c: SumProductConfig, v: nat, skip: nat, b: nat, a: Assignment)
    requires Compiled(g) && Forest(Links(g))
    requires v < |g.cardinalities| == |g.variableEdges| && SkipsVariableEdge(g, v, skip, b)
    ensures PartZ(g, c, WithVariable(g, v, skip), a) ==
            Prior(c, g.cardinalities[v], At(a, v)) * PartZ(g, c, AroundVariable(g, v, skip), a)
  {
    hide Forest, SkipsVariableEdge;
    var around := AroundVariable(g, v, skip);
    BehindVariable(g, v, skip, b);
    ApartFromVariable(g, v, around);
    ZWithNode(g, c, around.over, around.nodes, v, a);
  }

  lemma {:induction false} ApartFromVariable(g: FactorGraph, v: nat, around: Part)
    requires v < |g.cardinalities| && v !in around.nodes && around.over <= around.nodes
    ensures Apart(g, {v}, around.over)
  {}

  lemma {:induction false} ProductAroundVariable(
    g: FactorGraph, c: SumProductConfig, v: nat, skip: nat, toVariable: seq<real>, a: Assignment)
    requires Compiled(g) && |toVariable| == g.messageLength
    requires v < |g.cardinalities| == |g.variableEdges| && At(a, v) < g.cardinalities[v]
    requires ExactAroundVariable(g, c, v, skip, toVariable)
    ensures Others(g.variableEdges[v], skip, (d: nat) => MessageAt(g, toVariable, d, At(a, v))) ==
            Others(g.variableEdges[v], skip, (d: nat) => ToVariableScale(g, c, toVariable, d))
              * Others(g.variableEdges[v], skip, (d: nat) => PartZ(g, c, FactorParts(g)(d), a))
  {
    hide Compiled, PartZ, FactorPart, MessageAt, ToVariableScale;
    var list := g.variableEdges[v];
    var term := (d: nat) => MessageAt(g, toVariable, d, At(a, v));
    var scale := (d: nat) => ToVariableScale(g, c, toVariable, d);
    var z := (d: nat) => PartZ(g, c, FactorParts(g)(d), a);
    forall d: nat | d in list && d != skip ensures term(d) == scale(d) * z(d) {
      VariableList(g, v, d);
      EdgeNamed(g, d);
      assert VariableOf(g, d) == v && ExactToVariable(g, c, toVariable, d);
      ScaledToVariable(g, c, toVariable, d, a);
      assert FactorParts(g)(d) == FactorPart(g, d);
    }
    OthersScaled(list, skip, term, scale, z);
  }

  lemma {:induction false} AroundVariableMultiplies(
    g: FactorGraph, c: SumProductConfig, v: nat, skip: nat, a: Assignment)
    requires Compiled(g) && Forest(Links(g)) && v < |g.cardinalities| == |g.variableEdges|
    ensures Others(g.variableEdges[v], skip, (d: nat) => PartZ(g, c, FactorParts(g)(d), a)) ==
            PartZ(g, c, AroundVariable(g, v, skip), a)
  {
    var list := g.variableEdges[v];
    PositionsExact(VariableKeys(g.edges), v);
    forall i, j | 0 <= i < j < |list| && list[i] != skip && list[j] != skip
      ensures Separate(g, FactorParts(g)(list[i]), FactorParts(g)(list[j]))
    {
      FactorPartsSeparate(g, v, list[i], list[j]);
    }
    PartsMultiply(g, c, list, skip, FactorParts(g), (d: nat) => PartZ(g, c, FactorParts(g)(d), a), a);
  }
}
