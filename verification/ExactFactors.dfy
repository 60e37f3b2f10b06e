/** The factor-to-variable half of a pass: a table summed against exact messages is an exact sum. */
module ExactFactors {
  import opened Connectivity
  import opened Forests
  import opened Sums
  import opened Sorting
  import opened FactorGraphs
  import opened Topology
  import opened SumProduct
  import opened JointSums
  import opened Exactness
  import opened ExactMessages

  /** The factor number of edge `e`. */
  function FactorIndex(g: FactorGraph, e: nat): nat { if e < |g.edges| then g.edges[e].factor else 0 }

  ghost predicate KnownEdge(g: FactorGraph, e: nat) {
    && Compiled(g) && e < |g.edges|
    && FactorIndex(g, e) < |g.factors| == |g.factorEdges|
    && VariableOf(g, e) < |g.cardinalities|
  }

  lemma {:induction false} EdgeIsKnown(g: FactorGraph, e: nat)
    requires Compiled(g) && e < |g.edges|
    ensures KnownEdge(g, e)
    ensures TableFits(g.factors[FactorIndex(g, e)], g.cardinalities)
    ensures |g.factors[FactorIndex(g, e)].variables| == |g.factors[FactorIndex(g, e)].cardinalities|
    ensures g.edges[e].cardinality == g.cardinalities[VariableOf(g, e)]
  {
    EdgeNamed(g, e);
    var f := FactorIndex(g, e);
    var t := g.factors[f];
    forall p: nat | p < |t.variables|
      ensures t.variables[p] < |g.cardinalities| && g.cardinalities[t.variables[p]] == t.cardinalities[p]
    {
      assert Placed(g.factors, g.edges, f, p);
      EdgeNamed(g, First(g.factors, f) + p);
    }
  }

  /** The variables of edge `e`'s factor other than its own. */
  ghost function OtherVariables(g: FactorGraph, e: nat): set<nat>
    requires KnownEdge(g, e)
  {
    ScopeFrom(g.factors[FactorIndex(g, e)], 0) - {VariableOf(g, e)}
  }

  ghost function Table(g: FactorGraph, e: nat, b: Assignment): real
    requires KnownEdge(g, e)
  {
    EdgeIsKnown(g, e);
    Potential(g.factors[FactorIndex(g, e)], b)
  }

  /** The factor's potential times the other variables' messages, at an assignment. */
  ghost function Integrand(g: FactorGraph, e: nat, toFactor: seq<real>, b: Assignment): real
    requires KnownEdge(g, e)
  {
    Table(g, e, b) * Others(g.factorEdges[FactorIndex(g, e)], e,
        (d: nat) => MessageAt(g, toFactor, d, At(b, VariableOf(g, d))))
  }

  ghost function Gated(g: FactorGraph, e: nat, toFactor: seq<real>, s: nat, b: Assignment): real
    requires KnownEdge(g, e)
  {
    if At(b, VariableOf(g, e)) == s then Integrand(g, e, toFactor, b) else 0.0
  }

  /** The variables of a factor's edges are its scope. */
  lemma {:induction false} ScopeVariables(g: FactorGraph, f: nat, x: nat)
    requires Compiled(g) && f < |g.factors|
    ensures x in ScopeFrom(g.factors[f], 0) <==> exists d: nat :: d in g.factorEdges[f] && VariableOf(g, d) == x
  {
    if x in ScopeFrom(g.factors[f], 0) {
      var p: nat :| p < |g.factors[f].variables| && g.factors[f].variables[p] == x;
      assert Placed(g.factors, g.edges, f, p);
      var d := First(g.factors, f) + p;
      EdgeNamed(g, d);
      FactorList(g, f, d);
      assert d in g.factorEdges[f] && VariableOf(g, d) == x;
    }
    if d: nat :| d in g.factorEdges[f] && VariableOf(g, d) == x {
      FactorList(g, f, d);
      EdgeNamed(g, d);
    }
  }

  // ----- the table loop is a sum over assignments -----

  /** Entry by entry, the table loop reads what an assignment of the scope reads. */
  lemma {:induction false} StateAtAssignment(g: FactorGraph, d: nat, b: Assignment)
    requires KnownEdge(g, d)
    requires InRange(g.factors[FactorIndex(g, d)].cardinalities, Values(g.factors[FactorIndex(g, d)].variables, b))
    ensures StateIn(g, d,
              Index(g.factors[FactorIndex(g, d)].cardinalities, Values(g.factors[FactorIndex(g, d)].variables, b)))
            == At(b, VariableOf(g, d))
  {
    EdgeNamed(g, d);
    var t := g.factors[FactorIndex(g, d)];
    DigitOfIndex(t.cardinalities, Values(t.variables, b), g.edges[d].position);
  }

  lemma {:induction false} ScopeInRange(t: FactorTable, card: seq<nat>, a: Assignment, b: Assignment)
    requires TableFits(t, card) && Within(a, b, ScopeFrom(t, 0), |card|, card)
    ensures InRange(t.cardinalities, Values(t.variables, b))
    ensures TailIndex(t, 0, b) == Index(t.cardinalities, Values(t.variables, b))
  {
    assert t.cardinalities[0..] == t.cardinalities && t.variables[0..] == t.variables;
    forall p: nat | p < |t.variables| ensures Values(t.variables, b)[p] < t.cardinalities[p] {
      assert t.variables[p] in ScopeFrom(t, 0);
    }
  }

  lemma {:induction false} SelectedIsGated(g: FactorGraph, e: nat, toFactor: seq<real>, s: nat, b: Assignment)
    requires KnownEdge(g, e)
    requires |g.factors[FactorIndex(g, e)].variables| == |g.factors[FactorIndex(g, e)].cardinalities|
    requires InRange(g.factors[FactorIndex(g, e)].cardinalities, Values(g.factors[FactorIndex(g, e)].variables, b))
    ensures Selected(g, e, toFactor, s,
              Index(g.factors[FactorIndex(g, e)].cardinalities, Values(g.factors[FactorIndex(g, e)].variables, b)))
            == Gated(g, e, toFactor, s, b)
  {
    hide Compiled, StateIn, MessageAt, InRange;
    var f := FactorIndex(g, e);
    var flat := Index(g.factors[f].cardinalities, Values(g.factors[f].variables, b));
    StateAtAssignment(g, e, b);
    var byEntry := (d: nat) => MessageAt(g, toFactor, d, StateIn(g, d, flat));
    var byValue := (d: nat) => MessageAt(g, toFactor, d, At(b, VariableOf(g, d)));
    forall d: nat | d in g.factorEdges[f] && d != e ensures byEntry(d) == byValue(d) {
      FactorList(g, f, d);
      EdgeIsKnown(g, d);
      assert FactorIndex(g, d) == f;
      StateAtAssignment(g, d, b);
    }
    OthersSame(g.factorEdges[f], e, byEntry, byValue);
  }

  /** The raw message at `s` is the sum of the integrand over the other variables, with `e`'s variable set to `s`. */
  lemma {:induction false} MessageIsSum(g: FactorGraph, e: nat, toFactor: seq<real>, a: Assignment, s: nat)
    requires KnownEdge(g, e) && s < g.edges[e].cardinality
    ensures FactorMessage(g, e, toFactor)[s] ==
            SumOver(OtherVariables(g, e), |g.cardinalities|, g.cardinalities, a[VariableOf(g, e) := s],
                    (b: Assignment) => Integrand(g, e, toFactor, b))
  {
    hide Compiled, SumOver, Gated, Integrand, Selected, ScopeFrom, Within;
    EdgeIsKnown(g, e);
    var n, card, v := |g.cardinalities|, g.cardinalities, VariableOf(g, e);
    var t := g.factors[FactorIndex(g, e)];
    var gated := (b: Assignment) => Gated(g, e, toFactor, s, b);
    var entry := (flat: nat) => Selected(g, e, toFactor, s, flat);
    MessageIsBlock(g, e, toFactor, s);
    TableIsRead(g, e, toFactor, a, s);
    TableTail(t, 0, card, a, 0, entry, gated);
    assert t.cardinalities[0..] == t.cardinalities;
    OwnVariable(g, e);
    var rest := OtherVariables(g, e);
    SumOverPeel(v, rest, n, card, a, gated);
    var slices := (k: nat) => SumOver(rest, n, card, a[v := k], gated);
    forall k: nat | k < card[v] && k != s ensures slices(k) == 0.0 {
      OtherSliceVanishes(g, e, toFactor, a, s, k);
    }
    SumPick(card[v], slices, s);
    OwnSlice(g, e, toFactor, a, s);
  }

  lemma {:induction false} OwnVariable(g: FactorGraph, e: nat)
    requires KnownEdge(g, e)
    ensures ScopeFrom(g.factors[FactorIndex(g, e)], 0) == {VariableOf(g, e)} + OtherVariables(g, e)
    ensures VariableOf(g, e) !in OtherVariables(g, e)
  {
    EdgeNamed(g, e);
  }

  lemma {:induction false} MessageIsBlock(g: FactorGraph, e: nat, toFactor: seq<real>, s: nat)
    requires KnownEdge(g, e) && s < g.edges[e].cardinality
    ensures FactorMessage(g, e, toFactor)[s] ==
            BlockSum(Size(g.factors[FactorIndex(g, e)].cardinalities), (flat: nat) => Selected(g, e, toFactor, s, flat),
                0)
  {
    hide Selected;
    EdgeNamed(g, e);
    var entry := (flat: nat) => Selected(g, e, toFactor, s, flat);
    var size := Size(g.factors[FactorIndex(g, e)].cardinalities);
    SumSame(size, entry, (r: nat) => entry(0 + r));
    assert FactorMessage(g, e, toFactor)[s] == EntrySum(g, e, toFactor, s, size);
  }

  lemma {:induction false} TableIsRead(g: FactorGraph, e: nat, toFactor: seq<real>, a: Assignment, s: nat)
    requires KnownEdge(g, e) && TableFits(g.factors[FactorIndex(g, e)], g.cardinalities)
    ensures ReadsTail(g.factors[FactorIndex(g, e)], 0, g.cardinalities, a, 0,
                      (flat: nat) => Selected(g, e, toFactor, s, flat), (b: Assignment) => Gated(g, e, toFactor, s, b))
  {
    hide Compiled, Gated, Selected, InRange, Within, TailIndex;
    var t := g.factors[FactorIndex(g, e)];
    var gated := (b: Assignment) => Gated(g, e, toFactor, s, b);
    var entry := (flat: nat) => Selected(g, e, toFactor, s, flat);
    forall b {:trigger gated(b)} | Within(a, b, ScopeFrom(t, 0), |g.cardinalities|, g.cardinalities)
      ensures gated(b) == entry(0 + TailIndex(t, 0, b))
    {
      ScopeInRange(t, g.cardinalities, a, b);
      SelectedIsGated(g, e, toFactor, s, b);
    }
  }

  lemma {:induction false} OtherSliceVanishes(
    g: FactorGraph, e: nat, toFactor: seq<real>, a: Assignment, s: nat, k: nat)
    requires KnownEdge(g, e) && k != s
    ensures SumOver(OtherVariables(g, e), |g.cardinalities|, g.cardinalities, a[VariableOf(g, e) := k],
                    (b: Assignment) => Gated(g, e, toFactor, s, b)) == 0.0
  {
    hide Compiled, Integrand;
    var gated := (b: Assignment) => Gated(g, e, toFactor, s, b);
    var v, rest, at := VariableOf(g, e), OtherVariables(g, e), a[VariableOf(g, e) := k];
    forall b | Within(at, b, rest, |g.cardinalities|, g.cardinalities) ensures gated(b) == 0.0 {
      assert At(b, v) == At(at, v) == k;
    }
    SumOverZero(rest, |g.cardinalities|, g.cardinalities, at, gated);
  }

  lemma {:induction false} OwnSlice(g: FactorGraph, e: nat, toFactor: seq<real>, a: Assignment, s: nat)
    requires KnownEdge(g, e)
    ensures SumOver(OtherVariables(g, e), |g.cardinalities|, g.cardinalities, a[VariableOf(g, e) := s],
                    (b: Assignment) => Gated(g, e, toFactor, s, b)) ==
            SumOver(OtherVariables(g, e), |g.cardinalities|, g.cardinalities, a[VariableOf(g, e) := s],
                    (b: Assignment) => Integrand(g, e, toFactor, b))
  {
    hide Compiled, Integrand;
    var gated := (b: Assignment) => Gated(g, e, toFactor, s, b);
    var integrand := (b: Assignment) => Integrand(g, e, toFactor, b);
    var v, rest, at := VariableOf(g, e), OtherVariables(g, e), a[VariableOf(g, e) := s];
    forall b | Within(at, b, rest, |g.cardinalities|, g.cardinalities) ensures gated(b) == integrand(b) {
      assert At(b, v) == At(at, v) == s;
    }
    SumOverSame(rest, |g.cardinalities|, g.cardinalities, at, gated, integrand);
  }

  // ----- the shape of a factor's side -----

  ghost function Around(g: FactorGraph, e: nat): Part
    requires KnownEdge(g, e)
  {
    AroundFactor(g, FactorIndex(g, e), e)
  }

  lemma {:induction false} OwnVariableIsOnItsSide(g: FactorGraph, d: nat)
    requires Compiled(g) && d < |g.edges|
    ensures VariableOf(g, d) in VariableSide(g, d)
  {
    EdgeLinks(g, d);
    BehindRoot(Links(g), VariableOf(g, d), FactorOf(g, d));
  }

  /** No summed variable around a factor is in the factor's own scope. */
  lemma {:induction false} ScopeNotSummed(g: FactorGraph, f: nat, skip: nat, x: nat)
    requires Compiled(g) && Forest(Links(g)) && f < |g.factors| == |g.factorEdges|
    requires x in ScopeFrom(g.factors[f], 0)
    ensures x !in AroundFactor(g, f, skip).over
  {
    hide Compiled, Forest;
    ScopeVariables(g, f, x);
    var e: nat :| e in g.factorEdges[f] && VariableOf(g, e) == x;
    FactorList(g, f, e);
    OwnVariableIsOnItsSide(g, e);
    TogetherMembers(g.factorEdges[f], skip, VariableParts(g), x);
    if x in AroundFactor(g, f, skip).over {
      var d: nat :| d in g.factorEdges[f] && d != skip && x in VariableParts(g)(d).over;
      assert VariableParts(g)(d) == VariablePart(g, d);
      if d != e { VariablePartsSeparate(g, f, d, e); }
    }
  }

  /** The variables on a factor's side are those summed around it and the rest of its scope. */
  lemma {:induction false} SideVariable(g: FactorGraph, e: nat, x: nat)
    requires KnownEdge(g, e) && Forest(Links(g))
    ensures x in Around(g, e).nodes && x < |g.cardinalities| <==> x in OtherVariables(g, e) || x in Around(g, e).over
  {
    hide Compiled, Forest;
    var f := FactorIndex(g, e);
    TogetherMembers(g.factorEdges[f], e, VariableParts(g), x);
    ScopeVariables(g, f, x);
    if x in Around(g, e).nodes && x < |g.cardinalities| {
      var d: nat :| d in g.factorEdges[f] && d != e && x in VariableParts(g)(d).nodes;
      assert VariableParts(g)(d) == VariablePart(g, d);
      FactorList(g, f, d);
      FactorList(g, f, e);
      if x != VariableOf(g, d) {
        assert x in VariableParts(g)(d).over;
      } else {
        EdgesDiffer(g, d, e);
      }
    }
    if x in OtherVariables(g, e) {
      var d: nat :| d in g.factorEdges[f] && VariableOf(g, d) == x;
      FactorList(g, f, d);
      OwnVariableIsOnItsSide(g, d);
      EdgeLinks(g, d);
      assert VariableParts(g)(d) == VariablePart(g, d);
      assert x in VariableParts(g)(d).nodes;
    }
  }

  lemma {:induction false} FactorSideShape(g: FactorGraph, e: nat)
    requires KnownEdge(g, e) && Forest(Links(g))
    ensures var node := FactorOf(g, e);
            && node < Nodes(g) && node !in Around(g, e).nodes
            && FactorSide(g, e) == {node} + Around(g, e).nodes
            && Apart(g, {node}, Around(g, e).over)
    ensures OtherVariables(g, e) !! Around(g, e).over
    ensures Variables(g, FactorSide(g, e)) == OtherVariables(g, e) + Around(g, e).over
  {
    hide Compiled, Forest;
    var f, node := FactorIndex(g, e), FactorOf(g, e);
    EdgeLinks(g, e);
    SkipsOwnFactorEdge(g, e, f);
    BehindFactor(g, f, e, VariableOf(g, e));
    forall x: nat ensures x in ScopeFrom(g.factors[f], 0) ==> x !in Around(g, e).over {
      if x in ScopeFrom(g.factors[f], 0) { ScopeNotSummed(g, f, e, x); }
    }
    forall x: nat | x in Around(g, e).over ensures !Touches(g, node, x) {
      if Touches(g, node, x) { TouchedIsInScope(g, f, x); }
    }
    forall x: nat ensures x in Variables(g, FactorSide(g, e)) <==> x in OtherVariables(g, e) + Around(g, e).over {
      SideVariable(g, e, x);
    }
  }

  lemma {:induction false} TouchedIsInScope(g: FactorGraph, f: nat, x: nat)
    requires f < |g.factors| && Touches(g, |g.cardinalities| + f, x)
    ensures x in ScopeFrom(g.factors[f], 0)
  {}

  // ----- a factor-to-variable message from exact messages -----

  ghost predicate ExactAroundFactor(g: FactorGraph, c: SumProductConfig, e: nat, buffer: seq<real>)
    requires KnownEdge(g, e) && |buffer| == g.messageLength
  {
    forall d: nat {:trigger ExactToFactor(g, c, buffer, d)} ::
      d in g.factorEdges[FactorIndex(g, e)] && d != e && d < |g.edges| ==> ExactToFactor(g, c, buffer, d)
  }

  ghost function ScaleAround(g: FactorGraph, c: SumProductConfig, e: nat, buffer: seq<real>): (k: real)
    requires KnownEdge(g, e) && |buffer| == g.messageLength
    ensures k > 0.0
  {
    var scale := (d: nat) => ToFactorScale(g, c, buffer, d);
    OthersPositive(g.factorEdges[FactorIndex(g, e)], e, scale);
    Others(g.factorEdges[FactorIndex(g, e)], e, scale)
  }

  lemma {:induction false} ProductAroundFactor(
    g: FactorGraph, c: SumProductConfig, e: nat, toFactor: seq<real>, at: Assignment, b: Assignment)
    requires KnownEdge(g, e) && Forest(Links(g)) && |toFactor| == g.messageLength
             && ExactAroundFactor(g, c, e, toFactor)
    requires Within(at, b, OtherVariables(g, e), |g.cardinalities|, g.cardinalities)
    ensures Others(g.factorEdges[FactorIndex(g, e)], e,
              (d: nat) => MessageAt(g, toFactor, d, At(b, VariableOf(g, d)))) ==
            ScaleAround(g, c, e, toFactor) * Others(g.factorEdges[FactorIndex(g, e)], e,
                (d: nat) => PartZ(g, c, VariableParts(g)(d), b))
  {
    hide Compiled, Forest, PartZ, VariablePart, MessageAt, ToFactorScale, Others, Within;
    var list := g.factorEdges[FactorIndex(g, e)];
    var term := (d: nat) => MessageAt(g, toFactor, d, At(b, VariableOf(g, d)));
    var scale := (d: nat) => ToFactorScale(g, c, toFactor, d);
    var z := (d: nat) => PartZ(g, c, VariableParts(g)(d), b);
    forall d: nat | d in list && d != e ensures term(d) == scale(d) * z(d) {
      NeighbourInRange(g, e, d, at, b);
      assert ExactToFactor(g, c, toFactor, d);
      ScaledToFactor(g, c, toFactor, d, b);
      assert VariableParts(g)(d) == VariablePart(g, d);
    }
    OthersScaled(list, e, term, scale, z);
  }

  lemma {:induction false} NeighbourInRange(g: FactorGraph, e: nat, d: nat, at: Assignment, b: Assignment)
    requires KnownEdge(g, e) && d in g.factorEdges[FactorIndex(g, e)] && d != e
    requires Within(at, b, OtherVariables(g, e), |g.cardinalities|, g.cardinalities)
    ensures d < |g.edges| && At(b, VariableOf(g, d)) < g.edges[d].cardinality
  {
    var f := FactorIndex(g, e);
    FactorList(g, f, d);
    FactorList(g, f, e);
    ScopeVariables(g, f, VariableOf(g, d));
    EdgesDiffer(g, d, e);
    EdgeIsKnown(g, d);
  }

  lemma {:induction false} AroundFactorMultiplies(g: FactorGraph, c: SumProductConfig, f: nat, skip: nat, a: Assignment)
    requires Compiled(g) && Forest(Links(g)) && f < |g.factors| == |g.factorEdges|
    ensures Others(g.factorEdges[f], skip, (d: nat) => PartZ(g, c, VariableParts(g)(d), a)) ==
            PartZ(g, c, AroundFactor(g, f, skip), a)
  {
    var list := g.factorEdges[f];
    PositionsExact(FactorKeys(g.edges), f);
    forall i, j | 0 <= i < j < |list| && list[i] != skip && list[j] != skip
      ensures Separate(g, VariableParts(g)(list[i]), VariableParts(g)(list[j]))
    {
      VariablePartsSeparate(g, f, list[i], list[j]);
    }
    PartsMultiply(g, c, list, skip, VariableParts(g), (d: nat) => PartZ(g, c, VariableParts(g)(d), a), a);
  }

  ghost function WithFactor(g: FactorGraph, e: nat): Part
    requires KnownEdge(g, e)
  {
    Part(Around(g, e).over, {FactorOf(g, e)} + Around(g, e).nodes)
  }

  lemma {:induction false} FactorMultiplies(g: FactorGraph, c: SumProductConfig, e: nat, b: Assignment)
    requires KnownEdge(g, e) && Forest(Links(g))
    ensures PartZ(g, c, WithFactor(g, e), b) == Table(g, e, b) * PartZ(g, c, Around(g, e), b)
  {
    FactorSideShape(g, e);
    ZWithNode(g, c, Around(g, e).over, Around(g, e).nodes, FactorOf(g, e), b);
    EdgeLinks(g, e);
    assert Weight(g, c, FactorOf(g, e), b) == Table(g, e, b);
  }

  lemma {:induction false} IntegrandScaled(
    g: FactorGraph, c: SumProductConfig, e: nat, toFactor: seq<real>, at: Assignment, b: Assignment)
    requires KnownEdge(g, e) && Forest(Links(g)) && |toFactor| == g.messageLength
             && ExactAroundFactor(g, c, e, toFactor)
    requires Within(at, b, OtherVariables(g, e), |g.cardinalities|, g.cardinalities)
    ensures Integrand(g, e, toFactor, b) == PartZ(g, c, WithFactor(g, e), b) * ScaleAround(g, c, e, toFactor)
  {
    hide Compiled, Forest, PartZ, Table, MessageAt, ExactAroundFactor, ScaleAround, Within;
    ProductAroundFactor(g, c, e, toFactor, at, b);
    AroundFactorMultiplies(g, c, FactorIndex(g, e), e, b);
    FactorMultiplies(g, c, e, b);
    var x, k, z := Table(g, e, b), ScaleAround(g, c, e, toFactor), PartZ(g, c, Around(g, e), b);
    assert Integrand(g, e, toFactor, b) == x * (k * z);
    Rearrange(x, k, z);
  }

  lemma {:induction false} Rearrange(x: real, k: real, z: real)
    ensures x * (k * z) == (x * z) * k
  {}

  /** A factor message built from exact messages is exact for everything on the factor's side. */
  lemma {:induction false} FactorMessageExact(g: FactorGraph, c: SumProductConfig, e: nat, toFactor: seq<real>)
    requires KnownEdge(g, e) && Forest(Links(g)) && |toFactor| == g.messageLength
             && ExactAroundFactor(g, c, e, toFactor)
    ensures Exact(g, c, FactorMessage(g, e, toFactor), VariableOf(g, e), FactorPart(g, e))
  {
    hide Compiled, Forest, ExactAroundFactor, PartZ, FactorPart, ScaleAround;
    var m, v, p, k := FactorMessage(g, e, toFactor), VariableOf(g, e), FactorPart(g, e), ScaleAround(g, c, e, toFactor);
    forall a | At(a, v) < |m| ensures m[At(a, v)] == k * PartZ(g, c, p, a) {
      FactorMessageAt(g, c, e, toFactor, a, At(a, v));
    }
    assert ProportionalBy(g, c, m, v, p, k);
  }

  lemma {:induction false} FactorMessageAt(
    g: FactorGraph, c: SumProductConfig, e: nat, toFactor: seq<real>, a: Assignment, s: nat)
    requires KnownEdge(g, e) && Forest(Links(g)) && |toFactor| == g.messageLength
             && ExactAroundFactor(g, c, e, toFactor)
    requires s == At(a, VariableOf(g, e)) < g.edges[e].cardinality
    ensures FactorMessage(g, e, toFactor)[s] == ScaleAround(g, c, e, toFactor) * PartZ(g, c, FactorPart(g, e), a)
  {
    hide Compiled, Forest, ExactAroundFactor, Integrand, ScaleAround, FactorMessage, SumOver, Within, Around,
         OtherVariables, FactorSide, NodesWeight;
    var n, card, k := |g.cardinalities|, g.cardinalities, ScaleAround(g, c, e, toFactor);
    var rest, at := OtherVariables(g, e), a[VariableOf(g, e) := s];
    var integrand := (b: Assignment) => Integrand(g, e, toFactor, b);
    var inner := (b: Assignment) => PartZ(g, c, WithFactor(g, e), b);
    var constant := (b: Assignment) => k;
    var scaled := (b: Assignment) => PartZ(g, c, WithFactor(g, e), b) * k;
    MessageIsSum(g, e, toFactor, a, s);
    forall b | Within(at, b, rest, n, card) ensures integrand(b) == scaled(b) {
      IntegrandScaled(g, c, e, toFactor, at, b);
    }
    SumOverSame(rest, n, card, at, integrand, scaled);
    SumOverScale(rest, n, card, at, inner, constant, scaled);
    FactorSideShape(g, e);
    SumOverNest(rest, Around(g, e).over, n, card, at, NodesWeight(g, c, WithFactor(g, e).nodes), inner);
    assert SumOver(rest, n, card, at, inner) == PartZ(g, c, FactorPart(g, e), at);
    ZLike(g, c, FactorPart(g, e).over, FactorPart(g, e).nodes, at, a);
  }
}
