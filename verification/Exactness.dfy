/** On a forest, messages are the exact sums over what lies behind their edge. */
module Exactness {
  import opened Connectivity
  import opened Forests
  import opened Sums
  import opened Sorting
  import opened FactorGraphs
  import opened Topology
  import opened SumProduct
  import opened JointSums

  function VariableOf(g: FactorGraph, e: nat): nat { if e < |g.edges| then g.edges[e].variable else 0 }

  function FactorOf(g: FactorGraph, e: nat): nat { if e < |g.edges| then |g.cardinalities| + g.edges[e].factor else 0 }

  /** The nodes on the factor's side of edge `e`. */
  ghost function FactorSide(g: FactorGraph, e: nat): set<nat> {
    Behind(Links(g), Nodes(g), FactorOf(g, e), VariableOf(g, e))
  }

  /** The nodes on the variable's side of edge `e`. */
  ghost function VariableSide(g: FactorGraph, e: nat): set<nat> {
    Behind(Links(g), Nodes(g), VariableOf(g, e), FactorOf(g, e))
  }

  ghost function Variables(g: FactorGraph, nodes: set<nat>): set<nat> { set v | v in nodes && v < |g.cardinalities| }

  /** What a message to the variable of edge `e` sums over, and the weights it takes in. */
  ghost function FactorPart(g: FactorGraph, e: nat): Part { Part(Variables(g, FactorSide(g, e)), FactorSide(g, e)) }

  /** What a message from the variable of edge `e` sums over, and the weights it takes in. */
  ghost function VariablePart(g: FactorGraph, e: nat): Part {
    Part(Variables(g, VariableSide(g, e)) - {VariableOf(g, e)}, VariableSide(g, e))
  }

  // ----- the shape of the graph around a node -----

  lemma {:induction false} EdgeLinks(g: FactorGraph, e: nat)
    requires Compiled(g) && e < |g.edges|
    ensures (VariableOf(g, e), FactorOf(g, e)) in Links(g)
    ensures VariableOf(g, e) < |g.cardinalities| <= FactorOf(g, e) < Nodes(g)
  {
    EdgeNamed(g, e);
    assert Link(g.edges[e], |g.cardinalities|) in Links(g);
  }

  lemma {:induction false} ListCounts(g: FactorGraph)
    requires Compiled(g)
    ensures |g.variableEdges| == |g.cardinalities| && |g.factorEdges| == |g.factors| == |g.strides|
  {}

  lemma {:induction false} VariableList(g: FactorGraph, v: nat, d: nat)
    requires Compiled(g) && v < |g.cardinalities|
    ensures d in g.variableEdges[v] <==> d < |g.edges| && VariableOf(g, d) == v
  {
    PositionsExact(VariableKeys(g.edges), v);
    assert d in g.variableEdges[v] <==> IsPosition(VariableKeys(g.edges), v, d);
  }

  lemma {:induction false} FactorList(g: FactorGraph, f: nat, d: nat)
    requires Compiled(g) && f < |g.factors|
    ensures d in g.factorEdges[f] <==> d < |g.edges| && FactorOf(g, d) == |g.cardinalities| + f
  {
    PositionsExact(FactorKeys(g.edges), f);
    assert d in g.factorEdges[f] <==> IsPosition(FactorKeys(g.edges), f, d);
  }

  /** A variable's neighbours are the factors of its edges. */
  lemma {:induction false} VariableNeighbours(g: FactorGraph, v: nat, x: nat)
    requires Compiled(g) && v < |g.cardinalities|
    ensures Adjacent(Links(g), x, v) <==> exists d: nat :: d in g.variableEdges[v] && FactorOf(g, d) == x
  {
    if d: nat :| d in g.variableEdges[v] && FactorOf(g, d) == x {
      VariableList(g, v, d);
      EdgeLinks(g, d);
    }
    if (x, v) in Links(g) { LinkKinds(g, |g.edges|, x, v); }
    if (v, x) in Links(g) {
      var d: nat :| d < |g.edges| && (v, x) == Link(g.edges[d], |g.cardinalities|);
      VariableList(g, v, d);
    }
  }

  /** A factor's neighbours are the variables of its edges. */
  lemma {:induction false} FactorNeighbours(g: FactorGraph, f: nat, x: nat)
    requires Compiled(g) && f < |g.factors|
    ensures Adjacent(Links(g), x, |g.cardinalities| + f) <==>
            exists d: nat :: d in g.factorEdges[f] && VariableOf(g, d) == x
  {
    var node := |g.cardinalities| + f;
    if d: nat :| d in g.factorEdges[f] && VariableOf(g, d) == x {
      FactorList(g, f, d);
      EdgeLinks(g, d);
    }
    if (node, x) in Links(g) { LinkKinds(g, |g.edges|, node, x); }
    if (x, node) in Links(g) {
      var d: nat :| d < |g.edges| && (x, node) == Link(g.edges[d], |g.cardinalities|);
      FactorList(g, f, d);
    }
  }

  lemma {:induction false} EdgesDiffer(g: FactorGraph, d: nat, e: nat)
    requires Compiled(g) && d < |g.edges| && e < |g.edges| && d != e
    ensures (VariableOf(g, d), FactorOf(g, d)) != (VariableOf(g, e), FactorOf(g, e))
  {
    if d < e { LinksDistinct(g, d, e); } else { LinksDistinct(g, e, d); }
  }

  /** A factor looks at the variables it is linked to. */
  lemma {:induction false} TouchIsLink(g: FactorGraph, x: nat, v: nat)
    requires Compiled(g) && |g.cardinalities| <= x && Touches(g, x, v)
    ensures Adjacent(Links(g), v, x) && v < |g.cardinalities|
  {
    var f := x - |g.cardinalities|;
    var p :| 0 <= p < |g.factors[f].variables| && g.factors[f].variables[p] == v;
    assert Placed(g.factors, g.edges, f, p);
    var e := First(g.factors, f) + p;
    EdgeNamed(g, e);
    EdgeLinks(g, e);
  }

  // ----- parts around one node are separate -----

  lemma {:induction false} FactorPartsSeparate(g: FactorGraph, v: nat, d: nat, e: nat)
    requires Compiled(g) && Forest(Links(g)) && v < |g.cardinalities|
    requires d in g.variableEdges[v] && e in g.variableEdges[v] && d != e
    ensures Separate(g, FactorPart(g, d), FactorPart(g, e))
  {
    VariableList(g, v, d);
    VariableList(g, v, e);
    EdgesDiffer(g, d, e);
    EdgeLinks(g, d);
    EdgeLinks(g, e);
    forall x: nat ensures !(x in FactorSide(g, d) && x in FactorSide(g, e)) {
      BehindDisjoint(Links(g), v, FactorOf(g, d), FactorOf(g, e), x);
    }
    FactorSidesApart(g, v, d, e);
    FactorSidesApart(g, v, e, d);
  }

  lemma {:induction false} FactorSidesApart(g: FactorGraph, v: nat, d: nat, e: nat)
    requires Compiled(g) && d < |g.edges| && e < |g.edges| && VariableOf(g, d) == VariableOf(g, e) == v
    requires FactorSide(g, d) !! FactorSide(g, e)
    ensures Apart(g, FactorSide(g, d), Variables(g, FactorSide(g, e)))
  {
    EdgeLinks(g, e);
    forall x: nat, w: nat | x in FactorSide(g, d) && w in Variables(g, FactorSide(g, e)) ensures !Touches(g, x, w) {
      if Touches(g, x, w) && |g.cardinalities| <= x {
        TouchIsLink(g, x, w);
        OnlyWayOut(Links(g), FactorOf(g, e), v, w, x);
      }
    }
  }

  lemma {:induction false} VariablePartsSeparate(g: FactorGraph, f: nat, d: nat, e: nat)
    requires Compiled(g) && Forest(Links(g)) && f < |g.factors|
    requires d in g.factorEdges[f] && e in g.factorEdges[f] && d != e
    ensures Separate(g, VariablePart(g, d), VariablePart(g, e))
  {
    FactorList(g, f, d);
    FactorList(g, f, e);
    EdgesDiffer(g, d, e);
    EdgeLinks(g, d);
    EdgeLinks(g, e);
    forall x: nat ensures !(x in VariableSide(g, d) && x in VariableSide(g, e)) {
      BehindDisjoint(Links(g), |g.cardinalities| + f, VariableOf(g, d), VariableOf(g, e), x);
    }
    VariableSidesApart(g, d, e);
    VariableSidesApart(g, e, d);
  }

  lemma {:induction false} VariableSidesApart(g: FactorGraph, d: nat, e: nat)
    requires Compiled(g) && d < |g.edges| && e < |g.edges|
    requires VariableSide(g, d) !! VariableSide(g, e)
    ensures Apart(g, VariableSide(g, d), VariablePart(g, e).over)
  {
    EdgeLinks(g, e);
    forall x: nat, w: nat | x in VariableSide(g, d) && w in VariablePart(g, e).over ensures !Touches(g, x, w) {
      if Touches(g, x, w) && |g.cardinalities| <= x {
        TouchIsLink(g, x, w);
        OnlyWayOut(Links(g), VariableOf(g, e), FactorOf(g, e), w, x);
      }
    }
  }

  // ----- what lies behind a node is the node and its other neighbours' parts -----

  ghost function FactorParts(g: FactorGraph): nat -> Part { (d: nat) => FactorPart(g, d) }

  ghost function VariableParts(g: FactorGraph): nat -> Part { (d: nat) => VariablePart(g, d) }

  ghost function AroundVariable(g: FactorGraph, v: nat, skip: nat): Part
    requires v < |g.variableEdges|
  {
    Together(g.variableEdges[v], skip, FactorParts(g))
  }

  ghost function AroundFactor(g: FactorGraph, f: nat, skip: nat): Part
    requires f < |g.factorEdges|
  {
    Together(g.factorEdges[f], skip, VariableParts(g))
  }

  /** `skip` is the edge between `v` and `b`, or none if `b` is no neighbour. */
  ghost predicate SkipsVariableEdge(g: FactorGraph, v: nat, skip: nat, b: nat)
    requires v < |g.variableEdges|
  {
    forall d: nat {:trigger FactorOf(g, d)} :: d in g.variableEdges[v] ==> (d == skip <==> FactorOf(g, d) == b)
  }

  lemma {:induction false} BehindVariable(g: FactorGraph, v: nat, skip: nat, b: nat)
    requires Compiled(g) && Forest(Links(g)) && v < |g.cardinalities| && SkipsVariableEdge(g, v, skip, b)
    ensures Behind(Links(g), Nodes(g), v, b) == {v} + AroundVariable(g, v, skip).nodes
    ensures v !in AroundVariable(g, v, skip).nodes
    ensures AroundVariable(g, v, skip).over == Variables(g, AroundVariable(g, v, skip).nodes)
  {
    var links, around := Links(g), AroundVariable(g, v, skip);
    forall x: nat | x < Nodes(g)
      ensures IsBehind(links, v, b, x) <==> x == v || x in around.nodes
      ensures x in around.nodes ==> x != v
    {
      BehindVariableNode(g, v, skip, b, x);
    }
    forall x: nat
      ensures x in around.nodes ==> x < Nodes(g)
      ensures x in around.over <==> x in around.nodes && x < |g.cardinalities|
    {
      TogetherMembers(g.variableEdges[v], skip, FactorParts(g), x);
    }
  }

  lemma {:induction false} BehindVariableNode(g: FactorGraph, v: nat, skip: nat, b: nat, x: nat)
    requires Compiled(g) && Forest(Links(g)) && v < |g.cardinalities| && SkipsVariableEdge(g, v, skip, b)
             && x < Nodes(g)
    ensures IsBehind(Links(g), v, b, x) <==> x == v || x in AroundVariable(g, v, skip).nodes
    ensures x in AroundVariable(g, v, skip).nodes ==> x != v
  {
    hide Compiled;
    ListCounts(g);
    TogetherMembers(g.variableEdges[v], skip, FactorParts(g), x);
    BehindRoot(Links(g), v, b);
    if x in AroundVariable(g, v, skip).nodes {
      var d: nat :| d in g.variableEdges[v] && d != skip && x in FactorParts(g)(d).nodes;
      VariableNeighbours(g, v, FactorOf(g, d));
      VariableList(g, v, d);
      assert ReachedThrough(Links(g), v, b, FactorOf(g, d), x);
      NeighbourBehind(Links(g), v, b, FactorOf(g, d), x);
    }
    if IsBehind(Links(g), v, b, x) && x != v {
      VariableBranch(g, v, skip, b, x);
    }
  }

  lemma {:induction false} VariableBranch(g: FactorGraph, v: nat, skip: nat, b: nat, x: nat)
    requires Compiled(g) && Forest(Links(g)) && v < |g.cardinalities| && SkipsVariableEdge(g, v, skip, b)
             && x < Nodes(g)
    requires IsBehind(Links(g), v, b, x) && x != v
    ensures exists d: nat :: d in g.variableEdges[v] && d != skip && x in FactorParts(g)(d).nodes
  {
    hide Compiled;
    ListCounts(g);
    BehindSplits(Links(g), v, b, x);
    var y :| ReachedThrough(Links(g), v, b, y, x);
    VariableNeighbours(g, v, y);
    var d: nat :| d in g.variableEdges[v] && FactorOf(g, d) == y;
    VariableList(g, v, d);
    assert x in FactorParts(g)(d).nodes;
  }

  ghost predicate SkipsFactorEdge(g: FactorGraph, f: nat, skip: nat, b: nat)
    requires f < |g.factorEdges|
  {
    forall d: nat {:trigger VariableOf(g, d)} :: d in g.factorEdges[f] ==> (d == skip <==> VariableOf(g, d) == b)
  }

  lemma {:induction false} BehindFactor(g: FactorGraph, f: nat, skip: nat, b: nat)
    requires Compiled(g) && Forest(Links(g)) && f < |g.factors| && SkipsFactorEdge(g, f, skip, b)
    ensures Behind(Links(g), Nodes(g), |g.cardinalities| + f, b) ==
              {|g.cardinalities| + f} + AroundFactor(g, f, skip).nodes
    ensures |g.cardinalities| + f !in AroundFactor(g, f, skip).nodes
  {
    var links, around, node := Links(g), AroundFactor(g, f, skip), |g.cardinalities| + f;
    forall x: nat | x < Nodes(g)
      ensures IsBehind(links, node, b, x) <==> x == node || x in around.nodes
      ensures x in around.nodes ==> x != node
    {
      BehindFactorNode(g, f, skip, b, x);
    }
    forall x: nat ensures x in around.nodes ==> x < Nodes(g) {
      TogetherMembers(g.factorEdges[f], skip, VariableParts(g), x);
    }
  }

  lemma {:induction false} BehindFactorNode(g: FactorGraph, f: nat, skip: nat, b: nat, x: nat)
    requires Compiled(g) && Forest(Links(g)) && f < |g.factors| && SkipsFactorEdge(g, f, skip, b) && x < Nodes(g)
    ensures IsBehind(Links(g), |g.cardinalities| + f, b, x) <==>
            x == |g.cardinalities| + f || x in AroundFactor(g, f, skip).nodes
    ensures x in AroundFactor(g, f, skip).nodes ==> x != |g.cardinalities| + f
  {
    hide Compiled;
    ListCounts(g);
    var node := |g.cardinalities| + f;
    TogetherMembers(g.factorEdges[f], skip, VariableParts(g), x);
    BehindRoot(Links(g), node, b);
    if x in AroundFactor(g, f, skip).nodes {
      var d: nat :| d in g.factorEdges[f] && d != skip && x in VariableParts(g)(d).nodes;
      FactorNeighbours(g, f, VariableOf(g, d));
      FactorList(g, f, d);
      assert ReachedThrough(Links(g), node, b, VariableOf(g, d), x);
      NeighbourBehind(Links(g), node, b, VariableOf(g, d), x);
    }
    if IsBehind(Links(g), node, b, x) && x != node {
      FactorBranch(g, f, skip, b, x);
    }
  }

  lemma {:induction false} FactorBranch(g: FactorGraph, f: nat, skip: nat, b: nat, x: nat)
    requires Compiled(g) && Forest(Links(g)) && f < |g.factors| && SkipsFactorEdge(g, f, skip, b) && x < Nodes(g)
    requires IsBehind(Links(g), |g.cardinalities| + f, b, x) && x != |g.cardinalities| + f
    ensures exists d: nat :: d in g.factorEdges[f] && d != skip && x in VariableParts(g)(d).nodes
  {
    hide Compiled;
    ListCounts(g);
    var node := |g.cardinalities| + f;
    BehindSplits(Links(g), node, b, x);
    var y :| ReachedThrough(Links(g), node, b, y, x);
    FactorNeighbours(g, f, y);
    var d: nat :| d in g.factorEdges[f] && VariableOf(g, d) == y;
    FactorList(g, f, d);
    assert x in VariableParts(g)(d).nodes;
  }

  lemma {:induction false} SkipsOwnVariableEdge(g: FactorGraph, e: nat)
    requires Compiled(g) && e < |g.edges| && VariableOf(g, e) < |g.variableEdges|
    ensures SkipsVariableEdge(g, VariableOf(g, e), e, FactorOf(g, e))
  {
    EdgeLinks(g, e);
    forall d: nat | d in g.variableEdges[VariableOf(g, e)] ensures d == e <==> FactorOf(g, d) == FactorOf(g, e) {
      VariableList(g, VariableOf(g, e), d);
      if d != e { EdgesDiffer(g, d, e); }
    }
  }

  lemma {:induction false} SkipsOwnFactorEdge(g: FactorGraph, e: nat, f: nat)
    requires Compiled(g) && e < |g.edges| && f < |g.factors| && FactorOf(g, e) == |g.cardinalities| + f
    ensures SkipsFactorEdge(g, f, e, VariableOf(g, e))
  {
    forall d: nat | d in g.factorEdges[f] ensures d == e <==> VariableOf(g, d) == VariableOf(g, e) {
      FactorList(g, f, d);
      if d != e { EdgesDiffer(g, d, e); }
    }
  }
}
