/** Cycle detection and the exact pass bound, by a union-find with path compression. */
module Topology {
  import opened Connectivity
  import opened FactorGraphs
  import opened Forests
  import opened Sorting

  /** The largest pass count the solver can represent. */
  const MAX_PASSES: nat := 0xFFFF_FFFF

  /** The variable-factor link of an edge; factor nodes follow the variable nodes. */
  function Link(edge: Edge, variables: nat): (nat, nat) { (edge.variable, variables + edge.factor) }

  ghost function LinksUpTo(edges: seq<Edge>, variables: nat, k: nat): Edges
    requires k <= |edges|
  {
    set e | 0 <= e < k :: Link(edges[e], variables)
  }

  ghost function Links(g: FactorGraph): Edges { LinksUpTo(g.edges, |g.cardinalities|, |g.edges|) }

  function Nodes(g: FactorGraph): nat { |g.cardinalities| + |g.factors| }

  // ----- the union-find -----

  /** `top` names every node's root; `rank` climbs strictly along parents. */
  ghost predicate NodeRooted(parent: seq<nat>, top: seq<nat>, rank: seq<nat>, bound: nat, x: nat)
    requires x < |parent| == |top| == |rank|
  {
    && parent[x] < |parent| && top[x] < |parent|
    && top[parent[x]] == top[x] == top[top[x]]
    && (parent[x] == x <==> top[x] == x)
    && rank[x] <= bound
    && (parent[x] != x ==> rank[x] < rank[parent[x]])
    && (top[x] != x ==> rank[x] < rank[top[x]])
  }

  ghost predicate Rooted(parent: seq<nat>, top: seq<nat>, rank: seq<nat>, bound: nat) {
    && |parent| == |top| == |rank|
    && forall x: nat {:trigger NodeRooted(parent, top, rank, bound, x)} ::
         x < |parent| ==> NodeRooted(parent, top, rank, bound, x)
  }

  /** Following parents from `x` can only end at `top[x]`: the parents determine the roots. */
  lemma {:induction false} ParentsDetermineRoots(
    parent: seq<nat>, top: seq<nat>, rank: seq<nat>, bound: nat, other: seq<nat>, otherRank: seq<nat>, otherBound: nat,
    x: nat)
    requires Rooted(parent, top, rank, bound) && Rooted(parent, other, otherRank, otherBound) && x < |parent|
    ensures top[x] == other[x]
    decreases bound - rank[x]
  {
    assert NodeRooted(parent, top, rank, bound, x) && NodeRooted(parent, other, otherRank, otherBound, x);
    if parent[x] != x {
      assert NodeRooted(parent, top, rank, bound, parent[x]);
      ParentsDetermineRoots(parent, top, rank, bound, other, otherRank, otherBound, parent[x]);
    }
  }

  lemma {:induction false} Compress(parent: seq<nat>, top: seq<nat>, rank: seq<nat>, bound: nat, x: nat)
    requires Rooted(parent, top, rank, bound) && x < |parent| && parent[x] != x
    ensures top[x] < |parent| && Rooted(parent[x := top[x]], top, rank, bound)
  {
    assert NodeRooted(parent, top, rank, bound, x);
    var next := parent[x := top[x]];
    forall y: nat | y < |next| ensures NodeRooted(next, top, rank, bound, y) {
      assert NodeRooted(parent, top, rank, bound, y);
    }
  }

  /** Returns the root of `node` and hangs the nodes on the way directly below it. No node's root changes. */
  method ComponentRoot(
    parent: array<nat>, start: nat, ghost top: seq<nat>, ghost rank: seq<nat>, ghost bound: nat)
    returns (root: nat)
    requires Rooted(parent[..], top, rank, bound) && start < parent.Length
    modifies parent
    ensures root == top[start] < parent.Length && top[root] == root
    ensures Rooted(parent[..], top, rank, bound)
    ensures parent[start] == root
    ensures forall x :: 0 <= x < parent.Length ==> parent[x] == old(parent[x]) || parent[x] == root
  {
    root := start;
    assert NodeRooted(parent[..], top, rank, bound, start);
    while parent[root] != root
      invariant root < parent.Length && top[root] == top[start]
      invariant NodeRooted(parent[..], top, rank, bound, root)
      decreases bound - rank[root]
    {
      assert NodeRooted(parent[..], top, rank, bound, parent[root]);
      root := parent[root];
    }
    var node: nat := start;
    while parent[node] != node
      invariant node < parent.Length && top[node] == root
      invariant Rooted(parent[..], top, rank, bound)
      invariant NodeRooted(parent[..], top, rank, bound, node)
      invariant node != start ==> parent[start] == root
      invariant forall x :: 0 <= x < parent.Length ==> parent[x] == old(parent[x]) || parent[x] == root
      decreases bound - rank[node]
    {
      var next := parent[node];
      assert NodeRooted(parent[..], top, rank, bound, next);
      Compress(parent[..], top, rank, bound, node);
      ghost var before := parent[..];
      parent[node] := root;
      assert parent[..] == before[node := root];
      assert NodeRooted(parent[..], top, rank, bound, next);
      node := next;
    }
  }

  ghost function Class(top: seq<nat>, r: nat): set<nat> { set x: nat | x < |top| && top[x] == r }

  /** A root's recorded size is the size of its class. */
  ghost predicate Sized(sizes: seq<nat>, top: seq<nat>) {
    && |sizes| == |top|
    && forall r: nat {:trigger Class(top, r)} :: r < |top| && top[r] == r ==> sizes[r] == |Class(top, r)|
  }

  ghost function Redirected(top: seq<nat>, loser: nat, winner: nat): (next: seq<nat>)
    ensures |next| == |top|
    ensures forall x: nat {:trigger next[x]} :: x < |top| ==> next[x] == if top[x] == loser then winner else top[x]
  {
    seq(|top|, x requires 0 <= x < |top| => if top[x] == loser then winner else top[x])
  }

  ghost function Raised(rank: seq<nat>, winner: nat, loser: nat): (next: seq<nat>)
    requires winner < |rank| && loser < |rank|
    ensures |next| == |rank|
  {
    if rank[winner] <= rank[loser] then rank[winner := rank[loser] + 1] else rank
  }

  lemma {:induction false} Attach(parent: seq<nat>, top: seq<nat>, rank: seq<nat>, bound: nat, winner: nat, loser: nat)
    requires Rooted(parent, top, rank, bound)
    requires winner < |parent| && loser < |parent| && winner != loser
    requires top[winner] == winner && top[loser] == loser
    ensures Rooted(parent[loser := winner], Redirected(top, loser, winner), Raised(rank, winner, loser), bound + 1)
  {
    var parent', top', rank' := parent[loser := winner], Redirected(top, loser, winner), Raised(rank, winner, loser);
    var bound' := bound + 1;
    assert NodeRooted(parent, top, rank, bound, winner) && NodeRooted(parent, top, rank, bound, loser);
    forall x: nat {:trigger NodeRooted(parent', top', rank', bound', x)} | x < |parent'|
      ensures NodeRooted(parent', top', rank', bound', x)
    {
      assert NodeRooted(parent, top, rank, bound, x);
      assert NodeRooted(parent, top, rank, bound, parent[x]);
    }
  }

  lemma {:induction false} AttachSizes(sizes: seq<nat>, top: seq<nat>, winner: nat, loser: nat)
    requires Sized(sizes, top)
    requires winner < |top| && loser < |top| && winner != loser
    requires top[winner] == winner && top[loser] == loser
    ensures Sized(sizes[winner := sizes[winner] + sizes[loser]], Redirected(top, loser, winner))
  {
    var top' := Redirected(top, loser, winner);
    var sizes' := sizes[winner := sizes[winner] + sizes[loser]];
    forall r: nat | r < |top'| && top'[r] == r ensures sizes'[r] == |Class(top', r)| {
      if r == winner {
        assert Class(top', r) == Class(top, winner) + Class(top, loser);
        assert Class(top, winner) !! Class(top, loser);
      } else {
        assert Class(top', r) == Class(top, r);
      }
    }
  }

  /** Joins the components of two nodes; `joined` tells whether they had been separate. */
  method UnionComponents(
    parent: array<nat>, sizes: array<nat>, left: nat, right: nat, ghost top: seq<nat>, ghost rank: seq<nat>,
    ghost bound: nat)
    returns (joined: bool, ghost top': seq<nat>, ghost rank': seq<nat>, ghost bound': nat)
    requires parent != sizes
    requires Rooted(parent[..], top, rank, bound) && Sized(sizes[..], top)
    requires left < parent.Length && right < parent.Length
    modifies parent, sizes
    ensures joined <==> top[left] != top[right]
    ensures Rooted(parent[..], top', rank', bound') && Sized(sizes[..], top')
    ensures !joined ==> top' == top
    ensures joined ==> top[left] < parent.Length && top[right] < parent.Length
    ensures joined ==> top' == if old(sizes[top[left]]) < old(sizes[top[right]])
                               then Redirected(top, top[left], top[right]) else Redirected(top, top[right], top[left])
  {
    top', rank', bound' := top, rank, bound;
    var leftRoot := ComponentRoot(parent, left, top, rank, bound);
    var rightRoot := ComponentRoot(parent, right, top, rank, bound);
    if leftRoot == rightRoot {
      return false, top', rank', bound';
    }
    if sizes[leftRoot] < sizes[rightRoot] {
      leftRoot, rightRoot := rightRoot, leftRoot;
    }
    Attach(parent[..], top, rank, bound, leftRoot, rightRoot);
    AttachSizes(sizes[..], top, leftRoot, rightRoot);
    top', rank', bound' := Redirected(top, rightRoot, leftRoot), Raised(rank, leftRoot, rightRoot), bound + 1;
    ghost var parents, counts := parent[..], sizes[..];
    parent[rightRoot] := leftRoot;
    sizes[leftRoot] := sizes[leftRoot] + sizes[rightRoot];
    assert parent[..] == parents[rightRoot := leftRoot];
    assert sizes[..] == counts[leftRoot := counts[leftRoot] + counts[rightRoot]];
    joined := true;
  }

  // ----- roots name components -----

  /** Two nodes have one root exactly when links join them. */
  ghost predicate Partition(top: seq<nat>, links: Edges) {
    forall x: nat, y: nat {:trigger Connected(links, x, y)} ::
      x < |top| && y < |top| ==> (top[x] == top[y] <==> Connected(links, x, y))
  }

  lemma {:induction false} PartitionStep(top: seq<nat>, links: Edges, a: nat, b: nat, winner: nat, loser: nat)
    requires Partition(top, links) && a < |top| && b < |top|
    requires top[a] != top[b] && ((winner == top[a] && loser == top[b]) || (winner == top[b] && loser == top[a]))
    ensures Partition(Redirected(top, loser, winner), links + {(a, b)})
  {
    var top', more := Redirected(top, loser, winner), links + {(a, b)};
    forall x: nat, y: nat | x < |top'| && y < |top'|
      ensures top'[x] == top'[y] <==> Connected(more, x, y)
    {
      AddEdge(links, a, b, x, y);
      assert Connected(links, x, y) <==> top[x] == top[y];
      assert Connected(links, x, a) <==> top[x] == top[a];
      assert Connected(links, x, b) <==> top[x] == top[b];
      assert Connected(links, a, y) <==> top[a] == top[y];
      assert Connected(links, b, y) <==> top[b] == top[y];
    }
  }

  lemma {:induction false} PartitionSame(top: seq<nat>, links: Edges, a: nat, b: nat)
    requires Partition(top, links) && a < |top| && b < |top| && top[a] == top[b]
    ensures Partition(top, links + {(a, b)})
  {
    forall x: nat, y: nat | x < |top| && y < |top|
      ensures top[x] == top[y] <==> Connected(links + {(a, b)}, x, y)
    {
      AddEdge(links, a, b, x, y);
      assert Connected(links, x, y) <==> top[x] == top[y];
      assert Connected(links, x, a) <==> top[x] == top[a];
      assert Connected(links, x, b) <==> top[x] == top[b];
      assert Connected(links, a, y) <==> top[a] == top[y];
      assert Connected(links, b, y) <==> top[b] == top[y];
    }
  }

  // ----- edges of a compiled graph -----

  /** No two edges join the same variable and factor. */
  lemma {:induction false} LinksDistinct(g: FactorGraph, d: nat, e: nat)
    requires Compiled(g) && d < e < |g.edges|
    ensures Link(g.edges[d], |g.cardinalities|) != Link(g.edges[e], |g.cardinalities|)
  {
    assert EdgeRight(g.cardinalities, g.factors, g.edges, d);
    assert EdgeRight(g.cardinalities, g.factors, g.edges, e);
    var f := g.edges[d].factor;
    if f == g.edges[e].factor { assert ValidTable(g.factors[f]); }
  }

  /** Links run from variables to factors. */
  lemma {:induction false} LinkKinds(g: FactorGraph, k: nat, x: nat, y: nat)
    requires Compiled(g) && k <= |g.edges| && (x, y) in LinksUpTo(g.edges, |g.cardinalities|, k)
    ensures x < |g.cardinalities| <= y < Nodes(g)
  {
    var e :| 0 <= e < k && (x, y) == Link(g.edges[e], |g.cardinalities|);
    assert EdgeRight(g.cardinalities, g.factors, g.edges, e);
  }

  lemma {:induction false} NewLink(g: FactorGraph, k: nat)
    requires Compiled(g) && k < |g.edges|
    ensures var n := |g.cardinalities|;
            var (v, f) := Link(g.edges[k], n);
            && v < n <= f < Nodes(g)
            && LinksUpTo(g.edges, n, k + 1) == LinksUpTo(g.edges, n, k) + {(v, f)}
            && (v, f) !in LinksUpTo(g.edges, n, k) && (f, v) !in LinksUpTo(g.edges, n, k)
  {
    var n := |g.cardinalities|;
    assert EdgeRight(g.cardinalities, g.factors, g.edges, k);
    var (v, f) := Link(g.edges[k], n);
    if (v, f) in LinksUpTo(g.edges, n, k) {
      var e :| 0 <= e < k && (v, f) == Link(g.edges[e], n);
      LinksDistinct(g, e, k);
    }
    if (f, v) in LinksUpTo(g.edges, n, k) { LinkKinds(g, k, f, v); }
  }

  // ----- components -----

  ghost function ComponentNodes(links: Edges, nodes: nat, x: nat): set<nat> {
    set y: nat | y < nodes && Connected(links, x, y)
  }

  /** The edges among the first `k` in `x`'s component. */
  ghost function ComponentEdges(edges: seq<Edge>, links: Edges, x: nat, k: nat): set<nat>
    requires k <= |edges|
  {
    set e: nat | e < k && Connected(links, x, edges[e].variable)
  }

  ghost predicate WithinBound(g: FactorGraph, k: nat, x: nat)
    requires k <= |g.edges|
  {
    var links := LinksUpTo(g.edges, |g.cardinalities|, k);
    |ComponentNodes(links, Nodes(g), x)| <= |ComponentEdges(g.edges, links, x, k)| + 1
  }

  /** A component has at most one more node than it has edges. */
  lemma {:induction false} ComponentsAreThin(g: FactorGraph, k: nat, x: nat)
    requires Compiled(g) && k <= |g.edges|
    ensures WithinBound(g, k, x)
  {
    var n := |g.cardinalities|;
    var links := LinksUpTo(g.edges, n, k);
    if k == 0 {
      assert ComponentNodes(links, Nodes(g), x) <= {x} by {
        forall y | y in ComponentNodes(links, Nodes(g), x) ensures y == x {
          StaysInside(links, iset{x}, x, y);
        }
      }
      Smaller(ComponentNodes(links, Nodes(g), x), {x});
    } else {
      var j: nat := k - 1;
      NewLink(g, j);
      var (v, f) := Link(g.edges[j], n);
      var before := LinksUpTo(g.edges, n, j);
      if Connected(links, x, v) {
        ComponentsAreThin(g, j, v);
        ComponentsAreThin(g, j, f);
        ThinJoined(g, j, before, v, f, x);
      } else {
        ComponentsAreThin(g, j, x);
        ThinApart(g, j, before, v, f, x);
      }
    }
  }

  lemma {:induction false} Smaller(a: set<nat>, b: set<nat>)
    requires a <= b
    ensures |a| <= |b|
  {
    assert b == a + (b - a);
  }

  lemma {:induction false} ThinApart(g: FactorGraph, j: nat, before: Edges, v: nat, f: nat, x: nat)
    requires Compiled(g) && j < |g.edges| && before == LinksUpTo(g.edges, |g.cardinalities|, j)
    requires (v, f) == Link(g.edges[j], |g.cardinalities|)
    requires LinksUpTo(g.edges, |g.cardinalities|, j + 1) == before + {(v, f)}
    requires WithinBound(g, j, x) && !Connected(before + {(v, f)}, x, v)
    ensures WithinBound(g, j + 1, x)
  {
    var links := before + {(v, f)};
    Reflexive(before, v);
    AddEdge(before, v, f, x, v);
    forall y: nat ensures Connected(links, x, y) <==> Connected(before, x, y) {
      AddEdge(before, v, f, x, y);
      if Connected(before, x, f) { Reflexive(before, v); }
    }
    assert ComponentNodes(links, Nodes(g), x) == ComponentNodes(before, Nodes(g), x);
    Smaller(ComponentEdges(g.edges, before, x, j), ComponentEdges(g.edges, links, x, j + 1));
  }

  lemma {:induction false} ThinJoined(g: FactorGraph, j: nat, before: Edges, v: nat, f: nat, x: nat)
    requires Compiled(g) && j < |g.edges| && before == LinksUpTo(g.edges, |g.cardinalities|, j)
    requires (v, f) == Link(g.edges[j], |g.cardinalities|)
    requires LinksUpTo(g.edges, |g.cardinalities|, j + 1) == before + {(v, f)}
    requires WithinBound(g, j, v) && WithinBound(g, j, f) && Connected(before + {(v, f)}, x, v)
    ensures WithinBound(g, j + 1, x)
  {
    var links := before + {(v, f)};
    forall y: nat ensures Connected(links, x, y) <==> Connected(before, v, y) || Connected(before, f, y) {
      FromEnd(before, v, f, x, y);
    }
    var nodesV, nodesF := ComponentNodes(before, Nodes(g), v), ComponentNodes(before, Nodes(g), f);
    var edgesV, edgesF := ComponentEdges(g.edges, before, v, j), ComponentEdges(g.edges, before, f, j);
    var all := ComponentEdges(g.edges, links, x, j + 1);
    assert ComponentNodes(links, Nodes(g), x) == nodesV + nodesF;
    assert j !in edgesV && j !in edgesF && edgesV + {j} <= all && edgesF <= all;
    if Connected(before, v, f) {
      forall y: nat ensures Connected(before, f, y) ==> Connected(before, v, y) {
        if Connected(before, f, y) { Transitive(before, v, f, y); }
      }
      assert nodesV + nodesF == nodesV;
      Smaller(edgesV + {j}, all);
    } else {
      EdgesApart(g.edges, before, v, f, j);
      Smaller(edgesV + edgesF + {j}, all);
    }
  }

  lemma {:induction false} EdgesApart(edges: seq<Edge>, links: Edges, v: nat, f: nat, k: nat)
    requires k <= |edges| && !Connected(links, v, f)
    ensures ComponentEdges(edges, links, v, k) !! ComponentEdges(edges, links, f, k)
  {
    if e :| e in ComponentEdges(edges, links, v, k) && e in ComponentEdges(edges, links, f, k) {
      Symmetric(links, f, edges[e].variable);
      Transitive(links, v, edges[e].variable, f);
    }
  }

  lemma {:induction false} FromEnd(before: Edges, v: nat, f: nat, x: nat, y: nat)
    requires Connected(before + {(v, f)}, x, v)
    ensures Connected(before + {(v, f)}, x, y) <==> Connected(before, v, y) || Connected(before, f, y)
  {
    var links := before + {(v, f)};
    Reflexive(before, v);
    Symmetric(links, x, v);
    AddEdge(before, v, f, v, y);
    if Connected(links, x, y) { Transitive(links, v, x, y); }
    if Connected(links, v, y) { Transitive(links, x, v, y); }
  }

  // ----- the pass bound -----

  /** `passes` is one more than the edge count of the largest component, as far as it can be represented. */
  ghost predicate PassBound(g: FactorGraph, passes: nat) {
    exists largest: nat ::
      && IsLargest(g, largest)
      && passes == if largest + 1 > MAX_PASSES then MAX_PASSES else largest + 1
  }

  ghost predicate IsLargest(g: FactorGraph, largest: nat) {
    && (forall v: nat :: v < |g.cardinalities| ==> EdgeCount(g, v) <= largest)
    && (largest == 0 || exists v: nat :: v < |g.cardinalities| && EdgeCount(g, v) == largest)
  }

  ghost function EdgeCount(g: FactorGraph, v: nat): nat { |ComponentEdges(g.edges, Links(g), v, |g.edges|)| }

  ghost function EdgesAt(edges: seq<Edge>, top: seq<nat>, r: nat, k: nat): set<nat>
    requires k <= |edges|
  {
    set e: nat | e < k && edges[e].variable < |top| && top[edges[e].variable] == r
  }

  ghost predicate Counted(g: FactorGraph, top: seq<nat>, counts: seq<nat>, k: nat)
    requires k <= |g.edges|
  {
    && |counts| == |top|
    && forall r: nat {:trigger EdgesAt(g.edges, top, r, k)} :: r < |counts| ==>
         counts[r] == |EdgesAt(g.edges, top, r, k)|
  }

  lemma {:induction false} CountStep(g: FactorGraph, top: seq<nat>, counts: seq<nat>, k: nat)
    requires k < |g.edges| && Counted(g, top, counts, k) && g.edges[k].variable < |top|
    requires top[g.edges[k].variable] < |top|
    ensures var r := top[g.edges[k].variable]; Counted(g, top, counts[r := counts[r] + 1], k + 1)
  {
    var mine := top[g.edges[k].variable];
    var next := k + 1;
    forall r: nat {:trigger EdgesAt(g.edges, top, r, next)} | r < |counts|
      ensures counts[mine := counts[mine] + 1][r] == |EdgesAt(g.edges, top, r, next)|
    {
      if r == mine {
        assert EdgesAt(g.edges, top, r, next) == EdgesAt(g.edges, top, r, k) + {k};
      } else {
        assert EdgesAt(g.edges, top, r, next) == EdgesAt(g.edges, top, r, k);
      }
    }
  }

  /** The counter of a component's root counts the component's edges. */
  lemma {:induction false} CountsAreComponents(g: FactorGraph, top: seq<nat>, counts: seq<nat>, v: nat)
    requires Compiled(g) && |top| == Nodes(g) && Partition(top, Links(g)) && v < Nodes(g) && top[v] < |top|
    requires Counted(g, top, counts, |g.edges|)
    ensures counts[top[v]] == |ComponentEdges(g.edges, Links(g), v, |g.edges|)|
  {
    var links := Links(g);
    forall e: nat | e < |g.edges|
      ensures e in EdgesAt(g.edges, top, top[v], |g.edges|) <==> Connected(links, v, g.edges[e].variable)
    {
      assert EdgeRight(g.cardinalities, g.factors, g.edges, e);
    }
    assert EdgesAt(g.edges, top, top[v], |g.edges|) == ComponentEdges(g.edges, links, v, |g.edges|);
  }

  method Largest(counts: array<nat>) returns (largest: nat)
    ensures forall r :: 0 <= r < counts.Length ==> counts[r] <= largest
    ensures largest == 0 || exists r :: 0 <= r < counts.Length && counts[r] == largest
  {
    largest := 0;
    for r := 0 to counts.Length
      invariant forall s :: 0 <= s < r ==> counts[s] <= largest
      invariant largest == 0 || exists s :: 0 <= s < r && counts[s] == largest
    {
      if counts[r] > largest { largest := counts[r]; }
    }
  }

  ghost predicate Processed(g: FactorGraph, top: seq<nat>, acyclic: bool, k: nat)
    requires k <= |g.edges|
  {
    && |top| == Nodes(g)
    && Partition(top, LinksUpTo(g.edges, |g.cardinalities|, k))
    && (acyclic <==> Forest(LinksUpTo(g.edges, |g.cardinalities|, k)))
  }

  lemma {:induction false} ProcessedStart(g: FactorGraph, top: seq<nat>)
    requires |top| == Nodes(g) && forall x: nat {:trigger top[x]} :: x < |top| ==> top[x] == x
    ensures Processed(g, top, true, 0)
  {
    var links := LinksUpTo(g.edges, |g.cardinalities|, 0);
    forall x: nat, y: nat | x < |top| && y < |top| ensures top[x] == top[y] <==> Connected(links, x, y) {
      Reflexive(links, x);
      if Connected(links, x, y) { StaysInside(links, iset{x}, x, y); }
    }
  }

  lemma {:induction false} ProcessedStep(
    g: FactorGraph, top: seq<nat>, top': seq<nat>, acyclic: bool, k: nat, joined: bool)
    requires Compiled(g) && k < |g.edges| && Processed(g, top, acyclic, k)
    requires var (v, f) := Link(g.edges[k], |g.cardinalities|);
             && v < |top| && f < |top| && (joined <==> top[v] != top[f])
             && (!joined ==> top' == top)
             && (joined ==> top' == Redirected(top, top[v], top[f]) || top' == Redirected(top, top[f], top[v]))
    ensures Processed(g, top', acyclic && joined, k + 1)
  {
    var n := |g.cardinalities|;
    var links := LinksUpTo(g.edges, n, k);
    var (v, f) := Link(g.edges[k], n);
    NewLink(g, k);
    ForestStep(links, v, f);
    assert Connected(links, v, f) <==> !joined;
    if joined {
      if top' == Redirected(top, top[v], top[f]) {
        PartitionStep(top, links, v, f, top[f], top[v]);
      } else {
        PartitionStep(top, links, v, f, top[v], top[f]);
      }
    } else {
      PartitionSame(top, links, v, f);
    }
  }

  /** Reports whether the batch is a forest, and the pass bound of its largest component. */
  method FindTopology(g: FactorGraph) returns (acyclic: bool, passes: nat)
    requires Compiled(g)
    ensures acyclic <==> Forest(Links(g))
    ensures PassBound(g, passes)
  {
    hide Compiled, Rooted, Sized, Processed, Counted, Partition, PassBound, Forest, Links;
    var variables := |g.cardinalities|;
    var nodes := variables + |g.factors|;
    var parent := new nat[nodes](i => i);
    var sizes := new nat[nodes](_ => 1);
    var counts := new nat[nodes](_ => 0);
    ghost var top, rank, bound := parent[..], sizes[..], 1;
    RootedStart(top, rank);
    ProcessedStart(g, top);
    acyclic := true;
    var e := 0;
    while e < |g.edges|
      invariant 0 <= e <= |g.edges|
      invariant Rooted(parent[..], top, rank, bound) && Sized(sizes[..], top)
      invariant Processed(g, top, acyclic, e)
      invariant forall i :: 0 <= i < nodes ==> counts[i] == 0
    {
      var edge := g.edges[e];
      NewLink(g, e);
      var factor := variables + edge.factor;
      ghost var before := top;
      var joined;
      joined, top, rank, bound := UnionComponents(parent, sizes, edge.variable, factor, top, rank, bound);
      TopLength(g, before, acyclic, e);
      ProcessedStep(g, before, top, acyclic, e, joined);
      if !joined { acyclic := false; }
      e := e + 1;
    }
    TopLength(g, top, acyclic, e);
    CountStart(g, top, counts[..]);
    e := 0;
    while e < |g.edges|
      invariant 0 <= e <= |g.edges|
      invariant Rooted(parent[..], top, rank, bound)
      invariant Counted(g, top, counts[..], e)
    {
      NewLink(g, e);
      var root := ComponentRoot(parent, g.edges[e].variable, top, rank, bound);
      CountStep(g, top, counts[..], e);
      ghost var before := counts[..];
      counts[root] := counts[root] + 1;
      assert counts[..] == before[root := before[root] + 1];
      e := e + 1;
    }
    var largest := Largest(counts);
    passes := if largest + 1 > MAX_PASSES then MAX_PASSES else largest + 1;
    LargestComponent(g, parent[..], top, rank, bound, acyclic, counts[..], largest, passes);
  }

  lemma {:induction false} TopLength(g: FactorGraph, top: seq<nat>, acyclic: bool, k: nat)
    requires k <= |g.edges| && Processed(g, top, acyclic, k)
    ensures |top| == Nodes(g)
    ensures k == |g.edges| ==> (acyclic <==> Forest(Links(g)))
  {}

  lemma {:induction false} CountStart(g: FactorGraph, top: seq<nat>, counts: seq<nat>)
    requires |counts| == |top| && forall r: nat {:trigger counts[r]} :: r < |counts| ==> counts[r] == 0
    ensures Counted(g, top, counts, 0)
  {}

  lemma {:induction false} RootedStart(top: seq<nat>, rank: seq<nat>)
    requires |rank| == |top|
    requires forall x: nat {:trigger top[x]} {:trigger rank[x]} :: x < |top| ==> top[x] == x && rank[x] == 1
    ensures Rooted(top, top, rank, 1) && Sized(rank, top)
  {
    forall x: nat | x < |top| ensures NodeRooted(top, top, rank, 1, x) {}
    forall r: nat | r < |top| ensures Class(top, r) == {r} {}
  }

  lemma {:induction false} LargestComponent(
    g: FactorGraph, parent: seq<nat>, top: seq<nat>, rank: seq<nat>, bound: nat, acyclic: bool, counts: seq<nat>,
    largest: nat, passes: nat)
    requires Compiled(g) && Rooted(parent, top, rank, bound) && Processed(g, top, acyclic, |g.edges|)
    requires Counted(g, top, counts, |g.edges|)
    requires forall r :: 0 <= r < |counts| ==> counts[r] <= largest
    requires largest == 0 || exists r :: 0 <= r < |counts| && counts[r] == largest
    requires passes == if largest + 1 > MAX_PASSES then MAX_PASSES else largest + 1
    ensures PassBound(g, passes)
  {
    forall v: nat | v < |g.cardinalities| ensures EdgeCount(g, v) <= largest {
      assert NodeRooted(parent, top, rank, bound, v);
      CountsAreComponents(g, top, counts, v);
    }
    if largest > 0 {
      var r: nat :| r < |counts| && counts[r] == largest;
      assert EdgesAt(g.edges, top, r, |g.edges|) != {};
      var e :| e in EdgesAt(g.edges, top, r, |g.edges|);
      assert EdgeRight(g.cardinalities, g.factors, g.edges, e);
      var v := g.edges[e].variable;
      assert NodeRooted(parent, top, rank, bound, v);
      CountsAreComponents(g, top, counts, v);
      assert EdgeCount(g, v) == largest;
    }
    assert IsLargest(g, largest);
  }
}
