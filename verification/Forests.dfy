/** Forests: graphs whose every edge is a bridge, and how an edge splits its component. */
module Forests {
  import opened Connectivity

  type Edges = set<(nat, nat)>

  function Without(edges: Edges, a: nat, b: nat): Edges { edges - {(a, b), (b, a)} }

  ghost predicate Bridge(edges: Edges, a: nat, b: nat) { !Connected(Without(edges, a, b), a, b) }

  /** No edge lies on a cycle. */
  ghost predicate Forest(edges: Edges) {
    forall a, b :: (a, b) in edges ==> Bridge(edges, a, b)
  }

  /** `x` can be reached from `a` without the edge between `a` and `b`. */
  ghost predicate IsBehind(edges: Edges, a: nat, b: nat, x: nat) { Connected(Without(edges, a, b), a, x) }

  /** The nodes below `n` on `a`'s side of the edge between `a` and `b`. */
  ghost function Behind(edges: Edges, n: nat, a: nat, b: nat): set<nat> {
    set x: nat | x < n && IsBehind(edges, a, b, x)
  }

  lemma {:induction false} BridgeBothWays(edges: Edges, a: nat, b: nat)
    requires Forest(edges) && Adjacent(edges, a, b)
    ensures !IsBehind(edges, a, b, b)
  {
    if (a, b) !in edges {
      assert Bridge(edges, b, a) && Without(edges, a, b) == Without(edges, b, a);
      if Connected(Without(edges, a, b), a, b) { Symmetric(Without(edges, a, b), a, b); }
    } else {
      assert Bridge(edges, a, b);
    }
  }

  /** Only the cut edge leads out of the nodes behind it. */
  lemma {:induction false} OnlyWayOut(edges: Edges, a: nat, b: nat, x: nat, y: nat)
    requires IsBehind(edges, a, b, x) && Adjacent(edges, x, y)
    ensures IsBehind(edges, a, b, y) || (x == a && y == b)
  {
    var cut := Without(edges, a, b);
    if x == b && y == a {
      Reflexive(cut, a);
    } else if !(x == a && y == b) {
      Edge(cut, x, y);
      Transitive(cut, a, x, y);
    }
  }

  lemma {:induction false} BehindRoot(edges: Edges, a: nat, b: nat)
    ensures IsBehind(edges, a, b, a)
  {
    Reflexive(Without(edges, a, b), a);
  }

  /** The parts behind two neighbours of one node do not meet. */
  lemma {:induction false} BehindDisjoint(edges: Edges, a: nat, c: nat, d: nat, x: nat)
    requires Forest(edges) && Adjacent(edges, c, a) && Adjacent(edges, d, a) && c != d
    ensures !(IsBehind(edges, c, a, x) && IsBehind(edges, d, a, x))
  {
    var cut := Without(edges, d, a);
    var region := iset y: nat | IsBehind(edges, d, a, y) && !IsBehind(edges, c, a, y);
    BridgeBothWays(edges, c, a);
    BridgeBothWays(edges, d, a);
    forall y, z | y in region && Adjacent(cut, y, z) ensures z in region {
      Edge(cut, y, z);
      Transitive(cut, d, y, z);
      if IsBehind(edges, c, a, z) { OnlyWayOut(edges, c, a, z, y); }
    }
    BehindRoot(edges, d, a);
    if IsBehind(edges, c, a, d) { OnlyWayOut(edges, c, a, d, a); }
    if IsBehind(edges, d, a, x) { StaysInside(cut, region, d, x); }
  }

  ghost predicate ReachedThrough(edges: Edges, a: nat, b: nat, c: nat, x: nat) {
    c != b && Adjacent(edges, c, a) && IsBehind(edges, c, a, x)
  }

  ghost predicate Split(edges: Edges, a: nat, b: nat, x: nat) {
    x == a || exists c :: ReachedThrough(edges, a, b, c, x)
  }

  /** What lies behind `a` as seen from `b`: `a` itself and what lies behind its other neighbours. */
  lemma {:induction false} BehindSplits(edges: Edges, a: nat, b: nat, x: nat)
    requires Forest(edges)
    ensures IsBehind(edges, a, b, x) <==> Split(edges, a, b, x)
  {
    BehindRoot(edges, a, b);
    if IsBehind(edges, a, b, x) {
      var region := iset y: nat | Split(edges, a, b, y);
      forall y, z | y in region && Adjacent(Without(edges, a, b), y, z) ensures z in region {
        if y == a {
          BehindRoot(edges, z, a);
          assert ReachedThrough(edges, a, b, z, z);
        } else {
          var c :| ReachedThrough(edges, a, b, c, y);
          OnlyWayOut(edges, c, a, y, z);
          if z != a { assert ReachedThrough(edges, a, b, c, z); }
        }
      }
      StaysInside(Without(edges, a, b), region, a, x);
    } else if Split(edges, a, b, x) && x != a {
      var c :| ReachedThrough(edges, a, b, c, x);
      NeighbourBehind(edges, a, b, c, x);
    }
  }

  lemma {:induction false} NeighbourBehind(edges: Edges, a: nat, b: nat, c: nat, x: nat)
    requires Forest(edges) && ReachedThrough(edges, a, b, c, x)
    ensures IsBehind(edges, a, b, x) && x != a
  {
    var cut := Without(edges, c, a);
    BridgeBothWays(edges, c, a);
    BehindRoot(edges, a, b);
    BehindRoot(edges, c, a);
    OnlyWayOut(edges, a, b, a, c);
    var region := iset y: nat | IsBehind(edges, a, b, y) && IsBehind(edges, c, a, y);
    forall y, z | y in region && Adjacent(cut, y, z) ensures z in region {
      Edge(cut, y, z);
      Transitive(cut, c, y, z);
      OnlyWayOut(edges, a, b, y, z);
    }
    StaysInside(cut, region, c, x);
  }

  // ----- growing a forest edge by edge -----

  /** A new edge keeps a forest one exactly when it joins two components. */
  lemma {:induction false} ForestStep(edges: Edges, a: nat, b: nat)
    requires (a, b) !in edges && (b, a) !in edges
    ensures Forest(edges + {(a, b)}) <==> Forest(edges) && !Connected(edges, a, b)
  {
    var more := edges + {(a, b)};
    assert Without(more, a, b) == edges;
    if Forest(more) {
      assert Bridge(more, a, b);
      forall x, y | (x, y) in edges ensures Bridge(edges, x, y) {
        assert Bridge(more, x, y);
        if Connected(Without(edges, x, y), x, y) { Monotone(Without(edges, x, y), Without(more, x, y), x, y); }
      }
    }
    if Forest(edges) && !Connected(edges, a, b) {
      forall x, y | (x, y) in more ensures Bridge(more, x, y) {
        if (x, y) != (a, b) { OldBridge(edges, a, b, x, y); }
      }
    }
  }

  lemma {:induction false} OldBridge(edges: Edges, a: nat, b: nat, x: nat, y: nat)
    requires (a, b) !in edges && (b, a) !in edges && (x, y) in edges
    requires Forest(edges) && !Connected(edges, a, b)
    ensures Bridge(edges + {(a, b)}, x, y)
  {
    var cut := Without(edges, x, y);
    assert Without(edges + {(a, b)}, x, y) == cut + {(a, b)};
    AddEdge(cut, a, b, x, y);
    assert Bridge(edges, x, y);
    Edge(edges, x, y);
    Edge(edges, y, x);
    if Connected(cut, x, a) && Connected(cut, b, y) {
      Through(edges, cut, a, x, y, b);
    } else if Connected(cut, x, b) && Connected(cut, a, y) {
      Through(edges, cut, a, y, x, b);
    }
  }

  lemma {:induction false} Through(edges: Edges, cut: Edges, a: nat, x: nat, y: nat, b: nat)
    requires cut <= edges && Connected(edges, x, y)
    requires Connected(cut, x, a) || Connected(cut, a, x)
    requires Connected(cut, b, y) || Connected(cut, y, b)
    ensures Connected(edges, a, b)
  {
    if Connected(cut, x, a) { Symmetric(cut, x, a); }
    if Connected(cut, b, y) { Symmetric(cut, b, y); }
    Monotone(cut, edges, a, x);
    Monotone(cut, edges, y, b);
    Transitive(edges, a, x, y);
    Transitive(edges, a, y, b);
  }
}
