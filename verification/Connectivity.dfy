/** Undirected reachability over a finite edge set.

    Both the ledger's canonical merge classes and the solver's component search are stated against
    this one definition: two nodes are connected when some path of edges joins them.
  */
module Connectivity {

  predicate Adjacent<T(==)>(edges: set<(T, T)>, x: T, y: T) {
    (x, y) in edges || (y, x) in edges
  }

  predicate IsPath<T(==)>(edges: set<(T, T)>, path: seq<T>, x: T, y: T) {
    && |path| > 0 && path[0] == x && path[|path| - 1] == y
    && forall i :: 0 <= i < |path| - 1 ==> Adjacent(edges, path[i], path[i + 1])
  }

  ghost predicate Connected<T(!new)>(edges: set<(T, T)>, x: T, y: T) {
    exists path :: IsPath(edges, path, x, y)
  }

  lemma {:induction false} Reflexive<T(!new)>(edges: set<(T, T)>, x: T)
    ensures Connected(edges, x, x)
  {
    assert IsPath(edges, [x], x, x);
  }

  lemma {:induction false} Edge<T(!new)>(edges: set<(T, T)>, x: T, y: T)
    requires Adjacent(edges, x, y)
    ensures Connected(edges, x, y)
  {
    assert IsPath(edges, [x, y], x, y);
  }

  lemma {:induction false} Transitive<T(!new)>(edges: set<(T, T)>, x: T, y: T, z: T)
    requires Connected(edges, x, y) && Connected(edges, y, z)
    ensures Connected(edges, x, z)
  {
    var p :| IsPath(edges, p, x, y);
    var q :| IsPath(edges, q, y, z);
    var r := p + q[1..];
    forall i | 0 <= i < |r| - 1 ensures Adjacent(edges, r[i], r[i + 1]) {
      if i >= |p| - 1 {
        assert r[i] == q[i - (|p| - 1)] && r[i + 1] == q[i + 1 - (|p| - 1)];
      }
    }
    assert IsPath(edges, r, x, z);
  }

  lemma {:induction false} Symmetric<T(!new)>(edges: set<(T, T)>, x: T, y: T)
    requires Connected(edges, x, y)
    ensures Connected(edges, y, x)
  {
    var p :| IsPath(edges, p, x, y);
    var r := seq(|p|, i requires 0 <= i < |p| => p[|p| - 1 - i]);
    forall i | 0 <= i < |r| - 1 ensures Adjacent(edges, r[i], r[i + 1]) {
      assert Adjacent(edges, p[|p| - 2 - i], p[|p| - 2 - i + 1]);
    }
    assert IsPath(edges, r, y, x);
  }

  lemma {:induction false} Monotone<T(!new)>(small: set<(T, T)>, large: set<(T, T)>, x: T, y: T)
    requires small <= large && Connected(small, x, y)
    ensures Connected(large, x, y)
  {
    var p :| IsPath(small, p, x, y);
    assert IsPath(large, p, x, y);
  }

  ghost predicate Closed<T(!new)>(edges: set<(T, T)>, region: iset<T>) {
    forall x, y :: x in region && Adjacent(edges, x, y) ==> y in region
  }

  /** Induction along a path: a region no edge leaves holds everything connected to its members. */
  lemma {:induction false} StaysInside<T(!new)>(edges: set<(T, T)>, region: iset<T>, x: T, y: T)
    requires Closed(edges, region) && x in region && Connected(edges, x, y)
    ensures y in region
  {
    var p :| IsPath(edges, p, x, y);
    var i := 0;
    while i < |p| - 1
      invariant 0 <= i < |p| && p[i] in region
    {
      assert Adjacent(edges, p[i], p[i + 1]);
      i := i + 1;
    }
  }

  /** What one more edge changes: it joins exactly the two classes of its endpoints. */
  lemma {:induction false} AddEdge<T(!new)>(edges: set<(T, T)>, a: T, b: T, x: T, y: T)
    ensures Connected(edges + {(a, b)}, x, y) <==>
              || Connected(edges, x, y)
              || (Connected(edges, x, a) && Connected(edges, b, y))
              || (Connected(edges, x, b) && Connected(edges, a, y))
  {
    var more := edges + {(a, b)};
    Edge(more, a, b);
    Edge(more, b, a);
    if Connected(edges, x, y) {
      Monotone(edges, more, x, y);
    } else if Connected(edges, x, a) && Connected(edges, b, y) {
      Monotone(edges, more, x, a);
      Monotone(edges, more, b, y);
      Transitive(more, x, a, b);
      Transitive(more, x, b, y);
    } else if Connected(edges, x, b) && Connected(edges, a, y) {
      Monotone(edges, more, x, b);
      Monotone(edges, more, a, y);
      Transitive(more, x, b, a);
      Transitive(more, x, a, y);
    } else if Connected(more, x, y) {
      JoinedRegionClosed(edges, a, b, x);
      Reflexive(edges, x);
      StaysInside(more, JoinedRegion(edges, a, b, x), x, y);
    }
  }

  ghost function JoinedRegion<T(!new)>(edges: set<(T, T)>, a: T, b: T, x: T): iset<T> {
    iset z | || Connected(edges, x, z)
             || (Connected(edges, x, a) && Connected(edges, b, z))
             || (Connected(edges, x, b) && Connected(edges, a, z))
  }

  lemma {:induction false} JoinedRegionClosed<T(!new)>(edges: set<(T, T)>, a: T, b: T, x: T)
    ensures Closed(edges + {(a, b)}, JoinedRegion(edges, a, b, x))
  {
    var region := JoinedRegion(edges, a, b, x);
    forall y, z | y in region && Adjacent(edges + {(a, b)}, y, z) ensures z in region {
      Reflexive(edges, a);
      Reflexive(edges, b);
      if Adjacent(edges, y, z) {
        Edge(edges, y, z);
        if Connected(edges, x, y) {
          Transitive(edges, x, y, z);
        } else if Connected(edges, x, a) && Connected(edges, b, y) {
          Transitive(edges, b, y, z);
        } else {
          Transitive(edges, a, y, z);
        }
      }
    }
  }
}
