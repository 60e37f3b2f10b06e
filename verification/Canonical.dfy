/** The canonical-identity forest of the ledger: union by size with class minima.

    `roots` and `depths` are proof data: the class root of every node and its distance to that root.
  */
module Canonical {
  import opened Connectivity
  import opened Types

  datatype CanonicalNode = CanonicalNode(parent: IdentityId, minimum: IdentityId, size: nat)

  type Forest = map<IdentityId, CanonicalNode>
  type Roots = map<IdentityId, IdentityId>
  type Depths = map<IdentityId, nat>

  function Pow2(n: nat): (r: nat)
    ensures r > n
  {
    if n == 0 then 1 else 2 * Pow2(n - 1)
  }

  function Class(roots: Roots, root: IdentityId): set<IdentityId> {
    set x | x in roots && roots[x] == root
  }

  ghost predicate IsLeast(x: IdentityId, s: set<IdentityId>) {
    x in s && forall y :: y in s ==> x <= y
  }

  /** Parent links lead to the root, one step of depth at a time. */
  ghost predicate Linked(forest: Forest, roots: Roots, depths: Depths, x: IdentityId)
    requires x in forest && roots.Keys == forest.Keys && depths.Keys == forest.Keys
  {
    && forest[x].parent in forest && roots[x] in forest
    && roots[forest[x].parent] == roots[x]
    && roots[roots[x]] == roots[x]
    && (forest[x].parent == x <==> roots[x] == x)
    && (roots[x] == x <==> depths[x] == 0)
    && (roots[x] != x ==> depths[x] == depths[forest[x].parent] + 1)
  }

  /** Every root knows its class's exact size and least member, and trees stay balanced. */
  ghost predicate Weighted(forest: Forest, roots: Roots, depths: Depths, x: IdentityId)
    requires x in forest && roots.Keys == forest.Keys && depths.Keys == forest.Keys
  {
    && roots[x] in forest && forest[roots[x]].size == |Class(roots, roots[x])|
    && IsLeast(forest[roots[x]].minimum, Class(roots, roots[x]))
    && Pow2(depths[x]) <= forest[roots[x]].size
  }

  ghost predicate IsForest(forest: Forest, roots: Roots, depths: Depths) {
    && roots.Keys == forest.Keys && depths.Keys == forest.Keys
    && (forall x {:trigger Linked(forest, roots, depths, x)} :: x in forest ==> Linked(forest, roots, depths, x))
    && (forall x {:trigger Weighted(forest, roots, depths, x)} :: x in forest ==> Weighted(forest, roots, depths, x))
  }

  /** The forest's classes are the components of `edges`. */
  ghost predicate Represents(roots: Roots, edges: set<(IdentityId, IdentityId)>) {
    forall x, y {:trigger Connected(edges, x, y)} ::
      x in roots && y in roots ==> (roots[x] == roots[y] <==> Connected(edges, x, y))
  }

  ghost predicate Known(edges: set<(IdentityId, IdentityId)>, identities: set<IdentityId>) {
    forall e :: e in edges ==> e.0 in identities && e.1 in identities
  }

  /** Class members of `x` among the known identities. */
  ghost function Members(edges: set<(IdentityId, IdentityId)>, identities: set<IdentityId>, x: IdentityId)
    : set<IdentityId>
  {
    set y | y in identities && Connected(edges, x, y)
  }

  lemma {:induction false} LeastExists(s: set<IdentityId>)
    requires s != {}
    ensures exists m :: IsLeast(m, s)
  {
    var x :| x in s;
    if s == {x} {
      assert IsLeast(x, s);
    } else {
      LeastExists(s - {x});
      var m :| IsLeast(m, s - {x});
      assert IsLeast(if m < x then m else x, s) by { assert s == (s - {x}) + {x}; }
    }
  }

  /** The least identity in the component of `x`: what the canonical query is for. */
  ghost function ClassMinimum(edges: set<(IdentityId, IdentityId)>, identities: set<IdentityId>, x: IdentityId)
    : (m: IdentityId)
    requires x in identities
    ensures IsLeast(m, Members(edges, identities, x))
  {
    Reflexive(edges, x);
    assert x in Members(edges, identities, x);
    LeastExists(Members(edges, identities, x));
    var m :| IsLeast(m, Members(edges, identities, x));
    m
  }

  lemma {:induction false} SameClassSameMembers(
    edges: set<(IdentityId, IdentityId)>, identities: set<IdentityId>, x: IdentityId, y: IdentityId)
    requires Connected(edges, x, y)
    ensures Members(edges, identities, x) == Members(edges, identities, y)
  {
    forall z ensures Connected(edges, x, z) <==> Connected(edges, y, z) {
      Symmetric(edges, x, y);
      if Connected(edges, x, z) { Transitive(edges, y, x, z); }
      if Connected(edges, y, z) { Transitive(edges, x, y, z); }
    }
  }

  /** In a forest representing `edges`, a root's recorded minimum is the class minimum. */
  lemma {:induction false} MinimumIsClassMinimum(
    forest: Forest, roots: Roots, depths: Depths, edges: set<(IdentityId, IdentityId)>, x: IdentityId)
    requires IsForest(forest, roots, depths) && Represents(roots, edges) && x in forest
    ensures roots[x] in forest && forest[roots[x]].minimum == ClassMinimum(edges, forest.Keys, x)
  {
    assert Linked(forest, roots, depths, x) && Weighted(forest, roots, depths, x);
    assert Class(roots, roots[x]) == Members(edges, forest.Keys, x) by {
      forall y | y in roots ensures roots[y] == roots[x] <==> Connected(edges, x, y) {}
    }
  }

  /** Depth is below the logarithm of the class size, hence below the number of nodes. */
  lemma {:induction false} DepthBound(forest: Forest, roots: Roots, depths: Depths, x: IdentityId)
    requires IsForest(forest, roots, depths) && x in forest
    ensures Pow2(depths[x]) <= |Class(roots, roots[x])| <= |forest|
    ensures depths[x] < |forest|
  {
    assert Linked(forest, roots, depths, x) && Weighted(forest, roots, depths, x);
    SubsetSize(Class(roots, roots[x]), forest.Keys);
    assert |forest.Keys| == |forest|;
  }

  lemma {:induction false} SubsetSize<T>(a: set<T>, b: set<T>)
    requires a <= b
    ensures |a| <= |b|
  {
    if a != {} {
      var x :| x in a;
      SubsetSize(a - {x}, b - {x});
    }
  }

  /** Of two class minima, the one that stays and the one that is replaced. */
  function Survivor(a: IdentityId, b: IdentityId): Option<(IdentityId, IdentityId)> {
    if a == b then None else if a < b then Some((a, b)) else Some((b, a))
  }

  // ----- insertion of a fresh singleton -----

  function Singleton(x: IdentityId): CanonicalNode { CanonicalNode(x, x, 1) }

  lemma {:induction false} InsertKeepsForest(
    forest: Forest, roots: Roots, depths: Depths, edges: set<(IdentityId, IdentityId)>, x: IdentityId)
    requires IsForest(forest, roots, depths) && Represents(roots, edges) && Known(edges, forest.Keys)
    requires x !in forest
    ensures IsForest(forest[x := Singleton(x)], roots[x := x], depths[x := 0])
    ensures Represents(roots[x := x], edges)
  {
    var forest', roots', depths' := forest[x := Singleton(x)], roots[x := x], depths[x := 0];
    forall y | y in forest' ensures Linked(forest', roots', depths', y) && Weighted(forest', roots', depths', y) {
      if y == x {
        assert Class(roots', x) == {x} by {
          forall z | z in roots && z != x ensures roots[z] != x { assert Linked(forest, roots, depths, z); }
        }
      } else {
        assert Linked(forest, roots, depths, y) && Weighted(forest, roots, depths, y);
        assert Class(roots', roots[y]) == Class(roots, roots[y]);
      }
    }
    forall y, z | y in roots' && z in roots' ensures roots'[y] == roots'[z] <==> Connected(edges, y, z) {
      Reflexive(edges, x);
      if y != x { Isolated(edges, forest.Keys, x, y); assert Linked(forest, roots, depths, y); }
      if z != x { Isolated(edges, forest.Keys, x, z); assert Linked(forest, roots, depths, z); }
    }
  }

  lemma {:induction false} RelinkKeys(
    forest: Forest, roots: Roots, depths: Depths, parent: IdentityId, child: IdentityId)
    requires IsForest(forest, roots, depths) && parent in forest && child in forest
    ensures Relink(forest, parent, child).Keys == forest.Keys
    ensures MergedRoots(roots, parent, child).Keys == forest.Keys
    ensures MergedDepths(roots, depths, child).Keys == forest.Keys
  {
    hide Linked, Weighted;
  }

  /** Every parent link still leads one step closer to the root. */
  lemma {:induction false} RelinkLinks(
    forest: Forest, roots: Roots, depths: Depths, parent: IdentityId, child: IdentityId, x: IdentityId)
    requires IsForest(forest, roots, depths) && x in forest
    requires parent in forest && child in forest && parent != child && roots[parent] == parent && roots[child] == child
    ensures x in Relink(forest, parent, child)
    ensures MergedRoots(roots, parent, child).Keys == Relink(forest, parent, child).Keys
    ensures MergedDepths(roots, depths, child).Keys == Relink(forest, parent, child).Keys
    ensures Linked(Relink(forest, parent, child), MergedRoots(roots, parent, child),
                   MergedDepths(roots, depths, child), x)
  {
    hide Weighted;
    RelinkKeys(forest, roots, depths, parent, child);
    assert Linked(forest, roots, depths, parent) && Linked(forest, roots, depths, child);
    assert Linked(forest, roots, depths, x) && Linked(forest, roots, depths, forest[x].parent);
  }

  lemma {:induction false} MergedAt(roots: Roots, depths: Depths, parent: IdentityId, child: IdentityId, x: IdentityId)
    requires x in roots && roots.Keys == depths.Keys
    ensures x in MergedRoots(roots, parent, child) && x in MergedDepths(roots, depths, child)
    ensures MergedRoots(roots, parent, child)[x] == if roots[x] == child then parent else roots[x]
    ensures MergedDepths(roots, depths, child)[x] == if roots[x] == child then depths[x] + 1 else depths[x]
  {}

  lemma {:induction false} MergedClasses(roots: Roots, parent: IdentityId, child: IdentityId)
    requires parent != child
    ensures Class(MergedRoots(roots, parent, child), parent) == Class(roots, parent) + Class(roots, child)
    ensures |Class(MergedRoots(roots, parent, child), parent)| == |Class(roots, parent)| + |Class(roots, child)|
  {
    var low, high := Class(roots, child), Class(roots, parent);
    assert Class(MergedRoots(roots, parent, child), parent) == high + low && |high + low| == |high| + |low|;
  }

  lemma {:induction false} OtherClass(roots: Roots, parent: IdentityId, child: IdentityId, root: IdentityId)
    requires root != parent && root != child
    ensures Class(MergedRoots(roots, parent, child), root) == Class(roots, root)
  {}

  lemma {:induction false} LeastOfBoth(x: IdentityId, y: IdentityId, s: set<IdentityId>, t: set<IdentityId>)
    requires IsLeast(x, s) && IsLeast(y, t)
    ensures IsLeast(if x <= y then x else y, s + t)
  {}

  lemma {:induction false} Pow2Doubles(n: nat)
    ensures Pow2(n + 1) == 2 * Pow2(n)
  {}

  /** Every root still knows its class's size and minimum, and no path grew too long for its class. */
  lemma {:induction false} RelinkWeighs(
    forest: Forest, roots: Roots, depths: Depths, parent: IdentityId, child: IdentityId, x: IdentityId)
    requires IsForest(forest, roots, depths) && x in forest
    requires parent in forest && child in forest && parent != child && roots[parent] == parent && roots[child] == child
    requires forest[child].size <= forest[parent].size
    ensures x in Relink(forest, parent, child)
    ensures MergedRoots(roots, parent, child).Keys == Relink(forest, parent, child).Keys
    ensures MergedDepths(roots, depths, child).Keys == Relink(forest, parent, child).Keys
    ensures Weighted(Relink(forest, parent, child), MergedRoots(roots, parent, child),
                     MergedDepths(roots, depths, child), x)
  {
    hide Pow2, Class, IsLeast, MergedRoots, MergedDepths;
    RelinkKeys(forest, roots, depths, parent, child);
    MergedAt(roots, depths, parent, child, x);
    MergedClasses(roots, parent, child);
    assert Weighted(forest, roots, depths, parent) && Weighted(forest, roots, depths, child);
    assert Linked(forest, roots, depths, x) && Weighted(forest, roots, depths, x);
    LeastOfBoth(forest[parent].minimum, forest[child].minimum, Class(roots, parent), Class(roots, child));
    Pow2Doubles(depths[x]);
    if roots[x] != parent && roots[x] != child { OtherClass(roots, parent, child, roots[x]); }
  }

  /** Nothing outside the known identities is connected to a known one. */
  lemma {:induction false} Isolated(
    edges: set<(IdentityId, IdentityId)>, identities: set<IdentityId>, x: IdentityId, y: IdentityId)
    requires Known(edges, identities) && x !in identities && y in identities
    ensures !Connected(edges, x, y) && !Connected(edges, y, x)
  {
    var outside := iset z: IdentityId | z !in identities;
    var inside := iset z: IdentityId | z in identities;
    assert Closed(edges, outside) && Closed(edges, inside);
    if Connected(edges, x, y) { StaysInside(edges, outside, x, y); }
    if Connected(edges, y, x) { StaysInside(edges, inside, y, x); }
  }

  // ----- union by size -----

  function Relink(forest: Forest, parent: IdentityId, child: IdentityId): Forest
    requires parent in forest && child in forest
  {
    var minimum :=
      if forest[parent].minimum <= forest[child].minimum then forest[parent].minimum else forest[child].minimum;
    forest[child := forest[child].(parent := parent)]
          [parent := forest[parent].(minimum := minimum, size := forest[parent].size + forest[child].size)]
  }

  function MergedRoots(roots: Roots, parent: IdentityId, child: IdentityId): Roots {
    map x | x in roots :: if roots[x] == child then parent else roots[x]
  }

  function MergedDepths(roots: Roots, depths: Depths, child: IdentityId): Depths
    requires roots.Keys == depths.Keys
  {
    map x | x in depths :: if roots[x] == child then depths[x] + 1 else depths[x]
  }

  lemma {:induction false} RelinkKeepsForest(
    forest: Forest, roots: Roots, depths: Depths, parent: IdentityId, child: IdentityId)
    requires IsForest(forest, roots, depths)
    requires parent in forest && child in forest && parent != child
    requires roots[parent] == parent && roots[child] == child
    requires forest[child].size <= forest[parent].size
    ensures IsForest(Relink(forest, parent, child), MergedRoots(roots, parent, child),
                     MergedDepths(roots, depths, child))
  {
    hide Linked, Weighted, MergedRoots, MergedDepths, Relink;
    RelinkKeys(forest, roots, depths, parent, child);
    var forest', roots' := Relink(forest, parent, child), MergedRoots(roots, parent, child);
    var depths' := MergedDepths(roots, depths, child);
    forall x | x in forest' ensures Linked(forest', roots', depths', x) && Weighted(forest', roots', depths', x) {
      RelinkLinks(forest, roots, depths, parent, child, x);
      RelinkWeighs(forest, roots, depths, parent, child, x);
    }
  }

  lemma {:induction false} UnionRepresents(
    roots: Roots, edges: set<(IdentityId, IdentityId)>,
    left: IdentityId, right: IdentityId, parent: IdentityId, child: IdentityId)
    requires Represents(roots, edges)
    requires left in roots && right in roots && roots[left] != roots[right]
    requires (parent == roots[left] && child == roots[right]) || (parent == roots[right] && child == roots[left])
    ensures Represents(MergedRoots(roots, parent, child), edges + {(left, right)})
  {
    var roots' := MergedRoots(roots, parent, child);
    forall x, y | x in roots' && y in roots'
      ensures roots'[x] == roots'[y] <==> Connected(edges + {(left, right)}, x, y)
    {
      AddEdge(edges, left, right, x, y);
    }
  }

  /** An edge inside one class changes no component. */
  lemma {:induction false} RedundantEdge(
    roots: Roots, edges: set<(IdentityId, IdentityId)>, left: IdentityId, right: IdentityId)
    requires Represents(roots, edges)
    requires left in roots && right in roots && roots[left] == roots[right]
    ensures Represents(roots, edges + {(left, right)})
  {
    forall x, y | x in roots && y in roots
      ensures roots[x] == roots[y] <==> Connected(edges + {(left, right)}, x, y)
    {
      AddEdge(edges, left, right, x, y);
    }
  }
}
