/** The joint distribution a factor graph stands for, and how its sums factor over separate parts. */
module JointSums {
  import opened Sums
  import opened Sorting
  import opened FactorGraphs
  import opened SumProduct
  import opened Topology

  /** The values an assignment gives a scope. */
  function Values(variables: seq<nat>, a: Assignment): (values: seq<nat>)
    ensures |values| == |variables|
  {
    seq(|variables|, p requires 0 <= p < |variables| => At(a, variables[p]))
  }

  ghost function Potential(t: FactorTable, a: Assignment): real
    requires |t.variables| == |t.cardinalities|
  {
    Read(t.potentials, Index(t.cardinalities, Values(t.variables, a)))
  }

  /** A variable node weighs its prior, a factor node its potential. */
  ghost function Weight(g: FactorGraph, c: SumProductConfig, x: nat, a: Assignment): real
    requires Compiled(g)
  {
    if x < |g.cardinalities| then Prior(c, g.cardinalities[x], At(a, x))
    else if x < Nodes(g) then
      assert ValidTable(g.factors[x - |g.cardinalities|]);
      Potential(g.factors[x - |g.cardinalities|], a)
    else 1.0
  }

  /** The product of the weights of the nodes in `nodes` below `m`. */
  ghost function Product(g: FactorGraph, c: SumProductConfig, nodes: set<nat>, m: nat, a: Assignment): real
    requires Compiled(g)
  {
    if m == 0 then 1.0
    else Product(g, c, nodes, m - 1, a) * (if m - 1 in nodes then Weight(g, c, m - 1, a) else 1.0)
  }

  ghost function NodesWeight(g: FactorGraph, c: SumProductConfig, nodes: set<nat>): Assignment -> real
    requires Compiled(g)
  {
    (a: Assignment) => Product(g, c, nodes, Nodes(g), a)
  }

  /** The sum over the variables in `over` of the weight of `nodes`; the other variables are as in `a`. */
  ghost function Z(g: FactorGraph, c: SumProductConfig, over: set<nat>, nodes: set<nat>, a: Assignment): real
    requires Compiled(g)
  {
    SumOver(over, |g.cardinalities|, g.cardinalities, a, NodesWeight(g, c, nodes))
  }

  // ----- weights are positive and look only at their own variables -----

  lemma {:induction false} WeightPositive(g: FactorGraph, c: SumProductConfig, x: nat, a: Assignment)
    requires Compiled(g) && ValidConfig(c)
    ensures Weight(g, c, x, a) > 0.0
  {
    if |g.cardinalities| <= x < Nodes(g) { assert ValidTable(g.factors[x - |g.cardinalities|]); }
  }

  lemma {:induction false} ProductPositiveOver(
    g: FactorGraph, c: SumProductConfig, nodes: set<nat>, m: nat, a: Assignment)
    requires Compiled(g) && ValidConfig(c)
    ensures Product(g, c, nodes, m, a) > 0.0
  {
    hide Compiled, Weight;
    if m > 0 {
      ProductPositiveOver(g, c, nodes, m - 1, a);
      WeightPositive(g, c, m - 1, a);
      ProductPositive(Product(g, c, nodes, m - 1, a), Weight(g, c, m - 1, a));
    }
  }

  lemma {:induction false} ZPositive(
    g: FactorGraph, c: SumProductConfig, over: set<nat>, nodes: set<nat>, a: Assignment)
    requires Compiled(g) && ValidConfig(c)
    ensures Z(g, c, over, nodes, a) > 0.0
  {
    forall b ensures NodesWeight(g, c, nodes)(b) > 0.0 { ProductPositiveOver(g, c, nodes, Nodes(g), b); }
    SumOverPositive(over, |g.cardinalities|, g.cardinalities, a, NodesWeight(g, c, nodes));
  }

  /** The variables a node's weight looks at. */
  ghost predicate Touches(g: FactorGraph, x: nat, v: nat) {
    if x < |g.cardinalities| then v == x
    else x < Nodes(g) && v in g.factors[x - |g.cardinalities|].variables
  }

  /** No node of `nodes` looks at a variable of `over`. */
  ghost predicate Apart(g: FactorGraph, nodes: set<nat>, over: set<nat>) {
    forall x: nat, v: nat {:trigger Touches(g, x, v)} :: x in nodes && v in over ==> !Touches(g, x, v)
  }

  ghost predicate AgreeOn(g: FactorGraph, x: nat, a: Assignment, b: Assignment) {
    forall v: nat {:trigger At(a, v)} :: Touches(g, x, v) ==> At(a, v) == At(b, v)
  }

  lemma {:induction false} WeightLooks(g: FactorGraph, c: SumProductConfig, x: nat, a: Assignment, b: Assignment)
    requires Compiled(g) && AgreeOn(g, x, a, b)
    ensures Weight(g, c, x, a) == Weight(g, c, x, b)
  {
    if x < |g.cardinalities| {
      assert Touches(g, x, x);
    } else if x < Nodes(g) {
      var t := g.factors[x - |g.cardinalities|];
      assert ValidTable(t);
      forall p | 0 <= p < |t.variables| ensures Values(t.variables, a)[p] == Values(t.variables, b)[p] {
        assert Touches(g, x, t.variables[p]);
      }
      assert Values(t.variables, a) == Values(t.variables, b);
    }
  }

  lemma {:induction false} ProductLooks(
    g: FactorGraph, c: SumProductConfig, nodes: set<nat>, m: nat, a: Assignment, b: Assignment)
    requires Compiled(g) && forall x: nat {:trigger AgreeOn(g, x, a, b)} :: x in nodes ==> AgreeOn(g, x, a, b)
    ensures Product(g, c, nodes, m, a) == Product(g, c, nodes, m, b)
  {
    hide Compiled, Weight, AgreeOn;
    if m > 0 {
      var last: nat := m - 1;
      ProductLooks(g, c, nodes, last, a, b);
      if last in nodes { WeightLooks(g, c, last, a, b); }
    }
  }

  lemma {:induction false} ApartIsBlind(g: FactorGraph, c: SumProductConfig, nodes: set<nat>, over: set<nat>)
    requires Compiled(g) && Apart(g, nodes, over)
    ensures Blind(NodesWeight(g, c, nodes), over)
  {
    var weight := NodesWeight(g, c, nodes);
    forall a: Assignment, v: nat, s: nat {:trigger weight(a[v := s])} | v in over
      ensures weight(a[v := s]) == weight(a)
    {
      forall x: nat | x in nodes ensures AgreeOn(g, x, a[v := s], a) {
        assert !Touches(g, x, v);
      }
      ProductLooks(g, c, nodes, Nodes(g), a[v := s], a);
    }
  }

  // ----- assignments that read alike -----

  ghost predicate Like(a: Assignment, b: Assignment) { forall v: nat {:trigger At(a, v)} :: At(a, v) == At(b, v) }

  lemma {:induction false} LikeUpdate(a: Assignment, b: Assignment, v: nat, s: nat)
    requires Like(a, b)
    ensures Like(a[v := s], b[v := s])
  {
    var a', b' := a[v := s], b[v := s];
    forall x: nat {:trigger At(a', x)} ensures At(a', x) == At(b', x) { assert At(a, x) == At(b, x); }
  }

  lemma {:induction false} SumOverLike(
    over: set<nat>, n: nat, card: seq<nat>, a: Assignment, b: Assignment, f: Assignment -> real)
    requires n <= |card| && Like(a, b)
    requires forall x, y {:trigger f(x), f(y)} :: Like(x, y) ==> f(x) == f(y)
    ensures SumOver(over, n, card, a, f) == SumOver(over, n, card, b, f)
  {
    if n > 0 {
      var m: nat := n - 1;
      if m in over {
        var left := (s: nat) => SumOver(over, m, card, a[m := s], f);
        var right := (s: nat) => SumOver(over, m, card, b[m := s], f);
        forall s: nat | s < card[m] ensures left(s) == right(s) {
          LikeUpdate(a, b, m, s);
          SumOverLike(over, m, card, a[m := s], b[m := s], f);
        }
        SumSame(card[m], left, right);
      } else {
        SumOverLike(over, m, card, a, b, f);
      }
    }
  }

  lemma {:induction false} ZLike(
    g: FactorGraph, c: SumProductConfig, over: set<nat>, nodes: set<nat>, a: Assignment, b: Assignment)
    requires Compiled(g) && Like(a, b)
    ensures Z(g, c, over, nodes, a) == Z(g, c, over, nodes, b)
  {
    var weight := NodesWeight(g, c, nodes);
    forall x, y | Like(x, y) ensures weight(x) == weight(y) {
      ProductLooks(g, c, nodes, Nodes(g), x, y);
    }
    SumOverLike(over, |g.cardinalities|, g.cardinalities, a, b, weight);
  }

  // ----- separate parts -----

  /** A factor that belongs to at most one of two products can be multiplied in before or after them. */
  lemma {:induction false} RegroupOne(x: real, y: real, w: real, inFirst: bool, inSecond: bool)
    requires !(inFirst && inSecond)
    ensures (x * y) * (if inFirst || inSecond then w else 1.0) ==
            (x * (if inFirst then w else 1.0)) * (y * (if inSecond then w else 1.0))
  {
    Regroup(x, y, w);
  }

  lemma {:induction false} ProductStep(g: FactorGraph, c: SumProductConfig, nodes: set<nat>, m: nat, a: Assignment)
    requires Compiled(g) && m > 0
    ensures Product(g, c, nodes, m, a) ==
            Product(g, c, nodes, m - 1, a) * (if m - 1 in nodes then Weight(g, c, m - 1, a) else 1.0)
  {
    hide Compiled, Weight;
  }

  lemma {:induction false} ProductStart(g: FactorGraph, c: SumProductConfig, nodes: set<nat>, a: Assignment)
    requires Compiled(g)
    ensures Product(g, c, nodes, 0, a) == 1.0
  {}

  lemma {:induction false} ProductSplits(
    g: FactorGraph, c: SumProductConfig, first: set<nat>, second: set<nat>, m: nat, a: Assignment)
    requires Compiled(g) && first !! second
    ensures Product(g, c, first + second, m, a) == Product(g, c, first, m, a) * Product(g, c, second, m, a)
  {
    hide Compiled, Weight, Product;
    if m == 0 {
      ProductStart(g, c, first + second, a);
      ProductStart(g, c, first, a);
      ProductStart(g, c, second, a);
    } else {
      var last: nat := m - 1;
      ProductSplits(g, c, first, second, last, a);
      ProductStep(g, c, first + second, m, a);
      ProductStep(g, c, first, m, a);
      ProductStep(g, c, second, m, a);
      RegroupOne(Product(g, c, first, last, a), Product(g, c, second, last, a), Weight(g, c, last, a), last in first,
                 last in second);
    }
  }

  lemma {:induction false} Regroup(x: real, y: real, w: real)
    ensures (x * y) * w == (x * w) * y == x * (y * w)
  {}

  /** Sums over parts that do not look at each other's variables multiply. */
  lemma {:induction false} ZSplits(
    g: FactorGraph, c: SumProductConfig, over: set<nat>, nodes: set<nat>, over': set<nat>, nodes': set<nat>,
    a: Assignment)
    requires Compiled(g) && over !! over' && nodes !! nodes'
    requires Apart(g, nodes, over') && Apart(g, nodes', over)
    ensures Z(g, c, over + over', nodes + nodes', a) == Z(g, c, over, nodes, a) * Z(g, c, over', nodes', a)
  {
    hide Compiled, Product, Apart;
    var n, card := |g.cardinalities|, g.cardinalities;
    var w, w', both := NodesWeight(g, c, nodes), NodesWeight(g, c, nodes'), NodesWeight(g, c, nodes + nodes');
    var inner := (b: Assignment) => SumOver(over', n, card, b, both);
    var rest := (b: Assignment) => SumOver(over', n, card, b, w');
    ApartIsBlind(g, c, nodes, over');
    ApartIsBlind(g, c, nodes', over);
    forall b ensures both(b) == w'(b) * w(b) { ProductSplits(g, c, nodes, nodes', Nodes(g), b); }
    forall b ensures inner(b) == w(b) * rest(b) { SumOverScale(over', n, card, b, w', w, both); }
    forall b: Assignment, v: nat, s: nat {:trigger rest(b[v := s])} | v in over ensures rest(b[v := s]) == rest(b) {
      SumOverBlind(over', n, card, b, w', v, s);
    }
    SumOverNest(over, over', n, card, a, both, inner);
    SumOverScale(over, n, card, a, w, rest, inner);
  }

  /** Some nodes, and the variables to sum over. */
  datatype Part = Part(over: set<nat>, nodes: set<nat>)

  ghost predicate Separate(g: FactorGraph, p: Part, q: Part) {
    p.over !! q.over && p.nodes !! q.nodes && Apart(g, p.nodes, q.over) && Apart(g, q.nodes, p.over)
  }

  ghost function PartZ(g: FactorGraph, c: SumProductConfig, p: Part, a: Assignment): real
    requires Compiled(g)
  {
    Z(g, c, p.over, p.nodes, a)
  }

  ghost function Join(p: Part, q: Part): Part { Part(p.over + q.over, p.nodes + q.nodes) }

  /** The parts of the listed edges other than `skip`, together. */
  ghost function Together(list: seq<nat>, skip: nat, part: nat -> Part): Part {
    if list == [] then Part({}, {})
    else if list[|list| - 1] == skip then Together(list[..|list| - 1], skip, part)
    else Join(Together(list[..|list| - 1], skip, part), part(list[|list| - 1]))
  }

  lemma {:induction false} TogetherMembers(list: seq<nat>, skip: nat, part: nat -> Part, x: nat)
    ensures x in Together(list, skip, part).nodes <==> exists d :: d in list && d != skip && x in part(d).nodes
    ensures x in Together(list, skip, part).over <==> exists d :: d in list && d != skip && x in part(d).over
  {
    if list != [] {
      var last := list[|list| - 1];
      TogetherMembers(list[..|list| - 1], skip, part, x);
      assert forall d :: d in list <==> d in list[..|list| - 1] || d == last;
    }
  }

  ghost predicate AllSeparate(g: FactorGraph, list: seq<nat>, skip: nat, part: nat -> Part) {
    forall i, j :: 0 <= i < j < |list| && list[i] != skip && list[j] != skip ==>
        Separate(g, part(list[i]), part(list[j]))
  }

  lemma {:induction false} SeparateFromTogether(g: FactorGraph, list: seq<nat>, skip: nat, part: nat -> Part, q: Part)
    requires forall i :: 0 <= i < |list| && list[i] != skip ==> Separate(g, part(list[i]), q)
    ensures Separate(g, Together(list, skip, part), q)
  {
    if list != [] {
      SeparateFromTogether(g, list[..|list| - 1], skip, part, q);
      if list[|list| - 1] != skip {
        var p, r := Together(list[..|list| - 1], skip, part), part(list[|list| - 1]);
        assert Separate(g, p, q) && Separate(g, r, q);
        SeparateJoin(g, p, r, q);
      }
    }
  }

  lemma {:induction false} SeparateJoin(g: FactorGraph, p: Part, r: Part, q: Part)
    requires Separate(g, p, q) && Separate(g, r, q)
    ensures Separate(g, Join(p, r), q)
  {}

  lemma {:induction false} EmptyPart(g: FactorGraph, c: SumProductConfig, a: Assignment)
    requires Compiled(g)
    ensures PartZ(g, c, Part({}, {}), a) == 1.0
  {
    SumOverNone({}, |g.cardinalities|, g.cardinalities, a, NodesWeight(g, c, {}));
    EmptyProduct(g, c, Nodes(g), a);
  }

  lemma {:induction false} EmptyProduct(g: FactorGraph, c: SumProductConfig, m: nat, a: Assignment)
    requires Compiled(g)
    ensures Product(g, c, {}, m, a) == 1.0
  {
    if m > 0 { EmptyProduct(g, c, m - 1, a); }
  }

  /** Separate parts multiply, however many there are. */
  lemma {:induction false} PartsMultiply(
    g: FactorGraph, c: SumProductConfig, list: seq<nat>, skip: nat, part: nat -> Part, term: nat -> real, a: Assignment)
    requires Compiled(g) && AllSeparate(g, list, skip, part)
    requires forall d: nat :: term(d) == PartZ(g, c, part(d), a)
    ensures Others(list, skip, term) == PartZ(g, c, Together(list, skip, part), a)
  {
    if list == [] {
      EmptyPart(g, c, a);
    } else {
      var shorter, last := list[..|list| - 1], list[|list| - 1];
      PartsMultiply(g, c, shorter, skip, part, term, a);
      if last != skip {
        SeparateFromTogether(g, shorter, skip, part, part(last));
        var p, q := Together(shorter, skip, part), part(last);
        ZSplits(g, c, p.over, p.nodes, q.over, q.nodes, a);
      }
    }
  }

  /** A node whose weight looks at no summed variable multiplies the sum. */
  lemma {:induction false} ZWithNode(
    g: FactorGraph, c: SumProductConfig, over: set<nat>, nodes: set<nat>, x: nat, a: Assignment)
    requires Compiled(g) && x !in nodes && x < Nodes(g) && Apart(g, {x}, over)
    ensures Z(g, c, over, {x} + nodes, a) == Weight(g, c, x, a) * Z(g, c, over, nodes, a)
  {
    hide Product, Weight, SumOver;
    ZSplits(g, c, {}, {x}, over, nodes, a);
    assert {} + over == over;
    SumOverNone({}, |g.cardinalities|, g.cardinalities, a, NodesWeight(g, c, {x}));
    OneNode(g, c, x, Nodes(g), a);
  }

  lemma {:induction false} OneNode(g: FactorGraph, c: SumProductConfig, x: nat, m: nat, a: Assignment)
    requires Compiled(g)
    ensures Product(g, c, {x}, m, a) == if x < m then Weight(g, c, x, a) else 1.0
  {
    if m > 0 { OneNode(g, c, x, m - 1, a); }
  }

  // ----- a table as a sum over assignments -----

  ghost function ScopeFrom(t: FactorTable, p: nat): set<nat> { set q | p <= q < |t.variables| :: t.variables[q] }

  /** The cardinalities of a table are those of its variables. */
  ghost predicate TableFits(t: FactorTable, card: seq<nat>) {
    && ValidTable(t)
    && forall p: nat {:trigger t.variables[p]} ::
         p < |t.variables| ==> t.variables[p] < |card| && card[t.variables[p]] == t.cardinalities[p]
  }

  ghost function TailIndex(t: FactorTable, p: nat, b: Assignment): nat
    requires p <= |t.variables| == |t.cardinalities|
  {
    Index(t.cardinalities[p..], Values(t.variables[p..], b))
  }

  /** `f` reads the table entry that an assignment of the variables from position `p` on selects after `base`. */
  ghost predicate ReadsTail(
    t: FactorTable, p: nat, card: seq<nat>, a: Assignment, base: nat, entry: nat -> real, f: Assignment -> real)
    requires TableFits(t, card) && p <= |t.variables|
  {
    forall b {:trigger f(b)} :: Within(a, b, ScopeFrom(t, p), |card|, card) ==> f(b) == entry(base + TailIndex(t, p, b))
  }

  lemma {:induction false} TailIndexStep(t: FactorTable, p: nat, b: Assignment)
    requires ValidTable(t) && p < |t.variables|
    ensures TailIndex(t, p, b) == At(b, t.variables[p]) * Size(t.cardinalities[p + 1..]) + TailIndex(t, p + 1, b)
    ensures Size(t.cardinalities[p..]) == t.cardinalities[p] * Size(t.cardinalities[p + 1..])
  {
    assert t.cardinalities[p..][1..] == t.cardinalities[p + 1..];
    assert Values(t.variables[p..], b)[1..] == Values(t.variables[p + 1..], b);
  }

  lemma {:induction false} ScopeStep(t: FactorTable, p: nat)
    requires ValidTable(t) && p < |t.variables|
    ensures ScopeFrom(t, p) == {t.variables[p]} + ScopeFrom(t, p + 1)
    ensures t.variables[p] !in ScopeFrom(t, p + 1)
  {}

  lemma {:induction false} WithinSlice(
    a: Assignment, b: Assignment, v: nat, s: nat, rest: set<nat>, n: nat, card: seq<nat>)
    requires v < n <= |card| && s < card[v] && v !in rest
    requires Within(a[v := s], b, rest, n, card)
    ensures At(b, v) == s && Within(a, b, {v} + rest, n, card)
  {
    assert At(b, v) == At(a[v := s], v) == s;
    forall x: nat | !(x in {v} + rest && x < n) ensures At(b, x) == At(a, x) {
      assert At(b, x) == At(a[v := s], x);
    }
  }

  /** The table from position `p` on is one block per value of the variable there. */
  lemma {:induction false} TailBlocks(t: FactorTable, p: nat, card: seq<nat>, entry: nat -> real, base: nat)
    requires TableFits(t, card) && p < |t.variables|
    ensures var width := Size(t.cardinalities[p + 1..]);
            BlockSum(Size(t.cardinalities[p..]), entry, base) ==
            Sum(card[t.variables[p]], (s: nat) => BlockSum(width, entry, BlockStart(base, s, width)))
  {
    hide BlockSum, Size;
    TailIndexStep(t, p, map[]);
    BlockSums(card[t.variables[p]], Size(t.cardinalities[p + 1..]), entry, base);
  }

  lemma {:induction false} ReadsSlice(
    t: FactorTable, p: nat, card: seq<nat>, a: Assignment, base: nat, entry: nat -> real, f: Assignment -> real, s: nat)
    requires TableFits(t, card) && p < |t.variables| && s < card[t.variables[p]]
    requires ReadsTail(t, p, card, a, base, entry, f)
    ensures ReadsTail(
              t, p + 1, card, a[t.variables[p] := s], BlockStart(base, s, Size(t.cardinalities[p + 1..])), entry, f)
  {
    hide TailIndex, Within, ScopeFrom;
    var n, v, width := |card|, t.variables[p], Size(t.cardinalities[p + 1..]);
    ScopeStep(t, p);
    forall b {:trigger f(b)} | Within(a[v := s], b, ScopeFrom(t, p + 1), n, card)
      ensures f(b) == entry(base + s * width + TailIndex(t, p + 1, b))
    {
      WithinSlice(a, b, v, s, ScopeFrom(t, p + 1), n, card);
      TailIndexStep(t, p, b);
    }
  }

  /** Running through a table's entries from `base` is summing over the variables from position `p` on. */
  lemma {:induction false} TableTail(
    t: FactorTable, p: nat, card: seq<nat>, a: Assignment, base: nat, entry: nat -> real, f: Assignment -> real)
    requires TableFits(t, card) && p <= |t.variables| && ReadsTail(t, p, card, a, base, entry, f)
    ensures BlockSum(Size(t.cardinalities[p..]), entry, base) == SumOver(ScopeFrom(t, p), |card|, card, a, f)
    decreases |t.variables| - p
  {
    hide ReadsTail, Within, SumOver, BlockSum, BlockStart, Size;
    if p == |t.variables| {
      TableEnd(t, card, a, base, entry, f);
    } else {
      var v, rest, width := t.variables[p], ScopeFrom(t, p + 1), Size(t.cardinalities[p + 1..]);
      ScopeStep(t, p);
      TailBlocks(t, p, card, entry, base);
      SumOverPeel(v, rest, |card|, card, a, f);
      var blocks := (s: nat) => BlockSum(width, entry, BlockStart(base, s, width));
      var slices := (s: nat) => SumOver(rest, |card|, card, a[v := s], f);
      forall s: nat | s < card[v] ensures blocks(s) == slices(s) {
        ReadsSlice(t, p, card, a, base, entry, f, s);
        TableTail(t, p + 1, card, a[v := s], BlockStart(base, s, width), entry, f);
      }
      SumSame(card[v], blocks, slices);
    }
  }

  lemma {:induction false} TableEnd(
    t: FactorTable, card: seq<nat>, a: Assignment, base: nat, entry: nat -> real, f: Assignment -> real)
    requires TableFits(t, card) && ReadsTail(t, |t.variables|, card, a, base, entry, f)
    ensures BlockSum(Size(t.cardinalities[|t.variables|..]), entry, base) ==
            SumOver(ScopeFrom(t, |t.variables|), |card|, card, a, f)
  {
    var scope := ScopeFrom(t, |t.variables|);
    SumOverNone(scope, |card|, card, a, f);
    assert Within(a, a, scope, |card|, card);
    var whole := (r: nat) => entry(base + r);
    assert f(a) == entry(base + TailIndex(t, |t.variables|, a));
    assert Sum(1, whole) == Sum(0, whole) + whole(0);
  }

  lemma {:induction false} SumOverZero(over: set<nat>, n: nat, card: seq<nat>, a: Assignment, f: Assignment -> real)
    requires n <= |card| && forall b :: Within(a, b, over, n, card) ==> f(b) == 0.0
    ensures SumOver(over, n, card, a, f) == 0.0
  {
    var zero := (b: Assignment) => 0.0;
    var none := (b: Assignment) => 0.0;
    SumOverSame(over, n, card, a, f, zero);
    SumOverScale(over, n, card, a, zero, none, zero);
  }
}
