/** Dense factor tables and the factor graph the solver compiles from them.

    Log potentials are modelled by the positive reals they are logarithms of, so a non-finite
    potential is one that is not positive.
  */
module FactorGraphs {
  import opened Types
  import opened Sorting

  /** The largest machine size. */
  const MAX_SIZE: nat := 0xFFFF_FFFF_FFFF_FFFF

  datatype FactorTable = FactorTable(variables: seq<nat>, cardinalities: seq<nat>, potentials: seq<real>)

  datatype FactorError =
    | EmptyFactorScope
    | DuplicateFactorVariable
    | InvalidCardinality
    | FactorTableLength(expected: nat, actual: nat)
    | NonFinitePotential

  /** The number of joint assignments of variables with these cardinalities. */
  function Size(cardinalities: seq<nat>): nat {
    if cardinalities == [] then 1 else cardinalities[0] * Size(cardinalities[1..])
  }

  predicate AllPositive(cardinalities: seq<nat>) { forall p :: 0 <= p < |cardinalities| ==> cardinalities[p] > 0 }

  predicate AllFinite(potentials: seq<real>) { forall i :: 0 <= i < |potentials| ==> potentials[i] > 0.0 }

  predicate ValidTable(t: FactorTable) {
    && 0 < |t.variables| == |t.cardinalities|
    && Distinct(t.variables)
    && AllPositive(t.cardinalities)
    && Size(t.cardinalities) == |t.potentials| <= MAX_SIZE
    && AllFinite(t.potentials)
  }

  lemma {:induction false} SizePositive(cardinalities: seq<nat>)
    requires AllPositive(cardinalities)
    ensures Size(cardinalities) > 0
  {
    if cardinalities != [] {
      SizePositive(cardinalities[1..]);
      assert cardinalities[0] > 0;
    }
  }

  /** Sizes multiply along a scope. */
  lemma {:induction false} SizeSplits(cardinalities: seq<nat>, p: nat)
    requires p <= |cardinalities|
    ensures Size(cardinalities) == Size(cardinalities[..p]) * Size(cardinalities[p..])
  {
    if p == 0 {
      assert cardinalities[..0] == [] && cardinalities[0..] == cardinalities;
    } else {
      var rest := cardinalities[1..];
      SizeSplits(rest, p - 1);
      assert rest[..p - 1] == cardinalities[..p][1..] && rest[p - 1..] == cardinalities[p..];
      TripleProduct(cardinalities[0], Size(rest[..p - 1]), Size(rest[p - 1..]));
    }
  }

  lemma {:induction false} TripleProduct(x: nat, y: nat, z: nat)
    ensures x * (y * z) == (x * y) * z
  {}

  lemma {:induction false} SizeExtends(cardinalities: seq<nat>, p: nat)
    requires p < |cardinalities|
    ensures Size(cardinalities[..p + 1]) == Size(cardinalities[..p]) * cardinalities[p]
  {
    var longer := cardinalities[..p + 1];
    SizeSplits(longer, p);
    assert longer[..p] == cardinalities[..p] && longer[p..] == [cardinalities[p]];
    assert Size([cardinalities[p]]) == cardinalities[p] * Size([cardinalities[p]][1..]);
  }

  lemma {:induction false} SizeGrows(cardinalities: seq<nat>, p: nat)
    requires p <= |cardinalities| && AllPositive(cardinalities)
    ensures Size(cardinalities[..p]) <= Size(cardinalities)
    ensures Size(cardinalities[p..]) <= Size(cardinalities)
  {
    SizeSplits(cardinalities, p);
    SizePositive(cardinalities[..p]);
    SizePositive(cardinalities[p..]);
    Multiple(Size(cardinalities[..p]), Size(cardinalities[p..]));
  }

  lemma {:induction false} Multiple(x: nat, y: nat)
    requires x > 0 && y > 0
    ensures x <= x * y && y <= x * y
  {
    assert x * y == x + x * (y - 1) == y + (x - 1) * y;
  }

  method HasEqualNeighbours(s: seq<nat>) returns (found: bool)
    ensures found <==> !NeighboursDiffer(s)
  {
    var i := 1;
    while i < |s|
      invariant 1 <= i
      invariant forall j {:trigger s[j]} :: 0 < j < i && j < |s| ==> s[j - 1] != s[j]
    {
      if s[i - 1] == s[i] {
        return true;
      }
      i := i + 1;
    }
    return false;
  }

  /** Whether sorting a copy brings two equal variables side by side. */
  method HasDuplicate(variables: seq<nat>) returns (found: bool)
    ensures found <==> !Distinct(variables)
  {
    hide Distinct, NeighboursDiffer;
    NeighboursShowDuplicates(variables);
    found := HasEqualNeighbours(Sort(variables));
  }

  /** The checked product of the cardinalities; `None` for a zero or an overflow. */
  method TableSize(cardinalities: seq<nat>) returns (size: Option<nat>)
    ensures size.Some? <==> AllPositive(cardinalities) && Size(cardinalities) <= MAX_SIZE
    ensures size.Some? ==> size.value == Size(cardinalities)
  {
    var expected := 1;
    var p := 0;
    while p < |cardinalities|
      invariant 0 <= p <= |cardinalities|
      invariant AllPositive(cardinalities[..p])
      invariant expected == Size(cardinalities[..p]) <= MAX_SIZE
    {
      SizeExtends(cardinalities, p);
      if cardinalities[p] == 0 {
        return None;
      }
      if expected * cardinalities[p] > MAX_SIZE {
        if AllPositive(cardinalities) { SizeGrows(cardinalities, p + 1); }
        return None;
      }
      expected := expected * cardinalities[p];
      p := p + 1;
    }
    assert cardinalities[..p] == cardinalities;
    return Some(expected);
  }

  method HasNonFinite(potentials: seq<real>) returns (found: bool)
    ensures found <==> !AllFinite(potentials)
  {
    var k := 0;
    while k < |potentials|
      invariant 0 <= k <= |potentials|
      invariant forall j :: 0 <= j < k ==> potentials[j] > 0.0
    {
      if potentials[k] <= 0.0 {
        return true;
      }
      k := k + 1;
    }
    return false;
  }

  /** Validates a dense table; each refusal comes exactly when no earlier check refuses. */
  method NewFactorTable(variables: seq<nat>, cardinalities: seq<nat>, potentials: seq<real>)
    returns (r: Result<FactorTable, FactorError>)
    ensures r == Err(EmptyFactorScope) <==> variables == [] || |variables| != |cardinalities|
    ensures r == Err(DuplicateFactorVariable) <==>
            0 < |variables| == |cardinalities| && !Distinct(variables)
    ensures r == Err(InvalidCardinality) <==>
            && 0 < |variables| == |cardinalities| && Distinct(variables)
            && !(AllPositive(cardinalities) && Size(cardinalities) <= 0xFFFF_FFFF_FFFF_FFFF)
    ensures r.Ok? <==> ValidTable(FactorTable(variables, cardinalities, potentials))
    ensures r.Ok? ==> r.value == FactorTable(variables, cardinalities, potentials)
    ensures r.Err? && r.error.FactorTableLength? ==>
              r.error.expected == Size(cardinalities) != |potentials| == r.error.actual
    ensures r == Err(NonFinitePotential) ==> Size(cardinalities) == |potentials| && !AllFinite(potentials)
  {
    hide Distinct, AllPositive, AllFinite, Size;
    if variables == [] || |variables| != |cardinalities| {
      return Err(EmptyFactorScope);
    }
    var duplicate := HasDuplicate(variables);
    if duplicate {
      return Err(DuplicateFactorVariable);
    }
    var size := TableSize(cardinalities);
    if size.None? {
      return Err(InvalidCardinality);
    }
    if size.value != |potentials| {
      return Err(FactorTableLength(size.value, |potentials|));
    }
    var nonFinite := HasNonFinite(potentials);
    if nonFinite {
      return Err(NonFinitePotential);
    }
    return Ok(FactorTable(variables, cardinalities, potentials));
  }

  // ----- row-major indexing -----

  /** The distance in the table between neighbouring values of the variable at position `p`. */
  function Stride(cardinalities: seq<nat>, p: nat): nat
    requires p < |cardinalities|
  {
    Size(cardinalities[p + 1..])
  }

  /** The value of the variable at position `p` in table entry `flat`. */
  function Digit(cardinalities: seq<nat>, p: nat, flat: nat): nat
    requires p < |cardinalities| && AllPositive(cardinalities)
  {
    SizePositive(cardinalities[p + 1..]);
    (flat / Stride(cardinalities, p)) % cardinalities[p]
  }

  predicate InRange(cardinalities: seq<nat>, values: seq<nat>) {
    |values| == |cardinalities| && forall p :: 0 <= p < |values| ==> values[p] < cardinalities[p]
  }

  /** The table entry of a joint assignment, in row-major order. */
  function Index(cardinalities: seq<nat>, values: seq<nat>): nat
    requires |values| == |cardinalities|
  {
    if values == [] then 0 else values[0] * Size(cardinalities[1..]) + Index(cardinalities[1..], values[1..])
  }

  function Digits(cardinalities: seq<nat>, flat: nat): (values: seq<nat>)
    requires AllPositive(cardinalities)
    ensures |values| == |cardinalities|
  {
    seq(|cardinalities|, p requires 0 <= p < |cardinalities| => Digit(cardinalities, p, flat))
  }

  lemma {:induction false} IndexBelowSize(cardinalities: seq<nat>, values: seq<nat>)
    requires InRange(cardinalities, values) && AllPositive(cardinalities)
    ensures Index(cardinalities, values) < Size(cardinalities)
  {
    if values != [] {
      IndexBelowSize(cardinalities[1..], values[1..]);
      var width := Size(cardinalities[1..]);
      Scaled(values[0] + 1, cardinalities[0], width);
      assert (values[0] + 1) * width == values[0] * width + width;
    }
  }

  lemma {:induction false} Scaled(x: nat, y: nat, width: nat)
    requires x <= y
    ensures x * width <= y * width
  {
    assert y * width == x * width + (y - x) * width;
  }

  lemma {:induction false} QuotientUnique(width: nat, block: nat, offset: nat, quotient: nat, remainder: nat)
    requires block * width + offset == quotient * width + remainder
    requires offset < width && remainder < width
    ensures block == quotient && offset == remainder
  {
    if block < quotient {
      Scaled(block + 1, quotient, width);
    } else if quotient < block {
      Scaled(quotient + 1, block, width);
    }
  }

  lemma {:induction false} DivideBlock(block: nat, width: nat, offset: nat)
    requires offset < width
    ensures (block * width + offset) / width == block && (block * width + offset) % width == offset
  {
    var x := block * width + offset;
    QuotientUnique(width, block, offset, x / width, x % width);
  }

  /** Within a block, later digits do not see the block's number. */
  lemma {:induction false} DigitIgnoresBlock(
    block: nat, width: nat, offset: nat, stride: nat, cardinality: nat, copies: nat)
    requires stride > 0 && cardinality > 0 && width == copies * (cardinality * stride)
    ensures ((block * width + offset) / stride) % cardinality == (offset / stride) % cardinality
  {
    var skipped := block * copies * cardinality;
    assert block * width == skipped * stride;
    DivideShift(skipped, stride, offset);
    assert skipped == (block * copies) * cardinality;
    RemainderShift(block * copies, cardinality, offset / stride);
  }

  lemma {:induction false} DivideShift(k: nat, d: nat, x: nat)
    requires d > 0
    ensures (k * d + x) / d == k + x / d
  {
    var q, r := x / d, x % d;
    assert x == q * d + r;
    assert k * d + x == (k + q) * d + r;
    DivideBlock(k + q, d, r);
  }

  lemma {:induction false} RemainderShift(k: nat, d: nat, x: nat)
    requires d > 0
    ensures (k * d + x) % d == x % d
  {
    var q, r := x / d, x % d;
    assert x == q * d + r;
    assert k * d + x == (k + q) * d + r;
    DivideBlock(k + q, d, r);
  }

  /** Later digits depend only on the offset within the leading variable's block. */
  lemma {:induction false} TailDigit(cardinalities: seq<nat>, p: nat, block: nat, offset: nat)
    requires AllPositive(cardinalities) && p + 1 < |cardinalities|
    ensures Digit(cardinalities, p + 1, block * Size(cardinalities[1..]) + offset) ==
            Digit(cardinalities[1..], p, offset)
  {
    var rest := cardinalities[1..];
    assert rest[p + 1..] == cardinalities[p + 2..] && rest[p] == cardinalities[p + 1];
    SizeSplits(rest, p);
    assert rest[p..][1..] == rest[p + 1..] && rest[p..][0] == rest[p];
    SizePositive(rest[p + 1..]);
    DigitIgnoresBlock(block, Size(rest), offset, Size(rest[p + 1..]), rest[p], Size(rest[..p]));
  }

  /** Reading the digits of an assignment's table entry gives the assignment back. */
  lemma {:induction false} DigitOfIndex(cardinalities: seq<nat>, values: seq<nat>, p: nat)
    requires InRange(cardinalities, values) && AllPositive(cardinalities) && p < |values|
    ensures Digit(cardinalities, p, Index(cardinalities, values)) == values[p]
  {
    var rest := cardinalities[1..];
    var block, width, offset := values[0], Size(rest), Index(rest, values[1..]);
    IndexBelowSize(rest, values[1..]);
    if p == 0 {
      DivideBlock(block, width, offset);
      DivideBlock(0, cardinalities[0], block);
    } else {
      DigitOfIndex(rest, values[1..], p - 1);
      TailDigit(cardinalities, p - 1, block, offset);
    }
  }

  lemma {:induction false} LeadingDigit(flat: nat, width: nat, blocks: nat)
    requires flat < blocks * width
    ensures width > 0 && flat == (flat / width) * width + flat % width && flat % width < width
    ensures blocks > 0 && (flat / width) % blocks == flat / width
  {
    ZeroProduct(blocks, width);
    Quotient(flat, width);
    BlockInRange(flat / width, width, flat % width, blocks);
    Remainder(flat / width, blocks);
  }

  lemma {:induction false} ZeroProduct(x: nat, y: nat)
    ensures x == 0 || y == 0 ==> x * y == 0
  {}

  lemma {:induction false} Quotient(x: nat, width: nat)
    requires width > 0
    ensures x == (x / width) * width + x % width && x % width < width
  {}

  lemma {:induction false} Remainder(x: nat, bound: nat)
    requires x < bound
    ensures x % bound == x
  {}

  /** Every table entry is the entry of its digits: with DigitOfIndex, table entries and in-range
      assignments correspond one to one. */
  lemma {:induction false} IndexOfDigits(cardinalities: seq<nat>, flat: nat)
    requires AllPositive(cardinalities) && flat < Size(cardinalities)
    ensures InRange(cardinalities, Digits(cardinalities, flat))
    ensures Index(cardinalities, Digits(cardinalities, flat)) == flat
  {
    hide Digit, Size;
    var values := Digits(cardinalities, flat);
    forall p | 0 <= p < |values| ensures values[p] < cardinalities[p] { DigitBelow(cardinalities, p, flat); }
    if cardinalities == [] {
      assert flat == 0 by { SizeOfNothing(); }
    } else {
      var rest := cardinalities[1..];
      assert Size(cardinalities) == cardinalities[0] * Size(rest) by { SizeOfSome(cardinalities); }
      LeadingDigit(flat, Size(rest), cardinalities[0]);
      assert values[0] == flat / Size(rest) by { FirstDigit(cardinalities, flat); }
      var block, offset := flat / Size(rest), flat % Size(rest);
      forall p | 0 <= p < |rest| ensures Digits(rest, offset)[p] == values[1..][p] {
        TailDigit(cardinalities, p, block, offset);
      }
      assert Digits(rest, offset) == values[1..];
      IndexOfDigits(rest, offset);
    }
  }

  lemma {:induction false} SizeOfNothing()
    ensures Size([]) == 1
  {}

  lemma {:induction false} SizeOfSome(cardinalities: seq<nat>)
    requires cardinalities != []
    ensures Size(cardinalities) == cardinalities[0] * Size(cardinalities[1..])
  {}

  lemma {:induction false} FirstDigit(cardinalities: seq<nat>, flat: nat)
    requires AllPositive(cardinalities) && cardinalities != []
    ensures Size(cardinalities[1..]) > 0
    ensures Digit(cardinalities, 0, flat) == (flat / Size(cardinalities[1..])) % cardinalities[0]
  {
    SizePositive(cardinalities[1..]);
  }

  lemma {:induction false} DigitBelow(cardinalities: seq<nat>, p: nat, flat: nat)
    requires AllPositive(cardinalities) && p < |cardinalities|
    ensures Digit(cardinalities, p, flat) < cardinalities[p]
  {
    SizePositive(cardinalities[p + 1..]);
  }

  lemma {:induction false} BlockInRange(block: nat, width: nat, offset: nat, blocks: nat)
    requires block * width + offset < blocks * width
    ensures block < blocks
  {
    if blocks <= block { Scaled(blocks, block, width); }
  }

  // ----- compilation -----

  datatype Edge = Edge(variable: nat, factor: nat, position: nat, offset: nat, cardinality: nat)

  datatype SolverError =
    | VariableOutOfBounds(variable: nat, batchLength: nat)
    | CardinalityMismatch
    | CapacityOverflow
    | NoFiniteSupport

  /** A compiled batch: one edge per variable of each factor, each owning a range of the message buffers. */
  datatype FactorGraph = FactorGraph(
    cardinalities: seq<nat>,
    factors: seq<FactorTable>,
    edges: seq<Edge>,
    factorEdges: seq<seq<nat>>,
    variableEdges: seq<seq<nat>>,
    strides: seq<seq<nat>>,
    messageLength: nat)

  predicate ValidTables(factors: seq<FactorTable>) { forall f :: 0 <= f < |factors| ==> ValidTable(factors[f]) }

  /** The number of the first edge of factor `f`. */
  function First(factors: seq<FactorTable>, f: nat): nat
    requires f <= |factors|
  {
    if f == 0 then 0 else First(factors, f - 1) + |factors[f - 1].variables|
  }

  /** The cells taken by the first `e` edges. */
  function Span(edges: seq<Edge>, e: nat): nat
    requires e <= |edges|
  {
    if e == 0 then 0 else Span(edges, e - 1) + edges[e - 1].cardinality
  }

  /** Where `k` occurs as a key, in order. */
  function Positions(keys: seq<nat>, k: nat): (positions: seq<nat>)
  {
    if keys == [] then []
    else
      var last: nat := |keys| - 1;
      Positions(keys[..last], k) + if keys[last] == k then [last] else []
  }

  ghost predicate IsPosition(keys: seq<nat>, k: nat, e: nat) { e < |keys| && keys[e] == k }

  lemma {:induction false} PositionsExact(keys: seq<nat>, k: nat)
    ensures StrictlyAscending(Positions(keys, k))
    ensures forall e: nat :: e in Positions(keys, k) <==> IsPosition(keys, k, e)
  {
    if keys != [] {
      var last: nat := |keys| - 1;
      var earlier := keys[..last];
      PositionsExact(earlier, k);
      var before := Positions(earlier, k);
      forall i | 0 <= i < |before| ensures before[i] < last {
        assert before[i] in before;
        assert IsPosition(earlier, k, before[i]);
      }
      forall e: nat ensures e in Positions(keys, k) <==> IsPosition(keys, k, e) {
        assert e in before <==> IsPosition(earlier, k, e);
      }
    }
  }

  lemma {:induction false} PositionsAppend(keys: seq<nat>, key: nat, k: nat)
    ensures Positions(keys + [key], k) == Positions(keys, k) + if key == k then [|keys|] else []
  {
    assert (keys + [key])[..|keys|] == keys;
  }

  function VariableKeys(edges: seq<Edge>): (keys: seq<nat>)
    ensures |keys| == |edges| && forall e :: 0 <= e < |edges| ==> keys[e] == edges[e].variable
  {
    seq(|edges|, e requires 0 <= e < |edges| => edges[e].variable)
  }

  function FactorKeys(edges: seq<Edge>): (keys: seq<nat>)
    ensures |keys| == |edges| && forall e :: 0 <= e < |edges| ==> keys[e] == edges[e].factor
  {
    seq(|edges|, e requires 0 <= e < |edges| => edges[e].factor)
  }

  /** The message cells the first `f` factors and the first `p` variables of the next need. */
  function Cells(factors: seq<FactorTable>, f: nat, p: nat): nat
    requires f <= |factors| && p <= (if f < |factors| then |factors[f].cardinalities| else 0)
    decreases f, p
  {
    if p > 0 then Cells(factors, f, p - 1) + factors[f].cardinalities[p - 1]
    else if f > 0 then Cells(factors, f - 1, |factors[f - 1].cardinalities|)
    else 0
  }

  /** What is wrong with the variable at position `p` of a factor. */
  function Problem(cardinalities: seq<nat>, t: FactorTable, p: nat): Option<SolverError>
    requires p < |t.variables| == |t.cardinalities|
  {
    if t.variables[p] >= |cardinalities| then Some(VariableOutOfBounds(t.variables[p], |cardinalities|))
    else if cardinalities[t.variables[p]] != t.cardinalities[p] then Some(CardinalityMismatch)
    else None
  }

  /** The refusal, if any, for the variable at position `p` of factor `f`: the buffers grow by its cells. */
  function Refusal(cardinalities: seq<nat>, factors: seq<FactorTable>, f: nat, p: nat): Option<SolverError>
    requires f < |factors| && p < |factors[f].variables| == |factors[f].cardinalities|
  {
    if Problem(cardinalities, factors[f], p).Some? then Problem(cardinalities, factors[f], p)
    else if Cells(factors, f, p + 1) > MAX_SIZE then Some(CapacityOverflow)
    else None
  }

  /** The first `f` factors and the first `p` variables of the next are not refused. */
  ghost predicate FitsUpTo(cardinalities: seq<nat>, factors: seq<FactorTable>, f: nat, p: nat)
    requires ValidTables(factors)
  {
    forall g, q {:trigger Refusal(cardinalities, factors, g, q)} ::
      0 <= g < |factors| && 0 <= q < |factors[g].variables| && (g < f || (g == f && q < p)) ==>
        Refusal(cardinalities, factors, g, q).None?
  }

  ghost predicate Fits(cardinalities: seq<nat>, factors: seq<FactorTable>)
    requires ValidTables(factors)
  {
    FitsUpTo(cardinalities, factors, |factors|, 0)
  }

  /** The values of an observation: its candidates, `new` and `noise`. */
  function Cardinalities(domains: seq<nat>): (cardinalities: seq<nat>)
    ensures |cardinalities| == |domains| && forall v :: 0 <= v < |domains| ==> cardinalities[v] == domains[v] + 2
  {
    seq(|domains|, v requires 0 <= v < |domains| => domains[v] + 2)
  }

  /** Position `p` of factor `f` names a variable of the batch with that variable's number of values. */
  predicate Matches(domains: seq<nat>, t: FactorTable, p: nat)
    requires p < |t.variables| == |t.cardinalities|
  {
    t.variables[p] < |domains| && t.cardinalities[p] == domains[t.variables[p]] + 2
  }

  lemma {:induction false} CellsGrow(factors: seq<FactorTable>, f: nat, p: nat, g: nat, q: nat)
    requires ValidTables(factors) && g <= |factors| && q <= (if g < |factors| then |factors[g].cardinalities| else 0)
    requires f <= |factors| && p <= (if f < |factors| then |factors[f].cardinalities| else 0)
    requires f < g || (f == g && p <= q)
    ensures Cells(factors, f, p) <= Cells(factors, g, q)
    decreases g, q
  {
    hide ValidTable;
    if q > 0 && !(f == g && p == q) {
      CellsGrow(factors, f, p, g, q - 1);
    } else if q == 0 && f < g {
      assert ValidTable(factors[g - 1]);
      CellsGrow(factors, f, p, g - 1, |factors[g - 1].cardinalities|);
    }
  }

  /** A batch fits exactly when every factor's scope matches the domains, the values of an observation being its
      candidates, `new` and `noise`, and all message cells together can be addressed. */
  lemma {:induction false} FitsIff(domains: seq<nat>, factors: seq<FactorTable>)
    requires ValidTables(factors)
    ensures forall f :: 0 <= f < |factors| ==> |factors[f].variables| == |factors[f].cardinalities|
    ensures Fits(Cardinalities(domains), factors) <==>
            && (forall f, p {:trigger factors[f].variables[p]} ::
                  0 <= f < |factors| && 0 <= p < |factors[f].variables| ==> Matches(domains, factors[f], p))
            && Cells(factors, |factors|, 0) <= 0xFFFF_FFFF_FFFF_FFFF
  {
    hide Cells;
    var all := Cardinalities(domains);
    forall f | 0 <= f < |factors| ensures |factors[f].variables| == |factors[f].cardinalities| > 0 {
      assert ValidTable(factors[f]);
    }
    forall f: nat, p: nat | f < |factors| && p < |factors[f].variables|
      ensures Refusal(all, factors, f, p).None? <==>
              Matches(domains, factors[f], p) && Cells(factors, f, p + 1) <= 0xFFFF_FFFF_FFFF_FFFF
      ensures Cells(factors, f, p + 1) <= Cells(factors, |factors|, 0)
    {
      CellsGrow(factors, f, p + 1, |factors|, 0);
    }
    if factors == [] {
      NoCells(factors);
    } else {
      var last: nat := |factors| - 1;
      LastCells(factors);
      assert |factors[last].variables| > 0;
      if Fits(all, factors) {
        var p: nat := |factors[last].variables| - 1;
        assert Refusal(all, factors, last, p).None?;
        forall f: nat, p: nat | f < |factors| && p < |factors[f].variables| ensures Matches(domains, factors[f], p) {
          assert Refusal(all, factors, f, p).None?;
        }
      }
    }
  }

  lemma {:induction false} NoCells(factors: seq<FactorTable>)
    requires factors == []
    ensures Cells(factors, 0, 0) == 0
  {}

  lemma {:induction false} LastCells(factors: seq<FactorTable>)
    requires factors != []
    ensures Cells(factors, |factors|, 0) == Cells(factors, |factors| - 1, |factors[|factors| - 1].cardinalities|)
  {}

  /** Why the variable at position `p` of factor `f` is refused, in this order. */
  lemma {:induction false} RefusalIs(domains: seq<nat>, factors: seq<FactorTable>, f: nat, p: nat)
    requires f < |factors| && p < |factors[f].variables| == |factors[f].cardinalities|
    ensures var v := factors[f].variables[p];
            Refusal(Cardinalities(domains), factors, f, p) ==
            if v >= |domains| then Some(VariableOutOfBounds(v, |domains|))
            else if factors[f].cardinalities[p] != domains[v] + 2 then Some(CardinalityMismatch)
            else if Cells(factors, f, p + 1) > 0xFFFF_FFFF_FFFF_FFFF then Some(CapacityOverflow)
            else None
  {
    hide Cells;
  }

  /** Edge `e` stands for the variable at its position in its factor and owns its own cells. */
  predicate EdgeRight(cardinalities: seq<nat>, factors: seq<FactorTable>, edges: seq<Edge>, e: nat)
    requires e < |edges| && ValidTables(factors)
  {
    var k := edges[e];
    && k.factor < |factors|
    && k.position < |factors[k.factor].variables|
    && e == First(factors, k.factor) + k.position
    && k.variable == factors[k.factor].variables[k.position] < |cardinalities|
    && k.cardinality == cardinalities[k.variable] == factors[k.factor].cardinalities[k.position]
    && k.offset == Span(edges, e)
  }

  ghost predicate EdgesRight(cardinalities: seq<nat>, factors: seq<FactorTable>, edges: seq<Edge>)
    requires ValidTables(factors)
  {
    forall e: nat {:trigger EdgeRight(cardinalities, factors, edges, e)} ::
      e < |edges| ==> EdgeRight(cardinalities, factors, edges, e)
  }

  /** The edge of factor `f` at position `p` is where the numbering says it is. */
  predicate Placed(factors: seq<FactorTable>, edges: seq<Edge>, f: nat, p: nat)
    requires f < |factors|
  {
    && First(factors, f) + p < |edges|
    && edges[First(factors, f) + p].factor == f
    && edges[First(factors, f) + p].position == p
  }

  ghost predicate PlacedUpTo(factors: seq<FactorTable>, edges: seq<Edge>, f: nat, p: nat) {
    forall g: nat, q: nat {:trigger Placed(factors, edges, g, q)} ::
      g < |factors| && q < |factors[g].variables| && (g < f || (g == f && q < p)) ==> Placed(factors, edges, g, q)
  }

  predicate StridesRight(t: FactorTable, strides: seq<nat>)
    requires |t.variables| == |t.cardinalities|
  {
    && |strides| == |t.variables|
    && forall p: nat {:trigger Stride(t.cardinalities, p)} ::
         p < |strides| ==> strides[p] == Stride(t.cardinalities, p)
  }

  /** What compilation promises. */
  ghost predicate Compiled(g: FactorGraph) {
    && ValidTables(g.factors)
    && (forall v :: 0 <= v < |g.cardinalities| ==> g.cardinalities[v] >= 2)
    && EdgesRight(g.cardinalities, g.factors, g.edges)
    && PlacedUpTo(g.factors, g.edges, |g.factors|, 0)
    && |g.edges| == First(g.factors, |g.factors|)
    && |g.factorEdges| == |g.factors| == |g.strides|
    && (forall f :: 0 <= f < |g.factors| ==> g.factorEdges[f] == Positions(FactorKeys(g.edges), f))
    && (forall f :: 0 <= f < |g.factors| ==> StridesRight(g.factors[f], g.strides[f]))
    && |g.variableEdges| == |g.cardinalities|
    && (forall v :: 0 <= v < |g.cardinalities| ==> g.variableEdges[v] == Positions(VariableKeys(g.edges), v))
    && g.messageLength == Span(g.edges, |g.edges|)
  }

  /** No stride of a valid table overflows: each divides the table's length. */
  lemma {:induction false} StrideFits(t: FactorTable, p: nat)
    requires ValidTable(t) && p < |t.cardinalities|
    ensures Stride(t.cardinalities, p) <= MAX_SIZE
  {
    hide Size, Distinct, AllFinite;
    var before, stride := Size(t.cardinalities[..p + 1]), Size(t.cardinalities[p + 1..]);
    SizeSplits(t.cardinalities, p + 1);
    SizePositive(t.cardinalities[..p + 1]);
    Scaled(1, before, stride);
  }

  /** Row-major strides, computed from the last variable back. */
  method Strides(t: FactorTable) returns (strides: seq<nat>)
    requires ValidTable(t)
    ensures StridesRight(t, strides)
    ensures forall p :: 0 <= p < |strides| ==> strides[p] <= MAX_SIZE
  {
    var scope := |t.variables|;
    strides := seq(scope, _ => 1);
    var p := scope - 1;
    assert t.cardinalities[scope..] == [];
    while p > 0
      invariant 0 <= p < scope == |strides|
      invariant forall q: nat {:trigger Stride(t.cardinalities, q)} ::
                  p <= q < scope ==> strides[q] == Stride(t.cardinalities, q)
    {
      assert t.cardinalities[p..][1..] == t.cardinalities[p + 1..];
      assert Stride(t.cardinalities, p - 1) == t.cardinalities[p] * Stride(t.cardinalities, p);
      strides := strides[p - 1 := strides[p] * t.cardinalities[p]];
      p := p - 1;
    }
    forall q: nat | q < |strides| ensures strides[q] <= MAX_SIZE { StrideFits(t, q); }
  }

  /** The bookkeeping after the first `f` factors and the first `p` variables of the next. */
  ghost predicate CompiledUpTo(
    cardinalities: seq<nat>, factors: seq<FactorTable>, edges: seq<Edge>,
    factorEdges: seq<seq<nat>>, variableEdges: seq<seq<nat>>, messageLength: nat, f: nat, p: nat)
 
  {
    && ValidTables(factors)
    && f <= |factors|
    && EdgesRight(cardinalities, factors, edges)
    && PlacedUpTo(factors, edges, f, p)
    && |edges| == First(factors, f) + p
    && |factorEdges| == |factors|
    && (forall g: nat {:trigger factorEdges[g]} :: g < |factors| ==> factorEdges[g] == Positions(FactorKeys(edges), g))
    && |variableEdges| == |cardinalities|
    && (forall v: nat {:trigger variableEdges[v]} ::
          v < |cardinalities| ==> variableEdges[v] == Positions(VariableKeys(edges), v))
    && messageLength == Span(edges, |edges|)
  }

  lemma {:induction false} SpanOfPrefix(edges: seq<Edge>, more: seq<Edge>, e: nat)
    requires e <= |edges|
    ensures Span(edges + more, e) == Span(edges, e)
  {
    if e > 0 { SpanOfPrefix(edges, more, e - 1); }
  }

  lemma {:induction false} AppendRight(cardinalities: seq<nat>, factors: seq<FactorTable>, edges: seq<Edge>, edge: Edge)
    requires ValidTables(factors) && EdgesRight(cardinalities, factors, edges)
    requires EdgeRight(cardinalities, factors, edges + [edge], |edges|)
    ensures EdgesRight(cardinalities, factors, edges + [edge])
  {
    hide ValidTables, First;
    forall e: nat | e < |edges| ensures EdgeRight(cardinalities, factors, edges + [edge], e) {
      SpanOfPrefix(edges, [edge], e);
      assert EdgeRight(cardinalities, factors, edges, e);
    }
  }

  lemma {:induction false} AppendPlaced(factors: seq<FactorTable>, edges: seq<Edge>, f: nat, p: nat, edge: Edge)
    requires f < |factors| && PlacedUpTo(factors, edges, f, p) && |edges| == First(factors, f) + p
    requires edge.factor == f && edge.position == p
    ensures PlacedUpTo(factors, edges + [edge], f, p + 1)
  {
    hide First;
    forall g: nat, q: nat | g < |factors| && q < |factors[g].variables| && (g < f || (g == f && q < p + 1))
      ensures Placed(factors, edges + [edge], g, q)
    {
      if (g, q) != (f, p) { assert Placed(factors, edges, g, q); }
    }
  }

  /** One more edge, pushed onto its factor's list and its variable's list. */
  lemma {:induction false} AppendEdge(
    cardinalities: seq<nat>, factors: seq<FactorTable>, edges: seq<Edge>, factorEdges: seq<seq<nat>>,
    variableEdges: seq<seq<nat>>, messageLength: nat, f: nat, p: nat, edge: Edge)
    requires CompiledUpTo(cardinalities, factors, edges, factorEdges, variableEdges, messageLength, f, p)
    requires f < |factors| && p < |factors[f].variables| && Problem(cardinalities, factors[f], p).None?
    requires edge == Edge(factors[f].variables[p], f, p, messageLength, cardinalities[factors[f].variables[p]])
    ensures CompiledUpTo(
              cardinalities, factors, edges + [edge],
              factorEdges[f := factorEdges[f] + [|edges|]],
              variableEdges[edge.variable := variableEdges[edge.variable] + [|edges|]],
              messageLength + edge.cardinality, f, p + 1)
  {
    hide Positions, EdgesRight, PlacedUpTo, ValidTables;
    var longer := edges + [edge];
    SpanOfPrefix(edges, [edge], |edges|);
    AppendRight(cardinalities, factors, edges, edge);
    AppendPlaced(factors, edges, f, p, edge);
    assert FactorKeys(longer) == FactorKeys(edges) + [f];
    assert VariableKeys(longer) == VariableKeys(edges) + [edge.variable];
    forall g: nat | g < |factors| {
      PositionsAppend(FactorKeys(edges), f, g);
    }
    forall v: nat | v < |cardinalities| {
      PositionsAppend(VariableKeys(edges), edge.variable, v);
    }
  }

  lemma {:induction false} NextFactor(
    cardinalities: seq<nat>, factors: seq<FactorTable>, edges: seq<Edge>, factorEdges: seq<seq<nat>>,
    variableEdges: seq<seq<nat>>, messageLength: nat, f: nat)
    requires f < |factors|
    requires CompiledUpTo(cardinalities, factors, edges, factorEdges, variableEdges, messageLength, f,
               |factors[f].variables|)
    ensures CompiledUpTo(cardinalities, factors, edges, factorEdges, variableEdges, messageLength, f + 1, 0)
  {}

  /** Compiles a batch: `domains` holds the candidate count of each variable, to which `new` and `noise`
      are added. The first variable that is out of bounds, has another cardinality, or does not fit the
      message buffers any more is reported. */
  method Compile(domains: seq<nat>, factors: seq<FactorTable>) returns (r: Result<FactorGraph, SolverError>)
    requires ValidTables(factors)
    ensures r.Ok? <==> Fits(Cardinalities(domains), factors)
    ensures r.Ok? ==> Compiled(r.value) && r.value.factors == factors && r.value.cardinalities == Cardinalities(domains)
    ensures r.Ok? ==> r.value.messageLength == Cells(factors, |factors|, 0) <= MAX_SIZE
    ensures r.Err? ==> exists f: nat, p: nat ::
                && f < |factors| && p < |factors[f].variables|
                && FitsUpTo(Cardinalities(domains), factors, f, p)
                && Refusal(Cardinalities(domains), factors, f, p) == Some(r.error)
  {
    hide Problem, CompiledUpTo, StridesRight, Positions, ValidTable;
    var cardinalities := Cardinalities(domains);
    var edges: seq<Edge> := [];
    var factorEdges: seq<seq<nat>> := seq(|factors|, _ => []);
    var variableEdges: seq<seq<nat>> := seq(|domains|, _ => []);
    var strides: seq<seq<nat>> := [];
    var messageLength: nat := 0;
    Fresh(cardinalities, factors, factorEdges, variableEdges);
    var f := 0;
    while f < |factors|
      invariant 0 <= f <= |factors|
      invariant |strides| == f
      invariant forall g :: 0 <= g < f ==> TableStrides(factors[g], strides[g])
      invariant CompiledUpTo(cardinalities, factors, edges, factorEdges, variableEdges, messageLength, f, 0)
      invariant FitsUpTo(cardinalities, factors, f, 0) && messageLength == Cells(factors, f, 0) <= MAX_SIZE
    {
      ScopeNamed(factors[f]);
      var own := Strides(factors[f]);
      strides := strides + [own];
      var p := 0;
      while p < |factors[f].variables|
        invariant 0 <= p <= |factors[f].variables|
        invariant CompiledUpTo(cardinalities, factors, edges, factorEdges, variableEdges, messageLength, f, p)
        invariant FitsUpTo(cardinalities, factors, f, p) && messageLength == Cells(factors, f, p) <= MAX_SIZE
      {
        var problem := Problem(cardinalities, factors[f], p);
        if problem.Some? {
          assert Refusal(cardinalities, factors, f, p) == problem;
          return Err(problem.value);
        }
        ProblemFree(cardinalities, factors, edges, factorEdges, variableEdges, messageLength, f, p);
        var variable := factors[f].variables[p];
        var cardinality := cardinalities[variable];
        var edge := Edge(variable, f, p, messageLength, cardinality);
        AppendEdge(cardinalities, factors, edges, factorEdges, variableEdges, messageLength, f, p, edge);
        factorEdges := factorEdges[f := factorEdges[f] + [|edges|]];
        variableEdges := variableEdges[variable := variableEdges[variable] + [|edges|]];
        edges := edges + [edge];
        assert messageLength + cardinality == Cells(factors, f, p + 1);
        if messageLength + cardinality > MAX_SIZE {
          assert Refusal(cardinalities, factors, f, p) == Some(CapacityOverflow);
          return Err(CapacityOverflow);
        }
        messageLength := messageLength + cardinality;
        p := p + 1;
      }
      NextFactor(cardinalities, factors, edges, factorEdges, variableEdges, messageLength, f);
      f := f + 1;
    }
    var graph := FactorGraph(cardinalities, factors, edges, factorEdges, variableEdges, strides, messageLength);
    Finished(graph);
    return Ok(graph);
  }

  ghost predicate TableStrides(t: FactorTable, strides: seq<nat>) { ValidTable(t) && StridesRight(t, strides) }

  lemma {:induction false} ScopeNamed(t: FactorTable)
    requires ValidTable(t)
    ensures |t.variables| == |t.cardinalities|
  {}

  lemma {:induction false} Fresh(
    cardinalities: seq<nat>, factors: seq<FactorTable>, factorEdges: seq<seq<nat>>, variableEdges: seq<seq<nat>>)
    requires ValidTables(factors) && |factorEdges| == |factors| && |variableEdges| == |cardinalities|
    requires forall g: nat {:trigger factorEdges[g]} :: g < |factors| ==> factorEdges[g] == []
    requires forall v: nat {:trigger variableEdges[v]} :: v < |cardinalities| ==> variableEdges[v] == []
    ensures CompiledUpTo(cardinalities, factors, [], factorEdges, variableEdges, 0, 0, 0)
  {}

  lemma {:induction false} ProblemFree(
    cardinalities: seq<nat>, factors: seq<FactorTable>, edges: seq<Edge>, factorEdges: seq<seq<nat>>,
    variableEdges: seq<seq<nat>>, messageLength: nat, f: nat, p: nat)
    requires CompiledUpTo(cardinalities, factors, edges, factorEdges, variableEdges, messageLength, f, p)
    requires f < |factors| && p < |factors[f].variables| && Problem(cardinalities, factors[f], p).None?
    ensures factors[f].variables[p] < |cardinalities| == |variableEdges| && |factorEdges| == |factors|
    ensures cardinalities[factors[f].variables[p]] == factors[f].cardinalities[p]
  {}

  lemma {:induction false} Finished(g: FactorGraph)
    requires CompiledUpTo(g.cardinalities, g.factors, g.edges, g.factorEdges, g.variableEdges, g.messageLength,
               |g.factors|, 0)
    requires |g.strides| == |g.factors| && forall f :: 0 <= f < |g.factors| ==> TableStrides(g.factors[f], g.strides[f])
    requires forall v :: 0 <= v < |g.cardinalities| ==> g.cardinalities[v] >= 2
    ensures Compiled(g)
  {}
}
