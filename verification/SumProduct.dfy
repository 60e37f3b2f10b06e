/** The Sum-Product solver's passes, over exact positive reals.

    Messages are probabilities, not logarithms: adding logs is multiplication here, and adding
    exponentials of logs is addition. A message buffer holds one range per edge.
  */
module SumProduct {
  import opened Types
  import opened Sums
  import opened Sorting
  import opened FactorGraphs

  datatype SumProductConfig = SumProductConfig(
    maxIterations: nat, tolerance: real, damping: real,
    candidatePrior: real, newPrior: real, noisePrior: real)

  predicate ValidConfig(c: SumProductConfig) {
    && c.maxIterations > 0 && c.tolerance > 0.0 && 0.0 <= c.damping < 1.0
    && c.candidatePrior > 0.0 && c.newPrior > 0.0 && c.noisePrior > 0.0
  }

  /** The last two values of every variable are `new` and `noise`; the others are candidates. */
  function Prior(c: SumProductConfig, cardinality: nat, state: nat): real {
    if state + 2 == cardinality then c.newPrior
    else if state + 1 == cardinality then c.noisePrior
    else c.candidatePrior
  }

  // ----- messages as sequences -----

  function Total(m: seq<real>): real { if m == [] then 0.0 else Total(m[..|m| - 1]) + m[|m| - 1] }

  predicate Positive(m: seq<real>) { forall i :: 0 <= i < |m| ==> m[i] > 0.0 }

  ghost function Normalised(m: seq<real>): (r: seq<real>)
    requires Total(m) != 0.0
    ensures |r| == |m|
  {
    seq(|m|, i requires 0 <= i < |m| => m[i] / Total(m))
  }

  function Mix(damping: real, old_: real, new_: real): real { damping * old_ + (1.0 - damping) * new_ }

  ghost function Mixed(next: seq<real>, current: seq<real>, damping: real): (r: seq<real>)
    requires |next| == |current|
    ensures |r| == |next|
  {
    seq(|next|, i requires 0 <= i < |next| => Mix(damping, current[i], next[i]))
  }

  function Larger(x: real, y: real): real { if x >= y then x else y }

  function Gap(x: real, y: real): real { if x >= y then x - y else y - x }

  /** The largest change between two messages. */
  ghost function MaxGap(next: seq<real>, current: seq<real>): real
    requires |next| == |current|
  {
    if next == [] then 0.0
    else Larger(MaxGap(next[..|next| - 1], current[..|next| - 1]), Gap(next[|next| - 1], current[|next| - 1]))
  }

  lemma {:induction false} TotalPositive(m: seq<real>)
    requires Positive(m) && m != []
    ensures Total(m) > 0.0
  {
    if |m| > 1 { TotalPositive(m[..|m| - 1]); }
  }

  lemma {:induction false} TotalDivided(m: seq<real>, r: seq<real>, by_: real)
    requires by_ != 0.0 && |r| == |m| && forall i :: 0 <= i < |m| ==> r[i] == m[i] / by_
    ensures Total(r) == Total(m) / by_
  {
    if m == [] {
      assert 0.0 / by_ == 0.0;
    } else {
      var last := |m| - 1;
      TotalDivided(m[..last], r[..last], by_);
      SumDivided(Total(m[..last]), m[last], by_);
    }
  }

  lemma {:induction false} SumDivided(x: real, y: real, z: real)
    requires z != 0.0
    ensures x / z + y / z == (x + y) / z
  {
    var p, q := x / z, y / z;
    assert (p + q) * z == x + y;
  }

  /** A normalised message sums to one. */
  lemma {:induction false} NormalisedSumsToOne(m: seq<real>)
    requires Total(m) != 0.0
    ensures Total(Normalised(m)) == 1.0
  {
    TotalDivided(m, Normalised(m), Total(m));
    SelfQuotient(Total(m));
  }

  lemma {:induction false} SelfQuotient(x: real)
    requires x != 0.0
    ensures x / x == 1.0
  {}

  lemma {:induction false} NormalisedPositive(m: seq<real>)
    requires Positive(m) && m != []
    ensures Total(m) > 0.0 && Positive(Normalised(m))
  {
    TotalPositive(m);
    forall i | 0 <= i < |m| ensures Normalised(m)[i] > 0.0 { Quotient(m[i], Total(m)); }
  }

  lemma {:induction false} Quotient(x: real, y: real)
    requires x > 0.0 && y > 0.0
    ensures x / y > 0.0
  {}

  lemma {:induction false} MixedPositive(next: seq<real>, current: seq<real>, damping: real)
    requires |next| == |current| && Positive(next) && Positive(current) && 0.0 <= damping < 1.0
    ensures Positive(Mixed(next, current, damping))
  {
    forall i | 0 <= i < |next| ensures Mix(damping, current[i], next[i]) > 0.0 {
      MixPositive(damping, current[i], next[i]);
    }
  }

  lemma {:induction false} MixPositive(damping: real, x: real, y: real)
    requires x > 0.0 && y > 0.0 && 0.0 <= damping < 1.0
    ensures Mix(damping, x, y) > 0.0
  {
    assert damping * x >= 0.0 && (1.0 - damping) * y > 0.0;
  }

  // ----- what one message is -----

  ghost function Read(buffer: seq<real>, i: nat): real { if i < |buffer| then buffer[i] else 1.0 }

  /** Edge `e`'s message at `state`. */
  ghost function MessageAt(g: FactorGraph, buffer: seq<real>, e: nat, state: nat): real {
    if e < |g.edges| then Read(buffer, g.edges[e].offset + state) else 1.0
  }

  /** The value of edge `e`'s variable in entry `flat` of its factor's table. */
  ghost function StateIn(g: FactorGraph, e: nat, flat: nat): nat {
    if e < |g.edges| && g.edges[e].factor < |g.factors|
       && g.edges[e].position < |g.factors[g.edges[e].factor].cardinalities|
       && AllPositive(g.factors[g.edges[e].factor].cardinalities)
    then Digit(g.factors[g.edges[e].factor].cardinalities, g.edges[e].position, flat) else 0
  }

  /** The product of `term` over the listed edges other than `skip`. */
  ghost function Others(list: seq<nat>, skip: nat, term: nat -> real): real {
    if list == [] then 1.0
    else Others(list[..|list| - 1], skip, term) * (if list[|list| - 1] == skip then 1.0 else term(list[|list| - 1]))
  }

  lemma {:induction false} OthersPositive(list: seq<nat>, skip: nat, term: nat -> real)
    requires forall e :: e in list ==> term(e) > 0.0
    ensures Others(list, skip, term) > 0.0
  {
    if list != [] {
      assert list[|list| - 1] in list;
      OthersPositive(list[..|list| - 1], skip, term);
    }
  }

  lemma {:induction false} OthersStep(list: seq<nat>, i: nat, skip: nat, term: nat -> real)
    requires i < |list|
    ensures Others(list[..i + 1], skip, term) ==
            Others(list[..i], skip, term) * (if list[i] == skip then 1.0 else term(list[i]))
  {
    assert list[..i + 1][..i] == list[..i];
  }

  /** A table entry times the other variables' messages at that entry. */
  ghost function EntryValue(g: FactorGraph, e: nat, toFactor: seq<real>, flat: nat): real
    requires Compiled(g) && e < |g.edges|
  {
    assert EdgeRight(g.cardinalities, g.factors, g.edges, e);
    var f := g.edges[e].factor;
    Read(g.factors[f].potentials, flat)
      * Others(g.factorEdges[f], e, (d: nat) => MessageAt(g, toFactor, d, StateIn(g, d, flat)))
  }

  ghost function Selected(g: FactorGraph, e: nat, toFactor: seq<real>, state: nat, flat: nat): real
    requires Compiled(g) && e < |g.edges|
  {
    if StateIn(g, e, flat) == state then EntryValue(g, e, toFactor, flat) else 0.0
  }

  /** The sum over the first `count` table entries that give edge `e`'s variable the value `state`. */
  ghost function EntrySum(g: FactorGraph, e: nat, toFactor: seq<real>, state: nat, count: nat): real
    requires Compiled(g) && e < |g.edges|
  {
    Sum(count, (flat: nat) => Selected(g, e, toFactor, state, flat))
  }

  ghost function FactorMessage(g: FactorGraph, e: nat, toFactor: seq<real>): (m: seq<real>)
    requires Compiled(g) && e < |g.edges|
    ensures |m| == g.edges[e].cardinality
  {
    assert EdgeRight(g.cardinalities, g.factors, g.edges, e);
    seq(g.edges[e].cardinality, s requires 0 <= s < g.edges[e].cardinality =>
      EntrySum(g, e, toFactor, s, |g.factors[g.edges[e].factor].potentials|))
  }

  /** A variable's prior times the messages of its factors other than the one along `skip`. */
  ghost function Belief(
    g: FactorGraph, c: SumProductConfig, v: nat, skip: nat, toVariable: seq<real>, state: nat): real
    requires v < |g.cardinalities| == |g.variableEdges|
  {
    Prior(c, g.cardinalities[v], state)
      * Others(g.variableEdges[v], skip, (d: nat) => MessageAt(g, toVariable, d, state))
  }

  ghost function BeliefMessage(
    g: FactorGraph, c: SumProductConfig, v: nat, skip: nat, toVariable: seq<real>): (m: seq<real>)
    requires v < |g.cardinalities| == |g.variableEdges|
    ensures |m| == g.cardinalities[v]
  {
    seq(g.cardinalities[v], s requires 0 <= s < g.cardinalities[v] => Belief(g, c, v, skip, toVariable, s))
  }

  // ----- ranges of a buffer -----

  lemma {:induction false} SpanOrder(edges: seq<Edge>, d: nat, e: nat)
    requires d <= e <= |edges|
    ensures Span(edges, d) <= Span(edges, e)
    ensures d < e ==> Span(edges, d) + edges[d].cardinality <= Span(edges, e)
  {
    if d < e { SpanOrder(edges, d, e - 1); }
  }

  /** Every edge's range lies inside the buffers, and ranges of different edges do not overlap. */
  lemma {:induction false} RangesDisjoint(g: FactorGraph, d: nat, e: nat)
    requires Compiled(g) && d < |g.edges| && e < |g.edges|
    ensures g.edges[d].offset + g.edges[d].cardinality <= g.messageLength
    ensures d < e ==> g.edges[d].offset + g.edges[d].cardinality <= g.edges[e].offset
  {
    assert EdgeRight(g.cardinalities, g.factors, g.edges, d);
    assert EdgeRight(g.cardinalities, g.factors, g.edges, e);
    SpanOrder(g.edges, d, |g.edges|);
    if d < e { SpanOrder(g.edges, d, e); }
  }

  /** Every cell belongs to some edge: the ranges tile the buffers. */
  lemma {:induction false} RangesCover(g: FactorGraph, k: nat, cell: nat) returns (e: nat)
    requires Compiled(g) && k <= |g.edges| && cell < Span(g.edges, k)
    ensures e < k && g.edges[e].offset <= cell < g.edges[e].offset + g.edges[e].cardinality
  {
    assert EdgeRight(g.cardinalities, g.factors, g.edges, k - 1);
    if cell < Span(g.edges, k - 1) { e := RangesCover(g, k - 1, cell); } else { e := k - 1; }
  }

  ghost function Range(g: FactorGraph, buffer: seq<real>, e: nat): (m: seq<real>)
    requires Compiled(g) && e < |g.edges| && |buffer| == g.messageLength
    ensures |m| == g.edges[e].cardinality
  {
    RangesDisjoint(g, e, e);
    buffer[g.edges[e].offset..g.edges[e].offset + g.edges[e].cardinality]
  }

  /** Only edge `e`'s range differs. */
  ghost predicate OnlyRange(g: FactorGraph, before: seq<real>, after: seq<real>, e: nat)
    requires e < |g.edges|
  {
    && |before| == |after|
    && forall i :: 0 <= i < |before| && !(g.edges[e].offset <= i < g.edges[e].offset + g.edges[e].cardinality) ==>
         after[i] == before[i]
  }

  lemma {:induction false} OtherRangesKept(g: FactorGraph, before: seq<real>, after: seq<real>, e: nat, d: nat)
    requires Compiled(g) && e < |g.edges| && d < |g.edges| && d != e
    requires OnlyRange(g, before, after, e) && |before| == g.messageLength
    ensures Range(g, after, d) == Range(g, before, d)
  {
    RangesDisjoint(g, d, e);
    RangesDisjoint(g, e, d);
  }

  // ----- normalising and damping -----

  lemma {:induction false} TotalStep(m: seq<real>, i: nat)
    requires i < |m|
    ensures Total(m[..i + 1]) == Total(m[..i]) + m[i]
  {
    assert m[..i + 1][..i] == m[..i];
  }

  /** Divides a range by its total; refuses when the total is not positive. */
  method Normalise(values: array<real>, lo: nat, hi: nat) returns (ok: bool)
    requires lo <= hi <= values.Length
    modifies values
    ensures ok <==> Total(old(values[lo..hi])) > 0.0
    ensures ok ==> values[lo..hi] == Normalised(old(values[lo..hi]))
    ensures forall i :: 0 <= i < values.Length && !(lo <= i < hi) ==> values[i] == old(values[i])
    ensures !ok ==> values[..] == old(values[..])
  {
    var normaliser := 0.0;
    ghost var was := values[lo..hi];
    for i := lo to hi
      invariant values[..] == old(values[..])
      invariant normaliser == Total(was[..i - lo])
    {
      TotalStep(was, i - lo);
      normaliser := normaliser + values[i];
    }
    assert was[..hi - lo] == was;
    if normaliser <= 0.0 { return false; }
    for i := lo to hi
      invariant forall j :: lo <= j < i ==> values[j] == was[j - lo] / normaliser
      invariant forall j :: i <= j < hi ==> values[j] == was[j - lo]
      invariant forall j :: 0 <= j < values.Length && !(lo <= j < hi) ==> values[j] == old(values[j])
    {
      values[i] := values[i] / normaliser;
    }
    assert values[lo..hi] == Normalised(was);
    return true;
  }

  lemma {:induction false} MaxGapStep(next: seq<real>, current: seq<real>, i: nat)
    requires |next| == |current| && i < |next|
    ensures MaxGap(next[..i + 1], current[..i + 1]) == Larger(MaxGap(next[..i], current[..i]), Gap(next[i], current[i]))
  {
    assert next[..i + 1][..i] == next[..i] && current[..i + 1][..i] == current[..i];
  }

  lemma {:induction false} MixedAt(next: seq<real>, current: seq<real>, damping: real, i: nat)
    requires |next| == |current| && i < |next|
    ensures Mixed(next, current, damping)[i] == Mix(damping, current[i], next[i])
  {}

  lemma {:induction false} PositiveStep(m: seq<real>, k: nat)
    requires k < |m|
    ensures Positive(m[..k + 1]) <==> Positive(m[..k]) && m[k] > 0.0
    ensures m[k] <= 0.0 ==> !Positive(m)
  {
    assert m[..k + 1] == m[..k] + [m[k]];
  }

  lemma {:induction false} NothingMixed(next: seq<real>, current: seq<real>, mixed: seq<real>)
    ensures MaxGap(next[..0], current[..0]) == 0.0 && Positive(mixed[..0])
  {}

  /** Mixes the new message into the current one and reports the largest change; refuses a mixture without support. */
  method Damp(next: array<real>, current: array<real>, lo: nat, hi: nat, damping: real)
    returns (ok: bool, residual: real)
    requires next != current && lo <= hi <= next.Length == current.Length
    modifies current
    ensures ok <==> Positive(Mixed(next[lo..hi], old(current[lo..hi]), damping))
    ensures ok ==> current[lo..hi] == Mixed(next[lo..hi], old(current[lo..hi]), damping)
    ensures ok ==> residual == MaxGap(next[lo..hi], old(current[lo..hi]))
    ensures forall i :: 0 <= i < current.Length && !(lo <= i < hi) ==> current[i] == old(current[i])
  {
    hide Mix, Mixed, MaxGap, Larger, Gap, Positive;
    residual := 0.0;
    ghost var new_, was := next[lo..hi], current[lo..hi];
    ghost var mixed := Mixed(new_, was, damping);
    NothingMixed(new_, was, mixed);
    for i := lo to hi
      invariant residual == MaxGap(new_[..i - lo], was[..i - lo])
      invariant current[lo..i] == mixed[..i - lo] && current[i..hi] == was[i - lo..]
      invariant Positive(mixed[..i - lo])
      invariant forall j :: 0 <= j < current.Length && !(lo <= j < hi) ==> current[j] == old(current[j])
    {
      assert current[i] == current[i..hi][0] == was[i - lo] && next[i] == new_[i - lo];
      var value := Mix(damping, current[i], next[i]);
      MixedAt(new_, was, damping, i - lo);
      PositiveStep(mixed, i - lo);
      if value <= 0.0 { return false, residual; }
      MaxGapStep(new_, was, i - lo);
      residual := Larger(residual, Gap(next[i], current[i]));
      ghost var done, rest := current[lo..i], current[i..hi];
      current[i] := value;
      assert current[lo..i + 1] == done + [value] == mixed[..i + 1 - lo];
      assert current[i + 1..hi] == rest[1..] == was[i + 1 - lo..];
    }
    assert new_[..hi - lo] == new_ && was[..hi - lo] == was && mixed[..hi - lo] == mixed;
    ok := true;
  }

  /** Damps a range and normalises it. */
  method DampAndResidual(next: array<real>, current: array<real>, lo: nat, hi: nat, damping: real)
    returns (ok: bool, residual: real)
    requires next != current && lo < hi <= next.Length == current.Length
    modifies current
    ensures ok <==> Positive(Mixed(next[lo..hi], old(current[lo..hi]), damping))
    ensures ok ==> Total(Mixed(next[lo..hi], old(current[lo..hi]), damping)) > 0.0
    ensures ok ==> current[lo..hi] == Normalised(Mixed(next[lo..hi], old(current[lo..hi]), damping))
    ensures ok ==> residual == MaxGap(next[lo..hi], old(current[lo..hi]))
    ensures forall i :: 0 <= i < current.Length && !(lo <= i < hi) ==> current[i] == old(current[i])
  {
    hide Mix, Mixed, MaxGap;
    ok, residual := Damp(next, current, lo, hi, damping);
    if ok {
      TotalPositive(Mixed(next[lo..hi], old(current[lo..hi]), damping));
      ok := Normalise(current, lo, hi);
    }
  }

  // ----- the passes -----

  /** The message that replaces `current` once `raw` has been normalised, damped and normalised again. */
  ghost function Updated(raw: seq<real>, current: seq<real>, damping: real): (m: seq<real>)
    requires |raw| == |current|
    ensures |m| == |raw|
  {
    if Total(raw) > 0.0 && Total(Mixed(Normalised(raw), current, damping)) > 0.0
    then Normalised(Mixed(Normalised(raw), current, damping)) else current
  }

  ghost function Change(raw: seq<real>, current: seq<real>): real
    requires |raw| == |current|
  {
    if Total(raw) > 0.0 then MaxGap(Normalised(raw), current) else 0.0
  }

  lemma {:induction false} UpdatedPositive(raw: seq<real>, current: seq<real>, damping: real)
    requires |raw| == |current| > 0 && Positive(raw) && Positive(current) && 0.0 <= damping < 1.0
    ensures Total(raw) > 0.0 && Positive(Normalised(raw))
    ensures var mixed := Mixed(Normalised(raw), current, damping);
            Positive(mixed) && Total(mixed) > 0.0
    ensures Positive(Updated(raw, current, damping)) && Total(Updated(raw, current, damping)) == 1.0
  {
    NormalisedPositive(raw);
    var mixed := Mixed(Normalised(raw), current, damping);
    MixedPositive(Normalised(raw), current, damping);
    NormalisedPositive(mixed);
    NormalisedSumsToOne(mixed);
  }

  /** Replaces edge `e`'s message in `current` by the raw message that `next` holds for it. */
  method Install(g: FactorGraph, e: nat, next: array<real>, current: array<real>, damping: real)
    returns (ok: bool, residual: real)
    requires Compiled(g) && e < |g.edges|
    requires next != current && next.Length == current.Length == g.messageLength
    requires Positive(Range(g, next[..], e)) && Positive(current[..]) && 0.0 <= damping < 1.0
    modifies next, current
    ensures ok && residual == Change(old(Range(g, next[..], e)), old(Range(g, current[..], e)))
    ensures Range(g, current[..], e) == Updated(old(Range(g, next[..], e)), old(Range(g, current[..], e)), damping)
    ensures OnlyRange(g, old(current[..]), current[..], e) && Positive(current[..])
  {
    hide Compiled, EdgeRight, Total, Mixed, MaxGap;
    RangesDisjoint(g, e, e);
    EdgeNamed(g, e);
    var lo, hi := g.edges[e].offset, g.edges[e].offset + g.edges[e].cardinality;
    ghost var raw, was := next[lo..hi], current[lo..hi];
    assert raw == Range(g, next[..], e) && was == Range(g, current[..], e);
    UpdatedPositive(raw, was, damping);
    ok := Normalise(next, lo, hi);
    if !ok { return false, 0.0; }
    ok, residual := DampAndResidual(next, current, lo, hi, damping);
    assert current[lo..hi] == Updated(raw, was, damping);
    assert Range(g, current[..], e) == current[lo..hi];
    forall i | 0 <= i < current.Length ensures current[i] > 0.0 {
      if lo <= i < hi { assert current[i] == current[lo..hi][i - lo]; }
    }
  }

  lemma {:induction false} EdgeNamed(g: FactorGraph, e: nat)
    requires Compiled(g) && e < |g.edges|
    ensures g.edges[e].factor < |g.factors| == |g.factorEdges| == |g.strides|
    ensures g.edges[e].variable < |g.cardinalities| == |g.variableEdges|
    ensures g.edges[e].cardinality == g.cardinalities[g.edges[e].variable] >= 2
    ensures var t := g.factors[g.edges[e].factor];
            && ValidTable(t) && g.edges[e].position < |t.variables| == |g.strides[g.edges[e].factor]|
            && t.variables[g.edges[e].position] == g.edges[e].variable
            && t.cardinalities[g.edges[e].position] == g.edges[e].cardinality
            && g.strides[g.edges[e].factor][g.edges[e].position] == Stride(t.cardinalities, g.edges[e].position) > 0
  {
    assert EdgeRight(g.cardinalities, g.factors, g.edges, e);
    var f := g.edges[e].factor;
    assert StridesRight(g.factors[f], g.strides[f]);
    SizePositive(g.factors[f].cardinalities[g.edges[e].position + 1..]);
  }

  lemma {:induction false} FactorEdgeNamed(g: FactorGraph, f: nat, i: nat)
    requires Compiled(g) && f < |g.factors| && i < |g.factorEdges[f]|
    ensures g.factorEdges[f][i] < |g.edges| && g.edges[g.factorEdges[f][i]].factor == f
  {
    PositionsExact(FactorKeys(g.edges), f);
    assert g.factorEdges[f][i] in g.factorEdges[f];
    assert IsPosition(FactorKeys(g.edges), f, g.factorEdges[f][i]);
  }

  lemma {:induction false} VariableEdgeNamed(g: FactorGraph, v: nat, i: nat)
    requires Compiled(g) && v < |g.cardinalities| && i < |g.variableEdges[v]|
    ensures g.variableEdges[v][i] < |g.edges| && g.edges[g.variableEdges[v][i]].variable == v
  {
    PositionsExact(VariableKeys(g.edges), v);
    assert g.variableEdges[v][i] in g.variableEdges[v];
    assert IsPosition(VariableKeys(g.edges), v, g.variableEdges[v][i]);
  }

  /** The flat entry's value of edge `d`'s variable, by its stride. */
  method StateOf(g: FactorGraph, d: nat, flat: nat) returns (state: nat)
    requires Compiled(g) && d < |g.edges|
    ensures state == StateIn(g, d, flat) < g.edges[d].cardinality
  {
    EdgeNamed(g, d);
    var edge := g.edges[d];
    state := (flat / g.strides[edge.factor][edge.position]) % edge.cardinality;
  }

  /** One table entry's contribution to edge `e`'s message. */
  method Contribution(g: FactorGraph, e: nat, toFactor: array<real>, flat: nat) returns (value: real)
    requires Compiled(g) && e < |g.edges| && toFactor.Length == g.messageLength
    requires g.edges[e].factor < |g.factors| && flat < |g.factors[g.edges[e].factor].potentials|
    ensures value == EntryValue(g, e, toFactor[..], flat)
  {
    hide Compiled, EdgeRight, StateIn, Others;
    EdgeNamed(g, e);
    var f := g.edges[e].factor;
    ghost var messages := toFactor[..];
    ghost var term := (d: nat) => MessageAt(g, messages, d, StateIn(g, d, flat));
    value := g.factors[f].potentials[flat];
    NoOthers(e, term);
    var list := g.factorEdges[f];
    for i := 0 to |list|
      invariant value == g.factors[f].potentials[flat] * Others(list[..i], e, term)
    {
      OthersStep(list, i, e, term);
      if list[i] != e {
        FactorEdgeNamed(g, f, i);
        var state := StateOf(g, list[i], flat);
        RangesDisjoint(g, list[i], list[i]);
        Associate(g.factors[f].potentials[flat], Others(list[..i], e, term), term(list[i]));
        value := value * toFactor[g.edges[list[i]].offset + state];
      }
    }
    assert list[..|list|] == list;
  }

  lemma {:induction false} NoOthers(skip: nat, term: nat -> real)
    ensures forall list: seq<nat> :: Others(list[..0], skip, term) == 1.0
  {}

  lemma {:induction false} Associate(x: real, y: real, z: real)
    ensures (x * y) * z == x * (y * z)
  {}

  /** Computes edge `e`'s raw message to its variable into its range of `next`. */
  method FillFactorMessage(g: FactorGraph, e: nat, toFactor: array<real>, next: array<real>)
    requires Compiled(g) && e < |g.edges| && toFactor != next && toFactor.Length == next.Length == g.messageLength
    modifies next
    ensures Range(g, next[..], e) == FactorMessage(g, e, toFactor[..])
  {
    hide Compiled, EdgeRight, StateIn, EntryValue;
    EdgeNamed(g, e);
    RangesDisjoint(g, e, e);
    ghost var messages := toFactor[..];
    var lo, hi := g.edges[e].offset, g.edges[e].offset + g.edges[e].cardinality;
    for i := lo to hi
      invariant forall j :: lo <= j < i ==> next[j] == 0.0
    {
      next[i] := 0.0;
    }
    var potentials := g.factors[g.edges[e].factor].potentials;
    for flat := 0 to |potentials|
      invariant toFactor[..] == messages
      invariant forall j :: lo <= j < hi ==> next[j] == EntrySum(g, e, messages, j - lo, flat)
    {
      var state := StateOf(g, e, flat);
      var value := Contribution(g, e, toFactor, flat);
      forall s: nat { EntrySumStep(g, e, messages, s, flat); }
      next[lo + state] := next[lo + state] + value;
    }
    ghost var message := FactorMessage(g, e, messages);
    forall s: nat | s < hi - lo ensures Range(g, next[..], e)[s] == message[s] {
      assert Range(g, next[..], e)[s] == next[lo + s];
    }
    assert Range(g, next[..], e) == message;
  }

  lemma {:induction false} EntrySumStep(g: FactorGraph, e: nat, messages: seq<real>, s: nat, flat: nat)
    requires Compiled(g) && e < |g.edges|
    ensures EntrySum(g, e, messages, s, flat + 1) ==
            EntrySum(g, e, messages, s, flat) + Selected(g, e, messages, s, flat)
  {}

  /** Computes edge `e`'s raw message to its factor into its range of `next`. */
  method FillVariableMessage(g: FactorGraph, c: SumProductConfig, e: nat, toVariable: array<real>, next: array<real>)
    requires Compiled(g) && e < |g.edges| && toVariable != next && toVariable.Length == next.Length == g.messageLength
    requires g.edges[e].variable < |g.cardinalities| == |g.variableEdges|
    modifies next
    ensures Range(g, next[..], e) == BeliefMessage(g, c, g.edges[e].variable, e, toVariable[..])
  {
    hide Compiled, EdgeRight, Belief;
    EdgeNamed(g, e);
    RangesDisjoint(g, e, e);
    ghost var messages := toVariable[..];
    var v, lo := g.edges[e].variable, g.edges[e].offset;
    for s := 0 to g.edges[e].cardinality
      invariant toVariable[..] == messages
      invariant forall j :: lo <= j < lo + s ==> next[j] == Belief(g, c, v, e, messages, j - lo)
    {
      var value := BeliefAt(g, c, v, e, toVariable, s);
      next[lo + s] := value;
    }
    ghost var message := BeliefMessage(g, c, v, e, messages);
    forall s: nat | s < g.edges[e].cardinality ensures Range(g, next[..], e)[s] == message[s] {
      assert Range(g, next[..], e)[s] == next[lo + s];
    }
    assert Range(g, next[..], e) == message;
  }

  /** A variable's prior at one state times the messages of its factors, except along `skip`. */
  method BeliefAt(g: FactorGraph, c: SumProductConfig, v: nat, skip: nat, toVariable: array<real>, state: nat)
    returns (value: real)
    requires Compiled(g) && toVariable.Length == g.messageLength
    requires v < |g.cardinalities| == |g.variableEdges| && state < g.cardinalities[v]
    ensures value == Belief(g, c, v, skip, toVariable[..], state)
  {
    hide Compiled, EdgeRight, Others;
    ghost var messages := toVariable[..];
    ghost var term := (d: nat) => MessageAt(g, messages, d, state);
    var prior := Prior(c, g.cardinalities[v], state);
    value := prior;
    NoOthers(skip, term);
    var list := g.variableEdges[v];
    for i := 0 to |list|
      invariant value == prior * Others(list[..i], skip, term)
    {
      OthersStep(list, i, skip, term);
      if list[i] != skip {
        VariableEdgeNamed(g, v, i);
        EdgeNamed(g, list[i]);
        RangesDisjoint(g, list[i], list[i]);
        Associate(prior, Others(list[..i], skip, term), term(list[i]));
        value := value * toVariable[g.edges[list[i]].offset + state];
      }
    }
    assert list[..|list|] == list;
  }

  // ----- positive messages stay positive -----

  lemma {:induction false} SumSomePositive(n: nat, f: nat -> real, k: nat)
    requires k < n && f(k) > 0.0 && forall i: nat :: i < n ==> f(i) >= 0.0
    ensures Sum(n, f) > 0.0
  {
    if k == n - 1 { SumNonNegative(n - 1, f); } else { SumSomePositive(n - 1, f, k); }
  }

  lemma {:induction false} SumNonNegative(n: nat, f: nat -> real)
    requires forall i: nat :: i < n ==> f(i) >= 0.0
    ensures Sum(n, f) >= 0.0
  {
    if n > 0 { SumNonNegative(n - 1, f); }
  }

  lemma {:induction false} MessageAtPositive(g: FactorGraph, buffer: seq<real>, e: nat, state: nat)
    requires Positive(buffer)
    ensures MessageAt(g, buffer, e, state) > 0.0
  {}

  lemma {:induction false} EntryValuePositive(g: FactorGraph, e: nat, toFactor: seq<real>, flat: nat)
    requires Compiled(g) && e < |g.edges| && Positive(toFactor)
    ensures EntryValue(g, e, toFactor, flat) > 0.0
  {
    hide StateIn;
    EdgeNamed(g, e);
    var f := g.edges[e].factor;
    var term := (d: nat) => MessageAt(g, toFactor, d, StateIn(g, d, flat));
    forall d: nat ensures term(d) > 0.0 { MessageAtPositive(g, toFactor, d, StateIn(g, d, flat)); }
    OthersPositive(g.factorEdges[f], e, term);
    ProductPositive(Read(g.factors[f].potentials, flat), Others(g.factorEdges[f], e, term));
  }

  lemma {:induction false} ProductPositive(x: real, y: real)
    requires x > 0.0 && y > 0.0
    ensures x * y > 0.0
  {}

  /** Some table entry gives the variable at position `p` the value `state`. */
  lemma {:induction false} SomeEntry(t: FactorTable, p: nat, state: nat) returns (flat: nat)
    requires ValidTable(t) && p < |t.variables| && state < t.cardinalities[p]
    ensures flat < |t.potentials| && Digit(t.cardinalities, p, flat) == state
  {
    var values := seq(|t.cardinalities|, q => if q == p then state else 0);
    IndexBelowSize(t.cardinalities, values);
    DigitOfIndex(t.cardinalities, values, p);
    flat := Index(t.cardinalities, values);
  }

  lemma {:induction false} FactorMessagePositive(g: FactorGraph, e: nat, toFactor: seq<real>)
    requires Compiled(g) && e < |g.edges| && Positive(toFactor)
    ensures Positive(FactorMessage(g, e, toFactor))
  {
    hide Compiled, EdgeRight, EntryValue;
    EdgeNamed(g, e);
    var t := g.factors[g.edges[e].factor];
    forall s: nat | s < g.edges[e].cardinality ensures FactorMessage(g, e, toFactor)[s] > 0.0 {
      var flat := SomeEntry(t, g.edges[e].position, s);
      forall k: nat { EntryValuePositive(g, e, toFactor, k); }
      var f := (k: nat) => Selected(g, e, toFactor, s, k);
      assert StateIn(g, e, flat) == s;
      SumSomePositive(|t.potentials|, f, flat);
      assert FactorMessage(g, e, toFactor)[s] == EntrySum(g, e, toFactor, s, |t.potentials|);
    }
  }

  lemma {:induction false} BeliefPositive(g: FactorGraph, c: SumProductConfig, v: nat, skip: nat, toVariable: seq<real>)
    requires ValidConfig(c) && v < |g.cardinalities| == |g.variableEdges| && Positive(toVariable)
    ensures Positive(BeliefMessage(g, c, v, skip, toVariable))
  {
    forall s: nat | s < g.cardinalities[v] ensures BeliefMessage(g, c, v, skip, toVariable)[s] > 0.0 {
      var term := (d: nat) => MessageAt(g, toVariable, d, s);
      forall d: nat ensures term(d) > 0.0 { MessageAtPositive(g, toVariable, d, s); }
      OthersPositive(g.variableEdges[v], skip, term);
      ProductPositive(Prior(c, g.cardinalities[v], s), Others(g.variableEdges[v], skip, term));
    }
  }

  // ----- one pass -----

  /** What edge `e`'s message becomes in a pass over messages `source`. */
  ghost function RawMessage(
    g: FactorGraph, c: SumProductConfig, toVariables: bool, source: seq<real>, e: nat)
    : (m: seq<real>)
    requires Compiled(g) && e < |g.edges|
    ensures |m| == g.edges[e].cardinality
  {
    EdgeNamed(g, e);
    if toVariables then FactorMessage(g, e, source) else BeliefMessage(g, c, g.edges[e].variable, e, source)
  }

  lemma {:induction false} RawPositive(
    g: FactorGraph, c: SumProductConfig, toVariables: bool, source: seq<real>, e: nat)
    requires Compiled(g) && ValidConfig(c) && e < |g.edges| && Positive(source)
    ensures Positive(RawMessage(g, c, toVariables, source, e))
  {
    EdgeNamed(g, e);
    if toVariables {
      FactorMessagePositive(g, e, source);
    } else {
      BeliefPositive(g, c, g.edges[e].variable, e, source);
    }
  }

  ghost predicate MessagePassed(
    g: FactorGraph, c: SumProductConfig, toVariables: bool, source: seq<real>, before: seq<real>, after: seq<real>,
    damping: real, e: nat)
    requires Compiled(g) && e < |g.edges| && |before| == |after| == g.messageLength
  {
    Range(g, after, e) == Updated(RawMessage(g, c, toVariables, source, e), Range(g, before, e), damping)
  }

  /** The first `k` messages have been replaced, the others not yet. */
  ghost predicate PassedUpTo(
    g: FactorGraph, c: SumProductConfig, toVariables: bool, source: seq<real>, before: seq<real>, after: seq<real>,
    damping: real, k: nat)
    requires Compiled(g)
  {
    && |before| == |after| == g.messageLength
    && (forall e: nat {:trigger MessagePassed(g, c, toVariables, source, before, after, damping, e)} ::
          e < k && e < |g.edges| ==> MessagePassed(g, c, toVariables, source, before, after, damping, e))
    && (forall e: nat {:trigger Range(g, after, e)} ::
          k <= e < |g.edges| ==> Range(g, after, e) == Range(g, before, e))
  }

  ghost predicate Passed(
    g: FactorGraph, c: SumProductConfig, toVariables: bool, source: seq<real>, before: seq<real>, after: seq<real>,
    damping: real)
    requires Compiled(g)
  {
    PassedUpTo(g, c, toVariables, source, before, after, damping, |g.edges|)
  }

  /** The largest change among the first `k` messages. */
  ghost function PassChange(
    g: FactorGraph, c: SumProductConfig, toVariables: bool, source: seq<real>, before: seq<real>, k: nat): real
    requires Compiled(g) && k <= |g.edges| && |before| == g.messageLength
  {
    if k == 0 then 0.0
    else Larger(PassChange(g, c, toVariables, source, before, k - 1),
                Change(RawMessage(g, c, toVariables, source, k - 1), Range(g, before, k - 1)))
  }

  lemma {:induction false} PassStep(
    g: FactorGraph, c: SumProductConfig, toVariables: bool, source: seq<real>, before: seq<real>,
    middle: seq<real>, after: seq<real>, damping: real, k: nat)
    requires Compiled(g) && k < |g.edges|
    requires PassedUpTo(g, c, toVariables, source, before, middle, damping, k) && |after| == |middle|
    requires OnlyRange(g, middle, after, k)
    requires Range(g, after, k) == Updated(RawMessage(g, c, toVariables, source, k), Range(g, middle, k), damping)
    ensures PassedUpTo(g, c, toVariables, source, before, after, damping, k + 1)
  {
    hide Compiled, RawMessage, Range, Updated;
    forall e: nat | e < k ensures MessagePassed(g, c, toVariables, source, before, after, damping, e) {
      assert MessagePassed(g, c, toVariables, source, before, middle, damping, e);
      OtherRangesKept(g, middle, after, k, e);
    }
    forall e: nat | k < e < |g.edges| ensures Range(g, after, e) == Range(g, before, e) {
      OtherRangesKept(g, middle, after, k, e);
    }
    assert MessagePassed(g, c, toVariables, source, before, after, damping, k);
  }

  /** Recomputes every factor-to-variable message from the variable-to-factor messages. */
  method FactorPass(
    g: FactorGraph, c: SumProductConfig, toFactor: array<real>, toVariable: array<real>, next: array<real>,
    damping: real)
    returns (ok: bool, residual: real)
    requires Compiled(g) && ValidConfig(c) && toFactor != toVariable && toFactor != next && toVariable != next
    requires toFactor.Length == toVariable.Length == next.Length == g.messageLength
    requires Positive(toFactor[..]) && Positive(toVariable[..]) && 0.0 <= damping < 1.0
    modifies toVariable, next
    ensures ok && Positive(toVariable[..])
    ensures Passed(g, c, true, toFactor[..], old(toVariable[..]), toVariable[..], damping)
    ensures residual == PassChange(g, c, true, toFactor[..], old(toVariable[..]), |g.edges|)
  {
    hide Compiled, ValidConfig, EdgeRight, PassedUpTo, RawMessage, Range, Change, Updated, Positive, OnlyRange;
    residual := 0.0;
    ghost var source, before := toFactor[..], toVariable[..];
    PassStart(g, c, true, source, before, damping);
    for e := 0 to |g.edges|
      invariant toFactor[..] == source && Positive(toVariable[..])
      invariant PassedUpTo(g, c, true, source, before, toVariable[..], damping, e)
      invariant residual == PassChange(g, c, true, source, before, e)
    {
      ghost var middle := toVariable[..];
      FillFactorMessage(g, e, toFactor, next);
      RawIsFactorMessage(g, c, source, e);
      RawPositive(g, c, true, source, e);
      RangeNotYet(g, c, true, source, before, middle, damping, e);
      var change;
      ok, change := Install(g, e, next, toVariable, damping);
      if !ok { return; }
      PassStep(g, c, true, source, before, middle, toVariable[..], damping, e);
      residual := Larger(residual, change);
    }
    ok := true;
  }

  /** Recomputes every variable-to-factor message from the factor-to-variable messages. */
  method VariablePass(
    g: FactorGraph, c: SumProductConfig, toFactor: array<real>, toVariable: array<real>, next: array<real>,
    damping: real)
    returns (ok: bool, residual: real)
    requires Compiled(g) && ValidConfig(c) && toFactor != toVariable && toFactor != next && toVariable != next
    requires toFactor.Length == toVariable.Length == next.Length == g.messageLength
    requires Positive(toFactor[..]) && Positive(toVariable[..]) && 0.0 <= damping < 1.0
    modifies toFactor, next
    ensures ok && Positive(toFactor[..])
    ensures Passed(g, c, false, toVariable[..], old(toFactor[..]), toFactor[..], damping)
    ensures residual == PassChange(g, c, false, toVariable[..], old(toFactor[..]), |g.edges|)
  {
    hide Compiled, ValidConfig, EdgeRight, PassedUpTo, RawMessage, Range, Change, Updated, Positive, OnlyRange;
    residual := 0.0;
    ghost var source, before := toVariable[..], toFactor[..];
    PassStart(g, c, false, source, before, damping);
    for e := 0 to |g.edges|
      invariant toVariable[..] == source && Positive(toFactor[..])
      invariant PassedUpTo(g, c, false, source, before, toFactor[..], damping, e)
      invariant residual == PassChange(g, c, false, source, before, e)
    {
      ghost var middle := toFactor[..];
      EdgeNamed(g, e);
      FillVariableMessage(g, c, e, toVariable, next);
      RawIsBelief(g, c, source, e);
      RawPositive(g, c, false, source, e);
      RangeNotYet(g, c, false, source, before, middle, damping, e);
      var change;
      ok, change := Install(g, e, next, toFactor, damping);
      if !ok { return; }
      PassStep(g, c, false, source, before, middle, toFactor[..], damping, e);
      residual := Larger(residual, change);
    }
    ok := true;
  }

  lemma {:induction false} PassStart(
    g: FactorGraph, c: SumProductConfig, toVariables: bool, source: seq<real>, before: seq<real>, damping: real)
    requires Compiled(g) && |before| == g.messageLength
    ensures PassedUpTo(g, c, toVariables, source, before, before, damping, 0)
  {}

  lemma {:induction false} RangeNotYet(
    g: FactorGraph, c: SumProductConfig, toVariables: bool, source: seq<real>, before: seq<real>, middle: seq<real>,
    damping: real, e: nat)
    requires Compiled(g) && e < |g.edges| && PassedUpTo(g, c, toVariables, source, before, middle, damping, e)
    ensures |middle| == |before| == g.messageLength && Range(g, middle, e) == Range(g, before, e)
  {}

  lemma {:induction false} RawIsFactorMessage(g: FactorGraph, c: SumProductConfig, source: seq<real>, e: nat)
    requires Compiled(g) && e < |g.edges|
    ensures RawMessage(g, c, true, source, e) == FactorMessage(g, e, source)
  {}

  lemma {:induction false} RawIsBelief(g: FactorGraph, c: SumProductConfig, source: seq<real>, e: nat)
    requires Compiled(g) && e < |g.edges|
    ensures g.edges[e].variable < |g.cardinalities| == |g.variableEdges|
    ensures RawMessage(g, c, false, source, e) == BeliefMessage(g, c, g.edges[e].variable, e, source)
  {
    EdgeNamed(g, e);
  }
}
