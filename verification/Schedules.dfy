/** Runs of the solver's passes: what one iteration does to the messages, and when it has settled. */
module Schedules {
  import opened FactorGraphs
  import opened SumProduct

  datatype Messages = Messages(toFactor: seq<real>, toVariable: seq<real>)

  function Ones(n: nat): (ones: seq<real>)
    ensures |ones| == n && forall i :: 0 <= i < n ==> ones[i] == 1.0
  {
    seq(n, _ => 1.0)
  }

  predicate Fitting(g: FactorGraph, m: Messages) { |m.toFactor| == |m.toVariable| == g.messageLength }

  /** One iteration: every message to a variable from the messages to factors, then every message to a factor from
      the new messages to variables. */
  ghost predicate Pass(g: FactorGraph, c: SumProductConfig, before: Messages, after: Messages, damping: real)
    requires Compiled(g)
  {
    && Fitting(g, before) && Fitting(g, after)
    && Passed(g, c, true, before.toFactor, before.toVariable, after.toVariable, damping)
    && Passed(g, c, false, after.toVariable, before.toFactor, after.toFactor, damping)
  }

  /** A run: all messages start at one, and each iteration is a pass. */
  ghost predicate Schedule(g: FactorGraph, c: SumProductConfig, history: seq<Messages>, damping: real)
    requires Compiled(g)
  {
    && history != [] && history[0] == Messages(Ones(g.messageLength), Ones(g.messageLength))
    && forall i: nat {:trigger history[i]} :: 0 < i < |history| ==> Pass(g, c, history[i - 1], history[i], damping)
  }

  lemma {:induction false} ScheduleStep(
    g: FactorGraph, c: SumProductConfig, history: seq<Messages>, next: Messages, damping: real)
    requires Compiled(g) && Schedule(g, c, history, damping) && Pass(g, c, history[|history| - 1], next, damping)
    ensures Schedule(g, c, history + [next], damping)
  {
    hide Compiled, Pass;
    var longer := history + [next];
    forall i: nat | 0 < i < |longer| ensures Pass(g, c, longer[i - 1], longer[i], damping) {
      if i < |history| { assert longer[i] == history[i] && longer[i - 1] == history[i - 1]; }
    }
  }

  // ----- damping -----

  /** A damped update keeps a distribution one, and moves each of its values by `1 - damping` of its distance to the
      recomputed message. */
  lemma {:induction false} DampedMoves(raw: seq<real>, current: seq<real>, damping: real, i: nat)
    requires |raw| == |current| && i < |raw| && Positive(raw) && Positive(current) && 0.0 <= damping < 1.0
    requires Total(current) == 1.0
    ensures Total(raw) > 0.0 && Total(Updated(raw, current, damping)) == 1.0
    ensures Updated(raw, current, damping)[i] - current[i] == (1.0 - damping) * (raw[i] / Total(raw) - current[i])
  {
    hide Total, Normalised, Positive, Mixed;
    UpdatedPositive(raw, current, damping);
    var new_, mixed := Normalised(raw), Mixed(Normalised(raw), current, damping);
    NormalisedSumsToOne(raw);
    MixedTotal(new_, current, damping);
    MixOfOnes(damping);
    NormalisedSumsToOne(mixed);
    NormalisedAt(raw, i);
    NormalisedAt(mixed, i);
    MixedIs(new_, current, damping, i);
    MixMoves(damping, current[i], new_[i]);
  }

  lemma {:induction false} MixedIs(next: seq<real>, current: seq<real>, damping: real, i: nat)
    requires |next| == |current| && i < |next|
    ensures Mixed(next, current, damping)[i] == damping * current[i] + (1.0 - damping) * next[i]
  {}

  lemma {:induction false} MixMoves(damping: real, x: real, y: real)
    ensures (damping * x + (1.0 - damping) * y) - x == (1.0 - damping) * (y - x)
  {}

  lemma {:induction false} MixOfOnes(damping: real)
    ensures damping * 1.0 + (1.0 - damping) * 1.0 == 1.0
  {}

  lemma {:induction false} NormalisedAt(m: seq<real>, i: nat)
    requires i < |m| && Total(m) != 0.0
    ensures Normalised(m)[i] == m[i] / Total(m)
  {}

  lemma {:induction false} MixedTotal(next: seq<real>, current: seq<real>, damping: real)
    requires |next| == |current|
    ensures Total(Mixed(next, current, damping)) == damping * Total(current) + (1.0 - damping) * Total(next)
  {
    if next == [] {
      MixOfNothing(damping);
    } else {
      var n := |next| - 1;
      MixedTotal(next[..n], current[..n], damping);
      assert Mixed(next, current, damping)[..n] == Mixed(next[..n], current[..n], damping);
      MixedIs(next, current, damping, n);
      MixAdds(damping, Total(current[..n]), current[n], Total(next[..n]), next[n]);
    }
  }

  lemma {:induction false} MixOfNothing(damping: real)
    ensures damping * 0.0 + (1.0 - damping) * 0.0 == 0.0
  {}

  lemma {:induction false} MixAdds(damping: real, x: real, p: real, y: real, q: real)
    ensures damping * (x + p) + (1.0 - damping) * (y + q) ==
            (damping * x + (1.0 - damping) * y) + (damping * p + (1.0 - damping) * q)
  {}

  // ----- residuals -----

  /** No value of the normalised `raw` is further than `bound` from the current one. */
  ghost predicate Close(raw: seq<real>, current: seq<real>, bound: real)
    requires |raw| == |current| && Total(raw) > 0.0
  {
    forall i: nat {:trigger current[i]} :: i < |raw| ==> -bound <= raw[i] / Total(raw) - current[i] <= bound
  }

  lemma {:induction false} GapWithin(next: seq<real>, current: seq<real>, bound: real)
    requires |next| == |current| && bound >= 0.0
    ensures MaxGap(next, current) <= bound <==>
            forall i: nat {:trigger current[i]} :: i < |next| ==> -bound <= next[i] - current[i] <= bound
  {
    if next != [] {
      var n: nat := |next| - 1;
      GapWithin(next[..n], current[..n], bound);
      assert MaxGap(next, current) <= bound <==>
             MaxGap(next[..n], current[..n]) <= bound && -bound <= next[n] - current[n] <= bound;
      assert forall i: nat {:trigger current[..n][i]} ::
          i < n ==> current[..n][i] == current[i] && next[..n][i] == next[i];
      if forall i: nat {:trigger current[i]} :: i < |next| ==> -bound <= next[i] - current[i] <= bound {
        forall i: nat | i < n ensures -bound <= next[..n][i] - current[..n][i] <= bound {
          assert current[..n][i] == current[i];
        }
      } else {
        var i: nat :| i < |next| && !(-bound <= next[i] - current[i] <= bound);
        if i < n { assert current[..n][i] == current[i]; }
      }
    }
  }

  lemma {:induction false} ChangeWithin(raw: seq<real>, current: seq<real>, bound: real)
    requires |raw| == |current| && bound >= 0.0 && Total(raw) > 0.0
    ensures Change(raw, current) <= bound <==> Close(raw, current, bound)
  {
    hide Total;
    GapWithin(Normalised(raw), current, bound);
    forall i: nat | i < |raw| ensures Normalised(raw)[i] == raw[i] / Total(raw) { NormalisedAt(raw, i); }
  }

  /** No message of a pass over `source` is further than `bound` from the one it replaces. */
  ghost predicate Settled(
    g: FactorGraph, c: SumProductConfig, toVariables: bool, source: seq<real>, before: seq<real>, bound: real, k: nat)
    requires Compiled(g) && k <= |g.edges| && |before| == g.messageLength
  {
    forall e: nat {:trigger RawMessage(g, c, toVariables, source, e)} :: e < k ==>
      && Total(RawMessage(g, c, toVariables, source, e)) > 0.0
      && Close(RawMessage(g, c, toVariables, source, e), Range(g, before, e), bound)
  }

  lemma {:induction false} PassSettles(
    g: FactorGraph, c: SumProductConfig, toVariables: bool, source: seq<real>, before: seq<real>, bound: real, k: nat)
    requires Compiled(g) && ValidConfig(c) && k <= |g.edges| && |before| == g.messageLength
    requires Positive(source) && bound >= 0.0
    ensures PassChange(g, c, toVariables, source, before, k) <= bound <==>
            Settled(g, c, toVariables, source, before, bound, k)
  {
    hide Compiled, ValidConfig, RawMessage, Range, Change, Close, Positive;
    if k > 0 {
      PassSettles(g, c, toVariables, source, before, bound, k - 1);
      var raw := RawMessage(g, c, toVariables, source, k - 1);
      RawPositive(g, c, toVariables, source, k - 1);
      SomeCells(g, k - 1);
      TotalPositive(raw);
      ChangeWithin(raw, Range(g, before, k - 1), bound);
    }
  }

  lemma {:induction false} SomeCells(g: FactorGraph, e: nat)
    requires Compiled(g) && e < |g.edges|
    ensures g.edges[e].cardinality > 0
  {
    EdgeNamed(g, e);
  }

  /** The larger of the changes of an iteration's two passes. */
  ghost function Residual(g: FactorGraph, c: SumProductConfig, before: Messages, after: Messages): real
    requires Compiled(g) && Fitting(g, before)
  {
    Larger(PassChange(g, c, true, before.toFactor, before.toVariable, |g.edges|),
           PassChange(g, c, false, after.toVariable, before.toFactor, |g.edges|))
  }

  /** No message the iteration recomputes is further than `bound` from the one before. */
  ghost predicate Steady(g: FactorGraph, c: SumProductConfig, before: Messages, after: Messages, bound: real)
    requires Compiled(g) && Fitting(g, before)
  {
    && Settled(g, c, true, before.toFactor, before.toVariable, bound, |g.edges|)
    && Settled(g, c, false, after.toVariable, before.toFactor, bound, |g.edges|)
  }

  lemma {:induction false} ResidualWithin(
    g: FactorGraph, c: SumProductConfig, before: Messages, after: Messages, bound: real)
    requires Compiled(g) && ValidConfig(c) && Fitting(g, before) && bound >= 0.0
    requires Positive(before.toFactor) && Positive(after.toVariable)
    ensures Residual(g, c, before, after) <= bound <==> Steady(g, c, before, after, bound)
  {
    hide Compiled, ValidConfig, Settled, PassChange;
    PassSettles(g, c, true, before.toFactor, before.toVariable, bound, |g.edges|);
    PassSettles(g, c, false, after.toVariable, before.toFactor, bound, |g.edges|);
  }
}
