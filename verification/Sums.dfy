/** Finite real sums, and sums over all values of a set of variables. */
module Sums {

  function Sum(n: nat, f: nat -> real): real {
    if n == 0 then 0.0 else Sum(n - 1, f) + f(n - 1)
  }

  lemma {:induction false} SumSame(n: nat, f: nat -> real, g: nat -> real)
    requires forall i: nat :: i < n ==> f(i) == g(i)
    ensures Sum(n, f) == Sum(n, g)
  {
    if n > 0 { SumSame(n - 1, f, g); }
  }

  lemma {:induction false} SumScale(n: nat, f: nat -> real, g: nat -> real, c: real)
    requires forall i: nat :: i < n ==> g(i) == f(i) * c
    ensures Sum(n, g) == Sum(n, f) * c
  {
    if n > 0 {
      SumScale(n - 1, f, g, c);
      assert (Sum(n - 1, f) + f(n - 1)) * c == Sum(n - 1, f) * c + f(n - 1) * c;
    }
  }

  lemma {:induction false} SumAdd(n: nat, f: nat -> real, g: nat -> real, h: nat -> real)
    requires forall i: nat :: i < n ==> h(i) == f(i) + g(i)
    ensures Sum(n, h) == Sum(n, f) + Sum(n, g)
  {
    if n > 0 { SumAdd(n - 1, f, g, h); }
  }

  lemma {:induction false} SumZero(n: nat, f: nat -> real)
    requires forall i: nat :: i < n ==> f(i) == 0.0
    ensures Sum(n, f) == 0.0
  {
    if n > 0 { SumZero(n - 1, f); }
  }

  lemma {:induction false} SumPositive(n: nat, f: nat -> real)
    requires n > 0 && forall i: nat :: i < n ==> f(i) > 0.0
    ensures Sum(n, f) > 0.0
  {
    if n > 1 { SumPositive(n - 1, f); }
  }

  /** A sum with one non-zero term. */
  lemma {:induction false} SumPick(n: nat, f: nat -> real, k: nat)
    requires k < n && forall i: nat :: i < n && i != k ==> f(i) == 0.0
    ensures Sum(n, f) == f(k)
  {
    if k == n - 1 { SumZero(n - 1, f); } else { SumPick(n - 1, f, k); }
  }

  function Row(m: nat, f: (nat, nat) -> real, i: nat): real { Sum(m, (j: nat) => f(i, j)) }

  function Column(n: nat, f: (nat, nat) -> real, j: nat): real { Sum(n, (i: nat) => f(i, j)) }

  /** Finite sums commute. */
  lemma {:induction false} SumSwap(n: nat, m: nat, f: (nat, nat) -> real)
    ensures Sum(n, (i: nat) => Row(m, f, i)) == Sum(m, (j: nat) => Column(n, f, j))
  {
    var columns := (j: nat) => Column(n, f, j);
    if n == 0 {
      SumZero(m, columns);
    } else {
      var k: nat := n - 1;
      var fewer := (j: nat) => Column(k, f, j);
      var last := (j: nat) => f(k, j);
      SumSwap(k, m, f);
      SumAdd(m, fewer, last, columns);
    }
  }

  lemma {:induction false} SumSplit(n: nat, m: nat, f: nat -> real, tail: nat -> real)
    requires forall j: nat :: tail(j) == f(n + j)
    ensures Sum(n + m, f) == Sum(n, f) + Sum(m, tail)
  {
    if m > 0 { SumSplit(n, m - 1, f, tail); }
  }

  /** The sum of `width` values of `f` from `base` on. */
  /** Where block `s` begins, when every block is `width` wide. */
  function BlockStart(base: nat, s: nat, width: nat): nat { base + s * width }

  function BlockSum(width: nat, f: nat -> real, base: nat): real { Sum(width, (r: nat) => f(base + r)) }

  lemma {:induction false} BlockSplit(n: nat, m: nat, f: nat -> real, base: nat)
    ensures BlockSum(n + m, f, base) == BlockSum(n, f, base) + BlockSum(m, f, base + n)
  {
    SumSplit(n, m, (r: nat) => f(base + r), (r: nat) => f(base + n + r));
  }

  /** A sum cut into `blocks` blocks of length `width`. */
  lemma {:induction false} BlockSums(blocks: nat, width: nat, f: nat -> real, base: nat)
    ensures BlockSum(blocks * width, f, base) ==
            Sum(blocks, (s: nat) => BlockSum(width, f, BlockStart(base, s, width)))
  {
    hide BlockSum;
    var sums := (s: nat) => BlockSum(width, f, BlockStart(base, s, width));
    if blocks == 0 {
      assert BlockSum(0 * width, f, base) == 0.0 by { EmptyBlock(f, base); }
    } else {
      var k: nat := blocks - 1;
      BlockSums(k, width, f, base);
      assert blocks * width == k * width + width;
      BlockSplit(k * width, width, f, base);
      assert Sum(blocks, sums) == Sum(k, sums) + sums(k);
    }
  }

  lemma {:induction false} EmptyBlock(f: nat -> real, base: nat)
    ensures BlockSum(0, f, base) == 0.0
  {}

  // ----- assignments -----

  /** A value for each variable; variables not mentioned have value zero. */
  type Assignment = map<nat, nat>

  function At(a: Assignment, v: nat): nat { if v in a then a[v] else 0 }

  /** `b` is `a` with the variables of `over` below `n` set to any of their values. */
  ghost predicate Within(a: Assignment, b: Assignment, over: set<nat>, n: nat, card: seq<nat>)
    requires n <= |card|
  {
    && (forall x: nat {:trigger At(b, x)} :: x in over && x < n ==> At(b, x) < card[x])
    && (forall x: nat {:trigger At(b, x)} :: !(x in over && x < n) ==> At(b, x) == At(a, x))
  }

  /** The sum of `g` over every value of every variable below `n` that is in `over`; `card` bounds the values. */
  function SumOver(over: set<nat>, n: nat, card: seq<nat>, a: Assignment, g: Assignment -> real): real
    requires n <= |card|
  {
    if n == 0 then g(a)
    else if n - 1 in over then Sum(card[n - 1], (s: nat) => SumOver(over, n - 1, card, a[n - 1 := s], g))
    else SumOver(over, n - 1, card, a, g)
  }

  /** A sum depends only on the assignments it ranges over. */
  lemma {:induction false} SumOverSame(
    over: set<nat>, n: nat, card: seq<nat>, a: Assignment, g: Assignment -> real, h: Assignment -> real)
    requires n <= |card| && forall b :: Within(a, b, over, n, card) ==> g(b) == h(b)
    ensures SumOver(over, n, card, a, g) == SumOver(over, n, card, a, h)
  {
    if n == 0 {
      assert Within(a, a, over, n, card);
    } else {
      var m: nat := n - 1;
      if m in over {
        var left := (s: nat) => SumOver(over, m, card, a[m := s], g);
        var right := (s: nat) => SumOver(over, m, card, a[m := s], h);
        forall s: nat | s < card[m] ensures left(s) == right(s) {
          SumOverSame(over, m, card, a[m := s], g, h);
        }
        SumSame(card[m], left, right);
      } else {
        SumOverSame(over, m, card, a, g, h);
      }
    }
  }

  /** `g` does not look at the variables in `blind`. */
  ghost predicate Blind(g: Assignment -> real, blind: set<nat>) {
    forall a: Assignment, v: nat, s: nat {:trigger g(a[v := s])} :: v in blind ==> g(a[v := s]) == g(a)
  }

  ghost predicate IsProduct(h: Assignment -> real, g: Assignment -> real, c: Assignment -> real) {
    forall b {:trigger h(b)} :: h(b) == g(b) * c(b)
  }

  lemma {:induction false} BlindTo(c: Assignment -> real, over: set<nat>, a: Assignment, v: nat, s: nat)
    requires Blind(c, over) && v in over
    ensures c(a[v := s]) == c(a)
  {}

  /** A factor that is blind to the summed variables moves out of the sum. */
  lemma {:induction false} SumOverScale(
    over: set<nat>, n: nat, card: seq<nat>, a: Assignment,
    g: Assignment -> real, c: Assignment -> real, h: Assignment -> real)
    requires n <= |card| && Blind(c, over) && IsProduct(h, g, c)
    ensures SumOver(over, n, card, a, h) == SumOver(over, n, card, a, g) * c(a)
  {
    hide Blind;
    if n > 0 {
      hide IsProduct;
      var m: nat := n - 1;
      if m in over {
        var inner := (s: nat) => SumOver(over, m, card, a[m := s], g);
        var scaled := (s: nat) => SumOver(over, m, card, a[m := s], h);
        forall s: nat | s < card[m] ensures scaled(s) == inner(s) * c(a) {
          SumOverScale(over, m, card, a[m := s], g, c, h);
          BlindTo(c, over, a, m, s);
        }
        SumScale(card[m], inner, scaled, c(a));
      } else {
        SumOverScale(over, m, card, a, g, c, h);
      }
    }
  }

  /** A sum does not depend on a variable its summand is blind to. */
  lemma {:induction false} SumOverBlind(
    over: set<nat>, n: nat, card: seq<nat>, a: Assignment, g: Assignment -> real, v: nat, s: nat)
    requires n <= |card| && Blind(g, {v})
    ensures SumOver(over, n, card, a[v := s], g) == SumOver(over, n, card, a, g)
  {
    if n > 0 {
      var m: nat := n - 1;
      if m in over {
        var left := (t: nat) => SumOver(over, m, card, a[v := s][m := t], g);
        var right := (t: nat) => SumOver(over, m, card, a[m := t], g);
        forall t: nat | t < card[m] ensures left(t) == right(t) {
          if v == m {
            assert a[v := s][m := t] == a[m := t];
          } else {
            assert a[v := s][m := t] == a[m := t][v := s];
            SumOverBlind(over, m, card, a[m := t], g, v, s);
          }
        }
        SumSame(card[m], left, right);
      } else {
        SumOverBlind(over, m, card, a, g, v, s);
      }
    }
  }

  /** An inner sum over a higher variable can be done first. */
  lemma {:induction false} SumOverPush(
    over: set<nat>, n: nat, card: seq<nat>, a: Assignment, j: nat, width: nat,
    k: Assignment -> real, h: Assignment -> real)
    requires n <= |card| && j >= n && forall b: Assignment :: h(b) == Sum(width, (s: nat) => k(b[j := s]))
    ensures SumOver(over, n, card, a, h) == Sum(width, (s: nat) => SumOver(over, n, card, a[j := s], k))
  {
    var goal := (s: nat) => SumOver(over, n, card, a[j := s], k);
    if n == 0 {
      SumSame(width, (s: nat) => k(a[j := s]), goal);
    } else {
      var m: nat := n - 1;
      if m in over {
        var f := (t: nat, s: nat) => SumOver(over, m, card, a[m := t][j := s], k);
        var rows := (t: nat) => Row(width, f, t);
        var outer := (t: nat) => SumOver(over, m, card, a[m := t], h);
        forall t: nat | t < card[m] ensures outer(t) == rows(t) {
          SumOverPush(over, m, card, a[m := t], j, width, k, h);
          SumSame(width, (s: nat) => SumOver(over, m, card, a[m := t][j := s], k), (s: nat) => f(t, s));
        }
        SumSame(card[m], outer, rows);
        SumSwap(card[m], width, f);
        var columns := (s: nat) => Column(card[m], f, s);
        forall s: nat | s < width ensures columns(s) == goal(s) {
          var swapped := (t: nat) => SumOver(over, m, card, a[j := s][m := t], k);
          forall t: nat | t < card[m] ensures f(t, s) == swapped(t) {
            assert a[m := t][j := s] == a[j := s][m := t];
          }
          SumSame(card[m], (t: nat) => f(t, s), swapped);
        }
        SumSame(width, columns, goal);
      } else {
        SumOverPush(over, m, card, a, j, width, k, h);
        SumSame(width, (s: nat) => SumOver(over, m, card, a[j := s], k), goal);
      }
    }
  }

  /** Sums over disjoint variable sets nest, in either order. */
  lemma {:induction false} SumOverNest(
    first: set<nat>, second: set<nat>, n: nat, card: seq<nat>, a: Assignment,
    g: Assignment -> real, inner: Assignment -> real)
    requires n <= |card| && first !! second
    requires forall b :: inner(b) == SumOver(second, n, card, b, g)
    ensures SumOver(first + second, n, card, a, g) == SumOver(first, n, card, a, inner)
  {
    if n > 0 {
      var m: nat := n - 1;
      var lower := b => SumOver(second, m, card, b, g);
      var left := (s: nat) => SumOver(first + second, m, card, a[m := s], g);
      if m in first {
        var right := (s: nat) => SumOver(first, m, card, a[m := s], inner);
        forall s: nat | s < card[m] ensures left(s) == right(s) {
          SumOverNest(first, second, m, card, a[m := s], g, lower);
          SumOverSame(first, m, card, a[m := s], lower, inner);
        }
        SumSame(card[m], left, right);
      } else if m in second {
        var right := (s: nat) => SumOver(first, m, card, a[m := s], lower);
        forall s: nat | s < card[m] ensures left(s) == right(s) {
          SumOverNest(first, second, m, card, a[m := s], g, lower);
        }
        SumSame(card[m], left, right);
        forall b: Assignment ensures inner(b) == Sum(card[m], (s: nat) => lower(b[m := s])) {
          SumSame(card[m], (s: nat) => SumOver(second, m, card, b[m := s], g), (s: nat) => lower(b[m := s]));
        }
        SumOverPush(first, m, card, a, m, card[m], lower, inner);
      } else {
        SumOverNest(first, second, m, card, a, g, lower);
        SumOverSame(first, m, card, a, lower, inner);
      }
    }
  }

  lemma {:induction false} SumOverNone(over: set<nat>, n: nat, card: seq<nat>, a: Assignment, g: Assignment -> real)
    requires n <= |card| && forall v: nat :: v < n ==> v !in over
    ensures SumOver(over, n, card, a, g) == g(a)
  {
    if n > 0 { SumOverNone(over, n - 1, card, a, g); }
  }

  /** Summing over one variable. */
  lemma {:induction false} SumOverOne(v: nat, n: nat, card: seq<nat>, a: Assignment, g: Assignment -> real)
    requires v < n <= |card|
    ensures SumOver({v}, n, card, a, g) == Sum(card[v], (s: nat) => g(a[v := s]))
  {
    if n - 1 == v {
      var left := (s: nat) => SumOver({v}, v, card, a[v := s], g);
      forall s: nat | s < card[v] ensures left(s) == g(a[v := s]) {
        SumOverNone({v}, v, card, a[v := s], g);
      }
      SumSame(card[v], left, (s: nat) => g(a[v := s]));
    } else {
      SumOverOne(v, n - 1, card, a, g);
    }
  }

  /** Peeling one variable off a sum, whatever its index. */
  lemma {:induction false} SumOverPeel(
    v: nat, rest: set<nat>, n: nat, card: seq<nat>, a: Assignment, g: Assignment -> real)
    requires v < n <= |card| && v !in rest
    ensures SumOver({v} + rest, n, card, a, g) == Sum(card[v], (s: nat) => SumOver(rest, n, card, a[v := s], g))
  {
    var inner := b => SumOver(rest, n, card, b, g);
    SumOverNest({v}, rest, n, card, a, g, inner);
    SumOverOne(v, n, card, a, inner);
    SumSame(card[v], (s: nat) => inner(a[v := s]), (s: nat) => SumOver(rest, n, card, a[v := s], g));
  }

  lemma {:induction false} SumOverPositive(over: set<nat>, n: nat, card: seq<nat>, a: Assignment, g: Assignment -> real)
    requires n <= |card| && (forall b :: g(b) > 0.0) && forall v: nat :: v < |card| ==> card[v] > 0
    ensures SumOver(over, n, card, a, g) > 0.0
  {
    if n > 0 {
      var m: nat := n - 1;
      if m in over {
        var inner := (s: nat) => SumOver(over, m, card, a[m := s], g);
        forall s: nat | s < card[m] ensures inner(s) > 0.0 { SumOverPositive(over, m, card, a[m := s], g); }
        SumPositive(card[m], inner);
      } else {
        SumOverPositive(over, m, card, a, g);
      }
    }
  }
}
