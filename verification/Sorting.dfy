/** The library sort of a list of ids: the ascending list with the same elements. */
module Sorting {
  import opened Types

  predicate Ascending(s: seq<nat>) { forall i, j :: 0 <= i < j < |s| ==> s[i] <= s[j] }

  predicate StrictlyAscending(s: seq<nat>) { forall i, j :: 0 <= i < j < |s| ==> s[i] < s[j] }

  lemma {:induction false} Prepend(x: nat, s: seq<nat>)
    requires Ascending(s) && (s == [] || x <= s[0])
    ensures Ascending([x] + s)
  {
    var t := [x] + s;
    forall i, j | 0 <= i < j < |t| ensures t[i] <= t[j] {
      assert t[j] == s[j - 1];
      if i > 0 { assert t[i] == s[i - 1]; }
    }
  }

  lemma {:induction false} AddHead(x: nat, s: seq<nat>)
    ensures multiset([x] + s) == multiset(s) + multiset{x}
  {}

  lemma {:induction false} RestAscends(s: seq<nat>)
    requires Ascending(s) && s != []
    ensures Ascending(s[1..]) && forall i :: 0 <= i < |s| - 1 ==> s[0] <= s[1..][i]
  {}

  function Insert(x: nat, s: seq<nat>): (r: seq<nat>)
    requires Ascending(s)
    ensures Ascending(r) && multiset(r) == multiset(s) + multiset{x} && |r| == |s| + 1
    ensures r[0] == x || (s != [] && r[0] == s[0])
  {
    if s == [] then [x]
    else if x <= s[0] then
      Prepend(x, s);
      AddHead(x, s);
      [x] + s
    else
      RestAscends(s);
      var rest := Insert(x, s[1..]);
      Prepend(s[0], rest);
      AddHead(s[0], rest);
      AddHead(s[0], s[1..]);
      assert s == [s[0]] + s[1..];
      [s[0]] + rest
  }

  function Sort(s: seq<nat>): (r: seq<nat>)
    ensures Ascending(r) && multiset(r) == multiset(s) && |r| == |s|
  {
    if s == [] then []
    else
      assert s == [s[0]] + s[1..];
      Insert(s[0], Sort(s[1..]))
  }

  lemma {:induction false} SortMembers(s: seq<nat>, x: nat)
    ensures x in Sort(s) <==> x in s
  {
    assert x in Sort(s) <==> x in multiset(Sort(s));
    assert x in s <==> x in multiset(s);
  }

  lemma {:induction false} HeadIsMember(s: seq<nat>)
    requires s != []
    ensures s[0] in s
  {}

  /** A strictly ascending list is determined by its members. */
  lemma {:induction false} StrictUnique(a: seq<nat>, b: seq<nat>)
    requires StrictlyAscending(a) && StrictlyAscending(b)
    requires forall x :: x in a <==> x in b
    ensures a == b
  {
    if a == [] {
      if b != [] { HeadIsMember(b); }
    } else {
      assert a[0] in b;
      assert b[0] in a;
      assert a[0] == b[0];
      forall x ensures x in a[1..] <==> x in b[1..] {
        if x in a[1..] { assert x in a; assert x != a[0]; }
        if x in b[1..] { assert x in b; assert x != b[0]; }
      }
      StrictUnique(a[1..], b[1..]);
      assert a == [a[0]] + a[1..] && b == [b[0]] + b[1..];
    }
  }

  ghost function Multiplicity<T>(s: seq<T>, x: T): nat { multiset(s)[x] }

  /** Repetition is a matter of multiplicity. */
  lemma {:induction false} RepeatsShow<T(!new)>(s: seq<T>)
    ensures Distinct(s) <==> forall x :: Multiplicity(s, x) <= 1
  {
    if s != [] {
      var rest := s[1..];
      assert s == [s[0]] + rest;
      RepeatsShow(rest);
      assert forall x :: Multiplicity(s, x) == Multiplicity(rest, x) + (if x == s[0] then 1 else 0);
      if Distinct(s) {
        assert forall i, j :: 0 <= i < j < |rest| ==> rest[i] == s[i + 1] && rest[j] == s[j + 1];
        assert Distinct(rest);
        assert s[0] !in rest;
        assert Multiplicity(rest, s[0]) == 0;
      } else {
        var i, j :| 0 <= i < j < |s| && s[i] == s[j];
        if i == 0 {
          assert rest[j - 1] == s[0];
          assert s[0] in multiset(rest);
          assert Multiplicity(s, s[0]) >= 2;
        } else {
          assert rest[i - 1] == rest[j - 1];
          assert !Distinct(rest);
          var x :| Multiplicity(rest, x) > 1;
          assert Multiplicity(s, x) > 1;
        }
      }
    }
  }

  predicate NeighboursDiffer(s: seq<nat>) { forall i {:trigger s[i]} :: 0 < i < |s| ==> s[i - 1] != s[i] }

  lemma {:induction false} NeighboursSuffice(s: seq<nat>)
    requires Ascending(s)
    ensures NeighboursDiffer(s) <==> Distinct(s)
  {
    if NeighboursDiffer(s) {
      forall i, j | 0 <= i < j < |s| ensures s[i] != s[j] {
        assert s[j - 1] != s[j] && s[i] <= s[j - 1] <= s[j];
      }
    }
  }

  /** Equal neighbours of the sorted list are exactly what shows that a list repeats an element. */
  lemma {:induction false} NeighboursShowDuplicates(s: seq<nat>)
    ensures Distinct(s) <==> NeighboursDiffer(Sort(s))
  {
    RepeatsShow(s);
    RepeatsShow(Sort(s));
    assert forall x :: Multiplicity(s, x) == Multiplicity(Sort(s), x);
    NeighboursSuffice(Sort(s));
  }
}
