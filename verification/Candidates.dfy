/** The candidate buffer: one canonical group per observation in one flat vector, filled in place. */
module Candidates {
  import opened Types
  import opened Sorting

  datatype ProviderError =
    | ObservationOutOfBounds(index: nat, batchLength: nat)
    | CandidateOrder
    | InvalidCardinality

  /** The largest end offset that can be stored. */
  const MAX_OFFSET: nat := 0xFFFF_FFFF

  function Flatten(groups: seq<seq<nat>>): seq<nat> {
    if groups == [] then [] else Flatten(groups[..|groups| - 1]) + groups[|groups| - 1]
  }

  /** An ascending list with each run of equal elements cut to one. */
  function Dedup(s: seq<nat>): seq<nat> {
    if |s| <= 1 then s
    else if s[|s| - 1] == s[|s| - 2] then Dedup(s[..|s| - 1])
    else Dedup(s[..|s| - 1]) + [s[|s| - 1]]
  }

  /** The canonical form of a candidate list. */
  function Canonical(items: seq<nat>): seq<nat> { Dedup(Sort(items)) }

  lemma {:induction false} DedupExact(s: seq<nat>)
    requires Ascending(s)
    ensures StrictlyAscending(Dedup(s))
    ensures forall x :: x in Dedup(s) <==> x in s
    ensures s != [] ==> Dedup(s) != [] && Dedup(s)[|Dedup(s)| - 1] == s[|s| - 1]
  {
    if |s| > 1 {
      var shorter, last := s[..|s| - 1], s[|s| - 1];
      DedupExact(shorter);
      assert s == shorter + [last];
      if last != s[|s| - 2] { AscendingAppend(Dedup(shorter), last); }
    }
  }

  lemma {:induction false} AscendingAppend(s: seq<nat>, x: nat)
    requires StrictlyAscending(s) && (s != [] ==> s[|s| - 1] < x)
    ensures StrictlyAscending(s + [x])
  {
    var longer := s + [x];
    forall i, j | 0 <= i < j < |longer| ensures longer[i] < longer[j] {
      if j == |s| && i < |s| - 1 { assert s[i] < s[|s| - 1]; }
    }
  }

  /** The canonical form is the strictly ascending list of the same candidates. */
  lemma {:induction false} CanonicalExact(items: seq<nat>)
    ensures StrictlyAscending(Canonical(items))
    ensures forall x: nat :: x in Canonical(items) <==> x in items
  {
    DedupExact(Sort(items));
    forall x: nat ensures x in Canonical(items) <==> x in items { SortMembers(items, x); }
  }

  /** Only the set of candidates matters to the canonical form. */
  lemma {:induction false} CanonicalDependsOnMembers(a: seq<nat>, b: seq<nat>)
    requires forall x: nat :: x in a <==> x in b
    ensures Canonical(a) == Canonical(b)
  {
    CanonicalExact(a);
    CanonicalExact(b);
    StrictUnique(Canonical(a), Canonical(b));
  }

  lemma {:induction false} CanonicalIdempotent(items: seq<nat>)
    ensures Canonical(Canonical(items)) == Canonical(items)
  {
    CanonicalExact(items);
    CanonicalDependsOnMembers(Canonical(items), items);
  }

  /** The refusal of a push, or the groups after it. */
  function Pushed(
    groups: seq<seq<nat>>, index: nat, batchLength: nat, items: seq<nat>)
    : Result<seq<seq<nat>>, ProviderError>
  {
    if index >= batchLength then Err(ObservationOutOfBounds(index, batchLength))
    else if index != |groups| then Err(CandidateOrder)
    else if |Flatten(groups)| + |Canonical(items)| > MAX_OFFSET then Err(InvalidCardinality)
    else Ok(groups + [Canonical(items)])
  }

  function Swapped(s: seq<nat>, i: nat, j: nat): (r: seq<nat>)
    requires i < |s| && j < |s|
    ensures |r| == |s|
  {
    s[i := s[j]][j := s[i]]
  }

  /** Halfway through a deduplication: the kept part, then leftovers, then the unread rest. */
  predicate Deduping(earlier: seq<nat>, sorted: seq<nat>, current: seq<nat>, write: nat, read: nat) {
    var start := |earlier|;
    && start <= write <= read <= |current| == start + |sorted|
    && current[..start] == earlier
    && current[start..write] == Dedup(sorted[..read - start])
    && current[read..] == sorted[read - start..]
    && (read > start ==> write > start && current[write - 1] == sorted[read - start - 1])
  }

  lemma {:induction false} DedupingStep(earlier: seq<nat>, sorted: seq<nat>, current: seq<nat>, write: nat, read: nat)
    requires Deduping(earlier, sorted, current, write, read) && read < |current|
    ensures |earlier| <= write <= read
    ensures if write == |earlier| || current[read] != current[write - 1]
            then Deduping(earlier, sorted, Swapped(current, write, read), write + 1, read + 1)
            else Deduping(earlier, sorted, current, write, read + 1)
  {
    hide Dedup;
    var start := |earlier|;
    var i := read - start;
    DedupStep(sorted, i);
    assert current[read] == current[read..][0] == sorted[i];
    assert current[read + 1..] == current[read..][1..] == sorted[i + 1..];
    if write == start || current[read] != current[write - 1] {
      var next := Swapped(current, write, read);
      assert next[..start] == earlier;
      assert next[start..write + 1] == current[start..write] + [sorted[i]];
      assert next[read + 1..] == current[read + 1..];
    }
  }

  lemma {:induction false} DedupingStart(earlier: seq<nat>, sorted: seq<nat>, current: seq<nat>)
    requires |earlier| <= |current| && current[..|earlier|] == earlier && current[|earlier|..] == sorted
    ensures Deduping(earlier, sorted, current, |earlier|, |earlier|)
  {}

  lemma {:induction false} DedupingDone(earlier: seq<nat>, sorted: seq<nat>, current: seq<nat>, write: nat)
    requires Deduping(earlier, sorted, current, write, |current|)
    ensures |earlier| <= write <= |current|
    ensures current[..|earlier|] == earlier && current[|earlier|..write] == Dedup(sorted)
  {
    assert sorted[..|current| - |earlier|] == sorted;
  }

  class CandidateBuffer {
    var offsets: seq<nat>
    var candidates: seq<nat>
    var nextObservation: nat
    ghost var groups: seq<seq<nat>>

    ghost predicate Valid()
      reads this
    {
      && candidates == Flatten(groups)
      && nextObservation == |groups|
      && |offsets| == |groups| + 1
      && forall i: nat {:trigger offsets[i]} :: i < |offsets| ==> offsets[i] == |Flatten(groups[..i])|
    }

    /** A new buffer holds nothing, not even the first offset: it takes pushes only after a reset. */
    constructor ()
      ensures offsets == [] && candidates == [] && nextObservation == 0 && groups == []
    {
      offsets, candidates, nextObservation, groups := [], [], 0, [];
    }

    method Reset()
      modifies this
      ensures Valid() && groups == []
    {
      offsets, candidates, nextObservation, groups := [0], [], 0, [];
    }

    /** Appends one observation's candidates, then sorts and deduplicates them in place.
        A push that overflows the offsets leaves its candidates behind without a group. */
    method PushObservation(index: nat, batchLength: nat, items: seq<nat>) returns (r: Result<(), ProviderError>)
      requires Valid()
      modifies this
      ensures var outcome := Pushed(old(groups), index, batchLength, items);
              && (outcome.Ok? ==> r == Ok(()) && groups == outcome.value)
              && (outcome.Err? ==> r == Err(outcome.error) && groups == old(groups) && offsets == old(offsets))
      ensures r == Err(ObservationOutOfBounds(index, batchLength)) <==> index >= batchLength
      ensures r == Err(CandidateOrder) <==> index < batchLength && index != |old(groups)|
      ensures r == Err(InvalidCardinality) <==>
              index < batchLength && index == |old(groups)|
              && |Flatten(old(groups))| + |Canonical(items)| > 0xFFFF_FFFF
      ensures r.Ok? ==>
                && |groups| == |old(groups)| + 1 && groups[..|old(groups)|] == old(groups)
                && StrictlyAscending(groups[|old(groups)|])
                && forall x: nat {:trigger x in items} :: x in groups[|old(groups)|] <==> x in items
      ensures r != Err(InvalidCardinality) ==> Valid()
    {
      hide Sort, Dedup, Flatten, Canonical, StrictlyAscending;
      CanonicalExact(items);
      if index >= batchLength {
        return Err(ObservationOutOfBounds(index, batchLength));
      }
      if index != nextObservation {
        return Err(CandidateOrder);
      }
      var start := |candidates|;
      var earlier := candidates;
      candidates := earlier + Sort(items);
      var length := DedupTail(start, Sort(items));
      candidates := candidates[..length];
      CanonicalIs(items);
      assert candidates == earlier + Canonical(items);
      if |candidates| > MAX_OFFSET {
        return Err(InvalidCardinality);
      }
      Appended(offsets, groups, Canonical(items), candidates);
      groups := groups + [Canonical(items)];
      offsets := offsets + [|candidates|];
      nextObservation := nextObservation + 1;
      return Ok(());
    }

    /** Moves the first of each run of equal candidates forward by swapping; returns the end of the kept part. */
    method DedupTail(start: nat, ghost sorted: seq<nat>) returns (write: nat)
      requires start <= |candidates| && candidates[start..] == sorted
      modifies `candidates
      ensures start <= write <= |candidates|
      ensures candidates[..start] == old(candidates[..start]) && candidates[start..write] == Dedup(sorted)
    {
      hide Deduping, Dedup, Swapped;
      var end := |candidates|;
      write := start;
      var read := start;
      ghost var earlier := candidates[..start];
      DedupingStart(earlier, sorted, candidates);
      while read < end
        invariant read <= end == |candidates|
        invariant Deduping(earlier, sorted, candidates, write, read)
      {
        DedupingStep(earlier, sorted, candidates, write, read);
        if write == start || candidates[read] != candidates[write - 1] {
          candidates := Swapped(candidates, write, read);
          write := write + 1;
        }
        read := read + 1;
      }
      DedupingDone(earlier, sorted, candidates, write);
    }

    /** One observation's candidates. */
    method Get(index: nat) returns (group: Option<seq<nat>>)
      requires Valid()
      ensures group == if index < |groups| then Some(groups[index]) else None
    {
      if index + 1 >= |offsets| { return None; }
      GroupSlice(groups, index);
      return Some(candidates[offsets[index]..offsets[index + 1]]);
    }
  }

  lemma {:induction false} CanonicalIs(items: seq<nat>)
    ensures Canonical(items) == Dedup(Sort(items))
  {}

  /** Appending a group keeps the offsets right. */
  lemma {:induction false} Appended(offsets: seq<nat>, groups: seq<seq<nat>>, group: seq<nat>, candidates: seq<nat>)
    requires |offsets| == |groups| + 1 && candidates == Flatten(groups) + group
    requires forall i: nat {:trigger offsets[i]} :: i < |offsets| ==> offsets[i] == |Flatten(groups[..i])|
    ensures candidates == Flatten(groups + [group])
    ensures var more := offsets + [|candidates|];
            forall i: nat {:trigger more[i]} :: i < |more| ==> more[i] == |Flatten((groups + [group])[..i])|
  {
    AppendGroup(groups, group);
    var more, all := offsets + [|candidates|], groups + [group];
    forall i: nat {:trigger more[i]} | i < |more| ensures more[i] == |Flatten(all[..i])| {
      if i < |offsets| { assert all[..i] == groups[..i]; } else { assert all[..i] == all; }
    }
  }

  lemma {:induction false} DedupStep(sorted: seq<nat>, i: nat)
    requires i < |sorted|
    ensures Dedup(sorted[..i + 1]) ==
            if i > 0 && sorted[i] == sorted[i - 1] then Dedup(sorted[..i]) else Dedup(sorted[..i]) + [sorted[i]]
  {
    var longer := sorted[..i + 1];
    assert longer[..|longer| - 1] == sorted[..i];
  }

  lemma {:induction false} AppendGroup(groups: seq<seq<nat>>, group: seq<nat>)
    ensures Flatten(groups + [group]) == Flatten(groups) + group
  {
    assert (groups + [group])[..|groups|] == groups;
  }

  lemma {:induction false} FlattenPrefix(groups: seq<seq<nat>>, i: nat)
    requires i <= |groups|
    ensures Flatten(groups[..i]) <= Flatten(groups)
  {
    if i < |groups| {
      var shorter := groups[..|groups| - 1];
      FlattenPrefix(shorter, i);
      assert shorter[..i] == groups[..i];
    } else {
      assert groups[..i] == groups;
    }
  }

  lemma {:induction false} GroupSlice(groups: seq<seq<nat>>, i: nat)
    requires i < |groups|
    ensures |Flatten(groups[..i])| <= |Flatten(groups[..i + 1])| <= |Flatten(groups)|
    ensures Flatten(groups)[|Flatten(groups[..i])|..|Flatten(groups[..i + 1])|] == groups[i]
  {
    FlattenPrefix(groups, i + 1);
    assert groups[..i + 1] == groups[..i] + [groups[i]];
    AppendGroup(groups[..i], groups[i]);
  }
}
