/** How the pipeline fills the solver's candidate buffer from one provider or from many. */
module Aggregation {
  import opened Types
  import opened Sorting
  import opened Candidates

  /** A provider is the list of pushes it makes. */
  datatype Call = Call(index: nat, items: seq<nat>)

  datatype AggregateError = Provider(error: ProviderError) | IncompleteProvider(expected: nat, actual: nat)

  /** The groups after a provider's pushes, or its first refusal. */
  function RunCalls(groups: seq<seq<nat>>, batchLength: nat, calls: seq<Call>): Result<seq<seq<nat>>, ProviderError>
    decreases |calls|
  {
    if calls == [] then Ok(groups)
    else
      match Pushed(groups, calls[0].index, batchLength, calls[0].items)
      case Err(error) => Err(error)
      case Ok(more) => RunCalls(more, batchLength, calls[1..])
  }

  /** What one provider's generation yields: one group per observation, or an error. */
  function Outcome(batchLength: nat, calls: seq<Call>): Result<seq<seq<nat>>, AggregateError> {
    match RunCalls([], batchLength, calls)
    case Err(error) => Err(Provider(error))
    case Ok(groups) => if |groups| != batchLength then Err(IncompleteProvider(batchLength, |groups|)) else Ok(groups)
  }

  function Extended(batchLength: nat, groups: seq<seq<nat>>, more: seq<seq<nat>>): (r: seq<seq<nat>>)
    requires |groups| == |more| == batchLength
    ensures |r| == batchLength
  {
    seq(batchLength, i requires 0 <= i < batchLength => groups[i] + more[i])
  }

  /** The first error, or both providers' groups together. */
  function Joined(
    batchLength: nat, first: Result<seq<seq<nat>>, AggregateError>, second: Result<seq<seq<nat>>, AggregateError>)
    : (r: Result<seq<seq<nat>>, AggregateError>)
    requires first.Ok? ==> |first.value| == batchLength
    requires second.Ok? ==> |second.value| == batchLength
    ensures r.Ok? ==> |r.value| == batchLength
  {
    if first.Err? then first
    else if second.Err? then second
    else Ok(Extended(batchLength, first.value, second.value))
  }

  /** Every observation's candidates from all providers, one after another. */
  function Gathered(batchLength: nat, providers: seq<seq<Call>>): (r: Result<seq<seq<nat>>, AggregateError>)
    ensures r.Ok? ==> |r.value| == batchLength
  {
    if providers == [] then Ok(seq(batchLength, _ => []))
    else
      var last := |providers| - 1;
      Joined(batchLength, Gathered(batchLength, providers[..last]), Outcome(batchLength, providers[last]))
  }

  function Calls(groups: seq<seq<nat>>): (calls: seq<Call>)
    ensures |calls| == |groups|
  {
    seq(|groups|, i requires 0 <= i < |groups| => Call(i, groups[i]))
  }

  /** What aggregating any number of providers yields. */
  function Aggregate(batchLength: nat, providers: seq<seq<Call>>): Result<seq<seq<nat>>, AggregateError> {
    match Gathered(batchLength, providers)
    case Err(error) => Err(error)
    case Ok(groups) =>
      match RunCalls([], batchLength, Calls(groups))
      case Err(error) => Err(Provider(error))
      case Ok(all) => Ok(all)
  }

  // ----- the two paths -----

  method RunProvider(buffer: CandidateBuffer, batchLength: nat, calls: seq<Call>) returns (r: Result<(), ProviderError>)
    requires buffer.Valid()
    modifies buffer
    ensures var outcome := RunCalls(old(buffer.groups), batchLength, calls);
            && (outcome.Ok? ==> r == Ok(()) && buffer.Valid() && buffer.groups == outcome.value)
            && (outcome.Err? ==> r == Err(outcome.error))
  {
    var k := 0;
    while k < |calls|
      invariant 0 <= k <= |calls| && buffer.Valid()
      invariant RunCalls(buffer.groups, batchLength, calls[k..]) == RunCalls(old(buffer.groups), batchLength, calls)
    {
      assert calls[k..][1..] == calls[k + 1..];
      r := buffer.PushObservation(calls[k].index, batchLength, calls[k].items);
      if r.Err? { return; }
      k := k + 1;
    }
    r := Ok(());
  }

  /** A single provider writes into the solver's buffer directly. */
  method FromOneProvider(
    buffer: CandidateBuffer, batchLength: nat, calls: seq<Call>)
    returns (r: Result<(), AggregateError>)
    modifies buffer
    ensures var outcome := Outcome(batchLength, calls);
            && (outcome.Ok? ==> r == Ok(()) && buffer.Valid() && buffer.groups == outcome.value)
            && (outcome.Err? ==> r == Err(outcome.error))
  {
    buffer.Reset();
    var ran := RunProvider(buffer, batchLength, calls);
    if ran.Err? { return Err(Provider(ran.error)); }
    if |buffer.offsets| - 1 != batchLength { return Err(IncompleteProvider(batchLength, |buffer.offsets| - 1)); }
    return Ok(());
  }

  /** Several providers write into a scratch buffer; their groups are joined and pushed again. */
  method FromProviders(buffer: CandidateBuffer, scratch: CandidateBuffer, batchLength: nat, providers: seq<seq<Call>>)
    returns (r: Result<(), AggregateError>)
    requires buffer != scratch
    modifies buffer, scratch
    ensures var outcome := Aggregate(batchLength, providers);
            && (outcome.Ok? ==> r == Ok(()) && buffer.Valid() && buffer.groups == outcome.value)
            && (outcome.Err? ==> r == Err(outcome.error))
  {
    buffer.Reset();
    var groups: seq<seq<nat>> := seq(batchLength, _ => []);
    assert providers[..0] == [];
    for p := 0 to |providers|
      invariant Gathered(batchLength, providers[..p]) == Ok(groups)
      invariant buffer.Valid() && buffer.groups == []
    {
      GatherStep(batchLength, providers, p);
      var own := FromOneProvider(scratch, batchLength, providers[p]);
      if own.Err? {
        GatherStops(batchLength, providers, p + 1);
        return Err(own.error);
      }
      groups := JoinGroups(scratch, batchLength, groups);
    }
    assert providers[..|providers|] == providers;
    var ran := RunProvider(buffer, batchLength, Calls(groups));
    if ran.Err? { return Err(Provider(ran.error)); }
    return Ok(());
  }

  method JoinGroups(scratch: CandidateBuffer, batchLength: nat, groups: seq<seq<nat>>) returns (joined: seq<seq<nat>>)
    requires scratch.Valid() && |scratch.groups| == |groups| == batchLength
    ensures joined == Extended(batchLength, groups, scratch.groups)
  {
    joined := groups;
    for i := 0 to batchLength
      invariant |joined| == batchLength
      invariant forall j :: 0 <= j < i ==> joined[j] == groups[j] + scratch.groups[j]
      invariant forall j :: i <= j < batchLength ==> joined[j] == groups[j]
    {
      var own := scratch.Get(i);
      if own.Some? { joined := joined[i := joined[i] + own.value]; }
    }
  }

  lemma {:induction false} GatherStep(batchLength: nat, providers: seq<seq<Call>>, p: nat)
    requires p < |providers|
    ensures Gathered(batchLength, providers[..p + 1]) ==
            Joined(batchLength, Gathered(batchLength, providers[..p]), Outcome(batchLength, providers[p]))
  {
    assert providers[..p + 1][..p] == providers[..p];
  }

  /** The first provider error is the error of the whole. */
  lemma {:induction false} GatherStops(batchLength: nat, providers: seq<seq<Call>>, p: nat)
    requires p <= |providers| && Gathered(batchLength, providers[..p]).Err?
    ensures Gathered(batchLength, providers) == Gathered(batchLength, providers[..p])
    decreases |providers| - p
  {
    if p < |providers| {
      GatherStep(batchLength, providers, p);
      GatherStops(batchLength, providers, p + 1);
    } else {
      assert providers[..p] == providers;
    }
  }

  // ----- the direct path agrees with the general one -----

  ghost predicate AllCanonical(groups: seq<seq<nat>>) {
    forall i :: 0 <= i < |groups| ==> Canonical(groups[i]) == groups[i]
  }

  lemma {:induction false} CanonicalAppend(groups: seq<seq<nat>>, group: seq<nat>)
    requires AllCanonical(groups) && Canonical(group) == group
    ensures AllCanonical(groups + [group])
  {
    hide Canonical;
  }

  lemma {:induction false} RunCallsCanonical(groups: seq<seq<nat>>, batchLength: nat, calls: seq<Call>)
    requires AllCanonical(groups) && |Flatten(groups)| <= MAX_OFFSET && |groups| <= batchLength
    ensures var outcome := RunCalls(groups, batchLength, calls);
            outcome.Ok? ==>
                AllCanonical(outcome.value) && |Flatten(outcome.value)| <= MAX_OFFSET && |outcome.value| <= batchLength
    decreases |calls|
  {
    hide Canonical, Flatten, AllCanonical;
    if calls != [] {
      var pushed := Pushed(groups, calls[0].index, batchLength, calls[0].items);
      if pushed.Ok? {
        CanonicalIdempotent(calls[0].items);
        AppendGroup(groups, Canonical(calls[0].items));
        CanonicalAppend(groups, Canonical(calls[0].items));
        RunCallsCanonical(pushed.value, batchLength, calls[1..]);
      }
    }
  }

  /** Pushing canonical groups again changes nothing. */
  lemma {:induction false} PushAgain(all: seq<seq<nat>>, k: nat)
    requires k <= |all| && AllCanonical(all) && |Flatten(all)| <= MAX_OFFSET
    ensures RunCalls(all[..k], |all|, Calls(all)[k..]) == Ok(all)
    decreases |all| - k
  {
    hide Canonical, Flatten;
    if k == |all| {
      assert all[..k] == all;
    } else {
      assert Calls(all)[k..][0] == Call(k, all[k]);
      assert Calls(all)[k..][1..] == Calls(all)[k + 1..];
      assert all[..k + 1] == all[..k] + [all[k]];
      GroupSlice(all, k);
      AppendGroup(all[..k], all[k]);
      PushAgain(all, k + 1);
    }
  }

  lemma {:induction false} GatheredAlone(batchLength: nat, calls: seq<Call>)
    ensures Gathered(batchLength, [calls]) == Outcome(batchLength, calls)
  {
    hide RunCalls, Extended;
    var outcome := Outcome(batchLength, calls);
    GatherStep(batchLength, [calls], 0);
    assert [calls][..1] == [calls] && [calls][..0] == [];
    if outcome.Ok? { JoinedToNothing(batchLength, outcome.value); }
  }

  lemma {:induction false} JoinedToNothing(batchLength: nat, all: seq<seq<nat>>)
    requires |all| == batchLength
    ensures Extended(batchLength, seq(batchLength, _ => []), all) == all
  {
    var joined := Extended(batchLength, seq(batchLength, _ => []), all);
    forall i | 0 <= i < batchLength ensures joined[i] == all[i] {}
  }

  lemma {:induction false} OutcomeCanonical(batchLength: nat, calls: seq<Call>)
    ensures Outcome(batchLength, calls).Ok? ==>
              var all := Outcome(batchLength, calls).value;
              |all| == batchLength && AllCanonical(all) && |Flatten(all)| <= MAX_OFFSET
  {
    RunCallsCanonical([], batchLength, calls);
  }

  /** One provider through the general path gives what the direct path gives, groups and errors alike. */
  lemma {:induction false} DirectPathAgrees(batchLength: nat, calls: seq<Call>)
    ensures Aggregate(batchLength, [calls]) == Outcome(batchLength, calls)
  {
    hide RunCalls, Calls, Gathered, Extended;
    GatheredAlone(batchLength, calls);
    OutcomeCanonical(batchLength, calls);
    var outcome := Outcome(batchLength, calls);
    if outcome.Ok? {
      var all := outcome.value;
      PushAgain(all, 0);
      assert all[..0] == [] && Calls(all)[0..] == Calls(all);
    }
  }

  // ----- when a provider is complete -----

  /** The candidates kept by these pushes, repetitions within a push not counted. */
  function Kept(calls: seq<Call>): nat {
    if calls == [] then 0 else |Canonical(calls[0].items)| + Kept(calls[1..])
  }

  predicate NumberedAt(calls: seq<Call>, first: nat, batchLength: nat, k: nat)
    requires k < |calls|
  {
    calls[k].index == first + k && first + k < batchLength
  }

  predicate Numbered(calls: seq<Call>, first: nat, batchLength: nat) {
    forall k: nat {:trigger NumberedAt(calls, first, batchLength, k)} ::
      k < |calls| ==> NumberedAt(calls, first, batchLength, k)
  }

  /** The pushes number the observations one by one from `first`, and their candidates can be addressed. */
  predicate InSequence(calls: seq<Call>, first: nat, batchLength: nat, before: nat) {
    && Numbered(calls, first, batchLength)
    && (calls != [] ==> before + Kept(calls) <= 0xFFFF_FFFF)
  }

  lemma {:induction false} LaterNumbered(calls: seq<Call>, first: nat, batchLength: nat)
    requires calls != [] && Numbered(calls, first, batchLength)
    ensures calls[0].index == first < batchLength && Numbered(calls[1..], first + 1, batchLength)
  {
    assert NumberedAt(calls, first, batchLength, 0);
    var rest, next := calls[1..], first + 1;
    forall k: nat {:trigger NumberedAt(rest, next, batchLength, k)} | k < |rest|
      ensures NumberedAt(rest, next, batchLength, k)
    {
      assert NumberedAt(calls, first, batchLength, k + 1);
    }
  }

  lemma {:induction false} AllNumbered(calls: seq<Call>, first: nat, batchLength: nat)
    requires calls != [] && calls[0].index == first < batchLength && Numbered(calls[1..], first + 1, batchLength)
    ensures Numbered(calls, first, batchLength)
  {
    forall k: nat | k < |calls| ensures NumberedAt(calls, first, batchLength, k) {
      if k > 0 { assert NumberedAt(calls[1..], first + 1, batchLength, k - 1); }
    }
  }

  lemma {:induction false} InSequenceStep(calls: seq<Call>, first: nat, batchLength: nat, before: nat)
    requires calls != [] && before + |Canonical(calls[0].items)| <= 0xFFFF_FFFF
    ensures InSequence(calls, first, batchLength, before) <==>
            && calls[0].index == first < batchLength
            && InSequence(calls[1..], first + 1, batchLength, before + |Canonical(calls[0].items)|)
  {
    hide Canonical, Numbered;
    var own, rest := |Canonical(calls[0].items)|, calls[1..];
    if Numbered(calls, first, batchLength) { LaterNumbered(calls, first, batchLength); }
    if calls[0].index == first < batchLength && Numbered(rest, first + 1, batchLength) {
      AllNumbered(calls, first, batchLength);
    }
    assert Kept(calls) == own + Kept(rest) && (rest == [] ==> Kept(rest) == 0);
    assert InSequence(calls, first, batchLength, before) <==>
           Numbered(calls, first, batchLength) && before + Kept(calls) <= 0xFFFF_FFFF;
    assert InSequence(rest, first + 1, batchLength, before + own) <==>
           Numbered(rest, first + 1, batchLength) && before + own + Kept(rest) <= 0xFFFF_FFFF;
  }

  lemma {:induction false} TooManyPushes(calls: seq<Call>, batchLength: nat)
    requires |calls| > batchLength
    ensures !Numbered(calls, 0, batchLength)
  {
    assert !NumberedAt(calls, 0, batchLength, batchLength);
  }

  lemma {:induction false} RunCallsExact(groups: seq<seq<nat>>, batchLength: nat, calls: seq<Call>)
    ensures RunCalls(groups, batchLength, calls).Ok? <==>
            InSequence(calls, |groups|, batchLength, |Flatten(groups)|)
    ensures RunCalls(groups, batchLength, calls).Ok? ==>
              var all := RunCalls(groups, batchLength, calls).value;
              && |all| == |groups| + |calls| && all[..|groups|] == groups
              && forall k: nat {:trigger calls[k]} :: k < |calls| ==> all[|groups| + k] == Canonical(calls[k].items)
    decreases |calls|
  {
    hide Canonical, Flatten;
    if calls != [] {
      var items := calls[0].items;
      var more := groups + [Canonical(items)];
      AppendGroup(groups, Canonical(items));
      if |Flatten(groups)| + |Canonical(items)| <= 0xFFFF_FFFF {
        InSequenceStep(calls, |groups|, batchLength, |Flatten(groups)|);
      }
      RunCallsExact(more, batchLength, calls[1..]);
      if RunCalls(groups, batchLength, calls).Ok? {
        var all := RunCalls(groups, batchLength, calls).value;
        assert all[..|groups|] == all[..|more|][..|groups|];
        forall k: nat | k < |calls| ensures all[|groups| + k] == Canonical(calls[k].items) {
          if k == 0 { assert all[..|more|][|groups|] == all[|groups|]; } else { assert calls[k] == calls[1..][k - 1]; }
        }
      }
    }
  }

  /** A provider is accepted exactly if it pushes once for every observation, in order, and its candidates can be
      addressed; what it offers an observation is what that push holds. One that stops early is incomplete. */
  lemma {:induction false} OutcomeExact(batchLength: nat, calls: seq<Call>)
    ensures Outcome(batchLength, calls).Ok? <==> |calls| == batchLength && InSequence(calls, 0, batchLength, 0)
    ensures Outcome(batchLength, calls).Ok? ==>
              var all := Outcome(batchLength, calls).value;
              && |all| == |calls|
              && forall k: nat, x: nat {:trigger x in all[k]} ::
                   k < |calls| ==> (x in all[k] <==> x in calls[k].items)
    ensures Outcome(batchLength, calls) == Err(IncompleteProvider(batchLength, |calls|)) <==>
            |calls| < batchLength && InSequence(calls, 0, batchLength, 0)
  {
    hide RunCalls, Canonical;
    RunCallsExact([], batchLength, calls);
    assert |Flatten([])| == 0;
    if |calls| > batchLength { TooManyPushes(calls, batchLength); }
    forall k: nat | k < |calls| ensures forall x: nat :: x in Canonical(calls[k].items) <==> x in calls[k].items {
      CanonicalExact(calls[k].items);
    }
  }

  // ----- many providers: strictly increasing unions -----

  ghost predicate Offers(batchLength: nat, calls: seq<Call>, i: nat, x: nat) {
    Outcome(batchLength, calls).Ok? && i < |Outcome(batchLength, calls).value|
      && x in Outcome(batchLength, calls).value[i]
  }

  ghost predicate SomeOffers(batchLength: nat, providers: seq<seq<Call>>, i: nat, x: nat) {
    exists p :: 0 <= p < |providers| && Offers(batchLength, providers[p], i, x)
  }

  lemma {:induction false} SomeOffersStep(batchLength: nat, providers: seq<seq<Call>>, i: nat, x: nat)
    requires providers != []
    ensures SomeOffers(batchLength, providers, i, x) <==>
            || SomeOffers(batchLength, providers[..|providers| - 1], i, x)
            || Offers(batchLength, providers[|providers| - 1], i, x)
  {
    hide Offers;
    var last := |providers| - 1;
    if SomeOffers(batchLength, providers[..last], i, x) {
      var p :| 0 <= p < last && Offers(batchLength, providers[..last][p], i, x);
      assert Offers(batchLength, providers[p], i, x);
    }
    if SomeOffers(batchLength, providers, i, x) {
      var p :| 0 <= p < |providers| && Offers(batchLength, providers[p], i, x);
      if p < last { assert providers[..last][p] == providers[p]; }
    }
  }

  lemma {:induction false} GatheredMembers(batchLength: nat, providers: seq<seq<Call>>, i: nat, x: nat)
    requires Gathered(batchLength, providers).Ok? && i < batchLength
    ensures x in Gathered(batchLength, providers).value[i] <==> SomeOffers(batchLength, providers, i, x)
  {
    if providers != [] {
      SomeOffersStep(batchLength, providers, i, x);
      var last := |providers| - 1;
      GatheredMembers(batchLength, providers[..last], i, x);
      var before, own := Gathered(batchLength, providers[..last]).value, Outcome(batchLength, providers[last]).value;
      assert Gathered(batchLength, providers).value[i] == before[i] + own[i];
    }
  }

  lemma {:induction false} RunCallsGroups(all: seq<seq<nat>>, groups: seq<seq<nat>>, batchLength: nat, k: nat)
    requires k == |groups| <= |all| == batchLength && forall i :: 0 <= i < k ==> groups[i] == Canonical(all[i])
    ensures var outcome := RunCalls(groups, batchLength, Calls(all)[k..]);
            outcome.Ok? ==> |outcome.value| == batchLength && forall i :: 0 <= i < batchLength ==>
                outcome.value[i] == Canonical(all[i])
    decreases |all| - k
  {
    hide Canonical, Flatten;
    if k < |all| {
      assert Calls(all)[k..][0] == Call(k, all[k]);
      assert Calls(all)[k..][1..] == Calls(all)[k + 1..];
      var pushed := Pushed(groups, k, batchLength, all[k]);
      if pushed.Ok? { RunCallsGroups(all, pushed.value, batchLength, k + 1); }
    }
  }

  /** Each group is the strictly increasing list of what some provider offers for that observation. */
  lemma {:induction false} GroupsAreUnions(batchLength: nat, providers: seq<seq<Call>>, i: nat)
    requires Aggregate(batchLength, providers).Ok? && i < batchLength
    ensures var groups := Aggregate(batchLength, providers).value;
            && |groups| == batchLength && StrictlyAscending(groups[i])
            && forall x: nat {:trigger x in groups[i]} ::
                 x in groups[i] <==> SomeOffers(batchLength, providers, i, x)
  {
    var gathered := Gathered(batchLength, providers).value;
    RunCallsGroups(gathered, [], batchLength, 0);
    assert Calls(gathered)[0..] == Calls(gathered);
    CanonicalExact(gathered[i]);
    forall x: nat { GatheredMembers(batchLength, providers, i, x); }
  }
}
