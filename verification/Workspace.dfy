/** The hot cache: bounded recent history per active identity, updated only by committed associations. */
module Workspace {
  import opened Types

  /** The last `n` elements. */
  function LastOf<T>(s: seq<T>, n: nat): seq<T> { if |s| <= n then s else s[|s| - n..] }

  /** Keeping the last `n` after every addition keeps the last `n` of everything added. */
  lemma {:induction false} LastOfLast<T>(s: seq<T>, more: seq<T>, n: nat)
    ensures LastOf(LastOf(s, n) + more, n) == LastOf(s + more, n)
  {
    var kept := LastOf(s, n);
    if |s| > n {
      assert LastOf(kept + more, n) == (kept + more)[|more|..];
      assert LastOf(s + more, n) == (s + more)[|s| + |more| - n..];
    }
  }

  datatype BoundedHistory = BoundedHistory(entries: seq<ObservationId>, capacity: nat)

  predicate ValidHistory(h: BoundedHistory) { |h.entries| <= h.capacity }

  /** Appends an entry; a full history gives up its oldest, one without capacity the entry itself. */
  method PushHistory(
    h: BoundedHistory, entry: ObservationId)
    returns (next: BoundedHistory, evicted: Option<ObservationId>)
    requires ValidHistory(h)
    ensures ValidHistory(next) && next.capacity == h.capacity
    ensures next.entries == LastOf(h.entries + [entry], h.capacity)
    ensures (if evicted.Some? then [evicted.value] else []) + next.entries == h.entries + [entry]
  {
    if h.capacity == 0 { return h, Some(entry); }
    var entries := h.entries;
    evicted := None;
    if |entries| == h.capacity {
      evicted := Some(entries[0]);
      entries := entries[1..];
    }
    next := BoundedHistory(entries + [entry], h.capacity);
  }

  datatype HotIdentity = HotIdentity(
    identity: IdentityId, history: BoundedHistory, lastActivation: Timestamp, appliedVersion: CommitVersion)

  datatype CommittedAssociation = CommittedAssociation(
    observation: ObservationId, identity: IdentityId, version: CommitVersion, eventTime: Timestamp)

  datatype WorkspaceError = MissingHotIdentity(identity: IdentityId) | StaleCommit

  function Latest(x: Timestamp, y: Timestamp): Timestamp { if x >= y then x else y }

  class HotWorkspace {
    var identities: map<IdentityId, HotIdentity>

    ghost predicate Valid()
      reads this
    {
      forall x {:trigger identities[x]} :: x in identities ==>
          identities[x].identity == x && ValidHistory(identities[x].history)
    }

    constructor ()
      ensures Valid() && identities == map[]
    {
      identities := map[];
    }

    /** Inserts or replaces one entry and returns what was there. */
    method Insert(hot: HotIdentity) returns (previous: Option<HotIdentity>)
      requires Valid() && ValidHistory(hot.history)
      modifies this
      ensures Valid() && identities == old(identities)[hot.identity := hot]
      ensures previous == if hot.identity in old(identities) then Some(old(identities)[hot.identity]) else None
    {
      previous := if hot.identity in identities then Some(identities[hot.identity]) else None;
      identities := identities[hot.identity := hot];
    }

    /** Applies one committed association. The version of an entry only moves forward, its activation never back. */
    method ApplyCommitted(a: CommittedAssociation) returns (r: Result<Option<ObservationId>, WorkspaceError>)
      requires Valid()
      modifies this
      ensures Valid()
      ensures r == Err(MissingHotIdentity(a.identity)) <==> a.identity !in old(identities)
      ensures r == Err(StaleCommit) <==>
              a.identity in old(identities) && a.version <= old(identities)[a.identity].appliedVersion
      ensures r.Err? ==> identities == old(identities) && r.error in {MissingHotIdentity(a.identity), StaleCommit}
      ensures r.Ok? ==> identities.Keys == old(identities.Keys)
      ensures r.Ok? ==> forall x {:trigger identities[x]} :: x in identities && x != a.identity ==>
                identities[x] == old(identities)[x]
      ensures r.Ok? ==>
                var before, now := old(identities)[a.identity], identities[a.identity];
                && now.history.entries == LastOf(before.history.entries + [a.observation], before.history.capacity)
                && now.history.capacity == before.history.capacity && now.appliedVersion == a.version
                && now.identity == a.identity
                && now.lastActivation >= before.lastActivation && now.lastActivation >= a.eventTime
                && (now.lastActivation == before.lastActivation || now.lastActivation == a.eventTime)
    {
      if a.identity !in identities { return Err(MissingHotIdentity(a.identity)); }
      var state := identities[a.identity];
      if a.version <= state.appliedVersion { return Err(StaleCommit); }
      var history, evicted := PushHistory(state.history, a.observation);
      identities := identities[a.identity :=
        HotIdentity(state.identity, history, Latest(state.lastActivation, a.eventTime), a.version)];
      return Ok(evicted);
    }

    /** Removes the identities last active strictly before `cutoff`. */
    method EvictBefore(cutoff: Timestamp) returns (removed: map<IdentityId, HotIdentity>)
      requires Valid()
      modifies this
      ensures Valid() && removed.Keys !! identities.Keys && removed.Keys + identities.Keys == old(identities.Keys)
      ensures forall x {:trigger removed[x]} :: x in removed ==>
                removed[x] == old(identities)[x] && removed[x].lastActivation < cutoff
      ensures forall x {:trigger identities[x]} :: x in identities ==>
                identities[x] == old(identities)[x] && identities[x].lastActivation >= cutoff
    {
      removed := map x | x in identities && identities[x].lastActivation < cutoff :: identities[x];
      identities := map x | x in identities && identities[x].lastActivation >= cutoff :: identities[x];
    }
  }
}
