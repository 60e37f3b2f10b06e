/** What one batch commits, as a function of its observations and the proposals made for them. */
module Batches {
  import opened Types
  import opened LedgerSpec
  import opened Outbox

  /** What inference, policy and planner made of one observation. */
  datatype Proposal = Proposal(body: Payload, action: DecisionAction, relation: Option<HostRelation>)

  datatype Configuration = Configuration(
    providers: seq<ProviderArtifact>, solverVersion: nat, policyVersion: nat, lossVersion: nat)

  /** When the batch is issued: at its latest ingestion time. */
  function LatestIngestion(observations: seq<Observation>): (latest: Timestamp)
    ensures forall i :: 0 <= i < |observations| ==> observations[i].ingestionTime <= latest
    ensures observations != [] ==> exists i :: 0 <= i < |observations| && observations[i].ingestionTime == latest
  {
    if observations == [] then 0
    else
      var last := observations[|observations| - 1].ingestionTime;
      var earlier := LatestIngestion(observations[..|observations| - 1]);
      if |observations| == 1 || last > earlier then last else earlier
  }

  // ----- identifiers and commands -----

  /** The last value an identifier sequence reaches; it is never handed out. */
  const MAX_ID: nat := 0xFFFF_FFFF_FFFF_FFFF

  predicate WithinIds(ids: Ids) {
    && ids.transaction <= 0xFFFF_FFFF_FFFF_FFFF && ids.inference <= 0xFFFF_FFFF_FFFF_FFFF
    && ids.decision <= 0xFFFF_FFFF_FFFF_FFFF && ids.identity <= 0xFFFF_FFFF_FFFF_FFFF
    && ids.materialization <= 0xFFFF_FFFF_FFFF_FFFF
  }

  /** After an attempt to draw a transaction id. */
  function NextTransaction(ids: Ids): Ids {
    if ids.transaction < MAX_ID then ids.(transaction := ids.transaction + 1) else ids
  }

  /** The identifiers left after one proposal drew its own. */
  function IdsNext(p: Proposal, ids: Ids): Ids {
    ids.(inference := ids.inference + 1, decision := ids.decision + 1,
         identity := ids.identity + (if p.action.CreateNew? then 1 else 0),
         materialization := ids.materialization + (if p.relation.Some? then 1 else 0))
  }

  function IdsAfter(proposals: seq<Proposal>, k: nat, ids: Ids): Ids
    requires k <= |proposals|
  {
    if k == 0 then ids else IdsNext(proposals[k - 1], IdsAfter(proposals, k - 1, ids))
  }

  /** Later observations need no fewer identifiers. */
  lemma {:induction false} IdsGrowAlong(proposals: seq<Proposal>, k: nat, n: nat, ids: Ids)
    requires k <= n <= |proposals|
    ensures WithinIds(IdsAfter(proposals, n, ids)) ==> WithinIds(IdsAfter(proposals, k, ids))
    decreases n
  {
    if k < n { IdsGrowAlong(proposals, k, n - 1, ids); }
  }

  function DecisionOf(p: Proposal, c: Configuration, ids: Ids, v: CommitVersion): DecisionRecord {
    DecisionRecord(ids.decision, ids.inference, p.action, c.policyVersion, c.lossVersion, VersionInterval(v, None))
  }

  /** The resolution of one observation, under the next identifiers. */
  function ResolutionOf(o: Observation, p: Proposal, c: Configuration, ids: Ids, v: CommitVersion): Command {
    CommitResolution(
      InferenceRecord(ids.inference, o.id, c.providers, c.solverVersion, p.body, VersionInterval(v, None)),
      DecisionOf(p, c, ids, v), if p.action.CreateNew? then Some(ids.identity) else None)
  }

  /** The host write the plan asks for, if any. */
  function WriteOf(p: Proposal, ids: Ids): Option<Write> {
    if p.relation.Some? then Some(Write(ids.materialization, ids.decision, p.relation.value)) else None
  }

  function EnqueueOf(w: Write): Command { EnqueueMaterialization(w.materialization, w.decision, w.relation) }

  function ProposalCommands(o: Observation, p: Proposal, c: Configuration, ids: Ids, v: CommitVersion): seq<Command> {
    [ResolutionOf(o, p, c, ids, v)] + if WriteOf(p, ids).Some? then [EnqueueOf(WriteOf(p, ids).value)] else []
  }

  /** The commands of the first `k` observations, in order. */
  function BatchCommands(
    observations: seq<Observation>, proposals: seq<Proposal>, c: Configuration, ids: Ids, v: CommitVersion, k: nat)
    : seq<Command>
    requires k <= |observations| == |proposals|
  {
    if k == 0 then []
    else
      BatchCommands(observations, proposals, c, ids, v, k - 1)
      + ProposalCommands(observations[k - 1], proposals[k - 1], c, IdsAfter(proposals, k - 1, ids), v)
  }

  /** The decisions of the first `k` observations, in order. */
  function BatchDecisions(proposals: seq<Proposal>, c: Configuration, ids: Ids, v: CommitVersion, k: nat)
    : seq<DecisionRecord>
    requires k <= |proposals|
  {
    if k == 0 then []
    else
      BatchDecisions(proposals, c, ids, v, k - 1)
      + [DecisionOf(proposals[k - 1], c, IdsAfter(proposals, k - 1, ids), v)]
  }

  function EvidenceCommands(observations: seq<Observation>): (commands: seq<Command>)
    ensures PersistsAll(commands, observations)
  {
    seq(|observations|, i requires 0 <= i < |observations| => PersistObservation(observations[i]))
  }

  // ----- associations -----

  /** The identity a proposal gives its observation to: a latent one by name, a new one by the next number. */
  function IdentityFor(p: Proposal, next: IdentityId): Option<IdentityId> {
    match p.action
    case Assign(Latent(x)) => Some(x)
    case CreateNew => Some(next)
    case _ => None
  }

  /** How many of the first `k` proposals create an identity. */
  function Creations(proposals: seq<Proposal>, k: nat): nat
    requires k <= |proposals|
  {
    if k == 0 then 0 else Creations(proposals, k - 1) + if proposals[k - 1].action.CreateNew? then 1 else 0
  }

  /** The associations of the first `k` observations, when `first` is the next new identity. */
  function BatchAssociations(
    observations: seq<Observation>, proposals: seq<Proposal>, first: IdentityId, k: nat): seq<Association>
    requires k <= |observations| == |proposals|
  {
    if k == 0 then []
    else
      var given := IdentityFor(proposals[k - 1], first + Creations(proposals, k - 1));
      BatchAssociations(observations, proposals, first, k - 1)
      + if given.Some? then [Association(given.value, observations[k - 1].id)] else []
  }

  lemma {:induction false} IdentityCounts(proposals: seq<Proposal>, k: nat, ids: Ids)
    requires k <= |proposals|
    ensures IdsAfter(proposals, k, ids).identity == ids.identity + Creations(proposals, k)
    ensures IdsAfter(proposals, k, ids).transaction == ids.transaction
  {
    if k > 0 { IdentityCounts(proposals, k - 1, ids); }
  }

  lemma {:induction false} ResolutionRecords(o: Observation, p: Proposal, c: Configuration, ids: Ids, v: CommitVersion)
    ensures var given := IdentityFor(p, ids.identity);
            AssociationOf(ResolutionOf(o, p, c, ids, v)) ==
            if given.Some? then Some(Association(given.value, o.id)) else None
  {}

  lemma {:induction false} EnqueueRecords(w: Write)
    ensures AssociationOf(EnqueueOf(w)) == None
  {}

  /** The log records exactly these associations for the batch. */
  lemma {:induction false} BatchRecords(
    observations: seq<Observation>, proposals: seq<Proposal>, c: Configuration, ids: Ids, v: CommitVersion, k: nat)
    requires k <= |observations| == |proposals|
    ensures Associations(BatchCommands(observations, proposals, c, ids, v, k)) ==
            BatchAssociations(observations, proposals, ids.identity, k)
  {
    hide Associations, AssociationOf, ResolutionOf, IdentityFor, EnqueueOf, IdsNext;
    if k == 0 {
      assert Associations([]) == [] by { NothingRecorded(); }
    } else {
      var earlier := BatchCommands(observations, proposals, c, ids, v, k - 1);
      var o, p, now := observations[k - 1], proposals[k - 1], IdsAfter(proposals, k - 1, ids);
      BatchRecords(observations, proposals, c, ids, v, k - 1);
      IdentityCounts(proposals, k - 1, ids);
      var resolution := ResolutionOf(o, p, c, now, v);
      AssociationsAppend(earlier, resolution);
      ResolutionRecords(o, p, c, now, v);
      if WriteOf(p, now).Some? {
        var enqueue := EnqueueOf(WriteOf(p, now).value);
        AssociationsAppend(earlier + [resolution], enqueue);
        EnqueueRecords(WriteOf(p, now).value);
        assert earlier + [resolution] + [enqueue] == BatchCommands(observations, proposals, c, ids, v, k);
      } else {
        assert earlier + [resolution] == BatchCommands(observations, proposals, c, ids, v, k);
      }
    }
  }

  lemma {:induction false} NothingRecorded()
    ensures Associations([]) == []
  {}

  ghost predicate OneOf(observations: seq<Observation>, k: nat, o: ObservationId)
    requires k <= |observations|
  {
    exists i: nat :: i < k && observations[i].id == o
  }

  lemma {:induction false} AssociationsAreOwn(
    observations: seq<Observation>, proposals: seq<Proposal>, first: IdentityId, k: nat)
    requires k <= |observations| == |proposals| && DistinctIds(observations)
    ensures var all := BatchAssociations(observations, proposals, first, k);
            && DistinctObservations(all)
            && forall j: nat {:trigger all[j]} :: j < |all| ==> OneOf(observations, k, all[j].observation)
  {
    if k > 0 {
      AssociationsAreOwn(observations, proposals, first, k - 1);
      var before := BatchAssociations(observations, proposals, first, k - 1);
      var all := BatchAssociations(observations, proposals, first, k);
      forall j: nat | j < |before| ensures OneOf(observations, k, before[j].observation) && before[j] == all[j]
                                           && before[j].observation != observations[k - 1].id {
        assert OneOf(observations, k - 1, before[j].observation);
      }
    }
  }

  // ----- the two commits of a batch -----

  function EvidenceEnvelope(l: Ledger, ids: Ids, observations: seq<Observation>, issuedAt: Timestamp): Envelope {
    EnvelopeOf(ids.transaction, l.version, issuedAt, [], EvidenceCommands(observations))
  }

  /** The resolution envelope of a ledger at version `version`, depending on the evidence transaction. */
  function ResolutionEnvelope(
    version: CommitVersion, ids: Ids, c: Configuration, observations: seq<Observation>, proposals: seq<Proposal>,
    issuedAt: Timestamp, evidence: TransactionId): Envelope
    requires |observations| == |proposals|
  {
    EnvelopeOf(ids.transaction, version, issuedAt, [evidence],
               BatchCommands(observations, proposals, c, ids, version + 1, |observations|))
  }

  /** The evidence commit goes through: there is a transaction id for it, and it is accepted and stored. */
  ghost predicate EvidenceGoesIn(
    l: Ledger, ids: Ids, observations: seq<Observation>, issuedAt: Timestamp, stored: bool)
  {
    && observations != [] && ids.transaction < MAX_ID
    && stored && Accepted(l, EvidenceEnvelope(l, ids, observations, issuedAt))
  }

  /** The identifiers suffice for the resolution of the batch and its transaction. */
  predicate Suffices(ids: Ids, proposals: seq<Proposal>) {
    WithinIds(IdsAfter(proposals, |proposals|, ids)) && ids.transaction < MAX_ID
  }

  /** Both commits of the batch go through, so that its associations reach the cache. */
  ghost predicate Resolves(
    l: Ledger, ids: Ids, c: Configuration, observations: seq<Observation>, proposals: seq<Proposal>,
    issuedAt: Timestamp, evidenceStored: bool, resolutionStored: bool)
    requires |observations| == |proposals|
  {
    var now, next := Commit(l, EvidenceEnvelope(l, ids, observations, issuedAt)).0, NextTransaction(ids);
    && EvidenceGoesIn(l, ids, observations, issuedAt, evidenceStored)
    && Suffices(next, proposals) && resolutionStored
    && Accepted(now, ResolutionEnvelope(now.version, next, c, observations, proposals, issuedAt, ids.transaction))
  }

  // ----- what the log says about a completed batch -----

  /** What a committed decision says: the proposal's action, under the configured policy and losses, from its commit
      on. */
  predicate Carries(d: DecisionRecord, p: Proposal, c: Configuration, v: CommitVersion) {
    && d.action == p.action && d.policyVersion == c.policyVersion && d.lossVersion == c.lossVersion
    && d.validity.begin == v && d.validity.end == None
  }

  /** Command `i` resolves `o` by decision `d`, with the configured provenance and the proposal's record; an identity
      is created exactly if the action asks for one, and a planned host write follows at once. */
  predicate ResolvesAt(
    commands: seq<Command>, i: nat, o: Observation, p: Proposal, c: Configuration, d: DecisionRecord)
    requires i < |commands|
  {
    && commands[i].CommitResolution? && commands[i].decision == d
    && (var inference := commands[i].inference;
        && inference.observation == o.id && inference.id == d.inference && inference.body == p.body
        && inference.providers == c.providers && inference.solverVersion == c.solverVersion
        && inference.validity == d.validity)
    && (commands[i].created.Some? <==> p.action == CreateNew)
    && (p.relation.Some? ==>
          && i + 1 < |commands| && commands[i + 1].EnqueueMaterialization?
          && commands[i + 1].responsible == d.id && commands[i + 1].relation == p.relation.value)
  }

  ghost predicate ResolvedBy(
    commands: seq<Command>, o: Observation, p: Proposal, c: Configuration, d: DecisionRecord)
  {
    exists i: nat {:trigger commands[i]} :: i < |commands| && ResolvesAt(commands, i, o, p, c, d)
  }

  ghost predicate DecisionsSay(
    commands: seq<Command>, observations: seq<Observation>, proposals: seq<Proposal>, c: Configuration,
    decisions: seq<DecisionRecord>, v: CommitVersion, k: nat)
    requires k <= |observations| == |proposals|
  {
    && |decisions| == k
    && forall i: nat {:trigger decisions[i]} :: i < k ==>
         && Carries(decisions[i], proposals[i], c, v)
         && ResolvedBy(commands, observations[i], proposals[i], c, decisions[i])
  }

  /** Entry `n` of the log persists the observations in order, entry `n + 1` depends on it and resolves each of them;
      both are issued at the latest ingestion time. */
  ghost predicate BatchLogged(
    log: seq<TransactionRecord>, n: nat, observations: seq<Observation>, proposals: seq<Proposal>, c: Configuration,
    decisions: seq<DecisionRecord>)
    requires |observations| == |proposals|
  {
    && n + 1 < |log|
    && (var evidence, resolution := log[n].envelope, log[n + 1].envelope;
        && evidence.dependsOn == [] && resolution.dependsOn == [evidence.transaction]
        && |evidence.commands| == |observations|
        && (forall i {:trigger observations[i]} :: 0 <= i < |observations| ==>
              && evidence.commands[i].PersistObservation? && evidence.commands[i].observation == observations[i]
              && observations[i].ingestionTime <= evidence.issuedAt == resolution.issuedAt)
        && (exists i {:trigger observations[i]} ::
              0 <= i < |observations| && observations[i].ingestionTime == evidence.issuedAt)
        && DecisionsSay(
             resolution.commands, observations, proposals, c, decisions, log[n + 1].version, |observations|))
  }

  lemma {:induction false} StillResolvedBy(
    commands: seq<Command>, more: seq<Command>, o: Observation, p: Proposal, c: Configuration, d: DecisionRecord)
    requires ResolvedBy(commands, o, p, c, d)
    ensures ResolvedBy(commands + more, o, p, c, d)
  {
    var i: nat :| i < |commands| && ResolvesAt(commands, i, o, p, c, d);
    var all := commands + more;
    assert all[i] == commands[i] && ResolvesAt(all, i, o, p, c, d);
  }

  lemma {:induction false} ProposalResolved(
    earlier: seq<Command>, o: Observation, p: Proposal, c: Configuration, ids: Ids, v: CommitVersion)
    ensures var d := DecisionOf(p, c, ids, v);
            Carries(d, p, c, v) && ResolvedBy(earlier + ProposalCommands(o, p, c, ids, v), o, p, c, d)
  {
    var all := earlier + ProposalCommands(o, p, c, ids, v);
    assert all[|earlier|] == ResolutionOf(o, p, c, ids, v);
    assert ResolvesAt(all, |earlier|, o, p, c, DecisionOf(p, c, ids, v));
  }

  /** The commands and decisions of a batch say what the proposals ask for. */
  lemma {:induction false} BatchSays(
    observations: seq<Observation>, proposals: seq<Proposal>, c: Configuration, ids: Ids, v: CommitVersion, k: nat)
    requires k <= |observations| == |proposals|
    ensures DecisionsSay(BatchCommands(observations, proposals, c, ids, v, k), observations, proposals, c,
                         BatchDecisions(proposals, c, ids, v, k), v, k)
  {
    hide Carries, ResolvedBy, ProposalCommands, DecisionOf, IdsAfter;
    if k > 0 {
      BatchSays(observations, proposals, c, ids, v, k - 1);
      var earlier := BatchCommands(observations, proposals, c, ids, v, k - 1);
      var before := BatchDecisions(proposals, c, ids, v, k - 1);
      var o, p, now := observations[k - 1], proposals[k - 1], IdsAfter(proposals, k - 1, ids);
      ProposalResolved(earlier, o, p, c, now, v);
      forall i: nat | i < k - 1
        ensures ResolvedBy(earlier + ProposalCommands(o, p, c, now, v), observations[i], proposals[i], c, before[i])
      {
        StillResolvedBy(earlier, ProposalCommands(o, p, c, now, v), observations[i], proposals[i], c, before[i]);
      }
    }
  }

  /** Two log entries with the batch's envelopes say it all. */
  lemma {:induction false} EnvelopesSay(
    log: seq<TransactionRecord>, n: nat, l: Ledger, ids: Ids, next: Ids, c: Configuration,
    observations: seq<Observation>, proposals: seq<Proposal>)
    requires n + 1 < |log| && |observations| == |proposals| && observations != []
    requires log[n].envelope == EvidenceEnvelope(l, ids, observations, LatestIngestion(observations))
    requires log[n + 1].envelope ==
             ResolutionEnvelope(l.version + 1, next, c, observations, proposals, LatestIngestion(observations),
                                ids.transaction)
    requires log[n + 1].version == l.version + 2
    ensures BatchLogged(log, n, observations, proposals, c,
                        BatchDecisions(proposals, c, next, l.version + 2, |observations|))
  {
    hide BatchCommands, BatchDecisions, DecisionsSay, LatestIngestion;
    BatchSays(observations, proposals, c, next, l.version + 2, |observations|);
    assert log[n].envelope.commands == EvidenceCommands(observations);
    var i :| 0 <= i < |observations| && observations[i].ingestionTime == LatestIngestion(observations);
    assert observations[i].ingestionTime == log[n].envelope.issuedAt;
  }
}
