/** The authoritative host graph: nodes and edges by index, and idempotent writes by materialization id. */
module HostGraph {
  import opened Types

  datatype HostEdge = HostEdge(
    source: nat, target: nat, role: HostRole, decision: DecisionId, commit: CommitVersion,
    materialization: MaterializationId)

  datatype MaterializationOutcome = Applied(edge: nat) | Replayed(edge: nat)

  datatype HostGraphError = DuplicateNode(node: HostNodeId) | MissingNode(node: HostNodeId) | IdempotencyCollision

  /** What an edge states: a native relation, and the decision and commit it stems from. */
  datatype HostFact = HostFact(
    role: HostRole, source: HostNodeId, target: HostNodeId, decision: DecisionId, commit: CommitVersion)

  function FactOf(relation: HostRelation, decision: DecisionId, commit: CommitVersion): HostFact {
    HostFact(relation.Role(), relation.Endpoints().0, relation.Endpoints().1, decision, commit)
  }

  /** How each relation is written: the role of its edge, the node it leaves and the node it enters. */
  predicate Joins(relation: HostRelation, role: HostRole, source: HostNodeId, target: HostNodeId) {
    match relation
    case Triggers(state, event) => role == TriggersRole && source == StateNode(state) && target == EventNode(event)
    case LeadsTo(event, state) => role == LeadsToRole && source == EventNode(event) && target == StateNode(state)
    case Evolution(from, to) => role == EvolutionRole && source == StateNode(from) && target == StateNode(to)
    case Contain(container, contained) =>
      role == ContainRole && source == EventNode(container) && target == EventNode(contained)
    case Occur(event, physical) => role == OccurRole && source == EventNode(event) && target == PhysicalNode(physical)
    case Influence(event, physical) =>
      role == InfluenceRole && source == EventNode(event) && target == PhysicalNode(physical)
  }

  /** The kinds of node an edge of each role leaves and enters. */
  predicate WellTyped(role: HostRole, source: HostNodeId, target: HostNodeId) {
    match role
    case TriggersRole => source.StateNode? && target.EventNode?
    case LeadsToRole => source.EventNode? && target.StateNode?
    case EvolutionRole => source.StateNode? && target.StateNode?
    case ContainRole => source.EventNode? && target.EventNode?
    case OccurRole => source.EventNode? && target.PhysicalNode?
    case InfluenceRole => source.EventNode? && target.PhysicalNode?
  }

  lemma {:induction false} JoinsEndpoints(
    relation: HostRelation, role: HostRole, source: HostNodeId, target: HostNodeId)
    ensures Joins(relation, role, source, target) <==>
            role == relation.Role() && (source, target) == relation.Endpoints()
    ensures Joins(relation, role, source, target) ==> WellTyped(role, source, target)
  {}

  /** Role and endpoints together say which relation was written. */
  lemma {:induction false} FactDeterminesRelation(
    a: HostRelation, b: HostRelation, d: DecisionId, e: DecisionId, v: CommitVersion, w: CommitVersion)
    requires FactOf(a, d, v) == FactOf(b, e, w)
    ensures a == b && d == e && v == w
  {}

  class AuthoritativeHostGraph {
    var nodes: seq<HostNodeId>
    var edges: seq<HostEdge>
    var indexes: map<HostNodeId, nat>
    var materializations: map<MaterializationId, nat>

    /** Both indexes are exact, one index per node, one edge per materialization, and every edge has the kinds of
        endpoints its role asks for. */
    ghost predicate Valid()
      reads this
    {
      && (forall i: nat {:trigger nodes[i]} :: i < |nodes| ==> nodes[i] in indexes && indexes[nodes[i]] == i)
      && (forall n {:trigger indexes[n]} :: n in indexes ==> indexes[n] < |nodes| && nodes[indexes[n]] == n)
      && (forall i: nat {:trigger edges[i]} :: i < |edges| ==>
            && edges[i].source < |nodes| && edges[i].target < |nodes|
            && WellTyped(edges[i].role, nodes[edges[i].source], nodes[edges[i].target])
            && edges[i].materialization in materializations && materializations[edges[i].materialization] == i)
      && (forall m {:trigger materializations[m]} :: m in materializations ==>
            materializations[m] < |edges| && edges[materializations[m]].materialization == m)
    }

    /** Edge `i` writes `relation` for that decision and commit. */
    ghost predicate Writes(i: nat, relation: HostRelation, decision: DecisionId, commit: CommitVersion)
      requires Valid() && i < |edges|
      reads this
    {
      var edge := edges[i];
      && Joins(relation, edge.role, nodes[edge.source], nodes[edge.target])
      && edge.decision == decision && edge.commit == commit
    }

    /** The fact written for a materialization. */
    ghost function Fact(m: MaterializationId): HostFact
      requires Valid() && m in materializations
      reads this
    {
      var edge := edges[materializations[m]];
      HostFact(edge.role, nodes[edge.source], nodes[edge.target], edge.decision, edge.commit)
    }

    /** An edge writes a relation exactly if its fact is the relation's. */
    lemma {:induction false} WritesIsFact(
      m: MaterializationId, relation: HostRelation, decision: DecisionId, commit: CommitVersion)
      requires Valid() && m in materializations
      ensures Writes(materializations[m], relation, decision, commit) <==> Fact(m) == FactOf(relation, decision, commit)
    {
      hide HostRelation.Role, HostRelation.Endpoints, WellTyped, Joins;
      var edge := edges[materializations[m]];
      JoinsEndpoints(relation, edge.role, nodes[edge.source], nodes[edge.target]);
    }

    ghost function Written(): map<MaterializationId, HostFact>
      requires Valid()
      reads this
    {
      map m | m in materializations :: Fact(m)
    }

    constructor ()
      ensures Valid() && Written() == map[] && nodes == []
    {
      nodes, edges, indexes, materializations := [], [], map[], map[];
    }

    method AddNode(node: HostNodeId) returns (r: Result<nat, HostGraphError>)
      requires Valid()
      modifies this
      ensures Valid() && Written() == old(Written())
      ensures old(node in indexes) ==> r == Err(DuplicateNode(node)) && nodes == old(nodes)
      ensures old(node !in indexes) ==> r == Ok(|old(nodes)|) && nodes == old(nodes) + [node]
      ensures indexes.Keys == old(indexes.Keys) + {node}
    {
      hide WellTyped;
      if node in indexes { return Err(DuplicateNode(node)); }
      var index := |nodes|;
      nodes := nodes + [node];
      indexes := indexes[node := index];
      return Ok(index);
    }

    method AddEdge(
      source: nat, target: nat, relation: HostRelation, decision: DecisionId, commit: CommitVersion,
      m: MaterializationId)
      returns (index: nat)
      requires Valid() && source < |nodes| && target < |nodes| && m !in materializations
      requires Joins(relation, relation.Role(), nodes[source], nodes[target])
      modifies this`edges, this`materializations
      ensures Valid() && index == |old(edges)|
      ensures |edges| == index + 1 && edges[..index] == old(edges) && edges[index].materialization == m
      ensures Writes(index, relation, decision, commit)
      ensures Written() == old(Written())[m := FactOf(relation, decision, commit)]
    {
      hide HostRelation.Role, HostRelation.Endpoints, WellTyped;
      JoinsEndpoints(relation, relation.Role(), nodes[source], nodes[target]);
      index := |edges|;
      edges := edges + [HostEdge(source, target, relation.Role(), decision, commit, m)];
      materializations := materializations[m := index];
    }

    /** Writes one relation, unless this materialization was written before: then the same write is
        replayed and a different one refused. */
    method Materialize(relation: HostRelation, decision: DecisionId, commit: CommitVersion, m: MaterializationId)
      returns (r: Result<MaterializationOutcome, HostGraphError>)
      requires Valid()
      modifies this
      ensures Valid() && nodes == old(nodes) && indexes == old(indexes)
      ensures old(m in materializations) ==>
                && edges == old(edges) && Written() == old(Written())
                && r == if Writes(materializations[m], relation, decision, commit)
                        then Ok(Replayed(materializations[m])) else Err(HostGraphError.IdempotencyCollision)
      ensures old(m !in materializations) ==>
                forall role, source, target {:trigger Joins(relation, role, source, target)} ::
                  Joins(relation, role, source, target) ==>
                    if source !in indexes then r == Err(MissingNode(source))
                    else if target !in indexes then r == Err(MissingNode(target))
                    else r == Ok(Applied(|old(edges)|))
      ensures old(m !in materializations) && r.Err? ==> edges == old(edges) && Written() == old(Written())
      ensures old(m !in materializations) && r.Ok? ==>
                && |edges| == |old(edges)| + 1 && edges[..|old(edges)|] == old(edges)
                && edges[|old(edges)|].materialization == m && Writes(|old(edges)|, relation, decision, commit)
                && Written() == old(Written())[m := FactOf(relation, decision, commit)]
    {
      hide HostRelation.Role, HostRelation.Endpoints, WellTyped, Joins;
      var (source, target) := relation.Endpoints();
      forall role, from, to {:trigger Joins(relation, role, from, to)} {
        JoinsEndpoints(relation, role, from, to);
      }
      assert Joins(relation, relation.Role(), source, target);
      if m in materializations {
        var edge := edges[materializations[m]];
        if edge.role == relation.Role() && edge.decision == decision && edge.commit == commit
           && nodes[edge.source] == source && nodes[edge.target] == target {
          return Ok(Replayed(materializations[m]));
        }
        return Err(HostGraphError.IdempotencyCollision);
      }
      if source !in indexes { return Err(MissingNode(source)); }
      if target !in indexes { return Err(MissingNode(target)); }
      var index := AddEdge(indexes[source], indexes[target], relation, decision, commit, m);
      return Ok(Applied(index));
    }
  }
}
