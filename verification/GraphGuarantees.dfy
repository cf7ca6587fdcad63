/** What an accepted graph guarantees: one root that reaches everything, a topological order,
    and two later traversals (`collect_credential_ids`, `trigger_of`) that see what the
    validator saw. */
module GraphGuarantees {
  import opened Wrappers
  import opened Json
  import opened Digraphs
  import opened WorkflowGraphs
  import opened GraphValidation

  // ---- collect_credential_ids ----

  predicate HasCredentialField(definition: Definition) {
    exists i :: 0 <= i < |definition.fields| && definition.fields[i].credential
  }

  /** A configuration that is no dictionary is only noticed when a credential field reads it. */
  predicate CollectRaises(defs: Registry, node: Node) {
    ConfigOf(node).None? && HasCredentialField(Lookup(defs, node))
  }

  function ScannedCredentials(nodes: seq<Node>, defs: Registry): set<Json> {
    if nodes == [] then {} else
      var last := nodes[|nodes| - 1];
      ScannedCredentials(nodes[..|nodes| - 1], defs) + NodeCredentials(last, Lookup(defs, last))
  }

  /** The credentials of one node; `None` is the AttributeError. */
  method CollectFromNode(node: Node, defs: Registry) returns (found: Option<set<Json>>)
    ensures found.None? <==> CollectRaises(defs, node)
    ensures found.Some? ==> found.value == NodeCredentials(node, Lookup(defs, node))
  {
    var config := ConfigOf(node);
    var fields := Lookup(defs, node).fields;
    var own: set<Json> := {};
    for j := 0 to |fields|
      invariant config.None? ==> forall k :: 0 <= k < j ==> !fields[k].credential
      invariant own == FieldCredentials(fields[..j], config.GetOr(map[]))
    {
      assert fields[..j + 1][..j] == fields[..j];
      if fields[j].credential {
        if config.None? {
          return None;
        }
        var value := Get(config.value, fields[j].key);
        if Truthy(value) {
          own := own + {value};
        }
      }
      NoConfigNoCredentials(fields[..j + 1]);
    }
    assert fields[..|fields|] == fields;
    found := Some(own);
  }

  /** The credentials a graph names, without validating it. */
  method CollectCredentialIds(nodes: seq<Node>, defs: Registry) returns (found: Option<set<Json>>)
    ensures found.None? <==> exists i :: 0 <= i < |nodes| && CollectRaises(defs, nodes[i])
    ensures found.Some? ==> found.value == ScannedCredentials(nodes, defs)
  {
    var all: set<Json> := {};
    for i := 0 to |nodes|
      invariant forall k :: 0 <= k < i ==> !CollectRaises(defs, nodes[k])
      invariant all == ScannedCredentials(nodes[..i], defs)
    {
      assert nodes[..i + 1][..i] == nodes[..i];
      var own := CollectFromNode(nodes[i], defs);
      if own.None? {
        return None;
      }
      all := all + own.value;
    }
    assert nodes[..|nodes|] == nodes;
    found := Some(all);
  }

  lemma NoConfigNoCredentials(fields: seq<FieldSpec>)
    ensures FieldCredentials(fields, map[]) == {}
  {
  }

  // ---- trigger_of ----

  function TriggerOf(nodes: seq<Node>, defs: Registry): Option<Node> {
    if nodes == [] then None
    else if Lookup(defs, nodes[0]).isTrigger then Some(nodes[0])
    else TriggerOf(nodes[1..], defs)
  }

  lemma {:induction false} TriggerIdsConcat(a: seq<Node>, b: seq<Node>, defs: Registry)
    ensures TriggerIds(a + b, defs) == TriggerIds(a, defs) + TriggerIds(b, defs)
    decreases |b|
  {
    if b == [] {
      assert a + b == a;
    } else {
      var n := |b| - 1;
      assert (a + b)[..|a + b| - 1] == a + b[..n];
      TriggerIdsConcat(a, b[..n], defs);
    }
  }

  lemma {:induction false} TriggerOfIsFirst(nodes: seq<Node>, defs: Registry)
    requires forall i :: 0 <= i < |nodes| ==> nodes[i].nodeKey.Some? && KeyOrBlank(nodes[i]) in defs
    ensures TriggerOf(nodes, defs).None? <==> TriggerIds(nodes, defs) == []
    ensures TriggerOf(nodes, defs).Some? ==> IdOf(TriggerOf(nodes, defs).value) == TriggerIds(nodes, defs)[0]
  {
    if nodes != [] {
      assert nodes == [nodes[0]] + nodes[1..];
      TriggerIdsConcat([nodes[0]], nodes[1..], defs);
      assert TriggerIds([nodes[0]], defs) ==
        if defs[KeyOrBlank(nodes[0])].isTrigger then [IdOf(nodes[0])] else [];
      if !Lookup(defs, nodes[0]).isTrigger {
        TriggerOfIsFirst(nodes[1..], defs);
      }
    }
  }

  lemma {:induction false} ScanIsValidation(nodes: seq<Node>, defs: Registry)
    requires forall i :: 0 <= i < |nodes| ==> nodes[i].nodeKey.Some? && KeyOrBlank(nodes[i]) in defs
    ensures ScannedCredentials(nodes, defs) == GraphCredentials(nodes, defs)
  {
    if nodes != [] {
      ScanIsValidation(nodes[..|nodes| - 1], defs);
    }
  }

  /** An accepted graph is read alike by all three traversals, so dispatch resolves exactly the
      credentials that publishing checked. The registry's keys are the catalogue's, none blank. */
  lemma TraversalsAgree(graph: Graph, defs: Registry, broken: ExpressionCheck, requireTrigger: bool, r: ValidationResult)
    requires RightVerdict(graph, defs, broken, requireTrigger, r) && r.Ok() && "" !in defs
    ensures forall i :: 0 <= i < |graph.nodes.value| ==> !CollectRaises(defs, graph.nodes.value[i])
    ensures ScannedCredentials(graph.nodes.value, defs) == r.credentialIds
    ensures TriggerOf(graph.nodes.value, defs).None? <==> r.triggerNodeId.None?
    ensures r.triggerNodeId.Some? ==> Some(IdOf(TriggerOf(graph.nodes.value, defs).value)) == r.triggerNodeId
    ensures requireTrigger ==> r.triggerNodeId.Some?
  {
    var nodes := graph.nodes.value;
    assert forall i :: 0 <= i < |nodes| ==> NodeAccepted(defs, broken, nodes[i]);
    TriggerOfIsFirst(nodes, defs);
    ScanIsValidation(nodes, defs);
  }

  // ---- one root, one order ----

  lemma {:induction false} TriggersAreNodes(nodes: seq<Node>, defs: Registry, i: nat)
    requires i < |nodes| && KeyOrBlank(nodes[i]) in defs && defs[KeyOrBlank(nodes[i])].isTrigger
    ensures IdOf(nodes[i]) in TriggerIds(nodes, defs)
  {
    var n := |nodes| - 1;
    if i < n {
      TriggersAreNodes(nodes[..n], defs, i);
    }
  }

  lemma {:induction false} TriggerIdsAreIds(nodes: seq<Node>, defs: Registry, id: string)
    requires id in TriggerIds(nodes, defs)
    ensures id in NodeTable(nodes)
  {
    var n := |nodes| - 1;
    if id in TriggerIds(nodes[..n], defs) {
      TriggerIdsAreIds(nodes[..n], defs, id);
    }
  }

  /** A node that some accepted connection enters has a predecessor. */
  lemma EnteredHasPredecessor(nodes: seq<Node>, conns: seq<Connection>, defs: Registry, id: string)
    requires ConnectionsAccepted(NodeTable(nodes), defs, conns) && Enters(conns, id)
    ensures HasPredecessor(AdjacencyOf(nodes, conns), NodeTable(nodes).Keys, id)
  {
    var k :| 0 <= k < |conns| && TargetId(conns[k]) == id;
    var m := SourceId(conns[k]);
    assert ConnectionAccepted(NodeTable(nodes), defs, conns[k]);
    TargetsAreConnections(conns, m, id);
    assert Edge(AdjacencyOf(nodes, conns), m, id);
  }

  /** A node without a key is validated under "" and looked up for the orphan warning as "None";
      no definition of that name is a trigger, or no definition is blank. */
  predicate NoneIsNoTrigger(defs: Registry) {
    "" in defs && "None" in defs ==> !defs["None"].isTrigger
  }

  /** Among accepted nodes only the one trigger is looked up as a trigger. */
  lemma OthersAreNoTriggers(graph: Graph, defs: Registry, broken: ExpressionCheck, id: string)
    requires WellFormed(graph, defs, broken, true) && NoneIsNoTrigger(defs)
    requires id in NodeTable(graph.nodes.value) && TriggerIds(graph.nodes.value, defs)[0] != id
    ensures !Lookup(defs, NodeTable(graph.nodes.value)[id]).isTrigger
  {
    var nodes := graph.nodes.value;
    NodeTableKeys(nodes, id);
    NodeTableHolds(nodes);
    var i :| 0 <= i < |nodes| && IdOf(nodes[i]) == id;
    assert NodeAccepted(defs, broken, nodes[i]);
    if Lookup(defs, nodes[i]).isTrigger {
      TriggersAreNodes(nodes, defs, i);
    }
  }

  /** In an accepted graph without orphans every node but the trigger has a predecessor. */
  lemma NonTriggersAreFed(
    graph: Graph, defs: Registry, broken: ExpressionCheck, r: ValidationResult, id: string)
    requires RightVerdict(graph, defs, broken, true, r) && r.Ok() && NoneIsNoTrigger(defs)
    requires forall n :: !OrphanReported(r, n)
    requires id in NodeTable(graph.nodes.value) && Some(id) != r.triggerNodeId
    ensures HasPredecessor(
      AdjacencyOf(graph.nodes.value, graph.connections.value), NodeTable(graph.nodes.value).Keys, id)
  {
    OthersAreNoTriggers(graph, defs, broken, id);
    assert !OrphanReported(r, id);
    EnteredHasPredecessor(graph.nodes.value, graph.connections.value, defs, id);
  }

  /** An accepted graph can be run in an order that follows every connection. */
  lemma AcceptedGraphHasOrder(graph: Graph, defs: Registry, broken: ExpressionCheck, requireTrigger: bool)
    returns (order: seq<string>)
    requires WellFormed(graph, defs, broken, requireTrigger)
    ensures IsTopologicalOrder(
      AdjacencyOf(graph.nodes.value, graph.connections.value), NodeTable(graph.nodes.value).Keys, order)
  {
    order := AcyclicHasOrder(AdjacencyOf(graph.nodes.value, graph.connections.value), NodeTable(graph.nodes.value).Keys);
  }

  /** No errors and no orphan warning: the single trigger reaches every node. */
  lemma AcceptedGraphRunsFromTrigger(graph: Graph, defs: Registry, broken: ExpressionCheck, r: ValidationResult)
    requires RightVerdict(graph, defs, broken, true, r) && r.Ok() && NoneIsNoTrigger(defs)
    requires forall n :: !OrphanReported(r, n)
    ensures r.triggerNodeId.Some?
    ensures forall id | id in NodeTable(graph.nodes.value) ::
      Reachable(AdjacencyOf(graph.nodes.value, graph.connections.value), r.triggerNodeId.value, id)
  {
    var nodes, conns := graph.nodes.value, graph.connections.value;
    var adj, ids := AdjacencyOf(nodes, conns), NodeTable(nodes).Keys;
    var root := r.triggerNodeId.value;
    assert root in TriggerIds(nodes, defs);
    TriggerIdsAreIds(nodes, defs, root);
    forall id | id in ids && id != root ensures HasPredecessor(adj, ids, id) {
      NonTriggersAreFed(graph, defs, broken, r, id);
    }
    RootReachesAll(adj, ids, root);
  }
}
