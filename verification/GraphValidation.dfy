/** `validate_graph` and the two traversals that must agree with it (`graph.py`). */
module GraphValidation {
  import opened Wrappers
  import opened Json
  import opened Digraphs
  import opened WorkflowGraphs
  import CycleSearch

  datatype Code =
    | GraphMalformed | GraphTooLarge
    | NodeIdInvalid | NodeIdDuplicate | NodeUnsupported | NodeDeprecated
    | NodeNameRequired | NodeNameTooLong | NodeNameDuplicate
    | NodeConfigurationInvalid | ExpressionInvalid
    | TriggerRequired | TriggerAmbiguous | TriggerNotConnected
    | ConnectionDangling | ConnectionSelf | ConnectionDuplicate | ConnectionPortInvalid
    | GraphHasCycle | NodeOrphan

  datatype Severity = Error | Warning

  datatype Issue = Issue(code: Code, nodeId: Option<string>, field: Option<string>, severity: Severity)

  datatype ValidationResult = ValidationResult(
    issues: seq<Issue>,
    credentialIds: set<Json>,
    triggerNodeId: Option<string>,
    triggerNodeKey: Option<string>)
  {
    predicate Ok() { NoErrors(issues) }
  }

  predicate NoErrors(issues: seq<Issue>) {
    forall x :: x in issues ==> x.severity == Warning
  }

  function Fault(code: Code, nodeId: Option<string>): Issue {
    Issue(code, nodeId, None, Error)
  }

  /** The fields of a configuration that hold a malformed expression; the brace check itself
      is a parameter. */
  type ExpressionCheck = map<string, Json> -> seq<string>

  // ---- what an acceptable graph is ----

  predicate IsBlank(v: Json) {
    v == Null || v == Text("") || v == Array([]) || v == Object(map[])
  }

  /** A required field whose display condition holds. */
  predicate Demanded(spec: FieldSpec, config: map<string, Json>) {
    spec.required && (spec.condition.Some? ==> Get(config, spec.condition.value.field) == spec.condition.value.equals)
  }

  predicate FieldsFilled(fields: seq<FieldSpec>, config: map<string, Json>) {
    forall i :: 0 <= i < |fields| && Demanded(fields[i], config) ==> !IsBlank(Get(config, fields[i].key))
  }

  predicate Usable(definition: Definition) {
    definition.status != Disabled && !definition.blocked
  }

  predicate NodeAccepted(defs: Registry, broken: ExpressionCheck, node: Node) {
    && KeyOrBlank(node) in defs && Usable(defs[KeyOrBlank(node)])
    && NameOf(node) != "" && |NameOf(node)| <= MAX_NAME_LENGTH
    && ConfigOf(node).Some?
    && FieldsFilled(defs[KeyOrBlank(node)].fields, ConfigOf(node).value)
    && broken(ConfigOf(node).value) == []
  }

  predicate IdsAccepted(nodes: seq<Node>) {
    && (forall i :: 0 <= i < |nodes| ==> IsNodeId(IdOf(nodes[i])))
    && (forall i, j :: 0 <= i < j < |nodes| ==> IdOf(nodes[i]) != IdOf(nodes[j]))
  }

  predicate NodesAccepted(defs: Registry, broken: ExpressionCheck, nodes: seq<Node>) {
    && (forall i :: 0 <= i < |nodes| ==> NodeAccepted(defs, broken, nodes[i]))
    && (forall i, j :: 0 <= i < j < |nodes| ==> NameOf(nodes[i]) != NameOf(nodes[j]))
  }

  /** No port at all is named, which leaves the source port unchecked. */
  ghost predicate OffersNothing(node: Node, definition: Definition) {
    forall p :: !Offers(node, definition, p)
  }

  ghost predicate ConnectionAccepted(table: map<string, Node>, defs: Registry, conn: Connection) {
    && SourceId(conn) in table && TargetId(conn) in table && SourceId(conn) != TargetId(conn)
    && (|| OffersNothing(table[SourceId(conn)], Lookup(defs, table[SourceId(conn)]))
        || Offers(table[SourceId(conn)], Lookup(defs, table[SourceId(conn)]), PortOf(conn.source)))
    && PortOf(conn.target) in Lookup(defs, table[TargetId(conn)]).inputPorts
  }

  ghost predicate ConnectionsAccepted(table: map<string, Node>, defs: Registry, conns: seq<Connection>) {
    && (forall i :: 0 <= i < |conns| ==> ConnectionAccepted(table, defs, conns[i]))
    && (forall i, j :: 0 <= i < j < |conns| ==> EdgeKeyOf(conns[i]) != EdgeKeyOf(conns[j]))
  }

  predicate Leaves(conns: seq<Connection>, id: string) {
    exists i :: 0 <= i < |conns| && SourceId(conns[i]) == id
  }

  predicate Enters(conns: seq<Connection>, id: string) {
    exists i :: 0 <= i < |conns| && TargetId(conns[i]) == id
  }

  /** The validator asks the source of this connection for ports it cannot name. */
  predicate ConnectionRaises(table: map<string, Node>, defs: Registry, conn: Connection) {
    && SourceId(conn) in table && TargetId(conn) in table && SourceId(conn) != TargetId(conn)
    && PortsRaise(table[SourceId(conn)], Lookup(defs, table[SourceId(conn)]))
  }

  predicate SomeConnectionRaises(table: map<string, Node>, defs: Registry, conns: seq<Connection>) {
    exists i :: 0 <= i < |conns| && ConnectionRaises(table, defs, conns[i])
  }

  /** Validation ends in an exception instead of a verdict. */
  predicate ValidatorRaises(graph: Graph, defs: Registry) {
    && graph.nodes.Some? && graph.connections.Some? && |graph.nodes.value| <= MAX_NODES
    && SomeConnectionRaises(IdTable(graph.nodes.value), defs, graph.connections.value)
  }

  /** Everything `ok` promises about a graph. */
  ghost predicate WellFormed(graph: Graph, defs: Registry, broken: ExpressionCheck, requireTrigger: bool) {
    && graph.nodes.Some? && graph.connections.Some? && !ValidatorRaises(graph, defs)
    && var nodes := graph.nodes.value; var conns := graph.connections.value;
       var triggers := TriggerIds(nodes, defs);
    && |nodes| <= MAX_NODES && IdsAccepted(nodes) && NodesAccepted(defs, broken, nodes)
    && (requireTrigger ==> |triggers| == 1)
    && ConnectionsAccepted(NodeTable(nodes), defs, conns)
    && !Cyclic(AdjacencyOf(nodes, conns))
    && (triggers != [] ==> Leaves(conns, triggers[0]))
  }

  ghost predicate OrphanReported(r: ValidationResult, id: string) {
    Issue(NodeOrphan, Some(id), None, Warning) in r.issues
  }

  ghost predicate IsOrphan(nodes: seq<Node>, conns: seq<Connection>, defs: Registry, id: string) {
    id in NodeTable(nodes) && !Lookup(defs, NodeTable(nodes)[id]).isTrigger && !Enters(conns, id)
  }

  /** A verdict that is right: `ok` exactly on the well-formed graphs, and there the trigger,
      the credentials and the orphan warnings are the graph's own. */
  ghost predicate RightVerdict(
    graph: Graph, defs: Registry, broken: ExpressionCheck, requireTrigger: bool, r: ValidationResult)
  {
    && (r.Ok() <==> WellFormed(graph, defs, broken, requireTrigger))
    && (r.Ok() ==>
          var nodes := graph.nodes.value; var conns := graph.connections.value;
          var triggers := TriggerIds(nodes, defs);
          && r.credentialIds == GraphCredentials(nodes, defs)
          && r.triggerNodeId == (if triggers == [] then None else Some(triggers[0]))
          && (forall id :: OrphanReported(r, id) <==> IsOrphan(nodes, conns, defs, id)))
  }

  // ---- the validator ----

  /** One more node is acceptable when its id is well formed and new. */
  lemma IdsAcceptedStep(nodes: seq<Node>, i: nat)
    requires i < |nodes|
    ensures var id := IdOf(nodes[i]);
      IdsAccepted(nodes[..i + 1]) <==> IdsAccepted(nodes[..i]) && IsNodeId(id) && id !in NodeTable(nodes[..i])
    ensures NodeTable(nodes[..i + 1]) == NodeTable(nodes[..i])[IdOf(nodes[i]) := nodes[i]]
    ensures var id := IdOf(nodes[i]);
      IdTable(nodes[..i + 1]) ==
        if IsNodeId(id) && id !in IdTable(nodes[..i]) then IdTable(nodes[..i])[id := nodes[i]] else IdTable(nodes[..i])
  {
    var longer, shorter := nodes[..i + 1], nodes[..i];
    assert longer[..i] == shorter && longer[i] == nodes[i];
    assert forall k :: 0 <= k < i ==> longer[k] == shorter[k];
    NodeTableKeys(shorter, IdOf(nodes[i]));
  }

  /** First pass: the id table. */
  method IndexNodes(nodes: seq<Node>) returns (issues: seq<Issue>, order: seq<string>, byId: map<string, Node>)
    ensures NoErrors(issues) <==> IdsAccepted(nodes)
    ensures byId == IdTable(nodes)
    ensures forall id :: id in order <==> id in byId
    ensures forall id :: id in byId ==> IdOf(byId[id]) == id
    ensures IdsAccepted(nodes) ==> byId == NodeTable(nodes) && |order| == |nodes|
    ensures IdsAccepted(nodes) ==> forall i :: 0 <= i < |nodes| ==> order[i] == IdOf(nodes[i])
    ensures forall x :: x in issues ==> x.code != NodeOrphan
  {
    issues, order, byId := [], [], map[];
    for i := 0 to |nodes|
      invariant NoErrors(issues) <==> IdsAccepted(nodes[..i])
      invariant byId == IdTable(nodes[..i])
      invariant forall id :: id in order <==> id in byId
      invariant forall id :: id in byId ==> IdOf(byId[id]) == id
      invariant NoErrors(issues) ==> byId == NodeTable(nodes[..i]) && |order| == i
      invariant NoErrors(issues) ==> forall k :: 0 <= k < i ==> order[k] == IdOf(nodes[k])
      invariant forall x :: x in issues ==> x.code != NodeOrphan
    {
      var id := IdOf(nodes[i]);
      IdsAcceptedStep(nodes, i);
      if !IsNodeId(id) {
        issues := issues + [Fault(NodeIdInvalid, if id == "" then None else Some(id))];
      } else if id in byId {
        issues := issues + [Fault(NodeIdDuplicate, Some(id))];
      } else {
        order := order + [id];
        byId := byId[id := nodes[i]];
      }
    }
    assert nodes[..|nodes|] == nodes;
  }

  /** Required fields, in registry order. */
  method CheckFields(id: string, fields: seq<FieldSpec>, config: map<string, Json>) returns (issues: seq<Issue>)
    ensures NoErrors(issues) <==> FieldsFilled(fields, config)
    ensures forall x :: x in issues ==> x.code != NodeOrphan
  {
    issues := [];
    for i := 0 to |fields|
      invariant NoErrors(issues) <==> FieldsFilled(fields[..i], config)
      invariant forall x :: x in issues ==> x.code != NodeOrphan
    {
      assert fields[..i + 1] == fields[..i] + [fields[i]];
      if Demanded(fields[i], config) && IsBlank(Get(config, fields[i].key)) {
        assert Demanded(fields[..i + 1][i], config);
        issues := issues + [Issue(NodeConfigurationInvalid, Some(id), Some(fields[i].key), Error)];
      }
    }
    assert fields[..|fields|] == fields;
  }

  method FindCredentials(fields: seq<FieldSpec>, config: map<string, Json>) returns (found: set<Json>)
    ensures found == FieldCredentials(fields, config)
  {
    found := {};
    for i := 0 to |fields|
      invariant found == FieldCredentials(fields[..i], config)
    {
      assert fields[..i + 1][..i] == fields[..i];
      var value := Get(config, fields[i].key);
      if fields[i].credential && Truthy(value) {
        found := found + {value};
      }
    }
    assert fields[..|fields|] == fields;
  }

  method CheckExpressions(id: string, broken: ExpressionCheck, config: map<string, Json>) returns (issues: seq<Issue>)
    ensures NoErrors(issues) <==> broken(config) == []
    ensures forall x :: x in issues ==> x.code != NodeOrphan
  {
    var paths := broken(config);
    issues := [];
    for i := 0 to |paths|
      invariant NoErrors(issues) <==> i == 0
      invariant forall x :: x in issues ==> x.code != NodeOrphan
    {
      issues := issues + [Issue(ExpressionInvalid, Some(id), Some(paths[i]), Error)];
    }
  }

  datatype NodeVerdict = NodeVerdict(issues: seq<Issue>, names: set<string>, isTrigger: bool, credentials: set<Json>)

  /** The checks on one node; `names` are the names seen on earlier nodes. */
  method CheckNode(id: string, node: Node, defs: Registry, broken: ExpressionCheck, names: set<string>)
    returns (v: NodeVerdict)
    ensures NoErrors(v.issues) <==> NodeAccepted(defs, broken, node) && NameOf(node) !in names
    ensures NoErrors(v.issues) ==> v.names == names + {NameOf(node)}
    ensures NoErrors(v.issues) ==> v.isTrigger == defs[KeyOrBlank(node)].isTrigger
    ensures NoErrors(v.issues) ==> v.credentials == NodeCredentials(node, defs[KeyOrBlank(node)])
    ensures forall x :: x in v.issues ==> x.code != NodeOrphan
  {
    if KeyOrBlank(node) !in defs {
      return NodeVerdict([Fault(NodeUnsupported, Some(id))], names, false, {});
    }
    var definition := defs[KeyOrBlank(node)];
    if !Usable(definition) {
      return NodeVerdict([Fault(NodeUnsupported, Some(id))], names, false, {});
    }
    var issues: seq<Issue> := [];
    if definition.status == Deprecated {
      issues := [Issue(NodeDeprecated, Some(id), None, Warning)];
    }
    var name := NameOf(node);
    var seen := names;
    if name == "" {
      issues := issues + [Fault(NodeNameRequired, Some(id))];
    } else if |name| > MAX_NAME_LENGTH {
      issues := issues + [Fault(NodeNameTooLong, Some(id))];
    } else if name in names {
      issues := issues + [Fault(NodeNameDuplicate, Some(id))];
    } else {
      seen := names + {name};
    }
    assert NoErrors(issues) <==> name != "" && |name| <= MAX_NAME_LENGTH && name !in names;
    var config := ConfigOf(node);
    if config.None? {
      return NodeVerdict(issues + [Fault(NodeConfigurationInvalid, Some(id))], seen, false, {});
    }
    var unfilled := CheckFields(id, definition.fields, config.value);
    var credentials := FindCredentials(definition.fields, config.value);
    var malformed := CheckExpressions(id, broken, config.value);
    v := NodeVerdict(issues + unfilled + malformed, seen, definition.isTrigger, credentials);
  }

  function Picked(order: seq<string>, byId: map<string, Node>): seq<Node>
    requires forall id :: id in order ==> id in byId
  {
    seq(|order|, i requires 0 <= i < |order| => byId[order[i]])
  }

  ghost predicate AreNamesOf(names: set<string>, nodes: seq<Node>) {
    forall n :: n in names <==> exists k :: 0 <= k < |nodes| && NameOf(nodes[k]) == n
  }

  datatype NodeProgress = NodeProgress(issues: seq<Issue>, names: set<string>, triggers: seq<string>, credentials: set<Json>)
  {
    /** The findings about exactly these nodes. */
    ghost predicate Of(defs: Registry, broken: ExpressionCheck, nodes: seq<Node>) {
      && (NoErrors(issues) <==> NodesAccepted(defs, broken, nodes))
      && (NoErrors(issues) ==> AreNamesOf(names, nodes))
      && (NoErrors(issues) ==> triggers == TriggerIds(nodes, defs) && credentials == GraphCredentials(nodes, defs))
      && (forall x :: x in issues ==> x.code != NodeOrphan)
    }
  }

  method CheckNextNode(
    node: Node, defs: Registry, broken: ExpressionCheck, ghost nodes: seq<Node>, p: NodeProgress)
    returns (q: NodeProgress)
    requires p.Of(defs, broken, nodes)
    ensures q.Of(defs, broken, nodes + [node])
    ensures q.triggers == p.triggers || q.triggers == p.triggers + [IdOf(node)]
  {
    var v := CheckNode(IdOf(node), node, defs, broken, p.names);
    assert (nodes + [node])[..|nodes|] == nodes && (nodes + [node])[..|nodes| + 1] == nodes + [node];
    NodesAcceptedStep(defs, broken, nodes + [node], |nodes|);
    q := NodeProgress(
      p.issues + v.issues, v.names, if v.isTrigger then p.triggers + [IdOf(node)] else p.triggers,
      p.credentials + v.credentials);
    assert NoErrors(q.issues) <==> NoErrors(p.issues) && NoErrors(v.issues);
  }

  /** Second pass: every node, collecting triggers and credentials. */
  method CheckNodes(order: seq<string>, byId: map<string, Node>, defs: Registry, broken: ExpressionCheck)
    returns (issues: seq<Issue>, triggers: seq<string>, credentials: set<Json>)
    requires forall id :: id in order ==> id in byId
    requires forall id :: id in byId ==> IdOf(byId[id]) == id
    ensures NoErrors(issues) <==> NodesAccepted(defs, broken, Picked(order, byId))
    ensures NoErrors(issues) ==> triggers == TriggerIds(Picked(order, byId), defs)
    ensures NoErrors(issues) ==> credentials == GraphCredentials(Picked(order, byId), defs)
    ensures forall id :: id in triggers ==> id in byId
    ensures forall x :: x in issues ==> x.code != NodeOrphan
  {
    ghost var nodes := Picked(order, byId);
    var p := NodeProgress([], {}, [], {});
    for i := 0 to |order|
      invariant p.Of(defs, broken, nodes[..i])
      invariant forall id :: id in p.triggers ==> id in byId
    {
      assert nodes[..i + 1] == nodes[..i] + [byId[order[i]]];
      p := CheckNextNode(byId[order[i]], defs, broken, nodes[..i], p);
    }
    assert nodes[..|order|] == nodes;
    issues, triggers, credentials := p.issues, p.triggers, p.credentials;
  }

  lemma NodesAcceptedStep(defs: Registry, broken: ExpressionCheck, nodes: seq<Node>, i: nat)
    requires i < |nodes|
    ensures NodesAccepted(defs, broken, nodes[..i + 1]) <==>
      && NodesAccepted(defs, broken, nodes[..i]) && NodeAccepted(defs, broken, nodes[i])
      && forall k :: 0 <= k < i ==> NameOf(nodes[k]) != NameOf(nodes[i])
  {
  }

  lemma PortsDecide(node: Node, definition: Definition, p: string)
    ensures OutputPorts(node, definition) == [] || p in OutputPorts(node, definition) <==>
      OffersNothing(node, definition) || Offers(node, definition, p)
  {
    var ports := OutputPorts(node, definition);
    forall q ensures q in ports <==> Offers(node, definition, q) {
      OutputPortsAreOffered(node, definition, q);
    }
    assert ports != [] ==> ports[0] in ports;
  }

  datatype ConnectionVerdict = Accepted | Refused(issue: Issue) | Raised

  /** The verdict on one connection. */
  method CheckConnection(conn: Connection, byId: map<string, Node>, defs: Registry, seen: set<EdgeKey>)
    returns (verdict: ConnectionVerdict, seenAfter: set<EdgeKey>)
    ensures verdict.Raised? <==> ConnectionRaises(byId, defs, conn) && EdgeKeyOf(conn) !in seen
    ensures !verdict.Raised? ==>
      (verdict.Accepted? <==> ConnectionAccepted(byId, defs, conn) && EdgeKeyOf(conn) !in seen)
    ensures verdict.Accepted? ==> seenAfter == seen + {EdgeKeyOf(conn)}
    ensures seenAfter == seen || seenAfter == seen + {EdgeKeyOf(conn)}
    ensures verdict.Refused? ==> verdict.issue.severity == Error && verdict.issue.code != NodeOrphan
  {
    var source, target := SourceId(conn), TargetId(conn);
    if source !in byId || target !in byId {
      return Refused(Fault(ConnectionDangling, None)), seen;
    }
    if source == target {
      return Refused(Fault(ConnectionSelf, Some(source))), seen;
    }
    if EdgeKeyOf(conn) in seen {
      return Refused(Fault(ConnectionDuplicate, Some(source))), seen;
    }
    seenAfter := seen + {EdgeKeyOf(conn)};
    if PortsRaise(byId[source], Lookup(defs, byId[source])) {
      return Raised, seenAfter;
    }
    var validOut := OutputPorts(byId[source], Lookup(defs, byId[source]));
    var validIn := Lookup(defs, byId[target]).inputPorts;
    PortsDecide(byId[source], Lookup(defs, byId[source]), PortOf(conn.source));
    if validOut != [] && PortOf(conn.source) !in validOut {
      verdict := Refused(Fault(ConnectionPortInvalid, Some(source)));
    } else if validIn != [] && PortOf(conn.target) !in validIn {
      verdict := Refused(Fault(ConnectionPortInvalid, Some(target)));
    } else if validIn == [] {
      verdict := Refused(Fault(ConnectionPortInvalid, Some(target)));
    } else {
      verdict := Accepted;
    }
  }

  ghost predicate CountsEntries(incoming: map<string, nat>, ids: set<string>, conns: seq<Connection>) {
    incoming.Keys == ids && forall id :: id in ids ==> (incoming[id] > 0 <==> Enters(conns, id))
  }

  ghost predicate CountsExits(outgoing: map<string, nat>, ids: set<string>, conns: seq<Connection>) {
    outgoing.Keys == ids && forall id :: id in ids ==> (outgoing[id] > 0 <==> Leaves(conns, id))
  }

  ghost predicate ListsTargets(adjacency: Adjacency<string>, ids: set<string>, conns: seq<Connection>) {
    adjacency.Keys == ids && forall id :: id in ids ==> adjacency[id] == TargetsOf(conns, id)
  }

  datatype Wiring = Wiring(incoming: map<string, nat>, outgoing: map<string, nat>, adjacency: Adjacency<string>)
  {
    /** The counters and neighbour lists of exactly these connections. */
    ghost predicate Of(byId: map<string, Node>, conns: seq<Connection>) {
      CountsEntries(incoming, byId.Keys, conns) && CountsExits(outgoing, byId.Keys, conns)
      && ListsTargets(adjacency, byId.Keys, conns)
    }

    function Add(conn: Connection): Wiring
      requires SourceId(conn) in outgoing && TargetId(conn) in incoming && SourceId(conn) in adjacency
    {
      Wiring(
        incoming[TargetId(conn) := incoming[TargetId(conn)] + 1],
        outgoing[SourceId(conn) := outgoing[SourceId(conn)] + 1],
        adjacency[SourceId(conn) := adjacency[SourceId(conn)] + [TargetId(conn)]])
    }
  }

  lemma EntriesStep(incoming: map<string, nat>, ids: set<string>, conns: seq<Connection>, i: nat)
    requires i < |conns| && CountsEntries(incoming, ids, conns[..i]) && TargetId(conns[i]) in ids
    ensures CountsEntries(incoming[TargetId(conns[i]) := incoming[TargetId(conns[i])] + 1], ids, conns[..i + 1])
  {
  }

  lemma ExitsStep(outgoing: map<string, nat>, ids: set<string>, conns: seq<Connection>, i: nat)
    requires i < |conns| && CountsExits(outgoing, ids, conns[..i]) && SourceId(conns[i]) in ids
    ensures CountsExits(outgoing[SourceId(conns[i]) := outgoing[SourceId(conns[i])] + 1], ids, conns[..i + 1])
  {
  }

  lemma TargetsStep(adjacency: Adjacency<string>, ids: set<string>, conns: seq<Connection>, i: nat)
    requires i < |conns| && ListsTargets(adjacency, ids, conns[..i]) && SourceId(conns[i]) in ids
    ensures ListsTargets(
      adjacency[SourceId(conns[i]) := adjacency[SourceId(conns[i])] + [TargetId(conns[i])]], ids, conns[..i + 1])
  {
    assert conns[..i + 1][..i] == conns[..i];
  }

  lemma WiringStep(w: Wiring, byId: map<string, Node>, conns: seq<Connection>, i: nat)
    requires i < |conns| && w.Of(byId, conns[..i])
    requires SourceId(conns[i]) in byId && TargetId(conns[i]) in byId
    ensures w.Add(conns[i]).Of(byId, conns[..i + 1])
  {
    EntriesStep(w.incoming, byId.Keys, conns, i);
    ExitsStep(w.outgoing, byId.Keys, conns, i);
    TargetsStep(w.adjacency, byId.Keys, conns, i);
  }

  ghost predicate AreEdgesOf(seen: set<EdgeKey>, conns: seq<Connection>) {
    forall e :: e in seen <==> exists k :: 0 <= k < |conns| && EdgeKeyOf(conns[k]) == e
  }

  lemma ConnectionsAcceptedStep(
    table: map<string, Node>, defs: Registry, conns: seq<Connection>, i: nat, seen: set<EdgeKey>, clean: bool)
    requires i < |conns| && (clean ==> AreEdgesOf(seen, conns[..i]))
    ensures ConnectionsAccepted(table, defs, conns[..i + 1]) ==>
      ConnectionsAccepted(table, defs, conns[..i]) && ConnectionAccepted(table, defs, conns[i])
    ensures clean && ConnectionsAccepted(table, defs, conns[..i + 1]) ==> EdgeKeyOf(conns[i]) !in seen
    ensures clean && ConnectionsAccepted(table, defs, conns[..i]) && ConnectionAccepted(table, defs, conns[i]) ==>
      EdgeKeyOf(conns[i]) in seen || ConnectionsAccepted(table, defs, conns[..i + 1])
    ensures clean ==> AreEdgesOf(seen + {EdgeKeyOf(conns[i])}, conns[..i + 1])
  {
    var longer, shorter := conns[..i + 1], conns[..i];
    assert forall k :: 0 <= k < i ==> longer[k] == shorter[k];
    assert longer[i] == conns[i];
  }

  ghost predicate IsKeyIn(e: EdgeKey, conns: seq<Connection>) {
    exists k :: 0 <= k < |conns| && EdgeKeyOf(conns[k]) == e
  }

  datatype Progress = Progress(issues: seq<Issue>, seen: set<EdgeKey>, wiring: Wiring) {
    ghost predicate Shaped(byId: map<string, Node>) {
      && wiring.incoming.Keys == wiring.outgoing.Keys == wiring.adjacency.Keys == byId.Keys
      && (forall x :: x in issues ==> x.code != NodeOrphan)
    }

    ghost predicate Of(byId: map<string, Node>, defs: Registry, conns: seq<Connection>) {
      && Shaped(byId)
      && !SomeConnectionRaises(byId, defs, conns)
      && (forall e :: e in seen ==> IsKeyIn(e, conns))
      && (NoErrors(issues) <==> ConnectionsAccepted(byId, defs, conns))
      && (NoErrors(issues) ==> AreEdgesOf(seen, conns) && wiring.Of(byId, conns))
    }
  }

  /** A connection that repeats an earlier one raises only if that one did. */
  lemma RepeatsRaiseAlike(
    conns: seq<Connection>, i: nat, byId: map<string, Node>, defs: Registry, seen: set<EdgeKey>)
    requires i < |conns| && !SomeConnectionRaises(byId, defs, conns[..i])
    requires forall e :: e in seen ==> IsKeyIn(e, conns[..i])
    ensures SomeConnectionRaises(byId, defs, conns[..i + 1]) <==>
      ConnectionRaises(byId, defs, conns[i]) && EdgeKeyOf(conns[i]) !in seen
    ensures forall e :: e in seen || e == EdgeKeyOf(conns[i]) ==> IsKeyIn(e, conns[..i + 1])
  {
    var longer, shorter := conns[..i + 1], conns[..i];
    assert forall k :: 0 <= k < i ==> longer[k] == shorter[k];
    assert longer[i] == conns[i];
    if EdgeKeyOf(conns[i]) in seen {
      var k :| 0 <= k < i && EdgeKeyOf(shorter[k]) == EdgeKeyOf(conns[i]);
      assert !ConnectionRaises(byId, defs, shorter[k]);
    }
    forall e | e in seen ensures IsKeyIn(e, longer) {
      var k :| 0 <= k < i && EdgeKeyOf(shorter[k]) == e;
      assert EdgeKeyOf(longer[k]) == e;
    }
  }

  method CheckNextConnection(conns: seq<Connection>, i: nat, byId: map<string, Node>, defs: Registry, p: Progress)
    returns (q: Option<Progress>)
    requires i < |conns| && p.Of(byId, defs, conns[..i])
    ensures q.None? <==> SomeConnectionRaises(byId, defs, conns[..i + 1])
    ensures q.Some? ==> q.value.Of(byId, defs, conns[..i + 1])
  {
    var verdict, seen := CheckConnection(conns[i], byId, defs, p.seen);
    RepeatsRaiseAlike(conns, i, byId, defs, p.seen);
    ConnectionsAcceptedStep(byId, defs, conns, i, p.seen, NoErrors(p.issues));
    match verdict {
      case Raised =>
        q := None;
      case Refused(issue) =>
        q := Some(Progress(p.issues + [issue], seen, p.wiring));
        assert issue in q.value.issues;
      case Accepted =>
        if NoErrors(p.issues) {
          WiringStep(p.wiring, byId, conns, i);
        }
        q := Some(Progress(p.issues, seen, p.wiring.Add(conns[i])));
    }
  }

  /** Third pass: every connection, building the counters and the neighbour lists; `None` raises. */
  method CheckConnections(conns: seq<Connection>, byId: map<string, Node>, defs: Registry) returns (p: Option<Progress>)
    ensures p.None? <==> SomeConnectionRaises(byId, defs, conns)
    ensures p.Some? ==> p.value.Of(byId, defs, conns)
  {
    var sofar := Progress([], {}, Wiring(map id | id in byId :: 0, map id | id in byId :: 0, map id | id in byId :: []));
    assert conns[..0] == [];
    for i := 0 to |conns|
      invariant sofar.Of(byId, defs, conns[..i])
    {
      var next := CheckNextConnection(conns, i, byId, defs, sofar);
      if next.None? {
        var k :| 0 <= k < i + 1 && ConnectionRaises(byId, defs, conns[..i + 1][k]);
        assert ConnectionRaises(byId, defs, conns[k]);
        return None;
      }
      sofar := next.value;
    }
    assert conns[..|conns|] == conns;
    p := Some(sofar);
  }

  /** Last pass: nodes nothing flows into. */
  method FindOrphans(order: seq<string>, byId: map<string, Node>, defs: Registry, incoming: map<string, nat>)
    returns (issues: seq<Issue>)
    requires forall id :: id in order <==> id in byId
    requires incoming.Keys == byId.Keys
    ensures NoErrors(issues)
    ensures forall id :: Issue(NodeOrphan, Some(id), None, Warning) in issues <==>
      id in byId && !Lookup(defs, byId[id]).isTrigger && incoming[id] == 0
  {
    issues := [];
    for i := 0 to |order|
      invariant NoErrors(issues)
      invariant forall id :: Issue(NodeOrphan, Some(id), None, Warning) in issues <==>
        id in order[..i] && !Lookup(defs, byId[id]).isTrigger && incoming[id] == 0
    {
      assert order[..i + 1] == order[..i] + [order[i]];
      if !Lookup(defs, byId[order[i]]).isTrigger && incoming[order[i]] == 0 {
        issues := issues + [Issue(NodeOrphan, Some(order[i]), None, Warning)];
      }
    }
    assert order[..|order|] == order;
  }

  function TriggerIssues(triggers: seq<string>, requireTrigger: bool): (issues: seq<Issue>)
    ensures NoErrors(issues) <==> (requireTrigger ==> |triggers| == 1)
    ensures forall x :: x in issues ==> x.code != NodeOrphan
  {
    if !requireTrigger then []
    else if triggers == [] then
      var issue := Fault(TriggerRequired, None);
      assert issue in [issue];
      [issue]
    else if |triggers| > 1 then
      var issue := Fault(TriggerAmbiguous, Some(triggers[1]));
      assert issue in [issue];
      [issue]
    else []
  }

  /** Why the collected parts are a right verdict. */
  lemma PartsMakeVerdict(
    nodes: seq<Node>, conns: seq<Connection>, defs: Registry, broken: ExpressionCheck, requireTrigger: bool,
    byId: map<string, Node>, triggers: seq<string>, wiring: Wiring, accepted: bool, connected: bool, cyclic: bool)
    requires |nodes| <= MAX_NODES && !ValidatorRaises(Graph(Some(nodes), Some(conns)), defs)
    requires accepted <==> IdsAccepted(nodes) && NodesAccepted(defs, broken, nodes)
    requires accepted ==> byId == NodeTable(nodes) && triggers == TriggerIds(nodes, defs)
    requires forall id :: id in triggers ==> id in byId
    requires connected <==> ConnectionsAccepted(byId, defs, conns)
    requires connected ==> wiring.Of(byId, conns)
    requires wiring.outgoing.Keys == byId.Keys
    requires cyclic <==> Cyclic(wiring.adjacency)
    ensures WellFormed(Graph(Some(nodes), Some(conns)), defs, broken, requireTrigger) <==>
      (&& accepted && (requireTrigger ==> |triggers| == 1) && connected && !cyclic
       && (triggers == [] || wiring.outgoing[triggers[0]] > 0))
  {
    if accepted && connected {
      assert wiring.adjacency == AdjacencyOf(nodes, conns);
    }
  }

  /** `validate_graph`; `None` is the exception. */
  method ValidateGraph(graph: Graph, defs: Registry, broken: ExpressionCheck, requireTrigger: bool)
    returns (r: Option<ValidationResult>)
    ensures r.None? <==> ValidatorRaises(graph, defs)
    ensures r.Some? ==> RightVerdict(graph, defs, broken, requireTrigger, r.value)
  {
    if graph.nodes.None? || graph.connections.None? {
      r := Some(ValidationResult([Fault(GraphMalformed, None)], {}, None, None));
      assert Fault(GraphMalformed, None) in r.value.issues;
    } else if |graph.nodes.value| > MAX_NODES {
      r := Some(ValidationResult([Fault(GraphTooLarge, None)], {}, None, None));
      assert Fault(GraphTooLarge, None) in r.value.issues;
    } else {
      assert graph == Graph(Some(graph.nodes.value), Some(graph.connections.value));
      r := ValidateLists(graph.nodes.value, graph.connections.value, defs, broken, requireTrigger);
    }
  }

  /** The three passes over nodes and connections. */
  method RunPasses(nodes: seq<Node>, conns: seq<Connection>, defs: Registry, broken: ExpressionCheck)
    returns (order: seq<string>, byId: map<string, Node>, nodeIssues: seq<Issue>, triggers: seq<string>,
             credentials: set<Json>, p: Option<Progress>)
    ensures byId == IdTable(nodes) && forall id :: id in order <==> id in byId
    ensures forall id :: id in triggers ==> id in byId
    ensures forall x :: x in nodeIssues ==> x.code != NodeOrphan
    ensures p.None? <==> SomeConnectionRaises(byId, defs, conns)
    ensures p.Some? ==> p.value.Of(byId, defs, conns)
    ensures NoErrors(nodeIssues) <==> IdsAccepted(nodes) && NodesAccepted(defs, broken, nodes)
    ensures NoErrors(nodeIssues) ==> byId == NodeTable(nodes)
    ensures NoErrors(nodeIssues) ==> triggers == TriggerIds(nodes, defs) && credentials == GraphCredentials(nodes, defs)
  {
    var idIssues: seq<Issue>;
    idIssues, order, byId := IndexNodes(nodes);
    nodeIssues, triggers, credentials := CheckNodes(order, byId, defs, broken);
    p := CheckConnections(conns, byId, defs);
    if NoErrors(idIssues) {
      NodeTableHolds(nodes);
      assert Picked(order, byId) == nodes;
    }
    nodeIssues := idIssues + nodeIssues;
  }

  /** Adding the warnings to sound checks gives a right verdict. */
  lemma VerdictWithWarnings(
    nodes: seq<Node>, conns: seq<Connection>, defs: Registry, broken: ExpressionCheck, requireTrigger: bool,
    checks: seq<Issue>, orphans: seq<Issue>, byId: map<string, Node>, wiring: Wiring, r: ValidationResult)
    requires forall x :: x in r.issues <==> x in checks || x in orphans
    requires NoErrors(checks) <==> WellFormed(Graph(Some(nodes), Some(conns)), defs, broken, requireTrigger)
    requires forall x :: x in checks ==> x.code != NodeOrphan
    requires wiring.incoming.Keys == byId.Keys
    requires NoErrors(orphans)
    requires forall id :: Issue(NodeOrphan, Some(id), None, Warning) in orphans <==>
      id in byId && !Lookup(defs, byId[id]).isTrigger && wiring.incoming[id] == 0
    requires NoErrors(checks) ==> byId == NodeTable(nodes) && wiring.Of(byId, conns)
    requires NoErrors(checks) ==> r.credentialIds == GraphCredentials(nodes, defs)
    requires NoErrors(checks) ==>
      r.triggerNodeId == (if TriggerIds(nodes, defs) == [] then None else Some(TriggerIds(nodes, defs)[0]))
    ensures RightVerdict(Graph(Some(nodes), Some(conns)), defs, broken, requireTrigger, r)
  {
    assert r.Ok() <==> NoErrors(checks);
    assert forall id :: OrphanReported(r, id) <==> Issue(NodeOrphan, Some(id), None, Warning) in orphans;
  }

  method ValidateLists(
    nodes: seq<Node>, conns: seq<Connection>, defs: Registry, broken: ExpressionCheck, requireTrigger: bool)
    returns (r: Option<ValidationResult>)
    requires |nodes| <= MAX_NODES
    ensures r.None? <==> ValidatorRaises(Graph(Some(nodes), Some(conns)), defs)
    ensures r.Some? ==> RightVerdict(Graph(Some(nodes), Some(conns)), defs, broken, requireTrigger, r.value)
  {
    var order, byId, nodeIssues, triggers, credentials, passed := RunPasses(nodes, conns, defs, broken);
    if passed.None? {
      return None;
    }
    var p := passed.value;
    var triggerIssues := TriggerIssues(triggers, requireTrigger);
    var cyclic := CycleSearch.HasCycle(p.wiring.adjacency);
    var orphans := FindOrphans(order, byId, defs, p.wiring.incoming);
    PartsMakeVerdict(nodes, conns, defs, broken, requireTrigger, byId, triggers, p.wiring,
      NoErrors(nodeIssues), NoErrors(p.issues), cyclic);
    var cycleIssues := FaultIf(cyclic, GraphHasCycle, None);
    var idle := if triggers == [] then []
      else FaultIf(p.wiring.outgoing[triggers[0]] == 0, TriggerNotConnected, Some(triggers[0]));
    ghost var checks := JoinChecks(nodeIssues, triggerIssues, p.issues, cycleIssues, idle);
    var result := ValidationResult(
      nodeIssues + triggerIssues + p.issues + cycleIssues + orphans + idle,
      credentials,
      if triggers == [] then None else Some(triggers[0]),
      if triggers == [] then None else Some(KeyAsText(byId[triggers[0]])));
    VerdictWithWarnings(nodes, conns, defs, broken, requireTrigger, checks, orphans, byId, p.wiring, result);
    r := Some(result);
  }

  function FaultIf(present: bool, code: Code, nodeId: Option<string>): (issues: seq<Issue>)
    requires code != NodeOrphan
    ensures NoErrors(issues) <==> !present
    ensures forall x :: x in issues ==> x.code != NodeOrphan
  {
    var fault := Fault(code, nodeId);
    assert fault in [fault];
    if present then [fault] else []
  }

  ghost function JoinChecks(
    nodes: seq<Issue>, triggers: seq<Issue>, connections: seq<Issue>, cycle: seq<Issue>, idle: seq<Issue>): (all: seq<Issue>)
    requires forall x :: x in nodes || x in triggers || x in connections || x in cycle || x in idle ==> x.code != NodeOrphan
    ensures NoErrors(all) <==> (NoErrors(nodes) && NoErrors(triggers) && NoErrors(connections) && NoErrors(cycle) && NoErrors(idle))
    ensures forall x :: x in all ==> x.code != NodeOrphan
  {
    nodes + triggers + connections + cycle + idle
  }
}
