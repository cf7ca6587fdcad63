/** The product's workflow graph and node registry (`graph.py`, `catalog.py`). */
module WorkflowGraphs {
  import opened Wrappers
  import opened Json
  import opened Digraphs
  import opened Texts

  const MAX_NODES := 200
  const MAX_NAME_LENGTH := 200

  datatype Node = Node(
    id: Option<string>,
    nodeKey: Option<string>,
    name: Option<string>,
    position: Json,
    config: Json,
    schemaVersion: Option<Json>,
    disabled: Json)

  datatype Endpoint = Endpoint(nodeId: Option<string>, port: Option<string>)

  datatype Connection = Connection(source: Option<Endpoint>, target: Option<Endpoint>)

  /** `None` stands for a value that is not a list. */
  datatype Graph = Graph(nodes: Option<seq<Node>>, connections: Option<seq<Connection>>)

  // ---- the registry ----

  datatype NodeStatus = Active | Disabled | Deprecated
  datatype Outputs = Declared(ports: seq<string>) | FromRules
  datatype Condition = Condition(field: string, equals: Json)
  datatype FieldSpec = FieldSpec(key: string, credential: bool, required: bool, condition: Option<Condition>)

  datatype Definition = Definition(
    status: NodeStatus,
    blocked: bool,
    isTrigger: bool,
    inputPorts: seq<string>,
    outputs: Outputs,
    fields: seq<FieldSpec>)

  type Registry = map<string, Definition>

  /** What `definitions.get(key, {})` yields for an unknown key. */
  const NO_DEFINITION := Definition(Active, false, false, [], Declared([]), [])

  /** `str(node.get("node_key") or "")`, the key the per-node checks look up. */
  function KeyOrBlank(node: Node): string {
    node.nodeKey.GetOr("")
  }

  /** `str(node.get("node_key"))`, the key every other traversal looks up. */
  function KeyAsText(node: Node): string {
    node.nodeKey.GetOr("None")
  }

  function Lookup(defs: Registry, node: Node): Definition {
    if KeyAsText(node) in defs then defs[KeyAsText(node)] else NO_DEFINITION
  }

  // ---- text ----

  predicate IsIdText(s: string) {
    && 1 <= |s| <= 64
    && forall i :: 0 <= i < |s| ==>
         'A' <= s[i] <= 'Z' || 'a' <= s[i] <= 'z' || '0' <= s[i] <= '9' || s[i] == '_' || s[i] == '-'
  }

  /** `NODE_ID_RE.match`: the pattern's `$` also matches just before one final newline. */
  predicate IsNodeId(s: string) {
    IsIdText(s) || (s != "" && s[|s| - 1] == '\n' && IsIdText(s[..|s| - 1]))
  }

  predicate IsWordOf(s: string, least: nat, most: nat) {
    least <= |s| <= most && forall c :: c in s ==> 'A' <= c <= 'Z' || 'a' <= c <= 'z' || '0' <= c <= '9' || c in {'_', '-'}
  }

  /** 1 to 64 letters, digits, underscores and hyphens, then this tail. */
  predicate IsIdBefore(s: string, tail: string) {
    |tail| <= |s| && s[|s| - |tail|..] == tail && IsWordOf(s[..|s| - |tail|], 1, 64)
  }

  lemma IdTextIsWord(s: string)
    ensures IsIdText(s) <==> IsWordOf(s, 1, 64)
  {
    assert forall i :: 0 <= i < |s| ==> s[i] in s;
  }

  /** An id may end in one newline. */
  lemma NodeIdMeans(s: string)
    ensures IsNodeId(s) <==> IsIdBefore(s, "") || IsIdBefore(s, "\n")
  {
    assert s[..|s| - 0] == s && s[|s| - 0..] == "";
    IdTextIsWord(s);
    if s != "" {
      IdTextIsWord(s[..|s| - 1]);
      assert s[|s| - 1..] == [s[|s| - 1]];
    }
  }

  // ---- reading nodes and connections ----

  function IdOf(node: Node): string {
    node.id.GetOr("")
  }

  function NameOf(node: Node): string {
    Strip(node.name.GetOr(""))
  }

  /** `node.get("config") or {}`, when that is a dictionary. */
  function ConfigOf(node: Node): Option<map<string, Json>> {
    if !Truthy(node.config) then Some(map[])
    else if node.config.Object? then Some(node.config.fields)
    else None
  }

  function EndOf(end: Option<Endpoint>): string {
    match end
    case Some(e) => e.nodeId.GetOr("")
    case None => ""
  }

  function PortOf(end: Option<Endpoint>): string {
    match end
    case Some(Endpoint(_, Some(port))) => if port == "" then "main" else port
    case _ => "main"
  }

  function SourceId(conn: Connection): string { EndOf(conn.source) }
  function TargetId(conn: Connection): string { EndOf(conn.target) }

  datatype EdgeKey = EdgeKey(source: string, sourcePort: string, target: string, targetPort: string)

  function EdgeKeyOf(conn: Connection): EdgeKey {
    EdgeKey(SourceId(conn), PortOf(conn.source), TargetId(conn), PortOf(conn.target))
  }

  /** The branch names a rule-driven node offers. */
  function RulePorts(rules: seq<Json>): seq<string> {
    if rules == [] then [] else
      var key := if rules[0].Object? then Get(rules[0].fields, "output_key") else Null;
      (if key.Text? && Strip(key.text) != "" then [Strip(key.text)] else []) + RulePorts(rules[1..])
  }

  function OutputPorts(node: Node, definition: Definition): seq<string> {
    match definition.outputs
    case Declared(ports) => ports
    case FromRules =>
      var config := ConfigOf(node).GetOr(map[]);
      var rules := Get(config, "rules");
      RulePorts(if rules.Array? then rules.items else [])
      + (if Get(config, "fallback") == Text("EXTRA_OUTPUT") then ["other"] else [])
  }

  /** This rule names the branch `p`: its output key is text that strips to it. */
  predicate RuleNames(rule: Json, p: string) {
    && rule.Object? && "output_key" in rule.fields && rule.fields["output_key"].Text?
    && Strip(rule.fields["output_key"].text) == p && p != ""
  }

  /** What leaving a node by the port `p` takes: one of the declared ports, or a branch that a rule
      names, or the fallback branch. */
  predicate Offers(node: Node, definition: Definition, p: string) {
    match definition.outputs
    case Declared(ports) => p in ports
    case FromRules =>
      && node.config.Object?
      && var fields := node.config.fields;
      || (p == "other" && "fallback" in fields && fields["fallback"] == Text("EXTRA_OUTPUT"))
      || ("rules" in fields && fields["rules"].Array?
          && exists i :: 0 <= i < |fields["rules"].items| && RuleNames(fields["rules"].items[i], p))
  }

  lemma {:induction false} RulePortsAreNamed(rules: seq<Json>, p: string)
    ensures p in RulePorts(rules) <==> exists i :: 0 <= i < |rules| && RuleNames(rules[i], p)
  {
    if rules != [] {
      RulePortsAreNamed(rules[1..], p);
      if i :| 0 <= i < |rules| && RuleNames(rules[i], p) {
        if i > 0 {
          assert RuleNames(rules[1..][i - 1], p);
        }
      }
      if i :| 0 <= i < |rules[1..]| && RuleNames(rules[1..][i], p) {
        assert RuleNames(rules[i + 1], p);
      }
    }
  }

  /** The ports `output_ports` lists are exactly the ones the node offers. */
  lemma OutputPortsAreOffered(node: Node, definition: Definition, p: string)
    ensures p in OutputPorts(node, definition) <==> Offers(node, definition, p)
  {
    if definition.outputs.FromRules? && node.config.Object? {
      var fields := node.config.fields;
      if "rules" in fields && fields["rules"].Array? {
        RulePortsAreNamed(fields["rules"].items, p);
      }
    }
  }

  /** Asking these rules for their branch names fails: only a list of dictionaries answers. */
  predicate RulesRaise(rules: Json) {
    Truthy(rules) && (!rules.Array? || exists i :: 0 <= i < |rules.items| && !rules.items[i].Object?)
  }

  /** `output_ports` raises an AttributeError or a TypeError. */
  predicate PortsRaise(node: Node, definition: Definition) {
    && definition.outputs.FromRules?
    && (ConfigOf(node).None? || RulesRaise(Get(ConfigOf(node).value, "rules")))
  }

  // ---- what the graph means ----

  /** The validator's table: only well-formed ids, and the first node of each. */
  function IdTable(nodes: seq<Node>): map<string, Node> {
    if nodes == [] then map[] else
      var front, last := IdTable(nodes[..|nodes| - 1]), nodes[|nodes| - 1];
      if IsNodeId(IdOf(last)) && IdOf(last) !in front then front[IdOf(last) := last] else front
  }

  /** The nodes by id; on distinct ids every node is found under its own. */
  function NodeTable(nodes: seq<Node>): map<string, Node> {
    if nodes == [] then map[]
    else NodeTable(nodes[..|nodes| - 1])[IdOf(nodes[|nodes| - 1]) := nodes[|nodes| - 1]]
  }

  function TargetsOf(conns: seq<Connection>, source: string): seq<string> {
    if conns == [] then [] else
      var last := conns[|conns| - 1];
      TargetsOf(conns[..|conns| - 1], source) + (if SourceId(last) == source then [TargetId(last)] else [])
  }

  /** The neighbour lists of the graph, one entry per node. */
  function AdjacencyOf(nodes: seq<Node>, conns: seq<Connection>): Adjacency<string> {
    map id | id in NodeTable(nodes) :: TargetsOf(conns, id)
  }

  /** The ids of the trigger nodes, in node order. */
  function TriggerIds(nodes: seq<Node>, defs: Registry): seq<string> {
    if nodes == [] then [] else
      var last := nodes[|nodes| - 1];
      TriggerIds(nodes[..|nodes| - 1], defs)
      + (if KeyOrBlank(last) in defs && defs[KeyOrBlank(last)].isTrigger then [IdOf(last)] else [])
  }

  /** The nonempty values of a node's credential fields. */
  function FieldCredentials(fields: seq<FieldSpec>, config: map<string, Json>): set<Json> {
    if fields == [] then {} else
      var last := fields[|fields| - 1];
      FieldCredentials(fields[..|fields| - 1], config)
      + (if last.credential && Truthy(Get(config, last.key)) then {Get(config, last.key)} else {})
  }

  function NodeCredentials(node: Node, definition: Definition): set<Json> {
    FieldCredentials(definition.fields, ConfigOf(node).GetOr(map[]))
  }

  function GraphCredentials(nodes: seq<Node>, defs: Registry): set<Json> {
    if nodes == [] then {} else
      var last := nodes[|nodes| - 1];
      GraphCredentials(nodes[..|nodes| - 1], defs)
      + (if KeyOrBlank(last) in defs then NodeCredentials(last, defs[KeyOrBlank(last)]) else {})
  }

  /** The first node with a well-formed id is listed under it. */
  predicate IsFirstUnder(nodes: seq<Node>, id: string, i: int) {
    0 <= i < |nodes| && IsNodeId(id) && IdOf(nodes[i]) == id && forall j :: 0 <= j < i ==> IdOf(nodes[j]) != id
  }

  lemma {:induction false} IdTableMeans(nodes: seq<Node>, id: string)
    ensures id in IdTable(nodes) <==> exists i :: IsFirstUnder(nodes, id, i)
    ensures forall i :: IsFirstUnder(nodes, id, i) ==> id in IdTable(nodes) && IdTable(nodes)[id] == nodes[i]
  {
    if nodes != [] {
      var n := |nodes| - 1;
      IdTableMeans(nodes[..n], id);
      forall i | i < n ensures IsFirstUnder(nodes, id, i) <==> IsFirstUnder(nodes[..n], id, i) {
      }
      if exists i :: IsFirstUnder(nodes[..n], id, i) {
        assert !IsFirstUnder(nodes, id, n);
      } else {
        NoneUnder(nodes[..n], id);
        assert IsNodeId(id) && IdOf(nodes[n]) == id <==> IsFirstUnder(nodes, id, n);
      }
    }
  }

  lemma {:induction false} NoneUnder(nodes: seq<Node>, id: string)
    requires !exists i :: IsFirstUnder(nodes, id, i)
    ensures IsNodeId(id) ==> forall j :: 0 <= j < |nodes| ==> IdOf(nodes[j]) != id
  {
    if nodes != [] && IsNodeId(id) {
      var n := |nodes| - 1;
      forall i | IsFirstUnder(nodes[..n], id, i) ensures false {
        assert IsFirstUnder(nodes, id, i);
      }
      NoneUnder(nodes[..n], id);
      assert !IsFirstUnder(nodes, id, n);
    }
  }

  lemma NodeTableHolds(nodes: seq<Node>)
    requires forall i, j :: 0 <= i < j < |nodes| ==> IdOf(nodes[i]) != IdOf(nodes[j])
    ensures forall i :: 0 <= i < |nodes| ==> IdOf(nodes[i]) in NodeTable(nodes) && NodeTable(nodes)[IdOf(nodes[i])] == nodes[i]
  {
  }

  lemma {:induction false} NodeTableKeys(nodes: seq<Node>, id: string)
    ensures id in NodeTable(nodes) <==> exists i :: 0 <= i < |nodes| && IdOf(nodes[i]) == id
  {
    if nodes != [] {
      var n := |nodes| - 1;
      NodeTableKeys(nodes[..n], id);
      if IdOf(nodes[n]) != id && id in NodeTable(nodes) {
        var i :| 0 <= i < n && IdOf(nodes[..n][i]) == id;
        assert IdOf(nodes[i]) == id;
      }
      if i :| 0 <= i < |nodes| && IdOf(nodes[i]) == id {
        if i < n {
          assert IdOf(nodes[..n][i]) == id;
        }
      }
    }
  }

  /** An edge of the adjacency map is a connection of the graph. */
  lemma {:induction false} TargetsAreConnections(conns: seq<Connection>, source: string, target: string)
    ensures target in TargetsOf(conns, source) <==>
      exists i :: 0 <= i < |conns| && SourceId(conns[i]) == source && TargetId(conns[i]) == target
  {
    if conns != [] {
      var n := |conns| - 1;
      TargetsAreConnections(conns[..n], source, target);
      if target in TargetsOf(conns[..n], source) {
        var i :| 0 <= i < n && SourceId(conns[..n][i]) == source && TargetId(conns[..n][i]) == target;
        assert SourceId(conns[i]) == source;
      }
      if i :| 0 <= i < |conns| && SourceId(conns[i]) == source && TargetId(conns[i]) == target {
        if i < n {
          assert SourceId(conns[..n][i]) == source;
        }
      }
    }
  }
}
