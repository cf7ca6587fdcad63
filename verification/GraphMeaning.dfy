/** What the validator's rules say about the stored fields of a graph, without its helpers
    (`graph.py`). */
module GraphMeaning {
  import opened Wrappers
  import opened Json
  import opened Texts
  import opened WorkflowGraphs
  import opened GraphValidation

  // ---- values ----

  lemma FalsyValues(j: Json)
    ensures !Truthy(j) <==>
      || j == Null || j == Bool(false) || (j.Number? && j.mantissa == 0)
      || j == Text("") || j == Array([]) || j == Object(map[])
  {
  }

  /** The configuration's value under a key; null when it has none. */
  function ValueAt(config: Json, key: string): Json {
    if config.Object? && key in config.fields then config.fields[key] else Null
  }

  /** The registry key a node is validated under; a missing one reads as the empty text. */
  predicate IsUnder(node: Node, key: string) {
    if node.nodeKey.Some? then node.nodeKey.value == key else key == ""
  }

  // ---- nodes ----

  predicate IsFilled(spec: FieldSpec, config: Json) {
    || !spec.required
    || (spec.condition.Some? && ValueAt(config, spec.condition.value.field) != spec.condition.value.equals)
    || ValueAt(config, spec.key) !in {Null, Text(""), Array([]), Object(map[])}
  }

  /** The node is of a usable kind and has a name, a readable configuration, every required field
      whose condition holds, and no malformed expression. */
  ghost predicate NodeFits(defs: Registry, broken: ExpressionCheck, node: Node) {
    exists key :: key in defs && IsUnder(node, key) && NodeFitsKind(defs[key], broken, node)
  }

  predicate NodeFitsKind(definition: Definition, broken: ExpressionCheck, node: Node) {
    && definition.status in {Active, Deprecated} && !definition.blocked
    && node.name.Some? && 1 <= |Strip(node.name.value)| <= 200
    && (node.config.Object? || !Truthy(node.config))
    && (forall i :: 0 <= i < |definition.fields| ==> IsFilled(definition.fields[i], node.config))
    && broken(if node.config.Object? then node.config.fields else map[]) == []
  }

  lemma NodeAcceptedMeans(defs: Registry, broken: ExpressionCheck, node: Node)
    ensures NodeAccepted(defs, broken, node) <==> NodeFits(defs, broken, node)
  {
    var key := if node.nodeKey.Some? then node.nodeKey.value else "";
    assert forall k :: IsUnder(node, k) <==> k == key;
    if key in defs && ConfigOf(node).Some? {
      var config := ConfigOf(node).value;
      forall i | 0 <= i < |defs[key].fields|
        ensures IsFilled(defs[key].fields[i], node.config) <==>
          (Demanded(defs[key].fields[i], config) ==> !IsBlank(Get(config, defs[key].fields[i].key)))
      {
        FieldMeans(defs[key].fields[i], node);
      }
    }
  }

  lemma FieldMeans(spec: FieldSpec, node: Node)
    requires ConfigOf(node).Some?
    ensures IsFilled(spec, node.config) <==>
      (Demanded(spec, ConfigOf(node).value) ==> !IsBlank(Get(ConfigOf(node).value, spec.key)))
  {
  }

  // ---- connections ----

  /** An end of a connection names this node and this port; a missing or empty port means "main". */
  predicate EndsAt(end: Option<Endpoint>, id: string, port: string) {
    && end.Some? && end.value.nodeId == Some(id)
    && (if end.value.port.Some? && end.value.port.value != "" then port == end.value.port.value else port == "main")
  }

  /** The definition the port and orphan rules use: by the key as text, "None" for a missing one. */
  predicate IsKind(defs: Registry, node: Node, definition: Definition) {
    var key := if node.nodeKey.Some? then node.nodeKey.value else "None";
    if key in defs then definition == defs[key]
    else definition == Definition(Active, false, false, [], Declared([]), [])
  }

  /** It joins two different nodes, leaves by an offered port and enters by a declared one. */
  ghost predicate ConnectionFits(table: map<string, Node>, defs: Registry, conn: Connection) {
    exists a, b, p, q, from, into ::
      Joins(conn, a, p, b, q) && a in table && b in table && a != b
      && IsKind(defs, table[a], from) && IsKind(defs, table[b], into)
      && (OffersNothing(table[a], from) || Offers(table[a], from, p)) && q in into.inputPorts
  }

  predicate Joins(conn: Connection, a: string, p: string, b: string, q: string) {
    EndsAt(conn.source, a, p) && EndsAt(conn.target, b, q)
  }

  lemma JoinsMeans(conn: Connection, a: string, p: string, b: string, q: string)
    requires a != "" && b != ""
    ensures Joins(conn, a, p, b, q) <==>
      a == SourceId(conn) && p == PortOf(conn.source) && b == TargetId(conn) && q == PortOf(conn.target)
  {
  }

  lemma KindMeans(defs: Registry, node: Node, definition: Definition)
    ensures IsKind(defs, node, definition) <==> definition == Lookup(defs, node)
  {
  }

  /** On a table without the empty id, which no table of the validator holds. */
  lemma ConnectionAcceptedMeans(table: map<string, Node>, defs: Registry, conn: Connection)
    requires "" !in table
    ensures ConnectionAccepted(table, defs, conn) <==> ConnectionFits(table, defs, conn)
  {
    if ConnectionAccepted(table, defs, conn) {
      var a, b := SourceId(conn), TargetId(conn);
      JoinsMeans(conn, a, PortOf(conn.source), b, PortOf(conn.target));
      KindMeans(defs, table[a], Lookup(defs, table[a]));
      KindMeans(defs, table[b], Lookup(defs, table[b]));
    }
    if ConnectionFits(table, defs, conn) {
      FittingIsAccepted(table, defs, conn);
    }
  }

  lemma FittingIsAccepted(table: map<string, Node>, defs: Registry, conn: Connection)
    requires "" !in table && ConnectionFits(table, defs, conn)
    ensures ConnectionAccepted(table, defs, conn)
  {
    var a, b, p, q, from, into :|
      Joins(conn, a, p, b, q) && a in table && b in table && a != b
      && IsKind(defs, table[a], from) && IsKind(defs, table[b], into)
      && (OffersNothing(table[a], from) || Offers(table[a], from, p)) && q in into.inputPorts;
    JoinsMeans(conn, a, p, b, q);
    KindMeans(defs, table[a], from);
    KindMeans(defs, table[b], into);
  }

  lemma WellFormedIdsNonempty(nodes: seq<Node>)
    requires IdsAccepted(nodes)
    ensures "" !in NodeTable(nodes) && "" !in IdTable(nodes)
  {
    NodeTableKeys(nodes, "");
    NoEmptyId(nodes);
  }

  lemma {:induction false} NoEmptyId(nodes: seq<Node>)
    ensures "" !in IdTable(nodes)
  {
    if nodes != [] {
      NoEmptyId(nodes[..|nodes| - 1]);
    }
  }

  /** Two connections are the same edge when they join the same ports of the same nodes. */
  lemma SameEdgeMeans(c: Connection, d: Connection, a: string, p: string, b: string, q: string)
    requires Joins(c, a, p, b, q)
    ensures Joins(d, a, p, b, q) ==> EdgeKeyOf(c) == EdgeKeyOf(d)
    ensures EdgeKeyOf(c) == EdgeKeyOf(d) && a != "" && b != "" ==> Joins(d, a, p, b, q)
  {
  }

  /** Ports cannot be named: the configuration of a rule-driven node, its rules or one rule is of the wrong kind. */
  lemma PortsRaiseMeans(node: Node, definition: Definition)
    ensures PortsRaise(node, definition) <==>
      && definition.outputs.FromRules?
      && (|| (Truthy(node.config) && !node.config.Object?)
          || (Truthy(ValueAt(node.config, "rules")) && !ValueAt(node.config, "rules").Array?)
          || (ValueAt(node.config, "rules").Array?
              && exists i :: 0 <= i < |ValueAt(node.config, "rules").items| && !ValueAt(node.config, "rules").items[i].Object?))
  {
  }

  // ---- triggers and credentials ----

  /** Node `i` is of a trigger kind. */
  ghost predicate IsTriggerNode(nodes: seq<Node>, defs: Registry, i: int) {
    0 <= i < |nodes| && exists key :: key in defs && IsUnder(nodes[i], key) && defs[key].isTrigger
  }

  lemma {:induction false} TriggersMeanNodes(nodes: seq<Node>, defs: Registry) returns (at: seq<nat>)
    ensures |at| == |TriggerIds(nodes, defs)|
    ensures forall k :: 0 <= k < |at| ==>
      at[k] < |nodes| && IsTriggerNode(nodes, defs, at[k]) && TriggerIds(nodes, defs)[k] == nodes[at[k]].id.GetOr("")
    ensures forall k, l :: 0 <= k < l < |at| ==> at[k] < at[l]
    ensures forall i :: IsTriggerNode(nodes, defs, i) ==> i in at
  {
    if nodes == [] {
      at := [];
    } else {
      var n := |nodes| - 1;
      at := TriggersMeanNodes(nodes[..n], defs);
      forall i | 0 <= i < n ensures IsTriggerNode(nodes, defs, i) <==> IsTriggerNode(nodes[..n], defs, i) {
        assert nodes[..n][i] == nodes[i];
      }
      var key := if nodes[n].nodeKey.Some? then nodes[n].nodeKey.value else "";
      assert forall k :: IsUnder(nodes[n], k) <==> k == key;
      if key in defs && defs[key].isTrigger {
        at := at + [n];
      }
    }
  }

  /** A credential field of the node at `i` holds this value. */
  ghost predicate NamesCredential(nodes: seq<Node>, defs: Registry, i: int, value: Json) {
    && 0 <= i < |nodes| && Truthy(value)
    && exists key, j :: key in defs && IsUnder(nodes[i], key) && IsCredentialAt(defs[key].fields, j, nodes[i].config, value)
  }

  predicate IsCredentialAt(fields: seq<FieldSpec>, j: int, config: Json, value: Json) {
    0 <= j < |fields| && fields[j].credential && ValueAt(config, fields[j].key) == value
  }

  lemma {:induction false} FieldCredentialsMean(fields: seq<FieldSpec>, node: Node, value: Json)
    ensures value in FieldCredentials(fields, ConfigOf(node).GetOr(map[])) <==>
      Truthy(value) && exists j :: IsCredentialAt(fields, j, node.config, value)
  {
    if fields != [] {
      var n := |fields| - 1;
      FieldCredentialsMean(fields[..n], node, value);
      assert IsCredentialAt(fields, n, node.config, value) <==> fields[n].credential && ValueAt(node.config, fields[n].key) == value;
      forall j | 0 <= j < n
        ensures IsCredentialAt(fields, j, node.config, value) <==> IsCredentialAt(fields[..n], j, node.config, value)
      {
        assert fields[..n][j] == fields[j];
      }
    }
  }

  /** The credentials the validator reports are exactly the nonempty values of credential fields. */
  lemma {:induction false} GraphCredentialsMean(nodes: seq<Node>, defs: Registry, value: Json)
    ensures value in GraphCredentials(nodes, defs) <==> exists i :: NamesCredential(nodes, defs, i, value)
  {
    if nodes != [] {
      var n := |nodes| - 1;
      GraphCredentialsMean(nodes[..n], defs, value);
      forall i | 0 <= i < n ensures NamesCredential(nodes, defs, i, value) <==> NamesCredential(nodes[..n], defs, i, value) {
        assert nodes[..n][i] == nodes[i];
      }
      LastNodeCredentials(nodes, defs, value);
    }
  }

  lemma LastNodeCredentials(nodes: seq<Node>, defs: Registry, value: Json)
    requires nodes != []
    ensures var last := nodes[|nodes| - 1];
      NamesCredential(nodes, defs, |nodes| - 1, value) <==>
        KeyOrBlank(last) in defs && value in NodeCredentials(last, defs[KeyOrBlank(last)])
  {
    var last := nodes[|nodes| - 1];
    var key := if last.nodeKey.Some? then last.nodeKey.value else "";
    assert forall k :: IsUnder(last, k) <==> k == key;
    if key in defs {
      FieldCredentialsMean(defs[key].fields, last, value);
    }
  }
}
