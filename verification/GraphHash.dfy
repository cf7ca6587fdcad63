/** The material `graph_hash` digests (`graph.py`) and exactly what it depends on. JSON text and
    SHA-256 are parameters, assumed faithful and injective where the digest itself is compared. */
module GraphHash {
  import opened Wrappers
  import opened Json
  import opened JsonText
  import opened WorkflowGraphs
  import opened StableSort

  datatype NodeMaterial = NodeMaterial(
    id: Option<string>,
    nodeKey: Option<string>,
    name: Option<string>,
    config: Json,
    schemaVersion: Json,
    disabled: bool)

  datatype Material = Material(nodes: seq<NodeMaterial>, connections: seq<Connection>)

  /** A node without its position. */
  function NodePart(node: Node): NodeMaterial {
    NodeMaterial(
      node.id, node.nodeKey, node.name,
      if Truthy(node.config) then node.config else Object(map[]),
      node.schemaVersion.GetOr(Number(1, 0)),
      Truthy(node.disabled))
  }

  function NodeParts(nodes: seq<Node>): seq<NodeMaterial> {
    seq(|nodes|, i requires 0 <= i < |nodes| => NodePart(nodes[i]))
  }

  function PartsOf(graph: Graph): seq<NodeMaterial> {
    NodeParts(graph.nodes.GetOr([]))
  }

  /** The sort key `str(n["id"])`. */
  function IdText(part: NodeMaterial): string {
    part.id.GetOr("None")
  }

  function MaterialOf(graph: Graph, dumps: Connection -> string): Material {
    Material(Sorted(IdText, PartsOf(graph)), Sorted(dumps, graph.connections.GetOr([])))
  }

  // ---- what the material keeps ----

  /** The nodes agree in everything but their position: an absent version is version 1, and all
      empty configurations are one. */
  predicate SameNode(a: Node, b: Node) {
    && a.id == b.id && a.nodeKey == b.nodeKey && a.name == b.name
    && (a.config == b.config || (!Truthy(a.config) && !Truthy(b.config)))
    && (if a.schemaVersion.Some? then a.schemaVersion.value else Number(1, 0))
       == (if b.schemaVersion.Some? then b.schemaVersion.value else Number(1, 0))
    && Truthy(a.disabled) == Truthy(b.disabled)
  }

  lemma PartsKeepAllButPosition(a: Node, b: Node)
    ensures NodePart(a) == NodePart(b) <==> SameNode(a, b)
  {
  }

  /** The id a node is sorted by. */
  predicate IsFiledUnder(node: Node, id: string) {
    if node.id.Some? then node.id.value == id else id == "None"
  }

  /** The nodes with one id, in order. */
  function NodesUnder(nodes: seq<Node>, id: string): seq<Node> {
    if nodes == [] then [] else
      var last := nodes[|nodes| - 1];
      NodesUnder(nodes[..|nodes| - 1], id) + (if IsFiledUnder(last, id) then [last] else [])
  }

  predicate SameInTurn(a: seq<Node>, b: seq<Node>) {
    |a| == |b| && forall i :: 0 <= i < |a| ==> SameNode(a[i], b[i])
  }

  lemma {:induction false} PartsUnderKey(nodes: seq<Node>, id: string)
    ensures WithKey(IdText, NodeParts(nodes), id) == NodeParts(NodesUnder(nodes, id))
  {
    if nodes != [] {
      var n := |nodes| - 1;
      PartsUnderKey(nodes[..n], id);
      assert NodeParts(nodes)[..n] == NodeParts(nodes[..n]);
      assert NodeParts(nodes)[n] == NodePart(nodes[n]);
    }
  }

  lemma SameInTurnParts(a: seq<Node>, b: seq<Node>)
    ensures NodeParts(a) == NodeParts(b) <==> SameInTurn(a, b)
  {
    forall i | 0 <= i < |a| && i < |b| ensures NodeParts(a)[i] == NodeParts(b)[i] <==> SameNode(a[i], b[i]) {
      PartsKeepAllButPosition(a[i], b[i]);
    }
    assert |NodeParts(a)| == |a| && |NodeParts(b)| == |b|;
  }

  ghost predicate SameUnderIds(a: seq<Node>, b: seq<Node>) {
    forall id :: SameInTurn(NodesUnder(a, id), NodesUnder(b, id))
  }

  lemma SameUnderIdsParts(a: seq<Node>, b: seq<Node>)
    ensures SameByKey(IdText, NodeParts(a), NodeParts(b)) <==> SameUnderIds(a, b)
  {
    forall id
      ensures WithKey(IdText, NodeParts(a), id) == WithKey(IdText, NodeParts(b), id) <==>
        SameInTurn(NodesUnder(a, id), NodesUnder(b, id))
    {
      PartsUnderKey(a, id);
      PartsUnderKey(b, id);
      SameInTurnParts(NodesUnder(a, id), NodesUnder(b, id));
    }
  }

  /** For every graph: equal material means the same connections with the same multiplicity, and
      under each id nodes that agree in turn in everything but their position. */
  lemma MaterialIdentifiesMeaning(g: Graph, h: Graph, dumps: Connection -> string)
    requires Injective(dumps)
    ensures MaterialOf(g, dumps) == MaterialOf(h, dumps) <==>
      (&& SameUnderIds(g.nodes.GetOr([]), h.nodes.GetOr([]))
       && multiset(g.connections.GetOr([])) == multiset(h.connections.GetOr([])))
  {
    SortedEqual(IdText, PartsOf(g), PartsOf(h));
    SameUnderIdsParts(g.nodes.GetOr([]), h.nodes.GetOr([]));
    SortedEqual(dumps, g.connections.GetOr([]), h.connections.GetOr([]));
    SameByInjectiveKey(dumps, g.connections.GetOr([]), h.connections.GetOr([]));
  }

  // ---- from material to text to digest ----

  function TextOrNull(text: Option<string>): Json {
    match text
    case Some(s) => Text(s)
    case None => Null
  }

  function EndpointJson(end: Option<Endpoint>): Json {
    match end
    case Some(e) => Object(map["node_id" := TextOrNull(e.nodeId), "port" := TextOrNull(e.port)])
    case None => Null
  }

  function ConnectionJson(conn: Connection): Json {
    Object(map["from" := EndpointJson(conn.source), "to" := EndpointJson(conn.target)])
  }

  function NodeJson(part: NodeMaterial): Json {
    Object(map[
      "id" := TextOrNull(part.id), "node_key" := TextOrNull(part.nodeKey), "name" := TextOrNull(part.name),
      "config" := part.config, "product_schema_version" := part.schemaVersion, "disabled" := Bool(part.disabled)])
  }

  function MaterialJson(m: Material): Json {
    Object(map[
      "nodes" := Array(seq(|m.nodes|, i requires 0 <= i < |m.nodes| => NodeJson(m.nodes[i]))),
      "connections" := Array(seq(|m.connections|, i requires 0 <= i < |m.connections| => ConnectionJson(m.connections[i])))])
  }

  /** The sort key of a connection, `json.dumps(c, sort_keys=True)`. */
  function ConnectionText(codec: Codec): Connection -> string {
    conn => codec.dumps(ConnectionJson(conn))
  }

  function HashOf(graph: Graph, codec: Codec, digest: string -> string): string {
    digest(codec.dumps(MaterialJson(MaterialOf(graph, ConnectionText(codec)))))
  }

  lemma EndpointJsonInjective(a: Option<Endpoint>, b: Option<Endpoint>)
    ensures EndpointJson(a) == EndpointJson(b) ==> a == b
  {
    if a.Some? && b.Some? && EndpointJson(a) == EndpointJson(b) {
      assert EndpointJson(a).fields["node_id"] == EndpointJson(b).fields["node_id"];
      assert EndpointJson(a).fields["port"] == EndpointJson(b).fields["port"];
    }
  }

  lemma ConnectionJsonInjective(a: Connection, b: Connection)
    ensures ConnectionJson(a) == ConnectionJson(b) ==> a == b
  {
    if ConnectionJson(a) == ConnectionJson(b) {
      assert ConnectionJson(a).fields["from"] == ConnectionJson(b).fields["from"];
      assert ConnectionJson(a).fields["to"] == ConnectionJson(b).fields["to"];
      EndpointJsonInjective(a.source, b.source);
      EndpointJsonInjective(a.target, b.target);
    }
  }

  lemma NodeJsonInjective(a: NodeMaterial, b: NodeMaterial)
    ensures NodeJson(a) == NodeJson(b) ==> a == b
  {
    if NodeJson(a) == NodeJson(b) {
      var f, g := NodeJson(a).fields, NodeJson(b).fields;
      assert f["id"] == g["id"] && f["node_key"] == g["node_key"] && f["name"] == g["name"];
      assert f["config"] == g["config"] && f["product_schema_version"] == g["product_schema_version"];
      assert f["disabled"] == g["disabled"];
    }
  }

  lemma MaterialJsonInjective(a: Material, b: Material)
    ensures MaterialJson(a) == MaterialJson(b) ==> a == b
  {
    if MaterialJson(a) == MaterialJson(b) {
      var m, n := MaterialJson(a).fields["nodes"].items, MaterialJson(b).fields["nodes"].items;
      var c, d := MaterialJson(a).fields["connections"].items, MaterialJson(b).fields["connections"].items;
      assert m == n && c == d;
      forall i | 0 <= i < |m| ensures a.nodes[i] == b.nodes[i] {
        assert m[i] == NodeJson(a.nodes[i]) && n[i] == NodeJson(b.nodes[i]);
        NodeJsonInjective(a.nodes[i], b.nodes[i]);
      }
      forall i | 0 <= i < |c| ensures a.connections[i] == b.connections[i] {
        assert c[i] == ConnectionJson(a.connections[i]) && d[i] == ConnectionJson(b.connections[i]);
        ConnectionJsonInjective(a.connections[i], b.connections[i]);
      }
    }
  }

  lemma ConnectionTextInjective(codec: Codec)
    requires codec.Faithful()
    ensures Injective(ConnectionText(codec))
  {
    var dumps := ConnectionText(codec);
    forall a, b | dumps(a) == dumps(b) ensures a == b {
      FaithfulIsInjective(codec, ConnectionJson(a), ConnectionJson(b));
      ConnectionJsonInjective(a, b);
    }
  }

  /** Two hashes are equal exactly when the material is. */
  lemma HashIsMaterial(g: Graph, h: Graph, codec: Codec, digest: string -> string)
    requires codec.Faithful() && Injective(digest)
    ensures HashOf(g, codec, digest) == HashOf(h, codec, digest) <==>
      MaterialOf(g, ConnectionText(codec)) == MaterialOf(h, ConnectionText(codec))
  {
    var m, n := MaterialOf(g, ConnectionText(codec)), MaterialOf(h, ConnectionText(codec));
    FaithfulIsInjective(codec, MaterialJson(m), MaterialJson(n));
    MaterialJsonInjective(m, n);
  }

  // ---- distinct ids: the hash sees sets ----

  ghost predicate DistinctIds(parts: seq<NodeMaterial>) {
    forall i, j :: 0 <= i < j < |parts| ==> IdText(parts[i]) != IdText(parts[j])
  }

  lemma {:induction false} AtMostOnePerId(parts: seq<NodeMaterial>, k: string)
    requires DistinctIds(parts)
    ensures |WithKey(IdText, parts, k)| <= 1
  {
    if parts != [] {
      var n := |parts| - 1;
      AtMostOnePerId(parts[..n], k);
      WithKeyMembers(IdText, parts[..n], k);
      Memberless(WithKey(IdText, parts[..n], k));
    }
  }

  lemma DistinctIdsAreSets(s: seq<NodeMaterial>, t: seq<NodeMaterial>)
    requires DistinctIds(s) && DistinctIds(t)
    ensures SameByKey(IdText, s, t) <==> (forall x :: x in s <==> x in t)
  {
    if forall x :: x in s <==> x in t {
      forall k ensures WithKey(IdText, s, k) == WithKey(IdText, t, k) {
        var a, b := WithKey(IdText, s, k), WithKey(IdText, t, k);
        AtMostOnePerId(s, k);
        AtMostOnePerId(t, k);
        WithKeyMembers(IdText, s, k);
        WithKeyMembers(IdText, t, k);
        assert a == [] || a[0] in a;
        assert b == [] || b[0] in b;
      }
    }
    if SameByKey(IdText, s, t) {
      forall x ensures x in s <==> x in t {
        WithKeyMembers(IdText, s, IdText(x));
        WithKeyMembers(IdText, t, IdText(x));
        assert WithKey(IdText, s, IdText(x)) == WithKey(IdText, t, IdText(x));
      }
    }
  }

  /** No two nodes are sorted by one id. */
  predicate DistinctNodeIds(nodes: seq<Node>) {
    forall i, j :: 0 <= i < j < |nodes| ==>
      (if nodes[i].id.Some? then nodes[i].id.value else "None") != (if nodes[j].id.Some? then nodes[j].id.value else "None")
  }

  predicate HasSame(nodes: seq<Node>, x: Node) {
    exists j :: 0 <= j < |nodes| && SameNode(x, nodes[j])
  }

  /** Each node of one list is there in the other, up to its position. */
  predicate SameNodes(a: seq<Node>, b: seq<Node>) {
    && (forall i :: 0 <= i < |a| ==> HasSame(b, a[i]))
    && (forall i :: 0 <= i < |b| ==> HasSame(a, b[i]))
  }

  lemma HasSamePart(nodes: seq<Node>, x: Node)
    ensures NodePart(x) in NodeParts(nodes) <==> HasSame(nodes, x)
  {
    forall j | 0 <= j < |nodes| ensures NodeParts(nodes)[j] == NodePart(x) <==> SameNode(x, nodes[j]) {
      PartsKeepAllButPosition(x, nodes[j]);
    }
  }

  lemma SameNodesParts(a: seq<Node>, b: seq<Node>)
    ensures (forall x :: x in NodeParts(a) <==> x in NodeParts(b)) <==> SameNodes(a, b)
  {
    forall i | 0 <= i < |a| ensures NodePart(a[i]) in NodeParts(b) <==> HasSame(b, a[i]) {
      HasSamePart(b, a[i]);
    }
    forall i | 0 <= i < |b| ensures NodePart(b[i]) in NodeParts(a) <==> HasSame(a, b[i]) {
      HasSamePart(a, b[i]);
    }
    if forall x :: x in NodeParts(a) <==> x in NodeParts(b) {
      forall i | 0 <= i < |a| ensures HasSame(b, a[i]) {
        assert NodeParts(a)[i] in NodeParts(a);
      }
      forall i | 0 <= i < |b| ensures HasSame(a, b[i]) {
        assert NodeParts(b)[i] in NodeParts(b);
      }
    }
  }

  /** With distinct ids, node order, connection order and positions never matter to the material
      and nothing else is lost. */
  lemma MaterialOfDistinctIds(g: Graph, h: Graph, dumps: Connection -> string)
    requires Injective(dumps)
    requires DistinctNodeIds(g.nodes.GetOr([])) && DistinctNodeIds(h.nodes.GetOr([]))
    ensures MaterialOf(g, dumps) == MaterialOf(h, dumps) <==>
      (&& SameNodes(g.nodes.GetOr([]), h.nodes.GetOr([]))
       && multiset(g.connections.GetOr([])) == multiset(h.connections.GetOr([])))
  {
    MaterialIdentifiesMeaning(g, h, dumps);
    SameUnderIdsParts(g.nodes.GetOr([]), h.nodes.GetOr([]));
    DistinctIdsAreSets(PartsOf(g), PartsOf(h));
    SameNodesParts(g.nodes.GetOr([]), h.nodes.GetOr([]));
  }

  /** So neither do they matter to the hash. */
  lemma HashOfDistinctIds(g: Graph, h: Graph, codec: Codec, digest: string -> string)
    requires codec.Faithful() && Injective(digest)
    requires DistinctNodeIds(g.nodes.GetOr([])) && DistinctNodeIds(h.nodes.GetOr([]))
    ensures HashOf(g, codec, digest) == HashOf(h, codec, digest) <==>
      (&& SameNodes(g.nodes.GetOr([]), h.nodes.GetOr([]))
       && multiset(g.connections.GetOr([])) == multiset(h.connections.GetOr([])))
  {
    ConnectionTextInjective(codec);
    HashIsMaterial(g, h, codec, digest);
    MaterialOfDistinctIds(g, h, ConnectionText(codec));
  }

  // ---- when node order matters ----

  /** Nodes that share an id agree in everything but their position. */
  ghost predicate IdsIdentify(nodes: seq<Node>) {
    forall i, j, id :: 0 <= i < j < |nodes| && IsFiledUnder(nodes[i], id) && IsFiledUnder(nodes[j], id) ==>
      SameNode(nodes[i], nodes[j])
  }

  lemma IdsIdentifyParts(nodes: seq<Node>)
    ensures PartsIdentify(nodes) <==> IdsIdentify(nodes)
  {
    forall i, j | 0 <= i < j < |nodes| ensures NodePart(nodes[i]) == NodePart(nodes[j]) <==> SameNode(nodes[i], nodes[j]) {
      PartsKeepAllButPosition(nodes[i], nodes[j]);
    }
    if IdsIdentify(nodes) {
      forall i, j | 0 <= i < j < |nodes| && IdText(NodePart(nodes[i])) == IdText(NodePart(nodes[j]))
        ensures NodePart(nodes[i]) == NodePart(nodes[j])
      {
        var id := IdText(NodePart(nodes[i]));
        assert IsFiledUnder(nodes[i], id) && IsFiledUnder(nodes[j], id);
      }
    }
  }

  /** The same of their parts. */
  ghost predicate PartsIdentify(nodes: seq<Node>) {
    forall i, j :: 0 <= i < j < |nodes| && IdText(NodePart(nodes[i])) == IdText(NodePart(nodes[j])) ==>
      NodePart(nodes[i]) == NodePart(nodes[j])
  }

  ghost predicate OrderIrrelevant(nodes: seq<Node>, conns: seq<Connection>, dumps: Connection -> string) {
    forall others: seq<Node> :: multiset(others) == multiset(nodes) ==>
      MaterialOf(Graph(Some(others), Some(conns)), dumps) == MaterialOf(Graph(Some(nodes), Some(conns)), dumps)
  }

  /** Under one id, an id-identified list holds copies of a single part. */
  lemma {:induction false} CopiesUnderKey(nodes: seq<Node>, x: Node)
    requires forall i :: 0 <= i < |nodes| && IdText(NodePart(nodes[i])) == IdText(NodePart(x)) ==> NodePart(nodes[i]) == NodePart(x)
    ensures forall p :: p in WithKey(IdText, NodeParts(nodes), IdText(NodePart(x))) ==> p == NodePart(x)
  {
    WithKeyMembers(IdText, NodeParts(nodes), IdText(NodePart(x)));
  }

  lemma RemoveMember<T>(s: seq<T>, i: nat)
    requires i < |s|
    ensures multiset(s[..i] + s[i + 1..]) == multiset(s) - multiset{s[i]}
  {
    assert s == s[..i] + [s[i]] + s[i + 1..];
  }

  lemma CountWithout(s: seq<Node>, i: nat, k: string)
    requires i < |s|
    ensures |WithKey(IdText, NodeParts(s), k)| ==
      |WithKey(IdText, NodeParts(s[..i] + s[i + 1..]), k)| + (if IdText(NodePart(s[i])) == k then 1 else 0)
  {
    var front, x, back := NodeParts(s[..i]), [NodePart(s[i])], NodeParts(s[i + 1..]);
    assert NodeParts(s) == front + x + back;
    assert NodeParts(s[..i] + s[i + 1..]) == front + back;
    WithKeyConcat(IdText, front + x, back, k);
    WithKeyConcat(IdText, front, x, k);
    WithKeyConcat(IdText, front, back, k);
  }

  /** Dropping a common node lowers both counts alike. */
  lemma DropBoth(a: seq<Node>, b: seq<Node>, i: nat, k: string)
    requires a != [] && i < |b| && b[i] == a[0]
    ensures |WithKey(IdText, NodeParts(a), k)| - |WithKey(IdText, NodeParts(b), k)| ==
      |WithKey(IdText, NodeParts(a[..0] + a[0 + 1..]), k)| - |WithKey(IdText, NodeParts(b[..i] + b[i + 1..]), k)|
  {
    CountWithout(a, 0, k);
    CountWithout(b, i, k);
  }

  lemma {:induction false} PermutedCounts(a: seq<Node>, b: seq<Node>, k: string)
    requires multiset(a) == multiset(b)
    ensures |WithKey(IdText, NodeParts(a), k)| == |WithKey(IdText, NodeParts(b), k)|
    decreases |a|
  {
    if a == [] {
      assert |multiset(b)| == |b| == 0;
    } else {
      assert a[0] in multiset(b);
      var i :| 0 <= i < |b| && b[i] == a[0];
      RemoveMember(a, 0);
      RemoveMember(b, i);
      DropBoth(a, b, i, k);
      PermutedCounts(a[..0] + a[0 + 1..], b[..i] + b[i + 1..], k);
    }
  }

  lemma IdentifiedUnderKey(nodes: seq<Node>, others: seq<Node>, i: nat)
    requires PartsIdentify(nodes) && multiset(others) == multiset(nodes) && i < |nodes|
    ensures forall p :: p in WithKey(IdText, NodeParts(others), IdText(NodePart(nodes[i]))) ==> p == NodePart(nodes[i])
    ensures forall p :: p in WithKey(IdText, NodeParts(nodes), IdText(NodePart(nodes[i]))) ==> p == NodePart(nodes[i])
  {
    forall j | 0 <= j < |others| && IdText(NodePart(others[j])) == IdText(NodePart(nodes[i]))
      ensures NodePart(others[j]) == NodePart(nodes[i])
    {
      assert others[j] in multiset(nodes);
    }
    CopiesUnderKey(others, nodes[i]);
    CopiesUnderKey(nodes, nodes[i]);
  }

  lemma IdentifiedOrderFree(nodes: seq<Node>, others: seq<Node>, k: string)
    requires PartsIdentify(nodes) && multiset(others) == multiset(nodes)
    ensures WithKey(IdText, NodeParts(others), k) == WithKey(IdText, NodeParts(nodes), k)
  {
    var a, b := WithKey(IdText, NodeParts(others), k), WithKey(IdText, NodeParts(nodes), k);
    PermutedCounts(others, nodes, k);
    if b != [] {
      WithKeyMembers(IdText, NodeParts(nodes), k);
      assert b[0] in b;
      var i :| 0 <= i < |nodes| && NodeParts(nodes)[i] == b[0];
      IdentifiedUnderKey(nodes, others, i);
      assert forall m :: 0 <= m < |a| ==> a[m] in a && b[m] in b;
    }
  }

  /** Moving node `i` to the front puts its part first under its id. */
  lemma FrontIsFirst(nodes: seq<Node>, i: nat) returns (moved: seq<Node>)
    requires i < |nodes|
    ensures multiset(moved) == multiset(nodes)
    ensures var w := WithKey(IdText, NodeParts(moved), IdText(NodePart(nodes[i]))); w != [] && w[0] == NodePart(nodes[i])
  {
    var rest := nodes[..i] + nodes[i + 1..];
    moved := [nodes[i]] + rest;
    assert nodes == nodes[..i] + [nodes[i]] + nodes[i + 1..];
    assert NodeParts(moved) == [NodePart(nodes[i])] + NodeParts(rest);
    WithKeyConcat(IdText, [NodePart(nodes[i])], NodeParts(rest), IdText(NodePart(nodes[i])));
  }

  /** The hash ignores the order of a node list exactly when equal ids mean equal nodes. */
  lemma OrderIrrelevantIffIdsIdentify(nodes: seq<Node>, conns: seq<Connection>, dumps: Connection -> string)
    ensures OrderIrrelevant(nodes, conns, dumps) <==> IdsIdentify(nodes)
  {
    IdsIdentifyParts(nodes);
    if PartsIdentify(nodes) {
      forall others: seq<Node> | multiset(others) == multiset(nodes)
        ensures MaterialOf(Graph(Some(others), Some(conns)), dumps) == MaterialOf(Graph(Some(nodes), Some(conns)), dumps)
      {
        forall k ensures WithKey(IdText, NodeParts(others), k) == WithKey(IdText, NodeParts(nodes), k) {
          IdentifiedOrderFree(nodes, others, k);
        }
        SortedEqual(IdText, NodeParts(others), NodeParts(nodes));
      }
    } else {
      var i, j :| 0 <= i < j < |nodes| && IdText(NodePart(nodes[i])) == IdText(NodePart(nodes[j]))
        && NodePart(nodes[i]) != NodePart(nodes[j]);
      var a := FrontIsFirst(nodes, i);
      var b := FrontIsFirst(nodes, j);
      var k := IdText(NodePart(nodes[i]));
      SortedEqual(IdText, NodeParts(a), NodeParts(b));
      assert WithKey(IdText, NodeParts(a), k) != WithKey(IdText, NodeParts(b), k);
      assert MaterialOf(Graph(Some(a), Some(conns)), dumps) != MaterialOf(Graph(Some(b), Some(conns)), dumps);
    }
  }
}
