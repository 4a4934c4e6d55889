/** The causal graph of chat messages: the last copy of an id wins; ties are broken by time, then id. */
module ChatGraph {
  import opened Orders
  import opened Ids
  import opened Kahn
  import KahnLoop

  type Collation = Less<string>

  /** The fields of a message that the graph looks at. */
  datatype Node = Node(id: string, after: seq<string>, ts: real)

  type NodeMap = map<string, Node>

  function Clean(node: Node): Node {
    Node(Trim(node.id), NormalizeIds(node.after), node.ts)
  }

  /** compareMessageOrder(a, b) < 0. */
  predicate NodeLess(col: Collation, a: Node, b: Node) {
    if a.ts != b.ts then a.ts < b.ts else col(a.id, b.id)
  }

  ghost predicate Keyed(byId: NodeMap) {
    forall k :: k in byId ==> NamedNode(byId[k], k)
  }

  ghost predicate NamedNode(node: Node, k: string) {
    k != "" && node.id == k && Clean(node) == node
  }

  function Put(byId: NodeMap, node: Node): NodeMap {
    if Trim(node.id) == "" then byId else byId[Trim(node.id) := Clean(node)]
  }

  function LastById(nodes: seq<Node>): NodeMap {
    if nodes == [] then map[] else Put(LastById(nodes[..|nodes| - 1]), nodes[|nodes| - 1])
  }

  /** Setting an existing key of a JavaScript Map keeps its place in the iteration order. */
  function MapIds(nodes: seq<Node>): seq<string> {
    if nodes == [] then [] else
      var ids, id := MapIds(nodes[..|nodes| - 1]), Trim(nodes[|nodes| - 1].id);
      if id == "" || id in ids then ids else ids + [id]
  }

  lemma CleanIdempotent(node: Node)
    ensures Clean(Clean(node)) == Clean(node)
  {
    TrimIdempotent(node.id);
    NormalizeIdsIdempotent(node.after);
  }

  lemma PutKeyed(byId: NodeMap, node: Node)
    requires Keyed(byId)
    ensures Keyed(Put(byId, node))
  {
    CleanIdempotent(node);
  }

  lemma {:induction false} LastByIdKeyed(nodes: seq<Node>)
    ensures Keyed(LastById(nodes))
    ensures Distinct(MapIds(nodes)) && Elems(MapIds(nodes)) == LastById(nodes).Keys
  {
    if nodes != [] {
      hide Trim, NormalizeIds, Keyed;
      var init, last := nodes[..|nodes| - 1], nodes[|nodes| - 1];
      LastByIdKeyed(init);
      PutKeyed(LastById(init), last);
      Snoc(MapIds(init), Trim(last.id));
    } else {
      assert Keyed(LastById(nodes));
    }
  }

  function ParentsOf(byId: NodeMap): map<string, seq<string>> {
    map x | x in byId :: NormalizeIds(byId[x].after)
  }

  ghost function GraphOf(byId: NodeMap): (g: Graph)
    ensures g.Keys == byId.Keys && Closed(g)
  {
    KahnLoop.Known(ParentsOf(byId))
  }

  function IdLess(col: Collation, byId: NodeMap): Less<string> {
    (a, b) => a in byId && b in byId && NodeLess(col, byId[a], byId[b])
  }

  lemma IdLessTotal(col: Collation, byId: NodeMap)
    requires StrictTotal(col) && Keyed(byId)
    ensures TotalOn(IdLess(col, byId), byId.Keys)
  {
    hide Clean;
    var lt := IdLess(col, byId);
    assert forall a :: a in byId ==> NamedNode(byId[a], a);
    forall a, b | a in byId && b in byId && a != b ensures lt(a, b) || lt(b, a) {
      assert byId[a].id != byId[b].id;
    }
  }

  ghost function OrderedIds(col: Collation, byId: NodeMap): (o: seq<string>)
    requires StrictTotal(col) && Keyed(byId)
    ensures Distinct(o) && Elems(o) == byId.Keys
  {
    IdLessTotal(col, byId);
    OrderFacts(GraphOf(byId), IdLess(col, byId));
    KahnOrder(GraphOf(byId), IdLess(col, byId))
  }

  ghost function LeafIds(col: Collation, byId: NodeMap): seq<string>
    requires StrictTotal(col) && Keyed(byId)
  {
    IdLessTotal(col, byId);
    Leaves(GraphOf(byId), IdLess(col, byId))
  }

  /** Parents named by some known message and not known themselves. */
  ghost function MissingSet(byId: NodeMap): set<string> {
    KahnLoop.Missing(ParentsOf(byId))
  }

  ghost function MissingIds(byId: NodeMap): seq<string> {
    CodeUnitTotal();
    Ascending(CodeUnitLess, MissingSet(byId))
  }

  function NodesAt(byId: NodeMap, ids: seq<string>): (r: seq<Node>)
    requires Elems(ids) <= byId.Keys
    ensures |r| == |ids|
    ensures forall i :: 0 <= i < |ids| ==> ids[i] in byId && r[i] == byId[ids[i]]
  {
    assert forall i :: 0 <= i < |ids| ==> ids[i] in Elems(ids);
    seq(|ids|, i requires 0 <= i < |ids| => byId[ids[i]])
  }

  datatype Analysis = Analysis(ordered: seq<Node>, leafIds: seq<string>, missingIds: seq<string>)

  ghost function AnalysisOf(col: Collation, byId: NodeMap): Analysis
    requires StrictTotal(col) && Keyed(byId)
  {
    Analysis(NodesAt(byId, OrderedIds(col, byId)), LeafIds(col, byId), MissingIds(byId))
  }

  method IndexById(nodes: seq<Node>) returns (byId: NodeMap, ids: seq<string>)
    ensures byId == LastById(nodes) && ids == MapIds(nodes)
  {
    byId, ids := map[], [];
    for i := 0 to |nodes|
      invariant byId == LastById(nodes[..i]) && ids == MapIds(nodes[..i])
    {
      assert nodes[..i + 1][..i] == nodes[..i];
      var id := Trim(nodes[i].id);
      if id != "" {
        byId := byId[id := Clean(nodes[i])];
        if id !in ids {
          ids := ids + [id];
        }
      }
    }
    assert nodes[..|nodes|] == nodes;
  }

  method AnalyzeOpenClawPairChatGraph(col: Collation, nodes: seq<Node>) returns (analysis: Analysis)
    requires StrictTotal(col)
    ensures Keyed(LastById(nodes)) && analysis == AnalysisOf(col, LastById(nodes))
  {
    LastByIdKeyed(nodes);
    var byId, ids := IndexById(nodes);
    IdLessTotal(col, byId);
    var orderedIds, leafIds, missingIds, childLists := KahnLoop.Analyze(ids, ParentsOf(byId), IdLess(col, byId));
    assert orderedIds == OrderedIds(col, byId);
    analysis := Analysis(NodesAt(byId, orderedIds), leafIds, missingIds);
  }

  // ---------- Theorems ----------

  /** Two histories whose latest copies agree are analyzed alike, whatever their order and repetitions. */
  lemma SameLatest(a: seq<Node>, b: seq<Node>)
    requires Elems(a) == Elems(b) && Immutable(Elems(a))
    ensures LastById(a) == LastById(b)
  {
    forall k ensures k in LastById(a) <==> k in LastById(b) {
      Present(a, k);
      Present(b, k);
      assert forall n :: n in a <==> n in Elems(b);
    }
    forall k | k in LastById(a) ensures LastById(a)[k] == LastById(b)[k] {
      Present(a, k);
      Present(b, k);
      var m :| m in a && Trim(m.id) == k && LastById(a)[k] == Clean(m);
      var n :| n in b && Trim(n.id) == k && LastById(b)[k] == Clean(n);
      assert m in Elems(a) && n in Elems(a);
    }
  }

  ghost predicate Immutable(nodes: set<Node>) {
    forall m, n :: m in nodes && n in nodes && Trim(m.id) == Trim(n.id) && Trim(m.id) != "" ==> Clean(m) == Clean(n)
  }

  lemma {:induction false} Present(nodes: seq<Node>, k: string)
    ensures k in LastById(nodes) <==> k != "" && exists n :: n in nodes && Trim(n.id) == k
    ensures k in LastById(nodes) ==> exists n :: n in nodes && Trim(n.id) == k && LastById(nodes)[k] == Clean(n)
  {
    if nodes != [] {
      hide Clean;
      var init, last := nodes[..|nodes| - 1], nodes[|nodes| - 1];
      Present(init, k);
      assert nodes == init + [last];
      assert forall n :: n in nodes <==> n in init || n == last;
    }
  }
}
