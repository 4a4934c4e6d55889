/** Sending a message after everything seen: the leaf set as parents, the next number of the own origin. */
module ChatSend {
  import opened Helpers
  import opened Orders
  import opened Ids
  import opened Kahn
  import KahnLoop
  import opened KahnExtend
  import opened ChatGraph
  import opened ChatSession

  /** A message sent in a session whose chat table is `chat`: its parents are the current leaves. */
  ghost predicate SentAfterLeaves(col: Collation, chat: MessageMap, m: ChatMessage)
    requires StrictTotal(col) && WellKeyed(chat, Chat)
  {
    NodesKeyed(chat);
    && NamedMessage(m, m.id) && m.kind == Chat
    && m.after == LeafIds(col, NodesOf(chat))
  }

  /** An id that no stored message carries or names. */
  ghost predicate FreshId(chat: MessageMap, id: string) {
    id !in chat && id !in MissingSet(NodesOf(chat))
  }

  lemma ExtendKeyed(chat: MessageMap, m: ChatMessage)
    requires WellKeyed(chat, Chat) && NamedMessage(m, m.id) && m.kind == Chat
    ensures WellKeyed(chat[m.id := m], Chat) && Keyed(NodesOf(chat[m.id := m])) && Keyed(NodesOf(chat))
    ensures NodesOf(chat[m.id := m]) == NodesOf(chat)[m.id := NodeOf(m)]
  {
    hide NamedMessage, Strip, NamedNode;
    assert WellKeyed(chat[m.id := m], Chat);
    NodesKeyed(chat);
    NodesKeyed(chat[m.id := m]);
  }

  lemma ParentsAt(nodes: NodeMap, x: string)
    requires x in nodes
    ensures GraphOf(nodes)[x] == Elems(NormalizeIds(nodes[x].after)) * nodes.Keys
  {
    assert ParentsOf(nodes).Keys == nodes.Keys;
  }

  /** No stored message names a fresh id, so adding it changes nobody's known parents. */
  lemma OldParentsStay(nodes: NodeMap, node: Node, x: string)
    requires node.id !in nodes && node.id !in MissingSet(nodes) && x in nodes
    ensures GraphOf(nodes[node.id := node])[x] == GraphOf(nodes)[x]
  {
    ParentsAt(nodes, x);
    ParentsAt(nodes[node.id := node], x);
    assert node.id !in NormalizeIds(nodes[x].after) by {
      assert ParentsOf(nodes)[x] == NormalizeIds(nodes[x].after);
      assert node.id in NormalizeIds(nodes[x].after) ==> node.id in KahnLoop.Missing(ParentsOf(nodes));
    }
  }

  lemma NewParents(col: Collation, nodes: NodeMap, node: Node)
    requires StrictTotal(col) && Keyed(nodes) && NamedNode(node, node.id) && node.id !in nodes
    requires node.after == LeafIds(col, nodes)
    ensures GraphOf(nodes[node.id := node])[node.id] == set x | x in nodes.Keys && IsLeaf(GraphOf(nodes), x)
  {
    hide KahnOrder, Leaves;
    IdLessTotal(col, nodes);
    var g := GraphOf(nodes);
    assert NormalizeIds(node.after) == node.after by { assert Clean(node) == node; }
    ParentsAt(nodes[node.id := node], node.id);
    forall x ensures x in Elems(node.after) * nodes[node.id := node].Keys <==> x in nodes.Keys && IsLeaf(g, x) {
      LeavesExactly(g, IdLess(col, nodes), x);
    }
  }

  lemma SendTops(col: Collation, nodes: NodeMap, node: Node)
    requires StrictTotal(col) && Keyed(nodes) && NamedNode(node, node.id)
    requires node.id !in nodes && node.id !in MissingSet(nodes) && node.after == LeafIds(col, nodes)
    ensures Keyed(nodes[node.id := node])
    ensures var nodes' := nodes[node.id := node];
      Tops(GraphOf(nodes), IdLess(col, nodes), GraphOf(nodes'), IdLess(col, nodes'), node.id)
  {
    hide LeafIds, MissingSet, ParentsOf, Clean, NodeLess, GraphOf;
    var nodes' := nodes[node.id := node];
    PutKeyed(nodes, node);
    IdLessTotal(col, nodes);
    IdLessTotal(col, nodes');
    NewParents(col, nodes, node);
    forall x | x in nodes ensures GraphOf(nodes')[x] == GraphOf(nodes)[x] {
      OldParentsStay(nodes, node, x);
    }
  }

  lemma PutKeyed(nodes: NodeMap, node: Node)
    requires Keyed(nodes) && NamedNode(node, node.id)
    ensures Keyed(nodes[node.id := node])
  {
  }

  /** The sent message comes last, is the only leaf, and leaves the chat acyclic with the old order untouched. */
  lemma SendingDominates(col: Collation, chat: MessageMap, m: ChatMessage)
    requires StrictTotal(col) && WellKeyed(chat, Chat) && SentAfterLeaves(col, chat, m) && FreshId(chat, m.id)
    requires Acyclic(GraphOf(NodesOf(chat)))
    ensures var chat' := chat[m.id := m];
      && WellKeyed(chat', Chat) && Keyed(NodesOf(chat)) && Keyed(NodesOf(chat'))
      && Acyclic(GraphOf(NodesOf(chat')))
      && OrderedIds(col, NodesOf(chat')) == OrderedIds(col, NodesOf(chat)) + [m.id]
      && LeafIds(col, NodesOf(chat')) == [m.id]
  {
    hide KahnOrder, Leaves, Acyclic, MissingSet;
    ExtendKeyed(chat, m);
    var nodes, nodes' := NodesOf(chat), NodesOf(chat[m.id := m]);
    MessageNode(m);
    SendTops(col, nodes, NodeOf(m));
    TopComesLast(GraphOf(nodes), IdLess(col, nodes), GraphOf(nodes'), IdLess(col, nodes'), m.id);
  }

  lemma MessageNode(m: ChatMessage)
    requires NamedMessage(m, m.id) && m.kind == Chat
    ensures NamedNode(NodeOf(m), m.id)
  {
    assert Strip(m) == m;
  }

  // ---------- The next sequence number ----------

  /** `Math.trunc`. */
  function Trunc(x: real): int {
    if x >= 0.0 then x.Floor else -((-x).Floor)
  }

  /** Counted towards an origin: labelled with it, or unlabelled and sent by the party it stands for. */
  predicate CountsFor(m: ChatMessage, origin: Origin) {
    m.kind != System &&
    (m.origin == Some(origin) || (m.origin == None && m.sender == (if origin == FromMobile then Self else Host)))
  }

  function IntMax(a: int, b: int): int {
    if a < b then b else a
  }

  function MaxSeq(messages: seq<ChatMessage>, origin: Origin): int {
    if messages == [] then 0 else
      var r, m := MaxSeq(messages[..|messages| - 1], origin), messages[|messages| - 1];
      if CountsFor(m, origin) then IntMax(r, Trunc(m.originSeq)) else r
  }

  function NextOriginSeq(messages: seq<ChatMessage>, origin: Origin): int {
    MaxSeq(messages, origin) + 1
  }

  /** The next number exceeds every stored number of the origin, and is the least such positive number. */
  lemma {:induction false} NextSeqExceeds(messages: seq<ChatMessage>, origin: Origin)
    ensures NextOriginSeq(messages, origin) >= 1
    ensures forall m :: m in messages && CountsFor(m, origin) ==> Trunc(m.originSeq) < NextOriginSeq(messages, origin)
    ensures NextOriginSeq(messages, origin) == 1
         || exists m :: m in messages && CountsFor(m, origin) && Trunc(m.originSeq) + 1 == NextOriginSeq(messages, origin)
  {
    if messages != [] {
      var init, last := messages[..|messages| - 1], messages[|messages| - 1];
      NextSeqExceeds(init, origin);
      assert messages == init + [last];
      assert forall m :: m in messages <==> m in init || m == last;
    }
  }
}
