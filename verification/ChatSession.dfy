/** The mobile session: reconciling stored messages, folding in new ones, and choosing what to send after what. */
module ChatSession {
  import opened Helpers
  import opened Orders
  import opened Ids
  import opened ChatGraph

  datatype Kind = Chat | System
  datatype Party = Self | Host
  datatype Origin = FromHost | FromMobile
  datatype Delivery = Sending | Sent | Failed
  datatype ChatMessage = ChatMessage(
    id: string, sender: Party, text: string, createdAt: string, ts: real, kind: Kind,
    origin: Option<Origin>, originSeq: real, after: seq<string>, missingAfter: seq<string>,
    deliveryStatus: Option<Delivery>, deliveryError: string)

  function NormalizeChatMessage(m: ChatMessage): ChatMessage {
    var chat := m.kind == Chat;
    var status := if chat && m.sender == Self
                  then (if m.deliveryStatus == Some(Sending) || m.deliveryStatus == Some(Failed)
                        then m.deliveryStatus else Some(Sent))
                  else None;
    m.(id := Trim(m.id),
       origin := if !chat then None else if m.origin == Some(FromMobile) then Some(FromMobile) else Some(FromHost),
       originSeq := if chat then Counter(m.originSeq) as real else 0.0,
       after := if chat then NormalizeIds(m.after) else [],
       missingAfter := if chat then NormalizeIds(m.missingAfter) else [],
       deliveryStatus := status,
       deliveryError := if status == Some(Failed) then Trim(m.deliveryError) else "")
  }

  /** Everything about a message but its derived list of missing parents. */
  function Strip(m: ChatMessage): ChatMessage {
    NormalizeChatMessage(m).(missingAfter := [])
  }

  lemma StripIdempotent(m: ChatMessage)
    ensures Strip(Strip(m)) == Strip(m) && NormalizeChatMessage(Strip(m)) == Strip(m)
    ensures Strip(m).kind == m.kind && Strip(m).id == Trim(m.id)
  {
    TrimIdempotent(m.id);
    TrimIdempotent(m.deliveryError);
    NormalizeIdsIdempotent(m.after);
    CounterIdempotent(m.originSeq);
  }

  type MessageMap = map<string, ChatMessage>

  ghost predicate WellKeyed(messages: MessageMap, kind: Kind) {
    forall k :: k in messages ==> NamedMessage(messages[k], k) && messages[k].kind == kind
  }

  ghost predicate NamedMessage(m: ChatMessage, k: string) {
    k != "" && m.id == k && Strip(m) == m
  }

  /** The last message of each id, for one kind; `reconcileSessionMessages` keeps one table for each kind. */
  function Latest(messages: seq<ChatMessage>, kind: Kind): MessageMap {
    if messages == [] then map[] else
      Record(Latest(messages[..|messages| - 1], kind), messages[|messages| - 1], kind)
  }

  function Record(table: MessageMap, m: ChatMessage, kind: Kind): MessageMap {
    if Trim(m.id) == "" || m.kind != kind then table else table[Trim(m.id) := Strip(m)]
  }

  lemma {:induction false} LatestKeyed(messages: seq<ChatMessage>, kind: Kind)
    ensures WellKeyed(Latest(messages, kind), kind)
  {
    if messages != [] {
      hide Strip, Trim;
      LatestKeyed(messages[..|messages| - 1], kind);
      StripIdempotent(messages[|messages| - 1]);
    }
  }

  function NodeOf(m: ChatMessage): Node {
    Node(m.id, m.after, m.ts)
  }

  function NodesOf(chat: MessageMap): NodeMap {
    map k | k in chat :: NodeOf(chat[k])
  }

  lemma NodesKeyed(chat: MessageMap)
    requires WellKeyed(chat, Chat)
    ensures Keyed(NodesOf(chat))
  {
    forall k | k in chat ensures NamedNode(NodeOf(chat[k]), k) {
      assert NamedMessage(chat[k], k);
      assert Strip(chat[k]) == chat[k];
    }
  }

  // ---------- Reconciling ----------

  /** Insertion order of the table for one kind. */
  function TableIds(messages: seq<ChatMessage>, kind: Kind): seq<string> {
    if messages == [] then [] else
      var ids, m := TableIds(messages[..|messages| - 1], kind), messages[|messages| - 1];
      if Trim(m.id) == "" || m.kind != kind || Trim(m.id) in ids then ids else ids + [Trim(m.id)]
  }

  lemma {:induction false} TableIdsListKeys(messages: seq<ChatMessage>, kind: Kind)
    ensures Distinct(TableIds(messages, kind)) && Elems(TableIds(messages, kind)) == Latest(messages, kind).Keys
  {
    if messages != [] {
      hide Strip, Trim, Distinct;
      var init, last := messages[..|messages| - 1], messages[|messages| - 1];
      TableIdsListKeys(init, kind);
      Snoc(TableIds(init, kind), Trim(last.id));
    } else {
      assert Distinct(TableIds(messages, kind));
    }
  }

  function Keep(ids: seq<string>, wanted: set<string>): (r: seq<string>)
    ensures forall p :: p in r <==> p in ids && p in wanted
  {
    if ids == [] then [] else
      (if ids[0] in wanted then [ids[0]] else []) + Keep(ids[1..], wanted)
  }

  function Decorate(m: ChatMessage, missing: set<string>): ChatMessage {
    m.(missingAfter := Keep(m.after, missing))
  }

  function Listed(messages: MessageMap, ids: seq<string>, missing: set<string>): (r: seq<ChatMessage>)
    requires Elems(ids) <= messages.Keys
    ensures |r| == |ids|
    ensures forall i :: 0 <= i < |ids| ==> ids[i] in messages && r[i] == Decorate(messages[ids[i]], missing)
  {
    assert forall i :: 0 <= i < |ids| ==> ids[i] in Elems(ids);
    seq(|ids|, i requires 0 <= i < |ids| => Decorate(messages[ids[i]], missing))
  }

  /** The chat messages in causal order, each with its parents that nobody has sent yet. */
  ghost function ChatList(col: Collation, chat: MessageMap): seq<ChatMessage>
    requires StrictTotal(col) && WellKeyed(chat, Chat)
  {
    NodesKeyed(chat);
    Listed(chat, OrderedIds(col, NodesOf(chat)), MissingSet(NodesOf(chat)))
  }

  /** compareFallbackOrder(a, b) < 0. */
  predicate FallbackLess(col: Collation, a: ChatMessage, b: ChatMessage) {
    if a.ts != b.ts then a.ts < b.ts else col(a.id, b.id)
  }

  function RankOf(ids: seq<string>): map<string, nat>
    requires Distinct(ids)
  {
    map i: nat | i < |ids| :: ids[i] := i
  }

  /** The comparator of the final sort: graph order between chat messages, time and id otherwise. */
  function Before(col: Collation, rank: map<string, nat>): Less<ChatMessage> {
    (a: ChatMessage, b: ChatMessage) => if a.id in rank && b.id in rank then rank[a.id] < rank[b.id] else FallbackLess(col, a, b)
  }

  datatype Reconciled = Reconciled(messages: seq<ChatMessage>, leafIds: seq<string>, missingMessageIds: seq<string>)

  ghost function Reconcile(col: Collation, messages: seq<ChatMessage>): Reconciled
    requires StrictTotal(col)
  {
    LatestKeyed(messages, Chat);
    TableIdsListKeys(messages, System);
    var chat, sys := Latest(messages, Chat), Latest(messages, System);
    NodesKeyed(chat);
    Reconciled(
      Sort(Before(col, RankOf(OrderedIds(col, NodesOf(chat)))),
           Listed(sys, TableIds(messages, System), {}) + ChatList(col, chat)),
      LeafIds(col, NodesOf(chat)),
      MissingIds(NodesOf(chat)))
  }

  method BuildTables(messages: seq<ChatMessage>)
    returns (chat: MessageMap, chatIds: seq<string>, sys: MessageMap, sysIds: seq<string>)
    ensures chat == Latest(messages, Chat) && chatIds == TableIds(messages, Chat)
    ensures sys == Latest(messages, System) && sysIds == TableIds(messages, System)
  {
    chat, chatIds, sys, sysIds := map[], [], map[], [];
    for i := 0 to |messages|
      invariant chat == Latest(messages[..i], Chat) && chatIds == TableIds(messages[..i], Chat)
      invariant sys == Latest(messages[..i], System) && sysIds == TableIds(messages[..i], System)
    {
      hide Strip, Trim;
      assert messages[..i + 1][..i] == messages[..i];
      var m := messages[i];
      var id := Trim(m.id);
      if id != "" {
        if m.kind == System {
          sys := sys[id := Strip(m)];
          if id !in sysIds {
            sysIds := sysIds + [id];
          }
        } else {
          chat := chat[id := Strip(m)];
          if id !in chatIds {
            chatIds := chatIds + [id];
          }
        }
      }
    }
    assert messages[..|messages|] == messages;
  }

  function NodesAtIds(chat: MessageMap, ids: seq<string>): (r: seq<Node>)
    requires Elems(ids) <= chat.Keys
    ensures |r| == |ids|
    ensures forall i :: 0 <= i < |ids| ==> ids[i] in chat && r[i] == NodeOf(chat[ids[i]])
  {
    assert forall i :: 0 <= i < |ids| ==> ids[i] in Elems(ids);
    seq(|ids|, i requires 0 <= i < |ids| => NodeOf(chat[ids[i]]))
  }

  /** Distinct normalized messages reach the analysis unchanged. */
  lemma {:induction false} NodesReach(chat: MessageMap, ids: seq<string>)
    requires WellKeyed(chat, Chat) && Distinct(ids) && Elems(ids) <= chat.Keys
    ensures LastById(NodesAtIds(chat, ids)) == map k | k in Elems(ids) :: NodeOf(chat[k])
  {
    if ids != [] {
      var init, last := ids[..|ids| - 1], ids[|ids| - 1];
      assert ids == init + [last];
      Snoc(init, last);
      NodesReach(chat, init);
      assert last in Elems(ids);
      hide Distinct;
      assert NamedNode(NodeOf(chat[last]), last) by {
        NodesKeyed(chat);
        assert NodesOf(chat)[last] == NodeOf(chat[last]);
      }
      hide WellKeyed, NodeOf, Put;
      PutNamed(LastById(NodesAtIds(chat, init)), NodeOf(chat[last]), last);
      var nodes := NodesAtIds(chat, ids);
      assert nodes[..|nodes| - 1] == NodesAtIds(chat, init);
    }
  }

  lemma PutNamed(byId: NodeMap, node: Node, k: string)
    requires NamedNode(node, k)
    ensures Put(byId, node) == byId[k := node]
  {
    assert Clean(node) == node;
  }

  method ReconcileSessionMessages(col: Collation, messages: seq<ChatMessage>) returns (r: Reconciled)
    requires StrictTotal(col)
    ensures r == Reconcile(col, messages)
  {
    var chat, chatIds, sys, sysIds := BuildTables(messages);
    LatestKeyed(messages, Chat);
    TableIdsListKeys(messages, Chat);
    TableIdsListKeys(messages, System);
    NodesReach(chat, chatIds);
    NodesKeyed(chat);
    var nodes := NodesAtIds(chat, chatIds);
    assert LastById(nodes) == NodesOf(chat);
    var analysis := AnalyzeOpenClawPairChatGraph(col, nodes);
    var orderedIds := OrderIds(analysis.ordered);
    OrderIdsAre(col, chat, analysis.ordered);
    var missingIdsSet := Elems(analysis.missingIds);
    var orderedChat := Listed(chat, orderedIds, missingIdsSet);
    var ordered := Sort(Before(col, RankOf(orderedIds)), Listed(sys, sysIds, {}) + orderedChat);
    r := Reconciled(ordered, analysis.leafIds, analysis.missingIds);
  }

  lemma OrderIdsAre(col: Collation, chat: MessageMap, ordered: seq<Node>)
    requires StrictTotal(col) && WellKeyed(chat, Chat) && Keyed(NodesOf(chat))
    requires ordered == NodesAt(NodesOf(chat), OrderedIds(col, NodesOf(chat)))
    ensures OrderIds(ordered) == OrderedIds(col, NodesOf(chat))
  {
    hide OrderedIds, Clean;
    var ids := OrderedIds(col, NodesOf(chat));
    forall i | 0 <= i < |ids| ensures OrderIds(ordered)[i] == ids[i] {
      assert NamedNode(NodesOf(chat)[ids[i]], ids[i]);
    }
  }

  function OrderIds(nodes: seq<Node>): (r: seq<string>)
    ensures |r| == |nodes| && forall i :: 0 <= i < |nodes| ==> r[i] == nodes[i].id
  {
    seq(|nodes|, i requires 0 <= i < |nodes| => nodes[i].id)
  }
}
