/** The stored session is causal, asks for each missing message once, and sending dominates what was seen. */
module ChatTheorems {
  import opened Helpers
  import opened Orders
  import opened Ids
  import opened Kahn
  import KahnLoop
  import opened ChatGraph
  import opened ChatSession
  import opened ChatSort

  // ---------- Order of the stored session ----------

  /** In a settled session of an acyclic chat, every message stands after its known parents. */
  lemma SettledCausal(col: Collation, chat: MessageMap, sys: MessageMap, j: nat, p: string)
    requires StrictTotal(col) && Tables(chat, sys) && Acyclic(GraphOf(NodesOf(chat)))
    requires TotalOn(Before(col, SessionRank(col, chat)), SessionSet(col, chat, sys))
    requires var list := SettledList(col, chat, sys);
      j < |list| && list[j].id in chat && p in GraphOf(NodesOf(chat))[list[j].id]
    ensures exists i :: 0 <= i < j && SettledList(col, chat, sys)[i].id == p
  {
    hide OrderedIds, LeafIds, MissingIds, MissingSet, GraphOf, NodesOf, ChatList, WellKeyed, FallbackLess;
    var list, rank := SettledList(col, chat, sys), SessionRank(col, chat);
    var lt := Before(col, rank);
    AscendingSorted(lt, SessionSet(col, chat, sys));
    var pm := ParentRanked(col, chat, list[j].id, p);
    assert pm in SessionSet(col, chat, sys);
    assert pm in Elems(list);
    var i :| 0 <= i < |list| && list[i] == pm;
    assert lt(pm, list[j]);
    assert !lt(list[j], pm);
  }

  /** A known parent has a smaller rank than its child. */
  lemma ParentRanked(col: Collation, chat: MessageMap, x: string, p: string) returns (pm: ChatMessage)
    requires StrictTotal(col) && WellKeyed(chat, Chat) && Acyclic(GraphOf(NodesOf(chat)))
    requires x in chat && p in GraphOf(NodesOf(chat))[x]
    ensures pm in ChatList(col, chat) && pm.id == p
    ensures var rank := SessionRank(col, chat); p in rank && x in rank && rank[p] < rank[x]
  {
    hide OrderedIds, LeafIds, MissingIds, MissingSet, ChatList, GraphOf, WellKeyed, Acyclic;
    ChatListFacts(col, chat);
    var nodes := NodesOf(chat);
    var ids := OrderedIds(col, nodes);
    RankFacts(ids);
    assert ParentsFirst(GraphOf(nodes), ids) by { ChatOrderIsCausal(col, nodes); }
    assert x in Elems(ids);
    var b :| 0 <= b < |ids| && ids[b] == x;
    assert Earlier(ids, p, b);
    var a :| 0 <= a < b && ids[a] == p;
    pm := ChatList(col, chat)[a];
  }

  lemma ChatOrderIsCausal(col: Collation, byId: NodeMap)
    requires StrictTotal(col) && Keyed(byId)
    ensures Acyclic(GraphOf(byId)) <==> ParentsFirst(GraphOf(byId), OrderedIds(col, byId))
  {
    IdLessTotal(col, byId);
    CausalIffAcyclic(GraphOf(byId), IdLess(col, byId));
  }

  /** Time and id never contradict the graph. */
  ghost predicate GraphAgrees(col: Collation, chat: MessageMap)
    requires StrictTotal(col) && WellKeyed(chat, Chat)
  {
    forall i, j :: 0 <= i < j < |ChatList(col, chat)| ==> FallbackLess(col, ChatList(col, chat)[i], ChatList(col, chat)[j])
  }

  /** The position of two messages in the causal order, compared by time and id. */
  lemma ListPair(col: Collation, chat: MessageMap, i: nat, j: nat)
    requires StrictTotal(col) && WellKeyed(chat, Chat) && Keyed(NodesOf(chat))
    requires i < |OrderedIds(col, NodesOf(chat))| && j < |OrderedIds(col, NodesOf(chat))|
    ensures var ids, list := OrderedIds(col, NodesOf(chat)), ChatList(col, chat);
      |list| == |ids| && (IdLess(col, NodesOf(chat))(ids[i], ids[j]) <==> FallbackLess(col, list[i], list[j]))
  {
    hide OrderedIds, MissingSet;
    var ids := OrderedIds(col, NodesOf(chat));
    assert ids[i] in Elems(ids) && ids[j] in Elems(ids);
    assert NamedMessage(chat[ids[i]], ids[i]) && NamedMessage(chat[ids[j]], ids[j]);
    hide NamedMessage, WellKeyed;
  }

  /** On an acyclic chat time and id never contradict the graph exactly when every known parent is below its child. */
  lemma AgreesExactly(col: Collation, chat: MessageMap)
    requires StrictTotal(col) && WellKeyed(chat, Chat)
    ensures Acyclic(GraphOf(NodesOf(chat))) && GraphAgrees(col, chat) <==> ParentsBelow(GraphOf(NodesOf(chat)), IdLess(col, NodesOf(chat)))
  {
    hide *;
    NodesKeyed(chat);
    IdsSortedExactly(col, NodesOf(chat));
    ListSorted(col, chat);
  }

  lemma IdsSortedExactly(col: Collation, nodes: NodeMap)
    requires StrictTotal(col) && Keyed(nodes)
    ensures Acyclic(GraphOf(nodes)) && SortedBy(IdLess(col, nodes), OrderedIds(col, nodes)) <==> ParentsBelow(GraphOf(nodes), IdLess(col, nodes))
  {
    IdLessTotal(col, nodes);
    hide GraphOf, IdLess, TotalOn, Acyclic, ParentsBelow, KahnOrder, SortedBy;
    SortedExactly(GraphOf(nodes), IdLess(col, nodes));
  }

  lemma ListSorted(col: Collation, chat: MessageMap)
    requires StrictTotal(col) && WellKeyed(chat, Chat) && Keyed(NodesOf(chat))
    ensures SortedBy(IdLess(col, NodesOf(chat)), OrderedIds(col, NodesOf(chat))) <==> GraphAgrees(col, chat)
  {
    hide *;
    var nodes := NodesOf(chat);
    var ids, list := OrderedIds(col, nodes), ChatList(col, chat);
    ListLength(col, chat);
    forall i: nat, j: nat | i < |ids| && j < |ids| ensures IdLess(col, nodes)(ids[i], ids[j]) <==> FallbackLess(col, list[i], list[j]) {
      ListPair(col, chat, i, j);
    }
    Pointwise(col, IdLess(col, nodes), ids, list);
    AgreesIs(col, chat);
  }

  lemma ListLength(col: Collation, chat: MessageMap)
    requires StrictTotal(col) && WellKeyed(chat, Chat) && Keyed(NodesOf(chat))
    ensures |ChatList(col, chat)| == |OrderedIds(col, NodesOf(chat))|
  {
    hide OrderedIds, MissingSet, WellKeyed, Keyed, NodesOf;
  }

  ghost predicate ListedByTime(col: Collation, list: seq<ChatMessage>) {
    forall i, j :: 0 <= i < j < |list| ==> FallbackLess(col, list[i], list[j])
  }

  lemma AgreesIs(col: Collation, chat: MessageMap)
    requires StrictTotal(col) && WellKeyed(chat, Chat)
    ensures GraphAgrees(col, chat) <==> ListedByTime(col, ChatList(col, chat))
  {
    hide ChatList, FallbackLess, WellKeyed, StrictTotal;
  }

  lemma Pointwise(col: Collation, lt: Less<string>, ids: seq<string>, list: seq<ChatMessage>)
    requires |ids| == |list|
    requires forall i: nat, j: nat | i < |ids| && j < |ids| :: lt(ids[i], ids[j]) <==> FallbackLess(col, list[i], list[j])
    ensures SortedBy(lt, ids) <==> ListedByTime(col, list)
  {
    hide FallbackLess;
  }

  lemma RankKeys(col: Collation, chat: MessageMap)
    requires StrictTotal(col) && WellKeyed(chat, Chat)
    ensures SessionRank(col, chat).Keys == chat.Keys
    ensures forall m :: m in ChatList(col, chat) ==> m.id in chat
  {
    hide OrderedIds, MissingSet, ChatList, WellKeyed, NodesOf, RankOf;
    ChatListFacts(col, chat);
    var ids, list := OrderedIds(col, NodesOf(chat)), ChatList(col, chat);
    RankFacts(ids);
    forall m | m in list ensures m.id in chat {
      var i :| 0 <= i < |list| && list[i] == m;
      assert ids[i] in Elems(ids);
    }
  }

  lemma RankedMembers(col: Collation, chat: MessageMap, sys: MessageMap, m: ChatMessage)
    requires StrictTotal(col) && Tables(chat, sys) && m in SessionSet(col, chat, sys)
    ensures m.id in SessionRank(col, chat) <==> m in ChatList(col, chat)
  {
    RankKeys(col, chat);
    hide SessionRank, ChatList, WellKeyed;
    if m !in ChatList(col, chat) {
      assert m in sys.Values;
      var k :| k in sys && sys[k] == m;
      SystemNamed(sys, k);
    }
  }

  lemma SystemNamed(sys: MessageMap, k: string)
    requires WellKeyed(sys, System) && k in sys
    ensures sys[k].id == k
  {
    assert NamedMessage(sys[k], k);
  }

  lemma RankedFallback(col: Collation, chat: MessageMap, a: ChatMessage, b: ChatMessage)
    requires StrictTotal(col) && WellKeyed(chat, Chat) && GraphAgrees(col, chat)
    requires a in ChatList(col, chat) && b in ChatList(col, chat)
    ensures var rank := SessionRank(col, chat);
      a.id in rank && b.id in rank && (rank[a.id] < rank[b.id] ==> FallbackLess(col, a, b))
  {
    hide OrderedIds, MissingSet, ChatList, FallbackLess, NodesOf, WellKeyed;
    ChatListFacts(col, chat);
    var list := ChatList(col, chat);
    RankFacts(OrderedIds(col, NodesOf(chat)));
    var i :| 0 <= i < |list| && list[i] == a;
    var j :| 0 <= j < |list| && list[j] == b;
  }

  function Fallback(col: Collation): Less<ChatMessage> {
    (a, b) => FallbackLess(col, a, b)
  }

  lemma AgreeingOrder(col: Collation, chat: MessageMap, sys: MessageMap)
    requires StrictTotal(col) && Tables(chat, sys) && GraphAgrees(col, chat)
    ensures Settled(col, chat, sys)
    ensures forall a, b | a in SessionSet(col, chat, sys) && b in SessionSet(col, chat, sys) ::
              Before(col, SessionRank(col, chat))(a, b) ==> FallbackLess(col, a, b)
  {
    var rank, all := SessionRank(col, chat), SessionSet(col, chat, sys);
    forall a, b | a in all && b in all && Before(col, rank)(a, b) ensures FallbackLess(col, a, b) {
      hide SessionSet, SessionRank, GraphAgrees, FallbackLess;
      RankedMembers(col, chat, sys, a);
      RankedMembers(col, chat, sys, b);
      if a.id in rank && b.id in rank {
        RankedFallback(col, chat, a, b);
      }
    }
    hide SessionSet, SessionRank, GraphAgrees;
    forall c, d, s ensures !Sandwich(col, rank, all, c, d, s) {
      if c in all && d in all && c.id in rank && d.id in rank && rank[c.id] < rank[d.id] {
        assert Before(col, rank)(c, d);
        FallbackTotal(col, d, s, c);
        FallbackTotal(col, c, d, c);
      }
    }
  }

  /** When time and id agree with the graph, the session settles and is listed by time and id. */
  lemma AgreeingSettles(col: Collation, chat: MessageMap, sys: MessageMap)
    requires StrictTotal(col) && Tables(chat, sys) && GraphAgrees(col, chat)
    ensures Settled(col, chat, sys) && TotalOn(Before(col, SessionRank(col, chat)), SessionSet(col, chat, sys))
    ensures SortedBy(Fallback(col), SettledList(col, chat, sys))
  {
    AgreeingOrder(col, chat, sys);
    SettledIsTotal(col, chat, sys);
    hide GraphAgrees, ChatList, SessionRank, SessionSet, FallbackLess, WellKeyed, Before, Settled;
    var lt, all := Before(col, SessionRank(col, chat)), SessionSet(col, chat, sys);
    var list := SettledList(col, chat, sys);
    AscendingSorted(lt, all);
    forall i, j | 0 <= i < j < |list| ensures FallbackLess(col, list[i], list[j]) {
      assert list[i] in Elems(list) && list[j] in Elems(list);
    }
  }

  /** In particular when every known parent is below its child by time and id. */
  lemma ParentsBelowSettles(col: Collation, chat: MessageMap, sys: MessageMap)
    requires StrictTotal(col) && Tables(chat, sys) && ParentsBelow(GraphOf(NodesOf(chat)), IdLess(col, NodesOf(chat)))
    ensures Settled(col, chat, sys) && TotalOn(Before(col, SessionRank(col, chat)), SessionSet(col, chat, sys))
    ensures SortedBy(Fallback(col), SettledList(col, chat, sys))
  {
    AgreesExactly(col, chat);
    hide ParentsBelow, GraphAgrees, Settled, SettledList, SessionSet, SessionRank, TotalOn, WellKeyed;
    AgreeingSettles(col, chat, sys);
  }

  /** Clock skew between a parent and its child, with a system message timed in between, defeats the comparator. */
  lemma SkewUnsettles(col: Collation, chat: MessageMap, sys: MessageMap, x: string, p: string, k: string)
    requires StrictTotal(col) && Tables(chat, sys) && Acyclic(GraphOf(NodesOf(chat)))
    requires x in chat && p in GraphOf(NodesOf(chat))[x] && p in chat && k in sys
    requires chat[x].ts < sys[k].ts < chat[p].ts
    ensures !Settled(col, chat, sys)
  {
    hide OrderedIds, MissingSet, ChatList, GraphOf, NodesOf, Acyclic, WellKeyed, SessionRank;
    var pm := ParentRanked(col, chat, x, p);
    var xm := RankedMessage(col, chat, x);
    var pm' := RankedMessage(col, chat, p);
    var rank, all := SessionRank(col, chat), SessionSet(col, chat, sys);
    SystemNamed(sys, k);
    RankKeys(col, chat);
    assert sys[k] in all && sys[k].id !in rank;
    assert Sandwich(col, rank, all, pm', xm, sys[k]);
  }

  lemma RankedMessage(col: Collation, chat: MessageMap, x: string) returns (m: ChatMessage)
    requires StrictTotal(col) && WellKeyed(chat, Chat) && x in chat
    ensures m in ChatList(col, chat) && m.id == x && m.ts == chat[x].ts && x in SessionRank(col, chat)
  {
    hide OrderedIds, MissingSet;
    ChatListFacts(col, chat);
    var ids := OrderedIds(col, NodesOf(chat));
    RankFacts(ids);
    assert x in Elems(ids);
    var i :| 0 <= i < |ids| && ids[i] == x;
    m := ChatList(col, chat)[i];
  }

  /** Without system messages every session is settled. */
  lemma ChatOnlySettles(col: Collation, chat: MessageMap)
    requires StrictTotal(col) && WellKeyed(chat, Chat)
    ensures Tables(chat, map[]) && Settled(col, chat, map[])
  {
    hide OrderedIds, MissingSet, ChatList, SessionRank;
    forall c, d, s ensures !Sandwich(col, SessionRank(col, chat), SessionSet(col, chat, map[]), c, d, s) {
      if s in SessionSet(col, chat, map[]) {
        RankedMembers(col, chat, map[], s);
      }
    }
  }

  lemma SettledIsTotal(col: Collation, chat: MessageMap, sys: MessageMap)
    requires StrictTotal(col) && Tables(chat, sys)
    ensures TotalOn(Before(col, SessionRank(col, chat)), SessionSet(col, chat, sys)) <==> Settled(col, chat, sys)
  {
    TablesRanked(col, chat, sys);
    hide ChatList, WellKeyed, Before, SessionRank, SessionSet, Sandwich;
    ComparatorExactly(col, SessionRank(col, chat), SessionSet(col, chat, sys));
  }

  lemma TablesRanked(col: Collation, chat: MessageMap, sys: MessageMap)
    requires StrictTotal(col) && Tables(chat, sys)
    ensures OneIdEach(SessionSet(col, chat, sys)) && Ranked(SessionRank(col, chat), SessionSet(col, chat, sys))
  {
    hide OrderedIds, MissingSet, ChatList, NodesOf, RankOf;
    ChatListFacts(col, chat);
    forall k | k in sys ensures sys[k].id == k && sys[k].kind == System { SystemNamed(sys, k); }
    var ids, list := OrderedIds(col, NodesOf(chat)), ChatList(col, chat);
    assert SessionRank(col, chat) == RankOf(ids) && SessionSet(col, chat, sys) == sys.Values + Elems(list);
    assert Elems(ids) !! sys.Keys;
    hide *;
    JoinOnce(sys, list, ids);
    JoinRanked(sys, list, ids);
  }

  lemma JoinOnce(sys: MessageMap, list: seq<ChatMessage>, ids: seq<string>)
    requires |list| == |ids| && Distinct(ids) && Elems(ids) !! sys.Keys && forall i :: 0 <= i < |ids| ==> list[i].id == ids[i]
    requires forall k :: k in sys ==> sys[k].id == k
    ensures OneIdEach(sys.Values + Elems(list))
  {
    forall m | m in sys.Values ensures m.id in sys && sys[m.id] == m { var k :| k in sys && sys[k] == m; }
    forall m | m in Elems(list) ensures m.id in Elems(ids) {
      var i :| 0 <= i < |list| && list[i] == m;
      assert ids[i] in ids;
    }
    forall a, b | a in Elems(list) && b in Elems(list) && a.id == b.id ensures a == b {
      var i :| 0 <= i < |list| && list[i] == a;
      var j :| 0 <= j < |list| && list[j] == b;
      assert ids[i] == ids[j];
    }
  }

  lemma JoinRanked(sys: MessageMap, list: seq<ChatMessage>, ids: seq<string>)
    requires |list| == |ids| && Distinct(ids) && Elems(ids) !! sys.Keys
    requires forall i :: 0 <= i < |ids| ==> list[i].id == ids[i] && list[i].kind == Chat
    requires forall k :: k in sys ==> sys[k].id == k && sys[k].kind == System
    ensures Ranked(RankOf(ids), sys.Values + Elems(list))
  {
    forall m | m in sys.Values ensures m.id in sys && m.kind == System { var k :| k in sys && sys[k] == m; }
    hide Ranked, RankOf, Distinct;
    RankedUnion(sys.Values, list, ids);
  }

  // ---------- One skewed session ----------

  const A := ChatMessage("a", Host, "", "", 10.0, Chat, Some(FromHost), 0.0, [], [], None, "")
  const B := ChatMessage("b", Host, "", "", 5.0, Chat, Some(FromHost), 0.0, ["a"], [], None, "")
  const S := ChatMessage("s", Host, "", "", 7.0, System, None, 0.0, [], [], None, "")

  const CHATS: MessageMap := map["a" := A, "b" := B]
  const SYSTEM: MessageMap := map["s" := S]

  /** Chat a at time 10, chat b after it but stamped 5, a system message at 7: b before s, s before a, a before b. */
  lemma SkewedSession(col: Collation)
    requires StrictTotal(col)
    ensures Tables(CHATS, SYSTEM) && !Settled(col, CHATS, SYSTEM)
    ensures var lt := Before(col, SessionRank(col, CHATS)); lt(B, S) && lt(S, A) && lt(A, B)
  {
    hide *;
    SkewedTables();
    SkewedGraph();
    SkewedFacts();
    SkewUnsettles(col, CHATS, SYSTEM, "b", "a", "s");
    var pm := ParentRanked(col, CHATS, "b", "a");
    RankKeys(col, CHATS);
    SkewedOrder(col, SessionRank(col, CHATS));
  }

  lemma SkewedFacts()
    ensures CHATS.Keys == {"a", "b"} && SYSTEM.Keys == {"s"} && CHATS["b"].ts < SYSTEM["s"].ts < CHATS["a"].ts
  {
  }

  lemma SkewedOrder(col: Collation, rank: map<string, nat>)
    requires rank.Keys == CHATS.Keys && "a" in rank && "b" in rank && rank["a"] < rank["b"]
    ensures var lt := Before(col, rank); lt(B, S) && lt(S, A) && lt(A, B)
  {
    SkewedFacts();
  }

  lemma SkewedA()
    ensures NamedMessage(A, "a") && A.kind == Chat
  {
    assert Trim("a") == "a" && Trim("") == "";
    hide Trim;
  }

  lemma SkewedB()
    ensures NamedMessage(B, "b") && B.kind == Chat
  {
    assert Trim("a") == "a" && Trim("b") == "b" && Trim("") == "";
    hide Trim;
    assert ["a"][..0] == [];
    assert NormalizeIds(["a"]) == ["a"];
    hide NormalizeIds;
    assert NormalizeIds([]) == [] by { NormalizeIdsElems([]); }
  }

  lemma SkewedS()
    ensures NamedMessage(S, "s") && S.kind == System
  {
    assert Trim("s") == "s" && Trim("") == "";
    hide Trim;
  }

  lemma SkewedTables()
    ensures Tables(CHATS, SYSTEM) && WellKeyed(CHATS, Chat)
  {
    SkewedA();
    SkewedB();
    SkewedS();
    hide NamedMessage, A, B, S;
  }

  lemma SkewedGraph()
    ensures Acyclic(GraphOf(NodesOf(CHATS))) && "a" in GraphOf(NodesOf(CHATS))["b"]
  {
    var g := GraphOf(NodesOf(CHATS));
    SkewedParents();
    hide GraphOf, NodesOf, CHATS;
    CodeUnitTotal();
    assert CodeUnitLess("a", "b");
    assert ParentsBelow(g, CodeUnitLess);
    assert TotalOn(CodeUnitLess, g.Keys) by { hide CodeUnitLess; }
    hide CodeUnitLess, TotalOn, ParentsBelow, Acyclic;
    OrderIsPlainSort(g, CodeUnitLess);
  }

  lemma OneId()
    ensures NormalizeIds(["a"]) == ["a"] && NormalizeIds([]) == []
  {
    assert Trim("a") == "a";
    hide Trim;
    assert ["a"][..0] == [];
  }

  lemma SkewedParents()
    ensures var g := GraphOf(NodesOf(CHATS)); g.Keys == {"a", "b"} && g["a"] == {} && g["b"] == {"a"}
  {
    OneId();
    hide NormalizeIds, Trim;
    var parents := ParentsOf(NodesOf(CHATS));
    assert parents == map["a" := [], "b" := ["a"]];
    hide ParentsOf, NodesOf, CHATS;
    assert parents.Keys == {"a", "b"} && parents["a"] == [] && parents["b"] == ["a"];
    assert Elems(parents["a"]) == {} && Elems(parents["b"]) == {"a"};
    var g := KahnLoop.Known(parents);
    assert g.Keys == {"a", "b"} && g["a"] == {} && g["b"] == {"a"};
  }
}
