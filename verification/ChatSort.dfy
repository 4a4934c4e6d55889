/** When the comparator of the final sort is an order at all, and what the sorted session then is. */
module ChatSort {
  import opened Orders
  import opened Ids
  import opened ChatGraph
  import opened ChatSession

  // ---------- The comparator ----------

  ghost predicate OneIdEach(ms: set<ChatMessage>) {
    forall a, b :: a in ms && b in ms && a.id == b.id ==> a == b
  }

  /** Chat messages are exactly the ranked ones, each at its own rank. */
  ghost predicate Ranked(rank: map<string, nat>, ms: set<ChatMessage>) {
    && (forall m :: m in ms ==> (m.id in rank <==> m.kind == Chat))
    && (forall a, b :: a in ms && b in ms && a.id in rank && b.id in rank && rank[a.id] == rank[b.id] ==> a == b)
  }

  /** A system message s that time-and-id places between two chat messages which the graph orders the other way. */
  ghost predicate Sandwich(col: Collation, rank: map<string, nat>, ms: set<ChatMessage>,
                           c: ChatMessage, d: ChatMessage, s: ChatMessage)
  {
    && c in ms && d in ms && s in ms && c.id in rank && d.id in rank && s.id !in rank
    && rank[c.id] < rank[d.id] && FallbackLess(col, d, s) && FallbackLess(col, s, c)
  }

  lemma FallbackTotal(col: Collation, a: ChatMessage, b: ChatMessage, c: ChatMessage)
    requires StrictTotal(col)
    ensures !FallbackLess(col, a, a)
    ensures a.id != b.id ==> FallbackLess(col, a, b) || FallbackLess(col, b, a)
    ensures FallbackLess(col, a, b) && FallbackLess(col, b, c) ==> FallbackLess(col, a, c)
  {
  }

  lemma BeforeTransitive(col: Collation, rank: map<string, nat>, ms: set<ChatMessage>, a: ChatMessage, b: ChatMessage, c: ChatMessage)
    requires StrictTotal(col) && OneIdEach(ms) && Ranked(rank, ms) && a in ms && b in ms && c in ms
    requires forall x, y, s :: !Sandwich(col, rank, ms, x, y, s)
    requires Before(col, rank)(a, b) && Before(col, rank)(b, c)
    ensures Before(col, rank)(a, c)
  {
    FallbackTotal(col, a, b, c);
    FallbackTotal(col, a, c, b);
    FallbackTotal(col, b, c, a);
    FallbackTotal(col, c, a, b);
    FallbackTotal(col, b, a, c);
    assert !Sandwich(col, rank, ms, a, b, c);
    assert !Sandwich(col, rank, ms, b, c, a);
    assert !Sandwich(col, rank, ms, c, a, b);
  }

  /** The comparator orders the session exactly when no system message is sandwiched. */
  lemma ComparatorExactly(col: Collation, rank: map<string, nat>, ms: set<ChatMessage>)
    requires StrictTotal(col) && OneIdEach(ms) && Ranked(rank, ms)
    ensures TotalOn(Before(col, rank), ms) <==> forall c, d, s :: !Sandwich(col, rank, ms, c, d, s)
  {
    var lt := Before(col, rank);
    if forall c, d, s :: !Sandwich(col, rank, ms, c, d, s) {
      forall a, b, c | a in ms && b in ms && c in ms && lt(a, b) && lt(b, c) ensures lt(a, c) {
        BeforeTransitive(col, rank, ms, a, b, c);
      }
      forall a, b | a in ms && b in ms && a != b ensures lt(a, b) || lt(b, a) {
        FallbackTotal(col, a, b, a);
      }
      forall a | a in ms ensures !lt(a, a) {
        FallbackTotal(col, a, a, a);
      }
    } else {
      var c, d, s :| Sandwich(col, rank, ms, c, d, s);
      assert lt(c, d) && lt(d, s) && lt(s, c);
    }
  }

  // ---------- Tables of a list ----------

  lemma {:induction false} LatestHolder(ms: seq<ChatMessage>, kind: Kind, k: string) returns (i: nat)
    requires k in Latest(ms, kind)
    ensures i < |ms| && k != "" && ms[i].kind == kind && Trim(ms[i].id) == k && Latest(ms, kind)[k] == Strip(ms[i])
  {
    hide Strip, Trim;
    var n := |ms| - 1;
    if k != "" && ms[n].kind == kind && Trim(ms[n].id) == k {
      i := n;
    } else {
      i := LatestHolder(ms[..n], kind, k);
    }
  }

  lemma {:induction false} LatestHas(ms: seq<ChatMessage>, kind: Kind, i: nat)
    requires i < |ms| && ms[i].kind == kind && Trim(ms[i].id) != ""
    ensures Trim(ms[i].id) in Latest(ms, kind)
  {
    hide Strip, Trim;
    if i < |ms| - 1 {
      LatestHas(ms[..|ms| - 1], kind, i);
    }
  }

  lemma LatestPresent(ms: seq<ChatMessage>, kind: Kind, k: string)
    ensures k in Latest(ms, kind) <==> k != "" && exists m :: m in ms && m.kind == kind && Trim(m.id) == k
    ensures k in Latest(ms, kind) ==> exists m :: m in ms && m.kind == kind && Trim(m.id) == k && Latest(ms, kind)[k] == Strip(m)
  {
    hide Strip, Trim, Latest;
    if k in Latest(ms, kind) {
      var i := LatestHolder(ms, kind, k);
      assert ms[i] in ms;
    }
    if k != "" && exists m :: m in ms && m.kind == kind && Trim(m.id) == k {
      var m :| m in ms && m.kind == kind && Trim(m.id) == k;
      var i :| 0 <= i < |ms| && ms[i] == m;
      LatestHas(ms, kind, i);
    }
  }

  /** A list that shows the table: one or more copies of each entry, nothing else of that kind. */
  ghost predicate Shows(list: seq<ChatMessage>, table: MessageMap, kind: Kind) {
    && (forall m :: m in list && m.kind == kind ==> Trim(m.id) in table && Strip(m) == table[Trim(m.id)])
    && (forall k :: k in table ==> k != "" && exists m :: m in list && m.kind == kind && Trim(m.id) == k)
  }

  lemma ShownIsLatest(list: seq<ChatMessage>, table: MessageMap, kind: Kind)
    requires Shows(list, table, kind)
    ensures Latest(list, kind) == table
  {
    hide Strip, Trim;
    forall k ensures k in Latest(list, kind) <==> k in table {
      LatestPresent(list, kind, k);
    }
    forall k | k in table ensures Latest(list, kind)[k] == table[k] {
      LatestPresent(list, kind, k);
    }
  }

  lemma DecorateKeeps(m: ChatMessage, missing: set<string>, k: string)
    requires NamedMessage(m, k)
    ensures Strip(Decorate(m, missing)) == m && Trim(m.id) == k
  {
    assert Strip(m) == m;
  }

  ghost predicate Fits(m: ChatMessage, k: string, table: MessageMap, kind: Kind) {
    k in table && k != "" && m.kind == kind && m.id == k && Trim(m.id) == k && Strip(m) == table[k]
  }

  lemma ListedAt(table: MessageMap, ids: seq<string>, missing: set<string>, kind: Kind, i: nat)
    requires WellKeyed(table, kind) && Elems(ids) <= table.Keys && i < |ids|
    ensures Fits(Listed(table, ids, missing)[i], ids[i], table, kind)
  {
    hide Strip, Trim;
    assert ids[i] in Elems(ids);
    assert NamedMessage(table[ids[i]], ids[i]);
    DecorateKeeps(table[ids[i]], missing, ids[i]);
  }

  /** Listing a table and adding messages of the other kind shows the table. */
  lemma ListedShows(table: MessageMap, ids: seq<string>, missing: set<string>, kind: Kind, list: seq<ChatMessage>)
    requires WellKeyed(table, kind) && Elems(ids) == table.Keys
    requires forall m :: m in list && m.kind == kind ==> m in Listed(table, ids, missing)
    requires forall m :: m in Listed(table, ids, missing) ==> m in list
    ensures Shows(list, table, kind)
  {
    forall i | 0 <= i < |ids| ensures Fits(Listed(table, ids, missing)[i], ids[i], table, kind) {
      ListedAt(table, ids, missing, kind, i);
    }
    hide *;
    FittingShows(table, ids, kind, Listed(table, ids, missing), list);
  }

  lemma FittingShows(table: MessageMap, ids: seq<string>, kind: Kind, listed: seq<ChatMessage>, list: seq<ChatMessage>)
    requires Elems(ids) == table.Keys && |listed| == |ids|
    requires forall i :: 0 <= i < |ids| ==> Fits(listed[i], ids[i], table, kind)
    requires forall m :: m in list && m.kind == kind ==> m in listed
    requires forall m :: m in listed ==> m in list
    ensures Shows(list, table, kind)
  {
    hide Strip, Trim;
    forall m | m in list && m.kind == kind ensures Trim(m.id) in table && Strip(m) == table[Trim(m.id)] {
      var i :| 0 <= i < |listed| && listed[i] == m;
      assert Fits(listed[i], ids[i], table, kind);
    }
    forall k | k in table ensures k != "" && exists m :: m in list && m.kind == kind && Trim(m.id) == k {
      assert k in Elems(ids);
      var i :| 0 <= i < |ids| && ids[i] == k;
      assert Fits(listed[i], ids[i], table, kind);
      assert listed[i] in list;
    }
  }

  ghost function SysListed(ms: seq<ChatMessage>): seq<ChatMessage> {
    TableIdsListKeys(ms, System);
    Listed(Latest(ms, System), TableIds(ms, System), {})
  }

  lemma KindsListed(table: MessageMap, ids: seq<string>, missing: set<string>, kind: Kind)
    requires WellKeyed(table, kind) && Elems(ids) <= table.Keys
    ensures forall m :: m in Listed(table, ids, missing) ==> m.kind == kind
  {
  }

  /** Reconciling loses nothing: the tables of the result are the tables of the input. */
  lemma ReconcileKeepsTables(col: Collation, ms: seq<ChatMessage>)
    requires StrictTotal(col)
    ensures Latest(Reconcile(col, ms).messages, Chat) == Latest(ms, Chat)
    ensures Latest(Reconcile(col, ms).messages, System) == Latest(ms, System)
  {
    var chat, sys := Latest(ms, Chat), Latest(ms, System);
    LatestKeyed(ms, Chat);
    LatestKeyed(ms, System);
    TableIdsListKeys(ms, System);
    NodesKeyed(chat);
    var ids, missing := OrderedIds(col, NodesOf(chat)), MissingSet(NodesOf(chat));
    var list := Reconcile(col, ms).messages;
    assert list == Sort(Before(col, RankOf(ids)), SysListed(ms) + Listed(chat, ids, missing));
    hide Reconcile, OrderedIds, MissingSet, Latest, TableIds, WellKeyed, Listed, SysListed;
    SortElems(Before(col, RankOf(ids)), SysListed(ms) + Listed(chat, ids, missing));
    KindsListed(chat, ids, missing, Chat);
    assert SysListed(ms) == Listed(sys, TableIds(ms, System), {}) by { SysListedIs(ms); }
    KindsListed(sys, TableIds(ms, System), {}, System);
    BothShown(list, Listed(sys, TableIds(ms, System), {}), Listed(chat, ids, missing));
    ListedShows(chat, ids, missing, Chat, list);
    ListedShows(sys, TableIds(ms, System), {}, System, list);
    ShownIsLatest(list, chat, Chat);
    ShownIsLatest(list, sys, System);
  }

  lemma SysListedIs(ms: seq<ChatMessage>)
    ensures Elems(TableIds(ms, System)) <= Latest(ms, System).Keys
    ensures SysListed(ms) == Listed(Latest(ms, System), TableIds(ms, System), {})
  {
    TableIdsListKeys(ms, System);
  }

  lemma BothShown(list: seq<ChatMessage>, sys: seq<ChatMessage>, chat: seq<ChatMessage>)
    requires Elems(list) == Elems(sys + chat)
    requires forall m :: m in sys ==> m.kind == System
    requires forall m :: m in chat ==> m.kind == Chat
    ensures forall m :: m in list && m.kind == Chat ==> m in chat
    ensures forall m :: m in list && m.kind == System ==> m in sys
    ensures forall m :: m in sys || m in chat ==> m in list
  {
    assert forall m :: m in list <==> m in Elems(list);
    assert forall m :: m in Elems(sys + chat) <==> m in sys || m in chat;
  }

  // ---------- The sorted session is a function of its tables ----------

  ghost function SessionRank(col: Collation, chat: MessageMap): map<string, nat>
    requires StrictTotal(col) && WellKeyed(chat, Chat)
  {
    NodesKeyed(chat);
    RankOf(OrderedIds(col, NodesOf(chat)))
  }

  ghost function SessionSet(col: Collation, chat: MessageMap, sys: MessageMap): set<ChatMessage>
    requires StrictTotal(col) && WellKeyed(chat, Chat)
  {
    sys.Values + Elems(ChatList(col, chat))
  }

  ghost predicate Tables(chat: MessageMap, sys: MessageMap) {
    WellKeyed(chat, Chat) && WellKeyed(sys, System) && chat.Keys !! sys.Keys
  }

  /** No system message is sandwiched between two chat messages. */
  ghost predicate Settled(col: Collation, chat: MessageMap, sys: MessageMap)
    requires StrictTotal(col) && WellKeyed(chat, Chat)
  {
    forall c, d, s :: !Sandwich(col, SessionRank(col, chat), SessionSet(col, chat, sys), c, d, s)
  }

  lemma DistinctById(list: seq<ChatMessage>, ids: seq<string>)
    requires |list| == |ids| && Distinct(ids) && forall i :: 0 <= i < |ids| ==> list[i].id == ids[i]
    ensures Distinct(list) && OneIdEach(Elems(list))
  {
    forall a, b | a in Elems(list) && b in Elems(list) && a.id == b.id ensures a == b {
      var i :| 0 <= i < |list| && list[i] == a;
      var j :| 0 <= j < |list| && list[j] == b;
      assert ids[i] == ids[j];
      assert i == j;
    }
  }

  lemma RankFacts(ids: seq<string>)
    requires Distinct(ids)
    ensures RankOf(ids).Keys == Elems(ids)
    ensures forall i :: 0 <= i < |ids| ==> ids[i] in RankOf(ids) && RankOf(ids)[ids[i]] == i
  {
  }

  /** System messages apart, a list of chat messages is ranked by its ids. */
  lemma RankedUnion(sys: set<ChatMessage>, list: seq<ChatMessage>, ids: seq<string>)
    requires |list| == |ids| && Distinct(ids) && (forall i :: 0 <= i < |ids| ==> list[i].id == ids[i] && list[i].kind == Chat)
    requires forall m :: m in sys ==> m.kind == System && m.id !in Elems(ids)
    ensures Ranked(RankOf(ids), sys + Elems(list))
  {
    RankFacts(ids);
    var rank := RankOf(ids);
    hide RankOf;
    forall m | m in Elems(list) ensures m.id in Elems(ids) && m.kind == Chat {
      var i :| 0 <= i < |list| && list[i] == m;
      assert ids[i] in ids;
    }
    forall a, b | a in Elems(list) && b in Elems(list) && rank[a.id] == rank[b.id] ensures a == b {
      var i :| 0 <= i < |list| && list[i] == a;
      var j :| 0 <= j < |list| && list[j] == b;
      assert rank[ids[i]] == i && rank[ids[j]] == j;
    }
  }

  lemma RankedByIds(sys: seq<ChatMessage>, chat: seq<ChatMessage>, ids: seq<string>)
    requires |chat| == |ids| && Distinct(ids) && (forall i :: 0 <= i < |ids| ==> chat[i].id == ids[i] && chat[i].kind == Chat)
    requires forall m :: m in sys ==> m.kind == System && m.id !in Elems(ids)
    ensures Ranked(RankOf(ids), Elems(sys + chat))
  {
    assert Elems(sys + chat) == Elems(sys) + Elems(chat);
    hide Ranked, RankOf, Distinct;
    RankedUnion(Elems(sys), chat, ids);
  }

  lemma ChatListFacts(col: Collation, chat: MessageMap)
    requires StrictTotal(col) && WellKeyed(chat, Chat)
    ensures Keyed(NodesOf(chat))
    ensures var ids, list := OrderedIds(col, NodesOf(chat)), ChatList(col, chat);
      && |list| == |ids| && Distinct(ids) && Elems(ids) == chat.Keys
      && forall i :: 0 <= i < |ids| ==> list[i].id == ids[i] && list[i].kind == Chat
  {
    hide OrderedIds, MissingSet, LeafIds, MissingIds;
    NodesKeyed(chat);
    var ids, missing := OrderedIds(col, NodesOf(chat)), MissingSet(NodesOf(chat));
    assert ChatList(col, chat) == Listed(chat, ids, missing);
    hide ChatList, OrderedIds, MissingSet, NodesOf, WellKeyed, Listed, Distinct;
    ListedFacts(chat, ids, missing, Chat);
  }

  lemma ListedFacts(table: MessageMap, ids: seq<string>, missing: set<string>, kind: Kind)
    requires WellKeyed(table, kind) && Elems(ids) <= table.Keys
    ensures var list := Listed(table, ids, missing);
      |list| == |ids| && forall i :: 0 <= i < |ids| ==> list[i].id == ids[i] && list[i].kind == kind
  {
    forall i | 0 <= i < |ids| ensures var m := Listed(table, ids, missing)[i]; m.id == ids[i] && m.kind == kind {
      ListedAt(table, ids, missing, kind, i);
    }
  }

  lemma SysListFacts(ms: seq<ChatMessage>)
    ensures var ids, list := TableIds(ms, System), SysListed(ms);
      && |list| == |ids| && Distinct(ids) && Elems(ids) == Latest(ms, System).Keys
      && (forall i :: 0 <= i < |ids| ==> list[i].id == ids[i] && list[i].kind == System)
      && Elems(list) == Latest(ms, System).Values
  {
    var sys, ids, list := Latest(ms, System), TableIds(ms, System), SysListed(ms);
    TableIdsListKeys(ms, System);
    LatestKeyed(ms, System);
    forall i | 0 <= i < |ids| ensures list[i].id == ids[i] && list[i].kind == System && list[i] == sys[ids[i]] {
      ListedAt(sys, ids, {}, System, i);
      assert NamedMessage(sys[ids[i]], ids[i]);
      SystemUndecorated(sys[ids[i]], ids[i]);
    }
    forall k | k in sys ensures sys[k] in list {
      assert k in Elems(ids);
      var i :| 0 <= i < |ids| && ids[i] == k;
      assert list[i] == sys[k];
    }
  }

  lemma SystemUndecorated(m: ChatMessage, k: string)
    requires NamedMessage(m, k) && m.kind == System
    ensures Decorate(m, {}) == m
  {
    assert Strip(m) == m;
  }

  /** The list that is sorted has one message per id, ranked by the graph. */
  lemma SessionFacts(col: Collation, ms: seq<ChatMessage>)
    requires StrictTotal(col)
    requires Tables(Latest(ms, Chat), Latest(ms, System))
    ensures var chat, sys := Latest(ms, Chat), Latest(ms, System);
      var list := SysListed(ms) + ChatList(col, chat);
      && Elems(list) == SessionSet(col, chat, sys) && Distinct(list)
      && OneIdEach(Elems(list)) && Ranked(SessionRank(col, chat), Elems(list))
      && Reconcile(col, ms).messages == Sort(Before(col, SessionRank(col, chat)), list)
  {
    hide OrderedIds, MissingSet, LeafIds, MissingIds, Latest, TableIds, Sort, WellKeyed, RankOf, Before;
    var chat, sys := Latest(ms, Chat), Latest(ms, System);
    ChatListFacts(col, chat);
    SysListFacts(ms);
    var chatIds, sysIds := OrderedIds(col, NodesOf(chat)), TableIds(ms, System);
    var chatList, sysList := ChatList(col, chat), SysListed(ms);
    assert SessionRank(col, chat) == RankOf(chatIds);
    assert Reconcile(col, ms).messages == Sort(Before(col, SessionRank(col, chat)), sysList + chatList);
    assert SessionSet(col, chat, sys) == Elems(sysList) + Elems(chatList);
    hide *;
    ListsJoin(sysList, sysIds, chatList, chatIds);
  }

  lemma ListsJoin(sys: seq<ChatMessage>, sysIds: seq<string>, chat: seq<ChatMessage>, chatIds: seq<string>)
    requires |sys| == |sysIds| && |chat| == |chatIds| && Distinct(sysIds) && Distinct(chatIds) && Elems(sysIds) !! Elems(chatIds)
    requires forall i :: 0 <= i < |sysIds| ==> sys[i].id == sysIds[i] && sys[i].kind == System
    requires forall i :: 0 <= i < |chatIds| ==> chat[i].id == chatIds[i] && chat[i].kind == Chat
    ensures var list := sys + chat;
      && Elems(list) == Elems(sys) + Elems(chat) && Distinct(list)
      && OneIdEach(Elems(list)) && Ranked(RankOf(chatIds), Elems(list))
  {
    assert Elems(sys + chat) == Elems(sys) + Elems(chat);
    forall m | m in sys ensures m.kind == System && m.id !in Elems(chatIds) {
      var i :| 0 <= i < |sys| && sys[i] == m;
      assert sysIds[i] in Elems(sysIds);
    }
    hide OneIdEach, Distinct, Ranked, RankOf, Elems;
    ConcatIds(sys, sysIds, chat, chatIds);
    RankedByIds(sys, chat, chatIds);
  }

  lemma ConcatIds(a: seq<ChatMessage>, ia: seq<string>, b: seq<ChatMessage>, ib: seq<string>)
    requires |a| == |ia| && |b| == |ib| && Distinct(ia) && Distinct(ib) && Elems(ia) !! Elems(ib)
    requires forall i :: 0 <= i < |ia| ==> a[i].id == ia[i]
    requires forall i :: 0 <= i < |ib| ==> b[i].id == ib[i]
    ensures Distinct(a + b) && OneIdEach(Elems(a + b))
  {
    assert Distinct(ia + ib) by {
      assert forall i :: 0 <= i < |ia| ==> ia[i] in Elems(ia);
      assert forall i :: 0 <= i < |ib| ==> ib[i] in Elems(ib);
    }
    DistinctById(a + b, ia + ib);
  }

  /** The session a pair of tables settles into: sorted by the comparator. */
  ghost function SettledList(col: Collation, chat: MessageMap, sys: MessageMap): seq<ChatMessage>
    requires StrictTotal(col) && WellKeyed(chat, Chat)
    requires TotalOn(Before(col, SessionRank(col, chat)), SessionSet(col, chat, sys))
  {
    Ascending(Before(col, SessionRank(col, chat)), SessionSet(col, chat, sys))
  }

  lemma SettledTotal(col: Collation, ms: seq<ChatMessage>)
    requires StrictTotal(col) && Tables(Latest(ms, Chat), Latest(ms, System))
    ensures var chat, sys := Latest(ms, Chat), Latest(ms, System);
      TotalOn(Before(col, SessionRank(col, chat)), SessionSet(col, chat, sys)) <==> Settled(col, chat, sys)
  {
    var chat, sys := Latest(ms, Chat), Latest(ms, System);
    SessionFacts(col, ms);
    hide Reconcile, ChatList, SysListed, Latest, WellKeyed, Before, SessionRank, SessionSet, Sandwich;
    ComparatorExactly(col, SessionRank(col, chat), SessionSet(col, chat, sys));
  }

  /** When nothing is sandwiched, reconciling is a function of the two tables: order and repetitions of the input do not matter. */
  lemma ReconcileSettles(col: Collation, ms: seq<ChatMessage>)
    requires StrictTotal(col) && Tables(Latest(ms, Chat), Latest(ms, System))
    requires Settled(col, Latest(ms, Chat), Latest(ms, System))
    ensures var chat, sys := Latest(ms, Chat), Latest(ms, System);
      && TotalOn(Before(col, SessionRank(col, chat)), SessionSet(col, chat, sys))
      && Reconcile(col, ms).messages == SettledList(col, chat, sys)
  {
    var chat, sys := Latest(ms, Chat), Latest(ms, System);
    SettledTotal(col, ms);
    SessionFacts(col, ms);
    hide Reconcile, ChatList, SysListed, Latest, WellKeyed, Before, SessionRank, SessionSet, Settled, TotalOn;
    SortIsAscending(Before(col, SessionRank(col, chat)), SysListed(ms) + ChatList(col, chat));
  }

  /** Reconciling a settled session again changes nothing. */
  lemma ReconcileIdempotent(col: Collation, ms: seq<ChatMessage>)
    requires StrictTotal(col) && Tables(Latest(ms, Chat), Latest(ms, System))
    requires Settled(col, Latest(ms, Chat), Latest(ms, System))
    ensures Reconcile(col, Reconcile(col, ms).messages) == Reconcile(col, ms)
  {
    ReconcileKeepsTables(col, ms);
    ReconcileSettles(col, ms);
    ReconcileSettles(col, Reconcile(col, ms).messages);
  }
}
