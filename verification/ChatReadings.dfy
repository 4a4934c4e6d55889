/** What a reconciled session says, read off the messages themselves. */
module ChatReadings {
  import opened Helpers
  import opened Orders
  import opened Ids
  import opened Kahn
  import KahnLoop
  import opened ChatGraph
  import opened ChatSession
  import opened ChatSort
  import opened ChatRuns
  import opened ChatTheorems
  import ChatSend
  import ChatResend
  import CrdtVectors

  // ---------- What is kept of a message ----------

  /** k is m as it is stored, apart from its missing parents. */
  ghost predicate Tidied(k: ChatMessage, m: ChatMessage) {
    && k.text == m.text && k.sender == m.sender && k.createdAt == m.createdAt && k.ts == m.ts && k.kind == m.kind && StripOf(k.id, m.id)
    && (m.kind == System ==> k.origin == None && k.originSeq == 0.0 && k.after == [] && k.deliveryStatus == None)
    && (m.kind == Chat ==>
          && k.origin == Some(if m.origin == Some(FromMobile) then FromMobile else FromHost)
          && k.originSeq == Counter(m.originSeq) as real && k.after == NormalizeIds(m.after)
          && k.deliveryStatus == if m.sender == Host then None
             else if m.deliveryStatus in {Some(Sending), Some(Failed)} then m.deliveryStatus else Some(Sent))
    && (if k.deliveryStatus == Some(Failed) then StripOf(k.deliveryError, m.deliveryError) else k.deliveryError == "")
  }

  lemma StripTidies(m: ChatMessage, missing: seq<string>)
    ensures Tidied(Strip(m).(missingAfter := missing), m) && Strip(m).missingAfter == []
  {
    TrimExactly(m.id, Trim(m.id));
    TrimExactly(m.deliveryError, Trim(m.deliveryError));
    hide StripOf, Trim, NormalizeIds, Counter;
  }

  /** The last message of a kind with this id. */
  ghost predicate LastOf(ms: seq<ChatMessage>, kind: Kind, k: string, i: int) {
    0 <= i < |ms| && ms[i].kind == kind && k != "" && Trim(ms[i].id) == k
    && forall j :: i < j < |ms| && ms[j].kind == kind ==> Trim(ms[j].id) != k
  }

  /** A table keeps the last message of its kind for each id, and nothing else. */
  lemma {:induction false} LatestReads(ms: seq<ChatMessage>, kind: Kind, k: string)
    ensures k in Latest(ms, kind) <==> exists i :: LastOf(ms, kind, k, i)
    ensures forall i :: LastOf(ms, kind, k, i) ==> k in Latest(ms, kind) && Latest(ms, kind)[k] == Strip(ms[i])
  {
    if ms != [] {
      var n := |ms| - 1;
      LatestReads(ms[..n], kind, k);
      LastStep(ms, kind, k);
      hide Trim, Strip, LastOf;
      if ms[n].kind == kind && Trim(ms[n].id) == k && k != "" {
        assert LastOf(ms, kind, k, n);
      } else {
        assert k in Latest(ms, kind) <==> k in Latest(ms[..n], kind);
      }
    }
  }

  lemma LastStep(ms: seq<ChatMessage>, kind: Kind, k: string)
    requires ms != []
    ensures var n := |ms| - 1;
      if ms[n].kind == kind && Trim(ms[n].id) == k && k != "" then forall i :: LastOf(ms, kind, k, i) <==> i == n
      else forall i :: LastOf(ms, kind, k, i) <==> LastOf(ms[..n], kind, k, i)
    ensures forall i :: 0 <= i < |ms| - 1 ==> ms[..|ms| - 1][i] == ms[i]
    ensures var init := ms[..|ms| - 1]; forall i :: LastOf(init, kind, k, i) ==> 0 <= i < |init|
  {
    hide Trim;
  }

  // ---------- The reconciled list ----------

  /** No chat message of the list carries this id. */
  ghost predicate NotThere(ms: seq<ChatMessage>, p: string) {
    forall i :: 0 <= i < |ms| && ms[i].kind == Chat ==> Trim(ms[i].id) != p
  }

  /** Each reconciled message is the last of its id and kind, tidied, and lists as missing exactly those of its parents
      that no chat message carries. */
  lemma ReconciledReads(col: Collation, ms: seq<ChatMessage>, m: ChatMessage)
    requires StrictTotal(col) && m in Reconcile(col, ms).messages
    ensures exists i :: LastOf(ms, m.kind, m.id, i) && Tidied(m, ms[i])
    ensures forall p :: p in m.missingAfter <==> p in m.after && NotThere(ms, p)
  {
    MemberOf(col, ms, m);
    var table := Latest(ms, m.kind);
    LatestReads(ms, m.kind, m.id);
    var i :| LastOf(ms, m.kind, m.id, i);
    StripTidies(ms[i], m.missingAfter);
    assert m == table[m.id].(missingAfter := m.missingAfter) && table[m.id] == Strip(ms[i]);
    assert Tidied(m, ms[i]);
    hide Reconcile, Latest, Strip, Tidied, StripOf;
    if m.kind == Chat {
      forall p ensures p in m.missingAfter <==> p in m.after && NotThere(ms, p) { MissingHere(ms, m, p); }
    } else {
      SystemEmpty(m, ms[i]);
    }
  }

  lemma SystemEmpty(k: ChatMessage, m: ChatMessage)
    requires Tidied(k, m) && m.kind == System
    ensures k.after == []
  {
  }

  /** A listed message is its table's entry with some of its parents listed as missing. */
  lemma MemberOf(col: Collation, ms: seq<ChatMessage>, m: ChatMessage)
    requires StrictTotal(col) && m in Reconcile(col, ms).messages
    ensures m.id in Latest(ms, m.kind) && m == Latest(ms, m.kind)[m.id].(missingAfter := m.missingAfter)
    ensures m.kind == System ==> forall p :: p !in m.missingAfter
    ensures m.kind == Chat ==> forall p :: p in m.missingAfter <==> p in m.after && p in MissingSet(NodesOf(Latest(ms, Chat)))
  {
    var chat, sys := Latest(ms, Chat), Latest(ms, System);
    LatestKeyed(ms, Chat);
    LatestKeyed(ms, System);
    NodesKeyed(chat);
    TableIdsListKeys(ms, System);
    var ids, missing := OrderedIds(col, NodesOf(chat)), MissingSet(NodesOf(chat));
    var list := Listed(sys, TableIds(ms, System), {}) + Listed(chat, ids, missing);
    assert Reconcile(col, ms).messages == Sort(Before(col, RankOf(ids)), list);
    hide Reconcile, OrderedIds, MissingSet, Latest, TableIds, WellKeyed, NodesOf, Listed, RankOf, Before;
    SortElems(Before(col, RankOf(ids)), list);
    assert m in Elems(Sort(Before(col, RankOf(ids)), list));
    assert m in Elems(list);
    if m in Listed(chat, ids, missing) {
      ListedMember(chat, Chat, ids, missing, m);
    } else {
      ListedMember(sys, System, TableIds(ms, System), {}, m);
      SystemPlain(sys, m);
    }
  }

  lemma ListedMember(table: MessageMap, kind: Kind, ids: seq<string>, missing: set<string>, m: ChatMessage)
    requires WellKeyed(table, kind) && Elems(ids) <= table.Keys && m in Listed(table, ids, missing)
    ensures m.kind == kind && m.id in table && m == table[m.id].(missingAfter := m.missingAfter)
    ensures forall p :: p in m.missingAfter <==> p in m.after && p in missing
  {
    var i :| 0 <= i < |ids| && Listed(table, ids, missing)[i] == m;
    assert NamedMessage(table[ids[i]], ids[i]);
    hide Listed, Strip;
  }

  lemma SystemPlain(sys: MessageMap, m: ChatMessage)
    requires WellKeyed(sys, System) && m.id in sys && m == sys[m.id].(missingAfter := m.missingAfter)
    requires forall p :: p in m.missingAfter <==> p in m.after && p in {}
    ensures forall p :: p !in m.missingAfter
  {
  }

  lemma MissingHere(ms: seq<ChatMessage>, m: ChatMessage, p: string)
    requires m.kind == Chat && m.id in Latest(ms, Chat) && m == Latest(ms, Chat)[m.id].(missingAfter := m.missingAfter)
    ensures p in m.after && p in MissingSet(NodesOf(Latest(ms, Chat))) <==> p in m.after && NotThere(ms, p)
  {
    var chat := Latest(ms, Chat);
    LatestKeyed(ms, Chat);
    LatestPresent(ms, Chat, p);
    hide Latest;
    if p in m.after {
      assert NamedMessage(chat[m.id], m.id);
      assert NormalizeIds(m.after) == m.after && p != "" by { AfterNormal(chat[m.id], p); }
      var nodes := NodesOf(chat);
      MissingOf(nodes, m.id, p);
      assert NotThere(ms, p) <==> p !in chat;
    }
  }

  lemma AfterNormal(m: ChatMessage, p: string)
    requires m.kind == Chat && NamedMessage(m, m.id) && p in m.after
    ensures NormalizeIds(m.after) == m.after && p != ""
  {
    assert Strip(m) == m;
    NormalizeIdsElems(m.after);
    hide Trim;
  }

  lemma MissingOf(nodes: NodeMap, x: string, p: string)
    requires x in nodes && p in NormalizeIds(nodes[x].after)
    ensures p in MissingSet(nodes) <==> p !in nodes
  {
    var parents := ParentsOf(nodes);
    hide NormalizeIds;
    assert parents.Keys == nodes.Keys && parents[x] == NormalizeIds(nodes[x].after);
    hide ParentsOf;
    assert p !in nodes ==> p in KahnLoop.Missing(parents);
  }

  // ---------- Order by time ----------

  ghost predicate Names(chat: MessageMap, k: string, p: string) {
    k in chat && p in NormalizeIds(chat[k].after)
  }

  /** Every known parent has an earlier time than its child. */
  ghost predicate TimesRise(chat: MessageMap) {
    forall k, p :: Names(chat, k, p) && p in chat ==> chat[p].ts < chat[k].ts
  }

  lemma ParentIs(chat: MessageMap, k: string, p: string)
    ensures var nodes := NodesOf(chat); nodes.Keys == chat.Keys == GraphOf(nodes).Keys == ParentsOf(nodes).Keys
    ensures k in chat ==> (p in ParentsOf(NodesOf(chat))[k] <==> Names(chat, k, p)) && (p in GraphOf(NodesOf(chat))[k] <==> p in chat && Names(chat, k, p))
    ensures Names(chat, k, p) ==> k in chat
  {
    hide NormalizeIds;
  }

  lemma RisingBelow(col: Collation, chat: MessageMap)
    requires StrictTotal(col) && WellKeyed(chat, Chat) && TimesRise(chat)
    ensures ParentsBelow(GraphOf(NodesOf(chat)), IdLess(col, NodesOf(chat)))
  {
    var nodes := NodesOf(chat);
    var g, lt := GraphOf(nodes), IdLess(col, nodes);
    hide GraphOf, NodesOf, WellKeyed, Names, StrictTotal, ParentsOf, IdLess, NodeLess;
    forall x, y | x in g && y in g[x] ensures lt(y, x) {
      ParentIs(chat, x, y);
      RiseLess(col, chat, y, x);
      hide TimesRise;
    }
  }

  lemma RiseLess(col: Collation, chat: MessageMap, y: string, x: string)
    requires TimesRise(chat) && Names(chat, x, y) && y in chat
    ensures IdLess(col, NodesOf(chat))(y, x)
  {
    hide NormalizeIds;
  }

  /** The earlier time first, and the smaller id for one time. */
  ghost predicate ByTime(col: Collation, list: seq<ChatMessage>) {
    forall i, j :: 0 <= i < j < |list| ==> list[i].ts < list[j].ts || (list[i].ts == list[j].ts && col(list[i].id, list[j].id))
  }

  /** When times rise from parent to child, the reconciled list is in order of time, system messages included. */
  lemma ReconciledByTime(col: Collation, ms: seq<ChatMessage>)
    requires StrictTotal(col) && Tables(Latest(ms, Chat), Latest(ms, System)) && TimesRise(Latest(ms, Chat))
    ensures ByTime(col, Reconcile(col, ms).messages)
  {
    hide Reconcile, Latest, WellKeyed, TimesRise, ParentsBelow, Settled, SettledList, TotalOn;
    RisingBelow(col, Latest(ms, Chat));
    ParentsBelowSettles(col, Latest(ms, Chat), Latest(ms, System));
    ReconcileSettles(col, ms);
    FallbackByTime(col, Reconcile(col, ms).messages);
  }

  lemma FallbackByTime(col: Collation, list: seq<ChatMessage>)
    requires SortedBy(Fallback(col), list)
    ensures ByTime(col, list)
  {
    var lt := Fallback(col);
    forall i, j | 0 <= i < j < |list| ensures list[i].ts < list[j].ts || (list[i].ts == list[j].ts && col(list[i].id, list[j].id)) {
      assert lt(list[i], list[j]);
    }
  }

  // ---------- Leaves and missing ids ----------

  /** A leaf is a stored message that no stored one names; a missing id is named by a stored message and not stored. */
  lemma LeavesAndMissing(col: Collation, chat: MessageMap, id: string)
    requires StrictTotal(col) && WellKeyed(chat, Chat) && Keyed(NodesOf(chat))
    ensures id in LeafIds(col, NodesOf(chat)) <==> id in chat && forall k :: !Names(chat, k, id)
    ensures id in MissingIds(NodesOf(chat)) <==> id !in chat && exists k :: Names(chat, k, id)
  {
    hide *;
    LeafRead(col, chat, id);
    MissingRead(chat, id);
  }

  lemma LeafRead(col: Collation, chat: MessageMap, id: string)
    requires StrictTotal(col) && Keyed(NodesOf(chat))
    ensures id in LeafIds(col, NodesOf(chat)) <==> id in chat && forall k :: !Names(chat, k, id)
  {
    IdLessTotal(col, NodesOf(chat));
    assert LeafIds(col, NodesOf(chat)) == Leaves(GraphOf(NodesOf(chat)), IdLess(col, NodesOf(chat)));
    hide *;
    LeavesExactly(GraphOf(NodesOf(chat)), IdLess(col, NodesOf(chat)), id);
    LeafIs(chat, id);
  }

  lemma LeafIs(chat: MessageMap, id: string)
    ensures IsLeaf(GraphOf(NodesOf(chat)), id) <==> id in chat && forall k :: !Names(chat, k, id)
  {
    var g := GraphOf(NodesOf(chat));
    hide GraphOf, Names, ParentsOf, NodesOf;
    forall k ensures (Names(chat, k, id) ==> k in chat) && (k in chat && id in chat ==> k in g && (id in g[k] <==> Names(chat, k, id))) {
      ParentIs(chat, k, id);
    }
    ParentIs(chat, id, id);
  }

  lemma MissingRead(chat: MessageMap, id: string)
    ensures id in MissingIds(NodesOf(chat)) <==> id !in chat && exists k :: Names(chat, k, id)
  {
    var parents := ParentsOf(NodesOf(chat));
    CodeUnitTotal();
    AscendingSorted(CodeUnitLess, MissingSet(NodesOf(chat)));
    assert id in MissingIds(NodesOf(chat)) <==> id in Elems(MissingIds(NodesOf(chat)));
    ParentIs(chat, id, id);
    hide GraphOf, Names, ParentsOf, NodesOf, CodeUnitLess;
    forall k ensures (Names(chat, k, id) ==> k in chat) && (k in parents ==> (id in parents[k] <==> Names(chat, k, id))) {
      ParentIs(chat, k, id);
    }
  }

  /** Missing ids come in ascending code-unit order. */
  lemma MissingAscend(nodes: NodeMap, i: nat, j: nat)
    requires i < j < |MissingIds(nodes)|
    ensures exists k: nat :: SmallerAt(MissingIds(nodes)[i], MissingIds(nodes)[j], k)
  {
    CodeUnitTotal();
    AscendingSorted(CodeUnitLess, MissingSet(nodes));
    CodeUnitExactly(MissingIds(nodes)[i], MissingIds(nodes)[j]);
    hide CodeUnitLess, MissingSet, SmallerAt;
  }

  // ---------- Upserts ----------

  /** An upsert counts as an insertion exactly when no stored message carries the incoming id. */
  lemma InsertedExactly(col: Collation, current: seq<ChatMessage>, next: ChatMessage)
    requires StrictTotal(col)
    ensures Upsert(col, current, next).inserted <==> forall i :: 0 <= i < |current| ==> Trim(current[i].id) != Trim(next.id)
  {
    hide Trim, Reconcile, Except, Without;
    if exists m :: m in current && Trim(m.id) == Trim(next.id) {
      var m :| m in current && Trim(m.id) == Trim(next.id);
      var i :| 0 <= i < |current| && current[i] == m;
    }
    assert forall i :: 0 <= i < |current| ==> current[i] in current;
  }

  /** The last message of a run with this id. */
  ghost predicate LastSent(run: seq<ChatMessage>, k: string, i: int) {
    0 <= i < |run| && k != "" && Trim(run[i].id) == k && forall j :: i < j < |run| ==> Trim(run[j].id) != k
  }

  /** A run of upserts keeps the last message of each id, in the table of its kind. */
  lemma {:induction false} TableReads(run: seq<ChatMessage>, kind: Kind, k: string)
    ensures k in Table(run, kind) <==> exists i :: LastSent(run, k, i) && run[i].kind == kind
    ensures forall i :: LastSent(run, k, i) && run[i].kind == kind ==> k in Table(run, kind) && Table(run, kind)[k] == Strip(run[i])
  {
    if run != [] {
      var n := |run| - 1;
      TableReads(run[..n], kind, k);
      SentStep(run, k);
      hide Trim, Strip, LastSent;
      if Trim(run[n].id) == k && k != "" {
        assert LastSent(run, k, n);
      } else {
        assert k in Table(run, kind) <==> k in Table(run[..n], kind);
      }
    }
  }

  lemma SentStep(run: seq<ChatMessage>, k: string)
    requires run != []
    ensures var n := |run| - 1;
      if Trim(run[n].id) == k && k != "" then forall i :: LastSent(run, k, i) <==> i == n
      else forall i :: LastSent(run, k, i) <==> LastSent(run[..n], k, i)
    ensures forall i :: 0 <= i < |run| - 1 ==> run[..|run| - 1][i] == run[i]
    ensures var init := run[..|run| - 1]; forall i :: LastSent(init, k, i) ==> 0 <= i < |init|
  {
    hide Trim;
  }

  // ---------- Sequence numbers ----------

  /** A chat message of the phone: labelled so, or unlabelled and sent from here. */
  predicate FromPhone(m: ChatMessage) {
    m.kind == Chat && (m.origin == Some(FromMobile) || (m.origin == None && m.sender == Self))
  }

  /** The next number of the phone is one more than the greatest whole number its messages carry, or one. */
  lemma NextPhoneSeq(messages: seq<ChatMessage>)
    ensures var n := ChatSend.NextOriginSeq(messages, FromMobile);
      && n >= 1 && (forall m :: m in messages && FromPhone(m) ==> m.originSeq < n as real)
      && (n > 1 ==> exists m :: m in messages && FromPhone(m) && (n - 1) as real <= m.originSeq)
  {
    ChatSend.NextSeqExceeds(messages, FromMobile);
    var n := ChatSend.NextOriginSeq(messages, FromMobile);
    forall m | m in messages && FromPhone(m) ensures m.originSeq < n as real { assert ChatSend.CountsFor(m, FromMobile); }
    if n > 1 {
      var m :| m in messages && ChatSend.CountsFor(m, FromMobile) && ChatSend.Trunc(m.originSeq) + 1 == n;
      assert FromPhone(m) && (n - 1) as real <= m.originSeq;
    }
    hide ChatSend.NextOriginSeq;
  }

  predicate Carries(m: ChatMessage, origin: Origin, n: nat) {
    m.kind == Chat && Trim(m.id) != "" && (m.origin == Some(FromMobile) <==> origin == FromMobile) && Counter(m.originSeq) == n
  }

  /** The numbers a phone reports on are those of stored chat messages labelled with the origin, host being the default. */
  lemma HeldReads(messages: seq<ChatMessage>, origin: Origin, n: nat)
    ensures n in ChatResend.Held(messages, origin) <==> n > 0 && exists m :: m in messages && Carries(m, origin, n)
  {
    hide Trim, Counter;
    forall m ensures ChatResend.Counts(m, origin) <==>
      m.kind == Chat && Trim(m.id) != "" && (m.origin == Some(FromMobile) <==> origin == FromMobile) && Counter(m.originSeq) > 0
    {
    }
    hide ChatResend.Counts;
  }

  /** Sent again are the phone's own chat messages with a whole number above the reported one. */
  lemma ResendReads(messages: seq<ChatMessage>, mobileSeq: real, m: ChatMessage)
    ensures m in ChatResend.Resend(messages, mobileSeq)
      <==> m in messages && m.kind == Chat && m.sender == Self && m.originSeq >= (Counter(mobileSeq) + 1) as real
  {
    ChatResend.ResendExactly(messages, mobileSeq, m);
    hide ChatResend.Resend;
  }
}
