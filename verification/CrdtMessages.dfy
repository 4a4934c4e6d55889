/** materializeCrdtMessages: one message per message id, won by the causally earliest create. */
module CrdtMessages {
  import opened Orders
  import opened Ids
  import opened Kahn
  import opened CrdtOps
  import opened CrdtAnalysis

  const MESSAGE_CREATE := "message.create"

  datatype Message = Message(
    messageId: string, opId: string, conversationId: string, authorDeviceId: string, authorEntityType: string,
    authorSeq: nat, hlc: string, text: string, parts: seq<string>, clientNonce: string,
    parents: seq<string>, signedAt: nat)

  function MessageIdOf(op: Op): string {
    Trim(op.payload.messageId)
  }

  predicate Creates(op: Op) {
    op.kind == MESSAGE_CREATE && MessageIdOf(op) != ""
  }

  function MessageOf(op: Op): Message {
    Message(MessageIdOf(op), op.opId, op.conversationId, op.authorDeviceId, op.authorEntityType, SeqOf(op), op.hlc,
            op.payload.text, op.payload.parts, Trim(op.payload.clientNonce), NormalizeIds(op.parents), Counter(op.signedAt))
  }

  function MessagesOf(ops: seq<Op>): seq<Message> {
    seq(|ops|, i requires 0 <= i < |ops| => MessageOf(ops[i]))
  }

  /** The first create of each message id, in the given order. */
  function Winners(order: seq<Op>): seq<Op> {
    if order == [] then [] else
      var won, op := Winners(order[..|order| - 1]), order[|order| - 1];
      if Creates(op) && !Taken(won, MessageIdOf(op)) then won + [op] else won
  }

  /** `messages.has(messageId)`. */
  predicate Taken(won: seq<Op>, id: string) {
    exists i :: 0 <= i < |won| && MessageIdOf(won[i]) == id
  }

  function CompareOps(col: Collation): Less<Op> {
    (a, b) => OpLess(col, a, b)
  }

  ghost function Materialized(col: Collation, byId: OpMap): seq<Message>
    requires StrictTotal(col) && Keyed(byId)
  {
    MessagesOf(Sort(CompareOps(col), Winners(OrderedOps(col, byId))))
  }

  method MaterializeCrdtMessages(col: Collation, ops: seq<Op>) returns (messages: seq<Message>)
    requires StrictTotal(col)
    ensures Keyed(FirstById(ops)) && messages == Materialized(col, FirstById(ops))
  {
    var analysis := AnalyzeCrdtOps(col, ops);
    var order := analysis.orderedOps;
    var won := PickWinners(order);
    messages := MessagesOf(Sort(CompareOps(col), won));
  }

  method PickWinners(order: seq<Op>) returns (won: seq<Op>)
    ensures won == Winners(order)
  {
    won := [];
    for i := 0 to |order|
      invariant won == Winners(order[..i])
    {
      assert order[..i + 1][..i] == order[..i];
      var op := order[i];
      if op.kind == MESSAGE_CREATE && MessageIdOf(op) != "" && !Taken(won, MessageIdOf(op)) {
        won := won + [op];
      }
    }
    assert order[..|order|] == order;
  }

  /** w is a create of its message id and no operation before position i is. */
  ghost predicate FirstCreate(order: seq<Op>, i: int) {
    && 0 <= i < |order| && Creates(order[i])
    && forall j :: 0 <= j < i && Creates(order[j]) ==> MessageIdOf(order[j]) != MessageIdOf(order[i])
  }

  lemma {:induction false} WinnerIsFirst(order: seq<Op>, p: nat) returns (i: nat)
    requires p < |Winners(order)|
    ensures FirstCreate(order, i) && order[i] == Winners(order)[p]
  {
    hide Trim, Creates;
    var n := |order| - 1;
    if p < |Winners(order[..n])| {
      i := WinnerIsFirst(order[..n], p);
    } else {
      i := n;
      forall j | 0 <= j < n && Creates(order[j]) ensures MessageIdOf(order[j]) != MessageIdOf(order[n]) {
        HasWinner(order[..n], j);
      }
    }
  }

  lemma {:induction false} HasWinner(order: seq<Op>, i: nat)
    requires i < |order| && Creates(order[i])
    ensures Taken(Winners(order), MessageIdOf(order[i]))
  {
    hide Trim, Creates;
    var n := |order| - 1;
    if i < n {
      HasWinner(order[..n], i);
      var w := Winners(order[..n]);
      var k :| 0 <= k < |w| && MessageIdOf(w[k]) == MessageIdOf(order[i]);
      assert Winners(order)[k] == w[k];
    } else if !Taken(Winners(order[..n]), MessageIdOf(order[n])) {
      var k := |Winners(order[..n])|;
      assert Winners(order)[k] == order[n];
    }
  }

  lemma {:induction false} WinnersDistinct(order: seq<Op>, p: nat, q: nat)
    requires p < q < |Winners(order)|
    ensures MessageIdOf(Winners(order)[p]) != MessageIdOf(Winners(order)[q])
  {
    hide Trim, Creates;
    var n := |order| - 1;
    if q < |Winners(order[..n])| {
      WinnersDistinct(order[..n], p, q);
    } else {
      assert Winners(order)[p] == Winners(order[..n])[p];
    }
  }

  lemma WinnerExactly(order: seq<Op>, op: Op)
    ensures op in Winners(order) <==> exists i :: FirstCreate(order, i) && order[i] == op
  {
    if op in Winners(order) {
      var p :| 0 <= p < |Winners(order)| && Winners(order)[p] == op;
      var i := WinnerIsFirst(order, p);
    }
    if exists i :: FirstCreate(order, i) && order[i] == op {
      var i :| FirstCreate(order, i) && order[i] == op;
      FirstCreateWins(order, i);
    }
  }

  lemma {:induction false} FirstCreateWins(order: seq<Op>, i: int)
    requires FirstCreate(order, i)
    ensures order[i] in Winners(order)
  {
    hide Trim, Creates;
    var n := |order| - 1;
    if i < n {
      assert FirstCreate(order[..n], i);
      FirstCreateWins(order[..n], i);
    } else {
      NotTakenYet(order, n, MessageIdOf(order[n]));
    }
  }

  lemma NotTakenYet(order: seq<Op>, n: nat, id: string)
    requires n <= |order| && forall j :: 0 <= j < n && Creates(order[j]) ==> MessageIdOf(order[j]) != id
    ensures !Taken(Winners(order[..n]), id)
  {
    hide Trim, Creates;
    var w := Winners(order[..n]);
    forall p | 0 <= p < |w| ensures MessageIdOf(w[p]) != id {
      var i := WinnerIsFirst(order[..n], p);
      assert Creates(order[i]) by { CreatesFirst(order[..n], i); }
    }
  }

  lemma CreatesFirst(order: seq<Op>, i: nat)
    requires FirstCreate(order, i)
    ensures Creates(order[i])
  {
  }

  lemma WinnersNoRepeat(order: seq<Op>)
    ensures Distinct(Winners(order))
  {
    forall p, q | 0 <= p < q < |Winners(order)| ensures Winners(order)[p] != Winners(order)[q] {
      WinnersDistinct(order, p, q);
    }
  }

  // ---------- Theorems ----------

  /** The messages are exactly the causally first creates, one for each message id. */
  lemma MessagesExactly(col: Collation, byId: OpMap)
    requires StrictTotal(col) && Keyed(byId)
    ensures var o, ms := OrderedOps(col, byId), Materialized(col, byId);
      && (forall m :: m in ms <==> exists i :: FirstCreate(o, i) && m == MessageOf(o[i]))
      && (forall p, q :: 0 <= p < q < |ms| ==> ms[p].messageId != ms[q].messageId)
  {
    assert Materialized(col, byId) == MessagesOf(Sort(CompareOps(col), Winners(OrderedOps(col, byId))));
    hide *;
    ListsFirstCreates(col, OrderedOps(col, byId));
  }

  lemma ListsFirstCreates(col: Collation, o: seq<Op>)
    ensures var ms := MessagesOf(Sort(CompareOps(col), Winners(o)));
      && (forall m :: m in ms <==> exists i :: FirstCreate(o, i) && m == MessageOf(o[i]))
      && (forall p, q :: 0 <= p < q < |ms| ==> ms[p].messageId != ms[q].messageId)
  {
    var w := Winners(o);
    var t := Sort(CompareOps(col), w);
    SortElems(CompareOps(col), w);
    forall m ensures m in MessagesOf(t) <==> exists i :: FirstCreate(o, i) && m == MessageOf(o[i]) {
      hide Winners, Sort, MessageOf, FirstCreate;
      MessageSource(o, t, m);
    }
    forall p, q | 0 <= p < q < |t| ensures MessageIdOf(t[p]) != MessageIdOf(t[q]) {
      SortedApart(col, o, p, q);
    }
  }

  lemma MessageSource(o: seq<Op>, t: seq<Op>, m: Message)
    requires Elems(t) == Elems(Winners(o))
    ensures m in MessagesOf(t) <==> exists i :: FirstCreate(o, i) && m == MessageOf(o[i])
  {
    hide Winners, MessageOf, Trim, Creates;
    if m in MessagesOf(t) {
      var p :| 0 <= p < |t| && MessagesOf(t)[p] == m;
      assert t[p] in Elems(t);
      WinnerExactly(o, t[p]);
    }
    if exists i :: FirstCreate(o, i) && m == MessageOf(o[i]) {
      var i :| FirstCreate(o, i) && m == MessageOf(o[i]);
      WinnerExactly(o, o[i]);
      assert o[i] in Elems(t);
      var p :| 0 <= p < |t| && t[p] == o[i];
      assert MessagesOf(t)[p] == m;
    }
  }

  lemma SortedApart(col: Collation, o: seq<Op>, p: nat, q: nat)
    requires p < q < |Sort(CompareOps(col), Winners(o))|
    ensures var t := Sort(CompareOps(col), Winners(o)); MessageIdOf(t[p]) != MessageIdOf(t[q])
  {
    var w, t := Winners(o), Sort(CompareOps(col), Winners(o));
    SortElems(CompareOps(col), w);
    WinnersNoRepeat(o);
    DistinctCount(w);
    NoRepeatByCount(t);
    assert t[p] in Elems(w) && t[q] in Elems(w);
    var i :| 0 <= i < |w| && w[i] == t[p];
    var j :| 0 <= j < |w| && w[j] == t[q];
    if i < j { WinnersDistinct(o, i, j); } else { WinnersDistinct(o, j, i); }
  }

  /** The messages depend on the set of operations only. */
  lemma MessagesConverge(col: Collation, o1: seq<Op>, o2: seq<Op>)
    requires StrictTotal(col) && Elems(o1) == Elems(o2) && Consistent(Elems(o1))
    ensures Keyed(FirstById(o1)) && Keyed(FirstById(o2))
    ensures Materialized(col, FirstById(o1)) == Materialized(col, FirstById(o2))
  {
    FirstByIdKeyed(o1);
    SameSetSameMap(o1, o2);
  }

  /** On an acyclic history a create that descends from another create of its message id never wins. */
  lemma DescendantNeverWins(col: Collation, byId: OpMap, x: string, y: string)
    requires StrictTotal(col) && Keyed(byId) && Acyclic(GraphOf(byId))
    requires x in byId && y in byId && x != y && AncestorOrSelf(GraphOf(byId), y, x)
    requires Creates(byId[x]) && Creates(byId[y]) && MessageIdOf(byId[x]) == MessageIdOf(byId[y])
    ensures byId[x] !in Winners(OrderedOps(col, byId))
  {
    var o := OrderedOps(col, byId);
    forall i | 0 <= i < |o| && o[i] == byId[x] ensures !FirstCreate(o, i) {
      var j := AncestorAt(col, byId, x, y, i);
      hide OrderedOps;
      NotFirst(o, j, i);
    }
    hide *;
    NeverFirst(o, byId[x]);
  }

  lemma NeverFirst(o: seq<Op>, op: Op)
    requires forall i :: 0 <= i < |o| && o[i] == op ==> !FirstCreate(o, i)
    ensures op !in Winners(o)
  {
    WinnerExactly(o, op);
  }

  lemma AncestorAt(col: Collation, byId: OpMap, x: string, y: string, i: nat) returns (j: nat)
    requires StrictTotal(col) && Keyed(byId) && Acyclic(GraphOf(byId))
    requires x in byId && y in byId && x != y && AncestorOrSelf(GraphOf(byId), y, x)
    requires i < |OrderedOps(col, byId)| && OrderedOps(col, byId)[i] == byId[x]
    ensures j < i && OrderedOps(col, byId)[j] == byId[y]
  {
    var ids := OrderedIds(col, byId);
    assert ids[i] == x by { assert NamedOp(byId[ids[i]], ids[i]) && NamedOp(byId[x], x); }
    IdLessTotal(col, byId);
    assert Earlier(ids, y, i) by {
      hide IdLess, TotalOn, Acyclic, AncestorOrSelf, Keyed;
      AncestorsFirst(GraphOf(byId), IdLess(col, byId), y, x, i);
    }
    j :| 0 <= j < i && j < |ids| && ids[j] == y;
  }

  lemma NotFirst(o: seq<Op>, j: nat, i: nat)
    requires j < i < |o| && Creates(o[j]) && MessageIdOf(o[j]) == MessageIdOf(o[i])
    ensures !FirstCreate(o, i)
  {
  }

  /** When clocks never run behind a parent, the final sort keeps the causal order it is given. */
  lemma ResortIsCausal(col: Collation, byId: OpMap)
    requires StrictTotal(col) && Keyed(byId) && ParentsBelow(GraphOf(byId), IdLess(col, byId))
    ensures Materialized(col, byId) == MessagesOf(Winners(OrderedOps(col, byId)))
    ensures ParentsFirst(GraphOf(byId), OrderedIds(col, byId))
  {
    IdLessTotal(col, byId);
    assert ParentsFirst(GraphOf(byId), OrderedIds(col, byId)) by {
      OrderIsPlainSort(GraphOf(byId), IdLess(col, byId));
      OrderIsCausal(col, byId);
    }
    var o := OrderedOps(col, byId);
    OrderSorted(col, byId);
    assert TotalOn(CompareOps(col), Elems(o)) by {
      OrderedOpsPermute(col, byId);
      OpsTotal(col, byId);
    }
    assert Materialized(col, byId) == MessagesOf(Sort(CompareOps(col), Winners(o)));
    hide *;
    SortedWinners(col, o);
    WinnersListed(o);
    TotalOnSubset(CompareOps(col), Elems(o), Elems(Winners(o)));
    SortKeeps(CompareOps(col), Winners(o));
  }

  /** Among these operations every ancestor compares below its descendant. */
  ghost predicate AncestorsBelow(col: Collation, byId: OpMap, ops: set<Op>) {
    forall a, b | a in ops && b in ops && a != b && AncestorOrSelf(GraphOf(byId), a.opId, b.opId) :: OpLess(col, a, b)
  }

  /** Every ancestor stands before its descendant. */
  ghost predicate AncestorsBefore(byId: OpMap, list: seq<Op>) {
    forall p, q | 0 <= p < |list| && 0 <= q < |list| && p != q && AncestorOrSelf(GraphOf(byId), list[p].opId, list[q].opId) :: p < q
  }

  /** The final sort lists the winners causally exactly when each winner's winning ancestors compare below it. */
  lemma ResortExactly(col: Collation, byId: OpMap)
    requires StrictTotal(col) && Keyed(byId)
    ensures var w := Winners(OrderedOps(col, byId)); var t := Sort(CompareOps(col), w);
      Materialized(col, byId) == MessagesOf(t) && (AncestorsBefore(byId, t) <==> AncestorsBelow(col, byId, Elems(w)))
  {
    var o := OrderedOps(col, byId);
    assert TotalOn(CompareOps(col), Elems(o)) by {
      OrderedOpsPermute(col, byId);
      OpsTotal(col, byId);
    }
    assert Materialized(col, byId) == MessagesOf(Sort(CompareOps(col), Winners(o)));
    var w := Winners(o);
    hide OrderedOps, Materialized, MessagesOf, Winners, AncestorsBefore, AncestorsBelow, Keyed, StrictTotal, TotalOn;
    WinnersListed(o);
    TotalOnSubset(CompareOps(col), Elems(o), Elems(w));
    WinnersNoRepeat(o);
    SortSorted(CompareOps(col), w);
    SortElems(CompareOps(col), w);
    SortedCausally(col, byId, Elems(w), Sort(CompareOps(col), w));
  }

  lemma SortedCausally(col: Collation, byId: OpMap, w: set<Op>, t: seq<Op>)
    requires TotalOn(CompareOps(col), w) && Elems(t) == w && SortedBy(CompareOps(col), t)
    ensures AncestorsBefore(byId, t) <==> AncestorsBelow(col, byId, w)
  {
    hide GraphOf, AncestorOrSelf, OpLess;
    var lt := CompareOps(col);
    assert forall p :: 0 <= p < |t| ==> t[p] in w by { assert forall p :: 0 <= p < |t| ==> t[p] in Elems(t); }
    forall p, q | 0 <= p < |t| && 0 <= q < |t| && p != q ensures t[p] != t[q] && (lt(t[p], t[q]) <==> p < q) {
      assert (p < q ==> lt(t[p], t[q])) && (q < p ==> lt(t[q], t[p])) && !lt(t[p], t[p]);
    }
    if AncestorsBefore(byId, t) {
      forall a, b | a in w && b in w && a != b && AncestorOrSelf(GraphOf(byId), a.opId, b.opId) ensures OpLess(col, a, b) {
        assert a in Elems(t) && b in Elems(t);
        var p :| 0 <= p < |t| && t[p] == a;
        var q :| 0 <= q < |t| && t[q] == b;
        assert lt(a, b);
      }
    }
    if AncestorsBelow(col, byId, w) {
      forall p, q | 0 <= p < |t| && 0 <= q < |t| && p != q && AncestorOrSelf(GraphOf(byId), t[p].opId, t[q].opId) ensures p < q {
        assert OpLess(col, t[p], t[q]);
      }
    }
  }

  lemma OrderSorted(col: Collation, byId: OpMap)
    requires StrictTotal(col) && Keyed(byId) && ParentsBelow(GraphOf(byId), IdLess(col, byId))
    ensures SortedBy(CompareOps(col), OrderedOps(col, byId))
  {
    var lt, g := IdLess(col, byId), GraphOf(byId);
    IdLessTotal(col, byId);
    var ids, o := OrderedIds(col, byId), OrderedOps(col, byId);
    assert SortedBy(lt, ids) by {
      hide IdLess, ParentsBelow, TotalOn;
      OrderIsPlainSort(g, lt);
      AscendingSorted(lt, g.Keys);
    }
    forall i, j | 0 <= i < j < |o| ensures OpLess(col, o[i], o[j]) {
      assert lt(ids[i], ids[j]);
    }
  }

  lemma {:induction false} WinnersListed(o: seq<Op>)
    ensures Elems(Winners(o)) <= Elems(o)
  {
    hide Creates, Taken;
    if o != [] {
      var init, last := o[..|o| - 1], o[|o| - 1];
      WinnersListed(init);
      assert o == init + [last];
      Snoc(init, last);
      Snoc(Winners(init), last);
    }
  }

  lemma {:induction false} SortedWinners(col: Collation, o: seq<Op>)
    requires SortedBy(CompareOps(col), o)
    ensures SortedBy(CompareOps(col), Winners(o))
  {
    hide Creates, OpLess, Taken;
    if o != [] {
      var init, last := o[..|o| - 1], o[|o| - 1];
      SortedWinners(col, init);
      WinnersListed(init);
      var w := Winners(init);
      forall p | 0 <= p < |w| ensures CompareOps(col)(w[p], last) {
        assert w[p] in Elems(init);
        var i :| 0 <= i < |init| && init[i] == w[p];
        assert o[i] == w[p];
      }
    }
  }

  lemma OpsTotal(col: Collation, byId: OpMap)
    requires StrictTotal(col) && Keyed(byId)
    ensures TotalOn(CompareOps(col), byId.Values)
  {
    var lt := CompareOps(col);
    forall a, b, c | lt(a, b) && lt(b, c) ensures lt(a, c) {
      OpLessTransitive(col, a, b, c);
    }
    forall a ensures !lt(a, a) {
      OpLessConnected(col, a, a);
    }
    forall a, b | a in byId.Values && b in byId.Values && a != b ensures lt(a, b) || lt(b, a) {
      var j :| j in byId && byId[j] == a;
      var k :| k in byId && byId[k] == b;
      assert NamedOp(byId[j], j) && NamedOp(byId[k], k);
      OpLessConnected(col, a, b);
    }
  }
}
