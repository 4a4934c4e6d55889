/** What an analysis, a batch and a message list say, read off the operations themselves. */
module CrdtReadings {
  import opened Helpers
  import opened Orders
  import opened Ids
  import opened Kahn
  import KahnLoop
  import opened CrdtOps
  import opened CrdtVectors
  import opened CrdtAnalysis
  import opened CrdtMessages
  import opened CrdtSync
  import opened CrdtSyncTheorems

  // ---------- Which of two operations comes first ----------

  /** a may stand before b: its clock is not later; for one clock its author is not later; for one author its number is not
      greater; and for one number its id is the earlier one. */
  ghost predicate InTurn(col: Collation, a: Op, b: Op) {
    && !col(b.hlc, a.hlc)
    && (a.hlc == b.hlc ==> !col(b.authorDeviceId, a.authorDeviceId))
    && (a.hlc == b.hlc && a.authorDeviceId == b.authorDeviceId ==> Counter(a.authorSeq) <= Counter(b.authorSeq))
    && (a.hlc == b.hlc && a.authorDeviceId == b.authorDeviceId && Counter(a.authorSeq) == Counter(b.authorSeq) ==> col(a.opId, b.opId))
  }

  lemma LessIsInTurn(col: Collation, a: Op, b: Op)
    requires StrictTotal(col) && a.opId != b.opId
    ensures OpLess(col, a, b) <==> InTurn(col, a, b)
  {
  }

  ghost predicate AllInTurn(col: Collation, list: seq<Op>) {
    forall i, j :: 0 <= i < j < |list| ==> InTurn(col, list[i], list[j])
  }

  /** Every known parent has an earlier clock than its child. */
  ghost predicate ClocksRise(col: Collation, byId: OpMap) {
    forall k, p :: k in byId && p in NormalizeIds(byId[k].parents) && p in byId ==> col(byId[p].hlc, byId[k].hlc)
  }

  lemma RisingBelow(col: Collation, byId: OpMap)
    requires StrictTotal(col) && Keyed(byId) && ClocksRise(col, byId)
    ensures ParentsBelow(GraphOf(byId), IdLess(col, byId))
  {
    var g, lt := GraphOf(byId), IdLess(col, byId);
    hide Keyed, NormalizeIds, Closed, StrictTotal;
    assert forall x, y :: x in g && y in g[x] ==> x in byId && y in byId && y in NormalizeIds(byId[x].parents);
    hide GraphOf, ClocksRise;
    forall x, y | x in g && y in g[x] ensures lt(y, x) { RiseLess(col, byId[y], byId[x]); }
  }

  lemma RiseLess(col: Collation, a: Op, b: Op)
    requires StrictTotal(col) && col(a.hlc, b.hlc)
    ensures OpLess(col, a, b)
  {
  }

  /** When clocks rise from parent to child, the operations come by clock, then author, then number, then id. */
  lemma OrderedInTurn(col: Collation, byId: OpMap)
    requires StrictTotal(col) && Keyed(byId) && ClocksRise(col, byId)
    ensures AllInTurn(col, OrderedOps(col, byId))
  {
    RisingBelow(col, byId);
    var o := OrderedOps(col, byId);
    OrderSorted(col, byId);
    OrderedOpsPermute(col, byId);
    DistinctOpIds(col, byId);
    hide OrderedOps, Keyed, ClocksRise, ParentsBelow, InTurn, OpLess;
    forall i, j | 0 <= i < j < |o| ensures InTurn(col, o[i], o[j]) {
      assert CompareOps(col)(o[i], o[j]);
      LessIsInTurn(col, o[i], o[j]);
    }
  }

  lemma DistinctOpIds(col: Collation, byId: OpMap)
    requires StrictTotal(col) && Keyed(byId)
    ensures var o := OrderedOps(col, byId); forall i, j :: 0 <= i < j < |o| ==> o[i].opId != o[j].opId
  {
    var ids, o := OrderedIds(col, byId), OrderedOps(col, byId);
    forall i, j | 0 <= i < j < |o| ensures o[i].opId != o[j].opId {
      assert NamedOp(byId[ids[i]], ids[i]) && NamedOp(byId[ids[j]], ids[j]);
    }
  }

  /** The operations that won, as the messages list them: always by clock, author, number and id. */
  lemma MessagesInTurn(col: Collation, byId: OpMap)
    requires StrictTotal(col) && Keyed(byId)
    ensures var ms := Materialized(col, byId);
      && (forall i :: 0 <= i < |ms| ==> ms[i].opId in byId)
      && (forall i, j :: 0 <= i < j < |ms| ==> InTurn(col, byId[ms[i].opId], byId[ms[j].opId]))
  {
    var t := ListedWinners(col, byId);
    var ms := Materialized(col, byId);
    hide Materialized, Keyed, InTurn, OpLess, MessageOf;
    forall i | 0 <= i < |ms| ensures ms[i].opId in byId && byId[ms[i].opId] == t[i] { MessageNames(t[i]); }
    forall i, j | 0 <= i < j < |ms| ensures InTurn(col, byId[ms[i].opId], byId[ms[j].opId]) {
      assert CompareOps(col)(t[i], t[j]);
      LessIsInTurn(col, t[i], t[j]);
    }
  }

  lemma MessageNames(op: Op)
    ensures MessageOf(op).opId == op.opId
  {
  }

  /** The sorted winners behind a message list. */
  lemma ListedWinners(col: Collation, byId: OpMap) returns (t: seq<Op>)
    requires StrictTotal(col) && Keyed(byId)
    ensures Materialized(col, byId) == MessagesOf(t) && SortedBy(CompareOps(col), t) && Elems(t) == Elems(Winners(OrderedOps(col, byId)))
    ensures forall i :: 0 <= i < |t| ==> t[i].opId in byId && byId[t[i].opId] == t[i]
    ensures forall i, j :: 0 <= i < j < |t| ==> t[i].opId != t[j].opId
  {
    var o := OrderedOps(col, byId);
    t := Sort(CompareOps(col), Winners(o));
    assert Materialized(col, byId) == MessagesOf(t);
    assert TotalOn(CompareOps(col), Elems(o)) && Elems(o) == byId.Values by {
      OrderedOpsPermute(col, byId);
      OpsTotal(col, byId);
    }
    ValuesNamed(byId);
    hide *;
    SortedApartFrom(col, o);
    ElemNamed(byId, t);
  }

  lemma SortedApartFrom(col: Collation, o: seq<Op>)
    requires TotalOn(CompareOps(col), Elems(o))
    ensures var t := Sort(CompareOps(col), Winners(o));
      SortedBy(CompareOps(col), t) && Elems(t) == Elems(Winners(o)) && Distinct(t) && Elems(t) <= Elems(o)
  {
    hide *;
    WinnersListed(o);
    TotalOnSubset(CompareOps(col), Elems(o), Elems(Winners(o)));
    WinnersNoRepeat(o);
    SortSorted(CompareOps(col), Winners(o));
    SortElems(CompareOps(col), Winners(o));
    SortedDistinct(CompareOps(col), Sort(CompareOps(col), Winners(o)));
  }

  lemma ElemNamed(byId: OpMap, t: seq<Op>)
    requires Distinct(t) && Elems(t) <= byId.Values && forall op :: op in byId.Values ==> op.opId in byId && byId[op.opId] == op
    ensures forall i :: 0 <= i < |t| ==> t[i].opId in byId && byId[t[i].opId] == t[i]
    ensures forall i, j :: 0 <= i < j < |t| ==> t[i].opId != t[j].opId
  {
    forall i | 0 <= i < |t| ensures t[i].opId in byId && byId[t[i].opId] == t[i] { assert t[i] in Elems(t); }
  }

  lemma ValuesNamed(byId: OpMap)
    requires Keyed(byId)
    ensures forall op :: op in byId.Values ==> op.opId in byId && byId[op.opId] == op
  {
    forall op | op in byId.Values ensures op.opId in byId && byId[op.opId] == op {
      var k :| k in byId && byId[k] == op;
      assert NamedOp(byId[k], k);
    }
  }

  // ---------- What is kept of an operation ----------

  /** k is o with the spaces around its ids gone, its numbers whole, and its parents stripped, without blanks or repetitions. */
  ghost predicate Tidied(k: Op, o: Op) {
    && k.hlc == o.hlc && k.kind == o.kind && k.payload == o.payload
    && StripOf(k.opId, o.opId) && StripOf(k.conversationId, o.conversationId) && StripOf(k.authorDeviceId, o.authorDeviceId)
    && StripOf(k.authorEntityType, o.authorEntityType) && StripOf(k.signature, o.signature)
    && k.authorSeq == Counter(o.authorSeq) as real && k.signedAt == Counter(o.signedAt) as real
    && Distinct(k.parents) && forall p :: p in k.parents <==> p != "" && exists v :: v in o.parents && StripOf(p, v)
  }

  lemma NormalizeTidies(o: Op)
    ensures Tidied(Normalize(o), o)
  {
    hide StripOf, Trim, NormalizeIds, Counter;
    TrimExactly(o.opId, Trim(o.opId));
    TrimExactly(o.conversationId, Trim(o.conversationId));
    TrimExactly(o.authorDeviceId, Trim(o.authorDeviceId));
    TrimExactly(o.authorEntityType, Trim(o.authorEntityType));
    TrimExactly(o.signature, Trim(o.signature));
    NormalizeIdsElems(o.parents);
    forall p, v ensures StripOf(p, v) <==> p == Trim(v) { TrimExactly(v, p); }
  }

  ghost predicate FirstArrival(ops: seq<Op>, k: string, i: int) {
    0 <= i < |ops| && StripOf(k, ops[i].opId) && forall j :: 0 <= j < i ==> !StripOf(k, ops[j].opId)
  }

  /** The first arrival of k among the operations, tidied, is what is kept under k; ids that never arrived, or only blank
      ones, are not kept. */
  lemma KeptExactly(ops: seq<Op>, k: string)
    ensures k in FirstById(ops) <==> k != "" && exists i :: 0 <= i < |ops| && StripOf(k, ops[i].opId)
    ensures k in FirstById(ops) ==> exists i :: FirstArrival(ops, k, i) && Tidied(FirstById(ops)[k], ops[i])
  {
    hide StripOf, Tidied, Trim, Normalize, FirstById;
    forall i | 0 <= i < |ops| ensures StripOf(k, ops[i].opId) <==> k == Trim(ops[i].opId) { TrimExactly(ops[i].opId, k); }
    if k in FirstById(ops) {
      FirstByIdKeyed(ops);
      var i := FirstWins(ops, k);
      NormalizeTidies(ops[i]);
      KeyNotBlank(FirstById(ops), k);
    }
    if k != "" && exists i :: 0 <= i < |ops| && StripOf(k, ops[i].opId) {
      var i :| 0 <= i < |ops| && StripOf(k, ops[i].opId);
      Present(ops, i);
    }
  }

  /** Kept operations are listed in the order in which they first arrived. */
  lemma {:induction false} ArrivalOrder(ops: seq<Op>, i: nat, j: nat) returns (a: nat)
    requires i < j < |FirstIds(ops)|
    ensures a < |ops| && Trim(ops[a].opId) == FirstIds(ops)[i] && forall b :: 0 <= b <= a ==> Trim(ops[b].opId) != FirstIds(ops)[j]
  {
    hide Trim;
    var n := |ops| - 1;
    var r := FirstIds(ops[..n]);
    if j < |r| {
      a := ArrivalOrder(ops[..n], i, j);
    } else {
      a := ArrivedId(ops[..n], r[i]);
      forall b | 0 <= b <= a ensures Trim(ops[b].opId) != FirstIds(ops)[j] {
        if Trim(ops[..n][b].opId) != "" { IdArrived(ops[..n], b); }
      }
    }
  }

  lemma {:induction false} ArrivedId(ops: seq<Op>, id: string) returns (a: nat)
    requires id in FirstIds(ops)
    ensures a < |ops| && Trim(ops[a].opId) == id
  {
    hide Trim;
    var n := |ops| - 1;
    if id in FirstIds(ops[..n]) { a := ArrivedId(ops[..n], id); } else { a := n; }
  }

  lemma {:induction false} IdArrived(ops: seq<Op>, a: nat)
    requires a < |ops| && Trim(ops[a].opId) != ""
    ensures Trim(ops[a].opId) in FirstIds(ops)
  {
    hide Trim;
    var n := |ops| - 1;
    if a < n { IdArrived(ops[..n], a); }
  }

  lemma KeyNotBlank(byId: OpMap, k: string)
    requires Keyed(byId) && k in byId
    ensures k != ""
  {
    assert NamedOp(byId[k], k);
  }

  // ---------- What a message says ----------

  /** m is the message this operation creates. */
  ghost predicate Tells(m: Message, op: Op) {
    && op.kind == "message.create" && m.messageId != "" && StripOf(m.messageId, op.payload.messageId)
    && m.opId == op.opId && m.conversationId == op.conversationId && m.authorDeviceId == op.authorDeviceId
    && m.authorEntityType == op.authorEntityType && m.authorSeq as real == op.authorSeq && m.hlc == op.hlc
    && m.text == op.payload.text && m.parts == op.payload.parts && StripOf(m.clientNonce, op.payload.clientNonce)
    && m.parents == op.parents && m.signedAt as real == op.signedAt
  }

  /** The operation at position i creates a message with this id. */
  ghost predicate CreatesAt(o: seq<Op>, i: int, id: string) {
    0 <= i < |o| && o[i].kind == "message.create" && id != "" && StripOf(id, o[i].payload.messageId)
  }

  lemma MessageTells(op: Op)
    requires NormalOp(op) && Creates(op)
    ensures Tells(MessageOf(op), op)
  {
    assert Normalize(op) == op;
    TrimExactly(op.payload.messageId, Trim(op.payload.messageId));
    TrimExactly(op.payload.clientNonce, Trim(op.payload.clientNonce));
    hide StripOf, Trim, NormalizeIds, Counter;
  }

  lemma CreatesIs(o: seq<Op>, i: int, id: string)
    requires 0 <= i < |o|
    ensures CreatesAt(o, i, id) <==> Creates(o[i]) && MessageIdOf(o[i]) == id
  {
    TrimExactly(o[i].payload.messageId, id);
    hide StripOf, Trim;
  }

  /** Every message tells a stored operation that is the first in causal order to create its id. */
  lemma MessageRead(col: Collation, byId: OpMap, m: Message) returns (i: int)
    requires StrictTotal(col) && Keyed(byId) && m in Materialized(col, byId)
    ensures var o := OrderedOps(col, byId);
      CreatesAt(o, i, m.messageId) && Tells(m, o[i]) && forall j :: 0 <= j < i ==> !CreatesAt(o, j, m.messageId)
  {
    MessagesExactly(col, byId);
    var o := OrderedOps(col, byId);
    OrderedOpsPermute(col, byId);
    assert forall op :: op in Elems(o) ==> NormalOp(op) by {
      forall op | op in byId.Values ensures NormalOp(op) { var k :| k in byId && byId[k] == op; assert NamedOp(byId[k], k); }
    }
    hide OrderedOps, Materialized, Keyed, NormalOp, Trim, MessageOf, Tells, CreatesAt, Creates;
    i :| FirstCreate(o, i) && m == MessageOf(o[i]);
    assert o[i] in Elems(o);
    FirstIs(o, i);
    MessageTells(o[i]);
  }

  lemma FirstIs(o: seq<Op>, i: int)
    requires FirstCreate(o, i)
    ensures Creates(o[i]) && MessageOf(o[i]).messageId == MessageIdOf(o[i])
    ensures CreatesAt(o, i, MessageIdOf(o[i])) && forall j :: 0 <= j < i ==> !CreatesAt(o, j, MessageIdOf(o[i]))
  {
    forall j | 0 <= j <= i ensures CreatesAt(o, j, MessageIdOf(o[i])) <==> Creates(o[j]) && MessageIdOf(o[j]) == MessageIdOf(o[i]) {
      CreatesIs(o, j, MessageIdOf(o[i]));
    }
    hide CreatesAt, Creates, MessageIdOf;
  }

  ghost predicate OnlyMessage(ms: seq<Message>, p: int, id: string) {
    0 <= p < |ms| && ms[p].messageId == id && forall q :: 0 <= q < |ms| && ms[q].messageId == id ==> q == p
  }

  /** Every id that an operation creates has its message, and ids are not repeated. */
  lemma MessageForEach(col: Collation, byId: OpMap, i: int, id: string)
    requires StrictTotal(col) && Keyed(byId) && CreatesAt(OrderedOps(col, byId), i, id)
    ensures exists p :: OnlyMessage(Materialized(col, byId), p, id)
  {
    MessagesExactly(col, byId);
    hide *;
    OneMessage(OrderedOps(col, byId), Materialized(col, byId), i, id);
  }

  lemma OneMessage(o: seq<Op>, ms: seq<Message>, i: int, id: string)
    requires CreatesAt(o, i, id)
    requires forall m :: m in ms <==> exists i :: FirstCreate(o, i) && m == MessageOf(o[i])
    requires forall p, q :: 0 <= p < q < |ms| ==> ms[p].messageId != ms[q].messageId
    ensures exists p :: OnlyMessage(ms, p, id)
  {
    CreatesIs(o, i, id);
    hide CreatesAt, MessageOf, FirstCreate, Creates, MessageIdOf;
    var f := FirstOf(o, i, id);
    FirstIs(o, f);
    var m := MessageOf(o[f]);
    assert m in ms;
    var p :| 0 <= p < |ms| && ms[p] == m;
    OnlyOnce(ms, p);
  }

  lemma OnlyOnce(ms: seq<Message>, p: nat)
    requires p < |ms| && forall p, q :: 0 <= p < q < |ms| ==> ms[p].messageId != ms[q].messageId
    ensures OnlyMessage(ms, p, ms[p].messageId)
  {
  }

  lemma {:induction false} FirstOf(o: seq<Op>, i: int, id: string) returns (f: int)
    requires 0 <= i < |o| && Creates(o[i]) && MessageIdOf(o[i]) == id
    ensures f <= i && FirstCreate(o, f) && MessageIdOf(o[f]) == id
    decreases i
  {
    f := i;
    if j :| 0 <= j < i && Creates(o[j]) && MessageIdOf(o[j]) == id {
      f := FirstOf(o, j, id);
    }
    hide Creates, MessageIdOf;
  }

  // ---------- Leaves, missing parents, children, vectors ----------

  ghost predicate Names(byId: OpMap, k: string, p: string) {
    k in byId && p in byId[k].parents
  }

  lemma ParentIs(byId: OpMap, k: string, p: string)
    requires Keyed(byId)
    ensures ParentsOf(byId).Keys == byId.Keys == GraphOf(byId).Keys
    ensures k in byId ==> (p in ParentsOf(byId)[k] <==> Names(byId, k, p)) && (p in GraphOf(byId)[k] <==> p in byId && Names(byId, k, p))
    ensures Names(byId, k, p) ==> k in byId
  {
    if k in byId {
      assert NormalizeIds(byId[k].parents) == byId[k].parents by { assert NamedOp(byId[k], k) && Normalize(byId[k]) == byId[k]; }
      hide Keyed, NormalizeIds;
    }
  }

  /** A leaf is an operation no stored one names; a missing parent is named by a stored operation and not stored. */
  lemma LeavesAndMissing(col: Collation, byId: OpMap, id: string)
    requires StrictTotal(col) && Keyed(byId)
    ensures id in LeafIds(col, byId) <==> id in byId && forall k :: !Names(byId, k, id)
    ensures id in MissingIds(byId) <==> id !in byId && exists k :: Names(byId, k, id)
  {
    hide *;
    LeafRead(col, byId, id);
    MissingListed(byId, id);
    MissingRead(byId, id);
  }

  lemma LeafRead(col: Collation, byId: OpMap, id: string)
    requires StrictTotal(col) && Keyed(byId)
    ensures id in LeafIds(col, byId) <==> id in byId && forall k :: !Names(byId, k, id)
  {
    IdLessTotal(col, byId);
    assert LeafIds(col, byId) == Leaves(GraphOf(byId), IdLess(col, byId));
    hide *;
    LeavesExactly(GraphOf(byId), IdLess(col, byId), id);
    LeafIs(byId, id);
  }

  lemma LeafIs(byId: OpMap, id: string)
    requires Keyed(byId)
    ensures IsLeaf(GraphOf(byId), id) <==> id in byId && forall k :: !Names(byId, k, id)
  {
    var g := GraphOf(byId);
    hide GraphOf, Keyed, Names, ParentsOf;
    forall k ensures (Names(byId, k, id) ==> k in byId) && (k in byId && id in byId ==> k in g && (id in g[k] <==> Names(byId, k, id))) {
      ParentIs(byId, k, id);
    }
    ParentIs(byId, id, id);
  }

  lemma MissingRead(byId: OpMap, id: string)
    requires Keyed(byId)
    ensures id in KahnLoop.Missing(ParentsOf(byId)) <==> id !in byId && exists k :: Names(byId, k, id)
  {
    var parents := ParentsOf(byId);
    ParentIs(byId, id, id);
    hide GraphOf, Keyed, Names, ParentsOf;
    forall k ensures (Names(byId, k, id) ==> k in byId) && (k in parents ==> (id in parents[k] <==> Names(byId, k, id))) {
      ParentIs(byId, k, id);
    }
  }

  lemma MissingListed(byId: OpMap, id: string)
    ensures id in MissingIds(byId) <==> id in KahnLoop.Missing(ParentsOf(byId))
  {
    CodeUnitTotal();
    AscendingSorted(CodeUnitLess, KahnLoop.Missing(ParentsOf(byId)));
    assert id in MissingIds(byId) <==> id in Elems(MissingIds(byId));
    hide CodeUnitLess, ParentsOf;
  }

  /** Missing parents come in ascending code-unit order. */
  lemma MissingAscend(byId: OpMap, i: nat, j: nat)
    requires i < j < |MissingIds(byId)|
    ensures exists k: nat :: SmallerAt(MissingIds(byId)[i], MissingIds(byId)[j], k)
  {
    CodeUnitTotal();
    AscendingSorted(CodeUnitLess, KahnLoop.Missing(ParentsOf(byId)));
    CodeUnitExactly(MissingIds(byId)[i], MissingIds(byId)[j]);
    hide CodeUnitLess, ParentsOf, SmallerAt;
  }

  /** The children listed under p are exactly the stored operations that name it, and only stored parents have a list. */
  lemma ChildrenExactly(byId: OpMap, p: string, k: string)
    requires Keyed(byId)
    ensures var lists := KahnLoop.ChildLists(GraphOf(byId));
      && (p in lists <==> p in byId && exists c :: Names(byId, c, p))
      && (p in lists ==> (k in lists[p] <==> Names(byId, k, p)) && Distinct(lists[p]))
  {
    var g := GraphOf(byId);
    ParentIs(byId, k, p);
    hide GraphOf, Keyed, Names, ParentsOf, KahnLoop.ChildLists;
    ChildListed(g, p, k);
    forall c ensures (Names(byId, c, p) ==> c in byId) && (c in g ==> (p in g[c] <==> p in byId && Names(byId, c, p))) {
      ParentIs(byId, c, p);
    }
  }

  lemma ChildListed(g: Graph, p: string, k: string)
    ensures var lists := KahnLoop.ChildLists(g);
      && (p in lists <==> exists c :: c in g && p in g[c])
      && (p in lists ==> (k in lists[p] <==> k in g && p in g[k]) && Distinct(lists[p]))
  {
    CodeUnitTotal();
    AscendingSorted(CodeUnitLess, KahnLoop.ChildrenOf(g, p));
    hide CodeUnitLess;
    var lists := KahnLoop.ChildLists(g);
    if p in lists { assert k in lists[p] <==> k in Elems(lists[p]); }
  }

  ghost predicate Holds(byId: OpMap, author: string, n: nat) {
    exists k :: k in byId && byId[k].authorDeviceId == author && Counter(byId[k].authorSeq) == n
  }

  lemma MarksRead(byId: OpMap, author: string, n: nat)
    requires Keyed(byId)
    ensures n in SeqsOf(MarksOf(byId.Values), author) <==> author != "" && n > 0 && Holds(byId, author, n)
  {
    AuthorsTrimmed(byId);
    hide Keyed, Trim, Counter, MarkOf;
    forall k | k in byId ensures (author, n) in MarkOf(byId[k]) <==> author != "" && n > 0 && byId[k].authorDeviceId == author && Counter(byId[k].authorSeq) == n {
      MarkIs(byId[k], author, n);
    }
    if n in SeqsOf(MarksOf(byId.Values), author) {
      assert (author, n) in MarksOf(byId.Values);
      var op :| op in byId.Values && (author, n) in MarkOf(op);
      var k :| k in byId && byId[k] == op;
    }
    if author != "" && n > 0 && Holds(byId, author, n) {
      var k :| k in byId && byId[k].authorDeviceId == author && Counter(byId[k].authorSeq) == n;
      assert (author, n) in MarkOf(byId[k]) && byId[k] in byId.Values;
    }
  }

  lemma MarkIs(op: Op, author: string, n: nat)
    ensures (author, n) in MarkOf(op) <==> author != "" && n > 0 && Trim(op.authorDeviceId) == author && Counter(op.authorSeq) == n
  {
    hide Trim, Counter;
  }

  lemma AuthorsTrimmed(byId: OpMap)
    requires Keyed(byId)
    ensures forall k :: k in byId ==> Trim(byId[k].authorDeviceId) == byId[k].authorDeviceId
  {
    forall k | k in byId ensures Trim(byId[k].authorDeviceId) == byId[k].authorDeviceId {
      assert NamedOp(byId[k], k) && Normalize(byId[k]) == byId[k];
    }
    hide Trim;
  }

  /** The version vector counts, for every author, the numbers held from 1 on without a gap; the observed one the greatest. */
  lemma VectorsRead(byId: OpMap, author: string)
    requires Keyed(byId) && author != ""
    ensures var v, w := At(ContiguousVector(MarksOf(byId.Values)), author), At(ObservedVector(MarksOf(byId.Values)), author);
      && (forall n: nat :: 1 <= n <= v ==> Holds(byId, author, n)) && !Holds(byId, author, v + 1)
      && (forall n: nat :: Holds(byId, author, n) ==> n <= w) && (w > 0 ==> Holds(byId, author, w))
  {
    var marks := MarksOf(byId.Values);
    forall n: nat ensures n in SeqsOf(marks, author) <==> n > 0 && Holds(byId, author, n) { MarksRead(byId, author, n); }
    hide MarksOf, Holds, Keyed;
    ContiguousLargest(marks, author);
    ObservedAt(marks, author);
    hide ContiguousVector, ObservedVector;
  }
}
