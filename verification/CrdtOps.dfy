/** Operations, their total order, and the analysis of an arbitrary bag of operations. */
module CrdtOps {
  import opened Orders
  import opened Ids
  import opened Kahn
  import KahnLoop

  datatype Payload = Payload(messageId: string, text: string, parts: seq<string>, clientNonce: string)

  datatype Op = Op(
    opId: string, conversationId: string, authorDeviceId: string, authorEntityType: string,
    authorSeq: real, hlc: string, parents: seq<string>, kind: string, payload: Payload,
    signedAt: real, signature: string)

  type Collation = Less<string>

  function SeqOf(op: Op): nat {
    Counter(op.authorSeq)
  }

  function Normalize(op: Op): Op {
    op.(opId := Trim(op.opId),
        conversationId := Trim(op.conversationId),
        authorDeviceId := Trim(op.authorDeviceId),
        authorEntityType := Trim(op.authorEntityType),
        authorSeq := Counter(op.authorSeq) as real,
        parents := NormalizeIds(op.parents),
        signedAt := Counter(op.signedAt) as real,
        signature := Trim(op.signature))
  }

  /** What is sent over the wire is already normal, so a peer that ingests it stores the same operation. */
  lemma NormalizeIdempotent(op: Op)
    ensures Normalize(Normalize(op)) == Normalize(op)
    ensures SeqOf(Normalize(op)) == SeqOf(op)
  {
    TrimIdempotent(op.opId);
    TrimIdempotent(op.conversationId);
    TrimIdempotent(op.authorDeviceId);
    TrimIdempotent(op.authorEntityType);
    TrimIdempotent(op.signature);
    NormalizeIdsIdempotent(op.parents);
    CounterIdempotent(op.authorSeq);
    CounterIdempotent(op.signedAt);
  }

  // ---------- The total order ----------

  /** compareCrdtOpOrder(a, b) < 0: clock, then author, then sequence number, then id. */
  predicate OpLess(col: Collation, a: Op, b: Op) {
    if a.hlc != b.hlc then col(a.hlc, b.hlc)
    else if a.authorDeviceId != b.authorDeviceId then col(a.authorDeviceId, b.authorDeviceId)
    else if SeqOf(a) != SeqOf(b) then SeqOf(a) < SeqOf(b)
    else col(a.opId, b.opId)
  }

  lemma OpLessTransitive(col: Collation, a: Op, b: Op, c: Op)
    requires StrictTotal(col) && OpLess(col, a, b) && OpLess(col, b, c)
    ensures OpLess(col, a, c)
  {
  }

  lemma OpLessConnected(col: Collation, a: Op, b: Op)
    requires StrictTotal(col)
    ensures !OpLess(col, a, a)
    ensures a.opId != b.opId ==> OpLess(col, a, b) || OpLess(col, b, a)
    ensures !(OpLess(col, a, b) && OpLess(col, b, a))
  {
    if OpLess(col, a, b) && OpLess(col, b, a) {
      OpLessTransitive(col, a, b, a);
    }
  }

  // ---------- Deduplication: the first copy of an id wins ----------

  type OpMap = map<string, Op>

  ghost predicate NormalOp(op: Op) {
    Normalize(op) == op
  }

  ghost predicate NamedOp(op: Op, k: string) {
    k != "" && op.opId == k && NormalOp(op)
  }

  ghost predicate Keyed(byId: OpMap) {
    forall k :: k in byId ==> NamedOp(byId[k], k)
  }

  function AddOp(byId: OpMap, op: Op): OpMap {
    var opId := Trim(op.opId);
    if opId == "" || opId in byId then byId else byId[opId := Normalize(op)]
  }

  function FirstById(ops: seq<Op>): OpMap {
    if ops == [] then map[] else AddOp(FirstById(ops[..|ops| - 1]), ops[|ops| - 1])
  }

  /** Ids in order of first arrival: the insertion order of the source's Map. */
  function FirstIds(ops: seq<Op>): seq<string> {
    if ops == [] then [] else
      var ids, opId := FirstIds(ops[..|ops| - 1]), Trim(ops[|ops| - 1].opId);
      if opId == "" || opId in ids then ids else ids + [opId]
  }

  lemma {:induction false} FirstByIdKeyed(ops: seq<Op>)
    ensures Keyed(FirstById(ops))
    ensures Distinct(FirstIds(ops)) && Elems(FirstIds(ops)) == FirstById(ops).Keys
  {
    if ops != [] {
      var init, last := ops[..|ops| - 1], ops[|ops| - 1];
      FirstByIdKeyed(init);
      NormalizeIdempotent(last);
      Snoc(FirstIds(init), Trim(last.opId));
    }
  }

  /** The id at k is held by the normalized form of the first operation that carries it. */
  ghost predicate FirstWith(ops: seq<Op>, k: string, i: int) {
    0 <= i < |ops| && Trim(ops[i].opId) == k && forall j :: 0 <= j < i ==> Trim(ops[j].opId) != k
  }

  lemma {:induction false} FirstWins(ops: seq<Op>, k: string) returns (i: int)
    requires k in FirstById(ops)
    ensures FirstWith(ops, k, i) && FirstById(ops)[k] == Normalize(ops[i])
  {
    hide Trim, NormalizeIds;
    var n := |ops| - 1;
    if k in FirstById(ops[..n]) {
      i := FirstWins(ops[..n], k);
    } else {
      i := n;
      AbsentBefore(ops, n, k);
    }
  }

  lemma AbsentBefore(ops: seq<Op>, n: nat, k: string)
    requires n <= |ops| && k !in FirstById(ops[..n]) && k != ""
    ensures forall j :: 0 <= j < n ==> Trim(ops[j].opId) != k
  {
    forall j | 0 <= j < n ensures Trim(ops[j].opId) != k {
      var id := Trim(ops[j].opId);
      if id != "" {
        Present(ops[..n], j);
      }
    }
  }

  lemma {:induction false} Present(ops: seq<Op>, i: nat)
    requires i < |ops| && Trim(ops[i].opId) != ""
    ensures Trim(ops[i].opId) in FirstById(ops)
  {
    if i < |ops| - 1 {
      Present(ops[..|ops| - 1], i);
    }
  }

  /** Equal ids mean equal operations. */
  ghost predicate Consistent(ops: set<Op>) {
    forall a, b :: a in ops && b in ops && Trim(a.opId) == Trim(b.opId) && Trim(a.opId) != "" ==> Normalize(a) == Normalize(b)
  }

  lemma ConsistentLookup(ops: seq<Op>, op: Op)
    requires Consistent(Elems(ops)) && op in ops && Trim(op.opId) != ""
    ensures Trim(op.opId) in FirstById(ops) && FirstById(ops)[Trim(op.opId)] == Normalize(op)
  {
    var at :| 0 <= at < |ops| && ops[at] == op;
    Present(ops, at);
    var i := FirstWins(ops, Trim(op.opId));
    assert ops[i] in Elems(ops) && op in Elems(ops);
  }

  /** Arrival order and duplicates do not matter. */
  lemma SameSetSameMap(ops1: seq<Op>, ops2: seq<Op>)
    requires Elems(ops1) == Elems(ops2) && Consistent(Elems(ops1))
    ensures FirstById(ops1) == FirstById(ops2)
  {
    forall k ensures k in FirstById(ops1) ==> k in FirstById(ops2) && FirstById(ops1)[k] == FirstById(ops2)[k] {
      SubsetSubmap(ops1, ops2, k);
    }
    forall k ensures k in FirstById(ops2) ==> k in FirstById(ops1) {
      SubsetSubmap(ops2, ops1, k);
    }
  }

  lemma SubsetSubmap(ops1: seq<Op>, ops2: seq<Op>, k: string)
    requires Elems(ops1) <= Elems(ops2) && Consistent(Elems(ops2))
    ensures k in FirstById(ops1) ==> k in FirstById(ops2) && FirstById(ops1)[k] == FirstById(ops2)[k]
  {
    if k in FirstById(ops1) {
      var i := FirstWins(ops1, k);
      FirstByIdKeyed(ops1);
      assert ops1[i] in Elems(ops1);
      ConsistentLookup(ops2, ops1[i]);
    }
  }

  // ---------- The graph and its order, as functions of the deduplicated operations ----------

  function ParentsOf(byId: OpMap): map<string, seq<string>> {
    map x | x in byId :: NormalizeIds(byId[x].parents)
  }

  ghost function GraphOf(byId: OpMap): (g: Graph)
    ensures g.Keys == byId.Keys && Closed(g)
  {
    KahnLoop.Known(ParentsOf(byId))
  }

  function IdLess(col: Collation, byId: OpMap): Less<string> {
    (a, b) => a in byId && b in byId && OpLess(col, byId[a], byId[b])
  }

  lemma IdLessTotal(col: Collation, byId: OpMap)
    requires StrictTotal(col) && Keyed(byId)
    ensures TotalOn(IdLess(col, byId), byId.Keys)
  {
    var lt := IdLess(col, byId);
    forall a, b, c | a in byId && b in byId && c in byId && lt(a, b) && lt(b, c) ensures lt(a, c) {
      OpLessTransitive(col, byId[a], byId[b], byId[c]);
    }
    forall a, b | a in byId && b in byId ensures !lt(a, a) && (a != b ==> lt(a, b) || lt(b, a)) {
      OpLessConnected(col, byId[a], byId[b]);
    }
  }

  ghost function OrderedIds(col: Collation, byId: OpMap): (o: seq<string>)
    requires StrictTotal(col) && Keyed(byId)
    ensures Distinct(o) && Elems(o) == byId.Keys
  {
    IdLessTotal(col, byId);
    OrderFacts(GraphOf(byId), IdLess(col, byId));
    KahnOrder(GraphOf(byId), IdLess(col, byId))
  }

  function OpsAt(byId: OpMap, ids: seq<string>): (r: seq<Op>)
    requires Elems(ids) <= byId.Keys
    ensures |r| == |ids|
    ensures forall i :: 0 <= i < |ids| ==> ids[i] in byId && r[i] == byId[ids[i]]
  {
    assert forall i :: 0 <= i < |ids| ==> ids[i] in Elems(ids);
    seq(|ids|, i requires 0 <= i < |ids| => byId[ids[i]])
  }

  ghost function LeafIds(col: Collation, byId: OpMap): seq<string>
    requires StrictTotal(col) && Keyed(byId)
  {
    IdLessTotal(col, byId);
    Leaves(GraphOf(byId), IdLess(col, byId))
  }

  ghost function MissingIds(byId: OpMap): seq<string> {
    CodeUnitTotal();
    Ascending(CodeUnitLess, KahnLoop.Missing(ParentsOf(byId)))
  }

  method Dedupe(ops: seq<Op>) returns (byId: OpMap, ids: seq<string>)
    ensures byId == FirstById(ops) && ids == FirstIds(ops)
  {
    byId, ids := map[], [];
    for i := 0 to |ops|
      invariant byId == FirstById(ops[..i]) && ids == FirstIds(ops[..i])
    {
      assert ops[..i + 1][..i] == ops[..i];
      FirstByIdKeyed(ops[..i]);
      assert forall k :: k in ids <==> k in Elems(ids);
      var opId := Trim(ops[i].opId);
      if opId != "" && opId !in byId {
        ids := ids + [opId];
        byId := byId[opId := Normalize(ops[i])];
      }
    }
    assert ops[..|ops|] == ops;
  }
}
