/** Anti-entropy: which operations a sender ships for a given version vector, and what rounds of it achieve. */
module CrdtSync {
  import opened Helpers
  import opened Orders
  import opened Ids
  import opened CrdtOps
  import opened CrdtVectors
  import opened CrdtAnalysis

  predicate IsNewer(op: Op, want: Vector) {
    SeqOf(op) > At(want, Trim(op.authorDeviceId))
  }

  /** The operations beyond the vector, in the given order. */
  function Newer(ops: seq<Op>, want: Vector): seq<Op> {
    if ops == [] then [] else
      var init, last := Newer(ops[..|ops| - 1], want), ops[|ops| - 1];
      if IsNewer(last, want) then init + [last] else init
  }

  function Truncate(ops: seq<Op>, limit: Option<real>): seq<Op> {
    match limit
    case None => ops
    case Some(x) => var n := Max(1, Counter(x)); if n < |ops| then ops[..n] else ops
  }

  method SelectCrdtOpsForSync(col: Collation, ops: seq<Op>, wantFrom: seq<(string, real)>, limit: Option<real>)
    returns (batch: seq<Op>)
    requires StrictTotal(col)
    ensures Keyed(FirstById(ops))
    ensures batch == Truncate(Newer(OrderedOps(col, FirstById(ops)), NormalizeVector(wantFrom)), limit)
  {
    var analysis := AnalyzeCrdtOps(col, ops);
    batch := Truncate(Newer(analysis.orderedOps, NormalizeVector(wantFrom)), limit);
  }

  lemma {:induction false} NewerElems(ops: seq<Op>, want: Vector)
    ensures forall op :: op in Newer(ops, want) <==> op in ops && IsNewer(op, want)
  {
    if ops != [] {
      NewerElems(ops[..|ops| - 1], want);
      assert ops == ops[..|ops| - 1] + [ops[|ops| - 1]];
    }
  }

  /** Cutting the selection cuts the order. */
  lemma {:induction false} CutPoint(ops: seq<Op>, want: Vector, n: nat) returns (m: nat)
    requires n <= |Newer(ops, want)|
    ensures m <= |ops| && Newer(ops[..m], want) == Newer(ops, want)[..n]
    ensures 0 < n ==> 0 < m && IsNewer(ops[m - 1], want)
  {
    if n == 0 {
      m := 0;
    } else if n == |Newer(ops, want)| && IsNewer(ops[|ops| - 1], want) {
      m := |ops|;
      assert ops[..m] == ops;
      assert Newer(ops, want)[..n] == Newer(ops, want);
    } else {
      var init := ops[..|ops| - 1];
      m := CutPoint(init, want, n);
      assert init[..m] == ops[..m];
    }
  }

  // ---------- Ingesting a batch ----------

  /** What the receiver's deduplication makes of its operations followed by a batch. */
  function Receive(byId: OpMap, batch: seq<Op>): OpMap {
    if batch == [] then byId else AddOp(Receive(byId, batch[..|batch| - 1]), batch[|batch| - 1])
  }

  lemma {:induction false} ReceiveIsAppend(held: seq<Op>, batch: seq<Op>)
    ensures FirstById(held + batch) == Receive(FirstById(held), batch)
  {
    if batch == [] {
      assert held + batch == held;
    } else {
      var n := |batch| - 1;
      ReceiveIsAppend(held, batch[..n]);
      assert (held + batch)[..|held + batch| - 1] == held + batch[..n];
    }
  }

  /** Equal ids mean equal operations across the two replicas. */
  ghost predicate Agree(s: OpMap, r: OpMap) {
    forall k :: k in s && k in r ==> s[k] == r[k]
  }

  ghost predicate From(s: OpMap, batch: seq<Op>) {
    forall op :: op in batch ==> op.opId in s && s[op.opId] == op
  }

  ghost function IdsOf(batch: seq<Op>): set<string> {
    set op | op in batch :: op.opId
  }

  ghost predicate Extends(r: OpMap, r': OpMap) {
    forall k :: k in r ==> k in r' && r'[k] == r[k]
  }

  /** r' is r with the sender's operations `ids` added. */
  ghost predicate Joined(s: OpMap, r: OpMap, ids: set<string>, r': OpMap) {
    && ids <= s.Keys && r'.Keys == r.Keys + ids
    && forall k :: k in r' ==> r'[k] == if k in r then r[k] else s[k]
  }

  lemma AddFrom(s: OpMap, r: OpMap, ids: set<string>, mid: OpMap, op: Op)
    requires Keyed(s) && Joined(s, r, ids, mid) && op.opId in s && s[op.opId] == op
    ensures Joined(s, r, ids + {op.opId}, AddOp(mid, op))
  {
    assert NamedOp(op, op.opId);
    assert Trim(op.opId) == op.opId by { assert Normalize(op) == op; }
  }

  lemma {:induction false} ReceiveFrom(s: OpMap, r: OpMap, batch: seq<Op>)
    requires Keyed(s) && From(s, batch)
    ensures Joined(s, r, IdsOf(batch), Receive(r, batch))
  {
    if batch == [] {
      assert IdsOf(batch) == {};
    } else {
      hide Joined, From, Keyed;
      FromInit(s, batch);
      ReceiveFrom(s, r, batch[..|batch| - 1]);
      ReceiveLast(s, r, batch);
    }
  }

  lemma ReceiveLast(s: OpMap, r: OpMap, batch: seq<Op>)
    requires batch != [] && Keyed(s)
    requires var op := batch[|batch| - 1]; op.opId in s && s[op.opId] == op
    requires Joined(s, r, IdsOf(batch[..|batch| - 1]), Receive(r, batch[..|batch| - 1]))
    ensures Joined(s, r, IdsOf(batch), Receive(r, batch))
  {
    hide Joined, Keyed, AddOp;
    var init, last := batch[..|batch| - 1], batch[|batch| - 1];
    AddFrom(s, r, IdsOf(init), Receive(r, init), last);
    assert init + [last] == batch;
    IdsSnoc(init, last);
  }

  lemma JoinedKeyed(s: OpMap, r: OpMap, ids: set<string>, r': OpMap)
    requires Keyed(s) && Keyed(r) && Agree(s, r) && Joined(s, r, ids, r')
    ensures Keyed(r') && Agree(s, r') && Extends(r, r')
  {
  }

  lemma FromInit(s: OpMap, batch: seq<Op>)
    requires From(s, batch) && batch != []
    ensures From(s, batch[..|batch| - 1])
    ensures batch[|batch| - 1].opId in s && s[batch[|batch| - 1].opId] == batch[|batch| - 1]
  {
    assert batch[|batch| - 1] in batch;
  }

  lemma IdsSnoc(init: seq<Op>, last: Op)
    ensures IdsOf(init + [last]) == IdsOf(init) + {last.opId}
  {
  }
}
