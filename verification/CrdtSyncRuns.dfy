/** Whole runs of anti-entropy: bounded batches reach everything, exchanges agree, prefixes stay causally closed. */
module CrdtSyncRuns {
  import opened Helpers
  import opened Orders
  import opened Ids
  import opened Kahn
  import opened CrdtOps
  import opened CrdtVectors
  import opened CrdtAnalysis
  import opened CrdtSync
  import opened CrdtSyncTheorems

  // ---------- Bounded batches ----------

  ghost predicate Syncable(s: OpMap, o: seq<Op>, r: OpMap) {
    && Lists(s, o) && InSeqOrder(o) && AllCount(s)
    && Keyed(r) && Agree(s, r) && UniqueMarks(s, s) && UniqueMarks(s, r)
  }

  lemma CountingIsAuthored(s: OpMap, o: seq<Op>)
    requires Lists(s, o) && AllCount(s)
    ensures AllAuthored(o)
  {
    forall i | 0 <= i < |o| && SeqOf(o[i]) > 0 ensures AuthorOf(o[i]) != "" {
      assert o[i] in Elems(o);
      var k :| k in s && s[k] == o[i];
    }
  }

  lemma UniqueMarksJoin(s: OpMap, r: OpMap, ids: set<string>, r': OpMap)
    requires UniqueMarks(s, s) && UniqueMarks(s, r) && Joined(s, r, ids, r')
    ensures UniqueMarks(s, r')
  {
  }

  lemma RoundSyncable(s: OpMap, o: seq<Op>, r: OpMap, limit: Option<real>)
    requires Syncable(s, o, r)
    ensures Syncable(s, o, Round(o, r, limit))
    ensures s + Round(o, r, limit) == s + r
  {
    hide VectorOf, BatchFor, Lists, Keyed, InSeqOrder, AllCount, Receive, UniqueMarks, Agree;
    RoundExtends(s, o, r, limit);
    BatchFrom(s, o, r, limit);
    UniqueMarksJoin(s, r, IdsOf(BatchFor(o, VectorOf(r), limit)), Round(o, r, limit));
    JoinNothingNew(s, r, IdsOf(BatchFor(o, VectorOf(r), limit)), Round(o, r, limit));
  }

  lemma JoinNothingNew(s: OpMap, r: OpMap, ids: set<string>, r': OpMap)
    requires Agree(s, r) && Joined(s, r, ids, r')
    ensures s + r' == s + r
  {
    assert (s + r').Keys == (s + r).Keys;
  }

  /** A larger vector selects a part; if it covers a selected operation, a strictly smaller part. */
  lemma {:induction false} NewerShrinks(o: seq<Op>, v: Vector, v': Vector, op: Op)
    requires forall a :: At(v, a) <= At(v', a)
    ensures |Newer(o, v')| <= |Newer(o, v)|
    ensures op in o && IsNewer(op, v) && !IsNewer(op, v') ==> |Newer(o, v')| < |Newer(o, v)|
  {
    if o != [] {
      var init, last := o[..|o| - 1], o[|o| - 1];
      assert o == init + [last];
      NewerShrinks(init, v, v', op);
    }
  }

  lemma RoundShrinks(s: OpMap, o: seq<Op>, r: OpMap, limit: Option<real>)
    requires Syncable(s, o, r) && BatchFor(o, VectorOf(r), limit) != []
    ensures |Newer(o, VectorOf(Round(o, r, limit)))| < |Newer(o, VectorOf(r))|
  {
    hide Lists, Keyed, InSeqOrder, AllCount, Receive, UniqueMarks, Agree, BatchFor, Round, VectorOf, AllAuthored;
    CountingIsAuthored(s, o);
    Progress(s, o, r, limit);
    forall a ensures At(VectorOf(r), a) <= At(VectorOf(Round(o, r, limit)), a) {
      NeverLowers(s, o, r, limit, a);
    }
    NewerShrinks(o, VectorOf(r), VectorOf(Round(o, r, limit)), BatchFor(o, VectorOf(r), limit)[0]);
  }

  /** Request, ingest, repeat until a batch comes back empty. That this recursion is admitted is the termination proof. */
  ghost function RoundsToEnd(s: OpMap, o: seq<Op>, r: OpMap, limit: Option<real>): OpMap
    requires Syncable(s, o, r)
    decreases |Newer(o, VectorOf(r))|
  {
    if BatchFor(o, VectorOf(r), limit) == [] then r else
      RoundSyncable(s, o, r, limit);
      RoundShrinks(s, o, r, limit);
      RoundsToEnd(s, o, Round(o, r, limit), limit)
  }

  /** Bounded batches end, and end with everything both sides had. */
  lemma {:induction false} BoundedSyncCompletes(s: OpMap, o: seq<Op>, r: OpMap, limit: Option<real>)
    requires Syncable(s, o, r)
    ensures RoundsToEnd(s, o, r, limit) == s + r
    decreases |Newer(o, VectorOf(r))|
  {
    if BatchFor(o, VectorOf(r), limit) == [] {
      assert s + r == r by { EmptyBatchIsComplete(s, o, r, limit); }
    } else {
      hide Syncable, Round, VectorOf, Newer, BatchFor;
      RoundSyncable(s, o, r, limit);
      RoundShrinks(s, o, r, limit);
      BoundedSyncCompletes(s, o, Round(o, r, limit), limit);
    }
  }

  // ---------- Two replicas agree ----------

  /** After each side has answered the other's request, both hold the same operations, so every view of them is equal. */
  lemma ExchangeAgrees(col: Collation, a: OpMap, b: OpMap)
    requires StrictTotal(col) && Keyed(a) && Keyed(b) && Agree(a, b)
    requires UniqueMarks(a, b) && AllCount(a) && AllCount(b)
    ensures Round(OrderedOps(col, b), a, None) == a + b == Round(OrderedOps(col, a), b, None)
  {
    hide OrderedOps, Round, Keyed, AllCount, StrictTotal;
    OrderLists(col, a);
    OrderLists(col, b);
    assert UniqueMarks(b, a);
    OneBatchSuffices(a, OrderedOps(col, a), b);
    OneBatchSuffices(b, OrderedOps(col, b), a);
    assert a + b == b + a;
  }

  // ---------- Causal closure ----------

  ghost predicate MissesNone(m: OpMap) {
    forall k, p :: k in m && p in NormalizeIds(m[k].parents) ==> p in m
  }

  /** Any prefix of a batch leaves the receiver causally closed. */
  lemma CausalClosure(col: Collation, s: OpMap, r: OpMap, n: nat)
    requires StrictTotal(col) && Keyed(s) && Keyed(r) && UniqueMarks(s, r) && AllCount(s)
    requires MissesNone(s) && MissesNone(r) && Acyclic(GraphOf(s))
    requires n <= |Newer(OrderedOps(col, s), VectorOf(r))|
    ensures MissesNone(Receive(r, Newer(OrderedOps(col, s), VectorOf(r))[..n]))
  {
    hide StrictTotal, Keyed, UniqueMarks, AllCount, MissesNone, VectorOf, Newer, Acyclic, Receive, OrderedIds;
    var ids := OrderedIds(col, s);
    assert ParentsFirst(GraphOf(s), ids) by { OrderIsCausal(col, s); }
    var m := CutPoint(OpsAt(s, ids), VectorOf(r), n);
    PrefixClosed(s, ids, r, m);
  }

  lemma PrefixClosed(s: OpMap, ids: seq<string>, r: OpMap, m: nat)
    requires Keyed(s) && Keyed(r) && UniqueMarks(s, r) && AllCount(s) && MissesNone(s) && MissesNone(r)
    requires Elems(ids) == s.Keys && ParentsFirst(GraphOf(s), ids) && m <= |ids|
    ensures MissesNone(Receive(r, Newer(OpsAt(s, ids)[..m], VectorOf(r))))
  {
    var b := Newer(OpsAt(s, ids)[..m], VectorOf(r));
    var r' := Receive(r, b);
    assert Joined(s, r, IdsOf(b), r') by { PrefixJoins(s, ids, r, m); }
    forall k, p | k in r' && p in NormalizeIds(r'[k].parents) ensures p in r' {
      if k !in r {
        SentParent(s, ids, r, m, k, p);
      }
    }
  }

  lemma PrefixJoins(s: OpMap, ids: seq<string>, r: OpMap, m: nat)
    requires Keyed(s) && Elems(ids) == s.Keys && m <= |ids|
    ensures var b := Newer(OpsAt(s, ids)[..m], VectorOf(r)); Joined(s, r, IdsOf(b), Receive(r, b))
  {
    var o := OpsAt(s, ids);
    var b := Newer(o[..m], VectorOf(r));
    NewerElems(o[..m], VectorOf(r));
    forall op | op in b ensures op.opId in s && s[op.opId] == op {
      var j :| 0 <= j < m && o[j] == op;
      assert NamedOp(s[ids[j]], ids[j]);
    }
    ReceiveFrom(s, r, b);
  }

  /** A parent of a sent operation was either sent before it or is held already. */
  lemma SentParent(s: OpMap, ids: seq<string>, r: OpMap, m: nat, k: string, p: string)
    requires Keyed(s) && Keyed(r) && UniqueMarks(s, r) && AllCount(s) && MissesNone(s)
    requires Elems(ids) == s.Keys && ParentsFirst(GraphOf(s), ids) && m <= |ids|
    requires k in IdsOf(Newer(OpsAt(s, ids)[..m], VectorOf(r))) && k in s && p in NormalizeIds(s[k].parents)
    ensures p in r || p in IdsOf(Newer(OpsAt(s, ids)[..m], VectorOf(r)))
  {
    hide VectorOf, Newer;
    var j := SentAt(s, ids, VectorOf(r), m, k);
    assert p in GraphOf(s)[k];
    assert Earlier(ids, p, j);
    var i :| 0 <= i < j && ids[i] == p;
    if IsNewer(s[p], VectorOf(r)) {
      SentIf(s, ids, VectorOf(r), m, i);
    } else {
      CoveredIsHeld(s, r, p);
    }
  }

  lemma SentAt(s: OpMap, ids: seq<string>, want: Vector, m: nat, k: string) returns (j: nat)
    requires Keyed(s) && Elems(ids) == s.Keys && m <= |ids| && k in IdsOf(Newer(OpsAt(s, ids)[..m], want))
    ensures j < m && ids[j] == k
  {
    var o := OpsAt(s, ids)[..m];
    var op :| op in Newer(o, want) && op.opId == k;
    NewerElems(o, want);
    j :| 0 <= j < m && o[j] == op;
    assert NamedOp(s[ids[j]], ids[j]);
  }

  lemma SentIf(s: OpMap, ids: seq<string>, want: Vector, m: nat, i: nat)
    requires Keyed(s) && Elems(ids) == s.Keys && i < m <= |ids| && ids[i] in s && IsNewer(s[ids[i]], want)
    ensures ids[i] in IdsOf(Newer(OpsAt(s, ids)[..m], want))
  {
    var o := OpsAt(s, ids)[..m];
    assert o[i] in o;
    NewerElems(o, want);
    assert NamedOp(s[ids[i]], ids[i]);
  }
}
