/** What rounds of anti-entropy guarantee: progress, completion, causal closure, agreement. */
module CrdtSyncTheorems {
  import opened Helpers
  import opened Orders
  import opened Ids
  import opened CrdtOps
  import opened CrdtVectors
  import opened CrdtAnalysis
  import opened CrdtSync

  function AuthorOf(op: Op): string {
    Trim(op.authorDeviceId)
  }

  ghost function MarksIn(byId: OpMap): Marks {
    MarksOf(byId.Values)
  }

  /** The vector a replica asks from. */
  ghost function VectorOf(byId: OpMap): Vector {
    ContiguousVector(MarksIn(byId))
  }

  /** The batch cut from the sender's order `o`. */
  ghost function BatchFor(o: seq<Op>, want: Vector, limit: Option<real>): seq<Op> {
    Truncate(Newer(o, want), limit)
  }

  /** The receiver's operations after one request and its batch. */
  ghost function Round(o: seq<Op>, r: OpMap, limit: Option<real>): OpMap {
    Receive(r, BatchFor(o, VectorOf(r), limit))
  }

  /** o lists exactly the operations of the replica s. */
  ghost predicate Lists(s: OpMap, o: seq<Op>) {
    Keyed(s) && Elems(o) == s.Values
  }

  lemma OrderLists(col: Collation, s: OpMap)
    requires StrictTotal(col) && Keyed(s)
    ensures Lists(s, OrderedOps(col, s))
  {
    OrderedOpsPermute(col, s);
  }

  // ---------- Marks ----------

  lemma MarkIn(byId: OpMap, k: string, a: string, n: nat)
    requires k in byId && MarkOf(byId[k]) == {(a, n)}
    ensures (a, n) in MarksIn(byId) && n in SeqsOf(MarksIn(byId), a)
  {
    assert byId[k] in byId.Values;
    assert (a, n) in MarkOf(byId[k]);
  }

  lemma MarkBack(byId: OpMap, a: string, n: nat) returns (k: string)
    requires n in SeqsOf(MarksIn(byId), a)
    ensures k in byId && MarkOf(byId[k]) == {(a, n)}
  {
    var op :| op in byId.Values && (a, n) in MarkOf(op);
    k :| k in byId && byId[k] == op;
  }

  lemma MarksGrow(r: OpMap, r': OpMap)
    requires Extends(r, r')
    ensures MarksIn(r) <= MarksIn(r')
  {
    forall m | m in MarksIn(r) ensures m in MarksIn(r') {
      var op :| op in r.Values && m in MarkOf(op);
      var k :| k in r && r[k] == op;
      assert r'[k] in r'.Values;
    }
  }

  lemma RaisedByNext(marks: Marks, marks': Marks, a: string)
    requires marks <= marks'
    requires At(ContiguousVector(marks), a) + 1 in SeqsOf(marks', a)
    ensures At(ContiguousVector(marks), a) < At(ContiguousVector(marks'), a)
  {
    var c, c' := At(ContiguousVector(marks), a), At(ContiguousVector(marks'), a);
    assert c <= c' by { ContiguousMonotone(marks, marks', a); }
    assert IsContiguous(SeqsOf(marks', a), c') by { ContiguousLargest(marks', a); }
  }

  // ---------- The first operation of a batch ----------

  lemma FirstNewer(order: seq<Op>, want: Vector) returns (i: nat)
    requires Newer(order, want) != []
    ensures i < |order| && order[i] == Newer(order, want)[0] && IsNewer(order[i], want)
    ensures Newer(order[..i], want) == []
  {
    var m := CutPoint(order, want, 1);
    i := m - 1;
    assert order[..m][..i] == order[..i];
  }

  lemma NotNewer(order: seq<Op>, want: Vector, j: nat)
    requires Newer(order, want) == [] && j < |order|
    ensures !IsNewer(order[j], want)
  {
    NewerElems(order, want);
    assert order[j] in order;
  }

  lemma TruncateHead(ops: seq<Op>, limit: Option<real>) returns (n: nat)
    ensures n <= |ops| && Truncate(ops, limit) == ops[..n]
    ensures ops != [] ==> n > 0
  {
    n := |Truncate(ops, limit)|;
  }

  ghost predicate EarlierMark(order: seq<Op>, i: int, a: string, n: nat) {
    exists j :: 0 <= j < i && j < |order| && MarkOf(order[j]) == {(a, n)}
  }

  /** The operation at i precedes operation number n of its own author, which should come first. */
  ghost predicate Offends(order: seq<Op>, i: int, n: nat) {
    0 <= i < |order| && MarkOf(order[i]) != {} && 1 <= n < SeqOf(order[i]) && !EarlierMark(order, i, AuthorOf(order[i]), n)
  }

  /** Each author's operations are listed from 1 upwards without gaps. */
  ghost predicate InSeqOrder(order: seq<Op>) {
    forall i, n :: !Offends(order, i, n)
  }

  /** No numbered operation lacks an author. */
  ghost predicate AllAuthored(ops: seq<Op>) {
    forall i :: 0 <= i < |ops| && SeqOf(ops[i]) > 0 ==> AuthorOf(ops[i]) != ""
  }

  ghost predicate Raises(u: Vector, v: Vector) {
    exists a :: At(u, a) < At(v, a)
  }

  /** The head of the selection carries the very next number of its author. */
  lemma HeadIsNext(order: seq<Op>, want: Vector)
    requires InSeqOrder(order) && AllAuthored(order) && Newer(order, want) != []
    ensures var op := Newer(order, want)[0];
      op in order && MarkOf(op) == {(AuthorOf(op), At(want, AuthorOf(op)) + 1)}
  {
    hide Trim;
    var i := FirstNewer(order, want);
    var a, c := AuthorOf(order[i]), At(want, AuthorOf(order[i]));
    assert MarkOf(order[i]) == {(a, SeqOf(order[i]))};
    if c + 1 < SeqOf(order[i]) {
      assert !Offends(order, i, c + 1);
      var j :| 0 <= j < i && MarkOf(order[j]) == {(a, c + 1)};
      assert (a, c + 1) in MarkOf(order[j]);
      assert order[..i][j] == order[j];
      NotNewer(order[..i], want, j);
    }
  }

  lemma BatchElems(o: seq<Op>, want: Vector, limit: Option<real>, op: Op)
    requires op in BatchFor(o, want, limit)
    ensures op in o && IsNewer(op, want)
  {
    var n := TruncateHead(Newer(o, want), limit);
    assert op in Newer(o, want);
    NewerElems(o, want);
  }

  lemma ListedNamed(s: OpMap, o: seq<Op>, op: Op)
    requires Lists(s, o) && op in o
    ensures op.opId in s && s[op.opId] == op
  {
    assert op in Elems(o);
    var k :| k in s && s[k] == op;
    assert NamedOp(s[k], k);
  }

  lemma BatchFrom(s: OpMap, o: seq<Op>, r: OpMap, limit: Option<real>)
    requires Lists(s, o)
    ensures Joined(s, r, IdsOf(BatchFor(o, VectorOf(r), limit)), Round(o, r, limit))
  {
    var b := BatchFor(o, VectorOf(r), limit);
    forall op | op in b ensures op.opId in s && s[op.opId] == op {
      BatchElems(o, VectorOf(r), limit, op);
      ListedNamed(s, o, op);
    }
    ReceiveFrom(s, r, b);
  }

  // ---------- Progress ----------

  /** One round changes nothing the receiver holds and never lowers its vector. */
  lemma RoundExtends(s: OpMap, o: seq<Op>, r: OpMap, limit: Option<real>)
    requires Lists(s, o) && Keyed(r) && Agree(s, r)
    ensures var r' := Round(o, r, limit);
      Keyed(r') && Agree(s, r') && Extends(r, r') && r'.Keys <= r.Keys + s.Keys && MarksIn(r) <= MarksIn(r')
  {
    var b := BatchFor(o, VectorOf(r), limit);
    BatchFrom(s, o, r, limit);
    JoinedKeyed(s, r, IdsOf(b), Receive(r, b));
    MarksGrow(r, Receive(r, b));
  }

  lemma RoundHolds(s: OpMap, o: seq<Op>, r: OpMap, limit: Option<real>, op: Op)
    requires Lists(s, o) && Agree(s, r) && op in BatchFor(o, VectorOf(r), limit)
    ensures op.opId in Round(o, r, limit) && Round(o, r, limit)[op.opId] == op
  {
    BatchFrom(s, o, r, limit);
    assert op.opId in IdsOf(BatchFor(o, VectorOf(r), limit));
    BatchElems(o, VectorOf(r), limit, op);
    ListedNamed(s, o, op);
  }

  lemma BatchHead(o: seq<Op>, want: Vector, limit: Option<real>)
    requires InSeqOrder(o) && AllAuthored(o) && BatchFor(o, want, limit) != []
    ensures var op := BatchFor(o, want, limit)[0];
      op in o && SeqOf(op) == At(want, AuthorOf(op)) + 1 && MarkOf(op) == {(AuthorOf(op), At(want, AuthorOf(op)) + 1)}
  {
    var n := TruncateHead(Newer(o, want), limit);
    HeadIsNext(o, want);
    var op := Newer(o, want)[0];
    assert (AuthorOf(op), At(want, AuthorOf(op)) + 1) in MarkOf(op);
  }

  lemma NextIsCounted(s: OpMap, o: seq<Op>, r: OpMap, limit: Option<real>, op: Op, a: string)
    requires Lists(s, o) && Keyed(r) && Agree(s, r)
    requires op in BatchFor(o, VectorOf(r), limit) && MarkOf(op) == {(a, At(VectorOf(r), a) + 1)}
    ensures At(VectorOf(r), a) < At(VectorOf(Round(o, r, limit)), a)
  {
    var v, r' := VectorOf(r), Round(o, r, limit);
    assert At(v, a) + 1 in SeqsOf(MarksIn(r'), a) by {
      RoundHolds(s, o, r, limit, op);
      MarkIn(r', op.opId, a, At(v, a) + 1);
    }
    assert MarksIn(r) <= MarksIn(r') by { RoundExtends(s, o, r, limit); }
    RaisedByNext(MarksIn(r), MarksIn(r'), a);
  }

  /** A nonempty batch strictly raises the receiver's vector, at the author of its first operation. */
  lemma Progress(s: OpMap, o: seq<Op>, r: OpMap, limit: Option<real>)
    requires Lists(s, o) && Keyed(r) && Agree(s, r)
    requires InSeqOrder(o) && AllAuthored(o) && BatchFor(o, VectorOf(r), limit) != []
    ensures var op := BatchFor(o, VectorOf(r), limit)[0];
      op in o && SeqOf(op) == At(VectorOf(r), AuthorOf(op)) + 1 <= At(VectorOf(Round(o, r, limit)), AuthorOf(op))
  {
    hide BatchFor, Round, VectorOf;
    BatchHead(o, VectorOf(r), limit);
    var op := BatchFor(o, VectorOf(r), limit)[0];
    NextIsCounted(s, o, r, limit, op, AuthorOf(op));
  }

  lemma NeverLowers(s: OpMap, o: seq<Op>, r: OpMap, limit: Option<real>, a: string)
    requires Lists(s, o) && Keyed(r) && Agree(s, r)
    ensures At(VectorOf(r), a) <= At(VectorOf(Round(o, r, limit)), a)
  {
    RoundExtends(s, o, r, limit);
    ContiguousMonotone(MarksIn(r), MarksIn(Round(o, r, limit)), a);
  }

  // ---------- Progress fails exactly when the sender's order is not by sequence number ----------

  /** Whatever part of the sender's operations a receiver holds, a nonempty batch raises its vector. */
  ghost predicate ProgressAlways(s: OpMap, o: seq<Op>) {
    forall r, limit :: Extends(r, s) && BatchFor(o, VectorOf(r), limit) != [] ==>
      Raises(VectorOf(r), VectorOf(Round(o, r, limit)))
  }

  /** The part of s named by the first i ids of its order. */
  ghost function Prefix(s: OpMap, ids: seq<string>): OpMap
    requires Elems(ids) <= s.Keys
  {
    map k | k in Elems(ids) :: s[k]
  }

  lemma {:induction false} FirstOffender(order: seq<Op>, m: nat) returns (i: nat, n: nat)
    requires m <= |order| && exists i, n :: i < m && Offends(order, i, n)
    ensures i < m && Offends(order, i, n) && forall j, k :: j < i ==> !Offends(order, j, k)
  {
    if exists j, k :: j < m - 1 && Offends(order, j, k) {
      i, n := FirstOffender(order, m - 1);
    } else {
      i, n :| i < m && Offends(order, i, n);
    }
  }

  lemma PrefixMark(s: OpMap, ids: seq<string>, i: nat, a: string, n: nat)
    requires Elems(ids) <= s.Keys && i <= |ids|
    ensures Elems(ids[..i]) <= s.Keys
    ensures n in SeqsOf(MarksIn(Prefix(s, ids[..i])), a) <==> EarlierMark(OpsAt(s, ids), i, a, n)
  {
    var r, order := Prefix(s, ids[..i]), OpsAt(s, ids);
    assert Elems(ids[..i]) <= Elems(ids);
    if n in SeqsOf(MarksIn(r), a) {
      var k := MarkBack(r, a, n);
      var j :| 0 <= j < i && ids[..i][j] == k;
      assert MarkOf(order[j]) == {(a, n)};
    }
    if EarlierMark(order, i, a, n) {
      var j :| 0 <= j < i && j < |order| && MarkOf(order[j]) == {(a, n)};
      assert ids[..i][j] == ids[j];
      MarkIn(r, ids[j], a, n);
    }
  }

  /** Operations before the first offender are already covered by the vector of the prefix. */
  lemma CoveredBefore(s: OpMap, ids: seq<string>, i: nat, j: nat)
    requires Elems(ids) <= s.Keys && j < i <= |ids|
    requires AllAuthored(OpsAt(s, ids)) && forall k :: !Offends(OpsAt(s, ids), j, k)
    ensures !IsNewer(OpsAt(s, ids)[j], VectorOf(Prefix(s, ids[..i])))
  {
    var order, r := OpsAt(s, ids), Prefix(s, ids[..i]);
    var a := AuthorOf(order[j]);
    forall n | EarlierMark(order, i, a, n) ensures n in SeqsOf(MarksIn(r), a) {
      PrefixMark(s, ids, i, a, n);
    }
    Covered(order, MarksIn(r), i, j);
  }

  lemma Covered(order: seq<Op>, marks: Marks, i: nat, j: nat)
    requires j < i <= |order| && AllAuthored(order) && forall k :: !Offends(order, j, k)
    requires var a := AuthorOf(order[j]); forall n :: EarlierMark(order, i, a, n) ==> n in SeqsOf(marks, a)
    ensures !IsNewer(order[j], ContiguousVector(marks))
  {
    var a, n := AuthorOf(order[j]), SeqOf(order[j]);
    var c := At(ContiguousVector(marks), a);
    assert IsContiguous(SeqsOf(marks, a), c) by { ContiguousLargest(marks, a); }
    NextEarlier(order, i, j, c + 1);
  }

  lemma NextEarlier(order: seq<Op>, i: nat, j: nat, n: nat)
    requires j < i <= |order| && AllAuthored(order) && forall k :: !Offends(order, j, k)
    ensures 1 <= n <= SeqOf(order[j]) ==> EarlierMark(order, i, AuthorOf(order[j]), n)
  {
    var a := AuthorOf(order[j]);
    if 1 <= n <= SeqOf(order[j]) {
      assert MarkOf(order[j]) == {(a, SeqOf(order[j]))};
      assert !Offends(order, j, n);
      var k: nat := j;
      if n < SeqOf(order[j]) {
        k :| k < j && MarkOf(order[k]) == {(a, n)};
      }
    }
  }

  lemma {:induction false} NewerPrefix(ops: seq<Op>, want: Vector, m: nat)
    requires m <= |ops|
    ensures Newer(ops[..m], want) <= Newer(ops, want)
  {
    if m == |ops| {
      assert ops[..m] == ops;
    } else {
      var init := ops[..|ops| - 1];
      NewerPrefix(init, want, m);
      assert init[..m] == ops[..m];
    }
  }

  lemma {:induction false} NoneNewer(ops: seq<Op>, want: Vector)
    requires forall j :: 0 <= j < |ops| ==> !IsNewer(ops[j], want)
    ensures Newer(ops, want) == []
  {
    if ops != [] {
      NoneNewer(ops[..|ops| - 1], want);
    }
  }

  /** If nothing before position i is newer and position i is, a batch of one is that operation. */
  lemma SingleBatch(order: seq<Op>, want: Vector, i: nat)
    requires i < |order| && IsNewer(order[i], want) && forall j :: 0 <= j < i ==> !IsNewer(order[j], want)
    ensures BatchFor(order, want, Some(1.0)) == [order[i]]
  {
    NoneNewer(order[..i], want);
    assert order[..i + 1][..i] == order[..i];
    assert Newer(order[..i + 1], want) == [order[i]];
    NewerPrefix(order, want, i + 1);
  }

  /** A number beyond the next one leaves every contiguous count where it was. */
  lemma GapStays(marks: Marks, a: string, m: nat, x: string)
    requires At(ContiguousVector(marks), a) + 1 < m
    ensures At(ContiguousVector(marks + {(a, m)}), x) == At(ContiguousVector(marks), x)
  {
    var c, c' := At(ContiguousVector(marks), x), At(ContiguousVector(marks + {(a, m)}), x);
    assert IsContiguous(SeqsOf(marks, x), c) by { ContiguousLargest(marks, x); }
    assert IsContiguous(SeqsOf(marks + {(a, m)}, x), c') by { ContiguousLargest(marks + {(a, m)}, x); }
    SeqsUnion(marks, {(a, m)}, x);
    assert SeqsOf({(a, m)}, x) == if x == a then {m} else {};
    ContiguousUnique(SeqsOf(marks + {(a, m)}, x), c, c');
  }

  lemma AddMarks(s: OpMap, r: OpMap, op: Op)
    requires Keyed(s) && op.opId in s && s[op.opId] == op && op.opId !in r
    ensures MarksIn(Receive(r, [op])) == MarksIn(r) + MarkOf(op)
  {
    assert Normalize(op) == op by { assert NamedOp(s[op.opId], op.opId); }
    var r' := Receive(r, [op]);
    assert Receive(r, [op][..0]) == r;
    assert r' == r[op.opId := op];
    assert r'.Values == r.Values + {op} by {
      forall v | v in r.Values ensures v in r'.Values {
        var k :| k in r && r[k] == v;
        assert r'[k] == v;
      }
      assert r'[op.opId] == op;
    }
  }

  /** Vectors that read the same at every author select the same operations. */
  lemma {:induction false} NewerSame(ops: seq<Op>, v: Vector, v': Vector)
    requires forall a :: At(v, a) == At(v', a)
    ensures Newer(ops, v) == Newer(ops, v')
  {
    if ops != [] {
      NewerSame(ops[..|ops| - 1], v, v');
      assert At(v, AuthorOf(ops[|ops| - 1])) == At(v', AuthorOf(ops[|ops| - 1]));
    }
  }

  /** Request and ingest n times. */
  ghost function Rounds(o: seq<Op>, r: OpMap, limit: Option<real>, n: nat): OpMap {
    if n == 0 then r else Round(o, Rounds(o, r, limit, n - 1), limit)
  }

  /** Over a gap: sending an operation beyond the next number raises nothing, the same one-operation batch is cut again,
      and ingesting it again changes nothing. */
  lemma GapStalls(s: OpMap, order: seq<Op>, r: OpMap, op: Op)
    requires Keyed(s) && op.opId in s && s[op.opId] == op && op.opId !in r && Extends(r, s)
    requires BatchFor(order, VectorOf(r), Some(1.0)) == [op]
    requires SeqOf(op) == 0 || AuthorOf(op) == "" || At(VectorOf(r), AuthorOf(op)) + 1 < SeqOf(op)
    ensures var r' := Round(order, r, Some(1.0));
      && (forall a :: At(VectorOf(r'), a) == At(VectorOf(r), a))
      && BatchFor(order, VectorOf(r'), Some(1.0)) == [op]
      && Round(order, r', Some(1.0)) == r'
    ensures !ProgressAlways(s, order)
  {
    var r' := Round(order, r, Some(1.0));
    assert MarksIn(r') == MarksIn(r) + MarkOf(op) by { AddMarks(s, r, op); }
    forall x ensures At(VectorOf(r'), x) == At(VectorOf(r), x) {
      if MarkOf(op) == {} {
        assert MarksIn(r') == MarksIn(r);
      } else {
        GapStays(MarksIn(r), AuthorOf(op), SeqOf(op), x);
      }
    }
    assert !Raises(VectorOf(r), VectorOf(r'));
    NewerSame(order, VectorOf(r), VectorOf(r'));
    HeldAgain(s, r, op);
    hide VectorOf, MarksIn, MarkOf, Keyed, Raises, Newer;
  }

  lemma HeldAgain(s: OpMap, r: OpMap, op: Op)
    requires Keyed(s) && op.opId in s && s[op.opId] == op
    ensures Receive(Receive(r, [op]), [op]) == Receive(r, [op])
  {
    assert NamedOp(s[op.opId], op.opId);
    assert Receive(r, [op][..0]) == r && Receive(Receive(r, [op]), [op][..0]) == Receive(r, [op]);
  }

  /** However often the exchange is repeated over a gap, it sends that one operation and nothing moves after the first time. */
  lemma {:induction false} GapStallsForever(s: OpMap, order: seq<Op>, r: OpMap, op: Op, n: nat)
    requires Keyed(s) && op.opId in s && s[op.opId] == op && op.opId !in r && Extends(r, s)
    requires BatchFor(order, VectorOf(r), Some(1.0)) == [op]
    requires SeqOf(op) == 0 || AuthorOf(op) == "" || At(VectorOf(r), AuthorOf(op)) + 1 < SeqOf(op)
    ensures Rounds(order, r, Some(1.0), n) == if n == 0 then r else Round(order, r, Some(1.0))
    ensures BatchFor(order, VectorOf(Rounds(order, r, Some(1.0), n)), Some(1.0)) == [op]
  {
    hide BatchFor, VectorOf, Round, Keyed, Extends;
    GapStalls(s, order, r, op);
    if n > 0 { GapStallsForever(s, order, r, op, n - 1); }
  }

  /** At the first offender, the vector of what precedes it stops short, and sending it alone changes nothing. */
  lemma OffenderStalls(s: OpMap, ids: seq<string>, i: nat, n: nat)
    requires Keyed(s) && Distinct(ids) && Elems(ids) == s.Keys && AllAuthored(OpsAt(s, ids))
    requires Offends(OpsAt(s, ids), i, n) && forall j, k :: j < i ==> !Offends(OpsAt(s, ids), j, k)
    ensures !ProgressAlways(s, OpsAt(s, ids))
  {
    var order, r := OpsAt(s, ids), Prefix(s, ids[..i]);
    var a, c := AuthorOf(order[i]), At(VectorOf(r), AuthorOf(order[i]));
    assert c < n by {
      PrefixMark(s, ids, i, a, n);
      ContiguousLargest(MarksIn(r), a);
    }
    forall j | 0 <= j < i ensures !IsNewer(order[j], VectorOf(r)) {
      CoveredBefore(s, ids, i, j);
    }
    SingleBatch(order, VectorOf(r), i);
    assert ids[i] !in r by { TakeOne(ids, i); }
    assert NamedOp(s[ids[i]], ids[i]);
    GapStalls(s, order, r, order[i]);
  }

  /** A receiver that already holds everything cannot be raised. */
  lemma FullReplicaStalls(s: OpMap, o: seq<Op>, i: nat)
    requires Lists(s, o) && i < |o| && IsNewer(o[i], VectorOf(s))
    ensures !ProgressAlways(s, o)
  {
    BatchFrom(s, o, s, None);
    var b := BatchFor(o, VectorOf(s), None);
    assert b != [] by {
      NewerElems(o, VectorOf(s));
      assert o[i] in Newer(o, VectorOf(s));
    }
    assert Round(o, s, None) == s;
    assert !Raises(VectorOf(s), VectorOf(s));
  }

  /** An operation with a number but no author is sent for ever. */
  lemma UnauthoredStalls(s: OpMap, o: seq<Op>)
    requires Lists(s, o) && !AllAuthored(o)
    ensures !ProgressAlways(s, o)
  {
    var i :| 0 <= i < |o| && SeqOf(o[i]) > 0 && AuthorOf(o[i]) == "";
    assert "" !in Authors(MarksIn(s));
    FullReplicaStalls(s, o, i);
  }

  lemma SubReplica(s: OpMap, r: OpMap)
    requires Keyed(s) && Extends(r, s)
    ensures Keyed(r) && Agree(s, r)
  {
  }

  lemma InOrderProgresses(s: OpMap, o: seq<Op>)
    requires Lists(s, o) && InSeqOrder(o) && AllAuthored(o)
    ensures ProgressAlways(s, o)
  {
    hide Lists, InSeqOrder, AllAuthored, VectorOf, BatchFor, Round;
    forall r, limit | Extends(r, s) && BatchFor(o, VectorOf(r), limit) != []
      ensures Raises(VectorOf(r), VectorOf(Round(o, r, limit)))
    {
      assert Keyed(s) by { ListsKeyed(s, o); }
      SubReplica(s, r);
      Progress(s, o, r, limit);
    }
  }

  lemma ListsKeyed(s: OpMap, o: seq<Op>)
    requires Lists(s, o)
    ensures Keyed(s)
  {
  }

  lemma OutOfOrderStalls(s: OpMap, ids: seq<string>)
    requires Keyed(s) && Distinct(ids) && Elems(ids) == s.Keys
    requires AllAuthored(OpsAt(s, ids)) && !InSeqOrder(OpsAt(s, ids))
    ensures !ProgressAlways(s, OpsAt(s, ids))
  {
    hide ProgressAlways, AllAuthored, Keyed, Distinct;
    var o := OpsAt(s, ids);
    var i0, n0 :| Offends(o, i0, n0);
    var i, n := FirstOffender(o, |o|);
    OffenderStalls(s, ids, i, n);
  }

  /** Progress is guaranteed exactly when every numbered operation has an author and the order lists
      each author's operations from 1 upwards without gaps. */
  lemma ProgressExactly(s: OpMap, ids: seq<string>)
    requires Keyed(s) && Distinct(ids) && Elems(ids) == s.Keys
    ensures var o := OpsAt(s, ids);
      ProgressAlways(s, o) <==> InSeqOrder(o) && AllAuthored(o)
  {
    hide ProgressAlways, InSeqOrder, AllAuthored, Keyed, Distinct;
    var o := OpsAt(s, ids);
    assert Lists(s, o) by { OpsAtElems(s, ids); }
    if InSeqOrder(o) && AllAuthored(o) {
      InOrderProgresses(s, o);
    } else if AllAuthored(o) {
      OutOfOrderStalls(s, ids);
    } else {
      UnauthoredStalls(s, o);
    }
  }

  // ---------- Completion ----------

  /** (author, sequence number) names one operation across the two replicas. */
  ghost predicate UniqueMarks(s: OpMap, r: OpMap) {
    forall k, k' :: k in s && k' in r && MarkOf(s[k]) == MarkOf(r[k']) && MarkOf(s[k]) != {} ==> s[k] == r[k']
  }

  /** Every operation carries an author and a positive number. */
  ghost predicate AllCount(s: OpMap) {
    forall k :: k in s ==> MarkOf(s[k]) != {}
  }

  /** What the vector covers, the receiver holds. */
  lemma CoveredIsHeld(s: OpMap, r: OpMap, k: string)
    requires Keyed(s) && Keyed(r) && UniqueMarks(s, r) && k in s && MarkOf(s[k]) != {}
    requires !IsNewer(s[k], VectorOf(r))
    ensures k in r && r[k] == s[k]
  {
    var a, n := AuthorOf(s[k]), SeqOf(s[k]);
    assert n in SeqsOf(MarksIn(r), a) by { ContiguousLargest(MarksIn(r), a); }
    var k' := MarkBack(r, a, n);
    assert s[k] == r[k'];
    assert NamedOp(s[k], k) && NamedOp(r[k'], k');
  }

  /** An empty batch means the receiver lacks nothing. */
  lemma EmptyBatchIsComplete(s: OpMap, o: seq<Op>, r: OpMap, limit: Option<real>)
    requires Lists(s, o) && Keyed(r) && UniqueMarks(s, r) && AllCount(s)
    requires BatchFor(o, VectorOf(r), limit) == []
    ensures Extends(s, r)
  {
    var n := TruncateHead(Newer(o, VectorOf(r)), limit);
    forall k | k in s ensures k in r && r[k] == s[k] {
      assert s[k] in Elems(o);
      NewerElems(o, VectorOf(r));
      CoveredIsHeld(s, r, k);
    }
  }

  /** Without a limit one batch is enough. */
  lemma OneBatchSuffices(s: OpMap, o: seq<Op>, r: OpMap)
    requires Lists(s, o) && Keyed(r) && Agree(s, r) && UniqueMarks(s, r) && AllCount(s)
    ensures Round(o, r, None) == s + r
  {
    hide *;
    BatchFrom(s, o, r, None);
    forall k | k in s ensures k in Round(o, r, None) {
      OneBatchReaches(s, o, r, k);
    }
    JoinAll(s, r, IdsOf(BatchFor(o, VectorOf(r), None)), Round(o, r, None));
  }

  lemma JoinAll(s: OpMap, r: OpMap, ids: set<string>, r': OpMap)
    requires Agree(s, r) && Joined(s, r, ids, r') && forall k :: k in s ==> k in r'
    ensures r' == s + r
  {
    assert r'.Keys == s.Keys + r.Keys;
  }

  lemma OneBatchReaches(s: OpMap, o: seq<Op>, r: OpMap, k: string)
    requires Lists(s, o) && Keyed(r) && UniqueMarks(s, r) && AllCount(s) && k in s
    requires Joined(s, r, IdsOf(BatchFor(o, VectorOf(r), None)), Round(o, r, None))
    ensures k in Round(o, r, None)
  {
    assert NamedOp(s[k], k);
    if IsNewer(s[k], VectorOf(r)) {
      hide VectorOf, Keyed, UniqueMarks, AllCount;
      assert s[k] in Elems(o);
      NewerElems(o, VectorOf(r));
      assert s[k].opId in IdsOf(BatchFor(o, VectorOf(r), None));
    } else {
      CoveredIsHeld(s, r, k);
    }
  }
}
