/** What a requested vector says, and what the batch that answers it holds. */
module CrdtRequests {
  import opened Helpers
  import opened Orders
  import opened Ids
  import opened CrdtOps
  import opened CrdtVectors
  import opened CrdtAnalysis
  import opened CrdtSync
  import opened CrdtSyncTheorems

  type Entries = seq<(string, real)>

  // ---------- Records as entries ----------

  /** The last entry of a record whose trimmed key is this author. */
  ghost predicate LastEntry(entries: Entries, a: string, i: int) {
    0 <= i < |entries| && Trim(entries[i].0) == a && forall j :: i < j < |entries| ==> Trim(entries[j].0) != a
  }

  /** What a record says of an author: the whole part of its last number, and zero for none. */
  ghost predicate Says(entries: Entries, a: string, n: nat) {
    if a != "" && exists i :: LastEntry(entries, a, i) then exists i :: LastEntry(entries, a, i) && n == Counter(entries[i].1)
    else n == 0
  }

  lemma SaysOnce(entries: Entries, a: string, m: nat, n: nat)
    requires Says(entries, a, m) && Says(entries, a, n)
    ensures m == n
  {
  }

  /** The normalized vector reads what the record says, for every author. */
  lemma {:induction false} VectorReads(entries: Entries, a: string)
    ensures Says(entries, a, At(NormalizeVector(entries), a))
    ensures a in NormalizeVector(entries) ==> a != ""
    ensures a != "" && (exists i :: LastEntry(entries, a, i)) ==> a in NormalizeVector(entries)
  {
    if entries != [] {
      var n := |entries| - 1;
      var init, last := entries[..n], entries[n];
      VectorReads(init, a);
      hide Trim, Counter;
      if Trim(last.0) == a {
        assert LastEntry(entries, a, n);
      } else {
        forall i ensures LastEntry(entries, a, i) <==> LastEntry(init, a, i) {
          assert 0 <= i < n ==> init[i] == entries[i];
        }
      }
    }
  }

  // ---------- Merging and comparing records ----------

  /** Merging reads the greater number of the two records. */
  lemma MergeReads(left: Entries, right: Entries, a: string, m: nat, n: nat)
    requires Says(left, a, m) && Says(right, a, n)
    ensures At(Merge(NormalizeVector(left), NormalizeVector(right)), a) == if m < n then n else m
  {
    VectorReads(left, a);
    VectorReads(right, a);
    SaysOnce(left, a, m, At(NormalizeVector(left), a));
    SaysOnce(right, a, n, At(NormalizeVector(right), a));
    MergeAt(NormalizeVector(left), NormalizeVector(right), a);
    hide Says;
  }

  /** The difference has exactly the authors of which the remote record says more, with its number. */
  lemma DiffReads(local: Entries, remote: Entries, a: string, m: nat, n: nat)
    requires Says(local, a, m) && Says(remote, a, n)
    ensures var d := Diff(NormalizeVector(local), NormalizeVector(remote)); (a in d <==> m < n) && (a in d ==> d[a] == n)
  {
    VectorReads(local, a);
    VectorReads(remote, a);
    SaysOnce(local, a, m, At(NormalizeVector(local), a));
    SaysOnce(remote, a, n, At(NormalizeVector(remote), a));
    hide Says;
  }

  // ---------- A request lists a vector ----------

  /** The entries are those of the vector, in any order. */
  ghost predicate ListsVector(entries: Entries, v: Vector) {
    && (forall e <- entries :: e.0 in v && e.1 == v[e.0] as real)
    && (forall a <- v :: exists i :: 0 <= i < |entries| && entries[i].0 == a)
  }

  ghost predicate CleanKeys(v: Vector) {
    forall a <- v :: a != "" && Trim(a) == a
  }

  lemma VectorKeysClean(byId: OpMap)
    ensures CleanKeys(VectorOf(byId))
  {
    forall a <- VectorOf(byId) ensures a != "" && Trim(a) == a {
      var m :| m in MarksIn(byId) && m.0 == a;
      var op :| op in byId.Values && m in MarkOf(op);
      TrimIdempotent(op.authorDeviceId);
      hide Trim, Contiguous;
    }
  }

  lemma ListingReads(entries: Entries, v: Vector)
    requires ListsVector(entries, v) && CleanKeys(v)
    ensures NormalizeVector(entries) == v
  {
    hide Trim, NormalizeVector;
    forall a ensures a in NormalizeVector(entries) <==> a in v
      ensures a in v ==> At(NormalizeVector(entries), a) == v[a]
    {
      ListingReadsAt(entries, v, a);
    }
  }

  lemma ListingReadsAt(entries: Entries, v: Vector, a: string)
    requires ListsVector(entries, v) && CleanKeys(v)
    ensures a in NormalizeVector(entries) <==> a in v
    ensures a in v ==> At(NormalizeVector(entries), a) == v[a]
  {
    VectorReads(entries, a);
    forall i | LastEntry(entries, a, i) ensures a in v && entries[i].1 == v[a] as real && Counter(entries[i].1) == v[a] {
      assert entries[i] in entries;
    }
    KeysListed(entries, a);
    if a in v {
      var i :| 0 <= i < |entries| && entries[i].0 == a;
      var l := LastOf(entries, a, i);
    }
    hide Trim, NormalizeVector, Counter;
  }

  lemma {:induction false} KeysListed(entries: Entries, a: string)
    ensures a in NormalizeVector(entries) ==> exists i :: LastEntry(entries, a, i)
  {
    if a in NormalizeVector(entries) {
      var n := |entries| - 1;
      KeysListed(entries[..n], a);
      hide Trim, Counter;
      if Trim(entries[n].0) == a {
        assert LastEntry(entries, a, n);
      } else {
        var i :| LastEntry(entries[..n], a, i);
        assert LastEntry(entries, a, i);
      }
    }
  }

  lemma {:induction false} LastOf(entries: Entries, a: string, i: nat) returns (l: int)
    requires i < |entries| && Trim(entries[i].0) == a
    ensures LastEntry(entries, a, l)
    decreases |entries| - i
  {
    l := i;
    if j :| i < j < |entries| && Trim(entries[j].0) == a { l := LastOf(entries, a, j); }
    hide Trim;
  }

  /** Asked with a listing of the receiver's vector, the selection is the batch the synchronisation theorems are about. */
  lemma RequestedBatch(col: Collation, s: OpMap, r: OpMap, entries: Entries, limit: Option<real>)
    requires StrictTotal(col) && Keyed(s) && ListsVector(entries, VectorOf(r))
    ensures Truncate(Newer(OrderedOps(col, s), NormalizeVector(entries)), limit) == BatchFor(OrderedOps(col, s), VectorOf(r), limit)
  {
    VectorKeysClean(r);
    ListingReads(entries, VectorOf(r));
    hide OrderedOps, VectorOf, NormalizeVector, ListsVector;
  }

  // ---------- The batch ----------

  /** The operations to send are those whose number is beyond what the vector says of their author. */
  lemma NewerReads(o: seq<Op>, want: Vector, op: Op)
    ensures op in Newer(o, want) <==> op in o && (var a := Trim(op.authorDeviceId); Counter(op.authorSeq) > if a in want then want[a] else 0)
  {
    NewerElems(o, want);
    hide Newer, Trim, Counter;
  }

  /** A batch is the first of them, as many as the limit says, at least one and at most all. */
  lemma BatchReads(o: seq<Op>, want: Vector, limit: Option<real>)
    ensures var newer, batch := Newer(o, want), BatchFor(o, want, limit);
      && batch == newer[..|batch|]
      && |batch| == match limit
         case None => |newer|
         case Some(x) => if x < 1.0 then (if |newer| == 0 then 0 else 1) else if x.Floor < |newer| then x.Floor else |newer|
  {
    hide Newer;
  }

  /** They are sent in the order of the sender. */
  lemma {:induction false} NewerInOrder(o: seq<Op>, want: Vector, i: nat, j: nat) returns (a: nat, b: nat)
    requires i < j < |Newer(o, want)|
    ensures a < b < |o| && o[a] == Newer(o, want)[i] && o[b] == Newer(o, want)[j]
  {
    var n := |o| - 1;
    var init := Newer(o[..n], want);
    if j < |init| {
      a, b := NewerInOrder(o[..n], want, i, j);
    } else {
      NewerElems(o[..n], want);
      assert init[i] in o[..n];
      a :| 0 <= a < n && o[a] == init[i];
      b := n;
    }
    hide IsNewer;
  }
}
