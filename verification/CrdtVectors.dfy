/**
 * Version vectors: what a replica holds of each author, with and without gaps. A replica is seen
 * through its marks: the (author, sequence number) pairs of the operations that count.
 */
module CrdtVectors {
  import opened Orders
  import opened Ids
  import opened CrdtOps

  type Marks = set<(string, nat)>
  type Vector = map<string, nat>

  function Max(a: nat, b: nat): nat {
    if a < b then b else a
  }

  /** `vector[author] || 0`. */
  function At(v: Vector, author: string): nat {
    if author in v then v[author] else 0
  }

  /** Operations without an author or with a non-positive number do not count. */
  function MarkOf(op: Op): Marks {
    var author, n := Trim(op.authorDeviceId), SeqOf(op);
    if author == "" || n <= 0 then {} else {(author, n)}
  }

  ghost function MarksOf(ops: set<Op>): Marks {
    set op, m | op in ops && m in MarkOf(op) :: m
  }

  ghost function SeqsOf(marks: Marks, author: string): set<nat> {
    set m | m in marks && m.0 == author :: m.1
  }

  ghost function Authors(marks: Marks): set<string> {
    set m | m in marks :: m.0
  }

  // ---------- Contiguous prefix of a set of numbers ----------

  ghost function RunFrom(seqs: set<nat>, n: nat): nat
    decreases seqs
  {
    if n in seqs then 1 + RunFrom(seqs - {n}, n + 1) else 0
  }

  /** n is the largest number with 1..n all present. */
  ghost predicate IsContiguous(seqs: set<nat>, n: nat) {
    (forall k :: 1 <= k <= n ==> k in seqs) && n + 1 !in seqs
  }

  lemma {:induction false} RunFromExact(seqs: set<nat>, n: nat)
    ensures forall k :: n <= k < n + RunFrom(seqs, n) ==> k in seqs
    ensures n + RunFrom(seqs, n) !in seqs
    decreases seqs
  {
    if n in seqs {
      RunFromExact(seqs - {n}, n + 1);
    }
  }

  ghost function Contiguous(seqs: set<nat>): (n: nat)
    ensures IsContiguous(seqs, n)
  {
    RunFromExact(seqs, 1);
    RunFrom(seqs, 1)
  }

  lemma ContiguousUnique(seqs: set<nat>, m: nat, n: nat)
    requires IsContiguous(seqs, m) && IsContiguous(seqs, n)
    ensures m == n
  {
    assert m + 1 <= n ==> m + 1 in seqs;
    assert n + 1 <= m ==> n + 1 in seqs;
  }

  ghost predicate IsMax(s: set<nat>, m: nat) {
    m in s && forall k :: k in s ==> k <= m
  }

  ghost predicate IsTop(s: set<nat>, m: nat) {
    if s == {} then m == 0 else IsMax(s, m)
  }

  lemma MaxExists(s: set<nat>) returns (m: nat)
    requires s != {}
    ensures IsMax(s, m)
  {
    var x :| x in s;
    var rest := s - {x};
    if rest == {} {
      m := x;
      assert s == {x};
    } else {
      var n := MaxExists(rest);
      m := Max(x, n);
      assert forall k :: k in s ==> k == x || k in rest;
    }
  }

  ghost function MaxOf(s: set<nat>): (m: nat)
    requires s != {}
    ensures IsMax(s, m)
  {
    assert exists m :: IsMax(s, m) by {
      var m := MaxExists(s);
    }
    var m :| IsMax(s, m); m
  }

  // ---------- The two vectors of a replica ----------

  ghost function ContiguousVector(marks: Marks): Vector {
    map a | a in Authors(marks) :: Contiguous(SeqsOf(marks, a))
  }

  ghost function ObservedVector(marks: Marks): Vector {
    map a | a in Authors(marks) :: (AuthorHasSeq(marks, a); MaxOf(SeqsOf(marks, a)))
  }

  lemma AuthorHasSeq(marks: Marks, a: string)
    ensures a in Authors(marks) <==> SeqsOf(marks, a) != {}
  {
    assert forall m :: m in marks && m.0 == a ==> m.1 in SeqsOf(marks, a);
  }

  /** The observed entry is the largest number held of that author, 0 if none. */
  lemma ObservedAt(marks: Marks, a: string)
    ensures IsTop(SeqsOf(marks, a), At(ObservedVector(marks), a))
  {
    AuthorHasSeq(marks, a);
  }

  /** The contiguous entry is the largest n with 1..n all present, for every author, held or not. */
  lemma ContiguousLargest(marks: Marks, a: string)
    ensures IsContiguous(SeqsOf(marks, a), At(ContiguousVector(marks), a))
    ensures At(ContiguousVector(marks), a) <= At(ObservedVector(marks), a)
  {
    AuthorHasSeq(marks, a);
    ObservedAt(marks, a);
    var n := At(ContiguousVector(marks), a);
    assert n >= 1 ==> n in SeqsOf(marks, a);
  }

  // ---------- Merge and difference ----------

  function Merge(left: Vector, right: Vector): Vector {
    map a | a in left.Keys + right.Keys :: Max(At(left, a), At(right, a))
  }

  function Diff(local: Vector, remote: Vector): Vector {
    map a | a in remote && remote[a] > At(local, a) :: remote[a]
  }

  lemma MergeAt(u: Vector, v: Vector, a: string)
    ensures At(Merge(u, v), a) == Max(At(u, a), At(v, a))
    ensures a in Merge(u, v) <==> a in u || a in v
  {
  }

  lemma SameVector(u: Vector, v: Vector)
    requires forall a :: (a in u <==> a in v) && At(u, a) == At(v, a)
    ensures u == v
  {
    assert forall a :: a in u ==> u[a] == At(u, a) && v[a] == At(v, a);
  }

  lemma MergeCommutes(u: Vector, v: Vector)
    ensures Merge(u, v) == Merge(v, u)
  {
    SameVector(Merge(u, v), Merge(v, u));
  }

  lemma MergeAssociates(u: Vector, v: Vector, w: Vector)
    ensures Merge(Merge(u, v), w) == Merge(u, Merge(v, w))
  {
    var l, r := Merge(Merge(u, v), w), Merge(u, Merge(v, w));
    forall a ensures (a in l <==> a in r) && At(l, a) == At(r, a) {
      MergeAt(u, v, a);
      MergeAt(v, w, a);
      MergeAt(Merge(u, v), w, a);
      MergeAt(u, Merge(v, w), a);
    }
    SameVector(l, r);
  }

  lemma MergeIdempotent(u: Vector)
    ensures Merge(u, u) == u
  {
    SameVector(Merge(u, u), u);
  }

  /** Merge is the least vector above both. */
  lemma MergeLeast(u: Vector, v: Vector, w: Vector)
    ensures (forall a :: At(Merge(u, v), a) <= At(w, a))
       <==> (forall a :: At(u, a) <= At(w, a)) && (forall a :: At(v, a) <= At(w, a))
  {
    assert forall a :: At(Merge(u, v), a) == Max(At(u, a), At(v, a));
  }

  /** A peer that applies only the difference ends where a full merge would. */
  lemma DiffSuffices(local: Vector, remote: Vector, a: string)
    ensures At(Merge(local, Diff(local, remote)), a) == At(Merge(local, remote), a)
    ensures a in Diff(local, remote) <==> At(local, a) < At(remote, a)
  {
  }

  // ---------- Union of two replicas ----------

  lemma SeqsUnion(x: Marks, y: Marks, a: string)
    ensures SeqsOf(x + y, a) == SeqsOf(x, a) + SeqsOf(y, a)
    ensures a in Authors(x + y) <==> a in Authors(x) || a in Authors(y)
  {
  }

  lemma MaxUnion(s: set<nat>, t: set<nat>, m: nat, n: nat, r: nat)
    requires IsTop(s, m) && IsTop(t, n) && IsTop(s + t, r)
    ensures r == Max(m, n)
  {
  }

  lemma ObservedUnionAt(x: Marks, y: Marks, a: string)
    ensures a in ObservedVector(x + y) <==> a in ObservedVector(x) || a in ObservedVector(y)
    ensures At(ObservedVector(x + y), a) == Max(At(ObservedVector(x), a), At(ObservedVector(y), a))
  {
    SeqsUnion(x, y, a);
    ObservedAt(x, a);
    ObservedAt(y, a);
    ObservedAt(x + y, a);
    MaxUnion(SeqsOf(x, a), SeqsOf(y, a), At(ObservedVector(x), a), At(ObservedVector(y), a), At(ObservedVector(x + y), a));
  }

  lemma ObservedUnion(x: Marks, y: Marks)
    ensures ObservedVector(x + y) == Merge(ObservedVector(x), ObservedVector(y))
  {
    var l, r := ObservedVector(x + y), Merge(ObservedVector(x), ObservedVector(y));
    forall a ensures (a in l <==> a in r) && At(l, a) == At(r, a) {
      ObservedUnionAt(x, y, a);
      MergeAt(ObservedVector(x), ObservedVector(y), a);
    }
    SameVector(l, r);
  }

  /** The contiguous entry of a union is at least the merge, and equals it exactly when neither side has the next number. */
  lemma ContiguousUnion(x: Marks, y: Marks, a: string)
    ensures var m := At(Merge(ContiguousVector(x), ContiguousVector(y)), a);
            var n := At(ContiguousVector(x + y), a);
      m <= n && (m == n <==> m + 1 !in SeqsOf(x, a) + SeqsOf(y, a))
  {
    var i, j, n := At(ContiguousVector(x), a), At(ContiguousVector(y), a), At(ContiguousVector(x + y), a);
    assert IsContiguous(SeqsOf(x, a), i) by { ContiguousLargest(x, a); }
    assert IsContiguous(SeqsOf(y, a), j) by { ContiguousLargest(y, a); }
    assert IsContiguous(SeqsOf(x, a) + SeqsOf(y, a), n) by {
      SeqsUnion(x, y, a);
      ContiguousLargest(x + y, a);
    }
    MergeAt(ContiguousVector(x), ContiguousVector(y), a);
    RunUnion(SeqsOf(x, a), SeqsOf(y, a), i, j, n);
  }

  lemma RunUnion(s: set<nat>, t: set<nat>, i: nat, j: nat, n: nat)
    requires IsContiguous(s, i) && IsContiguous(t, j) && IsContiguous(s + t, n)
    ensures Max(i, j) <= n
    ensures Max(i, j) == n <==> Max(i, j) + 1 !in s + t
  {
    var m := Max(i, j);
    assert n + 1 <= m ==> n + 1 in s + t;
    assert m + 1 <= n ==> m + 1 in s + t;
  }

  lemma ContiguousMonotone(x: Marks, y: Marks, a: string)
    requires x <= y
    ensures At(ContiguousVector(x), a) <= At(ContiguousVector(y), a)
  {
    ContiguousUnion(x, y, a);
    MergeAt(ContiguousVector(x), ContiguousVector(y), a);
    assert x + y == y;
  }

  // ---------- The loops of the source ----------

  lemma MarksOne(ops: seq<Op>, i: nat)
    requires i < |ops|
    ensures MarksOf(Elems(ops[..i + 1])) == MarksOf(Elems(ops[..i])) + MarkOf(ops[i])
  {
    TakeOne(ops, i);
  }

  method BuildObservedVersionVector(ops: seq<Op>) returns (observed: Vector)
    ensures observed == ObservedVector(MarksOf(Elems(ops)))
  {
    observed := map[];
    for i := 0 to |ops|
      invariant observed == ObservedVector(MarksOf(Elems(ops[..i])))
    {
      MarksOne(ops, i);
      var author, n := Trim(ops[i].authorDeviceId), SeqOf(ops[i]);
      ObserveOne(MarksOf(Elems(ops[..i])), author, n);
      if author != "" && n > 0 {
        observed := observed[author := Max(At(observed, author), n)];
      } else {
        assert MarksOf(Elems(ops[..i])) + {} == MarksOf(Elems(ops[..i]));
      }
    }
    assert ops[..|ops|] == ops;
  }

  lemma ObserveOne(marks: Marks, author: string, n: nat)
    ensures var v := ObservedVector(marks);
      ObservedVector(marks + {(author, n)}) == v[author := Max(At(v, author), n)]
  {
    var l, r := ObservedVector(marks + {(author, n)}), ObservedVector(marks)[author := Max(At(ObservedVector(marks), author), n)];
    forall a ensures (a in l <==> a in r) && At(l, a) == At(r, a) {
      ObservedUnionAt(marks, {(author, n)}, a);
      assert SeqsOf({(author, n)}, a) == if a == author then {n} else {};
      ObservedAt({(author, n)}, a);
    }
    SameVector(l, r);
  }

  predicate NatLess(a: nat, b: nat) {
    a < b
  }

  lemma NatLessTotal(s: set<nat>)
    ensures TotalOn(NatLess, s)
  {
    var lt: Less<nat> := NatLess;
    forall x, y, z ensures !lt(x, x) && (lt(x, y) && lt(y, z) ==> lt(x, z)) && (x != y ==> lt(x, y) || lt(y, x)) {
    }
  }

  ghost predicate SeqTable(marks: Marks, table: map<string, seq<nat>>) {
    && table.Keys == Authors(marks)
    && forall a :: a in table ==> Distinct(table[a]) && Elems(table[a]) == SeqsOf(marks, a)
  }

  lemma TableOne(marks: Marks, table: map<string, seq<nat>>, author: string, n: nat, seqs: seq<nat>)
    requires SeqTable(marks, table)
    requires Distinct(seqs) && Elems(seqs) == (if author in table then Elems(table[author]) else {}) + {n}
    ensures SeqTable(marks + {(author, n)}, table[author := seqs])
  {
    forall a
      ensures SeqsOf(marks + {(author, n)}, a) == SeqsOf(marks, a) + (if a == author then {n} else {})
      ensures a in Authors(marks + {(author, n)}) <==> a in Authors(marks) || a == author
    {
      SeqsUnion(marks, {(author, n)}, a);
      assert SeqsOf({(author, n)}, a) == if a == author then {n} else {};
      assert Authors({(author, n)}) == {author};
    }
    AuthorHasSeq(marks, author);
  }

  method CollectSeqs(ops: seq<Op>) returns (table: map<string, seq<nat>>)
    ensures SeqTable(MarksOf(Elems(ops)), table)
  {
    table := map[];
    for i := 0 to |ops|
      invariant SeqTable(MarksOf(Elems(ops[..i])), table)
    {
      MarksOne(ops, i);
      var author, n := Trim(ops[i].authorDeviceId), SeqOf(ops[i]);
      if author != "" && n > 0 {
        var seqs := if author in table then table[author] else [];
        if n !in seqs {
          Snoc(seqs, n);
          seqs := seqs + [n];
        }
        TableOne(MarksOf(Elems(ops[..i])), table, author, n, seqs);
        table := table[author := seqs];
      } else {
        assert MarksOf(Elems(ops[..i])) + {} == MarksOf(Elems(ops[..i]));
      }
    }
    assert ops[..|ops|] == ops;
  }

  /** Walks the sorted numbers until the first gap. */
  method CountRun(seqs: seq<nat>) returns (n: nat)
    requires Distinct(seqs) && 0 !in seqs
    ensures n == Contiguous(Elems(seqs))
  {
    NatLessTotal(Elems(seqs));
    SortSorted(NatLess, seqs);
    SortElems(NatLess, seqs);
    var ordered := Sort(NatLess, seqs);
    var expected := 1;
    var i := 0;
    while i < |ordered| && ordered[i] == expected
      invariant 0 <= i <= |ordered| && expected == i + 1
      invariant forall j :: 0 <= j < i ==> ordered[j] == j + 1
    {
      expected := expected + 1;
      i := i + 1;
    }
    n := expected - 1;
    assert 0 !in ordered by { assert 0 !in Elems(ordered); }
    RunEnds(ordered, i);
    ContiguousUnique(Elems(seqs), n, Contiguous(Elems(seqs)));
  }

  lemma RunEnds(ordered: seq<nat>, i: nat)
    requires SortedBy(NatLess, ordered) && 0 !in ordered && i <= |ordered|
    requires forall j :: 0 <= j < i ==> ordered[j] == j + 1
    requires i < |ordered| ==> ordered[i] != i + 1
    ensures IsContiguous(Elems(ordered), i)
  {
    forall k | 1 <= k <= i ensures k in Elems(ordered) {
      assert ordered[k - 1] == k;
    }
    forall j | i <= j < |ordered| ensures ordered[j] > i + 1 {
      assert ordered[i] != 0 && (i == j || NatLess(ordered[i], ordered[j]));
      assert i > 0 ==> NatLess(ordered[i - 1], ordered[i]);
    }
  }

  lemma PositiveSeqs(ops: set<Op>, a: string)
    ensures 0 !in SeqsOf(MarksOf(ops), a)
  {
  }

  method BuildContiguousVersionVector(ops: seq<Op>) returns (vector: Vector)
    ensures vector == ContiguousVector(MarksOf(Elems(ops)))
  {
    var table := CollectSeqs(ops);
    vector := map[];
    var todo := table.Keys;
    while todo != {}
      invariant todo <= table.Keys && vector.Keys == table.Keys - todo
      invariant forall a :: a in vector ==> vector[a] == Contiguous(SeqsOf(MarksOf(Elems(ops)), a))
    {
      var author :| author in todo;
      PositiveSeqs(Elems(ops), author);
      assert 0 !in Elems(table[author]);
      var n := CountRun(table[author]);
      vector := vector[author := n];
      todo := todo - {author};
    }
  }

  /** A JavaScript record as its list of entries; a later entry overwrites an earlier one with the same trimmed key. */
  function NormalizeVector(entries: seq<(string, real)>): Vector {
    if entries == [] then map[] else
      var v, e := NormalizeVector(entries[..|entries| - 1]), entries[|entries| - 1];
      if Trim(e.0) == "" then v else v[Trim(e.0) := Counter(e.1)]
  }

  method MergeVersionVectors(left: seq<(string, real)>, right: seq<(string, real)>) returns (merged: Vector)
    ensures merged == Merge(NormalizeVector(left), NormalizeVector(right))
  {
    merged := NormalizeVector(left);
    var r := NormalizeVector(right);
    ghost var l := merged;
    var todo := r.Keys;
    while todo != {}
      invariant todo <= r.Keys && merged.Keys == l.Keys + (r.Keys - todo)
      invariant forall a :: a in merged ==> merged[a] == if a in todo || a !in r then l[a] else Max(At(l, a), r[a])
    {
      var a :| a in todo;
      merged := merged[a := Max(At(merged, a), r[a])];
      todo := todo - {a};
    }
  }

  method DiffVersionVectors(local: seq<(string, real)>, remote: seq<(string, real)>) returns (diff: Vector)
    ensures diff == Diff(NormalizeVector(local), NormalizeVector(remote))
  {
    var l, r := NormalizeVector(local), NormalizeVector(remote);
    diff := map[];
    var todo := r.Keys;
    while todo != {}
      invariant todo <= r.Keys
      invariant diff == map a | a in r && a !in todo && r[a] > At(l, a) :: r[a]
    {
      var a :| a in todo;
      if r[a] > At(l, a) {
        diff := diff[a := r[a]];
      }
      todo := todo - {a};
    }
  }
}
