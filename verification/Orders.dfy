/** Strict total orders on finite sets, the ascending listing of a set, and a sort that computes it. */
module Orders {

  type Less<!T> = (T, T) -> bool

  ghost predicate StrictTotal<T(!new)>(lt: Less<T>) {
    && (forall x :: !lt(x, x))
    && (forall x, y, z :: lt(x, y) && lt(y, z) ==> lt(x, z))
    && (forall x, y :: x != y ==> lt(x, y) || lt(y, x))
  }

  ghost predicate TotalOn<T>(lt: Less<T>, s: set<T>) {
    && (forall x {:trigger lt(x, x)} :: x in s ==> !lt(x, x))
    && (forall x, y, z {:trigger lt(x, y), lt(y, z)} :: x in s && y in s && z in s && lt(x, y) && lt(y, z) ==> lt(x, z))
    && (forall x, y {:trigger lt(x, y)} :: x in s && y in s && x != y ==> lt(x, y) || lt(y, x))
  }

  lemma TotalOnSubset<T>(lt: Less<T>, all: set<T>, part: set<T>)
    requires TotalOn(lt, all) && part <= all
    ensures TotalOn(lt, part)
  {
  }

  function Elems<T>(s: seq<T>): set<T> {
    set x | x in s
  }

  ghost predicate Distinct<T>(s: seq<T>) {
    forall i, j :: 0 <= i < j < |s| ==> s[i] != s[j]
  }

  /** y stands before position i. */
  ghost predicate Earlier<T>(s: seq<T>, y: T, i: int) {
    exists j :: 0 <= j < i && j < |s| && s[j] == y
  }

  lemma Cons<T>(s: seq<T>)
    requires s != []
    ensures s == [s[0]] + s[1..]
    ensures Elems(s) == {s[0]} + Elems(s[1..])
    ensures Distinct(s) ==> s[0] !in Elems(s[1..]) && Distinct(s[1..])
  {
    assert s == [s[0]] + s[1..];
  }

  ghost predicate SortedBy<T>(lt: Less<T>, s: seq<T>) {
    forall i, j :: 0 <= i < j < |s| ==> lt(s[i], s[j])
  }

  ghost predicate IsLeast<T>(lt: Less<T>, s: set<T>, m: T) {
    m in s && forall y :: y in s && y != m ==> lt(m, y)
  }

  lemma LeastExists<T>(lt: Less<T>, s: set<T>)
    requires s != {} && TotalOn(lt, s)
    ensures exists m :: IsLeast(lt, s, m)
  {
    var x :| x in s;
    if s == {x} {
      assert IsLeast(lt, s, x);
    } else {
      var rest := s - {x};
      LeastExists(lt, rest);
      var m :| IsLeast(lt, rest, m);
      assert lt(x, m) || lt(m, x);
      assert forall y :: y in s ==> y == x || y in rest;
      assert IsLeast(lt, s, if lt(x, m) then x else m);
    }
  }

  ghost function Least<T>(lt: Less<T>, s: set<T>): (m: T)
    requires s != {} && TotalOn(lt, s)
    ensures IsLeast(lt, s, m)
  {
    LeastExists(lt, s);
    var m :| IsLeast(lt, s, m); m
  }

  lemma LeastIs<T>(lt: Less<T>, s: set<T>, m: T)
    requires TotalOn(lt, s) && IsLeast(lt, s, m)
    ensures Least(lt, s) == m
  {
  }

  /** The elements of s, least first. */
  ghost function Ascending<T>(lt: Less<T>, s: set<T>): (r: seq<T>)
    requires TotalOn(lt, s)
    ensures Elems(r) == s && |r| == |s|
    decreases s
  {
    if s == {} then [] else
      var m := Least(lt, s);
      var rest := Ascending(lt, s - {m});
      assert Elems([m] + rest) == {m} + Elems(rest);
      [m] + rest
  }

  lemma {:induction false} AscendingSorted<T>(lt: Less<T>, s: set<T>)
    requires TotalOn(lt, s)
    ensures SortedBy(lt, Ascending(lt, s)) && Distinct(Ascending(lt, s))
    decreases s
  {
    if s != {} {
      var m := Least(lt, s);
      AscendingSorted(lt, s - {m});
      var rest := Ascending(lt, s - {m});
      assert forall i :: 0 <= i < |rest| ==> rest[i] in Elems(rest);
    }
  }

  /** A sorted sequence is determined by its elements. */
  lemma {:induction false} SortedIsAscending<T>(lt: Less<T>, q: seq<T>)
    requires TotalOn(lt, Elems(q)) && SortedBy(lt, q)
    ensures q == Ascending(lt, Elems(q))
  {
    if q == [] {
    } else {
      HeadIsLeast(lt, q);
      assert TotalOn(lt, Elems(q[1..]));
      SortedIsAscending(lt, q[1..]);
      hide TotalOn, SortedBy, Least;
      assert q == [q[0]] + q[1..];
    }
  }

  lemma HeadIsLeast<T>(lt: Less<T>, q: seq<T>)
    requires TotalOn(lt, Elems(q)) && SortedBy(lt, q) && q != []
    ensures q[0] in Elems(q) && q[0] == Least(lt, Elems(q)) && Elems(q) - {q[0]} == Elems(q[1..])
  {
    assert q[0] in Elems(q);
    assert q == [q[0]] + q[1..];
    LeastIs(lt, Elems(q), q[0]);
    forall x | x in q[1..] ensures x != q[0] {
      var j :| 1 <= j < |q| && q[j] == x;
      assert lt(q[0], q[j]);
    }
  }

  /** `Array.prototype.sort`, which is stable. */
  function Sort<T>(lt: Less<T>, s: seq<T>): seq<T> {
    if s == [] then [] else Insert(lt, s[0], Sort(lt, s[1..]))
  }

  function Insert<T>(lt: Less<T>, x: T, s: seq<T>): seq<T> {
    if s == [] || !lt(s[0], x) then [x] + s else [s[0]] + Insert(lt, x, s[1..])
  }

  lemma {:induction false} InsertElems<T>(lt: Less<T>, x: T, s: seq<T>)
    ensures Elems(Insert(lt, x, s)) == Elems(s) + {x}
    ensures |Insert(lt, x, s)| == |s| + 1
  {
    if s == [] || !lt(s[0], x) {
      assert Insert(lt, x, s) == [x] + s;
    } else {
      InsertElems(lt, x, s[1..]);
      assert s == [s[0]] + s[1..];
      var r := Insert(lt, x, s[1..]);
      assert Insert(lt, x, s) == [s[0]] + r;
      assert Elems([s[0]] + r) == {s[0]} + Elems(r);
      assert Elems(s) == {s[0]} + Elems(s[1..]);
    }
  }

  lemma {:induction false} InsertSorted<T>(lt: Less<T>, x: T, s: seq<T>)
    requires TotalOn(lt, Elems(s) + {x}) && SortedBy(lt, s) && x !in s
    ensures SortedBy(lt, Insert(lt, x, s))
  {
    if s == [] {
    } else {
      assert s[0] in Elems(s);
      assert lt(x, s[0]) || lt(s[0], x);
      if !lt(s[0], x) {
        forall i | 0 <= i < |s| ensures lt(x, s[i]) {
          assert s[i] in Elems(s);
          assert i == 0 || lt(s[0], s[i]);
        }
      } else {
        assert Elems(s[1..]) <= Elems(s);
        InsertSorted(lt, x, s[1..]);
        InsertElems(lt, x, s[1..]);
        var r := Insert(lt, x, s[1..]);
        forall i | 0 <= i < |r| ensures lt(s[0], r[i]) {
          assert r[i] in Elems(r);
          if r[i] != x {
            var k :| 0 <= k < |s[1..]| && s[1..][k] == r[i];
            assert lt(s[0], s[k + 1]);
          }
        }
      }
    }
  }

  /** Sorting permutes, whatever the comparator. */
  lemma {:induction false} SortElems<T>(lt: Less<T>, s: seq<T>)
    ensures Elems(Sort(lt, s)) == Elems(s) && |Sort(lt, s)| == |s|
  {
    if s != [] {
      SortElems(lt, s[1..]);
      InsertElems(lt, s[0], Sort(lt, s[1..]));
      Cons(s);
    }
  }

  lemma {:induction false} SortSorted<T>(lt: Less<T>, s: seq<T>)
    requires TotalOn(lt, Elems(s)) && Distinct(s)
    ensures SortedBy(lt, Sort(lt, s))
  {
    if s != [] {
      assert Elems(s) == {s[0]} + Elems(s[1..]) by { assert s == [s[0]] + s[1..]; }
      SortSorted(lt, s[1..]);
      SortElems(lt, s[1..]);
      assert s[0] !in Elems(s[1..]);
      InsertSorted(lt, s[0], Sort(lt, s[1..]));
    }
  }

  /** The sort of a repetition-free list depends on its elements only. */
  lemma SortIsAscending<T>(lt: Less<T>, s: seq<T>)
    requires TotalOn(lt, Elems(s)) && Distinct(s)
    ensures Sort(lt, s) == Ascending(lt, Elems(s))
  {
    SortSorted(lt, s);
    SortElems(lt, s);
    SortedIsAscending(lt, Sort(lt, s));
  }

  lemma SortKeeps<T>(lt: Less<T>, s: seq<T>)
    requires TotalOn(lt, Elems(s)) && SortedBy(lt, s)
    ensures Sort(lt, s) == s
  {
    SortedDistinct(lt, s);
    SortIsAscending(lt, s);
    SortedIsAscending(lt, s);
  }

  lemma SortedDistinct<T>(lt: Less<T>, s: seq<T>)
    requires TotalOn(lt, Elems(s)) && SortedBy(lt, s)
    ensures Distinct(s)
  {
    forall i, j | 0 <= i < j < |s| ensures s[i] != s[j] {
      assert s[i] in Elems(s);
      assert lt(s[i], s[j]) && !lt(s[i], s[i]);
    }
  }

  lemma {:induction false} DistinctCount<T>(s: seq<T>)
    requires Distinct(s)
    ensures |Elems(s)| == |s|
  {
    if s != [] {
      hide Distinct, Elems;
      Cons(s);
      DistinctCount(s[1..]);
    }
  }

  lemma {:induction false} NoRepeatByCount<T>(s: seq<T>)
    requires |Elems(s)| == |s|
    ensures Distinct(s)
  {
    if s != [] {
      Cons(s);
      CountAtMost(s[1..]);
      NoRepeatByCount(s[1..]);
      assert s[0] !in Elems(s[1..]);
    }
  }

  lemma {:induction false} CountAtMost<T>(s: seq<T>)
    ensures |Elems(s)| <= |s|
  {
    if s != [] {
      hide Elems;
      Cons(s);
      CountAtMost(s[1..]);
    }
  }

  lemma Snoc<T>(s: seq<T>, x: T)
    ensures Elems(s + [x]) == Elems(s) + {x}
    ensures Distinct(s) && x !in Elems(s) ==> Distinct(s + [x])
  {
  }

  /** One more element of a list. */
  lemma TakeOne<T>(s: seq<T>, i: nat)
    requires i < |s|
    ensures s[..i + 1] == s[..i] + [s[i]]
    ensures Elems(s[..i + 1]) == Elems(s[..i]) + {s[i]}
    ensures s[i] in Elems(s)
    ensures Distinct(s) ==> s[i] !in Elems(s[..i])
  {
    assert s[..i + 1] == s[..i] + [s[i]];
  }

  lemma SubsetCount<T>(a: set<T>, b: set<T>)
    requires a <= b
    ensures |a| <= |b|
    ensures a < b ==> |a| < |b|
  {
    assert b == a + (b - a);
    if a < b {
      assert b - a != {};
    }
  }

  /** A sequence longer than the set it draws from repeats an element. */
  lemma Pigeonhole<T>(p: seq<T>, s: set<T>)
    requires Elems(p) <= s && |s| < |p|
    ensures exists i, j :: 0 <= i < j < |p| && p[i] == p[j]
  {
    if Distinct(p) {
      DistinctCount(p);
      SubsetCount(Elems(p), s);
    }
  }

  /** The default order of `sort()`: lexicographic on code units. */
  predicate CodeUnitLess(a: string, b: string) {
    if b == [] then false
    else if a == [] then true
    else if a[0] != b[0] then a[0] < b[0]
    else CodeUnitLess(a[1..], b[1..])
  }

  /** The first k characters agree, and there a ends or has the smaller one. */
  predicate SmallerAt(a: string, b: string, k: nat) {
    k <= |a| && k < |b| && a[..k] == b[..k] && (k == |a| || a[k] < b[k])
  }

  /** One string is below another exactly when it is a proper prefix, or has the smaller character where they first differ. */
  lemma {:induction false} CodeUnitExactly(a: string, b: string)
    ensures CodeUnitLess(a, b) <==> exists k: nat :: SmallerAt(a, b, k)
    decreases |a|
  {
    if b == [] {
    } else if a == [] || a[0] != b[0] {
      assert CodeUnitLess(a, b) ==> SmallerAt(a, b, 0);
      forall k: nat | SmallerAt(a, b, k) ensures CodeUnitLess(a, b) { assert k > 0 ==> a[..k][0] == b[..k][0]; }
    } else {
      CodeUnitExactly(a[1..], b[1..]);
      if k: nat :| SmallerAt(a[1..], b[1..], k) {
        assert a[..k + 1] == [a[0]] + a[1..][..k] && b[..k + 1] == [b[0]] + b[1..][..k];
        assert SmallerAt(a, b, k + 1);
      }
      if k: nat :| SmallerAt(a, b, k) {
        assert k > 0;
        assert a[1..][..k - 1] == a[..k][1..] && b[1..][..k - 1] == b[..k][1..];
        assert SmallerAt(a[1..], b[1..], k - 1);
      }
    }
  }

  lemma {:induction false} CodeUnitTransitive(a: string, b: string, c: string)
    requires CodeUnitLess(a, b) && CodeUnitLess(b, c)
    ensures CodeUnitLess(a, c)
  {
    if a != [] && a[0] == b[0] && b[0] == c[0] {
      CodeUnitTransitive(a[1..], b[1..], c[1..]);
    }
  }

  lemma {:induction false} CodeUnitConnected(a: string, b: string)
    ensures a == b || CodeUnitLess(a, b) || CodeUnitLess(b, a)
    ensures !CodeUnitLess(a, a)
    decreases |a|
  {
    if a != [] {
      CodeUnitConnected(a[1..], a[1..]);
      if b != [] && a[0] == b[0] {
        CodeUnitConnected(a[1..], b[1..]);
        assert a == [a[0]] + a[1..] && b == [b[0]] + b[1..];
      }
    }
  }

  lemma CodeUnitTotal()
    ensures StrictTotal(CodeUnitLess)
  {
    forall a, b, c | CodeUnitLess(a, b) && CodeUnitLess(b, c) ensures CodeUnitLess(a, c) {
      CodeUnitTransitive(a, b, c);
    }
    forall a, b ensures a == b || CodeUnitLess(a, b) || CodeUnitLess(b, a) {
      CodeUnitConnected(a, b);
    }
    forall a ensures !CodeUnitLess(a, a) {
      CodeUnitConnected(a, a);
    }
  }
}
