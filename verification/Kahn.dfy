/**
 * The causal ordering shared by the operation graph and the chat graph: Kahn's algorithm
 * on the known parents, least ready node first, then the nodes stuck on a cycle in sorted order.
 *
 * A graph maps each node to its set of known parents. A node may be its own parent.
 */
module Kahn {
  import opened Orders

  type Graph = map<string, set<string>>

  ghost predicate Closed(g: Graph) {
    forall x :: x in g ==> g[x] <= g.Keys
  }

  // ---------- Specification ----------

  ghost function Ready(g: Graph, done: set<string>): set<string> {
    set x | x in g.Keys && x !in done && g[x] <= done
  }

  /** What Kahn's algorithm emits once `done` has been emitted. */
  ghost function Emit(g: Graph, lt: Less<string>, done: set<string>): seq<string>
    requires TotalOn(lt, g.Keys)
    decreases g.Keys - done
  {
    var ready := Ready(g, done);
    if ready == {} then [] else
      var m := Least(lt, ready);
      [m] + Emit(g, lt, done + {m})
  }

  ghost function Stuck(g: Graph, lt: Less<string>): set<string>
    requires TotalOn(lt, g.Keys)
  {
    g.Keys - Elems(Emit(g, lt, {}))
  }

  ghost function KahnOrder(g: Graph, lt: Less<string>): seq<string>
    requires TotalOn(lt, g.Keys)
  {
    Emit(g, lt, {}) + Ascending(lt, Stuck(g, lt))
  }

  // ---------- Chains of known parents ----------

  /** Each element is a known parent of the one before it. */
  ghost predicate IsChain(g: Graph, p: seq<string>) {
    && p != []
    && (forall i :: 0 <= i < |p| ==> p[i] in g)
    && (forall i, j :: 0 <= i && j == i + 1 < |p| ==> p[j] in g[p[i]])
  }

  ghost predicate Repeats(p: seq<string>) {
    exists i, j :: 0 <= i < j < |p| && p[i] == p[j]
  }

  ghost predicate ReachesCycle(g: Graph, x: string) {
    exists p :: IsChain(g, p) && p[0] == x && Repeats(p)
  }

  ghost predicate Acyclic(g: Graph) {
    forall x :: x in g ==> !ReachesCycle(g, x)
  }

  /** y is x or an ancestor of x. */
  ghost predicate AncestorOrSelf(g: Graph, y: string, x: string) {
    exists p :: IsChain(g, p) && p[0] == x && p[|p| - 1] == y
  }

  // ---------- What the loop emits ----------

  lemma {:induction false} EmitFacts(g: Graph, lt: Less<string>, done: set<string>)
    requires TotalOn(lt, g.Keys)
    ensures var e := Emit(g, lt, done);
      Distinct(e) && Elems(e) <= g.Keys - done && Ready(g, done + Elems(e)) == {}
    decreases g.Keys - done
  {
    var ready := Ready(g, done);
    if ready == {} {
      assert done + Elems<string>([]) == done;
    } else {
      var m := Least(lt, ready);
      EmitFacts(g, lt, done + {m});
      var t := Emit(g, lt, done + {m});
      assert Elems([m] + t) == {m} + Elems(t);
      assert forall i :: 0 <= i < |t| ==> t[i] in Elems(t);
      assert done + Elems([m] + t) == done + {m} + Elems(t);
    }
  }

  /** Every node the loop emits follows all its known parents. */
  lemma {:induction false} EmitCausal(g: Graph, lt: Less<string>, done: set<string>, i: nat, y: string)
    requires TotalOn(lt, g.Keys)
    requires var e := Emit(g, lt, done); i < |e| && e[i] in g && y in g[e[i]]
    ensures y in done || Earlier(Emit(g, lt, done), y, i)
    decreases g.Keys - done
  {
    var m := Least(lt, Ready(g, done));
    var e, t := Emit(g, lt, done), Emit(g, lt, done + {m});
    assert e == [m] + t;
    if i > 0 {
      assert e[i] == t[i - 1];
      EmitCausal(g, lt, done + {m}, i - 1, y);
      if y !in done + {m} {
        var j :| 0 <= j < i - 1 && t[j] == y;
        assert e[j + 1] == y;
      } else if y == m {
        assert e[0] == y;
      }
    }
  }

  /** Each emitted node is the least of those that are ready when it is emitted. */
  lemma {:induction false} EmitGreedy(g: Graph, lt: Less<string>, done: set<string>, i: nat, x: string)
    requires TotalOn(lt, g.Keys) && i < |Emit(g, lt, done)|
    ensures var e := Emit(g, lt, done); var before := done + Elems(e[..i]);
      && e[i] in g && g[e[i]] <= before
      && (x in g && x !in before && g[x] <= before ==> x == e[i] || lt(e[i], x))
    decreases g.Keys - done
  {
    var m := Least(lt, Ready(g, done));
    var e, t := Emit(g, lt, done), Emit(g, lt, done + {m});
    assert e == [m] + t;
    if i == 0 {
      assert done + Elems(e[..0]) == done;
      assert x in g && x !in done && g[x] <= done ==> x in Ready(g, done);
    } else {
      EmitGreedy(g, lt, done + {m}, i - 1, x);
      assert e[..i] == [m] + t[..i - 1];
      assert done + Elems(e[..i]) == done + {m} + Elems(t[..i - 1]);
    }
  }

  lemma OrderFacts(g: Graph, lt: Less<string>)
    requires TotalOn(lt, g.Keys)
    ensures var o := KahnOrder(g, lt);
      Distinct(o) && Elems(o) == g.Keys && |o| == |g.Keys|
  {
    var e, t := Emit(g, lt, {}), Ascending(lt, Stuck(g, lt));
    assert Distinct(e) && Elems(e) <= g.Keys by { EmitFacts(g, lt, {}); }
    assert Distinct(t) by { AscendingSorted(lt, Stuck(g, lt)); }
    ConcatDistinct(e, t, g.Keys);
  }

  lemma ConcatDistinct(a: seq<string>, b: seq<string>, all: set<string>)
    requires Distinct(a) && Distinct(b) && Elems(a) <= all && Elems(b) == all - Elems(a)
    ensures Distinct(a + b) && Elems(a + b) == all && |a + b| == |all|
  {
    assert forall i :: 0 <= i < |a| ==> a[i] in Elems(a);
    assert forall i :: 0 <= i < |b| ==> b[i] in Elems(b);
    assert Elems(a + b) == Elems(a) + Elems(b);
    DistinctCount(a + b);
  }

  /** A chain that starts at an emitted node stays emitted and walks strictly backwards. */
  lemma {:induction false} ChainDescends(g: Graph, lt: Less<string>, p: seq<string>, at: nat, k: nat)
    requires TotalOn(lt, g.Keys) && IsChain(g, p)
    requires at < |Emit(g, lt, {})| && Emit(g, lt, {})[at] == p[0]
    requires 0 < k < |p|
    ensures Earlier(Emit(g, lt, {}), p[k], at)
    decreases |p|
  {
    var e := Emit(g, lt, {});
    assert p[1] in g[p[0]];
    EmitCausal(g, lt, {}, at, p[1]);
    if k > 1 {
      var back :| 0 <= back < at && e[back] == p[1];
      ChainDescends(g, lt, p[1..], back, k - 1);
      assert p[k] == p[1..][k - 1];
    }
  }

  lemma EmittedReachesNoCycle(g: Graph, lt: Less<string>, x: string)
    requires TotalOn(lt, g.Keys) && x in Emit(g, lt, {})
    ensures !ReachesCycle(g, x)
  {
    var e := Emit(g, lt, {});
    EmitFacts(g, lt, {});
    forall p | IsChain(g, p) && p[0] == x ensures !Repeats(p) {
      forall i, j | 0 <= i < j < |p| ensures p[i] != p[j] {
        var at :| 0 <= at < |e| && e[at] == x;
        var ai := at;
        if i > 0 {
          ChainDescends(g, lt, p, at, i);
          ai :| 0 <= ai < at && e[ai] == p[i];
        }
        assert IsChain(g, p[i..]);
        ChainDescends(g, lt, p[i..], ai, j - i);
        assert Earlier(e, p[j], ai);
      }
    }
  }

  lemma StuckParent(g: Graph, lt: Less<string>, x: string) returns (y: string)
    requires TotalOn(lt, g.Keys) && Closed(g) && x in Stuck(g, lt)
    ensures y in g[x] && y in Stuck(g, lt)
  {
    EmitFacts(g, lt, {});
    var done := Elems(Emit(g, lt, {}));
    assert {} + done == done;
    assert x !in Ready(g, done);
    y :| y in g[x] && y !in done;
  }

  /** From a stuck node one can follow stuck parents forever. */
  lemma {:induction false} StuckChain(g: Graph, lt: Less<string>, x: string, n: nat) returns (p: seq<string>)
    requires TotalOn(lt, g.Keys) && Closed(g) && x in Stuck(g, lt)
    ensures IsChain(g, p) && p[0] == x && |p| == n + 1 && Elems(p) <= Stuck(g, lt)
    decreases n
  {
    if n == 0 {
      p := [x];
    } else {
      var y := StuckParent(g, lt, x);
      var rest := StuckChain(g, lt, y, n - 1);
      p := [x] + rest;
      assert Elems(p) == {x} + Elems(rest);
    }
  }

  /** The fallback tail holds exactly the nodes from which a chain of known parents reaches a cycle. */
  lemma StuckExactly(g: Graph, lt: Less<string>, x: string)
    requires TotalOn(lt, g.Keys) && Closed(g) && x in g
    ensures x in Stuck(g, lt) <==> ReachesCycle(g, x)
  {
    if x in Stuck(g, lt) {
      var n := |Stuck(g, lt)|;
      var p := StuckChain(g, lt, x, n);
      Pigeonhole(p, Stuck(g, lt));
      assert IsChain(g, p) && p[0] == x && Repeats(p);
    } else {
      EmittedReachesNoCycle(g, lt, x);
    }
  }

  /** o lists first, always the least ready one next, the nodes that reach no cycle, and then the others in sorted order. */
  ghost predicate GreedyAt(g: Graph, lt: Less<string>, o: seq<string>, i: nat) {
    i < |o| ==>
      if ReachesCycle(g, o[i]) then forall j :: i < j < |o| ==> ReachesCycle(g, o[j]) && lt(o[i], o[j])
      else forall x :: x in g && x !in Elems(o[..i]) && g[x] <= Elems(o[..i]) ==> x == o[i] || lt(o[i], x)
  }

  /** The loop's output first, then the tail: which position of the order is in which. */
  lemma OrderParts(g: Graph, lt: Less<string>, k: nat)
    requires TotalOn(lt, g.Keys) && Closed(g)
    ensures var e, t, o := Emit(g, lt, {}), Ascending(lt, Stuck(g, lt)), KahnOrder(g, lt);
      |o| == |e| + |t| && (k < |o| ==> o[k] == (if k < |e| then e[k] else t[k - |e|]) && (ReachesCycle(g, o[k]) <==> k >= |e|))
  {
    var e, t, o := Emit(g, lt, {}), Ascending(lt, Stuck(g, lt)), KahnOrder(g, lt);
    EmitFacts(g, lt, {});
    hide ReachesCycle, Emit;
    if k < |o| {
      assert o[k] in (if k < |e| then Elems(e) else Elems(t));
      StuckExactly(g, lt, o[k]);
    }
  }

  lemma GreedyHead(g: Graph, lt: Less<string>, i: nat)
    requires TotalOn(lt, g.Keys) && Closed(g) && i < |Emit(g, lt, {})|
    ensures GreedyAt(g, lt, KahnOrder(g, lt), i)
  {
    var e, o := Emit(g, lt, {}), KahnOrder(g, lt);
    OrderParts(g, lt, i);
    assert o[..i] == e[..i];
    hide Emit, KahnOrder, Stuck, Closed, ReachesCycle;
    forall x | x in g && x !in Elems(o[..i]) && g[x] <= Elems(o[..i]) ensures x == o[i] || lt(o[i], x) {
      EmitGreedy(g, lt, {}, i, x);
      assert {} + Elems(e[..i]) == Elems(e[..i]);
    }
  }

  lemma GreedyTail(g: Graph, lt: Less<string>, i: nat)
    requires TotalOn(lt, g.Keys) && Closed(g) && i >= |Emit(g, lt, {})|
    ensures GreedyAt(g, lt, KahnOrder(g, lt), i)
  {
    var t, o := Ascending(lt, Stuck(g, lt)), KahnOrder(g, lt);
    OrderParts(g, lt, i);
    AscendingSorted(lt, Stuck(g, lt));
    hide Emit, Stuck, KahnOrder, Ascending, Closed, ReachesCycle;
    forall j | i < j < |o| ensures ReachesCycle(g, o[j]) && lt(o[i], o[j]) { OrderParts(g, lt, j); }
  }

  lemma OrderGreedy(g: Graph, lt: Less<string>, i: nat)
    requires TotalOn(lt, g.Keys) && Closed(g)
    ensures GreedyAt(g, lt, KahnOrder(g, lt), i)
  {
    hide *;
    if i < |Emit(g, lt, {})| { GreedyHead(g, lt, i); } else { GreedyTail(g, lt, i); }
  }

  lemma AcyclicEmitsAll(g: Graph, lt: Less<string>)
    requires TotalOn(lt, g.Keys) && Closed(g)
    ensures Acyclic(g) <==> Stuck(g, lt) == {}
    ensures Acyclic(g) ==> KahnOrder(g, lt) == Emit(g, lt, {})
  {
    forall x | x in g ensures x in Stuck(g, lt) <==> ReachesCycle(g, x) {
      StuckExactly(g, lt, x);
    }
    if Acyclic(g) {
      assert Ascending(lt, Stuck(g, lt)) == [];
    }
  }

  ghost predicate ParentsFirst(g: Graph, o: seq<string>) {
    forall i, y :: 0 <= i < |o| && o[i] in g && y in g[o[i]] ==> Earlier(o, y, i)
  }

  /** Causality is respected throughout exactly on acyclic graphs. */
  lemma CausalIffAcyclic(g: Graph, lt: Less<string>)
    requires TotalOn(lt, g.Keys) && Closed(g)
    ensures Acyclic(g) <==> ParentsFirst(g, KahnOrder(g, lt))
  {
    AcyclicEmitsAll(g, lt);
    var o := KahnOrder(g, lt);
    if Acyclic(g) {
      forall i, y | 0 <= i < |o| && o[i] in g && y in g[o[i]] ensures Earlier(o, y, i) {
        EmitCausal(g, lt, {}, i, y);
      }
    } else {
      FirstStuckUnordered(g, lt);
    }
  }

  lemma FirstStuckUnordered(g: Graph, lt: Less<string>)
    requires TotalOn(lt, g.Keys) && Closed(g) && Stuck(g, lt) != {}
    ensures !ParentsFirst(g, KahnOrder(g, lt))
  {
    var e, tail := Emit(g, lt, {}), Ascending(lt, Stuck(g, lt));
    var o, n := e + tail, |e|;
    assert tail[0] in Elems(tail) && o[n] == tail[0];
    var y := StuckParent(g, lt, tail[0]);
    assert forall j :: 0 <= j < n ==> o[j] == e[j] && o[j] in Elems(e);
    assert y in g[o[n]] && !Earlier(o, y, n);
  }

  /** An ancestor comes before its descendant. */
  lemma AncestorsFirst(g: Graph, lt: Less<string>, y: string, x: string, at: nat)
    requires TotalOn(lt, g.Keys) && Closed(g) && Acyclic(g)
    requires AncestorOrSelf(g, y, x) && x != y
    requires at < |KahnOrder(g, lt)| && KahnOrder(g, lt)[at] == x
    ensures Earlier(KahnOrder(g, lt), y, at)
  {
    AcyclicEmitsAll(g, lt);
    var p :| IsChain(g, p) && p[0] == x && p[|p| - 1] == y;
    ChainDescends(g, lt, p, at, |p| - 1);
  }

  // ---------- The simple form ----------

  ghost predicate ParentsBelow(g: Graph, lt: Less<string>) {
    forall x, y :: x in g && y in g[x] ==> lt(y, x)
  }

  lemma {:induction false} EmitIsAscending(g: Graph, lt: Less<string>, done: set<string>)
    requires TotalOn(lt, g.Keys) && Closed(g) && ParentsBelow(g, lt)
    ensures Emit(g, lt, done) == Ascending(lt, g.Keys - done)
    decreases g.Keys - done
  {
    hide TotalOn, ParentsBelow, Ready;
    var left := g.Keys - done;
    TotalOnSubset(lt, g.Keys, left);
    if left == {} {
      assert Ready(g, done) == {} by { NothingLeft(g, done); }
    } else {
      var m := Least(lt, left);
      LeastReady(g, lt, done);
      EmitIsAscending(g, lt, done + {m});
      assert left - {m} == g.Keys - (done + {m});
    }
  }

  lemma NothingLeft(g: Graph, done: set<string>)
    requires g.Keys - done == {}
    ensures Ready(g, done) == {}
  {
    assert forall x :: x in Ready(g, done) ==> x in g.Keys - done;
  }

  lemma LeastReady(g: Graph, lt: Less<string>, done: set<string>)
    requires TotalOn(lt, g.Keys) && Closed(g) && ParentsBelow(g, lt) && g.Keys - done != {}
    ensures Ready(g, done) != {} && Least(lt, Ready(g, done)) == Least(lt, g.Keys - done)
  {
    var left := g.Keys - done;
    var m := Least(lt, left);
    assert m in Ready(g, done) by {
      forall y | y in g[m] ensures y in done {
        assert y in left ==> y == m || (lt(m, y) && lt(y, m));
      }
    }
    LeastIs(lt, Ready(g, done), m);
  }

  /** When every known parent compares below its child, the causal order is plain sorting. */
  lemma OrderIsPlainSort(g: Graph, lt: Less<string>)
    requires TotalOn(lt, g.Keys) && Closed(g) && ParentsBelow(g, lt)
    ensures KahnOrder(g, lt) == Ascending(lt, g.Keys)
    ensures Acyclic(g)
  {
    EmitIsAscending(g, lt, {});
    assert g.Keys - {} == g.Keys;
    assert Stuck(g, lt) == {};
    AcyclicEmitsAll(g, lt);
  }

  /** The causal order of an acyclic graph is sorted exactly when every known parent compares below its child. */
  lemma SortedExactly(g: Graph, lt: Less<string>)
    requires TotalOn(lt, g.Keys) && Closed(g)
    ensures Acyclic(g) && SortedBy(lt, KahnOrder(g, lt)) <==> ParentsBelow(g, lt)
  {
    var o := KahnOrder(g, lt);
    OrderFacts(g, lt);
    CausalIffAcyclic(g, lt);
    if ParentsBelow(g, lt) {
      OrderIsPlainSort(g, lt);
      AscendingSorted(lt, g.Keys);
    }
    if Acyclic(g) && SortedBy(lt, o) {
      forall x, y | x in g && y in g[x] ensures lt(y, x) {
        assert x in Elems(o);
        var i :| 0 <= i < |o| && o[i] == x;
        assert Earlier(o, y, i);
      }
    }
    hide KahnOrder, Acyclic;
  }

  // ---------- Leaves ----------

  /** Nodes that no node names as a parent. */
  ghost predicate IsLeaf(g: Graph, x: string) {
    x in g && forall y :: y in g ==> x !in g[y]
  }

  function Unreferenced(o: seq<string>, referenced: set<string>): seq<string> {
    if o == [] then []
    else Unreferenced(o[..|o| - 1], referenced) + (if o[|o| - 1] in referenced then [] else [o[|o| - 1]])
  }

  ghost function Referenced(g: Graph): set<string> {
    set x, y | y in g && x in g[y] :: x
  }

  ghost function Leaves(g: Graph, lt: Less<string>): seq<string>
    requires TotalOn(lt, g.Keys)
  {
    Unreferenced(KahnOrder(g, lt), Referenced(g))
  }

  lemma {:induction false} UnreferencedInOrder(o: seq<string>, referenced: set<string>, i: nat, j: nat) returns (a: nat, b: nat)
    requires i < j < |Unreferenced(o, referenced)|
    ensures a < b < |o| && o[a] == Unreferenced(o, referenced)[i] && o[b] == Unreferenced(o, referenced)[j]
  {
    var n := |o| - 1;
    var init := Unreferenced(o[..n], referenced);
    if j < |init| {
      a, b := UnreferencedInOrder(o[..n], referenced, i, j);
    } else {
      UnreferencedElems(o[..n], referenced);
      assert init[i] in Elems(init);
      a :| 0 <= a < n && o[..n][a] == init[i];
      b := n;
    }
  }

  /** The leaves come in the order of the nodes. */
  lemma LeavesInOrder(g: Graph, lt: Less<string>, i: nat, j: nat) returns (a: nat, b: nat)
    requires TotalOn(lt, g.Keys) && i < j < |Leaves(g, lt)|
    ensures a < b < |KahnOrder(g, lt)| && KahnOrder(g, lt)[a] == Leaves(g, lt)[i] && KahnOrder(g, lt)[b] == Leaves(g, lt)[j]
  {
    a, b := UnreferencedInOrder(KahnOrder(g, lt), Referenced(g), i, j);
    hide KahnOrder;
  }

  lemma {:induction false} UnreferencedElems(o: seq<string>, referenced: set<string>)
    ensures Elems(Unreferenced(o, referenced)) == Elems(o) - referenced
  {
    if o != [] {
      var init, last := o[..|o| - 1], o[|o| - 1];
      UnreferencedElems(init, referenced);
      assert o == init + [last];
      assert Elems(o) == Elems(init) + {last};
      var u := Unreferenced(init, referenced);
      assert Elems(u + [last]) == Elems(u) + {last};
      assert Unreferenced(o, referenced) == if last in referenced then u else u + [last];
    }
  }

  lemma LeavesExactly(g: Graph, lt: Less<string>, x: string)
    requires TotalOn(lt, g.Keys)
    ensures x in Leaves(g, lt) <==> IsLeaf(g, x)
  {
    OrderFacts(g, lt);
    UnreferencedElems(KahnOrder(g, lt), Referenced(g));
    assert x in Leaves(g, lt) <==> x in Elems(Leaves(g, lt));
  }

  /** Walking from x towards children: on an acyclic graph every node is below some leaf. */
  lemma {:induction false} LeafAbove(g: Graph, lt: Less<string>, x: string, at: nat) returns (leaf: string, p: seq<string>)
    requires TotalOn(lt, g.Keys) && Closed(g) && Acyclic(g)
    requires at < |KahnOrder(g, lt)| && KahnOrder(g, lt)[at] == x
    ensures IsLeaf(g, leaf) && IsChain(g, p) && p[0] == leaf && p[|p| - 1] == x
    decreases |KahnOrder(g, lt)| - at
  {
    hide KahnOrder, Acyclic, TotalOn, Closed;
    assert x in g by {
      OrderFacts(g, lt);
      assert x in Elems(KahnOrder(g, lt));
    }
    if IsLeaf(g, x) {
      leaf, p := x, [x];
    } else {
      var y, above := LaterChild(g, lt, x, at);
      var q;
      leaf, q := LeafAbove(g, lt, y, above);
      p := q + [x];
      hide IsLeaf;
      ChainSnoc(g, q, x);
    }
  }

  lemma ChainSnoc(g: Graph, q: seq<string>, x: string)
    requires IsChain(g, q) && x in g && q[|q| - 1] in g && x in g[q[|q| - 1]]
    ensures IsChain(g, q + [x])
  {
  }

  lemma LaterChild(g: Graph, lt: Less<string>, x: string, at: nat) returns (y: string, above: nat)
    requires TotalOn(lt, g.Keys) && Closed(g) && Acyclic(g)
    requires at < |KahnOrder(g, lt)| && KahnOrder(g, lt)[at] == x && x in g && !IsLeaf(g, x)
    ensures y in g && x in g[y]
    ensures at < above < |KahnOrder(g, lt)| && KahnOrder(g, lt)[above] == y
  {
    y :| y in g && x in g[y];
    var o := KahnOrder(g, lt);
    assert Distinct(o) && y in Elems(o) by { OrderFacts(g, lt); }
    above :| 0 <= above < |o| && o[above] == y;
    assert Earlier(o, x, above) by { CausalIffAcyclic(g, lt); }
  }

  lemma EveryNodeBelowALeaf(g: Graph, lt: Less<string>, x: string)
    requires TotalOn(lt, g.Keys) && Closed(g) && Acyclic(g) && x in g
    ensures exists leaf :: leaf in Leaves(g, lt) && AncestorOrSelf(g, x, leaf)
  {
    OrderFacts(g, lt);
    assert x in Elems(KahnOrder(g, lt));
    var at :| 0 <= at < |KahnOrder(g, lt)| && KahnOrder(g, lt)[at] == x;
    var leaf, p := LeafAbove(g, lt, x, at);
    LeavesExactly(g, lt, leaf);
    assert AncestorOrSelf(g, x, leaf);
  }
}
