/**
 * The in-degree loop of the source, over mutable tables, proved against the specification in
 * module Kahn. The caller passes the node ids in insertion order and the parent lists,
 * which may name unknown ids.
 */
module KahnLoop {
  import opened Orders
  import opened Kahn

  type Parents = map<string, seq<string>>

  /** Parent lists without repetitions, as `normalizeCrdtParents` leaves them. */
  ghost predicate WellFormed(ids: seq<string>, parents: Parents) {
    && Distinct(ids) && Elems(ids) == parents.Keys
    && forall x :: x in parents ==> Distinct(parents[x])
  }

  ghost function Known(parents: Parents): Graph {
    map x | x in parents :: Elems(parents[x]) * parents.Keys
  }

  /** The parents named by the nodes of `upto` that nobody has sent yet. */
  ghost function MissingFrom(parents: Parents, upto: set<string>): set<string>
    requires upto <= parents.Keys
  {
    set x, p | x in upto && p in parents[x] && p !in parents.Keys :: p
  }

  ghost function Missing(parents: Parents): set<string> {
    MissingFrom(parents, parents.Keys)
  }

  // ---------- First pass: degrees, child lists, unknown ids ----------

  /** Splits one parent list; unknown ids join `missing`, each once. */
  method SplitKnown(known: set<string>, parents: seq<string>, missing0: seq<string>)
    returns (knownParents: seq<string>, missing: seq<string>)
    requires Distinct(parents) && Distinct(missing0)
    ensures Distinct(knownParents) && Elems(knownParents) == Elems(parents) * known
    ensures Distinct(missing) && Elems(missing) == Elems(missing0) + (Elems(parents) - known)
  {
    knownParents, missing := [], missing0;
    for k := 0 to |parents|
      invariant Distinct(knownParents) && Elems(knownParents) == Elems(parents[..k]) * known
      invariant Distinct(missing) && Elems(missing) == Elems(missing0) + (Elems(parents[..k]) - known)
    {
      TakeOne(parents, k);
      var p := parents[k];
      if p in known {
        Snoc(knownParents, p);
        knownParents := knownParents + [p];
      } else if p !in missing {
        Snoc(missing, p);
        missing := missing + [p];
      }
    }
    assert parents[..|parents|] == parents;
  }

  /** (p, x): p is a known parent of x, for the children x in `upto`. */
  ghost function Edges(g: Graph, upto: set<string>): set<(string, string)> {
    set x, p | x in upto && x in g && p in g[x] :: (p, x)
  }

  ghost predicate ChildIndex(edges: set<(string, string)>, children: Parents) {
    && (forall p :: p in children ==> children[p] != [] && Distinct(children[p]))
    && (forall p, x :: (p, x) in edges <==> p in children && x in children[p])
  }

  function AddEdge(children: Parents, p: string, x: string): Parents {
    children[p := (if p in children then children[p] else []) + [x]]
  }

  lemma AddEdgeIndex(edges: set<(string, string)>, children: Parents, p: string, x: string)
    requires ChildIndex(edges, children) && (p, x) !in edges
    ensures ChildIndex(edges + {(p, x)}, AddEdge(children, p, x))
  {
    var kids := if p in children then children[p] else [];
    Snoc(kids, x);
  }

  method AddChild(ghost edges: set<(string, string)>, children: Parents, x: string, knownParents: seq<string>)
    returns (r: Parents)
    requires ChildIndex(edges, children)
    requires Distinct(knownParents) && forall p :: (p, x) !in edges
    ensures ChildIndex(edges + (set p | p in Elems(knownParents) :: (p, x)), r)
  {
    r := children;
    ghost var now := edges;
    for k := 0 to |knownParents|
      invariant now == edges + (set p | p in Elems(knownParents[..k]) :: (p, x))
      invariant ChildIndex(now, r)
    {
      TakeOne(knownParents, k);
      AddEdgeIndex(now, r, knownParents[k], x);
      r := AddEdge(r, knownParents[k], x);
      now := now + {(knownParents[k], x)};
    }
    assert knownParents[..|knownParents|] == knownParents;
  }

  ghost predicate Indexed(parents: Parents, upto: set<string>, inDegree: map<string, nat>, children: Parents,
                          missing: seq<string>)
  {
    && upto <= parents.Keys
    && inDegree.Keys == upto && (forall x :: x in upto ==> inDegree[x] == |Known(parents)[x]|)
    && ChildIndex(Edges(Known(parents), upto), children)
    && Distinct(missing) && Elems(missing) == MissingFrom(parents, upto)
  }

  lemma EdgesOne(g: Graph, upto: set<string>, x: string)
    requires x in g
    ensures Edges(g, upto + {x}) == Edges(g, upto) + (set p | p in g[x] :: (p, x))
  {
  }

  lemma MissingOne(parents: Parents, upto: set<string>, x: string)
    requires upto <= parents.Keys && x in parents
    ensures MissingFrom(parents, upto + {x}) == MissingFrom(parents, upto) + (Elems(parents[x]) - parents.Keys)
  {
  }

  lemma IndexOne(parents: Parents, upto: set<string>, inDegree: map<string, nat>, children: Parents,
                 missing: seq<string>, x: string, degree: nat, children': Parents, missing': seq<string>)
    requires Indexed(parents, upto, inDegree, children, missing) && x in parents && x !in upto
    requires degree == |Known(parents)[x]|
    requires Distinct(missing') && Elems(missing') == Elems(missing) + (Elems(parents[x]) - parents.Keys)
    requires ChildIndex(Edges(Known(parents), upto) + (set p | p in Known(parents)[x] :: (p, x)), children')
    ensures Indexed(parents, upto + {x}, inDegree[x := degree], children', missing')
  {
    EdgesOne(Known(parents), upto, x);
    MissingOne(parents, upto, x);
  }

  method IndexParents(ids: seq<string>, parents: Parents)
    returns (inDegree: map<string, nat>, children: Parents, missing: seq<string>)
    requires WellFormed(ids, parents)
    ensures Indexed(parents, Elems(ids), inDegree, children, missing)
  {
    var known := Elems(ids);
    inDegree, children, missing := map[], map[], [];
    for i := 0 to |ids|
      invariant Indexed(parents, Elems(ids[..i]), inDegree, children, missing)
    {
      TakeOne(ids, i);
      var x := ids[i];
      ghost var upto, before, childrenBefore, missingBefore := Elems(ids[..i]), inDegree, children, missing;
      var knownParents;
      knownParents, missing := SplitKnown(known, parents[x], missing);
      DistinctCount(knownParents);
      inDegree := inDegree[x := |knownParents|];
      children := AddChild(Edges(Known(parents), upto), children, x, knownParents);
      IndexOne(parents, upto, before, childrenBefore, missingBefore, x, |knownParents|, children, missing);
    }
    assert ids[..|ids|] == ids;
  }

  // ---------- The ready loop ----------

  /** How many parents are still to come. */
  ghost function Left(parents: set<string>, done: set<string>): nat {
    |parents - done|
  }

  ghost predicate DegreesLeft(g: Graph, done: set<string>, inDegree: map<string, nat>) {
    inDegree.Keys == g.Keys && forall x :: x in g ==> inDegree[x] == Left(g[x], done)
  }

  ghost function ChildrenOf(g: Graph, p: string): set<string> {
    set x | x in g.Keys && p in g[x]
  }

  ghost function Freed(g: Graph, children: set<string>, done: set<string>): set<string> {
    set x | x in children && x in g && g[x] <= done
  }

  /** Removing one parent lowers the count by exactly one, so the clamp at zero never takes effect. */
  lemma DegreeDrops(parents: set<string>, done: set<string>, cur: string)
    requires cur in parents && cur !in done
    ensures Left(parents, done + {cur}) == Left(parents, done) - 1
    ensures Left(parents, done + {cur}) == 0 <==> parents <= done + {cur}
  {
    assert parents - (done + {cur}) == (parents - done) - {cur};
    if parents <= done + {cur} {
      assert parents - (done + {cur}) == {};
    }
  }

  lemma DegreeKept(parents: set<string>, done: set<string>, cur: string)
    requires cur !in parents
    ensures Left(parents, done + {cur}) == Left(parents, done)
  {
    assert parents - (done + {cur}) == parents - done;
  }

  lemma DegreeStarts(parents: set<string>)
    ensures Left(parents, {}) == |parents|
    ensures |parents| == 0 <==> parents <= {}
  {
    assert parents - {} == parents;
    assert parents <= {} ==> parents == {};
  }

  /** No emitted node has a parent still to come. */
  ghost predicate DownClosed(g: Graph, done: set<string>) {
    forall x :: x in done && x in g ==> g[x] <= done
  }

  // After the children in `upto` lost a degree: the state of the inner loop.

  ghost predicate DegreesMid(g: Graph, done: set<string>, current: string, upto: set<string>, inDegree: map<string, nat>) {
    && inDegree.Keys == g.Keys
    && forall x :: x in g ==> inDegree[x] == Left(g[x], if x in upto then done + {current} else done)
  }

  ghost predicate ReadyMid(g: Graph, done: set<string>, current: string, upto: set<string>, ready: seq<string>) {
    Distinct(ready) && Elems(ready) == (Ready(g, done) - {current}) + Freed(g, upto, done + {current})
  }

  /** One child: its degree drops, and it is queued exactly when no known parent is left. */
  method ReleaseOne(ghost g: Graph, ghost done: set<string>, ghost current: string, ghost upto: set<string>,
                    child: string, inDegree: map<string, nat>, ready: seq<string>)
    returns (inDegree': map<string, nat>, ready': seq<string>)
    requires current in Ready(g, done)
    requires DegreesMid(g, done, current, upto, inDegree) && ReadyMid(g, done, current, upto, ready)
    requires child in g && current in g[child] && child !in upto
    ensures DegreesMid(g, done, current, upto + {child}, inDegree') && ReadyMid(g, done, current, upto + {child}, ready')
  {
    DegreeDrops(g[child], done, current);
    assert inDegree[child] == Left(g[child], done);
    hide Left, Ready, ReadyMid;
    var nextDegree := if inDegree[child] > 0 then inDegree[child] - 1 else 0;
    inDegree' := inDegree[child := nextDegree];
    ready' := if nextDegree == 0 then ready + [child] else ready;
    QueueOne(g, done, current, upto, child, ready);
  }

  lemma QueueOne(g: Graph, done: set<string>, current: string, upto: set<string>, child: string, ready: seq<string>)
    requires current in Ready(g, done) && ReadyMid(g, done, current, upto, ready)
    requires child in g && current in g[child] && child !in upto
    ensures ReadyMid(g, done, current, upto + {child}, if g[child] <= done + {current} then ready + [child] else ready)
  {
    assert child !in Elems(ready);
    hide Ready;
    Snoc(ready, child);
    FreedOne(g, upto, done + {current}, child);
  }

  lemma FreedOne(g: Graph, upto: set<string>, done: set<string>, child: string)
    requires child in g
    ensures Freed(g, upto + {child}, done) == Freed(g, upto, done) + (if g[child] <= done then {child} else {})
  {
  }

  /** The inner loop: every child of `current` loses a degree and is queued, once, when it reaches zero. */
  method Release(ghost g: Graph, ghost done: set<string>, ghost current: string, children: seq<string>,
                 inDegree: map<string, nat>, ready: seq<string>)
    returns (inDegree': map<string, nat>, ready': seq<string>)
    requires current in Ready(g, done) && DegreesLeft(g, done, inDegree) && DownClosed(g, done)
    requires Distinct(children) && Elems(children) == ChildrenOf(g, current)
    requires Distinct(ready) && Elems(ready) == Ready(g, done) - {current}
    ensures DegreesLeft(g, done + {current}, inDegree') && DownClosed(g, done + {current})
    ensures Distinct(ready') && Elems(ready') == Ready(g, done + {current})
  {
    hide DegreesMid, ReadyMid, DegreesLeft, DownClosed, Ready;
    inDegree', ready' := inDegree, ready;
    ReleasingStart(g, done, current, inDegree, ready);
    assert Elems(children[..0]) == {};
    for k := 0 to |children|
      invariant DegreesMid(g, done, current, Elems(children[..k]), inDegree')
      invariant ReadyMid(g, done, current, Elems(children[..k]), ready')
    {
      TakeOne(children, k);
      assert children[k] in ChildrenOf(g, current);
      inDegree', ready' := ReleaseOne(g, done, current, Elems(children[..k]), children[k], inDegree', ready');
    }
    assert children[..|children|] == children;
    ReleasingEnd(g, done, current, inDegree', ready');
  }

  lemma ReleasingStart(g: Graph, done: set<string>, current: string, inDegree: map<string, nat>, ready: seq<string>)
    requires DegreesLeft(g, done, inDegree) && Distinct(ready) && Elems(ready) == Ready(g, done) - {current}
    ensures DegreesMid(g, done, current, {}, inDegree) && ReadyMid(g, done, current, {}, ready)
  {
    assert Freed(g, {}, done + {current}) == {};
  }

  lemma ReleasingEnd(g: Graph, done: set<string>, current: string, inDegree: map<string, nat>, ready: seq<string>)
    requires current in Ready(g, done) && DownClosed(g, done)
    requires DegreesMid(g, done, current, ChildrenOf(g, current), inDegree)
    requires ReadyMid(g, done, current, ChildrenOf(g, current), ready)
    ensures DegreesLeft(g, done + {current}, inDegree) && DownClosed(g, done + {current})
    ensures Distinct(ready) && Elems(ready) == Ready(g, done + {current})
  {
    ReadyAfter(g, done, current);
    DegreesAfter(g, done, current, inDegree);
  }

  lemma DegreesAfter(g: Graph, done: set<string>, current: string, inDegree: map<string, nat>)
    requires DegreesMid(g, done, current, ChildrenOf(g, current), inDegree)
    ensures DegreesLeft(g, done + {current}, inDegree)
  {
    forall x | x in g && x !in ChildrenOf(g, current) ensures Left(g[x], done + {current}) == Left(g[x], done) {
      DegreeKept(g[x], done, current);
    }
  }

  lemma ReadyAfter(g: Graph, done: set<string>, current: string)
    requires current in Ready(g, done) && DownClosed(g, done)
    ensures Ready(g, done + {current})
         == (Ready(g, done) - {current}) + Freed(g, ChildrenOf(g, current), done + {current})
  {
    assert forall x :: x in ChildrenOf(g, current) ==> x !in done;
  }

  ghost predicate DrainInv(g: Graph, lt: Less<string>, done: set<string>, inDegree: map<string, nat>,
                           ready: seq<string>, ordered: seq<string>)
    requires TotalOn(lt, g.Keys)
  {
    && DegreesLeft(g, done, inDegree) && DownClosed(g, done)
    && ready == Ascending(lt, Ready(g, done))
    && ordered + Emit(g, lt, done) == Emit(g, lt, {})
  }

  lemma ReadyKnown(g: Graph, done: set<string>)
    ensures Ready(g, done) <= g.Keys
  {
  }

  lemma EmitStep(g: Graph, lt: Less<string>, done: set<string>, ready: seq<string>, ordered: seq<string>)
    requires TotalOn(lt, g.Keys) && ready == Ascending(lt, Ready(g, done)) && ready != []
    requires ordered + Emit(g, lt, done) == Emit(g, lt, {})
    ensures ready[0] in Ready(g, done) && ready[0] in g.Keys - done
    ensures Distinct(ready[1..]) && Elems(ready[1..]) == Ready(g, done) - {ready[0]}
    ensures (ordered + [ready[0]]) + Emit(g, lt, done + {ready[0]}) == Emit(g, lt, {})
  {
    hide TotalOn, Ascending;
    ReadyKnown(g, done);
    TotalOnSubset(lt, g.Keys, Ready(g, done));
    HeadApart(lt, Ready(g, done), ready);
    assert Emit(g, lt, done) == [ready[0]] + Emit(g, lt, done + {ready[0]});
  }

  lemma EmitDone(g: Graph, lt: Less<string>, done: set<string>, ready: seq<string>)
    requires TotalOn(lt, g.Keys) && ready == Ascending(lt, Ready(g, done)) && ready == []
    ensures Emit(g, lt, done) == []
  {
  }

  method Drain(ghost g: Graph, lt: Less<string>, inDegree0: map<string, nat>, children: Parents, ready0: seq<string>)
    returns (ordered: seq<string>)
    requires TotalOn(lt, g.Keys) && DegreesLeft(g, {}, inDegree0)
    requires ChildIndex(Edges(g, g.Keys), children)
    requires ready0 == Ascending(lt, Ready(g, {}))
    ensures ordered == Emit(g, lt, {})
  {
    hide TotalOn, Emit, Ready, Ascending, DegreesLeft, ChildIndex, Sort;
    ordered := [];
    var inDegree, ready := inDegree0, ready0;
    ghost var done: set<string> := {};
    while |ready| > 0
      invariant DrainInv(g, lt, done, inDegree, ready, ordered)
      decreases g.Keys - done
    {
      var current := ready[0];
      EmitStep(g, lt, done, ready, ordered);
      ready := ready[1..];
      ordered := ordered + [current];
      var kids := if current in children then children[current] else [];
      KidsOf(g, children, current, kids);
      inDegree, ready := Release(g, done, current, kids, inDegree, ready);
      done := done + {current};
      ReadyKnown(g, done);
      TotalOnSubset(lt, g.Keys, Elems(ready));
      SortIsAscending(lt, ready);
      ready := Sort(lt, ready);
    }
    assert ready == [];
    EmitDone(g, lt, done, ready);
  }

  lemma KidsOf(g: Graph, children: Parents, p: string, kids: seq<string>)
    requires ChildIndex(Edges(g, g.Keys), children)
    requires kids == if p in children then children[p] else []
    ensures Distinct(kids) && Elems(kids) == ChildrenOf(g, p)
  {
    forall x ensures x in kids <==> x in ChildrenOf(g, p) {
      assert (p, x) in Edges(g, g.Keys) <==> p in children && x in children[p];
    }
  }

  lemma HeadApart(lt: Less<string>, s: set<string>, q: seq<string>)
    requires TotalOn(lt, s) && q == Ascending(lt, s) && q != []
    ensures q[0] == Least(lt, s) && Distinct(q[1..]) && Elems(q[1..]) == s - {q[0]}
  {
    assert Distinct(q) by { AscendingSorted(lt, s); }
    assert q[1..] == Ascending(lt, s - {q[0]});
  }

  // ---------- Around the loop ----------

  method Select(ids: seq<string>, keep: set<string>) returns (r: seq<string>)
    requires Distinct(ids)
    ensures Distinct(r) && Elems(r) == Elems(ids) * keep
  {
    r := [];
    for i := 0 to |ids|
      invariant Distinct(r) && Elems(r) == Elems(ids[..i]) * keep
    {
      TakeOne(ids, i);
      if ids[i] in keep {
        Snoc(r, ids[i]);
        r := r + [ids[i]];
      }
    }
    assert ids[..|ids|] == ids;
  }

  /** The nodes whose in-degree starts at zero are the frontier of the empty history. */
  method InitialReady(ghost g: Graph, lt: Less<string>, ids: seq<string>, inDegree: map<string, nat>)
    returns (ready: seq<string>)
    requires TotalOn(lt, g.Keys) && Distinct(ids) && Elems(ids) == g.Keys
    requires inDegree.Keys == g.Keys && forall x :: x in g ==> inDegree[x] == |g[x]|
    ensures ready == Ascending(lt, Ready(g, {})) && DegreesLeft(g, {}, inDegree)
  {
    ready := Select(ids, set x | x in inDegree && inDegree[x] == 0);
    RootsReady(g, inDegree);
    hide TotalOn, Ready, Ascending, DegreesLeft, Sort;
    assert Elems(ready) == Ready(g, {});
    assert Elems(ready) <= g.Keys;
    TotalOnSubset(lt, g.Keys, Elems(ready));
    SortIsAscending(lt, ready);
    ready := Sort(lt, ready);
  }

  lemma RootsReady(g: Graph, inDegree: map<string, nat>)
    requires inDegree.Keys == g.Keys && forall x :: x in g ==> inDegree[x] == |g[x]|
    ensures (set x | x in inDegree && inDegree[x] == 0) * g.Keys == Ready(g, {})
    ensures DegreesLeft(g, {}, inDegree)
  {
    hide Left;
    forall x | x in g ensures inDegree[x] == Left(g[x], {}) && (inDegree[x] == 0 <==> g[x] <= {}) {
      DegreeStarts(g[x]);
    }
  }

  method CollectReferenced(ids: seq<string>, parents: Parents) returns (referenced: set<string>)
    requires WellFormed(ids, parents)
    ensures referenced == Referenced(Known(parents))
  {
    referenced := {};
    var known := Elems(ids);
    ghost var g := Known(parents);
    for i := 0 to |ids|
      invariant forall p :: p in referenced <==> exists x :: x in Elems(ids[..i]) && x in g && p in g[x]
    {
      TakeOne(ids, i);
      referenced := referenced + (Elems(parents[ids[i]]) * known);
    }
    assert ids[..|ids|] == ids;
  }

  ghost function ChildLists(g: Graph): Parents {
    CodeUnitTotal();
    map p | p in Referenced(g) :: Ascending(CodeUnitLess, ChildrenOf(g, p))
  }

  /** Known nodes that nobody references never enter the table; the others list their children in code-unit order. */
  method SortChildren(ghost g: Graph, children: Parents) returns (lists: Parents)
    requires ChildIndex(Edges(g, g.Keys), children)
    ensures lists == ChildLists(g)
  {
    CodeUnitTotal();
    lists := map p | p in children :: Sort(CodeUnitLess, children[p]);
    forall p ensures p in children <==> p in Referenced(g) {
      TabledParents(g, children, p);
    }
    forall p | p in children ensures lists[p] == Ascending(CodeUnitLess, ChildrenOf(g, p)) {
      SortedKids(g, children, p);
    }
  }

  lemma TabledParents(g: Graph, children: Parents, p: string)
    requires ChildIndex(Edges(g, g.Keys), children)
    ensures p in children <==> p in Referenced(g)
  {
    assert p in children ==> (p, children[p][0]) in Edges(g, g.Keys);
    assert forall x :: x in g && p in g[x] ==> (p, x) in Edges(g, g.Keys);
  }

  lemma SortedKids(g: Graph, children: Parents, p: string)
    requires ChildIndex(Edges(g, g.Keys), children) && p in children && TotalOn(CodeUnitLess, ChildrenOf(g, p))
    ensures Sort(CodeUnitLess, children[p]) == Ascending(CodeUnitLess, ChildrenOf(g, p))
  {
    hide CodeUnitLess, TotalOn;
    KidsOf(g, children, p, children[p]);
    SortIsAscending(CodeUnitLess, children[p]);
  }

  /** The ready loop, then whatever is stuck on a cycle, sorted. */
  method OrderNodes(ghost g: Graph, ids: seq<string>, lt: Less<string>, inDegree: map<string, nat>, children: Parents)
    returns (ordered: seq<string>)
    requires TotalOn(lt, g.Keys) && Distinct(ids) && Elems(ids) == g.Keys
    requires inDegree.Keys == g.Keys && forall x :: x in g ==> inDegree[x] == |g[x]|
    requires ChildIndex(Edges(g, g.Keys), children)
    ensures ordered == KahnOrder(g, lt)
  {
    var ready := InitialReady(g, lt, ids, inDegree);
    var emitted := Drain(g, lt, inDegree, children, ready);
    var remaining := Select(ids, Elems(ids) - Elems(emitted));
    assert Elems(remaining) == Stuck(g, lt);
    SortIsAscending(lt, remaining);
    ordered := emitted + Sort(lt, remaining);
  }

  method SortMissing(missing: seq<string>) returns (sorted: seq<string>)
    requires Distinct(missing)
    ensures StrictTotal(CodeUnitLess)
    ensures sorted == Ascending(CodeUnitLess, Elems(missing))
  {
    CodeUnitTotal();
    SortIsAscending(CodeUnitLess, missing);
    sorted := Sort(CodeUnitLess, missing);
  }

  /** The whole analysis: causal order, leaves, missing parents and child lists. */
  method Analyze(ids: seq<string>, parents: Parents, lt: Less<string>)
    returns (ordered: seq<string>, leafIds: seq<string>, missingIds: seq<string>, childLists: Parents)
    requires WellFormed(ids, parents) && TotalOn(lt, parents.Keys)
    ensures StrictTotal(CodeUnitLess)
    ensures ordered == KahnOrder(Known(parents), lt)
    ensures leafIds == Leaves(Known(parents), lt)
    ensures missingIds == Ascending(CodeUnitLess, Missing(parents))
    ensures childLists == ChildLists(Known(parents))
  {
    assert Known(parents).Keys == parents.Keys;
    var inDegree, children, missing := IndexParents(ids, parents);
    ordered := OrderNodes(Known(parents), ids, lt, inDegree, children);
    var referenced := CollectReferenced(ids, parents);
    leafIds := Unreferenced(ordered, referenced);
    missingIds := SortMissing(missing);
    childLists := SortChildren(Known(parents), children);
  }
}
