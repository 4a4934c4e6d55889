/** Appending a node whose parents are all the current leaves. */
module KahnExtend {
  import opened Orders
  import opened Kahn
  import KahnLoop

  /** g' is g with a new node on top of every leaf; the new order agrees with the old one on old nodes. */
  ghost predicate Tops(g: Graph, lt: Less<string>, g': Graph, lt': Less<string>, id: string) {
    && Closed(g) && id !in g && TotalOn(lt, g.Keys)
    && g'.Keys == g.Keys + {id} && TotalOn(lt', g'.Keys)
    && (forall x :: x in g ==> g'[x] == g[x])
    && g'[id] == (set x | x in g.Keys && IsLeaf(g, x))
    && (forall x, y :: x in g && y in g ==> lt'(x, y) == lt(x, y))
  }

  lemma {:induction false} ChainStaysDone(g: Graph, done: set<string>, p: seq<string>)
    requires KahnLoop.DownClosed(g, done) && IsChain(g, p) && p[0] in done
    ensures p[|p| - 1] in done
  {
    if |p| > 1 {
      assert p[1] in g[p[0]];
      ChainStaysDone(g, done, p[1..]);
    }
  }

  /** While some old node is missing from `done`, so is some leaf. */
  lemma LeafStillToCome(g: Graph, lt: Less<string>, done: set<string>)
    requires TotalOn(lt, g.Keys) && Closed(g) && Acyclic(g) && KahnLoop.DownClosed(g, done) && g.Keys - done != {}
    ensures exists leaf :: IsLeaf(g, leaf) && leaf !in done
  {
    var x :| x in g.Keys - done;
    EveryNodeBelowALeaf(g, lt, x);
    var leaf :| leaf in Leaves(g, lt) && AncestorOrSelf(g, x, leaf);
    LeavesExactly(g, lt, leaf);
    var p :| IsChain(g, p) && p[0] == leaf && p[|p| - 1] == x;
    if leaf in done {
      ChainStaysDone(g, done, p);
    }
  }

  lemma ReadyTogether(g: Graph, lt: Less<string>, g': Graph, lt': Less<string>, id: string, done: set<string>)
    requires Tops(g, lt, g', lt', id) && Acyclic(g) && KahnLoop.DownClosed(g, done) && done <= g.Keys
    ensures Ready(g', done) == if done == g.Keys then {id} else Ready(g, done)
  {
    if done == g.Keys {
      assert g'[id] <= done;
    } else {
      assert g.Keys - done != {};
      LeafStillToCome(g, lt, done);
      assert id !in Ready(g', done);
    }
  }

  lemma LeastTogether(g: Graph, lt: Less<string>, g': Graph, lt': Less<string>, id: string, s: set<string>)
    requires Tops(g, lt, g', lt', id) && s <= g.Keys && s != {}
    ensures Least(lt', s) == Least(lt, s)
  {
    LeastIs(lt', s, Least(lt, s));
  }

  lemma {:induction false} EmitTogether(g: Graph, lt: Less<string>, g': Graph, lt': Less<string>, id: string, done: set<string>)
    requires Tops(g, lt, g', lt', id) && Acyclic(g) && KahnLoop.DownClosed(g, done) && done <= g.Keys
    requires Elems(Emit(g, lt, done)) == g.Keys - done
    ensures Emit(g', lt', done) == Emit(g, lt, done) + [id]
    decreases g.Keys - done
  {
    ReadyTogether(g, lt, g', lt', id, done);
    if done == g.Keys {
      LastStep(g', lt', id, done);
      assert Emit(g, lt, done) == [];
    } else {
      var m := FirstStep(g, lt, done);
      LeastTogether(g, lt, g', lt', id, Ready(g, done));
      EmitTogether(g, lt, g', lt', id, done + {m});
    }
  }

  lemma LastStep(g': Graph, lt': Less<string>, id: string, done: set<string>)
    requires TotalOn(lt', g'.Keys) && g'.Keys == done + {id} && Ready(g', done) == {id}
    ensures Emit(g', lt', done) == [id]
  {
    assert Ready(g', done + {id}) == {};
  }

  lemma FirstStep(g: Graph, lt: Less<string>, done: set<string>) returns (m: string)
    requires TotalOn(lt, g.Keys) && KahnLoop.DownClosed(g, done) && done < g.Keys
    requires Elems(Emit(g, lt, done)) == g.Keys - done
    ensures Ready(g, done) != {} && m == Least(lt, Ready(g, done))
    ensures KahnLoop.DownClosed(g, done + {m}) && done + {m} <= g.Keys && m !in done
    ensures Elems(Emit(g, lt, done + {m})) == g.Keys - (done + {m})
  {
    assert Ready(g, done) != {} by {
      var x :| x in g.Keys && x !in done;
      assert x in Elems(Emit(g, lt, done));
    }
    m := Least(lt, Ready(g, done));
    var t := Emit(g, lt, done + {m});
    EmitFacts(g, lt, done + {m});
    Cons([m] + t);
    assert ([m] + t)[1..] == t;
  }

  /** The new node comes last, the old order is kept, and the graph stays acyclic with it as the only leaf. */
  lemma TopComesLast(g: Graph, lt: Less<string>, g': Graph, lt': Less<string>, id: string)
    requires Tops(g, lt, g', lt', id) && Acyclic(g)
    ensures Closed(g') && Acyclic(g')
    ensures KahnOrder(g', lt') == KahnOrder(g, lt) + [id]
    ensures Leaves(g', lt') == [id]
  {
    assert Closed(g');
    AcyclicEmitsAll(g, lt);
    OrderFacts(g, lt);
    EmitTogether(g, lt, g', lt', id, {});
    assert Elems(KahnOrder(g, lt) + [id]) == g'.Keys by { Snoc(KahnOrder(g, lt), id); }
    assert Stuck(g', lt') == {};
    AcyclicEmitsAll(g', lt');
    OnlyLeaf(g, lt, g', lt', id);
  }

  lemma OnlyLeaf(g: Graph, lt: Less<string>, g': Graph, lt': Less<string>, id: string)
    requires Tops(g, lt, g', lt', id) && KahnOrder(g', lt') == KahnOrder(g, lt) + [id]
    ensures Leaves(g', lt') == [id]
  {
    var o := KahnOrder(g, lt);
    assert Elems(o) == g.Keys by { OrderFacts(g, lt); }
    AllReferenced(g, lt, g', lt', id);
    hide Tops, TotalOn, KahnOrder, Referenced;
    assert (o + [id])[..|o + [id]| - 1] == o;
    UnreferencedElems(o, Referenced(g'));
    NoElems(Unreferenced(o, Referenced(g')));
  }

  lemma AllReferenced(g: Graph, lt: Less<string>, g': Graph, lt': Less<string>, id: string)
    requires Tops(g, lt, g', lt', id)
    ensures g.Keys <= Referenced(g') && id !in Referenced(g')
  {
    forall x | x in g ensures x in Referenced(g') {
      if IsLeaf(g, x) {
        assert x in g'[id];
      } else {
        var y :| y in g && x in g[y];
        assert x in g'[y];
      }
    }
    assert id !in Referenced(g');
  }

  lemma NoElems(s: seq<string>)
    requires Elems(s) == {}
    ensures s == []
  {
    if s != [] {
      Cons(s);
    }
  }
}
