/** analyzeCrdtOps: its result is a function of the set of operations, not of how they arrived. */
module CrdtAnalysis {
  import opened Orders
  import opened Ids
  import opened Kahn
  import KahnLoop
  import opened CrdtOps
  import opened CrdtVectors

  datatype Analysis = Analysis(
    ops: seq<Op>, orderedOps: seq<Op>, leafOpIds: seq<string>, missingParentOpIds: seq<string>,
    versionVector: Vector, observedVersionVector: Vector, childrenByOpId: map<string, seq<string>>)

  ghost function OrderedOps(col: Collation, byId: OpMap): seq<Op>
    requires StrictTotal(col) && Keyed(byId)
  {
    OpsAt(byId, OrderedIds(col, byId))
  }

  /** Everything below is read off the deduplicated map; `ids` only fixes the listing of `ops`. */
  ghost function AnalysisOf(col: Collation, byId: OpMap, ids: seq<string>): Analysis
    requires StrictTotal(col) && Keyed(byId) && Elems(ids) == byId.Keys
  {
    Analysis(
      OpsAt(byId, ids),
      OrderedOps(col, byId),
      LeafIds(col, byId),
      MissingIds(byId),
      ContiguousVector(MarksOf(byId.Values)),
      ObservedVector(MarksOf(byId.Values)),
      KahnLoop.ChildLists(GraphOf(byId)))
  }

  method AnalyzeCrdtOps(col: Collation, ops: seq<Op>) returns (analysis: Analysis)
    requires StrictTotal(col)
    ensures Keyed(FirstById(ops)) && Elems(FirstIds(ops)) == FirstById(ops).Keys
    ensures analysis == AnalysisOf(col, FirstById(ops), FirstIds(ops))
  {
    hide FirstById, FirstIds, KahnOrder, Leaves, NormalOp, Trim, NormalizeIds;
    FirstByIdKeyed(ops);
    var byId, ids := Dedupe(ops);
    IdLessTotal(col, byId);
    var parents := ParentsOf(byId);
    var orderedIds, leafIds, missingIds, childLists := KahnLoop.Analyze(ids, parents, IdLess(col, byId));
    var dedupedOps := OpsAt(byId, ids);
    OpsAtElems(byId, ids);
    var contiguous := BuildContiguousVersionVector(dedupedOps);
    var observed := BuildObservedVersionVector(dedupedOps);
    assert orderedIds == OrderedIds(col, byId);
    analysis := Analysis(dedupedOps, OpsAt(byId, orderedIds), leafIds, missingIds, contiguous, observed, childLists);
  }

  lemma OpsAtElems(byId: OpMap, ids: seq<string>)
    requires Elems(ids) == byId.Keys
    ensures Elems(OpsAt(byId, ids)) == byId.Values
  {
    forall k | k in byId ensures byId[k] in OpsAt(byId, ids) {
      assert k in Elems(ids);
      var i :| 0 <= i < |ids| && ids[i] == k;
      assert OpsAt(byId, ids)[i] == byId[k];
    }
  }

  /** orderedOps is a permutation of the deduplicated operations. */
  lemma OrderedOpsPermute(col: Collation, byId: OpMap)
    requires StrictTotal(col) && Keyed(byId)
    ensures var o := OrderedOps(col, byId);
      Distinct(o) && Elems(o) == byId.Values && |o| == |byId.Keys|
  {
    var ids := OrderedIds(col, byId);
    OpsAtElems(byId, ids);
    DistinctCount(ids);
  }

  /** On an acyclic history, and only there, every operation follows all its known parents. */
  lemma OrderIsCausal(col: Collation, byId: OpMap)
    requires StrictTotal(col) && Keyed(byId)
    ensures Acyclic(GraphOf(byId)) <==> ParentsFirst(GraphOf(byId), OrderedIds(col, byId))
  {
    IdLessTotal(col, byId);
    CausalIffAcyclic(GraphOf(byId), IdLess(col, byId));
  }

  ghost predicate Converges(col: Collation, ops: set<Op>)
    requires StrictTotal(col)
  {
    forall o1, o2 | Elems(o1) == ops && Elems(o2) == ops ::
      SameAnalysis(col, o1, o2)
  }

  /** Equal in everything but the arrival-ordered listing `ops`. */
  ghost predicate SameAnalysis(col: Collation, o1: seq<Op>, o2: seq<Op>)
    requires StrictTotal(col)
  {
    FirstByIdKeyed(o1);
    FirstByIdKeyed(o2);
    AnalysisOf(col, FirstById(o1), FirstIds(o1)).(ops := [])
    == AnalysisOf(col, FirstById(o2), FirstIds(o2)).(ops := [])
  }

  /** Replicas that hold the same operations agree. */
  lemma Convergence(col: Collation, o1: seq<Op>, o2: seq<Op>)
    requires StrictTotal(col)
    requires Elems(o1) == Elems(o2) && Consistent(Elems(o1))
    ensures SameAnalysis(col, o1, o2)
  {
    SameSetSameMap(o1, o2);
  }

  /** Arrival order is irrelevant exactly when equal ids mean equal operations. */
  lemma ConvergenceExactly(col: Collation, listing: seq<Op>)
    requires StrictTotal(col)
    ensures Converges(col, Elems(listing)) <==> Consistent(Elems(listing))
  {
    var ops := Elems(listing);
    if Consistent(ops) {
      forall o1, o2 | Elems(o1) == ops && Elems(o2) == ops ensures SameAnalysis(col, o1, o2) {
        Convergence(col, o1, o2);
      }
    } else {
      var a, b :| a in ops && b in ops && Trim(a.opId) == Trim(b.opId) && Trim(a.opId) != "" && Normalize(a) != Normalize(b);
      ConflictDiverges(col, listing, a, b);
    }
  }

  lemma ConflictDiverges(col: Collation, listing: seq<Op>, a: Op, b: Op)
    requires StrictTotal(col) && a in Elems(listing) && b in Elems(listing)
    requires Trim(a.opId) == Trim(b.opId) && Trim(a.opId) != "" && Normalize(a) != Normalize(b)
    ensures !Converges(col, Elems(listing))
  {
    var o1 := ArrivesFirst(listing, a);
    var o2 := ArrivesFirst(listing, b);
    DifferentMapsDiffer(col, o1, o2, Trim(a.opId));
  }

  /** A delivery of the same operations in which `a` comes first, so that its copy is kept. */
  lemma ArrivesFirst(listing: seq<Op>, a: Op) returns (o: seq<Op>)
    requires a in Elems(listing) && Trim(a.opId) != ""
    ensures Elems(o) == Elems(listing)
    ensures Trim(a.opId) in FirstById(o) && FirstById(o)[Trim(a.opId)] == Normalize(a)
  {
    o := [a] + listing;
    Present(o, 0);
    var i := FirstWins(o, Trim(a.opId));
    assert o[0] == a;
  }

  lemma DifferentMapsDiffer(col: Collation, o1: seq<Op>, o2: seq<Op>, k: string)
    requires StrictTotal(col)
    requires k in FirstById(o1) && k in FirstById(o2) && FirstById(o1)[k] != FirstById(o2)[k]
    ensures !SameAnalysis(col, o1, o2)
  {
    FirstByIdKeyed(o1);
    FirstByIdKeyed(o2);
    var m1, m2 := FirstById(o1), FirstById(o2);
    OrderedOpsPermute(col, m1);
    OrderedOpsPermute(col, m2);
    assert m1[k] in m1.Values && m2[k] in m2.Values;
    assert m1[k] !in m2.Values;
    assert m1[k] in Elems(OrderedOps(col, m1)) && m1[k] !in Elems(OrderedOps(col, m2));
  }
}
