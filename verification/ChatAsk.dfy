/** A run of upserts asks for each missing message once: exactly when it is first mentioned and not yet received. */
module ChatAsk {
  import opened Orders
  import opened Ids
  import opened ChatGraph
  import opened ChatSession
  import opened ChatRuns

  /** All ids reported newly missing, in order, over a run. */
  ghost function Asked(col: Collation, run: seq<ChatMessage>): seq<string>
    requires StrictTotal(col)
  {
    if run == [] then [] else
      var init, last := run[..|run| - 1], run[|run| - 1];
      Asked(col, init) + Upsert(col, Session(col, init), last).newlyMissing
  }

  ghost predicate Mentions(m: ChatMessage, p: string) {
    Trim(m.id) != "" && p in NormalizeIds(m.after)
  }

  ghost predicate ReceivedBy(run: seq<ChatMessage>, n: int, p: string) {
    exists j :: 0 <= j < n && j < |run| && Trim(run[j].id) == p
  }

  /** p is mentioned at step i and has not been received by the end of that step. */
  ghost predicate MissedAt(run: seq<ChatMessage>, i: int, p: string) {
    0 <= i < |run| && Mentions(run[i], p) && !ReceivedBy(run, i + 1, p)
  }

  ghost predicate EverMissed(run: seq<ChatMessage>, p: string) {
    exists i :: MissedAt(run, i, p)
  }

  ghost predicate Mentioned(run: seq<ChatMessage>, p: string) {
    exists i :: 0 <= i < |run| && Mentions(run[i], p)
  }

  /** Runs of immutable chat messages. */
  ghost predicate ChatRun(run: seq<ChatMessage>) {
    ImmutableRun(Elems(run)) && forall m :: m in run ==> m.kind == Chat
  }

  ghost function Pending(run: seq<ChatMessage>): set<string> {
    MissingSet(NodesOf(Table(run, Chat)))
  }

  lemma PrefixRun(run: seq<ChatMessage>, n: nat)
    requires ChatRun(run) && n <= |run|
    ensures ChatRun(run[..n])
  {
    assert Elems(run[..n]) <= Elems(run);
  }

  lemma MissingIs(nodes: NodeMap, p: string)
    ensures p in MissingSet(nodes) <==> p !in nodes && exists x :: x in nodes && p in NormalizeIds(nodes[x].after)
  {
    var parents := ParentsOf(nodes);
    assert parents.Keys == nodes.Keys;
    assert forall x :: x in nodes ==> parents[x] == NormalizeIds(nodes[x].after);
  }

  lemma StripAfter(m: ChatMessage)
    requires m.kind == Chat
    ensures NormalizeIds(Strip(m).after) == NormalizeIds(m.after)
  {
    NormalizeIdsIdempotent(m.after);
  }

  /** What is missing after a run: mentioned, never received. */
  lemma PendingExactly(run: seq<ChatMessage>, p: string)
    requires ChatRun(run)
    ensures p in Pending(run) <==> !ReceivedBy(run, |run|, p) && Mentioned(run, p)
  {
    hide Trim, Strip, NormalizeIds, MissingSet;
    var table := Table(run, Chat);
    MissingIs(NodesOf(table), p);
    if p in Pending(run) {
      PendingOnlyIf(run, p);
    }
    if !ReceivedBy(run, |run|, p) && Mentioned(run, p) {
      var i :| 0 <= i < |run| && Mentions(run[i], p);
      PendingIf(run, p, i);
    }
  }

  lemma PendingOnlyIf(run: seq<ChatMessage>, p: string)
    requires ChatRun(run) && p !in Table(run, Chat)
    requires exists x :: x in NodesOf(Table(run, Chat)) && p in NormalizeIds(NodesOf(Table(run, Chat))[x].after)
    ensures !ReceivedBy(run, |run|, p) && Mentioned(run, p)
  {
    hide Trim, Strip, NormalizeIds, Table, ImmutableRun;
    var x :| x in Table(run, Chat) && p in NormalizeIds(Table(run, Chat)[x].after);
    var i := TableHolder(run, Chat, x);
    StripAfter(run[i]);
    assert Mentions(run[i], p);
    if ReceivedBy(run, |run|, p) {
      var j :| 0 <= j < |run| && Trim(run[j].id) == p;
      assert run[j] in run;
      ParentsNamed(run[i].after, p);
      TableHas(run, Chat, j);
    }
  }

  lemma ParentsNamed(after: seq<string>, p: string)
    requires p in NormalizeIds(after)
    ensures p != ""
  {
    NormalizeIdsElems(after);
  }

  lemma PendingIf(run: seq<ChatMessage>, p: string, i: nat)
    requires ChatRun(run) && i < |run| && Mentions(run[i], p) && !ReceivedBy(run, |run|, p)
    ensures p !in Table(run, Chat)
    ensures exists x :: x in NodesOf(Table(run, Chat)) && p in NormalizeIds(NodesOf(Table(run, Chat))[x].after)
  {
    hide Trim, Strip, NormalizeIds, Table;
    if p in Table(run, Chat) {
      var j := TableHolder(run, Chat, p);
    }
    assert run[i] in run && run[i].kind == Chat;
    TableHas(run, Chat, i);
    var k := Trim(run[i].id);
    var h := TableHolder(run, Chat, k);
    assert run[h] in Elems(run) && run[i] in Elems(run);
    StripAfter(run[h]);
    StripAfter(run[i]);
    assert k in NodesOf(Table(run, Chat));
  }

  lemma {:induction false} ExceptElems(ids: seq<string>, previous: set<string>)
    ensures Elems(Except(ids, previous)) == Elems(ids) - previous
    ensures Distinct(ids) ==> Distinct(Except(ids, previous))
  {
    if ids != [] {
      var init, last := ids[..|ids| - 1], ids[|ids| - 1];
      ExceptElems(init, previous);
      assert ids == init + [last];
      Snoc(init, last);
      Snoc(Except(init, previous), last);
      assert Distinct(ids) ==> Distinct(init) && last !in Elems(init);
    }
  }

  /** One step asks for exactly what became missing. */
  lemma NewlyMissingIs(col: Collation, run: seq<ChatMessage>, next: ChatMessage)
    requires StrictTotal(col)
    ensures var asked := Upsert(col, Session(col, run), next).newlyMissing;
      Distinct(asked) && Elems(asked) == Pending(run + [next]) - Pending(run)
  {
    hide OrderedIds, LeafIds, Latest, TableIds, Sort, ChatList, Listed, Session, Step, Without, Table, MissingSet, Before;
    UpsertViews(col, run, next);
    SessionTables(col, run, Chat);
    CodeUnitTotal();
    var missing := MissingIds(NodesOf(Table(run + [next], Chat)));
    AscendingSorted(CodeUnitLess, Pending(run + [next]));
    assert Elems(Reconcile(col, Session(col, run)).missingMessageIds) == Pending(run);
    ExceptElems(missing, Pending(run));
  }

  lemma Snocs(init: seq<ChatMessage>, last: ChatMessage, p: string)
    ensures var run := init + [last];
      && (Mentioned(run, p) <==> Mentioned(init, p) || Mentions(last, p))
      && (ReceivedBy(run, |run|, p) <==> ReceivedBy(init, |init|, p) || Trim(last.id) == p)
      && (MissedAt(run, |init|, p) <==> Mentions(last, p) && !ReceivedBy(run, |run|, p))
  {
    hide Mentions, Trim;
    var run := init + [last];
    assert run[|init|] == last;
    assert forall j :: 0 <= j < |init| ==> run[j] == init[j];
    if ReceivedBy(init, |init|, p) {
      var j :| 0 <= j < |init| && Trim(init[j].id) == p;
      assert Trim(run[j].id) == p;
    }
    if Mentioned(init, p) {
      var i :| 0 <= i < |init| && Mentions(init[i], p);
      assert Mentions(run[i], p);
    }
  }

  lemma MissedSnoc(init: seq<ChatMessage>, last: ChatMessage, p: string)
    ensures EverMissed(init + [last], p) <==> EverMissed(init, p) || MissedAt(init + [last], |init|, p)
  {
    hide Mentions, Trim;
    var run := init + [last];
    forall i | 0 <= i < |init| ensures MissedAt(run, i, p) <==> MissedAt(init, i, p) {
      assert forall j :: 0 <= j < i + 1 ==> init[j] == run[j];
    }
    if EverMissed(init, p) {
      var i :| MissedAt(init, i, p);
      assert MissedAt(run, i, p);
    }
  }

  /** What never arrived was missed as soon as it was mentioned. */
  lemma MissedIfMentioned(run: seq<ChatMessage>, p: string)
    requires !ReceivedBy(run, |run|, p)
    ensures EverMissed(run, p) <==> Mentioned(run, p)
  {
    hide Mentions, Trim;
    if Mentioned(run, p) {
      var i :| 0 <= i < |run| && Mentions(run[i], p);
      assert MissedAt(run, i, p);
    }
  }

  /** An id becomes missing at the first step that mentions it, if it has not arrived. */
  lemma NewlyMissed(init: seq<ChatMessage>, last: ChatMessage, p: string)
    requires ChatRun(init + [last])
    ensures ChatRun(init)
    ensures p in Pending(init + [last]) - Pending(init) <==> MissedAt(init + [last], |init|, p) && !EverMissed(init, p)
  {
    var run := init + [last];
    PrefixRun(run, |init|);
    assert run[..|init|] == init;
    hide *;
    PendingExactly(run, p);
    PendingExactly(init, p);
    Snocs(init, last, p);
    if !ReceivedBy(run, |run|, p) {
      MissedIfMentioned(init, p);
    }
  }

  lemma AskedSnoc(col: Collation, init: seq<ChatMessage>, last: ChatMessage)
    requires StrictTotal(col) && ChatRun(init + [last])
    ensures var news := Upsert(col, Session(col, init), last).newlyMissing;
      && Asked(col, init + [last]) == Asked(col, init) + news && Distinct(news)
      && forall p :: p in news <==> MissedAt(init + [last], |init|, p) && !EverMissed(init, p)
  {
    hide Session, Upsert, Pending, ChatRun, MissedAt, EverMissed;
    assert (init + [last])[..|init + [last]| - 1] == init;
    var news := Upsert(col, Session(col, init), last).newlyMissing;
    NewlyMissingIs(col, init, last);
    forall p ensures p in news <==> MissedAt(init + [last], |init|, p) && !EverMissed(init, p) {
      assert p in news <==> p in Elems(news);
      NewlyMissed(init, last, p);
    }
  }

  /** An id is asked for exactly when some message mentions it before it has been received. */
  lemma {:induction false} AskedExactly(col: Collation, run: seq<ChatMessage>, p: string)
    requires StrictTotal(col) && ChatRun(run)
    ensures p in Asked(col, run) <==> EverMissed(run, p)
  {
    if run != [] {
      var init, last := run[..|run| - 1], run[|run| - 1];
      PrefixRun(run, |run| - 1);
      hide *;
      assert init + [last] == run;
      AskedExactly(col, init, p);
      AskedSnoc(col, init, last);
      MissedSnoc(init, last, p);
    } else {
      assert forall i :: !MissedAt(run, i, p);
    }
  }

  /** No id is asked for twice. */
  lemma {:induction false} AskedOnce(col: Collation, run: seq<ChatMessage>)
    requires StrictTotal(col) && ChatRun(run)
    ensures Distinct(Asked(col, run))
  {
    if run == [] {
      assert Asked(col, run) == [];
    } else {
      hide *;
      var init, last := run[..|run| - 1], run[|run| - 1];
      PrefixRun(run, |run| - 1);
      assert init + [last] == run;
      AskedOnce(col, init);
      AskedSnoc(col, init, last);
      var news := Upsert(col, Session(col, init), last).newlyMissing;
      forall p | p in news ensures p !in Asked(col, init) {
        AskedExactly(col, init, p);
      }
      DistinctConcat(Asked(col, init), news);
    }
  }

  lemma DistinctConcat(a: seq<string>, b: seq<string>)
    requires Distinct(a) && Distinct(b) && forall p :: p in b ==> p !in a
    ensures Distinct(a + b)
  {
    forall i, j | 0 <= i < j < |a + b| ensures (a + b)[i] != (a + b)[j] {
      if j >= |a| {
        assert (a + b)[j] == b[j - |a|] && b[j - |a|] in b;
      }
    }
  }

  /** What has been asked for is what is still missing plus what has arrived since. */
  lemma AskedBalance(col: Collation, run: seq<ChatMessage>, p: string)
    requires StrictTotal(col) && ChatRun(run)
    ensures p in Pending(run) <==> p in Asked(col, run) && !ReceivedBy(run, |run|, p)
  {
    hide *;
    AskedExactly(col, run, p);
    PendingExactly(run, p);
    if !ReceivedBy(run, |run|, p) {
      MissedIfMentioned(run, p);
    }
  }

  /** A step asks only for parents named by the message it takes in. */
  lemma AsksForOwnParents(col: Collation, run: seq<ChatMessage>, next: ChatMessage, p: string)
    requires StrictTotal(col) && ChatRun(run + [next])
    requires p in Upsert(col, Session(col, run), next).newlyMissing
    ensures p in NormalizeIds(next.after)
  {
    AskedSnoc(col, run, next);
    Snocs(run, next, p);
  }

  /** A step asks for exactly the parents its message names that were neither received, by now, nor pending before. */
  lemma NewlyMissingExactly(col: Collation, run: seq<ChatMessage>, next: ChatMessage, p: string)
    requires StrictTotal(col) && ChatRun(run + [next])
    ensures p in Upsert(col, Session(col, run), next).newlyMissing
      <==> Mentions(next, p) && !ReceivedBy(run + [next], |run| + 1, p) && p !in Pending(run)
  {
    hide *;
    PrefixOf(run, next);
    NewlyMissingIs(col, run, next);
    ElemsIs(Upsert(col, Session(col, run), next).newlyMissing, p);
    PendingExactly(run + [next], p);
    PendingExactly(run, p);
    Snocs(run, next, p);
  }

  lemma PrefixOf(run: seq<ChatMessage>, next: ChatMessage)
    requires ChatRun(run + [next])
    ensures ChatRun(run)
  {
    PrefixRun(run + [next], |run|);
    assert (run + [next])[..|run|] == run;
    hide ChatRun;
  }

  lemma ElemsIs(s: seq<string>, p: string)
    ensures p in s <==> p in Elems(s)
  {
  }
}
