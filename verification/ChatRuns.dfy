/** Runs of upsertSessionMessage: confluence, causality of the stored session, and asking once. */
module ChatRuns {
  import opened Orders
  import opened Ids
  import opened ChatGraph
  import opened ChatSession
  import opened ChatSort

  // ---------- upsertSessionMessage ----------

  function Without(messages: seq<ChatMessage>, id: string): seq<ChatMessage> {
    if messages == [] then [] else
      var r, m := Without(messages[..|messages| - 1], id), messages[|messages| - 1];
      if Trim(m.id) != id then r + [m] else r
  }

  function Except(ids: seq<string>, previous: set<string>): seq<string> {
    if ids == [] then [] else
      Except(ids[..|ids| - 1], previous) + (if ids[|ids| - 1] in previous then [] else [ids[|ids| - 1]])
  }

  datatype Upserted = Upserted(result: Reconciled, inserted: bool, newlyMissing: seq<string>)

  ghost function Upsert(col: Collation, current: seq<ChatMessage>, next: ChatMessage): Upserted
    requires StrictTotal(col)
  {
    var incoming := NormalizeChatMessage(next);
    var result := Reconcile(col, Without(current, incoming.id) + [incoming]);
    Upserted(result,
             !exists m :: m in current && Trim(m.id) == incoming.id,
             Except(result.missingMessageIds, Elems(Reconcile(col, current).missingMessageIds)))
  }

  method UpsertSessionMessage(col: Collation, current: seq<ChatMessage>, next: ChatMessage) returns (u: Upserted)
    requires StrictTotal(col)
    ensures u == Upsert(col, current, next)
  {
    var incoming := NormalizeChatMessage(next);
    var previous := ReconcileSessionMessages(col, current);
    var nextMessages := Without(current, incoming.id) + [incoming];
    var reconciled := ReconcileSessionMessages(col, nextMessages);
    u := Upserted(reconciled,
                  !exists m :: m in current && Trim(m.id) == incoming.id,
                  Except(reconciled.missingMessageIds, Elems(previous.missingMessageIds)));
  }

  /** The stored session after a run of upserts. */
  ghost function Session(col: Collation, run: seq<ChatMessage>): seq<ChatMessage>
    requires StrictTotal(col)
  {
    if run == [] then [] else
      Upsert(col, Session(col, run[..|run| - 1]), run[|run| - 1]).result.messages
  }

  // ---------- The tables behind a session ----------

  /** What one upsert does to the table of one kind: the id leaves both tables and enters its own. */
  function Step(table: MessageMap, next: ChatMessage, kind: Kind): MessageMap {
    var id := Trim(next.id);
    if id == "" then table
    else if next.kind == kind then table[id := Strip(next)]
    else table - {id}
  }

  function Table(run: seq<ChatMessage>, kind: Kind): MessageMap {
    if run == [] then map[] else Step(Table(run[..|run| - 1], kind), run[|run| - 1], kind)
  }

  lemma {:induction false} WithoutLatest(messages: seq<ChatMessage>, id: string, kind: Kind)
    ensures Latest(Without(messages, id), kind) == Latest(messages, kind) - {id}
  {
    if messages != [] {
      var init, last := messages[..|messages| - 1], messages[|messages| - 1];
      WithoutLatest(init, id, kind);
      LatestNamed(init, kind);
      var w := Without(init, id);
      assert (w + [last])[..|w + [last]| - 1] == w;
      RecordDrops(Latest(init, kind), last, id, kind);
      hide Strip, Trim, Record;
    }
  }

  lemma RecordDrops(table: MessageMap, m: ChatMessage, id: string, kind: Kind)
    requires "" !in table
    ensures Record(table, m, kind) - {id} == if Trim(m.id) == id then table - {id} else Record(table - {id}, m, kind)
  {
    hide Strip, Trim;
  }

  lemma LatestNamed(messages: seq<ChatMessage>, kind: Kind)
    ensures "" !in Latest(messages, kind)
  {
    LatestKeyed(messages, kind);
    assert forall k :: k in Latest(messages, kind) ==> NamedMessage(Latest(messages, kind)[k], k);
  }

  lemma UpsertStep(current: seq<ChatMessage>, next: ChatMessage, kind: Kind)
    ensures var incoming := NormalizeChatMessage(next);
      Latest(Without(current, incoming.id) + [incoming], kind) == Step(Latest(current, kind), next, kind)
  {
    var incoming := NormalizeChatMessage(next);
    assert incoming.kind == next.kind;
    NormalThenStrip(next);
    hide NormalizeChatMessage, Strip, Trim;
    var w := Without(current, incoming.id);
    WithoutLatest(current, incoming.id, kind);
    LatestNamed(current, kind);
    assert (w + [incoming])[..|w + [incoming]| - 1] == w;
  }

  lemma NormalThenStrip(m: ChatMessage)
    ensures Strip(NormalizeChatMessage(m)) == Strip(m)
    ensures Trim(NormalizeChatMessage(m).id) == NormalizeChatMessage(m).id == Trim(m.id)
  {
    StripIdempotent(m);
    NormalizeIdsIdempotent(m.missingAfter);
    TrimIdempotent(m.id);
  }

  /** However the sort comes out, the stored session carries the run's tables. */
  lemma {:induction false} SessionTables(col: Collation, run: seq<ChatMessage>, kind: Kind)
    requires StrictTotal(col)
    ensures Latest(Session(col, run), kind) == Table(run, kind)
  {
    if run != [] {
      hide Strip, Trim, Reconcile, Latest, Step;
      var init, last := run[..|run| - 1], run[|run| - 1];
      SessionTables(col, init, kind);
      var current, incoming := Session(col, init), NormalizeChatMessage(last);
      UpsertStep(current, last, kind);
      ReconcileKeepsTables(col, Without(current, incoming.id) + [incoming]);
    } else {
      assert Latest([], kind) == map[];
    }
  }

  // ---------- Confluence ----------

  lemma StrippedNamed(m: ChatMessage)
    ensures Trim(m.id) != "" ==> NamedMessage(Strip(m), Trim(m.id))
    ensures Strip(m).kind == m.kind
  {
    StripIdempotent(m);
  }

  lemma {:induction false} TableKeyed(run: seq<ChatMessage>, kind: Kind)
    ensures WellKeyed(Table(run, kind), kind)
  {
    if run != [] {
      hide Strip, Trim, NamedMessage;
      TableKeyed(run[..|run| - 1], kind);
      StrippedNamed(run[|run| - 1]);
    }
  }

  lemma {:induction false} TablesApart(run: seq<ChatMessage>)
    ensures Table(run, Chat).Keys !! Table(run, System).Keys
  {
    if run != [] {
      hide Strip, Trim;
      TablesApart(run[..|run| - 1]);
    }
  }

  lemma TablesFine(run: seq<ChatMessage>)
    ensures Tables(Table(run, Chat), Table(run, System))
  {
    TableKeyed(run, Chat);
    TableKeyed(run, System);
    TablesApart(run);
  }

  ghost predicate RunSettled(col: Collation, run: seq<ChatMessage>)
    requires StrictTotal(col)
  {
    TableKeyed(run, Chat);
    Settled(col, Table(run, Chat), Table(run, System))
  }

  /** What an upsert reports depends on the tables only. */
  lemma UpsertViews(col: Collation, run: seq<ChatMessage>, next: ChatMessage)
    requires StrictTotal(col)
    ensures WellKeyed(Table(run + [next], Chat), Chat) && Keyed(NodesOf(Table(run + [next], Chat)))
    ensures var r, nodes := Upsert(col, Session(col, run), next).result, NodesOf(Table(run + [next], Chat));
      r.leafIds == LeafIds(col, nodes) && r.missingMessageIds == MissingIds(nodes)
  {
    hide OrderedIds, LeafIds, MissingIds, Latest, TableIds, Sort, ChatList, Listed, Session, Step, Without;
    TableKeyed(run + [next], Chat);
    NodesKeyed(Table(run + [next], Chat));
    TableSnoc(run, next, Chat);
    SessionTables(col, run, Chat);
    UpsertStep(Session(col, run), next, Chat);
  }

  lemma TableSnoc(run: seq<ChatMessage>, next: ChatMessage, kind: Kind)
    ensures Table(run + [next], kind) == Step(Table(run, kind), next, kind)
  {
    assert (run + [next])[..|run + [next]| - 1] == run;
  }

  /** A settled run stores the sorted listing of its tables. */
  lemma SessionSettles(col: Collation, run: seq<ChatMessage>)
    requires StrictTotal(col) && RunSettled(col, run)
    ensures WellKeyed(Table(run, Chat), Chat)
    ensures TotalOn(Before(col, SessionRank(col, Table(run, Chat))), SessionSet(col, Table(run, Chat), Table(run, System)))
    ensures Session(col, run) == SettledList(col, Table(run, Chat), Table(run, System))
  {
    TablesFine(run);
    if run == [] {
      EmptySettles(col);
    } else {
      var init, next := run[..|run| - 1], run[|run| - 1];
      var current, incoming := Session(col, init), NormalizeChatMessage(next);
      var list := Without(current, incoming.id) + [incoming];
      assert Latest(list, Chat) == Table(run, Chat) && Latest(list, System) == Table(run, System) by {
        SessionTables(col, init, Chat);
        SessionTables(col, init, System);
        UpsertStep(current, next, Chat);
        UpsertStep(current, next, System);
      }
      assert Session(col, run) == Reconcile(col, list).messages;
      hide Reconcile, Latest, Table, Session, Settled, SettledList, Before, SessionRank, SessionSet, Without;
      ReconcileSettles(col, list);
    }
  }

  lemma EmptySettles(col: Collation)
    requires StrictTotal(col)
    ensures WellKeyed(map[], Chat)
    ensures SessionSet(col, map[], map[]) == {}
    ensures TotalOn(Before(col, SessionRank(col, map[])), {})
  {
    ChatListFacts(col, map[]);
  }

  /** Two settled runs store the same session exactly when they leave the same tables. */
  lemma ConfluenceExactly(col: Collation, a: seq<ChatMessage>, b: seq<ChatMessage>)
    requires StrictTotal(col) && RunSettled(col, a) && RunSettled(col, b)
    ensures Session(col, a) == Session(col, b) <==>
      Table(a, Chat) == Table(b, Chat) && Table(a, System) == Table(b, System)
  {
    hide Session, Table, SettledList, RunSettled;
    SessionSettles(col, a);
    SessionSettles(col, b);
    SessionTables(col, a, Chat);
    SessionTables(col, b, Chat);
    SessionTables(col, a, System);
    SessionTables(col, b, System);
  }

  /** Equal ids mean equal messages, up to the derived list of missing parents. */
  ghost predicate ImmutableRun(ms: set<ChatMessage>) {
    forall a, b :: a in ms && b in ms && Trim(a.id) == Trim(b.id) && Trim(a.id) != "" ==> Strip(a) == Strip(b)
  }

  lemma {:induction false} TableHolder(run: seq<ChatMessage>, kind: Kind, k: string) returns (i: nat)
    requires k in Table(run, kind)
    ensures i < |run| && k != "" && run[i].kind == kind && Trim(run[i].id) == k && Table(run, kind)[k] == Strip(run[i])
  {
    hide Strip, Trim;
    var n := |run| - 1;
    if k != "" && run[n].kind == kind && Trim(run[n].id) == k {
      i := n;
    } else {
      i := TableHolder(run[..n], kind, k);
    }
  }

  /** An immutable message, once received, stays. */
  lemma {:induction false} TableHas(run: seq<ChatMessage>, kind: Kind, i: nat)
    requires ImmutableRun(Elems(run)) && i < |run| && run[i].kind == kind && Trim(run[i].id) != ""
    ensures Trim(run[i].id) in Table(run, kind)
  {
    var n := |run| - 1;
    assert run[n] in Elems(run) && run[i] in Elems(run);
    if i < n {
      assert Elems(run[..n]) <= Elems(run);
      TableHas(run[..n], kind, i);
      if Trim(run[n].id) == Trim(run[i].id) {
        SameStripSameKind(run[n], run[i]);
      }
    }
  }

  lemma SameStripSameKind(a: ChatMessage, b: ChatMessage)
    requires Strip(a) == Strip(b)
    ensures a.kind == b.kind
  {
  }

  /** Delivery order and repetitions do not matter. */
  lemma PermutedRunsAgree(a: seq<ChatMessage>, b: seq<ChatMessage>, kind: Kind)
    requires Elems(a) == Elems(b) && ImmutableRun(Elems(a))
    ensures Table(a, kind) == Table(b, kind)
  {
    forall k | k in Table(a, kind) ensures k in Table(b, kind) && Table(b, kind)[k] == Table(a, kind)[k] {
      RunInclusion(a, b, kind, k);
    }
    forall k | k in Table(b, kind) ensures k in Table(a, kind) {
      RunInclusion(b, a, kind, k);
    }
  }

  lemma RunInclusion(a: seq<ChatMessage>, b: seq<ChatMessage>, kind: Kind, k: string)
    requires Elems(a) == Elems(b) && ImmutableRun(Elems(a)) && k in Table(a, kind)
    ensures k in Table(b, kind) && Table(b, kind)[k] == Table(a, kind)[k]
  {
    hide Strip, Trim, Table;
    var i := TableHolder(a, kind, k);
    assert a[i] in Elems(b);
    var j :| 0 <= j < |b| && b[j] == a[i];
    TableHas(b, kind, j);
    var h := TableHolder(b, kind, k);
    assert b[h] in Elems(a);
  }
}
