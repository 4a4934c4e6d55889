/** What a phone tells its desktop it holds, and what it sends again when the desktop says how far it got. */
module ChatResend {
  import opened Helpers
  import opened Orders
  import opened Ids
  import opened ChatGraph
  import opened ChatSession
  import CrdtVectors
  import ChatSend

  // ---------- describeSessionChatState ----------

  function OriginOf(m: ChatMessage): Origin {
    if m.origin == Some(FromMobile) then FromMobile else FromHost
  }

  predicate IsChat(m: ChatMessage) {
    m.kind != System && Trim(m.id) != ""
  }

  predicate Counts(m: ChatMessage, origin: Origin) {
    IsChat(m) && OriginOf(m) == origin && Counter(m.originSeq) > 0
  }

  /** The positive sequence numbers stored for an origin. */
  ghost function Held(messages: seq<ChatMessage>, origin: Origin): set<nat> {
    set m | m in messages && Counts(m, origin) :: Counter(m.originSeq)
  }

  function ChatNodes(messages: seq<ChatMessage>): seq<Node> {
    if messages == [] then [] else
    ChatNodes(messages[..|messages| - 1])
    + if IsChat(messages[|messages| - 1]) then [NodeOf(NormalizeChatMessage(messages[|messages| - 1]))] else []
  }

  method CollectHeld(messages: seq<ChatMessage>, origin: Origin) returns (seqs: seq<nat>)
    ensures Elems(seqs) == Held(messages, origin) && Distinct(seqs) && 0 !in seqs
  {
    seqs := [];
    for i := 0 to |messages|
      invariant Elems(seqs) == Held(messages[..i], origin) && Distinct(seqs) && 0 !in seqs
    {
      var m := messages[i];
      HeldOne(messages, i, origin);
      if Counts(m, origin) && Counter(m.originSeq) !in seqs {
        Snoc(seqs, Counter(m.originSeq));
        seqs := seqs + [Counter(m.originSeq)];
      } else {
        assert Counts(m, origin) ==> Counter(m.originSeq) in Elems(seqs);
      }
    }
    assert messages[..|messages|] == messages;
  }

  lemma HeldOne(messages: seq<ChatMessage>, i: nat, origin: Origin)
    requires i < |messages|
    ensures Held(messages[..i + 1], origin)
         == Held(messages[..i], origin) + if Counts(messages[i], origin) then {Counter(messages[i].originSeq)} else {}
  {
    assert messages[..i + 1] == messages[..i] + [messages[i]];
    hide Counts, Counter;
  }

  method DescribeSessionChatState(col: Collation, messages: seq<ChatMessage>) returns (hostSeq: nat, mobileSeq: nat, leafIds: seq<string>)
    requires StrictTotal(col)
    ensures hostSeq == CrdtVectors.Contiguous(Held(messages, FromHost)) && mobileSeq == CrdtVectors.Contiguous(Held(messages, FromMobile))
    ensures Keyed(LastById(ChatNodes(messages))) && leafIds == LeafIds(col, LastById(ChatNodes(messages)))
  {
    var host := CollectHeld(messages, FromHost);
    var mobile := CollectHeld(messages, FromMobile);
    hostSeq := CrdtVectors.CountRun(host);
    mobileSeq := CrdtVectors.CountRun(mobile);
    var analysis := AnalyzeOpenClawPairChatGraph(col, ChatNodes(messages));
    leafIds := analysis.leafIds;
  }

  // ---------- The resend of handleDesktopSyncState ----------

  predicate Unseen(m: ChatMessage, seen: nat) {
    m.kind != System && m.sender == Self && ChatSend.Trunc(m.originSeq) > seen
  }

  function Missing(messages: seq<ChatMessage>, seen: nat): seq<ChatMessage> {
    if messages == [] then [] else
    (if Unseen(messages[0], seen) then [messages[0]] else []) + Missing(messages[1..], seen)
  }

  predicate LowerSeq(a: ChatMessage, b: ChatMessage) {
    a.originSeq < b.originSeq
  }

  /** `mobileSeq` is what the desktop reported. */
  function Resend(messages: seq<ChatMessage>, mobileSeq: real): seq<ChatMessage> {
    Sort(LowerSeq, Missing(messages, Counter(mobileSeq)))
  }

  ghost function SeqsOf(messages: seq<ChatMessage>): set<nat> {
    set m | m in messages && ChatSend.Trunc(m.originSeq) > 0 :: ChatSend.Trunc(m.originSeq)
  }

  /** The phone's own numbers. */
  ghost function OwnSeqs(messages: seq<ChatMessage>): set<nat> {
    SeqsOf(Missing(messages, 0))
  }

  lemma {:induction false} MissingElems(messages: seq<ChatMessage>, seen: nat)
    ensures Elems(Missing(messages, seen)) == set m | m in messages && Unseen(m, seen)
    ensures Distinct(messages) ==> Distinct(Missing(messages, seen))
  {
    if messages != [] {
      var m, rest := messages[0], Missing(messages[1..], seen);
      MissingElems(messages[1..], seen);
      assert messages == [m] + messages[1..];
      assert forall x :: x in messages <==> x == m || x in messages[1..];
      assert forall x :: x in rest <==> x in Elems(rest);
      assert forall x :: x in Missing(messages, seen) <==> x in rest || (x == m && Unseen(m, seen));
      if Distinct(messages) && Unseen(m, seen) {
        Cons(messages);
        assert m !in rest;
        assert Missing(messages, seen) == [m] + rest;
      }
      hide Unseen;
    }
  }

  /** What is sent again: exactly the phone's own messages beyond the reported number. */
  lemma ResendExactly(messages: seq<ChatMessage>, mobileSeq: real, m: ChatMessage)
    ensures m in Resend(messages, mobileSeq) <==> m in messages && Unseen(m, Counter(mobileSeq))
  {
    MissingElems(messages, Counter(mobileSeq));
    SortElems(LowerSeq, Missing(messages, Counter(mobileSeq)));
    assert m in Resend(messages, mobileSeq) <==> m in Elems(Resend(messages, mobileSeq));
    assert m in Missing(messages, Counter(mobileSeq)) <==> m in Elems(Missing(messages, Counter(mobileSeq)));
    hide Unseen, Counter;
  }

  /** A desktop that holds the numbers `held` and reports its contiguous count is sent everything it lacks. */
  lemma ResendCompletes(messages: seq<ChatMessage>, held: set<nat>)
    ensures OwnSeqs(messages) <= held + SeqsOf(Resend(messages, CrdtVectors.Contiguous(held) as real))
  {
    var c := CrdtVectors.Contiguous(held);
    forall n | n in OwnSeqs(messages) ensures n in held + SeqsOf(Resend(messages, c as real)) {
      MissingElems(messages, 0);
      var m :| m in Missing(messages, 0) && ChatSend.Trunc(m.originSeq) == n;
      assert m in Elems(Missing(messages, 0));
      if n > c {
        ResendExactly(messages, c as real, m);
        assert Counter(c as real) == c;
      } else {
        assert 1 <= n <= c;
      }
    }
  }

  /** The phone numbered its own messages 1..n, once each, and has kept them all. */
  ghost predicate Numbered(messages: seq<ChatMessage>, n: nat) {
    && Distinct(messages)
    && (forall x: nat :: x in OwnSeqs(messages) <==> 1 <= x <= n)
    && (forall a, b :: a in messages && b in messages && Unseen(a, 0) && Unseen(b, 0) && ChatSend.Trunc(a.originSeq) == ChatSend.Trunc(b.originSeq) ==> a == b)
  }

  lemma LowerSeqTotal(s: set<ChatMessage>)
    requires forall a, b :: a in s && b in s && ChatSend.Trunc(a.originSeq) == ChatSend.Trunc(b.originSeq) ==> a == b
    ensures TotalOn(LowerSeq, s)
  {
    var lt: Less<ChatMessage> := LowerSeq;
    forall x, y, z ensures !lt(x, x) && (lt(x, y) && lt(y, z) ==> lt(x, z)) && (x in s && y in s && x != y ==> lt(x, y) || lt(y, x)) {
    }
  }

  lemma ResendSorted(messages: seq<ChatMessage>, n: nat, mobileSeq: real)
    requires Numbered(messages, n)
    ensures SortedBy(LowerSeq, Resend(messages, mobileSeq))
  {
    var list := Missing(messages, Counter(mobileSeq));
    MissingElems(messages, Counter(mobileSeq));
    forall a, b | a in Elems(list) && b in Elems(list) && ChatSend.Trunc(a.originSeq) == ChatSend.Trunc(b.originSeq) ensures a == b {
      assert Unseen(a, 0) && Unseen(b, 0);
    }
    LowerSeqTotal(Elems(list));
    SortSorted(LowerSeq, list);
  }

  /** An ascending list of whole numbers that lists exactly c+1..n has c+1+i at position i. */
  lemma {:induction false} ConsecutiveAt(q: seq<int>, c: nat, n: nat, i: nat)
    requires forall j, k :: 0 <= j < k < |q| ==> q[j] < q[k]
    requires forall x: int :: x in q <==> c < x <= n
    requires i < |q|
    ensures q[i] == c + 1 + i
  {
    if i > 0 { ConsecutiveAt(q, c, n, i - 1); }
    var want := c + 1 + i;
    assert q[i] in q;
    assert i > 0 ==> q[i - 1] < q[i];
    if want <= n {
      assert want in q;
      var j :| 0 <= j < |q| && q[j] == want;
      assert i <= j ==> q[i] <= q[j];
      assert j < i ==> q[j] <= q[i - 1];
    }
  }

  function Truncs(list: seq<ChatMessage>): seq<int> {
    seq(|list|, i requires 0 <= i < |list| => ChatSend.Trunc(list[i].originSeq))
  }

  lemma ResendTruncs(messages: seq<ChatMessage>, n: nat, c: nat)
    requires Numbered(messages, n)
    ensures var q := Truncs(Resend(messages, c as real));
      (forall j, k :: 0 <= j < k < |q| ==> q[j] < q[k]) && (forall x: int :: x in q <==> c < x <= n)
  {
    var list := Resend(messages, c as real);
    var q := Truncs(list);
    assert Counter(c as real) == c;
    ResendSorted(messages, n, c as real);
    forall j, k | 0 <= j < k < |q| ensures q[j] < q[k] {
      assert LowerSeq(list[j], list[k]);
      ResendExactly(messages, c as real, list[j]);
      ResendExactly(messages, c as real, list[k]);
      assert Unseen(list[j], 0) && Unseen(list[k], 0);
    }
    forall x: int ensures x in q <==> c < x <= n { ResendLists(messages, n, c, x); }
  }

  lemma ResendLists(messages: seq<ChatMessage>, n: nat, c: nat, x: int)
    requires Numbered(messages, n)
    ensures x in Truncs(Resend(messages, c as real)) <==> c < x <= n
  {
    var list := Resend(messages, c as real);
    assert Counter(c as real) == c;
    MissingElems(messages, 0);
    if x in Truncs(list) {
      var i :| 0 <= i < |list| && Truncs(list)[i] == x;
      ResendExactly(messages, c as real, list[i]);
      assert list[i] in Elems(Missing(messages, 0));
      assert x in OwnSeqs(messages);
    }
    if c < x <= n {
      assert x in OwnSeqs(messages);
      var m :| m in Missing(messages, 0) && ChatSend.Trunc(m.originSeq) == x;
      assert m in Elems(Missing(messages, 0));
      ResendExactly(messages, c as real, m);
      var i :| 0 <= i < |list| && list[i] == m;
      assert Truncs(list)[i] == x;
    }
  }

  /** If the first k of the resent messages arrive, the desktop's contiguous count rises by at least k. */
  lemma PartialResendAdvances(messages: seq<ChatMessage>, n: nat, held: set<nat>, k: nat)
    requires Numbered(messages, n)
    requires var c := CrdtVectors.Contiguous(held); k <= |Resend(messages, c as real)|
    ensures var c := CrdtVectors.Contiguous(held);
      CrdtVectors.Contiguous(held + SeqsOf(Resend(messages, c as real)[..k])) >= c + k
  {
    var c := CrdtVectors.Contiguous(held);
    var list := Resend(messages, c as real);
    var after := held + SeqsOf(list[..k]);
    ResendTruncs(messages, n, c);
    forall x: nat | 1 <= x <= c + k ensures x in after {
      if x > c {
        ConsecutiveAt(Truncs(list), c, n, x - c - 1);
        assert list[x - c - 1] in list[..k];
      }
    }
    assert CrdtVectors.IsContiguous(after, CrdtVectors.Contiguous(after));
    var d := CrdtVectors.Contiguous(after);
    assert d + 1 !in after;
  }

  ghost function NumbersOf(messages: set<ChatMessage>): set<nat> {
    set m | m in messages && ChatSend.Trunc(m.originSeq) > 0 :: ChatSend.Trunc(m.originSeq)
  }

  /** A failed delivery is skipped and the resend goes on, so any part of it may arrive. The desktop's contiguous count
      then reaches at least one below the first number that failed, and exactly that unless it held this number already. */
  lemma AnyResendAdvances(messages: seq<ChatMessage>, n: nat, held: set<nat>, arrived: set<ChatMessage>, f: nat)
    requires Numbered(messages, n) && 1 <= f <= n + 1
    requires var list := Resend(messages, CrdtVectors.Contiguous(held) as real);
      (forall m <- arrived :: m in list) && (forall m <- list :: m in arrived || f <= ChatSend.Trunc(m.originSeq))
    ensures var after := held + NumbersOf(arrived);
      CrdtVectors.Contiguous(after) + 1 >= f && (f !in after ==> CrdtVectors.Contiguous(after) + 1 == f)
  {
    var c := CrdtVectors.Contiguous(held);
    var list := Resend(messages, c as real);
    var after := held + NumbersOf(arrived);
    forall x: nat | 1 <= x < f ensures x in after {
      if x > c {
        ResendLists(messages, n, c, x);
        var i :| 0 <= i < |list| && Truncs(list)[i] == x;
        assert list[i] in list;
      }
    }
    assert CrdtVectors.IsContiguous(after, CrdtVectors.Contiguous(after));
    var d := CrdtVectors.Contiguous(after);
    assert d + 1 !in after;
    assert d >= f ==> f in after;
  }
}
