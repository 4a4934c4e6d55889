/** Signal delivery: an event goes to the channels that have room for it, or else to the tail of the target's queue. */
module Signals {
  import opened Helpers
  import opened PairingState

  const CAPACITY := 64
  const MAX_PULL := 500

  /** Channels are named by numbers; `channels` holds what each has buffered and not yet handed to its reader. */
  datatype Hub = Hub(queues: map<string, seq<Event>>, subscribers: map<string, set<nat>>, channels: map<nat, seq<Event>>)

  const QUIET := Hub(map[], map[], map[])

  function QueueOf(h: Hub, key: string): seq<Event> {
    if key in h.queues then h.queues[key] else []
  }

  function Subscribed(h: Hub, key: string): set<nat> {
    if key in h.subscribers then h.subscribers[key] else {}
  }

  predicate HasRoom(h: Hub, ch: nat) {
    ch in h.channels && |h.channels[ch]| < CAPACITY
  }

  /** The channels a send to `key` reaches. */
  function Reached(h: Hub, key: string): set<nat> {
    set ch | ch in Subscribed(h, key) && HasRoom(h, ch)
  }

  function Deliver(h: Hub, key: string, e: Event): Hub {
    h.(channels := map ch | ch in h.channels :: if ch in Reached(h, key) then h.channels[ch] + [e] else h.channels[ch])
  }

  function Enqueue(h: Hub, key: string, e: Event): Hub {
    h.(queues := h.queues[key := QueueOf(h, key) + [e]])
  }

  function Send(h: Hub, key: string, e: Event): Hub {
    if Reached(h, key) != {} then Deliver(h, key, e) else Enqueue(h, key, e)
  }

  function Taken(h: Hub, key: string, limit: int): nat {
    var n := ClampInt(limit, 1, MAX_PULL);
    if n < |QueueOf(h, key)| then n else |QueueOf(h, key)|
  }

  function Pull(h: Hub, key: string, limit: int): (Hub, seq<Event>) {
    var q, n := QueueOf(h, key), Taken(h, key, limit);
    if |q| == 0 then (h, [])
    else (h.(queues := if n >= |q| then h.queues - {key} else h.queues[key := q[n..]]), q[..n])
  }

  function Subscribe(h: Hub, key: string, ch: nat): Hub {
    h.(subscribers := h.subscribers[key := Subscribed(h, key) + {ch}], channels := h.channels[ch := []])
  }

  function Unsubscribe(h: Hub, key: string, ch: nat): Hub {
    if key !in h.subscribers then h else
    var left := h.subscribers[key] - {ch};
    h.(subscribers := if left == {} then h.subscribers - {key} else h.subscribers[key := left])
  }

  /** The reader of a channel takes its oldest event, if any. */
  function Receive(h: Hub, ch: nat): (Hub, seq<Event>) {
    if ch !in h.channels || h.channels[ch] == [] then (h, [])
    else (h.(channels := h.channels[ch := h.channels[ch][1..]]), h.channels[ch][..1])
  }

  /** A prune drops the queues of removed entities. */
  function DropQueues(h: Hub, keys: set<string>): Hub {
    h.(queues := h.queues - keys)
  }

  // ---------- Runs ----------

  datatype Step =
    | StepSend(key: string, event: Event)
    | StepPull(key: string, limit: int)
    | StepSubscribe(key: string, ch: nat)
    | StepUnsubscribe(key: string, ch: nat)
    | StepReceive(ch: nat)
    | StepDrop(keys: set<string>)

  function Next(h: Hub, x: Step): Hub {
    match x
    case StepSend(key, e) => Send(h, key, e)
    case StepPull(key, limit) => Pull(h, key, limit).0
    case StepSubscribe(key, ch) => Subscribe(h, key, ch)
    case StepUnsubscribe(key, ch) => Unsubscribe(h, key, ch)
    case StepReceive(ch) => Receive(h, ch).0
    case StepDrop(keys) => DropQueues(h, keys)
  }

  function Run(steps: seq<Step>): Hub {
    if steps == [] then QUIET else Next(Run(steps[..|steps| - 1]), steps[|steps| - 1])
  }

  /** Every subscription opens a channel that was not open before. */
  ghost predicate ValidRun(steps: seq<Step>) {
    steps != [] ==>
      && ValidRun(steps[..|steps| - 1])
      && (steps[|steps| - 1].StepSubscribe? ==> steps[|steps| - 1].ch !in Run(steps[..|steps| - 1]).channels)
  }

  // What one step does for one key or one channel.

  function SentBy(x: Step, key: string): seq<Event> {
    if x.StepSend? && x.key == key then [x.event] else []
  }

  /** What a sequence gained at its end. */
  function Growth(was: seq<Event>, now: seq<Event>): seq<Event> {
    if |now| > |was| then now[|was|..] else []
  }

  /** What the step added to a channel. */
  function LandedBy(h: Hub, x: Step, ch: nat): seq<Event> {
    if ch in h.channels && ch in Next(h, x).channels then Growth(h.channels[ch], Next(h, x).channels[ch]) else []
  }

  /** What the step added to a queue. */
  function QueuedBy(h: Hub, x: Step, key: string): seq<Event> {
    Growth(QueueOf(h, key), QueueOf(Next(h, x), key))
  }

  /** Some channel of the key grew. */
  ghost predicate Lands(h: Hub, x: Step, key: string) {
    exists ch :: ch in Subscribed(h, key) && LandedBy(h, x, ch) != []
  }

  /** The event of a send that made a channel of its key grow. */
  ghost function DeliveredBy(h: Hub, x: Step, key: string): seq<Event> {
    if Lands(h, x, key) then SentBy(x, key) else []
  }

  /** Events handed out by a pull, or lost to a prune with the rest of their queue. */
  function GoneBy(h: Hub, x: Step, key: string): seq<Event> {
    if x.StepPull? && x.key == key then Pull(h, key, x.limit).1 else if x.StepDrop? && key in x.keys then QueueOf(h, key) else []
  }

  function ReceivedBy(h: Hub, x: Step, ch: nat): seq<Event> {
    if x.StepReceive? && x.ch == ch then Receive(h, ch).1 else []
  }

  // And what a whole run does, oldest first.

  function Sent(steps: seq<Step>, key: string): seq<Event> {
    if steps == [] then [] else Sent(steps[..|steps| - 1], key) + SentBy(steps[|steps| - 1], key)
  }

  ghost function Delivered(steps: seq<Step>, key: string): seq<Event> {
    if steps == [] then [] else
    Delivered(steps[..|steps| - 1], key) + DeliveredBy(Run(steps[..|steps| - 1]), steps[|steps| - 1], key)
  }

  function Queued(steps: seq<Step>, key: string): seq<Event> {
    if steps == [] then [] else
    Queued(steps[..|steps| - 1], key) + QueuedBy(Run(steps[..|steps| - 1]), steps[|steps| - 1], key)
  }

  function Gone(steps: seq<Step>, key: string): seq<Event> {
    if steps == [] then [] else
    Gone(steps[..|steps| - 1], key) + GoneBy(Run(steps[..|steps| - 1]), steps[|steps| - 1], key)
  }

  function Landed(steps: seq<Step>, ch: nat): seq<Event> {
    if steps == [] then [] else
    Landed(steps[..|steps| - 1], ch) + LandedBy(Run(steps[..|steps| - 1]), steps[|steps| - 1], ch)
  }

  function Received(steps: seq<Step>, ch: nat): seq<Event> {
    if steps == [] then [] else
    Received(steps[..|steps| - 1], ch) + ReceivedBy(Run(steps[..|steps| - 1]), steps[|steps| - 1], ch)
  }

  // ---------- Conservation ----------

  /** What a step adds to queues and channels: a send adds its event, to the reached channels if there are any and
      otherwise to its queue; no other step adds anything. */
  lemma GrowthIs(h: Hub, x: Step, key: string, ch: nat)
    ensures QueuedBy(h, x, key) == if x.StepSend? && x.key == key && Reached(h, key) == {} then [x.event] else []
    ensures LandedBy(h, x, ch) == if x.StepSend? && ch in Reached(h, x.key) then [x.event] else []
  {
    match x
    case StepSend(k, e) =>
      SendGrows(h, k, e, key, ch);
    case StepPull(k, limit) =>
      if k == key && QueueOf(h, key) != [] { PullSplits(h, key, limit); }
      hide Reached;
    case _ => hide Reached;
  }

  lemma SendGrows(h: Hub, k: string, e: Event, key: string, ch: nat)
    ensures QueueOf(Send(h, k, e), key) == QueueOf(h, key) + if k == key && Reached(h, k) == {} then [e] else []
    ensures ch in h.channels ==> ch in Send(h, k, e).channels
    ensures ch in h.channels ==> Send(h, k, e).channels[ch] == h.channels[ch] + if ch in Reached(h, k) then [e] else []
    ensures ch !in h.channels ==> ch !in Reached(h, k)
  {
  }

  /** One step moves a queue only at its ends: what it takes off the front plus what is left is what was there plus what it adds. */
  lemma QueueStep(h: Hub, x: Step, key: string)
    ensures GoneBy(h, x, key) + QueueOf(Next(h, x), key) == QueueOf(h, key) + QueuedBy(h, x, key)
  {
    GrowthIs(h, x, key, 0);
    hide QueuedBy, LandedBy;
    match x
    case StepSend(k, e) => SendGrows(h, k, e, key, 0); hide Reached;
    case StepPull(k, limit) => if k == key && QueueOf(h, key) != [] { PullSplits(h, key, limit); } hide Reached;
    case _ => hide Reached;
  }

  lemma PullSplits(h: Hub, key: string, limit: int)
    requires QueueOf(h, key) != []
    ensures Pull(h, key, limit).1 + QueueOf(Pull(h, key, limit).0, key) == QueueOf(h, key)
    ensures |Pull(h, key, limit).1| == Taken(h, key, limit) > 0
  {
  }

  /** In every run and for every key: what was queued is, in order, what has gone followed by what is still there. */
  lemma {:induction false} QueueConservation(steps: seq<Step>, key: string)
    ensures Gone(steps, key) + QueueOf(Run(steps), key) == Queued(steps, key)
  {
    if steps != [] {
      var before, x := steps[..|steps| - 1], steps[|steps| - 1];
      QueueConservation(before, key);
      QueueStep(Run(before), x, key);
      hide Next, QueuedBy, GoneBy, QueueOf;
      Regroup(Gone(before, key), GoneBy(Run(before), x, key), QueueOf(Run(steps), key), QueueOf(Run(before), key), QueuedBy(Run(before), x, key));
    }
  }

  lemma Regroup(gone: seq<Event>, out: seq<Event>, left: seq<Event>, was: seq<Event>, more: seq<Event>)
    requires out + left == was + more
    ensures (gone + out) + left == (gone + was) + more
  {
    assert (gone + out) + left == gone + (out + left);
  }

  lemma ChannelStep(h: Hub, x: Step, ch: nat)
    requires ch in h.channels && !(x.StepSubscribe? && x.ch == ch)
    ensures ch in Next(h, x).channels
    ensures ReceivedBy(h, x, ch) + Next(h, x).channels[ch] == h.channels[ch] + LandedBy(h, x, ch)
  {
    GrowthIs(h, x, "", ch);
    hide QueuedBy, LandedBy;
    if x.StepSend? { SendGrows(h, x.key, x.event, "", ch); }
    hide Reached;
  }

  lemma NoChannelStep(h: Hub, x: Step, ch: nat)
    requires ch !in h.channels
    ensures ReceivedBy(h, x, ch) == [] == LandedBy(h, x, ch)
    ensures ch in Next(h, x).channels ==> Next(h, x).channels[ch] == []
  {
  }

  /** In every run and for every channel: what was put in is, in order, what was received followed by what is still buffered. */
  lemma {:induction false} ChannelConservation(steps: seq<Step>, ch: nat)
    requires ValidRun(steps)
    ensures var h := Run(steps);
      if ch in h.channels then Received(steps, ch) + h.channels[ch] == Landed(steps, ch)
      else Received(steps, ch) == [] == Landed(steps, ch)
  {
    if steps != [] {
      var before, x := steps[..|steps| - 1], steps[|steps| - 1];
      var h := Run(before);
      ChannelConservation(before, ch);
      if ch in h.channels {
        ChannelStep(h, x, ch);
        hide Next, LandedBy, ReceivedBy;
        Regroup(Received(before, ch), ReceivedBy(h, x, ch), Run(steps).channels[ch], h.channels[ch], LandedBy(h, x, ch));
      } else {
        NoChannelStep(h, x, ch);
        hide Next, LandedBy, ReceivedBy;
      }
    }
  }

  /** `s` is `a` and `b` merged: every position of `s` belongs to exactly one of them, and both keep their order. */
  ghost predicate Merges(s: seq<Event>, a: seq<Event>, b: seq<Event>)
    decreases |s|
  {
    if s == [] then a == [] && b == [] else
    || (a != [] && a[|a| - 1] == s[|s| - 1] && Merges(s[..|s| - 1], a[..|a| - 1], b))
    || (b != [] && b[|b| - 1] == s[|s| - 1] && Merges(s[..|s| - 1], a, b[..|b| - 1]))
  }

  lemma MergeSnoc(s: seq<Event>, a: seq<Event>, b: seq<Event>, e: Event)
    requires Merges(s, a, b)
    ensures Merges(s + [e], a + [e], b) && Merges(s + [e], a, b + [e])
  {
    assert (s + [e])[..|s|] == s && (a + [e])[..|a|] == a && (b + [e])[..|b|] == b;
  }

  /** Every event sent to a key made a channel of the key grow or the key's queue grow, never both and never neither, and
      each kind keeps the order of sending. */
  lemma {:induction false} SendsPartition(steps: seq<Step>, key: string)
    ensures Merges(Sent(steps, key), Delivered(steps, key), Queued(steps, key))
  {
    if steps != [] {
      var before, x := steps[..|steps| - 1], steps[|steps| - 1];
      SendsPartition(before, key);
      hide *;
      StepPartition(Run(before), x, key);
      MergeStep(Sent(before, key), Delivered(before, key), Queued(before, key), SentBy(x, key), DeliveredBy(Run(before), x, key), QueuedBy(Run(before), x, key));
      RunLogs(steps, key);
    } else {
      hide Run;
    }
  }

  lemma RunLogs(steps: seq<Step>, key: string)
    requires steps != []
    ensures var before, x := steps[..|steps| - 1], steps[|steps| - 1];
      && Sent(steps, key) == Sent(before, key) + SentBy(x, key)
      && Delivered(steps, key) == Delivered(before, key) + DeliveredBy(Run(before), x, key)
      && Queued(steps, key) == Queued(before, key) + QueuedBy(Run(before), x, key)
  {
    hide SentBy, DeliveredBy, QueuedBy, Next;
  }

  lemma StepPartition(h: Hub, x: Step, key: string)
    ensures |SentBy(x, key)| <= 1
    ensures (DeliveredBy(h, x, key) == SentBy(x, key) && QueuedBy(h, x, key) == []) || (DeliveredBy(h, x, key) == [] && QueuedBy(h, x, key) == SentBy(x, key))
  {
    GrowthIs(h, x, key, 0);
    if x.StepSend? && x.key == key { LandsExactly(h, x, key); }
    hide QueuedBy, LandedBy, Lands, Reached;
  }

  /** A send makes a channel of its key grow exactly when it reaches one. */
  lemma LandsExactly(h: Hub, x: Step, key: string)
    requires x.StepSend? && x.key == key
    ensures Lands(h, x, key) <==> Reached(h, key) != {}
  {
    forall ch ensures LandedBy(h, x, ch) == if ch in Reached(h, key) then [x.event] else [] { GrowthIs(h, x, key, ch); }
    hide LandedBy, HasRoom;
    if Reached(h, key) != {} {
      var ch :| ch in Reached(h, key);
      assert LandedBy(h, x, ch) != [];
    }
  }

  lemma MergeStep(s: seq<Event>, a: seq<Event>, b: seq<Event>, more: seq<Event>, toA: seq<Event>, toB: seq<Event>)
    requires Merges(s, a, b) && |more| <= 1 && ((toA == more && toB == []) || (toA == [] && toB == more))
    ensures Merges(s + more, a + toA, b + toB)
  {
    if more == [] {
      assert s + more == s && a + toA == a && b + toB == b;
    } else {
      MergeSnoc(s, a, b, more[0]);
      assert more == [more[0]] && a + [] == a && b + [] == b;
      hide Merges;
    }
  }

  /** A delivered event is at the end of at least one channel of its key. */
  lemma DeliveredLands(h: Hub, key: string, e: Event)
    requires Reached(h, key) != {}
    ensures exists ch :: ch in Subscribed(h, key) && ch in h.channels && Send(h, key, e).channels[ch] == h.channels[ch] + [e]
    ensures forall k :: QueueOf(Send(h, key, e), k) == QueueOf(h, k)
  {
    var ch :| ch in Reached(h, key);
    assert Send(h, key, e).channels[ch] == h.channels[ch] + [e];
  }

  /** At step i this event is sent to the key, lands at the end of this channel of the key, and no queue changes. */
  ghost predicate LandsAt(steps: seq<Step>, i: nat, ch: nat, key: string, e: Event) {
    i < |steps| && steps[i] == StepSend(key, e) &&
    var h := Run(steps[..i]);
    && ch in Subscribed(h, key) && LandedBy(h, steps[i], ch) == [e]
    && forall k :: QueueOf(Next(h, steps[i]), k) == QueueOf(h, k)
  }

  lemma LandedNow(h: Hub, x: Step, key: string, e: Event) returns (ch: nat)
    requires e in DeliveredBy(h, x, key)
    ensures x == StepSend(key, e) && ch in Subscribed(h, key) && LandedBy(h, x, ch) == [e]
    ensures forall k :: QueueOf(Next(h, x), k) == QueueOf(h, k)
  {
    ch :| ch in Subscribed(h, key) && LandedBy(h, x, ch) != [];
    GrowthIs(h, x, key, ch);
    hide LandedBy, QueuedBy, Lands;
    DeliveredLands(h, key, e);
  }

  /** In every run each delivered event landed in a channel subscribed to its key at the time of sending, and that send
      left every queue as it was. */
  lemma {:induction false} DeliveredLanded(steps: seq<Step>, key: string, e: Event) returns (i: nat, ch: nat)
    requires e in Delivered(steps, key)
    ensures LandsAt(steps, i, ch, key, e)
  {
    i, ch := |steps| - 1, 0;
    var before := steps[..i];
    if e in Delivered(before, key) {
      hide LandedBy, DeliveredBy, Next;
      var n := i;
      i, ch := DeliveredLanded(before, key, e);
      assert before[..i] == steps[..i] && before[i] == steps[i];
    } else {
      ch := LandedNow(Run(before), steps[i], key, e);
      hide LandedBy, DeliveredBy, Next;
    }
  }

  /** The key a channel was opened for. */
  function KeyOf(steps: seq<Step>, ch: nat): Option<string> {
    if steps == [] then None else
    var x := steps[|steps| - 1];
    if x.StepSubscribe? && x.ch == ch then Some(x.key) else KeyOf(steps[..|steps| - 1], ch)
  }

  ghost predicate KeysKnown(steps: seq<Step>) {
    forall key, ch :: key in Run(steps).subscribers && ch in Run(steps).subscribers[key] ==> KeyOf(steps, ch) == Some(key)
  }

  lemma {:induction false} SubscribersKnown(steps: seq<Step>)
    requires ValidRun(steps)
    ensures KeysKnown(steps)
  {
    if steps != [] {
      var before, x := steps[..|steps| - 1], steps[|steps| - 1];
      SubscribersKnown(before);
      RunBounded(before);
      SubscribersStep(Run(before), x);
      hide Next;
      forall key, ch | key in Run(steps).subscribers && ch in Run(steps).subscribers[key] ensures KeyOf(steps, ch) == Some(key) {
        if key in Run(before).subscribers && ch in Run(before).subscribers[key] {
          assert KeyOf(before, ch) == Some(key) && ch in Run(before).channels;
        }
      }
    }
  }

  lemma SubscribersStep(h: Hub, x: Step)
    ensures forall key, ch :: key in Next(h, x).subscribers && ch in Next(h, x).subscribers[key] ==>
      (key in h.subscribers && ch in h.subscribers[key]) || x == StepSubscribe(key, ch)
  {
    hide Reached, Taken;
  }

  /** `a` is a subsequence of `s`. */
  ghost predicate Within(a: seq<Event>, s: seq<Event>) {
    exists rest :: Merges(s, a, rest)
  }

  lemma {:induction false} WithinNothing(s: seq<Event>)
    ensures Merges(s, [], s)
  {
    if s != [] { WithinNothing(s[..|s| - 1]); }
  }

  lemma WithinStep(a: seq<Event>, s: seq<Event>, toA: seq<Event>, more: seq<Event>)
    requires Within(a, s) && |more| <= 1 && (toA == more || toA == [])
    ensures Within(a + toA, s + more)
  {
    var rest :| Merges(s, a, rest);
    if toA == more {
      MergeStep(s, a, rest, more, more, []);
    } else {
      MergeStep(s, a, rest, more, [], more);
    }
    hide Merges;
  }

  /** In every run what landed in a channel is a subsequence of what was delivered to the key it was opened for. */
  lemma {:induction false} LandedWithin(steps: seq<Step>, ch: nat)
    requires ValidRun(steps)
    ensures match KeyOf(steps, ch)
      case Some(key) => Within(Landed(steps, ch), Delivered(steps, key))
      case None => Landed(steps, ch) == []
  {
    if steps != [] {
      var before, x := steps[..|steps| - 1], steps[|steps| - 1];
      var h := Run(before);
      LandedWithin(before, ch);
      assert ValidRun(before) && (x.StepSubscribe? && x.ch == ch ==> ch !in h.channels);
      assert KeyOf(steps, ch) == if x.StepSubscribe? && x.ch == ch then Some(x.key) else KeyOf(before, ch);
      assert Landed(steps, ch) == Landed(before, ch) + LandedBy(h, x, ch) by { hide Next, LandedBy; }
      hide *;
      if x.StepSubscribe? && x.ch == ch {
        OpenedNow(before, x);
        RunLogs(steps, x.key);
        StartsWithin(Delivered(steps, x.key));
      } else if KeyOf(before, ch).Some? {
        var key := KeyOf(before, ch).value;
        RunLogs(steps, key);
        LandingStep(before, x, ch, key);
        WithinStep(Landed(before, ch), Delivered(before, key), LandedBy(h, x, ch), DeliveredBy(h, x, key));
      } else {
        NoKeyNoLanding(before, x, ch);
      }
    } else {
      hide Run;
    }
  }

  lemma StartsWithin(s: seq<Event>)
    ensures Within([], s)
  {
    WithinNothing(s);
    hide Merges;
  }

  lemma OpenedNow(before: seq<Step>, x: Step)
    requires ValidRun(before) && x.StepSubscribe? && x.ch !in Run(before).channels
    ensures Landed(before, x.ch) == [] == LandedBy(Run(before), x, x.ch)
  {
    ChannelConservation(before, x.ch);
    hide Landed, Run, ValidRun, Next;
  }

  lemma LandingStep(before: seq<Step>, x: Step, ch: nat, key: string)
    requires ValidRun(before) && KeyOf(before, ch) == Some(key)
    ensures var h := Run(before);
      |DeliveredBy(h, x, key)| <= 1 && (LandedBy(h, x, ch) == DeliveredBy(h, x, key) || LandedBy(h, x, ch) == [])
  {
    hide *;
    StepPartition(Run(before), x, key);
    SentOnce(Run(before), x, key);
    if LandedBy(Run(before), x, ch) != [] {
      LandingDelivers(Run(before), x, ch);
      SubscribedKey(before, ch, x.key);
    }
  }

  lemma SentOnce(h: Hub, x: Step, key: string)
    ensures |DeliveredBy(h, x, key)| <= 1
  {
    hide Lands;
  }

  lemma SubscribedKey(steps: seq<Step>, ch: nat, key: string)
    requires ValidRun(steps) && ch in Subscribed(Run(steps), key)
    ensures KeyOf(steps, ch) == Some(key)
  {
    SubscribersKnown(steps);
    hide Run, KeyOf, ValidRun;
  }

  lemma NoKeyNoLanding(before: seq<Step>, x: Step, ch: nat)
    requires ValidRun(before) && KeyOf(before, ch) == None
    ensures LandedBy(Run(before), x, ch) == []
  {
    hide *;
    if LandedBy(Run(before), x, ch) != [] {
      LandingDelivers(Run(before), x, ch);
      SubscribedKey(before, ch, x.key);
    }
  }

  lemma LandingDelivers(h: Hub, x: Step, ch: nat)
    requires LandedBy(h, x, ch) != []
    ensures x.StepSend? && ch in Subscribed(h, x.key) && DeliveredBy(h, x, x.key) == [x.event] == LandedBy(h, x, ch)
  {
    GrowthIs(h, x, "", ch);
    hide LandedBy, QueuedBy;
  }

  /** No channel ever holds more than its capacity, and every subscriber's channel is open. */
  ghost predicate Bounded(h: Hub) {
    && (forall ch :: ch in h.channels ==> |h.channels[ch]| <= CAPACITY)
    && (forall key, ch :: key in h.subscribers && ch in h.subscribers[key] ==> ch in h.channels)
    && (forall key :: key in h.subscribers ==> h.subscribers[key] != {})
  }

  lemma NextBounded(h: Hub, x: Step)
    requires Bounded(h)
    ensures Bounded(Next(h, x))
  {
    match x
    case StepSend(key, e) => assert forall ch :: ch in Reached(h, key) ==> |h.channels[ch]| < CAPACITY; hide Reached;
    case _ =>
  }

  lemma {:induction false} RunBounded(steps: seq<Step>)
    ensures Bounded(Run(steps))
  {
    if steps != [] {
      RunBounded(steps[..|steps| - 1]);
      NextBounded(Run(steps[..|steps| - 1]), steps[|steps| - 1]);
      hide Bounded, Next;
    }
  }

  // ---------- Pulling until nothing is left ----------

  /** The most events one pull hands out: the limit, but at least one and at most 500. */
  function Bound(limit: int): nat {
    if limit < 1 then 1 else if limit > 500 then 500 else limit
  }

  /** A pull hands out the whole queue if it is within the bound, and otherwise exactly as many events as the bound. */
  lemma PullExactly(h: Hub, key: string, limit: int)
    ensures var (h1, events) := Pull(h, key, limit);
      && |events| == (if |QueueOf(h, key)| <= Bound(limit) then |QueueOf(h, key)| else Bound(limit))
      && events == QueueOf(h, key)[..|events|] && QueueOf(h1, key) == QueueOf(h, key)[|events|..]
      && (forall k :: k != key ==> QueueOf(h1, k) == QueueOf(h, k)) && h1.channels == h.channels && h1.subscribers == h.subscribers
  {
    if QueueOf(h, key) != [] { PullSplits(h, key, limit); }
  }

  function Pulls(key: string, limit: int, n: nat): seq<Step> {
    seq(n, _ => StepPull(key, limit))
  }

  function Rest(q: seq<Event>, m: nat): seq<Event> {
    if m <= |q| then q[m..] else []
  }

  lemma RestTwice(q: seq<Event>, m: nat, b: nat)
    ensures Rest(Rest(q, m), b) == Rest(q, m + b)
  {
  }

  lemma PullRest(h: Hub, key: string, limit: int)
    ensures QueueOf(Next(h, StepPull(key, limit)), key) == Rest(QueueOf(h, key), Bound(limit))
  {
    PullExactly(h, key, limit);
  }

  lemma RunOn(steps: seq<Step>, x: Step)
    ensures Run(steps + [x]) == Next(Run(steps), x)
  {
    assert (steps + [x])[..|steps + [x]| - 1] == steps;
    hide Next;
  }

  lemma LastPull(steps: seq<Step>, key: string, limit: int, n: nat)
    requires n > 0
    ensures Run(steps + Pulls(key, limit, n)) == Next(Run(steps + Pulls(key, limit, n - 1)), StepPull(key, limit))
  {
    assert steps + Pulls(key, limit, n) == (steps + Pulls(key, limit, n - 1)) + [StepPull(key, limit)];
    hide *;
    RunOn(steps + Pulls(key, limit, n - 1), StepPull(key, limit));
  }

  function Times(n: nat, b: nat): nat {
    if n == 0 then 0 else Times(n - 1, b) + b
  }

  lemma {:induction false} TimesIs(n: nat, b: nat)
    ensures Times(n, b) == n * b
  {
    if n > 0 { TimesIs(n - 1, b); assert n * b == (n - 1) * b + b; }
  }

  /** After n pulls with one limit the queue has lost its first n times the bound, or all it had. */
  lemma {:induction false} PullsTake(steps: seq<Step>, key: string, limit: int, n: nat)
    ensures QueueOf(Run(steps + Pulls(key, limit, n)), key) == Rest(QueueOf(Run(steps), key), Times(n, Bound(limit)))
  {
    hide *;
    NoPulls(steps, key, limit);
    OneMore(n, Bound(limit));
    if n == 0 {
      RestAll(QueueOf(Run(steps), key));
    } else {
      PullsTake(steps, key, limit, n - 1);
      LastPull(steps, key, limit, n);
      PullRest(Run(steps + Pulls(key, limit, n - 1)), key, limit);
      RestTwice(QueueOf(Run(steps), key), Times(n - 1, Bound(limit)), Bound(limit));
    }
  }

  lemma NoPulls(steps: seq<Step>, key: string, limit: int)
    ensures steps + Pulls(key, limit, 0) == steps
  {
  }

  lemma OneMore(n: nat, b: nat)
    ensures Times(n, b) == if n == 0 then 0 else Times(n - 1, b) + b
  {
  }

  lemma RestAll(q: seq<Event>)
    ensures Rest(q, 0) == q
  {
  }

  lemma EmptiedBy(q: seq<Event>, m: nat)
    ensures Rest(q, m) == [] <==> m >= |q|
  {
  }

  lemma Emptied(q: seq<Event>, n: nat, b: nat)
    requires b > 0
    ensures Rest(q, Times(n, b)) == [] <==> n >= (|q| + b - 1) / b
  {
    hide *;
    EmptiedBy(q, Times(n, b));
    RoundUp(n, b, |q|);
  }

  /** n pulls in a row empty a queue exactly when n times the bound is at least its length: the least such n is the length
      divided by the bound, rounded up. */
  lemma PullsEmpty(steps: seq<Step>, key: string, limit: int, n: nat)
    ensures QueueOf(Run(steps + Pulls(key, limit, n)), key) == [] <==> n >= (|QueueOf(Run(steps), key)| + Bound(limit) - 1) / Bound(limit)
  {
    assert Bound(limit) > 0;
    hide *;
    PullsTake(steps, key, limit, n);
    Emptied(QueueOf(Run(steps), key), n, Bound(limit));
  }

  lemma RoundUp(n: nat, b: nat, len: nat)
    requires b > 0
    ensures Times(n, b) >= len <==> n >= (len + b - 1) / b
  {
    var c := (len + b - 1) / b;
    TimesIs(c, b);
    assert Times(c, b) <= len + b - 1 < Times(c, b) + b;
    if n >= c { TimesGrow(c, n, b); } else { TimesGrow(n, c - 1, b); }
  }

  lemma {:induction false} TimesGrow(m: nat, n: nat, b: nat)
    requires m <= n
    ensures Times(m, b) <= Times(n, b)
  {
    if m < n { TimesGrow(m, n - 1, b); }
  }

  // ---------- Subscribing ----------

  /** The key has a subscribed channel that holds fewer than 64 events. */
  ghost predicate Reachable(h: Hub, key: string) {
    exists ch :: ch in Subscribed(h, key) && ch in h.channels && |h.channels[ch]| < 64
  }

  /** A channel that is subscribed and holds fewer than 64 events gets the next event of its key, at its end, and the
      event is not queued; with no such channel it is queued and no channel changes. */
  lemma SendExactly(h: Hub, key: string, e: Event, ch: nat)
    ensures ch in h.channels ==> ch in Send(h, key, e).channels
    ensures ch in h.channels ==>
      Send(h, key, e).channels[ch] == h.channels[ch] + if ch in Subscribed(h, key) && |h.channels[ch]| < 64 then [e] else []
    ensures forall k :: QueueOf(Send(h, key, e), k) == QueueOf(h, k) + if k == key && !Reachable(h, key) then [e] else []
    ensures Send(h, key, e).subscribers == h.subscribers
  {
    SendGrows(h, key, e, key, ch);
    assert Reached(h, key) != {} ==> Reachable(h, key) by {
      if Reached(h, key) != {} { var c :| c in Reached(h, key); assert c in Subscribed(h, key) && |h.channels[c]| < 64; }
    }
    assert Reachable(h, key) ==> Reached(h, key) != {} by {
      if c :| c in Subscribed(h, key) && c in h.channels && |h.channels[c]| < 64 { assert c in Reached(h, key); }
    }
    forall k ensures QueueOf(Send(h, key, e), k) == QueueOf(h, k) + if k == key && Reached(h, key) == {} then [e] else [] {
      SendGrows(h, key, e, k, ch);
    }
    hide Reachable, QueueOf;
  }

  /** Subscribing adds an empty channel to its key and changes nothing for other keys and channels. */
  lemma SubscribeExactly(h: Hub, key: string, ch: nat)
    ensures var h1 := Subscribe(h, key, ch);
      && (forall k :: Subscribed(h1, k) == if k == key then Subscribed(h, k) + {ch} else Subscribed(h, k))
      && h1.channels == h.channels[ch := []] && h1.queues == h.queues
  {
  }

  /** Unsubscribing takes the channel off its key, and only there; what it holds stays to be read. */
  lemma UnsubscribeExactly(h: Hub, key: string, ch: nat)
    ensures var h1 := Unsubscribe(h, key, ch);
      && (forall k :: Subscribed(h1, k) == if k == key then Subscribed(h, k) - {ch} else Subscribed(h, k))
      && h1.channels == h.channels && h1.queues == h.queues
  {
  }

  /** Once its one subscription is taken back, a channel receives nothing more, whatever follows. */
  lemma {:induction false} NothingAfterUnsubscribe(steps: seq<Step>, n: nat, key: string, ch: nat)
    requires ValidRun(steps) && n < |steps| && steps[n] == StepUnsubscribe(key, ch) && ch in Run(steps[..n + 1]).channels
    requires KeyOf(steps[..n], ch) == Some(key)
    ensures Landed(steps, ch) == Landed(steps[..n + 1], ch)
    ensures ch in Run(steps).channels && forall k :: ch !in Subscribed(Run(steps), k)
    decreases |steps|
  {
    var m := |steps| - 1;
    var before, x := steps[..m], steps[m];
    if n == m {
      assert steps[..n + 1] == steps;
      SubscribersKnown(before);
      UnsubscribeExactly(Run(before), key, ch);
      LastUnsubscribed(before, key, ch);
    } else {
      assert before[..n] == steps[..n] && before[..n + 1] == steps[..n + 1] && before[n] == steps[n];
      NothingAfterUnsubscribe(before, n, key, ch);
      GrowthIs(Run(before), x, "", ch);
      StaysOff(Run(before), x, ch);
      hide LandedBy, Next, Reached;
    }
  }

  lemma LastUnsubscribed(before: seq<Step>, key: string, ch: nat)
    requires ValidRun(before) && KeyOf(before, ch) == Some(key)
    ensures forall k :: ch !in Subscribed(Unsubscribe(Run(before), key, ch), k)
  {
    UnsubscribeExactly(Run(before), key, ch);
    forall k | k != key ensures ch !in Subscribed(Run(before), k) {
      if ch in Subscribed(Run(before), k) { SubscribedKey(before, ch, k); }
    }
    hide Run, Unsubscribe, ValidRun, KeyOf;
  }

  lemma Quiet(h: Hub, x: Step)
    requires !x.StepSubscribe? && !x.StepUnsubscribe?
    ensures h.channels.Keys == Next(h, x).channels.Keys
    ensures forall k :: Subscribed(Next(h, x), k) == Subscribed(h, k)
  {
    if x.StepSend? { assert Next(h, x).subscribers == h.subscribers; }
  }

  lemma StaysOff(h: Hub, x: Step, ch: nat)
    requires ch in h.channels && (forall k :: ch !in Subscribed(h, k)) && (x.StepSubscribe? ==> x.ch !in h.channels)
    ensures ch in Next(h, x).channels && forall k :: ch !in Subscribed(Next(h, x), k)
    ensures x.StepSend? ==> ch !in Reached(h, x.key)
  {
    if x.StepSubscribe? {
      SubscribeExactly(h, x.key, x.ch);
    } else if x.StepUnsubscribe? {
      UnsubscribeExactly(h, x.key, x.ch);
    } else {
      Quiet(h, x);
      hide Next;
    }
  }

  // ---------- In place ----------

  class SignalHub {
    var queues: map<string, seq<Event>>
    var subscribers: map<string, set<nat>>
    var channels: map<nat, seq<Event>>

    ghost function Abs(): Hub
      reads this
    {
      Hub(queues, subscribers, channels)
    }

    constructor ()
      ensures Abs() == QUIET
    {
      queues, subscribers, channels := map[], map[], map[];
    }

    method AddSubscriber(key: string, ch: nat)
      modifies this
      ensures Abs() == Subscribe(old(Abs()), key, ch)
    {
      var chans := {};
      if key in subscribers { chans := subscribers[key]; }
      subscribers := subscribers[key := chans + {ch}];
      channels := channels[ch := []];
    }

    method RemoveSubscriber(key: string, ch: nat)
      modifies this
      ensures Abs() == Unsubscribe(old(Abs()), key, ch)
    {
      if key !in subscribers { return; }
      subscribers := subscribers[key := subscribers[key] - {ch}];
      if subscribers[key] == {} { subscribers := subscribers - {key}; }
    }

    /** `deliverSignalEvent`: offers the event to every subscribed channel without waiting. */
    method DeliverEvent(key: string, e: Event) returns (delivered: bool)
      modifies this
      ensures Abs() == Deliver(old(Abs()), key, e)
      ensures delivered <==> Reached(old(Abs()), key) != {}
    {
      ghost var was := Abs();
      var todo := if key in subscribers then subscribers[key] else {};
      delivered := false;
      while todo != {}
        invariant todo <= Subscribed(was, key)
        invariant queues == was.queues && subscribers == was.subscribers
        invariant channels == map ch | ch in was.channels :: if ch in Reached(was, key) && ch !in todo then was.channels[ch] + [e] else was.channels[ch]
        invariant delivered <==> exists ch :: ch in Reached(was, key) && ch !in todo
        decreases todo
      {
        var ch :| ch in todo;
        todo := todo - {ch};
        assert ch in Reached(was, key) <==> HasRoom(was, ch);
        if ch in channels && |channels[ch]| < CAPACITY {
          channels := channels[ch := channels[ch] + [e]];
          delivered := true;
        }
      }
    }

    method EnqueueEvent(key: string, e: Event)
      modifies this
      ensures Abs() == Enqueue(old(Abs()), key, e)
    {
      var q := if key in queues then queues[key] else [];
      queues := queues[key := q + [e]];
    }

    method SendEvent(key: string, e: Event) returns (delivered: bool)
      modifies this
      ensures Abs() == Send(old(Abs()), key, e) && (delivered <==> Reached(old(Abs()), key) != {})
    {
      delivered := DeliverEvent(key, e);
      if delivered { return; }
      assert Abs().channels == old(channels);
      EnqueueEvent(key, e);
    }

    method PullInbox(key: string, limit: int) returns (events: seq<Event>)
      modifies this
      ensures (Abs(), events) == Pull(old(Abs()), key, limit)
      ensures events + QueueOf(Abs(), key) == QueueOf(old(Abs()), key)
      ensures |events| == (if |QueueOf(old(Abs()), key)| <= Bound(limit) then |QueueOf(old(Abs()), key)| else Bound(limit))
    {
      var queue := if key in queues then queues[key] else [];
      if |queue| == 0 { return []; }
      var safe := ClampInt(limit, 1, MAX_PULL);
      var take := if safe < |queue| then safe else |queue|;
      events := [];
      var i := 0;
      while i < take
        invariant 0 <= i <= take && events == queue[..i]
      {
        events := events + [queue[i]];
        i := i + 1;
      }
      if take >= |queue| { queues := queues - {key}; } else { queues := queues[key := queue[take..]]; }
    }
  }
}
