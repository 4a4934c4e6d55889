/** Whole runs of the control plane: operations, writes of the store, and restarts that read the last write back. */
module PairingRuns {
  import opened Helpers
  import opened PairingState
  import opened PairingInvariant
  import opened PairingRestart
  import opened PairingSteps

  /** The store in memory, and what was last written out. */
  datatype World = World(live: State, saved: Option<Snapshot>)

  /** A write happens some time after a change, or never; a restart happens at any moment, and may find nothing to read. */
  datatype Act =
    | Operate(step: Step)
    | Write(now: int)
    | Reboot(now: int, found: bool, leases: set<string>, index: map<string, string>)

  const NOTHING := Snapshot(map[], map[], map[], map[], map[])
  const NEW_WORLD := World(EMPTY, None)

  function ReadFrom(w: World, found: bool): Snapshot {
    if found && w.saved.Some? then w.saved.value else NOTHING
  }

  function Apply(w: World, a: Act): World {
    match a
    case Operate(x) => w.(live := Next(w.live, x))
    case Write(now) => w.(saved := Some(Persist(w.live, now)))
    case Reboot(now, found, leases, index) => w.(live := Hydrate(ReadFrom(w, found), now, leases, index, w.live.issued))
  }

  /** An operation draws new random values; a restart builds an index of the sessions it kept. */
  ghost predicate CanApply(w: World, a: Act) {
    match a
    case Operate(x) => Enabled(w.live, x)
    case Write(_) => true
    case Reboot(_, _, _, index) => Reindexed(Apply(w, a).live.pairSessions, index)
  }

  function Run(log: seq<Act>): World {
    if log == [] then NEW_WORLD else Apply(Run(log[..|log| - 1]), log[|log| - 1])
  }

  ghost predicate ValidRun(log: seq<Act>) {
    forall i :: 0 <= i < |log| ==> CanApply(Run(log[..i]), log[i])
  }

  /** The store after the first i acts. */
  function StoreAt(log: seq<Act>, i: nat): State
    requires i <= |log|
  {
    Run(log[..i]).live
  }

  /** The position of the last write. */
  function LastWrite(log: seq<Act>): (w: Option<nat>)
    ensures w.Some? ==> w.value < |log| && log[w.value].Write?
    ensures w.Some? ==> forall v :: w.value < v < |log| ==> !log[v].Write?
    ensures w.None? ==> forall v :: 0 <= v < |log| ==> !log[v].Write?
  {
    if log == [] then None
    else if log[|log| - 1].Write? then Some(|log| - 1)
    else LastWrite(log[..|log| - 1])
  }

  /** The position of the write that the restart at position c reads, if it reads one. */
  function Source(log: seq<Act>, c: nat): (w: Option<nat>)
    requires c < |log| && log[c].Reboot?
    ensures w.Some? ==> w.value < c && log[w.value].Write?
  {
    if log[c].found then LastWrite(log[..c]) else None
  }

  /** The store that the restart at position c goes back to. */
  function Base(log: seq<Act>, c: nat): State
    requires c < |log| && log[c].Reboot?
  {
    match Source(log, c)
    case Some(w) => StoreAt(log, w)
    case None => EMPTY
  }

  // ---------- Prefixes ----------

  lemma Prefix(log: seq<Act>, i: nat)
    requires ValidRun(log) && i <= |log|
    ensures ValidRun(log[..i])
  {
    hide CanApply, Run;
    forall j | 0 <= j < i ensures CanApply(Run(log[..i][..j]), log[..i][j]) { assert log[..i][..j] == log[..j]; }
  }

  lemma SameStep(log: seq<Act>, n: nat, h: nat)
    requires h < n <= |log|
    ensures log[..n][..h] == log[..h] && log[..n][h] == log[h] && StoreAt(log[..n], h) == StoreAt(log, h)
  {
    assert log[..n][..h] == log[..h];
    hide Run;
  }

  lemma RunIs(log: seq<Act>)
    requires |log| > 0
    ensures Run(log) == Apply(Run(log[..|log| - 1]), log[|log| - 1])
  {
    hide Apply;
  }

  lemma StepAt(log: seq<Act>, j: nat)
    requires j < |log|
    ensures Run(log[..j + 1]) == Apply(Run(log[..j]), log[j])
  {
    hide *;
    assert log[..j + 1][..j] == log[..j] && log[..j + 1][j] == log[j];
    RunIs(log[..j + 1]);
  }

  lemma CanAt(log: seq<Act>, j: nat)
    requires ValidRun(log) && j < |log|
    ensures CanApply(Run(log[..j]), log[j])
  {
    hide CanApply, Run;
  }

  // ---------- Restarts ----------

  /** What is saved is the store at the last write, as written then. */
  lemma {:induction false} SavedIs(log: seq<Act>)
    ensures match LastWrite(log)
      case Some(w) => Run(log).saved == Some(Persist(StoreAt(log, w), log[w].now))
      case None => Run(log).saved == None
  {
    if log != [] {
      var before := log[..|log| - 1];
      SavedIs(before);
      if LastWrite(before).Some? { SameStep(log, |log| - 1, LastWrite(before).value); }
      hide Persist, Hydrate, Next;
    }
  }

  /** A restart reads the store at its source, as it was written at some time. */
  lemma ReadIs(log: seq<Act>, c: nat) returns (t: int)
    requires c < |log| && log[c].Reboot?
    ensures ReadFrom(Run(log[..c]), log[c].found) == Persist(Base(log, c), t)
  {
    SavedIs(log[..c]);
    EmptyPersists(0);
    t := 0;
    if Source(log, c).Some? {
      SameStep(log, c, Source(log, c).value);
      t := log[Source(log, c).value].now;
    }
    hide Persist, Run;
  }

  lemma EmptyPersists(t: int)
    ensures Persist(EMPTY, t) == NOTHING
  {
  }

  /** What a restart brings back of a store: all its bindings, some of its sessions and entities, none of them changed,
      and no challenge. */
  ghost predicate Salvaged(s: State, r: State) {
    && r.bindings == s.bindings
    && (forall k :: k in r.pairSessions ==> k in s.pairSessions && r.pairSessions[k] == s.pairSessions[k])
    && (forall t: EntityType, id :: KeyOf(r, t, id) in {None, KeyOf(s, t, id)})
    && (forall t :: t in r.authSessions ==> t in s.authSessions && r.authSessions[t] == s.authSessions[t])
    && r.challenges == map[]
  }

  lemma HydrateSalvages(s: State, t: int, now: int, leases: set<string>, index: map<string, string>, issued: set<string>)
    ensures Salvaged(s, Hydrate(Persist(s, t), now, leases, index, issued))
  {
    HydratedAuth(s, t, now, leases, index, issued);
    hide EntityKey, KeepAuth, DesktopAlive, MobileAlive;
  }

  lemma HydratedAuth(s: State, t: int, now: int, leases: set<string>, index: map<string, string>, issued: set<string>)
    ensures var r := Hydrate(Persist(s, t), now, leases, index, issued);
      (forall k :: k in r.authSessions ==> k in s.authSessions && r.authSessions[k] == s.authSessions[k]) && r.challenges == map[]
  {
    hide KeepDesktops, KeepMobiles, LeasedDesktops, LeasedMobiles, KeepPairs, HasEntity;
  }

  lemma RebootIs(log: seq<Act>, c: nat) returns (t: int)
    requires c < |log| && log[c].Reboot?
    ensures StoreAt(log, c + 1) == Hydrate(Persist(Base(log, c), t), log[c].now, log[c].leases, log[c].index, StoreAt(log, c).issued)
    ensures Run(log[..c + 1]) == Apply(Run(log[..c]), log[c])
  {
    t := ReadIs(log, c);
    StepAt(log, c);
    hide Persist, Run, Hydrate, Base, ReadFrom;
  }

  /** A restart goes back to the store of its source, if it has one, and to an empty store otherwise. */
  lemma RebootSalvages(log: seq<Act>, c: nat)
    requires c < |log| && log[c].Reboot?
    ensures Salvaged(Base(log, c), StoreAt(log, c + 1))
  {
    hide *;
    var t := RebootIs(log, c);
    HydrateSalvages(Base(log, c), t, log[c].now, log[c].leases, log[c].index, StoreAt(log, c).issued);
  }

  // ---------- The invariant ----------

  lemma {:induction false} IssuedForever(log: seq<Act>, i: nat, j: nat)
    requires i <= j <= |log|
    ensures StoreAt(log, i).issued <= StoreAt(log, j).issued
  {
    if i < j {
      IssuedForever(log, i, j - 1);
      StepAt(log, j - 1);
      hide Run, Persist, Hydrate, Next;
      ApplyIssued(Run(log[..j - 1]), log[j - 1]);
    }
  }

  lemma ApplyIssued(w: World, a: Act)
    ensures w.live.issued <= Apply(w, a).live.issued
  {
    match a
    case Operate(x) => hide Next; NextIssued(w.live, x);
    case Write(_) =>
    case Reboot(_, _, _, _) =>
  }

  lemma HydrateKeeps(s: State, t: int, now: int, leases: set<string>, index: map<string, string>, issued: set<string>)
    requires Inv(s) && s.issued <= issued
    requires Reindexed(Hydrate(Persist(s, t), now, leases, index, issued).pairSessions, index)
    ensures Inv(Hydrate(Persist(s, t), now, leases, index, issued))
  {
    var r := Restart(s, t, now, leases, index);
    var h := Hydrate(Persist(s, t), now, leases, index, issued);
    assert h == r.(issued := issued) && r.issued == s.issued && Restarts(s, t, now, leases, index) by { hide Persist, Inv, Reindexed; }
    hide Hydrate, Persist, PairInv, EntityInv, Reindexed, Restarts, Restart;
    RestartKeeps(s, t, now, leases, index);
    IssuedKeeps(r.pairSessions, r.claimIndex, r.bindings, r.issued, issued);
  }

  /** In every state a store can reach from empty, through any operations, writes and restarts, all the maps agree. */
  lemma {:induction false} RunInv(log: seq<Act>)
    requires ValidRun(log)
    ensures Inv(Run(log).live)
    decreases |log|, 2
  {
    hide *;
    if log == [] {
      StartsEmpty(log);
      EmptyInv();
    } else {
      var n := |log| - 1;
      Prefix(log, n);
      RunInv(log[..n]);
      LastAct(log);
      match log[n]
      case Operate(x) => OperateIs(Run(log[..n]), log[n]); NextKeeps(Run(log[..n]).live, x);
      case Write(_) => WriteIs(Run(log[..n]), log[n]);
      case Reboot(_, _, _, _) => RebootKeeps(log);
    }
  }

  lemma StartsEmpty(log: seq<Act>)
    ensures log == [] ==> Run(log) == NEW_WORLD && NEW_WORLD.live == EMPTY && EMPTY.bindings == map[] && EMPTY.pairSessions == map[]
  {
  }

  lemma LastAct(log: seq<Act>)
    requires ValidRun(log) && log != []
    ensures var before, a := log[..|log| - 1], log[|log| - 1];
      ValidRun(before) && CanApply(Run(before), a) && Run(log) == Apply(Run(before), a)
  {
    hide *;
    Prefix(log, |log| - 1);
    CanAt(log, |log| - 1);
    RunIs(log);
  }

  lemma OperateIs(w: World, a: Act)
    requires a.Operate?
    ensures Apply(w, a).live == Next(w.live, a.step) && (CanApply(w, a) <==> Enabled(w.live, a.step))
  {
    hide Next, Enabled;
  }

  lemma WriteIs(w: World, a: Act)
    requires a.Write?
    ensures Apply(w, a).live == w.live
  {
  }

  /** After a restart the maps agree because they did in the store it goes back to. */
  lemma RebootKeeps(log: seq<Act>)
    requires ValidRun(log) && log != [] && log[|log| - 1].Reboot?
    ensures Inv(Run(log).live)
    decreases |log|, 1
  {
    hide *;
    var n := |log| - 1;
    var a := log[n];
    var t := RebootIs(log, n);
    RunIs(log);
    CanAt(log, n);
    RebootIndexes(Run(log[..n]), a);
    StoreIs(log, n);
    assert log[..n + 1] == log;
    StoreIs(log, n + 1);
    BaseInv(log, n);
    HydrateKeeps(Base(log, n), t, a.now, a.leases, a.index, StoreAt(log, n).issued);
  }

  lemma RebootIndexes(w: World, a: Act)
    requires a.Reboot? && CanApply(w, a)
    ensures Reindexed(Apply(w, a).live.pairSessions, a.index)
  {
    hide Reindexed, Hydrate;
  }

  lemma BaseInv(log: seq<Act>, c: nat)
    requires ValidRun(log) && c < |log| && log[c].Reboot?
    ensures Inv(Base(log, c)) && Base(log, c).issued <= StoreAt(log, c).issued
    decreases c + 1, 0
  {
    match Source(log, c)
    case Some(w) =>
      Prefix(log, w);
      RunInv(log[..w]);
      IssuedForever(log, w, c);
      hide Inv, Run;
    case None => EmptyInv(); hide Inv;
  }

  // ---------- Which states follow which ----------

  /** The store after j acts goes back to the store after i acts: every restart on the way read a write of a store that did. */
  ghost predicate Follows(log: seq<Act>, i: nat, j: nat)
    requires j <= |log|
    decreases j
  {
    i <= j && (i == j ||
      if log[j - 1].Reboot? then Source(log, j - 1).Some? && Follows(log, i, Source(log, j - 1).value)
      else Follows(log, i, j - 1))
  }

  /** The restart at position c found something to read, and something was written from position i on. */
  ghost predicate WrittenSince(log: seq<Act>, i: nat, c: nat)
    requires c < |log| && log[c].Reboot?
  {
    log[c].found && exists w :: i <= w < c && log[w].Write?
  }

  ghost predicate Durable(log: seq<Act>, i: nat, j: nat)
    requires j <= |log|
  {
    forall c :: i <= c < j && log[c].Reboot? ==> WrittenSince(log, i, c)
  }

  /** If every restart since i came after a write since i, the store still follows; and if every restart found what was
      written last, it follows only then. */
  lemma {:induction false} FollowsExactly(log: seq<Act>, i: nat, j: nat)
    requires i <= j <= |log|
    ensures Durable(log, i, j) ==> Follows(log, i, j)
    ensures (forall c :: i <= c < j && log[c].Reboot? ==> log[c].found) ==> (Follows(log, i, j) <==> Durable(log, i, j))
    decreases j
  {
    if i < j {
      var c := j - 1;
      if log[c].Reboot? {
        if Source(log, c).Some? && Source(log, c).value >= i { FollowsExactly(log, i, Source(log, c).value); }
        if WrittenSince(log, i, c) {
          var v :| i <= v < c && log[v].Write?;
          assert log[..c][v].Write?;
        }
      } else {
        FollowsExactly(log, i, c);
      }
      hide LastWrite;
    }
  }

  lemma FollowsCases(log: seq<Act>, i: nat, j: nat)
    requires i < j <= |log| && Follows(log, i, j)
    ensures if log[j - 1].Reboot?
      then Source(log, j - 1).Some? && Follows(log, i, Source(log, j - 1).value) && i <= Source(log, j - 1).value
        && Base(log, j - 1) == StoreAt(log, Source(log, j - 1).value)
      else Follows(log, i, j - 1)
  {
    hide Run, LastWrite;
  }

  lemma FollowsOn(log: seq<Act>, i: nat, j: nat)
    requires i <= j < |log|
    ensures !log[j].Reboot? && Follows(log, i, j) ==> Follows(log, i, j + 1)
    ensures log[j].Reboot? && Source(log, j).Some? && i <= Source(log, j).value && Follows(log, i, Source(log, j).value) ==> Follows(log, i, j + 1)
    ensures Follows(log, j, j)
  {
    hide LastWrite;
  }

  lemma FollowsUpTo(log: seq<Act>, i: nat, j: nat)
    requires j <= |log| && Follows(log, i, j)
    ensures i <= j
  {
    hide LastWrite;
  }

  /** The store before act j, and what act j does to it. */
  lemma ActAt(log: seq<Act>, j: nat)
    requires ValidRun(log) && j < |log|
    ensures Inv(StoreAt(log, j))
    ensures log[j].Operate? ==> Enabled(StoreAt(log, j), log[j].step) && StoreAt(log, j + 1) == Next(StoreAt(log, j), log[j].step)
    ensures log[j].Write? ==> StoreAt(log, j + 1) == StoreAt(log, j)
  {
    hide *;
    Prefix(log, j);
    RunInv(log[..j]);
    StepAt(log, j);
    CanAt(log, j);
    StoreIs(log, j);
    StoreIs(log, j + 1);
    if log[j].Operate? { OperateIs(Run(log[..j]), log[j]); }
    if log[j].Write? { WriteIs(Run(log[..j]), log[j]); }
  }

  lemma StoreIs(log: seq<Act>, j: nat)
    requires j <= |log|
    ensures StoreAt(log, j) == Run(log[..j]).live
  {
    hide Run;
  }

  lemma SalvagedFacts(s: State, r: State, k: string, t: EntityType, id: string)
    requires Salvaged(s, r)
    ensures r.bindings == s.bindings && (k in r.pairSessions ==> k in s.pairSessions && r.pairSessions[k] == s.pairSessions[k])
    ensures KeyOf(r, t, id) in {None, KeyOf(s, t, id)}
    ensures k in r.authSessions ==> k in s.authSessions && r.authSessions[k] == s.authSessions[k]
    ensures r.challenges == map[]
  {
    hide KeyOf;
  }

  /** Without a source a restart starts from an empty store. */
  lemma BaseCases(log: seq<Act>, c: nat)
    requires c < |log| && log[c].Reboot?
    ensures match Source(log, c)
      case Some(w) => w < c && Base(log, c) == StoreAt(log, w)
      case None => Base(log, c) == EMPTY && EMPTY.bindings == map[] && EMPTY.pairSessions == map[] && EMPTY.authSessions == map[]
  {
    hide Run, LastWrite;
  }
}
