/** Pruning twice, and writing the store out and reading it back: both compared with one prune. */
module PairingRestart {
  import opened PairingState
  import opened PairingInvariant

  // ---------- Pruning twice ----------

  predicate SameButUpdatedAt(p: PairSession, q: PairSession) {
    p.(updatedAt := q.updatedAt) == q
  }

  /** Equal states, except for the time stamped on a lapsed session. */
  ghost predicate SameButStamps(s: State, t: State) {
    && s.(pairSessions := t.pairSessions) == t
    && s.pairSessions.Keys == t.pairSessions.Keys
    && forall k :: k in s.pairSessions ==> SameButUpdatedAt(s.pairSessions[k], t.pairSessions[k])
  }

  lemma RemovedTwice(desktops: map<string, Desktop>, mobiles: map<string, Mobile>, t1: int, t2: int)
    requires t1 <= t2
    ensures RemovedKeys(desktops, mobiles, t1) + RemovedKeys(KeepDesktops(desktops, t1), KeepMobiles(mobiles, t1), t2)
         == RemovedKeys(desktops, mobiles, t2)
  {
    var ds, ms := KeepDesktops(desktops, t1), KeepMobiles(mobiles, t1);
    hide EntityKey;
    forall x ensures x in RemovedKeys(desktops, mobiles, t1) + RemovedKeys(ds, ms, t2) <==> x in RemovedKeys(desktops, mobiles, t2) {
      if k :| k in desktops && EntityKey(DesktopType, k) == x && !DesktopAlive(desktops[k], t2) {
        assert k in ds ==> !DesktopAlive(ds[k], t2);
      } else if k :| k in mobiles && EntityKey(MobileType, k) == x && !MobileAlive(mobiles[k], t2) {
        assert k in ms ==> !MobileAlive(ms[k], t2);
      }
    }
  }

  lemma LapsedTwice(sessions: map<string, PairSession>, t1: int, t2: int)
    requires t1 <= t2
    ensures LapsedTokens(sessions, t1) + LapsedTokens(PrunePairs(sessions, t1), t2) == LapsedTokens(sessions, t2)
  {
    var p := PrunePairs(sessions, t1);
    forall x ensures x in LapsedTokens(sessions, t1) + LapsedTokens(p, t2) <==> x in LapsedTokens(sessions, t2) {
      if k :| k in sessions && sessions[k].claimToken == x && Lapses(sessions[k], t2) {
        assert p[k].claimToken == x && (Lapses(sessions[k], t1) || Lapses(p[k], t2));
      }
    }
  }

  lemma KeepTwice(desktops: map<string, Desktop>, mobiles: map<string, Mobile>, challenges: map<string, Challenge>, t1: int, t2: int)
    requires t1 <= t2
    ensures KeepDesktops(KeepDesktops(desktops, t1), t2) == KeepDesktops(desktops, t2)
    ensures KeepMobiles(KeepMobiles(mobiles, t1), t2) == KeepMobiles(mobiles, t2)
    ensures KeepChallenges(KeepChallenges(challenges, t1), t2) == KeepChallenges(challenges, t2)
  {
  }

  lemma AuthTwice(auth: map<string, AuthSession>, r1: set<string>, r2: set<string>, r: set<string>, t1: int, t2: int)
    requires t1 <= t2 && r1 + r2 == r
    ensures PruneAuth(PruneAuth(auth, r1, t1), r2, t2) == PruneAuth(auth, r, t2)
  {
  }

  lemma WithoutTwice<T>(m: map<string, T>, r1: set<string>, r2: set<string>, r: set<string>)
    requires r1 + r2 == r
    ensures (m - r1) - r2 == m - r
  {
  }

  lemma PairsTwice(sessions: map<string, PairSession>, t1: int, t2: int)
    requires t1 <= t2
    ensures var a, b := PrunePairs(PrunePairs(sessions, t1), t2), PrunePairs(sessions, t2);
      a.Keys == b.Keys && (forall k :: k in a ==> SameButUpdatedAt(a[k], b[k])) && (t1 == t2 ==> a == b)
  {
  }

  /** Pruning at t1 and then at a later t2 is pruning at t2, up to the stamp of sessions that lapsed by t1. */
  lemma PruneComposes(s: State, t1: int, t2: int)
    requires t1 <= t2
    ensures SameButStamps(Prune(Prune(s, t1), t2), Prune(s, t2))
    ensures t1 == t2 ==> Prune(Prune(s, t1), t2) == Prune(s, t2)
  {
    hide RemovedKeys, LapsedTokens, PrunePairs, PruneAuth, KeepDesktops, KeepMobiles, KeepChallenges, SameButUpdatedAt;
    var p := Prune(s, t1);
    var r1, r2, r := RemovedKeys(s.desktops, s.mobiles, t1), RemovedKeys(p.desktops, p.mobiles, t2), RemovedKeys(s.desktops, s.mobiles, t2);
    RemovedTwice(s.desktops, s.mobiles, t1, t2);
    LapsedTwice(s.pairSessions, t1, t2);
    KeepTwice(s.desktops, s.mobiles, s.challenges, t1, t2);
    AuthTwice(s.authSessions, r1, r2, r, t1, t2);
    PairsTwice(s.pairSessions, t1, t2);
    WithoutTwice(s.queues, r1, r2, r);
    WithoutTwice(s.claimIndex, LapsedTokens(s.pairSessions, t1), LapsedTokens(p.pairSessions, t2), LapsedTokens(s.pairSessions, t2));
  }

  /** A second prune at the same time changes nothing. */
  lemma SecondPruneIdle(s: State, now: int)
    ensures Prune(Prune(s, now), now) == Prune(s, now)
  {
    hide *;
    PruneComposes(s, now, now);
  }

  // ---------- Writing out and reading back ----------

  datatype Snapshot = Snapshot(
    desktops: map<string, Desktop>, mobiles: map<string, Mobile>, authSessions: map<string, AuthSession>,
    pairSessions: map<string, PairSession>, bindings: map<string, Binding>)

  predicate HasEntity(desktops: map<string, Desktop>, mobiles: map<string, Mobile>, t: EntityType, id: string) {
    match t case DesktopType => id in desktops case MobileType => id in mobiles
  }

  function KeepAuth(auth: map<string, AuthSession>, desktops: map<string, Desktop>, mobiles: map<string, Mobile>, now: int): map<string, AuthSession> {
    map t | t in auth && auth[t].expiresAt > now && HasEntity(desktops, mobiles, auth[t].entityType, auth[t].entityId) :: auth[t]
  }

  function KeepPairs(sessions: map<string, PairSession>, desktops: map<string, Desktop>, now: int): map<string, PairSession> {
    map k | k in sessions && sessions[k].expiresAt > now && sessions[k].deviceId in desktops :: sessions[k]
  }

  /** The filters of `persistWithTimeout`. */
  function Persist(s: State, now: int): Snapshot {
    var desktops, mobiles := KeepDesktops(s.desktops, now), KeepMobiles(s.mobiles, now);
    Snapshot(desktops, mobiles, KeepAuth(s.authSessions, desktops, mobiles, now), KeepPairs(s.pairSessions, desktops, now), s.bindings)
  }

  /** What is written: the entities active at that time, the unexpired auth sessions and pair sessions of those, all bindings. */
  lemma PersistExactly(s: State, now: int)
    ensures var w := Persist(s, now);
      && (forall k :: k in w.desktops <==> Alive(s, DesktopType, k, now)) && (forall k :: k in w.desktops ==> w.desktops[k] == s.desktops[k])
      && (forall k :: k in w.mobiles <==> Alive(s, MobileType, k, now)) && (forall k :: k in w.mobiles ==> w.mobiles[k] == s.mobiles[k])
      && w.authSessions == (map t | t in s.authSessions && s.authSessions[t].expiresAt > now
           && Alive(s, s.authSessions[t].entityType, s.authSessions[t].entityId, now) :: s.authSessions[t])
      && w.pairSessions == (map k | k in s.pairSessions && s.pairSessions[k].expiresAt > now && Alive(s, DesktopType, s.pairSessions[k].deviceId, now) :: s.pairSessions[k])
      && w.bindings == s.bindings
  {
    hide DesktopAlive, MobileAlive;
  }

  const SECOND := 1000

  /** A lease written at t1 lasts as long as the entity would stay active, but no less than a second. */
  predicate LeaseLasts(lastActive: int, t1: int, t2: int) {
    var ttl := lastActive + ENTITY_TTL - t1;
    t2 < t1 + (if ttl < SECOND then SECOND else ttl)
  }

  /** The lease keys of a snapshot written at t1 that can still be read at t2. */
  function LeasesAt(snap: Snapshot, t1: int, t2: int): set<string> {
    (set k | k in snap.desktops && LeaseLasts(LastActive(snap.desktops[k].lastSeenAt, snap.desktops[k].updatedAt), t1, t2) :: EntityKey(DesktopType, k))
    + (set k | k in snap.mobiles && LeaseLasts(LastActive(snap.mobiles[k].lastSeenAt, snap.mobiles[k].updatedAt), t1, t2) :: EntityKey(MobileType, k))
  }

  /** A session the reader enters into the claim-token index. */
  predicate Indexable(p: PairSession) {
    p.claimToken != "" && Open(p)
  }

  /** A possible outcome of indexing a map of sessions in unspecified order. */
  ghost predicate Reindexed(sessions: map<string, PairSession>, index: map<string, string>) {
    && (forall t :: t in index ==> index[t] in sessions && Indexable(sessions[index[t]]) && sessions[index[t]].claimToken == t)
    && (forall k :: k in sessions && Indexable(sessions[k]) ==> sessions[k].claimToken in index)
  }

  function LeasedDesktops(desktops: map<string, Desktop>, now: int, leases: set<string>): map<string, Desktop> {
    map k | k in desktops && (EntityKey(DesktopType, k) in leases || DesktopAlive(desktops[k], now)) :: desktops[k]
  }

  function LeasedMobiles(mobiles: map<string, Mobile>, now: int, leases: set<string>): map<string, Mobile> {
    map k | k in mobiles && (EntityKey(MobileType, k) in leases || MobileAlive(mobiles[k], now)) :: mobiles[k]
  }

  /** The filters of `hydrateFromRedis` and `applySnapshot`: `leases` are the keys found, `index` the index they built. */
  function Hydrate(snap: Snapshot, now: int, leases: set<string>, index: map<string, string>, issued: set<string>): State {
    var desktops, mobiles := LeasedDesktops(snap.desktops, now, leases), LeasedMobiles(snap.mobiles, now, leases);
    State(desktops, mobiles, map[], KeepAuth(snap.authSessions, desktops, mobiles, now), KeepPairs(snap.pairSessions, desktops, now),
          index, snap.bindings, map[], issued)
  }

  function Restart(s: State, t1: int, t2: int, leases: set<string>, index: map<string, string>): State {
    Hydrate(Persist(s, t1), t2, leases, index, s.issued)
  }

  /** The index is one the reader may have built from the sessions it kept. */
  ghost predicate Restarts(s: State, t1: int, t2: int, leases: set<string>, index: map<string, string>) {
    Reindexed(Restart(s, t1, t2, leases, index).pairSessions, index)
  }

  /** Dropping sessions keeps the maps in agreement, and re-indexing what is left gives the exact index back. */
  lemma FewerSessions(sessions: map<string, PairSession>, index: map<string, string>, bindings: map<string, Binding>, issued: set<string>,
                      kept: map<string, PairSession>, index1: map<string, string>)
    requires PairInv(sessions, index, bindings, issued)
    requires forall k :: k in kept ==> k in sessions && kept[k] == sessions[k]
    requires Reindexed(kept, index1)
    ensures PairInv(kept, index1, bindings, issued)
    ensures index1 == map t | t in index && index[t] in kept :: index[t]
  {
    assert TokensDiffer(kept) by { hide IndexExact, ClaimsBound, BindingsBack, OnePerPair, PairIssued; }
    assert ClaimsBound(kept, bindings) by { hide IndexExact, BindingsBack, OnePerPair, PairIssued, TokensDiffer; }
    assert BindingsBack(kept, bindings) by { hide IndexExact, ClaimsBound, OnePerPair, PairIssued, TokensDiffer; }
    ReindexedExact(kept, index1);
    SubIndex(sessions, index, kept, index1);
    hide IndexExact, ClaimsBound, BindingsBack, OnePerPair, Reindexed, TokensDiffer;
  }

  lemma ReindexedExact(kept: map<string, PairSession>, index: map<string, string>)
    requires TokensDiffer(kept) && Reindexed(kept, index) && forall k :: k in kept ==> kept[k].claimToken != ""
    ensures IndexExact(kept, index)
  {
  }

  lemma SubIndex(sessions: map<string, PairSession>, index: map<string, string>, kept: map<string, PairSession>, index1: map<string, string>)
    requires IndexExact(sessions, index) && IndexExact(kept, index1)
    requires forall k :: k in kept ==> k in sessions && kept[k] == sessions[k]
    ensures index1 == map t | t in index && index[t] in kept :: index[t]
  {
  }

  lemma RestartSessions(s: State, t1: int, t2: int, leases: set<string>, index: map<string, string>)
    requires PairInv(s.pairSessions, s.claimIndex, s.bindings, s.issued) && Restarts(s, t1, t2, leases, index)
    ensures var r := Restart(s, t1, t2, leases, index);
      PairInv(r.pairSessions, r.claimIndex, r.bindings, r.issued)
      && r.claimIndex == map t | t in s.claimIndex && s.claimIndex[t] in r.pairSessions :: s.claimIndex[t]
  {
    var r := Restart(s, t1, t2, leases, index);
    hide PairInv, Reindexed;
    FewerSessions(s.pairSessions, s.claimIndex, s.bindings, s.issued, r.pairSessions, index);
  }

  lemma RestartEntities(s: State, t1: int, t2: int, leases: set<string>, index: map<string, string>)
    requires EntityInv(s.desktops, s.mobiles, s.authSessions)
    ensures var r := Restart(s, t1, t2, leases, index); EntityInv(r.desktops, r.mobiles, r.authSessions)
  {
  }

  /** Whatever leases the reader finds and in whatever order it indexes, the maps agree again. */
  lemma RestartKeeps(s: State, t1: int, t2: int, leases: set<string>, index: map<string, string>)
    requires Inv(s) && Restarts(s, t1, t2, leases, index)
    ensures Inv(Restart(s, t1, t2, leases, index))
  {
    hide PairInv, EntityInv, Restart, Restarts;
    RestartSessions(s, t1, t2, leases, index);
    RestartEntities(s, t1, t2, leases, index);
  }

  /** An entity's lease can be read at t2 exactly when it was active at t1, and is at t2 or t2 is within the floor of a second. */
  lemma LeaseExactly(s: State, t1: int, t2: int, t: EntityType, id: string)
    ensures EntityKey(t, id) in LeasesAt(Persist(s, t1), t1, t2)
      <==> Alive(s, t, id, t1) && (Alive(s, t, id, t2) || t2 < t1 + 1000)
  {
    forall k ensures EntityKey(DesktopType, k) == EntityKey(t, id) <==> t == DesktopType && k == id { KeysApart(DesktopType, k, t, id); }
    forall k ensures EntityKey(MobileType, k) == EntityKey(t, id) <==> t == MobileType && k == id { KeysApart(MobileType, k, t, id); }
    hide EntityKey;
  }

  /** An entity survives a restart exactly when it was active at the write, and is at the read or its lease was still found. */
  lemma EntityRestarted(s: State, t1: int, t2: int, leases: set<string>, index: map<string, string>, t: EntityType, id: string)
    ensures KeyOf(Restart(s, t1, t2, leases, index), t, id).Some?
      <==> Alive(s, t, id, t1) && (Alive(s, t, id, t2) || EntityKey(t, id) in leases)
  {
  }

  /** Pruning what a restart brings back leaves the live entities a prune of the running store would leave. */
  lemma RestartLive(s: State, t1: int, t2: int, leases: set<string>, index: map<string, string>)
    requires t1 <= t2
    ensures var r := Restart(s, t1, t2, leases, index);
      KeepDesktops(r.desktops, t2) == KeepDesktops(s.desktops, t2) && KeepMobiles(r.mobiles, t2) == KeepMobiles(s.mobiles, t2)
  {
    hide EntityKey, KeepAuth, KeepPairs;
  }

  lemma RestartAuth(s: State, t1: int, t2: int, leases: set<string>, index: map<string, string>)
    requires t1 <= t2 && EntityInv(s.desktops, s.mobiles, s.authSessions)
    ensures Prune(Restart(s, t1, t2, leases, index), t2).authSessions == Prune(s, t2).authSessions
  {
    hide *;
    var r := Restart(s, t1, t2, leases, index);
    var x, y := Prune(r, t2).authSessions, Prune(s, t2).authSessions;
    forall t | t in s.authSessions ensures t in x <==> t in y ensures t in x ==> x[t] == y[t] {
      RestartAuthAt(s, t1, t2, leases, index, t);
    }
    RestartWithin(s, t1, t2, leases, index);
    PrunedWithin(r, t2);
    PrunedWithin(s, t2);
  }

  lemma RestartWithin(s: State, t1: int, t2: int, leases: set<string>, index: map<string, string>)
    ensures var r := Restart(s, t1, t2, leases, index);
      && r.authSessions.Keys <= s.authSessions.Keys
      && (forall t :: t in r.authSessions ==> r.authSessions[t].expiresAt > t2)
      && (forall k :: k in r.desktops ==> k in s.desktops && r.desktops[k] == s.desktops[k])
      && (forall k :: k in r.mobiles ==> k in s.mobiles && r.mobiles[k] == s.mobiles[k])
  {
    hide EntityKey, DesktopAlive, MobileAlive, KeepPairs;
  }

  lemma PrunedWithin(s: State, now: int)
    ensures Prune(s, now).authSessions.Keys <= s.authSessions.Keys
  {
    hide RemovedKeys;
  }

  lemma RestartAuthAt(s: State, t1: int, t2: int, leases: set<string>, index: map<string, string>, t: string)
    requires t1 <= t2 && EntityInv(s.desktops, s.mobiles, s.authSessions) && t in s.authSessions
    ensures var x, y := Prune(Restart(s, t1, t2, leases, index), t2).authSessions, Prune(s, t2).authSessions;
      (t in x <==> t in y) && (t in x ==> x[t] == y[t])
  {
    var r, a := Restart(s, t1, t2, leases, index), s.authSessions[t];
    assert KeyOf(s, a.entityType, a.entityId).Some?;
    assert Alive(r, a.entityType, a.entityId, t2) ==> KeyOf(r, a.entityType, a.entityId).Some?;
    hide *;
    RestartedAuth(s, t1, t2, leases, index, t);
    RestartedAlive(s, t1, t2, leases, index, a.entityType, a.entityId);
    PrunedHolds(s, t2, t);
    PrunedWithin(r, t2);
    if t in r.authSessions { PrunedHolds(r, t2, t); }
  }

  lemma PrunedHolds(s: State, now: int, t: string)
    requires t in s.authSessions
    ensures var a := s.authSessions[t];
      t in Prune(s, now).authSessions <==> a.expiresAt > now && (KeyOf(s, a.entityType, a.entityId).Some? ==> Alive(s, a.entityType, a.entityId, now))
    ensures t in Prune(s, now).authSessions ==> Prune(s, now).authSessions[t] == s.authSessions[t]
  {
    RemovedExactly(s, now, s.authSessions[t].entityType, s.authSessions[t].entityId);
    hide RemovedKeys, EntityKey;
  }

  lemma RestartedAuth(s: State, t1: int, t2: int, leases: set<string>, index: map<string, string>, t: string)
    requires t1 <= t2 && t in s.authSessions
    ensures var a, r := s.authSessions[t], Restart(s, t1, t2, leases, index);
      && (t in r.authSessions <==> a.expiresAt > t2 && KeyOf(r, a.entityType, a.entityId).Some?)
      && (t in r.authSessions ==> r.authSessions[t] == a)
  {
  }

  lemma RestartedAlive(s: State, t1: int, t2: int, leases: set<string>, index: map<string, string>, t: EntityType, id: string)
    requires t1 <= t2
    ensures Alive(Restart(s, t1, t2, leases, index), t, id, t2) <==> Alive(s, t, id, t2)
  {
  }

  /** The sessions read back: those of the pruned store that have not run out and whose device came back. */
  lemma RestartPairs(s: State, t1: int, t2: int, leases: set<string>, index: map<string, string>)
    requires t1 <= t2
    ensures var r, p := Restart(s, t1, t2, leases, index), Prune(s, t2);
      r.pairSessions == map k | k in p.pairSessions && p.pairSessions[k].expiresAt > t2 && p.pairSessions[k].deviceId in r.desktops :: p.pairSessions[k]
  {
    hide KeepAuth, RemovedKeys, EntityKey;
  }

  /** Writing out at t1 and reading back at t2 refines pruning at t2: all bindings, the same live entities and auth
      sessions, a subset of the pair sessions, and the claim-token index cut down to that subset. */
  lemma RestartRefinesPrune(s: State, t1: int, t2: int, leases: set<string>, index: map<string, string>)
    requires Inv(s) && t1 <= t2 && Restarts(s, t1, t2, leases, index)
    ensures var r, p := Restart(s, t1, t2, leases, index), Prune(s, t2);
      && r.bindings == p.bindings
      && Prune(r, t2).desktops == p.desktops && Prune(r, t2).mobiles == p.mobiles && Prune(r, t2).authSessions == p.authSessions
      && r.pairSessions == (map k | k in p.pairSessions && p.pairSessions[k].expiresAt > t2 && p.pairSessions[k].deviceId in r.desktops :: p.pairSessions[k])
      && r.claimIndex == map t | t in p.claimIndex && p.claimIndex[t] in r.pairSessions :: p.claimIndex[t]
  {
    assert PairInv(Prune(s, t2).pairSessions, Prune(s, t2).claimIndex, s.bindings, s.issued) by { PruneKeeps(s, t2); }
    RestartLive(s, t1, t2, leases, index);
    RestartAuth(s, t1, t2, leases, index);
    RestartPairs(s, t1, t2, leases, index);
    hide PairInv, Reindexed, RemovedKeys, EntityInv;
    var r, p := Restart(s, t1, t2, leases, index), Prune(s, t2);
    FewerSessions(p.pairSessions, p.claimIndex, p.bindings, p.issued, r.pairSessions, index);
  }

  /** Beyond the second a fresh lease is granted at least, entities and auth sessions are exactly the pruned ones. */
  lemma RestartBeyondFloor(s: State, t1: int, t2: int, leases: set<string>, index: map<string, string>)
    requires Inv(s) && t1 + SECOND <= t2 && Restarts(s, t1, t2, leases, index) && leases <= LeasesAt(Persist(s, t1), t1, t2)
    ensures var r, p := Restart(s, t1, t2, leases, index), Prune(s, t2);
      r.desktops == p.desktops && r.mobiles == p.mobiles && r.authSessions == p.authSessions
  {
    var r, p := Restart(s, t1, t2, leases, index), Prune(s, t2);
    forall t: EntityType, id ensures KeyOf(r, t, id).Some? <==> Alive(s, t, id, t2) {
      LeaseExactly(s, t1, t2, t, id);
      EntityRestarted(s, t1, t2, leases, index, t, id);
    }
    RestartAuth(s, t1, t2, leases, index);
    FloorEntities(s, t1, t2, leases, index);
    AllLive(r, t2);
    hide *;
  }

  lemma FloorEntities(s: State, t1: int, t2: int, leases: set<string>, index: map<string, string>)
    requires forall t: EntityType, id :: KeyOf(Restart(s, t1, t2, leases, index), t, id).Some? <==> Alive(s, t, id, t2)
    ensures var r, p := Restart(s, t1, t2, leases, index), Prune(s, t2); r.desktops == p.desktops && r.mobiles == p.mobiles
    ensures var r := Restart(s, t1, t2, leases, index);
      RemovedKeys(r.desktops, r.mobiles, t2) == {} && forall t :: t in r.authSessions ==> r.authSessions[t].expiresAt > t2
  {
    var r := Restart(s, t1, t2, leases, index);
    RestartWithin(s, t1, t2, leases, index);
    hide Restart, EntityKey, DesktopAlive, MobileAlive, PruneAuth, PrunePairs, KeepChallenges, LapsedTokens;
    forall k ensures k in r.desktops <==> k in s.desktops && DesktopAlive(s.desktops[k], t2) { assert KeyOf(r, DesktopType, k).Some? <==> Alive(s, DesktopType, k, t2); }
    forall k ensures k in r.mobiles <==> k in s.mobiles && MobileAlive(s.mobiles[k], t2) { assert KeyOf(r, MobileType, k).Some? <==> Alive(s, MobileType, k, t2); }
    assert r.desktops == KeepDesktops(s.desktops, t2);
    assert r.mobiles == KeepMobiles(s.mobiles, t2);
    hide KeyOf, Alive;
  }

  lemma AllLive(r: State, now: int)
    requires RemovedKeys(r.desktops, r.mobiles, now) == {} && forall t :: t in r.authSessions ==> r.authSessions[t].expiresAt > now
    ensures Prune(r, now).authSessions == r.authSessions
  {
    hide RemovedKeys;
  }

  /** Within that second a dead entity does come back: last active at 0, written out in its last millisecond, read one later. */
  lemma FloorRevives()
    ensures var d := Desktop("d", "key", "", "", 0, 0, 0, "online");
      var s := EMPTY.(desktops := map["d" := d]);
      var t1, t2 := ENTITY_TTL - 1, ENTITY_TTL;
      Inv(s) && "d" in Restart(s, t1, t2, LeasesAt(Persist(s, t1), t1, t2), map[]).desktops && "d" !in Prune(s, t2).desktops
  {
    var s := EMPTY.(desktops := map["d" := Desktop("d", "key", "", "", 0, 0, 0, "online")]);
    LeaseExactly(s, ENTITY_TTL - 1, ENTITY_TTL, DesktopType, "d");
    assert Alive(s, DesktopType, "d", ENTITY_TTL - 1);
  }
}
