/** The loops that write the store out and read it back, each shown to be the filter its specification names. */
module PairingPersist {
  import opened PairingState
  import opened PairingRestart

  method ActiveDesktops(desktops: map<string, Desktop>, now: int, leases: set<string>) returns (kept: map<string, Desktop>)
    ensures kept == LeasedDesktops(desktops, now, leases)
  {
    kept := map[];
    var todo := desktops.Keys;
    while todo != {}
      invariant todo <= desktops.Keys
      invariant kept == map k | k in desktops && k !in todo && (EntityKey(DesktopType, k) in leases || DesktopAlive(desktops[k], now)) :: desktops[k]
      decreases todo
    {
      var k :| k in todo;
      todo := todo - {k};
      if EntityKey(DesktopType, k) in leases || LastActive(desktops[k].lastSeenAt, desktops[k].updatedAt) > now - ENTITY_TTL {
        kept := kept[k := desktops[k]];
      }
    }
  }

  method ActiveMobiles(mobiles: map<string, Mobile>, now: int, leases: set<string>) returns (kept: map<string, Mobile>)
    ensures kept == LeasedMobiles(mobiles, now, leases)
  {
    kept := map[];
    var todo := mobiles.Keys;
    while todo != {}
      invariant todo <= mobiles.Keys
      invariant kept == map k | k in mobiles && k !in todo && (EntityKey(MobileType, k) in leases || MobileAlive(mobiles[k], now)) :: mobiles[k]
      decreases todo
    {
      var k :| k in todo;
      todo := todo - {k};
      if EntityKey(MobileType, k) in leases || LastActive(mobiles[k].lastSeenAt, mobiles[k].updatedAt) > now - ENTITY_TTL {
        kept := kept[k := mobiles[k]];
      }
    }
  }

  method FilterAuth(auth: map<string, AuthSession>, desktops: map<string, Desktop>, mobiles: map<string, Mobile>, now: int)
    returns (kept: map<string, AuthSession>)
    ensures kept == KeepAuth(auth, desktops, mobiles, now)
  {
    kept := map[];
    var todo := auth.Keys;
    while todo != {}
      invariant todo <= auth.Keys
      invariant kept == map t | t in auth && t !in todo && auth[t].expiresAt > now && HasEntity(desktops, mobiles, auth[t].entityType, auth[t].entityId) :: auth[t]
      decreases todo
    {
      var t :| t in todo;
      todo := todo - {t};
      if auth[t].expiresAt > now && HasEntity(desktops, mobiles, auth[t].entityType, auth[t].entityId) {
        kept := kept[t := auth[t]];
      }
    }
  }

  /** Filtering the sessions and, as the reader does, indexing the open ones on the way. */
  method FilterPairs(sessions: map<string, PairSession>, desktops: map<string, Desktop>, now: int)
    returns (kept: map<string, PairSession>, index: map<string, string>)
    ensures kept == KeepPairs(sessions, desktops, now) && Reindexed(kept, index)
  {
    kept, index := map[], map[];
    var todo := sessions.Keys;
    while todo != {}
      invariant todo <= sessions.Keys
      invariant kept == map k | k in sessions && k !in todo && sessions[k].expiresAt > now && sessions[k].deviceId in desktops :: sessions[k]
      invariant Reindexed(kept, index)
      decreases todo
    {
      var k :| k in todo;
      todo := todo - {k};
      if sessions[k].expiresAt > now && sessions[k].deviceId in desktops {
        kept := kept[k := sessions[k]];
        if sessions[k].claimToken != "" && (sessions[k].status == Pending || sessions[k].status == Claimed) {
          index := index[sessions[k].claimToken := k];
        }
      }
    }
  }

  /** The fallback of `applySnapshot` for a snapshot without an index. */
  method IndexSessions(sessions: map<string, PairSession>) returns (index: map<string, string>)
    ensures Reindexed(sessions, index)
  {
    index := map[];
    var todo := sessions.Keys;
    while todo != {}
      invariant todo <= sessions.Keys
      invariant forall t :: t in index ==> index[t] in sessions && Indexable(sessions[index[t]]) && sessions[index[t]].claimToken == t
      invariant forall k :: k in sessions && k !in todo && Indexable(sessions[k]) ==> sessions[k].claimToken in index
      decreases todo
    {
      var k :| k in todo;
      todo := todo - {k};
      if sessions[k].claimToken != "" && (sessions[k].status == Pending || sessions[k].status == Claimed) {
        index := index[sessions[k].claimToken := k];
      }
    }
  }

  /** The v2 part of `persistWithTimeout`. */
  method WriteOut(s: State, now: int) returns (snap: Snapshot)
    ensures snap == Persist(s, now)
  {
    var desktops := ActiveDesktops(s.desktops, now, {});
    var mobiles := ActiveMobiles(s.mobiles, now, {});
    var auth := FilterAuth(s.authSessions, desktops, mobiles, now);
    var sessions, _ := FilterPairs(s.pairSessions, desktops, now);
    assert desktops == KeepDesktops(s.desktops, now) && mobiles == KeepMobiles(s.mobiles, now);
    hide KeepAuth, KeepPairs, KeepDesktops, KeepMobiles, LeasedDesktops, LeasedMobiles;
    snap := Snapshot(desktops, mobiles, auth, sessions, s.bindings);
  }

  /** The v2 part of `hydrateFromRedis` (the ids issued are no data, so none are read), with the fallback of `applySnapshot` for an empty index. */
  method ReadBack(snap: Snapshot, now: int, leases: set<string>) returns (s: State)
    ensures s == Hydrate(snap, now, leases, s.claimIndex, {}) && Reindexed(s.pairSessions, s.claimIndex)
  {
    var desktops := ActiveDesktops(snap.desktops, now, leases);
    var mobiles := ActiveMobiles(snap.mobiles, now, leases);
    var auth := FilterAuth(snap.authSessions, desktops, mobiles, now);
    var sessions, built := FilterPairs(snap.pairSessions, desktops, now);
    if |built| == 0 {
      built := IndexSessions(sessions);
    }
    hide KeepAuth, KeepPairs, LeasedDesktops, LeasedMobiles, Reindexed;
    s := State(desktops, mobiles, map[], auth, sessions, built, snap.bindings, map[], {});
  }
}
