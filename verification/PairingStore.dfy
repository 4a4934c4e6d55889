/** The store itself: maps updated in place, each operation shown to do what its specification on values says. */
module PairingStore {
  import opened Helpers
  import opened PairingState
  import opened PairingInvariant
  import opened PairingFrames

  // ---------- Halfway through a loop ----------

  /** The sessions with those still to visit left as they were. */
  ghost function HalfPruned(sessions: map<string, PairSession>, todo: set<string>, now: int): map<string, PairSession> {
    map k | k in sessions :: if k in todo then sessions[k] else PrunePair(sessions[k], now)
  }

  ghost function HalfDropped(sessions: map<string, PairSession>, todo: set<string>, now: int): set<string> {
    set k | k in sessions && k !in todo && Lapses(sessions[k], now) :: sessions[k].claimToken
  }

  lemma HalfStep(sessions: map<string, PairSession>, todo: set<string>, k: string, now: int)
    requires k in sessions && k in todo
    ensures HalfPruned(sessions, todo, now).Keys == sessions.Keys && HalfPruned(sessions, todo, now)[k] == sessions[k]
    ensures HalfPruned(sessions, todo - {k}, now) == HalfPruned(sessions, todo, now)[k := PrunePair(sessions[k], now)]
    ensures HalfPruned(sessions, todo - {k}, now) != sessions <==> HalfPruned(sessions, todo, now) != sessions || Lapses(sessions[k], now)
    ensures HalfDropped(sessions, todo - {k}, now)
         == HalfDropped(sessions, todo, now) + if Lapses(sessions[k], now) then {sessions[k].claimToken} else {}
  {
    var a, b := HalfPruned(sessions, todo, now), HalfPruned(sessions, todo - {k}, now);
    assert b == a[k := PrunePair(sessions[k], now)];
    assert b[k] == sessions[k] <==> !Lapses(sessions[k], now);
    assert !Lapses(sessions[k], now) ==> a == b;
    if j :| j in sessions && a[j] != sessions[j] { assert b[j] == a[j]; }
  }

  lemma HalfEnds(sessions: map<string, PairSession>, now: int)
    ensures HalfPruned(sessions, sessions.Keys, now) == sessions && HalfDropped(sessions, sessions.Keys, now) == {}
    ensures HalfPruned(sessions, {}, now) == PrunePairs(sessions, now) && HalfDropped(sessions, {}, now) == LapsedTokens(sessions, now)
  {
  }

  ghost function Unexpired(auth: map<string, AuthSession>, now: int): map<string, AuthSession> {
    map t | t in auth && auth[t].expiresAt > now :: auth[t]
  }

  ghost function NotRemoved(auth: map<string, AuthSession>, removed: set<string>): map<string, AuthSession> {
    map t | t in auth && EntityKey(auth[t].entityType, auth[t].entityId) !in removed :: auth[t]
  }

  ghost function DeadDesktops(desktops: map<string, Desktop>, now: int): set<string> {
    set k | k in desktops && !DesktopAlive(desktops[k], now) :: EntityKey(DesktopType, k)
  }

  ghost function DeadMobiles(mobiles: map<string, Mobile>, now: int): set<string> {
    set k | k in mobiles && !MobileAlive(mobiles[k], now) :: EntityKey(MobileType, k)
  }

  lemma AuthTwoLoops(auth: map<string, AuthSession>, removed: set<string>, now: int)
    ensures var half := Unexpired(auth, now); var end := NotRemoved(half, removed);
      end == PruneAuth(auth, removed, now) && (end != auth <==> half != auth || end != half)
  {
    hide EntityKey;
    var half := Unexpired(auth, now);
    var end := NotRemoved(half, removed);
    if end == auth {
      assert forall t :: t in auth ==> t in half;
    }
  }

  lemma RemovedIs(desktops: map<string, Desktop>, mobiles: map<string, Mobile>, now: int)
    ensures DeadDesktops(desktops, now) + DeadMobiles(mobiles, now) == RemovedKeys(desktops, mobiles, now)
  {
    hide DesktopAlive, MobileAlive, EntityKey;
  }

  lemma PrunedIs(s: State, s1: State, now: int)
    requires s1.challenges == KeepChallenges(s.challenges, now) && s1.desktops == KeepDesktops(s.desktops, now)
    requires s1.mobiles == KeepMobiles(s.mobiles, now) && s1.pairSessions == PrunePairs(s.pairSessions, now)
    requires s1.authSessions == PruneAuth(s.authSessions, RemovedKeys(s.desktops, s.mobiles, now), now)
    requires s1.claimIndex == s.claimIndex - LapsedTokens(s.pairSessions, now)
    requires s1.queues == s.queues - RemovedKeys(s.desktops, s.mobiles, now)
    requires s1.bindings == s.bindings && s1.issued == s.issued
    ensures s1 == Prune(s, now)
  {
    hide RemovedKeys, KeepChallenges, KeepDesktops, KeepMobiles, PrunePairs, PruneAuth, LapsedTokens;
  }

  lemma SameMaps(s: State, s1: State)
    requires s1.bindings == s.bindings && s1.issued == s.issued
    requires s1.pairSessions == s.pairSessions ==> s1.claimIndex == s.claimIndex
    ensures s1 != s <==> (s1.challenges != s.challenges || s1.authSessions != s.authSessions || s1.pairSessions != s.pairSessions
      || s1.desktops != s.desktops || s1.mobiles != s.mobiles || s1.queues != s.queues)
  {
  }

  class V2Store {
    var desktops: map<string, Desktop>
    var mobiles: map<string, Mobile>
    var challenges: map<string, Challenge>
    var authSessions: map<string, AuthSession>
    var pairSessions: map<string, PairSession>
    var claimIndex: map<string, string>
    var bindings: map<string, Binding>
    var queues: map<string, seq<Event>>
    ghost var issued: set<string>

    ghost function Abs(): State
      reads this
    {
      State(desktops, mobiles, challenges, authSessions, pairSessions, claimIndex, bindings, queues, issued)
    }

    constructor ()
      ensures Abs() == EMPTY && Inv(Abs())
    {
      desktops, mobiles, challenges, authSessions := map[], map[], map[], map[];
      pairSessions, claimIndex, bindings, queues, issued := map[], map[], map[], map[], {};
      new;
      EmptyInv();
    }

    // ---------- pruneExpiredLocked, one loop at a time ----------

    method PruneChallenges(now: int) returns (changed: bool)
      modifies this`challenges
      ensures challenges == KeepChallenges(old(challenges), now)
      ensures changed <==> challenges != old(challenges)
    {
      changed := false;
      var todo := challenges.Keys;
      while todo != {}
        invariant todo <= old(challenges).Keys
        invariant challenges == map k | k in old(challenges) && (k in todo || old(challenges)[k].expiresAt > now) :: old(challenges)[k]
        invariant changed <==> challenges != old(challenges)
        decreases todo
      {
        var k :| k in todo;
        todo := todo - {k};
        if challenges[k].expiresAt <= now {
          challenges := challenges - {k};
          changed := true;
        }
      }
    }

    method PruneExpiredAuth(now: int) returns (changed: bool)
      modifies this`authSessions
      ensures authSessions == Unexpired(old(authSessions), now)
      ensures changed <==> authSessions != old(authSessions)
    {
      changed := false;
      var todo := authSessions.Keys;
      while todo != {}
        invariant todo <= old(authSessions).Keys
        invariant authSessions == map k | k in old(authSessions) && (k in todo || old(authSessions)[k].expiresAt > now) :: old(authSessions)[k]
        invariant changed <==> authSessions != old(authSessions)
        decreases todo
      {
        var k :| k in todo;
        todo := todo - {k};
        if authSessions[k].expiresAt <= now {
          authSessions := authSessions - {k};
          changed := true;
        }
      }
    }

    method PruneRemovedAuth(removed: set<string>) returns (changed: bool)
      modifies this`authSessions
      ensures authSessions == NotRemoved(old(authSessions), removed)
      ensures changed <==> authSessions != old(authSessions)
    {
      changed := false;
      var todo := authSessions.Keys;
      while todo != {}
        invariant todo <= old(authSessions).Keys
        invariant authSessions == map k | k in old(authSessions)
          && (k in todo || EntityKey(old(authSessions)[k].entityType, old(authSessions)[k].entityId) !in removed) :: old(authSessions)[k]
        invariant changed <==> authSessions != old(authSessions)
        decreases todo
      {
        var k :| k in todo;
        todo := todo - {k};
        if EntityKey(authSessions[k].entityType, authSessions[k].entityId) in removed {
          authSessions := authSessions - {k};
          changed := true;
        }
      }
    }

    method PrunePairSessions(now: int) returns (changed: bool)
      modifies this`pairSessions, this`claimIndex
      ensures pairSessions == PrunePairs(old(pairSessions), now)
      ensures claimIndex == old(claimIndex) - LapsedTokens(old(pairSessions), now)
      ensures changed <==> pairSessions != old(pairSessions)
      ensures pairSessions == old(pairSessions) ==> claimIndex == old(claimIndex)
    {
      changed := false;
      ghost var was := pairSessions;
      var todo := pairSessions.Keys;
      HalfEnds(was, now);
      hide HalfPruned, HalfDropped, LapsedTokens, PrunePairs;
      while todo != {}
        invariant todo <= was.Keys
        invariant pairSessions == HalfPruned(was, todo, now)
        invariant claimIndex == old(claimIndex) - HalfDropped(was, todo, now)
        invariant !changed ==> HalfDropped(was, todo, now) == {}
        invariant changed <==> pairSessions != old(pairSessions)
        decreases todo
      {
        var k :| k in todo;
        HalfStep(was, todo, k, now);
        var p := pairSessions[k];
        if p.expiresAt <= now && (p.status == Pending || p.status == Claimed) {
          pairSessions := pairSessions[k := p.(status := Expired, updatedAt := now)];
          claimIndex := claimIndex - {p.claimToken};
          changed := true;
        }
        assert Lapses(p, now) <==> p.expiresAt <= now && (p.status == Pending || p.status == Claimed);
        hide Lapses;
        todo := todo - {k};
      }
    }

    method PruneDesktops(now: int) returns (changed: bool, removed: set<string>)
      modifies this`desktops
      ensures desktops == KeepDesktops(old(desktops), now)
      ensures removed == DeadDesktops(old(desktops), now)
      ensures changed <==> desktops != old(desktops)
    {
      changed, removed := false, {};
      var todo := desktops.Keys;
      while todo != {}
        invariant todo <= old(desktops).Keys
        invariant desktops == map k | k in old(desktops) && (k in todo || DesktopAlive(old(desktops)[k], now)) :: old(desktops)[k]
        invariant removed == set k | k in old(desktops) && k !in todo && !DesktopAlive(old(desktops)[k], now) :: EntityKey(DesktopType, k)
        invariant changed <==> desktops != old(desktops)
        decreases todo
      {
        var k :| k in todo;
        todo := todo - {k};
        if LastActive(desktops[k].lastSeenAt, desktops[k].updatedAt) <= now - ENTITY_TTL {
          desktops := desktops - {k};
          removed := removed + {EntityKey(DesktopType, k)};
          changed := true;
        }
      }
    }

    method PruneMobiles(now: int) returns (changed: bool, removed: set<string>)
      modifies this`mobiles
      ensures mobiles == KeepMobiles(old(mobiles), now)
      ensures removed == DeadMobiles(old(mobiles), now)
      ensures changed <==> mobiles != old(mobiles)
    {
      changed, removed := false, {};
      var todo := mobiles.Keys;
      while todo != {}
        invariant todo <= old(mobiles).Keys
        invariant mobiles == map k | k in old(mobiles) && (k in todo || MobileAlive(old(mobiles)[k], now)) :: old(mobiles)[k]
        invariant removed == set k | k in old(mobiles) && k !in todo && !MobileAlive(old(mobiles)[k], now) :: EntityKey(MobileType, k)
        invariant changed <==> mobiles != old(mobiles)
        decreases todo
      {
        var k :| k in todo;
        todo := todo - {k};
        if LastActive(mobiles[k].lastSeenAt, mobiles[k].updatedAt) <= now - ENTITY_TTL {
          mobiles := mobiles - {k};
          removed := removed + {EntityKey(MobileType, k)};
          changed := true;
        }
      }
    }

    method PruneQueues(removed: set<string>) returns (changed: bool)
      modifies this`queues
      ensures queues == old(queues) - removed
      ensures changed <==> queues != old(queues)
    {
      changed := false;
      var todo := queues.Keys;
      while todo != {}
        invariant todo <= old(queues).Keys
        invariant queues == map k | k in old(queues) && (k in todo || k !in removed) :: old(queues)[k]
        invariant changed <==> queues != old(queues)
        decreases todo
      {
        var k :| k in todo;
        todo := todo - {k};
        if k in removed {
          queues := queues - {k};
          changed := true;
        }
      }
    }

    /** The first three loops: what runs out by its own time. */
    method PruneTimed(now: int) returns (changed: bool)
      modifies this`challenges, this`authSessions, this`pairSessions, this`claimIndex
      ensures challenges == KeepChallenges(old(challenges), now) && authSessions == Unexpired(old(authSessions), now)
      ensures pairSessions == PrunePairs(old(pairSessions), now)
      ensures claimIndex == old(claimIndex) - LapsedTokens(old(pairSessions), now)
      ensures pairSessions == old(pairSessions) ==> claimIndex == old(claimIndex)
      ensures changed <==> challenges != old(challenges) || authSessions != old(authSessions) || pairSessions != old(pairSessions)
    {
      hide KeepChallenges, PrunePairs, LapsedTokens, Unexpired;
      var c1 := PruneChallenges(now);
      var c2 := PruneExpiredAuth(now);
      var c3 := PrunePairSessions(now);
      changed := c1 || c2 || c3;
    }

    /** The last four: inactive entities, and what was kept for them. */
    method PruneInactive(now: int) returns (changed: bool)
      modifies this`desktops, this`mobiles, this`authSessions, this`queues
      ensures desktops == KeepDesktops(old(desktops), now) && mobiles == KeepMobiles(old(mobiles), now)
      ensures var removed := RemovedKeys(old(desktops), old(mobiles), now);
        authSessions == NotRemoved(old(authSessions), removed) && queues == old(queues) - removed
      ensures changed <==> desktops != old(desktops) || mobiles != old(mobiles) || authSessions != old(authSessions) || queues != old(queues)
    {
      hide RemovedKeys, KeepDesktops, KeepMobiles, NotRemoved, DeadDesktops, DeadMobiles;
      RemovedIs(desktops, mobiles, now);
      var c4, removedDesktops := PruneDesktops(now);
      var c5, removedMobiles := PruneMobiles(now);
      var removed := removedDesktops + removedMobiles;
      var c6 := PruneRemovedAuth(removed);
      var c7 := PruneQueues(removed);
      changed := c4 || c5 || c6 || c7;
    }

    /** `pruneExpiredLocked`: the report is exact, although the claim-token index is not looked at for it. */
    method PruneExpired(now: int) returns (changed: bool)
      modifies this
      ensures Abs() == Prune(old(Abs()), now)
      ensures changed <==> Abs() != old(Abs())
    {
      hide Prune, RemovedKeys, KeepChallenges, KeepDesktops, KeepMobiles, PrunePairs, PruneAuth, LapsedTokens, Unexpired, NotRemoved;
      ghost var was := Abs();
      AuthTwoLoops(authSessions, RemovedKeys(desktops, mobiles, now), now);
      var c1 := PruneTimed(now);
      var c2 := PruneInactive(now);
      changed := c1 || c2;
      PrunedIs(was, Abs(), now);
      SameMaps(was, Abs());
    }

    // ---------- Challenges, login, authentication ----------

    method CreateChallenge(now: int, req: ChallengeRequest, challengeId: string, nonce: string) returns (r: Result<Challenge>)
      modifies this
      ensures (Abs(), r) == PairingState.CreateChallenge(old(Abs()), now, req, challengeId, nonce)
    {
      hide Prune, TrimSpace, ParseEntityType;
      var entityType := ParseEntityType(req.entityType);
      if entityType == None { return Err(Validation); }
      var entityId := TrimSpace(req.entityId);
      if entityId == "" { return Err(Validation); }
      if req.publicKey == None { return Err(Validation); }
      var challenge := Challenge(challengeId, entityType.value, entityId, req.publicKey.value, nonce, now, now + CHALLENGE_TTL);
      var _ := PruneExpired(now);
      challenges := challenges[challenge.challengeId := challenge];
      issued := issued + {challengeId, nonce};
      return Ok(challenge);
    }

    method Login(now: int, req: LoginRequest, sessionId: string, token: string) returns (r: Result<AuthSession>)
      modifies this
      ensures (Abs(), r) == PairingState.Login(old(Abs()), now, req, sessionId, token)
    {
      hide Prune, TrimSpace, ParseEntityType, LoginOn;
      var entityType := ParseEntityType(req.entityType);
      if entityType == None { return Err(Validation); }
      var entityId := TrimSpace(req.entityId);
      if entityId == "" { return Err(Validation); }
      var challengeId := TrimSpace(req.challengeId);
      if challengeId == "" { return Err(Validation); }
      if req.publicKey == None || req.signature == None { return Err(Validation); }
      var _ := PruneExpired(now);
      r := LoginChecked(now, entityType.value, entityId, challengeId, req.publicKey.value, req.signature.value, sessionId, token);
    }

    /** `login` from the challenge lookup on. */
    method LoginChecked(now: int, entityType: EntityType, entityId: string, challengeId: string, publicKey: string, verified: bool,
                        sessionId: string, token: string) returns (r: Result<AuthSession>)
      modifies this
      ensures (Abs(), r) == LoginOn(old(Abs()), now, entityType, entityId, challengeId, publicKey, verified, sessionId, token)
    {
      hide KeyOf, WithEntity;
      if challengeId !in challenges { return Err(NotFound); }
      var challenge := challenges[challengeId];
      if challenge.expiresAt <= now {
        challenges := challenges - {challengeId};
        return Err(ExpiredError);
      }
      if challenge.entityType != entityType || challenge.entityId != entityId || challenge.publicKey != publicKey { return Err(Forbidden); }
      if !verified { return Err(Unauthorized); }
      var stored := StoreEntity(now, entityType, entityId, publicKey);
      if !stored { return Err(Forbidden); }
      challenges := challenges - {challengeId};
      var session := AuthSession(sessionId, token, entityType, entityId, publicKey, now, now, now + AUTH_TTL);
      authSessions := authSessions[session.token := session];
      issued := issued + {sessionId, token};
      return Ok(session);
    }

    /** Creates the entity or refreshes it, unless it is stored with another key. */
    method StoreEntity(now: int, entityType: EntityType, entityId: string, publicKey: string) returns (stored: bool)
      modifies this
      ensures stored <==> KeyOf(old(Abs()), entityType, entityId) in {None, Some(publicKey)}
      ensures Abs() == if stored then WithEntity(old(Abs()), now, entityType, entityId, publicKey) else old(Abs())
    {
      match entityType {
        case DesktopType =>
          var desktop := Desktop(entityId, publicKey, "", "", now, now, now, "offline");
          if entityId in desktops {
            desktop := desktops[entityId];
            if desktop.publicKey != publicKey { return false; }
            desktop := desktop.(updatedAt := now);
            if desktop.lastSeenAt <= 0 { desktop := desktop.(lastSeenAt := now); }
          }
          desktops := desktops[entityId := desktop];
        case MobileType =>
          var mobile := Mobile(entityId, "", publicKey, "", "", now, now, now, "online");
          if entityId in mobiles {
            mobile := mobiles[entityId];
            if mobile.publicKey != publicKey { return false; }
            mobile := mobile.(updatedAt := now, lastSeenAt := now, presence := "online");
          }
          mobiles := mobiles[entityId := mobile];
      }
      return true;
    }

    method Authenticate(now: int, token: string) returns (r: Result<AuthSession>)
      modifies this
      ensures (Abs(), r) == PairingState.Authenticate(old(Abs()), now, token)
    {
      hide Prune, TrimSpace;
      var normalized := TrimSpace(token);
      if normalized == "" { return Err(Unauthorized); }
      var _ := PruneExpired(now);
      ghost var was := Abs();
      if normalized !in authSessions { return Err(Unauthorized); }
      var session := authSessions[normalized];
      if session.expiresAt <= now {
        authSessions := authSessions - {normalized};
        return Err(Unauthorized);
      }
      session := session.(updatedAt := now, expiresAt := now + AUTH_TTL);
      authSessions := authSessions[normalized := session];
      ghost var half := Abs();
      match session.entityType {
        case DesktopType =>
          if session.entityId !in desktops {
            desktops := desktops[session.entityId := Desktop(session.entityId, session.publicKey, "", "", session.createdAt, now, now, "offline")];
          }
        case MobileType =>
          if session.entityId !in mobiles {
            mobiles := mobiles[session.entityId := Mobile(session.entityId, "", session.publicKey, "", "", session.createdAt, now, now, "online")];
          }
      }
      assert Abs() == Restored(half, now, session);
      hide Restored;
      return Ok(session);
    }

    method Presence(now: int, who: Principal, announce: bool, platform: string, appVersion: string) returns (r: Result<()>)
      modifies this
      ensures (Abs(), r) == PairingState.Presence(old(Abs()), now, who, announce, platform, appVersion)
    {
      hide Prune, TrimSpace;
      var _ := PruneExpired(now);
      var p, v := TrimSpace(platform), TrimSpace(appVersion);
      match who.entityType {
        case DesktopType =>
          if who.entityId !in desktops { return Err(NotFound); }
          var desktop := desktops[who.entityId];
          if announce || p != "" { desktop := desktop.(platform := p); }
          if announce || v != "" { desktop := desktop.(appVersion := v); }
          desktop := desktop.(lastSeenAt := now, updatedAt := now, presence := "online");
          assert desktop == SeenDesktop(desktops[who.entityId], now, announce, p, v);
          desktops := desktops[desktop.deviceId := desktop];
        case MobileType =>
          if who.entityId !in mobiles { return Err(NotFound); }
          var mobile := mobiles[who.entityId];
          if p != "" { mobile := mobile.(platform := p); }
          if v != "" { mobile := mobile.(appVersion := v); }
          mobile := mobile.(lastSeenAt := now, updatedAt := now, presence := "online");
          assert mobile == SeenMobile(mobiles[who.entityId], now, p, v);
          mobiles := mobiles[mobile.mobileId := mobile];
      }
      hide SeenDesktop, SeenMobile;
      return Ok(());
    }

    // ---------- Pair sessions ----------

    method CreatePairSession(now: int, who: Principal, ttlSeconds: int, pairSessionId: string, claimToken: string, nonce: string)
      returns (r: Result<PairSession>)
      modifies this
      ensures (Abs(), r) == PairingState.CreatePairSession(old(Abs()), now, who, ttlSeconds, pairSessionId, claimToken, nonce)
    {
      hide Prune;
      if who.entityType != DesktopType { return Err(Forbidden); }
      var ttl := ttlSeconds;
      if ttl == 0 { ttl := PAIR_DEFAULT_TTL; }
      ttl := ClampInt(ttl, PAIR_MIN_TTL, PAIR_MAX_TTL);
      var _ := PruneExpired(now);
      if who.entityId !in desktops { return Err(NotFound); }
      var desktop := desktops[who.entityId];
      var session := PairSession(pairSessionId, desktop.deviceId, desktop.publicKey, claimToken, nonce, Pending, now, now,
                                 now + ttl * 1000, None, None);
      pairSessions := pairSessions[session.pairSessionId := session];
      claimIndex := claimIndex[session.claimToken := session.pairSessionId];
      issued := issued + {pairSessionId, claimToken, nonce};
      return Ok(session);
    }

    method DeletePairSession(now: int, who: Principal, rawId: string) returns (r: Result<PairSession>)
      modifies this
      ensures (Abs(), r) == PairingState.DeletePairSession(old(Abs()), now, who, rawId)
    {
      hide Prune, TrimSpace;
      if who.entityType != DesktopType { return Err(Forbidden); }
      var id := TrimSpace(rawId);
      if id == "" { return Err(Validation); }
      var _ := PruneExpired(now);
      if id !in pairSessions { return Err(NotFound); }
      var session := pairSessions[id];
      if session.deviceId != who.entityId { return Err(Forbidden); }
      if session.bindingId != None || session.status != Pending { return Err(InvalidState); }
      pairSessions := pairSessions - {id};
      claimIndex := claimIndex - {session.claimToken};
      return Ok(session);
    }

    /** `findBindingLocked`: the first entry met, in an order the language leaves open. */
    method FindBinding(deviceId: string, mobileId: string) returns (found: Option<Binding>)
      ensures Found(bindings, deviceId, mobileId, found)
    {
      var todo := bindings.Keys;
      while todo != {}
        invariant todo <= bindings.Keys
        invariant forall k :: k in bindings && k !in todo ==> !Binds(bindings[k], deviceId, mobileId)
        decreases todo
      {
        var k :| k in todo;
        todo := todo - {k};
        if Binds(bindings[k], deviceId, mobileId) { return Some(bindings[k]); }
      }
      return None;
    }

    /** The first half of `claimPair`, up to the search for a binding. */
    method LookUpClaim(now: int, mobileId: string, token: string, mobileName: string) returns (r: Result<(PairSession, Mobile)>)
      modifies this
      ensures Abs() == ClaimLookup(old(Abs()), now, mobileId, token, mobileName)
      ensures match ClaimableSession(old(Abs()), now, mobileId, token)
        case Err(e) => r == Err(e)
        case Ok(p) => mobileId in old(mobiles) && r == Ok((p, ClaimingMobile(old(mobiles)[mobileId], now, mobileName)))
    {
      if token !in claimIndex { return Err(NotFound); }
      var pairSessionId := claimIndex[token];
      if pairSessionId !in pairSessions { return Err(NotFound); }
      var session := pairSessions[pairSessionId];
      if session.expiresAt <= now {
        pairSessions := pairSessions[pairSessionId := session.(status := Expired, updatedAt := now)];
        claimIndex := claimIndex - {token};
        return Err(ExpiredError);
      }
      if session.status != Pending && session.status != Claimed { return Err(InvalidState); }
      if session.status == Claimed && session.claimedMobileId != None && session.claimedMobileId != Some(mobileId) { return Err(AlreadyClaimed); }
      if mobileId !in mobiles { return Err(NotFound); }
      var mobile := mobiles[mobileId];
      if mobileName != "" {
        mobile := mobile.(mobileName := mobileName, updatedAt := now);
        mobiles := mobiles[mobile.mobileId := mobile];
      }
      return Ok((session, mobile));
    }

    method ClaimPair(now: int, who: Principal, rawToken: string, mobileName: string, freshId: string)
      returns (r: Result<(PairSession, Binding)>, ghost found: Option<Binding>)
      modifies this
      ensures who.entityType == MobileType && TrimSpace(rawToken) != "" ==> Answers(Prune(old(Abs()), now), now, who.entityId, TrimSpace(rawToken), found)
      ensures (Abs(), r) == PairingState.ClaimPair(old(Abs()), now, who, rawToken, mobileName, found, freshId)
    {
      hide Prune, TrimSpace, ClaimableSession, ClaimLookup, Found;
      found := None;
      if who.entityType != MobileType { return Err(Forbidden), None; }
      var token := TrimSpace(rawToken);
      if token == "" { return Err(Validation), None; }
      var _ := PruneExpired(now);
      ghost var was := Abs();
      var claim := LookUpClaim(now, who.entityId, token, mobileName);
      LookupBindings(was, now, who.entityId, token, mobileName);
      if claim.Err? { return Err(claim.error), None; }
      var (session, mobile) := claim.value;
      var existing := FindBinding(session.deviceId, mobile.mobileId);
      found := existing;
      if existing.Some? && existing.value.trust == ActiveTrust { return Err(InvalidState), found; }
      var binding;
      if existing.Some? && existing.value.trust == PendingTrust {
        binding := existing.value.(pairSessionId := session.pairSessionId, mobilePublicKey := mobile.publicKey,
                                   mobileName := mobile.mobileName, devicePublicKey := session.devicePublicKey, updatedAt := now);
      } else {
        binding := NewBinding(session, mobile, now, freshId);
      }
      assert binding == ClaimBinding(existing, session, mobile, now, freshId);
      hide ClaimBinding, NewBinding;
      session := session.(status := Claimed, updatedAt := now, claimedMobileId := Some(mobile.mobileId), bindingId := Some(binding.bindingId));
      bindings := bindings[binding.bindingId := binding];
      pairSessions := pairSessions[session.pairSessionId := session];
      issued := issued + {freshId};
      return Ok((session, binding)), found;
    }

    method ApproveBinding(now: int, who: Principal, rawId: string) returns (r: Result<Binding>)
      modifies this
      ensures (Abs(), r) == PairingState.ApproveBinding(old(Abs()), now, who, rawId)
    {
      hide Prune, TrimSpace;
      if who.entityType != DesktopType { return Err(Forbidden); }
      var id := TrimSpace(rawId);
      if id == "" { return Err(Validation); }
      var _ := PruneExpired(now);
      if id !in bindings { return Err(NotFound); }
      var binding := bindings[id];
      if binding.deviceId != who.entityId { return Err(Forbidden); }
      if binding.trust != PendingTrust { return Err(InvalidState); }
      binding := binding.(trust := ActiveTrust, approvedAt := Some(now), updatedAt := now);
      bindings := bindings[binding.bindingId := binding];
      if binding.pairSessionId in pairSessions {
        var session := pairSessions[binding.pairSessionId];
        pairSessions := pairSessions[session.pairSessionId := session.(status := Approved, updatedAt := now)];
        claimIndex := claimIndex - {session.claimToken};
      }
      return Ok(binding);
    }

    // ---------- Who may signal whom ----------

    method HasActiveBinding(deviceId: string, mobileId: string) returns (yes: bool)
      ensures yes == HasActive(bindings, deviceId, mobileId)
    {
      var todo := bindings.Keys;
      while todo != {}
        invariant todo <= bindings.Keys
        invariant forall k :: k in bindings && k !in todo ==> !Pairs(bindings[k], deviceId, mobileId)
        decreases todo
      {
        var k :| k in todo;
        todo := todo - {k};
        if Pairs(bindings[k], deviceId, mobileId) { return true; }
      }
      return false;
    }

    method AuthorizeSignalSend(who: Principal, rawFromType: string, rawFromId: string, rawToType: string, rawToId: string) returns (r: Result<()>)
      ensures r == AuthorizeSend(Abs(), who, rawFromType, rawFromId, rawToType, rawToId)
    {
      hide TrimSpace, HasActive;
      var fromType, fromId, toType, toId := TrimSpace(rawFromType), TrimSpace(rawFromId), TrimSpace(rawToType), TrimSpace(rawToId);
      if fromType == "" || fromId == "" || toType == "" || toId == "" { return Err(Validation); }
      match who.entityType {
        case DesktopType =>
          if fromType != "desktop" || fromId != who.entityId { return Err(Forbidden); }
          if toType != "mobile" { return Err(Forbidden); }
          var bound := HasActiveBinding(who.entityId, toId);
          if !bound { return Err(Forbidden); }
        case MobileType =>
          if fromType != "mobile" || fromId != who.entityId { return Err(Forbidden); }
          if toType != "desktop" { return Err(Forbidden); }
          var bound := HasActiveBinding(toId, who.entityId);
          if !bound { return Err(Forbidden); }
      }
      return Ok(());
    }
  }
}
