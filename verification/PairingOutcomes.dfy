/** What each operation of the control plane answers and leaves behind, told from the fields of the store and the request. */
module PairingOutcomes {
  import opened Helpers
  import opened PairingState
  import opened PairingInvariant

  // ---------- Pruning ----------

  /** Neither seen nor updated in the last 15 minutes. */
  predicate Idle(lastSeenAt: int, updatedAt: int, now: int) {
    lastSeenAt <= now - 900_000 && updatedAt <= now - 900_000
  }

  /** The entity is stored and idle. */
  predicate GoneIdle(s: State, t: EntityType, id: string, now: int) {
    match t
    case DesktopType => id in s.desktops && Idle(s.desktops[id].lastSeenAt, s.desktops[id].updatedAt, now)
    case MobileType => id in s.mobiles && Idle(s.mobiles[id].lastSeenAt, s.mobiles[id].updatedAt, now)
  }

  /** A prune drops exactly the idle entities and changes no other. */
  lemma PrunedEntities(s: State, now: int)
    ensures var p := Prune(s, now);
      && (forall k :: k in p.desktops <==> k in s.desktops && !GoneIdle(s, DesktopType, k, now))
      && (forall k :: k in p.mobiles <==> k in s.mobiles && !GoneIdle(s, MobileType, k, now))
      && (forall k :: k in p.desktops ==> p.desktops[k] == s.desktops[k]) && (forall k :: k in p.mobiles ==> p.mobiles[k] == s.mobiles[k])
  {
    hide RemovedKeys, LapsedTokens, PrunePairs, PruneAuth, KeepChallenges;
  }

  /** It drops exactly the expired challenges, and the auth sessions that are expired or whose entity it drops. */
  lemma PrunedLogins(s: State, now: int)
    ensures var p := Prune(s, now);
      && (forall k :: k in p.challenges <==> k in s.challenges && s.challenges[k].expiresAt > now)
      && (forall k :: k in p.challenges ==> p.challenges[k] == s.challenges[k])
      && (forall t :: t in p.authSessions <==>
            t in s.authSessions && s.authSessions[t].expiresAt > now && !GoneIdle(s, s.authSessions[t].entityType, s.authSessions[t].entityId, now))
      && (forall t :: t in p.authSessions ==> p.authSessions[t] == s.authSessions[t])
  {
    forall t | t in s.authSessions
      ensures t in Prune(s, now).authSessions <==>
        s.authSessions[t].expiresAt > now && !GoneIdle(s, s.authSessions[t].entityType, s.authSessions[t].entityId, now)
    {
      RemovedExactly(s, now, s.authSessions[t].entityType, s.authSessions[t].entityId);
      hide RemovedKeys, EntityKey, LapsedTokens, PrunePairs, KeepDesktops, KeepMobiles, KeepChallenges;
    }
    hide RemovedKeys, LapsedTokens, PrunePairs, KeepDesktops, KeepMobiles;
  }

  /** It closes exactly the open sessions that are past their time, and takes just their tokens out of the index. */
  lemma PrunedSessions(s: State, now: int)
    ensures var p := Prune(s, now);
      && p.pairSessions.Keys == s.pairSessions.Keys
      && (forall k :: k in s.pairSessions ==>
            p.pairSessions[k] == if s.pairSessions[k].expiresAt <= now && s.pairSessions[k].status in {Pending, Claimed}
              then s.pairSessions[k].(status := Expired, updatedAt := now) else s.pairSessions[k])
      && (forall t :: t in p.claimIndex ==> t in s.claimIndex && p.claimIndex[t] == s.claimIndex[t])
      && (forall t :: t in s.claimIndex ==>
            (t !in p.claimIndex <==> exists k :: k in s.pairSessions && s.pairSessions[k].claimToken == t && s.pairSessions[k] != p.pairSessions[k]))
      && p.bindings == s.bindings && p.issued == s.issued
  {
    var p := Prune(s, now);
    forall t | t in s.claimIndex
      ensures t !in p.claimIndex <==> exists k :: k in s.pairSessions && s.pairSessions[k].claimToken == t && s.pairSessions[k] != p.pairSessions[k]
    {
      if k :| k in s.pairSessions && s.pairSessions[k].claimToken == t && s.pairSessions[k] != p.pairSessions[k] { assert Lapses(s.pairSessions[k], now); }
      if t !in p.claimIndex {
        var k :| k in s.pairSessions && Lapses(s.pairSessions[k], now) && s.pairSessions[k].claimToken == t;
        assert s.pairSessions[k] != p.pairSessions[k];
      }
    }
    hide RemovedKeys, PruneAuth, KeepDesktops, KeepMobiles, KeepChallenges;
  }

  lemma EntityKeyIs(t: EntityType, id: string)
    ensures EntityKey(t, id) == (if t.DesktopType? then "desktop:" else "mobile:") + id
  {
    assert TypeName(t) + ":" == if t.DesktopType? then "desktop:" else "mobile:";
  }

  /** It drops exactly the queues of the entities it drops. */
  lemma PrunedQueues(s: State, now: int, t: EntityType, id: string, key: string)
    ensures var p := Prune(s, now);
      && (EntityKey(t, id) in p.queues <==> EntityKey(t, id) in s.queues && !GoneIdle(s, t, id, now))
      && (key in p.queues ==> key in s.queues && p.queues[key] == s.queues[key])
      && (key in s.queues && key !in p.queues ==> exists u: EntityType, k :: EntityKey(u, k) == key && GoneIdle(s, u, k, now))
  {
    RemovedExactly(s, now, t, id);
    if key in s.queues && key !in Prune(s, now).queues {
      if k :| k in s.desktops && !DesktopAlive(s.desktops[k], now) && EntityKey(DesktopType, k) == key {
        assert GoneIdle(s, DesktopType, k, now);
      } else {
        var k :| k in s.mobiles && !MobileAlive(s.mobiles[k], now) && EntityKey(MobileType, k) == key;
        assert GoneIdle(s, MobileType, k, now);
      }
    }
    hide EntityKey, LapsedTokens, PrunePairs, PruneAuth, KeepDesktops, KeepMobiles, KeepChallenges;
  }

  // ---------- Challenges and logins ----------

  predicate Names(value: string, t: EntityType) {
    TrimSpace(value) == if t.DesktopType? then "desktop" else "mobile"
  }

  /** A request that names an entity and a well-formed key gets a challenge for them, good for five minutes; no other does. */
  lemma ChallengeExactly(s: State, now: int, req: ChallengeRequest, challengeId: string, nonce: string)
    ensures var p := Prune(s, now); var (s1, r) := CreateChallenge(s, now, req, challengeId, nonce);
      match r
      case Ok(c) =>
        && Names(req.entityType, c.entityType) && TrimSpace(req.entityId) == c.entityId != "" && req.publicKey == Some(c.publicKey)
        && c.challengeId == challengeId && c.nonce == nonce && c.createdAt == now && c.expiresAt == now + 300_000
        && s1 == p.(challenges := p.challenges[challengeId := c], issued := p.issued + {challengeId, nonce})
      case Err(e) =>
        && (TrimSpace(req.entityType) !in {"desktop", "mobile"} || TrimSpace(req.entityId) == "" || req.publicKey == None)
        && e == Validation && s1 == s
  {
    hide Prune, TrimSpace;
  }

  /** The login names the entity and the key the challenge was made for, in time. */
  predicate Matches(c: Challenge, req: LoginRequest, now: int) {
    c.expiresAt > now && Names(req.entityType, c.entityType) && TrimSpace(req.entityId) == c.entityId && req.publicKey == Some(c.publicKey)
  }

  /** The entity is not stored, or is with the key of the challenge. */
  predicate KeyFree(s: State, c: Challenge) {
    match c.entityType
    case DesktopType => c.entityId in s.desktops ==> s.desktops[c.entityId].publicKey == c.publicKey
    case MobileType => c.entityId in s.mobiles ==> s.mobiles[c.entityId].publicKey == c.publicKey
  }

  predicate WellFormed(req: LoginRequest) {
    && TrimSpace(req.entityType) in {"desktop", "mobile"} && TrimSpace(req.entityId) != "" && TrimSpace(req.challengeId) != ""
    && req.publicKey.Some? && req.signature.Some?
  }

  /** The request answers a challenge that is stored, unexpired, and made for the entity and key it names. */
  predicate AnswersChallenge(p: State, req: LoginRequest, now: int) {
    WellFormed(req) && TrimSpace(req.challengeId) in p.challenges && Matches(p.challenges[TrimSpace(req.challengeId)], req, now)
  }

  lemma ReadLoginIs(req: LoginRequest)
    ensures ReadLogin(req).Ok? <==> WellFormed(req)
    ensures ReadLogin(req).Err? ==> ReadLogin(req) == Err(Validation)
    ensures ReadLogin(req).Ok? ==>
      var a := ReadLogin(req).value;
      a.challengeId == TrimSpace(req.challengeId) && Some(a.verified) == req.signature && Some(a.who.publicKey) == req.publicKey
      && a.who.entityId == TrimSpace(req.entityId) && forall t :: Names(req.entityType, t) <==> t == a.who.entityType
  {
    hide TrimSpace;
  }

  predicate MadeFor(c: Challenge, now: int, t: EntityType, id: string, key: string) {
    c.expiresAt > now && c.entityType == t && c.entityId == id && c.publicKey == key
  }

  lemma LoginOutcome(p: State, now: int, t: EntityType, id: string, challengeId: string, key: string, verified: bool, sessionId: string, token: string)
    ensures var (s1, r) := LoginOn(p, now, t, id, challengeId, key, verified, sessionId, token);
      && (r.Ok? <==> verified && challengeId in p.challenges && MadeFor(p.challenges[challengeId], now, t, id, key) && KeyFree(p, p.challenges[challengeId]))
      && (r.Ok? ==>
            && r.value == AuthSession(sessionId, token, t, id, key, now, now, now + 900_000)
            && s1.challenges == p.challenges - {challengeId} && s1.authSessions == p.authSessions[token := r.value]
            && s1.pairSessions == p.pairSessions && s1.claimIndex == p.claimIndex && s1.bindings == p.bindings && s1.queues == p.queues)
  {
    assert challengeId in p.challenges && MadeFor(p.challenges[challengeId], now, t, id, key) ==>
      (KeyFree(p, p.challenges[challengeId]) <==> KeyOf(p, t, id) in {None, Some(key)});
    hide KeyFree, KeyOf;
  }

  /** A login succeeds exactly when its signature verifies over a stored, unexpired challenge for its own entity and key, and
      the entity is not stored with another key. It then spends the challenge and opens one session for 15 minutes. */
  lemma LoginExactly(s: State, now: int, req: LoginRequest, sessionId: string, token: string)
    ensures var p := Prune(s, now); var (s1, r) := Login(s, now, req, sessionId, token); var id := TrimSpace(req.challengeId);
      && (r.Ok? <==> AnswersChallenge(p, req, now) && req.signature == Some(true) && KeyFree(p, p.challenges[id]))
      && (r.Ok? ==>
            && r.value == AuthSession(sessionId, token, p.challenges[id].entityType, p.challenges[id].entityId, p.challenges[id].publicKey, now, now, now + 900_000)
            && s1.challenges == p.challenges - {id} && s1.authSessions == p.authSessions[token := r.value]
            && s1.pairSessions == p.pairSessions && s1.claimIndex == p.claimIndex && s1.bindings == p.bindings && s1.queues == p.queues)
  {
    ReadLoginIs(req);
    if WellFormed(req) {
      var a := ReadLogin(req).value;
      LoginOutcome(Prune(s, now), now, a.who.entityType, a.who.entityId, a.challengeId, a.who.publicKey, a.verified, sessionId, token);
    }
    hide Prune, TrimSpace, ReadLogin, Names, LoginOn, KeyFree;
  }

  /** A malformed login changes nothing; one whose signature does not verify is unauthorized, and like every other refused
      login it leaves the store as the prune left it. */
  lemma LoginRefused(s: State, now: int, req: LoginRequest, sessionId: string, token: string)
    ensures var p := Prune(s, now); var (s1, r) := Login(s, now, req, sessionId, token); var id := TrimSpace(req.challengeId);
      && (r == Err(Validation) <==> !WellFormed(req))
      && (r == Err(Unauthorized) <==> AnswersChallenge(p, req, now) && req.signature == Some(false))
      && (r == Err(NotFound) <==> WellFormed(req) && id !in p.challenges)
      && (r.Err? ==> s1 == (if WellFormed(req) then p else s) && r.error in {Validation, Unauthorized, NotFound, Forbidden})
  {
    ReadLoginIs(req);
    PrunedLogins(s, now);
    hide Prune, TrimSpace, ReadLogin, Names;
  }

  /** The entity a login leaves: created if it was not stored, and otherwise refreshed with its other fields kept. */
  lemma LoginEntities(s: State, now: int, req: LoginRequest, sessionId: string, token: string)
    ensures var p := Prune(s, now); var (s1, r) := Login(s, now, req, sessionId, token);
      r.Ok? ==>
        var a := r.value;
        match a.entityType
        case DesktopType =>
          && s1.mobiles == p.mobiles
          && s1.desktops == p.desktops[a.entityId :=
               if a.entityId !in p.desktops then Desktop(a.entityId, a.publicKey, "", "", now, now, now, "offline")
               else if p.desktops[a.entityId].lastSeenAt > 0 then p.desktops[a.entityId].(updatedAt := now)
               else p.desktops[a.entityId].(updatedAt := now, lastSeenAt := now)]
        case MobileType =>
          && s1.desktops == p.desktops
          && s1.mobiles == p.mobiles[a.entityId :=
               if a.entityId !in p.mobiles then Mobile(a.entityId, "", a.publicKey, "", "", now, now, now, "online")
               else p.mobiles[a.entityId].(updatedAt := now, lastSeenAt := now, presence := "online")]
  {
    hide Prune, ReadLogin, TrimSpace, KeyOf;
  }

  /** A token is good exactly when the prune leaves its session stored; using it renews the session for 15 minutes. */
  lemma AuthenticateExactly(s: State, now: int, token: string)
    requires Inv(s)
    ensures var p := Prune(s, now); var (s1, r) := Authenticate(s, now, token); var t := TrimSpace(token);
      && (r.Ok? <==> t != "" && t in p.authSessions)
      && (r.Ok? ==> r.value == p.authSessions[t].(updatedAt := now, expiresAt := now + 900_000) && s1 == p.(authSessions := p.authSessions[t := r.value]))
      && (r.Err? ==> r.error == Unauthorized && s1 == if t == "" then s else p)
  {
    AuthenticateFindsEntity(s, now, token);
    var t := TrimSpace(token);
    if t != "" && t in Prune(s, now).authSessions { PrunedAuth(s, now, t); }
    hide Inv, Prune, TrimSpace, Restored, KeyOf, Alive;
  }

  /** Presence reaches only an entity that is stored, and marks it online and seen now. A blank platform or version is
      written only by a desktop's announcement. */
  lemma PresenceExactly(s: State, now: int, who: Principal, announce: bool, platform: string, appVersion: string)
    requires Inv(s)
    ensures var p := Prune(s, now); var (s1, r) := Presence(s, now, who, announce, platform, appVersion);
      var id, f, v := who.entityId, TrimSpace(platform), TrimSpace(appVersion);
      match who.entityType
      case DesktopType =>
        if id !in p.desktops then r == Err(NotFound) && s1 == p else
        var d := p.desktops[id];
        r.Ok? && s1 == p.(desktops := p.desktops[id := Desktop(
          id, d.publicKey, if f == "" && !announce then d.platform else f, if v == "" && !announce then d.appVersion else v,
          d.createdAt, now, now, "online")])
      case MobileType =>
        if id !in p.mobiles then r == Err(NotFound) && s1 == p else
        var m := p.mobiles[id];
        r.Ok? && s1 == p.(mobiles := p.mobiles[id := Mobile(
          id, m.mobileName, m.publicKey, if f == "" then m.platform else f, if v == "" then m.appVersion else v,
          m.createdAt, now, now, "online")])
  {
    assert KeysMatch(Prune(s, now).desktops, Prune(s, now).mobiles) by { PruneKeeps(s, now); hide Prune; }
    hide Prune, TrimSpace, Inv;
  }

  // ---------- Pair sessions ----------

  /** A stored desktop opens a pending session under its own key for 60 to 600 seconds, 180 unless it asks; no one else does. */
  lemma CreateExactly(s: State, now: int, who: Principal, ttl: int, id: string, token: string, nonce: string)
    requires Inv(s)
    ensures var p := Prune(s, now); var (s1, r) := CreatePairSession(s, now, who, ttl, id, token, nonce);
      if who.entityType != DesktopType then r == Err(Forbidden) && s1 == s
      else if who.entityId !in p.desktops then r == Err(NotFound) && s1 == p
      else
        var seconds := if ttl == 0 then 180 else if ttl < 60 then 60 else if ttl > 600 then 600 else ttl;
        && r == Ok(PairSession(id, who.entityId, p.desktops[who.entityId].publicKey, token, nonce, Pending, now, now, now + seconds * 1000, None, None))
        && s1 == p.(pairSessions := p.pairSessions[id := r.value], claimIndex := p.claimIndex[token := id], issued := p.issued + {id, token, nonce})
  {
    assert KeysMatch(Prune(s, now).desktops, Prune(s, now).mobiles) by { PruneKeeps(s, now); hide Prune; }
    hide Prune, Inv;
  }

  /** A desktop deletes exactly its own pending sessions; the session and its token are gone, and nothing else. */
  lemma DeleteExactly(s: State, now: int, who: Principal, rawId: string)
    requires Inv(s)
    ensures var p := Prune(s, now); var (s1, r) := DeletePairSession(s, now, who, rawId); var id := TrimSpace(rawId);
      && (r.Ok? <==> who.entityType == DesktopType && id != "" && id in p.pairSessions && p.pairSessions[id].deviceId == who.entityId && p.pairSessions[id].status == Pending)
      && (r.Ok? ==>
            && r.value == p.pairSessions[id] && id !in s1.pairSessions && r.value.claimToken in p.claimIndex && r.value.claimToken !in s1.claimIndex
            && s1 == p.(pairSessions := p.pairSessions - {id}, claimIndex := p.claimIndex - {r.value.claimToken}))
      && (r.Err? ==> s1 == if who.entityType != DesktopType || id == "" then s else p)
  {
    PendingFacts(s, now, TrimSpace(rawId));
    hide Prune, TrimSpace, Inv;
  }

  lemma PendingFacts(s: State, now: int, id: string)
    requires Inv(s)
    ensures var p := Prune(s, now); id in p.pairSessions && p.pairSessions[id].status == Pending ==>
      p.pairSessions[id].bindingId == None && p.pairSessions[id].claimToken in p.claimIndex
  {
    PruneKeeps(s, now);
    hide Prune, EntityInv, TokensDiffer, NamedSessions, OnePerPair, BindingsBack;
  }

  // ---------- Claims and approvals ----------

  /** The device and the mobile already have an active binding. */
  ghost predicate Paired(s: State, deviceId: string, mobileId: string) {
    exists k :: k in s.bindings && s.bindings[k].deviceId == deviceId && s.bindings[k].mobileId == mobileId && s.bindings[k].trust == ActiveTrust
  }

  /** A mobile claims the session that carries its token exactly when the session is pending, or claimed by this very mobile,
      the mobile is stored, and the two are not paired yet. */
  lemma ClaimExactly(s: State, now: int, mobileId: string, rawToken: string, name: string, found: Option<Binding>, freshId: string, k: string)
    requires Inv(s) && TrimSpace(rawToken) != "" && Answers(Prune(s, now), now, mobileId, TrimSpace(rawToken), found)
    requires k in s.pairSessions && s.pairSessions[k].claimToken == TrimSpace(rawToken)
    ensures var p := Prune(s, now); var q := p.pairSessions[k];
      var r := ClaimPair(s, now, Principal(MobileType, mobileId), rawToken, name, found, freshId).1;
      && (r.Ok? <==> q.status in {Pending, Claimed} && q.claimedMobileId in {None, Some(mobileId)} && mobileId in p.mobiles && !Paired(p, q.deviceId, mobileId))
      && (r == Err(AlreadyClaimed) <==> q.status == Claimed && q.claimedMobileId != Some(mobileId))
      && (q.status !in {Pending, Claimed} ==> r == Err(NotFound))
  {
    PruneKeeps(s, now);
    PrunedSessions(s, now);
    ClaimOutcome(Prune(s, now), now, mobileId, TrimSpace(rawToken), name, found, freshId, k);
    hide Prune, TrimSpace, Inv, ClaimOn, Answers, Paired;
  }

  lemma ClaimOutcome(p: State, now: int, mobileId: string, token: string, name: string, found: Option<Binding>, freshId: string, k: string)
    requires Inv(p) && Answers(p, now, mobileId, token, found) && k in p.pairSessions && p.pairSessions[k].claimToken == token
    requires p.pairSessions[k].status in {Pending, Claimed} ==> p.pairSessions[k].expiresAt > now
    ensures var q := p.pairSessions[k]; var r := ClaimOn(p, now, mobileId, token, name, found, freshId).1;
      && (r.Ok? <==> q.status in {Pending, Claimed} && q.claimedMobileId in {None, Some(mobileId)} && mobileId in p.mobiles && !Paired(p, q.deviceId, mobileId))
      && (r == Err(AlreadyClaimed) <==> q.status == Claimed && q.claimedMobileId != Some(mobileId))
      && (q.status !in {Pending, Claimed} ==> r == Err(NotFound))
  {
    TokenLeads(p, token, k);
    var q := p.pairSessions[k];
    if mobileId in p.mobiles { FoundPaired(p, q.deviceId, mobileId, found); }
    assert mobileId in p.mobiles ==> p.mobiles[mobileId].mobileId == mobileId by { hide PairInv, AuthAgrees; }
    hide Inv, Found, Paired, ClaimLookup, ClaimBinding;
  }

  lemma TokenLeads(p: State, token: string, k: string)
    requires Inv(p) && k in p.pairSessions && p.pairSessions[k].claimToken == token
    ensures Open(p.pairSessions[k]) ==> token in p.claimIndex && p.claimIndex[token] == k
    ensures !Open(p.pairSessions[k]) ==> token !in p.claimIndex
    ensures p.pairSessions[k].status == Claimed ==> p.pairSessions[k].claimedMobileId.Some?
    ensures p.pairSessions[k].status == Pending ==> p.pairSessions[k].claimedMobileId.None?
  {
    hide EntityInv, NamedSessions, OnePerPair, BindingsBack;
  }

  lemma FoundPaired(p: State, deviceId: string, mobileId: string, found: Option<Binding>)
    requires Inv(p)
    ensures Found(p.bindings, deviceId, mobileId, found) ==> (Paired(p, deviceId, mobileId) <==> found.Some? && found.value.trust == ActiveTrust)
  {
    if Found(p.bindings, deviceId, mobileId, found) && Paired(p, deviceId, mobileId) {
      var k :| k in p.bindings && p.bindings[k].deviceId == deviceId && p.bindings[k].mobileId == mobileId && p.bindings[k].trust == ActiveTrust;
      assert Found(p.bindings, deviceId, mobileId, Some(p.bindings[k]));
      FindIsDeterministic(p.bindings, deviceId, mobileId, found, Some(p.bindings[k]));
    }
  }

  /** The claiming mobile takes the display name of the request, if it gives one. */
  predicate Renamed(p: State, s1: State, mobileId: string, name: string, now: int) {
    mobileId in p.mobiles &&
    s1.mobiles == if name == "" then p.mobiles else p.mobiles[mobileId := p.mobiles[mobileId].(mobileName := name, updatedAt := now)]
  }

  /** The binding written by a claim of session q for mobile m: names and keys are those of the session and of the mobile. */
  predicate Written(b: Binding, q: PairSession, m: Mobile, name: string, now: int) {
    && b.pairSessionId == q.pairSessionId && b.deviceId == q.deviceId && b.devicePublicKey == q.devicePublicKey
    && b.mobileId == m.mobileId && b.mobilePublicKey == m.publicKey && b.mobileName == (if name != "" then name else m.mobileName)
    && b.trust == PendingTrust && b.updatedAt == now
  }

  /** The name, the key and the phone a claim writes into the binding are those of the claiming mobile, the device and its key
      those of the session, which now names the two; of the mobile at most the display name changes. */
  ghost predicate Claims(p: State, s1: State, q1: PairSession, b: Binding, mobileId: string, token: string, name: string, now: int) {
    && mobileId in p.mobiles && q1.pairSessionId in p.pairSessions && p.mobiles[mobileId].mobileId == mobileId
    && p.pairSessions[q1.pairSessionId].claimToken == token
    && q1 == p.pairSessions[q1.pairSessionId].(status := Claimed, updatedAt := now, claimedMobileId := Some(mobileId), bindingId := Some(b.bindingId))
    && Written(b, p.pairSessions[q1.pairSessionId], p.mobiles[mobileId], name, now)
    && Renamed(p, s1, mobileId, name, now)
    && s1 == p.(pairSessions := p.pairSessions[q1.pairSessionId := q1], bindings := p.bindings[b.bindingId := b], mobiles := s1.mobiles, issued := s1.issued)
  }

  lemma ClaimWrites(s: State, now: int, mobileId: string, rawToken: string, name: string, found: Option<Binding>, freshId: string)
    requires Inv(s) && Answers(Prune(s, now), now, mobileId, TrimSpace(rawToken), found)
    ensures var (s1, r) := ClaimPair(s, now, Principal(MobileType, mobileId), rawToken, name, found, freshId);
      r.Ok? ==> Claims(Prune(s, now), s1, r.value.0, r.value.1, mobileId, TrimSpace(rawToken), name, now)
  {
    PruneKeeps(s, now);
    ClaimFields(Prune(s, now), now, mobileId, TrimSpace(rawToken), name, found, freshId);
    hide Prune, TrimSpace, Inv, ClaimOn, Answers, Claims;
  }

  lemma ClaimFields(p: State, now: int, mobileId: string, token: string, name: string, found: Option<Binding>, freshId: string)
    requires Inv(p) && Answers(p, now, mobileId, token, found)
    ensures var (s1, r) := ClaimOn(p, now, mobileId, token, name, found, freshId);
      r.Ok? ==> Claims(p, s1, r.value.0, r.value.1, mobileId, token, name, now)
  {
    var (s1, r) := ClaimOn(p, now, mobileId, token, name, found, freshId);
    if r.Ok? {
      ClaimableIs(p, now, mobileId, token);
      var q, m := ClaimableSession(p, now, mobileId, token).value, ClaimingMobile(p.mobiles[mobileId], now, name);
      BindingFields(p, q, m, now, found, freshId);
      hide Inv, ClaimableSession, Found, ClaimBinding;
    }
  }

  lemma BindingFields(p: State, q: PairSession, m: Mobile, now: int, found: Option<Binding>, freshId: string)
    requires Found(p.bindings, q.deviceId, m.mobileId, found)
    ensures var b := ClaimBinding(found, q, m, now, freshId);
      (found.Some? ==> found.value.trust != ActiveTrust) ==>
        && b.pairSessionId == q.pairSessionId && b.deviceId == q.deviceId && b.devicePublicKey == q.devicePublicKey
        && b.mobileId == m.mobileId && b.mobilePublicKey == m.publicKey && b.mobileName == m.mobileName && b.trust == PendingTrust && b.updatedAt == now
  {
  }

  /** A refused claim leaves the store as the prune left it, except that a phone that is already paired with the desktop still
      gets the display name it came with. */
  lemma ClaimRefused(s: State, now: int, mobileId: string, rawToken: string, name: string, found: Option<Binding>, freshId: string)
    requires Inv(s) && TrimSpace(rawToken) != "" && Answers(Prune(s, now), now, mobileId, TrimSpace(rawToken), found)
    ensures var p := Prune(s, now); var (s1, r) := ClaimPair(s, now, Principal(MobileType, mobileId), rawToken, name, found, freshId);
      && (r.Err? ==> r.error in {NotFound, AlreadyClaimed, InvalidState} && s1 == p.(mobiles := s1.mobiles))
      && (r.Err? && r.error != InvalidState ==> s1 == p)
      && (r == Err(InvalidState) ==> Renamed(p, s1, mobileId, name, now))
  {
    PruneKeeps(s, now);
    PrunedSessions(s, now);
    RefusedFields(Prune(s, now), now, mobileId, TrimSpace(rawToken), name, found, freshId);
    hide Prune, TrimSpace, Inv, ClaimOn, Answers;
  }

  lemma RefusedFields(p: State, now: int, mobileId: string, token: string, name: string, found: Option<Binding>, freshId: string)
    requires Inv(p) && forall k :: k in p.pairSessions && p.pairSessions[k].status in {Pending, Claimed} ==> p.pairSessions[k].expiresAt > now
    ensures var (s1, r) := ClaimOn(p, now, mobileId, token, name, found, freshId);
      && (r.Err? ==> r.error in {NotFound, AlreadyClaimed, InvalidState} && s1 == p.(mobiles := s1.mobiles))
      && (r.Err? && r.error != InvalidState ==> s1 == p)
      && (r == Err(InvalidState) ==> Renamed(p, s1, mobileId, name, now))
  {
    assert token in p.claimIndex ==> p.claimIndex[token] in p.pairSessions && Open(p.pairSessions[p.claimIndex[token]]) by { hide EntityInv; }
    assert mobileId in p.mobiles ==> p.mobiles[mobileId].mobileId == mobileId by { hide PairInv, AuthAgrees; }
    hide Inv, ClaimBinding;
    if ClaimableSession(p, now, mobileId, token).Ok? { hide ClaimableSession; }
  }

  /** The binding of a device and a mobile that is not revoked. */
  predicate Joins(b: Binding, deviceId: string, mobileId: string) {
    b.deviceId == deviceId && b.mobileId == mobileId && b.trust != RevokedTrust
  }

  /** A claim renews the binding its two parties have, keeping its id, its creation time and its approval, and makes a new one
      under a fresh id only if they have none. */
  lemma ClaimRenews(s: State, now: int, mobileId: string, rawToken: string, name: string, found: Option<Binding>, freshId: string, k: string)
    requires Inv(s) && Answers(Prune(s, now), now, mobileId, TrimSpace(rawToken), found)
    ensures var r := ClaimPair(s, now, Principal(MobileType, mobileId), rawToken, name, found, freshId).1;
      r.Ok? ==>
        var b := r.value.1;
        && (k in s.bindings && Joins(s.bindings[k], b.deviceId, mobileId) ==>
              b.bindingId == k && b.createdAt == s.bindings[k].createdAt && b.approvedAt == s.bindings[k].approvedAt)
        && ((forall j :: j in s.bindings ==> !Joins(s.bindings[j], b.deviceId, mobileId)) ==>
              b.bindingId == freshId && b.createdAt == now && b.approvedAt == None)
  {
    PruneKeeps(s, now);
    PrunedSessions(s, now);
    RenewedFields(Prune(s, now), now, mobileId, TrimSpace(rawToken), name, found, freshId, k);
    hide Prune, TrimSpace, Inv, ClaimOn, Answers, Joins;
  }

  lemma RenewedFields(p: State, now: int, mobileId: string, token: string, name: string, found: Option<Binding>, freshId: string, k: string)
    requires Inv(p) && Answers(p, now, mobileId, token, found)
    ensures var r := ClaimOn(p, now, mobileId, token, name, found, freshId).1;
      r.Ok? ==>
        var b := r.value.1;
        && (k in p.bindings && Joins(p.bindings[k], b.deviceId, mobileId) ==>
              b.bindingId == k && b.createdAt == p.bindings[k].createdAt && b.approvedAt == p.bindings[k].approvedAt)
        && ((forall j :: j in p.bindings ==> !Joins(p.bindings[j], b.deviceId, mobileId)) ==>
              b.bindingId == freshId && b.createdAt == now && b.approvedAt == None)
  {
    if ClaimOn(p, now, mobileId, token, name, found, freshId).1.Ok? {
      ClaimableIs(p, now, mobileId, token);
      var q, m := ClaimableSession(p, now, mobileId, token).value, ClaimingMobile(p.mobiles[mobileId], now, name);
      ClaimShape(p, now, mobileId, token, name, found, freshId);
      RenewedBinding(p, q, m, now, found, freshId, k);
      hide Inv, ClaimableSession, Found, ClaimBinding, ClaimLookup, ClaimOn, Joins;
    }
  }

  lemma RenewedBinding(p: State, q: PairSession, m: Mobile, now: int, found: Option<Binding>, freshId: string, k: string)
    requires Inv(p) && Found(p.bindings, q.deviceId, m.mobileId, found) && (found.Some? ==> found.value.trust != ActiveTrust)
    ensures var b := ClaimBinding(found, q, m, now, freshId);
      && b.deviceId == q.deviceId
      && (k in p.bindings && Joins(p.bindings[k], q.deviceId, m.mobileId) ==>
            b.bindingId == k && b.createdAt == p.bindings[k].createdAt && b.approvedAt == p.bindings[k].approvedAt)
      && ((forall j :: j in p.bindings ==> !Joins(p.bindings[j], q.deviceId, m.mobileId)) ==>
            b.bindingId == freshId && b.createdAt == now && b.approvedAt == None)
  {
    if k in p.bindings && Joins(p.bindings[k], q.deviceId, m.mobileId) {
      assert Found(p.bindings, q.deviceId, m.mobileId, Some(p.bindings[k]));
      FindIsDeterministic(p.bindings, q.deviceId, m.mobileId, found, Some(p.bindings[k]));
      assert p.bindings[k].bindingId == k && p.bindings[k].trust == PendingTrust;
    }
    hide EntityInv, ClaimsBound, IndexExact, TokensDiffer, PairIssued, NamedSessions, OnePerPair;
  }

  /** A desktop approves exactly the pending bindings of its own. The binding becomes active from now on, its session, while
      stored, becomes approved, and the token of the session leads nowhere. */
  lemma ApproveExactly(s: State, now: int, who: Principal, rawId: string)
    requires Inv(s)
    ensures var p := Prune(s, now); var (s1, r) := ApproveBinding(s, now, who, rawId); var id := TrimSpace(rawId);
      && (r.Ok? <==> who.entityType == DesktopType && id != "" && id in p.bindings && p.bindings[id].deviceId == who.entityId && p.bindings[id].trust == PendingTrust)
      && (r.Ok? ==>
            var k := p.bindings[id].pairSessionId;
            && r.value == p.bindings[id].(trust := ActiveTrust, approvedAt := Some(now), updatedAt := now)
            && s1.bindings == p.bindings[id := r.value]
            && s1.pairSessions == (if k in p.pairSessions then p.pairSessions[k := p.pairSessions[k].(status := Approved, updatedAt := now)] else p.pairSessions)
            && s1.claimIndex == (if k in p.pairSessions then p.claimIndex - {p.pairSessions[k].claimToken} else p.claimIndex)
            && s1 == p.(bindings := s1.bindings, pairSessions := s1.pairSessions, claimIndex := s1.claimIndex))
      && (r.Err? ==> s1 == if who.entityType != DesktopType || id == "" then s else p)
  {
    PruneKeeps(s, now);
    BindingNames(Prune(s, now), TrimSpace(rawId));
    hide Prune, TrimSpace, Inv;
  }

  lemma BindingNames(p: State, id: string)
    requires Inv(p)
    ensures id in p.bindings ==> p.bindings[id].bindingId == id
    ensures id in p.bindings && p.bindings[id].pairSessionId in p.pairSessions ==>
      p.pairSessions[p.bindings[id].pairSessionId].pairSessionId == p.bindings[id].pairSessionId
  {
    hide EntityInv, ClaimsBound, IndexExact, TokensDiffer, PairIssued, OnePerPair;
  }
}
