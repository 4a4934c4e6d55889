/** What the maps of the control plane owe each other, and that every operation keeps it. */
module PairingInvariant {
  import opened Helpers
  import opened PairingState

  // ---------- The invariant, one agreement at a time ----------

  ghost predicate KeysMatch(desktops: map<string, Desktop>, mobiles: map<string, Mobile>) {
    && (forall k :: k in desktops ==> desktops[k].deviceId == k)
    && (forall k :: k in mobiles ==> mobiles[k].mobileId == k)
  }

  ghost predicate NamedSessions(sessions: map<string, PairSession>) {
    forall k :: k in sessions ==> sessions[k].pairSessionId == k
  }

  function StoredKey(desktops: map<string, Desktop>, mobiles: map<string, Mobile>, t: EntityType, id: string): Option<string> {
    match t
    case DesktopType => if id in desktops then Some(desktops[id].publicKey) else None
    case MobileType => if id in mobiles then Some(mobiles[id].publicKey) else None
  }

  /** The entity behind an auth session is stored, with the key the session was opened with. */
  ghost predicate AuthAgrees(desktops: map<string, Desktop>, mobiles: map<string, Mobile>, auth: map<string, AuthSession>) {
    forall t :: t in auth ==>
      auth[t].token == t && StoredKey(desktops, mobiles, auth[t].entityType, auth[t].entityId) == Some(auth[t].publicKey)
  }

  /** The index maps t to k exactly when session k carries t and is pending or claimed. */
  ghost predicate IndexExact(sessions: map<string, PairSession>, index: map<string, string>) {
    && (forall t :: t in index ==> index[t] in sessions && sessions[index[t]].claimToken == t && Open(sessions[index[t]]))
    && (forall k :: k in sessions && Open(sessions[k]) ==>
          sessions[k].claimToken in index && index[sessions[k].claimToken] == k)
  }

  ghost predicate TokensDiffer(sessions: map<string, PairSession>) {
    forall j, k :: j in sessions && k in sessions && sessions[j].claimToken == sessions[k].claimToken ==> j == k
  }

  /** A session is unclaimed exactly while it names no binding, and a pending one is unclaimed. */
  predicate WellShaped(p: PairSession) {
    && (p.claimedMobileId.Some? <==> p.bindingId.Some?)
    && (p.status == Pending ==> p.bindingId.None?)
    && (p.status == Claimed || p.status == Approved ==> p.bindingId.Some?)
    && p.claimToken != ""
  }

  /** A claimed session names a stored binding of its device and its mobile. */
  ghost predicate ClaimsBound(sessions: map<string, PairSession>, bindings: map<string, Binding>) {
    forall k :: k in sessions ==> WellShaped(sessions[k]) && ClaimBound(sessions[k], bindings)
  }

  ghost predicate ClaimBound(p: PairSession, bindings: map<string, Binding>) {
    p.bindingId.Some? ==>
      && p.bindingId.value in bindings
      && bindings[p.bindingId.value].deviceId == p.deviceId
      && Some(bindings[p.bindingId.value].mobileId) == p.claimedMobileId
  }

  /** A binding names itself; is never revoked; and its session, while stored, names it back. */
  ghost predicate BindingsBack(sessions: map<string, PairSession>, bindings: map<string, Binding>) {
    forall k :: k in bindings ==>
      && bindings[k].bindingId == k
      && bindings[k].trust != RevokedTrust
      && (bindings[k].pairSessionId in sessions ==> sessions[bindings[k].pairSessionId].bindingId == Some(k))
  }

  predicate Rivals(a: Binding, b: Binding) {
    a.trust != RevokedTrust && b.trust != RevokedTrust && a.deviceId == b.deviceId && a.mobileId == b.mobileId
  }

  /** At most one non-revoked binding per device and mobile. */
  ghost predicate OnePerPair(bindings: map<string, Binding>) {
    forall j, k | j in bindings && k in bindings && Rivals(bindings[j], bindings[k]) :: j == k
  }

  /** Every id and token stored was handed out before, so a fresh one collides with none. */
  ghost predicate PairIssued(sessions: map<string, PairSession>, bindings: map<string, Binding>, issued: set<string>) {
    && (forall k :: k in sessions ==> k in issued && sessions[k].claimToken in issued)
    && (forall k :: k in bindings ==> k in issued && bindings[k].pairSessionId in issued)
  }

  ghost predicate EntityInv(desktops: map<string, Desktop>, mobiles: map<string, Mobile>, auth: map<string, AuthSession>) {
    KeysMatch(desktops, mobiles) && AuthAgrees(desktops, mobiles, auth)
  }

  ghost predicate PairInv(sessions: map<string, PairSession>, index: map<string, string>, bindings: map<string, Binding>, issued: set<string>) {
    && NamedSessions(sessions) && TokensDiffer(sessions) && IndexExact(sessions, index)
    && ClaimsBound(sessions, bindings) && BindingsBack(sessions, bindings) && OnePerPair(bindings)
    && PairIssued(sessions, bindings, issued)
  }

  ghost predicate Inv(s: State) {
    EntityInv(s.desktops, s.mobiles, s.authSessions) && PairInv(s.pairSessions, s.claimIndex, s.bindings, s.issued)
  }

  lemma EmptyInv()
    ensures Inv(EMPTY)
  {
  }

  // ---------- Entity keys ----------

  lemma KeysApart(t: EntityType, id: string, t1: EntityType, id1: string)
    ensures EntityKey(t, id) == EntityKey(t1, id1) <==> t == t1 && id == id1
  {
    var k, k1 := EntityKey(t, id), EntityKey(t1, id1);
    assert k[0] == (if t == DesktopType then 'd' else 'm') && k1[0] == (if t1 == DesktopType then 'd' else 'm');
    assert k[|TypeName(t)| + 1..] == id && k1[|TypeName(t1)| + 1..] == id1;
  }

  predicate Alive(s: State, t: EntityType, id: string, now: int) {
    match t
    case DesktopType => id in s.desktops && DesktopAlive(s.desktops[id], now)
    case MobileType => id in s.mobiles && MobileAlive(s.mobiles[id], now)
  }

  lemma RemovedExactly(s: State, now: int, t: EntityType, id: string)
    ensures EntityKey(t, id) in RemovedKeys(s.desktops, s.mobiles, now) <==> KeyOf(s, t, id).Some? && !Alive(s, t, id, now)
  {
    forall k ensures EntityKey(DesktopType, k) == EntityKey(t, id) <==> t == DesktopType && k == id { KeysApart(DesktopType, k, t, id); }
    forall k ensures EntityKey(MobileType, k) == EntityKey(t, id) <==> t == MobileType && k == id { KeysApart(MobileType, k, t, id); }
  }

  // ---------- Pruning ----------

  /** After a prune exactly the live entities are left, with their keys. */
  lemma PrunedKey(s: State, now: int, t: EntityType, id: string)
    ensures KeyOf(Prune(s, now), t, id) == if Alive(s, t, id, now) then KeyOf(s, t, id) else None
  {
  }

  lemma PruneKeepsIndex(sessions: map<string, PairSession>, index: map<string, string>, after: map<string, PairSession>, now: int)
    requires IndexExact(sessions, index) && TokensDiffer(sessions)
    requires after == PrunePairs(sessions, now)
    ensures IndexExact(after, index - LapsedTokens(sessions, now))
  {
    forall t | t in index ensures t in LapsedTokens(sessions, now) <==> Lapses(sessions[index[t]], now) {
    }
  }

  lemma PruneKeepsSessions(sessions: map<string, PairSession>, bindings: map<string, Binding>, now: int)
    requires NamedSessions(sessions) && TokensDiffer(sessions) && ClaimsBound(sessions, bindings) && BindingsBack(sessions, bindings)
    ensures var after := PrunePairs(sessions, now);
      NamedSessions(after) && TokensDiffer(after) && ClaimsBound(after, bindings) && BindingsBack(after, bindings)
  {
    var after := PrunePairs(sessions, now);
    forall k | k in after
      ensures k in sessions && after[k].(status := sessions[k].status, updatedAt := sessions[k].updatedAt) == sessions[k]
      ensures WellShaped(sessions[k]) && WellShaped(after[k])
    {
    }
    assert after.Keys == sessions.Keys;
    hide PrunePairs, WellShaped;
    assert TokensDiffer(after) by { hide ClaimsBound, BindingsBack; }
    assert ClaimsBound(after, bindings) by { hide TokensDiffer, BindingsBack; }
    assert BindingsBack(after, bindings) by { hide TokensDiffer, ClaimsBound; }
  }

  lemma PruneKeepsAuth(s: State, now: int)
    requires EntityInv(s.desktops, s.mobiles, s.authSessions)
    ensures var p := Prune(s, now); EntityInv(p.desktops, p.mobiles, p.authSessions)
  {
    var p := Prune(s, now);
    forall t | t in p.authSessions
      ensures p.authSessions[t].token == t
      ensures StoredKey(p.desktops, p.mobiles, p.authSessions[t].entityType, p.authSessions[t].entityId) == Some(p.authSessions[t].publicKey)
    {
      var a := s.authSessions[t];
      RemovedExactly(s, now, a.entityType, a.entityId);
      PrunedKey(s, now, a.entityType, a.entityId);
    }
  }

  lemma PruneKeeps(s: State, now: int)
    requires Inv(s)
    ensures Inv(Prune(s, now))
  {
    PruneKeepsAuth(s, now);
    PruneKeepsIndex(s.pairSessions, s.claimIndex, Prune(s, now).pairSessions, now);
    PruneKeepsSessions(s.pairSessions, s.bindings, now);
  }

  // ---------- Entities and auth sessions ----------

  lemma PutDesktop(desktops: map<string, Desktop>, mobiles: map<string, Mobile>, auth: map<string, AuthSession>, d: Desktop)
    requires EntityInv(desktops, mobiles, auth)
    requires d.deviceId in desktops ==> desktops[d.deviceId].publicKey == d.publicKey
    ensures EntityInv(desktops[d.deviceId := d], mobiles, auth)
  {
  }

  lemma PutMobile(desktops: map<string, Desktop>, mobiles: map<string, Mobile>, auth: map<string, AuthSession>, m: Mobile)
    requires EntityInv(desktops, mobiles, auth)
    requires m.mobileId in mobiles ==> mobiles[m.mobileId].publicKey == m.publicKey
    ensures EntityInv(desktops, mobiles[m.mobileId := m], auth)
  {
  }

  lemma IssuedKeeps(sessions: map<string, PairSession>, index: map<string, string>, bindings: map<string, Binding>, issued: set<string>, more: set<string>)
    requires PairInv(sessions, index, bindings, issued) && issued <= more
    ensures PairInv(sessions, index, bindings, more)
  {
    hide NamedSessions, TokensDiffer, IndexExact, ClaimsBound, BindingsBack, OnePerPair;
  }

  lemma LoginShape(s: State, now: int, entityType: EntityType, entityId: string, challengeId: string, publicKey: string,
                   verified: bool, sessionId: string, token: string)
    ensures var (s1, r) := LoginOn(s, now, entityType, entityId, challengeId, publicKey, verified, sessionId, token);
      if r.Err? then s1 == s.(challenges := s1.challenges) else
        && r.value.token == token && r.value.entityType == entityType && r.value.entityId == entityId && r.value.publicKey == publicKey
        && KeyOf(s, entityType, entityId) in {None, Some(publicKey)}
        && var e := WithEntity(s, now, entityType, entityId, publicKey);
           s1 == s.(desktops := e.desktops, mobiles := e.mobiles, authSessions := s.authSessions[token := r.value],
                    challenges := s.challenges - {challengeId}, issued := s.issued + {sessionId, token})
  {
    assert WithEntity(s, now, entityType, entityId, publicKey)
      == s.(desktops := WithEntity(s, now, entityType, entityId, publicKey).desktops,
            mobiles := WithEntity(s, now, entityType, entityId, publicKey).mobiles);
    hide WithEntity, KeyOf;
  }

  lemma LoginKeeps(s: State, now: int, entityType: EntityType, entityId: string, challengeId: string, publicKey: string,
                   verified: bool, sessionId: string, token: string)
    requires Inv(s)
    ensures Inv(LoginOn(s, now, entityType, entityId, challengeId, publicKey, verified, sessionId, token).0)
  {
    hide LoginOn, WithEntity, KeyOf, PairInv, EntityInv;
    LoginShape(s, now, entityType, entityId, challengeId, publicKey, verified, sessionId, token);
    var (s1, r) := LoginOn(s, now, entityType, entityId, challengeId, publicKey, verified, sessionId, token);
    IssuedKeeps(s.pairSessions, s.claimIndex, s.bindings, s.issued, s1.issued);
    if r.Ok? { LoginEntity(s, now, entityType, entityId, publicKey, r.value); }
  }

  lemma LoginEntity(s: State, now: int, t: EntityType, id: string, key: string, a: AuthSession)
    requires EntityInv(s.desktops, s.mobiles, s.authSessions) && KeyOf(s, t, id) in {None, Some(key)}
    requires a.entityType == t && a.entityId == id && a.publicKey == key
    ensures var e := WithEntity(s, now, t, id, key); EntityInv(e.desktops, e.mobiles, s.authSessions[a.token := a])
  {
    match t
    case DesktopType =>
      assert LoginDesktop(s, now, id, key).deviceId == id && LoginDesktop(s, now, id, key).publicKey == key;
      PutDesktop(s.desktops, s.mobiles, s.authSessions, LoginDesktop(s, now, id, key));
    case MobileType =>
      assert LoginMobile(s, now, id, key).mobileId == id && LoginMobile(s, now, id, key).publicKey == key;
      PutMobile(s.desktops, s.mobiles, s.authSessions, LoginMobile(s, now, id, key));
  }

  /** The principal's entity is stored under the session's key, so neither re-creation branch nor the expired branch runs. */
  lemma AuthenticateFindsEntity(s: State, now: int, token: string)
    requires Inv(s)
    ensures var (s1, r) := Authenticate(s, now, token);
      match r
      case Err(e) => s1 == (if TrimSpace(token) == "" then s else Prune(s, now))
      case Ok(a) =>
        && KeyOf(s, a.entityType, a.entityId) == Some(a.publicKey) && Alive(s, a.entityType, a.entityId, now)
        && s1 == Prune(s, now).(authSessions := Prune(s, now).authSessions[a.token := a])
  {
    if TrimSpace(token) != "" && TrimSpace(token) in Prune(s, now).authSessions {
      PrunedAuth(s, now, TrimSpace(token));
      hide Prune, Inv, TrimSpace;
      AuthenticateOnStored(Prune(s, now), now, TrimSpace(token));
    }
  }

  lemma AuthenticateOnStored(s: State, now: int, t: string)
    requires t in s.authSessions && s.authSessions[t].expiresAt > now
    requires KeyOf(s, s.authSessions[t].entityType, s.authSessions[t].entityId).Some?
    ensures var a := s.authSessions[t].(updatedAt := now, expiresAt := now + AUTH_TTL);
      AuthenticateOn(s, now, t) == (s.(authSessions := s.authSessions[t := a]), Ok(a))
  {
  }

  lemma PrunedAuth(s: State, now: int, t: string)
    requires Inv(s) && t in Prune(s, now).authSessions
    ensures t in s.authSessions && Prune(s, now).authSessions[t] == s.authSessions[t]
    ensures var a := s.authSessions[t];
      a.token == t && a.expiresAt > now && KeyOf(Prune(s, now), a.entityType, a.entityId) == Some(a.publicKey)
      && KeyOf(s, a.entityType, a.entityId) == Some(a.publicKey) && Alive(s, a.entityType, a.entityId, now)
  {
    hide PairInv;
    PruneKeepsAuth(s, now);
    PrunedKey(s, now, s.authSessions[t].entityType, s.authSessions[t].entityId);
  }

  lemma AuthenticateKeeps(s: State, now: int, token: string)
    requires Inv(s)
    ensures Inv(Authenticate(s, now, token).0)
  {
    PruneKeeps(s, now);
    var t, p := TrimSpace(token), Prune(s, now);
    if t != "" && t in p.authSessions {
      assert p.authSessions[t].expiresAt > now && p.authSessions[t].token == t
        && KeyOf(p, p.authSessions[t].entityType, p.authSessions[t].entityId) == Some(p.authSessions[t].publicKey)
      by { hide EntityInv, PairInv; PrunedAuth(s, now, t); }
      AuthenticateOnStored(p, now, t);
      var a := p.authSessions[t].(updatedAt := now, expiresAt := now + AUTH_TTL);
      PutAuth(p.desktops, p.mobiles, p.authSessions, a);
      hide Prune, PairInv, EntityInv, TrimSpace, AuthenticateOn;
    }
  }

  lemma PutAuth(desktops: map<string, Desktop>, mobiles: map<string, Mobile>, auth: map<string, AuthSession>, a: AuthSession)
    requires EntityInv(desktops, mobiles, auth)
    requires StoredKey(desktops, mobiles, a.entityType, a.entityId) == Some(a.publicKey)
    ensures EntityInv(desktops, mobiles, auth[a.token := a])
  {
  }

  lemma PresenceKeeps(s: State, now: int, who: Principal, announce: bool, platform: string, appVersion: string)
    requires Inv(s)
    ensures Inv(PresenceOn(s, now, who, announce, platform, appVersion).0)
  {
    hide TrimSpace, PairInv;
    var p, v := TrimSpace(platform), TrimSpace(appVersion);
    match who.entityType
    case DesktopType =>
      if who.entityId in s.desktops {
        var d := SeenDesktop(s.desktops[who.entityId], now, announce, p, v);
        assert d.deviceId == who.entityId && d.publicKey == s.desktops[who.entityId].publicKey by { hide AuthAgrees; }
        hide EntityInv, SeenDesktop;
        PutDesktop(s.desktops, s.mobiles, s.authSessions, d);
      }
    case MobileType =>
      if who.entityId in s.mobiles {
        var m := SeenMobile(s.mobiles[who.entityId], now, p, v);
        assert m.mobileId == who.entityId && m.publicKey == s.mobiles[who.entityId].publicKey by { hide AuthAgrees; }
        hide EntityInv, SeenMobile;
        PutMobile(s.desktops, s.mobiles, s.authSessions, m);
      }
  }

  // ---------- Pair sessions ----------

  lemma CreateKeeps(s: State, now: int, who: Principal, ttlSeconds: int, pairSessionId: string, claimToken: string, nonce: string)
    requires Inv(s) && pairSessionId !in s.issued && claimToken !in s.issued && claimToken != ""
    ensures Inv(CreateOn(s, now, who, ttlSeconds, pairSessionId, claimToken, nonce).0)
  {
    var (s1, r) := CreateOn(s, now, who, ttlSeconds, pairSessionId, claimToken, nonce);
    if r.Ok? {
      hide EntityInv, PairInv;
      assert WellShaped(r.value);
      NewSessionKeeps(s.pairSessions, s.claimIndex, s.bindings, s.issued, s1.issued, r.value);
    }
  }

  lemma NewSessionKeeps(sessions: map<string, PairSession>, index: map<string, string>, bindings: map<string, Binding>,
                        issued: set<string>, more: set<string>, p: PairSession)
    requires PairInv(sessions, index, bindings, issued) && p.pairSessionId !in issued && p.claimToken !in issued
    requires p.status == Pending && WellShaped(p) && issued + {p.pairSessionId, p.claimToken} <= more
    ensures PairInv(sessions[p.pairSessionId := p], index[p.claimToken := p.pairSessionId], bindings, more)
  {
    IssuedKeeps(sessions, index, bindings, issued, more);
    assert NamedSessions(sessions[p.pairSessionId := p]);
    assert TokensDiffer(sessions[p.pairSessionId := p]);
    assert IndexExact(sessions[p.pairSessionId := p], index[p.claimToken := p.pairSessionId]);
    assert PairIssued(sessions[p.pairSessionId := p], bindings, more);
    hide NamedSessions, TokensDiffer, IndexExact, OnePerPair;
    assert ClaimsBound(sessions[p.pairSessionId := p], bindings);
    assert BindingsBack(sessions[p.pairSessionId := p], bindings);
  }

  lemma DeleteKeeps(s: State, who: Principal, id: string)
    requires Inv(s)
    ensures Inv(DeleteOn(s, who, id).0)
  {
    var (s1, r) := DeleteOn(s, who, id);
    if r.Ok? {
      hide EntityInv, PairInv;
      RemoveSessionKeeps(s.pairSessions, s.claimIndex, s.bindings, s.issued, id);
    }
  }

  lemma RemoveSessionKeeps(sessions: map<string, PairSession>, index: map<string, string>, bindings: map<string, Binding>,
                           issued: set<string>, id: string)
    requires PairInv(sessions, index, bindings, issued) && id in sessions
    ensures PairInv(sessions - {id}, index - {sessions[id].claimToken}, bindings, issued)
  {
    assert TokensDiffer(sessions - {id}) && IndexExact(sessions - {id}, index - {sessions[id].claimToken}) by {
      hide ClaimsBound, BindingsBack, OnePerPair, PairIssued;
    }
    assert PairIssued(sessions - {id}, bindings, issued) by { hide ClaimsBound, BindingsBack, TokensDiffer, IndexExact; }
    hide TokensDiffer, IndexExact, OnePerPair, PairIssued;
    assert ClaimsBound(sessions - {id}, bindings) by { hide BindingsBack, PairIssued, ClaimBound; }
    assert BindingsBack(sessions - {id}, bindings) by { hide ClaimsBound, PairIssued; }
    hide ClaimsBound, BindingsBack;
  }

  // ---------- Claiming and approving ----------

  /** Whatever entry the unordered search meets first, it meets the same binding: the only one of that pair. */
  lemma FindIsDeterministic(bindings: map<string, Binding>, deviceId: string, mobileId: string, f: Option<Binding>, g: Option<Binding>)
    requires OnePerPair(bindings) && Found(bindings, deviceId, mobileId, f) && Found(bindings, deviceId, mobileId, g)
    ensures f == g
  {
    match (f, g)
    case (Some(a), Some(b)) =>
      var j :| j in bindings && bindings[j] == a;
      var k :| k in bindings && bindings[k] == b;
      assert Rivals(bindings[j], bindings[k]);
    case _ =>
  }

  /** Replacing one session and one binding that name each other, with the session's token, device and index entry unchanged. */
  lemma ClaimKeepsBoth(sessions: map<string, PairSession>, bindings: map<string, Binding>, p: PairSession, b: Binding)
    requires ClaimsBound(sessions, bindings) && BindingsBack(sessions, bindings)
    requires WellShaped(p) && ClaimBound(p, map[b.bindingId := b])
    requires b.trust != RevokedTrust && b.pairSessionId == p.pairSessionId
    requires b.bindingId in bindings ==> bindings[b.bindingId].deviceId == b.deviceId && bindings[b.bindingId].mobileId == b.mobileId
    requires p.bindingId == Some(b.bindingId)
    requires p.pairSessionId in sessions && (sessions[p.pairSessionId].bindingId.None? || sessions[p.pairSessionId].bindingId == p.bindingId)
    ensures ClaimsBound(sessions[p.pairSessionId := p], bindings[b.bindingId := b])
    ensures BindingsBack(sessions[p.pairSessionId := p], bindings[b.bindingId := b])
  {
  }

  lemma SameTokenKeeps(sessions: map<string, PairSession>, index: map<string, string>, p: PairSession)
    requires IndexExact(sessions, index) && TokensDiffer(sessions) && NamedSessions(sessions)
    requires p.pairSessionId in sessions && sessions[p.pairSessionId].claimToken == p.claimToken
    requires Open(sessions[p.pairSessionId]) && Open(p)
    ensures IndexExact(sessions[p.pairSessionId := p], index) && TokensDiffer(sessions[p.pairSessionId := p])
    ensures NamedSessions(sessions[p.pairSessionId := p])
  {
  }

  lemma ClosedKeeps(sessions: map<string, PairSession>, index: map<string, string>, p: PairSession)
    requires IndexExact(sessions, index) && TokensDiffer(sessions) && NamedSessions(sessions)
    requires p.pairSessionId in sessions && sessions[p.pairSessionId].claimToken == p.claimToken && !Open(p)
    ensures IndexExact(sessions[p.pairSessionId := p], index - {p.claimToken}) && TokensDiffer(sessions[p.pairSessionId := p])
    ensures NamedSessions(sessions[p.pairSessionId := p])
  {
  }

  lemma BindingKeepsOne(bindings: map<string, Binding>, b: Binding)
    requires OnePerPair(bindings)
    requires forall k :: k in bindings && Rivals(bindings[k], b) ==> k == b.bindingId
    ensures OnePerPair(bindings[b.bindingId := b])
  {
    forall k | k in bindings && Rivals(b, bindings[k]) ensures k == b.bindingId { assert Rivals(bindings[k], b); }
  }

  /** What a claim leaves, read off its result. */
  lemma ClaimShape(s: State, now: int, mobileId: string, token: string, name: string, found: Option<Binding>, freshId: string)
    ensures var (s1, r) := ClaimOn(s, now, mobileId, token, name, found, freshId);
      r.Ok? ==>
        && ClaimableSession(s, now, mobileId, token).Ok? && mobileId in s.mobiles
        && (found.Some? ==> found.value.trust != ActiveTrust)
        && var m := ClaimingMobile(s.mobiles[mobileId], now, name);
           var p0 := ClaimableSession(s, now, mobileId, token).value;
           var b := ClaimBinding(found, p0, m, now, freshId);
           r.value == (p0.(status := Claimed, updatedAt := now, claimedMobileId := Some(m.mobileId), bindingId := Some(b.bindingId)), b)
           && s1 == ClaimLookup(s, now, mobileId, token, name).(
                      bindings := s.bindings[b.bindingId := b],
                      pairSessions := s.pairSessions[p0.pairSessionId := r.value.0],
                      issued := s.issued + {freshId})
  {
  }

  lemma ClaimPairKeeps(sessions: map<string, PairSession>, index: map<string, string>, bindings: map<string, Binding>, issued: set<string>,
                       p0: PairSession, m: Mobile, now: int, found: Option<Binding>, freshId: string)
    requires PairInv(sessions, index, bindings, issued) && freshId !in issued
    requires p0.pairSessionId in sessions && sessions[p0.pairSessionId] == p0 && Open(p0)
    requires p0.status == Claimed ==> p0.claimedMobileId in {None, Some(m.mobileId)}
    requires Found(bindings, p0.deviceId, m.mobileId, found) && (found.Some? ==> found.value.trust != ActiveTrust)
    ensures var b := ClaimBinding(found, p0, m, now, freshId);
      var p1 := p0.(status := Claimed, updatedAt := now, claimedMobileId := Some(m.mobileId), bindingId := Some(b.bindingId));
      && PairInv(sessions[p0.pairSessionId := p1], index, bindings[b.bindingId := b], issued + {freshId})
      && (p0.bindingId == None || p0.bindingId == p1.bindingId)
  {
    var b := ClaimBinding(found, p0, m, now, freshId);
    var p1 := p0.(status := Claimed, updatedAt := now, claimedMobileId := Some(m.mobileId), bindingId := Some(b.bindingId));
    ClaimedBinding(sessions, bindings, issued, p0, m, now, found, freshId);
    hide ClaimBinding;
    assert WellShaped(p1);
    BindingKeepsOne(bindings, b);
    SameTokenKeeps(sessions, index, p1);
    ClaimKeepsBoth(sessions, bindings, p1, b);
    hide OnePerPair, ClaimsBound, BindingsBack, NamedSessions, TokensDiffer, IndexExact, Found;
  }

  /** The binding a claim writes: of the session's device and the mobile, and the session's own binding if it had one. */
  lemma ClaimedBinding(sessions: map<string, PairSession>, bindings: map<string, Binding>, issued: set<string>,
                       p0: PairSession, m: Mobile, now: int, found: Option<Binding>, freshId: string)
    requires ClaimsBound(sessions, bindings) && BindingsBack(sessions, bindings) && OnePerPair(bindings)
    requires PairIssued(sessions, bindings, issued) && freshId !in issued
    requires p0.pairSessionId in sessions && sessions[p0.pairSessionId] == p0 && Open(p0)
    requires p0.status == Claimed ==> p0.claimedMobileId in {None, Some(m.mobileId)}
    requires Found(bindings, p0.deviceId, m.mobileId, found) && (found.Some? ==> found.value.trust != ActiveTrust)
    ensures var b := ClaimBinding(found, p0, m, now, freshId);
      && b.trust == PendingTrust && b.deviceId == p0.deviceId && b.mobileId == m.mobileId && b.pairSessionId == p0.pairSessionId
      && (b.bindingId in bindings ==> found == Some(bindings[b.bindingId])) && (b.bindingId !in bindings ==> b.bindingId == freshId)
      && (forall k :: k in bindings && Rivals(bindings[k], b) ==> k == b.bindingId)
      && (p0.bindingId == None || p0.bindingId == Some(b.bindingId))
  {
    var b := ClaimBinding(found, p0, m, now, freshId);
    if found.Some? {
      var j :| j in bindings && bindings[j] == found.value;
      assert b.bindingId == j;
      forall k | k in bindings && Rivals(bindings[k], b) ensures k == j { assert Rivals(bindings[k], bindings[j]); }
    }
    if p0.bindingId.Some? {
      assert Binds(bindings[p0.bindingId.value], p0.deviceId, m.mobileId);
      assert Rivals(bindings[p0.bindingId.value], b);
    }
  }

  /** The search answered for the pair it was asked about; only the branch that reaches it needs an answer. */
  ghost predicate Answers(s: State, now: int, mobileId: string, token: string, found: Option<Binding>) {
    ClaimableSession(s, now, mobileId, token).Ok? && mobileId in s.mobiles ==>
      Found(s.bindings, ClaimableSession(s, now, mobileId, token).value.deviceId, s.mobiles[mobileId].mobileId, found)
  }

  lemma ClaimableIs(s: State, now: int, mobileId: string, token: string)
    requires Inv(s) && ClaimableSession(s, now, mobileId, token).Ok?
    ensures var p := ClaimableSession(s, now, mobileId, token).value;
      && p.pairSessionId in s.pairSessions && s.pairSessions[p.pairSessionId] == p && p.claimToken == token
      && Open(p) && p.expiresAt > now && (p.claimedMobileId in {None, Some(mobileId)})
      && mobileId in s.mobiles && s.mobiles[mobileId].mobileId == mobileId
  {
    hide AuthAgrees, TokensDiffer, BindingsBack, OnePerPair, PairIssued;
  }

  lemma LookupEntities(s: State, now: int, mobileId: string, token: string, name: string)
    requires EntityInv(s.desktops, s.mobiles, s.authSessions)
    ensures var s1 := ClaimLookup(s, now, mobileId, token, name);
      EntityInv(s1.desktops, s1.mobiles, s.authSessions)
      && s1 == s.(mobiles := s1.mobiles, pairSessions := s1.pairSessions, claimIndex := s1.claimIndex)
      && (ClaimableSession(s, now, mobileId, token) != Err(ExpiredError) ==>
            s1.pairSessions == s.pairSessions && s1.claimIndex == s.claimIndex)
  {
    if ClaimableSession(s, now, mobileId, token).Ok? {
      var m := s.mobiles[mobileId];
      assert m.mobileId == mobileId;
      hide EntityInv;
      PutMobile(s.desktops, s.mobiles, s.authSessions, ClaimingMobile(m, now, name));
    }
  }

  /** Closing a session and dropping its token, its binding untouched. */
  lemma CloseKeeps(sessions: map<string, PairSession>, index: map<string, string>, bindings: map<string, Binding>, issued: set<string>, p: PairSession)
    requires PairInv(sessions, index, bindings, issued) && p.pairSessionId in sessions
    requires var q := sessions[p.pairSessionId];
      q.claimToken == p.claimToken && q.bindingId == p.bindingId && q.claimedMobileId == p.claimedMobileId && q.deviceId == p.deviceId
    requires p.status == Expired || (p.status == Approved && p.bindingId.Some?)
    ensures PairInv(sessions[p.pairSessionId := p], index - {p.claimToken}, bindings, issued)
  {
    ClosedKeeps(sessions, index, p);
    assert WellShaped(p) && ClaimBound(p, bindings);
    hide TokensDiffer, IndexExact, OnePerPair;
  }

  lemma LookupExpired(s: State, now: int, mobileId: string, token: string, name: string)
    requires Inv(s) && ClaimableSession(s, now, mobileId, token) == Err(ExpiredError)
    ensures var s1 := ClaimLookup(s, now, mobileId, token, name);
      PairInv(s1.pairSessions, s1.claimIndex, s1.bindings, s1.issued)
  {
    var p := s.pairSessions[s.claimIndex[token]].(status := Expired, updatedAt := now);
    assert p.pairSessionId == s.claimIndex[token] && p.claimToken == token;
    hide PairInv, EntityInv;
    CloseKeeps(s.pairSessions, s.claimIndex, s.bindings, s.issued, p);
  }

  lemma ClaimKeeps(s: State, now: int, mobileId: string, token: string, name: string, found: Option<Binding>, freshId: string)
    requires Inv(s) && freshId !in s.issued && Answers(s, now, mobileId, token, found)
    ensures Inv(ClaimOn(s, now, mobileId, token, name, found, freshId).0)
  {
    LookupEntities(s, now, mobileId, token, name);
    var (s1, r) := ClaimOn(s, now, mobileId, token, name, found, freshId);
    if r.Ok? {
      ClaimableIs(s, now, mobileId, token);
      ClaimShape(s, now, mobileId, token, name, found, freshId);
      hide ClaimOn, ClaimLookup, ClaimableSession, EntityInv, PairInv, ClaimBinding, Found, Open;
      var m := ClaimingMobile(s.mobiles[mobileId], now, name);
      ClaimPairKeeps(s.pairSessions, s.claimIndex, s.bindings, s.issued, ClaimableSession(s, now, mobileId, token).value, m, now, found, freshId);
    } else {
      assert s1 == ClaimLookup(s, now, mobileId, token, name);
      hide ClaimOn, ClaimLookup, ClaimableSession, EntityInv, PairInv;
      if ClaimableSession(s, now, mobileId, token) == Err(ExpiredError) {
        LookupExpired(s, now, mobileId, token, name);
      }
    }
  }

  lemma ApprovePairKeeps(sessions: map<string, PairSession>, index: map<string, string>, bindings: map<string, Binding>, issued: set<string>, b: Binding)
    requires PairInv(sessions, index, bindings, issued) && b.bindingId in bindings && b.trust == ActiveTrust
    requires var c := bindings[b.bindingId]; c.deviceId == b.deviceId && c.mobileId == b.mobileId && c.pairSessionId == b.pairSessionId
    ensures PairInv(sessions, index, bindings[b.bindingId := b], issued)
  {
    forall k | k in bindings && Rivals(bindings[k], b) ensures k == b.bindingId { assert Rivals(bindings[k], bindings[b.bindingId]); }
    BindingKeepsOne(bindings, b);
    hide TokensDiffer, IndexExact, OnePerPair;
  }

  lemma ApproveKeeps(s: State, now: int, who: Principal, id: string)
    requires Inv(s)
    ensures Inv(ApproveOn(s, now, who, id).0)
  {
    var (s1, r) := ApproveOn(s, now, who, id);
    if r.Ok? {
      var b1 := r.value;
      assert s.bindings[id].bindingId == id && b1.bindingId == id;
      ApprovePairKeeps(s.pairSessions, s.claimIndex, s.bindings, s.issued, b1);
      if b1.pairSessionId in s.pairSessions {
        var p := s.pairSessions[b1.pairSessionId].(status := Approved, updatedAt := now);
        assert p.bindingId.Some? && p.pairSessionId == b1.pairSessionId;
        hide EntityInv, PairInv;
        CloseKeeps(s.pairSessions, s.claimIndex, s.bindings[id := b1], s.issued, p);
      }
    }
  }
}
