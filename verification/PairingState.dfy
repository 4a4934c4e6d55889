/** The pairing control plane as values: what each store operation does to the whole state, errors included. */
module PairingState {
  import opened Helpers

  datatype EntityType = DesktopType | MobileType
  datatype Trust = PendingTrust | ActiveTrust | RevokedTrust
  datatype Status = Pending | Claimed | Approved | Expired

  datatype Desktop = Desktop(
    deviceId: string, publicKey: string, platform: string, appVersion: string,
    createdAt: int, updatedAt: int, lastSeenAt: int, presence: string)
  datatype Mobile = Mobile(
    mobileId: string, mobileName: string, publicKey: string, platform: string, appVersion: string,
    createdAt: int, updatedAt: int, lastSeenAt: int, presence: string)
  datatype Challenge = Challenge(
    challengeId: string, entityType: EntityType, entityId: string, publicKey: string, nonce: string,
    createdAt: int, expiresAt: int)
  datatype AuthSession = AuthSession(
    sessionId: string, token: string, entityType: EntityType, entityId: string, publicKey: string,
    createdAt: int, updatedAt: int, expiresAt: int)
  datatype PairSession = PairSession(
    pairSessionId: string, deviceId: string, devicePublicKey: string, claimToken: string, sessionNonce: string,
    status: Status, createdAt: int, updatedAt: int, expiresAt: int,
    claimedMobileId: Option<string>, bindingId: Option<string>)
  datatype Binding = Binding(
    bindingId: string, pairSessionId: string, deviceId: string, devicePublicKey: string,
    mobileId: string, mobileName: string, mobilePublicKey: string, trust: Trust,
    createdAt: int, updatedAt: int, approvedAt: Option<int>)
  datatype Event = Event(id: string, kind: string, payload: string)

  /** The part of an authenticated request that the store looks at. */
  datatype Principal = Principal(entityType: EntityType, entityId: string)

  /** `issued` is every random id and token handed out so far; the source draws 128 random bits for each. */
  datatype State = State(
    desktops: map<string, Desktop>, mobiles: map<string, Mobile>,
    challenges: map<string, Challenge>, authSessions: map<string, AuthSession>,
    pairSessions: map<string, PairSession>, claimIndex: map<string, string>,
    bindings: map<string, Binding>, queues: map<string, seq<Event>>,
    issued: set<string>)

  const ENTITY_TTL := 15 * 60 * 1000
  const AUTH_TTL := 15 * 60 * 1000
  const CHALLENGE_TTL := 5 * 60 * 1000
  const PAIR_MIN_TTL := 60
  const PAIR_MAX_TTL := 600
  const PAIR_DEFAULT_TTL := 180

  const EMPTY := State(map[], map[], map[], map[], map[], map[], map[], map[], {})

  // ---------- Helpers of the source ----------

  function TypeName(t: EntityType): string {
    match t case DesktopType => "desktop" case MobileType => "mobile"
  }

  function ClientKey(clientType: string, clientId: string): string {
    clientType + ":" + clientId
  }

  function EntityKey(t: EntityType, id: string): string {
    ClientKey(TypeName(t), id)
  }

  function ParseEntityType(value: string): Option<EntityType> {
    var t := TrimSpace(value);
    if t == "desktop" then Some(DesktopType) else if t == "mobile" then Some(MobileType) else None
  }

  function LastActive(lastSeenAt: int, updatedAt: int): int {
    if lastSeenAt > updatedAt then lastSeenAt else updatedAt
  }

  predicate DesktopAlive(d: Desktop, now: int) {
    LastActive(d.lastSeenAt, d.updatedAt) > now - ENTITY_TTL
  }

  predicate MobileAlive(m: Mobile, now: int) {
    LastActive(m.lastSeenAt, m.updatedAt) > now - ENTITY_TTL
  }

  predicate Open(p: PairSession) {
    p.status == Pending || p.status == Claimed
  }

  // ---------- pruneExpiredLocked ----------

  predicate Lapses(p: PairSession, now: int) {
    p.expiresAt <= now && Open(p)
  }

  function PrunePair(p: PairSession, now: int): PairSession {
    if Lapses(p, now) then p.(status := Expired, updatedAt := now) else p
  }

  function LapsedTokens(sessions: map<string, PairSession>, now: int): set<string> {
    set k | k in sessions && Lapses(sessions[k], now) :: sessions[k].claimToken
  }

  function KeepDesktops(desktops: map<string, Desktop>, now: int): map<string, Desktop> {
    map k | k in desktops && DesktopAlive(desktops[k], now) :: desktops[k]
  }

  function KeepMobiles(mobiles: map<string, Mobile>, now: int): map<string, Mobile> {
    map k | k in mobiles && MobileAlive(mobiles[k], now) :: mobiles[k]
  }

  function RemovedKeys(desktops: map<string, Desktop>, mobiles: map<string, Mobile>, now: int): set<string> {
    (set k | k in desktops && !DesktopAlive(desktops[k], now) :: EntityKey(DesktopType, k))
    + (set k | k in mobiles && !MobileAlive(mobiles[k], now) :: EntityKey(MobileType, k))
  }

  predicate Survives(a: AuthSession, removed: set<string>, now: int) {
    a.expiresAt > now && EntityKey(a.entityType, a.entityId) !in removed
  }

  function PruneAuth(auth: map<string, AuthSession>, removed: set<string>, now: int): map<string, AuthSession> {
    map t | t in auth && Survives(auth[t], removed, now) :: auth[t]
  }

  function PrunePairs(sessions: map<string, PairSession>, now: int): map<string, PairSession> {
    map k | k in sessions :: PrunePair(sessions[k], now)
  }

  function KeepChallenges(challenges: map<string, Challenge>, now: int): map<string, Challenge> {
    map k | k in challenges && challenges[k].expiresAt > now :: challenges[k]
  }

  function Prune(s: State, now: int): State {
    var removed := RemovedKeys(s.desktops, s.mobiles, now);
    s.(challenges := KeepChallenges(s.challenges, now),
       authSessions := PruneAuth(s.authSessions, removed, now),
       pairSessions := PrunePairs(s.pairSessions, now),
       claimIndex := s.claimIndex - LapsedTokens(s.pairSessions, now),
       desktops := KeepDesktops(s.desktops, now),
       mobiles := KeepMobiles(s.mobiles, now),
       queues := s.queues - removed)
  }

  // ---------- Challenges, login, authentication ----------

  /** Requests as they arrive. A key is None if it is malformed and canonical otherwise; a signature is None if it is
      malformed, and otherwise says whether it verifies over the stored challenge. */
  datatype ChallengeRequest = ChallengeRequest(entityType: string, entityId: string, publicKey: Option<string>)
  datatype LoginRequest = LoginRequest(
    entityType: string, entityId: string, challengeId: string, publicKey: Option<string>, signature: Option<bool>)

  datatype Claimant = Claimant(entityType: EntityType, entityId: string, publicKey: string)
  datatype LoginArgs = LoginArgs(who: Claimant, challengeId: string, verified: bool)

  function ReadClaimant(entityType: string, entityId: string, publicKey: Option<string>): Result<Claimant> {
    var t := ParseEntityType(entityType);
    if t == None || TrimSpace(entityId) == "" || publicKey == None then Err(Validation)
    else Ok(Claimant(t.value, TrimSpace(entityId), publicKey.value))
  }

  function ReadLogin(req: LoginRequest): Result<LoginArgs> {
    var c := ReadClaimant(req.entityType, req.entityId, req.publicKey);
    if c.Err? || TrimSpace(req.challengeId) == "" || req.signature == None then Err(Validation)
    else Ok(LoginArgs(c.value, TrimSpace(req.challengeId), req.signature.value))
  }

  function CreateChallenge(s: State, now: int, req: ChallengeRequest, challengeId: string, nonce: string): (State, Result<Challenge>) {
    match ReadClaimant(req.entityType, req.entityId, req.publicKey)
    case Err(e) => (s, Err(e))
    case Ok(c) =>
      var (s1, r) := ChallengeOn(Prune(s, now), now, c.entityType, c.entityId, c.publicKey, challengeId, nonce);
      (s1, Ok(r))
  }

  function ChallengeOn(s: State, now: int, entityType: EntityType, entityId: string, publicKey: string,
                       challengeId: string, nonce: string): (State, Challenge)
  {
    var c := Challenge(challengeId, entityType, entityId, publicKey, nonce, now, now + CHALLENGE_TTL);
    (s.(challenges := s.challenges[challengeId := c], issued := s.issued + {challengeId, nonce}), c)
  }

  function LoginDesktop(s: State, now: int, id: string, key: string): Desktop {
    if id in s.desktops then
      var d := s.desktops[id];
      d.(updatedAt := now, lastSeenAt := if d.lastSeenAt <= 0 then now else d.lastSeenAt)
    else Desktop(id, key, "", "", now, now, now, "offline")
  }

  function LoginMobile(s: State, now: int, id: string, key: string): Mobile {
    if id in s.mobiles then
      s.mobiles[id].(updatedAt := now, lastSeenAt := now, presence := "online")
    else Mobile(id, "", key, "", "", now, now, now, "online")
  }

  /** The stored public key of an entity, if it exists. */
  function KeyOf(s: State, t: EntityType, id: string): Option<string> {
    match t
    case DesktopType => if id in s.desktops then Some(s.desktops[id].publicKey) else None
    case MobileType => if id in s.mobiles then Some(s.mobiles[id].publicKey) else None
  }

  function WithEntity(s: State, now: int, t: EntityType, id: string, key: string): State {
    match t
    case DesktopType => s.(desktops := s.desktops[id := LoginDesktop(s, now, id, key)])
    case MobileType => s.(mobiles := s.mobiles[id := LoginMobile(s, now, id, key)])
  }

  function Login(s: State, now: int, req: LoginRequest, sessionId: string, token: string): (State, Result<AuthSession>) {
    match ReadLogin(req)
    case Err(e) => (s, Err(e))
    case Ok(a) =>
      LoginOn(Prune(s, now), now, a.who.entityType, a.who.entityId, a.challengeId, a.who.publicKey, a.verified, sessionId, token)
  }

  function LoginOn(s: State, now: int, entityType: EntityType, entityId: string, challengeId: string, publicKey: string,
                   verified: bool, sessionId: string, token: string): (State, Result<AuthSession>)
  {
    if challengeId !in s.challenges then (s, Err(NotFound)) else
    var c := s.challenges[challengeId];
    if c.expiresAt <= now then (s.(challenges := s.challenges - {challengeId}), Err(ExpiredError))
    else if c.entityType != entityType || c.entityId != entityId || c.publicKey != publicKey then (s, Err(Forbidden))
    else if !verified then (s, Err(Unauthorized))
    else if KeyOf(s, entityType, entityId) != None && KeyOf(s, entityType, entityId) != Some(publicKey) then (s, Err(Forbidden))
    else
      var a := AuthSession(sessionId, token, entityType, entityId, publicKey, now, now, now + AUTH_TTL);
      var s1 := WithEntity(s, now, entityType, entityId, publicKey);
      (s1.(challenges := s1.challenges - {challengeId},
           authSessions := s1.authSessions[token := a],
           issued := s1.issued + {sessionId, token}),
       Ok(a))
  }

  function Authenticate(s: State, now: int, token: string): (State, Result<AuthSession>) {
    var t := TrimSpace(token);
    if t == "" then (s, Err(Unauthorized)) else AuthenticateOn(Prune(s, now), now, t)
  }

  function AuthenticateOn(s: State, now: int, t: string): (State, Result<AuthSession>) {
    if t !in s.authSessions then (s, Err(Unauthorized)) else
    var a := s.authSessions[t];
    if a.expiresAt <= now then (s.(authSessions := s.authSessions - {t}), Err(Unauthorized)) else
    var a1 := a.(updatedAt := now, expiresAt := now + AUTH_TTL);
    var s1 := s.(authSessions := s.authSessions[t := a1]);
    (Restored(s1, now, a1), Ok(a1))
  }

  /** The entity of an auth session, created again if it is not stored. */
  function Restored(s: State, now: int, a: AuthSession): State {
    match a.entityType
    case DesktopType =>
      if a.entityId in s.desktops then s else
        s.(desktops := s.desktops[a.entityId := Desktop(a.entityId, a.publicKey, "", "", a.createdAt, now, now, "offline")])
    case MobileType =>
      if a.entityId in s.mobiles then s else
        s.(mobiles := s.mobiles[a.entityId := Mobile(a.entityId, "", a.publicKey, "", "", a.createdAt, now, now, "online")])
  }

  function SeenDesktop(d: Desktop, now: int, announce: bool, platform: string, appVersion: string): Desktop {
    d.(platform := if announce || platform != "" then platform else d.platform,
       appVersion := if announce || appVersion != "" then appVersion else d.appVersion,
       lastSeenAt := now, updatedAt := now, presence := "online")
  }

  function SeenMobile(m: Mobile, now: int, platform: string, appVersion: string): Mobile {
    m.(platform := if platform != "" then platform else m.platform,
       appVersion := if appVersion != "" then appVersion else m.appVersion,
       lastSeenAt := now, updatedAt := now, presence := "online")
  }

  /** `announcePresence` and `heartbeatPresence`; a desktop announcement overwrites platform and version even when blank. */
  function Presence(s: State, now: int, who: Principal, announce: bool, platform: string, appVersion: string): (State, Result<()>) {
    PresenceOn(Prune(s, now), now, who, announce, platform, appVersion)
  }

  function PresenceOn(s: State, now: int, who: Principal, announce: bool, platform: string, appVersion: string): (State, Result<()>) {
    var p, v := TrimSpace(platform), TrimSpace(appVersion);
    match who.entityType
    case DesktopType =>
      if who.entityId !in s.desktops then (s, Err(NotFound)) else
      var d := s.desktops[who.entityId];
      (s.(desktops := s.desktops[d.deviceId := SeenDesktop(d, now, announce, p, v)]), Ok(()))
    case MobileType =>
      if who.entityId !in s.mobiles then (s, Err(NotFound)) else
      var m := s.mobiles[who.entityId];
      (s.(mobiles := s.mobiles[m.mobileId := SeenMobile(m, now, p, v)]), Ok(()))
  }

  // ---------- Pair sessions ----------

  function PairTtl(ttlSeconds: int): int {
    ClampInt(if ttlSeconds == 0 then PAIR_DEFAULT_TTL else ttlSeconds, PAIR_MIN_TTL, PAIR_MAX_TTL)
  }

  function CreatePairSession(s: State, now: int, who: Principal, ttlSeconds: int,
                             pairSessionId: string, claimToken: string, nonce: string): (State, Result<PairSession>)
  {
    if who.entityType != DesktopType then (s, Err(Forbidden))
    else CreateOn(Prune(s, now), now, who, ttlSeconds, pairSessionId, claimToken, nonce)
  }

  function CreateOn(s: State, now: int, who: Principal, ttlSeconds: int,
                    pairSessionId: string, claimToken: string, nonce: string): (State, Result<PairSession>)
  {
    if who.entityId !in s.desktops then (s, Err(NotFound)) else
    var d := s.desktops[who.entityId];
    var p := PairSession(pairSessionId, d.deviceId, d.publicKey, claimToken, nonce, Pending, now, now,
                         now + PairTtl(ttlSeconds) * 1000, None, None);
    (s.(pairSessions := s.pairSessions[pairSessionId := p],
        claimIndex := s.claimIndex[claimToken := pairSessionId],
        issued := s.issued + {pairSessionId, claimToken, nonce}),
     Ok(p))
  }

  function DeletePairSession(s: State, now: int, who: Principal, rawId: string): (State, Result<PairSession>) {
    if who.entityType != DesktopType then (s, Err(Forbidden))
    else if TrimSpace(rawId) == "" then (s, Err(Validation))
    else DeleteOn(Prune(s, now), who, TrimSpace(rawId))
  }

  function DeleteOn(s: State, who: Principal, id: string): (State, Result<PairSession>) {
    if id !in s.pairSessions then (s, Err(NotFound)) else
    var p := s.pairSessions[id];
    if p.deviceId != who.entityId then (s, Err(Forbidden))
    else if p.bindingId != None || p.status != Pending then (s, Err(InvalidState))
    else (s.(pairSessions := s.pairSessions - {id}, claimIndex := s.claimIndex - {p.claimToken}), Ok(p))
  }

  predicate Binds(b: Binding, deviceId: string, mobileId: string) {
    b.deviceId == deviceId && b.mobileId == mobileId && b.trust != RevokedTrust
  }

  /** A possible answer of `findBindingLocked`, which walks the map in unspecified order. */
  ghost predicate Found(bindings: map<string, Binding>, deviceId: string, mobileId: string, found: Option<Binding>) {
    match found
    case Some(b) => Binds(b, deviceId, mobileId) && exists k :: k in bindings && bindings[k] == b
    case None => forall k :: k in bindings ==> !Binds(bindings[k], deviceId, mobileId)
  }

  /** The lookups of `claimPair` before it searches for a binding: the session to claim, or why not. */
  function ClaimableSession(s: State, now: int, mobileId: string, token: string): Result<PairSession> {
    if token !in s.claimIndex || s.claimIndex[token] !in s.pairSessions then Err(NotFound) else
    var p := s.pairSessions[s.claimIndex[token]];
    if p.expiresAt <= now then Err(ExpiredError)
    else if !Open(p) then Err(InvalidState)
    else if p.status == Claimed && p.claimedMobileId != None && p.claimedMobileId != Some(mobileId) then Err(AlreadyClaimed)
    else if mobileId !in s.mobiles then Err(NotFound)
    else Ok(p)
  }

  function ClaimingMobile(m: Mobile, now: int, mobileName: string): Mobile {
    if mobileName == "" then m else m.(mobileName := mobileName, updatedAt := now)
  }

  /** State after the lookups: an expired session is closed on the way, and a given display name is stored. */
  function ClaimLookup(s: State, now: int, mobileId: string, token: string, mobileName: string): State {
    match ClaimableSession(s, now, mobileId, token)
    case Ok(_) =>
      var m := s.mobiles[mobileId];
      if mobileName == "" then s else s.(mobiles := s.mobiles[m.mobileId := ClaimingMobile(m, now, mobileName)])
    case Err(e) =>
      if e == ExpiredError then
        var k := s.claimIndex[token];
        s.(pairSessions := s.pairSessions[k := s.pairSessions[k].(status := Expired, updatedAt := now)],
           claimIndex := s.claimIndex - {token})
      else s
  }

  function ClaimBinding(found: Option<Binding>, p: PairSession, m: Mobile, now: int, freshId: string): Binding {
    match found
    case Some(b) =>
      if b.trust == PendingTrust then
        b.(pairSessionId := p.pairSessionId, mobilePublicKey := m.publicKey, mobileName := m.mobileName,
           devicePublicKey := p.devicePublicKey, updatedAt := now)
      else NewBinding(p, m, now, freshId)
    case None => NewBinding(p, m, now, freshId)
  }

  function NewBinding(p: PairSession, m: Mobile, now: int, freshId: string): Binding {
    Binding(freshId, p.pairSessionId, p.deviceId, p.devicePublicKey, m.mobileId, m.mobileName, m.publicKey,
            PendingTrust, now, now, None)
  }

  /** `found` is the answer of `findBindingLocked` for the session's device and the claiming mobile. */
  function ClaimPair(s: State, now: int, who: Principal, rawToken: string, mobileName: string,
                     found: Option<Binding>, freshId: string): (State, Result<(PairSession, Binding)>)
  {
    if who.entityType != MobileType then (s, Err(Forbidden))
    else if TrimSpace(rawToken) == "" then (s, Err(Validation))
    else ClaimOn(Prune(s, now), now, who.entityId, TrimSpace(rawToken), mobileName, found, freshId)
  }

  function ClaimOn(s: State, now: int, mobileId: string, token: string, mobileName: string,
                   found: Option<Binding>, freshId: string): (State, Result<(PairSession, Binding)>)
  {
    var s1 := ClaimLookup(s, now, mobileId, token, mobileName);
    match ClaimableSession(s, now, mobileId, token)
    case Err(e) => (s1, Err(e))
    case Ok(p) =>
      var m := ClaimingMobile(s.mobiles[mobileId], now, mobileName);
      if found.Some? && found.value.trust == ActiveTrust then (s1, Err(InvalidState)) else
      var b := ClaimBinding(found, p, m, now, freshId);
      var p1 := p.(status := Claimed, updatedAt := now, claimedMobileId := Some(m.mobileId), bindingId := Some(b.bindingId));
      (s1.(bindings := s1.bindings[b.bindingId := b],
           pairSessions := s1.pairSessions[p.pairSessionId := p1],
           issued := s1.issued + {freshId}),
       Ok((p1, b)))
  }

  function ApproveBinding(s: State, now: int, who: Principal, rawId: string): (State, Result<Binding>) {
    if who.entityType != DesktopType then (s, Err(Forbidden))
    else if TrimSpace(rawId) == "" then (s, Err(Validation))
    else ApproveOn(Prune(s, now), now, who, TrimSpace(rawId))
  }

  function ApproveOn(s: State, now: int, who: Principal, id: string): (State, Result<Binding>) {
    if id !in s.bindings then (s, Err(NotFound)) else
    var b := s.bindings[id];
    if b.deviceId != who.entityId then (s, Err(Forbidden))
    else if b.trust != PendingTrust then (s, Err(InvalidState))
    else
      var b1 := b.(trust := ActiveTrust, approvedAt := Some(now), updatedAt := now);
      var s1 := s.(bindings := s.bindings[b.bindingId := b1]);
      if b.pairSessionId in s1.pairSessions then
        var p := s1.pairSessions[b.pairSessionId];
        (s1.(pairSessions := s1.pairSessions[p.pairSessionId := p.(status := Approved, updatedAt := now)],
             claimIndex := s1.claimIndex - {p.claimToken}),
         Ok(b1))
      else (s1, Ok(b1))
  }

  // ---------- Who may signal whom ----------

  predicate Pairs(b: Binding, deviceId: string, mobileId: string) {
    b.deviceId == deviceId && b.mobileId == mobileId && b.trust == ActiveTrust
  }

  predicate HasActive(bindings: map<string, Binding>, deviceId: string, mobileId: string) {
    exists k :: k in bindings && Pairs(bindings[k], deviceId, mobileId)
  }

  /** `authorizeSignalSend`: as oneself, to the other kind, along an active binding. */
  function AuthorizeSend(s: State, who: Principal, rawFromType: string, rawFromId: string, rawToType: string, rawToId: string): Result<()> {
    var fromType, fromId, toType, toId := TrimSpace(rawFromType), TrimSpace(rawFromId), TrimSpace(rawToType), TrimSpace(rawToId);
    if fromType == "" || fromId == "" || toType == "" || toId == "" then Err(Validation)
    else if fromType != TypeName(who.entityType) || fromId != who.entityId then Err(Forbidden)
    else match who.entityType
      case DesktopType =>
        if toType != TypeName(MobileType) || !HasActive(s.bindings, who.entityId, toId) then Err(Forbidden) else Ok(())
      case MobileType =>
        if toType != TypeName(DesktopType) || !HasActive(s.bindings, toId, who.entityId) then Err(Forbidden) else Ok(())
  }
}
