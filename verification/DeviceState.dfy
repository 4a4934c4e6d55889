/** The first control plane as values: devices, pair sessions, bindings, and four indexes kept up to date by hand. */
module DeviceState {
  import opened Helpers

  datatype Device = Device(
    deviceId: string, createdAt: int, deviceToken: string, platform: string, appVersion: string,
    status: string, lastSeenAt: int, updatedAt: int)
  datatype SessionStatus = Waiting | Taken | Over
  datatype Session = Session(
    pairSessionId: string, deviceId: string, pairCode: string, pairToken: string, status: SessionStatus,
    createdAt: int, expiresAt: int, claimedAt: Option<int>, claimedByUser: Option<string>, claimedByMobile: Option<string>)
  datatype UserBinding = UserBinding(
    bindingId: string, userId: string, deviceId: string, mobileId: string, mobileToken: string, active: bool,
    createdAt: int, updatedAt: int)

  /** `issued` is every id and token drawn so far; pair codes are drawn from a million and may come again. */
  datatype DeviceStore = DeviceStore(
    devices: map<string, Device>, sessions: map<string, Session>, bindings: map<string, UserBinding>,
    tokenIndex: map<string, string>, codeIndex: map<string, string>,
    deviceTokens: map<string, string>, mobileTokens: map<string, string>, issued: set<string>)

  const NO_DEVICES := DeviceStore(map[], map[], map[], map[], map[], map[], map[], {})

  const INACTIVE_TTL := 30 * 24 * 60 * 60 * 1000
  const CODE_ATTEMPTS := 10
  const SESSION_MIN_TTL := 60
  const SESSION_MAX_TTL := 600
  const SESSION_DEFAULT_TTL := 180

  // ---------- pruneInactiveDevicesLocked ----------

  function Inactive(devices: map<string, Device>, cutoff: int): set<string> {
    set d | d in devices && devices[d].lastSeenAt <= cutoff
  }

  /** The index keys a stored token or code accounts for. */
  function KeysOf(tokens: set<string>): set<string> {
    set t | t in tokens && TrimSpace(t) != "" :: TrimSpace(t)
  }

  function DeviceTokens(devices: map<string, Device>): map<string, string> {
    map k | k in devices :: devices[k].deviceToken
  }

  function PairTokens(sessions: map<string, Session>): map<string, string> {
    map k | k in sessions :: sessions[k].pairToken
  }

  function PairCodes(sessions: map<string, Session>): map<string, string> {
    map k | k in sessions :: sessions[k].pairCode
  }

  function MobileTokens(bindings: map<string, UserBinding>): map<string, string> {
    map k | k in bindings :: bindings[k].mobileToken
  }

  function Carried(tokens: map<string, string>, gone: set<string>): set<string> {
    set k | k in tokens && k in gone :: tokens[k]
  }

  function SessionsOf(sessions: map<string, Session>, removed: set<string>): set<string> {
    set k | k in sessions && sessions[k].deviceId in removed
  }

  function BindingsOf(bindings: map<string, UserBinding>, removed: set<string>): set<string> {
    set k | k in bindings && bindings[k].deviceId in removed
  }

  function DropDevices(s: DeviceStore, removed: set<string>): DeviceStore {
    var goneSessions, goneBindings := SessionsOf(s.sessions, removed), BindingsOf(s.bindings, removed);
    s.(devices := s.devices - removed,
       deviceTokens := s.deviceTokens - KeysOf(Carried(DeviceTokens(s.devices), removed)),
       sessions := s.sessions - goneSessions,
       tokenIndex := s.tokenIndex - KeysOf(Carried(PairTokens(s.sessions), goneSessions)),
       codeIndex := s.codeIndex - KeysOf(Carried(PairCodes(s.sessions), goneSessions)),
       bindings := s.bindings - goneBindings,
       mobileTokens := s.mobileTokens - KeysOf(Carried(MobileTokens(s.bindings), goneBindings)))
  }

  function PruneDevices(s: DeviceStore, now: int): DeviceStore {
    var cutoff := now - INACTIVE_TTL;
    if cutoff <= 0 then s else DropDevices(s, Inactive(s.devices, cutoff))
  }

  // ---------- registerDevice, heartbeatDevice ----------

  function OrUnknown(value: string): string {
    if TrimSpace(value) == "" then "unknown" else TrimSpace(value)
  }

  function Register(s: DeviceStore, now: int, rawId: string, platform: string, appVersion: string, credential: string,
                    token: string): (DeviceStore, Result<Device>)
  {
    if TrimSpace(rawId) == "" then (s, Err(Validation))
    else RegisterOn(PruneDevices(s, now), now, TrimSpace(rawId), OrUnknown(platform), OrUnknown(appVersion), TrimSpace(credential), token)
  }

  function RegisterOn(s: DeviceStore, now: int, id: string, platform: string, appVersion: string, presented: string,
                      token: string): (DeviceStore, Result<Device>)
  {
    if id in s.devices && (presented == "" || presented != TrimSpace(s.devices[id].deviceToken)) then (s, Err(Unauthorized)) else
    var d := if id in s.devices
      then s.devices[id].(platform := platform, appVersion := appVersion, status := "online", lastSeenAt := now, updatedAt := now)
      else Device(id, now, token, platform, appVersion, "online", now, now);
    (s.(devices := s.devices[id := d],
        deviceTokens := if TrimSpace(d.deviceToken) != "" then s.deviceTokens[d.deviceToken := id] else s.deviceTokens,
        issued := s.issued + {token}),
     Ok(d))
  }

  function Heartbeat(s: DeviceStore, pruneNow: int, now: int, rawId: string): (DeviceStore, Result<Device>) {
    var id := TrimSpace(rawId);
    if id == "" then (s, Err(Validation)) else
    var p := PruneDevices(s, pruneNow);
    if id !in p.devices then (p, Err(NotFound)) else
    var d := p.devices[id].(lastSeenAt := now, updatedAt := now, status := "online");
    (p.(devices := p.devices[id := d]), Ok(d))
  }

  // ---------- createPairSession ----------

  function SessionTtl(ttlSeconds: int): int {
    ClampInt(if ttlSeconds == 0 then SESSION_DEFAULT_TTL else ttlSeconds, SESSION_MIN_TTL, SESSION_MAX_TTL)
  }

  /** The first drawn code that is not in the index. */
  function FreeCode(codes: seq<string>, index: map<string, string>): Option<string> {
    if codes == [] then None else if codes[0] !in index then Some(codes[0]) else FreeCode(codes[1..], index)
  }

  function OpenSession(s: DeviceStore, pruneNow: int, now: int, rawId: string, ttlSeconds: int,
                       sessionId: string, token: string, codes: seq<string>): (DeviceStore, Result<Session>)
  {
    var id := TrimSpace(rawId);
    if id == "" then (s, Err(Validation)) else OpenOn(PruneDevices(s, pruneNow), now, id, ttlSeconds, sessionId, token, codes)
  }

  function OpenOn(s: DeviceStore, now: int, id: string, ttlSeconds: int,
                  sessionId: string, token: string, codes: seq<string>): (DeviceStore, Result<Session>)
  {
    if id !in s.devices then (s, Err(NotFound)) else
    match FreeCode(codes, s.codeIndex)
    case None => (s, Err(Internal))
    case Some(code) =>
      var p := Session(sessionId, id, code, token, Waiting, now, now + SessionTtl(ttlSeconds) * 1000, None, None, None);
      (s.(sessions := s.sessions[sessionId := p], tokenIndex := s.tokenIndex[token := sessionId],
          codeIndex := s.codeIndex[code := sessionId], issued := s.issued + {sessionId, token}),
       Ok(p))
  }

  // ---------- claimByToken, claimByCode ----------

  predicate Serves(b: UserBinding, userId: string, deviceId: string) {
    b.active && b.userId == userId && b.deviceId == deviceId
  }

  /** A possible answer of `getActiveBindingLocked`, which walks the map in unspecified order. */
  ghost predicate Search(bindings: map<string, UserBinding>, userId: string, deviceId: string, found: Option<UserBinding>) {
    match found
    case Some(b) => Serves(b, userId, deviceId) && exists k :: k in bindings && bindings[k] == b
    case None => forall k :: k in bindings ==> !Serves(bindings[k], userId, deviceId)
  }

  function TakenBinding(p: Session, now: int, userId: string, mobileId: string, found: Option<UserBinding>,
                        bindingId: string, mobileToken: string): UserBinding
  {
    match found
    case None => UserBinding(bindingId, userId, p.deviceId, mobileId, mobileToken, true, now, now)
    case Some(b) => b.(mobileId := mobileId, mobileToken := mobileToken, updatedAt := now)
  }

  /** `claimSessionLocked`: one binding per user and device, its mobile token replaced by the new one. */
  function Take(s: DeviceStore, p: Session, now: int, userId: string, mobileId: string, found: Option<UserBinding>,
                bindingId: string, mobileToken: string): (DeviceStore, (Session, UserBinding))
  {
    var b := TakenBinding(p, now, userId, mobileId, found, bindingId, mobileToken);
    var left := if found.Some? && found.value.mobileToken != "" then s.mobileTokens - {found.value.mobileToken} else s.mobileTokens;
    var p1 := p.(status := Taken, claimedAt := Some(now), claimedByUser := Some(userId), claimedByMobile := Some(mobileId));
    (s.(bindings := s.bindings[b.bindingId := b],
        mobileTokens := if b.mobileToken != "" then left[b.mobileToken := b.bindingId] else left,
        sessions := s.sessions[p.pairSessionId := p1],
        issued := s.issued + {bindingId, mobileToken}),
     (p1, b))
  }

  function ClaimedUser(p: Session): string {
    match p.claimedByUser case Some(u) => TrimSpace(u) case None => ""
  }

  /** The session a claim by token, or by code, may take; and for which user. */
  function Takeable(s: DeviceStore, now: int, byCode: bool, key: string, userId: string): Result<Session> {
    var index := if byCode then s.codeIndex else s.tokenIndex;
    if key !in index || index[key] !in s.sessions then Err(NotFound) else
    var p := s.sessions[index[key]];
    if p.status == Taken then
      if ClaimedUser(p) == userId then Ok(p) else Err(AlreadyClaimed)
    else if p.status == Over then Err(InvalidState)
    else if p.expiresAt < now then Err(ExpiredError)
    else Ok(p)
  }

  function OrFresh(value: string, spare: string): string {
    if TrimSpace(value) == "" then spare else TrimSpace(value)
  }

  function Claim(s: DeviceStore, now: int, byCode: bool, rawKey: string, rawUser: string, rawMobile: string,
                 spareUser: string, spareMobile: string, found: Option<UserBinding>, bindingId: string, mobileToken: string)
    : (DeviceStore, Result<(Session, UserBinding)>)
  {
    var key := TrimSpace(rawKey);
    if key == "" then (s, Err(Validation)) else
    ClaimKey(s, now, byCode, key, OrFresh(rawUser, spareUser), OrFresh(rawMobile, spareMobile), found, bindingId, mobileToken)
  }

  function ClaimKey(s: DeviceStore, now: int, byCode: bool, key: string, userId: string, mobileId: string,
                   found: Option<UserBinding>, bindingId: string, mobileToken: string): (DeviceStore, Result<(Session, UserBinding)>)
  {
    match Takeable(s, now, byCode, key, userId)
    case Ok(p) => var (s1, r) := Take(s, p, now, userId, mobileId, found, bindingId, mobileToken); (s1, Ok(r))
    case Err(e) =>
      if e == ExpiredError then
        var k := if byCode then s.codeIndex[key] else s.tokenIndex[key];
        (s.(sessions := s.sessions[k := s.sessions[k].(status := Over)]), Err(e))
      else (s, Err(e))
  }

  // ---------- revokePair ----------

  /** The binding to revoke: by its id, or else `found`, the answer of a search by user and device. */
  function ToRevoke(s: DeviceStore, bindingId: string, userId: string, deviceId: string, found: Option<UserBinding>): Option<UserBinding> {
    if bindingId != "" then (if bindingId in s.bindings then Some(s.bindings[bindingId]) else None)
    else if userId != "" && deviceId != "" then found
    else None
  }

  /** A revocation that has to search. */
  predicate Asks(rawBinding: string, rawUser: string, rawDevice: string) {
    TrimSpace(rawBinding) == "" && TrimSpace(rawUser) != "" && TrimSpace(rawDevice) != ""
  }

  function Revoke(s: DeviceStore, now: int, rawBinding: string, rawUser: string, rawDevice: string, found: Option<UserBinding>)
    : (DeviceStore, Result<UserBinding>)
  {
    match ToRevoke(s, TrimSpace(rawBinding), TrimSpace(rawUser), TrimSpace(rawDevice), found)
    case None => (s, Err(NotFound))
    case Some(b) =>
      var b1 := b.(active := false, updatedAt := now);
      (s.(bindings := s.bindings[b.bindingId := b1],
          mobileTokens := if b.mobileToken != "" then s.mobileTokens - {b.mobileToken} else s.mobileTokens),
       Ok(b1))
  }

  // ---------- authenticateRequest ----------

  /** Who a bearer token stands for. */
  datatype Client = DeviceClient(device: Device) | MobileClient(binding: UserBinding)

  function Identify(s: DeviceStore, token: string): Result<Client> {
    var t := TrimSpace(token);
    if t != "" && t in s.deviceTokens && s.deviceTokens[t] in s.devices then Ok(DeviceClient(s.devices[s.deviceTokens[t]]))
    else if t != "" && t in s.mobileTokens && s.mobileTokens[t] in s.bindings && s.bindings[s.mobileTokens[t]].active
      then Ok(MobileClient(s.bindings[s.mobileTokens[t]]))
    else Err(Unauthorized)
  }
}
