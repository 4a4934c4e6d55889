/** What each operation of the first control plane answers and leaves behind, told from the records and the request. */
module DeviceOutcomes {
  import opened Helpers
  import opened DeviceState
  import opened DeviceIndexes

  // ---------- Pruning ----------

  /** Not seen for 30 days, on a clock past that age. */
  predicate Lapsed(d: Device, now: int) {
    now > 2_592_000_000 && d.lastSeenAt <= now - 2_592_000_000
  }

  predicate Lapsing(s: DeviceStore, id: string, now: int) {
    id in s.devices && Lapsed(s.devices[id], now)
  }

  /** A prune removes exactly the lapsed devices, and with them their sessions and bindings; what stays is unchanged. */
  lemma PrunedExactly(s: DeviceStore, now: int)
    ensures var p := PruneDevices(s, now);
      && (forall k :: k in p.devices <==> k in s.devices && !Lapsing(s, k, now)) && (forall k :: k in p.devices ==> p.devices[k] == s.devices[k])
      && (forall k :: k in p.sessions <==> k in s.sessions && !Lapsing(s, s.sessions[k].deviceId, now)) && (forall k :: k in p.sessions ==> p.sessions[k] == s.sessions[k])
      && (forall k :: k in p.bindings <==> k in s.bindings && !Lapsing(s, s.bindings[k].deviceId, now)) && (forall k :: k in p.bindings ==> p.bindings[k] == s.bindings[k])
      && p.issued == s.issued
  {
    assert now - INACTIVE_TTL > 0 ==> forall k :: k in Inactive(s.devices, now - INACTIVE_TTL) <==> Lapsing(s, k, now);
    hide Inactive, KeysOf, Carried, Lapsed;
  }

  /** An index after the prune is the one before, less the tokens of the removed records. */
  lemma PrunedIndexes(s: DeviceStore, now: int, t: string)
    requires Inv(s)
    ensures var p := PruneDevices(s, now);
      && (t in p.deviceTokens <==> t in s.deviceTokens && !Lapsing(s, s.deviceTokens[t], now)) && (t in p.deviceTokens ==> p.deviceTokens[t] == s.deviceTokens[t])
      && (t in p.codeIndex <==> t in s.codeIndex && s.codeIndex[t] in p.sessions) && (t in p.codeIndex ==> p.codeIndex[t] == s.codeIndex[t])
      && (t in p.tokenIndex <==> t in s.tokenIndex && s.tokenIndex[t] in p.sessions) && (t in p.tokenIndex ==> p.tokenIndex[t] == s.tokenIndex[t])
      && (t in p.mobileTokens <==> t in s.mobileTokens && s.mobileTokens[t] in p.bindings) && (t in p.mobileTokens ==> p.mobileTokens[t] == s.mobileTokens[t])
  {
    hide *;
    var p := PruneDevices(s, now);
    PruneKeeps(s, now);
    PrunedExactly(s, now);
    InvInverses(s);
    InvInverses(p);
    Restricted(DeviceTokens(s.devices), s.deviceTokens, DeviceTokens(p.devices), p.deviceTokens, t);
    Restricted(PairTokens(s.sessions), s.tokenIndex, PairTokens(p.sessions), p.tokenIndex, t);
    Restricted(PairCodes(s.sessions), s.codeIndex, PairCodes(p.sessions), p.codeIndex, t);
    Restricted(ActiveTokens(s.bindings), s.mobileTokens, ActiveTokens(p.bindings), p.mobileTokens, t);
    TokensOf(s);
    TokensOf(p);
    KeptTokens(s, p);
    IndexedKeys(s, t);
  }

  lemma InvInverses(s: DeviceStore)
    requires Inv(s)
    ensures Inverse(DeviceTokens(s.devices), s.deviceTokens) && Inverse(PairTokens(s.sessions), s.tokenIndex)
    ensures Inverse(PairCodes(s.sessions), s.codeIndex) && Inverse(ActiveTokens(s.bindings), s.mobileTokens)
  {
    hide Inverse, AllClean, Differ, DeviceTokens, PairTokens, PairCodes, ActiveTokens, MobileTokens, Housed, OneActive, BindingsIssued;
  }

  lemma IndexedKeys(s: DeviceStore, t: string)
    requires Inv(s)
    ensures t in s.deviceTokens ==> s.deviceTokens[t] in s.devices
    ensures t in s.mobileTokens ==> s.mobileTokens[t] in ActiveTokens(s.bindings)
  {
    InvInverses(s);
    hide Inv, ActiveTokens;
  }

  lemma TokensOf(s: DeviceStore)
    ensures DeviceTokens(s.devices).Keys == s.devices.Keys && PairTokens(s.sessions).Keys == s.sessions.Keys && PairCodes(s.sessions).Keys == s.sessions.Keys
    ensures forall k :: k in ActiveTokens(s.bindings) <==> k in s.bindings && s.bindings[k].active
  {
  }

  lemma KeptTokens(s: DeviceStore, p: DeviceStore)
    requires forall k :: k in p.devices ==> k in s.devices && p.devices[k] == s.devices[k]
    requires forall k :: k in p.sessions ==> k in s.sessions && p.sessions[k] == s.sessions[k]
    requires forall k :: k in p.bindings ==> k in s.bindings && p.bindings[k] == s.bindings[k]
    ensures Within(DeviceTokens(p.devices), DeviceTokens(s.devices)) && Within(PairTokens(p.sessions), PairTokens(s.sessions))
    ensures Within(PairCodes(p.sessions), PairCodes(s.sessions)) && Within(ActiveTokens(p.bindings), ActiveTokens(s.bindings))
  {
  }

  ghost predicate Within(less: map<string, string>, all: map<string, string>) {
    forall k :: k in less ==> k in all && less[k] == all[k]
  }

  lemma Restricted(all: map<string, string>, index: map<string, string>, less: map<string, string>, index1: map<string, string>, t: string)
    requires Inverse(all, index) && Inverse(less, index1)
    ensures Within(less, all) ==> (t in index1 <==> t in index && index[t] in less) && (t in index1 ==> index1[t] == index[t])
  {
  }

  // ---------- Registration ----------

  /** A stored device is registered again only with its own token. */
  predicate MayRegister(p: DeviceStore, id: string, credential: string) {
    id in p.devices ==> TrimSpace(credential) != "" && TrimSpace(credential) == TrimSpace(p.devices[id].deviceToken)
  }

  predicate ReadsAs(raw: string, value: string) {
    value == if TrimSpace(raw) == "" then "unknown" else TrimSpace(raw)
  }

  /** Registering a device that the prune leaves stored succeeds exactly when the trimmed credential is nonempty and equals its
      trimmed token, and keeps that token; a device that is not stored gets the fresh one. A refusal leaves the pruned store. */
  lemma RegisterExactly(s: DeviceStore, now: int, rawId: string, platform: string, appVersion: string, credential: string, token: string)
    requires Inv(s) && Clean(token)
    ensures var p := PruneDevices(s, now); var (s1, r) := Register(s, now, rawId, platform, appVersion, credential, token); var id := TrimSpace(rawId);
      && (r.Ok? <==> id != "" && MayRegister(p, id, credential))
      && (r.Err? ==> (if id == "" then r.error == Validation && s1 == s else r.error == Unauthorized && s1 == p))
      && (r.Ok? ==>
            && r.value.deviceId == id && ReadsAs(platform, r.value.platform) && ReadsAs(appVersion, r.value.appVersion)
            && r.value.status == "online" && r.value.lastSeenAt == now && r.value.updatedAt == now
            && r.value.deviceToken == (if id in p.devices then p.devices[id].deviceToken else token)
            && r.value.createdAt == (if id in p.devices then p.devices[id].createdAt else now)
            && s1 == p.(devices := p.devices[id := r.value], deviceTokens := p.deviceTokens[r.value.deviceToken := id], issued := p.issued + {token}))
  {
    PruneKeeps(s, now);
    StoredDevice(PruneDevices(s, now), TrimSpace(rawId));
    hide PruneDevices, Inv, TrimSpace;
  }

  lemma StoredDevice(p: DeviceStore, id: string)
    requires Inv(p)
    ensures id in p.devices ==> p.devices[id].deviceId == id && Clean(p.devices[id].deviceToken) && p.devices[id].deviceToken in p.issued
  {
    if id in p.devices { assert DeviceTokens(p.devices)[id] == p.devices[id].deviceToken; }
    hide Inverse, Clean, SessionsOk, BindingsOk, Housed;
  }

  /** A heartbeat reaches exactly the stored devices and changes only the times and the status. */
  lemma HeartbeatExactly(s: DeviceStore, pruneNow: int, now: int, rawId: string)
    ensures var p := PruneDevices(s, pruneNow); var (s1, r) := Heartbeat(s, pruneNow, now, rawId); var id := TrimSpace(rawId);
      && (r.Ok? <==> id != "" && id in p.devices)
      && (r.Ok? ==>
            && var d := p.devices[id];
               && r.value == Device(d.deviceId, d.createdAt, d.deviceToken, d.platform, d.appVersion, "online", now, now)
               && s1 == p.(devices := p.devices[id := r.value]))
      && (r.Err? ==> (if id == "" then r.error == Validation && s1 == s else r.error == NotFound && s1 == p))
  {
    hide PruneDevices, TrimSpace;
  }

  // ---------- Pair sessions ----------

  lemma {:induction false} FreeCodeIs(codes: seq<string>, index: map<string, string>, i: nat)
    ensures FreeCode(codes, index).None? <==> forall c <- codes :: c in index
    ensures i < |codes| && codes[i] !in index && (forall c <- codes[..i] :: c in index) ==> FreeCode(codes, index) == Some(codes[i])
  {
    if codes != [] && codes[0] in index {
      FreeCodeIs(codes[1..], index, if i > 0 then i - 1 else 0);
      assert codes == [codes[0]] + codes[1..];
      if 0 < i < |codes| { assert codes[..i] == [codes[0]] + codes[1..][..i - 1]; assert codes[1..][i - 1] == codes[i]; }
    }
  }

  /** A stored device opens a waiting session with the first drawn code that is free, for 60 to 600 seconds, 180 unless it asks;
      with every drawn code in use, or no such device, nothing is stored. */
  lemma OpenExactly(s: DeviceStore, pruneNow: int, now: int, rawId: string, ttl: int, sessionId: string, token: string, codes: seq<string>, i: nat)
    ensures var p := PruneDevices(s, pruneNow); var (s1, r) := OpenSession(s, pruneNow, now, rawId, ttl, sessionId, token, codes); var id := TrimSpace(rawId);
      && (r.Ok? <==> id != "" && id in p.devices && exists c <- codes :: c !in p.codeIndex)
      && (r.Ok? ==>
            var seconds := if ttl == 0 then 180 else if ttl < 60 then 60 else if ttl > 600 then 600 else ttl;
            && r.value.pairCode !in p.codeIndex
            && r.value == Session(sessionId, id, r.value.pairCode, token, Waiting, now, now + seconds * 1000, None, None, None)
            && s1 == p.(sessions := p.sessions[sessionId := r.value], tokenIndex := p.tokenIndex[token := sessionId],
                        codeIndex := p.codeIndex[r.value.pairCode := sessionId], issued := p.issued + {sessionId, token})
            && (i < |codes| && codes[i] !in p.codeIndex && (forall c <- codes[..i] :: c in p.codeIndex) ==> r.value.pairCode == codes[i]))
      && (r.Err? ==> (if id == "" then r.error == Validation && s1 == s else r.error == (if id in p.devices then Internal else NotFound) && s1 == p))
  {
    FreeCodeIs(codes, PruneDevices(s, pruneNow).codeIndex, i);
    FreeCodeIsFree(codes, PruneDevices(s, pruneNow).codeIndex);
    hide PruneDevices, TrimSpace, FreeCode;
  }

  // ---------- Claims ----------

  /** The user a claim is for: the one it names, or a made-up one. */
  predicate Acts(rawUser: string, spare: string, user: string) {
    if TrimSpace(rawUser) == "" then user == spare else user == TrimSpace(rawUser)
  }

  /** The session carries the token, or the code, of the claim. */
  predicate Carries(p: Session, byCode: bool, rawKey: string) {
    TrimSpace(rawKey) != "" && TrimSpace(rawKey) == if byCode then p.pairCode else p.pairToken
  }

  predicate TakenBy(p: Session, user: string) {
    p.status == Taken && (if p.claimedByUser.Some? then TrimSpace(p.claimedByUser.value) else "") == user
  }

  /** A session is taken by the user it was already taken by, or while it waits and is not past its time; a session taken by
      another user is refused as claimed, an expired one is closed, and a closed one stays closed. */
  lemma ClaimExactly(s: DeviceStore, now: int, byCode: bool, rawKey: string, rawUser: string, rawMobile: string, spareUser: string, spareMobile: string,
                     found: Option<UserBinding>, bindingId: string, mobileToken: string, k: string, user: string)
    requires Inv(s) && k in s.sessions && Carries(s.sessions[k], byCode, rawKey) && Acts(rawUser, spareUser, user)
    ensures var p := s.sessions[k];
      var (s1, r) := Claim(s, now, byCode, rawKey, rawUser, rawMobile, spareUser, spareMobile, found, bindingId, mobileToken);
      && (r.Ok? <==> TakenBy(p, user) || (p.status == Waiting && p.expiresAt >= now))
      && (r == Err(AlreadyClaimed) <==> p.status == Taken && !TakenBy(p, user))
      && (r == Err(InvalidState) <==> p.status == Over)
      && (r == Err(ExpiredError) <==> p.status == Waiting && p.expiresAt < now)
      && (r.Err? ==> s1 == if r.error == ExpiredError then s.(sessions := s.sessions[k := p.(status := Over)]) else s)
  {
    KeyOutcome(s, now, byCode, TrimSpace(rawKey), user, OrFresh(rawMobile, spareMobile), found, bindingId, mobileToken, k);
    hide Inv, TrimSpace, ClaimKey;
  }

  lemma KeyOutcome(s: DeviceStore, now: int, byCode: bool, key: string, user: string, mobile: string,
                   found: Option<UserBinding>, bindingId: string, mobileToken: string, k: string)
    requires Inv(s) && k in s.sessions && key == if byCode then s.sessions[k].pairCode else s.sessions[k].pairToken
    ensures var p := s.sessions[k]; var (s1, r) := ClaimKey(s, now, byCode, key, user, mobile, found, bindingId, mobileToken);
      && (r.Ok? <==> TakenBy(p, user) || (p.status == Waiting && p.expiresAt >= now))
      && (r == Err(AlreadyClaimed) <==> p.status == Taken && !TakenBy(p, user))
      && (r == Err(InvalidState) <==> p.status == Over)
      && (r == Err(ExpiredError) <==> p.status == Waiting && p.expiresAt < now)
      && (r.Err? ==> s1 == if r.error == ExpiredError then s.(sessions := s.sessions[k := p.(status := Over)]) else s)
  {
    KeyLeads(s, byCode, key, k);
    TakeableExactly(s, now, byCode, key, user, k);
    KeyCases(s, now, byCode, key, user, mobile, found, bindingId, mobileToken);
    hide Inv, ClaimKey, Takeable, TakenBy;
  }

  lemma KeyCases(s: DeviceStore, now: int, byCode: bool, key: string, user: string, mobile: string,
                 found: Option<UserBinding>, bindingId: string, mobileToken: string)
    ensures var (s1, r) := ClaimKey(s, now, byCode, key, user, mobile, found, bindingId, mobileToken);
      match Takeable(s, now, byCode, key, user)
      case Ok(p) => r.Ok? && s1 == Take(s, p, now, user, mobile, found, bindingId, mobileToken).0
      case Err(e) =>
        && r == Err(e)
        && if e == ExpiredError
           then var k := if byCode then s.codeIndex[key] else s.tokenIndex[key]; s1 == s.(sessions := s.sessions[k := s.sessions[k].(status := Over)])
           else s1 == s
  {
    hide Take, ClaimedUser;
  }

  lemma TakeableExactly(s: DeviceStore, now: int, byCode: bool, key: string, user: string, k: string)
    requires Inv(s) && k in s.sessions && key == if byCode then s.sessions[k].pairCode else s.sessions[k].pairToken
    ensures var p, r := s.sessions[k], Takeable(s, now, byCode, key, user);
      && (r.Ok? <==> TakenBy(p, user) || (p.status == Waiting && p.expiresAt >= now))
      && (r == Err(AlreadyClaimed) <==> p.status == Taken && !TakenBy(p, user))
      && (r == Err(InvalidState) <==> p.status == Over)
      && (r == Err(ExpiredError) <==> p.status == Waiting && p.expiresAt < now)
      && (r.Ok? ==> r.value == p)
  {
    KeyLeads(s, byCode, key, k);
    hide Inv, TrimSpace;
  }

  lemma KeyLeads(s: DeviceStore, byCode: bool, key: string, k: string)
    requires Inv(s)
    ensures k in s.sessions && key == (if byCode then s.sessions[k].pairCode else s.sessions[k].pairToken) ==>
      var index := if byCode then s.codeIndex else s.tokenIndex; key in index && index[key] == k
    ensures var index := if byCode then s.codeIndex else s.tokenIndex;
      key in index ==> index[key] in s.sessions && key == if byCode then s.sessions[index[key]].pairCode else s.sessions[index[key]].pairToken
    ensures k in s.sessions ==> s.sessions[k].pairSessionId == k
  {
    assert k in s.sessions ==> PairCodes(s.sessions)[k] == s.sessions[k].pairCode && PairTokens(s.sessions)[k] == s.sessions[k].pairToken;
    hide DevicesOk, BindingsOk, Housed, AllClean;
  }

  /** A token or code that no session carries is not found. */
  lemma ClaimUnknown(s: DeviceStore, now: int, byCode: bool, rawKey: string, rawUser: string, rawMobile: string, spareUser: string, spareMobile: string,
                     found: Option<UserBinding>, bindingId: string, mobileToken: string)
    requires Inv(s) && forall k :: k in s.sessions ==> !Carries(s.sessions[k], byCode, rawKey)
    ensures Claim(s, now, byCode, rawKey, rawUser, rawMobile, spareUser, spareMobile, found, bindingId, mobileToken)
      == (s, Err(if TrimSpace(rawKey) == "" then Validation else NotFound))
  {
    KeyLeads(s, byCode, TrimSpace(rawKey), "");
    hide Inv, TrimSpace, Take;
  }

  /** The binding that joins the user and the device, if active. */
  predicate Active(b: UserBinding, userId: string, deviceId: string) {
    b.active && b.userId == userId && b.deviceId == deviceId
  }

  /** The binding of a claim joins the user, the device and the phone under the new token, and is the active one that the user
      and the device had, if any. */
  ghost predicate Joins(bindings: map<string, UserBinding>, b: UserBinding, user: string, device: string, mobile: string, now: int, bindingId: string, mobileToken: string) {
    && b.userId == user && b.deviceId == device && b.mobileId == mobile && b.mobileToken == mobileToken && b.active && b.updatedAt == now
    && (forall k :: k in bindings && Active(bindings[k], user, device) ==> b.bindingId == k && b.createdAt == bindings[k].createdAt)
    && ((forall k :: k in bindings ==> !Active(bindings[k], user, device)) ==> b.bindingId == bindingId && b.createdAt == now)
  }

  /** A claim writes the session, which names the user and the phone from then on, and the binding. */
  predicate Took(s: DeviceStore, s1: DeviceStore, q: Session, q1: Session, b: UserBinding, now: int, user: string, mobile: string) {
    && q1 == q.(status := Taken, claimedAt := Some(now), claimedByUser := Some(user), claimedByMobile := Some(mobile))
    && s1.sessions == s.sessions[q.pairSessionId := q1] && s1.bindings == s.bindings[b.bindingId := b] && s1.devices == s.devices
    && s1.tokenIndex == s.tokenIndex && s1.codeIndex == s.codeIndex && s1.deviceTokens == s.deviceTokens
  }

  lemma ClaimWrites(s: DeviceStore, now: int, byCode: bool, rawKey: string, rawUser: string, rawMobile: string, spareUser: string, spareMobile: string,
                    found: Option<UserBinding>, bindingId: string, mobileToken: string, k: string, user: string, mobile: string)
    requires Inv(s) && Answers(s, now, byCode, TrimSpace(rawKey), user, found)
    requires k in s.sessions && Carries(s.sessions[k], byCode, rawKey) && Acts(rawUser, spareUser, user) && Acts(rawMobile, spareMobile, mobile)
    ensures var (s1, r) := Claim(s, now, byCode, rawKey, rawUser, rawMobile, spareUser, spareMobile, found, bindingId, mobileToken);
      r.Ok? ==>
        && Took(s, s1, s.sessions[k], r.value.0, r.value.1, now, user, mobile)
        && Joins(s.bindings, r.value.1, user, s.sessions[k].deviceId, mobile, now, bindingId, mobileToken)
  {
    KeyWrites(s, now, byCode, TrimSpace(rawKey), user, mobile, found, bindingId, mobileToken, k);
    hide Inv, TrimSpace, ClaimKey, Took, Joins, Answers;
  }

  lemma KeyWrites(s: DeviceStore, now: int, byCode: bool, key: string, user: string, mobile: string,
                  found: Option<UserBinding>, bindingId: string, mobileToken: string, k: string)
    requires Inv(s) && Answers(s, now, byCode, key, user, found)
    requires k in s.sessions && key == if byCode then s.sessions[k].pairCode else s.sessions[k].pairToken
    ensures var (s1, r) := ClaimKey(s, now, byCode, key, user, mobile, found, bindingId, mobileToken);
      r.Ok? ==>
        && Took(s, s1, s.sessions[k], r.value.0, r.value.1, now, user, mobile)
        && Joins(s.bindings, r.value.1, user, s.sessions[k].deviceId, mobile, now, bindingId, mobileToken)
  {
    TakeableExactly(s, now, byCode, key, user, k);
    TakeWrites(s, s.sessions[k], now, user, mobile, found, bindingId, mobileToken);
    hide Inv, Takeable, Take, Took, Joins, Search, TakenBy;
  }

  lemma TakeWrites(s: DeviceStore, q: Session, now: int, user: string, mobile: string, found: Option<UserBinding>, bindingId: string, mobileToken: string)
    requires Inv(s)
    ensures var (s1, r) := Take(s, q, now, user, mobile, found, bindingId, mobileToken);
      Search(s.bindings, user, q.deviceId, found) ==>
        Took(s, s1, q, r.0, r.1, now, user, mobile) && Joins(s.bindings, r.1, user, q.deviceId, mobile, now, bindingId, mobileToken)
  {
    if Search(s.bindings, user, q.deviceId, found) { JoinedBinding(s, q, now, user, mobile, found, bindingId, mobileToken); }
    hide Inv, Search, Joins, TakenBinding;
  }

  lemma JoinedBinding(s: DeviceStore, q: Session, now: int, user: string, mobile: string, found: Option<UserBinding>, bindingId: string, mobileToken: string)
    requires Inv(s) && Search(s.bindings, user, q.deviceId, found)
    ensures Joins(s.bindings, TakenBinding(q, now, user, mobile, found, bindingId, mobileToken), user, q.deviceId, mobile, now, bindingId, mobileToken)
  {
    forall k | k in s.bindings && Active(s.bindings[k], user, q.deviceId) ensures found == Some(s.bindings[k]) && s.bindings[k].bindingId == k {
      SearchedBinding(s, user, q.deviceId, found, k);
      StoredBinding(s, k);
    }
    assert found.Some? ==> exists k :: k in s.bindings && Active(s.bindings[k], user, q.deviceId);
    hide Inv;
  }

  /** After a claim the new mobile token leads to the binding, and the one it replaces leads nowhere. */
  lemma ClaimTokens(s: DeviceStore, now: int, byCode: bool, key: string, user: string, mobile: string,
                    found: Option<UserBinding>, bindingId: string, mobileToken: string)
    requires Inv(s) && Answers(s, now, byCode, key, user, found) && bindingId !in s.issued && mobileToken !in s.issued && Clean(mobileToken)
    ensures var (s1, r) := ClaimKey(s, now, byCode, key, user, mobile, found, bindingId, mobileToken);
      r.Ok? ==> var b := r.value.1;
        && mobileToken in s1.mobileTokens && s1.mobileTokens[mobileToken] == b.bindingId
        && (b.bindingId in s.bindings ==> s.bindings[b.bindingId].mobileToken !in s1.mobileTokens)
  {
    var (s1, r) := ClaimKey(s, now, byCode, key, user, mobile, found, bindingId, mobileToken);
    if r.Ok? {
      ClaimKeeps(s, now, byCode, key, user, mobile, found, bindingId, mobileToken);
      TakeWrites(s, Takeable(s, now, byCode, key, user).value, now, user, mobile, found, bindingId, mobileToken);
      hide Inv, ClaimKey, Takeable, Take, Answers, Clean;
      OnlyToken(s, s1, r.value.1);
    }
  }

  lemma OnlyToken(s: DeviceStore, s1: DeviceStore, b: UserBinding)
    requires Inv(s) && Inv(s1) && b.active && b.mobileToken !in s.issued && s1.bindings == s.bindings[b.bindingId := b]
    ensures b.mobileToken in s1.mobileTokens && s1.mobileTokens[b.mobileToken] == b.bindingId
    ensures b.bindingId in s.bindings ==> s.bindings[b.bindingId].mobileToken !in s1.mobileTokens
  {
    InvInverses(s1);
    InvTokens(s);
    assert ActiveTokens(s1.bindings)[b.bindingId] == b.mobileToken;
    if b.bindingId in s.bindings {
      forall j | j in s1.bindings && s1.bindings[j].active ensures s1.bindings[j].mobileToken != s.bindings[b.bindingId].mobileToken {
        if j in s.bindings && j != b.bindingId { assert s1.bindings[j] == s.bindings[j]; }
      }
    }
    hide Inv;
  }

  lemma InvTokens(s: DeviceStore)
    requires Inv(s)
    ensures forall j, k :: j in s.bindings && k in s.bindings && s.bindings[j].mobileToken == s.bindings[k].mobileToken ==> j == k
    ensures forall k :: k in s.bindings ==> s.bindings[k].mobileToken in s.issued
  {
    forall j, k | j in s.bindings && k in s.bindings && s.bindings[j].mobileToken == s.bindings[k].mobileToken ensures j == k {
      assert MobileTokens(s.bindings)[j] == MobileTokens(s.bindings)[k];
    }
    hide DevicesOk, SessionsOk, Housed, AllClean, Inverse, OneActive;
  }

  // ---------- Revocations ----------

  /** The binding a revocation names: by its id, or as the active one of a user and a device. */
  predicate Names(s: DeviceStore, k: string, rawBinding: string, rawUser: string, rawDevice: string) {
    k in s.bindings &&
    if TrimSpace(rawBinding) != "" then k == TrimSpace(rawBinding)
    else TrimSpace(rawUser) != "" && TrimSpace(rawDevice) != "" && Active(s.bindings[k], TrimSpace(rawUser), TrimSpace(rawDevice))
  }

  /** A revocation succeeds exactly when it names a binding. That binding is inactive afterwards, otherwise unchanged, and its
      token leads nowhere; nothing else changes. */
  lemma RevokeExactly(s: DeviceStore, now: int, rawBinding: string, rawUser: string, rawDevice: string, found: Option<UserBinding>, k: string)
    requires Inv(s) && (Asks(rawBinding, rawUser, rawDevice) ==> Search(s.bindings, TrimSpace(rawUser), TrimSpace(rawDevice), found))
    ensures var (s1, r) := Revoke(s, now, rawBinding, rawUser, rawDevice, found);
      && (Names(s, k, rawBinding, rawUser, rawDevice) ==>
            && r == Ok(s.bindings[k].(active := false, updatedAt := now)) && s1.bindings == s.bindings[k := r.value]
            && s.bindings[k].mobileToken !in s1.mobileTokens && s1 == s.(bindings := s1.bindings, mobileTokens := s.mobileTokens - {s.bindings[k].mobileToken}))
      && (r.Ok? ==> Names(s, r.value.bindingId, rawBinding, rawUser, rawDevice))
      && (r.Err? ==> r.error == NotFound && s1 == s)
  {
    StoredBinding(s, k);
    StoredBinding(s, TrimSpace(rawBinding));
    if Asks(rawBinding, rawUser, rawDevice) {
      SearchedBinding(s, TrimSpace(rawUser), TrimSpace(rawDevice), found, k);
    }
    hide Inv, TrimSpace, Search;
  }

  lemma SearchedBinding(s: DeviceStore, user: string, device: string, found: Option<UserBinding>, k: string)
    requires Inv(s) && Search(s.bindings, user, device, found)
    ensures k in s.bindings && Active(s.bindings[k], user, device) ==> found == Some(s.bindings[k])
    ensures found.Some? ==> found.value.bindingId in s.bindings && s.bindings[found.value.bindingId] == found.value && Active(found.value, user, device)
  {
    if k in s.bindings && Active(s.bindings[k], user, device) {
      assert Search(s.bindings, user, device, Some(s.bindings[k]));
      SearchIsDeterministic(s.bindings, user, device, found, Some(s.bindings[k]));
    }
    if found.Some? { FoundStored(s.bindings, s.mobileTokens, s.issued, user, device, found.value); }
    hide Inv;
  }

  // ---------- Bearer tokens ----------

  predicate IsDevice(s: DeviceStore, d: Device, token: string) {
    d.deviceId in s.devices && s.devices[d.deviceId] == d && d.deviceToken == TrimSpace(token)
  }

  predicate IsBinding(s: DeviceStore, b: UserBinding, token: string) {
    b.bindingId in s.bindings && s.bindings[b.bindingId] == b && b.active && b.mobileToken == TrimSpace(token)
  }

  /** A bearer token lets in exactly the device that carries it, or else exactly the active binding that does, or no one. */
  lemma IdentifyExactly(s: DeviceStore, token: string)
    requires Inv(s)
    ensures forall d :: Identify(s, token) == Ok(DeviceClient(d)) <==> IsDevice(s, d, token)
    ensures forall b :: Identify(s, token) == Ok(MobileClient(b)) <==> IsBinding(s, b, token) && forall d :: !IsDevice(s, d, token)
    ensures Identify(s, token).Err? ==> Identify(s, token) == Err(Unauthorized)
  {
    hide *;
    TokenDevice(s, TrimSpace(token));
    TokenBinding(s, TrimSpace(token));
    Identified(s, token);
  }

  lemma TokenDevice(s: DeviceStore, t: string)
    requires Inv(s)
    ensures t in s.deviceTokens ==> t != "" && s.deviceTokens[t] in s.devices && s.devices[s.deviceTokens[t]].deviceToken == t
    ensures forall k :: k in s.devices ==> s.devices[k].deviceId == k && (s.devices[k].deviceToken == t ==> t in s.deviceTokens && s.deviceTokens[t] == k)
  {
    var tokens := DeviceTokens(s.devices);
    InvInverses(s);
    if t in s.deviceTokens { StoredDevice(s, s.deviceTokens[t]); }
    forall k | k in s.devices ensures s.devices[k].deviceId == k && (s.devices[k].deviceToken == t ==> t in s.deviceTokens && s.deviceTokens[t] == k) {
      StoredDevice(s, k);
      assert tokens[k] == s.devices[k].deviceToken;
    }
    hide Inv, TrimSpace;
  }

  lemma TokenBinding(s: DeviceStore, t: string)
    requires Inv(s)
    ensures t in s.mobileTokens ==> t != "" && s.mobileTokens[t] in s.bindings && s.bindings[s.mobileTokens[t]].active && s.bindings[s.mobileTokens[t]].mobileToken == t
    ensures forall k :: k in s.bindings ==>
      s.bindings[k].bindingId == k && (s.bindings[k].active && s.bindings[k].mobileToken == t ==> t in s.mobileTokens && s.mobileTokens[t] == k)
  {
    var tokens := ActiveTokens(s.bindings);
    InvInverses(s);
    if t in s.mobileTokens { StoredBinding(s, s.mobileTokens[t]); }
    forall k | k in s.bindings
      ensures s.bindings[k].bindingId == k && (s.bindings[k].active && s.bindings[k].mobileToken == t ==> t in s.mobileTokens && s.mobileTokens[t] == k)
    {
      StoredBinding(s, k);
      if s.bindings[k].active { assert tokens[k] == s.bindings[k].mobileToken; }
    }
    hide Inv, TrimSpace;
  }

  lemma Identified(s: DeviceStore, token: string)
    ensures var t := TrimSpace(token);
      Identify(s, token) ==
        if t != "" && t in s.deviceTokens && s.deviceTokens[t] in s.devices then Ok(DeviceClient(s.devices[s.deviceTokens[t]]))
        else if t != "" && t in s.mobileTokens && s.mobileTokens[t] in s.bindings && s.bindings[s.mobileTokens[t]].active
          then Ok(MobileClient(s.bindings[s.mobileTokens[t]]))
        else Err(Unauthorized)
    ensures forall d :: IsDevice(s, d, token) <==> d.deviceId in s.devices && s.devices[d.deviceId] == d && d.deviceToken == TrimSpace(token)
    ensures forall b :: IsBinding(s, b, token) <==> b.bindingId in s.bindings && s.bindings[b.bindingId] == b && b.active && b.mobileToken == TrimSpace(token)
  {
    hide TrimSpace;
  }
}
