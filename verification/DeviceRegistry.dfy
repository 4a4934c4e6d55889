/** The first control plane itself: maps and indexes updated in place, each operation doing what its specification says. */
module DeviceRegistry {
  import opened Helpers
  import opened DeviceState
  import opened DeviceIndexes

  lemma CarriedStep(tokens: map<string, string>, gone: set<string>, k: string)
    requires k in tokens
    ensures KeysOf(Carried(tokens, gone + {k})) == KeysOf(Carried(tokens, gone)) + if TrimSpace(tokens[k]) != "" then {TrimSpace(tokens[k])} else {}
  {
    hide TrimSpace;
    assert Carried(tokens, gone + {k}) == Carried(tokens, gone) + {tokens[k]};
  }

  class Store {
    var devices: map<string, Device>
    var sessions: map<string, Session>
    var bindings: map<string, UserBinding>
    var tokenIndex: map<string, string>
    var codeIndex: map<string, string>
    var deviceTokens: map<string, string>
    var mobileTokens: map<string, string>
    ghost var issued: set<string>

    ghost function Abs(): DeviceStore
      reads this
    {
      DeviceStore(devices, sessions, bindings, tokenIndex, codeIndex, deviceTokens, mobileTokens, issued)
    }

    constructor ()
      ensures Abs() == NO_DEVICES
    {
      devices, sessions, bindings := map[], map[], map[];
      tokenIndex, codeIndex, deviceTokens, mobileTokens, issued := map[], map[], map[], map[], {};
    }

    // ---------- rebuildAuthIndexesLocked ----------

    method RebuildDeviceTokens()
      modifies this`deviceTokens
      ensures Rebuilt(DeviceTokens(devices), deviceTokens)
    {
      deviceTokens := map[];
      var todo := devices.Keys;
      while todo != {}
        invariant todo <= devices.Keys
        invariant forall t :: t in deviceTokens ==> deviceTokens[t] in devices && TrimSpace(devices[deviceTokens[t]].deviceToken) == t && t != ""
        invariant forall k :: k in devices && k !in todo && TrimSpace(devices[k].deviceToken) != "" ==> TrimSpace(devices[k].deviceToken) in deviceTokens
        decreases todo
      {
        var k :| k in todo;
        todo := todo - {k};
        var token := TrimSpace(devices[k].deviceToken);
        hide TrimSpace;
        if token == "" { continue; }
        deviceTokens := deviceTokens[token := k];
      }
    }

    method RebuildMobileTokens()
      modifies this`mobileTokens
      ensures Rebuilt(ActiveTokens(bindings), mobileTokens)
    {
      mobileTokens := map[];
      var todo := bindings.Keys;
      while todo != {}
        invariant todo <= bindings.Keys
        invariant forall t :: t in mobileTokens ==>
          mobileTokens[t] in bindings && bindings[mobileTokens[t]].active && TrimSpace(bindings[mobileTokens[t]].mobileToken) == t && t != ""
        invariant forall k :: k in bindings && k !in todo && bindings[k].active && TrimSpace(bindings[k].mobileToken) != "" ==>
          TrimSpace(bindings[k].mobileToken) in mobileTokens
        decreases todo
      {
        var k :| k in todo;
        todo := todo - {k};
        if !bindings[k].active { continue; }
        var token := TrimSpace(bindings[k].mobileToken);
        hide TrimSpace;
        if token == "" { continue; }
        mobileTokens := mobileTokens[token := k];
      }
    }

    /** On a store that runs have kept consistent a rebuild changes nothing. */
    method RebuildAuthIndexes()
      modifies this`deviceTokens, this`mobileTokens
      ensures Rebuilt(DeviceTokens(devices), deviceTokens) && Rebuilt(ActiveTokens(bindings), mobileTokens)
      ensures Inv(old(Abs())) ==> Abs() == old(Abs())
    {
      hide Rebuilt, DeviceTokens, ActiveTokens, Inv;
      ghost var was := Abs();
      RebuildDeviceTokens();
      RebuildMobileTokens();
      if Inv(was) { IncrementalIsRebuilt(was, deviceTokens, mobileTokens); }
    }

    // ---------- pruneInactiveDevicesLocked ----------

    method RemoveDevices(cutoff: int) returns (removed: set<string>)
      modifies this`devices, this`deviceTokens
      ensures removed == Inactive(old(devices), cutoff)
      ensures devices == old(devices) - removed && deviceTokens == old(deviceTokens) - KeysOf(Carried(DeviceTokens(old(devices)), removed))
    {
      hide KeysOf, Carried, TrimSpace;
      ghost var tokens := DeviceTokens(devices);
      removed := {};
      assert KeysOf(Carried(tokens, {})) == {} by { NothingCarried(tokens); }
      var todo := devices.Keys;
      while todo != {}
        invariant todo <= old(devices).Keys
        invariant removed == set d | d in old(devices) && d !in todo && old(devices)[d].lastSeenAt <= cutoff
        invariant devices == old(devices) - removed && deviceTokens == old(deviceTokens) - KeysOf(Carried(tokens, removed))
        decreases todo
      {
        var d :| d in todo;
        todo := todo - {d};
        if devices[d].lastSeenAt > cutoff { continue; }
        CarriedStep(tokens, removed, d);
        removed := removed + {d};
        var token := TrimSpace(devices[d].deviceToken);
        if token != "" { deviceTokens := deviceTokens - {token}; }
        devices := devices - {d};
      }
    }

    method RemoveSessions(removed: set<string>)
      modifies this`sessions, this`tokenIndex, this`codeIndex
      ensures var gone := SessionsOf(old(sessions), removed);
        sessions == old(sessions) - gone && tokenIndex == old(tokenIndex) - KeysOf(Carried(PairTokens(old(sessions)), gone))
        && codeIndex == old(codeIndex) - KeysOf(Carried(PairCodes(old(sessions)), gone))
    {
      hide KeysOf, Carried, TrimSpace;
      ghost var tokens, codes := PairTokens(sessions), PairCodes(sessions);
      assert forall k :: k in sessions ==> k in tokens && tokens[k] == sessions[k].pairToken && k in codes && codes[k] == sessions[k].pairCode;
      hide PairTokens, PairCodes;
      ghost var gone: set<string> := {};
      NothingCarried(tokens);
      NothingCarried(codes);
      var todo := sessions.Keys;
      while todo != {}
        invariant todo <= old(sessions).Keys
        invariant gone == set k | k in old(sessions) && k !in todo && old(sessions)[k].deviceId in removed
        invariant sessions == old(sessions) - gone
        invariant tokenIndex == old(tokenIndex) - KeysOf(Carried(tokens, gone)) && codeIndex == old(codeIndex) - KeysOf(Carried(codes, gone))
        decreases todo
      {
        var k :| k in todo;
        todo := todo - {k};
        if sessions[k].deviceId !in removed { continue; }
        CarriedStep(tokens, gone, k);
        CarriedStep(codes, gone, k);
        var token, code := TrimSpace(sessions[k].pairToken), TrimSpace(sessions[k].pairCode);
        MinusOne(old(tokenIndex), KeysOf(Carried(tokens, gone)), token);
        MinusOne(old(codeIndex), KeysOf(Carried(codes, gone)), code);
        gone := gone + {k};
        if token != "" { tokenIndex := tokenIndex - {token}; }
        if code != "" { codeIndex := codeIndex - {code}; }
        sessions := sessions - {k};
      }
      assert gone == SessionsOf(old(sessions), removed);
    }

    method RemoveBindings(removed: set<string>)
      modifies this`bindings, this`mobileTokens
      ensures var gone := BindingsOf(old(bindings), removed);
        bindings == old(bindings) - gone && mobileTokens == old(mobileTokens) - KeysOf(Carried(MobileTokens(old(bindings)), gone))
    {
      hide KeysOf, Carried, TrimSpace;
      ghost var tokens := MobileTokens(bindings);
      ghost var gone: set<string> := {};
      NothingCarried(tokens);
      var todo := bindings.Keys;
      while todo != {}
        invariant todo <= old(bindings).Keys
        invariant gone == set k | k in old(bindings) && k !in todo && old(bindings)[k].deviceId in removed
        invariant bindings == old(bindings) - gone && mobileTokens == old(mobileTokens) - KeysOf(Carried(tokens, gone))
        decreases todo
      {
        var k :| k in todo;
        todo := todo - {k};
        if bindings[k].deviceId !in removed { continue; }
        CarriedStep(tokens, gone, k);
        gone := gone + {k};
        var token := TrimSpace(bindings[k].mobileToken);
        if token != "" { mobileTokens := mobileTokens - {token}; }
        bindings := bindings - {k};
      }
      assert gone == BindingsOf(old(bindings), removed);
    }

    method RemoveDependents(removed: set<string>)
      modifies this`sessions, this`tokenIndex, this`codeIndex, this`bindings, this`mobileTokens
      ensures var gone := SessionsOf(old(sessions), removed);
        sessions == old(sessions) - gone && tokenIndex == old(tokenIndex) - KeysOf(Carried(PairTokens(old(sessions)), gone))
        && codeIndex == old(codeIndex) - KeysOf(Carried(PairCodes(old(sessions)), gone))
      ensures var gone := BindingsOf(old(bindings), removed);
        bindings == old(bindings) - gone && mobileTokens == old(mobileTokens) - KeysOf(Carried(MobileTokens(old(bindings)), gone))
    {
      hide KeysOf, Carried, PairTokens, PairCodes, MobileTokens, SessionsOf, BindingsOf;
      RemoveSessions(removed);
      RemoveBindings(removed);
    }

    method PruneInactive(now: int) returns (removedCount: nat)
      modifies this
      ensures Abs() == PruneDevices(old(Abs()), now)
      ensures removedCount == if now - INACTIVE_TTL <= 0 then 0 else |Inactive(old(devices), now - INACTIVE_TTL)|
    {
      hide KeysOf, Carried, DeviceTokens, PairTokens, PairCodes, MobileTokens, SessionsOf, BindingsOf, Inactive, DropDevices;
      ghost var was := Abs();
      var cutoff := now - INACTIVE_TTL;
      if cutoff <= 0 { return 0; }
      var removed := RemoveDevices(cutoff);
      if |removed| == 0 {
        assert removed == {};
        NothingCarried(DeviceTokens(was.devices));
        Without(was.devices);
        Without(was.deviceTokens);
        DropNothing(was);
        return 0;
      }
      RemoveDependents(removed);
      DroppedIs(was, Abs(), removed);
      return |removed|;
    }

    // ---------- Operations ----------

    method RegisterDevice(now: int, rawId: string, rawPlatform: string, rawVersion: string, credential: string, freshToken: string)
      returns (r: Result<Device>)
      modifies this
      ensures (Abs(), r) == Register(old(Abs()), now, rawId, rawPlatform, rawVersion, credential, freshToken)
    {
      hide PruneDevices, TrimSpace;
      var id := TrimSpace(rawId);
      if id == "" { return Err(Validation); }
      var platform := TrimSpace(rawPlatform);
      if platform == "" { platform := "unknown"; }
      var appVersion := TrimSpace(rawVersion);
      if appVersion == "" { appVersion := "unknown"; }
      var _ := PruneInactive(now);
      var device := Device(id, now, freshToken, "", "", "", 0, 0);
      if id in devices {
        device := devices[id];
        var presented := TrimSpace(credential);
        if presented == "" || presented != TrimSpace(device.deviceToken) { return Err(Unauthorized); }
      }
      device := device.(platform := platform, appVersion := appVersion, status := "online", lastSeenAt := now, updatedAt := now);
      devices := devices[id := device];
      if TrimSpace(device.deviceToken) != "" { deviceTokens := deviceTokens[device.deviceToken := id]; }
      issued := issued + {freshToken};
      return Ok(device);
    }

    method HeartbeatDevice(pruneNow: int, now: int, rawId: string) returns (r: Result<Device>)
      modifies this
      ensures (Abs(), r) == Heartbeat(old(Abs()), pruneNow, now, rawId)
    {
      hide PruneDevices, TrimSpace;
      var id := TrimSpace(rawId);
      if id == "" { return Err(Validation); }
      var _ := PruneInactive(pruneNow);
      if id !in devices { return Err(NotFound); }
      var device := devices[id].(lastSeenAt := now, updatedAt := now, status := "online");
      devices := devices[id := device];
      return Ok(device);
    }

    /** `codes` are the codes the source draws, at most ten, until one is not in the index. */
    method CreatePairSession(pruneNow: int, now: int, rawId: string, ttlSeconds: int, sessionId: string, token: string, codes: seq<string>)
      returns (r: Result<Session>)
      modifies this
      ensures (Abs(), r) == OpenSession(old(Abs()), pruneNow, now, rawId, ttlSeconds, sessionId, token, codes)
    {
      hide PruneDevices, TrimSpace;
      var id := TrimSpace(rawId);
      if id == "" { return Err(Validation); }
      var _ := PruneInactive(pruneNow);
      if id !in devices { return Err(NotFound); }
      var ttl := ttlSeconds;
      if ttl == 0 { ttl := SESSION_DEFAULT_TTL; }
      ttl := ClampInt(ttl, SESSION_MIN_TTL, SESSION_MAX_TTL);
      var code := None;
      var i := 0;
      while i < |codes| && code == None
        invariant 0 <= i <= |codes|
        invariant match code case None => FreeCode(codes[i..], codeIndex) == FreeCode(codes, codeIndex) case Some(_) => code == FreeCode(codes, codeIndex)
      {
        if codes[i] !in codeIndex { code := Some(codes[i]); }
        i := i + 1;
      }
      if code == None { return Err(Internal); }
      var session := Session(sessionId, id, code.value, token, Waiting, now, now + ttl * 1000, None, None, None);
      sessions := sessions[sessionId := session];
      tokenIndex := tokenIndex[token := sessionId];
      codeIndex := codeIndex[code.value := sessionId];
      issued := issued + {sessionId, token};
      return Ok(session);
    }

    method GetActiveBinding(userId: string, deviceId: string) returns (found: Option<UserBinding>)
      ensures Search(bindings, userId, deviceId, found)
    {
      var todo := bindings.Keys;
      while todo != {}
        invariant todo <= bindings.Keys
        invariant forall k :: k in bindings && k !in todo ==> !Serves(bindings[k], userId, deviceId)
        decreases todo
      {
        var k :| k in todo;
        todo := todo - {k};
        if Serves(bindings[k], userId, deviceId) { return Some(bindings[k]); }
      }
      return None;
    }

    method ClaimSession(now: int, session: Session, userId: string, mobileId: string, freshId: string, mobileToken: string)
      returns (r: (Session, UserBinding), ghost found: Option<UserBinding>)
      modifies this
      ensures Search(old(bindings), userId, session.deviceId, found)
      ensures (Abs(), r) == Take(old(Abs()), session, now, userId, mobileId, found, freshId, mobileToken)
    {
      hide Search;
      var existing := GetActiveBinding(userId, session.deviceId);
      found := existing;
      var binding;
      match existing {
        case None => binding := UserBinding(freshId, userId, session.deviceId, mobileId, mobileToken, true, now, now);
        case Some(b) =>
          if b.mobileToken != "" { mobileTokens := mobileTokens - {b.mobileToken}; }
          binding := b.(mobileId := mobileId, mobileToken := mobileToken, updatedAt := now);
      }
      if binding.mobileToken != "" { mobileTokens := mobileTokens[binding.mobileToken := binding.bindingId]; }
      bindings := bindings[binding.bindingId := binding];
      var taken := session.(status := Taken, claimedAt := Some(now), claimedByUser := Some(userId), claimedByMobile := Some(mobileId));
      sessions := sessions[taken.pairSessionId := taken];
      issued := issued + {freshId, mobileToken};
      r := (taken, binding);
    }

    /** `claimByToken` and `claimByCode`, which differ in the index they look the session up in. */
    method ClaimPair(now: int, byCode: bool, rawKey: string, rawUser: string, rawMobile: string, spareUser: string, spareMobile: string,
                     freshId: string, mobileToken: string) returns (r: Result<(Session, UserBinding)>, ghost found: Option<UserBinding>)
      modifies this
      ensures Answers(old(Abs()), now, byCode, TrimSpace(rawKey), OrFresh(rawUser, spareUser), found) || TrimSpace(rawKey) == ""
      ensures (Abs(), r) == Claim(old(Abs()), now, byCode, rawKey, rawUser, rawMobile, spareUser, spareMobile, found, freshId, mobileToken)
    {
      hide TrimSpace, Search, Take;
      found := None;
      var key := TrimSpace(rawKey);
      if key == "" { return Err(Validation), None; }
      var userId := TrimSpace(rawUser);
      if userId == "" { userId := spareUser; }
      var mobileId := TrimSpace(rawMobile);
      if mobileId == "" { mobileId := spareMobile; }
      var index := if byCode then codeIndex else tokenIndex;
      if key !in index || index[key] !in sessions { return Err(NotFound), None; }
      var session := sessions[index[key]];
      if session.status != Waiting {
        if session.status == Taken {
          if ClaimedUser(session) == userId {
            assert Takeable(Abs(), now, byCode, key, userId) == Ok(session);
            var claimed, answer := ClaimSession(now, session, userId, mobileId, freshId, mobileToken);
            return Ok(claimed), answer;
          }
          return Err(AlreadyClaimed), None;
        }
        return Err(InvalidState), None;
      }
      if session.expiresAt < now {
        sessions := sessions[index[key] := session.(status := Over)];
        return Err(ExpiredError), None;
      }
      assert Takeable(Abs(), now, byCode, key, userId) == Ok(session);
      var claimed, answer := ClaimSession(now, session, userId, mobileId, freshId, mobileToken);
      return Ok(claimed), answer;
    }

    method RevokePair(now: int, rawBinding: string, rawUser: string, rawDevice: string)
      returns (r: Result<UserBinding>, ghost answer: Option<UserBinding>)
      modifies this
      ensures Asks(rawBinding, rawUser, rawDevice) ==> Search(old(bindings), TrimSpace(rawUser), TrimSpace(rawDevice), answer)
      ensures (Abs(), r) == Revoke(old(Abs()), now, rawBinding, rawUser, rawDevice, answer)
    {
      hide TrimSpace, Search;
      var bindingId, userId, deviceId := TrimSpace(rawBinding), TrimSpace(rawUser), TrimSpace(rawDevice);
      answer := None;
      var found := None;
      if bindingId != "" {
        if bindingId in bindings { found := Some(bindings[bindingId]); }
      } else if userId != "" && deviceId != "" {
        found := GetActiveBinding(userId, deviceId);
        answer := found;
      }
      if found == None { return Err(NotFound), answer; }
      var binding := found.value;
      if binding.mobileToken != "" { mobileTokens := mobileTokens - {binding.mobileToken}; }
      binding := binding.(active := false, updatedAt := now);
      bindings := bindings[binding.bindingId := binding];
      return Ok(binding), answer;
    }

    method DeviceByToken(token: string) returns (device: Option<Device>)
      ensures device == match Identify(Abs(), token) case Ok(DeviceClient(d)) => Some(d) case _ => None
    {
      hide TrimSpace;
      var t := TrimSpace(token);
      if t == "" || t !in deviceTokens || deviceTokens[t] !in devices { return None; }
      return Some(devices[deviceTokens[t]]);
    }

    method ActiveBindingByMobileToken(token: string) returns (binding: Option<UserBinding>)
      ensures var r := Identify(Abs(), token); !(r.Ok? && r.value.DeviceClient?) ==> binding == if r.Ok? then Some(r.value.binding) else None
    {
      hide TrimSpace;
      var t := TrimSpace(token);
      if t == "" || t !in mobileTokens || mobileTokens[t] !in bindings { return None; }
      var b := bindings[mobileTokens[t]];
      return if b.active then Some(b) else None;
    }

    /** A device token is tried before a mobile token. */
    method AuthenticateRequest(token: string) returns (r: Result<Client>)
      ensures r == Identify(Abs(), token)
    {
      var device := DeviceByToken(token);
      if device.Some? { return Ok(DeviceClient(device.value)); }
      var binding := ActiveBindingByMobileToken(token);
      return if binding.Some? then Ok(MobileClient(binding.value)) else Err(Unauthorized);
    }
  }

  lemma MinusOne(m: map<string, string>, gone: set<string>, t: string)
    ensures (m - gone) - {t} == m - (gone + {t}) && m - (gone + {}) == m - gone
  {
    assert gone + {} == gone;
  }

  lemma NothingCarried(tokens: map<string, string>)
    ensures KeysOf(Carried(tokens, {})) == {}
  {
    hide TrimSpace;
  }

  lemma DropNothing(s: DeviceStore)
    ensures DropDevices(s, {}) == s
  {
    assert SessionsOf(s.sessions, {}) == {} && BindingsOf(s.bindings, {}) == {};
    NothingCarried(DeviceTokens(s.devices));
    NothingCarried(PairTokens(s.sessions));
    NothingCarried(PairCodes(s.sessions));
    NothingCarried(MobileTokens(s.bindings));
    Without(s.devices);
    Without(s.sessions);
    Without(s.bindings);
    Without(s.deviceTokens);
    hide KeysOf, Carried, SessionsOf, BindingsOf;
    Without(s.tokenIndex);
    Without(s.codeIndex);
    Without(s.mobileTokens);
  }

  lemma Without<T>(m: map<string, T>)
    ensures m - {} == m
  {
  }

  lemma DroppedIs(s: DeviceStore, s1: DeviceStore, removed: set<string>)
    requires s1.devices == s.devices - removed && s1.deviceTokens == s.deviceTokens - KeysOf(Carried(DeviceTokens(s.devices), removed))
    requires s1.sessions == s.sessions - SessionsOf(s.sessions, removed)
    requires s1.tokenIndex == s.tokenIndex - KeysOf(Carried(PairTokens(s.sessions), SessionsOf(s.sessions, removed)))
    requires s1.codeIndex == s.codeIndex - KeysOf(Carried(PairCodes(s.sessions), SessionsOf(s.sessions, removed)))
    requires s1.bindings == s.bindings - BindingsOf(s.bindings, removed)
    requires s1.mobileTokens == s.mobileTokens - KeysOf(Carried(MobileTokens(s.bindings), BindingsOf(s.bindings, removed)))
    requires s1.issued == s.issued
    ensures s1 == DropDevices(s, removed)
  {
    hide KeysOf, Carried, SessionsOf, BindingsOf, DeviceTokens, PairTokens, PairCodes, MobileTokens;
  }
}
