/** The four indexes of the first control plane are at all times the inverse of the records they index. */
module DeviceIndexes {
  import opened Helpers
  import opened DeviceState

  // ---------- Inverse maps ----------

  /** The index is the inverse of the tokens: it maps t to k exactly when k carries t. */
  ghost predicate Inverse(tokens: map<string, string>, index: map<string, string>) {
    && (forall t :: t in index ==> index[t] in tokens && tokens[index[t]] == t)
    && (forall k :: k in tokens ==> tokens[k] in index && index[tokens[k]] == k)
  }

  ghost predicate Differ(tokens: map<string, string>) {
    forall j, k :: j in tokens && k in tokens && tokens[j] == tokens[k] ==> j == k
  }

  /** A token or code that survives trimming, as every drawn one does. */
  predicate Clean(t: string) {
    t != "" && TrimSpace(t) == t
  }

  ghost predicate AllClean(tokens: map<string, string>) {
    forall k :: k in tokens ==> Clean(tokens[k])
  }

  lemma InverseAdd(tokens: map<string, string>, index: map<string, string>, k: string, t: string)
    requires Inverse(tokens, index) && (if k in tokens then tokens[k] == t else t !in index)
    ensures Inverse(tokens[k := t], index[t := k])
  {
  }

  lemma InverseMinus(tokens: map<string, string>, index: map<string, string>, left: map<string, string>, dropped: set<string>)
    requires Inverse(tokens, index)
    requires forall k :: k in left ==> k in tokens && left[k] == tokens[k]
    requires forall k :: k in tokens ==> (k in left <==> tokens[k] !in dropped)
    ensures Inverse(left, index - dropped)
  {
  }

  /** Replacing one key's token: the old index entry goes and the new one comes. */
  lemma InverseReplace(tokens: map<string, string>, index: map<string, string>, k: string, t: string)
    requires Inverse(tokens, index) && k in tokens && t !in index
    ensures Inverse(tokens[k := t], (index - {tokens[k]})[t := k])
  {
  }

  // ---------- The invariant ----------

  function ActiveTokens(bindings: map<string, UserBinding>): map<string, string> {
    map k | k in bindings && bindings[k].active :: bindings[k].mobileToken
  }

  ghost predicate DevicesOk(devices: map<string, Device>, deviceTokens: map<string, string>, issued: set<string>) {
    && Inverse(DeviceTokens(devices), deviceTokens) && AllClean(DeviceTokens(devices))
    && (forall k :: k in devices ==> devices[k].deviceId == k && devices[k].deviceToken in issued)
  }

  ghost predicate SessionsOk(sessions: map<string, Session>, tokenIndex: map<string, string>, codeIndex: map<string, string>, issued: set<string>) {
    && Inverse(PairTokens(sessions), tokenIndex) && AllClean(PairTokens(sessions))
    && Inverse(PairCodes(sessions), codeIndex) && AllClean(PairCodes(sessions))
    && (forall k :: k in sessions ==> sessions[k].pairSessionId == k && k in issued && sessions[k].pairToken in issued)
  }

  predicate SameClient(a: UserBinding, b: UserBinding) {
    a.active && b.active && a.userId == b.userId && a.deviceId == b.deviceId
  }

  /** At most one active binding per user and device. */
  ghost predicate OneActive(bindings: map<string, UserBinding>) {
    forall j, k | j in bindings && k in bindings && SameClient(bindings[j], bindings[k]) :: j == k
  }

  ghost predicate BindingsOk(bindings: map<string, UserBinding>, mobileTokens: map<string, string>, issued: set<string>) {
    && Inverse(ActiveTokens(bindings), mobileTokens) && AllClean(MobileTokens(bindings)) && Differ(MobileTokens(bindings))
    && OneActive(bindings) && BindingsIssued(bindings, issued)
  }

  ghost predicate BindingsIssued(bindings: map<string, UserBinding>, issued: set<string>) {
    forall k :: k in bindings ==> bindings[k].bindingId == k && k in issued && bindings[k].mobileToken in issued
  }

  /** Every session and every binding, revoked ones too, is of a stored device. */
  ghost predicate Housed(devices: map<string, Device>, sessions: map<string, Session>, bindings: map<string, UserBinding>) {
    && (forall k :: k in sessions ==> sessions[k].deviceId in devices)
    && (forall k :: k in bindings ==> bindings[k].deviceId in devices)
  }

  ghost predicate Inv(s: DeviceStore) {
    && DevicesOk(s.devices, s.deviceTokens, s.issued)
    && SessionsOk(s.sessions, s.tokenIndex, s.codeIndex, s.issued)
    && BindingsOk(s.bindings, s.mobileTokens, s.issued)
    && Housed(s.devices, s.sessions, s.bindings)
  }

  lemma NoDevicesInv()
    ensures Inv(NO_DEVICES)
  {
  }

  // ---------- Rebuilding ----------

  /** A possible outcome of `rebuildAuthIndexesLocked` on one map of tokens, in any order. */
  ghost predicate Rebuilt(tokens: map<string, string>, index: map<string, string>) {
    && (forall t :: t in index ==> index[t] in tokens && TrimSpace(tokens[index[t]]) == t && t != "")
    && (forall k :: k in tokens && TrimSpace(tokens[k]) != "" ==> TrimSpace(tokens[k]) in index)
  }

  lemma RebuiltExactly(tokens: map<string, string>, index: map<string, string>, other: map<string, string>)
    requires Inverse(tokens, index) && AllClean(tokens)
    ensures Rebuilt(tokens, other) <==> other == index
  {
    hide TrimSpace;
    if Rebuilt(tokens, other) {
      forall t ensures t in other <==> t in index {
        if t in index { assert Clean(tokens[index[t]]); }
      }
    }
  }

  /** Kept up to date step by step, both token indexes are what a rebuild from the records gives, and the only thing it can give. */
  lemma IncrementalIsRebuilt(s: DeviceStore, deviceTokens: map<string, string>, mobileTokens: map<string, string>)
    requires Inv(s)
    ensures Rebuilt(DeviceTokens(s.devices), deviceTokens) <==> deviceTokens == s.deviceTokens
    ensures Rebuilt(ActiveTokens(s.bindings), mobileTokens) <==> mobileTokens == s.mobileTokens
  {
    assert AllClean(ActiveTokens(s.bindings)) by {
      assert forall k :: k in ActiveTokens(s.bindings) ==> ActiveTokens(s.bindings)[k] == MobileTokens(s.bindings)[k];
      hide Clean, Inverse, Differ, OneActive, SessionsOk, DevicesOk, Housed;
    }
    assert Inverse(DeviceTokens(s.devices), s.deviceTokens) && AllClean(DeviceTokens(s.devices)) && Inverse(ActiveTokens(s.bindings), s.mobileTokens)
      by { hide Inverse, AllClean, DeviceTokens, ActiveTokens, Differ, OneActive, SessionsOk, Housed; }
    hide *;
    RebuiltExactly(DeviceTokens(s.devices), s.deviceTokens, deviceTokens);
    RebuiltExactly(ActiveTokens(s.bindings), s.mobileTokens, mobileTokens);
  }

  // ---------- Pruning ----------

  lemma DroppedKeys(tokens: map<string, string>, gone: set<string>)
    requires AllClean(tokens)
    ensures KeysOf(Carried(tokens, gone)) == Carried(tokens, gone)
  {
    hide TrimSpace;
    assert forall k :: k in tokens ==> Clean(tokens[k]);
  }

  /** Dropping the keys in `gone` from the records, and every token they carried from the index of the live ones. */
  lemma InverseDrop(all: map<string, string>, live: map<string, string>, index: map<string, string>, gone: set<string>)
    requires Inverse(live, index) && AllClean(all) && Differ(all)
    requires live.Keys <= all.Keys && forall k :: k in live ==> live[k] == all[k]
    ensures Inverse(live - gone, index - KeysOf(Carried(all, gone))) && AllClean(all - gone) && Differ(all - gone)
  {
    var keys := Carried(all, gone);
    DroppedKeys(all, gone);
    hide KeysOf, Clean;
    forall k | k in live ensures k in live - gone <==> live[k] !in keys {
      if live[k] in keys {
        var j :| j in all && j in gone && all[j] == live[k];
        assert j == k;
      }
    }
    InverseMinus(live, index, live - gone, keys);
  }

  lemma InverseDiffer(tokens: map<string, string>, index: map<string, string>)
    requires Inverse(tokens, index)
    ensures Differ(tokens)
  {
    forall j, k | j in tokens && k in tokens && tokens[j] == tokens[k] ensures j == k { assert index[tokens[j]] == j; }
  }

  lemma Projections(devices: map<string, Device>, sessions: map<string, Session>, bindings: map<string, UserBinding>, gone: set<string>)
    ensures DeviceTokens(devices - gone) == DeviceTokens(devices) - gone
    ensures PairTokens(sessions - gone) == PairTokens(sessions) - gone && PairCodes(sessions - gone) == PairCodes(sessions) - gone
    ensures MobileTokens(bindings - gone) == MobileTokens(bindings) - gone && ActiveTokens(bindings - gone) == ActiveTokens(bindings) - gone
    ensures ActiveTokens(bindings).Keys <= MobileTokens(bindings).Keys
    ensures forall k :: k in ActiveTokens(bindings) ==> ActiveTokens(bindings)[k] == MobileTokens(bindings)[k]
  {
  }

  lemma DropDevicesPart(devices: map<string, Device>, deviceTokens: map<string, string>, issued: set<string>, removed: set<string>)
    requires DevicesOk(devices, deviceTokens, issued)
    ensures DevicesOk(devices - removed, deviceTokens - KeysOf(Carried(DeviceTokens(devices), removed)), issued)
  {
    var tokens := DeviceTokens(devices);
    Projections(devices, map[], map[], removed);
    hide DeviceTokens, KeysOf, Carried, Inverse, AllClean;
    InverseDiffer(tokens, deviceTokens);
    InverseDrop(tokens, tokens, deviceTokens, removed);
  }

  lemma DropSessionsPart(sessions: map<string, Session>, tokenIndex: map<string, string>, codeIndex: map<string, string>, issued: set<string>, gone: set<string>)
    requires SessionsOk(sessions, tokenIndex, codeIndex, issued)
    ensures SessionsOk(sessions - gone, tokenIndex - KeysOf(Carried(PairTokens(sessions), gone)), codeIndex - KeysOf(Carried(PairCodes(sessions), gone)), issued)
  {
    var tokens, codes := PairTokens(sessions), PairCodes(sessions);
    Projections(map[], sessions, map[], gone);
    hide PairTokens, PairCodes, KeysOf, Carried, Inverse, AllClean;
    InverseDiffer(tokens, tokenIndex);
    InverseDrop(tokens, tokens, tokenIndex, gone);
    InverseDiffer(codes, codeIndex);
    InverseDrop(codes, codes, codeIndex, gone);
  }

  /** The mobile token of a revoked binding is in no index, so dropping it as well does no harm. */
  lemma DropBindingsPart(bindings: map<string, UserBinding>, mobileTokens: map<string, string>, issued: set<string>, gone: set<string>)
    requires BindingsOk(bindings, mobileTokens, issued)
    ensures BindingsOk(bindings - gone, mobileTokens - KeysOf(Carried(MobileTokens(bindings), gone)), issued)
  {
    var all, live := MobileTokens(bindings), ActiveTokens(bindings);
    Projections(map[], map[], bindings, gone);
    assert OneActive(bindings - gone) && BindingsIssued(bindings - gone, issued) by { hide MobileTokens, ActiveTokens, Inverse, AllClean, Differ; }
    hide MobileTokens, ActiveTokens, KeysOf, Carried, Inverse, AllClean, Differ, OneActive, BindingsIssued;
    InverseDrop(all, live, mobileTokens, gone);
  }

  lemma DropHoused(devices: map<string, Device>, sessions: map<string, Session>, bindings: map<string, UserBinding>, removed: set<string>)
    requires Housed(devices, sessions, bindings)
    ensures Housed(devices - removed, sessions - SessionsOf(sessions, removed), bindings - BindingsOf(bindings, removed))
  {
  }

  lemma PruneKeeps(s: DeviceStore, now: int)
    requires Inv(s)
    ensures Inv(PruneDevices(s, now)) && PruneDevices(s, now).issued == s.issued
  {
    var removed := Inactive(s.devices, now - INACTIVE_TTL);
    DropDevicesPart(s.devices, s.deviceTokens, s.issued, removed);
    DropSessionsPart(s.sessions, s.tokenIndex, s.codeIndex, s.issued, SessionsOf(s.sessions, removed));
    DropBindingsPart(s.bindings, s.mobileTokens, s.issued, BindingsOf(s.bindings, removed));
    DropHoused(s.devices, s.sessions, s.bindings, removed);
    hide Inactive, DevicesOk, SessionsOk, BindingsOk, Housed, KeysOf, Carried, SessionsOf, BindingsOf;
  }

  // ---------- Devices ----------

  lemma PutDevice(devices: map<string, Device>, deviceTokens: map<string, string>, issued: set<string>, more: set<string>, d: Device)
    requires DevicesOk(devices, deviceTokens, issued) && issued <= more && d.deviceToken in more && Clean(d.deviceToken)
    requires if d.deviceId in devices then devices[d.deviceId].deviceToken == d.deviceToken else d.deviceToken !in issued
    ensures DevicesOk(devices[d.deviceId := d], deviceTokens[d.deviceToken := d.deviceId], more)
    ensures d.deviceId in devices ==> deviceTokens[d.deviceToken := d.deviceId] == deviceTokens
  {
    var tokens := DeviceTokens(devices);
    assert DeviceTokens(devices[d.deviceId := d]) == tokens[d.deviceId := d.deviceToken] && tokens.Keys == devices.Keys;
    assert d.deviceId in devices ==> tokens[d.deviceId] == devices[d.deviceId].deviceToken;
    FreshDevice(devices, deviceTokens, issued, d.deviceToken);
    hide Clean, DeviceTokens;
    assert d.deviceId in devices ==> deviceTokens[d.deviceToken] == d.deviceId && d.deviceToken in deviceTokens;
    assert AllClean(tokens[d.deviceId := d.deviceToken]);
    var after := devices[d.deviceId := d];
    assert forall k :: k in after ==> after[k].deviceId == k && after[k].deviceToken in more;
    hide Inverse, AllClean;
    InverseAdd(tokens, deviceTokens, d.deviceId, d.deviceToken);
  }

  lemma FreshDevice(devices: map<string, Device>, deviceTokens: map<string, string>, issued: set<string>, t: string)
    requires DevicesOk(devices, deviceTokens, issued)
    ensures t !in issued ==> t !in deviceTokens
  {
    hide AllClean;
  }

  lemma IssuedGrows(s: DeviceStore, more: set<string>)
    requires Inv(s) && s.issued <= more
    ensures SessionsOk(s.sessions, s.tokenIndex, s.codeIndex, more) && BindingsOk(s.bindings, s.mobileTokens, more)
    ensures DevicesOk(s.devices, s.deviceTokens, more)
  {
    hide Inverse, AllClean, Differ, OneActive, PairTokens, PairCodes, MobileTokens, ActiveTokens, DeviceTokens, Housed;
  }

  lemma RegisterKeeps(s: DeviceStore, now: int, id: string, platform: string, appVersion: string, presented: string, token: string)
    requires Inv(s) && token !in s.issued && Clean(token)
    ensures Inv(RegisterOn(s, now, id, platform, appVersion, presented, token).0)
  {
    var (s1, r) := RegisterOn(s, now, id, platform, appVersion, presented, token);
    if r.Ok? {
      var d := r.value;
      assert d.deviceId == id && (if id in s.devices then d.deviceToken == s.devices[id].deviceToken else d.deviceToken == token)
        && Clean(d.deviceToken) && d.deviceToken in s1.issued by {
        assert id in s.devices ==> DeviceTokens(s.devices)[id] == s.devices[id].deviceToken;
        hide TrimSpace, Inverse, SessionsOk, BindingsOk, Housed;
      }
      assert s1 == s.(devices := s.devices[id := d], deviceTokens := s.deviceTokens[d.deviceToken := id], issued := s.issued + {token})
        by { hide Inv, TrimSpace; }
      assert Housed(s1.devices, s.sessions, s.bindings) by { hide DevicesOk, SessionsOk, BindingsOk, RegisterOn, TrimSpace; }
      IssuedGrows(s, s1.issued);
      hide RegisterOn, SessionsOk, BindingsOk, Housed, TrimSpace, DevicesOk, Clean;
      PutDevice(s.devices, s.deviceTokens, s.issued, s1.issued, d);
    }
  }

  lemma HeartbeatKeeps(s: DeviceStore, pruneNow: int, now: int, rawId: string)
    requires Inv(s)
    ensures Inv(Heartbeat(s, pruneNow, now, rawId).0)
  {
    PruneKeeps(s, pruneNow);
    var p, id := PruneDevices(s, pruneNow), TrimSpace(rawId);
    if id in p.devices {
      var d := p.devices[id].(lastSeenAt := now, updatedAt := now, status := "online");
      assert d.deviceId == id && d.deviceToken == p.devices[id].deviceToken && d.deviceToken in p.issued && Clean(d.deviceToken) by {
        assert DeviceTokens(p.devices)[id] == p.devices[id].deviceToken;
        hide TrimSpace, Inverse, SessionsOk, BindingsOk, Housed, PruneDevices;
      }
      assert Housed(p.devices[id := d], p.sessions, p.bindings) by { hide DevicesOk, SessionsOk, BindingsOk, TrimSpace, PruneDevices; }
      hide SessionsOk, BindingsOk, Housed, TrimSpace, DevicesOk, Clean, PruneDevices;
      PutDevice(p.devices, p.deviceTokens, p.issued, p.issued, d);
    }
    hide PruneDevices, DevicesOk, SessionsOk, BindingsOk, Housed, TrimSpace;
  }

  // ---------- Pair sessions ----------

  lemma FreeCodeIsFree(codes: seq<string>, index: map<string, string>)
    ensures var r := FreeCode(codes, index);
      match r
      case Some(c) => c in codes && c !in index
      case None => forall c <- codes :: c in index
  {
  }

  lemma NewSession(sessions: map<string, Session>, tokenIndex: map<string, string>, codeIndex: map<string, string>, issued: set<string>, more: set<string>, p: Session)
    requires SessionsOk(sessions, tokenIndex, codeIndex, issued) && issued + {p.pairSessionId, p.pairToken} <= more
    requires p.pairSessionId !in issued && p.pairToken !in issued && p.pairCode !in codeIndex && Clean(p.pairToken) && Clean(p.pairCode)
    ensures SessionsOk(sessions[p.pairSessionId := p], tokenIndex[p.pairToken := p.pairSessionId], codeIndex[p.pairCode := p.pairSessionId], more)
  {
    var k, tokens, codes := p.pairSessionId, PairTokens(sessions), PairCodes(sessions);
    hide Clean, PairTokens, PairCodes, Inverse, AllClean;
    SessionMaps(sessions, p);
    FreshPairToken(sessions, tokenIndex, issued, p.pairToken);
    InverseAdd(tokens, tokenIndex, k, p.pairToken);
    InverseAdd(codes, codeIndex, k, p.pairCode);
    CleanPut(tokens, k, p.pairToken);
    CleanPut(codes, k, p.pairCode);
  }

  lemma SessionMaps(sessions: map<string, Session>, p: Session)
    ensures PairTokens(sessions[p.pairSessionId := p]) == PairTokens(sessions)[p.pairSessionId := p.pairToken]
    ensures PairCodes(sessions[p.pairSessionId := p]) == PairCodes(sessions)[p.pairSessionId := p.pairCode]
    ensures PairTokens(sessions).Keys == sessions.Keys == PairCodes(sessions).Keys
  {
  }

  lemma FreshPairToken(sessions: map<string, Session>, tokenIndex: map<string, string>, issued: set<string>, t: string)
    requires Inverse(PairTokens(sessions), tokenIndex) && t !in issued && forall k :: k in sessions ==> sessions[k].pairToken in issued
    ensures t !in tokenIndex
  {
  }

  lemma CleanPut(tokens: map<string, string>, k: string, t: string)
    requires AllClean(tokens) && Clean(t)
    ensures AllClean(tokens[k := t])
  {
    hide Clean;
  }

  lemma OpenKeeps(s: DeviceStore, now: int, id: string, ttlSeconds: int, sessionId: string, token: string, codes: seq<string>)
    requires Inv(s) && sessionId !in s.issued && token !in s.issued && Clean(token) && forall c <- codes :: Clean(c)
    ensures Inv(OpenOn(s, now, id, ttlSeconds, sessionId, token, codes).0)
  {
    var (s1, r) := OpenOn(s, now, id, ttlSeconds, sessionId, token, codes);
    FreeCodeIsFree(codes, s.codeIndex);
    hide FreeCode, Clean;
    if r.Ok? {
      var p := r.value;
      assert Housed(s1.devices, s1.sessions, s1.bindings) by { hide DevicesOk, SessionsOk, BindingsOk; }
      IssuedGrows(s, s1.issued);
      hide DevicesOk, SessionsOk, BindingsOk, Housed;
      NewSession(s.sessions, s.tokenIndex, s.codeIndex, s.issued, s1.issued, p);
    }
  }

  /** Changing a session's status and claimer touches no index. */
  lemma SameSession(sessions: map<string, Session>, tokenIndex: map<string, string>, codeIndex: map<string, string>, issued: set<string>, k: string, p: Session)
    requires SessionsOk(sessions, tokenIndex, codeIndex, issued) && k in sessions
    requires p.pairSessionId == sessions[k].pairSessionId && p.pairToken == sessions[k].pairToken && p.pairCode == sessions[k].pairCode
    ensures SessionsOk(sessions[k := p], tokenIndex, codeIndex, issued)
  {
    assert PairTokens(sessions[k := p]) == PairTokens(sessions) && PairCodes(sessions[k := p]) == PairCodes(sessions);
    hide PairTokens, PairCodes, Inverse, AllClean;
  }

  // ---------- Bindings ----------

  /** Whatever entry the unordered search meets first, it meets the same binding. */
  lemma SearchIsDeterministic(bindings: map<string, UserBinding>, userId: string, deviceId: string, f: Option<UserBinding>, g: Option<UserBinding>)
    requires OneActive(bindings) && Search(bindings, userId, deviceId, f) && Search(bindings, userId, deviceId, g)
    ensures f == g
  {
    match (f, g)
    case (Some(a), Some(b)) =>
      var j :| j in bindings && bindings[j] == a;
      var k :| k in bindings && bindings[k] == b;
      assert SameClient(bindings[j], bindings[k]);
    case _ =>
  }

  lemma BindingMaps(bindings: map<string, UserBinding>, b: UserBinding)
    ensures MobileTokens(bindings[b.bindingId := b]) == MobileTokens(bindings)[b.bindingId := b.mobileToken]
    ensures b.active ==> ActiveTokens(bindings[b.bindingId := b]) == ActiveTokens(bindings)[b.bindingId := b.mobileToken]
    ensures !b.active ==> ActiveTokens(bindings[b.bindingId := b]) == ActiveTokens(bindings) - {b.bindingId}
    ensures MobileTokens(bindings).Keys == bindings.Keys && ActiveTokens(bindings).Keys <= bindings.Keys
    ensures forall k :: k in bindings ==> MobileTokens(bindings)[k] == bindings[k].mobileToken
    ensures forall k :: k in ActiveTokens(bindings) ==> ActiveTokens(bindings)[k] == bindings[k].mobileToken
    ensures forall k :: k in bindings && bindings[k].active ==> k in ActiveTokens(bindings)
  {
  }

  lemma FreshToken(bindings: map<string, UserBinding>, mobileTokens: map<string, string>, issued: set<string>, t: string)
    requires Inverse(ActiveTokens(bindings), mobileTokens) && BindingsIssued(bindings, issued) && t !in issued
    ensures t !in mobileTokens && forall k :: k in bindings ==> bindings[k].mobileToken != t
  {
  }

  lemma DifferPut(all: map<string, string>, k: string, t: string)
    requires Differ(all) && AllClean(all) && Clean(t) && forall j :: j in all && all[j] == t ==> j == k
    ensures Differ(all[k := t]) && AllClean(all[k := t])
  {
    hide Clean;
  }

  lemma OneActivePut(bindings: map<string, UserBinding>, b: UserBinding)
    requires OneActive(bindings)
    requires forall k :: k in bindings && SameClient(bindings[k], b) ==> k == b.bindingId
    ensures OneActive(bindings[b.bindingId := b])
  {
    forall k | k in bindings && SameClient(b, bindings[k]) ensures k == b.bindingId { assert SameClient(bindings[k], b); }
  }

  lemma IssuedPut(bindings: map<string, UserBinding>, issued: set<string>, more: set<string>, b: UserBinding)
    requires BindingsIssued(bindings, issued) && issued <= more && b.bindingId in more && b.mobileToken in more
    ensures BindingsIssued(bindings[b.bindingId := b], more)
  {
  }

  lemma NewBinding(bindings: map<string, UserBinding>, mobileTokens: map<string, string>, issued: set<string>, more: set<string>, b: UserBinding)
    requires BindingsOk(bindings, mobileTokens, issued) && issued + {b.bindingId, b.mobileToken} <= more
    requires b.active && b.bindingId !in issued && b.mobileToken !in issued && Clean(b.mobileToken)
    requires forall k :: k in bindings ==> !SameClient(bindings[k], b)
    ensures BindingsOk(bindings[b.bindingId := b], mobileTokens[b.mobileToken := b.bindingId], more)
  {
    hide Clean, MobileTokens, ActiveTokens, Inverse, AllClean, Differ, OneActive, SameClient;
    assert b.bindingId !in bindings;
    hide BindingsIssued;
    FreshToken(bindings, mobileTokens, issued, b.mobileToken);
    BindingMaps(bindings, b);
    InverseAdd(ActiveTokens(bindings), mobileTokens, b.bindingId, b.mobileToken);
    DifferPut(MobileTokens(bindings), b.bindingId, b.mobileToken);
    OneActivePut(bindings, b);
    IssuedPut(bindings, issued, more, b);
  }

  /** Giving an active binding a new mobile and a new token. */
  lemma RenewBinding(bindings: map<string, UserBinding>, mobileTokens: map<string, string>, issued: set<string>, more: set<string>, b: UserBinding)
    requires BindingsOk(bindings, mobileTokens, issued) && issued + {b.mobileToken} <= more
    requires b.active && b.bindingId in bindings && b.mobileToken !in issued && Clean(b.mobileToken)
    requires SameClient(bindings[b.bindingId], b)
    ensures BindingsOk(bindings[b.bindingId := b], (mobileTokens - {bindings[b.bindingId].mobileToken})[b.mobileToken := b.bindingId], more)
  {
    OneOf(bindings, b);
    assert bindings[b.bindingId].active && b.bindingId in issued by { hide MobileTokens, ActiveTokens, Inverse, AllClean, Differ, OneActive; }
    hide Clean, MobileTokens, ActiveTokens, Inverse, AllClean, Differ, OneActive, SameClient, BindingsIssued;
    FreshToken(bindings, mobileTokens, issued, b.mobileToken);
    BindingMaps(bindings, b);
    InverseReplace(ActiveTokens(bindings), mobileTokens, b.bindingId, b.mobileToken);
    DifferPut(MobileTokens(bindings), b.bindingId, b.mobileToken);
    OneActivePut(bindings, b);
    IssuedPut(bindings, issued, more, b);
  }

  lemma OneOf(bindings: map<string, UserBinding>, b: UserBinding)
    requires OneActive(bindings) && b.bindingId in bindings && SameClient(bindings[b.bindingId], b)
    ensures forall k :: k in bindings && SameClient(bindings[k], b) ==> k == b.bindingId
  {
    forall k | k in bindings && SameClient(bindings[k], b) ensures k == b.bindingId { assert SameClient(bindings[k], bindings[b.bindingId]); }
  }

  /** Revoking takes the binding's token out of the index; revoking it again changes nothing there. */
  lemma RevokeBinding(bindings: map<string, UserBinding>, mobileTokens: map<string, string>, issued: set<string>, b: UserBinding)
    requires BindingsOk(bindings, mobileTokens, issued) && !b.active && b.bindingId in bindings && b.mobileToken == bindings[b.bindingId].mobileToken
    ensures BindingsOk(bindings[b.bindingId := b], mobileTokens - {b.mobileToken}, issued)
  {
    assert forall k :: k in bindings ==> !SameClient(bindings[k], b);
    assert b.bindingId in issued && b.mobileToken in issued by { hide MobileTokens, ActiveTokens, Inverse, AllClean, Differ, OneActive; }
    hide Clean, MobileTokens, ActiveTokens, Inverse, AllClean, OneActive, SameClient, BindingsIssued;
    var all, live := MobileTokens(bindings), ActiveTokens(bindings);
    BindingMaps(bindings, b);
    assert forall k :: k in live && live[k] == b.mobileToken ==> k == b.bindingId by {
      forall k | k in live && live[k] == b.mobileToken ensures k == b.bindingId { assert all[k] == all[b.bindingId]; }
    }
    hide Differ;
    InverseMinus(live, mobileTokens, live - {b.bindingId}, {b.mobileToken});
    assert all[b.bindingId := b.mobileToken] == all;
    OneActivePut(bindings, b);
    IssuedPut(bindings, issued, issued, b);
  }

  // ---------- Claiming and revoking ----------

  lemma TakeableIs(s: DeviceStore, now: int, byCode: bool, key: string, userId: string)
    requires SessionsOk(s.sessions, s.tokenIndex, s.codeIndex, s.issued) && Takeable(s, now, byCode, key, userId).Ok?
    ensures var p := Takeable(s, now, byCode, key, userId).value; p.pairSessionId in s.sessions && s.sessions[p.pairSessionId] == p
  {
    hide TrimSpace, ClaimedUser, Inverse, AllClean;
  }

  /** The binding a claim writes keeps the index of mobile tokens exact, whether it is new or an active one renewed. */
  lemma TakeBindings(s: DeviceStore, p: Session, now: int, userId: string, mobileId: string, found: Option<UserBinding>, bindingId: string, mobileToken: string)
    requires BindingsOk(s.bindings, s.mobileTokens, s.issued) && Search(s.bindings, userId, p.deviceId, found)
    requires bindingId !in s.issued && mobileToken !in s.issued && Clean(mobileToken)
    ensures var (s1, r) := Take(s, p, now, userId, mobileId, found, bindingId, mobileToken);
      BindingsOk(s1.bindings, s1.mobileTokens, s1.issued) && r.1.deviceId == p.deviceId && s1.bindings == s.bindings[r.1.bindingId := r.1]
  {
    var b := TakenBinding(p, now, userId, mobileId, found, bindingId, mobileToken);
    match found
    case None =>
      assert forall k :: k in s.bindings ==> !SameClient(s.bindings[k], b);
      hide BindingsOk, Search;
      NewBinding(s.bindings, s.mobileTokens, s.issued, s.issued + {bindingId, mobileToken}, b);
    case Some(a) =>
      assert a.bindingId in s.bindings && s.bindings[a.bindingId] == a && a.mobileToken != "" by { FoundStored(s.bindings, s.mobileTokens, s.issued, userId, p.deviceId, a); }
      assert SameClient(a, b);
      hide BindingsOk, Search, Clean;
      RenewBinding(s.bindings, s.mobileTokens, s.issued, s.issued + {bindingId, mobileToken}, b);
  }

  lemma FoundStored(bindings: map<string, UserBinding>, mobileTokens: map<string, string>, issued: set<string>, userId: string, deviceId: string, a: UserBinding)
    requires BindingsOk(bindings, mobileTokens, issued) && Search(bindings, userId, deviceId, Some(a))
    ensures a.bindingId in bindings && bindings[a.bindingId] == a && a.mobileToken != ""
  {
    var k :| k in bindings && bindings[k] == a;
    assert MobileTokens(bindings)[k] == a.mobileToken;
    assert Clean(a.mobileToken) && a.bindingId == k by { hide Clean, Inverse, Differ, OneActive; }
  }

  /** Only the branch that reaches the search needs an answer. */
  ghost predicate Answers(s: DeviceStore, now: int, byCode: bool, key: string, userId: string, found: Option<UserBinding>) {
    Takeable(s, now, byCode, key, userId).Ok? ==> Search(s.bindings, userId, Takeable(s, now, byCode, key, userId).value.deviceId, found)
  }

  lemma ClaimKeeps(s: DeviceStore, now: int, byCode: bool, key: string, userId: string, mobileId: string,
                   found: Option<UserBinding>, bindingId: string, mobileToken: string)
    requires Inv(s) && Answers(s, now, byCode, key, userId, found)
    requires bindingId !in s.issued && mobileToken !in s.issued && Clean(mobileToken)
    ensures Inv(ClaimKey(s, now, byCode, key, userId, mobileId, found, bindingId, mobileToken).0)
  {
    hide Inv, TrimSpace, Clean, Take, Takeable, Search;
    if Takeable(s, now, byCode, key, userId).Ok? {
      TakeKeeps(s, now, byCode, key, userId, mobileId, found, bindingId, mobileToken);
    } else if Takeable(s, now, byCode, key, userId) == Err(ExpiredError) {
      ExpireKeeps(s, now, byCode, key, userId);
    }
  }

  lemma TakeKeeps(s: DeviceStore, now: int, byCode: bool, key: string, userId: string, mobileId: string,
                  found: Option<UserBinding>, bindingId: string, mobileToken: string)
    requires Inv(s) && Takeable(s, now, byCode, key, userId).Ok?
    requires Search(s.bindings, userId, Takeable(s, now, byCode, key, userId).value.deviceId, found)
    requires bindingId !in s.issued && mobileToken !in s.issued && Clean(mobileToken)
    ensures Inv(Take(s, Takeable(s, now, byCode, key, userId).value, now, userId, mobileId, found, bindingId, mobileToken).0)
  {
    hide Takeable, Clean, DevicesOk, SessionsOk, BindingsOk, Search, TakenBinding;
    TakeableIs(s, now, byCode, key, userId);
    var p := Takeable(s, now, byCode, key, userId).value;
    var (s1, r) := Take(s, p, now, userId, mobileId, found, bindingId, mobileToken);
    TakeBindings(s, p, now, userId, mobileId, found, bindingId, mobileToken);
    assert p.deviceId in s.devices;
    IssuedGrows(s, s1.issued);
    hide Housed;
    SameSession(s.sessions, s.tokenIndex, s.codeIndex, s1.issued, p.pairSessionId, r.0);
    HousedPut(s.devices, s.sessions, s.bindings, r.0, r.1);
  }

  lemma ExpireKeeps(s: DeviceStore, now: int, byCode: bool, key: string, userId: string)
    requires Inv(s) && Takeable(s, now, byCode, key, userId) == Err(ExpiredError)
    ensures var k := if byCode then s.codeIndex[key] else s.tokenIndex[key];
      Inv(s.(sessions := s.sessions[k := s.sessions[k].(status := Over)]))
  {
    var k := if byCode then s.codeIndex[key] else s.tokenIndex[key];
    var p := s.sessions[k].(status := Over);
    assert p.pairSessionId == k by { hide Inverse, AllClean, DevicesOk, BindingsOk, Housed; }
    assert Housed(s.devices, s.sessions[k := p], s.bindings) by { hide DevicesOk, SessionsOk, BindingsOk, Takeable; }
    hide Takeable, Clean, DevicesOk, SessionsOk, BindingsOk, Housed;
    SameSession(s.sessions, s.tokenIndex, s.codeIndex, s.issued, k, p);
  }

  lemma HousedPut(devices: map<string, Device>, sessions: map<string, Session>, bindings: map<string, UserBinding>, p: Session, b: UserBinding)
    requires Housed(devices, sessions, bindings) && p.deviceId in devices && b.deviceId in devices
    ensures Housed(devices, sessions[p.pairSessionId := p], bindings[b.bindingId := b])
  {
  }

  lemma RevokeKeeps(s: DeviceStore, now: int, rawBinding: string, rawUser: string, rawDevice: string, found: Option<UserBinding>)
    requires Inv(s) && (Asks(rawBinding, rawUser, rawDevice) ==> Search(s.bindings, TrimSpace(rawUser), TrimSpace(rawDevice), found))
    ensures Inv(Revoke(s, now, rawBinding, rawUser, rawDevice, found).0)
  {
    var target := ToRevoke(s, TrimSpace(rawBinding), TrimSpace(rawUser), TrimSpace(rawDevice), found);
    if target.Some? {
      var a := target.value;
      assert a.bindingId in s.bindings && s.bindings[a.bindingId] == a && a.mobileToken != "" by {
        if TrimSpace(rawBinding) != "" {
          StoredBinding(s, TrimSpace(rawBinding));
        } else {
          FoundStored(s.bindings, s.mobileTokens, s.issued, TrimSpace(rawUser), TrimSpace(rawDevice), a);
        }
      }
      var b := a.(active := false, updatedAt := now);
      assert Housed(s.devices, s.sessions, s.bindings[b.bindingId := b]) by { hide DevicesOk, SessionsOk, BindingsOk, TrimSpace, Search; }
      hide TrimSpace, Search, ToRevoke, DevicesOk, SessionsOk, BindingsOk, Housed;
      RevokeBinding(s.bindings, s.mobileTokens, s.issued, b);
    }
  }

  lemma StoredBinding(s: DeviceStore, k: string)
    requires Inv(s)
    ensures k in s.bindings ==> s.bindings[k].bindingId == k && s.bindings[k].mobileToken != ""
  {
    hide DevicesOk, SessionsOk, Housed, Inverse, Differ, OneActive, TrimSpace;
    if k in s.bindings { assert Clean(MobileTokens(s.bindings)[k]); }
  }

  // ---------- Runs ----------

  datatype Step =
    | StepPrune(now: int)
    | StepRegister(now: int, rawId: string, platform: string, appVersion: string, credential: string, token: string)
    | StepHeartbeat(pruneNow: int, now: int, rawId: string)
    | StepOpen(pruneNow: int, now: int, rawId: string, ttlSeconds: int, sessionId: string, token: string, codes: seq<string>)
    | StepClaim(now: int, byCode: bool, rawKey: string, rawUser: string, rawMobile: string, spareUser: string, spareMobile: string,
                found: Option<UserBinding>, bindingId: string, mobileToken: string)
    | StepRevoke(now: int, rawBinding: string, rawUser: string, rawDevice: string, found: Option<UserBinding>)

  function Next(s: DeviceStore, x: Step): DeviceStore {
    match x
    case StepPrune(now) => PruneDevices(s, now)
    case StepRegister(now, rawId, platform, version, credential, token) => Register(s, now, rawId, platform, version, credential, token).0
    case StepHeartbeat(pruneNow, now, rawId) => Heartbeat(s, pruneNow, now, rawId).0
    case StepOpen(pruneNow, now, rawId, ttl, sessionId, token, codes) => OpenSession(s, pruneNow, now, rawId, ttl, sessionId, token, codes).0
    case StepClaim(now, byCode, rawKey, rawUser, rawMobile, spareUser, spareMobile, found, bindingId, mobileToken) =>
      Claim(s, now, byCode, rawKey, rawUser, rawMobile, spareUser, spareMobile, found, bindingId, mobileToken).0
    case StepRevoke(now, rawBinding, rawUser, rawDevice, found) => Revoke(s, now, rawBinding, rawUser, rawDevice, found).0
  }

  /** Random values are new and clean (pair codes only clean), and unordered searches give possible answers. */
  ghost predicate Enabled(s: DeviceStore, x: Step) {
    match x
    case StepRegister(_, _, _, _, _, token) => token !in s.issued && Clean(token)
    case StepOpen(_, _, _, _, sessionId, token, codes) =>
      sessionId !in s.issued && token !in s.issued && Clean(token) && |codes| == CODE_ATTEMPTS && forall c <- codes :: Clean(c)
    case StepClaim(now, byCode, rawKey, rawUser, rawMobile, spareUser, spareMobile, found, bindingId, mobileToken) =>
      bindingId !in s.issued && mobileToken !in s.issued && Clean(mobileToken)
      && Answers(s, now, byCode, TrimSpace(rawKey), OrFresh(rawUser, spareUser), found)
    case StepRevoke(now, rawBinding, rawUser, rawDevice, found) =>
      Asks(rawBinding, rawUser, rawDevice) ==> Search(s.bindings, TrimSpace(rawUser), TrimSpace(rawDevice), found)
    case _ => true
  }

  function Run(steps: seq<Step>): DeviceStore {
    if steps == [] then NO_DEVICES else Next(Run(steps[..|steps| - 1]), steps[|steps| - 1])
  }

  ghost predicate ValidRun(steps: seq<Step>) {
    steps != [] ==> ValidRun(steps[..|steps| - 1]) && Enabled(Run(steps[..|steps| - 1]), steps[|steps| - 1])
  }

  lemma NextKeeps(s: DeviceStore, x: Step)
    requires Inv(s) && Enabled(s, x)
    ensures Inv(Next(s, x))
  {
    hide Inv, TrimSpace, Clean, PruneDevices, RegisterOn, Heartbeat, OpenOn, ClaimKey, Revoke, Answers, Search;
    match x
    case StepPrune(now) => PruneKeeps(s, now);
    case StepRegister(now, rawId, platform, version, credential, token) =>
      PruneKeeps(s, now);
      RegisterKeeps(PruneDevices(s, now), now, TrimSpace(rawId), OrUnknown(platform), OrUnknown(version), TrimSpace(credential), token);
    case StepHeartbeat(pruneNow, now, rawId) => HeartbeatKeeps(s, pruneNow, now, rawId);
    case StepOpen(pruneNow, now, rawId, ttl, sessionId, token, codes) =>
      PruneKeeps(s, pruneNow);
      OpenKeeps(PruneDevices(s, pruneNow), now, TrimSpace(rawId), ttl, sessionId, token, codes);
    case StepClaim(now, byCode, rawKey, rawUser, rawMobile, spareUser, spareMobile, found, bindingId, mobileToken) =>
      ClaimKeeps(s, now, byCode, TrimSpace(rawKey), OrFresh(rawUser, spareUser), OrFresh(rawMobile, spareMobile), found, bindingId, mobileToken);
    case StepRevoke(now, rawBinding, rawUser, rawDevice, found) => RevokeKeeps(s, now, rawBinding, rawUser, rawDevice, found);
  }

  lemma {:induction false} RunInv(steps: seq<Step>)
    requires ValidRun(steps)
    ensures Inv(Run(steps))
  {
    hide Inv, Enabled, Next;
    if steps == [] { NoDevicesInv(); } else {
      RunInv(steps[..|steps| - 1]);
      NextKeeps(Run(steps[..|steps| - 1]), steps[|steps| - 1]);
    }
  }

  /** After any run from an empty store, rebuilding both token indexes from the records gives the ones in use and nothing
      else, no session or binding is without its device, and no user has two active bindings of one device. */
  lemma RunIndexes(steps: seq<Step>, deviceTokens: map<string, string>, mobileTokens: map<string, string>)
    requires ValidRun(steps)
    ensures var s := Run(steps);
      && (Rebuilt(DeviceTokens(s.devices), deviceTokens) <==> deviceTokens == s.deviceTokens)
      && (Rebuilt(ActiveTokens(s.bindings), mobileTokens) <==> mobileTokens == s.mobileTokens)
      && Inverse(PairTokens(s.sessions), s.tokenIndex) && Inverse(PairCodes(s.sessions), s.codeIndex)
      && Housed(s.devices, s.sessions, s.bindings) && OneActive(s.bindings)
  {
    RunInv(steps);
    IncrementalIsRebuilt(Run(steps), deviceTokens, mobileTokens);
    hide Rebuilt, Inverse, Housed, OneActive, AllClean, Differ, Run, ValidRun, DeviceTokens, ActiveTokens, PairTokens, PairCodes;
  }
}
