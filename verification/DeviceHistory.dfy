/** Whole runs of the first control plane: whose token a device keeps, who owns a taken session, and that revoked stays revoked. */
module DeviceHistory {
  import opened Helpers
  import opened DeviceState
  import opened DeviceIndexes
  import opened DeviceOutcomes

  function StoreAt(steps: seq<Step>, i: nat): DeviceStore
    requires i <= |steps|
  {
    Run(steps[..i])
  }

  lemma StepAt(steps: seq<Step>, i: nat)
    requires i < |steps|
    ensures StoreAt(steps, i + 1) == Next(StoreAt(steps, i), steps[i])
  {
    assert steps[..i + 1][..i] == steps[..i];
    hide Next;
  }

  lemma {:induction false} ValidAt(steps: seq<Step>, i: nat)
    requires ValidRun(steps) && i <= |steps|
    ensures ValidRun(steps[..i]) && (i < |steps| ==> Enabled(StoreAt(steps, i), steps[i]))
    decreases |steps| - i
  {
    hide Enabled, Run;
    if i == |steps| { assert steps[..i] == steps; } else {
      ValidAt(steps, i + 1);
      assert steps[..i + 1][..i] == steps[..i];
    }
  }

  lemma InvAt(steps: seq<Step>, i: nat)
    requires ValidRun(steps) && i <= |steps|
    ensures Inv(StoreAt(steps, i)) && (i < |steps| ==> Enabled(StoreAt(steps, i), steps[i]) && StoreAt(steps, i + 1) == Next(StoreAt(steps, i), steps[i]))
  {
    ValidAt(steps, i);
    RunInv(steps[..i]);
    if i < |steps| { StepAt(steps, i); }
    hide Enabled, Run, Inv, Next, ValidRun;
  }

  // ---------- Ids and tokens are drawn once ----------

  lemma NextIssued(s: DeviceStore, x: Step)
    ensures s.issued <= Next(s, x).issued
  {
    hide TrimSpace, Inactive, KeysOf, Carried, Takeable, FreeCode;
    match x
    case StepPrune(_) =>
    case StepRegister(now, _, _, _, _, _) => PrunedExactly(s, now); hide PruneDevices;
    case StepHeartbeat(pruneNow, _, _) => PrunedExactly(s, pruneNow); hide PruneDevices;
    case StepOpen(pruneNow, _, _, _, _, _, _) => PrunedExactly(s, pruneNow); hide PruneDevices;
    case StepClaim(_, _, _, _, _, _, _, _, _, _) =>
    case StepRevoke(_, _, _, _, _) =>
  }

  lemma {:induction false} IssuedForever(steps: seq<Step>, i: nat, j: nat)
    requires i <= j <= |steps|
    ensures StoreAt(steps, i).issued <= StoreAt(steps, j).issued
    decreases j
  {
    if i < j {
      IssuedForever(steps, i, j - 1);
      StepAt(steps, j - 1);
      NextIssued(StoreAt(steps, j - 1), steps[j - 1]);
      hide Next, StoreAt;
    }
  }

  // ---------- Devices ----------

  predicate Registers(x: Step, id: string) {
    x.StepRegister? && TrimSpace(x.rawId) == id
  }

  /** The step registers a stored device with its own token. */
  predicate Presents(s: DeviceStore, x: Step, id: string) {
    Registers(x, id) && id in s.devices && TrimSpace(x.credential) == s.devices[id].deviceToken
  }

  /** The step registers an id that is not stored, or whose device has lapsed, under a token never used before. */
  predicate Afresh(s: DeviceStore, x: Step, id: string) {
    Registers(x, id) && (id in s.devices ==> Lapsed(s.devices[id], x.now)) && x.token !in s.issued
  }

  /** The time at which the step prunes, if it does. */
  function PrunesAt(x: Step): Option<int> {
    match x
    case StepPrune(now) => Some(now)
    case StepRegister(now, _, _, _, _, _) => Some(now)
    case StepHeartbeat(pruneNow, _, _) => Some(pruneNow)
    case StepOpen(pruneNow, _, _, _, _, _, _) => Some(pruneNow)
    case _ => None
  }

  predicate SameDevice(d: Device, e: Device) {
    e.deviceToken == d.deviceToken && e.createdAt == d.createdAt && e.deviceId == d.deviceId
  }

  predicate SameBuild(d: Device, e: Device) {
    e.platform == d.platform && e.appVersion == d.appVersion
  }

  /** One step: a stored device keeps its token and is removed only when it has lapsed; its platform or version changes only by
      a registration that presents that token; another token comes only with a fresh registration. */
  ghost predicate DeviceStep(s: DeviceStore, x: Step, s1: DeviceStore, id: string) {
    && (id in s.devices && id !in s1.devices ==> PrunesAt(x).Some? && Lapsed(s.devices[id], PrunesAt(x).value))
    && (id in s1.devices && !(id in s.devices && SameDevice(s.devices[id], s1.devices[id])) ==> Afresh(s, x, id) && s1.devices[id].deviceToken == x.token)
    && (id in s1.devices && id in s.devices && !SameBuild(s.devices[id], s1.devices[id]) ==> Presents(s, x, id) || Afresh(s, x, id))
  }

  lemma PrunedDevice(s: DeviceStore, x: Step, s1: DeviceStore, now: int, id: string)
    requires PrunesAt(x) == Some(now) && s1.devices == PruneDevices(s, now).devices
    ensures DeviceStep(s, x, s1, id)
  {
    PrunedExactly(s, now);
    hide PruneDevices, Presents, Afresh;
  }

  lemma SameDevices(s: DeviceStore, x: Step, s1: DeviceStore, id: string)
    requires s1.devices == s.devices
    ensures DeviceStep(s, x, s1, id)
  {
    hide Presents, Afresh;
  }

  lemma RegisterDevice(s: DeviceStore, x: Step, id: string)
    requires Inv(s) && x.StepRegister? && x.token !in s.issued && Clean(x.token)
    ensures DeviceStep(s, x, Next(s, x), id)
  {
    RegisterExactly(s, x.now, x.rawId, x.platform, x.appVersion, x.credential, x.token);
    PrunedExactly(s, x.now);
    StoredDevice(s, id);
    hide PruneDevices, TrimSpace, Inv, Register, ReadsAs;
  }

  lemma HeartbeatDevice(s: DeviceStore, x: Step, id: string)
    requires x.StepHeartbeat?
    ensures DeviceStep(s, x, Next(s, x), id)
  {
    HeartbeatExactly(s, x.pruneNow, x.now, x.rawId);
    PrunedExactly(s, x.pruneNow);
    hide PruneDevices, TrimSpace, Heartbeat, Presents, Afresh;
  }

  lemma OpenDevices(s: DeviceStore, x: Step)
    requires x.StepOpen?
    ensures Next(s, x).devices in {s.devices, PruneDevices(s, x.pruneNow).devices}
  {
    OpenExactly(s, x.pruneNow, x.now, x.rawId, x.ttlSeconds, x.sessionId, x.token, x.codes, 0);
    hide PruneDevices, TrimSpace, OpenSession;
  }

  lemma OtherDevices(s: DeviceStore, x: Step)
    requires x.StepClaim? || x.StepRevoke?
    ensures Next(s, x).devices == s.devices
  {
    hide TrimSpace, Takeable, TakenBinding;
  }

  lemma NextDevice(s: DeviceStore, x: Step, id: string)
    requires Inv(s) && Enabled(s, x)
    ensures DeviceStep(s, x, Next(s, x), id)
  {
    match x
    case StepPrune(now) => PrunedDevice(s, x, Next(s, x), now, id);
    case StepRegister(_, _, _, _, _, _) => RegisterDevice(s, x, id);
    case StepHeartbeat(_, _, _) => HeartbeatDevice(s, x, id);
    case StepOpen(pruneNow, _, _, _, _, _, _) =>
      OpenDevices(s, x);
      if Next(s, x).devices == s.devices { SameDevices(s, x, Next(s, x), id); } else { PrunedDevice(s, x, Next(s, x), pruneNow, id); }
    case StepClaim(_, _, _, _, _, _, _, _, _, _) => OtherDevices(s, x); SameDevices(s, x, Next(s, x), id);
    case StepRevoke(_, _, _, _, _) => OtherDevices(s, x); SameDevices(s, x, Next(s, x), id);
    hide DeviceStep, Inv, TrimSpace, PruneDevices;
  }

  ghost predicate AfreshAt(steps: seq<Step>, m: nat, id: string) {
    m < |steps| && Afresh(StoreAt(steps, m), steps[m], id)
  }

  ghost predicate PresentsAt(steps: seq<Step>, m: nat, id: string) {
    m < |steps| && Presents(StoreAt(steps, m), steps[m], id)
  }

  lemma DeviceAt(steps: seq<Step>, m: nat, id: string)
    requires ValidRun(steps) && m < |steps|
    ensures var s, s1 := StoreAt(steps, m), StoreAt(steps, m + 1);
      && (id in s1.devices && !(id in s.devices && SameDevice(s.devices[id], s1.devices[id])) ==> AfreshAt(steps, m, id))
      && (id in s1.devices && id in s.devices && !SameBuild(s.devices[id], s1.devices[id]) ==> PresentsAt(steps, m, id) || AfreshAt(steps, m, id))
  {
    InvAt(steps, m);
    NextDevice(StoreAt(steps, m), steps[m], id);
    hide ValidRun, StoreAt, Inv, Enabled, Next, Afresh, Presents, SameDevice, SameBuild;
  }

  /** At any two times a device is stored it has the same token, and the same platform and version unless it was registered
      with that token in between; or else it had lapsed, or was gone, and was registered afresh. */
  lemma {:induction false} DeviceLife(steps: seq<Step>, i: nat, j: nat, id: string)
    requires ValidRun(steps) && i <= j <= |steps| && id in StoreAt(steps, i).devices && id in StoreAt(steps, j).devices
    ensures SameDevice(StoreAt(steps, i).devices[id], StoreAt(steps, j).devices[id]) || exists m :: i <= m < j && AfreshAt(steps, m, id)
    ensures SameBuild(StoreAt(steps, i).devices[id], StoreAt(steps, j).devices[id])
      || exists m :: i <= m < j && (PresentsAt(steps, m, id) || AfreshAt(steps, m, id))
    decreases j
  {
    hide ValidRun, StoreAt, AfreshAt, PresentsAt;
    if i < j {
      DeviceAt(steps, j - 1, id);
      if id in StoreAt(steps, j - 1).devices { DeviceLife(steps, i, j - 1, id); }
    }
  }

  // ---------- Sessions ----------

  /** One step: a stored session never changes its token, its code or its device; taken, it stays with its user; and a session
      appears only under an unused id. */
  ghost predicate SessionStep(s: DeviceStore, s1: DeviceStore, k: string) {
    k in s1.sessions ==>
      if k in s.sessions then Kept(s.sessions[k], s1.sessions[k]) else k !in s.issued
  }

  predicate Kept(p: Session, q: Session) {
    && q == p.(status := q.status, claimedAt := q.claimedAt, claimedByUser := q.claimedByUser, claimedByMobile := q.claimedByMobile)
    && (p.status == Taken ==> q.status == Taken && ClaimedUser(q) == ClaimedUser(p))
    && (p.status == Over ==> q == p)
  }

  lemma {:induction false} TrimTwice(t: string)
    ensures TrimSpace(TrimSpace(t)) == TrimSpace(t)
  {
    if t != [] && IsSpace(t[0]) { TrimTwice(t[1..]); }
    else if t != [] && IsSpace(t[|t| - 1]) { TrimTwice(t[..|t| - 1]); }
  }

  lemma FewerSessions(s: DeviceStore, s1: DeviceStore, k: string)
    requires k in s1.sessions ==> k in s.sessions && s1.sessions[k] == s.sessions[k]
    ensures SessionStep(s, s1, k)
  {
    hide ClaimedUser;
  }

  lemma OpenSessions(s: DeviceStore, x: Step, k: string)
    requires x.StepOpen? && x.sessionId !in s.issued && (k in s.sessions ==> k in s.issued)
    ensures SessionStep(s, Next(s, x), k)
  {
    OpenExactly(s, x.pruneNow, x.now, x.rawId, x.ttlSeconds, x.sessionId, x.token, x.codes, 0);
    PrunedExactly(s, x.pruneNow);
    hide PruneDevices, TrimSpace, OpenSession, ClaimedUser;
  }

  lemma ClaimSessions(s: DeviceStore, x: Step, k: string)
    requires Inv(s) && x.StepClaim?
    ensures SessionStep(s, Next(s, x), k)
  {
    var key, user := TrimSpace(x.rawKey), OrFresh(x.rawUser, x.spareUser);
    if key == "" {
      FewerSessions(s, Next(s, x), k);
    } else {
      KeySessions(s, x.now, x.byCode, key, user, OrFresh(x.rawMobile, x.spareMobile), x.found, x.bindingId, x.mobileToken, k);
    }
    hide Inv, TrimSpace, ClaimKey, SessionStep;
  }

  lemma KeySessions(s: DeviceStore, now: int, byCode: bool, key: string, user: string, mobile: string, found: Option<UserBinding>, bindingId: string, mobileToken: string, k: string)
    requires Inv(s)
    ensures SessionStep(s, ClaimKey(s, now, byCode, key, user, mobile, found, bindingId, mobileToken).0, k)
  {
    hide *;
    KeyCases(s, now, byCode, key, user, mobile, found, bindingId, mobileToken);
    var r := Takeable(s, now, byCode, key, user);
    var s1 := ClaimKey(s, now, byCode, key, user, mobile, found, bindingId, mobileToken).0;
    TakeableLeads(s, now, byCode, key, user);
    if r.Ok? {
      TakeableAt(s, now, byCode, key, user);
      TakeSession(s, r.value, now, user, mobile, found, bindingId, mobileToken);
      TakenKept(r.value, user, now, mobile);
      OneKept(s, s1, r.value.pairSessionId, s1.sessions[r.value.pairSessionId], k);
    } else if r.error == ExpiredError {
      TakeableAt(s, now, byCode, key, user);
      var j := if byCode then s.codeIndex[key] else s.tokenIndex[key];
      OverKept(s.sessions[j]);
      OneKept(s, s1, j, s1.sessions[j], k);
    } else {
      FewerSessions(s, s1, k);
    }
  }

  lemma TakeableLeads(s: DeviceStore, now: int, byCode: bool, key: string, user: string)
    ensures var r := Takeable(s, now, byCode, key, user); r.Ok? || r == Err(ExpiredError) ==> key in if byCode then s.codeIndex else s.tokenIndex
  {
    hide ClaimedUser;
  }

  lemma OverKept(p: Session)
    requires p.status == Waiting
    ensures Kept(p, p.(status := Over))
  {
    hide ClaimedUser;
  }

  lemma OneKept(s: DeviceStore, s1: DeviceStore, j: string, q: Session, k: string)
    requires j in s.sessions && s1.sessions == s.sessions[j := q] && Kept(s.sessions[j], q)
    ensures SessionStep(s, s1, k)
  {
    KeptSelf(s.sessions[j]);
    if k in s.sessions { KeptSelf(s.sessions[k]); }
    hide Kept;
  }

  lemma TakeSession(s: DeviceStore, p: Session, now: int, user: string, mobile: string, found: Option<UserBinding>, bindingId: string, mobileToken: string)
    ensures Take(s, p, now, user, mobile, found, bindingId, mobileToken).0.sessions ==
      s.sessions[p.pairSessionId := p.(status := Taken, claimedAt := Some(now), claimedByUser := Some(user), claimedByMobile := Some(mobile))]
  {
    hide TakenBinding;
  }

  lemma TakeableAt(s: DeviceStore, now: int, byCode: bool, key: string, user: string)
    requires Inv(s) && key in if byCode then s.codeIndex else s.tokenIndex
    ensures var k := if byCode then s.codeIndex[key] else s.tokenIndex[key]; var r := Takeable(s, now, byCode, key, user);
      && k in s.sessions && s.sessions[k].pairSessionId == k
      && (r.Ok? ==> r.value == s.sessions[k] && (s.sessions[k].status == Waiting || TakenBy(s.sessions[k], user)))
      && (r == Err(ExpiredError) ==> s.sessions[k].status == Waiting)
  {
    var k := if byCode then s.codeIndex[key] else s.tokenIndex[key];
    KeyLeads(s, byCode, key, k);
    hide Inv;
    TakeableExactly(s, now, byCode, key, user, k);
    hide Takeable, TakenBy;
  }

  lemma TakenKept(p: Session, user: string, now: int, mobile: string)
    requires p.status == Waiting || TakenBy(p, user)
    ensures Kept(p, p.(status := Taken, claimedAt := Some(now), claimedByUser := Some(user), claimedByMobile := Some(mobile)))
  {
    if p.claimedByUser.Some? { TrimTwice(p.claimedByUser.value); }
    assert TrimSpace("") == "";
    hide TrimSpace;
  }

  lemma StoredSession(s: DeviceStore, k: string)
    requires Inv(s)
    ensures k in s.sessions ==> k in s.issued
  {
    hide DevicesOk, BindingsOk, Housed, Inverse, AllClean;
  }

  lemma PrunedTokens(s: DeviceStore, now: int)
    ensures PruneDevices(s, now).mobileTokens.Keys <= s.mobileTokens.Keys
  {
    hide KeysOf, Carried, Inactive;
  }

  lemma RegisterOthers(p: DeviceStore, now: int, id: string, platform: string, appVersion: string, presented: string, token: string)
    ensures var s1 := RegisterOn(p, now, id, platform, appVersion, presented, token).0;
      s1.sessions == p.sessions && s1.bindings == p.bindings && s1.mobileTokens == p.mobileTokens
  {
    hide TrimSpace;
  }

  lemma OthersPruned(s: DeviceStore, x: Step)
    requires x.StepPrune? || x.StepRegister? || x.StepHeartbeat?
    ensures var s1, p := Next(s, x), PruneDevices(s, PrunesAt(x).value);
      || (s1.sessions == p.sessions && s1.bindings == p.bindings && s1.mobileTokens == p.mobileTokens)
      || s1 == s
  {
    hide PruneDevices, TrimSpace, RegisterOn;
    if x.StepRegister? && TrimSpace(x.rawId) != "" {
      RegisterOthers(PruneDevices(s, x.now), x.now, TrimSpace(x.rawId), OrUnknown(x.platform), OrUnknown(x.appVersion), TrimSpace(x.credential), x.token);
      hide OrUnknown;
    }
  }

  lemma PrunedOnly(s: DeviceStore, x: Step)
    requires x.StepPrune? || x.StepRegister? || x.StepHeartbeat?
    ensures forall k :: k in Next(s, x).sessions ==> k in s.sessions && Next(s, x).sessions[k] == s.sessions[k]
    ensures forall k :: k in Next(s, x).bindings ==> k in s.bindings && Next(s, x).bindings[k] == s.bindings[k]
    ensures forall t :: t in Next(s, x).mobileTokens ==> t in s.mobileTokens
  {
    PrunedExactly(s, PrunesAt(x).value);
    PrunedTokens(s, PrunesAt(x).value);
    OthersPruned(s, x);
    hide PruneDevices, Next;
  }

  lemma NextSessions(s: DeviceStore, x: Step, k: string)
    requires Inv(s) && Enabled(s, x)
    ensures SessionStep(s, Next(s, x), k)
  {
    StoredSession(s, k);
    if x.StepOpen? { OpenSessions(s, x, k); }
    else if x.StepClaim? { ClaimSessions(s, x, k); }
    else if x.StepRevoke? { FewerSessions(s, Next(s, x), k); }
    else { PrunedOnly(s, x); FewerSessions(s, Next(s, x), k); }
    hide SessionStep, Inv, PruneDevices, TrimSpace;
  }

  lemma KeptTwice(p: Session, q: Session, r: Session)
    requires Kept(p, q) && Kept(q, r)
    ensures Kept(p, r)
  {
    hide ClaimedUser;
  }

  /** At any two times a session is stored it is the same session: once taken it belongs to its user for good, and once over
      it stays over. */
  lemma {:induction false} SessionLife(steps: seq<Step>, i: nat, j: nat, k: string)
    requires ValidRun(steps) && i <= j <= |steps| && k in StoreAt(steps, i).sessions && k in StoreAt(steps, j).sessions
    ensures Kept(StoreAt(steps, i).sessions[k], StoreAt(steps, j).sessions[k])
    decreases j
  {
    hide ValidRun, StoreAt, Kept, Inv, Enabled, Next;
    if i == j {
      KeptSelf(StoreAt(steps, i).sessions[k]);
    } else {
      InvAt(steps, i);
      StoredSession(StoreAt(steps, i), k);
      IssuedForever(steps, i, j - 1);
      InvAt(steps, j - 1);
      NextSessions(StoreAt(steps, j - 1), steps[j - 1], k);
      SessionLife(steps, i, j - 1, k);
      KeptTwice(StoreAt(steps, i).sessions[k], StoreAt(steps, j - 1).sessions[k], StoreAt(steps, j).sessions[k]);
    }
  }

  lemma KeptSelf(p: Session)
    ensures Kept(p, p)
  {
  }

  /** So whoever else claims a taken session, by its token or its code, and at whatever time, is refused. */
  lemma TakenRefused(steps: seq<Step>, i: nat, j: nat, k: string, now: int, byCode: bool, rawKey: string, rawUser: string, rawMobile: string,
                     spareUser: string, spareMobile: string, found: Option<UserBinding>, bindingId: string, mobileToken: string, user: string)
    requires ValidRun(steps) && i <= j <= |steps| && k in StoreAt(steps, i).sessions && k in StoreAt(steps, j).sessions
    requires StoreAt(steps, i).sessions[k].status == Taken && Carries(StoreAt(steps, i).sessions[k], byCode, rawKey)
    requires Acts(rawUser, spareUser, user) && !TakenBy(StoreAt(steps, i).sessions[k], user)
    ensures Claim(StoreAt(steps, j), now, byCode, rawKey, rawUser, rawMobile, spareUser, spareMobile, found, bindingId, mobileToken)
      == (StoreAt(steps, j), Err(AlreadyClaimed))
  {
    hide ValidRun, StoreAt, Inv, Enabled, Next, Claim, TrimSpace;
    SessionLife(steps, i, j, k);
    InvAt(steps, j);
    ClaimExactly(StoreAt(steps, j), now, byCode, rawKey, rawUser, rawMobile, spareUser, spareMobile, found, bindingId, mobileToken, k, user);
  }

  // ---------- Revocations ----------

  /** The id was drawn, and no active binding has it. */
  ghost predicate Dead(s: DeviceStore, k: string) {
    k in s.issued && (k in s.bindings ==> !s.bindings[k].active)
  }

  /** The token was drawn, and the index does not have it. */
  ghost predicate Spent(s: DeviceStore, t: string) {
    t in s.issued && t !in s.mobileTokens
  }

  lemma ClaimDead(s: DeviceStore, x: Step, k: string, t: string)
    requires Inv(s) && x.StepClaim? && x.bindingId !in s.issued && x.mobileToken !in s.issued
    requires Answers(s, x.now, x.byCode, TrimSpace(x.rawKey), OrFresh(x.rawUser, x.spareUser), x.found)
    ensures Dead(s, k) && k in Next(s, x).bindings ==> !Next(s, x).bindings[k].active
    ensures Spent(s, t) ==> t !in Next(s, x).mobileTokens
  {
    KeyDead(s, x.now, x.byCode, TrimSpace(x.rawKey), OrFresh(x.rawUser, x.spareUser), OrFresh(x.rawMobile, x.spareMobile), x.found, x.bindingId, x.mobileToken, k, t);
    hide Inv, TrimSpace, ClaimKey, Answers;
  }

  lemma KeyDead(s: DeviceStore, now: int, byCode: bool, key: string, user: string, mobile: string, found: Option<UserBinding>, bindingId: string, mobileToken: string, k: string, t: string)
    requires Inv(s) && Answers(s, now, byCode, key, user, found) && bindingId !in s.issued && mobileToken !in s.issued
    ensures var s1 := ClaimKey(s, now, byCode, key, user, mobile, found, bindingId, mobileToken).0;
      && (Dead(s, k) && k in s1.bindings ==> !s1.bindings[k].active)
      && (Spent(s, t) ==> t !in s1.mobileTokens)
  {
    var r := Takeable(s, now, byCode, key, user);
    KeyCases(s, now, byCode, key, user, mobile, found, bindingId, mobileToken);
    hide Inv, Takeable, Search;
    if r.Ok? { TakeDead(s, r.value, now, user, mobile, found, bindingId, mobileToken, k, t); } else { hide ClaimKey; }
    hide Take;
  }

  lemma TakeDead(s: DeviceStore, p: Session, now: int, user: string, mobile: string, found: Option<UserBinding>, bindingId: string, mobileToken: string, k: string, t: string)
    requires Inv(s) && Search(s.bindings, user, p.deviceId, found) && bindingId !in s.issued && mobileToken !in s.issued
    ensures var s1 := Take(s, p, now, user, mobile, found, bindingId, mobileToken).0;
      && (Dead(s, k) && k in s1.bindings ==> !s1.bindings[k].active)
      && (Spent(s, t) ==> t !in s1.mobileTokens)
  {
    if found.Some? { FoundStored(s.bindings, s.mobileTokens, s.issued, user, p.deviceId, found.value); }
    hide Inv;
  }

  lemma RevokeDead(s: DeviceStore, x: Step, k: string, t: string)
    requires x.StepRevoke?
    ensures Dead(s, k) && k in Next(s, x).bindings ==> !Next(s, x).bindings[k].active
    ensures Spent(s, t) ==> t !in Next(s, x).mobileTokens
  {
    hide TrimSpace, ToRevoke;
  }

  lemma OpenDead(s: DeviceStore, x: Step, k: string, t: string)
    requires x.StepOpen?
    ensures Dead(s, k) && k in Next(s, x).bindings ==> !Next(s, x).bindings[k].active
    ensures Spent(s, t) ==> t !in Next(s, x).mobileTokens
  {
    OpenExactly(s, x.pruneNow, x.now, x.rawId, x.ttlSeconds, x.sessionId, x.token, x.codes, 0);
    PrunedExactly(s, x.pruneNow);
    PrunedTokens(s, x.pruneNow);
    hide PruneDevices, TrimSpace, OpenSession;
  }

  lemma NextDead(s: DeviceStore, x: Step, k: string, t: string)
    requires Inv(s) && Enabled(s, x)
    ensures Dead(s, k) ==> Dead(Next(s, x), k)
    ensures Spent(s, t) ==> Spent(Next(s, x), t)
  {
    NextIssued(s, x);
    if x.StepClaim? { ClaimDead(s, x, k, t); }
    else if x.StepRevoke? { RevokeDead(s, x, k, t); }
    else if x.StepOpen? { OpenDead(s, x, k, t); }
    else { PrunedOnly(s, x); }
    hide Inv, Next, Search, Answers, TrimSpace;
  }

  lemma {:induction false} DeadForever(steps: seq<Step>, i: nat, j: nat, k: string, t: string)
    requires ValidRun(steps) && i <= j <= |steps| && Dead(StoreAt(steps, i), k) && Spent(StoreAt(steps, i), t)
    ensures Dead(StoreAt(steps, j), k) && Spent(StoreAt(steps, j), t)
    decreases j
  {
    hide *;
    if i < j {
      DeadForever(steps, i, j - 1, k, t);
      InvAt(steps, j - 1);
      NextDead(StoreAt(steps, j - 1), steps[j - 1], k, t);
    }
  }

  /** After a revocation the binding is never active again, and its mobile token is never accepted again. */
  lemma RevokedForever(steps: seq<Step>, i: nat, j: nat, k: string)
    requires ValidRun(steps) && i < j <= |steps| && steps[i].StepRevoke?
    requires DeviceOutcomes.Names(StoreAt(steps, i), k, steps[i].rawBinding, steps[i].rawUser, steps[i].rawDevice)
    ensures k in StoreAt(steps, j).bindings ==> !StoreAt(steps, j).bindings[k].active
    ensures k in StoreAt(steps, i).bindings && StoreAt(steps, i).bindings[k].mobileToken !in StoreAt(steps, j).mobileTokens
  {
    hide ValidRun, StoreAt, Inv, Next;
    InvAt(steps, i);
    RevokedNow(StoreAt(steps, i), steps[i], k);
    DeadForever(steps, i + 1, j, k, StoreAt(steps, i).bindings[k].mobileToken);
    hide Enabled;
  }

  lemma RevokedNow(s: DeviceStore, x: Step, k: string)
    requires Inv(s) && Enabled(s, x) && x.StepRevoke? && DeviceOutcomes.Names(s, k, x.rawBinding, x.rawUser, x.rawDevice)
    ensures k in s.bindings && Dead(Next(s, x), k) && Spent(Next(s, x), s.bindings[k].mobileToken)
  {
    RevokeExactly(s, x.now, x.rawBinding, x.rawUser, x.rawDevice, x.found, k);
    NextIssued(s, x);
    InvTokens(s);
    assert k in s.issued by { hide DevicesOk, SessionsOk, Housed, AllClean, Inverse, OneActive, Differ, TrimSpace; }
    hide Inv, Revoke, TrimSpace, Search;
  }

  /** So it never lets a mobile in again. */
  lemma RevokedRefused(steps: seq<Step>, i: nat, j: nat, k: string, token: string)
    requires ValidRun(steps) && i < j <= |steps| && steps[i].StepRevoke?
    requires DeviceOutcomes.Names(StoreAt(steps, i), k, steps[i].rawBinding, steps[i].rawUser, steps[i].rawDevice)
    requires k in StoreAt(steps, i).bindings && TrimSpace(token) == StoreAt(steps, i).bindings[k].mobileToken
    ensures var r := Identify(StoreAt(steps, j), token); r.Err? || r.value.DeviceClient?
  {
    RevokedForever(steps, i, j, k);
    hide ValidRun, StoreAt, TrimSpace, DeviceOutcomes.Names;
  }
}
