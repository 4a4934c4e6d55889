/** One step of the control plane: the invariant, and what may happen to a pair session, a binding and the ids in use. */
module PairingSteps {
  import opened Helpers
  import opened PairingState
  import opened PairingInvariant
  import opened PairingFrames

  /** One store operation with its arguments, the time it read, and the random values it drew. */
  datatype Step =
    | StepChallenge(now: int, ask: ChallengeRequest, challengeId: string, nonce: string)
    | StepLogin(now: int, req: LoginRequest, sessionId: string, token: string)
    | StepAuthenticate(now: int, token: string)
    | StepPresence(now: int, who: Principal, announce: bool, platform: string, appVersion: string)
    | StepCreate(now: int, who: Principal, ttlSeconds: int, pairSessionId: string, claimToken: string, nonce: string)
    | StepDelete(now: int, who: Principal, rawId: string)
    | StepClaim(now: int, who: Principal, rawToken: string, mobileName: string, found: Option<Binding>, freshId: string)
    | StepApprove(now: int, who: Principal, rawId: string)
    | StepPrune(now: int)
    | StepQueue(queues: map<string, seq<Event>>)

  function Next(s: State, x: Step): State {
    match x
    case StepChallenge(now, ask, challengeId, nonce) => CreateChallenge(s, now, ask, challengeId, nonce).0
    case StepLogin(now, req, sessionId, token) => Login(s, now, req, sessionId, token).0
    case StepAuthenticate(now, token) => Authenticate(s, now, token).0
    case StepPresence(now, who, announce, platform, version) => Presence(s, now, who, announce, platform, version).0
    case StepCreate(now, who, ttl, id, token, nonce) => CreatePairSession(s, now, who, ttl, id, token, nonce).0
    case StepDelete(now, who, rawId) => DeletePairSession(s, now, who, rawId).0
    case StepClaim(now, who, rawToken, name, found, freshId) => ClaimPair(s, now, who, rawToken, name, found, freshId).0
    case StepApprove(now, who, rawId) => ApproveBinding(s, now, who, rawId).0
    case StepPrune(now) => Prune(s, now)
    case StepQueue(queues) => s.(queues := queues)
  }

  /** The random values are new, and the answers of unordered searches are possible ones. */
  ghost predicate Enabled(s: State, x: Step) {
    match x
    case StepChallenge(_, _, challengeId, nonce) => challengeId !in s.issued && nonce !in s.issued
    case StepLogin(_, _, sessionId, token) => sessionId !in s.issued && token !in s.issued
    case StepCreate(_, _, _, id, token, _) => id !in s.issued && token !in s.issued && token != ""
    case StepClaim(now, who, rawToken, _, found, freshId) =>
      freshId !in s.issued && (!Refused(x) ==> Answers(Prune(s, now), now, who.entityId, TrimSpace(rawToken), found))
    case _ => true
  }

  /** A step the source turns down before it takes the lock, so before it prunes. */
  predicate Refused(x: Step) {
    match x
    case StepChallenge(_, ask, _, _) => ReadClaimant(ask.entityType, ask.entityId, ask.publicKey).Err?
    case StepLogin(_, req, _, _) => ReadLogin(req).Err?
    case StepAuthenticate(_, token) => TrimSpace(token) == ""
    case StepCreate(_, who, _, _, _, _) => who.entityType != DesktopType
    case StepDelete(_, who, rawId) => who.entityType != DesktopType || TrimSpace(rawId) == ""
    case StepClaim(_, who, rawToken, _, _, _) => who.entityType != MobileType || TrimSpace(rawToken) == ""
    case StepApprove(_, who, rawId) => who.entityType != DesktopType || TrimSpace(rawId) == ""
    case _ => false
  }

  function Asker(ask: ChallengeRequest): Claimant
    requires ReadClaimant(ask.entityType, ask.entityId, ask.publicKey).Ok?
  {
    ReadClaimant(ask.entityType, ask.entityId, ask.publicKey).value
  }

  function LogOn(p: State, now: int, req: LoginRequest, sessionId: string, token: string): (State, Result<AuthSession>)
    requires ReadLogin(req).Ok?
  {
    var a := ReadLogin(req).value;
    LoginOn(p, now, a.who.entityType, a.who.entityId, a.challengeId, a.who.publicKey, a.verified, sessionId, token)
  }

  /** A pruning step from the pruned state on. */
  function After(p: State, x: Step): State
    requires !Refused(x)
  {
    match x
    case StepChallenge(now, ask, challengeId, nonce) =>
      var c := Asker(ask);
      ChallengeOn(p, now, c.entityType, c.entityId, c.publicKey, challengeId, nonce).0
    case StepLogin(now, req, sessionId, token) => LogOn(p, now, req, sessionId, token).0
    case StepAuthenticate(now, token) => AuthenticateOn(p, now, TrimSpace(token)).0
    case StepPresence(now, who, announce, platform, version) => PresenceOn(p, now, who, announce, platform, version).0
    case StepCreate(now, who, ttl, id, token, nonce) => CreateOn(p, now, who, ttl, id, token, nonce).0
    case StepDelete(now, who, rawId) => DeleteOn(p, who, TrimSpace(rawId)).0
    case StepClaim(now, who, rawToken, name, found, freshId) => ClaimOn(p, now, who.entityId, TrimSpace(rawToken), name, found, freshId).0
    case StepApprove(now, who, rawId) => ApproveOn(p, now, who, TrimSpace(rawId)).0
    case _ => p
  }

  predicate Prunes(x: Step) {
    !x.StepQueue? && !Refused(x)
  }

  lemma NextAfterPrune(s: State, x: Step)
    ensures Prunes(x) ==> Next(s, x) == After(Prune(s, x.now), x)
    ensures Refused(x) ==> Next(s, x) == s
  {
    hide Prune, TrimSpace, ReadClaimant, ReadLogin, ChallengeOn, LoginOn, AuthenticateOn, PresenceOn, CreateOn, DeleteOn, ClaimOn, ApproveOn;
  }

  // ---------- The invariant ----------

  lemma ChallengeKeeps(s: State, now: int, t: EntityType, id: string, key: string, challengeId: string, nonce: string)
    requires Inv(s)
    ensures Inv(ChallengeOn(s, now, t, id, key, challengeId, nonce).0)
  {
    hide PairInv, EntityInv;
    IssuedKeeps(s.pairSessions, s.claimIndex, s.bindings, s.issued, s.issued + {challengeId, nonce});
  }

  lemma PrunedIssued(s: State, now: int)
    ensures Prune(s, now).issued == s.issued && Prune(s, now).bindings == s.bindings
  {
  }

  lemma AfterKeeps(p: State, x: Step)
    requires Inv(p) && Prunes(x)
    requires x.StepCreate? ==> x.pairSessionId !in p.issued && x.claimToken !in p.issued && x.claimToken != ""
    requires x.StepClaim? ==> x.freshId !in p.issued && Answers(p, x.now, x.who.entityId, TrimSpace(x.rawToken), x.found)
    requires x.StepAuthenticate? ==> Inv(AuthenticateOn(p, x.now, TrimSpace(x.token)).0)
    ensures Inv(After(p, x))
  {
    hide Inv, TrimSpace, ReadClaimant, ReadLogin, ChallengeOn, LoginOn, AuthenticateOn, PresenceOn, CreateOn, DeleteOn, ClaimOn, ApproveOn, Answers;
    match x
    case StepChallenge(now, ask, challengeId, nonce) =>
      var c := Asker(ask);
      ChallengeKeeps(p, now, c.entityType, c.entityId, c.publicKey, challengeId, nonce);
    case StepLogin(now, req, sessionId, token) =>
      var a := ReadLogin(req).value;
      LoginKeeps(p, now, a.who.entityType, a.who.entityId, a.challengeId, a.who.publicKey, a.verified, sessionId, token);
    case StepPresence(now, who, announce, platform, version) => PresenceKeeps(p, now, who, announce, platform, version);
    case StepCreate(now, who, ttl, id, token, nonce) => CreateKeeps(p, now, who, ttl, id, token, nonce);
    case StepDelete(now, who, rawId) => DeleteKeeps(p, who, TrimSpace(rawId));
    case StepClaim(now, who, rawToken, name, found, freshId) => ClaimKeeps(p, now, who.entityId, TrimSpace(rawToken), name, found, freshId);
    case StepApprove(now, who, rawId) => ApproveKeeps(p, now, who, TrimSpace(rawId));
    case _ =>
  }

  /** Every operation keeps all the maps in agreement. */
  lemma NextKeeps(s: State, x: Step)
    requires Inv(s) && Enabled(s, x)
    ensures Inv(Next(s, x))
  {
    hide Inv, Prune, TrimSpace, AuthenticateOn, Answers, After;
    if x.StepQueue? {
      QueueKeeps(s, x.queues);
    } else {
      NextAfterPrune(s, x);
      if Prunes(x) {
        PruneKeeps(s, x.now);
        PrunedIssued(s, x.now);
        if x.StepAuthenticate? { AuthenticateKeeps(s, x.now, x.token); }
        hide Next;
        AfterKeeps(Prune(s, x.now), x);
      }
    }
  }

  lemma PruneKeepsKeys(s: State, now: int)
    requires Inv(s)
    ensures KeysMatch(Prune(s, now).desktops, Prune(s, now).mobiles)
  {
    PruneKeeps(s, now);
    hide Prune, PairInv, AuthAgrees, KeysMatch;
  }

  lemma QueueKeeps(s: State, queues: map<string, seq<Event>>)
    requires Inv(s)
    ensures Inv(s.(queues := queues))
  {
  }

  // ---------- The life of a pair session ----------

  /** The moves the control plane may make on a session; what names it and who claimed it never change. */
  predicate Moves(p: PairSession, q: PairSession) {
    && q == p.(status := q.status, updatedAt := q.updatedAt, claimedMobileId := q.claimedMobileId, bindingId := q.bindingId)
    && (p.claimedMobileId.Some? ==> q.claimedMobileId == p.claimedMobileId)
    && (p.bindingId.Some? ==> q.bindingId == p.bindingId)
    && (!Open(p) ==> q.claimedMobileId == p.claimedMobileId && q.bindingId == p.bindingId)
    && match p.status
       case Pending => q.status in {Pending, Claimed, Expired}
       case Claimed => q.status in {Claimed, Approved, Expired}
       case Expired => q.status == Expired || (q.status == Approved && p.claimedMobileId.Some?)
       case Approved => q.status == Approved
  }

  ghost predicate AllMove(before: map<string, PairSession>, after: map<string, PairSession>) {
    forall k :: k in before && k in after ==> Moves(before[k], after[k])
  }

  lemma PruneMoves(s: State, now: int)
    ensures var p := Prune(s, now); p.pairSessions.Keys == s.pairSessions.Keys && AllMove(s.pairSessions, p.pairSessions)
    ensures forall k :: k in s.pairSessions ==>
      Prune(s, now).pairSessions[k].claimedMobileId == s.pairSessions[k].claimedMobileId
      && Prune(s, now).pairSessions[k].status in {s.pairSessions[k].status, Expired}
  {
    hide RemovedKeys, LapsedTokens;
  }

  /** A prune and then a move, as every operation does them, is a move. */
  lemma MovesAfterPrune(p: PairSession, m: PairSession, q: PairSession)
    requires WellShaped(p) && Moves(p, m) && m.status in {p.status, Expired} && Moves(m, q)
    requires m.claimedMobileId == p.claimedMobileId
    ensures Moves(p, q)
  {
  }

  lemma CreateMoves(s: State, now: int, who: Principal, ttlSeconds: int, id: string, token: string, nonce: string)
    requires id !in s.pairSessions
    ensures var s1 := CreateOn(s, now, who, ttlSeconds, id, token, nonce).0;
      AllMove(s.pairSessions, s1.pairSessions) && s1.pairSessions.Keys <= s.pairSessions.Keys + {id} && s.pairSessions.Keys <= s1.pairSessions.Keys
  {
  }

  lemma DeleteMoves(s: State, who: Principal, id: string)
    requires who.entityType == DesktopType
    ensures var s1 := DeleteOn(s, who, id).0;
      AllMove(s.pairSessions, s1.pairSessions) && s1.pairSessions.Keys <= s.pairSessions.Keys
      && forall k :: k in s.pairSessions && k !in s1.pairSessions ==>
           s.pairSessions[k].status == Pending && who == Principal(DesktopType, s.pairSessions[k].deviceId)
  {
    var s1 := DeleteOn(s, who, id).0;
    assert s1.pairSessions == s.pairSessions
      || (id in s.pairSessions && s.pairSessions[id].status == Pending && s.pairSessions[id].deviceId == who.entityId
          && s1.pairSessions == s.pairSessions - {id});
    hide DeleteOn;
  }

  lemma ClaimMoves(s: State, now: int, mobileId: string, token: string, name: string, found: Option<Binding>, freshId: string)
    requires Inv(s) && freshId !in s.issued && Answers(s, now, mobileId, token, found)
    ensures var s1 := ClaimOn(s, now, mobileId, token, name, found, freshId).0;
      AllMove(s.pairSessions, s1.pairSessions) && s1.pairSessions.Keys == s.pairSessions.Keys
  {
    var (s1, r) := ClaimOn(s, now, mobileId, token, name, found, freshId);
    if r.Ok? {
      ClaimableIs(s, now, mobileId, token);
      ClaimShape(s, now, mobileId, token, name, found, freshId);
      var p0 := ClaimableSession(s, now, mobileId, token).value;
      var m := ClaimingMobile(s.mobiles[mobileId], now, name);
      assert Found(s.bindings, p0.deviceId, m.mobileId, found) && m.mobileId == mobileId by { hide Inv, ClaimOn, ClaimLookup, ClaimableSession, Found; }
      assert PairInv(s.pairSessions, s.claimIndex, s.bindings, s.issued) by { hide PairInv, EntityInv; }
      hide *;
      ClaimPairKeeps(s.pairSessions, s.claimIndex, s.bindings, s.issued, p0, m, now, found, freshId);
      ClaimMove(p0, now, m.mobileId, r.value.1.bindingId);
      UpdateMoves(s.pairSessions, p0.pairSessionId, r.value.0);
    } else {
      assert IndexExact(s.pairSessions, s.claimIndex) by { hide EntityInv; }
      LookupSessions(s, now, mobileId, token, name);
      hide Inv, ClaimableSession, ClaimLookup, IndexExact, AllMove;
    }
  }

  lemma ClaimMove(p: PairSession, now: int, mobileId: string, bindingId: string)
    requires Open(p) && p.claimedMobileId in {None, Some(mobileId)} && p.bindingId in {None, Some(bindingId)}
    ensures Moves(p, p.(status := Claimed, updatedAt := now, claimedMobileId := Some(mobileId), bindingId := Some(bindingId)))
  {
  }

  lemma LookupSessions(s: State, now: int, mobileId: string, token: string, name: string)
    requires IndexExact(s.pairSessions, s.claimIndex)
    ensures var s1 := ClaimLookup(s, now, mobileId, token, name);
      AllMove(s.pairSessions, s1.pairSessions) && s1.pairSessions.Keys == s.pairSessions.Keys && s1.bindings == s.bindings
      && (ClaimableSession(s, now, mobileId, token).Ok? ==> s1.pairSessions == s.pairSessions)
  {
    var s1 := ClaimLookup(s, now, mobileId, token, name);
    if ClaimableSession(s, now, mobileId, token) == Err(ExpiredError) {
      var k := s.claimIndex[token];
      assert Open(s.pairSessions[k]);
      var p := s.pairSessions[k].(status := Expired, updatedAt := now);
      assert s1 == s.(pairSessions := s.pairSessions[k := p], claimIndex := s.claimIndex - {token});
      assert Moves(s.pairSessions[k], p);
      hide *;
      assert forall j | j in s.pairSessions && j in s1.pairSessions :: j == k || s1.pairSessions[j] == s.pairSessions[j];
      UpdateMoves(s.pairSessions, k, p);
    } else {
      assert s1 == s.(mobiles := s1.mobiles);
      hide ClaimLookup, ClaimableSession, IndexExact;
    }
  }

  lemma UpdateMoves(sessions: map<string, PairSession>, k: string, p: PairSession)
    requires k in sessions && Moves(sessions[k], p)
    ensures AllMove(sessions, sessions[k := p])
  {
  }

  lemma ApproveMoves(s: State, now: int, who: Principal, id: string)
    requires Inv(s)
    ensures var s1 := ApproveOn(s, now, who, id).0;
      AllMove(s.pairSessions, s1.pairSessions) && s1.pairSessions.Keys == s.pairSessions.Keys
  {
    var (s1, r) := ApproveOn(s, now, who, id);
    if r.Ok? && r.value.pairSessionId in s.pairSessions {
      var k := r.value.pairSessionId;
      var p := s.pairSessions[k].(status := Approved, updatedAt := now);
      assert s.pairSessions[k].bindingId.Some? && s.pairSessions[k].pairSessionId == k && WellShaped(s.pairSessions[k]) by { BoundSession(s, id); }
      assert s1.pairSessions == s.pairSessions[k := p] by { hide Inv, WellShaped; }
      assert Moves(s.pairSessions[k], p) by { hide Inv, ApproveOn; }
      hide *;
      UpdateMoves(s.pairSessions, k, p);
    } else {
      hide Inv;
      assert s1.pairSessions == s.pairSessions;
      hide ApproveOn;
      SameMove(s.pairSessions);
    }
  }

  lemma BoundSession(s: State, id: string)
    requires Inv(s) && id in s.bindings && s.bindings[id].pairSessionId in s.pairSessions
    ensures var p := s.pairSessions[s.bindings[id].pairSessionId];
      p.bindingId.Some? && p.pairSessionId == s.bindings[id].pairSessionId && WellShaped(p)
  {
    hide EntityInv, TokensDiffer, IndexExact, OnePerPair, PairIssued, WellShaped;
  }

  lemma ComposeMoves(a: map<string, PairSession>, m: map<string, PairSession>, b: map<string, PairSession>)
    requires AllMove(a, m) && AllMove(m, b) && a.Keys == m.Keys
    requires forall k :: k in a ==> WellShaped(a[k]) && m[k].status in {a[k].status, Expired} && m[k].claimedMobileId == a[k].claimedMobileId
    ensures AllMove(a, b)
  {
    forall k | k in a && k in b ensures Moves(a[k], b[k]) { MovesAfterPrune(a[k], m[k], b[k]); }
  }

  /** Which step may drop a session: deleting a pending one by its own device. */
  predicate MayDrop(x: Step, p: PairSession) {
    x.StepDelete? && p.status == Pending && x.who == Principal(DesktopType, p.deviceId)
  }

  /** What one step does to the sessions: each only moves, a new one was just created, a lost one might be dropped. */
  ghost predicate SessionsStep(s: State, x: Step, s1: State) {
    && AllMove(s.pairSessions, s1.pairSessions)
    && s1.pairSessions.Keys <= s.pairSessions.Keys + (if x.StepCreate? then {x.pairSessionId} else {})
    && (forall k :: k in s.pairSessions && k !in s1.pairSessions ==> MayDrop(x, s.pairSessions[k]))
  }

  lemma AfterPrune(s: State, now: int, x: Step, s1: State)
    requires Inv(s) && SessionsStep(Prune(s, now), x, s1)
    ensures SessionsStep(s, x, s1)
  {
    var a, m, b := s.pairSessions, Prune(s, now).pairSessions, s1.pairSessions;
    assert AllMove(m, b) && b.Keys <= m.Keys + (if x.StepCreate? then {x.pairSessionId} else {})
      && (forall k :: k in m && k !in b ==> MayDrop(x, m[k])) by { hide Inv, Prune, AllMove, MayDrop; }
    hide Inv, Prune, AllMove, MayDrop, WellShaped;
    ShapedAll(s);
    PruneMoves(s, now);
    hide *;
    ComposeMoves(a, m, b);
    forall k | k in a && k !in b ensures MayDrop(x, a[k]) { DropAfterPrune(x, a, m, k); }
    StepFromParts(s, x, s1);
  }

  lemma StepFromParts(s: State, x: Step, s1: State)
    requires AllMove(s.pairSessions, s1.pairSessions)
    requires s1.pairSessions.Keys <= s.pairSessions.Keys + (if x.StepCreate? then {x.pairSessionId} else {})
    requires forall k :: k in s.pairSessions && k !in s1.pairSessions ==> MayDrop(x, s.pairSessions[k])
    ensures SessionsStep(s, x, s1)
  {
    hide AllMove, MayDrop;
  }

  lemma DropAfterPrune(x: Step, before: map<string, PairSession>, after: map<string, PairSession>, k: string)
    requires AllMove(before, after) && k in before && k in after && MayDrop(x, after[k])
    ensures MayDrop(x, before[k])
  {
    assert Moves(before[k], after[k]);
  }

  lemma ShapedAll(s: State)
    requires Inv(s)
    ensures forall k :: k in s.pairSessions ==> WellShaped(s.pairSessions[k])
  {
  }

  lemma SameMove(m: map<string, PairSession>)
    ensures AllMove(m, m)
  {
  }

  lemma OthersKeepSessions(p: State, x: Step)
    requires !Refused(x) && (x.StepChallenge? || x.StepLogin? || x.StepAuthenticate? || x.StepPresence? || x.StepPrune?)
    ensures After(p, x).pairSessions == p.pairSessions && After(p, x).bindings == p.bindings
  {
    hide TrimSpace, ReadClaimant, ReadLogin, LoginOn, AuthenticateOn, PresenceOn, ChallengeOn;
    match x
    case StepLogin(now, req, sessionId, token) =>
      var a := ReadLogin(req).value;
      LoginFrame(p, now, a.who.entityType, a.who.entityId, a.challengeId, a.who.publicKey, a.verified, sessionId, token);
    case StepPresence(now, who, announce, platform, version) => PresenceFrame(p, now, who, announce, platform, version);
    case StepAuthenticate(now, token) => AuthenticateFrame(p, now, TrimSpace(token));
    case StepChallenge(now, ask, challengeId, nonce) =>
      var c := Asker(ask);
      ChallengeFrame(p, now, c.entityType, c.entityId, c.publicKey, challengeId, nonce);
    case StepPrune(_) =>
  }

  lemma LoginFrame(p: State, now: int, entityType: EntityType, entityId: string, challengeId: string, publicKey: string,
                   verified: bool, sessionId: string, token: string)
    ensures var s1 := LoginOn(p, now, entityType, entityId, challengeId, publicKey, verified, sessionId, token).0;
      s1.pairSessions == p.pairSessions && s1.bindings == p.bindings
  {
    LoginShape(p, now, entityType, entityId, challengeId, publicKey, verified, sessionId, token);
    hide LoginOn, WithEntity, KeyOf;
  }

  lemma AfterSessions(p: State, x: Step)
    requires Inv(p) && Prunes(x)
    requires x.StepCreate? ==> x.pairSessionId !in p.pairSessions
    requires x.StepClaim? ==> x.freshId !in p.issued && Answers(p, x.now, x.who.entityId, TrimSpace(x.rawToken), x.found)
    ensures SessionsStep(p, x, After(p, x))
  {
    hide Inv, TrimSpace, ReadClaimant, ReadLogin, ChallengeOn, LoginOn, AuthenticateOn, PresenceOn, CreateOn, DeleteOn, ClaimOn, ApproveOn, Answers, AllMove;
    match x
    case StepCreate(now, who, ttl, id, token, nonce) => CreateMoves(p, now, who, ttl, id, token, nonce);
    case StepDelete(now, who, rawId) => DeleteMoves(p, who, TrimSpace(rawId));
    case StepClaim(now, who, rawToken, name, found, freshId) => ClaimMoves(p, now, who.entityId, TrimSpace(rawToken), name, found, freshId);
    case StepApprove(now, who, rawId) => ApproveMoves(p, now, who, TrimSpace(rawId));
    case _ =>
      OthersKeepSessions(p, x);
      SameSessions(p, x, After(p, x));
  }

  lemma SameSessions(s: State, x: Step, s1: State)
    requires s1.pairSessions == s.pairSessions
    ensures SessionsStep(s, x, s1)
  {
    SameMove(s.pairSessions);
    hide AllMove;
  }

  lemma IssuedNames(s: State)
    requires Inv(s)
    ensures s.pairSessions.Keys <= s.issued && s.bindings.Keys <= s.issued
  {
  }

  /** In one step a stored session only makes an allowed move, a new one was just created under an unused id, and only
      its own device may delete one, while it is pending. */
  lemma NextSessions(s: State, x: Step)
    requires Inv(s) && Enabled(s, x)
    ensures SessionsStep(s, x, Next(s, x))
  {
    hide Inv, Prune, TrimSpace, Answers, After, AllMove;
    if x.StepQueue? {
      SameSessions(s, x, Next(s, x));
    } else {
      NextAfterPrune(s, x);
      if Prunes(x) {
        PruneKeeps(s, x.now);
        PrunedIssued(s, x.now);
        IssuedNames(Prune(s, x.now));
        hide Next;
        AfterSessions(Prune(s, x.now), x);
        AfterPrune(s, x.now, x, Next(s, x));
      } else {
        SameSessions(s, x, s);
      }
    }
  }

  // ---------- The life of a binding ----------

  /** A stored binding stays, with its device and its mobile; once active nothing about it changes. */
  predicate Endures(a: Binding, b: Binding) {
    && b.bindingId == a.bindingId && b.deviceId == a.deviceId && b.mobileId == a.mobileId && b.createdAt == a.createdAt
    && (a.trust == ActiveTrust ==> b == a)
  }

  /** `who`, a mobile, claims a session of this device in state s, which makes or renews this binding. */
  ghost predicate ClaimsBinding(s: State, x: Step, id: string, device: string, mobile: string) {
    x.StepClaim? && x.who == Principal(MobileType, mobile) &&
    var r := ClaimPair(s, x.now, x.who, x.rawToken, x.mobileName, x.found, x.freshId).1;
    r.Ok? && r.value.1.bindingId == id && r.value.0.deviceId == device && r.value.0.pairSessionId in s.pairSessions
  }

  /** `who`, the desktop itself, approves this binding in state s. */
  ghost predicate ApprovesBinding(s: State, x: Step, id: string, device: string) {
    x.StepApprove? && x.who == Principal(DesktopType, device) &&
    var r := ApproveBinding(s, x.now, x.who, x.rawId).1;
    r.Ok? && r.value.bindingId == id && r.value.trust == ActiveTrust
  }

  /** What one step does to the bindings: all endure, a new one was just claimed, a newly active one just approved. */
  ghost predicate BindingsStep(s: State, x: Step, s1: State) {
    && (forall k :: k in s.bindings ==> k in s1.bindings && Endures(s.bindings[k], s1.bindings[k]))
    && (forall k :: k in s1.bindings && k !in s.bindings ==>
          s1.bindings[k].trust == PendingTrust && ClaimsBinding(s, x, k, s1.bindings[k].deviceId, s1.bindings[k].mobileId))
    && (forall k :: k in s.bindings && s.bindings[k].trust != ActiveTrust && s1.bindings[k].trust == ActiveTrust ==>
          ApprovesBinding(s, x, k, s1.bindings[k].deviceId))
  }

  lemma SameBindings(s: State, x: Step, s1: State)
    requires s1.bindings == s.bindings
    ensures BindingsStep(s, x, s1)
  {
    hide ClaimsBinding, ApprovesBinding;
  }

  /** Storing one binding, renewed or new, or newly active. */
  lemma OneBindingStep(s: State, x: Step, s1: State, b: Binding)
    requires s1.bindings == s.bindings[b.bindingId := b]
    requires b.bindingId in s.bindings ==> Endures(s.bindings[b.bindingId], b)
    requires b.bindingId !in s.bindings ==> b.trust == PendingTrust && ClaimsBinding(s, x, b.bindingId, b.deviceId, b.mobileId)
    requires b.trust == ActiveTrust ==> ApprovesBinding(s, x, b.bindingId, b.deviceId)
    ensures BindingsStep(s, x, s1)
  {
    hide ClaimsBinding, ApprovesBinding;
  }

  lemma ClaimIs(s: State, x: Step)
    requires x.StepClaim? && Prunes(x)
    ensures var c := ClaimOn(Prune(s, x.now), x.now, x.who.entityId, TrimSpace(x.rawToken), x.mobileName, x.found, x.freshId);
      Next(s, x) == c.0
      && (c.1.Ok? && c.1.value.1.mobileId == x.who.entityId && c.1.value.0.deviceId == c.1.value.1.deviceId && c.1.value.0.pairSessionId in s.pairSessions ==>
            ClaimsBinding(s, x, c.1.value.1.bindingId, c.1.value.1.deviceId, c.1.value.1.mobileId))
  {
    hide ClaimOn, Prune, TrimSpace;
  }

  lemma ClaimBindings(s: State, x: Step)
    requires Inv(s) && Enabled(s, x) && x.StepClaim? && Prunes(x)
    ensures BindingsStep(s, x, Next(s, x))
  {
    assert x.freshId !in s.issued && Answers(Prune(s, x.now), x.now, x.who.entityId, TrimSpace(x.rawToken), x.found) by { hide TrimSpace, Prune, Inv, Answers; }
    hide *;
    PruneKeeps(s, x.now);
    PrunedIssued(s, x.now);
    PruneMoves(s, x.now);
    ClaimIs(s, x);
    var p, t := Prune(s, x.now), TrimSpace(x.rawToken);
    var (s1, r) := ClaimOn(p, x.now, x.who.entityId, t, x.mobileName, x.found, x.freshId);
    if r.Ok? {
      ClaimedShape(p, x.now, x.who.entityId, t, x.mobileName, x.found, x.freshId);
      OneBindingStep(s, x, s1, r.value.1);
    } else {
      FailedClaimBindings(p, x.now, x.who.entityId, t, x.mobileName, x.found, x.freshId);
      SameBindings(s, x, s1);
    }
  }

  /** A successful claim: the binding written, new or renewed, and the session it came through. */
  lemma ClaimedShape(s: State, now: int, mobileId: string, token: string, name: string, found: Option<Binding>, freshId: string)
    requires Inv(s) && freshId !in s.issued && Answers(s, now, mobileId, token, found)
    ensures var (s1, r) := ClaimOn(s, now, mobileId, token, name, found, freshId);
      r.Ok? ==>
        && var (p, b) := r.value;
           && s1.bindings == s.bindings[b.bindingId := b] && p.pairSessionId in s.pairSessions
           && b.trust == PendingTrust && b.mobileId == mobileId && b.deviceId == p.deviceId
           && (b.bindingId in s.bindings ==> Endures(s.bindings[b.bindingId], b))
  {
    var (s1, r) := ClaimOn(s, now, mobileId, token, name, found, freshId);
    if r.Ok? {
      ClaimableIs(s, now, mobileId, token);
      ClaimShape(s, now, mobileId, token, name, found, freshId);
      var p0 := ClaimableSession(s, now, mobileId, token).value;
      var m := ClaimingMobile(s.mobiles[mobileId], now, name);
      ClaimedBinding(s.pairSessions, s.bindings, s.issued, p0, m, now, found, freshId);
      hide ClaimOn, ClaimLookup, ClaimableSession, Inv, Found;
    }
  }

  lemma ApproveIs(s: State, x: Step)
    requires x.StepApprove? && Prunes(x)
    ensures var c := ApproveOn(Prune(s, x.now), x.now, x.who, TrimSpace(x.rawId));
      Next(s, x) == c.0
      && (c.1.Ok? && c.1.value.trust == ActiveTrust && c.1.value.deviceId == x.who.entityId ==>
            ApprovesBinding(s, x, c.1.value.bindingId, c.1.value.deviceId))
  {
    hide ApproveOn, Prune, TrimSpace;
  }

  lemma ApproveBindings(s: State, x: Step)
    requires Inv(s) && x.StepApprove? && Prunes(x)
    ensures BindingsStep(s, x, Next(s, x))
  {
    hide *;
    PruneKeeps(s, x.now);
    PrunedIssued(s, x.now);
    ApproveIs(s, x);
    var p, id := Prune(s, x.now), TrimSpace(x.rawId);
    var (s1, r) := ApproveOn(p, x.now, x.who, id);
    if r.Ok? {
      ApproveShape(p, x.now, x.who, id);
      OneBindingStep(s, x, s1, r.value);
    } else {
      FailedApproveBindings(p, x.now, x.who, id);
      SameBindings(s, x, s1);
    }
  }

  lemma ApproveShape(s: State, now: int, who: Principal, id: string)
    requires Inv(s)
    ensures var (s1, r) := ApproveOn(s, now, who, id);
      r.Ok? ==>
        && id in s.bindings && s.bindings[id].trust == PendingTrust && r.value == s.bindings[id].(trust := ActiveTrust, approvedAt := Some(now), updatedAt := now)
        && r.value.bindingId == id && r.value.deviceId == who.entityId && Endures(s.bindings[id], r.value) && s1.bindings == s.bindings[id := r.value]
  {
    assert id in s.bindings ==> s.bindings[id].bindingId == id by { hide EntityInv; }
    hide Inv;
  }

  lemma OtherBindings(p: State, x: Step)
    requires !x.StepClaim? && !x.StepApprove? && Prunes(x)
    ensures After(p, x).bindings == p.bindings
  {
    hide TrimSpace, LoginOn, AuthenticateOn, PresenceOn;
    if !x.StepCreate? && !x.StepDelete? { OthersKeepSessions(p, x); }
  }

  /** In one step every stored binding endures, only a claim by its own mobile makes one, and only its own device activates one. */
  lemma NextBindings(s: State, x: Step)
    requires Inv(s) && Enabled(s, x)
    ensures BindingsStep(s, x, Next(s, x))
  {
    hide Inv, TrimSpace, BindingsStep, Enabled;
    if x.StepQueue? {
      SameBindings(s, x, Next(s, x));
    } else {
      NextAfterPrune(s, x);
      hide Next;
      if !Prunes(x) {
        SameBindings(s, x, s);
      } else if x.StepClaim? {
        ClaimBindings(s, x);
      } else if x.StepApprove? {
        ApproveBindings(s, x);
      } else {
        PrunedIssued(s, x.now);
        OtherBindings(Prune(s, x.now), x);
        hide After, Prune;
        SameBindings(s, x, Next(s, x));
      }
    }
  }

  /** The same, for one binding. */
  lemma NextBinding(s: State, x: Step, k: string)
    requires Inv(s) && Enabled(s, x)
    ensures k in s.bindings ==> k in Next(s, x).bindings && Endures(s.bindings[k], Next(s, x).bindings[k])
    ensures k in Next(s, x).bindings && k !in s.bindings ==>
      var b := Next(s, x).bindings[k]; b.trust == PendingTrust && ClaimsBinding(s, x, k, b.deviceId, b.mobileId)
    ensures k in s.bindings && s.bindings[k].trust != ActiveTrust && Next(s, x).bindings[k].trust == ActiveTrust ==>
      ApprovesBinding(s, x, k, Next(s, x).bindings[k].deviceId)
  {
    NextBindings(s, x);
    hide Inv, Enabled, Next, Endures, ClaimsBinding, ApprovesBinding;
  }

  /** And for one session. */
  lemma NextSession(s: State, x: Step, k: string)
    requires Inv(s) && Enabled(s, x)
    ensures k in s.pairSessions && k in Next(s, x).pairSessions ==> Moves(s.pairSessions[k], Next(s, x).pairSessions[k])
    ensures k !in s.pairSessions && k in Next(s, x).pairSessions ==> x.StepCreate? && k == x.pairSessionId
    ensures k in s.pairSessions && k !in Next(s, x).pairSessions ==> MayDrop(x, s.pairSessions[k])
  {
    NextSessions(s, x);
    hide Inv, Enabled, Next, Moves, MayDrop;
  }

  lemma MovesNames(p: PairSession, q: PairSession)
    requires Moves(p, q)
    ensures q.deviceId == p.deviceId
  {
  }

  lemma EnduresFacts(a: Binding, b: Binding, c: Binding)
    requires Endures(a, b)
    ensures b.deviceId == a.deviceId && b.mobileId == a.mobileId && (a.trust == ActiveTrust ==> b == a) && Endures(a, a)
    ensures Endures(b, c) ==> Endures(a, c)
  {
  }

  // ---------- Ids are used once ----------

  lemma AfterIssued(p: State, x: Step)
    requires Prunes(x)
    ensures p.issued <= After(p, x).issued
  {
    hide TrimSpace, ReadClaimant, ReadLogin, ChallengeOn, LoginOn, AuthenticateOn, PresenceOn, CreateOn, DeleteOn, ClaimOn, ApproveOn;
    match x
    case StepChallenge(now, ask, challengeId, nonce) =>
      var c := Asker(ask);
      ChallengeFrame(p, now, c.entityType, c.entityId, c.publicKey, challengeId, nonce);
    case StepLogin(now, req, sessionId, token) =>
      var a := ReadLogin(req).value;
      LoginShape(p, now, a.who.entityType, a.who.entityId, a.challengeId, a.who.publicKey, a.verified, sessionId, token);
    case StepAuthenticate(now, token) => AuthenticateFrame(p, now, TrimSpace(token));
    case StepPresence(now, who, announce, platform, version) => PresenceFrame(p, now, who, announce, platform, version);
    case StepCreate(now, who, ttl, id, token, nonce) => CreateFrame(p, now, who, ttl, id, token, nonce);
    case StepDelete(now, who, rawId) => DeleteFrame(p, who, TrimSpace(rawId));
    case StepClaim(now, who, rawToken, name, found, freshId) => ClaimIssued(p, now, who.entityId, TrimSpace(rawToken), name, found, freshId);
    case StepApprove(now, who, rawId) => ApproveFrame(p, now, who, TrimSpace(rawId));
    case StepPrune(_) =>
  }

  lemma NextIssued(s: State, x: Step)
    ensures s.issued <= Next(s, x).issued
  {
    if Prunes(x) {
      hide *;
      NextAfterPrune(s, x);
      PrunedIssued(s, x.now);
      AfterIssued(Prune(s, x.now), x);
    } else if !x.StepQueue? {
      NextAfterPrune(s, x);
      hide Next, TrimSpace;
    }
  }

  /** A binding that a step adds has an id never used before. */
  lemma NewBindingFresh(s: State, x: Step, k: string)
    requires Inv(s) && Enabled(s, x)
    ensures k !in s.bindings && k in Next(s, x).bindings ==> k !in s.issued
  {
    hide *;
    if k !in s.bindings && k in Next(s, x).bindings {
      NextBinding(s, x, k);
      ClaimEnabled(s, x, k, Next(s, x).bindings[k].deviceId, Next(s, x).bindings[k].mobileId);
      PruneKeeps(s, x.now);
      PrunedIssued(s, x.now);
      ClaimIs(s, x);
      var p, t := Prune(s, x.now), TrimSpace(x.rawToken);
      ClaimedFresh(p, x.now, x.who.entityId, t, x.mobileName, x.found, x.freshId);
      FailedClaimBindings(p, x.now, x.who.entityId, t, x.mobileName, x.found, x.freshId);
    }
  }

  lemma ClaimEnabled(s: State, x: Step, k: string, device: string, mobile: string)
    requires Enabled(s, x) && ClaimsBinding(s, x, k, device, mobile)
    ensures x.StepClaim? && Prunes(x) && x.freshId !in s.issued
    ensures Answers(Prune(s, x.now), x.now, x.who.entityId, TrimSpace(x.rawToken), x.found)
  {
    hide TrimSpace, Prune, ClaimOn, Answers;
  }

  lemma ClaimedFresh(s: State, now: int, mobileId: string, token: string, name: string, found: Option<Binding>, freshId: string)
    requires Inv(s) && freshId !in s.issued && Answers(s, now, mobileId, token, found)
    ensures var (s1, r) := ClaimOn(s, now, mobileId, token, name, found, freshId);
      r.Ok? ==> s1.bindings.Keys <= s.bindings.Keys + {freshId}
  {
    var (s1, r) := ClaimOn(s, now, mobileId, token, name, found, freshId);
    if r.Ok? {
      ClaimableIs(s, now, mobileId, token);
      ClaimShape(s, now, mobileId, token, name, found, freshId);
      var p0 := ClaimableSession(s, now, mobileId, token).value;
      var m := ClaimingMobile(s.mobiles[mobileId], now, name);
      ClaimedBinding(s.pairSessions, s.bindings, s.issued, p0, m, now, found, freshId);
      hide ClaimOn, ClaimLookup, ClaimableSession, Inv, Found;
    }
  }
}
