/** What single operations leave alone. */
module PairingFrames {
  import opened Helpers
  import opened PairingState

  lemma PresenceFrame(p: State, now: int, who: Principal, announce: bool, platform: string, appVersion: string)
    ensures var s1 := PresenceOn(p, now, who, announce, platform, appVersion).0;
      s1.pairSessions == p.pairSessions && s1.bindings == p.bindings && s1.issued == p.issued
  {
    hide TrimSpace, SeenDesktop, SeenMobile;
    match who.entityType
    case DesktopType => assert PresenceOn(p, now, who, announce, platform, appVersion).0.bindings == p.bindings;
    case MobileType => assert PresenceOn(p, now, who, announce, platform, appVersion).0.bindings == p.bindings;
  }

  lemma AuthenticateFrame(p: State, now: int, t: string)
    ensures var s1 := AuthenticateOn(p, now, t).0;
      s1.pairSessions == p.pairSessions && s1.bindings == p.bindings && s1.issued == p.issued
  {
    if t in p.authSessions && p.authSessions[t].expiresAt > now {
      var a := p.authSessions[t].(updatedAt := now, expiresAt := now + AUTH_TTL);
      RestoredFrame(p.(authSessions := p.authSessions[t := a]), now, a);
      hide Restored;
    }
  }

  lemma RestoredFrame(p: State, now: int, a: AuthSession)
    ensures Restored(p, now, a).pairSessions == p.pairSessions && Restored(p, now, a).bindings == p.bindings && Restored(p, now, a).issued == p.issued
  {
    match a.entityType
    case DesktopType => assert Restored(p, now, a).pairSessions == p.pairSessions;
    case MobileType => assert Restored(p, now, a).pairSessions == p.pairSessions;
  }

  lemma LookupBindings(s: State, now: int, mobileId: string, token: string, name: string)
    ensures ClaimLookup(s, now, mobileId, token, name).bindings == s.bindings
  {
    hide ClaimableSession;
  }

  lemma FailedClaimBindings(s: State, now: int, mobileId: string, token: string, name: string, found: Option<Binding>, freshId: string)
    ensures var (s1, r) := ClaimOn(s, now, mobileId, token, name, found, freshId); r.Err? ==> s1.bindings == s.bindings
  {
    LookupBindings(s, now, mobileId, token, name);
    hide ClaimableSession, ClaimLookup;
  }

  lemma FailedApproveBindings(s: State, now: int, who: Principal, id: string)
    ensures var (s1, r) := ApproveOn(s, now, who, id); r.Err? ==> s1.bindings == s.bindings
  {
  }

  // ---------- No id is ever taken back ----------

  predicate SameEntities(s: State, s1: State) {
    s1.desktops == s.desktops && s1.mobiles == s.mobiles
  }

  lemma ChallengeFrame(s: State, now: int, t: EntityType, id: string, key: string, challengeId: string, nonce: string)
    ensures s.issued <= ChallengeOn(s, now, t, id, key, challengeId, nonce).0.issued
    ensures SameEntities(s, ChallengeOn(s, now, t, id, key, challengeId, nonce).0)
    ensures var s1 := ChallengeOn(s, now, t, id, key, challengeId, nonce).0; s1.pairSessions == s.pairSessions && s1.bindings == s.bindings
  {
  }

  lemma CreateFrame(s: State, now: int, who: Principal, ttl: int, id: string, token: string, nonce: string)
    ensures s.issued <= CreateOn(s, now, who, ttl, id, token, nonce).0.issued
    ensures SameEntities(s, CreateOn(s, now, who, ttl, id, token, nonce).0)
  {
  }

  lemma DeleteFrame(s: State, who: Principal, id: string)
    ensures s.issued <= DeleteOn(s, who, id).0.issued
    ensures SameEntities(s, DeleteOn(s, who, id).0)
  {
  }

  lemma ClaimIssued(s: State, now: int, mobileId: string, token: string, name: string, found: Option<Binding>, freshId: string)
    ensures s.issued <= ClaimOn(s, now, mobileId, token, name, found, freshId).0.issued
  {
    hide ClaimableSession, ClaimBinding, ClaimingMobile;
  }

  lemma ApproveFrame(s: State, now: int, who: Principal, id: string)
    ensures s.issued <= ApproveOn(s, now, who, id).0.issued
    ensures SameEntities(s, ApproveOn(s, now, who, id).0)
  {
  }
}
