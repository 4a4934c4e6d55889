/** The public key of an entity: fixed while the entity is stored, and free again only once it has lapsed. */
module PairingKeys {
  import opened Helpers
  import opened PairingState
  import opened PairingInvariant
  import opened PairingSteps
  import opened PairingRuns
  import opened PairingFrames

  /** The only step that may store a key where none is stored. */
  predicate LogsIn(x: Step, t: EntityType, id: string) {
    x.StepLogin? && ReadLogin(x.req).Ok? && ReadLogin(x.req).value.who.entityType == t && ReadLogin(x.req).value.who.entityId == id
  }

  /** A step after its prune: a stored key stays, and none appears but by a login. */
  ghost predicate KeyStep(p: State, x: Step, s1: State, t: EntityType, id: string) {
    KeyOf(s1, t, id) == KeyOf(p, t, id) || (KeyOf(p, t, id) == None && LogsIn(x, t, id))
  }

  lemma SameKey(p: State, s1: State, t: EntityType, id: string)
    requires SameEntities(p, s1)
    ensures KeyOf(s1, t, id) == KeyOf(p, t, id)
  {
  }

  lemma PresenceKey(p: State, now: int, who: Principal, announce: bool, platform: string, appVersion: string, t: EntityType, id: string)
    requires KeysMatch(p.desktops, p.mobiles)
    ensures KeyOf(PresenceOn(p, now, who, announce, platform, appVersion).0, t, id) == KeyOf(p, t, id)
  {
    hide TrimSpace;
    match who.entityType
    case DesktopType =>
      if who.entityId in p.desktops {
        var d := SeenDesktop(p.desktops[who.entityId], now, announce, TrimSpace(platform), TrimSpace(appVersion));
        assert d.deviceId == who.entityId && d.publicKey == p.desktops[who.entityId].publicKey;
        hide SeenDesktop, SeenMobile, KeysMatch;
      }
    case MobileType =>
      if who.entityId in p.mobiles {
        var m := SeenMobile(p.mobiles[who.entityId], now, TrimSpace(platform), TrimSpace(appVersion));
        assert m.mobileId == who.entityId && m.publicKey == p.mobiles[who.entityId].publicKey;
        hide SeenDesktop, SeenMobile, KeysMatch;
      }
  }

  lemma ClaimKey(p: State, now: int, mobileId: string, token: string, name: string, found: Option<Binding>, freshId: string, t: EntityType, id: string)
    requires KeysMatch(p.desktops, p.mobiles)
    ensures KeyOf(ClaimOn(p, now, mobileId, token, name, found, freshId).0, t, id) == KeyOf(p, t, id)
  {
    LookupKey(p, now, mobileId, token, name, t, id);
    hide KeysMatch, ClaimLookup, ClaimableSession, ClaimBinding;
    match t case DesktopType => case MobileType =>
  }

  lemma LookupKey(p: State, now: int, mobileId: string, token: string, name: string, t: EntityType, id: string)
    requires KeysMatch(p.desktops, p.mobiles)
    ensures KeyOf(ClaimLookup(p, now, mobileId, token, name), t, id) == KeyOf(p, t, id)
  {
    assert ClaimableSession(p, now, mobileId, token).Ok? ==> mobileId in p.mobiles && p.mobiles[mobileId].mobileId == mobileId;
    hide KeysMatch, ClaimableSession;
    match t case DesktopType => case MobileType =>
  }

  lemma LoginKey(p: State, x: Step, t: EntityType, id: string)
    requires x.StepLogin? && ReadLogin(x.req).Ok?
    ensures KeyStep(p, x, LogOn(p, x.now, x.req, x.sessionId, x.token).0, t, id)
  {
    hide LogOn, ReadLogin, KeyOf, WithEntity, SameEntities;
    LoginEntities(p, x);
    var (s1, r) := LogOn(p, x.now, x.req, x.sessionId, x.token);
    var who := ReadLogin(x.req).value.who;
    if r.Ok? {
      WithEntityKey(p, x.now, who.entityType, who.entityId, who.publicKey, t, id);
      SameKey(WithEntity(p, x.now, who.entityType, who.entityId, who.publicKey), s1, t, id);
    } else {
      SameKey(p, s1, t, id);
    }
  }

  lemma LoginEntities(p: State, x: Step)
    requires x.StepLogin? && ReadLogin(x.req).Ok?
    ensures var (s1, r) := LogOn(p, x.now, x.req, x.sessionId, x.token); var who := ReadLogin(x.req).value.who;
      SameEntities(if r.Ok? then WithEntity(p, x.now, who.entityType, who.entityId, who.publicKey) else p, s1)
  {
    var a := ReadLogin(x.req).value;
    hide LoginOn, WithEntity, KeyOf, ReadLogin;
    LoginShape(p, x.now, a.who.entityType, a.who.entityId, a.challengeId, a.who.publicKey, a.verified, x.sessionId, x.token);
  }

  lemma WithEntityKey(p: State, now: int, t0: EntityType, id0: string, key: string, t: EntityType, id: string)
    ensures KeyOf(WithEntity(p, now, t0, id0, key), t, id) ==
      if t == t0 && id == id0 && KeyOf(p, t, id) == None then Some(key) else KeyOf(p, t, id)
  {
    match t0 case DesktopType => case MobileType =>
  }

  lemma AfterKey(p: State, x: Step, t: EntityType, id: string)
    requires KeysMatch(p.desktops, p.mobiles) && Prunes(x) && !x.StepAuthenticate?
    ensures KeyStep(p, x, After(p, x), t, id)
  {
    hide TrimSpace, ReadClaimant, ReadLogin, ChallengeOn, LogOn, PresenceOn, CreateOn, DeleteOn, ClaimOn, ApproveOn, KeysMatch, SameEntities, KeyOf;
    match x
    case StepChallenge(now, ask, challengeId, nonce) =>
      var c := Asker(ask);
      ChallengeFrame(p, now, c.entityType, c.entityId, c.publicKey, challengeId, nonce);
      SameKey(p, After(p, x), t, id);
    case StepLogin(_, _, _, _) => LoginKey(p, x, t, id);
    case StepPresence(now, who, announce, platform, version) => PresenceKey(p, now, who, announce, platform, version, t, id);
    case StepCreate(now, who, ttl, session, token, nonce) =>
      CreateFrame(p, now, who, ttl, session, token, nonce);
      SameKey(p, After(p, x), t, id);
    case StepDelete(now, who, rawId) =>
      DeleteFrame(p, who, TrimSpace(rawId));
      SameKey(p, After(p, x), t, id);
    case StepClaim(now, who, rawToken, name, found, freshId) => ClaimKey(p, now, who.entityId, TrimSpace(rawToken), name, found, freshId, t, id);
    case StepApprove(now, who, rawId) =>
      ApproveFrame(p, now, who, TrimSpace(rawId));
      SameKey(p, After(p, x), t, id);
    case StepPrune(_) => SameKey(p, p, t, id);
  }

  lemma AuthenticateKey(s: State, now: int, token: string, t: EntityType, id: string)
    requires Inv(s) && TrimSpace(token) != ""
    ensures KeyOf(AuthenticateOn(Prune(s, now), now, TrimSpace(token)).0, t, id) == KeyOf(Prune(s, now), t, id)
  {
    AuthenticateFindsEntity(s, now, token);
    hide Inv, Prune, TrimSpace, AuthenticateOn;
    match t case DesktopType => case MobileType =>
  }

  /** In one operation a stored public key stays what it was; only a login of an entity that is not stored, or has lapsed,
      leaves another. */
  lemma KeyConstant(s: State, x: Step, t: EntityType, id: string)
    requires Inv(s) && Enabled(s, x)
    ensures KeyOf(Next(s, x), t, id) in {None, KeyOf(s, t, id)} || (LogsIn(x, t, id) && !Alive(s, t, id, x.now))
  {
    hide *;
    if x.StepQueue? {
      QueueEntities(s, x);
      SameKey(s, Next(s, x), t, id);
    } else {
      NextAfterPrune(s, x);
      if Prunes(x) { PrunedKeyConstant(s, x, t, id); } else { NotPruning(x); }
    }
  }

  lemma NotPruning(x: Step)
    requires !Prunes(x) && !x.StepQueue?
    ensures Refused(x)
  {
    hide Refused;
  }

  lemma PrunedKeyConstant(s: State, x: Step, t: EntityType, id: string)
    requires Inv(s) && Prunes(x)
    ensures KeyOf(PairingSteps.After(Prune(s, x.now), x), t, id) in {None, KeyOf(s, t, id)} || (LogsIn(x, t, id) && !Alive(s, t, id, x.now))
  {
    assert x.StepAuthenticate? ==> TrimSpace(x.token) != "" by { hide TrimSpace, Inv; }
    assert Alive(s, t, id, x.now) ==> KeyOf(s, t, id) != None by { hide Inv; }
    hide Inv, PairingSteps.After, Prune, KeyOf, Alive, KeysMatch, TrimSpace, LogsIn;
    PrunedKey(s, x.now, t, id);
    PruneKeepsKeys(s, x.now);
    if x.StepAuthenticate? {
      AuthenticateAfter(Prune(s, x.now), x);
      AuthenticateKey(s, x.now, x.token, t, id);
    } else {
      AfterKey(Prune(s, x.now), x, t, id);
    }
  }

  /** At position p this entity logs in when it is not stored or has lapsed. */
  ghost predicate LogsInAfresh(log: seq<Act>, p: nat, t: EntityType, id: string) {
    p < |log| && log[p].Operate? && LogsIn(log[p].step, t, id) && !Alive(StoreAt(log, p), t, id, log[p].step.now)
  }

  /** Between two stores of which the later follows the earlier, a key changes only by such a login on the way. */
  lemma {:induction false} KeyLife(log: seq<Act>, i: nat, j: nat, t: EntityType, id: string)
    requires i <= |log| && j <= |log| && ValidRun(log) && Follows(log, i, j)
    ensures KeyOf(StoreAt(log, j), t, id) in {None, KeyOf(StoreAt(log, i), t, id)}
      || exists p :: i <= p < j && LogsInAfresh(log, p, t, id)
    decreases j
  {
    hide *;
    FollowsUpTo(log, i, j);
    if i < j {
      var c := j - 1;
      FollowsCases(log, i, j);
      if log[c].Reboot? {
        RebootSalvages(log, c);
        SalvagedFacts(Base(log, c), StoreAt(log, j), "", t, id);
        KeyLife(log, i, Source(log, c).value, t, id);
      } else {
        ActAt(log, c);
        KeyLife(log, i, c, t, id);
        if log[c].Operate? {
          KeyConstant(StoreAt(log, c), log[c].step, t, id);
          LogsInAt(log, c, t, id);
        }
      }
    }
  }

  lemma LogsInAt(log: seq<Act>, p: nat, t: EntityType, id: string)
    requires p < |log| && log[p].Operate?
    ensures LogsIn(log[p].step, t, id) && !Alive(StoreAt(log, p), t, id, log[p].step.now) ==> LogsInAfresh(log, p, t, id)
  {
    hide StoreAt, LogsIn, Alive;
  }

  lemma AuthenticateAfter(p: State, x: Step)
    requires x.StepAuthenticate? && !Refused(x)
    ensures After(p, x) == AuthenticateOn(p, x.now, TrimSpace(x.token)).0
  {
    hide AuthenticateOn, TrimSpace;
  }

  lemma QueueEntities(s: State, x: Step)
    requires x.StepQueue?
    ensures SameEntities(s, Next(s, x))
  {
  }
}
