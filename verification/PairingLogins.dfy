/** Where auth sessions come from: behind each lies a verified login over a challenge of its own, which it used up. */
module PairingLogins {
  import opened Helpers
  import opened PairingState
  import opened PairingInvariant
  import opened PairingSteps
  import opened PairingRuns
  import opened PairingOutcomes

  // ---------- One step ----------

  /** The step hands out challenge c, for the entity and key the request named. */
  predicate Issues(x: Step, c: Challenge) {
    && x.StepChallenge? && x.challengeId == c.challengeId && x.nonce == c.nonce
    && Names(x.ask.entityType, c.entityType) && TrimSpace(x.ask.entityId) == c.entityId && x.ask.publicKey == Some(c.publicKey)
    && c.createdAt == x.now && c.expiresAt == x.now + 300_000
  }

  /** The challenge a login names. */
  function Named(x: Step): string {
    if x.StepLogin? then TrimSpace(x.req.challengeId) else ""
  }

  /** From store s to store s1 the step opens session a: a login whose signature verifies over a challenge stored then,
      unexpired and made for the entity and key of the session, and gone afterwards. */
  predicate Opens(s: State, x: Step, s1: State, a: AuthSession) {
    && x.StepLogin? && x.req.signature == Some(true) && x.token == a.token && x.sessionId == a.sessionId && x.now == a.createdAt
    && Named(x) in s.challenges && Named(x) !in s1.challenges
    && var c := s.challenges[Named(x)];
       c.expiresAt > x.now && c.entityType == a.entityType && c.entityId == a.entityId && c.publicKey == a.publicKey
  }

  /** The same session, used again since. */
  predicate SameSession(a: AuthSession, b: AuthSession) {
    b == a.(updatedAt := b.updatedAt, expiresAt := b.expiresAt)
  }

  /** What one step may do to challenges and auth sessions. */
  ghost predicate LoginsStep(s: State, x: Step, s1: State) {
    && (forall c :: c in s1.challenges && !(c in s.challenges && s1.challenges[c] == s.challenges[c]) ==>
          s1.challenges[c].challengeId == c && Issues(x, s1.challenges[c]))
    && (forall t :: t in s1.authSessions && !(t in s.authSessions && SameSession(s.authSessions[t], s1.authSessions[t])) ==>
          s1.authSessions[t].token == t && Opens(s, x, s1, s1.authSessions[t]))
  }

  lemma FewerLogins(s: State, x: Step, s1: State)
    requires forall c :: c in s1.challenges ==> c in s.challenges && s1.challenges[c] == s.challenges[c]
    requires forall t :: t in s1.authSessions ==> t in s.authSessions && s1.authSessions[t] == s.authSessions[t]
    ensures LoginsStep(s, x, s1)
  {
    hide Opens, Issues;
  }

  lemma ChallengeLogins(s: State, x: Step)
    requires x.StepChallenge?
    ensures LoginsStep(s, x, Next(s, x))
  {
    hide Prune, TrimSpace, CreateChallenge, Opens;
    ChallengeExactly(s, x.now, x.ask, x.challengeId, x.nonce);
    PrunedLogins(s, x.now);
  }

  lemma LoginLogins(s: State, x: Step)
    requires x.StepLogin?
    ensures LoginsStep(s, x, Next(s, x))
  {
    hide Prune, TrimSpace, Login, Issues, Names;
    LoginExactly(s, x.now, x.req, x.sessionId, x.token);
    LoginRefused(s, x.now, x.req, x.sessionId, x.token);
    PrunedLogins(s, x.now);
  }

  lemma AuthenticateLogins(s: State, x: Step)
    requires Inv(s) && x.StepAuthenticate?
    ensures LoginsStep(s, x, Next(s, x))
  {
    hide Inv, Prune, TrimSpace, Authenticate, Issues, Opens;
    AuthenticateExactly(s, x.now, x.token);
    PrunedLogins(s, x.now);
  }

  lemma PresenceLogins(p: State, now: int, who: Principal, announce: bool, platform: string, appVersion: string)
    ensures var s1 := PresenceOn(p, now, who, announce, platform, appVersion).0; s1.challenges == p.challenges && s1.authSessions == p.authSessions
  {
    hide TrimSpace, SeenDesktop, SeenMobile;
    match who.entityType
    case DesktopType => assert PresenceOn(p, now, who, announce, platform, appVersion).0.challenges == p.challenges;
    case MobileType => assert PresenceOn(p, now, who, announce, platform, appVersion).0.challenges == p.challenges;
  }

  lemma ClaimLogins(p: State, now: int, mobileId: string, token: string, name: string, found: Option<Binding>, freshId: string)
    ensures var s1 := ClaimOn(p, now, mobileId, token, name, found, freshId).0; s1.challenges == p.challenges && s1.authSessions == p.authSessions
  {
    LookupLogins(p, now, mobileId, token, name);
    hide ClaimLookup, ClaimableSession, ClaimBinding, ClaimingMobile;
  }

  lemma LookupLogins(p: State, now: int, mobileId: string, token: string, name: string)
    ensures var s1 := ClaimLookup(p, now, mobileId, token, name); s1.challenges == p.challenges && s1.authSessions == p.authSessions
  {
    hide ClaimableSession, ClaimingMobile;
    var r, s1 := ClaimableSession(p, now, mobileId, token), ClaimLookup(p, now, mobileId, token, name);
    if r.Ok? { assert s1 == p.(mobiles := s1.mobiles); }
    else if r.error == ExpiredError { assert s1 == p.(pairSessions := s1.pairSessions, claimIndex := s1.claimIndex); }
    else { assert s1 == p; }
  }

  lemma CreateLogins(p: State, now: int, who: Principal, ttl: int, id: string, token: string, nonce: string)
    ensures var s1 := CreateOn(p, now, who, ttl, id, token, nonce).0; s1.challenges == p.challenges && s1.authSessions == p.authSessions
  {
    hide PairTtl;
  }

  lemma PairLogins(p: State, now: int, who: Principal, id: string)
    ensures var s1 := DeleteOn(p, who, id).0; s1.challenges == p.challenges && s1.authSessions == p.authSessions
    ensures var s1 := ApproveOn(p, now, who, id).0; s1.challenges == p.challenges && s1.authSessions == p.authSessions
  {
  }

  lemma OtherLogins(p: State, x: Step)
    requires Prunes(x) && !x.StepChallenge? && !x.StepLogin? && !x.StepAuthenticate?
    ensures After(p, x).challenges == p.challenges && After(p, x).authSessions == p.authSessions
  {
    hide TrimSpace, PresenceOn, CreateOn, DeleteOn, ClaimOn, ApproveOn;
    match x
    case StepPresence(now, who, announce, platform, version) => PresenceLogins(p, now, who, announce, platform, version);
    case StepCreate(now, who, ttl, id, token, nonce) => CreateLogins(p, now, who, ttl, id, token, nonce);
    case StepDelete(now, who, rawId) => PairLogins(p, now, who, TrimSpace(rawId));
    case StepClaim(now, who, rawToken, name, found, freshId) => ClaimLogins(p, now, who.entityId, TrimSpace(rawToken), name, found, freshId);
    case StepApprove(now, who, rawId) => PairLogins(p, now, who, TrimSpace(rawId));
    case StepPrune(_) =>
  }

  lemma NextLogins(s: State, x: Step)
    requires Inv(s)
    ensures LoginsStep(s, x, Next(s, x))
  {
    if x.StepChallenge? { ChallengeLogins(s, x); }
    else if x.StepLogin? { LoginLogins(s, x); }
    else if x.StepAuthenticate? { AuthenticateLogins(s, x); }
    else if x.StepQueue? { FewerLogins(s, x, Next(s, x)); hide LoginsStep, Inv; }
    else {
      NextAfterPrune(s, x);
      hide Next, After, Prune, LoginsStep, Inv, Refused;
      if Prunes(x) {
        OtherLogins(Prune(s, x.now), x);
        PrunedLogins(s, x.now);
      }
      FewerLogins(s, x, Next(s, x));
    }
    hide *;
  }

  lemma NextChallenge(s: State, x: Step, c: string)
    requires Inv(s) && Enabled(s, x)
    ensures c in Next(s, x).challenges ==>
      (c in s.challenges && Next(s, x).challenges[c] == s.challenges[c])
      || (c !in s.issued && c in Next(s, x).issued && Next(s, x).challenges[c].challengeId == c && Issues(x, Next(s, x).challenges[c]))
  {
    NextLogins(s, x);
    if x.StepChallenge? { ChallengeDraws(s, x); }
    hide Inv, Next, Opens, SameSession, TrimSpace, Prune;
  }

  lemma ChallengeDraws(s: State, x: Step)
    requires x.StepChallenge?
    ensures Next(s, x) == s || x.challengeId in Next(s, x).issued
  {
    hide Prune, TrimSpace;
  }

  lemma NextSession(s: State, x: Step, t: string)
    requires Inv(s)
    ensures t in Next(s, x).authSessions ==>
      (t in s.authSessions && SameSession(s.authSessions[t], Next(s, x).authSessions[t]))
      || (Next(s, x).authSessions[t].token == t && Opens(s, x, Next(s, x), Next(s, x).authSessions[t]))
  {
    NextLogins(s, x);
    hide Inv, Next, Opens, SameSession, Issues;
  }

  // ---------- Whole runs ----------

  lemma NoneYet(log: seq<Act>, j: nat)
    requires j <= |log|
    ensures j == 0 ==> StoreAt(log, j).challenges == map[] && StoreAt(log, j).authSessions == map[]
  {
  }

  /** Every stored challenge was handed out by a challenge step, and no restart came in between. */
  lemma {:induction false} ChallengeIssued(log: seq<Act>, j: nat, c: string) returns (q: nat)
    requires ValidRun(log) && j <= |log| && c in StoreAt(log, j).challenges
    ensures q < j && log[q].Operate? && StoreAt(log, j).challenges[c].challengeId == c && Issues(log[q].step, StoreAt(log, j).challenges[c])
    ensures c !in StoreAt(log, q).issued && c in StoreAt(log, j).issued && forall r :: q < r < j ==> !log[r].Reboot?
  {
    hide *;
    NoneYet(log, j);
    q := j - 1;
    if log[q].Reboot? {
      RebootSalvages(log, q);
      SalvagedFacts(Base(log, q), StoreAt(log, j), c, DesktopType, "");
    } else {
      ActAt(log, q);
      var i := q;
      if log[i].Write? {
        q := ChallengeIssued(log, i, c);
      } else {
        NextChallenge(StoreAt(log, i), log[i].step, c);
        NextIssued(StoreAt(log, i), log[i].step);
        if c in StoreAt(log, i).challenges && StoreAt(log, j).challenges[c] == StoreAt(log, i).challenges[c] {
          q := ChallengeIssued(log, i, c);
        }
      }
    }
  }

  /** A challenge that was handed out and is gone does not come back. */
  lemma {:induction false} SpentForever(log: seq<Act>, i: nat, j: nat, c: string)
    requires ValidRun(log) && i <= j <= |log| && c in StoreAt(log, i).issued && c !in StoreAt(log, i).challenges
    ensures c !in StoreAt(log, j).challenges
    decreases j
  {
    hide *;
    if i < j {
      var k := j - 1;
      SpentForever(log, i, k, c);
      IssuedForever(log, i, k);
      if log[k].Reboot? {
        RebootSalvages(log, k);
        SalvagedFacts(Base(log, k), StoreAt(log, j), c, DesktopType, "");
      } else {
        ActAt(log, k);
        if log[k].Operate? { NextChallenge(StoreAt(log, k), log[k].step, c); }
      }
    }
  }

  /** At position p of the run a login opens this session. */
  ghost predicate OpenedAt(log: seq<Act>, p: nat, a: AuthSession) {
    p < |log| && log[p].Operate? && Opens(StoreAt(log, p), log[p].step, StoreAt(log, p + 1), a)
  }

  lemma OpenedSame(log: seq<Act>, p: nat, a: AuthSession, b: AuthSession)
    requires SameSession(a, b)
    ensures OpenedAt(log, p, a) ==> OpenedAt(log, p, b)
    ensures b.token == a.token
  {
    hide StoreAt, TrimSpace;
  }

  lemma {:induction false} SessionOpened(log: seq<Act>, j: nat, t: string) returns (p: nat)
    requires ValidRun(log) && j <= |log| && t in StoreAt(log, j).authSessions
    ensures p < j && OpenedAt(log, p, StoreAt(log, j).authSessions[t]) && StoreAt(log, j).authSessions[t].token == t
    decreases j
  {
    hide *;
    NoneYet(log, j);
    p := j - 1;
    var i := p;
    if log[i].Reboot? {
      RebootSalvages(log, i);
      SalvagedFacts(Base(log, i), StoreAt(log, j), t, DesktopType, "");
      BaseCases(log, i);
      p := SessionOpened(log, Source(log, i).value, t);
    } else {
      ActAt(log, i);
      if log[i].Write? {
        p := SessionOpened(log, i, t);
      } else {
        NextSession(StoreAt(log, i), log[i].step, t);
        OpenedIs(log, i, StoreAt(log, j).authSessions[t]);
        if !OpenedAt(log, i, StoreAt(log, j).authSessions[t]) || StoreAt(log, j).authSessions[t].token != t {
          p := SessionOpened(log, i, t);
          OpenedSame(log, p, StoreAt(log, i).authSessions[t], StoreAt(log, j).authSessions[t]);
        }
      }
    }
  }

  lemma OpenedIs(log: seq<Act>, p: nat, a: AuthSession)
    requires p < |log| && log[p].Operate?
    ensures OpenedAt(log, p, a) <==> Opens(StoreAt(log, p), log[p].step, StoreAt(log, p + 1), a)
  {
    hide StoreAt, Opens;
  }

  lemma OpensFacts(s: State, x: Step, s1: State, a: AuthSession)
    requires Opens(s, x, s1, a)
    ensures Named(x) in s.challenges && Named(x) !in s1.challenges && s.challenges[Named(x)].expiresAt > x.now
  {
    hide TrimSpace;
  }

  lemma OpenedOperates(log: seq<Act>, p: nat, a: AuthSession)
    requires OpenedAt(log, p, a)
    ensures p < |log| && log[p].Operate? && Opens(StoreAt(log, p), log[p].step, StoreAt(log, p + 1), a)
  {
    hide StoreAt, Opens;
  }

  lemma IssuesFacts(x: Step, c: Challenge)
    requires Issues(x, c)
    ensures c.expiresAt == x.now + 300_000
  {
    hide TrimSpace;
  }

  /** Every auth session was opened by a login whose signature verified. Its challenge was handed out less than five minutes
      before, by an earlier step of the same process to the same entity and key, and is never stored again. */
  lemma OpenedByVerifiedLogin(log: seq<Act>, j: nat, t: string) returns (q: nat, p: nat)
    requires ValidRun(log) && j <= |log| && t in StoreAt(log, j).authSessions
    ensures q < p < j && log[q].Operate? && OpenedAt(log, p, StoreAt(log, j).authSessions[t]) && StoreAt(log, j).authSessions[t].token == t
    ensures log[p].Operate? && Named(log[p].step) in StoreAt(log, p).challenges && Issues(log[q].step, StoreAt(log, p).challenges[Named(log[p].step)])
    ensures log[p].step.now < log[q].step.now + 300_000 && forall r :: q < r < p ==> !log[r].Reboot?
    ensures forall m :: p < m <= |log| ==> Named(log[p].step) !in StoreAt(log, m).challenges
  {
    hide *;
    p := SessionOpened(log, j, t);
    var a := StoreAt(log, j).authSessions[t];
    OpenedOperates(log, p, a);
    OpensFacts(StoreAt(log, p), log[p].step, StoreAt(log, p + 1), a);
    q := ChallengeIssued(log, p, Named(log[p].step));
    IssuesFacts(log[q].step, StoreAt(log, p).challenges[Named(log[p].step)]);
    IssuedForever(log, p, p + 1);
    forall m | p < m <= |log| ensures Named(log[p].step) !in StoreAt(log, m).challenges { SpentForever(log, p + 1, m, Named(log[p].step)); }
  }

  /** Two logins that open sessions never use the same challenge. */
  lemma ChallengeUsedOnce(log: seq<Act>, i: nat, j: nat, a: AuthSession, b: AuthSession)
    requires ValidRun(log) && i < j && OpenedAt(log, i, a) && OpenedAt(log, j, b)
    ensures i < |log| && j < |log| && log[i].Operate? && log[j].Operate? && Named(log[i].step) != Named(log[j].step)
  {
    hide *;
    OpenedOperates(log, i, a);
    OpenedOperates(log, j, b);
    OpensFacts(StoreAt(log, i), log[i].step, StoreAt(log, i + 1), a);
    OpensFacts(StoreAt(log, j), log[j].step, StoreAt(log, j + 1), b);
    var q := ChallengeIssued(log, i, Named(log[i].step));
    IssuedForever(log, i, i + 1);
    SpentForever(log, i + 1, j, Named(log[i].step));
  }

  /** So whoever is let in with a token has once logged in for it. */
  lemma AuthenticatedLoggedIn(log: seq<Act>, j: nat, now: int, token: string) returns (p: nat)
    requires ValidRun(log) && j <= |log| && Authenticate(StoreAt(log, j), now, token).1.Ok?
    ensures p < j && OpenedAt(log, p, Authenticate(StoreAt(log, j), now, token).1.value)
    ensures Authenticate(StoreAt(log, j), now, token).1.value.token == TrimSpace(token)
  {
    hide *;
    Prefix(log, j);
    RunInv(log[..j]);
    StoreIs(log, j);
    AuthenticateExactly(StoreAt(log, j), now, token);
    PrunedLogins(StoreAt(log, j), now);
    p := SessionOpened(log, j, TrimSpace(token));
    RenewedSame(StoreAt(log, j).authSessions[TrimSpace(token)], now);
    OpenedSame(log, p, StoreAt(log, j).authSessions[TrimSpace(token)], Authenticate(StoreAt(log, j), now, token).1.value);
  }

  lemma RenewedSame(a: AuthSession, now: int)
    ensures SameSession(a, a.(updatedAt := now, expiresAt := now + 900_000))
  {
  }
}
