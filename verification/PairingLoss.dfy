/** One run, worked out: a phone and a desktop pair, the approval is not written in time, and a restart loses it. */
module PairingLoss {
  import opened Helpers
  import opened PairingState
  import opened PairingInvariant
  import opened PairingRestart
  import opened PairingSteps
  import opened PairingRuns
  import opened PairingHistory

  const DESK := Principal(DesktopType, "d")
  const PHONE := Principal(MobileType, "m")

  const X1 := StepChallenge(0, ChallengeRequest("desktop", "d", Some("kd")), "c1", "n1")
  const X2 := StepLogin(0, LoginRequest("desktop", "d", "c1", Some("kd"), Some(true)), "s1", "x1")
  const X3 := StepChallenge(0, ChallengeRequest("mobile", "m", Some("km")), "c2", "n2")
  const X4 := StepLogin(0, LoginRequest("mobile", "m", "c2", Some("km"), Some(true)), "s2", "x2")
  const X5 := StepCreate(0, DESK, 0, "p", "t", "n3")
  const X6 := StepClaim(0, PHONE, "t", "", None, "b")
  const X7 := StepApprove(0, DESK, "b")

  const LOST := [Operate(X1), Operate(X2), Operate(X3), Operate(X4), Operate(X5), Operate(X6), Write(0), Operate(X7),
                 Reboot(1, true, {}, map["t" := "p"])]

  // ---------- The stores on the way ----------

  const D := Desktop("d", "kd", "", "", 0, 0, 0, "offline")
  const M := Mobile("m", "", "km", "", "", 0, 0, 0, "online")
  const A1 := AuthSession("s1", "x1", DesktopType, "d", "kd", 0, 0, AUTH_TTL)
  const A2 := AuthSession("s2", "x2", MobileType, "m", "km", 0, 0, AUTH_TTL)
  const P := PairSession("p", "d", "kd", "t", "n3", Pending, 0, 0, 180000, None, None)
  const P1 := P.(status := Claimed, claimedMobileId := Some("m"), bindingId := Some("b"))
  const B := Binding("b", "p", "d", "kd", "m", "", "km", PendingTrust, 0, 0, None)
  const B1 := B.(trust := ActiveTrust, approvedAt := Some(0))

  const S1 := EMPTY.(challenges := map["c1" := Challenge("c1", DesktopType, "d", "kd", "n1", 0, CHALLENGE_TTL)], issued := {"c1", "n1"})
  const S2 := EMPTY.(desktops := map["d" := D], authSessions := map["x1" := A1], issued := S1.issued + {"s1", "x1"})
  const S3 := S2.(challenges := map["c2" := Challenge("c2", MobileType, "m", "km", "n2", 0, CHALLENGE_TTL)], issued := S2.issued + {"c2", "n2"})
  const S4 := S2.(mobiles := map["m" := M], authSessions := map["x1" := A1, "x2" := A2], issued := S3.issued + {"s2", "x2"})
  const S5 := S4.(pairSessions := map["p" := P], claimIndex := map["t" := "p"], issued := S4.issued + {"p", "t", "n3"})
  const S6 := S5.(pairSessions := map["p" := P1], bindings := map["b" := B], issued := S5.issued + {"b"})
  const S7 := S6.(pairSessions := map["p" := P1.(status := Approved)], claimIndex := map[], bindings := map["b" := B1])

  lemma Trims()
    ensures TrimSpace("d") == "d" && TrimSpace("m") == "m" && TrimSpace("t") == "t" && TrimSpace("b") == "b"
    ensures TrimSpace("c1") == "c1" && TrimSpace("c2") == "c2" && TrimSpace("desktop") == "desktop" && TrimSpace("mobile") == "mobile"
  {
  }

  /** A prune of a store in which nothing has run out changes nothing. */
  lemma PruneIdle(s: State, now: int)
    requires forall k :: k in s.challenges ==> s.challenges[k].expiresAt > now
    requires forall k :: k in s.authSessions ==> s.authSessions[k].expiresAt > now
    requires forall k :: k in s.pairSessions ==> s.pairSessions[k].expiresAt > now
    requires forall k :: k in s.desktops ==> DesktopAlive(s.desktops[k], now)
    requires forall k :: k in s.mobiles ==> MobileAlive(s.mobiles[k], now)
    ensures Prune(s, now) == s
  {
    assert RemovedKeys(s.desktops, s.mobiles, now) == {} && LapsedTokens(s.pairSessions, now) == {};
    hide RemovedKeys, LapsedTokens, EntityKey;
    assert KeepDesktops(s.desktops, now) == s.desktops && KeepMobiles(s.mobiles, now) == s.mobiles;
    assert PrunePairs(s.pairSessions, now) == s.pairSessions && KeepChallenges(s.challenges, now) == s.challenges;
    assert PruneAuth(s.authSessions, {}, now) == s.authSessions;
    hide KeepDesktops, KeepMobiles, PrunePairs, KeepChallenges, PruneAuth;
  }

  lemma Idle12()
    ensures Prune(EMPTY, 0) == EMPTY && Prune(S1, 0) == S1
  {
    hide Prune;
    PruneIdle(EMPTY, 0);
    PruneIdle(S1, 0);
  }

  lemma Steps12()
    ensures Next(EMPTY, X1) == S1 && Next(S1, X2) == S2
  {
    Trims();
    Idle12();
    hide Prune, TrimSpace;
    assert ReadLogin(X2.req) == Ok(LoginArgs(Claimant(DesktopType, "d", "kd"), "c1", true));
    hide ReadLogin;
    assert S2.challenges == S1.challenges - {"c1"};
  }

  lemma Idle34()
    ensures Prune(S2, 0) == S2 && Prune(S3, 0) == S3
  {
    hide Prune;
    PruneIdle(S2, 0);
    PruneIdle(S3, 0);
  }

  lemma Steps34()
    ensures Next(S2, X3) == S3 && Next(S3, X4) == S4
  {
    Trims();
    Idle34();
    hide Prune, TrimSpace;
    assert ReadLogin(X4.req) == Ok(LoginArgs(Claimant(MobileType, "m", "km"), "c2", true));
    hide ReadLogin;
    assert S4.challenges == S3.challenges - {"c2"};
  }

  lemma Idle5()
    ensures Prune(S4, 0) == S4
  {
    hide Prune;
    PruneIdle(S4, 0);
  }

  lemma Step5()
    ensures Next(S4, X5) == S5 && Enabled(S4, X5)
  {
    Idle5();
    hide Prune;
  }

  lemma Idle6()
    ensures Prune(S5, 0) == S5
  {
    hide Prune;
    PruneIdle(S5, 0);
  }

  lemma Claimable6()
    ensures ClaimableSession(S5, 0, "m", "t") == Ok(P)
  {
  }

  lemma Claim6()
    ensures ClaimOn(S5, 0, "m", "t", "", None, "b").0 == S6 && ClaimableSession(S5, 0, "m", "t") == Ok(P)
  {
    Claimable6();
    hide ClaimableSession;
    var s1 := ClaimOn(S5, 0, "m", "t", "", None, "b").0;
    assert s1.bindings == map["b" := B] && s1.pairSessions == map["p" := P1];
  }

  lemma DirectClaim(s: State, now: int, who: Principal, token: string, found: Option<Binding>, id: string)
    requires who.entityType == MobileType && TrimSpace(token) == token != "" && Prune(s, now) == s
    ensures Next(s, StepClaim(now, who, token, "", found, id)) == ClaimOn(s, now, who.entityId, token, "", found, id).0
    ensures id !in s.issued && Answers(s, now, who.entityId, token, found) ==> Enabled(s, StepClaim(now, who, token, "", found, id))
  {
    hide TrimSpace, Prune, ClaimOn, Answers;
  }

  lemma Answers6()
    ensures "b" !in S5.issued && Answers(S5, 0, "m", "t", None)
  {
    hide ClaimableSession;
  }

  lemma Step6()
    ensures Next(S5, X6) == S6 && Enabled(S5, X6)
  {
    hide TrimSpace, Prune, ClaimOn, Next, Enabled, Answers, ClaimableSession, S5, S6;
    Trims();
    Idle6();
    Claim6();
    Answers6();
    DirectClaim(S5, 0, PHONE, "t", None, "b");
  }

  lemma Idle7()
    ensures Prune(S6, 0) == S6
  {
    hide Prune;
    PruneIdle(S6, 0);
  }

  lemma Approve7()
    ensures ApproveOn(S6, 0, DESK, "b").0.pairSessions == S7.pairSessions && ApproveOn(S6, 0, DESK, "b").0.claimIndex == S7.claimIndex
    ensures ApproveOn(S6, 0, DESK, "b").0.bindings == S7.bindings && ApproveOn(S6, 0, DESK, "b").1 == Ok(B1)
    ensures ApproveOn(S6, 0, DESK, "b").0 == S7
  {
    assert S6.claimIndex - {"t"} == map[];
    assert S6.bindings["b" := B1] == map["b" := B1];
    assert S6.pairSessions["p" := P1.(status := Approved)] == S7.pairSessions;
  }

  lemma Step7()
    ensures Next(S6, X7) == S7 && ApproveBinding(S6, 0, DESK, "b").1 == Ok(B1)
  {
    Trims();
    hide TrimSpace, Prune, ApproveOn;
    Idle7();
    Approve7();
  }

  // ---------- The run ----------

  lemma ActIs(j: nat, w: World)
    requires j < |LOST| && Run(LOST[..j]) == w
    ensures Run(LOST[..j + 1]) == Apply(w, LOST[j]) && StoreAt(LOST, j) == w.live
    ensures match LOST[j]
      case Operate(x) => Apply(w, LOST[j]) == World(Next(w.live, x), w.saved) && (Enabled(w.live, x) ==> CanApply(w, LOST[j]))
      case Write(now) => Apply(w, LOST[j]) == World(w.live, Some(Persist(w.live, now))) && CanApply(w, LOST[j])
      case Reboot(_, _, _, _) => true
  {
    StepAt(LOST, j);
    StoreIs(LOST, j);
    hide Run, Next, Enabled, Persist, Hydrate, Reindexed;
  }

  lemma NewWorld()
    ensures Run(LOST[..0]) == NEW_WORLD == World(EMPTY, None)
  {
  }

  ghost predicate CanAtPosition(j: nat) {
    j < |LOST| ==> CanApply(Run(LOST[..j]), LOST[j])
  }

  /** The acts up to the approval are possible, one after the other. */
  lemma FirstActs()
    ensures Run(LOST[..4]) == World(S4, None) && forall j: nat :: j < 4 ==> CanAtPosition(j)
  {
    hide *;
    LostIs();
    NewWorld();
    Steps12();
    Steps34();
    AlwaysEnabled();
    ActIs(0, World(EMPTY, None));
    ActIs(1, World(S1, None));
    ActIs(2, World(S2, None));
    ActIs(3, World(S3, None));
    PositionsAre();
  }

  lemma LostIs()
    ensures |LOST| == 9
    ensures LOST[0] == Operate(X1) && LOST[1] == Operate(X2) && LOST[2] == Operate(X3) && LOST[3] == Operate(X4)
    ensures LOST[4] == Operate(X5) && LOST[5] == Operate(X6) && LOST[6] == Write(0) && LOST[7] == Operate(X7)
    ensures LOST[8] == Reboot(1, true, {}, map["t" := "p"])
  {
  }

  lemma PositionsAre()
    ensures forall j: nat {:trigger CanAtPosition(j)} :: CanAtPosition(j) <==> (j < |LOST| ==> CanApply(Run(LOST[..j]), LOST[j]))
  {
    hide LOST, CanApply, Run;
  }

  lemma AlwaysEnabled()
    ensures Enabled(EMPTY, X1) && Enabled(S1, X2) && Enabled(S2, X3) && Enabled(S3, X4) && Enabled(S6, X7)
  {
  }

  lemma UpToApproval()
    ensures Run(LOST[..7]) == World(S6, Some(Persist(S6, 0))) && Run(LOST[..8]) == World(S7, Some(Persist(S6, 0)))
    ensures forall j: nat :: 4 <= j < 8 ==> CanAtPosition(j)
  {
    hide *;
    LostIs();
    PositionsAre();
    FirstActs();
    Step5();
    Step6();
    Step7();
    AlwaysEnabled();
    ActIs(4, World(S4, None));
    ActIs(5, World(S5, None));
    ActIs(6, World(S6, None));
    ActIs(7, World(S6, Some(Persist(S6, 0))));
  }

  lemma KeptDesktop()
    ensures KeepDesktops(S6.desktops, 0) == map["d" := D] && LeasedDesktops(map["d" := D], 1, {}) == map["d" := D]
  {
  }

  lemma KeptSession()
    ensures KeepPairs(S6.pairSessions, map["d" := D], 0) == S6.pairSessions == KeepPairs(S6.pairSessions, map["d" := D], 1)
    ensures Reindexed(S6.pairSessions, map["t" := "p"])
  {
  }

  /** What reading back leaves, from the filters alone. */
  lemma ReadsBack(s: State, d: map<string, Desktop>, ps: map<string, PairSession>, index: map<string, string>, issued: set<string>)
    requires KeepDesktops(s.desktops, 0) == d == LeasedDesktops(d, 1, {})
    requires KeepPairs(s.pairSessions, d, 0) == ps == KeepPairs(ps, d, 1)
    ensures var h := Hydrate(Persist(s, 0), 1, {}, index, issued); h.bindings == s.bindings && h.pairSessions == ps
  {
    hide KeepDesktops, KeepMobiles, LeasedDesktops, LeasedMobiles, KeepAuth, KeepPairs;
  }

  lemma LastAct(w: World)
    requires w == World(S7, Some(Persist(S6, 0)))
    ensures Apply(w, Reboot(1, true, {}, map["t" := "p"])).live.bindings == S6.bindings
    ensures CanApply(w, Reboot(1, true, {}, map["t" := "p"]))
  {
    hide S6, S7, D, Persist, Hydrate, KeepPairs, KeepDesktops, LeasedDesktops, Reindexed;
    KeptDesktop();
    KeptSession();
    ReadsBack(S6, map["d" := D], S6.pairSessions, map["t" := "p"], S7.issued);
  }

  lemma Bound6()
    ensures S6.bindings == map["b" := B]
  {
  }

  lemma AfterRestart()
    ensures StoreAt(LOST, 9).bindings == map["b" := B] && CanApply(Run(LOST[..8]), LOST[8])
  {
    hide *;
    LostIs();
    UpToApproval();
    LastAct(Run(LOST[..8]));
    StepAt(LOST, 8);
    StoreIs(LOST, 9);
    Bound6();
  }

  lemma LostIsValid()
    ensures ValidRun(LOST)
  {
    FirstActs();
    UpToApproval();
    AfterRestart();
    hide Run, CanApply;
    forall i | 0 <= i < |LOST| ensures CanApply(Run(LOST[..i]), LOST[i]) {
      assert i < 8 ==> CanAtPosition(i);
    }
  }

  lemma Sends()
    ensures AuthorizeSend(S7, DESK, "desktop", "d", "mobile", "m").Ok?
    ensures forall s: State :: s.bindings == map["b" := B] ==> AuthorizeSend(s, DESK, "desktop", "d", "mobile", "m") == Err(Forbidden)
  {
    Trims();
    hide TrimSpace;
    assert Pairs(S7.bindings["b"], "d", "m");
  }

  /** The desktop has approved, a signal may be sent; after the restart the binding is pending again and the signal refused. */
  lemma LostApproval()
    ensures ValidRun(LOST) && !Follows(LOST, 8, 9)
    ensures StoreAt(LOST, 8).bindings == map["b" := B1] && AuthorizeSend(StoreAt(LOST, 8), DESK, "desktop", "d", "mobile", "m").Ok?
    ensures StoreAt(LOST, 9).bindings == map["b" := B]
    ensures AuthorizeSend(StoreAt(LOST, 9), DESK, "desktop", "d", "mobile", "m") == Err(Forbidden)
  {
    hide *;
    LostIsValid();
    UpToApproval();
    AfterRestart();
    AfterApproval();
    StoreIs(LOST, 8);
    Sends();
    if Follows(LOST, 8, 9) { AuthorizedForever(LOST, 8, 9, DESK, "desktop", "d", "mobile", "m"); }
  }

  lemma AfterApproval()
    ensures S7.bindings == map["b" := B1] && |LOST| == 9
  {
  }
}
