/** Whose keys a binding carries: those of the session and the mobile of its last claim, and the session's own desktop. */
module PairingOrigins {
  import opened Helpers
  import opened PairingState
  import opened PairingInvariant
  import opened PairingSteps
  import opened PairingRuns
  import opened PairingOutcomes

  // ---------- Sessions ----------

  /** In store s the step creates this session for its own desktop, under the key the desktop is stored with. */
  predicate CreatedWith(s: State, x: Step, p: PairSession) {
    && x.StepCreate? && x.who == Principal(DesktopType, p.deviceId)
    && p.pairSessionId == x.pairSessionId && p.claimToken == x.claimToken && p.sessionNonce == x.nonce
    && p.createdAt == x.now && x.now + 60_000 <= p.expiresAt <= x.now + 600_000
    && p.deviceId in s.desktops && p.devicePublicKey == s.desktops[p.deviceId].publicKey
  }

  lemma CreatedMoves(s: State, x: Step, p: PairSession, q: PairSession)
    requires Moves(p, q)
    ensures CreatedWith(s, x, p) ==> CreatedWith(s, x, q)
  {
  }

  lemma NewSession(s: State, x: Step, k: string)
    requires Inv(s) && Enabled(s, x) && k !in s.pairSessions && k in Next(s, x).pairSessions
    ensures CreatedWith(s, x, Next(s, x).pairSessions[k])
  {
    assert x.StepCreate? && k == x.pairSessionId by { NextSession(s, x, k); hide Inv, Enabled, Next, Moves, MayDrop; }
    CreateExactly(s, x.now, x.who, x.ttlSeconds, x.pairSessionId, x.claimToken, x.nonce);
    PrunedEntities(s, x.now);
    PrunedSessions(s, x.now);
    hide Inv, Enabled, Prune, CreatePairSession;
  }

  lemma NoSessionsYet(log: seq<Act>, j: nat)
    requires j <= |log|
    ensures j == 0 ==> StoreAt(log, j).pairSessions == map[] && StoreAt(log, j).bindings == map[]
  {
  }

  /** Every stored session carries the token, the nonce and the times its own desktop's create step gave it, and the key that
      the desktop was stored with then. */
  lemma {:induction false} SessionOrigin(log: seq<Act>, j: nat, k: string) returns (h: nat)
    requires ValidRun(log) && j <= |log| && k in StoreAt(log, j).pairSessions
    ensures h < j && log[h].Operate? && CreatedWith(StoreAt(log, h), log[h].step, StoreAt(log, j).pairSessions[k])
    decreases j
  {
    hide *;
    NoSessionsYet(log, j);
    h := j - 1;
    if log[h].Reboot? {
      RebootSalvages(log, h);
      SalvagedFacts(Base(log, h), StoreAt(log, j), k, DesktopType, "");
      BaseCases(log, h);
      h := SessionOrigin(log, Source(log, h).value, k);
    } else {
      ActAt(log, h);
      if log[h].Write? {
        h := SessionOrigin(log, h, k);
      } else {
        var i := h;
        if k in StoreAt(log, i).pairSessions {
          h := SessionOrigin(log, i, k);
          NextSession(StoreAt(log, i), log[i].step, k);
          CreatedMoves(StoreAt(log, h), log[h].step, StoreAt(log, i).pairSessions[k], StoreAt(log, j).pairSessions[k]);
        } else {
          NewSession(StoreAt(log, i), log[i].step, k);
        }
      }
    }
  }

  // ---------- Bindings ----------

  /** The step claims binding k, new or again. */
  predicate ClaimsId(s: State, x: Step, k: string) {
    x.StepClaim? &&
    var r := ClaimPair(s, x.now, x.who, x.rawToken, x.mobileName, x.found, x.freshId).1;
    r.Ok? && r.value.1.bindingId == k
  }

  /** In store s the mobile itself claims, by its token, the session named in the binding; device and key are the session's,
      key and name the mobile's. */
  predicate ClaimedWith(s: State, x: Step, b: Binding) {
    && x.StepClaim? && x.who == Principal(MobileType, b.mobileId)
    && b.pairSessionId in s.pairSessions && s.pairSessions[b.pairSessionId].claimToken == TrimSpace(x.rawToken)
    && b.deviceId == s.pairSessions[b.pairSessionId].deviceId && b.devicePublicKey == s.pairSessions[b.pairSessionId].devicePublicKey
    && b.mobileId in s.mobiles && b.mobilePublicKey == s.mobiles[b.mobileId].publicKey
    && b.mobileName == if x.mobileName != "" then x.mobileName else s.mobiles[b.mobileId].mobileName
  }

  predicate SameParties(a: Binding, b: Binding) {
    b == a.(trust := b.trust, approvedAt := b.approvedAt, updatedAt := b.updatedAt)
  }

  /** One step leaves the parties of a binding alone, or is a claim of it that writes them. */
  ghost predicate PartiesStep(s: State, x: Step, s1: State, k: string) {
    k in s1.bindings ==>
      if ClaimsId(s, x, k) then ClaimedWith(s, x, s1.bindings[k])
      else k in s.bindings && SameParties(s.bindings[k], s1.bindings[k])
  }

  /** A binding written by a claim after a prune, seen from before the prune. */
  lemma WrittenParties(s: State, x: Step, s1: State, q: PairSession, b: Binding)
    requires x.StepClaim? && x.who == Principal(MobileType, x.who.entityId)
    requires Claims(Prune(s, x.now), s1, q, b, x.who.entityId, TrimSpace(x.rawToken), x.mobileName, x.now)
    ensures ClaimedWith(s, x, b) && s1.bindings == s.bindings[b.bindingId := b]
  {
    PrunedEntities(s, x.now);
    PrunedSessions(s, x.now);
    hide Prune, TrimSpace;
  }

  lemma ClaimOpens(s: State, x: Step)
    requires x.StepClaim?
    ensures var (s1, r) := ClaimPair(s, x.now, x.who, x.rawToken, x.mobileName, x.found, x.freshId);
      Next(s, x) == s1 && forall k :: ClaimsId(s, x, k) <==> r.Ok? && r.value.1.bindingId == k
  {
    hide ClaimPair;
  }

  lemma ClaimAnswers(s: State, x: Step)
    requires Enabled(s, x) && x.StepClaim? && x.who.entityType == MobileType && TrimSpace(x.rawToken) != ""
    ensures Answers(Prune(s, x.now), x.now, x.who.entityId, TrimSpace(x.rawToken), x.found) && x.who == Principal(MobileType, x.who.entityId)
  {
    hide TrimSpace, Prune, Answers;
  }

  lemma KeptParties(s: State, x: Step, k: string)
    requires Next(s, x).bindings == s.bindings && !ClaimsId(s, x, k)
    ensures PartiesStep(s, x, Next(s, x), k)
  {
    hide Next, ClaimsId, ClaimedWith;
  }

  lemma ClaimParties(s: State, x: Step, k: string)
    requires Inv(s) && Enabled(s, x) && x.StepClaim? && x.who.entityType == MobileType && TrimSpace(x.rawToken) != ""
    ensures PartiesStep(s, x, Next(s, x), k)
  {
    hide *;
    ClaimAnswers(s, x);
    ClaimOpens(s, x);
    var (s1, r) := ClaimPair(s, x.now, x.who, x.rawToken, x.mobileName, x.found, x.freshId);
    if r.Ok? {
      ClaimWrites(s, x.now, x.who.entityId, x.rawToken, x.mobileName, x.found, x.freshId);
      WrittenParties(s, x, s1, r.value.0, r.value.1);
      OneWritten(s, x, s1, r.value.1, k);
    } else {
      ClaimRefused(s, x.now, x.who.entityId, x.rawToken, x.mobileName, x.found, x.freshId);
      PrunedSessions(s, x.now);
      KeptParties(s, x, k);
    }
  }

  lemma OneWritten(s: State, x: Step, s1: State, b: Binding, k: string)
    requires ClaimedWith(s, x, b) && s1.bindings == s.bindings[b.bindingId := b] && (ClaimsId(s, x, k) <==> b.bindingId == k)
    ensures PartiesStep(s, x, s1, k)
  {
    hide ClaimsId, ClaimedWith;
  }

  lemma RefusedClaim(s: State, x: Step, k: string)
    requires x.StepClaim? && (x.who.entityType != MobileType || TrimSpace(x.rawToken) == "")
    ensures !ClaimsId(s, x, k) && Next(s, x) == s
  {
    hide TrimSpace, Prune, ClaimOn;
  }

  lemma ApproveParties(s: State, x: Step, k: string)
    requires Inv(s) && x.StepApprove?
    ensures PartiesStep(s, x, Next(s, x), k)
  {
    ApproveExactly(s, x.now, x.who, x.rawId);
    PrunedSessions(s, x.now);
    hide Inv, Prune, TrimSpace, ApproveBinding, ClaimedWith;
  }

  lemma OtherParties(s: State, x: Step)
    requires !x.StepClaim? && !x.StepApprove?
    ensures Next(s, x).bindings == s.bindings
  {
    if !x.StepQueue? {
      NextAfterPrune(s, x);
      hide Next, After, Prune, Refused;
      if Prunes(x) {
        OtherBindings(Prune(s, x.now), x);
        PrunedSessions(s, x.now);
      }
    }
  }

  lemma NextParties(s: State, x: Step, k: string)
    requires Inv(s) && Enabled(s, x)
    ensures PartiesStep(s, x, Next(s, x), k)
  {
    if x.StepApprove? {
      ApproveParties(s, x, k);
    } else if x.StepClaim? {
      if x.who.entityType == MobileType && TrimSpace(x.rawToken) != "" { ClaimParties(s, x, k); } else { RefusedClaim(s, x, k); hide TrimSpace; }
    } else {
      OtherParties(s, x);
    }
    hide Inv, Enabled, Next, ClaimedWith;
  }

  lemma PartiesCases(s: State, x: Step, s1: State, k: string)
    requires PartiesStep(s, x, s1, k) && k in s1.bindings
    ensures if ClaimsId(s, x, k) then ClaimedWith(s, x, s1.bindings[k]) else k in s.bindings && SameParties(s.bindings[k], s1.bindings[k])
  {
    hide ClaimsId, ClaimedWith, SameParties;
  }

  lemma SameClaim(s: State, x: Step, a: Binding, b: Binding)
    requires SameParties(a, b)
    ensures ClaimedWith(s, x, a) ==> ClaimedWith(s, x, b)
  {
    hide TrimSpace;
  }

  /** At position i the run claims binding k. */
  ghost predicate ClaimsAt(log: seq<Act>, i: nat, k: string) {
    i < |log| && log[i].Operate? && ClaimsId(StoreAt(log, i), log[i].step, k)
  }

  /** No claim of binding k after position i is one the store after j acts still follows. */
  ghost predicate LastClaim(log: seq<Act>, i: nat, j: nat, k: string)
    requires j <= |log|
  {
    forall m :: i < m < j && Follows(log, m + 1, j) ==> !ClaimsAt(log, m, k)
  }

  lemma LastClaimOn(log: seq<Act>, i: nat, j: nat, k: string)
    requires i < j <= |log|
    ensures !log[j - 1].Reboot? && !ClaimsAt(log, j - 1, k) && LastClaim(log, i, j - 1, k) ==> LastClaim(log, i, j, k)
    ensures log[j - 1].Reboot? && Source(log, j - 1).Some? && LastClaim(log, i, Source(log, j - 1).value, k) ==> LastClaim(log, i, j, k)
  {
    hide Follows, Run, StoreAt, ClaimsId, LastWrite;
    forall m | i < m < j && ClaimsAt(log, m, k)
      ensures Follows(log, m + 1, j) ==> m == j - 1 || FollowsThrough(log, m, j)
    {
      if Follows(log, m + 1, j) && m + 1 < j { FollowsCases(log, m + 1, j); }
    }
  }

  /** What follows act m does so by the store before the last act, or by the source of a last restart. */
  ghost predicate FollowsThrough(log: seq<Act>, m: nat, j: nat)
    requires 0 < j <= |log|
  {
    if log[j - 1].Reboot? then Source(log, j - 1).Some? && m < Source(log, j - 1).value && Follows(log, m + 1, Source(log, j - 1).value)
    else Follows(log, m + 1, j - 1)
  }

  lemma LastClaimNow(log: seq<Act>, j: nat, k: string)
    requires 0 < j <= |log|
    ensures LastClaim(log, j - 1, j, k)
  {
    hide Follows, ClaimsAt;
  }

  lemma ClaimsAtIs(log: seq<Act>, i: nat, k: string)
    ensures i < |log| && log[i].Operate? ==> (ClaimsAt(log, i, k) <==> ClaimsId(StoreAt(log, i), log[i].step, k))
    ensures ClaimsAt(log, i, k) ==> i < |log| && log[i].Operate?
  {
    hide StoreAt, ClaimsId;
  }

  /** A binding names the session, the keys and the display name of its last claim that the store still follows. */
  lemma {:induction false} PartiesOfLastClaim(log: seq<Act>, j: nat, k: string) returns (i: nat)
    requires ValidRun(log) && j <= |log| && k in StoreAt(log, j).bindings
    ensures i < j && ClaimsAt(log, i, k) && log[i].Operate? && ClaimedWith(StoreAt(log, i), log[i].step, StoreAt(log, j).bindings[k])
    ensures Follows(log, i + 1, j) && LastClaim(log, i, j, k)
    decreases j
  {
    hide *;
    NoSessionsYet(log, j);
    i := j - 1;
    var c := i;
    if log[c].Reboot? {
      RebootSalvages(log, c);
      SalvagedFacts(Base(log, c), StoreAt(log, j), k, DesktopType, "");
      BaseCases(log, c);
      i := PartiesOfLastClaim(log, Source(log, c).value, k);
      FollowsUpTo(log, i + 1, Source(log, c).value);
      FollowsOn(log, i + 1, c);
      LastClaimOn(log, i, j, k);
    } else {
      ActAt(log, c);
      ClaimsAtIs(log, c, k);
      if log[c].Operate? {
        NextParties(StoreAt(log, c), log[c].step, k);
        PartiesCases(StoreAt(log, c), log[c].step, StoreAt(log, j), k);
      }
      if ClaimsAt(log, c, k) {
        FollowsNow(log, j);
        LastClaimNow(log, j, k);
      } else {
        i := PartiesOfLastClaim(log, c, k);
        FollowsOn(log, i + 1, c);
        LastClaimOn(log, i, j, k);
        if log[c].Operate? { SameClaim(StoreAt(log, i), log[i].step, StoreAt(log, c).bindings[k], StoreAt(log, j).bindings[k]); }
      }
    }
  }

  lemma FollowsNow(log: seq<Act>, j: nat)
    requires j <= |log|
    ensures Follows(log, j, j)
  {
    hide LastWrite;
  }

  lemma ClaimedFacts(s: State, x: Step, b: Binding)
    requires ClaimedWith(s, x, b)
    ensures b.pairSessionId in s.pairSessions
  {
    hide TrimSpace;
  }

  /** So its keys are the two parties' own: the desktop's when it created the session, the mobile's when it claimed it. */
  lemma BindingOrigin(log: seq<Act>, j: nat, k: string) returns (h: nat, i: nat)
    requires ValidRun(log) && j <= |log| && k in StoreAt(log, j).bindings
    ensures h < i < j && log[h].Operate? && log[i].Operate?
    ensures ClaimedWith(StoreAt(log, i), log[i].step, StoreAt(log, j).bindings[k])
    ensures var id := StoreAt(log, j).bindings[k].pairSessionId;
      id in StoreAt(log, i).pairSessions && CreatedWith(StoreAt(log, h), log[h].step, StoreAt(log, i).pairSessions[id])
  {
    hide *;
    i := PartiesOfLastClaim(log, j, k);
    ClaimedFacts(StoreAt(log, i), log[i].step, StoreAt(log, j).bindings[k]);
    h := SessionOrigin(log, i, StoreAt(log, j).bindings[k].pairSessionId);
  }
}
