/** What a run's past says about its present: where every session and binding came from, and what can no longer change. */
module PairingHistory {
  import opened Helpers
  import opened PairingState
  import opened PairingInvariant
  import opened PairingSteps
  import opened PairingRuns

  // ---------- What can no longer change ----------

  /** A session now and at some later time. */
  predicate Later(p: PairSession, q: PairSession) {
    && q == p.(status := q.status, updatedAt := q.updatedAt, claimedMobileId := q.claimedMobileId, bindingId := q.bindingId)
    && (p.claimedMobileId.Some? ==> q.claimedMobileId == p.claimedMobileId)
    && (p.bindingId.Some? ==> q.bindingId == p.bindingId)
    && (!Open(p) ==> q.claimedMobileId == p.claimedMobileId && q.bindingId == p.bindingId)
    && match p.status
       case Pending => true
       case Claimed => q.status != Pending
       case Expired => q.status == Expired || (q.status == Approved && p.claimedMobileId.Some?)
       case Approved => q.status == Approved
  }

  lemma LaterMoves(p: PairSession, m: PairSession, q: PairSession)
    requires Later(p, m) && Moves(m, q)
    ensures Later(p, q)
  {
  }

  lemma LaterSelf(p: PairSession)
    ensures Later(p, p)
  {
  }

  lemma NamesAt(log: seq<Act>, i: nat, j: nat, k: string)
    requires i <= j <= |log| && ValidRun(log) && (k in StoreAt(log, i).pairSessions || k in StoreAt(log, i).bindings)
    ensures k in StoreAt(log, j).issued
  {
    hide *;
    Prefix(log, i);
    RunInv(log[..i]);
    StoreIs(log, i);
    IssuedNames(StoreAt(log, i));
    IssuedForever(log, i, j);
  }

  lemma KnownMoves(s: State, x: Step, k: string)
    requires Inv(s) && Enabled(s, x) && k in s.issued && k in Next(s, x).pairSessions
    ensures k in s.pairSessions && Moves(s.pairSessions[k], Next(s, x).pairSessions[k])
  {
    assert x.StepCreate? ==> x.pairSessionId !in s.issued by { hide Inv, Next, SessionsStep, Answers, Prune, TrimSpace; }
    hide *;
    NextSession(s, x, k);
  }

  /** At any two times a session is stored, the later store following the earlier, it is the same session: its claimer and
      binding were written once, approval is final, and it was approved after expiry only if it had been claimed before. */
  lemma {:induction false} SessionLife(log: seq<Act>, i: nat, j: nat, k: string)
    requires j <= |log| && ValidRun(log) && Follows(log, i, j)
    requires i <= |log| && k in StoreAt(log, i).pairSessions && k in StoreAt(log, j).pairSessions
    ensures Later(StoreAt(log, i).pairSessions[k], StoreAt(log, j).pairSessions[k])
    decreases j
  {
    hide *;
    FollowsUpTo(log, i, j);
    if i == j {
      LaterSelf(StoreAt(log, i).pairSessions[k]);
    } else {
      var c := j - 1;
      FollowsCases(log, i, j);
      if log[c].Reboot? {
        RebootSalvages(log, c);
        SalvagedFacts(Base(log, c), StoreAt(log, j), k, DesktopType, "");
        SessionLife(log, i, Source(log, c).value, k);
      } else {
        ActAt(log, c);
        if log[c].Operate? {
          NamesAt(log, i, c, k);
          KnownMoves(StoreAt(log, c), log[c].step, k);
          SessionLife(log, i, c, k);
          LaterMoves(StoreAt(log, i).pairSessions[k], StoreAt(log, c).pairSessions[k], StoreAt(log, j).pairSessions[k]);
        } else {
          SessionLife(log, i, c, k);
        }
      }
    }
  }

  /** A binding keeps its device and mobile in every store that follows, and an active one never changes again there. */
  lemma {:induction false} BindingLife(log: seq<Act>, i: nat, j: nat, k: string)
    requires j <= |log| && ValidRun(log) && Follows(log, i, j) && i <= |log| && k in StoreAt(log, i).bindings
    ensures k in StoreAt(log, j).bindings && Endures(StoreAt(log, i).bindings[k], StoreAt(log, j).bindings[k])
    decreases j
  {
    hide *;
    FollowsUpTo(log, i, j);
    if i == j {
      EnduresSelf(StoreAt(log, i).bindings[k]);
    } else {
      var c := j - 1;
      FollowsCases(log, i, j);
      if log[c].Reboot? {
        RebootSalvages(log, c);
        SalvagedFacts(Base(log, c), StoreAt(log, j), k, DesktopType, "");
        BindingLife(log, i, Source(log, c).value, k);
      } else {
        ActAt(log, c);
        BindingLife(log, i, c, k);
        if log[c].Operate? {
          NextBinding(StoreAt(log, c), log[c].step, k);
          EnduresFacts(StoreAt(log, i).bindings[k], StoreAt(log, c).bindings[k], StoreAt(log, j).bindings[k]);
        }
      }
    }
  }

  lemma EnduresSelf(b: Binding)
    ensures Endures(b, b)
  {
  }

  // ---------- Where they came from ----------

  /** The desktop itself creates this session in state s. */
  ghost predicate CreatesSession(s: State, x: Step, id: string, device: string) {
    x.StepCreate? && x.who == Principal(DesktopType, device) &&
    var r := CreatePairSession(s, x.now, x.who, x.ttlSeconds, x.pairSessionId, x.claimToken, x.nonce).1;
    r.Ok? && r.value.pairSessionId == id && r.value.deviceId == device
  }

  lemma CreateShape(p: State, now: int, who: Principal, ttl: int, id: string, token: string, nonce: string, k: string)
    requires KeysMatch(p.desktops, p.mobiles) && who.entityType == DesktopType
    requires k !in p.pairSessions && k in CreateOn(p, now, who, ttl, id, token, nonce).0.pairSessions
    ensures var (s1, r) := CreateOn(p, now, who, ttl, id, token, nonce);
      k == id && r.Ok? && r.value == s1.pairSessions[k] && r.value.pairSessionId == k && r.value.deviceId == who.entityId
  {
  }

  lemma CreatedBy(s: State, x: Step, k: string)
    requires Inv(s) && Enabled(s, x) && k !in s.pairSessions && k in Next(s, x).pairSessions
    ensures CreatesSession(s, x, k, Next(s, x).pairSessions[k].deviceId)
  {
    assert x.StepCreate? by { NextSessions(s, x); hide Inv, Enabled, Next, AllMove, MayDrop; }
    NextAfterPrune(s, x);
    assert Prunes(x) by { hide Inv, Enabled, Next; }
    var p := Prune(s, x.now);
    assert KeysMatch(p.desktops, p.mobiles) by { hide *; PruneKeepsKeys(s, x.now); }
    assert k !in p.pairSessions by { hide Moves, AllMove; PruneMoves(s, x.now); hide *; }
    hide Inv, Enabled, Prune, KeysMatch, CreateOn;
    CreateShape(p, x.now, x.who, x.ttlSeconds, x.pairSessionId, x.claimToken, x.nonce, k);
  }

  /** The session a successful claim came through. */
  ghost function ClaimedSession(s: State, x: Step): string {
    if !x.StepClaim? then "" else
    match ClaimPair(s, x.now, x.who, x.rawToken, x.mobileName, x.found, x.freshId).1
    case Ok(v) => v.0.pairSessionId
    case Err(_) => ""
  }

  lemma ClaimedSessionStored(s: State, x: Step, k: string, device: string, mobile: string)
    requires ClaimsBinding(s, x, k, device, mobile) && Inv(s) && Enabled(s, x)
    ensures ClaimedSession(s, x) in s.pairSessions && s.pairSessions[ClaimedSession(s, x)].deviceId == device
  {
    var r := ClaimPair(s, x.now, x.who, x.rawToken, x.mobileName, x.found, x.freshId);
    var id := r.1.value.0.pairSessionId;
    assert ClaimedSession(s, x) == id && id in s.pairSessions && r.1.value.0.deviceId == device
      && Next(s, x) == r.0 by { hide ClaimPair, Inv, Enabled; }
    assert id in r.0.pairSessions && r.0.pairSessions[id] == r.1.value.0 by { hide Prune, TrimSpace, Inv, Enabled, ClaimableSession, ClaimBinding, ClaimLookup; }
    hide *;
    NextSession(s, x, id);
    MovesNames(s.pairSessions[id], Next(s, x).pairSessions[id]);
  }

  /** Every stored session was created by its own device. */
  lemma {:induction false} SessionCreated(log: seq<Act>, j: nat, k: string) returns (h: nat)
    requires ValidRun(log) && j <= |log| && k in StoreAt(log, j).pairSessions
    ensures h < j && log[h].Operate? && CreatesSession(StoreAt(log, h), log[h].step, k, StoreAt(log, j).pairSessions[k].deviceId)
    decreases j
  {
    hide *;
    NothingYet(log, j);
    h := j - 1;
    if log[h].Reboot? {
      RebootSalvages(log, h);
      SalvagedFacts(Base(log, h), StoreAt(log, j), k, DesktopType, "");
      BaseCases(log, h);
      h := SessionCreated(log, Source(log, h).value, k);
    } else {
      ActAt(log, h);
      if log[h].Write? {
        h := SessionCreated(log, h, k);
      } else {
        var s, x := StoreAt(log, h), log[h].step;
        if k in s.pairSessions {
          NextSession(s, x, k);
          MovesNames(s.pairSessions[k], StoreAt(log, j).pairSessions[k]);
          h := SessionCreated(log, h, k);
        } else {
          CreatedBy(s, x, k);
        }
      }
    }
  }

  lemma NothingYet(log: seq<Act>, j: nat)
    requires j <= |log|
    ensures j == 0 ==> StoreAt(log, j).pairSessions == map[] && StoreAt(log, j).bindings == map[]
  {
  }

  /** Every binding was claimed by its mobile through a session of its device. */
  lemma {:induction false} BindingClaimed(log: seq<Act>, j: nat, k: string) returns (i: nat)
    requires ValidRun(log) && j <= |log| && k in StoreAt(log, j).bindings
    ensures i < j && log[i].Operate?
    ensures var b := StoreAt(log, j).bindings[k]; ClaimsBinding(StoreAt(log, i), log[i].step, k, b.deviceId, b.mobileId)
    decreases j
  {
    hide *;
    NothingYet(log, j);
    i := j - 1;
    if log[i].Reboot? {
      RebootSalvages(log, i);
      SalvagedFacts(Base(log, i), StoreAt(log, j), k, DesktopType, "");
      BaseCases(log, i);
      i := BindingClaimed(log, Source(log, i).value, k);
    } else {
      ActAt(log, i);
      if log[i].Write? {
        i := BindingClaimed(log, i, k);
      } else {
        var s, x := StoreAt(log, i), log[i].step;
        NextBinding(s, x, k);
        if k in s.bindings {
          EnduresFacts(s.bindings[k], StoreAt(log, j).bindings[k], s.bindings[k]);
          i := BindingClaimed(log, i, k);
        }
      }
    }
  }

  /** At position p this device itself approves binding k, which is `b` from then on. */
  ghost predicate ApprovedAt(log: seq<Act>, p: nat, k: string, b: Binding) {
    p < |log| && log[p].Operate? && log[p].step.StepApprove? && log[p].step.who == Principal(DesktopType, b.deviceId)
    && b.bindingId == k && b.trust == ActiveTrust
    && ApproveBinding(StoreAt(log, p), log[p].step.now, log[p].step.who, log[p].step.rawId).1 == Ok(b)
  }

  lemma ApprovalIs(log: seq<Act>, p: nat, k: string)
    requires p < |log| && log[p].Operate? && Inv(StoreAt(log, p))
    ensures forall b :: ApprovedAt(log, p, k, b) ==>
      k in StoreAt(log, p).bindings && StoreAt(log, p).bindings[k].trust == PendingTrust
      && k in Next(StoreAt(log, p), log[p].step).bindings && Next(StoreAt(log, p), log[p].step).bindings[k] == b
    ensures forall device :: ApprovesBinding(StoreAt(log, p), log[p].step, k, device) ==>
      k in Next(StoreAt(log, p), log[p].step).bindings && Next(StoreAt(log, p), log[p].step).bindings[k].deviceId == device
      && ApprovedAt(log, p, k, Next(StoreAt(log, p), log[p].step).bindings[k])
  {
    var s, x := StoreAt(log, p), log[p].step;
    hide StoreAt, Inv;
    if x.StepApprove? {
      ApprovalMakes(s, x, k);
      hide Next, ApproveBinding;
    }
  }

  lemma ApprovalMakes(s: State, x: Step, k: string)
    requires x.StepApprove? && Inv(s)
    ensures var r := ApproveBinding(s, x.now, x.who, x.rawId).1;
      r.Ok? && r.value.bindingId == k ==>
        && k in s.bindings && s.bindings[k].trust == PendingTrust && k in Next(s, x).bindings && Next(s, x).bindings[k] == r.value
        && r.value.trust == ActiveTrust && x.who == Principal(DesktopType, r.value.deviceId)
  {
    if Prunes(x) {
      PruneKeeps(s, x.now);
      PrunedIssued(s, x.now);
      hide Prune, TrimSpace, ApproveOn, Inv;
      ApproveShape(Prune(s, x.now), x.now, x.who, TrimSpace(x.rawId));
      ApproveIs(s, x);
      hide Next;
    } else {
      hide TrimSpace, Inv, Next;
    }
  }

  /** Behind an active binding lies an approval by its device whose outcome every restart since has kept. */
  lemma {:induction false} ActiveApproved(log: seq<Act>, j: nat, k: string) returns (p: nat)
    requires ValidRun(log) && j <= |log| && k in StoreAt(log, j).bindings && StoreAt(log, j).bindings[k].trust == ActiveTrust
    ensures p < j && ApprovedAt(log, p, k, StoreAt(log, j).bindings[k]) && Follows(log, p + 1, j)
    decreases j
  {
    hide *;
    NothingYet(log, j);
    p := j - 1;
    var c := p;
    if log[c].Reboot? {
      RebootSalvages(log, c);
      SalvagedFacts(Base(log, c), StoreAt(log, j), k, DesktopType, "");
      BaseCases(log, c);
      p := ActiveApproved(log, Source(log, c).value, k);
      FollowsUpTo(log, p + 1, Source(log, c).value);
      FollowsOn(log, p + 1, c);
    } else {
      ActAt(log, c);
      if log[c].Write? {
        p := ActiveApproved(log, c, k);
        FollowsOn(log, p + 1, c);
      } else {
        var s, x := StoreAt(log, c), log[c].step;
        NextBinding(s, x, k);
        EnduresFacts(s.bindings[k], StoreAt(log, j).bindings[k], s.bindings[k]);
        if s.bindings[k].trust == ActiveTrust {
          p := ActiveApproved(log, c, k);
          FollowsOn(log, p + 1, c);
        } else {
          ApprovalIs(log, c, k);
          FollowsSelf(log, j);
        }
      }
    }
  }

  lemma FollowsSelf(log: seq<Act>, j: nat)
    requires j <= |log|
    ensures Follows(log, j, j)
  {
    hide LastWrite;
  }

  /** An approved binding stays as approved in every store that follows the approval. */
  lemma ApprovedStays(log: seq<Act>, p: nat, j: nat, k: string, b: Binding)
    requires ValidRun(log) && j <= |log| && ApprovedAt(log, p, k, b) && Follows(log, p + 1, j)
    ensures k in StoreAt(log, j).bindings && StoreAt(log, j).bindings[k] == b
  {
    assert p < |log| && log[p].Operate? && b.trust == ActiveTrust by { hide StoreAt, ApproveBinding, Follows; }
    hide *;
    ActAt(log, p);
    ApprovalIs(log, p, k);
    BindingLife(log, p + 1, j, k);
    EnduresFacts(b, StoreAt(log, j).bindings[k], b);
  }

  /** The approval at position p is one the store after j acts still follows. */
  ghost predicate HeldApproval(log: seq<Act>, p: nat, j: nat, k: string, b: Binding)
    requires j <= |log|
  {
    p < j && ApprovedAt(log, p, k, b) && Follows(log, p + 1, j)
  }

  lemma HeldIs(log: seq<Act>, p: nat, j: nat, k: string, b: Binding)
    requires j <= |log|
    ensures HeldApproval(log, p, j, k, b) <==> p < j && ApprovedAt(log, p, k, b) && Follows(log, p + 1, j)
  {
    hide ApprovedAt, Follows;
  }

  ghost predicate IsActive(s: State, k: string, b: Binding) {
    k in s.bindings && s.bindings[k] == b && b.trust == ActiveTrust
  }

  /** A binding is active exactly when its device approved it at some position that the store still follows. */
  lemma ActiveExactly(log: seq<Act>, j: nat, k: string, b: Binding)
    requires ValidRun(log) && j <= |log|
    ensures IsActive(StoreAt(log, j), k, b) <==> exists p: nat :: HeldApproval(log, p, j, k, b)
  {
    hide ValidRun, StoreAt, HeldApproval;
    if IsActive(StoreAt(log, j), k, b) {
      var p := ActiveApproved(log, j, k);
      HeldIs(log, p, j, k, b);
    }
    forall p: nat | HeldApproval(log, p, j, k, b) ensures IsActive(StoreAt(log, j), k, b) {
      HeldIs(log, p, j, k, b);
      ApprovedStays(log, p, j, k, b);
      ApprovedOperates(log, p, k, b);
    }
  }

  /** Acts h, i and p of a run create a session, claim the binding through it, and approve the binding. */
  ghost predicate Provenance(log: seq<Act>, h: nat, i: nat, p: nat, k: string, b: Binding) {
    && h < i < p < |log| && log[h].Operate? && log[i].Operate?
    && CreatesSession(StoreAt(log, h), log[h].step, ClaimedSession(StoreAt(log, i), log[i].step), b.deviceId)
    && ClaimsBinding(StoreAt(log, i), log[i].step, k, b.deviceId, b.mobileId)
    && ApprovedAt(log, p, k, b)
  }

  /** Every active binding was claimed by its mobile through a session its device had created, and then approved by that
      device, and the store still follows that approval. */
  lemma ActiveProvenance(log: seq<Act>, j: nat, k: string) returns (h: nat, i: nat, p: nat)
    requires ValidRun(log) && j <= |log| && k in StoreAt(log, j).bindings && StoreAt(log, j).bindings[k].trust == ActiveTrust
    ensures p < j && Follows(log, p + 1, j) && Provenance(log, h, i, p, k, StoreAt(log, j).bindings[k])
  {
    hide *;
    p := ActiveApproved(log, j, k);
    var b := StoreAt(log, j).bindings[k];
    ApprovedOperates(log, p, k, b);
    ActAt(log, p);
    ApprovalIs(log, p, k);
    NextBinding(StoreAt(log, p), log[p].step, k);
    EnduresFacts(StoreAt(log, p).bindings[k], b, b);
    i := BindingClaimed(log, p, k);
    h := ClaimedFrom(log, i, k, b.deviceId, b.mobileId);
    MakeProvenance(log, h, i, p, k, b);
  }

  lemma ApprovedOperates(log: seq<Act>, p: nat, k: string, b: Binding)
    requires ApprovedAt(log, p, k, b)
    ensures p < |log| && log[p].Operate? && b.trust == ActiveTrust
  {
    hide StoreAt, ApproveBinding;
  }

  lemma MakeProvenance(log: seq<Act>, h: nat, i: nat, p: nat, k: string, b: Binding)
    requires h < i < p < |log| && log[h].Operate? && log[i].Operate?
    requires CreatesSession(StoreAt(log, h), log[h].step, ClaimedSession(StoreAt(log, i), log[i].step), b.deviceId)
    requires ClaimsBinding(StoreAt(log, i), log[i].step, k, b.deviceId, b.mobileId)
    requires ApprovedAt(log, p, k, b)
    ensures Provenance(log, h, i, p, k, b)
  {
    hide CreatesSession, ClaimedSession, ClaimsBinding, ApprovedAt, StoreAt;
  }

  lemma ClaimedFrom(log: seq<Act>, i: nat, k: string, device: string, mobile: string) returns (h: nat)
    requires ValidRun(log) && i < |log| && log[i].Operate? && ClaimsBinding(StoreAt(log, i), log[i].step, k, device, mobile)
    ensures h < i && log[h].Operate? && CreatesSession(StoreAt(log, h), log[h].step, ClaimedSession(StoreAt(log, i), log[i].step), device)
  {
    hide *;
    ActAt(log, i);
    ClaimedSessionStored(StoreAt(log, i), log[i].step, k, device, mobile);
    h := SessionCreated(log, i, ClaimedSession(StoreAt(log, i), log[i].step));
  }

  // ---------- Signalling ----------

  /** The device and the mobile a signal between `who` and `toId` concerns. */
  function DeviceOf(who: Principal, toId: string): string {
    if who.entityType == DesktopType then who.entityId else toId
  }

  function MobileOf(who: Principal, toId: string): string {
    if who.entityType == DesktopType then toId else who.entityId
  }

  lemma AuthorizedBinding(s: State, who: Principal, fromType: string, fromId: string, toType: string, toId: string) returns (k: string)
    requires AuthorizeSend(s, who, fromType, fromId, toType, toId).Ok?
    ensures k in s.bindings && Pairs(s.bindings[k], DeviceOf(who, TrimSpace(toId)), MobileOf(who, TrimSpace(toId)))
  {
    hide TrimSpace;
    k :| k in s.bindings && Pairs(s.bindings[k], DeviceOf(who, TrimSpace(toId)), MobileOf(who, TrimSpace(toId)));
  }

  /** The request is in the sender's own name and addressed to one of the other kind. */
  predicate WellAddressed(who: Principal, fromType: string, fromId: string, toType: string, toId: string) {
    && TrimSpace(fromType) == TypeName(who.entityType) && TrimSpace(fromId) == who.entityId && who.entityId != ""
    && TrimSpace(toType) == TypeName(if who.entityType == DesktopType then MobileType else DesktopType) && TrimSpace(toId) != ""
  }

  lemma AuthorizeIs(s: State, who: Principal, fromType: string, fromId: string, toType: string, toId: string)
    ensures AuthorizeSend(s, who, fromType, fromId, toType, toId).Ok?
      <==> WellAddressed(who, fromType, fromId, toType, toId) && HasActive(s.bindings, DeviceOf(who, TrimSpace(toId)), MobileOf(who, TrimSpace(toId)))
  {
    assert TypeName(who.entityType) != "" && TypeName(if who.entityType == DesktopType then MobileType else DesktopType) != "";
    hide TrimSpace, HasActive;
  }

  ghost predicate HeldPairing(log: seq<Act>, p: nat, j: nat, k: string, b: Binding, device: string, mobile: string)
    requires j <= |log|
  {
    HeldApproval(log, p, j, k, b) && Pairs(b, device, mobile)
  }

  lemma PairingExactly(log: seq<Act>, j: nat, device: string, mobile: string)
    requires ValidRun(log) && j <= |log|
    ensures HasActive(StoreAt(log, j).bindings, device, mobile)
      <==> exists p: nat, k, b :: HeldPairing(log, p, j, k, b, device, mobile)
  {
    hide ValidRun, StoreAt, HeldApproval, Pairs;
    var bs := StoreAt(log, j).bindings;
    if HasActive(bs, device, mobile) {
      var k :| k in bs && Pairs(bs[k], device, mobile);
      PairsFacts(bs[k], device, mobile);
      ActiveExactly(log, j, k, bs[k]);
      var p: nat :| HeldApproval(log, p, j, k, bs[k]);
      assert HeldPairing(log, p, j, k, bs[k], device, mobile);
    }
    forall p: nat, k, b | HeldPairing(log, p, j, k, b, device, mobile) ensures HasActive(bs, device, mobile) {
      ActiveExactly(log, j, k, b);
    }
  }

  /** A send is authorized exactly when it is well addressed and the desktop approved a binding with the mobile at some
      position that the store still follows. */
  lemma AuthorizedExactly(log: seq<Act>, j: nat, who: Principal, fromType: string, fromId: string, toType: string, toId: string)
    requires ValidRun(log) && j <= |log|
    ensures AuthorizeSend(StoreAt(log, j), who, fromType, fromId, toType, toId).Ok?
      <==> (WellAddressed(who, fromType, fromId, toType, toId)
            && exists p: nat, k, b :: HeldPairing(log, p, j, k, b, DeviceOf(who, TrimSpace(toId)), MobileOf(who, TrimSpace(toId))))
  {
    hide *;
    AuthorizeIs(StoreAt(log, j), who, fromType, fromId, toType, toId);
    PairingExactly(log, j, DeviceOf(who, TrimSpace(toId)), MobileOf(who, TrimSpace(toId)));
  }

  /** A signal is let through only between a desktop and a mobile that once paired: the mobile claimed a session the desktop
      had created, and the desktop approved. */
  lemma AuthorizedWasPaired(log: seq<Act>, j: nat, who: Principal, fromType: string, fromId: string, toType: string, toId: string)
    returns (k: string, b: Binding, h: nat, i: nat, p: nat)
    requires ValidRun(log) && j <= |log| && AuthorizeSend(StoreAt(log, j), who, fromType, fromId, toType, toId).Ok?
    ensures p < j && Provenance(log, h, i, p, k, b) && Pairs(b, DeviceOf(who, TrimSpace(toId)), MobileOf(who, TrimSpace(toId)))
  {
    hide *;
    k := AuthorizedBinding(StoreAt(log, j), who, fromType, fromId, toType, toId);
    b := StoreAt(log, j).bindings[k];
    PairsFacts(b, DeviceOf(who, TrimSpace(toId)), MobileOf(who, TrimSpace(toId)));
    h, i, p := ActiveProvenance(log, j, k);
  }

  lemma PairsFacts(b: Binding, device: string, mobile: string)
    ensures Pairs(b, device, mobile) <==> b.deviceId == device && b.mobileId == mobile && b.trust == ActiveTrust
  {
  }

  /** No operation takes an authorization back: what may be sent once may be sent in every store that follows. */
  lemma AuthorizedForever(log: seq<Act>, i: nat, j: nat, who: Principal, fromType: string, fromId: string, toType: string, toId: string)
    requires i <= |log| && j <= |log| && ValidRun(log) && Follows(log, i, j)
    requires AuthorizeSend(StoreAt(log, i), who, fromType, fromId, toType, toId).Ok?
    ensures AuthorizeSend(StoreAt(log, j), who, fromType, fromId, toType, toId).Ok?
  {
    var device, mobile := DeviceOf(who, TrimSpace(toId)), MobileOf(who, TrimSpace(toId));
    AuthorizeIs(StoreAt(log, i), who, fromType, fromId, toType, toId);
    AuthorizeIs(StoreAt(log, j), who, fromType, fromId, toType, toId);
    var k := AuthorizedBinding(StoreAt(log, i), who, fromType, fromId, toType, toId);
    assert k in StoreAt(log, j).bindings && Pairs(StoreAt(log, j).bindings[k], device, mobile) by {
      hide *;
      BindingLife(log, i, j, k);
      PairsFacts(StoreAt(log, i).bindings[k], device, mobile);
      EnduresFacts(StoreAt(log, i).bindings[k], StoreAt(log, j).bindings[k], StoreAt(log, i).bindings[k]);
    }
    hide TrimSpace, StoreAt, ValidRun, Pairs, AuthorizeSend, WellAddressed, Follows;
  }

  // ---------- What a restart loses ----------

  /** From a store in which a binding is active, with no write after it, the binding stays active or is gone. */
  lemma {:induction false} ActiveOrGone(log: seq<Act>, w: nat, q: nat, k: string)
    requires ValidRun(log) && w <= q <= |log| && k in StoreAt(log, w).bindings && StoreAt(log, w).bindings[k].trust == ActiveTrust
    requires w < |log| && log[w].Write? && forall v :: w < v < q ==> !log[v].Write?
    ensures k in StoreAt(log, q).bindings ==> StoreAt(log, q).bindings[k].trust == ActiveTrust
    decreases q
  {
    hide *;
    if w < q {
      var c := q - 1;
      ActiveOrGone(log, w, c, k);
      if log[c].Reboot? {
        RebootSalvages(log, c);
        SalvagedFacts(Base(log, c), StoreAt(log, q), k, DesktopType, "");
        BaseCases(log, c);
        SourceIsLast(log, c, w);
      } else {
        ActAt(log, c);
        if log[c].Operate? {
          NamesAt(log, w, c, k);
          if k in StoreAt(log, q).bindings { KnownBinding(StoreAt(log, c), log[c].step, k); }
        }
      }
    }
  }

  lemma SourceIsLast(log: seq<Act>, c: nat, w: nat)
    requires w < c < |log| && log[c].Reboot? && log[w].Write? && forall v :: w < v < c ==> !log[v].Write?
    ensures Source(log, c) in {None, Some(w)}
  {
    assert log[..c][w].Write?;
    hide LastWrite;
  }

  /** A binding's id is not used again, so an active binding may vanish in a restart but not come back pending. */
  lemma KnownBinding(s: State, x: Step, k: string)
    requires Inv(s) && Enabled(s, x) && k in s.issued && k in Next(s, x).bindings
    ensures k in s.bindings && (s.bindings[k].trust == ActiveTrust ==> Next(s, x).bindings[k].trust == ActiveTrust)
  {
    hide *;
    NewBindingFresh(s, x, k);
    NextBinding(s, x, k);
    EnduresFacts(s.bindings[k], Next(s, x).bindings[k], s.bindings[k]);
  }

  /** An approval is lost in a restart if nothing was written in between. */
  lemma UnwrittenApprovalLost(log: seq<Act>, p: nat, c: nat, k: string, b: Binding)
    requires ValidRun(log) && p < c < |log| && ApprovedAt(log, p, k, b) && log[c].Reboot?
    requires forall v :: p < v < c ==> !log[v].Write?
    ensures k in StoreAt(log, c + 1).bindings ==> StoreAt(log, c + 1).bindings[k].trust == PendingTrust
  {
    hide *;
    ApprovedOperates(log, p, k, b);
    ActAt(log, p);
    ApprovalIs(log, p, k);
    RebootSalvages(log, c);
    SalvagedFacts(Base(log, c), StoreAt(log, c + 1), k, DesktopType, "");
    BaseCases(log, c);
    if Source(log, c).Some? {
      var w := Source(log, c).value;
      SourceWrites(log, c);
      ActAt(log, w);
      StoredTrust(StoreAt(log, w), k);
      if k in StoreAt(log, w).bindings && StoreAt(log, w).bindings[k].trust == ActiveTrust { ActiveOrGone(log, w, p, k); }
    }
  }

  lemma SourceWrites(log: seq<Act>, c: nat)
    requires c < |log| && log[c].Reboot? && Source(log, c).Some?
    ensures var w := Source(log, c).value; w < c && log[w].Write? && forall v :: w < v < c ==> !log[v].Write?
  {
    var w := Source(log, c).value;
    forall v | w < v < c ensures !log[v].Write? { assert log[..c][v] == log[v]; }
    hide LastWrite;
  }

  lemma StoredTrust(s: State, k: string)
    requires Inv(s)
    ensures k in s.bindings ==> s.bindings[k].trust in {PendingTrust, ActiveTrust}
  {
    hide EntityInv, TokensDiffer, IndexExact, OnePerPair, ClaimsBound;
  }
}
