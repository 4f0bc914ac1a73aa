/**
 * Who gets what from each session mutation, said on the rows themselves: when a call is accepted,
 * what it is refused with otherwise, and which rows it writes.
 */
module SessionRefusals {
  import opened Prelude
  import opened SessionState
  import K = SessionKeys
  import F = SessionFences

  // ---------- What the rows say ----------

  ghost predicate HasRow(members: seq<Member>, principal: Principal) {
    exists i :: 0 <= i < |members| && members[i].principal == principal
  }

  ghost predicate IsJoined(members: seq<Member>, principal: Principal) {
    exists i :: 0 <= i < |members| && members[i].principal == principal && members[i].status == Present
  }

  /** A manager of the project, or a present member with that role in the session. */
  ghost predicate MayManage(members: seq<Member>, managers: set<Principal>, principal: Principal) {
    || principal in managers
    || exists i :: 0 <= i < |members| && members[i].principal == principal && members[i].status == Present
                   && members[i].role == ProjectManager
  }

  ghost predicate IsInvited(invitations: seq<Invitation>, principal: Principal, now: int) {
    exists k :: 0 <= k < |invitations| && invitations[k].target == principal && invitations[k].status == Pending
                && now < invitations[k].expiresAt
  }

  ghost predicate HasCopy(copies: seq<KeyCopy>, principal: Principal, version: int) {
    exists k :: 0 <= k < |copies| && copies[k].recipient == principal && copies[k].version == version
                && copies[k].revokedAt.None?
  }

  lemma RowsDecide(s: State, principal: Principal, w: World)
    requires K.UniqueRows(s.members)
    ensures IsPresent(s.members, principal) <==> IsJoined(s.members, principal)
    ensures FindMember(s.members, principal).Some? <==> HasRow(s.members, principal)
    ensures IsManager(s, principal, w) <==> MayManage(s.members, w.managers, principal)
    ensures FindInvitation(s.invitations, principal, w.now).Some? <==> IsInvited(s.invitations, principal, w.now)
    ensures forall version :: HoldsKey(s.copies, principal, version) <==> HasCopy(s.copies, principal, version)
  {
  }

  /** A session that was created before keys had generations is at the first. */
  lemma GenerationsStartAtOne(session: Session)
    ensures session.activeKeyVersion.None? ==> ActiveKeyVersion(session) == 1
    ensures session.activeKeyVersion.Some? && session.activeKeyVersion.value < 1 ==> ActiveKeyVersion(session) == 1
    ensures session.activeKeyVersion.Some? && session.activeKeyVersion.value >= 1
            ==> Some(ActiveKeyVersion(session)) == session.activeKeyVersion
    ensures Revision(session) == if session.lifecycleRevision.Some? then session.lifecycleRevision.value else 0
  {
  }

  /** A run is its calls one after the other. */
  lemma RunsStepByStep(s: State, calls: seq<Call>, call: Call)
    ensures Run(s, []) == s && Run(s, calls + [call]) == Next(Run(s, calls), call)
  {
    assert (calls + [call])[..|calls|] == calls;
  }

  lemma TransitionTable(from: Lifecycle, to: Lifecycle)
    ensures CanTransition(from, to) <==>
            || from == to
            || (to == Active && from in {Creating, Dormant, Paused, Blocked})
            || (to == Dormant && from in {Active, Blocked})
            || (to == Pausing && from == Active)
            || (to == Paused && from == Pausing)
            || (to == Closing && from in {Active, Dormant, Paused, Blocked})
            || (to == Closed && from in {Creating, Closing, Blocked})
            || (to == Blocked && from != Closed)
  {
  }

  // ---------- Membership ----------

  ghost predicate MayJoin(s: State, caller: Principal, w: World) {
    && s.session.lifecycle !in {Closed, Closing}
    && if HasRow(s.members, caller) then !K.IsRevoked(s.members, caller) && caller in w.access
       else if s.session.organizationAvailable then caller in w.organizationAdmits
       else caller in w.access || (IsInvited(s.invitations, caller, w.now) && w.projectIsLive && w.seatIsFree)
  }

  /** The refusal a caller who may not join is given. */
  lemma JoinDecides(s: State, caller: Principal, w: World)
    requires K.UniqueRows(s.members)
    ensures var outcome, closed := Join(s, caller, w), s.session.lifecycle in {Closed, Closing};
            && (outcome.Ok? <==> MayJoin(s, caller, w))
            && (outcome == Err(SessionClosed) <==> closed)
            && (outcome == Err(AccessRevoked) <==> !closed && K.IsRevoked(s.members, caller))
            && (outcome == Err(NoProjectAccess) <==>
                && !closed && HasRow(s.members, caller)
                && !K.IsRevoked(s.members, caller) && caller !in w.access)
            && (outcome == Err(OrganizationOnly) <==>
                && !closed && !HasRow(s.members, caller) && s.session.organizationAvailable
                && caller !in w.organizationAdmits)
            && (outcome == Err(NotInvited) <==>
                && !closed && !HasRow(s.members, caller) && !s.session.organizationAvailable && caller !in w.access
                && !IsInvited(s.invitations, caller, w.now))
            && (outcome == Err(ProjectMissing) <==>
                && !closed && !HasRow(s.members, caller) && !s.session.organizationAvailable && caller !in w.access
                && IsInvited(s.invitations, caller, w.now) && !w.projectIsLive)
            && (outcome == Err(SeatsTaken) <==>
                && !closed && !HasRow(s.members, caller) && !s.session.organizationAvailable && caller !in w.access
                && IsInvited(s.invitations, caller, w.now) && w.projectIsLive && !w.seatIsFree)
  {
    hide IsManager, HoldsKey;
    RowsDecide(s, caller, w);
  }

  /** Who comes in by a row of their own takes it up again; anyone else gets a new one. */
  lemma JoinWrites(s: State, caller: Principal, w: World)
    requires K.UniqueRows(s.members) && Join(s, caller, w).Ok?
    ensures var t := Join(s, caller, w).value.0;
            && IsAwake(s.session, t.session, w.now)
            && (HasRow(s.members, caller) ==> t.invitations == s.invitations && IsBack(s.members, t.members, caller, w))
            && (!HasRow(s.members, caller) ==>
                  exists role :: t.members == s.members + [Member(caller, role, Present, w.now, None)]
                                 && (s.session.organizationAvailable || caller in w.access ==>
                                       && role == (if caller in w.editors then Developer else Viewer)
                                       && t.invitations == s.invitations)
                                 && (!s.session.organizationAvailable && caller !in w.access ==>
                                       IsTakenUp(s.invitations, t.invitations, caller, role, w.now)))
  {
    hide IsManager, HoldsKey;
    RowsDecide(s, caller, w);
    var t := Join(s, caller, w).value.0;
    if !HasRow(s.members, caller) {
      var role := t.members[|s.members|].role;
      assert t.members == s.members + [Member(caller, role, Present, w.now, None)];
      if !s.session.organizationAvailable && caller !in w.access {
        var k := FindInvitation(s.invitations, caller, w.now).value;
        assert IsTakenUpAt(s.invitations, t.invitations, k, caller, role, w.now);
      }
    }
  }

  /** A dormant session is woken; any other is left alone. */
  ghost predicate IsAwake(before: Session, after: Session, now: int) {
    && (before.lifecycle == Dormant ==> after == before.(lifecycle := Active, updatedAt := now))
    && (before.lifecycle != Dormant ==> after == before)
  }

  /** An active session with nobody present goes dormant; any other is left alone. */
  ghost predicate IsAtRest(before: Session, members: seq<Member>, after: Session, now: int) {
    var deserted := before.lifecycle == Active && forall i :: 0 <= i < |members| ==> members[i].status != Present;
    && (deserted ==> after == before.(lifecycle := Dormant, updatedAt := now))
    && (!deserted ==> after == before)
  }

  /** The caller's row is present, with its role, and joins anew unless it was present all along. */
  ghost predicate IsBack(before: seq<Member>, after: seq<Member>, caller: Principal, w: World) {
    && |after| == |before|
    && forall i :: 0 <= i < |before| ==>
         if before[i].principal == caller && before[i].status != Present
         then after[i] == Member(caller, before[i].role, Present, w.now, None)
         else after[i] == before[i]
  }

  ghost predicate IsTakenUpAt(before: seq<Invitation>, after: seq<Invitation>, k: int, caller: Principal, role: Role,
                              now: int)
  {
    && 0 <= k < |before| && before[k].target == caller && before[k].status == Pending && now < before[k].expiresAt
    && before[k].role == role && after == before[k := before[k].(status := Accepted, resolvedAt := Some(now))]
  }

  /** One open invitation to that role has been accepted. */
  ghost predicate IsTakenUp(before: seq<Invitation>, after: seq<Invitation>, caller: Principal, role: Role, now: int) {
    exists k :: IsTakenUpAt(before, after, k, caller, role, now)
  }

  /** Leaving is never refused. It writes the caller's row if it is present, and nothing otherwise. */
  lemma LeaveWrites(s: State, caller: Principal, w: World)
    requires K.UniqueRows(s.members)
    ensures Leave(s, caller, w).Ok?
    ensures var t := Leave(s, caller, w).value.0;
            && (!IsJoined(s.members, caller) ==> t == s)
            && (IsJoined(s.members, caller) ==>
                  && t == s.(members := t.members, session := t.session) && |t.members| == |s.members|
                  && (forall i :: 0 <= i < |s.members| ==>
                        t.members[i] == if s.members[i].principal == caller
                                        then s.members[i].(status := Left, leftAt := Some(w.now)) else s.members[i])
                  && IsAtRest(s.session, t.members, t.session, w.now))
  {
    hide IsManager, HoldsKey;
    RowsDecide(s, caller, w);
  }

  lemma ResolutionDecides(s: State, caller: Principal, w: World, index: nat, accept: bool)
    requires K.UniqueRows(s.members)
    ensures var outcome := ResolveInvitation(s, caller, w, index, accept);
            var isTheirs := index < |s.invitations| && s.invitations[index].target == caller;
            var isPending := isTheirs && s.invitations[index].status == Pending;
            var isOpen := isPending && w.now < s.invitations[index].expiresAt;
            var isClosed := s.session.lifecycle in {Closed, Closing};
            && (outcome == Err(InvitationMissing) <==> !isTheirs)
            && (outcome == Err(InvitationResolved) <==> isTheirs && !isPending)
            && (outcome.Ok? && outcome.value.1 == Expired <==> isPending && !isOpen)
            && (outcome.Ok? && outcome.value.1 == Declined <==> isOpen && !accept)
            && (outcome.Ok? && outcome.value.1 == Accepted <==>
                && isOpen && accept && !isClosed && !K.IsRevoked(s.members, caller)
                && w.projectIsLive && (caller in w.access || w.seatIsFree))
            && (outcome == Err(SessionClosed) <==> isOpen && accept && isClosed)
            && (outcome == Err(AccessRevoked) <==> isOpen && accept && !isClosed && K.IsRevoked(s.members, caller))
            && (outcome == Err(ProjectMissing) <==>
                isOpen && accept && !isClosed && !K.IsRevoked(s.members, caller) && !w.projectIsLive)
            && (outcome == Err(SeatsTaken) <==>
                && isOpen && accept && !isClosed && !K.IsRevoked(s.members, caller) && w.projectIsLive
                && caller !in w.access && !w.seatIsFree)
  {
    hide IsManager, HoldsKey;
    RowsDecide(s, caller, w);
  }

  lemma ResolutionWrites(s: State, caller: Principal, w: World, index: nat, accept: bool)
    requires K.UniqueRows(s.members) && ResolveInvitation(s, caller, w, index, accept).Ok?
    ensures var (t, status) := ResolveInvitation(s, caller, w, index, accept).value;
            && index < |s.invitations|
            && t.invitations
               == s.invitations[index := s.invitations[index].(status := status, resolvedAt := Some(w.now))]
            && t.copies == s.copies
            && (status != Accepted ==> t.members == s.members && t.session == s.session)
            && (status == Accepted ==> IsAwake(s.session, t.session, w.now))
            && (status == Accepted && HasRow(s.members, caller) ==> IsBack(s.members, t.members, caller, w))
            && (status == Accepted && !HasRow(s.members, caller) ==>
                  t.members == s.members + [Member(caller, s.invitations[index].role, Present, w.now, None)])
  {
    hide IsManager, HoldsKey;
    RowsDecide(s, caller, w);
  }

  // ---------- What managers do ----------

  lemma RoleUpdateDecides(s: State, caller: Principal, w: World, target: Principal, role: Role)
    requires K.UniqueRows(s.members)
    ensures var outcome := UpdateMemberRole(s, caller, w, target, role);
            var isClosed := s.session.lifecycle in {Closed, Closing};
            var mayManage := MayManage(s.members, w.managers, caller);
            && (outcome.Ok? <==> !isClosed && mayManage && IsJoined(s.members, target))
            && (outcome == Err(SessionClosed) <==> isClosed)
            && (outcome == Err(NotManager) <==> !isClosed && !mayManage)
            && (outcome == Err(MemberNotActive) <==> !isClosed && mayManage && !IsJoined(s.members, target))
            && (outcome.Ok? ==>
                  && var t := outcome.value.0;
                     && t == s.(members := t.members) && |t.members| == |s.members|
                     && forall i :: 0 <= i < |s.members| ==>
                          t.members[i] == if s.members[i].principal == target then s.members[i].(role := role)
                                          else s.members[i])
  {
    hide IsManager, HoldsKey;
    RowsDecide(s, caller, w);
    RowsDecide(s, target, w);
  }

  lemma AccessModeDecides(s: State, caller: Principal, w: World, available: bool, inOrganization: bool)
    requires K.UniqueRows(s.members)
    ensures var outcome := UpdateAccessMode(s, caller, w, available, inOrganization);
            var isClosed := s.session.lifecycle in {Closed, Closing};
            var mayManage := MayManage(s.members, w.managers, caller);
            var isServed := !available || s.session.organizationAvailable || (w.projectIsLive && inOrganization);
            && (outcome.Ok? <==> !isClosed && mayManage && isServed)
            && (outcome == Err(SessionClosed) <==> isClosed)
            && (outcome == Err(NotManager) <==> !isClosed && !mayManage)
            && (outcome == Err(NoOrganization) <==> !isClosed && mayManage && !isServed)
  {
    hide IsManager, HoldsKey;
    RowsDecide(s, caller, w);
  }

  /** Whom an invitation is for: the device named, or else the owner of the key. */
  ghost predicate Names(device: Option<Principal>, key: GivenKey, w: World, target: Principal) {
    && key != MalformedKey
    && if device.Some? then device == Some(target) && target in w.registered else key == KeyOf(target)
  }

  ghost predicate NamesSomeone(device: Option<Principal>, key: GivenKey, w: World) {
    key != MalformedKey && if device.Some? then device.value in w.registered else key.KeyOf?
  }

  lemma InvitationDecides(s: State, caller: Principal, w: World, device: Option<Principal>, key: GivenKey, role: Role)
    requires K.UniqueRows(s.members)
    ensures var outcome := InviteParticipant(s, caller, w, device, key, role);
            var isClosed := s.session.lifecycle in {Closed, Closing};
            var mayManage := MayManage(s.members, w.managers, caller);
            && (outcome.Ok? <==>
                && !isClosed && mayManage && NamesSomeone(device, key, w) && !Names(device, key, w, caller))
            && (outcome == Err(SessionClosed) <==> isClosed)
            && (outcome == Err(NotManager) <==> !isClosed && !mayManage)
            && (outcome == Err(NotAnIdentity) <==> !isClosed && mayManage && key == MalformedKey)
            && (outcome == Err(UnknownDevice) <==>
                && !isClosed && mayManage && key != MalformedKey
                && device.Some? && device.value !in w.registered)
            && (outcome == Err(NobodyNamed) <==> !isClosed && mayManage && device == None && key == NoKey)
            && (outcome == Err(AlreadyIn) <==> !isClosed && mayManage && Names(device, key, w, caller))
  {
    hide IsManager, HoldsKey;
    RowsDecide(s, caller, w);
  }

  /** An open invitation is reused as it is. A new one is open for a week. */
  lemma InvitationWrites(s: State, caller: Principal, w: World, device: Option<Principal>, key: GivenKey, role: Role,
                         target: Principal)
    requires Names(device, key, w, target) && InviteParticipant(s, caller, w, device, key, role).Ok?
    ensures var (t, isReused) := InviteParticipant(s, caller, w, device, key, role).value;
            && (isReused <==> IsInvited(s.invitations, target, w.now))
            && (isReused ==> t == s)
            && (!isReused ==> t == s.(invitations := s.invitations + [
                  Invitation(target, role, Pending, caller, w.now + 604_800_000, None)]))
  {
    hide IsManager;
  }

  lemma RevocationDecides(s: State, caller: Principal, w: World, target: Principal)
    requires K.UniqueRows(s.members)
    ensures var outcome := RevokeMember(s, caller, w, target);
            var mayManage := MayManage(s.members, w.managers, caller);
            && (outcome.Ok? <==> mayManage && target != caller)
            && (outcome == Err(NotManager) <==> !mayManage)
            && (outcome == Err(UseLeave) <==> mayManage && target == caller)
  {
    hide IsManager, HoldsKey, WithCopiesRevoked, WithInvitationsWithdrawn;
    RowsDecide(s, caller, w);
  }

  /** A removal stamps the row, the unrevoked copies and the pending invitations of its target. */
  lemma RevocationWrites(s: State, caller: Principal, w: World, target: Principal)
    requires K.UniqueRows(s.members) && RevokeMember(s, caller, w, target).Ok?
    ensures var (t, version) := RevokeMember(s, caller, w, target).value;
            var removes := HasRow(s.members, target) && !K.IsRevoked(s.members, target);
            var active := ActiveKeyVersion(s.session) + if removes then 1 else 0;
            && version == active && |t.members| == |s.members|
            && (forall i :: 0 <= i < |s.members| ==> IsStampedRow(s.members[i], t.members[i], target, w.now))
            && |t.copies| == |s.copies|
            && (forall k :: 0 <= k < |s.copies| ==> IsStampedCopy(s.copies[k], t.copies[k], target, w.now))
            && |t.invitations| == |s.invitations|
            && (forall k :: 0 <= k < |s.invitations| ==>
                  IsWithdrawn(s.invitations[k], t.invitations[k], target, w.now))
            && IsAtRest(if removes then s.session.(activeKeyVersion := Some(active), updatedAt := w.now) else s.session,
                        t.members, t.session, w.now)
  {
    hide IsManager, HoldsKey;
    RowsDecide(s, target, w);
    var found := FindMember(s.members, target);
    assert K.IsRevoked(s.members, target) <==> found.Some? && s.members[found.value].status == Revoked;
  }

  ghost predicate IsStampedRow(before: Member, after: Member, target: Principal, now: int) {
    if before.principal != target || before.status == Revoked then after == before
    else after == Member(target, before.role, Revoked, before.joinedAt,
                         if before.leftAt.None? then Some(now) else before.leftAt)
  }

  ghost predicate IsStampedCopy(before: KeyCopy, after: KeyCopy, target: Principal, now: int) {
    after == before.(revokedAt := if before.recipient == target && before.revokedAt.None? then Some(now)
                                  else before.revokedAt)
  }

  ghost predicate IsWithdrawn(before: Invitation, after: Invitation, target: Principal, now: int) {
    if before.target != target || before.status != Pending then after == before
    else after == before.(status := Withdrawn, resolvedAt := Some(now))
  }

  // ---------- Keys ----------

  lemma InitializationDecides(s: State, caller: Principal, w: World, wrappedKey: string)
    requires K.UniqueRows(s.members)
    ensures var outcome, active := InitializeSessionKey(s, caller, w, wrappedKey), ActiveKeyVersion(s.session);
            var isClosed := s.session.lifecycle in {Closed, Closing};
            var isStarted := exists k :: 0 <= k < |s.copies| && s.copies[k].version == active;
            && (outcome.Ok? <==> !isClosed && WorksOn(s.members, caller))
            && (outcome == Err(SessionClosed) <==> isClosed)
            && (outcome == Err(NotJoined) <==> !isClosed && !IsJoined(s.members, caller))
            && (outcome == Err(ViewerOnly) <==>
                !isClosed && IsJoined(s.members, caller) && !WorksOn(s.members, caller))
            && (outcome.Ok? && isStarted ==> outcome.value == (s, false))
            && (outcome.Ok? && !isStarted ==>
                  && outcome.value.1
                  && outcome.value.0
                     == s.(copies := s.copies + [KeyCopy(active, caller, caller, wrappedKey, w.now, None)]))
  {
    hide IsManager, HoldsKey;
    RowsDecide(s, caller, w);
  }

  /** A present member who is no viewer. */
  ghost predicate WorksOn(members: seq<Member>, principal: Principal) {
    exists i :: 0 <= i < |members| && members[i].principal == principal && members[i].status == Present
                && members[i].role in {Developer, ProjectManager}
  }

  /** The generation asked for, or else the active one, may be asked for. */
  ghost predicate IsGeneration(version: int, active: int) {
    1 <= version <= active && version <= 9_007_199_254_740_991
  }

  lemma SharingDecides(s: State, caller: Principal, w: World, requested: Option<int>, recipient: Principal,
                       wrappedKey: string)
    requires K.UniqueRows(s.members)
    ensures var outcome := ShareSessionKey(s, caller, w, requested, recipient, wrappedKey);
            var active := ActiveKeyVersion(s.session);
            var version := if requested.None? then active else requested.value;
            var isIn := s.session.lifecycle != Closing && IsJoined(s.members, caller) && caller in w.access;
            var isFit := isIn && IsGeneration(version, active) && HasCopy(s.copies, caller, active)
                         && HasCopy(s.copies, caller, version);
            && (outcome.Ok? <==>
                && isFit && IsJoined(s.members, recipient)
                && recipient in w.activeDevices && recipient in w.access)
            && (outcome == Err(ClosingNow) <==> s.session.lifecycle == Closing)
            && (outcome == Err(NotJoined) <==> s.session.lifecycle != Closing && !IsJoined(s.members, caller))
            && (outcome == Err(NoProjectAccess) <==>
                s.session.lifecycle != Closing && IsJoined(s.members, caller) && caller !in w.access)
            && (outcome == Err(BadGeneration) <==> isIn && !IsGeneration(version, active))
            && (outcome == Err(SenderLacksKey) <==>
                && isIn && IsGeneration(version, active) && HasCopy(s.copies, caller, active)
                && !HasCopy(s.copies, caller, version))
            && (outcome == Err(RecipientNoAccess) <==>
                && isFit && IsJoined(s.members, recipient)
                && recipient in w.activeDevices && recipient !in w.access)
            && (outcome == Err(SenderLacksActiveKey) <==>
                isIn && IsGeneration(version, active) && !HasCopy(s.copies, caller, active))
            && (outcome == Err(RecipientNotMember) <==> isFit && !IsJoined(s.members, recipient))
            && (outcome == Err(RecipientInactive) <==>
                isFit && IsJoined(s.members, recipient) && recipient !in w.activeDevices)
            && (outcome.Ok? && HasCopy(s.copies, recipient, version) ==> outcome.value == (s, false))
            && (outcome.Ok? && !HasCopy(s.copies, recipient, version) ==>
                  && outcome.value.1
                  && outcome.value.0
                     == s.(copies := s.copies + [KeyCopy(version, recipient, caller, wrappedKey, w.now, None)]))
  {
    hide IsManager, HoldsKey;
    RowsDecide(s, caller, w);
    RowsDecide(s, recipient, w);
  }

  /** Those listed are the present members, with an active device and access, that have no copy. */
  lemma ListingDecides(s: State, caller: Principal, w: World, requested: Option<int>)
    requires K.UniqueRows(s.members)
    ensures var outcome := ListMembersNeedingSessionKey(s, caller, w, requested);
            var active := ActiveKeyVersion(s.session);
            var version := if requested.None? then active else requested.value;
            var isIn := s.session.lifecycle != Closing && IsJoined(s.members, caller) && caller in w.access;
            && (outcome == Err(BadGeneration) <==> isIn && !IsGeneration(version, active))
            && (outcome.Ok? <==> !isIn || IsGeneration(version, active))
            && (outcome.Ok? ==> forall p ::
                  p in outcome.value <==>
                  && isIn && HasCopy(s.copies, caller, active) && HasCopy(s.copies, caller, version)
                  && IsJoined(s.members, p) && p in w.activeDevices && p in w.access && !HasCopy(s.copies, p, version))
  {
    hide IsManager, HoldsKey;
    RowsDecide(s, caller, w);
    var version := RequestedVersion(s, requested);
    forall p
      ensures p in Lacking(s.members, s.copies, w, version)
              <==> && IsJoined(s.members, p) && p in w.activeDevices && p in w.access && !HasCopy(s.copies, p, version)
    {
      RowsDecide(s, p, w);
    }
  }

  /** They are listed in the order of their rows. */
  lemma {:induction false} ListedInRowOrder(members: seq<Member>, copies: seq<KeyCopy>, w: World, version: int,
                                            i: nat, j: nat, a: nat, b: nat)
    requires K.UniqueRows(members) && i < j < |Lacking(members, copies, w, version)|
    requires a < |members| && members[a].principal == Lacking(members, copies, w, version)[i]
    requires b < |members| && members[b].principal == Lacking(members, copies, w, version)[j]
    ensures a < b
    decreases |members|
  {
    var rest := members[1..];
    var isFirst := Lacks(members[0], members[0].principal, copies, w, version);
    if isFirst && i == 0 {
      K.LackingIsDistinct(members, copies, w, version);
    } else if isFirst {
      K.LackingIsDistinct(members, copies, w, version);
      var listed := Lacking(members, copies, w, version);
      assert listed[0] != listed[i] && listed[0] != listed[j];
      ListedInRowOrder(rest, copies, w, version, i - 1, j - 1, a - 1, b - 1);
    } else {
      var listed := Lacking(rest, copies, w, version);
      assert listed[i] in listed && listed[j] in listed;
      ListedInRowOrder(rest, copies, w, version, i, j, a - 1, b - 1);
    }
  }

  // ---------- Lifecycle ----------

  lemma PauseDecides(s: State, caller: Principal, w: World, force: bool)
    requires K.UniqueRows(s.members)
    ensures var outcome, mayManage := PauseSession(s, caller, w, force), MayManage(s.members, w.managers, caller);
            && (outcome.Ok? <==> mayManage && (s.session.lifecycle == Paused || force))
            && (outcome == Err(NotManager) <==> !mayManage)
            && (outcome == Err(UseDaemon) <==> mayManage && s.session.lifecycle != Paused && !force)
            && (outcome.Ok? && s.session.lifecycle == Paused ==> outcome.value.0 == s)
            && (outcome.Ok? && s.session.lifecycle != Paused ==>
                  && var t := outcome.value.0.session;
                     && t.lifecycle == Paused && Revision(t) == Revision(s.session) + 1 && t.pausedAt == Some(w.now)
                     && t.updatedAt == w.now && outcome.value.0 == s.(session := t)
                     && s.session == t.(lifecycle := s.session.lifecycle, pausedAt := s.session.pausedAt,
                                        lifecycleRevision := s.session.lifecycleRevision,
                                        updatedAt := s.session.updatedAt))
  {
    hide IsManager, HoldsKey;
    RowsDecide(s, caller, w);
  }

  lemma ResumeDecides(s: State, caller: Principal, w: World)
    requires K.UniqueRows(s.members)
    ensures var outcome, mayManage := ResumeSession(s, caller, w), MayManage(s.members, w.managers, caller);
            var canWake := s.session.lifecycle in {Creating, Active, Dormant, Paused, Blocked};
            && (outcome.Ok? <==> mayManage && canWake)
            && (outcome == Err(NotManager) <==> !mayManage)
            && (outcome == Err(IllegalTransition) <==> mayManage && !canWake)
            && (outcome.Ok? && s.session.lifecycle == Active ==> outcome.value.0 == s)
            && (outcome.Ok? && s.session.lifecycle != Active ==>
                  && var t := outcome.value.0.session;
                     && t.lifecycle == Active && Revision(t) == Revision(s.session) + 1 && t.pausedAt == None
                     && t.updatedAt == w.now && outcome.value.0 == s.(session := t)
                     && s.session == t.(lifecycle := s.session.lifecycle, pausedAt := s.session.pausedAt,
                                        lifecycleRevision := s.session.lifecycleRevision,
                                        updatedAt := s.session.updatedAt))
  {
    hide IsManager, HoldsKey;
    RowsDecide(s, caller, w);
    assert [Active][1..] == [];
  }

  lemma CloseDecides(s: State, caller: Principal, w: World, force: bool)
    requires K.UniqueRows(s.members)
    ensures var outcome, mayManage := CloseSession(s, caller, w, force), MayManage(s.members, w.managers, caller);
            && (outcome.Ok? <==> mayManage && (s.session.lifecycle == Closed || force))
            && (outcome == Err(NotManager) <==> !mayManage)
            && (outcome == Err(UseDaemon) <==> mayManage && s.session.lifecycle != Closed && !force)
            && (outcome.Ok? && s.session.lifecycle == Closed ==> outcome.value.0 == s)
  {
    hide IsManager, HoldsKey;
    RowsDecide(s, caller, w);
  }

  /** Closing sends everyone out who is there, and leaves keys and invitations alone. */
  lemma CloseWrites(s: State, caller: Principal, w: World, force: bool)
    requires CloseSession(s, caller, w, force).Ok? && s.session.lifecycle != Closed
    ensures var t := CloseSession(s, caller, w, force).value.0;
            && t == s.(session := t.session, members := t.members) && |t.members| == |s.members|
            && (forall i :: 0 <= i < |s.members| ==>
                  && (s.members[i].status == Present ==>
                        t.members[i] == s.members[i].(status := Left, leftAt := Some(w.now)))
                  && (s.members[i].status != Present ==> t.members[i] == s.members[i]))
            && t.session.lifecycle == Closed && Revision(t.session) == Revision(s.session) + 1
            && t.session.closedAt == Some(w.now) && t.session.updatedAt == w.now
            && s.session == t.session.(lifecycle := s.session.lifecycle, closedAt := s.session.closedAt,
                                       lifecycleRevision := s.session.lifecycleRevision,
                                       updatedAt := s.session.updatedAt)
  {
    hide IsManager;
  }

  ghost predicate IsHex(text: string) {
    forall i :: 0 <= i < |text| ==> text[i] in "0123456789abcdef"
  }

  /** Five groups of hexadecimal digits with dashes between, and "barrier_" with thirty-two digits. */
  ghost predicate AreNames(fenceId: string, barrierId: string) {
    && |fenceId| == 36 && |barrierId| == 40
    && fenceId[8] == fenceId[13] == fenceId[18] == fenceId[23] == '-'
    && IsHex(fenceId[..8]) && IsHex(fenceId[9..13]) && IsHex(fenceId[14..18])
    && IsHex(fenceId[19..23]) && IsHex(fenceId[24..])
    && barrierId[..8] == "barrier_" && IsHex(barrierId[8..])
  }

  ghost predicate IsPosition(n: int) {
    0 <= n <= 9_007_199_254_740_991
  }

  ghost predicate IsWellFormed(fence: Fence, principal: Principal, expectedRevision: int) {
    && fence.requestedBy == principal && AreNames(fence.fenceId, fence.barrierId)
    && IsPosition(expectedRevision) && IsPosition(fence.sessionSeq) && IsPosition(fence.createdAt)
    && IsPosition(fence.keyVersion) && fence.keyVersion != 0
    && (fence.gitSavedThroughSeq == None || 0 <= fence.gitSavedThroughSeq.value <= fence.sessionSeq)
  }

  lemma WellFormedFences(fence: Fence, principal: Principal, expectedRevision: int)
    ensures IsValidFence(fence, principal, expectedRevision) <==> IsWellFormed(fence, principal, expectedRevision)
  {
    WellFormedNames(fence.fenceId, fence.barrierId);
    hide IsFenceId, IsBarrierId, AreNames;
  }

  lemma HexDigits(text: string)
    ensures IsHex(text) <==> forall i :: 0 <= i < |text| ==> IsLowerHex(text[i])
  {
    forall c: char
      ensures c in "0123456789abcdef" <==> IsLowerHex(c)
    {
      IsHexDigit(c);
    }
  }

  lemma IsHexDigit(c: char)
    ensures c in "0123456789abcdef" <==> IsLowerHex(c)
  {
    var digits := "0123456789abcdef";
    if '0' <= c <= '9' {
      assert digits[c as int - '0' as int] == c;
    } else if 'a' <= c <= 'f' {
      assert digits[c as int - 'a' as int + 10] == c;
    }
  }

  lemma HexFrom(text: string, from: nat, to: nat)
    requires from <= to <= |text|
    ensures IsHex(text[from..to]) <==> forall i :: from <= i < to ==> IsLowerHex(text[i])
  {
    var part := text[from..to];
    HexDigits(part);
    hide IsHex, IsLowerHex;
    if forall i :: 0 <= i < |part| ==> IsLowerHex(part[i]) {
      assert forall i :: from <= i < to ==> text[i] == part[i - from];
    }
  }

  lemma WellFormedNames(fenceId: string, barrierId: string)
    ensures IsFenceId(fenceId) && IsBarrierId(barrierId) <==> AreNames(fenceId, barrierId)
  {
    hide IsHex, IsLowerHex;
    if |fenceId| == 36 && |barrierId| == 40 {
      HexFrom(fenceId, 0, 8);
      HexFrom(fenceId, 9, 13);
      HexFrom(fenceId, 14, 18);
      HexFrom(fenceId, 19, 23);
      HexFrom(fenceId, 24, 36);
      HexFrom(barrierId, 8, 40);
      assert fenceId[..8] == fenceId[0..8] && fenceId[24..] == fenceId[24..36] && barrierId[8..] == barrierId[8..40];
    }
  }

  /** A commit is asked for by a manager whose device is active and has access. */
  ghost predicate IsAttested(s: State, principal: Principal, w: World) {
    principal in w.activeDevices && principal in w.access && MayManage(s.members, w.managers, principal)
  }

  /** The fence is that of the receipt. */
  ghost predicate IsRepeat(session: Session, fence: Fence) {
    session.receipt.Some? && session.receipt.value.fence.fenceId == fence.fenceId
  }

  /** A fence that is not a repeat fits the session as it is. */
  ghost predicate Fits(session: Session, expectedRevision: int, fence: Fence) {
    && Revision(session) == expectedRevision && ActiveKeyVersion(session) == fence.keyVersion
    && session.lastDurableSeq <= fence.sessionSeq && session.lastSnapshotSeq <= fence.sessionSeq
    && session.lifecycle in (if fence.intent == Pause then {Active, Pausing}
                             else {Active, Dormant, Paused, Closing, Blocked})
  }

  lemma WalksOfCommits(from: Lifecycle, intent: Intent)
    ensures WalkLifecycle(from, StepsFor(intent))
            == if from in (if intent == Pause then {Active, Pausing} else {Active, Dormant, Paused, Closing, Blocked})
               then Ok(if intent == Pause then Paused else Closed) else Err(IllegalTransition)
  {
    F.WalkOfTwo(from, Pausing, Paused);
    F.WalkOfTwo(from, Closing, Closed);
  }

  lemma FinalizationDecides(s: State, principal: Principal, w: World, expectedRevision: int, fence: Fence)
    requires K.UniqueRows(s.members)
    ensures var outcome, session := FinalizeLifecycle(s, principal, w, expectedRevision, fence), s.session;
            var isHeard := IsAttested(s, principal, w) && IsWellFormed(fence, principal, expectedRevision);
            var isRepeat := isHeard && IsRepeat(session, fence);
            var isNew := isHeard && !IsRepeat(session, fence);
            && (outcome == Err(NotAttested) <==> !IsAttested(s, principal, w))
            && (outcome == Err(BadFence) <==> IsAttested(s, principal, w) && !isHeard)
            && (outcome == Err(ReceiptMismatch) <==>
                && isRepeat
                && session.receipt.value != Receipt(fence, expectedRevision, session.receipt.value.committedAt))
            && (isRepeat && outcome.Ok? ==> outcome.value.0 == s)
            && (isNew ==> (outcome.Ok? <==> Fits(session, expectedRevision, fence)))
            && (outcome == Err(RevisionChanged) <==> isNew && Revision(session) != expectedRevision)
            && (outcome == Err(KeyChanged) <==>
                isNew && Revision(session) == expectedRevision && ActiveKeyVersion(session) != fence.keyVersion)
            && (outcome == Err(SnapshotBehind) <==>
                && isNew && Revision(session) == expectedRevision && ActiveKeyVersion(session) == fence.keyVersion
                && (fence.sessionSeq < session.lastDurableSeq || fence.sessionSeq < session.lastSnapshotSeq))
            && (outcome == Err(IllegalTransition) <==>
                && isNew && Revision(session) == expectedRevision && ActiveKeyVersion(session) == fence.keyVersion
                && fence.sessionSeq >= session.lastDurableSeq && fence.sessionSeq >= session.lastSnapshotSeq
                && !Fits(session, expectedRevision, fence))
  {
    hide IsManager, HoldsKey, IsValidFence, IsWellFormed, WalkLifecycle, StepsFor;
    RowsDecide(s, principal, w);
    WellFormedFences(fence, principal, expectedRevision);
    WalksOfCommits(s.session.lifecycle, fence.intent);
  }

  /** What a commit that is no repeat leaves in the session. */
  lemma FinalizationWrites(s: State, principal: Principal, w: World, expectedRevision: int, fence: Fence)
    requires FinalizeLifecycle(s, principal, w, expectedRevision, fence).Ok? && !IsRepeat(s.session, fence)
    ensures var t, before := FinalizeLifecycle(s, principal, w, expectedRevision, fence).value.0.session, s.session;
            && t.lifecycle == (if fence.intent == Pause then Paused else Closed)
            && t.lastDurableSeq == t.lastSnapshotSeq == fence.sessionSeq
            && t.lastCheckpointSeq == fence.gitSavedThroughSeq
            && t.receipt == Some(Receipt(fence, expectedRevision, w.now))
            && t.lifecycleRevision == Some(expectedRevision + 1)
            && (before.lastCheckpointSeq == fence.gitSavedThroughSeq && fence.gitSavedThroughSeq.Some? ==>
                  t.lastCommitOid == before.lastCommitOid)
            && (before.lastCheckpointSeq != fence.gitSavedThroughSeq || fence.gitSavedThroughSeq == None ==>
                  t.lastCommitOid == None)
            && t.pausedAt == (if fence.intent == Pause then Some(w.now) else before.pausedAt)
            && t.closedAt == (if fence.intent == Close then Some(w.now) else before.closedAt)
            && t.updatedAt == w.now
            && t.organizationAvailable == before.organizationAvailable && t.activeKeyVersion == before.activeKeyVersion
  {
    hide IsManager, IsValidFence, WalkLifecycle, StepsFor;
    WalksOfCommits(s.session.lifecycle, fence.intent);
  }
}
