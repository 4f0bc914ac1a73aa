/**
 * The rows of one collaboration session and what each mutation does to them.
 *
 * A principal stands for a device together with its identity key. What the other tables and
 * the clock say during a call is given by a `World`. A mutation that is refused changes nothing.
 */
module SessionState {
  import opened Prelude

  type Principal = nat

  // ---------- Rows ----------

  datatype Lifecycle = Creating | Active | Dormant | Pausing | Paused | Closing | Closed | Blocked

  datatype Role = Viewer | Developer | ProjectManager

  datatype MemberStatus = Present | Left | Revoked

  datatype Member = Member(principal: Principal, role: Role, status: MemberStatus, joinedAt: int, leftAt: Option<int>)

  datatype KeyCopy = KeyCopy(
    version: int, recipient: Principal, sender: Principal, wrappedKey: string, createdAt: int, revokedAt: Option<int>)

  datatype InvitationStatus = Pending | Accepted | Declined | Withdrawn | Expired

  datatype Invitation = Invitation(
    target: Principal, role: Role, status: InvitationStatus, createdBy: Principal, expiresAt: int,
    resolvedAt: Option<int>)

  datatype Intent = Pause | Close

  datatype Fence = Fence(
    fenceId: string, intent: Intent, sessionSeq: int, barrierId: string, keyVersion: int,
    requestedBy: Principal, createdAt: int, gitSavedThroughSeq: Option<int>)

  datatype Receipt = Receipt(fence: Fence, expectedRevision: int, committedAt: int)

  datatype Session = Session(
    lifecycle: Lifecycle, organizationAvailable: bool, activeKeyVersion: Option<int>,
    lastDurableSeq: int, lastSnapshotSeq: int, lastCheckpointSeq: Option<int>, lastCommitOid: Option<string>,
    lifecycleRevision: Option<int>, receipt: Option<Receipt>,
    pausedAt: Option<int>, closedAt: Option<int>, updatedAt: int)

  datatype State = State(session: Session, members: seq<Member>, copies: seq<KeyCopy>, invitations: seq<Invitation>)

  /**
   * What a call sees outside the session: the time, who may access, edit or manage the project,
   * which devices are registered and active, whom the organization admits, and whether the
   * project is live and has a free seat.
   */
  datatype World = World(
    now: int, access: set<Principal>, editors: set<Principal>, managers: set<Principal>,
    registered: set<Principal>, activeDevices: set<Principal>, organizationAdmits: set<Principal>,
    projectIsLive: bool, seatIsFree: bool)

  datatype Refusal =
    | SessionClosed | AccessRevoked | NoProjectAccess | NotInvited | OrganizationOnly | ProjectMissing | SeatsTaken
    | NotManager | UseLeave | NotJoined | ViewerOnly | ClosingNow | BadGeneration
    | SenderLacksActiveKey | SenderLacksKey
    | RecipientNotMember | RecipientInactive | RecipientNoAccess | NotAttested | BadFence | ReceiptMismatch
    | RevisionChanged | KeyChanged | SnapshotBehind | IllegalTransition | UseDaemon
    | InvitationMissing | InvitationResolved | UnknownDevice | NotAnIdentity | NobodyNamed | AlreadyIn
    | MemberNotActive | NoOrganization

  // ---------- Lookups ----------

  /** The position of the first row for a principal. */
  function FindMember(members: seq<Member>, principal: Principal): (found: Option<nat>)
    ensures found.Some? ==> found.value < |members| && members[found.value].principal == principal
    ensures found.Some? ==> forall i :: 0 <= i < found.value ==> members[i].principal != principal
    ensures found.None? ==> forall i :: 0 <= i < |members| ==> members[i].principal != principal
    decreases |members|
  {
    if members == [] then None
    else if members[0].principal == principal then Some(0)
    else match FindMember(members[1..], principal)
      case None => None
      case Some(i) => assert members[1..][i] == members[i + 1]; Some(i + 1)
  }

  lemma FindsFirst(members: seq<Member>, i: nat, principal: Principal)
    requires i < |members| && members[i].principal == principal
    requires forall j :: 0 <= j < i ==> members[j].principal != principal
    ensures FindMember(members, principal) == Some(i)
  {
  }

  predicate IsPresent(members: seq<Member>, principal: Principal) {
    var found := FindMember(members, principal);
    found.Some? && members[found.value].status == Present
  }

  predicate HasPresentMembers(members: seq<Member>) {
    exists i :: 0 <= i < |members| && members[i].status == Present
  }

  predicate IsManager(s: State, caller: Principal, w: World) {
    || (IsPresent(s.members, caller) && s.members[FindMember(s.members, caller).value].role == ProjectManager)
    || caller in w.managers
  }

  predicate IsClosedOrClosing(session: Session) {
    session.lifecycle == Closed || session.lifecycle == Closing
  }

  const INITIAL_KEY_VERSION := 1

  function ActiveKeyVersion(session: Session): int {
    match session.activeKeyVersion
    case None => INITIAL_KEY_VERSION
    case Some(version) => if version < INITIAL_KEY_VERSION then INITIAL_KEY_VERSION else version
  }

  function Revision(session: Session): int {
    match session.lifecycleRevision
    case None => 0
    case Some(revision) => revision
  }

  /** A principal has an unrevoked copy of a key generation. */
  predicate HoldsKey(copies: seq<KeyCopy>, principal: Principal, version: int) {
    exists i :: 0 <= i < |copies| && copies[i].recipient == principal && copies[i].version == version
                && copies[i].revokedAt == None
  }

  predicate KeyExists(copies: seq<KeyCopy>, version: int) {
    exists i :: 0 <= i < |copies| && copies[i].version == version
  }

  predicate IsOpenFor(invitation: Invitation, principal: Principal, now: int) {
    invitation.status == Pending && now < invitation.expiresAt && invitation.target == principal
  }

  /** The first pending, unexpired invitation for a principal. */
  function FindInvitation(invitations: seq<Invitation>, principal: Principal, now: int): (found: Option<nat>)
    ensures found.Some? ==> found.value < |invitations| && invitations[found.value].target == principal
                            && invitations[found.value].status == Pending && now < invitations[found.value].expiresAt
    ensures found.None? ==> forall i :: 0 <= i < |invitations| ==> !IsOpenFor(invitations[i], principal, now)
    decreases |invitations|
  {
    if invitations == [] then None
    else if IsOpenFor(invitations[0], principal, now) then Some(0)
    else match FindInvitation(invitations[1..], principal, now)
      case None => assert forall i :: 0 < i < |invitations| ==> invitations[i] == invitations[1..][i - 1]; None
      case Some(i) => assert invitations[1..][i] == invitations[i + 1]; Some(i + 1)
  }

  // ---------- Lifecycle ----------

  predicate CanTransition(from: Lifecycle, to: Lifecycle) {
    || from == to
    || match from
       case Creating => to in {Active, Blocked, Closed}
       case Active => to in {Dormant, Pausing, Closing, Blocked}
       case Dormant => to in {Active, Closing, Blocked}
       case Pausing => to in {Paused, Blocked}
       case Paused => to in {Active, Closing, Blocked}
       case Closing => to in {Closed, Blocked}
       case Closed => false
       case Blocked => to in {Active, Dormant, Closing, Closed}
  }

  /** Where a walk through the given lifecycles ends, if every step of it is legal. */
  function WalkLifecycle(from: Lifecycle, steps: seq<Lifecycle>): Result<Lifecycle, Refusal>
    decreases |steps|
  {
    if steps == [] then Ok(from)
    else if CanTransition(from, steps[0]) then WalkLifecycle(steps[0], steps[1..])
    else Err(IllegalTransition)
  }

  /** A lifecycle of a walk may follow the one before it. */
  ghost predicate IsLegalStep(from: Lifecycle, steps: seq<Lifecycle>, i: nat)
    requires i < |steps|
  {
    CanTransition(if i == 0 then from else steps[i - 1], steps[i])
  }

  ghost predicate IsLegalWalk(from: Lifecycle, steps: seq<Lifecycle>) {
    forall i: nat :: i < |steps| ==> IsLegalStep(from, steps, i)
  }

  /** A walk is accepted exactly when it is legal step by step, and then ends at its last step. */
  lemma {:induction false} WalksAreLegal(from: Lifecycle, steps: seq<Lifecycle>)
    ensures WalkLifecycle(from, steps)
            == if IsLegalWalk(from, steps) then Ok(if steps == [] then from else steps[|steps| - 1])
               else Err(IllegalTransition)
    decreases |steps|
  {
    hide CanTransition;
    if steps != [] {
      var rest := steps[1..];
      WalksAreLegal(steps[0], rest);
      assert IsLegalStep(from, steps, 0) <==> CanTransition(from, steps[0]);
      forall i: nat | i < |rest|
        ensures IsLegalStep(steps[0], rest, i) <==> IsLegalStep(from, steps, i + 1)
      {
      }
      forall i: nat | 0 < i < |steps|
        ensures IsLegalStep(from, steps, i) <==> IsLegalStep(steps[0], rest, i - 1)
      {
      }
    }
  }

  function Woken(session: Session, now: int): Session {
    if session.lifecycle == Dormant then session.(lifecycle := Active, updatedAt := now) else session
  }

  function Settled(session: Session, members: seq<Member>, now: int): Session {
    if session.lifecycle == Active && !HasPresentMembers(members)
    then session.(lifecycle := Dormant, updatedAt := now) else session
  }

  // ---------- Membership mutations ----------

  function Create(caller: Principal, organizationAvailable: bool, now: int): State {
    State(Session(Active, organizationAvailable, Some(INITIAL_KEY_VERSION),
                  0, 0, None, None, None, None, None, None, now),
          [Member(caller, ProjectManager, Present, now, None)], [], [])
  }

  function Rejoined(member: Member, now: int): Member {
    member.(status := Present, joinedAt := now, leftAt := None)
  }

  function ResolvedAs(invitation: Invitation, status: InvitationStatus, now: int): Invitation {
    invitation.(status := status, resolvedAt := Some(now))
  }

  /** Why project access cannot be ensured for a principal, if it cannot. */
  function AccessRefusal(principal: Principal, w: World): Option<Refusal> {
    if !w.projectIsLive then Some(ProjectMissing)
    else if principal in w.access || w.seatIsFree then None
    else Some(SeatsTaken)
  }

  function DefaultRole(principal: Principal, w: World): Role {
    if principal in w.editors then Developer else Viewer
  }

  function Admit(s: State, principal: Principal, role: Role, invitations: seq<Invitation>, w: World): State {
    s.(session := Woken(s.session, w.now),
       members := s.members + [Member(principal, role, Present, w.now, None)],
       invitations := invitations)
  }

  function Join(s: State, caller: Principal, w: World): Result<(State, ()), Refusal> {
    if IsClosedOrClosing(s.session) then Err(SessionClosed)
    else match FindMember(s.members, caller)
      case Some(i) =>
        if s.members[i].status == Revoked then Err(AccessRevoked)
        else if caller !in w.access then Err(NoProjectAccess)
        else
          var members := if s.members[i].status == Left then s.members[i := Rejoined(s.members[i], w.now)]
                         else s.members;
          Ok((s.(session := Woken(s.session, w.now), members := members), ()))
      case None =>
        if s.session.organizationAvailable then
          if caller !in w.organizationAdmits then Err(OrganizationOnly)
          else Ok((Admit(s, caller, DefaultRole(caller, w), s.invitations, w), ()))
        else if caller in w.access then
          Ok((Admit(s, caller, DefaultRole(caller, w), s.invitations, w), ()))
        else match FindInvitation(s.invitations, caller, w.now)
          case None => Err(NotInvited)
          case Some(k) =>
            var refusal := AccessRefusal(caller, w);
            if refusal.Some? then Err(refusal.value)
            else
              var invitation := s.invitations[k];
              var invitations := s.invitations[k := ResolvedAs(invitation, Accepted, w.now)];
              Ok((Admit(s, caller, invitation.role, invitations, w), ()))
  }

  function Leave(s: State, caller: Principal, w: World): Result<(State, ()), Refusal> {
    if !IsPresent(s.members, caller) then Ok((s, ()))
    else
      var i := FindMember(s.members, caller).value;
      var members := s.members[i := s.members[i].(status := Left, leftAt := Some(w.now))];
      Ok((s.(session := Settled(s.session, members, w.now), members := members), ()))
  }

  function UpdateMemberRole(s: State, caller: Principal, w: World, target: Principal, role: Role)
    : Result<(State, ()), Refusal>
  {
    if IsClosedOrClosing(s.session) then Err(SessionClosed)
    else if !IsManager(s, caller, w) then Err(NotManager)
    else if !IsPresent(s.members, target) then Err(MemberNotActive)
    else
      var i := FindMember(s.members, target).value;
      Ok((s.(members := s.members[i := s.members[i].(role := role)]), ()))
  }

  function UpdateAccessMode(s: State, caller: Principal, w: World, organizationAvailable: bool, inOrganization: bool)
    : Result<(State, ()), Refusal>
  {
    if IsClosedOrClosing(s.session) then Err(SessionClosed)
    else if !IsManager(s, caller, w) then Err(NotManager)
    else if s.session.organizationAvailable == organizationAvailable then Ok((s, ()))
    else if organizationAvailable && !(w.projectIsLive && inOrganization) then Err(NoOrganization)
    else Ok((s.(session := s.session.(organizationAvailable := organizationAvailable, updatedAt := w.now)), ()))
  }

  const INVITATION_TTL_MS := 7 * 24 * 60 * 60 * 1000

  /** An identity key as it is typed: none, something that is no key, or the key of a device. */
  datatype GivenKey = NoKey | MalformedKey | KeyOf(owner: Principal)

  /** Whom an invitation is for. A device named by its key alone need not be registered. */
  function Invitee(device: Option<Principal>, key: GivenKey, w: World): Result<Principal, Refusal> {
    if key.MalformedKey? then Err(NotAnIdentity)
    else if device.Some? then (if device.value in w.registered then Ok(device.value) else Err(UnknownDevice))
    else if key.KeyOf? then Ok(key.owner)
    else Err(NobodyNamed)
  }

  function InviteParticipant(s: State, caller: Principal, w: World, device: Option<Principal>, key: GivenKey,
                             role: Role)
    : Result<(State, bool), Refusal>
  {
    if IsClosedOrClosing(s.session) then Err(SessionClosed)
    else if !IsManager(s, caller, w) then Err(NotManager)
    else match Invitee(device, key, w)
      case Err(refusal) => Err(refusal)
      case Ok(target) =>
        if target == caller then Err(AlreadyIn)
        else if FindInvitation(s.invitations, target, w.now).Some? then Ok((s, true))
        else
          var invitation := Invitation(target, role, Pending, caller, w.now + INVITATION_TTL_MS, None);
          Ok((s.(invitations := s.invitations + [invitation]), false))
  }

  function ResolveInvitation(s: State, caller: Principal, w: World, index: nat, accept: bool)
    : Result<(State, InvitationStatus), Refusal>
  {
    if index >= |s.invitations| || s.invitations[index].target != caller then Err(InvitationMissing)
    else
      var invitation := s.invitations[index];
      if invitation.status != Pending then Err(InvitationResolved)
      else if invitation.expiresAt <= w.now then
        Ok((s.(invitations := s.invitations[index := ResolvedAs(invitation, Expired, w.now)]), Expired))
      else if !accept then
        Ok((s.(invitations := s.invitations[index := ResolvedAs(invitation, Declined, w.now)]), Declined))
      else if IsClosedOrClosing(s.session) then Err(SessionClosed)
      else
        var found := FindMember(s.members, caller);
        if found.Some? && s.members[found.value].status == Revoked then Err(AccessRevoked)
        else
          var refusal := AccessRefusal(caller, w);
          if refusal.Some? then Err(refusal.value)
          else
            var invitations := s.invitations[index := ResolvedAs(invitation, Accepted, w.now)];
            match found
            case None => Ok((Admit(s, caller, invitation.role, invitations, w), Accepted))
            case Some(i) =>
              var members := if s.members[i].status != Present then s.members[i := Rejoined(s.members[i], w.now)]
                             else s.members;
              Ok((s.(session := Woken(s.session, w.now), members := members, invitations := invitations), Accepted))
  }

  function RevokedMember(member: Member, now: int): Member {
    member.(status := Revoked, leftAt := if member.leftAt.Some? then member.leftAt else Some(now))
  }

  /** The copies after every unrevoked one of the target's has been stamped. */
  function WithCopiesRevoked(copies: seq<KeyCopy>, target: Principal, now: int): (stamped: seq<KeyCopy>) {
    seq(|copies|, i requires 0 <= i < |copies| =>
      if copies[i].recipient == target && copies[i].revokedAt == None then copies[i].(revokedAt := Some(now))
      else copies[i])
  }

  function WithInvitationsWithdrawn(invitations: seq<Invitation>, target: Principal, now: int): seq<Invitation> {
    seq(|invitations|, i requires 0 <= i < |invitations| =>
      if invitations[i].status == Pending && invitations[i].target == target
      then ResolvedAs(invitations[i], Withdrawn, now) else invitations[i])
  }

  /** Removes a member for good, and moves the session to a key generation it never receives. */
  function RevokeMember(s: State, caller: Principal, w: World, target: Principal): Result<(State, int), Refusal> {
    if !IsManager(s, caller, w) then Err(NotManager)
    else if target == caller then Err(UseLeave)
    else
      var found := FindMember(s.members, target);
      var rotates := found.Some? && s.members[found.value].status != Revoked;
      var version := ActiveKeyVersion(s.session) + if rotates then 1 else 0;
      var members := if rotates then s.members[found.value := RevokedMember(s.members[found.value], w.now)]
                     else s.members;
      var session := if rotates then s.session.(activeKeyVersion := Some(version), updatedAt := w.now) else s.session;
      Ok((State(Settled(session, members, w.now), members,
                WithCopiesRevoked(s.copies, target, w.now),
                WithInvitationsWithdrawn(s.invitations, target, w.now)), version))
  }

  // ---------- Key mutations ----------

  function InitializeSessionKey(s: State, caller: Principal, w: World,
                                wrappedKey: string): Result<(State, bool), Refusal> {
    if IsClosedOrClosing(s.session) then Err(SessionClosed)
    else if !IsPresent(s.members, caller) then Err(NotJoined)
    else if s.members[FindMember(s.members, caller).value].role == Viewer then Err(ViewerOnly)
    else
      var version := ActiveKeyVersion(s.session);
      if KeyExists(s.copies, version) then Ok((s, false))
      else Ok((s.(copies := s.copies + [KeyCopy(version, caller, caller, wrappedKey, w.now, None)]), true))
  }

  const MAX_SAFE_INTEGER := 0x20_0000_0000_0000 - 1

  predicate IsSafeInteger(n: int) {
    -MAX_SAFE_INTEGER <= n <= MAX_SAFE_INTEGER
  }

  function RequestedVersion(s: State, version: Option<int>): int {
    if version.Some? then version.value else ActiveKeyVersion(s.session)
  }

  /** What the sender must satisfy before the recipient is looked at. */
  function SenderRefusal(s: State, caller: Principal, w: World, version: int): Option<Refusal> {
    if s.session.lifecycle == Closing then Some(ClosingNow)
    else if !IsPresent(s.members, caller) then Some(NotJoined)
    else if caller !in w.access then Some(NoProjectAccess)
    else if !IsSafeInteger(version) || version < 1 || version > ActiveKeyVersion(s.session) then Some(BadGeneration)
    else if !HoldsKey(s.copies, caller, ActiveKeyVersion(s.session)) then Some(SenderLacksActiveKey)
    else if !HoldsKey(s.copies, caller, version) then Some(SenderLacksKey)
    else None
  }

  function ShareSessionKey(s: State, caller: Principal, w: World, requested: Option<int>, recipient: Principal,
                           wrappedKey: string)
    : Result<(State, bool), Refusal>
  {
    var version := RequestedVersion(s, requested);
    var refusal := SenderRefusal(s, caller, w, version);
    if refusal.Some? then Err(refusal.value)
    else if !IsPresent(s.members, recipient) then Err(RecipientNotMember)
    else if recipient !in w.activeDevices then Err(RecipientInactive)
    else if recipient !in w.access then Err(RecipientNoAccess)
    else if HoldsKey(s.copies, recipient, version) then Ok((s, false))
    else Ok((s.(copies := s.copies + [KeyCopy(version, recipient, caller, wrappedKey, w.now, None)]), true))
  }

  predicate Lacks(member: Member, principal: Principal, copies: seq<KeyCopy>, w: World, version: int) {
    && member.principal == principal && member.status == Present
    && principal in w.activeDevices && principal in w.access && !HoldsKey(copies, principal, version)
  }

  /** Present members with an active device and project access that lack a copy, in row order. */
  function Lacking(members: seq<Member>, copies: seq<KeyCopy>, w: World, version: int): (lacking: seq<Principal>)
    ensures forall p :: p in lacking <==> (exists i :: 0 <= i < |members| && Lacks(members[i], p, copies, w, version))
    decreases |members|
  {
    if members == [] then []
    else
      var rest := Lacking(members[1..], copies, w, version);
      var member := members[0];
      assert members == [member] + members[1..];
      if Lacks(member, member.principal, copies, w, version) then [member.principal] + rest else rest
  }

  /** The devices the caller could share a generation with. A caller not fit to share sees none. */
  function ListMembersNeedingSessionKey(s: State, caller: Principal, w: World, requested: Option<int>)
    : Result<seq<Principal>, Refusal>
  {
    if s.session.lifecycle == Closing || caller !in w.access || !IsPresent(s.members, caller) then Ok([])
    else
      var active := ActiveKeyVersion(s.session);
      var version := RequestedVersion(s, requested);
      if !IsSafeInteger(version) || version < 1 || version > active then Err(BadGeneration)
      else if !HoldsKey(s.copies, caller, active) || !HoldsKey(s.copies, caller, version) then Ok([])
      else Ok(Lacking(s.members, s.copies, w, version))
  }

  // ---------- Lifecycle mutations ----------

  predicate IsLowerHex(c: char) {
    '0' <= c <= '9' || 'a' <= c <= 'f'
  }

  /** Groups of 8, 4, 4, 4 and 12 hexadecimal digits. */
  predicate IsFenceId(id: string) {
    |id| == 36 && forall i :: 0 <= i < 36 ==> if i in {8, 13, 18, 23} then id[i] == '-' else IsLowerHex(id[i])
  }

  predicate IsBarrierId(id: string) {
    |id| == 40 && id[..8] == "barrier_" && forall i :: 8 <= i < 40 ==> IsLowerHex(id[i])
  }

  predicate IsCount(n: int) {
    IsSafeInteger(n) && n >= 0
  }

  predicate IsValidFence(fence: Fence, principal: Principal, expectedRevision: int) {
    && fence.requestedBy == principal
    && IsFenceId(fence.fenceId) && IsBarrierId(fence.barrierId)
    && IsCount(expectedRevision) && IsCount(fence.sessionSeq) && IsCount(fence.createdAt)
    && IsSafeInteger(fence.keyVersion) && fence.keyVersion >= 1
    && (fence.gitSavedThroughSeq.Some? ==>
          IsCount(fence.gitSavedThroughSeq.value) && fence.gitSavedThroughSeq.value <= fence.sessionSeq)
  }

  /** The lifecycles a commit goes through. */
  function StepsFor(intent: Intent): seq<Lifecycle> {
    if intent == Pause then [Pausing, Paused] else [Closing, Closed]
  }

  datatype Commit = Commit(revision: int, superseded: bool)

  function Committed(session: Session, fence: Fence, expectedRevision: int, lifecycle: Lifecycle, now: int): Session {
    session.(
      lifecycle := lifecycle,
      lifecycleRevision := Some(Revision(session) + 1),
      receipt := Some(Receipt(fence, expectedRevision, now)),
      lastDurableSeq := fence.sessionSeq, lastSnapshotSeq := fence.sessionSeq,
      lastCheckpointSeq := fence.gitSavedThroughSeq,
      lastCommitOid := if session.lastCheckpointSeq.Some? && session.lastCheckpointSeq == fence.gitSavedThroughSeq
                       then session.lastCommitOid else None,
      pausedAt := if fence.intent == Pause then Some(now) else session.pausedAt,
      closedAt := if fence.intent == Close then Some(now) else session.closedAt,
      updatedAt := now)
  }

  /** Records that the room has fenced admission at a durable snapshot. Replaying a commit is harmless. */
  function FinalizeLifecycle(s: State, principal: Principal, w: World, expectedRevision: int, fence: Fence)
    : Result<(State, Commit), Refusal>
  {
    var revision := Revision(s.session);
    var receipt := s.session.receipt;
    if principal !in w.activeDevices || !IsManager(s, principal, w) || principal !in w.access then Err(NotAttested)
    else if !IsValidFence(fence, principal, expectedRevision) then Err(BadFence)
    else if receipt.Some? && receipt.value.fence.fenceId == fence.fenceId then
      if receipt.value.expectedRevision != expectedRevision || receipt.value.fence != fence then Err(ReceiptMismatch)
      else Ok((s, Commit(revision, revision != expectedRevision + 1)))
    else if revision != expectedRevision then Err(RevisionChanged)
    else if ActiveKeyVersion(s.session) != fence.keyVersion then Err(KeyChanged)
    else if fence.sessionSeq < s.session.lastDurableSeq || fence.sessionSeq < s.session.lastSnapshotSeq
    then Err(SnapshotBehind)
    else match WalkLifecycle(s.session.lifecycle, StepsFor(fence.intent))
      case Err(refusal) => Err(refusal)
      case Ok(lifecycle) =>
        Ok((s.(session := Committed(s.session, fence, expectedRevision, lifecycle, w.now)),
            Commit(revision + 1, false)))
  }

  function PauseSession(s: State, caller: Principal, w: World, force: bool): Result<(State, ()), Refusal> {
    if !IsManager(s, caller, w) then Err(NotManager)
    else if s.session.lifecycle == Paused then Ok((s, ()))
    else if !force then Err(UseDaemon)
    else Ok((s.(session := s.session.(
      lifecycle := Paused, pausedAt := Some(w.now), lifecycleRevision := Some(Revision(s.session) + 1),
      updatedAt := w.now)), ()))
  }

  function ResumeSession(s: State, caller: Principal, w: World): Result<(State, ()), Refusal> {
    if !IsManager(s, caller, w) then Err(NotManager)
    else if s.session.lifecycle == Active then Ok((s, ()))
    else match WalkLifecycle(s.session.lifecycle, [Active])
      case Err(refusal) => Err(refusal)
      case Ok(lifecycle) => Ok((s.(session := s.session.(
        lifecycle := lifecycle, pausedAt := None, lifecycleRevision := Some(Revision(s.session) + 1),
        updatedAt := w.now)), ()))
  }

  function WithEveryoneLeft(members: seq<Member>, now: int): seq<Member> {
    seq(|members|, i requires 0 <= i < |members| =>
      if members[i].status == Present then members[i].(status := Left, leftAt := Some(now)) else members[i])
  }

  function CloseSession(s: State, caller: Principal, w: World, force: bool): Result<(State, ()), Refusal> {
    if !IsManager(s, caller, w) then Err(NotManager)
    else if s.session.lifecycle == Closed then Ok((s, ()))
    else if !force then Err(UseDaemon)
    else Ok((s.(
      session := s.session.(
        lifecycle := Closed, lifecycleRevision := Some(Revision(s.session) + 1), closedAt := Some(w.now),
        updatedAt := w.now),
      members := WithEveryoneLeft(s.members, w.now)), ()))
  }

  // ---------- Runs ----------

  datatype Mutation =
    | DoJoin | DoLeave
    | DoUpdateMemberRole(target: Principal, role: Role)
    | DoUpdateAccessMode(organizationAvailable: bool, inOrganization: bool)
    | DoInvite(device: Option<Principal>, key: GivenKey, role: Role)
    | DoResolveInvitation(index: nat, accept: bool)
    | DoRevoke(target: Principal)
    | DoInitializeKey(wrappedKey: string)
    | DoShareKey(requested: Option<int>, recipient: Principal, wrappedKey: string)
    | DoFinalize(expectedRevision: int, fence: Fence)
    | DoPause(force: bool) | DoResume | DoClose(force: bool)

  datatype Call = Call(caller: Principal, world: World, mutation: Mutation)

  function StateAfter<R>(s: State, outcome: Result<(State, R), Refusal>): State {
    if outcome.Ok? then outcome.value.0 else s
  }

  function Next(s: State, call: Call): State {
    var Call(c, w, m) := call;
    match m
    case DoJoin => StateAfter(s, Join(s, c, w))
    case DoLeave => StateAfter(s, Leave(s, c, w))
    case DoUpdateMemberRole(target, role) => StateAfter(s, UpdateMemberRole(s, c, w, target, role))
    case DoUpdateAccessMode(available, inOrganization) =>
      StateAfter(s, UpdateAccessMode(s, c, w, available, inOrganization))
    case DoInvite(device, key, role) => StateAfter(s, InviteParticipant(s, c, w, device, key, role))
    case DoResolveInvitation(index, accept) => StateAfter(s, ResolveInvitation(s, c, w, index, accept))
    case DoRevoke(target) => StateAfter(s, RevokeMember(s, c, w, target))
    case DoInitializeKey(wrappedKey) => StateAfter(s, InitializeSessionKey(s, c, w, wrappedKey))
    case DoShareKey(requested, recipient, wrappedKey) =>
      StateAfter(s, ShareSessionKey(s, c, w, requested, recipient, wrappedKey))
    case DoFinalize(expectedRevision, fence) => StateAfter(s, FinalizeLifecycle(s, c, w, expectedRevision, fence))
    case DoPause(force) => StateAfter(s, PauseSession(s, c, w, force))
    case DoResume => StateAfter(s, ResumeSession(s, c, w))
    case DoClose(force) => StateAfter(s, CloseSession(s, c, w, force))
  }

  /** The state after a run of calls. */
  function Run(s: State, calls: seq<Call>): State
    decreases |calls|
  {
    if calls == [] then s else Next(Run(s, calls[..|calls| - 1]), calls[|calls| - 1])
  }
}
