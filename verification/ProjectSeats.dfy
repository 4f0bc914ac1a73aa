/**
 * The seats of one project: members, invitations that are still open, and join links. A seat is
 * spoken for by a member or by an invitation that has not run out.
 */
module ProjectSeats {
  import opened Prelude

  type Principal = nat
  type Id = nat

  const MAX_PROJECT_USERS := 5
  const ENROLLMENT_TTL_MS := 7 * 24 * 60 * 60000

  datatype Role = ProjectManager | Developer | Designer | Viewer

  datatype Member = Member(principal: Principal, role: Role)

  datatype EnrollmentStatus = Pending | Accepted | Rejected | Cancelled

  datatype Enrollment = Enrollment(id: Id, target: Principal, role: Role, status: EnrollmentStatus, expiresAt: int)

  datatype Link = Link(id: Id, token: string, role: Role, active: bool, useCount: nat, updatedAt: int)

  datatype State = State(
    live: bool, creator: Principal, members: seq<Member>, enrollments: seq<Enrollment>, links: seq<Link>, nextId: Id)

  datatype SeatError =
    | NotManager | InvalidDeviceId | HasAccess | ProjectFull | NotAvailable | HasExpired | NotFound
    | OwnRole | LastManager | InvalidLink | NoToken | ProjectGone

  // ---------- Counting seats ----------

  predicate IsOpen(e: Enrollment, now: int) {
    e.status == Pending && e.expiresAt > now
  }

  function OpenCount(enrollments: seq<Enrollment>, now: int): nat {
    if enrollments == [] then 0 else (if IsOpen(enrollments[0], now) then 1 else 0) + OpenCount(enrollments[1..], now)
  }

  /** Members, and invitations that have not expired. */
  function Seats(s: State, now: int): nat {
    |s.members| + OpenCount(s.enrollments, now)
  }

  predicate HasSeat(s: State, now: int) {
    Seats(s, now) + 1 <= MAX_PROJECT_USERS
  }

  lemma {:induction false} OpenCountAppends(enrollments: seq<Enrollment>, e: Enrollment, now: int)
    ensures OpenCount(enrollments + [e], now) == OpenCount(enrollments, now) + (if IsOpen(e, now) then 1 else 0)
  {
    if enrollments == [] {
      assert (enrollments + [e])[1..] == [];
    } else {
      assert (enrollments + [e])[1..] == enrollments[1..] + [e];
      OpenCountAppends(enrollments[1..], e, now);
    }
  }

  lemma {:induction false} OpenCountUpdates(enrollments: seq<Enrollment>, i: nat, e: Enrollment, now: int)
    requires i < |enrollments|
    ensures OpenCount(enrollments[i := e], now)
            == OpenCount(enrollments, now) - (if IsOpen(enrollments[i], now) then 1 else 0)
               + (if IsOpen(e, now) then 1 else 0)
  {
    if i == 0 {
      assert enrollments[0 := e][1..] == enrollments[1..];
    } else {
      assert enrollments[i := e][1..] == enrollments[1..][i - 1 := e];
      OpenCountUpdates(enrollments[1..], i - 1, e, now);
    }
  }

  /** Invitations only run out as time goes on. */
  lemma {:induction false} OpenCountShrinks(enrollments: seq<Enrollment>, now: int, later: int)
    requires now <= later
    ensures OpenCount(enrollments, later) <= OpenCount(enrollments, now)
  {
    if enrollments != [] {
      OpenCountShrinks(enrollments[1..], now, later);
    }
  }

  // ---------- Members ----------

  function FindMember(members: seq<Member>, principal: Principal): (i: Option<nat>)
    ensures i.Some? ==> i.value < |members| && members[i.value].principal == principal
    ensures i.None? ==> forall m :: m in members ==> m.principal != principal
  {
    if members == [] then None
    else
      assert members == [members[0]] + members[1..];
      if members[0].principal == principal then Some(0)
      else
        match FindMember(members[1..], principal)
        case None => None
        case Some(i) => Some(i + 1)
  }

  function Managers(members: seq<Member>): nat {
    if members == [] then 0 else (if members[0].role == ProjectManager then 1 else 0) + Managers(members[1..])
  }

  lemma {:induction false} ManagersAppend(members: seq<Member>, m: Member)
    ensures Managers(members + [m]) == Managers(members) + (if m.role == ProjectManager then 1 else 0)
  {
    if members == [] {
      assert (members + [m])[1..] == [];
    } else {
      assert (members + [m])[1..] == members[1..] + [m];
      ManagersAppend(members[1..], m);
    }
  }

  lemma {:induction false} ManagersUpdate(members: seq<Member>, i: nat, m: Member)
    requires i < |members|
    ensures Managers(members[i := m])
            == Managers(members) - (if members[i].role == ProjectManager then 1 else 0)
               + (if m.role == ProjectManager then 1 else 0)
  {
    if i == 0 {
      assert members[0 := m][1..] == members[1..];
    } else {
      assert members[i := m][1..] == members[1..][i - 1 := m];
      ManagersUpdate(members[1..], i - 1, m);
    }
  }

  function Drop(members: seq<Member>, i: nat): seq<Member>
    requires i < |members|
  {
    members[..i] + members[i + 1..]
  }

  lemma {:induction false} ManagersDrop(members: seq<Member>, i: nat)
    requires i < |members|
    ensures Managers(Drop(members, i)) == Managers(members) - (if members[i].role == ProjectManager then 1 else 0)
  {
    if i == 0 {
      assert Drop(members, 0) == members[1..];
    } else {
      assert Drop(members, i)[1..] == Drop(members[1..], i - 1);
      ManagersDrop(members[1..], i - 1);
    }
  }

  ghost predicate OnePerPrincipal(members: seq<Member>) {
    forall i, j :: 0 <= i < j < |members| ==> members[i].principal != members[j].principal
  }

  // ---------- What the rows say ----------

  ghost predicate IsMember(members: seq<Member>, principal: Principal) {
    exists i :: 0 <= i < |members| && members[i].principal == principal
  }

  ghost predicate IsProjectManager(members: seq<Member>, principal: Principal) {
    exists i :: 0 <= i < |members| && members[i].principal == principal && members[i].role == ProjectManager
  }

  /** Which invitations have a seat: those that are pending and not yet at their expiry. */
  ghost function OpenRows(enrollments: seq<Enrollment>, now: int): set<int> {
    set i | 0 <= i < |enrollments| && enrollments[i].status == Pending && now < enrollments[i].expiresAt
  }

  /** A project has five seats, and one of them is free. */
  ghost predicate HasRoom(members: seq<Member>, enrollments: seq<Enrollment>, now: int) {
    |members| + |OpenRows(enrollments, now)| <= 4
  }

  ghost predicate Manages(s: State, caller: Principal, isOrgAdmin: bool) {
    s.live && (caller == s.creator || isOrgAdmin || IsProjectManager(s.members, caller))
  }

  ghost predicate HasAccessTo(s: State, caller: Principal, isOrgMember: bool) {
    s.live && (caller == s.creator || isOrgMember || IsMember(s.members, caller))
  }

  ghost predicate IsLinked(links: seq<Link>, token: string) {
    token != "" && exists i :: 0 <= i < |links| && links[i].token == token && links[i].active
  }

  lemma OneMoreRow(front: seq<Enrollment>, e: Enrollment, now: int)
    ensures |OpenRows(front + [e], now)| == |OpenRows(front, now)| + (if IsOpen(e, now) then 1 else 0)
  {
    var all := front + [e];
    assert forall i :: 0 <= i < |front| ==> all[i] == front[i];
    assert OpenRows(all, now) == OpenRows(front, now) + (if IsOpen(e, now) then {|front|} else {});
  }

  lemma {:induction false} OpenRowsAreCounted(enrollments: seq<Enrollment>, now: int)
    ensures OpenCount(enrollments, now) == |OpenRows(enrollments, now)|
    decreases |enrollments|
  {
    if enrollments != [] {
      hide OpenRows, IsOpen, OpenCount;
      var last := |enrollments| - 1;
      var front := enrollments[..last];
      OpenRowsAreCounted(front, now);
      OpenCountAppends(front, enrollments[last], now);
      OneMoreRow(front, enrollments[last], now);
      assert enrollments == front + [enrollments[last]];
    }
  }

  lemma {:induction false} ManagersAreThere(members: seq<Member>)
    ensures Managers(members) > 0 <==> exists i :: 0 <= i < |members| && members[i].role == ProjectManager
  {
    if members != [] {
      ManagersAreThere(members[1..]);
      assert forall i :: 0 < i < |members| ==> members[i] == members[1..][i - 1];
    }
  }

  lemma SeatsAreCounted(s: State, now: int)
    ensures HasSeat(s, now) <==> HasRoom(s.members, s.enrollments, now)
  {
    OpenRowsAreCounted(s.enrollments, now);
  }

  lemma RowsDecide(s: State, caller: Principal, byOrganization: bool, clock: int, now: int)
    requires IsSound(s, clock)
    ensures FindMember(s.members, caller).Some? <==> IsMember(s.members, caller)
    ensures MayManage(s, caller, byOrganization) <==> Manages(s, caller, byOrganization)
    ensures var i := FindMember(s.members, caller);
            i.Some? && s.members[i.value].role == ProjectManager <==> IsProjectManager(s.members, caller)
    ensures HasSeat(s, now) <==> HasRoom(s.members, s.enrollments, now)
  {
    SeatsAreCounted(s, now);
    hide HasSeat, HasRoom;
    if IsMember(s.members, caller) {
      var i :| 0 <= i < |s.members| && s.members[i].principal == caller;
      assert s.members[i] in s.members;
    }
  }

  lemma LinkDecides(links: seq<Link>, token: string)
    requires DistinctTokens(links)
    ensures IsLinked(links, token) <==>
            && var i := FindToken(links, token);
               token != "" && i.Some? && links[i.value].active
  {
  }

  // ---------- What a mutation may do ----------

  ghost predicate Admits(before: State, after: State, m: Member, now: int) {
    && FindMember(before.members, m.principal).None? && HasSeat(before, now)
    && after == before.(members := before.members + [m], links := after.links)
  }

  ghost predicate Enrolls(before: State, after: State, e: Enrollment, now: int) {
    && HasSeat(before, now) && e.id == before.nextId && e.status == Pending
    && after == before.(enrollments := before.enrollments + [e], nextId := before.nextId + 1)
  }

  function Settled(s: State, i: nat, status: EnrollmentStatus): State
    requires i < |s.enrollments|
  {
    s.(enrollments := s.enrollments[i := s.enrollments[i].(status := status)])
  }

  ghost predicate Settles(before: State, after: State, i: nat, status: EnrollmentStatus) {
    && i < |before.enrollments| && before.enrollments[i].status == Pending
    && status != Pending && after == Settled(before, i, status)
  }

  /** A change of role, which leaves a manager. */
  ghost predicate ChangesRole(before: State, after: State, i: nat, role: Role) {
    && i < |before.members|
    && (before.members[i].role == ProjectManager && role != ProjectManager ==> Managers(before.members) > 1)
    && after == before.(members := before.members[i := before.members[i].(role := role)])
  }

  /** A removal, which leaves a manager. */
  ghost predicate Removes(before: State, after: State, i: nat) {
    && i < |before.members|
    && (before.members[i].role == ProjectManager ==> Managers(before.members) > 1)
    && after == before.(members := Drop(before.members, i))
  }

  /** Links and the project's own status change without touching members or invitations. */
  ghost predicate LeavesSeatsAlone(before: State, after: State) {
    after == before.(live := after.live, links := after.links, nextId := after.nextId) && before.nextId <= after.nextId
  }

  /** Accepting an invitation releases its seat and takes one. */
  ghost predicate Accepts(before: State, after: State, i: nat, m: Member, now: int) {
    && i < |before.enrollments| && Settles(before, Settled(before, i, Accepted), i, Accepted)
    && Admits(Settled(before, i, Accepted), after, m, now)
  }

  /** Links keep their tokens and places, a revoked link stays revoked, and new links have new tokens. */
  ghost predicate LinksFollow(before: seq<Link>, after: seq<Link>) {
    && |before| <= |after|
    && (forall i :: 0 <= i < |before| ==> after[i].token == before[i].token && (after[i].active ==> before[i].active))
    && forall i, j :: 0 <= i < j < |after| && |before| <= j ==> after[i].token != after[j].token
  }

  /** One call of a mutation at a given time. */
  ghost predicate Next(before: State, after: State, now: int) {
    LinksFollow(before.links, after.links) && Changes(before, after, now)
  }

  ghost predicate Changes(before: State, after: State, now: int) {
    || LeavesSeatsAlone(before, after)
    || (exists m :: Admits(before, after, m, now))
    || (exists e :: Enrolls(before, after, e, now))
    || (exists i, status :: Settles(before, after, i, status))
    || (exists i: nat, m :: Accepts(before, after, i, m, now))
    || (exists i, role :: ChangesRole(before, after, i, role))
    || (exists i :: Removes(before, after, i))
  }

  /** Within the limit, one row for each member, and somebody to manage the project. */
  ghost predicate IsSound(s: State, now: int) {
    Seats(s, now) <= MAX_PROJECT_USERS && OnePerPrincipal(s.members) && Managers(s.members) > 0
  }

  lemma SoundLater(s: State, now: int, later: int)
    requires IsSound(s, now) && now <= later
    ensures IsSound(s, later)
  {
    OpenCountShrinks(s.enrollments, now, later);
  }

  lemma AdmitKeepsSound(before: State, after: State, m: Member, now: int)
    requires IsSound(before, now) && Admits(before, after, m, now)
    ensures IsSound(after, now)
  {
    ManagersAppend(before.members, m);
    forall i | 0 <= i < |before.members|
      ensures before.members[i].principal != m.principal
    {
      assert before.members[i] in before.members;
    }
  }

  lemma EnrollKeepsSound(before: State, after: State, e: Enrollment, now: int)
    requires IsSound(before, now) && Enrolls(before, after, e, now)
    ensures IsSound(after, now)
  {
    OpenCountAppends(before.enrollments, e, now);
  }

  lemma SettleKeepsSound(before: State, after: State, i: nat, status: EnrollmentStatus, now: int)
    requires IsSound(before, now) && Settles(before, after, i, status)
    ensures IsSound(after, now)
  {
    OpenCountUpdates(before.enrollments, i, before.enrollments[i].(status := status), now);
  }

  lemma RoleKeepsSound(before: State, after: State, i: nat, role: Role, now: int)
    requires IsSound(before, now) && ChangesRole(before, after, i, role)
    ensures IsSound(after, now)
  {
    ManagersUpdate(before.members, i, before.members[i].(role := role));
  }

  lemma RemovalKeepsSound(before: State, after: State, i: nat, now: int)
    requires IsSound(before, now) && Removes(before, after, i)
    ensures IsSound(after, now)
  {
    ManagersDrop(before.members, i);
    assert forall j :: 0 <= j < |after.members| ==> after.members[j] == before.members[if j < i then j else j + 1];
  }

  /** Five seats at most are taken, nobody has two rows, and one row is a manager's. */
  lemma SoundInRows(s: State, now: int)
    ensures IsSound(s, now) <==>
            && |s.members| + |OpenRows(s.enrollments, now)| <= 5
            && (forall i, j :: 0 <= i < j < |s.members| ==> s.members[i].principal != s.members[j].principal)
            && exists i :: 0 <= i < |s.members| && s.members[i].role == ProjectManager
  {
    OpenRowsAreCounted(s.enrollments, now);
    ManagersAreThere(s.members);
  }

  /** Every mutation, at a time no earlier than the last, keeps the project sound. */
  lemma NextKeepsSound(before: State, after: State, clock: int, now: int)
    requires IsSound(before, clock) && clock <= now && Next(before, after, now)
    ensures IsSound(after, now)
  {
    hide IsSound, Admits, Enrolls, Settles, ChangesRole, Removes, LinksFollow;
    SoundLater(before, clock, now);
    if LeavesSeatsAlone(before, after) {
      SeatsAlone(before, after, now);
    } else if m :| Admits(before, after, m, now) {
      AdmitKeepsSound(before, after, m, now);
    } else if e :| Enrolls(before, after, e, now) {
      EnrollKeepsSound(before, after, e, now);
    } else if i, status :| Settles(before, after, i, status) {
      SettleKeepsSound(before, after, i, status, now);
    } else if i: nat, m :| Accepts(before, after, i, m, now) {
      SettleKeepsSound(before, Settled(before, i, Accepted), i, Accepted, now);
      AdmitKeepsSound(Settled(before, i, Accepted), after, m, now);
    } else if i, role :| ChangesRole(before, after, i, role) {
      RoleKeepsSound(before, after, i, role, now);
    } else {
      var i :| Removes(before, after, i);
      RemovalKeepsSound(before, after, i, now);
    }
  }

  lemma SeatsAlone(before: State, after: State, now: int)
    requires IsSound(before, now) && after.members == before.members && after.enrollments == before.enrollments
    ensures IsSound(after, now)
  {
  }

  /** A run: states, each with the time of the call that led to it, in order of time. */
  ghost predicate IsRun(states: seq<State>, times: seq<int>) {
    && 0 < |states| == |times|
    && (forall i :: 0 < i < |states| ==> times[i - 1] <= times[i])
    && (forall i :: 0 < i < |states| ==> Next(states[i - 1], states[i], times[i]))
  }

  function NewProject(creator: Principal): State {
    State(true, creator, [Member(creator, ProjectManager)], [], [], 0)
  }

  /** Seats never exceed the limit, then or later; nobody has two rows; somebody can manage the project. */
  lemma {:induction false} EveryRunIsSound(states: seq<State>, times: seq<int>, creator: Principal, later: int)
    requires IsRun(states, times) && states[0] == NewProject(creator) && times[|times| - 1] <= later
    ensures IsSound(states[|states| - 1], later)
    ensures var s := states[|states| - 1]; |s.members| + |OpenRows(s.enrollments, later)| <= 5
    decreases |states|
  {
    hide Next, IsSound, OpenRows;
    SoundInRows(states[|states| - 1], later);
    var last := |states| - 1;
    if last == 0 {
      NewIsSound(creator, later);
    } else {
      var front, before := states[..last], times[..last];
      assert forall i :: 0 <= i < last ==> front[i] == states[i] && before[i] == times[i];
      EveryRunIsSound(front, before, creator, times[last - 1]);
      NextKeepsSound(states[last - 1], states[last], times[last - 1], times[last]);
      SoundLater(states[last], times[last], later);
    }
  }

  lemma NewIsSound(creator: Principal, now: int)
    ensures IsSound(NewProject(creator), now)
  {
    var s := NewProject(creator);
    assert s.members[1..] == [];
  }

  /** An open invitation keeps its seat until it is taken up: acceptance is never refused for want of one. */
  lemma AcceptanceHasASeat(s: State, i: nat, now: int)
    requires IsSound(s, now) && i < |s.enrollments| && IsOpen(s.enrollments[i], now)
    ensures HasSeat(Settled(s, i, Accepted), now)
  {
    OpenCountUpdates(s.enrollments, i, s.enrollments[i].(status := Accepted), now);
  }

  // ---------- Inviting ----------

  /** The first pending invitation for a principal from a position on, whether or not it has run out. */
  function PendingFrom(enrollments: seq<Enrollment>, target: Principal, from: nat): (i: Option<nat>)
    requires from <= |enrollments|
    ensures i.Some? ==> from <= i.value < |enrollments| && IsPendingFor(enrollments[i.value], target)
    ensures i.Some? ==> forall j :: from <= j < i.value ==> !IsPendingFor(enrollments[j], target)
    ensures i.None? ==> forall j :: from <= j < |enrollments| ==> !IsPendingFor(enrollments[j], target)
    decreases |enrollments| - from
  {
    if from == |enrollments| then None
    else if IsPendingFor(enrollments[from], target) then Some(from)
    else PendingFrom(enrollments, target, from + 1)
  }

  predicate IsPendingFor(e: Enrollment, target: Principal) {
    e.status == Pending && e.target == target
  }

  predicate IsOpenFor(e: Enrollment, target: Principal, now: int) {
    IsOpen(e, now) && e.target == target
  }

  /** How many open invitations a principal has. */
  function OpenFor(enrollments: seq<Enrollment>, target: Principal, now: int): nat {
    if enrollments == [] then 0
    else (if IsOpenFor(enrollments[0], target, now) then 1 else 0) + OpenFor(enrollments[1..], target, now)
  }

  predicate MayManage(s: State, caller: Principal, isOrgAdmin: bool) {
    var i := FindMember(s.members, caller);
    s.live && (caller == s.creator || (i.Some? && s.members[i.value].role == ProjectManager) || isOrgAdmin)
  }

  /** What an invitation needs besides a seat: a caller who may manage, a device id, and a target that is no member. */
  predicate MayInvite(s: State, actor: Principal, isOrgAdmin: bool, isDeviceId: bool, target: Principal) {
    MayManage(s, actor, isOrgAdmin) && isDeviceId && FindMember(s.members, target).None?
  }

  predicate FirstIsOpen(enrollments: seq<Enrollment>, target: Principal, now: int) {
    var first := PendingFrom(enrollments, target, 0);
    first.Some? && IsOpen(enrollments[first.value], now)
  }

  function Invited(s: State, target: Principal, role: Role, now: int): State {
    var e := Enrollment(s.nextId, target, role, Pending, now + ENROLLMENT_TTL_MS);
    s.(enrollments := s.enrollments + [e], nextId := s.nextId + 1)
  }

  /** What a request for an invitation leaves. */
  function AfterRequest(s: State, actor: Principal, isOrgAdmin: bool, isDeviceId: bool, target: Principal, role: Role,
                        now: int): State {
    if MayInvite(s, actor, isOrgAdmin, isDeviceId, target)
       && !FirstIsOpen(s.enrollments, target, now) && HasSeat(s, now)
    then Invited(s, target, role, now) else s
  }

  lemma {:induction false} OpenForAppends(enrollments: seq<Enrollment>, e: Enrollment, target: Principal, now: int)
    ensures OpenFor(enrollments + [e], target, now)
            == OpenFor(enrollments, target, now) + (if IsOpenFor(e, target, now) then 1 else 0)
  {
    if enrollments == [] {
      assert (enrollments + [e])[1..] == [];
    } else {
      assert (enrollments + [e])[1..] == enrollments[1..] + [e];
      OpenForAppends(enrollments[1..], e, target, now);
    }
  }

  lemma {:induction false} SomeAreOpen(enrollments: seq<Enrollment>, target: Principal, now: int)
    ensures OpenFor(enrollments, target, now) > 0
            <==> exists i :: 0 <= i < |enrollments| && IsOpenFor(enrollments[i], target, now)
  {
    if enrollments != [] {
      var rest := enrollments[1..];
      SomeAreOpen(rest, target, now);
      if i :| 0 <= i < |enrollments| && IsOpenFor(enrollments[i], target, now) {
        assert i > 0 ==> rest[i - 1] == enrollments[i];
      }
      if i :| 0 <= i < |rest| && IsOpenFor(rest[i], target, now) {
        assert enrollments[i + 1] == rest[i];
      }
    }
  }

  /** The first pending invitation has run out, and a later one is still open. */
  ghost predicate IsShadowed(enrollments: seq<Enrollment>, target: Principal, now: int) {
    var first := PendingFrom(enrollments, target, 0);
    && first.Some? && !IsOpen(enrollments[first.value], now)
    && exists j :: first.value < j < |enrollments| && IsOpenFor(enrollments[j], target, now)
  }

  /**
   * One open invitation for each device is not kept. From at most one, a request leaves two
   * exactly when it passes the guards, an invitation that has run out hides an open one behind
   * it, and there is a seat.
   */
  lemma SecondOpenInvitation(s: State, actor: Principal, isOrgAdmin: bool, isDeviceId: bool, target: Principal,
                             role: Role, now: int)
    requires OpenFor(s.enrollments, target, now) <= 1
    ensures OpenFor(AfterRequest(s, actor, isOrgAdmin, isDeviceId, target, role, now).enrollments, target, now) == 2
            <==> && MayInvite(s, actor, isOrgAdmin, isDeviceId, target)
                 && IsShadowed(s.enrollments, target, now) && HasSeat(s, now)
  {
    hide MayInvite, HasSeat, OpenFor;
    var e := Enrollment(s.nextId, target, role, Pending, now + ENROLLMENT_TTL_MS);
    OpenForAppends(s.enrollments, e, target, now);
    SomeAreOpen(s.enrollments, target, now);
    ShadowedMeans(s.enrollments, target, now);
  }

  lemma ShadowedMeans(enrollments: seq<Enrollment>, target: Principal, now: int)
    ensures IsShadowed(enrollments, target, now)
            <==> && !FirstIsOpen(enrollments, target, now)
                 && exists i :: 0 <= i < |enrollments| && IsOpenFor(enrollments[i], target, now)
  {
    var first := PendingFrom(enrollments, target, 0);
    if i :| 0 <= i < |enrollments| && IsOpenFor(enrollments[i], target, now) {
      assert IsPendingFor(enrollments[i], target);
    }
  }

  /** It does happen: of three requests for one device, the later two made as the first invitation runs out. */
  lemma ThreeRequests(creator: Principal, target: Principal, role: Role)
    requires creator != target
    ensures var first := AfterRequest(NewProject(creator), creator, false, true, target, role, 0);
            var second := AfterRequest(first, creator, false, true, target, role, ENROLLMENT_TTL_MS);
            var third := AfterRequest(second, creator, false, true, target, role, ENROLLMENT_TTL_MS);
            && OpenFor(second.enrollments, target, ENROLLMENT_TTL_MS) == 1
            && OpenFor(third.enrollments, target, ENROLLMENT_TTL_MS) == 2
  {
    var s := NewProject(creator);
    var ttl := ENROLLMENT_TTL_MS;
    var a, b := Enrollment(0, target, role, Pending, ttl), Enrollment(1, target, role, Pending, 2 * ttl);
    assert s.members[1..] == [];
    assert MayInvite(s, creator, false, true, target);
    OpenCountAppends([], a, ttl);
    OpenCountAppends([a], b, ttl);
    OpenForAppends([], a, target, ttl);
    OpenForAppends([a], b, target, ttl);
    assert [] + [a] == [a] && [a] + [b] == [a, b];
    var first := AfterRequest(s, creator, false, true, target, role, 0);
    assert first.enrollments == [a];
    var second := AfterRequest(first, creator, false, true, target, role, ttl);
    assert second.enrollments == [a, b];
    assert IsOpenFor([a, b][1], target, ttl);
    assert IsShadowed([a, b], target, ttl);
    SecondOpenInvitation(second, creator, false, true, target, role, ttl);
  }

  // ---------- Links ----------

  ghost predicate DistinctTokens(links: seq<Link>) {
    forall i, j :: 0 <= i < j < |links| ==> links[i].token != links[j].token
  }

  function FindToken(links: seq<Link>, token: string): (i: Option<nat>)
    ensures i.Some? ==> i.value < |links| && links[i.value].token == token
    ensures i.None? ==> forall j :: 0 <= j < |links| ==> links[j].token != token
  {
    if links == [] then None
    else if links[0].token == token then Some(0)
    else
      match FindToken(links[1..], token)
      case None => (assert forall j :: 0 < j < |links| ==> links[j] == links[1..][j - 1]; None)
      case Some(i) => Some(i + 1)
  }

  /** The active link that was updated last, the earliest of them when there are several. */
  function NewestActive(links: seq<Link>): (i: Option<nat>)
    ensures i.Some? ==> i.value < |links| && links[i.value].active
                        && forall j | 0 <= j < |links| && links[j].active ::
                             links[j].updatedAt <= links[i.value].updatedAt
    ensures i.Some? ==> forall j | 0 <= j < i.value && links[j].active :: links[j].updatedAt < links[i.value].updatedAt
    ensures i.None? ==> forall j :: 0 <= j < |links| ==> !links[j].active
  {
    if links == [] then None
    else
      var last := |links| - 1;
      var before := NewestActive(links[..last]);
      if links[last].active && (before.None? || links[before.value].updatedAt < links[last].updatedAt) then Some(last)
      else before
  }

  /** An active link is turned off, and another is left alone. */
  ghost function Revoked(link: Link, now: int): Link {
    if link.active then link.(active := false, updatedAt := now) else link
  }

  ghost predicate IsOnlyActive(links: seq<Link>, k: nat) {
    k < |links| && links[k].active && forall i :: 0 <= i < |links| && links[i].active ==> i == k
  }

  lemma DistinctTokensFollow(before: seq<Link>, after: seq<Link>)
    requires DistinctTokens(before) && LinksFollow(before, after)
    ensures DistinctTokens(after)
  {
  }

  /** Over a run from a new project, tokens stay distinct and a link revoked at step m is never active again. */
  lemma {:induction false} RevokedLinkStaysRevoked(states: seq<State>, times: seq<int>, creator: Principal, m: nat,
                                                   n: nat, k: nat)
    requires IsRun(states, times) && states[0] == NewProject(creator) && m <= n < |states|
    requires k < |states[m].links| && !states[m].links[k].active
    ensures DistinctTokens(states[n].links)
    ensures k < |states[n].links| && states[n].links[k].token == states[m].links[k].token && !states[n].links[k].active
    decreases n
  {
    hide Changes;
    if m < n {
      RevokedLinkStaysRevoked(states, times, creator, m, n - 1, k);
      assert Next(states[n - 1], states[n], times[n]);
      DistinctTokensFollow(states[n - 1].links, states[n].links);
    } else {
      RunsKeepTokensDistinct(states, times, creator, n);
    }
  }

  lemma {:induction false} RunsKeepTokensDistinct(states: seq<State>, times: seq<int>, creator: Principal, n: nat)
    requires IsRun(states, times) && states[0] == NewProject(creator) && n < |states|
    ensures DistinctTokens(states[n].links)
    decreases n
  {
    hide Changes;
    if n > 0 {
      RunsKeepTokensDistinct(states, times, creator, n - 1);
      assert Next(states[n - 1], states[n], times[n]);
      DistinctTokensFollow(states[n - 1].links, states[n].links);
    }
  }

  /** What a join through a token is answered: whether the caller was a member already, or why not. */
  function JoinReply(s: State, caller: Principal, token: string, now: int): Result<bool, SeatError> {
    var i := FindToken(s.links, token);
    if token == "" || i.None? || !s.links[i.value].active then Err(InvalidLink)
    else if !s.live then Err(ProjectGone)
    else if FindMember(s.members, caller).Some? then Ok(true)
    else if HasSeat(s, now) then Ok(false) else Err(ProjectFull)
  }

  /** Once a link has been revoked, its token admits nobody, whenever it is tried. */
  lemma RevokedTokenAdmitsNobody(states: seq<State>, times: seq<int>, creator: Principal, m: nat, n: nat, k: nat,
                                 caller: Principal, now: int)
    requires IsRun(states, times) && states[0] == NewProject(creator) && m <= n < |states|
    requires k < |states[m].links| && !states[m].links[k].active
    ensures JoinReply(states[n], caller, states[m].links[k].token, now) == Err(InvalidLink)
  {
    hide IsRun;
    RevokedLinkStaysRevoked(states, times, creator, m, n, k);
  }

  /** Every token drawn belongs to a link already. */
  ghost predicate AllTaken(links: seq<Link>, tokens: seq<string>) {
    forall token :: token in tokens ==> FindToken(links, token).Some?
  }

  /** The first of the tokens drawn that no link has. */
  function FreshToken(links: seq<Link>, tokens: seq<string>): (token: Option<string>)
    ensures token.Some? ==> token.value in tokens && FindToken(links, token.value).None?
    ensures token.None? <==> AllTaken(links, tokens)
    ensures token.Some? ==> exists k :: IsFirstFree(links, tokens, k) && tokens[k] == token.value
  {
    if tokens == [] then None
    else
      assert tokens == [tokens[0]] + tokens[1..];
      if FindToken(links, tokens[0]).None? then (assert IsFirstFree(links, tokens, 0); Some(tokens[0]))
      else
        var token := FreshToken(links, tokens[1..]);
        assert forall k :: IsFirstFree(links, tokens[1..], k) ==> IsFirstFree(links, tokens, k + 1);
        token
  }

  /** No link has the token drawn at position k, and some link has each one drawn before it. */
  ghost predicate IsFirstFree(links: seq<Link>, tokens: seq<string>, k: int) {
    && 0 <= k < |tokens| && (forall i :: 0 <= i < |links| ==> links[i].token != tokens[k])
    && forall j :: 0 <= j < k ==> exists i :: 0 <= i < |links| && links[i].token == tokens[j]
  }

  // ---------- The mutations ----------

  class Project {
    var live: bool
    const creator: Principal
    var members: seq<Member>
    var enrollments: seq<Enrollment>
    var links: seq<Link>
    var nextId: Id
    /** The latest time at which a mutation ran. */
    ghost var clock: int

    ghost function Snapshot(): State
      reads this
    {
      State(live, creator, members, enrollments, links, nextId)
    }

    ghost predicate Valid()
      reads this
    {
      IsSound(Snapshot(), clock) && DistinctTokens(links)
    }

    constructor (creator: Principal, ghost now: int)
      ensures Valid() && Snapshot() == NewProject(creator) && clock == now
    {
      live, this.creator, members := true, creator, [Member(creator, ProjectManager)];
      enrollments, links, nextId := [], [], 0;
      clock := now;
      new;
      NewIsSound(creator, now);
    }

    /** The creator, a manager, or an administrator of the project's organization, while the project is live. */
    predicate CanManage(caller: Principal, isOrgAdmin: bool)
      reads this
    {
      MayManage(State(live, creator, members, enrollments, links, nextId), caller, isOrgAdmin)
    }

    predicate CanAccess(caller: Principal, isOrgMember: bool)
      reads this
    {
      live && (caller == creator || FindMember(members, caller).Some? || isOrgMember)
    }

    predicate IsManager(caller: Principal)
      reads this
    {
      var i := FindMember(members, caller);
      i.Some? && members[i.value].role == ProjectManager
    }

    /** The project is deleted; its rows stay until they are purged. */
    method MarkDeleted()
      requires Valid()
      modifies this`live
      ensures Valid() && clock == old(clock) && Next(old(Snapshot()), Snapshot(), clock)
      ensures Snapshot() == old(Snapshot()).(live := false)
    {
      live := false;
    }

    method CreateEnrollment(actor: Principal, isOrgAdmin: bool, isDeviceId: bool, target: Principal, role: Role,
                            now: int)
      returns (r: Result<(Id, bool), SeatError>)
      requires Valid() && clock <= now
      modifies this
      ensures Valid() && clock == now && Next(old(Snapshot()), Snapshot(), now)
      ensures Snapshot() == AfterRequest(old(Snapshot()), actor, isOrgAdmin, isDeviceId, target, role, now)
      ensures r.Ok? && !r.value.1 <==>
                && MayInvite(old(Snapshot()), actor, isOrgAdmin, isDeviceId, target)
                && FirstIsOpen(old(enrollments), target, now)
      ensures r.Ok? && !r.value.1 ==> r.value.0 == old(enrollments)[PendingFrom(old(enrollments), target, 0).value].id
      ensures r.Ok? && r.value.1 <==>
                && MayInvite(old(Snapshot()), actor, isOrgAdmin, isDeviceId, target)
                && !FirstIsOpen(old(enrollments), target, now) && HasSeat(old(Snapshot()), now)
      ensures r.Ok? && r.value.1 ==>
                Enrolls(old(Snapshot()), Snapshot(),
                        Enrollment(r.value.0, target, role, Pending, now + ENROLLMENT_TTL_MS), now)
      ensures r == Err(ProjectFull) <==>
                && MayInvite(old(Snapshot()), actor, isOrgAdmin, isDeviceId, target)
                && !FirstIsOpen(old(enrollments), target, now) && !HasSeat(old(Snapshot()), now)
      ensures r == Err(NotManager) <==> !old(Manages(Snapshot(), actor, isOrgAdmin))
      ensures r == Err(InvalidDeviceId) <==> old(Manages(Snapshot(), actor, isOrgAdmin)) && !isDeviceId
      ensures r == Err(HasAccess) <==>
              old(Manages(Snapshot(), actor, isOrgAdmin)) && isDeviceId && IsMember(old(members), target)
      ensures r == Err(ProjectFull) ==> !HasRoom(old(members), old(enrollments), now)
      ensures r.Ok? && r.value.1 ==>
                && HasRoom(old(members), old(enrollments), now)
                && enrollments == old(enrollments) + [
                     Enrollment(r.value.0, target, role, Pending, now + 604_800_000)]
      ensures r.Err? ==> r.error in {NotManager, InvalidDeviceId, HasAccess, ProjectFull}
    {
      hide IsSound, FindMember, PendingFrom, IsMember, IsProjectManager, Manages, HasRoom;
      ghost var before := Snapshot();
      RowsDecide(before, actor, isOrgAdmin, clock, now);
      RowsDecide(before, target, isOrgAdmin, clock, now);
      SoundLater(before, clock, now);
      clock := now;
      if !CanManage(actor, isOrgAdmin) {
        return Err(NotManager);
      }
      if !isDeviceId {
        return Err(InvalidDeviceId);
      }
      if FindMember(members, target).Some? {
        return Err(HasAccess);
      }
      var existing := PendingFrom(enrollments, target, 0);
      if existing.Some? && enrollments[existing.value].expiresAt > now {
        return Ok((enrollments[existing.value].id, false));
      }
      if !(|members| + OpenCount(enrollments, now) + 1 <= MAX_PROJECT_USERS) {
        return Err(ProjectFull);
      }
      var e := Enrollment(nextId, target, role, Pending, now + ENROLLMENT_TTL_MS);
      enrollments := enrollments + [e];
      nextId := nextId + 1;
      assert Enrolls(before, Snapshot(), e, now);
      EnrollKeepsSound(before, Snapshot(), e, now);
      return Ok((e.id, true));
    }

    /**
     * Takes up or turns down an invitation. Taking it up is never refused for want of a seat.
     * One that has run out is reported, and stays as it was.
     */
    method ResolveEnrollment(caller: Principal, index: nat, accept: bool, now: int) returns (r: Result<bool, SeatError>)
      requires Valid() && clock <= now
      modifies this
      ensures Valid() && clock == now && Next(old(Snapshot()), Snapshot(), now)
      ensures r.Ok?
              <==> && index < |old(enrollments)| && old(enrollments)[index].target == caller
                   && old(enrollments)[index].status == Pending && now < old(enrollments)[index].expiresAt
      ensures r.Err? ==> Snapshot() == old(Snapshot()) && r.error in {NotAvailable, HasExpired}
      ensures r == Err(HasExpired) <==>
                && index < |old(enrollments)| && old(enrollments)[index].target == caller
                && old(enrollments)[index].status == Pending && old(enrollments)[index].expiresAt <= now
      ensures r.Ok? ==> r.value == accept
      ensures r.Ok? ==>
                var status := if accept then Accepted else Rejected;
                enrollments == old(enrollments)[index := old(enrollments)[index].(status := status)]
      ensures r.Ok? ==>
                members == if accept && !IsMember(old(members), caller)
                           then old(members) + [Member(caller, old(enrollments)[index].role)] else old(members)
      ensures Snapshot() == old(Snapshot()).(members := members, enrollments := enrollments)
    {
      hide IsSound, IsMember, IsProjectManager, Manages, HasRoom;
      ghost var before := Snapshot();
      RowsDecide(before, caller, false, clock, now);
      SoundLater(before, clock, now);
      clock := now;
      if index >= |enrollments| || enrollments[index].status != Pending || enrollments[index].target != caller {
        return Err(NotAvailable);
      }
      if enrollments[index].expiresAt <= now {
        return Err(HasExpired);
      }
      if !accept {
        enrollments := enrollments[index := enrollments[index].(status := Rejected)];
        assert Settles(before, Snapshot(), index, Rejected);
        SettleKeepsSound(before, Snapshot(), index, Rejected, now);
        return Ok(false);
      }
      var role := enrollments[index].role;
      AcceptanceHasASeat(before, index, now);
      enrollments := enrollments[index := enrollments[index].(status := Accepted)];
      ghost var settled := Snapshot();
      assert settled == Settled(before, index, Accepted) && Settles(before, settled, index, Accepted);
      SettleKeepsSound(before, settled, index, Accepted, now);
      if FindMember(members, caller).None? {
        assert |members| + OpenCount(enrollments, now) + 1 <= MAX_PROJECT_USERS;
        members := members + [Member(caller, role)];
        assert Admits(settled, Snapshot(), Member(caller, role), now);
        assert Accepts(before, Snapshot(), index, Member(caller, role), now);
        AdmitKeepsSound(settled, Snapshot(), Member(caller, role), now);
      }
      return Ok(true);
    }

    method CancelEnrollment(actor: Principal, isOrgAdmin: bool, index: nat, now: int) returns (r: Result<(), SeatError>)
      requires Valid() && clock <= now
      modifies this
      ensures Valid() && clock == now && Next(old(Snapshot()), Snapshot(), now)
      ensures r == (if index >= |old(enrollments)| || old(enrollments)[index].status != Pending then Err(NotFound)
                    else if !old(Manages(Snapshot(), actor, isOrgAdmin)) then Err(NotManager) else Ok(()))
      ensures r.Ok? ==> enrollments == old(enrollments)[index := old(enrollments)[index].(status := Cancelled)]
      ensures Snapshot() == if r.Ok? then old(Snapshot()).(enrollments := enrollments) else old(Snapshot())
    {
      hide IsSound, IsMember, IsProjectManager, Manages, HasRoom;
      ghost var before := Snapshot();
      RowsDecide(before, actor, isOrgAdmin, clock, now);
      SoundLater(before, clock, now);
      clock := now;
      if index >= |enrollments| || enrollments[index].status != Pending {
        return Err(NotFound);
      }
      if !CanManage(actor, isOrgAdmin) {
        return Err(NotManager);
      }
      enrollments := enrollments[index := enrollments[index].(status := Cancelled)];
      assert Settles(before, Snapshot(), index, Cancelled);
      SettleKeepsSound(before, Snapshot(), index, Cancelled, now);
      return Ok(());
    }

    /**
     * What accepting a session invitation grants: nothing to those who have access, a seat to
     * others, and never management.
     */
    method EnsureProjectAccess(principal: Principal, isOrgMember: bool, asViewer: bool,
                               now: int) returns (r: Result<(), SeatError>)
      requires Valid() && clock <= now
      modifies this
      ensures Valid() && clock == now && Next(old(Snapshot()), Snapshot(), now)
      ensures r == (if !old(live) then Err(ProjectGone)
                    else if old(HasAccessTo(Snapshot(), principal, isOrgMember)
                                || HasRoom(members, enrollments, now)) then Ok(())
                    else Err(ProjectFull))
      ensures Snapshot() == if r.Ok? && !old(HasAccessTo(Snapshot(), principal, isOrgMember))
                            then var m := Member(principal, if asViewer then Viewer else Developer);
                                 old(Snapshot()).(members := old(members) + [m])
                            else old(Snapshot())
    {
      hide IsSound, IsMember, IsProjectManager, Manages, HasRoom;
      ghost var before := Snapshot();
      RowsDecide(before, principal, isOrgMember, clock, now);
      SoundLater(before, clock, now);
      clock := now;
      if !live {
        return Err(ProjectGone);
      }
      if CanAccess(principal, isOrgMember) {
        return Ok(());
      }
      if !(|members| + OpenCount(enrollments, now) + 1 <= MAX_PROJECT_USERS) {
        return Err(ProjectFull);
      }
      var m := Member(principal, if asViewer then Viewer else Developer);
      members := members + [m];
      assert Admits(before, Snapshot(), m, now);
      AdmitKeepsSound(before, Snapshot(), m, now);
      return Ok(());
    }

    method UpdateRole(actor: Principal, target: Principal, role: Role, now: int) returns (r: Result<(), SeatError>)
      requires Valid() && clock <= now
      modifies this
      ensures Valid() && clock == now && Next(old(Snapshot()), Snapshot(), now)
      ensures r == (if !old(live) || !IsProjectManager(old(members), actor) then Err(NotManager)
                    else if !IsMember(old(members), target) then Err(NotFound)
                    else if actor == target then Err(OwnRole)
                    else Ok(()))
      ensures Snapshot() == if r.Ok?
                            then var i := FindMember(old(members), target).value;
                                 old(Snapshot()).(members := old(members)[i := old(members)[i].(role := role)])
                            else old(Snapshot())
    {
      hide IsSound, FindMember, IsMember, IsProjectManager, Manages, HasRoom;
      ghost var before := Snapshot();
      RowsDecide(before, actor, false, clock, now);
      RowsDecide(before, target, false, clock, now);
      SoundLater(before, clock, now);
      clock := now;
      if !live || !IsManager(actor) {
        return Err(NotManager);
      }
      var i := FindMember(members, target);
      if i.None? {
        return Err(NotFound);
      }
      if actor == target {
        return Err(OwnRole);
      }
      if members[i.value].role == ProjectManager && role != ProjectManager {
        TwoManagers(members, FindMember(members, actor).value, i.value);
        if Managers(members) <= 1 {
          return Err(LastManager);
        }
      }
      members := members[i.value := members[i.value].(role := role)];
      assert ChangesRole(before, Snapshot(), i.value, role);
      RoleKeepsSound(before, Snapshot(), i.value, role, now);
      return Ok(());
    }

    method RemoveMember(actor: Principal, target: Principal, now: int) returns (r: Result<(), SeatError>)
      requires Valid() && clock <= now
      modifies this
      ensures Valid() && clock == now && Next(old(Snapshot()), Snapshot(), now)
      ensures r == (if !old(live) || !IsProjectManager(old(members), actor) then Err(NotManager)
                    else if !IsMember(old(members), target) then Err(NotFound)
                    else if actor == target then Err(OwnRole)
                    else Ok(()))
      ensures Snapshot() == if r.Ok?
                            then old(Snapshot()).(members := Drop(old(members), FindMember(old(members), target).value))
                            else old(Snapshot())
    {
      hide IsSound, FindMember, IsMember, IsProjectManager, Manages, HasRoom;
      ghost var before := Snapshot();
      RowsDecide(before, actor, false, clock, now);
      RowsDecide(before, target, false, clock, now);
      SoundLater(before, clock, now);
      clock := now;
      if !live || !IsManager(actor) {
        return Err(NotManager);
      }
      var i := FindMember(members, target);
      if i.None? {
        return Err(NotFound);
      }
      if actor == target {
        return Err(OwnRole);
      }
      if members[i.value].role == ProjectManager {
        TwoManagers(members, FindMember(members, actor).value, i.value);
        if Managers(members) <= 1 {
          return Err(LastManager);
        }
      }
      members := Drop(members, i.value);
      assert Removes(before, Snapshot(), i.value);
      RemovalKeepsSound(before, Snapshot(), i.value, now);
      return Ok(());
    }

    /** Revokes every active link. */
    method RevokeActive(except: Option<nat>, now: int)
      modifies this`links
      ensures |links| == |old(links)|
      ensures forall i :: 0 <= i < |links| ==>
                links[i] == if old(links)[i].active && except != Some(i)
                            then old(links)[i].(active := false, updatedAt := now) else old(links)[i]
    {
      for k := 0 to |links|
        invariant |links| == |old(links)|
        invariant forall i :: 0 <= i < |links| ==>
                    links[i] == if i < k && old(links)[i].active && except != Some(i)
                                then old(links)[i].(active := false, updatedAt := now) else old(links)[i]
        modifies this`links
      {
        if links[k].active && except != Some(k) {
          links := links[k := links[k].(active := false, updatedAt := now)];
        }
      }
    }

    /** Afterwards the project has exactly one active link, with the role asked for. */
    method CreateOrUpdateActiveLink(actor: Principal, isOrgAdmin: bool, role: Role, tokens: seq<string>, now: int)
      returns (r: Result<nat, SeatError>)
      requires Valid() && clock <= now && |tokens| == 5
      modifies this
      ensures Valid() && clock == now && Next(old(Snapshot()), Snapshot(), now)
      ensures old(Manages(Snapshot(), actor, isOrgAdmin)) && NewestActive(old(links)).Some?
              ==> && r == Ok(NewestActive(old(links)).value) && nextId == old(nextId) && |links| == |old(links)|
                  && r.value < |links|
                  && links[r.value] == old(links)[r.value].(role := role, updatedAt := now)
      ensures old(Manages(Snapshot(), actor, isOrgAdmin)) && NewestActive(old(links)).None? ==>
                (if AllTaken(old(links), tokens) then r == Err(NoToken)
                 else && r == Ok(|old(links)|) && nextId == old(nextId) + 1 && |links| == |old(links)| + 1
                      && links[r.value]
                         == Link(old(nextId), FreshToken(old(links), tokens).value, role, true, 0, now))
      ensures r == Err(NotManager) <==> !old(Manages(Snapshot(), actor, isOrgAdmin))
      ensures r.Ok? ==> IsOnlyActive(links, r.value) && links[r.value].role == role && LinksFollow(old(links), links)
      ensures r.Ok? ==> forall i :: 0 <= i < |old(links)| && i != r.value ==> links[i] == Revoked(old(links)[i], now)
      ensures Snapshot() == old(Snapshot()).(links := links, nextId := nextId)
      ensures r.Err? ==> Snapshot() == old(Snapshot())
    {
      hide IsSound, NewestActive, FindToken, FindMember, AllTaken, IsMember, IsProjectManager, Manages, HasRoom;
      ghost var before := Snapshot();
      RowsDecide(before, actor, isOrgAdmin, clock, now);
      SoundLater(before, clock, now);
      clock := now;
      if !CanManage(actor, isOrgAdmin) {
        return Err(NotManager);
      }
      var primary := NewestActive(links);
      if primary.None? {
        var token := FreshToken(links, tokens);
        if token.None? {
          return Err(NoToken);
        }
        links := links + [Link(nextId, token.value, role, true, 0, now)];
        nextId := nextId + 1;
        SeatsAlone(before, Snapshot(), now);
        return Ok(|links| - 1);
      }
      links := links[primary.value := links[primary.value].(role := role, updatedAt := now)];
      RevokeActive(primary, now);
      SeatsAlone(before, Snapshot(), now);
      return Ok(primary.value);
    }

    /** Afterwards the only active link is a new one. */
    method RotateLink(actor: Principal, isOrgAdmin: bool, role: Role, tokens: seq<string>,
                      now: int) returns (r: Result<nat, SeatError>)
      requires Valid() && clock <= now && |tokens| == 5
      modifies this
      ensures Valid() && clock == now && Next(old(Snapshot()), Snapshot(), now)
      ensures r == Err(NotManager) <==> !old(Manages(Snapshot(), actor, isOrgAdmin))
      ensures old(Manages(Snapshot(), actor, isOrgAdmin)) ==>
                (if AllTaken(old(links), tokens) then r == Err(NoToken)
                 else && r == Ok(|old(links)|) && nextId == old(nextId) + 1 && |links| == |old(links)| + 1
                      && links[r.value]
                         == Link(old(nextId), FreshToken(old(links), tokens).value, role, true, 0, now))
      ensures r.Ok? ==> IsOnlyActive(links, r.value) && links[r.value].role == role && LinksFollow(old(links), links)
      ensures r.Ok? ==> forall i :: 0 <= i < |old(links)| && i != r.value ==> links[i] == Revoked(old(links)[i], now)
      ensures Snapshot() == old(Snapshot()).(links := links, nextId := nextId)
      ensures r.Err? ==> Snapshot() == old(Snapshot())
    {
      hide IsSound, FindToken, FindMember, AllTaken, IsMember, IsProjectManager, Manages, HasRoom;
      ghost var before := Snapshot();
      RowsDecide(before, actor, isOrgAdmin, clock, now);
      SoundLater(before, clock, now);
      clock := now;
      if !CanManage(actor, isOrgAdmin) {
        return Err(NotManager);
      }
      var token := FreshToken(links, tokens);
      if token.None? {
        return Err(NoToken);
      }
      RevokeActive(None, now);
      links := links + [Link(nextId, token.value, role, true, 0, now)];
      nextId := nextId + 1;
      SeatsAlone(before, Snapshot(), now);
      return Ok(|links| - 1);
    }

    method RevokeLink(actor: Principal, isOrgAdmin: bool, now: int) returns (r: Result<(), SeatError>)
      requires Valid() && clock <= now
      modifies this
      ensures Valid() && clock == now && Next(old(Snapshot()), Snapshot(), now)
      ensures r == if old(Manages(Snapshot(), actor, isOrgAdmin)) then Ok(()) else Err(NotManager)
      ensures r.Ok?
              ==> && LinksFollow(old(links), links) && |links| == |old(links)|
                  && forall i :: 0 <= i < |links| ==> links[i] == Revoked(old(links)[i], now) && !links[i].active
      ensures Snapshot() == old(Snapshot()).(links := links)
      ensures r.Err? ==> Snapshot() == old(Snapshot())
    {
      hide IsSound, IsMember, IsProjectManager, Manages, HasRoom;
      ghost var before := Snapshot();
      RowsDecide(before, actor, isOrgAdmin, clock, now);
      SoundLater(before, clock, now);
      clock := now;
      if !CanManage(actor, isOrgAdmin) {
        return Err(NotManager);
      }
      RevokeActive(None, now);
      SeatsAlone(before, Snapshot(), now);
      return Ok(());
    }

    /** Joins through an active link: members only count as another use, others take a seat. */
    method JoinByToken(caller: Principal, token: string, now: int) returns (r: Result<bool, SeatError>)
      requires Valid() && clock <= now
      modifies this
      ensures Valid() && clock == now && Next(old(Snapshot()), Snapshot(), now)
      ensures r == JoinReply(old(Snapshot()), caller, token, now)
      ensures r == Err(InvalidLink) <==> !IsLinked(old(links), token)
      ensures IsLinked(old(links), token) ==>
                r == (if !old(live) then Err(ProjectGone)
                      else if IsMember(old(members), caller) then Ok(true)
                      else if HasRoom(old(members), old(enrollments), now) then Ok(false)
                      else Err(ProjectFull))
      ensures r.Err? ==> Snapshot() == old(Snapshot())
      ensures r.Ok? ==>
                var i := FindToken(old(links), token).value;
                && links == old(links)[i := old(links)[i].(useCount := old(links)[i].useCount + 1, updatedAt := now)]
                && members == (if r.value then old(members) else old(members) + [Member(caller, old(links)[i].role)])
                && Snapshot() == old(Snapshot()).(links := links, members := members)
    {
      hide IsSound, FindToken, FindMember, IsMember, IsProjectManager, Manages, HasRoom, IsLinked;
      ghost var before := Snapshot();
      RowsDecide(before, caller, false, clock, now);
      LinkDecides(links, token);
      SoundLater(before, clock, now);
      clock := now;
      var i := FindToken(links, token);
      if token == "" || i.None? || !links[i.value].active {
        return Err(InvalidLink);
      }
      if !live {
        return Err(ProjectGone);
      }
      var link := links[i.value];
      if FindMember(members, caller).Some? {
        links := links[i.value := link.(useCount := link.useCount + 1, updatedAt := now)];
        SeatsAlone(before, Snapshot(), now);
        return Ok(true);
      }
      if !(|members| + OpenCount(enrollments, now) + 1 <= MAX_PROJECT_USERS) {
        return Err(ProjectFull);
      }
      members := members + [Member(caller, link.role)];
      links := links[i.value := link.(useCount := link.useCount + 1, updatedAt := now)];
      assert Admits(before, Snapshot(), Member(caller, link.role), now);
      AdmitKeepsSound(before, Snapshot(), Member(caller, link.role), now);
      return Ok(false);
    }
  }

  /** The acting manager and the manager acted upon are two, so the last one is never reached. */
  lemma TwoManagers(members: seq<Member>, i: nat, j: nat)
    requires i < |members| && j < |members| && i != j
    requires members[i].role == ProjectManager && members[j].role == ProjectManager
    ensures Managers(members) > 1
  {
    ManagersDrop(members, i);
    var rest := Drop(members, i);
    var k := if j < i then j else j - 1;
    assert rest[k] == members[j];
    ManagersDrop(rest, k);
  }
}
