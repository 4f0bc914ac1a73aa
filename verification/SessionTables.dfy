/**
 * The session control plane as it runs: mutation handlers that patch and insert rows. Each one
 * is proved to do what SessionState says of it, and to leave the tables alone when it refuses.
 */
module SessionTables {
  import opened Prelude
  import S = SessionState
  import K = SessionKeys
  import F = SessionFences
  import R = SessionRefusals

  type Principal = S.Principal

  /** The handler did what its specification says: it replied and left that state, or refused and left none. */
  ghost predicate Did<R>(spec: Result<(S.State, R), S.Refusal>, before: S.State, after: S.State, reply: Result<R,
                         S.Refusal>) {
    match spec
    case Ok((state, value)) => after == state && reply == Ok(value)
    case Err(refusal) => after == before && reply == Err(refusal)
  }

  method WalkLifecycle(from: S.Lifecycle, steps: seq<S.Lifecycle>) returns (end: Result<S.Lifecycle, S.Refusal>)
    ensures end == S.WalkLifecycle(from, steps)
    ensures end.Ok? <==> S.IsLegalWalk(from, steps)
    ensures end.Ok? ==> end.value == if steps == [] then from else steps[|steps| - 1]
  {
    hide S.CanTransition, S.IsLegalWalk;
    S.WalksAreLegal(from, steps);
    var current := from;
    for i := 0 to |steps|
      invariant S.WalkLifecycle(current, steps[i..]) == S.WalkLifecycle(from, steps)
    {
      if !S.CanTransition(current, steps[i]) {
        return Err(S.IllegalTransition);
      }
      current := steps[i];
      assert steps[i..][1..] == steps[i + 1..];
    }
    end := Ok(current);
  }

  /** Rows stay in place, and none but the principal's changes. */
  ghost predicate OthersStay(before: seq<S.Member>, after: seq<S.Member>, principal: Principal) {
    && |before| <= |after|
    && (forall i :: 0 <= i < |before| && before[i].principal != principal ==> after[i] == before[i])
    && (forall i :: |before| <= i < |after| ==> after[i].principal == principal)
  }

  /** No copy of the principal's is unrevoked. */
  ghost predicate HoldsNothing(copies: seq<S.KeyCopy>, principal: Principal) {
    forall k :: 0 <= k < |copies| && copies[k].recipient == principal ==> copies[k].revokedAt.Some?
  }

  ghost predicate IsUninvited(invitations: seq<S.Invitation>, principal: Principal) {
    forall k :: 0 <= k < |invitations| && invitations[k].target == principal ==> invitations[k].status != S.Pending
  }

  /** What a revocation that is not refused means. */
  lemma RevocationIsComplete(s: S.State, caller: Principal, w: S.World, target: Principal)
    ensures OthersStay(s.members, s.members, target)
    ensures var outcome := S.RevokeMember(s, caller, w, target);
            outcome.Ok? ==>
              && var t := outcome.value.0;
                 && (S.FindMember(s.members, target).Some? ==> K.IsRevoked(t.members, target))
                 && HoldsNothing(t.copies, target) && IsUninvited(t.invitations, target)
                 && outcome.value.1 == S.ActiveKeyVersion(t.session)
                 && |t.members| == |s.members| && |t.copies| == |s.copies| && OthersStay(s.members, t.members, target)
  {
    hide S.IsManager;
    var outcome := S.RevokeMember(s, caller, w, target);
    if outcome.Ok? && S.FindMember(s.members, target).Some? {
      var i := S.FindMember(s.members, target).value;
      assert outcome.value.0.members[i].principal == target && outcome.value.0.members[i].status == S.Revoked;
    }
  }

  /** A key that has been initialized exists, and the caller holds the one it made. */
  lemma InitializationHolds(s: S.State, caller: Principal, w: S.World, wrappedKey: string)
    ensures var outcome := S.InitializeSessionKey(s, caller, w, wrappedKey);
            outcome.Ok? ==>
              && var t, version := outcome.value.0, S.ActiveKeyVersion(s.session);
                 && S.KeyExists(t.copies, version)
                 && (outcome.value.1 ==> !S.KeyExists(s.copies, version) && S.HoldsKey(t.copies, caller, version))
                 && (!outcome.value.1 ==> t == s) && t == s.(copies := t.copies)
  {
    hide S.IsPresent, S.FindMember;
    var outcome := S.InitializeSessionKey(s, caller, w, wrappedKey);
    if outcome.Ok? && outcome.value.1 {
      var t := outcome.value.0;
      var copy := t.copies[|t.copies| - 1];
      assert copy.version == S.ActiveKeyVersion(s.session) && copy.recipient == caller;
    }
  }

  /** Whoever is told that a fence is committed finds it in the receipt. */
  lemma CommitIsReceipted(s: S.State, principal: Principal, w: S.World, expectedRevision: int, fence: S.Fence)
    requires F.SoundLifecycle(s.session)
    ensures var outcome := S.FinalizeLifecycle(s, principal, w, expectedRevision, fence);
            outcome.Ok? ==>
              && var (t, commit) := outcome.value;
                 && t.session.receipt.Some? && t.session.receipt.value.fence == fence
                 && t.session.receipt.value.expectedRevision == expectedRevision
                 && commit.revision == S.Revision(t.session)
                 && (commit.superseded <==> S.Revision(t.session) > expectedRevision + 1)
                 && t == s.(session := t.session)
  {
    hide S.IsManager, S.IsValidFence, S.WalkLifecycle;
  }

  lemma NobodyStays(members: seq<S.Member>, now: int)
    ensures !S.HasPresentMembers(S.WithEveryoneLeft(members, now)) && |S.WithEveryoneLeft(members, now)| == |members|
  {
  }

  class Tables {
    var session: S.Session
    var members: seq<S.Member>
    var copies: seq<S.KeyCopy>
    var invitations: seq<S.Invitation>

    ghost function Snapshot(): S.State
      reads this
    {
      S.State(session, members, copies, invitations)
    }

    /** What every handler relies on and keeps. */
    ghost predicate Valid()
      reads this
    {
      K.Sound(Snapshot()) && F.SoundLifecycle(session)
    }

    constructor (creator: Principal, organizationAvailable: bool, now: int)
      ensures Valid() && Snapshot() == S.Create(creator, organizationAvailable, now)
      ensures session.lifecycle == S.Active && session.activeKeyVersion == Some(1)
      ensures session.organizationAvailable == organizationAvailable && session.lifecycleRevision == None
      ensures members == [S.Member(creator, S.ProjectManager, S.Present, now, None)]
      ensures copies == [] && invitations == []
    {
      session := S.Create(creator, organizationAvailable, now).session;
      members := [S.Member(creator, S.ProjectManager, S.Present, now, None)];
      copies, invitations := [], [];
      new;
      K.ReachableIsSound(creator, organizationAvailable, now, []);
      F.ReachableLifecycleIsSound(creator, organizationAvailable, now, []);
    }

    method Admit(principal: Principal, role: S.Role, w: S.World)
      modifies this
      ensures Snapshot() == S.Admit(old(Snapshot()), principal, role, old(invitations), w)
    {
      members := members + [S.Member(principal, role, S.Present, w.now, None)];
      Wake(w);
    }

    method Wake(w: S.World)
      modifies this`session
      ensures session == S.Woken(old(session), w.now)
    {
      if session.lifecycle == S.Dormant {
        session := session.(lifecycle := S.Active, updatedAt := w.now);
      }
    }

    method Settle(w: S.World)
      modifies this`session
      ensures session == S.Settled(old(session), members, w.now)
    {
      if session.lifecycle == S.Active && !S.HasPresentMembers(members) {
        session := session.(lifecycle := S.Dormant, updatedAt := w.now);
      }
    }

    method Join(caller: Principal, w: S.World) returns (reply: Result<(), S.Refusal>)
      requires Valid()
      modifies this
      ensures Valid() && Did(S.Join(old(Snapshot()), caller, w), old(Snapshot()), Snapshot(), reply)
      ensures reply.Ok? <==> old(R.MayJoin(Snapshot(), caller, w))
      ensures reply.Ok?
              ==> S.IsPresent(members, caller) && session.lifecycle != S.Dormant && !K.IsRevoked(old(members), caller)
      ensures copies == old(copies) && OthersStay(old(members), members, caller)
    {
      hide K.Sound, F.SoundLifecycle, K.IsRevoked, K.UniqueRows, R.MayJoin, S.FindMember, S.FindInvitation;
      ghost var before := Snapshot();
      K.FirstRowTells(before, caller);
      K.SoundHasUniqueRows(before);
      R.JoinDecides(before, caller, w);
      K.NextKeepsSound(before, S.Call(caller, w, S.DoJoin));
      F.NextAdvances(before, S.Call(caller, w, S.DoJoin));
      if S.IsClosedOrClosing(session) {
        return Err(S.SessionClosed);
      }
      var existing := S.FindMember(members, caller);
      if existing.Some? {
        var i := existing.value;
        if members[i].status == S.Revoked {
          return Err(S.AccessRevoked);
        }
        if caller !in w.access {
          return Err(S.NoProjectAccess);
        }
        if members[i].status == S.Left {
          members := members[i := members[i].(status := S.Present, joinedAt := w.now, leftAt := None)];
        }
        Wake(w);
      } else if session.organizationAvailable {
        if caller !in w.organizationAdmits {
          return Err(S.OrganizationOnly);
        }
        Admit(caller, S.DefaultRole(caller, w), w);
      } else if caller in w.access {
        Admit(caller, S.DefaultRole(caller, w), w);
      } else {
        var found := S.FindInvitation(invitations, caller, w.now);
        if found.None? {
          return Err(S.NotInvited);
        }
        var refusal := S.AccessRefusal(caller, w);
        if refusal.Some? {
          return Err(refusal.value);
        }
        var invitation := invitations[found.value];
        invitations := invitations[found.value := invitation.(status := S.Accepted, resolvedAt := Some(w.now))];
        Admit(caller, invitation.role, w);
      }
      S.FindsFirst(members, if existing.Some? then existing.value else |before.members|, caller);
      reply := Ok(());
    }

    method Leave(caller: Principal, w: S.World) returns (reply: Result<(), S.Refusal>)
      requires Valid()
      modifies this
      ensures Valid() && Did(S.Leave(old(Snapshot()), caller, w), old(Snapshot()), Snapshot(), reply)
      ensures reply.Ok? && !S.IsPresent(members, caller)
      ensures copies == old(copies) && invitations == old(invitations) && OthersStay(old(members), members, caller)
      ensures session.lifecycle == S.Active && old(S.IsPresent(members, caller)) ==> S.HasPresentMembers(members)
    {
      K.NextKeepsSound(Snapshot(), S.Call(caller, w, S.DoLeave));
      F.NextAdvances(Snapshot(), S.Call(caller, w, S.DoLeave));
      var found := S.FindMember(members, caller);
      if found.None? || members[found.value].status != S.Present {
        return Ok(());
      }
      members := members[found.value := members[found.value].(status := S.Left, leftAt := Some(w.now))];
      Settle(w);
      reply := Ok(());
    }

    method ResolveInvitation(caller: Principal, w: S.World, index: nat, accept: bool)
      returns (reply: Result<S.InvitationStatus, S.Refusal>)
      requires Valid()
      modifies this
      ensures Valid()
      ensures Did(S.ResolveInvitation(old(Snapshot()), caller, w, index, accept), old(Snapshot()), Snapshot(), reply)
      ensures reply == Ok(S.Accepted) ==> S.IsPresent(members, caller) && !K.IsRevoked(old(members), caller)
      ensures copies == old(copies) && OthersStay(old(members), members, caller)
    {
      hide K.Sound, F.SoundLifecycle, K.IsRevoked, S.FindMember;
      K.FirstRowTells(Snapshot(), caller);
      K.NextKeepsSound(Snapshot(), S.Call(caller, w, S.DoResolveInvitation(index, accept)));
      F.NextAdvances(Snapshot(), S.Call(caller, w, S.DoResolveInvitation(index, accept)));
      if index >= |invitations| || invitations[index].target != caller {
        return Err(S.InvitationMissing);
      }
      var invitation := invitations[index];
      if invitation.status != S.Pending {
        return Err(S.InvitationResolved);
      }
      if invitation.expiresAt <= w.now {
        invitations := invitations[index := invitation.(status := S.Expired, resolvedAt := Some(w.now))];
        return Ok(S.Expired);
      }
      if !accept {
        invitations := invitations[index := invitation.(status := S.Declined, resolvedAt := Some(w.now))];
        return Ok(S.Declined);
      }
      if S.IsClosedOrClosing(session) {
        return Err(S.SessionClosed);
      }
      var existing := S.FindMember(members, caller);
      if existing.Some? && members[existing.value].status == S.Revoked {
        return Err(S.AccessRevoked);
      }
      var refusal := S.AccessRefusal(caller, w);
      if refusal.Some? {
        return Err(refusal.value);
      }
      invitations := invitations[index := invitation.(status := S.Accepted, resolvedAt := Some(w.now))];
      if existing.Some? {
        var i := existing.value;
        if members[i].status != S.Present {
          members := members[i := members[i].(status := S.Present, joinedAt := w.now, leftAt := None)];
        }
        Wake(w);
      } else {
        Admit(caller, invitation.role, w);
      }
      S.FindsFirst(members, if existing.Some? then existing.value else |old(members)|, caller);
      reply := Ok(S.Accepted);
    }

    method UpdateMemberRole(caller: Principal, w: S.World, target: Principal,
                            role: S.Role) returns (reply: Result<(), S.Refusal>)
      requires Valid()
      modifies this
      ensures Valid()
      ensures Did(S.UpdateMemberRole(old(Snapshot()), caller, w, target, role), old(Snapshot()), Snapshot(), reply)
      ensures reply.Ok? <==>
              && old(session).lifecycle !in {S.Closed, S.Closing} && R.MayManage(old(members), w.managers, caller)
              && R.IsJoined(old(members), target)
      ensures reply.Ok? ==> S.IsPresent(members, target) && members[S.FindMember(members, target).value].role == role
      ensures session == old(session) && copies == old(copies) && invitations == old(invitations)
      ensures |members| == |old(members)| && OthersStay(old(members), members, target)
    {
      K.NextKeepsSound(Snapshot(), S.Call(caller, w, S.DoUpdateMemberRole(target, role)));
      K.SoundHasUniqueRows(Snapshot());
      R.RoleUpdateDecides(Snapshot(), caller, w, target, role);
      if S.IsClosedOrClosing(session) {
        return Err(S.SessionClosed);
      }
      if !S.IsManager(S.State(session, members, copies, invitations), caller, w) {
        return Err(S.NotManager);
      }
      var found := S.FindMember(members, target);
      if found.None? || members[found.value].status != S.Present {
        return Err(S.MemberNotActive);
      }
      members := members[found.value := members[found.value].(role := role)];
      S.FindsFirst(members, found.value, target);
      reply := Ok(());
    }

    method UpdateAccessMode(caller: Principal, w: S.World, organizationAvailable: bool, inOrganization: bool)
      returns (reply: Result<(), S.Refusal>)
      requires Valid()
      modifies this
      ensures Valid()
      ensures Did(S.UpdateAccessMode(old(Snapshot()), caller, w, organizationAvailable, inOrganization),
                  old(Snapshot()), Snapshot(), reply)
      ensures reply.Ok? <==>
              && old(session).lifecycle !in {S.Closed, S.Closing} && R.MayManage(old(members), w.managers, caller)
              && (!organizationAvailable || old(session).organizationAvailable || (w.projectIsLive && inOrganization))
      ensures reply.Ok? ==> session.organizationAvailable == organizationAvailable
      ensures members == old(members) && copies == old(copies) && invitations == old(invitations)
    {
      K.NextKeepsSound(Snapshot(), S.Call(caller, w, S.DoUpdateAccessMode(organizationAvailable, inOrganization)));
      F.NextAdvances(Snapshot(), S.Call(caller, w, S.DoUpdateAccessMode(organizationAvailable, inOrganization)));
      K.SoundHasUniqueRows(Snapshot());
      R.AccessModeDecides(Snapshot(), caller, w, organizationAvailable, inOrganization);
      if S.IsClosedOrClosing(session) {
        return Err(S.SessionClosed);
      }
      if !S.IsManager(S.State(session, members, copies, invitations), caller, w) {
        return Err(S.NotManager);
      }
      if session.organizationAvailable == organizationAvailable {
        return Ok(());
      }
      if organizationAvailable && !(w.projectIsLive && inOrganization) {
        return Err(S.NoOrganization);
      }
      session := session.(organizationAvailable := organizationAvailable, updatedAt := w.now);
      reply := Ok(());
    }

    method InviteParticipant(caller: Principal, w: S.World, device: Option<Principal>, key: S.GivenKey, role: S.Role)
      returns (reply: Result<bool, S.Refusal>)
      requires Valid()
      modifies this
      ensures Valid()
      ensures Did(S.InviteParticipant(old(Snapshot()), caller, w, device, key, role),
                  old(Snapshot()), Snapshot(), reply)
      ensures reply.Ok? <==>
              && old(session).lifecycle !in {S.Closed, S.Closing} && R.MayManage(old(members), w.managers, caller)
              && R.NamesSomeone(device, key, w) && !R.Names(device, key, w, caller)
      ensures reply.Ok?
              ==> var invitee := S.Invitee(device, key, w);
                  invitee.Ok? && S.FindInvitation(invitations, invitee.value, w.now).Some?
      ensures reply == Ok(true) ==> invitations == old(invitations)
      ensures session == old(session) && members == old(members) && copies == old(copies)
    {
      hide K.Sound, F.SoundLifecycle, S.IsManager, K.UniqueRows, R.MayManage;
      K.NextKeepsSound(Snapshot(), S.Call(caller, w, S.DoInvite(device, key, role)));
      K.SoundHasUniqueRows(Snapshot());
      R.InvitationDecides(Snapshot(), caller, w, device, key, role);
      if S.IsClosedOrClosing(session) {
        return Err(S.SessionClosed);
      }
      if !S.IsManager(S.State(session, members, copies, invitations), caller, w) {
        return Err(S.NotManager);
      }
      if key.MalformedKey? {
        return Err(S.NotAnIdentity);
      }
      var target;
      if device.Some? {
        if device.value !in w.registered {
          return Err(S.UnknownDevice);
        }
        target := device.value;
      } else if key.KeyOf? {
        target := key.owner;
      } else {
        return Err(S.NobodyNamed);
      }
      if target == caller {
        return Err(S.AlreadyIn);
      }
      if S.FindInvitation(invitations, target, w.now).Some? {
        return Ok(true);
      }
      invitations := invitations + [S.Invitation(target, role, S.Pending, caller, w.now + S.INVITATION_TTL_MS, None)];
      assert S.IsOpenFor(invitations[|invitations| - 1], target, w.now);
      reply := Ok(false);
    }

    method StampCopies(target: Principal, now: int)
      modifies this`copies
      ensures copies == S.WithCopiesRevoked(old(copies), target, now)
    {
      for i := 0 to |copies|
        modifies this`copies
        invariant |copies| == |old(copies)|
        invariant forall k :: 0 <= k < i ==> copies[k] == S.WithCopiesRevoked(old(copies), target, now)[k]
        invariant forall k :: i <= k < |copies| ==> copies[k] == old(copies)[k]
      {
        if copies[i].recipient == target && copies[i].revokedAt == None {
          copies := copies[i := copies[i].(revokedAt := Some(now))];
        }
      }
    }

    method WithdrawInvitations(target: Principal, now: int)
      modifies this`invitations
      ensures invitations == S.WithInvitationsWithdrawn(old(invitations), target, now)
    {
      for i := 0 to |invitations|
        modifies this`invitations
        invariant |invitations| == |old(invitations)|
        invariant forall k :: 0 <= k < i
                         ==> invitations[k] == S.WithInvitationsWithdrawn(old(invitations), target, now)[k]
        invariant forall k :: i <= k < |invitations| ==> invitations[k] == old(invitations)[k]
      {
        if invitations[i].status == S.Pending && invitations[i].target == target {
          invitations := invitations[i := invitations[i].(status := S.Withdrawn, resolvedAt := Some(now))];
        }
      }
    }

    method RevokeMember(caller: Principal, w: S.World, target: Principal) returns (reply: Result<int, S.Refusal>)
      requires Valid()
      modifies this
      ensures Valid() && Did(S.RevokeMember(old(Snapshot()), caller, w, target), old(Snapshot()), Snapshot(), reply)
      ensures reply.Ok? <==> target != caller && R.MayManage(old(members), w.managers, caller)
      ensures reply == Err(S.NotManager) <==> !R.MayManage(old(members), w.managers, caller)
      ensures reply.Ok? && S.FindMember(old(members), target).Some? ==> K.IsRevoked(members, target)
      ensures reply.Ok? ==> HoldsNothing(copies, target) && IsUninvited(invitations, target)
      ensures reply.Ok? ==> reply.value == S.ActiveKeyVersion(session)
      ensures |members| == |old(members)| && |copies| == |old(copies)| && OthersStay(old(members), members, target)
    {
      hide K.Sound, F.SoundLifecycle, S.IsManager, S.FindMember, K.IsRevoked, HoldsNothing, IsUninvited, OthersStay;
      hide S.WithCopiesRevoked, S.WithInvitationsWithdrawn, K.UniqueRows, R.MayManage;
      K.SoundHasUniqueRows(Snapshot());
      R.RevocationDecides(Snapshot(), caller, w, target);
      RevocationIsComplete(Snapshot(), caller, w, target);
      ghost var before := Snapshot();
      K.NextKeepsSound(before, S.Call(caller, w, S.DoRevoke(target)));
      F.NextAdvances(before, S.Call(caller, w, S.DoRevoke(target)));
      if !S.IsManager(S.State(session, members, copies, invitations), caller, w) {
        return Err(S.NotManager);
      }
      if target == caller {
        return Err(S.UseLeave);
      }
      var found := S.FindMember(members, target);
      var rotatedTo := S.ActiveKeyVersion(session);
      if found.Some? && members[found.value].status != S.Revoked {
        var member := members[found.value];
        members := members[found.value :=
          member.(status := S.Revoked, leftAt := if member.leftAt.Some? then member.leftAt else Some(w.now))];
        rotatedTo := rotatedTo + 1;
        session := session.(activeKeyVersion := Some(rotatedTo), updatedAt := w.now);
      }
      StampCopies(target, w.now);
      WithdrawInvitations(target, w.now);
      Settle(w);
      reply := Ok(rotatedTo);
    }

    method InitializeSessionKey(caller: Principal, w: S.World,
                                wrappedKey: string) returns (reply: Result<bool, S.Refusal>)
      requires Valid()
      modifies this
      ensures Valid()
      ensures Did(S.InitializeSessionKey(old(Snapshot()), caller, w, wrappedKey), old(Snapshot()), Snapshot(), reply)
      ensures reply.Ok? <==> old(session).lifecycle !in {S.Closed, S.Closing} && R.WorksOn(old(members), caller)
      ensures reply.Ok? ==> S.KeyExists(copies, S.ActiveKeyVersion(session))
      ensures reply == Ok(true) ==>
                && !S.KeyExists(old(copies), S.ActiveKeyVersion(session))
                && S.HoldsKey(copies, caller, S.ActiveKeyVersion(session))
      ensures reply != Ok(true) ==> copies == old(copies)
      ensures session == old(session) && members == old(members) && invitations == old(invitations)
    {
      hide K.Sound, F.SoundLifecycle, S.KeyExists, S.HoldsKey, S.FindMember, K.UniqueRows, R.WorksOn;
      K.SoundHasUniqueRows(Snapshot());
      R.InitializationDecides(Snapshot(), caller, w, wrappedKey);
      InitializationHolds(Snapshot(), caller, w, wrappedKey);
      K.NextKeepsSound(Snapshot(), S.Call(caller, w, S.DoInitializeKey(wrappedKey)));
      F.NextAdvances(Snapshot(), S.Call(caller, w, S.DoInitializeKey(wrappedKey)));
      if S.IsClosedOrClosing(session) {
        return Err(S.SessionClosed);
      }
      if !S.IsPresent(members, caller) {
        return Err(S.NotJoined);
      }
      if members[S.FindMember(members, caller).value].role == S.Viewer {
        return Err(S.ViewerOnly);
      }
      var version := S.ActiveKeyVersion(session);
      if S.KeyExists(copies, version) {
        return Ok(false);
      }
      copies := copies + [S.KeyCopy(version, caller, caller, wrappedKey, w.now, None)];
      reply := Ok(true);
    }

    method ListMembersNeedingSessionKey(caller: Principal, w: S.World, requested: Option<int>)
      returns (reply: Result<seq<Principal>, S.Refusal>)
      ensures reply == S.ListMembersNeedingSessionKey(Snapshot(), caller, w, requested)
    {
      if session.lifecycle == S.Closing || caller !in w.access || !S.IsPresent(members, caller) {
        return Ok([]);
      }
      var active := S.ActiveKeyVersion(session);
      var version := if requested.Some? then requested.value else active;
      if !S.IsSafeInteger(version) || version < 1 || version > active {
        return Err(S.BadGeneration);
      }
      if !S.HoldsKey(copies, caller, active) || !S.HoldsKey(copies, caller, version) {
        return Ok([]);
      }
      var recipients := [];
      assert members[0..] == members;
      for i := 0 to |members|
        invariant recipients + S.Lacking(members[i..], copies, w, version) == S.Lacking(members, copies, w, version)
      {
        assert members[i..][0] == members[i] && members[i..][1..] == members[i + 1..];
        var member := members[i];
        if member.status == S.Present && member.principal in w.activeDevices && member.principal in w.access
           && !S.HoldsKey(copies, member.principal, version) {
          recipients := recipients + [member.principal];
        }
      }
      assert members[|members|..] == [];
      assert recipients == S.Lacking(members, copies, w, version);
      reply := Ok(recipients);
    }

    method ShareSessionKey(caller: Principal, w: S.World, requested: Option<int>, recipient: Principal,
                           wrappedKey: string)
      returns (reply: Result<bool, S.Refusal>)
      requires Valid()
      modifies this
      ensures Valid()
      ensures Did(S.ShareSessionKey(old(Snapshot()), caller, w, requested, recipient, wrappedKey),
                  old(Snapshot()), Snapshot(), reply)
      ensures reply.Ok? <==>
              && old(session).lifecycle != S.Closing && R.IsJoined(old(members), caller) && caller in w.access
              && R.IsGeneration(S.RequestedVersion(old(Snapshot()), requested), S.ActiveKeyVersion(old(session)))
              && R.HasCopy(old(copies), caller, S.ActiveKeyVersion(old(session)))
              && R.HasCopy(old(copies), caller, S.RequestedVersion(old(Snapshot()), requested))
              && R.IsJoined(old(members), recipient) && recipient in w.activeDevices && recipient in w.access
      ensures reply.Ok? ==> S.HoldsKey(copies, recipient, S.RequestedVersion(Snapshot(), requested))
      ensures reply != Ok(true) ==> copies == old(copies)
      ensures session == old(session) && members == old(members) && invitations == old(invitations)
    {
      hide K.Sound, F.SoundLifecycle, S.FindMember, K.UniqueRows, R.IsJoined, R.HasCopy, R.IsGeneration;
      K.SoundHasUniqueRows(Snapshot());
      R.SharingDecides(Snapshot(), caller, w, requested, recipient, wrappedKey);
      K.NextKeepsSound(Snapshot(), S.Call(caller, w, S.DoShareKey(requested, recipient, wrappedKey)));
      F.NextAdvances(Snapshot(), S.Call(caller, w, S.DoShareKey(requested, recipient, wrappedKey)));
      if session.lifecycle == S.Closing {
        return Err(S.ClosingNow);
      }
      if !S.IsPresent(members, caller) {
        return Err(S.NotJoined);
      }
      if caller !in w.access {
        return Err(S.NoProjectAccess);
      }
      var active := S.ActiveKeyVersion(session);
      var version := if requested.Some? then requested.value else active;
      if !S.IsSafeInteger(version) || version < 1 || version > active {
        return Err(S.BadGeneration);
      }
      if !S.HoldsKey(copies, caller, active) {
        return Err(S.SenderLacksActiveKey);
      }
      if !S.HoldsKey(copies, caller, version) {
        return Err(S.SenderLacksKey);
      }
      if !S.IsPresent(members, recipient) {
        return Err(S.RecipientNotMember);
      }
      if recipient !in w.activeDevices {
        return Err(S.RecipientInactive);
      }
      if recipient !in w.access {
        return Err(S.RecipientNoAccess);
      }
      if S.HoldsKey(copies, recipient, version) {
        return Ok(false);
      }
      copies := copies + [S.KeyCopy(version, recipient, caller, wrappedKey, w.now, None)];
      assert copies[|copies| - 1].recipient == recipient;
      reply := Ok(true);
    }

    method FinalizeLifecycle(principal: Principal, w: S.World, expectedRevision: int, fence: S.Fence)
      returns (reply: Result<S.Commit, S.Refusal>)
      requires Valid()
      modifies this
      ensures Valid()
      ensures Did(S.FinalizeLifecycle(old(Snapshot()), principal, w, expectedRevision, fence),
                  old(Snapshot()), Snapshot(), reply)
      ensures reply == Err(S.NotAttested) <==>
              || principal !in w.activeDevices || principal !in w.access
              || !R.MayManage(old(members), w.managers, principal)
      ensures reply.Ok? && !old(R.IsRepeat(session, fence)) ==> old(R.Fits(session, expectedRevision, fence))
      ensures reply.Ok? ==> R.IsWellFormed(fence, principal, expectedRevision)
      ensures reply.Ok? ==>
                && session.receipt.Some? && session.receipt.value.fence == fence
                && session.receipt.value.expectedRevision == expectedRevision
                && reply.value.revision == S.Revision(session)
                && (reply.value.superseded <==> S.Revision(session) > expectedRevision + 1)
      ensures members == old(members) && copies == old(copies) && invitations == old(invitations)
    {
      hide K.Sound, F.SoundLifecycle, S.IsManager, S.IsValidFence, K.UniqueRows, R.MayManage, R.Fits, R.IsWellFormed;
      K.SoundHasUniqueRows(Snapshot());
      R.FinalizationDecides(Snapshot(), principal, w, expectedRevision, fence);
      CommitIsReceipted(Snapshot(), principal, w, expectedRevision, fence);
      K.NextKeepsSound(Snapshot(), S.Call(principal, w, S.DoFinalize(expectedRevision, fence)));
      F.NextAdvances(Snapshot(), S.Call(principal, w, S.DoFinalize(expectedRevision, fence)));
      if principal !in w.activeDevices || !S.IsManager(S.State(session, members, copies, invitations), principal, w)
         || principal !in w.access {
        return Err(S.NotAttested);
      }
      if !S.IsValidFence(fence, principal, expectedRevision) {
        return Err(S.BadFence);
      }
      var revision := S.Revision(session);
      if session.receipt.Some? && session.receipt.value.fence.fenceId == fence.fenceId {
        if session.receipt.value.expectedRevision != expectedRevision || session.receipt.value.fence != fence {
          return Err(S.ReceiptMismatch);
        }
        return Ok(S.Commit(revision, revision != expectedRevision + 1));
      }
      if revision != expectedRevision {
        return Err(S.RevisionChanged);
      }
      if S.ActiveKeyVersion(session) != fence.keyVersion {
        return Err(S.KeyChanged);
      }
      if fence.sessionSeq < session.lastDurableSeq || fence.sessionSeq < session.lastSnapshotSeq {
        return Err(S.SnapshotBehind);
      }
      var walked := WalkLifecycle(session.lifecycle, S.StepsFor(fence.intent));
      if walked.Err? {
        return Err(walked.error);
      }
      session := session.(
        lifecycle := walked.value,
        lifecycleRevision := Some(revision + 1),
        receipt := Some(S.Receipt(fence, expectedRevision, w.now)),
        lastDurableSeq := fence.sessionSeq, lastSnapshotSeq := fence.sessionSeq,
        lastCheckpointSeq := fence.gitSavedThroughSeq,
        lastCommitOid := if session.lastCheckpointSeq.Some? && session.lastCheckpointSeq == fence.gitSavedThroughSeq
                         then session.lastCommitOid else None,
        pausedAt := if fence.intent == S.Pause then Some(w.now) else session.pausedAt,
        closedAt := if fence.intent == S.Close then Some(w.now) else session.closedAt,
        updatedAt := w.now);
      reply := Ok(S.Commit(revision + 1, false));
    }

    method EveryoneLeaves(now: int)
      modifies this`members
      ensures members == S.WithEveryoneLeft(old(members), now)
    {
      for i := 0 to |members|
        modifies this`members
        invariant |members| == |old(members)|
        invariant forall k :: 0 <= k < i ==> members[k] == S.WithEveryoneLeft(old(members), now)[k]
        invariant forall k :: i <= k < |members| ==> members[k] == old(members)[k]
      {
        if members[i].status == S.Present {
          members := members[i := members[i].(status := S.Left, leftAt := Some(now))];
        }
      }
    }

    method Close(caller: Principal, w: S.World, force: bool) returns (reply: Result<(), S.Refusal>)
      requires Valid()
      modifies this
      ensures Valid() && Did(S.CloseSession(old(Snapshot()), caller, w, force), old(Snapshot()), Snapshot(), reply)
      ensures reply.Ok? <==>
              R.MayManage(old(members), w.managers, caller) && (force || old(session).lifecycle == S.Closed)
      ensures reply == Err(S.NotManager) <==> !R.MayManage(old(members), w.managers, caller)
      ensures reply.Ok? ==> session.lifecycle == S.Closed
      ensures reply.Ok? && old(session).lifecycle != S.Closed ==> !S.HasPresentMembers(members)
      ensures copies == old(copies) && invitations == old(invitations) && |members| == |old(members)|
    {
      hide K.Sound, F.SoundLifecycle, S.IsManager, S.WithEveryoneLeft, S.HasPresentMembers, K.UniqueRows, R.MayManage;
      K.SoundHasUniqueRows(Snapshot());
      R.CloseDecides(Snapshot(), caller, w, force);
      NobodyStays(members, w.now);
      ghost var before := Snapshot();
      K.NextKeepsSound(before, S.Call(caller, w, S.DoClose(force)));
      F.NextAdvances(before, S.Call(caller, w, S.DoClose(force)));
      if !S.IsManager(S.State(session, members, copies, invitations), caller, w) {
        return Err(S.NotManager);
      }
      if session.lifecycle == S.Closed {
        return Ok(());
      }
      if !force {
        return Err(S.UseDaemon);
      }
      session := session.(lifecycle := S.Closed, lifecycleRevision := Some(S.Revision(session) + 1),
                          closedAt := Some(w.now), updatedAt := w.now);
      EveryoneLeaves(w.now);
      reply := Ok(());
    }

    method Pause(caller: Principal, w: S.World, force: bool) returns (reply: Result<(), S.Refusal>)
      requires Valid()
      modifies this
      ensures Valid() && Did(S.PauseSession(old(Snapshot()), caller, w, force), old(Snapshot()), Snapshot(), reply)
      ensures reply.Ok? <==>
              R.MayManage(old(members), w.managers, caller) && (force || old(session).lifecycle == S.Paused)
      ensures reply == Err(S.NotManager) <==> !R.MayManage(old(members), w.managers, caller)
      ensures reply.Ok? ==> session.lifecycle == S.Paused && session.receipt == old(session).receipt
      ensures members == old(members) && copies == old(copies) && invitations == old(invitations)
    {
      hide K.Sound, F.SoundLifecycle, S.IsManager, K.UniqueRows, R.MayManage;
      K.SoundHasUniqueRows(Snapshot());
      R.PauseDecides(Snapshot(), caller, w, force);
      K.NextKeepsSound(Snapshot(), S.Call(caller, w, S.DoPause(force)));
      F.NextAdvances(Snapshot(), S.Call(caller, w, S.DoPause(force)));
      if !S.IsManager(S.State(session, members, copies, invitations), caller, w) {
        return Err(S.NotManager);
      }
      if session.lifecycle == S.Paused {
        return Ok(());
      }
      if !force {
        return Err(S.UseDaemon);
      }
      session := session.(lifecycle := S.Paused, pausedAt := Some(w.now),
                          lifecycleRevision := Some(S.Revision(session) + 1), updatedAt := w.now);
      reply := Ok(());
    }

    method Resume(caller: Principal, w: S.World) returns (reply: Result<(), S.Refusal>)
      requires Valid()
      modifies this
      ensures Valid() && Did(S.ResumeSession(old(Snapshot()), caller, w), old(Snapshot()), Snapshot(), reply)
      ensures reply.Ok? <==>
              && R.MayManage(old(members), w.managers, caller)
              && old(session).lifecycle in {S.Creating, S.Active, S.Dormant, S.Paused, S.Blocked}
      ensures reply == Err(S.NotManager) <==> !R.MayManage(old(members), w.managers, caller)
      ensures reply.Ok? ==> session.lifecycle == S.Active
      ensures members == old(members) && copies == old(copies) && invitations == old(invitations)
    {
      hide K.Sound, F.SoundLifecycle, S.IsManager, K.UniqueRows, R.MayManage;
      K.SoundHasUniqueRows(Snapshot());
      R.ResumeDecides(Snapshot(), caller, w);
      K.NextKeepsSound(Snapshot(), S.Call(caller, w, S.DoResume));
      F.NextAdvances(Snapshot(), S.Call(caller, w, S.DoResume));
      if !S.IsManager(S.State(session, members, copies, invitations), caller, w) {
        return Err(S.NotManager);
      }
      if session.lifecycle == S.Active {
        return Ok(());
      }
      var walked := WalkLifecycle(session.lifecycle, [S.Active]);
      if walked.Err? {
        return Err(walked.error);
      }
      session := session.(lifecycle := walked.value, pausedAt := None,
                          lifecycleRevision := Some(S.Revision(session) + 1), updatedAt := w.now);
      reply := Ok(());
    }
  }
}
