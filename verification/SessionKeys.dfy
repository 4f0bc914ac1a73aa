/**
 * The key-generation protocol: what holds of the key copies of a session after every run of
 * mutations, and what sharing does to the list of members who still need a key.
 */
module SessionKeys {
  import opened Prelude
  import opened SessionState

  // ---------- The invariant ----------

  ghost predicate UniqueRows(members: seq<Member>) {
    forall i, j :: 0 <= i < j < |members| ==> members[i].principal != members[j].principal
  }

  ghost function RevokedRows(members: seq<Member>): set<int> {
    set i | 0 <= i < |members| && members[i].status == Revoked
  }

  ghost predicate IsRevoked(members: seq<Member>, principal: Principal) {
    exists i :: 0 <= i < |members| && members[i].principal == principal && members[i].status == Revoked
  }

  /** Row i belongs to the copy's recipient, and is revoked exactly when the copy is. */
  ghost predicate RowOf(members: seq<Member>, i: int, copy: KeyCopy) {
    && 0 <= i < |members| && members[i].principal == copy.recipient
    && (members[i].status == Revoked <==> copy.revokedAt.Some?)
  }

  ghost predicate SoundCopy(members: seq<Member>, copy: KeyCopy, active: int) {
    && 1 <= copy.version <= active
    && (copy.version == active ==> copy.revokedAt.None?)
    && (exists i :: RowOf(members, i, copy))
  }

  /** Copy i is the first of its generation. */
  ghost predicate IsFirst(copies: seq<KeyCopy>, i: nat)
    requires i < |copies|
  {
    forall j :: 0 <= j < i ==> copies[j].version != copies[i].version
  }

  /** Copy j is the one whose holder sent copy i. */
  ghost predicate IsParent(copies: seq<KeyCopy>, j: int, i: nat)
    requires i < |copies|
  {
    0 <= j < i && copies[j].version == copies[i].version && copies[j].recipient == copies[i].sender
  }

  /**
   * The copies of each generation form a tree: the first is made by its own recipient, every
   * other by a device that already held one, and no device receives two.
   */
  ghost predicate CustodyTree(copies: seq<KeyCopy>) {
    && (forall i: nat :: i < |copies| ==>
          if IsFirst(copies, i) then copies[i].sender == copies[i].recipient
          else exists j :: IsParent(copies, j, i))
    && (forall i, j :: 0 <= i < j < |copies| && copies[i].version == copies[j].version
                       ==> copies[i].recipient != copies[j].recipient)
  }

  ghost predicate Sound(s: State) {
    var active := ActiveKeyVersion(s.session);
    && UniqueRows(s.members)
    && active == 1 + |RevokedRows(s.members)|
    && (forall k :: 0 <= k < |s.copies| ==> SoundCopy(s.members, s.copies[k], active))
    && CustodyTree(s.copies)
  }

  // ---------- The invariant is kept ----------

  /** Rows are only added, never revoked, and keep their principals. */
  ghost predicate RowsKept(before: seq<Member>, after: seq<Member>) {
    && |before| <= |after|
    && (forall i :: 0 <= i < |before| ==>
          after[i].principal == before[i].principal && (after[i].status == Revoked <==> before[i].status == Revoked))
    && (forall i :: |before| <= i < |after| ==> after[i].status != Revoked)
    && UniqueRows(after)
  }

  lemma RowsKeptKeepsSound(s: State, t: State)
    requires Sound(s) && RowsKept(s.members, t.members)
    requires t.copies == s.copies && ActiveKeyVersion(t.session) == ActiveKeyVersion(s.session)
    ensures Sound(t)
  {
    assert RevokedRows(t.members) == RevokedRows(s.members);
    forall k | 0 <= k < |s.copies|
      ensures SoundCopy(t.members, s.copies[k], ActiveKeyVersion(s.session))
    {
      assert SoundCopy(s.members, s.copies[k], ActiveKeyVersion(s.session));
      var i :| RowOf(s.members, i, s.copies[k]);
      assert RowOf(t.members, i, s.copies[k]);
    }
  }

  lemma PresentRecipientsHoldUnrevoked(s: State, principal: Principal, k: nat)
    requires Sound(s) && IsPresent(s.members, principal) && k < |s.copies| && s.copies[k].recipient == principal
    ensures s.copies[k].revokedAt == None
  {
    assert SoundCopy(s.members, s.copies[k], ActiveKeyVersion(s.session));
    var i :| RowOf(s.members, i, s.copies[k]);
    var found := FindMember(s.members, principal).value;
    assert i == found;
  }

  /** A copy added for a present member, by itself when it starts a generation and by a holder otherwise. */
  lemma AddedCopyKeepsSound(s: State, copy: KeyCopy)
    requires Sound(s) && IsPresent(s.members, copy.recipient) && copy.revokedAt == None
    requires 1 <= copy.version <= ActiveKeyVersion(s.session)
    requires !HoldsKey(s.copies, copy.recipient, copy.version)
    requires if KeyExists(s.copies, copy.version) then HoldsKey(s.copies, copy.sender, copy.version)
             else copy.sender == copy.recipient
    ensures Sound(s.(copies := s.copies + [copy]))
  {
    var copies := s.copies + [copy];
    var active := ActiveKeyVersion(s.session);
    forall k | 0 <= k < |copies|
      ensures SoundCopy(s.members, copies[k], active)
    {
      if k < |s.copies| {
        assert SoundCopy(s.members, s.copies[k], active);
      } else {
        assert RowOf(s.members, FindMember(s.members, copy.recipient).value, copy);
      }
    }
    forall i | 0 <= i < |s.copies| && s.copies[i].version == copy.version
      ensures s.copies[i].recipient != copy.recipient
    {
      if s.copies[i].recipient == copy.recipient {
        PresentRecipientsHoldUnrevoked(s, copy.recipient, i);
      }
    }
    forall i: nat | i < |copies|
      ensures if IsFirst(copies, i) then copies[i].sender == copies[i].recipient else exists j :: IsParent(copies, j, i)
    {
      if i < |s.copies| {
        assert forall j :: 0 <= j < i ==> copies[j] == s.copies[j];
        assert IsFirst(copies, i) <==> IsFirst(s.copies, i);
        if !IsFirst(s.copies, i) {
          var j :| IsParent(s.copies, j, i);
          assert IsParent(copies, j, i);
        }
      } else if KeyExists(s.copies, copy.version) {
        var j :| 0 <= j < |s.copies| && s.copies[j].recipient == copy.sender && s.copies[j].version == copy.version;
        assert IsParent(copies, j, i);
      }
    }
  }

  /** Revoking an unrevoked member's row and stamping its copies moves to a fresh generation. */
  lemma RotationKeepsSound(s: State, t: State, target: nat, now: int)
    requires Sound(s) && target < |s.members| && s.members[target].status != Revoked
    requires t.members == s.members[target := RevokedMember(s.members[target], now)]
    requires t.copies == WithCopiesRevoked(s.copies, s.members[target].principal, now)
    requires ActiveKeyVersion(t.session) == ActiveKeyVersion(s.session) + 1
    ensures Sound(t)
  {
    assert RevokedRows(t.members) == RevokedRows(s.members) + {target};
    forall k | 0 <= k < |t.copies|
      ensures SoundCopy(t.members, t.copies[k], ActiveKeyVersion(t.session))
    {
      assert SoundCopy(s.members, s.copies[k], ActiveKeyVersion(s.session));
      var i :| RowOf(s.members, i, s.copies[k]);
      assert RowOf(t.members, i, t.copies[k]);
    }
    SameShapeSameTree(s.copies, t.copies);
  }

  /** Removing a device that is not an unrevoked member finds no copy left to stamp. */
  lemma NothingLeftToStamp(s: State, target: Principal, now: int)
    requires Sound(s)
    requires var found := FindMember(s.members, target); found.None? || s.members[found.value].status == Revoked
    ensures WithCopiesRevoked(s.copies, target, now) == s.copies
  {
    forall k | 0 <= k < |s.copies| && s.copies[k].recipient == target
      ensures s.copies[k].revokedAt.Some?
    {
      assert SoundCopy(s.members, s.copies[k], ActiveKeyVersion(s.session));
      var i :| RowOf(s.members, i, s.copies[k]);
    }
  }

  lemma RevokeKeepsSound(s: State, caller: Principal, w: World, target: Principal)
    requires Sound(s)
    ensures Sound(StateAfter(s, RevokeMember(s, caller, w, target)))
  {
    hide Sound, WithCopiesRevoked, WithInvitationsWithdrawn, RevokedMember;
    var t := StateAfter(s, RevokeMember(s, caller, w, target));
    var found := FindMember(s.members, target);
    if RevokeMember(s, caller, w, target).Ok? {
      if found.Some? && s.members[found.value].status != Revoked {
        RotationKeepsSound(s, t, found.value, w.now);
      } else {
        NothingLeftToStamp(s, target, w.now);
        SoundHasUniqueRows(s);
        RowsKeptKeepsSound(s, t);
      }
    }
  }

  lemma FirstRowTells(s: State, principal: Principal)
    requires Sound(s)
    ensures IsRevoked(s.members, principal)
            <==> var found := FindMember(s.members, principal);
                 found.Some? && s.members[found.value].status == Revoked
  {
    hide CustodyTree, SoundCopy, RevokedRows;
  }

  lemma SoundHasUniqueRows(s: State)
    requires Sound(s)
    ensures UniqueRows(s.members)
  {
  }

  /** Stamping copies as revoked leaves the tree they form alone. */
  lemma SameShapeSameTree(before: seq<KeyCopy>, after: seq<KeyCopy>)
    requires CustodyTree(before) && |after| == |before|
    requires forall i :: 0 <= i < |before| ==>
      (after[i].version == before[i].version
       && after[i].recipient == before[i].recipient && after[i].sender == before[i].sender)
    ensures CustodyTree(after)
  {
    forall i: nat | i < |after|
      ensures if IsFirst(after, i) then after[i].sender == after[i].recipient else exists j :: IsParent(after, j, i)
    {
      assert IsFirst(after, i) <==> IsFirst(before, i);
      if !IsFirst(before, i) {
        var j :| IsParent(before, j, i);
        assert IsParent(after, j, i);
      }
    }
  }

  /** What every mutation but revocation and the key mutations does to the rows that matter to keys. */
  ghost predicate KeysUntouched(s: State, t: State) {
    RowsKept(s.members, t.members) && t.copies == s.copies && ActiveKeyVersion(t.session) == ActiveKeyVersion(s.session)
  }

  lemma JoinLeavesKeys(s: State, c: Principal, w: World)
    requires UniqueRows(s.members)
    ensures KeysUntouched(s, StateAfter(s, Join(s, c, w)))
  {
  }

  lemma ResolveLeavesKeys(s: State, c: Principal, w: World, index: nat, accept: bool)
    requires UniqueRows(s.members)
    ensures KeysUntouched(s, StateAfter(s, ResolveInvitation(s, c, w, index, accept)))
  {
  }

  lemma RowChangesLeaveKeys(s: State, c: Principal, w: World, target: Principal, role: Role)
    requires UniqueRows(s.members)
    ensures KeysUntouched(s, StateAfter(s, Leave(s, c, w)))
    ensures KeysUntouched(s, StateAfter(s, UpdateMemberRole(s, c, w, target, role)))
  {
  }

  lemma InvitationLeavesKeys(s: State, c: Principal, w: World, device: Option<Principal>, key: GivenKey, role: Role)
    requires UniqueRows(s.members)
    ensures KeysUntouched(s, StateAfter(s, InviteParticipant(s, c, w, device, key, role)))
  {
  }

  lemma SettingsLeaveKeys(s: State, c: Principal, w: World, flag: bool, other: bool)
    requires UniqueRows(s.members)
    ensures KeysUntouched(s, StateAfter(s, UpdateAccessMode(s, c, w, flag, other)))
  {
  }

  lemma TogglesLeaveKeys(s: State, c: Principal, w: World, flag: bool)
    requires UniqueRows(s.members)
    ensures KeysUntouched(s, StateAfter(s, PauseSession(s, c, w, flag)))
    ensures KeysUntouched(s, StateAfter(s, ResumeSession(s, c, w)))
  {
    hide WalkLifecycle;
  }

  lemma CloseLeavesKeys(s: State, c: Principal, w: World, flag: bool)
    requires UniqueRows(s.members)
    ensures KeysUntouched(s, StateAfter(s, CloseSession(s, c, w, flag)))
  {
    hide WalkLifecycle;
  }

  lemma FinalizeLeavesKeys(s: State, c: Principal, w: World, expectedRevision: int, fence: Fence)
    requires UniqueRows(s.members)
    ensures KeysUntouched(s, StateAfter(s, FinalizeLifecycle(s, c, w, expectedRevision, fence)))
  {
    hide WalkLifecycle, IsValidFence, IsManager;
  }

  lemma LifecycleLeavesKeys(s: State, c: Principal, w: World, flag: bool, expectedRevision: int, fence: Fence)
    requires UniqueRows(s.members)
    ensures KeysUntouched(s, StateAfter(s, PauseSession(s, c, w, flag)))
    ensures KeysUntouched(s, StateAfter(s, ResumeSession(s, c, w)))
    ensures KeysUntouched(s, StateAfter(s, CloseSession(s, c, w, flag)))
    ensures KeysUntouched(s, StateAfter(s, FinalizeLifecycle(s, c, w, expectedRevision, fence)))
  {
    hide KeysUntouched, PauseSession, ResumeSession, CloseSession, FinalizeLifecycle, UniqueRows;
    TogglesLeaveKeys(s, c, w, flag);
    CloseLeavesKeys(s, c, w, flag);
    FinalizeLeavesKeys(s, c, w, expectedRevision, fence);
  }

  predicate TouchesKeys(mutation: Mutation) {
    mutation.DoRevoke? || mutation.DoInitializeKey? || mutation.DoShareKey?
  }

  lemma OthersLeaveKeys(s: State, call: Call)
    requires UniqueRows(s.members) && !TouchesKeys(call.mutation)
    ensures KeysUntouched(s, Next(s, call))
  {
    hide Join, Leave, ResolveInvitation, UpdateMemberRole, UpdateAccessMode, InviteParticipant,
      PauseSession, ResumeSession, CloseSession, FinalizeLifecycle, KeysUntouched, UniqueRows;
    var Call(c, w, m) := call;
    match m
    case DoJoin => JoinLeavesKeys(s, c, w);
    case DoResolveInvitation(index, accept) => ResolveLeavesKeys(s, c, w, index, accept);
    case DoLeave => RowChangesLeaveKeys(s, c, w, c, Viewer);
    case DoUpdateMemberRole(target, role) => RowChangesLeaveKeys(s, c, w, target, role);
    case DoUpdateAccessMode(available, inOrganization) => SettingsLeaveKeys(s, c, w, available, inOrganization);
    case DoInvite(device, key, role) => InvitationLeavesKeys(s, c, w, device, key, role);
    case DoPause(force) => LifecycleLeavesKeys(s, c, w, force, 0, AnyFence());
    case DoResume => LifecycleLeavesKeys(s, c, w, true, 0, AnyFence());
    case DoClose(force) => LifecycleLeavesKeys(s, c, w, force, 0, AnyFence());
    case DoFinalize(expectedRevision, fence) => LifecycleLeavesKeys(s, c, w, true, expectedRevision, fence);
  }

  ghost function AnyFence(): Fence {
    Fence("", Pause, 0, "", 1, 0, 0, None)
  }

  /** A key mutation that changes anything adds one copy, for a present member. */
  lemma KeyMutationAddsCopy(s: State, call: Call)
    requires call.mutation.DoInitializeKey? || call.mutation.DoShareKey?
    ensures var t := Next(s, call);
            t == s || (|t.copies| == |s.copies| + 1 && t == s.(copies := s.copies + [t.copies[|s.copies|]])
                       && IsPresent(s.members, t.copies[|s.copies|].recipient))
  {
  }

  lemma ShareKeepsSound(s: State, caller: Principal, w: World, requested: Option<int>, recipient: Principal,
                        wrappedKey: string)
    requires Sound(s)
    ensures Sound(StateAfter(s, ShareSessionKey(s, caller, w, requested, recipient, wrappedKey)))
  {
    var t := StateAfter(s, ShareSessionKey(s, caller, w, requested, recipient, wrappedKey));
    if t != s {
      AddedCopyKeepsSound(s, t.copies[|s.copies|]);
    }
  }

  lemma NextKeepsSound(s: State, call: Call)
    requires Sound(s)
    ensures Sound(Next(s, call))
  {
    var t := Next(s, call);
    if call.mutation.DoRevoke? {
      RevokeKeepsSound(s, call.caller, call.world, call.mutation.target);
    } else if !TouchesKeys(call.mutation) {
      hide Next;
      OthersLeaveKeys(s, call);
      RowsKeptKeepsSound(s, t);
    } else if call.mutation.DoShareKey? {
      ShareKeepsSound(s, call.caller, call.world, call.mutation.requested, call.mutation.recipient,
                      call.mutation.wrappedKey);
    } else if t != s {
      AddedCopyKeepsSound(s, t.copies[|s.copies|]);
    }
  }

  /** In every state a session can reach, its copies are sound. */
  lemma {:induction false} ReachableIsSound(creator: Principal, organizationAvailable: bool, createdAt: int,
                                            calls: seq<Call>)
    ensures Sound(Run(Create(creator, organizationAvailable, createdAt), calls))
    decreases |calls|
  {
    var s := Create(creator, organizationAvailable, createdAt);
    if calls == [] {
      assert RevokedRows(s.members) == {};
    } else {
      ReachableIsSound(creator, organizationAvailable, createdAt, calls[..|calls| - 1]);
      NextKeepsSound(Run(s, calls[..|calls| - 1]), calls[|calls| - 1]);
    }
  }

  // ---------- What soundness gives ----------

  /** A removed device has no copy of the active generation, and none that is unrevoked. */
  lemma RevokedHoldNothing(s: State, principal: Principal, k: nat)
    requires Sound(s) && IsRevoked(s.members, principal) && k < |s.copies| && s.copies[k].recipient == principal
    ensures s.copies[k].version < ActiveKeyVersion(s.session) && s.copies[k].revokedAt.Some?
  {
    assert SoundCopy(s.members, s.copies[k], ActiveKeyVersion(s.session));
    var i :| RowOf(s.members, i, s.copies[k]);
  }

  /** Each generation in use has exactly one copy that its own recipient made. */
  lemma OneRoot(copies: seq<KeyCopy>, i: nat)
    requires CustodyTree(copies) && i < |copies|
    ensures copies[i].sender == copies[i].recipient <==> IsFirst(copies, i)
  {
    if !IsFirst(copies, i) {
      var j :| IsParent(copies, j, i);
    }
  }

  ghost function FirstOf(copies: seq<KeyCopy>, i: nat): (first: nat)
    requires i < |copies|
    ensures first <= i && copies[first].version == copies[i].version && IsFirst(copies, first)
  {
    if IsFirst(copies, i) then i
    else
      var j :| 0 <= j < i && copies[j].version == copies[i].version;
      FirstOf(copies, j)
  }

  /** Everyone who passes a key on re-wraps the one in their own copy. */
  ghost predicate Rewraps<K(!new)>(copies: seq<KeyCopy>, key: nat -> K) {
    forall i: nat, j: nat :: i < |copies| && !IsFirst(copies, i) && IsParent(copies, j, i) ==> key(i) == key(j)
  }

  /** Then all copies of a generation carry the key its first copy was made with. */
  lemma {:induction false} OneKeyPerGeneration<K(!new)>(copies: seq<KeyCopy>, key: nat -> K, i: nat)
    requires CustodyTree(copies) && Rewraps(copies, key) && i < |copies|
    ensures key(i) == key(FirstOf(copies, i))
  {
    if !IsFirst(copies, i) {
      var j :| IsParent(copies, j, i);
      OneKeyPerGeneration(copies, key, j);
      FirstIsUnique(copies, FirstOf(copies, i), FirstOf(copies, j));
    }
  }

  lemma FirstIsUnique(copies: seq<KeyCopy>, a: nat, b: nat)
    requires a < |copies| && b < |copies| && copies[a].version == copies[b].version
    requires IsFirst(copies, a) && IsFirst(copies, b)
    ensures a == b
  {
  }

  lemma RevokedStaysRevoked(s: State, call: Call, principal: Principal)
    requires Sound(s) && IsRevoked(s.members, principal)
    ensures IsRevoked(Next(s, call).members, principal)
    ensures |s.copies| <= |Next(s, call).copies|
    ensures forall k :: 0 <= k < |s.copies| ==> Next(s, call).copies[k].recipient == s.copies[k].recipient
    ensures forall k :: |s.copies| <= k < |Next(s, call).copies| ==> Next(s, call).copies[k].recipient != principal
  {
    var i :| 0 <= i < |s.members| && s.members[i].principal == principal && s.members[i].status == Revoked;
    var t := Next(s, call);
    if call.mutation.DoRevoke? {
      assert t.members[i].principal == principal && t.members[i].status == Revoked;
    } else {
      hide Next;
      if TouchesKeys(call.mutation) {
        KeyMutationAddsCopy(s, call);
      } else {
        OthersLeaveKeys(s, call);
        assert t.members[i].principal == principal && t.members[i].status == Revoked;
      }
    }
  }

  /** Whatever happens after a device is removed, it never receives a key copy again. */
  lemma {:induction false} RemovalIsForever(s: State, calls: seq<Call>, principal: Principal)
    requires Sound(s) && IsRevoked(s.members, principal)
    ensures Sound(Run(s, calls)) && IsRevoked(Run(s, calls).members, principal)
    ensures |s.copies| <= |Run(s, calls).copies|
    ensures forall k :: |s.copies| <= k < |Run(s, calls).copies| ==> Run(s, calls).copies[k].recipient != principal
    decreases |calls|
  {
    if calls != [] {
      var prefix, last := calls[..|calls| - 1], calls[|calls| - 1];
      RemovalIsForever(s, prefix, principal);
      var middle := Run(s, prefix);
      RevokedStaysRevoked(middle, last, principal);
      NextKeepsSound(middle, last);
    }
  }

  // ---------- Handing out a generation ----------

  /** A member is listed exactly when sharing with it would add a copy. */
  lemma ListedIffShareable(s: State, caller: Principal, w: World, requested: Option<int>, principal: Principal,
                           wrappedKey: string)
    requires UniqueRows(s.members)
    ensures var listed := ListMembersNeedingSessionKey(s, caller, w, requested);
            var shared := ShareSessionKey(s, caller, w, requested, principal, wrappedKey);
            listed.Ok? && principal in listed.value <==> shared.Ok? && shared.value.1
  {
    var version := RequestedVersion(s, requested);
    if IsPresent(s.members, principal) {
      var i := FindMember(s.members, principal).value;
      assert s.members[i].principal == principal;
    }
    assert (exists i :: 0 <= i < |s.members| && Lacks(s.members[i], principal, s.copies, w, version))
      <==> && IsPresent(s.members, principal)
           && Lacks(s.members[FindMember(s.members, principal).value], principal, s.copies, w, version);
  }

  /** The state after the caller has shared a generation with each listed recipient in turn. */
  function ShareAll(s: State, caller: Principal, w: World, requested: Option<int>, recipients: seq<Principal>,
                    wrap: Principal -> string): State
    decreases |recipients|
  {
    if recipients == [] then s
    else ShareAll(StateAfter(s, ShareSessionKey(s, caller, w, requested, recipients[0], wrap(recipients[0]))),
                  caller, w, requested, recipients[1..], wrap)
  }

  lemma {:induction false} LackingIsDistinct(members: seq<Member>, copies: seq<KeyCopy>, w: World, version: int)
    requires UniqueRows(members)
    ensures forall i, j :: 0 <= i < j < |Lacking(members, copies, w, version)| ==>
              Lacking(members, copies, w, version)[i] != Lacking(members, copies, w, version)[j]
    decreases |members|
  {
    if members != [] {
      LackingIsDistinct(members[1..], copies, w, version);
      assert members[0].principal !in Lacking(members[1..], copies, w, version);
    }
  }

  /** A new copy strikes its recipient off the list and nobody else. */
  lemma {:induction false} LackingAfterCopy(members: seq<Member>, copies: seq<KeyCopy>, w: World, copy: KeyCopy)
    requires UniqueRows(members) && copy.revokedAt == None
    ensures var before := Lacking(members, copies, w, copy.version);
            var after := Lacking(members, copies + [copy], w, copy.version);
            && (copy.recipient !in before ==> after == before)
            && (before != [] && before[0] == copy.recipient ==> after == before[1..])
    decreases |members|
  {
    forall p: Principal
      ensures HoldsKey(copies + [copy], p, copy.version) <==> HoldsKey(copies, p, copy.version) || p == copy.recipient
    {
      var extended := copies + [copy];
      assert forall i :: 0 <= i < |copies| ==> extended[i] == copies[i];
      assert extended[|copies|] == copy;
    }
    if members != [] {
      LackingAfterCopy(members[1..], copies, w, copy);
      LackingIsDistinct(members, copies, w, copy.version);
    }
  }

  lemma StillHolds(copies: seq<KeyCopy>, copy: KeyCopy, principal: Principal, version: int)
    requires HoldsKey(copies, principal, version)
    ensures HoldsKey(copies + [copy], principal, version)
  {
    var i :| 0 <= i < |copies| && copies[i].recipient == principal && copies[i].version == version
             && copies[i].revokedAt == None;
    assert (copies + [copy])[i] == copies[i];
  }

  lemma SenderStaysFit(s: State, caller: Principal, w: World, copy: KeyCopy, version: int)
    requires SenderRefusal(s, caller, w, version).None?
    ensures SenderRefusal(s.(copies := s.copies + [copy]), caller, w, version).None?
  {
    StillHolds(s.copies, copy, caller, ActiveKeyVersion(s.session));
    StillHolds(s.copies, copy, caller, version);
  }

  lemma FitSendersSeeAll(s: State, caller: Principal, w: World, requested: Option<int>)
    requires SenderRefusal(s, caller, w, RequestedVersion(s, requested)).None?
    ensures ListMembersNeedingSessionKey(s, caller, w, requested)
            == Ok(Lacking(s.members, s.copies, w, RequestedVersion(s, requested)))
  {
  }

  lemma ShareAddsCopy(s: State, caller: Principal, w: World, requested: Option<int>, recipient: Principal,
                      wrappedKey: string)
    requires ShareSessionKey(s, caller, w, requested, recipient, wrappedKey).Ok?
    requires ShareSessionKey(s, caller, w, requested, recipient, wrappedKey).value.1
    ensures SenderRefusal(s, caller, w, RequestedVersion(s, requested)).None?
    ensures ShareSessionKey(s, caller, w, requested, recipient, wrappedKey).value.0
            == var copy := KeyCopy(RequestedVersion(s, requested), recipient, caller, wrappedKey, w.now, None);
               s.(copies := s.copies + [copy])
  {
  }

  /** Sharing with the first device listed leaves the rest of the list. */
  lemma SharingShortensTheList(s: State, caller: Principal, w: World, requested: Option<int>, wrappedKey: string)
    requires Sound(s) && ListMembersNeedingSessionKey(s, caller, w, requested).Ok?
    requires ListMembersNeedingSessionKey(s, caller, w, requested).value != []
    ensures var listed := ListMembersNeedingSessionKey(s, caller, w, requested).value;
            var next := StateAfter(s, ShareSessionKey(s, caller, w, requested, listed[0], wrappedKey));
            && Sound(next) && next.members == s.members && next.session == s.session
            && |next.copies| == |s.copies| + 1
            && SenderRefusal(next, caller, w, RequestedVersion(next, requested)).None?
            && ListMembersNeedingSessionKey(next, caller, w, requested) == Ok(listed[1..])
  {
    var listed := ListMembersNeedingSessionKey(s, caller, w, requested).value;
    var version := RequestedVersion(s, requested);
    var copy := KeyCopy(version, listed[0], caller, wrappedKey, w.now, None);
    SoundHasUniqueRows(s);
    ListedIffShareable(s, caller, w, requested, listed[0], wrappedKey);
    ShareAddsCopy(s, caller, w, requested, listed[0], wrappedKey);
    ShareKeepsSound(s, caller, w, requested, listed[0], wrappedKey);
    SenderStaysFit(s, caller, w, copy, version);
    FitSendersSeeAll(s, caller, w, requested);
    FitSendersSeeAll(s.(copies := s.copies + [copy]), caller, w, requested);
    hide Sound, UniqueRows, Lacking, ShareSessionKey, ListMembersNeedingSessionKey, SenderRefusal;
    LackingAfterCopy(s.members, s.copies, w, copy);
  }

  /** Sharing with everyone on the list empties it, and adds exactly as many copies as were listed. */
  lemma {:induction false} SharingDrainsTheList(s: State, caller: Principal, w: World, requested: Option<int>,
                                                wrap: Principal -> string)
    requires Sound(s) && ListMembersNeedingSessionKey(s, caller, w, requested).Ok?
    ensures var listed := ListMembersNeedingSessionKey(s, caller, w, requested).value;
            var t := ShareAll(s, caller, w, requested, listed, wrap);
            && Sound(t) && t.members == s.members && t.session == s.session
            && |t.copies| == |s.copies| + |listed|
            && (SenderRefusal(s, caller, w, RequestedVersion(s, requested)).None? ==>
                  SenderRefusal(t, caller, w, RequestedVersion(t, requested)).None?)
            && ListMembersNeedingSessionKey(t, caller, w, requested) == Ok([])
    decreases |ListMembersNeedingSessionKey(s, caller, w, requested).value|
  {
    hide Sound, ListMembersNeedingSessionKey, ShareSessionKey, SenderRefusal;
    var listed := ListMembersNeedingSessionKey(s, caller, w, requested).value;
    if listed != [] {
      SharingShortensTheList(s, caller, w, requested, wrap(listed[0]));
      SharingDrainsTheList(StateAfter(s, ShareSessionKey(s, caller, w, requested, listed[0], wrap(listed[0]))),
                           caller, w, requested, wrap);
    }
  }

  ghost predicate HasExactlyOneCopy(copies: seq<KeyCopy>, principal: Principal, version: int) {
    exists k :: 0 <= k < |copies| && IsOnlyCopy(copies, k, principal, version)
  }

  ghost predicate IsOnlyCopy(copies: seq<KeyCopy>, k: int, principal: Principal, version: int) {
    && 0 <= k < |copies| && copies[k].recipient == principal && copies[k].version == version
    && copies[k].revokedAt == None
    && forall j :: 0 <= j < |copies| && copies[j].recipient == principal && copies[j].version == version ==> j == k
  }

  lemma NobodyLackingHasOneCopy(s: State, w: World, version: int, principal: Principal)
    requires Sound(s) && Lacking(s.members, s.copies, w, version) == []
    requires IsPresent(s.members, principal) && principal in w.activeDevices && principal in w.access
    ensures HasExactlyOneCopy(s.copies, principal, version)
  {
    var i := FindMember(s.members, principal).value;
    assert principal !in Lacking(s.members, s.copies, w, version);
    assert !Lacks(s.members[i], principal, s.copies, w, version);
    var k :| 0 <= k < |s.copies| && s.copies[k].recipient == principal && s.copies[k].version == version
             && s.copies[k].revokedAt == None;
    assert IsOnlyCopy(s.copies, k, principal, version);
  }

  /** Then every present member with an active device and project access has exactly one copy. */
  lemma SharingReachesEveryone(s: State, caller: Principal, w: World, requested: Option<int>, wrap: Principal -> string)
    requires Sound(s) && SenderRefusal(s, caller, w, RequestedVersion(s, requested)).None?
    ensures ListMembersNeedingSessionKey(s, caller, w, requested).Ok?
    ensures var listed := ListMembersNeedingSessionKey(s, caller, w, requested).value;
            var t := ShareAll(s, caller, w, requested, listed, wrap);
            forall p :: IsPresent(t.members, p) && p in w.activeDevices && p in w.access
                        ==> HasExactlyOneCopy(t.copies, p, RequestedVersion(s, requested))
  {
    SharingDrainsTheList(s, caller, w, requested, wrap);
    var t := ShareAll(s, caller, w, requested, ListMembersNeedingSessionKey(s, caller, w, requested).value, wrap);
    forall p | IsPresent(t.members, p) && p in w.activeDevices && p in w.access
      ensures HasExactlyOneCopy(t.copies, p, RequestedVersion(s, requested))
    {
      NobodyLackingHasOneCopy(t, w, RequestedVersion(t, requested), p);
    }
  }
}
