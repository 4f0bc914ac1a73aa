/**
 * The revision-fenced lifecycle: what a run of mutations can commit, and what a repeated
 * commit is told.
 */
module SessionFences {
  import opened Prelude
  import opened SessionState

  /** A receipt is older than the revision, and the durable position bounds what Git has saved. */
  ghost predicate SoundLifecycle(session: Session) {
    && Revision(session) >= 0
    && (session.receipt.Some? ==> session.receipt.value.expectedRevision < Revision(session))
    && session.lastDurableSeq == session.lastSnapshotSeq
    && (session.lastCheckpointSeq.Some? ==> 0 <= session.lastCheckpointSeq.value <= session.lastDurableSeq)
  }

  /** The order that every mutation respects. */
  ghost predicate Advances(before: Session, after: Session) {
    && Revision(before) <= Revision(after)
    && before.lastDurableSeq <= after.lastDurableSeq
    && (Revision(before) == Revision(after) ==> after.receipt == before.receipt)
  }

  /** The call commits this fence: it is accepted and is not a replay of the current receipt. */
  ghost predicate Commits(s: State, call: Call) {
    && call.mutation.DoFinalize?
    && var DoFinalize(expectedRevision, fence) := call.mutation;
       var outcome := FinalizeLifecycle(s, call.caller, call.world, expectedRevision, fence);
       outcome.Ok? && !IsReplay(s, call.mutation.fence)
  }

  predicate IsReplay(s: State, fence: Fence) {
    s.session.receipt.Some? && s.session.receipt.value.fence.fenceId == fence.fenceId
  }

  /** A commit moves the revision it expected up by one and becomes the receipt. */
  lemma CommitMovesRevision(s: State, call: Call)
    requires Commits(s, call)
    ensures Revision(s.session) == call.mutation.expectedRevision
    ensures Revision(Next(s, call).session) == call.mutation.expectedRevision + 1
    ensures Next(s, call).session.receipt
            == Some(Receipt(call.mutation.fence, call.mutation.expectedRevision, call.world.now))
    ensures Next(s, call).session.lifecycle == if call.mutation.fence.intent == Pause then Paused else Closed
    ensures s.session.lifecycle in (if call.mutation.fence.intent == Pause then {Active, Pausing}
                                    else {Active, Dormant, Paused, Closing, Blocked})
  {
    hide IsValidFence, IsManager;
    var intent := call.mutation.fence.intent;
    WalkOfTwo(s.session.lifecycle, if intent == Pause then Pausing else Closing,
              if intent == Pause then Paused else Closed);
  }

  lemma WalkOfTwo(from: Lifecycle, middle: Lifecycle, to: Lifecycle)
    ensures WalkLifecycle(from, [middle, to])
            == if CanTransition(from, middle) && CanTransition(middle, to) then Ok(to) else Err(IllegalTransition)
  {
    assert [middle, to][1..] == [to] && [to][1..] == [];
    assert WalkLifecycle(to, []) == Ok(to);
    assert WalkLifecycle(middle, [to]) == if CanTransition(middle, to) then Ok(to) else Err(IllegalTransition);
  }

  /** A replay of the current receipt changes nothing, and is told whether the session has moved on since. */
  lemma ReplayChangesNothing(s: State, call: Call)
    requires SoundLifecycle(s.session) && call.mutation.DoFinalize? && IsReplay(s, call.mutation.fence)
    ensures Next(s, call) == s
    ensures var m := call.mutation;
            var outcome := FinalizeLifecycle(s, call.caller, call.world, m.expectedRevision, m.fence);
            outcome.Ok? ==>
              && m.fence == s.session.receipt.value.fence
              && m.expectedRevision == s.session.receipt.value.expectedRevision
              && outcome.value.1.revision == Revision(s.session)
              && (outcome.value.1.superseded <==> Revision(s.session) > m.expectedRevision + 1)
  {
  }

  lemma FinalizeAdvances(s: State, principal: Principal, w: World, expectedRevision: int, fence: Fence)
    requires SoundLifecycle(s.session)
    ensures var t := StateAfter(s, FinalizeLifecycle(s, principal, w, expectedRevision, fence));
            SoundLifecycle(t.session) && Advances(s.session, t.session)
  {
    hide IsManager, WalkLifecycle, IsFenceId, IsBarrierId;
  }

  lemma TogglesAdvance(s: State, caller: Principal, w: World, force: bool)
    requires SoundLifecycle(s.session)
    ensures var t := StateAfter(s, PauseSession(s, caller, w, force));
            SoundLifecycle(t.session) && Advances(s.session, t.session)
    ensures var t := StateAfter(s, ResumeSession(s, caller, w));
            SoundLifecycle(t.session) && Advances(s.session, t.session)
    ensures var t := StateAfter(s, CloseSession(s, caller, w, force));
            SoundLifecycle(t.session) && Advances(s.session, t.session)
  {
    hide IsManager, WalkLifecycle, WithEveryoneLeft;
  }

  /** The parts of a session row that only lifecycle mutations write. */
  ghost predicate SameFences(before: Session, after: Session) {
    && after.lifecycleRevision == before.lifecycleRevision && after.receipt == before.receipt
    && after.lastDurableSeq == before.lastDurableSeq && after.lastSnapshotSeq == before.lastSnapshotSeq
    && after.lastCheckpointSeq == before.lastCheckpointSeq
    && (after.lifecycle == before.lifecycle
        || (before.lifecycle == Active && after.lifecycle == Dormant)
        || (before.lifecycle == Dormant && after.lifecycle == Active))
  }

  predicate IsLifecycleMutation(m: Mutation) {
    m.DoFinalize? || m.DoPause? || m.DoResume? || m.DoClose?
  }

  lemma OthersKeepFences(s: State, call: Call)
    requires !IsLifecycleMutation(call.mutation)
    ensures SameFences(s.session, Next(s, call).session)
  {
    hide IsManager, IsPresent, FindMember, FindInvitation, HoldsKey, KeyExists, HasPresentMembers, WithCopiesRevoked,
      WithInvitationsWithdrawn, Rejoined, ResolvedAs, SenderRefusal, RevokedMember, AccessRefusal, DefaultRole,
      Revision,
      ActiveKeyVersion, RequestedVersion;
  }

  lemma SameFencesAdvance(before: Session, after: Session)
    requires SoundLifecycle(before) && SameFences(before, after)
    ensures SoundLifecycle(after) && Advances(before, after)
  {
  }

  lemma NextAdvances(s: State, call: Call)
    requires SoundLifecycle(s.session)
    ensures SoundLifecycle(Next(s, call).session) && Advances(s.session, Next(s, call).session)
  {
    hide FinalizeLifecycle, PauseSession, ResumeSession, CloseSession, SoundLifecycle, Advances, SameFences, StateAfter;
    var Call(c, w, m) := call;
    if !IsLifecycleMutation(m) {
      OthersKeepFences(s, call);
      SameFencesAdvance(s.session, Next(s, call).session);
    } else {
      match m
      case DoFinalize(expectedRevision, fence) => FinalizeAdvances(s, c, w, expectedRevision, fence);
      case DoPause(force) => TogglesAdvance(s, c, w, force);
      case DoClose(force) => TogglesAdvance(s, c, w, force);
      case DoResume => TogglesAdvance(s, c, w, true);
    }
  }

  /** Every reachable lifecycle is sound. */
  lemma {:induction false} ReachableLifecycleIsSound(creator: Principal, organizationAvailable: bool, createdAt: int,
                                                     calls: seq<Call>)
    ensures SoundLifecycle(Run(Create(creator, organizationAvailable, createdAt), calls).session)
    decreases |calls|
  {
    if calls != [] {
      ReachableLifecycleIsSound(creator, organizationAvailable, createdAt, calls[..|calls| - 1]);
      NextAdvances(Run(Create(creator, organizationAvailable, createdAt), calls[..|calls| - 1]), calls[|calls| - 1]);
    }
  }

  /** The revision and the durable position never go back over a run. */
  lemma {:induction false} RunAdvances(s: State, calls: seq<Call>, i: nat, j: nat)
    requires SoundLifecycle(s.session) && i <= j <= |calls|
    ensures SoundLifecycle(Run(s, calls[..i]).session) && SoundLifecycle(Run(s, calls[..j]).session)
    ensures Revision(Run(s, calls[..i]).session) <= Revision(Run(s, calls[..j]).session)
    ensures Run(s, calls[..i]).session.lastDurableSeq <= Run(s, calls[..j]).session.lastDurableSeq
    decreases j
  {
    hide Next, SoundLifecycle, Revision;
    if j > 0 {
      assert calls[..j][..j - 1] == calls[..j - 1];
      if i < j {
        RunAdvances(s, calls, i, j - 1);
      } else {
        RunAdvances(s, calls, j - 1, j - 1);
      }
      NextAdvances(Run(s, calls[..j - 1]), calls[j - 1]);
    }
  }

  /**
   * Two commits of one run never expected the same revision. So at most one fence commits per
   * revision, and the same fence with the same expected revision commits at most once.
   */
  lemma OneCommitPerRevision(s: State, calls: seq<Call>, i: nat, j: nat)
    requires SoundLifecycle(s.session) && i < j < |calls|
    requires Commits(Run(s, calls[..i]), calls[i]) && Commits(Run(s, calls[..j]), calls[j])
    ensures calls[i].mutation.expectedRevision < calls[j].mutation.expectedRevision
  {
    CommitMovesRevision(Run(s, calls[..i]), calls[i]);
    CommitMovesRevision(Run(s, calls[..j]), calls[j]);
    assert calls[..i + 1][..i] == calls[..i];
    RunAdvances(s, calls, i + 1, j);
  }

  /** Once a fence has committed, repeating the call until the session moves on changes nothing. */
  lemma CommitIsIdempotent(s: State, first: Call, again: Call)
    requires SoundLifecycle(s.session) && Commits(s, first)
    requires again.mutation == first.mutation
    ensures Next(Next(s, first), again) == Next(s, first)
    ensures var outcome := FinalizeLifecycle(Next(s, first), again.caller, again.world,
                                             again.mutation.expectedRevision, again.mutation.fence);
            outcome.Ok? ==> outcome.value.1 == Commit(first.mutation.expectedRevision + 1, false)
  {
    CommitMovesRevision(s, first);
    NextAdvances(s, first);
    hide Next, FinalizeLifecycle;
    ReplayChangesNothing(Next(s, first), again);
  }

  // ---------- Two claims the code does not meet ----------

  /** Closing is not final: a forced pause takes a closed session out of it. */
  lemma ForcedPauseLeavesClosed(s: State, caller: Principal, w: World)
    requires s.session.lifecycle == Closed && IsManager(s, caller, w)
    ensures Next(s, Call(caller, w, DoPause(true))).session.lifecycle == Paused
  {
  }

  /** Nothing else does: every other mutation leaves a closed session closed. */
  lemma OnlyForcedPauseReopens(s: State, call: Call)
    requires s.session.lifecycle == Closed
    ensures Next(s, call).session.lifecycle != Closed
            <==> call.mutation == DoPause(true) && IsManager(s, call.caller, call.world)
  {
    hide IsManager, IsValidFence;
    if call.mutation.DoFinalize? {
      WalkOfTwo(Closed, Pausing, Paused);
      WalkOfTwo(Closed, Closing, Closed);
    } else if !IsLifecycleMutation(call.mutation) {
      hide Next;
      OthersKeepFences(s, call);
    } else {
      hide FinalizeLifecycle;
      assert WalkLifecycle(Closed, [Active]) == Err(IllegalTransition);
    }
  }
}
