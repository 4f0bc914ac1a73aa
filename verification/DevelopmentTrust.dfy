/**
 * The store of development approvals: a map that is changed in place, proved to agree at all
 * times with the log of what was approved and revoked.
 */
module DevelopmentTrust {
  import opened Prelude
  import opened CanonicalJson
  import opened Capabilities

  type Source = string

  datatype Approval = Approval(sourceId: Source, grant: Grant, expiresAt: int)

  datatype Event =
    | Approve(sourceId: Source, request: Request, at: int)
    | Revoke(sourceId: Source)
    | RevokeAll

  datatype TrustState =
    | Unapproved(requested: Grant, missing: seq<Text>, needsAgentInvocable: bool)
    | Approved(effective: Grant, expiresAt: int)
    | Expired(requested: Grant)

  const DEVELOPMENT_GRANT_TTL_MS := 12 * 60 * 60 * 1000

  // ---------- The log ----------

  /** Whether an event settles what the source may do. */
  predicate Concerns(e: Event, source: Source) {
    e.RevokeAll? || e.sourceId == source
  }

  function Approves(e: Event, ttl: int): Option<Approval> {
    if e.Approve? then Some(Approval(e.sourceId, NormalizeGrant(e.request), e.at + ttl)) else None
  }

  /** The approval that the last event about a source left in place. */
  ghost function LastWord(log: seq<Event>, source: Source, ttl: int): Option<Approval> {
    if log == [] then None
    else if Concerns(log[|log| - 1], source) then Approves(log[|log| - 1], ttl)
    else LastWord(log[..|log| - 1], source, ttl)
  }

  /** An approval is the last word exactly when some event gave it and no later event concerns the source. */
  lemma {:induction false} LastWordIsLast(log: seq<Event>, source: Source, ttl: int, approval: Approval)
    ensures LastWord(log, source, ttl) == Some(approval)
            <==> exists i :: 0 <= i < |log| && log[i].Approve? && log[i].sourceId == source
                   && approval == Approval(source, NormalizeGrant(log[i].request), log[i].at + ttl)
                   && forall j :: i < j < |log| ==> !Concerns(log[j], source)
  {
    hide NormalizeGrant;
    if log != [] {
      var front, last := log[..|log| - 1], log[|log| - 1];
      if Concerns(last, source) {
        if last.Approve? && approval == Approval(source, NormalizeGrant(last.request), last.at + ttl) {
          assert log[|log| - 1].Approve?;
        }
      } else {
        LastWordIsLast(front, source, ttl, approval);
        if i :| 0 <= i < |front| && front[i].Approve? && front[i].sourceId == source
                && approval == Approval(source, NormalizeGrant(front[i].request), front[i].at + ttl)
                && forall j :: i < j < |front| ==> !Concerns(front[j], source) {
          forall j | i < j < |log|
            ensures !Concerns(log[j], source)
          {
            assert j < |front| ==> log[j] == front[j];
          }
          assert log[i] == front[i];
        }
        if i :| 0 <= i < |log| && log[i].Approve? && log[i].sourceId == source
                && approval == Approval(source, NormalizeGrant(log[i].request), log[i].at + ttl)
                && forall j :: i < j < |log| ==> !Concerns(log[j], source) {
          assert front[i] == log[i];
          forall j | i < j < |front|
            ensures !Concerns(front[j], source)
          {
            assert front[j] == log[j];
          }
        }
      }
    }
  }

  // ---------- Covering ----------

  /** The approved grant has everything that is asked for. */
  predicate Covers(approved: Grant, requested: Grant) {
    && (forall name :: name in requested.capabilities ==> name in approved.capabilities)
    && (requested.agentInvocable ==> approved.agentInvocable)
  }

  /** Nothing is asked for. */
  predicate IsEmpty(grant: Grant) {
    grant.capabilities == [] && !grant.agentInvocable
  }

  function Missing(requested: seq<Text>, approved: seq<Text>): (missing: seq<Text>)
    ensures forall name :: name in missing <==> name in requested && name !in approved
    ensures missing == [] <==> forall name :: name in requested ==> name in approved
  {
    if requested == [] then []
    else
      assert requested == [requested[0]] + requested[1..];
      if requested[0] in approved then Missing(requested[1..], approved)
      else [requested[0]] + Missing(requested[1..], approved)
  }

  /** An approval covers a request exactly when every valid capability asked for was asked for when it was given. */
  lemma CoverageIsInclusion(approved: Request, requested: Request)
    ensures Covers(NormalizeGrant(approved), NormalizeGrant(requested))
            <==> (forall name :: AsksFor(requested, name) ==> AsksFor(approved, name))
                 && (requested.agentInvocable ==> approved.agentInvocable)
  {
    hide IsKnown, NormalizeCapabilities, Ascending;
    NormalForm(approved.capabilities);
    NormalForm(requested.capabilities);
    if forall name :: AsksFor(requested, name) ==> AsksFor(approved, name) {
      forall name | name in NormalizeGrant(requested).capabilities
        ensures name in NormalizeGrant(approved).capabilities
      {
        assert AsksFor(requested, name);
      }
    }
    if Covers(NormalizeGrant(approved), NormalizeGrant(requested)) {
      forall name | AsksFor(requested, name)
        ensures AsksFor(approved, name)
      {
        assert name in NormalizeGrant(requested).capabilities;
      }
    }
  }

  /** Nothing is asked for when no known capability is, and no leave for agents. */
  lemma EmptyMeans(request: Request)
    ensures IsEmpty(NormalizeGrant(request)) <==> !request.agentInvocable && forall name :: !AsksFor(request, name)
  {
    hide IsKnown, NormalizeCapabilities, Ascending;
    NormalForm(request.capabilities);
    var names := NormalizeCapabilities(request.capabilities);
    if names != [] {
      assert names[0] in names;
      assert AsksFor(request, names[0]);
    } else {
      assert forall name :: name !in names;
    }
  }

  // ---------- Agreement ----------

  /** The map has the last word on every source, but for approvals that have run out. */
  ghost predicate Agrees(approvals: map<Source, Approval>, log: seq<Event>, ttl: int, clock: int) {
    forall source :: AgreesOn(approvals, log, ttl, clock, source)
  }

  ghost predicate AgreesOn(approvals: map<Source, Approval>, log: seq<Event>, ttl: int, clock: int, source: Source) {
    var word := LastWord(log, source, ttl);
    if source in approvals then word == Some(approvals[source]) else word.Some? ==> word.value.expiresAt <= clock
  }

  /** Approved, not withdrawn since, and not run out. */
  ghost predicate IsInForce(log: seq<Event>, ttl: int, source: Source, now: int, approval: Approval) {
    LastWord(log, source, ttl) == Some(approval) && now < approval.expiresAt
  }

  /** As time goes on, approvals that have run out may be dropped. */
  lemma Later(before: map<Source, Approval>, after: map<Source, Approval>, log: seq<Event>, ttl: int, earlier: int,
              clock: int)
    requires Agrees(before, log, ttl, earlier) && earlier <= clock && after.Keys <= before.Keys
    requires forall s :: s in before ==> if s in after then after[s] == before[s] else before[s].expiresAt <= clock
    ensures Agrees(after, log, ttl, clock)
  {
    forall s
      ensures AgreesOn(after, log, ttl, clock, s)
    {
      assert AgreesOn(before, log, ttl, earlier, s);
    }
  }

  lemma Appended(approvals: map<Source, Approval>, after: map<Source, Approval>, log: seq<Event>, e: Event, ttl: int,
                 earlier: int, clock: int)
    requires Agrees(approvals, log, ttl, earlier) && earlier <= clock
    requires forall s :: Concerns(e, s)
                    ==> if s in after then Approves(e, ttl) == Some(after[s]) else Approves(e, ttl).None?
    requires forall s :: !Concerns(e, s)
                    ==> (s in after <==> s in approvals) && (s in after ==> after[s] == approvals[s])
    ensures Agrees(after, log + [e], ttl, clock)
  {
    var longer := log + [e];
    assert longer[..|longer| - 1] == log;
    forall s
      ensures AgreesOn(after, longer, ttl, clock, s)
    {
      assert AgreesOn(approvals, log, ttl, earlier, s);
    }
  }

  /** An approval is in force exactly when the map has it and it has not run out. */
  lemma InForceIsHeld(approvals: map<Source, Approval>, log: seq<Event>, ttl: int, clock: int, source: Source, now: int,
                      approval: Approval)
    requires Agrees(approvals, log, ttl, clock) && clock <= now
    ensures IsInForce(log, ttl, source, now, approval)
            <==> source in approvals && approvals[source] == approval && now < approval.expiresAt
  {
    assert AgreesOn(approvals, log, ttl, clock, source);
  }

  // ---------- Answers ----------

  /** What a request is answered, given the approvals held. */
  function Answer(approvals: map<Source, Approval>, ttl: int, source: Source, request: Request,
                  requireExplicitApproval: bool, now: int)
    : TrustState
  {
    var requested := NormalizeGrant(request);
    if !requireExplicitApproval && IsEmpty(requested) then
      Approved(requested, if source in approvals then approvals[source].expiresAt else now + ttl)
    else if source !in approvals then Unapproved(requested, requested.capabilities, requested.agentInvocable)
    else if approvals[source].expiresAt <= now then Expired(requested)
    else
      var missing := Missing(requested.capabilities, approvals[source].grant.capabilities);
      if Covers(approvals[source].grant, requested) then Approved(requested, approvals[source].expiresAt)
      else Unapproved(requested, missing, requested.agentInvocable && !approvals[source].grant.agentInvocable)
  }

  /**
   * An answer is approved until a time already past exactly when nothing is asked for, no
   * explicit approval is required, and an approval that has run out is still held.
   */
  lemma ApprovedUntilThePast(approvals: map<Source, Approval>, ttl: int, source: Source, request: Request,
                             requireExplicitApproval: bool, now: int)
    requires ttl > 0
    ensures var answer := Answer(approvals, ttl, source, request, requireExplicitApproval, now);
            answer.Approved? && answer.expiresAt <= now
            <==> !requireExplicitApproval && IsEmpty(NormalizeGrant(request))
                 && source in approvals && approvals[source].expiresAt <= now
  {
    hide NormalizeGrant, IsEmpty, Covers;
  }

  /** It does happen: a request for nothing, made as an approval of the same source runs out. */
  lemma NothingAfterExpiry(source: Source, approved: Request)
    ensures DEVELOPMENT_GRANT_TTL_MS == 43_200_000
    ensures var ttl := DEVELOPMENT_GRANT_TTL_MS;
            var approvals := map[source := Approval(source, NormalizeGrant(approved), 0 + ttl)];
            Answer(approvals, ttl, source, Request([], false), false, ttl) == Approved(Grant([], false), ttl)
  {
    assert NormalizeGrant(Request([], false)) == Grant([], false);
  }

  // ---------- The store ----------

  class DevAppDevelopmentTrustStore {
    var approvals: map<Source, Approval>
    const ttlMs: int
    ghost var log: seq<Event>
    /** The latest time the clock has shown. */
    ghost var clock: int

    constructor (ttlMs: int, ghost startedAt: int)
      ensures Valid() && log == [] && clock == startedAt && this.ttlMs == ttlMs && approvals == map[]
    {
      approvals := map[];
      this.ttlMs := ttlMs;
      log := [];
      clock := startedAt;
    }

    ghost predicate Valid()
      reads this
    {
      Agrees(approvals, log, ttlMs, clock)
    }

    method Approve(source: Source, request: Request, now: int) returns (approval: Approval)
      requires Valid() && clock <= now
      modifies this
      ensures Valid() && clock == now && log == old(log) + [Event.Approve(source, request, now)]
      ensures approval == Approval(source, NormalizeGrant(request), now + ttlMs)
      ensures approvals == old(approvals)[source := approval]
    {
      hide NormalizeGrant, Agrees;
      approval := Approval(source, NormalizeGrant(request), now + ttlMs);
      approvals := approvals[source := approval];
      log := log + [Event.Approve(source, request, now)];
      Appended(old(approvals), approvals, old(log), Event.Approve(source, request, now), ttlMs, clock, now);
      clock := now;
    }

    /**
     * A request that must be approved is approved exactly when the last word on its source
     * is an approval still in force that covers it. What runs is what is asked for now.
     */
    method Resolve(source: Source, request: Request, requireExplicitApproval: bool,
                   now: int) returns (state: TrustState)
      requires Valid() && clock <= now
      modifies this
      ensures Valid() && clock == now && log == old(log)
      ensures state.Approved? ==> state.effective == NormalizeGrant(request)
      ensures requireExplicitApproval || !IsEmpty(NormalizeGrant(request)) ==>
                (state.Approved? <==> exists approval :: IsInForce(log, ttlMs, source, now, approval)
                                        && Covers(approval.grant, NormalizeGrant(request)))
      ensures (requireExplicitApproval || !IsEmpty(NormalizeGrant(request))) && state.Approved?
              ==> source in approvals && state.expiresAt == approvals[source].expiresAt
      ensures !requireExplicitApproval && IsEmpty(NormalizeGrant(request))
              ==> && state.Approved?
                  && state.expiresAt == if source in approvals then approvals[source].expiresAt else now + ttlMs
      ensures state == Answer(old(approvals), ttlMs, source, request, requireExplicitApproval, now)
      ensures state.Expired? <==> (requireExplicitApproval || !IsEmpty(NormalizeGrant(request)))
                                  && source in old(approvals) && old(approvals)[source].expiresAt <= now
      ensures state.Expired? ==> state.requested == NormalizeGrant(request)
      ensures approvals == if state.Expired? then old(approvals) - {source} else old(approvals)
      ensures state.Unapproved? ==> IsGap(state, approvals, source, NormalizeGrant(request))
    {
      hide NormalizeGrant, LastWord, Agrees, IsInForce, IsEmpty;
      var requested := NormalizeGrant(request);
      forall approval
        ensures IsInForce(log, ttlMs, source, now, approval)
                <==> source in approvals && approvals[source] == approval && now < approval.expiresAt
      {
        InForceIsHeld(approvals, log, ttlMs, clock, source, now, approval);
      }
      Later(approvals, approvals, log, ttlMs, clock, now);
      if !requireExplicitApproval && IsEmpty(requested) {
        clock := now;
        return Approved(requested, if source in approvals then approvals[source].expiresAt else now + ttlMs);
      }
      if source !in approvals {
        clock := now;
        return Unapproved(requested, requested.capabilities, requested.agentInvocable);
      }
      var approval := approvals[source];
      if approval.expiresAt <= now {
        Later(approvals, approvals - {source}, log, ttlMs, clock, now);
        approvals := approvals - {source};
        clock := now;
        return Expired(requested);
      }
      clock := now;
      var missing := Missing(requested.capabilities, approval.grant.capabilities);
      var needsAgentInvocable := requested.agentInvocable && !approval.grant.agentInvocable;
      if missing != [] || needsAgentInvocable {
        return Unapproved(requested, missing, needsAgentInvocable);
      }
      return Approved(requested, approval.expiresAt);
    }

    method Revoke(source: Source)
      requires Valid()
      modifies this
      ensures Valid() && clock == old(clock) && log == old(log) + [Event.Revoke(source)]
      ensures approvals == old(approvals) - {source}
    {
      hide Agrees;
      approvals := approvals - {source};
      log := log + [Event.Revoke(source)];
      Appended(old(approvals), approvals, old(log), Event.Revoke(source), ttlMs, clock, clock);
    }

    method RevokeAll()
      requires Valid()
      modifies this
      ensures Valid() && clock == old(clock) && log == old(log) + [Event.RevokeAll]
      ensures approvals == map[]
    {
      hide Agrees;
      approvals := map[];
      log := log + [Event.RevokeAll];
      Appended(old(approvals), approvals, old(log), Event.RevokeAll, ttlMs, clock, clock);
    }

    /** The approvals still in force, and those only. */
    method List(now: int) returns (inForce: map<Source, Approval>)
      requires Valid() && clock <= now
      modifies this
      ensures Valid() && clock == now && log == old(log) && approvals == inForce
      ensures forall source, approval ::
                source in inForce && inForce[source] == approval <==> IsInForce(log, ttlMs, source, now, approval)
    {
      hide LastWord, Agrees, IsInForce;
      var pending := approvals.Keys;
      while pending != {}
        invariant pending <= approvals.Keys <= old(approvals.Keys)
        invariant forall s :: s in old(approvals) ==>
                    if s in approvals then approvals[s] == old(approvals)[s] else old(approvals)[s].expiresAt <= now
        invariant forall s :: s in approvals && s !in pending ==> now < approvals[s].expiresAt
        decreases |pending|
        modifies this`approvals
      {
        var source :| source in pending;
        pending := pending - {source};
        if approvals[source].expiresAt <= now {
          approvals := approvals - {source};
        }
      }
      Later(old(approvals), approvals, log, ttlMs, clock, now);
      clock := now;
      inForce := approvals;
      forall source, approval
        ensures source in inForce && inForce[source] == approval <==> IsInForce(log, ttlMs, source, now, approval)
      {
        InForceIsHeld(approvals, log, ttlMs, clock, source, now, approval);
      }
    }
  }

  /** What is reported missing is what is asked for and not held. */
  ghost predicate IsGap(state: TrustState, approvals: map<Source, Approval>, source: Source, requested: Grant)
    requires state.Unapproved?
  {
    && state.requested == requested
    && (forall name :: name in state.missing
                       <==> && name in requested.capabilities
                            && !(source in approvals && name in approvals[source].grant.capabilities))
    && state.needsAgentInvocable
       == (requested.agentInvocable && !(source in approvals && approvals[source].grant.agentInvocable))
  }
}
