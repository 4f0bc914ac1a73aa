/**
 * Project rows: slugs, idempotent creation, and the statuses a project can have before it is
 * purged.
 */
module ProjectRegistry {
  import opened Prelude
  import opened Decimals

  type Id = nat
  type Principal = nat

  datatype Status = Draft | Generating | Building | Provisioning | Active | Archived | Deleted

  datatype Project = Project(id: Id, name: string, slug: string, status: Status, token: Option<string>,
                             createdBy: Principal)

  datatype Registry = Registry(projects: seq<Project>, nextId: Id)

  datatype ProjectError = NameRequired | NotMember | NotFound | Forbidden | NameMismatch

  datatype Created = Created(id: Id, slug: string, resumed: bool)

  // ---------- Slugs ----------

  /** The slugs tried in turn: the base, then the base with a number. */
  function Candidate(base: string, k: nat): string {
    if k == 0 then base else base + "-" + Digits(k)
  }

  lemma CandidatesDiffer(base: string, j: nat, k: nat)
    requires Candidate(base, j) == Candidate(base, k)
    ensures j == k
  {
    hide Digits;
    if j > 0 && k > 0 {
      assert (base + "-" + Digits(j))[|base| + 1..] == Digits(j);
      assert (base + "-" + Digits(k))[|base| + 1..] == Digits(k);
      DigitsAreInjective(j, k);
    }
  }

  function FindSlug(projects: seq<Project>, slug: string): (found: Option<Project>)
    ensures found.Some? ==> found.value in projects && found.value.slug == slug
    ensures found.None? ==> forall p :: p in projects ==> p.slug != slug
  {
    if projects == [] then None
    else
      assert projects == [projects[0]] + projects[1..];
      if projects[0].slug == slug then Some(projects[0]) else FindSlug(projects[1..], slug)
  }

  predicate IsFree(projects: seq<Project>, slug: string, exclude: Option<Id>) {
    var found := FindSlug(projects, slug);
    found.None? || (exclude.Some? && found.value.id == exclude.value)
  }

  ghost function Slugs(projects: seq<Project>): set<string> {
    set p | p in projects :: p.slug
  }

  lemma {:induction false} FewSlugs(projects: seq<Project>)
    ensures |Slugs(projects)| <= |projects|
  {
    if projects == [] {
      assert Slugs(projects) == {};
    } else {
      FewSlugs(projects[1..]);
      assert projects == [projects[0]] + projects[1..];
      assert Slugs(projects) == {projects[0].slug} + Slugs(projects[1..]);
    }
  }

  /** The first `k` candidates. */
  ghost function Tried(base: string, k: nat): set<string> {
    set j | 0 <= j < k :: Candidate(base, j)
  }

  lemma {:induction false} TriedAreDistinct(base: string, k: nat)
    ensures |Tried(base, k)| == k
  {
    if k == 0 {
      assert Tried(base, 0) == {};
    } else {
      hide Candidate;
      TriedAreDistinct(base, k - 1);
      forall j | 0 <= j < k - 1
        ensures Candidate(base, j) != Candidate(base, k - 1)
      {
        if Candidate(base, j) == Candidate(base, k - 1) {
          CandidatesDiffer(base, j, k - 1);
        }
      }
      assert Tried(base, k) == Tried(base, k - 1) + {Candidate(base, k - 1)};
    }
  }

  /** So many distinct candidates cannot all be taken when there are fewer projects. */
  lemma TakenAreFew(projects: seq<Project>, base: string, k: nat)
    requires forall j :: 0 <= j < k ==> Candidate(base, j) in Slugs(projects)
    ensures k <= |projects|
  {
    hide Candidate;
    TriedAreDistinct(base, k);
    FewSlugs(projects);
    SubsetIsSmaller(Tried(base, k), Slugs(projects));
  }

  lemma SubsetIsSmaller(a: set<string>, b: set<string>)
    requires a <= b
    ensures |a| <= |b|
  {
    assert |b - a| == |b| - |a|;
  }

  ghost predicate IsFirstFree(projects: seq<Project>, base: string, k: nat) {
    Candidate(base, k) !in Slugs(projects) && forall j :: 0 <= j < k ==> Candidate(base, j) in Slugs(projects)
  }

  lemma FreeSlugs(projects: seq<Project>, slug: string)
    ensures IsFree(projects, slug, None) <==> slug !in Slugs(projects)
  {
  }

  // ---------- Rows ----------

  function IndexOf(projects: seq<Project>, id: Id): (i: Option<nat>)
    ensures i.Some? ==> i.value < |projects| && projects[i.value].id == id
    ensures i.None? ==> forall p :: p in projects ==> p.id != id
  {
    if projects == [] then None
    else
      assert projects == [projects[0]] + projects[1..];
      if projects[0].id == id then Some(0)
      else
        match IndexOf(projects[1..], id)
        case None => None
        case Some(i) => Some(i + 1)
  }

  function LiveIndex(projects: seq<Project>, id: Id): (i: Option<nat>)
    ensures i.Some? ==> i.value < |projects| && projects[i.value].id == id && projects[i.value].status != Deleted
  {
    var i := IndexOf(projects, id);
    if i.Some? && projects[i.value].status != Deleted then i else None
  }

  function FindLiveToken(projects: seq<Project>, token: string, creator: Principal): (found: Option<Project>)
    ensures found.Some? ==> found.value in projects && IsLiveFor(found.value, token, creator)
    ensures found.None? ==> forall p :: p in projects ==> !IsLiveFor(p, token, creator)
  {
    if projects == [] then None
    else
      assert projects == [projects[0]] + projects[1..];
      if IsLiveFor(projects[0], token, creator) then Some(projects[0]) else FindLiveToken(projects[1..], token, creator)
  }

  predicate IsLiveFor(p: Project, token: string, creator: Principal) {
    p.status != Deleted && p.token == Some(token) && p.createdBy == creator
  }

  /** The creator has a live project for the token, and the token is not empty. */
  ghost predicate IsRetry(projects: seq<Project>, token: Option<string>, caller: Principal) {
    && token.Some? && token.value != ""
    && exists p :: p in projects && p.token == token && p.createdBy == caller && p.status != Deleted
  }

  ghost predicate HasLive(projects: seq<Project>, id: Id) {
    exists p :: p in projects && p.id == id && p.status != Deleted
  }

  /** The project is live, and the caller created it or has been granted access. */
  ghost predicate IsAllowed(projects: seq<Project>, id: Id, caller: Principal, granted: bool) {
    exists p :: p in projects && p.id == id && p.status != Deleted && (granted || p.createdBy == caller)
  }

  /** The project's row has that status, and is otherwise as it was, as are the other rows. */
  ghost predicate HasStatus(before: seq<Project>, after: seq<Project>, id: Id, status: Status) {
    && |after| == |before|
    && forall i :: 0 <= i < |before| ==>
         after[i] == if before[i].id == id then before[i].(status := status) else before[i]
  }

  ghost predicate HasName(before: seq<Project>, after: seq<Project>, id: Id, name: string) {
    && |after| == |before|
    && forall i :: 0 <= i < |before| ==>
         after[i] == if before[i].id == id then before[i].(name := name) else before[i]
  }

  lemma RowsDecide(r: Registry, id: Id, caller: Principal, granted: bool)
    requires IsSound(r)
    ensures LiveIndex(r.projects, id).Some? <==> HasLive(r.projects, id)
    ensures var i := LiveIndex(r.projects, id);
            i.Some? && (r.projects[i.value].createdBy == caller || granted)
            <==> IsAllowed(r.projects, id, caller, granted)
    ensures var i := LiveIndex(r.projects, id);
            i.Some? ==> && r.projects[i.value].status != Deleted
                        && forall j :: 0 <= j < |r.projects| && r.projects[j].id == id ==> j == i.value
  {
    hide DistinctSlugs, OneLivePerToken;
    var i := LiveIndex(r.projects, id);
    if p :| p in r.projects && p.id == id && p.status != Deleted {
      var j :| 0 <= j < |r.projects| && r.projects[j] == p;
      assert IndexOf(r.projects, id) == Some(j);
    }
    if i.Some? {
      assert r.projects[i.value] in r.projects;
    }
  }

  lemma PatchedRows(r: Registry, i: nat, name: string, status: Status)
    requires IsSound(r) && i < |r.projects|
    ensures var before, after, id := r.projects, Patched(r, i, name, status).projects, r.projects[i].id;
            && (name == before[i].name ==> HasStatus(before, after, id, status))
            && (status == before[i].status ==> HasName(before, after, id, name))
  {
    hide DistinctSlugs, OneLivePerToken;
  }

  // ---------- What every run keeps ----------

  ghost predicate DistinctIds(r: Registry) {
    && (forall i :: 0 <= i < |r.projects| ==> r.projects[i].id < r.nextId)
    && forall i, j :: 0 <= i < j < |r.projects| ==> r.projects[i].id != r.projects[j].id
  }

  ghost predicate DistinctSlugs(r: Registry) {
    forall i, j :: 0 <= i < j < |r.projects| ==> r.projects[i].slug != r.projects[j].slug
  }

  /** A creator has at most one live project for a token that is not empty. */
  ghost predicate OneLivePerToken(r: Registry) {
    forall i, j, token: string, creator | 0 <= i < j < |r.projects| && token != "" ::
      IsLiveFor(r.projects[i], token, creator) ==> !IsLiveFor(r.projects[j], token, creator)
  }

  ghost predicate IsSound(r: Registry) {
    DistinctIds(r) && DistinctSlugs(r) && OneLivePerToken(r)
  }

  // ---------- What the mutations do to the rows ----------

  ghost predicate Inserts(before: Registry, after: Registry, p: Project) {
    && p.id == before.nextId && p.status != Deleted
    && IsFree(before.projects, p.slug, None)
    && (p.token.Some? && p.token.value != "" ==> FindLiveToken(before.projects, p.token.value, p.createdBy).None?)
    && after == Registry(before.projects + [p], before.nextId + 1)
  }

  function Patched(r: Registry, i: nat, name: string, status: Status): Registry
    requires i < |r.projects|
  {
    r.(projects := r.projects[i := r.projects[i].(name := name, status := status)])
  }

  /** Only a live project changes its name or status. */
  ghost predicate Patches(before: Registry, after: Registry, id: Id) {
    var i := LiveIndex(before.projects, id);
    i.Some? && exists name, status :: after == Patched(before, i.value, name, status)
  }

  function Removed(r: Registry, i: nat): Registry
    requires i < |r.projects|
  {
    r.(projects := r.projects[..i] + r.projects[i + 1..])
  }

  /** Only a deleted project loses its row. */
  ghost predicate Purges(before: Registry, after: Registry, id: Id) {
    var i := IndexOf(before.projects, id);
    i.Some? && before.projects[i.value].status == Deleted && after == Removed(before, i.value)
  }

  ghost predicate Next(before: Registry, after: Registry) {
    || before == after
    || (exists p :: Inserts(before, after, p))
    || (exists id :: Patches(before, after, id))
    || (exists id :: Purges(before, after, id))
  }

  lemma InsertKeepsSound(before: Registry, after: Registry, p: Project)
    requires IsSound(before) && Inserts(before, after, p)
    ensures IsSound(after)
  {
    forall q | q in before.projects
      ensures q.slug != p.slug
    {
    }
    forall i, token: string, creator
      | 0 <= i < |before.projects| && token != "" && IsLiveFor(before.projects[i], token, creator)
      ensures !IsLiveFor(p, token, creator)
    {
      assert before.projects[i] in before.projects;
    }
  }

  lemma PatchKeepsSound(before: Registry, after: Registry, id: Id)
    requires IsSound(before) && Patches(before, after, id)
    ensures IsSound(after)
  {
    hide LiveIndex;
    var i := LiveIndex(before.projects, id).value;
    assert forall j :: 0 <= j < |before.projects| ==>
      after.projects[j] == before.projects[j].(name := after.projects[j].name, status := after.projects[j].status)
      && (after.projects[j].status != Deleted ==> before.projects[j].status != Deleted);
  }

  lemma PurgeKeepsSound(before: Registry, after: Registry, id: Id)
    requires IsSound(before) && Purges(before, after, id)
    ensures IsSound(after)
  {
    hide IndexOf, IsLiveFor;
    var i := IndexOf(before.projects, id).value;
    assert forall j :: 0 <= j < |after.projects| ==> after.projects[j] == before.projects[if j < i then j else j + 1];
  }

  /** Every mutation keeps slugs distinct, ids distinct, and one live project per token and creator. */
  lemma NextKeepsSound(before: Registry, after: Registry)
    requires IsSound(before) && Next(before, after)
    ensures IsSound(after)
  {
    hide IsSound, Inserts, Patches, Purges;
    if p :| Inserts(before, after, p) {
      InsertKeepsSound(before, after, p);
    } else if id :| Patches(before, after, id) {
      PatchKeepsSound(before, after, id);
    } else if id :| Purges(before, after, id) {
      PurgeKeepsSound(before, after, id);
    }
  }

  ghost predicate IsRun(run: seq<Registry>) {
    run != [] && forall i :: 0 < i < |run| ==> Next(run[i - 1], run[i])
  }

  lemma {:induction false} RunIsSound(run: seq<Registry>)
    requires IsRun(run) && run[0] == Registry([], 0)
    ensures IsSound(run[|run| - 1])
    decreases |run|
  {
    if |run| > 1 {
      var front := run[..|run| - 1];
      assert forall i :: 0 <= i < |front| ==> front[i] == run[i];
      RunIsSound(front);
      NextKeepsSound(run[|run| - 2], run[|run| - 1]);
    }
  }

  /** The project is deleted, or its row has been purged, and no new row will get its id. */
  ghost predicate IsGone(r: Registry, id: Id) {
    id < r.nextId && forall p :: p in r.projects && p.id == id ==> p.status == Deleted
  }

  lemma GoneStaysGone(before: Registry, after: Registry, id: Id)
    requires IsSound(before) && Next(before, after) && IsGone(before, id)
    ensures IsGone(after, id)
  {
    hide DistinctSlugs, OneLivePerToken, IsFree, FindLiveToken;
    if after != before {
      forall p | p in after.projects && p.id == id
        ensures p.status == Deleted
      {
        if p !in before.projects {
          assert forall q :: q in before.projects && q.id == id ==> q.status == Deleted;
        }
      }
    }
  }

  /** Deleted is for ever: no later run brings the project back, under its id, in any other status. */
  lemma {:induction false} DeletedIsForever(run: seq<Registry>, id: Id)
    requires IsRun(run) && IsSound(run[0]) && IsGone(run[0], id)
    ensures IsGone(run[|run| - 1], id)
    decreases |run|
  {
    hide IsGone, Next, IsSound;
    if |run| > 1 {
      var rest := run[1..];
      assert Next(run[0], run[1]);
      GoneStaysGone(run[0], run[1], id);
      NextKeepsSound(run[0], run[1]);
      forall i | 0 < i < |rest|
        ensures Next(rest[i - 1], rest[i])
      {
        assert Next(run[i], run[i + 1]);
      }
      DeletedIsForever(rest, id);
    }
  }

  predicate IsLike(q: Project, p: Project) {
    q.slug == p.slug && q.token == p.token && q.createdBy == p.createdBy
  }

  /** Any row with the project's id has the project's slug, token and creator. */
  ghost predicate IsIdentified(r: Registry, p: Project) {
    p.id < r.nextId && forall q :: q in r.projects && q.id == p.id ==> IsLike(q, p)
  }

  lemma IdentityStays(before: Registry, after: Registry, p: Project)
    requires IsSound(before) && Next(before, after) && IsIdentified(before, p)
    ensures IsIdentified(after, p)
  {
    hide DistinctSlugs, OneLivePerToken, IsFree, FindLiveToken;
    forall q | q in after.projects && q.id == p.id
      ensures IsLike(q, p)
    {
      if q !in before.projects {
        assert forall o :: o in before.projects && o.id == p.id ==> IsLike(o, p);
      }
    }
  }

  /** Over any run a project keeps its slug, its token and its creator as long as it has a row. */
  lemma {:induction false} SlugIsStable(run: seq<Registry>, p: Project)
    requires IsRun(run) && IsSound(run[0]) && p in run[0].projects
    ensures IsSound(run[|run| - 1]) && IsIdentified(run[|run| - 1], p)
    decreases |run|
  {
    hide Next, IsSound, IsIdentified;
    var last := |run| - 1;
    if last > 0 {
      var front := run[..last];
      assert forall i :: 0 <= i < last ==> front[i] == run[i];
      SlugIsStable(front, p);
      NextKeepsSound(run[last - 1], run[last]);
      IdentityStays(run[last - 1], run[last], p);
    } else {
      IdentifiesItself(run[0], p);
    }
  }

  lemma IdentifiesItself(r: Registry, p: Project)
    requires IsSound(r) && p in r.projects
    ensures IsIdentified(r, p)
  {
    hide DistinctSlugs, OneLivePerToken;
  }

  // ---------- The empty token ----------

  ghost predicate HasTwoLive(r: Registry, token: string, creator: Principal) {
    exists i, j | 0 <= i < j < |r.projects| ::
      IsLiveFor(r.projects[i], token, creator) && IsLiveFor(r.projects[j], token, creator)
  }

  /** Two projects created alike, with an empty token. */
  function Twin(id: Id, creator: Principal): Project {
    Project(id, "a", Candidate("a", id), Active, Some(""), creator)
  }

  /** An empty token is stored but not looked up: two creations with it leave two live projects. */
  lemma EmptyTokenRepeats(creator: Principal)
    ensures var none, one := Registry([], 0), Registry([Twin(0, creator)], 1);
            var two := Registry([Twin(0, creator), Twin(1, creator)], 2);
            && Inserts(none, one, Twin(0, creator)) && Inserts(one, two, Twin(1, creator))
            && HasTwoLive(two, "", creator)
  {
    hide Candidate;
    var p, q := Twin(0, creator), Twin(1, creator);
    if Candidate("a", 0) == Candidate("a", 1) {
      CandidatesDiffer("a", 0, 1);
    }
    assert FindSlug([p][1..], q.slug).None?;
    assert [] + [p] == [p] && [p] + [q] == [p, q];
    var two := Registry([p, q], 2);
    assert IsLiveFor(two.projects[0], "", creator) && IsLiveFor(two.projects[1], "", creator);
  }

  ghost predicate StartsEmpty(run: seq<Registry>) {
    IsRun(run) && run[0] == Registry([], 0)
  }

  /** A creator never has two live projects for a token, over any run, exactly when the token is not empty. */
  lemma OneLiveExactly(token: string, creator: Principal)
    ensures (forall run :: StartsEmpty(run) ==> !HasTwoLive(run[|run| - 1], token, creator)) <==> token != ""
  {
    hide Next, Inserts, Twin;
    if token == "" {
      EmptyTokenRepeats(creator);
      var none, one := Registry([], 0), Registry([Twin(0, creator)], 1);
      var two := Registry([Twin(0, creator), Twin(1, creator)], 2);
      InsertsIsNext(none, one, Twin(0, creator));
      InsertsIsNext(one, two, Twin(1, creator));
      assert StartsEmpty([none, one, two]);
    } else {
      forall run | StartsEmpty(run)
        ensures !HasTwoLive(run[|run| - 1], token, creator)
      {
        RunIsSound(run);
      }
    }
  }

  lemma InsertsIsNext(before: Registry, after: Registry, p: Project)
    requires Inserts(before, after, p)
    ensures Next(before, after)
  {
  }

  // ---------- The mutations ----------

  class ProjectTable {
    var projects: seq<Project>
    var nextId: Id

    ghost function Snapshot(): Registry
      reads this
    {
      Registry(projects, nextId)
    }

    ghost predicate Valid()
      reads this
    {
      IsSound(Snapshot())
    }

    constructor ()
      ensures Valid() && Snapshot() == Registry([], 0)
    {
      projects, nextId := [], 0;
    }

    /** The first candidate that is free, found within one probe more than there are projects. */
    method EnsureUniqueSlug(base: string, exclude: Option<Id>) returns (slug: string, ghost probes: nat)
      ensures 0 < probes <= |projects| + 1 && slug == Candidate(base, probes - 1)
      ensures IsFree(projects, slug, exclude)
      ensures exclude.None? ==> slug !in Slugs(projects)
      ensures DistinctSlugs(Snapshot()) ==> forall p :: p in projects && p.slug == slug ==> Some(p.id) == exclude
      ensures forall j :: 0 <= j < probes - 1 ==> !IsFree(projects, Candidate(base, j), exclude)
    {
      hide Candidate;
      CandidateBase(base);
      slug := base;
      var counter: nat := 1;
      while !IsFree(projects, slug, exclude)
        invariant 1 <= counter <= |projects| + 1
        invariant slug == Candidate(base, counter - 1)
        invariant forall j :: 0 <= j < counter - 1 ==> !IsFree(projects, Candidate(base, j), exclude)
        decreases |projects| + 1 - counter
      {
        forall j | 0 <= j < counter
          ensures Candidate(base, j) in Slugs(projects)
        {
          assert !IsFree(projects, Candidate(base, j), exclude);
        }
        TakenAreFew(projects, base, counter);
        CandidateNumbered(base, counter);
        slug := base + "-" + Digits(counter);
        counter := counter + 1;
      }
      probes := counter;
      FreeSlugs(projects, slug);
    }

    /**
     * A retry with the token of a live project of the same creator gets that project back.
     * Otherwise a new row is added under a free slug.
     */
    method Create(caller: Principal, trimmedName: string, base: string, token: Option<string>, status: Status,
                  isOrgMember: Option<bool>)
      returns (r: Result<Created, ProjectError>)
      requires Valid() && status in {Draft, Provisioning, Active}
      modifies this
      ensures Valid() && Next(old(Snapshot()), Snapshot())
      ensures trimmedName == "" <==> r == Err(NameRequired)
      ensures r == Err(NotMember)
              <==> trimmedName != "" && !IsRetry(old(projects), token, caller) && isOrgMember == Some(false)
      ensures r.Err? ==> r.error in {NameRequired, NotMember} && Snapshot() == old(Snapshot())
      ensures r.Ok? && r.value.resumed <==> trimmedName != "" && IsRetry(old(projects), token, caller)
      ensures r.Ok? && r.value.resumed ==>
                && Snapshot() == old(Snapshot()) && token.Some? && token.value != ""
                && exists p :: && p in projects && p.token == token && p.createdBy == caller && p.status != Deleted
                               && p.id == r.value.id && p.slug == r.value.slug
      ensures r.Ok? && !r.value.resumed ==>
                var p := Project(r.value.id, trimmedName, r.value.slug, status, token, caller);
                && Inserts(old(Snapshot()), Snapshot(), p) && isOrgMember != Some(false)
                && exists k: nat | k <= |old(projects)| ::
                     IsFirstFree(old(projects), base, k) && p.slug == if k == 0 then base else base + "-" + Digits(k)
      ensures r.Ok? && !r.value.resumed ==>
                projects == old(projects) + [
                  Project(r.value.id, trimmedName, r.value.slug, status, token, caller)]
    {
      hide Candidate, IsSound;
      if trimmedName == "" {
        return Err(NameRequired);
      }
      if token.Some? && token.value != "" {
        var existing := FindLiveToken(projects, token.value, caller);
        if existing.Some? {
          return Ok(Created(existing.value.id, existing.value.slug, true));
        }
      }
      if isOrgMember == Some(false) {
        return Err(NotMember);
      }
      var slug, probes := EnsureUniqueSlug(base, None);
      FirstFree(projects, base, probes - 1);
      CandidateBase(base);
      if probes > 1 {
        CandidateNumbered(base, probes - 1);
      }
      var p := Project(nextId, trimmedName, slug, status, token, caller);
      projects := projects + [p];
      nextId := nextId + 1;
      assert Inserts(old(Snapshot()), Snapshot(), p);
      NextKeepsSound(old(Snapshot()), Snapshot());
      return Ok(Created(p.id, slug, false));
    }

    /** Access to a live project: its creator has it, and whoever a membership or a group grants it. */
    predicate MayTouch(id: Id, caller: Principal, granted: bool)
      reads this
    {
      var i := LiveIndex(projects, id);
      i.Some? && (projects[i.value].createdBy == caller || granted)
    }

    /** Renames a project; its slug stays. */
    method Update(id: Id, caller: Principal, granted: bool,
                  trimmedName: Option<string>) returns (r: Result<(), ProjectError>)
      requires Valid()
      modifies this
      ensures Valid() && Next(old(Snapshot()), Snapshot())
      ensures r == (if !HasLive(old(projects), id) then Err(NotFound)
                    else if !IsAllowed(old(projects), id, caller, granted) then Err(Forbidden)
                    else if trimmedName == Some("") then Err(NameRequired) else Ok(()))
      ensures r.Ok? && trimmedName.Some? ==> HasName(old(projects), projects, id, trimmedName.value)
      ensures r.Err? || trimmedName.None? ==> projects == old(projects)
      ensures nextId == old(nextId)
    {
      hide IsSound, HasLive, IsAllowed, HasName, LiveIndex;
      RowsDecide(Snapshot(), id, caller, granted);
      var i := LiveIndex(projects, id);
      if i.None? {
        return Err(NotFound);
      }
      if !MayTouch(id, caller, granted) {
        return Err(Forbidden);
      }
      if trimmedName == Some("") {
        return Err(NameRequired);
      }
      if trimmedName.Some? {
        PatchedRows(Snapshot(), i.value, trimmedName.value, projects[i.value].status);
        Patch(id, trimmedName.value, projects[i.value].status);
      }
      return Ok(());
    }

    method Patch(id: Id, name: string, status: Status)
      requires Valid() && LiveIndex(projects, id).Some?
      modifies this`projects
      ensures Valid() && Next(old(Snapshot()), Snapshot())
      ensures Snapshot() == Patched(old(Snapshot()), LiveIndex(old(projects), id).value, name, status)
    {
      hide IsSound, LiveIndex;
      var i := LiveIndex(projects, id).value;
      projects := projects[i := projects[i].(name := name, status := status)];
      assert Snapshot() == Patched(old(Snapshot()), i, name, status);
      assert Patches(old(Snapshot()), Snapshot(), id);
      NextKeepsSound(old(Snapshot()), Snapshot());
    }

    /** Moves a live project to any status but archived and deleted; one that is archived included. */
    method UpdateStatus(id: Id, caller: Principal, granted: bool, status: Status) returns (r: Result<(), ProjectError>)
      requires Valid() && status != Archived && status != Deleted
      modifies this
      ensures Valid() && Next(old(Snapshot()), Snapshot())
      ensures r == if IsAllowed(old(projects), id, caller, granted) then Ok(()) else Err(Forbidden)
      ensures r.Ok? ==> HasStatus(old(projects), projects, id, status)
      ensures r.Err? ==> projects == old(projects)
      ensures nextId == old(nextId)
    {
      r := SetStatus(id, caller, granted, status);
    }

    method Archive(id: Id, caller: Principal, granted: bool) returns (r: Result<(), ProjectError>)
      requires Valid()
      modifies this
      ensures Valid() && Next(old(Snapshot()), Snapshot())
      ensures r == if IsAllowed(old(projects), id, caller, granted) then Ok(()) else Err(Forbidden)
      ensures r.Ok? ==> HasStatus(old(projects), projects, id, Archived)
      ensures r.Err? ==> projects == old(projects)
      ensures nextId == old(nextId)
    {
      r := SetStatus(id, caller, granted, Archived);
    }

    method Restore(id: Id, caller: Principal, granted: bool) returns (r: Result<(), ProjectError>)
      requires Valid()
      modifies this
      ensures Valid() && Next(old(Snapshot()), Snapshot())
      ensures r == if IsAllowed(old(projects), id, caller, granted) then Ok(()) else Err(Forbidden)
      ensures r.Ok? ==> HasStatus(old(projects), projects, id, Active)
      ensures r.Err? ==> projects == old(projects)
      ensures nextId == old(nextId)
    {
      r := SetStatus(id, caller, granted, Active);
    }

    method SetStatus(id: Id, caller: Principal, granted: bool, status: Status) returns (r: Result<(), ProjectError>)
      requires Valid()
      modifies this
      ensures Valid() && Next(old(Snapshot()), Snapshot())
      ensures r == if IsAllowed(old(projects), id, caller, granted) then Ok(()) else Err(Forbidden)
      ensures r.Ok? ==> HasStatus(old(projects), projects, id, status)
      ensures r.Err? ==> projects == old(projects)
      ensures nextId == old(nextId)
    {
      hide IsSound, LiveIndex, IsAllowed, HasStatus;
      RowsDecide(Snapshot(), id, caller, granted);
      if !MayTouch(id, caller, granted) {
        return Err(Forbidden);
      }
      var i := LiveIndex(projects, id).value;
      PatchedRows(Snapshot(), i, projects[i].name, status);
      Patch(id, projects[i].name, status);
      return Ok(());
    }

    /** Marks a project deleted, once its name has been confirmed; the purge follows. */
    method DeleteProject(id: Id, caller: Principal, granted: bool, trimmedConfirmation: string)
      returns (r: Result<(), ProjectError>)
      requires Valid()
      modifies this
      ensures Valid() && Next(old(Snapshot()), Snapshot())
      ensures r == (if !HasLive(old(projects), id) then Err(NotFound)
                    else if !IsAllowed(old(projects), id, caller, granted) then Err(Forbidden)
                    else if exists p :: p in old(projects) && p.id == id && p.name != trimmedConfirmation
                    then Err(NameMismatch)
                    else Ok(()))
      ensures r.Ok? ==> HasStatus(old(projects), projects, id, Deleted) && IsGone(Snapshot(), id)
      ensures r.Err? ==> projects == old(projects)
      ensures nextId == old(nextId)
    {
      hide DistinctSlugs, OneLivePerToken, HasLive, IsAllowed, LiveIndex;
      RowsDecide(Snapshot(), id, caller, granted);
      var i := LiveIndex(projects, id);
      if i.None? {
        return Err(NotFound);
      }
      if !MayTouch(id, caller, granted) {
        return Err(Forbidden);
      }
      if trimmedConfirmation != projects[i.value].name {
        return Err(NameMismatch);
      }
      PatchedRows(Snapshot(), i.value, projects[i.value].name, Deleted);
      Patch(id, projects[i.value].name, Deleted);
      return Ok(());
    }

    /** The end of a purge: the row goes. */
    method Purge(id: Id)
      requires Valid()
      modifies this`projects
      ensures Valid() && Next(old(Snapshot()), Snapshot())
      ensures (exists p :: p in old(projects) && p.id == id && p.status == Deleted)
              ==> && |projects| == |old(projects)| - 1
                  && forall p :: p in projects <==> p in old(projects) && p.id != id
      ensures !(exists p :: p in old(projects) && p.id == id && p.status == Deleted) ==> projects == old(projects)
    {
      hide IsSound, IndexOf;
      DeletedRow(Snapshot(), id);
      var i := IndexOf(projects, id);
      if i.Some? && projects[i.value].status == Deleted {
        projects := projects[..i.value] + projects[i.value + 1..];
        assert Purges(old(Snapshot()), Snapshot(), id);
        NextKeepsSound(old(Snapshot()), Snapshot());
      }
    }
  }

  lemma IndexIsUnique(r: Registry, id: Id)
    requires DistinctIds(r)
    ensures var i := IndexOf(r.projects, id);
            forall p :: p in r.projects && p.id == id <==> i.Some? && p == r.projects[i.value]
  {
    hide IndexOf;
    var i := IndexOf(r.projects, id);
    forall p | p in r.projects && p.id == id
      ensures i.Some? && p == r.projects[i.value]
    {
      var j :| 0 <= j < |r.projects| && r.projects[j] == p;
    }
  }

  lemma LeftWithout(projects: seq<Project>, i: nat)
    requires i < |projects|
    requires forall j, k :: 0 <= j < k < |projects| ==> projects[j].id != projects[k].id
    ensures forall p :: p in projects[..i] + projects[i + 1..] <==> p in projects && p.id != projects[i].id
  {
    var left := projects[..i] + projects[i + 1..];
    forall p | p in left
      ensures p in projects && p.id != projects[i].id
    {
      var j :| 0 <= j < |left| && left[j] == p;
      assert p == projects[if j < i then j else j + 1];
    }
    forall p | p in projects && p.id != projects[i].id
      ensures p in left
    {
      var j :| 0 <= j < |projects| && projects[j] == p;
      assert p == left[if j < i then j else j - 1];
    }
  }

  lemma DeletedRow(r: Registry, id: Id)
    requires IsSound(r)
    ensures var i := IndexOf(r.projects, id);
            && (i.Some? && r.projects[i.value].status == Deleted
                <==> exists p :: p in r.projects && p.id == id && p.status == Deleted)
            && (i.Some? ==>
                  forall p :: p in r.projects[..i.value] + r.projects[i.value + 1..] <==> p in r.projects && p.id != id)
  {
    hide IndexOf, DistinctSlugs, OneLivePerToken;
    IndexIsUnique(r, id);
    var i := IndexOf(r.projects, id);
    if i.Some? {
      assert r.projects[i.value] in r.projects;
      LeftWithout(r.projects, i.value);
    }
  }

  lemma FirstFree(projects: seq<Project>, base: string, k: nat)
    requires IsFree(projects, Candidate(base, k), None)
    requires forall j :: 0 <= j < k ==> !IsFree(projects, Candidate(base, j), None)
    ensures IsFirstFree(projects, base, k)
  {
    hide Candidate, IsFree, Slugs;
    FreeSlugs(projects, Candidate(base, k));
    forall j | 0 <= j < k
      ensures Candidate(base, j) in Slugs(projects)
    {
      FreeSlugs(projects, Candidate(base, j));
    }
  }

  lemma CandidateBase(base: string)
    ensures Candidate(base, 0) == base
  {
  }

  lemma CandidateNumbered(base: string, k: nat)
    requires k > 0
    ensures Candidate(base, k) == base + "-" + Digits(k)
  {
  }
}
