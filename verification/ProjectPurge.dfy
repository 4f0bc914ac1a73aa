/**
 * The purge of a deleted project: batches of at most 64 rows, one table per stage, each
 * invocation scheduling the next, through all stages twice.
 */
module ProjectPurge {
  import opened Prelude

  type Id = nat

  /** A row belongs to a project, or to a session when its table is keyed by session. */
  datatype Row = Row(id: Id, owner: Id)

  const BATCH := 64
  const STAGES := 33
  const SESSION_STAGE := 32

  /** Stages without a table of their own delete nothing. */
  predicate HasTable(stage: nat) {
    stage < STAGES && stage !in {2, 3, 8, 12, 17, 18, 24}
  }

  predicate IsSessionKeyed(stage: nat) {
    26 <= stage <= 29
  }

  type Tables = t: seq<seq<Row>> | |t| == STAGES witness seq(STAGES, i => [])

  // ---------- Rows ----------

  ghost predicate UniqueIds(rows: seq<Row>) {
    forall i, j :: 0 <= i < j < |rows| ==> rows[i].id != rows[j].id
  }

  /** The ids of the rows that belong to one of the owners. */
  ghost function OwnedIds(rows: seq<Row>, owners: set<Id>): set<Id> {
    set r | r in rows && r.owner in owners :: r.id
  }

  function SessionsOf(rows: seq<Row>, project: Id): (sessions: seq<Id>)
    ensures forall id :: id in sessions <==> Row(id, project) in rows
  {
    if rows == [] then []
    else
      var rest := SessionsOf(rows[1..], project);
      assert rows == [rows[0]] + rows[1..];
      if rows[0].owner == project then [rows[0].id] + rest else rest
  }

  /** Whose rows a stage deletes: the project's own, or those of its sessions. */
  ghost function Owners(tables: Tables, project: Id, stage: nat): set<Id> {
    if IsSessionKeyed(stage) then set id | id in SessionsOf(tables[SESSION_STAGE], project) else {project}
  }

  /** The rows a stage finds for the project. */
  ghost function Found(tables: Tables, project: Id, stage: nat): set<Id> {
    if HasTable(stage) then OwnedIds(tables[stage], Owners(tables, project, stage)) else {}
  }

  lemma OwnedIsFound(tables: Tables, project: Id, stage: nat, r: Row)
    requires HasTable(stage) && r in tables[stage] && r.owner in Owners(tables, project, stage)
    ensures r.id in Found(tables, project, stage)
  {
  }

  /** The first rows of an owner, up to a limit. */
  function Take(rows: seq<Row>, owner: Id, limit: nat): (taken: seq<Row>)
    ensures |taken| <= limit
    ensures forall r :: r in taken ==> r in rows && r.owner == owner
    ensures |taken| < limit ==> forall r :: r in rows && r.owner == owner ==> r in taken
  {
    if rows == [] || limit == 0 then []
    else
      assert rows == [rows[0]] + rows[1..];
      if rows[0].owner == owner then [rows[0]] + Take(rows[1..], owner, limit - 1) else Take(rows[1..], owner, limit)
  }

  lemma UniqueParts(rows: seq<Row>)
    requires rows != []
    ensures UniqueIds(rows) <==> UniqueIds(rows[1..]) && forall r :: r in rows[1..] ==> r.id != rows[0].id
  {
    var rest := rows[1..];
    assert forall i :: 0 <= i < |rest| ==> rest[i] == rows[i + 1];
    assert forall i :: 0 < i < |rows| ==> rows[i] == rest[i - 1] && rest[i - 1] in rest;
  }

  lemma NoRowsAreUnique()
    ensures UniqueIds([])
  {
  }

  lemma {:induction false} TakeKeepsUnique(rows: seq<Row>, owner: Id, limit: nat)
    requires UniqueIds(rows)
    ensures UniqueIds(Take(rows, owner, limit))
  {
    hide UniqueIds;
    if rows != [] && limit != 0 {
      UniqueParts(rows);
      if rows[0].owner == owner {
        TakeKeepsUnique(rows[1..], owner, limit - 1);
        var taken := Take(rows, owner, limit);
        assert taken[1..] == Take(rows[1..], owner, limit - 1);
        UniqueParts(taken);
      } else {
        TakeKeepsUnique(rows[1..], owner, limit);
      }
    } else {
      NoRowsAreUnique();
    }
  }

  /** The rows left after some ids have been deleted, in their old order. */
  function Without(rows: seq<Row>, ids: set<Id>): (left: seq<Row>)
    ensures forall r :: r in left <==> r in rows && r.id !in ids
  {
    if rows == [] then []
    else
      assert rows == [rows[0]] + rows[1..];
      if rows[0].id in ids then Without(rows[1..], ids) else [rows[0]] + Without(rows[1..], ids)
  }

  lemma {:induction false} WithoutTwice(rows: seq<Row>, a: set<Id>, b: set<Id>)
    ensures Without(Without(rows, a), b) == Without(rows, a + b)
  {
    if rows != [] {
      WithoutTwice(rows[1..], a, b);
      if rows[0].id !in a {
        assert Without(rows, a)[1..] == Without(rows[1..], a);
      }
    }
  }

  lemma {:induction false} WithoutNothing(rows: seq<Row>)
    ensures Without(rows, {}) == rows
  {
    if rows != [] {
      WithoutNothing(rows[1..]);
    }
  }

  lemma {:induction false} WithoutKeepsUnique(rows: seq<Row>, ids: set<Id>)
    requires UniqueIds(rows)
    ensures UniqueIds(Without(rows, ids))
  {
    hide UniqueIds;
    if rows != [] {
      UniqueParts(rows);
      WithoutKeepsUnique(rows[1..], ids);
      if rows[0].id !in ids {
        var left := Without(rows, ids);
        assert left[1..] == Without(rows[1..], ids);
        UniqueParts(left);
      }
    }
  }

  lemma UniqueIdIsUniqueRow(rows: seq<Row>, r: Row, q: Row)
    requires UniqueIds(rows) && r in rows && q in rows && r.id == q.id
    ensures r == q
  {
  }

  lemma OwnedAfterDeletion(rows: seq<Row>, ids: set<Id>, owners: set<Id>)
    requires UniqueIds(rows)
    ensures OwnedIds(Without(rows, ids), owners) == OwnedIds(rows, owners) - ids
  {
    forall id
      ensures id in OwnedIds(Without(rows, ids), owners) <==> id in OwnedIds(rows, owners) && id !in ids
    {
    }
  }

  ghost function IdsOf(rows: seq<Row>): set<Id> {
    set r | r in rows :: r.id
  }

  lemma {:induction false} IdsOfUnique(rows: seq<Row>)
    requires UniqueIds(rows)
    ensures |IdsOf(rows)| == |rows|
  {
    if rows != [] {
      IdsOfUnique(rows[1..]);
      assert rows == [rows[0]] + rows[1..];
      assert IdsOf(rows) == {rows[0].id} + IdsOf(rows[1..]);
      assert rows[0].id !in IdsOf(rows[1..]);
    }
  }

  // ---------- One stage ----------

  ghost predicate Min64(n: nat, found: nat) {
    n == if found < BATCH then found else BATCH
  }

  /** A stage deletes up to a batch of the rows it finds, and touches nothing else. */
  ghost predicate StageDeletes(before: Tables, after: Tables, project: Id, stage: nat, deleted: nat) {
    && (forall s :: 0 <= s < STAGES && s != stage ==> after[s] == before[s])
    && Min64(deleted, |Found(before, project, stage)|)
    && exists ids: set<Id> :: IsBatch(before, after, project, stage, deleted, ids)
  }

  ghost predicate IsBatch(before: Tables, after: Tables, project: Id, stage: nat, deleted: nat, ids: set<Id>) {
    && ids <= Found(before, project, stage) && |ids| == deleted
    && (stage < STAGES ==> after[stage] == Without(before[stage], ids))
  }

  /** At most 64 rows of these owners go, and all of them if there are fewer; no other row goes and none comes. */
  ghost predicate LosesBatch(before: seq<Row>, after: seq<Row>, owners: set<Id>, deleted: nat) {
    && deleted == (if |RowsOf(before, owners)| < 64 then |RowsOf(before, owners)| else 64)
    && |after| == |before| - deleted
    && (forall r :: r in after ==> r in before)
    && forall r :: r in before && r.owner !in owners ==> r in after
  }

  ghost function RowsOf(rows: seq<Row>, owners: set<Id>): set<Row> {
    set r | r in rows && r.owner in owners
  }

  lemma {:induction false} RowsAndIds(rows: seq<Row>, owners: set<Id>)
    requires UniqueIds(rows)
    ensures |RowsOf(rows, owners)| == |OwnedIds(rows, owners)|
  {
    hide UniqueIds, RowsOf, OwnedIds;
    if rows != [] {
      UniqueParts(rows);
      RowsAndIds(rows[1..], owners);
      OneRowMore(rows, owners);
      OneIdMore(rows, owners);
      if rows[0].owner in owners {
        FirstIsNew(rows, owners);
      }
    } else {
      NoRows(owners);
    }
  }

  lemma NoRows(owners: set<Id>)
    ensures RowsOf([], owners) == {} && OwnedIds([], owners) == {}
  {
  }

  lemma OneRowMore(rows: seq<Row>, owners: set<Id>)
    requires rows != []
    ensures RowsOf(rows, owners) == RowsOf(rows[1..], owners) + (if rows[0].owner in owners then {rows[0]} else {})
  {
    assert rows == [rows[0]] + rows[1..];
  }

  lemma OneIdMore(rows: seq<Row>, owners: set<Id>)
    requires rows != []
    ensures OwnedIds(rows, owners)
            == OwnedIds(rows[1..], owners) + (if rows[0].owner in owners then {rows[0].id} else {})
  {
    assert rows == [rows[0]] + rows[1..];
  }

  lemma FirstIsNew(rows: seq<Row>, owners: set<Id>)
    requires rows != [] && forall r :: r in rows[1..] ==> r.id != rows[0].id
    ensures rows[0] !in RowsOf(rows[1..], owners) && rows[0].id !in OwnedIds(rows[1..], owners)
  {
  }

  lemma {:induction false} WithoutCounts(rows: seq<Row>, ids: set<Id>)
    requires UniqueIds(rows) && ids <= IdsOf(rows)
    ensures |Without(rows, ids)| == |rows| - |ids|
  {
    WithoutKeepsUnique(rows, ids);
    IdsOfUnique(rows);
    IdsOfUnique(Without(rows, ids));
    assert IdsOf(Without(rows, ids)) == IdsOf(rows) - ids;
  }

  lemma StageLosesBatch(before: Tables, after: Tables, project: Id, stage: nat, deleted: nat)
    requires Healthy(before) && HasTable(stage) && StageDeletes(before, after, project, stage, deleted)
    ensures LosesBatch(before[stage], after[stage], Owners(before, project, stage), deleted)
  {
    hide UniqueIds, Without, Owners, IdsOf, OwnedIds, RowsOf;
    var ids: set<Id> :| IsBatch(before, after, project, stage, deleted, ids);
    var owners := Owners(before, project, stage);
    RowsAndIds(before[stage], owners);
    OwnedAreIds(before[stage], owners);
    WithoutCounts(before[stage], ids);
    SparesOthers(before[stage], ids, owners);
  }

  lemma OwnedAreIds(rows: seq<Row>, owners: set<Id>)
    ensures OwnedIds(rows, owners) <= IdsOf(rows)
  {
  }

  lemma ListedStages(stage: nat)
    ensures HasTable(stage) <==> IsProjectTable(stage) || 26 <= stage <= 29
    ensures IsSessionKeyed(stage) <==> 26 <= stage <= 29
    ensures IsProjectTable(stage) ==> !(26 <= stage <= 29)
  {
  }

  lemma ListedOwners(tables: Tables, project: Id, stage: nat)
    ensures Owners(tables, project, stage)
            == if 26 <= stage <= 29 then OwnedIds(tables[32], {project}) else {project}
  {
    forall id
      ensures id in OwnedIds(tables[32], {project}) <==> Row(id, project) in tables[32]
    {
      if id in OwnedIds(tables[32], {project}) {
        var r :| r in tables[32] && r.owner == project && r.id == id;
        assert r == Row(id, project);
      }
      if Row(id, project) in tables[32] {
        assert Row(id, project).owner in {project};
      }
    }
  }

  /** What a stage does, counted in rows: the tables that have a stage and the size of a batch. */
  lemma StageInNumbers(before: Tables, after: Tables, project: Id, stage: nat, deleted: nat)
    requires Healthy(before) && stage < STAGES && StageDeletes(before, after, project, stage, deleted)
    ensures IsProjectTable(stage) ==> LosesBatch(before[stage], after[stage], {project}, deleted)
    ensures 26 <= stage <= 29
            ==> LosesBatch(before[stage], after[stage], OwnedIds(before[32], {project}), deleted)
    ensures !IsProjectTable(stage) && !(26 <= stage <= 29) ==> deleted == 0 && after == before
  {
    hide Owners, OwnedIds, LosesBatch, HasTable, IsProjectTable;
    ListedStages(stage);
    ListedOwners(before, project, stage);
    if HasTable(stage) {
      StageLosesBatch(before, after, project, stage, deleted);
    } else {
      NoTableNoRows(before, after, project, stage, deleted);
    }
  }

  lemma NoTableNoRows(before: Tables, after: Tables, project: Id, stage: nat, deleted: nat)
    requires stage < STAGES && !HasTable(stage) && StageDeletes(before, after, project, stage, deleted)
    ensures deleted == 0 && after == before
  {
    hide Without;
    var ids: set<Id> :| IsBatch(before, after, project, stage, deleted, ids);
    assert ids == {};
    WithoutNothing(before[stage]);
  }

  lemma SparesOthers(rows: seq<Row>, ids: set<Id>, owners: set<Id>)
    requires UniqueIds(rows) && ids <= OwnedIds(rows, owners)
    ensures forall r :: r in rows && r.owner !in owners ==> r in Without(rows, ids)
  {
    hide UniqueIds;
    forall r | r in rows && r.owner !in owners
      ensures r in Without(rows, ids)
    {
      if r.id in ids {
        var q :| q in rows && q.owner in owners && q.id == r.id;
        UniqueIdIsUniqueRow(rows, r, q);
      }
    }
  }

  // ---------- The scheduler ----------

  datatype Status = Alive | Deleted | Purged

  datatype Job = Job(pass: int, stage: nat)

  datatype State = State(tables: Tables, status: Status, scheduled: Option<Job>)

  ghost predicate Healthy(tables: Tables) {
    forall s :: 0 <= s < STAGES ==> UniqueIds(tables[s])
  }

  /** What running the scheduled invocation does. */
  ghost predicate Invokes(before: State, after: State, project: Id) {
    && before.scheduled.Some?
    && var Job(pass, stage) := before.scheduled.value;
       if before.status != Deleted then after == before.(scheduled := None)
       else if stage >= STAGES then
         if pass < 1 then after == before.(scheduled := Some(Job(pass + 1, 0)))
         else after == before.(status := Purged, scheduled := None)
       else
         && after.status == Deleted
         && exists deleted: nat ::
              && StageDeletes(before.tables, after.tables, project, stage, deleted)
              && after.scheduled == Some(Job(pass, if deleted == BATCH then stage else stage + 1))
  }

  class Database {
    var tables: Tables
    var status: Status
    var scheduled: Option<Job>

    ghost function Snapshot(): State
      reads this
    {
      State(tables, status, scheduled)
    }

    ghost predicate Valid()
      reads this
    {
      Healthy(tables)
    }

    method DeleteRows(stage: nat, rows: seq<Row>)
      requires stage < STAGES
      modifies this`tables
      ensures tables == old(tables)[stage := Without(old(tables)[stage], IdsOf(rows))]
    {
      ghost var before := tables;
      WithoutNothing(before[stage]);
      assert IdsOf(rows[..0]) == {};
      for i := 0 to |rows|
        invariant tables == before[stage := Without(before[stage], IdsOf(rows[..i]))]
      {
        tables := tables[stage := Without(tables[stage], {rows[i].id})];
        WithoutTwice(before[stage], IdsOf(rows[..i]), {rows[i].id});
        assert rows[..i + 1] == rows[..i] + [rows[i]];
        assert IdsOf(rows[..i + 1]) == IdsOf(rows[..i]) + {rows[i].id};
      }
      assert rows[..|rows|] == rows;
    }

    /** Deletes at most one batch of rows keyed by the project's sessions. */
    method DeleteCollaborationSessionRows(project: Id, stage: nat) returns (deleted: nat)
      requires Valid() && IsSessionKeyed(stage)
      modifies this`tables
      ensures Valid() && StageDeletes(old(tables), tables, project, stage, deleted)
    {
      hide Take, Without, Found, OwnedIds, Owners, Healthy, StageDeletes, SessionsOf;
      ghost var before := tables;
      var sessions := SessionsOf(tables[SESSION_STAGE], project);
      ghost var ids: set<Id> := {};
      deleted := 0;
      WithoutNothing(before[stage]);
      NothingSwept(before, project, stage);
      for i := 0 to |sessions|
        invariant |ids| == deleted < BATCH
        invariant tables == before[stage := Without(before[stage], ids)]
        invariant SweptSessions(before, project, stage, ids, i)
      {
        var rows := Take(tables[stage], sessions[i], BATCH - deleted);
        TakenIsNew(before, project, stage, ids, i, BATCH - deleted);
        DeleteRows(stage, rows);
        WithoutTwice(before[stage], ids, IdsOf(rows));
        ids := ids + IdsOf(rows);
        deleted := deleted + |rows|;
        if deleted >= BATCH {
          BatchIsDeleted(before, tables, project, stage, ids);
          return;
        }
      }
      AllSwept(before, project, stage, ids);
      BatchIsDeleted(before, tables, project, stage, ids);
    }

    method DeleteProjectPurgeStage(project: Id, stage: nat) returns (deleted: nat)
      requires Valid() && stage < STAGES
      modifies this`tables
      ensures Valid() && StageDeletes(old(tables), tables, project, stage, deleted)
      ensures IsProjectTable(stage) ==> LosesBatch(old(tables)[stage], tables[stage], {project}, deleted)
      ensures 26 <= stage <= 29
              ==> LosesBatch(old(tables)[stage], tables[stage], OwnedIds(old(tables)[32], {project}), deleted)
      ensures !IsProjectTable(stage) && !(26 <= stage <= 29) ==> deleted == 0 && tables == old(tables)
      ensures forall s :: 0 <= s < 33 && s != stage ==> tables[s] == old(tables)[s]
    {
      if !HasTable(stage) {
        WithoutNothing(tables[stage]);
        BatchIsDeleted(tables, tables, project, stage, {});
        StageInNumbers(tables, tables, project, stage, 0);
        return 0;
      }
      if IsSessionKeyed(stage) {
        deleted := DeleteCollaborationSessionRows(project, stage);
        StageInNumbers(old(tables), tables, project, stage, deleted);
        return;
      }
      var rows := Take(tables[stage], project, BATCH);
      DeleteRows(stage, rows);
      deleted := |rows|;
      TakeKeepsUnique(old(tables)[stage], project, BATCH);
      IdsOfUnique(rows);
      assert deleted < BATCH ==> IdsOf(rows) == Found(old(tables), project, stage);
      BatchIsDeleted(old(tables), tables, project, stage, IdsOf(rows));
      StageInNumbers(old(tables), tables, project, stage, deleted);
    }

    method PurgeDeletedProjectData(project: Id) returns (done: bool)
      requires Valid() && scheduled.Some?
      modifies this
      ensures Valid() && Invokes(old(Snapshot()), Snapshot(), project)
      ensures done <==> scheduled.None?
    {
      var Job(pass, stage) := scheduled.value;
      scheduled := None;
      if status != Deleted {
        return true;
      }
      if stage >= STAGES {
        if pass < 1 {
          scheduled := Some(Job(pass + 1, 0));
          return false;
        }
        status := Purged;
        return true;
      }
      var deleted := DeleteProjectPurgeStage(project, stage);
      scheduled := Some(Job(pass, if deleted == BATCH then stage else stage + 1));
      return false;
    }
  }

  /** The ids are found ones, and include every row of the first `n` sessions. */
  ghost predicate SweptSessions(tables: Tables, project: Id, stage: nat, ids: set<Id>, n: nat)
    requires stage < STAGES
  {
    && ids <= Found(tables, project, stage)
    && n <= |SessionsOf(tables[SESSION_STAGE], project)|
    && forall r :: r in tables[stage] && r.owner in SessionsOf(tables[SESSION_STAGE], project)[..n] ==> r.id in ids
  }

  lemma NothingSwept(tables: Tables, project: Id, stage: nat)
    requires IsSessionKeyed(stage)
    ensures SweptSessions(tables, project, stage, {}, 0)
  {
  }

  lemma AllSwept(tables: Tables, project: Id, stage: nat, ids: set<Id>)
    requires IsSessionKeyed(stage)
    requires SweptSessions(tables, project, stage, ids, |SessionsOf(tables[SESSION_STAGE], project)|)
    ensures ids == Found(tables, project, stage)
  {
    var sessions := SessionsOf(tables[SESSION_STAGE], project);
    assert sessions[..|sessions|] == sessions;
  }

  /**
   * Rows taken from what is left of a session's rows are new, the project's, and all of them
   * unless the limit is reached.
   */
  lemma TakenIsNew(tables: Tables, project: Id, stage: nat, ids: set<Id>, n: nat, limit: nat)
    requires Healthy(tables) && IsSessionKeyed(stage) && SweptSessions(tables, project, stage, ids, n)
    requires n < |SessionsOf(tables[SESSION_STAGE], project)|
    ensures var rows := Take(Without(tables[stage], ids), SessionsOf(tables[SESSION_STAGE], project)[n], limit);
            && |ids + IdsOf(rows)| == |ids| + |rows| && |rows| <= limit
            && ids + IdsOf(rows) <= Found(tables, project, stage)
            && (|rows| < limit ==> SweptSessions(tables, project, stage, ids + IdsOf(rows), n + 1))
  {
    var sessions := SessionsOf(tables[SESSION_STAGE], project);
    var rows := Take(Without(tables[stage], ids), sessions[n], limit);
    WithoutKeepsUnique(tables[stage], ids);
    TakeKeepsUnique(Without(tables[stage], ids), sessions[n], limit);
    IdsOfUnique(rows);
    assert sessions[n] in Owners(tables, project, stage);
    assert ids !! IdsOf(rows);
    if |rows| < limit {
      AllOfOneMore(tables, project, stage, ids, n, limit);
    }
  }

  lemma AllOfOneMore(tables: Tables, project: Id, stage: nat, ids: set<Id>, n: nat, limit: nat)
    requires IsSessionKeyed(stage) && SweptSessions(tables, project, stage, ids, n)
    requires n < |SessionsOf(tables[SESSION_STAGE], project)|
    requires |Take(Without(tables[stage], ids), SessionsOf(tables[SESSION_STAGE], project)[n], limit)| < limit
    ensures var rows := Take(Without(tables[stage], ids), SessionsOf(tables[SESSION_STAGE], project)[n], limit);
            forall r :: r in tables[stage] && r.owner in SessionsOf(tables[SESSION_STAGE], project)[..n + 1]
                        ==> r.id in ids + IdsOf(rows)
  {
    hide Take, Without, Found, SessionsOf;
    var sessions := SessionsOf(tables[SESSION_STAGE], project);
    var rows := Take(Without(tables[stage], ids), sessions[n], limit);
    assert sessions[..n + 1] == sessions[..n] + [sessions[n]];
    forall r | r in tables[stage] && r.owner in sessions[..n + 1]
      ensures r.id in ids + IdsOf(rows)
    {
      if r.owner == sessions[n] && r.id !in ids {
        assert r in rows;
      }
    }
  }

  lemma BatchIsDeleted(before: Tables, after: Tables, project: Id, stage: nat, ids: set<Id>)
    requires Healthy(before) && stage < STAGES && ids <= Found(before, project, stage)
    requires |ids| == BATCH || (|ids| < BATCH && ids == Found(before, project, stage))
    requires after == before[stage := Without(before[stage], ids)]
    ensures Healthy(after) && StageDeletes(before, after, project, stage, |ids|)
  {
    if |ids| == BATCH {
      FullBatch(ids, Found(before, project, stage));
    }
    assert IsBatch(before, after, project, stage, |ids|, ids);
    WithoutKeepsUnique(before[stage], ids);
  }

  lemma FullBatch(ids: set<Id>, found: set<Id>)
    requires ids <= found && |ids| == BATCH
    ensures |found| >= BATCH
  {
    assert |found - ids| == |found| - |ids|;
  }

  // ---------- How many invocations a purge takes ----------

  /** The invocations stages `from` and later still need: one for each full batch and one more. */
  ghost function Work(tables: Tables, project: Id, from: nat): nat
    requires from <= STAGES
    decreases STAGES - from
  {
    if from == STAGES then 0 else |Found(tables, project, from)| / BATCH + 1 + Work(tables, project, from + 1)
  }

  /** The invocations left, the one that starts the second pass and the one that ends it included. */
  ghost function Remaining(s: State, project: Id): nat
    requires s.scheduled.Some? ==> s.scheduled.value.stage <= STAGES
  {
    if s.scheduled.None? then 0
    else Work(s.tables, project, s.scheduled.value.stage) + 1 + (if s.scheduled.value.pass < 1 then STAGES + 1 else 0)
  }

  ghost predicate Swept(tables: Tables, project: Id, upTo: nat) {
    forall s :: 0 <= s < upTo ==> Found(tables, project, s) == {}
  }

  /** A purge under way with no concurrent inserts: every stage before the current one is empty. */
  ghost predicate UnderWay(s: State, project: Id) {
    && Healthy(s.tables)
    && s.status == Deleted && s.scheduled.Some? && s.scheduled.value.pass in {0, 1} && s.scheduled.value.stage <= STAGES
    && Swept(s.tables, project, s.scheduled.value.stage)
  }

  /** The number of full batches among the rows the stages find. */
  ghost function FullBatches(tables: Tables, project: Id, from: nat): nat
    requires from <= STAGES
    decreases STAGES - from
  {
    if from == STAGES then 0 else |Found(tables, project, from)| / BATCH + FullBatches(tables, project, from + 1)
  }

  lemma {:induction false} WorkIsBatches(tables: Tables, project: Id, from: nat)
    requires from <= STAGES
    ensures Work(tables, project, from) == FullBatches(tables, project, from) + (STAGES - from)
    decreases STAGES - from
  {
    if from < STAGES {
      WorkIsBatches(tables, project, from + 1);
    }
  }

  lemma {:induction false} SweptHasNoBatches(tables: Tables, project: Id, from: nat)
    requires from <= STAGES && Swept(tables, project, STAGES)
    ensures FullBatches(tables, project, from) == 0
    decreases STAGES - from
  {
    if from < STAGES {
      SweptHasNoBatches(tables, project, from + 1);
      assert Found(tables, project, from) == {};
    }
  }

  /** What a stage leaves of the rows found: that many fewer there, and no more anywhere else. */
  lemma StageLeaves(before: Tables, after: Tables, project: Id, stage: nat, deleted: nat)
    requires Healthy(before) && stage < STAGES && StageDeletes(before, after, project, stage, deleted)
    ensures Healthy(after)
    ensures |Found(after, project, stage)| == |Found(before, project, stage)| - deleted
    ensures forall s :: 0 <= s < STAGES ==> Found(after, project, s) <= Found(before, project, s)
    ensures forall s :: stage < s < STAGES ==> Found(after, project, s) == Found(before, project, s)
    ensures forall s :: 0 <= s < STAGES ==> Owners(after, project, s) <= Owners(before, project, s)
  {
    var ids: set<Id> :| IsBatch(before, after, project, stage, deleted, ids);
    forall s | 0 <= s < STAGES
      ensures UniqueIds(after[s])
    {
      WithoutKeepsUnique(before[stage], ids);
    }
    SessionsAfter(before, after, project, stage, ids);
    if HasTable(stage) {
      OwnedAfterDeletion(before[stage], ids, Owners(before, project, stage));
      assert Owners(after, project, stage) == Owners(before, project, stage);
      assert Found(after, project, stage) == Found(before, project, stage) - ids;
    }
    forall s | 0 <= s < STAGES && s != stage
      ensures Found(after, project, s) <= Found(before, project, s)
    {
      assert after[s] == before[s];
    }
  }

  lemma SessionsAfter(before: Tables, after: Tables, project: Id, stage: nat, ids: set<Id>)
    requires stage < STAGES && after[stage] == Without(before[stage], ids)
    requires forall s :: 0 <= s < STAGES && s != stage ==> after[s] == before[s]
    ensures forall s :: 0 <= s < STAGES ==> Owners(after, project, s) <= Owners(before, project, s)
    ensures stage != SESSION_STAGE
            ==> forall s :: 0 <= s < STAGES ==> Owners(after, project, s) == Owners(before, project, s)
  {
  }

  lemma {:induction false} SameWork(a: Tables, b: Tables, project: Id, from: nat)
    requires from <= STAGES && forall s :: from <= s < STAGES ==> Found(a, project, s) == Found(b, project, s)
    ensures Work(a, project, from) == Work(b, project, from)
    decreases STAGES - from
  {
    if from < STAGES {
      SameWork(a, b, project, from + 1);
    }
  }

  /** Each invocation takes exactly one off what remains. */
  lemma InvocationCountsDown(before: State, after: State, project: Id)
    requires UnderWay(before, project) && Invokes(before, after, project)
    ensures after.scheduled.Some? ==> UnderWay(after, project)
    ensures after.scheduled.None? ==> after.status == Purged && Swept(after.tables, project, STAGES)
    ensures Remaining(after, project) == Remaining(before, project) - 1
  {
    hide Healthy, Swept, StageDeletes, Found;
    var Job(pass, stage) := before.scheduled.value;
    if stage < STAGES {
      var deleted: nat :| StageDeletes(before.tables, after.tables, project, stage, deleted)
                          && after.scheduled == Some(Job(pass, if deleted == BATCH then stage else stage + 1));
      BatchCountsDown(before.tables, after.tables, project, stage, deleted);
    } else if pass < 1 {
      NothingToSweep(before.tables, project);
      WorkIsBatches(before.tables, project, 0);
      SweptHasNoBatches(before.tables, project, 0);
    }
  }

  lemma NothingToSweep(tables: Tables, project: Id)
    ensures Swept(tables, project, 0)
  {
  }

  lemma BatchCountsDown(before: Tables, after: Tables, project: Id, stage: nat, deleted: nat)
    requires Healthy(before) && stage < STAGES && Swept(before, project, stage)
    requires StageDeletes(before, after, project, stage, deleted)
    ensures Healthy(after) && Swept(after, project, if deleted == BATCH then stage else stage + 1)
    ensures Work(after, project, if deleted == BATCH then stage else stage + 1) == Work(before, project, stage) - 1
  {
    StageLeaves(before, after, project, stage, deleted);
    hide Found, StageDeletes, Healthy, Owners;
    SameWork(before, after, project, stage + 1);
    var n, m := |Found(before, project, stage)|, |Found(after, project, stage)|;
    if deleted == BATCH {
      assert n / BATCH == m / BATCH + 1;
    } else {
      assert n / BATCH == 0 && m == 0;
    }
    forall s | 0 <= s < stage
      ensures Found(after, project, s) == {}
    {
      assert Found(before, project, s) == {};
    }
  }

  /** A run of invocations, each the one the last scheduled, until none is scheduled. */
  ghost predicate IsRun(run: seq<State>, project: Id) {
    && run != [] && run[|run| - 1].scheduled.None?
    && forall i :: 0 <= i < |run| - 1 ==> Invokes(run[i], run[i + 1], project)
  }

  lemma {:induction false} RunTakes(run: seq<State>, project: Id)
    requires IsRun(run, project) && UnderWay(run[0], project)
    ensures |run| - 1 == Remaining(run[0], project)
    ensures run[|run| - 1].status == Purged && Swept(run[|run| - 1].tables, project, STAGES)
    decreases |run|
  {
    assert Invokes(run[0], run[1], project);
    InvocationCountsDown(run[0], run[1], project);
    if run[1].scheduled.Some? {
      var rest := run[1..];
      forall i | 0 <= i < |rest| - 1
        ensures Invokes(rest[i], rest[i + 1], project)
      {
        assert Invokes(run[i + 1], run[i + 2], project);
      }
      RunTakes(rest, project);
    } else {
      assert |run| > 2 ==> Invokes(run[1], run[2], project);
    }
  }

  // ---------- Rows of sessions ----------

  /** Rows keyed by one of these sessions are there only while the session is. */
  ghost predicate NoOrphans(tables: Tables, project: Id, sessions: set<Id>) {
    forall s, r :: 0 <= s < STAGES && IsSessionKeyed(s) && r in tables[s] && r.owner in sessions
                   ==> Row(r.owner, project) in tables[SESSION_STAGE]
  }

  lemma BatchKeepsNoOrphans(before: Tables, after: Tables, project: Id, stage: nat, deleted: nat, sessions: set<Id>)
    requires Swept(before, project, stage) && stage < STAGES && StageDeletes(before, after, project, stage, deleted)
    requires NoOrphans(before, project, sessions)
    ensures NoOrphans(after, project, sessions)
  {
    var ids: set<Id> :| IsBatch(before, after, project, stage, deleted, ids);
    forall s, r | 0 <= s < STAGES && IsSessionKeyed(s) && r in after[s] && r.owner in sessions
      ensures Row(r.owner, project) in after[SESSION_STAGE]
    {
      assert r in before[s];
      if stage == SESSION_STAGE {
        assert Found(before, project, s) == {};
        OwnedIsFound(before, project, s, r);
      }
    }
  }

  lemma InvocationKeepsNoOrphans(before: State, after: State, project: Id, sessions: set<Id>)
    requires UnderWay(before, project) && Invokes(before, after, project) && NoOrphans(before.tables, project, sessions)
    ensures NoOrphans(after.tables, project, sessions)
  {
    hide NoOrphans, StageDeletes, Swept, Healthy;
    var Job(pass, stage) := before.scheduled.value;
    if stage < STAGES {
      var deleted: nat :| StageDeletes(before.tables, after.tables, project, stage, deleted)
                          && after.scheduled == Some(Job(pass, if deleted == BATCH then stage else stage + 1));
      BatchKeepsNoOrphans(before.tables, after.tables, project, stage, deleted, sessions);
    }
  }

  lemma {:induction false} RunKeepsNoOrphans(run: seq<State>, project: Id, sessions: set<Id>)
    requires IsRun(run, project) && UnderWay(run[0], project) && NoOrphans(run[0].tables, project, sessions)
    ensures NoOrphans(run[|run| - 1].tables, project, sessions)
    decreases |run|
  {
    hide NoOrphans;
    assert Invokes(run[0], run[1], project);
    InvocationCountsDown(run[0], run[1], project);
    InvocationKeepsNoOrphans(run[0], run[1], project, sessions);
    if run[1].scheduled.Some? {
      var rest := run[1..];
      forall i | 0 <= i < |rest| - 1
        ensures Invokes(rest[i], rest[i + 1], project)
      {
        assert Invokes(run[i + 1], run[i + 2], project);
      }
      RunKeepsNoOrphans(rest, project, sessions);
    } else {
      assert |run| > 2 ==> Invokes(run[1], run[2], project);
    }
  }

  /** No table with a stage has a row that was the project's, or one of its sessions', before. */
  ghost predicate IsCleared(before: Tables, after: Tables, project: Id) {
    && NothingLeft(after, project)
    && forall s, r :: 26 <= s <= 29 && r in after[s] ==> Row(r.owner, project) !in before[32]
  }

  lemma ClearedWhenSwept(before: Tables, after: Tables, project: Id)
    requires Swept(after, project, STAGES)
    requires NoOrphans(after, project, Owners(before, project, 26))
    ensures IsCleared(before, after, project)
  {
    SweptLeavesNothing(after, project);
    forall s, r | 26 <= s <= 29 && r in after[s]
      ensures Row(r.owner, project) !in before[32]
    {
      if Row(r.owner, project) in before[32] {
        assert r.owner in Owners(before, project, 26);
        OwnedIsFound(after, project, SESSION_STAGE, Row(r.owner, project));
      }
    }
  }

  /** A run clears every table with a stage of what it found there, rows keyed by session included. */
  lemma RunClears(run: seq<State>, project: Id)
    requires IsRun(run, project) && UnderWay(run[0], project)
    ensures run[|run| - 1].status == Purged && IsCleared(run[0].tables, run[|run| - 1].tables, project)
  {
    RunTakes(run, project);
    RunKeepsNoOrphans(run, project, Owners(run[0].tables, project, 26));
    hide Swept, NoOrphans, IsRun, UnderWay, Owners;
    ClearedWhenSwept(run[0].tables, run[|run| - 1].tables, project);
  }

  /**
   * A whole purge takes 68 invocations and one for each full batch that a stage finds, and
   * leaves no row of the project, nor of the sessions it had, in any table that has a stage.
   */
  lemma WholePurge(run: seq<State>, project: Id)
    requires IsRun(run, project)
    requires Healthy(run[0].tables) && run[0].status == Deleted && run[0].scheduled == Some(Job(0, 0))
    ensures |run| - 1 == 68 + FullBatches(run[0].tables, project, 0)
    ensures run[|run| - 1].status == Purged && IsCleared(run[0].tables, run[|run| - 1].tables, project)
    ensures Swept(run[|run| - 1].tables, project, STAGES)
  {
    RunTakes(run, project);
    RunClears(run, project);
    WorkIsBatches(run[0].tables, project, 0);
  }

  /** The second pass clears whatever it starts with. */
  lemma SecondPass(run: seq<State>, project: Id)
    requires IsRun(run, project)
    requires Healthy(run[0].tables) && run[0].status == Deleted && run[0].scheduled == Some(Job(1, 0))
    ensures |run| - 1 == 34 + FullBatches(run[0].tables, project, 0)
    ensures run[|run| - 1].status == Purged && IsCleared(run[0].tables, run[|run| - 1].tables, project)
    ensures Swept(run[|run| - 1].tables, project, STAGES)
  {
    RunTakes(run, project);
    RunClears(run, project);
    WorkIsBatches(run[0].tables, project, 0);
  }

  /** The tables that are keyed by project. */
  ghost predicate IsProjectTable(stage: int) {
    stage in {0, 1, 4, 5, 6, 7, 9, 10, 11, 13, 14, 15, 16, 19, 20, 21, 22, 23, 25, 30, 31, 32}
  }

  /** None of them has a row of the project. */
  ghost predicate NothingLeft(tables: Tables, project: Id) {
    forall s, r :: IsProjectTable(s) && r in tables[s] ==> r.owner != project
  }

  lemma SweptLeavesNothing(tables: Tables, project: Id)
    requires Swept(tables, project, STAGES)
    ensures NothingLeft(tables, project)
  {
    forall s, r | IsProjectTable(s) && r in tables[s]
      ensures r.owner != project
    {
      if r.owner == project {
        OwnedIsFound(tables, project, s, r);
      }
    }
  }

  // ---------- Rows that arrive meanwhile ----------

  /** Between two invocations of the first pass, writes already in flight add rows to any of the tables. */
  ghost predicate Arrives(before: State, after: State) {
    && before.scheduled.Some? && before.scheduled.value.pass == 0
    && after == before.(tables := after.tables) && Healthy(after.tables)
    && forall s, r :: 0 <= s < STAGES && r in before.tables[s] ==> r in after.tables[s]
  }

  /** A purge during whose first pass rows go on arriving. */
  ghost predicate IsBusyRun(run: seq<State>, project: Id) {
    && run != [] && run[|run| - 1].scheduled.None?
    && forall i :: 0 <= i < |run| - 1 ==> Invokes(run[i], run[i + 1], project) || Arrives(run[i], run[i + 1])
  }

  /** In the first pass anything may be anywhere; in the second nothing arrives any more. */
  ghost predicate IsGoingOn(s: State, project: Id) {
    && Healthy(s.tables) && s.status == Deleted && s.scheduled.Some? && s.scheduled.value.stage <= STAGES
    && (s.scheduled.value.pass == 0 || UnderWay(s, project))
  }

  lemma GoesOn(before: State, after: State, project: Id)
    requires IsGoingOn(before, project) && (Invokes(before, after, project) || Arrives(before, after))
    ensures after.scheduled.Some? ==> IsGoingOn(after, project)
    ensures after.scheduled.None? ==> after.status == Purged && Swept(after.tables, project, STAGES)
  {
    hide Healthy, Swept, StageDeletes;
    var Job(pass, stage) := before.scheduled.value;
    if Arrives(before, after) {
      assert after.scheduled == before.scheduled;
    } else if pass == 0 {
      FirstPassGoesOn(before, after, project);
    } else {
      InvocationCountsDown(before, after, project);
    }
  }

  lemma FirstPassGoesOn(before: State, after: State, project: Id)
    requires IsGoingOn(before, project) && before.scheduled.value.pass == 0 && Invokes(before, after, project)
    ensures after.scheduled.Some? && IsGoingOn(after, project)
  {
    hide Healthy, StageDeletes;
    var stage := before.scheduled.value.stage;
    if stage < STAGES {
      var deleted: nat :| StageDeletes(before.tables, after.tables, project, stage, deleted)
                          && after.scheduled == Some(Job(0, if deleted == BATCH then stage else stage + 1));
      StageLeaves(before.tables, after.tables, project, stage, deleted);
    } else {
      assert Swept(after.tables, project, 0);
    }
  }

  lemma {:induction false} BusyRunSweeps(run: seq<State>, project: Id)
    requires IsBusyRun(run, project) && IsGoingOn(run[0], project)
    ensures run[|run| - 1].status == Purged && Swept(run[|run| - 1].tables, project, STAGES)
    decreases |run|
  {
    hide Invokes, Arrives, IsGoingOn, Swept;
    if run[0].scheduled.None? {
      NotGoingOn(run[0], project);
    } else {
      GoesOn(run[0], run[1], project);
      var rest := run[1..];
      forall i | 0 <= i < |rest| - 1
        ensures Invokes(rest[i], rest[i + 1], project) || Arrives(rest[i], rest[i + 1])
      {
        assert Invokes(run[i + 1], run[i + 2], project) || Arrives(run[i + 1], run[i + 2]);
      }
      if run[1].scheduled.Some? {
        BusyRunSweeps(rest, project);
      } else {
        NothingFollows(run, project);
      }
    }
  }

  lemma NotGoingOn(s: State, project: Id)
    requires s.scheduled.None?
    ensures !IsGoingOn(s, project)
  {
  }

  lemma NothingFollows(run: seq<State>, project: Id)
    requires IsBusyRun(run, project) && |run| > 1 && run[1].scheduled.None?
    ensures |run| == 2
  {
    assert |run| > 2 ==> Invokes(run[1], run[2], project) || Arrives(run[1], run[2]);
  }

  /**
   * A purge from its start, with rows arriving all through the first pass, leaves none of the
   * project's rows in any table keyed by project.
   */
  lemma LateRowsGoToo(run: seq<State>, project: Id)
    requires IsBusyRun(run, project)
    requires Healthy(run[0].tables) && run[0].status == Deleted && run[0].scheduled == Some(Job(0, 0))
    ensures run[|run| - 1].status == Purged
    ensures Swept(run[|run| - 1].tables, project, STAGES) && NothingLeft(run[|run| - 1].tables, project)
  {
    hide Healthy, Swept, NothingLeft;
    BusyRunSweeps(run, project);
    SweptLeavesNothing(run[|run| - 1].tables, project);
  }

  // ---------- Rows that arrive for a session ----------

  /** A new session is not one that a row refers to already. */
  ghost predicate HasFreshSessions(before: State, after: State) {
    forall q :: q in after.tables[SESSION_STAGE] && q !in before.tables[SESSION_STAGE]
                ==> forall s, r :: 0 <= s < STAGES && IsSessionKeyed(s) && r in before.tables[s] ==> r.owner != q.id
  }

  ghost predicate HasSession(s: State, project: Id, r: Row) {
    Row(r.owner, project) in s.tables[SESSION_STAGE]
  }

  /** The row is there and its session is not. */
  ghost predicate IsStray(s: State, project: Id, stage: nat, r: Row) {
    stage < STAGES && r in s.tables[stage] && !HasSession(s, project, r)
  }

  /** The session is deleted while the row is there. */
  ghost predicate LosesSession(before: State, after: State, project: Id, stage: nat, r: Row) {
    stage < STAGES && r in before.tables[stage] && HasSession(before, project, r) && !HasSession(after, project, r)
  }

  /** The row arrives when its session is gone. */
  ghost predicate ComesLate(before: State, after: State, project: Id, stage: nat, r: Row) {
    && stage < STAGES && r !in before.tables[stage] && r in after.tables[stage]
    && !HasSession(before, project, r) && !HasSession(after, project, r)
  }

  lemma StrayStays(before: State, after: State, project: Id, stage: nat, r: Row)
    requires Healthy(before.tables) && IsSessionKeyed(stage) && IsStray(before, project, stage, r)
    requires (Invokes(before, after, project) || Arrives(before, after)) && HasFreshSessions(before, after)
    ensures IsStray(after, project, stage, r)
  {
    if !Arrives(before, after) {
      hide Invokes, Healthy, HasFreshSessions;
      OneInvocationSpares(before, after, project, stage, r);
    }
  }

  /** Deleting sessions leaves the other tables as they are. */
  lemma LosingStrays(before: State, after: State, project: Id, stage: nat, r: Row)
    requires IsSessionKeyed(stage) && HasSession(before, project, r) && !HasSession(after, project, r)
    requires Invokes(before, after, project) || Arrives(before, after)
    ensures after.tables[stage] == before.tables[stage]
  {
    hide Healthy;
  }

  lemma {:induction false} BusyGoesOn(run: seq<State>, project: Id, k: nat)
    requires IsBusyRun(run, project) && IsGoingOn(run[0], project) && k < |run| - 1
    ensures IsGoingOn(run[k], project)
  {
    hide Invokes, Arrives, IsGoingOn;
    if k > 0 {
      BusyGoesOn(run, project, k - 1);
      GoesOn(run[k - 1], run[k], project);
      StepNeedsJob(run[k], run[k + 1], project);
    }
  }

  lemma StepNeedsJob(before: State, after: State, project: Id)
    requires Invokes(before, after, project) || Arrives(before, after)
    ensures before.scheduled.Some?
  {
  }

  lemma {:induction false} StrayToTheEnd(run: seq<State>, project: Id, stage: nat, r: Row, k: nat)
    requires IsBusyRun(run, project) && IsGoingOn(run[0], project) && k < |run|
    requires forall i :: 0 <= i < |run| - 1 ==> HasFreshSessions(run[i], run[i + 1])
    requires IsSessionKeyed(stage) && IsStray(run[k], project, stage, r)
    ensures IsStray(run[|run| - 1], project, stage, r)
    decreases |run| - k
  {
    hide Invokes, Arrives, HasFreshSessions, IsStray;
    if k < |run| - 1 {
      BusyGoesOn(run, project, k);
      StrayStays(run[k], run[k + 1], project, stage, r);
      StrayToTheEnd(run, project, stage, r, k + 1);
    }
  }

  /** The last state in which the session is there. */
  lemma {:induction false} SessionGoes(run: seq<State>, project: Id, r: Row, i: nat) returns (j: nat)
    requires i < |run| && HasSession(run[i], project, r) && !HasSession(run[|run| - 1], project, r)
    ensures i <= j < |run| - 1 && HasSession(run[j], project, r)
    ensures forall k :: j < k < |run| ==> !HasSession(run[k], project, r)
  {
    hide HasSession;
    j := |run| - 2;
    while !HasSession(run[j], project, r)
      invariant i <= j < |run| - 1
      invariant forall k :: j < k < |run| ==> !HasSession(run[k], project, r)
      decreases j
    {
      j := j - 1;
    }
  }

  lemma {:induction false} RowComes(run: seq<State>, stage: nat, r: Row, i: nat) returns (j: nat)
    requires stage < STAGES && i < |run| && r !in run[i].tables[stage] && r in run[|run| - 1].tables[stage]
    ensures i <= j < |run| - 1 && r !in run[j].tables[stage] && r in run[j + 1].tables[stage]
  {
    j := i;
    while r !in run[j + 1].tables[stage]
      invariant i <= j < |run| - 1 && r !in run[j].tables[stage]
      decreases |run| - j
    {
      j := j + 1;
    }
  }

  lemma NoSessionAtTheEnd(run: seq<State>, project: Id, r: Row)
    requires run != [] && Swept(run[|run| - 1].tables, project, STAGES)
    ensures !HasSession(run[|run| - 1], project, r)
  {
    if HasSession(run[|run| - 1], project, r) {
      OwnedIsFound(run[|run| - 1].tables, project, SESSION_STAGE, Row(r.owner, project));
    }
  }

  /** Some step after i deletes the row's session while the row is there, or brings the row when its session is gone. */
  ghost predicate IsOrphanedAfter(run: seq<State>, project: Id, stage: nat, r: Row, i: nat) {
    exists j :: i <= j < |run| - 1 && OrphansAt(run, project, stage, r, j)
  }

  ghost predicate OrphansAt(run: seq<State>, project: Id, stage: nat, r: Row, j: nat)
    requires j < |run| - 1
  {
    LosesSession(run[j], run[j + 1], project, stage, r) || ComesLate(run[j], run[j + 1], project, stage, r)
  }

  lemma OrphanIsFound(run: seq<State>, project: Id, stage: nat, r: Row, i: nat)
    requires IsBusyRun(run, project) && IsGoingOn(run[0], project) && IsSessionKeyed(stage)
    requires i < |run| && HasSession(run[i], project, r) && r in run[|run| - 1].tables[stage]
    ensures IsOrphanedAfter(run, project, stage, r, i)
  {
    hide Invokes, Arrives, IsGoingOn, HasSession, Swept;
    BusyRunSweeps(run, project);
    NoSessionAtTheEnd(run, project, r);
    var j := SessionGoes(run, project, r, i);
    LosingStrays(run[j], run[j + 1], project, stage, r);
    if r in run[j].tables[stage] {
      assert OrphansAt(run, project, stage, r, j);
    } else {
      var k := RowComes(run, stage, r, j + 1);
      assert OrphansAt(run, project, stage, r, k);
    }
  }

  /**
   * A row keyed by one of the project's sessions outlives the purge exactly when the session is
   * deleted while the row is there, or the row arrives when its session is gone.
   */
  lemma LateSessionRows(run: seq<State>, project: Id, stage: nat, r: Row, i: nat)
    requires IsBusyRun(run, project)
    requires Healthy(run[0].tables) && run[0].status == Deleted && run[0].scheduled == Some(Job(0, 0))
    requires forall k :: 0 <= k < |run| - 1 ==> HasFreshSessions(run[k], run[k + 1])
    requires IsSessionKeyed(stage) && i < |run| && HasSession(run[i], project, r)
    ensures r in run[|run| - 1].tables[stage] <==> IsOrphanedAfter(run, project, stage, r, i)
  {
    hide HasFreshSessions, Invokes, Arrives, Healthy, HasSession;
    if IsOrphanedAfter(run, project, stage, r, i) {
      var j :| i <= j < |run| - 1 && OrphansAt(run, project, stage, r, j);
      if LosesSession(run[j], run[j + 1], project, stage, r) {
        LosingStrays(run[j], run[j + 1], project, stage, r);
      }
      StrayToTheEnd(run, project, stage, r, j + 1);
    }
    if r in run[|run| - 1].tables[stage] {
      OrphanIsFound(run, project, stage, r, i);
    }
  }

  // ---------- A row that outlives the purge ----------

  /** Nothing but one session and the members table. */
  function Sparse(members: seq<Row>, sessions: seq<Row>): Tables {
    seq(STAGES, s requires 0 <= s < STAGES => if s == 26 then members else if s == SESSION_STAGE then sessions else [])
  }

  function At(tables: Tables, pass: int, stage: nat): State {
    State(tables, Deleted, Some(Job(pass, stage)))
  }

  lemma EmptyStagePasses(tables: Tables, project: Id, pass: int, stage: nat)
    requires stage < STAGES && Found(tables, project, stage) == {}
    ensures Invokes(At(tables, pass, stage), At(tables, pass, stage + 1), project)
  {
    WithoutNothing(tables[stage]);
    assert IsBatch(tables, tables, project, stage, 0, {});
    assert StageDeletes(tables, tables, project, stage, 0);
  }

  lemma Prepended(s: State, run: seq<State>, project: Id)
    requires IsBusyRun(run, project) && (Invokes(s, run[0], project) || Arrives(s, run[0]))
    ensures IsBusyRun([s] + run, project)
  {
    hide Invokes, Arrives;
    var longer := [s] + run;
    forall i | 0 <= i < |longer| - 1
      ensures Invokes(longer[i], longer[i + 1], project) || Arrives(longer[i], longer[i + 1])
    {
      if i > 0 {
        assert longer[i] == run[i - 1] && longer[i + 1] == run[i];
      }
    }
  }

  /** From a stage on to another, with nothing found on the way, and then the given run. */
  lemma {:induction false} PassesTo(tables: Tables, project: Id, pass: int, stage: nat, last: nat, rest: seq<State>)
    returns (run: seq<State>)
    requires stage <= last <= STAGES && forall s :: stage <= s < last ==> Found(tables, project, s) == {}
    requires IsBusyRun(rest, project) && rest[0] == At(tables, pass, last)
    ensures IsBusyRun(run, project) && run[0] == At(tables, pass, stage)
    ensures |run| == last - stage + |rest| && run[last - stage..] == rest
    decreases last - stage
  {
    if stage == last {
      run := rest;
    } else {
      hide IsBusyRun, Invokes, Found;
      var tail := PassesTo(tables, project, pass, stage + 1, last, rest);
      EmptyStagePasses(tables, project, pass, stage);
      Prepended(At(tables, pass, stage), tail, project);
      run := [At(tables, pass, stage)] + tail;
      assert run[last - stage..] == tail[last - stage - 1..];
    }
  }

  lemma SparseFinds(members: seq<Row>, sessions: seq<Row>, project: Id, stage: nat)
    requires stage < STAGES && (stage == 26 ==> members == [] || sessions == []) && (stage == 32 ==> sessions == [])
    ensures Found(Sparse(members, sessions), project, stage) == {}
  {
    if stage == 26 && sessions == [] {
      assert SessionsOf(Sparse(members, sessions)[SESSION_STAGE], project) == [];
    }
  }

  /** The one invocation that finds something: it deletes the session and leaves the member row. */
  lemma SessionIsDeleted(project: Id, session: Id, member: Row)
    ensures Invokes(At(Sparse([member], [Row(session, project)]), 0, 32), At(Sparse([member], []), 0, 33), project)
  {
    var before, after := Sparse([member], [Row(session, project)]), Sparse([member], []);
    var q := Row(session, project);
    assert before[32] == [q] && q in before[32];
    assert Found(before, project, 32) == {session};
    assert Without([q], {session}) == Without([q][1..], {session});
    assert IsBatch(before, after, project, 32, 1, {session});
    assert StageDeletes(before, after, project, 32, 1);
  }

  /** The end: the second pass finds nothing, and the project's own row goes. */
  lemma SecondPassFindsNothing(project: Id, member: Row) returns (run: seq<State>)
    ensures run != [] && IsBusyRun(run, project) && run[0] == At(Sparse([member], []), 0, 33)
    ensures run[|run| - 1].tables == Sparse([member], [])
  {
    hide Found, Sparse;
    var tables := Sparse([member], []);
    var end := State(tables, Purged, None);
    forall s | 0 <= s < STAGES
      ensures Found(tables, project, s) == {}
    {
      SparseFinds([member], [], project, s);
    }
    var tail := PassesTo(tables, project, 1, 0, STAGES, [At(tables, 1, STAGES), end]);
    Prepended(At(tables, 0, 33), tail, project);
    run := [At(tables, 0, 33)] + tail;
    assert run[|run| - 1] == tail[|tail| - 1] == tail[STAGES..][1];
  }

  /** At the last stage of the first pass a row arrives for a session that is still there. */
  ghost predicate ArrivesAtLast(run: seq<State>, project: Id, member: Row) {
    && |run| > 33 && Arrives(run[32], run[33])
    && HasSession(run[32], project, member) && HasSession(run[33], project, member)
    && member !in run[32].tables[26] && member in run[33].tables[26]
  }

  /** It does happen: a member row that arrives then is still there when the project and its sessions are gone. */
  lemma LateMemberStays(project: Id, session: Id, id: Id) returns (run: seq<State>)
    ensures IsBusyRun(run, project) && run[0].status == Deleted && run[0].scheduled == Some(Job(0, 0))
    ensures Healthy(run[0].tables) && ArrivesAtLast(run, project, Row(id, session))
    ensures Row(id, session) in run[|run| - 1].tables[26]
  {
    var member, q := Row(id, session), Row(session, project);
    var none, both := Sparse([], [q]), Sparse([member], [q]);
    hide Found, Invokes, IsBusyRun, StageDeletes;
    var end := SecondPassFindsNothing(project, member);
    SessionIsDeleted(project, session, member);
    Prepended(At(both, 0, 32), end, project);
    assert Arrives(At(none, 0, 32), At(both, 0, 32));
    Prepended(At(none, 0, 32), [At(both, 0, 32)] + end, project);
    var tail := [At(none, 0, 32)] + ([At(both, 0, 32)] + end);
    forall s | 0 <= s < 32
      ensures Found(none, project, s) == {}
    {
      SparseFinds([], [q], project, s);
    }
    run := PassesTo(none, project, 0, 0, 32, tail);
    assert run[32] == tail[0] && run[33] == tail[1] && run[|run| - 1] == tail[|tail| - 1] == end[|end| - 1];
    assert q in none[SESSION_STAGE] && q in both[SESSION_STAGE];
  }

  // ---------- What is spared, and what goes last ----------

  /** No session is deleted while a row keyed by one of the project's sessions remains. */
  lemma SessionsGoLast(before: State, after: State, project: Id, stage: nat, r: Row)
    requires UnderWay(before, project) && Invokes(before, after, project)
    requires after.tables[SESSION_STAGE] != before.tables[SESSION_STAGE]
    requires IsSessionKeyed(stage) && r in before.tables[stage]
    ensures Row(r.owner, project) !in before.tables[SESSION_STAGE]
  {
    assert before.scheduled.value.stage == SESSION_STAGE;
    if Row(r.owner, project) in before.tables[SESSION_STAGE] {
      OwnedIsFound(before.tables, project, stage, r);
    }
  }

  /** Rows that are not the project's, nor its sessions', stay where they are for the whole run. */
  lemma {:induction false} OthersAreSpared(run: seq<State>, project: Id, stage: nat, r: Row)
    requires IsRun(run, project) && Healthy(run[0].tables)
    requires stage < STAGES && r in run[0].tables[stage] && r.owner !in Owners(run[0].tables, project, stage)
    ensures r in run[|run| - 1].tables[stage]
    decreases |run|
  {
    if |run| > 1 {
      assert Invokes(run[0], run[1], project);
      OneInvocationSpares(run[0], run[1], project, stage, r);
      var rest := run[1..];
      forall i | 0 <= i < |rest| - 1
        ensures Invokes(rest[i], rest[i + 1], project)
      {
        assert Invokes(run[i + 1], run[i + 2], project);
      }
      OthersAreSpared(rest, project, stage, r);
    }
  }

  lemma OneInvocationSpares(before: State, after: State, project: Id, stage: nat, r: Row)
    requires Healthy(before.tables) && Invokes(before, after, project)
    requires stage < STAGES && r in before.tables[stage] && r.owner !in Owners(before.tables, project, stage)
    ensures Healthy(after.tables) && r in after.tables[stage] && r.owner !in Owners(after.tables, project, stage)
  {
    var job := before.scheduled.value;
    if before.status == Deleted && job.stage < STAGES {
      var deleted: nat :| StageDeletes(before.tables, after.tables, project, job.stage, deleted)
                          && after.scheduled
                             == Some(Job(job.pass, if deleted == BATCH then job.stage else job.stage + 1));
      StageLeaves(before.tables, after.tables, project, job.stage, deleted);
      if stage == job.stage {
        var ids: set<Id> :| IsBatch(before.tables, after.tables, project, stage, deleted, ids);
        if r.id in ids {
          var q :| q in before.tables[stage] && q.owner in Owners(before.tables, project, stage) && q.id == r.id;
          UniqueIdIsUniqueRow(before.tables[stage], r, q);
        }
      }
    }
  }
}
