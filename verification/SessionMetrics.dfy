/**
 * The running totals of a session: whatever is credited is counted once for the session, once
 * for the contributor and once for the quarter of an hour it fell in.
 */
module SessionMetrics {
  import opened Prelude

  type Principal = nat

  const BUCKET_INTERVAL := 15 * 60 * 1000
  const MAX_BUCKETS := 100

  datatype Bucket = Bucket(start: int, operations: int, checkpoints: int)

  datatype Contribution = Contribution(
    principal: Principal, timeMs: int, operations: int, linesAdded: int, linesDeleted: int,
    isCommitter: bool, lastActiveAt: int)

  datatype Row = Row(
    totalOperations: int, totalCheckpoints: int, totalDurationMs: int, leader: Option<Principal>,
    members: seq<Contribution>, buckets: seq<Bucket>, updatedAt: int)

  /** What the session row says when metrics are first written. */
  datatype SessionInfo = SessionInfo(lastDurableSeq: Option<nat>, lastAutoGitCheckpointSeq: Option<nat>, createdAt: int)

  datatype Activity = Activity(
    operations: Option<int>, checkpoints: Option<int>, linesAdded: Option<int>, linesDeleted: Option<int>,
    timeMs: Option<int>)

  /** What one call credits, and to whom and when. */
  datatype Credit = Credit(principal: Principal, at: int, operations: int, checkpoints: int, timeMs: int,
                           linesAdded: int, linesDeleted: int)

  /** The start of the quarter of an hour that a time falls in. */
  function Window(t: int): (start: int)
    ensures start <= t < start + 900_000 && start % 900_000 == 0
  {
    t / BUCKET_INTERVAL * BUCKET_INTERVAL
  }

  function OrZero(n: Option<int>): int {
    if n.Some? then n.value else 0
  }

  function AtLeastZero(n: int): nat {
    if n < 0 then 0 else n
  }

  function OrElse(n: int, other: int): int {
    if n == 0 then other else n
  }

  // ---------- Sums over what was credited ----------

  function Operations(log: seq<Credit>): int {
    if log == [] then 0 else Operations(log[..|log| - 1]) + log[|log| - 1].operations
  }

  function Checkpoints(log: seq<Credit>): int {
    if log == [] then 0 else Checkpoints(log[..|log| - 1]) + log[|log| - 1].checkpoints
  }

  function TimeMs(log: seq<Credit>): int {
    if log == [] then 0 else TimeMs(log[..|log| - 1]) + log[|log| - 1].timeMs
  }

  function LinesAdded(log: seq<Credit>): int {
    if log == [] then 0 else LinesAdded(log[..|log| - 1]) + log[|log| - 1].linesAdded
  }

  function LinesDeleted(log: seq<Credit>): int {
    if log == [] then 0 else LinesDeleted(log[..|log| - 1]) + log[|log| - 1].linesDeleted
  }

  /** The credits to one contributor, in order. */
  function By(log: seq<Credit>, principal: Principal): seq<Credit> {
    if log == [] then []
    else
      var rest := By(log[..|log| - 1], principal);
      if log[|log| - 1].principal == principal then rest + [log[|log| - 1]] else rest
  }

  /** The credits that fell in one window, in order. */
  function During(log: seq<Credit>, start: int): seq<Credit> {
    if log == [] then []
    else
      var rest := During(log[..|log| - 1], start);
      if Window(log[|log| - 1].at) == start then rest + [log[|log| - 1]] else rest
  }

  lemma SumsGrow(log: seq<Credit>, c: Credit)
    ensures Operations(log + [c]) == Operations(log) + c.operations
    ensures Checkpoints(log + [c]) == Checkpoints(log) + c.checkpoints
    ensures LinesAdded(log + [c]) == LinesAdded(log) + c.linesAdded
    ensures LinesDeleted(log + [c]) == LinesDeleted(log) + c.linesDeleted
    ensures TimeMs(log + [c]) == TimeMs(log) + c.timeMs
    ensures forall p :: By(log + [c], p) == if c.principal == p then By(log, p) + [c] else By(log, p)
    ensures forall w :: During(log + [c], w) == if Window(c.at) == w then During(log, w) + [c] else During(log, w)
  {
    assert (log + [c])[..|log|] == log;
  }

  // ---------- Buckets ----------

  /** Adds to the last bucket when it is the current one, and starts a new one otherwise. */
  function AddToBuckets(buckets: seq<Bucket>, c: Credit): seq<Bucket> {
    var n := |buckets|;
    if n > 0 && buckets[n - 1].start == Window(c.at)
    then
      var last := buckets[n - 1];
      buckets[..n - 1] + [Bucket(last.start, last.operations + c.operations, last.checkpoints + c.checkpoints)]
    else buckets + [Bucket(Window(c.at), c.operations, c.checkpoints)]
  }

  function Recent(buckets: seq<Bucket>): seq<Bucket> {
    if |buckets| > MAX_BUCKETS then buckets[|buckets| - MAX_BUCKETS..] else buckets
  }

  /** All the buckets there would be if none were ever dropped. */
  function History(log: seq<Credit>): seq<Bucket> {
    if log == [] then [] else AddToBuckets(History(log[..|log| - 1]), log[|log| - 1])
  }

  ghost predicate IsMonotone(log: seq<Credit>) {
    forall i, j :: 0 <= i < j < |log| ==> log[i].at <= log[j].at
  }

  ghost predicate IsAscending(buckets: seq<Bucket>) {
    forall i, j :: 0 <= i < j < |buckets| ==> buckets[i].start < buckets[j].start
  }

  lemma WindowIsMonotone(s: int, t: int)
    requires s <= t
    ensures Window(s) <= Window(t)
  {
  }

  /** Each bucket holds exactly what was credited in its window, and each window credited in has its bucket. */
  ghost predicate IsHistory(buckets: seq<Bucket>, log: seq<Credit>) {
    && IsAscending(buckets)
    && (forall b :: b in buckets ==> Counts(b, log))
    && (forall w :: During(log, w) != [] <==> HasWindow(buckets, w))
  }

  ghost predicate Counts(b: Bucket, log: seq<Credit>) {
    b.operations == Operations(During(log, b.start)) && b.checkpoints == Checkpoints(During(log, b.start))
  }

  ghost predicate HasWindow(buckets: seq<Bucket>, start: int) {
    exists i :: 0 <= i < |buckets| && buckets[i].start == start
  }

  lemma {:induction false} HistoryTells(log: seq<Credit>)
    requires IsMonotone(log)
    ensures IsHistory(History(log), log)
    ensures log != [] ==> History(log) != [] && History(log)[|History(log)| - 1].start == Window(log[|log| - 1].at)
  {
    if log != [] {
      var front, c := log[..|log| - 1], log[|log| - 1];
      assert log == front + [c];
      HistoryTells(front);
      hide AddToBuckets, Window, IsHistory;
      if front != [] {
        WindowIsMonotone(front[|front| - 1].at, c.at);
      }
      OneMoreCredit(History(front), front, c);
    }
  }

  lemma OneMoreCredit(buckets: seq<Bucket>, log: seq<Credit>, c: Credit)
    requires IsHistory(buckets, log)
    requires buckets != [] ==> buckets[|buckets| - 1].start <= Window(c.at)
    ensures IsHistory(AddToBuckets(buckets, c), log + [c])
    ensures AddToBuckets(buckets, c) != []
    ensures AddToBuckets(buckets, c)[|AddToBuckets(buckets, c)| - 1].start == Window(c.at)
  {
    hide Window, Counts, HasWindow;
    AscendingAfter(buckets, c);
    forall b | b in AddToBuckets(buckets, c)
      ensures Counts(b, log + [c])
    {
      BucketCounts(buckets, log, c, b);
    }
    forall v
      ensures During(log + [c], v) != [] <==> HasWindow(AddToBuckets(buckets, c), v)
    {
      WindowsHaveBuckets(buckets, log, c, v);
    }
  }

  /** The window of the new credit had a bucket only if that was the last one. */
  lemma CurrentWindowIsLast(buckets: seq<Bucket>, log: seq<Credit>, c: Credit)
    requires IsHistory(buckets, log) && (buckets != [] ==> buckets[|buckets| - 1].start <= Window(c.at))
    ensures During(log, Window(c.at)) != [] <==> buckets != [] && buckets[|buckets| - 1].start == Window(c.at)
    ensures forall b :: b in buckets && b.start == Window(c.at) ==> b == buckets[|buckets| - 1]
  {
    hide Window, Counts;
    var w, n := Window(c.at), |buckets|;
    forall i | 0 <= i < n && buckets[i].start == w
      ensures i == n - 1
    {
    }
  }

  /** The bucket for the current window, after the credit. */
  function Current(buckets: seq<Bucket>, c: Credit): Bucket {
    var n := |buckets|;
    if n > 0 && buckets[n - 1].start == Window(c.at)
    then Bucket(Window(c.at), buckets[n - 1].operations + c.operations, buckets[n - 1].checkpoints + c.checkpoints)
    else Bucket(Window(c.at), c.operations, c.checkpoints)
  }

  lemma AddedOrKept(buckets: seq<Bucket>, c: Credit, b: Bucket)
    requires IsAscending(buckets) && (buckets != [] ==> buckets[|buckets| - 1].start <= Window(c.at))
    requires b in AddToBuckets(buckets, c)
    ensures b == Current(buckets, c) || (b in buckets && b.start != Window(c.at))
  {
    hide Window;
    var i :| 0 <= i < |AddToBuckets(buckets, c)| && AddToBuckets(buckets, c)[i] == b;
    if b != Current(buckets, c) {
      assert buckets[i] == b;
      assert i < |buckets| - 1 ==> buckets[i].start < buckets[|buckets| - 1].start;
    }
  }

  lemma CurrentCounts(buckets: seq<Bucket>, log: seq<Credit>, c: Credit)
    requires IsHistory(buckets, log) && (buckets != [] ==> buckets[|buckets| - 1].start <= Window(c.at))
    ensures Counts(Current(buckets, c), log + [c])
  {
    hide Window, IsAscending, HasWindow, During, Operations, Checkpoints;
    CurrentWindowIsLast(buckets, log, c);
    WindowSums(log, c);
    if buckets != [] {
      assert buckets[|buckets| - 1] in buckets;
    }
  }

  lemma BucketCounts(buckets: seq<Bucket>, log: seq<Credit>, c: Credit, b: Bucket)
    requires IsHistory(buckets, log) && (buckets != [] ==> buckets[|buckets| - 1].start <= Window(c.at))
    requires b in AddToBuckets(buckets, c)
    ensures Counts(b, log + [c])
  {
    hide Window, HasWindow, During, Operations, Checkpoints, Current, AddToBuckets;
    AddedOrKept(buckets, c, b);
    CurrentCounts(buckets, log, c);
    SumsGrow(log, c);
  }

  lemma WindowsHaveBuckets(buckets: seq<Bucket>, log: seq<Credit>, c: Credit, v: int)
    requires IsHistory(buckets, log)
    ensures During(log + [c], v) != [] <==> HasWindow(AddToBuckets(buckets, c), v)
  {
    hide Window, Counts;
    SumsGrow(log, c);
    var more := AddToBuckets(buckets, c);
    assert more[|more| - 1].start == Window(c.at);
    assert forall i :: 0 <= i < |more| && i < |buckets| ==> more[i].start == buckets[i].start;
    assert During(log, v) != [] <==> HasWindow(buckets, v);
    if HasWindow(buckets, v) {
      var i :| 0 <= i < |buckets| && buckets[i].start == v;
      assert more[i].start == v;
    }
  }

  lemma AscendingAfter(buckets: seq<Bucket>, c: Credit)
    requires IsAscending(buckets) && (buckets != [] ==> buckets[|buckets| - 1].start <= Window(c.at))
    ensures IsAscending(AddToBuckets(buckets, c))
  {
    hide Window;
    forall i | 0 <= i < |buckets| - 1
      ensures buckets[i].start < buckets[|buckets| - 1].start
    {
    }
  }

  lemma WindowSums(log: seq<Credit>, c: Credit)
    ensures var w := Window(c.at);
            && Operations(During(log + [c], w)) == Operations(During(log, w)) + c.operations
            && Checkpoints(During(log + [c], w)) == Checkpoints(During(log, w)) + c.checkpoints
            && (During(log, w) == [] ==> Operations(During(log, w)) == 0 && Checkpoints(During(log, w)) == 0)
  {
    SumsGrow(log, c);
    SumsGrow(During(log, Window(c.at)), c);
  }

  /** Dropping the oldest as they go is the same as keeping them all and looking at the last hundred. */
  lemma RecentIsKept(history: seq<Bucket>, c: Credit)
    ensures Recent(AddToBuckets(Recent(history), c)) == Recent(AddToBuckets(history, c))
  {
    hide Window, Recent;
    if |history| > MAX_BUCKETS {
      var n, kept := |history|, Recent(history);
      RecentIs(history);
      if history[n - 1].start == Window(c.at) {
        KeepsReplaced(history, AddToBuckets(history, c)[n - 1]);
      } else {
        KeepsAdded(history, Bucket(Window(c.at), c.operations, c.checkpoints));
      }
    } else {
      AllAreRecent(history);
    }
  }

  lemma AllAreRecent(history: seq<Bucket>)
    requires |history| <= MAX_BUCKETS
    ensures Recent(history) == history
  {
  }

  lemma RecentIs(history: seq<Bucket>)
    requires |history| > MAX_BUCKETS
    ensures Recent(history) == history[|history| - MAX_BUCKETS..] && |Recent(history)| == MAX_BUCKETS
    ensures Recent(history)[MAX_BUCKETS - 1] == history[|history| - 1]
  {
  }

  lemma KeepsReplaced(history: seq<Bucket>, b: Bucket)
    requires |history| > MAX_BUCKETS
    ensures Recent(history[|history| - MAX_BUCKETS..][..MAX_BUCKETS - 1] + [b])
            == Recent(history[..|history| - 1] + [b])
  {
  }

  lemma KeepsAdded(history: seq<Bucket>, b: Bucket)
    requires |history| > MAX_BUCKETS
    ensures Recent(history[|history| - MAX_BUCKETS..] + [b]) == Recent(history + [b])
  {
  }

  // ---------- Members ----------

  ghost predicate OnePerPrincipal(members: seq<Contribution>) {
    forall i, j :: 0 <= i < j < |members| ==> members[i].principal != members[j].principal
  }

  function FindMember(members: seq<Contribution>, principal: Principal): (i: Option<nat>)
    ensures i.Some? ==> i.value < |members| && members[i.value].principal == principal
    ensures i.None? ==> forall j :: 0 <= j < |members| ==> members[j].principal != principal
  {
    if members == [] then None
    else if members[0].principal == principal then Some(0)
    else
      match FindMember(members[1..], principal)
      case None => (assert forall j :: 0 < j < |members| ==> members[j] == members[1..][j - 1]; None)
      case Some(i) => Some(i + 1)
  }

  function Credited(m: Contribution, c: Credit): Contribution {
    m.(operations := m.operations + c.operations, timeMs := m.timeMs + c.timeMs,
       linesAdded := m.linesAdded + c.linesAdded, linesDeleted := m.linesDeleted + c.linesDeleted, lastActiveAt := c.at)
  }

  function NewMember(c: Credit): Contribution {
    Contribution(c.principal, c.timeMs, c.operations, c.linesAdded, c.linesDeleted, false, c.at)
  }

  function AddToMembers(members: seq<Contribution>, c: Credit): seq<Contribution> {
    match FindMember(members, c.principal)
    case Some(i) => members[i := Credited(members[i], c)]
    case None => members + [NewMember(c)]
  }

  /** Every contributor has one entry, holding exactly what was credited to it. */
  ghost predicate IsRoster(members: seq<Contribution>, log: seq<Credit>) {
    && OnePerPrincipal(members)
    && (forall i :: 0 <= i < |members| ==> HoldsItsCredits(members[i], log))
    && (forall p :: By(log, p) != [] ==> exists i :: 0 <= i < |members| && members[i].principal == p)
  }

  ghost predicate HoldsItsCredits(m: Contribution, log: seq<Credit>) {
    && By(log, m.principal) != []
    && m.operations == Operations(By(log, m.principal)) && m.timeMs == TimeMs(By(log, m.principal))
    && m.linesAdded == LinesAdded(By(log, m.principal)) && m.linesDeleted == LinesDeleted(By(log, m.principal))
    && m.lastActiveAt == By(log, m.principal)[|By(log, m.principal)| - 1].at
  }

  lemma RosterGrows(members: seq<Contribution>, log: seq<Credit>, c: Credit)
    requires IsRoster(members, log)
    ensures IsRoster(AddToMembers(members, c), log + [c])
  {
    hide Operations, TimeMs, LinesAdded, LinesDeleted, By, HoldsItsCredits, Credited, NewMember, AddToMembers,
         FindMember;
    StaysOnePerPrincipal(members, c);
    var more := AddToMembers(members, c);
    forall i | 0 <= i < |more|
      ensures HoldsItsCredits(more[i], log + [c])
    {
      EntryHolds(members, log, c, i);
    }
    forall p | By(log + [c], p) != []
      ensures exists i :: 0 <= i < |more| && more[i].principal == p
    {
      EveryoneHasAnEntry(members, log, c, p);
    }
  }

  lemma StaysOnePerPrincipal(members: seq<Contribution>, c: Credit)
    requires OnePerPrincipal(members)
    ensures OnePerPrincipal(AddToMembers(members, c))
  {
  }

  /** A credit changes the entry of its own contributor, or adds one, and leaves the rest. */
  lemma EntryAfter(members: seq<Contribution>, c: Credit, i: nat)
    requires OnePerPrincipal(members) && i < |AddToMembers(members, c)|
    ensures i < |members| && members[i].principal == c.principal
            ==> AddToMembers(members, c)[i] == Credited(members[i], c)
    ensures i < |members| && members[i].principal != c.principal ==> AddToMembers(members, c)[i] == members[i]
    ensures i == |members| ==> AddToMembers(members, c)[i] == NewMember(c) && FindMember(members, c.principal).None?
    ensures i <= |members|
  {
    hide Credited, NewMember;
  }

  lemma OwnEntryHolds(m: Contribution, log: seq<Credit>, c: Credit)
    requires HoldsItsCredits(m, log) && m.principal == c.principal
    ensures HoldsItsCredits(Credited(m, c), log + [c])
  {
    hide Operations, TimeMs, LinesAdded, LinesDeleted, By;
    SumsGrow(log, c);
    SumsGrow(By(log, c.principal), c);
  }

  lemma OtherEntryHolds(m: Contribution, log: seq<Credit>, c: Credit)
    requires HoldsItsCredits(m, log) && m.principal != c.principal
    ensures HoldsItsCredits(m, log + [c])
  {
    hide Operations, TimeMs, LinesAdded, LinesDeleted, By;
    SumsGrow(log, c);
  }

  lemma NewEntryHolds(members: seq<Contribution>, log: seq<Credit>, c: Credit)
    requires IsRoster(members, log) && FindMember(members, c.principal).None?
    ensures HoldsItsCredits(NewMember(c), log + [c])
  {
    hide Operations, TimeMs, LinesAdded, LinesDeleted, By;
    NobodyHasNothing(members, log, c.principal);
    SumsGrow(log, c);
    SumsGrow(By(log, c.principal), c);
  }

  lemma EntryHolds(members: seq<Contribution>, log: seq<Credit>, c: Credit, i: nat)
    requires IsRoster(members, log) && i < |AddToMembers(members, c)|
    ensures HoldsItsCredits(AddToMembers(members, c)[i], log + [c])
  {
    hide HoldsItsCredits, AddToMembers, FindMember, By, Credited, NewMember;
    EntryAfter(members, c, i);
    if i == |members| {
      NewEntryHolds(members, log, c);
    } else if members[i].principal == c.principal {
      OwnEntryHolds(members[i], log, c);
    } else {
      OtherEntryHolds(members[i], log, c);
    }
  }

  lemma EveryoneHasAnEntry(members: seq<Contribution>, log: seq<Credit>, c: Credit, p: Principal)
    requires IsRoster(members, log) && By(log + [c], p) != []
    ensures exists i :: 0 <= i < |AddToMembers(members, c)| && AddToMembers(members, c)[i].principal == p
  {
    hide HoldsItsCredits, OnePerPrincipal, Operations, TimeMs, LinesAdded, LinesDeleted;
    SumsGrow(log, c);
    var more := AddToMembers(members, c);
    if By(log, p) != [] {
      var i :| 0 <= i < |members| && members[i].principal == p;
      assert more[i].principal == p;
    } else {
      var found := FindMember(members, p);
      assert more[if found.Some? then found.value else |members|].principal == p;
    }
  }

  lemma NobodyHasNothing(members: seq<Contribution>, log: seq<Credit>, p: Principal)
    requires IsRoster(members, log) && FindMember(members, p).None?
    ensures By(log, p) == [] && Operations(By(log, p)) == 0 && TimeMs(By(log, p)) == 0
    ensures LinesAdded(By(log, p)) == 0 && LinesDeleted(By(log, p)) == 0
  {
  }

  function SumOperations(members: seq<Contribution>): int {
    if members == [] then 0 else members[0].operations + SumOperations(members[1..])
  }

  function SumTime(members: seq<Contribution>): int {
    if members == [] then 0 else members[0].timeMs + SumTime(members[1..])
  }

  lemma {:induction false} SumAfterUpdate(members: seq<Contribution>, i: nat, m: Contribution)
    requires i < |members|
    ensures SumOperations(members[i := m]) == SumOperations(members) - members[i].operations + m.operations
    ensures SumTime(members[i := m]) == SumTime(members) - members[i].timeMs + m.timeMs
  {
    if i > 0 {
      assert members[i := m][1..] == members[1..][i - 1 := m];
      SumAfterUpdate(members[1..], i - 1, m);
    } else {
      assert members[0 := m][1..] == members[1..];
    }
  }

  lemma {:induction false} SumAfterAppend(members: seq<Contribution>, m: Contribution)
    ensures SumOperations(members + [m]) == SumOperations(members) + m.operations
    ensures SumTime(members + [m]) == SumTime(members) + m.timeMs
  {
    if members != [] {
      assert (members + [m])[1..] == members[1..] + [m];
      SumAfterAppend(members[1..], m);
    } else {
      assert (members + [m])[1..] == [];
    }
  }

  lemma MembersGainCredit(members: seq<Contribution>, c: Credit)
    ensures SumOperations(AddToMembers(members, c)) == SumOperations(members) + c.operations
    ensures SumTime(AddToMembers(members, c)) == SumTime(members) + c.timeMs
  {
    match FindMember(members, c.principal) {
      case Some(i) => SumAfterUpdate(members, i, Credited(members[i], c));
      case None => SumAfterAppend(members, NewMember(c));
    }
  }

  function SumBuckets(buckets: seq<Bucket>): (int, int) {
    if buckets == [] then (0, 0)
    else
      var last := buckets[|buckets| - 1];
      var rest := SumBuckets(buckets[..|buckets| - 1]);
      (rest.0 + last.operations, rest.1 + last.checkpoints)
  }

  lemma BucketsGainCredit(buckets: seq<Bucket>, c: Credit)
    ensures SumBuckets(AddToBuckets(buckets, c)).0 == SumBuckets(buckets).0 + c.operations
    ensures SumBuckets(AddToBuckets(buckets, c)).1 == SumBuckets(buckets).1 + c.checkpoints
  {
    hide Window;
    var more := AddToBuckets(buckets, c);
    assert more[..|more| - 1] == if |more| == |buckets| then buckets[..|buckets| - 1] else buckets;
  }

  /** All the buckets there ever were, dropped ones included, add up to what was credited. */
  lemma {:induction false} HistoryIsConserved(log: seq<Credit>)
    ensures SumBuckets(History(log)) == (Operations(log), Checkpoints(log))
  {
    if log != [] {
      HistoryIsConserved(log[..|log| - 1]);
      BucketsGainCredit(History(log[..|log| - 1]), log[|log| - 1]);
    }
  }

  lemma {:induction false} SumBucketsSplits(a: seq<Bucket>, b: seq<Bucket>)
    ensures SumBuckets(a + b).0 == SumBuckets(a).0 + SumBuckets(b).0
    ensures SumBuckets(a + b).1 == SumBuckets(a).1 + SumBuckets(b).1
  {
    if b == [] {
      assert a + b == a;
    } else {
      assert (a + b)[..|a + b| - 1] == a + b[..|b| - 1];
      SumBucketsSplits(a, b[..|b| - 1]);
    }
  }

  // ---------- Committers ----------

  /** Only the leader is marked as the current committer. */
  ghost predicate OnlyLeaderCommits(row: Row) {
    forall i :: 0 <= i < |row.members| && row.members[i].isCommitter ==> row.leader == Some(row.members[i].principal)
  }

  lemma AtMostOneCommitter(row: Row, i: nat, j: nat)
    requires OnlyLeaderCommits(row) && OnePerPrincipal(row.members)
    requires i < |row.members| && j < |row.members| && row.members[i].isCommitter && row.members[j].isCommitter
    ensures i == j
  {
  }

  // ---------- The row ----------

  /** What the row counted before its first credit. */
  datatype Opening = Opening(operations: int, checkpoints: int, durationMs: int)

  /** The row is the opening figures and every credit since. */
  ghost predicate Tallies(row: Row, opening: Opening, log: seq<Credit>) {
    && row.totalOperations == opening.operations + Operations(log)
    && row.totalCheckpoints == opening.checkpoints + Checkpoints(log)
    && row.totalDurationMs == opening.durationMs + TimeMs(log)
    && SumOperations(row.members) == Operations(log) && SumTime(row.members) == TimeMs(log)
    && IsRoster(row.members, log) && row.buckets == Recent(History(log)) && IsMonotone(log)
    && (log != [] ==> log[|log| - 1].at <= row.updatedAt)
    && OnlyLeaderCommits(row)
  }

  /** The buckets that have been dropped to make room. */
  function Dropped(history: seq<Bucket>): seq<Bucket> {
    if |history| > MAX_BUCKETS then history[..|history| - MAX_BUCKETS] else []
  }

  lemma DroppedAndRecent(history: seq<Bucket>)
    ensures history == Dropped(history) + Recent(history)
    ensures |Recent(history)| <= MAX_BUCKETS && (Dropped(history) != [] ==> |Recent(history)| == MAX_BUCKETS)
    ensures IsAscending(history) ==> IsAscending(Recent(history))
  {
  }

  /** Conservation: what members hold, and what buckets hold or held when dropped, is what the totals gained. */
  lemma Conservation(row: Row, opening: Opening, log: seq<Credit>)
    requires Tallies(row, opening, log)
    ensures row.totalOperations - SumOperations(row.members) == opening.operations
    ensures row.totalDurationMs - SumTime(row.members) == opening.durationMs
    ensures |row.buckets| <= 100 && IsAscending(row.buckets)
    ensures Dropped(History(log)) != [] ==> |row.buckets| == 100
    ensures var dropped := Dropped(History(log));
            && row.totalOperations - SumBuckets(row.buckets).0 - SumBuckets(dropped).0 == opening.operations
            && row.totalCheckpoints - SumBuckets(row.buckets).1 - SumBuckets(dropped).1 == opening.checkpoints
  {
    hide IsRoster, Operations, Checkpoints, TimeMs, OnlyLeaderCommits, SumOperations, SumTime, SumBuckets, History,
         Recent, Dropped,
         IsAscending;
    HistoryIsConserved(log);
    HistoryTells(log);
    DroppedAndRecent(History(log));
    SumBucketsSplits(Dropped(History(log)), row.buckets);
  }

  /** A bucket in the row counts exactly what was credited in its quarter of an hour. */
  lemma BucketsCountTheirWindow(row: Row, opening: Opening, log: seq<Credit>, b: Bucket)
    requires Tallies(row, opening, log) && b in row.buckets
    ensures Counts(b, log)
  {
    hide IsRoster, Operations, Checkpoints, OnlyLeaderCommits;
    HistoryTells(log);
    assert b in History(log);
  }

  function AddCredit(row: Row, c: Credit): Row {
    row.(totalOperations := row.totalOperations + c.operations,
         totalCheckpoints := row.totalCheckpoints + c.checkpoints,
         totalDurationMs := row.totalDurationMs + c.timeMs, members := AddToMembers(row.members, c),
         buckets := Recent(AddToBuckets(row.buckets, c)), updatedAt := c.at)
  }

  lemma CreditIsTallied(row: Row, opening: Opening, log: seq<Credit>, c: Credit)
    requires Tallies(row, opening, log) && row.updatedAt <= c.at
    ensures Tallies(AddCredit(row, c), opening, log + [c])
  {
    hide IsRoster, AddToBuckets, AddToMembers, SumOperations, SumTime, Recent, Operations, Checkpoints, TimeMs,
         OnlyLeaderCommits;
    SumsGrow(log, c);
    MembersGainCredit(row.members, c);
    RosterGrows(row.members, log, c);
    RecentIsKept(History(log), c);
    assert (log + [c])[..|log|] == log;
    CommitterStays(row, c);
  }

  lemma CommitterStays(row: Row, c: Credit)
    requires OnlyLeaderCommits(row)
    ensures OnlyLeaderCommits(AddCredit(row, c))
  {
    hide AddToBuckets, Recent, Window;
    var more := AddToMembers(row.members, c);
    forall i | 0 <= i < |more| && more[i].isCommitter
      ensures row.leader == Some(more[i].principal)
    {
      assert i < |row.members| && row.members[i].isCommitter;
    }
  }

  /** What was given, if it is positive. */
  ghost predicate IsGiven(n: Option<int>, amount: int) {
    if n.Some? && n.value > 0 then amount == n.value else amount == 0
  }

  class SessionMetricsTable {
    var row: Option<Row>
    ghost var opening: Opening
    ghost var log: seq<Credit>

    ghost predicate Valid()
      reads this
    {
      if row.Some? then Tallies(row.value, opening, log) else log == []
    }

    constructor ()
      ensures Valid() && row == None
    {
      row := None;
      log := [];
    }

    /**
     * Credits the caller. The first call for a session opens with the durable operations so
     * far when it brings none of its own, and with the session's age when it brings no time.
     */
    method RecordActivity(session: SessionInfo, caller: Principal, now: int, args: Activity) returns (ghost c: Credit)
      requires Valid() && (row.Some? ==> row.value.updatedAt <= now)
      modifies this
      ensures Valid() && row.Some? && log == old(log) + [c]
      ensures c.principal == caller && c.at == now && IsGiven(args.checkpoints, c.checkpoints)
      ensures c.linesAdded == if args.linesAdded.Some? then args.linesAdded.value else 0
      ensures c.linesDeleted == if args.linesDeleted.Some? then args.linesDeleted.value else 0
      ensures old(row).Some? ==>
                && row.value == AddCredit(old(row).value, c) && opening == old(opening)
                && IsGiven(args.operations, c.operations) && IsGiven(args.timeMs, c.timeMs)
      ensures old(row).None? ==>
                && row.value.leader == None && opening.operations == 0 && opening.checkpoints == 0
                && row.value.totalDurationMs == (if now > session.createdAt then now - session.createdAt else 0)
                && (if IsGiven(args.operations, 0)
                    then c.operations == if session.lastDurableSeq.Some? then session.lastDurableSeq.value else 0
                    else IsGiven(args.operations, c.operations))
                && (if IsGiven(args.timeMs, 0) then c.timeMs == row.value.totalDurationMs
                    else IsGiven(args.timeMs, c.timeMs))
      ensures row.value.updatedAt == now
    {
      hide Tallies, Window, FindMember;
      var opsDelta, checkDelta := AtLeastZero(OrZero(args.operations)), AtLeastZero(OrZero(args.checkpoints));
      var timeDelta := AtLeastZero(OrZero(args.timeMs));
      var linesAdd, linesDel := OrZero(args.linesAdded), OrZero(args.linesDeleted);
      if row.Some? {
        var credit := Credit(caller, now, opsDelta, checkDelta, timeDelta, linesAdd, linesDel);
        c := credit;
        var current := row.value;
        BucketsAreFew(current, opening, log);
        var buckets := UpdateBuckets(current.buckets, credit);
        var members := current.members;
        var index := FindMember(members, caller);
        if index.Some? {
          members := members[index.value := Credited(members[index.value], credit)];
        } else {
          members := members + [NewMember(credit)];
        }
        CreditIsTallied(current, opening, log, c);
        row := Some(current.(totalOperations := current.totalOperations + opsDelta,
                             totalCheckpoints := current.totalCheckpoints + checkDelta,
                             totalDurationMs := current.totalDurationMs + timeDelta,
                             members := members, buckets := buckets, updatedAt := now));
        log := log + [c];
        return;
      }
      var operations := OrElse(opsDelta, OrZero(session.lastDurableSeq));
      var age := AtLeastZero(now - session.createdAt);
      var time := OrElse(timeDelta, age);
      c := Credit(caller, now, operations, checkDelta, time, linesAdd, linesDel);
      row := Some(Row(operations, checkDelta, age, None,
                      [Contribution(caller, time, operations, linesAdd, linesDel, false, now)],
                      [Bucket(Window(now), operations, checkDelta)], now));
      opening := Opening(0, 0, age - time);
      log := [c];
      FirstCreditIsTallied(row.value, opening, c);
    }

    /** Sets the leader, marking its contribution and no other as the current committer. */
    method SyncGitLeaderAndPR(session: SessionInfo, now: int, leader: Option<Principal>)
      requires Valid() && (row.Some? ==> row.value.updatedAt <= now)
      modifies this
      ensures Valid() && row.Some? && log == old(log)
      ensures old(row).Some? ==>
                && opening == old(opening) && row.value.updatedAt == now
                && row.value
                   == old(row).value.(leader := row.value.leader, members := row.value.members, updatedAt := now)
                && (leader.None? ==>
                      row.value.leader == old(row).value.leader && row.value.members == old(row).value.members)
                && (leader.Some? ==>
                      && row.value.leader == leader && |row.value.members| == |old(row).value.members|
                      && forall i :: 0 <= i < |row.value.members| ==>
                           var m := old(row).value.members[i];
                           row.value.members[i] == m.(isCommitter := m.principal == leader.value))
      ensures old(row).None? ==>
                && opening.operations == (if session.lastDurableSeq.Some? then session.lastDurableSeq.value else 0)
                && opening.checkpoints
                   == (if session.lastAutoGitCheckpointSeq in {None, Some(0)} then 0 else 1)
                && opening.durationMs == (if now > session.createdAt then now - session.createdAt else 0)
                && row.value.leader == leader && row.value.members == [] && row.value.buckets == []
    {
      hide Tallies;
      if row.Some? {
        var current := row.value;
        row := Some(current.(updatedAt := now));
        if leader.Some? {
          row := Some(row.value.(leader := leader, members := Marked(current.members, leader.value)));
        }
        MarkingIsTallied(current, opening, log, now, leader);
        return;
      }
      var operations := OrZero(session.lastDurableSeq);
      var checkpoints := if OrZero(session.lastAutoGitCheckpointSeq) != 0 then 1 else 0;
      var duration := AtLeastZero(now - session.createdAt);
      row := Some(Row(operations, checkpoints, duration, leader, [], [], now));
      opening := Opening(operations, checkpoints, duration);
      NothingIsTallied(row.value, opening);
    }
  }

  lemma BucketsAreFew(row: Row, opening: Opening, log: seq<Credit>)
    requires Tallies(row, opening, log)
    ensures |row.buckets| <= MAX_BUCKETS
  {
  }

  method UpdateBuckets(existing: seq<Bucket>, c: Credit) returns (buckets: seq<Bucket>)
    requires |existing| <= MAX_BUCKETS
    ensures buckets == Recent(AddToBuckets(existing, c))
  {
    hide Window;
    buckets := existing;
    var start, last := Window(c.at), |buckets| - 1;
    if last >= 0 && buckets[last].start == start {
      var bucket := buckets[last];
      buckets := buckets[last := Bucket(start, bucket.operations + c.operations, bucket.checkpoints + c.checkpoints)];
    } else {
      buckets := buckets + [Bucket(start, c.operations, c.checkpoints)];
      if |buckets| > MAX_BUCKETS {
        buckets := buckets[1..];
      }
    }
  }

  function Marked(members: seq<Contribution>, leader: Principal): (marked: seq<Contribution>)
    ensures |marked| == |members|
  {
    seq(|members|, i requires 0 <= i < |members| => members[i].(isCommitter := members[i].principal == leader))
  }

  lemma {:induction false} MarkingKeepsSums(members: seq<Contribution>, leader: Principal)
    ensures SumOperations(Marked(members, leader)) == SumOperations(members)
    ensures SumTime(Marked(members, leader)) == SumTime(members)
  {
    if members != [] {
      assert Marked(members, leader)[1..] == Marked(members[1..], leader);
      MarkingKeepsSums(members[1..], leader);
    }
  }

  lemma MarkingKeepsRoster(members: seq<Contribution>, log: seq<Credit>, leader: Principal)
    requires IsRoster(members, log)
    ensures IsRoster(Marked(members, leader), log)
  {
    hide Operations, TimeMs, LinesAdded, LinesDeleted, By;
    var marked := Marked(members, leader);
    forall i | 0 <= i < |marked|
      ensures HoldsItsCredits(marked[i], log)
    {
      assert HoldsItsCredits(members[i], log);
    }
    forall p | By(log, p) != []
      ensures exists i :: 0 <= i < |marked| && marked[i].principal == p
    {
      var i :| 0 <= i < |members| && members[i].principal == p;
      assert marked[i].principal == p;
    }
  }

  lemma MarkingIsTallied(row: Row, opening: Opening, log: seq<Credit>, now: int, leader: Option<Principal>)
    requires Tallies(row, opening, log) && row.updatedAt <= now
    ensures var later := row.(updatedAt := now);
            var marked := if leader.None? then later
                          else later.(leader := leader, members := Marked(row.members, leader.value));
            Tallies(marked, opening, log)
  {
    hide IsRoster, SumOperations, SumTime, Operations, Checkpoints, TimeMs;
    if leader.Some? {
      MarkingKeepsSums(row.members, leader.value);
      MarkingKeepsRoster(row.members, log, leader.value);
    }
  }

  lemma FirstCreditIsTallied(row: Row, opening: Opening, c: Credit)
    requires row.totalOperations == c.operations && row.totalCheckpoints == c.checkpoints
    requires opening == Opening(0, 0, row.totalDurationMs - c.timeMs) && row.updatedAt == c.at && row.leader == None
    requires row.members == [NewMember(c)] && row.buckets == [Bucket(Window(c.at), c.operations, c.checkpoints)]
    ensures Tallies(row, opening, [c])
  {
    hide Window;
    var blank := row.(totalOperations := 0, totalCheckpoints := 0, totalDurationMs := opening.durationMs,
                      members := [], buckets := []);
    NothingIsTallied(blank, opening);
    CreditIsTallied(blank,
                    opening, [], c);
    assert [] + [c] == [c];
    assert [] + [NewMember(c)] == [NewMember(c)];
  }

  lemma NothingIsTallied(row: Row, opening: Opening)
    requires row.totalOperations == opening.operations && row.totalCheckpoints == opening.checkpoints
    requires row.totalDurationMs == opening.durationMs && row.members == [] && row.buckets == []
    ensures Tallies(row, opening, [])
  {
  }
}
