/** The persistent job queue: a table of rows, and what its history guarantees across restarts. */
module JobQueue {
  import opened Wrappers

  datatype JobType = FileTransfer | FileStorage

  datatype JobStatus = Pending | InProgress | Done | Error

  /** The primary key of the table. */
  datatype Key = Key(id: string, jobType: JobType, tag: int)

  datatype Job = Job(key: Key, status: JobStatus, version: int, scheduleAt: Option<int>, data: seq<int>)

  /** The rows, each under the moment it was created at, which never repeats. */
  datatype Table = Table(rows: map<nat, Job>, clock: nat)

  ghost predicate WellFormed(t: Table) {
    && (forall c <- t.rows :: c < t.clock)
    && (forall c, d | c in t.rows && d in t.rows && t.rows[c].key == t.rows[d].key :: c == d)
  }

  predicate HasKey(t: Table, k: Key) {
    exists c <- t.rows :: t.rows[c].key == k
  }

  // ----- Queries -----

  /** The three ways of taking the next job. */
  datatype Query =
    | NextOfType(jobType: JobType)
    | NextOfTag(jobType: JobType, tag: int)
    | NextScheduled(jobType: JobType, now: int)

  predicate Selects(q: Query, j: Job) {
    j.status.Pending? && j.key.jobType == q.jobType &&
    match q
    case NextOfType(_) => true
    case NextOfTag(_, tag) => j.key.tag == tag
    case NextScheduled(_, now) => j.scheduleAt.Some? && j.scheduleAt.value <= now
  }

  /** What the rows are ordered by: the creation, or the schedule. */
  function Order(q: Query, c: nat, j: Job): int
    requires Selects(q, j)
  {
    if q.NextScheduled? then j.scheduleAt.value else c
  }

  /** Row `c` comes first among those the query selects. */
  predicate First(t: Table, q: Query, c: nat) {
    c in t.rows && Selects(q, t.rows[c]) &&
    forall d <- t.rows | Selects(q, t.rows[d]) :: Order(q, c, t.rows[c]) <= Order(q, d, t.rows[d])
  }

  lemma {:induction false} LeastExists(order: map<nat, int>, s: set<nat>) returns (least: nat)
    requires s != {} && s <= order.Keys
    ensures least in s && forall d <- s :: order[least] <= order[d]
    decreases |s|
  {
    least :| least in s;
    var rest := s - {least};
    assert forall d <- s :: d == least || d in rest;
    if rest != {} {
      var other := LeastExists(order, rest);
      if order[other] < order[least] {
        least := other;
      }
    }
  }

  /** If any row is selected, one comes first. */
  lemma SomeRowIsFirst(t: Table, q: Query) returns (first: nat)
    requires exists c <- t.rows :: Selects(q, t.rows[c])
    ensures First(t, q, first)
  {
    var order := map c | c in t.rows && Selects(q, t.rows[c]) :: Order(q, c, t.rows[c]);
    var c :| c in t.rows && Selects(q, t.rows[c]);
    assert c in order.Keys;
    first := LeastExists(order, order.Keys);
    forall d <- t.rows | Selects(q, t.rows[d])
      ensures Order(q, first, t.rows[first]) <= Order(q, d, t.rows[d])
    {
      assert d in order.Keys;
    }
  }

  predicate Waits(j: Job, jobType: JobType) {
    j.status.Pending? && j.key.jobType == jobType
  }

  predicate Due(j: Job, jobType: JobType, now: int) {
    Waits(j, jobType) && j.scheduleAt.Some? && j.scheduleAt.value <= now
  }

  /** A pending row with a schedule. */
  predicate Scheduled(jobType: JobType, j: Job) {
    j.status.Pending? && j.key.jobType == jobType && j.scheduleAt.Some?
  }

  /** `at` is the earliest schedule of the pending rows; there is none if none is scheduled. */
  ghost predicate Earliest(t: Table, jobType: JobType, at: Option<int>) {
    match at
    case None => forall c <- t.rows :: !Scheduled(jobType, t.rows[c])
    case Some(first) =>
      && (exists c <- t.rows :: Scheduled(jobType, t.rows[c]) && t.rows[c].scheduleAt.value == first)
      && (forall c <- t.rows | Scheduled(jobType, t.rows[c]) :: first <= t.rows[c].scheduleAt.value)
  }

  // ----- The effect of each operation -----

  function WithStatus(t: Table, c: nat, s: JobStatus): Table
    requires c in t.rows
  {
    t.(rows := t.rows[c := t.rows[c].(status := s)])
  }

  /** Jobs left in progress by a crash are pending again. */
  function Reset(t: Table): Table {
    t.(rows := map c | c in t.rows :: if t.rows[c].status.InProgress? then t.rows[c].(status := Pending) else t.rows[c])
  }

  /** Inserting a job whose key is taken does nothing. */
  function Insert(t: Table, j: Job): Table {
    if HasKey(t, j.key) then t else Table(t.rows[t.clock := j], t.clock + 1)
  }

  function Update(t: Table, k: Key, s: JobStatus): Table {
    t.(rows := map c | c in t.rows :: if t.rows[c].key == k then t.rows[c].(status := s) else t.rows[c])
  }

  function Delete(t: Table, k: Key): Table {
    t.(rows := map c | c in t.rows && t.rows[c].key != k :: t.rows[c])
  }

  /** Taking a job hands out the first selected row, in progress from now on; nothing is handed out if
      and only if no row is selected. */
  ghost predicate Takes(t: Table, q: Query, out: Option<nat>, after: Table) {
    match out
    case None => after == t && forall c <- t.rows :: !Selects(q, t.rows[c])
    case Some(c) => First(t, q, c) && after == WithStatus(t, c, InProgress)
  }

  class Queue {
    var rows: map<nat, Job>
    var clock: nat

    ghost function Contents(): Table
      reads this
    {
      Table(rows, clock)
    }

    ghost predicate Valid()
      reads this
    {
      WellFormed(Contents())
    }

    constructor ()
      ensures Valid() && Contents() == Table(map[], 0)
    {
      rows, clock := map[], 0;
    }

    method Init()
      requires Valid()
      modifies this`rows
      ensures Valid() && Contents() == Reset(old(Contents()))
    {
      rows := map c | c in rows :: if rows[c].status.InProgress? then rows[c].(status := Pending) else rows[c];
    }

    method Contains(jobType: JobType, tag: int) returns (found: bool)
      ensures found <==> exists c <- rows :: rows[c].key.jobType == jobType && rows[c].key.tag == tag
    {
      found := exists c <- rows :: rows[c].key.jobType == jobType && rows[c].key.tag == tag;
    }

    method InsertJob(j: Job)
      requires Valid()
      modifies this
      ensures Valid() && Contents() == Insert(old(Contents()), j)
    {
      if forall c <- rows :: rows[c].key != j.key {
        rows, clock := rows[clock := j], clock + 1;
      }
    }

    method InsertIfMissing(j: Job) returns (inserted: bool)
      requires Valid()
      modifies this
      ensures Valid() && Contents() == Insert(old(Contents()), j) && inserted == !HasKey(old(Contents()), j.key)
    {
      var exists_ := exists c <- rows :: rows[c].key == j.key;
      if !exists_ {
        rows, clock := rows[clock := j], clock + 1;
      }
      inserted := !exists_;
    }

    /** The row the query returns first, whichever if several are equally early, set in progress. */
    method Take(q: Query) returns (out: Option<nat>, job: Option<Job>)
      requires Valid()
      modifies this`rows
      ensures Valid() && Takes(old(Contents()), q, out, Contents())
      ensures job == match out case None => None case Some(c) => Some(old(rows)[c].(status := InProgress))
    {
      if exists c :: c in rows && Selects(q, rows[c]) {
        ghost var first := SomeRowIsFirst(Contents(), q);
        var c :| c in rows && First(Table(rows, clock), q, c);
        rows := rows[c := rows[c].(status := InProgress)];
        return Some(c), Some(rows[c]);
      }
      out, job := None, None;
    }

    /** Hands out the pending job of the type that was created first. */
    method NextJob(jobType: JobType) returns (out: Option<nat>, job: Option<Job>)
      requires Valid()
      modifies this`rows
      ensures Valid() && Takes(old(Contents()), NextOfType(jobType), out, Contents())
      ensures job == match out case None => None case Some(c) => Some(old(rows)[c].(status := InProgress))
      ensures out.None? ==> rows == old(rows) && forall d <- rows :: !Waits(rows[d], jobType)
      ensures out.Some? ==>
        && out.value in old(rows) && Waits(old(rows)[out.value], jobType)
        && rows == old(rows)[out.value := old(rows)[out.value].(status := InProgress)]
        && (forall d <- old(rows) | Waits(old(rows)[d], jobType) :: out.value <= d)
    {
      out, job := Take(NextOfType(jobType));
    }

    /** Hands out the pending job of the type and the tag that was created first. */
    method NextJobTag(jobType: JobType, tag: int) returns (out: Option<nat>, job: Option<Job>)
      requires Valid()
      modifies this`rows
      ensures Valid() && Takes(old(Contents()), NextOfTag(jobType, tag), out, Contents())
      ensures job == match out case None => None case Some(c) => Some(old(rows)[c].(status := InProgress))
      ensures out.None? ==>
        rows == old(rows) && forall d <- rows :: !(Waits(rows[d], jobType) && rows[d].key.tag == tag)
      ensures out.Some? ==>
        && out.value in old(rows) && Waits(old(rows)[out.value], jobType) && old(rows)[out.value].key.tag == tag
        && rows == old(rows)[out.value := old(rows)[out.value].(status := InProgress)]
        && (forall d <- old(rows) | Waits(old(rows)[d], jobType) && old(rows)[d].key.tag == tag :: out.value <= d)
    {
      out, job := Take(NextOfTag(jobType, tag));
    }

    /** Hands out a pending job that is due, one of those with the earliest schedule. */
    method NextScheduledJob(jobType: JobType, now: int) returns (out: Option<nat>, job: Option<Job>)
      requires Valid()
      modifies this`rows
      ensures Valid() && Takes(old(Contents()), NextScheduled(jobType, now), out, Contents())
      ensures job == match out case None => None case Some(c) => Some(old(rows)[c].(status := InProgress))
      ensures out.None? ==> rows == old(rows) && forall d <- rows :: !Due(rows[d], jobType, now)
      ensures out.Some? ==>
        && out.value in old(rows) && Due(old(rows)[out.value], jobType, now)
        && rows == old(rows)[out.value := old(rows)[out.value].(status := InProgress)]
        && (forall d <- old(rows) | Due(old(rows)[d], jobType, now) ::
             old(rows)[out.value].scheduleAt.value <= old(rows)[d].scheduleAt.value)
    {
      out, job := Take(NextScheduled(jobType, now));
    }

    /** The earliest schedule of a pending row. */
    method NextSchedule(jobType: JobType) returns (at: Option<int>)
      ensures Earliest(Contents(), jobType, at)
    {
      at := None;
      if exists c <- rows :: Scheduled(jobType, rows[c]) {
        ghost var schedules := map c | c in rows && Scheduled(jobType, rows[c]) :: rows[c].scheduleAt.value;
        ghost var d :| d in rows && Scheduled(jobType, rows[d]);
        assert d in schedules.Keys;
        ghost var least := LeastExists(schedules, schedules.Keys);
        assert forall e <- rows | Scheduled(jobType, rows[e]) :: e in schedules.Keys;
        var c :| c in rows && Scheduled(jobType, rows[c]) &&
          forall e <- rows | Scheduled(jobType, rows[e]) :: rows[c].scheduleAt.value <= rows[e].scheduleAt.value;
        at := rows[c].scheduleAt;
      }
    }

    method UpdateJob(k: Key, s: JobStatus)
      requires Valid()
      modifies this`rows
      ensures Valid() && Contents() == Update(old(Contents()), k, s)
    {
      rows := map c | c in rows :: if rows[c].key == k then rows[c].(status := s) else rows[c];
    }

    method DeleteJob(k: Key)
      requires Valid()
      modifies this`rows
      ensures Valid() && Contents() == Delete(old(Contents()), k)
    {
      rows := map c | c in rows && rows[c].key != k :: rows[c];
    }
  }

  // ----- Histories -----

  /** An operation of any task, with what it handed out. A restart is a reset of the same table. */
  datatype Action =
    | Restart
    | Inserted(job: Job)
    | Took(query: Query, out: Option<nat>)
    | Updated(key: Key, status: JobStatus)
    | Deleted(key: Key)

  ghost predicate Step(t: Table, a: Action, u: Table) {
    match a
    case Restart => u == Reset(t)
    case Inserted(j) => u == Insert(t, j)
    case Took(q, out) => Takes(t, q, out, u)
    case Updated(k, s) => u == Update(t, k, s)
    case Deleted(k) => u == Delete(t, k)
  }

  ghost predicate Execution(tables: seq<Table>, actions: seq<Action>) {
    && |tables| == |actions| + 1 && WellFormed(tables[0])
    && forall i | 0 <= i < |actions| :: Step(tables[i], actions[i], tables[i + 1])
  }

  predicate HandsOut(a: Action, c: nat) {
    a.Took? && a.out == Some(c)
  }

  lemma StepKeepsWellFormed(t: Table, a: Action, u: Table)
    requires WellFormed(t) && Step(t, a, u)
    ensures WellFormed(u) && t.clock <= u.clock
  {
    if a.Inserted? && !HasKey(t, a.job.key) {
      assert forall c <- t.rows :: t.rows[c].key != a.job.key;
    }
  }

  lemma {:induction false} AlwaysWellFormed(tables: seq<Table>, actions: seq<Action>, i: nat, j: nat)
    requires Execution(tables, actions) && i <= j < |tables|
    ensures WellFormed(tables[j]) && (i < |tables| ==> tables[i].clock <= tables[j].clock)
    decreases j
  {
    if j > 0 {
      AlwaysWellFormed(tables, actions, if i < j then i else j - 1, j - 1);
      StepKeepsWellFormed(tables[j - 1], actions[j - 1], tables[j]);
    }
  }

  /** What one step can do to a row: nothing but change its status, or delete it by its key. */
  lemma RowStep(t: Table, a: Action, u: Table, c: nat)
    requires WellFormed(t) && Step(t, a, u) && c in t.rows
    ensures c in u.rows <==> a != Deleted(t.rows[c].key)
    ensures c in u.rows ==>
      && u.rows[c] == t.rows[c].(status := u.rows[c].status)
      && u.rows[c].status ==
         if a.Restart? && t.rows[c].status.InProgress? then Pending
         else if a.Updated? && a.key == t.rows[c].key then a.status
         else if HandsOut(a, c) then InProgress
         else t.rows[c].status
    ensures HandsOut(a, c) ==> t.rows[c].status.Pending?
  {
    if a.Inserted? && !HasKey(t, a.job.key) {
      assert t.rows[c].key != a.job.key;
    }
  }

  /** No row is lost: until it is deleted by its key, a row stays, and only its status changes. */
  lemma {:induction false} RowsArePreserved(tables: seq<Table>, actions: seq<Action>, i: nat, j: nat, c: nat)
    requires Execution(tables, actions) && i <= j < |tables| && c in tables[i].rows
    requires forall k | i <= k < j :: actions[k] != Deleted(tables[i].rows[c].key)
    ensures c in tables[j].rows
    ensures tables[j].rows[c] == tables[i].rows[c].(status := tables[j].rows[c].status)
    decreases j
  {
    if i < j {
      RowsArePreserved(tables, actions, i, j - 1, c);
      AlwaysWellFormed(tables, actions, 0, j - 1);
      RowStep(tables[j - 1], actions[j - 1], tables[j], c);
    }
  }

  /** A moment that passed without a row stays without one. */
  lemma {:induction false} DeletedForGood(tables: seq<Table>, actions: seq<Action>, i: nat, j: nat, c: nat)
    requires Execution(tables, actions) && i <= j < |tables| && c !in tables[i].rows && c < tables[i].clock
    ensures c !in tables[j].rows
    decreases j
  {
    if i < j {
      DeletedForGood(tables, actions, i, j - 1, c);
      AlwaysWellFormed(tables, actions, i, j - 1);
      assert Step(tables[j - 1], actions[j - 1], tables[j]);
    }
  }

  /** An action after which a row that was handed out may be pending again. */
  predicate Reopens(a: Action, k: Key) {
    a.Restart? || (a.Updated? && a.key == k && a.status.Pending?)
  }

  /** A row that is not pending stays so until a restart or an update that makes it pending. */
  lemma {:induction false} StaysTaken(tables: seq<Table>, actions: seq<Action>, i: nat, j: nat, c: nat)
    requires Execution(tables, actions) && i <= j < |tables|
    requires c in tables[i].rows && !tables[i].rows[c].status.Pending?
    requires forall k | i <= k < j :: !Reopens(actions[k], tables[i].rows[c].key)
    ensures c in tables[j].rows ==> !tables[j].rows[c].status.Pending?
    ensures c in tables[j].rows ==> tables[j].rows[c].key == tables[i].rows[c].key
    decreases j
  {
    if i < j {
      StaysTaken(tables, actions, i, j - 1, c);
      AlwaysWellFormed(tables, actions, i, j - 1);
      AlwaysWellFormed(tables, actions, 0, i);
      if c in tables[j - 1].rows {
        RowStep(tables[j - 1], actions[j - 1], tables[j], c);
      } else {
        DeletedForGood(tables, actions, j - 1, j, c);
      }
    }
  }

  /** Between two restarts no row is handed out twice, whichever of the three queries are used. */
  lemma HandedOutOnce(tables: seq<Table>, actions: seq<Action>, i: nat, j: nat, c: nat)
    requires Execution(tables, actions) && i < j < |actions|
    requires HandsOut(actions[i], c) && HandsOut(actions[j], c) && c in tables[i].rows
    ensures exists k | i < k < j :: Reopens(actions[k], tables[i].rows[c].key)
  {
    assert Step(tables[i], actions[i], tables[i + 1]) && Step(tables[j], actions[j], tables[j + 1]);
    AlwaysWellFormed(tables, actions, 0, i);
    RowStep(tables[i], actions[i], tables[i + 1], c);
    if forall k | i < k < j :: !Reopens(actions[k], tables[i].rows[c].key) {
      StaysTaken(tables, actions, i + 1, j, c);
      assert false;
    }
  }

  /** A recorded result is kept, over restarts too, until the row is updated otherwise or deleted. */
  lemma {:induction false} ResultIsKept(tables: seq<Table>, actions: seq<Action>, i: nat, j: nat, c: nat)
    requires Execution(tables, actions) && i <= j < |tables|
    requires c in tables[i].rows && (tables[i].rows[c].status.Done? || tables[i].rows[c].status.Error?)
    requires forall k | i <= k < j && actions[k].Updated? && actions[k].key == tables[i].rows[c].key ::
               actions[k].status.Done? || actions[k].status.Error?
    ensures c in tables[j].rows ==>
      && tables[j].rows[c].key == tables[i].rows[c].key
      && (tables[j].rows[c].status.Done? || tables[j].rows[c].status.Error?)
    decreases j
  {
    if i < j {
      ResultIsKept(tables, actions, i, j - 1, c);
      AlwaysWellFormed(tables, actions, i, j - 1);
      AlwaysWellFormed(tables, actions, 0, i);
      if c in tables[j - 1].rows {
        RowStep(tables[j - 1], actions[j - 1], tables[j], c);
      } else {
        DeletedForGood(tables, actions, j - 1, j, c);
      }
    }
  }

  /** A finished row is never handed out again, not even after any number of restarts. */
  lemma FinishedIsNeverHandedOut(tables: seq<Table>, actions: seq<Action>, i: nat, j: nat, c: nat)
    requires Execution(tables, actions) && i < j < |actions|
    requires c in tables[i].rows && actions[i].Updated? && actions[i].key == tables[i].rows[c].key
    requires actions[i].status.Done? || actions[i].status.Error?
    requires forall k | i < k < j && actions[k].Updated? && actions[k].key == tables[i].rows[c].key ::
               actions[k].status.Done? || actions[k].status.Error?
    ensures !HandsOut(actions[j], c)
  {
    assert Step(tables[i], actions[i], tables[i + 1]) && Step(tables[j], actions[j], tables[j + 1]);
    AlwaysWellFormed(tables, actions, 0, i);
    RowStep(tables[i], actions[i], tables[i + 1], c);
    ResultIsKept(tables, actions, i + 1, j, c);
  }

  /** Without a result, a row that was taken stays in progress or becomes pending. */
  lemma {:induction false} StaysUnfinished(tables: seq<Table>, actions: seq<Action>, i: nat, j: nat, c: nat)
    requires Execution(tables, actions) && i <= j < |tables|
    requires c in tables[i].rows && (tables[i].rows[c].status.Pending? || tables[i].rows[c].status.InProgress?)
    requires forall k | i <= k < j ::
               actions[k] != Deleted(tables[i].rows[c].key) &&
               !(actions[k].Updated? && actions[k].key == tables[i].rows[c].key)
    ensures c in tables[j].rows && tables[j].rows[c] == tables[i].rows[c].(status := tables[j].rows[c].status)
    ensures tables[j].rows[c].status.Pending? || tables[j].rows[c].status.InProgress?
    decreases j
  {
    if i < j {
      StaysUnfinished(tables, actions, i, j - 1, c);
      AlwaysWellFormed(tables, actions, 0, j - 1);
      RowStep(tables[j - 1], actions[j - 1], tables[j], c);
    }
  }

  /** A job that was taken and then dropped without a result is back after a restart, unchanged and
      selected by the same query. */
  lemma DroppedIsPendingAfterRestart(tables: seq<Table>, actions: seq<Action>, i: nat, j: nat, c: nat)
    requires Execution(tables, actions) && i < j < |actions|
    requires c in tables[i].rows && HandsOut(actions[i], c) && actions[j].Restart?
    requires forall k | i < k < j ::
               actions[k] != Deleted(tables[i].rows[c].key) &&
               !(actions[k].Updated? && actions[k].key == tables[i].rows[c].key)
    ensures c in tables[j + 1].rows && tables[j + 1].rows[c] == tables[i].rows[c]
    ensures Selects(actions[i].query, tables[j + 1].rows[c])
  {
    assert Step(tables[i], actions[i], tables[i + 1]) && Step(tables[j], actions[j], tables[j + 1]);
    AlwaysWellFormed(tables, actions, 0, i);
    RowStep(tables[i], actions[i], tables[i + 1], c);
    StaysUnfinished(tables, actions, i + 1, j, c);
    AlwaysWellFormed(tables, actions, 0, j);
    RowStep(tables[j], actions[j], tables[j + 1], c);
  }
}
