/** The storage worker draining the queue: requested deletions first, then the clean-ups that are due. */
module StorageTask {
  import opened Wrappers
  import opened JobQueue
  import opened Timestamps
  import opened Workers

  const DELETIONS := NextOfTag(FileStorage, DELETE)

  function DueBy(now: Unix): Query {
    NextScheduled(FileStorage, now)
  }

  /** What the producers insert for the storage worker: unscheduled deletions and scheduled clean-ups. */
  ghost predicate Produced(t: Table) {
    WellFormed(t) &&
    forall c <- t.rows | t.rows[c].key.jobType.FileStorage? ::
      if t.rows[c].scheduleAt.Some? then t.rows[c].key.tag == CLEAN_UP else t.rows[c].key.tag == DELETE
  }

  /** Row `c` is there for the query to take. */
  predicate Selected(t: Table, q: Query, c: nat) {
    c in t.rows && Selects(q, t.rows[c])
  }

  /** Handling row `c` leaves every other row alone, and never makes `c` pending again. */
  ghost predicate Handled(t: Table, c: nat, u: Table) {
    && u.clock == t.clock && u.rows.Keys <= t.rows.Keys
    && (forall d <- t.rows | d != c :: d in u.rows && u.rows[d] == t.rows[d])
    && (c in u.rows ==> u.rows[c] == t.rows[c].(status := u.rows[c].status) && !u.rows[c].status.Pending?)
  }

  /** The pending rows of the storage worker, which every job makes fewer. */
  ghost function Open(t: Table): set<nat> {
    set c | c in t.rows && t.rows[c].status.Pending? && t.rows[c].key.jobType.FileStorage?
  }

  /** Where row `c` stands in the order of the query. */
  function Place(t: Table, q: Query, c: nat): int {
    if Selected(t, q, c) then Order(q, c, t.rows[c]) else 0
  }

  /** The rows are in the order of the query, each once. */
  ghost predicate InOrder(t: Table, q: Query, taken: seq<nat>) {
    forall i, j | 0 <= i < j < |taken| ::
      taken[i] != taken[j] && Place(t, q, taken[i]) <= Place(t, q, taken[j])
  }

  /** What the query selects now comes after what was taken. */
  ghost predicate Later(t: Table, q: Query, taken: seq<nat>, u: Table) {
    forall c: nat, d: nat | c in taken && Selected(u, q, d) :: c != d && Place(t, q, c) <= Place(t, q, d)
  }

  /** What the query selected is what was taken and what it still selects, unchanged. */
  ghost predicate Parted(t: Table, q: Query, taken: seq<nat>, u: Table) {
    && (forall c: nat :: Selected(t, q, c) <==> c in taken || Selected(u, q, c))
    && (forall c: nat | Selected(u, q, c) :: u.rows[c] == t.rows[c])
  }

  /** From `t` to `u` the query's rows `taken` were taken, each once and in its order; what it selects now
      is the rest, and comes later. */
  ghost predicate Drained(t: Table, q: Query, taken: seq<nat>, u: Table) {
    Parted(t, q, taken, u) && InOrder(t, q, taken) && Later(t, q, taken, u)
  }

  ghost predicate Exhausted(t: Table, q: Query) {
    forall c: nat :: !Selected(t, q, c)
  }

  /** What the world does about a job: whether it can be decoded, its file removed, and its result answered. */
  datatype World = World(decodes: bool, removes: bool, answers: bool)

  /** A deletion that aborts the drain. */
  predicate Fails(world: World) {
    !world.decodes || !world.answers
  }

  /** How a requested deletion goes; `deleted` tells whether the file could be removed. */
  datatype Deletion = Undecodable | Unanswered(deleted: bool) | Answered(deleted: bool)

  datatype Cleaning = NotDecoded | FileStays | Cleaned

  datatype Outcome = Finished | Stopped | Aborted

  /** The cancellation token fires once so many jobs were taken, if at all. */
  predicate Fired(cancel: Option<nat>, taken: nat) {
    cancel.Some? && cancel.value <= taken
  }

  /** What is left of the token after so many jobs. */
  function Left(cancel: Option<nat>, taken: nat): (left: Option<nat>)
    ensures forall n: nat :: Fired(left, n) <==> Fired(cancel, taken + n)
  {
    if cancel.None? then None else Some(if cancel.value <= taken then 0 else cancel.value - taken)
  }

  class Storage {
    const queue: Queue

    constructor (queue: Queue)
      ensures this.queue == queue
    {
      this.queue := queue;
    }

    /** A requested deletion: its result is recorded, answered, and its row removed. If the job cannot be
        decoded nothing is done; if the answer cannot be sent the row stays with its result. */
    method Handle(c: nat, job: Job, world: World) returns (r: Deletion)
      requires queue.Valid() && c in queue.rows && queue.rows[c] == job && job.status.InProgress?
      modifies queue
      ensures queue.Valid() && Handled(old(queue.Contents()), c, queue.Contents())
      ensures r == if !world.decodes then Undecodable
                   else if !world.answers then Unanswered(world.removes) else Answered(world.removes)
      ensures queue.Contents() ==
        match r
        case Undecodable => old(queue.Contents())
        case Unanswered(deleted) => Update(old(queue.Contents()), job.key, if deleted then Done else Error)
        case Answered(_) => Delete(old(queue.Contents()), job.key)
    {
      if !world.decodes {
        return Undecodable;
      }
      var deleted := world.removes;
      queue.UpdateJob(job.key, if deleted then Done else Error);
      if !world.answers {
        return Unanswered(deleted);
      }
      queue.DeleteJob(job.key);
      r := Answered(deleted);
    }

    /** A due clean-up: the row is removed if the file could be; a failure leaves it in progress, and is not
        an error of the drain. */
    method CleanUp(c: nat, job: Job, world: World) returns (r: Cleaning)
      requires queue.Valid() && c in queue.rows && queue.rows[c] == job && job.status.InProgress?
      requires job.key.jobType.FileStorage? && job.key.tag == CLEAN_UP
      modifies queue
      ensures queue.Valid() && Handled(old(queue.Contents()), c, queue.Contents())
      ensures r == if !world.decodes then NotDecoded else if !world.removes then FileStays else Cleaned
      ensures queue.Contents() ==
        if r.Cleaned? then Delete(old(queue.Contents()), job.key) else old(queue.Contents())
    {
      if !world.decodes {
        return NotDecoded;
      }
      if !world.removes {
        return FileStays;
      }
      queue.DeleteJob(Key(job.key.id, FileStorage, CLEAN_UP));
      r := Cleaned;
    }

    /** The requested deletions, in the order they were inserted, until none is left, the token has fired, or a
        job fails and its row is left behind. */
    method Deletions(cancel: Option<nat>, world: nat -> World) returns (taken: seq<nat>, outcome: Outcome)
      requires queue.Valid() && Produced(queue.Contents())
      modifies queue
      ensures queue.Valid() && Produced(queue.Contents())
      ensures Drained(old(queue.Contents()), DELETIONS, taken, queue.Contents())
      ensures forall now: Unix :: Drained(old(queue.Contents()), DueBy(now), [], queue.Contents())
      ensures outcome.Finished? ==> Exhausted(queue.Contents(), DELETIONS)
      ensures outcome.Aborted? <==> taken != [] && Fails(world(taken[|taken| - 1]))
      ensures outcome.Aborted? ==> taken[|taken| - 1] in queue.rows
      ensures !outcome.Aborted? ==> (outcome.Stopped? <==> Fired(cancel, |taken|))
      ensures taken != [] ==> !Fired(cancel, |taken| - 1)
    {
      ghost var t := queue.Contents();
      NothingTaken(t, DELETIONS);
      forall now: Unix
        ensures Drained(t, DueBy(now), [], t)
      {
        NothingTaken(t, DueBy(now));
      }
      hide Drained, Open, Produced, Handled, Selected;
      taken, outcome := [], Stopped;
      while !Fired(cancel, |taken|)
        invariant queue.Valid() && Produced(queue.Contents())
        invariant Drained(t, DELETIONS, taken, queue.Contents())
        invariant forall now: Unix :: Drained(t, DueBy(now), [], queue.Contents())
        invariant taken != [] ==> !Fired(cancel, |taken| - 1) && !Fails(world(taken[|taken| - 1]))
        decreases |Open(queue.Contents())|
      {
        ghost var before := queue.Contents();
        var c, job := queue.NextJobTag(FileStorage, DELETE);
        if c.None? {
          outcome := Finished;
          return;
        }
        ghost var mid := queue.Contents();
        var result := Handle(c.value, job.value, world(c.value));
        DeletionTaken(t, taken, before, c.value, mid, queue.Contents());
        taken := taken + [c.value];
        if !result.Answered? {
          outcome := Aborted;
          return;
        }
      }
    }

    /** The clean-ups that are due, in the order of their schedules, in the same way. */
    method CleanUps(now: Unix, cancel: Option<nat>, world: nat -> World) returns (taken: seq<nat>, outcome: Outcome)
      requires queue.Valid() && Produced(queue.Contents())
      modifies queue
      ensures queue.Valid() && Produced(queue.Contents())
      ensures Drained(old(queue.Contents()), DueBy(now), taken, queue.Contents())
      ensures forall c: nat :: Selected(queue.Contents(), DELETIONS, c) ==>
                Selected(old(queue.Contents()), DELETIONS, c)
      ensures outcome.Finished? ==> Exhausted(queue.Contents(), DueBy(now))
      ensures outcome.Aborted? <==> taken != [] && !world(taken[|taken| - 1]).decodes
      ensures outcome.Aborted? ==> taken[|taken| - 1] in queue.rows
      ensures !outcome.Aborted? ==> (outcome.Stopped? <==> Fired(cancel, |taken|))
      ensures taken != [] ==> !Fired(cancel, |taken| - 1)
    {
      ghost var t := queue.Contents();
      NothingTaken(t, DueBy(now));
      hide Drained, Open, Handled, Selected;
      taken, outcome := [], Stopped;
      while !Fired(cancel, |taken|)
        invariant queue.Valid() && Produced(queue.Contents())
        invariant Drained(t, DueBy(now), taken, queue.Contents())
        invariant forall c: nat :: Selected(queue.Contents(), DELETIONS, c) ==> Selected(t, DELETIONS, c)
        invariant taken != [] ==> !Fired(cancel, |taken| - 1) && world(taken[|taken| - 1]).decodes
        decreases |Open(queue.Contents())|
      {
        ghost var before := queue.Contents();
        var c, job := queue.NextScheduledJob(FileStorage, now);
        if c.None? {
          outcome := Finished;
          return;
        }
        ghost var mid := queue.Contents();
        assert job.value.key.tag == CLEAN_UP;
        var result := CleanUp(c.value, job.value, world(c.value));
        StillProduced(before, DueBy(now), c.value, mid, queue.Contents());
        OneMore(t, DueBy(now), taken, before, c.value, mid, queue.Contents());
        Dropped(before, DueBy(now), c.value, mid, queue.Contents(), DELETIONS);
        taken := taken + [c.value];
        if result.NotDecoded? {
          outcome := Aborted;
          return;
        }
      }
    }

    /** Drains the queue at a fixed time: it ends, it takes the deletions in the order they were requested
        and then due clean-ups in the order of their schedules, none of them once the token has fired. Unless
        it was stopped so, or aborted by a job whose row is left behind, exactly the pending deletions and the
        due clean-ups were taken, and none is left. */
    method Jobs(now: Unix, cancel: Option<nat>, world: nat -> World)
      returns (deletions: seq<nat>, cleanUps: seq<nat>, outcome: Outcome)
      requires queue.Valid() && Produced(queue.Contents())
      modifies queue
      ensures queue.Valid() && Produced(queue.Contents())
      ensures forall i, j | 0 <= i < j < |deletions| :: deletions[i] < deletions[j]
      ensures forall c <- deletions :: Selected(old(queue.Contents()), DELETIONS, c)
      ensures forall i, j | 0 <= i < j < |cleanUps| ::
        var t := old(queue.Contents());
        cleanUps[i] != cleanUps[j] && Place(t, DueBy(now), cleanUps[i]) <= Place(t, DueBy(now), cleanUps[j])
      ensures forall c <- cleanUps :: Selected(old(queue.Contents()), DueBy(now), c)
      ensures cleanUps != [] ==> forall c: nat | Selected(old(queue.Contents()), DELETIONS, c) :: c in deletions
      ensures outcome.Finished? ==>
        && Exhausted(queue.Contents(), DELETIONS) && Exhausted(queue.Contents(), DueBy(now))
        && (forall c: nat :: Selected(old(queue.Contents()), DELETIONS, c) <==> c in deletions)
        && (forall c: nat :: Selected(old(queue.Contents()), DueBy(now), c) <==> c in cleanUps)
      ensures outcome.Aborted? ==> exists c <- deletions + cleanUps :: c in queue.rows && Fails(world(c))
      ensures outcome.Stopped? ==> Fired(cancel, |deletions| + |cleanUps|)
      ensures deletions + cleanUps != [] ==> !Fired(cancel, |deletions| + |cleanUps| - 1)
    {
      hide Drained, Exhausted, Produced, Selected, Place;
      cleanUps := [];
      deletions, outcome := Deletions(cancel, world);
      ghost var t, mid := old(queue.Contents()), queue.Contents();
      DeletionsInOrder(t, deletions, mid);
      if outcome.Aborted? {
        assert deletions[|deletions| - 1] in deletions + cleanUps;
        return;
      }
      ghost var stopped := outcome.Stopped?;
      cleanUps, outcome := CleanUps(now, Left(cancel, |deletions|), world);
      Chained(t, mid, queue.Contents(), cleanUps, now);
      CleanUpsInOrder(t, now, cleanUps, queue.Contents());
      assert stopped ==> cleanUps == [] && outcome.Stopped?;
      if !stopped {
        AllTaken(t, DELETIONS, deletions, mid);
        StaysExhausted(mid, queue.Contents(), DELETIONS);
      }
      if outcome.Finished? {
        AllTaken(t, DueBy(now), cleanUps, queue.Contents());
      }
      assert cleanUps != [] ==> cleanUps[|cleanUps| - 1] in deletions + cleanUps;
    }
  }

  lemma NothingTaken(t: Table, q: Query)
    ensures Drained(t, q, [], t)
  {
    hide Selected;
  }

  lemma DeletionsInOrder(t: Table, taken: seq<nat>, u: Table)
    requires Drained(t, DELETIONS, taken, u)
    ensures forall i, j | 0 <= i < j < |taken| :: taken[i] < taken[j]
    ensures forall c <- taken :: Selected(t, DELETIONS, c)
  {
    hide Later;
    forall i, j | 0 <= i < j < |taken|
      ensures taken[i] < taken[j]
    {
      assert taken[i] in taken && taken[j] in taken;
    }
  }

  lemma CleanUpsInOrder(t: Table, now: Unix, taken: seq<nat>, u: Table)
    requires Drained(t, DueBy(now), taken, u)
    ensures forall i, j | 0 <= i < j < |taken| ::
      taken[i] != taken[j] && Place(t, DueBy(now), taken[i]) <= Place(t, DueBy(now), taken[j])
    ensures forall c <- taken :: Selected(t, DueBy(now), c)
  {
    hide Later, Selected, Place;
  }

  lemma AllTaken(t: Table, q: Query, taken: seq<nat>, u: Table)
    requires Drained(t, q, taken, u) && Exhausted(u, q)
    ensures forall c: nat :: Selected(t, q, c) <==> c in taken
  {
    hide Later, InOrder, Selected, Place;
  }

  lemma StaysExhausted(t: Table, u: Table, q: Query)
    requires Exhausted(t, q) && forall c: nat :: Selected(u, q, c) ==> Selected(t, q, c)
    ensures Exhausted(u, q)
  {
    hide Selected;
  }

  /** Nothing the drain does adds rows or changes more than a status. */
  lemma StillProduced(before: Table, q: Query, c: nat, mid: Table, u: Table)
    requires Produced(before) && Takes(before, q, Some(c), mid) && Handled(mid, c, u) && WellFormed(u)
    requires q.jobType.FileStorage?
    ensures Produced(u) && |Open(u)| < |Open(before)|
  {
    assert forall d <- u.rows :: d in before.rows && u.rows[d] == before.rows[d].(status := u.rows[d].status);
    assert c in Open(before) && Open(u) <= Open(before) - {c} by {
      hide WellFormed;
    }
    SubsetIsSmaller(Open(u), Open(before) - {c});
  }

  /** The row that was taken is the one that is no longer there for any query. */
  lemma Dropped(before: Table, q: Query, c: nat, mid: Table, u: Table, other: Query)
    requires Takes(before, q, Some(c), mid) && Handled(mid, c, u)
    ensures forall d: nat :: Selected(u, other, d) <==> Selected(before, other, d) && d != c
    ensures forall d: nat | Selected(u, other, d) :: u.rows[d] == before.rows[d]
    ensures First(before, q, c)
  {
    assert forall d <- before.rows | d != c :: d in u.rows && u.rows[d] == before.rows[d];
  }

  lemma OneMore(t: Table, q: Query, taken: seq<nat>, before: Table, c: nat, mid: Table, u: Table)
    requires Drained(t, q, taken, before) && Takes(before, q, Some(c), mid) && Handled(mid, c, u)
    ensures Drained(t, q, taken + [c], u)
  {
    Dropped(before, q, c, mid, u, q);
    hide Takes, Handled, Selects, Order;
    assert Selected(before, q, c) && Selected(t, q, c);
    assert Parted(t, q, taken + [c], u) by {
      hide InOrder, Later, Place, First;
    }
    assert InOrder(t, q, taken + [c]) by {
      hide Parted, Place, First;
      assert forall i | 0 <= i < |taken| :: taken[i] in taken;
    }
    LaterStill(t, q, taken, before, c, u);
  }

  lemma LaterStill(t: Table, q: Query, taken: seq<nat>, before: Table, c: nat, u: Table)
    requires Parted(t, q, taken, before) && Later(t, q, taken, before) && First(before, q, c)
    requires forall d: nat :: Selected(u, q, d) <==> Selected(before, q, d) && d != c
    ensures Later(t, q, taken + [c], u)
  {
    assert Selected(before, q, c) && Selected(t, q, c);
    forall d: nat | Selected(u, q, d)
      ensures c != d && Place(t, q, c) <= Place(t, q, d)
    {
      assert Selected(before, q, d) && Selected(t, q, d);
    }
    hide Parted, First, Place, Selects, Order;
  }

  lemma DueUntouched(t: Table, before: Table, c: nat, mid: Table, u: Table, now: Unix)
    requires Drained(t, DueBy(now), [], before) && Produced(before)
    requires Takes(before, DELETIONS, Some(c), mid) && Handled(mid, c, u)
    ensures Drained(t, DueBy(now), [], u)
  {
    Dropped(before, DELETIONS, c, mid, u, DueBy(now));
    assert !Selected(before, DueBy(now), c);
  }

  lemma DeletionTaken(t: Table, taken: seq<nat>, before: Table, c: nat, mid: Table, u: Table)
    requires Produced(before) && Takes(before, DELETIONS, Some(c), mid) && Handled(mid, c, u) && WellFormed(u)
    requires Drained(t, DELETIONS, taken, before) && forall now: Unix :: Drained(t, DueBy(now), [], before)
    ensures Produced(u) && |Open(u)| < |Open(before)|
    ensures Drained(t, DELETIONS, taken + [c], u) && forall now: Unix :: Drained(t, DueBy(now), [], u)
  {
    hide Drained, Produced, Takes, Handled, Open, WellFormed;
    StillProduced(before, DELETIONS, c, mid, u);
    OneMore(t, DELETIONS, taken, before, c, mid, u);
    forall now: Unix
      ensures Drained(t, DueBy(now), [], u)
    {
      DueUntouched(t, before, c, mid, u, now);
    }
  }

  /** What the clean-ups were when the deletions had been done is what they were at first. */
  lemma Chained(t: Table, mid: Table, u: Table, cleanUps: seq<nat>, now: Unix)
    requires Drained(t, DueBy(now), [], mid) && Drained(mid, DueBy(now), cleanUps, u)
    ensures Drained(t, DueBy(now), cleanUps, u)
  {
    assert forall c: nat :: Selected(t, DueBy(now), c) <==> Selected(mid, DueBy(now), c);
    assert forall c: nat :: Place(t, DueBy(now), c) == Place(mid, DueBy(now), c);
  }

  lemma {:induction false} SubsetIsSmaller(a: set<nat>, b: set<nat>)
    requires a <= b
    ensures |a| <= |b|
  {
    if a != {} {
      var x :| x in a;
      SubsetIsSmaller(a - {x}, b - {x});
    }
  }
}
