/** The two workers of the job queue, their producers, and the notifications between them, interleaved
    step by step, with crashes. */
module Workers {
  import opened Wrappers
  import opened JobQueue
  import opened Timestamps

  const CLEAN_UP := 0
  const DELETE := 1

  /** Where the storage worker is: draining deletions, draining due clean-ups, or on its way to wait. There it
      has looked for deletions (`Scheduling`), read the earliest schedule (`Timing`), and knows its deadline
      (`Retiring`), before it is the one a notification wakes (`Sleeping`). */
  datatype StorageWorker =
    | Deletes | Deleting(deleted: Key) | Recorded(deleted: Key)
    | CleanUps | CleaningUp(cleaned: Key)
    | Checking | Scheduling | Timing(first: Option<int>)
    | Retiring(deadline: Option<nat>) | Sleeping(deadline: Option<nat>)
    | StorageStopped

  /** The transfer worker has found nothing to do (`Emptied`) some time before it waits. */
  datatype TransferWorker =
    | Draining | Holding(key: Key) | Transferring(key: Key) | Reporting(key: Key)
    | Emptied | Waiting | TransferStopped

  /** `unsent` counts the producers that have inserted a row but not notified yet; a notification that
      finds nobody waiting is kept as the one permit. */
  datatype Channel = Channel(unsent: nat, permit: bool)

  datatype State = State(
    table: Table, clock: nat, cancelled: bool,
    storage: StorageWorker, transfer: TransferWorker,
    cleanups: Channel, transfers: Channel)

  datatype Action =
    | Time(clock: nat) | CancelAll | Crash(clock: nat)
    | RequestDelete(job: Job) | RequestTransfer(job: Job) | RefuseDelete | RefuseTransfer
    | NotifyStorage | NotifyTransfer
    | TakeDelete(out: Option<nat>) | RecordDelete(result: JobStatus) | AnswerDelete
    | TakeCleanUp(out: Option<nat>) | CleanUpDone | CleanUpFailed
    | LookForDeletes | LookForSchedule(at: Option<int>) | FindDeadline | WaitStorage | WakeStorage | StorageFails
    | TakeTransfer(out: Option<nat>) | CheckCancel | QueueCleanUp(job: Job) | RecordTransfer(result: JobStatus)
    | AnswerTransfer | DropTransfer | WaitTransfer | StopTransfer | TransferFails

  predicate IsDelete(j: Job) {
    j.key.jobType.FileStorage? && j.key.tag == DELETE
  }

  predicate HasDelete(t: Table) {
    exists c <- t.rows :: IsDelete(t.rows[c])
  }

  predicate DeleteJob(j: Job) {
    IsDelete(j) && j.status.Pending? && j.scheduleAt.None?
  }

  predicate CleanUpJob(j: Job) {
    j.key.jobType.FileStorage? && j.key.tag == CLEAN_UP && j.status.Pending? && j.scheduleAt.Some?
  }

  predicate TransferJob(j: Job) {
    j.key.jobType.FileTransfer? && j.status.Pending? && j.scheduleAt.None?
  }

  predicate Result(s: JobStatus) {
    s.Done? || s.Error?
  }

  function Unsent(c: Channel): Channel {
    c.(unsent := c.unsent + 1)
  }

  /** What the storage worker does about the earliest schedule it read. */
  function Deadline(s: State, first: Option<int>): StorageWorker {
    if first.None? then Retiring(None)
    else
      match TryFrom(first.value)
      case None => StorageStopped
      case Some(u) =>
        match WaitUntil(u, s.clock)
        case None => Deletes
        case Some(wake) => Retiring(Some(wake))
  }

  ghost predicate Step(s: State, a: Action, t: State) {
    match a
    // The world
    case Time(clock) => s.clock <= clock && t == s.(clock := clock)
    case CancelAll => t == s.(cancelled := true)
    case Crash(clock) =>
      && s.clock <= clock
      && t == State(Reset(s.table), clock, false, Deletes, Draining, Channel(0, false), Channel(0, false))
    // The producers: insert, then notify
    case RequestDelete(j) =>
      DeleteJob(j) && t == s.(table := Insert(s.table, j), cleanups := Unsent(s.cleanups))
    case RequestTransfer(j) =>
      TransferJob(j) && t == s.(table := Insert(s.table, j), transfers := Unsent(s.transfers))
    case RefuseDelete => t == s.(cleanups := Unsent(s.cleanups))
    case RefuseTransfer => t == s.(transfers := Unsent(s.transfers))
    case NotifyStorage =>
      && s.cleanups.unsent > 0
      && t == if s.storage.Sleeping?
              then s.(storage := Deletes, cleanups := s.cleanups.(unsent := s.cleanups.unsent - 1))
              else s.(cleanups := Channel(s.cleanups.unsent - 1, true))
    case NotifyTransfer =>
      && s.transfers.unsent > 0
      && t == if s.transfer.Waiting? && !s.cancelled
              then s.(transfer := Draining, transfers := s.transfers.(unsent := s.transfers.unsent - 1))
              else s.(transfers := Channel(s.transfers.unsent - 1, true))
    // The storage worker
    case TakeDelete(out) =>
      && s.storage.Deletes?
      && if s.cancelled then t == s.(storage := CleanUps)
         else
           && Takes(s.table, NextOfTag(FileStorage, DELETE), out, t.table)
           && t == s.(table := t.table,
                      storage := if out.None? then CleanUps else Deleting(s.table.rows[out.value].key))
    case RecordDelete(result) =>
      && s.storage.Deleting? && Result(result)
      && t == s.(table := Update(s.table, s.storage.deleted, result), storage := Recorded(s.storage.deleted))
    case AnswerDelete =>
      s.storage.Recorded? && t == s.(table := Delete(s.table, s.storage.deleted), storage := Deletes)
    case TakeCleanUp(out) =>
      && s.storage.CleanUps? && At(s.clock).Some?
      && if s.cancelled then t == s.(storage := Checking)
         else
           && Takes(s.table, NextScheduled(FileStorage, At(s.clock).value), out, t.table)
           && t == s.(table := t.table,
                      storage := if out.None? then Checking
                                 else CleaningUp(Key(s.table.rows[out.value].key.id, FileStorage, CLEAN_UP)))
    case CleanUpDone =>
      s.storage.CleaningUp? && t == s.(table := Delete(s.table, s.storage.cleaned), storage := CleanUps)
    case CleanUpFailed =>
      s.storage.CleaningUp? && t == s.(storage := CleanUps)
    case LookForDeletes =>
      && s.storage.Checking?
      && t == s.(storage := if s.cancelled then StorageStopped else if HasDelete(s.table) then Deletes else Scheduling)
    case LookForSchedule(at) =>
      s.storage.Scheduling? && Earliest(s.table, FileStorage, at) && t == s.(storage := Timing(at))
    case FindDeadline =>
      s.storage.Timing? && t == s.(storage := Deadline(s, s.storage.first))
    case WaitStorage =>
      && s.storage.Retiring?
      && t == if s.cleanups.permit then s.(storage := Deletes, cleanups := s.cleanups.(permit := false))
              else s.(storage := Sleeping(s.storage.deadline))
    case WakeStorage =>
      && (s.storage.Retiring? || s.storage.Sleeping?)
      && (s.cancelled || (s.storage.deadline.Some? && s.storage.deadline.value <= s.clock))
      && t == s.(storage := if s.cancelled then StorageStopped else Deletes)
    case StorageFails => t == s.(storage := StorageStopped)
    // The transfer worker
    case TakeTransfer(out) =>
      && s.transfer.Draining?
      && Takes(s.table, NextOfType(FileTransfer), out, t.table)
      && t == s.(table := t.table,
                 transfer := if out.None? then Emptied else Holding(s.table.rows[out.value].key))
    case CheckCancel =>
      s.transfer.Holding? && t == s.(transfer := if s.cancelled then Emptied else Transferring(s.transfer.key))
    case QueueCleanUp(j) =>
      && s.transfer.Transferring? && CleanUpJob(j)
      && t == if HasKey(s.table, j.key) then s
              else s.(table := Insert(s.table, j), cleanups := Unsent(s.cleanups))
    case RecordTransfer(result) =>
      && s.transfer.Transferring? && Result(result)
      && t == s.(table := Update(s.table, s.transfer.key, result), transfer := Reporting(s.transfer.key))
    case AnswerTransfer =>
      s.transfer.Reporting? && t == s.(table := Delete(s.table, s.transfer.key), transfer := Draining)
    case DropTransfer =>
      (s.transfer.Transferring? || s.transfer.Reporting?) && t == s.(transfer := Draining)
    case WaitTransfer =>
      && s.transfer.Emptied? && !s.cancelled
      && t == if s.transfers.permit then s.(transfer := Draining, transfers := s.transfers.(permit := false))
              else s.(transfer := Waiting)
    case StopTransfer =>
      (s.transfer.Emptied? || s.transfer.Waiting?) && s.cancelled && t == s.(transfer := TransferStopped)
    case TransferFails => t == s.(transfer := TransferStopped)
  }

  ghost predicate Initial(s: State) {
    && WellFormed(s.table) && !s.cancelled
    && s.storage.Deletes? && s.transfer.Draining? && s.cleanups == s.transfers == Channel(0, false)
  }

  ghost predicate Execution(states: seq<State>, actions: seq<Action>) {
    && |states| == |actions| + 1 && Initial(states[0])
    && forall i | 0 <= i < |actions| :: Step(states[i], actions[i], states[i + 1])
  }

  // ----- No lost wake-up -----

  predicate Announced(c: Channel) {
    c.unsent > 0 || c.permit
  }

  /** No pending scheduled row is due before the instant the worker sleeps until. */
  ghost predicate NothingBefore(t: Table, deadline: Option<nat>) {
    forall c <- t.rows | Scheduled(FileStorage, t.rows[c]) ::
      deadline.Some? && deadline.value <= t.rows[c].scheduleAt.value * SECOND
  }

  ghost predicate NothingToTransfer(t: Table) {
    forall c <- t.rows :: !Selects(NextOfType(FileTransfer), t.rows[c])
  }

  /** No pending scheduled row is due before the schedule the worker has read. */
  ghost predicate NothingEarlier(t: Table, first: Option<int>) {
    forall c <- t.rows | Scheduled(FileStorage, t.rows[c]) :: first.Some? && first.value <= t.rows[c].scheduleAt.value
  }

  /** The storage worker has seen that there is no deletion, and does not look again before it is woken. */
  predicate PastDeletes(w: StorageWorker) {
    w.Scheduling? || w.Timing? || w.Retiring? || w.Sleeping?
  }

  /** The keys a worker holds belong to its own jobs. */
  predicate OwnKeys(s: State) {
    && (s.storage.Deleting? || s.storage.Recorded? ==>
          s.storage.deleted.jobType.FileStorage? && s.storage.deleted.tag == DELETE)
    && (s.storage.CleaningUp? ==> s.storage.cleaned.jobType.FileStorage? && s.storage.cleaned.tag == CLEAN_UP)
    && (s.transfer.Holding? || s.transfer.Transferring? || s.transfer.Reporting? ==>
          s.transfer.key.jobType.FileTransfer?)
  }

  ghost predicate Sound(s: State) {
    && WellFormed(s.table) && OwnKeys(s)
    && (PastDeletes(s.storage) ==> !HasDelete(s.table) || Announced(s.cleanups))
    && (s.storage.Timing? ==> NothingEarlier(s.table, s.storage.first) || Announced(s.cleanups))
    && (s.storage.Retiring? || s.storage.Sleeping? ==>
          NothingBefore(s.table, s.storage.deadline) || Announced(s.cleanups))
    && ((s.transfer.Emptied? || s.transfer.Waiting?) && !s.cancelled ==>
          NothingToTransfer(s.table) || Announced(s.transfers))
  }

  /** The operation on the table that an action makes. */
  function Operation(s: State, a: Action): Option<JobQueue.Action> {
    match a
    case Crash(_) => Some(Restart)
    case RequestDelete(j) => Some(Inserted(j))
    case RequestTransfer(j) => Some(Inserted(j))
    case QueueCleanUp(j) => Some(Inserted(j))
    case TakeDelete(out) => if s.cancelled then None else Some(Took(NextOfTag(FileStorage, DELETE), out))
    case TakeCleanUp(out) =>
      if s.cancelled || At(s.clock).None? then None else Some(Took(NextScheduled(FileStorage, At(s.clock).value), out))
    case TakeTransfer(out) => Some(Took(NextOfType(FileTransfer), out))
    case RecordDelete(result) => if s.storage.Deleting? then Some(Updated(s.storage.deleted, result)) else None
    case RecordTransfer(result) => if s.transfer.Transferring? then Some(Updated(s.transfer.key, result)) else None
    case AnswerDelete => if s.storage.Recorded? then Some(Deleted(s.storage.deleted)) else None
    case CleanUpDone => if s.storage.CleaningUp? then Some(Deleted(s.storage.cleaned)) else None
    case AnswerTransfer => if s.transfer.Reporting? then Some(Deleted(s.transfer.key)) else None
    case _ => None
  }

  /** The workers use the table through its operations only. */
  lemma StepsAreOperations(s: State, a: Action, t: State)
    requires Step(s, a, t)
    ensures match Operation(s, a) case None => t.table == s.table case Some(op) => JobQueue.Step(s.table, op, t.table)
  {
  }

  /** Only an insertion or a restart can make a row pending or add one. */
  lemma NothingNew(t: Table, op: JobQueue.Action, u: Table, c: nat)
    requires WellFormed(t) && JobQueue.Step(t, op, u) && c in u.rows
    requires !op.Restart? && (op.Updated? ==> Result(op.status))
    ensures (c in t.rows && u.rows[c] == t.rows[c].(status := u.rows[c].status) &&
             (u.rows[c].status.Pending? ==> t.rows[c].status.Pending?)) ||
            (op.Inserted? && u.rows[c] == op.job)
  {
    if c in t.rows {
      RowStep(t, op, u, c);
    }
  }

  lemma OnlyRequestsAddWork(s: State, a: Action, t: State)
    requires Sound(s) && Step(s, a, t) && !a.Crash?
    ensures !a.RequestDelete? && HasDelete(t.table) ==> HasDelete(s.table)
    ensures !a.QueueCleanUp? ==> forall c <- t.table.rows | Scheduled(FileStorage, t.table.rows[c]) ::
              c in s.table.rows && Scheduled(FileStorage, s.table.rows[c]) &&
              t.table.rows[c].scheduleAt == s.table.rows[c].scheduleAt
    ensures !a.RequestTransfer? && NothingToTransfer(s.table) ==> NothingToTransfer(t.table)
  {
    StepsAreOperations(s, a, t);
    forall c <- t.table.rows
      ensures (c in s.table.rows && t.table.rows[c] == s.table.rows[c].(status := t.table.rows[c].status) &&
               (t.table.rows[c].status.Pending? ==> s.table.rows[c].status.Pending?)) ||
              (a.RequestDelete? && t.table.rows[c] == a.job) || (a.QueueCleanUp? && t.table.rows[c] == a.job) ||
              (a.RequestTransfer? && t.table.rows[c] == a.job)
    {
      if Operation(s, a).Some? {
        NothingNew(s.table, Operation(s, a).value, t.table, c);
      }
    }
  }

  lemma TableStaysSound(s: State, a: Action, t: State)
    requires Sound(s) && Step(s, a, t)
    ensures WellFormed(t.table) && OwnKeys(t)
  {
    StepsAreOperations(s, a, t);
    if Operation(s, a).Some? {
      StepKeepsWellFormed(s.table, Operation(s, a).value, t.table);
    }
  }

  lemma DeletesStayAnnounced(s: State, a: Action, t: State)
    requires Sound(s) && Step(s, a, t)
    ensures PastDeletes(t.storage) ==> !HasDelete(t.table) || Announced(t.cleanups)
  {
    hide HasDelete, NothingToTransfer, NothingBefore, NothingEarlier, Takes, Insert, Update, Delete, Reset;
    if !a.Crash? {
      OnlyRequestsAddWork(s, a, t);
    }
  }

  lemma ReadSchedulesStayAnnounced(s: State, a: Action, t: State)
    requires Sound(s) && Step(s, a, t)
    ensures t.storage.Timing? ==> NothingEarlier(t.table, t.storage.first) || Announced(t.cleanups)
  {
    hide HasDelete, NothingToTransfer, NothingBefore, Takes, Insert, Update, Delete, Reset;
    if !a.Crash? {
      OnlyRequestsAddWork(s, a, t);
    }
  }

  lemma DeadlinesStayAnnounced(s: State, a: Action, t: State)
    requires Sound(s) && Step(s, a, t)
    ensures t.storage.Retiring? || t.storage.Sleeping? ==>
              NothingBefore(t.table, t.storage.deadline) || Announced(t.cleanups)
  {
    hide HasDelete, NothingToTransfer, Takes, Insert, Update, Delete, Reset;
    if !a.Crash? {
      OnlyRequestsAddWork(s, a, t);
    }
  }

  lemma TransferStaysSound(s: State, a: Action, t: State)
    requires Sound(s) && Step(s, a, t)
    ensures (t.transfer.Emptied? || t.transfer.Waiting?) && !t.cancelled ==>
              NothingToTransfer(t.table) || Announced(t.transfers)
  {
    hide Insert, Update, Delete, Reset, NothingBefore, NothingEarlier;
    if a.TakeTransfer? || a.Crash? {
      hide Sound;
    } else {
      hide Takes;
      OnlyRequestsAddWork(s, a, t);
    }
  }

  lemma {:induction false} AlwaysSound(states: seq<State>, actions: seq<Action>, j: nat)
    requires Execution(states, actions) && j < |states|
    ensures Sound(states[j])
    decreases j
  {
    if j > 0 {
      AlwaysSound(states, actions, j - 1);
      hide Step, Sound;
      StepIsSound(states[j - 1], actions[j - 1], states[j]);
    }
  }

  lemma StepIsSound(s: State, a: Action, t: State)
    requires Sound(s) && Step(s, a, t)
    ensures Sound(t)
  {
    TableStaysSound(s, a, t);
    DeletesStayAnnounced(s, a, t);
    ReadSchedulesStayAnnounced(s, a, t);
    DeadlinesStayAnnounced(s, a, t);
    TransferStaysSound(s, a, t);
    hide Step;
  }

  /** No wake-up is lost, in any interleaving and over any crashes: when the storage worker sleeps and no
      notification is stored or under way, there is no row to delete, and nothing is due before the
      instant it sleeps until; when the transfer worker waits, no transfer is pending. */
  lemma NoLostWakeUp(states: seq<State>, actions: seq<Action>, j: nat)
    requires Execution(states, actions) && j < |states|
    ensures var s := states[j];
      && (s.storage.Sleeping? && s.cleanups == Channel(0, false) ==>
           !HasDelete(s.table) && NothingBefore(s.table, s.storage.deadline))
      && (s.transfer.Waiting? && !s.cancelled && s.transfers == Channel(0, false) ==> NothingToTransfer(s.table))
  {
    AlwaysSound(states, actions, j);
  }

  /** The worker that has read a schedule looks again at once if it is over, and else sleeps until then; it sleeps
      for a notification alone if nothing is scheduled, and stops if the schedule is not a moment in time. */
  lemma SleepsUntilTheSchedule(s: State, t: State)
    requires s.storage.Timing? && Step(s, FindDeadline, t)
    ensures match s.storage.first
      case None => t.storage == Retiring(None)
      case Some(at) =>
        t.storage == if at < 0 || at >= 0x7fff_ffff_ffff_ffff then StorageStopped
                     else if at * 1_000_000_000 < s.clock then Deletes
                     else Retiring(Some(at * 1_000_000_000))
  {
  }

  // ----- A deletion that was recorded but not answered -----

  /** The result of a deletion was recorded, nobody handles it any more, and its row is still there. */
  predicate Stale(s: State, c: nat) {
    && c in s.table.rows && IsDelete(s.table.rows[c]) && Result(s.table.rows[c].status)
    && (s.storage.Deleting? || s.storage.Recorded? ==> s.storage.deleted != s.table.rows[c].key)
    && !PastDeletes(s.storage)
  }

  lemma StaysStale(s: State, a: Action, t: State, c: nat)
    requires Sound(s) && Step(s, a, t) && Stale(s, c)
    ensures Stale(t, c)
  {
    StepsAreOperations(s, a, t);
    if Operation(s, a).Some? {
      var op := Operation(s, a).value;
      RowStep(s.table, op, t.table, c);
      if op.Took? && op.out.Some? {
        assert s.table.rows[op.out.value].status.Pending?;
      }
    }
  }

  /** Such a row is never removed, and while it is there the storage worker never sleeps again, whatever
      happens and however often the device restarts. */
  lemma {:induction false} StaleDeleteKeepsWorkerAwake(states: seq<State>, actions: seq<Action>, i: nat, j: nat, c: nat)
    requires Execution(states, actions) && i <= j < |states| && Stale(states[i], c)
    ensures Stale(states[j], c)
    decreases j
  {
    hide Stale, Step, Sound;
    if i < j {
      StaleDeleteKeepsWorkerAwake(states, actions, i, j - 1, c);
      AlwaysSound(states, actions, j - 1);
      StaysStale(states[j - 1], actions[j - 1], states[j], c);
    }
  }

  /** With nothing else to do, the worker goes round without waiting for anything. */
  lemma StaleDeleteSpins(s: State, c: nat)
    requires Stale(s, c) && s.storage.Deletes? && !s.cancelled && At(s.clock).Some?
    requires forall d <- s.table.rows :: !Selects(NextOfTag(FileStorage, DELETE), s.table.rows[d])
    requires forall d <- s.table.rows :: !Selects(NextScheduled(FileStorage, At(s.clock).value), s.table.rows[d])
    ensures Step(s, TakeDelete(None), s.(storage := CleanUps))
    ensures Step(s.(storage := CleanUps), TakeCleanUp(None), s.(storage := Checking))
    ensures Step(s.(storage := Checking), LookForDeletes, s)
  {
  }

  /** The result of a deletion is recorded, and the worker ends or the device goes down before the row is
      removed. */
  predicate Abandons(s: State, a: Action) {
    s.storage.Recorded? && (a.StorageFails? || a.Crash?)
  }

  predicate FinishedDelete(j: Job) {
    IsDelete(j) && Result(j.status)
  }

  /** The row the worker is deleting is there, and once its result is recorded it has it. */
  ghost predicate DeletionUnderway(s: State) {
    s.storage.Deleting? || s.storage.Recorded? ==>
      exists c <- s.table.rows :: s.table.rows[c].key == s.storage.deleted &&
        (s.storage.Recorded? ==> Result(s.table.rows[c].status))
  }

  /** Every finished deletion is the one that is being answered. */
  ghost predicate NothingAbandoned(s: State) {
    forall c <- s.table.rows | FinishedDelete(s.table.rows[c]) ::
      s.storage.Recorded? && s.storage.deleted == s.table.rows[c].key
  }

  lemma StaysUnderway(s: State, a: Action, t: State)
    requires Sound(s) && DeletionUnderway(s) && Step(s, a, t)
    ensures DeletionUnderway(t)
  {
    StepsAreOperations(s, a, t);
    if (t.storage.Deleting? || t.storage.Recorded?) && !a.TakeDelete? {
      var c :| c in s.table.rows && s.table.rows[c].key == s.storage.deleted &&
        (s.storage.Recorded? ==> Result(s.table.rows[c].status));
      if Operation(s, a).Some? {
        RowStep(s.table, Operation(s, a).value, t.table, c);
      }
      assert c in t.table.rows && t.table.rows[c].key == t.storage.deleted;
    } else if a.TakeDelete? && t.storage.Deleting? {
      assert a.out.value in t.table.rows && t.table.rows[a.out.value].key == t.storage.deleted;
    }
  }

  lemma AbandonedIsStale(s: State, a: Action, t: State) returns (c: nat)
    requires Sound(s) && DeletionUnderway(s) && Step(s, a, t) && Abandons(s, a)
    ensures Stale(t, c)
  {
    c :| c in s.table.rows && s.table.rows[c].key == s.storage.deleted && Result(s.table.rows[c].status);
  }

  /** How a deletion comes to be finished. */
  lemma FinishedByRecording(s: State, a: Action, t: State, c: nat)
    requires Sound(s) && Step(s, a, t) && c in t.table.rows && FinishedDelete(t.table.rows[c])
    ensures c in s.table.rows && s.table.rows[c].key == t.table.rows[c].key
    ensures FinishedDelete(s.table.rows[c]) ||
            (a.RecordDelete? && s.storage.Deleting? && t.table.rows[c].key == s.storage.deleted)
    ensures a.AnswerDelete? ==> t.table.rows[c].key != s.storage.deleted
  {
    StepsAreOperations(s, a, t);
    if Operation(s, a).Some? && c in s.table.rows {
      RowStep(s.table, Operation(s, a).value, t.table, c);
    }
  }

  lemma StaysUnabandoned(s: State, a: Action, t: State)
    requires Sound(s) && NothingAbandoned(s) && Step(s, a, t) && !Abandons(s, a)
    ensures NothingAbandoned(t)
  {
    forall c <- t.table.rows | FinishedDelete(t.table.rows[c])
      ensures t.storage.Recorded? && t.storage.deleted == t.table.rows[c].key
    {
      FinishedByRecording(s, a, t, c);
    }
  }

  lemma {:induction false} AlwaysUnderway(states: seq<State>, actions: seq<Action>, j: nat)
    requires Execution(states, actions) && j < |states|
    ensures DeletionUnderway(states[j])
    decreases j
  {
    if j > 0 {
      AlwaysUnderway(states, actions, j - 1);
      AlwaysSound(states, actions, j - 1);
      hide Step, Sound, DeletionUnderway;
      StaysUnderway(states[j - 1], actions[j - 1], states[j]);
    }
  }

  lemma {:induction false} NothingAbandonedYet(states: seq<State>, actions: seq<Action>, j: nat)
    requires Execution(states, actions) && j < |states|
    requires forall c <- states[0].table.rows :: !FinishedDelete(states[0].table.rows[c])
    requires forall k | 0 <= k < j :: !Abandons(states[k], actions[k])
    ensures NothingAbandoned(states[j])
    decreases j
  {
    if j > 0 {
      NothingAbandonedYet(states, actions, j - 1);
      AlwaysSound(states, actions, j - 1);
      hide Step, Sound, NothingAbandoned;
      StaysUnabandoned(states[j - 1], actions[j - 1], states[j]);
    }
  }

  /** A finished deletion is left behind, for ever, if and only if the table started with one, or the worker
      ended or the device went down while the result of a deletion was recorded and its row not yet removed. */
  lemma StaleExactlyWhenAbandoned(states: seq<State>, actions: seq<Action>, j: nat)
    requires Execution(states, actions) && j < |states|
    ensures (exists c :: Stale(states[j], c)) <==>
            ((exists c <- states[0].table.rows :: FinishedDelete(states[0].table.rows[c])) ||
             (exists k | 0 <= k < j :: Abandons(states[k], actions[k])))
  {
    if exists c <- states[0].table.rows :: FinishedDelete(states[0].table.rows[c]) {
      var c :| c in states[0].table.rows && FinishedDelete(states[0].table.rows[c]);
      StaleDeleteKeepsWorkerAwake(states, actions, 0, j, c);
    } else if exists k | 0 <= k < j :: Abandons(states[k], actions[k]) {
      var k :| 0 <= k < j && Abandons(states[k], actions[k]);
      AlwaysSound(states, actions, k);
      AlwaysUnderway(states, actions, k);
      var c := AbandonedIsStale(states[k], actions[k], states[k + 1]);
      StaleDeleteKeepsWorkerAwake(states, actions, k + 1, j, c);
    } else {
      NothingAbandonedYet(states, actions, j);
    }
  }

  function OneRow(j: Job, status: JobStatus): Table {
    Table(map[0 := j.(status := status)], 1)
  }

  lemma OneRowSteps(j: Job)
    requires DeleteJob(j)
    ensures Insert(Table(map[], 0), j) == OneRow(j, Pending)
    ensures Takes(OneRow(j, Pending), NextOfTag(FileStorage, DELETE), Some(0), OneRow(j, InProgress))
    ensures Update(OneRow(j, InProgress), j.key, Done) == OneRow(j, Done) == Reset(OneRow(j, Done))
  {
    assert j.(status := Pending) == j;
    assert Insert(Table(map[], 0), j).rows == map[0 := j];
    var t := OneRow(j, Pending);
    assert WithStatus(t, 0, InProgress).rows == OneRow(j, InProgress).rows;
    assert Update(OneRow(j, InProgress), j.key, Done).rows == OneRow(j, Done).rows;
    assert Reset(OneRow(j, Done)).rows == OneRow(j, Done).rows;
  }

  /** From an empty table it takes one requested deletion, and a power cut before its row is removed. */
  lemma PowerCutLeavesStaleDelete(j: Job, clock: nat)
    requires DeleteJob(j)
    ensures exists states: seq<State>, actions: seq<Action> ::
      Execution(states, actions) && states[0].table == Table(map[], 0) && Stale(states[|actions|], 0)
  {
    OneRowSteps(j);
    hide Insert, Takes, Update, Reset;
    var quiet := Channel(0, false);
    var s0 := State(Table(map[], 0), clock, false, Deletes, Draining, quiet, quiet);
    var s1 := s0.(table := OneRow(j, Pending), cleanups := Unsent(quiet));
    var s2 := s1.(table := OneRow(j, InProgress), storage := Deleting(j.key));
    var s3 := s2.(table := OneRow(j, Done), storage := Recorded(j.key));
    var s4 := State(OneRow(j, Done), clock, false, Deletes, Draining, quiet, quiet);
    var states := [s0, s1, s2, s3, s4];
    var actions := [RequestDelete(j), TakeDelete(Some(0)), RecordDelete(Done), Crash(clock)];
    assert Step(s0, actions[0], s1) && Step(s1, actions[1], s2) && Step(s2, actions[2], s3) && Step(s3, actions[3], s4);
    assert Stale(s4, 0);
    hide Step, Stale;
    assert Execution(states, actions);
  }

  // ----- Hand-outs -----

  predicate HandsOutRow(s: State, a: Action, c: nat) {
    match Operation(s, a)
    case Some(op) => HandsOut(op, c)
    case None => false
  }

  /** Row `c` is not there to be taken, now or later. */
  predicate Gone(s: State, c: nat) {
    c < s.table.clock && (c in s.table.rows ==> !s.table.rows[c].status.Pending?)
  }

  lemma TakenIsGone(s: State, a: Action, t: State, c: nat)
    requires Sound(s) && Step(s, a, t) && HandsOutRow(s, a, c)
    ensures c in s.table.rows && s.table.rows[c].status.Pending? && Gone(t, c)
  {
    StepsAreOperations(s, a, t);
  }

  lemma StaysGone(s: State, a: Action, t: State, c: nat)
    requires Sound(s) && Step(s, a, t) && Gone(s, c) && !a.Crash?
    ensures Gone(t, c)
  {
    StepsAreOperations(s, a, t);
    if Operation(s, a).Some? {
      var op := Operation(s, a).value;
      StepKeepsWellFormed(s.table, op, t.table);
      if c in t.table.rows {
        NothingNew(s.table, op, t.table, c);
      }
    }
  }

  lemma {:induction false} GoneUntilCrash(states: seq<State>, actions: seq<Action>, i: nat, j: nat, c: nat)
    requires Execution(states, actions) && i <= j < |states| && Gone(states[i], c)
    requires forall k | i <= k < j :: !actions[k].Crash?
    ensures Gone(states[j], c)
    decreases j
  {
    if i < j {
      GoneUntilCrash(states, actions, i, j - 1, c);
      AlwaysSound(states, actions, j - 1);
      hide Step, Sound, Gone;
      StaysGone(states[j - 1], actions[j - 1], states[j], c);
    }
  }

  /** The workers never take the same row twice, unless the device was restarted between. */
  lemma TakenTwiceOnlyOverACrash(states: seq<State>, actions: seq<Action>, i: nat, j: nat, c: nat)
    requires Execution(states, actions) && i < j < |actions|
    requires HandsOutRow(states[i], actions[i], c) && HandsOutRow(states[j], actions[j], c)
    ensures exists k | i < k < j :: actions[k].Crash?
  {
    AlwaysSound(states, actions, i);
    AlwaysSound(states, actions, j);
    TakenIsGone(states[i], actions[i], states[i + 1], c);
    TakenIsGone(states[j], actions[j], states[j + 1], c);
    if forall k | i < k < j :: !actions[k].Crash? {
      GoneUntilCrash(states, actions, i + 1, j, c);
      assert false;
    }
  }

  // ----- The order of the transfers -----

  /** What the transfer worker holds is in the table, and not pending. */
  ghost predicate TransferUnderway(s: State) {
    s.transfer.Holding? || s.transfer.Transferring? || s.transfer.Reporting? ==>
      exists c <- s.table.rows :: s.table.rows[c].key == s.transfer.key && !s.table.rows[c].status.Pending?
  }

  lemma StaysTransferring(s: State, a: Action, t: State)
    requires Sound(s) && TransferUnderway(s) && Step(s, a, t)
    ensures TransferUnderway(t)
  {
    StepsAreOperations(s, a, t);
    if a.TakeTransfer? {
      if t.transfer.Holding? {
        var c := a.out.value;
        assert c in t.table.rows && t.table.rows[c].key == t.transfer.key && !t.table.rows[c].status.Pending?;
      }
    } else if t.transfer.Holding? || t.transfer.Transferring? || t.transfer.Reporting? {
      var c :| c in s.table.rows && s.table.rows[c].key == s.transfer.key && !s.table.rows[c].status.Pending?;
      if Operation(s, a).Some? {
        RowStep(s.table, Operation(s, a).value, t.table, c);
      }
      assert c in t.table.rows && t.table.rows[c].key == t.transfer.key && !t.table.rows[c].status.Pending?;
    }
  }

  lemma {:induction false} AlwaysTransferring(states: seq<State>, actions: seq<Action>, j: nat)
    requires Execution(states, actions) && j < |states|
    ensures TransferUnderway(states[j])
    decreases j
  {
    if j > 0 {
      AlwaysTransferring(states, actions, j - 1);
      AlwaysSound(states, actions, j - 1);
      hide Step, Sound, TransferUnderway;
      StaysTransferring(states[j - 1], actions[j - 1], states[j]);
    }
  }

  predicate PendingTransfer(s: State, c: nat) {
    c in s.table.rows && s.table.rows[c].status.Pending? && s.table.rows[c].key.jobType.FileTransfer?
  }

  /** A pending transfer stays pending until it is taken. */
  lemma StaysPending(s: State, a: Action, t: State, c: nat)
    requires Sound(s) && TransferUnderway(s) && Step(s, a, t) && PendingTransfer(s, c) && a != TakeTransfer(Some(c))
    ensures PendingTransfer(t, c)
  {
    StepsAreOperations(s, a, t);
    if s.transfer.Holding? || s.transfer.Transferring? || s.transfer.Reporting? {
      var d :| d in s.table.rows && s.table.rows[d].key == s.transfer.key && !s.table.rows[d].status.Pending?;
      assert d != c && s.table.rows[c].key != s.transfer.key;
    }
    if Operation(s, a).Some? {
      RowStep(s.table, Operation(s, a).value, t.table, c);
    }
  }

  lemma {:induction false} PendingUntilTaken(states: seq<State>, actions: seq<Action>, i: nat, j: nat, c: nat)
    requires Execution(states, actions) && i <= j < |states| && PendingTransfer(states[i], c)
    requires forall k | i <= k < j :: actions[k] != TakeTransfer(Some(c))
    ensures PendingTransfer(states[j], c)
    decreases j
  {
    if i < j {
      PendingUntilTaken(states, actions, i, j - 1, c);
      AlwaysSound(states, actions, j - 1);
      AlwaysTransferring(states, actions, j - 1);
      hide Sound, TransferUnderway, PendingTransfer, Step;
      StaysPending(states[j - 1], actions[j - 1], states[j], c);
    }
  }

  /** The table's clock never goes back, and a new row is not older than the clock. */
  lemma {:induction false} CreatedLater(states: seq<State>, actions: seq<Action>, g: nat, i: nat, d: nat)
    requires Execution(states, actions) && g <= i < |states|
    ensures states[g].table.clock <= states[i].table.clock
    ensures d in states[i].table.rows && d !in states[g].table.rows ==> d >= states[g].table.clock
    decreases i
  {
    if g < i {
      CreatedLater(states, actions, g, i - 1, d);
      AlwaysSound(states, actions, i - 1);
      var s, a, t := states[i - 1], actions[i - 1], states[i];
      assert Step(s, a, t);
      NewRowsAreLater(s, a, t, d);
    }
  }

  lemma NewRowsAreLater(s: State, a: Action, t: State, d: nat)
    requires Sound(s) && Step(s, a, t)
    ensures s.table.clock <= t.table.clock
    ensures d in t.table.rows && d !in s.table.rows ==> d >= s.table.clock
  {
    StepsAreOperations(s, a, t);
    if Operation(s, a).Some? {
      StepKeepsWellFormed(s.table, Operation(s, a).value, t.table);
    }
  }

  lemma OlderIsTakenFirst(s: State, t: State, c: nat, d: nat)
    requires PendingTransfer(s, c) && c < d
    ensures !Step(s, TakeTransfer(Some(d)), t)
  {
  }

  /** First come, first served, over any crashes: of two transfers that are pending at the same time, the one whose
      row was there before the other's is taken before it. */
  lemma FirstTransferIsTakenFirst(states: seq<State>, actions: seq<Action>, g: nat, i: nat, j: nat, c: nat, d: nat)
    requires Execution(states, actions) && g <= i <= j < |actions|
    requires c in states[g].table.rows && d !in states[g].table.rows
    requires PendingTransfer(states[i], c) && PendingTransfer(states[i], d)
    requires actions[j] == TakeTransfer(Some(d))
    ensures exists k | i <= k < j :: actions[k] == TakeTransfer(Some(c))
  {
    AlwaysSound(states, actions, g);
    CreatedLater(states, actions, g, i, d);
    assert c < d;
    if forall k | i <= k < j :: actions[k] != TakeTransfer(Some(c)) {
      PendingUntilTaken(states, actions, i, j, c);
      OlderIsTakenFirst(states[j], states[j + 1], c, d);
      assert false;
    }
  }
}
