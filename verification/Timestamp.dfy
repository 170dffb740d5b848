/** Timestamps of scheduled jobs: whole seconds, compared with a clock that is finer than that. */
module Timestamps {
  import opened Wrappers
  import opened JobQueue

  const I64_MAX := 0x7fff_ffff_ffff_ffff

  const SECOND := 1_000_000_000

  /** Seconds since the epoch, small enough for a signed 64-bit column. */
  type Unix = ts: nat | ts < I64_MAX

  function New(seconds: nat): Option<Unix>
  {
    if seconds >= I64_MAX then None else Some(seconds)
  }

  /** The timestamp of a clock, given in nanoseconds since the epoch. */
  function At(clock: nat): Option<Unix> {
    New(clock / SECOND)
  }

  /** The timestamp `ttl` nanoseconds from now. */
  function WithDuration(clock: nat, ttl: nat): Option<Unix> {
    New((clock + ttl) / SECOND)
  }

  function TryFrom(value: int): Option<Unix> {
    if value < 0 then None else New(value)
  }

  /** When to wake up for the timestamp, in clock time, or nothing if it has passed. */
  function WaitUntil(u: Unix, clock: nat): Option<nat> {
    if clock <= u * SECOND then Some(u * SECOND) else None
  }

  /** A row is due by the second exactly when the wait for it is over by the nanosecond. */
  lemma DueExactlyWhenOver(u: Unix, clock: nat)
    requires At(clock).Some?
    ensures u <= At(clock).value <==> u * SECOND <= clock
    ensures WaitUntil(u, clock).Some? && WaitUntil(u, clock).value > clock ==> u > At(clock).value
    ensures WaitUntil(u, clock).None? ==> u <= At(clock).value
    ensures WaitUntil(u, clock).None? <==> u * SECOND < clock
  {
  }

  /** A column that was written is read back, and no other value is: neither a negative one nor one that the clock
      could not have had. */
  lemma ColumnIsReadBack(value: int, u: Unix)
    ensures TryFrom(value) == Some(u) <==> value == u
    ensures TryFrom(value).None? <==> value < 0 || value >= 0x7fff_ffff_ffff_ffff
    ensures At(u * SECOND) == Some(u)
  {
  }

  /** A time to live ends within the second before it is over, and never after it. */
  lemma TtlIsKeptToTheSecond(clock: nat, ttl: nat, u: Unix)
    requires WithDuration(clock, ttl) == Some(u)
    ensures u * SECOND <= clock + ttl < u * SECOND + SECOND
  {
  }

  /** Whoever waits for the earliest schedule finds a job when the wait is over, and the job it takes is
      one with that schedule; a moment earlier it would have found nothing. */
  lemma DeadlineAgrees(t: Table, jobType: JobType, first: int, u: Unix, asleep: nat, awake: nat)
    requires Earliest(t, jobType, Some(first)) && TryFrom(first) == Some(u)
    requires asleep <= awake && At(awake).Some?
    ensures var q := NextScheduled(jobType, At(awake).value);
      if WaitUntil(u, asleep).Some? && awake < WaitUntil(u, asleep).value then Takes(t, q, None, t)
      else forall out, after :: Takes(t, q, out, after) ==> out.Some? && t.rows[out.value].scheduleAt == Some(first)
  {
    var q := NextScheduled(jobType, At(awake).value);
    DueExactlyWhenOver(u, awake);
    if u * SECOND <= awake {
      var c :| c in t.rows && Scheduled(jobType, t.rows[c]) && t.rows[c].scheduleAt.value == first;
      assert Selects(q, t.rows[c]);
      forall out, after | Takes(t, q, out, after)
        ensures out.Some? && t.rows[out.value].scheduleAt == Some(first)
      {
        assert out.Some?;
        assert Selects(q, t.rows[out.value]) && Scheduled(jobType, t.rows[out.value]);
      }
    }
  }
}
