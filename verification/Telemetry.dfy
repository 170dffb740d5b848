/** The telemetry configuration: defaults and overrides, the file that keeps the overrides over a restart, and
    the tasks that have to follow them. */
module Telemetry {
  import opened Wrappers
  import opened Bytes
  import opened TelemetryInterfaces

  const DEFAULT_PERIOD: U64 := 60

  datatype Overridable<T> = Overridable(default_: T, value: Option<T>) {
    function Get(): T {
      if value.Some? then value.value else default_
    }

    function Set(v: T): Overridable<T> {
      this.(value := Some(v))
    }
  }

  datatype TaskConfig = TaskConfig(enabled: Overridable<bool>, period: Overridable<U64>) {
    /** Whether a task has to run for it. */
    predicate Active() {
      enabled.Get() && period.Get() != 0
    }

    predicate Overwritten() {
      enabled.value.Some? || period.value.Some?
    }
  }

  const UNCONFIGURED := TaskConfig(Overridable(false, None), Overridable(DEFAULT_PERIOD, None))

  /** An entry of the configuration file, or of the file of overrides. */
  datatype Entry = Entry(name: string, enabled: Option<bool>, period: Option<U64>)

  type Configs = map<Interface, TaskConfig>

  /** The configuration of an interface; one that is absent is disabled, with the default period. */
  function Of(configs: Configs, i: Interface): TaskConfig {
    if i in configs then configs[i] else UNCONFIGURED
  }

  function FromConfig(e: Entry): TaskConfig {
    TaskConfig(
      Overridable(if e.enabled.Some? then e.enabled.value else false, None),
      Overridable(if e.period.Some? then e.period.value else DEFAULT_PERIOD, None))
  }

  function FromOverride(e: Entry): Option<TaskConfig> {
    if e.enabled.None? && e.period.None? then None
    else Some(TaskConfig(Overridable(false, e.enabled), Overridable(DEFAULT_PERIOD, e.period)))
  }

  /** The configuration file: entries of unknown interfaces are skipped, and the last one of each counts. */
  function Base(entries: seq<Entry>): Configs {
    if entries == [] then map[]
    else
      var e := entries[|entries| - 1];
      var configs := Base(entries[..|entries| - 1]);
      match Parse(e.name)
      case None => configs
      case Some(i) => configs[i := FromConfig(e)]
  }

  function Override(c: TaskConfig, e: Entry): TaskConfig {
    TaskConfig(
      if e.enabled.Some? then c.enabled.Set(e.enabled.value) else c.enabled,
      if e.period.Some? then c.period.Set(e.period.value) else c.period)
  }

  function MergedOne(configs: Configs, e: Entry): Configs {
    match Parse(e.name)
    case None => configs
    case Some(i) =>
      if i in configs then configs[i := Override(configs[i], e)]
      else
        match FromOverride(e)
        case None => configs
        case Some(c) => configs[i := c]
  }

  /** The overrides that were saved, put back. */
  function Merged(configs: Configs, saved: seq<Entry>): Configs {
    if saved == [] then configs
    else MergedOne(Merged(configs, saved[..|saved| - 1]), saved[|saved| - 1])
  }

  function SavedOne(c: TaskConfig, i: Interface): Entry {
    Entry(Name(i), c.enabled.value, c.period.value)
  }

  /** What is saved, when the table is walked in this order. */
  function Saved(configs: Configs, order: seq<Interface>): seq<Entry> {
    if order == [] then []
    else
      var i := order[|order| - 1];
      var before := Saved(configs, order[..|order| - 1]);
      if Of(configs, i).Overwritten() then before + [SavedOne(Of(configs, i), i)] else before
  }

  ghost predicate Walks(order: seq<Interface>, configs: Configs) {
    && (forall i: Interface :: i in order <==> i in configs)
    && (forall m, n | 0 <= m < n < |order| :: order[m] != order[n])
  }

  // ----- Restart -----

  datatype File = Missing | Corrupted | Written(entries: seq<Entry>)

  /** What a restart makes of the configuration file and the saved overrides. */
  function Rebuilt(base: seq<Entry>, file: File): Configs {
    if file.Written? then Merged(Base(base), file.entries) else Base(base)
  }

  /** Everything a configuration can be asked for is the same: both of its overrides, and the defaults where
      there is none. */
  ghost predicate SameFor(c: TaskConfig, d: TaskConfig) {
    && c.enabled.value == d.enabled.value && c.period.value == d.period.value
    && (c.enabled.value.None? ==> c.enabled.default_ == d.enabled.default_)
    && (c.period.value.None? ==> c.period.default_ == d.period.default_)
  }

  ghost predicate RestartAgrees(base: seq<Entry>, file: File, configs: Configs) {
    forall i: Interface :: SameFor(Of(Rebuilt(base, file), i), Of(configs, i))
  }

  /** The table has grown from the configuration file, by overrides only. */
  ghost predicate Grown(base: Configs, configs: Configs) {
    && base.Keys <= configs.Keys
    && forall i: Interface ::
         && Of(configs, i).enabled.default_ == Of(base, i).enabled.default_
         && Of(configs, i).period.default_ == Of(base, i).period.default_
  }

  /** The last entry of an interface, the one at `k`, gives its defaults: disabled, and 60 seconds, where it says
      nothing. An interface without an entry is not in the table, and has these defaults too. */
  lemma {:induction false} LastEntryCounts(entries: seq<Entry>, i: Interface, k: int)
    requires -1 <= k < |entries| && (k >= 0 ==> Parse(entries[k].name) == Some(i))
    requires forall l | k < l < |entries| :: Parse(entries[l].name) != Some(i)
    ensures i in Base(entries) <==> k >= 0
    ensures Of(Base(entries), i) ==
      if k >= 0 then
        TaskConfig(Overridable(entries[k].enabled == Some(true), None),
                   Overridable(match entries[k].period case Some(p) => p case None => 60, None))
      else TaskConfig(Overridable(false, None), Overridable(60, None))
    decreases |entries|
  {
    hide Parse;
    if k < |entries| - 1 {
      LastEntryCounts(entries[..|entries| - 1], i, k);
    }
  }

  lemma {:induction false} BaseHasNoOverrides(entries: seq<Entry>)
    ensures forall i: Interface :: !Of(Base(entries), i).Overwritten()
  {
    hide Parse;
    if entries != [] {
      BaseHasNoOverrides(entries[..|entries| - 1]);
      assert !FromConfig(entries[|entries| - 1]).Overwritten();
      var before := Base(entries[..|entries| - 1]);
      forall i: Interface
        ensures !Of(Base(entries), i).Overwritten()
      {
        assert !Of(before, i).Overwritten();
      }
    }
  }

  lemma {:induction false} MergingGrows(base: Configs, saved: seq<Entry>)
    ensures Grown(base, Merged(base, saved))
  {
    if saved != [] {
      MergingGrows(base, saved[..|saved| - 1]);
    }
  }

  /** Merging one saved entry restores its interface and leaves the others alone. */
  lemma OneIsRestored(base: Configs, restored: Configs, configs: Configs, i: Interface)
    requires Grown(base, configs) && Of(restored, i) == Of(base, i) && !Of(base, i).Overwritten()
    requires Of(configs, i).Overwritten()
    ensures var after := MergedOne(restored, SavedOne(Of(configs, i), i));
      && SameFor(Of(after, i), Of(configs, i))
      && forall j: Interface | j != i :: Of(after, j) == Of(restored, j)
  {
    NameIsParsed(i);
    hide Parse, Name;
  }

  /** What was saved so far is restored, and the rest is as in the configuration file. */
  lemma {:induction false} RestoredSoFar(base: Configs, configs: Configs, order: seq<Interface>)
    requires Grown(base, configs) && forall i: Interface :: !Of(base, i).Overwritten()
    requires forall m, n | 0 <= m < n < |order| :: order[m] != order[n]
    ensures forall i: Interface ::
      var restored := Of(Merged(base, Saved(configs, order)), i);
      if i in order then SameFor(restored, Of(configs, i)) else restored == Of(base, i)
  {
    if order != [] {
      var i := order[|order| - 1];
      var rest := order[..|order| - 1];
      RestoredSoFar(base, configs, rest);
      assert order == rest + [i];
      var saved := Saved(configs, rest);
      if Of(configs, i).Overwritten() {
        var longer := saved + [SavedOne(Of(configs, i), i)];
        assert longer[..|longer| - 1] == saved;
        OneIsRestored(base, Merged(base, saved), configs, i);
      }
      hide MergedOne, SavedOne;
    }
  }

  /** Rebuilding from the configuration file and the saved overrides gives back the configuration that was
      saved, whatever the order they were saved in. */
  lemma SavedIsRestored(base: seq<Entry>, configs: Configs, order: seq<Interface>)
    requires Grown(Base(base), configs) && Walks(order, configs)
    ensures RestartAgrees(base, Written(Saved(configs, order)), configs)
  {
    BaseHasNoOverrides(base);
    RestoredSoFar(Base(base), configs, order);
    hide Merged, Saved, Base;
    var restored := Rebuilt(base, Written(Saved(configs, order)));
    forall i: Interface
      ensures SameFor(Of(restored, i), Of(configs, i))
    {
      assert i in order <==> i in configs;
    }
  }

  // ----- Events -----

  datatype Change = Enable(enabled: Option<bool>) | Period(period: Option<U64>)

  datatype Event = Event(interface: string, change: Change)

  function Changed(c: TaskConfig, change: Change): TaskConfig {
    match change
    case Enable(enabled) => c.(enabled := c.enabled.(value := enabled))
    case Period(period) => c.(period := c.period.(value := period))
  }

  function Handled(configs: Configs, e: Event): Configs {
    match Parse(e.interface)
    case None => configs
    case Some(i) => configs[i := Changed(Of(configs, i), e.change)]
  }

  function HandledAll(configs: Configs, events: seq<Event>): Configs {
    if events == [] then configs
    else Handled(HandledAll(configs, events[..|events| - 1]), events[|events| - 1])
  }

  /** Whether the last write of the file works, if there is any; an unknown interface causes none. */
  predicate LastSaveWorks(events: seq<Event>, works: seq<bool>)
    requires |events| == |works|
  {
    var n := |events| - 1;
    events == [] || (if Parse(events[n].interface).Some? then works[n] else LastSaveWorks(events[..n], works[..n]))
  }

  /** The last request to enable or disable the interface, or to go back to its default. */
  function LastEnable(events: seq<Event>, i: Interface, first: Option<bool>): Option<bool> {
    if events == [] then first
    else
      var e := events[|events| - 1];
      if Parse(e.interface) == Some(i) && e.change.Enable? then e.change.enabled
      else LastEnable(events[..|events| - 1], i, first)
  }

  function LastPeriod(events: seq<Event>, i: Interface, first: Option<U64>): Option<U64> {
    if events == [] then first
    else
      var e := events[|events| - 1];
      if Parse(e.interface) == Some(i) && e.change.Period? then e.change.period
      else LastPeriod(events[..|events| - 1], i, first)
  }

  /** The last request counts, for each interface and each of its settings on its own; the defaults never
      change. */
  lemma {:induction false} LastRequestCounts(configs: Configs, events: seq<Event>, i: Interface)
    ensures var c := Of(HandledAll(configs, events), i);
      && c.enabled == Of(configs, i).enabled.(value := LastEnable(events, i, Of(configs, i).enabled.value))
      && c.period == Of(configs, i).period.(value := LastPeriod(events, i, Of(configs, i).period.value))
  {
    hide Parse;
    if events != [] {
      LastRequestCounts(configs, events[..|events| - 1], i);
    }
  }

  predicate Enables(e: Event, i: Interface) {
    Parse(e.interface) == Some(i) && e.change.Enable?
  }

  predicate Reschedules(e: Event, i: Interface) {
    Parse(e.interface) == Some(i) && e.change.Period?
  }

  /** Which is the last one: event `k`, if there is any, and no later one is about the same setting. */
  lemma {:induction false} LastEnableIsLast(events: seq<Event>, i: Interface, first: Option<bool>, k: int)
    requires -1 <= k < |events| && (k >= 0 ==> Enables(events[k], i))
    requires forall l | k < l < |events| :: !Enables(events[l], i)
    ensures LastEnable(events, i, first) == if k >= 0 then events[k].change.enabled else first
    decreases |events|
  {
    hide Parse;
    if k < |events| - 1 {
      LastEnableIsLast(events[..|events| - 1], i, first, k);
    }
  }

  lemma {:induction false} LastPeriodIsLast(events: seq<Event>, i: Interface, first: Option<U64>, k: int)
    requires -1 <= k < |events| && (k >= 0 ==> Reschedules(events[k], i))
    requires forall l | k < l < |events| :: !Reschedules(events[l], i)
    ensures LastPeriod(events, i, first) == if k >= 0 then events[k].change.period else first
    decreases |events|
  {
    hide Parse;
    if k < |events| - 1 {
      LastPeriodIsLast(events[..|events| - 1], i, first, k);
    }
  }

  lemma OneEvent(configs: Configs, e: Event)
    ensures HandledAll(configs, [e]) == Handled(configs, e)
  {
    hide Handled;
    assert [e][..0] == [];
  }

  lemma HandlingGrows(base: Configs, configs: Configs, e: Event)
    requires Grown(base, configs)
    ensures Grown(base, Handled(configs, e))
  {
    hide Parse;
  }

  // ----- Tasks -----

  /** A task, for the token that cancels it. */
  datatype Task = Task(interface: Interface, period: U64, cancelled: bool)

  /** The tasks that are not cancelled are exactly those in the table, one for each interface. */
  ghost predicate Tracked(tokens: seq<Task>, tasks: map<Interface, nat>) {
    && (forall i <- tasks :: tasks[i] < |tokens| && tokens[tasks[i]].interface == i && !tokens[tasks[i]].cancelled)
    && (forall k | 0 <= k < |tokens| && !tokens[k].cancelled ::
         tokens[k].interface in tasks && tasks[tokens[k].interface] == k)
  }

  ghost function Periods(tokens: seq<Task>, tasks: map<Interface, nat>): map<Interface, U64>
    requires Tracked(tokens, tasks)
  {
    map i | i in tasks :: tokens[tasks[i]].period
  }

  lemma StartedIsTracked(tokens: seq<Task>, tasks: map<Interface, nat>, i: Interface, period: U64)
    requires Tracked(tokens, tasks) && i !in tasks
    ensures Tracked(tokens + [Task(i, period, false)], tasks[i := |tokens|])
    ensures Periods(tokens + [Task(i, period, false)], tasks[i := |tokens|]) == Periods(tokens, tasks)[i := period]
  {
  }

  lemma StoppedIsTracked(tokens: seq<Task>, tasks: map<Interface, nat>, i: Interface)
    requires Tracked(tokens, tasks) && i in tasks
    ensures var stopped := tokens[tasks[i] := tokens[tasks[i]].(cancelled := true)];
      Tracked(stopped, tasks - {i}) && Periods(stopped, tasks - {i}) == Periods(tokens, tasks) - {i}
  {
  }

  /** The tokens of all the tasks ever spawned, and the table of those that run. */
  class TelemetryTasks {
    var tokens: seq<Task>
    var tasks: map<Interface, nat>

    ghost predicate Valid()
      reads this
    {
      Tracked(tokens, tasks)
    }

    /** The tasks that run, with their periods. */
    ghost function Running(): map<Interface, U64>
      requires Valid()
      reads this
    {
      Periods(tokens, tasks)
    }

    constructor ()
      ensures Valid() && tokens == [] && tasks == map[]
    {
      tokens, tasks := [], map[];
    }

    method Stop(i: Interface)
      requires Valid()
      modifies this
      ensures Valid() && Running() == old(Running()) - {i}
    {
      if i in tasks {
        StoppedIsTracked(tokens, tasks, i);
        tokens := tokens[tasks[i] := tokens[tasks[i]].(cancelled := true)];
        tasks := tasks - {i};
      }
    }

    method Start(i: Interface, period: U64)
      requires Valid() && i !in Running()
      modifies this
      ensures Valid() && Running() == old(Running())[i := period]
    {
      StartedIsTracked(tokens, tasks, i, period);
      hide Tracked, Periods;
      tokens, tasks := tokens + [Task(i, period, false)], tasks[i := |tokens|];
    }

    method SpawnTask(i: Interface, config: TaskConfig)
      requires Valid()
      modifies this
      ensures Valid()
      ensures Running() ==
        if config.Active() then old(Running())[i := config.period.Get()] else old(Running()) - {i}
      ensures i in Running() <==>
        && (config.enabled.value == Some(true) || (config.enabled.value.None? && config.enabled.default_))
        && (if config.period.value.Some? then config.period.value.value else config.period.default_) != 0
      ensures i in Running() ==>
        Running()[i] == if config.period.value.Some? then config.period.value.value else config.period.default_
    {
      if !config.enabled.Get() {
        Stop(i);
        return;
      }
      var period := config.period.Get();
      if period == 0 {
        Stop(i);
        return;
      }
      Stop(i);
      Start(i, period);
      assert (old(Running()) - {i})[i := period] == old(Running())[i := period];
    }
  }

  /** A task runs if and only if its interface is enabled with a period, and with that period. */
  ghost predicate Follows(running: map<Interface, U64>, configs: Configs) {
    && (forall i: Interface :: i in running <==> Of(configs, i).Active())
    && (forall i <- running :: running[i] == Of(configs, i).period.Get())
  }

  /** A task runs if and only if the last request for its interface was to enable it, or there was none and it is
      enabled by default, and the period that was last requested, or else the default, is not 0; it runs with that
      period. */
  ghost predicate RunsAsAsked(running: map<Interface, U64>, before: Configs, events: seq<Event>) {
    forall i: Interface ::
      var c := Of(before, i);
      var enabled, period := LastEnable(events, i, c.enabled.value), LastPeriod(events, i, c.period.value);
      && (i in running <==>
           && (enabled == Some(true) || (enabled.None? && c.enabled.default_))
           && (if period.Some? then period.value else c.period.default_) != 0)
      && (i in running ==> running[i] == if period.Some? then period.value else c.period.default_)
  }

  /** Spawning the task of one interface is enough when only its configuration has changed. */
  lemma OneFollows(running: map<Interface, U64>, configs: Configs, i: Interface, c: TaskConfig)
    requires Follows(running, configs)
    ensures Follows(if c.Active() then running[i := c.period.Get()] else running - {i}, configs[i := c])
  {
    hide TaskConfig.Active, Overridable.Get;
  }

  lemma FollowingIsAsAsked(running: map<Interface, U64>, before: Configs, events: seq<Event>)
    requires Follows(running, HandledAll(before, events))
    ensures RunsAsAsked(running, before, events)
  {
    hide HandledAll, LastEnable, LastPeriod;
    forall i: Interface {
      LastRequestCounts(before, events, i);
    }
  }

  class TelemetryActor {
    const base: seq<Entry>
    const tasks: TelemetryTasks
    var configs: Configs
    var file: File

    ghost predicate Valid()
      reads this, tasks
    {
      tasks.Valid() && Grown(Base(base), configs)
    }

    /** A start: from the configuration file and whatever file of overrides is found. */
    constructor (base: seq<Entry>, file: File)
      ensures Valid() && this.base == base && this.file == file && fresh(tasks)
      ensures configs == Rebuilt(base, file) && RestartAgrees(base, file, configs)
      ensures tasks.Running() == map[]
    {
      this.base, this.file := base, file;
      tasks := new TelemetryTasks();
      configs := Base(base);
      new;
      ReadFileState();
    }

    /** Puts back the overrides that were saved; a file that cannot be read is as good as none. */
    method ReadFileState()
      requires tasks.Valid() && configs == Base(base)
      modifies this`configs
      ensures Valid() && configs == Rebuilt(base, file)
    {
      if !file.Written? {
        return;
      }
      var saved := file.entries;
      for n := 0 to |saved|
        invariant configs == Merged(Base(base), saved[..n])
      {
        assert saved[..n + 1][..n] == saved[..n];
        configs := MergedOne(configs, saved[n]);
      }
      assert saved[..|saved|] == saved;
      MergingGrows(Base(base), saved);
    }

    /** Starts the tasks of the configuration, in any order. */
    method Init()
      requires Valid() && tasks.Running() == map[]
      modifies tasks
      ensures Valid() && Follows(tasks.Running(), configs)
    {
      var left := configs.Keys;
      while left != {}
        invariant Valid() && left <= configs.Keys
        invariant forall i: Interface :: i in tasks.Running() <==> i !in left && Of(configs, i).Active()
        invariant forall i <- tasks.Running() :: tasks.Running()[i] == Of(configs, i).period.Get()
      {
        var i :| i in left;
        tasks.SpawnTask(i, configs[i]);
        left := left - {i};
      }
    }

    /** Writes the overrides, in any order; a failure may leave anything in the file. */
    method SaveTelemetryConfig(works: bool) returns (ok: bool)
      requires Valid()
      modifies this`file
      ensures Valid() && ok == works && (ok ==> RestartAgrees(base, file, configs))
    {
      var order, left := [], configs.Keys;
      while left != {}
        invariant left <= configs.Keys
        invariant forall i: Interface :: i in order <==> i in configs && i !in left
        invariant forall m, n | 0 <= m < n < |order| :: order[m] != order[n]
      {
        var i :| i in left;
        order, left := order + [i], left - {i};
      }
      if !works {
        file := *;
        return false;
      }
      file := Written(Saved(configs, order));
      SavedIsRestored(base, configs, order);
      ok := true;
    }

    /** An event: unless its interface is unknown, it changes that configuration, its task, and the file. */
    method Handle(e: Event, works: bool) returns (saved: Option<bool>)
      requires Valid() && Follows(tasks.Running(), configs)
      modifies this`configs, this`file, tasks
      ensures Valid() && Follows(tasks.Running(), configs)
      ensures RunsAsAsked(tasks.Running(), old(configs), [e])
      ensures configs == Handled(old(configs), e)
      ensures saved == if Parse(e.interface).None? then None else Some(works)
      ensures saved.None? ==> configs == old(configs) && file == old(file)
      ensures saved == Some(true) ==> RestartAgrees(base, file, configs)
    {
      hide RunsAsAsked, HandledAll, Follows, RestartAgrees, Parse, Changed, Grown, TaskConfig.Active, Overridable.Get;
      OneEvent(configs, e);
      match Parse(e.interface)
      case None => saved := None; FollowingIsAsAsked(tasks.Running(), configs, [e]);
      case Some(i) =>
        HandlingGrows(Base(base), configs, e);
        OneFollows(tasks.Running(), configs, i, Changed(Of(configs, i), e.change));
        configs := configs[i := Changed(Of(configs, i), e.change)];
        tasks.SpawnTask(i, configs[i]);
        FollowingIsAsAsked(tasks.Running(), old(configs), [e]);
        var ok := SaveTelemetryConfig(works);
        saved := Some(ok);
    }

    /** Any number of events: if the last save went well, a restart finds the configuration that is in force
        now, no matter how many saves before it failed. */
    method Run(events: seq<Event>, works: seq<bool>)
      requires |works| == |events|
      requires Valid() && Follows(tasks.Running(), configs) && RestartAgrees(base, file, configs)
      modifies this`configs, this`file, tasks
      ensures Valid() && Follows(tasks.Running(), configs)
      ensures RunsAsAsked(tasks.Running(), old(configs), events)
      ensures configs == HandledAll(old(configs), events)
      ensures LastSaveWorks(events, works) ==> RestartAgrees(base, file, configs)
    {
      hide Parse, Handled, Follows, RestartAgrees, RunsAsAsked;
      for n := 0 to |events|
        invariant Valid() && Follows(tasks.Running(), configs)
        invariant configs == HandledAll(old(configs), events[..n])
        invariant LastSaveWorks(events[..n], works[..n]) ==> RestartAgrees(base, file, configs)
      {
        assert events[..n + 1][..n] == events[..n] && works[..n + 1][..n] == works[..n];
        var _ := Handle(events[n], works[n]);
      }
      assert events[..|events|] == events && works[..|works|] == works;
      FollowingIsAsAsked(tasks.Running(), old(configs), events);
    }
  }
}
