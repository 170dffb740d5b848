/** The update actor as it runs: an object whose methods change its status, the state file, the
    shared flag and the log of effects, each proved against the engine's specification. */
module OtaActor {
  import opened Wrappers
  import opened OtaStatuses
  import opened OtaEngine
  import opened OtaRestart
  import OtaDownload
  import OtaDeploy

  function ReportsOf(id: OtaId, items: seq<OtaDeploy.Item>): seq<Effect> {
    DeployingReports(id, OtaDeploy.Fold(OtaDeploy.Statuses(items)).published)
  }

  function EndOf(id: OtaId, items: seq<OtaDeploy.Item>): OtaStatus {
    match OtaDeploy.EndingOf(items)
    case StreamError => Failure(Internal(CompletedEvent), Some(id))
    case NoCompletion => Failure(Internal(NoCompletedEvent), Some(id))
    case Signal(signal) =>
      if signal == 0 then Deployed(id) else Failure(InvalidBaseImage(SignalReceived(signal)), Some(id))
  }

  /** A deployment once the state is written, case by case. */
  lemma DeployWritten(d: Device, id: OtaId, env: Environment)
    requires env.slotKnown && env.write.Written?
    ensures var saved := [Persist(PersistentState(id.uuid, d.booted))];
      var installed := saved + [Install(if d.config.streaming then id.url else d.config.imagePath)];
      Deploy(d, id, env) ==
        if !env.installs then Step(saved, Failure(InvalidBaseImage(InstallImage), Some(id)))
        else if !env.operates || env.stream.None? then Step(installed, Failure(Internal(OperationStatus), Some(id)))
        else Step(installed + ReportsOf(id, env.stream.value), EndOf(id, env.stream.value))
  {
  }

  /** What a process has done, and after how many more effects its transition is dropped, if it is. */
  datatype Past = Past(log: seq<Effect>, file: Stored, fuse: Option<nat>)

  /** As many of the effects as happen before the transition is dropped. */
  function Until(fuse: Option<nat>, effects: seq<Effect>): seq<Effect> {
    if fuse.Some? && fuse.value < |effects| then effects[..fuse.value] else effects
  }

  function Burnt(fuse: Option<nat>, n: nat): Option<nat> {
    if fuse.None? then None else Some(if fuse.value < n then 0 else fuse.value - n)
  }

  /** The effects, as far as they happen. */
  function Later(p: Past, effects: seq<Effect>): Past {
    var done := Until(p.fuse, effects);
    Past(p.log + done, Replay(p.file, done), Burnt(p.fuse, |effects|))
  }

  lemma NothingLater(p: Past)
    ensures Later(p, []) == p
  {
  }

  lemma OneLater(p: Past, e: Effect)
    ensures Later(p, [e]) == if p.fuse == Some(0) then p
                             else Past(p.log + [e], After(p.file, e), Burnt(p.fuse, 1))
  {
    if p.fuse == Some(0) {
      assert Until(p.fuse, [e]) == [] && p.log + [] == p.log;
    } else {
      assert Until(p.fuse, [e]) == [e] && [e][1..] == [];
      assert Replay(p.file, [e]) == Replay(After(p.file, e), []);
    }
  }

  /** Effects after effects are the effects of both. */
  lemma Chained(p: Past, a: seq<Effect>, b: seq<Effect>)
    ensures Later(Later(p, a), b) == Later(p, a + b)
  {
    UntilChained(p.fuse, a, b);
    hide Until, Burnt, Replay;
    var x, y := Until(p.fuse, a), Until(Burnt(p.fuse, |a|), b);
    ReplayAppend(p.file, x, y);
    assert p.log + x + y == p.log + (x + y);
  }

  lemma UntilChained(fuse: Option<nat>, a: seq<Effect>, b: seq<Effect>)
    ensures Until(fuse, a) + Until(Burnt(fuse, |a|), b) == Until(fuse, a + b)
    ensures Burnt(Burnt(fuse, |a|), |b|) == Burnt(fuse, |a + b|)
  {
    if fuse.Some? && |a| <= fuse.value < |a| + |b| {
      assert (a + b)[..fuse.value] == a + b[..fuse.value - |a|];
    } else if fuse.Some? && fuse.value < |a| {
      assert (a + b)[..fuse.value] == a[..fuse.value] && Until(Some(0), b) == [];
    }
  }

  class Ota {
    const device: Device
    var status: OtaStatus
    var file: Stored
    var flag: bool
    var log: seq<Effect>
    /** After how many more effects the running transition is dropped; outside of one, never. */
    var fuse: Option<nat>

    /** A process that was just started on a device booted from `device.booted`. */
    constructor (device: Device, file: Stored)
      ensures this.device == device && this.file == file && status == Idle && !flag
      ensures log == [Boot(device.booted)] && fuse.None?
    {
      this.device, this.file, status, flag := device, file, Idle, false;
      log, fuse := [Boot(device.booted)], None;
    }

    ghost function Now(): Past
      reads this`log, this`file, this`fuse
    {
      Past(log, file, fuse)
    }

    /** Since the given state, exactly `effects` happened, and no transition is running. */
    ghost predicate Did(log0: seq<Effect>, file0: Stored, effects: seq<Effect>)
      reads this`log, this`file, this`fuse
    {
      log == log0 + effects && file == Replay(file0, effects) && fuse.None?
    }

    /** One effect, unless the transition has been dropped before it. */
    method Emit(e: Effect)
      modifies this`file, this`log, this`fuse
      ensures Now() == Later(old(Now()), [e])
    {
      OneLater(Now(), e);
      hide Later;
      if fuse == Some(0) {
        return;
      }
      if fuse.Some? {
        fuse := Some(fuse.value - 1);
      }
      log := log + [e];
      match e {
        case Persist(state) => file := Saved(state);
        case Tear => file := Torn;
        case Erase => file := Absent;
        case _ =>
      }
    }

    method EmitAll(effects: seq<Effect>)
      modifies this`file, this`log, this`fuse
      ensures Now() == Later(old(Now()), effects)
    {
      NothingLater(Now());
      hide Later;
      var i := 0;
      while i < |effects|
        invariant i <= |effects| && Now() == Later(old(Now()), effects[..i])
      {
        Emit(effects[i]);
        Chained(old(Now()), effects[..i], [effects[i]]);
        assert effects[..i + 1] == effects[..i] + [effects[i]];
        i := i + 1;
      }
      assert effects[..i] == effects;
    }

    /** Handles the transition to deploying, which the request gets to if and only if the image arrives and is
        meant for this device. */
    method DownloadImage(id: OtaId, env: Environment) returns (next: OtaStatus)
      modifies this`file, this`log, this`fuse
      ensures next == Download(id, env).status
      ensures if ImageArrives(env) then next == Deploying(id, NO_PROGRESS)
              else next.Failure? && next.failed == Some(id)
      ensures Now() == Later(old(Now()), Download(id, env).effects)
    {
      DownloadGate(id, env);
      hide OtaDownload.TransfersOf, OtaDownload.RetryOutcome, ImageArrives;
      if !env.validPath {
        return Failure(Io(WrongPath), Some(id));
      }
      var published, _, result := OtaDownload.RetryDownload(id, env.client, env.attempts);
      EmitAll(Publishes(published));
      if result.Err? {
        return Failure(result.error, Some(id));
      }
      if env.bundle.None? {
        return Failure(InvalidBaseImage(BundleInfo), Some(id));
      }
      if env.system.None? {
        return Failure(InvalidBaseImage(SystemInfo), Some(id));
      }
      if env.bundle.value != env.system.value {
        return Failure(InvalidBaseImage(Incompatible(env.bundle.value, env.system.value)), Some(id));
      }
      next := Deploying(id, NO_PROGRESS);
    }

    /** Publishes the progress of an installation until its stream ends. */
    method FollowProgress(id: OtaId, items: seq<OtaDeploy.Item>) returns (next: OtaStatus)
      modifies this`file, this`log, this`fuse
      ensures Now() == Later(old(Now()), ReportsOf(id, items))
      ensures next == EndOf(id, items)
    {
      hide OtaDeploy.Statuses, OtaDeploy.Fold, OtaDeploy.EndingOf, Later;
      var published, ending := OtaDeploy.FoldStream(items);
      EmitAll(DeployingReports(id, published));
      match ending {
        case StreamError => next := Failure(Internal(CompletedEvent), Some(id));
        case NoCompletion => next := Failure(Internal(NoCompletedEvent), Some(id));
        case Signal(signal) =>
          next := if signal == 0 then Deployed(id) else Failure(InvalidBaseImage(SignalReceived(signal)), Some(id));
      }
    }

    /** The deployment from the moment the state is written. */
    method WriteAndInstall(id: OtaId, env: Environment) returns (next: OtaStatus)
      requires env.slotKnown && env.write.Written?
      modifies this`file, this`log, this`fuse
      ensures next == Deploy(device, id, env).status
      ensures Now() == Later(old(Now()), Deploy(device, id, env).effects)
    {
      DeployWritten(device, id, env);
      hide Deploy, Later, ReportsOf, EndOf;
      var state := PersistentState(id.uuid, device.booted);
      Emit(Persist(state));
      if !env.installs {
        return Failure(InvalidBaseImage(InstallImage), Some(id));
      }
      var source := if device.config.streaming then id.url else device.config.imagePath;
      Emit(Install(source));
      Chained(old(Now()), [Persist(state)], [Install(source)]);
      if !env.operates || env.stream.None? {
        return Failure(Internal(OperationStatus), Some(id));
      }
      next := FollowProgress(id, env.stream.value);
      Chained(old(Now()), [Persist(state)] + [Install(source)], ReportsOf(id, env.stream.value));
    }

    /** Handles the transition to deployed: persist the booted slot, install, follow the progress. */
    method DeployImage(id: OtaId, env: Environment) returns (next: OtaStatus)
      modifies this`file, this`log, this`fuse
      ensures next == Deploy(device, id, env).status
      ensures Now() == Later(old(Now()), Deploy(device, id, env).effects)
    {
      if !env.slotKnown {
        return Failure(Internal(BootedSlot), Some(id));
      }
      if !env.write.Written? {
        if env.write.TornWrite? {
          Emit(Tear);
        }
        return Failure(Io(PersistState), Some(id));
      }
      next := WriteAndInstall(id, env);
    }

    method RebootNow(id: OtaId, env: Environment) returns (next: OtaStatus)
      modifies this`file, this`log, this`fuse
      ensures next == RebootDevice(device.config, id, env).status
      ensures Now() == Later(old(Now()), RebootDevice(device.config, id, env).effects)
    {
      Emit(Publish(Rebooting(id)));
      if !device.config.externalReboot {
        if !env.reboots {
          return Failure(Internal(RebootCommand), Some(id));
        }
        Emit(Reboot);
        Chained(old(Now()), [Publish(Rebooting(id))], [Reboot]);
        assert [Publish(Rebooting(id))] + [Reboot] == [Publish(Rebooting(id)), Reboot];
      }
      next := Rebooting(id);
    }

    method DoPendingOta(state: PersistentState, env: Environment) returns (error: Option<OtaError>)
      modifies this`file, this`log, this`fuse
      ensures error == PendingOta(device, state, env).1
      ensures Now() == Later(old(Now()), PendingOta(device, state, env).0)
    {
      if !env.slotKnown {
        return Some(Internal(BootedSlot));
      }
      if state.slot == device.booted {
        return Some(SystemRollback(SwitchSlot));
      }
      if env.primary.None? {
        return Some(Internal(PrimarySlot));
      }
      if env.marked.None? {
        return Some(Internal(MarkSlot));
      }
      Emit(MarkGood(env.primary.value, env.marked.value));
      if env.primary.value != env.marked.value {
        return Some(Internal(MarkedSlotDiffers));
      }
      error := None;
    }

    method CheckPending(env: Environment) returns (next: OtaStatus)
      modifies this`file, this`log, this`fuse
      ensures next == CheckReboot(device, old(file), env).status
      ensures Now() == Later(old(Now()), CheckReboot(device, old(file), env).effects)
    {
      if !Exists(file, env.visible) {
        return NoPendingOta;
      }
      if !env.readable || file.Torn? {
        return Failure(Io(ReadState), None);
      }
      var state := file.state;
      var id := OtaId(state.uuid, "");
      var error := DoPendingOta(state, env);
      next := if error.Some? then Failure(error.value, Some(id)) else Success(id);
    }

    /** Makes the transition; one that is dropped never gets to its new status. */
    method MakeTransition(env: Environment)
      modifies this`status, this`file, this`log, this`fuse
      ensures var step := Next(device, old(file), old(status), env);
        && Now() == Later(old(Now()), step.effects)
        && status == if fuse == Some(0) then old(status) else step.status
    {
      NothingLater(Now());
      hide Download, Deploy, RebootDevice, CheckReboot, Later;
      var next;
      match status {
        case Init(id) => next := Acknowledged(id);
        case Acknowledged(id) => next := StartUpdate(device.config, id);
        case Downloading(id, _) => next := DownloadImage(id, env);
        case Deploying(id, _) => next := DeployImage(id, env);
        case Deployed(id) => next := RebootNow(id, env);
        case Rebooted => next := CheckPending(env);
        case Rebooting(id) => next := Rebooting(id);
        case Error(e, id) => next := Failure(e, Some(id));
        case Idle | NoPendingOta | Success(_) | Failure(_, _) => next := Idle;
      }
      if fuse != Some(0) {
        status := next;
      }
    }

    /** Makes the transition, effect by effect, until it is done or the token fires; then it is dropped. */
    method RunUntilCancelled(env: Environment, token: Token) returns (completed: bool)
      requires fuse.None?
      modifies this`status, this`file, this`log, this`fuse
      ensures var step := Next(device, old(file), old(status), env);
        && completed == !Interrupts(token, step)
        && Did(old(log), old(file), if completed then step.effects else step.effects[..Cut(token)])
        && status == if completed then step.status else old(status)
    {
      hide Next, Replay;
      if token.Cancelled? || (token.CancelsIn? && token.turns == 0) {
        fuse := Some(if token.Cancelled? then 0 else token.effects);
      }
      ghost var step := Next(device, file, status, env);
      assert step.effects[..|step.effects|] == step.effects;
      MakeTransition(env);
      completed := fuse != Some(0);
      fuse := None;
    }

    /** The update is in progress until the status is idle; the flag follows. */
    method IsOtaInProgress() returns (inProgress: bool)
      modifies this`flag
      ensures inProgress == flag == !status.Idle?
    {
      inProgress := status != Idle;
      flag := inProgress;
    }

    method Clear(close: Closing)
      requires fuse.None?
      modifies this`status, this`file, this`log, this`fuse
      ensures status == Idle && Did(old(log), old(file), Clearing(old(file), close))
    {
      if Exists(file, close.visible) && close.removable {
        Emit(Erase);
      }
      status := Idle;
    }

    /** Publishes a status, and the notice if a late cancellation is seen for the first time. */
    method PublishHead(noticed: bool)
      requires fuse.None?
      modifies this`file, this`log, this`fuse
      ensures Did(old(log), old(file), if noticed then [Publish(status), NOTICE] else [Publish(status)])
      ensures file == old(file)
    {
      Emit(Publish(status));
      if noticed {
        Emit(NOTICE);
        ReplayAppend(old(file), [Publish(status)], [NOTICE]);
      }
    }

    /** The body of the loop: publish, then make the transition if it is not cancelled. */
    method TakeTurn(env: Environment, token: Token, check: bool) returns (checkCancel: bool)
      requires fuse.None?
      modifies this`status, this`file, this`log, this`fuse
      ensures var t := TurnOf(old(status), Next(device, old(file), old(status), env), token, check);
        status == t.status && checkCancel == t.check && Did(old(log), old(file), t.effects)
    {
      hide Next, Replay;
      checkCancel := check;
      ghost var step := Next(device, file, status, env);
      if status.IsCancellable() {
        PublishHead(false);
        var completed := RunUntilCancelled(env, token);
        ReplayAppend(old(file), [Publish(old(status))], if completed then step.effects else step.effects[..Cut(token)]);
        if !completed {
          checkCancel := false;
          status := Failure(Canceled, status.RequestId());
        }
      } else {
        var noticed := checkCancel && Noticed(token);
        PublishHead(noticed);
        if noticed {
          checkCancel := false;
        }
        MakeTransition(env);
        ReplayAppend(old(file), if noticed then [Publish(old(status)), NOTICE] else [Publish(old(status))],
                     step.effects);
      }
    }

    /** Drives the status to idle, or as far as the given turns of the world go. The effects are those
        of the specified run, and the flag is down if and only if the loop was left. */
    method HandleOtaUpdate(envs: seq<Environment>, cancel: Token, close: Closing) returns (left: bool)
      requires fuse.None?
      modifies this
      ensures var r := Run(device, old(file), old(status), envs, cancel, true, close);
        status == r.status && left == r.left && Did(old(log), old(file), r.effects)
      ensures flag == !left
    {
      var checkCancel, token, i := true, cancel, 0;
      ghost var whole := Run(device, file, status, envs, cancel, true, close);
      assert envs[0..] == envs && Remains(log, file, whole, log, file, whole);
      hide Next, TurnOf, Replay, Run, Remains;
      while true
        invariant i <= |envs| && fuse.None?
        invariant Remains(log, file, Run(device, file, status, envs[i..], token, checkCancel, close),
                          old(log), old(file), whole)
        decreases |envs| - i
      {
        ghost var rest := Run(device, file, status, envs[i..], token, checkCancel, close);
        var inProgress := IsOtaInProgress();
        RunByTurns(device, file, status, envs, i, token, checkCancel, close);
        if !inProgress {
          break;
        }
        if i == |envs| {
          NothingRemains(log, file, rest, old(log), old(file), whole);
          return false;
        }
        ghost var t := TurnOf(status, Next(device, file, status, envs[i]), token, checkCancel);
        ghost var after := Run(device, Replay(file, t.effects), t.status, envs[i + 1..], t.token, t.check, close);
        LessRemains(log, file, t.effects, rest, after, old(log), old(file), whole);
        checkCancel := TakeTurn(envs[i], token, checkCancel);
        token := Tick(token);
        i := i + 1;
      }
      ghost var clearing := Clearing(file, close);
      LessRemains(log, file, [Publish(Idle)], RunResult([Publish(Idle)] + clearing, Idle, true),
                  RunResult(clearing, Idle, true), old(log), old(file), whole);
      Emit(Publish(Idle));
      LessRemains(log, file, clearing, RunResult(clearing, Idle, true),
                  RunResult([], Idle, true), old(log), old(file), whole);
      Clear(close);
      NothingRemains(log, file, RunResult([], Idle, true), old(log), old(file), whole);
      left := true;
    }

    /** The start-up run: a state file on disk means that an update is waiting for its check. */
    method Init(visible: bool, envs: seq<Environment>, close: Closing) returns (left: bool)
      requires status.Idle? && fuse.None?
      modifies this
      ensures var first := if Exists(old(file), visible) then Rebooted else Idle;
        var r := Run(device, old(file), first, envs, Never, true, close);
        status == r.status && left == r.left && Did(old(log), old(file), r.effects)
      ensures flag == !left
    {
      if Exists(file, visible) {
        status := Rebooted;
      }
      left := HandleOtaUpdate(envs, Never, close);
    }

    /** Serves one request; a request is refused only while another one is not finished. */
    method Handle(q: Request) returns (result: Result<bool, OtaError>)
      requires fuse.None?
      modifies this
      ensures !old(status).Idle? ==>
                result == Err(InconsistentState) && status == old(status) && Did(old(log), old(file), [])
      ensures old(status).Idle? ==>
                var r := Run(device, old(file), OtaStatus.Init(q.id), q.envs, q.token, true, q.close);
                && result == Ok(r.left) && status == r.status && flag == !r.left
                && Did(old(log), old(file), r.effects)
    {
      if status != Idle {
        return Err(InconsistentState);
      }
      status := OtaStatus.Init(q.id);
      var left := HandleOtaUpdate(q.envs, q.token, q.close);
      result := Ok(left);
    }

    /** Serves the requests in order, up to the first run that is not left. None of them finds another one in
        progress. */
    method ServeRequests(requests: seq<Request>) returns (inconsistent: bool)
      requires status.Idle? && fuse.None?
      modifies this
      ensures log == old(log) + Serve(device, old(file), requests)
      ensures !inconsistent
    {
      hide Run, Replay, Serve;
      inconsistent := false;
      ghost var served := Serve(device, file, requests);
      assert requests[0..] == requests;
      var i := 0;
      while i < |requests|
        invariant i <= |requests| && status.Idle? && fuse.None? && !inconsistent
        invariant log + Serve(device, file, requests[i..]) == old(log) + served
      {
        var q := requests[i];
        ghost var log1, r := log, Run(device, file, OtaStatus.Init(q.id), q.envs, q.token, true, q.close);
        LeftIsIdle(device, file, OtaStatus.Init(q.id), q.envs, q.token, q.close);
        ServeUnfolds(device, file, requests, i);
        var result := Handle(q);
        if result.Err? {
          inconsistent := true;
          return;
        }
        if !result.value {
          assert log1 + (r.effects + []) == log;
          return;
        }
        assert log1 + (r.effects + Serve(device, file, requests[i + 1..]))
            == log + Serve(device, file, requests[i + 1..]);
        i := i + 1;
      }
      ServeUnfolds(device, file, requests, i);
      assert log + [] == log;
    }

    /** A whole boot: start-up, then the requests in order, up to the first run that is not left. No
        request is ever refused for an inconsistent state. */
    method RunActor(b: BootScript) returns (inconsistent: bool)
      requires status.Idle? && fuse.None? && device.booted == b.slot && log == [Boot(b.slot)]
      modifies this
      ensures log == BootEffects(device.config, old(file), b)
      ensures !inconsistent
    {
      inconsistent := false;
      var left := Init(b.visible, b.envs, b.close);
      LeftIsIdle(device, old(file), if Exists(old(file), b.visible) then Rebooted else Idle, b.envs, Never, b.close);
      ghost var startup, file1 := Startup(device.config, old(file), b), file;
      assert device == Device(device.config, b.slot);
      hide Run, Replay;
      if !left {
        assert log == [Boot(b.slot)] + startup.effects + [];
        return;
      }
      inconsistent := ServeRequests(b.requests);
    }
  }

  /** What is still to be done completes what was to be done at first. */
  ghost predicate Remains(log: seq<Effect>, file: Stored, rest: RunResult,
                          log0: seq<Effect>, file0: Stored, whole: RunResult)
  {
    && log + rest.effects == log0 + whole.effects
    && Replay(file, rest.effects) == Replay(file0, whole.effects)
    && rest.status == whole.status && rest.left == whole.left
  }

  lemma LessRemains(log: seq<Effect>, file: Stored, effects: seq<Effect>, rest: RunResult, after: RunResult,
                    log0: seq<Effect>, file0: Stored, whole: RunResult)
    requires Remains(log, file, rest, log0, file0, whole)
    requires rest == RunResult(effects + after.effects, after.status, after.left)
    ensures Remains(log + effects, Replay(file, effects), after, log0, file0, whole)
  {
    ReplayAppend(file, effects, after.effects);
    assert log + effects + after.effects == log + rest.effects;
  }

  lemma NothingRemains(log: seq<Effect>, file: Stored, rest: RunResult,
                       log0: seq<Effect>, file0: Stored, whole: RunResult)
    requires Remains(log, file, rest, log0, file0, whole) && rest.effects == []
    ensures log == log0 + whole.effects && file == Replay(file0, whole.effects)
    ensures rest.status == whole.status && rest.left == whole.left
  {
    assert log + [] == log;
  }

  /** A run, by its next turn; the token always ticks. */
  lemma RunByTurns(d: Device, file: Stored, status: OtaStatus, envs: seq<Environment>, i: nat, token: Token,
                   check: bool, close: Closing)
    requires i <= |envs|
    ensures var r := Run(d, file, status, envs[i..], token, check, close);
      if status.Idle? then r == RunResult([Publish(Idle)] + Clearing(file, close), Idle, true)
      else if i == |envs| then r == RunResult([], status, false)
      else
        var t := TurnOf(status, Next(d, file, status, envs[i]), token, check);
        var rest := Run(d, Replay(file, t.effects), t.status, envs[i + 1..], t.token, t.check, close);
        t.token == Tick(token) && r == RunResult(t.effects + rest.effects, rest.status, rest.left)
  {
    if i < |envs| {
      assert envs[i..][1..] == envs[i + 1..];
    }
  }

  /** Serving requests is serving the first, and then the others if its run is left. */
  lemma ServeUnfolds(d: Device, file: Stored, requests: seq<Request>, i: nat)
    requires i <= |requests|
    ensures i == |requests| ==> Serve(d, file, requests[i..]) == []
    ensures i < |requests| ==>
      var q := requests[i];
      var r := Run(d, file, OtaStatus.Init(q.id), q.envs, q.token, true, q.close);
      Serve(d, file, requests[i..]) ==
        r.effects + if r.left then Serve(d, Replay(file, r.effects), requests[i + 1..]) else []
  {
    hide Run, Replay;
    if i < |requests| {
      assert requests[i..][0] == requests[i] && requests[i..][1..] == requests[i + 1..];
    }
  }

  lemma {:induction false} LeftIsIdle(d: Device, file: Stored, status: OtaStatus, envs: seq<Environment>, token: Token,
                                      close: Closing, check: bool := true)
    ensures var r := Run(d, file, status, envs, token, check, close);
      r.left ==> r.status.Idle?
    decreases |envs|
  {
    hide Next, TurnOf;
    if !status.Idle? && envs != [] {
      var t := TurnOf(status, Next(d, file, status, envs[0]), token, check);
      LeftIsIdle(d, Replay(file, t.effects), t.status, envs[1..], t.token, close, t.check);
    }
  }
}
