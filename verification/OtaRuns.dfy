/** Properties of whole runs: they terminate, report exactly one failure, and honour cancellation. */
module OtaRuns {
  import opened Wrappers
  import opened OtaStatuses
  import opened OtaEngine
  import OtaDownload
  import OtaDeploy

  // ----- Termination -----

  function Rank(status: OtaStatus): nat {
    match status
    case Init(_) => 7
    case Acknowledged(_) => 6
    case Downloading(_, _) => 5
    case Deploying(_, _) => 4
    case Deployed(_) => 3
    case Rebooting(_) | Rebooted | Error(_, _) => 2
    case NoPendingOta | Success(_) | Failure(_, _) => 1
    case Idle => 0
  }

  /** Every transition lowers the rank, except that a rebooting device keeps waiting. */
  lemma TransitionsDescend(d: Device, file: Stored, status: OtaStatus, env: Environment)
    requires !status.Idle?
    ensures var next := Next(d, file, status, env).status;
      if status.Rebooting? then next == status else Rank(next) < Rank(status)
  {
    match status {
      case Downloading(id, _) => DownloadDescends(id, env);
      case Deploying(id, _) => DeployDescends(d, id, env);
      case _ =>
    }
    hide Download, Deploy;
  }

  lemma DownloadDescends(id: OtaId, env: Environment)
    ensures Rank(Download(id, env).status) <= 4
  {
    hide OtaDownload.RetryOutcome, OtaDownload.TransfersOf;
  }

  lemma DeployDescends(d: Device, id: OtaId, env: Environment)
    ensures Rank(Deploy(d, id, env).status) <= 3
  {
    hide OtaDeploy.Statuses, OtaDeploy.Fold, OtaDeploy.EndingOf;
  }

  /** So does every turn, also one whose transition is dropped. */
  lemma TurnDescends(d: Device, file: Stored, status: OtaStatus, env: Environment, token: Token, check: bool)
    requires !status.Idle?
    ensures var t := TurnOf(status, Next(d, file, status, env), token, check);
      if status.Rebooting? then t.status == status else Rank(t.status) < Rank(status)
  {
    TransitionsDescend(d, file, status, env);
    hide Next;
  }

  /** A run that is given as many turns as its rank has left the loop or waits for the reboot. */
  lemma {:induction false} RunsEnd(d: Device, file: Stored, status: OtaStatus, envs: seq<Environment>, token: Token,
                                   check: bool, close: Closing)
    requires Rank(status) <= |envs|
    ensures var r := Run(d, file, status, envs, token, check, close);
      if r.left then r.status == Idle else r.status.Rebooting?
    decreases |envs|
  {
    if !status.Idle? {
      var step := Next(d, file, status, envs[0]);
      var t := TurnOf(status, step, token, check);
      TurnDescends(d, file, status, envs[0], token, check);
      hide Next, TurnOf, Rank;
      if status.Rebooting? {
        StaysRebooting(d, Replay(file, t.effects), t.status, envs[1..], t.token, t.check, close);
      } else {
        RunsEnd(d, Replay(file, t.effects), t.status, envs[1..], t.token, t.check, close);
      }
    }
  }

  lemma {:induction false} StaysRebooting(d: Device, file: Stored, status: OtaStatus, envs: seq<Environment>,
                                          token: Token, check: bool, close: Closing)
    requires status.Rebooting?
    ensures var r := Run(d, file, status, envs, token, check, close);
      r.status == status && !r.left
    decreases |envs|
  {
    if envs != [] {
      var step := Next(d, file, status, envs[0]);
      assert step.status == status;
      hide Next;
      var t := TurnOf(status, step, token, check);
      StaysRebooting(d, Replay(file, t.effects), t.status, envs[1..], t.token, t.check, close);
    }
  }

  // ----- Selecting effects -----

  /** A failure of a request: exactly the statuses the server receives as a "Failure" event. */
  predicate FailureEvent(e: Effect) {
    IsFailure(e) && e.status.failed.Some?
  }

  predicate CanceledStatus(e: Effect) {
    IsFailure(e) && e.status.error == Canceled
  }

  datatype Kind = FailureEvents | CanceledStatuses | AllButNotices
  {
    predicate Is(e: Effect) {
      match this
      case FailureEvents => FailureEvent(e)
      case CanceledStatuses => CanceledStatus(e)
      case AllButNotices => e != NOTICE
    }
  }

  function Select(effects: seq<Effect>, k: Kind): seq<Effect> {
    if effects == [] then []
    else (if k.Is(effects[0]) then [effects[0]] else []) + Select(effects[1..], k)
  }

  lemma {:induction false} SelectAppend(a: seq<Effect>, b: seq<Effect>, k: Kind)
    ensures Select(a + b, k) == Select(a, k) + Select(b, k)
  {
    hide Kind.Is;
    if a == [] {
      assert a + b == b;
    } else {
      assert (a + b)[1..] == a[1..] + b;
      SelectAppend(a[1..], b, k);
      var head := if k.Is(a[0]) then [a[0]] else [];
      assert head + (Select(a[1..], k) + Select(b, k)) == (head + Select(a[1..], k)) + Select(b, k);
    }
  }

  lemma {:induction false} SelectNone(a: seq<Effect>, k: Kind)
    requires forall e <- a :: !k.Is(e)
    ensures Select(a, k) == []
  {
    if a != [] {
      SelectNone(a[1..], k);
    }
  }

  lemma {:induction false} SelectAll(a: seq<Effect>, k: Kind)
    requires forall e <- a :: k.Is(e)
    ensures Select(a, k) == a
  {
    if a != [] {
      SelectAll(a[1..], k);
    }
  }

  lemma SelectHead(head: seq<Effect>, tail: seq<Effect>, k: Kind)
    requires forall e <- tail :: !k.Is(e)
    ensures Select(head + tail, k) == Select(head, k)
  {
    SelectAppend(head, tail, k);
    SelectNone(tail, k);
  }

  // ----- One failure per run -----

  lemma FailureEventsAreReported(status: OtaStatus)
    ensures FailureEvent(Publish(status)) <==>
      status.AsEvent().Some? && status.AsEvent().value.status == "Failure"
  {
    if status.AsEvent().Some? {
      var s := status.AsEvent().value.status;
      assert s == "Failure" ==> |s| == 7 && s[0] == 'F';
      assert |"Success"| == 7 && "Success"[0] == 'S';
    }
  }

  /** What one turn publishes of failures: its own status, and the notice of a late cancellation. */
  lemma TurnFailures(status: OtaStatus, step: Step, token: Token, check: bool)
    requires forall e <- step.effects :: !IsFailure(e)
    ensures var t := TurnOf(status, step, token, check);
      && Select(t.effects, FailureEvents) == Select([Publish(status)], FailureEvents)
      && Select(t.effects, CanceledStatuses) ==
         Select([Publish(status)], CanceledStatuses)
         + (if !status.IsCancellable() && check && Noticed(token) then [NOTICE] else [])
  {
    var t := TurnOf(status, step, token, check);
    var tail := if status.IsCancellable() && Interrupts(token, step) then step.effects[..Cut(token)] else step.effects;
    var notice := if !status.IsCancellable() && check && Noticed(token) then [NOTICE] else [];
    assert t.effects == ([Publish(status)] + notice) + tail;
    assert forall e <- tail :: e in step.effects;
    SelectHead([Publish(status)] + notice, tail, FailureEvents);
    SelectHead([Publish(status)] + notice, tail, CanceledStatuses);
    SelectHead([Publish(status)], notice, FailureEvents);
    SelectAppend([Publish(status)], notice, CanceledStatuses);
    SelectAll(notice, CanceledStatuses);
  }

  /** The statuses a request passes through before it fails or the device reboots. */
  predicate Underway(status: OtaStatus, id: OtaId) {
    status.RequestId() == Some(id) &&
    (status.IsCancellable() || status.Deploying? || status.Deployed? || status.Rebooting?)
  }

  /** What a transition may lead to: on with the request, or into a failure that names it. */
  predicate GoesOn(step: Step, id: OtaId) {
    Underway(step.status, id) ||
    (step.status.Failure? && step.status.failed == Some(id) && step.status.error != Canceled)
  }

  lemma DownloadGoesOn(id: OtaId, env: Environment)
    ensures GoesOn(Download(id, env), id)
  {
    hide OtaDownload.TransfersOf, OtaDownload.FirstSuccess, OtaDownload.FailedReports;
  }

  lemma DeployGoesOn(d: Device, id: OtaId, env: Environment)
    ensures GoesOn(Deploy(d, id, env), id)
  {
  }

  lemma UnderwayGoesOn(d: Device, file: Stored, status: OtaStatus, env: Environment, id: OtaId)
    requires Underway(status, id)
    ensures GoesOn(Next(d, file, status, env), id)
    ensures Next(d, file, status, env).status.IsCancellable() ==> status.IsCancellable()
  {
    if status.Downloading? {
      DownloadGoesOn(id, env);
    } else if status.Deploying? {
      DeployGoesOn(d, id, env);
    }
  }

  /** The failures of a run: at most one event, naming the request, and exactly one once the run has
      left the loop; at most one canceled status, and none after one was published. */
  ghost predicate FailsOnce(r: RunResult, id: OtaId, check: bool) {
    var events, canceled := Select(r.effects, FailureEvents), Select(r.effects, CanceledStatuses);
    && |events| <= 1 && (r.left ==> |events| == 1)
    && |canceled| <= (if check then 1 else 0)
    && (forall e <- events :: FailureEvent(e) && e.status.failed == Some(id))
  }

  lemma RunUnfolds(d: Device, file: Stored, status: OtaStatus, envs: seq<Environment>, token: Token, check: bool,
                   close: Closing, k: Kind)
    requires !status.Idle? && envs != []
    ensures var t := TurnOf(status, Next(d, file, status, envs[0]), token, check);
      var rest := Run(d, Replay(file, t.effects), t.status, envs[1..], t.token, t.check, close);
      var r := Run(d, file, status, envs, token, check, close);
      && r == RunResult(t.effects + rest.effects, rest.status, rest.left)
      && Select(r.effects, k) == Select(t.effects, k) + Select(rest.effects, k)
  {
    hide Next, TurnOf;
    var t := TurnOf(status, Next(d, file, status, envs[0]), token, check);
    var rest := Run(d, Replay(file, t.effects), t.status, envs[1..], t.token, t.check, close);
    SelectAppend(t.effects, rest.effects, k);
  }

  lemma IdleRun(d: Device, file: Stored, envs: seq<Environment>, token: Token, check: bool, close: Closing)
    ensures var r := Run(d, file, Idle, envs, token, check, close);
      && r.left && r.effects == [Publish(Idle)] + Clearing(file, close)
      && Select(r.effects, FailureEvents) == Select(r.effects, CanceledStatuses) == []
  {
    var r := Run(d, file, Idle, envs, token, check, close);
    SelectNone(r.effects, FailureEvents);
    SelectNone(r.effects, CanceledStatuses);
  }

  /** A failed run publishes its failure, possibly the notice, and then goes idle. */
  lemma FailedRunEnds(d: Device, file: Stored, error: OtaError, id: OtaId, envs: seq<Environment>, token: Token,
                      check: bool, close: Closing)
    requires envs != []
    ensures var r := Run(d, file, Failure(error, Some(id)), envs, token, check, close);
      var failure := Publish(Failure(error, Some(id)));
      && r.left
      && Select(r.effects, FailureEvents) == [failure]
      && Select(r.effects, CanceledStatuses) == (if error == Canceled then [failure] else [])
         + (if check && Noticed(token) then [NOTICE] else [])
  {
    var status := Failure(error, Some(id));
    var step := Next(d, file, status, envs[0]);
    assert step == Step([], Idle);
    var t := TurnOf(status, step, token, check);
    assert t.status == Idle;
    TurnFailures(status, step, token, check);
    assert Select([Publish(status)], FailureEvents) == [Publish(status)];
    hide Next, TurnOf, Run;
    RunUnfolds(d, file, status, envs, token, check, close, FailureEvents);
    RunUnfolds(d, file, status, envs, token, check, close, CanceledStatuses);
    IdleRun(d, Replay(file, t.effects), envs[1..], t.token, t.check, close);
  }

  /** The same in numbers, also when the run is stopped before the failure is out. */
  lemma FailedRunFailsOnce(d: Device, file: Stored, status: OtaStatus, id: OtaId, envs: seq<Environment>, token: Token,
                           check: bool, close: Closing)
    requires status.Failure? && status.failed == Some(id) && (status.error == Canceled ==> !check)
    ensures FailsOnce(Run(d, file, status, envs, token, check, close), id, check || status.error == Canceled)
  {
    if envs == [] {
      assert Run(d, file, status, envs, token, check, close).effects == [];
    } else {
      hide Next, Run, TurnOf;
      FailedRunEnds(d, file, status.error, id, envs, token, check, close);
    }
  }

  /** A run that is in an error fails with that error, for the same request. */
  lemma ErrorRunFails(d: Device, file: Stored, error: OtaError, id: OtaId, envs: seq<Environment>, token: Token,
                      check: bool, close: Closing)
    requires |envs| >= 2
    ensures var r := Run(d, file, Error(error, id), envs, token, check, close);
      r.left && Select(r.effects, FailureEvents) == [Publish(Failure(error, Some(id)))]
  {
    hide *;
    var status := Error(error, id);
    var t := TurnOf(status, Next(d, file, status, envs[0]), token, check);
    ErrorTurn(d, file, error, id, envs[0], token, check);
    FailedRunEnds(d, Replay(file, t.effects), error, id, envs[1..], t.token, t.check, close);
    RunUnfolds(d, file, status, envs, token, check, close, FailureEvents);
  }

  lemma ErrorTurn(d: Device, file: Stored, error: OtaError, id: OtaId, env: Environment, token: Token, check: bool)
    ensures var status := Error(error, id);
      var t := TurnOf(status, Next(d, file, status, env), token, check);
      t.status == Failure(error, Some(id)) && Select(t.effects, FailureEvents) == []
  {
    var status, step := Error(error, id), Step([], Failure(error, Some(id)));
    assert Next(d, file, status, env) == step;
    hide Next;
    SelectNone(TurnOf(status, step, token, check).effects, FailureEvents);
  }

  /** How a turn of a request ends, and what it publishes of failures. */
  lemma UnderwayTurn(status: OtaStatus, step: Step, token: Token, check: bool, id: OtaId)
    requires Underway(status, id) && GoesOn(step, id)
    requires step.status.IsCancellable() ==> status.IsCancellable()
    requires status.IsCancellable() ==> check
    requires forall e <- step.effects :: !IsFailure(e)
    ensures var t := TurnOf(status, step, token, check);
      && Select(t.effects, FailureEvents) == []
      && |Select(t.effects, CanceledStatuses)| <= (if check && !t.check then 1 else 0)
      && (t.check ==> check)
      && ((Underway(t.status, id) && (t.status.IsCancellable() ==> t.check)) ||
          (t.status.Failure? && t.status.failed == Some(id) &&
           (t.status.error == Canceled ==> check && !t.check && Select(t.effects, CanceledStatuses) == [])))
  {
    TurnFailures(status, step, token, check);
    SelectNone([Publish(status)], FailureEvents);
    SelectNone([Publish(status)], CanceledStatuses);
  }

  /** Whatever happens to a request, its run reports at most one failure, exactly one if it exits,
      and at most one cancellation. */
  lemma {:induction false} RequestFailsOnce(d: Device, file: Stored, status: OtaStatus, envs: seq<Environment>,
                                            token: Token, check: bool, close: Closing, id: OtaId)
    requires Underway(status, id) && (status.IsCancellable() ==> check)
    ensures FailsOnce(Run(d, file, status, envs, token, check, close), id, check)
    decreases |envs|
  {
    if envs == [] {
      assert Run(d, file, status, envs, token, check, close).effects == [];
    } else {
      hide Next, TurnOf, Run, Select, FailsOnce, Replay;
      var step := Next(d, file, status, envs[0]);
      var t := TurnOf(status, step, token, check);
      UnderwayGoesOn(d, file, status, envs[0], id);
      TransitionEffects(d, file, status, envs[0]);
      UnderwayTurn(status, step, token, check, id);
      if Underway(t.status, id) {
        RequestFailsOnce(d, Replay(file, t.effects), t.status, envs[1..], t.token, t.check, close, id);
      } else {
        FailedRunFailsOnce(d, Replay(file, t.effects), t.status, id, envs[1..], t.token, t.check, close);
      }
      TurnBeforeRest(d, file, status, envs, token, check, close, id);
    }
  }

  /** A turn that reports no failure, before a run that fails at most once. */
  lemma TurnBeforeRest(d: Device, file: Stored, status: OtaStatus, envs: seq<Environment>,
                       token: Token, check: bool, close: Closing, id: OtaId)
    requires Underway(status, id) && (status.IsCancellable() ==> check) && envs != []
    requires var t := TurnOf(status, Next(d, file, status, envs[0]), token, check);
      FailsOnce(Run(d, Replay(file, t.effects), t.status, envs[1..], t.token, t.check, close), id,
                t.check || CanceledStatus(Publish(t.status)))
    ensures FailsOnce(Run(d, file, status, envs, token, check, close), id, check)
  {
    hide Next, TurnOf, Run, Select, FailsOnce, Replay;
    var step := Next(d, file, status, envs[0]);
    var t := TurnOf(status, step, token, check);
    UnderwayGoesOn(d, file, status, envs[0], id);
    TransitionEffects(d, file, status, envs[0]);
    UnderwayTurn(status, step, token, check, id);
    RunUnfolds(d, file, status, envs, token, check, close, FailureEvents);
    RunUnfolds(d, file, status, envs, token, check, close, CanceledStatuses);
    var r := Run(d, file, status, envs, token, check, close);
    var rest := Run(d, Replay(file, t.effects), t.status, envs[1..], t.token, t.check, close);
    assert Select(r.effects, FailureEvents) == Select(rest.effects, FailureEvents);
    JoinFailures(t, rest, r, check, id);
  }

  lemma JoinFailures(t: Turn, rest: RunResult, r: RunResult, check: bool, id: OtaId)
    requires FailsOnce(rest, id, t.check || CanceledStatus(Publish(t.status)))
    requires r.left == rest.left
    requires Select(r.effects, FailureEvents) == Select(rest.effects, FailureEvents)
    requires Select(r.effects, CanceledStatuses)
      == Select(t.effects, CanceledStatuses) + Select(rest.effects, CanceledStatuses)
    requires |Select(t.effects, CanceledStatuses)| <= (if check && !t.check then 1 else 0)
    requires t.check ==> check
    requires CanceledStatus(Publish(t.status)) ==> check && !t.check && Select(t.effects, CanceledStatuses) == []
    ensures FailsOnce(r, id, check)
  {
  }

  /** A run that exits ends by publishing Idle, after which it only clears the state file. */
  lemma {:induction false} ExitPublishesIdle(d: Device, file: Stored, status: OtaStatus, envs: seq<Environment>,
                                             token: Token, check: bool, close: Closing)
    ensures var r := Run(d, file, status, envs, token, check, close);
      r.left ==> exists before: seq<Effect>, after: seq<Effect> ::
        r.effects == before + [Publish(Idle)] + after && (after == [] || after == [Erase])
    decreases |envs|
  {
    hide Next, TurnOf;
    var r := Run(d, file, status, envs, token, check, close);
    if status.Idle? {
      assert r.effects == [] + [Publish(Idle)] + Clearing(file, close);
    } else if envs != [] {
      var t := TurnOf(status, Next(d, file, status, envs[0]), token, check);
      var rest := Run(d, Replay(file, t.effects), t.status, envs[1..], t.token, t.check, close);
      ExitPublishesIdle(d, Replay(file, t.effects), t.status, envs[1..], t.token, t.check, close);
      if rest.left {
        var before, after :| rest.effects == before + [Publish(Idle)] + after && (after == [] || after == [Erase]);
        assert r.effects == (t.effects + before) + [Publish(Idle)] + after;
      }
    }
  }
}
