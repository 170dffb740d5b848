/** What cancelling a run changes, decided by whether the token fires in time. */
module OtaCancel {
  import opened Wrappers
  import opened OtaStatuses
  import opened OtaEngine
  import opened OtaRuns

  /** The token fires while the uncancelled run would still be cancellable. */
  predicate InTime(d: Device, file: Stored, status: OtaStatus, envs: seq<Environment>, token: Token)
    decreases |envs|
  {
    envs != [] && status.IsCancellable() &&
    var step := Next(d, file, status, envs[0]);
    Interrupts(token, step) ||
    InTime(d, Replay(file, [Publish(status)] + step.effects), step.status, envs[1..], Tick(token))
  }

  predicate TouchesImage(e: Effect) {
    e.Persist? || e.Tear? || e.Install?
  }

  /** A request cancelled in time ends in `Failure(Canceled, Some(id))`, its only cancellation, and
      neither writes the state file nor installs anything; given as many turns as its rank, it does end. */
  lemma {:induction false} CancelledInTime(d: Device, file: Stored, status: OtaStatus, envs: seq<Environment>,
                                           token: Token, close: Closing, id: OtaId)
    requires status.RequestId() == Some(id)
    ensures InTime(d, file, status, envs, token) ==>
      var r := Run(d, file, status, envs, token, true, close);
      && (forall e <- r.effects :: !TouchesImage(e))
      && (r.left ==>
           Select(r.effects, FailureEvents) == Select(r.effects, CanceledStatuses)
           == [Publish(Failure(Canceled, Some(id)))])
      && (Rank(status) <= |envs| ==> r.left)
    decreases |envs|
  {
    hide *;
    if InTime(d, file, status, envs, token) {
      InTimeGoesOn(d, file, status, envs, token);
      var step := Next(d, file, status, envs[0]);
      var t := TurnOf(status, step, token, true);
      CancellableStep(d, file, status, envs[0], id);
      CancellableTurn(status, step, token);
      TurnDescends(d, file, status, envs[0], token, true);
      FailureIsRanked(Canceled, Some(id));
      RunUnfolds(d, file, status, envs, token, true, close, FailureEvents);
      RunUnfolds(d, file, status, envs, token, true, close, CanceledStatuses);
      if Interrupts(token, step) {
        CanceledRun(d, Replay(file, t.effects), id, envs[1..], t.token, close);
      } else {
        CancelledInTime(d, Replay(file, t.effects), t.status, envs[1..], t.token, close, id);
      }
    }
  }

  /** The transition of a status that can be cancelled. */
  lemma CancellableStep(d: Device, file: Stored, status: OtaStatus, env: Environment, id: OtaId)
    requires status.IsCancellable() && status.RequestId() == Some(id)
    ensures var step := Next(d, file, status, env);
      && (forall e <- step.effects :: !IsFailure(e) && !TouchesImage(e))
      && step.status.RequestId() == Some(id) && !status.Idle? && !status.Rebooting?
  {
    hide Next;
    TransitionEffects(d, file, status, env);
    UnderwayGoesOn(d, file, status, env, id);
  }

  lemma FailureIsRanked(error: OtaError, failed: Option<OtaId>)
    ensures Rank(Failure(error, failed)) > 0
  {
  }

  /** The token fires in this turn, or in time in the rest of the run. */
  lemma InTimeGoesOn(d: Device, file: Stored, status: OtaStatus, envs: seq<Environment>, token: Token)
    requires InTime(d, file, status, envs, token)
    ensures envs != [] && status.IsCancellable()
    ensures var step := Next(d, file, status, envs[0]);
      Interrupts(token, step) ||
      InTime(d, Replay(file, [Publish(status)] + step.effects), step.status, envs[1..], Tick(token))
  {
    hide Next, Replay, Interrupts, Tick;
  }

  lemma CancellableTurn(status: OtaStatus, step: Step, token: Token)
    requires status.IsCancellable()
    requires forall e <- step.effects :: !IsFailure(e) && !TouchesImage(e)
    ensures var t := TurnOf(status, step, token, true);
      && Select(t.effects, FailureEvents) == Select(t.effects, CanceledStatuses) == []
      && (forall e <- t.effects :: !TouchesImage(e))
      && if Interrupts(token, step) then t.status == Failure(Canceled, status.RequestId()) && !t.check
         else t == Turn([Publish(status)] + step.effects, step.status, Tick(token), true)
  {
    TurnFailures(status, step, token, true);
    SelectNone([Publish(status)], FailureEvents);
    SelectNone([Publish(status)], CanceledStatuses);
  }

  lemma CanceledRun(d: Device, file: Stored, id: OtaId, envs: seq<Environment>, token: Token, close: Closing)
    ensures var r := Run(d, file, Failure(Canceled, Some(id)), envs, token, false, close);
      && (forall e <- r.effects :: !TouchesImage(e))
      && (r.left ==>
           Select(r.effects, FailureEvents) == Select(r.effects, CanceledStatuses)
           == [Publish(Failure(Canceled, Some(id)))])
      && (envs != [] ==> r.left)
  {
    hide *;
    var status := Failure(Canceled, Some(id));
    CanceledIsBusy(d, file, id, token, close);
    if envs != [] {
      var t := TurnOf(status, Next(d, file, status, envs[0]), token, false);
      CanceledTurn(d, file, id, envs[0], token);
      FailedRunEnds(d, file, Canceled, id, envs, token, false, close);
      RunUnfolds(d, file, status, envs, token, false, close, FailureEvents);
      IdleRun(d, Replay(file, t.effects), envs[1..], t.token, t.check, close);
      ClearingTouchesNothing(t.effects, Replay(file, t.effects), close);
    }
  }

  lemma CanceledIsBusy(d: Device, file: Stored, id: OtaId, token: Token, close: Closing)
    ensures !Failure(Canceled, Some(id)).Idle?
    ensures var r := Run(d, file, Failure(Canceled, Some(id)), [], token, false, close); !r.left && r.effects == []
  {
  }

  lemma CanceledTurn(d: Device, file: Stored, id: OtaId, env: Environment, token: Token)
    ensures var status := Failure(Canceled, Some(id));
      var t := TurnOf(status, Next(d, file, status, env), token, false);
      t.status == Idle && t.effects == [Publish(status)]
  {
    var status := Failure(Canceled, Some(id));
    assert Next(d, file, status, env) == Step([], Idle);
    TurnShape(status, Step([], Idle), token, false);
    hide Next, TurnOf;
  }

  lemma ClearingTouchesNothing(effects: seq<Effect>, file: Stored, close: Closing)
    requires forall e <- effects :: e.Publish?
    ensures forall e <- effects + ([Publish(Idle)] + Clearing(file, close)) :: !TouchesImage(e)
  {
  }

  /** No transition ends in the status of the notice, or leads back to a cancellable status. */
  lemma TransitionTargets(d: Device, file: Stored, status: OtaStatus, env: Environment)
    ensures var next := Next(d, file, status, env).status;
      next != Failure(Canceled, None) && (next.IsCancellable() ==> status.IsCancellable())
  {
    hide Download, Deploy;
    match status {
      case Downloading(id, _) => DownloadGoesOn(id, env);
      case Deploying(id, _) => DeployGoesOn(d, id, env); DeployDescends(d, id, env);
      case _ =>
    }
  }

  /** A turn that is not interrupted differs from the uncancelled one by the notice alone. */
  lemma UninterruptedTurn(file: Stored, status: OtaStatus, step: Step, token: Token, check: bool)
    requires status != Failure(Canceled, None) && forall e <- step.effects :: !IsFailure(e)
    requires status.IsCancellable() ==> check && !Interrupts(token, step)
    ensures var t, u := TurnOf(status, step, token, check), TurnOf(status, step, Never, true);
      && u == Turn([Publish(status)] + step.effects, step.status, Never, true)
      && Select(t.effects, AllButNotices) == u.effects
      && t.status == u.status && t.token == Tick(token)
      && Replay(file, t.effects) == Replay(file, u.effects)
      && |t.effects| + (if t.check then 1 else 0) <= |u.effects| + (if check then 1 else 0)
      && (status.IsCancellable() ==> t.check)
  {
    TurnShape(status, step, token, check);
    NoticeIsExtra(file, status, step);
    SelectAll([Publish(status)] + step.effects, AllButNotices);
    hide TurnOf, Select, Replay, Tick, Noticed, Interrupts, Cut;
  }

  lemma TurnShape(status: OtaStatus, step: Step, token: Token, check: bool)
    requires status.IsCancellable() ==> check && !Interrupts(token, step)
    ensures TurnOf(status, step, Never, true) == Turn([Publish(status)] + step.effects, step.status, Never, true)
    ensures var noticed := !status.IsCancellable() && check && Noticed(token);
      TurnOf(status, step, token, check) ==
        Turn(if noticed then [Publish(status), NOTICE] + step.effects else [Publish(status)] + step.effects,
             step.status, Tick(token), check && !noticed)
  {
  }

  lemma PublishedFirst(file: Stored, status: OtaStatus, rest: seq<Effect>)
    ensures Replay(file, [Publish(status)] + rest) == Replay(file, rest)
    ensures AllButNotices.Is(Publish(status)) ==>
              Select([Publish(status)] + rest, AllButNotices) == [Publish(status)] + Select(rest, AllButNotices)
    ensures !AllButNotices.Is(Publish(status)) ==>
              Select([Publish(status)] + rest, AllButNotices) == Select(rest, AllButNotices)
  {
    var effects := [Publish(status)] + rest;
    assert effects[0] == Publish(status) && effects[1..] == rest;
  }

  lemma NoticeIsExtra(file: Stored, status: OtaStatus, step: Step)
    requires status != Failure(Canceled, None) && forall e <- step.effects :: !IsFailure(e)
    ensures var effects := [Publish(status), NOTICE] + step.effects;
      && Select(effects, AllButNotices) == [Publish(status)] + step.effects
      && Replay(file, effects) == Replay(file, [Publish(status)] + step.effects)
  {
    PublishedFirst(file, status, [NOTICE] + step.effects);
    PublishedFirst(file, status, step.effects);
    PublishedFirst(file, Failure(Canceled, None), step.effects);
    SelectAll(step.effects, AllButNotices);
    hide Select, Replay;
    assert [Publish(status), NOTICE] + step.effects == [Publish(status)] + ([NOTICE] + step.effects);
  }

  /** A turn of a run that is cancelled too late. */
  lemma LateTurn(d: Device, file: Stored, status: OtaStatus, envs: seq<Environment>, token: Token, check: bool)
    requires !status.Idle? && envs != [] && status != Failure(Canceled, None) && (status.IsCancellable() ==> check)
    requires !InTime(d, file, status, envs, token)
    ensures var step := Next(d, file, status, envs[0]);
      var t, u := TurnOf(status, step, token, check), TurnOf(status, step, Never, true);
      var file1 := Replay(file, u.effects);
      && u.effects == [Publish(status)] + step.effects && u == Turn(u.effects, step.status, Never, true)
      && Select(t.effects, AllButNotices) == u.effects
      && t.status == step.status && t.token == Tick(token) && Replay(file, t.effects) == file1
      && (t.check <==> check && (status.IsCancellable() || !Noticed(token)))
      && |t.effects| == |u.effects| + (if check && !t.check then 1 else 0)
      && !InTime(d, file1, step.status, envs[1..], Tick(token))
      && step.status != Failure(Canceled, None) && (step.status.IsCancellable() ==> t.check)
      && (status.IsCancellable() ==> !Interrupts(token, step))
  {
    var step := Next(d, file, status, envs[0]);
    TransitionEffects(d, file, status, envs[0]);
    TransitionTargets(d, file, status, envs[0]);
    hide Next, Replay, Select;
    UninterruptedTurn(file, status, step, token, check);
    TurnShape(status, step, token, check);
    hide TurnOf, Tick, Noticed, Interrupts;
  }

  lemma NoTurn(d: Device, file: Stored, status: OtaStatus, envs: seq<Environment>, token: Token, check: bool,
               close: Closing)
    requires status.Idle? || envs == []
    ensures var r := Run(d, file, status, envs, token, check, close);
      r == Run(d, file, status, envs, Never, true, close) && Select(r.effects, AllButNotices) == r.effects
  {
    SelectAll(Run(d, file, status, envs, token, check, close).effects, AllButNotices);
  }

  /** Cancelled too late, or never, a run makes the transitions of the uncancelled run with the same
      effects, except for the notice, which is published at most once. */
  lemma {:induction false} CancelledTooLate(d: Device, file: Stored, status: OtaStatus, envs: seq<Environment>,
                                            token: Token, check: bool, close: Closing)
    requires status != Failure(Canceled, None) && (status.IsCancellable() ==> check)
    requires !InTime(d, file, status, envs, token)
    ensures var r := Run(d, file, status, envs, token, check, close);
      var uncancelled := Run(d, file, status, envs, Never, true, close);
      && Select(r.effects, AllButNotices) == uncancelled.effects
      && r.status == uncancelled.status && r.left == uncancelled.left
      && |r.effects| <= |uncancelled.effects| + (if check then 1 else 0)
    decreases |envs|
  {
    hide *;
    if status.Idle? || envs == [] {
      NoTurn(d, file, status, envs, token, check, close);
    } else {
      var step := Next(d, file, status, envs[0]);
      var t, u := TurnOf(status, step, token, check), TurnOf(status, step, Never, true);
      LateTurn(d, file, status, envs, token, check);
      RunUnfolds(d, file, status, envs, token, check, close, AllButNotices);
      RunUnfolds(d, file, status, envs, Never, true, close, AllButNotices);
      CancelledTooLate(d, Replay(file, u.effects), step.status, envs[1..], t.token, t.check, close);
    }
  }

  // ----- When a token is in time -----

  /** The state file and the status after `k` turns of the uncancelled run. */
  function Ahead(d: Device, file: Stored, status: OtaStatus, envs: seq<Environment>, k: nat): (Stored, OtaStatus)
    requires k <= |envs|
    decreases k
  {
    if k == 0 then (file, status)
    else
      var step := Next(d, file, status, envs[0]);
      Ahead(d, Replay(file, [Publish(status)] + step.effects), step.status, envs[1..], k - 1)
  }

  /** What is cancellable now was so in all turns before. */
  lemma {:induction false} CancellableFromTheStart(d: Device, file: Stored, status: OtaStatus, envs: seq<Environment>,
                                                   k: nat)
    requires k <= |envs| && Ahead(d, file, status, envs, k).1.IsCancellable()
    ensures status.IsCancellable()
    decreases k
  {
    hide Next, Replay;
    if k > 0 {
      var step := Next(d, file, status, envs[0]);
      TransitionTargets(d, file, status, envs[0]);
      CancellableFromTheStart(d, Replay(file, [Publish(status)] + step.effects), step.status, envs[1..], k - 1);
    }
  }

  /** In turn `k` the uncancelled run has a status that can be cancelled. */
  predicate CancellableIn(d: Device, file: Stored, status: OtaStatus, envs: seq<Environment>, k: nat) {
    k < |envs| && Ahead(d, file, status, envs, k).1.IsCancellable()
  }

  /** The transition of turn `k` has at least `n` effects. */
  predicate LastsFor(d: Device, file: Stored, status: OtaStatus, envs: seq<Environment>, k: nat, n: nat)
    requires k < |envs|
  {
    var (file1, status1) := Ahead(d, file, status, envs, k);
    n <= |Next(d, file1, status1, envs[k]).effects|
  }

  /** One turn of a run whose token is to fire. */
  lemma InTimeUnfolds(d: Device, file: Stored, status: OtaStatus, envs: seq<Environment>, k: nat, n: nat)
    ensures InTime(d, file, status, envs, Cancelled) <==> envs != [] && status.IsCancellable()
    ensures envs == [] ==> !InTime(d, file, status, envs, CancelsIn(k, n))
    ensures envs != [] ==>
      var step := Next(d, file, status, envs[0]);
      var file1 := Replay(file, [Publish(status)] + step.effects);
      InTime(d, file, status, envs, CancelsIn(k, n)) <==>
        status.IsCancellable() &&
        if k > 0 then InTime(d, file1, step.status, envs[1..], CancelsIn(k - 1, n))
        else n <= |step.effects| || InTime(d, file1, step.status, envs[1..], Cancelled)
  {
    hide Next, Replay;
  }

  lemma CancellableInUnfolds(d: Device, file: Stored, status: OtaStatus, envs: seq<Environment>, k: nat, n: nat)
    ensures CancellableIn(d, file, status, envs, 0) <==> envs != [] && status.IsCancellable()
    ensures envs == [] ==> !CancellableIn(d, file, status, envs, k)
    ensures envs != [] ==>
      var step := Next(d, file, status, envs[0]);
      var file1 := Replay(file, [Publish(status)] + step.effects);
      && (CancellableIn(d, file, status, envs, k + 1) <==> CancellableIn(d, file1, step.status, envs[1..], k))
      && (LastsFor(d, file, status, envs, 0, n) <==> n <= |step.effects|)
      && (k + 1 < |envs| ==>
           (LastsFor(d, file, status, envs, k + 1, n) <==> LastsFor(d, file1, step.status, envs[1..], k, n)))
  {
    hide Next, Replay;
  }

  lemma CancellableBefore(d: Device, file: Stored, status: OtaStatus, envs: seq<Environment>, k: nat)
    ensures CancellableIn(d, file, status, envs, k) ==> status.IsCancellable() && k < |envs|
  {
    hide Next, Replay;
    if CancellableIn(d, file, status, envs, k) {
      CancellableFromTheStart(d, file, status, envs, k);
    }
  }

  /** A token that fires in turn `k`, once its transition has had `n` effects, is in time exactly when that turn can
      be cancelled and its transition is not over by then, or the next turn can be cancelled too. One that has fired
      already is in time exactly when the first turn can be cancelled. */
  lemma {:induction false} InTimeExactly(d: Device, file: Stored, status: OtaStatus, envs: seq<Environment>, k: nat,
                                         n: nat)
    ensures InTime(d, file, status, envs, CancelsIn(k, n)) <==>
      k < |envs| && CancellableIn(d, file, status, envs, k) &&
      (LastsFor(d, file, status, envs, k, n) || CancellableIn(d, file, status, envs, k + 1))
    ensures InTime(d, file, status, envs, Cancelled) <==> CancellableIn(d, file, status, envs, 0)
    ensures !InTime(d, file, status, envs, Never)
    decreases k, |envs|
  {
    hide *;
    NeverIsNotInTime(d, file, status, envs);
    InTimeUnfolds(d, file, status, envs, k, n);
    CancellableInUnfolds(d, file, status, envs, k, n);
    CancellableBefore(d, file, status, envs, k);
    if envs != [] {
      var step := Next(d, file, status, envs[0]);
      var file1 := Replay(file, [Publish(status)] + step.effects);
      if k > 0 {
        CancellableInUnfolds(d, file, status, envs, k - 1, n);
        InTimeExactly(d, file1, step.status, envs[1..], k - 1, n);
        CancellableBefore(d, file1, step.status, envs[1..], k - 1);
      } else {
        InTimeUnfolds(d, file1, step.status, envs[1..], 0, n);
        CancellableInUnfolds(d, file1, step.status, envs[1..], 0, n);
      }
    }
  }

  lemma {:induction false} NeverIsNotInTime(d: Device, file: Stored, status: OtaStatus, envs: seq<Environment>)
    ensures !InTime(d, file, status, envs, Never)
    decreases |envs|
  {
    hide Next, Replay;
    if envs != [] {
      var step := Next(d, file, status, envs[0]);
      NeverIsNotInTime(d, Replay(file, [Publish(status)] + step.effects), step.status, envs[1..]);
    }
  }

  // ----- When the notice is published -----

  /** How many turns the uncancelled run takes. */
  function Turns(d: Device, file: Stored, status: OtaStatus, envs: seq<Environment>): nat
    decreases |envs|
  {
    if status.Idle? || envs == [] then 0
    else
      var step := Next(d, file, status, envs[0]);
      1 + Turns(d, Replay(file, [Publish(status)] + step.effects), step.status, envs[1..])
  }

  lemma {:induction false} SelectedAreFewer(effects: seq<Effect>, k: Kind)
    ensures |Select(effects, k)| <= |effects|
  {
    if effects != [] {
      SelectedAreFewer(effects[1..], k);
    }
  }

  /** Once the notice is out, or the run was never asked to look, there is none. */
  lemma NoNoticeUnchecked(d: Device, file: Stored, status: OtaStatus, envs: seq<Environment>, token: Token,
                          close: Closing)
    requires status != Failure(Canceled, None) && !status.IsCancellable()
    ensures |Run(d, file, status, envs, token, false, close).effects|
         == |Run(d, file, status, envs, Never, true, close).effects|
  {
    CancelledTooLate(d, file, status, envs, token, false, close);
    SelectedAreFewer(Run(d, file, status, envs, token, false, close).effects, AllButNotices);
    hide Run;
  }

  lemma TurnsUnfold(d: Device, file: Stored, status: OtaStatus, envs: seq<Environment>)
    ensures Turns(d, file, status, envs) ==
      if status.Idle? || envs == [] then 0
      else
        var step := Next(d, file, status, envs[0]);
        1 + Turns(d, Replay(file, [Publish(status)] + step.effects), step.status, envs[1..])
  {
    hide Next, Replay;
  }

  /** When a token of the future fires. */
  lemma Ticks(k: nat, n: nat, step: Step)
    ensures Tick(CancelsIn(k, n)) == if k == 0 then Cancelled else CancelsIn(k - 1, n)
    ensures Tick(Cancelled) == Cancelled && Noticed(Cancelled) && Interrupts(Cancelled, step)
    ensures Noticed(CancelsIn(k, n)) <==> k == 0 && n == 0
    ensures k == 0 && n == 0 ==> Interrupts(CancelsIn(k, n), step)
  {
  }

  /** A token that is too late is noticed, by the one extra publication, exactly when the run takes a turn that begins
      after it has fired. */
  lemma {:induction false} NoticedExactlyWhenSeen(d: Device, file: Stored, status: OtaStatus, envs: seq<Environment>,
                                                  k: nat, n: nat, close: Closing)
    requires status != Failure(Canceled, None)
    requires !InTime(d, file, status, envs, CancelsIn(k, n))
    ensures var seen := if n == 0 then k else k + 1;
      |Run(d, file, status, envs, CancelsIn(k, n), true, close).effects|
      == |Run(d, file, status, envs, Never, true, close).effects|
         + (if Turns(d, file, status, envs) > seen then 1 else 0)
    decreases |envs|
  {
    hide *;
    var token := CancelsIn(k, n);
    TurnsUnfold(d, file, status, envs);
    if status.Idle? || envs == [] {
      NoTurn(d, file, status, envs, token, true, close);
    } else {
      var step := Next(d, file, status, envs[0]);
      var t, u := TurnOf(status, step, token, true), TurnOf(status, step, Never, true);
      LateTurn(d, file, status, envs, token, true);
      Ticks(k, n, step);
      RunUnfolds(d, file, status, envs, token, true, close, AllButNotices);
      RunUnfolds(d, file, status, envs, Never, true, close, AllButNotices);
      var file1 := Replay(file, u.effects);
      if !t.check {
        NoNoticeUnchecked(d, file1, step.status, envs[1..], t.token, close);
      } else if k > 0 {
        NoticedExactlyWhenSeen(d, file1, step.status, envs[1..], k - 1, n, close);
      } else {
        NoticedNext(d, file1, step.status, envs[1..], close);
        TurnsUnfold(d, file1, step.status, envs[1..]);
      }
    }
  }

  /** A token that has fired is noticed by the next turn, if there is one. */
  lemma NoticedNext(d: Device, file: Stored, status: OtaStatus, envs: seq<Environment>, close: Closing)
    requires status != Failure(Canceled, None)
    requires !InTime(d, file, status, envs, Cancelled)
    ensures |Run(d, file, status, envs, Cancelled, true, close).effects|
         == |Run(d, file, status, envs, Never, true, close).effects|
            + (if Turns(d, file, status, envs) > 0 then 1 else 0)
  {
    hide *;
    TurnsUnfold(d, file, status, envs);
    if status.Idle? || envs == [] {
      NoTurn(d, file, status, envs, Cancelled, true, close);
    } else {
      var step := Next(d, file, status, envs[0]);
      LateTurn(d, file, status, envs, Cancelled, true);
      Ticks(0, 0, step);
      RunUnfolds(d, file, status, envs, Cancelled, true, close, AllButNotices);
      RunUnfolds(d, file, status, envs, Never, true, close, AllButNotices);
      NoNoticeUnchecked(d, Replay(file, [Publish(status)] + step.effects), step.status, envs[1..], Cancelled, close);
    }
  }
}
