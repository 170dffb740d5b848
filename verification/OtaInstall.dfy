/** Whether the image of a successful update was ever installed: the deployment persists its state first, and the
    installation, which only ends with a later signal, can be cut short, refused, or fail. */
module OtaInstall {
  import opened Wrappers
  import opened OtaStatuses
  import opened OtaEngine
  import opened OtaRestart
  import OtaDeploy
  import OtaDownload
  import OtaRuns

  /** The runtime has seen an installation complete with signal 0. */
  predicate Completion(e: Effect) {
    e.Publish? && e.status.Deployed?
  }

  /** Nothing about a deployment. */
  predicate Calm(effects: seq<Effect>) {
    forall e <- effects :: !e.Persist? && !e.Tear? && !Completion(e)
  }

  /** No deployment has persisted its state or completed. */
  predicate Quiet(effects: seq<Effect>) {
    forall e <- effects :: !e.Persist? && !Completion(e)
  }

  // ----- One run -----

  /** The turn of a request in which it is deployed. */
  function DeployingTurnOf(config: Config): nat {
    if config.streaming then 2 else 3
  }

  /** In this turn the world accepts the installation, reports on it, and ends it with signal 0. */
  predicate Installs(env: Environment) {
    env.installs && env.operates && env.stream.Some? && OtaDeploy.EndingOf(env.stream.value) == OtaDeploy.Signal(0)
  }

  /** In turn `e` the installation goes well, and there is one more turn, which publishes it. */
  predicate Finishes(envs: seq<Environment>, e: nat) {
    |envs| >= e + 2 && Installs(envs[e])
  }

  /** How many effects after its state a deployment that finishes is published. */
  function Delay(envs: seq<Environment>, e: nat): nat {
    if e < |envs| && envs[e].stream.Some? then
      2 + |OtaDeploy.Fold(OtaDeploy.Statuses(envs[e].stream.value)).published|
    else 0
  }

  /** The state is persisted as effect `n`, and never else; the installation completes if and only if turn `e`
      finishes, and then so many effects later, with no success before. */
  ghost predicate DeploysAt(effects: seq<Effect>, n: nat, state: PersistentState, envs: seq<Environment>, e: nat) {
    && n < |effects| && effects[n] == Persist(state) && e < |envs|
    && (forall x | 0 <= x < |effects| && x != n :: !effects[x].Persist? && !effects[x].Tear?)
    && (forall x | 0 <= x < |effects| ::
         Completion(effects[x]) <==> Finishes(envs, e) && x == n + Delay(envs, e))
    && (Finishes(envs, e) ==>
         && n + Delay(envs, e) < |effects|
         && forall x | n < x <= n + Delay(envs, e) :: !PublishesSuccess(effects[x]))
  }

  ghost predicate Deploys(effects: seq<Effect>, state: PersistentState, envs: seq<Environment>, e: nat) {
    Quiet(effects) || exists n: nat :: DeploysAt(effects, n, state, envs, e)
  }

  /** After a deployment, and after a restart, nothing more is deployed. */
  lemma {:induction false} RestIsCalm(d: Device, file: Stored, status: OtaStatus, envs: seq<Environment>,
                                      token: Token, check: bool, close: Closing)
    requires OtaRuns.Rank(status) <= 2
    ensures Calm(Run(d, file, status, envs, token, check, close).effects)
    decreases |envs|
  {
    if !status.Idle? && envs != [] {
      var t := TurnOf(status, Next(d, file, status, envs[0]), token, check);
      CalmTurn(d, file, status, envs[0], token, check);
      OtaRuns.TurnDescends(d, file, status, envs[0], token, check);
      hide Next, TurnOf, Replay;
      RestIsCalm(d, Replay(file, t.effects), t.status, envs[1..], t.token, t.check, close);
    }
  }

  lemma CalmTurn(d: Device, file: Stored, status: OtaStatus, env: Environment, token: Token, check: bool)
    requires OtaRuns.Rank(status) <= 2 && !status.Idle?
    ensures Calm(TurnOf(status, Next(d, file, status, env), token, check).effects)
  {
    var step := Next(d, file, status, env);
    assert Calm(step.effects);
    hide Next;
  }

  lemma NoTurns(d: Device, file: Stored, status: OtaStatus, token: Token, check: bool, close: Closing)
    requires !status.Idle?
    ensures var effects := Run(d, file, status, [], token, check, close).effects; effects == [] && Calm(effects)
  {
  }

  lemma FirstTurnOf(d: Device, file: Stored, status: OtaStatus, envs: seq<Environment>, token: Token, check: bool,
                    close: Closing)
    requires !status.Idle? && envs != []
    ensures var t := TurnOf(status, Next(d, file, status, envs[0]), token, check);
      Run(d, file, status, envs, token, check, close).effects ==
        t.effects + Run(d, Replay(file, t.effects), t.status, envs[1..], t.token, t.check, close).effects
  {
    hide Next, TurnOf, Replay;
  }

  lemma DeployedTurn(d: Device, file: Stored, id: OtaId, env: Environment, token: Token, check: bool)
    ensures var t := TurnOf(Deployed(id), Next(d, file, Deployed(id), env), token, check);
      && t.effects != [] && t.effects[0] == Publish(Deployed(id)) && Calm(t.effects[1..])
      && OtaRuns.Rank(t.status) <= 2
  {
    var step := RebootDevice(d.config, id, env);
    assert Next(d, file, Deployed(id), env) == step;
    assert Calm(step.effects) && OtaRuns.Rank(step.status) <= 2;
    hide Next, RebootDevice;
  }

  lemma DeployedRun(d: Device, file: Stored, id: OtaId, envs: seq<Environment>, token: Token, check: bool,
                    close: Closing)
    ensures var effects := Run(d, file, Deployed(id), envs, token, check, close).effects;
      if envs == [] then effects == []
      else effects != [] && effects[0] == Publish(Deployed(id)) && Calm(effects[1..])
  {
    hide *;
    if envs == [] {
      NoTurns(d, file, Deployed(id), token, check, close);
    } else {
      var t := TurnOf(Deployed(id), Next(d, file, Deployed(id), envs[0]), token, check);
      DeployedTurn(d, file, id, envs[0], token, check);
      FirstTurnOf(d, file, Deployed(id), envs, token, check, close);
      RestIsCalm(d, Replay(file, t.effects), t.status, envs[1..], t.token, t.check, close);
      CalmBehind(t.effects, Run(d, Replay(file, t.effects), t.status, envs[1..], t.token, t.check, close).effects);
    }
  }

  lemma CalmBehind(effects: seq<Effect>, rest: seq<Effect>)
    requires effects != [] && Calm(effects[1..]) && Calm(rest)
    ensures Calm((effects + rest)[1..])
  {
    assert (effects + rest)[1..] == effects[1..] + rest;
  }

  /** What the turn of a deployment does. */
  lemma DeploymentStep(d: Device, id: OtaId, env: Environment)
    ensures var step := Deploy(d, id, env);
      if env.slotKnown && env.write.Written? then
        && step.effects != [] && step.effects[0] == Persist(PersistentState(id.uuid, d.booted))
        && Calm(step.effects[1..]) && (forall e <- step.effects :: !PublishesSuccess(e))
        && if Installs(env) then |step.effects| == Delay([env], 0) && step.status == Deployed(id)
           else step.status.Failure?
      else Quiet(step.effects) && step.status.Failure?
    ensures Tear in Deploy(d, id, env).effects <==> env.slotKnown && env.write.TornWrite?
    ensures env.slotKnown && env.write.Written? && env.installs && env.operates && env.stream.Some? ==>
      var effects := Deploy(d, id, env).effects;
      var published := OtaDeploy.Fold(OtaDeploy.Statuses(env.stream.value)).published;
      && |effects| == 2 + |published|
      && forall i | 0 <= i < |published| :: effects[2 + i] == Publish(Deploying(id, published[i]))
  {
    hide OtaDeploy.Statuses, OtaDeploy.Fold, OtaDeploy.EndingOf;
  }

  lemma DeployingRun(d: Device, file: Stored, id: OtaId, envs: seq<Environment>, token: Token, check: bool,
                     close: Closing)
    ensures Deploys(Run(d, file, Deploying(id, NO_PROGRESS), envs, token, check, close).effects,
                    PersistentState(id.uuid, d.booted), envs, 0)
  {
    hide *;
    var status, state := Deploying(id, NO_PROGRESS), PersistentState(id.uuid, d.booted);
    if envs == [] {
      NoTurns(d, file, status, token, check, close);
      CalmDeploys([], state, envs, 0);
    } else {
      var step := Deploy(d, id, envs[0]);
      var head := DeployingHead(d, file, id, envs[0], token, check);
      var t := TurnOf(status, Next(d, file, status, envs[0]), token, check);
      DeploymentStep(d, id, envs[0]);
      FirstTurnOf(d, file, status, envs, token, check, close);
      var rest := Run(d, Replay(file, t.effects), t.status, envs[1..], t.token, t.check, close);
      if step.status == Deployed(id) {
        DeployedRun(d, Replay(file, t.effects), id, envs[1..], t.token, t.check, close);
      } else {
        FailureRank(step.status);
        RestIsCalm(d, Replay(file, t.effects), t.status, envs[1..], t.token, t.check, close);
      }
      JoinDeployment(head, id, step, rest.effects, state, envs);
    }
  }

  lemma FailureRank(status: OtaStatus)
    requires status.Failure?
    ensures OtaRuns.Rank(status) <= 2
  {
  }

  /** What the deploying turn publishes before it deploys. */
  lemma DeployingHead(d: Device, file: Stored, id: OtaId, env: Environment, token: Token, check: bool)
    returns (head: seq<Effect>)
    ensures var status := Deploying(id, NO_PROGRESS);
      var t, step := TurnOf(status, Next(d, file, status, env), token, check), Deploy(d, id, env);
      t.effects == head + step.effects && t.status == step.status && Calm(head)
  {
    hide Deploy;
    head := if check && Noticed(token) then [Publish(Deploying(id, NO_PROGRESS)), NOTICE]
            else [Publish(Deploying(id, NO_PROGRESS))];
  }

  lemma JoinDeployment(head: seq<Effect>, id: OtaId, step: Step, rest: seq<Effect>, state: PersistentState,
                       envs: seq<Environment>)
    requires Calm(head) && envs != []
    requires if envs[0].slotKnown && envs[0].write.Written? then
               && step.effects != [] && step.effects[0] == Persist(state) && Calm(step.effects[1..])
               && (forall e <- step.effects :: !PublishesSuccess(e))
               && if Installs(envs[0]) then |step.effects| == Delay([envs[0]], 0) && step.status == Deployed(id)
                  else step.status.Failure?
             else Quiet(step.effects) && step.status.Failure?
    requires if step.status == Deployed(id) then
               if envs[1..] == [] then rest == []
               else rest != [] && rest[0] == Publish(Deployed(id)) && Calm(rest[1..])
             else Calm(rest)
    ensures Deploys(head + step.effects + rest, state, envs, 0)
  {
    var effects := head + step.effects + rest;
    if !(envs[0].slotKnown && envs[0].write.Written?) {
      assert Quiet(effects);
    } else {
      var n := |head|;
      assert Delay([envs[0]], 0) == Delay(envs, 0);
      hide Installs, Delay;
      assert Finishes(envs, 0) <==> step.status == Deployed(id) && rest != [];
      forall x | 0 <= x < |effects|
        ensures effects[x] == if x < n then head[x] else if x < n + |step.effects| then step.effects[x - n]
                              else rest[x - n - |step.effects|]
      {
      }
      assert forall x | 0 < x < |step.effects| :: step.effects[x] == step.effects[1..][x - 1];
      assert forall x | 0 < x < |rest| :: rest[x] == rest[1..][x - 1];
      hide Finishes;
      assert DeploysAt(effects, n, state, envs, 0);
    }
  }

  lemma Prepended(head: seq<Effect>, effects: seq<Effect>, state: PersistentState, envs: seq<Environment>, e: nat)
    requires Calm(head) && envs != [] && Deploys(effects, state, envs[1..], e)
    ensures Deploys(head + effects, state, envs, e + 1)
  {
    if Quiet(effects) {
      assert Quiet(head + effects);
    } else {
      var n: nat :| DeploysAt(effects, n, state, envs[1..], e);
      assert e < |envs[1..]| ==> envs[1..][e] == envs[e + 1];
      assert Delay(envs[1..], e) == Delay(envs, e + 1);
      hide Installs, Delay;
      assert Finishes(envs[1..], e) <==> Finishes(envs, e + 1);
      assert DeploysAt(head + effects, |head| + n, state, envs, e + 1);
    }
  }

  /** A turn before the deployment. */
  lemma EarlierTurn(d: Device, file: Stored, status: OtaStatus, envs: seq<Environment>, token: Token, check: bool,
                    close: Closing, state: PersistentState, e: nat)
    requires status.IsCancellable() && envs != []
    requires var t := TurnOf(status, Next(d, file, status, envs[0]), token, check);
      OtaRuns.Rank(t.status) <= 2 ||
      Deploys(Run(d, Replay(file, t.effects), t.status, envs[1..], t.token, t.check, close).effects,
              state, envs[1..], e)
    ensures Deploys(Run(d, file, status, envs, token, check, close).effects, state, envs, e + 1)
  {
    hide *;
    var t := TurnOf(status, Next(d, file, status, envs[0]), token, check);
    CancellableTurnIsCalm(d, file, status, envs[0], token, check);
    CancellableIsBusy(status);
    FirstTurnOf(d, file, status, envs, token, check, close);
    var rest := Run(d, Replay(file, t.effects), t.status, envs[1..], t.token, t.check, close);
    if OtaRuns.Rank(t.status) <= 2 {
      RestIsCalm(d, Replay(file, t.effects), t.status, envs[1..], t.token, t.check, close);
      CalmDeploys(rest.effects, state, envs[1..], e);
    }
    Prepended(t.effects, rest.effects, state, envs, e);
  }

  lemma CancellableIsBusy(status: OtaStatus)
    ensures status.IsCancellable() ==> !status.Idle?
  {
  }

  lemma CalmDeploys(effects: seq<Effect>, state: PersistentState, envs: seq<Environment>, e: nat)
    ensures Calm(effects) ==> Deploys(effects, state, envs, e)
  {
    if Calm(effects) {
      assert Quiet(effects);
    }
  }

  lemma CancellableTurnIsCalm(d: Device, file: Stored, status: OtaStatus, env: Environment, token: Token, check: bool)
    requires status.IsCancellable()
    ensures Calm(TurnOf(status, Next(d, file, status, env), token, check).effects)
  {
    var step := Next(d, file, status, env);
    TransitionEffects(d, file, status, env);
    if status.Downloading? {
      DownloadPublishes(status.id, env);
    }
    assert Calm(step.effects);
    hide Next;
    var t := TurnOf(status, step, token, check);
    assert forall x <- t.effects :: x in step.effects || x == Publish(status);
  }

  lemma DownloadPublishes(id: OtaId, env: Environment)
    ensures forall e <- Download(id, env).effects :: e.Publish? && (e.status.Downloading? || e.status.Error?)
  {
    if env.validPath {
      var transfers := OtaDownload.TransfersOf(id, env.attempts);
      RetryPublishes(id, env.client, transfers);
      var published := OtaDownload.RetryOutcome(id, env.client, transfers).published;
      var effects := Download(id, env).effects;
      assert forall i | 0 <= i < |effects| :: effects[i] == Publish(published[i]) && published[i] in published;
    }
  }

  lemma DownloadingRun(d: Device, file: Stored, id: OtaId, envs: seq<Environment>, token: Token, check: bool,
                       close: Closing)
    ensures Deploys(Run(d, file, Downloading(id, 0), envs, token, check, close).effects,
                    PersistentState(id.uuid, d.booted), envs, 1)
  {
    hide *;
    var status, state := Downloading(id, 0), PersistentState(id.uuid, d.booted);
    if envs == [] {
      NoTurns(d, file, status, token, check, close);
      CalmDeploys([], state, envs, 1);
    } else {
      var t := TurnOf(status, Next(d, file, status, envs[0]), token, check);
      DownloadTurn(d, file, id, envs[0], token, check);
      if t.status == Deploying(id, NO_PROGRESS) {
        DeployingRun(d, Replay(file, t.effects), id, envs[1..], t.token, t.check, close);
      }
      EarlierTurn(d, file, status, envs, token, check, close, state, 0);
    }
  }

  lemma DownloadEnds(id: OtaId, env: Environment)
    ensures var next := Download(id, env).status; next.Failure? || next == Deploying(id, NO_PROGRESS)
  {
    hide OtaDownload.RetryOutcome, OtaDownload.TransfersOf;
  }

  lemma DownloadTurn(d: Device, file: Stored, id: OtaId, env: Environment, token: Token, check: bool)
    ensures var t := TurnOf(Downloading(id, 0), Next(d, file, Downloading(id, 0), env), token, check);
      t.status == Deploying(id, NO_PROGRESS) || OtaRuns.Rank(t.status) <= 2
    ensures Downloading(id, 0).IsCancellable()
  {
    DownloadEnds(id, env);
    hide Download;
  }

  lemma AcknowledgedRun(d: Device, file: Stored, id: OtaId, envs: seq<Environment>, token: Token, check: bool,
                        close: Closing)
    ensures Deploys(Run(d, file, Acknowledged(id), envs, token, check, close).effects,
                    PersistentState(id.uuid, d.booted), envs, DeployingTurnOf(d.config) - 1)
  {
    hide *;
    var status, state := Acknowledged(id), PersistentState(id.uuid, d.booted);
    FirstStatuses(d.config, id);
    if envs == [] {
      NoTurns(d, file, status, token, check, close);
      CalmDeploys([], state, envs, DeployingTurnOf(d.config) - 1);
    } else {
      var t := TurnOf(status, Next(d, file, status, envs[0]), token, check);
      AcknowledgedTurn(d, file, id, envs[0], token, check);
      if t.status == Deploying(id, NO_PROGRESS) {
        DeployingRun(d, Replay(file, t.effects), id, envs[1..], t.token, t.check, close);
      } else if t.status == Downloading(id, 0) {
        DownloadingRun(d, Replay(file, t.effects), id, envs[1..], t.token, t.check, close);
      }
      EarlierTurn(d, file, status, envs, token, check, close, state, DeployingTurnOf(d.config) - 2);
    }
  }

  lemma FirstStatuses(config: Config, id: OtaId)
    ensures Init(id).IsCancellable() && Acknowledged(id).IsCancellable()
    ensures DeployingTurnOf(config) == if config.streaming then 2 else 3
  {
  }

  lemma AcknowledgedTurn(d: Device, file: Stored, id: OtaId, env: Environment, token: Token, check: bool)
    ensures var t := TurnOf(Acknowledged(id), Next(d, file, Acknowledged(id), env), token, check);
      OtaRuns.Rank(t.status) <= 2 ||
      t.status == if d.config.streaming then Deploying(id, NO_PROGRESS) else Downloading(id, 0)
  {
  }

  lemma InitTurn(d: Device, file: Stored, id: OtaId, env: Environment, token: Token)
    ensures var t := TurnOf(Init(id), Next(d, file, Init(id), env), token, true);
      OtaRuns.Rank(t.status) <= 2 || t.status == Acknowledged(id)
  {
  }

  /** The run of a request deploys at most once, in its deploying turn. */
  lemma RequestDeploys(d: Device, file: Stored, q: Request)
    ensures Deploys(RunOf(d, file, q).effects, PersistentState(q.id.uuid, d.booted), q.envs, DeployingTurnOf(d.config))
  {
    hide *;
    var state := PersistentState(q.id.uuid, d.booted);
    RunIs(d, file, q);
    FirstStatuses(d.config, q.id);
    if q.envs == [] {
      NoTurns(d, file, Init(q.id), q.token, true, q.close);
      CalmDeploys([], state, q.envs, DeployingTurnOf(d.config));
    } else {
      var t := TurnOf(Init(q.id), Next(d, file, Init(q.id), q.envs[0]), q.token, true);
      InitTurn(d, file, q.id, q.envs[0], q.token);
      if t.status == Acknowledged(q.id) {
        AcknowledgedRun(d, Replay(file, t.effects), q.id, q.envs[1..], t.token, t.check, q.close);
      }
      EarlierTurn(d, file, Init(q.id), q.envs, q.token, true, q.close, state, DeployingTurnOf(d.config) - 1);
    }
  }

  lemma RunIs(d: Device, file: Stored, q: Request)
    ensures RunOf(d, file, q) == Run(d, file, Init(q.id), q.envs, q.token, true, q.close)
  {
    hide Run;
  }

  function RunOf(d: Device, file: Stored, q: Request): RunResult {
    Run(d, file, Init(q.id), q.envs, q.token, true, q.close)
  }

  // ----- One boot -----

  /** The runs of all requests before the `i`-th are left, so it is served. */
  predicate GetsTo(d: Device, file: Stored, requests: seq<Request>, i: nat)
    decreases i
  {
    && i < |requests|
    && (i > 0 ==>
         var r := RunOf(d, file, requests[0]);
         r.left && GetsTo(d, Replay(file, r.effects), requests[1..], i - 1))
  }

  /** How many effects there are before the run of the `i`-th request, and those of that run. */
  function Offset(d: Device, file: Stored, requests: seq<Request>, i: nat): nat
    requires GetsTo(d, file, requests, i)
    decreases i
  {
    if i == 0 then 0
    else
      var r := RunOf(d, file, requests[0]);
      |r.effects| + Offset(d, Replay(file, r.effects), requests[1..], i - 1)
  }

  function EffectsOf(d: Device, file: Stored, requests: seq<Request>, i: nat): seq<Effect>
    requires GetsTo(d, file, requests, i)
    decreases i
  {
    var r := RunOf(d, file, requests[0]);
    if i == 0 then r.effects else EffectsOf(d, Replay(file, r.effects), requests[1..], i - 1)
  }

  lemma {:induction false} RequestIsServed(d: Device, file: Stored, requests: seq<Request>, i: nat)
    requires GetsTo(d, file, requests, i)
    ensures var o, effects := Offset(d, file, requests, i), EffectsOf(d, file, requests, i);
      && o + |effects| <= |Serve(d, file, requests)|
      && Serve(d, file, requests)[o..o + |effects|] == effects
      && Deploys(effects, PersistentState(requests[i].id.uuid, d.booted), requests[i].envs, DeployingTurnOf(d.config))
    decreases i
  {
    hide Run, Replay, Deploys;
    if i == 0 {
      RequestDeploys(d, file, requests[0]);
      hide RunOf;
      assert requests[0..] == requests;
    } else {
      hide RunOf;
      var r := RunOf(d, file, requests[0]);
      var file1 := Replay(file, r.effects);
      RequestIsServed(d, file1, requests[1..], i - 1);
      ServesRest(d, file, requests);
      Shifted(r.effects, Serve(d, file1, requests[1..]), Offset(d, file1, requests[1..], i - 1),
              |EffectsOf(d, file1, requests[1..], i - 1)|);
    }
  }

  lemma ServesRest(d: Device, file: Stored, requests: seq<Request>)
    requires requests != [] && RunOf(d, file, requests[0]).left
    ensures var r := RunOf(d, file, requests[0]);
      Serve(d, file, requests) == r.effects + Serve(d, Replay(file, r.effects), requests[1..])
  {
    hide Run, Replay;
  }

  lemma Shifted(head: seq<Effect>, tail: seq<Effect>, o: nat, n: nat)
    requires o + n <= |tail|
    ensures (head + tail)[|head| + o..|head| + o + n] == tail[o..o + n]
  {
  }

  /** Every effect of the serving is one of a request that is served. */
  lemma {:induction false} ServedBy(d: Device, file: Stored, requests: seq<Request>, x: nat) returns (i: nat)
    requires x < |Serve(d, file, requests)|
    ensures GetsTo(d, file, requests, i)
    ensures Offset(d, file, requests, i) <= x < Offset(d, file, requests, i) + |EffectsOf(d, file, requests, i)|
    decreases |requests|
  {
    hide Run, Replay;
    var r := RunOf(d, file, requests[0]);
    if x < |r.effects| {
      i := 0;
    } else {
      var j := ServedBy(d, Replay(file, r.effects), requests[1..], x - |r.effects|);
      i := j + 1;
    }
  }

  /** Request `i` of the boot is served, and its run begins as effect `o` of the boot. */
  ghost predicate RunsFrom(config: Config, file: Stored, b: BootScript, i: nat, o: nat) {
    var d, startup := Device(config, b.slot), Startup(config, file, b);
    && startup.left && GetsTo(d, Replay(file, startup.effects), b.requests, i)
    && o == 1 + |startup.effects| + Offset(d, Replay(file, startup.effects), b.requests, i)
  }

  function RequestEffects(config: Config, file: Stored, b: BootScript, i: nat): seq<Effect>
    requires GetsTo(Device(config, b.slot), Replay(file, Startup(config, file, b).effects), b.requests, i)
  {
    EffectsOf(Device(config, b.slot), Replay(file, Startup(config, file, b).effects), b.requests, i)
  }

  /** Request `i` of the boot persists its state as effect `n` of the boot. */
  ghost predicate DeployedBy(config: Config, file: Stored, b: BootScript, i: nat, n: nat) {
    exists o: nat :: RunsFrom(config, file, b, i, o) &&
      o <= n < o + |RequestEffects(config, file, b, i)| && RequestEffects(config, file, b, i)[n - o].Persist?
  }

  lemma SliceAt(whole: seq<Effect>, o: nat, part: seq<Effect>)
    requires o + |part| <= |whole| && whole[o..o + |part|] == part
    ensures forall x | o <= x < o + |part| :: whole[x] == part[x - o]
  {
    forall x | o <= x < o + |part|
      ensures whole[x] == part[x - o]
    {
      assert whole[o..o + |part|][x - o] == whole[x];
    }
  }

  lemma BootServes(config: Config, file: Stored, b: BootScript, i: nat, o: nat)
    requires RunsFrom(config, file, b, i, o)
    ensures var effects, boot := RequestEffects(config, file, b, i), BootEffects(config, file, b);
      && o + |effects| <= |boot| && boot[o..o + |effects|] == effects
      && Deploys(effects, PersistentState(b.requests[i].id.uuid, b.slot), b.requests[i].envs, DeployingTurnOf(config))
  {
    hide Startup, Run, RunOf, Replay, Serve, EffectsOf, Offset, GetsTo, Deploys, BootEffects;
    var d, startup := Device(config, b.slot), Startup(config, file, b);
    var file1 := Replay(file, startup.effects);
    RequestIsServed(d, file1, b.requests, i);
    BootLayout(config, file, b);
    Shifted([Boot(b.slot)] + startup.effects, Serve(d, file1, b.requests), Offset(d, file1, b.requests, i),
            |EffectsOf(d, file1, b.requests, i)|);
  }

  lemma BootLayout(config: Config, file: Stored, b: BootScript)
    requires Startup(config, file, b).left
    ensures var startup := Startup(config, file, b);
      BootEffects(config, file, b) ==
        ([Boot(b.slot)] + startup.effects) + Serve(Device(config, b.slot), Replay(file, startup.effects), b.requests)
  {
    hide Startup, Serve, Replay;
  }

  /** What is neither of the boot nor of its start-up is of a request. */
  lemma BootServedBy(config: Config, file: Stored, b: BootScript, x: nat) returns (i: nat, o: nat)
    requires x < |BootEffects(config, file, b)|
    requires BootEffects(config, file, b)[x].Persist? || Completion(BootEffects(config, file, b)[x])
    ensures RunsFrom(config, file, b, i, o) && o <= x < o + |RequestEffects(config, file, b, i)|
  {
    var d, startup := Device(config, b.slot), Startup(config, file, b);
    StartupIsCalm(config, file, b);
    hide Startup, Replay, Serve, EffectsOf, Offset, GetsTo, Run;
    var head := [Boot(b.slot)] + startup.effects;
    assert BootEffects(config, file, b) == head + Served(config, file, b);
    assert Calm(head);
    assert forall y | 0 <= y < |head| :: BootEffects(config, file, b)[y] == head[y] && head[y] in head;
    assert x >= |head| && startup.left;
    i := ServedBy(d, Replay(file, startup.effects), b.requests, x - |head|);
    o := |head| + Offset(d, Replay(file, startup.effects), b.requests, i);
  }

  lemma StartupIsCalm(config: Config, file: Stored, b: BootScript)
    ensures Calm(Startup(config, file, b).effects)
  {
    RestIsCalm(Device(config, b.slot), file, if Exists(file, b.visible) then Rebooted else Idle, b.envs, Never, true,
               b.close);
  }

  /** The installation that follows the state persisted as effect `n` of the boot completes: its turn installs, the
      run gets to publish it, and the power is not cut before. */
  predicate InstallationFinishes(config: Config, b: BootScript, i: nat, n: nat) {
    && i < |b.requests| && Finishes(b.requests[i].envs, DeployingTurnOf(config))
    && b.cut > n + Delay(b.requests[i].envs, DeployingTurnOf(config))
  }

  /** Within the boot the state is persisted once for the request, and completed exactly if the turn finishes. */
  lemma DeploymentInBoot(config: Config, file: Stored, b: BootScript, i: nat, n: nat)
    requires DeployedBy(config, file, b, i, n)
    ensures var boot, envs, e := BootEffects(config, file, b), b.requests[i].envs, DeployingTurnOf(config);
      && n < |boot| && boot[n] == Persist(PersistentState(b.requests[i].id.uuid, b.slot))
      && (Finishes(envs, e) ==>
           && n + Delay(envs, e) < |boot| && Completion(boot[n + Delay(envs, e)])
           && forall x | n < x <= n + Delay(envs, e) :: !boot[x].Persist? && !PublishesSuccess(boot[x]))
  {
    hide Startup, GetsTo, Offset, EffectsOf, Replay, BootEffects, Deploys, Installs, Delay, Finishes;
    var o: nat :| RunsFrom(config, file, b, i, o) &&
      o <= n < o + |RequestEffects(config, file, b, i)| && RequestEffects(config, file, b, i)[n - o].Persist?;
    BootServes(config, file, b, i, o);
    RequestExists(config, file, b, i, o);
    hide *;
    DeploymentCarriesOver(BootEffects(config, file, b), o, RequestEffects(config, file, b, i), n,
                          PersistentState(b.requests[i].id.uuid, b.slot), b.requests[i].envs, DeployingTurnOf(config));
  }

  lemma RequestExists(config: Config, file: Stored, b: BootScript, i: nat, o: nat)
    requires RunsFrom(config, file, b, i, o)
    ensures i < |b.requests|
  {
    hide Startup, Offset, Replay, RunOf;
  }

  lemma DeploymentCarriesOver(boot: seq<Effect>, o: nat, effects: seq<Effect>, n: nat, state: PersistentState,
                              envs: seq<Environment>, e: nat)
    requires o + |effects| <= |boot| && boot[o..o + |effects|] == effects && Deploys(effects, state, envs, e)
    requires o <= n < o + |effects| && effects[n - o].Persist?
    ensures n < |boot| && boot[n] == Persist(state)
    ensures Finishes(envs, e) ==>
      && n + Delay(envs, e) < |boot| && Completion(boot[n + Delay(envs, e)])
      && forall x | n < x <= n + Delay(envs, e) :: !boot[x].Persist? && !PublishesSuccess(boot[x])
  {
    SliceAt(boot, o, effects);
    hide Installs, Delay, Finishes;
    assert effects[n - o] in effects;
    var m: nat :| DeploysAt(effects, m, state, envs, e);
    assert m == n - o;
  }

  lemma CompletionOf(effects: seq<Effect>, x: nat, state: PersistentState, envs: seq<Environment>, e: nat)
    returns (m: nat)
    requires Deploys(effects, state, envs, e) && x < |effects| && Completion(effects[x])
    ensures Finishes(envs, e) && m < |effects| && effects[m].Persist? && x == m + Delay(envs, e)
  {
    hide Installs, Delay, Finishes;
    assert effects[x] in effects;
    m :| DeploysAt(effects, m, state, envs, e);
  }

  lemma PersistedInBoot(config: Config, file: Stored, b: BootScript, n: nat) returns (i: nat)
    requires n < |BootEffects(config, file, b)| && BootEffects(config, file, b)[n].Persist?
    ensures DeployedBy(config, file, b, i, n)
  {
    hide Startup, Offset, GetsTo, Replay, RequestEffects, BootEffects, Deploys, Completion;
    var o;
    i, o := BootServedBy(config, file, b, n);
    BootServes(config, file, b, i, o);
    var effects, boot := RequestEffects(config, file, b, i), BootEffects(config, file, b);
    SliceAt(boot, o, effects);
  }

  lemma CompletedInBoot(config: Config, file: Stored, b: BootScript, y: nat) returns (i: nat, n: nat)
    requires y < |BootEffects(config, file, b)| && Completion(BootEffects(config, file, b)[y])
    ensures DeployedBy(config, file, b, i, n) && i < |b.requests|
    ensures var envs, e := b.requests[i].envs, DeployingTurnOf(config);
      Finishes(envs, e) && y == n + Delay(envs, e)
  {
    hide Startup, Offset, GetsTo, Replay, RequestEffects, BootEffects, Installs, Delay, Deploys, Finishes, Completion,
      DeployingTurnOf;
    var o;
    i, o := BootServedBy(config, file, b, y);
    BootServes(config, file, b, i, o);
    RequestExists(config, file, b, i, o);
    var effects, boot := RequestEffects(config, file, b, i), BootEffects(config, file, b);
    SliceAt(boot, o, effects);
    var m := CompletionOf(effects, y - o, PersistentState(b.requests[i].id.uuid, b.slot), b.requests[i].envs,
                          DeployingTurnOf(config));
    n := o + m;
    assert effects[n - o].Persist?;
  }

  // ----- Histories -----

  function Least(a: nat, b: nat): nat {
    if a < b then a else b
  }

  /** What a boot of the history does, up to its power cut. */
  function CutEffects(config: Config, boots: seq<BootScript>, m: nat): seq<Effect>
    requires m < |boots|
  {
    var effects := BootEffects(config, FileOf(History(config, boots[..m])), boots[m]);
    effects[..Least(boots[m].cut, |effects|)]
  }

  lemma LastBoot(config: Config, boots: seq<BootScript>)
    requires boots != []
    ensures var n := |boots| - 1;
      History(config, boots) == History(config, boots[..n]) + CutEffects(config, boots, n)
  {
    hide BootEffects, FileOf;
  }

  lemma SameBefore(config: Config, boots: seq<BootScript>, n: nat, m: nat)
    requires m < n <= |boots|
    ensures boots[..n][..m] == boots[..m] && CutEffects(config, boots[..n], m) == CutEffects(config, boots, m)
  {
    hide BootEffects, FileOf, History;
    assert boots[..n][..m] == boots[..m];
  }

  lemma {:induction false} BootOfHistory(config: Config, boots: seq<BootScript>, m: nat)
    requires m < |boots|
    ensures var from, cut := |History(config, boots[..m])|, CutEffects(config, boots, m);
      from + |cut| <= |History(config, boots)| && History(config, boots)[from..from + |cut|] == cut
    decreases |boots|
  {
    hide *;
    var n := |boots| - 1;
    LastBoot(config, boots);
    if m < n {
      BootOfHistory(config, boots[..n], m);
      SameBefore(config, boots, n, m);
    }
  }

  lemma {:induction false} HistoryOfBoots(config: Config, boots: seq<BootScript>, x: nat) returns (m: nat)
    requires x < |History(config, boots)|
    ensures m < |boots|
    ensures var from := |History(config, boots[..m])|; from <= x < from + |CutEffects(config, boots, m)|
    decreases |boots|
  {
    hide BootEffects, FileOf, CutEffects;
    var n := |boots| - 1;
    LastBoot(config, boots);
    if x < |History(config, boots[..n])| {
      m := HistoryOfBoots(config, boots[..n], x);
      SameBefore(config, boots, n, m);
    } else {
      m := n;
    }
  }

  /** Request `i` of boot `m` persists its state as effect `n` of that boot, which is effect `p` of the history. */
  ghost predicate DeployedIn(config: Config, boots: seq<BootScript>, m: nat, i: nat, n: nat, p: int) {
    && m < |boots| && i < |boots[m].requests| && n < boots[m].cut
    && DeployedBy(config, FileOf(History(config, boots[..m])), boots[m], i, n)
    && p == |History(config, boots[..m])| + n
  }

  /** Between `p` and `k` the runtime sees the installation complete. */
  predicate CompletedBetween(h: seq<Effect>, p: int, k: int)
    requires 0 <= p && k <= |h|
  {
    exists y :: p < y < k && Completion(h[y])
  }

  lemma PersistedInHistory(config: Config, boots: seq<BootScript>, p: nat) returns (m: nat, i: nat, n: nat)
    ensures p < |History(config, boots)| && History(config, boots)[p].Persist? ==>
              DeployedIn(config, boots, m, i, n, p)
  {
    hide BootEffects, History, FileOf, CutEffects, DeployedBy;
    m, i, n := 0, 0, 0;
    if p < |History(config, boots)| && History(config, boots)[p].Persist? {
      m := HistoryOfBoots(config, boots, p);
      BootOfHistory(config, boots, m);
      var h, from, cut := History(config, boots), |History(config, boots[..m])|, CutEffects(config, boots, m);
      n := p - from;
      SliceAt(h, from, cut);
      CutOf(config, boots, m, n);
      i := PersistedInBoot(config, FileOf(History(config, boots[..m])), boots[m], n);
      DeployedHasRequest(config, FileOf(History(config, boots[..m])), boots[m], i, n);
    }
  }

  lemma DeployedHasRequest(config: Config, file: Stored, b: BootScript, i: nat, n: nat)
    requires DeployedBy(config, file, b, i, n)
    ensures i < |b.requests|
  {
  }

  lemma CutOf(config: Config, boots: seq<BootScript>, m: nat, n: nat)
    requires m < |boots| && n < |CutEffects(config, boots, m)|
    ensures var effects := BootEffects(config, FileOf(History(config, boots[..m])), boots[m]);
      n < |effects| && n < boots[m].cut && CutEffects(config, boots, m)[n] == effects[n]
  {
    hide BootEffects, History, FileOf;
  }

  lemma CompletedInHistory(config: Config, boots: seq<BootScript>, y: nat)
    returns (m: nat, i: nat, n: nat, p: nat)
    requires y < |History(config, boots)| && Completion(History(config, boots)[y])
    ensures DeployedIn(config, boots, m, i, n, p) && InstallationFinishes(config, boots[m], i, n)
    ensures y == p + Delay(boots[m].requests[i].envs, DeployingTurnOf(config))
  {
    hide BootEffects, History, FileOf, CutEffects, DeployedBy, Finishes, Delay, Completion;
    m := HistoryOfBoots(config, boots, y);
    BootOfHistory(config, boots, m);
    var h, from, cut := History(config, boots), |History(config, boots[..m])|, CutEffects(config, boots, m);
    SliceAt(h, from, cut);
    CutOf(config, boots, m, y - from);
    i, n := CompletedInBoot(config, FileOf(History(config, boots[..m])), boots[m], y - from);
    p := from + n;
  }

  /** What a deployment leaves in the history, and its completion if it finishes. */
  lemma DeploymentInHistory(config: Config, boots: seq<BootScript>, m: nat, i: nat, n: nat, p: int)
    requires DeployedIn(config, boots, m, i, n, p)
    ensures m < |boots| && i < |boots[m].requests|
    ensures var h, b := History(config, boots), boots[m];
      && 0 <= p < |h| && h[p] == Persist(PersistentState(b.requests[i].id.uuid, b.slot))
      && (InstallationFinishes(config, b, i, n) ==>
           var y := p + Delay(b.requests[i].envs, DeployingTurnOf(config));
           && y < |h| && Completion(h[y])
           && forall x | p < x <= y :: !h[x].Persist? && !PublishesSuccess(h[x]))
  {
    hide BootEffects, History, FileOf, Installs, Delay, DeployedBy, Finishes;
    var from, file := |History(config, boots[..m])|, FileOf(History(config, boots[..m]));
    var h, b, boot := History(config, boots), boots[m], BootEffects(config, file, boots[m]);
    DeploymentInBoot(config, file, b, i, n);
    BootInHistory(config, boots, m);
    assert h[p] == boot[n];
    if InstallationFinishes(config, b, i, n) {
      CompletionCarriesOver(h, from, boot, Least(b.cut, |boot|), n, Delay(b.requests[i].envs, DeployingTurnOf(config)));
    }
  }

  lemma CompletionCarriesOver(h: seq<Effect>, from: nat, boot: seq<Effect>, cut: nat, n: nat, delay: nat)
    requires from + cut <= |h| && n + delay < cut <= |boot|
    requires forall x | from <= x < from + cut :: h[x] == boot[x - from]
    requires Completion(boot[n + delay])
    requires forall x | n < x <= n + delay :: !boot[x].Persist? && !PublishesSuccess(boot[x])
    ensures Completion(h[from + n + delay])
    ensures forall x | from + n < x <= from + n + delay :: !h[x].Persist? && !PublishesSuccess(h[x])
  {
    hide Completion, PublishesSuccess;
  }

  /** Up to its power cut the history has the effects of each boot. */
  lemma BootInHistory(config: Config, boots: seq<BootScript>, m: nat)
    requires m < |boots|
    ensures var before := History(config, boots[..m]);
      var from, boot := |before|, BootEffects(config, FileOf(before), boots[m]);
      && from + Least(boots[m].cut, |boot|) <= |History(config, boots)|
      && forall x | from <= x < from + Least(boots[m].cut, |boot|) :: History(config, boots)[x] == boot[x - from]
  {
    hide BootEffects, History, FileOf;
    var h, from, cut := History(config, boots), |History(config, boots[..m])|, CutEffects(config, boots, m);
    var boot := BootEffects(config, FileOf(History(config, boots[..m])), boots[m]);
    assert cut == boot[..Least(boots[m].cut, |boot|)];
    BootOfHistory(config, boots, m);
    SliceOfPrefix(h, from, boot, cut);
  }

  lemma SliceOfPrefix(h: seq<Effect>, from: nat, boot: seq<Effect>, cut: seq<Effect>)
    requires |cut| <= |boot| && cut == boot[..|cut|] && from + |cut| <= |h| && h[from..from + |cut|] == cut
    ensures forall x | from <= x < from + |cut| :: h[x] == boot[x - from]
  {
    SliceAt(h, from, cut);
  }

  /** The success at `k` is of the deployment that persisted the state at `p`, the last one before it, and that
      installation was seen to complete if and only if it finishes in its boot. */
  ghost predicate InstalledExactly(config: Config, boots: seq<BootScript>, k: nat, m: nat, i: nat, n: nat, p: int)
    requires k < |History(config, boots)| && PublishesSuccess(History(config, boots)[k])
  {
    var h := History(config, boots);
    && DeployedIn(config, boots, m, i, n, p) && LastPersisted(h[..k], p)
    && boots[m].requests[i].id.uuid == h[k].status.id.uuid
    && (CompletedBetween(h, p, k) <==> InstallationFinishes(config, boots[m], i, n))
  }

  /** A success does not imply that the image was installed. Which deployment it follows is decided: the last one
      that persisted its state. Its installation was seen to complete if and only if the turn that deployed it
      installed with signal 0, its run got one turn further, and the power of that boot lasted until then. */
  lemma SuccessIsInstalledExactlyWhenFinished(config: Config, boots: seq<BootScript>, k: nat)
    ensures k < |History(config, boots)| && PublishesSuccess(History(config, boots)[k]) ==>
              exists m: nat, i: nat, n: nat, p: int :: InstalledExactly(config, boots, k, m, i, n, p)
  {
    hide *;
    var h := History(config, boots);
    if k < |h| && PublishesSuccess(h[k]) {
      var p := VouchedDeployment(config, boots, k);
      LastBefore(h, k, p);
      if CompletedBetween(h, p, k) {
        var y := SomeCompletion(h, p, k);
        var m, i, n, q := CompletedInHistory(config, boots, y);
        DeploymentInHistory(config, boots, m, i, n, q);
        SameDeployment(config, boots, m, i, n, h, p, q, y, k);
        Conclude(config, boots, k, m, i, n, p);
      } else {
        var m, i, n := PersistedInHistory(config, boots, p);
        DeploymentInHistory(config, boots, m, i, n, p);
        if InstallationFinishes(config, boots[m], i, n) {
          NotCompleted(config, boots, m, i, n, h, p, k);
        }
        Conclude(config, boots, k, m, i, n, p);
      }
    }
  }

  lemma VouchedDeployment(config: Config, boots: seq<BootScript>, k: nat) returns (p: int)
    ensures var h := History(config, boots);
      k < |h| && PublishesSuccess(h[k]) ==>
        LastPersisted(h[..k], p) && 0 <= p < k && h[p].Persist? && h[p].state.uuid == h[k].status.id.uuid
  {
    hide SlotOf, SinceBoot, History;
    var h := History(config, boots);
    p := 0;
    if k < |h| && PublishesSuccess(h[k]) {
      SuccessIsVouchedFor(config, boots);
      assert Vouched(h[..k], h[k].status.id);
      p :| LastPersisted(h[..k], p) && h[..k][p].state.uuid == h[k].status.id.uuid;
    }
  }

  lemma LastBefore(h: seq<Effect>, k: nat, p: int)
    requires k <= |h| && LastPersisted(h[..k], p)
    ensures 0 <= p < k && h[p].Persist? && forall x | p < x < k :: !h[x].Persist?
  {
    assert forall x | 0 <= x < k :: h[..k][x] == h[x];
  }

  lemma SomeCompletion(h: seq<Effect>, p: int, k: int) returns (y: int)
    requires 0 <= p && k <= |h| && CompletedBetween(h, p, k)
    ensures p < y < k && Completion(h[y])
  {
    y :| p < y < k && Completion(h[y]);
  }

  /** A completion after the last deployment is the completion of that one. */
  lemma SameDeployment(config: Config, boots: seq<BootScript>, m: nat, i: nat, n: nat,
                       h: seq<Effect>, p: int, q: int, y: int, k: int)
    requires DeployedIn(config, boots, m, i, n, q) && InstallationFinishes(config, boots[m], i, n)
    requires y == q + Delay(boots[m].requests[i].envs, DeployingTurnOf(config))
    requires 0 <= p < y < k <= |h| && 0 <= q < |h| && h[p].Persist? && h[q].Persist?
    requires (forall x | p < x < k :: !h[x].Persist?) && (forall x | q < x <= y :: !h[x].Persist?)
    ensures p == q
  {
  }

  /** If it finishes it is completed before the success. */
  lemma NotCompleted(config: Config, boots: seq<BootScript>, m: nat, i: nat, n: nat, h: seq<Effect>, p: int, k: int)
    requires m < |boots| && InstallationFinishes(config, boots[m], i, n) && 0 <= p < k < |h| && PublishesSuccess(h[k])
    requires var y := p + Delay(boots[m].requests[i].envs, DeployingTurnOf(config));
      y < |h| && Completion(h[y]) && forall x | p < x <= y :: !PublishesSuccess(h[x])
    ensures CompletedBetween(h, p, k)
  {
  }

  lemma Conclude(config: Config, boots: seq<BootScript>, k: nat, m: nat, i: nat, n: nat, p: int)
    requires m < |boots| && i < |boots[m].requests|
    ensures var h := History(config, boots);
      && k < |h| && PublishesSuccess(h[k]) && 0 <= p <= k && h[p].Persist?
      && DeployedIn(config, boots, m, i, n, p) && LastPersisted(h[..k], p)
      && boots[m].requests[i].id.uuid == h[p].state.uuid == h[k].status.id.uuid
      && (CompletedBetween(h, p, k) <==> InstallationFinishes(config, boots[m], i, n)) ==>
        exists m: nat, i: nat, n: nat, p: int :: InstalledExactly(config, boots, k, m, i, n, p)
  {
    hide History, DeployedIn, InstallationFinishes, CompletedBetween, LastPersisted;
    var h := History(config, boots);
    if && k < |h| && PublishesSuccess(h[k]) && 0 <= p <= k && h[p].Persist?
       && DeployedIn(config, boots, m, i, n, p) && LastPersisted(h[..k], p)
       && boots[m].requests[i].id.uuid == h[p].state.uuid == h[k].status.id.uuid
       && (CompletedBetween(h, p, k) <==> InstallationFinishes(config, boots[m], i, n)) {
      assert InstalledExactly(config, boots, k, m, i, n, p);
    }
  }

  // ----- Successes without an installation -----

  lemma HistoryGrows(config: Config, boots: seq<BootScript>, b: BootScript)
    ensures var h := History(config, boots);
      var effects := BootEffects(config, FileOf(h), b);
      History(config, boots + [b]) == h + effects[..Least(b.cut, |effects|)]
  {
    hide BootEffects, FileOf;
    assert (boots + [b])[..|boots|] == boots;
  }

  lemma {:induction false} KeepsFile(file: Stored, effects: seq<Effect>)
    requires forall e <- effects :: !e.Persist? && !e.Tear? && !e.Erase?
    ensures Replay(file, effects) == file
    decreases |effects|
  {
    if effects != [] {
      KeepsFile(file, effects[1..]);
    }
  }

  /** A streamed request that is deployed with these answers, and the power cut of its boot. */
  function FirstScript(id: OtaId, from: string, env: Environment, close: Closing, cut: nat): BootScript {
    BootScript(from, true, [], close, [Request.Request(id, [env, env, env, env], Never, close)], cut)
  }

  function SecondScript(to: string, check: Environment, close: Closing): BootScript {
    BootScript(to, true, [check, check], close, [], 4)
  }

  /** What the first boot does: it persists its state as its sixth effect, and no other. */
  lemma FirstBootDeploys(config: Config, id: OtaId, from: string, env: Environment, close: Closing, cut: nat)
    requires config.streaming && env.slotKnown && env.write.Written? && cut >= 6
    ensures var h := History(config, [FirstScript(id, from, env, close, cut)]);
      && |h| >= 6 && h[..6] == UntilPersisted(id, from)
      && forall x | 6 <= x < |h| :: !h[x].Persist? && !h[x].Tear?
    ensures var r := Run(Device(config, from), Absent, Init(id), [env, env, env, env], Never, true, close);
      History(config, [FirstScript(id, from, env, close, cut)]) ==
        ([Boot(from), Publish(Idle)] + r.effects)[..Least(cut, 2 + |r.effects|)]
  {
    var b, envs := FirstScript(id, from, env, close, cut), [env, env, env, env];
    FirstBoot(config, id, b, envs);
    NoBoots(config);
    HistoryGrows(config, [], b);
    assert [] + [b] == [b];
    var d := Device(config, from);
    var q := Request.Request(id, envs, Never, close);
    RequestDeploys(d, Absent, q);
    hide *;
    FirstBootIs(config, id, from, env, close, cut);
    PersistsOnce(RunOf(d, Absent, q).effects, id, from, envs, History(config, [b]), cut);
  }

  lemma FirstBootIs(config: Config, id: OtaId, from: string, env: Environment, close: Closing, cut: nat)
    requires var b := FirstScript(id, from, env, close, cut);
      BootEffects(config, Absent, b) == [Boot(from), Publish(Idle)] +
        Run(Device(config, from), Absent, Init(id), [env, env, env, env], Never, true, close).effects
    ensures var q := Request.Request(id, [env, env, env, env], Never, close);
      RunOf(Device(config, from), Absent, q) ==
        Run(Device(config, from), Absent, Init(id), [env, env, env, env], Never, true, close)
  {
    hide Run;
  }

  lemma PersistsOnce(effects: seq<Effect>, id: OtaId, from: string, envs: seq<Environment>, h: seq<Effect>, cut: nat)
    requires Deploys(effects, PersistentState(id.uuid, from), envs, 2) && |effects| >= 4 && cut >= 6
    requires ([Boot(from), Publish(Idle)] + effects)[..6] == UntilPersisted(id, from)
    requires h == ([Boot(from), Publish(Idle)] + effects)[..Least(cut, 2 + |effects|)]
    ensures |h| >= 6 && h[..6] == UntilPersisted(id, from)
    ensures forall x | 6 <= x < |h| :: !h[x].Persist? && !h[x].Tear?
  {
    hide Finishes, Delay;
    var whole := [Boot(from), Publish(Idle)] + effects;
    assert effects[3] == whole[5] == whole[..6][5];
    assert effects[3].Persist? && effects[3] in effects;
    var n: nat :| DeploysAt(effects, n, PersistentState(id.uuid, from), envs, 2);
    assert n == 3;
    assert forall x | 6 <= x < |h| :: h[x] == effects[x - 2];
    assert h[..6] == whole[..6];
  }

  /** The file of a first boot that does not get to erase it names the update. */
  lemma FirstBootKeeps(h: seq<Effect>, id: OtaId, from: string)
    requires |h| >= 6 && h[..6] == UntilPersisted(id, from)
    requires forall x | 6 <= x < |h| :: !h[x].Persist? && !h[x].Tear? && !h[x].Erase?
    ensures FileOf(h) == Saved(PersistentState(id.uuid, from))
  {
    SavedByFirst(id, from);
    assert h == h[..6] + h[6..];
    ReplayAppend(Absent, h[..6], h[6..]);
    hide UntilPersisted;
    forall e <- h[6..]
      ensures !e.Persist? && !e.Tear? && !e.Erase?
    {
      var x :| 0 <= x < |h[6..]| && h[6..][x] == e;
      assert h[x + 6] == e;
    }
    KeepsFile(FileOf(h[..6]), h[6..]);
  }

  /** The two boots, and where the state and the success are. */
  lemma TwoBoots(config: Config, id: OtaId, from: string, to: string, env: Environment, check: Environment,
                 close: Closing, cut: nat)
    requires config.streaming && from != to && env.slotKnown && env.write.Written? && cut >= 6
    requires check.slotKnown && check.visible && check.readable && check.primary.Some? && check.marked == check.primary
    requires forall e <- History(config, [FirstScript(id, from, env, close, cut)]) :: !e.Erase?
    ensures var first, second := FirstScript(id, from, env, close, cut), SecondScript(to, check, close);
      var h1, h := History(config, [first]), History(config, [first, second]);
      && |h1| >= 6 && |h| == |h1| + 4 && h[..|h1|] == h1
      && h[5] == Persist(PersistentState(id.uuid, from)) && (forall x | 6 <= x < |h| :: !h[x].Persist?)
      && PublishesSuccess(h[|h| - 1]) && h[|h| - 1].status.id.uuid == id.uuid
  {
    hide *;
    var first, second := FirstScript(id, from, env, close, cut), SecondScript(to, check, close);
    var h1 := History(config, [first]);
    FirstBootDeploys(config, id, from, env, close, cut);
    assert forall x | 0 <= x < |h1| :: h1[x] in h1;
    FirstBootKeeps(h1, id, from);
    SecondScriptIs(to, check, close);
    SecondBoot(config, PersistentState(id.uuid, from), second, check);
    HistoryGrows(config, [first], second);
    assert [first] + [second] == [first, second];
    var effects := BootEffects(config, FileOf(h1), second);
    assert Least(4, |effects|) == 4 by { LeastOf(4, |effects|); }
    JoinTwoBoots(h1, History(config, [first, second]), id, from, to, check);
  }

  lemma SecondScriptIs(to: string, check: Environment, close: Closing)
    ensures var b := SecondScript(to, check, close);
      b.envs == [check, check] && b.visible && b.slot == to && b.cut == 4
  {
  }

  lemma LeastOf(a: nat, b: nat)
    ensures Least(a, b) == if a < b then a else b
  {
  }

  lemma JoinTwoBoots(h1: seq<Effect>, h: seq<Effect>, id: OtaId, from: string, to: string, check: Environment)
    requires |h1| >= 6 && h1[..6] == UntilPersisted(id, from) && forall x | 6 <= x < |h1| :: !h1[x].Persist?
    requires check.primary.Some? && check.marked.Some?
    requires h == h1 + UntilSuccess(id.uuid, to, MarkGood(check.primary.value, check.marked.value))
    ensures |h| == |h1| + 4 && h[..|h1|] == h1
    ensures h[5] == Persist(PersistentState(id.uuid, from)) && forall x | 6 <= x < |h| :: !h[x].Persist?
    ensures PublishesSuccess(h[|h| - 1]) && h[|h| - 1].status.id.uuid == id.uuid
  {
    assert h1[..6][5] == h1[5] == h[5];
  }

  /** The only deployment of the two boots. */
  lemma OnlyDeployment(config: Config, first: BootScript, second: BootScript, m: nat, i: nat, n: nat)
    requires DeployedIn(config, [first, second], m, i, n, 5) && |first.requests| == 1
    requires |History(config, [first])| >= 6
    ensures m == 0 && i == 0 && n == 5
  {
    hide BootEffects, FileOf, DeployedBy;
    assert [first, second][..1] == [first] && [first, second][..0] == [];
  }

  /** Whatever the world answers to a deployment, a success in the other slot can follow it, as long as its boot does
      not get to erase the file; and its installation was seen to complete if and only if it finishes. It need not,
      if the power is cut before or during it, if it is refused, or if it fails. */
  lemma AnyDeploymentCanSucceed(config: Config, id: OtaId, from: string, to: string, env: Environment,
                                check: Environment, close: Closing, cut: nat)
    requires config.streaming && from != to && env.slotKnown && env.write.Written? && cut >= 6
    requires check.slotKnown && check.visible && check.readable && check.primary.Some? && check.marked == check.primary
    requires forall e <- History(config, [FirstScript(id, from, env, close, cut)]) :: !e.Erase?
    ensures var h := History(config, [FirstScript(id, from, env, close, cut), SecondScript(to, check, close)]);
      && |h| >= 10 && PublishesSuccess(h[|h| - 1]) && h[|h| - 1].status.id.uuid == id.uuid
      && h[5] == Persist(PersistentState(id.uuid, from))
      && (CompletedBetween(h, 5, |h| - 1) <==> Installs(env) && cut > 5 + Delay([env], 0))
  {
    hide *;
    var first, second := FirstScript(id, from, env, close, cut), SecondScript(to, check, close);
    TwoBoots(config, id, from, to, env, check, close, cut);
    FirstFinishes(config, id, from, env, close, cut);
    FinishesExactly(config, first, second);
  }

  lemma FirstFinishes(config: Config, id: OtaId, from: string, env: Environment, close: Closing, cut: nat)
    requires config.streaming
    ensures var first := FirstScript(id, from, env, close, cut);
      |first.requests| == 1 &&
      (InstallationFinishes(config, first, 0, 5) <==> Installs(env) && cut > 5 + Delay([env], 0))
  {
    hide Installs, OtaDeploy.Statuses, OtaDeploy.Fold;
    var envs := [env, env, env, env];
    assert Delay(envs, 2) == Delay([env], 0);
  }

  lemma FinishesExactly(config: Config, first: BootScript, second: BootScript)
    requires |first.requests| == 1
    ensures var h := History(config, [first, second]);
      |h| >= 10 && |History(config, [first])| >= 6 && h[5].Persist? && PublishesSuccess(h[|h| - 1]) &&
      (forall x | 6 <= x < |h| :: !h[x].Persist?) ==>
        (CompletedBetween(h, 5, |h| - 1) <==> InstallationFinishes(config, first, 0, 5))
  {
    hide *;
    var boots, h := [first, second], History(config, [first, second]);
    if |h| >= 10 && |History(config, [first])| >= 6 && h[5].Persist? && PublishesSuccess(h[|h| - 1]) &&
       forall x | 6 <= x < |h| :: !h[x].Persist?
    {
      var k := |h| - 1;
      var m, i, n := PersistedInHistory(config, boots, 5);
      OnlyDeployment(config, first, second, m, i, n);
      DeploymentInHistory(config, boots, 0, 0, 5, 5);
      if InstallationFinishes(config, first, 0, 5) {
        NotCompleted(config, boots, 0, 0, 5, h, 5, k);
      }
      if CompletedBetween(h, 5, k) {
        var y := SomeCompletion(h, 5, k);
        var m', i', n', q := CompletedInHistory(config, boots, y);
        DeploymentInHistory(config, boots, m', i', n', q);
        SameDeployment(config, boots, m', i', n', h, 5, q, y, k);
        OnlyDeployment(config, first, second, m', i', n');
      }
    }
  }

  /** The first boot does not get to erase the file if it is cut right after the state or the start of the
      installation, or if the file cannot be seen or removed in the end. */
  lemma FirstBootDoesNotErase(config: Config, id: OtaId, from: string, env: Environment, close: Closing, cut: nat)
    requires config.streaming && env.slotKnown && env.write.Written? && cut >= 6
    requires cut == 6 || (cut == 7 && env.installs) || !(close.visible && close.removable)
    ensures forall e <- History(config, [FirstScript(id, from, env, close, cut)]) :: !e.Erase?
  {
    hide *;
    var d, envs := Device(config, from), [env, env, env, env];
    var h := History(config, [FirstScript(id, from, env, close, cut)]);
    var effects := Run(d, Absent, Init(id), envs, Never, true, close).effects;
    FirstBootDeploys(config, id, from, env, close, cut);
    FirstTurns(d, id, envs, close);
    assert envs[2..] == [env, env];
    DeployingEffects(d, id, [env, env], close);
    assert effects[2..][2] == effects[4];
    ErasesAtTheEnd(d, Absent, Init(id), envs, Never, true, close);
    NoEraseIn(h, effects, cut, id, from, close, env);
  }

  lemma NoEraseIn(h: seq<Effect>, effects: seq<Effect>, cut: nat, id: OtaId, from: string, close: Closing,
                  env: Environment)
    requires h == ([Boot(from), Publish(Idle)] + effects)[..Least(cut, 2 + |effects|)]
    requires |h| >= 6 && h[..6] == UntilPersisted(id, from)
    requires cut == 6 || (cut == 7 && env.installs) || !(close.visible && close.removable)
    requires !(close.visible && close.removable) ==> Erase !in effects
    requires env.installs ==> |effects| >= 5 && effects[4].Install?
    ensures forall e <- h :: !e.Erase?
  {
    forall x | 0 <= x < |h|
      ensures !h[x].Erase?
    {
      if x < 6 {
        assert h[x] == h[..6][x];
      } else {
        assert h[x] == effects[x - 2] && effects[x - 2] in effects;
      }
    }
  }

  /** The first effects of the deploying turn and of the one after it. */
  lemma DeployingEffects(d: Device, id: OtaId, envs: seq<Environment>, close: Closing)
    requires |envs| >= 2 && envs[0].slotKnown && envs[0].write.Written?
    ensures var effects := Run(d, Absent, Deploying(id, NO_PROGRESS), envs, Never, true, close).effects;
      |effects| >= 3 &&
      if envs[0].installs then effects[2].Install?
      else effects[2] == Publish(Failure(InvalidBaseImage(InstallImage), Some(id)))
  {
    hide OtaDeploy.Statuses, OtaDeploy.Fold, OtaDeploy.EndingOf;
    var status, step := Deploying(id, NO_PROGRESS), Deploy(d, id, envs[0]);
    assert Next(d, Absent, status, envs[0]) == step;
    var t := TurnOf(status, step, Never, true);
    assert t.effects == [Publish(status)] + step.effects;
    if envs[0].installs {
      assert step.effects[1].Install?;
    } else {
      assert |step.effects| == 1;
      var next := Failure(InvalidBaseImage(InstallImage), Some(id));
      FailureIsPublished(d, Replay(Absent, t.effects), next, envs[1..], t.token, t.check, close);
    }
    hide Next, Deploy, Replay, TurnOf;
  }

  lemma FailureIsPublished(d: Device, file: Stored, status: OtaStatus, envs: seq<Environment>, token: Token,
                           check: bool, close: Closing)
    requires status.Failure? && envs != []
    ensures var effects := Run(d, file, status, envs, token, check, close).effects;
      effects != [] && effects[0] == Publish(status)
  {
    hide Next, Replay;
  }

  /** One update, two outcomes: its installation is refused, which is reported, the file cannot be removed, and the
      other slot reports the success of the same update. */
  lemma OutcomeReportedTwice(config: Config, id: OtaId, from: string, to: string, env: Environment,
                             check: Environment, close: Closing, cut: nat)
    requires config.streaming && from != to && env.slotKnown && env.write.Written? && !env.installs && cut >= 7
    requires check.slotKnown && check.visible && check.readable && check.primary.Some? && check.marked == check.primary
    requires !(close.visible && close.removable)
    ensures var h := History(config, [FirstScript(id, from, env, close, cut), SecondScript(to, check, close)]);
      && |h| >= 11 && h[6] == Publish(Failure(InvalidBaseImage(InstallImage), Some(id)))
      && ReportedFor(h[6], id.uuid) && ReportedFor(h[|h| - 1], id.uuid) && PublishesSuccess(h[|h| - 1])
      && forall x | 6 <= x < |h| :: !h[x].Persist?
  {
    hide *;
    var first, second := FirstScript(id, from, env, close, cut), SecondScript(to, check, close);
    FirstBootDoesNotErase(config, id, from, env, close, cut);
    TwoBoots(config, id, from, to, env, check, close, cut);
    RefusalIsPublished(config, id, from, env, close, cut);
    TwoOutcomes(History(config, [first]), History(config, [first, second]), id);
  }

  lemma TwoOutcomes(h1: seq<Effect>, h: seq<Effect>, id: OtaId)
    requires |h1| >= 7 && |h| == |h1| + 4 && h[..|h1|] == h1
    requires h1[6] == Publish(Failure(InvalidBaseImage(InstallImage), Some(id)))
    requires PublishesSuccess(h[|h| - 1]) && h[|h| - 1].status.id.uuid == id.uuid
    ensures |h| >= 11 && h[6] == h1[6] && ReportedFor(h[6], id.uuid) && ReportedFor(h[|h| - 1], id.uuid)
  {
    assert h[..|h1|][6] == h[6];
  }

  /** A refused installation is published right after the state was persisted. */
  lemma RefusalIsPublished(config: Config, id: OtaId, from: string, env: Environment, close: Closing, cut: nat)
    requires config.streaming && env.slotKnown && env.write.Written? && !env.installs && cut >= 7
    ensures var h := History(config, [FirstScript(id, from, env, close, cut)]);
      |h| >= 7 && h[6] == Publish(Failure(InvalidBaseImage(InstallImage), Some(id)))
  {
    hide *;
    var d, envs := Device(config, from), [env, env, env, env];
    var effects := Run(d, Absent, Init(id), envs, Never, true, close).effects;
    FirstBootDeploys(config, id, from, env, close, cut);
    FirstTurns(d, id, envs, close);
    assert envs[2..] == [env, env];
    DeployingEffects(d, id, [env, env], close);
    assert effects[2..][2] == effects[4];
    SeventhEffect(from, effects, cut);
  }

  lemma SeventhEffect(from: string, effects: seq<Effect>, cut: nat)
    requires |effects| >= 5 && cut >= 7
    ensures var h := ([Boot(from), Publish(Idle)] + effects)[..Least(cut, 2 + |effects|)];
      |h| >= 7 && h[6] == effects[4]
  {
  }
}
