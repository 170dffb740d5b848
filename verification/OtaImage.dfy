/** Which images get installed: on a device that downloads them, only those that arrived whole and are meant for
    it; and when the device reboots into one. */
module OtaImages {
  import opened Wrappers
  import opened OtaStatuses
  import opened OtaEngine
  import opened OtaRestart
  import opened OtaInstall
  import OtaDownload
  import OtaDeploy
  import OtaRuns

  /** Nothing of a deployment: neither its state nor the installation, its completion, or the reboot. */
  predicate Untouched(effects: seq<Effect>) {
    forall e <- effects :: !e.Persist? && !e.Tear? && !e.Install? && !e.Reboot? && !Completion(e)
  }

  // ----- One run -----

  lemma UntouchedStep(d: Device, file: Stored, status: OtaStatus, env: Environment)
    requires !status.Deploying? && !status.Deployed?
    ensures Untouched(Next(d, file, status, env).effects)
  {
    TransitionEffects(d, file, status, env);
    if status.Downloading? {
      DownloadPublishes(status.id, env);
    }
    hide Download;
  }

  lemma UntouchedTurn(d: Device, file: Stored, status: OtaStatus, env: Environment, token: Token, check: bool)
    requires !status.Deploying? && !status.Deployed?
    ensures Untouched(TurnOf(status, Next(d, file, status, env), token, check).effects)
  {
    hide Next;
    var step := Next(d, file, status, env);
    UntouchedStep(d, file, status, env);
    var t := TurnOf(status, step, token, check);
    assert forall x <- t.effects :: x in step.effects || x == Publish(status) || x == NOTICE;
  }

  lemma UntouchedTogether(a: seq<Effect>, b: seq<Effect>)
    ensures Untouched(a + b) <==> Untouched(a) && Untouched(b)
  {
  }

  lemma LowRank(status: OtaStatus)
    ensures OtaRuns.Rank(status) <= 2 ==> !status.Deploying? && !status.Deployed?
    ensures status.Failure? ==> OtaRuns.Rank(status) <= 2
    ensures status.Rebooting? ==> OtaRuns.Rank(status) <= 2
  {
  }

  /** After a deployment, or without one, nothing is touched. */
  lemma {:induction false} RestIsUntouched(d: Device, file: Stored, status: OtaStatus, envs: seq<Environment>,
                                           token: Token, check: bool, close: Closing)
    requires OtaRuns.Rank(status) <= 2
    ensures Untouched(Run(d, file, status, envs, token, check, close).effects)
    decreases |envs|
  {
    if !status.Idle? && envs != [] {
      var t := TurnOf(status, Next(d, file, status, envs[0]), token, check);
      LowRank(status);
      UntouchedTurn(d, file, status, envs[0], token, check);
      OtaRuns.TurnDescends(d, file, status, envs[0], token, check);
      hide Next, TurnOf, Replay;
      RestIsUntouched(d, Replay(file, t.effects), t.status, envs[1..], t.token, t.check, close);
    }
  }

  /** A request before its deployment. */
  predicate Before(status: OtaStatus, id: OtaId) {
    status == Init(id) || status == Acknowledged(id) || status == Downloading(id, 0)
  }

  /** How many turns it is to the deployment. */
  function TurnsLeft(config: Config, status: OtaStatus): nat {
    (if status.Init? then 2 else 1) + (if status.Downloading? || config.streaming then 0 else 1)
  }

  /** The image was downloaded in the turn before the deployment, unless it is streamed. */
  predicate Downloaded(config: Config, status: OtaStatus, envs: seq<Environment>, head: seq<Effect>, id: OtaId) {
    (config.streaming && !status.Downloading?) ||
    (|envs| >= TurnsLeft(config, status) && ImageArrives(envs[TurnsLeft(config, status) - 1]) &&
     Publish(Downloading(id, 0)) in head)
  }

  /** What the turn before leads to. */
  predicate Follows(config: Config, status: OtaStatus, next: OtaStatus, id: OtaId, env: Environment) {
    && (next.Failure? || Before(next, id) || next == Deploying(id, NO_PROGRESS))
    && (Before(next, id) ==>
         TurnsLeft(config, status) == TurnsLeft(config, next) + 1 && (next.Downloading? ==> !config.streaming))
    && (next == Deploying(id, NO_PROGRESS) ==>
         TurnsLeft(config, status) == 1 && if status.Downloading? then ImageArrives(env) else config.streaming)
  }

  lemma StepBefore(d: Device, file: Stored, id: OtaId, status: OtaStatus, env: Environment)
    requires Before(status, id)
    ensures Follows(d.config, status, Next(d, file, status, env).status, id, env)
  {
    hide Download, ImageArrives;
    if status.Downloading? {
      DownloadGate(id, env);
    }
  }

  /** How a turn before the deployment ends. */
  lemma TurnBefore(d: Device, file: Stored, id: OtaId, status: OtaStatus, env: Environment, token: Token, check: bool)
    requires Before(status, id)
    ensures var t := TurnOf(status, Next(d, file, status, env), token, check);
      && Untouched(t.effects) && t.effects != [] && t.effects[0] == Publish(status) && !status.Idle?
      && (OtaRuns.Rank(t.status) <= 2 || Before(t.status, id) || t.status == Deploying(id, NO_PROGRESS))
      && (Before(t.status, id) ==>
           && TurnsLeft(d.config, status) == TurnsLeft(d.config, t.status) + 1
           && (t.status.Downloading? ==> !d.config.streaming))
      && (t.status == Deploying(id, NO_PROGRESS) ==>
           && TurnsLeft(d.config, status) == 1
           && if status.Downloading? then ImageArrives(env) else d.config.streaming)
  {
    hide Next, TurnsLeft, ImageArrives, Untouched;
    StepBefore(d, file, id, status, env);
    UntouchedTurn(d, file, status, env, token, check);
  }

  /** A run either touches nothing, or publishes some statuses, the download among them if there is one, and then
      goes on with the deployment. */
  lemma {:induction false} BeforeDeploying(d: Device, file: Stored, id: OtaId, status: OtaStatus,
                                           envs: seq<Environment>, token: Token, check: bool, close: Closing)
    returns (deploys: bool, head: seq<Effect>, file1: Stored, token1: Token, check1: bool)
    requires Before(status, id)
    ensures var effects, n := Run(d, file, status, envs, token, check, close).effects, TurnsLeft(d.config, status);
      if !deploys then Untouched(effects)
      else
        && n <= |envs| && Untouched(head) && Downloaded(d.config, status, envs, head, id)
        && effects == head + Run(d, file1, Deploying(id, NO_PROGRESS), envs[n..], token1, check1, close).effects
    decreases |envs|
  {
    hide *;
    deploys, head, file1, token1, check1 := false, [], file, token, check;
    if envs == [] {
      NoneBefore(d, file, id, status, token, check, close);
    } else {
      var t := TurnOf(status, Next(d, file, status, envs[0]), token, check);
      TurnBefore(d, file, id, status, envs[0], token, check);
      FirstTurnOf(d, file, status, envs, token, check, close);
      file1, token1, check1 := Replay(file, t.effects), t.token, t.check;
      var rest := Run(d, file1, t.status, envs[1..], t.token, t.check, close).effects;
      if OtaRuns.Rank(t.status) <= 2 {
        RestIsUntouched(d, file1, t.status, envs[1..], t.token, t.check, close);
        UntouchedTogether(t.effects, rest);
      } else if Before(t.status, id) {
        deploys, head, file1, token1, check1 :=
          BeforeDeploying(d, file1, id, t.status, envs[1..], t.token, t.check, close);
        if deploys {
          var n := TurnsLeft(d.config, t.status);
          assert envs[1..][n..] == envs[n + 1..];
          OneTurnEarlier(d.config, status, t.status, envs, t.effects, head, id);
          UntouchedTogether(t.effects, head);
          var deployment := Run(d, file1, Deploying(id, NO_PROGRESS), envs[n + 1..], token1, check1, close).effects;
          assert t.effects + (head + deployment) == (t.effects + head) + deployment;
          head := t.effects + head;
        } else {
          UntouchedTogether(t.effects, rest);
        }
      } else {
        deploys, head := true, t.effects;
        LastTurnBefore(d.config, status, envs, head, id);
      }
    }
  }

  lemma NoneBefore(d: Device, file: Stored, id: OtaId, status: OtaStatus, token: Token, check: bool, close: Closing)
    requires Before(status, id)
    ensures Untouched(Run(d, file, status, [], token, check, close).effects)
  {
  }

  lemma OneTurnEarlier(config: Config, status: OtaStatus, next: OtaStatus, envs: seq<Environment>,
                       effects: seq<Effect>, head: seq<Effect>, id: OtaId)
    requires envs != [] && Before(status, id) && Before(next, id)
    requires TurnsLeft(config, status) == TurnsLeft(config, next) + 1 && (next.Downloading? ==> !config.streaming)
    requires Downloaded(config, next, envs[1..], head, id)
    ensures Downloaded(config, status, envs, effects + head, id)
  {
    hide ImageArrives;
    assert TurnsLeft(config, next) >= 1;
    if |envs[1..]| >= TurnsLeft(config, next) {
      assert envs[1..][TurnsLeft(config, next) - 1] == envs[TurnsLeft(config, status) - 1];
    }
  }

  lemma LastTurnBefore(config: Config, status: OtaStatus, envs: seq<Environment>, head: seq<Effect>, id: OtaId)
    requires envs != [] && TurnsLeft(config, status) == 1 && head != [] && head[0] == Publish(status)
    requires Before(status, id) && if status.Downloading? then ImageArrives(envs[0]) else config.streaming
    ensures Downloaded(config, status, envs, head, id)
  {
    hide ImageArrives;
  }

  /** On a device that is not streaming, whatever a request does to the device comes after a download whose image
      arrived and is meant for the device. */
  lemma TouchedAfterDownload(d: Device, file: Stored, q: Request, x: nat)
    requires !d.config.streaming && x < |RunOf(d, file, q).effects|
    requires var e := RunOf(d, file, q).effects[x];
      e.Persist? || e.Tear? || e.Install? || e.Reboot? || Completion(e)
    ensures |q.envs| >= 3 && ImageArrives(q.envs[2])
    ensures Publish(Downloading(q.id, 0)) in RunOf(d, file, q).effects[..x]
  {
    hide *;
    RunIs(d, file, q);
    StartsBefore(d.config, q.id);
    var deploys, head, file1, token1, check1 :=
      BeforeDeploying(d, file, q.id, Init(q.id), q.envs, q.token, true, q.close);
    var effects := RunOf(d, file, q).effects;
    if deploys {
      TouchedBehind(d.config, q.envs, head, effects, x, q.id);
    } else {
      NotTouched(effects, x);
    }
  }

  lemma StartsBefore(config: Config, id: OtaId)
    ensures Before(Init(id), id) && TurnsLeft(config, Init(id)) == DeployingTurnOf(config)
  {
  }

  lemma NotTouched(effects: seq<Effect>, x: nat)
    requires x < |effects| && Untouched(effects)
    ensures var e := effects[x]; !(e.Persist? || e.Tear? || e.Install? || e.Reboot? || Completion(e))
  {
    assert effects[x] in effects;
  }

  lemma TouchedBehind(config: Config, envs: seq<Environment>, head: seq<Effect>, effects: seq<Effect>, x: nat,
                      id: OtaId)
    requires !config.streaming && x < |effects| && head <= effects && Untouched(head)
    requires var e := effects[x]; e.Persist? || e.Tear? || e.Install? || e.Reboot? || Completion(e)
    requires Downloaded(config, Init(id), envs, head, id)
    ensures |envs| >= 3 && ImageArrives(envs[2]) && Publish(Downloading(id, 0)) in effects[..x]
  {
    hide ImageArrives;
    if x < |head| {
      NotTouched(head, x);
    }
    assert head <= effects[..x];
  }

  // ----- The deployment and the reboot -----

  /** What is installed is the image of the request, and the device reboots if and only if the installation was
      seen to complete, nobody else is to reboot it, and the command works in turn `e`; then it reboots once it has
      said so. */
  ghost predicate InstallsAndReboots(effects: seq<Effect>, config: Config, id: OtaId, envs: seq<Environment>, e: nat) {
    && (forall x <- effects :: x.Install? ==> x.source == if config.streaming then id.url else config.imagePath)
    && (Reboot in effects <==>
         (exists x <- effects :: Completion(x)) && !config.externalReboot && e < |envs| && envs[e].reboots)
    && (forall x | 0 <= x < |effects| && effects[x] == Reboot ::
         x > 0 && effects[x - 1] == Publish(Rebooting(id)) && Publish(Deployed(id)) in effects[..x])
  }

  lemma DeployInstalls(d: Device, id: OtaId, env: Environment)
    ensures var step := Deploy(d, id, env);
      && (forall e <- step.effects :: !e.Reboot? && !Completion(e) &&
           (e.Install? ==> e.source == if d.config.streaming then id.url else d.config.imagePath))
      && (step.status == Deployed(id) || OtaRuns.Rank(step.status) <= 2)
  {
    hide OtaDeploy.Statuses, OtaDeploy.Fold, OtaDeploy.EndingOf;
  }

  lemma DeployingTurnInstalls(d: Device, file: Stored, id: OtaId, env: Environment, token: Token, check: bool)
    ensures var t := TurnOf(Deploying(id, NO_PROGRESS), Next(d, file, Deploying(id, NO_PROGRESS), env), token, check);
      && (forall e <- t.effects :: !e.Reboot? && !Completion(e) &&
           (e.Install? ==> e.source == if d.config.streaming then id.url else d.config.imagePath))
      && (t.status == Deployed(id) || OtaRuns.Rank(t.status) <= 2)
  {
    DeployInstalls(d, id, env);
    var step := Deploy(d, id, env);
    assert Next(d, file, Deploying(id, NO_PROGRESS), env) == step;
    hide Next, Deploy;
  }

  /** The turn after the deployment. */
  lemma RebootingTurn(d: Device, file: Stored, id: OtaId, env: Environment, token: Token, check: bool)
    ensures var t := TurnOf(Deployed(id), Next(d, file, Deployed(id), env), token, check);
      && t.effects != [] && t.effects[0] == Publish(Deployed(id))
      && (forall e <- t.effects :: !e.Install?)
      && (Reboot in t.effects <==> !d.config.externalReboot && env.reboots)
      && (forall x | 0 <= x < |t.effects| && t.effects[x] == Reboot ::
           x > 0 && t.effects[x - 1] == Publish(Rebooting(id)))
      && OtaRuns.Rank(t.status) <= 2
  {
    var step := RebootDevice(d.config, id, env);
    assert Next(d, file, Deployed(id), env) == step;
    hide Next;
  }

  lemma DeployedReboots(d: Device, file: Stored, id: OtaId, envs: seq<Environment>, token: Token, check: bool,
                        close: Closing)
    ensures InstallsAndReboots(Run(d, file, Deployed(id), envs, token, check, close).effects, d.config, id, envs, 0)
  {
    hide *;
    if envs == [] {
      NoTurns(d, file, Deployed(id), token, check, close);
      NothingReboots([], d.config, id, envs, 0);
    } else {
      var t := TurnOf(Deployed(id), Next(d, file, Deployed(id), envs[0]), token, check);
      RebootingTurn(d, file, id, envs[0], token, check);
      FirstTurnOf(d, file, Deployed(id), envs, token, check, close);
      RestIsUntouched(d, Replay(file, t.effects), t.status, envs[1..], t.token, t.check, close);
      var rest := Run(d, Replay(file, t.effects), t.status, envs[1..], t.token, t.check, close).effects;
      RebootsOnce(t.effects, rest, d.config, id, envs);
    }
  }

  lemma NothingReboots(effects: seq<Effect>, config: Config, id: OtaId, envs: seq<Environment>, e: nat)
    requires effects == [] || Untouched(effects)
    ensures InstallsAndReboots(effects, config, id, envs, e)
  {
  }

  lemma RebootsOnce(effects: seq<Effect>, rest: seq<Effect>, config: Config, id: OtaId, envs: seq<Environment>)
    requires effects != [] && effects[0] == Publish(Deployed(id)) && Untouched(rest) && envs != []
    requires forall e <- effects :: !e.Install?
    requires Reboot in effects <==> !config.externalReboot && envs[0].reboots
    requires forall x | 0 <= x < |effects| && effects[x] == Reboot ::
               x > 0 && effects[x - 1] == Publish(Rebooting(id))
    ensures InstallsAndReboots(effects + rest, config, id, envs, 0)
  {
    var whole := effects + rest;
    assert whole[0] == effects[0] && Completion(whole[0]) && whole[0] in whole;
    assert forall x | |effects| <= x < |whole| :: whole[x] == rest[x - |effects|] && whole[x] in rest;
    forall x | 0 <= x < |whole| && whole[x] == Reboot
      ensures x > 0 && whole[x - 1] == Publish(Rebooting(id)) && Publish(Deployed(id)) in whole[..x]
    {
      assert x < |effects|;
      assert x > 0 ==> whole[..x][0] == whole[0];
    }
  }

  lemma DeployingReboots(d: Device, file: Stored, id: OtaId, envs: seq<Environment>, token: Token, check: bool,
                         close: Closing)
    ensures InstallsAndReboots(Run(d, file, Deploying(id, NO_PROGRESS), envs, token, check, close).effects,
                               d.config, id, envs, 1)
  {
    hide *;
    var status := Deploying(id, NO_PROGRESS);
    if envs == [] {
      NoTurns(d, file, status, token, check, close);
      NothingReboots([], d.config, id, envs, 1);
    } else {
      var t := TurnOf(status, Next(d, file, status, envs[0]), token, check);
      DeployingTurnInstalls(d, file, id, envs[0], token, check);
      FirstTurnOf(d, file, status, envs, token, check, close);
      var rest := Run(d, Replay(file, t.effects), t.status, envs[1..], t.token, t.check, close).effects;
      if t.status == Deployed(id) {
        DeployedReboots(d, Replay(file, t.effects), id, envs[1..], t.token, t.check, close);
      } else {
        RestIsUntouched(d, Replay(file, t.effects), t.status, envs[1..], t.token, t.check, close);
        NothingReboots(rest, d.config, id, envs[1..], 0);
      }
      RebootsLater(t.effects, rest, d.config, id, envs, 1, 0);
    }
  }

  /** What comes before the reboot does not change it. */
  lemma RebootsLater(head: seq<Effect>, effects: seq<Effect>, config: Config, id: OtaId, envs: seq<Environment>,
                     n: nat, e: nat)
    requires n <= |envs| && InstallsAndReboots(effects, config, id, envs[n..], e)
    requires forall x <- head :: !x.Reboot? && !Completion(x) &&
               (x.Install? ==> x.source == if config.streaming then id.url else config.imagePath)
    ensures InstallsAndReboots(head + effects, config, id, envs, n + e)
  {
    hide Completion;
    var whole := head + effects;
    assert e < |envs[n..]| ==> envs[n..][e] == envs[n + e];
    assert (exists x <- whole :: Completion(x)) <==> exists x <- effects :: Completion(x);
    forall x | 0 <= x < |whole| && whole[x] == Reboot
      ensures x > 0 && whole[x - 1] == Publish(Rebooting(id)) && Publish(Deployed(id)) in whole[..x]
    {
      RebootBehind(head, effects, x);
      var y := x - |head|;
      assert whole[x] == effects[y];
      assert Publish(Deployed(id)) in effects[..y];
      assert whole[..x] == head + effects[..y];
    }
  }

  lemma RebootBehind(head: seq<Effect>, effects: seq<Effect>, x: nat)
    requires x < |head + effects| && (head + effects)[x] == Reboot
    requires forall e <- head :: !e.Reboot?
    ensures x >= |head|
  {
  }

  /** However it is cancelled, the run of a request installs nothing but its own image, and reboots the device if
      and only if the installation was seen to complete, the configuration leaves the reboot to the runtime, and
      the command works in the turn after the deployment. */
  lemma RequestReboots(d: Device, file: Stored, q: Request)
    ensures InstallsAndReboots(RunOf(d, file, q).effects, d.config, q.id, q.envs, DeployingTurnOf(d.config) + 1)
  {
    hide *;
    RunIs(d, file, q);
    StartsBefore(d.config, q.id);
    var deploys, head, file1, token1, check1 :=
      BeforeDeploying(d, file, q.id, Init(q.id), q.envs, q.token, true, q.close);
    if deploys {
      var n := DeployingTurnOf(d.config);
      var deployment := Run(d, file1, Deploying(q.id, NO_PROGRESS), q.envs[n..], token1, check1, q.close).effects;
      DeployingReboots(d, file1, q.id, q.envs[n..], token1, check1, q.close);
      UntouchedHead(head);
      RebootsLater(head, deployment, d.config, q.id, q.envs, n, 1);
    } else {
      NothingReboots(RunOf(d, file, q).effects, d.config, q.id, q.envs, DeployingTurnOf(d.config) + 1);
    }
  }

  lemma UntouchedHead(head: seq<Effect>)
    requires Untouched(head)
    ensures forall x <- head :: !x.Reboot? && !Completion(x) && !x.Install?
  {
  }

  // ----- Histories -----

  /** The effects of a served request are those of its run, with the file as it is then. */
  lemma {:induction false} ServedRun(d: Device, file: Stored, requests: seq<Request>, i: nat) returns (file1: Stored)
    requires GetsTo(d, file, requests, i)
    ensures EffectsOf(d, file, requests, i) == RunOf(d, file1, requests[i]).effects
    decreases i
  {
    hide RunOf, Replay;
    if i == 0 {
      file1 := file;
    } else {
      file1 := ServedRun(d, Replay(file, RunOf(d, file, requests[0]).effects), requests[1..], i - 1);
    }
  }

  /** Request `i` of boot `m` has this uuid, and its image arrived and is meant for the device. */
  predicate ArrivedFor(boots: seq<BootScript>, m: nat, i: nat, uuid: Uuid) {
    && m < |boots| && i < |boots[m].requests| && boots[m].requests[i].id.uuid == uuid
    && |boots[m].requests[i].envs| >= 3 && ImageArrives(boots[m].requests[i].envs[2])
  }

  lemma DeployedArrived(config: Config, file: Stored, b: BootScript, i: nat, n: nat)
    requires !config.streaming && DeployedBy(config, file, b, i, n)
    ensures i < |b.requests| && |b.requests[i].envs| >= 3 && ImageArrives(b.requests[i].envs[2])
  {
    hide ImageArrives, Startup, Replay, Offset, EffectsOf, GetsTo;
    var o: nat :| RunsFrom(config, file, b, i, o) &&
      o <= n < o + |RequestEffects(config, file, b, i)| && RequestEffects(config, file, b, i)[n - o].Persist?;
    RequestExists(config, file, b, i, o);
    var d := Device(config, b.slot);
    var file1 := ServedRun(d, Replay(file, Startup(config, file, b).effects), b.requests, i);
    TouchedAfterDownload(d, file1, b.requests[i], n - o);
  }

  /** On a device that is not streaming, a success is always of an update whose image arrived whole and is meant for
      the device, over any boots and power cuts. */
  lemma SuccessWasDownloaded(config: Config, boots: seq<BootScript>, k: nat)
    ensures var h := History(config, boots);
      !config.streaming && k < |h| && PublishesSuccess(h[k]) ==>
        exists m: nat, i: nat :: ArrivedFor(boots, m, i, h[k].status.id.uuid)
  {
    hide *;
    var h := History(config, boots);
    if !config.streaming && k < |h| && PublishesSuccess(h[k]) {
      var p := VouchedDeployment(config, boots, k);
      PersistedWasDownloaded(config, boots, p);
    }
  }

  /** Nor is any other state persisted. */
  lemma PersistedWasDownloaded(config: Config, boots: seq<BootScript>, p: nat)
    ensures var h := History(config, boots);
      !config.streaming && p < |h| && h[p].Persist? ==>
        exists m: nat, i: nat :: ArrivedFor(boots, m, i, h[p].state.uuid)
  {
    hide *;
    var h := History(config, boots);
    if !config.streaming && p < |h| && h[p].Persist? {
      var m, i, n := PersistedInHistory(config, boots, p);
      DeploymentInHistory(config, boots, m, i, n, p);
      DeployedInHasArrived(config, boots, m, i, n, p);
    }
  }

  lemma DeployedInHasArrived(config: Config, boots: seq<BootScript>, m: nat, i: nat, n: nat, p: int)
    requires !config.streaming && DeployedIn(config, boots, m, i, n, p)
    ensures m < |boots| && i < |boots[m].requests| && ArrivedFor(boots, m, i, boots[m].requests[i].id.uuid)
  {
    hide History, FileOf, DeployedBy, ImageArrives;
    DeployedArrived(config, FileOf(History(config, boots[..m])), boots[m], i, n);
  }
}
