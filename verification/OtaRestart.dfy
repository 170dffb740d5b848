/** Safety of updates over any number of boots, with a power cut after any effect of any boot. */
module OtaRestart {
  import opened Wrappers
  import opened OtaStatuses
  import opened OtaEngine
  import OtaDeploy
  import OtaRuns

  // ----- Histories -----

  datatype Request = Request(id: OtaId, envs: seq<Environment>, token: Token, close: Closing)

  /** One boot: the slot that came up, how its start-up run goes, the requests it then receives, and
      after how many effects the power is cut. */
  datatype BootScript = BootScript(
    slot: string, visible: bool, envs: seq<Environment>, close: Closing, requests: seq<Request>, cut: nat)

  /** The run at start-up, which picks up a pending update; it cannot be cancelled. */
  function Startup(config: Config, file: Stored, b: BootScript): RunResult {
    Run(Device(config, b.slot), file, if Exists(file, b.visible) then Rebooted else Idle, b.envs, Never, true, b.close)
  }

  /** Requests are served one after the other, each from `Init`. */
  function Serve(d: Device, file: Stored, requests: seq<Request>): seq<Effect>
    decreases |requests|
  {
    if requests == [] then []
    else
      var q := requests[0];
      var r := Run(d, file, Init(q.id), q.envs, q.token, true, q.close);
      r.effects + if r.left then Serve(d, Replay(file, r.effects), requests[1..]) else []
  }

  /** The requests are served once the start-up run has left its loop. */
  function Served(config: Config, file: Stored, b: BootScript): seq<Effect> {
    var startup := Startup(config, file, b);
    if startup.left then Serve(Device(config, b.slot), Replay(file, startup.effects), b.requests) else []
  }

  function BootEffects(config: Config, file: Stored, b: BootScript): seq<Effect> {
    var startup := Startup(config, file, b);
    [Boot(b.slot)] + startup.effects + Served(config, file, b)
  }

  function FileOf(h: seq<Effect>): Stored {
    Replay(Absent, h)
  }

  /** Everything a device ever did, over all its boots; only the state file survives a boot. */
  function History(config: Config, boots: seq<BootScript>): seq<Effect> {
    if boots == [] then []
    else
      var h := History(config, boots[..|boots| - 1]);
      var b := boots[|boots| - 1];
      var effects := BootEffects(config, FileOf(h), b);
      h + effects[..if b.cut < |effects| then b.cut else |effects|]
  }

  // ----- What a history promises -----

  /** The slot the device runs from at the end of `h`. */
  function SlotOf(h: seq<Effect>): Option<string> {
    if h == [] then None
    else if h[|h| - 1].Boot? then Some(h[|h| - 1].slot) else SlotOf(h[..|h| - 1])
  }

  /** The effects since the last boot. */
  function SinceBoot(h: seq<Effect>): seq<Effect> {
    if h == [] || h[|h| - 1].Boot? then [] else SinceBoot(h[..|h| - 1]) + [h[|h| - 1]]
  }

  /** The last state that was persisted is the one at `j`. */
  predicate LastPersisted(h: seq<Effect>, j: int) {
    0 <= j < |h| && h[j].Persist? && forall i | j < i < |h| :: !h[i].Persist?
  }

  /** The last deployment was one of `id` and persisted its uuid with the slot booted then; the slot booted
      now is a different one; and since this boot the primary slot was marked good and echoed back. */
  ghost predicate Vouched(h: seq<Effect>, id: OtaId) {
    && (exists j :: LastPersisted(h, j) && h[j].state.uuid == id.uuid
          && SlotOf(h[..j]) == Some(h[j].state.slot) && SlotOf(h) != Some(h[j].state.slot))
    && (exists e <- SinceBoot(h) :: e.MarkGood? && e.primary == e.marked)
  }

  predicate PublishesSuccess(e: Effect) {
    e.Publish? && e.status.Success?
  }

  /** Every success was vouched for when it was published. */
  ghost predicate Justified(h: seq<Effect>) {
    forall k | 0 <= k < |h| && PublishesSuccess(h[k]) :: Vouched(h[..k], h[k].status.id)
  }

  /** The effect that comes right after `h` installs only what was persisted just before. */
  predicate Prepared(h: seq<Effect>, e: Effect) {
    e.Install? ==> h != [] && h[|h| - 1].Persist?
  }

  /** Every persisted state names the slot that was booted, and every installation comes right after one. */
  ghost predicate Honest(h: seq<Effect>) {
    && (forall k | 0 <= k < |h| && h[k].Persist? :: SlotOf(h[..k]) == Some(h[k].state.slot))
    && (forall k | 0 <= k < |h| :: Prepared(h[..k], h[k]))
  }

  lemma PrefixesKeep(h: seq<Effect>, n: nat)
    requires n <= |h| && Justified(h) && Honest(h)
    ensures Justified(h[..n]) && Honest(h[..n])
  {
    assert forall k | 0 <= k < n :: h[..n][..k] == h[..k];
  }

  lemma {:induction false} ReplayAppend(file: Stored, a: seq<Effect>, b: seq<Effect>)
    ensures Replay(file, a + b) == Replay(Replay(file, a), b)
    decreases |a|
  {
    if a == [] {
      assert a + b == b;
    } else {
      assert (a + b)[1..] == a[1..] + b;
      ReplayAppend(After(file, a[0]), a[1..], b);
    }
  }

  /** What the state file holds is what was persisted last. */
  lemma {:induction false} SavedWasPersisted(h: seq<Effect>)
    ensures FileOf(h).Saved? ==> exists j :: LastPersisted(h, j) && h[j] == Persist(FileOf(h).state)
  {
    if h != [] {
      var n := |h| - 1;
      var before := h[..n];
      SavedWasPersisted(before);
      assert h == before + [h[n]];
      ReplayAppend(Absent, before, [h[n]]);
      if h[n].Persist? {
        assert LastPersisted(h, n);
      } else if FileOf(h).Saved? {
        var j :| LastPersisted(before, j) && before[j] == Persist(FileOf(before).state);
        assert LastPersisted(h, j);
      }
    }
  }

  lemma {:induction false} SameBoot(h: seq<Effect>, effects: seq<Effect>)
    requires forall e <- effects :: !e.Boot?
    ensures SlotOf(h + effects) == SlotOf(h)
    ensures SinceBoot(h + effects) == SinceBoot(h) + effects
  {
    if effects == [] {
      assert h + effects == h;
    } else {
      var n := |effects| - 1;
      SameBoot(h, effects[..n]);
      assert h + effects == (h + effects[..n]) + [effects[n]];
      assert SinceBoot(h) + effects == (SinceBoot(h) + effects[..n]) + [effects[n]];
      SameBootOnce(h + effects[..n], effects[n]);
      hide SlotOf, SinceBoot;
    }
  }

  lemma SameBootOnce(h: seq<Effect>, e: Effect)
    requires !e.Boot?
    ensures SlotOf(h + [e]) == SlotOf(h)
    ensures SinceBoot(h + [e]) == SinceBoot(h) + [e]
  {
    assert (h + [e])[..|h|] == h;
  }

  lemma OneMoreEffect(h: seq<Effect>, e: Effect)
    requires Justified(h) && Honest(h)
    requires (e.Persist? ==> SlotOf(h) == Some(e.state.slot)) && Prepared(h, e)
    requires PublishesSuccess(e) ==> Vouched(h, e.status.id)
    ensures Justified(h + [e]) && Honest(h + [e])
  {
    var all := h + [e];
    assert all[..|h|] == h;
    assert forall k | 0 <= k < |h| :: all[k] == h[k] && all[..k] == h[..k];
  }

  predicate InOrder(effects: seq<Effect>) {
    forall i | 0 < i < |effects| && effects[i].Install? :: effects[i - 1].Persist?
  }

  /** Only a deployment installs, and only after it has persisted its state. */
  lemma TransitionsAreInOrder(d: Device, file: Stored, status: OtaStatus, env: Environment)
    ensures var effects := Next(d, file, status, env).effects;
      InOrder(effects) && (effects != [] ==> !effects[0].Install?)
  {
    TransitionEffects(d, file, status, env);
    if status.Deploying? {
      DeploysInOrder(d, status.id, env);
    }
    hide Next;
  }

  lemma DeploysInOrder(d: Device, id: OtaId, env: Environment)
    ensures var effects := Deploy(d, id, env).effects;
      InOrder(effects) && (effects != [] ==> !effects[0].Install?)
  {
    hide OtaDeploy.Statuses, OtaDeploy.Fold, OtaDeploy.EndingOf;
  }

  /** Effects of the running boot that keep a history sound. */
  lemma {:induction false} ExtendsSoundly(h: seq<Effect>, effects: seq<Effect>)
    requires Justified(h) && Honest(h)
    requires forall e <- effects ::
               !e.Boot? && (e.Persist? ==> SlotOf(h) == Some(e.state.slot)) && !PublishesSuccess(e)
    requires InOrder(effects) && (effects != [] ==> Prepared(h, effects[0]))
    ensures Justified(h + effects) && Honest(h + effects)
    decreases |effects|
  {
    if effects == [] {
      assert h + effects == h;
    } else {
      OneMoreEffect(h, effects[0]);
      SameBoot(h, effects[..1]);
      assert effects[..1] == [effects[0]];
      assert h + effects == h + [effects[0]] + effects[1..];
      hide Justified, Honest;
      ExtendsSoundly(h + [effects[0]], effects[1..]);
    }
  }

  // ----- One turn, one run, one boot -----

  /** A check that ends in success found the file of an earlier deployment and marked the slot. */
  lemma CheckVouches(d: Device, h: seq<Effect>, env: Environment)
    requires Honest(h) && SlotOf(h) == Some(d.booted)
    ensures var step := CheckReboot(d, FileOf(h), env);
      step.status.Success? ==> Vouched(h + step.effects, step.status.id)
  {
    hide *;
    CheckSucceeds(d, FileOf(h), env);
    var step := CheckReboot(d, FileOf(h), env);
    if step.status.Success? {
      var j := LastDeployment(h);
      MarkVouches(h, j, step.effects[0], step.status.id);
      assert h + step.effects == h + [step.effects[0]];
    }
  }

  lemma LastDeployment(h: seq<Effect>) returns (j: int)
    requires Honest(h) && FileOf(h).Saved?
    ensures LastPersisted(h, j) && 0 <= j < |h| && h[j] == Persist(FileOf(h).state)
  {
    SavedWasPersisted(h);
    hide FileOf;
    j :| LastPersisted(h, j) && h[j] == Persist(FileOf(h).state);
  }

  lemma CheckSucceeds(d: Device, file: Stored, env: Environment)
    ensures var step := CheckReboot(d, file, env);
      step.status.Success? ==>
        && file.Saved? && file.state.slot != d.booted && step.status.id.uuid == file.state.uuid
        && |step.effects| == 1 && step.effects[0].MarkGood? && step.effects[0].primary == step.effects[0].marked
  {
  }

  lemma MarkVouches(h: seq<Effect>, j: int, e: Effect, id: OtaId)
    requires Honest(h) && 0 <= j < |h| && LastPersisted(h, j)
    requires h[j].Persist? && h[j].state.uuid == id.uuid && SlotOf(h) != Some(h[j].state.slot)
    requires e.MarkGood? && e.primary == e.marked
    ensures Vouched(h + [e], id)
  {
    SameBootOnce(h, e);
    hide SlotOf, SinceBoot;
    var all := h + [e];
    assert all[j] == h[j] && all[..j] == h[..j];
    assert LastPersisted(all, j);
    assert e in SinceBoot(h) + [e];
  }

  lemma TransitionVouches(d: Device, h: seq<Effect>, status: OtaStatus, env: Environment)
    requires Honest(h) && SlotOf(h) == Some(d.booted)
    ensures var step := Next(d, FileOf(h), status, env);
      step.status.Success? ==> Vouched(h + step.effects, step.status.id)
  {
    hide Vouched, FileOf, SlotOf, Honest, Download, Deploy, CheckReboot;
    match status {
      case Rebooted => CheckVouches(d, h, env);
      case Downloading(id, _) => OtaRuns.DownloadGoesOn(id, env);
      case Deploying(id, _) => OtaRuns.DeployGoesOn(d, id, env);
      case _ =>
    }
  }

  lemma {:induction false} PublishingKeepsFile(file: Stored, effects: seq<Effect>)
    requires forall e <- effects :: e.Publish?
    ensures Replay(file, effects) == file
    decreases |effects|
  {
    if effects != [] {
      PublishingKeepsFile(file, effects[1..]);
    }
  }

  /** The statuses at the head of a turn keep a history sound. */
  lemma HeadIsSound(d: Device, h: seq<Effect>, status: OtaStatus, notice: seq<Effect>)
    requires Justified(h) && Honest(h) && SlotOf(h) == Some(d.booted)
    requires status.Success? ==> Vouched(h, status.id)
    requires notice == [] || notice == [NOTICE]
    ensures var head := h + ([Publish(status)] + notice);
      Justified(head) && Honest(head) && SlotOf(head) == Some(d.booted) && FileOf(head) == FileOf(h)
  {
    hide Vouched, Replay;
    OneMoreEffect(h, Publish(status));
    SameBoot(h, [Publish(status)]);
    hide Justified, Honest, SlotOf, SinceBoot;
    ExtendsSoundly(h + [Publish(status)], notice);
    SameBoot(h, [Publish(status)] + notice);
    assert h + ([Publish(status)] + notice) == h + [Publish(status)] + notice;
    ReplayAppend(Absent, h, [Publish(status)] + notice);
    PublishingKeepsFile(FileOf(h), [Publish(status)] + notice);
  }

  /** Publishing the status and making the transition, or a part of it, keeps a history sound. */
  lemma TurnIsSound(d: Device, h: seq<Effect>, status: OtaStatus, env: Environment, token: Token, check: bool)
    requires Justified(h) && Honest(h) && SlotOf(h) == Some(d.booted)
    requires status.Success? ==> Vouched(h, status.id)
    ensures var t := TurnOf(status, Next(d, FileOf(h), status, env), token, check);
      var after := h + t.effects;
      && Justified(after) && Honest(after) && SlotOf(after) == Some(d.booted)
      && FileOf(after) == Replay(FileOf(h), t.effects)
      && (t.status.Success? ==> Vouched(after, t.status.id))
  {
    var step := Next(d, FileOf(h), status, env);
    TransitionEffects(d, FileOf(h), status, env);
    TransitionsAreInOrder(d, FileOf(h), status, env);
    hide Next, Justified, Honest, Vouched, SlotOf, Replay;
    var t := TurnOf(status, step, token, check);
    var notice := if !status.IsCancellable() && check && Noticed(token) then [NOTICE] else [];
    var rest := if status.IsCancellable() && Interrupts(token, step) then step.effects[..Cut(token)] else step.effects;
    var head := h + ([Publish(status)] + notice);
    assert t.effects == [Publish(status)] + notice + rest;
    assert h + t.effects == head + rest;
    HeadIsSound(d, h, status, notice);
    assert forall e <- rest :: e in step.effects;
    ExtendsSoundly(head, rest);
    SameBoot(head, rest);
    ReplayAppend(Absent, h, t.effects);
    if t.status.Success? {
      TransitionVouches(d, head, status, env);
    }
  }

  lemma {:induction false} RunIsSound(d: Device, h: seq<Effect>, status: OtaStatus, envs: seq<Environment>,
                                      token: Token, check: bool, close: Closing)
    requires Justified(h) && Honest(h) && SlotOf(h) == Some(d.booted)
    requires status.Success? ==> Vouched(h, status.id)
    ensures var r := Run(d, FileOf(h), status, envs, token, check, close);
      var after := h + r.effects;
      && Justified(after) && Honest(after) && SlotOf(after) == Some(d.booted)
      && FileOf(after) == Replay(FileOf(h), r.effects)
    decreases |envs|
  {
    var r := Run(d, FileOf(h), status, envs, token, check, close);
    ReplayAppend(Absent, h, r.effects);
    hide Next, TurnOf, Justified, Honest, Vouched, SlotOf, Replay;
    if status.Idle? {
      ExtendsSoundly(h, r.effects);
      SameBoot(h, r.effects);
    } else if envs == [] {
      assert h + r.effects == h;
    } else {
      var t := TurnOf(status, Next(d, FileOf(h), status, envs[0]), token, check);
      var rest := Run(d, Replay(FileOf(h), t.effects), t.status, envs[1..], t.token, t.check, close);
      TurnIsSound(d, h, status, envs[0], token, check);
      RunIsSound(d, h + t.effects, t.status, envs[1..], t.token, t.check, close);
      assert h + r.effects == h + t.effects + rest.effects;
    }
  }

  lemma {:induction false} ServingIsSound(d: Device, h: seq<Effect>, requests: seq<Request>)
    requires Justified(h) && Honest(h) && SlotOf(h) == Some(d.booted)
    ensures var after := h + Serve(d, FileOf(h), requests);
      Justified(after) && Honest(after)
    decreases |requests|
  {
    hide Justified, Honest, SlotOf, Replay, Run;
    if requests == [] {
      assert h + Serve(d, FileOf(h), requests) == h;
    } else {
      var q := requests[0];
      var r := Run(d, FileOf(h), Init(q.id), q.envs, q.token, true, q.close);
      RunIsSound(d, h, Init(q.id), q.envs, q.token, true, q.close);
      if r.left {
        ServingIsSound(d, h + r.effects, requests[1..]);
        assert h + Serve(d, FileOf(h), requests)
            == h + r.effects + Serve(d, Replay(FileOf(h), r.effects), requests[1..]);
      } else {
        assert h + Serve(d, FileOf(h), requests) == h + r.effects;
      }
    }
  }

  lemma Regroup(h: seq<Effect>, a: seq<Effect>, b: seq<Effect>, c: seq<Effect>)
    ensures h + (a + b + c) == h + a + b + c
  {
  }

  lemma BootMarker(h: seq<Effect>, slot: string)
    requires Justified(h) && Honest(h)
    ensures var up := h + [Boot(slot)];
      Justified(up) && Honest(up) && SlotOf(up) == Some(slot) && FileOf(up) == FileOf(h)
  {
    OneMoreEffect(h, Boot(slot));
    ReplayAppend(Absent, h, [Boot(slot)]);
  }

  lemma StartupIsSound(config: Config, up: seq<Effect>, b: BootScript)
    requires Justified(up) && Honest(up) && SlotOf(up) == Some(b.slot)
    ensures var startup := Startup(config, FileOf(up), b);
      var ready := up + startup.effects;
      && Justified(ready) && Honest(ready) && SlotOf(ready) == Some(b.slot)
      && FileOf(ready) == Replay(FileOf(up), startup.effects)
  {
    hide Justified, Honest, SlotOf, Replay, Run;
    RunIsSound(Device(config, b.slot), up, if Exists(FileOf(up), b.visible) then Rebooted else Idle,
               b.envs, Never, true, b.close);
  }

  lemma BootIsSound(config: Config, h: seq<Effect>, b: BootScript)
    requires Justified(h) && Honest(h)
    ensures var after := h + BootEffects(config, FileOf(h), b);
      Justified(after) && Honest(after)
  {
    var up := h + [Boot(b.slot)];
    BootMarker(h, b.slot);
    hide Justified, Honest, SlotOf, FileOf, Replay, Run, Serve, Startup;
    var startup := Startup(config, FileOf(h), b);
    StartupIsSound(config, up, b);
    if startup.left {
      ServingIsSound(Device(config, b.slot), up + startup.effects, b.requests);
    }
    assert up + startup.effects + [] == up + startup.effects;
    Regroup(h, [Boot(b.slot)], startup.effects, Served(config, FileOf(h), b));
  }

  /** Restart safety: over any number of boots into any slots, with the power cut after any effect,
      a success is published only for an update that was persisted while another slot was booted,
      and only after the primary slot was marked good, and echoed back, in the same boot. */
  lemma {:induction false} SuccessIsVouchedFor(config: Config, boots: seq<BootScript>)
    ensures Justified(History(config, boots)) && Honest(History(config, boots))
  {
    if boots == [] {
      assert History(config, boots) == [];
    } else {
      hide BootEffects, Justified, Honest, FileOf;
      var h := History(config, boots[..|boots| - 1]);
      var b := boots[|boots| - 1];
      SuccessIsVouchedFor(config, boots[..|boots| - 1]);
      BootIsSound(config, h, b);
      CutIsSound(h, BootEffects(config, FileOf(h), b), b.cut);
    }
  }

  predicate StartsBetween(h: seq<Effect>, p: nat, k: nat)
    requires k < |h|
  {
    exists q :: p < q < k && h[q].Install?
  }

  /** Before `k` the state persisted last was that of `id`, and an installation was started since if and only if
      that was the very next thing the device did. */
  ghost predicate StartedOnlyNext(h: seq<Effect>, k: nat, id: OtaId)
    requires k < |h|
  {
    exists p :: LastPersisted(h[..k], p) && h[p].state.uuid == id.uuid &&
      (StartsBetween(h, p, k) <==> h[p + 1].Install?)
  }

  /** A success follows the deployment that persisted its uuid, with nothing persisted between them; and an
      installation was started between them if and only if that was the very next thing the device did. */
  lemma SuccessFollowsDeployment(config: Config, boots: seq<BootScript>)
    ensures var h := History(config, boots);
      forall k | 0 <= k < |h| && PublishesSuccess(h[k]) :: StartedOnlyNext(h, k, h[k].status.id)
  {
    var h := History(config, boots);
    SuccessIsVouchedFor(config, boots);
    hide History;
    forall k | 0 <= k < |h| && PublishesSuccess(h[k])
      ensures StartedOnlyNext(h, k, h[k].status.id)
    {
      VouchedIsStartedNext(h, k);
    }
  }

  lemma VouchedIsStartedNext(h: seq<Effect>, k: nat)
    requires k < |h| && PublishesSuccess(h[k]) && Justified(h) && Honest(h)
    ensures StartedOnlyNext(h, k, h[k].status.id)
  {
    hide SlotOf, SinceBoot, StartsBetween;
    assert Vouched(h[..k], h[k].status.id);
    var p :| LastPersisted(h[..k], p) && h[..k][p].state.uuid == h[k].status.id.uuid;
    StartedNext(h, k, p);
  }

  lemma StartedNext(h: seq<Effect>, k: nat, p: int)
    requires k < |h| && LastPersisted(h[..k], p) && !h[k].Install?
    requires forall q | 0 <= q < |h| :: Prepared(h[..q], h[q])
    ensures h[p] == h[..k][p] && (StartsBetween(h, p, k) <==> h[p + 1].Install?)
  {
    assert forall q | p < q < k :: !h[q].Persist? by {
      assert forall q | 0 <= q < k :: h[..k][q] == h[q];
    }
    forall q | p < q < k && h[q].Install?
      ensures q == p + 1
    {
      assert Prepared(h[..q], h[q]) && h[..q][q - 1] == h[q - 1];
    }
  }

  /** A streamed request up to the moment its state is persisted. */
  function UntilPersisted(id: OtaId, slot: string): seq<Effect> {
    [Boot(slot), Publish(Idle), Publish(Init(id)), Publish(Acknowledged(id)), Publish(Deploying(id, NO_PROGRESS)),
     Persist(PersistentState(id.uuid, slot))]
  }

  /** A boot up to the success of the update that was pending. */
  function UntilSuccess(uuid: Uuid, slot: string, mark: Effect): seq<Effect> {
    [Boot(slot), Publish(Rebooted), mark, Publish(Success(OtaId(uuid, "")))]
  }

  predicate SucceedsWithoutInstallation(h: seq<Effect>, id: OtaId) {
    && h != [] && PublishesSuccess(h[|h| - 1]) && h[|h| - 1].status.id.uuid == id.uuid
    && forall e <- h :: !e.Install?
  }

  /** Which it need not be: a power cut right after the state was persisted, and the other slot comes up by
      itself. */
  lemma PowerCutSkipsInstallation(config: Config, id: OtaId, from: string, to: string, env: Environment,
                                  check: Environment, close: Closing)
    requires config.streaming && from != to && env.slotKnown && env.write.Written?
    requires check.slotKnown && check.visible && check.readable && check.primary.Some? && check.marked == check.primary
    ensures var q := Request.Request(id, [env, env, env], Never, close);
      var first := BootScript(from, true, [], close, [q], 6);
      var second := BootScript(to, true, [check, check], close, [], 4);
      var h := History(config, [first, second]);
      SucceedsWithoutInstallation(h, id)
  {
    hide *;
    var q := Request.Request(id, [env, env, env], Never, close);
    var first := BootScript(from, true, [], close, [q], 6);
    var second := BootScript(to, true, [check, check], close, [], 4);
    var state := PersistentState(id.uuid, from);
    var mark := MarkGood(check.primary.value, check.marked.value);
    NoBoots(config);
    FirstBoot(config, id, first, [env, env, env]);
    OneMoreBoot(config, [], first, [], UntilPersisted(id, from));
    assert [] + [first] == [first] && [] + UntilPersisted(id, from) == UntilPersisted(id, from);
    SavedByFirst(id, from);
    SecondBoot(config, state, second, check);
    OneMoreBoot(config, [first], second, UntilPersisted(id, from), UntilSuccess(id.uuid, to, mark));
    assert [first] + [second] == [first, second];
    NoInstallation(id, from, to, mark);
  }

  lemma NoBoots(config: Config)
    ensures History(config, []) == [] && FileOf([]) == Absent
  {
  }

  lemma NoInstallation(id: OtaId, from: string, to: string, mark: Effect)
    requires mark.MarkGood?
    ensures var h := UntilPersisted(id, from) + UntilSuccess(id.uuid, to, mark);
      SucceedsWithoutInstallation(h, id)
  {
  }

  lemma OneMoreBoot(config: Config, boots: seq<BootScript>, b: BootScript, h: seq<Effect>, effects: seq<Effect>)
    requires History(config, boots) == h && |BootEffects(config, FileOf(h), b)| >= b.cut
    requires BootEffects(config, FileOf(h), b)[..b.cut] == effects
    ensures History(config, boots + [b]) == h + effects
  {
    assert (boots + [b])[..|boots|] == boots;
  }

  /** The check of a state that was persisted in another slot publishes the success in its second turn. */
  lemma SecondBoot(config: Config, state: PersistentState, b: BootScript, check: Environment)
    requires b.envs == [check, check] && b.visible && b.slot != state.slot
    requires check.slotKnown && check.visible && check.readable && check.primary.Some? && check.marked == check.primary
    ensures var effects := BootEffects(config, Saved(state), b);
      var mark := MarkGood(check.primary.value, check.marked.value);
      |effects| >= 4 && effects[..4] == UntilSuccess(state.uuid, b.slot, mark)
  {
    var d := Device(config, b.slot);
    StartupTurns(d, Saved(state), b);
    var mark := MarkGood(check.primary.value, check.marked.value);
    var id := OtaId(state.uuid, "");
    assert CheckReboot(d, Saved(state), check) == Step([mark], Success(id));
    hide Run, CheckReboot;
    var tail := Clearing(Saved(state), b.close);
    var startup := Startup(config, Saved(state), b).effects;
    assert startup == [Publish(Rebooted)] + [mark] + [Publish(Success(id)), Publish(Idle)] + tail;
    assert startup == [Publish(Rebooted), mark, Publish(Success(id)), Publish(Idle)] + tail;
  }

  lemma SavedByFirst(id: OtaId, slot: string)
    ensures FileOf(UntilPersisted(id, slot)) == Saved(PersistentState(id.uuid, slot))
  {
    var h := UntilPersisted(id, slot);
    assert h == h[..5] + [h[5]];
    ReplayAppend(Absent, h[..5], [h[5]]);
  }

  /** A turn that does nothing but publish its status. */
  lemma QuietTurn(d: Device, file: Stored, status: OtaStatus, next: OtaStatus, envs: seq<Environment>, close: Closing)
    requires envs != [] && !status.Idle? && Next(d, file, status, envs[0]) == Step([], next)
    ensures var rest := Run(d, file, next, envs[1..], Never, true, close);
      Run(d, file, status, envs, Never, true, close) ==
        RunResult([Publish(status)] + rest.effects, rest.status, rest.left)
  {
    var t := TurnOf(status, Step([], next), Never, true);
    assert t == Turn([Publish(status)], next, Never, true);
    PublishingKeepsFile(file, t.effects);
    hide Next;
  }

  /** A request that is streamed persists its state in its third turn. */
  lemma FirstBoot(config: Config, id: OtaId, b: BootScript, envs: seq<Environment>)
    requires config.streaming && |envs| >= 3 && envs[2].slotKnown && envs[2].write.Written?
    requires b.visible && b.envs == []
    requires |b.requests| == 1 && b.requests[0] == Request.Request(id, envs, Never, b.close)
    ensures var effects := BootEffects(config, Absent, b);
      |effects| >= 6 && effects[..6] == UntilPersisted(id, b.slot)
    ensures BootEffects(config, Absent, b) ==
      [Boot(b.slot), Publish(Idle)] + Run(Device(config, b.slot), Absent, Init(id), envs, Never, true, b.close).effects
  {
    hide *;
    var d := Device(config, b.slot);
    FirstTurns(d, id, envs, b.close);
    QuietStartup(config, b);
    OnlyServed(d, Absent, b.requests);
    var served := Run(d, Absent, Init(id), envs, Never, true, b.close).effects;
    BootOfServed(config, b, served);
    FirstSix(id, b.slot, served);
  }

  lemma FirstSix(id: OtaId, slot: string, served: seq<Effect>)
    requires |served| >= 4
    requires served[..4] == [Publish(Init(id)), Publish(Acknowledged(id)), Publish(Deploying(id, NO_PROGRESS)),
                             Persist(PersistentState(id.uuid, slot))]
    ensures ([Boot(slot), Publish(Idle)] + served)[..6] == UntilPersisted(id, slot)
  {
    assert ([Boot(slot), Publish(Idle)] + served)[..6] == [Boot(slot), Publish(Idle)] + served[..4];
  }

  lemma BootOfServed(config: Config, b: BootScript, served: seq<Effect>)
    requires Startup(config, Absent, b) == RunResult([Publish(Idle)], Idle, true)
    requires Replay(Absent, [Publish(Idle)]) == Absent && served == Serve(Device(config, b.slot), Absent, b.requests)
    ensures BootEffects(config, Absent, b) == [Boot(b.slot), Publish(Idle)] + served
  {
    hide Startup, Replay, Serve;
    assert [Boot(b.slot)] + [Publish(Idle)] == [Boot(b.slot), Publish(Idle)];
  }

  lemma FirstTurns(d: Device, id: OtaId, envs: seq<Environment>, close: Closing)
    requires d.config.streaming && |envs| >= 3 && envs[2].slotKnown && envs[2].write.Written?
    ensures var effects := Run(d, Absent, Init(id), envs, Never, true, close).effects;
      |effects| >= 4 &&
      effects[..4] == [Publish(Init(id)), Publish(Acknowledged(id)), Publish(Deploying(id, NO_PROGRESS)),
                       Persist(PersistentState(id.uuid, d.booted))]
    ensures var effects := Run(d, Absent, Init(id), envs, Never, true, close).effects;
      effects[2..] == Run(d, Absent, Deploying(id, NO_PROGRESS), envs[2..], Never, true, close).effects
  {
    QuietTurn(d, Absent, Init(id), Acknowledged(id), envs, close);
    QuietTurn(d, Absent, Acknowledged(id), Deploying(id, NO_PROGRESS), envs[1..], close);
    DeployingTurn(d, id, envs[2..], close);
    assert envs[1..][1..] == envs[2..];
    hide *;
  }

  lemma QuietStartup(config: Config, b: BootScript)
    requires b.envs == []
    ensures Startup(config, Absent, b) == RunResult([Publish(Idle)], Idle, true)
    ensures Replay(Absent, [Publish(Idle)]) == Absent
  {
    IdleRun(Device(config, b.slot), Absent, [], b.close);
    PublishingKeepsFile(Absent, [Publish(Idle)]);
    assert [Publish(Idle)] + Clearing(Absent, b.close) == [Publish(Idle)];
  }

  lemma OnlyServed(d: Device, file: Stored, requests: seq<Request>)
    requires |requests| == 1
    ensures var q := requests[0];
      Serve(d, file, requests) == Run(d, file, Init(q.id), q.envs, q.token, true, q.close).effects
  {
    hide Run;
  }

  lemma DeployingTurn(d: Device, id: OtaId, envs: seq<Environment>, close: Closing)
    requires envs != [] && envs[0].slotKnown && envs[0].write.Written?
    ensures [Publish(Deploying(id, NO_PROGRESS)), Persist(PersistentState(id.uuid, d.booted))]
         <= Run(d, Absent, Deploying(id, NO_PROGRESS), envs, Never, true, close).effects
  {
    hide OtaDeploy.Statuses, OtaDeploy.Fold, OtaDeploy.EndingOf;
    var status := Deploying(id, NO_PROGRESS);
    var step := Deploy(d, id, envs[0]);
    assert step.effects[0] == Persist(PersistentState(id.uuid, d.booted));
    hide Deploy;
    assert Next(d, Absent, status, envs[0]) == step;
    hide Next;
    var t := TurnOf(status, step, Never, true);
    assert t.effects == [Publish(status)] + step.effects;
  }

  lemma CutIsSound(h: seq<Effect>, effects: seq<Effect>, cut: nat)
    requires Justified(h + effects) && Honest(h + effects)
    ensures var cutOff := h + effects[..if cut < |effects| then cut else |effects|];
      Justified(cutOff) && Honest(cutOff)
  {
    var n := if cut < |effects| then cut else |effects|;
    PrefixesKeep(h + effects, |h| + n);
    assert (h + effects)[..|h| + n] == h + effects[..n];
  }

  // ----- Erasing the state file -----

  /** The outcome of an update, as far as the state file is concerned. */
  predicate Outcome(e: Effect) {
    e.Publish? && (e.status.Success? || e.status.Failure?)
  }

  /** An outcome the server is told: a failure that does not say of which update is not reported. */
  predicate Reported(e: Effect) {
    Outcome(e) && e.status.AsEvent().Some?
  }

  /** The run of a request erases the state file only after it published the request's failure. */
  lemma RequestErasesAfterFailure(d: Device, file: Stored, q: Request)
    ensures var r := Run(d, file, Init(q.id), q.envs, q.token, true, q.close);
      Erase in r.effects ==>
        && r.left
        && exists e <- r.effects :: e.Publish? && e.status.Failure? && e.status.failed == Some(q.id)
  {
    var r := Run(d, file, Init(q.id), q.envs, q.token, true, q.close);
    OtaRuns.RequestFailsOnce(d, file, Init(q.id), q.envs, q.token, true, q.close, q.id);
    ErasesAtTheEnd(d, file, Init(q.id), q.envs, q.token, true, q.close);
    if r.left {
      var events := OtaRuns.Select(r.effects, OtaRuns.FailureEvents);
      SelectedAreMembers(r.effects, OtaRuns.FailureEvents);
      assert events[0] in events;
    }
  }

  lemma {:induction false} SelectedAreMembers(effects: seq<Effect>, k: OtaRuns.Kind)
    ensures forall e <- OtaRuns.Select(effects, k) :: e in effects
  {
    if effects != [] {
      SelectedAreMembers(effects[1..], k);
    }
  }

  predicate Writes(effects: seq<Effect>) {
    exists e <- effects :: e.Persist? || e.Tear?
  }

  lemma {:induction false} WritingMakesFile(file: Stored, effects: seq<Effect>)
    requires forall e <- effects :: !e.Erase?
    ensures Replay(file, effects).Absent? <==> file.Absent? && !Writes(effects)
    decreases |effects|
  {
    if effects != [] {
      WritingMakesFile(After(file, effects[0]), effects[1..]);
      assert effects == [effects[0]] + effects[1..];
    }
  }

  /** A run erases the state file exactly when it leaves the loop, the file was there or the run wrote it, and it is
      then seen and can be removed. */
  lemma {:induction false} ErasesAtTheEnd(d: Device, file: Stored, status: OtaStatus, envs: seq<Environment>,
                                          token: Token, check: bool, close: Closing)
    ensures var r := Run(d, file, status, envs, token, check, close);
      Erase in r.effects <==>
        r.left && close.visible && close.removable && (!file.Absent? || Writes(r.effects))
    decreases |envs|
  {
    if !status.Idle? && envs != [] {
      var step := Next(d, file, status, envs[0]);
      TransitionEffects(d, file, status, envs[0]);
      var t := TurnOf(status, step, token, check);
      hide Next;
      assert forall e <- t.effects :: e in step.effects || e.Publish?;
      hide TurnOf, Replay;
      WritingMakesFile(file, t.effects);
      var file1 := Replay(file, t.effects);
      ErasesAtTheEnd(d, file1, t.status, envs[1..], t.token, t.check, close);
      var rest := Run(d, file1, t.status, envs[1..], t.token, t.check, close);
      WritesEither(t.effects, rest.effects);
    }
  }

  lemma WritesEither(a: seq<Effect>, b: seq<Effect>)
    ensures Writes(a + b) <==> Writes(a) || Writes(b)
  {
  }

  /** The run of a pending update, turn by turn: the check, the status it leads to, and the end. */
  lemma StartupTurns(d: Device, file: Stored, b: BootScript)
    requires b.envs != []
    ensures var step := CheckReboot(d, file, b.envs[0]);
      Run(d, file, Rebooted, b.envs, Never, true, b.close) ==
        if |b.envs| == 1 then RunResult([Publish(Rebooted)] + step.effects, step.status, false)
        else
          var end := [Publish(step.status), Publish(Idle)] + Clearing(file, b.close);
          RunResult([Publish(Rebooted)] + step.effects + end, Idle, true)
  {
    var step := CheckReboot(d, file, b.envs[0]);
    var t := TurnOf(Rebooted, step, Never, true);
    CheckKeepsFile(d, file, b.envs[0]);
    assert t == Turn([Publish(Rebooted)] + step.effects, step.status, Never, true);
    assert Next(d, file, Rebooted, b.envs[0]) == step;
    OutcomeTurns(d, file, step.status, b.envs[1..], b.close);
    if |b.envs| > 1 {
      var last := [Publish(step.status), Publish(Idle)] + Clearing(file, b.close);
      assert t.effects + last ==
        [Publish(Rebooted)] + step.effects + [Publish(step.status), Publish(Idle)] + Clearing(file, b.close);
    } else {
      assert t.effects + [] == t.effects;
    }
  }

  lemma CheckKeepsFile(d: Device, file: Stored, env: Environment)
    ensures Replay(file, [Publish(Rebooted)] + CheckReboot(d, file, env).effects) == file
    ensures var next := CheckReboot(d, file, env).status; next.NoPendingOta? || next.Success? || next.Failure?
  {
    var effects := CheckReboot(d, file, env).effects;
    assert ([Publish(Rebooted)] + effects)[1..] == effects;
    if effects != [] {
      assert effects[1..] == [] && After(file, effects[0]) == file;
      assert Replay(file, effects) == file;
    }
  }

  lemma OutcomeTurns(d: Device, file: Stored, status: OtaStatus, envs: seq<Environment>, close: Closing)
    requires status.NoPendingOta? || status.Success? || status.Failure?
    ensures Run(d, file, status, envs, Never, true, close) ==
      if envs == [] then RunResult([], status, false)
      else RunResult([Publish(status), Publish(Idle)] + Clearing(file, close), Idle, true)
  {
    if envs != [] {
      var t := TurnOf(status, Step([], Idle), Never, true);
      assert t == Turn([Publish(status)], Idle, Never, true);
      PublishingKeepsFile(file, t.effects);
      IdleRun(d, file, envs[1..], close);
      assert [Publish(status)] + ([Publish(Idle)] + Clearing(file, close))
          == [Publish(status), Publish(Idle)] + Clearing(file, close);
    }
  }

  lemma IdleRun(d: Device, file: Stored, envs: seq<Environment>, close: Closing)
    ensures Run(d, file, Idle, envs, Never, true, close)
         == RunResult([Publish(Idle)] + Clearing(file, close), Idle, true)
  {
  }

  /** At start-up the file is erased exactly when it is there, the run gets to its end, and the file is then
      seen and can be removed. */
  lemma StartupErases(config: Config, file: Stored, b: BootScript)
    ensures Erase in Startup(config, file, b).effects <==>
      !file.Absent? && (!b.visible || |b.envs| >= 2) && b.close.visible && b.close.removable
  {
    StartupEffects(config, file, b);
  }

  /** At start-up the file is erased without any outcome exactly when it is there, but its metadata cannot be
      read, at first or by the check, while the file can be seen and removed in the end. */
  lemma StartupErasesWithoutOutcome(config: Config, file: Stored, b: BootScript)
    ensures var effects := Startup(config, file, b).effects;
      (Erase in effects && !exists e <- effects :: Outcome(e)) <==>
      (!file.Absent? && (!b.visible || (|b.envs| >= 2 && !b.envs[0].visible)) && b.close.visible && b.close.removable)
  {
    StartupEffects(config, file, b);
  }

  /** The server is told the outcome of a pending update by the start-up run exactly when the state file is
      seen, by the check too, and can be read. */
  lemma StartupReportsOutcome(config: Config, file: Stored, b: BootScript)
    ensures (exists e <- Startup(config, file, b).effects :: Reported(e)) <==>
      (b.visible && file.Saved? && |b.envs| >= 2 && b.envs[0].visible && b.envs[0].readable)
  {
    StartupEffects(config, file, b);
  }

  /** So an update is forgotten without the server being told, and exactly then, if the file is erased and it
      was not seen, or could not be read. */
  lemma StartupErasesUnreported(config: Config, file: Stored, b: BootScript)
    ensures var effects := Startup(config, file, b).effects;
      (Erase in effects && !exists e <- effects :: Reported(e)) <==>
      (!file.Absent? && b.close.visible && b.close.removable &&
       (!b.visible || (|b.envs| >= 2 && (!b.envs[0].visible || !b.envs[0].readable || file.Torn?))))
  {
    StartupErases(config, file, b);
    StartupReportsOutcome(config, file, b);
  }

  /** The server is told an outcome of the update with this uuid. */
  predicate ReportedFor(e: Effect, uuid: Uuid) {
    Reported(e) && e.status.RequestId().value.uuid == uuid
  }

  /** An update that was deployed is reported by a later start-up run that can see and read its file, whatever was
      reported of it before, exactly when nothing has erased or torn the file since. */
  lemma ReportedAgainExactlyWhenKept(config: Config, boots: seq<BootScript>, b: BootScript, p: int)
    requires LastPersisted(History(config, boots), p)
    requires b.visible && |b.envs| >= 2 && b.envs[0].visible && b.envs[0].readable
    ensures var h := History(config, boots);
      (exists e <- Startup(config, FileOf(h), b).effects :: ReportedFor(e, h[p].state.uuid)) <==>
      (forall x | p < x < |h| :: !h[x].Erase? && !h[x].Tear?)
  {
    var h := History(config, boots);
    KeptSince(h, p);
    StartupReportsOutcome(config, FileOf(h), b);
    if FileOf(h) == Saved(h[p].state) {
      ReportsItsState(config, h[p].state, b);
    }
    hide Startup, FileOf, History;
  }

  lemma ReportsItsState(config: Config, state: PersistentState, b: BootScript)
    requires b.visible && |b.envs| >= 2 && b.envs[0].visible && b.envs[0].readable
    ensures exists e <- Startup(config, Saved(state), b).effects :: ReportedFor(e, state.uuid)
  {
    StartupTurns(Device(config, b.slot), Saved(state), b);
    var step := CheckReboot(Device(config, b.slot), Saved(state), b.envs[0]);
    assert ReportedFor(Publish(step.status), state.uuid);
    hide Run, CheckReboot;
    assert Publish(step.status) in Startup(config, Saved(state), b).effects;
  }

  /** The file holds the last state exactly until it is erased or torn. */
  lemma {:induction false} KeptSince(h: seq<Effect>, p: int)
    requires LastPersisted(h, p)
    ensures FileOf(h) == Saved(h[p].state) <==> forall x | p < x < |h| :: !h[x].Erase? && !h[x].Tear?
    ensures FileOf(h).Saved? ==> FileOf(h) == Saved(h[p].state)
    decreases |h|
  {
    var n := |h| - 1;
    assert h == h[..n] + [h[n]];
    ReplayAppend(Absent, h[..n], [h[n]]);
    if p < n {
      KeptSince(h[..n], p);
    }
  }

  /** What the start-up run does that matters for the file and its outcome. */
  lemma StartupEffects(config: Config, file: Stored, b: BootScript)
    ensures var effects := Startup(config, file, b).effects;
      && (Erase in effects <==>
           !file.Absent? && (!b.visible || |b.envs| >= 2) && b.close.visible && b.close.removable)
      && ((exists e <- effects :: Outcome(e)) <==>
           Exists(file, b.visible) && |b.envs| >= 2 && b.envs[0].visible)
      && ((exists e <- effects :: Reported(e)) <==>
           b.visible && file.Saved? && |b.envs| >= 2 && b.envs[0].visible && b.envs[0].readable)
  {
    if Exists(file, b.visible) {
      PendingStartup(config, file, b);
    } else {
      IdleRun(Device(config, b.slot), file, b.envs, b.close);
      hide Run;
    }
  }

  lemma PendingStartup(config: Config, file: Stored, b: BootScript)
    requires Exists(file, b.visible)
    ensures var effects := Startup(config, file, b).effects;
      && (Erase in effects <==> |b.envs| >= 2 && b.close.visible && b.close.removable)
      && ((exists e <- effects :: Outcome(e)) <==> |b.envs| >= 2 && b.envs[0].visible)
      && ((exists e <- effects :: Reported(e)) <==>
           file.Saved? && |b.envs| >= 2 && b.envs[0].visible && b.envs[0].readable)
  {
    var d := Device(config, b.slot);
    if b.envs == [] {
      assert Startup(config, file, b).effects == [];
    } else {
      StartupTurns(d, file, b);
      CheckOutcome(d, file, b.envs[0]);
      hide Run, CheckReboot, Outcome, Reported;
      PendingEffects(CheckReboot(d, file, b.envs[0]), b, file, Startup(config, file, b).effects);
    }
  }

  /** Of all that the run of a pending update does, only its last turns matter. */
  lemma PendingEffects(step: Step, b: BootScript, file: Stored, effects: seq<Effect>)
    requires effects == [Publish(Rebooted)] + step.effects +
      (if |b.envs| == 1 then [] else [Publish(step.status), Publish(Idle)] + Clearing(file, b.close))
    requires (forall e <- step.effects :: e.MarkGood?) && b.envs != []
    ensures Erase in effects <==> |b.envs| > 1 && Erase in Clearing(file, b.close)
    ensures (exists e <- effects :: Outcome(e)) <==> |b.envs| > 1 && Outcome(Publish(step.status))
    ensures (exists e <- effects :: Reported(e)) <==> |b.envs| > 1 && Reported(Publish(step.status))
  {
    var last := if |b.envs| == 1 then [] else [Publish(step.status), Publish(Idle)] + Clearing(file, b.close);
    forall e <- effects
      ensures e in last || (!Outcome(e) && !e.Erase?)
    {
      assert e in step.effects || e == Publish(Rebooted) || e in last;
    }
    assert |b.envs| > 1 ==> effects[1 + |step.effects|] == Publish(step.status);
    assert forall e <- last :: e in effects;
  }

  lemma CheckOutcome(d: Device, file: Stored, env: Environment)
    requires !file.Absent?
    ensures var step := CheckReboot(d, file, env);
      && (forall e <- step.effects :: e.MarkGood?)
      && (Outcome(Publish(step.status)) <==> env.visible)
      && (Reported(Publish(step.status)) <==> env.visible && env.readable && file.Saved?)
  {
  }
}
