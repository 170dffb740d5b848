/** The update engine as a specification: what one transition and one run do to the world.

    Every interaction with the world is an `Effect`; a run is the sequence of its effects, so that a
    power cut is a prefix of that sequence. What the world answers is an `Environment`, one per
    transition, over which every theorem quantifies. */
module OtaEngine {
  import opened Wrappers
  import opened OtaStatuses
  import OtaDownload
  import OtaDeploy

  datatype PersistentState = PersistentState(uuid: Uuid, slot: string)

  /** The state file: missing, unreadable, or holding the state of a pending update. */
  datatype Stored = Absent | Torn | Saved(state: PersistentState)

  datatype Effect =
    | Publish(status: OtaStatus)
    | Persist(state: PersistentState)
    | Tear
    | Install(source: string)
    | MarkGood(primary: string, marked: string)
    | Reboot
    | Erase
    | Boot(slot: string)

  datatype Config = Config(streaming: bool, externalReboot: bool, imagePath: string)

  /** A device between two boots: its configuration and the slot it runs from. */
  datatype Device = Device(config: Config, booted: string)

  /** A write of the state file either works, changes nothing, or leaves the file unreadable. */
  datatype Write = Written | Refused | TornWrite

  /** Everything the world answers during one transition. */
  datatype Environment = Environment(
    validPath: bool,
    client: bool,
    attempts: OtaDownload.Attempts,
    bundle: Option<string>,
    system: Option<string>,
    slotKnown: bool,
    write: Write,
    installs: bool,
    operates: bool,
    stream: Option<seq<OtaDeploy.Item>>,
    reboots: bool,
    visible: bool,
    readable: bool,
    primary: Option<string>,
    marked: Option<string>)

  function After(file: Stored, e: Effect): Stored {
    match e
    case Persist(state) => Saved(state)
    case Tear => Torn
    case Erase => Absent
    case _ => file
  }

  /** The state file once all effects have happened. */
  function Replay(file: Stored, effects: seq<Effect>): Stored
    decreases |effects|
  {
    if effects == [] then file else Replay(After(file, effects[0]), effects[1..])
  }

  /** The state file is reported as missing also when its metadata cannot be read. */
  predicate Exists(file: Stored, visible: bool) {
    visible && !file.Absent?
  }

  function Publishes(statuses: seq<OtaStatus>): (effects: seq<Effect>)
    ensures |effects| == |statuses|
    ensures forall i | 0 <= i < |effects| :: effects[i] == Publish(statuses[i])
  {
    seq(|statuses|, i requires 0 <= i < |statuses| => Publish(statuses[i]))
  }

  // ----- One transition -----

  datatype Step = Step(effects: seq<Effect>, status: OtaStatus)

  function StartUpdate(config: Config, id: OtaId): OtaStatus {
    if config.streaming then Deploying(id, NO_PROGRESS) else Downloading(id, 0)
  }

  function Download(id: OtaId, env: Environment): Step {
    if !env.validPath then Step([], Failure(Io(WrongPath), Some(id)))
    else
      var r := OtaDownload.RetryOutcome(id, env.client, OtaDownload.TransfersOf(id, env.attempts));
      Step(Publishes(r.published),
           if r.result.Err? then Failure(r.result.error, Some(id))
           else if env.bundle.None? then Failure(InvalidBaseImage(BundleInfo), Some(id))
           else if env.system.None? then
             Failure(InvalidBaseImage(SystemInfo), Some(id))
           else if env.bundle.value != env.system.value then
             Failure(InvalidBaseImage(Incompatible(env.bundle.value, env.system.value)), Some(id))
           else Deploying(id, NO_PROGRESS))
  }

  function DeployingReports(id: OtaId, published: seq<DeployProgress>): seq<Effect> {
    seq(|published|, i requires 0 <= i < |published| => Publish(Deploying(id, published[i])))
  }

  function Deploy(d: Device, id: OtaId, env: Environment): Step {
    if !env.slotKnown then Step([], Failure(Internal(BootedSlot), Some(id)))
    else if !env.write.Written? then
      Step(if env.write.TornWrite? then [Tear] else [], Failure(Io(PersistState), Some(id)))
    else
      var saved := [Persist(PersistentState(id.uuid, d.booted))];
      if !env.installs then Step(saved, Failure(InvalidBaseImage(InstallImage), Some(id)))
      else
        var installed := saved + [Install(if d.config.streaming then id.url else d.config.imagePath)];
        if !env.operates || env.stream.None? then
          Step(installed, Failure(Internal(OperationStatus), Some(id)))
        else
          var items := env.stream.value;
          var reports := DeployingReports(id, OtaDeploy.Fold(OtaDeploy.Statuses(items)).published);
          Step(installed + reports,
               match OtaDeploy.EndingOf(items)
               case StreamError => Failure(Internal(CompletedEvent), Some(id))
               case NoCompletion => Failure(Internal(NoCompletedEvent), Some(id))
               case Signal(signal) =>
                 if signal == 0 then Deployed(id)
                 else Failure(InvalidBaseImage(SignalReceived(signal)), Some(id)))
  }

  function RebootDevice(config: Config, id: OtaId, env: Environment): Step {
    if config.externalReboot then Step([Publish(Rebooting(id))], Rebooting(id))
    else if env.reboots then Step([Publish(Rebooting(id)), Reboot], Rebooting(id))
    else Step([Publish(Rebooting(id))], Failure(Internal(RebootCommand), Some(id)))
  }

  /** The checks after a restart: the slot must have switched and the new one be marked good. */
  function PendingOta(d: Device, state: PersistentState, env: Environment): (seq<Effect>, Option<OtaError>) {
    if !env.slotKnown then ([], Some(Internal(BootedSlot)))
    else if state.slot == d.booted then ([], Some(SystemRollback(SwitchSlot)))
    else if env.primary.None? then ([], Some(Internal(PrimarySlot)))
    else if env.marked.None? then ([], Some(Internal(MarkSlot)))
    else
      ([MarkGood(env.primary.value, env.marked.value)],
       if env.primary != env.marked then Some(Internal(MarkedSlotDiffers)) else None)
  }

  function CheckReboot(d: Device, file: Stored, env: Environment): Step {
    if !Exists(file, env.visible) then Step([], NoPendingOta)
    else if !env.readable || file.Torn? then Step([], Failure(Io(ReadState), None))
    else
      var id := OtaId(file.state.uuid, "");
      var (effects, error) := PendingOta(d, file.state, env);
      Step(effects, if error.Some? then Failure(error.value, Some(id)) else Success(id))
  }

  function Next(d: Device, file: Stored, status: OtaStatus, env: Environment): Step {
    match status
    case Init(id) => Step([], Acknowledged(id))
    case Acknowledged(id) => Step([], StartUpdate(d.config, id))
    case Downloading(id, _) => Download(id, env)
    case Deploying(id, _) => Deploy(d, id, env)
    case Deployed(id) => RebootDevice(d.config, id, env)
    case Rebooted => CheckReboot(d, file, env)
    case Rebooting(id) => Step([], Rebooting(id))
    case Error(e, id) => Step([], Failure(e, Some(id)))
    case Idle | NoPendingOta | Success(_) | Failure(_, _) => Step([], Idle)
  }

  // ----- Cancellation -----

  /** When the cancellation token of a run fires: never, already, or `turns` turns from now, once
      the transition of that turn has had `effects` effects. */
  datatype Token = Never | Cancelled | CancelsIn(turns: nat, effects: nat)

  function Tick(token: Token): Token {
    match token
    case CancelsIn(turns, effects) => if turns == 0 then Cancelled else CancelsIn(turns - 1, effects)
    case _ => token
  }

  /** The token fires before the transition completes, which is then dropped. */
  predicate Interrupts(token: Token, step: Step) {
    token.Cancelled? || (token.CancelsIn? && token.turns == 0 && token.effects <= |step.effects|)
  }

  function Cut(token: Token): nat {
    if token.CancelsIn? then token.effects else 0
  }

  /** The token has fired when a turn that cannot be cancelled looks at it. */
  predicate Noticed(token: Token) {
    token.Cancelled? || token == CancelsIn(0, 0)
  }

  // ----- One run -----

  const NOTICE := Publish(Failure(Canceled, None))

  datatype Turn = Turn(effects: seq<Effect>, status: OtaStatus, token: Token, check: bool)

  /** One iteration of the loop: publish the status, look at the token, make the transition. */
  function TurnOf(status: OtaStatus, step: Step, token: Token, check: bool): Turn {
    if status.IsCancellable() then
      if Interrupts(token, step) then
        Turn([Publish(status)] + step.effects[..Cut(token)], Failure(Canceled, status.RequestId()), Tick(token), false)
      else Turn([Publish(status)] + step.effects, step.status, Tick(token), check)
    else if check && Noticed(token) then
      Turn([Publish(status), NOTICE] + step.effects, step.status, Tick(token), false)
    else Turn([Publish(status)] + step.effects, step.status, Tick(token), check)
  }

  /** What the world answers while the run cleans up. */
  datatype Closing = Closing(visible: bool, removable: bool)

  function Clearing(file: Stored, close: Closing): seq<Effect> {
    if Exists(file, close.visible) && close.removable then [Erase] else []
  }

  /** `left` tells whether the loop was left; a run that is not left lost power or is still waiting. */
  datatype RunResult = RunResult(effects: seq<Effect>, status: OtaStatus, left: bool)

  function Run(d: Device, file: Stored, status: OtaStatus, envs: seq<Environment>, token: Token, check: bool,
               close: Closing): RunResult
    decreases |envs|
  {
    if status.Idle? then RunResult([Publish(Idle)] + Clearing(file, close), Idle, true)
    else if envs == [] then RunResult([], status, false)
    else
      var t := TurnOf(status, Next(d, file, status, envs[0]), token, check);
      var rest := Run(d, Replay(file, t.effects), t.status, envs[1..], t.token, t.check, close);
      RunResult(t.effects + rest.effects, rest.status, rest.left)
  }

  // ----- Effects of a transition -----

  predicate IsFailure(e: Effect) {
    e.Publish? && e.status.Failure?
  }

  /** What each transition may do: it publishes no failure; only a deployment writes or installs, only
      the check after a restart marks a slot, and none erases the state file or restarts the device. */
  lemma TransitionEffects(d: Device, file: Stored, status: OtaStatus, env: Environment)
    ensures var step := Next(d, file, status, env);
      forall e <- step.effects ::
        && !IsFailure(e) && !e.Erase? && !e.Boot?
        && (e.Persist? || e.Tear? || e.Install? ==> status.Deploying?)
        && (e.MarkGood? ==> status.Rebooted?)
        && (e.Publish? && e.status.Success? ==> false)
        && (e.Persist? ==> e.state == PersistentState(status.id.uuid, d.booted))
  {
    if status.Downloading? && env.validPath {
      var transfers := OtaDownload.TransfersOf(status.id, env.attempts);
      RetryPublishes(status.id, env.client, transfers);
      var published := OtaDownload.RetryOutcome(status.id, env.client, transfers).published;
      var effects := Next(d, file, status, env).effects;
      assert forall i | 0 <= i < |effects| :: effects[i] == Publish(published[i]) && published[i] in published;
    }
  }

  /** The image of a download in this turn arrives, and is meant for this device. */
  predicate ImageArrives(env: Environment) {
    && env.validPath && env.client && (exists a <- env.attempts :: OtaDownload.Delivers(a))
    && env.bundle.Some? && env.system.Some? && env.bundle.value == env.system.value
  }

  /** A download leads to the deployment if and only if the image arrives and is meant for this device; else the
      request fails. */
  lemma DownloadGate(id: OtaId, env: Environment)
    ensures var next := Download(id, env).status;
      if ImageArrives(env) then next == Deploying(id, NO_PROGRESS) else next.Failure? && next.failed == Some(id)
  {
    OtaDownload.RetriesSucceedExactlyWhenDelivered(id, env.client, env.attempts);
    hide OtaDownload.RetryOutcome, OtaDownload.TransfersOf, OtaDownload.Delivers;
  }

  lemma RetryPublishes(id: OtaId, client: bool, transfers: seq<OtaDownload.Transfer>)
    requires forall t <- transfers, s <- t.published :: s.Downloading? && s.id == id
    ensures forall s <- OtaDownload.RetryOutcome(id, client, transfers).published ::
              (s.Downloading? || s.Error?) && s.id == id
  {
    FailedReportsKinds(id, transfers, OtaDownload.FirstSuccess(transfers));
  }

  lemma {:induction false} FailedReportsKinds(id: OtaId, transfers: seq<OtaDownload.Transfer>, k: nat)
    requires k <= |transfers|
    requires forall t <- transfers, s <- t.published :: s.Downloading? && s.id == id
    requires forall i | 0 <= i < k :: transfers[i].fault.Some?
    ensures forall s <- OtaDownload.FailedReports(id, transfers, k) :: (s.Downloading? || s.Error?) && s.id == id
  {
    if k > 0 {
      FailedReportsKinds(id, transfers, k - 1);
      assert transfers[k - 1] in transfers;
    }
  }
}
