/** The status of an update, the errors it can end in, and the event each status is reported as. */
module OtaStatuses {
  import opened Wrappers
  import opened Bytes

  /** The hyphenated text of a UUID, which is never empty. */
  type Uuid = s: string | |s| == 36 witness seq(36, _ => '0')

  datatype OtaId = OtaId(uuid: Uuid, url: string)

  /** The detail of an error; values formatted into the text are kept as parameters. */
  datatype Detail =
    | RemoveOldFile | DownloadFailed | NoContentLength(url: string) | CreateFile | ParseResponse | WriteChunk
    | Incomplete | ClientSetup | TooManyAttempts | WrongPath | BundleInfo | SystemInfo
    | Incompatible(bundle: string, system: string) | BootedSlot | PersistState | InstallImage | OperationStatus
    | CompletedEvent | NoCompletedEvent | SignalReceived(signal: I32) | RebootCommand | ReadState | SwitchSlot
    | PrimarySlot | MarkSlot | MarkedSlotDiffers | CancelDiffers | CancelEmpty
  {
    function Text(): string {
      match this
      case RemoveOldFile => "failed to remove old file"
      case DownloadFailed => "Error downloading update"
      case NoContentLength(url) => "Unable to get content length from: " + url
      case CreateFile => "Unable to create ota_file"
      case ParseResponse => "Unable to parse response"
      case WriteChunk => "Unable to write chunk to ota_file"
      case Incomplete => "Unable to download file"
      case ClientSetup => "couldn't build HTTP client"
      case TooManyAttempts => "Too many attempts to download the OTA file"
      case WrongPath => "Wrong download file path"
      case BundleInfo => "Unable to get info from ota_file"
      case SystemInfo => "Unable to get info from current deployed image"
      case Incompatible(bundle, system) => "bundle " + bundle + " is not compatible with system " + system
      case BootedSlot => "Unable to identify the booted slot"
      case PersistState => "Unable to persist ota state"
      case InstallImage => "Unable to install ota image"
      case OperationStatus => "Unable to get status of ota operation"
      case CompletedEvent => "Unable to receive the install completed event"
      case NoCompletedEvent => "No progress completion event received"
      case SignalReceived(_) => "Update failed with signal"
      case RebootCommand => "Unable to run reboot command"
      case ReadState => "Unable to read pending ota state"
      case SwitchSlot => "Unable to switch slot"
      case PrimarySlot => "Unable to get the current primary slot"
      case MarkSlot => "Unable to run marking slot operation"
      case MarkedSlotDiffers => "Unable to mark slot"
      case CancelDiffers => "Unable to cancel OTA request, they have different identifier"
      case CancelEmpty => "Unable to cancel OTA request, internal request is empty"
    }
  }

  datatype OtaError =
    | Request(detail: Detail)
    | UpdateAlreadyInProgress
    | Network(detail: Detail)
    | Io(detail: Detail)
    | Internal(detail: Detail)
    | InvalidBaseImage(detail: Detail)
    | SystemRollback(detail: Detail)
    | Canceled
    | InconsistentState
  {
    function Code(): string {
      match this
      case Request(_) => "RequestError"
      case UpdateAlreadyInProgress => "UpdateAlreadyInProgress"
      case Network(_) => "NetworkError"
      case Io(_) => "IOError"
      case Internal(_) => "InternalError"
      case InvalidBaseImage(_) => "InvalidBaseImage"
      case SystemRollback(_) => "SystemRollback"
      case Canceled => "Canceled"
      case InconsistentState => "InternalError"
    }

    function Message(): string {
      if UpdateAlreadyInProgress? || Canceled? || InconsistentState? then "" else detail.Text()
    }
  }

  datatype DeployProgress = DeployProgress(percentage: I32, message: string)

  const NO_PROGRESS := DeployProgress(0, "")

  datatype OtaStatus =
    | Idle
    | Init(id: OtaId)
    | NoPendingOta
    | Acknowledged(id: OtaId)
    | Downloading(id: OtaId, percentage: I32)
    | Deploying(id: OtaId, progress: DeployProgress)
    | Deployed(id: OtaId)
    | Rebooting(id: OtaId)
    | Rebooted
    | Success(id: OtaId)
    | Error(error: OtaError, id: OtaId)
    | Failure(error: OtaError, failed: Option<OtaId>)
  {
    predicate IsCancellable() {
      Init? || Acknowledged? || Downloading?
    }

    /** The request the status belongs to, if any. */
    function RequestId(): Option<OtaId> {
      match this
      case Idle | NoPendingOta | Rebooted => None
      case Failure(_, id) => id
      case _ => Some(id)
    }

    /** The event sent to the server, if the status is one that is reported. */
    function AsEvent(): Option<OtaEvent> {
      match this
      case Acknowledged(id) => Some(OtaEvent(id.uuid, "Acknowledged", 0, "", ""))
      case Downloading(id, p) => Some(OtaEvent(id.uuid, "Downloading", p, "", ""))
      case Deploying(id, p) => Some(OtaEvent(id.uuid, "Deploying", p.percentage, "", p.message))
      case Deployed(id) => Some(OtaEvent(id.uuid, "Deployed", 0, "", ""))
      case Rebooting(id) => Some(OtaEvent(id.uuid, "Rebooting", 0, "", ""))
      case Success(id) => Some(OtaEvent(id.uuid, "Success", 0, "", ""))
      case Failure(e, Some(id)) => Some(OtaEvent(id.uuid, "Failure", 0, e.Code(), e.Message()))
      case Error(e, id) => Some(OtaEvent(id.uuid, "Error", 0, e.Code(), e.Message()))
      case Idle | Init(_) | NoPendingOta | Rebooted | Failure(_, None) => None
    }
  }

  datatype OtaEvent = OtaEvent(
    requestUuid: Uuid, status: string, statusProgress: I32, statusCode: string, message: string)

  /** What the server is told: the request, the kind of status by its name, and the progress of the two kinds that
      have one. Nothing is told of a status that is of no request, or of a request that was not acknowledged yet. */
  lemma EventTellsStatus(s: OtaStatus)
    ensures s.AsEvent().None? <==> s.RequestId().None? || s.Init?
    ensures s.AsEvent().Some? ==>
      var e := s.AsEvent().value;
      && e.requestUuid == s.RequestId().value.uuid
      && (s.Acknowledged? <==> e.status == "Acknowledged") && (s.Downloading? <==> e.status == "Downloading")
      && (s.Deploying? <==> e.status == "Deploying") && (s.Deployed? <==> e.status == "Deployed")
      && (s.Rebooting? <==> e.status == "Rebooting") && (s.Success? <==> e.status == "Success")
      && (s.Failure? <==> e.status == "Failure") && (s.Error? <==> e.status == "Error")
      && e.statusProgress == if s.Downloading? then s.percentage else if s.Deploying? then s.progress.percentage else 0
  {
    if s.AsEvent().Some? {
      var name := s.AsEvent().value.status;
      assert |name| > 2;
      assert |"Acknowledged"| == 12 && |"Downloading"| == 11 && |"Deploying"| == 9 && |"Deployed"| == 8;
      assert |"Rebooting"| == 9 && |"Success"| == 7 && |"Failure"| == 7 && |"Error"| == 5;
      assert "Success"[0] == 'S' && "Failure"[0] == 'F' && "Rebooting"[0] == 'R' && "Deploying"[0] == 'D';
    }
  }

  /** Two statuses a reader of the event stream has to be able to tell apart never collide: an
      event fixes the kind of status, the request, and the progress or the error text. */
  lemma EventsIdentifyTheirStatus(a: OtaStatus, b: OtaStatus)
    requires a.AsEvent().Some? && a.AsEvent() == b.AsEvent()
    ensures a.RequestId().Some? && b.RequestId().Some?
    ensures a.RequestId().value.uuid == b.RequestId().value.uuid
    ensures a.Acknowledged? == b.Acknowledged? && a.Downloading? == b.Downloading?
    ensures a.Deploying? == b.Deploying? && a.Deployed? == b.Deployed?
    ensures a.Rebooting? == b.Rebooting? && a.Success? == b.Success?
    ensures a.Error? == b.Error? && a.Failure? == b.Failure?
    ensures a.Downloading? ==> a.percentage == b.percentage
    ensures a.Deploying? ==> a.progress == b.progress
    ensures a.Failure? || a.Error? ==>
      a.error.Code() == b.error.Code() && a.error.Message() == b.error.Message()
  {
    var x, y := a.AsEvent().value, b.AsEvent().value;
    assert x.status == y.status && x.statusCode == y.statusCode;
    assert x.status[0] == y.status[0] && |x.status| == |y.status|;
    if x.status[0] == 'D' {
      assert |"Downloading"| == 11 && |"Deploying"| == 9 && |"Deployed"| == 8;
    }
  }
}
