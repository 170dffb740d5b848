/** The telemetry interfaces and their names. */
module TelemetryInterfaces {
  import opened Wrappers

  datatype Interface =
    | SystemStatus | StorageUsage | BatteryStatus | WiFiScanResults
    | ContainerBlkio | ContainerCpu | ContainerMemory | ContainerMemoryStats | ContainerNetworks
    | ContainerProcesses | VolumeUsage | Geolocation | CellularConnectionStatus

  function Name(i: Interface): string {
    match i
    case SystemStatus => "io.edgehog.devicemanager.SystemStatus"
    case StorageUsage => "io.edgehog.devicemanager.StorageUsage"
    case BatteryStatus => "io.edgehog.devicemanager.BatteryStatus"
    case WiFiScanResults => "io.edgehog.devicemanager.WiFiScanResults"
    case ContainerBlkio => "io.edgehog.devicemanager.apps.stats.ContainerBlkio"
    case ContainerCpu => "io.edgehog.devicemanager.apps.stats.ContainerCpu"
    case ContainerMemory => "io.edgehog.devicemanager.apps.stats.ContainerMemory"
    case ContainerMemoryStats => "io.edgehog.devicemanager.apps.stats.ContainerMemoryStats"
    case ContainerNetworks => "io.edgehog.devicemanager.apps.stats.ContainerNetworks"
    case ContainerProcesses => "io.edgehog.devicemanager.apps.stats.ContainerProcesses"
    case VolumeUsage => "io.edgehog.devicemanager.apps.stats.VolumeUsage"
    case Geolocation => "io.edgehog.devicemanager.Geolocation"
    case CellularConnectionStatus => "io.edgehog.devicemanager.CellularConnectionStatus"
  }

  function Parse(s: string): Option<Interface> {
    match s
    case "io.edgehog.devicemanager.SystemStatus" => Some(SystemStatus)
    case "io.edgehog.devicemanager.StorageUsage" => Some(StorageUsage)
    case "io.edgehog.devicemanager.BatteryStatus" => Some(BatteryStatus)
    case "io.edgehog.devicemanager.WiFiScanResults" => Some(WiFiScanResults)
    case "io.edgehog.devicemanager.apps.stats.ContainerBlkio" => Some(ContainerBlkio)
    case "io.edgehog.devicemanager.apps.stats.ContainerCpu" => Some(ContainerCpu)
    case "io.edgehog.devicemanager.apps.stats.ContainerMemory" => Some(ContainerMemory)
    case "io.edgehog.devicemanager.apps.stats.ContainerMemoryStats" => Some(ContainerMemoryStats)
    case "io.edgehog.devicemanager.apps.stats.ContainerNetworks" => Some(ContainerNetworks)
    case "io.edgehog.devicemanager.apps.stats.ContainerProcesses" => Some(ContainerProcesses)
    case "io.edgehog.devicemanager.apps.stats.VolumeUsage" => Some(VolumeUsage)
    case "io.edgehog.devicemanager.Geolocation" => Some(Geolocation)
    case "io.edgehog.devicemanager.CellularConnectionStatus" => Some(CellularConnectionStatus)
    case _ => None
  }

  predicate OfTheDevice(i: Interface) {
    i.SystemStatus? || i.StorageUsage? || i.BatteryStatus? || i.WiFiScanResults? || i.Geolocation? ||
    i.CellularConnectionStatus?
  }

  lemma DeviceNameIsParsed(i: Interface)
    requires OfTheDevice(i)
    ensures Parse(Name(i)) == Some(i)
  {
  }

  lemma ContainerNameIsParsed(i: Interface)
    requires !OfTheDevice(i)
    ensures Parse(Name(i)) == Some(i)
  {
  }

  /** An interface that was written by its name is read back. */
  lemma NameIsParsed(i: Interface)
    ensures Parse(Name(i)) == Some(i)
  {
    hide Parse, Name;
    if OfTheDevice(i) {
      DeviceNameIsParsed(i);
    } else {
      ContainerNameIsParsed(i);
    }
  }
}
