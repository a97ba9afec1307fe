/** The process-wide result store (`Cache`): every collection unit publishes
    its fields here, and every unit appends recoverable problems to the one
    shared Issues list. */
module Store {
  import opened Common

  /** A WMI or registry record flattened to text: property name to value. */
  type Record = map<string, string>

  /** One row of the TCP connection table, as published in the report. */
  datatype NetworkConnection = NetworkConnection(
    localIPAddress: string,
    localPort: int,
    remoteIPAddress: string,
    remotePort: int,
    owningPid: uint32)

  /** One running process, as published in the report. `exePath` is None
      where the source stores a null string. */
  datatype OutputProcess = OutputProcess(
    processName: string,
    exePath: Option<string>,
    id: int,
    workingSet: int,
    cpuPercent: real)

  class Cache {
    /** Recoverable problems met while gathering; append-only. */
    var issues: seq<string>

    var username: string
    var userVariables: map<string, string>
    var systemVariables: map<string, string>

    var osCaption: string
    var osVersion: string
    var bootupState: string
    var smBiosRamInfo: bool

    var runningProcesses: seq<OutputProcess>
    var services: seq<Record>
    var installedApps: seq<Record>
    var installedHotfixes: seq<Record>
    var scheduledTasks: seq<Record>
    var winScheduledTasks: seq<Record>
    var startupTasks: seq<Record>
    var powerProfiles: seq<Record>
    var microCodes: seq<string>
    var recentMinidumps: int
    var dumpZip: Option<string>
    var staticCoreCount: Option<bool>
    var choiceRegistryValues: seq<Record>
    var usernameSpecialCharacters: Option<bool>
    var oneDriveCommercialPathLength: Option<int>
    var oneDriveCommercialNameLength: Option<int>
    var browserExtensions: seq<Record>
    var defaultBrowser: Option<string>
    var pageFile: Record

    var cpu: Record
    var gpu: seq<Record>
    var ram: seq<Record>
    var motherboard: Record
    var audioDevices: seq<Record>
    var monitorInfo: seq<Record>
    var drivers: seq<Record>
    var devices: seq<Record>
    var biosInfo: seq<Record>
    var disks: seq<Record>
    var temperatures: seq<Record>
    var batteries: seq<Record>

    var avList: seq<string>
    var fwList: seq<string>
    var uacEnabled: Option<bool>
    var secureBootEnabled: Option<bool>
    var uacLevel: Option<int>
    var tpm: Record

    var netAdapters: seq<Record>
    var netAdapters2: seq<Record>
    var ipRoutes: seq<Record>
    var networkConnections: seq<NetworkConnection>
    var hostsFile: string
    var hostsFileHash: string

    /** Per-category write-success flags; every one starts false. */
    var mainDataWriteSuccess: bool
    var systemWriteSuccess: bool
    var hardwareWriteSuccess: bool
    var securityWriteSuccess: bool
    var networkWriteSuccess: bool

    /** A store before any unit has run: nothing gathered, no issue, every
        write-success flag false. */
    constructor (username: string)
      ensures this.username == username
      ensures issues == [] && userVariables == map[] && systemVariables == map[]
      ensures runningProcesses == [] && networkConnections == [] && hostsFile == ""
      ensures uacEnabled == None && secureBootEnabled == None && uacLevel == None
      ensures !mainDataWriteSuccess && !systemWriteSuccess && !hardwareWriteSuccess
      ensures !securityWriteSuccess && !networkWriteSuccess
    {
      issues := [];
      this.username := username;
      userVariables, systemVariables := map[], map[];
      osCaption, osVersion, bootupState, smBiosRamInfo := "", "", "", false;
      runningProcesses, services, microCodes, recentMinidumps := [], [], [], 0;
      installedApps, installedHotfixes, scheduledTasks, winScheduledTasks := [], [], [], [];
      startupTasks, powerProfiles, dumpZip, staticCoreCount := [], [], None, None;
      choiceRegistryValues, usernameSpecialCharacters := [], None;
      oneDriveCommercialPathLength, oneDriveCommercialNameLength := None, None;
      browserExtensions, defaultBrowser, pageFile := [], None, map[];
      cpu, gpu, ram, motherboard, audioDevices, monitorInfo := map[], [], [], map[], [], [];
      drivers, devices, biosInfo, disks, temperatures, batteries := [], [], [], [], [], [];
      avList, fwList, uacEnabled, secureBootEnabled, uacLevel, tpm := [], [], None, None, None, map[];
      netAdapters, netAdapters2, ipRoutes, networkConnections := [], [], [], [];
      hostsFile, hostsFileHash := "", "";
      mainDataWriteSuccess, systemWriteSuccess, hardwareWriteSuccess := false, false, false;
      securityWriteSuccess, networkWriteSuccess := false, false;
    }

    /** `Issues.Add(msg)`: appends one entry and changes nothing else. */
    method AddIssue(msg: string)
      modifies this`issues
      ensures issues == old(issues) + [msg]
    {
      issues := issues + [msg];
    }
  }
}
