/** Report finishing and delivery (`Monolith`): the store is snapshotted
    into one nested report, the report is serialized, sensitive text is
    redacted by literal substring replacement, and the text is either saved
    locally or uploaded, ending with a signal to the desktop shell. */
module Monolith {
  import opened Common
  import opened Store

  // ---------------------------------------------------------------------
  // The report document
  // ---------------------------------------------------------------------

  /** The generation metadata: the stopped run timer and the time of
      serialization. */
  datatype Meta = Meta(elapsedTime: int, generationDate: int)

  datatype BasicInfo = BasicInfo(
    edition: string,
    version: string,
    friendlyVersion: Option<string>,
    installDate: int,
    uptime: int,
    hostname: string,
    username: string,
    domain: Option<string>,
    bootMode: Option<string>,
    bootState: string,
    smBiosRamInformation: bool)

  datatype SystemSection = SystemSection(
    userVariables: map<string, string>,
    systemVariables: map<string, string>,
    runningProcesses: seq<OutputProcess>,
    services: seq<Record>,
    installedApps: seq<Record>,
    installedHotfixes: seq<Record>,
    scheduledTasks: seq<Record>,
    winScheduledTasks: seq<Record>,
    startupTasks: seq<Record>,
    powerProfiles: seq<Record>,
    microCodes: seq<string>,
    recentMinidumps: int,
    dumpZip: Option<string>,
    staticCoreCount: Option<bool>,
    choiceRegistryValues: seq<Record>,
    usernameSpecialCharacters: Option<bool>,
    oneDriveCommercialPathLength: Option<int>,
    oneDriveCommercialNameLength: Option<int>,
    browserExtensions: seq<Record>,
    defaultBrowser: Option<string>,
    pageFile: Record)

  datatype HardwareSection = HardwareSection(
    ram: seq<Record>,
    cpu: Record,
    gpu: seq<Record>,
    motherboard: Record,
    audioDevices: seq<Record>,
    monitors: seq<Record>,
    drivers: seq<Record>,
    devices: seq<Record>,
    biosInfo: seq<Record>,
    storage: seq<Record>,
    temperatures: seq<Record>,
    batteries: seq<Record>)

  datatype SecuritySection = SecuritySection(
    avList: seq<string>,
    fwList: seq<string>,
    uacEnabled: Option<bool>,
    secureBootEnabled: Option<bool>,
    uacLevel: Option<int>,
    tpm: Record)

  datatype NetworkSection = NetworkSection(
    adapters: seq<Record>,
    adapters2: seq<Record>,
    routes: seq<Record>,
    networkConnections: seq<NetworkConnection>,
    hostsFile: string,
    hostsFileHash: string)

  datatype Report = Report(
    version: string,
    meta: Meta,
    basicInfo: BasicInfo,
    system: SystemSection,
    hardware: HardwareSection,
    security: SecuritySection,
    network: NetworkSection,
    issues: seq<string>,
    debugLogText: string)

  /** What the report reads from outside the store: the program version, the
      run timer and the clock (Unix seconds), the `DisplayVersion` and
      `ReleaseId` registry values, the install and last-boot times, the DNS
      host name, the `userdomain` and `firmware_type` environment variables
      (None when unset or absent) and the debug log text. */
  datatype Env = Env(
    specifyVersion: string,
    elapsedTime: int,
    now: int,
    displayVersion: Option<string>,
    releaseId: Option<string>,
    installDate: int,
    lastBootUpTime: int,
    hostname: string,
    domain: Option<string>,
    bootMode: Option<string>,
    debugLogText: string)

  /** `new Monolith()` followed by the generation date and the debug log.
      The report's Issues list is the store's Issues list itself. */
  function NewMonolith(c: Cache, env: Env): (m: Report)
    reads c
    ensures m.issues == c.issues
  {
    var friendly := if env.displayVersion.Some? then env.displayVersion else env.releaseId;
    Report(
      env.specifyVersion,
      Meta(env.elapsedTime, env.now),
      BasicInfo(c.osCaption, c.osVersion, friendly, env.installDate, env.now - env.lastBootUpTime,
                env.hostname, c.username, env.domain, env.bootMode, c.bootupState, c.smBiosRamInfo),
      SystemSection(c.userVariables, c.systemVariables, c.runningProcesses, c.services,
                    c.installedApps, c.installedHotfixes, c.scheduledTasks, c.winScheduledTasks,
                    c.startupTasks, c.powerProfiles, c.microCodes, c.recentMinidumps, c.dumpZip,
                    c.staticCoreCount, c.choiceRegistryValues, c.usernameSpecialCharacters,
                    c.oneDriveCommercialPathLength, c.oneDriveCommercialNameLength,
                    c.browserExtensions, c.defaultBrowser, c.pageFile),
      HardwareSection(c.ram, c.cpu, c.gpu, c.motherboard, c.audioDevices, c.monitorInfo,
                      c.drivers, c.devices, c.biosInfo, c.disks, c.temperatures, c.batteries),
      SecuritySection(c.avList, c.fwList, c.uacEnabled, c.secureBootEnabled,
                      c.uacLevel, c.tpm),
      NetworkSection(c.netAdapters, c.netAdapters2, c.ipRoutes,
                     c.networkConnections, c.hostsFile, c.hostsFileHash),
      c.issues,
      env.debugLogText)
  }

  /** In the report `new Monolith()` builds, every field of every section
      is the store field it is read from (the hardware `Monitors` and
      `Storage` lists are the store's `MonitorInfo` and `Disks`),
      `FriendlyVersion` falls back from `DisplayVersion` to `ReleaseId`, and
      the uptime is measured from the last boot to now. */
  lemma NewMonolithCopiesStore(c: Cache, env: Env, m: Report)
    requires m == NewMonolith(c, env)
    ensures m.version == env.specifyVersion
    ensures m.meta == Meta(env.elapsedTime, env.now) && m.debugLogText == env.debugLogText
    ensures m.basicInfo.edition == c.osCaption && m.basicInfo.version == c.osVersion
    ensures m.basicInfo.friendlyVersion.Some? <==> env.displayVersion.Some? || env.releaseId.Some?
    ensures env.displayVersion.Some? ==> m.basicInfo.friendlyVersion == env.displayVersion
    ensures env.displayVersion.None? ==> m.basicInfo.friendlyVersion == env.releaseId
    ensures m.basicInfo.installDate == env.installDate
    ensures m.basicInfo.uptime + env.lastBootUpTime == env.now
    ensures m.basicInfo.username == c.username && m.basicInfo.hostname == env.hostname
    ensures m.basicInfo.domain == env.domain && m.basicInfo.bootMode == env.bootMode
    ensures m.basicInfo.bootState == c.bootupState && m.basicInfo.smBiosRamInformation == c.smBiosRamInfo
    ensures m.system.userVariables == c.userVariables && m.system.systemVariables == c.systemVariables
    ensures m.system.runningProcesses == c.runningProcesses && m.system.services == c.services
    ensures m.system.installedApps == c.installedApps && m.system.installedHotfixes == c.installedHotfixes
    ensures m.system.scheduledTasks == c.scheduledTasks && m.system.winScheduledTasks == c.winScheduledTasks
    ensures m.system.startupTasks == c.startupTasks && m.system.powerProfiles == c.powerProfiles
    ensures m.system.microCodes == c.microCodes && m.system.recentMinidumps == c.recentMinidumps
    ensures m.system.dumpZip == c.dumpZip && m.system.staticCoreCount == c.staticCoreCount
    ensures m.system.choiceRegistryValues == c.choiceRegistryValues
    ensures m.system.usernameSpecialCharacters == c.usernameSpecialCharacters
    ensures m.system.oneDriveCommercialPathLength == c.oneDriveCommercialPathLength
    ensures m.system.oneDriveCommercialNameLength == c.oneDriveCommercialNameLength
    ensures m.system.browserExtensions == c.browserExtensions && m.system.defaultBrowser == c.defaultBrowser
    ensures m.system.pageFile == c.pageFile
    ensures m.hardware.ram == c.ram && m.hardware.cpu == c.cpu && m.hardware.gpu == c.gpu
    ensures m.hardware.motherboard == c.motherboard && m.hardware.audioDevices == c.audioDevices
    ensures m.hardware.monitors == c.monitorInfo && m.hardware.drivers == c.drivers
    ensures m.hardware.devices == c.devices && m.hardware.biosInfo == c.biosInfo
    ensures m.hardware.storage == c.disks && m.hardware.temperatures == c.temperatures
    ensures m.hardware.batteries == c.batteries
    ensures m.security == SecuritySection(c.avList, c.fwList, c.uacEnabled,
                                          c.secureBootEnabled, c.uacLevel, c.tpm)
    ensures m.network == NetworkSection(c.netAdapters, c.netAdapters2, c.ipRoutes,
                                        c.networkConnections, c.hostsFile, c.hostsFileHash)
  {
  }

  /** `Environment.NewLine` on Windows. */
  const NewLine: string := "\r\n"

  /** `Serialize`: the indented JSON text (an opaque rendering `json`)
      followed by exactly one line break. */
  function Serialize(json: Report -> string, m: Report): (s: string)
    ensures |s| == |json(m)| + 2
    ensures s[..|json(m)|] == json(m) && s[|json(m)|..] == NewLine
  {
    json(m) + NewLine
  }

  // ---------------------------------------------------------------------
  // Literal substring replacement
  // ---------------------------------------------------------------------

  /** Ordinal `String.Replace(pat, rep)`: scans left to right and replaces
      every non-overlapping occurrence of `pat`. .NET throws on an empty
      pattern; callers that can meet one check for it first (see
      `OneDriveRedact`), so here it leaves the text as it is. */
  function Replace(s: string, pat: string, rep: string): string
    decreases |s|
  {
    if pat == [] || |s| < |pat| then s
    else if s[..|pat|] == pat then rep + Replace(s[|pat|..], pat, rep)
    else [s[0]] + Replace(s[1..], pat, rep)
  }

  /** Text without an occurrence of the pattern is left as it is. */
  lemma {:induction false} ReplaceNoMatch(s: string, pat: string, rep: string)
    requires pat != [] && !Contains(s, pat)
    ensures Replace(s, pat, rep) == s
    decreases |s|
  {
    if |s| >= |pat| {
      assert !MatchAt(s, pat, 0);
      forall i: nat | i <= |s[1..]|
        ensures !MatchAt(s[1..], pat, i)
      {
        assert !MatchAt(s, pat, i + 1);
        if i + |pat| <= |s[1..]| {
          assert s[1..][i..i + |pat|] == s[i + 1..i + 1 + |pat|];
        }
      }
      ReplaceNoMatch(s[1..], pat, rep);
      assert [s[0]] + s[1..] == s;
    }
  }

  /** Text before the first occurrence is copied unchanged. */
  lemma {:induction false} ReplaceKeepsUnmatched(x: string, y: string, pat: string, rep: string)
    requires pat != []
    requires forall i :: 0 <= i < |x| ==> !MatchAt(x + y, pat, i)
    ensures Replace(x + y, pat, rep) == x + Replace(y, pat, rep)
    decreases |x|
  {
    var s := x + y;
    if |x| == 0 {
      assert s == y;
    } else if |s| < |pat| {
      assert Replace(y, pat, rep) == y;
    } else {
      assert !MatchAt(s, pat, 0);
      assert s[1..] == x[1..] + y;
      forall i | 0 <= i < |x[1..]|
        ensures !MatchAt(x[1..] + y, pat, i)
      {
        assert !MatchAt(s, pat, i + 1);
        if i + |pat| <= |s[1..]| {
          assert s[1..][i..i + |pat|] == s[i + 1..i + 1 + |pat|];
        }
      }
      ReplaceKeepsUnmatched(x[1..], y, pat, rep);
      assert [s[0]] + (x[1..] + Replace(y, pat, rep)) == x + Replace(y, pat, rep);
    }
  }

  /** Only the first occurrence itself changes: the text before it is kept,
      the occurrence becomes `rep`, and the scan resumes after it. */
  lemma ReplaceFirstMatch(x: string, y: string, pat: string, rep: string)
    requires pat != []
    requires forall i :: 0 <= i < |x| ==> !MatchAt(x + pat + y, pat, i)
    ensures Replace(x + pat + y, pat, rep) == x + rep + Replace(y, pat, rep)
  {
    assert x + pat + y == x + (pat + y);
    ReplaceKeepsUnmatched(x, pat + y, pat, rep);
    assert (pat + y)[..|pat|] == pat && (pat + y)[|pat|..] == y;
  }

  /** Every backslash doubled: how a Windows path appears inside JSON text. */
  function Doubled(p: string): (q: string)
  {
    if p == [] then [] else (if p[0] == '\\' then "\\\\" else [p[0]]) + Doubled(p[1..])
  }

  /** Collapses each doubled backslash back to one. */
  function Undoubled(q: string): string
  {
    if q == [] then []
    else if |q| >= 2 && q[0] == '\\' && q[1] == '\\' then "\\" + Undoubled(q[2..])
    else [q[0]] + Undoubled(q[1..])
  }

  /** `Replace(@"\", @"\\")` doubles every backslash, lengthens the path by
      its number of backslashes, and can be undone. */
  lemma {:induction false} BackslashDoubling(p: string)
    ensures Replace(p, "\\", "\\\\") == Doubled(p)
    ensures |Doubled(p)| == |p| + CountChar(p, '\\')
    ensures Undoubled(Doubled(p)) == p
  {
    if p != [] {
      BackslashDoubling(p[1..]);
      if p[0] == '\\' {
        assert p[..1] == "\\";
        var d := Doubled(p);
        assert d == "\\\\" + Doubled(p[1..]);
        assert d[2..] == Doubled(p[1..]);
      } else {
        assert p[..1] != "\\";
        var d := Doubled(p);
        assert d[1..] == Doubled(p[1..]);
      }
    }
  }

  // ---------------------------------------------------------------------
  // Redaction
  // ---------------------------------------------------------------------

  const Redacted: string := "[REDACTED]"
  const OneDriveKey: string := "OneDriveCommercial"
  const OneDriveIssue: string :=
    "Commercial OneDrive redaction failed. This usually happens when Commerical OneDrive is not installed."

  /** Reading the variable yields null when it is absent (the path's
      `Replace` then throws), and an empty path makes the second `Replace`
      throw because its pattern is empty. */
  predicate OneDriveRedactionFails(vars: map<string, string>)
  {
    OneDriveKey !in vars || vars[OneDriveKey] == ""
  }

  /** Commercial OneDrive redaction: every occurrence of the JSON-escaped
      path becomes `[REDACTED]`; fails exactly when the variable is absent
      or empty. */
  function OneDriveRedact(serialized: string, vars: map<string, string>): (r: Result<string, Exception>)
    ensures r.Err? <==> OneDriveRedactionFails(vars)
    ensures r.Err? ==> r.error == (if OneDriveKey !in vars then NullReference else ArgumentException)
    ensures r.Ok? ==> r.value == Replace(serialized, Doubled(vars[OneDriveKey]), Redacted)
  {
    if OneDriveKey !in vars then Err(NullReference)
    else
      var path := vars[OneDriveKey];
      var escaped := Replace(path, "\\", "\\\\");
      BackslashDoubling(path);
      if escaped == [] then Err(ArgumentException)
      else Ok(Replace(serialized, escaped, Redacted))
  }

  datatype Rule = Rule(pattern: string, replacement: string)

  /** The text kept in front of the user name by each of the five rules. */
  function RulePrefix(k: nat, hostname: string, domain: string): string
  {
    if k == 0 then "C:\\\\Users\\\\"
    else if k == 1 then hostname + "\\\\"
    else if k == 2 then "\"Username\": \""
    else if k == 3 then domain + "\\\\"
    else "for "
  }

  /** The text kept after the user name (only the JSON field rule has one). */
  function RuleSuffix(k: nat): string
  {
    if k == 2 then "\"" else ""
  }

  /** The five username rules, in the order they are applied. */
  function UsernameRules(username: string, hostname: string, domain: string): seq<Rule>
  {
    [ Rule("C:\\\\Users\\\\" + username, "C:\\\\Users\\\\" + Redacted),
      Rule(hostname + "\\\\" + username, hostname + "\\\\" + Redacted),
      Rule("\"Username\": \"" + username + "\"", "\"Username\": \"" + Redacted + "\""),
      Rule(domain + "\\\\" + username, domain + "\\\\" + Redacted),
      Rule("for " + username, "for " + Redacted) ]
  }

  /** Rule k replaces its prefix, the user name and its suffix by the same
      prefix, `[REDACTED]` and the same suffix. */
  lemma UsernameRulesShape(username: string, hostname: string, domain: string)
    ensures var rules := UsernameRules(username, hostname, domain);
      |rules| == 5 &&
      forall k :: 0 <= k < 5 ==>
        rules[k].pattern == RulePrefix(k, hostname, domain) + username + RuleSuffix(k) &&
        rules[k].replacement == RulePrefix(k, hostname, domain) + Redacted + RuleSuffix(k)
  {
  }

  /** Applies each rule to the whole text in turn. */
  function ApplyRules(s: string, rules: seq<Rule>): string
    decreases |rules|
  {
    if rules == [] then s else ApplyRules(Replace(s, rules[0].pattern, rules[0].replacement), rules[1..])
  }

  /** Username redaction; a missing domain renders as empty text. */
  function RedactUsername(s: string, username: string, hostname: string, domain: Option<string>): string
  {
    var d := match domain case Some(v) => v case None => "";
    ApplyRules(s, UsernameRules(username, hostname, d))
  }

  /** Text in which no rule's pattern occurs passes through unchanged. */
  lemma {:induction false} ApplyRulesNoMatch(s: string, rules: seq<Rule>)
    requires forall k :: 0 <= k < |rules| ==> !Contains(s, rules[k].pattern)
    ensures ApplyRules(s, rules) == s
    decreases |rules|
  {
    if rules != [] {
      assert MatchAt(s, [], 0);
      ReplaceNoMatch(s, rules[0].pattern, rules[0].replacement);
      ApplyRulesNoMatch(s, rules[1..]);
    }
  }

  /** A report that never mentions the user name in any of the five forms
      is left byte-identical by username redaction. */
  lemma UsernameRedactionNoMatch(s: string, username: string, hostname: string, domain: Option<string>)
    requires var d := match domain case Some(v) => v case None => "";
      forall k :: 0 <= k < 5 ==> !Contains(s, RulePrefix(k, hostname, d) + username + RuleSuffix(k))
    ensures RedactUsername(s, username, hostname, domain) == s
  {
    var d := match domain case Some(v) => v case None => "";
    UsernameRulesShape(username, hostname, d);
    ApplyRulesNoMatch(s, UsernameRules(username, hostname, d));
  }

  /** The redaction pipeline on values: the report serialized, then the
      OneDrive rule when it is on and can be applied, then the username
      rules when they are on. */
  function Render(json: Report -> string, m: Report, vars: map<string, string>, username: string,
                  oneDrive: bool, user: bool): string
  {
    var doc := Serialize(json, m);
    var afterOneDrive :=
      if oneDrive then
        match OneDriveRedact(doc, vars)
        case Ok(t) => t
        case Err(_) => doc
      else doc;
    if user then RedactUsername(afterOneDrive, username, m.basicInfo.hostname, m.basicInfo.domain)
    else afterOneDrive
  }

  // ---------------------------------------------------------------------
  // Delivery
  // ---------------------------------------------------------------------

  const UploadDomain: string := "https://spec-ify.com"
  const UploadEndpoint: string := "upload.php"
  const LocalReportFile: string := "specify_specs.json"

  /** The address the report is posted to. */
  function UploadUrl(): (u: string)
    ensures u == "https://spec-ify.com/upload.php"
  {
    UploadDomain + "/" + UploadEndpoint
  }

  /** The outcome of the one POST: a status code and the `Location` header
      (None when absent), or a transport-level exception. */
  datatype HttpResponse = Response(status: int, location: Option<string>) | TransportFailure

  predicate IsSuccessStatusCode(status: int) { 200 <= status <= 299 }

  /** `DoRequest`: the shareable URL on a 2xx response; null (None) on any
      other status and on any exception, including a missing `Location`. */
  function DoRequest(resp: HttpResponse): (url: Option<string>)
    ensures url.Some? <==> resp.Response? && IsSuccessStatusCode(resp.status) && resp.location.Some?
    ensures url.Some? ==> StartsWith(url.value, UploadDomain) &&
                          url.value[|UploadDomain|..] == resp.location.value
  {
    match resp
    case TransportFailure => None
    case Response(status, location) =>
      if !IsSuccessStatusCode(status) then None
      else match location
        case None => None
        case Some(loc) => Some(UploadDomain + loc)
  }

  /** The four terminal signals the desktop shell reacts to. */
  datatype GuiSignal = Finalize | FinalizeNoUpload | UploadFailed | ProgramFail

  /** `ProgramDone`: codes 0 to 3 dispatch one signal; any other code nothing. */
  function ProgramDone(code: int): (g: Option<GuiSignal>)
    ensures g.Some? <==> 0 <= code <= 3
  {
    if code == 0 then Some(Finalize)
    else if code == 1 then Some(FinalizeNoUpload)
    else if code == 2 then Some(UploadFailed)
    else if code == 3 then Some(ProgramFail)
    else None
  }

  /** The code each signal is requested with. */
  function SignalCode(g: GuiSignal): (code: int)
    ensures 0 <= code <= 3
  {
    match g
    case Finalize => 0
    case FinalizeNoUpload => 1
    case UploadFailed => 2
    case ProgramFail => 3
  }

  /** `ProgramDone` is a bijection between the codes 0..3 and the signals. */
  lemma ProgramDoneBijective(code: int, g: GuiSignal)
    ensures ProgramDone(SignalCode(g)) == Some(g)
    ensures ProgramDone(code) == Some(g) <==> code == SignalCode(g)
  {
  }

  /** The signals one `ProgramDone(code)` call dispatches. */
  function Dispatch(code: int): (gs: seq<GuiSignal>)
    ensures |gs| <= 1
    ensures gs == [] <==> ProgramDone(code).None?
  {
    match ProgramDone(code)
    case Some(g) => [g]
    case None => []
  }

  function SignalsOf(gs: seq<GuiSignal>): seq<Effect>
  {
    if gs == [] then [] else [Signal(gs[0])] + SignalsOf(gs[1..])
  }

  // ---------------------------------------------------------------------
  // The finishing run
  // ---------------------------------------------------------------------

  /** One action of the finishing run on the outside world: a shell signal,
      a file written, a body posted, a URL handed to the clipboard/browser
      thread (None when it is handed a null URL), or the end of the process
      by an exception that nothing catches. */
  datatype Effect =
    | Signal(signal: GuiSignal)
    | SaveFile(name: string, contents: string)
    | Post(body: string)
    | OpenUrl(url: Option<string>)
    | Crash(error: Exception)

  /** Saving locally: the file is written, then FinalizeNoUpload is signalled. */
  function SavedLocally(text: string): seq<Effect>
  {
    [SaveFile(LocalReportFile, text), Signal(FinalizeNoUpload)]
  }

  /** What the clipboard/browser thread does with the URL it is handed: a
      real URL is opened and the run ends with Finalize; `Clipboard.SetText`
      throws ArgumentNullException on a null one, on a thread that catches
      nothing, and that ends the process before Finalize is requested. */
  function SuccessTail(url: Option<string>): seq<Effect>
  {
    if url.None? then [OpenUrl(url), Crash(ArgumentNull)] else [OpenUrl(url), Signal(Finalize)]
  }

  /** The actions of one delivery of `text`, as written: a failed upload
      signals UploadFailed, the restart saves the text locally, and control
      then falls through to the success tail with a null URL. */
  function DeliveryTrace(text: string, dontUpload: bool, url: Option<string>): seq<Effect>
  {
    if dontUpload then SavedLocally(text)
    else
      [Post(text)]
      + (if url.None? then [Signal(UploadFailed)] + SavedLocally(text) else [])
      + SuccessTail(url)
  }

  /** The actions of one delivery with a `return` after the restart. */
  function DeliveryTraceCorrected(text: string, dontUpload: bool, url: Option<string>): seq<Effect>
  {
    if dontUpload then SavedLocally(text)
    else if url.None? then [Post(text), Signal(UploadFailed)] + SavedLocally(text)
    else [Post(text), OpenUrl(url), Signal(Finalize)]
  }

  predicate IsFinalizing(e: Effect)
  {
    e == Signal(Finalize) || e == Signal(FinalizeNoUpload)
  }

  /** How many times the shell is told that the run has finished. */
  function Finalizations(tr: seq<Effect>): (n: nat)
    ensures n <= |tr|
  {
    if tr == [] then 0 else Finalizations(tr[..|tr| - 1]) + (if IsFinalizing(tr[|tr| - 1]) then 1 else 0)
  }

  lemma {:induction false} FinalizationsAppend(a: seq<Effect>, b: seq<Effect>)
    ensures Finalizations(a + b) == Finalizations(a) + Finalizations(b)
    decreases |b|
  {
    if b == [] {
      assert a + b == a;
    } else {
      var b' := b[..|b| - 1];
      assert (a + b)[..|a + b| - 1] == a + b';
      FinalizationsAppend(a, b');
    }
  }

  lemma FinalizationsSingle(e: Effect)
    ensures Finalizations([e]) == (if IsFinalizing(e) then 1 else 0)
  {
    assert [e][..0] == [];
  }

  lemma FinalizationsCons(e: Effect, t: seq<Effect>)
    ensures Finalizations([e] + t) == (if IsFinalizing(e) then 1 else 0) + Finalizations(t)
  {
    FinalizationsAppend([e], t);
    FinalizationsSingle(e);
  }

  /** The three shapes of an as-written delivery, written out. */
  lemma DeliveryTraceCases(text: string, dontUpload: bool, url: Option<string>)
    ensures dontUpload ==>
      DeliveryTrace(text, dontUpload, url) == [SaveFile(LocalReportFile, text), Signal(FinalizeNoUpload)]
    ensures !dontUpload && url.None? ==>
      DeliveryTrace(text, dontUpload, url) ==
        [Post(text), Signal(UploadFailed), SaveFile(LocalReportFile, text), Signal(FinalizeNoUpload),
         OpenUrl(None), Crash(ArgumentNull)]
    ensures !dontUpload && url.Some? ==>
      DeliveryTrace(text, dontUpload, url) == [Post(text), OpenUrl(url), Signal(Finalize)]
  {
  }

  /** A failed upload, as written: one finalization, then a crash. */
  lemma FailedUploadFinalizations(text: string)
    ensures Finalizations([Post(text), Signal(UploadFailed), SaveFile(LocalReportFile, text),
                           Signal(FinalizeNoUpload), OpenUrl(None), Crash(ArgumentNull)]) == 1
  {
    var t2 := [OpenUrl(None), Crash(ArgumentNull)];
    var t3 := [Signal(FinalizeNoUpload)] + t2;
    var t4 := [SaveFile(LocalReportFile, text)] + t3;
    var t5 := [Signal(UploadFailed)] + t4;
    assert [Post(text), Signal(UploadFailed), SaveFile(LocalReportFile, text),
            Signal(FinalizeNoUpload), OpenUrl(None), Crash(ArgumentNull)] == [Post(text)] + t5;
    FinalizationsCons(Post(text), t5);
    FinalizationsCons(Signal(UploadFailed), t4);
    FinalizationsCons(SaveFile(LocalReportFile, text), t3);
    FinalizationsCons(Signal(FinalizeNoUpload), t2);
    FinalizationsCons(OpenUrl(None), [Crash(ArgumentNull)]);
    FinalizationsSingle(Crash(ArgumentNull));
  }

  /** As written, every delivery finalizes exactly once, but a failed
      upload goes on after its local save to hand a null URL to the
      clipboard/browser thread, and the run ends in an uncaught
      ArgumentNullException instead of returning; no other delivery crashes. */
  lemma DeliveryTraceFinalizations(text: string, dontUpload: bool, url: Option<string>)
    ensures var tr := DeliveryTrace(text, dontUpload, url);
      Finalizations(tr) == 1 &&
      (OpenUrl(None) in tr <==> !dontUpload && url.None?) &&
      (Crash(ArgumentNull) in tr <==> !dontUpload && url.None?) &&
      (!dontUpload && url.None? ==>
         tr[|tr| - 1] == Crash(ArgumentNull) && SaveFile(LocalReportFile, text) in tr &&
         Signal(Finalize) !in tr)
  {
    DeliveryTraceCases(text, dontUpload, url);
    if dontUpload {
      FinalizationsCons(SaveFile(LocalReportFile, text), [Signal(FinalizeNoUpload)]);
      FinalizationsSingle(Signal(FinalizeNoUpload));
    } else if url.None? {
      FailedUploadFinalizations(text);
    } else {
      assert [Post(text), OpenUrl(url), Signal(Finalize)] == [Post(text)] + [OpenUrl(url), Signal(Finalize)];
      assert [OpenUrl(url), Signal(Finalize)] == [OpenUrl(url)] + [Signal(Finalize)];
      FinalizationsCons(Post(text), [OpenUrl(url), Signal(Finalize)]);
      FinalizationsCons(OpenUrl(url), [Signal(Finalize)]);
      FinalizationsSingle(Signal(Finalize));
    }
  }

  /** With the `return` restored, every delivery finalizes exactly once, no
      null URL leaves the run, and the text is either saved locally or
      posted and its URL opened. */
  lemma DeliveryTraceCorrectedFinalizes(text: string, dontUpload: bool, url: Option<string>)
    ensures Finalizations(DeliveryTraceCorrected(text, dontUpload, url)) == 1
    ensures OpenUrl(None) !in DeliveryTraceCorrected(text, dontUpload, url)
    ensures var tr := DeliveryTraceCorrected(text, dontUpload, url);
      SaveFile(LocalReportFile, text) in tr || (Post(text) in tr && OpenUrl(url) in tr && url.Some?)
  {
    var tr := DeliveryTraceCorrected(text, dontUpload, url);
    if dontUpload {
      FinalizationsAppend([SaveFile(LocalReportFile, text)], [Signal(FinalizeNoUpload)]);
    } else if url.None? {
      FinalizationsAppend([Post(text), Signal(UploadFailed)], SavedLocally(text));
      FinalizationsAppend([Post(text)], [Signal(UploadFailed)]);
      FinalizationsAppend([SaveFile(LocalReportFile, text)], [Signal(FinalizeNoUpload)]);
      assert tr[2] == SaveFile(LocalReportFile, text);
    } else {
      FinalizationsAppend([Post(text), OpenUrl(url)], [Signal(Finalize)]);
      FinalizationsAppend([Post(text)], [OpenUrl(url)]);
      FinalizationsSingle(Post(text));
      FinalizationsSingle(OpenUrl(url));
      FinalizationsSingle(Signal(Finalize));
      assert tr == [Post(text), OpenUrl(url)] + [Signal(Finalize)];
      assert [Post(text), OpenUrl(url)] == [Post(text)] + [OpenUrl(url)];
    }
  }

  /** One process's settings, the store it reads, and the trace of what the
      finishing run does to the outside world. */
  class Session {
    const cache: Cache
    const env: Env

    var redactOneDriveCommercial: bool
    var redactUsername: bool
    var dontUpload: bool

    var effects: seq<Effect>

    constructor (cache: Cache, env: Env, redactOneDrive: bool, redactUser: bool, dontUpload: bool)
      ensures this.cache == cache && this.env == env
      ensures redactOneDriveCommercial == redactOneDrive && redactUsername == redactUser
      ensures this.dontUpload == dontUpload
      ensures effects == []
    {
      this.cache, this.env := cache, env;
      redactOneDriveCommercial, redactUsername, this.dontUpload := redactOneDrive, redactUser, dontUpload;
      effects := [];
    }

    /** The OneDrive rule is on and cannot be applied. */
    predicate OneDriveFails()
      reads this`redactOneDriveCommercial, cache`userVariables
    {
      redactOneDriveCommercial && OneDriveRedactionFails(cache.userVariables)
    }

    /** The text that leaves the run under the current settings and store:
        the serialized report with every enabled rule that can be applied. */
    function ReportText(json: Report -> string): string
      reads this`redactOneDriveCommercial, this`redactUsername, cache
    {
      Render(json, NewMonolith(cache, env), cache.userVariables, cache.username,
             redactOneDriveCommercial, redactUsername)
    }

    /** The text a whole run delivers, judged from the state it starts in: a
        failing OneDrive rule first appends its issue to the store (and so to
        the rebuilt report) and is turned off; otherwise the current text. */
    function RunText(json: Report -> string): string
      reads this`redactOneDriveCommercial, this`redactUsername, cache
    {
      if OneDriveFails() then
        Render(json, NewMonolith(cache, env).(issues := cache.issues + [OneDriveIssue]),
               cache.userVariables, cache.username, false, redactUsername)
      else ReportText(json)
    }

    /** Neither text depends on the run's effects or its upload setting. */
    twostate lemma TextsFramed(json: Report -> string)
      requires unchanged(this`redactOneDriveCommercial, this`redactUsername, cache)
      ensures RunText(json) == old(RunText(json)) && ReportText(json) == old(ReportText(json))
    {
    }

    /** The first half of a run: a fresh report from the store, serialized,
        then the enabled redactions. Fails exactly when the OneDrive rule is
        on and cannot be applied; otherwise yields the text the run delivers. */
    method SerializeAndRedact(json: Report -> string) returns (r: Result<string, Exception>)
      ensures r.Err? <==> OneDriveFails()
      ensures r.Ok? ==> r.value == ReportText(json)
    {
      var m := NewMonolith(cache, env);
      var serialized := Serialize(json, m);
      if redactOneDriveCommercial {
        match OneDriveRedact(serialized, cache.userVariables)
        case Err(e) =>
          return Err(e);
        case Ok(t) =>
          serialized := t;
      }
      if redactUsername {
        serialized := RedactUsername(serialized, cache.username, m.basicInfo.hostname, m.basicInfo.domain);
      }
      r := Ok(serialized);
    }

    /** `Specificialize`, as written. A failed OneDrive redaction records one
        issue (through the report's Issues list, which is the store's), turns
        its rule off and restarts; otherwise the redacted text is delivered.
        At most two restarts happen, since each turns one setting off for
        good. `text` is the report text the run delivers. */
    method Specificialize(json: Report -> string, response: HttpResponse) returns (restarts: nat, ghost text: string)
      modifies this, cache`issues
      decreases (if redactOneDriveCommercial then 1 else 0) + (if dontUpload then 0 else 1), 1
      ensures text == old(RunText(json))
      ensures effects == old(effects) + DeliveryTrace(text, old(dontUpload), DoRequest(response))
      ensures restarts == (if old(OneDriveFails()) then 1 else 0)
                        + (if !old(dontUpload) && DoRequest(response).None? then 1 else 0)
      ensures restarts <= 2
      ensures cache.issues == old(cache.issues) + (if old(OneDriveFails()) then [OneDriveIssue] else [])
      ensures redactOneDriveCommercial == (old(redactOneDriveCommercial) && !old(OneDriveFails()))
      ensures redactUsername == old(redactUsername)
      ensures dontUpload == (old(dontUpload) || DoRequest(response).None?)
    {
      var redacted := SerializeAndRedact(json);
      if redacted.Err? {
        ghost var before := NewMonolith(cache, env);
        cache.AddIssue(OneDriveIssue);
        assert NewMonolith(cache, env) == before.(issues := cache.issues);
        redactOneDriveCommercial := false;
        restarts, text := Specificialize(json, response);
        restarts := restarts + 1;
        return;
      }
      text := redacted.value;
      restarts := Deliver(json, response, redacted.value);
    }

    /** The delivery half of `Specificialize`, as written. With uploading off,
        the text is saved to `specify_specs.json` and FinalizeNoUpload is
        signalled. Otherwise the text is posted; a null URL signals
        UploadFailed, turns uploading off and restarts, and then control
        falls through to the success tail, which hands the null URL to the
        clipboard/browser thread; `Clipboard.SetText` throws there and the
        process ends before Finalize is requested. */
    method Deliver(json: Report -> string, response: HttpResponse, serialized: string) returns (restarts: nat)
      requires !OneDriveFails() && serialized == ReportText(json)
      modifies this, cache`issues
      decreases (if redactOneDriveCommercial then 1 else 0) + (if dontUpload then 0 else 1), 0
      ensures effects == old(effects) + DeliveryTrace(serialized, old(dontUpload), DoRequest(response))
      ensures restarts == (if !old(dontUpload) && DoRequest(response).None? then 1 else 0)
      ensures cache.issues == old(cache.issues)
      ensures redactOneDriveCommercial == old(redactOneDriveCommercial) && redactUsername == old(redactUsername)
      ensures dontUpload == (old(dontUpload) || DoRequest(response).None?)
    {
      DeliveryTraceCases(serialized, dontUpload, DoRequest(response));
      if dontUpload {
        effects := effects + [SaveFile(LocalReportFile, serialized)] + SignalsOf(Dispatch(1));
        restarts := 0;
        return;
      }

      ghost var before := effects;
      effects := effects + [Post(serialized)];
      var url := DoRequest(response);
      restarts := 0;
      if url.None? {
        assert SignalsOf(Dispatch(2)) == [Signal(UploadFailed)];
        effects := effects + SignalsOf(Dispatch(2));
        dontUpload := true;
        TextsFramed(json);
        ghost var text;
        restarts, text := Specificialize(json, response);
        restarts := restarts + 1;
        assert effects == before + [Post(serialized), Signal(UploadFailed)] + SavedLocally(serialized);
      }
      effects := effects + [OpenUrl(url)];
      if url.None? {
        effects := effects + [Crash(ArgumentNull)];
        return;
      }
      effects := effects + SignalsOf(Dispatch(0));
    }

    /** `Specificialize` with the evidently intended `return` after the
        upload-failure restart. */
    method SpecificializeCorrected(json: Report -> string, response: HttpResponse) returns (restarts: nat, ghost text: string)
      modifies this, cache`issues
      decreases (if redactOneDriveCommercial then 1 else 0) + (if dontUpload then 0 else 1), 1
      ensures text == old(RunText(json))
      ensures effects == old(effects) + DeliveryTraceCorrected(text, old(dontUpload), DoRequest(response))
      ensures restarts == (if old(OneDriveFails()) then 1 else 0)
                        + (if !old(dontUpload) && DoRequest(response).None? then 1 else 0)
      ensures restarts <= 2
      ensures cache.issues == old(cache.issues) + (if old(OneDriveFails()) then [OneDriveIssue] else [])
      ensures redactOneDriveCommercial == (old(redactOneDriveCommercial) && !old(OneDriveFails()))
      ensures redactUsername == old(redactUsername)
      ensures dontUpload == (old(dontUpload) || DoRequest(response).None?)
    {
      var redacted := SerializeAndRedact(json);
      if redacted.Err? {
        ghost var before := NewMonolith(cache, env);
        cache.AddIssue(OneDriveIssue);
        assert NewMonolith(cache, env) == before.(issues := cache.issues);
        redactOneDriveCommercial := false;
        restarts, text := SpecificializeCorrected(json, response);
        restarts := restarts + 1;
        return;
      }
      text := redacted.value;
      restarts := DeliverCorrected(json, response, redacted.value);
    }

    /** The delivery half of the corrected run. */
    method DeliverCorrected(json: Report -> string, response: HttpResponse, serialized: string) returns (restarts: nat)
      requires !OneDriveFails() && serialized == ReportText(json)
      modifies this, cache`issues
      decreases (if redactOneDriveCommercial then 1 else 0) + (if dontUpload then 0 else 1), 0
      ensures effects == old(effects) + DeliveryTraceCorrected(serialized, old(dontUpload), DoRequest(response))
      ensures restarts == (if !old(dontUpload) && DoRequest(response).None? then 1 else 0)
      ensures cache.issues == old(cache.issues)
      ensures redactOneDriveCommercial == old(redactOneDriveCommercial) && redactUsername == old(redactUsername)
      ensures dontUpload == (old(dontUpload) || DoRequest(response).None?)
    {
      if dontUpload {
        effects := effects + [SaveFile(LocalReportFile, serialized)] + SignalsOf(Dispatch(1));
        restarts := 0;
        return;
      }

      effects := effects + [Post(serialized)];
      var url := DoRequest(response);
      restarts := 0;
      if url.None? {
        effects := effects + SignalsOf(Dispatch(2));
        dontUpload := true;
        TextsFramed(json);
        ghost var text;
        restarts, text := SpecificializeCorrected(json, response);
        restarts := restarts + 1;
        return;
      }
      effects := effects + [OpenUrl(url)] + SignalsOf(Dispatch(0));
    }
  }

  // ---------------------------------------------------------------------
  // Scenarios
  // ---------------------------------------------------------------------

  function EmptyJson(m: Report): string { "{}" }

  const TestEnv: Env := Env("1.0", 0, 0, None, None, 0, 0, "HOST", None, None, "")

  /** Upload refused by the server: the shell receives UploadFailed, then
      the restart saves the report and requests FinalizeNoUpload, then the
      fall-through hands a null URL to the clipboard/browser thread and the
      process ends in an uncaught ArgumentNullException. */
  method UploadFailureScenario() returns (trace: seq<Effect>)
    ensures |trace| == 6
    ensures trace[1] == Signal(UploadFailed) && trace[2].SaveFile? && trace[3] == Signal(FinalizeNoUpload)
    ensures trace[4] == OpenUrl(None) && trace[5] == Crash(ArgumentNull)
    ensures Finalizations(trace) == 1
  {
    var c := new Cache("bob");
    var s := new Session(c, TestEnv, false, false, false);
    var k, t := s.Specificialize(EmptyJson, Response(500, None));
    trace := s.effects;
    assert trace == DeliveryTrace(t, false, None);
    DeliveryTraceFinalizations(t, false, None);
  }

  /** The same refusal with the corrected run: UploadFailed, then the local
      save and FinalizeNoUpload, and nothing else. */
  method UploadFailureScenarioCorrected() returns (trace: seq<Effect>)
    ensures |trace| == 4
    ensures trace[1] == Signal(UploadFailed) && trace[2].SaveFile? && trace[3] == Signal(FinalizeNoUpload)
    ensures Finalizations(trace) == 1
  {
    var c := new Cache("bob");
    var s := new Session(c, TestEnv, false, false, false);
    var k, t := s.SpecificializeCorrected(EmptyJson, Response(500, None));
    trace := s.effects;
    assert trace == DeliveryTraceCorrected(t, false, None);
    DeliveryTraceCorrectedFinalizes(t, false, None);
  }

  /** OneDrive redaction requested on a machine without the variable: one
      restart, exactly one issue, and the report is saved with the rule off. */
  method OneDriveMissingScenario() returns (issues: seq<string>, restarts: nat, ruleOn: bool)
    ensures issues == [OneDriveIssue] && restarts == 1 && !ruleOn
  {
    var c := new Cache("bob");
    var s := new Session(c, TestEnv, true, false, true);
    ghost var t;
    restarts, t := s.Specificialize(EmptyJson, TransportFailure);
    issues := c.issues;
    ruleOn := s.redactOneDriveCommercial;
  }
}
