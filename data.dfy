/** Data collection of the legacy `DataCache`: the scan of Task Scheduler for
    startup tasks, the running-process list and the UAC flag. */
module Data {
  import opened Common
  import opened Store
  import opened Utils

  // ---------------------------------------------------------------------
  // Task Scheduler startup tasks
  // ---------------------------------------------------------------------

  datatype TaskState = Unknown | Disabled | Queued | Ready | Running

  datatype TriggerType =
    | Event | Time | Daily | Weekly | Monthly | MonthlyDOW | Idle
    | Registration | Boot | Logon | SessionStateChange | Custom

  /** A registered task: its author (None when the registration has none),
      its state and the types of its triggers. */
  datatype ScheduledTask = ScheduledTask(name: string, author: Option<string>, state: TaskState, triggers: seq<TriggerType>)

  /** A Task Scheduler folder: its own tasks and its subfolders, in the order
      the service enumerates them. */
  datatype TaskFolder = TaskFolder(name: string, tasks: seq<ScheduledTask>, subFolders: seq<TaskFolder>)

  /** Every task of a folder tree: the folder's own tasks, then each
      subfolder's tasks in subfolder order. */
  function AllTasks(fld: TaskFolder): seq<ScheduledTask>
    decreases fld, 1
  {
    fld.tasks + AllTasksIn(fld.subFolders, |fld.subFolders|)
  }

  /** The tasks of the first `n` folders of `fs`, trees included. */
  function AllTasksIn(fs: seq<TaskFolder>, n: nat): seq<ScheduledTask>
    requires n <= |fs|
    decreases fs, n
  {
    if n == 0 then [] else AllTasksIn(fs, n - 1) + AllTasks(fs[n - 1])
  }

  /** A non-empty author beginning with "Microsof" marks the task as the
      system's own. The prefix is compared character by character; the
      source's `StartsWith(string)` compares under the current culture. */
  predicate MicrosoftAuthored(t: ScheduledTask)
  {
    t.author.Some? && t.author.value != [] && StartsWith(t.author.value, "Microsof")
  }

  predicate IsStartupTrigger(tt: TriggerType)
  {
    tt == Logon || tt == Boot
  }

  predicate HasStartupTrigger(triggers: seq<TriggerType>)
  {
    exists i :: 0 <= i < |triggers| && IsStartupTrigger(triggers[i])
  }

  /** The filter as written: the state test `state != Ready || state != Running`
      skips every task. */
  predicate KeptAsWritten(t: ScheduledTask)
  {
    !MicrosoftAuthored(t) && !(t.state != Ready || t.state != Running) && HasStartupTrigger(t.triggers)
  }

  /** The documented filter: not Microsoft's, Ready or Running, and started
      at logon or boot. */
  predicate Kept(t: ScheduledTask)
  {
    !MicrosoftAuthored(t) && (t.state == Ready || t.state == Running) && HasStartupTrigger(t.triggers)
  }

  /** The elements of `ts` that `keep` accepts, in order. */
  function Filter(ts: seq<ScheduledTask>, keep: ScheduledTask -> bool): (r: seq<ScheduledTask>)
    ensures |r| <= |ts|
  {
    if ts == [] then []
    else Filter(ts[..|ts| - 1], keep) + (if keep(ts[|ts| - 1]) then [ts[|ts| - 1]] else [])
  }

  lemma FilterSnoc(ts: seq<ScheduledTask>, t: ScheduledTask, keep: ScheduledTask -> bool)
    ensures Filter(ts + [t], keep) == Filter(ts, keep) + (if keep(t) then [t] else [])
  {
    assert (ts + [t])[..|ts|] == ts;
  }

  lemma {:induction false} FilterAppend(a: seq<ScheduledTask>, b: seq<ScheduledTask>, keep: ScheduledTask -> bool)
    ensures Filter(a + b, keep) == Filter(a, keep) + Filter(b, keep)
    decreases |b|
  {
    if b == [] {
      assert a + b == a;
    } else {
      var init := b[..|b| - 1];
      var last := b[|b| - 1];
      var tail := if keep(last) then [last] else [];
      assert a + b == (a + init) + [last];
      assert b == init + [last];
      calc {
        Filter(a + b, keep);
        { FilterSnoc(a + init, last, keep); }
        Filter(a + init, keep) + tail;
        { FilterAppend(a, init, keep); }
        Filter(a, keep) + Filter(init, keep) + tail;
        { FilterSnoc(init, last, keep); }
        Filter(a, keep) + Filter(b, keep);
      }
    }
  }

  /** A filtered list holds exactly the accepted elements of the original. */
  lemma {:induction false} FilterMembers(ts: seq<ScheduledTask>, keep: ScheduledTask -> bool, t: ScheduledTask)
    ensures t in Filter(ts, keep) <==> t in ts && keep(t)
  {
    if ts != [] {
      var init := ts[..|ts| - 1];
      FilterMembers(init, keep, t);
      assert ts == init + [ts[|ts| - 1]];
    }
  }

  /** The walk `EnumTsTasks` performs: a folder's own accepted tasks, then
      each subfolder's result in subfolder order. */
  function Walk(fld: TaskFolder, keep: ScheduledTask -> bool): seq<ScheduledTask>
    decreases fld, 1
  {
    Filter(fld.tasks, keep) + WalkIn(fld.subFolders, |fld.subFolders|, keep)
  }

  function WalkIn(fs: seq<TaskFolder>, n: nat, keep: ScheduledTask -> bool): seq<ScheduledTask>
    requires n <= |fs|
    decreases fs, n
  {
    if n == 0 then [] else WalkIn(fs, n - 1, keep) + Walk(fs[n - 1], keep)
  }

  /** The walk is the filter applied to the tree's tasks in tree order. */
  lemma {:induction false} WalkIsFilter(fld: TaskFolder, keep: ScheduledTask -> bool)
    ensures Walk(fld, keep) == Filter(AllTasks(fld), keep)
    decreases fld, 1
  {
    var rest := AllTasksIn(fld.subFolders, |fld.subFolders|);
    calc {
      Walk(fld, keep);
      Filter(fld.tasks, keep) + WalkIn(fld.subFolders, |fld.subFolders|, keep);
      { WalkInIsFilter(fld.subFolders, |fld.subFolders|, keep); }
      Filter(fld.tasks, keep) + Filter(rest, keep);
      { FilterAppend(fld.tasks, rest, keep); }
      Filter(AllTasks(fld), keep);
    }
  }

  lemma {:induction false} WalkInIsFilter(fs: seq<TaskFolder>, n: nat, keep: ScheduledTask -> bool)
    requires n <= |fs|
    ensures WalkIn(fs, n, keep) == Filter(AllTasksIn(fs, n), keep)
    decreases fs, n
  {
    if n > 0 {
      calc {
        WalkIn(fs, n, keep);
        WalkIn(fs, n - 1, keep) + Walk(fs[n - 1], keep);
        { WalkInIsFilter(fs, n - 1, keep); WalkIsFilter(fs[n - 1], keep); }
        Filter(AllTasksIn(fs, n - 1), keep) + Filter(AllTasks(fs[n - 1]), keep);
        { FilterAppend(AllTasksIn(fs, n - 1), AllTasks(fs[n - 1]), keep); }
        Filter(AllTasksIn(fs, n), keep);
      }
    }
  }

  /** `triggersFlag` after the trigger loop: still true exactly when no
      trigger is a logon or boot trigger. */
  method ScanTriggers(triggers: seq<TriggerType>) returns (triggersFlag: bool)
    ensures triggersFlag <==> !HasStartupTrigger(triggers)
  {
    triggersFlag := true;
    for i := 0 to |triggers|
      invariant triggersFlag <==> !(exists j :: 0 <= j < i && IsStartupTrigger(triggers[j]))
    {
      if triggers[i] == Logon || triggers[i] == Boot {
        triggersFlag := false;
      }
    }
  }

  /** The body of the task loop of `EnumTsTasks` as written: each `continue`
      rejects the task. */
  method TaskPasses(task: ScheduledTask) returns (keep: bool)
    ensures keep == KeptAsWritten(task)
  {
    if task.author.Some? && task.author.value != [] && StartsWith(task.author.value, "Microsof") {
      return false;
    }
    if task.state != Ready || task.state != Running {
      return false;
    }
    var triggersFlag := ScanTriggers(task.triggers);
    return !triggersFlag;
  }

  /** The body of the task loop with the state test written as intended. */
  method TaskPassesCorrected(task: ScheduledTask) returns (keep: bool)
    ensures keep == Kept(task)
  {
    if task.author.Some? && task.author.value != [] && StartsWith(task.author.value, "Microsof") {
      return false;
    }
    if task.state != Ready && task.state != Running {
      return false;
    }
    var triggersFlag := ScanTriggers(task.triggers);
    return !triggersFlag;
  }

  /** The task loop of `EnumTsTasks`: the folder's own tasks that pass the filter, in order. */
  method FolderTasks(tasks: seq<ScheduledTask>) returns (res: seq<ScheduledTask>)
    ensures res == Filter(tasks, KeptAsWritten)
  {
    res := [];
    for i := 0 to |tasks|
      invariant res == Filter(tasks[..i], KeptAsWritten)
    {
      var task := tasks[i];
      assert tasks[..i + 1] == tasks[..i] + [task];
      FilterSnoc(tasks[..i], task, KeptAsWritten);
      var keep := TaskPasses(task);
      if keep {
        res := res + [task];
      }
    }
    assert tasks[..|tasks|] == tasks;
  }

  /** `EnumTsTasks(fld)` as written: walks the folder's tasks, then appends the
      result of each subfolder. */
  method EnumTsTasks(fld: TaskFolder) returns (res: seq<ScheduledTask>)
    ensures res == Walk(fld, KeptAsWritten)
    decreases fld
  {
    res := FolderTasks(fld.tasks);
    for j := 0 to |fld.subFolders|
      invariant res == Filter(fld.tasks, KeptAsWritten) + WalkIn(fld.subFolders, j, KeptAsWritten)
    {
      var sub := EnumTsTasks(fld.subFolders[j]);
      res := res + sub;
    }
  }

  /** The state test as written holds for every state, so no task passes. */
  lemma {:induction false} NothingKeptAsWritten(ts: seq<ScheduledTask>)
    ensures Filter(ts, KeptAsWritten) == []
  {
    if ts != [] {
      NothingKeptAsWritten(ts[..|ts| - 1]);
    }
  }

  /** `EnumTsTasks` returns the empty list for every folder tree, even one
      full of enabled third-party startup tasks. */
  lemma EnumTsTasksAlwaysEmpty(fld: TaskFolder)
    ensures Walk(fld, KeptAsWritten) == []
  {
    WalkIsFilter(fld, KeptAsWritten);
    NothingKeptAsWritten(AllTasks(fld));
  }

  /** A root folder holding one Ready, third-party, logon-triggered task. */
  lemma StartupTaskDropped()
    ensures var t := ScheduledTask("updater", Some("Contoso"), Ready, [Logon]);
      Kept(t) && Walk(TaskFolder("\\", [t], []), KeptAsWritten) == []
  {
    var t := ScheduledTask("updater", Some("Contoso"), Ready, [Logon]);
    assert IsStartupTrigger(t.triggers[0]);
    EnumTsTasksAlwaysEmpty(TaskFolder("\\", [t], []));
  }

  /** The task loop of `EnumTsTasks` with the intended state test: the folder's own tasks that pass the filter, in order. */
  method FolderTasksCorrected(tasks: seq<ScheduledTask>) returns (res: seq<ScheduledTask>)
    ensures res == Filter(tasks, Kept)
  {
    res := [];
    for i := 0 to |tasks|
      invariant res == Filter(tasks[..i], Kept)
    {
      var task := tasks[i];
      assert tasks[..i + 1] == tasks[..i] + [task];
      FilterSnoc(tasks[..i], task, Kept);
      var keep := TaskPassesCorrected(task);
      if keep {
        res := res + [task];
      }
    }
    assert tasks[..|tasks|] == tasks;
  }

  /** `EnumTsTasks` with the state test written as intended
      (`state != Ready && state != Running`). */
  method EnumTsTasksCorrected(fld: TaskFolder) returns (res: seq<ScheduledTask>)
    ensures res == Walk(fld, Kept)
    decreases fld
  {
    res := FolderTasksCorrected(fld.tasks);
    for j := 0 to |fld.subFolders|
      invariant res == Filter(fld.tasks, Kept) + WalkIn(fld.subFolders, j, Kept)
    {
      var sub := EnumTsTasksCorrected(fld.subFolders[j]);
      res := res + sub;
    }
  }

  /** With the intended filter, a task is reported exactly when it is in the
      tree, not Microsoft's, Ready or Running, and has a logon or boot
      trigger; the folder's own tasks come before its subfolders' results. */
  lemma StartupTasksExactly(fld: TaskFolder, t: ScheduledTask)
    ensures Walk(fld, Kept) == Filter(AllTasks(fld), Kept)
    ensures t in Walk(fld, Kept) <==>
      t in AllTasks(fld) && !MicrosoftAuthored(t) && (t.state == Ready || t.state == Running)
      && HasStartupTrigger(t.triggers)
  {
    WalkIsFilter(fld, Kept);
    FilterMembers(AllTasks(fld), Kept, t);
  }

  // ---------------------------------------------------------------------
  // The legacy DataCache: running processes and the UAC flag
  // ---------------------------------------------------------------------

  /** What reading a process's main module gives: its file, no module, or a
      Win32Exception (access denied). */
  datatype MainModule = ModuleFile(fileName: string) | NoModule | ModuleAccessDenied

  /** A process as `Process.GetProcesses()` lists it. */
  datatype RawProcess = RawProcess(processName: string, id: int, workingSet64: int, mainModule: MainModule)

  const UnknownExePath: string := "<unknown>"

  /** The registry path of the UAC policy and the value read there. */
  const PolicyPath: string := "SOFTWARE\\Microsoft\\Windows\\CurrentVersion\\Policies\\System"
  const EnableLuaName: string := "EnableLUA"

  /** The report entry for one process: the path is null without a main
      module and "<unknown>" when reading it fails; the CPU figure is the
      placeholder -1. */
  function OutputOf(p: RawProcess): (o: OutputProcess)
  {
    var exePath := match p.mainModule
      case ModuleFile(f) => Some(f)
      case NoModule => None
      case ModuleAccessDenied => Some(UnknownExePath);
    OutputProcess(p.processName, exePath, p.id, p.workingSet64, -1.0)
  }

  /** Each entry copies its process's name, id and working set, has CPU
      -1.0, and the path rule above. */
  lemma OutputOfFields(p: RawProcess)
    ensures OutputOf(p).processName == p.processName && OutputOf(p).id == p.id
    ensures OutputOf(p).workingSet == p.workingSet64 && OutputOf(p).cpuPercent == -1.0
    ensures OutputOf(p).exePath.None? <==> p.mainModule.NoModule?
    ensures p.mainModule.ModuleAccessDenied? ==> OutputOf(p).exePath == Some(UnknownExePath)
    ensures p.mainModule.ModuleFile? ==> OutputOf(p).exePath == Some(p.mainModule.fileName)
  {
  }

  /** `(int)key.GetValue("EnableLUA") == 1`: an absent value cannot be
      unboxed (NullReferenceException) and a non-int one cannot be cast
      (InvalidCastException); neither is caught. */
  function UacFromPolicy(values: map<string, Value>): Result<bool, Exception>
  {
    match GetValue(values, EnableLuaName)
    case Null => Err(NullReference)
    case Int32(v) => Ok(v == 1)
    case _ => Err(InvalidCast)
  }

  /** UAC counts as enabled exactly when EnableLUA is the DWORD 1, and an
      error is raised exactly when the value is missing or not a DWORD. */
  lemma UacFromPolicyMeaning(values: map<string, Value>)
    ensures UacFromPolicy(values) == Ok(true) <==> EnableLuaName in values && values[EnableLuaName] == Int32(1)
    ensures UacFromPolicy(values).Err? <==> !(EnableLuaName in values && values[EnableLuaName].Int32?)
  {
  }

  class DataCache {
    var runningProcesses: seq<OutputProcess>
    var uacEnabled: bool

    /** The process loop of `MakeSystemData`: one entry per process, in the
        order listed. */
    method MakeRunningProcesses(raw: seq<RawProcess>)
      modifies this`runningProcesses
      ensures |runningProcesses| == |raw|
      ensures forall i :: 0 <= i < |raw| ==> runningProcesses[i] == OutputOf(raw[i])
    {
      runningProcesses := [];
      for i := 0 to |raw|
        invariant |runningProcesses| == i
        invariant forall j :: 0 <= j < i ==> runningProcesses[j] == OutputOf(raw[j])
      {
        var rawProcess := raw[i];
        var exePath: Option<string>;
        match rawProcess.mainModule {
          case ModuleFile(f) => exePath := Some(f);
          case NoModule => exePath := None;
          case ModuleAccessDenied => exePath := Some(UnknownExePath);
        }
        runningProcesses := runningProcesses + [OutputProcess(rawProcess.processName, exePath, rawProcess.id, rawProcess.workingSet64, -1.0)];
      }
    }

    /** The UAC part of `MakeSecurityData`: without the policy key the flag
        keeps its value; with it, the flag follows EnableLUA or the read
        throws. */
    method MakeUacData(hklm: RegistryKey) returns (r: Result<(), Exception>)
      modifies this`uacEnabled
      ensures PolicyPath !in hklm.subKeys ==> r.Ok? && uacEnabled == old(uacEnabled)
      ensures PolicyPath in hklm.subKeys ==>
        match UacFromPolicy(hklm.subKeys[PolicyPath])
        case Ok(b) => r.Ok? && uacEnabled == b
        case Err(e) => r == Err(e) && uacEnabled == old(uacEnabled)
    {
      if PolicyPath in hklm.subKeys {
        var key := hklm.subKeys[PolicyPath];
        var enableLua := GetValue(key, EnableLuaName);
        match enableLua {
          case Null => return Err(NullReference);
          case Int32(v) => uacEnabled := v == 1;
          case _ => return Err(InvalidCast);
        }
      }
      r := Ok(());
    }
  }
}
