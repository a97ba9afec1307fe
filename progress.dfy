/** The dependency-ordered task table (`ProgressList`): named items move from
    Queued to Processing to Complete, an item's action runs only once every
    item it depends on is Complete, and the display loop decides overall
    completion while ignoring items that do not hold it up. */
module Progress {
  import opened Common

  datatype ProgressType = Queued | Processing | Complete | Failed

  /** One table entry. `action` names the work the entry runs. */
  datatype ProgressStatus = ProgressStatus(
    name: string,
    status: ProgressType,
    action: string,
    dependencies: seq<string>,
    skipProgressWait: bool)

  /** `new ProgressStatus(name, a, deps, skipProgressWait)`: a new entry is
      Queued, and a null dependency list becomes the empty list. */
  function NewProgressStatus(name: string, action: string, deps: Option<seq<string>>, skip: bool): (p: ProgressStatus)
    ensures p.status == Queued
    ensures p.dependencies == (if deps.Some? then deps.value else [])
    ensures p.name == name && p.action == action && p.skipProgressWait == skip
  {
    var ds := match deps case Some(d) => d case None => [];
    ProgressStatus(name, Queued, action, ds, skip)
  }

  /** The first dependency that stops an item from running: one that is not
      in the table, or one that is not Complete yet. */
  datatype Blocker = MissingDependency(dep: string) | IncompleteDependency(dep: string)

  function FirstBlocker(items: map<string, ProgressStatus>, deps: seq<string>): Option<Blocker>
  {
    if deps == [] then None
    else if deps[0] !in items then Some(MissingDependency(deps[0]))
    else if items[deps[0]].status != Complete then Some(IncompleteDependency(deps[0]))
    else FirstBlocker(items, deps[1..])
  }

  predicate AllDependenciesComplete(items: map<string, ProgressStatus>, deps: seq<string>)
  {
    forall d :: d in deps ==> d in items && items[d].status == Complete
  }

  /** Nothing blocks an item exactly when every dependency is present and
      Complete; a reported blocker is one of the dependencies and really is
      missing or incomplete. */
  lemma {:induction false} FirstBlockerSound(items: map<string, ProgressStatus>, deps: seq<string>)
    ensures FirstBlocker(items, deps).None? <==> AllDependenciesComplete(items, deps)
    ensures FirstBlocker(items, deps).Some? ==>
      var b := FirstBlocker(items, deps).value;
      b.dep in deps &&
      (b.MissingDependency? ==> b.dep !in items) &&
      (b.IncompleteDependency? ==> b.dep in items && items[b.dep].status != Complete)
  {
    if deps != [] {
      FirstBlockerSound(items, deps[1..]);
      assert forall d :: d in deps <==> d == deps[0] || d in deps[1..];
    }
  }

  /** Every entry of the table, in order, is either Complete or not waited
      for (its `SkipProgressWait` is set). */
  predicate AllComplete(items: map<string, ProgressStatus>, order: seq<string>)
  {
    forall i :: 0 <= i < |order| && order[i] in items ==>
      items[order[i]].skipProgressWait || items[order[i]].status == Complete
  }

  /** What one pass of the display loop has computed after the first `n`
      entries: `allComplete` starts true and is cleared by every waited-for
      entry that is not Complete. */
  function CompletionScan(items: map<string, ProgressStatus>, order: seq<string>, n: nat): bool
    requires n <= |order|
  {
    if n == 0 then true
    else
      var k := order[n - 1];
      CompletionScan(items, order, n - 1) &&
      (k !in items || items[k].skipProgressWait || items[k].status == Complete)
  }

  /** A whole pass finds the table complete exactly when `AllComplete` holds. */
  lemma {:induction false} CompletionScanMeansAllComplete(items: map<string, ProgressStatus>, order: seq<string>, n: nat)
    requires n <= |order|
    ensures CompletionScan(items, order, n) <==> AllComplete(items, order[..n])
  {
    if n != 0 {
      CompletionScanMeansAllComplete(items, order, n - 1);
      assert forall i :: 0 <= i < n - 1 ==> order[..n][i] == order[..n - 1][i];
    }
  }

  /** What happened to one in-flight item when its thread advanced. */
  datatype StepOutcome = Ran | Waiting(dep: string) | Aborted(error: Exception)

  /** The table and the threads started on it. `order` is the dictionary's
      enumeration order; `inFlight` counts the threads started for each key
      that have not finished; `ran` logs the actions run, in order;
      `crashed` records that a worker thread ended in an exception nothing
      catches, which ends the process: no operation applies afterwards. */
  class ProgressList {
    var items: map<string, ProgressStatus>
    var order: seq<string>
    var inFlight: multiset<string>
    var ran: seq<string>
    var crashed: bool

    ghost predicate Valid()
      reads this
    {
      TableInvariant(items, order, inFlight, ran)
    }

    /** The table built by `new ProgressList()`: main data, a dummy timer,
        and a test entry that depends on main data and is not waited for. */
    constructor ()
      ensures Valid()
      ensures items == DefaultItems() && order == DefaultOrder
      ensures inFlight == multiset{} && ran == [] && !crashed
    {
      items := DefaultItems();
      order := DefaultOrder;
      inFlight := multiset{};
      ran := [];
      crashed := false;
      DefaultTableInvariant();
    }

    /** `RunItem(key)`, the part that runs before and at the start of the
        worker thread: a key not in the table throws KeyNotFoundException
        (the indexer throws before the null check could); otherwise the
        item becomes Processing and its thread is in flight. */
    method RunItem(key: string) returns (r: Result<(), Exception>)
      requires Valid() && !crashed
      modifies this
      ensures Valid() && !crashed
      ensures r.Err? <==> key !in old(items)
      ensures r.Err? ==> r.error == KeyNotFound(key) && items == old(items) && inFlight == old(inFlight)
      ensures r.Ok? ==> items == old(items)[key := old(items)[key].(status := Processing)]
                        && inFlight == old(inFlight) + multiset{key}
      ensures order == old(order) && ran == old(ran)
    {
      if key !in items {
        return Err(KeyNotFound(key));
      }
      InvariantAfterRunItem(items, order, inFlight, ran, key);
      items := items[key := items[key].(status := Processing)];
      inFlight := inFlight + multiset{key};
      r := Ok(());
    }

    /** One advance of an in-flight worker thread. It scans the dependencies
        in order: a name not in the table throws KeyNotFoundException on
        the thread, which nothing catches, so the process ends (`crashed`)
        with the item as it was; a dependency that
        is not Complete keeps the thread waiting with nothing changed; when
        all are Complete the action runs and the item becomes Complete. */
    method Step(key: string) returns (r: StepOutcome)
      requires Valid() && !crashed && key in inFlight
      modifies this
      ensures Valid()
      ensures order == old(order)
      ensures crashed <==> FirstBlocker(old(items), old(items)[key].dependencies).Some? &&
                           FirstBlocker(old(items), old(items)[key].dependencies).value.MissingDependency?
      ensures match FirstBlocker(old(items), old(items)[key].dependencies)
        case None =>
          && r == Ran
          && items == old(items)[key := old(items)[key].(status := Complete)]
          && ran == old(ran) + [key]
          && inFlight == old(inFlight) - multiset{key}
        case Some(MissingDependency(d)) =>
          && r == Aborted(KeyNotFound(d))
          && items == old(items) && ran == old(ran)
          && inFlight == old(inFlight) - multiset{key}
        case Some(IncompleteDependency(d)) =>
          && r == Waiting(d)
          && items == old(items) && ran == old(ran) && inFlight == old(inFlight)
    {
      var deps := items[key].dependencies;
      var i := 0;
      while i < |deps| && deps[i] in items && items[deps[i]].status == Complete
        invariant i <= |deps|
        invariant FirstBlocker(items, deps) == FirstBlocker(items, deps[i..])
      {
        assert deps[i..][1..] == deps[i + 1..];
        i := i + 1;
      }
      if i < |deps| {
        assert deps[i..][0] == deps[i];
        if deps[i] !in items {
          InvariantAfterAbort(items, order, inFlight, ran, key);
          inFlight := inFlight - multiset{key};
          crashed := true;
          return Aborted(KeyNotFound(deps[i]));
        }
        return Waiting(deps[i]);
      }
      assert deps[|deps|..] == [];
      FirstBlockerSound(items, deps);
      InvariantAfterStep(items, order, inFlight, ran, key);
      ran := ran + [key];
      items := items[key := items[key].(status := Complete)];
      inFlight := inFlight - multiset{key};
      r := Ran;
    }

    /** One pass of the `PrintStatuses` loop: decides completion, and brings
        every remembered status up to date, redrawing exactly the entries
        whose status changed since the last pass. */
    method DisplayPass(oldStatus: array<ProgressType>) returns (allComplete: bool, redrawn: seq<nat>)
      requires !crashed
      requires forall j :: 0 <= j < |order| ==> order[j] in items
      requires oldStatus.Length == |order|
      modifies oldStatus
      ensures allComplete == AllComplete(items, order)
      ensures oldStatus[..] == StatusesOf(items, order)
      ensures redrawn == ChangedAt(old(oldStatus[..]), StatusesOf(items, order), |order|)
    {
      allComplete := true;
      redrawn := [];
      ghost var before := oldStatus[..];
      ghost var now := StatusesOf(items, order);
      for i := 0 to |order|
        invariant forall j :: 0 <= j < i ==> oldStatus[j] == now[j]
        invariant forall j :: i <= j < |order| ==> oldStatus[j] == before[j]
        invariant allComplete == CompletionScan(items, order, i)
        invariant redrawn == ChangedAt(before, now, i)
      {
        var item := items[order[i]];
        StatusesOfAt(items, order, i);
        if !item.skipProgressWait && item.status != Complete {
          allComplete := false;
        }
        if item.status != oldStatus[i] {
          redrawn := redrawn + [i];
          oldStatus[i] := item.status;
        }
      }
      assert oldStatus[..] == now;
      CompletionScanMeansAllComplete(items, order, |order|);
      assert order[..|order|] == order;
    }
  }

  /** The invariant of a `ProgressList`: the table's keys are listed once
      each in `order`; every in-flight thread belongs to an entry; no entry is
      ever Failed; an entry that is Complete has had its action run; every
      action ran only after the actions of all of its dependencies. */
  ghost predicate TableInvariant(items: map<string, ProgressStatus>, order: seq<string>,
                                 inFlight: multiset<string>, ran: seq<string>)
  {
    && |items| == |order|
    && (forall j :: 0 <= j < |order| ==> order[j] in items)
    && (forall i, j :: 0 <= i < j < |order| ==> order[i] != order[j])
    && (forall k :: k in inFlight ==> k in items)
    && NoFailed(items)
    && (forall k :: k in items && items[k].status == Complete ==> k in ran)
    && DependenciesRanFirst(items, ran)
  }

  lemma DefaultTableInvariant()
    ensures TableInvariant(DefaultItems(), DefaultOrder, multiset{}, [])
  {
    var items := DefaultItems();
    assert items.Keys == {MainDataKey, DummyTimerKey, TestKey};
  }

  /** Starting an entry's thread keeps the invariant. */
  lemma InvariantAfterRunItem(items: map<string, ProgressStatus>, order: seq<string>,
                              inFlight: multiset<string>, ran: seq<string>, key: string)
    requires TableInvariant(items, order, inFlight, ran) && key in items
    ensures TableInvariant(items[key := items[key].(status := Processing)], order, inFlight + multiset{key}, ran)
  {
  }

  /** A thread that ends on a missing dependency keeps the invariant. */
  lemma InvariantAfterAbort(items: map<string, ProgressStatus>, order: seq<string>,
                            inFlight: multiset<string>, ran: seq<string>, key: string)
    requires TableInvariant(items, order, inFlight, ran)
    ensures TableInvariant(items, order, inFlight - multiset{key}, ran)
  {
  }

  /** Running an in-flight entry whose dependencies are all Complete keeps the
      invariant: in particular the log stays ordered by dependencies. */
  lemma InvariantAfterStep(items: map<string, ProgressStatus>, order: seq<string>,
                           inFlight: multiset<string>, ran: seq<string>, key: string)
    requires TableInvariant(items, order, inFlight, ran) && key in items
    requires AllDependenciesComplete(items, items[key].dependencies)
    ensures TableInvariant(items[key := items[key].(status := Complete)], order, inFlight - multiset{key}, ran + [key])
  {
    RanFirstExtend(items, ran, key);
  }

  /** The status of a key; keys outside the table never reach it. */
  function StatusOf(items: map<string, ProgressStatus>, k: string): ProgressType
  {
    if k in items then items[k].status else Queued
  }

  /** The statuses in table order. */
  function StatusesOf(items: map<string, ProgressStatus>, order: seq<string>): (s: seq<ProgressType>)
    ensures |s| == |order|
  {
    if order == [] then [] else StatusesOf(items, order[..|order| - 1]) + [StatusOf(items, order[|order| - 1])]
  }

  lemma {:induction false} StatusesOfAt(items: map<string, ProgressStatus>, order: seq<string>, i: nat)
    requires i < |order| && order[i] in items
    ensures StatusesOf(items, order)[i] == items[order[i]].status
    decreases |order|
  {
    if i < |order| - 1 {
      StatusesOfAt(items, order[..|order| - 1], i);
    }
  }

  predicate NoFailed(items: map<string, ProgressStatus>)
  {
    forall k :: k in items ==> items[k].status != Failed
  }

  /** Each logged action comes after one run of each of its dependencies. */
  predicate DependenciesRanFirst(items: map<string, ProgressStatus>, ran: seq<string>)
  {
    forall i :: 0 <= i < |ran| ==>
      ran[i] in items && forall d :: d in items[ran[i]].dependencies ==> d in ran[..i]
  }

  /** Running an item whose dependencies are all Complete (and so have run)
      keeps the log ordered by dependencies. */
  lemma RanFirstExtend(items: map<string, ProgressStatus>, ran: seq<string>, key: string)
    requires DependenciesRanFirst(items, ran) && key in items
    requires forall k :: k in items && items[k].status == Complete ==> k in ran
    requires AllDependenciesComplete(items, items[key].dependencies)
    ensures DependenciesRanFirst(items[key := items[key].(status := Complete)], ran + [key])
  {
    var items' := items[key := items[key].(status := Complete)];
    var ran' := ran + [key];
    forall i | 0 <= i < |ran'|
      ensures ran'[i] in items' && forall d :: d in items'[ran'[i]].dependencies ==> d in ran'[..i]
    {
      if i < |ran| {
        assert ran'[..i] == ran[..i];
      } else {
        assert ran'[..i] == ran;
      }
    }
  }

  /** Indices below `n` whose status differs between the remembered and the
      current statuses. */
  function ChangedAt(before: seq<ProgressType>, now: seq<ProgressType>, n: nat): seq<nat>
    requires |before| == |now| && n <= |now|
  {
    if n == 0 then []
    else ChangedAt(before, now, n - 1) + (if before[n - 1] != now[n - 1] then [n - 1] else [])
  }

  /** Every redrawn index is one whose status changed. */
  lemma {:induction false} ChangedAtSound(before: seq<ProgressType>, now: seq<ProgressType>, n: nat)
    requires |before| == |now| && n <= |now|
    ensures forall j :: 0 <= j < |ChangedAt(before, now, n)| ==>
      ChangedAt(before, now, n)[j] < n && before[ChangedAt(before, now, n)[j]] != now[ChangedAt(before, now, n)[j]]
  {
    if n != 0 {
      ChangedAtSound(before, now, n - 1);
    }
  }

  /** Every index whose status changed is redrawn. */
  lemma {:induction false} ChangedAtComplete(before: seq<ProgressType>, now: seq<ProgressType>, n: nat)
    requires |before| == |now| && n <= |now|
    ensures forall i :: 0 <= i < n && before[i] != now[i] ==> i in ChangedAt(before, now, n)
  {
    if n != 0 {
      ChangedAtComplete(before, now, n - 1);
    }
  }

  /** The redrawn indices are listed in increasing order. */
  lemma {:induction false} ChangedAtIncreasing(before: seq<ProgressType>, now: seq<ProgressType>, n: nat)
    requires |before| == |now| && n <= |now|
    ensures forall j, k :: 0 <= j < k < |ChangedAt(before, now, n)| ==>
      ChangedAt(before, now, n)[j] < ChangedAt(before, now, n)[k]
  {
    if n != 0 {
      ChangedAtIncreasing(before, now, n - 1);
      ChangedAtSound(before, now, n - 1);
    }
  }

  // ---------------------------------------------------------------------
  // The default table
  // ---------------------------------------------------------------------

  const MainDataKey: string := "MainData"
  const DummyTimerKey: string := "DummyTimer"
  const TestKey: string := "Test"

  const DefaultOrder: seq<string> := [MainDataKey, DummyTimerKey, TestKey]

  function DefaultItems(): map<string, ProgressStatus>
  {
    map[
      MainDataKey := NewProgressStatus("Main Data", "MakeMainData", None, false),
      DummyTimerKey := NewProgressStatus("Dummy 5 second timer", "DummyTimer", None, false),
      TestKey := NewProgressStatus("Test thing", "PrettyPrintObject", Some([MainDataKey]), true)]
  }

  /** A table with the default entries, whatever their statuses. */
  predicate DefaultShape(items: map<string, ProgressStatus>)
  {
    items.Keys == DefaultItems().Keys &&
    forall k :: k in items ==> items[k].(status := Queued) == DefaultItems()[k]
  }

  /** With the default table the display loop stops exactly when main data
      and the dummy timer are Complete, whatever the test entry's status. */
  lemma DefaultCompletion(items: map<string, ProgressStatus>)
    requires DefaultShape(items)
    ensures AllComplete(items, DefaultOrder) <==>
      items[MainDataKey].status == Complete && items[DummyTimerKey].status == Complete
  {
    assert items[TestKey].skipProgressWait == DefaultItems()[TestKey].skipProgressWait;
    assert items[MainDataKey].skipProgressWait == DefaultItems()[MainDataKey].skipProgressWait;
    assert items[DummyTimerKey].skipProgressWait == DefaultItems()[DummyTimerKey].skipProgressWait;
    assert DefaultOrder[0] == MainDataKey && DefaultOrder[1] == DummyTimerKey && DefaultOrder[2] == TestKey;
  }

  /** In the default table the test entry cannot run before main data has. */
  lemma TestRunsAfterMainData(items: map<string, ProgressStatus>, ran: seq<string>, i: nat)
    requires DefaultShape(items) && DependenciesRanFirst(items, ran)
    requires i < |ran| && ran[i] == TestKey
    ensures MainDataKey in ran[..i]
  {
    assert items[TestKey].dependencies == DefaultItems()[TestKey].dependencies;
    assert MainDataKey in items[TestKey].dependencies;
  }
}
