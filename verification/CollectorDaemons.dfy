/**
 * The collector daemon: the devices it collects from, those that do not answer
 * pings, and the scheduled tasks of each device's configuration.
 */
module CollectorDaemons {
  import opened Wrappers
  import opened Sequences
  import opened TaskTables
  import opened TaskStart
  import opened Schedulers
  import opened ConfigUpdates

  // ----- Adding the new tasks one by one -----

  lemma JoinedNone(left: Tables, newTasks: map<Name, Task>)
    ensures Joined(left, newTasks - newTasks.Keys, false) == left
  {
    var none := newTasks - newTasks.Keys;
    assert JoinedTasks(left.tasks, none, false) == left.tasks;
    assert JoinedTimers(left.loopingCalls, none) == left.loopingCalls;
    assert JoinedCounters(left.taskStats, none) == left.taskStats;
  }

  lemma OneMoreTask(left: Table, some: map<Name, Task>, n: Name, task: Task)
    requires n !in some
    ensures var before, after := JoinedTasks(left, some, false), JoinedTasks(left, some[n := task], false);
      after == if n in left then before else before[n := Entry(task, false)]
  {
  }

  lemma OneMoreTimer(left: map<Name, LoopingCall>, some: map<Name, Task>, n: Name, task: Task)
    requires n !in some
    ensures var before, after := JoinedTimers(left, some), JoinedTimers(left, some[n := task]);
      after == if n in left then before else before[n := LoopingCall(task, None)]
  {
  }

  lemma OneMoreCounter(left: map<Name, TaskStats>, some: map<Name, Task>, n: Name, task: Task)
    requires n !in some
    ensures var before, after := JoinedCounters(left, some), JoinedCounters(left, some[n := task]);
      after == if n in left then before else before[n := TaskStats(0, 0, 0)]
  {
  }

  lemma JoinedOneMore(left: Tables, newTasks: map<Name, Task>, todo: set<Name>, n: Name)
    requires Agree(left) && n in todo && todo <= newTasks.Keys && newTasks[n].name == n
    ensures var before, after := Joined(left, newTasks - todo, false), Joined(left, newTasks - (todo - {n}), false);
      (n in before.tasks <==> n in left.tasks) &&
      after == if n in left.tasks then before else WithTask(before, newTasks[n])
  {
    var some := newTasks - todo;
    assert newTasks - (todo - {n}) == some[n := newTasks[n]];
    OneMoreTask(left.tasks, some, n, newTasks[n]);
    OneMoreTimer(left.loopingCalls, some, n, newTasks[n]);
    OneMoreCounter(left.taskStats, some, n, newTasks[n]);
  }

  lemma JoinedPaused(left: Tables, newTasks: map<Name, Task>, c: ConfigId)
    requires NamesFor(left.tasks, c) == {} && forall n :: n in newTasks ==> newTasks[n].configId == c
    ensures var unpaused := Joined(left, newTasks, false);
      unpaused.(tasks := WithPaused(unpaused.tasks, c, true)) == Joined(left, newTasks, true)
  {
    assert forall n :: n in left.tasks && left.tasks[n].task.configId == c ==> n in NamesFor(left.tasks, c);
    assert WithPaused(JoinedTasks(left.tasks, newTasks, false), c, true) == JoinedTasks(left.tasks, newTasks, true);
  }

  /** Each of the named tasks has one start waiting. */
  predicate StartsFor(starts: map<Name, Start>, newTasks: map<Name, Task>, names: set<Name>, now: bool) {
    names <= newTasks.Keys && starts.Keys == names &&
    forall n :: n in names ==> StartsAsAsked(starts[n], newTasks[n], now)
  }

  /** Each task of the config has one start waiting. */
  ghost predicate StartsOf(starts: map<Name, Start>, tasks: Table, configId: ConfigId, now: bool) {
    starts.Keys == NamesFor(tasks, configId) && forall n :: n in starts ==> StartsAsAsked(starts[n], tasks[n].task, now)
  }

  lemma StartAdded(
    starts: map<Name, Start>, newTasks: map<Name, Task>, names: set<Name>, n: Name, start: Start, now: bool)
    requires StartsFor(starts, newTasks, names, now) && n in newTasks && StartsAsAsked(start, newTasks[n], now)
    ensures StartsFor(starts[n := start], newTasks, names + {n}, now)
  {
  }

  lemma OneMoreName(all: set<Name>, todo: set<Name>, taken: set<Name>, n: Name)
    requires n in todo && todo <= all
    ensures all - (todo - {n}) - taken == if n in taken then all - todo - taken else (all - todo - taken) + {n}
  {
  }

  // ----- Removing configs one by one -----

  lemma RemovedNone(v: Tables)
    ensures Without(v, ReachableFromAny(v.tasks, {})) == v
  {
    assert ReachableFromAny(v.tasks, {}) == {};
    assert v.tasks - {} == v.tasks && v.loopingCalls - {} == v.loopingCalls && v.taskStats - {} == v.taskStats;
  }

  lemma RemovedOneMore(v: Tables, ids: set<ConfigId>, c: ConfigId)
    ensures var left := Without(v, ReachableFromAny(v.tasks, ids));
      Without(left, Reachable(left.tasks, c)) == Without(v, ReachableFromAny(v.tasks, ids + {c}))
  {
    var left := Without(v, ReachableFromAny(v.tasks, ids));
    RemovalsAddUp(v.tasks, ids, c);
    WithoutTwice(v, ReachableFromAny(v.tasks, ids), Reachable(left.tasks, c));
  }

  class CollectorDaemon {
    const scheduler: Scheduler
    const internal: set<ConfigId>
    const device: DeviceId                  // the one device to collect from, or ""
    const configFilter: Config -> bool
    const cycle: bool
    var devices: set<ConfigId>
    var unresponsive: set<ConfigId>
    var pendingTasks: seq<Name>

    ghost predicate Valid()
      reads this, scheduler
    {
      scheduler.Valid() && InStep(scheduler.tasks, devices, unresponsive, internal)
    }

    predicate Accepts(cfg: Config) {
      (device == "" && configFilter(cfg)) || (device != "" && (device == cfg.id || device == cfg.configId))
    }

    constructor (
      scheduler: Scheduler, internal: set<ConfigId>, device: DeviceId, configFilter: Config -> bool, cycle: bool)
      requires scheduler.Valid() && scheduler.tasks == map[]
      ensures Valid() && devices == {} && unresponsive == {} && this.scheduler == scheduler
    {
      this.scheduler, this.internal, this.device := scheduler, internal, device;
      this.configFilter, this.cycle := configFilter, cycle;
      devices, unresponsive, pendingTasks := {}, {}, [];
    }

    method UpdateConfig(cfg: Option<Config>, nowTime: int) returns (updated: bool, starts: map<Name, Start>)
      requires Valid()
      requires cfg.Some? ==> IsSplit(cfg.value) && cfg.value.configId !in internal
      modifies this`devices, this`pendingTasks, scheduler
      ensures Valid()
      ensures updated <==> cfg.Some? && Accepts(cfg.value)
      ensures device != "" ==> (updated <==> cfg.Some? && device in {cfg.value.id, cfg.value.configId})
      ensures device == "" ==> (updated <==> cfg.Some? && configFilter(cfg.value))
      ensures !updated ==> scheduler.View() == old(scheduler.View()) && devices == old(devices) && starts == map[]
      ensures updated ==>
        devices == old(devices) + {cfg.value.configId} &&
        scheduler.View() == AfterConfig(old(scheduler.View()), cfg.value, old(devices), nowTime) &&
        StartsOf(starts, scheduler.tasks, cfg.value.configId, !cycle)
    {
      if cfg.None? { return false, map[]; }
      var c := cfg.value;
      if !((device == "" && configFilter(c)) || (device != "" && device in {c.id, c.configId})) {
        return false, map[];
      }
      starts := Apply(c, nowTime);
      updated := true;
    }

    /** The tables after an accepted configuration, the devices known before it being `known`. */
    ghost function AfterConfig(v: Tables, c: Config, known: set<ConfigId>, nowTime: int): Tables
      reads this`unresponsive
    {
      Updated(v, c, c.configId in known, c.configId in unresponsive, nowTime)
    }

    /** Puts an accepted configuration in place of the one it replaces. */
    method Apply(c: Config, nowTime: int) returns (starts: map<Name, Start>)
      requires Valid() && IsSplit(c) && c.configId !in internal
      modifies this`devices, this`pendingTasks, scheduler
      ensures Valid() && devices == old(devices) + {c.configId}
      ensures scheduler.View() == AfterConfig(old(scheduler.View()), c, old(devices), nowTime)
      ensures StartsOf(starts, scheduler.tasks, c.configId, !cycle)
    {
      UpdateLeavesTheSplit(scheduler.View(), c, devices, unresponsive, internal, nowTime);
      NoneLeft(scheduler.View(), devices, unresponsive, internal, c.configId);
      var nextRuns := RemoveOld(c.configId);
      starts := AddAndPause(NewTasks(c, nextRuns, nowTime), c.configId);
    }

    /** Adds the new tasks of a config that has none, and pauses them if its device does not answer. */
    method AddAndPause(newTasks: map<Name, Task>, configId: ConfigId) returns (starts: map<Name, Start>)
      requires scheduler.Valid() && NamesFor(scheduler.tasks, configId) == {}
      requires forall n :: n in newTasks ==> newTasks[n].name == n && newTasks[n].configId == configId
      modifies this`pendingTasks, scheduler`tasks, scheduler`loopingCalls, scheduler`taskStats, scheduler`callbacks
      ensures scheduler.Valid()
      ensures scheduler.View() == Joined(old(scheduler.View()), newTasks, configId in unresponsive)
      ensures StartsOf(starts, scheduler.tasks, configId, !cycle)
    {
      starts := AddNew(newTasks);
      if configId in unresponsive {
        scheduler.PauseTasksForConfig(configId);
        JoinedPaused(old(scheduler.View()), newTasks, configId);
      }
      JoinedNames(old(scheduler.tasks), newTasks, configId, configId in unresponsive);
    }

    /** Makes room for an accepted configuration; gives the expected runs of the tasks it replaces. */
    method RemoveOld(configId: ConfigId) returns (nextRuns: map<Name, Option<int>>)
      requires scheduler.Valid()
      modifies this`devices, scheduler
      ensures scheduler.Valid() && devices == old(devices) + {configId}
      ensures scheduler.View() == Cleared(old(scheduler.View()), configId, configId in old(devices))
      ensures nextRuns == NextRuns(old(scheduler.loopingCalls),
        if configId in old(devices) then NamesFor(old(scheduler.tasks), configId) else {})
    {
      nextRuns := map[];
      if configId in devices {
        var names := scheduler.TaskNamesFor(configId);
        nextRuns := NextRuns(scheduler.loopingCalls, Members(names));
        DoomedByConfig(scheduler.tasks, configId);
        scheduler.RemoveTasks(names);
      } else {
        devices := devices + {configId};
      }
    }

    /** Adds the new tasks, leaving out those whose names are taken. */
    method AddNew(newTasks: map<Name, Task>) returns (starts: map<Name, Start>)
      requires scheduler.Valid()
      requires forall n :: n in newTasks ==> newTasks[n].name == n
      modifies this`pendingTasks, scheduler`tasks, scheduler`loopingCalls, scheduler`taskStats, scheduler`callbacks
      ensures scheduler.Valid() && scheduler.View() == Joined(old(scheduler.View()), newTasks, false)
      ensures StartsFor(starts, newTasks, newTasks.Keys - old(scheduler.tasks).Keys, !cycle)
    {
      starts := map[];
      var todo := newTasks.Keys;
      JoinedNone(scheduler.View(), newTasks);
      while todo != {}
        invariant todo <= newTasks.Keys && scheduler.Valid()
        invariant scheduler.View() == Joined(old(scheduler.View()), newTasks - todo, false)
        invariant StartsFor(starts, newTasks, newTasks.Keys - todo - old(scheduler.tasks).Keys, !cycle)
      {
        var n :| n in todo;
        JoinedOneMore(old(scheduler.View()), newTasks, todo, n);
        OneMoreName(newTasks.Keys, todo, old(scheduler.tasks).Keys, n);
        starts := AddOne(newTasks, n, starts, newTasks.Keys - todo - old(scheduler.tasks).Keys);
        todo := todo - {n};
      }
      assert newTasks - {} == newTasks;
    }

    /** Adds one of the new tasks unless its name is taken. */
    method AddOne(newTasks: map<Name, Task>, n: Name, starts: map<Name, Start>, ghost names: set<Name>)
      returns (starts': map<Name, Start>)
      requires scheduler.Valid() && n in newTasks && newTasks[n].name == n && StartsFor(starts, newTasks, names, !cycle)
      modifies this`pendingTasks, scheduler`tasks, scheduler`loopingCalls, scheduler`taskStats, scheduler`callbacks
      ensures scheduler.Valid()
      ensures if n in old(scheduler.tasks) then
          scheduler.View() == old(scheduler.View()) && StartsFor(starts', newTasks, names, !cycle)
        else
          scheduler.View() == WithTask(old(scheduler.View()), newTasks[n]) &&
          StartsFor(starts', newTasks, names + {n}, !cycle)
    {
      starts' := starts;
      var added := scheduler.AddTask(newTasks[n], !cycle);
      match added {
        case Err(_) =>
        case Ok(start) =>
          StartAdded(starts, newTasks, names, n, start, !cycle);
          starts' := starts[n := start];
          if !cycle { pendingTasks := pendingTasks + [n]; }
      }
    }

    method DeleteDevice(deviceId: ConfigId)
      requires Valid()
      modifies this`devices, scheduler
      ensures Valid() && devices == old(devices) - {deviceId}
      ensures scheduler.View() == Without(old(scheduler.View()), Reachable(old(scheduler.tasks), deviceId))
    {
      devices := devices - {deviceId};
      ReachesItself(scheduler.tasks, deviceId);
      scheduler.RemoveTasksForConfig(deviceId);
    }

    /** Deletes the devices that an update does not list, with everything their tasks reach. */
    method PurgeOmittedDevices(listed: set<ConfigId>)
      requires Valid()
      modifies this`devices, scheduler
      ensures Valid() && devices == old(devices) * listed
      ensures scheduler.View() ==
        Without(old(scheduler.View()), ReachableFromAny(old(scheduler.tasks), old(devices) - listed))
    {
      var deleted := devices - listed;
      var todo := deleted;
      RemovedNone(scheduler.View());
      while todo != {}
        invariant todo <= deleted && Valid() && devices == old(devices) - (deleted - todo)
        invariant scheduler.View() ==
          Without(old(scheduler.View()), ReachableFromAny(old(scheduler.tasks), deleted - todo))
      {
        var deviceId :| deviceId in todo;
        RemovedOneMore(old(scheduler.View()), deleted - todo, deviceId);
        assert deleted - (todo - {deviceId}) == (deleted - todo) + {deviceId};
        todo := todo - {deviceId};
        DeleteDevice(deviceId);
      }
      assert deleted - {} == deleted;
    }

    /** An update of many devices during which nothing else happens. */
    method UpdateDeviceConfigs(cfgs: seq<Config>, purgeOmitted: bool)
      requires Valid() && forall i :: 0 <= i < |cfgs| ==> IsSplit(cfgs[i]) && cfgs[i].configId !in internal
      modifies this`devices, this`pendingTasks, scheduler
      ensures Valid()
      ensures devices == AcceptedIds(cfgs) + if purgeOmitted then old(devices) * ListedIds(cfgs) else old(devices)
    {
      for i := 0 to |cfgs|
        invariant Valid() && devices == old(devices) + AcceptedIds(cfgs[..i])
      {
        AcceptedOneMore(cfgs, i);
        var nowTime: int := *;
        var updated, starts := UpdateConfig(Some(cfgs[i]), nowTime);
      }
      assert cfgs[..|cfgs|] == cfgs;
      if purgeOmitted {
        assert AcceptedIds(cfgs) <= ListedIds(cfgs);
        PurgeOmittedDevices(ListedIds(cfgs));
      }
    }

    lemma AcceptedOneMore(cfgs: seq<Config>, i: nat)
      requires i < |cfgs|
      ensures AcceptedIds(cfgs[..i + 1]) ==
        AcceptedIds(cfgs[..i]) + if Accepts(cfgs[i]) then {cfgs[i].configId} else {}
    {
      SplitAt(cfgs, i);
    }

    function ListedIds(cfgs: seq<Config>): set<ConfigId> {
      set cfg | cfg in cfgs :: cfg.configId
    }

    function AcceptedIds(cfgs: seq<Config>): set<ConfigId> {
      set cfg | cfg in cfgs && Accepts(cfg) :: cfg.configId
    }

    /** A ping cycle; without a result it changes nothing. */
    method PauseUnreachableDevices(issues: Option<set<ConfigId>>)
      requires Valid()
      modifies this`unresponsive, scheduler
      ensures Valid()
      ensures issues == None ==> unresponsive == old(unresponsive) && scheduler.tasks == old(scheduler.tasks)
      ensures issues.Some? ==> unresponsive == issues.value
      ensures issues.Some? ==>
        scheduler.tasks == Pinged(old(scheduler.tasks), old(unresponsive) - issues.value, issues.value)
    {
      if issues.None? { return; }
      var cleared := unresponsive - issues.value;
      ResumeDevices(cleared);
      unresponsive := issues.value;
      PauseDevices(unresponsive);
      PingedTwice(old(scheduler.tasks), cleared, unresponsive);
      PingKeepsInStep(old(scheduler.tasks), devices, old(unresponsive), unresponsive, internal);
    }

    method ResumeDevices(ids: set<ConfigId>)
      requires scheduler.Valid()
      modifies scheduler`tasks
      ensures scheduler.Valid() && scheduler.tasks == Pinged(old(scheduler.tasks), ids, {})
    {
      var todo := ids;
      assert Pinged(scheduler.tasks, {}, {}) == scheduler.tasks;
      while todo != {}
        invariant todo <= ids && scheduler.Valid() && scheduler.tasks == Pinged(old(scheduler.tasks), ids - todo, {})
      {
        var devId :| devId in todo;
        PingedOneMore(old(scheduler.tasks), ids - todo, {}, devId);
        assert ids - (todo - {devId}) == (ids - todo) + {devId};
        todo := todo - {devId};
        scheduler.ResumeTasksForConfig(devId);
      }
      assert ids - {} == ids;
    }

    method PauseDevices(ids: set<ConfigId>)
      requires scheduler.Valid()
      modifies scheduler`tasks
      ensures scheduler.Valid() && scheduler.tasks == Pinged(old(scheduler.tasks), {}, ids)
    {
      var todo := ids;
      assert Pinged(scheduler.tasks, {}, {}) == scheduler.tasks;
      while todo != {}
        invariant todo <= ids && scheduler.Valid() && scheduler.tasks == Pinged(old(scheduler.tasks), {}, ids - todo)
      {
        var devId :| devId in todo;
        PingedOneMore(old(scheduler.tasks), {}, ids - todo, devId);
        assert ids - (todo - {devId}) == (ids - todo) + {devId};
        todo := todo - {devId};
        scheduler.PauseTasksForConfig(devId);
      }
      assert ids - {} == ids;
    }

    /** A task has completed for good: the scheduler removes the tasks of its config. */
    method TaskCompleted(configId: ConfigId)
      requires Valid()
      modifies scheduler
      ensures Valid() && scheduler.View() == Without(old(scheduler.View()), Reachable(old(scheduler.tasks), configId))
    {
      scheduler.RemoveTasksForConfig(configId);
    }

    /** Restarts the daemon's own task that loads configurations. */
    method RebuildConfig(loader: Task)
      requires Valid() && loader.configId in internal
      modifies scheduler
      ensures Valid()
      ensures var left := old(scheduler.tasks) - Reachable(old(scheduler.tasks), loader.configId);
        scheduler.tasks == if loader.name in left then left else left[loader.name := Entry(loader, false)]
    {
      scheduler.RemoveTasksForConfig(loader.configId);
      var start := scheduler.AddTask(loader, false);
    }
  }

  /** The table after resuming the tasks of some configs and then pausing those of others. */
  function Pinged(tasks: Table, resumed: set<ConfigId>, paused: set<ConfigId>): Table {
    map n | n in tasks :: tasks[n].(paused :=
      tasks[n].task.configId in paused || (tasks[n].paused && tasks[n].task.configId !in resumed))
  }

  lemma PingedTwice(tasks: Table, resumed: set<ConfigId>, paused: set<ConfigId>)
    ensures Pinged(Pinged(tasks, resumed, {}), {}, paused) == Pinged(tasks, resumed, paused)
  {
  }

  lemma PingKeepsInStep(
    tasks: Table, devices: set<ConfigId>, before: set<ConfigId>, after: set<ConfigId>, internal: set<ConfigId>)
    requires InStep(tasks, devices, before, internal)
    ensures InStep(Pinged(tasks, before - after, after), devices, after, internal)
  {
  }

  lemma PingedOneMore(tasks: Table, resumed: set<ConfigId>, paused: set<ConfigId>, c: ConfigId)
    ensures WithPaused(Pinged(tasks, resumed, paused), c, true) == Pinged(tasks, resumed, paused + {c})
    ensures c !in paused ==>
      WithPaused(Pinged(tasks, resumed, paused), c, false) == Pinged(tasks, resumed + {c}, paused)
  {
  }
}
