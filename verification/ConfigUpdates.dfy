/** What an accepted configuration makes of the scheduler's tables, and when its tasks start. */
module ConfigUpdates {
  import opened Wrappers
  import opened TaskTables
  import opened TaskStart
  import opened Schedulers
  import opened StartRuns

  type DeviceId = string

  /** A device configuration, with the tasks into which the splitter divides it. */
  datatype Config = Config(id: DeviceId, configId: ConfigId, split: map<Name, Task>)

  /** What a splitter promises: tasks of this config, keyed by their own names, without a start delay. */
  predicate IsSplit(cfg: Config) {
    forall n :: n in cfg.split ==>
      cfg.split[n].name == n && cfg.split[n].configId == cfg.configId && cfg.split[n].startDelay == None
  }

  // ----- What an update makes of the tables -----

  /** The start delay that leaves a task of an updated config on its old schedule, cleanup permitting. */
  function KeptDelay(nextRun: Option<int>, nowTime: int): Option<nat> {
    match nextRun
    case None => None
    case Some(t) => if t == 0 then None else if t <= nowTime then Some(0) else Some(t - nowTime)
  }

  function Rescheduled(task: Task, nextRuns: map<Name, Option<int>>, nowTime: int): Task {
    if task.name in nextRuns then task.(startDelay := KeptDelay(nextRuns[task.name], nowTime)) else task
  }

  function NextRuns(loopingCalls: map<Name, LoopingCall>, names: set<Name>): map<Name, Option<int>> {
    map n | n in names && n in loopingCalls :: loopingCalls[n].nextExpected
  }

  function NewTasks(cfg: Config, nextRuns: map<Name, Option<int>>, nowTime: int): map<Name, Task> {
    map n | n in cfg.split :: Rescheduled(cfg.split[n], nextRuns, nowTime)
  }

  // New tasks join what is left of the others, unless their names are taken.

  function JoinedTasks(left: Table, newTasks: map<Name, Task>, paused: bool): Table {
    map n | n in left.Keys + newTasks.Keys :: if n in left then left[n] else Entry(newTasks[n], paused)
  }

  function JoinedTimers(left: map<Name, LoopingCall>, newTasks: map<Name, Task>): map<Name, LoopingCall> {
    map n | n in left.Keys + newTasks.Keys :: if n in left then left[n] else LoopingCall(newTasks[n], None)
  }

  function JoinedCounters(left: map<Name, TaskStats>, newTasks: map<Name, Task>): map<Name, TaskStats> {
    map n | n in left.Keys + newTasks.Keys :: if n in left then left[n] else TaskStats(0, 0, 0)
  }

  function Joined(left: Tables, newTasks: map<Name, Task>, paused: bool): Tables {
    left.(tasks := JoinedTasks(left.tasks, newTasks, paused), loopingCalls := JoinedTimers(left.loopingCalls, newTasks),
          taskStats := JoinedCounters(left.taskStats, newTasks))
  }

  /** What is left once the tasks of a known config, and all they reach, have been removed. */
  ghost function Cleared(v: Tables, c: ConfigId, known: bool): Tables {
    if known then Without(v, Reachable(v.tasks, c)) else v
  }

  /** The new tasks of an accepted configuration. */
  function Replacing(v: Tables, cfg: Config, known: bool, nowTime: int): map<Name, Task> {
    NewTasks(cfg, NextRuns(v.loopingCalls, if known then NamesFor(v.tasks, cfg.configId) else {}), nowTime)
  }

  /** The tables once an accepted configuration has been processed. */
  ghost function Updated(v: Tables, cfg: Config, known: bool, paused: bool, nowTime: int): Tables {
    Joined(Cleared(v, cfg.configId, known), Replacing(v, cfg, known, nowTime), paused)
  }

  // ----- What every update keeps -----

  /**
   * The task of a device is paused exactly when the device does not answer, and
   * belongs to a device the daemon knows. `internal` are the configs of the
   * daemon's own tasks.
   */
  predicate InStep(tasks: Table, devices: set<ConfigId>, unresponsive: set<ConfigId>, internal: set<ConfigId>) {
    forall n :: n in tasks && tasks[n].task.configId !in internal ==>
      (tasks[n].paused <==> tasks[n].task.configId in unresponsive) && tasks[n].task.configId in devices
  }

  /** The config has no task left when the new ones are added. */
  lemma NoneLeft(
    v: Tables, devices: set<ConfigId>, unresponsive: set<ConfigId>, internal: set<ConfigId>, c: ConfigId)
    requires InStep(v.tasks, devices, unresponsive, internal) && c !in internal
    ensures var left := Cleared(v, c, c in devices).tasks;
      NamesFor(left, c) == {} && InStep(left, devices, unresponsive, internal)
    ensures var left := Cleared(v, c, c in devices).tasks; forall n :: n in left ==> left[n].task.configId != c
  {
    if c in devices {
      ReachesItself(v.tasks, c);
    }
    var left := Cleared(v, c, c in devices).tasks;
    assert forall n :: n in left && left[n].task.configId == c ==> n in NamesFor(left, c);
  }

  lemma JoinedNames(left: Table, newTasks: map<Name, Task>, c: ConfigId, paused: bool)
    requires NamesFor(left, c) == {} && forall n :: n in newTasks ==> newTasks[n].configId == c
    ensures var tasks := JoinedTasks(left, newTasks, paused);
      NamesFor(tasks, c) == newTasks.Keys - left.Keys &&
      (forall n :: n in newTasks.Keys - left.Keys ==> tasks[n] == Entry(newTasks[n], paused)) &&
      (forall n :: n in left ==> n in tasks && tasks[n] == left[n])
  {
    assert forall n :: n in left && left[n].task.configId == c ==> n in NamesFor(left, c);
  }

  lemma JoinedInStep(
    left: Table, newTasks: map<Name, Task>, c: ConfigId, devices: set<ConfigId>, unresponsive: set<ConfigId>,
    internal: set<ConfigId>)
    requires InStep(left, devices, unresponsive, internal) && forall n :: n in newTasks ==> newTasks[n].configId == c
    ensures InStep(JoinedTasks(left, newTasks, c in unresponsive), devices + {c}, unresponsive, internal)
  {
  }

  /**
   * An accepted update leaves exactly the tasks of its split, rescheduled, except
   * those whose names other configs use; these others stay as they are.
   */
  lemma UpdateLeavesTheSplit(
    v: Tables, cfg: Config, devices: set<ConfigId>, unresponsive: set<ConfigId>, internal: set<ConfigId>, nowTime: int)
    requires InStep(v.tasks, devices, unresponsive, internal) && IsSplit(cfg) && cfg.configId !in internal
    ensures var c := cfg.configId;
      var tasks' := Updated(v, cfg, c in devices, c in unresponsive, nowTime).tasks;
      var others := Cleared(v, c, c in devices).tasks;
      InStep(tasks', devices + {c}, unresponsive, internal) &&
      NamesFor(tasks', c) == cfg.split.Keys - others.Keys &&
      (forall n :: n in cfg.split.Keys - others.Keys ==>
        tasks'[n] == Entry(Replacing(v, cfg, c in devices, nowTime)[n], c in unresponsive)) &&
      (forall n :: n in others ==> n in tasks' && tasks'[n] == others[n])
  {
    var c := cfg.configId;
    var left, newTasks := Cleared(v, c, c in devices).tasks, Replacing(v, cfg, c in devices, nowTime);
    NoneLeft(v, devices, unresponsive, internal, c);
    JoinedInStep(left, newTasks, c, devices, unresponsive, internal);
    JoinedNames(left, newTasks, c, c in unresponsive);
  }

  // ----- When the new tasks start -----

  /** Every task that the update removes awaits cleanup, and no others but those that did before. */
  lemma ReplacedAwaitCleanup(v: Tables, cfg: Config, known: bool, paused: bool, nowTime: int)
    ensures var u := Updated(v, cfg, known, paused, nowTime);
      u.toCleanup == v.toCleanup + (if known then TasksIn(v.tasks, Reachable(v.tasks, cfg.configId)) else {}) &&
      forall n :: known && n in NamesFor(v.tasks, cfg.configId) ==>
        v.tasks[n].task in Stuck(u.toCleanup, cfg.configId)
  {
    ReachesItself(v.tasks, cfg.configId);
    forall n | known && n in NamesFor(v.tasks, cfg.configId)
      ensures v.tasks[n].task in TasksIn(v.tasks, Reachable(v.tasks, cfg.configId))
    {
      assert n in Reachable(v.tasks, cfg.configId);
    }
  }

  /** A task of the split whose name is free gets a timer of its own that does not run yet. */
  lemma NewTasksWait(v: Tables, cfg: Config, known: bool, paused: bool, nowTime: int, n: Name)
    requires Agree(v) && IsSplit(cfg) && n in cfg.split && n !in Cleared(v, cfg.configId, known).tasks
    ensures var u := Updated(v, cfg, known, paused, nowTime);
      var task := Replacing(v, cfg, known, nowTime)[n];
      n in u.tasks && u.tasks[n].task == task && n in u.loopingCalls && u.loopingCalls[n].task == task &&
      task !in u.running
  {
    var left := Cleared(v, cfg.configId, known);
    if known { WithoutAgrees(v, Reachable(v.tasks, cfg.configId)); }
    assert Agree(left);
    assert forall m :: m in left.tasks ==> left.tasks[m].task.name == m;
  }

  /** A task that is replaced by one of the same name, which was to run next at `nextRun`. */
  predicate IsReplaced(v: Tables, cfg: Config, n: Name, nextRun: int) {
    n in cfg.split && n in NamesFor(v.tasks, cfg.configId) &&
    n in v.loopingCalls && v.loopingCalls[n].nextExpected == Some(nextRun) && nextRun != 0
  }

  function Later(a: int, b: int): int {
    if a <= b then b else a
  }

  lemma ReplacedIsNew(v: Tables, cfg: Config, n: Name, nextRun: int, nowTime: int, start: Start, now: bool)
    requires IsSplit(cfg) && IsReplaced(v, cfg, n, nextRun)
    requires StartsAsAsked(start, Replacing(v, cfg, true, nowTime)[n], now)
    ensures n !in Cleared(v, cfg.configId, true).tasks
    ensures start.name == n && start.configId == cfg.configId && nowTime + start.wait == Later(nowTime, nextRun)
  {
    ReachesItself(v.tasks, cfg.configId);
    assert n in Reachable(v.tasks, cfg.configId);
  }

  /**
   * When a replaced task runs on its old schedule. The first attempt to start the
   * new task comes when the old one was to run, or at once if that is past. On
   * every run from the update to that attempt, it starts the new task if and only
   * if every task of the config that awaited cleanup after the update, the
   * replaced ones included, has been cleaned up by then; else it is put off.
   */
  lemma StartsOnScheduleIff(
    v: Tables, cfg: Config, paused: bool, nowTime: int, n: Name, nextRun: int, start: Start, now: bool,
    es: seq<Event>, choice: Choice)
    requires Agree(v) && IsSplit(cfg) && IsReplaced(v, cfg, n, nextRun)
    requires StartsAsAsked(start, Replacing(v, cfg, true, nowTime)[n], now)
    requires var u, task := Updated(v, cfg, true, paused, nowTime), Replacing(v, cfg, true, nowTime)[n];
      Allowed(u, start, task, es) && Tries(es) == 0 && task !in Run(u, start, es).v.running
    ensures nowTime + start.wait == Later(nowTime, nextRun)
    ensures var u, task := Updated(v, cfg, true, paused, nowTime), Replacing(v, cfg, true, nowTime)[n];
      var before, after := Run(u, start, es), Run(u, start, es + [Try(choice)]);
      var cleaned := Stuck(u.toCleanup, cfg.configId) !! before.v.toCleanup;
      v.tasks[n].task in Stuck(u.toCleanup, cfg.configId) &&
      (task in after.v.running <==> cleaned) && (after.pending == None <==> cleaned)
  {
    var u, task := Updated(v, cfg, true, paused, nowTime), Replacing(v, cfg, true, nowTime)[n];
    ReplacedIsNew(v, cfg, n, nextRun, nowTime, start, now);
    NewTasksWait(v, cfg, true, paused, nowTime, n);
    ReplacedAwaitCleanup(v, cfg, true, paused, nowTime);
    FirstAttemptStartsIff(u, start, task, es, choice);
  }

  /** While the update has only just been made the old tasks await cleanup: a replaced task that is due is put off. */
  lemma DueTaskIsPutOff(
    v: Tables, cfg: Config, paused: bool, nowTime: int, n: Name, nextRun: int, start: Start, now: bool, choice: Choice)
    requires Agree(v) && IsSplit(cfg) && IsReplaced(v, cfg, n, nextRun) && nextRun <= nowTime
    requires StartsAsAsked(start, Replacing(v, cfg, true, nowTime)[n], now)
    ensures var u := Updated(v, cfg, true, paused, nowTime);
      start.wait == 0 && Attempted(u, start, choice).1 == Some(PutOff(start, choice.draw)) &&
      Replacing(v, cfg, true, nowTime)[n] !in Attempted(u, start, choice).0.running
  {
    ReplacedIsNew(v, cfg, n, nextRun, nowTime, start, now);
    NewTasksWait(v, cfg, true, paused, nowTime, n);
    ReplacedAwaitCleanup(v, cfg, true, paused, nowTime);
    assert v.tasks[n].task in Stuck(Updated(v, cfg, true, paused, nowTime).toCleanup, cfg.configId);
  }

  /**
   * However cleanup goes, the replaced task starts: with m tasks of its config
   * awaiting cleanup after the update, and none joining them, its timer starts
   * after at most 4m + 1 attempts that are put off, by at most half an interval each.
   */
  lemma ReplacedTaskStarts(
    v: Tables, cfg: Config, paused: bool, nowTime: int, n: Name, nextRun: int, start: Start, now: bool, es: seq<Event>)
    requires Agree(v) && IsSplit(cfg) && IsReplaced(v, cfg, n, nextRun)
    requires StartsAsAsked(start, Replacing(v, cfg, true, nowTime)[n], now)
    requires Allowed(Updated(v, cfg, true, paused, nowTime), start, Replacing(v, cfg, true, nowTime)[n], es)
    ensures var u := Updated(v, cfg, true, paused, nowTime);
      var p, bound := Run(u, start, es), Bound(|Stuck(u.toCleanup, cfg.configId)|);
      bound >= 5 && |p.putOff| <= bound &&
      (p.pending.Some? ==>
        nowTime + p.pending.value.delayed <= Later(nowTime, nextRun) + bound * (start.interval / 2)) &&
      (Tries(es) > bound ==> Replacing(v, cfg, true, nowTime)[n] in p.v.running)
  {
    var u, task := Updated(v, cfg, true, paused, nowTime), Replacing(v, cfg, true, nowTime)[n];
    ReplacedIsNew(v, cfg, n, nextRun, nowTime, start, now);
    NewTasksWait(v, cfg, true, paused, nowTime, n);
    ReplacedAwaitCleanup(v, cfg, true, paused, nowTime);
    assert v.tasks[n].task in Stuck(u.toCleanup, cfg.configId);
    TimerStarts(u, start, task, es);
  }

  // ----- A concrete update -----

  const OLD_TASK := Task("t", "dev", 300, [], None, "before", 0)
  const NEW_TASK := OLD_TASK.(serial := 1)

  /** A device with one task that has been idle since it last ran and is due at time 1000. */
  const BEFORE := Tables(
    map["t" := Entry(OLD_TASK, false)], map["t" := LoopingCall(OLD_TASK, Some(1000))],
    map["t" := TaskStats(1, 0, 0)], {}, {OLD_TASK})

  /** Updated at time 1000, the device's task is due at once, and yet its first attempt to start is put off. */
  lemma UpdateDelaysDueTask(choice: Choice)
    ensures var cfg := Config("dev", "dev", map["t" := NEW_TASK]);
      var task := NEW_TASK.(startDelay := Some(0));
      var u := Updated(BEFORE, cfg, true, false, 1000);
      var start := Start("t", 300, "dev", 0, 0, 0);
      Agree(BEFORE) && u.tasks == map["t" := Entry(task, false)] && u.toCleanup == {OLD_TASK} &&
      StartsAsAsked(start, task, true) &&
      Attempted(u, start, choice).1.Some? && task !in Attempted(u, start, choice).0.running
  {
    var cfg := Config("dev", "dev", map["t" := NEW_TASK]);
    var task := NEW_TASK.(startDelay := Some(0));
    assert BEFORE.tasks["t"].task == OLD_TASK;
    assert NamesFor(BEFORE.tasks, "dev") == {"t"};
    assert Replacing(BEFORE, cfg, true, 1000) == map["t" := task];
    ReachesItself(BEFORE.tasks, "dev");
    assert Reachable(BEFORE.tasks, "dev") == {"t"};
    assert TasksIn(BEFORE.tasks, {"t"}) == {OLD_TASK};
    DueTaskIsPutOff(BEFORE, cfg, false, 1000, "t", 1000, Start("t", 300, "dev", 0, 0, 0), true, choice);
    assert Updated(BEFORE, cfg, true, false, 1000).tasks == map["t" := Entry(task, false)];
  }
}
