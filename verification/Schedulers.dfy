/** The scheduler: tables of tasks, their looping calls and statistics, updated side by side. */
module Schedulers {
  import opened Wrappers
  import opened Sequences
  import opened TaskTables
  import opened TaskStart

  /** The timer of a task; whether it is running is kept in the scheduler's `running`. */
  datatype LoopingCall = LoopingCall(task: Task, nextExpected: Option<int>)

  datatype TaskStats = TaskStats(totalRuns: nat, failedRuns: nat, missedRuns: nat)

  datatype SchedulerError = AlreadyExists

  /** Whether a task stops in a phase of the shutdown; an unknown stop phase stops in any. */
  predicate StopsIn(task: Task, phase: string) {
    !(task.stopPhase in {"before", "after", "during"} && task.stopPhase != phase)
  }

  function Stopping(tasks: Table, phase: string): set<Name> {
    set n | n in tasks && StopsIn(tasks[n].task, phase)
  }

  /** The shutdown's phases together stop every task, and each task in one of them. */
  lemma PhasesStopAll(tasks: Table)
    ensures Stopping(tasks, "before") + Stopping(tasks, "during") + Stopping(tasks, "after") == tasks.Keys
    ensures forall phase, other, n :: phase != other && n in Stopping(tasks, phase) && n in Stopping(tasks, other) ==>
      tasks[n].task.stopPhase !in {"before", "during", "after"}
  {
  }

  /** What the scheduler keeps about its tasks. */
  datatype Tables = Tables(
    tasks: Table, loopingCalls: map<Name, LoopingCall>, taskStats: map<Name, TaskStats>,
    toCleanup: set<Task>, running: set<Task>)

  /** The three tables agree, and only scheduled tasks have running timers. */
  ghost predicate Agree(v: Tables) {
    v.tasks.Keys == v.loopingCalls.Keys && v.tasks.Keys == v.taskStats.Keys &&
    (forall n :: n in v.tasks ==> v.tasks[n].task.name == n && v.loopingCalls[n].task == v.tasks[n].task) &&
    v.running <= TasksIn(v.tasks, v.tasks.Keys)
  }

  /** What a removal of exactly the given tasks leaves. */
  function Without(v: Tables, doomed: set<Name>): Tables {
    Tables(v.tasks - doomed, v.loopingCalls - doomed, v.taskStats - doomed,
           v.toCleanup + TasksIn(v.tasks, doomed), v.running - TasksIn(v.tasks, doomed))
  }

  /** What adding a task under an unused name leaves. */
  function WithTask(v: Tables, task: Task): Tables {
    v.(tasks := v.tasks[task.name := Entry(task, false)],
       loopingCalls := v.loopingCalls[task.name := LoopingCall(task, None)],
       taskStats := v.taskStats[task.name := TaskStats(0, 0, 0)])
  }

  function WithNextRun(v: Tables, name: Name, time: int): Tables {
    if name in v.loopingCalls then
      v.(loopingCalls := v.loopingCalls[name := v.loopingCalls[name].(nextExpected := Some(time))])
    else v
  }

  /** The random draw of an attempt to start, and the task whose cleanup it may force. */
  datatype Choice = Choice(draw: nat, forced: Option<Task>)

  predicate MayChoose(v: Tables, start: Start, choice: Choice) {
    choice.draw <= start.interval / 2 &&
    (ForcesCleanup(start) && Stuck(v.toCleanup, start.configId) != {} ==>
      choice.forced.Some? && choice.forced.value in Stuck(v.toCleanup, start.configId))
  }

  /** Any delay up to half the interval may be drawn, and a forced cleanup may take any task that awaits it. */
  lemma AnyChoice(v: Tables, start: Start, draw: nat)
    ensures 2 * draw <= start.interval && start.attempts <= 3 ==> MayChoose(v, start, Choice(draw, None))
    ensures 2 * draw <= start.interval ==>
      forall t :: t in v.toCleanup && t.configId == start.configId ==> MayChoose(v, start, Choice(draw, Some(t)))
    ensures 2 * draw > start.interval ==> forall forced :: !MayChoose(v, start, Choice(draw, forced))
    ensures start.attempts > 3 ==> forall forced ::
      MayChoose(v, start, Choice(draw, forced)) && (exists t :: t in v.toCleanup && t.configId == start.configId) ==>
        forced.Some? && forced.value in v.toCleanup && forced.value.configId == start.configId
  {
    if t :| t in v.toCleanup && t.configId == start.configId { assert t in Stuck(v.toCleanup, start.configId); }
  }

  lemma StuckIs(toCleanup: set<Task>, c: ConfigId)
    ensures Stuck(toCleanup, c) == {} <==> forall t :: t in toCleanup ==> t.configId != c
  {
    if t :| t in toCleanup && t.configId == c { assert t in Stuck(toCleanup, c); }
  }

  predicate IsWaiting(v: Tables, start: Start) {
    start.name in v.loopingCalls && v.loopingCalls[start.name].task !in v.running
  }

  /** `_startTask`: the tables after an attempt, and the start that is put off, if it is. */
  function Attempted(v: Tables, start: Start, choice: Choice): (Tables, Option<Start>) {
    if !IsWaiting(v, start) then (v, None)
    else if Stuck(v.toCleanup, start.configId) == {} then
      (v.(running := v.running + {v.loopingCalls[start.name].task}), None)
    else
      var released := if ForcesCleanup(start) && choice.forced.Some? then {choice.forced.value} else {};
      (v.(toCleanup := v.toCleanup - released), Some(PutOff(start, choice.draw)))
  }

  lemma WithoutAgrees(v: Tables, doomed: set<Name>)
    requires Agree(v)
    ensures Agree(Without(v, doomed))
  {
    RunningLeft(v.tasks, doomed);
  }

  lemma WithoutTwice(v: Tables, a: set<Name>, b: set<Name>)
    requires a <= v.tasks.Keys && b <= v.tasks.Keys - a
    ensures Without(Without(v, a), b) == Without(v, a + b)
  {
    assert v.tasks - a - b == v.tasks - (a + b);
    assert v.loopingCalls - a - b == v.loopingCalls - (a + b);
    assert v.taskStats - a - b == v.taskStats - (a + b);
    assert TasksIn(v.tasks, a) + TasksIn(v.tasks - a, b) == TasksIn(v.tasks, a + b);
    assert v.toCleanup + TasksIn(v.tasks, a) + TasksIn(v.tasks - a, b) == v.toCleanup + TasksIn(v.tasks, a + b);
    assert v.running - TasksIn(v.tasks, a) - TasksIn(v.tasks - a, b) == v.running - TasksIn(v.tasks, a + b);
  }

  /** A removal that has gone through the child ids `seen`. */
  ghost predicate Removing(v0: Tables, names: seq<Name>, seen: set<ConfigId>, v: Tables) {
    Sweeping(v0.tasks, Members(names), seen, v.tasks) && v == Without(v0, v0.tasks.Keys - v.tasks.Keys)
  }

  lemma RemovalStarts(v0: Tables, names: seq<Name>)
    requires Members(names) <= v0.tasks.Keys
    ensures Removing(v0, names, {}, Without(v0, Members(names)))
  {
    SweepStarts(v0.tasks, Members(names));
  }

  lemma WithoutMore(v0: Tables, v: Tables, more: set<Name>)
    requires v == Without(v0, v0.tasks.Keys - v.tasks.Keys) && more <= v.tasks.Keys && v.tasks.Keys <= v0.tasks.Keys
    ensures Without(v, more) == Without(v0, v0.tasks.Keys - Without(v, more).tasks.Keys)
  {
    WithoutTwice(v0, v0.tasks.Keys - v.tasks.Keys, more);
    KeysGone(v0.tasks, v.tasks, more);
  }

  lemma RemovalGoesOn(v0: Tables, names: seq<Name>, seen: set<ConfigId>, v: Tables, c: ConfigId)
    requires Removing(v0, names, seen, v)
    requires exists m :: m in Members(names) && m in v0.tasks && c in v0.tasks[m].task.childIds
    ensures Removing(v0, names, seen + {c}, Without(v, Reachable(v.tasks, c)))
    ensures |v.tasks| < |v0.tasks|
  {
    SweepOneMore(v0.tasks, Members(names), seen, v.tasks, c);
    WithoutMore(v0, v, Reachable(v.tasks, c));
    var m :| m in Members(names) && m in v0.tasks && c in v0.tasks[m].task.childIds;
    SmallerTable(v0.tasks, v.tasks, m);
  }

  lemma RemovalEnds(v0: Tables, names: seq<Name>, seen: set<ConfigId>, v: Tables)
    requires Removing(v0, names, seen, v) && Members(names) <= v0.tasks.Keys
    requires forall m, c :: m in Members(names) && c in v0.tasks[m].task.childIds ==> c in seen
    ensures v == Without(v0, Doomed(v0.tasks, Members(names)))
  {
    SweptAll(v0.tasks, Members(names), seen, v.tasks);
    assert v0.tasks.Keys - v.tasks.Keys == Doomed(v0.tasks, Members(names));
  }

  class Scheduler {
    var tasks: Table
    var loopingCalls: map<Name, LoopingCall>
    var taskStats: map<Name, TaskStats>
    var callbacks: set<Name>       // the names with a completion callback, never forgotten
    var toCleanup: set<Task>
    var running: set<Task>         // the tasks whose timers run
    var shuttingDown: bool

    ghost function View(): Tables
      reads this
    {
      Tables(tasks, loopingCalls, taskStats, toCleanup, running)
    }

    ghost predicate Valid()
      reads this
    {
      Agree(View()) && tasks.Keys <= callbacks
    }

    constructor ()
      ensures Valid() && tasks == map[] && toCleanup == {} && running == {} && !shuttingDown
    {
      tasks, loopingCalls, taskStats := map[], map[], map[];
      callbacks, toCleanup, running, shuttingDown := {}, {}, {}, false;
    }

    method AddTask(newTask: Task, now: bool) returns (r: Result<Start, SchedulerError>)
      requires Valid()
      modifies this`tasks, this`loopingCalls, this`taskStats, this`callbacks
      ensures Valid()
      ensures if newTask.name in old(tasks) then
          r == Err(AlreadyExists) && View() == old(View()) && callbacks == old(callbacks)
        else
          r.Ok? && StartsAsAsked(r.value, newTask, now) && View() == WithTask(old(View()), newTask) &&
          callbacks == old(callbacks) + {newTask.name}
      ensures r.Ok? ==>
        if newTask.startDelay.Some? then r.value.wait == newTask.startDelay.value
        else if now then r.value.wait == 0 else 2 * r.value.wait <= newTask.interval
    {
      if newTask.name in tasks { return Err(AlreadyExists); }
      loopingCalls := loopingCalls[newTask.name := LoopingCall(newTask, None)];
      tasks := tasks[newTask.name := Entry(newTask, false)];
      callbacks := callbacks + {newTask.name};
      taskStats := taskStats[newTask.name := TaskStats(0, 0, 0)];
      var startDelay: nat;
      match newTask.startDelay {
        case Some(d) => startDelay := d;
        case None =>
          if now {
            startDelay := 0;
          } else {
            var draw :| 0 <= draw <= newTask.interval / 2;
            startDelay := draw;
          }
      }
      RunningKept(old(tasks), tasks, newTask.name);
      return Ok(Start(newTask.name, newTask.interval, newTask.configId, startDelay, 0, startDelay));
    }

    method RemoveTasks(names: seq<Name>)
      requires Valid()
      requires Members(names) <= tasks.Keys
      requires forall i, j :: 0 <= i < j < |names| ==> names[i] != names[j]
      modifies this`tasks, this`loopingCalls, this`taskStats, this`toCleanup, this`running
      ensures Valid() && View() == Without(old(View()), Doomed(old(tasks), Members(names)))
      decreases |tasks|, 1
    {
      var childIds := RemoveThese(names);
      RemovalStarts(old(View()), names);
      RemoveChildren(old(View()), names, childIds);
    }

    /** Removes the tasks of the collected child ids one id at a time. */
    method RemoveChildren(ghost v0: Tables, names: seq<Name>, childIds: seq<ConfigId>)
      requires Valid() && Removing(v0, names, {}, View()) && Members(names) <= v0.tasks.Keys
      requires forall c :: c in childIds <==> exists m :: m in Members(names) && c in v0.tasks[m].task.childIds
      modifies this`tasks, this`loopingCalls, this`taskStats, this`toCleanup, this`running
      ensures Valid() && View() == Without(v0, Doomed(v0.tasks, Members(names)))
      decreases |v0.tasks|, 0
    {
      for i := 0 to |childIds|
        invariant Valid() && Removing(v0, names, Members(childIds[..i]), View())
      {
        assert childIds[i] in childIds;
        MembersEnd(childIds, i);
        RemovalGoesOn(v0, names, Members(childIds[..i]), View(), childIds[i]);
        RemoveTasksForConfig(childIds[i]);
      }
      assert childIds[..|childIds|] == childIds;
      RemovalEnds(v0, names, Members(childIds), View());
    }

    /** Both passes over the given tasks; their children are still to be removed. */
    method RemoveThese(names: seq<Name>) returns (childIds: seq<ConfigId>)
      requires Valid() && Members(names) <= tasks.Keys
      requires forall i, j :: 0 <= i < j < |names| ==> names[i] != names[j]
      modifies this`tasks, this`loopingCalls, this`taskStats, this`toCleanup, this`running
      ensures Valid() && View() == Without(old(View()), Members(names))
      ensures forall c :: c in childIds <==> exists m :: m in Members(names) && c in old(tasks)[m].task.childIds
    {
      childIds := StopTasks(names);
      DropTasks(names);
      WithoutAgrees(old(View()), Members(names));
    }

    /** The first pass of a removal: stop the timers and collect the child ids. */
    method StopTasks(names: seq<Name>) returns (childIds: seq<ConfigId>)
      requires Valid() && Members(names) <= tasks.Keys
      modifies this`running
      ensures running == old(running) - TasksIn(tasks, Members(names))
      ensures forall c :: c in childIds <==> exists m :: m in Members(names) && c in tasks[m].task.childIds
    {
      childIds := [];
      for i := 0 to |names|
        invariant running == old(running) - TasksIn(tasks, Members(names[..i]))
        invariant forall c :: c in childIds <==> exists m :: m in Members(names[..i]) && c in tasks[m].task.childIds
      {
        MembersEnd(names, i);
        assert names[i] in Members(names);
        var task := tasks[names[i]].task;
        childIds := childIds + task.childIds;
        running := running - {task};
      }
      assert names[..|names|] == names;
    }

    /** The second pass: move the tasks from the tables to the cleanup set. */
    method DropTasks(names: seq<Name>)
      requires Members(names) <= tasks.Keys
      requires forall i, j :: 0 <= i < j < |names| ==> names[i] != names[j]
      modifies this`tasks, this`loopingCalls, this`taskStats, this`toCleanup
      ensures tasks == old(tasks) - Members(names) && loopingCalls == old(loopingCalls) - Members(names)
      ensures taskStats == old(taskStats) - Members(names)
      ensures toCleanup == old(toCleanup) + TasksIn(old(tasks), Members(names))
    {
      for i := 0 to |names|
        invariant tasks == old(tasks) - Members(names[..i]) && loopingCalls == old(loopingCalls) - Members(names[..i])
        invariant taskStats == old(taskStats) - Members(names[..i])
        invariant toCleanup == old(toCleanup) + TasksIn(old(tasks), Members(names[..i]))
      {
        MembersEnd(names, i);
        assert names[i] in Members(names) && names[i] !in Members(names[..i]);
        toCleanup := toCleanup + {tasks[names[i]].task};
        loopingCalls := loopingCalls - {names[i]};
        tasks := tasks - {names[i]};
        taskStats := taskStats - {names[i]};
      }
      assert names[..|names|] == names;
    }

    method RemoveTasksForConfig(configId: ConfigId)
      requires Valid()
      modifies this`tasks, this`loopingCalls, this`taskStats, this`toCleanup, this`running
      ensures Valid() && View() == Without(old(View()), Reachable(old(tasks), configId))
      decreases |tasks|, 2
    {
      var names := TaskNamesFor(configId);
      DoomedByConfig(tasks, configId);
      RemoveTasks(names);
    }

    /** The names of the tasks of a config, in the order in which the table happens to list them. */
    method TaskNamesFor(configId: ConfigId) returns (names: seq<Name>)
      ensures Members(names) == NamesFor(tasks, configId)
      ensures forall i, j :: 0 <= i < j < |names| ==> names[i] != names[j]
    {
      names := [];
      var todo := tasks.Keys;
      while todo != {}
        invariant todo <= tasks.Keys
        invariant Members(names) == NamesFor(tasks, configId) - todo
        invariant forall i, j :: 0 <= i < j < |names| ==> names[i] != names[j]
      {
        var n :| n in todo;
        todo := todo - {n};
        if tasks[n].task.configId == configId {
          assert n !in Members(names);
          assert Members(names + [n]) == Members(names) + {n};
          names := names + [n];
        }
      }
    }

    /** Removes the tasks that stop in this phase; their children are left to stop on their own. */
    method Shutdown(phase: string)
      requires Valid()
      modifies this`tasks, this`loopingCalls, this`taskStats, this`toCleanup, this`running, this`shuttingDown
      ensures Valid() && shuttingDown
      ensures View() == Without(old(View()), Stopping(old(tasks), phase))
      ensures forall n :: n in old(tasks) ==>
        (n !in tasks <==> old(tasks)[n].task.stopPhase == phase ||
                          old(tasks)[n].task.stopPhase !in {"before", "during", "after"})
    {
      shuttingDown := true;
      var doomed := TaskNamesStopping(phase);
      var childIds := RemoveThese(doomed);
    }

    method TaskNamesStopping(phase: string) returns (names: seq<Name>)
      ensures Members(names) == Stopping(tasks, phase)
      ensures forall i, j :: 0 <= i < j < |names| ==> names[i] != names[j]
    {
      names := [];
      var todo := tasks.Keys;
      while todo != {}
        invariant todo <= tasks.Keys && Members(names) == Stopping(tasks, phase) - todo
        invariant forall i, j :: 0 <= i < j < |names| ==> names[i] != names[j]
      {
        var n :| n in todo;
        todo := todo - {n};
        if StopsIn(tasks[n].task, phase) {
          assert n !in Members(names);
          assert Members(names + [n]) == Members(names) + {n};
          names := names + [n];
        }
      }
    }

    method CleanupTaskComplete(task: Task)
      requires Valid()
      modifies this`toCleanup
      ensures Valid() && toCleanup == old(toCleanup) - {task}
    {
      toCleanup := toCleanup - {task};
    }

    /**
     * An attempt to start a task's timer. It does nothing for a task that is
     * gone or whose timer runs, is put off while tasks of the config await
     * cleanup, and otherwise starts the timer.
     */
    method StartTask(start: Start) returns (next: Option<Start>, ghost choice: Choice)
      requires Valid()
      modifies this`running, this`toCleanup
      ensures Valid() && MayChoose(old(View()), start, choice)
      ensures (View(), next) == Attempted(old(View()), start, choice)
      ensures next.Some? ==>
        2 * next.value.wait <= start.interval &&
        next.value == Start(start.name, start.interval, start.configId, start.delayed + next.value.wait,
                            if start.attempts > 3 then 1 else start.attempts + 1, next.value.wait)
      ensures next.Some? <==>
        start.name in loopingCalls && loopingCalls[start.name].task !in old(running) &&
        exists t :: t in old(toCleanup) && t.configId == start.configId
    {
      StuckIs(toCleanup, start.configId);
      choice := Choice(0, None);
      if ForcesCleanup(start) && Stuck(toCleanup, start.configId) != {} {
        ghost var some :| some in Stuck(toCleanup, start.configId);
        choice := Choice(0, Some(some));
      }
      if start.name !in loopingCalls { return None, choice; }
      var loopingCall := loopingCalls[start.name];
      if loopingCall.task in running { return None, choice; }
      if Stuck(toCleanup, start.configId) != {} {
        var draw: nat :| draw <= start.interval / 2;
        choice := Choice(draw, None);
        assert toCleanup - {} == toCleanup;
        var attempts := start.attempts;
        if attempts > ATTEMPTS {
          var obj :| obj in Stuck(toCleanup, start.configId);
          choice := Choice(draw, Some(obj));
          toCleanup := toCleanup - {obj};
          attempts := 0;
        }
        attempts := attempts + 1;
        next := Some(Start(start.name, start.interval, start.configId, start.delayed + draw, attempts, draw));
      } else {
        next := None;
        running := running + {loopingCall.task};
      }
    }

    method SetNextExpectedRun(name: Name, interval: nat, now: int)
      requires Valid()
      modifies this`loopingCalls
      ensures Valid() && View() == WithNextRun(old(View()), name, now + interval)
    {
      if name in loopingCalls {
        loopingCalls := loopingCalls[name := loopingCalls[name].(nextExpected := Some(now + interval))];
      }
    }

    method PauseTasksForConfig(configId: ConfigId)
      requires Valid()
      modifies this`tasks
      ensures Valid() && tasks == WithPaused(old(tasks), configId, true)
    {
      SetPaused(configId, true);
    }

    method ResumeTasksForConfig(configId: ConfigId)
      requires Valid()
      modifies this`tasks
      ensures Valid() && tasks == WithPaused(old(tasks), configId, false)
    {
      SetPaused(configId, false);
    }

    method SetPaused(configId: ConfigId, paused: bool)
      requires Valid()
      modifies this`tasks
      ensures Valid() && tasks == WithPaused(old(tasks), configId, paused)
    {
      var todo := tasks.Keys;
      while todo != {}
        invariant todo <= tasks.Keys && tasks.Keys == old(tasks).Keys
        invariant forall n :: n in tasks ==>
          tasks[n] == if n in todo then old(tasks)[n] else WithPaused(old(tasks), configId, paused)[n]
      {
        var n :| n in todo;
        todo := todo - {n};
        if tasks[n].task.configId == configId {
          tasks := tasks[n := tasks[n].(paused := paused)];
        }
      }
      SameTasks(old(tasks), tasks);
    }
  }

  lemma RunningLeft(tasks: Table, gone: set<Name>)
    ensures TasksIn(tasks, tasks.Keys) - TasksIn(tasks, gone) <= TasksIn(tasks - gone, (tasks - gone).Keys)
  {
    forall t | t in TasksIn(tasks, tasks.Keys) - TasksIn(tasks, gone)
      ensures t in TasksIn(tasks - gone, (tasks - gone).Keys)
    {
      var n :| n in tasks && tasks[n].task == t;
      assert n !in gone && (tasks - gone)[n].task == t;
    }
  }

  lemma SmallerTable(tasks: Table, left: Table, gone: Name)
    requires gone in tasks && left.Keys <= tasks.Keys - {gone}
    ensures |left| < |tasks|
  {
    assert left.Keys < tasks.Keys;
    SmallerSet(left.Keys, tasks.Keys);
  }

  lemma SmallerSet(a: set<Name>, b: set<Name>)
    requires a < b
    ensures |a| < |b|
  {
    var x :| x in b && x !in a;
    assert |b - a| + |a| == |b| by { assert b == (b - a) + a; }
    assert x in b - a;
  }

  lemma SameTasks(a: Table, b: Table)
    requires a.Keys == b.Keys && forall n :: n in a ==> a[n].task == b[n].task
    ensures TasksIn(a, a.Keys) == TasksIn(b, b.Keys)
  {
  }

  lemma RunningKept(a: Table, b: Table, name: Name)
    requires name !in a && name in b && b == a[name := b[name]]
    ensures TasksIn(a, a.Keys) <= TasksIn(b, b.Keys)
  {
    forall n | n in a
      ensures b[n].task == a[n].task && n in b
    {
    }
  }

  /** A start that is asked for is one of the task's own, and no longer off than half its interval. */
  lemma AnyDelay(task: Task, wait: nat, now: bool)
    ensures var start := Start(task.name, task.interval, task.configId, wait, 0, wait);
      StartsAsAsked(start, task, now) <==>
        if task.startDelay.Some? then wait == task.startDelay.value
        else if now then wait == 0 else 2 * wait <= task.interval
    ensures forall start: Start :: StartsAsAsked(start, task, now) ==>
      start == Start(task.name, task.interval, task.configId, start.wait, 0, start.wait)
  {
  }

  /** The delay before a task's timer starts. */
  predicate StartsAsAsked(start: Start, task: Task, now: bool) {
    start.name == task.name && start.interval == task.interval && start.configId == task.configId &&
    start.attempts == 0 && start.wait == start.delayed &&
    match task.startDelay
    case Some(d) => start.wait == d
    case None => if now then start.wait == 0 else start.wait <= task.interval / 2
  }
}
