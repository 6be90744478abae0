/**
 * What becomes of the start of a task's timer: attempts follow each other, and
 * between them the rest of the scheduler does as it likes, as long as it neither
 * removes the task nor puts further tasks of its config up for cleanup.
 */
module StartRuns {
  import opened Wrappers
  import opened Sequences
  import opened TaskTables
  import opened TaskStart
  import opened Schedulers

  datatype Event =
    | Try(choice: Choice)         // the delay has passed: `_startTask`
    | Cleaned(task: Task)         // `_cleanupTaskComplete`
    | Elsewhere(after: Tables)    // anything else the scheduler does

  /** The tables, the start that is pending, and the attempts that were put off. */
  datatype Progress = Progress(v: Tables, pending: Option<Start>, putOff: seq<Attempt>)

  function Begun(v: Tables, start: Start): Progress {
    Progress(v, Some(start), [])
  }

  function Next(p: Progress, e: Event): Progress {
    match e
    case Try(choice) =>
      if p.pending == None then p
      else
        var start := p.pending.value;
        var (v, next) := Attempted(p.v, start, choice);
        Progress(v, next,
          if next == None then p.putOff
          else p.putOff + [Attempt(|Stuck(p.v.toCleanup, start.configId)|, start, choice.draw)])
    case Cleaned(task) => p.(v := p.v.(toCleanup := p.v.toCleanup - {task}))
    case Elsewhere(after) => p.(v := after)
  }

  /** The named task is scheduled, and its timer is not stopped from `v` to `after`. */
  predicate KeepsTask(v: Tables, after: Tables, name: Name, task: Task) {
    name in after.loopingCalls && after.loopingCalls[name].task == task && (task in v.running ==> task in after.running)
  }

  predicate IsAllowed(p: Progress, e: Event, first: Start, task: Task) {
    match e
    case Try(choice) => p.pending.Some? ==> MayChoose(p.v, p.pending.value, choice)
    case Cleaned(_) => true
    case Elsewhere(after) =>
      Stuck(after.toCleanup, first.configId) <= Stuck(p.v.toCleanup, first.configId) &&
      KeepsTask(p.v, after, first.name, task)
  }

  function Run(v: Tables, first: Start, es: seq<Event>): Progress {
    if es == [] then Begun(v, first) else Next(Run(v, first, es[..|es| - 1]), es[|es| - 1])
  }

  predicate Allowed(v: Tables, first: Start, task: Task, es: seq<Event>) {
    es == [] ||
    (var n := |es| - 1;
     Allowed(v, first, task, es[..n]) && IsAllowed(Run(v, first, es[..n]), es[n], first, task))
  }

  function Tries(es: seq<Event>): nat {
    if es == [] then 0 else Tries(es[..|es| - 1]) + if es[|es| - 1].Try? then 1 else 0
  }

  // ----- What every step keeps -----

  /** The attempts put off so far follow each other and lead to the start that is pending. */
  ghost predicate Follows(p: Progress, first: Start, task: Task, stuck0: nat) {
    AllPutOff(p.putOff) &&
    first.name in p.v.loopingCalls && p.v.loopingCalls[first.name].task == task &&
    (p.putOff != [] ==> p.putOff[0].start == first && p.putOff[0].stuck <= stuck0) &&
    (p.pending == None ==> task in p.v.running) &&
    (p.pending.Some? ==> IsPending(p, first, stuck0))
  }

  ghost predicate IsPending(p: Progress, first: Start, stuck0: nat)
    requires p.pending.Some? && AllPutOff(p.putOff)
  {
    var now, start := |Stuck(p.v.toCleanup, first.configId)|, p.pending.value;
    start.name == first.name && start.configId == first.configId && start.interval == first.interval &&
    if p.putOff == [] then start == first && now <= stuck0
    else
      var last := p.putOff[|p.putOff| - 1];
      start == PutOff(last.start, last.draw) && now <= StuckAfter(last)
  }

  lemma FewerStuck(a: set<Task>, b: set<Task>)
    requires a <= b
    ensures |a| <= |b|
  {
    assert b == a + (b - a);
  }

  lemma StuckShrinks(toCleanup: set<Task>, gone: set<Task>, c: ConfigId)
    ensures Stuck(toCleanup - gone, c) == Stuck(toCleanup, c) - gone
    ensures |Stuck(toCleanup - gone, c)| <= |Stuck(toCleanup, c)|
    ensures forall t :: t in Stuck(toCleanup, c) && gone == {t} ==>
      |Stuck(toCleanup - gone, c)| == |Stuck(toCleanup, c)| - 1
  {
    FewerStuck(Stuck(toCleanup, c) - gone, Stuck(toCleanup, c));
    assert Stuck(toCleanup - gone, c) == Stuck(toCleanup, c) - gone;
    forall t | t in Stuck(toCleanup, c) && gone == {t}
      ensures |Stuck(toCleanup - gone, c)| == |Stuck(toCleanup, c)| - 1
    {
      assert Stuck(toCleanup, c) == (Stuck(toCleanup, c) - {t}) + {t};
    }
  }

  lemma OneMorePutOff(trace: seq<Attempt>, a: Attempt)
    requires AllPutOff(trace) && a.stuck > 0 && a.draw <= a.start.interval / 2
    requires trace != [] ==>
      a.start == PutOff(trace[|trace| - 1].start, trace[|trace| - 1].draw) && a.stuck <= StuckAfter(trace[|trace| - 1])
    ensures AllPutOff(trace + [a])
  {
  }

  lemma TryFollows(p: Progress, first: Start, task: Task, stuck0: nat, choice: Choice)
    requires Follows(p, first, task, stuck0) && IsAllowed(p, Try(choice), first, task)
    ensures Follows(Next(p, Try(choice)), first, task, stuck0)
  {
    if p.pending.Some? {
      var start := p.pending.value;
      var (v, next) := Attempted(p.v, start, choice);
      if next.Some? {
        var a := Attempt(|Stuck(p.v.toCleanup, start.configId)|, start, choice.draw);
        OneMorePutOff(p.putOff, a);
        var gone := if ForcesCleanup(start) && choice.forced.Some? then {choice.forced.value} else {};
        StuckShrinks(p.v.toCleanup, gone, start.configId);
        assert p.v.toCleanup - {} == p.v.toCleanup;
      }
    }
  }

  lemma NextFollows(p: Progress, first: Start, task: Task, stuck0: nat, e: Event)
    requires Follows(p, first, task, stuck0) && IsAllowed(p, e, first, task)
    ensures Follows(Next(p, e), first, task, stuck0)
  {
    match e {
      case Try(choice) => TryFollows(p, first, task, stuck0, choice);
      case Cleaned(t) => StuckShrinks(p.v.toCleanup, {t}, first.configId);
      case Elsewhere(after) =>
        FewerStuck(Stuck(after.toCleanup, first.configId), Stuck(p.v.toCleanup, first.configId));
    }
  }

  /** On every run the attempts that are put off form a trace of the kind whose length is bounded. */
  lemma {:induction false} RunFollows(v: Tables, first: Start, task: Task, es: seq<Event>)
    requires first.name in v.loopingCalls && v.loopingCalls[first.name].task == task && Allowed(v, first, task, es)
    ensures Follows(Run(v, first, es), first, task, |Stuck(v.toCleanup, first.configId)|)
    ensures var p := Run(v, first, es);
      p.pending.Some? ==> Tries(es) == |p.putOff|
    ensures |Run(v, first, es).putOff| <= Tries(es)
  {
    if es != [] {
      var n := |es| - 1;
      RunFollows(v, first, task, es[..n]);
      NextFollows(Run(v, first, es[..n]), first, task, |Stuck(v.toCleanup, first.configId)|, es[n]);
    }
  }

  // ----- One attempt, and all of them -----

  /** Until the first attempt the start stays pending, and all along tasks of the config only leave the cleanup set. */
  lemma {:induction false} StuckOnlyLeave(v: Tables, first: Start, task: Task, es: seq<Event>)
    requires Allowed(v, first, task, es)
    ensures var p := Run(v, first, es);
      Stuck(p.v.toCleanup, first.configId) <= Stuck(v.toCleanup, first.configId) &&
      (Tries(es) == 0 ==> p.pending == Some(first) && p.putOff == [])
  {
    if es != [] {
      StuckOnlyLeave(v, first, task, es[..|es| - 1]);
    }
  }

  lemma TryNext(v: Tables, first: Start, task: Task, es: seq<Event>, choice: Choice)
    ensures Run(v, first, es + [Try(choice)]) == Next(Run(v, first, es), Try(choice))
  {
    assert (es + [Try(choice)])[..|es|] == es;
  }

  /**
   * On every run up to the first attempt that finds the timer waiting: the
   * attempt starts it if and only if every task of the config that awaited
   * cleanup at the outset has been cleaned up by then, and is put off otherwise.
   */
  lemma FirstAttemptStartsIff(v: Tables, first: Start, task: Task, es: seq<Event>, choice: Choice)
    requires first.name in v.loopingCalls && v.loopingCalls[first.name].task == task
    requires Allowed(v, first, task, es) && Tries(es) == 0 && task !in Run(v, first, es).v.running
    ensures var before, after := Run(v, first, es), Run(v, first, es + [Try(choice)]);
      var cleaned := Stuck(v.toCleanup, first.configId) !! before.v.toCleanup;
      (task in after.v.running <==> cleaned) && (after.pending == None <==> cleaned)
  {
    RunFollows(v, first, task, es);
    StuckOnlyLeave(v, first, task, es);
    TryNext(v, first, task, es, choice);
    var before := Run(v, first, es);
    AttemptStartsIff(before.v, first, choice);
    assert Stuck(before.v.toCleanup, first.configId) == {} <==>
      Stuck(v.toCleanup, first.configId) !! before.v.toCleanup;
  }

  /** An attempt for a task whose timer waits starts it exactly when no task of the config awaits cleanup just then. */
  lemma AttemptStartsIff(v: Tables, start: Start, choice: Choice)
    requires IsWaiting(v, start)
    ensures var (after, next) := Attempted(v, start, choice);
      (v.loopingCalls[start.name].task in after.running <==> Stuck(v.toCleanup, start.configId) == {}) &&
      (next == None <==> Stuck(v.toCleanup, start.configId) == {})
  {
  }

  /** How often a start may be put off with `stuck` tasks of its config awaiting cleanup. */
  function Bound(stuck: nat): (bound: nat)
    ensures stuck == 0 ==> bound == 0
    ensures stuck > 0 ==> bound == 4 * stuck + 1
  {
    if stuck == 0 then 0 else 4 * stuck + 1
  }

  lemma PutOffsBounded(p: Progress, first: Start, task: Task, stuck0: nat)
    requires Follows(p, first, task, stuck0) && first.attempts == 0
    ensures |p.putOff| <= Bound(stuck0)
    ensures p.pending.Some? ==> p.pending.value.delayed <= first.delayed + Bound(stuck0) * (first.interval / 2)
  {
    var half := first.interval / 2;
    if p.putOff != [] {
      PutOffBoundedly(p.putOff);
      LessTimes(4 * p.putOff[0].stuck + 1, Bound(stuck0), half);
    } else {
      LessTimes(0, Bound(stuck0), half);
    }
  }

  /**
   * A scheduled task whose config has m tasks awaiting cleanup, none of which
   * others join, is put off at most 4m + 1 times and by at most half an interval
   * each time; the next attempt, if not an earlier one, starts its timer.
   */
  lemma TimerStarts(v: Tables, first: Start, task: Task, es: seq<Event>)
    requires first.name in v.loopingCalls && v.loopingCalls[first.name].task == task
    requires first.attempts == 0 && Allowed(v, first, task, es)
    ensures var p, bound := Run(v, first, es), Bound(|Stuck(v.toCleanup, first.configId)|);
      |p.putOff| <= bound &&
      (p.pending.Some? ==> p.pending.value.delayed <= first.delayed + bound * (first.interval / 2)) &&
      (Tries(es) > bound ==> p.pending == None && task in p.v.running)
  {
    RunFollows(v, first, task, es);
    PutOffsBounded(Run(v, first, es), first, task, |Stuck(v.toCleanup, first.configId)|);
  }
}
