/** A scheduled task as its timer sees it: ticks submit runs to the executor, or are late, or find it paused. */
module CallableTasks {

  datatype State = Idle | Queued | Running | Paused | Completed | Working(phase: string)

  /**
   * A task, its runs in the executor (`queued` are submitted and not yet
   * started, `active` are started and not yet finished) and its counters.
   */
  datatype View = View(
    state: State, paused: bool, queued: nat, active: nat,
    totalRuns: nat, failedRuns: nat, missedRuns: nat,
    ticks: nat, submitted: nat, finished: nat, skipped: nat)

  const FRESH := View(Idle, false, 0, 0, 0, 0, 0, 0, 0, 0, 0)

  datatype Step =
    | Tick
    | Pause
    | Resume
    | Start                    // the executor starts a queued run
    | TaskSets(state: State)   // a run announces what it is doing, or that the task is complete
    | Finish(failed: bool)

  function Outstanding(v: View): nat {
    v.queued + v.active
  }

  /** The state in which a tick finds the task once it has looked at `paused`. */
  function Seen(v: View): State {
    if v.state == Paused && !v.paused then Idle else if v.paused then Paused else v.state
  }

  function Next(v: View, e: Step): View {
    match e
    case Tick =>
      var state := Seen(v);
      var w := v.(state := state, ticks := v.ticks + 1);
      if state == Idle || state == Paused then
        if v.paused then w.(skipped := v.skipped + 1)
        else w.(state := Queued, queued := v.queued + 1, submitted := v.submitted + 1)
      else w.(missedRuns := v.missedRuns + 1)
    case Pause => v.(paused := true)
    case Resume => v.(paused := false)
    case Start =>
      if v.queued == 0 then v
      else v.(state := Running, queued := v.queued - 1, active := v.active + 1, totalRuns := v.totalRuns + 1)
    case TaskSets(state) => if v.active > 0 && (state.Working? || state == Completed) then v.(state := state) else v
    case Finish(failed) =>
      if v.active == 0 then v
      else
        v.(state := if v.state == Completed then Completed else Idle, active := v.active - 1,
           finished := v.finished + 1,
           failedRuns := v.failedRuns + if failed then 1 else 0)
  }

  function Run(es: seq<Step>): View {
    if es == [] then FRESH else Next(Run(es[..|es| - 1]), es[|es| - 1])
  }

  predicate AddsUp(v: View) {
    v.ticks == v.submitted + v.missedRuns + v.skipped &&
    v.submitted == v.totalRuns + v.queued && v.totalRuns == v.finished + v.active && v.failedRuns <= v.finished
  }

  lemma StepAddsUp(v: View, e: Step)
    requires AddsUp(v)
    ensures AddsUp(Next(v, e))
  {
  }

  /** On every run each tick is a submission, a missed run or a tick while paused, and no submission is lost. */
  lemma {:induction false} TicksAreAccountedFor(es: seq<Step>)
    ensures AddsUp(Run(es))
  {
    if es != [] {
      TicksAreAccountedFor(es[..|es| - 1]);
      StepAddsUp(Run(es[..|es| - 1]), es[|es| - 1]);
    }
  }

  /** The runs that have failed. */
  function Failures(es: seq<Step>): nat {
    if es == [] then 0
    else
      var before := es[..|es| - 1];
      Failures(before) + if es[|es| - 1] == Finish(true) && Run(before).active > 0 then 1 else 0
  }

  /** The failures that are counted are the runs under way that finished with one. */
  lemma {:induction false} FailuresAreCounted(es: seq<Step>)
    ensures Run(es).failedRuns == Failures(es)
  {
    if es != [] {
      FailuresAreCounted(es[..|es| - 1]);
    }
  }

  /**
   * What a tick does while the state tells what the task is doing: it is skipped
   * on pause, missed while a run is outstanding or when the task is complete, and
   * submits a run otherwise.
   */
  lemma TickDecides(v: View)
    requires StateTells(v) && !(v.paused && Outstanding(v) > 0)
    ensures var v' := Next(v, Tick);
      var submits := !v.paused && Outstanding(v) == 0 && v.state != Completed;
      v'.submitted == v.submitted + (if submits then 1 else 0) &&
      v'.queued == v.queued + (if submits then 1 else 0) &&
      v'.skipped == v.skipped + (if v.paused then 1 else 0) &&
      v'.missedRuns == v.missedRuns + (if v.paused || submits then 0 else 1)
  {
  }

  /**
   * What a run under way says of the task's state stands until it finishes, when
   * the task is idle again unless it has been declared complete; a task that has
   * no run under way is not changed.
   */
  lemma DeclarationsStand(v: View, state: State, failed: bool)
    ensures var said := Next(v, TaskSets(state));
      said == v.(state := if v.active > 0 && (state.Working? || state == Completed) then state else v.state)
    ensures var done := Next(v, Finish(failed));
      if v.active == 0 then done == v
      else done.active == v.active - 1 && done.finished == v.finished + 1 &&
           (done.state == Completed <==> v.state == Completed) && (v.state != Completed ==> done.state == Idle)
  {
  }

  // ----- One run at a time -----

  ghost predicate AtMostOne(es: seq<Step>) {
    forall n :: 0 <= n <= |es| ==> Outstanding(Run(es[..n])) <= 1
  }

  /** An unpaused tick that finds the task marked paused while a run of it is outstanding. */
  predicate Resubmits(v: View) {
    v.state == Paused && !v.paused && Outstanding(v) > 0
  }

  ghost predicate NeverResubmits(es: seq<Step>) {
    forall n :: 0 <= n < |es| && es[n] == Tick ==> !Resubmits(Run(es[..n]))
  }

  lemma RunOneMore(es: seq<Step>, n: nat)
    requires n < |es|
    ensures Run(es[..n + 1]) == Next(Run(es[..n]), es[n])
  {
    assert es[..n + 1][..n] == es[..n];
  }

  predicate OneAtMost(v: View) {
    Outstanding(v) <= 1 && (v.state == Idle ==> Outstanding(v) == 0)
  }

  lemma StepKeepsOne(v: View, e: Step)
    requires OneAtMost(v) && !(e == Tick && Resubmits(v))
    ensures OneAtMost(Next(v, e))
  {
  }

  lemma {:induction false} OneAtATime(es: seq<Step>, n: nat)
    requires NeverResubmits(es) && n <= |es|
    ensures OneAtMost(Run(es[..n]))
  {
    if n > 0 {
      OneAtATime(es, n - 1);
      RunOneMore(es, n - 1);
      StepKeepsOne(Run(es[..n - 1]), es[n - 1]);
    }
  }

  /**
   * A task has at most one outstanding run all along if and only if no tick
   * comes, after a resume, on a task that was marked paused while a run was
   * outstanding.
   */
  lemma AtMostOneOutstanding(es: seq<Step>)
    ensures AtMostOne(es) <==> NeverResubmits(es)
  {
    if NeverResubmits(es) {
      forall n | 0 <= n <= |es|
        ensures Outstanding(Run(es[..n])) <= 1
      {
        OneAtATime(es, n);
      }
    } else {
      var n :| 0 <= n < |es| && es[n] == Tick && Resubmits(Run(es[..n]));
      RunOneMore(es, n);
      assert Outstanding(Run(es[..n + 1])) > 1;
    }
  }

  /** No tick comes while the task is on pause and a run of it is outstanding. */
  ghost predicate NoTickOnPause(es: seq<Step>) {
    forall n :: 0 <= n < |es| && es[n] == Tick ==> !(Run(es[..n]).paused && Outstanding(Run(es[..n])) > 0)
  }

  /** The state tells whether a run is queued, under way or neither. */
  predicate StateTells(v: View) {
    match v.state
    case Idle => Outstanding(v) == 0
    case Paused => Outstanding(v) == 0
    case Queued => v.queued == 1 && v.active == 0
    case Running => v.queued == 0 && v.active == 1
    case Working(_) => v.queued == 0 && v.active == 1
    case Completed => v.queued == 0 && v.active <= 1
  }

  lemma StepKeepsState(v: View, e: Step)
    requires StateTells(v) && !(e == Tick && v.paused && Outstanding(v) > 0)
    ensures StateTells(Next(v, e))
  {
  }

  lemma {:induction false} NotMarkedPaused(es: seq<Step>, n: nat)
    requires NoTickOnPause(es) && n <= |es|
    ensures StateTells(Run(es[..n]))
  {
    if n > 0 {
      NotMarkedPaused(es, n - 1);
      RunOneMore(es, n - 1);
      StepKeepsState(Run(es[..n - 1]), es[n - 1]);
    }
  }

  /**
   * So a task never ticked on pause while a run is outstanding has at most one
   * outstanding run all along, and its state tells what that run is doing.
   */
  lemma NoTickOnPauseSuffices(es: seq<Step>)
    requires NoTickOnPause(es)
    ensures AtMostOne(es) && StateTells(Run(es))
  {
    assert es[..|es|] == es;
    forall n | 0 <= n <= |es|
      ensures Outstanding(Run(es[..n])) <= 1 && StateTells(Run(es[..n]))
    {
      NotMarkedPaused(es, n);
    }
  }

  const TWICE := [Tick, Pause, Tick, Resume, Tick]

  /** Pausing a queued task across a tick and resuming it submits it a second time. */
  lemma PausingCanSubmitTwice()
    ensures Outstanding(Run(TWICE)) == 2 && !NeverResubmits(TWICE)
  {
    assert TWICE[..4] == [Tick, Pause, Tick, Resume];
    assert TWICE[..4][..3] == [Tick, Pause, Tick];
    assert TWICE[..4][..3][..2] == [Tick, Pause];
    assert TWICE[..4][..3][..2][..1] == [Tick];
    assert TWICE[..4][..3][..2][..1][..0] == [];
    assert Run([Tick]).queued == 1;
    assert Run([Tick, Pause, Tick]).state == Paused;
    assert Resubmits(Run(TWICE[..4]));
  }

  class CallableTask {
    var state: State
    var paused: bool
    var queued: nat
    var active: nat
    var totalRuns: nat
    var failedRuns: nat
    var missedRuns: nat
    ghost var ticks: nat
    ghost var submitted: nat
    ghost var finished: nat
    ghost var skipped: nat

    ghost function Now(): View
      reads this
    {
      View(state, paused, queued, active, totalRuns, failedRuns, missedRuns, ticks, submitted, finished, skipped)
    }

    constructor ()
      ensures Now() == FRESH
    {
      state, paused, queued, active := Idle, false, 0, 0;
      totalRuns, failedRuns, missedRuns := 0, 0, 0;
      ticks, submitted, finished, skipped := 0, 0, 0, 0;
    }

    /** `__call__`, which the timer runs at every interval. */
    method Call()
      modifies this
      ensures Now() == Next(old(Now()), Tick)
    {
      ticks := ticks + 1;
      if state == Paused && !paused {
        state := Idle;
      } else if paused && state != Paused {
        state := Paused;
      }
      if state == Idle || state == Paused {
        if !paused {
          state := Queued;
          queued, submitted := queued + 1, submitted + 1;
        } else {
          skipped := skipped + 1;
        }
      } else {
        missedRuns := missedRuns + 1;
      }
    }

    /** `_run`, when the executor gets to a queued run. */
    method Begin()
      requires queued > 0
      modifies this
      ensures Now() == Next(old(Now()), Start)
    {
      queued, active := queued - 1, active + 1;
      state := Running;
      totalRuns := totalRuns + 1;
    }

    /** `_finished`; `completed` tells that the scheduler must remove the tasks of the config. */
    method Finished(failed: bool) returns (completed: bool)
      requires active > 0
      modifies this
      ensures Now() == Next(old(Now()), Finish(failed)) && (completed <==> old(state) == Completed)
    {
      active := active - 1;
      finished := finished + 1;
      if state != Completed { state := Idle; }
      if failed { failedRuns := failedRuns + 1; }
      completed := state == Completed;
    }

    method SetPaused(on: bool)
      modifies this`paused
      ensures Now() == Next(old(Now()), if on then Pause else Resume)
    {
      paused := on;
    }
  }
}
