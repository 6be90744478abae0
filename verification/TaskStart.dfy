/** Starting a task's timer: the start is put off while earlier tasks of its config await cleanup. */
module TaskStart {
  import opened TaskTables

  /** A start that is waiting for its delay to pass; `delayed` adds up all delays so far. */
  datatype Start = Start(name: Name, interval: nat, configId: ConfigId, delayed: nat, attempts: nat, wait: nat)

  const ATTEMPTS := 3

  /** The tasks of a config that await cleanup. */
  function Stuck(toCleanup: set<Task>, c: ConfigId): set<Task> {
    set t | t in toCleanup && t.configId == c
  }

  /** Whether an attempt to start gives up waiting for one of the tasks that await cleanup. */
  predicate ForcesCleanup(start: Start) {
    start.attempts > ATTEMPTS
  }

  function PutOff(start: Start, draw: nat): Start {
    start.(delayed := start.delayed + draw, attempts := (if ForcesCleanup(start) then 0 else start.attempts) + 1,
           wait := draw)
  }

  /** How often a start can still be put off while `stuck` tasks of its config await cleanup. */
  function PostponementsLeft(stuck: nat, attempts: nat): int {
    if stuck == 0 then 0 else 4 * (stuck - 1) + 5 - attempts
  }

  /** One attempt that finds `stuck` tasks awaiting cleanup and is put off. */
  datatype Attempt = Attempt(stuck: nat, start: Start, draw: nat)

  function StuckAfter(a: Attempt): nat
    requires a.stuck > 0
  {
    if ForcesCleanup(a.start) then a.stuck - 1 else a.stuck
  }

  /**
   * Successive attempts to start one task, all put off. Between two of them
   * tasks may leave the cleanup set, but no task of the config enters it.
   */
  predicate AllPutOff(trace: seq<Attempt>) {
    (forall i :: 0 <= i < |trace| ==> trace[i].stuck > 0 && trace[i].draw <= trace[i].start.interval / 2) &&
    forall i :: 0 < i < |trace| ==>
      trace[i].start == PutOff(trace[i - 1].start, trace[i - 1].draw) && trace[i].stuck <= StuckAfter(trace[i - 1])
  }

  lemma {:induction false} PostponementsDecrease(trace: seq<Attempt>, i: nat)
    requires AllPutOff(trace) && i < |trace| && trace[0].start.attempts == 0
    ensures trace[i].start.attempts <= 4 && trace[i].start.interval == trace[0].start.interval
    ensures PostponementsLeft(trace[i].stuck, trace[i].start.attempts) <= 4 * trace[0].stuck + 1 - i
    ensures trace[i].start.delayed <= trace[0].start.delayed + i * (trace[0].start.interval / 2)
  {
    if i > 0 {
      PostponementsDecrease(trace, i - 1);
      var half := trace[0].start.interval / 2;
      assert i * half == (i - 1) * half + half;
    }
  }

  /**
   * A task whose config has `m` tasks awaiting cleanup is put off at most 4m + 1
   * times (5 times for a single one), and by at most half an interval each time.
   */
  lemma PutOffBoundedly(trace: seq<Attempt>)
    requires AllPutOff(trace) && trace != [] && trace[0].start.attempts == 0
    ensures |trace| <= 4 * trace[0].stuck + 1
    ensures var last := trace[|trace| - 1];
      PutOff(last.start, last.draw).delayed <=
        trace[0].start.delayed + (4 * trace[0].stuck + 1) * (trace[0].start.interval / 2)
  {
    var n := |trace|;
    var half := trace[0].start.interval / 2;
    PostponementsDecrease(trace, n - 1);
    assert (n - 1) * half + half == n * half;
    LessTimes(n, 4 * trace[0].stuck + 1, half);
  }

  lemma LessTimes(a: nat, b: nat, c: nat)
    requires a <= b
    ensures a * c <= b * c
  {
  }

  /** The attempts that are put off when no task is cleaned up in time. */
  function WorstCase(stuck: nat, start: Start): seq<Attempt>
    requires start.attempts <= 4
    decreases stuck, 4 - start.attempts
  {
    if stuck == 0 then []
    else
      var a := Attempt(stuck, start, start.interval / 2);
      [a] + WorstCase(StuckAfter(a), PutOff(start, a.draw))
  }

  /** The bounds are met: such a run of 4m + 1 attempts exists. */
  lemma {:induction false} WorstCaseMeetsBound(stuck: nat, start: Start)
    requires start.attempts <= 4 && stuck > 0
    ensures var trace := WorstCase(stuck, start);
      AllPutOff(trace) && |trace| == PostponementsLeft(stuck, start.attempts) &&
      trace[0] == Attempt(stuck, start, start.interval / 2)
    decreases stuck, 4 - start.attempts
  {
    var a := Attempt(stuck, start, start.interval / 2);
    var next := PutOff(start, a.draw);
    if StuckAfter(a) > 0 {
      WorstCaseMeetsBound(StuckAfter(a), next);
      var trace, rest := WorstCase(stuck, start), WorstCase(StuckAfter(a), next);
      forall i | 0 < i < |trace|
        ensures trace[i].start == PutOff(trace[i - 1].start, trace[i - 1].draw) &&
          trace[i].stuck <= StuckAfter(trace[i - 1])
      {
        if i > 1 {
          assert trace[i] == rest[i - 1] && trace[i - 1] == rest[i - 2];
        }
      }
      assert forall i :: 0 < i < |trace| ==> trace[i] == rest[i - 1];
    } else {
      assert WorstCase(StuckAfter(a), next) == [];
    }
  }
}
