/** Running statistics of how long tasks stay in each state, over exact reals. */
module Statistics {
  import opened Wrappers
  import opened Sequences

  const UNSEEN_MIN: real := 4294967295.0   // 0xFFFFFFFF

  datatype Stats = Stats(total: real, squared: real, calls: nat, min: real, max: real)

  const EMPTY := Stats(0.0, 0.0, 0, UNSEEN_MIN, 0.0)

  function Min(a: real, b: real): real {
    if a <= b then a else b
  }

  function Max(a: real, b: real): real {
    if a >= b then a else b
  }

  function Product(a: real, b: real): real {
    a * b
  }

  function Square(d: real): real {
    Product(d, d)
  }

  /** `addCall` */
  function AddCall(s: Stats, x: real): Stats {
    Stats(s.total + x, s.squared + Square(x), s.calls + 1,
          if s.calls == 0 then x else Min(s.min, x), if s.calls == 0 then x else Max(s.max, x))
  }

  function AddAll(xs: seq<real>): Stats {
    if xs == [] then EMPTY else AddCall(AddAll(xs[..|xs| - 1]), xs[|xs| - 1])
  }

  // ----- What the running numbers mean -----

  function Sum(xs: seq<real>): real {
    if xs == [] then 0.0 else Sum(xs[..|xs| - 1]) + xs[|xs| - 1]
  }

  /** The sum of the squared distances to `c`. */
  function SquaredDistances(xs: seq<real>, c: real): real {
    if xs == [] then 0.0
    else SquaredDistances(xs[..|xs| - 1], c) + Square(xs[|xs| - 1] - c)
  }

  function Mean(xs: seq<real>): real
    requires xs != []
  {
    Sum(xs) / |xs| as real
  }

  ghost predicate IsMin(m: real, xs: seq<real>) {
    m in xs && forall x :: x in xs ==> m <= x
  }

  ghost predicate IsMax(m: real, xs: seq<real>) {
    m in xs && forall x :: x in xs ==> x <= m
  }

  lemma {:induction false} AddAllSums(xs: seq<real>)
    ensures AddAll(xs).total == Sum(xs) && AddAll(xs).calls == |xs|
    ensures AddAll(xs).squared == SquaredDistances(xs, 0.0)
    ensures xs != [] ==> IsMin(AddAll(xs).min, xs) && IsMax(AddAll(xs).max, xs)
  {
    if xs != [] {
      var before, x := xs[..|xs| - 1], xs[|xs| - 1];
      AddAllSums(before);
      assert xs == before + [x];
      if before == [] { assert AddAll(before) == EMPTY; }
    }
  }

  /** How much the sum of squared distances shrinks when the distances are taken from `c` instead of zero. */
  function Shift(n: real, sum: real, c: real): real {
    2.0 * c * sum - n * (c * c)
  }

  lemma ShiftOneMore(n: real, sum: real, c: real, x: real)
    ensures Square(x - c) == Square(x) - (Shift(n + 1.0, sum + x, c) - Shift(n, sum, c))
  {
    assert 2.0 * c * (sum + x) == 2.0 * c * sum + 2.0 * c * x;
    assert (n + 1.0) * (c * c) == n * (c * c) + c * c;
    assert (x - c) * (x - c) == x * x - 2.0 * c * x + c * c;
  }

  lemma {:induction false} SquaredDistancesShift(xs: seq<real>, c: real)
    ensures SquaredDistances(xs, c) == SquaredDistances(xs, 0.0) - Shift(|xs| as real, Sum(xs), c)
  {
    if xs == [] {
      assert Shift(0.0, 0.0, c) == 0.0;
    } else {
      var before, x := xs[..|xs| - 1], xs[|xs| - 1];
      SquaredDistancesShift(before, c);
      ShiftOneMore(|before| as real, Sum(before), c, x);
      assert |xs| as real == |before| as real + 1.0;
    }
  }

  lemma PositiveProduct(a: real, b: real)
    requires (a > 0.0 && b > 0.0) || (a < 0.0 && b < 0.0)
    ensures Product(a, b) > 0.0
  {
  }

  lemma SquareSign(d: real)
    ensures Square(d) >= 0.0
    ensures d != 0.0 ==> Square(d) > 0.0
  {
    if d != 0.0 { PositiveProduct(d, d); }
  }

  lemma {:induction false} SquaredDistancesSign(xs: seq<real>, c: real)
    ensures SquaredDistances(xs, c) >= 0.0
    ensures SquaredDistances(xs, c) == 0.0 <==> forall x :: x in xs ==> x == c
  {
    if xs != [] {
      var before, x := xs[..|xs| - 1], xs[|xs| - 1];
      SquaredDistancesSign(before, c);
      SquareSign(x - c);
      assert forall y :: y in xs <==> y in before || y == x by { assert xs == before + [x]; }
      if x != c {
        assert x in xs;
      } else {
        assert Square(x - c) == 0.0;
      }
    }
  }

  /** The square of a sum over the number of its terms. */
  function SquareOver(sum: real, n: real): real
    requires n > 0.0
  {
    sum * sum / n
  }

  /** What `stddev` takes the square root of. */
  function Radicand(s: Stats): real
    requires s.calls > 1
  {
    (s.squared - SquareOver(s.total, s.calls as real)) / (s.calls - 1) as real
  }

  lemma ShiftToMean(n: real, s: real, m: real)
    requires n > 0.0 && m == s / n
    ensures Shift(n, s, m) == SquareOver(s, n)
  {
    assert n * m == s;
    assert n * (m * m) == (n * m) * m;
    assert s * s / n == s * m;
  }

  /**
   * For any two or more calls, the radicand of the running standard deviation is
   * the sample variance; so it is never negative, and zero exactly when all
   * calls took equally long.
   */
  lemma RadicandIsVariance(xs: seq<real>)
    requires |xs| > 1
    ensures AddAll(xs).calls == |xs|
    ensures Radicand(AddAll(xs)) == SquaredDistances(xs, Mean(xs)) / (|xs| - 1) as real
    ensures Radicand(AddAll(xs)) >= 0.0
    ensures Radicand(AddAll(xs)) == 0.0 <==> forall i, j :: 0 <= i < j < |xs| ==> xs[i] == xs[j]
  {
    AddAllSums(xs);
    SquaredDistancesShift(xs, Mean(xs));
    ShiftToMean(|xs| as real, Sum(xs), Mean(xs));
    SquaredDistancesSign(xs, Mean(xs));
    AllEqual(xs);
    QuotientSign(SquaredDistances(xs, Mean(xs)), (|xs| - 1) as real);
  }

  lemma QuotientSign(d: real, k: real)
    requires d >= 0.0 && k > 0.0
    ensures d / k >= 0.0 && (d / k == 0.0 <==> d == 0.0)
  {
  }

  lemma {:induction false} SumOfEqual(xs: seq<real>, c: real)
    requires forall x :: x in xs ==> x == c
    ensures Sum(xs) == |xs| as real * c
  {
    if xs != [] {
      var before, x := xs[..|xs| - 1], xs[|xs| - 1];
      assert forall y :: y in before ==> y in xs;
      assert x in xs;
      SumOfEqual(before, c);
      assert |xs| as real == |before| as real + 1.0;
      assert |xs| as real * c == |before| as real * c + c;
    }
  }

  lemma Undivided(n: real, x: real)
    requires n > 0.0
    ensures n * x / n == x
  {
  }

  lemma AllEqual(xs: seq<real>)
    requires xs != []
    ensures (forall x :: x in xs ==> x == Mean(xs)) <==> forall i, j :: 0 <= i < j < |xs| ==> xs[i] == xs[j]
  {
    if forall i, j :: 0 <= i < j < |xs| ==> xs[i] == xs[j] {
      forall x | x in xs
        ensures x == xs[0]
      {
        var i :| 0 <= i < |xs| && xs[i] == x;
      }
      SumOfEqual(xs, xs[0]);
      Undivided(|xs| as real, xs[0]);
      assert Mean(xs) == xs[0];
    }
    if forall x :: x in xs ==> x == Mean(xs) {
      forall i, j | 0 <= i < j < |xs|
        ensures xs[i] == xs[j]
      {
        assert xs[i] in xs && xs[j] in xs;
      }
    }
  }

  // ----- Adding up the statistics of several tasks -----

  /** One step of `displayStatistics`. */
  function Merge(a: Stats, b: Stats): Stats {
    Stats(a.total + b.total, a.squared + b.squared, a.calls + b.calls, Min(a.min, b.min), Max(a.max, b.max))
  }

  function MergeAll(parts: seq<Stats>): Stats {
    if parts == [] then EMPTY else Merge(MergeAll(parts[..|parts| - 1]), parts[|parts| - 1])
  }

  function Concat(parts: seq<seq<real>>): seq<real> {
    if parts == [] then [] else Concat(parts[..|parts| - 1]) + parts[|parts| - 1]
  }

  function StatsOfEach(parts: seq<seq<real>>): seq<Stats> {
    seq(|parts|, i requires 0 <= i < |parts| => AddAll(parts[i]))
  }

  /** The statistics with the initial extremes counted in. */
  function WithBounds(s: Stats): Stats {
    s.(min := Min(UNSEEN_MIN, s.min), max := Max(0.0, s.max))
  }

  lemma EmptyIfNoCalls(xs: seq<real>)
    ensures AddAll(xs).calls == 0 ==> AddAll(xs) == EMPTY
  {
    AddAllSums(xs);
  }

  lemma AddCallToBoth(a: Stats, ab: Stats, b: Stats, x: real)
    ensures
      var counted := (ab.calls == 0 ==> ab == EMPTY) && (b.calls == 0 ==> b == EMPTY);
      counted && WithBounds(ab) == Merge(WithBounds(a), b) ==>
        WithBounds(AddCall(ab, x)) == Merge(WithBounds(a), AddCall(b, x))
  {
  }

  lemma {:induction false} AddAllConcat(xs: seq<real>, ys: seq<real>)
    ensures WithBounds(AddAll(xs + ys)) == Merge(WithBounds(AddAll(xs)), AddAll(ys))
  {
    if ys == [] {
      assert xs + ys == xs;
    } else {
      var n := |ys| - 1;
      assert xs + ys == (xs + ys[..n]) + [ys[n]];
      assert (xs + ys)[..|xs| + n] == xs + ys[..n];
      AddAllConcat(xs, ys[..n]);
      EmptyIfNoCalls(xs + ys[..n]);
      EmptyIfNoCalls(ys[..n]);
      AddCallToBoth(AddAll(xs), AddAll(xs + ys[..n]), AddAll(ys[..n]), ys[n]);
    }
  }

  lemma {:induction false} MergeAllIsBounded(parts: seq<seq<real>>)
    ensures MergeAll(StatsOfEach(parts)) == WithBounds(AddAll(Concat(parts)))
  {
    if parts != [] {
      var n := |parts| - 1;
      MergeAllIsBounded(parts[..n]);
      assert StatsOfEach(parts)[..n] == StatsOfEach(parts[..n]);
      AddAllConcat(Concat(parts[..n]), parts[n]);
    }
  }

  /**
   * Adding up the statistics of several tasks gives the statistics of all their
   * calls if and only if there are none, or some call took at most 0xFFFFFFFF
   * seconds and some call did not take less than no time.
   */
  lemma MergingIsExact(parts: seq<seq<real>>)
    ensures MergeAll(StatsOfEach(parts)) == AddAll(Concat(parts)) <==>
      Concat(parts) == [] ||
      ((exists x :: x in Concat(parts) && x <= UNSEEN_MIN) && exists x :: x in Concat(parts) && x >= 0.0)
  {
    MergeAllIsBounded(parts);
    AddAllSums(Concat(parts));
    var s := AddAll(Concat(parts));
    if Concat(parts) != [] {
      assert s.min <= UNSEEN_MIN <==> exists x :: x in Concat(parts) && x <= UNSEEN_MIN;
      assert s.max >= 0.0 <==> exists x :: x in Concat(parts) && x >= 0.0;
    }
  }

  /** The sample variance; zero for a single value. */
  function Variance(xs: seq<real>): real
    requires xs != []
  {
    if |xs| == 1 then 0.0 else SquaredDistances(xs, Mean(xs)) / (|xs| - 1) as real
  }

  class StateStatistics {
    var totalElapsedTime: real
    var totalElapsedTimeSquared: real
    var totalCalls: nat
    var minElapsedTime: real
    var maxElapsedTime: real

    ghost function View(): Stats
      reads this
    {
      Stats(totalElapsedTime, totalElapsedTimeSquared, totalCalls, minElapsedTime, maxElapsedTime)
    }

    constructor ()
      ensures View() == EMPTY
    {
      totalElapsedTime, totalElapsedTimeSquared, totalCalls := 0.0, 0.0, 0;
      minElapsedTime, maxElapsedTime := UNSEEN_MIN, 0.0;
    }

    method RecordCall(elapsedTime: real)
      modifies this
      ensures View() == AddCall(old(View()), elapsedTime)
    {
      totalElapsedTime := totalElapsedTime + elapsedTime;
      totalElapsedTimeSquared := totalElapsedTimeSquared + Square(elapsedTime);
      totalCalls := totalCalls + 1;
      if totalCalls == 1 {
        minElapsedTime, maxElapsedTime := elapsedTime, elapsedTime;
      } else {
        minElapsedTime, maxElapsedTime := Min(minElapsedTime, elapsedTime), Max(maxElapsedTime, elapsedTime);
      }
    }

    /** What `stddev` takes the root of, for the calls so far; without calls it divides by zero. */
    method SquaredDeviation(ghost xs: seq<real>) returns (r: Option<real>)
      requires View() == AddAll(xs)
      ensures r == if xs == [] then None else Some(Variance(xs))
    {
      AddAllSums(xs);
      if totalCalls == 0 { return None; }
      if totalCalls == 1 { return Some(0.0); }
      RadicandIsVariance(xs);
      var squares := totalElapsedTimeSquared - SquareOver(totalElapsedTime, totalCalls as real);
      return Some(squares / (totalCalls - 1) as real);
    }
  }

  // ----- The time spent in each state -----

  type States = map<string, Stats>

  /** A change of state, with the time of the clock. */
  datatype Change = Change(oldState: Option<string>, time: real)

  datatype Tracker = Tracker(states: States, startTime: Option<real>)

  function StatsIn(states: States, state: string): Stats {
    if state in states then states[state] else EMPTY
  }

  /** `trackStateChange` */
  function Track(t: Tracker, c: Change): Tracker {
    var states' :=
      if c.oldState.Some? && t.startTime.Some? && t.startTime.value != 0.0 then
        t.states[c.oldState.value := AddCall(StatsIn(t.states, c.oldState.value), c.time - t.startTime.value)]
      else t.states;
    Tracker(states', Some(c.time))
  }

  function TrackAll(cs: seq<Change>): Tracker {
    if cs == [] then Tracker(map[], None) else Track(TrackAll(cs[..|cs| - 1]), cs[|cs| - 1])
  }

  /** All the time in the statistics. */
  ghost function TotalTime(states: States): real {
    if states == map[] then 0.0
    else
      var k :| k in states;
      states[k].total + TotalTime(states - {k})
  }

  lemma {:induction false} TotalTimePick(states: States, k: string)
    requires k in states
    ensures TotalTime(states) == states[k].total + TotalTime(states - {k})
    decreases |states|
  {
    var j :| j in states && TotalTime(states) == states[j].total + TotalTime(states - {j});
    if j != k {
      TotalTimePick(states - {j}, k);
      assert states - {j} - {k} == states - {k} - {j};
      TotalTimePick(states - {k}, j);
    }
  }

  lemma TotalTimePut(states: States, k: string, x: real)
    ensures TotalTime(states[k := AddCall(StatsIn(states, k), x)]) == TotalTime(states) + x
  {
    var states' := states[k := AddCall(StatsIn(states, k), x)];
    TotalTimePick(states', k);
    assert states' - {k} == states - {k};
    if k in states {
      TotalTimePick(states, k);
    } else {
      assert states - {k} == states;
    }
  }

  /** No time is lost: once tracking has begun, the statistics add up to the time from the first change to the last. */
  lemma {:induction false} TrackedTimeAddsUp(cs: seq<Change>)
    requires cs != []
    requires forall i :: 0 <= i < |cs| ==> cs[i].time != 0.0 && (i > 0 ==> cs[i].oldState.Some?)
    ensures TotalTime(TrackAll(cs).states) == cs[|cs| - 1].time - cs[0].time
    ensures TrackAll(cs).startTime == Some(cs[|cs| - 1].time)
  {
    var n := |cs| - 1;
    if n == 0 {
      assert TrackAll(cs[..0]) == Tracker(map[], None);
    } else {
      TrackedTimeAddsUp(cs[..n]);
      TrackAddsTime(TrackAll(cs[..n]), cs[n]);
    }
  }

  lemma TrackAddsTime(t: Tracker, c: Change)
    requires c.oldState.Some? && t.startTime.Some? && t.startTime.value != 0.0
    ensures TotalTime(Track(t, c).states) == TotalTime(t.states) + (c.time - t.startTime.value)
  {
    TotalTimePut(t.states, c.oldState.value, c.time - t.startTime.value);
  }

  /** The times that a task spent in a state, each until a change that leaves it. */
  function Durations(cs: seq<Change>, state: string): seq<real> {
    if |cs| < 2 then []
    else
      var n := |cs| - 1;
      Durations(cs[..n], state) +
      if cs[n].oldState == Some(state) && cs[n - 1].time != 0.0 then [cs[n].time - cs[n - 1].time] else []
  }

  /** What is recorded for a state are the times from each change that entered it to the next, which leaves it. */
  lemma {:induction false} TrackedPerState(cs: seq<Change>, state: string)
    ensures StatsIn(TrackAll(cs).states, state) == AddAll(Durations(cs, state))
    ensures state in TrackAll(cs).states <==> Durations(cs, state) != []
    ensures TrackAll(cs).startTime == if cs == [] then None else Some(cs[|cs| - 1].time)
  {
    if cs != [] {
      var n := |cs| - 1;
      TrackedPerState(cs[..n], state);
      if n > 0 {
        assert cs[..n][n - 1] == cs[n - 1];
        AddNothing(Durations(cs[..n], state));
        AddAllEnd(Durations(cs[..n], state), cs[n].time - cs[n - 1].time);
      }
    }
  }

  lemma AddAllEnd(xs: seq<real>, x: real)
    ensures AddAll(xs + [x]) == AddCall(AddAll(xs), x)
  {
    assert (xs + [x])[..|xs|] == xs;
  }

  // ----- The statistics of all tasks -----

  /** What each of the tasks that were ever in a state recorded for it. */
  function PartsOf(perTask: seq<States>, state: string): seq<Stats> {
    if perTask == [] then []
    else
      var last := perTask[|perTask| - 1];
      PartsOf(perTask[..|perTask| - 1], state) + if state in last then [last[state]] else []
  }

  lemma MergeAllEnd(parts: seq<Stats>, s: Stats)
    ensures MergeAll(parts + [s]) == Merge(MergeAll(parts), s)
  {
    assert (parts + [s])[..|parts|] == parts;
  }

  /** The state statistics of `displayStatistics`: for each state, those of all tasks added up. */
  method AddUpStates(perTask: seq<States>) returns (totals: States)
    ensures forall state :: state in totals <==> PartsOf(perTask, state) != []
    ensures forall state :: state in totals ==> totals[state] == MergeAll(PartsOf(perTask, state))
  {
    totals := map[];
    for i := 0 to |perTask|
      invariant Totals(totals, perTask[..i])
    {
      assert perTask[..i + 1][..i] == perTask[..i];
      totals := AddUpTask(totals, perTask[..i], perTask[i]);
    }
    assert perTask[..|perTask|] == perTask;
  }

  ghost predicate Totals(totals: States, perTask: seq<States>) {
    forall state ::
      (state in totals <==> PartsOf(perTask, state) != []) &&
      StatsIn(totals, state) == MergeAll(PartsOf(perTask, state))
  }

  method AddUpTask(before: States, ghost perTask: seq<States>, states: States) returns (totals: States)
    requires Totals(before, perTask)
    ensures Totals(totals, perTask + [states])
  {
    totals := before;
    var todo := states.Keys;
    while todo != {}
      invariant todo <= states.Keys
      invariant forall state :: state in states.Keys - todo ==>
        StatsIn(totals, state) == Merge(StatsIn(before, state), states[state])
      invariant forall state :: state !in states.Keys - todo ==> StatsIn(totals, state) == StatsIn(before, state)
      invariant totals.Keys == before.Keys + (states.Keys - todo)
    {
      var state :| state in todo;
      todo := todo - {state};
      totals := totals[state := Merge(StatsIn(totals, state), states[state])];
    }
    assert (perTask + [states])[..|perTask|] == perTask;
    forall state
      ensures (state in totals <==> PartsOf(perTask + [states], state) != []) &&
        StatsIn(totals, state) == MergeAll(PartsOf(perTask + [states], state))
    {
      if state in states {
        MergeAllEnd(PartsOf(perTask, state), states[state]);
      } else {
        assert PartsOf(perTask, state) + [] == PartsOf(perTask, state);
      }
    }
  }

  class TaskStatistics {
    var states: States
    var stateStartTime: Option<real>

    ghost function View(): Tracker
      reads this
    {
      Tracker(states, stateStartTime)
    }

    constructor ()
      ensures View() == TrackAll([])
    {
      states, stateStartTime := map[], None;
    }

    method TrackStateChange(oldState: Option<string>, now: real)
      modifies this
      ensures View() == Track(old(View()), Change(oldState, now))
    {
      if oldState.Some? && stateStartTime.Some? && stateStartTime.value != 0.0 {
        var elapsedTime := now - stateStartTime.value;
        var stats := if oldState.value in states then states[oldState.value] else EMPTY;
        states := states[oldState.value := AddCall(stats, elapsedTime)];
      }
      stateStartTime := Some(now);
    }
  }
}
