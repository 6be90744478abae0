/** The table of scheduled tasks, and which of its tasks a removal reaches through child ids. */
module TaskTables {
  import opened Wrappers
  import opened Sequences

  type Name = string
  type ConfigId = string

  /** A task object; `serial` tells apart objects that agree in everything else. */
  datatype Task = Task(
    name: Name, configId: ConfigId, interval: nat, childIds: seq<ConfigId>,
    startDelay: Option<nat>, stopPhase: string, serial: nat)

  /** The callable wrapped around a scheduled task. */
  datatype Entry = Entry(task: Task, paused: bool)

  type Table = map<Name, Entry>

  function NamesFor(tasks: Table, c: ConfigId): set<Name> {
    set n | n in tasks && tasks[n].task.configId == c
  }

  function TasksIn(tasks: Table, names: set<Name>): set<Task> {
    set n | n in names && n in tasks :: tasks[n].task
  }

  // ----- Reaching configs through child ids -----

  ghost predicate Edge(tasks: Table, c: ConfigId, d: ConfigId) {
    exists n :: n in tasks && tasks[n].task.configId == c && d in tasks[n].task.childIds
  }

  ghost predicate IsPath(tasks: Table, p: seq<ConfigId>) {
    |p| > 0 && forall i :: 0 <= i < |p| - 1 ==> Edge(tasks, p[i], p[i + 1])
  }

  /** Whether `d` is `c` or a child of a task of a config that `c` reaches. */
  ghost predicate Reaches(tasks: Table, c: ConfigId, d: ConfigId) {
    exists p :: IsPath(tasks, p) && p[0] == c && p[|p| - 1] == d
  }

  /** The tasks of the configs that `c` reaches. */
  ghost function Reachable(tasks: Table, c: ConfigId): set<Name> {
    set n | n in tasks && Reaches(tasks, c, tasks[n].task.configId)
  }

  /** The given tasks and all tasks of the configs that their child ids reach. */
  ghost function Doomed(tasks: Table, names: set<Name>): set<Name> {
    set n | n in tasks && (n in names || ReachedFrom(tasks, names, tasks[n].task.configId))
  }

  ghost predicate ReachedFrom(tasks: Table, names: set<Name>, d: ConfigId) {
    exists m, c :: m in names && m in tasks && c in tasks[m].task.childIds && Reaches(tasks, c, d)
  }

  lemma ReachesItself(tasks: Table, c: ConfigId)
    ensures Reaches(tasks, c, c)
  {
    var p := [c];
    assert IsPath(tasks, p) && p[0] == c && p[|p| - 1] == c;
  }

  lemma ReachesOn(tasks: Table, c: ConfigId, d: ConfigId, e: ConfigId)
    requires Reaches(tasks, c, d) && Edge(tasks, d, e)
    ensures Reaches(tasks, c, e)
  {
    var p :| IsPath(tasks, p) && p[0] == c && p[|p| - 1] == d;
    var q := p + [e];
    assert IsPath(tasks, q) && q[0] == c && q[|q| - 1] == e;
  }

  lemma ReachesFrom(tasks: Table, c: ConfigId, d: ConfigId, e: ConfigId)
    requires Edge(tasks, c, d) && Reaches(tasks, d, e)
    ensures Reaches(tasks, c, e)
  {
    var p :| IsPath(tasks, p) && p[0] == d && p[|p| - 1] == e;
    var q := [c] + p;
    forall i | 0 <= i < |q| - 1
      ensures Edge(tasks, q[i], q[i + 1])
    {
      if i > 0 { assert q[i] == p[i - 1] && q[i + 1] == p[i]; }
    }
    assert IsPath(tasks, q) && q[0] == c && q[|q| - 1] == e;
  }

  ghost predicate Within(part: Table, tasks: Table) {
    part.Keys <= tasks.Keys && forall n :: n in part ==> part[n].task == tasks[n].task
  }

  lemma ReachesMore(part: Table, tasks: Table, c: ConfigId, d: ConfigId)
    requires Within(part, tasks) && Reaches(part, c, d)
    ensures Reaches(tasks, c, d)
  {
    var p :| IsPath(part, p) && p[0] == c && p[|p| - 1] == d;
    forall i | 0 <= i < |p| - 1
      ensures Edge(tasks, p[i], p[i + 1])
    {
      assert Edge(part, p[i], p[i + 1]);
    }
    assert IsPath(tasks, p);
  }

  /** The tasks a removal by config reaches are those a removal of the config's own tasks dooms. */
  lemma DoomedByConfig(tasks: Table, c: ConfigId)
    ensures Doomed(tasks, NamesFor(tasks, c)) == Reachable(tasks, c)
  {
    forall n | n in Doomed(tasks, NamesFor(tasks, c))
      ensures n in Reachable(tasks, c)
    {
      if n in NamesFor(tasks, c) {
        ReachesItself(tasks, c);
      } else {
        var m, d :| m in NamesFor(tasks, c) && m in tasks && d in tasks[m].task.childIds &&
          Reaches(tasks, d, tasks[n].task.configId);
        assert Edge(tasks, c, d);
        ReachesFrom(tasks, c, d, tasks[n].task.configId);
      }
    }
    forall n | n in Reachable(tasks, c)
      ensures n in Doomed(tasks, NamesFor(tasks, c))
    {
      var e := tasks[n].task.configId;
      var p :| IsPath(tasks, p) && p[0] == c && p[|p| - 1] == e;
      if |p| > 1 {
        assert Edge(tasks, p[0], p[1]);
        var m :| m in tasks && tasks[m].task.configId == c && p[1] in tasks[m].task.childIds;
        var rest := p[1..];
        forall i | 0 <= i < |rest| - 1
          ensures Edge(tasks, rest[i], rest[i + 1])
        {
          assert rest[i] == p[i + 1] && rest[i + 1] == p[i + 2];
        }
        assert IsPath(tasks, rest) && rest[0] == p[1] && rest[|rest| - 1] == e;
        assert Reaches(tasks, p[1], e);
        assert m in NamesFor(tasks, c);
        assert ReachedFrom(tasks, NamesFor(tasks, c), e);
      }
    }
  }

  // ----- A removal in progress -----

  ghost predicate NoneOf(left: Table, c: ConfigId) {
    forall n :: n in left ==> left[n].task.configId != c
  }

  /** `left` is what is left of `tasks` after removing `names` and going through some of their child ids. */
  ghost predicate Sweeping(tasks: Table, names: set<Name>, seen: set<ConfigId>, left: Table) {
    left.Keys <= tasks.Keys - names && (forall n :: n in left ==> left[n] == tasks[n]) &&
    (forall n :: n in tasks && n !in left ==> n in Doomed(tasks, names)) &&
    (forall n :: n in tasks && n !in left && n !in names ==>
      forall d :: d in tasks[n].task.childIds ==> NoneOf(left, d)) &&
    forall c :: c in seen ==> NoneOf(left, c)
  }

  lemma SweepStarts(tasks: Table, names: set<Name>)
    requires names <= tasks.Keys
    ensures Sweeping(tasks, names, {}, tasks - names)
    ensures tasks.Keys - (tasks - names).Keys == names
  {
  }

  lemma KeysGone(tasks: Table, left: Table, more: set<Name>)
    requires left.Keys <= tasks.Keys && more <= left.Keys
    ensures tasks.Keys - (left - more).Keys == (tasks.Keys - left.Keys) + more
  {
  }

  lemma SweepOneMore(tasks: Table, names: set<Name>, seen: set<ConfigId>, left: Table, c: ConfigId)
    requires Sweeping(tasks, names, seen, left)
    requires exists m :: m in names && m in tasks && c in tasks[m].task.childIds
    ensures Sweeping(tasks, names, seen + {c}, left - Reachable(left, c))
  {
    var left' := left - Reachable(left, c);
    forall n | n in left && n in Reachable(left, c)
      ensures n in Doomed(tasks, names)
      ensures forall d :: d in tasks[n].task.childIds ==> NoneOf(left', d)
    {
      ReachesMore(left, tasks, c, left[n].task.configId);
      assert ReachedFrom(tasks, names, left[n].task.configId);
      forall d | d in tasks[n].task.childIds
        ensures NoneOf(left', d)
      {
        assert Edge(left, left[n].task.configId, d);
        ReachesOn(left, c, left[n].task.configId, d);
      }
    }
    ReachesItself(left, c);
    assert NoneOf(left', c);
  }

  lemma {:induction false} PathSwept(tasks: Table, names: set<Name>, left: Table, p: seq<ConfigId>, i: nat)
    requires IsPath(tasks, p) && i < |p|
    requires forall n :: n in tasks && n !in left ==> forall d :: d in tasks[n].task.childIds ==> NoneOf(left, d)
    requires Within(left, tasks) && NoneOf(left, p[0])
    ensures NoneOf(left, p[i])
  {
    if i > 0 {
      PathSwept(tasks, names, left, p, i - 1);
      assert Edge(tasks, p[i - 1], p[i - 1 + 1]);
    }
  }

  /** Once all child ids have been gone through, exactly the doomed tasks are gone. */
  lemma SweptAll(tasks: Table, names: set<Name>, seen: set<ConfigId>, left: Table)
    requires Sweeping(tasks, names, seen, left) && names <= tasks.Keys
    requires forall m, c :: m in names && c in tasks[m].task.childIds ==> c in seen
    ensures left == tasks - Doomed(tasks, names)
  {
    forall n | n in left
      ensures n !in Doomed(tasks, names)
    {
      if n in Doomed(tasks, names) {
        var m, c :| m in names && m in tasks && c in tasks[m].task.childIds &&
          Reaches(tasks, c, tasks[n].task.configId);
        var p :| IsPath(tasks, p) && p[0] == c && p[|p| - 1] == tasks[n].task.configId;
        PathSwept(tasks, names, left, p, |p| - 1);
      }
    }
  }

  // ----- Removals in a row -----

  /** The tasks of the configs that one of `ids` reaches. */
  ghost function ReachableFromAny(tasks: Table, ids: set<ConfigId>): set<Name> {
    set n | n in tasks && ReachedFromAny(tasks, ids, tasks[n].task.configId)
  }

  ghost predicate ReachedFromAny(tasks: Table, ids: set<ConfigId>, d: ConfigId) {
    exists c :: c in ids && Reaches(tasks, c, d)
  }

  /** A path is still there after other removals, or they reach where it leads. */
  lemma {:induction false} PathSurvives(tasks: Table, ids: set<ConfigId>, left: Table, p: seq<ConfigId>, i: nat)
    requires IsPath(tasks, p) && i < |p| && left == tasks - ReachableFromAny(tasks, ids)
    ensures Reaches(left, p[0], p[i]) || ReachedFromAny(tasks, ids, p[i])
  {
    if i == 0 {
      ReachesItself(left, p[0]);
    } else {
      PathSurvives(tasks, ids, left, p, i - 1);
      assert Edge(tasks, p[i - 1], p[i - 1 + 1]);
      var m :| m in tasks && tasks[m].task.configId == p[i - 1] && p[i] in tasks[m].task.childIds;
      if ReachedFromAny(tasks, ids, p[i - 1]) {
        var c :| c in ids && Reaches(tasks, c, p[i - 1]);
        ReachesOn(tasks, c, p[i - 1], p[i]);
      } else {
        assert m in left && left[m] == tasks[m];
        assert Edge(left, p[i - 1], p[i]);
        ReachesOn(left, p[0], p[i - 1], p[i]);
      }
    }
  }

  /** Removing configs one after the other, in any order, removes what any of them reached at the start. */
  lemma RemovalsAddUp(tasks: Table, ids: set<ConfigId>, d: ConfigId)
    ensures var left := tasks - ReachableFromAny(tasks, ids);
      left - Reachable(left, d) == tasks - ReachableFromAny(tasks, ids + {d}) &&
      ReachableFromAny(tasks, ids) + Reachable(left, d) == ReachableFromAny(tasks, ids + {d})
  {
    var left := tasks - ReachableFromAny(tasks, ids);
    forall n | n in left
      ensures n in Reachable(left, d) <==> n in ReachableFromAny(tasks, ids + {d})
    {
      var e := tasks[n].task.configId;
      if Reaches(left, d, e) {
        ReachesMore(left, tasks, d, e);
      }
      if ReachedFromAny(tasks, ids + {d}, e) {
        var c :| c in ids + {d} && Reaches(tasks, c, e);
        assert c in ids ==> ReachedFromAny(tasks, ids, e);
        var p :| IsPath(tasks, p) && p[0] == d && p[|p| - 1] == e;
        PathSurvives(tasks, ids, left, p, |p| - 1);
      }
    }
    forall n | n in ReachableFromAny(tasks, ids)
      ensures n in ReachableFromAny(tasks, ids + {d})
    {
      var c :| c in ids && Reaches(tasks, c, tasks[n].task.configId);
      assert c in ids + {d};
    }
  }

  // ----- Pausing -----

  /** The table with the tasks of one config paused or resumed. */
  function WithPaused(tasks: Table, c: ConfigId, paused: bool): Table {
    map n | n in tasks :: if tasks[n].task.configId == c then tasks[n].(paused := paused) else tasks[n]
  }
}
