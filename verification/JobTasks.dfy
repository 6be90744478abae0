/** Jobs, the signatures they are sent in, and sequences of both. */
module JobTasks {
  import opened Sequences
  import opened JobStorage

  /**
   * A job signature: its id, whether its result is ignored, whether its description
   * can be built from its arguments, and the fields of its record if so.
   */
  datatype Task = Task(id: string, ignoreResult: bool, builds: bool, fields: Data)

  /** What is sent: a single job or a chain of jobs, which may be a chain of one. */
  datatype Sig = Single(task: Task) | Chain(members: seq<Task>) {
    function Tasks(): seq<Task> {
      if Single? then [task] else members
    }
  }

  predicate Builds(task: Task) {
    task.builds
  }

  /** Jobs whose results are ignored are not staged, so that nothing can go wrong with them. */
  predicate CanStage(task: Task) {
    task.ignoreResult || task.builds
  }

  /** The number of tasks before the first that fails the test. */
  function Leading(tasks: seq<Task>, test: Task -> bool): (n: nat)
    ensures n <= |tasks| && (forall i :: 0 <= i < n ==> test(tasks[i])) && (n < |tasks| ==> !test(tasks[n]))
  {
    if tasks == [] || !test(tasks[0]) then 0 else 1 + Leading(tasks[1..], test)
  }

  predicate IsTask(task: Task) {
    task.fields.Keys <= FIELDS
  }

  function Ids(tasks: seq<Task>): set<string> {
    set x | x in tasks :: x.id
  }

  /** The ids of the jobs that have records. */
  function TrackedIds(tasks: seq<Task>): set<string> {
    set x | x in tasks && !x.ignoreResult :: x.id
  }

  predicate DistinctIds(tasks: seq<Task>) {
    forall i, j :: 0 <= i < j < |tasks| ==> tasks[i].id != tasks[j].id
  }

  /** The tasks of signatures, in order. */
  function Flat(sigs: seq<Sig>): seq<Task> {
    if sigs == [] then [] else Flat(sigs[..|sigs| - 1]) + sigs[|sigs| - 1].Tasks()
  }

  /** Whether `discard` keeps a signature; chains do not carry the ids of their members. */
  predicate KeepsSig(sig: Sig, id: string) {
    sig.Single? ==> sig.task.id != id
  }

  function FilterSigs(sigs: seq<Sig>, id: string): seq<Sig> {
    if sigs == [] then []
    else
      FilterSigs(sigs[..|sigs| - 1], id) +
      if KeepsSig(sigs[|sigs| - 1], id) then [sigs[|sigs| - 1]] else []
  }

  function FilterTasks(tasks: seq<Task>, id: string): seq<Task> {
    if tasks == [] then []
    else
      FilterTasks(tasks[..|tasks| - 1], id) +
      if tasks[|tasks| - 1].id != id then [tasks[|tasks| - 1]] else []
  }

  // ----- Facts about sequences -----

  lemma IdsConcat(a: seq<Task>, b: seq<Task>)
    ensures Ids(a + b) == Ids(a) + Ids(b)
  {
    forall x | x in a + b
      ensures x in a || x in b
    {
    }
    forall id | id in Ids(a) + Ids(b)
      ensures id in Ids(a + b)
    {
      if id in Ids(a) {
        var x :| x in a && x.id == id;
        assert x in a + b;
      } else {
        var x :| x in b && x.id == id;
        assert x in a + b;
      }
    }
  }

  lemma IdsEnd(tasks: seq<Task>)
    requires tasks != []
    ensures Ids(tasks) == Ids(tasks[..|tasks| - 1]) + {tasks[|tasks| - 1].id}
  {
    var n := |tasks| - 1;
    SplitAt(tasks, n);
    assert tasks[..n + 1] == tasks;
    IdsConcat(tasks[..n], [tasks[n]]);
    TrackedOne(tasks[n]);
  }

  lemma DistinctConcat(a: seq<Task>, b: seq<Task>)
    ensures DistinctIds(a + b) <==> DistinctIds(a) && DistinctIds(b) && Ids(a) !! Ids(b)
  {
    var ab := a + b;
    if DistinctIds(ab) {
      forall i, j | 0 <= i < j < |a|
        ensures a[i].id != a[j].id
      {
        assert ab[i].id != ab[j].id;
      }
      forall i, j | 0 <= i < j < |b|
        ensures b[i].id != b[j].id
      {
        assert ab[|a| + i].id != ab[|a| + j].id;
      }
      forall id | id in Ids(a)
        ensures id !in Ids(b)
      {
        var i :| 0 <= i < |a| && a[i].id == id;
        forall j | 0 <= j < |b|
          ensures b[j].id != id
        {
          assert ab[i].id != ab[|a| + j].id;
        }
      }
    }
    if DistinctIds(a) && DistinctIds(b) && Ids(a) !! Ids(b) {
      forall i, j | 0 <= i < j < |ab|
        ensures ab[i].id != ab[j].id
      {
        if i < |a| <= j {
          assert a[i].id in Ids(a) && b[j - |a|].id in Ids(b);
        }
      }
    }
  }

  lemma TrackedConcat(a: seq<Task>, b: seq<Task>)
    ensures TrackedIds(a + b) == TrackedIds(a) + TrackedIds(b)
  {
    forall id | id in TrackedIds(a) + TrackedIds(b)
      ensures id in TrackedIds(a + b)
    {
      if id in TrackedIds(a) {
        var x :| x in a && !x.ignoreResult && x.id == id;
        assert x in a + b;
      } else {
        var x :| x in b && !x.ignoreResult && x.id == id;
        assert x in a + b;
      }
    }
  }

  lemma TrackedOne(task: Task)
    ensures TrackedIds([task]) == if task.ignoreResult then {} else {task.id}
    ensures Ids([task]) == {task.id}
  {
    assert task in [task];
  }

  lemma TrackedAreIds(tasks: seq<Task>)
    ensures TrackedIds(tasks) <= Ids(tasks)
  {
  }

  lemma FlatEnd(sigs: seq<Sig>, sig: Sig)
    ensures Flat(sigs + [sig]) == Flat(sigs) + sig.Tasks()
  {
    assert (sigs + [sig])[..|sigs|] == sigs;
  }

  lemma {:induction false} FlatConcat(a: seq<Sig>, b: seq<Sig>)
    ensures Flat(a + b) == Flat(a) + Flat(b)
  {
    if b == [] {
      assert a + b == a;
    } else {
      var n := |b| - 1;
      FlatConcat(a, b[..n]);
      SplitEnd(a, b);
      FlatEnd(a + b[..n], b[n]);
      Assoc(Flat(a), Flat(b[..n]), b[n].Tasks());
    }
  }

  lemma FlatOne(sig: Sig)
    ensures Flat([sig]) == sig.Tasks()
  {
    assert [sig][..0] == [];
  }

  lemma FlatSplit(sigs: seq<Sig>, k: nat)
    requires k < |sigs|
    ensures Flat(sigs[k..]) == sigs[k].Tasks() + Flat(sigs[k + 1..])
    ensures Flat(sigs) == Flat(sigs[..k]) + Flat(sigs[k..])
  {
    SplitAt(sigs, k);
    FlatConcat([sigs[k]], sigs[k + 1..]);
    FlatOne(sigs[k]);
    FlatConcat(sigs[..k], sigs[k..]);
  }

  lemma NotAmongAny(tasks: seq<Task>, ids: set<string>)
    requires Ids(tasks) !! ids
    ensures forall i :: 0 <= i < |tasks| ==> tasks[i].id !in ids
  {
    assert forall i :: 0 <= i < |tasks| ==> tasks[i] in tasks;
  }

  lemma {:induction false} FilteredTasks(tasks: seq<Task>, id: string)
    ensures Ids(FilterTasks(tasks, id)) == Ids(tasks) - {id}
    ensures forall x :: x in FilterTasks(tasks, id) <==> x in tasks && x.id != id
  {
    if tasks != [] {
      var n := |tasks| - 1;
      FilteredTasks(tasks[..n], id);
      LastOf(tasks);
      IdsEnd(tasks);
      if tasks[n].id != id {
        IdsConcat(FilterTasks(tasks[..n], id), [tasks[n]]);
        TrackedOne(tasks[n]);
      } else {
        AddNothing(FilterTasks(tasks[..n], id));
      }
    }
  }

  lemma {:induction false} FilteredFlat(sigs: seq<Sig>, id: string)
    ensures forall x :: x in Flat(sigs) && x.id != id ==> x in Flat(FilterSigs(sigs, id))
  {
    if sigs != [] {
      var n := |sigs| - 1;
      FilteredFlat(sigs[..n], id);
      FlatEnd(FilterSigs(sigs[..n], id), sigs[n]);
      AddNothing(FilterSigs(sigs[..n], id));
    }
  }

  lemma {:induction false} FilterSigsConcat(a: seq<Sig>, b: seq<Sig>, id: string)
    ensures FilterSigs(a + b, id) == FilterSigs(a, id) + FilterSigs(b, id)
  {
    if b == [] {
      assert a + b == a;
    } else {
      SplitEnd(a, b);
      assert (a + b)[..|a + b| - 1] == a + b[..|b| - 1];
      FilterSigsConcat(a, b[..|b| - 1], id);
    }
  }

  lemma {:induction false} NoneFiltered(sigs: seq<Sig>, id: string)
    requires forall i :: 0 <= i < |sigs| ==> !(sigs[i].Single? && sigs[i].task.id == id)
    ensures FilterSigs(sigs, id) == sigs
  {
    if sigs != [] {
      LastOf(sigs);
      NoneFiltered(sigs[..|sigs| - 1], id);
    }
  }

  /** Of distinct jobs, discarding one that was added singly drops its signature and keeps the others in order. */
  lemma {:induction false} SingleIsFiltered(sigs: seq<Sig>, k: nat)
    requires k < |sigs| && sigs[k].Single? && DistinctIds(Flat(sigs))
    ensures FilterSigs(sigs, sigs[k].task.id) == sigs[..k] + sigs[k + 1..]
    ensures sigs[k].task.id !in Ids(Flat(sigs[..k] + sigs[k + 1..]))
  {
    var id := sigs[k].task.id;
    var before, after := sigs[..k], sigs[k + 1..];
    SingleIsApart(sigs, k);
    SinglesAmong(before, id);
    SinglesAmong(after, id);
    SplitAt(sigs, k);
    FilteredBetween(before, sigs[k], after);
    FlatConcat(before, after);
    IdsConcat(Flat(before), Flat(after));
  }

  lemma {:induction false} FilteredBetween(before: seq<Sig>, sig: Sig, after: seq<Sig>)
    requires sig.Single?
    requires forall i :: 0 <= i < |before| ==> !(before[i].Single? && before[i].task.id == sig.task.id)
    requires forall i :: 0 <= i < |after| ==> !(after[i].Single? && after[i].task.id == sig.task.id)
    ensures FilterSigs(before + ([sig] + after), sig.task.id) == before + after
  {
    NoneFiltered(before, sig.task.id);
    NoneFiltered(after, sig.task.id);
    FilterSigsConcat([sig], after, sig.task.id);
    FilterSigsConcat(before, [sig] + after, sig.task.id);
    SingleFiltered(sig);
    assert FilterSigs([sig] + after, sig.task.id) == after;
  }

  lemma {:induction false} SingleFiltered(sig: Sig)
    requires sig.Single?
    ensures FilterSigs([sig], sig.task.id) == []
  {
    assert [sig][..0] == [];
    AddNothing(FilterSigs([sig][..0], sig.task.id));
  }

  lemma SingleIsApart(sigs: seq<Sig>, k: nat)
    requires k < |sigs| && sigs[k].Single? && DistinctIds(Flat(sigs))
    ensures sigs[k].task.id !in Ids(Flat(sigs[..k])) && sigs[k].task.id !in Ids(Flat(sigs[k + 1..]))
  {
    var task, before, after := sigs[k].task, Flat(sigs[..k]), Flat(sigs[k + 1..]);
    FlatSplit(sigs, k);
    DistinctConcat(before, [task] + after);
    DistinctConcat([task], after);
    IdsConcat([task], after);
    TrackedOne(task);
  }

  lemma {:induction false} SinglesAmong(sigs: seq<Sig>, id: string)
    requires id !in Ids(Flat(sigs))
    ensures forall i :: 0 <= i < |sigs| ==> !(sigs[i].Single? && sigs[i].task.id == id)
  {
    forall i | 0 <= i < |sigs| && sigs[i].Single?
      ensures sigs[i].task.id != id
    {
      FlatSplit(sigs, i);
      assert sigs[i].task in sigs[i].Tasks();
      assert sigs[i].task in Flat(sigs);
    }
  }

  /** Discarding leaves no single signature of the job, and every other signature. */
  lemma {:induction false} SinglesFiltered(sigs: seq<Sig>, id: string)
    ensures forall sig :: sig in FilterSigs(sigs, id) <==> sig in sigs && !(sig.Single? && sig.task.id == id)
  {
    if sigs != [] {
      SinglesFiltered(sigs[..|sigs| - 1], id);
      LastOf(sigs);
    }
  }

  /** Discarding a job leaves every other job of the signatures, and at most the job itself with them. */
  lemma {:induction false} FilteredSigs(sigs: seq<Sig>, id: string)
    requires DistinctIds(Flat(sigs))
    ensures var left := Flat(FilterSigs(sigs, id));
      DistinctIds(left) && (forall x :: x in left ==> x in Flat(sigs)) &&
      (forall x :: x in Flat(sigs) && x.id != id ==> x in left)
  {
    if sigs != [] {
      var n := |sigs| - 1;
      var before := FilterSigs(sigs[..n], id);
      LastOf(sigs);
      FlatEnd(sigs[..n], sigs[n]);
      DistinctConcat(Flat(sigs[..n]), sigs[n].Tasks());
      FilteredSigs(sigs[..n], id);
      if KeepsSig(sigs[n], id) {
        FlatEnd(before, sigs[n]);
        DistinctConcat(Flat(before), sigs[n].Tasks());
      } else {
        AddNothing(before);
      }
    }
  }

  lemma ThreeParts(all: seq<Task>, before: seq<Task>, mine: seq<Task>, after: seq<Task>)
    requires all == before + (mine + after) && DistinctIds(all)
    requires forall i :: 0 <= i < |all| ==> IsTask(all[i])
    ensures DistinctIds(mine) && Ids(mine) !! Ids(after) && Ids(mine) <= Ids(all)
    ensures Ids(mine + after) == Ids(mine) + Ids(after)
    ensures forall i :: 0 <= i < |mine| ==> IsTask(mine[i])
  {
    DistinctConcat(before, mine + after);
    DistinctConcat(mine, after);
    IdsConcat(before, mine + after);
    IdsConcat(mine, after);
    forall i | 0 <= i < |mine|
      ensures IsTask(mine[i])
    {
      assert all[|before| + i] == mine[i];
    }
  }
}
