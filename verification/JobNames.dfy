/**
 * Records keep the id under which they are stored and a status, so that what the
 * job manager's queries show to a thread is what the thread may see.
 */
module JobNames {
  import opened Wrappers
  import opened Sequences
  import opened JobStorage
  import opened JobTasks
  import opened JobRecords
  import opened JobDispatch
  import opened JobManagers

  /** The fields of a job as they are built from its signature: they hold its id. */
  predicate NamesItself(task: Task) {
    IsTask(task) && "jobid" in task.fields && task.fields["jobid"] == Some(Text(task.id))
  }

  predicate AllNamed(tasks: seq<Task>) {
    forall x :: x in tasks ==> NamesItself(x)
  }

  /** Changes that keep the id and leave a status. */
  predicate KeepsNames(data: Data) {
    "jobid" !in data && ("status" in data ==> data["status"].Some?)
  }

  lemma SaveKeepsNamed(r: Redis, expires: bool, task: Task, status: string, now: int)
    requires WellKept(r) && Named(r) && NamesItself(task)
    ensures WellKept(SaveRecord(r, expires, task, status, now)) && Named(SaveRecord(r, expires, task, status, now))
  {
    SavedRecord(r, expires, task, status, now);
    if task.id !in r.hashes {
      var data := NewRecord(task, status, now);
      assert data["jobid"] == Some(Text(task.id)) && data["status"] == Some(Text(status));
      assert Encoded(data)["jobid"] == task.id && "status" in Encoded(data);
    }
  }

  lemma {:induction false} SaveAllKeepsNamed(r: Redis, expires: bool, tasks: seq<Task>, now: int)
    requires WellKept(r) && Named(r) && AllNamed(tasks)
    ensures WellKept(SaveAll(r, expires, tasks, now)) && Named(SaveAll(r, expires, tasks, now))
  {
    if tasks != [] {
      var n := |tasks| - 1;
      SaveAllKeepsNamed(r, expires, tasks[..n], now);
      SaveKeepsNamed(SaveAll(r, expires, tasks[..n], now), expires, tasks[n], PENDING, now);
    }
  }

  lemma PublishKeepsNamed(r: Redis, expires: bool, tasks: seq<Task>, now: int)
    requires WellKept(r) && Named(r) && AllNamed(tasks)
    ensures WellKept(Publish(r, expires, tasks, now)) && Named(Publish(r, expires, tasks, now))
  {
    SaveAllKeepsNamed(r, expires, tasks[..Leading(tasks, Builds)], now);
  }

  lemma UpdateKeepsNamed(r: Redis, expires: bool, id: string, data: Data)
    requires WellKept(r) && Named(r) && KeepsNames(data)
    ensures WellKept(AfterUpdate(r, expires, id, data).0) && Named(AfterUpdate(r, expires, id, data).0)
  {
    PerformKept(r, expires, id, data);
    if data.Keys <= FIELDS && id in r.hashes {
      UpdateStores(r, expires, id, data);
      var merged := (r.hashes[id] - Removed(data)) + Encoded(data);
      assert "status" in merged && merged["jobid"] == id;
    }
  }

  lemma PerformKept(r: Redis, expires: bool, id: string, data: Data)
    requires WellKept(r)
    ensures WellKept(AfterUpdate(r, expires, id, data).0)
  {
    if data.Keys <= FIELDS && id in r.hashes {
      UpdateStores(r, expires, id, data);
      var r1 := if Removed(data) != {} then HDel(r, id, Removed(data)) else r;
      assert r1.expiring <= r.expiring && (r1.expiring == r.expiring || id !in r1.hashes);
    }
  }

  /** Every record names itself, and so does every job of a transaction. */
  ghost predicate AllThingsNamed(s: Sys) {
    WellKept(s.store) && Named(s.store) && forall t: Tid :: ThreadNamed(ThreadOf(s, t))
  }

  predicate ThreadNamed(th: Thread) {
    AllNamed(th.staged) && (forall i :: 0 <= i < |th.signatures| ==> AllNamed(th.signatures[i].Tasks())) &&
    (th.phase.Adding? ==> AllNamed(th.phase.sig.Tasks()))
  }

  predicate StepKeepsNames(e: Step) {
    match e
    case BeginAdd(_, sig) => AllNamed(sig.Tasks())
    case UpdateJob(_, _, data) => KeepsNames(data)
    case WorkerSets(_, data) => KeepsNames(data)
    case WorkerPublishes(tasks, _) => AllNamed(tasks)
    case _ => true
  }

  lemma {:induction false} FilteredStayNamed(tasks: seq<Task>, sigs: seq<Sig>, id: string)
    requires AllNamed(tasks) && forall i :: 0 <= i < |sigs| ==> AllNamed(sigs[i].Tasks())
    ensures AllNamed(FilterTasks(tasks, id))
    ensures forall i :: 0 <= i < |FilterSigs(sigs, id)| ==> AllNamed(FilterSigs(sigs, id)[i].Tasks())
    decreases |sigs|
  {
    FilteredTasks(tasks, id);
    if sigs != [] {
      FilteredStayNamed(tasks, sigs[..|sigs| - 1], id);
    }
  }

  lemma FailureKeepsNamed(s: Sys, expires: bool, t: Tid, saved: Option<int>)
    requires AllThingsNamed(s)
    ensures var store' := Next(s, expires, FinishFails(t, saved)).store; WellKept(store') && Named(store')
  {
    var th := ThreadOf(s, t);
    if saved.Some? && th.phase.Sending? && th.phase.k < |th.signatures| {
      PublishKeepsNamed(s.store, expires, th.signatures[th.phase.k].Tasks(), saved.value);
    }
  }

  lemma StoreAfter(s: Sys, expires: bool, e: Step)
    requires AllThingsNamed(s) && StepKeepsNames(e)
    ensures var store' := Next(s, expires, e).store; WellKept(store') && Named(store')
  {
    match e {
      case StageNext(t, now) =>
        var th := ThreadOf(s, t);
        if MayStage(th) {
          SaveKeepsNamed(s.store, expires, th.phase.sig.Tasks()[th.phase.k], STAGED, now);
        }
      case CommitNext(t) =>
        var th := ThreadOf(s, t);
        if th.phase.Committing? && th.phase.k < |th.staged| {
          UpdateKeepsNamed(s.store, expires, th.staged[th.phase.k].id, StatusChange(PENDING));
        }
      case SendNext(t, now) =>
        var th := ThreadOf(s, t);
        if th.phase.Sending? && th.phase.k < |th.signatures| {
          PublishKeepsNamed(s.store, expires, th.signatures[th.phase.k].Tasks(), now);
        }
      case FinishFails(t, saved) => FailureKeepsNamed(s, expires, t, saved);
      case UpdateJob(_, id, data) => UpdateKeepsNamed(s.store, expires, id, data);
      case WorkerSets(id, data) => UpdateKeepsNamed(s.store, expires, id, data);
      case WorkerPublishes(tasks, now) => PublishKeepsNamed(s.store, expires, tasks, now);
      case _ =>
    }
  }

  lemma ThreadsAfter(s: Sys, expires: bool, e: Step, t: Tid)
    requires AllThingsNamed(s) && StepKeepsNames(e)
    ensures ThreadNamed(ThreadOf(Next(s, expires, e), t))
  {
    var th := ThreadOf(s, t);
    if e.Discard? { FilteredStayNamed(th.staged, th.signatures, e.id); }
  }

  lemma {:induction false} RunKeepsNames(expires: bool, es: seq<Step>)
    requires forall i :: 0 <= i < |es| ==> StepKeepsNames(es[i])
    ensures AllThingsNamed(Run(START, expires, es))
  {
    if es != [] {
      var n := |es| - 1;
      RunKeepsNames(expires, es[..n]);
      StoreAfter(Run(START, expires, es[..n]), expires, es[n]);
      forall t: Tid
        ensures ThreadNamed(ThreadOf(Run(START, expires, es), t))
      {
        ThreadsAfter(Run(START, expires, es[..n]), expires, es[n], t);
      }
    }
  }

  /**
   * On every run whose jobs are built with their ids, and whose updates keep ids
   * and leave a status: the queries of a thread list exactly the jobs that it may
   * see, and none that is staged by another thread.
   */
  lemma QueriesShowWhatIsVisible(expires: bool, es: seq<Step>, t: Tid, id: string)
    requires forall i :: 0 <= i < |es| ==> StepKeepsNames(es[i])
    ensures var s := Run(START, expires, es);
      (Listed(s.store, StagedIds(ThreadOf(s, t)), id) <==> Shows(s, t, id)) &&
      (CanBeListed(s.store, id) <==> GetItem(s.store, id).Ok?) &&
      (Listed(s.store, StagedIds(ThreadOf(s, t)), id) && IsStaged(s.store, id) ==>
        forall u: Tid :: id in TxIds(s, u) ==> u == t)
  {
    var s := Run(START, expires, es);
    RunKeepsNames(expires, es);
    ListedIsVisible(s.store, StagedIds(ThreadOf(s, t)), id);
    if IsStaged(s.store, id) {
      StagedBelongsToOneThread(expires, es, id);
    }
  }
}
