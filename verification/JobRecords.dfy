/** What staging, committing and sending jobs does to their records. */
module JobRecords {
  import opened Wrappers
  import opened Sequences
  import opened JobStorage
  import opened JobTasks
  import TimeText

  const STAGED := "STAGED"
  const PENDING := "PENDING"

  function FieldIn(h: Hash, field: string): Option<string> {
    if field in h then Some(h[field]) else None
  }

  function StatusIn(h: Hash): Option<string> {
    FieldIn(h, "status")
  }

  function StatusOf(r: Redis, id: string): Option<string> {
    if id in r.hashes then StatusIn(r.hashes[id]) else None
  }

  predicate IsStaged(r: Redis, id: string) {
    StatusOf(r, id) == Some(STAGED)
  }

  function NewRecord(task: Task, status: string, now: int): Data {
    task.fields["status" := Some(Text(status))]["created" := Some(Time(now))]
  }

  /** The record of a job: its status and time, and the other fields as the job gives them. */
  ghost predicate RecordFor(h: Hash, task: Task, status: string, now: int) {
    "status" in h && h["status"] == status && "created" in h && h["created"] == TimeText.Encode(now) &&
    forall f :: f != "status" && f != "created" ==>
      (f in h <==> f in task.fields && task.fields[f].Some?) && (f in h ==> h[f] == Dumps(task.fields[f].value))
  }

  lemma NewRecordIsFor(task: Task, status: string, now: int)
    ensures RecordFor(Encoded(NewRecord(task, status, now)), task, status, now)
  {
  }

  /** `_save_record` */
  function SaveRecord(r: Redis, expires: bool, task: Task, status: string, now: int): Redis {
    if task.id in r.hashes then r else AfterSetItem(r, expires, task.id, NewRecord(task, status, now)).0
  }

  /** `stage_jobrecord` */
  function StageOne(r: Redis, expires: bool, task: Task, now: int): Redis {
    if task.ignoreResult then r else SaveRecord(r, expires, task, STAGED, now)
  }

  function StatusChange(status: string): Data {
    map["status" := Some(Text(status))]
  }

  /** `commit_jobrecord` */
  function CommitOne(r: Redis, expires: bool, task: Task): Redis {
    if task.ignoreResult || !IsStaged(r, task.id) then r
    else AfterUpdate(r, expires, task.id, StatusChange(PENDING)).0
  }

  function SaveAll(r: Redis, expires: bool, tasks: seq<Task>, now: int): Redis {
    if tasks == [] then r
    else
      var n := |tasks| - 1;
      SaveRecord(SaveAll(r, expires, tasks[..n], now), expires, tasks[n], PENDING, now)
  }

  /**
   * `save_jobrecord`, run as jobs are published: if the first is tracked and has no
   * record, the records that are missing are saved as pending, up to the first
   * that cannot be built.
   */
  function Publish(r: Redis, expires: bool, tasks: seq<Task>, now: int): Redis {
    if tasks == [] || tasks[0].ignoreResult || tasks[0].id in r.hashes then r
    else SaveAll(r, expires, tasks[..Leading(tasks, Builds)], now)
  }

  lemma SavedRecord(r: Redis, expires: bool, task: Task, status: string, now: int)
    requires WellKept(r) && IsTask(task)
    ensures var r' := SaveRecord(r, expires, task, status, now);
      WellKept(r') && r'.hashes.Keys == r.hashes.Keys + {task.id} &&
      (forall id :: id != task.id ==>
        StatusOf(r', id) == StatusOf(r, id) && (id in r.expiring <==> id in r'.expiring)) &&
      (task.id !in r.hashes ==> r'.hashes == r.hashes[task.id := Encoded(NewRecord(task, status, now))] &&
                                StatusOf(r', task.id) == Some(status) &&
                                (status !in READY_STATES ==> task.id !in r'.expiring)) &&
      (task.id in r.hashes ==> r' == r)
  {
    if task.id !in r.hashes {
      var data := NewRecord(task, status, now);
      assert "status" in Encoded(data) && Encoded(data)["status"] == status;
      SetItemStores(r, expires, task.id, data);
      var r' := AfterSetItem(r, expires, task.id, data).0;
      assert r'.expiring <= r.expiring + {task.id};
    }
  }

  /** Committing turns the staged record of a job to pending and leaves every other field and record alone. */
  lemma CommittedRecord(r: Redis, expires: bool, task: Task)
    requires WellKept(r)
    ensures var r' := CommitOne(r, expires, task);
      WellKept(r') &&
      (!task.ignoreResult && IsStaged(r, task.id) ==>
        r'.hashes == r.hashes[task.id := r.hashes[task.id]["status" := PENDING]] && r'.expiring == r.expiring) &&
      (task.ignoreResult || !IsStaged(r, task.id) ==> r' == r)
  {
    if !task.ignoreResult && IsStaged(r, task.id) {
      var data := StatusChange(PENDING);
      var h := r.hashes[task.id];
      UpdateStores(r, expires, task.id, data);
      assert Removed(data) == {} && Encoded(data) == map["status" := PENDING];
      assert (h - {}) + map["status" := PENDING] == h["status" := PENDING];
    }
  }

  lemma CommittedStatus(r: Redis, expires: bool, task: Task)
    requires WellKept(r)
    ensures var r' := CommitOne(r, expires, task);
      WellKept(r') && r'.hashes.Keys == r.hashes.Keys &&
      forall id :: IsStaged(r', id) ==> IsStaged(r, id) && (id == task.id ==> task.ignoreResult)
  {
    CommittedRecord(r, expires, task);
  }

  lemma StagedOne(r: Redis, expires: bool, task: Task, now: int)
    requires WellKept(r) && IsTask(task)
    ensures var r' := StageOne(r, expires, task, now);
      WellKept(r') && r'.hashes.Keys <= r.hashes.Keys + (if task.ignoreResult then {} else {task.id}) &&
      forall id :: IsStaged(r', id) ==> IsStaged(r, id) || (id == task.id && !task.ignoreResult)
  {
    if !task.ignoreResult { SavedRecord(r, expires, task, STAGED, now); }
  }

  /** Data that would make a record staged. */
  predicate Stages(data: Data) {
    "status" in data && data["status"].Some? && Dumps(data["status"].value) == STAGED
  }

  lemma UpdatedRecord(r: Redis, expires: bool, id: string, data: Data)
    requires WellKept(r) && !Stages(data)
    ensures var r' := AfterUpdate(r, expires, id, data).0;
      WellKept(r') && r'.hashes.Keys <= r.hashes.Keys &&
      (forall other :: other != id ==>
        (other in r'.expiring <==> other in r.expiring) && (other in r'.hashes <==> other in r.hashes) &&
        (other in r.hashes ==> r'.hashes[other] == r.hashes[other])) &&
      forall any :: IsStaged(r', any) ==> IsStaged(r, any)
  {
    if data.Keys <= FIELDS && id in r.hashes {
      UpdateStores(r, expires, id, data);
      var r1 := if Removed(data) != {} then HDel(r, id, Removed(data)) else r;
      assert r1.expiring <= r.expiring && r.expiring <= r1.expiring + {id};
      var merged := (r.hashes[id] - Removed(data)) + Encoded(data);
      if "status" in merged {
        assert "status" in Encoded(data) || merged["status"] == r.hashes[id]["status"];
      }
    }
  }

  /** Only records with the given ids have been added or changed, and none has become staged. */
  ghost predicate OnlyTouches(r: Redis, r': Redis, ids: set<string>) {
    WellKept(r') && r'.hashes.Keys <= r.hashes.Keys + ids &&
    (forall id :: id !in ids ==> SameRecord(r, r', id)) && forall id :: IsStaged(r', id) ==> IsStaged(r, id)
  }

  predicate SameRecord(r: Redis, r': Redis, id: string) {
    (id in r'.expiring <==> id in r.expiring) && (id in r'.hashes <==> id in r.hashes) &&
    (id in r.hashes ==> r'.hashes[id] == r.hashes[id])
  }

  lemma SavedPending(r: Redis, expires: bool, task: Task, now: int)
    requires WellKept(r) && IsTask(task)
    ensures OnlyTouches(r, SaveRecord(r, expires, task, PENDING, now), {task.id})
  {
    SavedRecord(r, expires, task, PENDING, now);
    TouchesOne(r, SaveRecord(r, expires, task, PENDING, now), task.id);
  }

  lemma TouchesOne(r: Redis, r': Redis, id: string)
    requires WellKept(r') && r'.hashes.Keys == r.hashes.Keys + {id}
    requires forall other :: other != id ==> (other in r'.expiring <==> other in r.expiring)
    requires r' == r || (r'.hashes == r.hashes[id := HGetAll(r', id)] && !IsStaged(r', id))
    ensures OnlyTouches(r, r', {id})
  {
  }

  lemma {:induction false} SavedAll(r: Redis, expires: bool, tasks: seq<Task>, now: int)
    requires WellKept(r) && forall i :: 0 <= i < |tasks| ==> IsTask(tasks[i])
    ensures OnlyTouches(r, SaveAll(r, expires, tasks, now), Ids(tasks))
  {
    if tasks != [] {
      var n := |tasks| - 1;
      SavedAll(r, expires, tasks[..n], now);
      SavedPending(SaveAll(r, expires, tasks[..n], now), expires, tasks[n], now);
      TouchesTwice(r, SaveAll(r, expires, tasks[..n], now), SaveAll(r, expires, tasks, now),
        Ids(tasks[..n]), {tasks[n].id});
      IdsEnd(tasks);
    }
  }

  lemma TouchesTwice(r: Redis, r1: Redis, r2: Redis, a: set<string>, b: set<string>)
    requires OnlyTouches(r, r1, a) && OnlyTouches(r1, r2, b)
    ensures OnlyTouches(r, r2, a + b)
  {
  }

  lemma Published(r: Redis, expires: bool, tasks: seq<Task>, now: int)
    requires WellKept(r) && forall i :: 0 <= i < |tasks| ==> IsTask(tasks[i])
    ensures OnlyTouches(r, Publish(r, expires, tasks, now), Ids(tasks))
  {
    var first := tasks[..Leading(tasks, Builds)];
    SavedAll(r, expires, first, now);
    assert Ids(first) <= Ids(tasks);
  }
}
