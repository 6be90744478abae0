/** The job manager: what it shows of the shared store to the thread of a dispatcher, and deleting jobs. */
module JobManagers {
  import opened Wrappers
  import opened JobStorage
  import opened JobTasks
  import opened JobRecords
  import opened JobDispatch
  import opened JobDispatchers

  datatype JobError =
    | NoSuchJob
    | Unreadable     // ValueError from a field that does not decode
    | NoField        // KeyError for a missing status or id

  /** Celery's unready states, and STAGED. */
  const UNFINISHED_STATES := {"PENDING", "RECEIVED", "STARTED", "REJECTED", "RETRY", STAGED}

  predicate IsUnfinished(r: Redis, id: string) {
    StatusOf(r, id).Some? && StatusOf(r, id).value in UNFINISHED_STATES
  }

  // ----- Listing records -----

  /** A record that can be decoded and filtered: it has a status and, if that is STAGED, an id. */
  predicate CanBeListed(r: Redis, id: string) {
    id in r.hashes && GetItem(r, id).Ok? && "status" in r.hashes[id] && (IsStaged(r, id) ==> "jobid" in r.hashes[id])
  }

  /** Whether the filter of the queries lets a record pass; it goes by the id in the record. */
  predicate Listed(r: Redis, staged: set<string>, id: string) {
    id in r.hashes && (!IsStaged(r, id) || ("jobid" in r.hashes[id] && r.hashes[id]["jobid"] in staged))
  }

  function Listing(r: Redis, staged: set<string>, ids: set<string>): map<string, Record> {
    map id | id in ids && id in r.hashes && GetItem(r, id).Ok? && Listed(r, staged, id) :: GetItem(r, id).value
  }

  /** The ids in the records of unfinished jobs that name a record. */
  function UnfinishedIds(r: Redis): set<string> {
    set k | k in r.hashes && IsUnfinished(r, k) && "jobid" in r.hashes[k] && r.hashes[k]["jobid"] in r.hashes ::
      r.hashes[k]["jobid"]
  }

  /** Every record has a status and its own id. */
  predicate Named(r: Redis) {
    forall id :: id in r.hashes ==>
      "status" in r.hashes[id] && "jobid" in r.hashes[id] && r.hashes[id]["jobid"] == id
  }

  /** With records that name themselves the queries show what is visible, and fail only on what does not decode. */
  lemma ListedIsVisible(r: Redis, staged: set<string>, id: string)
    requires Named(r)
    ensures Listed(r, staged, id) <==> Visible(r, staged, id)
    ensures CanBeListed(r, id) <==> GetItem(r, id).Ok?
    ensures id in UnfinishedIds(r) <==> IsUnfinished(r, id)
  {
    if IsUnfinished(r, id) {
      assert r.hashes[id]["jobid"] == id;
    }
  }

  /** What the listings hold, with records that name themselves: all that is visible, or what of it is unfinished. */
  lemma ListingsHold(r: Redis, staged: set<string>, id: string)
    requires Named(r)
    ensures var visible := id in r.hashes && (r.hashes[id]["status"] == "STAGED" ==> id in staged);
      var all, unfinished := Listing(r, staged, r.hashes.Keys), Listing(r, staged, UnfinishedIds(r));
      (id in all <==> visible && GetItem(r, id).Ok?) && (id in all ==> Ok(all[id]) == GetItem(r, id)) &&
      (id in unfinished <==>
        id in all && r.hashes[id]["status"] in {"PENDING", "RECEIVED", "STARTED", "REJECTED", "RETRY", "STAGED"}) &&
      (id in unfinished ==> unfinished[id] == all[id])
  {
    ListedIsVisible(r, staged, id);
  }

  /** No status is both ready and unfinished. */
  lemma UnfinishedIsNotReady(r: Redis, id: string)
    requires id in r.hashes && IsUnfinished(r, id)
    ensures !IsReady(r.hashes[id])
  {
  }

  function JobOf(record: Result<Record, StoreError>): Result<Record, JobError> {
    match record
    case Ok(r) => Ok(r)
    case Err(_) => Err(Unreadable)
  }

  class JobManager {
    const dispatcher: JobDispatcher

    constructor (dispatcher: JobDispatcher)
      ensures this.dispatcher == dispatcher
    {
      this.dispatcher := dispatcher;
    }

    ghost function Server(): Redis
      reads dispatcher.store
    {
      dispatcher.store.Server()
    }

    ghost predicate CanSee(id: string)
      reads dispatcher, dispatcher.store
    {
      Visible(Server(), Ids(dispatcher.staged), id)
    }

    method GetJob(id: string) returns (r: Result<Record, JobError>)
      ensures r == Err(NoSuchJob) <==> !CanSee(id)
      ensures CanSee(id) ==> r == JobOf(GetItem(Server(), id))
    {
      var store := dispatcher.store;
      if id !in store.hashes { return Err(NoSuchJob); }
      if StatusIn(store.hashes[id]) == Some(STAGED) && id !in Ids(dispatcher.staged) { return Err(NoSuchJob); }
      return JobOf(GetItem(Redis(store.hashes, store.expiring), id));
    }

    /** `getAllJobs`, and `query` without criteria, taken to the end; they look fields up in the records. */
    method GetAllJobs() returns (r: Result<map<string, Record>, JobError>)
      ensures r.Ok? <==> forall id :: id in Server().hashes ==> CanBeListed(Server(), id)
      ensures r.Ok? ==> forall id :: id in Server().hashes ==> "status" in Server().hashes[id]
      ensures r.Ok? ==> forall id :: id in Server().hashes && Server().hashes[id]["status"] == "STAGED" ==>
        "jobid" in Server().hashes[id]
      ensures r.Ok? ==> r.value == Listing(Server(), Ids(dispatcher.staged), Server().hashes.Keys)
    {
      r := ListJobs(dispatcher.store.hashes.Keys, true);
    }

    /** `getUnfinishedJobs`, taken to the end; a field that a job record lacks reads as None. */
    method GetUnfinishedJobs() returns (r: Result<map<string, Record>, JobError>)
      ensures r.Ok? <==> forall id :: id in UnfinishedIds(Server()) ==> GetItem(Server(), id).Ok?
      ensures r.Ok? ==> r.value == Listing(Server(), Ids(dispatcher.staged), UnfinishedIds(Server()))
    {
      var store := dispatcher.store;
      r := ListJobs(UnfinishedIds(Redis(store.hashes, store.expiring)), false);
    }

    /** The records that pass the filter; `lookup` says whether a missing status or id is an error. */
    method ListJobs(ids: set<string>, lookup: bool) returns (r: Result<map<string, Record>, JobError>)
      requires ids <= Server().hashes.Keys
      ensures r.Ok? <==> forall id :: id in ids ==>
        if lookup then CanBeListed(Server(), id) else GetItem(Server(), id).Ok?
      ensures r.Ok? ==> r.value == Listing(Server(), Ids(dispatcher.staged), ids)
    {
      var server, staged := Redis(dispatcher.store.hashes, dispatcher.store.expiring), Ids(dispatcher.staged);
      var jobs: map<string, Record> := map[];
      var todo := ids;
      while todo != {}
        invariant todo <= ids && forall id :: id in ids - todo ==>
          if lookup then CanBeListed(server, id) else GetItem(server, id).Ok?
        invariant jobs == Listing(server, staged, ids - todo)
      {
        var id :| id in todo;
        var record := GetItem(server, id);
        if record.Err? { return Err(Unreadable); }
        var status, jobid := FieldIn(server.hashes[id], "status"), FieldIn(server.hashes[id], "jobid");
        if lookup && (status == None || (status == Some(STAGED) && jobid == None)) { return Err(NoField); }
        if status != Some(STAGED) || (jobid.Some? && jobid.value in staged) {
          jobs := jobs[id := record.value];
        }
        todo := todo - {id};
      }
      assert ids - {} == ids;
      return Ok(jobs);
    }

    /** Discards a job that is staged here, leaves one staged elsewhere alone, and deletes any other. */
    method DeleteJob(id: string)
      requires dispatcher.Valid()
      modifies dispatcher, dispatcher.store
      ensures dispatcher.Valid() && !CanSee(id)
      ensures Server() == if old(CanSee(id)) then Delete(old(Server()), {id}) else old(Server())
      ensures Ids(dispatcher.staged) ==
        if old(CanSee(id)) && IsStaged(old(Server()), id) then Ids(old(dispatcher.staged)) - {id}
        else Ids(old(dispatcher.staged))
      ensures old(CanSee(id)) && IsStaged(old(Server()), id) ==>
        forall sig :: sig in dispatcher.signatures <==>
          sig in old(dispatcher.signatures) && !(sig.Single? && sig.task.id == id)
      ensures !(old(CanSee(id)) && IsStaged(old(Server()), id)) ==>
        dispatcher.signatures == old(dispatcher.signatures)
    {
      var store := dispatcher.store;
      if id !in store.hashes { return; }
      if StatusIn(store.hashes[id]) == Some(STAGED) {
        if id in Ids(dispatcher.staged) {
          FilteredTasks(dispatcher.staged, id);
          dispatcher.Discard(id);
        }
        return;
      }
      store.DeleteAll({id});
    }
  }
}
