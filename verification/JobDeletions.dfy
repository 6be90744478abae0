/** Deleting some records comes to the same before and after an operation on others. */
module JobDeletions {
  import opened Wrappers
  import opened JobStorage
  import opened JobTasks
  import opened JobRecords

  lemma HDelCommutes(r: Redis, id: string, fields: set<string>, ids: set<string>)
    requires WellKept(r) && id in r.hashes
    ensures Delete(HDel(r, id, fields), ids) == if id in ids then Delete(r, ids) else HDel(Delete(r, ids), id, fields)
  {
    var rest := r.hashes[id] - fields;
    var d := Delete(r, ids);
    if rest == map[] {
      assert Delete(Delete(r, {id}), ids) == Delete(d, {id});
    } else {
      assert r.hashes[id := rest] - ids == if id in ids then r.hashes - ids else (r.hashes - ids)[id := rest];
    }
  }

  lemma HMSetCommutes(r: Redis, id: string, fields: Hash, ids: set<string>)
    ensures Delete(HMSet(r, id, fields), ids) == if id in ids then Delete(r, ids) else HMSet(Delete(r, ids), id, fields)
  {
    var h := HGetAll(r, id) + fields;
    assert r.hashes[id := h] - ids == if id in ids then r.hashes - ids else (r.hashes - ids)[id := h];
  }

  lemma ExpireCommutes(r: Redis, expires: bool, id: string, ids: set<string>)
    ensures Delete(ExpireIfReady(r, id, expires), ids) ==
      if id in ids then Delete(r, ids) else ExpireIfReady(Delete(r, ids), id, expires)
  {
    assert (r.expiring + {id}) - ids == if id in ids then r.expiring - ids else (r.expiring - ids) + {id};
  }

  lemma UpdateCommutes(r: Redis, expires: bool, id: string, data: Data, ids: set<string>)
    requires WellKept(r)
    ensures Delete(AfterUpdate(r, expires, id, data).0, ids) == AfterUpdate(Delete(r, ids), expires, id, data).0
  {
    var d := Delete(r, ids);
    if data.Keys <= FIELDS && id in r.hashes {
      var removed, fields := Removed(data), Encoded(data);
      var r1 := if removed != {} then HDel(r, id, removed) else r;
      var r2 := if fields != map[] then HMSet(r1, id, fields) else r1;
      HDelCommutes(r, id, removed, ids);
      HMSetCommutes(r1, id, fields, ids);
      ExpireCommutes(r2, expires, id, ids);
      if id in ids {
        assert id !in d.hashes;
      }
    }
  }

  lemma SaveCommutes(r: Redis, expires: bool, task: Task, status: string, now: int, ids: set<string>)
    requires WellKept(r) && IsTask(task) && task.id !in ids
    ensures Delete(SaveRecord(r, expires, task, status, now), ids)
         == SaveRecord(Delete(r, ids), expires, task, status, now)
  {
    if task.id !in r.hashes {
      var fields := Encoded(NewRecord(task, status, now));
      assert "status" in fields;
      assert HGetAll(r, task.id) == map[] && HGetAll(Delete(r, ids), task.id) == map[];
      HMSetCommutes(r, task.id, fields, ids);
      ExpireCommutes(HMSet(r, task.id, fields), expires, task.id, ids);
    }
  }

  lemma {:induction false} SaveAllCommutes(r: Redis, expires: bool, tasks: seq<Task>, now: int, ids: set<string>)
    requires WellKept(r) && (forall i :: 0 <= i < |tasks| ==> IsTask(tasks[i]))
    requires forall i :: 0 <= i < |tasks| ==> tasks[i].id !in ids
    ensures Delete(SaveAll(r, expires, tasks, now), ids) == SaveAll(Delete(r, ids), expires, tasks, now)
  {
    if tasks != [] {
      var n := |tasks| - 1;
      SavedAll(r, expires, tasks[..n], now);
      SaveAllCommutes(r, expires, tasks[..n], now, ids);
      SaveCommutes(SaveAll(r, expires, tasks[..n], now), expires, tasks[n], PENDING, now, ids);
    }
  }

  lemma CommitCommutes(r: Redis, expires: bool, task: Task, ids: set<string>)
    requires WellKept(r) && task.id !in ids
    ensures Delete(CommitOne(r, expires, task), ids) == CommitOne(Delete(r, ids), expires, task)
  {
    DeleteKeepsStatus(r, ids, task.id);
    UpdateCommutes(r, expires, task.id, StatusChange(PENDING), ids);
  }

  lemma PublishCommutes(r: Redis, expires: bool, tasks: seq<Task>, now: int, ids: set<string>)
    requires WellKept(r) && (forall i :: 0 <= i < |tasks| ==> IsTask(tasks[i])) && Ids(tasks) !! ids
    ensures Delete(Publish(r, expires, tasks, now), ids) == Publish(Delete(r, ids), expires, tasks, now)
  {
    NotAmongAny(tasks, ids);
    SaveAllCommutes(r, expires, tasks[..Leading(tasks, Builds)], now, ids);
  }

  lemma DeleteKeepsStatus(r: Redis, ids: set<string>, id: string)
    ensures id !in ids ==> StatusOf(Delete(r, ids), id) == StatusOf(r, id)
    ensures id in ids ==> id !in Delete(r, ids).hashes && StatusOf(Delete(r, ids), id) == None
  {
  }

  lemma DeleteCommutes(r: Redis, ids: set<string>, more: set<string>)
    ensures Delete(Delete(r, more), ids) == Delete(Delete(r, ids), more)
    ensures more <= ids ==> Delete(Delete(r, more), ids) == Delete(r, ids)
  {
    assert (r.hashes - more) - ids == (r.hashes - ids) - more;
    assert (r.expiring - more) - ids == (r.expiring - ids) - more;
    if more <= ids {
      assert (r.hashes - more) - ids == r.hashes - ids;
    }
  }

  lemma DroppedIds(r: Redis, ids: set<string>, rest: set<string>, some: set<string>)
    requires rest + some == ids
    ensures Delete(Delete(r, some), rest) == Delete(r, ids)
  {
    assert (r.hashes - some) - rest == r.hashes - ids;
    assert (r.expiring - some) - rest == r.expiring - ids;
  }
}
