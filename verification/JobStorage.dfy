/**
 * The job store: job records kept as Redis hashes of text, with typed fields,
 * merging updates, and an expiry time once a job is finished.
 */
module JobStorage {
  import opened Wrappers
  import TimeText

  datatype Value = Text(s: string) | Time(us: int) | Details(json: string)

  datatype StoreError = AttributeError | KeyError | ValueError | DataError

  type Record = map<string, Value>

  /** Data to be written: a field without a value is to be removed. */
  type Data = map<string, Option<Value>>

  type Hash = map<string, string>

  /** What Redis holds: hashes, none of them empty, and the keys with an expiry time. */
  datatype Redis = Redis(hashes: map<string, Hash>, expiring: set<string>)

  const TEXT_FIELDS := {"jobid", "name", "summary", "description", "userid", "logfile", "status"}
  const TIME_FIELDS := {"created", "started", "finished"}
  const FIELDS := TEXT_FIELDS + TIME_FIELDS + {"details"}

  /** Celery's ready states, to which the application adds ABORTED. */
  const READY_STATES := {"SUCCESS", "FAILURE", "REVOKED", "ABORTED"}

  predicate HasType(field: string, v: Value) {
    match v
    case Text(_) => field in TEXT_FIELDS
    case Time(_) => field in TIME_FIELDS
    case Details(_) => field == "details"
  }

  /** Three of the fields of a record are times, its details are JSON, and the others are texts. */
  lemma FieldsHaveTypes(field: string, v: Value)
    ensures HasType(field, v) <==>
      if field in {"created", "started", "finished"} then v.Time?
      else if field == "details" then v.Details?
      else field in {"jobid", "name", "summary", "description", "userid", "logfile", "status"} && v.Text?
    ensures field in FIELDS <==> exists w :: HasType(field, w)
  {
    assert field in TEXT_FIELDS ==> HasType(field, Text(""));
    assert field in TIME_FIELDS ==> HasType(field, Time(0));
    assert field == "details" ==> HasType(field, Details(""));
  }

  predicate WellTyped(data: Data) {
    forall f :: f in data && f in FIELDS && data[f].Some? ==> HasType(f, data[f].value)
  }

  function Dumps(v: Value): string {
    match v
    case Text(s) => s
    case Time(us) => TimeText.Encode(us)
    case Details(json) => json
  }

  function Loads(field: string, raw: string): Option<Value> {
    if field in TIME_FIELDS then
      match TimeText.Decode(raw)
      case None => None
      case Some(us) => Some(Time(us))
    else if field == "details" then Some(Details(raw))
    else Some(Text(raw))
  }

  lemma LoadsDumps(field: string, v: Value)
    requires HasType(field, v)
    ensures Loads(field, Dumps(v)) == Some(v) <==> v != Time(0)
    ensures v == Time(0) ==> Loads(field, Dumps(v)) == None
  {
    if v.Time? { TimeText.DecodeEncode(v.us); }
  }

  // ----- Redis commands -----

  predicate WellKept(r: Redis) {
    (forall k :: k in r.hashes ==> r.hashes[k] != map[]) && r.expiring <= r.hashes.Keys
  }

  function Delete(r: Redis, keys: set<string>): Redis {
    Redis(r.hashes - keys, r.expiring - keys)
  }

  /** Removing the last field of a hash removes its key, with its expiry time. */
  function HDel(r: Redis, key: string, fields: set<string>): Redis
    requires key in r.hashes
  {
    var rest := r.hashes[key] - fields;
    if rest == map[] then Delete(r, {key}) else r.(hashes := r.hashes[key := rest])
  }

  function HGetAll(r: Redis, key: string): Hash {
    if key in r.hashes then r.hashes[key] else map[]
  }

  function HMSet(r: Redis, key: string, fields: Hash): Redis {
    r.(hashes := r.hashes[key := HGetAll(r, key) + fields])
  }

  predicate IsReady(h: Hash) {
    "status" in h && h["status"] in READY_STATES
  }

  /** Jobs that have ended well or badly, were revoked or aborted, expire if expiry is configured; no others do. */
  lemma EndedJobsExpire(r: Redis, key: string)
    requires WellKept(r) && key in r.hashes && key !in r.expiring
    ensures key in ExpireIfReady(r, key, true).expiring <==>
      "status" in r.hashes[key] && r.hashes[key]["status"] in {"SUCCESS", "FAILURE", "REVOKED", "ABORTED"}
    ensures ExpireIfReady(r, key, false) == r
  {
  }

  function ExpireIfReady(r: Redis, key: string, expires: bool): Redis {
    if expires && key in r.hashes && IsReady(r.hashes[key]) then r.(expiring := r.expiring + {key}) else r
  }

  // ----- Store operations -----

  function Encoded(data: Data): Hash {
    map f | f in data && data[f].Some? :: Dumps(data[f].value)
  }

  function Removed(data: Data): set<string> {
    set f | f in data && data[f] == None
  }

  /** `__setitem__` */
  function AfterSetItem(r: Redis, expires: bool, id: string, data: Data): (Redis, Option<StoreError>) {
    if !(data.Keys <= FIELDS) then (r, Some(AttributeError))
    else
      var fields := Encoded(data);
      var stale := HGetAll(r, id).Keys - fields.Keys;
      var r1 := if stale != {} then HDel(r, id, stale) else r;
      if fields == map[] then (r1, Some(DataError))
      else (ExpireIfReady(HMSet(r1, id, fields), id, expires), None)
  }

  /** `update` */
  function AfterUpdate(r: Redis, expires: bool, id: string, data: Data): (Redis, Option<StoreError>) {
    if !(data.Keys <= FIELDS) then (r, Some(AttributeError))
    else if id !in r.hashes then (r, Some(KeyError))
    else
      var r1 := if Removed(data) != {} then HDel(r, id, Removed(data)) else r;
      var r2 := if Encoded(data) != map[] then HMSet(r1, id, Encoded(data)) else r1;
      (ExpireIfReady(r2, id, expires), None)
  }

  /** `__getitem__` */
  function GetItem(r: Redis, id: string): Result<Record, StoreError> {
    if id !in r.hashes then Err(KeyError)
    else if exists f :: f in r.hashes[id] && Loads(f, r.hashes[id][f]) == None then Err(ValueError)
    else Ok(map f | f in r.hashes[id] :: Loads(f, r.hashes[id][f]).value)
  }

  /** The fields that have a value. */
  function Given(data: Data): Record {
    map f | f in data && data[f].Some? :: data[f].value
  }

  /** The record with the valued fields replaced and the others removed. */
  function Merged(record: Record, data: Data): Record {
    (record - Removed(data)) + Given(data)
  }

  /** A hash that decodes to a record. */
  ghost predicate Decodes(h: Hash, record: Record) {
    h.Keys == record.Keys && forall f :: f in h ==> Loads(f, h[f]) == Some(record[f])
  }

  lemma DecodesIsGetItem(r: Redis, id: string, record: Record)
    requires id in r.hashes
    ensures Decodes(r.hashes[id], record) <==> GetItem(r, id) == Ok(record)
  {
    if Decodes(r.hashes[id], record) {
      assert GetItem(r, id).Ok? && GetItem(r, id).value == record;
    }
  }

  lemma EncodedDecodes(data: Data)
    requires WellTyped(data) && data.Keys <= FIELDS
    ensures Decodes(Encoded(data), Given(data)) <==> forall f :: f in data ==> data[f] != Some(Time(0))
  {
    forall f | f in Encoded(data)
      ensures Loads(f, Encoded(data)[f]) == Some(Given(data)[f]) <==> data[f] != Some(Time(0))
    {
      LoadsDumps(f, data[f].value);
    }
    if !(forall f :: f in data ==> data[f] != Some(Time(0))) {
      var f :| f in data && data[f] == Some(Time(0));
      assert f in Encoded(data);
    }
  }

  /** The hash that `__setitem__` leaves holds the given fields and nothing of the old record. */
  lemma SetItemStores(r: Redis, expires: bool, id: string, data: Data)
    requires WellKept(r) && data.Keys <= FIELDS && Encoded(data) != map[]
    ensures var (r', error) := AfterSetItem(r, expires, id, data);
      error == None && r'.hashes == r.hashes[id := Encoded(data)]
  {
    var fields := Encoded(data);
    var stale := HGetAll(r, id).Keys - fields.Keys;
    var r1 := if stale != {} then HDel(r, id, stale) else r;
    var kept := HGetAll(r, id) - stale;
    assert forall f :: f in kept ==> f in fields;
    assert HGetAll(r1, id) == kept;
    assert HGetAll(r1, id) + fields == fields;
    assert r1.hashes[id := fields] == r.hashes[id := fields];
  }

  /**
   * Writing a record and reading it back gives exactly its valued fields, unless
   * one of them is the time zero, whose text does not read as a number.
   */
  lemma SetThenGet(r: Redis, expires: bool, id: string, data: Data)
    requires WellKept(r) && WellTyped(data) && data.Keys <= FIELDS && Encoded(data) != map[]
    ensures GetItem(AfterSetItem(r, expires, id, data).0, id) == Ok(Given(data)) <==>
      forall f :: f in data ==> data[f] != Some(Time(0))
    ensures forall other :: other != id ==> GetItem(AfterSetItem(r, expires, id, data).0, other) == GetItem(r, other)
  {
    SetItemStores(r, expires, id, data);
    EncodedDecodes(data);
    DecodesIsGetItem(AfterSetItem(r, expires, id, data).0, id, Given(data));
  }

  lemma UpdateStores(r: Redis, expires: bool, id: string, data: Data)
    requires WellKept(r) && data.Keys <= FIELDS && id in r.hashes
    ensures var merged := (r.hashes[id] - Removed(data)) + Encoded(data);
      AfterUpdate(r, expires, id, data).1 == None &&
      AfterUpdate(r, expires, id, data).0.hashes ==
        if merged == map[] then r.hashes - {id} else r.hashes[id := merged]
  {
    var removed, fields := Removed(data), Encoded(data);
    var rest := r.hashes[id] - removed;
    HDelLeaves(r, id, removed);
    var r1 := if removed != {} then HDel(r, id, removed) else r;
    if removed == {} { assert rest == r.hashes[id] && r.hashes[id := rest] == r.hashes; }
    assert r1.hashes == if rest == map[] then r.hashes - {id} else r.hashes[id := rest];
    assert HGetAll(r1, id) == rest;
    if fields == map[] {
      assert rest + fields == rest;
    } else {
      SetTwice(r.hashes, id, rest, rest + fields);
    }
  }

  lemma HDelLeaves(r: Redis, id: string, fields: set<string>)
    requires id in r.hashes
    ensures var rest := r.hashes[id] - fields;
      HDel(r, id, fields).hashes == if rest == map[] then r.hashes - {id} else r.hashes[id := rest]
  {
  }

  lemma SetTwice(hashes: map<string, Hash>, id: string, h: Hash, h': Hash)
    ensures (hashes - {id})[id := h'] == hashes[id := h'] == hashes[id := h][id := h']
  {
  }

  /**
   * An update merges the valued fields into the record and removes the others, an
   * emptied record being gone, if and only if none of the values is the time
   * zero; with one the record no longer reads. Other records are left alone.
   */
  lemma UpdateMerges(r: Redis, expires: bool, id: string, data: Data, record: Record)
    requires WellKept(r) && WellTyped(data) && data.Keys <= FIELDS
    requires GetItem(r, id) == Ok(record)
    ensures var after := GetItem(AfterUpdate(r, expires, id, data).0, id);
      (after == (if Merged(record, data) == map[] then Err(KeyError) else Ok(Merged(record, data))) <==>
        forall f :: f in data ==> data[f] != Some(Time(0))) &&
      ((exists f :: f in data && data[f] == Some(Time(0))) ==> after == Err(ValueError))
    ensures forall other :: other != id ==> GetItem(AfterUpdate(r, expires, id, data).0, other) == GetItem(r, other)
  {
    UpdateStores(r, expires, id, data);
    DecodesIsGetItem(r, id, record);
    var merged := (r.hashes[id] - Removed(data)) + Encoded(data);
    var r' := AfterUpdate(r, expires, id, data).0;
    if f :| f in data && data[f] == Some(Time(0)) {
      LoadsDumps(f, Time(0));
      assert merged[f] == Dumps(Time(0));
      assert r'.hashes == r.hashes[id := merged];
      assert Loads(f, r'.hashes[id][f]) == None;
    } else {
      MergedDecodes(r.hashes[id], data, record);
      ReadsMerged(r, r', id, merged, Merged(record, data));
    }
  }

  lemma ReadsMerged(r: Redis, r': Redis, id: string, merged: Hash, record: Record)
    requires r'.hashes == if merged == map[] then r.hashes - {id} else r.hashes[id := merged]
    requires Decodes(merged, record) && (merged == map[] <==> record == map[])
    ensures GetItem(r', id) == if record == map[] then Err(KeyError) else Ok(record)
    ensures forall other :: other != id ==> GetItem(r', other) == GetItem(r, other)
  {
    if merged != map[] { DecodesIsGetItem(r', id, record); }
  }

  lemma MergedDecodes(h: Hash, data: Data, record: Record)
    requires WellTyped(data) && data.Keys <= FIELDS && Decodes(h, record)
    requires forall f :: f in data ==> data[f] != Some(Time(0))
    ensures Decodes((h - Removed(data)) + Encoded(data), Merged(record, data))
    ensures (h - Removed(data)) + Encoded(data) == map[] <==> Merged(record, data) == map[]
  {
    EncodedDecodes(data);
    var merged := (h - Removed(data)) + Encoded(data);
    assert merged.Keys == Merged(record, data).Keys;
    NoKeys(merged);
    NoKeys(Merged(record, data));
  }

  lemma NoKeys<T>(m: map<string, T>)
    ensures m.Keys == {} <==> m == map[]
  {
  }

  // ----- Runs -----

  datatype StoreOp =
    | Write(id: string, data: Data)
    | Change(id: string, data: Data)
    | DeleteMany(ids: set<string>)
    | TimePasses(id: string)   // Redis drops a key whose time is up

  function Perform(r: Redis, expires: bool, op: StoreOp): Redis {
    match op
    case Write(id, data) => AfterSetItem(r, expires, id, data).0
    case Change(id, data) => AfterUpdate(r, expires, id, data).0
    case DeleteMany(ids) => Delete(r, ids)
    case TimePasses(id) => if id in r.expiring then Delete(r, {id}) else r
  }

  function RunStore(ops: seq<StoreOp>, expires: bool): Redis {
    if ops == [] then Redis(map[], {}) else Perform(RunStore(ops[..|ops| - 1], expires), expires, ops[|ops| - 1])
  }

  ghost predicate ReadyOnesExpire(r: Redis, expires: bool) {
    forall id :: expires && id in r.hashes && IsReady(r.hashes[id]) ==> id in r.expiring
  }

  /** `r'` is in order, and has no new expiry times but those of ready records. */
  ghost predicate Kept(r: Redis, r': Redis, expires: bool) {
    WellKept(r') && ReadyOnesExpire(r', expires) &&
    forall id :: id in r'.expiring && id !in r.expiring ==> expires && id in r'.hashes && IsReady(r'.hashes[id])
  }

  lemma PerformKeeps(r: Redis, expires: bool, op: StoreOp)
    requires WellKept(r) && ReadyOnesExpire(r, expires)
    ensures Kept(r, Perform(r, expires, op), expires)
  {
    match op {
      case Write(id, data) => WriteKeeps(r, expires, id, data);
      case Change(id, data) => ChangeKeeps(r, expires, id, data);
      case DeleteMany(_) =>
      case TimePasses(_) =>
    }
  }

  /** Time takes a record exactly when it has an expiry time, and no other one. */
  lemma TimeTakesExpiring(r: Redis, expires: bool, id: string)
    requires WellKept(r)
    ensures var r' := Perform(r, expires, TimePasses(id));
      (id in r'.hashes <==> id in r.hashes && id !in r.expiring) &&
      forall other :: other != id ==>
        (other in r'.hashes <==> other in r.hashes) && (other in r'.expiring <==> other in r.expiring) &&
        (other in r.hashes ==> r'.hashes[other] == r.hashes[other])
  {
  }

  lemma WriteKeeps(r: Redis, expires: bool, id: string, data: Data)
    requires WellKept(r) && ReadyOnesExpire(r, expires)
    ensures Kept(r, AfterSetItem(r, expires, id, data).0, expires)
  {
    if data.Keys <= FIELDS && Encoded(data) != map[] {
      SetItemStores(r, expires, id, data);
    }
  }

  lemma ChangeKeeps(r: Redis, expires: bool, id: string, data: Data)
    requires WellKept(r) && ReadyOnesExpire(r, expires)
    ensures Kept(r, AfterUpdate(r, expires, id, data).0, expires)
  {
    if data.Keys <= FIELDS && id in r.hashes {
      UpdateStores(r, expires, id, data);
      var r1 := if Removed(data) != {} then HDel(r, id, Removed(data)) else r;
      assert r1.expiring <= r.expiring && (r1.expiring == r.expiring || id !in r1.hashes);
    }
  }

  ghost predicate Holds(ops: seq<StoreOp>, expires: bool, n: nat, id: string)
    requires n <= |ops|
  {
    id in RunStore(ops[..n], expires).hashes
  }

  ghost predicate ReadyAfter(ops: seq<StoreOp>, expires: bool, n: nat, id: string)
    requires n <= |ops|
  {
    Holds(ops, expires, n, id) && IsReady(RunStore(ops[..n], expires).hashes[id])
  }

  /** The job's status was ready after some step, and its record has been in the store after every step since. */
  ghost predicate ReadyAndKept(ops: seq<StoreOp>, expires: bool, id: string) {
    exists n :: 0 <= n <= |ops| && ReadyAfter(ops, expires, n, id) && KeptSince(ops, expires, n, id)
  }

  ghost predicate KeptSince(ops: seq<StoreOp>, expires: bool, n: nat, id: string)
    requires n <= |ops|
  {
    forall m :: n <= m <= |ops| ==> Holds(ops, expires, m, id)
  }

  lemma StillKept(ops: seq<StoreOp>, expires: bool, id: string)
    requires ops != [] && ReadyAndKept(ops[..|ops| - 1], expires, id) && Holds(ops, expires, |ops|, id)
    ensures ReadyAndKept(ops, expires, id)
  {
    var before := ops[..|ops| - 1];
    var n :| 0 <= n <= |before| && ReadyAfter(before, expires, n, id) && KeptSince(before, expires, n, id);
    assert before[..n] == ops[..n];
    assert ReadyAfter(ops, expires, n, id);
    forall m | n <= m <= |ops|
      ensures Holds(ops, expires, m, id)
    {
      if m < |ops| {
        assert Holds(before, expires, m, id);
        assert before[..m] == ops[..m];
      }
    }
    assert KeptSince(ops, expires, n, id);
  }

  /**
   * On every run of writes, updates, deletions and expiries: with expiry
   * configured every record whose status is ready has an expiry time, and a key
   * has one only if its status was ready after some step and its record has been
   * in the store ever since.
   */
  lemma {:induction false} ExpiryFollowsReadiness(ops: seq<StoreOp>, expires: bool)
    ensures WellKept(RunStore(ops, expires)) && ReadyOnesExpire(RunStore(ops, expires), expires)
    ensures forall id :: id in RunStore(ops, expires).expiring ==> expires && ReadyAndKept(ops, expires, id)
  {
    if ops != [] {
      var n := |ops| - 1;
      var before := ops[..n];
      ExpiryFollowsReadiness(before, expires);
      PerformKeeps(RunStore(before, expires), expires, ops[n]);
      assert ops[..|ops|] == ops;
      forall id | id in RunStore(ops, expires).expiring
        ensures expires && ReadyAndKept(ops, expires, id)
      {
        if id in RunStore(before, expires).expiring {
          StillKept(ops, expires, id);
        } else {
          assert ReadyAfter(ops, expires, |ops|, id) && KeptSince(ops, expires, |ops|, id);
        }
      }
    }
  }

  // ----- The store -----

  class JobStore {
    const expires: bool
    var hashes: map<string, Hash>
    var expiring: set<string>

    ghost predicate Valid()
      reads this
    {
      WellKept(Server()) && ReadyOnesExpire(Server(), expires)
    }

    ghost function Server(): Redis
      reads this
    {
      Redis(hashes, expiring)
    }

    constructor (expires: bool)
      ensures Valid() && Server() == Redis(map[], {}) && this.expires == expires
    {
      this.expires := expires;
      hashes, expiring := map[], {};
    }

    method HashDelete(key: string, fields: set<string>)
      requires key in hashes
      modifies this`hashes, this`expiring
      ensures Server() == HDel(old(Server()), key, fields)
    {
      var rest := hashes[key] - fields;
      if rest == map[] {
        hashes := hashes - {key};
        expiring := expiring - {key};
      } else {
        hashes := hashes[key := rest];
      }
    }

    method HashSet(key: string, fields: Hash)
      modifies this`hashes
      ensures Server() == HMSet(old(Server()), key, fields)
    {
      hashes := hashes[key := HGetAll(Redis(hashes, expiring), key) + fields];
    }

    method ExpireKeyIfReady(key: string)
      modifies this`expiring
      ensures Server() == ExpireIfReady(old(Server()), key, expires)
    {
      if expires && key in hashes && IsReady(hashes[key]) {
        expiring := expiring + {key};
      }
    }

    method SetItem(id: string, data: Data) returns (error: Option<StoreError>)
      requires Valid()
      modifies this
      ensures Valid() && (Server(), error) == AfterSetItem(old(Server()), expires, id, data)
    {
      PerformKeeps(Server(), expires, Write(id, data));
      if !(data.Keys <= FIELDS) { return Some(AttributeError); }
      var fields := Encoded(data);
      var stale := HGetAll(Redis(hashes, expiring), id).Keys - fields.Keys;
      if stale != {} { HashDelete(id, stale); }
      if fields == map[] { return Some(DataError); }
      HashSet(id, fields);
      ExpireKeyIfReady(id);
      return None;
    }

    method Update(id: string, data: Data) returns (error: Option<StoreError>)
      requires Valid()
      modifies this
      ensures Valid() && (Server(), error) == AfterUpdate(old(Server()), expires, id, data)
    {
      PerformKeeps(Server(), expires, Change(id, data));
      if !(data.Keys <= FIELDS) { return Some(AttributeError); }
      if id !in hashes { return Some(KeyError); }
      var removed := Removed(data);
      if removed != {} { HashDelete(id, removed); }
      var fields := Encoded(data);
      if fields != map[] { HashSet(id, fields); }
      ExpireKeyIfReady(id);
      return None;
    }

    method DeleteAll(ids: set<string>)
      requires Valid()
      modifies this
      ensures Valid() && Server() == Delete(old(Server()), ids)
    {
      hashes := hashes - ids;
      expiring := expiring - ids;
    }
  }
}
