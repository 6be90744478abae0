/** A cache whose entries expire, deleting them lazily, against a map that never deletes. */
module ExpiringCaches {
  import opened Wrappers

  type Key = string
  type Value = string
  type Time = real

  /** When an entry was added, and its value. */
  type Entries = map<Key, (Time, Value)>

  datatype Cache = Cache(data: Entries, lastCleanse: Time)

  datatype Op =
    | Set(key: Key, value: Value, asof: Time)
    | Update(values: map<Key, Value>, asof: Time)
    | Get(key: Key, now: Time)
    | Contains(key: Key, now: Time)
    | Cleanse(asof: Time)
    | Invalidate(key: Key)

  /** What an operation answers; only lookups answer anything. */
  datatype Answer = Silent | Found(value: Option<Value>) | Present(yes: bool)

  predicate Expired(entry: (Time, Value), seconds: Time, now: Time) {
    entry.0 + seconds < now
  }

  function Put(data: Entries, values: map<Key, Value>, asof: Time): Entries {
    map k | k in data.Keys + values.Keys :: if k in values then (asof, values[k]) else data[k]
  }

  // ----- What the cache does -----

  function Cleansed(c: Cache, seconds: Time, asof: Time): Cache {
    if c.lastCleanse + seconds < asof then
      Cache(map k | k in c.data && !Expired(c.data[k], seconds, asof) :: c.data[k], asof)
    else c
  }

  function Validated(c: Cache, seconds: Time, key: Key, now: Time): Cache {
    if key in c.data && Expired(c.data[key], seconds, now) then c.(data := c.data - {key}) else c
  }

  function Do(c: Cache, seconds: Time, op: Op): (Cache, Answer) {
    match op
    case Set(key, value, asof) => (c.(data := c.data[key := (asof, value)]), Silent)
    case Update(values, asof) => (c.(data := Put(c.data, values, asof)), Silent)
    case Get(key, now) =>
      var d := Validated(Cleansed(c, seconds, now), seconds, key, now);
      (d, Found(if key in d.data then Some(d.data[key].1) else None))
    case Contains(key, now) =>
      var d := Validated(c, seconds, key, now);
      (d, Present(key in d.data))
    case Cleanse(asof) => (Cleansed(c, seconds, asof), Silent)
    case Invalidate(key) => (c.(data := c.data - {key}), Silent)
  }

  // ----- The map that never deletes on its own -----

  function Lookup(all: Entries, seconds: Time, key: Key, now: Time): Option<Value> {
    if key in all && !Expired(all[key], seconds, now) then Some(all[key].1) else None
  }

  function DoPlain(all: Entries, seconds: Time, op: Op): (Entries, Answer) {
    match op
    case Set(key, value, asof) => (all[key := (asof, value)], Silent)
    case Update(values, asof) => (Put(all, values, asof), Silent)
    case Get(key, now) => (all, Found(Lookup(all, seconds, key, now)))
    case Contains(key, now) => (all, Present(Lookup(all, seconds, key, now).Some?))
    case Cleanse(_) => (all, Silent)
    case Invalidate(key) => (all - {key}, Silent)
  }

  /** The answers of a run, oldest first, and the state it leaves. */
  function Run(c: Cache, seconds: Time, ops: seq<Op>): (r: (Cache, seq<Answer>))
    ensures |r.1| == |ops|
  {
    if ops == [] then (c, [])
    else
      var (before, answers) := Run(c, seconds, ops[..|ops| - 1]);
      var (after, answer) := Do(before, seconds, ops[|ops| - 1]);
      (after, answers + [answer])
  }

  function RunPlain(all: Entries, seconds: Time, ops: seq<Op>): (r: (Entries, seq<Answer>))
    ensures |r.1| == |ops|
  {
    if ops == [] then (all, [])
    else
      var (before, answers) := RunPlain(all, seconds, ops[..|ops| - 1]);
      var (after, answer) := DoPlain(before, seconds, ops[|ops| - 1]);
      (after, answers + [answer])
  }

  /** The clock that an operation reads; storing does not look at it. */
  function Clock(op: Op): Option<Time> {
    match op
    case Get(_, now) => Some(now)
    case Contains(_, now) => Some(now)
    case Cleanse(asof) => Some(asof)
    case _ => None
  }

  /** The latest time the run has looked at the clock, no earlier than `start`, provided that it never goes back. */
  function Latest(start: Time, ops: seq<Op>): Option<Time> {
    if ops == [] then Some(start)
    else
      match (Latest(start, ops[..|ops| - 1]), Clock(ops[|ops| - 1]))
      case (None, _) => None
      case (latest, None) => latest
      case (Some(latest), Some(now)) => if latest <= now then Some(now) else None
  }

  /** The clock never goes back during the run. */
  predicate ClockNeverGoesBack(start: Time, ops: seq<Op>) {
    Latest(start, ops).Some?
  }

  /** The cache holds what the plain map holds, except entries that had expired by `latest`. */
  ghost predicate Represents(c: Cache, all: Entries, seconds: Time, latest: Time) {
    (forall k :: k in c.data ==> k in all && all[k] == c.data[k]) &&
    forall k :: k in all && k !in c.data ==> Expired(all[k], seconds, latest)
  }

  lemma StepAgrees(c: Cache, all: Entries, seconds: Time, latest: Time, op: Op)
    requires Represents(c, all, seconds, latest)
    requires Clock(op).Some? ==> latest <= Clock(op).value
    ensures var latest' := if Clock(op).Some? then Clock(op).value else latest;
      Represents(Do(c, seconds, op).0, DoPlain(all, seconds, op).0, seconds, latest') &&
      Do(c, seconds, op).1 == DoPlain(all, seconds, op).1
  {
  }

  /**
   * Lazy deletion is invisible: while the clock does not go back, any sequence
   * of operations, storing at whatever times, answers exactly as the map that
   * never deletes.
   */
  lemma {:induction false} LazyDeletionIsInvisible(start: Time, seconds: Time, ops: seq<Op>)
    requires ClockNeverGoesBack(start, ops)
    ensures Run(Cache(map[], start), seconds, ops).1 == RunPlain(map[], seconds, ops).1
    ensures Represents(Run(Cache(map[], start), seconds, ops).0, RunPlain(map[], seconds, ops).0, seconds,
                       Latest(start, ops).value)
  {
    if ops != [] {
      var before := ops[..|ops| - 1];
      LazyDeletionIsInvisible(start, seconds, before);
      StepAgrees(Run(Cache(map[], start), seconds, before).0, RunPlain(map[], seconds, before).0, seconds,
        Latest(start, before).value, ops[|ops| - 1]);
    }
  }

  /** The last value stored for a key, with its time, unless it was invalidated since. */
  function LastStored(ops: seq<Op>, key: Key): Option<(Time, Value)> {
    if ops == [] then None
    else
      var before := LastStored(ops[..|ops| - 1], key);
      match ops[|ops| - 1]
      case Set(k, value, asof) => if k == key then Some((asof, value)) else before
      case Update(values, asof) => if key in values then Some((asof, values[key])) else before
      case Invalidate(k) => if k == key then None else before
      case _ => before
  }

  lemma {:induction false} PlainHoldsLastStored(seconds: Time, ops: seq<Op>, key: Key)
    ensures var all := RunPlain(map[], seconds, ops).0;
      (key in all <==> LastStored(ops, key).Some?) && (key in all ==> Some(all[key]) == LastStored(ops, key))
  {
    if ops != [] { PlainHoldsLastStored(seconds, ops[..|ops| - 1], key); }
  }

  /**
   * While the clock does not go back a lookup answers the value stored last for
   * the key, as long as no more than `seconds` have gone since its time.
   */
  lemma {:induction false} AnswersLastStored(start: Time, seconds: Time, ops: seq<Op>, key: Key, now: Time)
    requires ClockNeverGoesBack(start, ops) && Latest(start, ops).value <= now
    ensures var c := Run(Cache(map[], start), seconds, ops).0;
      var valid := LastStored(ops, key).Some? && now <= LastStored(ops, key).value.0 + seconds;
      Do(c, seconds, Get(key, now)).1 == Found(if valid then Some(LastStored(ops, key).value.1) else None) &&
      Do(c, seconds, Contains(key, now)).1 == Present(valid)
  {
    LazyDeletionIsInvisible(start, seconds, ops);
    PlainHoldsLastStored(seconds, ops, key);
    var c, all := Run(Cache(map[], start), seconds, ops).0, RunPlain(map[], seconds, ops).0;
    StepAgrees(c, all, seconds, Latest(start, ops).value, Get(key, now));
    StepAgrees(c, all, seconds, Latest(start, ops).value, Contains(key, now));
  }

  /** When the clock goes back, a deleted entry stays deleted although it has not expired yet. */
  lemma ClockGoingBackIsVisible(seconds: Time)
    requires seconds >= 0.0
    ensures var ops := [Set("k", "v", 0.0), Contains("k", seconds + 1.0), Contains("k", 0.0)];
      Run(Cache(map[], 0.0), seconds, ops).1 != RunPlain(map[], seconds, ops).1 && !ClockNeverGoesBack(0.0, ops)
  {
    var ops := [Set("k", "v", 0.0), Contains("k", seconds + 1.0), Contains("k", 0.0)];
    assert ops[..2] == [ops[0], ops[1]] && ops[..2][..1] == [ops[0]] && ops[..2][..1][..0] == [];
    var c := Run(Cache(map[], 0.0), seconds, ops[..2]).0;
    assert Run(Cache(map[], 0.0), seconds, ops[..2][..1]).0.data == map["k" := (0.0, "v")];
    assert "k" !in c.data;
    assert RunPlain(map[], seconds, ops[..2][..1]).0 == map["k" := (0.0, "v")];
    assert Run(Cache(map[], 0.0), seconds, ops).1[2] == Present(false);
    assert RunPlain(map[], seconds, ops).1[2] == Present(true);
    assert Latest(0.0, ops[..2][..1]) == Some(0.0);
    assert Latest(0.0, ops[..2]) == Some(seconds + 1.0);
  }

  // ----- The cache -----

  class ExpiringCache {
    const seconds: Time
    var data: Entries
    var lastCleanse: Time

    ghost function View(): Cache
      reads this
    {
      Cache(data, lastCleanse)
    }

    constructor (seconds: Time, now: Time)
      ensures View() == Cache(map[], now) && this.seconds == seconds
    {
      this.seconds, data, lastCleanse := seconds, map[], now;
    }

    method Store(key: Key, value: Value, asof: Time)
      modifies this`data
      ensures View() == Do(old(View()), seconds, Set(key, value, asof)).0
    {
      var entry := (asof, value);
      if !(key in data && data[key] == entry) { data := data[key := entry]; }
      assert data == old(data)[key := entry];
    }

    method StoreAll(values: map<Key, Value>, asof: Time)
      modifies this`data
      ensures View() == Do(old(View()), seconds, Update(values, asof)).0
    {
      var todo := values.Keys;
      while todo != {}
        invariant todo <= values.Keys
        invariant data == Put(old(data), values - todo, asof)
      {
        var k :| k in todo;
        todo := todo - {k};
        Store(k, values[k], asof);
      }
      assert values - {} == values;
    }

    method Forget(key: Key)
      modifies this`data
      ensures View() == Do(old(View()), seconds, Invalidate(key)).0
    {
      data := data - {key};
    }

    method Sweep(asof: Time)
      modifies this
      ensures View() == Cleansed(old(View()), seconds, asof)
      ensures old(lastCleanse) + seconds < asof ==>
        lastCleanse == asof && (forall k :: k in data <==> k in old(data) && asof <= old(data)[k].0 + seconds) &&
        forall k :: k in data ==> data[k] == old(data)[k]
      ensures asof <= old(lastCleanse) + seconds ==> View() == old(View())
    {
      if lastCleanse + seconds < asof {
        lastCleanse := asof;
        var todo := data.Keys;
        while todo != {}
          invariant todo <= old(data).Keys && lastCleanse == asof
          invariant data ==
            map k | k in old(data) && (k in todo || !Expired(old(data)[k], seconds, asof)) :: old(data)[k]
        {
          var k :| k in todo;
          todo := todo - {k};
          if Expired(data[k], seconds, asof) { Forget(k); }
        }
      }
    }

    method Has(key: Key, now: Time) returns (yes: bool)
      modifies this`data
      ensures (View(), Present(yes)) == Do(old(View()), seconds, Contains(key, now))
    {
      if key !in data { return false; }
      if Expired(data[key], seconds, now) {
        Forget(key);
        return false;
      }
      return true;
    }

    method Fetch(key: Key, now: Time) returns (value: Option<Value>)
      modifies this
      ensures (View(), Found(value)) == Do(old(View()), seconds, Get(key, now))
    {
      Sweep(now);
      if key !in data { return None; }
      if Expired(data[key], seconds, now) {
        Forget(key);
        return None;
      }
      return Some(data[key].1);
    }
  }
}
