/**
 * The modeler's collection slots: devices are requested one at a time from an
 * iterator, their clients run side by side, and the loop ends when all is done.
 */
module Modelers {
  import opened Wrappers
  import opened Sequences

  type Device = string
  type ClientId = nat

  /** One device gets at most a WMI, Python, command, SNMP and port scan client. */
  const MAX_CLIENTS := 5

  // ----- Iterators -----

  /** A list iterator, or one with items chained in front of it. */
  datatype Gen = Iter(items: seq<Device>) | Chain(first: seq<Device>, rest: Gen)

  function Items(g: Gen): seq<Device> {
    match g
    case Iter(items) => items
    case Chain(first, rest) => first + Items(rest)
  }

  /** `next()`: the next item and the iterator after it. */
  function Advance(g: Gen): (r: Option<(Device, Gen)>)
    ensures r == None <==> Items(g) == []
    ensures r.Some? ==> Items(g) == [r.value.0] + Items(r.value.1)
  {
    match g
    case Iter(items) => if items == [] then None else Some((items[0], Iter(items[1..])))
    case Chain(first, rest) =>
      if first != [] then
        assert first == [first[0]] + first[1..];
        Some((first[0], Chain(first[1..], rest)))
      else
        assert Items(g) == Items(rest);
        Advance(rest)
  }

  // ----- The modeler as steps -----

  /**
   * `devices` is the list of this collector loop, `requested` those asked for so
   * far and `left` those still to come; `added` are the clients added since the
   * finished ones were last cleared, `used` all there ever were.
   */
  datatype Modeler = Modeler(
    parallel: int, devices: seq<Device>, requested: seq<Device>, left: seq<Device>, pending: bool,
    clients: seq<ClientId>, finished: seq<ClientId>, timedOut: set<ClientId>,
    gotList: bool, started: bool, added: seq<ClientId>, used: set<ClientId>)

  datatype Step =
    | Main                                  // the first loop begins
    | Begin                                 // a collector loop begins
    | GotList(list: seq<Device>)            // its device list arrives
    | Announce                              // the loop knows that it has its list
    | Fill                                  // try to fill a slot
    | Reply(newClients: seq<ClientId>)      // the requested configuration arrives
    | ReplyFails
    | TimeOut(late: set<ClientId>)          // the clients that are past their time are stopped
    | Complete(client: ClientId)            // a client's results have been processed

  predicate MustGoOn(m: Modeler) {
    m.pending || m.clients != [] || m.left != [] || !m.gotList
  }

  /** `checkStop`: the loop's end reports and clears what has finished. */
  function CheckStop(m: Modeler): Modeler {
    if MustGoOn(m) || !m.started then m else m.(started := false, finished := [], added := [])
  }

  predicate HasRoom(m: Modeler) {
    |m.clients| < m.parallel && m.left != [] && !m.pending
  }

  predicate Distinct(s: seq<ClientId>) {
    forall i, j :: 0 <= i < j < |s| ==> s[i] != s[j]
  }

  /** New client objects, at most one of each kind. */
  predicate AreNew(m: Modeler, ids: seq<ClientId>) {
    Distinct(ids) && Members(ids) !! m.used && |ids| <= MAX_CLIENTS
  }

  function Keep(s: seq<ClientId>, out: set<ClientId>): seq<ClientId> {
    if s == [] then [] else Keep(s[..|s| - 1], out) + if s[|s| - 1] in out then [] else [s[|s| - 1]]
  }

  function Pick(s: seq<ClientId>, out: set<ClientId>): seq<ClientId> {
    if s == [] then [] else Pick(s[..|s| - 1], out) + if s[|s| - 1] in out then [s[|s| - 1]] else []
  }

  /** `list.remove` */
  function RemoveFirst(s: seq<ClientId>, c: ClientId): seq<ClientId> {
    if s == [] then [] else if s[0] == c then s[1..] else [s[0]] + RemoveFirst(s[1..], c)
  }

  /** Moves the late clients to the finished ones. */
  function Expel(m: Modeler, late: set<ClientId>): Modeler {
    m.(clients := Keep(m.clients, late), finished := m.finished + Pick(m.clients, late),
       timedOut := m.timedOut + Members(Pick(m.clients, late)))
  }

  function Next(m: Modeler, e: Step): Modeler {
    match e
    case Main => m.(finished := [], added := m.clients)
    case Begin => if m.clients == [] then m.(gotList := false, started := true) else m
    case GotList(list) => m.(devices := list, requested := [], left := list)
    case Announce => m.(gotList := true)
    case Fill =>
      if HasRoom(m) then m.(pending := true, requested := m.requested + [m.left[0]], left := m.left[1..])
      else CheckStop(m)
    case Reply(ids) =>
      if m.pending && AreNew(m, ids) then
        CheckStop(m.(pending := false, clients := m.clients + ids, added := m.added + ids,
                     used := m.used + Members(ids)))
      else m
    case ReplyFails => m.(pending := false)
    case TimeOut(late) => Expel(m, late)
    case Complete(client) =>
      if client !in m.clients then m
      else m.(clients := RemoveFirst(m.clients, client), finished := m.finished + [client])
  }

  function Fresh(parallel: int): Modeler {
    Modeler(parallel, [], [], [], false, [], [], {}, false, false, [], {})
  }

  function Run(parallel: int, es: seq<Step>): Modeler {
    if es == [] then Fresh(parallel) else Next(Run(parallel, es[..|es| - 1]), es[|es| - 1])
  }

  // ----- What every step keeps -----

  /** Devices are requested in list order, each once. */
  predicate InOrder(m: Modeler) {
    m.requested + m.left == m.devices
  }

  /** Each client added since the last clearing is active or finished, and only once. */
  predicate OncePerClient(m: Modeler) {
    multiset(m.clients + m.finished) == multiset(m.added) && Distinct(m.added) && Members(m.added) <= m.used
  }

  /** A request is only made with a free slot, so that at most four clients too many are active. */
  predicate Bounded(m: Modeler) {
    (m.pending ==> |m.clients| < m.parallel) &&
    |m.clients| <= (if m.parallel <= 0 then 0 else m.parallel + MAX_CLIENTS - 1)
  }

  /** A client that has timed out is never active again. */
  predicate LateOnesAreOut(m: Modeler) {
    m.timedOut <= m.used && m.timedOut !! Members(m.clients)
  }

  predicate Inv(m: Modeler) {
    InOrder(m) && OncePerClient(m) && Bounded(m) && LateOnesAreOut(m)
  }

  lemma {:induction false} KeepAndPick(s: seq<ClientId>, out: set<ClientId>)
    ensures multiset(Keep(s, out)) + multiset(Pick(s, out)) == multiset(s)
    ensures |Keep(s, out)| <= |s|
  {
    if s != [] {
      KeepAndPick(s[..|s| - 1], out);
      assert s == s[..|s| - 1] + [s[|s| - 1]];
    }
  }

  lemma {:induction false} KeepAndPickMembers(s: seq<ClientId>, out: set<ClientId>)
    ensures Members(Keep(s, out)) == Members(s) - out
    ensures Members(Pick(s, out)) == Members(s) * out
  {
    if s != [] {
      var n := |s| - 1;
      KeepAndPickMembers(s[..n], out);
      assert s == s[..n] + [s[n]] && Members<ClientId>([]) == {} && Members([s[n]]) == {s[n]};
      MembersConcat(s[..n], [s[n]]);
      MembersConcat(Keep(s[..n], out), if s[n] in out then [] else [s[n]]);
      MembersConcat(Pick(s[..n], out), if s[n] in out then [s[n]] else []);
    }
  }

  lemma {:induction false} RemoveFirstMembers(s: seq<ClientId>, c: ClientId)
    ensures Members(RemoveFirst(s, c)) <= Members(s)
  {
    if s != [] && s[0] != c {
      RemoveFirstMembers(s[1..], c);
      assert s == [s[0]] + s[1..];
      MembersConcat([s[0]], s[1..]);
      MembersConcat([s[0]], RemoveFirst(s[1..], c));
    }
  }

  /** A time-out marks and finishes exactly the late clients, and leaves the others active. */
  lemma TimeOutMovesTheLate(m: Modeler, late: set<ClientId>)
    ensures var m' := Next(m, TimeOut(late));
      Members(m'.clients) == Members(m.clients) - late &&
      Members(m'.finished) == Members(m.finished) + Members(m.clients) * late &&
      m'.timedOut == m.timedOut + Members(m.clients) * late
  {
    KeepAndPickMembers(m.clients, late);
  }

  lemma PickEnd(s: seq<ClientId>, k: nat, out: set<ClientId>)
    requires k < |s|
    ensures s[k] in out ==>
      Pick(s[..k + 1], out) == Pick(s[..k], out) + [s[k]] && Keep(s[..k + 1], out) == Keep(s[..k], out) &&
      Members(Pick(s[..k + 1], out)) == Members(Pick(s[..k], out)) + {s[k]}
    ensures s[k] !in out ==>
      Pick(s[..k + 1], out) == Pick(s[..k], out) && Keep(s[..k + 1], out) == Keep(s[..k], out) + [s[k]]
  {
    assert s[..k + 1][..k] == s[..k];
  }

  lemma {:induction false} RemovesOne(s: seq<ClientId>, c: ClientId)
    requires c in s
    ensures multiset(RemoveFirst(s, c)) + multiset{c} == multiset(s) && |RemoveFirst(s, c)| == |s| - 1
  {
    assert s == [s[0]] + s[1..];
    if s[0] != c {
      RemovesOne(s[1..], c);
    }
  }

  lemma DistinctConcat(a: seq<ClientId>, b: seq<ClientId>)
    requires Distinct(a) && Distinct(b) && Members(a) !! Members(b)
    ensures Distinct(a + b) && Members(a + b) == Members(a) + Members(b)
  {
    var s := a + b;
    forall i, j | 0 <= i < j < |s|
      ensures s[i] != s[j]
    {
      if i < |a| <= j {
        assert a[i] in Members(a) && b[j - |a|] in Members(b);
      }
    }
  }

  lemma SameClients(
    clients: seq<ClientId>, finished: seq<ClientId>, clients': seq<ClientId>, finished': seq<ClientId>,
    added: seq<ClientId>)
    requires multiset(clients + finished) == multiset(added)
    requires multiset(clients') + multiset(finished') == multiset(clients) + multiset(finished)
    ensures multiset(clients' + finished') == multiset(added)
  {
  }

  lemma PartUsed(m: Modeler)
    requires OncePerClient(m)
    ensures Members(m.clients) <= m.used
  {
    forall x | x in m.clients
      ensures x in m.used
    {
      assert x in multiset(m.clients + m.finished);
      assert x in m.added;
    }
  }

  lemma ExpelKeeps(m: Modeler, late: set<ClientId>)
    requires Inv(m)
    ensures Inv(Expel(m, late))
  {
    KeepAndPick(m.clients, late);
    KeepAndPickMembers(m.clients, late);
    PartUsed(m);
    SameClients(m.clients, m.finished, Keep(m.clients, late), m.finished + Pick(m.clients, late), m.added);
  }

  lemma CompleteKeeps(m: Modeler, client: ClientId)
    requires Inv(m) && client in m.clients
    ensures Inv(Next(m, Complete(client)))
  {
    RemovesOne(m.clients, client);
    RemoveFirstMembers(m.clients, client);
    SameClients(m.clients, m.finished, RemoveFirst(m.clients, client), m.finished + [client], m.added);
  }

  lemma CheckStopKeeps(m: Modeler)
    requires Inv(m)
    ensures Inv(CheckStop(m))
  {
  }

  lemma ReplyKeeps(m: Modeler, ids: seq<ClientId>)
    requires Inv(m) && m.pending && AreNew(m, ids)
    ensures Inv(Next(m, Reply(ids)))
  {
    DistinctConcat(m.added, ids);
    var d := m.(pending := false, clients := m.clients + ids, added := m.added + ids, used := m.used + Members(ids));
    assert multiset(m.clients + ids + m.finished) == multiset(m.clients + m.finished) + multiset(ids);
    CheckStopKeeps(d);
  }

  lemma NextKeeps(m: Modeler, e: Step)
    requires Inv(m)
    ensures Inv(Next(m, e))
  {
    match e {
      case Main => MainKeeps(m);
      case Begin =>
      case GotList(list) => assert [] + list == list;
      case Announce =>
      case Fill =>
        if HasRoom(m) {
          assert m.left == [m.left[0]] + m.left[1..];
          assert m.requested + [m.left[0]] + m.left[1..] == m.requested + m.left;
        } else {
          CheckStopKeeps(m);
        }
      case Reply(ids) => if m.pending && AreNew(m, ids) { ReplyKeeps(m, ids); }
      case ReplyFails =>
      case TimeOut(late) => ExpelKeeps(m, late);
      case Complete(client) => if client in m.clients { CompleteKeeps(m, client); }
    }
  }

  lemma MainKeeps(m: Modeler)
    requires Inv(m)
    ensures Inv(Next(m, Main))
  {
    assert m.clients + [] == m.clients;
    PartDistinct(m.clients, m.finished, m.added);
  }

  lemma DistinctByCount(s: seq<ClientId>)
    ensures Distinct(s) <==> forall x :: multiset(s)[x] <= 1
    decreases |s|
  {
    if s != [] {
      var n := |s| - 1;
      var before, x := s[..n], s[n];
      DistinctByCount(before);
      assert s == before + [x];
      assert multiset(s) == multiset(before) + multiset{x};
      if Distinct(s) {
        assert x !in before;
      } else if Distinct(before) {
        var i, j :| 0 <= i < j < |s| && s[i] == s[j];
        assert forall k :: 0 <= k < n ==> s[k] == before[k];
        assert j == n && before[i] == x;
        assert multiset(s)[x] == multiset(before)[x] + 1;
      } else {
        var y :| multiset(before)[y] > 1;
        assert multiset(s)[y] > 1;
      }
    }
  }

  lemma PartDistinct(a: seq<ClientId>, b: seq<ClientId>, all: seq<ClientId>)
    requires multiset(a + b) == multiset(all) && Distinct(all)
    ensures Distinct(a) && Distinct(b) && Members(a) !! Members(b) && Members(a) + Members(b) == Members(all)
  {
    DistinctByCount(all);
    DistinctByCount(a);
    DistinctByCount(b);
    assert multiset(a + b) == multiset(a) + multiset(b);
    forall x
      ensures multiset(a)[x] <= 1 && multiset(b)[x] <= 1
    {
      assert multiset(all)[x] == multiset(a)[x] + multiset(b)[x];
    }
    forall x
      ensures x in Members(a) + Members(b) <==> x in Members(all)
      ensures !(x in Members(a) && x in Members(b))
    {
      assert x in all <==> x in multiset(all);
      assert x in a <==> x in multiset(a);
      assert x in b <==> x in multiset(b);
    }
  }

  /** On every run: devices are requested in order, clients are kept once each, and slots are bounded. */
  lemma {:induction false} RunKeepsInv(parallel: int, es: seq<Step>)
    ensures Inv(Run(parallel, es))
  {
    if es != [] {
      RunKeepsInv(parallel, es[..|es| - 1]);
      NextKeeps(Run(parallel, es[..|es| - 1]), es[|es| - 1]);
    }
  }

  /**
   * On every run each client added since the last clearing is either active or
   * finished, never both and never twice, even when it first times out and then
   * completes.
   */
  lemma ActiveOrFinishedOnce(parallel: int, es: seq<Step>)
    ensures var m := Run(parallel, es);
      Distinct(m.clients) && Distinct(m.finished) && Members(m.clients) !! Members(m.finished) &&
      Members(m.clients) + Members(m.finished) == Members(m.added)
  {
    RunKeepsInv(parallel, es);
    var m := Run(parallel, es);
    PartDistinct(m.clients, m.finished, m.added);
  }

  /**
   * A loop ends only when its whole list has been requested in order, no request
   * is pending and no client is active; every client added to it has then
   * finished.
   */
  lemma EndsOnlyWhenDone(parallel: int, es: seq<Step>, e: Step)
    requires Run(parallel, es).started && !Next(Run(parallel, es), e).started
    ensures var m, m' := Run(parallel, es), Next(Run(parallel, es), e);
      m'.requested == m'.devices && m'.devices == m.devices && !m'.pending && m'.clients == [] && m'.gotList &&
      Members(m.finished) == Members(m.added)
  {
    RunKeepsInv(parallel, es);
    var m := Run(parallel, es);
    if m.left == [] { assert m.requested + [] == m.requested; }
    PartDistinct(m.clients, m.finished, m.added);
  }

  /** A loop begins when no client is active, without its list, and has it once that is announced. */
  lemma {:induction false} LoopsBegin(parallel: int, es: seq<Step>)
    ensures !Run(parallel, []).started && !Run(parallel, []).gotList
    ensures var m := Run(parallel, es);
      (m.clients == [] ==> Next(m, Begin) == m.(started := true, gotList := false)) &&
      (m.clients != [] ==> Next(m, Begin) == m) && Next(m, Announce) == m.(gotList := true)
  {
  }

  /**
   * Filling requests a device if and only if a slot is free, no request is
   * pending and devices are left; it is then the first that has not been requested,
   * and the clients stay as they are. Nothing else requests a device.
   */
  lemma {:induction false} FillRequestsIff(parallel: int, es: seq<Step>)
    ensures var m := Run(parallel, es);
      var m' := Next(m, Fill);
      m'.devices == m.devices && m'.parallel == parallel &&
      (|m'.requested| > |m.requested| <==>
        |m.clients| < parallel && !m.pending && |m.requested| < |m.devices|) &&
      (|m'.requested| > |m.requested| ==>
        m'.pending && m'.requested == m.requested + [m.devices[|m.requested|]] && m'.clients == m.clients)
    ensures forall e :: e != Fill ==>
      Next(Run(parallel, es), e).requested == if e.GotList? then [] else Run(parallel, es).requested
  {
    RunKeepsInv(parallel, es);
    ParallelKept(parallel, es);
    NextInOrder(Run(parallel, es));
  }

  lemma NextInOrder(m: Modeler)
    requires InOrder(m)
    ensures m.left != [] <==> |m.requested| < |m.devices|
    ensures m.left != [] ==> m.devices[|m.requested|] == m.left[0]
  {
  }

  /** With a slot to fill and nothing under way, filling asks for the next device or ends the loop. */
  lemma FillGoesOn(parallel: int, es: seq<Step>)
    requires parallel > 0
    ensures var m := Run(parallel, es);
      var m' := Next(m, Fill);
      m.started && m.gotList && !m.pending && m.clients == [] ==>
        !m'.started || (m'.pending && |m'.requested| == |m.requested| + 1 && m'.requested <= m'.devices)
  {
    RunKeepsInv(parallel, es);
    NextKeeps(Run(parallel, es), Fill);
    ParallelKept(parallel, es);
  }

  lemma {:induction false} ParallelKept(parallel: int, es: seq<Step>)
    ensures Run(parallel, es).parallel == parallel
  {
    if es != [] {
      ParallelKept(parallel, es[..|es| - 1]);
    }
  }

  lemma RunMore(parallel: int, es: seq<Step>, e: Step)
    ensures Run(parallel, es + [e]) == Next(Run(parallel, es), e)
  {
    assert (es + [e])[..|es|] == es;
  }

  /** One slot can hold the five clients of a device: the bound on the active clients is met. */
  lemma OneSlotFiveClients()
    ensures exists es :: |Run(1, es).clients| == 5
  {
    var begun := [] + [Begin] + [GotList(["a"])] + [Announce];
    RunMore(1, [], Begin);
    RunMore(1, [] + [Begin], GotList(["a"]));
    RunMore(1, [] + [Begin] + [GotList(["a"])], Announce);
    RunMore(1, begun, Fill);
    var m := Run(1, begun + [Fill]);
    assert m.pending && m.clients == [] && m.used == {};
    RunMore(1, begun + [Fill], Reply([0, 1, 2, 3, 4]));
    FiveClients(m);
    assert |Run(1, begun + [Fill] + [Reply([0, 1, 2, 3, 4])]).clients| == 5;
  }

  lemma FiveClients(m: Modeler)
    requires m.pending && m.clients == [] && m.used == {}
    ensures |Next(m, Reply([0, 1, 2, 3, 4])).clients| == 5
  {
    var ids: seq<ClientId> := [0, 1, 2, 3, 4];
    assert AreNew(m, ids);
    assert m.clients + ids == ids;
  }

  // ----- The modeler -----

  class ZenModeler {
    const parallel: int
    var devicegen: Option<Gen>
    var pendingNewClients: bool
    var clients: seq<ClientId>
    var finished: seq<ClientId>
    var timedOut: set<ClientId>
    var mainLoopGotDeviceList: bool
    var started: bool
    ghost var devices: seq<Device>
    ghost var requested: seq<Device>
    ghost var added: seq<ClientId>
    ghost var used: set<ClientId>

    ghost function View(): Modeler
      reads this
    {
      Modeler(parallel, devices, requested, Left(), pendingNewClients, clients, finished, timedOut,
              mainLoopGotDeviceList, started, added, used)
    }

    ghost function Left(): seq<Device>
      reads this`devicegen
    {
      if devicegen.Some? then Items(devicegen.value) else []
    }

    constructor (parallel: int)
      ensures View() == Fresh(parallel)
    {
      this.parallel := parallel;
      devicegen, pendingNewClients, clients, finished, timedOut := None, false, [], [], {};
      mainLoopGotDeviceList, started := false, false;
      devices, requested, added, used := [], [], [], {};
    }

    /** `_devicegen_has_items`: takes an item from the iterator and chains it back in front. */
    method DevicegenHasItems() returns (result: bool)
      modifies this`devicegen
      ensures Left() == old(Left()) && (result <==> Left() != [])
    {
      result := false;
      if devicegen.Some? {
        match Advance(devicegen.value)
        case None =>
        case Some((first, rest)) =>
          result := true;
          devicegen := Some(Chain([first], rest));
      }
    }

    method Check()
      modifies this
      ensures View() == CheckStop(old(View()))
    {
      if pendingNewClients || clients != [] { return; }
      var more := DevicegenHasItems();
      if more { return; }
      if !mainLoopGotDeviceList { return; }
      if started {
        started := false;
        finished, added := [], [];
      }
    }

    /** The part of `fillCollectionSlots` up to its request; the reply comes later. */
    method FillCollectionSlots() returns (request: Option<Device>)
      modifies this
      ensures View() == Next(old(View()), Fill)
      ensures request == if HasRoom(old(View())) then Some(old(Left())[0]) else None
    {
      var count := |clients|;
      if count < parallel {
        var more := DevicegenHasItems();
        if more && !pendingNewClients {
          pendingNewClients := true;
          match Advance(devicegen.value) {
            case Some((device, rest)) =>
              devicegen := Some(rest);
              requested := requested + [device];
              return Some(device);
          }
        }
      }
      Check();
      return None;
    }

    /** The rest of `fillCollectionSlots`, with the clients created for the device that was returned, if any. */
    method ConfigReceived(newClients: seq<ClientId>)
      requires pendingNewClients && AreNew(View(), newClients)
      modifies this
      ensures View() == Next(old(View()), Reply(newClients))
    {
      for i := 0 to |newClients|
        invariant View() ==
          old(View()).(clients := old(clients) + newClients[..i], added := old(added) + newClients[..i])
      {
        assert newClients[..i + 1] == newClients[..i] + [newClients[i]];
        clients := clients + [newClients[i]];
        added := added + [newClients[i]];
      }
      assert newClients[..|newClients|] == newClients;
      used := used + Members(newClients);
      pendingNewClients := false;
      Check();
    }

    method ConfigFailed()
      modifies this`pendingNewClients
      ensures View() == Next(old(View()), ReplyFails)
    {
      pendingNewClients := false;
    }

    method TimeoutClients(late: set<ClientId>)
      modifies this`clients, this`finished, this`timedOut
      ensures View() == Next(old(View()), TimeOut(late))
    {
      var active: seq<ClientId> := [];
      for i := 0 to |clients|
        invariant clients == old(clients) && active == Keep(clients[..i], late)
        invariant finished == old(finished) + Pick(clients[..i], late)
        invariant timedOut == old(timedOut) + Members(Pick(clients[..i], late))
      {
        PickEnd(clients, i, late);
        if clients[i] in late {
          finished := finished + [clients[i]];
          timedOut := timedOut + {clients[i]};
        } else {
          active := active + [clients[i]];
        }
      }
      assert clients[..|clients|] == clients;
      clients := active;
    }

    /** `processClientFinished`: a client that has already timed out is no longer among the active ones. */
    method ProcessClientFinished(client: ClientId)
      modifies this`clients, this`finished
      ensures View() == Next(old(View()), Complete(client))
    {
      if client in clients {
        clients := RemoveFirst(clients, client);
        finished := finished + [client];
      }
    }

    method MainLoopBegins() returns (going: bool)
      modifies this`mainLoopGotDeviceList, this`started
      ensures View() == Next(old(View()), Begin) && (going <==> clients == [])
    {
      going := clients == [];
      if going { mainLoopGotDeviceList, started := false, true; }
    }

    method DeviceListReceived(list: seq<Device>)
      modifies this`devicegen, this`devices, this`requested
      ensures View() == Next(old(View()), GotList(list))
    {
      devicegen := Some(Iter(list));
      devices, requested := list, [];
    }
  }
}
