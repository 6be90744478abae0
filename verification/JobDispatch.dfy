/**
 * Dispatching jobs with transactions. Each thread stages the records of the jobs
 * it adds, commits them and sends the jobs when its transaction finishes, or
 * deletes them when it aborts. All threads share one store, and their store
 * accesses interleave.
 */
module JobDispatch {
  import opened Wrappers
  import opened Sequences
  import opened JobStorage
  import opened JobTasks
  import opened JobRecords

  // ----- Threads -----

  type Tid = nat

  /** Where a thread is: between operations, or after `k` steps of one. */
  datatype Phase = Idle | Adding(sig: Sig, k: nat) | Committing(k: nat) | Sending(k: nat)

  /** A thread's dispatcher; `history` lists what its finished transactions sent. */
  datatype Thread = Thread(joined: bool, signatures: seq<Sig>, staged: seq<Task>, phase: Phase, history: seq<Sig>)

  const NEW_THREAD := Thread(false, [], [], Idle, [])

  /** `orphans` are the jobs whose records were staged by an `add` that then failed. */
  datatype Sys = Sys(
    store: Redis, threads: map<Tid, Thread>, sent: seq<(Tid, Sig)>, used: set<string>, orphans: set<string>)

  const START := Sys(Redis(map[], {}), map[], [], {}, {})

  function ThreadOf(s: Sys, t: Tid): Thread {
    if t in s.threads then s.threads[t] else NEW_THREAD
  }

  function SentSigs(sent: seq<(Tid, Sig)>): seq<Sig> {
    seq(|sent|, i requires 0 <= i < |sent| => sent[i].1)
  }

  /** What one thread sent, in order. */
  function SentBy(sent: seq<(Tid, Sig)>, t: Tid): seq<Sig> {
    if sent == [] then []
    else
      var last := sent[|sent| - 1];
      SentBy(sent[..|sent| - 1], t) + if last.0 == t then [last.1] else []
  }

  function SentIds(s: Sys): set<string> {
    Ids(Flat(SentSigs(s.sent)))
  }

  /** The jobs of a thread's transaction, those of chains that were discarded included. */
  function TasksOf(th: Thread): seq<Task> {
    Flat(th.signatures) + if th.phase.Adding? then th.phase.sig.Tasks() else []
  }

  function TxIds(s: Sys, t: Tid): set<string> {
    Ids(TasksOf(ThreadOf(s, t)))
  }

  /** The jobs of the transaction whose records may still be staged. */
  function Uncommitted(th: Thread): seq<Task>
    requires ThreadOk(th)
  {
    match th.phase
    case Idle => th.staged
    case Adding(sig, k) => th.staged + sig.Tasks()[..k]
    case Committing(k) => th.staged[k..]
    case Sending(_) => []
  }

  /** The jobs of the transaction that may have records; those that were discarded have none. */
  function WrittenIds(th: Thread): set<string>
    requires ThreadOk(th)
  {
    match th.phase
    case Idle => TrackedIds(th.staged)
    case Adding(sig, k) => TrackedIds(th.staged + sig.Tasks()[..k])
    case _ => Ids(TasksOf(th))
  }

  /** The jobs that the `add` under way has staged so far. */
  function HiddenIds(th: Thread): set<string>
    requires ThreadOk(th)
  {
    if th.phase.Adding? then TrackedIds(th.phase.sig.Tasks()[..th.phase.k]) else {}
  }

  function Unsent(th: Thread): seq<Task>
    requires ThreadOk(th)
  {
    if th.phase.Sending? then Flat(th.signatures[th.phase.k..]) else TasksOf(th)
  }

  predicate ThreadOk(th: Thread) {
    (forall x :: x in th.staged ==> x in Flat(th.signatures)) && DistinctIds(TasksOf(th)) &&
    (forall i :: 0 <= i < |TasksOf(th)| ==> IsTask(TasksOf(th)[i])) &&
    match th.phase
    case Idle => true
    case Adding(sig, k) => k <= |sig.Tasks()|
    case Committing(k) => k <= |th.staged|
    case Sending(k) => k <= |th.signatures|
  }

  /** The `staged` property of the dispatcher. */
  function StagedIds(th: Thread): set<string> {
    Ids(th.staged)
  }

  /** Whether the job manager shows a job to a thread that has staged the given ids. */
  predicate Visible(r: Redis, staged: set<string>, id: string) {
    id in r.hashes && (!IsStaged(r, id) || id in staged)
  }

  /** Whether the job manager shows a job to a thread. */
  predicate Shows(s: Sys, t: Tid, id: string) {
    Visible(s.store, StagedIds(ThreadOf(s, t)), id)
  }

  // ----- Steps -----

  datatype Step =
    | BeginAdd(t: Tid, sig: Sig)
    | StageNext(t: Tid, now: int)
    | AddFails(t: Tid)                            // the record of a member cannot be built or stored
    | EndAdd(t: Tid)
    | Discard(t: Tid, id: string)
    | Abort(t: Tid)
    | BeginFinish(t: Tid)
    | CommitNext(t: Tid)
    | StartSending(t: Tid)
    | SendNext(t: Tid, now: int)
    | FinishFails(t: Tid, saved: Option<int>)     // an error in `tpc_finish`, answered by `tpc_abort`
    | EndFinish(t: Tid)
    | UpdateJob(t: Tid, id: string, data: Data)   // JobManager.update, or aborting a job it shows
    | DeleteJob(t: Tid, id: string)               // JobManager.deleteJob of a job that is not staged
    | WorkerSets(id: string, data: Data)          // signal handlers of the workers
    | WorkerPublishes(tasks: seq<Task>, now: int) // a worker sends the rest of a chain on, or a job again
    | RecordExpires(id: string)

  function SetThread(s: Sys, t: Tid, th: Thread): Sys {
    s.(threads := s.threads[t := th])
  }

  /** Job ids are fresh. */
  predicate IsFresh(s: Sys, sig: Sig) {
    DistinctIds(sig.Tasks()) && Ids(sig.Tasks()) !! s.used &&
    forall i :: 0 <= i < |sig.Tasks()| ==> IsTask(sig.Tasks()[i])
  }

  predicate MayStage(th: Thread) {
    th.phase.Adding? && th.phase.k < |th.phase.sig.Tasks()| && CanStage(th.phase.sig.Tasks()[th.phase.k])
  }

  predicate MayFail(th: Thread) {
    th.phase.Adding? && th.phase.k < |th.phase.sig.Tasks()|
  }

  /** Workers publish jobs that have been sent, with arguments of their own. */
  predicate MayPublish(s: Sys, tasks: seq<Task>) {
    Ids(tasks) <= SentIds(s) && forall i :: 0 <= i < |tasks| ==> IsTask(tasks[i])
  }

  /** The store when a sending fails, before or after its handler has saved the missing records. */
  function AtFailure(s: Sys, expires: bool, th: Thread, saved: Option<int>): Redis {
    if saved.Some? && th.phase.Sending? && th.phase.k < |th.signatures| then
      Publish(s.store, expires, th.signatures[th.phase.k].Tasks(), saved.value)
    else s.store
  }

  /** One step of one thread, a worker or the clock; steps whose guard fails change nothing. */
  function Next(s: Sys, expires: bool, e: Step): Sys {
    match e
    case BeginAdd(t, sig) =>
      var th := ThreadOf(s, t);
      if th.phase.Idle? && IsFresh(s, sig) then
        SetThread(s, t, th.(joined := true, phase := Adding(sig, 0))).(used := s.used + Ids(sig.Tasks()))
      else s
    case StageNext(t, now) =>
      var th := ThreadOf(s, t);
      if MayStage(th) then
        SetThread(s, t, th.(phase := Adding(th.phase.sig, th.phase.k + 1)))
          .(store := StageOne(s.store, expires, th.phase.sig.Tasks()[th.phase.k], now))
      else s
    case AddFails(t) =>
      var th := ThreadOf(s, t);
      if MayFail(th) then
        SetThread(s, t, th.(phase := Idle))
          .(orphans := s.orphans + TrackedIds(th.phase.sig.Tasks()[..th.phase.k]))
      else s
    case EndAdd(t) =>
      var th := ThreadOf(s, t);
      if th.phase.Adding? && th.phase.k == |th.phase.sig.Tasks()| then
        SetThread(s, t, th.(staged := th.staged + th.phase.sig.Tasks(),
                            signatures := th.signatures + [th.phase.sig], phase := Idle))
      else s
    case Discard(t, id) =>
      var th := ThreadOf(s, t);
      if th.phase.Idle? && IsStaged(s.store, id) && id in StagedIds(th) then
        SetThread(s, t, th.(staged := FilterTasks(th.staged, id), signatures := FilterSigs(th.signatures, id)))
          .(store := Delete(s.store, {id}))
      else s
    case Abort(t) =>
      var th := ThreadOf(s, t);
      if th.phase.Idle? then
        SetThread(s, t, Reset(th)).(store := Delete(s.store, Ids(th.staged)))
      else s
    case BeginFinish(t) =>
      var th := ThreadOf(s, t);
      if th.phase.Idle? && th.joined then SetThread(s, t, th.(phase := Committing(0))) else s
    case CommitNext(t) =>
      var th := ThreadOf(s, t);
      if th.phase.Committing? && th.phase.k < |th.staged| then
        SetThread(s, t, th.(phase := Committing(th.phase.k + 1)))
          .(store := CommitOne(s.store, expires, th.staged[th.phase.k]))
      else s
    case StartSending(t) =>
      var th := ThreadOf(s, t);
      if th.phase.Committing? && th.phase.k == |th.staged| then SetThread(s, t, th.(phase := Sending(0))) else s
    case SendNext(t, now) =>
      var th := ThreadOf(s, t);
      if th.phase.Sending? && th.phase.k < |th.signatures| then
        var sig := th.signatures[th.phase.k];
        SetThread(s, t, th.(phase := Sending(th.phase.k + 1)))
          .(store := Publish(s.store, expires, sig.Tasks(), now), sent := s.sent + [(t, sig)])
      else s
    case FinishFails(t, saved) =>
      var th := ThreadOf(s, t);
      if th.phase.Committing? || th.phase.Sending? then
        SetThread(s, t, Reset(th).(history := th.history + SentInTx(th)))
          .(store := Delete(AtFailure(s, expires, th, saved), Ids(th.staged)))
      else s
    case EndFinish(t) =>
      var th := ThreadOf(s, t);
      if th.phase.Sending? && th.phase.k == |th.signatures| then
        SetThread(s, t, Reset(th).(history := th.history + th.signatures))
      else s
    case UpdateJob(t, id, data) =>
      if Shows(s, t, id) && !Stages(data) then s.(store := AfterUpdate(s.store, expires, id, data).0) else s
    case DeleteJob(_, id) =>
      if id in s.store.hashes && !IsStaged(s.store, id) then s.(store := Delete(s.store, {id})) else s
    case WorkerSets(id, data) =>
      if id in SentIds(s) && !Stages(data) then s.(store := AfterUpdate(s.store, expires, id, data).0) else s
    case WorkerPublishes(tasks, now) =>
      if MayPublish(s, tasks) then s.(store := Publish(s.store, expires, tasks, now)) else s
    case RecordExpires(id) =>
      if id in s.store.expiring then s.(store := Delete(s.store, {id})) else s
  }

  function Reset(th: Thread): Thread {
    Thread(false, [], [], Idle, th.history)
  }

  function Run(s: Sys, expires: bool, es: seq<Step>): Sys {
    if es == [] then s else Next(Run(s, expires, es[..|es| - 1]), expires, es[|es| - 1])
  }

  lemma RunEnd(s: Sys, expires: bool, es: seq<Step>, e: Step)
    ensures Run(s, expires, es + [e]) == Next(Run(s, expires, es), expires, e)
  {
    assert (es + [e])[..|es|] == es;
  }

  // ----- What every step keeps -----

  ghost predicate ThreadsOk(s: Sys) {
    forall t: Tid :: ThreadOk(ThreadOf(s, t)) && TxIds(s, t) <= s.used
  }

  ghost predicate TransactionsApart(s: Sys) {
    forall t: Tid, u: Tid :: t != u ==> TxIds(s, t) !! TxIds(s, u)
  }

  ghost predicate SendsOnce(s: Sys)
    requires ThreadsOk(s)
  {
    SentIds(s) <= s.used && DistinctIds(Flat(SentSigs(s.sent))) &&
    forall t: Tid :: Ids(Unsent(ThreadOf(s, t))) !! SentIds(s)
  }

  ghost predicate StagedByThread(s: Sys)
    requires ThreadsOk(s)
  {
    forall id :: IsStaged(s.store, id) ==> id in s.orphans || exists t: Tid :: StagesFor(s, t, id)
  }

  ghost predicate StagesFor(s: Sys, t: Tid, id: string)
    requires ThreadsOk(s)
  {
    id in TrackedIds(Uncommitted(ThreadOf(s, t)))
  }

  function SentInTx(th: Thread): seq<Sig> {
    if th.phase.Sending? && th.phase.k <= |th.signatures| then th.signatures[..th.phase.k] else []
  }

  ghost predicate LogMatches(s: Sys) {
    forall t: Tid :: SentBy(s.sent, t) == ThreadOf(s, t).history + SentInTx(ThreadOf(s, t))
  }

  ghost predicate DiscardedAreGone(s: Sys)
    requires ThreadsOk(s)
  {
    forall t: Tid :: TxIds(s, t) * s.store.hashes.Keys <= WrittenIds(ThreadOf(s, t))
  }

  /** Orphans belong to no transaction and have not been sent. */
  ghost predicate OrphansApart(s: Sys) {
    s.orphans <= s.used && s.orphans !! SentIds(s) && forall t: Tid :: s.orphans !! TxIds(s, t)
  }

  ghost predicate Inv(s: Sys) {
    WellKept(s.store) && s.store.hashes.Keys <= s.used &&
    ThreadsOk(s) && TransactionsApart(s) && SendsOnce(s) && StagedByThread(s) && LogMatches(s) &&
    DiscardedAreGone(s) && OrphansApart(s)
  }

  lemma {:induction false} StartHasInv()
    ensures Inv(START)
  {
    assert SentSigs([]) == [];
  }

  lemma SentSigsEnd(sent: seq<(Tid, Sig)>, t: Tid, sig: Sig)
    ensures SentSigs(sent + [(t, sig)]) == SentSigs(sent) + [sig]
    ensures forall u :: SentBy(sent + [(t, sig)], u) == SentBy(sent, u) + if u == t then [sig] else []
  {
    assert (sent + [(t, sig)])[..|sent|] == sent;
  }

  // ----- The invariant over runs -----

  /** A step that only touches the store, and stages nothing. */
  lemma {:induction false} StoreStepKeepsInv(s: Sys, store': Redis)
    requires Inv(s) && WellKept(store') && store'.hashes.Keys <= s.used
    requires forall t: Tid :: TxIds(s, t) * store'.hashes.Keys <= s.store.hashes.Keys + WrittenIds(ThreadOf(s, t))
    requires forall id :: IsStaged(store', id) ==> IsStaged(s.store, id)
    ensures Inv(s.(store := store'))
  {
    var s' := s.(store := store');
    assert forall t: Tid :: ThreadOf(s', t) == ThreadOf(s, t);
    forall id | IsStaged(store', id)
      ensures id in s'.orphans || exists t: Tid :: StagesFor(s', t, id)
    {
      if id !in s.orphans {
        var t: Tid :| StagesFor(s, t, id);
        assert StagesFor(s', t, id);
      }
    }
    assert forall t: Tid :: SentBy(s'.sent, t) == SentBy(s.sent, t);
    forall t: Tid
      ensures TxIds(s', t) * store'.hashes.Keys <= WrittenIds(ThreadOf(s', t))
    {
      assert TxIds(s, t) * s.store.hashes.Keys <= WrittenIds(ThreadOf(s, t));
    }
    assert forall t: Tid :: TxIds(s', t) == TxIds(s, t);
  }

  /** A step of one thread, described by what it does to the thread, the store and the log. */
  lemma {:induction false} ThreadStepKeepsInv(s: Sys, s': Sys, t: Tid)
    requires Inv(s) && s'.threads == s.threads[t := ThreadOf(s', t)] && s.used <= s'.used
    requires ThreadOk(ThreadOf(s', t))
    requires Ids(TasksOf(ThreadOf(s', t))) <= Ids(TasksOf(ThreadOf(s, t))) + (s'.used - s.used)
    requires WellKept(s'.store) && s'.store.hashes.Keys <= s.store.hashes.Keys + Ids(TasksOf(ThreadOf(s', t)))
    requires Ids(TasksOf(ThreadOf(s', t))) * s'.store.hashes.Keys <= WrittenIds(ThreadOf(s', t))
    requires s'.sent == s.sent && s.orphans <= s'.orphans
    requires s'.orphans - s.orphans <= Ids(TasksOf(ThreadOf(s, t))) * Ids(Unsent(ThreadOf(s, t)))
    requires s'.orphans - s.orphans !! Ids(TasksOf(ThreadOf(s', t)))
    requires Ids(Unsent(ThreadOf(s', t))) <= Ids(Unsent(ThreadOf(s, t))) + (s'.used - s.used)
    requires forall id :: IsStaged(s'.store, id) ==>
      id in s'.orphans || id in TrackedIds(Uncommitted(ThreadOf(s', t))) ||
      (IsStaged(s.store, id) && id !in TrackedIds(Uncommitted(ThreadOf(s, t))))
    requires ThreadOf(s', t).history + SentInTx(ThreadOf(s', t)) == ThreadOf(s, t).history + SentInTx(ThreadOf(s, t))
    ensures Inv(s')
  {
    assert forall u: Tid :: u != t ==> ThreadOf(s', u) == ThreadOf(s, u);
    forall u: Tid
      ensures ThreadOk(ThreadOf(s', u)) && TxIds(s', u) <= s'.used
    {
      assert TxIds(s, u) <= s.used;
      assert TxIds(s, t) <= s.used;
    }
    forall u: Tid, v: Tid | u != v
      ensures TxIds(s', u) !! TxIds(s', v)
    {
      assert TxIds(s, u) !! TxIds(s, v);
      assert TxIds(s, u) <= s.used && TxIds(s, v) <= s.used;
    }
    assert SentIds(s') == SentIds(s);
    forall u: Tid
      ensures Ids(Unsent(ThreadOf(s', u))) !! SentIds(s')
    {
      assert Ids(Unsent(ThreadOf(s, u))) !! SentIds(s);
    }
    forall u: Tid
      ensures SentBy(s'.sent, u) == ThreadOf(s', u).history + SentInTx(ThreadOf(s', u))
    {
      assert SentBy(s.sent, u) == ThreadOf(s, u).history + SentInTx(ThreadOf(s, u));
    }
    StagedStayOwned(s, s', t);
    DiscardedStayGone(s, s', t);
    OrphansStayApart(s, s', t);
  }

  lemma OrphansStayApart(s: Sys, s': Sys, t: Tid)
    requires OrphansApart(s) && ThreadsOk(s) && ThreadsOk(s') && TransactionsApart(s) && SendsOnce(s)
    requires forall u: Tid :: u != t ==> ThreadOf(s', u) == ThreadOf(s, u)
    requires s.used <= s'.used && SentIds(s') == SentIds(s) && s.orphans <= s'.orphans
    requires s'.orphans - s.orphans <= TxIds(s, t) * Ids(Unsent(ThreadOf(s, t)))
    requires s'.orphans - s.orphans !! TxIds(s', t)
    requires TxIds(s', t) <= TxIds(s, t) + (s'.used - s.used)
    ensures OrphansApart(s')
  {
    var more := s'.orphans - s.orphans;
    assert s'.orphans == s.orphans + more;
    assert TxIds(s, t) <= s.used && s.orphans !! TxIds(s, t);
    assert Ids(Unsent(ThreadOf(s, t))) !! SentIds(s);
    forall u: Tid
      ensures s'.orphans !! TxIds(s', u)
    {
      if u != t {
        assert TxIds(s, u) !! TxIds(s, t);
        assert s.orphans !! TxIds(s, u);
      }
    }
  }

  lemma StagedStayOwned(s: Sys, s': Sys, t: Tid)
    requires ThreadsOk(s) && ThreadsOk(s') && StagedByThread(s) && s.orphans <= s'.orphans
    requires forall u: Tid :: u != t ==> ThreadOf(s', u) == ThreadOf(s, u)
    requires forall id :: IsStaged(s'.store, id) ==>
      id in s'.orphans || id in TrackedIds(Uncommitted(ThreadOf(s', t))) ||
      (IsStaged(s.store, id) && id !in TrackedIds(Uncommitted(ThreadOf(s, t))))
    ensures StagedByThread(s')
  {
    forall id | IsStaged(s'.store, id)
      ensures id in s'.orphans || exists u: Tid :: StagesFor(s', u, id)
    {
      if id in TrackedIds(Uncommitted(ThreadOf(s', t))) {
        assert StagesFor(s', t, id);
      } else if id !in s'.orphans {
        var u: Tid :| StagesFor(s, u, id);
        assert StagesFor(s', u, id);
      }
    }
  }

  lemma DiscardedStayGone(s: Sys, s': Sys, t: Tid)
    requires ThreadsOk(s) && ThreadsOk(s') && DiscardedAreGone(s) && TransactionsApart(s')
    requires forall u: Tid :: u != t ==> ThreadOf(s', u) == ThreadOf(s, u)
    requires s'.store.hashes.Keys <= s.store.hashes.Keys + TxIds(s', t)
    requires TxIds(s', t) * s'.store.hashes.Keys <= WrittenIds(ThreadOf(s', t))
    ensures DiscardedAreGone(s')
  {
    forall u: Tid
      ensures TxIds(s', u) * s'.store.hashes.Keys <= WrittenIds(ThreadOf(s', u))
    {
      if u != t {
        assert TxIds(s', u) !! TxIds(s', t);
        assert TxIds(s, u) * s.store.hashes.Keys <= WrittenIds(ThreadOf(s, u));
      }
    }
  }

  lemma {:induction false} BeginAddKeepsInv(s: Sys, expires: bool, t: Tid, sig: Sig)
    requires Inv(s) && ThreadOf(s, t).phase.Idle? && IsFresh(s, sig)
    ensures Inv(Next(s, expires, BeginAdd(t, sig)))
  {
    var th := ThreadOf(s, t);
    var s' := Next(s, expires, BeginAdd(t, sig));
    var th' := ThreadOf(s', t);
    assert TxIds(s, t) <= s.used;
    AddNothing(Flat(th.signatures));
    IdsConcat(Flat(th.signatures), sig.Tasks());
    DistinctConcat(Flat(th.signatures), sig.Tasks());
    assert sig.Tasks()[..0] == [];
    AddNothing(th.staged);
    assert TxIds(s, t) * s.store.hashes.Keys <= WrittenIds(th);
    ThreadStepKeepsInv(s, s', t);
  }

  /** Staging one more record, whatever the store makes of it. */
  lemma {:induction false} StagedStepKeepsInv(s: Sys, t: Tid, store': Redis)
    requires Inv(s) && ThreadOf(s, t).phase.Adding? && ThreadOf(s, t).phase.k < |ThreadOf(s, t).phase.sig.Tasks()|
    requires var task := ThreadOf(s, t).phase.sig.Tasks()[ThreadOf(s, t).phase.k];
      WellKept(store') &&
      store'.hashes.Keys <= s.store.hashes.Keys + (if task.ignoreResult then {} else {task.id}) &&
      forall id :: IsStaged(store', id) ==> IsStaged(s.store, id) || (id == task.id && !task.ignoreResult)
    ensures var th := ThreadOf(s, t);
      Inv(SetThread(s, t, th.(phase := Adding(th.phase.sig, th.phase.k + 1))).(store := store'))
  {
    var th := ThreadOf(s, t);
    var k := th.phase.k;
    var task := th.phase.sig.Tasks()[k];
    var th' := th.(phase := Adding(th.phase.sig, k + 1));
    var s' := SetThread(s, t, th').(store := store');
    NextTask(th);
    StagedOneMore(th);
    assert TxIds(s, t) * s.store.hashes.Keys <= WrittenIds(th);
    ThreadStepKeepsInv(s, s', t);
  }

  lemma StagedOneMore(th: Thread)
    requires ThreadOk(th) && th.phase.Adding? && th.phase.k < |th.phase.sig.Tasks()|
    ensures var k, task := th.phase.k, th.phase.sig.Tasks()[th.phase.k];
      var th' := th.(phase := Adding(th.phase.sig, k + 1));
      TrackedIds(Uncommitted(th')) == TrackedIds(Uncommitted(th)) + (if task.ignoreResult then {} else {task.id}) &&
      WrittenIds(th') == WrittenIds(th) + (if task.ignoreResult then {} else {task.id})
  {
    var k, tasks := th.phase.k, th.phase.sig.Tasks();
    SplitAt(tasks, k);
    Assoc(th.staged, tasks[..k], [tasks[k]]);
    TrackedConcat(Uncommitted(th), [tasks[k]]);
    TrackedOne(tasks[k]);
  }

  lemma {:induction false} StageNextKeepsInv(s: Sys, expires: bool, t: Tid, now: int)
    requires Inv(s) && MayStage(ThreadOf(s, t))
    ensures Inv(Next(s, expires, StageNext(t, now)))
  {
    var th := ThreadOf(s, t);
    var task := th.phase.sig.Tasks()[th.phase.k];
    NextTask(th);
    StagedOne(s.store, expires, task, now);
    StagedStepKeepsInv(s, t, StageOne(s.store, expires, task, now));
    StageNextIs(s, expires, t, now);
  }

  lemma StageNextIs(s: Sys, expires: bool, t: Tid, now: int)
    requires MayStage(ThreadOf(s, t))
    ensures var th := ThreadOf(s, t);
      Next(s, expires, StageNext(t, now)) ==
        SetThread(s, t, th.(phase := Adding(th.phase.sig, th.phase.k + 1)))
          .(store := StageOne(s.store, expires, th.phase.sig.Tasks()[th.phase.k], now))
  {
  }

  lemma NextTask(th: Thread)
    requires ThreadOk(th) && th.phase.Adding? && th.phase.k < |th.phase.sig.Tasks()|
    ensures var task := th.phase.sig.Tasks()[th.phase.k]; IsTask(task) && task.id in Ids(TasksOf(th))
  {
    assert TasksOf(th)[|Flat(th.signatures)| + th.phase.k] == th.phase.sig.Tasks()[th.phase.k];
  }

  /** A failed `add` leaves the transaction as it was before, and orphans what it has staged. */
  lemma {:induction false} AddFailsKeepsInv(s: Sys, expires: bool, t: Tid)
    requires Inv(s) && MayFail(ThreadOf(s, t))
    ensures Inv(Next(s, expires, AddFails(t)))
  {
    var th := ThreadOf(s, t);
    AfterFailure(th);
    assert TxIds(s, t) * s.store.hashes.Keys <= WrittenIds(th);
    ThreadStepKeepsInv(s, Next(s, expires, AddFails(t)), t);
  }

  /** What the thread has left of its jobs when its `add` fails. */
  lemma AfterFailure(th: Thread)
    requires ThreadOk(th) && MayFail(th)
    ensures var th' := th.(phase := Idle);
      ThreadOk(th') && Ids(TasksOf(th)) == Ids(TasksOf(th')) + Ids(th.phase.sig.Tasks()) &&
      Ids(TasksOf(th')) !! Ids(th.phase.sig.Tasks()) && HiddenIds(th) <= Ids(th.phase.sig.Tasks()) &&
      TrackedIds(Uncommitted(th)) == TrackedIds(Uncommitted(th')) + HiddenIds(th) &&
      WrittenIds(th) == WrittenIds(th') + HiddenIds(th)
  {
    var sig := th.phase.sig;
    AddNothing(Flat(th.signatures));
    IdsConcat(Flat(th.signatures), sig.Tasks());
    DistinctConcat(Flat(th.signatures), sig.Tasks());
    TrackedConcat(th.staged, sig.Tasks()[..th.phase.k]);
    assert forall i :: 0 <= i < |Flat(th.signatures)| ==> TasksOf(th)[i] == Flat(th.signatures)[i];
  }

  lemma {:induction false} EndAddKeepsInv(s: Sys, expires: bool, t: Tid)
    requires Inv(s) && ThreadOf(s, t).phase.Adding? && ThreadOf(s, t).phase.k == |ThreadOf(s, t).phase.sig.Tasks()|
    ensures Inv(Next(s, expires, EndAdd(t)))
  {
    var th := ThreadOf(s, t);
    var s' := Next(s, expires, EndAdd(t));
    var th' := ThreadOf(s', t);
    FlatEnd(th.signatures, th.phase.sig);
    AddNothing(Flat(th'.signatures));
    assert TasksOf(th') == TasksOf(th);
    assert th.phase.sig.Tasks()[..th.phase.k] == th.phase.sig.Tasks();
    assert TxIds(s, t) * s.store.hashes.Keys <= WrittenIds(th);
    ThreadStepKeepsInv(s, s', t);
  }

  lemma Discarded(th: Thread, id: string)
    requires ThreadOk(th) && th.phase.Idle?
    ensures var th' := th.(staged := FilterTasks(th.staged, id), signatures := FilterSigs(th.signatures, id));
      ThreadOk(th') && Ids(th'.staged) == Ids(th.staged) - {id} &&
      Ids(TasksOf(th)) - {id} <= Ids(TasksOf(th')) <= Ids(TasksOf(th)) &&
      TrackedIds(th.staged) <= TrackedIds(th'.staged) + {id}
  {
    var staged', sigs' := FilterTasks(th.staged, id), FilterSigs(th.signatures, id);
    AddNothing(Flat(th.signatures));
    AddNothing(Flat(sigs'));
    FilteredSigs(th.signatures, id);
    FilteredTasks(th.staged, id);
    forall x | x in TrackedIds(th.staged) && x != id
      ensures x in TrackedIds(staged')
    {
      var task :| task in th.staged && !task.ignoreResult && task.id == x;
      assert task in staged';
    }
    forall x | x in Ids(Flat(th.signatures)) - {id}
      ensures x in Ids(Flat(sigs'))
    {
      var task :| task in Flat(th.signatures) && task.id == x;
      assert task in Flat(sigs');
    }
    forall i | 0 <= i < |Flat(sigs')|
      ensures IsTask(Flat(sigs')[i])
    {
      assert Flat(sigs')[i] in Flat(th.signatures);
    }
  }

  lemma {:induction false} DroppedStepKeepsInv(s: Sys, s': Sys, t: Tid, id: string)
    requires Inv(s) && ThreadOf(s, t).phase.Idle? && ThreadOf(s', t).phase.Idle? && ThreadOk(ThreadOf(s', t))
    requires ThreadOf(s', t).history == ThreadOf(s, t).history
    requires TxIds(s', t) <= TxIds(s, t) && Ids(ThreadOf(s', t).staged) == Ids(ThreadOf(s, t).staged) - {id}
    requires TrackedIds(ThreadOf(s, t).staged) <= TrackedIds(ThreadOf(s', t).staged) + {id}
    requires s'.threads == s.threads[t := ThreadOf(s', t)] && s'.store == Delete(s.store, {id})
    requires s'.sent == s.sent && s'.used == s.used && s'.orphans == s.orphans
    ensures Inv(s')
  {
    assert TxIds(s, t) * s.store.hashes.Keys <= WrittenIds(ThreadOf(s, t));
    ThreadStepKeepsInv(s, s', t);
  }

  predicate MayDiscard(s: Sys, t: Tid, id: string) {
    var th := ThreadOf(s, t);
    th.phase.Idle? && IsStaged(s.store, id) && id in StagedIds(th)
  }

  lemma DiscardDoes(s: Sys, expires: bool, t: Tid, id: string)
    ensures var th, s' := ThreadOf(s, t), Next(s, expires, Discard(t, id));
      if MayDiscard(s, t, id) then
        s' == s.(store := Delete(s.store, {id}), threads := s.threads[t :=
          th.(staged := FilterTasks(th.staged, id), signatures := FilterSigs(th.signatures, id))])
      else s' == s
  {
  }

  lemma {:induction false} DiscardKeepsInv(s: Sys, expires: bool, t: Tid, id: string)
    requires Inv(s) && ThreadOf(s, t).phase.Idle?
    requires IsStaged(s.store, id) && id in StagedIds(ThreadOf(s, t))
    ensures Inv(Next(s, expires, Discard(t, id)))
  {
    Discarded(ThreadOf(s, t), id);
    DiscardDoes(s, expires, t, id);
    DroppedStepKeepsInv(s, Next(s, expires, Discard(t, id)), t, id);
  }

  lemma {:induction false} AbortKeepsInv(s: Sys, expires: bool, t: Tid)
    requires Inv(s) && ThreadOf(s, t).phase.Idle?
    ensures Inv(Next(s, expires, Abort(t)))
  {
    var th := ThreadOf(s, t);
    TrackedAreIds(th.staged);
    AddNothing<Task>([]);
    ThreadStepKeepsInv(s, Next(s, expires, Abort(t)), t);
  }

  lemma {:induction false} BeginFinishKeepsInv(s: Sys, expires: bool, t: Tid)
    requires Inv(s) && ThreadOf(s, t).phase.Idle?
    ensures Inv(Next(s, expires, BeginFinish(t)))
  {
    var th := ThreadOf(s, t);
    assert th.staged[0..] == th.staged;
    if th.joined { ThreadStepKeepsInv(s, Next(s, expires, BeginFinish(t)), t); }
  }

  /** Committing one more record, whatever the store makes of it. */
  lemma {:induction false} CommitStepKeepsInv(s: Sys, t: Tid, store': Redis)
    requires Inv(s) && ThreadOf(s, t).phase.Committing? && ThreadOf(s, t).phase.k < |ThreadOf(s, t).staged|
    requires WellKept(store') && store'.hashes.Keys <= s.store.hashes.Keys
    requires var task := ThreadOf(s, t).staged[ThreadOf(s, t).phase.k];
      forall id :: IsStaged(store', id) ==> IsStaged(s.store, id) && (id == task.id ==> task.ignoreResult)
    ensures var th := ThreadOf(s, t);
      Inv(SetThread(s, t, th.(phase := Committing(th.phase.k + 1))).(store := store'))
  {
    var th := ThreadOf(s, t);
    var k := th.phase.k;
    var th' := th.(phase := Committing(k + 1));
    var s' := SetThread(s, t, th').(store := store');
    SplitAt(th.staged, k);
    TrackedConcat([th.staged[k]], th.staged[k + 1..]);
    TrackedOne(th.staged[k]);
    ThreadStepKeepsInv(s, s', t);
  }

  lemma {:induction false} CommitNextKeepsInv(s: Sys, expires: bool, t: Tid)
    requires Inv(s) && ThreadOf(s, t).phase.Committing? && ThreadOf(s, t).phase.k < |ThreadOf(s, t).staged|
    ensures Inv(Next(s, expires, CommitNext(t)))
  {
    var task := ThreadOf(s, t).staged[ThreadOf(s, t).phase.k];
    CommittedStatus(s.store, expires, task);
    CommitStepKeepsInv(s, t, CommitOne(s.store, expires, task));
    CommitNextIs(s, expires, t);
  }

  lemma CommitNextIs(s: Sys, expires: bool, t: Tid)
    requires ThreadOf(s, t).phase.Committing? && ThreadOf(s, t).phase.k < |ThreadOf(s, t).staged|
    ensures var th := ThreadOf(s, t);
      Next(s, expires, CommitNext(t)) ==
        SetThread(s, t, th.(phase := Committing(th.phase.k + 1)))
          .(store := CommitOne(s.store, expires, th.staged[th.phase.k]))
  {
  }

  lemma {:induction false} StartSendingKeepsInv(s: Sys, expires: bool, t: Tid)
    requires Inv(s) && ThreadOf(s, t).phase.Committing? && ThreadOf(s, t).phase.k == |ThreadOf(s, t).staged|
    ensures Inv(Next(s, expires, StartSending(t)))
  {
    var th := ThreadOf(s, t);
    assert th.signatures[0..] == th.signatures;
    AddNothing(Flat(th.signatures));
    assert th.staged[|th.staged|..] == [];
    assert th.signatures[..0] == [];
    ThreadStepKeepsInv(s, Next(s, expires, StartSending(t)), t);
  }

  lemma {:induction false} EndFinishKeepsInv(s: Sys, expires: bool, t: Tid)
    requires Inv(s) && ThreadOf(s, t).phase.Sending? && ThreadOf(s, t).phase.k == |ThreadOf(s, t).signatures|
    ensures Inv(Next(s, expires, EndFinish(t)))
  {
    var th := ThreadOf(s, t);
    assert th.signatures[..|th.signatures|] == th.signatures;
    ThreadStepKeepsInv(s, Next(s, expires, EndFinish(t)), t);
  }

  /** A worker publishes jobs that have been sent. */
  lemma {:induction false} WorkerPublishesKeepsInv(s: Sys, expires: bool, tasks: seq<Task>, now: int)
    requires Inv(s) && MayPublish(s, tasks)
    ensures Inv(s.(store := Publish(s.store, expires, tasks, now)))
  {
    Published(s.store, expires, tasks, now);
    forall t: Tid
      ensures TxIds(s, t) * SentIds(s) <= WrittenIds(ThreadOf(s, t))
    {
      assert Ids(Unsent(ThreadOf(s, t))) !! SentIds(s);
    }
    StoreStepKeepsInv(s, Publish(s.store, expires, tasks, now));
  }

  lemma {:induction false} SavedAtFailureKeepsInv(s: Sys, expires: bool, t: Tid, saved: Option<int>)
    requires Inv(s)
    ensures Inv(s.(store := AtFailure(s, expires, ThreadOf(s, t), saved)))
  {
    var th := ThreadOf(s, t);
    if saved.Some? && th.phase.Sending? && th.phase.k < |th.signatures| {
      var tasks := th.signatures[th.phase.k].Tasks();
      NextSignature(th);
      Published(s.store, expires, tasks, saved.value);
      assert TxIds(s, t) <= s.used;
      forall u: Tid
        ensures TxIds(s, u) * Ids(tasks) <= WrittenIds(ThreadOf(s, u))
      {
        if u != t { assert TxIds(s, u) !! TxIds(s, t); }
      }
      StoreStepKeepsInv(s, Publish(s.store, expires, tasks, saved.value));
    }
  }

  /** A failure is the saving of records, if it comes so late, and the failure itself. */
  lemma FinishFailsIs(s: Sys, expires: bool, t: Tid, saved: Option<int>)
    ensures ThreadOf(s, t).phase.Committing? || ThreadOf(s, t).phase.Sending? ==>
      var s1 := s.(store := AtFailure(s, expires, ThreadOf(s, t), saved));
      Next(s, expires, FinishFails(t, saved)) == Next(s1, expires, FinishFails(t, None))
  {
  }

  lemma {:induction false} FinishFailsKeepsInv(s: Sys, expires: bool, t: Tid, saved: Option<int>)
    requires Inv(s) && (ThreadOf(s, t).phase.Committing? || ThreadOf(s, t).phase.Sending?)
    ensures Inv(Next(s, expires, FinishFails(t, saved)))
  {
    SavedAtFailureKeepsInv(s, expires, t, saved);
    FinishFailsIs(s, expires, t, saved);
    DroppedAtFailureKeepsInv(s.(store := AtFailure(s, expires, ThreadOf(s, t), saved)), expires, t);
  }

  lemma {:induction false} DroppedAtFailureKeepsInv(s: Sys, expires: bool, t: Tid)
    requires Inv(s) && (ThreadOf(s, t).phase.Committing? || ThreadOf(s, t).phase.Sending?)
    ensures Inv(Next(s, expires, FinishFails(t, None)))
  {
    var th := ThreadOf(s, t);
    TrackedAreIds(Uncommitted(th));
    assert Ids(Uncommitted(th)) <= Ids(th.staged);
    AddNothing<Task>([]);
    AddNothing(th.history + SentInTx(th));
    ThreadStepKeepsInv(s, Next(s, expires, FinishFails(t, None)), t);
  }

  lemma UnsentInTx(th: Thread)
    requires ThreadOk(th)
    ensures Ids(Unsent(th)) <= Ids(TasksOf(th))
  {
    if th.phase.Sending? {
      var k := th.phase.k;
      assert th.signatures == th.signatures[..k] + th.signatures[k..];
      FlatConcat(th.signatures[..k], th.signatures[k..]);
      AddNothing(Flat(th.signatures));
      IdsConcat(Flat(th.signatures[..k]), Flat(th.signatures[k..]));
    }
  }

  /** The jobs of the signature sent next, apart from those before and after it. */
  lemma NextSignature(th: Thread)
    requires ThreadOk(th) && th.phase.Sending? && th.phase.k < |th.signatures|
    ensures var sig := th.signatures[th.phase.k];
      var th' := th.(phase := Sending(th.phase.k + 1));
      ThreadOk(th') &&
      DistinctIds(sig.Tasks()) && Ids(sig.Tasks()) !! Ids(Unsent(th')) &&
      Ids(Unsent(th)) == Ids(sig.Tasks()) + Ids(Unsent(th')) && Ids(sig.Tasks()) <= Ids(TasksOf(th)) &&
      (forall i :: 0 <= i < |sig.Tasks()| ==> IsTask(sig.Tasks()[i])) &&
      SentInTx(th') == SentInTx(th) + [sig]
  {
    var k := th.phase.k;
    var sig := th.signatures[k];
    FlatSplit(th.signatures, k);
    AddNothing(Flat(th.signatures));
    ThreeParts(TasksOf(th), Flat(th.signatures[..k]), sig.Tasks(), Flat(th.signatures[k + 1..]));
    SplitAt(th.signatures, k);
  }

  lemma SendsOnceKept(s: Sys, s': Sys, t: Tid, sig: Sig)
    requires ThreadsOk(s) && ThreadsOk(s') && SendsOnce(s) && TransactionsApart(s)
    requires s'.sent == s.sent + [(t, sig)] && s'.used == s.used
    requires forall u: Tid :: u != t ==> ThreadOf(s', u) == ThreadOf(s, u)
    requires OrphansApart(s) && s'.orphans == s.orphans && TxIds(s', t) == TxIds(s, t)
    requires DistinctIds(sig.Tasks()) && Ids(sig.Tasks()) !! Ids(Unsent(ThreadOf(s', t)))
    requires Ids(Unsent(ThreadOf(s, t))) == Ids(sig.Tasks()) + Ids(Unsent(ThreadOf(s', t)))
    requires Ids(sig.Tasks()) <= TxIds(s, t)
    ensures SendsOnce(s') && OrphansApart(s')
  {
    SentSigsEnd(s.sent, t, sig);
    FlatEnd(SentSigs(s.sent), sig);
    IdsConcat(Flat(SentSigs(s.sent)), sig.Tasks());
    DistinctConcat(Flat(SentSigs(s.sent)), sig.Tasks());
    assert TxIds(s, t) <= s.used;
    assert Ids(Unsent(ThreadOf(s, t))) !! SentIds(s);
    forall u: Tid
      ensures Ids(Unsent(ThreadOf(s', u))) !! SentIds(s')
    {
      assert Ids(Unsent(ThreadOf(s, u))) !! SentIds(s);
      UnsentInTx(ThreadOf(s, u));
      if u != t { assert TxIds(s, u) !! TxIds(s, t); }
    }
    forall u: Tid
      ensures s'.orphans !! TxIds(s', u)
    {
      assert s.orphans !! TxIds(s, u);
    }
    assert s.orphans !! TxIds(s, t);
  }

  /** Sending one more signature, whatever the store makes of it. */
  lemma {:induction false} SentStepKeepsInv(s: Sys, t: Tid, store': Redis)
    requires Inv(s) && ThreadOf(s, t).phase.Sending? && ThreadOf(s, t).phase.k < |ThreadOf(s, t).signatures|
    requires WellKept(store') && store'.hashes.Keys <= s.store.hashes.Keys + TxIds(s, t)
    requires forall id :: IsStaged(store', id) ==> IsStaged(s.store, id)
    ensures var th := ThreadOf(s, t);
      Inv(SetThread(s, t, th.(phase := Sending(th.phase.k + 1)))
            .(store := store', sent := s.sent + [(t, th.signatures[th.phase.k])]))
  {
    var th := ThreadOf(s, t);
    var sig := th.signatures[th.phase.k];
    var th' := th.(phase := Sending(th.phase.k + 1));
    var s' := SetThread(s, t, th').(store := store', sent := s.sent + [(t, sig)]);
    NextSignature(th);
    SameTransactions(s, s', t);
    SendsOnceKept(s, s', t, sig);
    StagedStayOwned(s, s', t);
    LogGrows(s, s', t, sig);
    DiscardedStayGone(s, s', t);
  }

  lemma SameTransactions(s: Sys, s': Sys, t: Tid)
    requires ThreadsOk(s) && TransactionsApart(s) && s'.threads == s.threads[t := ThreadOf(s', t)] && s'.used == s.used
    requires ThreadOk(ThreadOf(s', t)) && TasksOf(ThreadOf(s', t)) == TasksOf(ThreadOf(s, t))
    ensures forall u: Tid :: u != t ==> ThreadOf(s', u) == ThreadOf(s, u)
    ensures ThreadsOk(s') && TransactionsApart(s') && forall u: Tid :: TxIds(s', u) == TxIds(s, u)
  {
    forall u: Tid
      ensures ThreadOk(ThreadOf(s', u)) && TxIds(s', u) == TxIds(s, u) && TxIds(s', u) <= s'.used
    {
      assert TxIds(s, u) <= s.used;
    }
    forall u: Tid, v: Tid | u != v
      ensures TxIds(s', u) !! TxIds(s', v)
    {
      assert TxIds(s, u) !! TxIds(s, v);
    }
  }

  lemma LogGrows(s: Sys, s': Sys, t: Tid, sig: Sig)
    requires LogMatches(s) && s'.sent == s.sent + [(t, sig)]
    requires forall u: Tid :: u != t ==> ThreadOf(s', u) == ThreadOf(s, u)
    requires ThreadOf(s', t).history == ThreadOf(s, t).history
    requires SentInTx(ThreadOf(s', t)) == SentInTx(ThreadOf(s, t)) + [sig]
    ensures LogMatches(s')
  {
    SentSigsEnd(s.sent, t, sig);
    forall u: Tid
      ensures SentBy(s'.sent, u) == ThreadOf(s', u).history + SentInTx(ThreadOf(s', u))
    {
      assert SentBy(s.sent, u) == ThreadOf(s, u).history + SentInTx(ThreadOf(s, u));
    }
  }

  lemma {:induction false} SendNextKeepsInv(s: Sys, expires: bool, t: Tid, now: int)
    requires Inv(s) && ThreadOf(s, t).phase.Sending? && ThreadOf(s, t).phase.k < |ThreadOf(s, t).signatures|
    ensures Inv(Next(s, expires, SendNext(t, now)))
  {
    var th := ThreadOf(s, t);
    var sig := th.signatures[th.phase.k];
    NextSignature(th);
    assert TxIds(s, t) <= s.used;
    Published(s.store, expires, sig.Tasks(), now);
    var store' := Publish(s.store, expires, sig.Tasks(), now);
    SentStepKeepsInv(s, t, store');
    SendNextIs(s, expires, t, now);
  }

  lemma SendNextIs(s: Sys, expires: bool, t: Tid, now: int)
    requires ThreadOf(s, t).phase.Sending? && ThreadOf(s, t).phase.k < |ThreadOf(s, t).signatures|
    ensures var th := ThreadOf(s, t);
      var sig := th.signatures[th.phase.k];
      Next(s, expires, SendNext(t, now)) ==
        SetThread(s, t, th.(phase := Sending(th.phase.k + 1)))
          .(store := Publish(s.store, expires, sig.Tasks(), now), sent := s.sent + [(t, sig)])
  {
  }

  lemma {:induction false} NextKeepsInv(s: Sys, expires: bool, e: Step)
    requires Inv(s)
    ensures Inv(Next(s, expires, e))
  {
    if Next(s, expires, e) != s {
      match e {
        case BeginAdd(t, sig) => BeginAddKeepsInv(s, expires, t, sig);
        case StageNext(t, now) => StageNextKeepsInv(s, expires, t, now);
        case AddFails(t) => AddFailsKeepsInv(s, expires, t);
        case EndAdd(t) => EndAddKeepsInv(s, expires, t);
        case Discard(t, id) => DiscardKeepsInv(s, expires, t, id);
        case Abort(t) => AbortKeepsInv(s, expires, t);
        case BeginFinish(t) => BeginFinishKeepsInv(s, expires, t);
        case CommitNext(t) => CommitNextKeepsInv(s, expires, t);
        case StartSending(t) => StartSendingKeepsInv(s, expires, t);
        case SendNext(t, now) => SendNextKeepsInv(s, expires, t, now);
        case FinishFails(t, saved) => FinishFailsKeepsInv(s, expires, t, saved);
        case EndFinish(t) => EndFinishKeepsInv(s, expires, t);
        case _ => StoreStepsKeepInv(s, expires, e);
      }
    }
  }

  /** The steps that only concern the store. */
  lemma {:induction false} StoreStepsKeepInv(s: Sys, expires: bool, e: Step)
    requires Inv(s) && (e.UpdateJob? || e.WorkerSets? || e.WorkerPublishes? || e.DeleteJob? || e.RecordExpires?)
    ensures Inv(Next(s, expires, e))
  {
    if Next(s, expires, e) != s {
      match e {
        case UpdateJob(_, id, data) =>
          UpdatedRecord(s.store, expires, id, data);
          StoreStepKeepsInv(s, AfterUpdate(s.store, expires, id, data).0);
        case WorkerSets(id, data) =>
          UpdatedRecord(s.store, expires, id, data);
          StoreStepKeepsInv(s, AfterUpdate(s.store, expires, id, data).0);
        case WorkerPublishes(tasks, now) => WorkerPublishesKeepsInv(s, expires, tasks, now);
        case DeleteJob(_, id) => StoreStepKeepsInv(s, Delete(s.store, {id}));
        case RecordExpires(id) => StoreStepKeepsInv(s, Delete(s.store, {id}));
      }
    }
  }

  lemma {:induction false} RunKeepsInv(s: Sys, expires: bool, es: seq<Step>)
    requires Inv(s)
    ensures Inv(Run(s, expires, es))
  {
    if es != [] {
      RunKeepsInv(s, expires, es[..|es| - 1]);
      NextKeepsInv(Run(s, expires, es[..|es| - 1]), expires, es[|es| - 1]);
    }
  }

  // ----- What follows for every run -----

  lemma UncommittedInTx(th: Thread)
    requires ThreadOk(th)
    ensures TrackedIds(Uncommitted(th)) <= Ids(TasksOf(th))
  {
    TrackedAreIds(Uncommitted(th));
    assert forall x :: x in Uncommitted(th) ==> x in TasksOf(th);
  }

  lemma StagedInTx(th: Thread)
    requires ThreadOk(th)
    ensures StagedIds(th) <= Ids(TasksOf(th))
  {
    IdsConcat(Flat(th.signatures), if th.phase.Adding? then th.phase.sig.Tasks() else []);
  }

  lemma {:induction false} StagedHasOneOwner(s: Sys, id: string) returns (t: Tid)
    requires Inv(s) && IsStaged(s.store, id) && id !in s.orphans
    ensures id in TxIds(s, t) && id in TrackedIds(Uncommitted(ThreadOf(s, t)))
    ensures forall u: Tid :: id in TxIds(s, u) || Shows(s, u, id) ==> u == t
  {
    t :| StagesFor(s, t, id);
    UncommittedInTx(ThreadOf(s, t));
    forall u: Tid | id in TxIds(s, u) || Shows(s, u, id)
      ensures u == t
    {
      StagedInTx(ThreadOf(s, u));
      assert u != t ==> TxIds(s, u) !! TxIds(s, t);
    }
  }

  /** A record that belongs to no transaction, has not been sent, and is shown to no thread. */
  ghost predicate OwnedByNone(s: Sys, id: string) {
    id !in SentIds(s) && forall t: Tid :: id !in TxIds(s, t) && !Shows(s, t, id)
  }

  /** A staged record belongs to the transaction of one thread, which alone may be shown it. */
  ghost predicate OwnedByOne(s: Sys, id: string) {
    exists t: Tid :: id in TxIds(s, t) && forall u: Tid :: id in TxIds(s, u) || Shows(s, u, id) ==> u == t
  }

  lemma OrphanIsNobodys(s: Sys, id: string)
    requires Inv(s) && id in s.orphans && IsStaged(s.store, id)
    ensures OwnedByNone(s, id)
  {
    forall t: Tid
      ensures id !in TxIds(s, t) && !Shows(s, t, id)
    {
      assert s.orphans !! TxIds(s, t);
      StagedInTx(ThreadOf(s, t));
    }
  }

  lemma {:induction false} OwnedUnlessOrphan(s: Sys, id: string)
    requires Inv(s) && IsStaged(s.store, id)
    ensures (OwnedByOne(s, id) <==> id !in s.orphans) && (OwnedByNone(s, id) <==> id in s.orphans)
  {
    if id in s.orphans {
      OrphanIsNobodys(s, id);
      assert forall t: Tid :: id !in TxIds(s, t);
    } else {
      var t := StagedHasOneOwner(s, id);
      assert id in TxIds(s, t);
    }
  }

  /**
   * On every run, each staged record belongs to one thread and is shown to no
   * other, unless an `add` that failed has left it behind: then it belongs to none.
   */
  lemma {:induction false} StagedBelongsToOneThread(expires: bool, es: seq<Step>, id: string)
    requires IsStaged(Run(START, expires, es).store, id)
    ensures var s := Run(START, expires, es);
      (OwnedByOne(s, id) <==> id !in s.orphans) && (OwnedByNone(s, id) <==> id in s.orphans)
  {
    StartHasInv();
    RunKeepsInv(START, expires, es);
    OwnedUnlessOrphan(Run(START, expires, es), id);
  }

  lemma {:induction false} SentLog(s: Sys, t: Tid)
    requires Inv(s)
    ensures DistinctIds(Flat(SentSigs(s.sent)))
    ensures !ThreadOf(s, t).phase.Sending? ==>
      TxIds(s, t) !! SentIds(s) && SentBy(s.sent, t) == ThreadOf(s, t).history
  {
    if !ThreadOf(s, t).phase.Sending? {
      assert Ids(Unsent(ThreadOf(s, t))) !! SentIds(s);
      assert SentBy(s.sent, t) == ThreadOf(s, t).history + [];
      assert ThreadOf(s, t).history + [] == ThreadOf(s, t).history;
    }
  }

  /**
   * On every run no job is sent twice, and nothing of a transaction is sent
   * before it starts to send at its end.
   */
  lemma {:induction false} NothingSentEarly(expires: bool, es: seq<Step>, t: Tid)
    ensures var s := Run(START, expires, es);
      DistinctIds(Flat(SentSigs(s.sent))) &&
      (!ThreadOf(s, t).phase.Sending? ==>
        TxIds(s, t) !! SentIds(s) && SentBy(s.sent, t) == ThreadOf(s, t).history)
  {
    StartHasInv();
    RunKeepsInv(START, expires, es);
    SentLog(Run(START, expires, es), t);
  }

  lemma {:induction false} AllSent(s: Sys, t: Tid)
    requires Inv(s) && AboutToEnd(ThreadOf(s, t))
    ensures SentBy(s.sent, t) == ThreadOf(s, t).history + ThreadOf(s, t).signatures
    ensures forall id :: id in TxIds(s, t) ==> !IsStaged(s.store, id)
  {
    var th := ThreadOf(s, t);
    assert th.signatures[..|th.signatures|] == th.signatures;
    assert SentBy(s.sent, t) == th.history + SentInTx(th);
    assert TrackedIds(Uncommitted(th)) == {};
    forall id | id in TxIds(s, t)
      ensures !IsStaged(s.store, id)
    {
      if IsStaged(s.store, id) {
        assert s.orphans !! TxIds(s, t);
        var u := StagedHasOneOwner(s, id);
      }
    }
  }

  /**
   * When a transaction has finished, its thread has sent exactly its signatures,
   * in the order they were added, after those of its earlier transactions, and
   * none of its records is staged any more.
   */
  lemma {:induction false} FinishSendsEverything(expires: bool, es: seq<Step>, t: Tid)
    requires AboutToEnd(ThreadOf(Run(START, expires, es), t))
    ensures var s := Run(START, expires, es);
      var th := ThreadOf(s, t);
      SentBy(s.sent, t) == th.history + th.signatures &&
      ThreadOf(Next(s, expires, EndFinish(t)), t) == Thread(false, [], [], Idle, th.history + th.signatures) &&
      forall id :: id in TxIds(s, t) ==> !IsStaged(s.store, id)
  {
    StartHasInv();
    RunKeepsInv(START, expires, es);
    AllSent(Run(START, expires, es), t);
    EndsIdle(Run(START, expires, es), expires, t);
  }

  /**
   * When finishing fails, what has been sent by then stays sent: the first
   * signatures in order, after those of earlier transactions. The thread drops the
   * others, and none of the jobs that were staged has a record any more, whether it
   * has been sent or not.
   */
  lemma {:induction false} FailedFinishKeepsWhatIsSent(expires: bool, es: seq<Step>, t: Tid, saved: Option<int>)
    requires ThreadOf(Run(START, expires, es), t).phase.Sending?
    ensures var s := Run(START, expires, es);
      var th := ThreadOf(s, t);
      var s' := Next(s, expires, FinishFails(t, saved));
      th.phase.k <= |th.signatures| && s'.sent == s.sent &&
      SentBy(s'.sent, t) == th.history + th.signatures[..th.phase.k] &&
      ThreadOf(s', t) == Thread(false, [], [], Idle, th.history + th.signatures[..th.phase.k]) &&
      StagedIds(th) !! s'.store.hashes.Keys
  {
    StartHasInv();
    RunKeepsInv(START, expires, es);
    var s := Run(START, expires, es);
    FailedFinish(s, expires, t, saved);
  }

  lemma {:induction false} FailedFinish(s: Sys, expires: bool, t: Tid, saved: Option<int>)
    requires Inv(s) && ThreadOf(s, t).phase.Sending?
    ensures var th := ThreadOf(s, t);
      var s' := Next(s, expires, FinishFails(t, saved));
      th.phase.k <= |th.signatures| && s'.sent == s.sent &&
      SentBy(s'.sent, t) == th.history + th.signatures[..th.phase.k] &&
      ThreadOf(s', t) == Thread(false, [], [], Idle, th.history + th.signatures[..th.phase.k]) &&
      StagedIds(th) !! s'.store.hashes.Keys
  {
    var th := ThreadOf(s, t);
    assert ThreadOk(th) && SentInTx(th) == th.signatures[..th.phase.k];
    assert SentBy(s.sent, t) == th.history + SentInTx(th);
  }

  /** The transaction has sent its last signature. */
  predicate AboutToEnd(th: Thread) {
    th.phase.Sending? && th.phase.k == |th.signatures|
  }

  lemma EndsIdle(s: Sys, expires: bool, t: Tid)
    requires AboutToEnd(ThreadOf(s, t))
    ensures var th := ThreadOf(s, t);
      ThreadOf(Next(s, expires, EndFinish(t)), t) == Thread(false, [], [], Idle, th.history + th.signatures)
  {
  }
}
