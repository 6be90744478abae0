/**
 * Aborting a transaction leaves no trace: the run with it and the run without
 * its steps are compared step by step.
 */
module JobAborts {
  import opened Wrappers
  import opened Sequences
  import opened JobStorage
  import opened JobTasks
  import opened JobRecords
  import opened JobDeletions
  import opened JobDispatch
  import opened JobOrphans

  /** The records that are there because of the transaction of `t`, and those its failed `add`s have left. */
  function Traces(a: Sys, t: Tid, left: set<string>): set<string> {
    TxIds(a, t) + left
  }

  /** `b` is `a` as if the transaction of `t`, whose failed `add`s have left some records, had never begun. */
  ghost predicate WithoutTx(a: Sys, b: Sys, t: Tid, left: set<string>) {
    (ThreadOf(a, t).phase.Idle? || ThreadOf(a, t).phase.Adding?) && left <= a.orphans &&
    b.store == Delete(a.store, Traces(a, t, left)) && b.sent == a.sent && b.used <= a.used &&
    ThreadOf(b, t) == Reset(ThreadOf(a, t)) &&
    forall u: Tid :: u != t ==> ThreadOf(b, u) == ThreadOf(a, u)
  }

  /** The steps in which a thread builds or drops its transaction. */
  predicate IsTxStep(e: Step, t: Tid) {
    match e
    case BeginAdd(u, _) => u == t
    case StageNext(u, _) => u == t
    case AddFails(u) => u == t
    case EndAdd(u) => u == t
    case Discard(u, _) => u == t
    case Abort(u) => u == t
    case _ => false
  }

  lemma SameStoreWithout(r: Redis, r': Redis, ids: set<string>, ids': set<string>)
    requires forall id :: id !in ids ==>
      (id in r'.hashes && id !in ids' <==> id in r.hashes) &&
      (id in r'.expiring && id !in ids' <==> id in r.expiring) &&
      (id in r.hashes && id in r'.hashes ==> r'.hashes[id] == r.hashes[id])
    requires forall id :: id in ids && id !in ids' ==> id !in r'.hashes && id !in r'.expiring
    ensures Delete(r', ids') == Delete(r, ids)
  {
    assert Delete(r', ids').hashes.Keys == Delete(r, ids).hashes.Keys;
    assert Delete(r', ids').expiring == Delete(r, ids).expiring;
  }

  lemma OthersApart(a: Sys, t: Tid, left: set<string>, u: Tid)
    requires Inv(a) && left <= a.orphans && u != t
    ensures TxIds(a, u) !! Traces(a, t, left)
  {
    assert TxIds(a, u) !! TxIds(a, t) && a.orphans !! TxIds(a, u);
  }

  lemma {:induction false} BeginAddIsInvisible(a: Sys, b: Sys, t: Tid, left: set<string>, expires: bool, sig: Sig)
    requires Inv(a) && WithoutTx(a, b, t, left)
    ensures WithoutTx(Next(a, expires, BeginAdd(t, sig)), b, t, left)
  {
    var a' := Next(a, expires, BeginAdd(t, sig));
    var th := ThreadOf(a, t);
    if th.phase.Idle? && IsFresh(a, sig) {
      AddNothing(Flat(th.signatures));
      IdsConcat(Flat(th.signatures), sig.Tasks());
      SameStoreWithout(a.store, a'.store, Traces(a, t, left), Traces(a', t, left));
    }
  }

  lemma {:induction false} StageNextIsInvisible(a: Sys, b: Sys, t: Tid, left: set<string>, expires: bool, now: int)
    requires Inv(a) && WithoutTx(a, b, t, left)
    ensures WithoutTx(Next(a, expires, StageNext(t, now)), b, t, left)
  {
    var a' := Next(a, expires, StageNext(t, now));
    var th := ThreadOf(a, t);
    if MayStage(th) {
      var task := th.phase.sig.Tasks()[th.phase.k];
      NextTask(th);
      assert TxIds(a', t) == TxIds(a, t);
      if !task.ignoreResult { SavedRecord(a.store, expires, task, STAGED, now); }
      SameStoreWithout(a.store, a'.store, Traces(a, t, left), Traces(a', t, left));
    }
  }

  /** A failed `add` adds what it has staged to what is left. */
  lemma {:induction false} AddFailsIsInvisible(a: Sys, b: Sys, t: Tid, left: set<string>, expires: bool)
    requires Inv(a) && WithoutTx(a, b, t, left)
    ensures WithoutTx(Next(a, expires, AddFails(t)), b, t, left + LeftBy(a, AddFails(t), t))
  {
    var th := ThreadOf(a, t);
    if MayFail(th) {
      var a' := Next(a, expires, AddFails(t));
      SameTraces(a, a', t, left);
      SameKeysWithout(a.store, Traces(a, t, left), Traces(a', t, left + HiddenIds(th)));
    }
  }

  lemma SameTraces(a: Sys, a': Sys, t: Tid, left: set<string>)
    requires Inv(a) && MayFail(ThreadOf(a, t)) && ThreadOf(a', t) == ThreadOf(a, t).(phase := Idle)
    ensures Traces(a', t, left + HiddenIds(ThreadOf(a, t))) <= Traces(a, t, left)
    ensures a.store.hashes.Keys * Traces(a, t, left) <= Traces(a', t, left + HiddenIds(ThreadOf(a, t)))
  {
    AfterFailure(ThreadOf(a, t));
    StagedInTx(ThreadOf(a', t));
    TrackedAreIds(ThreadOf(a', t).staged);
    assert TxIds(a, t) * a.store.hashes.Keys <= WrittenIds(ThreadOf(a, t));
  }

  lemma SameKeysWithout(r: Redis, ids: set<string>, ids': set<string>)
    requires WellKept(r) && ids' <= ids && r.hashes.Keys * ids <= ids'
    ensures Delete(r, ids') == Delete(r, ids)
  {
    assert r.hashes - ids' == r.hashes - ids;
    assert r.expiring - ids' == r.expiring - ids;
  }

  lemma {:induction false} EndAddIsInvisible(a: Sys, b: Sys, t: Tid, left: set<string>, expires: bool)
    requires WithoutTx(a, b, t, left)
    ensures WithoutTx(Next(a, expires, EndAdd(t)), b, t, left)
  {
    var a' := Next(a, expires, EndAdd(t));
    assert TasksOf(ThreadOf(a', t)) == TasksOf(ThreadOf(a, t));
  }

  /** Dropping a job from the staged ones and the store, whether or not its signature goes with it. */
  lemma {:induction false} DropIsInvisible(a: Sys, a': Sys, b: Sys, t: Tid, left: set<string>, id: string)
    requires WithoutTx(a, b, t, left) && id in TxIds(a, t)
    requires ThreadOf(a, t).phase.Idle? && ThreadOf(a', t).phase.Idle?
    requires ThreadOf(a', t).history == ThreadOf(a, t).history
    requires TxIds(a, t) - {id} <= TxIds(a', t) <= TxIds(a, t)
    requires a'.threads == a.threads[t := ThreadOf(a', t)] && a'.store == Delete(a.store, {id})
    requires a'.sent == a.sent && a'.used == a.used && a'.orphans == a.orphans
    ensures WithoutTx(a', b, t, left)
  {
    DroppedIds(a.store, Traces(a, t, left), Traces(a', t, left), {id});
  }

  lemma {:induction false} DiscardIsInvisible(a: Sys, b: Sys, t: Tid, left: set<string>, expires: bool, id: string)
    requires Inv(a) && WithoutTx(a, b, t, left)
    ensures WithoutTx(Next(a, expires, Discard(t, id)), b, t, left)
  {
    var th := ThreadOf(a, t);
    if th.phase.Idle? && IsStaged(a.store, id) && id in StagedIds(th) {
      Discarded(th, id);
      StagedInTx(th);
      DropIsInvisible(a, Next(a, expires, Discard(t, id)), b, t, left, id);
    }
  }

  /** No record of a job of the transaction is left once those of the staged jobs are deleted. */
  lemma {:induction false} StagedAreAll(s: Sys, t: Tid)
    requires Inv(s) && ThreadOf(s, t).phase.Idle?
    ensures Delete(s.store, Ids(ThreadOf(s, t).staged)) == Delete(s.store, TxIds(s, t))
  {
    var th := ThreadOf(s, t);
    StagedInTx(th);
    TrackedAreIds(th.staged);
    assert TxIds(s, t) * s.store.hashes.Keys <= WrittenIds(th);
    assert s.store.hashes - Ids(th.staged) == s.store.hashes - TxIds(s, t);
    assert s.store.expiring - Ids(th.staged) == s.store.expiring - TxIds(s, t);
  }

  lemma {:induction false} AbortIsInvisible(a: Sys, b: Sys, t: Tid, left: set<string>, expires: bool)
    requires Inv(a) && WithoutTx(a, b, t, left)
    ensures WithoutTx(Next(a, expires, Abort(t)), b, t, left)
  {
    if ThreadOf(a, t).phase.Idle? {
      AbortDrops(a, t, expires);
      DroppedTx(a, Next(a, expires, Abort(t)), b, t, left);
    }
  }

  lemma {:induction false} DroppedTx(a: Sys, a': Sys, b: Sys, t: Tid, left: set<string>)
    requires WithoutTx(a, b, t, left) && TxIds(a', t) == {}
    requires a' == SetThread(a, t, Reset(ThreadOf(a, t))).(store := Delete(a.store, TxIds(a, t)))
    ensures WithoutTx(a', b, t, left)
  {
    DroppedIds(a.store, Traces(a, t, left), left, TxIds(a, t));
    assert Traces(a', t, left) == left;
  }

  lemma {:induction false} AbortDrops(a: Sys, t: Tid, expires: bool)
    requires Inv(a) && ThreadOf(a, t).phase.Idle?
    ensures var a' := Next(a, expires, Abort(t));
      a' == SetThread(a, t, Reset(ThreadOf(a, t))).(store := Delete(a.store, TxIds(a, t))) && TxIds(a', t) == {}
  {
    StagedAreAll(a, t);
    AddNothing<Task>([]);
  }

  lemma {:induction false} TxStepIsInvisible(a: Sys, b: Sys, t: Tid, left: set<string>, expires: bool, e: Step)
    requires Inv(a) && WithoutTx(a, b, t, left) && IsTxStep(e, t) && !e.AddFails?
    ensures WithoutTx(Next(a, expires, e), b, t, left)
  {
    match e {
      case BeginAdd(_, sig) => BeginAddIsInvisible(a, b, t, left, expires, sig);
      case StageNext(_, now) => StageNextIsInvisible(a, b, t, left, expires, now);
      case EndAdd(_) => EndAddIsInvisible(a, b, t, left, expires);
      case Discard(_, id) => DiscardIsInvisible(a, b, t, left, expires, id);
      case Abort(_) => AbortIsInvisible(a, b, t, left, expires);
    }
  }

  /** The same step of thread `u` on both sides, given what it does to the stores. */
  lemma {:induction false} SameStepOfOther(
    a: Sys, b: Sys, a': Sys, b': Sys, t: Tid, left: set<string>, u: Tid, th: Thread)
    requires WithoutTx(a, b, t, left) && u != t && a.orphans <= a'.orphans
    requires a'.threads == a.threads[u := th] && b'.threads == b.threads[u := th]
    requires b'.store == Delete(a'.store, Traces(a, t, left)) && b'.sent == a'.sent && b'.used <= a'.used
    ensures WithoutTx(a', b', t, left)
  {
    assert ThreadOf(a', t) == ThreadOf(a, t) && ThreadOf(b', t) == ThreadOf(b, t);
    forall v: Tid | v != t
      ensures ThreadOf(b', v) == ThreadOf(a', v)
    {
      assert ThreadOf(b, v) == ThreadOf(a, v);
    }
  }

  lemma {:induction false} StageNextCommutes(a: Sys, b: Sys, t: Tid, left: set<string>, u: Tid, expires: bool, now: int)
    requires Inv(a) && WithoutTx(a, b, t, left) && u != t
    ensures WithoutTx(Next(a, expires, StageNext(u, now)), Next(b, expires, StageNext(u, now)), t, left)
  {
    var th := ThreadOf(a, u);
    assert ThreadOf(b, u) == th;
    if MayStage(th) {
      var task := th.phase.sig.Tasks()[th.phase.k];
      NextTask(th);
      OthersApart(a, t, left, u);
      if !task.ignoreResult { SaveCommutes(a.store, expires, task, STAGED, now, Traces(a, t, left)); }
      StageStepCommutes(a, b, t, left, u, expires, now);
    }
  }

  /** Staging one more record, whatever the stores make of it. */
  lemma {:induction false} StageStepCommutes(
    a: Sys, b: Sys, t: Tid, left: set<string>, u: Tid, expires: bool, now: int)
    requires WithoutTx(a, b, t, left) && u != t && MayStage(ThreadOf(a, u))
    requires var task := ThreadOf(a, u).phase.sig.Tasks()[ThreadOf(a, u).phase.k];
      StageOne(b.store, expires, task, now) == Delete(StageOne(a.store, expires, task, now), Traces(a, t, left))
    ensures WithoutTx(Next(a, expires, StageNext(u, now)), Next(b, expires, StageNext(u, now)), t, left)
  {
    var th := ThreadOf(a, u);
    assert ThreadOf(b, u) == th;
    StageNextIs(a, expires, u, now);
    StageNextIs(b, expires, u, now);
    SameStepOfOther(a, b, Next(a, expires, StageNext(u, now)), Next(b, expires, StageNext(u, now)), t, left, u,
      th.(phase := Adding(th.phase.sig, th.phase.k + 1)));
  }

  /** Committing one more record, whatever the stores make of it. */
  lemma {:induction false} CommitStepCommutes(a: Sys, b: Sys, t: Tid, left: set<string>, u: Tid, expires: bool)
    requires WithoutTx(a, b, t, left) && u != t && ThreadOf(a, u).phase.Committing?
    requires ThreadOf(a, u).phase.k < |ThreadOf(a, u).staged|
    requires var task := ThreadOf(a, u).staged[ThreadOf(a, u).phase.k];
      CommitOne(b.store, expires, task) == Delete(CommitOne(a.store, expires, task), Traces(a, t, left))
    ensures WithoutTx(Next(a, expires, CommitNext(u)), Next(b, expires, CommitNext(u)), t, left)
  {
    var th := ThreadOf(a, u);
    assert ThreadOf(b, u) == th;
    SameStepOfOther(a, b, Next(a, expires, CommitNext(u)), Next(b, expires, CommitNext(u)), t, left, u,
      th.(phase := Committing(th.phase.k + 1)));
  }

  lemma {:induction false} CommitNextCommutes(a: Sys, b: Sys, t: Tid, left: set<string>, u: Tid, expires: bool)
    requires Inv(a) && WithoutTx(a, b, t, left) && u != t
    ensures WithoutTx(Next(a, expires, CommitNext(u)), Next(b, expires, CommitNext(u)), t, left)
  {
    var th := ThreadOf(a, u);
    assert ThreadOf(b, u) == th;
    if th.phase.Committing? && th.phase.k < |th.staged| {
      StagedInTx(th);
      OthersApart(a, t, left, u);
      assert th.staged[th.phase.k] in th.staged;
      assert th.staged[th.phase.k].id in TxIds(a, u);
      CommitCommutes(a.store, expires, th.staged[th.phase.k], Traces(a, t, left));
      CommitStepCommutes(a, b, t, left, u, expires);
    }
  }

  lemma {:induction false} SendNextCommutes(a: Sys, b: Sys, t: Tid, left: set<string>, u: Tid, expires: bool, now: int)
    requires Inv(a) && WithoutTx(a, b, t, left) && u != t
    ensures WithoutTx(Next(a, expires, SendNext(u, now)), Next(b, expires, SendNext(u, now)), t, left)
  {
    var th := ThreadOf(a, u);
    assert ThreadOf(b, u) == th;
    if th.phase.Sending? && th.phase.k < |th.signatures| {
      NextSignature(th);
      OthersApart(a, t, left, u);
      PublishCommutes(a.store, expires, th.signatures[th.phase.k].Tasks(), now, Traces(a, t, left));
      SameStepOfOther(a, b, Next(a, expires, SendNext(u, now)), Next(b, expires, SendNext(u, now)), t, left, u,
        th.(phase := Sending(th.phase.k + 1)));
    }
  }

  lemma {:induction false} DiscardCommutes(a: Sys, b: Sys, t: Tid, left: set<string>, u: Tid, expires: bool, id: string)
    requires Inv(a) && WithoutTx(a, b, t, left) && u != t
    ensures WithoutTx(Next(a, expires, Discard(u, id)), Next(b, expires, Discard(u, id)), t, left)
  {
    var th := ThreadOf(a, u);
    assert ThreadOf(b, u) == th;
    StagedInTx(th);
    OthersApart(a, t, left, u);
    DeleteKeepsStatus(a.store, Traces(a, t, left), id);
    DiscardDoes(a, expires, u, id);
    DiscardDoes(b, expires, u, id);
    if MayDiscard(a, u, id) {
      DeleteCommutes(a.store, Traces(a, t, left), {id});
      SameStepOfOther(a, b, Next(a, expires, Discard(u, id)), Next(b, expires, Discard(u, id)), t, left, u,
        th.(staged := FilterTasks(th.staged, id), signatures := FilterSigs(th.signatures, id)));
    }
  }

  /** The steps of another thread that only move it along, or add and abort. */
  lemma {:induction false} PlainStepCommutes(a: Sys, b: Sys, t: Tid, left: set<string>, u: Tid, expires: bool, e: Step)
    requires Inv(a) && WithoutTx(a, b, t, left) && u != t
    requires e in
      {AddFails(u), EndAdd(u), Abort(u), BeginFinish(u), StartSending(u), FinishFails(u, None), EndFinish(u)}
    ensures WithoutTx(Next(a, expires, e), Next(b, expires, e), t, left)
  {
    assert ThreadOf(b, u) == ThreadOf(a, u);
    DeleteCommutes(a.store, Traces(a, t, left), Ids(ThreadOf(a, u).staged));
    var a', b' := Next(a, expires, e), Next(b, expires, e);
    if a' != a {
      SameStepOfOther(a, b, a', b', t, left, u, ThreadOf(a', u));
    }
  }

  lemma {:induction false} FinishFailsCommutes(
    a: Sys, b: Sys, t: Tid, left: set<string>, u: Tid, expires: bool, saved: Option<int>)
    requires Inv(a) && WithoutTx(a, b, t, left) && u != t
    ensures WithoutTx(Next(a, expires, FinishFails(u, saved)), Next(b, expires, FinishFails(u, saved)), t, left)
  {
    var th := ThreadOf(a, u);
    assert ThreadOf(b, u) == th;
    if th.phase.Committing? || th.phase.Sending? {
      SavedAtFailureCommutes(a, b, t, left, u, expires, saved);
      SavedAtFailureKeepsInv(a, expires, u, saved);
      FinishFailsIs(a, expires, u, saved);
      FinishFailsIs(b, expires, u, saved);
      var a1, b1 := a.(store := AtFailure(a, expires, th, saved)), b.(store := AtFailure(b, expires, th, saved));
      PlainStepCommutes(a1, b1, t, left, u, expires, FinishFails(u, None));
    }
  }

  lemma {:induction false} SavedAtFailureCommutes(
    a: Sys, b: Sys, t: Tid, left: set<string>, u: Tid, expires: bool, saved: Option<int>)
    requires Inv(a) && WithoutTx(a, b, t, left) && u != t
    ensures var th := ThreadOf(a, u);
      WithoutTx(a.(store := AtFailure(a, expires, th, saved)), b.(store := AtFailure(b, expires, th, saved)), t, left)
  {
    var th := ThreadOf(a, u);
    if saved.Some? && th.phase.Sending? && th.phase.k < |th.signatures| {
      NextSignature(th);
      OthersApart(a, t, left, u);
      PublishCommutes(a.store, expires, th.signatures[th.phase.k].Tasks(), saved.value, Traces(a, t, left));
    }
    SameStoreStep(a, b, t, left, AtFailure(a, expires, th, saved), AtFailure(b, expires, th, saved));
  }

  lemma {:induction false} BeginAddCommutes(a: Sys, b: Sys, t: Tid, left: set<string>, u: Tid, expires: bool, sig: Sig)
    requires Inv(a) && WithoutTx(a, b, t, left) && u != t && IsFresh(a, sig)
    ensures WithoutTx(Next(a, expires, BeginAdd(u, sig)), Next(b, expires, BeginAdd(u, sig)), t, left)
  {
    var th := ThreadOf(a, u);
    assert ThreadOf(b, u) == th;
    if th.phase.Idle? {
      SameStepOfOther(a, b, Next(a, expires, BeginAdd(u, sig)), Next(b, expires, BeginAdd(u, sig)), t, left, u,
        th.(joined := true, phase := Adding(sig, 0)));
    }
  }

  lemma {:induction false} SameStoreStep(a: Sys, b: Sys, t: Tid, left: set<string>, storeA: Redis, storeB: Redis)
    requires WithoutTx(a, b, t, left) && storeB == Delete(storeA, Traces(a, t, left))
    ensures WithoutTx(a.(store := storeA), b.(store := storeB), t, left)
  {
    var a', b' := a.(store := storeA), b.(store := storeB);
    assert forall u: Tid :: ThreadOf(a', u) == ThreadOf(a, u) && ThreadOf(b', u) == ThreadOf(b, u);
  }

  /** A job outside the aborted transaction looks the same to everyone on both sides. */
  lemma {:induction false} ShowsSame(a: Sys, b: Sys, t: Tid, left: set<string>, u: Tid, id: string)
    requires Inv(a) && WithoutTx(a, b, t, left)
    ensures Shows(b, u, id) <==> Shows(a, u, id) && id !in Traces(a, t, left)
  {
    DeleteKeepsStatus(a.store, Traces(a, t, left), id);
    StagedInTx(ThreadOf(a, u));
    assert u != t ==> ThreadOf(b, u) == ThreadOf(a, u);
  }

  lemma {:induction false} UpdateOnBothSides(
    a: Sys, b: Sys, t: Tid, left: set<string>, expires: bool, id: string, data: Data)
    requires Inv(a) && WithoutTx(a, b, t, left)
    ensures WithoutTx(a.(store := AfterUpdate(a.store, expires, id, data).0),
                      b.(store := AfterUpdate(b.store, expires, id, data).0), t, left)
    ensures id in Traces(a, t, left) ==> b.(store := AfterUpdate(b.store, expires, id, data).0) == b
  {
    UpdateCommutes(a.store, expires, id, data, Traces(a, t, left));
    SameStoreStep(a, b, t, left, AfterUpdate(a.store, expires, id, data).0, AfterUpdate(b.store, expires, id, data).0);
  }

  lemma {:induction false} UpdateJobCommutes(
    a: Sys, b: Sys, t: Tid, left: set<string>, u: Tid, expires: bool, id: string, data: Data)
    requires Inv(a) && WithoutTx(a, b, t, left)
    ensures WithoutTx(Next(a, expires, UpdateJob(u, id, data)), Next(b, expires, UpdateJob(u, id, data)), t, left)
  {
    ShowsSame(a, b, t, left, u, id);
    UpdateOnBothSides(a, b, t, left, expires, id, data);
  }

  lemma {:induction false} WorkerSetsCommutes(
    a: Sys, b: Sys, t: Tid, left: set<string>, expires: bool, id: string, data: Data)
    requires Inv(a) && WithoutTx(a, b, t, left)
    ensures WithoutTx(Next(a, expires, WorkerSets(id, data)), Next(b, expires, WorkerSets(id, data)), t, left)
  {
    UpdateOnBothSides(a, b, t, left, expires, id, data);
  }

  lemma {:induction false} WorkerPublishesCommutes(
    a: Sys, b: Sys, t: Tid, left: set<string>, expires: bool, tasks: seq<Task>, now: int)
    requires Inv(a) && WithoutTx(a, b, t, left)
    ensures WithoutTx(Next(a, expires, WorkerPublishes(tasks, now)),
                      Next(b, expires, WorkerPublishes(tasks, now)), t, left)
  {
    if MayPublish(a, tasks) {
      assert Ids(Unsent(ThreadOf(a, t))) !! SentIds(a);
      PublishCommutes(a.store, expires, tasks, now, Traces(a, t, left));
      SameStoreStep(a, b, t, left, Publish(a.store, expires, tasks, now), Publish(b.store, expires, tasks, now));
    }
  }

  lemma {:induction false} DeletionCommutes(a: Sys, b: Sys, t: Tid, left: set<string>, expires: bool, e: Step)
    requires Inv(a) && WithoutTx(a, b, t, left) && (e.DeleteJob? || e.RecordExpires?)
    ensures WithoutTx(Next(a, expires, e), Next(b, expires, e), t, left)
  {
    var id := e.id;
    DeleteCommutes(a.store, Traces(a, t, left), {id});
    DeleteKeepsStatus(a.store, Traces(a, t, left), id);
    SameStoreStep(a, b, t, left, Delete(a.store, {id}),
      if id in Traces(a, t, left) then b.store else Delete(b.store, {id}));
  }

  /** A step that is not the building of the transaction of `t` has the same effect without that transaction. */
  lemma {:induction false} OtherStepCommutes(a: Sys, b: Sys, t: Tid, left: set<string>, expires: bool, e: Step)
    requires Inv(a) && WithoutTx(a, b, t, left) && !IsTxStep(e, t) && e != BeginFinish(t)
    requires e.BeginAdd? ==> IsFresh(a, e.sig)
    ensures WithoutTx(Next(a, expires, e), Next(b, expires, e), t, left)
  {
    match e {
      case BeginAdd(u, sig) => BeginAddCommutes(a, b, t, left, u, expires, sig);
      case StageNext(u, now) => StageNextCommutes(a, b, t, left, u, expires, now);
      case AddFails(u) => PlainStepCommutes(a, b, t, left, u, expires, e);
      case EndAdd(u) => PlainStepCommutes(a, b, t, left, u, expires, e);
      case Discard(u, id) => DiscardCommutes(a, b, t, left, u, expires, id);
      case Abort(u) => PlainStepCommutes(a, b, t, left, u, expires, e);
      case BeginFinish(u) => PlainStepCommutes(a, b, t, left, u, expires, e);
      case CommitNext(u) => if u != t { CommitNextCommutes(a, b, t, left, u, expires); }
      case StartSending(u) => if u != t { PlainStepCommutes(a, b, t, left, u, expires, e); }
      case SendNext(u, now) => if u != t { SendNextCommutes(a, b, t, left, u, expires, now); }
      case FinishFails(u, saved) => if u != t { FinishFailsCommutes(a, b, t, left, u, expires, saved); }
      case EndFinish(u) => if u != t { PlainStepCommutes(a, b, t, left, u, expires, e); }
      case UpdateJob(u, id, data) => UpdateJobCommutes(a, b, t, left, u, expires, id, data);
      case DeleteJob(_, _) => DeletionCommutes(a, b, t, left, expires, e);
      case WorkerSets(id, data) => WorkerSetsCommutes(a, b, t, left, expires, id, data);
      case WorkerPublishes(tasks, now) => WorkerPublishesCommutes(a, b, t, left, expires, tasks, now);
      case RecordExpires(_) => DeletionCommutes(a, b, t, left, expires, e);
    }
  }

  /** The run without the steps in which `t` builds and drops its transaction. */
  function Others(es: seq<Step>, t: Tid): seq<Step> {
    if es == [] then []
    else
      Others(es[..|es| - 1], t) + if IsTxStep(es[|es| - 1], t) then [] else [es[|es| - 1]]
  }

  /** Every other thread adds jobs with fresh ids, and `t` does not finish a transaction. */
  ghost predicate Admissible(s: Sys, expires: bool, es: seq<Step>, t: Tid) {
    forall i :: 0 <= i < |es| ==>
      es[i] != BeginFinish(t) &&
      (es[i].BeginAdd? && es[i].t != t ==> IsFresh(Run(s, expires, es[..i]), es[i].sig))
  }

  /** The jobs whose records a step leaves behind, staged, because an `add` of `t` fails. */
  function LeftBy(s: Sys, e: Step, t: Tid): set<string> {
    var th := ThreadOf(s, t);
    if e == AddFails(t) && MayFail(th) then TrackedIds(th.phase.sig.Tasks()[..th.phase.k]) else {}
  }

  /** The jobs that failed `add`s of `t` leave behind on a run: the tracked ones that they had staged. */
  function LeftBehind(s: Sys, expires: bool, es: seq<Step>, t: Tid): set<string> {
    if es == [] then {}
    else
      var before := es[..|es| - 1];
      LeftBehind(s, expires, before, t) + LeftBy(Run(s, expires, before), es[|es| - 1], t)
  }

  lemma {:induction false} RunWithoutTx(s: Sys, expires: bool, es: seq<Step>, t: Tid)
    requires Inv(s) && WithoutTx(s, s, t, {}) && Admissible(s, expires, es, t)
    ensures WithoutTx(Run(s, expires, es), Run(s, expires, Others(es, t)), t, LeftBehind(s, expires, es, t))
  {
    if es != [] {
      var n := |es| - 1;
      forall i | 0 <= i < n
        ensures es[..n][..i] == es[..i]
      {
      }
      assert Admissible(s, expires, es[..n], t);
      RunWithoutTx(s, expires, es[..n], t);
      RunKeepsInv(s, expires, es[..n]);
      var left := LeftBehind(s, expires, es[..n], t);
      var a, b := Run(s, expires, es[..n]), Run(s, expires, Others(es[..n], t));
      OneMoreStep(a, b, t, left, expires, es[n]);
      if IsTxStep(es[n], t) {
        assert Others(es, t) == Others(es[..n], t);
      } else {
        RunEnd(s, expires, Others(es[..n], t), es[n]);
      }
    }
  }

  lemma {:induction false} OneMoreStep(a: Sys, b: Sys, t: Tid, left: set<string>, expires: bool, e: Step)
    requires Inv(a) && WithoutTx(a, b, t, left) && e != BeginFinish(t)
    requires e.BeginAdd? && e.t != t ==> IsFresh(a, e.sig)
    ensures var b' := if IsTxStep(e, t) then b else Next(b, expires, e);
      WithoutTx(Next(a, expires, e), b', t, left + LeftBy(a, e, t))
  {
    if e == AddFails(t) {
      AddFailsIsInvisible(a, b, t, left, expires);
    } else {
      assert left + LeftBy(a, e, t) == left;
      if IsTxStep(e, t) {
        TxStepIsInvisible(a, b, t, left, expires, e);
      } else {
        OtherStepCommutes(a, b, t, left, expires, e);
      }
    }
  }

  lemma NothingToErase(s: Sys, t: Tid)
    requires ThreadOf(s, t) == Reset(ThreadOf(s, t))
    ensures WithoutTx(s, s, t, {})
  {
    AddNothing<Task>([]);
    assert TasksOf(ThreadOf(s, t)) == [];
    assert s.store.hashes - {} == s.store.hashes;
  }

  lemma {:induction false} AbortErases(a: Sys, b: Sys, t: Tid, left: set<string>, expires: bool)
    requires Inv(a) && WithoutTx(a, b, t, left) && ThreadOf(a, t).phase.Idle?
    ensures var aborted := Next(a, expires, Abort(t));
      b.store == Delete(aborted.store, left) && aborted.sent == b.sent && aborted.orphans == a.orphans &&
      forall u: Tid :: ThreadOf(aborted, u) == ThreadOf(b, u)
  {
    StagedAreAll(a, t);
    DroppedIds(a.store, Traces(a, t, left), left, TxIds(a, t));
  }

  /** Deleting records that are there makes no difference exactly when there are none to delete. */
  lemma SameOnlyWithout(r: Redis, ids: set<string>)
    requires ids <= r.hashes.Keys
    ensures Delete(r, ids) == r <==> ids == {}
  {
    if id :| id in ids {
      assert id in r.hashes && id !in Delete(r, ids).hashes;
    } else {
      assert r.hashes - ids == r.hashes;
    }
  }

  /**
   * What an abort leaves: take any run in which `t`, idle and without a
   * transaction, builds one and then aborts it while other threads, workers and
   * the clock go on. What has been sent and every thread are as in the run without
   * those steps of `t`, and so is the store but for the records that failed `add`s
   * had staged, which stay staged on every run from there. So an abort leaves no
   * trace if and only if no `add` of the transaction failed after staging a
   * tracked job.
   */
  lemma {:induction false} AbortLeavesNoTrace(expires: bool, before: seq<Step>, es: seq<Step>, t: Tid)
    requires var s := Run(START, expires, before);
      ThreadOf(s, t) == Reset(ThreadOf(s, t)) && Admissible(s, expires, es, t) &&
      ThreadOf(Run(s, expires, es), t).phase.Idle?
    ensures var s := Run(START, expires, before);
      var left := LeftBehind(s, expires, es, t);
      var aborted := Next(Run(s, expires, es), expires, Abort(t));
      var never := Run(s, expires, Others(es, t));
      never.store == Delete(aborted.store, left) && (aborted.store == never.store <==> left == {}) &&
      aborted.sent == never.sent && (forall u: Tid :: ThreadOf(aborted, u) == ThreadOf(never, u)) &&
      forall more: seq<Step>, id :: id in left ==> StaysStaged(Run(aborted, expires, more).store, id)
  {
    var s := Run(START, expires, before);
    StartHidesNothing();
    RunKeepsHidden(START, expires, before);
    NothingToErase(s, t);
    RunWithoutTx(s, expires, es, t);
    RunKeepsHidden(s, expires, es);
    var left := LeftBehind(s, expires, es, t);
    var aborted := Next(Run(s, expires, es), expires, Abort(t));
    AbortErases(Run(s, expires, es), Run(s, expires, Others(es, t)), t, left, expires);
    NextKeepsHidden(Run(s, expires, es), expires, Abort(t));
    forall more: seq<Step>, id | id in left
      ensures StaysStaged(Run(aborted, expires, more).store, id)
    {
      RunKeepsHidden(aborted, expires, more);
      assert Hidden(Run(aborted, expires, more), id);
    }
    forall id | id in left
      ensures id in aborted.store.hashes
    {
      assert Hidden(aborted, id);
    }
    SameOnlyWithout(aborted.store, left);
  }

  // ----- A failed add -----

  /** A chain whose second job cannot be described without the result of the first. */
  const FIRST := Task("first", false, true, map[])
  const SECOND := Task("second", false, false, map[])

  function FailedAdd(t: Tid, now: int): seq<Step> {
    [BeginAdd(t, Chain([FIRST, SECOND])), StageNext(t, now), AddFails(t), Abort(t)]
  }

  lemma FirstIsStaged(expires: bool, t: Tid, now: int)
    ensures var s := Next(Next(START, expires, FailedAdd(t, now)[0]), expires, FailedAdd(t, now)[1]);
      ThreadOf(s, t).phase == Adding(Chain([FIRST, SECOND]), 1)
  {
    var sig := Chain([FIRST, SECOND]);
    assert sig.Tasks()[0] == FIRST && sig.Tasks()[1] == SECOND;
    assert FIRST.id != SECOND.id by { assert |FIRST.id| != |SECOND.id|; }
    assert IsFresh(START, sig);
  }

  /** The record of the first job outlives the abort of its transaction. */
  lemma FailedAddLeavesRecord(expires: bool, t: Tid, now: int)
    ensures IsStaged(Run(START, expires, FailedAdd(t, now)).store, "first")
    ensures OwnedByNone(Run(START, expires, FailedAdd(t, now)), "first")
  {
    var es := FailedAdd(t, now);
    var sig := Chain([FIRST, SECOND]);
    FirstIsStaged(expires, t, now);
    FourSteps(START, expires, es);
    assert FIRST in sig.Tasks()[..1];
    assert "first" in TrackedIds(sig.Tasks()[..1]);
    OrphansRemain(Next(Next(Next(START, expires, es[0]), expires, es[1]), expires, es[2]), expires, es[3]);
    OrphansStayStaged(expires, es, [], "first");
  }

  lemma FourSteps(s: Sys, expires: bool, es: seq<Step>)
    requires |es| == 4
    ensures Run(s, expires, es) ==
      Next(Next(Next(Next(s, expires, es[0]), expires, es[1]), expires, es[2]), expires, es[3])
  {
    assert es[..2] == [es[0]] + [es[1]] && es[..3] == es[..2] + [es[2]] && es == es[..3] + [es[3]];
    assert [] + [es[0]] == [es[0]];
    RunEnd(s, expires, [], es[0]);
    RunEnd(s, expires, [es[0]], es[1]);
    RunEnd(s, expires, es[..2], es[2]);
    RunEnd(s, expires, es[..3], es[3]);
  }
}
