/**
 * Records that an `add` has staged and no transaction knows: those of the `add`
 * under way, and those of one that failed. No step reaches them, so that the
 * latter stay staged for good.
 */
module JobOrphans {
  import opened Wrappers
  import opened Sequences
  import opened JobStorage
  import opened JobTasks
  import opened JobRecords
  import opened JobDispatch

  ghost predicate Hidden(s: Sys, id: string)
    requires ThreadsOk(s)
  {
    id in s.orphans || exists t: Tid :: id in HiddenIds(ThreadOf(s, t))
  }

  /** Staged, and not going to expire. */
  predicate StaysStaged(r: Redis, id: string) {
    IsStaged(r, id) && id !in r.expiring
  }

  /** No transaction has staged the job, and it has not been sent nor is it about to be. */
  ghost predicate OutOfReach(s: Sys, id: string)
    requires ThreadsOk(s)
  {
    id !in SentIds(s) && forall t: Tid :: OutOfReachOf(ThreadOf(s, t), id)
  }

  ghost predicate OutOfReachOf(th: Thread, id: string)
    requires ThreadOk(th)
  {
    id !in StagedIds(th) && (th.phase.Sending? ==> id !in Ids(Unsent(th)))
  }

  ghost predicate HiddenStayStaged(s: Sys)
    requires ThreadsOk(s)
  {
    forall id :: Hidden(s, id) ==> StaysStaged(s.store, id)
  }

  lemma HiddenInTx(th: Thread)
    requires ThreadOk(th) && th.phase.Adding?
    ensures HiddenIds(th) <= Ids(TasksOf(th)) && HiddenIds(th) !! StagedIds(th)
  {
    var sig := th.phase.sig;
    IdsConcat(Flat(th.signatures), sig.Tasks());
    DistinctConcat(Flat(th.signatures), sig.Tasks());
    assert HiddenIds(th) <= Ids(sig.Tasks()) && StagedIds(th) <= Ids(Flat(th.signatures));
  }

  lemma HiddenIsOutOfReach(s: Sys, id: string)
    requires Inv(s) && Hidden(s, id)
    ensures OutOfReach(s, id)
  {
    if id in s.orphans {
      forall u: Tid
        ensures OutOfReachOf(ThreadOf(s, u), id)
      {
        assert s.orphans !! TxIds(s, u);
        StagedInTx(ThreadOf(s, u));
        UnsentInTx(ThreadOf(s, u));
      }
    } else {
      var t: Tid :| id in HiddenIds(ThreadOf(s, t));
      HiddenInTx(ThreadOf(s, t));
      assert Ids(Unsent(ThreadOf(s, t))) !! SentIds(s);
      forall u: Tid
        ensures OutOfReachOf(ThreadOf(s, u), id)
      {
        if u != t {
          assert TxIds(s, u) !! TxIds(s, t);
          StagedInTx(ThreadOf(s, u));
          UnsentInTx(ThreadOf(s, u));
        }
      }
    }
  }

  // ----- No step touches them -----

  lemma StagingMisses(s: Sys, expires: bool, t: Tid, now: int, id: string)
    requires Inv(s) && StaysStaged(s.store, id)
    ensures SameRecord(s.store, Next(s, expires, StageNext(t, now)).store, id)
  {
    var th := ThreadOf(s, t);
    if MayStage(th) {
      NextTask(th);
      SavedRecord(s.store, expires, th.phase.sig.Tasks()[th.phase.k], STAGED, now);
    }
  }

  lemma CommittingMisses(s: Sys, expires: bool, t: Tid, id: string)
    requires Inv(s) && OutOfReach(s, id)
    ensures SameRecord(s.store, Next(s, expires, CommitNext(t)).store, id)
  {
    var th := ThreadOf(s, t);
    if th.phase.Committing? && th.phase.k < |th.staged| {
      var task := th.staged[th.phase.k];
      assert task.id in StagedIds(th);
      assert OutOfReachOf(th, id);
      CommittedRecord(s.store, expires, task);
    }
  }

  lemma SendingMisses(s: Sys, expires: bool, t: Tid, now: int, id: string)
    requires Inv(s) && OutOfReach(s, id)
    ensures SameRecord(s.store, Next(s, expires, SendNext(t, now)).store, id)
  {
    var th := ThreadOf(s, t);
    if th.phase.Sending? && th.phase.k < |th.signatures| {
      NextSignature(th);
      assert OutOfReachOf(th, id);
      Published(s.store, expires, th.signatures[th.phase.k].Tasks(), now);
    }
  }

  lemma DroppingMisses(s: Sys, expires: bool, t: Tid, e: Step, id: string)
    requires Inv(s) && OutOfReach(s, id) && (e == Abort(t) || (e.Discard? && e.t == t))
    ensures SameRecord(s.store, Next(s, expires, e).store, id)
  {
    assert OutOfReachOf(ThreadOf(s, t), id);
  }

  lemma FailingMisses(s: Sys, expires: bool, t: Tid, saved: Option<int>, id: string)
    requires Inv(s) && OutOfReach(s, id)
    ensures SameRecord(s.store, Next(s, expires, FinishFails(t, saved)).store, id)
  {
    var th := ThreadOf(s, t);
    assert OutOfReachOf(th, id);
    if saved.Some? && th.phase.Sending? && th.phase.k < |th.signatures| {
      NextSignature(th);
      Published(s.store, expires, th.signatures[th.phase.k].Tasks(), saved.value);
    }
  }

  lemma UpdatingMisses(s: Sys, expires: bool, e: Step, id: string)
    requires Inv(s) && OutOfReach(s, id) && StaysStaged(s.store, id) && (e.UpdateJob? || e.WorkerSets?)
    ensures SameRecord(s.store, Next(s, expires, e).store, id)
  {
    if e.UpdateJob? { assert OutOfReachOf(ThreadOf(s, e.t), id); }
    if !Stages(e.data) { UpdatedRecord(s.store, expires, e.id, e.data); }
  }

  lemma RemovingMisses(s: Sys, expires: bool, e: Step, id: string)
    requires Inv(s) && OutOfReach(s, id) && StaysStaged(s.store, id)
    requires e.WorkerPublishes? || e.DeleteJob? || e.RecordExpires?
    ensures SameRecord(s.store, Next(s, expires, e).store, id)
  {
    if e.WorkerPublishes? && MayPublish(s, e.tasks) { Published(s.store, expires, e.tasks, e.now); }
  }

  /** A staged record that is out of reach is left as it is by every step. */
  lemma StepMisses(s: Sys, expires: bool, e: Step, id: string)
    requires Inv(s) && OutOfReach(s, id) && StaysStaged(s.store, id)
    ensures SameRecord(s.store, Next(s, expires, e).store, id)
  {
    match e {
      case StageNext(t, now) => StagingMisses(s, expires, t, now, id);
      case CommitNext(t) => CommittingMisses(s, expires, t, id);
      case SendNext(t, now) => SendingMisses(s, expires, t, now, id);
      case Discard(t, _) => DroppingMisses(s, expires, t, e, id);
      case Abort(t) => DroppingMisses(s, expires, t, e, id);
      case FinishFails(t, saved) => FailingMisses(s, expires, t, saved, id);
      case UpdateJob(_, _, _) => UpdatingMisses(s, expires, e, id);
      case WorkerSets(_, _) => UpdatingMisses(s, expires, e, id);
      case WorkerPublishes(_, _) => RemovingMisses(s, expires, e, id);
      case DeleteJob(_, _) => RemovingMisses(s, expires, e, id);
      case RecordExpires(_) => RemovingMisses(s, expires, e, id);
      case _ => SameStoreAfter(s, expires, e);
    }
  }

  lemma SameStoreAfter(s: Sys, expires: bool, e: Step)
    requires e.BeginAdd? || e.AddFails? || e.EndAdd? || e.BeginFinish? || e.StartSending? || e.EndFinish?
    ensures Next(s, expires, e).store == s.store
  {
  }

  // ----- They stay staged -----

  /** The job that a step adds to the hidden ones, if any. */
  function Newly(s: Sys, e: Step): set<string> {
    if e.StageNext? && MayStage(ThreadOf(s, e.t)) then
      var task := ThreadOf(s, e.t).phase.sig.Tasks()[ThreadOf(s, e.t).phase.k];
      if task.ignoreResult then {} else {task.id}
    else {}
  }

  lemma HiddenBefore(s: Sys, expires: bool, e: Step, id: string)
    requires Inv(s) && Inv(Next(s, expires, e)) && Hidden(Next(s, expires, e), id)
    ensures Hidden(s, id) || id in Newly(s, e)
  {
    var s' := Next(s, expires, e);
    if id in s'.orphans {
      if id !in s.orphans { assert id in HiddenIds(ThreadOf(s, e.t)); }
    } else {
      var t: Tid :| id in HiddenIds(ThreadOf(s', t));
      if ThreadOf(s', t) != ThreadOf(s, t) { HiddenOneMore(s, expires, e, t); }
    }
  }

  lemma HiddenOneMore(s: Sys, expires: bool, e: Step, t: Tid)
    requires ThreadsOk(s) && ThreadsOk(Next(s, expires, e)) && ThreadOf(Next(s, expires, e), t) != ThreadOf(s, t)
    ensures HiddenIds(ThreadOf(Next(s, expires, e), t)) <= HiddenIds(ThreadOf(s, t)) + Newly(s, e)
  {
    var th' := ThreadOf(Next(s, expires, e), t);
    if e.StageNext? {
      HiddenGrows(ThreadOf(s, t));
    } else if e.BeginAdd? {
      assert th'.phase.sig.Tasks()[..0] == [];
    } else {
      assert !th'.phase.Adding?;
    }
  }

  lemma HiddenGrows(th: Thread)
    requires ThreadOk(th) && MayStage(th)
    ensures var k, task := th.phase.k, th.phase.sig.Tasks()[th.phase.k];
      TrackedIds(th.phase.sig.Tasks()[..k + 1]) == HiddenIds(th) + if task.ignoreResult then {} else {task.id}
  {
    var tasks, k := th.phase.sig.Tasks(), th.phase.k;
    SplitAt(tasks, k);
    TrackedConcat(tasks[..k], [tasks[k]]);
    TrackedOne(tasks[k]);
  }

  /** A record that has just been staged is new, and staged. */
  lemma NewlyStaged(s: Sys, expires: bool, e: Step, id: string)
    requires Inv(s) && id in Newly(s, e)
    ensures StaysStaged(Next(s, expires, e).store, id)
  {
    var th := ThreadOf(s, e.t);
    NextTask(th);
    NextIsNew(th);
    assert TxIds(s, e.t) * s.store.hashes.Keys <= WrittenIds(th);
    StageNextIs(s, expires, e.t, e.now);
    SavedRecord(s.store, expires, th.phase.sig.Tasks()[th.phase.k], STAGED, e.now);
  }

  lemma NextIsNew(th: Thread)
    requires ThreadOk(th) && MayStage(th)
    ensures th.phase.sig.Tasks()[th.phase.k].id !in WrittenIds(th)
  {
    var tasks, k := th.phase.sig.Tasks(), th.phase.k;
    DistinctConcat(Flat(th.signatures), tasks);
    TrackedConcat(th.staged, tasks[..k]);
    assert tasks[k] in tasks;
    assert TrackedIds(th.staged) <= Ids(Flat(th.signatures));
  }

  lemma {:induction false} NextKeepsHidden(s: Sys, expires: bool, e: Step)
    requires Inv(s) && HiddenStayStaged(s)
    ensures Inv(Next(s, expires, e)) && HiddenStayStaged(Next(s, expires, e))
  {
    NextKeepsInv(s, expires, e);
    var s' := Next(s, expires, e);
    forall id | Hidden(s', id)
      ensures StaysStaged(s'.store, id)
    {
      HiddenBefore(s, expires, e, id);
      if id in Newly(s, e) {
        NewlyStaged(s, expires, e, id);
      } else {
        HiddenIsOutOfReach(s, id);
        StepMisses(s, expires, e, id);
      }
    }
  }

  lemma {:induction false} RunKeepsHidden(s: Sys, expires: bool, es: seq<Step>)
    requires Inv(s) && HiddenStayStaged(s)
    ensures Inv(Run(s, expires, es)) && HiddenStayStaged(Run(s, expires, es))
    ensures s.orphans <= Run(s, expires, es).orphans
  {
    if es != [] {
      RunKeepsHidden(s, expires, es[..|es| - 1]);
      NextKeepsHidden(Run(s, expires, es[..|es| - 1]), expires, es[|es| - 1]);
      OrphansRemain(Run(s, expires, es[..|es| - 1]), expires, es[|es| - 1]);
    }
  }

  lemma OrphansRemain(s: Sys, expires: bool, e: Step)
    ensures s.orphans <= Next(s, expires, e).orphans
  {
  }

  lemma {:induction false} StartHidesNothing()
    ensures Inv(START) && HiddenStayStaged(START)
  {
    StartHasInv();
    assert forall t: Tid :: HiddenIds(ThreadOf(START, t)) == {};
  }

  /** Once an `add` has failed, the records it had staged stay staged on every run from there. */
  lemma {:induction false} OrphansStayStaged(expires: bool, es: seq<Step>, more: seq<Step>, id: string)
    requires id in Run(START, expires, es).orphans
    ensures var later := Run(Run(START, expires, es), expires, more);
      StaysStaged(later.store, id) && OwnedByNone(later, id)
  {
    StartHidesNothing();
    RunKeepsHidden(START, expires, es);
    var s := Run(START, expires, es);
    RunKeepsHidden(s, expires, more);
    var later := Run(s, expires, more);
    assert Hidden(later, id);
    OrphanIsNobodys(later, id);
  }
}
