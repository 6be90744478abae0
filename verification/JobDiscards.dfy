/** What becomes of a job that is discarded before its transaction ends. */
module JobDiscards {
  import opened Wrappers
  import opened Sequences
  import opened JobStorage
  import opened JobTasks
  import opened JobRecords
  import opened JobDispatch

  /** A job that once was: it has no record, belongs to no transaction and has not been sent. */
  ghost predicate Forgotten(s: Sys, id: string) {
    id in s.used && id !in s.orphans && id !in s.store.hashes && id !in SentIds(s) &&
    forall t: Tid :: id !in TxIds(s, t)
  }

  lemma ForgottenInTx(s: Sys, t: Tid, id: string)
    requires Forgotten(s, id)
    ensures id !in TxIds(s, t)
  {
  }

  /** The jobs of a thread after a step other than adding or discarding: the same, or none. */
  lemma {:induction false} TasksAfter(s: Sys, expires: bool, e: Step, t: Tid)
    requires !e.BeginAdd? && !e.AddFails? && !e.EndAdd? && !e.Discard?
    ensures var th' := ThreadOf(Next(s, expires, e), t);
      th' == Reset(ThreadOf(s, t)).(history := th'.history) ||
      (th'.signatures == ThreadOf(s, t).signatures && (th'.phase.Adding? <==> ThreadOf(s, t).phase.Adding?) &&
       (th'.phase.Adding? ==> th'.phase.sig == ThreadOf(s, t).phase.sig))
  {
  }

  /** The ids of the transaction of `t` after a step are those of before, or new. */
  lemma {:induction false} TxAfter(s: Sys, expires: bool, e: Step, t: Tid)
    requires ThreadOk(ThreadOf(s, t))
    ensures TxIds(Next(s, expires, e), t) <= TxIds(s, t) + (if e.BeginAdd? then Ids(e.sig.Tasks()) - s.used else {})
  {
    match e {
      case BeginAdd(u, sig) => if u == t { BegunTx(ThreadOf(s, t), sig); }
      case AddFails(u) => if u == t && MayFail(ThreadOf(s, t)) { AfterFailure(ThreadOf(s, t)); }
      case EndAdd(u) => if u == t && ThreadOf(s, t).phase.Adding? { EndedTx(ThreadOf(s, t)); }
      case Discard(u, id) => if u == t && ThreadOf(s, t).phase.Idle? { Discarded(ThreadOf(s, t), id); }
      case _ =>
        TasksAfter(s, expires, e, t);
        AddNothing<Task>([]);
    }
  }

  lemma {:induction false} BegunTx(th: Thread, sig: Sig)
    ensures th.phase.Idle? ==>
      Ids(TasksOf(th.(joined := true, phase := Adding(sig, 0)))) == Ids(TasksOf(th)) + Ids(sig.Tasks())
  {
    AddNothing(Flat(th.signatures));
    IdsConcat(Flat(th.signatures), sig.Tasks());
  }

  lemma {:induction false} EndedTx(th: Thread)
    requires th.phase.Adding?
    ensures TasksOf(th.(staged := th.staged + th.phase.sig.Tasks(), signatures := th.signatures + [th.phase.sig],
                        phase := Idle)) == TasksOf(th)
  {
    FlatEnd(th.signatures, th.phase.sig);
    AddNothing(Flat(th.signatures + [th.phase.sig]));
  }

  lemma {:induction false} StoreStaysWithout(s: Sys, expires: bool, e: Step, id: string)
    requires Inv(s) && Forgotten(s, id)
    ensures id !in Next(s, expires, e).store.hashes
  {
    match e {
      case StageNext(t, now) =>
        if MayStage(ThreadOf(s, t)) {
          NextTask(ThreadOf(s, t));
          StagedOne(s.store, expires, ThreadOf(s, t).phase.sig.Tasks()[ThreadOf(s, t).phase.k], now);
          ForgottenInTx(s, t, id);
        }
      case CommitNext(_) => FinishStaysWithout(s, expires, e, id);
      case SendNext(_, _) => FinishStaysWithout(s, expires, e, id);
      case FinishFails(_, _) => FinishStaysWithout(s, expires, e, id);
      case UpdateJob(_, _, _) => WorkStaysWithout(s, expires, e, id);
      case WorkerSets(_, _) => WorkStaysWithout(s, expires, e, id);
      case WorkerPublishes(_, _) => WorkStaysWithout(s, expires, e, id);
      case _ =>
    }
  }

  lemma {:induction false} FinishStaysWithout(s: Sys, expires: bool, e: Step, id: string)
    requires Inv(s) && Forgotten(s, id) && (e.CommitNext? || e.SendNext? || e.FinishFails?)
    ensures id !in Next(s, expires, e).store.hashes
  {
    match e {
      case CommitNext(t) =>
        if ThreadOf(s, t).phase.Committing? && ThreadOf(s, t).phase.k < |ThreadOf(s, t).staged| {
          CommittedStatus(s.store, expires, ThreadOf(s, t).staged[ThreadOf(s, t).phase.k]);
        }
      case SendNext(t, now) => SendingStaysWithout(s, expires, t, Some(now), id);
      case FinishFails(t, saved) => SendingStaysWithout(s, expires, t, saved, id);
    }
  }

  lemma {:induction false} WorkStaysWithout(s: Sys, expires: bool, e: Step, id: string)
    requires Inv(s) && Forgotten(s, id) && (e.UpdateJob? || e.WorkerSets? || e.WorkerPublishes?)
    ensures id !in Next(s, expires, e).store.hashes
  {
    if e.WorkerPublishes? {
      if MayPublish(s, e.tasks) { Published(s.store, expires, e.tasks, e.now); }
    } else if !Stages(e.data) {
      UpdatedRecord(s.store, expires, e.id, e.data);
    }
  }

  lemma {:induction false} SendingStaysWithout(s: Sys, expires: bool, t: Tid, saved: Option<int>, id: string)
    requires Inv(s) && Forgotten(s, id)
    ensures id !in AtFailure(s, expires, ThreadOf(s, t), saved).hashes
  {
    var th := ThreadOf(s, t);
    if saved.Some? && th.phase.Sending? && th.phase.k < |th.signatures| {
      NextSignature(th);
      Published(s.store, expires, th.signatures[th.phase.k].Tasks(), saved.value);
      ForgottenInTx(s, t, id);
    }
  }

  lemma {:induction false} SentStaysWithout(s: Sys, expires: bool, e: Step, id: string)
    requires Inv(s) && Forgotten(s, id)
    ensures id !in SentIds(Next(s, expires, e))
  {
    if e.SendNext? && Next(s, expires, e) != s {
      var th := ThreadOf(s, e.t);
      var sig := th.signatures[th.phase.k];
      NextSignature(th);
      ForgottenInTx(s, e.t, id);
      SentSigsEnd(s.sent, e.t, sig);
      FlatEnd(SentSigs(s.sent), sig);
      IdsConcat(Flat(SentSigs(s.sent)), sig.Tasks());
    }
  }

  lemma {:induction false} NextKeepsForgotten(s: Sys, expires: bool, e: Step, id: string)
    requires Inv(s) && Forgotten(s, id)
    ensures Forgotten(Next(s, expires, e), id)
  {
    var s' := Next(s, expires, e);
    StoreStaysWithout(s, expires, e, id);
    SentStaysWithout(s, expires, e, id);
    OrphansStayWithout(s, expires, e, id);
    forall t: Tid
      ensures id !in TxIds(s', t)
    {
      ForgottenInTx(s, t, id);
      if ThreadOf(s', t) != ThreadOf(s, t) { TxAfter(s, expires, e, t); }
    }
  }

  lemma {:induction false} OrphansStayWithout(s: Sys, expires: bool, e: Step, id: string)
    requires Inv(s) && Forgotten(s, id)
    ensures id !in Next(s, expires, e).orphans && s.used <= Next(s, expires, e).used
  {
    if e.AddFails? && MayFail(ThreadOf(s, e.t)) {
      AfterFailure(ThreadOf(s, e.t));
      ForgottenInTx(s, e.t, id);
    }
  }

  lemma {:induction false} RunKeepsForgotten(s: Sys, expires: bool, es: seq<Step>, id: string)
    requires Inv(s) && Forgotten(s, id)
    ensures Forgotten(Run(s, expires, es), id)
  {
    if es != [] {
      RunKeepsForgotten(s, expires, es[..|es| - 1], id);
      RunKeepsInv(s, expires, es[..|es| - 1]);
      NextKeepsForgotten(Run(s, expires, es[..|es| - 1]), expires, es[|es| - 1], id);
    }
  }

  lemma {:induction false} DiscardForgets(s: Sys, expires: bool, t: Tid, k: nat)
    requires Inv(s) && k < |ThreadOf(s, t).signatures| && ThreadOf(s, t).signatures[k].Single?
    requires MayDiscard(s, t, ThreadOf(s, t).signatures[k].task.id)
    ensures var th, id := ThreadOf(s, t), ThreadOf(s, t).signatures[k].task.id;
      var s' := Next(s, expires, Discard(t, id));
      Forgotten(s', id) && ThreadOf(s', t).signatures == th.signatures[..k] + th.signatures[k + 1..]
  {
    var th, id := ThreadOf(s, t), ThreadOf(s, t).signatures[k].task.id;
    AddNothing(Flat(th.signatures));
    SingleIsFiltered(th.signatures, k);
    AddNothing(Flat(th.signatures[..k] + th.signatures[k + 1..]));
    StagedInTx(th);
    DiscardDoes(s, expires, t, id);
    DroppedIsForgotten(s, t, ThreadOf(Next(s, expires, Discard(t, id)), t), id);
  }

  lemma {:induction false} DroppedIsForgotten(s: Sys, t: Tid, th: Thread, id: string)
    requires Inv(s) && id in TxIds(s, t) && id !in Ids(TasksOf(th)) && ThreadOf(s, t).phase.Idle?
    ensures Forgotten(SetThread(s, t, th).(store := Delete(s.store, {id})), id)
  {
    var s' := SetThread(s, t, th).(store := Delete(s.store, {id}));
    assert Ids(Unsent(ThreadOf(s, t))) !! SentIds(s) && s.orphans !! TxIds(s, t) && TxIds(s, t) <= s.used;
    forall u: Tid
      ensures id !in TxIds(s', u)
    {
      if u != t { assert TxIds(s, u) !! TxIds(s, t); }
    }
  }

  /**
   * A job that was added singly and is discarded while it is staged is never sent,
   * and never has a record again, on any run from there; the thread keeps exactly
   * its other signatures, in order.
   */
  lemma {:induction false} DiscardedSingleIsGone(expires: bool, es: seq<Step>, t: Tid, k: nat, more: seq<Step>)
    requires var th := ThreadOf(Run(START, expires, es), t);
      k < |th.signatures| && th.signatures[k].Single? &&
      MayDiscard(Run(START, expires, es), t, th.signatures[k].task.id)
    ensures var s := Run(START, expires, es);
      var th, id := ThreadOf(s, t), ThreadOf(s, t).signatures[k].task.id;
      var s' := Next(s, expires, Discard(t, id));
      ThreadOf(s', t).signatures == th.signatures[..k] + th.signatures[k + 1..] &&
      id !in SentIds(Run(s', expires, more)) && id !in Run(s', expires, more).store.hashes
  {
    var s := Run(START, expires, es);
    var id := ThreadOf(s, t).signatures[k].task.id;
    StartHasInv();
    RunKeepsInv(START, expires, es);
    DiscardForgets(s, expires, t, k);
    NextKeepsInv(s, expires, Discard(t, id));
    RunKeepsForgotten(Next(s, expires, Discard(t, id)), expires, more, id);
  }

  /** A job that was added with a chain leaves all signatures of the thread as they are. */
  lemma {:induction false} DiscardedMemberKeepsSignatures(expires: bool, es: seq<Step>, t: Tid, id: string)
    ensures var s := Run(START, expires, es);
      (forall sig :: sig in ThreadOf(s, t).signatures && sig.Single? ==> sig.task.id != id) ==>
        ThreadOf(Next(s, expires, Discard(t, id)), t).signatures == ThreadOf(s, t).signatures
  {
    var s := Run(START, expires, es);
    DiscardDoes(s, expires, t, id);
    if forall sig :: sig in ThreadOf(s, t).signatures && sig.Single? ==> sig.task.id != id {
      NoneFiltered(ThreadOf(s, t).signatures, id);
    }
  }
}
