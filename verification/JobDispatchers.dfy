/**
 * The dispatcher object of one thread, between operations, over the shared
 * store: its operations as loops, and the steps of the interleaved machine that
 * each of them takes.
 */
module JobDispatchers {
  import opened Wrappers
  import opened Sequences
  import opened JobStorage
  import opened JobTasks
  import opened JobRecords
  import opened JobDispatch

  predicate AllTasks(tasks: seq<Task>) {
    forall i :: 0 <= i < |tasks| ==> IsTask(tasks[i])
  }

  function StageAll(r: Redis, expires: bool, tasks: seq<Task>, times: seq<int>): Redis
    requires |tasks| == |times|
  {
    if tasks == [] then r
    else
      var n := |tasks| - 1;
      StageOne(StageAll(r, expires, tasks[..n], times[..n]), expires, tasks[n], times[n])
  }

  function CommitAll(r: Redis, expires: bool, tasks: seq<Task>): Redis {
    if tasks == [] then r else CommitOne(CommitAll(r, expires, tasks[..|tasks| - 1]), expires, tasks[|tasks| - 1])
  }

  function PublishAll(r: Redis, expires: bool, sigs: seq<Sig>, times: seq<int>): Redis
    requires |sigs| == |times|
  {
    if sigs == [] then r
    else
      var n := |sigs| - 1;
      Publish(PublishAll(r, expires, sigs[..n], times[..n]), expires, sigs[n].Tasks(), times[n])
  }

  // ----- What the operations do to the records -----

  lemma {:induction false} StagesNew(r: Redis, expires: bool, task: Task, now: int)
    requires WellKept(r) && IsTask(task) && task.id !in r.hashes
    ensures var r' := StageOne(r, expires, task, now);
      WellKept(r') &&
      r'.hashes == if task.ignoreResult then r.hashes else r.hashes[task.id := Encoded(NewRecord(task, STAGED, now))]
  {
    if !task.ignoreResult { SavedRecord(r, expires, task, STAGED, now); }
  }

  /** Each tracked job has its staged record. */
  ghost predicate RecordsOf(r: Redis, tasks: seq<Task>, times: seq<int>)
    requires |tasks| == |times|
  {
    forall i :: 0 <= i < |tasks| && !tasks[i].ignoreResult ==>
      tasks[i].id in r.hashes && RecordFor(r.hashes[tasks[i].id], tasks[i], "STAGED", times[i])
  }

  lemma OneMoreRecord(r1: Redis, r2: Redis, tasks: seq<Task>, times: seq<int>)
    requires tasks != [] && |tasks| == |times| && DistinctIds(tasks)
    requires RecordsOf(r1, tasks[..|tasks| - 1], times[..|times| - 1])
    requires var task := tasks[|tasks| - 1];
      r2.hashes == if task.ignoreResult then r1.hashes
                   else r1.hashes[task.id := Encoded(NewRecord(task, STAGED, times[|times| - 1]))]
    ensures RecordsOf(r2, tasks, times)
  {
    var n := |tasks| - 1;
    NewRecordIsFor(tasks[n], STAGED, times[n]);
    forall i | 0 <= i < n && !tasks[i].ignoreResult
      ensures tasks[i].id in r2.hashes && RecordFor(r2.hashes[tasks[i].id], tasks[i], STAGED, times[i])
    {
      assert tasks[..n][i] == tasks[i] && times[..n][i] == times[i];
      assert tasks[i].id != tasks[n].id;
    }
  }

  /** Adding jobs with unused ids gives each tracked one a staged record, and touches no other record. */
  lemma {:induction false} StagingAddsRecords(r: Redis, expires: bool, tasks: seq<Task>, times: seq<int>)
    requires WellKept(r) && |tasks| == |times| && AllTasks(tasks) && DistinctIds(tasks)
    requires Ids(tasks) !! r.hashes.Keys
    ensures var r' := StageAll(r, expires, tasks, times);
      WellKept(r') && r'.hashes.Keys == r.hashes.Keys + TrackedIds(tasks) &&
      (forall id :: id in r.hashes ==> r'.hashes[id] == r.hashes[id]) && RecordsOf(r', tasks, times)
  {
    if tasks != [] {
      var n := |tasks| - 1;
      var before, last := tasks[..n], tasks[n];
      SplitLast(tasks);
      StagingAddsRecords(r, expires, before, times[..n]);
      var r1 := StageAll(r, expires, before, times[..n]);
      assert last.id !in r1.hashes;
      StagesNew(r1, expires, last, times[n]);
      OneMoreRecord(r1, StageAll(r, expires, tasks, times), tasks, times);
    }
  }

  lemma SplitLast(tasks: seq<Task>)
    requires tasks != []
    ensures var before, last := tasks[..|tasks| - 1], tasks[|tasks| - 1];
      Ids(tasks) == Ids(before) + {last.id} && TrackedIds(before) <= Ids(before) &&
      TrackedIds(tasks) == TrackedIds(before) + (if last.ignoreResult then {} else {last.id}) &&
      (DistinctIds(tasks) ==> DistinctIds(before) && last.id !in Ids(before))
  {
    var n := |tasks| - 1;
    var before := tasks[..n];
    assert tasks == before + [tasks[n]];
    IdsConcat(before, [tasks[n]]);
    DistinctConcat(before, [tasks[n]]);
    TrackedConcat(before, [tasks[n]]);
    TrackedOne(tasks[n]);
    TrackedAreIds(before);
  }

  /** The record of a job once a transaction with the given tracked jobs is committed. */
  function AfterCommit(r: Redis, tracked: set<string>, id: string): Hash
    requires id in r.hashes
  {
    if id in tracked && IsStaged(r, id) then r.hashes[id]["status" := PENDING] else r.hashes[id]
  }

  lemma {:induction false} CommitsOne(r: Redis, expires: bool, task: Task)
    requires WellKept(r)
    ensures var r' := CommitOne(r, expires, task);
      WellKept(r') && r'.expiring == r.expiring && r'.hashes.Keys == r.hashes.Keys &&
      forall id :: id in r.hashes ==> r'.hashes[id] == AfterCommit(r, if task.ignoreResult then {} else {task.id}, id)
  {
    CommittedRecord(r, expires, task);
  }

  /** Committing turns exactly the staged records of the given jobs to pending; nothing else changes. */
  lemma {:induction false} CommittingTurnsStagedToPending(r: Redis, expires: bool, tasks: seq<Task>)
    requires WellKept(r)
    ensures var r' := CommitAll(r, expires, tasks);
      WellKept(r') && r'.expiring == r.expiring && r'.hashes.Keys == r.hashes.Keys &&
      forall id :: id in r.hashes ==> r'.hashes[id] == AfterCommit(r, TrackedIds(tasks), id)
  {
    if tasks != [] {
      var n := |tasks| - 1;
      var r1 := CommitAll(r, expires, tasks[..n]);
      CommittingTurnsStagedToPending(r, expires, tasks[..n]);
      CommitsOne(r1, expires, tasks[n]);
      SplitLast(tasks);
      var last := if tasks[n].ignoreResult then {} else {tasks[n].id};
      CommitsBoth(r, r1, CommitAll(r, expires, tasks), TrackedIds(tasks[..n]), last);
    }
  }

  lemma CommitsBoth(r: Redis, r1: Redis, r2: Redis, some: set<string>, more: set<string>)
    requires r1.hashes.Keys == r.hashes.Keys && r2.hashes.Keys == r1.hashes.Keys
    requires forall id :: id in r.hashes ==> r1.hashes[id] == AfterCommit(r, some, id)
    requires forall id :: id in r1.hashes ==> r2.hashes[id] == AfterCommit(r1, more, id)
    ensures forall id :: id in r.hashes ==> r2.hashes[id] == AfterCommit(r, some + more, id)
  {
    forall id | id in r.hashes
      ensures r2.hashes[id] == AfterCommit(r, some + more, id)
    {
      assert r1.hashes[id] == AfterCommit(r, some, id) && r2.hashes[id] == AfterCommit(r1, more, id);
    }
  }

  lemma {:induction false} SavingKeepsRecords(r: Redis, expires: bool, tasks: seq<Task>, now: int)
    requires WellKept(r) && AllTasks(tasks)
    ensures var r' := SaveAll(r, expires, tasks, now);
      WellKept(r') && r.hashes.Keys <= r'.hashes.Keys && forall id :: id in r.hashes ==> r'.hashes[id] == r.hashes[id]
  {
    if tasks != [] {
      var n := |tasks| - 1;
      SavingKeepsRecords(r, expires, tasks[..n], now);
      SavedRecord(SaveAll(r, expires, tasks[..n], now), expires, tasks[n], PENDING, now);
    }
  }

  lemma {:induction false} PublishingKeepsRecords(r: Redis, expires: bool, sigs: seq<Sig>, times: seq<int>)
    requires WellKept(r) && |sigs| == |times| && forall i :: 0 <= i < |sigs| ==> AllTasks(sigs[i].Tasks())
    ensures var r' := PublishAll(r, expires, sigs, times);
      WellKept(r') && r.hashes.Keys <= r'.hashes.Keys && forall id :: id in r.hashes ==> r'.hashes[id] == r.hashes[id]
  {
    if sigs != [] {
      var n := |sigs| - 1;
      PublishingKeepsRecords(r, expires, sigs[..n], times[..n]);
      var tasks := sigs[n].Tasks();
      SavingKeepsRecords(
        PublishAll(r, expires, sigs[..n], times[..n]), expires, tasks[..Leading(tasks, Builds)], times[n]);
    }
  }

  /**
   * Finishing keeps every record there is, turns those that are staged for the
   * transaction to pending with their other fields unchanged, and changes no
   * other record.
   */
  lemma {:induction false} FinishTurnsStagedToPending(
    r: Redis, expires: bool, staged: seq<Task>, sigs: seq<Sig>, times: seq<int>)
    requires WellKept(r) && |sigs| == |times| && forall i :: 0 <= i < |sigs| ==> AllTasks(sigs[i].Tasks())
    ensures var r' := PublishAll(CommitAll(r, expires, staged), expires, sigs, times);
      r.hashes.Keys <= r'.hashes.Keys &&
      forall id :: id in r.hashes ==> r'.hashes[id] == AfterCommit(r, TrackedIds(staged), id)
  {
    CommittingTurnsStagedToPending(r, expires, staged);
    PublishingKeepsRecords(CommitAll(r, expires, staged), expires, sigs, times);
  }

  // ----- Discarding a member of a chain -----

  lemma {:induction false} ChainStays(sigs: seq<Sig>, chain: Sig, id: string)
    requires chain in sigs && chain.Chain?
    ensures chain in FilterSigs(sigs, id)
  {
    var n := |sigs| - 1;
    if chain != sigs[n] {
      assert chain in sigs[..n];
      ChainStays(sigs[..n], chain, id);
    }
  }

  lemma {:induction false} SavingAddsAll(r: Redis, expires: bool, tasks: seq<Task>, now: int)
    requires WellKept(r) && AllTasks(tasks)
    ensures var r' := SaveAll(r, expires, tasks, now);
      WellKept(r') && r'.hashes.Keys == r.hashes.Keys + Ids(tasks) &&
      forall id :: id in Ids(tasks) && id !in r.hashes ==> StatusOf(r', id) == Some(PENDING)
  {
    if tasks != [] {
      var n := |tasks| - 1;
      SavingAddsAll(r, expires, tasks[..n], now);
      SavedRecord(SaveAll(r, expires, tasks[..n], now), expires, tasks[n], PENDING, now);
      IdsEnd(tasks);
    }
  }

  /** The records saved are those of the jobs, pending since now. */
  lemma {:induction false} SavedRecordsAreFor(r: Redis, expires: bool, tasks: seq<Task>, now: int, task: Task)
    requires WellKept(r) && AllTasks(tasks) && DistinctIds(tasks) && task in tasks && task.id !in r.hashes
    ensures var r' := SaveAll(r, expires, tasks, now);
      task.id in r'.hashes && RecordFor(r'.hashes[task.id], task, "PENDING", now)
  {
    var n := |tasks| - 1;
    SplitLast(tasks);
    LastOf(tasks);
    SavingAddsAll(r, expires, tasks[..n], now);
    if task != tasks[n] {
      assert task.id in Ids(tasks[..n]);
      SavedRecordsAreFor(r, expires, tasks[..n], now, task);
    }
    SavedNextTo(SaveAll(r, expires, tasks[..n], now), expires, tasks[n], now, task);
  }

  /** Saving one more record leaves the record of another job, and makes its own. */
  lemma SavedNextTo(r: Redis, expires: bool, last: Task, now: int, task: Task)
    requires WellKept(r) && IsTask(last)
    requires if task == last then last.id !in r.hashes else
      task.id != last.id && task.id in r.hashes && RecordFor(r.hashes[task.id], task, "PENDING", now)
    ensures var r' := SaveRecord(r, expires, last, PENDING, now);
      task.id in r'.hashes && RecordFor(r'.hashes[task.id], task, "PENDING", now)
  {
    SavedRecord(r, expires, last, PENDING, now);
    NewRecordIsFor(last, PENDING, now);
  }

  /**
   * The `k`-th job of a chain when the chain is published from its `j`-th on: when
   * it is sent, for `j` zero, or by a worker that has done the one before. Its
   * record is saved, as pending, exactly when the `j`-th job is tracked and has
   * no record, and every job from there to the `k`-th can be described.
   */
  lemma {:induction false} PublishedMember(
    r: Redis, expires: bool, tasks: seq<Task>, j: nat, k: nat, now: int)
    requires WellKept(r) && AllTasks(tasks) && DistinctIds(tasks) && j <= k < |tasks| && tasks[k].id !in r.hashes
    ensures var r' := Publish(r, expires, tasks[j..], now);
      (tasks[k].id in r'.hashes <==>
        !tasks[j].ignoreResult && tasks[j].id !in r.hashes && forall i :: j <= i <= k ==> tasks[i].builds) &&
      (tasks[k].id in r'.hashes ==> RecordFor(r'.hashes[tasks[k].id], tasks[k], "PENDING", now))
  {
    var rest := tasks[j..];
    LeadingPart(tasks, j, k);
    SavingAddsAll(r, expires, rest[..Leading(rest, Builds)], now);
    if tasks[k].id in Publish(r, expires, rest, now).hashes {
      PartOfRest(tasks, j, k);
      SavedRecordsAreFor(r, expires, rest[..Leading(rest, Builds)], now, tasks[k]);
    }
  }

  lemma PartOfRest(tasks: seq<Task>, j: nat, k: nat)
    requires DistinctIds(tasks) && j <= k < |tasks|
    requires tasks[k].id in Ids(tasks[j..][..Leading(tasks[j..], Builds)])
    ensures var saved := tasks[j..][..Leading(tasks[j..], Builds)]; DistinctIds(saved) && tasks[k] in saved
  {
    var saved := tasks[j..][..Leading(tasks[j..], Builds)];
    var i :| 0 <= i < |saved| && saved[i].id == tasks[k].id;
    assert saved[i] == tasks[j + i];
  }

  lemma LeadingPart(tasks: seq<Task>, j: nat, k: nat)
    requires DistinctIds(tasks) && j <= k < |tasks|
    ensures var rest := tasks[j..];
      tasks[k].id in Ids(rest[..Leading(rest, Builds)]) <==> forall i :: j <= i <= k ==> tasks[i].builds
  {
    var n := Leading(tasks[j..], Builds);
    var saved := tasks[j..][..n];
    if k - j < n {
      assert saved[k - j] == tasks[k];
      assert forall i :: j <= i <= k ==> tasks[j..][i - j] == tasks[i];
    } else {
      assert forall i :: 0 <= i < n ==> saved[i] == tasks[j + i] && saved[i].id != tasks[k].id;
      assert tasks[j..][n] == tasks[j + n];
    }
  }

  /**
   * A member of a chain that is discarded is sent with its chain all the same, and
   * its record does not stay away: when the first worker comes to publish it, if
   * not before, the record is saved again, for a job with a record was staged.
   */
  lemma {:induction false} DiscardedMemberIsSent(
    r: Redis, expires: bool, sigs: seq<Sig>, chain: Sig, k: nat, now: int)
    requires WellKept(r) && chain in sigs && chain.Chain? && AllTasks(chain.members) && DistinctIds(chain.members)
    requires k < |chain.members| && !chain.members[k].ignoreResult && chain.members[k].builds
    ensures chain in FilterSigs(sigs, chain.members[k].id)
    ensures chain.members[k].id in Publish(r, expires, chain.members[k..], now).hashes
  {
    ChainStays(sigs, chain, chain.members[k].id);
    if chain.members[k].id !in r.hashes {
      PublishedMember(r, expires, chain.members, k, k, now);
    }
  }

  // ----- The operations as runs of the interleaved machine -----

  function StageSteps(t: Tid, times: seq<int>): seq<Step> {
    seq(|times|, i requires 0 <= i < |times| => StageNext(t, times[i]))
  }

  /** The state in which `t` is in the middle of an operation. */
  function Midway(s: Sys, t: Tid, th: Thread, phase: Phase, store: Redis, log: seq<(Tid, Sig)>): Sys {
    s.(store := store, threads := s.threads[t := th.(phase := phase)], sent := s.sent + log)
  }

  lemma StageNextDoes(s: Sys, expires: bool, t: Tid, th: Thread, sig: Sig, k: nat, store: Redis, now: int)
    requires k < |sig.Tasks()| && CanStage(sig.Tasks()[k])
    ensures Next(Midway(s, t, th, Adding(sig, k), store, []), expires, StageNext(t, now)) ==
      Midway(s, t, th, Adding(sig, k + 1), StageOne(store, expires, sig.Tasks()[k], now), [])
  {
  }

  lemma StageAllEnd(r: Redis, expires: bool, tasks: seq<Task>, times: seq<int>, k: nat)
    requires k < |tasks| && |times| == k + 1
    ensures StageAll(r, expires, tasks[..k + 1], times) ==
      StageOne(StageAll(r, expires, tasks[..k], times[..k]), expires, tasks[k], times[k])
  {
    assert tasks[..k + 1][..k] == tasks[..k];
  }

  lemma StageOneMore(r: Redis, expires: bool, tasks: seq<Task>, times: seq<int>, k: nat)
    requires k < |tasks| && |times| == |tasks|
    ensures StageAll(r, expires, tasks[..k + 1], times[..k + 1]) ==
      StageOne(StageAll(r, expires, tasks[..k], times[..k]), expires, tasks[k], times[k])
  {
    assert times[..k + 1][..k] == times[..k];
    StageAllEnd(r, expires, tasks, times[..k + 1], k);
  }

  lemma StageStepsEnd(t: Tid, times: seq<int>)
    requires times != []
    ensures StageSteps(t, times) == StageSteps(t, times[..|times| - 1]) + [StageNext(t, times[|times| - 1])]
  {
  }

  lemma {:induction false} StageStepsStage(
    s: Sys, expires: bool, t: Tid, th: Thread, sig: Sig, store: Redis, times: seq<int>)
    requires |times| <= |sig.Tasks()| && forall i :: 0 <= i < |times| ==> CanStage(sig.Tasks()[i])
    ensures Run(Midway(s, t, th, Adding(sig, 0), store, []), expires, StageSteps(t, times)) ==
      Midway(s, t, th, Adding(sig, |times|), StageAll(store, expires, sig.Tasks()[..|times|], times), [])
  {
    if times == [] {
      assert StageSteps(t, times) == [];
    } else {
      var n := |times| - 1;
      StageStepsStage(s, expires, t, th, sig, store, times[..n]);
      StageStepsEnd(t, times);
      RunEnd(Midway(s, t, th, Adding(sig, 0), store, []), expires, StageSteps(t, times[..n]), StageNext(t, times[n]));
      StageNextDoes(s, expires, t, th, sig, n, StageAll(store, expires, sig.Tasks()[..n], times[..n]), times[n]);
      StageAllEnd(store, expires, sig.Tasks(), times, n);
    }
  }

  lemma {:induction false} RunAfter(s: Sys, expires: bool, first: seq<Step>, rest: seq<Step>)
    ensures Run(s, expires, first + rest) == Run(Run(s, expires, first), expires, rest)
  {
    if rest == [] {
      assert first + rest == first;
    } else {
      var n := |rest| - 1;
      RunAfter(s, expires, first, rest[..n]);
      assert first + rest == (first + rest[..n]) + [rest[n]];
      RunEnd(s, expires, first + rest[..n], rest[n]);
    }
  }

  lemma RunOne(s: Sys, expires: bool, e: Step)
    ensures Run(s, expires, [e]) == Next(s, expires, e)
  {
    RunEnd(s, expires, [], e);
    assert [] + [e] == [e];
  }

  /** The state after `add` has staged as many members of a signature as there are times. */
  lemma PartOfAdd(s: Sys, expires: bool, t: Tid, sig: Sig, times: seq<int>)
    requires ThreadOf(s, t).phase.Idle? && IsFresh(s, sig) && |times| <= Leading(sig.Tasks(), CanStage)
    ensures Run(s, expires, [BeginAdd(t, sig)] + StageSteps(t, times)) ==
      Midway(s.(used := s.used + Ids(sig.Tasks())), t, ThreadOf(s, t).(joined := true), Adding(sig, |times|),
        StageAll(s.store, expires, sig.Tasks()[..|times|], times), [])
  {
    var s1 := s.(used := s.used + Ids(sig.Tasks()));
    BeginAddDoes(s, expires, t, sig);
    RunOne(s, expires, BeginAdd(t, sig));
    StageStepsStage(s1, expires, t, ThreadOf(s, t).(joined := true), sig, s.store, times);
    RunAfter(s, expires, [BeginAdd(t, sig)], StageSteps(t, times));
  }

  /** The steps of an uninterrupted `add`, up to its first member that cannot be staged. */
  function AddSteps(t: Tid, sig: Sig, times: seq<int>): seq<Step> {
    [BeginAdd(t, sig)] + StageSteps(t, times) + [if |times| == |sig.Tasks()| then EndAdd(t) else AddFails(t)]
  }

  /**
   * An uninterrupted `add` is the run that begins it, stages each record and ends
   * it, or fails at the first that cannot be staged.
   */
  lemma AddIsARun(s: Sys, expires: bool, t: Tid, sig: Sig, times: seq<int>)
    requires ThreadOf(s, t).phase.Idle? && IsFresh(s, sig) && |times| == Leading(sig.Tasks(), CanStage)
    ensures var th, n, tasks := ThreadOf(s, t), |times|, sig.Tasks();
      Run(s, expires, AddSteps(t, sig, times)) ==
        SetThread(s, t, AfterAdd(th, sig, n))
          .(store := StageAll(s.store, expires, tasks[..n], times), used := s.used + Ids(tasks),
            orphans := s.orphans + if n == |tasks| then {} else TrackedIds(tasks[..n]))
  {
    var th := ThreadOf(s, t).(joined := true);
    var s1 := s.(used := s.used + Ids(sig.Tasks()));
    var steps := [BeginAdd(t, sig)] + StageSteps(t, times);
    var store' := StageAll(s.store, expires, sig.Tasks()[..|times|], times);
    PartOfAdd(s, expires, t, sig, times);
    if |times| == |sig.Tasks()| {
      RunEnd(s, expires, steps, EndAdd(t));
      EndAddDoes(s1, expires, t, th, sig, store');
    } else {
      RunEnd(s, expires, steps, AddFails(t));
      AddFailsDoes(s1, expires, t, th, sig, |times|, store');
    }
  }

  /** The thread after an `add` that could stage `n` members: joined, and with the jobs if these are all. */
  function AfterAdd(th: Thread, sig: Sig, n: nat): Thread {
    if n == |sig.Tasks()| then
      th.(joined := true, staged := th.staged + sig.Tasks(), signatures := th.signatures + [sig])
    else th.(joined := true)
  }

  lemma AddFailsDoes(s: Sys, expires: bool, t: Tid, th: Thread, sig: Sig, k: nat, store: Redis)
    requires th.phase.Idle? && k < |sig.Tasks()|
    ensures Next(Midway(s, t, th, Adding(sig, k), store, []), expires, AddFails(t)) ==
      SetThread(s, t, th).(store := store, orphans := s.orphans + TrackedIds(sig.Tasks()[..k]))
  {
    assert s.sent + [] == s.sent;
  }

  lemma BeginAddDoes(s: Sys, expires: bool, t: Tid, sig: Sig)
    requires ThreadOf(s, t).phase.Idle? && IsFresh(s, sig)
    ensures Next(s, expires, BeginAdd(t, sig)) ==
      Midway(s.(used := s.used + Ids(sig.Tasks())), t, ThreadOf(s, t).(joined := true), Adding(sig, 0), s.store, [])
  {
    assert s.sent + [] == s.sent;
  }

  lemma EndAddDoes(s: Sys, expires: bool, t: Tid, th: Thread, sig: Sig, store: Redis)
    requires th.phase.Idle?
    ensures Next(Midway(s, t, th, Adding(sig, |sig.Tasks()|), store, []), expires, EndAdd(t)) ==
      SetThread(s, t, th.(staged := th.staged + sig.Tasks(), signatures := th.signatures + [sig])).(store := store)
  {
    assert s.sent + [] == s.sent;
  }

  /** Members of a chain are staged one by one while they can be, and `add` may fail at each. */
  lemma StagesOrFails(s: Sys, expires: bool, t: Tid, now: int)
    requires ThreadOf(s, t).phase.Adding?
    ensures var tasks, k := ThreadOf(s, t).phase.sig.Tasks(), ThreadOf(s, t).phase.k;
      (ThreadOf(Next(s, expires, StageNext(t, now)), t).phase == Adding(ThreadOf(s, t).phase.sig, k + 1) <==>
        k < |tasks| && (tasks[k].ignoreResult || tasks[k].builds)) &&
      (ThreadOf(Next(s, expires, AddFails(t)), t).phase.Idle? <==> k < |tasks|) &&
      (ThreadOf(Next(s, expires, EndAdd(t)), t).phase.Idle? <==> k == |tasks|)
  {
  }

  // ----- What the job manager does, as steps -----

  /** Between operations `abort` and `discard` are steps of the machine. */
  lemma AbortIsAStep(s: Sys, expires: bool, t: Tid)
    requires ThreadOf(s, t).phase.Idle?
    ensures Next(s, expires, Abort(t)) ==
      SetThread(s, t, Reset(ThreadOf(s, t))).(store := Delete(s.store, Ids(ThreadOf(s, t).staged)))
  {
  }

  /** `deleteJob` is a discard of what is staged here, a deletion of what is not staged, and nothing otherwise. */
  lemma DeletionIsAStep(s: Sys, expires: bool, t: Tid, id: string)
    requires ThreadOf(s, t).phase.Idle?
    ensures var th, discarded := ThreadOf(s, t), Next(s, expires, Discard(t, id));
      discarded == if StatusOf(s.store, id) != Some("STAGED") || id !in Ids(th.staged) then s else
        SetThread(s, t, th.(staged := FilterTasks(th.staged, id), signatures := FilterSigs(th.signatures, id)))
          .(store := Delete(s.store, {id}))
    ensures Next(s, expires, DeleteJob(t, id)) ==
      if StatusOf(s.store, id) != Some("STAGED") && id in s.store.hashes then s.(store := Delete(s.store, {id})) else s
  {
    DiscardDoes(s, expires, t, id);
  }

  /** An update reaches a job that is shown, and a worker's any job that was sent, unless it would stage it. */
  lemma UpdateIsAStep(s: Sys, expires: bool, t: Tid, id: string, data: Data)
    requires !("status" in data && data["status"] == Some(Text("STAGED")))
    requires "status" in data && data["status"].Some? ==> data["status"].value.Text?
    ensures var after := s.(store := AfterUpdate(s.store, expires, id, data).0);
      var staged := Ids(ThreadOf(s, t).staged);
      var shown := id in s.store.hashes && (StatusOf(s.store, id) == Some("STAGED") ==> id in staged);
      Next(s, expires, UpdateJob(t, id, data)) == (if shown then after else s) &&
      Next(s, expires, WorkerSets(id, data)) == if id in SentIds(s) then after else s
  {
  }

  /** A worker publishes any jobs that have been sent. */
  lemma PublishingIsAStep(s: Sys, expires: bool, tasks: seq<Task>, now: int)
    requires AllTasks(tasks) && forall i :: 0 <= i < |tasks| ==> tasks[i].id in SentIds(s)
    ensures Next(s, expires, WorkerPublishes(tasks, now)) == s.(store := Publish(s.store, expires, tasks, now))
  {
  }

  // Finishing

  function CommitSteps(t: Tid, n: nat): seq<Step> {
    seq(n, i => CommitNext(t))
  }

  function SendSteps(t: Tid, times: seq<int>): seq<Step> {
    seq(|times|, i requires 0 <= i < |times| => SendNext(t, times[i]))
  }

  /** What `t` sends, as entries of the log. */
  function Logged(t: Tid, sigs: seq<Sig>): seq<(Tid, Sig)> {
    seq(|sigs|, i requires 0 <= i < |sigs| => (t, sigs[i]))
  }

  lemma CommitNextDoes(s: Sys, expires: bool, t: Tid, th: Thread, k: nat, store: Redis)
    requires k < |th.staged|
    ensures Next(Midway(s, t, th, Committing(k), store, []), expires, CommitNext(t)) ==
      Midway(s, t, th, Committing(k + 1), CommitOne(store, expires, th.staged[k]), [])
  {
  }

  lemma SendNextDoes(s: Sys, expires: bool, t: Tid, th: Thread, k: nat, store: Redis, log: seq<(Tid, Sig)>, now: int)
    requires k < |th.signatures|
    ensures Next(Midway(s, t, th, Sending(k), store, log), expires, SendNext(t, now)) ==
      Midway(s, t, th, Sending(k + 1), Publish(store, expires, th.signatures[k].Tasks(), now),
        log + [(t, th.signatures[k])])
  {
    assert s.sent + (log + [(t, th.signatures[k])]) == (s.sent + log) + [(t, th.signatures[k])];
  }

  lemma CommitAllEnd(r: Redis, expires: bool, tasks: seq<Task>, k: nat)
    requires k < |tasks|
    ensures CommitAll(r, expires, tasks[..k + 1]) == CommitOne(CommitAll(r, expires, tasks[..k]), expires, tasks[k])
  {
    assert tasks[..k + 1][..k] == tasks[..k];
  }

  lemma PublishAllEnd(r: Redis, expires: bool, sigs: seq<Sig>, times: seq<int>, k: nat)
    requires k < |sigs| && |times| == k + 1
    ensures PublishAll(r, expires, sigs[..k + 1], times) ==
      Publish(PublishAll(r, expires, sigs[..k], times[..k]), expires, sigs[k].Tasks(), times[k])
  {
    assert sigs[..k + 1][..k] == sigs[..k];
  }

  lemma CommitStepsEnd(t: Tid, n: nat)
    ensures CommitSteps(t, n + 1) == CommitSteps(t, n) + [CommitNext(t)]
  {
  }

  lemma SentOneMore(before: seq<Sig>, sigs: seq<Sig>, k: nat)
    requires k < |sigs|
    ensures before + sigs[..k + 1] == (before + sigs[..k]) + [sigs[k]]
  {
    SplitAt(sigs, k);
    Assoc(before, sigs[..k], [sigs[k]]);
  }

  lemma PublishOneMore(r: Redis, expires: bool, sigs: seq<Sig>, times: seq<int>, k: nat)
    requires k < |sigs| && |times| == |sigs|
    ensures PublishAll(r, expires, sigs[..k + 1], times[..k + 1]) ==
      Publish(PublishAll(r, expires, sigs[..k], times[..k]), expires, sigs[k].Tasks(), times[k])
  {
    assert times[..k + 1][..k] == times[..k];
    PublishAllEnd(r, expires, sigs, times[..k + 1], k);
  }

  lemma {:induction false} CommitStepsCommit(s: Sys, expires: bool, t: Tid, th: Thread, store: Redis, n: nat)
    requires n <= |th.staged|
    ensures Run(Midway(s, t, th, Committing(0), store, []), expires, CommitSteps(t, n)) ==
      Midway(s, t, th, Committing(n), CommitAll(store, expires, th.staged[..n]), [])
  {
    if n == 0 {
      assert CommitSteps(t, n) == [];
    } else {
      CommitStepsCommit(s, expires, t, th, store, n - 1);
      CommitStepsEnd(t, n - 1);
      RunEnd(Midway(s, t, th, Committing(0), store, []), expires, CommitSteps(t, n - 1), CommitNext(t));
      CommitNextDoes(s, expires, t, th, n - 1, CommitAll(store, expires, th.staged[..n - 1]));
      CommitAllEnd(store, expires, th.staged, n - 1);
    }
  }

  lemma SendStepsEnd(t: Tid, times: seq<int>)
    requires times != []
    ensures SendSteps(t, times) == SendSteps(t, times[..|times| - 1]) + [SendNext(t, times[|times| - 1])]
  {
  }

  lemma LoggedEnd(t: Tid, sigs: seq<Sig>, n: nat)
    requires n < |sigs|
    ensures Logged(t, sigs[..n + 1]) == Logged(t, sigs[..n]) + [(t, sigs[n])]
  {
  }

  lemma {:induction false} SendStepsSend(s: Sys, expires: bool, t: Tid, th: Thread, store: Redis, times: seq<int>)
    requires |times| <= |th.signatures|
    ensures var sigs := th.signatures[..|times|];
      Run(Midway(s, t, th, Sending(0), store, []), expires, SendSteps(t, times)) ==
        Midway(s, t, th, Sending(|times|), PublishAll(store, expires, sigs, times), Logged(t, sigs))
  {
    var sigs := th.signatures;
    if times == [] {
      assert SendSteps(t, times) == [] && Logged(t, sigs[..0]) == [];
    } else {
      var n := |times| - 1;
      SendStepsSend(s, expires, t, th, store, times[..n]);
      SendStepsEnd(t, times);
      RunEnd(Midway(s, t, th, Sending(0), store, []), expires, SendSteps(t, times[..n]), SendNext(t, times[n]));
      SendNextDoes(s, expires, t, th, n, PublishAll(store, expires, sigs[..n], times[..n]), Logged(t, sigs[..n]),
        times[n]);
      PublishAllEnd(store, expires, sigs, times, n);
      LoggedEnd(t, sigs, n);
    }
  }

  function FinishSteps(t: Tid, n: nat, times: seq<int>): seq<Step> {
    [BeginFinish(t)] + CommitSteps(t, n) + [StartSending(t)] + SendSteps(t, times) + [EndFinish(t)]
  }

  /** An uninterrupted `tpc_finish` is the run that commits each record, then sends each signature. */
  lemma FinishIsARun(s: Sys, expires: bool, t: Tid, times: seq<int>)
    requires ThreadOf(s, t).phase.Idle? && ThreadOf(s, t).joined && |times| == |ThreadOf(s, t).signatures|
    ensures var th := ThreadOf(s, t);
      Run(s, expires, FinishSteps(t, |th.staged|, times)) ==
        SetThread(s, t, Reset(th).(history := th.history + th.signatures))
          .(store := PublishAll(CommitAll(s.store, expires, th.staged), expires, th.signatures, times),
            sent := s.sent + Logged(t, th.signatures))
  {
    var th := ThreadOf(s, t);
    var n := |th.staged|;
    var begun, committed := [BeginFinish(t)], CommitAll(s.store, expires, th.staged);
    BeginFinishDoes(s, expires, t);
    RunOne(s, expires, BeginFinish(t));
    CommitStepsCommit(s, expires, t, th, s.store, n);
    assert th.staged[..n] == th.staged;
    RunAfter(s, expires, begun, CommitSteps(t, n));
    RunEnd(s, expires, begun + CommitSteps(t, n), StartSending(t));
    StartSendingDoes(s, expires, t, th, committed);
    SendStepsSend(s, expires, t, th, committed, times);
    assert th.signatures[..|times|] == th.signatures;
    RunAfter(s, expires, begun + CommitSteps(t, n) + [StartSending(t)], SendSteps(t, times));
    RunEnd(s, expires, begun + CommitSteps(t, n) + [StartSending(t)] + SendSteps(t, times), EndFinish(t));
    EndFinishDoes(s, expires, t, th, PublishAll(committed, expires, th.signatures, times), Logged(t, th.signatures));
  }

  lemma BeginFinishDoes(s: Sys, expires: bool, t: Tid)
    requires ThreadOf(s, t).phase.Idle? && ThreadOf(s, t).joined
    ensures Next(s, expires, BeginFinish(t)) == Midway(s, t, ThreadOf(s, t), Committing(0), s.store, [])
  {
    assert s.sent + [] == s.sent;
  }

  lemma StartSendingDoes(s: Sys, expires: bool, t: Tid, th: Thread, store: Redis)
    ensures Next(Midway(s, t, th, Committing(|th.staged|), store, []), expires, StartSending(t)) ==
      Midway(s, t, th, Sending(0), store, [])
  {
  }

  lemma EndFinishDoes(s: Sys, expires: bool, t: Tid, th: Thread, store: Redis, log: seq<(Tid, Sig)>)
    ensures Next(Midway(s, t, th, Sending(|th.signatures|), store, log), expires, EndFinish(t)) ==
      SetThread(s, t, Reset(th).(history := th.history + th.signatures)).(store := store, sent := s.sent + log)
  {
  }

  // ----- The dispatcher -----

  /** What a dispatcher holds consists of proper tasks, and it has staged only those it is to send. */
  predicate InOrder(signatures: seq<Sig>, staged: seq<Task>) {
    (forall i :: 0 <= i < |signatures| ==> AllTasks(signatures[i].Tasks())) &&
    forall x :: x in staged ==> x in Flat(signatures)
  }

  lemma AddedInOrder(signatures: seq<Sig>, staged: seq<Task>, sig: Sig)
    requires InOrder(signatures, staged) && AllTasks(sig.Tasks())
    ensures InOrder(signatures + [sig], staged + sig.Tasks())
  {
    FlatEnd(signatures, sig);
  }

  class JobDispatcher {
    const store: JobStore
    var joined: bool
    var signatures: seq<Sig>
    var staged: seq<Task>
    var sent: seq<Sig>   // what went to the message queue

    ghost predicate Valid()
      reads this, store
    {
      store.Valid() && InOrder(signatures, staged)
    }

    ghost function View(): Thread
      reads this
    {
      Thread(joined, signatures, staged, Idle, sent)
    }

    constructor (store: JobStore)
      requires store.Valid()
      ensures Valid() && View() == NEW_THREAD && this.store == store
    {
      this.store := store;
      joined, signatures, staged, sent := false, [], [], [];
    }

    method SaveJobRecord(task: Task, status: string, now: int) returns (saved: bool)
      requires store.Valid() && IsTask(task)
      modifies store
      ensures store.Valid() && store.Server() == SaveRecord(old(store.Server()), store.expires, task, status, now)
      ensures saved <==> task.id !in old(store.hashes)
    {
      saved := task.id !in store.hashes;
      if saved {
        var error := store.SetItem(task.id, NewRecord(task, status, now));
      }
    }

    /** Tells whether the record could be staged, or none was needed. */
    method StageJobRecord(task: Task, now: int) returns (ok: bool)
      requires store.Valid() && IsTask(task)
      modifies store
      ensures store.Valid() && (ok <==> CanStage(task))
      ensures store.Server() ==
        if ok then StageOne(old(store.Server()), store.expires, task, now) else old(store.Server())
    {
      if task.ignoreResult { return true; }
      if !task.builds { return false; }
      var saved := SaveJobRecord(task, STAGED, now);
      return true;
    }

    method CommitJobRecord(task: Task)
      requires store.Valid()
      modifies store
      ensures store.Valid() && store.Server() == CommitOne(old(store.Server()), store.expires, task)
    {
      if task.ignoreResult || task.id !in store.hashes { return; }
      if StatusIn(store.hashes[task.id]) != Some(STAGED) { return; }
      var error := store.Update(task.id, StatusChange(PENDING));
    }

    /** Fails at the first member that cannot be staged; those before it have been staged then. */
    method Add(sig: Sig, times: seq<int>) returns (ok: bool)
      requires Valid() && AllTasks(sig.Tasks()) && |times| == |sig.Tasks()|
      modifies this, store
      ensures var n := Leading(sig.Tasks(), CanStage);
        (ok <==> forall i :: 0 <= i < |sig.Tasks()| ==> sig.Tasks()[i].ignoreResult || sig.Tasks()[i].builds) &&
        (ok <==> n == |sig.Tasks()|) && View() == AfterAdd(old(View()), sig, n) &&
        store.Server() == StageAll(old(store.Server()), store.expires, sig.Tasks()[..n], times[..n])
      ensures Valid()
    {
      if !joined { joined := true; }
      ok := StageJobRecords(sig.Tasks(), times);
      if !ok { return; }
      AddedInOrder(signatures, staged, sig);
      staged := staged + sig.Tasks();
      signatures := signatures + [sig];
    }

    method StageJobRecords(tasks: seq<Task>, times: seq<int>) returns (ok: bool)
      requires store.Valid() && AllTasks(tasks) && |times| == |tasks|
      modifies store
      ensures var n := Leading(tasks, CanStage);
        store.Server() == StageAll(old(store.Server()), store.expires, tasks[..n], times[..n]) &&
        (ok <==> n == |tasks|)
      ensures store.Valid()
    {
      for i := 0 to |tasks|
        invariant store.Valid() && i <= Leading(tasks, CanStage)
        invariant store.Server() == StageAll(old(store.Server()), store.expires, tasks[..i], times[..i])
      {
        StageOneMore(old(store.Server()), store.expires, tasks, times, i);
        ok := StageJobRecord(tasks[i], times[i]);
        if !ok { return; }
      }
      return true;
    }

    method ClearTransaction()
      modifies this`joined, this`signatures, this`staged
      ensures View() == Reset(old(View()))
    {
      joined, signatures, staged := false, [], [];
    }

    /** Discards a staged job; a chain that it is part of keeps its signature. */
    method Discard(id: string)
      requires Valid()
      modifies this, store
      ensures Valid() && store.Server() == Delete(old(store.Server()), {id})
      ensures View() ==
        old(View()).(staged := FilterTasks(old(staged), id), signatures := FilterSigs(old(signatures), id))
      ensures forall sig :: sig in signatures <==> sig in old(signatures) && !(sig.Single? && sig.task.id == id)
      ensures forall task :: task in staged <==> task in old(staged) && task.id != id
    {
      SinglesFiltered(signatures, id);
      FilteredTasks(staged, id);
      FilteredFlat(signatures, id);
      var kept := TasksExcept(id);
      store.DeleteAll({id});
      var sigs := SignaturesExcept(id);
      staged, signatures := kept, sigs;
    }

    method TasksExcept(id: string) returns (kept: seq<Task>)
      ensures kept == FilterTasks(staged, id)
    {
      kept := [];
      for i := 0 to |staged|
        invariant kept == FilterTasks(staged[..i], id)
      {
        assert staged[..i + 1][..i] == staged[..i];
        if staged[i].id != id { kept := kept + [staged[i]]; }
      }
      assert staged[..|staged|] == staged;
    }

    method SignaturesExcept(id: string) returns (kept: seq<Sig>)
      ensures kept == FilterSigs(signatures, id)
      ensures forall j :: 0 <= j < |kept| ==> kept[j] in signatures
    {
      kept := [];
      for i := 0 to |signatures|
        invariant kept == FilterSigs(signatures[..i], id) && forall j :: 0 <= j < |kept| ==> kept[j] in signatures
      {
        assert signatures[..i + 1][..i] == signatures[..i];
        if KeepsSig(signatures[i], id) { kept := kept + [signatures[i]]; }
      }
      assert signatures[..|signatures|] == signatures;
    }

    method Abort()
      requires Valid()
      modifies this, store
      ensures Valid() && store.Server() == Delete(old(store.Server()), Ids(old(staged)))
      ensures View() == Reset(old(View()))
    {
      store.DeleteAll(Ids(staged));
      ClearTransaction();
    }

    /** Sending one signature; the handler of the queue's publish signal saves records that are missing. */
    method ApplyAsync(sig: Sig, now: int)
      requires store.Valid() && AllTasks(sig.Tasks())
      modifies store, this`sent
      ensures store.Valid() && store.Server() == Publish(old(store.Server()), store.expires, sig.Tasks(), now)
      ensures sent == old(sent) + [sig]
    {
      var tasks := sig.Tasks();
      sent := sent + [sig];
      if tasks == [] || tasks[0].ignoreResult { return; }
      if tasks[0].id in store.hashes { return; }
      SaveJobRecords(tasks, now);
    }

    method SaveJobRecords(tasks: seq<Task>, now: int)
      requires store.Valid() && AllTasks(tasks)
      modifies store
      ensures store.Valid()
      ensures store.Server() ==
        SaveAll(old(store.Server()), store.expires, tasks[..Leading(tasks, Builds)], now)
    {
      for i := 0 to |tasks|
        invariant store.Valid() && i <= Leading(tasks, Builds)
        invariant store.Server() == SaveAll(old(store.Server()), store.expires, tasks[..i], now)
      {
        assert tasks[..i + 1][..i] == tasks[..i];
        if !tasks[i].builds { return; }
        var saved := SaveJobRecord(tasks[i], PENDING, now);
      }
    }

    method TpcFinish(times: seq<int>)
      requires Valid() && |times| == |signatures|
      modifies this, store
      ensures Valid() && View() == Reset(old(View())).(history := old(sent) + old(signatures))
      ensures store.Server() ==
        PublishAll(CommitAll(old(store.Server()), store.expires, old(staged)), store.expires, old(signatures), times)
    {
      CommitStaged();
      SendSignatures(times);
      ClearTransaction();
    }

    method CommitStaged()
      requires store.Valid()
      modifies store
      ensures store.Valid() && store.Server() == CommitAll(old(store.Server()), store.expires, staged)
    {
      for i := 0 to |staged|
        invariant store.Valid()
        invariant store.Server() == CommitAll(old(store.Server()), store.expires, staged[..i])
      {
        CommitAllEnd(old(store.Server()), store.expires, staged, i);
        CommitJobRecord(staged[i]);
      }
      assert staged[..|staged|] == staged;
    }

    method SendSignatures(times: seq<int>)
      requires store.Valid() && |times| == |signatures|
      requires forall i :: 0 <= i < |signatures| ==> AllTasks(signatures[i].Tasks())
      modifies store, this`sent
      ensures store.Valid() && sent == old(sent) + signatures
      ensures store.Server() == PublishAll(old(store.Server()), store.expires, signatures, times)
    {
      for i := 0 to |signatures|
        invariant store.Valid() && sent == old(sent) + signatures[..i]
        invariant store.Server() == PublishAll(old(store.Server()), store.expires, signatures[..i], times[..i])
      {
        PublishOneMore(old(store.Server()), store.expires, signatures, times, i);
        SentOneMore(old(sent), signatures, i);
        ApplyAsync(signatures[i], times[i]);
      }
      assert signatures[..|signatures|] == signatures && times[..|times|] == times;
    }
  }
}
