# Collector and job models

Models of six parts of the monitoring platform, with proofs of what each of
them is for. Every part is a small state machine or transformation; the code
around it that talks to the network, the database or the user is cut away.

- **Where clauses** (`Quoting`, `LikePatterns`, `WhereGrammar`, `PythonRule`,
  `PythonLiterals`, `WhereCompiler`, `WhereMeaning`, `WhereForms`, `FormTrips`,
  `FormMeanings`, `WhereWriting`). Event filters used to be written as where clauses
  in which `or` binds tighter than `and`. They are compiled to Python rules, in which
  `and` binds tighter, and they are printed from and read back into web forms. The
  compiler is shown to keep the meaning, the forms to survive the round trip and to
  select the rows they say.
- **Trap filters** (`TrapTables`, `Oids`, `TrapFilter`, `TrapLines`). SNMP trap filters
  are read line by line into tables indexed by OID depth, and looked up exactly and
  then glob by glob. The lookups are shown to agree with "the most specific filter
  wins", from the text of the lines to the verdict.
  The generic trap numbers are those of section 4.1.6 of RFC 1157.
- **Jobs** (`TimeText`, `JobStorage`, `JobTasks`, `JobRecords`, `JobDispatch`,
  `JobDeletions`, `JobOrphans`, `JobAborts`, `JobDiscards`, `JobDispatchers`,
  `JobManagers`, `JobNames`). Threads stage jobs in a shared store and send them when their
  transactions finish. The dispatchers of all threads, the workers and the
  store's expiry are steps that interleave freely, and adding and finishing may
  fail at any job.
- **Collector scheduler and daemon** (`TaskTables`, `TaskStart`, `Schedulers`,
  `StartRuns`, `ConfigUpdates`, `CollectorDaemons`, `CallableTasks`,
  `Statistics`, `Backoff`). Tasks are
  added, removed with the configs they name as children, paused, postponed and
  timed, while configurations come and go.
- **Collection slots** (`Modelers`, `SshClients`). The modeler asks for devices
  one by one and runs their clients side by side; an SSH client runs its
  commands in a bounded number of sessions.
- **Expiring cache** (`ExpiringCaches`). Entries are deleted lazily.

`Wrappers`, `Text` and `Sequences` hold what several of them use.

An operation that the program carries out by changing objects is a method of a
class here; its contract equates the new state with a function of the old one,
and the properties are proved about that function, over all runs where the
state machine is the point. Random draws and the order in which a dictionary
lists its keys are nondeterministic choices. Clocks, replies and results of
calls are parameters. The `times` arguments of `Add` and `TpcFinish` are the
times the clock shows at each record.

## Where the code departs from what one would expect

- The unquoted text of a non-empty string made only of single quotes is not the
  string, because the quotes that surround it take part in the halving
  (`Quoting.UnquoteQuote`).
- `like` values without a `%` at either end compile to no test at all, inner
  wildcards are taken literally, and `not like` always cuts off the first and
  last character; the exact conditions are `LikeExact` and `NotLikeExact`.
- `<>`, `==` and the orders compile to no test at all on text and event class
  columns (`ComparisonExact`).
- The escaping of double quotes in the texts of a rule does nothing, so a text with
  one, or with a backslash that Python reads as an escape, does not come out as it
  is (`PrintedTextReadsBack`).
- The pattern of a device group is stripped of `%` and `|` at both ends, so a group
  whose path begins or ends with one is not the group that the rule tests
  (`GroupRuleExact`).
- Priorities are renumbered without turning comparisons around
  (`PriorityExact`).
- A group whose columns are all unknown compiles to `()`, which Python reads as
  false.
- Generic version 1 trap filters are stored under text and looked up under
  numbers, so they never match (`GenericTrapsAreDropped`); version 1 filters of
  a plain OID are never consulted (`V1PlainFiltersAreIdle`); an OID that ends in
  a dot skips its globs (`TrailingDotSkipsGlobs`).
- A time of zero is stored as a lone dot, which does not read as a number
  (`DecodeEncode`, `SetThenGet`).
- `__setitem__` of the job store documents a ValueError for unknown fields and
  raises AttributeError; the model raises AttributeError.
- A tick on a paused task overwrites the state of a queued or running one, so
  that the task can be submitted twice after a resume
  (`PausingCanSubmitTwice`).
- A configuration update keeps the time at which each task is due, but the task
  it replaces awaits cleanup from then on, and a start is put off while it does;
  so the new task runs on schedule only if the cleanup has come first
  (`StartsOnScheduleIff`, `DueTaskIsPutOff`, `UpdateDelaysDueTask`).
- An `add` that fails halfway through a chain leaves the records it has staged, and
  neither an abort nor anything else ever deletes them: an abort leaves no trace
  only if no `add` failed after staging a tracked job (`AbortLeavesNoTrace`,
  `OrphansStayStaged`, `FailedAddLeavesRecord`).
- A `tpc_finish` that fails while it sends has sent some of its jobs, whose records
  the abort that follows deletes all the same (`FailedFinishKeepsWhatIsSent`).
- A member of a chain that is discarded is sent with its chain all the same, and
  gets its record back when a worker publishes it, if not before
  (`DiscardedMemberIsSent`, `PublishedMember`).
- A number submitted to a comparison of numbers comes back as a number and not
  as text (`CompareReadsNumbers`).
- The cleanup set holds any number of tasks of one config, so a start can be put
  off more often than five times (`PutOffBoundedly`).
- An interval of one second need not grow (`OneSecondMayNeverGrow`).
- `parallel` bounds the clients only before a device is requested; its five
  clients may exceed it by four (`OneSlotFiveClients`).

## Model

| member | source | states |
|---|---|---|
| Quoting.UnquoteQuote | Products/ZenEvents/WhereClause.py:360-364 | unquoting a quoted string gives it back exactly when it is empty or has a character other than a single quote; a string of quotes only comes back one quote shorter |
| WhereCompiler.CollapseOnto | Products/ZenEvents/WhereClause.py:448-460 | the recursion that appends to a stack leaves the stack followed by the collapsed trees of the term |
| WhereCompiler.CollapsedShape | Products/ZenEvents/WhereClause.py:443-464 | collapsing keeps all comparisons in order, and no group holds a group of its own operator or fewer than two members |
| WhereCompiler.CollapseKeepsCondition | Products/ZenEvents/WhereClause.py:443-464 | the whole tree collapses to a single one with the same comparisons in order, true whenever the original is |
| WhereCompiler.RuleReadsBack | Products/ZenEvents/WhereClause.py:472-513 | the printed rule, without its outer parentheses, is read with Python's precedence as the collapsed tree without unknown columns; a rule of nothing but unknown columns is empty or raises IndexError |
| WhereCompiler.RuleMeansCondition | Products/ZenEvents/WhereClause.py:472-513 | over known columns the rule parses and is true in exactly the environments in which the condition is true with each comparison read as its statement |
| WhereCompiler.RuleMeansKept | Products/ZenEvents/WhereClause.py:477-504 | with unknown columns the rule means the condition without them, a group left with nothing being false |
| WhereCompiler.EmitOnto | Products/ZenEvents/WhereClause.py:477-504 | the recursion that appends text to a result list appends exactly the printed pieces, or raises the error of the first comparison that fails |
| WhereCompiler.CompileRule | Products/ZenEvents/WhereClause.py:472-513 | collapsing, printing and stripping the outer parentheses give the rule, or the error of the comparison that cannot be converted |
| WhereMeaning.LikeExact | Products/ZenEvents/WhereClause.py:157-164 | a `like` test becomes the right string test for all strings exactly when the value starts or ends with `%` and has no other wildcard |
| WhereMeaning.NotLikeExact | Products/ZenEvents/WhereClause.py:165-166 | a `not like` test is converted faithfully exactly for `%x%` with a wildcard-free x; any other value has a string on which the rule is wrong |
| WhereMeaning.PriorityExact | Products/ZenEvents/WhereClause.py:500-501 | renumbering priorities keeps a comparison for every priority exactly when it tests for equality |
| WhereMeaning.ComparisonExact | Products/ZenEvents/WhereClause.py:157-354 | for every field class, a comparison of a column with a value of its kind, for device groups the pattern of a group, becomes a Python expression that agrees with it on every value of the column if and only if it is convertible: `=` and `!=`, some `like`s and nothing else that can be true on text columns, groups whose path neither begins nor ends with `%` or `|`, equality on priorities and event ids, any comparison of other numbers and codes |
| WhereMeaning.EventAttributes | Products/ZenEvents/WhereClause.py:30-54 | the columns that tell about an event become its attributes of the new names |
| WhereMeaning.SourceAttributes | Products/ZenEvents/WhereClause.py:30-54 | device, component, agent and manager become the names of the elements and of the monitor |
| WhereMeaning.LogAttributes | Products/ZenEvents/WhereClause.py:30-54 | the syslog columns, the event id of Windows and the owner become the attributes of the new names |
| WhereMeaning.DeviceAttributes | Products/ZenEvents/WhereClause.py:30-54 | the columns of the device's state become attributes of the device |
| WhereMeaning.GroupAttributes | Products/ZenEvents/WhereClause.py:30-54 | systems and groups become attributes of the device |
| WhereMeaning.PlaceAttributes | Products/ZenEvents/WhereClause.py:30-54 | location and class become attributes of the device |
| PythonLiterals.PrintedTextReadsBack | Products/ZenEvents/WhereClause.py:61-68 | a text printed in a rule is read by Python as that text if and only if it has no double quote and no line end, and no backslash but before a character that a backslash does not change |
| WhereMeaning.RuleTrueOnSameEvents | Products/ZenEvents/WhereClause.py:472-513 | the rule of a condition whose comparisons are all convertible is true on an event exactly when the condition is true on the row the event comes from |
| WhereWriting.WrittenParses | Products/ZenEvents/WhereClause.py:378-399 | a condition written with no more parentheses than the grammar needs, `or` binding tighter than `and`, parses as that condition |
| WhereWriting.ClauseToRule | Products/ZenEvents/WhereClause.py:472-513 | from clause to rule: parsing, collapsing and printing a written condition of convertible comparisons gives a rule that is true on exactly the events whose rows satisfy the condition |
| WhereForms.FromFormVariables | Products/ZenEvents/WhereClause.py:516-527 | the loop over the columns gives the conjunction of the parenthesised clauses of the form's columns, or a type error where a mode prints nothing |
| WhereForms.ReadOnto | Products/ZenEvents/WhereClause.py:423-436 | the recursion that appends triples to a result list appends the triples of the tree's comparisons, in order |
| WhereForms.LabelsAre | Products/ZenEvents/WhereClause.py:205-217 | an ordered comparison of a selection reads as the labels of exactly the codes for which it holds, in order |
| WhereForms.WordChars | Products/ZenEvents/WhereClause.py:373 | names are the non-empty texts of letters, digits and underscores |
| FormTrips.FieldReadsBack | Products/ZenEvents/WhereClause.py:142-184 | for every field class, a printed comparison is read back as its mode and value exactly when the value survives: text not blurred by `%`, labels whose code is read as a code with that label, names given to comparisons of numbers, and text not of quotes only where no pattern character is added |
| FormTrips.LabelsShown | Products/ZenEvents/WhereClause.py:191-232 | with distinct codes every label of the options is shown again if its code is a number that is not negative, quoted text not of quotes only, or a bare name |
| FormTrips.UnknownNotShown | Products/ZenEvents/WhereClause.py:191-232 | a label that is not among the options is never shown again: it is printed as -1, which the grammar does not read |
| FormTrips.CompareReadsNumbers | Products/ZenEvents/WhereClause.py:265-279 | a number submitted to a comparison of numbers comes back as the number, never as the submitted text |
| FormTrips.FormRoundTrip | Products/ZenEvents/WhereClause.py:417-441 | the clause printed for a form whose values survive parses, and reading it gives exactly the form's name, mode and value triples |
| FormMeanings.FormParsesIff | Products/ZenEvents/WhereClause.py:124-139 | the clause printed for a form is printed and parses if and only if every value of its filled fields is printed as a comparison |
| FormMeanings.FormMeans | Products/ZenEvents/WhereClause.py:124-139 | the parsed clause of any form that parses holds exactly when for each filled field all of its values' comparisons hold, with a mode that excludes, or one of them holds, with any other; it is empty exactly when no field is filled |
| FormMeanings.FormSelects | Products/ZenEvents/WhereClause.py:516-527 | a row satisfies the clause printed for a form exactly when every filled field selects it: columns that contain, begin with, end with, equal, compare with or are in the group of one of the submitted values, or, excluded, of none of them |
| FormMeanings.GroupRuleExact | Products/ZenEvents/WhereClause.py:289-297 | the clause printed for a device group compiles to a test for that group, or against it, if and only if the group's path neither begins nor ends with `%` or `|` |
| Oids.ValidOids | Products/ZenEvents/TrapFilter.py:351-375 | of the OIDs stripped of dots at their ends the validation accepts `*` and exactly those of at least two components that are numbers, the last of which may be a star |
| TrapTables.OverrideIsHigherRank | Products/ZenEvents/TrapFilter.py:205-229 | a definition overrides another exactly when its collector expression has the higher rank: `.*`, then other expressions, then plain names |
| TrapTables.LiteralNames | Products/ZenEvents/TrapFilter.py:205-229 | the expressions taken for plain names are the non-empty ones of letters, digits, underscores and hyphens |
| TrapTables.FoldKeepsBest | Products/ZenEvents/TrapFilter.py:231-349 | after any sequence of definitions each slot holds the earliest of highest rank among them and what it held before |
| TrapTables.ReadingKeepsWellFormed | Products/ZenEvents/TrapFilter.py:292-305 | reading keeps every key at the level of its number of components and every generic trap under the text of its number |
| TrapTables.ReadKeepsBest | Products/ZenEvents/TrapFilter.py:377-411 | after reading any text into empty tables each slot holds the earliest of its definitions of highest rank that match this collector, and reading the text again changes no table |
| TrapLines.WordsAreSplit | Products/ZenEvents/TrapFilter.py:161 | words are what stands between white space |
| TrapLines.LineDefines | Products/ZenEvents/TrapFilter.py:149-349 | a line written from its parts is a definition if and only if the parts are valid, and then defines exactly the place, the action and the collector expression that are written |
| TrapLines.NothingSaid | Products/ZenEvents/TrapFilter.py:377-386 | comments and blank lines define nothing and are no errors |
| TrapFilter.LookupIsFlat | Products/ZenEvents/TrapFilter.py:535-541 | the lookup by level and key finds exactly what the flat set of stored filters holds |
| TrapFilter.FindClosestGlobbedFilter | Products/ZenEvents/TrapFilter.py:525-533 | the loop up the globs ends and returns the filter of the closest stored glob |
| TrapFilter.WalkFindsLongest | Products/ZenEvents/TrapFilter.py:525-533 | from any prefix of an OID that does not end in a dot or a glob the walk finds the filter of the longest stored glob of it, or none if none is stored |
| TrapFilter.TrailingDotSkipsGlobs | Products/ZenEvents/TrapFilter.py:41-57 | an OID that ends with a dot is compared with the glob `*` only, whatever longer globs match it |
| TrapFilter.V2MostSpecificWins | Products/ZenEvents/TrapFilter.py:507-523 | a version 2 trap gets the verdict of its exact filter, else of the longest stored glob of its OID, else it is dropped |
| TrapFilter.V1MostSpecificWins | Products/ZenEvents/TrapFilter.py:480-505 | an enterprise trap of version 1 gets the verdict of the filter of its specific trap, else of any trap of the enterprise, else of the longest stored glob, else it is dropped |
| TrapLines.V2LineDecides | Products/ZenEvents/TrapFilter.py:448-523 | after any text is read, a version 2 trap is dropped or kept as the most specific line for it says, the first of the most exact ones for this collector, and dropped if no line matches |
| TrapLines.V1LineDecides | Products/ZenEvents/TrapFilter.py:448-505 | the same for enterprise traps of version 1 |
| TrapFilter.V1PlainFiltersAreIdle | Products/ZenEvents/TrapFilter.py:292-305 | a version 1 filter for a plain OID without a specific trap never decides: tables that differ only in such filters drop the same traps |
| TrapFilter.GenericTrapsAreDropped | Products/ZenEvents/TrapFilter.py:468-478 | whatever filters were read, their verdict on a version 1 trap that is not enterprise-specific is to drop it, which happens as soon as one filter is defined |
| TrapFilter.GenericTrapVerdict | Products/ZenEvents/TrapFilter.py:448-478 | a generic trap is decided by a filter stored under its number and dropped without one, and traps of other kinds and versions are dropped |
| TrapFilter.Filter.StoreDefinition | Products/ZenEvents/TrapFilter.py:292-305 | a definition is stored unless an earlier one for its slot prevails, which is reported as a conflict |
| TrapFilter.Filter.ReadFilters | Products/ZenEvents/TrapFilter.py:377-411 | the loop over the lines leaves the tables that folding all outcomes gives, and the flag that tells whether any table has entries |
| TrapFilter.Filter.Transform | Products/ZenEvents/TrapFilter.py:422-446 | an event is dropped exactly when it is a trap, filters are defined and the filters drop it; the counters follow |
| TimeText.DecodeEncode | Products/Jobber/storage.py:47-48 | the zero-stripped text of a whole number of microseconds reads back as it exactly when it is not zero, which is written as a single dot |
| TimeText.WholeDecodes | Products/Jobber/storage.py:47-48 | digits without a dot are a number of seconds |
| JobStorage.LoadsDumps | Products/Jobber/storage.py:64-79 | every typed value except the time zero reads back from its text |
| JobStorage.FieldsHaveTypes | Products/Jobber/storage.py:64-79 | three fields of a record are times, the details are JSON and the seven others are texts |
| JobStorage.SetThenGet | Products/Jobber/storage.py:327-361 | writing a record and reading it back gives exactly its valued fields unless one is the time zero, and leaves other records alone |
| JobStorage.UpdateMerges | Products/Jobber/storage.py:223-255 | an update replaces the valued fields, removes the others and keeps the rest, an emptied record being gone, if and only if no value is the time zero, with which the record no longer reads; other records are left alone |
| JobStorage.ExpiryFollowsReadiness | Products/Jobber/storage.py:408-411 | on every run of writes, updates, deletions and expiries, with expiry configured every ready record has an expiry time, and a key has one only if its status was ready after some step and its record has been in the store ever since |
| JobStorage.EndedJobsExpire | Products/Jobber/storage.py:408-411 | a write marks a record to expire exactly if expiry is configured and its status is SUCCESS, FAILURE, REVOKED or ABORTED |
| JobStorage.TimeTakesExpiring | Products/Jobber/storage.py:408-411 | time takes a record exactly when it has an expiry time, and leaves the others |
| JobStorage.JobStore.SetItem | Products/Jobber/storage.py:342-361 | stores the record field by field in the server's commands, or raises for unknown fields or no values |
| JobStorage.JobStore.Update | Products/Jobber/storage.py:223-255 | deletes and sets fields by the server's commands, or raises for unknown fields or a missing record |
| JobStorage.JobStore.DeleteAll | Products/Jobber/storage.py:363-372 | removes exactly the given records and their expiry times |
| JobRecords.CommittedRecord | Products/Jobber/model.py:409-430 | committing turns the staged record of a tracked job to pending, keeps every other field and record, and does nothing to a record that is not staged |
| JobDispatch.RunKeepsInv | Products/Jobber/manager.py:399-471 | on every interleaving of threads, workers and expiry, with `add`s and `tpc_finish`es that fail, members of chains discarded or not, and workers that publish jobs again: transactions are apart, staged records belong to uncommitted jobs of one thread or were left by an `add` that failed, no job is sent twice, discarded jobs have no record until their chain is sent, and each thread's log lists its finished transactions and what it has sent of the current one |
| JobDispatch.StagedBelongsToOneThread | Products/Jobber/manager.py:257-271 | on every run a staged record belongs to the transaction of exactly one thread and is shown to no other, unless an `add` that failed has left it: then it belongs to none, has not been sent and is shown to none |
| JobDispatch.NothingSentEarly | Products/Jobber/manager.py:460-468 | on every run no job is sent twice, and nothing of a transaction is sent before its `tpc_finish` has committed its records |
| JobDispatch.FinishSendsEverything | Products/Jobber/manager.py:460-468 | when a transaction ends its thread has sent exactly its signatures, each once and in the order they were added, and none of its records is staged |
| JobDiscards.DiscardedSingleIsGone | Products/Jobber/manager.py:427-432 | a job that was added singly and is discarded while staged is never sent and never has a record again, on any run from there, and its thread keeps exactly its other signatures, in order |
| JobDiscards.DiscardedMemberKeepsSignatures | Products/Jobber/manager.py:427-432 | discarding a job that was added with a chain leaves the signatures as they are |
| JobDispatch.FailedFinishKeepsWhatIsSent | Products/Jobber/manager.py:460-471 | when `tpc_finish` fails while it sends, exactly its first signatures, in order, have been sent and stay sent, the others are dropped, and no job that was staged has a record, whether it was sent or not |
| JobOrphans.OrphansStayStaged | Products/Jobber/manager.py:414-425 | the records that an `add` had staged before it failed stay staged on every run from there, without expiry: no transaction has them, nobody is shown them and nothing sends or deletes them |
| JobAborts.AbortLeavesNoTrace | Products/Jobber/manager.py:414-446 | after a transaction is aborted, what has been sent and every thread are as on the run in which it never began, whatever other threads, workers and the clock did meanwhile, and so is the store but for the records staged by `add`s of the transaction that failed, which stay staged for good; so an abort leaves no trace if and only if no `add` failed after staging a tracked job |
| JobAborts.FailedAddLeavesRecord | Products/Jobber/manager.py:414-446 | a chain whose second job cannot be described leaves the record of its first one staged when its transaction is aborted |
| JobDispatchers.StagingAddsRecords | Products/Jobber/model.py:384-406 | adding jobs with unused ids gives each tracked one its record, staged, with the time and the job's other fields, and touches no other record |
| JobDispatchers.FinishTurnsStagedToPending | Products/Jobber/manager.py:460-468 | finishing keeps every record, turns those staged for the transaction to pending with their other fields unchanged, and changes no other |
| JobDispatchers.AddIsARun | Products/Jobber/manager.py:414-425 | an uninterrupted `add` is the run of the interleaved machine that begins it, stages each record and ends it, or fails at the first member whose record cannot be built |
| JobDispatchers.FinishIsARun | Products/Jobber/manager.py:460-468 | an uninterrupted `tpc_finish` is the run that commits each staged record, then sends each signature, then resets |
| JobDispatchers.StagesOrFails | Products/Jobber/model.py:384-406 | `add` goes on from a member exactly if its result is ignored or its record can be built, may fail at every member, and ends after the last |
| JobDispatchers.AbortIsAStep | Products/Jobber/manager.py:442-446 | `abort` is the step that deletes the records of the staged tasks and resets the thread |
| JobDispatchers.DeletionIsAStep | Products/Jobber/manager.py:274-303 | `deleteJob` is a discard of a job staged here, a deletion of one that is not staged, and no step otherwise |
| JobDispatchers.UpdateIsAStep | Products/Jobber/manager.py:240-255 | an update reaches exactly the jobs shown to the thread, and a worker's those that were sent |
| JobDispatchers.PublishingIsAStep | Products/Jobber/model.py:305-366 | a worker may publish any jobs that have been sent |
| JobDispatchers.JobDispatcher.Add | Products/Jobber/manager.py:414-425 | stages the record of each task in order and appends the tasks and the signature; it fails exactly when the record of a tracked task cannot be built, having joined the transaction and staged the tasks before that one and appended nothing |
| JobDispatchers.JobDispatcher.Discard | Products/Jobber/manager.py:427-432 | deletes the record and filters the task out of the staged ones, and its signature out of the signatures if it was added singly; a chain, of one task or more, keeps its signature |
| JobDispatchers.DiscardedMemberIsSent | Products/Jobber/manager.py:427-432 | a discarded member of a chain is sent with its chain all the same, and once a worker publishes it there is a record of it again, whatever became of the records in between |
| JobDispatchers.PublishedMember | Products/Jobber/model.py:305-366 | when a chain is published from one member on, as it is sent or by a worker, a later member without a record gets its own, pending since then, exactly when the first published one is tracked and has no record and all from there to it can be described |
| JobDispatchers.JobDispatcher.Abort | Products/Jobber/manager.py:442-446 | deletes exactly the records of the staged tasks and resets the dispatcher |
| JobDispatchers.JobDispatcher.ApplyAsync | Products/Jobber/model.py:305-366 | appends the signature to what was sent after its handler has saved the records that are missing, up to the first that cannot be built, unless the first one is there or untracked |
| JobDispatchers.JobDispatcher.TpcFinish | Products/Jobber/manager.py:460-468 | commits all staged records, sends all signatures in order and resets the dispatcher |
| JobManagers.JobManager.GetJob | Products/Jobber/manager.py:257-272 | raises NoSuchJob exactly for jobs that do not exist or are staged by another thread, and returns the stored record of any other |
| JobManagers.JobManager.GetAllJobs | Products/Jobber/manager.py:355-375 | returns the decoded records that pass the filter on STAGED, and fails exactly when some record does not decode, has no status, or is staged and has no id |
| JobManagers.JobManager.GetUnfinishedJobs | Products/Jobber/manager.py:306-323 | returns the decoded records named by the unfinished ones that pass the filter on STAGED, in which a missing field reads as None, and fails exactly when one of them does not decode |
| JobManagers.ListingsHold | Products/Jobber/manager.py:306-323 | with records that name themselves the listing of all jobs holds exactly the visible ones that decode, and that of the unfinished ones those of them with one of celery's unready states or STAGED |
| JobNames.QueriesShowWhatIsVisible | Products/Jobber/manager.py:225-232 | on every run whose jobs carry their ids the filter of the queries passes exactly the jobs that the thread may see, none staged by another thread, and a listing fails only on a record that does not decode |
| JobManagers.JobManager.DeleteJob | Products/Jobber/manager.py:275-303 | discards a job staged here, leaves one staged by another thread alone and deletes any other; what remains is not visible, and of a job discarded here no single signature is left and every other one is |
| TaskTables.DoomedByConfig | Products/ZenCollector/scheduler.py:639-650 | the tasks that removing a config's own tasks dooms are exactly those of the configs it reaches through child ids |
| TaskTables.SweptAll | Products/ZenCollector/scheduler.py:607-637 | once all collected child ids have been gone through exactly the doomed tasks are gone, cycles of child ids included |
| TaskTables.RemovalsAddUp | Products/ZenCollector/daemon.py:842-856 | removing configs one after the other, in any order, removes exactly what any of them reached at the start |
| Schedulers.Scheduler.AddTask | Products/ZenCollector/scheduler.py:486-523 | raises for a name in use and changes nothing; otherwise adds the task to all three tables with a callback entry, and returns a start after the asked or a random delay |
| Schedulers.AnyDelay | Products/ZenCollector/scheduler.py:486-523 | a task without a start delay starts at once if asked to, and otherwise after any delay up to half its interval |
| Schedulers.Scheduler.RemoveTasks | Products/ZenCollector/scheduler.py:607-637 | removes from all tables exactly the named tasks and all tasks of the configs their child ids reach, stops their timers and puts them up for cleanup |
| Schedulers.Scheduler.RemoveTasksForConfig | Products/ZenCollector/scheduler.py:639-650 | ends for every graph of child ids and removes exactly the tasks whose config is reachable from the given one; the tables stay in step |
| Schedulers.Scheduler.Shutdown | Products/ZenCollector/scheduler.py:354-408 | removes exactly the tasks that stop in the phase or in no known phase, and leaves the others and their children |
| Schedulers.PhasesStopAll | Products/ZenCollector/scheduler.py:354-408 | the three phases together stop every task, and a task with a known phase stops in that one only |
| Schedulers.Scheduler.StartTask | Products/ZenCollector/scheduler.py:435-484 | does nothing for a task that is gone or ticking, puts the start off while tasks of its config await cleanup, giving one up after too many attempts, and starts the timer otherwise |
| Schedulers.AnyChoice | Products/ZenCollector/scheduler.py:435-484 | an attempt that is put off draws any delay up to half the interval, and after more than three attempts takes any task of the config that awaits cleanup |
| Schedulers.Scheduler.PauseTasksForConfig | Products/ZenCollector/scheduler.py:652-658 | pauses exactly the tasks of the config |
| Schedulers.Scheduler.ResumeTasksForConfig | Products/ZenCollector/scheduler.py:660-666 | resumes exactly the tasks of the config |
| TaskStart.PutOffBoundedly | Products/ZenCollector/scheduler.py:443-471 | successive attempts that are put off with m tasks of the config awaiting cleanup at first, none joining them, are at most 4m + 1, 5 for one, and add at most half an interval each |
| StartRuns.RunFollows | Products/ZenCollector/scheduler.py:435-484 | on every run of attempts to start a task, cleanups, and whatever else leaves the task and adds no task of its config to the cleanup set, the attempts that are put off form such a trace |
| StartRuns.TimerStarts | Products/ZenCollector/scheduler.py:435-484 | on every such run the start is put off at most 4m + 1 times and by at most half an interval each time, and one more attempt finds the timer running or starts it |
| StartRuns.FirstAttemptStartsIff | Products/ZenCollector/scheduler.py:441-484 | on every such run up to the first attempt that finds the timer waiting: the attempt starts it if and only if every task of the config that awaited cleanup at the outset has been cleaned up by then |
| TaskStart.WorstCaseMeetsBound | Products/ZenCollector/scheduler.py:447-453 | the bound on the attempts put off is met when nothing is cleaned up in time |
| Schedulers.Scheduler.SetNextExpectedRun | Products/ZenCollector/scheduler.py:594-605 | notes when a scheduled task is to run next, and does nothing for any other name |
| ConfigUpdates.UpdateLeavesTheSplit | Products/ZenCollector/daemon.py:743-820 | an accepted update leaves exactly the tasks of its split, rescheduled and paused exactly when the device does not answer, except those whose names surviving tasks of other configs use; those others stay as they are |
| ConfigUpdates.ReplacedAwaitCleanup | Products/ZenCollector/daemon.py:766-774 | an update adds to the cleanup set exactly the tasks that it removes; those of the config await cleanup when the new ones are added |
| ConfigUpdates.StartsOnScheduleIff | Products/ZenCollector/daemon.py:764-799 | the first attempt to start a task that replaces one of the same name comes when the old one was to run, or at once if that is past; on every run up to it in which no further task of the config joins the cleanup set, it starts the task if and only if every task of the config that awaited cleanup after the update, the old one included, has been cleaned up by then, and is put off otherwise |
| ConfigUpdates.DueTaskIsPutOff | Products/ZenCollector/daemon.py:766-799 | right after an update a replaced task that is due is always put off, because the old one awaits cleanup |
| ConfigUpdates.UpdateDelaysDueTask | Products/ZenCollector/daemon.py:764-799 | a device whose one task is due when its configuration is updated: the first attempt to start the new task is put off |
| ConfigUpdates.ReplacedTaskStarts | Products/ZenCollector/daemon.py:764-799 | a replaced task that is not removed, while no task of its config joins the m awaiting cleanup after the update, is put off at most 4m + 1 times, by at most half an interval each time, and then its timer runs |
| CollectorDaemons.CollectorDaemon.RebuildConfig | Products/ZenCollector/daemon.py:701-709 | removes what the loader's config reaches and adds the loader again; the invariant of the device tasks is kept |
| CollectorDaemons.CollectorDaemon.UpdateConfig | Products/ZenCollector/daemon.py:743-820 | an update is accepted exactly when it passes the filter; it then removes the config's tasks and all they reach, puts them up for cleanup, adds the new tasks with one start each, delayed to the old schedule, and pauses them when the device does not answer; otherwise nothing changes |
| CollectorDaemons.CollectorDaemon.DeleteDevice | Products/ZenCollector/daemon.py:858-864 | forgets the device, and removes exactly the tasks its config reaches and puts them up for cleanup |
| CollectorDaemons.CollectorDaemon.PurgeOmittedDevices | Products/ZenCollector/daemon.py:842-856 | leaves the devices that are listed, and removes exactly the tasks that the others reached and puts them up for cleanup |
| CollectorDaemons.CollectorDaemon.UpdateDeviceConfigs | Products/ZenCollector/daemon.py:822-840 | an uninterrupted update leaves the accepted devices and, after a purge, of the old ones those that are listed |
| CollectorDaemons.CollectorDaemon.PauseUnreachableDevices | Products/ZenCollector/daemon.py:960-982 | after a ping cycle exactly the tasks of unresponsive devices are paused; without a result nothing changes |
| CollectorDaemons.PingKeepsInStep | Products/ZenCollector/daemon.py:970-980 | resuming the cleared devices and pausing the unresponsive ones keeps every device task paused exactly when its device does not answer |
| CallableTasks.TicksAreAccountedFor | Products/ZenCollector/scheduler.py:214-250 | on every run ticks are submissions, missed runs and ticks on pause, submissions are queued or started runs, and started runs are finished or active ones |
| CallableTasks.FailuresAreCounted | Products/ZenCollector/scheduler.py:262-284 | on every run the failures counted are the runs under way that finished with one |
| CallableTasks.TickDecides | Products/ZenCollector/scheduler.py:214-250 | while the state tells what the task is doing, a tick is skipped on pause, missed while a run is outstanding or when the task is complete, and submits a run otherwise |
| CallableTasks.DeclarationsStand | Products/ZenCollector/scheduler.py:262-284 | what a run says of the state of its task stands until the run finishes; then the task is idle unless it was declared complete |
| CallableTasks.AtMostOneOutstanding | Products/ZenCollector/scheduler.py:214-250 | a task has at most one outstanding run all along if and only if no tick comes, unpaused, on a task that is marked paused while a run is outstanding |
| CallableTasks.NoTickOnPauseSuffices | Products/ZenCollector/scheduler.py:214-250 | a task never ticked on pause while a run is outstanding has at most one outstanding run all along, and its state tells whether a run is queued, under way or neither |
| CallableTasks.PausingCanSubmitTwice | Products/ZenCollector/scheduler.py:215-230 | a tick, a pause, a tick, a resume and a tick leave two runs of the same task outstanding |
| CallableTasks.CallableTask.Call | Products/ZenCollector/scheduler.py:214-250 | one tick: the task is submitted, skipped while on pause, or counted as late |
| CallableTasks.CallableTask.Begin | Products/ZenCollector/scheduler.py:262-266 | a queued run starts, and the total counts it |
| CallableTasks.CallableTask.Finished | Products/ZenCollector/scheduler.py:268-284 | a run ends, the task is idle again unless it has completed, and failures are counted |
| Statistics.AddAllSums | Products/ZenCollector/scheduler.py:53-63 | the running numbers are the sum, the sum of squares, the count, the least and the greatest of the calls |
| Statistics.RadicandIsVariance | Products/ZenCollector/scheduler.py:77-88 | over two or more calls the radicand of the running standard deviation is the sample variance; it is never negative, and zero exactly when all calls took equally long |
| Statistics.MergingIsExact | Products/ZenCollector/scheduler.py:743-759 | adding up the statistics of tasks gives those of all their calls if and only if there are none, or some call took at most 0xFFFFFFFF and some call not less than no time |
| Statistics.AddUpStates | Products/ZenCollector/scheduler.py:727-759 | for each state the totals are the statistics of all tasks that were in it, added up; no other state appears |
| Statistics.TrackedTimeAddsUp | Products/ZenCollector/scheduler.py:100-116 | the times recorded for all states add up to the time from the first state change to the last |
| Statistics.TrackedPerState | Products/ZenCollector/scheduler.py:100-116 | what is recorded for a state are exactly the times from each change to the next one that leaves the state |
| Statistics.StateStatistics.RecordCall | Products/ZenCollector/scheduler.py:53-63 | one call is added to the running numbers |
| Statistics.StateStatistics.SquaredDeviation | Products/ZenCollector/scheduler.py:77-88 | the number under the root is the sample variance of the calls so far, zero for one call, and undefined without any |
| Backoff.IntervalGrows | Products/ZenCollector/tasks.py:62-82 | after n failures from an interval i the interval is at least min(cap, 2^n (i - 1) + 1), at most min(cap, 3^n i), whatever the draws |
| Backoff.CapReached | Products/ZenCollector/tasks.py:62-82 | once 2^n (i - 1) + 1 reaches the cap the interval is at the cap, and stays there until it is reset |
| Backoff.LowestDrawsMeetBound | Products/ZenCollector/tasks.py:62-82 | the lower bound is met: an odd interval may grow no faster |
| Backoff.OneSecondMayNeverGrow | Products/ZenCollector/tasks.py:62-82 | an interval of one second may stay at one second for any number of failures |
| Backoff.BackoffTask.DelayNextCheck | Products/ZenCollector/tasks.py:62-82 | one failure lengthens the interval by twice a draw between half the interval and the interval, up to the cap |
| Modelers.RunKeepsInv | Products/DataCollector/zenmodeler.py:1004-1056 | on every run devices are requested in list order, each once; clients are kept once each; a request is made only with a free slot, at most four clients too many are active, and a client that timed out is never active again |
| Modelers.ActiveOrFinishedOnce | Products/DataCollector/zenmodeler.py:838-851 | each client added since the finished ones were cleared is either active or finished, never both and never twice, even when it times out and later completes |
| Modelers.TimeOutMovesTheLate | Products/DataCollector/zenmodeler.py:1276-1293 | a time-out marks and finishes exactly the late clients and leaves the others active |
| Modelers.EndsOnlyWhenDone | Products/DataCollector/zenmodeler.py:964-1002 | a loop ends only when its whole list has been requested, no request is pending and no client is active, and every client added to it has finished |
| Modelers.LoopsBegin | Products/DataCollector/zenmodeler.py:1347-1390 | a loop begins when no client is active, without its device list, and has it once that is announced |
| Modelers.FillGoesOn | Products/DataCollector/zenmodeler.py:1004-1056 | with a slot to fill and nothing under way, filling asks for the next device or ends the loop |
| Modelers.FillRequestsIff | Products/DataCollector/zenmodeler.py:1004-1019 | on every run filling requests a device if and only if a slot is free, no request is pending and devices are left; it is the first not yet requested, and nothing else requests one |
| Modelers.OneSlotFiveClients | Products/DataCollector/zenmodeler.py:1027-1045 | the bound on active clients is met: one slot can hold five |
| Modelers.ZenModeler.DevicegenHasItems | Products/DataCollector/zenmodeler.py:949-962 | the peek tells whether items are left and leaves the items of the iterator as they were |
| Modelers.ZenModeler.Check | Products/DataCollector/zenmodeler.py:964-1002 | the loop ends exactly when nothing is pending, active or left and the device list is known; finished clients are then cleared |
| Modelers.ZenModeler.FillCollectionSlots | Products/DataCollector/zenmodeler.py:1004-1019 | requests the next device exactly when a slot is free, devices are left and no request is pending, and checks for the end otherwise |
| Modelers.ZenModeler.ConfigReceived | Products/DataCollector/zenmodeler.py:1023-1056 | adds the clients of the returned device, ends the request and checks for the end |
| Modelers.ZenModeler.TimeoutClients | Products/DataCollector/zenmodeler.py:1276-1293 | moves exactly the clients past their time to the finished ones, marked as timed out, in order |
| Modelers.ZenModeler.ProcessClientFinished | Products/DataCollector/zenmodeler.py:838-851 | moves an active client to the finished ones and does nothing for one that is no longer active |
| SshClients.RunKeepsInv | Products/DataCollector/SshClient.py:813-875 | on every run commands are waiting, open or answered, start in the order they were added and once each, sessions stay between zero and the limit, and a connected client with waiting commands has them all in use |
| SshClients.FinishedMeansAllAnswered | Products/DataCollector/CollectorClient.py:179-183 | the client counts as finished exactly when no command is waiting or open |
| SshClients.ConnectingStarts | Products/DataCollector/SshClient.py:847-858 | connecting starts exactly the first commands, as many as there are sessions, and happens once |
| SshClients.ClosingFinishes | Products/DataCollector/SshClient.py:828-845 | a connected client with a session is never stuck: it has finished after exactly as many closes as there were unanswered commands, in whatever order they come |
| SshClients.SshClient.RunCommands | Products/DataCollector/SshClient.py:813-826 | starts waiting commands in order, as many as sessions are available |
| SshClients.SshClient.ServiceStarted | Products/DataCollector/SshClient.py:847-858 | connects and starts as many waiting commands as there are sessions |
| SshClients.SshClient.AddCommand | Products/DataCollector/SshClient.py:860-875 | queues commands behind those waiting and, when connected, starts as many as sessions are available |
| SshClients.SshClient.CommandClosed | Products/DataCollector/SshClient.py:734-751 | adds the result of the command with its plugin, frees the session, and either reports the end or starts the next waiting command |
| ExpiringCaches.LazyDeletionIsInvisible | Products/ZenCollector/ExpiringCache.py:22-95 | while the clock does not go back any sequence of operations, storing at whatever times, answers exactly as a map that never deletes |
| ExpiringCaches.AnswersLastStored | Products/ZenCollector/ExpiringCache.py:22-95 | while the clock does not go back a lookup answers the value stored last for the key and not invalidated since, as long as its time is no more than the expiry time ago |
| ExpiringCaches.ClockGoingBackIsVisible | Products/ZenCollector/ExpiringCache.py:34-43 | when the clock goes back a deleted entry stays deleted although it has not expired |
| ExpiringCaches.ExpiringCache.Store | Products/ZenCollector/ExpiringCache.py:48-65 | stores the value with its time |
| ExpiringCaches.ExpiringCache.Has | Products/ZenCollector/ExpiringCache.py:34-46 | tells whether the entry is there and has not expired, deleting it if it has |
| ExpiringCaches.ExpiringCache.Fetch | Products/ZenCollector/ExpiringCache.py:67-80 | sweeps, then answers the value of an entry that has not expired |
| ExpiringCaches.ExpiringCache.Sweep | Products/ZenCollector/ExpiringCache.py:89-95 | when due, removes exactly the expired entries and notes the time |

## Left out

- The text lexer of where clauses: clauses are sequences of tokens, and quoted strings are taken with their quotes.
- The text of a printed Python statement: a statement is its attribute, test and value, so the meaning of rules is proved for values that are printed plainly; `PrintedTextReadsBack` says which these are.
- The database's collation and escape character: `like` is case-sensitive, and its only wildcards are `%` and `_`.
- WhereMeaning.RuleTrueOnSameEvents: comparisons outside `Convertible` are excluded, which is exact for each comparison of a column with a value of its kind; a device is in a group when its groups contain the group's path, as the rule tests it, and other patterns on device groups, and how the database compares a text with a number, are not modelled. Texts are ordered by their characters on both sides.
- FormTrips.FieldReadsBack: text codes of enumerated fields, which are printed without quotes, are single words; how the lexer cuts other text is not modelled, nor is it for other values of comparisons, of which the model only says that they do not come back.
- The sorting of the triples that `toJavaScript` returns: the model keeps the order of the clause.
- White space and signs that Python's `int` accepts around digits in `ntevid` values.
- Python's `re` module: whether a collector expression matches this collector is a parameter, and its rank is computed from its characters.
- The events that report a bad filter line: a line's outcome is a definition, a skipped line or an error.
- The store's operations are atomic: other steps do not come between the commands of one operation, or between a check and the write that it guards.
- A store that cannot be reached while an abort deletes, and the retries of the queue. Errors raised in the handler of the publish signal are caught by celery, as its signals do, so that the job is sent.
- JobDispatchers.JobDispatcher.TpcFinish: the object's method does not fail; that it may is a step of the machine, whose `tpc_abort` is the transaction manager's answer.
- The message a job is published with: a worker's record of it may hold any fields, and at the first sending the fields are those of its signature.
- Freshness of job ids: the machine adds a signature only if none of its ids has been used, as celery's random ids are.
- Redis key prefixes, scan order, and the length of expiry times: a key has an expiry time or not, and may expire at any moment once it has.
- The JSON text of job details, and values of the wrong Python type in a record.
- JobManagers.JobManager.GetAllJobs: the source's generators yield records before they meet one that fails; the model takes them to the end.
- Search by criteria, sorting and paging of job queries, and the removal of log files.
- Stopping a running job before it is deleted.
- The event and state observers of tasks, and the executor's limit on concurrent tasks.
- Cleanup of removed tasks: when a task leaves the cleanup set is left open, and with it whether a replaced task runs on schedule.
- Tasks that set their own state to idle or paused while they run.
- The internal tasks of the daemon: their config ids are kept apart from those of devices, and nothing is claimed about their pausing.
- CollectorDaemons.CollectorDaemon.UpdateDeviceConfigs: the statement about the devices is for an update during which nothing else happens; the invariant holds in between for any other operation.
- The daemon's list of pending tasks and its stop when it does not cycle.
- Floating-point rounding: statistics and cache times are exact reals, intervals and clock readings elsewhere are integers.
- The square root itself in `stddev`.
- Clients that call back while they are being stopped for a timeout, and errors raised while clients are created.
- A second collector loop that begins while a request of the first is pending: the device lists are then those of the newer loop.
- `openFailed`, `reinitialize` and reconnecting of the SSH client, and changes to its number of sessions.
- ExpiringCaches.ExpiringCache.Store: custom update functions are not modelled, and neither is `values`, which deletes entries while it iterates.
- Device context, user interface, the SSH, Telnet and SNMP protocols, and the mail, call-home and conversion scripts.
