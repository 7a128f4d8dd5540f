# Seans backend: the download queue and its neighbours

A Dafny model of the Seans backend with proofs about it. The centre is the lease-based download queue: users create
and cancel tasks, workers claim, list, renew, complete and fail them, a reaper takes expired ones back, and quotas and
the library are computed from the same tables. Five smaller stateful parts stand beside it.

| file | what it holds |
|---|---|
| `Sums.dfy` | the SQL sums over table rows |
| `Model.dfy` | rows of the tables, plans, the database state |
| `Handlers.dfy` | every request as one step: when it is refused, what it writes; runs of requests |
| `Invariants.dfy` | what every step keeps of the task and library tables |
| `Leases.dfy` | fencing, the attempt bound, recovery by the reaper, stuck and revived tasks |
| `Fairness.dfy` | how many other tasks can be handed out while one waits |
| `Completion.dfy` | what a completion report does to the files of its task |
| `Ledger.dfy` | used and reserved bytes over whole runs, and the quota |
| `Library.dfy` | library totals against used bytes, order of the rows |
| `ClaimLocks.dfy` | claims in finer grain: lock, commit, abort, interleaved |
| `ClaimAborts.dfy` | when claims among aborting ones are still those of an atomic order |
| `Server.dfy` | the backend as a class whose methods update the tables in place |
| `Surprises.dfy` | concrete runs that show where an obvious property fails |
| `RateLimit.dfy` | the sliding-window rate limiter |
| `Rooms.dfy` | watch-party rooms and what each member shows |
| `TtlCache.dfy` | the TTL cache under overlapping misses |
| `Endpoints.dfy` | the endpoint-rewriting migration and its inverse |
| `Invites.dfy` | single-use invite keys and the chain of invitations |

## How it is modelled

A `State` is the database and the latest time it was used at. Tables are sequences, an id is a row's position, and a
task row carries its file rows. `Step` serves one request; a refused request changes nothing but the clock, one that
cannot arrive (time running backwards, a claim of a row the query would not return) is skipped. A `Run` is any list of
requests by any users and workers, and the lemmas about runs hold for all of them. `Server.Backend` is the same system
written as the code is, with fields assigned one after the other; each of its methods states its answer and the whole
new tables in terms of the old ones, and is proved to serve exactly one step and to extend the object's history,
which is a valid run from an empty task table, so everything proved of runs holds of every backend object. The other classes (`Limiter`, `Cache`, `Entry`, `Office`) follow the same plan, each
proved against a specification on values whose properties are lemmas.

Times are integers in microseconds, except in the rate limiter and the cache, which use real seconds. The clock, the
tie-break among equally ranked queued tasks, the object-store keys, the minted invite keys and the results of cache
factories are parameters. A manifest event names no worker because the handler never compares one.

## Where the code differs from what its names suggest

- The statuses completed, failed and canceled can all be left again: a manifest checks neither owner nor status, a
  completion or failure checks only the owner, and cancelling keeps the owner. `Leases.LeavesTerminal` gives the exact
  cases, `Leases.UnownedEndIsFinal` when an end is final, `Surprises.CanceledTaskFinishesPastQuota` a run.
- A task can be downloading without an owner, which a manifest for a task nobody has claimed brings about
  (`Leases.StepOrphan`, with a run in `Surprises.ManifestOfQueuedTaskOrphansIt`). It is then out of reach of claims,
  sweeps and cancelling for good (`Leases.OrphanForever`), and what it has reserved counts against the user until
  another manifest lowers it.
- A task that goes back to the queue keeps its file rows, and a path can be listed only once per task, so the next
  worker cannot repeat the manifest (`Surprises.RetryCannotRepeatManifest`). A manifest is accepted exactly when its
  paths are distinct and new to the task (`Leases.ManifestAcceptedExactly`). The design documents do not mention this.
- Used bytes can pass the quota: a completion may report more than was reserved, and negative sizes are not refused.
  `Ledger.QuotaHoldsExactly` says which requests break the limit, and that it holds otherwise; `Ledger.QuotaHolds`
  is an upper bound on the excess; `Surprises` has a run for each cause.
- A claimer skips a row that another has locked even if that lock is then given up, so a younger task can be handed
  out first (`ClaimAborts.AbortLetsYoungerGoFirst`). `ClaimAborts.AtomicExactly` says exactly when the claims that
  survive are those of an atomic order.
- No handler ever sets the status uploading (`Invariants.RunKeepsInv`).
- A refreshed cache value can be overwritten by an older fetch that was slower (`TtlCache.OlderFetchOverwrites`). It
  lasts in every continuation exactly when no older call of its key is still fetching with its ttl not over
  (`TtlCache.RefreshLasts`).
- The migration's downgrade does not restore a text that mentioned the new endpoint before the upgrade
  (`Endpoints.DowngradeUndoesUpgrade` is an if-and-only-if).
- The migration's upgrade can make two paths of a task equal and so break their unique constraint
  (`Endpoints.UpgradeCanCollide`); `Endpoints.UpgradeCollidesExactly` says when.

## Model

| member | source | states |
|---|---|---|
| Invariants.StepKeepsInv | app/routers/worker.py:98-272 | one request of any kind keeps: worker iff lease, lease at most ten minutes ahead, queued tasks unowned and with attempts left, assigned ones owned, never uploading, finished ones without reservation, distinct paths, one library row per (user, title), ready once a task of it is completed |
| Invariants.RunKeepsInv | app/services/task_queue.py:32-59 | that invariant in every state of every run |
| Invariants.StepKeepsLibrary | app/routers/tasks.py:49-64 | every task keeps a library row of its own user and title, no two rows share both, and a completed task's row is ready |
| Handlers.BasenameIsLastSegment | app/routers/worker.py:117 | the name in a derived key is the longest slash-free end of the path |
| Leases.StepFrame | app/routers/worker.py:98-272 | no row is deleted or loses its identity or listed paths, and it changes only if the request names it or the sweep's conditions hold of it |
| Leases.AttemptsCountClaims | app/services/task_queue.py:32-36 | attempts have grown by exactly the number of times the task was handed out |
| Leases.AttemptBound | app/services/task_queue.py:20-71 | no task is handed out more than max_attempts times in any run though claims do not look at attempts; a queued one has been handed out fewer times |
| Leases.RunHasDefaults | app/models/task.py:40-42 | every task of a run has priority 0 and three attempts |
| Leases.SweepOrderMatters | app/services/task_queue.py:52-71 | after the sweep no queued task is out of attempts; with the updates swapped this holds iff no expired task has used its last attempt |
| Leases.StepOwner | app/routers/worker.py:262-265 | ownership of a task moves only by a claim of it, a requeueing failure, or a reclaim, and only a claim grants it |
| Leases.OwnerIsLastGrant | app/services/task_queue.py:32-60 | a worker owns a task iff the latest ownership event of the task is that worker's claim |
| Leases.Fenced | app/routers/worker.py:200-204 | an accepted heartbeat, completion or failure comes from the worker of the latest claim, with no ownership event since |
| Leases.StaleWorkerIsFenced | app/routers/worker.py:256-265 | after another worker's claim, calls of a worker that has not claimed again are refused and change only the clock |
| Leases.SweepClearsExpired | app/services/task_queue.py:48-74 | right after a sweep no running task has a lease in the past; each expired one is queued again, or failed if out of attempts |
| Leases.SweepSparesLive | app/services/task_queue.py:52-71 | a sweep leaves every task unchanged whose lease has not run out |
| Leases.LeaseRunsOut | app/services/task_queue.py:41-45 | a lease still held by a worker silent since T ends by T plus ten minutes |
| Leases.RenewalLasts | app/services/task_queue.py:41-45 | an accepted claim or heartbeat gives a lease to exactly ten minutes after the call |
| Leases.LeaseProtects | app/services/task_queue.py:32-60 | after a claim or heartbeat at T the worker owns the task, with a lease to T + lease at least, at every moment up to T + lease, unless it gives the task back itself; no sweep, cancel or other worker can take it |
| Leases.SweepTakesTask | app/services/task_queue.py:52-60 | after a sweep later than that, the silent worker has the task running only if a manifest came after the sweep |
| Leases.BoundedRecovery | app/services/task_queue.py:41-60 | with sweeps at most P apart, by T + lease + P a worker silent since T no longer owns the task as a running one, unless a manifest was accepted for it after the lease ran out |
| Leases.ReaperLoopSweepsEvery | app/jobs/reaper.py:12-22 | a loop that sleeps a minute and is late by at most d sweeps at least every minute plus d |
| Leases.StepOrphan | app/routers/worker.py:107-131 | a step makes a task downloading and unowned iff a manifest is accepted for an unowned task, and no step undoes it |
| Leases.OrphanForever | app/services/task_queue.py:53-60 | a task downloading without an owner stays so in every run |
| Leases.PathsAreListed | app/routers/worker.py:114-131 | in every run a task has a file row for a path iff an accepted manifest of it listed the path, whatever failures, reclaims and cancels happened |
| Leases.ManifestAcceptedExactly | app/models/task_file.py:40 | in every run a manifest of an existing task is accepted iff its paths differ from each other and from all that its accepted manifests listed before; otherwise the unique constraint aborts it |
| Leases.RepeatedManifestAborts | app/routers/worker.py:116-131 | a corollary for runs from any database: a path listed by an accepted manifest makes every later manifest of the task with that path abort |
| Leases.LeavesTerminal | app/routers/worker.py:200-270 | exactly which requests take a task out of a terminal status or change it |
| Leases.UnownedEndIsFinal | app/routers/tasks.py:101-109 | a task that ended unowned never changes again if no manifest is accepted for it |
| Fairness.StepOvertakes | app/services/task_queue.py:20-36 | while a task waits, handing out another uses up a chance of the queued or owned tasks that may precede it, and no request adds one |
| Fairness.BoundedOvertaking | app/services/task_queue.py:20-36 | while a task stays queued and newcomers are younger, at most as many tasks are handed out as the queued or owned ones that may precede it have attempts left, through any mix of failures, reclaims, cancels and creations |
| Completion.ReportOverrides | app/routers/worker.py:207-218 | the loop over the report is one override per field: the last entry for the path giving a size or a key sets it, unnamed files stay as they were, named ones are uploaded |
| Completion.LastGivingExists | app/routers/worker.py:216-217 | the override is total: for a size as for a key, either a last entry gives it for the path or none does |
| Completion.CompleteIsIdempotent | app/routers/worker.py:184-237 | repeating a completion is accepted and changes only times |
| Completion.CompleteMovesUsedBytes | app/routers/worker.py:207-222 | a completion moves the owner's used bytes by the change of that task's uploaded bytes, and nobody else's |
| Ledger.ReservationNeverRises | app/routers/worker.py:128 | a task's reservation never rises after creation; a negative one may come back to zero |
| Ledger.ReservedIsAllHeld | app/services/quota.py:25-33 | the sum over active tasks equals the sum over all tasks of the user |
| Ledger.LedgerBalances | app/services/quota.py:14-33 | each request moves used plus reserved bytes by exactly its ledger entry |
| Ledger.RunBalances | app/services/quota.py:14-33 | in every run used plus reserved bytes are the running total of the entries since the empty table |
| Ledger.CreationAcceptedExactly | app/services/plans.py:29-37 | a creation is accepted iff used plus reserved bytes plus its size are at most the free plan's bytes when the plan expired before now, and at most the stored quota otherwise |
| Ledger.CreationFits | app/routers/tasks.py:33-46 | right after an accepted creation used plus reserved bytes are within what the user was allowed at that moment |
| Ledger.QuotaHolds | app/services/quota.py:36-57 | after a user's latest accepted creation, through plan expiry and quota changes, used plus reserved bytes exceed the limit it was checked against by at most what completions reported beyond their reservations plus the negative reservations counted on |
| Ledger.StepPassesLimit | app/services/quota.py:54-57 | a request other than a creation takes a user past a limit iff it is a completion whose files grow by more than the reservation it frees and the room left, or drops a negative reservation larger than the room |
| Ledger.OnlyCompletionsOverstep | app/routers/worker.py:207-222 | for a user without negative reservations only completions can |
| Ledger.QuotaHoldsExactly | app/services/quota.py:36-57 | used plus reserved bytes stay within the limit the latest accepted creation was checked against, at every moment since, iff no request since oversteps it in that way |
| Ledger.QuotaHoldsFromInit | app/services/quota.py:47-57 | with non-negative sizes, iff no completion since oversteps it; completions within their reservations never do |
| Ledger.NothingWithoutCreation | app/routers/tasks.py:39-47 | a user without an accepted creation has no task and no bytes |
| Surprises.CanceledTaskFinishesPastQuota | app/routers/tasks.py:107-108 | a run in which a canceled task is completed by its old worker and passes the limit |
| Surprises.NegativeReservationLiftsLimit | app/services/quota.py:54-57 | a run without completions in which a negative reservation lets the user pass the limit by the debt in `QuotaHolds` |
| Surprises.ManifestOfQueuedTaskOrphansIt | app/routers/worker.py:107-131 | a run in which a manifest for a task nobody claimed leaves it downloading, unowned and with its reservation counted |
| Surprises.RetryCannotRepeatManifest | app/models/task_file.py:40 | a run of claim, manifest, failure and second claim after which the same manifest is aborted |
| Library.LibraryTotalsAreUsedBytes | app/routers/library.py:30-43 | the totals over a user's library rows add up to the bytes the quota counts as used, whenever the table invariant holds |
| Library.TitleFileSizes | app/routers/library.py:32-43 | the sizes of the files shown for a title add up to the uploaded bytes of the user's tasks for it |
| Library.TitleFilesAreRows | app/routers/library.py:32-42 | the files shown for a title are the uploaded file rows of the user's tasks for it, each stored row exactly once |
| Library.RowsOfMembers | app/routers/library.py:22-28 | the listed rows are exactly those of the user |
| Library.RowsOfDistinct | app/models/library_item.py:38-45 | no title is listed twice |
| Library.RowsOfNewestFirst | app/routers/library.py:26 | the listed rows come newest first |
| Library.RunKeepsOrder | app/models/library_item.py:34-36 | rows are stored in the order of their creation times in every run |
| ClaimLocks.AlwaysExclusive | app/services/task_queue.py:20-26 | in every interleaving of locks, commits, aborts and creations no row is held by two claimers, and held rows are still queued |
| ClaimLocks.HandedOverOnce | app/services/task_queue.py:31-38 | no task is handed over by two commits |
| ClaimLocks.AbortReleases | app/services/task_queue.py:20-38 | an abort leaves the committed rows and every other lock as they are and frees the row its claimer held |
| ClaimLocks.HoldersMayEnd | app/services/task_queue.py:31-38 | in every interleaving a claimer that holds a row may commit or abort |
| ClaimLocks.AbortUndoesLock | app/services/task_queue.py:20-38 | locking and aborting changes nothing but the time |
| ClaimLocks.HeldExactly | app/services/task_queue.py:20-36 | with any number of aborts, a claimer holds a row iff it locked it and has neither committed nor aborted since |
| ClaimLocks.OnlyCommitsShow | app/services/task_queue.py:31-36 | with any number of aborts, a committed row changes only by the one commit that hands it over, to the worker and at the time of its lock |
| ClaimLocks.LockableExactly | app/services/task_queue.py:20-27 | a claimer may lock a row, or find none, iff the atomic claim may when open claims count as done |
| ClaimLocks.LockIsAtomicClaim | app/services/task_queue.py:20-38 | locking a row is an enabled atomic claim of it on the table in which open claims count as done |
| ClaimLocks.ArrivalIsAtomic | app/routers/tasks.py:33-64 | a creation gets the same answer and writes the same rows whether open claims have committed or not |
| ClaimLocks.SameAsAtomicClaims | app/services/task_queue.py:20-38 | without aborts every interleaving leads where atomic claims in lock order lead, whatever the commit order |
| ClaimLocks.LocksAreAtomicClaims | app/services/task_queue.py:20-27 | each lock takes a row its atomic claim in lock order may take, and finds none only if that would |
| ClaimLocks.CommittedAsAtomicClaims | app/services/task_queue.py:36 | once all have committed, the committed table is that of the atomic claims |
| ClaimAborts.KeptLockable | app/services/task_queue.py:20-26 | a lock that survives could have been made without the locks given up later iff it passes over none of their rows |
| ClaimAborts.AtomicExactly | app/services/task_queue.py:20-38 | with any aborts, the surviving claims are accepted as atomic claims in lock order iff none passes over a row whose lock is given up later, and then the rows are those they lead to |
| ClaimAborts.AbortLetsYoungerGoFirst | app/services/task_queue.py:20-26 | an interleaving in which a claimer passes over such a row and gets a younger task than one still queued |
| Server.HeadExists | app/services/task_queue.py:20-29 | a queue with a queued task has a first one in claim order |
| Server.AddListed | app/routers/worker.py:114-125 | the manifest loop appends one file row per listed file, keyed by its basename, and sums the sizes |
| Server.ApplyReport | app/routers/worker.py:206-218 | the completion loop, row by row, equals the override of the whole file table |
| Server.ShowRows | app/routers/library.py:30-43 | the library loop shows, for each row in order, the uploaded files of its user and title and their total |
| Server.ShelvesTotal | app/routers/library.py:43 | the totals shown for a user's rows add up to the per-title sums over the task table |
| Server.CountOverdue | app/services/task_queue.py:53-61 | the row count of the first update is the number of running tasks whose lease lies before now |
| Server.UpdatesSweep | app/services/task_queue.py:52-71 | the two updates in their order queue each overdue task again, or fail it without owner and reservation when out of attempts, and leave all others alone |
| Server.Backend.constructor | app/models/task.py:18-56 | a backend starts with no task and no library row |
| Server.Backend.ReachableInv | app/services/task_queue.py:13-74 | every backend object satisfies the table invariant |
| Server.Backend.CreateTask | app/routers/tasks.py:17-66 | refuses unknown users and releases and requests over the allowance, else adds the queued task with its reservation and the library row if it is missing |
| Server.Backend.CancelTask | app/routers/tasks.py:86-111 | cancels the user's own queued or assigned task and frees its reservation, else refuses |
| Server.Backend.ClaimTask | app/services/task_queue.py:13-38 | hands out a first task in claim order with a fresh lease and one more attempt; empty iff nothing is queued |
| Server.Backend.WorkerManifest | app/routers/worker.py:98-131 | adds the files, lowers the reservation to the listed total, sets downloading; a repeated path aborts it whole |
| Server.Backend.WorkerHeartbeat | app/routers/worker.py:150-181 | only the owner with a live lease is accepted, gets a lease from now on, and has recorded what it reported; all else stays |
| Server.Backend.WorkerComplete | app/routers/worker.py:184-237 | only the owner completes; files, status, reservation and the library row change together |
| Server.Backend.WorkerFail | app/routers/worker.py:240-272 | only the owner fails; the task is queued again while attempts are left, else failed without reservation |
| Server.Backend.ReclaimExpired | app/services/task_queue.py:48-74 | the running tasks whose lease lies before now, and only they, go back to the queue, or fail without reservation when out of attempts; their number is returned |
| Server.Backend.GetLibrary | app/routers/library.py:17-76 | the user's library rows, each once, newest first, each with the stored uploaded files of its title, each once, and their total; the totals add up to the used bytes in every backend |
| Server.Backend.PatchAccount | app/routers/admin.py:87-127 | an unknown plan is refused; a new plan sets its expiry and, without an explicit quota, its own quota |
| RateLimit.WindowBound | app/services/rate_limit.py:19-27 | no key is let through more than max_requests times in any half-open window, over any history |
| RateLimit.RejectedIffFull | app/services/rate_limit.py:21-25 | a request is rejected exactly when max_requests of the key were let through less than a window ago |
| RateLimit.PruneCountsRecent | app/services/rate_limit.py:19-21 | the pruned history is as long as there are requests of the key let through less than a window ago |
| RateLimit.PruneTwice | app/services/rate_limit.py:19 | pruning early loses nothing that pruning later would have kept |
| RateLimit.MirrorsAfter | app/services/rate_limit.py:17-27 | the pruned buckets keep standing for the full history of every key |
| RateLimit.Limiter.Pruned | app/services/rate_limit.py:19 | the comprehension keeps exactly the times less than a window old, in order |
| RateLimit.Limiter.Admit | app/services/rate_limit.py:10-27 | lets a request through iff fewer than max_requests of its key were let through less than a window ago, over the full history; the key is the non-empty header, else the address |
| Rooms.JoinKeepsOk | app/routers/ws.py:57-79 | a joining member shows the server's state at once and the others still do |
| Rooms.SteeringKeepsOk | app/routers/ws.py:93-120 | after a state message by anyone with any action every member shows the server's state, which only the host moved |
| Rooms.LeavingKeepsOk | app/routers/ws.py:138-160 | after a departure the remaining members show the server's state, with the promoted host if there is one |
| Rooms.JoinTells | app/routers/ws.py:57-79 | a join leaves host, position and playing alone, tells the newcomer the state and each other member of the newcomer |
| Rooms.HostSteers | app/routers/ws.py:100-120 | the host's play, pause or seek sets exactly what it names, and each other member is told action, position and sender |
| Rooms.GuestIsRefused | app/routers/ws.py:93-98 | a guest's state message changes nothing and only the guest is told |
| Rooms.LeavingTells | app/routers/ws.py:138-160 | those who stay hear who left and, if it was the host, then the state under the new one |
| Rooms.MarkerAndSyncStayPrivate | app/routers/ws.py:88-131 | a heartbeat moves one marker, a sync request is answered to the asker alone |
| Rooms.Succession | app/services/rooms.py:67-84 | exactly the leaving member goes, and a leaving host is followed by the member whose stay began first |
| Rooms.AlwaysAgreed | docs/compose/spec/seans-client-app.md:159-167 | after any sequence of joins, messages and departures every member's replay of its messages is the server's (host, position, playing), and a host who has joined is still a member |
| Rooms.RoomGoesWithLastMember | app/services/rooms.py:73-77 | a room goes exactly when its last member leaves |
| Rooms.FirstConnectionMakesRoom | app/routers/ws.py:51-69 | the first to connect finds the room made anew for the stored host, stopped at the beginning |
| Rooms.TellEach | app/services/rooms.py:51-57 | the broadcast loop tells every member but the excluded one, once |
| Rooms.Entry.Connect | app/routers/ws.py:51-79 | makes the room if need be, adds the member, sends it the state, announces it |
| Rooms.Entry.State | app/routers/ws.py:93-120 | refuses guests; the host's play, pause or seek is recorded and told to the others, an unknown action only told |
| Rooms.Entry.RemoveMember | app/services/rooms.py:67-84 | removes the member, the empty room, or promotes the first of the remaining members |
| Rooms.Entry.Leave | app/routers/ws.py:138-160 | removal, the announcement and the new state together are one departure |
| TtlCache.AfterEvent | app/services/arr_cache.py:18-34 | hits, misses and deletions keep the dictionary equal to what the events leave live |
| TtlCache.AfterStore | app/services/arr_cache.py:22-24 | a late store of any pending call keeps it so |
| TtlCache.HitsAfterDeletion | app/routers/arr.py:33-35 | a hit after a deletion returns only a value stored after it |
| TtlCache.Cache.Begin | app/services/arr_cache.py:18-21 | a hit returns the live value, whose call began less than its ttl ago; otherwise a call begins |
| TtlCache.Cache.Finish | app/services/arr_cache.py:22-24 | a pending call stores its value, once, to live from the beginning of that call, and returns it |
| TtlCache.Cache.Invalidate | app/services/arr_cache.py:26-31 | exactly the keys with the prefix go, or all |
| TtlCache.Cache.Refresh | app/routers/arr.py:33-35 | a refreshing request never hits, so it returns what its own factory call gives |
| TtlCache.DropAll | app/services/arr_cache.py:30-31 | the deletion loop removes just the given keys |
| TtlCache.RefreshLasts | app/routers/arr.py:33-35 | after a refresh, every later hit of the key in every continuation returns what the refreshing call or a later one fetched iff no older call of the key is pending with its ttl not over |
| TtlCache.OlderFetchOverwrites | app/services/arr_cache.py:18-24 | an interleaving in which such an older fetch replaces the refreshed value and is served |
| Endpoints.ReplaceRemoves | alembic/versions/006_rewrite_s3_links.py:17-32 | replacing one headed pattern by another leaves none of the first, although replacements touch |
| Endpoints.ReplaceBack | alembic/versions/006_rewrite_s3_links.py:35-45 | replacing back restores any text without the second pattern |
| Endpoints.UpgradeIsComplete | alembic/versions/006_rewrite_s3_links.py:21-32 | the upgrade leaves no old endpoint in any text and is idempotent |
| Endpoints.DowngradeUndoesUpgrade | alembic/versions/006_rewrite_s3_links.py:35-45 | the downgrade restores a text iff it did not contain the new endpoint |
| Endpoints.UpgradeUndoesDowngrade | alembic/versions/006_rewrite_s3_links.py:21-45 | the upgrade restores a downgraded text iff it did not contain the old endpoint |
| Endpoints.LastRewriteCounts | alembic/versions/006_rewrite_s3_links.py:21-45 | for every text, downgrading after an upgrade gives what downgrading alone gives, and the other way round |
| Endpoints.UpgradeCollidesExactly | app/models/task_file.py:40 | the upgrade makes two texts equal iff the downgrade does |
| Endpoints.UpgradeCanCollide | alembic/versions/006_rewrite_s3_links.py:25 | one path under both endpoints: two different paths of a task that the upgrade makes equal |
| Endpoints.UpgradeKeepsPathsApart | app/models/task_file.py:40 | a corollary: the upgrade keeps different paths different if neither mentions the new endpoint |
| Invites.LineageEnds | app/routers/auth.py:39-60 | from any account the inviters are ever older accounts, ending at a bootstrap key or a seeded account |
| Invites.RegistrationKeepsForest | app/routers/auth.py:32-62 | registering with an unused key keeps: one user per used key, one key per registered user, creators older than users |
| Invites.NewKeyKeepsForest | app/routers/auth.py:92-108 | a newly minted key keeps them |
| Invites.Office.constructor | alembic/versions/004_seed_invite_key.py:28-32 | the migration leaves one unused key without creator |
| Invites.Office.Register | app/routers/auth.py:29-66 | refuses a known e-mail and a missing or used key; else adds the user and uses up exactly that key |
| Invites.Office.CreateInviteKey | app/routers/auth.py:87-109 | only users who may invite get a key, recorded as theirs |

## Left out

- Every handler is one serialised transaction. Races between reads and writes of different handlers (two creations
  passing the same quota check, a heartbeat or completion racing the reaper) are not modelled; only claims are, in
  `ClaimLocks`, where creations are the other requests that interleave.
- Fairness.BoundedOvertaking: asks that tasks created during the wait rank behind the waiting one, since equal creation
  times may be served in any order.
- Ledger.QuotaHoldsFromInit: asks for non-negative sizes, which the code does not enforce; `Ledger.QuotaHoldsExactly`
  does without.
- Integer widths: byte counts are 64-bit columns, attempts and progress smaller ones; the model has no overflow.
- Malformed bodies: missing `path` keys, wrong JSON types and explicit nulls.
- Authentication of users and workers, tokens, password hashes, `last_seen_at`, `updated_at`, worker registration and
  what the claim answer says about the release.
- Presigned URLs, the object store, Kinopoisk, TMDB, JacRed, Sonarr and Radarr calls; a key the server derives is kept
  as user, title and basename.
- `list_tasks`, `get_file_url`, the quota and plan read-outs, the media details in the library answer, history,
  reviews, admin listing, admin flags and the refusal to drop one's own admin rights, seed and upload scripts.
- The rate limiter is one with one maximum and one window, as its single use in `app/routers/media.py:28` has it;
  limiters of several settings would share the buckets. Times are exact reals.
- Rooms: one code, created only while it has no room (codes are fresh random strings, unique in the database), one
  socket per person, broadcasts that reach everyone at once, no timestamps or names. The documents say that guests
  apply `state` and `room_state`; that the host applies its own action is assumed.
- TtlCache: failing factories, which store nothing, appear only as calls that never finish.
- Invites: e-mail addresses are compared as given, a seeded account is inserted by a script, the downgrade of the
  migration and two registrations racing for one key are not part of the model.
- The sleep of the reaper is a bound on the time between sweeps; a sweep that raises and is only logged is a gap.
