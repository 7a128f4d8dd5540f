/** Ownership over whole runs: fencing, the attempt bound, recovery by the reaper, tasks that get stuck. */
module Leases {
  import opened Model
  import opened Handlers
  import opened Invariants

  /******* One step seen from one task *******/

  /** The task a request names, if it names one. */
  function Target(e: Event): Option<TaskId> {
    match e
    case Cancel(_, t) => Some(t)
    case Claim(_, pick) => pick
    case Manifest(t, _) => Some(t)
    case Heartbeat(_, t, _, _, _) => Some(t)
    case Complete(_, t, _) => Some(t)
    case Fail(_, t, _) => Some(t)
    case _ => None
  }

  /** The columns no request ever writes again. */
  predicate SameTask(a: Task, b: Task) {
    && a.user == b.user && a.media == b.media && a.release == b.release && a.priority == b.priority
    && a.maxAttempts == b.maxAttempts && a.createdAt == b.createdAt
  }

  predicate KeepsPaths(files: seq<TaskFile>, files': seq<TaskFile>) {
    |files| <= |files'| && forall i :: 0 <= i < |files| ==> files'[i].path == files[i].path
  }

  /** Rows are never deleted, keep their identity and their listed paths, and change only when named or swept. */
  lemma StepFrame(s: State, r: Request, t: TaskId)
    requires t < |s.tasks|
    ensures t < |Step(s, r).tasks| && SameTask(s.tasks[t], Step(s, r).tasks[t])
    ensures KeepsPaths(s.tasks[t].files, Step(s, r).tasks[t].files)
    ensures Step(s, r).tasks[t] != s.tasks[t] ==>
      Accepts(s, r) && (Target(r.event) == Some(t) || (r.event.Reap? && (Expired(s.tasks[t], r.time) || Exhausted(s.tasks[t]))))
  {
  }

  lemma {:induction false} RunFrame(run: Run, t: TaskId, m: nat, n: nat)
    requires run.Valid() && m <= n <= |run.requests| && t < |run.states[m].tasks|
    ensures t < |run.states[n].tasks| && SameTask(run.states[m].tasks[t], run.states[n].tasks[t])
    ensures KeepsPaths(run.states[m].tasks[t].files, run.states[n].tasks[t].files)
  {
    if m == n {
    } else {
      RunFrame(run, t, m, n - 1);
      assert run.Follows(n - 1);
      StepFrame(run.states[n - 1], run.requests[n - 1], t);
    }
  }

  lemma StepClock(s: State, r: Request)
    ensures s.now <= Step(s, r).now
    ensures Enabled(s, r) ==> Step(s, r).now == r.time
  {
  }

  lemma {:induction false} ClockRuns(run: Run, m: nat, n: nat)
    requires run.Valid() && m <= n <= |run.requests|
    ensures run.states[m].now <= run.states[n].now
  {
    if m == n {
    } else {
      ClockRuns(run, m, n - 1);
      assert run.Follows(n - 1);
      StepClock(run.states[n - 1], run.requests[n - 1]);
    }
  }

  /******* Attempt bound *******/

  /** The request hands task `t` to a worker. */
  predicate ClaimsTask(e: Event, t: TaskId) {
    e.Claim? && e.pick == Some(t)
  }

  predicate ClaimedAt(run: Run, t: TaskId, n: nat)
    requires n < |run.requests| <= |run.states|
  {
    run.Accepted(n) && ClaimsTask(run.requests[n].event, t)
  }

  /** How often `t` was handed out by the first `n` requests. */
  function ClaimCount(run: Run, t: TaskId, n: nat): nat
    requires n <= |run.requests| <= |run.states|
  {
    if n == 0 then 0
    else ClaimCount(run, t, n - 1) + if ClaimedAt(run, t, n - 1) then 1 else 0
  }

  function Attempts(s: State, t: TaskId): int {
    if t < |s.tasks| then s.tasks[t].attempts else 0
  }

  lemma StepAttempts(s: State, r: Request, t: TaskId)
    ensures Attempts(Step(s, r), t) == Attempts(s, t) + if Accepts(s, r) && ClaimsTask(r.event, t) then 1 else 0
  {
  }

  lemma {:induction false} AttemptsCountClaims(run: Run, t: TaskId, n: nat)
    requires run.Valid() && n <= |run.requests|
    ensures Attempts(run.states[n], t) == Attempts(run.states[0], t) + ClaimCount(run, t, n)
  {
    if n == 0 {
    } else {
      AttemptsCountClaims(run, t, n - 1);
      assert run.Follows(n - 1);
      StepAttempts(run.states[n - 1], run.requests[n - 1], t);
    }
  }

  predicate Defaults(t: Task) {
    t.priority == DEFAULT_PRIORITY && t.maxAttempts == DEFAULT_MAX_ATTEMPTS
  }

  lemma StepDefaults(s: State, r: Request)
    requires forall t :: 0 <= t < |s.tasks| ==> Defaults(s.tasks[t])
    ensures forall t :: 0 <= t < |Step(s, r).tasks| ==> Defaults(Step(s, r).tasks[t])
  {
  }

  lemma {:induction false} RunHasDefaults(run: Run, n: nat)
    requires run.Valid() && Init(run.states[0]) && n <= |run.requests|
    ensures forall t :: 0 <= t < |run.states[n].tasks| ==> Defaults(run.states[n].tasks[t])
  {
    if n == 0 {
    } else {
      RunHasDefaults(run, n - 1);
      assert run.Follows(n - 1);
      StepDefaults(run.states[n - 1], run.requests[n - 1]);
    }
  }

  /** No task is handed out more than max_attempts times, though a claim does not look at attempts. */
  lemma AttemptBound(run: Run, t: TaskId, n: nat)
    requires run.Valid() && Init(run.states[0]) && n <= |run.requests|
    ensures ClaimCount(run, t, n) <= DEFAULT_MAX_ATTEMPTS
    ensures t < |run.states[n].tasks| ==> run.states[n].tasks[t].attempts == ClaimCount(run, t, n)
    ensures IsQueued(run.states[n].tasks, t) ==> ClaimCount(run, t, n) < DEFAULT_MAX_ATTEMPTS
  {
    AttemptsCountClaims(run, t, n);
    InitRunKeepsInv(run, n);
    if t < |run.states[n].tasks| {
      assert TaskOk(run.states[n].tasks[t], run.states[n].now);
      RunHasDefaults(run, n);
    }
  }

  /** The sweep with its two updates the other way round. */
  function SwappedSweep(tasks: seq<Task>, now: Time): seq<Task> {
    ReclaimAll(ExhaustAll(tasks), now)
  }

  predicate NoneExhausted(tasks: seq<Task>) {
    forall i :: 0 <= i < |tasks| ==> !Exhausted(tasks[i])
  }

  /** The order of the sweep's updates matters exactly when a task's last attempt has expired. */
  lemma SweepOrderMatters(s: State, now: Time)
    requires TasksOk(s)
    ensures NoneExhausted(ExhaustAll(ReclaimAll(s.tasks, now)))
    ensures NoneExhausted(SwappedSweep(s.tasks, now)) <==>
      forall i :: 0 <= i < |s.tasks| && Expired(s.tasks[i], now) ==> s.tasks[i].attempts < s.tasks[i].maxAttempts
  {
  }

  /******* Fencing *******/

  /** The request moves the ownership of `t`: a claim, a requeue by fail, or a reclaim by the reaper. */
  predicate MovesOwner(s: State, r: Request, t: TaskId) {
    && Accepts(s, r)
    && (|| ClaimsTask(r.event, t)
        || (t < |s.tasks| && r.event.Fail? && r.event.task == t && s.tasks[t].attempts < s.tasks[t].maxAttempts)
        || (t < |s.tasks| && r.event.Reap? && Expired(s.tasks[t], r.time)))
  }

  predicate MovesOwnerAt(run: Run, t: TaskId, n: nat)
    requires n < |run.requests| <= |run.states|
  {
    MovesOwner(run.states[n], run.requests[n], t)
  }

  /** Calls only the owner of a task may make. */
  predicate OwnerCall(e: Event, w: WorkerId, t: TaskId) {
    match e
    case Heartbeat(v, u, _, _, _) => v == w && u == t
    case Complete(v, u, _) => v == w && u == t
    case Fail(v, u, _) => v == w && u == t
    case _ => false
  }

  predicate Owns(s: State, w: WorkerId, t: TaskId) {
    t < |s.tasks| && s.tasks[t].worker == Some(w)
  }

  /** After one request: a claim sets the owner, a requeue or reclaim clears it, nothing else touches it. */
  lemma StepOwner(s: State, r: Request, w: WorkerId, t: TaskId)
    requires Inv(s)
    ensures Owns(Step(s, r), w, t) <==>
      if !MovesOwner(s, r, t) then Owns(s, w, t) else ClaimsTask(r.event, t) && r.event.worker == w
  {
  }

  /** The request at `k` is the last one before `n` to move the ownership of `t`, and gives it to `w`. */
  predicate LastGrant(run: Run, w: WorkerId, t: TaskId, k: nat, n: nat)
    requires k < n <= |run.requests| <= |run.states|
  {
    && ClaimedAt(run, t, k) && run.requests[k].event.worker == w
    && forall j :: k < j < n ==> !MovesOwnerAt(run, t, j)
  }

  ghost predicate Granted(run: Run, w: WorkerId, t: TaskId, n: nat)
    requires n <= |run.requests| <= |run.states|
  {
    exists k: nat :: k < n && LastGrant(run, w, t, k, n)
  }

  lemma GrantedStep(run: Run, w: WorkerId, t: TaskId, n: nat)
    requires n < |run.requests| <= |run.states|
    ensures Granted(run, w, t, n + 1) <==>
      if !MovesOwnerAt(run, t, n) then Granted(run, w, t, n) else ClaimedAt(run, t, n) && run.requests[n].event.worker == w
  {
    assert LastGrant(run, w, t, n, n + 1) <==> ClaimedAt(run, t, n) && run.requests[n].event.worker == w;
    assert ClaimedAt(run, t, n) ==> MovesOwnerAt(run, t, n);
    if Granted(run, w, t, n + 1) {
      var k: nat :| k < n + 1 && LastGrant(run, w, t, k, n + 1);
      assert k < n ==> LastGrant(run, w, t, k, n) && !MovesOwnerAt(run, t, n);
    }
    if Granted(run, w, t, n) && !MovesOwnerAt(run, t, n) {
      var k: nat :| k < n && LastGrant(run, w, t, k, n);
      assert LastGrant(run, w, t, k, n + 1);
    }
  }

  /** A worker owns a task exactly when the latest ownership event of the task is its own claim. */
  lemma {:induction false} OwnerIsLastGrant(run: Run, w: WorkerId, t: TaskId, n: nat)
    requires run.Valid() && Init(run.states[0]) && n <= |run.requests|
    ensures Owns(run.states[n], w, t) <==> Granted(run, w, t, n)
  {
    if n == 0 {
    } else {
      OwnerIsLastGrant(run, w, t, n - 1);
      InitRunKeepsInv(run, n - 1);
      assert run.Follows(n - 1);
      StepOwner(run.states[n - 1], run.requests[n - 1], w, t);
      GrantedStep(run, w, t, n - 1);
    }
  }

  /** Fencing: an accepted heartbeat, complete or fail comes from the worker of the task's latest claim. */
  lemma Fenced(run: Run, w: WorkerId, t: TaskId, n: nat)
    requires run.Valid() && Init(run.states[0]) && n < |run.requests|
    requires run.Accepted(n) && OwnerCall(run.requests[n].event, w, t)
    ensures Granted(run, w, t, n)
  {
    OwnerIsLastGrant(run, w, t, n);
  }

  lemma {:induction false} StaysDisowned(run: Run, w: WorkerId, t: TaskId, m: nat, n: nat)
    requires run.Valid() && Inv(run.states[0]) && m <= n <= |run.requests|
    requires !Owns(run.states[m], w, t)
    requires forall j :: m <= j < n && ClaimedAt(run, t, j) ==> run.requests[j].event.worker != w
    ensures !Owns(run.states[n], w, t)
  {
    if m == n {
    } else {
      StaysDisowned(run, w, t, m, n - 1);
      RunKeepsInv(run, n - 1);
      assert run.Follows(n - 1);
      StepOwner(run.states[n - 1], run.requests[n - 1], w, t);
      assert run.Accepted(n - 1) && ClaimsTask(run.requests[n - 1].event, t) ==> ClaimedAt(run, t, n - 1);
    }
  }

  /** After another worker's claim, calls of a worker that has not claimed again change nothing but the clock. */
  lemma StaleWorkerIsFenced(run: Run, w: WorkerId, t: TaskId, m: nat, n: nat)
    requires run.Valid() && Inv(run.states[0]) && m < n < |run.requests|
    requires ClaimedAt(run, t, m) && run.requests[m].event.worker != w
    requires forall j :: m < j < n && ClaimedAt(run, t, j) ==> run.requests[j].event.worker != w
    requires OwnerCall(run.requests[n].event, w, t)
    ensures !run.Accepted(n)
    ensures run.states[n + 1] == run.states[n].(now := run.states[n + 1].now)
  {
    RunKeepsInv(run, m);
    assert run.Follows(m);
    StepOwner(run.states[m], run.requests[m], w, t);
    StaysDisowned(run, w, t, m + 1, n);
    assert run.Follows(n);
  }

  /******* Recovery *******/

  predicate OwnsRunning(s: State, w: WorkerId, t: TaskId) {
    Owns(s, w, t) && s.tasks[t].status.Running()
  }

  /** Right after a sweep no running task has a lease in the past. */
  lemma SweepClearsExpired(s: State, r: Request, t: TaskId)
    requires Inv(s) && Accepts(s, r) && r.event.Reap? && t < |s.tasks|
    ensures !Expired(Step(s, r).tasks[t], r.time)
    ensures Expired(s.tasks[t], r.time) ==>
      Step(s, r).tasks[t].status == (if s.tasks[t].attempts < s.tasks[t].maxAttempts then Queued else Failed)
  {
  }

  /** The calls that give `w` a fresh lease on `t`. */
  predicate Renews(s: State, r: Request, w: WorkerId, t: TaskId) {
    Accepts(s, r) && match r.event
                     case Claim(v, pick) => v == w && pick == Some(t)
                     case Heartbeat(v, u, _, _, _) => v == w && u == t
                     case _ => false
  }

  predicate RenewsAt(run: Run, w: WorkerId, t: TaskId, n: nat)
    requires n < |run.requests| <= |run.states|
  {
    Renews(run.states[n], run.requests[n], w, t)
  }

  /** From the `m`-th request on, `w` neither claims `t` nor sends an accepted heartbeat for it. */
  ghost predicate Silent(run: Run, w: WorkerId, t: TaskId, m: nat)
    requires m <= |run.requests| <= |run.states|
  {
    forall j :: m <= j < |run.requests| ==> !RenewsAt(run, w, t, j)
  }

  /** A renewal gives the worker the task for a full lease from the moment of the call. */
  lemma RenewalLasts(s: State, r: Request, w: WorkerId, t: TaskId)
    requires Renews(s, r, w, t)
    ensures Owns(Step(s, r), w, t) && Step(s, r).tasks[t].lease == Some(r.time + LEASE)
  {
  }

  /** A sweep leaves a task alone whose lease has not run out, and one without a lease that has attempts left. */
  lemma SweepSparesLive(s: State, r: Request, t: TaskId)
    requires Inv(s) && Accepts(s, r) && r.event.Reap? && t < |s.tasks|
    requires s.tasks[t].lease.Some? ==> r.time <= s.tasks[t].lease.value
    ensures Step(s, r).tasks[t] == s.tasks[t]
  {
    assert TaskOk(s.tasks[t], s.now);
  }

  /** The worker gives the task back by a failure that leaves it attempts. */
  predicate GivesBack(s: State, r: Request, w: WorkerId, t: TaskId) {
    && Accepts(s, r) && r.event.Fail? && r.event.worker == w && r.event.task == t
    && t < |s.tasks| && s.tasks[t].attempts < s.tasks[t].maxAttempts
  }

  predicate GivesBackAt(run: Run, w: WorkerId, t: TaskId, n: nat)
    requires n < |run.requests| <= |run.states|
  {
    GivesBack(run.states[n], run.requests[n], w, t)
  }

  predicate HoldsUntil(s: State, w: WorkerId, t: TaskId, until: Time) {
    Owns(s, w, t) && s.tasks[t].lease.Some? && until <= s.tasks[t].lease.value
  }

  /** Until a lease runs out no request takes the task from its owner or shortens the lease. */
  lemma StepHolds(s: State, r: Request, w: WorkerId, t: TaskId, until: Time)
    requires Inv(s) && HoldsUntil(s, w, t, until) && until <= s.now + LEASE
    requires Step(s, r).now <= until && !GivesBack(s, r, w, t)
    ensures HoldsUntil(Step(s, r), w, t, until)
  {
    assert TaskOk(s.tasks[t], s.now);
  }

  /** A claim or heartbeat secures the task to its worker for the whole lease, unless the worker itself gives it back. */
  lemma {:induction false} LeaseProtects(run: Run, w: WorkerId, t: TaskId, k: nat, n: nat)
    requires run.Valid() && Inv(run.states[0]) && k < n <= |run.requests|
    requires RenewsAt(run, w, t, k)
    requires run.states[n].now <= run.requests[k].time + LEASE
    requires forall j :: k < j < n ==> !GivesBackAt(run, w, t, j)
    ensures HoldsUntil(run.states[n], w, t, run.requests[k].time + LEASE)
  {
    var until := run.requests[k].time + LEASE;
    assert run.Follows(n - 1);
    if n == k + 1 {
      RenewalLasts(run.states[k], run.requests[k], w, t);
    } else {
      StepClock(run.states[n - 1], run.requests[n - 1]);
      LeaseProtects(run, w, t, k, n - 1);
      RunKeepsInv(run, n - 1);
      assert run.Follows(k);
      StepClock(run.states[k], run.requests[k]);
      ClockRuns(run, k + 1, n - 1);
      assert !GivesBackAt(run, w, t, n - 1);
      StepHolds(run.states[n - 1], run.requests[n - 1], w, t, until);
    }
  }

  predicate ManifestsTask(s: State, r: Request, t: TaskId) {
    Accepts(s, r) && r.event.Manifest? && r.event.task == t
  }

  predicate ManifestedAt(run: Run, t: TaskId, n: nat)
    requires n < |run.requests| <= |run.states|
  {
    ManifestsTask(run.states[n], run.requests[n], t)
  }

  /** Without a renewal by its owner a lease stays where it was, and only a manifest sets the task running. */
  lemma StepLease(s: State, r: Request, w: WorkerId, t: TaskId)
    requires !Renews(s, r, w, t) && Owns(Step(s, r), w, t)
    ensures Owns(s, w, t) && Step(s, r).tasks[t].lease == s.tasks[t].lease
    ensures OwnsRunning(Step(s, r), w, t) ==> OwnsRunning(s, w, t) || ManifestsTask(s, r, t)
  {
  }

  lemma {:induction false} LeaseRunsOut(run: Run, w: WorkerId, t: TaskId, m: nat, n: nat)
    requires run.Valid() && Inv(run.states[0]) && m <= n <= |run.requests| && Silent(run, w, t, m)
    requires Owns(run.states[n], w, t)
    ensures run.states[n].tasks[t].lease.Some?
    ensures run.states[n].tasks[t].lease.value <= run.states[m].now + LEASE
  {
    if m < n {
      assert run.Follows(n - 1) && !RenewsAt(run, w, t, n - 1);
      StepLease(run.states[n - 1], run.requests[n - 1], w, t);
      LeaseRunsOut(run, w, t, m, n - 1);
    } else {
      RunKeepsInv(run, n);
      assert TaskOk(run.states[n].tasks[t], run.states[n].now);
    }
  }

  predicate SweptAt(run: Run, n: nat)
    requires n < |run.requests| <= |run.states|
  {
    run.Accepted(n) && run.requests[n].event.Reap?
  }

  /** A sweep later than a silent worker's lease takes the task away; only a manifest can set it running again. */
  lemma {:induction false} SweepTakesTask(run: Run, w: WorkerId, t: TaskId, m: nat, k: nat, n: nat)
    requires run.Valid() && Inv(run.states[0]) && m <= k < n <= |run.requests| && Silent(run, w, t, m)
    requires SweptAt(run, k) && run.states[m].now + LEASE < run.requests[k].time
    requires OwnsRunning(run.states[n], w, t)
    ensures exists j :: k < j < n && ManifestedAt(run, t, j)
  {
    assert run.Follows(n - 1) && !RenewsAt(run, w, t, n - 1);
    StepLease(run.states[n - 1], run.requests[n - 1], w, t);
    if k < n - 1 {
      if !ManifestedAt(run, t, n - 1) {
        SweepTakesTask(run, w, t, m, k, n - 1);
      }
    } else {
      LeaseRunsOut(run, w, t, m, k);
      RunKeepsInv(run, k);
      SweepClearsExpired(run.states[k], run.requests[k], t);
    }
  }

  /** A sweep comes later than `after` and not more than `period` later. */
  predicate SweptWithin(run: Run, after: Time, period: Time)
    requires |run.requests| <= |run.states|
  {
    exists k :: 0 <= k < |run.requests| && SweptAt(run, k) && after < run.requests[k].time <= after + period
  }

  /** Every stretch of `period` between the start and the end of the run holds a sweep. */
  ghost predicate SweptEvery(run: Run, period: Time)
    requires |run.states| == |run.requests| + 1
  {
    forall a: Time :: run.states[0].now <= a && a + period <= run.states[|run.requests|].now ==> SweptWithin(run, a, period)
  }

  /** Bounded recovery: silent since `T`, a worker has lost its running task by `T + LEASE + period`. */
  lemma BoundedRecovery(run: Run, w: WorkerId, t: TaskId, m: nat, period: Time)
    requires run.Valid() && Inv(run.states[0]) && m <= |run.requests|
    requires Silent(run, w, t, m) && SweptEvery(run, period)
    requires run.states[m].now + LEASE + period <= run.states[|run.requests|].now
    requires OwnsRunning(run.states[|run.requests|], w, t)
    ensures exists j :: m < j < |run.requests| && ManifestedAt(run, t, j)
                        && run.states[m].now + LEASE < run.requests[j].time
  {
    var deadline := run.states[m].now + LEASE;
    ClockRuns(run, 0, m);
    assert SweptWithin(run, deadline, period);
    var k :| 0 <= k < |run.requests| && SweptAt(run, k) && deadline < run.requests[k].time <= deadline + period;
    if k < m {
      assert run.Follows(k);
      StepClock(run.states[k], run.requests[k]);
      ClockRuns(run, k + 1, m);
    }
    SweepTakesTask(run, w, t, m, k, |run.requests|);
    var j :| k < j < |run.requests| && ManifestedAt(run, t, j);
    assert run.Follows(k);
    StepClock(run.states[k], run.requests[k]);
    ClockRuns(run, k + 1, j);
  }

  /** The reaper's pause between sweeps. */
  const REAPER_SLEEP: Time := 60 * 1_000_000

  /**
   `sweeps` are the positions of the reaper loop's sweeps: each at most a pause and `delay` after the one before,
   the first that soon after the start of the run, and the run not going on longer than that after the last.
   */
  ghost predicate ReaperLoop(run: Run, sweeps: seq<nat>, delay: Time)
    requires |run.states| == |run.requests| + 1
  {
    && sweeps != []
    && (forall i :: 0 <= i < |sweeps| ==> sweeps[i] < |run.requests| && SweptAt(run, sweeps[i]))
    && run.requests[sweeps[0]].time <= run.states[0].now + REAPER_SLEEP + delay
    && (forall i :: 0 < i < |sweeps| ==> run.requests[sweeps[i]].time <= run.requests[sweeps[i - 1]].time + REAPER_SLEEP + delay)
    && run.states[|run.requests|].now < run.requests[sweeps[|sweeps| - 1]].time + REAPER_SLEEP + delay
  }

  /** The first sweep of the loop after `a` comes within one period. */
  lemma {:induction false} NextSweep(run: Run, sweeps: seq<nat>, delay: Time, a: Time, i: nat)
    requires run.Valid() && ReaperLoop(run, sweeps, delay) && i < |sweeps|
    requires run.requests[sweeps[i]].time <= a + REAPER_SLEEP + delay
    requires a + REAPER_SLEEP + delay <= run.states[|run.requests|].now
    ensures SweptWithin(run, a, REAPER_SLEEP + delay)
    decreases |sweeps| - i
  {
    if run.requests[sweeps[i]].time <= a {
      NextSweep(run, sweeps, delay, a, i + 1);
    } else {
      assert SweptAt(run, sweeps[i]);
    }
  }

  /** The reaper loop sweeps often enough for bounded recovery. */
  lemma ReaperLoopSweepsEvery(run: Run, sweeps: seq<nat>, delay: Time)
    requires run.Valid() && ReaperLoop(run, sweeps, delay)
    ensures SweptEvery(run, REAPER_SLEEP + delay)
  {
    var period := REAPER_SLEEP + delay;
    forall a: Time | run.states[0].now <= a && a + period <= run.states[|run.requests|].now
      ensures SweptWithin(run, a, period)
    {
      NextSweep(run, sweeps, delay, a, 0);
    }
  }

  /******* Stuck and revived tasks *******/

  predicate Orphan(t: Task) {
    t.status.Downloading? && t.worker.None?
  }

  /** A step makes an orphan exactly when a manifest is accepted for an unowned task, and never ends one. */
  lemma StepOrphan(s: State, r: Request, t: TaskId)
    requires Inv(s) && t < |s.tasks|
    ensures t < |Step(s, r).tasks|
    ensures Orphan(Step(s, r).tasks[t]) <==> Orphan(s.tasks[t]) || (s.tasks[t].worker.None? && ManifestsTask(s, r, t))
  {
  }

  /** A task that is downloading without an owner stays so in every run: no claim, sweep or cancel reaches it. */
  lemma {:induction false} OrphanForever(run: Run, t: TaskId, m: nat, n: nat)
    requires run.Valid() && Inv(run.states[0]) && m <= n <= |run.requests|
    requires t < |run.states[m].tasks| && Orphan(run.states[m].tasks[t])
    ensures t < |run.states[n].tasks| && Orphan(run.states[n].tasks[t])
  {
    if m == n {
    } else {
      OrphanForever(run, t, m, n - 1);
      RunKeepsInv(run, n - 1);
      assert run.Follows(n - 1);
      StepOrphan(run.states[n - 1], run.requests[n - 1], t);
    }
  }

  predicate Lists(listed: seq<Listed>, path: string) {
    exists i :: 0 <= i < |listed| && listed[i].path == path
  }

  predicate HasPath(files: seq<TaskFile>, path: string) {
    exists i :: 0 <= i < |files| && files[i].path == path
  }

  predicate Relists(r: Request, t: TaskId, path: string) {
    r.event.Manifest? && r.event.task == t && Lists(r.event.listed, path)
  }

  lemma ManifestAddsPaths(s: State, r: Request, t: TaskId, path: string)
    requires Accepts(s, r) && Relists(r, t, path)
    ensures t < |Step(s, r).tasks| && HasPath(Step(s, r).tasks[t].files, path)
  {
    var listed := r.event.listed;
    var i :| 0 <= i < |listed| && listed[i].path == path;
    assert Step(s, r).tasks[t].files[|s.tasks[t].files| + i].path == path;
  }

  lemma ListedTwice(t: Task, listed: seq<Listed>, path: string)
    requires HasPath(t.files, path) && Lists(listed, path)
    ensures !DistinctPaths(t.files + NewFiles(t, listed))
  {
    var i :| 0 <= i < |t.files| && t.files[i].path == path;
    var j :| 0 <= j < |listed| && listed[j].path == path;
    var all := t.files + NewFiles(t, listed);
    assert all[i].path == all[|t.files| + j].path;
  }

  lemma KnownPathAborts(s: State, r: Request, t: TaskId, path: string)
    requires t < |s.tasks| && HasPath(s.tasks[t].files, path) && Relists(r, t, path)
    ensures Respond(s, r.time, r.event) == IntegrityError
  {
    ListedTwice(s.tasks[t], r.event.listed, path);
  }

  lemma PathsStay(run: Run, t: TaskId, path: string, m: nat, n: nat)
    requires run.Valid() && m <= n <= |run.requests| && t < |run.states[m].tasks|
    requires HasPath(run.states[m].tasks[t].files, path)
    ensures t < |run.states[n].tasks| && HasPath(run.states[n].tasks[t].files, path)
  {
    RunFrame(run, t, m, n);
    var files, files' := run.states[m].tasks[t].files, run.states[n].tasks[t].files;
    var i :| 0 <= i < |files| && files[i].path == path;
    assert files'[i].path == path;
  }

  /** A path once listed for a task can never be listed for it again: a retried task cannot repeat its manifest. */
  lemma RepeatedManifestAborts(run: Run, t: TaskId, path: string, m: nat, n: nat)
    requires run.Valid() && m < n < |run.requests|
    requires run.Accepted(m) && Relists(run.requests[m], t, path) && Relists(run.requests[n], t, path)
    ensures Respond(run.states[n], run.requests[n].time, run.requests[n].event) == IntegrityError
  {
    assert run.Follows(m);
    ManifestAddsPaths(run.states[m], run.requests[m], t, path);
    PathsStay(run, t, path, m + 1, n);
    KnownPathAborts(run.states[n], run.requests[n], t, path);
  }

  predicate PathKnown(s: State, t: TaskId, path: string) {
    t < |s.tasks| && HasPath(s.tasks[t].files, path)
  }

  lemma NoOtherPaths(s: State, r: Request, t: TaskId, path: string)
    requires PathKnown(Step(s, r), t, path)
    ensures PathKnown(s, t, path) || (Accepts(s, r) && Relists(r, t, path))
  {
    var files' := Step(s, r).tasks[t].files;
    var i :| 0 <= i < |files'| && files'[i].path == path;
    if t < |s.tasks| && i < |s.tasks[t].files| {
      StepFrame(s, r, t);
      assert s.tasks[t].files[i].path == path;
    } else {
      assert r.event.listed[i - |s.tasks[t].files|].path == path;
    }
  }

  /** A request makes a path known for a task exactly by being an accepted manifest that lists it. */
  lemma StepPaths(s: State, r: Request, t: TaskId, path: string)
    ensures PathKnown(Step(s, r), t, path) <==> PathKnown(s, t, path) || (Accepts(s, r) && Relists(r, t, path))
  {
    if PathKnown(s, t, path) {
      StepFrame(s, r, t);
      var i :| 0 <= i < |s.tasks[t].files| && s.tasks[t].files[i].path == path;
      assert Step(s, r).tasks[t].files[i].path == path;
    }
    if Accepts(s, r) && Relists(r, t, path) {
      ManifestAddsPaths(s, r, t, path);
    }
    if PathKnown(Step(s, r), t, path) {
      NoOtherPaths(s, r, t, path);
    }
  }

  predicate ListsAt(run: Run, t: TaskId, path: string, n: nat)
    requires n < |run.requests| <= |run.states|
  {
    run.Accepted(n) && Relists(run.requests[n], t, path)
  }

  /** One of the first `n` requests was an accepted manifest of the task that listed the path. */
  ghost predicate ListedBefore(run: Run, t: TaskId, path: string, n: nat)
    requires n <= |run.requests| <= |run.states|
  {
    exists j :: 0 <= j < n && ListsAt(run, t, path, j)
  }

  /** The file rows of a task are those its accepted manifests have listed, whatever else has happened. */
  lemma {:induction false} PathsAreListed(run: Run, t: TaskId, path: string, n: nat)
    requires run.Valid() && Init(run.states[0]) && n <= |run.requests|
    ensures PathKnown(run.states[n], t, path) <==> ListedBefore(run, t, path, n)
  {
    if n == 0 {
    } else {
      PathsAreListed(run, t, path, n - 1);
      assert run.Follows(n - 1);
      StepPaths(run.states[n - 1], run.requests[n - 1], t, path);
      assert ListsAt(run, t, path, n - 1) <==> run.Accepted(n - 1) && Relists(run.requests[n - 1], t, path);
      assert ListedBefore(run, t, path, n) <==> ListedBefore(run, t, path, n - 1) || ListsAt(run, t, path, n - 1);
    }
  }

  predicate DistinctListed(listed: seq<Listed>) {
    forall i, j :: 0 <= i < j < |listed| ==> listed[i].path != listed[j].path
  }

  /** The rows with the listed ones added have distinct paths exactly when the list repeats none, old or new. */
  lemma DistinctTogether(t: Task, listed: seq<Listed>)
    requires DistinctPaths(t.files)
    ensures DistinctPaths(t.files + NewFiles(t, listed)) <==>
      DistinctListed(listed) && forall path :: Lists(listed, path) ==> !HasPath(t.files, path)
  {
    var all := t.files + NewFiles(t, listed);
    if DistinctPaths(all) {
      forall path | Lists(listed, path) ensures !HasPath(t.files, path) {
        if HasPath(t.files, path) {
          ListedTwice(t, listed, path);
        }
      }
      forall i, j | 0 <= i < j < |listed| ensures listed[i].path != listed[j].path {
        assert all[|t.files| + i].path != all[|t.files| + j].path;
      }
    }
    if DistinctListed(listed) && forall path :: Lists(listed, path) ==> !HasPath(t.files, path) {
      forall i, j | 0 <= i < |t.files| && 0 <= j < |listed| ensures t.files[i].path != listed[j].path {
        assert Lists(listed, listed[j].path);
      }
    }
  }

  /**
   A manifest of an existing task is accepted exactly when its paths differ from each other and from all that
   accepted manifests of the task listed before; otherwise it is aborted. Retries make no difference.
   */
  lemma ManifestAcceptedExactly(run: Run, t: TaskId, n: nat)
    requires run.Valid() && Init(run.states[0]) && n < |run.requests|
    requires run.requests[n].event.Manifest? && run.requests[n].event.task == t < |run.states[n].tasks|
    ensures var listed := run.requests[n].event.listed;
      Respond(run.states[n], run.requests[n].time, run.requests[n].event) ==
        if DistinctListed(listed) && forall path :: Lists(listed, path) ==> !ListedBefore(run, t, path, n) then Verdict.Ok
        else IntegrityError
  {
    InitRunKeepsInv(run, n);
    assert TaskOk(run.states[n].tasks[t], run.states[n].now);
    DistinctTogether(run.states[n].tasks[t], run.requests[n].event.listed);
    forall path ensures HasPath(run.states[n].tasks[t].files, path) <==> ListedBefore(run, t, path, n) {
      PathsAreListed(run, t, path, n);
    }
  }

  /** A request takes a task out of a terminal status exactly in these cases. */
  lemma LeavesTerminal(s: State, r: Request, t: TaskId)
    requires Inv(s) && t < |s.tasks| && s.tasks[t].status.Terminal()
    ensures Step(s, r).tasks[t].status != s.tasks[t].status <==>
      Accepts(s, r) && match r.event
                       case Manifest(u, _) => u == t
                       case Complete(_, u, _) => u == t && !s.tasks[t].status.Completed?
                       case Fail(_, u, _) => u == t && (s.tasks[t].attempts < s.tasks[t].maxAttempts || !s.tasks[t].status.Failed?)
                       case _ => false
  {
  }

  predicate EndedUnowned(t: Task) {
    t.status.Terminal() && t.worker.None?
  }

  lemma StepEndedUnowned(s: State, r: Request, t: TaskId)
    requires Inv(s) && t < |s.tasks| && EndedUnowned(s.tasks[t])
    ensures Step(s, r).tasks[t] == s.tasks[t] || ManifestsTask(s, r, t)
  {
  }

  /** A task that ended without an owner never changes again unless a manifest is accepted for it. */
  lemma {:induction false} UnownedEndIsFinal(run: Run, t: TaskId, m: nat, n: nat)
    requires run.Valid() && Inv(run.states[0]) && m <= n <= |run.requests|
    requires t < |run.states[m].tasks| && EndedUnowned(run.states[m].tasks[t])
    requires forall j :: m <= j < n ==> !ManifestedAt(run, t, j)
    ensures t < |run.states[n].tasks| && run.states[n].tasks[t] == run.states[m].tasks[t]
  {
    if m == n {
    } else {
      UnownedEndIsFinal(run, t, m, n - 1);
      RunKeepsInv(run, n - 1);
      assert run.Follows(n - 1) && !ManifestedAt(run, t, n - 1);
      StepFrame(run.states[n - 1], run.requests[n - 1], t);
      StepEndedUnowned(run.states[n - 1], run.requests[n - 1], t);
    }
  }
}
