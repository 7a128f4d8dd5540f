/** How often other tasks can be handed out while a task waits in the queue. */
module Fairness {
  import opened Model
  import opened Handlers
  import opened Invariants
  import opened Leases
  import opened Sums

  /** The claim order may return `a` although a task of this priority and age is queued. */
  predicate MayPrecede(a: Task, priority: int, createdAt: Time) {
    a.priority > priority || (a.priority == priority && a.createdAt <= createdAt)
  }

  /** The task is queued, or has an owner and may be queued again; without either it is never handed out again. */
  predicate MayBeHandedOut(a: Task) {
    a.status.Queued? || a.worker.Some?
  }

  /** How often each row that may precede the waiting task can still be handed out. */
  function Chances(priority: int, createdAt: Time): Task -> int {
    (a: Task) => if MayPrecede(a, priority, createdAt) && MayBeHandedOut(a) then a.maxAttempts - a.attempts else 0
  }

  /** The remaining attempts of all tasks that may precede `t`, other than `t` itself. */
  function ChancesAhead(s: State, t: TaskId): int
    requires t < |s.tasks|
  {
    var w := s.tasks[t];
    SumBy(s.tasks, Chances(w.priority, w.createdAt)) - (w.maxAttempts - w.attempts)
  }

  /** A task created now queues up strictly behind `w`. */
  predicate NewcomersBehind(w: Task, s: State, r: Request) {
    Accepts(s, r) && r.event.Create? ==> w.priority > DEFAULT_PRIORITY || (w.priority == DEFAULT_PRIORITY && w.createdAt < r.time)
  }

  predicate HandsOut(s: State, r: Request) {
    Accepts(s, r) && r.event.Claim? && r.event.pick.Some?
  }

  lemma ChancesNotNegative(s: State, t: TaskId)
    requires Inv(s) && IsQueued(s.tasks, t)
    ensures ChancesAhead(s, t) >= 0
  {
    var w := s.tasks[t];
    var f := Chances(w.priority, w.createdAt);
    forall i | 0 <= i < |s.tasks| ensures f(s.tasks[i]) >= 0 {
      assert TaskOk(s.tasks[i], s.now);
    }
    SumAtLeast(s.tasks, t, f);
  }

  /** Requests other than an accepted claim or creation leave the chances of every row alone. */
  lemma StepKeepsChances(s: State, r: Request, priority: int, createdAt: Time)
    requires TasksOk(s) && !HandsOut(s, r) && !(Accepts(s, r) && r.event.Create?)
    ensures SumBy(Step(s, r).tasks, Chances(priority, createdAt)) <= SumBy(s.tasks, Chances(priority, createdAt))
  {
    var f := Chances(priority, createdAt);
    assert |Step(s, r).tasks| == |s.tasks|;
    forall i | 0 <= i < |s.tasks| ensures f(Step(s, r).tasks[i]) <= f(s.tasks[i]) {
      assert TaskOk(s.tasks[i], s.now);
    }
    SumCompare(Step(s, r).tasks, f, s.tasks, f);
  }

  lemma ClaimUsesChance(s: State, r: Request, t: TaskId)
    requires HandsOut(s, r) && IsQueued(s.tasks, t) && r.event.pick != Some(t)
    ensures ChancesAhead(Step(s, r), t) == ChancesAhead(s, t) - 1
  {
    var i, w := r.event.pick.value, s.tasks[t];
    SumUpdate(s.tasks, i, ClaimRow(s.tasks[i], r.event.worker, r.time), Chances(w.priority, w.createdAt));
  }

  /** One step while `t` waits: handing out another task uses up a chance, and no chance is ever gained. */
  lemma StepOvertakes(s: State, r: Request, t: TaskId)
    requires TasksOk(s) && IsQueued(s.tasks, t) && IsQueued(Step(s, r).tasks, t)
    requires NewcomersBehind(s.tasks[t], s, r)
    ensures ChancesAhead(Step(s, r), t) + (if HandsOut(s, r) then 1 else 0) <= ChancesAhead(s, t)
  {
    StepFrame(s, r, t);
    StepAttempts(s, r, t);
    var w := s.tasks[t];
    if HandsOut(s, r) {
      ClaimUsesChance(s, r, t);
    } else if Accepts(s, r) && r.event.Create? {
      var row := NewTask(r.event.user, r.event.release, s.releases[r.event.release], r.time);
      SumAppend(s.tasks, row, Chances(w.priority, w.createdAt));
    } else {
      StepKeepsChances(s, r, w.priority, w.createdAt);
    }
  }

  predicate HandsOutAt(run: Run, n: nat)
    requires n < |run.requests| <= |run.states|
  {
    HandsOut(run.states[n], run.requests[n])
  }

  /** How many tasks the requests from `m` up to `n` hand out. */
  function HandedOut(run: Run, m: nat, n: nat): nat
    requires m <= n <= |run.requests| <= |run.states|
  {
    if m == n then 0 else HandedOut(run, m, n - 1) + if HandsOutAt(run, n - 1) then 1 else 0
  }

  /** `t` stays queued from state `m` to state `n`, and the tasks created meanwhile queue up behind it. */
  ghost predicate Waits(run: Run, t: TaskId, m: nat, n: nat)
    requires m <= n <= |run.requests| < |run.states|
  {
    && (forall k {:trigger run.states[k]} :: m <= k <= n ==> IsQueued(run.states[k].tasks, t))
    && forall k :: m <= k < n ==> NewcomersBehind(run.states[m].tasks[t], run.states[k], run.requests[k])
  }

  lemma {:induction false} WaitingUsesChances(run: Run, t: TaskId, m: nat, n: nat)
    requires run.Valid() && Inv(run.states[0]) && m <= n <= |run.requests|
    requires Waits(run, t, m, n)
    ensures ChancesAhead(run.states[n], t) + HandedOut(run, m, n) <= ChancesAhead(run.states[m], t)
  {
    if m == n {
    } else {
      WaitingUsesChances(run, t, m, n - 1);
      RunFrame(run, t, m, n - 1);
      RunKeepsInv(run, n - 1);
      assert run.Follows(n - 1);
      StepOvertakes(run.states[n - 1], run.requests[n - 1], t);
    }
  }

  /**
   Bounded overtaking: while `t` waits, no more tasks are handed out than the tasks that may precede it
   had attempts left, whatever fails, reclaims, cancels and new tasks happen in between.
   */
  lemma BoundedOvertaking(run: Run, t: TaskId, m: nat, n: nat)
    requires run.Valid() && Inv(run.states[0]) && m <= n <= |run.requests|
    requires Waits(run, t, m, n)
    ensures HandedOut(run, m, n) <= ChancesAhead(run.states[m], t)
  {
    WaitingUsesChances(run, t, m, n);
    RunKeepsInv(run, n);
    ChancesNotNegative(run.states[n], t);
  }
}
