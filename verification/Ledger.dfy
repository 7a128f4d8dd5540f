/** Byte accounting over whole runs: reservations, used bytes and the quota a creation was checked against. */
module Ledger {
  import opened Model
  import opened Handlers
  import opened Invariants
  import opened Sums
  import opened Leases

  /******* Reservations *******/

  lemma StepReservation(s: State, r: Request, t: TaskId)
    requires t < |s.tasks|
    ensures Step(s, r).tasks[t].reserved <= Max(s.tasks[t].reserved, 0)
  {
  }

  /** A reservation never rises after the task is created; only a negative one can come back up, to zero. */
  lemma {:induction false} ReservationNeverRises(run: Run, t: TaskId, m: nat, n: nat)
    requires run.Valid() && m <= n <= |run.requests| && t < |run.states[m].tasks|
    ensures t < |run.states[n].tasks| && run.states[n].tasks[t].reserved <= Max(run.states[m].tasks[t].reserved, 0)
  {
    if m == n {
    } else {
      ReservationNeverRises(run, t, m, n - 1);
      assert run.Follows(n - 1);
      StepFrame(run.states[n - 1], run.requests[n - 1], t);
      StepReservation(run.states[n - 1], run.requests[n - 1], t);
    }
  }

  function HeldBy(user: UserId): Task -> int {
    (t: Task) => if t.user == user then t.reserved else 0
  }

  /** Finished tasks hold nothing, so the sum over active tasks is the sum over all tasks. */
  lemma ReservedIsAllHeld(s: State, user: UserId)
    requires Inv(s)
    ensures ReservedBytes(s, user) == SumBy(s.tasks, HeldBy(user))
  {
    forall i | 0 <= i < |s.tasks| ensures ReservedBy(user)(s.tasks[i]) == HeldBy(user)(s.tasks[i]) {
      assert TaskOk(s.tasks[i], s.now);
    }
    SumCompare(s.tasks, ReservedBy(user), s.tasks, HeldBy(user));
    SumCompare(s.tasks, HeldBy(user), s.tasks, ReservedBy(user));
  }

  /** No reservation of the user is negative. */
  ghost predicate Solvent(s: State, user: UserId) {
    forall i :: 0 <= i < |s.tasks| && s.tasks[i].user == user ==> s.tasks[i].reserved >= 0
  }

  /** The sizes the request brings in add up to something that is not negative. */
  predicate Sized(s: State, r: Request) {
    match r.event
    case Create(_, rel) => rel < |s.releases| ==> s.releases[rel].sizeBytes >= 0
    case Manifest(_, listed) => TotalSize(listed) >= 0
    case _ => true
  }

  lemma StepKeepsSolvent(s: State, r: Request, user: UserId)
    requires Solvent(s, user) && Sized(s, r)
    ensures Solvent(Step(s, r), user)
  {
  }

  predicate SizedAt(run: Run, n: nat)
    requires n < |run.requests| <= |run.states|
  {
    Sized(run.states[n], run.requests[n])
  }

  lemma {:induction false} RunKeepsSolvent(run: Run, user: UserId, n: nat)
    requires run.Valid() && Init(run.states[0]) && n <= |run.requests|
    requires forall k :: 0 <= k < n ==> SizedAt(run, k)
    ensures Solvent(run.states[n], user)
  {
    if n == 0 {
    } else {
      RunKeepsSolvent(run, user, n - 1);
      assert run.Follows(n - 1) && SizedAt(run, n - 1);
      StepKeepsSolvent(run.states[n - 1], run.requests[n - 1], user);
    }
  }

  /******* The quota over a run *******/

  function Committed(s: State, user: UserId): int {
    UsedBytes(s, user) + ReservedBytes(s, user)
  }

  /** Uploaded bytes plus the reservation where it is not negative. */
  function Footprint(user: UserId): Task -> int {
    (t: Task) => if t.user == user then UploadedBytes(t.files) + Max(t.reserved, 0) else 0
  }

  function Exposure(s: State, user: UserId): int {
    SumBy(s.tasks, Footprint(user))
  }

  /******* Conservation *******/

  function Account(user: UserId): Task -> int {
    (t: Task) => if t.user == user then UploadedBytes(t.files) + t.reserved else 0
  }

  lemma CommittedIsAccount(s: State, user: UserId)
    requires Inv(s)
    ensures Committed(s, user) == SumBy(s.tasks, Account(user))
  {
    ReservedIsAllHeld(s, user);
    SumAdd(s.tasks, UsedBy(user), HeldBy(user), Account(user));
  }

  /** What a sweep at `now` takes from the user: the reservation of a task whose last attempt has expired. */
  function LostBy(user: UserId, now: Time): Task -> int {
    (t: Task) => if t.user == user && Expired(t, now) && t.attempts >= t.maxAttempts then t.reserved else 0
  }

  /** What a request adds to the user's used plus reserved bytes. */
  function Entry(s: State, r: Request, user: UserId): int {
    if !Accepts(s, r) then 0
    else
      match r.event
      case Create(u, rel) => if u == user then s.releases[rel].sizeBytes else 0
      case Cancel(u, t) => if u == user then -s.tasks[t].reserved else 0
      case Manifest(t, listed) =>
        if s.tasks[t].user == user then Min(s.tasks[t].reserved, TotalSize(listed)) - s.tasks[t].reserved else 0
      case Complete(_, t, reports) =>
        if s.tasks[t].user == user then
          UploadedBytes(TouchFiles(s.tasks[t].files, reports, r.time)) - UploadedBytes(s.tasks[t].files) - s.tasks[t].reserved
        else 0
      case Fail(_, t, _) =>
        if s.tasks[t].user == user && s.tasks[t].attempts >= s.tasks[t].maxAttempts then -s.tasks[t].reserved else 0
      case Reap => -SumBy(s.tasks, LostBy(user, r.time))
      case _ => 0
  }

  lemma SweepBalances(s: State, r: Request, user: UserId)
    requires Inv(s) && Accepts(s, r) && r.event.Reap?
    ensures SumBy(Step(s, r).tasks, Account(user)) == SumBy(s.tasks, Account(user)) - SumBy(s.tasks, LostBy(user, r.time))
  {
    var tasks' := Step(s, r).tasks;
    var kept := (t: Task) => Account(user)(t) - LostBy(user, r.time)(t);
    forall i | 0 <= i < |s.tasks| ensures Account(user)(tasks'[i]) == kept(s.tasks[i]) {
      assert TaskOk(s.tasks[i], s.now);
    }
    SumCompare(tasks', Account(user), s.tasks, kept);
    SumCompare(s.tasks, kept, tasks', Account(user));
    SumAdd(s.tasks, kept, LostBy(user, r.time), Account(user));
  }

  /** Changing one row changes the sum by the change of that row. */
  lemma RowBalances(s: State, r: Request, user: UserId, t: TaskId)
    requires Accepts(s, r) && Target(r.event) == Some(t) && t < |s.tasks|
    ensures SumBy(Step(s, r).tasks, Account(user)) ==
      SumBy(s.tasks, Account(user)) - Account(user)(s.tasks[t]) + Account(user)(Step(s, r).tasks[t])
  {
    assert Step(s, r).tasks == s.tasks[t := Step(s, r).tasks[t]];
    SumUpdate(s.tasks, t, Step(s, r).tasks[t], Account(user));
  }

  lemma RowEntry(s: State, r: Request, user: UserId, t: TaskId)
    requires Accepts(s, r) && Target(r.event) == Some(t) && t < |s.tasks|
    ensures Account(user)(Step(s, r).tasks[t]) - Account(user)(s.tasks[t]) == Entry(s, r, user)
  {
    if r.event.Manifest? {
      ManifestUploadsNothing(s.tasks[t], r.event.listed);
    }
  }

  lemma StepBalances(s: State, r: Request, user: UserId)
    requires Inv(s) && Accepts(s, r)
    ensures SumBy(Step(s, r).tasks, Account(user)) == SumBy(s.tasks, Account(user)) + Entry(s, r, user)
  {
    if r.event.Create? {
      SumAppend(s.tasks, NewTask(r.event.user, r.event.release, s.releases[r.event.release], r.time), Account(user));
    } else if r.event.Reap? {
      SweepBalances(s, r, user);
    } else if Target(r.event).Some? {
      RowBalances(s, r, user, Target(r.event).value);
      RowEntry(s, r, user, Target(r.event).value);
    }
  }

  /** Every request moves the user's used plus reserved bytes by exactly its entry. */
  lemma LedgerBalances(s: State, r: Request, user: UserId)
    requires Inv(s)
    ensures Committed(Step(s, r), user) == Committed(s, user) + Entry(s, r, user)
  {
    if Accepts(s, r) {
      StepKeepsInv(s, r);
      CommittedIsAccount(s, user);
      CommittedIsAccount(Step(s, r), user);
      StepBalances(s, r, user);
    }
  }

  /** The entries of the first `n` requests of a run. */
  function Entries(run: Run, user: UserId, n: nat): int
    requires n <= |run.requests| <= |run.states|
  {
    if n == 0 then 0 else Entries(run, user, n - 1) + Entry(run.states[n - 1], run.requests[n - 1], user)
  }

  /** Conservation: the sums the quota service computes from the tables are the running total of the entries. */
  lemma {:induction false} RunBalances(run: Run, user: UserId, n: nat)
    requires run.Valid() && Init(run.states[0]) && n <= |run.requests|
    ensures Committed(run.states[n], user) == Entries(run, user, n)
  {
    if n == 0 {
    } else {
      RunBalances(run, user, n - 1);
      InitRunKeepsInv(run, n - 1);
      assert run.Follows(n - 1);
      LedgerBalances(run.states[n - 1], run.requests[n - 1], user);
    }
  }

  /******* The limit *******/

  /** What negative reservations take off the user's total. */
  function Shortfall(user: UserId): Task -> int {
    (t: Task) => if t.user == user then Max(-t.reserved, 0) else 0
  }

  function Debt(s: State, user: UserId): int {
    SumBy(s.tasks, Shortfall(user))
  }

  lemma ExposureIsCommittedPlusDebt(s: State, user: UserId)
    requires Inv(s)
    ensures Exposure(s, user) == Committed(s, user) + Debt(s, user)
    ensures Debt(s, user) >= 0
  {
    CommittedIsAccount(s, user);
    SumAdd(s.tasks, Account(user), Shortfall(user), Footprint(user));
    if s.tasks != [] {
      SumAtLeast(s.tasks, 0, Shortfall(user));
    }
  }

  lemma SolventOwesNothing(s: State, user: UserId)
    requires Solvent(s, user)
    ensures Debt(s, user) == 0
  {
    SumNothing(s.tasks, Shortfall(user));
  }

  predicate CreatesFor(s: State, r: Request, user: UserId) {
    Accepts(s, r) && r.event.Create? && r.event.user == user
  }

  /** What an accepted completion adds to the user's used bytes beyond what the task still has reserved. */
  function Overshoot(s: State, r: Request, user: UserId): nat {
    if Accepts(s, r) && r.event.Complete? && s.tasks[r.event.task].user == user then
      var t := s.tasks[r.event.task];
      Max(UploadedBytes(TouchFiles(t.files, r.event.reports, r.time)) - UploadedBytes(t.files) - Max(t.reserved, 0), 0)
    else 0
  }

  /** A file that a manifest adds is not uploaded yet. */
  lemma ManifestUploadsNothing(t: Task, listed: seq<Listed>)
    ensures UploadedBytes(ManifestRow(t, listed).files) == UploadedBytes(t.files)
  {
    SumConcat(t.files, NewFiles(t, listed), UploadedSize);
    SumNothing(NewFiles(t, listed), UploadedSize);
  }

  /** No row grows except by a completion that overshoots. */
  lemma StepFootprint(s: State, r: Request, user: UserId, i: TaskId)
    requires i < |s.tasks|
    ensures Footprint(user)(Step(s, r).tasks[i]) <= Footprint(user)(s.tasks[i])
      + if r.event.Complete? && r.event.task == i then Overshoot(s, r, user) else 0
  {
    StepFrame(s, r, i);
    if Accepts(s, r) && r.event.Manifest? && r.event.task == i {
      ManifestUploadsNothing(s.tasks[i], r.event.listed);
    }
  }

  lemma StepExposure(s: State, r: Request, user: UserId)
    requires !CreatesFor(s, r, user)
    ensures Exposure(Step(s, r), user) <= Exposure(s, user) + Overshoot(s, r, user)
  {
    var f := Footprint(user);
    if Accepts(s, r) && r.event.Create? {
      var row := NewTask(r.event.user, r.event.release, s.releases[r.event.release], r.time);
      SumAppend(s.tasks, row, f);
    } else if Accepts(s, r) && r.event.Complete? {
      var t := r.event.task;
      SumUpdate(s.tasks, t, CompleteRow(s.tasks[t], r.event.reports, r.time), f);
      StepFootprint(s, r, user, t);
    } else {
      var tasks' := Step(s, r).tasks;
      assert |tasks'| == |s.tasks|;
      forall i | 0 <= i < |s.tasks| ensures f(tasks'[i]) <= f(s.tasks[i]) {
        StepFootprint(s, r, user, i);
      }
      SumCompare(tasks', f, s.tasks, f);
    }
  }

  /** What a user may take up at `now`: the free plan's bytes after the expiry of a plan, else the stored quota. */
  function Allowance(user: User, now: Time): int {
    match user.planExpiresAt
    case None => user.quotaBytes
    case Some(expiry) => if expiry < now then PLANS["free"].quotaBytes else user.quotaBytes
  }

  /** A creation for a known user and release is accepted exactly when it fits, and refused for the quota otherwise. */
  lemma CreationAcceptedExactly(s: State, now: Time, user: UserId, release: ReleaseId)
    requires user < |s.users| && release < |s.releases|
    ensures Respond(s, now, Create(user, release)) ==
      if Committed(s, user) + s.releases[release].sizeBytes <= Allowance(s.users[user], now) then Verdict.Ok else QuotaExceeded
  {
  }

  /** The limit a creation was checked against. */
  function LimitAtCreation(s: State, r: Request): int
    requires Accepts(s, r) && r.event.Create?
  {
    Allowance(s.users[r.event.user], r.time)
  }

  /** Right after an accepted creation the user's bytes are within the limit it was checked against. */
  lemma CreationFits(s: State, r: Request, user: UserId)
    requires Inv(s) && CreatesFor(s, r, user)
    ensures Committed(Step(s, r), user) <= LimitAtCreation(s, r)
  {
    CreationAcceptedExactly(s, r.time, user, r.event.release);
  }

  predicate CreatesAt(run: Run, user: UserId, n: nat)
    requires n < |run.requests| <= |run.states|
  {
    CreatesFor(run.states[n], run.requests[n], user)
  }

  /** The overshoots of the user's completions from request `m` up to `n`. */
  function Overshoots(run: Run, user: UserId, m: nat, n: nat): nat
    requires m <= n <= |run.requests| <= |run.states|
  {
    if m == n then 0 else Overshoots(run, user, m, n - 1) + Overshoot(run.states[n - 1], run.requests[n - 1], user)
  }

  lemma {:induction false} ExposureGrowsByOvershoots(run: Run, user: UserId, m: nat, n: nat)
    requires run.Valid() && m <= n <= |run.requests|
    requires forall j :: m <= j < n ==> !CreatesAt(run, user, j)
    ensures Exposure(run.states[n], user) <= Exposure(run.states[m], user) + Overshoots(run, user, m, n)
  {
    if m == n {
    } else {
      ExposureGrowsByOvershoots(run, user, m, n - 1);
      assert run.Follows(n - 1) && !CreatesAt(run, user, n - 1);
      StepExposure(run.states[n - 1], run.requests[n - 1], user);
    }
  }

  /**
   Quota over a run: from the user's latest accepted creation at `k` on, used plus reserved bytes stay within the
   limit that creation was checked against, plus what completions reported beyond their reservations, plus the
   negative reservations that creation counted on; whatever happens to plans, stored quotas and tasks in between.
   */
  lemma QuotaHolds(run: Run, user: UserId, k: nat, n: nat)
    requires run.Valid() && Inv(run.states[0]) && k < n <= |run.requests|
    requires CreatesAt(run, user, k)
    requires forall j :: k < j < n ==> !CreatesAt(run, user, j)
    ensures Committed(run.states[n], user) <=
      LimitAtCreation(run.states[k], run.requests[k]) + Overshoots(run, user, k + 1, n) + Debt(run.states[k + 1], user)
  {
    RunKeepsInv(run, k);
    assert run.Follows(k);
    CreationFits(run.states[k], run.requests[k], user);
    RunKeepsInv(run, k + 1);
    ExposureIsCommittedPlusDebt(run.states[k + 1], user);
    ExposureGrowsByOvershoots(run, user, k + 1, n);
    RunKeepsInv(run, n);
    ExposureIsCommittedPlusDebt(run.states[n], user);
  }

  lemma {:induction false} NoOvershoots(run: Run, user: UserId, m: nat, n: nat)
    requires m <= n <= |run.requests| <= |run.states|
    requires forall j :: m <= j < n ==> Overshoot(run.states[j], run.requests[j], user) == 0
    ensures Overshoots(run, user, m, n) == 0
  {
    if m == n {
    } else {
      NoOvershoots(run, user, m, n - 1);
    }
  }

  /**
   The request takes more than the room left under the limit, which is none once it is passed. Only these can: a completion whose files grow by more
   than the reservation it frees and the room together, or a request that drops a negative reservation.
   */
  predicate Oversteps(s: State, r: Request, user: UserId, limit: int) {
    var room := Max(limit - Committed(s, user), 0);
    Accepts(s, r) && match r.event
                     case Complete(_, t, reports) =>
                       && s.tasks[t].user == user
                       && UploadedBytes(TouchFiles(s.tasks[t].files, reports, r.time)) - UploadedBytes(s.tasks[t].files)
                          - s.tasks[t].reserved > room
                     case Cancel(u, t) => u == user && -s.tasks[t].reserved > room
                     case Fail(_, t, _) =>
                       s.tasks[t].user == user && s.tasks[t].attempts >= s.tasks[t].maxAttempts && -s.tasks[t].reserved > room
                     case Reap => -SumBy(s.tasks, LostBy(user, r.time)) > room
                     case _ => false
  }

  /** A request other than a creation leads past the limit exactly when it oversteps. */
  lemma StepPassesLimit(s: State, r: Request, user: UserId, limit: int)
    requires Inv(s) && !CreatesFor(s, r, user) && Committed(s, user) <= limit
    ensures Committed(Step(s, r), user) > limit <==> Oversteps(s, r, user, limit)
  {
    LedgerBalances(s, r, user);
  }

  /** A user without negative reservations can be led past the limit by completions only. */
  lemma OnlyCompletionsOverstep(s: State, r: Request, user: UserId, limit: int)
    requires Solvent(s, user)
    ensures Oversteps(s, r, user, limit) ==> r.event.Complete?
  {
    var lost := LostBy(user, r.time);
    if s.tasks != [] {
      SumAtLeast(s.tasks, 0, lost);
    }
  }

  predicate OverstepsAt(run: Run, user: UserId, limit: int, n: nat)
    requires n < |run.requests| <= |run.states|
  {
    Oversteps(run.states[n], run.requests[n], user, limit)
  }

  predicate WithinAt(run: Run, user: UserId, limit: int, n: nat)
    requires n < |run.states|
  {
    Committed(run.states[n], user) <= limit
  }

  lemma StaysWithin(run: Run, user: UserId, limit: int, n: nat)
    requires run.Valid() && Inv(run.states[0]) && n < |run.requests|
    requires WithinAt(run, user, limit, n) && !CreatesAt(run, user, n)
    ensures WithinAt(run, user, limit, n + 1) <==> !OverstepsAt(run, user, limit, n)
  {
    RunKeepsInv(run, n);
    assert run.Follows(n);
    StepPassesLimit(run.states[n], run.requests[n], user, limit);
  }

  lemma {:induction false} AlwaysWithinExactly(run: Run, user: UserId, limit: int, m: nat, n: nat)
    requires run.Valid() && Inv(run.states[0]) && m <= n <= |run.requests|
    requires WithinAt(run, user, limit, m)
    requires forall j :: m <= j < n ==> !CreatesAt(run, user, j)
    ensures (forall j :: m <= j <= n ==> WithinAt(run, user, limit, j))
            <==> forall j :: m <= j < n ==> !OverstepsAt(run, user, limit, j)
  {
    if m == n {
    } else {
      AlwaysWithinExactly(run, user, limit, m, n - 1);
      if WithinAt(run, user, limit, n - 1) {
        StaysWithin(run, user, limit, n - 1);
      }
    }
  }

  /**
   The quota holds at every moment after the user's latest accepted creation exactly when no request since then
   oversteps the limit that creation was checked against.
   */
  lemma QuotaHoldsExactly(run: Run, user: UserId, k: nat, n: nat)
    requires run.Valid() && Inv(run.states[0]) && k < n <= |run.requests|
    requires CreatesAt(run, user, k)
    requires forall j :: k < j < n ==> !CreatesAt(run, user, j)
    ensures var limit := LimitAtCreation(run.states[k], run.requests[k]);
      (forall j :: k < j <= n ==> WithinAt(run, user, limit, j))
      <==> forall j :: k < j < n ==> !OverstepsAt(run, user, limit, j)
  {
    var limit := LimitAtCreation(run.states[k], run.requests[k]);
    RunKeepsInv(run, k);
    assert run.Follows(k);
    CreationFits(run.states[k], run.requests[k], user);
    assert WithinAt(run, user, limit, k + 1);
    AlwaysWithinExactly(run, user, limit, k + 1, n);
  }

  /**
   With non-negative sizes the quota holds at every moment since the latest creation exactly when no completion
   oversteps; it does when completions stay within their reservations.
   */
  lemma QuotaHoldsFromInit(run: Run, user: UserId, k: nat, n: nat)
    requires run.Valid() && Init(run.states[0]) && k < n <= |run.requests|
    requires forall j :: 0 <= j < n ==> SizedAt(run, j)
    requires CreatesAt(run, user, k)
    requires forall j :: k < j < n ==> !CreatesAt(run, user, j)
    ensures var limit := LimitAtCreation(run.states[k], run.requests[k]);
      (forall j :: k < j <= n ==> WithinAt(run, user, limit, j))
      <==> forall j :: k < j < n && run.requests[j].event.Complete? ==> !OverstepsAt(run, user, limit, j)
    ensures (forall j :: k < j < n ==> Overshoot(run.states[j], run.requests[j], user) == 0) ==>
      Committed(run.states[n], user) <= LimitAtCreation(run.states[k], run.requests[k])
  {
    var limit := LimitAtCreation(run.states[k], run.requests[k]);
    InitInv(run.states[0]);
    QuotaHoldsExactly(run, user, k, n);
    forall j | k < j < n ensures OverstepsAt(run, user, limit, j) ==> run.requests[j].event.Complete? {
      RunKeepsSolvent(run, user, j);
      OnlyCompletionsOverstep(run.states[j], run.requests[j], user, limit);
    }
    if forall j :: k < j < n ==> Overshoot(run.states[j], run.requests[j], user) == 0 {
      RunKeepsSolvent(run, user, k + 1);
      SolventOwesNothing(run.states[k + 1], user);
      QuotaHolds(run, user, k, n);
      NoOvershoots(run, user, k + 1, n);
    }
  }

  /** A user without an accepted creation has no bytes at all. */
  lemma {:induction false} NothingWithoutCreation(run: Run, user: UserId, n: nat)
    requires run.Valid() && Init(run.states[0]) && n <= |run.requests|
    requires forall j :: 0 <= j < n ==> !CreatesAt(run, user, j)
    ensures forall i :: 0 <= i < |run.states[n].tasks| ==> run.states[n].tasks[i].user != user
    ensures Committed(run.states[n], user) == 0
  {
    if n > 0 {
      NothingWithoutCreation(run, user, n - 1);
      assert run.Follows(n - 1) && !CreatesAt(run, user, n - 1);
      StepUsers(run.states[n - 1], run.requests[n - 1], user);
    }
    SumNothing(run.states[n].tasks, UsedBy(user));
    SumNothing(run.states[n].tasks, ReservedBy(user));
  }

  lemma StepUsers(s: State, r: Request, user: UserId)
    requires !CreatesFor(s, r, user)
    requires forall i :: 0 <= i < |s.tasks| ==> s.tasks[i].user != user
    ensures forall i :: 0 <= i < |Step(s, r).tasks| ==> Step(s, r).tasks[i].user != user
  {
  }
}
