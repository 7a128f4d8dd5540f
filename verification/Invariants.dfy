/** What every request, sweep and rejected call keeps true of the task and library tables. */
module Invariants {
  import opened Model
  import opened Handlers

  /** A task has a worker iff it has a lease, which is never longer than granted; queued tasks have neither. */
  predicate LeaseOk(t: Task, now: Time) {
    && (t.worker.Some? <==> t.lease.Some?)
    && (t.lease.Some? ==> t.lease.value <= now + LEASE)
    && (t.status.Queued? ==> t.worker.None?)
    && (t.status.Assigned? ==> t.worker.Some?)
    && !t.status.Uploading?
  }

  /** A queued task has attempts left, and a finished one holds no reservation. */
  predicate CountsOk(t: Task) {
    && 0 <= t.attempts <= t.maxAttempts
    && (t.status.Queued? ==> t.attempts < t.maxAttempts)
    && (t.status.Terminal() ==> t.reserved == 0)
  }

  predicate RowOk(t: Task, now: Time) {
    LeaseOk(t, now) && CountsOk(t)
  }

  predicate TaskOk(t: Task, now: Time) {
    RowOk(t, now) && DistinctPaths(t.files)
  }

  ghost predicate TasksOk(s: State) {
    forall i :: 0 <= i < |s.tasks| ==> TaskOk(s.tasks[i], s.now)
  }

  /** The unique constraint on library_items (user_id, media_item_id). */
  ghost predicate UniqueRows(library: seq<LibraryItem>) {
    forall j, k :: 0 <= j < k < |library| ==> !IsRow(library[k], library[j].user, library[j].media)
  }

  ghost predicate ReadyRow(library: seq<LibraryItem>, user: UserId, media: MediaId) {
    exists k :: 0 <= k < |library| && IsRow(library[k], user, media) && library[k].ready
  }

  /** One library row for each (user, title) with a task, ready once one of its tasks is completed. */
  ghost predicate LibraryOk(s: State) {
    && UniqueRows(s.library)
    && (forall i :: 0 <= i < |s.tasks| ==> HasRow(s.library, s.tasks[i].user, s.tasks[i].media))
    && (forall i :: 0 <= i < |s.tasks| && s.tasks[i].status.Completed? ==>
          ReadyRow(s.library, s.tasks[i].user, s.tasks[i].media))
  }

  ghost predicate Inv(s: State) {
    TasksOk(s) && LibraryOk(s)
  }

  /** A database before its first task: any users, any releases, no library row. */
  ghost predicate Init(s: State) {
    s.tasks == [] && s.library == []
  }

  lemma InitInv(s: State)
    requires Init(s)
    ensures Inv(s)
  {
  }

  lemma StepKeepsLeases(s: State, r: Request, i: TaskId)
    requires TasksOk(s) && Accepts(s, r) && i < |Step(s, r).tasks|
    ensures LeaseOk(Step(s, r).tasks[i], r.time)
  {
    if i < |s.tasks| {
      assert TaskOk(s.tasks[i], s.now);
    }
  }

  lemma StepKeepsCounts(s: State, r: Request, i: TaskId)
    requires TasksOk(s) && Accepts(s, r) && i < |Step(s, r).tasks|
    ensures CountsOk(Step(s, r).tasks[i])
  {
    if i < |s.tasks| {
      assert TaskOk(s.tasks[i], s.now);
    }
  }

  lemma StepKeepsPaths(s: State, r: Request, i: TaskId)
    requires TasksOk(s) && Accepts(s, r) && i < |Step(s, r).tasks|
    ensures DistinctPaths(Step(s, r).tasks[i].files)
  {
  }

  lemma StepKeepsTasks(s: State, r: Request)
    requires TasksOk(s) && Accepts(s, r)
    ensures TasksOk(Step(s, r))
  {
    forall i | 0 <= i < |Step(s, r).tasks| ensures TaskOk(Step(s, r).tasks[i], r.time) {
      StepKeepsLeases(s, r, i);
      StepKeepsCounts(s, r, i);
      StepKeepsPaths(s, r, i);
    }
  }

  lemma EnsureRowFits(library: seq<LibraryItem>, user: UserId, media: MediaId, source: TaskId, now: Time)
    requires UniqueRows(library)
    ensures UniqueRows(EnsureRow(library, user, media, source, now))
    ensures HasRow(EnsureRow(library, user, media, source, now), user, media)
    ensures library <= EnsureRow(library, user, media, source, now)
  {
    if !HasRow(library, user, media) {
      var library' := EnsureRow(library, user, media, source, now);
      assert IsRow(library'[|library|], user, media);
      forall k | 0 <= k < |library| ensures !IsRow(library[k], user, media) {
      }
    }
  }

  /** The library table only gains rows, and a row only turns ready. */
  ghost predicate Grows(library: seq<LibraryItem>, library': seq<LibraryItem>) {
    && |library| <= |library'|
    && forall k :: 0 <= k < |library| ==>
         library'[k] == library[k] || library'[k] == library[k].(ready := true)
  }

  lemma GrowsKeepsRows(library: seq<LibraryItem>, library': seq<LibraryItem>, user: UserId, media: MediaId)
    requires Grows(library, library')
    ensures HasRow(library, user, media) ==> HasRow(library', user, media)
    ensures ReadyRow(library, user, media) ==> ReadyRow(library', user, media)
  {
  }

  lemma StepGrowsLibrary(s: State, r: Request)
    requires Accepts(s, r) && UniqueRows(s.library)
    ensures Grows(s.library, Step(s, r).library) && UniqueRows(Step(s, r).library)
  {
  }

  lemma StepKeepsLibrary(s: State, r: Request)
    requires LibraryOk(s) && Accepts(s, r)
    ensures LibraryOk(Step(s, r))
  {
    var s' := Step(s, r);
    StepGrowsLibrary(s, r);
    forall i | 0 <= i < |s'.tasks|
      ensures HasRow(s'.library, s'.tasks[i].user, s'.tasks[i].media)
      ensures s'.tasks[i].status.Completed? ==> ReadyRow(s'.library, s'.tasks[i].user, s'.tasks[i].media)
    {
      if i < |s.tasks| {
        var t := s.tasks[i];
        GrowsKeepsRows(s.library, s'.library, t.user, t.media);
        if r.event.Complete? && r.event.task == i {
          var k :| 0 <= k < |s.library| && IsRow(s.library[k], t.user, t.media);
          assert IsRow(s'.library[k], t.user, t.media) && s'.library[k].ready;
        }
      } else {
        EnsureRowFits(s.library, r.event.user, s.releases[r.event.release].media, |s.tasks|, r.time);
      }
    }
  }

  lemma StepKeepsInv(s: State, r: Request)
    requires Inv(s)
    ensures Inv(Step(s, r))
  {
    if Accepts(s, r) {
      StepKeepsTasks(s, r);
      StepKeepsLibrary(s, r);
    }
  }

  /** Every state of every run keeps the invariant, whatever the workers, users and the reaper do. */
  lemma {:induction false} RunKeepsInv(run: Run, n: nat)
    requires run.Valid() && Inv(run.states[0]) && n <= |run.requests|
    ensures Inv(run.states[n])
  {
    if n == 0 {
    } else {
      RunKeepsInv(run, n - 1);
      assert run.Follows(n - 1);
      StepKeepsInv(run.states[n - 1], run.requests[n - 1]);
    }
  }

  lemma InitRunKeepsInv(run: Run, n: nat)
    requires run.Valid() && Init(run.states[0]) && n <= |run.requests|
    ensures Inv(run.states[n])
  {
    InitInv(run.states[0]);
    RunKeepsInv(run, n);
  }
}
