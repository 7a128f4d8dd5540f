/** The backend as an object: tables updated in place, each method proved to serve one request of a run. */
module Server {
  import opened Model
  import opened Handlers
  import opened Invariants
  import opened Sums
  import opened Library
  import opened Leases
  import opened Ledger

  ghost predicate HeadOfFirst(tasks: seq<Task>, n: nat, i: nat)
    requires n <= |tasks|
  {
    && i < n && IsQueued(tasks, i)
    && forall j: nat :: j < n && IsQueued(tasks, j) ==> !Before(tasks[j], tasks[i].priority, tasks[i].createdAt)
  }

  /** A non-empty queue has a first task, so a claim comes back empty only from an empty queue. */
  lemma {:induction false} HeadExists(tasks: seq<Task>, n: nat)
    requires n <= |tasks|
    ensures (forall j: nat :: j < n ==> !IsQueued(tasks, j)) || exists i: nat :: i < n && HeadOfFirst(tasks, n, i)
  {
    if n == 0 {
    } else {
      var m: nat := n - 1;
      HeadExists(tasks, m);
      if exists i: nat :: i < m && HeadOfFirst(tasks, m, i) {
        var i: nat :| i < m && HeadOfFirst(tasks, m, i);
        if IsQueued(tasks, m) && Before(tasks[m], tasks[i].priority, tasks[i].createdAt) {
          assert HeadOfFirst(tasks, n, m);
        } else {
          assert HeadOfFirst(tasks, n, i);
        }
      } else if IsQueued(tasks, m) {
        assert HeadOfFirst(tasks, n, m);
      }
    }
  }

  /** The row of a path, as the query of the completion loop finds it. */
  function FindRow(files: seq<TaskFile>, path: string): (r: Option<nat>)
    ensures r.Some? ==> r.value < |files| && files[r.value].path == path
    ensures r.None? ==> forall i :: 0 <= i < |files| ==> files[i].path != path
  {
    if files == [] then None
    else
      var n := |files| - 1;
      if files[n].path == path then Some(n) else FindRow(files[..n], path)
  }

  /** One round of the completion loop is one more entry of the report applied to the one row of its path. */
  lemma TouchOneRow(files: seq<TaskFile>, reports: seq<Report>, k: nat, now: Time)
    requires DistinctPaths(files) && k < |reports|
    ensures var row := FindRow(files, reports[k].path);
      var done := TouchFiles(files, reports[..k], now);
      TouchFiles(files, reports[..k + 1], now) ==
        if row.Some? then done[row.value := Touch(done[row.value], reports[k], now)] else done
  {
    assert reports[..k + 1][..k] == reports[..k];
    forall i | 0 <= i < |files|
      ensures TouchAll(files[i], reports[..k + 1], now) == Touch(TouchAll(files[i], reports[..k], now), reports[k], now)
    {
    }
  }

  /** At most one library row matches, so marking the one found marks all. */
  lemma MarkReadyIsOneRow(library: seq<LibraryItem>, user: UserId, media: MediaId)
    requires UniqueRows(library)
    ensures forall k :: 0 <= k < |library| && IsRow(library[k], user, media) ==>
      library[k := library[k].(ready := true)] == MarkReady(library, user, media)
    ensures !HasRow(library, user, media) ==> library == MarkReady(library, user, media)
  {
  }

  /** The running tasks whose lease ended before `now`. */
  function Overdue(tasks: seq<Task>, now: Time): set<nat> {
    set i: nat | i < |tasks| && tasks[i].status in {Assigned, Downloading, Uploading}
                 && tasks[i].lease.Some? && tasks[i].lease.value < now
  }

  function ExpiredOne(now: Time): Task -> int {
    (t: Task) => if Expired(t, now) then 1 else 0
  }

  lemma OneTaskMoreOverdue(tasks: seq<Task>, t: Task, now: Time)
    ensures |Overdue(tasks + [t], now)| == |Overdue(tasks, now)| + if Expired(t, now) then 1 else 0
  {
    var n: nat, more := |tasks|, Overdue(tasks + [t], now);
    assert n !in Overdue(tasks, now);
    forall i ensures i in more <==> i in Overdue(tasks, now) || (i == n && Expired(t, now)) {
    }
    assert more == Overdue(tasks, now) + if Expired(t, now) then {n} else {};
  }

  /** The first update of the sweep changes as many rows as there are overdue tasks. */
  lemma {:induction false} CountOverdue(tasks: seq<Task>, now: Time)
    ensures SumBy(tasks, ExpiredOne(now)) == |Overdue(tasks, now)|
  {
    if tasks == [] {
    } else {
      var n := |tasks| - 1;
      CountOverdue(tasks[..n], now);
      OneTaskMoreOverdue(tasks[..n], tasks[n], now);
      assert tasks == tasks[..n] + [tasks[n]];
    }
  }

  /** What a sweep is to make of a row. */
  predicate Swept(t: Task, t': Task, overdue: bool) {
    t' == if !overdue then t
          else if t.attempts < t.maxAttempts then t.(status := Queued, worker := None, lease := None)
          else t.(status := Failed, worker := None, lease := None, reserved := 0, error := Some("Max attempts exceeded"))
  }

  /** The two updates in their order sweep every row. */
  lemma UpdatesSweep(tasks: seq<Task>, now: Time, clock: Time)
    requires forall i :: 0 <= i < |tasks| ==> TaskOk(tasks[i], clock)
    ensures forall i: nat :: i < |tasks| ==> Swept(tasks[i], ExhaustAll(ReclaimAll(tasks, now))[i], i in Overdue(tasks, now))
  {
    forall i: nat | i < |tasks| ensures Swept(tasks[i], ExhaustAll(ReclaimAll(tasks, now))[i], i in Overdue(tasks, now)) {
      assert TaskOk(tasks[i], clock);
      assert ExhaustAll(ReclaimAll(tasks, now))[i] == ExhaustRow(ReclaimRow(tasks[i], now));
    }
  }

  /** A row of the library answer. */
  datatype Shelf = Shelf(item: LibraryItem, files: seq<TaskFile>, totalSize: int, ready: bool)

  function ShelfSize(shelf: Shelf): int {
    shelf.totalSize
  }

  /** The shelf shows this row and the uploaded files of the user's tasks for its title. */
  ghost predicate Shows(shelf: Shelf, tasks: seq<Task>, item: LibraryItem) {
    && shelf.item == item && shelf.ready == item.ready
    && shelf.files == TitleFiles(tasks, item.user, item.media)
    && shelf.totalSize == SumBy(shelf.files, FileSize)
  }

  /** The manifest loop: a new row for each listed file, and the sum of the listed sizes. */
  method AddListed(task: Task, listed: seq<Listed>) returns (files: seq<TaskFile>, totalSize: int)
    ensures files == task.files + NewFiles(task, listed)
    ensures totalSize == TotalSize(listed)
  {
    files, totalSize := task.files, 0;
    for k := 0 to |listed|
      invariant files == task.files + NewFiles(task, listed[..k])
      invariant totalSize == TotalSize(listed[..k])
    {
      assert listed[..k + 1] == listed[..k] + [listed[k]];
      SumAppend(listed[..k], listed[k], ListedSize);
      files := files + [NewFile(task, listed[k])];
      totalSize := totalSize + listed[k].sizeBytes;
    }
    assert listed[..|listed|] == listed;
  }

  /** Rows keep their paths while the loop works, so it finds the same row. */
  lemma {:induction false} SamePathsSameRow(files: seq<TaskFile>, files': seq<TaskFile>, path: string)
    requires |files| == |files'| && forall i :: 0 <= i < |files| ==> files[i].path == files'[i].path
    ensures FindRow(files, path) == FindRow(files', path)
  {
    if files == [] {
    } else {
      SamePathsSameRow(files[..|files| - 1], files'[..|files| - 1], path);
    }
  }

  /** The completion loop: each entry of the report updates the row of its path, if there is one. */
  method ApplyReport(rows: seq<TaskFile>, reports: seq<Report>, now: Time) returns (files: seq<TaskFile>)
    requires DistinctPaths(rows)
    ensures files == TouchFiles(rows, reports, now)
  {
    files := rows;
    for k := 0 to |reports|
      invariant files == TouchFiles(rows, reports[..k], now)
    {
      TouchOneRow(rows, reports, k, now);
      SamePathsSameRow(rows, files, reports[k].path);
      var row := FindRow(files, reports[k].path);
      if row.Some? {
        var file := files[row.value];
        file := file.(uploaded := true);
        file := file.(key := reports[k].key.GetOr(file.key));
        file := file.(sizeBytes := reports[k].sizeBytes.GetOr(file.sizeBytes));
        file := file.(uploadedAt := Some(now));
        files := files[row.value := file];
      }
    }
    assert reports[..|reports|] == reports;
  }

  /** The totals of the shelves shown for a user's rows add up to those of the rows. */
  lemma {:induction false} ShelvesTotal(shelves: seq<Shelf>, tasks: seq<Task>, user: UserId, rows: seq<LibraryItem>)
    requires |shelves| == |rows|
    requires forall i :: 0 <= i < |rows| ==> rows[i].user == user && Shows(shelves[i], tasks, rows[i])
    ensures SumBy(shelves, ShelfSize) == SumBy(rows, RowTotal(tasks, user))
  {
    if rows == [] {
    } else {
      var n := |rows| - 1;
      ShelvesTotal(shelves[..n], tasks, user, rows[..n]);
      assert Shows(shelves[n], tasks, rows[n]);
      ShelfTotal(tasks, user, rows[n]);
    }
  }

  /** The library loop: one shelf for each of the user's rows. */
  method ShowRows(tasks: seq<Task>, rows: seq<LibraryItem>) returns (shelves: seq<Shelf>)
    ensures |shelves| == |rows| && forall i :: 0 <= i < |rows| ==> Shows(shelves[i], tasks, rows[i])
  {
    shelves := [];
    for k := 0 to |rows|
      invariant |shelves| == k && forall i :: 0 <= i < k ==> Shows(shelves[i], tasks, rows[i])
    {
      var files := TitleFiles(tasks, rows[k].user, rows[k].media);
      shelves := shelves + [Shelf(rows[k], files, SumBy(files, FileSize), rows[k].ready)];
    }
  }

  predicate HasShelf(shelves: seq<Shelf>, item: LibraryItem) {
    exists i :: 0 <= i < |shelves| && shelves[i].item == item
  }

  /** The shelves are for the user's library rows, all of them, one for each title, newest first. */
  ghost predicate ShowsEachOnce(shelves: seq<Shelf>, library: seq<LibraryItem>, user: UserId) {
    && (forall item :: HasShelf(shelves, item) <==> item in library && item.user == user)
    && (forall i, j :: 0 <= i < j < |shelves| ==> shelves[i].item.media != shelves[j].item.media)
    && (forall i, j :: 0 <= i < j < |shelves| ==> shelves[i].item.createdAt >= shelves[j].item.createdAt)
  }

  /** The shelf lists each stored uploaded file of the user's tasks for its title once, and their total size. */
  ghost predicate ShowsStored(shelf: Shelf, tasks: seq<Task>, user: UserId) {
    && ListsTitle(shelf.files, tasks, user, shelf.item.media)
    && shelf.totalSize == SumBy(shelf.files, FileSize)
    && shelf.ready == shelf.item.ready
  }

  lemma RowsShownOnce(shelves: seq<Shelf>, tasks: seq<Task>, library: seq<LibraryItem>, user: UserId)
    requires UniqueRows(library) && forall i, j :: 0 <= i < j < |library| ==> library[i].createdAt <= library[j].createdAt
    requires |shelves| == |RowsOf(library, user)|
    requires forall i :: 0 <= i < |shelves| ==> Shows(shelves[i], tasks, RowsOf(library, user)[i])
    ensures ShowsEachOnce(shelves, library, user)
  {
    var rows := RowsOf(library, user);
    RowsOfMembers(library, user);
    RowsOfDistinct(library, user);
    RowsOfNewestFirst(library, user);
    assert forall i :: 0 <= i < |shelves| ==> Shows(shelves[i], tasks, rows[i]) && shelves[i].item == rows[i];
    forall item ensures HasShelf(shelves, item) <==> item in rows {
      if item in rows {
        var i :| 0 <= i < |rows| && rows[i] == item;
        assert shelves[i].item == item;
      }
    }
  }

  lemma StoredFilesShown(shelves: seq<Shelf>, tasks: seq<Task>, library: seq<LibraryItem>, user: UserId)
    requires |shelves| == |RowsOf(library, user)|
    requires forall i :: 0 <= i < |shelves| ==> Shows(shelves[i], tasks, RowsOf(library, user)[i])
    ensures forall i :: 0 <= i < |shelves| ==> ShowsStored(shelves[i], tasks, user)
  {
    var rows := RowsOf(library, user);
    RowsOfMembers(library, user);
    forall i | 0 <= i < |shelves| ensures ShowsStored(shelves[i], tasks, user) {
      assert rows[i] in rows && Shows(shelves[i], tasks, rows[i]);
      TitleFilesAreRows(tasks, user, rows[i].media);
    }
  }

  ghost function RunLast(run: Run): State
    requires |run.states| == |run.requests| + 1
  {
    run.states[|run.requests|]
  }

  /** The run with one more request served. */
  ghost function Serve(run: Run, r: Request): Run
    requires |run.states| == |run.requests| + 1
  {
    Run(run.states + [Step(RunLast(run), r)], run.requests + [r])
  }

  lemma ServeIsValid(run: Run, r: Request)
    requires run.Valid()
    ensures Serve(run, r).Valid() && RunLast(Serve(run, r)) == Step(RunLast(run), r)
  {
    var longer := Serve(run, r);
    forall n: nat | n < |longer.requests| ensures longer.Follows(n) {
      assert n < |run.requests| ==> run.Follows(n);
    }
  }

  class Backend {
    var users: seq<User>
    var releases: seq<Release>
    var tasks: seq<Task>
    var library: seq<LibraryItem>
    ghost var clock: Time
    ghost var history: Run

    ghost function Snapshot(): State
      reads this
    {
      State(clock, users, releases, tasks, library)
    }

    /** The tables are where the requests served so far lead, starting from a database without tasks. */
    ghost predicate Valid()
      reads this
    {
      history.Valid() && Init(history.states[0]) && RunLast(history) == Snapshot()
    }

    constructor (users: seq<User>, releases: seq<Release>, now: Time)
      ensures Valid()
      ensures Snapshot() == State(now, users, releases, [], [])
    {
      this.users, this.releases, this.tasks, this.library := users, releases, [], [];
      this.clock := now;
      this.history := Run([State(now, users, releases, [], [])], []);
    }

    /** Every backend object satisfies the table invariant. */
    lemma ReachableInv()
      requires Valid()
      ensures Inv(Snapshot()) && InOrder(Snapshot())
    {
      InitRunKeepsInv(history, |history.requests|);
      RunKeepsOrder(history, |history.requests|);
    }

    /** Puts the request just served on record. */
    ghost method Log(r: Request, before: State)
      requires history.Valid() && Init(history.states[0]) && RunLast(history) == before
      requires Enabled(before, r) && Snapshot().(now := r.time) == Step(before, r)
      modifies this`clock, this`history
      ensures Valid() && clock == r.time && history == Serve(old(history), r)
    {
      ServeIsValid(history, r);
      clock := r.time;
      history := Serve(history, r);
    }

    method RegisterUser(account: User, now: Time)
      requires Valid() && clock <= now
      modifies this`users, this`clock, this`history
      ensures Valid() && history == Serve(old(history), At(now, Register(account)))
      ensures users == old(users) + [account]
    {
      ghost var before := Snapshot();
      users := users + [account];
      Log(At(now, Register(account)), before);
    }

    method RefreshCatalogue(found: seq<Release>, now: Time)
      requires Valid() && clock <= now
      modifies this`releases, this`clock, this`history
      ensures Valid() && history == Serve(old(history), At(now, Catalogue(found)))
      ensures releases == found
    {
      ghost var before := Snapshot();
      releases := found;
      Log(At(now, Catalogue(found)), before);
    }

    method PatchAccount(id: UserId, plan: Option<string>, planExpiresAt: Option<Time>, quotaBytes: Option<int>, now: Time)
      returns (verdict: Verdict)
      requires Valid() && clock <= now
      modifies this`users, this`clock, this`history
      ensures Valid() && history == Serve(old(history), At(now, PatchUser(id, plan, planExpiresAt, quotaBytes)))
      ensures verdict == Respond(old(Snapshot()), now, PatchUser(id, plan, planExpiresAt, quotaBytes))
      ensures verdict == if id >= |old(users)| then NotFound else if plan.Some? && plan.value !in PLANS then UnknownPlan else Verdict.Ok
      ensures !verdict.Ok? ==> users == old(users)
      ensures verdict.Ok? ==>
        var quota := if quotaBytes.Some? then quotaBytes.value
                     else if plan.Some? then PLANS[plan.value].quotaBytes
                     else old(users)[id].quotaBytes;
        users == old(users)[id := if plan.Some? then User(plan.value, planExpiresAt, quota) else old(users)[id].(quotaBytes := quota)]
    {
      ghost var before := Snapshot();
      ghost var r := At(now, PatchUser(id, plan, planExpiresAt, quotaBytes));
      if id >= |users| {
        verdict := NotFound;
      } else if plan.Some? && plan.value !in PLANS {
        verdict := UnknownPlan;
      } else {
        verdict := Ok;
        var user := users[id];
        if plan.Some? {
          user := user.(plan := plan.value, planExpiresAt := planExpiresAt);
          if quotaBytes.None? {
            user := user.(quotaBytes := PLANS[plan.value].quotaBytes);
          }
        }
        if quotaBytes.Some? {
          user := user.(quotaBytes := quotaBytes.value);
        }
        users := users[id := user];
      }
      Log(r, before);
    }

    method CreateTask(user: UserId, release: ReleaseId, now: Time) returns (verdict: Verdict)
      requires Valid() && clock <= now
      modifies this`tasks, this`library, this`clock, this`history
      ensures Valid() && history == Serve(old(history), At(now, Create(user, release)))
      ensures verdict == Respond(old(Snapshot()), now, Create(user, release))
      ensures verdict ==
        if user >= |users| then Unauthorized
        else if release >= |releases| then NotFound
        else if old(Committed(Snapshot(), user)) + releases[release].sizeBytes <= Allowance(users[user], now) then Verdict.Ok
        else QuotaExceeded
      ensures !verdict.Ok? ==> tasks == old(tasks) && library == old(library)
      ensures verdict.Ok? ==>
        var wanted := releases[release];
        && tasks == old(tasks) + [Task(user, wanted.media, release, Queued, None, None, 0, 0, 3, wanted.sizeBytes, 0, 0, None, None, now, [])]
        && library == if exists k :: 0 <= k < |old(library)| && old(library)[k].user == user && old(library)[k].media == wanted.media
                      then old(library)
                      else old(library) + [LibraryItem(user, wanted.media, |old(tasks)|, false, now)]
    {
      ghost var before := Snapshot();
      if user >= |users| {
        verdict := Unauthorized;
      } else if release >= |releases| {
        verdict := NotFound;
      } else {
        var wanted := releases[release];
        var used := SumBy(tasks, UsedBy(user));
        var reserved := SumBy(tasks, ReservedBy(user));
        if used + reserved + wanted.sizeBytes > EffectiveQuota(users[user], now) {
          verdict := QuotaExceeded;
        } else {
          verdict := Ok;
          var id := |tasks|;
          tasks := tasks + [NewTask(user, release, wanted, now)];
          if !HasRow(library, user, wanted.media) {
            library := library + [LibraryItem(user, wanted.media, id, false, now)];
          }
        }
      }
      Log(At(now, Create(user, release)), before);
    }

    method CancelTask(user: UserId, id: TaskId, now: Time) returns (verdict: Verdict)
      requires Valid() && clock <= now
      modifies this`tasks, this`clock, this`history
      ensures Valid() && history == Serve(old(history), At(now, Cancel(user, id)))
      ensures verdict == Respond(old(Snapshot()), now, Cancel(user, id))
      ensures verdict ==
        if id >= |old(tasks)| || old(tasks)[id].user != user then NotFound
        else if old(tasks)[id].status in {Queued, Assigned} then Verdict.Ok
        else InProgress
      ensures tasks == if verdict.Ok? then old(tasks)[id := old(tasks)[id].(status := Canceled, reserved := 0)] else old(tasks)
    {
      ghost var before := Snapshot();
      if id >= |tasks| || tasks[id].user != user {
        verdict := NotFound;
      } else if tasks[id].status != Queued && tasks[id].status != Assigned {
        verdict := InProgress;
      } else {
        verdict := Ok;
        var task := tasks[id];
        task := task.(status := Canceled);
        task := task.(reserved := 0);
        tasks := tasks[id := task];
      }
      Log(At(now, Cancel(user, id)), before);
    }

    /** Hands out a first task of the queue; comes back empty exactly when no task is queued. */
    method ClaimTask(worker: WorkerId, now: Time) returns (picked: Option<TaskId>)
      requires Valid() && clock <= now
      modifies this`tasks, this`clock, this`history
      ensures Valid() && history == Serve(old(history), At(now, Claim(worker, picked)))
      ensures Accepts(old(Snapshot()), At(now, Claim(worker, picked)))
      ensures picked.None? <==> forall j :: 0 <= j < |old(tasks)| ==> old(tasks)[j].status != Queued
      ensures picked.None? ==> tasks == old(tasks)
      ensures picked.Some? ==>
        && picked.value < |old(tasks)|
        && var t := old(tasks)[picked.value];
           && t.status == Queued
           && (forall j :: 0 <= j < |old(tasks)| && old(tasks)[j].status == Queued ==>
                 old(tasks)[j].priority < t.priority || (old(tasks)[j].priority == t.priority && t.createdAt <= old(tasks)[j].createdAt))
           && tasks == old(tasks)[picked.value :=
                t.(status := Assigned, worker := Some(worker), lease := Some(now + LEASE), attempts := t.attempts + 1)]
    {
      ghost var before := Snapshot();
      assert forall j: nat :: j < |tasks| ==> (tasks[j].status == Queued <==> IsQueued(tasks, j));
      if QueueEmpty(tasks) {
        picked := None;
      } else {
        HeadExists(tasks, |tasks|);
        ghost var h: nat :| h < |tasks| && HeadOfFirst(tasks, |tasks|, h);
        assert IsHead(tasks, h);
        var i: nat :| i < |tasks| && IsHead(tasks, i);
        picked := Some(i);
        var task := tasks[i];
        task := task.(status := Assigned);
        task := task.(worker := Some(worker));
        task := task.(lease := Some(now + LEASE));
        task := task.(attempts := task.attempts + 1);
        tasks := tasks[i := task];
      }
      Log(At(now, Claim(worker, picked)), before);
    }

    /** Adds the listed files and sums their sizes; a path listed before aborts the whole request. */
    method WorkerManifest(id: TaskId, listed: seq<Listed>, now: Time) returns (verdict: Verdict)
      requires Valid() && clock <= now
      modifies this`tasks, this`clock, this`history
      ensures Valid() && history == Serve(old(history), At(now, Manifest(id, listed)))
      ensures verdict == Respond(old(Snapshot()), now, Manifest(id, listed))
      ensures verdict ==
        if id >= |old(tasks)| then NotFound
        else if DistinctListed(listed) && forall path :: Lists(listed, path) ==> !HasPath(old(tasks)[id].files, path) then Verdict.Ok
        else IntegrityError
      ensures !verdict.Ok? ==> tasks == old(tasks)
      ensures verdict.Ok? ==>
        var t := old(tasks)[id];
        && |tasks| == |old(tasks)|
        && tasks == old(tasks)[id := t.(files := tasks[id].files, reserved := Min(t.reserved, TotalSize(listed)), status := Downloading)]
        && |tasks[id].files| == |t.files| + |listed|
        && (forall k :: 0 <= k < |t.files| ==> tasks[id].files[k] == t.files[k])
        && (forall k :: 0 <= k < |listed| ==>
              tasks[id].files[|t.files| + k] ==
              TaskFile(listed[k].path, listed[k].sizeBytes, Slot(t.user, t.media, Basename(listed[k].path)), false, None))
    {
      ghost var before := Snapshot();
      if id >= |tasks| {
        verdict := NotFound;
      } else {
        ReachableInv();
        assert TaskOk(tasks[id], clock);
        DistinctTogether(tasks[id], listed);
        var task := tasks[id];
        var files, totalSize := AddListed(task, listed);
        if !DistinctPaths(files) {
          verdict := IntegrityError;
        } else {
          verdict := Ok;
          task := task.(files := files);
          task := task.(reserved := if task.reserved <= totalSize then task.reserved else totalSize);
          task := task.(status := Downloading);
          tasks := tasks[id := task];
        }
      }
      Log(At(now, Manifest(id, listed)), before);
    }

    method WorkerHeartbeat(worker: WorkerId, id: TaskId, progress: Option<int>, speed: Option<int>, stage: Option<string>, now: Time)
      returns (verdict: Verdict)
      requires Valid() && clock <= now
      modifies this`tasks, this`clock, this`history
      ensures Valid() && history == Serve(old(history), At(now, Heartbeat(worker, id, progress, speed, stage)))
      ensures verdict == Respond(old(Snapshot()), now, Heartbeat(worker, id, progress, speed, stage))
      ensures verdict ==
        if id >= |old(tasks)| then NotFound
        else if old(tasks)[id].worker != Some(worker) then NotYours
        else if old(tasks)[id].lease.Some? && old(tasks)[id].lease.value < now then LeaseExpired
        else Verdict.Ok
      ensures !verdict.Ok? ==> tasks == old(tasks)
      ensures verdict.Ok? ==>
        var t := old(tasks)[id];
        tasks == old(tasks)[id := t.(progress := if progress.Some? then progress.value else t.progress,
                                     speed := if speed.Some? then speed.value else t.speed,
                                     stage := if stage.Some? then stage else t.stage,
                                     lease := Some(now + LEASE))]
    {
      ghost var before := Snapshot();
      if id >= |tasks| {
        verdict := NotFound;
      } else if tasks[id].worker != Some(worker) {
        verdict := NotYours;
      } else if tasks[id].lease.Some? && tasks[id].lease.value < now {
        verdict := LeaseExpired;
      } else {
        verdict := Ok;
        var task := tasks[id];
        if progress.Some? { task := task.(progress := progress.value); }
        if speed.Some? { task := task.(speed := speed.value); }
        if stage.Some? { task := task.(stage := stage); }
        task := task.(lease := Some(now + LEASE));
        tasks := tasks[id := task];
      }
      Log(At(now, Heartbeat(worker, id, progress, speed, stage)), before);
    }

    /** Applies the report entry by entry, each to the row of its path if there is one. */
    method WorkerComplete(worker: WorkerId, id: TaskId, reports: seq<Report>, now: Time) returns (verdict: Verdict)
      requires Valid() && clock <= now
      modifies this`tasks, this`library, this`clock, this`history
      ensures Valid() && history == Serve(old(history), At(now, Complete(worker, id, reports)))
      ensures verdict == Respond(old(Snapshot()), now, Complete(worker, id, reports))
      ensures verdict ==
        if id >= |old(tasks)| then NotFound else if old(tasks)[id].worker != Some(worker) then NotYours else Verdict.Ok
      ensures !verdict.Ok? ==> tasks == old(tasks) && library == old(library)
      ensures verdict.Ok? ==>
        var t := old(tasks)[id];
        && tasks == old(tasks)[id := t.(files := TouchFiles(t.files, reports, now), status := Completed, reserved := 0, progress := 100)]
        && |library| == |old(library)|
        && forall k :: 0 <= k < |library| ==>
             library[k] == old(library)[k].(ready := old(library)[k].ready ||
                                                     (old(library)[k].user == t.user && old(library)[k].media == t.media))
    {
      ghost var before := Snapshot();
      ReachableInv();
      if id >= |tasks| {
        verdict := NotFound;
      } else if tasks[id].worker != Some(worker) {
        verdict := NotYours;
      } else {
        verdict := Ok;
        var task := tasks[id];
        assert TaskOk(task, clock);
        var files := ApplyReport(task.files, reports, now);
        task := task.(files := files, status := Completed, reserved := 0, progress := 100);
        tasks := tasks[id := task];
        MarkReadyIsOneRow(library, task.user, task.media);
        if HasRow(library, task.user, task.media) {
          var k :| 0 <= k < |library| && IsRow(library[k], task.user, task.media);
          library := library[k := library[k].(ready := true)];
        }
      }
      Log(At(now, Complete(worker, id, reports)), before);
    }

    method WorkerFail(worker: WorkerId, id: TaskId, error: string, now: Time) returns (verdict: Verdict)
      requires Valid() && clock <= now
      modifies this`tasks, this`clock, this`history
      ensures Valid() && history == Serve(old(history), At(now, Fail(worker, id, error)))
      ensures verdict == Respond(old(Snapshot()), now, Fail(worker, id, error))
      ensures verdict ==
        if id >= |old(tasks)| then NotFound else if old(tasks)[id].worker != Some(worker) then NotYours else Verdict.Ok
      ensures !verdict.Ok? ==> tasks == old(tasks)
      ensures verdict.Ok? ==>
        var t := old(tasks)[id];
        tasks == old(tasks)[id := if t.attempts < t.maxAttempts
                                  then t.(status := Queued, worker := None, lease := None, error := Some(error))
                                  else t.(status := Failed, reserved := 0, error := Some(error))]
    {
      ghost var before := Snapshot();
      if id >= |tasks| {
        verdict := NotFound;
      } else if tasks[id].worker != Some(worker) {
        verdict := NotYours;
      } else {
        verdict := Ok;
        var task := tasks[id];
        if task.attempts < task.maxAttempts {
          task := task.(status := Queued);
          task := task.(worker := None);
          task := task.(lease := None);
        } else {
          task := task.(status := Failed);
          task := task.(reserved := 0);
        }
        task := task.(error := Some(error));
        tasks := tasks[id := task];
      }
      Log(At(now, Fail(worker, id, error)), before);
    }

    /** The sweep: two bulk updates in this order, and the number of rows the first one changed. */
    method ReclaimExpired(now: Time) returns (reclaimed: int)
      requires Valid() && clock <= now
      modifies this`tasks, this`clock, this`history
      ensures Valid() && history == Serve(old(history), At(now, Reap))
      ensures reclaimed == |Overdue(old(tasks), now)| && |tasks| == |old(tasks)|
      ensures forall i: nat :: i < |tasks| ==> Swept(old(tasks)[i], tasks[i], i in Overdue(old(tasks), now))
    {
      ghost var before := Snapshot();
      reclaimed := SumBy(tasks, ExpiredOne(now));
      ReachableInv();
      CountOverdue(tasks, now);
      UpdatesSweep(tasks, now, clock);
      tasks := ReclaimAll(tasks, now);
      tasks := ExhaustAll(tasks);
      Log(At(now, Reap), before);
    }

    /** The user's library; the totals add up to the used bytes. */
    method GetLibrary(user: UserId) returns (shelves: seq<Shelf>)
      requires Valid()
      ensures ShowsEachOnce(shelves, library, user)
      ensures forall i :: 0 <= i < |shelves| ==> ShowsStored(shelves[i], tasks, user)
      ensures SumBy(shelves, ShelfSize) == UsedBytes(Snapshot(), user)
    {
      var rows := RowsOf(library, user);
      ReachableInv();
      RowsOfMembers(library, user);
      assert forall i :: 0 <= i < |rows| ==> rows[i] in rows;
      shelves := ShowRows(tasks, rows);
      RowsShownOnce(shelves, tasks, library, user);
      StoredFilesShown(shelves, tasks, library, user);
      ShelvesTotal(shelves, tasks, user, rows);
      TotalsOfUserRows(library, tasks, user);
      LibraryTotalsAreUsedBytes(Snapshot(), user);
    }
  }
}
