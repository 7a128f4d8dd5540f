/** What each request does to the database, and runs of requests. */
module Handlers {
  import opened Model
  import opened Sums

  /** A request, the reaper's sweep, or a change of the tables the queue only reads. */
  datatype Event =
    | Register(account: User)
    | PatchUser(user: UserId, plan: Option<string>, planExpiresAt: Option<Time>, quotaBytes: Option<int>)
    | Catalogue(releases: seq<Release>)
    | Create(user: UserId, release: ReleaseId)
    | Cancel(user: UserId, task: TaskId)
    | Claim(worker: WorkerId, pick: Option<TaskId>)
    | Manifest(task: TaskId, listed: seq<Listed>)
    | Heartbeat(worker: WorkerId, task: TaskId, progress: Option<int>, speed: Option<int>, stage: Option<string>)
    | Complete(worker: WorkerId, task: TaskId, reports: seq<Report>)
    | Fail(worker: WorkerId, task: TaskId, error: string)
    | Reap

  datatype Request = At(time: Time, event: Event)

  datatype Verdict = Ok | Unauthorized | NotFound | NotYours | LeaseExpired | QuotaExceeded | InProgress | UnknownPlan | IntegrityError

  /******* Sums the quota service reads *******/

  function UploadedSize(file: TaskFile): int {
    if file.uploaded then file.sizeBytes else 0
  }

  function UploadedBytes(files: seq<TaskFile>): int {
    SumBy(files, UploadedSize)
  }

  function UsedBy(user: UserId): Task -> int {
    (t: Task) => if t.user == user then UploadedBytes(t.files) else 0
  }

  function ReservedBy(user: UserId): Task -> int {
    (t: Task) => if t.user == user && t.status.Active() then t.reserved else 0
  }

  function UsedBytes(s: State, user: UserId): int {
    SumBy(s.tasks, UsedBy(user))
  }

  function ReservedBytes(s: State, user: UserId): int {
    SumBy(s.tasks, ReservedBy(user))
  }

  predicate FitsQuota(s: State, now: Time, user: UserId, needed: int)
    requires user < |s.users|
  {
    UsedBytes(s, user) + ReservedBytes(s, user) + needed <= EffectiveQuota(s.users[user], now)
  }

  /******* The claim order *******/

  /** `a` comes strictly before a task of this priority and age in `ORDER BY priority DESC, created_at`. */
  predicate Before(a: Task, priority: int, createdAt: Time) {
    a.priority > priority || (a.priority == priority && a.createdAt < createdAt)
  }

  predicate IsQueued(tasks: seq<Task>, i: TaskId) {
    i < |tasks| && tasks[i].status.Queued?
  }

  /** A row that `... ORDER BY priority DESC, created_at LIMIT 1` may return; equal keys come in any order. */
  predicate IsHead(tasks: seq<Task>, i: TaskId) {
    && IsQueued(tasks, i)
    && forall j: nat :: j < |tasks| && IsQueued(tasks, j) ==> !Before(tasks[j], tasks[i].priority, tasks[i].createdAt)
  }

  predicate QueueEmpty(tasks: seq<Task>) {
    forall j: nat :: j < |tasks| ==> !IsQueued(tasks, j)
  }

  /******* Row updates *******/

  function NewTask(user: UserId, release: ReleaseId, r: Release, now: Time): Task {
    Task(user, r.media, release, Queued, None, None, DEFAULT_PRIORITY, 0, DEFAULT_MAX_ATTEMPTS,
         r.sizeBytes, 0, 0, None, None, now, [])
  }

  function ClaimRow(t: Task, worker: WorkerId, now: Time): Task {
    t.(status := Assigned, worker := Some(worker), lease := Some(now + LEASE), attempts := t.attempts + 1)
  }

  function RequeueRow(t: Task): Task {
    t.(status := Queued, worker := None, lease := None)
  }

  predicate Expired(t: Task, now: Time) {
    t.status.Running() && t.lease.Some? && t.lease.value < now
  }

  /** First UPDATE of the sweep. */
  function ReclaimRow(t: Task, now: Time): Task {
    if Expired(t, now) then RequeueRow(t) else t
  }

  predicate Exhausted(t: Task) {
    t.status.Queued? && t.attempts >= t.maxAttempts
  }

  /** Second UPDATE of the sweep. */
  function ExhaustRow(t: Task): Task {
    if Exhausted(t) then t.(status := Failed, reserved := 0, error := Some("Max attempts exceeded")) else t
  }

  function MapRows(tasks: seq<Task>, f: Task -> Task): (r: seq<Task>)
    ensures |r| == |tasks|
    ensures forall i :: 0 <= i < |tasks| ==> r[i] == f(tasks[i])
  {
    seq(|tasks|, i requires 0 <= i < |tasks| => f(tasks[i]))
  }

  function ReclaimAll(tasks: seq<Task>, now: Time): seq<Task> {
    MapRows(tasks, t => ReclaimRow(t, now))
  }

  function ExhaustAll(tasks: seq<Task>): seq<Task> {
    MapRows(tasks, ExhaustRow)
  }

  /** The part of a path after its last slash. */
  function Basename(path: string): string {
    if path == [] || path[|path| - 1] == '/' then ""
    else Basename(path[..|path| - 1]) + [path[|path| - 1]]
  }

  /** The name is what follows the last slash of the path, or the whole path. */
  predicate IsLastSegment(path: string, name: string) {
    && '/' !in name
    && |name| <= |path| && path[|path| - |name|..] == name
    && (|name| < |path| ==> path[|path| - |name| - 1] == '/')
  }

  lemma SegmentGrows(path: string, name: string, last: char)
    requires IsLastSegment(path, name) && last != '/'
    ensures IsLastSegment(path + [last], name + [last])
  {
    assert (path + [last])[|path| - |name|..] == path[|path| - |name|..] + [last];
  }

  lemma {:induction false} BasenameIsLastSegment(path: string)
    ensures IsLastSegment(path, Basename(path))
  {
    if path == [] || path[|path| - 1] == '/' {
    } else {
      var n := |path| - 1;
      BasenameIsLastSegment(path[..n]);
      SegmentGrows(path[..n], Basename(path[..n]), path[n]);
      assert path == path[..n] + [path[n]];
    }
  }

  function NewFile(t: Task, f: Listed): TaskFile {
    TaskFile(f.path, f.sizeBytes, Slot(t.user, t.media, Basename(f.path)), false, None)
  }

  function NewFiles(t: Task, listed: seq<Listed>): (r: seq<TaskFile>)
    ensures |r| == |listed|
    ensures forall i :: 0 <= i < |listed| ==> r[i] == NewFile(t, listed[i])
  {
    seq(|listed|, i requires 0 <= i < |listed| => NewFile(t, listed[i]))
  }

  function ListedSize(f: Listed): int {
    f.sizeBytes
  }

  function TotalSize(listed: seq<Listed>): int {
    SumBy(listed, ListedSize)
  }

  /** The unique constraint on (task_id, path). */
  predicate DistinctPaths(files: seq<TaskFile>) {
    forall i, j :: 0 <= i < j < |files| ==> files[i].path != files[j].path
  }

  function ManifestRow(t: Task, listed: seq<Listed>): Task {
    t.(files := t.files + NewFiles(t, listed), reserved := Min(t.reserved, TotalSize(listed)), status := Downloading)
  }

  function HeartbeatRow(t: Task, now: Time, progress: Option<int>, speed: Option<int>, stage: Option<string>): Task {
    t.(progress := progress.GetOr(t.progress),
       speed := speed.GetOr(t.speed),
       stage := if stage.Some? then stage else t.stage,
       lease := Some(now + LEASE))
  }

  /** One report entry applied to a file row of the same path. */
  function Touch(file: TaskFile, r: Report, now: Time): TaskFile {
    if r.path == file.path then
      TaskFile(file.path, r.sizeBytes.GetOr(file.sizeBytes), r.key.GetOr(file.key), true, Some(now))
    else file
  }

  /** All entries of a report applied to one file row, in order. */
  function TouchAll(file: TaskFile, reports: seq<Report>, now: Time): (r: TaskFile)
    ensures r.path == file.path
  {
    if reports == [] then file
    else Touch(TouchAll(file, reports[..|reports| - 1], now), reports[|reports| - 1], now)
  }

  function TouchFiles(files: seq<TaskFile>, reports: seq<Report>, now: Time): (r: seq<TaskFile>)
    ensures |r| == |files|
    ensures forall i :: 0 <= i < |files| ==> r[i] == TouchAll(files[i], reports, now)
  {
    seq(|files|, i requires 0 <= i < |files| => TouchAll(files[i], reports, now))
  }

  function CompleteRow(t: Task, reports: seq<Report>, now: Time): Task {
    t.(files := TouchFiles(t.files, reports, now), status := Completed, reserved := 0, progress := 100)
  }

  function FailRow(t: Task, error: string): Task {
    var u := if t.attempts < t.maxAttempts then RequeueRow(t) else t.(status := Failed, reserved := 0);
    u.(error := Some(error))
  }

  function PatchedUser(u: User, plan: Option<string>, planExpiresAt: Option<Time>, quotaBytes: Option<int>): User
    requires plan.Some? ==> plan.value in PLANS
  {
    var v := if plan.None? then u else
      u.(plan := plan.value, planExpiresAt := planExpiresAt,
         quotaBytes := if quotaBytes.None? then PLANS[plan.value].quotaBytes else u.quotaBytes);
    if quotaBytes.Some? then v.(quotaBytes := quotaBytes.value) else v
  }

  /******* Library rows *******/

  predicate IsRow(item: LibraryItem, user: UserId, media: MediaId) {
    item.user == user && item.media == media
  }

  predicate HasRow(library: seq<LibraryItem>, user: UserId, media: MediaId) {
    exists k :: 0 <= k < |library| && IsRow(library[k], user, media)
  }

  function EnsureRow(library: seq<LibraryItem>, user: UserId, media: MediaId, source: TaskId, now: Time): seq<LibraryItem> {
    if HasRow(library, user, media) then library else library + [LibraryItem(user, media, source, false, now)]
  }

  function MarkReady(library: seq<LibraryItem>, user: UserId, media: MediaId): (r: seq<LibraryItem>)
    ensures |r| == |library|
    ensures forall k :: 0 <= k < |library| ==>
      r[k] == if IsRow(library[k], user, media) then library[k].(ready := true) else library[k]
  {
    seq(|library|, k requires 0 <= k < |library| =>
      if IsRow(library[k], user, media) then library[k].(ready := true) else library[k])
  }

  /******* Requests *******/

  /** How the server answers; anything but Ok rolls the request back. */
  function Respond(s: State, now: Time, e: Event): Verdict {
    match e
    case Register(_) => Ok
    case Catalogue(_) => Ok
    case Claim(_, _) => Ok
    case Reap => Ok
    case PatchUser(u, plan, _, _) =>
      if u >= |s.users| then NotFound
      else if plan.Some? && plan.value !in PLANS then UnknownPlan
      else Ok
    case Create(u, r) =>
      if u >= |s.users| then Unauthorized
      else if r >= |s.releases| then NotFound
      else if !FitsQuota(s, now, u, s.releases[r].sizeBytes) then QuotaExceeded
      else Ok
    case Cancel(u, t) =>
      if t >= |s.tasks| || s.tasks[t].user != u then NotFound
      else if !(s.tasks[t].status.Queued? || s.tasks[t].status.Assigned?) then InProgress
      else Ok
    case Manifest(t, listed) =>
      if t >= |s.tasks| then NotFound
      else if !DistinctPaths(s.tasks[t].files + NewFiles(s.tasks[t], listed)) then IntegrityError
      else Ok
    case Heartbeat(w, t, _, _, _) =>
      if t >= |s.tasks| then NotFound
      else if s.tasks[t].worker != Some(w) then NotYours
      else if s.tasks[t].lease.Some? && s.tasks[t].lease.value < now then LeaseExpired
      else Ok
    case Complete(w, t, _) =>
      if t >= |s.tasks| then NotFound
      else if s.tasks[t].worker != Some(w) then NotYours
      else Ok
    case Fail(w, t, _) =>
      if t >= |s.tasks| then NotFound
      else if s.tasks[t].worker != Some(w) then NotYours
      else Ok
  }

  /** The new task table of an accepted request. */
  function NewTasks(s: State, now: Time, e: Event): seq<Task>
    requires Respond(s, now, e).Ok?
    requires e.Claim? && e.pick.Some? ==> e.pick.value < |s.tasks|
  {
    match e
    case Register(_) => s.tasks
    case PatchUser(_, _, _, _) => s.tasks
    case Catalogue(_) => s.tasks
    case Create(u, r) => s.tasks + [NewTask(u, r, s.releases[r], now)]
    case Cancel(_, t) => s.tasks[t := s.tasks[t].(status := Canceled, reserved := 0)]
    case Claim(w, pick) =>
      if pick.Some? then s.tasks[pick.value := ClaimRow(s.tasks[pick.value], w, now)] else s.tasks
    case Manifest(t, listed) => s.tasks[t := ManifestRow(s.tasks[t], listed)]
    case Heartbeat(_, t, progress, speed, stage) =>
      s.tasks[t := HeartbeatRow(s.tasks[t], now, progress, speed, stage)]
    case Complete(_, t, reports) => s.tasks[t := CompleteRow(s.tasks[t], reports, now)]
    case Fail(_, t, error) => s.tasks[t := FailRow(s.tasks[t], error)]
    case Reap => ExhaustAll(ReclaimAll(s.tasks, now))
  }

  function NewLibrary(s: State, now: Time, e: Event): seq<LibraryItem>
    requires Respond(s, now, e).Ok?
  {
    match e
    case Create(u, r) => EnsureRow(s.library, u, s.releases[r].media, |s.tasks|, now)
    case Complete(_, t, _) => MarkReady(s.library, s.tasks[t].user, s.tasks[t].media)
    case _ => s.library
  }

  function NewUsers(s: State, now: Time, e: Event): seq<User>
    requires Respond(s, now, e).Ok?
  {
    match e
    case Register(account) => s.users + [account]
    case PatchUser(u, plan, expires, quota) => s.users[u := PatchedUser(s.users[u], plan, expires, quota)]
    case _ => s.users
  }

  /** Time does not run backwards, and a claim returns a row the query may return. */
  predicate Enabled(s: State, r: Request) {
    && s.now <= r.time
    && (r.event.Claim? ==>
          match r.event.pick
          case None => QueueEmpty(s.tasks)
          case Some(i) => IsHead(s.tasks, i))
  }

  /** The request can arrive in `s` and is not rolled back. */
  predicate Accepts(s: State, r: Request) {
    Enabled(s, r) && Respond(s, r.time, r.event).Ok?
  }

  /** A rejected request only moves the clock; one that cannot arrive is skipped. */
  function Step(s: State, r: Request): State {
    if Accepts(s, r) then
      State(r.time, NewUsers(s, r.time, r.event),
            if r.event.Catalogue? then r.event.releases else s.releases,
            NewTasks(s, r.time, r.event), NewLibrary(s, r.time, r.event))
    else if Enabled(s, r) then s.(now := r.time)
    else s
  }

  /******* Runs *******/

  /** A run: the requests in the order they are served, and the database before, between and after them. */
  datatype Run = Run(states: seq<State>, requests: seq<Request>) {
    ghost predicate Valid() {
      |states| == |requests| + 1 && forall n: nat :: n < |requests| ==> Follows(n)
    }

    predicate Follows(n: nat)
      requires |states| == |requests| + 1 && n < |requests|
    {
      states[n + 1] == Step(states[n], requests[n])
    }

    /** The `n`-th request is accepted. */
    predicate Accepted(n: nat)
      requires n < |requests| <= |states|
    {
      Accepts(states[n], requests[n])
    }
  }

  /** The run of any requests from any database. */
  function RunOf(s: State, requests: seq<Request>): (run: Run)
    ensures run.Valid() && run.states[0] == s && run.requests == requests
  {
    if requests == [] then Run([s], [])
    else
      var n := |requests| - 1;
      var run := RunOf(s, requests[..n]);
      var longer := Run(run.states + [Step(run.states[n], requests[n])], requests);
      assert forall k: nat :: k < n ==> run.Follows(k) ==> longer.Follows(k);
      longer
  }
}
