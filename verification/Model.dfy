/** The rows of the download backend: users and plans, releases, tasks with their files, library rows. */
module Model {

  datatype Option<+T> = None | Some(value: T) {
    function GetOr(default: T): T {
      match this
      case Some(v) => v
      case None => default
    }
  }

  function Min(a: int, b: int): int {
    if a <= b then a else b
  }

  function Max(a: int, b: int): int {
    if a >= b then a else b
  }

  type UserId = nat
  type TaskId = nat
  type ReleaseId = nat
  type MediaId = nat
  type WorkerId = nat

  /** Microseconds on the server's UTC clock. */
  type Time = int

  const LEASE_MINUTES := 10
  const LEASE: Time := LEASE_MINUTES * 60 * 1_000_000

  /** Column defaults of a fresh task row. */
  const DEFAULT_PRIORITY := 0
  const DEFAULT_MAX_ATTEMPTS := 3

  datatype Plan = Plan(title: string, quotaBytes: int)

  const PLANS: map<string, Plan> := map[
    "free" := Plan("Free", 10_737_418_240),
    "plus" := Plan("Plus", 53_687_091_200),
    "pro" := Plan("Pro", 214_748_364_800)
  ]

  datatype User = User(plan: string, planExpiresAt: Option<Time>, quotaBytes: int)

  predicate IsPlanExpired(user: User, now: Time) {
    user.planExpiresAt.Some? && user.planExpiresAt.value < now
  }

  /** The limit in force at `now`: the free quota once the plan has expired, else the stored one. */
  function EffectiveQuota(user: User, now: Time): int {
    if IsPlanExpired(user, now) then PLANS["free"].quotaBytes else user.quotaBytes
  }

  datatype Release = Release(media: MediaId, sizeBytes: int)

  datatype Status = Queued | Assigned | Downloading | Uploading | Completed | Failed | Canceled {
    /** Statuses whose reservation counts and that cancel, quota and reaper treat as unfinished. */
    predicate Active() {
      Queued? || Running()
    }

    /** Statuses the reaper looks at. */
    predicate Running() {
      Assigned? || Downloading? || Uploading?
    }

    predicate Terminal() {
      Completed? || Failed? || Canceled?
    }
  }

  /** Object-store key: the slot the server derives from a path, or a key the worker reports. */
  datatype Key = Slot(user: UserId, media: MediaId, name: string) | Reported(key: string)

  datatype TaskFile = TaskFile(path: string, sizeBytes: int, key: Key, uploaded: bool, uploadedAt: Option<Time>)

  /** A task row together with its task_files rows, in insertion order. */
  datatype Task = Task(
    user: UserId,
    media: MediaId,
    release: ReleaseId,
    status: Status,
    worker: Option<WorkerId>,
    lease: Option<Time>,
    priority: int,
    attempts: int,
    maxAttempts: int,
    reserved: int,
    progress: int,
    speed: int,
    stage: Option<string>,
    error: Option<string>,
    createdAt: Time,
    files: seq<TaskFile>)

  datatype LibraryItem = LibraryItem(user: UserId, media: MediaId, source: TaskId, ready: bool, createdAt: Time)

  /** The whole database and the latest time it was used at. An id is the row's position. */
  datatype State = State(
    now: Time,
    users: seq<User>,
    releases: seq<Release>,
    tasks: seq<Task>,
    library: seq<LibraryItem>)

  /** One file of a manifest: the path and the size it lists (0 when left out). */
  datatype Listed = Listed(path: string, sizeBytes: int)

  /** One file of a completion report; key and size may be left out. */
  datatype Report = Report(path: string, key: Option<Key>, sizeBytes: Option<int>)
}
