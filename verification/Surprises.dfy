/** Runs that the code allows although its statuses and its quota check suggest otherwise. */
module Surprises {
  import opened Model
  import opened Handlers
  import opened Invariants
  import opened Leases
  import opened Ledger
  import opened Sums

  const USER := User("free", None, 10)

  const EMPTY := State(0, [USER], [Release(0, 10)], [], [])

  const MANIFEST := [Listed("a", 10)]
  const ROW := TaskFile("a", 10, Slot(0, 0, "a"), false, None)

  const CREATED := NewTask(0, 0, Release(0, 10), 1)
  const CLAIMED := ClaimRow(CREATED, 7, 2)
  const CANCELED := CLAIMED.(status := Canceled, reserved := 0)
  const LISTED := CANCELED.(files := [ROW], status := Downloading)
  const COMPLETED := LISTED.(files := [TaskFile("a", 25, Slot(0, 0, "a"), true, Some(5))], status := Completed, progress := 100)

  function Shelf(ready: bool): seq<LibraryItem> {
    [LibraryItem(0, 0, 0, ready, 1)]
  }

  const AFTER_CREATE := State(1, [USER], [Release(0, 10)], [CREATED], Shelf(false))
  const AFTER_CLAIM := AFTER_CREATE.(now := 2, tasks := [CLAIMED])
  const AFTER_CANCEL := AFTER_CREATE.(now := 3, tasks := [CANCELED])
  const AFTER_MANIFEST := AFTER_CREATE.(now := 4, tasks := [LISTED])
  const AFTER_COMPLETE := AFTER_CREATE.(now := 5, tasks := [COMPLETED], library := Shelf(true))

  lemma FirstSteps()
    ensures Step(EMPTY, At(1, Create(0, 0))) == AFTER_CREATE
    ensures Accepts(EMPTY, At(1, Create(0, 0))) && Accepts(AFTER_CREATE, At(2, Claim(7, Some(0))))
    ensures Step(AFTER_CREATE, At(2, Claim(7, Some(0)))) == AFTER_CLAIM
    ensures Step(AFTER_CLAIM, At(3, Cancel(0, 0))) == AFTER_CANCEL
  {
    assert IsHead(AFTER_CREATE.tasks, 0);
  }

  /** What listing the one file makes of a task without files. */
  lemma ManifestOfOne(t: Task)
    requires t.user == 0 && t.media == 0 && t.files == []
    ensures ManifestRow(t, MANIFEST) == t.(files := [ROW], status := Downloading, reserved := Min(t.reserved, 10))
    ensures DistinctPaths(t.files + NewFiles(t, MANIFEST))
  {
    assert Basename("a") == "a" by {
      assert "a"[..0] == "";
    }
    assert t.files + NewFiles(t, MANIFEST) == [ROW];
    assert TotalSize(MANIFEST) == 10 by {
      SumAppend([], Listed("a", 10), ListedSize);
      assert [] + [Listed("a", 10)] == MANIFEST;
    }
  }

  lemma LastSteps()
    ensures Step(AFTER_CANCEL, At(4, Manifest(0, MANIFEST))) == AFTER_MANIFEST
    ensures Step(AFTER_MANIFEST, At(5, Complete(7, 0, [Report("a", None, Some(25))]))) == AFTER_COMPLETE
  {
    ManifestOfOne(CANCELED);
    var report := [Report("a", None, Some(25))];
    assert TouchAll(LISTED.files[0], report, 5) == COMPLETED.files[0] by {
      assert report[..0] == [];
      assert TouchAll(LISTED.files[0], report[..0], 5) == LISTED.files[0];
    }
    assert TouchFiles(LISTED.files, report, 5) == COMPLETED.files;
  }

  /**
   A canceled task can be finished by the worker that held it, and then takes the user past the limit its creation
   was checked against: the cancellation keeps the worker, and a completion is bounded by no reservation.
   */
  lemma CanceledTaskFinishesPastQuota() returns (run: Run)
    ensures run.Valid() && Init(run.states[0]) && |run.requests| == 5
    ensures |run.states[3].tasks| == |run.states[5].tasks| == 1
    ensures run.states[3].tasks[0].status.Canceled? && run.states[5].tasks[0].status.Completed?
    ensures Accepts(run.states[0], run.requests[0]) && run.requests[0].event == Create(0, 0)
    ensures Committed(run.states[5], 0) == 25 > LimitAtCreation(run.states[0], run.requests[0])
  {
    FirstSteps();
    LastSteps();
    run := Run([EMPTY, AFTER_CREATE, AFTER_CLAIM, AFTER_CANCEL, AFTER_MANIFEST, AFTER_COMPLETE],
               [At(1, Create(0, 0)), At(2, Claim(7, Some(0))), At(3, Cancel(0, 0)), At(4, Manifest(0, MANIFEST)),
                At(5, Complete(7, 0, [Report("a", None, Some(25))]))]);
    SumAppend([], COMPLETED, UsedBy(0));
    SumAppend([], COMPLETED, ReservedBy(0));
    SumAppend([], COMPLETED.files[0], UploadedSize);
    assert [] + [COMPLETED] == [COMPLETED] && [] + [COMPLETED.files[0]] == COMPLETED.files;
  }

  /******* Manifests *******/

  const ORPHANED := CREATED.(files := [ROW], status := Downloading)
  const AFTER_ORPHAN := AFTER_CREATE.(now := 2, tasks := [ORPHANED])

  const DOWNLOADING := CLAIMED.(files := [ROW], status := Downloading)
  const REQUEUED := DOWNLOADING.(status := Queued, worker := None, lease := None, error := Some("disk full"))
  const CLAIMED_AGAIN := ClaimRow(REQUEUED, 8, 5)
  const AFTER_FIRST_MANIFEST := AFTER_CREATE.(now := 3, tasks := [DOWNLOADING])
  const AFTER_FAIL := AFTER_CREATE.(now := 4, tasks := [REQUEUED])
  const AFTER_SECOND_CLAIM := AFTER_CREATE.(now := 5, tasks := [CLAIMED_AGAIN])

  /** A manifest for a task nobody has claimed leaves it downloading without an owner, its reservation still counted. */
  lemma ManifestOfQueuedTaskOrphansIt() returns (run: Run)
    ensures run.Valid() && Init(run.states[0]) && |run.requests| == 2
    ensures run.Accepted(0) && run.requests[0].event.Create?
    ensures run.Accepted(1) && run.requests[1].event.Manifest?
    ensures |run.states[2].tasks| == 1 && Orphan(run.states[2].tasks[0])
    ensures ReservedBytes(run.states[2], 0) == 10
  {
    FirstSteps();
    ManifestOfOne(CREATED);
    run := Run([EMPTY, AFTER_CREATE, AFTER_ORPHAN], [At(1, Create(0, 0)), At(2, Manifest(0, MANIFEST))]);
    assert run.Follows(0) && run.Follows(1);
    SumAppend([], ORPHANED, ReservedBy(0));
    assert [] + [ORPHANED] == [ORPHANED];
  }

  lemma ManifestStep()
    ensures Accepts(AFTER_CLAIM, At(3, Manifest(0, MANIFEST)))
    ensures Step(AFTER_CLAIM, At(3, Manifest(0, MANIFEST))) == AFTER_FIRST_MANIFEST
  {
    ManifestOfOne(CLAIMED);
  }

  lemma RetrySteps()
    ensures Step(AFTER_FIRST_MANIFEST, At(4, Fail(7, 0, "disk full"))) == AFTER_FAIL
    ensures Step(AFTER_FAIL, At(5, Claim(8, Some(0)))) == AFTER_SECOND_CLAIM
    ensures Accepts(AFTER_FIRST_MANIFEST, At(4, Fail(7, 0, "disk full")))
    ensures Accepts(AFTER_FAIL, At(5, Claim(8, Some(0))))
  {
    assert IsHead(AFTER_FAIL.tasks, 0);
  }

  lemma RepeatIsRefused(again: Request)
    requires again == At(6, Manifest(0, MANIFEST))
    ensures Respond(AFTER_SECOND_CLAIM, 6, again.event) == IntegrityError
    ensures Step(AFTER_SECOND_CLAIM, again) == AFTER_SECOND_CLAIM.(now := 6)
  {
    assert CLAIMED_AGAIN.files[0].path == MANIFEST[0].path == "a";
    KnownPathAborts(AFTER_SECOND_CLAIM, again, 0, "a");
  }

  /** A run goes on with one more request. */
  lemma GoOn(run: Run, r: Request, s: State) returns (longer: Run)
    requires run.Valid() && s == Step(run.states[|run.requests|], r)
    ensures longer == Run(run.states + [s], run.requests + [r]) && longer.Valid()
  {
    longer := Run(run.states + [s], run.requests + [r]);
    forall n: nat | n < |longer.requests| ensures longer.Follows(n) {
      assert n < |run.requests| ==> run.Follows(n);
    }
  }

  const RETRIED := [At(1, Create(0, 0)), At(2, Claim(7, Some(0))), At(3, Manifest(0, MANIFEST)), At(4, Fail(7, 0, "disk full")),
                    At(5, Claim(8, Some(0))), At(6, Manifest(0, MANIFEST))]

  lemma FirstManifestRun() returns (run: Run)
    ensures run.Valid() && Init(run.states[0]) && run.requests == RETRIED[..3]
    ensures run.Accepted(1) && run.Accepted(2)
    ensures run.states[3] == AFTER_FIRST_MANIFEST
  {
    FirstSteps();
    ManifestStep();
    run := GoOn(Run([EMPTY], []), RETRIED[0], AFTER_CREATE);
    run := GoOn(run, RETRIED[1], AFTER_CLAIM);
    run := GoOn(run, RETRIED[2], AFTER_FIRST_MANIFEST);
  }

  /**
   A second worker that claims a failed task and lists the same file again is turned away, after a run in which
   every request before was accepted.
   */
  lemma RetryCannotRepeatManifest() returns (run: Run)
    ensures run.Valid() && Init(run.states[0]) && run.requests == RETRIED
    ensures run.Accepted(1) && run.Accepted(2) && run.Accepted(3) && run.Accepted(4)
    ensures Owns(run.states[5], 8, 0)
    ensures Respond(run.states[5], 6, RETRIED[5].event) == IntegrityError
  {
    run := FirstManifestRun();
    RetrySteps();
    RepeatIsRefused(RETRIED[5]);
    run := GoOn(run, RETRIED[3], AFTER_FAIL);
    run := GoOn(run, RETRIED[4], AFTER_SECOND_CLAIM);
    run := GoOn(run, RETRIED[5], AFTER_SECOND_CLAIM.(now := 6));
  }

  /******* Negative sizes *******/

  const ODD := [Release(0, -90), Release(1, 100)]
  const ODD_START := State(0, [USER], ODD, [], [])
  const NEGATIVE := NewTask(0, 0, ODD[0], 1)
  const LARGE := NewTask(0, 1, ODD[1], 2)
  const DROPPED := NEGATIVE.(status := Canceled, reserved := 0)
  const ODD_SHELF := [LibraryItem(0, 0, 0, false, 1), LibraryItem(0, 1, 1, false, 2)]

  const AFTER_NEGATIVE := State(1, [USER], ODD, [NEGATIVE], ODD_SHELF[..1])
  const AFTER_LARGE := State(2, [USER], ODD, [NEGATIVE, LARGE], ODD_SHELF)
  const AFTER_DROP := AFTER_LARGE.(now := 3, tasks := [DROPPED, LARGE])

  lemma SumOfTwo(a: Task, b: Task, measure: Task -> int)
    ensures SumBy([a], measure) == measure(a)
    ensures SumBy([a, b], measure) == measure(a) + measure(b)
  {
  }

  /**
   No code refuses a negative size, and a negative reservation makes room for a creation that stays when the
   reservation goes: without any completion the user ends up past the limit, by no more than that debt.
   */
  lemma NegativeReservationLiftsLimit() returns (run: Run)
    ensures run.Valid() && Init(run.states[0]) && |run.requests| == 3
    ensures Accepts(run.states[1], run.requests[1]) && run.requests[1].event == Create(0, 1)
    ensures run.requests[2].event == Cancel(0, 0)
    ensures Committed(run.states[3], 0) == 100 == LimitAtCreation(run.states[1], run.requests[1]) + Debt(run.states[2], 0)
  {
    run := Run([ODD_START, AFTER_NEGATIVE, AFTER_LARGE, AFTER_DROP],
               [At(1, Create(0, 0)), At(2, Create(0, 1)), At(3, Cancel(0, 0))]);
    SumOfTwo(NEGATIVE, LARGE, UsedBy(0));
    SumOfTwo(NEGATIVE, LARGE, ReservedBy(0));
    SumOfTwo(NEGATIVE, LARGE, Shortfall(0));
    SumOfTwo(DROPPED, LARGE, UsedBy(0));
    SumOfTwo(DROPPED, LARGE, ReservedBy(0));
    assert Step(ODD_START, At(1, Create(0, 0))) == AFTER_NEGATIVE;
    assert Step(AFTER_NEGATIVE, At(2, Create(0, 1))) == AFTER_LARGE;
    assert Step(AFTER_LARGE, At(3, Cancel(0, 0))) == AFTER_DROP;
  }
}
