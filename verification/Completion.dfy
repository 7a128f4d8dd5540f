/** What a completion report does to the files of its task: one override, whatever order the loop works in. */
module Completion {
  import opened Model
  import opened Handlers
  import opened Invariants
  import opened Sums

  predicate Mentions(reports: seq<Report>, path: string) {
    exists k :: 0 <= k < |reports| && reports[k].path == path
  }

  /** The two fields an entry may leave out. */
  function SizeIn(r: Report): Option<int> {
    r.sizeBytes
  }

  function KeyIn(r: Report): Option<Key> {
    r.key
  }

  predicate Gives<T>(r: Report, path: string, field: Report -> Option<T>) {
    r.path == path && field(r).Some?
  }

  /** `k` is the last entry that gives the field for the path. */
  predicate LastGiving<T>(reports: seq<Report>, path: string, field: Report -> Option<T>, k: nat) {
    k < |reports| && Gives(reports[k], path, field) && forall j :: k < j < |reports| ==> !Gives(reports[j], path, field)
  }

  predicate NoneGives<T>(reports: seq<Report>, path: string, field: Report -> Option<T>) {
    forall k :: 0 <= k < |reports| ==> !Gives(reports[k], path, field)
  }

  /** What the entries make of a field that starts as `start`, one after the other. */
  function Latest<T>(reports: seq<Report>, path: string, field: Report -> Option<T>, start: T): T {
    if reports == [] then start
    else
      var n := |reports| - 1;
      var before := Latest(reports[..n], path, field, start);
      if reports[n].path == path then field(reports[n]).GetOr(before) else before
  }

  lemma {:induction false} LatestIsLast<T>(reports: seq<Report>, path: string, field: Report -> Option<T>, start: T, k: nat)
    requires LastGiving(reports, path, field, k)
    ensures Some(Latest(reports, path, field, start)) == field(reports[k])
  {
    var n := |reports| - 1;
    if k == n {
    } else {
      assert !Gives(reports[n], path, field);
      LatestIsLast(reports[..n], path, field, start, k);
    }
  }

  lemma {:induction false} LatestIsStart<T>(reports: seq<Report>, path: string, field: Report -> Option<T>, start: T)
    requires NoneGives(reports, path, field)
    ensures Latest(reports, path, field, start) == start
  {
    if reports == [] {
    } else {
      var n := |reports| - 1;
      assert !Gives(reports[n], path, field);
      LatestIsStart(reports[..n], path, field, start);
    }
  }

  lemma {:induction false} LastGivingExists<T>(reports: seq<Report>, path: string, field: Report -> Option<T>)
    ensures (exists k: nat :: LastGiving(reports, path, field, k)) || NoneGives(reports, path, field)
  {
    if reports == [] {
    } else {
      var n := |reports| - 1;
      if Gives(reports[n], path, field) {
        assert LastGiving(reports, path, field, n);
      } else {
        LastGivingExists(reports[..n], path, field);
        if k: nat :| LastGiving(reports[..n], path, field, k) {
          assert LastGiving(reports, path, field, k);
        }
      }
    }
  }

  lemma {:induction false} ReportMarksMentioned(file: TaskFile, reports: seq<Report>, now: Time)
    ensures var r := TouchAll(file, reports, now);
      if Mentions(reports, file.path) then r.uploaded && r.uploadedAt == Some(now) else r == file
  {
    if reports == [] {
    } else {
      var n := |reports| - 1;
      var init := reports[..n];
      ReportMarksMentioned(file, init, now);
      assert Mentions(reports, file.path) <==> Mentions(init, file.path) || reports[n].path == file.path by {
        if Mentions(init, file.path) {
          var k :| 0 <= k < n && init[k].path == file.path;
          assert reports[k].path == file.path;
        }
      }
    }
  }

  lemma {:induction false} ReportSetsFields(file: TaskFile, reports: seq<Report>, now: Time)
    ensures TouchAll(file, reports, now).sizeBytes == Latest(reports, file.path, SizeIn, file.sizeBytes)
    ensures TouchAll(file, reports, now).key == Latest(reports, file.path, KeyIn, file.key)
  {
    if reports == [] {
    } else {
      ReportSetsFields(file, reports[..|reports| - 1], now);
    }
  }

  lemma FieldOverrides<T>(reports: seq<Report>, path: string, field: Report -> Option<T>, start: T)
    ensures forall k: nat :: LastGiving(reports, path, field, k) ==> Some(Latest(reports, path, field, start)) == field(reports[k])
    ensures NoneGives(reports, path, field) ==> Latest(reports, path, field, start) == start
  {
    forall k: nat | LastGiving(reports, path, field, k) ensures Some(Latest(reports, path, field, start)) == field(reports[k]) {
      LatestIsLast(reports, path, field, start, k);
    }
    if NoneGives(reports, path, field) {
      LatestIsStart(reports, path, field, start);
    }
  }

  /**
   The report overrides a file row field by field: the last entry naming its path and giving a size sets the size,
   the last one giving a key sets the key, and a row no entry names is left alone.
   */
  lemma ReportOverrides(file: TaskFile, reports: seq<Report>, now: Time)
    ensures var r := TouchAll(file, reports, now);
      && (!Mentions(reports, file.path) ==> r == file)
      && (Mentions(reports, file.path) ==> r.uploaded && r.uploadedAt == Some(now))
      && (forall k: nat :: LastGiving(reports, file.path, SizeIn, k) ==> Some(r.sizeBytes) == reports[k].sizeBytes)
      && (NoneGives(reports, file.path, SizeIn) ==> r.sizeBytes == file.sizeBytes)
      && (forall k: nat :: LastGiving(reports, file.path, KeyIn, k) ==> Some(r.key) == reports[k].key)
      && (NoneGives(reports, file.path, KeyIn) ==> r.key == file.key)
  {
    ReportMarksMentioned(file, reports, now);
    ReportSetsFields(file, reports, now);
    FieldOverrides(reports, file.path, SizeIn, file.sizeBytes);
    FieldOverrides(reports, file.path, KeyIn, file.key);
  }

  /** Applying a report a second time changes at most the upload time. */
  lemma ReportTwice(file: TaskFile, reports: seq<Report>, first: Time, second: Time)
    ensures var once := TouchAll(file, reports, first);
      TouchAll(once, reports, second) == if Mentions(reports, file.path) then once.(uploadedAt := Some(second)) else once
  {
    var once := TouchAll(file, reports, first);
    ReportOverrides(file, reports, first);
    ReportOverrides(once, reports, second);
    LastGivingExists(reports, file.path, SizeIn);
    LastGivingExists(reports, file.path, KeyIn);
  }

  /** The database without the moments of upload and of the last request. */
  function Timeless(s: State): State {
    s.(now := 0, tasks := MapRows(s.tasks, TimelessTask))
  }

  function TimelessTask(t: Task): Task {
    t.(files := seq(|t.files|, i requires 0 <= i < |t.files| => t.files[i].(uploadedAt := None)))
  }

  /** Sending the same completion again is accepted and changes nothing but times. */
  lemma CompleteIsIdempotent(s: State, r: Request, again: Request)
    requires Accepts(s, r) && r.event.Complete?
    requires again.event == r.event && r.time <= again.time
    ensures Accepts(Step(s, r), again)
    ensures Timeless(Step(Step(s, r), again)) == Timeless(Step(s, r))
  {
    var t, reports := r.event.task, r.event.reports;
    var once := Step(s, r);
    var twice := Step(once, again);
    forall i | 0 <= i < |s.tasks[t].files|
      ensures twice.tasks[t].files[i].(uploadedAt := None) == once.tasks[t].files[i].(uploadedAt := None)
    {
      ReportTwice(s.tasks[t].files[i], reports, r.time, again.time);
    }
    assert TimelessTask(twice.tasks[t]) == TimelessTask(once.tasks[t]);
    assert twice.library == once.library;
    assert Timeless(twice).tasks == Timeless(once).tasks;
  }

  /** An accepted completion moves the owner's used bytes by the change of that task's uploaded bytes, nobody else's. */
  lemma CompleteMovesUsedBytes(s: State, r: Request, user: UserId)
    requires Accepts(s, r) && r.event.Complete?
    ensures var t := s.tasks[r.event.task];
      UsedBytes(Step(s, r), user) - UsedBytes(s, user) ==
        if t.user == user then UploadedBytes(TouchFiles(t.files, r.event.reports, r.time)) - UploadedBytes(t.files) else 0
  {
    var t := r.event.task;
    SumUpdate(s.tasks, t, CompleteRow(s.tasks[t], r.event.reports, r.time), UsedBy(user));
  }
}
