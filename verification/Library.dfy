/** The library view: per-title totals and their agreement with the quota's used bytes. */
module Library {
  import opened Model
  import opened Handlers
  import opened Invariants
  import opened Sums

  function TitleBytes(user: UserId, media: MediaId): Task -> int {
    (t: Task) => if t.user == user && t.media == media then UploadedBytes(t.files) else 0
  }

  /** What the library shows as the total of one of the user's rows. */
  function RowTotal(tasks: seq<Task>, user: UserId): LibraryItem -> int {
    (item: LibraryItem) => if item.user == user then SumBy(tasks, TitleBytes(user, item.media)) else 0
  }

  /** The bytes of one task, counted at the rows it is shown under. */
  function ShownAt(t: Task, user: UserId): LibraryItem -> int {
    (item: LibraryItem) => if item.user == user then TitleBytes(user, item.media)(t) else 0
  }

  lemma ShownOnce(library: seq<LibraryItem>, t: Task, user: UserId)
    requires UniqueRows(library) && HasRow(library, t.user, t.media)
    ensures SumBy(library, ShownAt(t, user)) == UsedBy(user)(t)
  {
    var k :| 0 <= k < |library| && IsRow(library[k], t.user, t.media);
    forall i | 0 <= i < |library| && i != k ensures ShownAt(t, user)(library[i]) == 0 {
      assert !IsRow(library[i], t.user, t.media) by {
        assert i < k ==> !IsRow(library[k], library[i].user, library[i].media);
        assert k < i ==> !IsRow(library[i], library[k].user, library[k].media);
      }
      assert TitleBytes(user, library[i].media)(t) == 0 || library[i].user != user;
    }
    SumSingle(library, k, ShownAt(t, user));
    assert TitleBytes(user, library[k].media)(t) == UsedBy(user)(t);
  }

  lemma {:induction false} TotalsOfRows(library: seq<LibraryItem>, tasks: seq<Task>, user: UserId)
    requires UniqueRows(library)
    requires forall i :: 0 <= i < |tasks| ==> HasRow(library, tasks[i].user, tasks[i].media)
    ensures SumBy(library, RowTotal(tasks, user)) == SumBy(tasks, UsedBy(user))
  {
    if tasks == [] {
      SumNothing(library, RowTotal(tasks, user));
    } else {
      var n := |tasks| - 1;
      TotalsOfRows(library, tasks[..n], user);
      ShownOnce(library, tasks[n], user);
      SumAdd(library, RowTotal(tasks[..n], user), ShownAt(tasks[n], user), RowTotal(tasks, user));
    }
  }

  /** In every reachable state the totals the library shows add up to the bytes the quota counts as used. */
  lemma LibraryTotalsAreUsedBytes(s: State, user: UserId)
    requires Inv(s)
    ensures SumBy(s.library, RowTotal(s.tasks, user)) == UsedBytes(s, user)
  {
    TotalsOfRows(s.library, s.tasks, user);
  }

  /******* The files shown under a title *******/

  function Uploaded(files: seq<TaskFile>): seq<TaskFile> {
    if files == [] then []
    else
      var n := |files| - 1;
      Uploaded(files[..n]) + if files[n].uploaded then [files[n]] else []
  }

  /** The uploaded files of the user's tasks for a title. */
  function TitleFiles(tasks: seq<Task>, user: UserId, media: MediaId): seq<TaskFile> {
    if tasks == [] then []
    else
      var n := |tasks| - 1;
      TitleFiles(tasks[..n], user, media)
      + if tasks[n].user == user && tasks[n].media == media then Uploaded(tasks[n].files) else []
  }

  function FileSize(file: TaskFile): int {
    file.sizeBytes
  }

  lemma {:induction false} UploadedSizes(files: seq<TaskFile>)
    ensures SumBy(Uploaded(files), FileSize) == UploadedBytes(files)
  {
    if files == [] {
    } else {
      var n := |files| - 1;
      UploadedSizes(files[..n]);
      if files[n].uploaded {
        SumAppend(Uploaded(files[..n]), files[n], FileSize);
      } else {
        assert Uploaded(files) == Uploaded(files[..n]);
      }
    }
  }

  lemma {:induction false} TitleFileSizes(tasks: seq<Task>, user: UserId, media: MediaId)
    ensures SumBy(TitleFiles(tasks, user, media), FileSize) == SumBy(tasks, TitleBytes(user, media))
  {
    if tasks == [] {
    } else {
      var n := |tasks| - 1;
      TitleFileSizes(tasks[..n], user, media);
      UploadedSizes(tasks[n].files);
      SumConcat(TitleFiles(tasks[..n], user, media),
                if tasks[n].user == user && tasks[n].media == media then Uploaded(tasks[n].files) else [], FileSize);
    }
  }

  /** The sizes of the files shown on a row add up to its total. */
  lemma ShelfTotal(tasks: seq<Task>, user: UserId, item: LibraryItem)
    requires item.user == user
    ensures SumBy(TitleFiles(tasks, user, item.media), FileSize) == RowTotal(tasks, user)(item)
  {
    TitleFileSizes(tasks, user, item.media);
  }

  /** Where a file row is stored: its task and its place among the task's rows. */
  datatype Place = Place(task: TaskId, row: nat)

  /** The place holds an uploaded file of one of the user's tasks for the title. */
  predicate BelongsTo(tasks: seq<Task>, user: UserId, media: MediaId, p: Place) {
    && p.task < |tasks| && tasks[p.task].user == user && tasks[p.task].media == media
    && p.row < |tasks[p.task].files| && tasks[p.task].files[p.row].uploaded
  }

  /** The listed files are those at the places, which are all the places that belong to the title, each once. */
  ghost predicate ListsPlaces(files: seq<TaskFile>, tasks: seq<Task>, user: UserId, media: MediaId, places: seq<Place>) {
    && |places| == |files|
    && (forall j :: 0 <= j < |places| ==>
          BelongsTo(tasks, user, media, places[j]) && files[j] == tasks[places[j].task].files[places[j].row])
    && (forall p :: BelongsTo(tasks, user, media, p) ==> p in places)
    && (forall i, j :: 0 <= i < j < |places| ==> places[i] != places[j])
  }

  /** The files are the title's uploaded files, each as often as it is stored. */
  ghost predicate ListsTitle(files: seq<TaskFile>, tasks: seq<Task>, user: UserId, media: MediaId) {
    exists places :: ListsPlaces(files, tasks, user, media, places)
  }

  lemma {:induction false} UploadedRows(files: seq<TaskFile>) returns (rows: seq<nat>)
    ensures |rows| == |Uploaded(files)|
    ensures forall j :: 0 <= j < |rows| ==> rows[j] < |files| && files[rows[j]].uploaded && Uploaded(files)[j] == files[rows[j]]
    ensures forall r: nat :: r < |files| && files[r].uploaded ==> r in rows
    ensures forall i, j :: 0 <= i < j < |rows| ==> rows[i] != rows[j]
  {
    if files == [] {
      rows := [];
    } else {
      var n: nat := |files| - 1;
      var before := UploadedRows(files[..n]);
      rows := before + if files[n].uploaded then [n] else [];
      forall r: nat | r < |files| && files[r].uploaded ensures r in rows {
        assert r < n ==> files[..n][r].uploaded;
      }
    }
  }

  /** The places of one more task. */
  lemma OneTaskMore(files: seq<TaskFile>, tasks: seq<Task>, t: Task, user: UserId, media: MediaId, places: seq<Place>)
    returns (places': seq<Place>)
    requires ListsPlaces(files, tasks, user, media, places)
    ensures ListsPlaces(files + if t.user == user && t.media == media then Uploaded(t.files) else [],
                        tasks + [t], user, media, places')
  {
    var rows := [];
    var n: nat, tasks' := |tasks|, tasks + [t];
    if t.user == user && t.media == media {
      rows := UploadedRows(t.files);
    }
    var added := seq(|rows|, j requires 0 <= j < |rows| => Place(n, rows[j]));
    places' := places + added;
    forall p | BelongsTo(tasks', user, media, p) ensures p in places' {
      if p.task == n {
        var j :| 0 <= j < |rows| && rows[j] == p.row;
        assert added[j] == p;
      } else {
        assert BelongsTo(tasks, user, media, p);
      }
    }
    forall i, j | 0 <= i < j < |places'| ensures places'[i] != places'[j] {
      assert i < |places| ==> places[i].task < n;
    }
  }

  lemma {:induction false} TitleFilesPlaces(tasks: seq<Task>, user: UserId, media: MediaId) returns (places: seq<Place>)
    ensures ListsPlaces(TitleFiles(tasks, user, media), tasks, user, media, places)
  {
    if tasks == [] {
      places := [];
    } else {
      var n := |tasks| - 1;
      var before := TitleFilesPlaces(tasks[..n], user, media);
      places := OneTaskMore(TitleFiles(tasks[..n], user, media), tasks[..n], tasks[n], user, media, before);
      assert tasks == tasks[..n] + [tasks[n]];
    }
  }

  /** The files shown under a title are the uploaded rows of the user's tasks for it, each exactly once. */
  lemma TitleFilesAreRows(tasks: seq<Task>, user: UserId, media: MediaId)
    ensures ListsTitle(TitleFiles(tasks, user, media), tasks, user, media)
  {
    var places := TitleFilesPlaces(tasks, user, media);
  }

  /******* Order of the rows *******/

  /** Rows were inserted in the order of their creation times, none of them in the future. */
  ghost predicate InOrder(s: State) {
    && (forall i, j :: 0 <= i < j < |s.library| ==> s.library[i].createdAt <= s.library[j].createdAt)
    && (forall i :: 0 <= i < |s.library| ==> s.library[i].createdAt <= s.now)
  }

  lemma StepKeepsOrder(s: State, r: Request)
    requires InOrder(s)
    ensures InOrder(Step(s, r))
  {
  }

  lemma {:induction false} RunKeepsOrder(run: Run, n: nat)
    requires run.Valid() && Init(run.states[0]) && n <= |run.requests|
    ensures InOrder(run.states[n])
  {
    if n == 0 {
    } else {
      RunKeepsOrder(run, n - 1);
      assert run.Follows(n - 1);
      StepKeepsOrder(run.states[n - 1], run.requests[n - 1]);
    }
  }

  /** The user's rows, the latest inserted first. */
  function RowsOf(library: seq<LibraryItem>, user: UserId): seq<LibraryItem> {
    if library == [] then []
    else
      var n := |library| - 1;
      (if library[n].user == user then [library[n]] else []) + RowsOf(library[..n], user)
  }

  ghost predicate NewestFirst(rows: seq<LibraryItem>) {
    forall i, j :: 0 <= i < j < |rows| ==> rows[i].createdAt >= rows[j].createdAt
  }

  lemma {:induction false} RowsOfMembers(library: seq<LibraryItem>, user: UserId)
    ensures forall item :: item in RowsOf(library, user) <==> item in library && item.user == user
  {
    if library == [] {
    } else {
      var n := |library| - 1;
      RowsOfMembers(library[..n], user);
      assert library == library[..n] + [library[n]];
    }
  }

  /** No title is listed twice. */
  lemma {:induction false} RowsOfDistinct(library: seq<LibraryItem>, user: UserId)
    requires UniqueRows(library)
    ensures forall i, j :: 0 <= i < j < |RowsOf(library, user)| ==> RowsOf(library, user)[i].media != RowsOf(library, user)[j].media
  {
    if library == [] {
    } else {
      var n := |library| - 1;
      var rest := RowsOf(library[..n], user);
      RowsOfDistinct(library[..n], user);
      RowsOfMembers(library[..n], user);
      forall j | 0 <= j < |rest| && library[n].user == user ensures rest[j].media != library[n].media {
        assert rest[j] in library[..n];
        var k :| 0 <= k < n && library[k] == rest[j];
        assert !IsRow(library[n], library[k].user, library[k].media);
      }
    }
  }

  lemma NewerInFront(item: LibraryItem, rows: seq<LibraryItem>)
    requires NewestFirst(rows) && forall row :: row in rows ==> row.createdAt <= item.createdAt
    ensures NewestFirst([item] + rows)
  {
    forall i, j | 0 <= i < j < |rows| + 1 ensures ([item] + rows)[i].createdAt >= ([item] + rows)[j].createdAt {
      assert rows[j - 1] in rows;
    }
  }

  /** The listed rows are sorted by creation time from newest to oldest. */
  lemma {:induction false} RowsOfNewestFirst(library: seq<LibraryItem>, user: UserId)
    requires forall i, j :: 0 <= i < j < |library| ==> library[i].createdAt <= library[j].createdAt
    ensures NewestFirst(RowsOf(library, user))
  {
    if library == [] {
    } else {
      var n := |library| - 1;
      var rest := RowsOf(library[..n], user);
      RowsOfNewestFirst(library[..n], user);
      if library[n].user == user {
        RowsOfMembers(library[..n], user);
        NewerInFront(library[n], rest);
      } else {
        assert RowsOf(library, user) == rest;
      }
    }
  }

  /** Rows of other users add nothing to the user's totals. */
  lemma {:induction false} TotalsOfUserRows(library: seq<LibraryItem>, tasks: seq<Task>, user: UserId)
    ensures SumBy(RowsOf(library, user), RowTotal(tasks, user)) == SumBy(library, RowTotal(tasks, user))
  {
    if library == [] {
    } else {
      var n := |library| - 1;
      TotalsOfUserRows(library[..n], tasks, user);
      SumConcat(if library[n].user == user then [library[n]] else [], RowsOf(library[..n], user), RowTotal(tasks, user));
      SumAppend([], library[n], RowTotal(tasks, user));
      assert [] + [library[n]] == [library[n]];
    }
  }
}
