/**
 Claims in finer grain: a claimer locks the row its SKIP LOCKED query returns, and later commits or aborts.
 Any number of claimers interleave; tasks may be created in between.
 */
module ClaimLocks {
  import opened Model
  import opened Handlers
  import opened Sums

  type Claimer = nat

  /** A locked row and what its transaction is going to write. */
  datatype Hold = Hold(task: TaskId, worker: WorkerId, time: Time)

  /** Committed rows and the open transactions that hold a row lock. */
  datatype Floor = Floor(db: State, holds: map<Claimer, Hold>)

  datatype Move =
    | Lock(claimer: Claimer, worker: WorkerId, time: Time, pick: Option<TaskId>)
    | Commit(claimer: Claimer)
    | Abort(claimer: Claimer)
    | Arrive(time: Time, user: UserId, release: ReleaseId)

  predicate Locked(f: Floor, i: TaskId) {
    exists c :: c in f.holds && f.holds[c].task == i
  }

  predicate Free(f: Floor, i: TaskId) {
    IsQueued(f.db.tasks, i) && !Locked(f, i)
  }

  /** A row the query may return: queued, not locked, and none such strictly before it. */
  predicate FreeHead(f: Floor, i: TaskId) {
    && Free(f, i)
    && forall j: nat :: j < |f.db.tasks| && Free(f, j) ==> !Before(f.db.tasks[j], f.db.tasks[i].priority, f.db.tasks[i].createdAt)
  }

  predicate CanMove(f: Floor, m: Move) {
    match m
    case Lock(c, _, time, pick) =>
      && c !in f.holds && f.db.now <= time
      && (match pick
          case None => forall j: nat :: j < |f.db.tasks| ==> !Free(f, j)
          case Some(i) => FreeHead(f, i))
    case Commit(c) => c in f.holds && f.holds[c].task < |f.db.tasks|
    case Abort(c) => c in f.holds
    case Arrive(time, _, _) => f.db.now <= time
  }

  function After(f: Floor, m: Move): Floor
    requires CanMove(f, m)
  {
    match m
    case Lock(c, w, time, pick) =>
      Floor(f.db.(now := time), if pick.Some? then f.holds[c := Hold(pick.value, w, time)] else f.holds)
    case Commit(c) =>
      var h := f.holds[c];
      Floor(f.db.(tasks := f.db.tasks[h.task := ClaimRow(f.db.tasks[h.task], h.worker, h.time)]), f.holds - {c})
    case Abort(c) => f.(holds := f.holds - {c})
    case Arrive(time, u, r) => f.(db := Step(f.db, At(time, Create(u, r))))
  }

  /** An interleaving of the moves of all claimers. */
  datatype Interleaving = Interleaving(floors: seq<Floor>, moves: seq<Move>) {
    ghost predicate Valid() {
      && |floors| == |moves| + 1
      && floors[0].holds == map[]
      && forall n: nat :: n < |moves| ==> Follows(n)
    }

    ghost predicate Follows(n: nat)
      requires |floors| == |moves| + 1 && n < |moves|
    {
      CanMove(floors[n], moves[n]) && floors[n + 1] == After(floors[n], moves[n])
    }
  }

  /******* Exclusion, with aborts *******/

  /** No two claimers hold the same row, and held rows are still queued. */
  ghost predicate Exclusive(f: Floor) {
    && (forall c :: c in f.holds ==> IsQueued(f.db.tasks, f.holds[c].task))
    && (forall c, d :: c in f.holds && d in f.holds && f.holds[c].task == f.holds[d].task ==> c == d)
  }

  lemma MoveKeepsExclusive(f: Floor, m: Move)
    requires Exclusive(f) && CanMove(f, m)
    ensures Exclusive(After(f, m))
  {
    if m.Lock? && m.pick.Some? {
      forall c | c in f.holds ensures f.holds[c].task != m.pick.value {
        assert !Locked(f, m.pick.value);
      }
    }
  }

  /** In every interleaving of locks, commits and aborts no row is held by two claimers. */
  lemma {:induction false} AlwaysExclusive(il: Interleaving, n: nat)
    requires il.Valid() && n <= |il.moves|
    ensures Exclusive(il.floors[n])
  {
    if n == 0 {
    } else {
      AlwaysExclusive(il, n - 1);
      assert il.Follows(n - 1);
      MoveKeepsExclusive(il.floors[n - 1], il.moves[n - 1]);
    }
  }

  predicate HandsOver(f: Floor, m: Move, i: TaskId) {
    m.Commit? && m.claimer in f.holds && f.holds[m.claimer].task == i
  }

  predicate Taken(f: Floor, i: TaskId) {
    i < |f.db.tasks| && !f.db.tasks[i].status.Queued?
  }

  lemma TakenStays(f: Floor, m: Move, i: TaskId)
    requires CanMove(f, m)
    ensures Taken(f, i) ==> Taken(After(f, m), i)
    ensures HandsOver(f, m, i) ==> Taken(After(f, m), i)
  {
  }

  lemma {:induction false} TakenForever(il: Interleaving, i: TaskId, m: nat, n: nat)
    requires il.Valid() && m <= n <= |il.moves| && Taken(il.floors[m], i)
    ensures Taken(il.floors[n], i)
  {
    if m == n {
    } else {
      TakenForever(il, i, m, n - 1);
      assert il.Follows(n - 1);
      TakenStays(il.floors[n - 1], il.moves[n - 1], i);
    }
  }

  /** No task is handed over by two commits, however often claimers abort in between. */
  lemma HandedOverOnce(il: Interleaving, i: TaskId, m: nat, n: nat)
    requires il.Valid() && m < n < |il.moves|
    requires HandsOver(il.floors[m], il.moves[m], i)
    ensures !HandsOver(il.floors[n], il.moves[n], i)
  {
    assert il.Follows(m);
    TakenStays(il.floors[m], il.moves[m], i);
    TakenForever(il, i, m + 1, n);
    AlwaysExclusive(il, n);
  }

  /******* What a lock holds, and what an abort undoes *******/

  /** An abort leaves the committed rows and all other locks as they are and frees the row its claimer held. */
  lemma AbortReleases(f: Floor, c: Claimer)
    requires Exclusive(f) && c in f.holds
    ensures CanMove(f, Abort(c))
    ensures var f' := After(f, Abort(c));
      && f'.db == f.db && Free(f', f.holds[c].task)
      && forall d :: d in f'.holds <==> d in f.holds && d != c
    ensures forall d :: d in f.holds && d != c ==> After(f, Abort(c)).holds[d] == f.holds[d]
  {
  }

  /** In every interleaving a claimer that holds a row may commit or abort. */
  lemma HoldersMayEnd(il: Interleaving, c: Claimer, n: nat)
    requires il.Valid() && n <= |il.moves| && c in il.floors[n].holds
    ensures CanMove(il.floors[n], Commit(c)) && CanMove(il.floors[n], Abort(c))
  {
    AlwaysExclusive(il, n);
  }

  /** Locking and aborting leaves no trace but the time. */
  lemma AbortUndoesLock(f: Floor, m: Move)
    requires CanMove(f, m) && m.Lock? && m.pick.Some?
    ensures CanMove(After(f, m), Abort(m.claimer))
    ensures After(After(f, m), Abort(m.claimer)) == f.(db := f.db.(now := m.time))
  {
    assert f.holds[m.claimer := Hold(m.pick.value, m.worker, m.time)] - {m.claimer} == f.holds;
  }

  predicate Ends(m: Move, c: Claimer) {
    (m.Commit? || m.Abort?) && m.claimer == c
  }

  /** The claimer made this lock at `k` and has neither committed nor aborted before `n`. */
  ghost predicate HeldSince(il: Interleaving, c: Claimer, h: Hold, k: nat, n: nat)
    requires n <= |il.moves|
  {
    && k < n && il.moves[k] == Lock(c, h.worker, h.time, Some(h.task))
    && forall j :: k < j < n ==> !Ends(il.moves[j], c)
  }

  ghost predicate HeldAt(il: Interleaving, c: Claimer, h: Hold, n: nat)
    requires n <= |il.moves|
  {
    exists k: nat :: HeldSince(il, c, h, k, n)
  }

  lemma HoldsAfter(f: Floor, m: Move, c: Claimer, h: Hold)
    requires CanMove(f, m)
    ensures var f' := After(f, m);
      c in f'.holds && f'.holds[c] == h <==>
        m == Lock(c, h.worker, h.time, Some(h.task)) || (c in f.holds && f.holds[c] == h && !Ends(m, c))
  {
  }

  lemma HeldStep(il: Interleaving, c: Claimer, h: Hold, n: nat)
    requires n < |il.moves|
    ensures HeldAt(il, c, h, n + 1) <==>
      il.moves[n] == Lock(c, h.worker, h.time, Some(h.task)) || (HeldAt(il, c, h, n) && !Ends(il.moves[n], c))
  {
    if il.moves[n] == Lock(c, h.worker, h.time, Some(h.task)) {
      assert HeldSince(il, c, h, n, n + 1);
    }
    if HeldAt(il, c, h, n + 1) {
      var k: nat :| HeldSince(il, c, h, k, n + 1);
      assert k < n ==> HeldSince(il, c, h, k, n) && !Ends(il.moves[n], c);
    }
    if HeldAt(il, c, h, n) && !Ends(il.moves[n], c) {
      var k: nat :| HeldSince(il, c, h, k, n);
      assert HeldSince(il, c, h, k, n + 1);
    }
  }

  /** With any number of aborts, a claimer holds a row exactly if it locked it and has not committed or aborted since. */
  lemma {:induction false} HeldExactly(il: Interleaving, c: Claimer, h: Hold, n: nat)
    requires il.Valid() && n <= |il.moves|
    ensures c in il.floors[n].holds && il.floors[n].holds[c] == h <==> HeldAt(il, c, h, n)
  {
    if n == 0 {
    } else {
      HeldExactly(il, c, h, n - 1);
      assert il.Follows(n - 1);
      HoldsAfter(il.floors[n - 1], il.moves[n - 1], c, h);
      HeldStep(il, c, h, n - 1);
    }
  }

  predicate HandsOverAt(il: Interleaving, i: TaskId, n: nat)
    requires n < |il.moves| <= |il.floors|
  {
    HandsOver(il.floors[n], il.moves[n], i)
  }

  lemma MoveWritesHandOver(f: Floor, m: Move, i: TaskId)
    requires CanMove(f, m) && i < |f.db.tasks|
    ensures i < |After(f, m).db.tasks|
    ensures After(f, m).db.tasks[i] ==
      if HandsOver(f, m, i) then ClaimRow(f.db.tasks[i], f.holds[m.claimer].worker, f.holds[m.claimer].time) else f.db.tasks[i]
  {
  }

  /**
   With any number of aborts, a committed row changes only by the one commit that hands it over, to the worker and at
   the time of its lock; locks and aborts never show.
   */
  lemma {:induction false} OnlyCommitsShow(il: Interleaving, i: TaskId, m: nat, n: nat)
    requires il.Valid() && m <= n <= |il.moves| && i < |il.floors[m].db.tasks|
    ensures i < |il.floors[n].db.tasks|
    ensures (forall k :: m <= k < n ==> !HandsOverAt(il, i, k)) ==> il.floors[n].db.tasks[i] == il.floors[m].db.tasks[i]
    ensures forall k :: m <= k < n && HandsOverAt(il, i, k) ==>
      var h := il.floors[k].holds[il.moves[k].claimer];
      il.floors[n].db.tasks[i] == ClaimRow(il.floors[m].db.tasks[i], h.worker, h.time)
  {
    if m == n {
    } else {
      OnlyCommitsShow(il, i, m, n - 1);
      assert il.Follows(n - 1);
      MoveWritesHandOver(il.floors[n - 1], il.moves[n - 1], i);
      assert HandsOverAt(il, i, n - 1) <==> HandsOver(il.floors[n - 1], il.moves[n - 1], i);
      forall k | m <= k < n - 1 && HandsOverAt(il, i, k) ensures !HandsOverAt(il, i, n - 1) {
        HandedOverOnce(il, i, k, n - 1);
      }
    }
  }

  /******* Without aborts: the same as atomic claims in lock order *******/

  ghost function HoldOf(f: Floor, i: TaskId): Hold
    requires Locked(f, i)
  {
    var c :| c in f.holds && f.holds[c].task == i;
    f.holds[c]
  }

  /** The row as it will be once its lock holder has committed. */
  ghost function Foreseen(f: Floor, i: TaskId): Task
    requires i < |f.db.tasks|
  {
    if Locked(f, i) then ClaimRow(f.db.tasks[i], HoldOf(f, i).worker, HoldOf(f, i).time) else f.db.tasks[i]
  }

  /** The database as if every open claim had committed. */
  ghost function Settled(f: Floor): (s: State)
    ensures |s.tasks| == |f.db.tasks| && forall i: nat :: i < |s.tasks| ==> s.tasks[i] == Foreseen(f, i)
  {
    f.db.(tasks := seq(|f.db.tasks|, i requires 0 <= i < |f.db.tasks| => Foreseen(f, i)))
  }

  lemma HoldIsUnique(f: Floor, c: Claimer)
    requires Exclusive(f) && c in f.holds
    ensures Locked(f, f.holds[c].task) && HoldOf(f, f.holds[c].task) == f.holds[c]
  {
  }

  lemma FreeIsQueuedWhenSettled(f: Floor, i: TaskId)
    requires Exclusive(f)
    ensures Free(f, i) <==> IsQueued(Settled(f).tasks, i)
  {
  }

  /** The atomic request a move stands for: locking is the moment a claim takes effect. */
  function AtomicOf(m: Move): Option<Request> {
    match m
    case Lock(_, w, time, pick) => Some(At(time, Claim(w, pick)))
    case Arrive(time, u, r) => Some(At(time, Create(u, r)))
    case _ => None
  }

  /** The row `j` is held by the same claimers on both floors. */
  ghost predicate SameHolders(f: Floor, f': Floor, j: TaskId) {
    forall c :: (c in f.holds && f.holds[c].task == j) || (c in f'.holds && f'.holds[c].task == j) ==>
      c in f.holds && c in f'.holds && f'.holds[c] == f.holds[c]
  }

  lemma ForeseenCarriesOver(f: Floor, f': Floor, j: TaskId)
    requires Exclusive(f) && Exclusive(f') && SameHolders(f, f', j)
    requires j < |f.db.tasks| && j < |f'.db.tasks| && f'.db.tasks[j] == f.db.tasks[j]
    ensures Foreseen(f', j) == Foreseen(f, j)
  {
  }

  lemma FreeHeadIsHead(f: Floor, i: TaskId)
    requires Exclusive(f) && FreeHead(f, i)
    ensures IsHead(Settled(f).tasks, i)
  {
  }

  lemma LockIsAccepted(f: Floor, m: Move)
    requires Exclusive(f) && CanMove(f, m) && m.Lock?
    ensures Accepts(Settled(f), AtomicOf(m).value)
  {
    if m.pick.Some? {
      FreeHeadIsHead(f, m.pick.value);
    } else {
      forall j: nat | j < |f.db.tasks| ensures !IsQueued(Settled(f).tasks, j) {
        FreeIsQueuedWhenSettled(f, j);
      }
    }
  }

  /** What a claimer may lock is exactly what an atomic claim may take once the open claims count as done. */
  lemma LockableExactly(f: Floor, c: Claimer, worker: WorkerId, time: Time, pick: Option<TaskId>)
    requires Exclusive(f) && c !in f.holds && f.db.now <= time
    ensures CanMove(f, Lock(c, worker, time, pick)) <==> Accepts(Settled(f), At(time, Claim(worker, pick)))
  {
    if CanMove(f, Lock(c, worker, time, pick)) {
      LockIsAccepted(f, Lock(c, worker, time, pick));
    }
    forall j: nat | j < |f.db.tasks| ensures Free(f, j) <==> IsQueued(Settled(f).tasks, j) {
      FreeIsQueuedWhenSettled(f, j);
    }
    forall j: nat | Free(f, j) ensures Settled(f).tasks[j] == f.db.tasks[j] {
    }
  }

  lemma LockSettlesRows(f: Floor, m: Move, j: TaskId)
    requires Exclusive(f) && CanMove(f, m) && m.Lock? && j < |f.db.tasks|
    ensures Foreseen(After(f, m), j) ==
      if m.pick == Some(j) then ClaimRow(Foreseen(f, j), m.worker, m.time) else Foreseen(f, j)
  {
    var f' := After(f, m);
    MoveKeepsExclusive(f, m);
    if m.pick == Some(j) {
      HoldIsUnique(f', m.claimer);
    } else {
      ForeseenCarriesOver(f, f', j);
    }
  }

  /** Locking a row is the moment the atomic claim of it takes effect. */
  lemma LockIsAtomicClaim(f: Floor, m: Move)
    requires Exclusive(f) && CanMove(f, m) && m.Lock?
    ensures Accepts(Settled(f), AtomicOf(m).value)
    ensures Settled(After(f, m)) == Step(Settled(f), AtomicOf(m).value)
  {
    LockIsAccepted(f, m);
    forall j: nat | j < |f.db.tasks|
      ensures Settled(After(f, m)).tasks[j] ==
        if m.pick == Some(j) then ClaimRow(Settled(f).tasks[j], m.worker, m.time) else Settled(f).tasks[j]
    {
      LockSettlesRows(f, m, j);
    }
    assert Settled(After(f, m)).tasks == Step(Settled(f), AtomicOf(m).value).tasks;
  }

  lemma CommitSettlesNothingNew(f: Floor, m: Move)
    requires Exclusive(f) && CanMove(f, m) && m.Commit?
    ensures Settled(After(f, m)) == Settled(f)
  {
    var f', h := After(f, m), f.holds[m.claimer];
    MoveKeepsExclusive(f, m);
    HoldIsUnique(f, m.claimer);
    forall j: nat | j < |f.db.tasks| && j != h.task ensures Foreseen(f', j) == Foreseen(f, j) {
      ForeseenCarriesOver(f, f', j);
    }
    assert Settled(f').tasks == Settled(f).tasks;
  }

  lemma SettlingKeepsBytes(f: Floor, user: UserId, i: TaskId)
    requires Exclusive(f) && i < |f.db.tasks|
    ensures UsedBy(user)(Foreseen(f, i)) == UsedBy(user)(f.db.tasks[i])
    ensures ReservedBy(user)(Foreseen(f, i)) == ReservedBy(user)(f.db.tasks[i])
  {
  }

  /** A claimed task is as active as a queued one, so open claims do not change a quota check. */
  lemma SettlingKeepsSums(f: Floor, user: UserId)
    requires Exclusive(f)
    ensures UsedBytes(Settled(f), user) == UsedBytes(f.db, user)
    ensures ReservedBytes(Settled(f), user) == ReservedBytes(f.db, user)
  {
    var s := Settled(f);
    forall i: nat | i < |s.tasks|
      ensures UsedBy(user)(s.tasks[i]) == UsedBy(user)(f.db.tasks[i])
      ensures ReservedBy(user)(s.tasks[i]) == ReservedBy(user)(f.db.tasks[i])
    {
      SettlingKeepsBytes(f, user, i);
    }
    SumCompare(s.tasks, UsedBy(user), f.db.tasks, UsedBy(user));
    SumCompare(f.db.tasks, UsedBy(user), s.tasks, UsedBy(user));
    SumCompare(s.tasks, ReservedBy(user), f.db.tasks, ReservedBy(user));
    SumCompare(f.db.tasks, ReservedBy(user), s.tasks, ReservedBy(user));
  }

  /** Creating a task gives the same answer and appends the same rows before and after open claims settle. */
  lemma CreationIgnoresClaims(f: Floor, time: Time, user: UserId, release: ReleaseId)
    requires Exclusive(f) && f.db.now <= time
    ensures var s, s' := Step(Settled(f), At(time, Create(user, release))), Step(f.db, At(time, Create(user, release)));
      s == s'.(tasks := Settled(f).tasks + s'.tasks[|f.db.tasks|..]) && f.db.tasks <= s'.tasks
  {
    SettlingKeepsSums(f, user);
  }

  lemma ArrivalIsAtomic(f: Floor, m: Move)
    requires Exclusive(f) && CanMove(f, m) && m.Arrive?
    ensures Settled(After(f, m)) == Step(Settled(f), AtomicOf(m).value)
  {
    CreationIgnoresClaims(f, m.time, m.user, m.release);
    var f' := After(f, m);
    MoveKeepsExclusive(f, m);
    forall j: nat | j < |f.db.tasks| ensures Foreseen(f', j) == Foreseen(f, j) {
      ForeseenCarriesOver(f, f', j);
    }
    assert Settled(f').tasks == Settled(f).tasks + f'.db.tasks[|f.db.tasks|..];
  }

  lemma MoveIsAtomic(f: Floor, m: Move)
    requires Exclusive(f) && CanMove(f, m) && !m.Abort?
    ensures Settled(After(f, m)) == if AtomicOf(m).Some? then Step(Settled(f), AtomicOf(m).value) else Settled(f)
  {
    match m
    case Lock(_, _, _, _) => LockIsAtomicClaim(f, m);
    case Arrive(_, _, _) => ArrivalIsAtomic(f, m);
    case Commit(_) => CommitSettlesNothingNew(f, m);
  }

  /** The first `n` moves as atomic requests, claims standing where their locks do. */
  function LockOrder(moves: seq<Move>, n: nat): seq<Request>
    requires n <= |moves|
  {
    if n == 0 then []
    else
      match AtomicOf(moves[n - 1])
      case None => LockOrder(moves, n - 1)
      case Some(r) => LockOrder(moves, n - 1) + [r]
  }

  ghost function Outcome(s: State, requests: seq<Request>): State {
    RunOf(s, requests).states[|requests|]
  }

  lemma OutcomeAppend(s: State, requests: seq<Request>, r: Request)
    ensures Outcome(s, requests + [r]) == Step(Outcome(s, requests), r)
  {
  }

  /**
   Without aborts, every interleaving leads where atomic claims made in lock order lead, whatever the commit order;
   open claims count as done.
   */
  lemma {:induction false} SameAsAtomicClaims(il: Interleaving, n: nat)
    requires il.Valid() && n <= |il.moves|
    requires forall k :: 0 <= k < n ==> !il.moves[k].Abort?
    ensures Settled(il.floors[n]) == Outcome(il.floors[0].db, LockOrder(il.moves, n))
  {
    if n == 0 {
      assert Settled(il.floors[0]).tasks == il.floors[0].db.tasks;
    } else {
      SameAsAtomicClaims(il, n - 1);
      AlwaysExclusive(il, n - 1);
      assert il.Follows(n - 1);
      var m := il.moves[n - 1];
      MoveIsAtomic(il.floors[n - 1], m);
      if AtomicOf(m).Some? {
        OutcomeAppend(il.floors[0].db, LockOrder(il.moves, n - 1), AtomicOf(m).value);
      }
    }
  }

  /** Each lock takes what the atomic claim at its place in lock order is entitled to. */
  lemma LocksAreAtomicClaims(il: Interleaving, n: nat)
    requires il.Valid() && n < |il.moves| && il.moves[n].Lock?
    requires forall k :: 0 <= k < n ==> !il.moves[k].Abort?
    ensures Accepts(Outcome(il.floors[0].db, LockOrder(il.moves, n)), AtomicOf(il.moves[n]).value)
  {
    SameAsAtomicClaims(il, n);
    AlwaysExclusive(il, n);
    assert il.Follows(n);
    LockIsAtomicClaim(il.floors[n], il.moves[n]);
  }

  /** Once all claimers have committed, the committed rows themselves are those of the atomic claims. */
  lemma CommittedAsAtomicClaims(il: Interleaving, n: nat)
    requires il.Valid() && n <= |il.moves| && il.floors[n].holds == map[]
    requires forall k :: 0 <= k < n ==> !il.moves[k].Abort?
    ensures il.floors[n].db == Outcome(il.floors[0].db, LockOrder(il.moves, n))
  {
    SameAsAtomicClaims(il, n);
    assert Settled(il.floors[n]).tasks == il.floors[n].db.tasks;
  }
}
