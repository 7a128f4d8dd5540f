/** Interleaved claims some of which abort: when the claims that survive are still those of an atomic order. */
module ClaimAborts {
  import opened Model
  import opened Handlers
  import opened ClaimLocks

  /** What the claimer holds before move `k` it gives up by an abort among the first `n` moves. */
  ghost predicate Doomed(il: Interleaving, c: Claimer, k: nat, n: nat)
    requires n <= |il.moves|
  {
    exists a: nat :: AbortsNext(il, c, k, a, n)
  }

  /** The abort at `a` is the first thing from `k` on to end a lock of the claimer. */
  ghost predicate AbortsNext(il: Interleaving, c: Claimer, k: nat, a: nat, n: nat)
    requires n <= |il.moves|
  {
    k <= a < n && il.moves[a] == Abort(c) && forall j :: k <= j < a ==> !Ends(il.moves[j], c)
  }

  lemma DoomedStep(il: Interleaving, c: Claimer, k: nat, n: nat)
    requires k < n <= |il.moves|
    ensures Doomed(il, c, k, n) <==> if Ends(il.moves[k], c) then il.moves[k].Abort? else Doomed(il, c, k + 1, n)
  {
    if Doomed(il, c, k, n) {
      var a: nat :| AbortsNext(il, c, k, a, n);
      assert k < a ==> AbortsNext(il, c, k + 1, a, n);
    }
    if il.moves[k] == Abort(c) {
      assert AbortsNext(il, c, k, k, n);
    }
    if !Ends(il.moves[k], c) && Doomed(il, c, k + 1, n) {
      var a: nat :| AbortsNext(il, c, k + 1, a, n);
      assert AbortsNext(il, c, k, a, n);
    }
  }

  /** The floor without the locks that are going to be given up. */
  ghost function Kept(il: Interleaving, k: nat, n: nat): Floor
    requires k <= n <= |il.moves| < |il.floors|
  {
    var f := il.floors[k];
    Floor(f.db, map c | c in f.holds && !Doomed(il, c, k, n) :: f.holds[c])
  }

  /** The lock at `k` takes a row that its claimer gives up again. */
  ghost predicate GivenUp(il: Interleaving, k: nat, n: nat)
    requires k < n <= |il.moves|
  {
    il.moves[k].Lock? && il.moves[k].pick.Some? && Doomed(il, il.moves[k].claimer, k + 1, n)
  }

  ghost predicate SurvivingLock(il: Interleaving, k: nat, n: nat)
    requires k < n <= |il.moves|
  {
    il.moves[k].Lock? && !GivenUp(il, k, n)
  }

  /** The lock at `k` finds a row locked that comes before what it takes, and whose lock is given up later. */
  ghost predicate PassesOver(il: Interleaving, k: nat, n: nat)
    requires k < n <= |il.moves| < |il.floors| && il.moves[k].Lock?
  {
    exists c :: PassedOver(il, c, k, n)
  }

  ghost predicate PassedOver(il: Interleaving, c: Claimer, k: nat, n: nat)
    requires k < n <= |il.moves| < |il.floors| && il.moves[k].Lock?
  {
    var f, pick := il.floors[k], il.moves[k].pick;
    && c in f.holds && Doomed(il, c, k, n) && f.holds[c].task < |f.db.tasks|
    && (pick.Some? && pick.value < |f.db.tasks| ==>
          Before(f.db.tasks[f.holds[c].task], f.db.tasks[pick.value].priority, f.db.tasks[pick.value].createdAt))
  }

  lemma KeptIsExclusive(il: Interleaving, k: nat, n: nat)
    requires k <= n <= |il.moves| < |il.floors| && Exclusive(il.floors[k])
    ensures Exclusive(Kept(il, k, n))
  {
  }

  lemma FreeOnceGivenUp(il: Interleaving, k: nat, n: nat, i: TaskId)
    requires k <= n <= |il.moves| < |il.floors| && Exclusive(il.floors[k])
    ensures Free(Kept(il, k, n), i) <==>
      Free(il.floors[k], i) || exists c :: c in il.floors[k].holds && Doomed(il, c, k, n) && il.floors[k].holds[c].task == i
  {
    var f, g := il.floors[k], Kept(il, k, n);
    if c :| c in f.holds && f.holds[c].task == i {
      assert Locked(f, i) && IsQueued(f.db.tasks, i);
      if !Doomed(il, c, k, n) {
        assert c in g.holds && g.holds[c].task == i;
      } else {
        forall d | d in g.holds ensures g.holds[d].task != i {
          assert d in f.holds && f.holds[d] == g.holds[d];
        }
      }
    }
  }

  /** A lock that survives could be made on the kept floor exactly when it passes over nothing. */
  lemma KeptLockable(il: Interleaving, k: nat, n: nat)
    requires k < n <= |il.moves| < |il.floors| && il.moves[k].Lock?
    requires Exclusive(il.floors[k]) && CanMove(il.floors[k], il.moves[k])
    ensures CanMove(Kept(il, k, n), il.moves[k]) <==> !PassesOver(il, k, n)
  {
    var f, g, m := il.floors[k], Kept(il, k, n), il.moves[k];
    forall i: nat ensures Free(g, i) <==>
      Free(f, i) || exists c :: c in f.holds && Doomed(il, c, k, n) && f.holds[c].task == i
    {
      FreeOnceGivenUp(il, k, n, i);
    }
    if PassesOver(il, k, n) {
      var c :| PassedOver(il, c, k, n);
      assert Free(g, f.holds[c].task);
    } else {
      forall j: nat | j < |f.db.tasks| && Free(g, j) && !Free(f, j)
        ensures m.pick.Some? && !Before(f.db.tasks[j], f.db.tasks[m.pick.value].priority, f.db.tasks[m.pick.value].createdAt)
      {
        var c :| c in f.holds && Doomed(il, c, k, n) && f.holds[c].task == j;
        assert !PassedOver(il, c, k, n);
      }
    }
  }

  /** What one move does to the kept floor: the same move, or only time passing if it takes or ends a lock given up. */
  lemma KeptMoves(il: Interleaving, k: nat, n: nat)
    requires k < n <= |il.moves| < |il.floors| && CanMove(il.floors[k], il.moves[k])
    requires il.floors[k + 1] == After(il.floors[k], il.moves[k])
    ensures var g, g', m := Kept(il, k, n), Kept(il, k + 1, n), il.moves[k];
      if GivenUp(il, k, n) then g' == g.(db := g.db.(now := m.time))
      else if m.Abort? then g' == g
      else if m.Lock? then CanMove(g, m) ==> g' == After(g, m)
      else CanMove(g, m) && g' == After(g, m)
  {
    var g, g', m := Kept(il, k, n), Kept(il, k + 1, n), il.moves[k];
    forall c ensures Doomed(il, c, k, n) <==> if Ends(m, c) then m.Abort? else Doomed(il, c, k + 1, n) {
      DoomedStep(il, c, k, n);
    }
    if GivenUp(il, k, n) || m.Abort? {
      assert g'.holds == g.holds;
    } else if m.Lock? {
      assert g'.holds == if m.pick.Some? then g.holds[m.claimer := Hold(m.pick.value, m.worker, m.time)] else g.holds;
    } else if m.Commit? {
      assert g'.holds == g.holds - {m.claimer};
    } else {
      assert g'.holds == g.holds;
    }
  }

  /******* The atomic order of what survives *******/

  /** The first `k` moves as atomic requests, without the locks that are given up. */
  ghost function KeptOrder(il: Interleaving, k: nat, n: nat): seq<Request>
    requires k <= n <= |il.moves|
  {
    if k == 0 then []
    else
      var before := KeptOrder(il, k - 1, n);
      if AtomicOf(il.moves[k - 1]).None? || GivenUp(il, k - 1, n) then before else before + [AtomicOf(il.moves[k - 1]).value]
  }

  predicate SameButTime(s: State, t: State) {
    s == t.(now := s.now)
  }

  /** The time of the last request is no part of any answer. */
  lemma StepIgnoresTime(s: State, t: State, r: Request)
    requires SameButTime(s, t) && s.now <= r.time && t.now <= r.time
    ensures Accepts(s, r) <==> Accepts(t, r)
    ensures SameButTime(Step(s, r), Step(t, r)) && Step(t, r).now <= r.time
  {
  }

  /** The kept rows as if every open claim had committed are where the atomic requests lead. */
  ghost predicate InOrder(il: Interleaving, k: nat, n: nat)
    requires k <= n <= |il.moves| < |il.floors|
  {
    var t := Outcome(il.floors[0].db, KeptOrder(il, k, n));
    SameButTime(Settled(Kept(il, k, n)), t) && t.now <= il.floors[k].db.now
  }

  lemma RequestInOrder(il: Interleaving, k: nat, n: nat)
    requires k < n <= |il.moves| < |il.floors| && InOrder(il, k, n) && !GivenUp(il, k, n)
    requires AtomicOf(il.moves[k]).Some? && il.floors[k].db.now <= AtomicOf(il.moves[k]).value.time
    requires Settled(Kept(il, k + 1, n)) == Step(Settled(Kept(il, k, n)), AtomicOf(il.moves[k]).value)
    requires il.floors[k + 1].db.now == AtomicOf(il.moves[k]).value.time
    ensures InOrder(il, k + 1, n)
  {
    var r, requests := AtomicOf(il.moves[k]).value, KeptOrder(il, k, n);
    StepIgnoresTime(Settled(Kept(il, k, n)), Outcome(il.floors[0].db, requests), r);
    OutcomeAppend(il.floors[0].db, requests, r);
  }

  lemma TimePasses(f: Floor, time: Time)
    requires Exclusive(f)
    ensures Settled(f.(db := f.db.(now := time))) == Settled(f).(now := time)
  {
    var f' := f.(db := f.db.(now := time));
    forall i: nat | i < |f.db.tasks| ensures Foreseen(f', i) == Foreseen(f, i) {
      ForeseenCarriesOver(f, f', i);
    }
    assert Settled(f').tasks == Settled(f).tasks;
  }

  /** Moves that stand for no request of the atomic order. */
  lemma StaysInOrderAside(il: Interleaving, k: nat, n: nat)
    requires il.Valid() && k < n <= |il.moves| && InOrder(il, k, n)
    requires GivenUp(il, k, n) || il.moves[k].Commit? || il.moves[k].Abort?
    ensures InOrder(il, k + 1, n)
  {
    var g, m := Kept(il, k, n), il.moves[k];
    assert il.Follows(k);
    AlwaysExclusive(il, k);
    KeptIsExclusive(il, k, n);
    KeptMoves(il, k, n);
    if GivenUp(il, k, n) {
      TimePasses(g, m.time);
    } else if m.Commit? {
      CommitSettlesNothingNew(g, m);
    }
  }

  lemma StaysInOrder(il: Interleaving, k: nat, n: nat)
    requires il.Valid() && k < n <= |il.moves| && InOrder(il, k, n)
    requires SurvivingLock(il, k, n) ==> !PassesOver(il, k, n)
    ensures InOrder(il, k + 1, n)
  {
    var g, m := Kept(il, k, n), il.moves[k];
    if GivenUp(il, k, n) || m.Commit? || m.Abort? {
      StaysInOrderAside(il, k, n);
    } else {
      assert il.Follows(k);
      AlwaysExclusive(il, k);
      KeptIsExclusive(il, k, n);
      KeptMoves(il, k, n);
      if m.Lock? {
        KeptLockable(il, k, n);
        LockIsAtomicClaim(g, m);
      } else {
        ArrivalIsAtomic(g, m);
      }
      RequestInOrder(il, k, n);
    }
  }

  /** The atomic claim in place of the lock at `k` would be accepted. */
  ghost predicate ClaimStands(il: Interleaving, k: nat, n: nat)
    requires k < n <= |il.moves| < |il.floors| && il.moves[k].Lock?
  {
    Accepts(Outcome(il.floors[0].db, KeptOrder(il, k, n)), AtomicOf(il.moves[k]).value)
  }

  lemma StandsUnlessPassingOver(il: Interleaving, k: nat, n: nat)
    requires il.Valid() && k < n <= |il.moves| && InOrder(il, k, n) && SurvivingLock(il, k, n)
    ensures ClaimStands(il, k, n) <==> !PassesOver(il, k, n)
  {
    var g, m := Kept(il, k, n), il.moves[k];
    assert il.Follows(k);
    AlwaysExclusive(il, k);
    KeptIsExclusive(il, k, n);
    KeptLockable(il, k, n);
    LockableExactly(g, m.claimer, m.worker, m.time, m.pick);
    StepIgnoresTime(Settled(g), Outcome(il.floors[0].db, KeptOrder(il, k, n)), AtomicOf(m).value);
  }

  ghost predicate NonePassesOver(il: Interleaving, k: nat, n: nat)
    requires k <= n <= |il.moves| < |il.floors|
  {
    forall j :: 0 <= j < k && SurvivingLock(il, j, n) ==> !PassesOver(il, j, n)
  }

  ghost predicate AllStand(il: Interleaving, k: nat, n: nat)
    requires k <= n <= |il.moves| < |il.floors|
  {
    forall j :: 0 <= j < k && SurvivingLock(il, j, n) ==> ClaimStands(il, j, n)
  }

  lemma PassingOverStep(il: Interleaving, k: nat, n: nat)
    requires k < n <= |il.moves| < |il.floors|
    ensures NonePassesOver(il, k + 1, n) <==> NonePassesOver(il, k, n) && (SurvivingLock(il, k, n) ==> !PassesOver(il, k, n))
  {
  }

  lemma StandingStep(il: Interleaving, k: nat, n: nat)
    requires k < n <= |il.moves| < |il.floors|
    ensures AllStand(il, k + 1, n) <==> AllStand(il, k, n) && (SurvivingLock(il, k, n) ==> ClaimStands(il, k, n))
  {
  }

  /** Up to move `k` the survivors are in order if they pass over nothing, and only then do all their claims stand. */
  ghost predicate OrderedExactly(il: Interleaving, k: nat, n: nat)
    requires k <= n <= |il.moves| < |il.floors|
  {
    (NonePassesOver(il, k, n) ==> InOrder(il, k, n)) && (NonePassesOver(il, k, n) <==> AllStand(il, k, n))
  }

  lemma StartsInOrder(il: Interleaving, n: nat)
    requires il.Valid() && n <= |il.moves|
    ensures OrderedExactly(il, 0, n)
  {
    var g := Kept(il, 0, n);
    assert g.holds == map[];
    assert Settled(g).tasks == il.floors[0].db.tasks;
  }

  lemma StaysOrderedExactly(il: Interleaving, k: nat, k': nat, n: nat)
    requires il.Valid() && k < n <= |il.moves| && OrderedExactly(il, k, n) && k' == k + 1
    ensures OrderedExactly(il, k', n)
  {
    PassingOverStep(il, k, n);
    StandingStep(il, k, n);
    if NonePassesOver(il, k, n) && SurvivingLock(il, k, n) {
      StandsUnlessPassingOver(il, k, n);
    }
    if NonePassesOver(il, k + 1, n) {
      StaysInOrder(il, k, n);
    }
  }

  lemma {:induction false} SurvivorsInOrder(il: Interleaving, k: nat, n: nat)
    requires il.Valid() && k <= n <= |il.moves|
    ensures OrderedExactly(il, k, n)
  {
    if k == 0 {
      StartsInOrder(il, n);
    } else {
      SurvivorsInOrder(il, k - 1, n);
      StaysOrderedExactly(il, k - 1, k, n);
    }
  }

  /**
   With any aborts, the claims that survive are those of atomic claims made in the order of their locks exactly when
   none of them passes over a row whose lock is given up later; then the rows are also what those claims make of them.
   */
  lemma AtomicExactly(il: Interleaving, n: nat)
    requires il.Valid() && n <= |il.moves|
    ensures AllStand(il, n, n) <==> NonePassesOver(il, n, n)
    ensures NonePassesOver(il, n, n) ==>
      Settled(il.floors[n]).tasks == Outcome(il.floors[0].db, KeptOrder(il, n, n)).tasks
  {
    SurvivorsInOrder(il, n, n);
    assert Kept(il, n, n) == il.floors[n] by {
      assert forall c :: !Doomed(il, c, n, n);
      assert Kept(il, n, n).holds == il.floors[n].holds;
    }
  }

  /******* An interleaving that no atomic order explains *******/

  const START := State(2, [], [], [NewTask(0, 0, Release(0, 1), 1), NewTask(0, 0, Release(0, 1), 2)], [])

  const MOVES := [Lock(1, 7, 3, Some(0)), Lock(2, 8, 4, Some(1)), Abort(1), Commit(2)]

  lemma PassingOver() returns (il: Interleaving)
    ensures il.Valid() && il.floors[0].db == START && il.moves == MOVES
    ensures il.floors[1] == Floor(START.(now := 3), map[1 := Hold(0, 7, 3)])
    ensures |il.floors[4].db.tasks| == 2 && IsQueued(il.floors[4].db.tasks, 0) && il.floors[4].db.tasks[1].worker == Some(8)
  {
    var f0 := Floor(START, map[]);
    assert FreeHead(f0, 0);
    var f1 := After(f0, MOVES[0]);
    assert Locked(f1, 0) && FreeHead(f1, 1);
    var f2 := After(f1, MOVES[1]);
    var f3 := After(f2, MOVES[2]);
    il := Interleaving([f0, f1, f2, f3, After(f3, MOVES[3])], MOVES);
    assert il.Follows(0) && il.Follows(1) && il.Follows(2) && il.Follows(3);
  }

  /** A claimer passes over a row whose lock is then given up, and so gets the younger task although the older stays queued. */
  lemma AbortLetsYoungerGoFirst() returns (il: Interleaving)
    ensures il.Valid() && il.floors[0].db == START && il.moves == MOVES
    ensures SurvivingLock(il, 1, 4) && PassesOver(il, 1, 4)
    ensures !AllStand(il, 4, 4)
    ensures |il.floors[4].db.tasks| == 2 && IsQueued(il.floors[4].db.tasks, 0) && il.floors[4].db.tasks[1].worker == Some(8)
  {
    il := PassingOver();
    assert AbortsNext(il, 1, 1, 2, 4);
    assert PassedOver(il, 1, 1, 4);
    assert !Doomed(il, 2, 2, 4);
    assert SurvivingLock(il, 1, 4) && PassesOver(il, 1, 4);
    assert !NonePassesOver(il, 4, 4);
    SurvivorsInOrder(il, 4, 4);
  }
}
