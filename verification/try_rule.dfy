// A rule in the program's own terms that is enough: try_lock does not take a second mutex of a
// class the thread already holds.
module TryRule {
  import opened CircularWait
  import opened LockdepTables
  import opened MutexSystem

  // A try_lock of the program is about to take a tracked mutex.
  ghost predicate TryTakes(w: World, t: ThreadId, a: Action) {
    && a.Continue? && t in w.pcs && w.pcs[t].AtTryLock? && !w.pcs[t].waits
    && var m := w.pcs[t].m; m in w.mutexes && Tracked(w.mutexes[m]) && Acquirable(w.mutexes[m], t)
  }

  // It may be tried, and fail.
  ghost predicate Follows(w: World, t: ThreadId, a: Action) {
    TryTakes(w, t, a) ==> ClassOf(w, w.pcs[t].m) !in HeldBy(w.tables, t)
  }

  // A mutex just taken is of a class its owner did not hold.
  ghost predicate Pending(w: World, t: ThreadId, pc: Pc) {
    pc != Idle && pc.m in w.mutexes && Tracked(w.mutexes[pc.m]) && Before(pc, LockedCall) ==>
      ClassOf(w, pc.m) !in HeldBy(w.tables, t)
  }

  // A thread's held classes are those of its enlisted mutexes, one mutex per class.
  ghost predicate OneEach(w: World) {
    && (forall t :: Known(w, t))
    && (forall t, m, k :: Enlisted(w, t, m) && Enlisted(w, t, k) && ClassOf(w, m) == ClassOf(w, k) ==> m == k)
    && (forall t :: t in w.pcs ==> Pending(w, t, w.pcs[t]))
  }

  // With one mutex per class, giving one back leaves the others known.
  lemma KnownWithoutOne(w: World, v: World, t: ThreadId, c: Change, u: ThreadId)
    requires OneEach(w) && Frames(w, v, t, c)
    ensures Known(v, u)
  {
    assert Known(w, u);
    forall k | Enlisted(v, u, k) ensures ClassOf(v, k) in HeldBy(v.tables, u) {
      assert Enlisted(v, u, k) <==> EnlistedAfter(w, t, c, u, k);
      if u == t && c.Gains? && k == c.m {
      } else {
        assert ClassOf(w, k) in HeldBy(w.tables, u);
      }
    }
  }

  lemma StillOneEach(w: World, v: World, t: ThreadId, c: Change, u: ThreadId, m: MutexId, k: MutexId)
    requires OneEach(w) && Frames(w, v, t, c)
    requires c.Gains? ==> ClassOf(v, c.m) !in HeldBy(w.tables, t)
    requires Enlisted(v, u, m) && Enlisted(v, u, k) && ClassOf(v, m) == ClassOf(v, k)
    ensures m == k
  {
    assert Enlisted(v, u, m) <==> EnlistedAfter(w, t, c, u, m);
    assert Enlisted(v, u, k) <==> EnlistedAfter(w, t, c, u, k);
    assert Known(w, u);
  }

  lemma OthersPend(w: World, v: World, t: ThreadId, c: Change, u: ThreadId)
    requires Book(w) && OneEach(w) && Frames(w, v, t, c) && u in w.pcs && u != t
    ensures Pending(v, u, v.pcs[u])
  {
    var pc := w.pcs[u];
    assert ThreadBook(w, u, pc) && Pending(w, u, pc);
    if pc != Idle { assert Settled(w, v, pc.m); }
  }

  lemma FramesKeepOneEach(w: World, v: World, t: ThreadId, c: Change)
    requires Book(w) && OneEach(w) && Frames(w, v, t, c)
    requires c.Gains? ==> ClassOf(v, c.m) !in HeldBy(w.tables, t)
    requires t in v.pcs && Pending(v, t, v.pcs[t])
    ensures OneEach(v)
  {
    forall u ensures Known(v, u) {
      KnownWithoutOne(w, v, t, c, u);
    }
    forall u, m, k | Enlisted(v, u, m) && Enlisted(v, u, k) && ClassOf(v, m) == ClassOf(v, k) ensures m == k {
      StillOneEach(w, v, t, c, u, m, k);
    }
    forall u | u in v.pcs ensures Pending(v, u, v.pcs[u]) {
      if u != t { OthersPend(w, v, t, c, u); }
    }
  }

  // The class lockdep notes is new to the thread.
  lemma GainIsNew(w: World, t: ThreadId)
    requires Sound(w) && Tracking(w) && OneEach(w) && Enabled(w, t, Continue)
    requires w.pcs[t].AtCall? && w.pcs[t].query == LockedCall && Next(w, t, Continue).fault == Running
    ensures var v, m := Next(w, t, Continue), w.pcs[t].m; m in v.mutexes && ClassOf(v, m) !in HeldBy(w.tables, t)
  {
    var m := w.pcs[t].m;
    assert ThreadBook(w, t, w.pcs[t]) && Pending(w, t, w.pcs[t]);
    LockedFrames(w, t);
    LockedCalled(w, t);
    assert Settled(w, Next(w, t, Continue), m);
  }

  lemma StepPends(w: World, t: ThreadId, a: Action)
    requires Sound(w) && Tracking(w) && OneEach(w) && Enabled(w, t, a) && Follows(w, t, a)
    requires Next(w, t, a).fault == Running
    ensures var v := Next(w, t, a); t in v.pcs && Pending(v, t, v.pcs[t])
  {
    var v, pc := Next(w, t, a), w.pcs[t];
    assert Waiter(w, t, pc) && ThreadBook(w, t, pc) && Pending(w, t, pc);
    if Plain(w, t, a) {
      PlainSame(w, t, a);
    } else if a.Create? {
      CreateFrames(w, t, a);
    } else if a.Destroy? {
      DestroyFrames(w, t, a);
    }
  }

  ghost predicate Orderly(w: World) {
    Safe(w) && (w.fault == Running ==> OneEach(w))
  }

  lemma StepOrderly(w: World, t: ThreadId, a: Action)
    requires Orderly(w) && Enabled(w, t, a) && Follows(w, t, a)
    ensures Orderly(Next(w, t, a)) && Disciplined(w, t, a)
  {
    assert Known(w, t);
    StepSafe(w, t, a);
    if Next(w, t, a).fault == Running {
      StepFrames(w, t, a);
      StepPends(w, t, a);
      if ChangeOf(w, t, a).Gains? { GainIsNew(w, t); }
      FramesKeepOneEach(w, Next(w, t, a), t, ChangeOf(w, t, a));
    }
  }

  ghost predicate FollowingRun(run: seq<World>, moves: seq<Move>) {
    && MutexSystem.IsRun(run, moves)
    && forall k {:trigger moves[k]} :: 0 <= k < |moves| ==> Follows(run[k], moves[k].t, moves[k].a)
  }

  lemma {:induction false} RunOrderly(run: seq<World>, moves: seq<Move>, k: nat)
    requires FollowingRun(run, moves) && k < |run|
    ensures Orderly(run[k])
    decreases k
  {
    if k == 0 {
      InitSound(run[0]);
    } else {
      RunOrderly(run, moves, k - 1);
      StepOrderly(run[k - 1], moves[k - 1].t, moves[k - 1].a);
    }
  }

  // A program that follows this rule follows the other, so no cycle of threads waits. And lockdep
  // then believes each thread to hold exactly the classes of the mutexes it was told of.
  lemma TryRuleSuffices(run: seq<World>, moves: seq<Move>)
    requires FollowingRun(run, moves)
    ensures DisciplinedRun(run, moves)
    ensures forall k :: 0 <= k < |run| && run[k].fault == Running ==> OneEach(run[k]) && HeldOwned(run[k])
  {
    forall k | 0 <= k < |run| ensures Orderly(run[k]) {
      RunOrderly(run, moves, k);
    }
    forall k | 0 <= k < |moves| ensures Disciplined(run[k], moves[k].t, moves[k].a) {
      StepOrderly(run[k], moves[k].t, moves[k].a);
    }
  }
}
