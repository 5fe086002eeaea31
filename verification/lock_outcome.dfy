// What lock, try_lock and unlock have done by the time they return, whatever the other threads
// do meanwhile.
module LockOutcome {
  import opened LockdepTables
  import opened MutexSystem

  // How many times `t` holds `m`.
  ghost function Holds(w: World, t: ThreadId, m: MutexId): nat {
    if m in w.mutexes && w.mutexes[m].owner == Some(t) then w.mutexes[m].count else 0
  }

  // The owner of a mutex that is not recursive goes for it again.
  ghost predicate Deadlocks(w: World, t: ThreadId, m: MutexId) {
    m in w.mutexes && !w.mutexes[m].recursive && Holds(w, t, m) > 0
  }

  // The pthread mutex has not been taken yet, or has just been.
  ghost predicate Waits(pc: Pc) {
    Within(pc, WillLockCall) || pc.AtBlocked? || (pc.AtTryLock? && pc.waits)
  }

  ghost predicate Took(pc: Pc) {
    Within(pc, LockedCall) || pc.AtPostLock?
  }

  ghost predicate GivesUp(pc: Pc) {
    pc.AtPreUnlock? || Within(pc, WillUnlockCall) || pc.AtUnlock?
  }

  // `t` is at work on `m`, which is as it was in kind and has `h` holds of `t`.
  ghost predicate At(w: World, t: ThreadId, m: MutexId, recursive: bool, h: int) {
    && t in w.pcs && Mentions(w.pcs[t], m) && m in w.mutexes
    && w.mutexes[m].recursive == recursive && Holds(w, t, m) == h
  }

  // `t` is done with `m`.
  ghost predicate Left(w: World, t: ThreadId, m: MutexId, h: int) {
    t in w.pcs && w.pcs[t] == Idle && m in w.mutexes && Holds(w, t, m) == h
  }

  // Another thread's step leaves where `t` is, its mutex and its holds alone.
  lemma OthersLeaveAlone(w: World, u: ThreadId, a: Action, t: ThreadId, m: MutexId, recursive: bool, h: int)
    requires Book(w) && Enabled(w, u, a) && u != t && At(w, t, m, recursive, h)
    requires Next(w, u, a).fault == Running
    ensures At(Next(w, u, a), t, m, recursive, h) && Next(w, u, a).pcs[t] == w.pcs[t]
  {
    assert ThreadBook(w, u, w.pcs[u]) && MutexBook(w, m, w.mutexes[m]);
  }

  // `k` is the first state after `j` in which `t` is idle.
  ghost predicate Spans(run: seq<World>, moves: seq<Move>, j: nat, k: nat, t: ThreadId) {
    && MutexSystem.IsRun(run, moves) && j < k < |run| && moves[j].t == t
    && (forall i :: j < i < k ==> t in run[i].pcs && run[i].pcs[t] != Idle)
    && run[k].fault == Running && t in run[k].pcs && run[k].pcs[t] == Idle
  }

  // ---- Lock ----

  // `gain` is 0 if the call is to fail, because `t` holds the mutex and may not twice, else 1.
  ghost predicate LockAt(w: World, t: ThreadId, m: MutexId, recursive: bool, h: int, gain: int) {
    t in w.pcs &&
    var pc := w.pcs[t];
    if pc == Idle then Left(w, t, m, h + gain)
    else
      && (Waits(pc) || Took(pc)) && (Took(pc) ==> gain == 1)
      && At(w, t, m, recursive, if Took(pc) then h + 1 else h)
  }

  lemma LockMoves(w: World, t: ThreadId, m: MutexId, recursive: bool, h: int, gain: int)
    requires Book(w) && Enabled(w, t, Continue) && Next(w, t, Continue).fault == Running
    requires LockAt(w, t, m, recursive, h, gain) && gain == if !recursive && h > 0 then 0 else 1
    ensures LockAt(Next(w, t, Continue), t, m, recursive, h, gain)
  {
    assert ThreadBook(w, t, w.pcs[t]) && MutexBook(w, m, w.mutexes[m]);
  }

  lemma {:induction false} LockProgress(run: seq<World>, moves: seq<Move>, j: nat, n: nat, t: ThreadId, m: MutexId)
    requires MutexSystem.IsRun(run, moves) && j < n < |run| && moves[j] == Move(t, Lock(m)) && run[n].fault == Running
    requires forall i :: j < i < n ==> t in run[i].pcs && run[i].pcs[t] != Idle
    ensures m in run[j].mutexes
    ensures LockAt(run[n], t, m, run[j].mutexes[m].recursive, Holds(run[j], t, m),
                   if Deadlocks(run[j], t, m) then 0 else 1)
    decreases n
  {
    assert Enabled(run[n - 1], moves[n - 1].t, moves[n - 1].a);
    assert Enabled(run[j], t, Lock(m));
    RunSound(run, moves, n - 1);
    var recursive, h := run[j].mutexes[m].recursive, Holds(run[j], t, m);
    if n > j + 1 {
      LockProgress(run, moves, j, n - 1, t, m);
      if moves[n - 1].t == t {
        LockMoves(run[n - 1], t, m, recursive, h, if Deadlocks(run[j], t, m) then 0 else 1);
      } else {
        OthersLeaveAlone(run[n - 1], moves[n - 1].t, moves[n - 1].a, t, m, recursive, Holds(run[n - 1], t, m));
      }
    }
  }

  // A lock that returns holds the mutex once more than before, except where the thread already
  // owned one that is not recursive: then it fails and changes nothing.
  lemma LockTakes(run: seq<World>, moves: seq<Move>, j: nat, k: nat, t: ThreadId, m: MutexId)
    requires Spans(run, moves, j, k, t) && moves[j].a == Lock(m)
    ensures m in run[k].mutexes
    ensures Holds(run[k], t, m) == Holds(run[j], t, m) + if Deadlocks(run[j], t, m) then 0 else 1
  {
    LockProgress(run, moves, j, k, t, m);
  }

  // ---- Try_lock ----

  // At move `i` the thread tries the pthread mutex.
  ghost predicate Tries(run: seq<World>, moves: seq<Move>, i: nat, t: ThreadId, m: MutexId) {
    && i < |run| && i < |moves| && moves[i].t == t && t in run[i].pcs && run[i].pcs[t] == AtTryLock(m, false)
    && m in run[i].mutexes
  }

  ghost predicate TriedBetween(run: seq<World>, moves: seq<Move>, j: nat, n: nat, t: ThreadId, m: MutexId, got: bool) {
    exists i: nat :: j < i < n && Tries(run, moves, i, t, m) && Acquirable(run[i].mutexes[m], t) == got
  }

  ghost predicate TryAt(run: seq<World>, moves: seq<Move>, j: nat, n: nat, t: ThreadId, m: MutexId,
                        recursive: bool, h: int)
  {
    j < n < |run| && t in run[n].pcs &&
    var pc := run[n].pcs[t];
    if pc == Idle then
      || (Left(run[n], t, m, h + 1) && TriedBetween(run, moves, j, n, t, m, true))
      || (Left(run[n], t, m, h) && TriedBetween(run, moves, j, n, t, m, false))
    else if Took(pc) then At(run[n], t, m, recursive, h + 1) && TriedBetween(run, moves, j, n, t, m, true)
    else pc == AtTryLock(m, false) && At(run[n], t, m, recursive, h)
  }

  lemma TryMoves(run: seq<World>, moves: seq<Move>, j: nat, n: nat, t: ThreadId, m: MutexId, recursive: bool, h: int)
    requires MutexSystem.IsRun(run, moves) && n < |moves| && moves[n] == Move(t, Continue)
    requires TryAt(run, moves, j, n, t, m, recursive, h) && Book(run[n]) && run[n + 1].fault == Running
    ensures TryAt(run, moves, j, n + 1, t, m, recursive, h)
  {
    var w := run[n];
    assert Enabled(w, t, Continue) && run[n + 1] == Next(w, t, Continue);
    assert ThreadBook(w, t, w.pcs[t]) && MutexBook(w, m, w.mutexes[m]);
    if w.pcs[t].AtTryLock? {
      assert Tries(run, moves, n, t, m);
    } else {
      var i: nat :| j < i < n && Tries(run, moves, i, t, m) && Acquirable(run[i].mutexes[m], t);
      assert j < i < n + 1;
    }
  }

  lemma TryWaits(run: seq<World>, moves: seq<Move>, j: nat, n: nat, t: ThreadId, m: MutexId, recursive: bool, h: int)
    requires MutexSystem.IsRun(run, moves) && n < |moves| && moves[n].t != t && t in run[n].pcs && run[n].pcs[t] != Idle
    requires TryAt(run, moves, j, n, t, m, recursive, h) && Book(run[n]) && run[n + 1].fault == Running
    ensures TryAt(run, moves, j, n + 1, t, m, recursive, h)
  {
    assert Enabled(run[n], moves[n].t, moves[n].a);
    OthersLeaveAlone(run[n], moves[n].t, moves[n].a, t, m, recursive, Holds(run[n], t, m));
    if Took(run[n].pcs[t]) {
      var i: nat :| j < i < n && Tries(run, moves, i, t, m) && Acquirable(run[i].mutexes[m], t);
      assert j < i < n + 1;
    }
  }

  lemma {:induction false} TryProgress(run: seq<World>, moves: seq<Move>, j: nat, n: nat, t: ThreadId, m: MutexId)
    requires MutexSystem.IsRun(run, moves) && j < n < |run| && run[n].fault == Running
    requires moves[j] == Move(t, TryLock(m))
    requires forall i :: j < i < n ==> t in run[i].pcs && run[i].pcs[t] != Idle
    ensures m in run[j].mutexes
    ensures TryAt(run, moves, j, n, t, m, run[j].mutexes[m].recursive, Holds(run[j], t, m))
    decreases n
  {
    assert Enabled(run[j], t, TryLock(m));
    assert Enabled(run[n - 1], moves[n - 1].t, moves[n - 1].a);
    RunSound(run, moves, n - 1);
    if n > j + 1 {
      TryProgress(run, moves, j, n - 1, t, m);
      if moves[n - 1].t == t {
        TryMoves(run, moves, j, n - 1, t, m, run[j].mutexes[m].recursive, Holds(run[j], t, m));
      } else {
        TryWaits(run, moves, j, n - 1, t, m, run[j].mutexes[m].recursive, Holds(run[j], t, m));
      }
    }
  }

  // A try_lock that returns has tried the mutex, and holds it once more exactly if it was free, or
  // recursive and its own, at that moment.
  lemma TryLockTakes(run: seq<World>, moves: seq<Move>, j: nat, k: nat, t: ThreadId, m: MutexId) returns (i: nat)
    requires Spans(run, moves, j, k, t) && moves[j].a == TryLock(m)
    ensures j < i < k && Tries(run, moves, i, t, m) && m in run[k].mutexes
    ensures Holds(run[k], t, m) == Holds(run[j], t, m) + if Acquirable(run[i].mutexes[m], t) then 1 else 0
  {
    TryProgress(run, moves, j, k, t, m);
    if Left(run[k], t, m, Holds(run[j], t, m)) {
      i :| j < i < k && Tries(run, moves, i, t, m) && Acquirable(run[i].mutexes[m], t) == false;
    } else {
      i :| j < i < k && Tries(run, moves, i, t, m) && Acquirable(run[i].mutexes[m], t) == true;
    }
  }

  // ---- Unlock ----

  ghost predicate UnlockAt(w: World, t: ThreadId, m: MutexId, recursive: bool, h: int) {
    t in w.pcs &&
    var pc := w.pcs[t];
    if pc == Idle then Left(w, t, m, h - 1) && (h == 1 ==> w.mutexes[m].owner == None)
    else GivesUp(pc) && At(w, t, m, recursive, h)
  }

  lemma UnlockMoves(w: World, t: ThreadId, m: MutexId, recursive: bool, h: int)
    requires Book(w) && Enabled(w, t, Continue) && Next(w, t, Continue).fault == Running
    requires UnlockAt(w, t, m, recursive, h)
    ensures UnlockAt(Next(w, t, Continue), t, m, recursive, h)
  {
    assert ThreadBook(w, t, w.pcs[t]) && MutexBook(w, m, w.mutexes[m]);
  }

  lemma {:induction false} UnlockProgress(run: seq<World>, moves: seq<Move>, j: nat, n: nat, t: ThreadId, m: MutexId)
    requires MutexSystem.IsRun(run, moves) && j < n < |run| && run[n].fault == Running
    requires moves[j] == Move(t, Unlock(m))
    requires forall i :: j < i < n ==> t in run[i].pcs && run[i].pcs[t] != Idle
    ensures m in run[j].mutexes
    ensures UnlockAt(run[n], t, m, run[j].mutexes[m].recursive, Holds(run[j], t, m))
    decreases n
  {
    assert Enabled(run[j], t, Unlock(m));
    assert Enabled(run[n - 1], moves[n - 1].t, moves[n - 1].a);
    RunSound(run, moves, n - 1);
    var recursive, h := run[j].mutexes[m].recursive, Holds(run[j], t, m);
    if n > j + 1 {
      UnlockProgress(run, moves, j, n - 1, t, m);
      if moves[n - 1].t == t {
        UnlockMoves(run[n - 1], t, m, recursive, h);
      } else {
        OthersLeaveAlone(run[n - 1], moves[n - 1].t, moves[n - 1].a, t, m, recursive, h);
      }
    }
  }

  // An unlock that returns has given the mutex back once, and freed it with the last hold.
  lemma UnlockReleases(run: seq<World>, moves: seq<Move>, j: nat, k: nat, t: ThreadId, m: MutexId)
    requires Spans(run, moves, j, k, t) && moves[j].a == Unlock(m)
    ensures m in run[k].mutexes && Holds(run[j], t, m) >= 1
    ensures Holds(run[k], t, m) == Holds(run[j], t, m) - 1
    ensures Holds(run[k], t, m) == 0 ==> run[k].mutexes[m].owner == None
  {
    UnlockProgress(run, moves, j, k, t, m);
    RunSound(run, moves, j);
    assert Enabled(run[j], t, Unlock(m));
    assert MutexBook(run[j], m, run[j].mutexes[m]);
  }
}
