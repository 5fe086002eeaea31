// Why the rule about try_lock is needed: a run that takes a second mutex of a held class by
// try_lock, and ends in a circular wait that lockdep has not noticed.
module TryLockGap {
  import opened CircularWait
  import opened Digraph
  import opened LockdepTables
  import opened MutexSystem

  // `w` ends a run that starts as lockdep is switched on.
  ghost predicate Reached(w: World) {
    exists run, moves :: MutexSystem.IsRun(run, moves) && run[|moves|] == w
  }

  lemma Step(w: World, t: ThreadId, a: Action) returns (v: World)
    requires Reached(w) && Enabled(w, t, a)
    ensures v == Next(w, t, a) && Reached(v)
  {
    v := Next(w, t, a);
    var run, moves :| MutexSystem.IsRun(run, moves) && run[|moves|] == w;
    assert MutexSystem.IsRun(run + [v], moves + [Move(t, a)]);
    assert (run + [v])[|moves + [Move(t, a)]|] == v;
  }

  // A tracked mutex that `t` may go for while it is idle.
  ghost predicate Goes(w: World, t: ThreadId, m: MutexId) {
    && w.fault == Running && t in w.pcs && w.pcs[t] == Idle
    && m in w.mutexes && Tracked(w.mutexes[m]) && w.mutexes[m].id >= -1
  }

  ghost predicate Unlocked(x: Mutex) {
    x.owner == None && x.count == 0 && x.nlock == 0
  }

  ghost function Taken(x: Mutex, t: ThreadId, id: int): Mutex {
    x.(id := id, owner := Some(t), count := 1, nlock := 1, lockedBy := Some(t))
  }

  // The three steps of a query.
  lemma Asks(w: World, t: ThreadId, m: MutexId, q: Query, s: Tables, id: int) returns (v: World)
    requires Reached(w) && w.fault == Running && t in w.pcs && w.pcs[t] == AtRead(m, q) && m in w.mutexes
    requires w.mutexes[m].id >= -1 && Answer(w.tables, t, w.mutexes[m], q, w.mutexes[m].id) == Done(s, id)
    ensures Reached(v)
    ensures v == w.(tables := s, pcs := w.pcs[t := Answered(m, q)],
                    mutexes := w.mutexes[m := w.mutexes[m].(id := id)])
  {
    var a := Step(w, t, Continue);
    var b := Step(a, t, Continue);
    assert b == w.(tables := s, pcs := w.pcs[t := AtStore(m, q, id)]);
    v := Step(b, t, Continue);
    assert v.pcs == w.pcs[t := Answered(m, q)];
  }

  // From a mutex just acquired to the end of lock or try_lock.
  lemma Enlist(w: World, t: ThreadId, m: MutexId, s: Tables, id: int) returns (v: World)
    requires Reached(w) && w.fault == Running && t in w.pcs && w.pcs[t] == AtRead(m, LockedCall) && m in w.mutexes
    requires w.mutexes[m].nlock == 0 && w.mutexes[m].id >= -1
    requires Locked(w.tables, t, w.mutexes[m].group, w.mutexes[m].id) == Done(s, id)
    ensures Reached(v)
    ensures v == w.(tables := s, pcs := w.pcs[t := Idle],
                    mutexes := w.mutexes[m := w.mutexes[m].(id := id, nlock := 1, lockedBy := Some(t))])
  {
    var u := Asks(w, t, m, LockedCall, s, id);
    v := Step(u, t, Continue);
    assert v.mutexes == w.mutexes[m := w.mutexes[m].(id := id, nlock := 1, lockedBy := Some(t))];
    assert v.pcs == w.pcs[t := Idle];
  }

  lemma Announces(w: World, t: ThreadId, m: MutexId, s: Tables, id: int) returns (v: World)
    requires Reached(w) && Goes(w, t, m)
    requires WillLock(w.tables, t, w.mutexes[m].group, w.mutexes[m].id, false) == Done(s, id)
    ensures Reached(v)
    ensures v == w.(tables := s, pcs := w.pcs[t := AtTryLock(m, true)],
                    mutexes := w.mutexes[m := w.mutexes[m].(id := id)])
  {
    var a := Step(w, t, Lock(m));
    v := Asks(a, t, m, WillLockCall, s, id);
    assert v.pcs == w.pcs[t := AtTryLock(m, true)];
  }

  lemma Takes(w: World, t: ThreadId, m: MutexId, s: Tables, id: int) returns (v: World)
    requires Reached(w) && Goes(w, t, m) && Unlocked(w.mutexes[m])
    requires var x := w.mutexes[m];
      var o := WillLock(w.tables, t, x.group, x.id, false);
      o.Done? && o.id >= -1 && Locked(o.tables, t, x.group, o.id) == Done(s, id)
    ensures Reached(v)
    ensures v == w.(tables := s, mutexes := w.mutexes[m := Taken(w.mutexes[m], t, id)])
  {
    var o := WillLock(w.tables, t, w.mutexes[m].group, w.mutexes[m].id, false);
    var b := Announces(w, t, m, o.tables, o.id);
    var c := Step(b, t, Continue);
    v := Enlist(c, t, m, s, id);
    assert v.mutexes == w.mutexes[m := Taken(w.mutexes[m], t, id)];
    assert v.pcs == w.pcs;
  }

  lemma TriesAndTakes(w: World, t: ThreadId, m: MutexId, s: Tables, id: int) returns (v: World)
    requires Reached(w) && Goes(w, t, m) && Unlocked(w.mutexes[m])
    requires Locked(w.tables, t, w.mutexes[m].group, w.mutexes[m].id) == Done(s, id)
    ensures Reached(v)
    ensures v == w.(tables := s, mutexes := w.mutexes[m := Taken(w.mutexes[m], t, id)])
  {
    var a := Step(w, t, TryLock(m));
    var b := Step(a, t, Continue);
    v := Enlist(b, t, m, s, id);
    assert v.mutexes == w.mutexes[m := Taken(w.mutexes[m], t, id)];
    assert v.pcs == w.pcs;
  }

  lemma Uncounts(w: World, t: ThreadId, m: MutexId) returns (v: World)
    requires Reached(w) && Goes(w, t, m) && w.mutexes[m] == Taken(w.mutexes[m], t, w.mutexes[m].id)
    ensures Reached(v)
    ensures v == w.(pcs := w.pcs[t := AtRead(m, WillUnlockCall)],
                    mutexes := w.mutexes[m := w.mutexes[m].(nlock := 0, lockedBy := None)])
  {
    var a := Step(w, t, Unlock(m));
    v := Step(a, t, Continue);
    assert v.pcs == w.pcs[t := AtRead(m, WillUnlockCall)];
  }

  lemma LetsGo(w: World, t: ThreadId, m: MutexId) returns (v: World)
    requires Reached(w) && w.fault == Running && t in w.pcs && w.pcs[t] == AtUnlock(m)
    requires m in w.mutexes && w.mutexes[m].count == 1
    ensures Reached(v)
    ensures v == w.(pcs := w.pcs[t := Idle], mutexes := w.mutexes[m := w.mutexes[m].(owner := None, count := 0)])
  {
    v := Step(w, t, Continue);
  }

  lemma Releases(w: World, t: ThreadId, m: MutexId) returns (v: World)
    requires Reached(w) && Goes(w, t, m) && w.mutexes[m].id >= 0
    requires w.mutexes[m] == Taken(w.mutexes[m], t, w.mutexes[m].id)
    ensures Reached(v)
    ensures v == w.(tables := WillUnlock(w.tables, t, w.mutexes[m].id),
                    mutexes := w.mutexes[m := w.mutexes[m].(owner := None, count := 0, nlock := 0, lockedBy := None)])
  {
    var b := Uncounts(w, t, m);
    var c := Asks(b, t, m, WillUnlockCall, WillUnlock(w.tables, t, w.mutexes[m].id), w.mutexes[m].id);
    v := LetsGo(c, t, m);
    assert v.mutexes == w.mutexes[m := w.mutexes[m].(owner := None, count := 0, nlock := 0, lockedBy := None)];
    assert v.pcs == w.pcs;
  }

  // Another thread owns the mutex.
  lemma Blocks(w: World, t: ThreadId, m: MutexId, s: Tables, id: int) returns (v: World)
    requires Reached(w) && Goes(w, t, m) && w.mutexes[m].owner.Some? && w.mutexes[m].owner != Some(t)
    requires WillLock(w.tables, t, w.mutexes[m].group, w.mutexes[m].id, false) == Done(s, id)
    ensures Reached(v)
    ensures v == w.(tables := s, pcs := w.pcs[t := AtBlocked(m)], mutexes := w.mutexes[m := w.mutexes[m].(id := id)])
  {
    var b := Announces(w, t, m, s, id);
    v := Step(b, t, Continue);
    assert v.pcs == w.pcs[t := AtBlocked(m)];
  }

  // ---- The tables along the run ----

  ghost predicate Bare(s: Tables) {
    Valid(s) && s.enabled && forall a, b :: !Edge(s.follows, a, b)
  }

  lemma BareHasNoPath(s: Tables, a: int, b: int)
    requires Bare(s)
    ensures !Path(s.follows, a, b)
  {
    if Path(s.follows, a, b) { var i := FirstStep(s.follows, a, b); }
  }

  // Waiting for a mutex of a class not met before, while holding nothing.
  lemma WaitingFirst(s: Tables, t: ThreadId, name: string)
    requires Bare(s) && HeldBy(s, t) == {} && name !in s.ids && s.free != {}
    ensures var o := WillLock(s, t, name, -1, false);
      && o.Done? && Bare(o.tables) && o.id in s.free && o.id >= 0 && o.id < o.tables.maxId
      && o.tables.ids == s.ids[name := o.id] && o.tables.names == s.names[o.id := name]
      && forall u :: HeldBy(o.tables, u) == HeldBy(s, u)
  {
    RegisterKeeps(s, name);
    WillLockKeeps(s, t, name, -1, false);
  }

  lemma TakingFirst(s: Tables, t: ThreadId, name: string) returns (r: Tables, c: int)
    requires Bare(s) && HeldBy(s, t) == {} && name !in s.ids && s.free != {}
    ensures var o := WillLock(s, t, name, -1, false);
      o.Done? && o.id == c && Locked(o.tables, t, name, c) == Done(r, c)
    ensures Bare(r) && c in s.free && c >= 0 && HeldBy(r, t) == {c}
    ensures r.ids == s.ids[name := c] && r.names == s.names[c := name]
    ensures forall u :: u != t ==> HeldBy(r, u) == HeldBy(s, u)
  {
    WaitingFirst(s, t, name);
    var o := WillLock(s, t, name, -1, false);
    c := o.id;
    r := Locked(o.tables, t, name, c).tables;
    LockedKeeps(o.tables, t, name, c);
  }

  lemma SomeIdsFree(s: Tables, name: string, id: int)
    requires Registry(s) && s.names == map[id := name]
    ensures s.free != {}
  {
    assert IsId(0) && IsId(1);
    assert 0 in AllIds() && 1 in AllIds();
    assert 0 in s.free || 1 in s.free;
  }

  // ---- The run ----

  ghost function FirstWorld(): World {
    var a := Mutex(false, true, "a", -1, None, 0, 0, None);
    var b := Mutex(false, true, "b", -1, None, 0, 0, None);
    World(Started(), map[1 := a, 2 := a, 3 := b], map[1 := Idle, 2 := Idle], Running)
  }

  lemma FirstReached()
    ensures Reached(FirstWorld())
  {
    var run, moves: seq<Move> := [FirstWorld()], [];
    assert MutexSystem.IsRun(run, moves) && run[|moves|] == FirstWorld();
  }

  // Thread 1 takes mutex 1.
  lemma ThreadOneTakes() returns (w: World, a: int)
    ensures Reached(w) && w.fault == Running && w.pcs == map[1 := Idle, 2 := Idle]
    ensures w.mutexes == FirstWorld().mutexes[1 := Taken(FirstWorld().mutexes[1], 1, a)] && a >= 0
    ensures Bare(w.tables) && w.tables.names == map[a := "a"] && w.tables.ids == map["a" := a]
    ensures HeldBy(w.tables, 1) == {a} && HeldBy(w.tables, 2) == {}
  {
    var w0 := FirstWorld();
    FirstReached();
    StartedHasNoEdges();
    SomeIdIsFree();
    var s, c := TakingFirst(w0.tables, 1, "a");
    a := c;
    w := Takes(w0, 1, 1, s, a);
  }

  lemma TryingAgain(s: Tables, a: int)
    requires Bare(s) && s.names == map[a := "a"] && s.ids == map["a" := a] && a >= 0
    requires HeldBy(s, 1) == {a} && HeldBy(s, 2) == {}
    ensures var o := Locked(s, 1, "a", -1);
      && o.Done? && o.id == a && Bare(o.tables) && o.tables.names == s.names && o.tables.ids == s.ids
      && var r := WillUnlock(o.tables, 1, a);
         && Bare(r) && r.names == s.names && r.ids == s.ids && HeldBy(r, 1) == {} && HeldBy(r, 2) == {}
  {
    RegisterKeeps(s, "a");
    LockedKeeps(s, 1, "a", -1);
    WillUnlockKeeps(Locked(s, 1, "a", -1).tables, 1, a);
  }

  // Then it tries mutex 2 of the same class, gets it, and gives mutex 1 back. lockdep now
  // believes that it holds nothing.
  lemma ThreadOneHides() returns (w: World, a: int)
    ensures Reached(w) && w.fault == Running && w.pcs == map[1 := Idle, 2 := Idle]
    ensures w.mutexes.Keys == {1, 2, 3} && w.mutexes[2].owner == Some(1) && w.mutexes[2].id == a
    ensures w.mutexes[2].group == "a" && Tracked(w.mutexes[2])
    ensures w.mutexes[3] == Mutex(false, true, "b", -1, None, 0, 0, None)
    ensures Bare(w.tables) && w.tables.names == map[a := "a"] && w.tables.ids == map["a" := a]
    ensures HeldBy(w.tables, 1) == {} && HeldBy(w.tables, 2) == {}
  {
    var w1, c := ThreadOneTakes();
    a := c;
    TryingAgain(w1.tables, a);
    var w2 := TriesAndTakes(w1, 1, 2, Locked(w1.tables, 1, "a", -1).tables, a);
    assert w2.mutexes[1] == w1.mutexes[1];
    w := Releases(w2, 1, 1);
  }

  lemma StartedHasNoEdges()
    ensures forall x, y :: !Edge(Started().follows, x, y)
  {
  }

  lemma SomeIdIsFree()
    ensures Started().free != {}
  {
    assert IsId(0);
    assert 0 in AllIds();
  }

  // Neither thread's next wait is a conflict: the graph has no path yet, and thread 1 holds
  // nothing that lockdep knows of.
  lemma NoConflicts(s: Tables, a: int, b: int)
    requires Bare(s) && a in s.names && b in s.names && a != b && a >= 0 && b >= 0
    requires HeldBy(s, 1) == {} && HeldBy(s, 2) == {b}
    ensures var o := WillLock(s, 2, "a", a, false);
      o.Done? && o.id == a && var q := WillLock(o.tables, 1, "b", b, false); q.Done? && q.id == b
  {
    BareHasNoPath(s, a, b);
    assert !Conflict(s.follows, HeldBy(s, 2), a, false);
    var o := WillLock(s, 2, "a", a, false);
    assert HeldBy(o.tables, 1) == {};
  }

  // Thread 1 owns mutex 2 behind lockdep's back, thread 2 owns mutex 3.
  ghost predicate Crossed(w: World, a: int, b: int) {
    && w.fault == Running && w.pcs == map[1 := Idle, 2 := Idle] && {2, 3} <= w.mutexes.Keys
    && Tracked(w.mutexes[2]) && w.mutexes[2].owner == Some(1) && w.mutexes[2].id == a && w.mutexes[2].group == "a"
    && Tracked(w.mutexes[3]) && w.mutexes[3].owner == Some(2) && w.mutexes[3].id == b && w.mutexes[3].group == "b"
    && Bare(w.tables) && a in w.tables.names && b in w.tables.names && a != b && a >= 0 && b >= 0
    && HeldBy(w.tables, 1) == {} && HeldBy(w.tables, 2) == {b}
  }

  lemma ThreadTwoTakes() returns (w: World, a: int, b: int)
    ensures Reached(w) && Crossed(w, a, b)
  {
    var u, c := ThreadOneHides();
    a := c;
    SomeIdsFree(u.tables, "a", a);
    var s, d := TakingFirst(u.tables, 2, "b");
    b := d;
    assert a in u.tables.names && a != b;
    w := Takes(u, 2, 3, s, b);
    assert w.mutexes[2] == u.mutexes[2];
  }

  lemma BothBlock(w: World, a: int, b: int) returns (v: World)
    requires Reached(w) && Crossed(w, a, b)
    ensures Reached(v) && v.fault == Running && v.pcs == map[1 := AtBlocked(3), 2 := AtBlocked(2)]
    ensures {2, 3} <= v.mutexes.Keys && Tracked(v.mutexes[2]) && Tracked(v.mutexes[3])
    ensures v.mutexes[2].owner == Some(1) && v.mutexes[3].owner == Some(2)
  {
    NoConflicts(w.tables, a, b);
    var o := WillLock(w.tables, 2, "a", a, false);
    var u := Blocks(w, 2, 2, o.tables, a);
    v := Blocks(u, 1, 3, WillLock(o.tables, 1, "b", b, false).tables, b);
  }

  // Thread 2 waits for mutex 2, thread 1 for mutex 3: a circular wait, and lockdep has not aborted.
  lemma CircularWaitWithoutTheRule()
    ensures exists w: World, cycle: seq<ThreadId> :: Reached(w) && w.fault == Running && WaitCycle(w, cycle)
  {
    var w, a, b := ThreadTwoTakes();
    var v := BothBlock(w, a, b);
    assert WaitsFor(v, 1, 2) && WaitsFor(v, 2, 1);
    assert WaitCycle(v, [1, 2]);
  }
}
