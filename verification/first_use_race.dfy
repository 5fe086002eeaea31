// Why reference counts are exact only up to races: two threads that use a mutex for the first
// time at once both register its class, and the class outlives the mutex.
module FirstUseRace {
  import opened LockdepTables
  import opened MutexSystem
  import opened TryLockGap

  // Mutex 1 has been built before lockdep was switched on, and so has no class yet.
  ghost function NewMutex(): Mutex {
    Mutex(false, true, "a", -1, None, 0, 0, None)
  }

  // Both threads have read that the mutex has no id.
  lemma BothRead() returns (w: World)
    ensures Reached(w)
    ensures w == World(Started(), map[1 := NewMutex()],
                       map[1 := AtCall(1, WillLockCall, -1), 2 := AtCall(1, WillLockCall, -1)], Running)
  {
    var w0 := World(Started(), map[1 := NewMutex()], map[1 := Idle, 2 := Idle], Running);
    var none: seq<Move> := [];
    assert MutexSystem.IsRun([w0], none);
    assert [w0][|none|] == w0;
    var a := Step(w0, 1, Lock(1));
    var b := Step(a, 2, Lock(1));
    var c := Step(b, 1, Continue);
    w := Step(c, 2, Continue);
  }

  // The first call enters the class, the second finds it by name and counts it again.
  lemma BothRegister() returns (s: Tables, r: Tables, c: int)
    ensures WillLock(Started(), 1, "a", -1, false) == Done(s, c) && WillLock(s, 2, "a", -1, false) == Done(r, c)
    ensures c >= 0 && r.enabled && r.names == map[c := "a"] && RefCount(r, c) == 2
    ensures Valid(r) && HeldBy(r, 1) == {} && HeldBy(r, 2) == {}
  {
    var z := Started();
    StartedHasNoEdges();
    SomeIdIsFree();
    WaitingFirst(z, 1, "a");
    RegisterKeeps(z, "a");
    var o := WillLock(z, 1, "a", -1, false);
    s, c := o.tables, o.id;
    RegisterKeeps(s, "a");
    WillLockKeeps(s, 2, "a", -1, false);
    assert HeldBy(s, 2) == {};
    r := WillLock(s, 2, "a", -1, false).tables;
  }

  lemma BothCall() returns (w: World, c: int)
    ensures Reached(w) && c >= 0
    ensures w == World(w.tables, map[1 := NewMutex()],
                       map[1 := AtStore(1, WillLockCall, c), 2 := AtStore(1, WillLockCall, c)], Running)
    ensures w.tables.enabled && w.tables.names == map[c := "a"] && RefCount(w.tables, c) == 2
  {
    var u := BothRead();
    var s, r, d := BothRegister();
    c := d;
    var a := Step(u, 1, Continue);
    assert a == u.(tables := s, pcs := u.pcs[1 := AtStore(1, WillLockCall, c)]);
    w := Step(a, 2, Continue);
    assert w == a.(tables := r, pcs := a.pcs[2 := AtStore(1, WillLockCall, c)]);
  }

  lemma BothStore() returns (w: World, c: int)
    ensures Reached(w) && w.fault == Running && c >= 0
    ensures w.mutexes == map[1 := NewMutex().(id := c)]
    ensures w.pcs == map[1 := AtTryLock(1, true), 2 := AtTryLock(1, true)]
    ensures w.tables.enabled && w.tables.names == map[c := "a"] && RefCount(w.tables, c) == 2
  {
    var u, d := BothCall();
    c := d;
    var a := Step(u, 1, Continue);
    assert a == u.(mutexes := map[1 := NewMutex().(id := c)], pcs := u.pcs[1 := AtTryLock(1, true)]);
    w := Step(a, 2, Continue);
  }

  // A thread that may wait takes the mutex and gives it back.
  lemma Uses(w: World, t: ThreadId, c: int) returns (v: World)
    requires Reached(w) && w.fault == Running && t in w.pcs && w.pcs[t] == AtTryLock(1, true) && c >= 0
    requires w.mutexes == map[1 := NewMutex().(id := c)] && w.tables.enabled
    ensures Reached(v) && v.fault == Running && v.pcs == w.pcs[t := Idle]
    ensures v.mutexes == map[1 := NewMutex().(id := c)] && v.tables.enabled
    ensures v.tables.names == w.tables.names && v.tables.refs == w.tables.refs
  {
    var a := Step(w, t, Continue);
    var s := Locked(w.tables, t, "a", c).tables;
    var b := Enlist(a, t, 1, s, c);
    v := Releases(b, t, 1);
  }

  // No mutex is left, and the class is still registered.
  lemma ClassOutlivesItsMutex()
    ensures exists w: World, c: int ::
      Reached(w) && w.fault == Running && w.mutexes == map[] && c in w.tables.names
  {
    var w, c := BothStore();
    var a := Uses(w, 1, c);
    var b := Uses(a, 2, c);
    assert b.pcs == map[1 := Idle, 2 := Idle];
    var v := Step(b, 1, Destroy(1));
    assert v.mutexes == map[] && c in v.tables.names;
  }
}
