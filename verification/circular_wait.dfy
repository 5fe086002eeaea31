// No circular wait: as long as lockdep has not aborted, no cycle of threads is blocked
// each on a tracked mutex the next one holds.
module CircularWait {
  import opened Digraph
  import opened LockdepTables
  import opened MutexSystem

  // The class lockdep knows or would look up for a mutex, -1 if there is none yet.
  ghost function ClassOf(w: World, m: MutexId): int
    requires m in w.mutexes
  {
    var x := w.mutexes[m];
    if x.id >= 0 then x.id else if x.group in w.tables.ids then w.tables.ids[x.group] else -1
  }

  // lockdep has been told that `t` holds `m`, and not yet that it gives it up.
  ghost predicate Enlisted(w: World, t: ThreadId, m: MutexId) {
    && m in w.mutexes && Tracked(w.mutexes[m]) && w.mutexes[m].owner == Some(t) && t in w.pcs
    && (Mentions(w.pcs[t], m) ==>
          && !Before(w.pcs[t], LockedCall)
          && !(w.pcs[t].AtStore? && w.pcs[t].query == WillUnlockCall) && !w.pcs[t].AtUnlock?)
  }

  // lockdep believes `t` to hold the class of every mutex it has been told `t` holds.
  ghost predicate Known(w: World, t: ThreadId) {
    forall m :: Enlisted(w, t, m) ==> ClassOf(w, m) in HeldBy(w.tables, t)
  }

  // The rule the program has to follow: a thread waits for a tracked mutex only when lockdep knows
  // the classes it holds. What it takes by try_lock, or gives back, is its own business.
  ghost predicate Disciplined(w: World, t: ThreadId, a: Action) {
    a.Lock? && a.m in w.mutexes && Tracked(w.mutexes[a.m]) ==> Known(w, t)
  }

  // What lockdep believes a thread to hold it does hold.
  ghost predicate HeldOwned(w: World) {
    forall t, h :: h in HeldBy(w.tables, t) ==> exists m :: Enlisted(w, t, m) && ClassOf(w, m) == h
  }

  // Every class `t` holds precedes that of the mutex it waits for.
  ghost predicate Ordered(w: World, t: ThreadId, m: MutexId) {
    && m in w.mutexes && ClassOf(w, m) >= 0
    && ClassOf(w, m) !in HeldBy(w.tables, t)
    && forall h :: h in HeldBy(w.tables, t) ==> Edge(w.tables.follows, h, ClassOf(w, m))
  }

  // Inside lock, once lockdep has let the thread wait.
  ghost predicate Awaits(pc: Pc) {
    pc.AtBlocked? || (pc.AtTryLock? && pc.waits)
  }

  // The same, or about to store the answer.
  ghost predicate Queued(pc: Pc) {
    Awaits(pc) || (pc.AtStore? && pc.query == WillLockCall)
  }

  ghost predicate Waiter(w: World, t: ThreadId, pc: Pc) {
    pc != Idle && pc.m in w.mutexes && Tracked(w.mutexes[pc.m]) ==>
      && (Queued(pc) ==> Ordered(w, t, pc.m))
      && (Awaits(pc) ==> w.mutexes[pc.m].id >= 0)
  }

  ghost predicate Waiters(w: World) {
    forall t :: t in w.pcs ==> Waiter(w, t, w.pcs[t])
  }

  ghost predicate Tracking(w: World) {
    Isolated(w.tables) && HeldOwned(w) && Waiters(w)
  }

  // `u` is blocked inside lock on a tracked mutex.
  ghost predicate Stuck(w: World, u: ThreadId) {
    && u in w.pcs && w.pcs[u].AtBlocked?
    && w.pcs[u].m in w.mutexes && Tracked(w.mutexes[w.pcs[u].m])
  }

  ghost function StuckOn(w: World, u: ThreadId): Mutex
    requires Stuck(w, u)
  {
    w.mutexes[w.pcs[u].m]
  }

  ghost predicate WaitsFor(w: World, u: ThreadId, t: ThreadId) {
    Stuck(w, u) && StuckOn(w, u).owner == Some(t)
  }

  // Each thread of the cycle waits for a mutex that the next one, the last for one that the first, owns.
  ghost predicate WaitCycle(w: World, cycle: seq<ThreadId>) {
    && cycle != []
    && (forall i :: 0 <= i < |cycle| - 1 ==> WaitsFor(w, cycle[i], cycle[i + 1]))
    && WaitsFor(w, cycle[|cycle| - 1], cycle[0])
  }

  // ---- A wait cycle would be a cycle of lock classes ----

  lemma WaitIsEdge(w: World, u: ThreadId, t: ThreadId)
    requires Tracking(w) && WaitsFor(w, u, t) && Stuck(w, t) && Known(w, t)
    ensures Path(w.tables.follows, StuckOn(w, u).id, StuckOn(w, t).id)
  {
    assert Enlisted(w, t, w.pcs[u].m);
    assert Waiter(w, t, w.pcs[t]) && Waiter(w, u, w.pcs[u]);
    EdgeIsPath(w.tables.follows, StuckOn(w, u).id, StuckOn(w, t).id);
  }

  lemma {:induction false} WaitChainIsPath(w: World, chain: seq<ThreadId>)
    requires Tracking(w) && |chain| >= 2
    requires forall i :: 0 <= i < |chain| ==> Stuck(w, chain[i]) && Known(w, chain[i])
    requires forall i :: 0 <= i < |chain| - 1 ==> WaitsFor(w, chain[i], chain[i + 1])
    ensures Path(w.tables.follows, StuckOn(w, chain[0]).id, StuckOn(w, chain[|chain| - 1]).id)
    decreases |chain|
  {
    assert WaitsFor(w, chain[0], chain[1]);
    WaitIsEdge(w, chain[0], chain[1]);
    if |chain| == 2 {
    } else {
      var rest := chain[1..];
      forall i | 0 <= i < |rest| - 1 ensures WaitsFor(w, rest[i], rest[i + 1]) {
        assert WaitsFor(w, chain[i + 1], chain[i + 2]);
      }
      WaitChainIsPath(w, rest);
      PathTransitive(w.tables.follows, StuckOn(w, chain[0]).id,
                     StuckOn(w, chain[1]).id, StuckOn(w, chain[|chain| - 1]).id);
    }
  }

  lemma TrackingForbidsCycle(w: World, cycle: seq<ThreadId>)
    requires Tracking(w) && Acyclic(w.tables.follows)
    requires forall i :: 0 <= i < |cycle| ==> Known(w, cycle[i])
    ensures !WaitCycle(w, cycle)
  {
    if WaitCycle(w, cycle) {
      var chain := cycle + [cycle[0]];
      forall i | 0 <= i < |chain| - 1 ensures WaitsFor(w, chain[i], chain[i + 1]) {
        if i < |cycle| - 1 {
          assert WaitsFor(w, cycle[i], cycle[i + 1]);
        }
      }
      forall i | 0 <= i < |chain| ensures Stuck(w, chain[i]) {
        assert WaitsFor(w, chain[0], chain[1]);
        if i < |chain| - 1 { assert WaitsFor(w, chain[i], chain[i + 1]); }
      }
      WaitChainIsPath(w, chain);
    }
  }

  // ---- What a step of one thread changes ----

  // The classes of a thread stay, or it is noted to hold one more mutex, or one less.
  datatype Change = Same | Gains(m: MutexId) | Loses(m: MutexId)

  ghost predicate EnlistedAfter(w: World, t: ThreadId, c: Change, u: ThreadId, k: MutexId) {
    match c
    case Same => Enlisted(w, u, k)
    case Gains(m) => Enlisted(w, u, k) || (u == t && k == m)
    case Loses(m) => Enlisted(w, u, k) && !(u == t && k == m)
  }

  ghost predicate HeldAfter(w: World, v: World, t: ThreadId, c: Change) {
    match c
    case Same => HeldBy(v.tables, t) == HeldBy(w.tables, t)
    case Gains(m) => m in v.mutexes && HeldBy(v.tables, t) == HeldBy(w.tables, t) + {ClassOf(v, m)}
    case Loses(m) => Enlisted(w, t, m) && HeldBy(v.tables, t) == HeldBy(w.tables, t) - {ClassOf(w, m)}
  }

  // The class of a mutex is what it was, or one that nobody held.
  ghost predicate Settled(w: World, v: World, k: MutexId) {
    k in w.mutexes && k in v.mutexes ==>
      ClassOf(v, k) == ClassOf(w, k) || forall u :: ClassOf(v, k) !in HeldBy(w.tables, u)
  }

  ghost predicate Frames(w: World, v: World, t: ThreadId, c: Change) {
    && v.pcs.Keys == w.pcs.Keys
    && (forall u :: u in w.pcs && u != t ==> v.pcs[u] == w.pcs[u])
    && (forall m :: m in w.mutexes && m in v.mutexes ==> Tracked(v.mutexes[m]) == Tracked(w.mutexes[m]))
    && (forall u :: u != t ==> HeldBy(v.tables, u) == HeldBy(w.tables, u))
    && HeldAfter(w, v, t, c)
    && (forall u, k :: Enlisted(v, u, k) <==> EnlistedAfter(w, t, c, u, k))
    && (forall u, k :: Enlisted(w, u, k) ==> k in v.mutexes && ClassOf(v, k) == ClassOf(w, k))
    && (forall k :: Settled(w, v, k))
  }

  lemma HeldOwnedStays(w: World, v: World, t: ThreadId, c: Change)
    requires HeldOwned(w) && Frames(w, v, t, c)
    ensures HeldOwned(v)
  {
    forall u, h | h in HeldBy(v.tables, u) ensures exists k :: Enlisted(v, u, k) && ClassOf(v, k) == h {
      if h in HeldBy(w.tables, u) {
        var k :| Enlisted(w, u, k) && ClassOf(w, k) == h;
        assert Enlisted(v, u, k) <==> EnlistedAfter(w, t, c, u, k);
      } else {
        assert Enlisted(v, t, c.m) <==> EnlistedAfter(w, t, c, t, c.m);
      }
    }
  }

  lemma KnownStays(w: World, v: World, t: ThreadId, c: Change, u: ThreadId)
    requires Known(w, u) && Frames(w, v, t, c) && (u == t ==> c == Same)
    ensures Known(v, u)
  {
    forall k | Enlisted(v, u, k) ensures ClassOf(v, k) in HeldBy(v.tables, u) {
      assert Enlisted(v, u, k) <==> EnlistedAfter(w, t, c, u, k);
    }
  }

  // What the other threads wait for stays ahead of what they hold.
  ghost predicate QueueStays(w: World, v: World, u: ThreadId) {
    u in w.pcs && u in v.pcs && Queued(w.pcs[u]) && Waiter(w, u, w.pcs[u])
    && w.pcs[u].m in w.mutexes && Tracked(w.mutexes[w.pcs[u].m]) ==>
      && Ordered(v, u, w.pcs[u].m)
      && (w.mutexes[w.pcs[u].m].id >= 0 ==> v.mutexes[w.pcs[u].m].id >= 0)
  }

  lemma FramesKeep(w: World, v: World, t: ThreadId, c: Change)
    requires Book(w) && Tracking(w) && Isolated(v.tables) && Frames(w, v, t, c)
    requires t in v.pcs && Waiter(v, t, v.pcs[t])
    requires forall u :: u != t ==> QueueStays(w, v, u)
    ensures Tracking(v)
  {
    HeldOwnedStays(w, v, t, c);
    forall u | u in v.pcs ensures Waiter(v, u, v.pcs[u]) {
      if u != t {
        OthersWait(w, v, t, c, u);
      }
    }
  }

  lemma OthersWait(w: World, v: World, t: ThreadId, c: Change, u: ThreadId)
    requires Book(w) && Frames(w, v, t, c) && u in w.pcs && u != t && Waiter(w, u, w.pcs[u])
    requires QueueStays(w, v, u)
    ensures Waiter(v, u, v.pcs[u])
  {
    assert ThreadBook(w, u, w.pcs[u]);
  }

  // ---- Steps that leave lockdep's tables alone ----

  // Neither the tables nor the class of any mutex changes.
  ghost predicate SameClasses(w: World, v: World, t: ThreadId) {
    && v.tables == w.tables && v.mutexes.Keys == w.mutexes.Keys && v.pcs.Keys == w.pcs.Keys
    && (forall m :: m in w.mutexes ==>
          var x, y := w.mutexes[m], v.mutexes[m];
          ClassOf(v, m) == ClassOf(w, m) && (x.id >= 0 ==> y.id >= 0) && Tracked(y) == Tracked(x))
    && (forall u, m :: Enlisted(v, u, m) <==> Enlisted(w, u, m))
    && (forall u :: u in w.pcs && u != t ==> v.pcs[u] == w.pcs[u])
  }

  lemma SameClassesFrames(w: World, v: World, t: ThreadId)
    requires SameClasses(w, v, t)
    ensures Frames(w, v, t, Same)
    ensures forall u :: u != t ==> QueueStays(w, v, u)
  {
  }

  // A step that neither calls lockdep, nor builds or destroys a mutex.
  ghost predicate Plain(w: World, t: ThreadId, a: Action) {
    && !a.Create? && !a.Destroy?
    && (a.Continue? ==> t in w.pcs && !w.pcs[t].AtCall?)
  }

  lemma EntrySame(w: World, t: ThreadId, a: Action)
    requires Book(w) && Enabled(w, t, a) && (a.Lock? || a.TryLock? || a.Unlock?)
    ensures SameClasses(w, Next(w, t, a), t)
  {
    forall u, m ensures Enlisted(Next(w, t, a), u, m) <==> Enlisted(w, u, m) {}
  }

  lemma AcquireSame(w: World, t: ThreadId)
    requires Book(w) && Enabled(w, t, Continue)
    requires w.pcs[t].AtTryLock? || w.pcs[t].AtBlocked? || w.pcs[t].AtRead?
    ensures SameClasses(w, Next(w, t, Continue), t)
  {
    forall u, m ensures Enlisted(Next(w, t, Continue), u, m) <==> Enlisted(w, u, m) {}
  }

  lemma CountSame(w: World, t: ThreadId)
    requires Book(w) && Enabled(w, t, Continue) && Next(w, t, Continue).fault == Running
    requires w.pcs[t].AtPostLock? || w.pcs[t].AtPreUnlock? || w.pcs[t].AtUnlock?
    ensures SameClasses(w, Next(w, t, Continue), t)
  {
    assert ThreadBook(w, t, w.pcs[t]);
    assert MutexBook(w, w.pcs[t].m, w.mutexes[w.pcs[t].m]);
    forall u, m ensures Enlisted(Next(w, t, Continue), u, m) <==> Enlisted(w, u, m) {}
  }

  // Storing the id changes nobody's class: it is the one a lookup would have given.
  lemma StoreSame(w: World, t: ThreadId)
    requires Book(w) && Classes(w) && Enabled(w, t, Continue) && w.pcs[t].AtStore?
    ensures SameClasses(w, Next(w, t, Continue), t)
  {
    var pc, v := w.pcs[t], Next(w, t, Continue);
    assert InHand(w, pc) && ThreadBook(w, t, pc);
    assert ClassOf(v, pc.m) == ClassOf(w, pc.m);
    forall u, m ensures Enlisted(v, u, m) <==> Enlisted(w, u, m) {}
  }

  lemma PlainSame(w: World, t: ThreadId, a: Action)
    requires Book(w) && Classes(w) && Enabled(w, t, a) && Plain(w, t, a) && Next(w, t, a).fault == Running
    ensures SameClasses(w, Next(w, t, a), t)
  {
    if !a.Continue? {
      EntrySame(w, t, a);
    } else if w.pcs[t].AtStore? {
      StoreSame(w, t);
    } else if w.pcs[t].AtTryLock? || w.pcs[t].AtBlocked? || w.pcs[t].AtRead? {
      AcquireSame(w, t);
    } else {
      CountSame(w, t);
    }
  }

  lemma PlainWaits(w: World, t: ThreadId, a: Action)
    requires Book(w) && Classes(w) && Enabled(w, t, a) && Plain(w, t, a) && Next(w, t, a).fault == Running
    requires Waiter(w, t, w.pcs[t])
    ensures var v := Next(w, t, a); t in v.pcs && Waiter(v, t, v.pcs[t])
  {
    var v, pc := Next(w, t, a), w.pcs[t];
    assert ThreadBook(w, t, pc);
    PlainSame(w, t, a);
    if a.Continue? && pc.AtStore? { assert InHand(w, pc); }
  }

  // ---- Steps that call lockdep ----

  // What entering a reference by name, or none, does to the tables.
  ghost predicate Grown(s: Tables, r: Tables) {
    && r.enabled && Valid(r) && Isolated(r)
    && r.held == s.held
    && (forall a, b :: Edge(r.follows, a, b) <==> Edge(s.follows, a, b))
    && (forall n :: n in s.ids ==> n in r.ids && r.ids[n] == s.ids[n])
    && (forall n :: n in r.ids && n !in s.ids ==> r.ids[n] in s.free)
  }

  lemma ResolveGrows(s: Tables, name: string, id: int)
    requires Valid(s) && s.enabled && Isolated(s) && (id == -1 || id in s.names)
    ensures var r := ResolveId(s, name, id); r.Done? ==>
      && Grown(s, r.tables) && r.id in r.tables.names && r.id >= 0
      && (id >= 0 ==> r.id == id)
      && (id < 0 ==> name in r.tables.ids && r.tables.ids[name] == r.id)
      && (id < 0 && name in s.ids ==> r.id == s.ids[name])
      && (id < 0 && name !in s.ids ==> r.id in s.free)
  {
    RegisterKeeps(s, name);
    assert id in s.names ==> id in AllIds();
  }

  lemma FreeIsNotHeld(s: Tables, id: int, t: ThreadId)
    requires Valid(s) && s.enabled && Isolated(s) && id in s.free
    ensures id !in HeldBy(s, t)
  {
  }

  // `v` follows `w` by a call that `t` made, or by a construction: the tables may have grown
  // and edges may have been added.
  ghost predicate Called(w: World, v: World, t: ThreadId) {
    && Valid(w.tables) && w.tables.enabled && Isolated(v.tables)
    && (forall k :: k in w.mutexes ==> k in v.mutexes && v.mutexes[k] == w.mutexes[k])
    && v.pcs.Keys == w.pcs.Keys
    && (forall u :: u in w.pcs && u != t ==> v.pcs[u] == w.pcs[u])
    && (forall a, b :: Edge(w.tables.follows, a, b) ==> Edge(v.tables.follows, a, b))
    && (forall n :: n in w.tables.ids ==> n in v.tables.ids && v.tables.ids[n] == w.tables.ids[n])
    && (forall n :: n in v.tables.ids && n !in w.tables.ids ==> v.tables.ids[n] in w.tables.free)
    && (forall u :: u != t ==> HeldBy(v.tables, u) == HeldBy(w.tables, u))
  }

  lemma CalledSettles(w: World, v: World, t: ThreadId, k: MutexId)
    requires Called(w, v, t) && Isolated(w.tables) && k in w.mutexes
    ensures Settled(w, v, k)
    ensures ClassOf(w, k) >= 0 ==> ClassOf(v, k) == ClassOf(w, k)
  {
    forall u, id | id in w.tables.free ensures id !in HeldBy(w.tables, u) && 0 <= id {
      FreeIsNotHeld(w.tables, id, u);
      assert id in AllIds();
    }
  }

  lemma EnlistedRefers(w: World, t: ThreadId, m: MutexId)
    requires Book(w) && Classes(w) && Enlisted(w, t, m)
    ensures Refers(w, m, ClassOf(w, m)) && ClassOf(w, m) >= 0
  {
    assert InHand(w, w.pcs[t]) && Named(w, m, w.mutexes[m]);
  }

  lemma CalledFrames(w: World, v: World, t: ThreadId, c: Change)
    requires Book(w) && Classes(w) && Isolated(w.tables) && Called(w, v, t) && HeldAfter(w, v, t, c)
    requires forall u, k :: Enlisted(v, u, k) <==> EnlistedAfter(w, t, c, u, k)
    ensures Frames(w, v, t, c)
    ensures forall u :: u != t ==> QueueStays(w, v, u)
  {
    forall k | k in w.mutexes ensures Settled(w, v, k) && (ClassOf(w, k) >= 0 ==> ClassOf(v, k) == ClassOf(w, k)) {
      CalledSettles(w, v, t, k);
    }
    forall u, k | Enlisted(w, u, k) ensures k in v.mutexes && ClassOf(v, k) == ClassOf(w, k) {
      EnlistedRefers(w, u, k);
    }
  }

  // The call leaves an edge from every held class to the one waited for, which is not among them.
  lemma HeldGetEdges(s: Tables, t: ThreadId, name: string, id: int, recursive: bool)
    requires Valid(s) && s.enabled && KnownId(s, id)
    ensures var o := WillLock(s, t, name, id, recursive);
      o.Done? ==> forall h :: h in HeldBy(s, t) && h != o.id ==> Edge(o.tables.follows, h, o.id)
  {
    RegisterKeeps(s, name);
    var o := WillLock(s, t, name, id, recursive);
    if o.Done? {
      var r := ResolveId(s, name, id).tables;
      forall h | h in HeldBy(s, t) && h != o.id ensures Edge(o.tables.follows, h, o.id) {
        assert h in HeldBy(r, t);
        assert 0 <= h < r.maxId;
      }
    }
  }

  // The id a thread calls with is unknown or that of a registered class, and the class the
  // call names is then that of the mutex.
  lemma CallNamesClass(w: World, t: ThreadId)
    requires Classes(w) && Enabled(w, t, Continue) && w.pcs[t].AtCall? && w.pcs[t].query != WillUnlockCall
    requires Next(w, t, Continue).fault == Running
    ensures var pc, v := w.pcs[t], Next(w, t, Continue);
      && (pc.id == -1 || pc.id in w.tables.names) && KnownId(w.tables, pc.id)
      && v.mutexes == w.mutexes && v.pcs[t].AtStore? && ClassOf(v, pc.m) == v.pcs[t].id >= 0
  {
    var pc, x := w.pcs[t], w.mutexes[w.pcs[t].m];
    assert InHand(w, pc) && Named(w, pc.m, x);
    assert pc.id in w.tables.names ==> pc.id in AllIds();
    AnswerKeeps(w.tables, t, x, pc.query, pc.id);
    AnswerAgrees(w, t);
  }

  lemma WillLockOrders(w: World, t: ThreadId)
    requires Classes(w) && Isolated(w.tables) && Enabled(w, t, Continue) && Tracked(w.mutexes[w.pcs[t].m])
    requires w.pcs[t].AtCall? && w.pcs[t].query == WillLockCall && Next(w, t, Continue).fault == Running
    ensures var v := Next(w, t, Continue);
      && Called(w, v, t) && HeldBy(v.tables, t) == HeldBy(w.tables, t) && Ordered(v, t, w.pcs[t].m)
  {
    var pc, x := w.pcs[t], w.mutexes[w.pcs[t].m];
    CallNamesClass(w, t);
    ResolveGrows(w.tables, x.group, pc.id);
    WillLockKeeps(w.tables, t, x.group, pc.id, x.recursive);
    var o := WillLock(w.tables, t, x.group, pc.id, x.recursive);
    assert forall u :: HeldBy(o.tables, u) == HeldBy(w.tables, u);
    HeldGetEdges(w.tables, t, x.group, pc.id, x.recursive);
  }

  lemma WillLockFrames(w: World, t: ThreadId)
    requires Book(w) && Classes(w) && Isolated(w.tables) && Enabled(w, t, Continue)
    requires w.pcs[t].AtCall? && w.pcs[t].query == WillLockCall && Next(w, t, Continue).fault == Running
    ensures var v := Next(w, t, Continue);
      && Frames(w, v, t, Same) && Isolated(v.tables) && (forall u :: u != t ==> QueueStays(w, v, u))
      && Ordered(v, t, w.pcs[t].m)
  {
    var v := Next(w, t, Continue);
    assert ThreadBook(w, t, w.pcs[t]);
    WillLockOrders(w, t);
    forall u, k ensures Enlisted(v, u, k) <==> EnlistedAfter(w, t, Same, u, k) {}
    CalledFrames(w, v, t, Same);
  }

  lemma LockedGrows(s: Tables, t: ThreadId, name: string, id: int)
    requires Valid(s) && s.enabled && Isolated(s) && (id == -1 || id in s.names)
    ensures var o := Locked(s, t, name, id); o.Done? ==>
      && Isolated(o.tables) && o.id >= 0
      && (forall a, b :: Edge(s.follows, a, b) ==> Edge(o.tables.follows, a, b))
      && (forall n :: n in s.ids ==> n in o.tables.ids && o.tables.ids[n] == s.ids[n])
      && (forall n :: n in o.tables.ids && n !in s.ids ==> o.tables.ids[n] in s.free)
      && (forall u :: u != t ==> HeldBy(o.tables, u) == HeldBy(s, u))
      && HeldBy(o.tables, t) == HeldBy(s, t) + {o.id}
  {
    ResolveGrows(s, name, id);
    var o := Locked(s, t, name, id);
    if o.Done? {
      var r := ResolveId(s, name, id).tables;
      forall u, h | h in HeldBy(o.tables, u) ensures h in r.names {
        if h != o.id { assert h in HeldBy(r, u); }
      }
    }
  }

  lemma LockedCalled(w: World, t: ThreadId)
    requires Classes(w) && Isolated(w.tables) && Enabled(w, t, Continue) && Tracked(w.mutexes[w.pcs[t].m])
    requires w.pcs[t].AtCall? && w.pcs[t].query == LockedCall && Next(w, t, Continue).fault == Running
    ensures var v, m := Next(w, t, Continue), w.pcs[t].m;
      && Called(w, v, t) && v.mutexes == w.mutexes
      && HeldBy(v.tables, t) == HeldBy(w.tables, t) + {ClassOf(v, m)}
  {
    var pc, x := w.pcs[t], w.mutexes[w.pcs[t].m];
    CallNamesClass(w, t);
    LockedGrows(w.tables, t, x.group, pc.id);
  }

  lemma LockedFrames(w: World, t: ThreadId)
    requires Book(w) && Classes(w) && Isolated(w.tables) && Enabled(w, t, Continue)
    requires w.pcs[t].AtCall? && w.pcs[t].query == LockedCall && Next(w, t, Continue).fault == Running
    ensures var v := Next(w, t, Continue);
      && Frames(w, v, t, Gains(w.pcs[t].m)) && Isolated(v.tables) && (forall u :: u != t ==> QueueStays(w, v, u))
      && v.pcs[t] == AtStore(w.pcs[t].m, LockedCall, v.pcs[t].id)
  {
    var v, m := Next(w, t, Continue), w.pcs[t].m;
    assert ThreadBook(w, t, w.pcs[t]);
    LockedCalled(w, t);
    forall u, k ensures Enlisted(v, u, k) <==> EnlistedAfter(w, t, Gains(m), u, k) {}
    CalledFrames(w, v, t, Gains(m));
  }

  lemma WillUnlockFrames(w: World, t: ThreadId)
    requires Book(w) && Classes(w) && Isolated(w.tables) && Enabled(w, t, Continue)
    requires w.pcs[t].AtCall? && w.pcs[t].query == WillUnlockCall && Next(w, t, Continue).fault == Running
    ensures var v := Next(w, t, Continue);
      && Frames(w, v, t, Loses(w.pcs[t].m)) && Isolated(v.tables) && (forall u :: u != t ==> QueueStays(w, v, u))
      && v.pcs[t] == AtStore(w.pcs[t].m, WillUnlockCall, v.pcs[t].id)
  {
    var v, m := Next(w, t, Continue), w.pcs[t].m;
    assert ThreadBook(w, t, w.pcs[t]);
    UnlockKnowsId(w, t);
    assert Enlisted(w, t, m);
    WillUnlockKeeps(w.tables, t, w.pcs[t].id);
    assert forall u :: u != t ==> HeldBy(v.tables, u) == HeldBy(w.tables, u);
    assert HeldBy(v.tables, t) == HeldBy(w.tables, t) - {ClassOf(w, m)};
    forall u, k ensures Enlisted(v, u, k) <==> EnlistedAfter(w, t, Loses(m), u, k) {}
    CalledFrames(w, v, t, Loses(m));
  }

  lemma CreateCalls(w: World, m: MutexId, recursive: bool, lockdep: bool, group: string, registered: string,
                    t: ThreadId)
    requires Classes(w) && Isolated(w.tables) && m !in w.mutexes
    ensures var v := Construct(w, m, recursive, lockdep, group, registered); v.fault == Running ==>
      && Called(w, v, t) && v.pcs == w.pcs && v.mutexes == w.mutexes[m := v.mutexes[m]] && v.mutexes[m].owner == None
      && forall u :: HeldBy(v.tables, u) == HeldBy(w.tables, u)
  {
    if lockdep {
      ResolveGrows(w.tables, registered, -1);
    }
  }

  lemma CreateFrames(w: World, t: ThreadId, a: Action)
    requires Book(w) && Classes(w) && Isolated(w.tables) && Enabled(w, t, a) && a.Create?
    requires Next(w, t, a).fault == Running
    ensures var v := Next(w, t, a);
      && Frames(w, v, t, Same) && Isolated(v.tables) && (forall u :: u != t ==> QueueStays(w, v, u))
      && v.pcs == w.pcs
  {
    var v := Next(w, t, a);
    CreateCalls(w, a.m, a.recursive, a.lockdep, a.group, a.registered, t);
    forall u, k ensures Enlisted(v, u, k) <==> EnlistedAfter(w, t, Same, u, k) {}
    CalledFrames(w, v, t, Same);
  }

  // ---- Destruction ----

  // A mutex that lockdep has let a thread wait for, or has been told is held, refers to its class.
  lemma AwaitedRefers(w: World, t: ThreadId)
    requires Book(w) && Classes(w) && t in w.pcs && Queued(w.pcs[t]) && Waiter(w, t, w.pcs[t])
    requires Tracked(w.mutexes[w.pcs[t].m])
    ensures Refers(w, w.pcs[t].m, ClassOf(w, w.pcs[t].m))
  {
    assert ThreadBook(w, t, w.pcs[t]) && InHand(w, w.pcs[t]);
  }

  // `v` is `w` without the mutex `m`. A class may be gone with it, but none that another mutex
  // refers to or that is held.
  ghost predicate Shed(w: World, v: World, m: MutexId) {
    && v.pcs == w.pcs && v.mutexes == w.mutexes - {m}
    && Valid(v.tables) && v.tables.enabled && Isolated(v.tables)
    && (forall u :: HeldBy(v.tables, u) == HeldBy(w.tables, u))
    && (forall n :: n in v.tables.ids ==> n in w.tables.ids && v.tables.ids[n] == w.tables.ids[n])
    && (forall n :: n in w.tables.ids && n !in v.tables.ids ==> Unused(w, m, w.tables.ids[n]))
    && (forall a, b :: Edge(w.tables.follows, a, b) && !Edge(v.tables.follows, a, b) ==>
          Unused(w, m, a) || Unused(w, m, b))
  }

  ghost predicate Unused(w: World, m: MutexId, id: int) {
    && (forall k :: k != m ==> !Refers(w, k, id))
    && (forall u :: id !in HeldBy(w.tables, u))
  }

  lemma LastReferenceUnused(w: World, m: MutexId)
    requires Book(w) && Classes(w) && Counted(w) && Isolated(w.tables) && HeldOwned(w)
    requires m in w.mutexes && w.mutexes[m].owner == None
    requires w.mutexes[m].id >= 0 && RefCount(w.tables, w.mutexes[m].id) == 1
    ensures Unused(w, m, w.mutexes[m].id)
  {
    var c := w.mutexes[m].id;
    forall k | k != m ensures !Refers(w, k, c) {
      if Refers(w, k, c) { LastMember(w, m, k, c); }
    }
    forall u ensures c !in HeldBy(w.tables, u) {
      if c in HeldBy(w.tables, u) {
        var k :| Enlisted(w, u, k) && ClassOf(w, k) == c;
        EnlistedRefers(w, u, k);
      }
    }
  }

  lemma DestroySheds(w: World, t: ThreadId, a: Action)
    requires Book(w) && Classes(w) && Counted(w) && Isolated(w.tables) && HeldOwned(w) && Enabled(w, t, a) && a.Destroy?
    requires Next(w, t, a).fault == Running
    ensures Shed(w, Next(w, t, a), a.m)
  {
    var c, v := w.mutexes[a.m].id, Next(w, t, a);
    assert Named(w, a.m, w.mutexes[a.m]);
    forall u ensures HeldBy(v.tables, u) == HeldBy(w.tables, u) {}
    UnregisterValid(w.tables, c);
    if c >= 0 {
      UnregisterIsolatesIff(w.tables, c);
      if RefCount(w.tables, c) == 1 { LastReferenceUnused(w, a.m); }
    }
  }

  lemma ShedKeepsClass(w: World, v: World, m: MutexId, k: MutexId)
    requires Shed(w, v, m) && k in v.mutexes
    ensures ClassOf(v, k) == ClassOf(w, k) || ClassOf(v, k) == -1
    ensures Refers(w, k, ClassOf(w, k)) ==> ClassOf(v, k) == ClassOf(w, k)
  {
  }

  lemma ShedKeepsQueue(w: World, v: World, m: MutexId, u: ThreadId)
    requires Book(w) && Classes(w) && Shed(w, v, m) && u in w.pcs && !Mentions(w.pcs[u], m)
    ensures QueueStays(w, v, u)
  {
    var pc := w.pcs[u];
    assert ThreadBook(w, u, pc);
    if pc != Idle && Tracked(w.mutexes[pc.m]) && Waiter(w, u, pc) {
      ShedKeepsClass(w, v, m, pc.m);
      if Queued(pc) { AwaitedRefers(w, u); }
    }
  }

  lemma DestroyFrames(w: World, t: ThreadId, a: Action)
    requires Book(w) && Classes(w) && Counted(w) && Isolated(w.tables) && HeldOwned(w)
    requires Enabled(w, t, a) && a.Destroy? && Next(w, t, a).fault == Running
    ensures var v := Next(w, t, a);
      && Frames(w, v, t, Same) && Isolated(v.tables) && (forall u :: u != t ==> QueueStays(w, v, u))
      && v.pcs == w.pcs
  {
    var v := Next(w, t, a);
    DestroySheds(w, t, a);
    forall u, k ensures Enlisted(v, u, k) <==> EnlistedAfter(w, t, Same, u, k) {}
    forall u, k | Enlisted(w, u, k) ensures k in v.mutexes && ClassOf(v, k) == ClassOf(w, k) {
      EnlistedRefers(w, u, k);
      ShedKeepsClass(w, v, a.m, k);
    }
    forall k ensures Settled(w, v, k) {
      if k in v.mutexes { ShedKeepsClass(w, v, a.m, k); }
    }
    forall u | u != t ensures QueueStays(w, v, u) {
      if u in w.pcs { ShedKeepsQueue(w, v, a.m, u); }
    }
  }

  // ---- The theorem ----

  // How a step changes what is held.
  ghost function ChangeOf(w: World, t: ThreadId, a: Action): Change
    requires Enabled(w, t, a)
  {
    if a.Continue? && w.pcs[t].AtCall? && w.pcs[t].query == LockedCall then Gains(w.pcs[t].m)
    else if a.Continue? && w.pcs[t].AtCall? && w.pcs[t].query == WillUnlockCall then Loses(w.pcs[t].m)
    else Same
  }

  // Whatever the program does.
  lemma StepFrames(w: World, t: ThreadId, a: Action)
    requires Sound(w) && Isolated(w.tables) && HeldOwned(w) && Enabled(w, t, a) && Next(w, t, a).fault == Running
    ensures var v := Next(w, t, a);
      && Frames(w, v, t, ChangeOf(w, t, a)) && Isolated(v.tables) && (forall u :: u != t ==> QueueStays(w, v, u))
  {
    if a.Create? {
      CreateFrames(w, t, a);
    } else if a.Destroy? {
      DestroyFrames(w, t, a);
    } else if Plain(w, t, a) {
      PlainSame(w, t, a);
      SameClassesFrames(w, Next(w, t, a), t);
    } else {
      match w.pcs[t].query {
        case WillLockCall => WillLockFrames(w, t);
        case LockedCall => LockedFrames(w, t);
        case WillUnlockCall => WillUnlockFrames(w, t);
      }
    }
  }

  lemma StepWaits(w: World, t: ThreadId, a: Action)
    requires Sound(w) && Tracking(w) && Enabled(w, t, a) && Next(w, t, a).fault == Running
    ensures var v := Next(w, t, a); t in v.pcs && Waiter(v, t, v.pcs[t])
  {
    assert Waiter(w, t, w.pcs[t]) && ThreadBook(w, t, w.pcs[t]);
    if Plain(w, t, a) {
      PlainWaits(w, t, a);
    } else if a.Create? {
      CreateFrames(w, t, a);
    } else if a.Destroy? {
      DestroyFrames(w, t, a);
    } else {
      match w.pcs[t].query {
        case WillLockCall => WillLockFrames(w, t);
        case LockedCall => LockedFrames(w, t);
        case WillUnlockCall => WillUnlockFrames(w, t);
      }
    }
  }

  ghost predicate Safe(w: World) {
    Sound(w) && (w.fault == Running ==> Tracking(w))
  }

  // Every step of any thread of any program.
  lemma StepSafe(w: World, t: ThreadId, a: Action)
    requires Safe(w) && Enabled(w, t, a)
    ensures Safe(Next(w, t, a))
  {
    StepSound(w, t, a);
    if Next(w, t, a).fault == Running {
      StepFrames(w, t, a);
      StepWaits(w, t, a);
      FramesKeep(w, Next(w, t, a), t, ChangeOf(w, t, a));
    }
  }

  lemma {:induction false} RunSafe(run: seq<World>, moves: seq<Move>, k: nat)
    requires MutexSystem.IsRun(run, moves) && k < |run|
    ensures Safe(run[k])
    decreases k
  {
    if k == 0 {
      InitSound(run[0]);
    } else {
      RunSafe(run, moves, k - 1);
      StepSafe(run[k - 1], moves[k - 1].t, moves[k - 1].a);
    }
  }

  // Whatever the program does, what lockdep believes a thread to hold it holds, and every cycle of
  // waiting threads contains one that owns a mutex of a class lockdep does not know it to hold.
  lemma CycleHidesAMutex(run: seq<World>, moves: seq<Move>, k: nat, cycle: seq<ThreadId>)
    requires MutexSystem.IsRun(run, moves) && k < |run| && run[k].fault == Running
    ensures HeldOwned(run[k])
    ensures WaitCycle(run[k], cycle) ==> exists i :: 0 <= i < |cycle| && !Known(run[k], cycle[i])
  {
    RunSafe(run, moves, k);
    if forall i :: 0 <= i < |cycle| ==> Known(run[k], cycle[i]) {
      TrackingForbidsCycle(run[k], cycle);
    }
  }

  // ---- A rule that rules it out ----

  // Inside lock up to the pthread mutex.
  ghost predicate Locking(pc: Pc) {
    Before(pc, WillLockCall) || Queued(pc)
  }

  // A thread that waits knew its classes when it came, and has met no new ones since.
  ghost predicate Honest(w: World, t: ThreadId) {
    t in w.pcs && Locking(w.pcs[t]) && w.pcs[t].m in w.mutexes && Tracked(w.mutexes[w.pcs[t].m]) ==> Known(w, t)
  }

  lemma StepHonest(w: World, t: ThreadId, a: Action, u: ThreadId)
    requires Safe(w) && Enabled(w, t, a) && Disciplined(w, t, a) && Next(w, t, a).fault == Running
    requires Honest(w, u)
    ensures Honest(Next(w, t, a), u)
  {
    StepFrames(w, t, a);
    var v, c := Next(w, t, a), ChangeOf(w, t, a);
    if u in w.pcs { assert ThreadBook(w, u, w.pcs[u]); }
    if Known(w, u) && (u == t ==> c == Same) {
      KnownStays(w, v, t, c, u);
    } else if u == t {
      HeldStep(w, t, a);
    }
  }

  // After a step that changes what it holds, or that it takes without knowing its classes, a
  // thread is not about to wait.
  lemma HeldStep(w: World, t: ThreadId, a: Action)
    requires Safe(w) && Enabled(w, t, a) && Disciplined(w, t, a) && Next(w, t, a).fault == Running
    requires Honest(w, t) && (Known(w, t) ==> ChangeOf(w, t, a) != Same)
    ensures var v := Next(w, t, a); t in v.pcs && Locking(v.pcs[t]) ==>
      v.pcs[t].m in v.mutexes && !Tracked(v.mutexes[v.pcs[t].m])
  {
    assert ThreadBook(w, t, w.pcs[t]);
    StepKeepsBook(w, t, a);
    var v := Next(w, t, a);
    if t in v.pcs { assert ThreadBook(v, t, v.pcs[t]); }
  }

  ghost predicate DisciplinedRun(run: seq<World>, moves: seq<Move>) {
    && MutexSystem.IsRun(run, moves)
    && forall k {:trigger moves[k]} :: 0 <= k < |moves| ==> Disciplined(run[k], moves[k].t, moves[k].a)
  }

  lemma {:induction false} RunHonest(run: seq<World>, moves: seq<Move>, k: nat, u: ThreadId)
    requires DisciplinedRun(run, moves) && k < |run| && run[k].fault == Running
    ensures Honest(run[k], u)
    decreases k
  {
    if k == 0 {
    } else {
      var t, a := moves[k - 1].t, moves[k - 1].a;
      assert Enabled(run[k - 1], t, a) && Disciplined(run[k - 1], t, a);
      RunHonest(run, moves, k - 1, u);
      RunSafe(run, moves, k - 1);
      StepHonest(run[k - 1], t, a, u);
    }
  }

  lemma AllStuck(w: World, cycle: seq<ThreadId>, i: nat)
    requires WaitCycle(w, cycle) && i < |cycle|
    ensures Stuck(w, cycle[i])
  {
    if i < |cycle| - 1 { assert WaitsFor(w, cycle[i], cycle[i + 1]); }
  }

  lemma NoCircularWait(run: seq<World>, moves: seq<Move>, k: nat, cycle: seq<ThreadId>)
    requires DisciplinedRun(run, moves) && k < |run| && run[k].fault == Running
    ensures !WaitCycle(run[k], cycle)
  {
    CycleHidesAMutex(run, moves, k, cycle);
    if WaitCycle(run[k], cycle) {
      var i :| 0 <= i < |cycle| && !Known(run[k], cycle[i]);
      AllStuck(run[k], cycle, i);
      RunHonest(run, moves, k, cycle[i]);
    }
  }
}
