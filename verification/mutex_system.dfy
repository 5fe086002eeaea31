// The debug mutex as a transition system: any number of threads run lock, try_lock, unlock,
// construction and destruction on any number of mutexes, one visible effect per step. The
// lockdep calls act on the tables of LockdepTables.
module MutexSystem {
  import opened LockdepTables

  type MutexId = int

  datatype Option<+T> = None | Some(value: T)

  // `owner` and `count` are the pthread mutex; the rest are the debug wrapper's fields.
  datatype Mutex = Mutex(
    recursive: bool,
    lockdep: bool,
    group: string,
    id: int,
    owner: Option<ThreadId>,
    count: nat,
    nlock: int,
    lockedBy: Option<ThreadId>)

  // What a thread asks lockdep about a mutex.
  datatype Query = WillLockCall | LockedCall | WillUnlockCall

  // Where a thread stands: the next thing it does, on which mutex. A query reads the mutex's class
  // id, calls lockdep with what it read and stores what that returned. `waits` tells the try_lock
  // inside lock, which blocks on failure, from a try_lock of the program.
  datatype Pc =
    | Idle
    | AtRead(m: MutexId, query: Query)
    | AtCall(m: MutexId, query: Query, id: int)
    | AtStore(m: MutexId, query: Query, id: int)
    | AtTryLock(m: MutexId, waits: bool)
    | AtBlocked(m: MutexId)
    | AtPostLock(m: MutexId)
    | AtPreUnlock(m: MutexId)
    | AtUnlock(m: MutexId)

  datatype Fault = Running | Aborted | AssertFailed

  datatype World = World(tables: Tables, mutexes: map<MutexId, Mutex>, pcs: map<ThreadId, Pc>, fault: Fault)

  // `registered` is the name the constructor hands to lockdep.
  datatype Action =
    | Lock(m: MutexId)
    | TryLock(m: MutexId)
    | Unlock(m: MutexId)
    | Create(m: MutexId, recursive: bool, lockdep: bool, group: string, registered: string)
    | Destroy(m: MutexId)
    | Continue

  ghost predicate Mentions(pc: Pc, m: MutexId) {
    pc != Idle && pc.m == m
  }

  // At the query `q`, before lockdep has answered, or all through it.
  ghost predicate Before(pc: Pc, q: Query) {
    (pc.AtRead? || pc.AtCall?) && pc.query == q
  }

  ghost predicate Queries(pc: Pc) {
    pc.AtRead? || pc.AtCall? || pc.AtStore?
  }

  ghost predicate Within(pc: Pc, q: Query) {
    Queries(pc) && pc.query == q
  }

  // lockdep follows a mutex unless it is recursive or was built without lockdep.
  ghost predicate Tracked(x: Mutex) {
    !x.recursive && x.lockdep
  }

  ghost predicate Acquirable(x: Mutex, t: ThreadId) {
    x.owner == None || (x.recursive && x.owner == Some(t))
  }

  ghost predicate Enabled(w: World, t: ThreadId, a: Action) {
    && w.fault == Running && t in w.pcs
    && (a.Continue? <==> w.pcs[t] != Idle)
    && match a
       case Lock(m) => m in w.mutexes
       case TryLock(m) => m in w.mutexes
       case Unlock(m) => m in w.mutexes && w.mutexes[m].owner == Some(t)
       case Create(m, _, _, _, _) => m !in w.mutexes
       case Destroy(m) =>
         && m in w.mutexes && w.mutexes[m].owner == None
         && forall u :: u in w.pcs ==> !Mentions(w.pcs[u], m)
       case Continue =>
         && w.pcs[t].m in w.mutexes
         && (w.pcs[t].AtBlocked? ==>
               var x := w.mutexes[w.pcs[t].m];
               Acquirable(x, t) || x.owner == Some(t))
  }

  ghost function Goto(w: World, t: ThreadId, pc: Pc): World {
    w.(pcs := w.pcs[t := pc])
  }

  ghost function Put(w: World, m: MutexId, x: Mutex): World {
    w.(mutexes := w.mutexes[m := x])
  }

  ghost function Acquire(w: World, t: ThreadId, m: MutexId): World
    requires m in w.mutexes
  {
    var x := w.mutexes[m];
    Goto(Put(w, m, x.(owner := Some(t), count := x.count + 1)), t,
         if Tracked(x) then AtRead(m, LockedCall) else AtPostLock(m))
  }

  ghost function Answer(s: Tables, t: ThreadId, x: Mutex, q: Query, id: int): Outcome {
    match q
    case WillLockCall => WillLock(s, t, x.group, id, x.recursive)
    case LockedCall => Locked(s, t, x.group, id)
    case WillUnlockCall => Done(WillUnlock(s, t, id), id)
  }

  // The lockdep call of the query `q`, made with the id read before.
  ghost function Ask(w: World, t: ThreadId, m: MutexId, q: Query, id: int): World
    requires m in w.mutexes
  {
    if q == WillUnlockCall && id < -1 then w.(fault := AssertFailed)
    else match Answer(w.tables, t, w.mutexes[m], q, id)
      case Abort => w.(fault := Aborted)
      case Done(s, c) => Goto(w.(tables := s), t, AtStore(m, q, c))
  }

  ghost function Answered(m: MutexId, q: Query): Pc {
    match q
    case WillLockCall => AtTryLock(m, true)
    case LockedCall => AtPostLock(m)
    case WillUnlockCall => AtUnlock(m)
  }

  ghost function PostLock(w: World, t: ThreadId, m: MutexId): World
    requires m in w.mutexes
  {
    var x := w.mutexes[m];
    if !x.recursive && x.nlock != 0 then w.(fault := AssertFailed)
    else Goto(Put(w, m, x.(lockedBy := Some(t), nlock := x.nlock + 1)), t, Idle)
  }

  ghost function PreUnlock(w: World, t: ThreadId, m: MutexId): World
    requires m in w.mutexes
  {
    var x := w.mutexes[m];
    if (if x.recursive then x.nlock <= 0 else x.nlock != 1) || x.lockedBy != Some(t) then w.(fault := AssertFailed)
    else Goto(Put(w, m, x.(lockedBy := if x.nlock == 1 then None else x.lockedBy, nlock := x.nlock - 1)), t,
              if Tracked(x) then AtRead(m, WillUnlockCall) else AtUnlock(m))
  }

  ghost function Proceed(w: World, t: ThreadId): World
    requires Enabled(w, t, Continue)
  {
    var m := w.pcs[t].m;
    var x := w.mutexes[m];
    match w.pcs[t]
    case AtRead(_, q) => Goto(w, t, AtCall(m, q, x.id))
    case AtCall(_, q, id) => Ask(w, t, m, q, id)
    case AtStore(_, q, id) => Goto(Put(w, m, x.(id := id)), t, Answered(m, q))
    case AtTryLock(_, waits) =>
      if Acquirable(x, t) then Acquire(w, t, m) else Goto(w, t, if waits then AtBlocked(m) else Idle)
    case AtBlocked(_) =>
      // A thread that already owns the error-checking mutex gets EDEADLK and lock throws.
      if Acquirable(x, t) then Acquire(w, t, m) else Goto(w, t, Idle)
    case AtPostLock(_) => PostLock(w, t, m)
    case AtPreUnlock(_) => PreUnlock(w, t, m)
    case AtUnlock(_) =>
      var left := if x.count > 0 then x.count - 1 else 0;
      Goto(Put(w, m, x.(count := left, owner := if left == 0 then None else x.owner)), t, Idle)
  }

  ghost function Construct(w: World, m: MutexId, recursive: bool, lockdep: bool, group: string, registered: string)
    : World
  {
    var x := Mutex(recursive, lockdep, group, -1, None, 0, 0, None);
    if !lockdep then Put(w, m, x)
    else match Register(w.tables, registered)
      case Abort => w.(fault := Aborted)
      case Done(s, id) => Put(w, m, x.(id := id)).(tables := s)
  }

  ghost function Destruct(w: World, m: MutexId): World
    requires m in w.mutexes
  {
    var x := w.mutexes[m];
    var gone := w.(mutexes := w.mutexes - {m});
    if x.nlock != 0 then w.(fault := AssertFailed)
    else if !x.lockdep || x.id < 0 then gone
    else if x.id !in w.tables.names then w.(fault := AssertFailed)
    else gone.(tables := Unregister(w.tables, x.id))
  }

  ghost function Next(w: World, t: ThreadId, a: Action): World
    requires Enabled(w, t, a)
  {
    match a
    case Lock(m) => Goto(w, t, if Tracked(w.mutexes[m]) then AtRead(m, WillLockCall) else AtTryLock(m, true))
    case TryLock(m) => Goto(w, t, AtTryLock(m, false))
    case Unlock(m) => Goto(w, t, AtPreUnlock(m))
    case Create(m, recursive, lockdep, group, registered) => Construct(w, m, recursive, lockdep, group, registered)
    case Destroy(m) => Destruct(w, m)
    case Continue => Proceed(w, t)
  }

  // lockdep has just been switched on; mutexes built before that have no id yet.
  ghost predicate Init(w: World) {
    && w.tables == Started() && w.fault == Running
    && (forall t :: t in w.pcs ==> w.pcs[t] == Idle)
    && forall m :: m in w.mutexes ==>
         var x := w.mutexes[m];
         x.id == -1 && x.owner == None && x.count == 0 && x.nlock == 0 && x.lockedBy == None
  }

  // ---- Bookkeeping of one mutex ----

  // Between taking the pthread mutex and counting it, or uncounting it and giving it up.
  ghost predicate Lags(w: World, m: MutexId, x: Mutex) {
    && x.owner.Some? && x.owner.value in w.pcs
    && var pc := w.pcs[x.owner.value];
       Mentions(pc, m) && (Within(pc, LockedCall) || pc.AtPostLock? || Within(pc, WillUnlockCall) || pc.AtUnlock?)
  }

  ghost predicate MutexBook(w: World, m: MutexId, x: Mutex) {
    && (x.owner == None <==> x.count == 0)
    && (x.owner.Some? ==> x.owner.value in w.pcs)
    && (!x.recursive ==> x.count <= 1)
    && x.nlock == x.count - (if Lags(w, m, x) then 1 else 0)
    && x.lockedBy == if x.nlock > 0 then x.owner else None
  }

  ghost predicate Owns(pc: Pc) {
    || Within(pc, LockedCall) || pc.AtPostLock?
    || pc.AtPreUnlock? || Within(pc, WillUnlockCall) || pc.AtUnlock?
  }

  ghost predicate ThreadBook(w: World, t: ThreadId, pc: Pc) {
    pc != Idle ==>
      && pc.m in w.mutexes
      && (Queries(pc) ==> Tracked(w.mutexes[pc.m]))
      && (Owns(pc) ==> w.mutexes[pc.m].owner == Some(t))
  }

  ghost predicate Book(w: World) {
    && (forall m :: m in w.mutexes ==> MutexBook(w, m, w.mutexes[m]))
    && (forall t :: t in w.pcs ==> ThreadBook(w, t, w.pcs[t]))
  }

  // ---- Mutexes and their lock classes ----

  // The mutex stores the class `id`, or a thread is about to store it there.
  ghost predicate Refers(w: World, m: MutexId, id: int) {
    && m in w.mutexes
    && (w.mutexes[m].id == id
        || exists t :: t in w.pcs && w.pcs[t].AtStore? && w.pcs[t].m == m && w.pcs[t].id == id)
  }

  ghost function Members(w: World, id: int): set<MutexId> {
    set m | m in w.mutexes && Refers(w, m, id)
  }

  // A mutex lockdep has been told of knows its class, and the class is registered.
  ghost predicate Named(w: World, m: MutexId, x: Mutex) {
    && x.id >= -1 && (x.id >= 0 ==> x.lockdep && x.id in w.tables.names)
    && (Tracked(x) && x.owner.Some? && x.owner.value in w.pcs ==>
          x.id >= 0 || (Mentions(w.pcs[x.owner.value], m) && Within(w.pcs[x.owner.value], LockedCall)))
  }

  // An id in the hands of a thread is that of the mutex, but another thread may have stored the
  // class of that name since it was read, and may be about to store it still.
  ghost predicate InHand(w: World, pc: Pc) {
    pc != Idle && pc.m in w.mutexes ==>
      var x := w.mutexes[pc.m];
      && (pc.AtCall? ==>
            pc.id == x.id || (pc.id == -1 && x.id in w.tables.names && w.tables.names[x.id] == x.group))
      && (pc.AtStore? ==>
            pc.id >= 0 && pc.id in w.tables.names
            && (x.id == pc.id || (x.id == -1 && w.tables.names[pc.id] == x.group)))
      && (pc.AtCall? && pc.query == WillUnlockCall ==> pc.id == x.id)
  }

  // Every id a mutex stores or is about to store is that of a registered class.
  ghost predicate Classes(w: World) {
    && Valid(w.tables) && w.tables.enabled
    && (forall m :: m in w.mutexes ==> Named(w, m, w.mutexes[m]))
    && (forall t :: t in w.pcs ==> InHand(w, w.pcs[t]))
  }

  // References to a class beyond the mutexes of that class.
  ghost function Surplus(w: World, id: int): int {
    RefCount(w.tables, id) - |Members(w, id)|
  }

  ghost predicate Counted(w: World) {
    forall id :: 0 <= id ==> Surplus(w, id) >= 0
  }

  ghost predicate Sound(w: World) {
    w.fault != AssertFailed && (w.fault == Running ==> Book(w) && Classes(w) && Counted(w))
  }

  // Lock and try_lock up to the pthread mutex, and unlock before it counts down.
  ghost predicate Reaches(w: World, t: ThreadId, a: Action) {
    || a.Lock? || a.TryLock? || a.Unlock?
    || (a.Continue? && t in w.pcs && (w.pcs[t].AtTryLock? || w.pcs[t].AtBlocked?))
  }

  lemma ReachKeepsMutexBook(w: World, t: ThreadId, a: Action, m: MutexId)
    requires Book(w) && Enabled(w, t, a) && Reaches(w, t, a) && m in w.mutexes
    ensures var v := Next(w, t, a); m in v.mutexes && MutexBook(v, m, v.mutexes[m])
  {
    assert MutexBook(w, m, w.mutexes[m]);
    assert ThreadBook(w, t, w.pcs[t]);
  }

  lemma ReachKeepsBook(w: World, t: ThreadId, a: Action)
    requires Book(w) && Enabled(w, t, a) && Reaches(w, t, a)
    ensures Book(Next(w, t, a)) && Next(w, t, a).fault == Running
  {
    var v := Next(w, t, a);
    forall m | m in v.mutexes ensures MutexBook(v, m, v.mutexes[m]) {
      ReachKeepsMutexBook(w, t, a, m);
    }
    assert ThreadBook(w, t, w.pcs[t]);
    forall u | u in v.pcs ensures ThreadBook(v, u, v.pcs[u]) {
      assert ThreadBook(w, u, w.pcs[u]);
    }
  }

  lemma CountKeepsBook(w: World, t: ThreadId)
    requires Book(w) && Enabled(w, t, Continue)
    requires w.pcs[t].AtPostLock? || w.pcs[t].AtPreUnlock? || w.pcs[t].AtUnlock?
    ensures Book(Next(w, t, Continue)) && Next(w, t, Continue).fault == Running
  {
    var v := Next(w, t, Continue);
    assert ThreadBook(w, t, w.pcs[t]);
    assert MutexBook(w, w.pcs[t].m, w.mutexes[w.pcs[t].m]);
    forall m | m in v.mutexes ensures MutexBook(v, m, v.mutexes[m]) {
      assert MutexBook(w, m, w.mutexes[m]);
    }
    forall u | u in v.pcs ensures ThreadBook(v, u, v.pcs[u]) {
      assert ThreadBook(w, u, w.pcs[u]);
    }
  }

  // A query touches nothing of the mutexes but the id of its own.
  lemma QueryTouches(w: World, t: ThreadId)
    requires Book(w) && Enabled(w, t, Continue) && Queries(w.pcs[t])
    ensures var v := Next(w, t, Continue); v.fault == Running ==>
      && v.pcs == w.pcs[t := v.pcs[t]] && Mentions(v.pcs[t], w.pcs[t].m)
      && v.mutexes.Keys == w.mutexes.Keys
      && (forall m :: m in w.mutexes ==> v.mutexes[m] == w.mutexes[m].(id := v.mutexes[m].id))
      && (Within(v.pcs[t], LockedCall) || v.pcs[t].AtPostLock? <==> w.pcs[t].query == LockedCall)
      && (Within(v.pcs[t], WillUnlockCall) || v.pcs[t].AtUnlock? <==> w.pcs[t].query == WillUnlockCall)
      && !v.pcs[t].AtPreUnlock?
  {
    assert ThreadBook(w, t, w.pcs[t]);
  }

  lemma QueryKeepsBook(w: World, t: ThreadId)
    requires Book(w) && Enabled(w, t, Continue) && Queries(w.pcs[t])
    requires Next(w, t, Continue).fault == Running
    ensures Book(Next(w, t, Continue))
  {
    var v := Next(w, t, Continue);
    QueryTouches(w, t);
    assert ThreadBook(w, t, w.pcs[t]);
    forall m | m in v.mutexes ensures MutexBook(v, m, v.mutexes[m]) {
      assert MutexBook(w, m, w.mutexes[m]);
      assert Lags(v, m, v.mutexes[m]) == Lags(w, m, w.mutexes[m]);
    }
    forall u | u in v.pcs ensures ThreadBook(v, u, v.pcs[u]) {
      assert ThreadBook(w, u, w.pcs[u]);
    }
  }

  lemma QueryDoesNotFail(w: World, t: ThreadId)
    requires Classes(w) && Enabled(w, t, Continue) && Queries(w.pcs[t])
    ensures Next(w, t, Continue).fault != AssertFailed
  {
    assert InHand(w, w.pcs[t]) && Named(w, w.pcs[t].m, w.mutexes[w.pcs[t].m]);
  }

  lemma LifetimeKeepsBook(w: World, t: ThreadId, a: Action)
    requires Book(w) && Classes(w) && Enabled(w, t, a) && (a.Create? || a.Destroy?)
    ensures var v := Next(w, t, a); v.fault != AssertFailed && (v.fault == Running ==> Book(v))
  {
    var v := Next(w, t, a);
    if a.Destroy? {
      assert MutexBook(w, a.m, w.mutexes[a.m]);
      assert Named(w, a.m, w.mutexes[a.m]);
    }
    if v.fault == Running {
      forall m | m in v.mutexes ensures MutexBook(v, m, v.mutexes[m]) {
        if m in w.mutexes { assert MutexBook(w, m, w.mutexes[m]); }
      }
      forall u | u in v.pcs ensures ThreadBook(v, u, v.pcs[u]) {
        assert ThreadBook(w, u, w.pcs[u]);
      }
    }
  }

  // ---- Classes, step by step ----

  // `t` registers a class again for a mutex that has got it since `t` read its id.
  ghost predicate Doubles(w: World, t: ThreadId, a: Action, id: int) {
    && a.Continue? && t in w.pcs && w.pcs[t].AtCall?
    && w.pcs[t].query != WillUnlockCall && w.pcs[t].id == -1
    && Refers(w, w.pcs[t].m, id)
  }

  lemma SameMembers(w: World, v: World, id: int)
    requires forall m :: Refers(v, m, id) <==> Refers(w, m, id)
    ensures Members(v, id) == Members(w, id)
  {
    forall m ensures m in Members(v, id) <==> m in Members(w, id) {
      assert Refers(v, m, id) <==> Refers(w, m, id);
    }
  }

  // A step that neither calls lockdep nor stores an id.
  ghost predicate Moves(w: World, t: ThreadId, a: Action) {
    && !a.Create? && !a.Destroy?
    && (a.Continue? ==> t in w.pcs && !w.pcs[t].AtCall? && !w.pcs[t].AtStore?)
  }

  lemma MoveKeepsClasses(w: World, t: ThreadId, a: Action)
    requires Book(w) && Classes(w) && Enabled(w, t, a) && Moves(w, t, a) && Next(w, t, a).fault == Running
    ensures Classes(Next(w, t, a))
  {
    var v := Next(w, t, a);
    forall m | m in v.mutexes ensures Named(v, m, v.mutexes[m]) {
      MoveKeepsNamed(w, t, a, m);
    }
    forall u | u in v.pcs ensures InHand(v, v.pcs[u]) {
      MoveKeepsInHand(w, t, a, u);
    }
  }

  lemma MoveKeepsNamed(w: World, t: ThreadId, a: Action, m: MutexId)
    requires Book(w) && Enabled(w, t, a) && Moves(w, t, a) && Next(w, t, a).fault == Running
    requires m in w.mutexes && Named(w, m, w.mutexes[m])
    ensures var v := Next(w, t, a); m in v.mutexes && Named(v, m, v.mutexes[m])
  {
    assert ThreadBook(w, t, w.pcs[t]);
  }

  // A move leaves lockdep's tables and every mutex's class alone.
  lemma MoveKeepsIds(w: World, t: ThreadId, a: Action)
    requires Book(w) && Enabled(w, t, a) && Moves(w, t, a) && Next(w, t, a).fault == Running
    ensures var v := Next(w, t, a);
      && v.tables == w.tables && v.mutexes.Keys == w.mutexes.Keys && v.pcs == w.pcs[t := v.pcs[t]]
      && (forall m :: m in w.mutexes ==>
            v.mutexes[m].id == w.mutexes[m].id && v.mutexes[m].group == w.mutexes[m].group)
  {
    assert ThreadBook(w, t, w.pcs[t]);
  }

  lemma MoveKeepsInHand(w: World, t: ThreadId, a: Action, u: ThreadId)
    requires Book(w) && Classes(w) && Enabled(w, t, a) && Moves(w, t, a) && Next(w, t, a).fault == Running
    requires u in w.pcs
    ensures var v := Next(w, t, a); u in v.pcs && InHand(v, v.pcs[u])
  {
    MoveKeepsIds(w, t, a);
    assert ThreadBook(w, t, w.pcs[t]) && InHand(w, w.pcs[u]);
  }

  lemma MoveKeepsRefers(w: World, t: ThreadId, a: Action)
    requires Book(w) && Enabled(w, t, a) && Moves(w, t, a) && Next(w, t, a).fault == Running
    ensures forall m, id :: Refers(Next(w, t, a), m, id) <==> Refers(w, m, id)
  {
    var v := Next(w, t, a);
    assert ThreadBook(w, t, w.pcs[t]);
    assert !v.pcs[t].AtStore? && !w.pcs[t].AtStore?;
    forall m, id ensures Refers(v, m, id) <==> Refers(w, m, id) {
      if Refers(w, m, id) && w.mutexes[m].id != id {
        var u :| u in w.pcs && w.pcs[u].AtStore? && w.pcs[u].m == m && w.pcs[u].id == id;
        assert v.pcs[u] == w.pcs[u];
      }
      if Refers(v, m, id) && v.mutexes[m].id != id {
        var u :| u in v.pcs && v.pcs[u].AtStore? && v.pcs[u].m == m && v.pcs[u].id == id;
        assert v.pcs[u] == w.pcs[u];
      }
    }
  }

  // What entering a class by name, or none, does to the registry.
  ghost predicate Enters(s: Tables, r: Tables, name: string, id: int, c: int) {
    && (id >= 0 ==> c == id && r.names == s.names && r.ids == s.ids && r.refs == s.refs)
    && (id < 0 ==>
          && c >= 0 && (name !in s.ids ==> c in s.free)
          && r.names == s.names[c := name] && r.ids == s.ids[name := c]
          && r.refs == s.refs[c := RefCount(s, c) + 1])
  }

  lemma ResolveEnters(s: Tables, name: string, id: int)
    requires Valid(s) && s.enabled
    ensures var r := ResolveId(s, name, id); r.Done? ==> r.tables.enabled && Enters(s, r.tables, name, id, r.id)
  {
    RegisterKeeps(s, name);
  }

  // What a query returns and enters, given the id read.
  lemma AnswerKeeps(s: Tables, t: ThreadId, x: Mutex, q: Query, id: int)
    requires Valid(s) && s.enabled && (id == -1 || id in s.names)
    requires q == WillUnlockCall ==> id >= 0
    ensures var o := Answer(s, t, x, q, id); o.Done? ==>
      Valid(o.tables) && o.tables.enabled && Enters(s, o.tables, x.group, id, o.id)
  {
    assert id in s.names ==> id in AllIds();
    ResolveEnters(s, x.group, id);
    match q
    case WillLockCall => WillLockKeeps(s, t, x.group, id, x.recursive);
    case LockedCall => LockedKeeps(s, t, x.group, id);
    case WillUnlockCall => WillUnlockKeeps(s, t, id);
  }

  // The class an answer names is the one its mutex has, if it has one.
  lemma AnswerAgrees(w: World, t: ThreadId)
    requires Classes(w) && Enabled(w, t, Continue) && w.pcs[t].AtCall?
    requires w.pcs[t].query == WillUnlockCall ==> w.pcs[t].id >= 0
    ensures var pc, x := w.pcs[t], w.mutexes[w.pcs[t].m];
      var o := Answer(w.tables, t, x, pc.query, pc.id); o.Done? ==>
      && o.id >= 0 && o.id in o.tables.names
      && (x.id == o.id || (x.id == -1 && o.tables.names[o.id] == x.group))
      && (forall i :: i in w.tables.names ==> i in o.tables.names && o.tables.names[i] == w.tables.names[i])
  {
    var pc, x := w.pcs[t], w.mutexes[w.pcs[t].m];
    assert InHand(w, pc) && Named(w, pc.m, x);
    AnswerKeeps(w.tables, t, x, pc.query, pc.id);
    var o := Answer(w.tables, t, x, pc.query, pc.id);
    if o.Done? && pc.id < 0 {
      assert x.id in w.tables.names && w.tables.names[x.id] == x.group ==> w.tables.ids[x.group] == x.id;
    }
  }

  // The id in hand at the query of unlock is the mutex's own, and there is one.
  lemma UnlockKnowsId(w: World, t: ThreadId)
    requires Book(w) && Classes(w) && t in w.pcs && Within(w.pcs[t], WillUnlockCall)
    ensures var pc := w.pcs[t];
      && w.mutexes[pc.m].id >= 0 && (!pc.AtRead? ==> pc.id == w.mutexes[pc.m].id)
  {
    var pc := w.pcs[t];
    assert ThreadBook(w, t, pc) && InHand(w, pc) && Named(w, pc.m, w.mutexes[pc.m]);
  }

  lemma AskKeepsClasses(w: World, t: ThreadId)
    requires Book(w) && Classes(w) && Enabled(w, t, Continue) && w.pcs[t].AtCall?
    requires Next(w, t, Continue).fault == Running
    ensures Classes(Next(w, t, Continue))
  {
    var pc, v := w.pcs[t], Next(w, t, Continue);
    var x := w.mutexes[pc.m];
    assert ThreadBook(w, t, pc) && InHand(w, pc) && Named(w, pc.m, x);
    if pc.query == WillUnlockCall { UnlockKnowsId(w, t); }
    AnswerKeeps(w.tables, t, x, pc.query, pc.id);
    AnswerAgrees(w, t);
    forall m | m in v.mutexes ensures Named(v, m, v.mutexes[m]) {
      assert Named(w, m, w.mutexes[m]);
    }
    forall u | u in v.pcs ensures InHand(v, v.pcs[u]) {
      assert InHand(w, w.pcs[u]);
    }
  }

  lemma AskRefers(w: World, t: ThreadId, m: MutexId, id: int)
    requires Book(w) && Classes(w) && Enabled(w, t, Continue) && w.pcs[t].AtCall?
    requires Next(w, t, Continue).fault == Running
    ensures var v := Next(w, t, Continue);
      && v.pcs[t].AtStore?
      && (Refers(v, m, id) <==> Refers(w, m, id) || (m == w.pcs[t].m && id == v.pcs[t].id))
  {
    var v := Next(w, t, Continue);
    assert v.mutexes == w.mutexes;
    if Refers(w, m, id) && w.mutexes[m].id != id {
      var u :| u in w.pcs && w.pcs[u].AtStore? && w.pcs[u].m == m && w.pcs[u].id == id;
      assert v.pcs[u] == w.pcs[u];
    }
    if Refers(v, m, id) && v.mutexes[m].id != id {
      var u :| u in v.pcs && v.pcs[u].AtStore? && v.pcs[u].m == m && v.pcs[u].id == id;
      assert u != t ==> v.pcs[u] == w.pcs[u];
    }
    assert v.pcs[t].m == w.pcs[t].m;
  }

  // Whoever refers to a class on behalf of a mutex got it by the mutex's name, if none was read.
  lemma StaleRefers(w: World, t: ThreadId, id: int)
    requires Classes(w) && t in w.pcs && w.pcs[t].AtCall? && w.pcs[t].id == -1 && id >= 0
    requires Refers(w, w.pcs[t].m, id)
    ensures var g := w.mutexes[w.pcs[t].m].group; g in w.tables.ids && w.tables.ids[g] == id
  {
    var m := w.pcs[t].m;
    assert InHand(w, w.pcs[t]) && Named(w, m, w.mutexes[m]);
    if w.mutexes[m].id != id {
      var u :| u in w.pcs && w.pcs[u].AtStore? && w.pcs[u].m == m && w.pcs[u].id == id;
      assert InHand(w, w.pcs[u]);
    }
  }

  lemma AskMembers(w: World, t: ThreadId, id: int)
    requires Book(w) && Classes(w) && Enabled(w, t, Continue) && w.pcs[t].AtCall? && 0 <= id
    requires Next(w, t, Continue).fault == Running
    ensures var v, m := Next(w, t, Continue), w.pcs[t].m;
      && v.pcs[t].AtStore?
      && Members(v, id) == Members(w, id) + (if id == v.pcs[t].id then {m} else {})
      && (m in Members(w, id) <==> Refers(w, m, id))
  {
    var v := Next(w, t, Continue);
    AskRefers(w, t, w.pcs[t].m, id);
    forall m ensures m in Members(v, id) <==> m in Members(w, id) || (m == w.pcs[t].m && id == v.pcs[t].id) {
      AskRefers(w, t, m, id);
    }
  }

  lemma AskCounts(w: World, t: ThreadId, id: int)
    requires Book(w) && Classes(w) && Enabled(w, t, Continue) && w.pcs[t].AtCall? && 0 <= id
    requires Next(w, t, Continue).fault == Running
    ensures Surplus(Next(w, t, Continue), id) == Surplus(w, id) + if Doubles(w, t, Continue, id) then 1 else 0
  {
    var pc, v := w.pcs[t], Next(w, t, Continue);
    var x := w.mutexes[pc.m];
    assert InHand(w, pc) && Named(w, pc.m, x);
    if pc.query == WillUnlockCall { UnlockKnowsId(w, t); }
    AnswerKeeps(w.tables, t, x, pc.query, pc.id);
    AskMembers(w, t, id);
    if id != v.pcs[t].id && Doubles(w, t, Continue, id) {
      StaleRefers(w, t, id);
    }
  }

  lemma StoreKeepsClasses(w: World, t: ThreadId)
    requires Book(w) && Classes(w) && Enabled(w, t, Continue) && w.pcs[t].AtStore?
    ensures Classes(Next(w, t, Continue))
    ensures forall m, id :: id >= 0 ==> (Refers(Next(w, t, Continue), m, id) <==> Refers(w, m, id))
  {
    var pc, v := w.pcs[t], Next(w, t, Continue);
    assert ThreadBook(w, t, pc) && InHand(w, pc) && Named(w, pc.m, w.mutexes[pc.m]);
    forall m | m in v.mutexes ensures Named(v, m, v.mutexes[m]) {
      assert Named(w, m, w.mutexes[m]);
    }
    forall u | u in v.pcs ensures InHand(v, v.pcs[u]) {
      StoreKeepsInHand(w, t, u);
    }
    forall m, id | id >= 0 ensures Refers(v, m, id) <==> Refers(w, m, id) {
      StoreRefers(w, t, m, id);
    }
  }

  lemma StoreKeepsInHand(w: World, t: ThreadId, u: ThreadId)
    requires Book(w) && Classes(w) && Enabled(w, t, Continue) && w.pcs[t].AtStore? && u in w.pcs
    ensures InHand(Next(w, t, Continue), Next(w, t, Continue).pcs[u])
  {
    var pc := w.pcs[t];
    assert ThreadBook(w, t, pc) && InHand(w, pc) && Named(w, pc.m, w.mutexes[pc.m]);
    assert ThreadBook(w, u, w.pcs[u]) && InHand(w, w.pcs[u]);
    if u != t && w.pcs[u] != Idle && w.pcs[u].m == pc.m {
      if Within(w.pcs[u], WillUnlockCall) { UnlockKnowsId(w, u); }
      if w.pcs[u].AtStore? && w.mutexes[pc.m].id == -1 {
        assert w.tables.names[w.pcs[u].id] == w.tables.names[pc.id];
      }
    }
  }

  lemma StoreRefers(w: World, t: ThreadId, m: MutexId, id: int)
    requires Book(w) && Classes(w) && Enabled(w, t, Continue) && w.pcs[t].AtStore? && id >= 0
    ensures Refers(Next(w, t, Continue), m, id) <==> Refers(w, m, id)
  {
    var pc, v := w.pcs[t], Next(w, t, Continue);
    assert InHand(w, pc) && Named(w, pc.m, w.mutexes[pc.m]);
    if Refers(w, m, id) && w.mutexes[m].id != id {
      var u :| u in w.pcs && w.pcs[u].AtStore? && w.pcs[u].m == m && w.pcs[u].id == id;
      assert u != t ==> v.pcs[u] == w.pcs[u];
    }
    if Refers(v, m, id) && v.mutexes[m].id != id {
      var u :| u in v.pcs && v.pcs[u].AtStore? && v.pcs[u].m == m && v.pcs[u].id == id;
      assert u != t ==> v.pcs[u] == w.pcs[u];
    }
  }

  lemma CreateKeepsClasses(w: World, t: ThreadId, a: Action)
    requires Book(w) && Classes(w) && Enabled(w, t, a) && a.Create? && Next(w, t, a).fault == Running
    ensures Classes(Next(w, t, a))
  {
    var v := Next(w, t, a);
    RegisterKeeps(w.tables, a.registered);
    forall m | m in v.mutexes ensures Named(v, m, v.mutexes[m]) {
      if m in w.mutexes { assert Named(w, m, w.mutexes[m]); }
    }
    forall u | u in v.pcs ensures InHand(v, v.pcs[u]) {
      assert ThreadBook(w, u, w.pcs[u]) && InHand(w, w.pcs[u]);
    }
  }

  // A new mutex belongs to no class but the one it was given.
  lemma CreateRefers(w: World, v: World, m: MutexId, id: int)
    requires Book(w) && m !in w.mutexes && m in v.mutexes && v.pcs == w.pcs
    requires v.mutexes == w.mutexes[m := v.mutexes[m]]
    ensures Members(v, id) == Members(w, id) + if v.mutexes[m].id == id then {m} else {}
    ensures m !in Members(w, id)
  {
    forall u | u in w.pcs ensures !Mentions(w.pcs[u], m) {
      assert ThreadBook(w, u, w.pcs[u]);
    }
    forall k ensures k in Members(v, id) <==> k in Members(w, id) || (k == m && v.mutexes[m].id == id) {
      if k == m {
        assert Refers(v, k, id) <==> v.mutexes[k].id == id;
      } else {
        assert Refers(v, k, id) <==> Refers(w, k, id);
      }
    }
  }

  lemma CreateCounts(w: World, t: ThreadId, a: Action, id: int)
    requires Book(w) && Classes(w) && Enabled(w, t, a) && a.Create? && Next(w, t, a).fault == Running && 0 <= id
    ensures Surplus(Next(w, t, a), id) == Surplus(w, id)
  {
    CreateRefers(w, Next(w, t, a), a.m, id);
    LockdepTables.ResolveCounts(w.tables, a.registered, -1, id);
    assert Next(w, t, a).mutexes[a.m].id == id ==> a.lockdep;
  }

  lemma DestroyRefers(w: World, t: ThreadId, a: Action, id: int)
    requires Enabled(w, t, a) && a.Destroy? && Next(w, t, a).fault == Running
    ensures Members(Next(w, t, a), id) == Members(w, id) - {a.m}
    ensures a.m in Members(w, id) <==> w.mutexes[a.m].id == id
  {
    var v := Next(w, t, a);
    assert v.pcs == w.pcs && v.mutexes == w.mutexes - {a.m};
    forall m ensures m in Members(v, id) <==> m in Members(w, id) && m != a.m {
      assert m != a.m ==> (Refers(v, m, id) <==> Refers(w, m, id));
    }
    assert forall u :: u in w.pcs ==> !Mentions(w.pcs[u], a.m);
  }

  // A class that loses its last reference belongs to no other mutex.
  lemma LastMember(w: World, m: MutexId, k: MutexId, id: int)
    requires Counted(w) && 0 <= id && m in Members(w, id) && k in Members(w, id) && m != k
    ensures RefCount(w.tables, id) >= 2
  {
    assert Surplus(w, id) >= 0;
    assert {k, m} <= Members(w, id) && |{k, m}| == 2;
    SubsetSize({k, m}, Members(w, id));
  }

  lemma DestroyKeepsClasses(w: World, t: ThreadId, a: Action)
    requires Book(w) && Classes(w) && Counted(w) && Enabled(w, t, a) && a.Destroy?
    requires Next(w, t, a).fault == Running
    ensures Classes(Next(w, t, a))
  {
    var v, c := Next(w, t, a), w.mutexes[a.m].id;
    assert Named(w, a.m, w.mutexes[a.m]);
    UnregisterValid(w.tables, c);
    forall k | k in v.mutexes ensures Named(v, k, v.mutexes[k]) {
      assert Named(w, k, w.mutexes[k]);
      if v.mutexes[k].id == c && c >= 0 {
        LastMember(w, a.m, k, c);
      }
    }
    forall u | u in v.pcs ensures InHand(v, v.pcs[u]) {
      var pc := w.pcs[u];
      assert ThreadBook(w, u, pc) && InHand(w, pc) && !Mentions(pc, a.m);
      if pc != Idle && c >= 0 && Refers(w, pc.m, c) {
        LastMember(w, a.m, pc.m, c);
      }
    }
  }

  lemma DestroyCounts(w: World, t: ThreadId, a: Action, id: int)
    requires Classes(w) && Counted(w) && Enabled(w, t, a) && a.Destroy? && 0 <= id
    requires Next(w, t, a).fault == Running
    ensures Surplus(Next(w, t, a), id) == Surplus(w, id)
  {
    var c := w.mutexes[a.m].id;
    assert Named(w, a.m, w.mutexes[a.m]);
    DestroyRefers(w, t, a, id);
    if c == id {
      assert RefCount(Next(w, t, a).tables, id) == RefCount(w.tables, id) - 1;
    }
  }

  lemma {:induction false} SubsetSize(a: set<int>, b: set<int>)
    requires a <= b
    ensures |a| <= |b|
    decreases a
  {
    if a == {} {
    } else {
      assert (forall x :: x !in a) ==> a == {};
      var x :| x in a;
      SubsetSize(a - {x}, b - {x});
    }
  }

  // Each step leaves a class as many references beyond its mutexes as before, and one more
  // exactly if it registers the class a second time for the same mutex.
  lemma StepCounts(w: World, t: ThreadId, a: Action, id: int)
    requires Sound(w) && Enabled(w, t, a) && Next(w, t, a).fault == Running && 0 <= id
    ensures Surplus(Next(w, t, a), id) == Surplus(w, id) + if Doubles(w, t, a, id) then 1 else 0
  {
    if a.Create? {
      CreateCounts(w, t, a, id);
    } else if a.Destroy? {
      DestroyCounts(w, t, a, id);
    } else if a.Continue? && w.pcs[t].AtCall? {
      AskCounts(w, t, id);
    } else if a.Continue? && w.pcs[t].AtStore? {
      StoreKeepsClasses(w, t);
      SameMembers(w, Next(w, t, a), id);
    } else {
      MoveKeepsRefers(w, t, a);
      SameMembers(w, Next(w, t, a), id);
    }
  }

  lemma StepKeepsBook(w: World, t: ThreadId, a: Action)
    requires Book(w) && Classes(w) && Enabled(w, t, a)
    ensures var v := Next(w, t, a); v.fault != AssertFailed && (v.fault == Running ==> Book(v))
  {
    if a.Create? || a.Destroy? {
      LifetimeKeepsBook(w, t, a);
    } else if a.Continue? && Queries(w.pcs[t]) {
      QueryDoesNotFail(w, t);
      if Next(w, t, Continue).fault == Running { QueryKeepsBook(w, t); }
    } else if a.Continue? && (w.pcs[t].AtPostLock? || w.pcs[t].AtPreUnlock? || w.pcs[t].AtUnlock?) {
      CountKeepsBook(w, t);
    } else {
      ReachKeepsBook(w, t, a);
    }
  }

  lemma StepKeepsClasses(w: World, t: ThreadId, a: Action)
    requires Book(w) && Classes(w) && Counted(w) && Enabled(w, t, a) && Next(w, t, a).fault == Running
    ensures Classes(Next(w, t, a))
  {
    if a.Create? {
      CreateKeepsClasses(w, t, a);
    } else if a.Destroy? {
      DestroyKeepsClasses(w, t, a);
    } else if a.Continue? && w.pcs[t].AtCall? {
      AskKeepsClasses(w, t);
    } else if a.Continue? && w.pcs[t].AtStore? {
      StoreKeepsClasses(w, t);
    } else {
      MoveKeepsClasses(w, t, a);
    }
  }

  // Whatever the threads do, none of the debug assertions fails and the books stay right.
  lemma StepSound(w: World, t: ThreadId, a: Action)
    requires Sound(w) && Enabled(w, t, a)
    ensures Sound(Next(w, t, a))
  {
    StepKeepsBook(w, t, a);
    if Next(w, t, a).fault == Running {
      StepKeepsClasses(w, t, a);
      forall id | 0 <= id ensures Surplus(Next(w, t, a), id) >= 0 {
        StepCounts(w, t, a, id);
      }
    }
  }

  // ---- Runs ----

  datatype Move = Move(t: ThreadId, a: Action)

  ghost predicate IsRun(run: seq<World>, moves: seq<Move>) {
    && |run| == |moves| + 1
    && Init(run[0])
    && forall k {:trigger moves[k]} :: 0 <= k < |moves| ==>
         Enabled(run[k], moves[k].t, moves[k].a) && run[k + 1] == Next(run[k], moves[k].t, moves[k].a)
  }

  lemma InitSound(w: World)
    requires Init(w)
    ensures Sound(w)
    ensures forall id :: 0 <= id ==> Surplus(w, id) == 0
  {
    forall id | 0 <= id ensures Surplus(w, id) == 0 {
      forall k ensures k !in Members(w, id) {}
      assert Members(w, id) == {};
    }
  }

  lemma {:induction false} RunSound(run: seq<World>, moves: seq<Move>, k: nat)
    requires IsRun(run, moves) && k < |run|
    ensures Sound(run[k])
    decreases k
  {
    if k == 0 {
      InitSound(run[0]);
    } else {
      RunSound(run, moves, k - 1);
      StepSound(run[k - 1], moves[k - 1].t, moves[k - 1].a);
    }
  }

  // In no reachable state has an assertion of the debug mutex failed.
  lemma AssertionsNeverFail(run: seq<World>, moves: seq<Move>, k: nat)
    requires IsRun(run, moves) && k < |run|
    ensures run[k].fault != AssertFailed
  {
    RunSound(run, moves, k);
  }

  // The times in the first `k` steps that a thread registered the class `id` for a mutex
  // that already had it.
  ghost function Doubled(run: seq<World>, moves: seq<Move>, k: nat, id: int): nat
    requires k <= |moves| < |run|
  {
    if k == 0 then 0
    else Doubled(run, moves, k - 1, id) + if Doubles(run[k - 1], moves[k - 1].t, moves[k - 1].a, id) then 1 else 0
  }

  // In every reachable state the references to a class are its mutexes, counting those about to
  // be told, and one more for each time two threads raced to enter the class of the same mutex.
  lemma {:induction false} ReferencesExact(run: seq<World>, moves: seq<Move>, k: nat, id: int)
    requires IsRun(run, moves) && k < |run| && run[k].fault == Running && 0 <= id
    ensures RefCount(run[k].tables, id) == |Members(run[k], id)| + Doubled(run, moves, k, id)
    decreases k
  {
    if k == 0 {
      InitSound(run[0]);
    } else {
      assert Enabled(run[k - 1], moves[k - 1].t, moves[k - 1].a);
      ReferencesExact(run, moves, k - 1, id);
      RunSound(run, moves, k - 1);
      StepCounts(run[k - 1], moves[k - 1].t, moves[k - 1].a, id);
    }
  }

  // A class stays registered as long as a mutex refers to it, and after that exactly if threads
  // have ever raced to enter it.
  lemma RegisteredIff(run: seq<World>, moves: seq<Move>, k: nat, id: int)
    requires IsRun(run, moves) && k < |run| && run[k].fault == Running && 0 <= id
    ensures id in run[k].tables.names <==> Members(run[k], id) != {} || Doubled(run, moves, k, id) > 0
  {
    RunSound(run, moves, k);
    ReferencesExact(run, moves, k, id);
    assert Valid(run[k].tables);
  }

  ghost predicate Quiet(w: World, m: MutexId) {
    forall t :: t in w.pcs ==> !Mentions(w.pcs[t], m)
  }

  // In every reachable state a mutex no thread is working on shows exactly the hold count
  // and the owner of its pthread mutex, plain or recursive.
  lemma BookkeepingExact(run: seq<World>, moves: seq<Move>, k: nat, m: MutexId)
    requires IsRun(run, moves) && k < |run|
    requires run[k].fault == Running && m in run[k].mutexes && Quiet(run[k], m)
    ensures run[k].mutexes[m].nlock == run[k].mutexes[m].count
    ensures run[k].mutexes[m].lockedBy == run[k].mutexes[m].owner
  {
    RunSound(run, moves, k);
    QuietBook(run[k], m);
  }

  lemma QuietBook(w: World, m: MutexId)
    requires Book(w) && m in w.mutexes && Quiet(w, m)
    ensures w.mutexes[m].nlock == w.mutexes[m].count && w.mutexes[m].lockedBy == w.mutexes[m].owner
  {
    var x := w.mutexes[m];
    assert MutexBook(w, m, x);
    if Lags(w, m, x) {
      QuietAt(w, m, x.owner.value);
    }
  }

  lemma QuietAt(w: World, m: MutexId, t: ThreadId)
    requires Quiet(w, m) && t in w.pcs
    ensures !Mentions(w.pcs[t], m)
  {
  }
}
