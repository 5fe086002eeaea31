// lockdep's global tables as a value, each call as a function on them, and what every
// run of those calls keeps.
module LockdepTables {
  import opened Digraph

  type ThreadId = int

  const MAX_LOCKS: nat := 131072
  const NR_LOCKS: nat := 4096

  // A bitset is the set of its true bits. In `free`, a member is an id not in use.
  datatype Tables = Tables(
    enabled: bool,
    ids: map<string, int>,
    names: map<int, string>,
    refs: map<int, int>,
    free: set<int>,
    held: map<ThreadId, set<int>>,
    follows: Graph,
    maxId: nat,
    lastFreed: int)

  // `Abort` is the process dying inside the call.
  datatype Outcome = Abort | Done(tables: Tables, id: int)

  ghost function HeldBy(s: Tables, t: ThreadId): set<int> {
    if t in s.held then s.held[t] else {}
  }

  ghost function RefCount(s: Tables, id: int): int {
    if id in s.refs then s.refs[id] else 0
  }

  // The tables as static storage leaves them.
  ghost function StaticTables(): Tables {
    Tables(false, map[], map[], map[], {}, map[], seq(NR_LOCKS, _ => {}), 0, -1)
  }

  predicate IsId(i: int) {
    0 <= i < MAX_LOCKS
  }

  function AllIds(): set<int> {
    set i | 0 <= i < MAX_LOCKS && IsId(i)
  }

  ghost predicate IsLeast(m: int, s: set<int>) {
    m in s && forall x :: x in s ==> m <= x
  }

  lemma {:induction false} LeastExists(s: set<int>)
    requires s != {}
    ensures exists m :: IsLeast(m, s)
    decreases s
  {
    assert (forall x :: x !in s) ==> s == {};
    var m :| m in s;
    if s == {m} {
      assert IsLeast(m, s);
    } else {
      var rest := s - {m};
      assert s == rest + {m};
      LeastExists(rest);
      var k :| IsLeast(k, rest);
      var least := if k < m then k else m;
      assert least in s;
      forall x | x in s ensures least <= x {
        assert x == m || x in rest;
      }
      assert IsLeast(least, s);
    }
  }

  // The id a new class gets: the last one freed if it is still free, else the least free one.
  ghost predicate IsNextId(s: Tables, id: int) {
    if 0 <= s.lastFreed && s.lastFreed in s.free then id == s.lastFreed
    else if s.free == {} then id == -1
    else IsLeast(id, s.free)
  }

  ghost function NextId(s: Tables): (id: int)
    ensures IsNextId(s, id)
  {
    if 0 <= s.lastFreed && s.lastFreed in s.free then s.lastFreed
    else if s.free == {} then -1
    else
      assert exists id :: IsLeast(id, s.free) by { LeastExists(s.free); }
      var id :| IsLeast(id, s.free);
      id
  }

  // The tables with the class `name` entered under the unused id `id`.
  ghost function Entered(s: Tables, name: string, id: nat): Tables {
    var grown := if s.maxId <= id then id + 1 else s.maxId;
    s.(ids := s.ids[name := id],
       names := s.names[id := name],
       refs := s.refs[id := RefCount(s, id) + 1],
       free := s.free - {id},
       lastFreed := if s.lastFreed == id then -1 else s.lastFreed,
       maxId := grown,
       follows := if s.maxId <= id && grown == |s.follows| then s.follows + [{}] else s.follows)
  }

  ghost function Register(s: Tables, name: string): Outcome {
    if !s.enabled then Done(s, -1)
    else if name in s.ids then
      var id := s.ids[name];
      Done(s.(refs := s.refs[id := RefCount(s, id) + 1]), id)
    else
      var id := NextId(s);
      if id < 0 then Abort else Done(Entered(s, name, id), id)
  }

  ghost function Dropped(s: Tables, id: int): Tables
    requires id in s.names
  {
    s.(ids := s.ids - {s.names[id]},
       names := s.names - {id},
       refs := s.refs - {id},
       free := s.free + {id},
       lastFreed := id,
       follows := Isolate(s.follows, id))
  }

  // The graph without any edge from or to `id`.
  ghost function Isolate(g: Graph, id: int): (r: Graph)
    ensures |r| == |g|
    ensures forall x, y :: Edge(r, x, y) <==> Edge(g, x, y) && x != id && y != id
  {
    seq(|g|, a requires 0 <= a < |g| => if a == id then {} else g[a] - {id})
  }

  ghost function Unregister(s: Tables, id: int): Tables
    requires id < 0 || id in s.names
  {
    if id < 0 then s
    else if RefCount(s, id) == 1 then Dropped(s, id)
    else s.(refs := s.refs[id := RefCount(s, id) - 1])
  }

  // Taking class `id` while holding `held` closes a cycle, or takes a held class again.
  ghost predicate Conflict(g: Graph, held: set<int>, id: int, recursive: bool) {
    (id in held && !recursive) || exists h :: h in held && h != id && Path(g, id, h)
  }

  ghost function ResolveId(s: Tables, name: string, id: int): Outcome {
    if id < 0 then Register(s, name) else Done(s, id)
  }

  ghost function WillLock(s: Tables, t: ThreadId, name: string, id: int, recursive: bool): Outcome {
    if !s.enabled then Done(s, id)
    else match ResolveId(s, name, id)
      case Abort => Abort
      case Done(r, c) =>
        var held := HeldBy(r, t);
        if Conflict(r.follows, held, c, recursive) then Abort
        else Done(r.(held := r.held[t := held], follows := AddEdges(r.follows, held - {c}, c)), c)
  }

  ghost function Locked(s: Tables, t: ThreadId, name: string, id: int): Outcome {
    if !s.enabled then Done(s, id)
    else match ResolveId(s, name, id)
      case Abort => Abort
      case Done(r, c) => Done(r.(held := r.held[t := HeldBy(r, t) + {c}]), c)
  }

  ghost function WillUnlock(s: Tables, t: ThreadId, id: int): Tables {
    if id < 0 || !s.enabled then s
    else s.(held := s.held[t := HeldBy(s, t) - {id}])
  }

  // ---- What every call keeps, whatever ids are held ----

  // Names and ids in use are inverse to each other, the ids in use are exactly the ones
  // not free, and every one of them has a positive reference count.
  ghost predicate Registry(s: Tables) {
    && (forall n :: n in s.ids ==> s.ids[n] in s.names && s.names[s.ids[n]] == n)
    && (forall i :: i in s.names ==> s.names[i] in s.ids && s.ids[s.names[i]] == i)
    && s.names.Keys !! s.free && s.names.Keys + s.free == AllIds()
    && s.refs.Keys == s.names.Keys
    && (forall i :: i in s.refs ==> s.refs[i] >= 1)
  }

  // Ids at or above `maxId` have never been handed out, and the matrix has a row for
  // every id that has, with one to spare.
  ghost predicate Bounds(s: Tables) {
    && s.maxId <= MAX_LOCKS && s.maxId < |s.follows|
    && (forall i :: s.maxId <= i < MAX_LOCKS ==> i in s.free)
    && (s.lastFreed == -1 || (0 <= s.lastFreed < s.maxId && s.lastFreed in s.free))
    && Below(s.follows, s.maxId)
    && (forall t, h :: h in HeldBy(s, t) ==> 0 <= h < s.maxId)
  }

  ghost predicate Valid(s: Tables) {
    if s.enabled then Registry(s) && Bounds(s) && Acyclic(s.follows) else s == StaticTables()
  }

  // An id a caller may pass: none yet, or one that has been handed out.
  ghost predicate KnownId(s: Tables, id: int) {
    id == -1 || 0 <= id < s.maxId
  }

  // An id not in use has an empty row and column and nobody holds it.
  ghost predicate Isolated(s: Tables) {
    && (forall a, b :: Edge(s.follows, a, b) ==> a in s.names && b in s.names)
    && (forall t, h :: h in HeldBy(s, t) ==> h in s.names)
  }

  lemma EmptyGraphAcyclic(g: Graph)
    requires forall a, b :: !Edge(g, a, b)
    ensures Acyclic(g)
  {
    forall a ensures !Path(g, a, a) {
      if Path(g, a, a) { var i := FirstStep(g, a, a); }
    }
  }

  // lockdep_global_init on the static tables: every id is free.
  ghost function Started(): (s: Tables)
    ensures Valid(s) && s.enabled && Isolated(s) && s.names == map[] && s.held == map[]
  {
    var s := StaticTables().(enabled := true, free := AllIds());
    EmptyGraphAcyclic(s.follows);
    s
  }

  // Ids grow one at a time: the least free id never lies above `maxId`.
  lemma NextIdIsFree(s: Tables)
    requires Valid(s) && s.enabled
    ensures NextId(s) == -1 <==> s.free == {}
    ensures NextId(s) != -1 ==> NextId(s) in s.free && 0 <= NextId(s) <= s.maxId && NextId(s) < MAX_LOCKS
  {
    var id := NextId(s);
    if id != -1 && id != s.lastFreed && s.maxId < MAX_LOCKS {
      assert s.maxId in s.free;
    }
  }

  lemma EnteredValid(s: Tables, name: string, id: int)
    requires Valid(s) && s.enabled && name !in s.ids && id in s.free && 0 <= id <= s.maxId
    ensures Valid(Entered(s, name, id))
    ensures Isolated(s) ==> Isolated(Entered(s, name, id))
    ensures forall a, b :: Edge(Entered(s, name, id).follows, a, b) <==> Edge(s.follows, a, b)
  {
    var r := Entered(s, name, id);
    assert id in AllIds();
    forall a, b ensures Edge(r.follows, a, b) <==> Edge(s.follows, a, b) {}
    AcyclicAntitone(r.follows, s.follows);
    forall t, h | h in HeldBy(r, t) ensures 0 <= h < r.maxId {
      assert h in HeldBy(s, t);
    }
    if Isolated(s) { EnteredIsolated(s, name, id); }
  }

  lemma EnteredIsolated(s: Tables, name: string, id: nat)
    requires Isolated(s)
    requires forall a, b :: Edge(Entered(s, name, id).follows, a, b) <==> Edge(s.follows, a, b)
    ensures Isolated(Entered(s, name, id))
  {
    var r := Entered(s, name, id);
    forall t, h | h in HeldBy(r, t) ensures h in r.names {
      assert h in HeldBy(s, t);
    }
  }

  // A registered class keeps its id, the graph keeps its edges and the count grows by one.
  lemma RegisterKeeps(s: Tables, name: string)
    requires Valid(s)
    ensures Register(s, name).Abort? <==> s.enabled && name !in s.ids && s.free == {}
    ensures var o := Register(s, name); o.Done? ==>
      && Valid(o.tables) && (Isolated(s) ==> Isolated(o.tables))
      && o.tables.enabled == s.enabled && o.tables.held == s.held && s.maxId <= o.tables.maxId
      && (forall a, b :: Edge(o.tables.follows, a, b) <==> Edge(s.follows, a, b))
    ensures var o := Register(s, name); o.Done? && s.enabled ==>
      && o.tables.ids == s.ids[name := o.id] && o.tables.names == s.names[o.id := name]
      && (name !in s.ids ==> o.id in s.free)
      && 0 <= o.id < o.tables.maxId
      && o.tables.refs == s.refs[o.id := RefCount(s, o.id) + 1]
  {
    if s.enabled {
      if name in s.ids {
        var o := Register(s, name);
        assert o.id in s.names && o.id in AllIds();
        assert o.tables.follows == s.follows;
        forall t, h | h in HeldBy(o.tables, t) ensures 0 <= h < o.tables.maxId && h in HeldBy(s, t) {
          assert h in HeldBy(s, t);
        }
      } else {
        NextIdIsFree(s);
        if s.free != {} { EnteredValid(s, name, NextId(s)); }
      }
    }
  }

  lemma UnregisterValid(s: Tables, id: int)
    requires Valid(s) && (id == -1 || id in s.names)
    ensures Valid(Unregister(s, id))
  {
    if id >= 0 {
      var r := Unregister(s, id);
      assert id in AllIds();
      AcyclicAntitone(r.follows, s.follows);
      forall t, h | h in HeldBy(r, t) ensures 0 <= h < r.maxId {
        assert h in HeldBy(s, t);
      }
    }
  }

  // The id of a class that loses its last reference goes to the next new class, however many
  // smaller ids are free; otherwise, a new class gets the least free one.
  lemma FreedIdIsReused(s: Tables, id: int, name: string)
    requires Valid(s) && s.enabled && id in s.names && RefCount(s, id) == 1
    requires name !in s.ids || s.ids[name] == id
    ensures var o := Register(Unregister(s, id), name);
      && o.Done? && o.id == id && o.tables.lastFreed == -1
      && forall n :: n !in o.tables.ids && o.tables.free != {} ==>
           var p := Register(o.tables, n); p.Done? && IsLeast(p.id, o.tables.free)
  {
    UnregisterValid(s, id);
    assert id in AllIds();
    var r := Unregister(s, id);
    assert name !in r.ids;
    RegisterKeeps(r, name);
  }

  // While lockdep is off every call hands back the id it was given, or none, and touches nothing.
  lemma DisabledDoesNothing(s: Tables, t: ThreadId, name: string, id: int, recursive: bool)
    requires !s.enabled
    ensures Register(s, name) == Done(s, -1)
    ensures WillLock(s, t, name, id, recursive) == Done(s, id)
    ensures Locked(s, t, name, id) == Done(s, id)
    ensures WillUnlock(s, t, id) == s
  {
  }

  // Dropping a class leaves its id isolated if and only if no thread still holds it.
  lemma UnregisterIsolatesIff(s: Tables, id: int)
    requires Valid(s) && Isolated(s) && id in s.names
    ensures Isolated(Unregister(s, id)) <==> !(RefCount(s, id) == 1 && exists t :: id in HeldBy(s, t))
  {
    var r := Unregister(s, id);
    forall t ensures HeldBy(r, t) == HeldBy(s, t) {}
    if RefCount(s, id) == 1 {
      if t :| id in HeldBy(s, t) {
        assert id in HeldBy(r, t) && id !in r.names;
      } else {
        forall t, h | h in HeldBy(r, t) ensures h in r.names {
          assert h in HeldBy(s, t);
        }
      }
    }
  }

  lemma WillLockKeeps(s: Tables, t: ThreadId, name: string, id: int, recursive: bool)
    requires Valid(s) && KnownId(s, id)
    ensures var o := WillLock(s, t, name, id, recursive); o.Done? ==>
      Valid(o.tables) && (Isolated(s) && (id == -1 || id in s.names) ==> Isolated(o.tables))
  {
    RegisterKeeps(s, name);
    var o := WillLock(s, t, name, id, recursive);
    if s.enabled && o.Done? {
      var r := ResolveId(s, name, id).tables;
      var held := HeldBy(r, t);
      AddEdgesAcyclic(r.follows, held - {o.id}, o.id);
      forall u ensures HeldBy(o.tables, u) == HeldBy(r, u) {}
      forall u, h | h in HeldBy(o.tables, u) ensures 0 <= h < r.maxId {
        assert h in HeldBy(r, u);
      }
      forall a, b | Edge(o.tables.follows, a, b) ensures 0 <= a < r.maxId && 0 <= b < r.maxId {
        assert a in held ==> a in HeldBy(r, t);
      }
      if Isolated(s) && (id == -1 || id in s.names) {
        forall u, h | h in HeldBy(o.tables, u) ensures h in r.names {
          assert h in HeldBy(r, u);
        }
      }
    }
  }

  // The call aborts exactly when the edges it is to add would close a cycle, or the class is
  // held and not recursive; otherwise the graph keeps its edges, gains one from every other held class
  // and nothing else, and stays acyclic.
  lemma WillLockExact(s: Tables, t: ThreadId, name: string, id: int, recursive: bool)
    requires Valid(s) && s.enabled && KnownId(s, id)
    ensures var q, o := ResolveId(s, name, id), WillLock(s, t, name, id, recursive);
      if q.Abort? then o.Abort?
      else
        var held, g := HeldBy(s, t), q.tables.follows;
        && (o.Abort? <==> (q.id in held && !recursive) || !Acyclic(AddEdges(g, held - {q.id}, q.id)))
        && (o.Done? ==>
              && o.id == q.id && Acyclic(o.tables.follows)
              && forall a, b :: Edge(o.tables.follows, a, b) <==>
                   Edge(s.follows, a, b) || (a in held && a != q.id && b == q.id))
  {
    RegisterKeeps(s, name);
    WillLockKeeps(s, t, name, id, recursive);
    var q := ResolveId(s, name, id);
    if q.Done? {
      assert HeldBy(q.tables, t) == HeldBy(s, t);
      forall h | h in HeldBy(s, t) ensures 0 <= h < |q.tables.follows| {
        assert h in HeldBy(q.tables, t);
      }
      AddEdgesAcyclicIff(q.tables.follows, HeldBy(s, t) - {q.id}, q.id);
    }
  }

  lemma LockedKeeps(s: Tables, t: ThreadId, name: string, id: int)
    requires Valid(s) && KnownId(s, id)
    ensures var o := Locked(s, t, name, id); o.Done? ==>
      Valid(o.tables) && (Isolated(s) && (id == -1 || id in s.names) ==> Isolated(o.tables))
  {
    RegisterKeeps(s, name);
    var o := Locked(s, t, name, id);
    if s.enabled && o.Done? {
      var r := ResolveId(s, name, id).tables;
      assert o.tables == r.(held := r.held[t := HeldBy(r, t) + {o.id}]);
      HoldKeeps(r, t, o.id);
    }
  }

  lemma HoldKeeps(s: Tables, t: ThreadId, id: int)
    requires Valid(s) && s.enabled && 0 <= id < s.maxId
    ensures var r := s.(held := s.held[t := HeldBy(s, t) + {id}]);
      Valid(r) && (Isolated(s) && id in s.names ==> Isolated(r))
  {
    var r := s.(held := s.held[t := HeldBy(s, t) + {id}]);
    forall u, h | h in HeldBy(r, u) ensures h in HeldBy(s, u) || h == id {}
  }

  lemma WillUnlockKeeps(s: Tables, t: ThreadId, id: int)
    requires Valid(s)
    ensures Valid(WillUnlock(s, t, id))
    ensures Isolated(s) ==> Isolated(WillUnlock(s, t, id))
  {
    var r := WillUnlock(s, t, id);
    forall u, h | h in HeldBy(r, u) ensures h in HeldBy(s, u) {}
  }

  // ---- Runs of calls ----

  datatype Call =
    | CallRegister(name: string)
    | CallUnregister(id: int)
    | CallWillLock(t: ThreadId, name: string, id: int, recursive: bool)
    | CallLocked(t: ThreadId, name: string, id: int)
    | CallWillUnlock(t: ThreadId, id: int)

  // What the callee asserts or needs of the ids it is given.
  ghost predicate Allowed(s: Tables, c: Call) {
    match c
    case CallRegister(_) => true
    case CallUnregister(id) => id == -1 || id in s.names
    case CallWillLock(_, _, id, _) => KnownId(s, id)
    case CallLocked(_, _, id) => KnownId(s, id)
    case CallWillUnlock(_, id) => id >= -1
  }

  ghost function Apply(s: Tables, c: Call): Outcome
    requires Allowed(s, c)
  {
    match c
    case CallRegister(name) => Register(s, name)
    case CallUnregister(id) => Done(Unregister(s, id), id)
    case CallWillLock(t, name, id, recursive) => WillLock(s, t, name, id, recursive)
    case CallLocked(t, name, id) => Locked(s, t, name, id)
    case CallWillUnlock(t, id) => Done(WillUnlock(s, t, id), id)
  }

  // The calls that enter a reference: register itself, and the two that take an id of -1.
  ghost predicate Registers(c: Call) {
    || c.CallRegister?
    || (c.CallWillLock? && c.id < 0)
    || (c.CallLocked? && c.id < 0)
  }

  // `run` is a history from the started tables: `states[k+1]` is what call `k` left, `ids[k]`
  // what it returned.
  ghost predicate IsRun(states: seq<Tables>, calls: seq<Call>, ids: seq<int>) {
    && |states| == |calls| + 1 == |ids| + 1
    && states[0] == Started()
    && forall k {:trigger calls[k]} :: 0 <= k < |calls| ==>
         && Allowed(states[k], calls[k])
         && Apply(states[k], calls[k]) == Done(states[k + 1], ids[k])
  }

  // Registrations of `id` not yet given back after the calls so far.
  ghost function Outstanding(calls: seq<Call>, ids: seq<int>, id: int): int
    requires |calls| == |ids|
    decreases |calls|
  {
    if calls == [] then 0
    else
      var n := |calls| - 1;
      Outstanding(calls[..n], ids[..n], id)
      + (if Registers(calls[n]) && ids[n] == id then 1 else 0)
      - (if calls[n] == CallUnregister(id) then 1 else 0)
  }

  lemma ApplyKeeps(s: Tables, c: Call)
    requires Valid(s) && s.enabled && Allowed(s, c)
    ensures var o := Apply(s, c); o.Done? ==> Valid(o.tables) && o.tables.enabled
  {
    match c
    case CallRegister(name) => RegisterKeeps(s, name);
    case CallUnregister(id) => UnregisterValid(s, id);
    case CallWillLock(t, name, id, recursive) => RegisterKeeps(s, name); WillLockKeeps(s, t, name, id, recursive);
    case CallLocked(t, name, id) => RegisterKeeps(s, name); LockedKeeps(s, t, name, id);
    case CallWillUnlock(t, id) => WillUnlockKeeps(s, t, id);
  }

  lemma ResolveCounts(s: Tables, name: string, i: int, id: int)
    requires Valid(s) && s.enabled
    ensures var o := ResolveId(s, name, i); o.Done? ==>
      && o.tables.enabled
      && RefCount(o.tables, id) == RefCount(s, id) + if i < 0 && o.id == id then 1 else 0
  {
    RegisterKeeps(s, name);
  }

  lemma ApplyCounts(s: Tables, c: Call, id: int)
    requires Valid(s) && s.enabled && Allowed(s, c) && 0 <= id
    ensures var o := Apply(s, c); o.Done? ==>
      RefCount(o.tables, id) == RefCount(s, id)
        + (if Registers(c) && o.id == id then 1 else 0) - (if c == CallUnregister(id) then 1 else 0)
  {
    match c
    case CallRegister(name) => ResolveCounts(s, name, -1, id);
    case CallUnregister(i) =>
    case CallWillLock(t, name, i, recursive) => ResolveCounts(s, name, i, id);
    case CallLocked(t, name, i) => ResolveCounts(s, name, i, id);
    case CallWillUnlock(t, i) =>
  }

  // After any run that has not aborted the tables are consistent and every class's
  // reference count is its number of outstanding registrations.
  lemma {:induction false} RunsKeepRegistry(states: seq<Tables>, calls: seq<Call>, ids: seq<int>)
    requires IsRun(states, calls, ids)
    ensures var s := states[|calls|];
      && s.enabled && Valid(s)
      && forall id :: 0 <= id ==> RefCount(s, id) == Outstanding(calls, ids, id)
    decreases |calls|
  {
    if calls == [] {
    } else {
      var n := |calls| - 1;
      assert IsRun(states[..n + 1], calls[..n], ids[..n]);
      RunsKeepRegistry(states[..n + 1], calls[..n], ids[..n]);
      assert states[..n + 1][n] == states[n];
      ApplyKeeps(states[n], calls[n]);
      forall id | 0 <= id ensures RefCount(states[n + 1], id) == Outstanding(calls, ids, id) {
        ApplyCounts(states[n], calls[n], id);
      }
    }
  }

  // ---- Isolation over runs ----

  // A call that leaves ids not in use isolated: it takes no class from under a thread that
  // holds it, and is not given the id of a class that is gone.
  ghost predicate Gentle(s: Tables, c: Call) {
    match c
    case CallRegister(_) => true
    case CallUnregister(id) => id == -1 || RefCount(s, id) != 1 || forall t :: id !in HeldBy(s, t)
    case CallWillLock(t, _, id, _) => id == -1 || id in s.names || HeldBy(s, t) == {}
    case CallLocked(_, _, id) => id == -1 || id in s.names
    case CallWillUnlock(_, _) => true
  }

  lemma WillLockIsolatesIff(s: Tables, t: ThreadId, name: string, id: int, recursive: bool)
    requires Valid(s) && s.enabled && Isolated(s) && KnownId(s, id)
    ensures var o := WillLock(s, t, name, id, recursive);
      o.Done? ==> (Isolated(o.tables) <==> id == -1 || id in s.names || HeldBy(s, t) == {})
  {
    WillLockKeeps(s, t, name, id, recursive);
    var o := WillLock(s, t, name, id, recursive);
    if o.Done? && id != -1 && id !in s.names {
      forall u ensures HeldBy(o.tables, u) == HeldBy(s, u) {}
      if HeldBy(s, t) != {} {
        assert (forall h :: h !in HeldBy(s, t)) ==> HeldBy(s, t) == {};
        var h :| h in HeldBy(s, t);
        assert Edge(o.tables.follows, h, id);
      }
    }
  }

  lemma LockedIsolatesIff(s: Tables, t: ThreadId, name: string, id: int)
    requires Valid(s) && s.enabled && Isolated(s) && KnownId(s, id)
    ensures var o := Locked(s, t, name, id);
      o.Done? ==> (Isolated(o.tables) <==> id == -1 || id in s.names)
  {
    LockedKeeps(s, t, name, id);
    var o := Locked(s, t, name, id);
    if o.Done? && id != -1 {
      assert id in HeldBy(o.tables, t);
    }
  }

  lemma ApplyIsolatesIff(s: Tables, c: Call)
    requires Valid(s) && s.enabled && Isolated(s) && Allowed(s, c)
    ensures var o := Apply(s, c); o.Done? ==> (Isolated(o.tables) <==> Gentle(s, c))
  {
    match c
    case CallRegister(name) => RegisterKeeps(s, name);
    case CallUnregister(id) => if id >= 0 { UnregisterIsolatesIff(s, id); }
    case CallWillLock(t, name, id, recursive) => WillLockIsolatesIff(s, t, name, id, recursive);
    case CallLocked(t, name, id) => LockedIsolatesIff(s, t, name, id);
    case CallWillUnlock(t, id) => WillUnlockKeeps(s, t, id);
  }

  lemma StepIsolatesIff(states: seq<Tables>, calls: seq<Call>, ids: seq<int>, n: nat)
    requires IsRun(states, calls, ids) && n < |calls| && Isolated(states[n])
    ensures Isolated(states[n + 1]) <==> Gentle(states[n], calls[n])
  {
    assert IsRun(states[..n + 1], calls[..n], ids[..n]);
    RunsKeepRegistry(states[..n + 1], calls[..n], ids[..n]);
    assert states[..n + 1][n] == states[n];
    ApplyIsolatesIff(states[n], calls[n]);
  }

  // Over the first `n` calls of any run: in every state ids not in use have an empty row and
  // column and are held by nobody, so that reuse starts isolated, if and only if every call was gentle.
  lemma {:induction false} RunsIsolatedIff(states: seq<Tables>, calls: seq<Call>, ids: seq<int>, n: nat)
    requires IsRun(states, calls, ids) && n <= |calls|
    ensures (forall k :: 0 <= k <= n ==> Isolated(states[k]))
       <==> (forall k {:trigger calls[k]} :: 0 <= k < n ==> Gentle(states[k], calls[k]))
    decreases n
  {
    if n == 0 {
      assert states[0] == Started();
    } else {
      RunsIsolatedIff(states, calls, ids, n - 1);
      if Isolated(states[n - 1]) {
        StepIsolatesIff(states, calls, ids, n - 1);
      }
    }
  }

  // A run that is not gentle: thread 1 still holds a class when its last reference goes, and
  // when the next class gets the id, taking it counts as a recursive lock.
  lemma HeldClassUnregistered() returns (states: seq<Tables>, calls: seq<Call>, ids: seq<int>)
    ensures IsRun(states, calls, ids) && !Isolated(states[|calls|])
    ensures WillLock(states[|calls|], 1, "b", -1, false).Abort?
  {
    var s0 := Started();
    assert IsId(0) && 0 in s0.free;
    RegisterKeeps(s0, "a");
    var r := Register(s0, "a");
    var a := r.id;
    LockedKeeps(r.tables, 1, "a", a);
    var l := Locked(r.tables, 1, "a", a).tables;
    var u := Unregister(l, a);
    UnregisterValid(l, a);
    states, ids := [s0, r.tables, l, u], [a, a, a];
    calls := [CallRegister("a"), CallLocked(1, "a", a), CallUnregister(a)];
    assert a in HeldBy(u, 1);
    RegisterKeeps(u, "b");
    assert NextId(u) == a;
  }
}
