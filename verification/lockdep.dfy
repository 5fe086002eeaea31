// The lock-order checker itself: the static tables and the calls that update them in place.
// Each call is one critical section of lockdep's own mutex.
module Lockdep {
  import opened Digraph
  import opened LockdepTables

  class Lockdep {
    var enabled: bool
    var freeIdsInited: bool
    var lockIds: map<string, int>
    var lockNames: map<int, string>
    var lockRefs: map<int, int>
    var freeIds: set<int>
    var held: map<ThreadId, set<int>>
    var follows: seq<set<int>>
    var currentMaxId: nat
    var lastFreedId: int

    ghost function Abs(): Tables
      reads this
    {
      Tables(enabled, lockIds, lockNames, lockRefs, freeIds, held, follows, currentMaxId, lastFreedId)
    }

    ghost predicate Consistent()
      reads this
    {
      Valid(Abs()) && freeIdsInited == enabled
    }

    constructor ()
      ensures Consistent() && Abs() == StaticTables()
    {
      enabled, freeIdsInited := false, false;
      lockIds, lockNames, lockRefs := map[], map[], map[];
      freeIds, held := {}, map[];
      follows := seq(NR_LOCKS, _ => {});
      currentMaxId, lastFreedId := 0, -1;
    }

    method GlobalInit()
      requires Consistent()
      modifies this
      ensures Consistent() && enabled
      ensures Abs() == if old(enabled) then old(Abs()) else Started()
    {
      if !enabled {
        enabled := true;
        if !freeIdsInited {
          freeIdsInited := true;
          freeIds := AllIds();
        }
        assert Abs() == Started();
      }
    }

    // `id` is -1 when every id is in use.
    method GetFreeId() returns (id: int)
      requires freeIds <= AllIds()
      requires lastFreedId >= -1
      modifies this`freeIds, this`lastFreedId
      ensures id == NextId(old(Abs()))
      ensures freeIds == old(freeIds) - {id}
      ensures lastFreedId == if id == old(lastFreedId) then -1 else old(lastFreedId)
    {
      if lastFreedId >= 0 && lastFreedId in freeIds {
        id := lastFreedId;
        lastFreedId := -1;
        freeIds := freeIds - {id};
        return;
      }
      for i := 0 to MAX_LOCKS
        invariant freeIds == old(freeIds) && lastFreedId == old(lastFreedId)
        invariant forall x :: x in freeIds ==> i <= x
      {
        if i in freeIds {
          freeIds := freeIds - {i};
          assert IsLeast(NextId(old(Abs())), old(freeIds));
          return i;
        }
      }
      assert freeIds == {} by {
        forall x ensures x !in freeIds {
          assert x in freeIds ==> x in AllIds();
        }
      }
      return -1;
    }

    // The body of lockdep_register, also entered by the two calls that may get an id of -1.
    method RegisterClass(name: string) returns (aborted: bool, id: int)
      requires Consistent()
      modifies this
      ensures aborted == Register(old(Abs()), name).Abort?
      ensures !aborted ==> Consistent() && Done(Abs(), id) == Register(old(Abs()), name)
    {
      RegisterKeeps(Abs(), name);
      ghost var inited := freeIdsInited;
      aborted, id := UpdateRegistry(name);
      assert freeIdsInited == inited;
    }

    method UpdateRegistry(name: string) returns (aborted: bool, id: int)
      requires enabled ==> freeIds <= AllIds() && lastFreedId >= -1 && currentMaxId < |follows|
      modifies this`lockIds, this`lockNames, this`lockRefs
      modifies this`freeIds, this`follows, this`currentMaxId, this`lastFreedId
      ensures aborted == Register(old(Abs()), name).Abort?
      ensures !aborted ==> Done(Abs(), id) == Register(old(Abs()), name)
    {
      aborted, id := false, -1;
      if !enabled {
        return;
      }
      if name in lockIds {
        id := lockIds[name];
      } else {
        id := GetFreeId();
        if id < 0 {
          return true, id;
        }
        EnterId(name, id);
      }
      lockRefs := lockRefs[id := (if id in lockRefs then lockRefs[id] else 0) + 1];
    }

    method EnterId(name: string, id: nat)
      requires currentMaxId < |follows|
      modifies this`currentMaxId, this`follows, this`lockIds, this`lockNames
      ensures lockIds == old(lockIds)[name := id] && lockNames == old(lockNames)[id := name]
      ensures currentMaxId == if old(currentMaxId) <= id then id + 1 else old(currentMaxId)
      ensures follows ==
              if old(currentMaxId) <= id && id + 1 == |old(follows)| then old(follows) + [{}] else old(follows)
    {
      if currentMaxId <= id {
        currentMaxId := id + 1;
        if currentMaxId == |follows| {
          follows := follows + [{}];
        }
      }
      lockIds := lockIds[name := id];
      lockNames := lockNames[id := name];
    }

    method UnregisterClass(id: int)
      requires Consistent()
      requires id == -1 || id in lockNames
      modifies this
      ensures Consistent() && Abs() == Unregister(old(Abs()), id)
    {
      UnregisterValid(Abs(), id);
      ghost var inited := freeIdsInited;
      if id >= 0 {
        assert id in AllIds();
        DropReference(id);
      }
      assert freeIdsInited == inited;
    }

    method DropReference(id: int)
      requires id in lockNames && id in lockRefs
      requires Below(follows, currentMaxId) && currentMaxId < |follows| && 0 <= id < |follows|
      modifies this`lockIds, this`lockNames, this`lockRefs, this`freeIds, this`follows, this`lastFreedId
      ensures Abs() == Unregister(old(Abs()), id)
    {
      var name := lockNames[id];
      ghost var refs := lockRefs;
      lockRefs := lockRefs[id := lockRefs[id] - 1];
      if lockRefs[id] == 0 {
        ClearDependencies(id);
        lockIds := lockIds - {name};
        lockNames := lockNames - {id};
        lockRefs := lockRefs - {id};
        freeIds := freeIds + {id};
        lastFreedId := id;
        assert lockRefs == refs - {id};
      }
    }

    method ClearDependencies(id: int)
      requires Below(follows, currentMaxId) && currentMaxId < |follows| && 0 <= id < |follows|
      modifies this`follows
      ensures follows == Isolate(old(follows), id)
    {
      ghost var g := follows;
      follows := follows[id := {}];
      for i := 0 to currentMaxId
        invariant |follows| == |g|
        invariant forall k :: 0 <= k < |g| ==>
                    follows[k] == if k == id then {} else if k < i then g[k] - {id} else g[k]
      {
        follows := follows[i := follows[i] - {id}];
      }
      forall k | 0 <= k < |g| ensures follows[k] == Isolate(g, id)[k] {
        if k >= currentMaxId && id in g[k] {
          assert Edge(g, k, id);
        }
      }
      assert follows == Isolate(g, id);
    }

    // Is there a path from `a` to `b`? The recursion ends because what it can reach
    // shrinks along every edge of an acyclic graph.
    method DoesFollow(a: int, b: int) returns (r: bool)
      requires Acyclic(follows) && Below(follows, currentMaxId)
      requires 0 <= a < |follows| && currentMaxId < |follows|
      ensures r <==> Path(follows, a, b)
      decreases Reach(follows, currentMaxId, a)
    {
      if b in follows[a] {
        EdgeIsPath(follows, a, b);
        return true;
      }
      for i := 0 to currentMaxId
        invariant forall k :: 0 <= k < i && k in follows[a] ==> !Path(follows, k, b)
      {
        if i in follows[a] {
          assert Edge(follows, a, i);
          ReachShrinks(follows, currentMaxId, a, i);
          EdgeIsPath(follows, a, i);
          var deeper := DoesFollow(i, b);
          if deeper {
            PathTransitive(follows, a, i, b);
            return true;
          }
        }
      }
      r := false;
      if Path(follows, a, b) {
        var i := FirstStep(follows, a, b);
      }
    }

    // The in-loop cycle check of lockdep_will_lock. Each new edge is inserted before the next
    // held class is checked, in whatever order the held classes come; the verdict is still
    // the one the graph on entry gives.
    method AddDependencies(t: ThreadId, id: int, recursive: bool) returns (aborted: bool)
      requires Acyclic(follows) && Below(follows, currentMaxId) && currentMaxId < |follows|
      requires 0 <= id < currentMaxId
      requires forall h :: h in HeldBy(Abs(), t) ==> 0 <= h < currentMaxId
      modifies this`follows
      ensures aborted <==> Conflict(old(follows), HeldBy(old(Abs()), t), id, recursive)
      ensures !aborted ==> follows == AddEdges(old(follows), HeldBy(old(Abs()), t) - {id}, id)
    {
      var mine := if t in held then held[t] else {};
      var todo := mine;
      ghost var g := follows;
      while todo != {}
        invariant todo <= mine && mine == HeldBy(old(Abs()), t)
        invariant follows == AddEdges(g, mine - todo - {id}, id)
        invariant !Conflict(g, mine - todo, id, recursive)
        decreases todo
      {
        assert (forall x :: x !in todo) ==> todo == {};
        var h :| h in todo;
        ghost var done := mine - todo;
        assert mine - (todo - {h}) == done + {h};
        if h == id {
          if !recursive {
            assert Conflict(g, mine, id, recursive);
            return true;
          }
          assert done + {h} - {id} == done - {id};
        } else {
          PathsFromTargetUnchanged(g, done - {id}, id, h);
          if id !in follows[h] {
            AddEdgesAcyclic(g, done - {id}, id);
            var cyclic := DoesFollow(id, h);
            if cyclic {
              assert Conflict(g, mine, id, recursive);
              return true;
            }
            follows := follows[h := follows[h] + {id}];
          } else {
            assert Edge(g, h, id);
            EdgeIsPath(g, h, id);
            if Path(g, id, h) { PathTransitive(g, id, h, id); }
          }
          AddEdgesOneMore(g, done - {id}, h, id);
          assert done + {h} - {id} == done - {id} + {h};
        }
        todo := todo - {h};
      }
      aborted := false;
      assert mine - todo == mine;
    }

    // The class of a call that may come with an id of -1.
    method ResolveClass(name: string, id: int) returns (aborted: bool, r: int)
      requires Consistent() && enabled && KnownId(Abs(), id)
      modifies this
      ensures aborted == ResolveId(old(Abs()), name, id).Abort?
      ensures !aborted ==> Consistent() && enabled && Done(Abs(), r) == ResolveId(old(Abs()), name, id)
      ensures !aborted ==> KnownId(Abs(), r) && r >= 0
    {
      aborted, r := false, id;
      if r < 0 {
        RegisterKeeps(Abs(), name);
        aborted, r := RegisterClass(name);
      }
    }

    // A thread is about to wait for class `id`.
    method WillLockClass(t: ThreadId, name: string, id: int, recursive: bool) returns (aborted: bool, r: int)
      requires Consistent() && KnownId(Abs(), id)
      modifies this
      ensures aborted == WillLock(old(Abs()), t, name, id, recursive).Abort?
      ensures !aborted ==> Consistent() && Done(Abs(), r) == WillLock(old(Abs()), t, name, id, recursive)
    {
      r := id;
      if !enabled {
        return false, r;
      }
      WillLockKeeps(Abs(), t, name, id, recursive);
      aborted, r := ResolveClass(name, r);
      if aborted {
        return;
      }
      aborted := AddDependencies(t, r, recursive);
      if !aborted {
        held := held[t := if t in held then held[t] else {}];
        assert Done(Abs(), r) == WillLock(old(Abs()), t, name, id, recursive);
      }
    }

    method LockedClass(t: ThreadId, name: string, id: int) returns (aborted: bool, r: int)
      requires Consistent() && KnownId(Abs(), id)
      modifies this
      ensures aborted == Locked(old(Abs()), t, name, id).Abort?
      ensures !aborted ==> Consistent() && Done(Abs(), r) == Locked(old(Abs()), t, name, id)
    {
      r := id;
      if !enabled {
        return false, r;
      }
      LockedKeeps(Abs(), t, name, id);
      aborted, r := ResolveClass(name, r);
      if aborted {
        return;
      }
      held := held[t := (if t in held then held[t] else {}) + {r}];
      aborted := false;
      assert Done(Abs(), r) == Locked(old(Abs()), t, name, id);
    }

    method WillUnlockClass(t: ThreadId, id: int) returns (r: int)
      requires Consistent() && id >= -1
      modifies this`held
      ensures Consistent() && Abs() == WillUnlock(old(Abs()), t, id) && r == id
    {
      r := id;
      WillUnlockKeeps(Abs(), t, id);
      if id < 0 || !enabled {
        return;
      }
      held := held[t := (if t in held then held[t] else {}) - {id}];
      assert Abs() == WillUnlock(old(Abs()), t, id);
    }
  }
}
