// Which threads can go on: every thread at work can, unless it is blocked on a mutex another one
// owns, and among tracked mutexes somebody always can.
module LockProgress {
  import opened CircularWait
  import opened LockdepTables
  import opened MutexSystem

  // In every reachable state a thread inside a call can take its next step, unless it is blocked and
  // another thread owns the mutex.
  lemma CanStepIff(run: seq<World>, moves: seq<Move>, k: nat, t: ThreadId)
    requires MutexSystem.IsRun(run, moves) && k < |run| && run[k].fault == Running
    requires t in run[k].pcs && run[k].pcs[t] != Idle
    ensures run[k].pcs[t].m in run[k].mutexes
    ensures var owner := run[k].mutexes[run[k].pcs[t].m].owner;
      Enabled(run[k], t, Continue) <==> !(run[k].pcs[t].AtBlocked? && owner.Some? && owner != Some(t))
  {
    RunSound(run, moves, k);
    assert ThreadBook(run[k], t, run[k].pcs[t]);
  }

  // `t` can build a mutex, which is then free, of the kind and the name asked for, and if lockdep
  // follows it in the class of the name registered.
  lemma CreateMakes(run: seq<World>, moves: seq<Move>, k: nat, t: ThreadId, a: Action)
    requires MutexSystem.IsRun(run, moves) && k < |run| && run[k].fault == Running
    requires t in run[k].pcs && run[k].pcs[t] == Idle && a.Create? && a.m !in run[k].mutexes
    ensures Enabled(run[k], t, a)
    ensures var v := Next(run[k], t, a);
      if v.fault == Aborted then a.lockdep && run[k].tables.free == {}
      else
        && v.fault == Running && v.pcs == run[k].pcs && a.m in v.mutexes
        && v.mutexes == run[k].mutexes[a.m := v.mutexes[a.m]]
        && var x := v.mutexes[a.m];
           && x.recursive == a.recursive && x.lockdep == a.lockdep && x.group == a.group && x.owner == None
           && if a.lockdep then x.id in v.tables.names && v.tables.names[x.id] == a.registered
              else x.id == -1 && v.tables == run[k].tables
  {
    RunSound(run, moves, k);
    RegisterKeeps(run[k].tables, a.registered);
  }

  // Blocked in lock on a tracked mutex that somebody owns.
  ghost predicate HeldUp(w: World, t: ThreadId) {
    Stuck(w, t) && StuckOn(w, t).owner.Some?
  }

  // Each thread of the chain waits for the next.
  ghost predicate WaitChain(w: World, chain: seq<ThreadId>) {
    && chain != []
    && (forall i :: 0 <= i < |chain| ==> chain[i] in w.pcs)
    && forall i :: 0 <= i < |chain| - 1 ==> WaitsFor(w, chain[i], chain[i + 1])
  }

  ghost predicate NoRepeats(chain: seq<ThreadId>) {
    forall i, j :: 0 <= i < j < |chain| ==> chain[i] != chain[j]
  }

  ghost function Among(chain: seq<ThreadId>): set<ThreadId> {
    set t | t in chain
  }

  // A chain that comes back to itself holds a cycle.
  lemma ComesBack(w: World, chain: seq<ThreadId>, t: ThreadId, i: nat)
    requires WaitChain(w, chain) && WaitsFor(w, chain[|chain| - 1], t) && i < |chain| && chain[i] == t
    ensures WaitCycle(w, chain[i..])
  {
    var cycle := chain[i..];
    forall j | 0 <= j < |cycle| - 1 ensures WaitsFor(w, cycle[j], cycle[j + 1]) {
      assert WaitsFor(w, chain[i + j], chain[i + j + 1]);
    }
  }

  lemma {:induction false} ChainEnds(w: World, chain: seq<ThreadId>) returns (full: seq<ThreadId>)
    requires Book(w) && (forall cycle :: !WaitCycle(w, cycle))
    requires WaitChain(w, chain) && NoRepeats(chain)
    ensures WaitChain(w, full) && chain <= full && !HeldUp(w, full[|full| - 1])
    decreases w.pcs.Keys - Among(chain)
  {
    var u := chain[|chain| - 1];
    if !HeldUp(w, u) {
      full := chain;
    } else {
      var m := w.pcs[u].m;
      assert MutexBook(w, m, w.mutexes[m]);
      var t := w.mutexes[m].owner.value;
      assert WaitsFor(w, u, t);
      if t in chain {
        var i :| 0 <= i < |chain| && chain[i] == t;
        ComesBack(w, chain, t, i);
        assert false;
      } else {
        var more := chain + [t];
        assert t in Among(more) && t !in Among(chain);
        full := ChainEnds(w, more);
      }
    }
  }

  // A thread that waits does so for one that waits for one, and so on, that is not held up: it is
  // outside of all calls, can take its next step, or is blocked on a mutex lockdep does not follow.
  lemma SomebodyGoesOn(run: seq<World>, moves: seq<Move>, k: nat, u: ThreadId) returns (chain: seq<ThreadId>)
    requires DisciplinedRun(run, moves) && k < |run| && run[k].fault == Running && u in run[k].pcs
    ensures WaitChain(run[k], chain) && chain[0] == u
    ensures var w, t := run[k], chain[|chain| - 1];
      || w.pcs[t] == Idle || Enabled(w, t, Continue)
      || (w.pcs[t].AtBlocked? && w.pcs[t].m in w.mutexes && !Tracked(w.mutexes[w.pcs[t].m]))
  {
    RunSound(run, moves, k);
    forall cycle ensures !WaitCycle(run[k], cycle) {
      NoCircularWait(run, moves, k, cycle);
    }
    chain := ChainEnds(run[k], [u]);
    var t := chain[|chain| - 1];
    if run[k].pcs[t] != Idle { CanStepIff(run, moves, k, t); }
  }
}
