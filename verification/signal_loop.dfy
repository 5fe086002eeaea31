// The thread that runs signal handlers outside of signal context, as a transition system: the worker's
// loop over its pipes, threads that register handlers, signals that write to a handler's pipe,
// and the thread that shuts the worker down.
module SignalLoop {
  const SIGNALS: nat := 32

  // Where the worker is. `snap` is the set of handlers whose pipes it polls.
  datatype Worker =
    | Top
    | WantsSnapshot
    | Building(next: nat, snap: set<nat>)
    | Polling(snap: set<nat>)
    | Polled(ready: bool)
    | ReadsWake
    | WantsScan
    | Scanning(next: nat)
    | Calling(signum: nat)
    | Left

  // Where a registration is: it sets its handler under the lock, then writes a wake byte.
  datatype Phase = WantsLock | Sets | Unlocks | Wakes | Registered

  datatype Registrar = Registrar(signum: nat, phase: Phase)

  // Where the shutdown is: it sets `stop`, writes a wake byte, and joins the worker.
  datatype Shutdown = NotAsked | Stopped | Woke | Joined

  datatype Holder = Nobody | TheWorker | TheRegistrar(i: nat)

  // `queued`, `calls` and `writes` count, for each signal, the bytes in its handler's pipe,
  // the handler's calls, and the completed writes.
  datatype World = World(
    stop: bool,
    lock: Holder,
    handlers: set<nat>,
    wake: nat,
    queued: seq<nat>,
    calls: seq<nat>,
    writes: seq<nat>,
    worker: Worker,
    registrars: seq<Registrar>,
    shutdown: Shutdown)

  datatype Action = Work | PollFails | Register(i: nat) | Signal(signum: nat) | Shut

  // poll returns: there is a byte in one of the pipes it was given.
  ghost predicate PollReady(w: World, snap: set<nat>) {
    w.wake > 0 || exists h :: h in snap && h < |w.queued| && w.queued[h] > 0
  }

  ghost predicate WorkerStep(w: World, v: World) {
    match w.worker
    case Top => v == w.(worker := if w.stop then Left else WantsSnapshot)
    case WantsSnapshot => w.lock.Nobody? && v == w.(lock := TheWorker, worker := Building(0, {}))
    case Building(i, snap) =>
      if i < SIGNALS then v == w.(worker := Building(i + 1, if i in w.handlers then snap + {i} else snap))
      else v == w.(lock := Nobody, worker := Polling(snap))
    case Polling(snap) => PollReady(w, snap) && v == w.(worker := Polled(true))
    case Polled(ready) => v == w.(worker := if w.stop then Left else if ready then ReadsWake else Top)
    case ReadsWake => v == w.(wake := if w.wake > 0 then w.wake - 1 else 0, worker := WantsScan)
    case WantsScan => w.lock.Nobody? && v == w.(lock := TheWorker, worker := Scanning(0))
    case Scanning(i) =>
      if i >= SIGNALS then v == w.(lock := Nobody, worker := Top)
      else if i in w.handlers && i < |w.queued| && w.queued[i] > 0
      then v == w.(queued := w.queued[i := w.queued[i] - 1], worker := Calling(i))
      else v == w.(worker := Scanning(i + 1))
    case Calling(i) => i < |w.calls| && v == w.(calls := w.calls[i := w.calls[i] + 1], worker := Scanning(i + 1))
    case Left => false
  }

  ghost predicate RegistrarStep(w: World, i: nat, v: World) {
    && i < |w.registrars|
    && var r := w.registrars[i];
       match r.phase
       case WantsLock =>
         w.lock.Nobody? && v == w.(lock := TheRegistrar(i), registrars := w.registrars[i := r.(phase := Sets)])
       case Sets => v == w.(handlers := w.handlers + {r.signum}, registrars := w.registrars[i := r.(phase := Unlocks)])
       case Unlocks => v == w.(lock := Nobody, registrars := w.registrars[i := r.(phase := Wakes)])
       case Wakes => v == w.(wake := w.wake + 1, registrars := w.registrars[i := r.(phase := Registered)])
       case Registered => false
  }

  ghost predicate Next(w: World, a: Action, v: World) {
    match a
    case Work => WorkerStep(w, v)
    case PollFails => w.worker.Polling? && v == w.(worker := Polled(false))
    case Register(i) => RegistrarStep(w, i, v)
    case Signal(h) =>
      && h in w.handlers && h < |w.queued| && h < |w.writes|
      && v == w.(queued := w.queued[h := w.queued[h] + 1], writes := w.writes[h := w.writes[h] + 1])
    case Shut =>
      match w.shutdown
      case NotAsked => v == w.(stop := true, shutdown := Stopped)
      case Stopped => v == w.(wake := w.wake + 1, shutdown := Woke)
      case Woke => w.worker.Left? && v == w.(shutdown := Joined)
      case Joined => false
  }

  // Any number of registrations still to come, for different signals.
  ghost predicate Initial(w: World) {
    && !w.stop && w.lock.Nobody? && w.handlers == {} && w.wake == 0
    && |w.queued| == |w.calls| == |w.writes| == SIGNALS
    && (forall h :: 0 <= h < SIGNALS ==> w.queued[h] == 0 && w.calls[h] == 0 && w.writes[h] == 0)
    && w.worker == Top && w.shutdown == NotAsked
    && (forall i :: 0 <= i < |w.registrars| ==> w.registrars[i].phase == WantsLock && w.registrars[i].signum < SIGNALS)
    && (forall i, j :: 0 <= i < j < |w.registrars| ==> w.registrars[i].signum != w.registrars[j].signum)
  }

  // ---- What every step keeps ----

  ghost predicate Locking(w: World) {
    && (w.lock == TheWorker <==> w.worker.Building? || w.worker.Scanning? || w.worker.Calling?)
    && (forall i :: 0 <= i < |w.registrars| ==>
          (w.lock == TheRegistrar(i) <==> w.registrars[i].phase == Sets || w.registrars[i].phase == Unlocks))
    && (w.lock.TheRegistrar? ==> w.lock.i < |w.registrars|)
  }

  function AboutToCall(w: World, h: nat): nat {
    if w.worker == Calling(h) then 1 else 0
  }

  // Every byte written is still queued, being handled, or has been handled, once.
  ghost predicate Counted(w: World) {
    && |w.queued| == |w.calls| == |w.writes| == SIGNALS
    && (w.worker.Calling? ==> w.worker.signum < SIGNALS)
    && forall h :: 0 <= h < SIGNALS ==> w.calls[h] + w.queued[h] + AboutToCall(w, h) == w.writes[h]
  }

  // A registration of `h` that has not written its wake byte.
  ghost predicate WakeToCome(w: World, h: nat) {
    exists i :: 0 <= i < |w.registrars| && w.registrars[i].signum == h
      && (w.registrars[i].phase == Unlocks || w.registrars[i].phase == Wakes)
  }

  // The worker will look again before it misses a handler its snapshot lacks.
  ghost predicate Snapshots(w: World) {
    && (w.worker.Building? ==>
          w.worker.next <= SIGNALS && forall h :: h in w.handlers && h < w.worker.next ==> h in w.worker.snap)
    && (w.worker.Building? || w.worker.Polling? ==> w.worker.snap <= w.handlers)
    && (w.worker.Polling? ==> w.wake > 0 || forall h :: h in w.handlers && h !in w.worker.snap ==> WakeToCome(w, h))
    && (forall h :: h in w.handlers ==> h < SIGNALS)
    && (forall i :: 0 <= i < |w.registrars| ==> w.registrars[i].signum < SIGNALS)
  }

  ghost predicate Stopping(w: World) {
    && (w.stop <==> w.shutdown != NotAsked)
    && (w.shutdown == Woke || w.shutdown == Joined ==>
          w.worker.WantsSnapshot? || w.worker.Building? || w.worker.Polling? ==> w.wake > 0)
    && (w.worker.Left? ==> w.stop)
    && (w.shutdown == Joined ==> w.worker.Left?)
  }

  predicate IsSet(p: Phase) {
    p != WantsLock && p != Sets
  }

  // A handler is in place exactly from its registration's critical section on, and no signal is
  // registered twice.
  ghost predicate Installed(w: World) {
    && (forall i :: 0 <= i < |w.registrars| && IsSet(w.registrars[i].phase) ==> w.registrars[i].signum in w.handlers)
    && (forall h :: h in w.handlers ==> SetFor(w.registrars, h))
    && (forall i, j :: 0 <= i < j < |w.registrars| ==> w.registrars[i].signum != w.registrars[j].signum)
  }

  ghost predicate Inv(w: World) {
    Locking(w) && Counted(w) && Snapshots(w) && Stopping(w) && Installed(w)
  }

  lemma StepKeepsCounts(w: World, a: Action, v: World)
    requires Counted(w) && Next(w, a, v)
    ensures Counted(v)
  {
  }

  lemma StepKeepsLocking(w: World, a: Action, v: World)
    requires Locking(w) && Next(w, a, v)
    ensures Locking(v)
  {
  }

  lemma StepKeepsSnapshots(w: World, a: Action, v: World)
    requires Locking(w) && Snapshots(w) && Next(w, a, v)
    ensures Snapshots(v)
  {
    if v.worker.Polling? && v.wake == 0 {
      forall h | h in v.handlers && h !in v.worker.snap ensures WakeToCome(v, h) {
        if a.Register? {
          RegistrationWakes(w, a.i, v, h);
        } else if h in w.handlers && w.worker.Polling? {
          var i :| 0 <= i < |w.registrars| && w.registrars[i].signum == h
            && (w.registrars[i].phase == Unlocks || w.registrars[i].phase == Wakes);
          assert v.registrars[i] == w.registrars[i];
        }
      }
    }
  }

  lemma RegistrationWakes(w: World, i: nat, v: World, h: nat)
    requires Snapshots(w) && RegistrarStep(w, i, v) && w.worker.Polling? && v.wake == 0
    requires h in v.handlers && h !in v.worker.snap
    ensures WakeToCome(v, h)
  {
    if h in w.handlers {
      var j :| 0 <= j < |w.registrars| && w.registrars[j].signum == h
        && (w.registrars[j].phase == Unlocks || w.registrars[j].phase == Wakes);
      assert v.registrars[j].signum == h;
    } else {
      assert v.registrars[i].signum == h;
    }
  }

  lemma StepKeepsStopping(w: World, a: Action, v: World)
    requires Stopping(w) && Next(w, a, v)
    ensures Stopping(v)
  {
  }

  ghost predicate SetFor(rs: seq<Registrar>, h: nat) {
    exists i :: 0 <= i < |rs| && rs[i].signum == h && IsSet(rs[i].phase)
  }

  lemma StaysSet(w: World, a: Action, v: World, h: nat)
    requires SetFor(w.registrars, h) && Next(w, a, v)
    ensures SetFor(v.registrars, h)
  {
    var i :| 0 <= i < |w.registrars| && w.registrars[i].signum == h && IsSet(w.registrars[i].phase);
    assert v.registrars[i].signum == h && IsSet(v.registrars[i].phase);
  }

  lemma StepKeepsInstalled(w: World, a: Action, v: World)
    requires Installed(w) && Next(w, a, v)
    ensures Installed(v)
  {
    forall h | h in v.handlers ensures SetFor(v.registrars, h) {
      if h in w.handlers {
        StaysSet(w, a, v, h);
      } else {
        assert v.registrars[a.i].signum == h;
      }
    }
    if a.Register? {
      assert forall i :: 0 <= i < |w.registrars| ==> v.registrars[i].signum == w.registrars[i].signum;
    } else {
      assert v.registrars == w.registrars;
    }
  }

  lemma StepKeeps(w: World, a: Action, v: World)
    requires Inv(w) && Next(w, a, v)
    ensures Inv(v)
  {
    StepKeepsCounts(w, a, v);
    StepKeepsLocking(w, a, v);
    StepKeepsSnapshots(w, a, v);
    StepKeepsStopping(w, a, v);
    StepKeepsInstalled(w, a, v);
  }

  ghost predicate IsRun(worlds: seq<World>, actions: seq<Action>) {
    && |worlds| == |actions| + 1 && Initial(worlds[0])
    && forall n {:trigger Next(worlds[n], actions[n], worlds[n + 1])} ::
         0 <= n < |actions| ==> Next(worlds[n], actions[n], worlds[n + 1])
  }

  lemma {:induction false} RunKeeps(worlds: seq<World>, actions: seq<Action>, n: nat)
    requires IsRun(worlds, actions) && n < |worlds|
    ensures Inv(worlds[n])
    decreases n
  {
    if n == 0 {
    } else {
      var m := n - 1;
      RunKeeps(worlds, actions, m);
      assert Next(worlds[m], actions[m], worlds[m + 1]);
      StepKeeps(worlds[m], actions[m], worlds[m + 1]);
    }
  }

  // ---- Main results ----

  // In every state of every run, for each signal, the handler's calls, the bytes in its pipe and
  // a call about to be made add up to the completed writes.
  lemma {:induction false} EveryByteOnce(worlds: seq<World>, actions: seq<Action>, n: nat, h: nat)
    requires IsRun(worlds, actions) && n < |worlds| && h < SIGNALS
    ensures var w := worlds[n];
      && |w.calls| == |w.queued| == |w.writes| == SIGNALS
      && w.calls[h] + w.queued[h] + AboutToCall(w, h) == w.writes[h]
  {
    RunKeeps(worlds, actions, n);
  }

  // The worker is never left waiting in poll with a byte queued that it does not see, unless the
  // registration of that handler is about to wake it.
  lemma {:induction false} NoLostWakeup(worlds: seq<World>, actions: seq<Action>, n: nat, h: nat)
    requires IsRun(worlds, actions) && n < |worlds| && worlds[n].worker.Polling?
    requires h < SIGNALS && |worlds[n].queued| == SIGNALS && h in worlds[n].handlers && worlds[n].queued[h] > 0
    ensures PollReady(worlds[n], worlds[n].worker.snap) || WakeToCome(worlds[n], h)
    ensures worlds[n].worker.snap <= worlds[n].handlers
  {
    RunKeeps(worlds, actions, n);
  }

  // How many steps the worker can still take once `stop` is set.
  function Distance(worker: Worker): nat {
    match worker
    case Left => 0
    case Top => 1
    case Polled(_) => 1
    case Polling(_) => 2
    case Building(i, _) => if i <= SIGNALS then 3 + SIGNALS - i else 3
    case WantsSnapshot => 4 + SIGNALS
    case Scanning(i) => if i <= SIGNALS then 2 + 2 * (SIGNALS - i) else 2
    case Calling(i) => if i < SIGNALS then 1 + 2 * (SIGNALS - i) else 3
    case WantsScan => 3 + 2 * SIGNALS
    case ReadsWake => 4 + 2 * SIGNALS
  }

  // Once `stop` is set each step of the worker brings it closer to leaving, and no other step
  // takes it back.
  lemma StopBringsCloser(w: World, a: Action, v: World)
    requires Inv(w) && w.stop && Next(w, a, v)
    ensures v.stop
    ensures if a.Work? || a.PollFails? then Distance(v.worker) < Distance(w.worker) else v.worker == w.worker
  {
  }

  function Counts(a: Action): nat {
    if a.Work? || a.PollFails? then 1 else 0
  }

  lemma {:induction false} CloserAt(worlds: seq<World>, actions: seq<Action>, n: nat)
    requires IsRun(worlds, actions) && n < |actions| && worlds[n].stop
    ensures worlds[n + 1].stop
    ensures Distance(worlds[n + 1].worker) + Counts(actions[n]) <= Distance(worlds[n].worker)
  {
    RunKeeps(worlds, actions, n);
    assert Next(worlds[n], actions[n], worlds[n + 1]);
    StopBringsCloser(worlds[n], actions[n], worlds[n + 1]);
  }

  function WorkerSteps(actions: seq<Action>): nat {
    if actions == [] then 0
    else WorkerSteps(actions[..|actions| - 1]) + Counts(actions[|actions| - 1])
  }

  // From the moment `stop` is set the worker takes at most 68 more steps, whatever else happens.
  lemma {:induction false} ShutdownBounded(worlds: seq<World>, actions: seq<Action>, n: nat, m: nat)
    requires IsRun(worlds, actions) && n <= m < |worlds| && worlds[n].stop
    ensures worlds[m].stop
    ensures WorkerSteps(actions[n..m]) + Distance(worlds[m].worker) <= Distance(worlds[n].worker) <= 68
    decreases m
  {
    if n == m {
    } else {
      ShutdownBounded(worlds, actions, n, m - 1);
      CloserAt(worlds, actions, m - 1);
      assert actions[n..m][..m - 1 - n] == actions[n..m - 1];
    }
  }

  // ---- The worker always leaves ----

  function PhasesLeft(p: Phase): nat {
    match p
    case WantsLock => 4
    case Sets => 3
    case Unlocks => 2
    case Wakes => 1
    case Registered => 0
  }

  // How many steps the registrations can still take.
  function Ahead(rs: seq<Registrar>): nat {
    if rs == [] then 0 else Ahead(rs[..|rs| - 1]) + PhasesLeft(rs[|rs| - 1].phase)
  }

  lemma {:induction false} AheadAfter(rs: seq<Registrar>, i: nat, r: Registrar)
    requires i < |rs|
    ensures Ahead(rs[i := r]) + PhasesLeft(rs[i].phase) == Ahead(rs) + PhasesLeft(r.phase)
    decreases |rs|
  {
    var n := |rs| - 1;
    if i == n {
      assert rs[i := r][..n] == rs[..n];
    } else {
      AheadAfter(rs[..n], i, r);
      assert rs[i := r][..n] == rs[..n][i := r];
    }
  }

  lemma {:induction false} AheadBounded(rs: seq<Registrar>)
    ensures Ahead(rs) <= 4 * |rs|
    decreases |rs|
  {
    if rs == [] {
    } else {
      AheadBounded(rs[..|rs| - 1]);
    }
  }

  // Once `stop` is set: how many steps the worker and the registrations can still take.
  function Remaining(w: World): nat {
    Distance(w.worker) + Ahead(w.registrars)
  }

  predicate IsMove(a: Action) {
    a.Work? || a.PollFails? || a.Register?
  }

  // Once `stop` is set every step of the worker and of a registration lowers what remains, and a
  // signal or the shutdown itself does not raise it.
  lemma StopLowers(w: World, a: Action, v: World)
    requires Inv(w) && w.stop && Next(w, a, v)
    ensures v.stop && Remaining(v) + (if IsMove(a) then 1 else 0) <= Remaining(w)
  {
    StopBringsCloser(w, a, v);
    if a.Register? {
      AheadAfter(w.registrars, a.i, v.registrars[a.i]);
    }
  }

  lemma LowersByStep(w: World, a: Action, v: World)
    requires Inv(w) && w.stop && Next(w, a, v) && IsMove(a)
    ensures exists b, u :: Next(w, b, u) && Remaining(u) < Remaining(w)
  {
    StopLowers(w, a, v);
  }

  // Once the shutdown has written its byte, and until the worker has left, some thread can take a
  // step that lowers what remains: the worker, or the registration that holds the lock.
  lemma {:induction false} ShutdownNeverStuck(worlds: seq<World>, actions: seq<Action>, n: nat)
    requires IsRun(worlds, actions) && n < |worlds|
    requires worlds[n].shutdown == Woke && !worlds[n].worker.Left?
    ensures exists a, v :: Next(worlds[n], a, v) && Remaining(v) < Remaining(worlds[n])
  {
    RunKeeps(worlds, actions, n);
    var w := worlds[n];
    if w.lock.TheRegistrar? && (w.worker.WantsSnapshot? || w.worker.WantsScan?) {
      var i := w.lock.i;
      var v := RegistrarCanStep(w, i);
      LowersByStep(w, Register(i), v);
    } else {
      var v := WorkerCanStep(w);
      LowersByStep(w, Work, v);
    }
  }

  function Moves(actions: seq<Action>): nat {
    if actions == [] then 0
    else Moves(actions[..|actions| - 1]) + if IsMove(actions[|actions| - 1]) then 1 else 0
  }

  lemma {:induction false} LowersAt(worlds: seq<World>, actions: seq<Action>, n: nat)
    requires IsRun(worlds, actions) && n < |actions| && worlds[n].stop
    ensures worlds[n + 1].stop
    ensures Remaining(worlds[n + 1]) + (if IsMove(actions[n]) then 1 else 0) <= Remaining(worlds[n])
  {
    RunKeeps(worlds, actions, n);
    assert Next(worlds[n], actions[n], worlds[n + 1]);
    StopLowers(worlds[n], actions[n], worlds[n + 1]);
  }

  // The worker always leaves: by the time the worker and the registrations have taken 68 steps,
  // and four for each registration, after `stop` was set it has left, however the threads are scheduled
  // and whatever signals arrive.
  lemma {:induction false} WorkerLeaves(worlds: seq<World>, actions: seq<Action>, n: nat, m: nat)
    requires IsRun(worlds, actions) && n <= m < |worlds| && worlds[n].stop
    ensures worlds[m].stop && Moves(actions[n..m]) + Remaining(worlds[m]) <= Remaining(worlds[n])
    ensures Moves(actions[n..m]) >= 68 + 4 * |worlds[n].registrars| ==> worlds[m].worker.Left?
    decreases m
  {
    if n == m {
    } else {
      WorkerLeaves(worlds, actions, n, m - 1);
      LowersAt(worlds, actions, m - 1);
      assert actions[n..m][..m - 1 - n] == actions[n..m - 1];
    }
    AheadBounded(worlds[n].registrars);
  }

  lemma RegistrarCanStep(w: World, i: nat) returns (v: World)
    requires Inv(w) && w.lock == TheRegistrar(i)
    ensures RegistrarStep(w, i, v)
  {
    var r := w.registrars[i];
    v := if r.phase == Sets
      then w.(handlers := w.handlers + {r.signum}, registrars := w.registrars[i := r.(phase := Unlocks)])
      else w.(lock := Nobody, registrars := w.registrars[i := r.(phase := Wakes)]);
  }

  lemma WorkerCanStep(w: World) returns (v: World)
    requires Inv(w) && w.shutdown == Woke && !w.worker.Left?
    requires w.worker.WantsSnapshot? || w.worker.WantsScan? ==> w.lock.Nobody?
    ensures WorkerStep(w, v)
  {
    v := match w.worker
      case Top => w.(worker := Left)
      case WantsSnapshot => w.(lock := TheWorker, worker := Building(0, {}))
      case Building(i, snap) =>
        if i < SIGNALS then w.(worker := Building(i + 1, if i in w.handlers then snap + {i} else snap))
        else w.(lock := Nobody, worker := Polling(snap))
      case Polling(snap) => w.(worker := Polled(true))
      case Polled(ready) => w.(worker := Left)
      case ReadsWake => w.(wake := if w.wake > 0 then w.wake - 1 else 0, worker := WantsScan)
      case WantsScan => w.(lock := TheWorker, worker := Scanning(0))
      case Scanning(i) =>
        if i >= SIGNALS then w.(lock := Nobody, worker := Top)
        else if i in w.handlers && w.queued[i] > 0
        then w.(queued := w.queued[i := w.queued[i] - 1], worker := Calling(i))
        else w.(worker := Scanning(i + 1))
      case Calling(i) => w.(calls := w.calls[i := w.calls[i] + 1], worker := Scanning(i + 1))
      case Left => w;
  }
}
