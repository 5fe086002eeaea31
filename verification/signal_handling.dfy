// What the worker does for the handlers: each pass calls every handler with a byte in its pipe
// once, and a byte is handled within a bounded number of the worker's steps.
module SignalHandling {
  import opened SignalLoop

  lemma StepAt(worlds: seq<World>, actions: seq<Action>, k: nat)
    requires IsRun(worlds, actions) && k < |actions|
    ensures Next(worlds[k], actions[k], worlds[k + 1])
  {
  }

  // ---- One pass over the pipes ----

  ghost predicate InPass(worker: Worker) {
    worker.Scanning? || worker.Calling?
  }

  // From state `n`, where a pass begins, to `m`, where it is over.
  ghost predicate IsPass(worlds: seq<World>, actions: seq<Action>, n: nat, m: nat) {
    && IsRun(worlds, actions) && n < m < |worlds|
    && worlds[n].worker == Scanning(0) && worlds[m].worker == Top
    && forall k :: n <= k < m ==> InPass(worlds[k].worker)
  }

  // How often handler `h` has been called since `from`, with the call about to be made.
  ghost function Calls(from: World, w: World, h: nat): int
    requires h < |from.calls| && h < |w.calls|
  {
    w.calls[h] - from.calls[h] + AboutToCall(w, h)
  }

  // The bytes written to `h`'s pipe since `from`.
  ghost function Written(from: World, w: World, h: nat): int
    requires h < |from.writes| && h < |w.writes|
  {
    w.writes[h] as int - from.writes[h]
  }

  // The pass has dealt with `h`: it is past it, or calling it.
  ghost predicate Past(worker: Worker, h: nat) {
    match worker
    case Scanning(i) => h < i
    case Calling(i) => h <= i
    case _ => true
  }

  // While a pass goes on: handlers it is past have been called once if they had a byte when their turn
  // came, which they had if they had one at the start; the others have not been called.
  ghost predicate PassAt(from: World, w: World, h: nat) {
    && h < |from.calls| && h < |w.calls| && h < |from.writes| && h < |w.writes| && h < |from.queued| && h < |w.queued|
    && w.handlers == from.handlers && Written(from, w, h) >= 0
    && w.queued[h] == from.queued[h] + Written(from, w, h) - Calls(from, w, h)
    && 0 <= Calls(from, w, h) <= 1
    && (!Past(w.worker, h) ==> Calls(from, w, h) == 0)
    && (h !in w.handlers ==> Calls(from, w, h) == 0)
    && (Past(w.worker, h) && h in w.handlers && Calls(from, w, h) == 0 ==> from.queued[h] == 0)
  }

  lemma PassStep(from: World, w: World, a: Action, v: World, h: nat)
    requires Inv(w) && Next(w, a, v) && InPass(w.worker) && PassAt(from, w, h) && h < SIGNALS
    ensures PassAt(from, v, h)
  {
  }

  lemma {:induction false} PassProgress(worlds: seq<World>, actions: seq<Action>, n: nat, k: nat, h: nat)
    requires IsRun(worlds, actions) && n <= k < |worlds| && h < SIGNALS && worlds[n].worker == Scanning(0)
    requires forall i :: n <= i < k ==> InPass(worlds[i].worker)
    ensures PassAt(worlds[n], worlds[k], h)
    decreases k
  {
    RunKeeps(worlds, actions, n);
    if k > n {
      PassProgress(worlds, actions, n, k - 1, h);
      RunKeeps(worlds, actions, k - 1);
      StepAt(worlds, actions, k - 1);
      PassStep(worlds[n], worlds[k - 1], actions[k - 1], worlds[k], h);
    }
  }

  // A pass calls every registered handler whose pipe held a byte at its start exactly once, no
  // handler more than once, and none whose pipe was empty and stayed so, or that is not registered.
  lemma {:induction false} PassHandles(worlds: seq<World>, actions: seq<Action>, n: nat, m: nat, h: nat)
    requires IsPass(worlds, actions, n, m) && h < SIGNALS
    ensures var w, v := worlds[n], worlds[m];
      && |w.calls| == |v.calls| == |w.queued| == |w.writes| == |v.writes| == SIGNALS && v.handlers == w.handlers
      && w.calls[h] <= v.calls[h] <= w.calls[h] + 1
      && (h in w.handlers && w.queued[h] > 0 ==> v.calls[h] == w.calls[h] + 1)
      && (h !in w.handlers || (w.queued[h] == 0 && v.writes[h] == w.writes[h]) ==> v.calls[h] == w.calls[h])
  {
    PassProgress(worlds, actions, n, m, h);
    RunKeeps(worlds, actions, n);
    RunKeeps(worlds, actions, m);
  }

  // ---- A byte is handled in time ----

  // `h` is registered and awake, and has a byte that waits or is being handled.
  ghost predicate Due(w: World, h: nat) {
    && h < SIGNALS && h in w.handlers && !WakeToCome(w, h) && !w.stop
    && h < |w.queued| && (w.queued[h] > 0 || w.worker == Calling(h))
  }

  // How many steps the worker is from having called `h`.
  function StepsTo(worker: Worker, h: nat): int
    requires h < SIGNALS
  {
    match worker
    case Scanning(i) => if i <= h then 2 * (h - i) + 2 else 2 * h + 42 + if i <= SIGNALS then 2 * (SIGNALS - i) else 0
    case Calling(i) => if i <= h then 2 * (h - i) + 1 else 2 * h + 41 + 2 * (SIGNALS - i)
    case WantsScan => 2 * h + 3
    case ReadsWake => 2 * h + 4
    case Polled(ready) => if ready then 2 * h + 5 else 2 * h + 42
    case Polling(_) => 2 * h + 6
    case Building(i, _) => 2 * h + 7 + SIGNALS - i
    case WantsSnapshot => 2 * h + 8 + SIGNALS
    case Top => 2 * h + 9 + SIGNALS
    case Left => 0
  }

  lemma StepsBounded(w: World, h: nat)
    requires Inv(w) && Due(w, h)
    ensures 0 < StepsTo(w.worker, h) <= 104
  {
  }

  // Nothing registers a handler in place again.
  lemma WakesStay(w: World, a: Action, v: World, h: nat)
    requires Inv(w) && Next(w, a, v) && h in w.handlers && !WakeToCome(w, h)
    ensures !WakeToCome(v, h)
  {
    assert SetFor(w.registrars, h);
    forall i | 0 <= i < |v.registrars| && v.registrars[i].signum == h
      ensures v.registrars[i].phase != Unlocks && v.registrars[i].phase != Wakes
    {
      assert w.registrars[i].signum == h;
    }
  }

  function Worked(a: Action): nat {
    if a.Work? then 1 else 0
  }

  function PollFailed(a: Action): nat {
    if a.PollFails? then 1 else 0
  }

  // Until the call is made each step of the worker brings it closer; a poll that fails costs
  // another look at the handlers.
  lemma StepsFall(w: World, a: Action, v: World, h: nat)
    requires Inv(w) && Next(w, a, v) && Due(w, h) && !v.stop
    ensures h < |v.calls| == |w.calls| && v.calls[h] >= w.calls[h]
    ensures v.calls[h] > w.calls[h] ||
      (Due(v, h) && StepsTo(v.worker, h) + Worked(a) <= StepsTo(w.worker, h) + 36 * PollFailed(a))
  {
    WakesStay(w, a, v, h);
  }

  function WorkDone(actions: seq<Action>): nat {
    if actions == [] then 0 else WorkDone(actions[..|actions| - 1]) + Worked(actions[|actions| - 1])
  }

  function FailedPolls(actions: seq<Action>): nat {
    if actions == [] then 0 else FailedPolls(actions[..|actions| - 1]) + PollFailed(actions[|actions| - 1])
  }

  lemma {:induction false} StopStays(worlds: seq<World>, actions: seq<Action>, n: nat, m: nat)
    requires IsRun(worlds, actions) && n <= m < |worlds| && worlds[n].stop
    ensures worlds[m].stop
    decreases m
  {
    if n < m {
      StopStays(worlds, actions, n, m - 1);
      StepAt(worlds, actions, m - 1);
    }
  }

  lemma {:induction false} CallsNear(worlds: seq<World>, actions: seq<Action>, n: nat, m: nat, h: nat)
    requires IsRun(worlds, actions) && n <= m < |worlds| && Due(worlds[n], h) && !worlds[m].stop
    ensures |worlds[n].calls| == |worlds[m].calls| == SIGNALS && worlds[m].calls[h] >= worlds[n].calls[h]
    ensures worlds[m].calls[h] > worlds[n].calls[h] ||
      (Due(worlds[m], h)
       && StepsTo(worlds[m].worker, h) + WorkDone(actions[n..m])
          <= StepsTo(worlds[n].worker, h) + 36 * FailedPolls(actions[n..m]))
    decreases m
  {
    RunKeeps(worlds, actions, m);
    if n < m {
      if worlds[m - 1].stop { StopStays(worlds, actions, m - 1, m); }
      CallsNear(worlds, actions, n, m - 1, h);
      RunKeeps(worlds, actions, m - 1);
      StepAt(worlds, actions, m - 1);
      assert actions[n..m][..m - 1 - n] == actions[n..m - 1];
      if worlds[m - 1].calls[h] == worlds[n].calls[h] {
        StepsFall(worlds[m - 1], actions[m - 1], worlds[m], h);
      }
    }
  }

  // While the worker is not stopped: by the time it has taken 104 steps, and 36 more for each poll
  // that fails, a byte queued for a registered handler that has woken it has been handled.
  lemma {:induction false} HandledInTime(worlds: seq<World>, actions: seq<Action>, n: nat, m: nat, h: nat)
    requires IsRun(worlds, actions) && n <= m < |worlds| && Due(worlds[n], h) && !worlds[m].stop
    ensures |worlds[n].calls| == |worlds[m].calls| == SIGNALS
    ensures WorkDone(actions[n..m]) >= 104 + 36 * FailedPolls(actions[n..m]) ==> worlds[m].calls[h] > worlds[n].calls[h]
  {
    CallsNear(worlds, actions, n, m, h);
    RunKeeps(worlds, actions, n);
    RunKeeps(worlds, actions, m);
    StepsBounded(worlds[n], h);
    if Due(worlds[m], h) { StepsBounded(worlds[m], h); }
  }

  // And until it has been handled somebody can take a step towards it: the worker, or the
  // registration that holds the lock the worker needs.
  lemma {:induction false} HandlingNeverStuck(worlds: seq<World>, actions: seq<Action>, n: nat, h: nat)
    requires IsRun(worlds, actions) && n < |worlds| && Due(worlds[n], h)
    ensures exists a: Action, v: World :: (a.Work? || a.Register?) && Next(worlds[n], a, v)
  {
    RunKeeps(worlds, actions, n);
    var w := worlds[n];
    if w.lock.TheRegistrar? && (w.worker.WantsSnapshot? || w.worker.WantsScan?) {
      var v := RegistrarCanStep(w, w.lock.i);
      assert Next(w, Register(w.lock.i), v);
    } else {
      var v := WorkerMayStep(w, h);
      assert Next(w, Work, v);
    }
  }

  lemma WorkerMayStep(w: World, h: nat) returns (v: World)
    requires Inv(w) && Due(w, h)
    requires w.worker.WantsSnapshot? || w.worker.WantsScan? ==> w.lock.Nobody?
    ensures WorkerStep(w, v)
  {
    v := match w.worker
      case Top => w.(worker := WantsSnapshot)
      case WantsSnapshot => w.(lock := TheWorker, worker := Building(0, {}))
      case Building(i, snap) =>
        if i < SIGNALS then w.(worker := Building(i + 1, if i in w.handlers then snap + {i} else snap))
        else w.(lock := Nobody, worker := Polling(snap))
      case Polling(snap) => w.(worker := Polled(true))
      case Polled(ready) => w.(worker := if ready then ReadsWake else Top)
      case ReadsWake => w.(wake := if w.wake > 0 then w.wake - 1 else 0, worker := WantsScan)
      case WantsScan => w.(lock := TheWorker, worker := Scanning(0))
      case Scanning(i) =>
        if i >= SIGNALS then w.(lock := Nobody, worker := Top)
        else if i in w.handlers && w.queued[i] > 0
        then w.(queued := w.queued[i := w.queued[i] - 1], worker := Calling(i))
        else w.(worker := Scanning(i + 1))
      case Calling(i) => w.(calls := w.calls[i := w.calls[i] + 1], worker := Scanning(i + 1))
      case Left => w;
  }

  // ---- The other threads ----

  // A signal for a registered handler can come at any time, and leaves one byte in its pipe.
  lemma {:induction false} SignalArrives(worlds: seq<World>, actions: seq<Action>, n: nat, h: nat) returns (v: World)
    requires IsRun(worlds, actions) && n < |worlds| && h in worlds[n].handlers
    ensures Next(worlds[n], Signal(h), v)
    ensures h < |worlds[n].queued| == |v.queued| && v.queued[h] == worlds[n].queued[h] + 1
  {
    RunKeeps(worlds, actions, n);
    var w := worlds[n];
    v := w.(queued := w.queued[h := w.queued[h] + 1], writes := w.writes[h := w.writes[h] + 1]);
  }

  // A registration can always go on, unless it waits for the lock; when it is through, its handler
  // is in place.
  lemma {:induction false} RegistrationGoesOn(worlds: seq<World>, actions: seq<Action>, n: nat, i: nat)
    requires IsRun(worlds, actions) && n < |worlds| && i < |worlds[n].registrars|
    ensures var r := worlds[n].registrars[i];
      if r.phase == Registered then r.signum in worlds[n].handlers
      else (exists v :: Next(worlds[n], Register(i), v)) <==> r.phase != WantsLock || worlds[n].lock.Nobody?
  {
    RunKeeps(worlds, actions, n);
    var w := worlds[n];
    var r := w.registrars[i];
    match r.phase {
      case WantsLock =>
        var v := w.(lock := TheRegistrar(i), registrars := w.registrars[i := r.(phase := Sets)]);
        assert w.lock.Nobody? ==> Next(w, Register(i), v);
      case Sets =>
        assert Next(w, Register(i), w.(handlers := w.handlers + {r.signum},
                                       registrars := w.registrars[i := r.(phase := Unlocks)]));
      case Unlocks =>
        assert Next(w, Register(i), w.(lock := Nobody, registrars := w.registrars[i := r.(phase := Wakes)]));
      case Wakes =>
        assert Next(w, Register(i), w.(wake := w.wake + 1, registrars := w.registrars[i := r.(phase := Registered)]));
      case Registered =>
    }
  }

  // The shutdown waits for nothing but the worker, and is over only when the worker has left.
  lemma {:induction false} ShutdownGoesOn(worlds: seq<World>, actions: seq<Action>, n: nat)
    requires IsRun(worlds, actions) && n < |worlds|
    ensures var w := worlds[n];
      if w.shutdown == Joined then w.worker.Left?
      else (exists v :: Next(w, Shut, v)) <==> w.shutdown != Woke || w.worker.Left?
  {
    RunKeeps(worlds, actions, n);
    var w := worlds[n];
    match w.shutdown {
      case NotAsked => assert Next(w, Shut, w.(stop := true, shutdown := Stopped));
      case Stopped => assert Next(w, Shut, w.(wake := w.wake + 1, shutdown := Woke));
      case Woke => assert w.worker.Left? ==> Next(w, Shut, w.(shutdown := Joined));
      case Joined =>
    }
  }

  // ---- Wake bytes ----

  // Wake bytes written so far: one for each registration that is through, one for the shutdown.
  ghost function WakesWritten(w: World): nat {
    Through(w.registrars) + if w.shutdown == Woke || w.shutdown == Joined then 1 else 0
  }

  function Through(rs: seq<Registrar>): nat {
    if rs == [] then 0 else Through(rs[..|rs| - 1]) + if rs[|rs| - 1].phase == Registered then 1 else 0
  }

  lemma {:induction false} ThroughAfter(rs: seq<Registrar>, i: nat, r: Registrar)
    requires i < |rs|
    ensures Through(rs[i := r]) + (if rs[i].phase == Registered then 1 else 0)
         == Through(rs) + (if r.phase == Registered then 1 else 0)
    decreases |rs|
  {
    var n := |rs| - 1;
    if i == n {
      assert rs[i := r][..n] == rs[..n];
    } else {
      ThroughAfter(rs[..n], i, r);
      assert rs[i := r][..n] == rs[..n][i := r];
    }
  }

  // The passes begun while there was a wake byte, in the first `n` steps.
  ghost function WakesRead(worlds: seq<World>, actions: seq<Action>, n: nat): nat
    requires n <= |actions| < |worlds|
  {
    if n == 0 then 0
    else
      WakesRead(worlds, actions, n - 1)
      + if actions[n - 1].Work? && worlds[n - 1].worker == ReadsWake && worlds[n - 1].wake > 0 then 1 else 0
  }

  lemma {:induction false} NoneThrough(rs: seq<Registrar>)
    requires forall i :: 0 <= i < |rs| ==> rs[i].phase == WantsLock
    ensures Through(rs) == 0
    decreases |rs|
  {
    if rs != [] {
      NoneThrough(rs[..|rs| - 1]);
    }
  }

  lemma WakeStep(w: World, a: Action, v: World)
    requires Next(w, a, v)
    ensures WakesWritten(v) - v.wake ==
            WakesWritten(w) - w.wake + if a.Work? && w.worker == ReadsWake && w.wake > 0 then 1 else 0
  {
    if a.Register? {
      ThroughAfter(w.registrars, a.i, v.registrars[a.i]);
    }
  }

  // Each pass reads one wake byte if there is one: those read and those in the pipe add up to those
  // written, in every state of every run.
  lemma {:induction false} EveryWakeByteOnce(worlds: seq<World>, actions: seq<Action>, n: nat)
    requires IsRun(worlds, actions) && n < |worlds|
    ensures WakesRead(worlds, actions, n) + worlds[n].wake == WakesWritten(worlds[n])
    decreases n
  {
    if n == 0 {
      NoneThrough(worlds[0].registrars);
    } else {
      EveryWakeByteOnce(worlds, actions, n - 1);
      StepAt(worlds, actions, n - 1);
      WakeStep(worlds[n - 1], actions[n - 1], worlds[n]);
    }
  }
}
