// Batched submission to the kernel's asynchronous I/O interface with exponential back-off.
module SubmitBatch {
  import opened BitOp

  const EAGAIN: int := 11
  const ATTEMPTS: nat := 16
  const FIRST_DELAY: nat := 125

  class Aio {
    var priv: int

    constructor (priv: int) { this.priv := priv; }
  }

  // What happens while a batch is submitted: of `offered` tasks the kernel takes `n`, or it takes
  // none and fails, or the queue sleeps.
  datatype Event = Took(offered: nat, n: nat) | Failed(offered: nat, err: int) | Slept(us: nat)

  // The sleeps, the time slept and the failures since the kernel last took something.
  function SleepsSince(trace: seq<Event>): nat {
    if trace == [] || trace[|trace| - 1].Took? then 0
    else SleepsSince(trace[..|trace| - 1]) + if trace[|trace| - 1].Slept? then 1 else 0
  }

  function SleptSince(trace: seq<Event>): nat {
    if trace == [] || trace[|trace| - 1].Took? then 0
    else SleptSince(trace[..|trace| - 1]) + match trace[|trace| - 1] case Slept(us) => us case _ => 0
  }

  function FailsSince(trace: seq<Event>): nat {
    if trace == [] || trace[|trace| - 1].Took? then 0
    else FailsSince(trace[..|trace| - 1]) + if trace[|trace| - 1].Failed? then 1 else 0
  }

  function TotalTaken(trace: seq<Event>): nat {
    if trace == [] then 0
    else TotalTaken(trace[..|trace| - 1]) + match trace[|trace| - 1] case Took(_, n) => n case _ => 0
  }

  function Sleeps(trace: seq<Event>): nat {
    if trace == [] then 0
    else Sleeps(trace[..|trace| - 1]) + if trace[|trace| - 1].Slept? then 1 else 0
  }

  // The kernel has failed, and nothing has been done about it yet.
  predicate JustFailed(trace: seq<Event>) {
    trace != [] && trace[|trace| - 1].Failed?
  }

  // `e` may come next, with `total` tasks to submit. A failure with EAGAIN is slept on, each
  // time twice as long as before, starting over whenever the kernel takes something, and 16 times in a
  // row at most. Otherwise the kernel is offered what is left, up to `depth` tasks.
  predicate Due(total: nat, depth: nat, trace: seq<Event>, e: Event) {
    match e
    case Slept(us) =>
      && JustFailed(trace) && trace[|trace| - 1].err == -EAGAIN
      && SleepsSince(trace) < ATTEMPTS && us == FIRST_DELAY * Pow2(SleepsSince(trace))
    case Took(offered, n) => Offers(total, depth, trace, offered) && 0 < n <= offered
    case Failed(offered, err) => Offers(total, depth, trace, offered) && err < 0
  }

  predicate Offers(total: nat, depth: nat, trace: seq<Event>, offered: nat) {
    && !JustFailed(trace) && TotalTaken(trace) < total
    && offered == if total - TotalTaken(trace) <= depth then total - TotalTaken(trace) else depth
  }

  predicate Conversation(total: nat, depth: nat, trace: seq<Event>) {
    forall i {:trigger Due(total, depth, trace[..i], trace[i])} ::
      0 <= i < |trace| ==> Due(total, depth, trace[..i], trace[i])
  }

  // The submission is over: all is taken, or the kernel has failed in a way that is not slept on.
  predicate Over(total: nat, trace: seq<Event>) {
    if JustFailed(trace) then trace[|trace| - 1].err != -EAGAIN || SleepsSince(trace) == ATTEMPTS
    else TotalTaken(trace) == total
  }

  // At no point has the queue slept more than 16 times, or longer than 125 * (2^16 - 1)
  // microseconds in all, since the kernel last took something; and it has failed once for each sleep.
  lemma {:induction false} BackOffBounded(total: nat, depth: nat, trace: seq<Event>, n: nat)
    requires Conversation(total, depth, trace) && n <= |trace|
    ensures SleepsSince(trace[..n]) <= 16
    ensures SleptSince(trace[..n]) == FIRST_DELAY * (Pow2(SleepsSince(trace[..n])) - 1)
    ensures SleptSince(trace[..n]) <= 125 * 0xFFFF
    ensures FailsSince(trace[..n]) == SleepsSince(trace[..n]) + if JustFailed(trace[..n]) then 1 else 0
    ensures TotalTaken(trace[..n]) <= total
    decreases n
  {
    if n == 0 {
    } else {
      BackOffBounded(total, depth, trace, n - 1);
      assert Due(total, depth, trace[..n - 1], trace[n - 1]);
      assert trace[..n][..n - 1] == trace[..n - 1];
    }
    DelaysBounded(SleepsSince(trace[..n]));
  }

  lemma DelaysBounded(k: nat)
    requires k <= ATTEMPTS
    ensures FIRST_DELAY * (Pow2(k) - 1) <= 125 * 0xFFFF
  {
    Pow2Monotone(k, ATTEMPTS);
    assert Pow2(8) == 256 && Pow2(16) == 0x1_0000;
  }

  // A submission goes on exactly until it is over, whatever the kernel answers.
  lemma OverIff(total: nat, depth: nat, trace: seq<Event>)
    requires Conversation(total, depth, trace) && depth > 0
    ensures Over(total, trace) <==> forall e :: !Due(total, depth, trace, e)
  {
    BackOffBounded(total, depth, trace, |trace|);
    assert trace[..|trace|] == trace;
    if !Over(total, trace) {
      if JustFailed(trace) {
        assert Due(total, depth, trace, Slept(FIRST_DELAY * Pow2(SleepsSince(trace))));
      } else {
        var left := total - TotalTaken(trace);
        assert Due(total, depth, trace, Failed(if left <= depth then left else depth, -1));
      }
    }
  }

  // What to do next is decided by what has happened: only the kernel's answer is not.
  lemma NextIsDecided(total: nat, depth: nat, trace: seq<Event>, d: Event, e: Event)
    requires Due(total, depth, trace, d) && Due(total, depth, trace, e)
    ensures if d.Slept? then d == e else !e.Slept? && d.offered == e.offered
  {
  }

  // A failure other than EAGAIN ends the submission, and EAGAIN is slept on, unless it ends it.
  lemma FailureEnds(total: nat, depth: nat, trace: seq<Event>, i: nat)
    requires Conversation(total, depth, trace) && i < |trace| && trace[i].Failed?
    ensures if i == |trace| - 1 then JustFailed(trace) else trace[i].err == -EAGAIN && trace[i + 1].Slept?
  {
    if i < |trace| - 1 {
      assert Due(total, depth, trace[..i + 1], trace[i + 1]);
    }
  }

  // What a result says of the kernel's answers.
  ghost predicate Tells(total: nat, trace: seq<Event>, r: int) {
    && (r >= 0 ==> r == total == TotalTaken(trace) && !JustFailed(trace))
    && (r < 0 ==> JustFailed(trace) && trace[|trace| - 1].err == r && TotalTaken(trace) < total)
    && (r == -11 ==> FailsSince(trace) == 17 && SleepsSince(trace) == 16 && SleptSince(trace) == 125 * 0xFFFF)
  }

  lemma OverTells(total: nat, depth: nat, trace: seq<Event>, r: int)
    requires Conversation(total, depth, trace) && Over(total, trace)
    requires r == if JustFailed(trace) then trace[|trace| - 1].err else total
    ensures Tells(total, trace, r)
  {
    BackOffBounded(total, depth, trace, |trace|);
    assert trace[..|trace|] == trace;
    assert Pow2(8) == 256 && Pow2(16) == 0x1_0000;
    if JustFailed(trace) {
      var n := |trace| - 1;
      assert Due(total, depth, trace[..n], trace[n]);
    }
  }

  // The kernel's side: what it has taken, in order.
  class Kernel {
    ghost var taken: seq<Aio>
    ghost var trace: seq<Event>

    constructor ()
      ensures taken == [] && trace == []
    {
      taken, trace := [], [];
    }

    // Takes at least one of the tasks offered, in order, or fails with any error.
    method IoSubmit(batch: seq<Aio>) returns (r: int)
      requires batch != []
      modifies this
      ensures 0 != r <= |batch|
      ensures r < 0 ==> taken == old(taken) && trace == old(trace) + [Failed(|batch|, r)]
      ensures r > 0 ==> taken == old(taken) + batch[..r] && trace == old(trace) + [Took(|batch|, r)]
    {
      r := *;
      if r == 0 || r > |batch| {
        r := 1;
      }
      if r > 0 {
        taken := taken + batch[..r];
        trace := trace + [Took(|batch|, r)];
      } else {
        trace := trace + [Failed(|batch|, r)];
      }
    }

    method Sleep(us: nat)
      modifies this
      ensures taken == old(taken) && trace == old(trace) + [Slept(us)]
    {
      trace := trace + [Slept(us)];
    }
  }

  lemma Append(total: nat, depth: nat, trace: seq<Event>, e: Event)
    requires Conversation(total, depth, trace) && Due(total, depth, trace, e)
    ensures Conversation(total, depth, trace + [e])
    ensures SleepsSince(trace + [e]) ==
            match e case Took(_, _) => 0 case Failed(_, _) => SleepsSince(trace) case Slept(_) => SleepsSince(trace) + 1
    ensures TotalTaken(trace + [e]) == TotalTaken(trace) + if e.Took? then e.n else 0
    ensures Sleeps(trace + [e]) == Sleeps(trace) + if e.Slept? then 1 else 0
    ensures JustFailed(trace + [e]) <==> e.Failed?
  {
    var t := trace + [e];
    assert t[..|trace|] == trace;
    forall i | 0 <= i < |t| ensures Due(total, depth, t[..i], t[i]) {
      assert i < |trace| ==> t[..i] == trace[..i];
    }
  }

  // The submission stands before its next call of the kernel, with `attempts` sleeps and the
  // length of the next one at hand.
  predicate Stands(total: nat, depth: nat, trace: seq<Event>, attempts: int, delay: nat) {
    && Conversation(total, depth, trace) && !JustFailed(trace)
    && 0 <= attempts <= ATTEMPTS && SleepsSince(trace) == ATTEMPTS - attempts
    && delay == FIRST_DELAY * Pow2(SleepsSince(trace))
  }

  lemma TakeStands(total: nat, depth: nat, trace: seq<Event>, attempts: int, delay: nat, offered: nat, n: nat)
    requires Stands(total, depth, trace, attempts, delay)
    requires Offers(total, depth, trace, offered) && 0 < n <= offered
    ensures Stands(total, depth, trace + [Took(offered, n)], ATTEMPTS, FIRST_DELAY)
    ensures TotalTaken(trace + [Took(offered, n)]) == TotalTaken(trace) + n
    ensures Sleeps(trace + [Took(offered, n)]) == Sleeps(trace)
  {
    Append(total, depth, trace, Took(offered, n));
  }

  lemma RetryStands(total: nat, depth: nat, trace: seq<Event>, attempts: int, delay: nat, offered: nat)
    requires Stands(total, depth, trace, attempts, delay) && attempts > 0
    requires Offers(total, depth, trace, offered)
    ensures var t := trace + [Failed(offered, -EAGAIN)] + [Slept(delay)];
      && Stands(total, depth, t, attempts - 1, delay * 2)
      && TotalTaken(t) == TotalTaken(trace) && Sleeps(t) == Sleeps(trace) + 1
  {
    Append(total, depth, trace, Failed(offered, -EAGAIN));
    Append(total, depth, trace + [Failed(offered, -EAGAIN)], Slept(delay));
  }

  lemma FailureTells(total: nat, depth: nat, trace: seq<Event>, attempts: int, delay: nat, offered: nat, r: int)
    requires Stands(total, depth, trace, attempts, delay) && Offers(total, depth, trace, offered)
    requires r < 0 && (r == -EAGAIN ==> attempts == 0)
    ensures var t := trace + [Failed(offered, r)];
      && Conversation(total, depth, t) && Over(total, t) && Tells(total, t, r)
      && TotalTaken(t) == TotalTaken(trace) && Sleeps(t) == Sleeps(trace)
  {
    Append(total, depth, trace, Failed(offered, r));
    OverTells(total, depth, trace + [Failed(offered, r)], r);
  }

  // What has happened since `before`.
  ghost function Since(before: seq<Event>, now: seq<Event>): seq<Event> {
    if |before| <= |now| then now[|before|..] else []
  }

  lemma SinceIs(before: seq<Event>, events: seq<Event>)
    ensures Since(before, before + events) == events
  {
  }

  lemma TraceGrows(before: seq<Event>, events: seq<Event>, e: Event)
    ensures before + events + [e] == before + (events + [e])
  {
  }

  lemma TakeMore(taken: seq<Aio>, aios: seq<Aio>, done: nat, r: nat)
    requires done + r <= |aios|
    ensures taken + aios[..done] + aios[done..done + r] == taken + aios[..done + r]
  {
    assert aios[..done] + aios[done..done + r] == aios[..done + r];
  }

  class AioQueue {
    const maxIodepth: nat

    constructor (maxIodepth: nat)
      ensures this.maxIodepth == maxIodepth
    {
      this.maxIodepth := maxIodepth;
    }

    // Marks the tasks and lists them for the kernel.
    method Prepare(aios: seq<Aio>, priv: int) returns (piocb: seq<Aio>)
      modifies aios
      ensures piocb == aios && forall a :: a in aios ==> a.priv == priv
    {
      piocb := [];
      for i := 0 to |aios|
        invariant piocb == aios[..i] && forall k :: 0 <= k < i ==> aios[k].priv == priv
      {
        aios[i].priv := priv;
        piocb := piocb + [aios[i]];
      }
    }

    // The tasks the kernel has newly taken are a prefix of the list, in order and each once; a
    // result that is not negative means all of them, any other is the kernel's own last answer, and
    // giving up on EAGAIN takes 17 of them in a row.
    method SubmitBatch(aios: seq<Aio>, aiosSize: nat, priv: int, retries: int, kernel: Kernel)
      returns (r: int, newRetries: int)
      requires maxIodepth > 0 && |aios| <= aiosSize
      modifies kernel, aios
      ensures forall a :: a in aios ==> a.priv == priv
      ensures kernel.trace == old(kernel.trace) + Since(old(kernel.trace), kernel.trace)
      ensures var events := Since(old(kernel.trace), kernel.trace);
        && Conversation(|aios|, maxIodepth, events) && Over(|aios|, events) && Tells(|aios|, events, r)
        && newRetries == retries + Sleeps(events)
        && TotalTaken(events) <= |aios| && kernel.taken == old(kernel.taken) + aios[..TotalTaken(events)]
    {
      var attempts: int, delay := ATTEMPTS, FIRST_DELAY;
      newRetries := retries;
      var piocb := Prepare(aios, priv);
      var left := |piocb|;
      var done := 0;
      ghost var events: seq<Event> := [];
      assert aios[..0] == [];
      while left > 0
        invariant done + left == |aios| && left >= 0 && done >= 0
        invariant kernel.trace == old(kernel.trace) + events
        invariant kernel.taken == old(kernel.taken) + aios[..done] && TotalTaken(events) == done
        invariant Stands(|aios|, maxIodepth, events, attempts, delay)
        invariant newRetries == retries + Sleeps(events)
        modifies kernel
        decreases left, attempts
      {
        var offered := if left <= maxIodepth then left else maxIodepth;
        r := kernel.IoSubmit(piocb[done..done + offered]);
        if r < 0 {
          TraceGrows(old(kernel.trace), events, Failed(offered, r));
          if r == -EAGAIN {
            var mayRetry := attempts > 0;
            if mayRetry {
              RetryStands(|aios|, maxIodepth, events, attempts, delay, offered);
              events := events + [Failed(offered, r)];
              attempts := attempts - 1;
              kernel.Sleep(delay);
              TraceGrows(old(kernel.trace), events, Slept(delay));
              events := events + [Slept(delay)];
              delay := delay * 2;
              newRetries := newRetries + 1;
              continue;
            }
          }
          FailureTells(|aios|, maxIodepth, events, attempts, delay, offered, r);
          SinceIs(old(kernel.trace), events + [Failed(offered, r)]);
          return;
        }
        TakeStands(|aios|, maxIodepth, events, attempts, delay, offered, r);
        TraceGrows(old(kernel.trace), events, Took(offered, r));
        events := events + [Took(offered, r)];
        TakeMore(old(kernel.taken), aios, done, r);
        done := done + r;
        left := left - r;
        attempts := ATTEMPTS;
        delay := FIRST_DELAY;
      }
      SinceIs(old(kernel.trace), events);
      r := done;
      OverTells(|aios|, maxIodepth, events, r);
    }
  }
}
