// One submission on the queue as a transition system on values: tasks go to the queue pair in
// order, the drive completes any one of those in flight next. What every step keeps, that the queue
// never gets stuck, and what the drive and the user's memory hold in the end.
module IoModel {
  import opened Pool
  import opened Segments

  datatype Phase = Queued | InFlight | Finished

  // What is fixed about a task: a write sends `len` bytes from `buf` to the drive at `offset`; a read
  // fetches `len` bytes and copies `tmpLen` of them, `tmpOff` in, to `buf`.
  datatype Item = Item(write: bool, offset: nat, len: nat, buf: nat, tmpOff: nat, tmpLen: nat)

  // How often a context's completion callback has run, and its waiters have been woken. A context
  // with a private pointer has a callback.
  datatype Reports = Reports(callbacks: nat, wakeUps: nat) {
    function Told(priv: bool): Reports {
      if priv then this.(callbacks := callbacks + 1) else this.(wakeUps := wakeUps + 1)
    }
  }

  // What changes about a task.
  datatype Slot = Slot(phase: Phase, segs: seq<nat>, code: int, live: bool, extra: bool)

  // A submission: its tasks, whether they keep apart, whether they report to a primary task,
  // the return code they start with, the queue's depth limit, whether the context has a private
  // pointer, and the drive, the memory and the context's reports at the start. Completions come in
  // any order, so the data of tasks that do not keep apart is anyone's guess; all else is claimed of
  // them too.
  datatype Job = Job(
    items: seq<Item>,
    apart: bool,
    sub: bool,
    rc: int,
    maxDepth: nat,
    priv: bool,
    disk: seq<byte>,
    ram: seq<byte>,
    reports: Reports)

  // `flight` lists the tasks in the queue pair; `ref` and `primCode` are the primary task's.
  datatype State = State(
    depth: nat,
    free: seq<nat>,
    dma: Memory,
    disk: seq<byte>,
    ram: seq<byte>,
    flight: seq<nat>,
    running: int,
    totalNseg: int,
    reports: Reports,
    slots: seq<Slot>,
    ref: int,
    primCode: int)

  predicate Overlap(a: nat, la: nat, b: nat, lb: nat) {
    la > 0 && lb > 0 && a < b + lb && b < a + la
  }

  // A write shares no byte of the drive with another task, and no byte a read fills is
  // filled or sent by another.
  predicate Apart(a: Item, b: Item) {
    && (a.write || b.write ==> !Overlap(a.offset, a.len, b.offset, b.len))
    && (!a.write && !b.write ==> !Overlap(a.buf, a.tmpLen, b.buf, b.tmpLen))
    && (!a.write && b.write ==> !Overlap(a.buf, a.tmpLen, b.buf, b.len))
    && (a.write && !b.write ==> !Overlap(a.buf, a.len, b.buf, b.tmpLen))
  }

  predicate Fits(job: Job, t: Item) {
    && 0 < t.len <= SPLIT && t.offset + t.len <= |job.disk|
    && (t.write ==> job.rc == 0 && t.buf + t.len <= |job.ram|)
    && (!t.write ==> t.tmpOff <= SEGMENT && t.tmpOff + t.tmpLen <= t.len && t.buf + t.tmpLen <= |job.ram|)
  }

  ghost predicate JobOk(job: Job) {
    && (forall i {:trigger Fits(job, job.items[i])} :: 0 <= i < |job.items| ==> Fits(job, job.items[i]))
    && (job.apart ==> forall i, j {:trigger Apart(job.items[i], job.items[j])} ::
          0 <= i < j < |job.items| ==> Apart(job.items[i], job.items[j]))
    && (job.sub ==> job.rc != 0)
  }

  // The segments of each command in flight.
  function Held(s: State): (r: seq<seq<nat>>)
    ensures |r| == |s.flight|
    ensures forall j :: 0 <= j < |r| ==> r[j] == if s.flight[j] < |s.slots| then s.slots[s.flight[j]].segs else []
  {
    seq(|s.flight|, j requires 0 <= j < |s.flight| => if s.flight[j] < |s.slots| then s.slots[s.flight[j]].segs else [])
  }

  ghost predicate MemoryOk(s: State) {
    |s.dma| == POOL && Shaped(s.dma) && Partition(s.free, Held(s))
  }

  ghost predicate Counts(job: Job, s: State, k: nat) {
    && s.depth == |s.flight| <= job.maxDepth
    && s.running == |job.items| - k + |s.flight|
    && s.totalNseg == Sizes(Held(s))
    && s.reports == (if job.rc == 0 && s.running == 0 then job.reports.Told(job.priv) else job.reports)
    && (job.sub ==> s.ref == s.running && s.primCode == if s.running == 0 then 0 else job.rc)
  }

  ghost predicate Phases(job: Job, s: State, k: nat) {
    && k <= |job.items| == |s.slots|
    && (forall j :: 0 <= j < |s.flight| ==> s.flight[j] < k && s.slots[s.flight[j]].phase == InFlight)
    && Distinct(s.flight)
    && (forall i :: 0 <= i < |s.slots| ==> (i >= k <==> s.slots[i].phase == Queued))
    && (forall i :: 0 <= i < |s.slots| && s.slots[i].phase == InFlight ==> i in s.flight)
  }

  // What is known of a task in each phase.
  ghost predicate SlotOk(job: Job, s: State, t: Item, u: Slot)
    requires |s.dma| == POOL && Shaped(s.dma) && |s.disk| == |job.disk| && |s.ram| == |job.ram|
    requires Fits(job, t)
  {
    && !u.extra
    && match u.phase
       case Queued => u.live && u.segs == [] && u.code == job.rc
       case InFlight =>
         && u.live && u.code == job.rc && |u.segs| == SegCount(t.len) && InPool(s.dma, u.segs)
         && t.len <= |u.segs| * SEGMENT
         && (t.write && job.apart ==> Flat(s.dma, u.segs)[..t.len] == job.ram[t.buf..t.buf + t.len])
       case Finished =>
         && u.segs == [] && (u.live <==> job.rc != 0 && !job.sub) && (u.live ==> u.code == 0)
         && (job.apart ==> Done(job, s, t))
  }

  // The effect of a task has taken place.
  ghost predicate Done(job: Job, s: State, t: Item)
    requires |s.disk| == |job.disk| && |s.ram| == |job.ram| && Fits(job, t)
  {
    if t.write then s.disk[t.offset..t.offset + t.len] == job.ram[t.buf..t.buf + t.len]
    else s.ram[t.buf..t.buf + t.tmpLen] == job.disk[t.offset + t.tmpOff..t.offset + t.tmpOff + t.tmpLen]
  }

  ghost predicate Written(job: Job, s: State, x: int) {
    exists i :: 0 <= i < |s.slots| && i < |job.items| && s.slots[i].phase == Finished && job.items[i].write
      && job.items[i].offset <= x < job.items[i].offset + job.items[i].len
  }

  ghost predicate Filled(job: Job, s: State, x: int) {
    exists i :: 0 <= i < |s.slots| && i < |job.items| && s.slots[i].phase == Finished && !job.items[i].write
      && job.items[i].buf <= x < job.items[i].buf + job.items[i].tmpLen
  }

  // Bytes no finished task is for are as they were.
  ghost predicate Untouched(job: Job, s: State)
    requires |s.disk| == |job.disk| && |s.ram| == |job.ram|
  {
    && (forall x {:trigger Written(job, s, x)} :: 0 <= x < |s.disk| && !Written(job, s, x) ==> s.disk[x] == job.disk[x])
    && (forall x {:trigger Filled(job, s, x)} :: 0 <= x < |s.ram| && !Filled(job, s, x) ==> s.ram[x] == job.ram[x])
  }

  ghost predicate Contents(job: Job, s: State)
    requires JobOk(job) && |s.slots| == |job.items| && |s.dma| == POOL && Shaped(s.dma)
  {
    && |s.disk| == |job.disk| && |s.ram| == |job.ram|
    && (forall i {:trigger SlotOk(job, s, job.items[i], s.slots[i])} ::
          0 <= i < |s.slots| ==> SlotOk(job, s, job.items[i], s.slots[i]))
    && Untouched(job, s)
  }

  // With `k` tasks submitted.
  ghost predicate Inv(job: Job, s: State, k: nat) {
    JobOk(job) && MemoryOk(s) && Counts(job, s, k) && Phases(job, s, k) && Contents(job, s)
  }

  // ---- Steps ----

  // Task `k` gets its segments, a write's data is copied in, and it goes to the queue pair.
  ghost predicate Submits(job: Job, s: State, k: nat, v: State) {
    && k < |job.items| && k < |s.slots|
    && var t := job.items[k];
       var n := SegCount(t.len);
       && n <= |s.free|
       && v.depth == s.depth + 1 && v.free == s.free[n..] && v.flight == s.flight + [k]
       && v.totalNseg == s.totalNseg + n
       && v.slots == s.slots[k := s.slots[k].(phase := InFlight, segs := s.free[..n],
                                              extra := s.slots[k].extra || n > INLINE)]
       && v.disk == s.disk && v.ram == s.ram && v.running == s.running && v.reports == s.reports
       && v.ref == s.ref && v.primCode == s.primCode
       && |v.dma| == POOL && Shaped(v.dma) && InPool(v.dma, s.free[..n])
       && |s.dma| == POOL
       && (forall i :: 0 <= i < POOL && i !in s.free[..n] ==> v.dma[i] == s.dma[i])
       && t.len <= n * SEGMENT
       && (t.write && t.buf + t.len <= |s.ram| ==> Flat(v.dma, s.free[..n])[..t.len] == s.ram[t.buf..t.buf + t.len])
  }

  // The drive carries out the `j`th command in flight and its completion runs.
  ghost predicate Completes(job: Job, s: State, j: nat, v: State) {
    && |s.dma| == POOL && Shaped(s.dma)
    && j < |s.flight| && s.flight[j] < |s.slots| && s.flight[j] < |job.items|
    && var i := s.flight[j];
       var t := job.items[i];
       var u := s.slots[i];
       var sync := !t.write && u.code != 0;
       && InPool(s.dma, u.segs) && t.len <= |u.segs| * SEGMENT
       && t.offset + t.len <= |s.disk|
       && (!t.write ==> t.tmpOff + t.tmpLen <= t.len && t.buf + t.tmpLen <= |s.ram|)
       && Returned(s.free, u.segs, v.free)
       && v.depth == s.depth - 1 && v.flight == Without(s.flight, j)
       && v.disk == (if t.write then Splice(s.disk, t.offset, Flat(s.dma, u.segs)[..t.len]) else s.disk)
       && v.ram == (if t.write then s.ram
                    else Splice(s.ram, t.buf, s.disk[t.offset + t.tmpOff..t.offset + t.tmpOff + t.tmpLen]))
       && v.running == s.running - 1 && v.totalNseg == s.totalNseg - |u.segs|
       && v.reports == (if !sync && s.running == 1 then s.reports.Told(job.priv) else s.reports)
       && v.slots == s.slots[i := Slot(Finished, [], if sync && !job.sub then 0 else u.code, sync && !job.sub, u.extra)]
       && v.ref == (if job.sub then s.ref - 1 else s.ref)
       && v.primCode == (if job.sub && sync && s.ref == 1 then 0 else s.primCode)
       && |v.dma| == POOL && Shaped(v.dma)
       && (forall x :: 0 <= x < POOL && x !in u.segs ==> v.dma[x] == s.dma[x])
  }

  lemma SourceByte(job: Job, s: State, i: nat, x: nat)
    requires JobOk(job) && job.apart && i < |job.items| && job.items[i].write
    requires |s.disk| == |job.disk| && |s.ram| == |job.ram| && Untouched(job, s)
    requires job.items[i].buf <= x < job.items[i].buf + job.items[i].len && x < |s.ram|
    ensures s.ram[x] == job.ram[x]
  {
    forall j | 0 <= j < |job.items| && !job.items[j].write
      ensures !(job.items[j].buf <= x < job.items[j].buf + job.items[j].tmpLen)
    {
      if i < j { assert Apart(job.items[i], job.items[j]); } else { assert Apart(job.items[j], job.items[i]); }
    }
    assert !Filled(job, s, x);
  }

  // What a write is to send is still what the submission started with.
  lemma SourceUnchanged(job: Job, s: State, i: nat)
    requires JobOk(job) && job.apart && i < |job.items| && job.items[i].write
    requires |s.disk| == |job.disk| && |s.ram| == |job.ram| && Untouched(job, s)
    ensures var t := job.items[i];
      t.buf + t.len <= |s.ram| && s.ram[t.buf..t.buf + t.len] == job.ram[t.buf..t.buf + t.len]
  {
    var t := job.items[i];
    assert Fits(job, t);
    var a, b := s.ram[t.buf..t.buf + t.len], job.ram[t.buf..t.buf + t.len];
    forall n | 0 <= n < t.len ensures a[n] == b[n] {
      SourceByte(job, s, i, t.buf + n);
    }
  }

  lemma RangeByte(job: Job, s: State, i: nat, x: nat)
    requires JobOk(job) && job.apart && i < |job.items| && !job.items[i].write
    requires |s.disk| == |job.disk| && |s.ram| == |job.ram| && Untouched(job, s)
    requires job.items[i].offset <= x < job.items[i].offset + job.items[i].len && x < |s.disk|
    ensures s.disk[x] == job.disk[x]
  {
    forall j | 0 <= j < |job.items| && job.items[j].write
      ensures !(job.items[j].offset <= x < job.items[j].offset + job.items[j].len)
    {
      if i < j { assert Apart(job.items[i], job.items[j]); } else { assert Apart(job.items[j], job.items[i]); }
    }
    assert !Written(job, s, x);
  }

  // What a read asks for is still what the submission started with.
  lemma RangeUnchanged(job: Job, s: State, i: nat)
    requires JobOk(job) && job.apart && i < |job.items| && !job.items[i].write
    requires |s.disk| == |job.disk| && |s.ram| == |job.ram| && Untouched(job, s)
    ensures var t := job.items[i];
      t.offset + t.len <= |s.disk| && s.disk[t.offset..t.offset + t.len] == job.disk[t.offset..t.offset + t.len]
  {
    var t := job.items[i];
    assert Fits(job, t);
    var a, b := s.disk[t.offset..t.offset + t.len], job.disk[t.offset..t.offset + t.len];
    forall n | 0 <= n < t.len ensures a[n] == b[n] {
      RangeByte(job, s, i, t.offset + n);
    }
  }

  lemma SubmitKeepsCounts(job: Job, s: State, k: nat, v: State)
    requires Inv(job, s, k) && s.depth < job.maxDepth && Submits(job, s, k, v)
    ensures MemoryOk(v) && Counts(job, v, k + 1)
  {
    var n := SegCount(job.items[k].len);
    PartitionTake(s.free, Held(s), n);
    assert Held(v) == Held(s) + [s.free[..n]];
    assert Held(v)[..|Held(s)|] == Held(s);
  }

  // A task keeps what is known of it if its segments keep their bytes, or its effect stays.
  lemma SlotKept(job: Job, s: State, v: State, t: Item, u: Slot)
    requires |s.dma| == POOL && Shaped(s.dma) && |s.disk| == |job.disk| && |s.ram| == |job.ram|
    requires |v.dma| == POOL && Shaped(v.dma) && |v.disk| == |job.disk| && |v.ram| == |job.ram|
    requires Fits(job, t) && SlotOk(job, s, t, u)
    requires u.phase == InFlight ==> forall m :: 0 <= m < |u.segs| ==> v.dma[u.segs[m]] == s.dma[u.segs[m]]
    requires u.phase == Finished && job.apart ==> Done(job, v, t)
    ensures SlotOk(job, v, t, u)
  {
    if u.phase == InFlight {
      FlatUnchanged(s.dma, v.dma, u.segs);
    }
  }

  lemma SubmitKeepsContents(job: Job, s: State, k: nat, v: State)
    requires Inv(job, s, k) && Submits(job, s, k, v)
    ensures Contents(job, v)
  {
    var t := job.items[k];
    assert Fits(job, t) && SlotOk(job, s, t, s.slots[k]);
    if t.write && job.apart { SourceUnchanged(job, s, k); }
    assert SlotOk(job, v, t, v.slots[k]);
    forall i | 0 <= i < |v.slots| ensures SlotOk(job, v, job.items[i], v.slots[i]) {
      if i != k { SubmitKeepsOther(job, s, k, v, i); }
    }
    SameDone(job, s, v);
  }

  lemma SameDone(job: Job, s: State, v: State)
    requires |v.slots| == |s.slots|
    requires forall i :: 0 <= i < |s.slots| ==> (v.slots[i].phase == Finished <==> s.slots[i].phase == Finished)
    ensures forall x :: Written(job, v, x) == Written(job, s, x) && Filled(job, v, x) == Filled(job, s, x)
  {
  }

  lemma SubmitKeepsOther(job: Job, s: State, k: nat, v: State, i: nat)
    requires Inv(job, s, k) && Submits(job, s, k, v) && i < |s.slots| && i != k
    ensures Fits(job, job.items[i]) && |v.disk| == |job.disk| && |v.ram| == |job.ram|
    ensures SlotOk(job, v, job.items[i], s.slots[i])
  {
    var u := s.slots[i];
    assert Fits(job, job.items[i]) && SlotOk(job, s, job.items[i], u);
    if u.phase == InFlight {
      var j :| 0 <= j < |s.flight| && s.flight[j] == i;
      forall m | 0 <= m < |u.segs| ensures v.dma[u.segs[m]] == s.dma[u.segs[m]] {
        FreeNotOwned(s.free, Held(s), j, u.segs[m]);
      }
    }
    SlotKept(job, s, v, job.items[i], u);
  }

  lemma SubmitKeepsPhases(job: Job, s: State, k: nat, v: State)
    requires Phases(job, s, k) && Submits(job, s, k, v)
    ensures Phases(job, v, k + 1)
  {
    DistinctAppend(s.flight, k);
    assert v.flight[|s.flight|] == k;
    forall i | 0 <= i < |v.slots| && v.slots[i].phase == InFlight ensures i in v.flight {
      if i != k { assert i in s.flight; }
    }
  }

  lemma SubmitKeeps(job: Job, s: State, k: nat, v: State)
    requires Inv(job, s, k) && s.depth < job.maxDepth && Submits(job, s, k, v)
    ensures Inv(job, v, k + 1)
  {
    SubmitKeepsCounts(job, s, k, v);
    SubmitKeepsPhases(job, s, k, v);
    SubmitKeepsContents(job, s, k, v);
  }

  lemma {:induction false} SizesWithout(lists: seq<seq<nat>>, i: nat)
    requires i < |lists|
    ensures Sizes(Without(lists, i)) + |lists[i]| == Sizes(lists)
    decreases |lists|
  {
    var n := |lists| - 1;
    if i == n {
      assert Without(lists, i) == lists[..n];
    } else {
      SizesWithout(lists[..n], i);
      WithoutEarlier(lists, i);
      var w := Without(lists[..n], i);
      assert (w + [lists[n]])[..|w|] == w;
    }
  }

  lemma HeldAfterCompletion(s: State, j: nat, v: State, u: Slot)
    requires Distinct(s.flight) && j < |s.flight| && s.flight[j] < |s.slots|
    requires v.flight == Without(s.flight, j) && v.slots == s.slots[s.flight[j] := u]
    ensures Held(v) == Without(Held(s), j) && Held(s)[j] == s.slots[s.flight[j]].segs
  {
    var h := Held(s);
    OnePlace(s.flight, j);
    forall m | 0 <= m < |v.flight| ensures Held(v)[m] == Without(h, j)[m] {
      HeldAt(s, v, j, m, if m < j then m else m + 1, u);
    }
  }

  lemma HeldAt(s: State, v: State, j: nat, m: nat, n: nat, u: Slot)
    requires j < |s.flight| && s.flight[j] < |s.slots| && v.slots == s.slots[s.flight[j] := u]
    requires m < |v.flight| && n < |s.flight| && v.flight[m] == s.flight[n] != s.flight[j]
    ensures Held(v)[m] == Held(s)[n]
  {
  }

  lemma CompleteKeepsCounts(job: Job, s: State, k: nat, j: nat, v: State)
    requires Inv(job, s, k) && Completes(job, s, j, v)
    ensures MemoryOk(v) && Counts(job, v, k)
  {
    HeldAfterCompletion(s, j, v, v.slots[s.flight[j]]);
    PartitionReturn(s.free, Held(s), j, v.free);
    SizesWithout(Held(s), j);
    assert SlotOk(job, s, job.items[s.flight[j]], s.slots[s.flight[j]]);
  }

  lemma WithoutDistinct(list: seq<nat>, j: nat)
    requires Distinct(list) && j < |list|
    ensures Distinct(Without(list, j)) && list[j] !in Without(list, j)
    ensures forall x :: x in list && x != list[j] ==> x in Without(list, j)
    ensures forall x :: x in Without(list, j) ==> x in list
  {
    var w := Without(list, j);
    OnePlace(list, j);
    forall x | x in list && x != list[j] ensures x in w {
      var n :| 0 <= n < |list| && list[n] == x;
      assert w[if n < j then n else n - 1] == x;
    }
    forall m: nat, n: nat | m < n < |w| ensures Differ(w, m, n) {
      assert Differ(list, if m < j then m else m + 1, if n < j then n else n + 1);
    }
  }

  lemma CompleteKeepsPhases(job: Job, s: State, k: nat, j: nat, v: State)
    requires Phases(job, s, k) && Completes(job, s, j, v)
    ensures Phases(job, v, k)
  {
    WithoutDistinct(s.flight, j);
    forall m | 0 <= m < |v.slots| ensures v.slots[m].phase == InFlight ==> m in v.flight {
      if s.slots[m].phase == InFlight && m != s.flight[j] {
        assert m in s.flight;
      }
    }
  }

  // A completion changes no bytes but those its task is for.
  lemma CompleteTouches(job: Job, s: State, j: nat, v: State)
    requires Completes(job, s, j, v)
    ensures |v.disk| == |s.disk| && |v.ram| == |s.ram|
    ensures var t := job.items[s.flight[j]];
      && (forall x :: 0 <= x < |s.disk| && !(t.write && t.offset <= x < t.offset + t.len) ==> v.disk[x] == s.disk[x])
      && (forall x :: 0 <= x < |s.ram| && !(!t.write && t.buf <= x < t.buf + t.tmpLen) ==> v.ram[x] == s.ram[x])
  {
  }

  lemma UntouchedStays(job: Job, s: State, i: nat, v: State)
    requires |v.slots| == |s.slots| == |job.items| && i < |s.slots| && v.slots[i].phase == Finished
    requires forall m :: 0 <= m < |s.slots| && m != i ==> v.slots[m] == s.slots[m]
    requires s.slots[i].phase != Finished
    requires |v.disk| == |s.disk| == |job.disk| && |v.ram| == |s.ram| == |job.ram| && Untouched(job, s)
    requires var t := job.items[i];
      && (forall x :: 0 <= x < |s.disk| && !(t.write && t.offset <= x < t.offset + t.len) ==> v.disk[x] == s.disk[x])
      && (forall x :: 0 <= x < |s.ram| && !(!t.write && t.buf <= x < t.buf + t.tmpLen) ==> v.ram[x] == s.ram[x])
    ensures Untouched(job, v)
  {
    forall x | 0 <= x < |v.disk| && !Written(job, v, x) ensures v.disk[x] == job.disk[x] {
      OneMoreDone(job, s, i, v, x);
    }
    forall x | 0 <= x < |v.ram| && !Filled(job, v, x) ensures v.ram[x] == job.ram[x] {
      OneMoreDone(job, s, i, v, x);
    }
  }

  lemma CompleteKeepsContents(job: Job, s: State, k: nat, j: nat, v: State)
    requires Inv(job, s, k) && Completes(job, s, j, v)
    ensures Contents(job, v)
  {
    CompleteTouches(job, s, j, v);
    forall m | 0 <= m < |v.slots| ensures SlotOk(job, v, job.items[m], v.slots[m]) {
      if m == s.flight[j] {
        CompletedSlot(job, s, k, j, v);
      } else {
        OthersKeepSlots(job, s, k, j, v, m);
      }
    }
    UntouchedStays(job, s, s.flight[j], v);
  }

  lemma CompletedSlot(job: Job, s: State, k: nat, j: nat, v: State)
    requires Inv(job, s, k) && Completes(job, s, j, v)
    ensures |v.disk| == |job.disk| && |v.ram| == |job.ram| && Fits(job, job.items[s.flight[j]])
    ensures SlotOk(job, v, job.items[s.flight[j]], v.slots[s.flight[j]])
  {
    var i := s.flight[j];
    CompleteTouches(job, s, j, v);
    assert Fits(job, job.items[i]) && SlotOk(job, s, job.items[i], s.slots[i]);
    if job.apart { FlyingIsDone(job, s, j, v); }
  }

  lemma FlyingIsDone(job: Job, s: State, j: nat, v: State)
    requires JobOk(job) && job.apart && Completes(job, s, j, v)
    requires |s.disk| == |job.disk| && |s.ram| == |job.ram| && Untouched(job, s)
    requires Fits(job, job.items[s.flight[j]]) && s.slots[s.flight[j]].phase == InFlight
    requires SlotOk(job, s, job.items[s.flight[j]], s.slots[s.flight[j]])
    ensures |v.disk| == |job.disk| && |v.ram| == |job.ram|
    ensures Done(job, v, job.items[s.flight[j]])
  {
    if !job.items[s.flight[j]].write { RangeUnchanged(job, s, s.flight[j]); }
    CompletedIsDone(job, s, j, v);
  }

  lemma OneMoreDone(job: Job, s: State, i: nat, v: State, x: int)
    requires |v.slots| == |s.slots| == |job.items| && i < |s.slots| && v.slots[i].phase == Finished
    requires forall m :: 0 <= m < |s.slots| && m != i ==> v.slots[m] == s.slots[m]
    ensures Written(job, s, x) ==> Written(job, v, x)
    ensures Filled(job, s, x) ==> Filled(job, v, x)
    ensures var t := job.items[i];
      && (t.write && t.offset <= x < t.offset + t.len ==> Written(job, v, x))
      && (!t.write && t.buf <= x < t.buf + t.tmpLen ==> Filled(job, v, x))
  {
  }

  lemma SliceOfSlice(a: seq<byte>, b: seq<byte>, from: nat, len: nat, off: nat, n: nat)
    requires from + len <= |a| == |b| && off + n <= len && a[from..from + len] == b[from..from + len]
    ensures a[from + off..from + off + n] == b[from + off..from + off + n]
  {
    var l, r := a[from + off..from + off + n], b[from + off..from + off + n];
    forall k | 0 <= k < n ensures l[k] == r[k] {
      assert a[from..from + len][off + k] == b[from..from + len][off + k];
    }
  }

  lemma WrittenIsDone(job: Job, s: State, v: State, t: Item, segs: seq<nat>)
    requires |s.dma| == POOL && Shaped(s.dma) && InPool(s.dma, segs) && Fits(job, t) && t.write
    requires |s.disk| == |job.disk| && |v.ram| == |job.ram| && t.len <= |segs| * SEGMENT
    requires Flat(s.dma, segs)[..t.len] == job.ram[t.buf..t.buf + t.len]
    requires v.disk == Splice(s.disk, t.offset, Flat(s.dma, segs)[..t.len])
    ensures |v.disk| == |job.disk| && Done(job, v, t)
  {
    SpliceReads(s.disk, t.offset, Flat(s.dma, segs)[..t.len]);
  }

  lemma SpliceReads(to: seq<byte>, off: nat, data: seq<byte>)
    requires off + |data| <= |to|
    ensures Splice(to, off, data)[off..off + |data|] == data
  {
  }

  lemma ReadIsDone(job: Job, s: State, v: State, t: Item)
    requires Fits(job, t) && !t.write
    requires |s.disk| == |job.disk| == |v.disk| && |s.ram| == |job.ram|
    requires s.disk[t.offset..t.offset + t.len] == job.disk[t.offset..t.offset + t.len]
    requires v.ram == Splice(s.ram, t.buf, s.disk[t.offset + t.tmpOff..t.offset + t.tmpOff + t.tmpLen])
    ensures |v.ram| == |job.ram| && Done(job, v, t)
  {
    SliceOfSlice(s.disk, job.disk, t.offset, t.len, t.tmpOff, t.tmpLen);
    SpliceReads(s.ram, t.buf, s.disk[t.offset + t.tmpOff..t.offset + t.tmpOff + t.tmpLen]);
  }

  lemma CompletedIsDone(job: Job, s: State, j: nat, v: State)
    requires Completes(job, s, j, v)
    requires |s.disk| == |job.disk| && |s.ram| == |job.ram|
    requires var t := job.items[s.flight[j]];
      && Fits(job, t)
      && (t.write ==> Flat(s.dma, s.slots[s.flight[j]].segs)[..t.len] == job.ram[t.buf..t.buf + t.len])
      && (!t.write ==> s.disk[t.offset..t.offset + t.len] == job.disk[t.offset..t.offset + t.len])
    ensures |v.disk| == |job.disk| && |v.ram| == |job.ram| && Done(job, v, job.items[s.flight[j]])
  {
    CompleteTouches(job, s, j, v);
    var t := job.items[s.flight[j]];
    if t.write {
      WrittenIsDone(job, s, v, t, s.slots[s.flight[j]].segs);
    } else {
      ReadIsDone(job, s, v, t);
    }
  }

  // Neither the segments nor the results of another task are touched.
  lemma OthersKeepSlots(job: Job, s: State, k: nat, j: nat, v: State, m: nat)
    requires Inv(job, s, k) && Completes(job, s, j, v) && m < |s.slots| && m != s.flight[j]
    ensures Fits(job, job.items[m]) && |v.disk| == |job.disk| && |v.ram| == |job.ram|
    ensures SlotOk(job, v, job.items[m], s.slots[m])
  {
    var i := s.flight[j];
    assert Fits(job, job.items[i]) && Fits(job, job.items[m]);
    assert SlotOk(job, s, job.items[m], s.slots[m]);
    CompleteTouches(job, s, j, v);
    if s.slots[m].phase == InFlight {
      SegmentsStay(job, s, k, j, v, m);
    } else if s.slots[m].phase == Finished && job.apart {
      if i < m { assert Apart(job.items[i], job.items[m]); } else { assert Apart(job.items[m], job.items[i]); }
      ApartKeepsDone(job, s, v, job.items[i], job.items[m]);
    }
    SlotKept(job, s, v, job.items[m], s.slots[m]);
  }

  lemma SegmentsStay(job: Job, s: State, k: nat, j: nat, v: State, m: nat)
    requires MemoryOk(s) && Phases(job, s, k) && Completes(job, s, j, v)
    requires m < |s.slots| && m != s.flight[j] && s.slots[m].phase == InFlight && InPool(s.dma, s.slots[m].segs)
    ensures forall q :: 0 <= q < |s.slots[m].segs| ==> v.dma[s.slots[m].segs[q]] == s.dma[s.slots[m].segs[q]]
  {
    var n :| 0 <= n < |s.flight| && s.flight[n] == m;
    var mine := s.slots[m].segs;
    assert Held(s)[n] == mine && Held(s)[j] == s.slots[s.flight[j]].segs;
    forall q | 0 <= q < |mine| ensures v.dma[mine[q]] == s.dma[mine[q]] {
      OwnedDisjoint(s.free, Held(s), n, j, mine[q]);
    }
  }

  lemma ApartKeepsDone(job: Job, s: State, v: State, t: Item, o: Item)
    requires |s.disk| == |job.disk| == |v.disk| && |s.ram| == |job.ram| == |v.ram|
    requires Fits(job, t) && Fits(job, o) && Done(job, s, o)
    requires Apart(t, o) || Apart(o, t)
    requires forall x :: 0 <= x < |s.disk| && !(t.write && t.offset <= x < t.offset + t.len) ==> v.disk[x] == s.disk[x]
    requires forall x :: 0 <= x < |s.ram| && !(!t.write && t.buf <= x < t.buf + t.tmpLen) ==> v.ram[x] == s.ram[x]
    ensures Done(job, v, o)
  {
  }

  lemma CompleteKeeps(job: Job, s: State, k: nat, j: nat, v: State)
    requires Inv(job, s, k) && Completes(job, s, j, v)
    ensures Inv(job, v, k)
  {
    CompleteKeepsCounts(job, s, k, j, v);
    CompleteKeepsPhases(job, s, k, j, v);
    CompleteKeepsContents(job, s, k, j, v);
  }

  // ---- The queue never gets stuck and every run is bounded ----

  // With nothing in flight the whole pool is free and any task fits: a failed allocation is
  // always followed by a completion that frees segments.
  lemma NeverStuck(job: Job, s: State, k: nat)
    requires Inv(job, s, k) && k < |job.items|
    ensures s.flight == [] ==> |s.free| == POOL
    ensures SegCount(job.items[k].len) > |s.free| ==> s.depth > 0
  {
    assert Fits(job, job.items[k]);
    SegCountFits(job.items[k].len);
    if s.flight == [] { assert Held(s) == []; }
  }

  datatype Step = Submit | Complete(j: nat)

  ghost predicate Next(job: Job, s: State, k: nat, step: Step, v: State, l: nat) {
    match step
    case Submit => s.depth < job.maxDepth && Submits(job, s, k, v) && l == k + 1
    case Complete(j) => Completes(job, s, j, v) && l == k
  }

  // Nothing submitted yet, and the queue at rest.
  ghost predicate Initial(job: Job, s: State) {
    && s.depth == 0 && s.flight == [] && Partition(s.free, []) && |s.dma| == POOL && Shaped(s.dma)
    && s.disk == job.disk && s.ram == job.ram
    && s.running == |job.items| > 0 && s.totalNseg == 0 && s.reports == job.reports
    && |s.slots| == |job.items|
    && (forall i :: 0 <= i < |s.slots| ==> s.slots[i] == Slot(Queued, [], job.rc, true, false))
    && (job.sub ==> s.ref == |job.items| && s.primCode == job.rc)
  }

  lemma InitialInv(job: Job, s: State)
    requires JobOk(job) && Initial(job, s)
    ensures Inv(job, s, 0)
  {
    assert Held(s) == [];
    forall i | 0 <= i < |s.slots| ensures SlotOk(job, s, job.items[i], s.slots[i]) {
      assert Fits(job, job.items[i]);
    }
  }

  function Work(job: Job, s: State, k: nat): int {
    2 * (|job.items| - k) + |s.flight|
  }

  lemma NextKeeps(job: Job, s: State, k: nat, step: Step, v: State, l: nat)
    requires Inv(job, s, k) && Next(job, s, k, step, v, l)
    ensures Inv(job, v, l)
    ensures 0 <= Work(job, v, l) < Work(job, s, k)
  {
    match step
    case Submit => SubmitKeeps(job, s, k, v);
    case Complete(j) => CompleteKeeps(job, s, k, j, v);
  }

  // A run: states with the number of tasks submitted in each.
  ghost predicate IsRun(job: Job, states: seq<State>, ks: seq<nat>, steps: seq<Step>) {
    && |states| == |ks| == |steps| + 1
    && Initial(job, states[0]) && ks[0] == 0
    && forall n {:trigger steps[n]} :: 0 <= n < |steps| ==>
         Next(job, states[n], ks[n], steps[n], states[n + 1], ks[n + 1])
  }

  lemma {:induction false} RunKeeps(job: Job, states: seq<State>, ks: seq<nat>, steps: seq<Step>, n: nat)
    requires JobOk(job) && IsRun(job, states, ks, steps) && n < |states|
    ensures Inv(job, states[n], ks[n])
    ensures n + Work(job, states[n], ks[n]) <= 2 * |job.items|
    decreases n
  {
    if n == 0 {
      InitialInv(job, states[0]);
    } else {
      RunKeeps(job, states, ks, steps, n - 1);
      NextKeeps(job, states[n - 1], ks[n - 1], steps[n - 1], states[n], ks[n]);
    }
  }

  // What holds once the context has nothing running.
  ghost predicate AllDone(job: Job, s: State) {
    && JobOk(job)
    && s.flight == [] && s.depth == 0 && s.totalNseg == 0 && |s.free| == POOL && Partition(s.free, [])
    && |s.dma| == POOL && Shaped(s.dma)
    && |s.disk| == |job.disk| && |s.ram| == |job.ram|
    && |s.slots| == |job.items|
    && (forall i {:trigger Fits(job, job.items[i])} :: 0 <= i < |job.items| ==>
          && Fits(job, job.items[i]) && (job.apart ==> Done(job, s, job.items[i])))
    && (forall i :: 0 <= i < |s.slots| ==>
          && s.slots[i].phase == Finished && s.slots[i].segs == [] && !s.slots[i].extra
          && (s.slots[i].live <==> job.rc != 0 && !job.sub)
          && (s.slots[i].live ==> s.slots[i].code == 0))
    && Untouched(job, s)
    && s.reports == (if job.rc == 0 then job.reports.Told(job.priv) else job.reports)
    && (job.sub ==> s.ref == 0 && s.primCode == 0)
  }

  lemma NothingRunning(job: Job, s: State, k: nat)
    requires Inv(job, s, k) && s.running == 0
    ensures AllDone(job, s) && k == |job.items|
  {
    assert Held(s) == [];
    forall i | 0 <= i < |job.items|
      ensures Fits(job, job.items[i]) && (job.apart ==> Done(job, s, job.items[i]))
      ensures s.slots[i].phase == Finished && s.slots[i].segs == [] && !s.slots[i].extra
      ensures s.slots[i].live <==> job.rc != 0 && !job.sub
      ensures s.slots[i].live ==> s.slots[i].code == 0
    {
      assert Fits(job, job.items[i]) && SlotOk(job, s, job.items[i], s.slots[i]);
      assert s.slots[i].phase != InFlight;
    }
  }

  lemma CompletionOf(job: Job, s: State, i: nat, t: Item, u: Slot) returns (v: State)
    requires |s.dma| == POOL && Shaped(s.dma) && InPool(s.dma, u.segs) && t.len <= |u.segs| * SEGMENT
    requires s.flight != [] && s.flight[0] == i && s.depth > 0
    requires i < |s.slots| && i < |job.items| && t == job.items[i] && u == s.slots[i]
    requires t.offset + t.len <= |s.disk|
    requires !t.write ==> t.tmpOff + t.tmpLen <= t.len && t.buf + t.tmpLen <= |s.ram|
    ensures Completes(job, s, 0, v)
  {
    var sync := !t.write && u.code != 0;
    ReturnedIff(s.free, u.segs, s.free + u.segs);
    v := State(
      s.depth - 1, s.free + u.segs, s.dma,
      if t.write then Splice(s.disk, t.offset, Flat(s.dma, u.segs)[..t.len]) else s.disk,
      if t.write then s.ram else Splice(s.ram, t.buf, s.disk[t.offset + t.tmpOff..t.offset + t.tmpOff + t.tmpLen]),
      Without(s.flight, 0), s.running - 1, s.totalNseg - |u.segs|,
      if !sync && s.running == 1 then s.reports.Told(job.priv) else s.reports,
      s.slots[i := Slot(Finished, [], if sync && !job.sub then 0 else u.code, sync && !job.sub, u.extra)],
      if job.sub then s.ref - 1 else s.ref,
      if job.sub && sync && s.ref == 1 then 0 else s.primCode);
  }

  // Carrying out and completing a command in flight is always possible.
  lemma CanComplete(job: Job, s: State, k: nat) returns (v: State)
    requires Inv(job, s, k) && s.flight != []
    ensures Completes(job, s, 0, v)
  {
    var i := s.flight[0];
    assert Fits(job, job.items[i]) && SlotOk(job, s, job.items[i], s.slots[i]);
    v := CompletionOf(job, s, i, job.items[i], s.slots[i]);
  }

  // The segments with a write's bytes in them, as the copy into them leaves them.
  lemma CanFill(s: State, t: Item, segs: seq<nat>) returns (dma: Memory)
    requires |s.dma| == POOL && Shaped(s.dma) && InPool(s.dma, segs) && Distinct(segs)
    requires |segs| == SegCount(t.len) && 0 < t.len && t.buf + t.len <= |s.ram|
    ensures |dma| == POOL && Shaped(dma) && InPool(dma, segs) && t.len <= |segs| * SEGMENT
    ensures forall i :: 0 <= i < POOL && i !in segs ==> dma[i] == s.dma[i]
    ensures Flat(dma, segs)[..t.len] == s.ram[t.buf..t.buf + t.len]
  {
    var sges := Drain(t.len, ResetCursor(t.len, 0));
    SegCountFits(t.len);
    ResetThenDrain(t.len, 0);
    DrainInSlots(t.len, ResetCursor(t.len, 0));
    CoversTotal(sges, 0, t.len);
    ScatterCovers(s.dma, segs, sges, s.ram[t.buf..t.buf + t.len], 0, t.len);
    dma := Scatter(s.dma, segs, sges, s.ram[t.buf..t.buf + t.len]);
    assert Flat(dma, segs)[..t.len] == s.ram[t.buf..t.buf + t.len];
  }

  // With nothing in flight the next task can go out.
  lemma CanSubmit(job: Job, s: State, k: nat) returns (v: State)
    requires Inv(job, s, k) && s.flight == [] && k < |job.items|
    ensures Submits(job, s, k, v)
  {
    var t := job.items[k];
    var n := SegCount(t.len);
    NeverStuck(job, s, k);
    FreeDistinct(s.free, Held(s));
    assert Fits(job, t);
    SegCountFits(t.len);
    var dma := s.dma;
    DistinctPrefix(s.free, n);
    if t.write { dma := CanFill(s, t, s.free[..n]); }
    v := s.(depth := s.depth + 1, free := s.free[n..], dma := dma, flight := s.flight + [k],
            totalNseg := s.totalNseg + n,
            slots := s.slots[k := s.slots[k].(phase := InFlight, segs := s.free[..n],
                                              extra := s.slots[k].extra || n > INLINE)]);
  }

  // While something is running the system has a step to take.
  lemma CanGoOn(job: Job, s: State, k: nat)
    requires Inv(job, s, k) && s.running > 0 && job.maxDepth > 0
    ensures exists step, v, l :: Next(job, s, k, step, v, l)
  {
    if s.flight != [] {
      var v := CanComplete(job, s, k);
      assert Next(job, s, k, Complete(0), v, k);
    } else {
      var v := CanSubmit(job, s, k);
      assert Next(job, s, k, Submit, v, k + 1);
    }
  }

  // Whatever the order of completions and however often the queue or the pool was full: a
  // run takes at most two steps a task and never gets stuck, and when nothing is left running every task
  // has had exactly its effect, nothing else has changed, the context has been told once and
  // the pool is whole again.
  lemma {:induction false} AnyOrder(job: Job, states: seq<State>, ks: seq<nat>, steps: seq<Step>)
    requires JobOk(job) && job.maxDepth > 0 && IsRun(job, states, ks, steps)
    ensures |steps| <= 2 * |job.items|
    ensures states[|steps|].running >= 0
    ensures states[|steps|].running == 0 ==> AllDone(job, states[|steps|])
    ensures states[|steps|].running > 0 ==>
      exists step, v, l :: Next(job, states[|steps|], ks[|steps|], step, v, l)
  {
    var n := |steps|;
    RunKeeps(job, states, ks, steps, n);
    if states[n].running == 0 {
      NothingRunning(job, states[n], ks[n]);
    } else {
      CanGoOn(job, states[n], ks[n]);
    }
  }
}
