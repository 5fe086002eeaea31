// The block device on top of the queue: reads and writes of any length, and what a caller sees of
// them. There is one device and one submitting thread, so the thread's queue is a field.
module NvmeDevice {
  import opened BitOp
  import opened IoModel
  import opened NvmeQueue
  import opened Pool
  import opened Segments
  import opened Tiling

  // A task that has been queued but not submitted.
  ghost predicate IsQueued(t: Task, item: Item, ioc: IoContext, prim: Task?, rc: int)
    reads t`ctx, t`buf, t`tmpOff, t`tmpLen, t`live, t`nseg, t`segs, t`extraSegs, t`returnCode
  {
    && t.ctx == ioc && t.primary == prim && ItemOf(t) == item
    && t.live && t.nseg == 0 && t.segs == [] && !t.extraSegs && t.returnCode == rc
  }

  // The context's list holds a task for each of `items`, in order.
  ghost predicate Holds(ioc: IoContext, items: seq<Item>, prim: Task?, rc: int)
    reads ioc`chain, ioc.chain
  {
    && |ioc.chain| == |items|
    && forall i {:trigger IsQueued(ioc.chain[i], items[i], ioc, prim, rc)} ::
         0 <= i < |items| ==> IsQueued(ioc.chain[i], items[i], ioc, prim, rc)
  }

  method AppendQueued(t: Task, ioc: IoContext,
                      ghost items: seq<Item>, ghost item: Item, ghost prim: Task?, ghost rc: int)
    requires ioc.Valid() && Holds(ioc, items, prim, rc) && t !in ioc.chain && t.next == null
    requires IsQueued(t, item, ioc, prim, rc)
    modifies ioc`first, ioc`last, ioc`numPending, ioc`chain, NonNull(ioc.last)`next
    ensures ioc.Valid() && ioc.chain == old(ioc.chain) + [t] && Holds(ioc, items + [item], prim, rc)
  {
    ioc.AppendTask(t);
    forall i | 0 <= i < |items + [item]| ensures IsQueued(ioc.chain[i], (items + [item])[i], ioc, prim, rc) {
      if i < |items| {
        assert old(IsQueued(ioc.chain[i], items[i], ioc, prim, rc));
      }
    }
  }

  ghost predicate Grown(before: seq<Task>, after: seq<Task>) {
    |before| <= |after| && forall j :: 0 <= j < |before| ==> after[j] == before[j]
  }

  lemma OneMore(items: seq<Item>, all: seq<Item>, i: nat)
    requires i < |all|
    ensures items + all[..i + 1] == items + all[..i] + [all[i]]
  {
  }

  // One task of a write.
  method QueueWrite(at: nat, size: nat, from: nat, ioc: IoContext, ghost items: seq<Item>)
    requires ioc.Valid() && Holds(ioc, items, null, 0)
    modifies ioc`first, ioc`last, ioc`numPending, ioc`chain, NonNull(ioc.last)`next
    ensures ioc.Valid() && Holds(ioc, items + [Item(true, at, size, from, 0, 0)], null, 0)
    ensures |ioc.chain| == |old(ioc.chain)| + 1 && Grown(old(ioc.chain), ioc.chain) && fresh(ioc.chain[|items|])
  {
    var t := new Task(WriteCommand, at, size, 0, null);
    t.buf := from;
    t.ctx := ioc;
    assert t !in ioc.chain;
    assert IsQueued(t, Item(true, at, size, from, 0, 0), ioc, null, 0);
    AppendQueued(t, ioc, items, Item(true, at, size, from, 0, 0), null, 0);
  }

  // Offsets and addresses are 64-bit words.
  method WriteSplit(off: Word, len: Word, buf: Word, ioc: IoContext, ghost items: seq<Item>)
    requires ioc.Valid() && Holds(ioc, items, null, 0)
    modifies ioc`first, ioc`last, ioc`numPending, ioc`chain, Members(ioc.chain)`next
    ensures ioc.Valid() && Holds(ioc, items + InWords(WriteItems(off, len, buf)), null, 0)
    ensures Grown(old(ioc.chain), ioc.chain) && forall j :: |items| <= j < |ioc.chain| ==> fresh(ioc.chain[j])
  {
    var remain, begin := len, 0;
    ghost var i, all, done := 0, InWords(WriteItems(off, len, buf)), items;
    while remain > 0
      invariant remain + begin == len && i <= |all|
      invariant if remain > 0 then begin == i * SPLIT else i == |all|
      invariant done == items + all[..i] && ioc.Valid() && Holds(ioc, done, null, 0)
      invariant Grown(old(ioc.chain), ioc.chain) && forall j :: |items| <= j < |ioc.chain| ==> fresh(ioc.chain[j])
      decreases remain
    {
      var size := Min(remain, SPLIT);
      assert all[i] == InWord(WriteItem(off, len, buf, i));
      QueueWrite((off + begin) % WORD, size, (buf + begin) % WORD, ioc, done);
      OneMore(items, all, i);
      done := done + [all[i]];
      remain := remain - size;
      begin := begin + size;
      i := i + 1;
    }
    assert all[..i] == all;
  }

  // The primary task itself does a read that one task can do; otherwise subtasks report to it.
  function ReportsTo(primary: Task?, alignedLen: nat): Task? {
    if alignedLen <= SPLIT then null else primary
  }

  // One task of a read: the primary itself when `alone`, otherwise a new one.
  method QueueRead(begin: nat, size: nat, to: nat, tmpOff: nat, tmpLen: nat,
                   ioc: IoContext, primary: Task?, alone: bool,
                   ghost items: seq<Item>, ghost rc: int) returns (t: Task)
    requires ioc.Valid() && Holds(ioc, items, if alone then null else primary, rc)
    requires primary !in ioc.chain && rc == if primary == null then 0 else primary.returnCode
    requires alone ==> primary != null && IsWhole(primary, begin, size)
    modifies ioc`first, ioc`last, ioc`numPending, ioc`chain, NonNull(ioc.last)`next
    modifies NonNull(primary)`ctx, NonNull(primary)`buf, NonNull(primary)`tmpOff, NonNull(primary)`tmpLen
    modifies NonNull(primary)`ref
    ensures ioc.Valid()
    ensures Holds(ioc, items + [Item(false, begin, size, to, tmpOff, tmpLen)], if alone then null else primary, rc)
    ensures ioc.chain == old(ioc.chain) + [t] && if alone then t == primary else fresh(t)
    ensures !alone && primary != null ==> primary.ref == old(primary.ref) + 1
  {
    if alone {
      t := primary;
    } else {
      t := new Task(ReadCommand, begin, size, 0, primary);
    }
    t.ctx := ioc;
    t.buf, t.tmpOff, t.tmpLen := to, tmpOff, tmpLen;
    ghost var item := Item(false, begin, size, to, tmpOff, tmpLen);
    assert t !in ioc.chain;
    assert IsQueued(t, item, ioc, if alone then null else primary, rc);
    forall i | 0 <= i < |items| ensures IsQueued(ioc.chain[i], items[i], ioc, if alone then null else primary, rc) {
      assert ioc.chain[i] != t && ioc.chain[i] != primary;
      assert old(IsQueued(ioc.chain[i], items[i], ioc, if alone then null else primary, rc));
    }
    AppendQueued(t, ioc, items, item, if alone then null else primary, rc);
  }

  // A read task not queued yet that does all of the window.
  ghost predicate IsWhole(t: Task, alignedOff: nat, alignedLen: nat)
    reads t`next, t`live, t`nseg, t`segs, t`extraSegs
  {
    && t.next == null && t.live && t.nseg == 0 && t.segs == [] && !t.extraSegs && t.primary == null
    && t.command.ReadCommand? && t.offset == alignedOff && t.len == alignedLen
  }

  // One turn of the loop appends the next task.
  method QueuePiece(begin: Word, end: Word, tmpOff: nat, to: Word, remain: nat,
                    ioc: IoContext, primary: Task?, alone: bool, ghost prim: Task?, ghost items: seq<Item>,
                    ghost rc: int, ghost w: Window, ghost buf: nat, ghost cut: seq<Item>, ghost turns: seq<Turn>,
                    ghost i: nat) returns (t: Task, tmpLen: nat)
    requires AtTurn(w, buf, cut, turns, i, Turn(begin, tmpOff, to, remain)) && begin < end == CutEnd(w)
    requires ioc.Valid() && Holds(ioc, items + cut[..i], prim, rc)
    requires prim == if alone then null else primary
    requires primary !in ioc.chain && rc == if primary == null then 0 else primary.returnCode
    requires alone ==> primary != null && w.alignedLen <= SPLIT && IsWhole(primary, w.alignedOff, w.alignedLen)
    modifies ioc`first, ioc`last, ioc`numPending, ioc`chain, NonNull(ioc.last)`next
    modifies NonNull(primary)`ctx, NonNull(primary)`buf, NonNull(primary)`tmpOff, NonNull(primary)`tmpLen
    modifies NonNull(primary)`ref
    ensures i < |cut| && ioc.Valid() && Holds(ioc, items + cut[..i + 1], prim, rc)
    ensures ioc.chain == old(ioc.chain) + [t] && if alone then t == primary else fresh(t)
    ensures prim != null ==> prim.ref == old(prim.ref) + 1
    ensures tmpLen <= remain && tmpLen < WORD
    ensures AtTurn(w, buf, cut, turns, i + 1, Turn(WordSum(begin, SPLIT), 0, WordSum(to, tmpLen), remain - tmpLen))
    ensures alone ==> |cut| == 1
  {
    NextTurn(w, buf, cut, turns, i, Turn(begin, tmpOff, to, remain));
    var size := Min(end - begin, SPLIT);
    tmpLen := Min(remain, size - tmpOff);
    t := QueueRead(begin, size, to, tmpOff, tmpLen, ioc, primary, alone, items + cut[..i], rc);
    OneMore(items, cut, i);
  }

  // `cut` is what the loop's turns compute, `items` what the context already holds.
  method MakeReadTasks(w: Window, ioc: IoContext, buf: nat, primary: Task?,
                       ghost items: seq<Item>, ghost cut: seq<Item>, ghost turns: seq<Turn>, ghost rc: int)
    requires w.Contains() && w.len > 0 && Splits(w, buf, cut, turns)
    requires ioc.Valid() && Holds(ioc, items, ReportsTo(primary, w.alignedLen), rc)
    requires primary !in ioc.chain && rc == if primary == null then 0 else primary.returnCode
    requires primary != null ==> IsWhole(primary, w.alignedOff, w.alignedLen)
    modifies ioc`first, ioc`last, ioc`numPending, ioc`chain, Members(ioc.chain)`next
    modifies NonNull(primary)`ctx, NonNull(primary)`buf, NonNull(primary)`tmpOff, NonNull(primary)`tmpLen
    modifies NonNull(primary)`ref
    ensures ioc.Valid() && Holds(ioc, items + cut, ReportsTo(primary, w.alignedLen), rc)
    ensures Grown(old(ioc.chain), ioc.chain)
    ensures forall j :: |items| <= j < |ioc.chain| ==>
      if primary != null && w.alignedLen <= SPLIT then ioc.chain[j] == primary else fresh(ioc.chain[j])
    ensures primary != null && w.alignedLen > SPLIT ==> primary.ref == old(primary.ref) + |cut|
  {
    var tmpOff: nat, remain: nat, begin: Word, to: Word := w.off - w.alignedOff, w.len, w.alignedOff, buf;
    var end := WordSum(begin, w.alignedLen);
    var alone := primary != null && w.alignedLen <= SPLIT;
    ghost var i := 0;
    ghost var prim := ReportsTo(primary, w.alignedLen);
    assert items + cut[..0] == items;
    while begin < end
      invariant AtTurn(w, buf, cut, turns, i, Turn(begin, tmpOff, to, remain))
      invariant ioc.Valid() && Holds(ioc, items + cut[..i], prim, rc)
      invariant Grown(old(ioc.chain), ioc.chain)
      invariant primary in ioc.chain ==> alone && i == |cut|
      invariant forall j :: |items| <= j < |ioc.chain| ==>
        if alone then ioc.chain[j] == primary else fresh(ioc.chain[j])
      invariant prim != null ==> prim.ref == old(prim.ref) + i
      decreases |cut| - i
    {
      NextTurn(w, buf, cut, turns, i, Turn(begin, tmpOff, to, remain));
      var t, tmpLen := QueuePiece(begin, end, tmpOff, to, remain, ioc, primary, alone, prim, items,
                                  rc, w, buf, cut, turns, i);
      remain := remain - tmpLen;
      to := WordSum(to, tmpLen);
      tmpOff := 0;
      begin := WordSum(begin, SPLIT);
      i := i + 1;
    }
    NextTurn(w, buf, cut, turns, i, Turn(begin, tmpOff, to, remain));
    assert cut[..i] == cut;
  }

  ghost predicate Aligned(chain: seq<Task>, blockSize: nat) {
    forall i {:trigger BlockAligned(chain[i], blockSize)} :: 0 <= i < |chain| ==> BlockAligned(chain[i], blockSize)
  }

  // The state of a submission before its first task goes out.
  ghost function StartOf(job: Job, free: seq<nat>, dma: Memory): State {
    State(0, free, dma, job.disk, job.ram, [], |job.items|, 0, job.reports,
          seq(|job.items|, i => Slot(Phase.Queued, [], job.rc, true, false)), |job.items|, job.rc)
  }

  lemma StartInv(job: Job, free: seq<nat>, dma: Memory)
    requires JobOk(job) && job.items != []
    requires Partition(free, []) && |dma| == POOL && Shaped(dma)
    ensures Inv(job, StartOf(job, free, dma), 0)
  {
    InitialInv(job, StartOf(job, free, dma));
  }

  class Device {
    const blockSize: nat
    const size: nat
    const queue: DriverQueue

    // The size leaves room for the last step of the loop that cuts a read; see EveryReadEndsIff.
    ghost predicate Opened() {
      PowerOfTwo(blockSize) && blockSize <= SEGMENT && size % blockSize == 0 && size + SPLIT <= WORD
    }

    ghost predicate Valid()
      reads queue
    {
      && Opened() && size <= |queue.disk| && size + |queue.ram| <= WORD
      && queue.blockSize == blockSize && queue.maxQueueDepth > 0 && queue.AtRest()
    }

    // Opening rounds the drive's size down to whole blocks.
    constructor (blockSize: nat, maxQueueDepth: nat, disk: seq<byte>, ram: seq<byte>)
      requires PowerOfTwo(blockSize) && blockSize <= SEGMENT && |disk| + |ram| <= WORD && maxQueueDepth > 0
      requires |disk| + SPLIT <= WORD
      ensures Valid() && fresh(queue) && this.blockSize == blockSize && |disk| - blockSize < size <= |disk|
      ensures queue.disk == disk && queue.ram == ram
    {
      this.blockSize := blockSize;
      size := P2Align(|disk|, blockSize);
      queue := new DriverQueue(blockSize, maxQueueDepth, disk, ram);
      P2AlignExact(|disk|, blockSize);
      ModUnique(|disk| - |disk| % blockSize, blockSize, |disk| / blockSize, 0);
    }

    // The context's tasks are those of `sub`, which starts from the state at hand.
    ghost predicate Pending(ioc: IoContext, sub: Submission)
      reads queue, ioc, ioc.chain, NonNull(sub.prim)
    {
      && ioc.Valid() && ioc.numRunning == 0 && ioc.totalNseg == 0
      && sub.ioc == ioc && sub.chain == ioc.chain && Holds(ioc, sub.job.items, sub.prim, sub.job.rc)
      && sub.prim !in ioc.chain && Aligned(ioc.chain, blockSize)
      && JobOk(sub.job) && sub.job.maxDepth == queue.maxQueueDepth
      && sub.job.sub == (sub.prim != null)
      && sub.job.disk == queue.disk && sub.job.ram == queue.ram
      && sub.job.reports == ioc.reports && sub.job.priv == ioc.priv
      && (sub.prim != null ==> sub.prim.ref == |sub.chain| && sub.prim.returnCode == sub.job.rc)
    }

    lemma Starts(ioc: IoContext, sub: Submission, s: State)
      requires queue.blockSize == blockSize && queue.maxQueueDepth > 0 && queue.AtRest()
      requires ioc.numRunning == |sub.chain| > 0 && ioc.totalNseg == 0
      requires sub.ioc == ioc && |sub.chain| == |sub.job.items|
      requires forall i {:trigger IsQueued(sub.chain[i], sub.job.items[i], ioc, sub.prim, sub.job.rc)} ::
        0 <= i < |sub.chain| ==> IsQueued(sub.chain[i], sub.job.items[i], ioc, sub.prim, sub.job.rc)
      requires Linked(sub.chain) && Distinct(sub.chain)
      requires sub.prim !in sub.chain && Aligned(sub.chain, blockSize)
      requires JobOk(sub.job) && sub.job.maxDepth == queue.maxQueueDepth
      requires sub.job.sub == (sub.prim != null)
      requires sub.job.disk == queue.disk && sub.job.ram == queue.ram
      requires sub.job.reports == ioc.reports && sub.job.priv == ioc.priv
      requires sub.prim != null ==> sub.prim.ref == |sub.chain| && sub.prim.returnCode == sub.job.rc
      requires s == StartOf(sub.job, queue.dataBufList, queue.dma)
      ensures queue.LoopInv(sub, s, 0)
    {
      assert SegLists(queue.inflight) == [];
      StartInv(sub.job, queue.dataBufList, queue.dma);
      forall i | 0 <= i < |sub.chain| ensures TaskWired(sub.chain[i], i, sub) && SlotShown(sub.chain[i], s.slots[i]) {
        assert IsQueued(sub.chain[i], sub.job.items[i], ioc, sub.prim, sub.job.rc);
      }
      forall i | 0 <= i < |sub.chain| ensures BlockAligned(sub.chain[i], queue.blockSize) {
        assert BlockAligned(sub.chain[i], blockSize);
      }
    }

    lemma Rests(sub: Submission, s: State)
      requires queue.Shows(sub, s) && AllDone(sub.job, s)
      ensures queue.AtRest()
    {
      assert SegLists(queue.inflight) == [];
    }

    // Moves the context's tasks from pending to running and works through them.
    method AioSubmit(ioc: IoContext, ghost sub: Submission) returns (ghost v: State)
      requires Valid() && Pending(ioc, sub)
      modifies queue, ioc, ioc.chain, NonNull(sub.prim)`ref, NonNull(sub.prim)`returnCode
      ensures Valid() && ioc.Valid() && ioc.chain == [] && ioc.numRunning == 0 && ioc.totalNseg == 0
      ensures sub.chain == [] ==> unchanged(queue) && ioc.reports == old(ioc.reports)
      ensures sub.chain != [] ==> AllDone(sub.job, v) && queue.Shows(sub, v)
    {
      v := StartOf(sub.job, queue.dataBufList, queue.dma);
      var pending := ioc.numPending;
      var t := ioc.first;
      if pending != 0 && t != null {
        ioc.numRunning := ioc.numRunning + pending;
        ioc.numPending := ioc.numPending - pending;
        ioc.first, ioc.last := null, null;
        ioc.chain := [];
        Starts(ioc, sub, v);
        v := queue.AioHandle(t, ioc, sub, v);
        Rests(sub, v);
      }
    }

    // Sums wrap at 64 bits.
    predicate IsValidIo(off: Word, len: Word) {
      && blockSize > 0 && off % blockSize == 0 && len % blockSize == 0 && len > 0
      && off < size && (off + len) % WORD <= size
    }

    ghost function JobOf(items: seq<Item>, prim: Task?, rc: int): Job
      reads queue
    {
      Job(items, true, prim != null, rc, queue.maxQueueDepth, false, queue.disk, queue.ram, Reports(0, 0))
    }

    lemma PiecesAligned(ioc: IoContext, items: seq<Item>, prim: Task?, rc: int, off: nat, len: nat)
      requires Valid() && Holds(ioc, items, prim, rc)
      requires off % blockSize == 0 && len % blockSize == 0
      requires forall i :: 0 <= i < |items| ==>
        i * SPLIT <= len && items[i].offset == off + i * SPLIT && items[i].len == PieceLen(len, i)
      ensures Aligned(ioc.chain, blockSize)
    {
      forall i | 0 <= i < |ioc.chain| ensures BlockAligned(ioc.chain[i], blockSize) {
        assert IsQueued(ioc.chain[i], items[i], ioc, prim, rc);
        PieceIsAligned(off, len, i, blockSize);
      }
    }

    // No buffer is long enough for a request whose end wraps: it would have to span all of the
    // address space but what lies before the offset.
    lemma EndDoesNotWrap(off: Word, len: Word)
      requires Valid() && off < size && (off + len) % WORD <= size && len <= |queue.ram|
      ensures off + len <= size
    {
    }

    // The drive holds the buffer in the range written, and every other byte it held before.
    method Write(off: Word, len: Word, buf: nat) returns (r: int)
      requires Valid() && IsValidIo(off, len) && buf + len <= |queue.ram|
      modifies queue
      ensures Valid() && r == 0
      ensures off + len <= |old(queue.disk)|
      ensures queue.disk == Splice(old(queue.disk), off, old(queue.ram)[buf..buf + len])
      ensures queue.ram == old(queue.ram)
    {
      EndDoesNotWrap(off, len);
      var ioc := new IoContext(false);
      WriteSplit(off, len, buf, ioc, []);
      WriteDoesNotWrap(off, len, buf);
      ghost var items := WriteItems(off, len, buf);
      assert [] + items == items;
      ghost var job := JobOf(items, null, 0);
      WritesFit(job, off, len, buf);
      PiecesAligned(ioc, items, null, 0, off, len);
      ghost var v := AioSubmit(ioc, Submission(ioc.chain, ioc, null, job));
      WriteEffect(job, v, off, len, buf);
      r := 0;
    }

    // The task a synchronous read waits for has return code 0 once everything is done.
    lemma ReadResult(sub: Submission, v: State, t: Task)
      requires queue.Shows(sub, v) && AllDone(sub.job, v) && sub.job.rc != 0 && sub.job.sub == (sub.prim != null)
      requires sub.prim == t || (sub.prim == null && |sub.chain| > 0 && sub.chain[0] == t)
      ensures t.returnCode == 0
    {
      if sub.prim == null {
        assert SlotShown(sub.chain[0], v.slots[0]);
      }
    }

    method SubmitRead(w: Window, buf: nat, t: Task, ioc: IoContext, ghost prim: Task?) returns (r: int)
      requires Valid() && w.Contains() && w.len > 0 && buf + w.len <= |queue.ram|
      requires w.alignedOff % blockSize == 0 && w.alignedLen % blockSize == 0 && w.alignedOff + w.alignedLen <= size
      requires ioc.Valid() && ioc.numRunning == 0 && ioc.totalNseg == 0 && ioc.reports == Reports(0, 0) && !ioc.priv
      requires Holds(ioc, ReadItems(w, buf), prim, 1) && prim !in ioc.chain
      requires prim == t || (prim == null && |ioc.chain| > 0 && ioc.chain[0] == t)
      requires prim != null ==> prim.ref == |ioc.chain| && prim.returnCode == 1
      modifies queue, ioc, ioc.chain, t`ref, t`returnCode
      ensures Valid() && r == 0
      ensures queue.ram == Splice(old(queue.ram), buf, old(queue.disk)[w.off..w.off + w.len])
      ensures queue.disk == old(queue.disk)
    {
      ghost var items := ReadItems(w, buf);
      ghost var job := JobOf(items, prim, 1);
      ghost var sub := Submission(ioc.chain, ioc, prim, job);
      ReadsFit(job, w, buf);
      PiecesAligned(ioc, items, prim, 1, w.alignedOff, w.alignedLen);
      ghost var v := AioSubmit(ioc, sub);
      ReadEffect(job, v, w, buf);
      ReadResult(sub, v, t);
      r := t.returnCode;
    }

    // The tasks of a read on a context of its own; `t` waits for them, or is the only one.
    method QueueWindow(w: Window, buf: nat, t: Task, ioc: IoContext)
      requires w.Contains() && w.len > 0 && w.alignedOff + w.alignedLen + SPLIT <= WORD && buf + w.len < WORD
      requires ioc.Valid() && ioc.chain == [] && t.returnCode == 1 && t.ref == 0
      requires IsWhole(t, w.alignedOff, w.alignedLen)
      modifies ioc`first, ioc`last, ioc`numPending, ioc`chain, t`ctx, t`buf, t`tmpOff, t`tmpLen, t`ref, t`next
      ensures ioc.Valid() && |ioc.chain| > 0
      ensures var prim := ReportsTo(t, w.alignedLen);
        && Holds(ioc, ReadItems(w, buf), prim, 1)
        && (if prim == t then t !in ioc.chain && t.ref == |ioc.chain| else ioc.chain[0] == t)
      ensures t.returnCode == 1
      ensures forall j :: 0 <= j < |ioc.chain| ==> ioc.chain[j] == t || fresh(ioc.chain[j])
    {
      ReadIsCut(w, buf);
      ghost var turns := ReadItemsSplit(w, buf);
      MakeReadTasks(w, ioc, buf, t, [], ReadItems(w, buf), turns, 1);
      assert [] + ReadItems(w, buf) == ReadItems(w, buf);
    }

    // Reads through the window of `w`; the primary task waits for the result.
    method ReadWindow(w: Window, buf: nat) returns (r: int)
      requires Valid() && w.Contains() && w.len > 0
      requires w.alignedOff % blockSize == 0 && w.alignedLen % blockSize == 0 && w.alignedOff + w.alignedLen <= size
      requires buf + w.len <= |queue.ram|
      modifies queue
      ensures Valid() && r == 0
      ensures queue.ram == Splice(old(queue.ram), buf, old(queue.disk)[w.off..w.off + w.len])
      ensures queue.disk == old(queue.disk)
    {
      var ioc := new IoContext(false);
      var t := new Task(ReadCommand, w.alignedOff, w.alignedLen, 1, null);
      QueueWindow(w, buf, t, ioc);
      r := SubmitRead(w, buf, t, ioc, ReportsTo(t, w.alignedLen));
    }

    // Queues a write on the caller's context, even one whose end wraps; see WriteInsideIff.
    method AioWrite(off: Word, len: Word, buf: Word, ioc: IoContext, ghost items: seq<Item>) returns (r: int)
      requires Opened() && IsValidIo(off, len)
      requires ioc.Valid() && Holds(ioc, items, null, 0)
      modifies ioc`first, ioc`last, ioc`numPending, ioc`chain, Members(ioc.chain)`next
      ensures r == 0 && ioc.Valid() && Holds(ioc, items + InWords(WriteItems(off, len, buf)), null, 0)
      ensures Grown(old(ioc.chain), ioc.chain) && forall j :: |items| <= j < |ioc.chain| ==> fresh(ioc.chain[j])
    {
      WriteSplit(off, len, buf, ioc, items);
      r := 0;
    }

    // Queues a read on the caller's context. One whose end wraps appends nothing, and succeeds.
    method AioRead(off: Word, len: Word, buf: Word, ioc: IoContext, ghost items: seq<Item>) returns (r: int)
      requires Opened() && IsValidIo(off, len)
      requires ioc.Valid() && Holds(ioc, items, null, 0)
      modifies ioc`first, ioc`last, ioc`numPending, ioc`chain, Members(ioc.chain)`next
      ensures r == 0 && ioc.Valid()
      ensures Holds(ioc, items + CutItems(Window(off, len, off, len), buf), null, 0)
      ensures |ioc.chain| > |old(ioc.chain)| <==> off + len < WORD
      ensures Grown(old(ioc.chain), ioc.chain) && forall j :: |items| <= j < |ioc.chain| ==> fresh(ioc.chain[j])
    {
      var w := Window(off, len, off, len);
      ghost var turns := ReadItemsSplit(w, buf);
      MakeReadTasks(w, ioc, buf, null, items, CutItems(w, buf), turns, 0);
      r := 0;
    }

    // Every read the check accepts is cut by a loop that ends exactly when the device stops one
    // piece short of the address space; otherwise the read of the last block is not.
    lemma EveryReadEndsIff()
      requires PowerOfTwo(blockSize) && blockSize <= SEGMENT && size % blockSize == 0 && 0 < size < WORD
      ensures (forall off: Word, len: Word {:trigger IsValidIo(off, len)} ::
                 IsValidIo(off, len) ==> CutEnds(Window(off, len, off, len)))
         <==> size + SPLIT <= WORD
    {
      if size + SPLIT <= WORD {
        forall off: Word, len: Word | IsValidIo(off, len) ensures CutEnds(Window(off, len, off, len)) {
        }
      } else {
        LastBlock(blockSize, size);
        var off := size - blockSize;
        assert IsValidIo(off, blockSize);
        assert !CutEnds(Window(off, blockSize, off, blockSize));
      }
    }

    // The tasks of a write the check accepts stay inside the device exactly when its end does not
    // wrap: otherwise one of them runs over the device's end.
    lemma WriteInsideIff(off: Word, len: Word, buf: Word)
      requires Opened() && IsValidIo(off, len)
      ensures var items := InWords(WriteItems(off, len, buf));
        (forall i {:trigger items[i]} :: 0 <= i < |items| ==> items[i].offset + items[i].len <= size)
        <==> off + len < WORD
    {
      var items := InWords(WriteItems(off, len, buf));
      if off + len < WORD {
        forall i | 0 <= i < |items| ensures items[i].offset + items[i].len <= size {
          PieceInside(off, len, buf, i);
        }
      } else {
        var i := PieceOver(off, len, buf, size);
        assert items[i] == InWord(WriteItem(off, len, buf, i));
      }
    }

    // Whole blocks: the buffer ends up with exactly the range asked for.
    method Read(off: Word, len: Word, buf: nat) returns (r: int)
      requires Valid() && IsValidIo(off, len) && buf + len <= |queue.ram|
      modifies queue
      ensures Valid() && r == 0
      ensures off + len <= |old(queue.disk)|
      ensures queue.ram == Splice(old(queue.ram), buf, old(queue.disk)[off..off + len])
      ensures queue.disk == old(queue.disk)
    {
      EndDoesNotWrap(off, len);
      r := ReadWindow(Window(off, len, off, len), buf);
    }

    // Any range inside the device: the window of whole blocks around it is inside the device too,
    // and the buffer ends up with exactly the range asked for.
    method ReadRandom(off: Word, len: Word, buf: nat) returns (r: int)
      requires Valid() && len > 0 && off < size && (off + len) % WORD <= size && buf + len <= |queue.ram|
      modifies queue
      ensures Valid() && r == 0
      ensures off + len <= |old(queue.disk)|
      ensures queue.ram == Splice(old(queue.ram), buf, old(queue.disk)[off..off + len])
      ensures queue.disk == old(queue.disk)
    {
      EndDoesNotWrap(off, len);
      P2AlignExact(off, blockSize);
      P2RoundupExact(off + len, blockSize);
      WindowAround(off, len, size, blockSize);
      var alignedOff := P2Align(off, blockSize);
      var alignedLen := P2Roundup(off + len, blockSize) - alignedOff;
      r := ReadWindow(Window(alignedOff, alignedLen, off, len), buf);
    }

    // What the check accepts, as long as the end does not wrap: exactly the non-empty ranges of whole
    // blocks inside the device, its first block included.
    lemma ValidIoIff(off: Word, len: Word)
      requires blockSize > 0 && off + len < WORD
      ensures IsValidIo(off, len) <==> off % blockSize == 0 && len % blockSize == 0 && len > 0 && off + len <= size
    {
    }

    // The check of a request means that it lies inside the device exactly when its end does not wrap.
    lemma ValidIoIsInside(off: Word, len: Word)
      requires Valid() && IsValidIo(off, len)
      ensures off + len <= size <==> off + len < WORD
    {
    }

    // A request that passes the check and ends far outside: all but one block of the address space.
    lemma WrappedIoIsAccepted()
      requires Valid() && size > blockSize
      ensures IsValidIo(blockSize, WORD - blockSize) && blockSize + (WORD - blockSize) > size
    {
      RestOfWordIsAligned(blockSize);
    }
  }
}
