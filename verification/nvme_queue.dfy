// The SPDK data path of one thread: tasks, the context they are queued on, and the queue
// that submits them, polls for completions and hands segments out and back. The drive, the user's
// memory and the queue pair are part of the queue's state: addresses are indices.
module NvmeQueue {
  import opened IoModel
  import opened Pool
  import opened Segments

  const ENOMEM: int := 12

  datatype Command = ReadCommand | WriteCommand

  ghost function NonNull(t: Task?): set<Task> {
    if t == null then {} else {t}
  }

  class IoContext {
    const priv: bool
    var first: Task?
    var last: Task?
    var numPending: int
    var numRunning: int
    var totalNseg: int
    // What the context has been told of its completions.
    var reports: Reports
    ghost var chain: seq<Task>

    constructor (priv: bool)
      ensures Valid() && chain == [] && this.priv == priv
      ensures numRunning == 0 && totalNseg == 0 && reports == Reports(0, 0)
    {
      this.priv := priv;
      first, last, numPending, numRunning, totalNseg, reports := null, null, 0, 0, 0, Reports(0, 0);
      chain := [];
    }

    // The linked list from `first` to `last` is `chain`.
    ghost predicate Valid()
      reads this, chain
    {
      && numPending == |chain|
      && (chain == [] ==> first == null && last == null)
      && (chain != [] ==> first == chain[0] && last == chain[|chain| - 1])
      && Distinct(chain)
      && Linked(chain)
    }

    method AppendTask(t: Task)
      requires Valid() && t !in chain && t.next == null
      modifies this`first, this`last, this`numPending, this`chain, NonNull(last)`next
      ensures Valid() && chain == old(chain) + [t]
    {
      DistinctAppend(chain, t);
      if last != null {
        OnePlace(chain, |chain| - 1);
        last.next := t;
      }
      if first == null {
        first := t;
      }
      last := t;
      numPending := numPending + 1;
      chain := chain + [t];
    }

    method TryAioWake()
      requires numRunning >= 1
      modifies this`numRunning, this`reports
      ensures numRunning == old(numRunning) - 1
      ensures reports == if numRunning == 0 then old(reports).Told(false) else old(reports)
    {
      numRunning := numRunning - 1;
      if numRunning == 0 {
        reports := reports.(wakeUps := reports.wakeUps + 1);
      }
    }
  }

  ghost function Members(chain: seq<Task>): set<Task> {
    set t | t in chain
  }

  ghost predicate Linked(chain: seq<Task>)
    reads Members(chain)`next
  {
    forall i {:trigger chain[i].next} :: 0 <= i < |chain| ==>
      chain[i].next == if i + 1 < |chain| then chain[i + 1] else null
  }

  class Task {
    const command: Command
    const offset: nat
    const len: nat
    const primary: Task?
    var ctx: IoContext?
    // Where a write's data starts, or where a read's data goes.
    var buf: nat
    // What the completion of a read copies: `tmpLen` bytes from `tmpOff` on.
    var tmpOff: nat
    var tmpLen: nat
    var next: Task?
    var returnCode: int
    var ref: int
    var nseg: nat
    var segs: seq<nat>
    var extraSegs: bool
    var curSegIdx: nat
    var curSegLeft: nat
    // Not yet deleted.
    ghost var live: bool

    constructor (command: Command, offset: nat, len: nat, returnCode: int, primary: Task?)
      modifies NonNull(primary)`ref
      ensures this.command == command && this.offset == offset && this.len == len && this.primary == primary
      ensures primary != null ==> primary.ref == old(primary.ref) + 1
      ensures this.returnCode == if primary == null then returnCode else primary.returnCode
      ensures next == null && ctx == null && ref == 0 && nseg == 0 && segs == [] && !extraSegs
      ensures tmpOff == 0 && tmpLen == 0
      ensures live
    {
      this.command, this.offset, this.len, this.primary := command, offset, len, primary;
      this.returnCode := if primary == null then returnCode else primary.returnCode;
      next, ctx, ref, nseg, segs, extraSegs := null, null, 0, 0, [], false;
      curSegIdx, curSegLeft, buf, tmpOff, tmpLen := 0, 0, 0, 0, 0;
      live := true;
      new;
      if primary != null {
        primary.ref := primary.ref + 1;
      }
    }

    // The destructor.
    method Delete()
      requires live && nseg == 0
      modifies this`live, NonNull(primary)`ref
      ensures !live
      ensures primary != null ==> primary.ref == old(primary.ref) - 1
    {
      if primary != null {
        primary.ref := primary.ref - 1;
      }
      live := false;
    }

    method ResetSgl(o: nat)
      requires nseg == SegCount(len) && o <= len
      modifies this`curSegIdx, this`curSegLeft
      ensures Cursor(curSegIdx, curSegLeft) == ResetCursor(len, o)
    {
      var i := o / SEGMENT;
      var offset := i * SEGMENT;
      assert i <= nseg;
      ghost var rounds := nseg;
      while i < nseg
        invariant offset == i * SEGMENT <= o && i <= nseg
        invariant nseg - i <= rounds
        decreases rounds
      {
        rounds := rounds - 1;
        offset := offset + SEGMENT;
        if offset > o {
          if offset > len {
            offset := len;
          }
          break;
        }
        i := i + 1;
      }
      curSegIdx, curSegLeft := i, offset - o;
    }

    method NextSge() returns (slot: nat, off: nat, length: nat)
      requires nseg == SegCount(len) && CursorOk(len, Cursor(curSegIdx, curSegLeft))
      modifies this`curSegIdx, this`curSegLeft
      ensures old(curSegIdx) >= nseg ==> length == 0 && curSegIdx == old(curSegIdx) && curSegLeft == old(curSegLeft)
      ensures old(curSegIdx) < nseg ==>
        && Sge(slot, off, length) == NextRange(len, old(Cursor(curSegIdx, curSegLeft)))
        && Cursor(curSegIdx, curSegLeft) == Cursor(old(curSegIdx) + 1, 0)
    {
      slot, off, length := 0, 0, 0;
      if curSegIdx >= nseg {
        return;
      }
      slot := curSegIdx;
      var size := SEGMENT;
      if curSegIdx == nseg - 1 {
        var tail := len % SEGMENT;
        if tail != 0 {
          size := tail;
        }
      }
      if curSegLeft != 0 {
        off := size - curSegLeft;
        length := curSegLeft;
        curSegLeft := 0;
      } else {
        length := size;
      }
      curSegIdx := curSegIdx + 1;
    }
  }

  // A command in the queue pair: its block range, its segments, and the ranges of them the
  // driver was shown.
  datatype Cmd = Cmd(task: Task, lba: nat, count: nat, segs: seq<nat>, sges: seq<Sge>)

  function SegLists(cmds: seq<Cmd>): (r: seq<seq<nat>>)
    ensures |r| == |cmds|
    ensures forall i :: 0 <= i < |cmds| ==> r[i] == cmds[i].segs
  {
    seq(|cmds|, i requires 0 <= i < |cmds| => cmds[i].segs)
  }

  ghost function ItemOf(t: Task): Item
    reads t`buf, t`tmpOff, t`tmpLen
  {
    Item(t.command.WriteCommand?, t.offset, t.len, t.buf, t.tmpOff, t.tmpLen)
  }

  ghost predicate BlockAligned(t: Task, blockSize: nat) {
    blockSize > 0 && t.offset % blockSize == 0 && t.len % blockSize == 0
  }

  // The tasks of one submission in order, their context and the primary task they report
  // to, with the values the submission started from.
  datatype Submission = Submission(chain: seq<Task>, ioc: IoContext, prim: Task?, job: Job)

  ghost predicate TaskWired(t: Task, i: nat, sub: Submission)
    reads t`ctx, t`buf, t`tmpOff, t`tmpLen, t`next
  {
    && t.ctx == sub.ioc && t.primary == sub.prim && t != sub.prim
    && t.next == (if i + 1 < |sub.chain| then sub.chain[i + 1] else null)
    && i < |sub.job.items| && ItemOf(t) == sub.job.items[i]
  }

  ghost predicate Wired(sub: Submission)
    reads sub.chain
  {
    forall i {:trigger TaskWired(sub.chain[i], i, sub)} ::
      0 <= i < |sub.chain| ==> TaskWired(sub.chain[i], i, sub)
  }

  ghost predicate WellFormed(sub: Submission, maxDepth: nat, blockSize: nat) {
    && Distinct(sub.chain)
    && (forall i {:trigger BlockAligned(sub.chain[i], blockSize)} ::
          0 <= i < |sub.chain| ==> BlockAligned(sub.chain[i], blockSize))
    && JobOk(sub.job) && |sub.job.items| == |sub.chain| && sub.job.maxDepth == maxDepth
    && sub.job.sub == (sub.prim != null)
  }

  // A task's fields are as `u` says.
  ghost predicate SlotShown(t: Task, u: Slot)
    reads t`segs, t`nseg, t`returnCode, t`live, t`extraSegs
  {
    && t.segs == u.segs && t.nseg == |u.segs| && t.returnCode == u.code
    && t.live == u.live && t.extraSegs == u.extra
  }

  ghost predicate SlotsShown(chain: seq<Task>, slots: seq<Slot>)
    reads Members(chain)`segs, Members(chain)`nseg, Members(chain)`returnCode
    reads Members(chain)`live, Members(chain)`extraSegs
  {
    && |slots| == |chain|
    && forall i {:trigger SlotShown(chain[i], slots[i])} :: 0 <= i < |chain| ==> SlotShown(chain[i], slots[i])
  }

  // A command in flight is the one the task at `i` was submitted as.
  ghost predicate CmdOk(c: Cmd, i: nat, chain: seq<Task>, slots: seq<Slot>) {
    && i < |chain| && i < |slots| && c.task == chain[i]
    && c.segs == slots[i].segs && Presents(c.sges, c.task.len)
  }

  ghost predicate CmdsOk(cmds: seq<Cmd>, flight: seq<nat>, chain: seq<Task>, slots: seq<Slot>) {
    && |cmds| == |flight|
    && forall j {:trigger CmdOk(cmds[j], flight[j], chain, slots)} :: 0 <= j < |cmds| ==>
         CmdOk(cmds[j], flight[j], chain, slots)
  }

  ghost predicate RangeOk(c: Cmd, blockSize: nat) {
    blockSize > 0 && c.lba == c.task.offset / blockSize && c.count == c.task.len / blockSize
  }

  ghost predicate RangesOk(cmds: seq<Cmd>, blockSize: nat) {
    forall j {:trigger RangeOk(cmds[j], blockSize)} :: 0 <= j < |cmds| ==> RangeOk(cmds[j], blockSize)
  }

  lemma RangesAppend(cmds: seq<Cmd>, blockSize: nat, c: Cmd)
    requires RangesOk(cmds, blockSize) && RangeOk(c, blockSize)
    ensures RangesOk(cmds + [c], blockSize)
  {
    var a := cmds + [c];
    forall j | 0 <= j < |a| ensures RangeOk(a[j], blockSize) {
      assert j < |cmds| ==> RangeOk(cmds[j], blockSize);
    }
  }

  lemma RangesWithout(cmds: seq<Cmd>, blockSize: nat, i: nat)
    requires RangesOk(cmds, blockSize) && i < |cmds|
    ensures RangesOk(Without(cmds, i), blockSize)
  {
    var a := Without(cmds, i);
    forall j | 0 <= j < |a| ensures RangeOk(a[j], blockSize) {
      assert RangeOk(cmds[if j < i then j else j + 1], blockSize);
    }
  }

  lemma CmdsAppend(cmds: seq<Cmd>, flight: seq<nat>, chain: seq<Task>, slots: seq<Slot>, c: Cmd, k: nat, u: Slot)
    requires CmdsOk(cmds, flight, chain, slots) && k < |slots| && k !in flight
    requires CmdOk(c, k, chain, slots[k := u])
    ensures CmdsOk(cmds + [c], flight + [k], chain, slots[k := u])
  {
    var a, f, us := cmds + [c], flight + [k], slots[k := u];
    forall j | 0 <= j < |a| ensures CmdOk(a[j], f[j], chain, us) {
      if j < |cmds| {
        assert CmdOk(cmds[j], flight[j], chain, slots) && flight[j] in flight;
      }
    }
  }

  class DriverQueue {
    const blockSize: nat
    const maxQueueDepth: nat
    var currentQueueDepth: nat
    var dataBufList: seq<nat>
    var dma: Memory

    // The environment: the drive, the user's memory and the commands in flight.
    var disk: seq<byte>
    var ram: seq<byte>
    var inflight: seq<Cmd>

    ghost predicate PoolOk()
      reads this
    {
      |dma| == POOL && Shaped(dma) && Partition(dataBufList, SegLists(inflight))
    }

    // Nothing in flight and the whole pool free.
    ghost predicate AtRest()
      reads this
    {
      PoolOk() && inflight == [] && currentQueueDepth == 0
    }

    constructor (blockSize: nat, maxQueueDepth: nat, disk: seq<byte>, ram: seq<byte>)
      ensures AtRest() && |dataBufList| == POOL
      ensures this.blockSize == blockSize && this.maxQueueDepth == maxQueueDepth
      ensures this.disk == disk && this.ram == ram
    {
      this.blockSize, this.maxQueueDepth := blockSize, maxQueueDepth;
      inflight, currentQueueDepth := [], 0;
      dma, dataBufList := [], [];
      new;
      FillPool();
      this.disk, this.ram := disk, ram;
    }

    // Allocates the segments zeroed; each goes to the front of the free list.
    method FillPool()
      requires dataBufList == [] && dma == [] && inflight == []
      modifies this`dataBufList, this`dma
      ensures PoolOk() && |dataBufList| == POOL
    {
      for i := 0 to POOL
        invariant EachOnce(multiset(dataBufList), i) && |dataBufList| == i
        invariant |dma| == i && Shaped(dma)
      {
        dma := dma + [seq(SEGMENT, _ => 0)];
        dataBufList := [i] + dataBufList;
        assert multiset(dataBufList) == multiset{i} + multiset(dataBufList[1..]);
      }
      WholePoolFree(dataBufList, |dataBufList|);
      assert SegLists(inflight) == [];
    }

    // All of a task's segments or none: on failure nothing has changed.
    method AllocBufFromPool(t: Task, write: bool) returns (r: int)
      requires |dma| == POOL && Shaped(dma) && InPool(dma, dataBufList) && Distinct(dataBufList)
      requires t.ctx != null && t.nseg == 0 && t.len > 0
      requires write ==> t.buf + t.len <= |ram|
      modifies this`dataBufList, this`dma, t`segs, t`nseg, t`extraSegs, t.ctx`totalNseg
      ensures r == if SegCount(t.len) > |old(dataBufList)| then -ENOMEM else 0
      ensures r != 0 ==> unchanged(this) && unchanged(t) && unchanged(t.ctx)
      ensures r == 0 ==>
        && t.segs == old(dataBufList)[..SegCount(t.len)]
        && dataBufList == old(dataBufList)[SegCount(t.len)..]
        && t.nseg == SegCount(t.len)
        && t.extraSegs == (old(t.extraSegs) || SegCount(t.len) > INLINE)
        && t.ctx.totalNseg == old(t.ctx.totalNseg) + SegCount(t.len)
      ensures |dma| == POOL && Shaped(dma) && (r == 0 ==> InPool(dma, t.segs))
      ensures forall s :: 0 <= s < POOL && s !in t.segs ==> dma[s] == old(dma[s])
      ensures r == 0 && write ==> Flat(dma, t.segs)[..t.len] == ram[t.buf..t.buf + t.len]
    {
      var count := t.len / SEGMENT;
      if t.len % SEGMENT != 0 {
        count := count + 1;
      }
      if count > |dataBufList| {
        return -ENOMEM;
      }
      if count > INLINE {
        t.extraSegs := true;
      }
      DistinctPrefix(dataBufList, count);
      TakeSegments(t, count);
      t.ctx.totalNseg := t.ctx.totalNseg + count;
      if write {
        CopyIn(t);
      }
      r := 0;
    }

    method TakeSegments(t: Task, count: nat)
      requires count <= |dataBufList|
      modifies this`dataBufList, t`segs, t`nseg
      ensures t.segs == old(dataBufList)[..count] && t.nseg == count
      ensures dataBufList == old(dataBufList)[count..]
    {
      var segs: seq<nat> := [];
      for i := 0 to count
        invariant segs == old(dataBufList)[..i] && dataBufList == old(dataBufList)[i..]
      {
        segs := segs + [dataBufList[0]];
        dataBufList := dataBufList[1..];
      }
      t.segs := segs;
      t.nseg := count;
    }

    method CopyIn(t: Task)
      requires |dma| == POOL && Shaped(dma) && InPool(dma, t.segs) && Distinct(t.segs)
      requires t.len > 0 && |t.segs| == SegCount(t.len) && t.buf + t.len <= |ram|
      modifies this`dma
      ensures |dma| == POOL && Shaped(dma)
      ensures forall s :: 0 <= s < POOL && s !in t.segs ==> dma[s] == old(dma[s])
      ensures Flat(dma, t.segs)[..t.len] == ram[t.buf..t.buf + t.len]
    {
      SegCountFits(t.len);
      var len := 0;
      var i := 0;
      while i < |t.segs| - 1
        invariant 0 <= i < |t.segs| && len == i * SEGMENT
        invariant |dma| == POOL && Shaped(dma)
        invariant forall s :: 0 <= s < POOL && s !in t.segs ==> dma[s] == old(dma[s])
        invariant Flat(dma, t.segs)[..len] == ram[t.buf..t.buf + len]
      {
        CopySegment(t, i, len, SEGMENT);
        len := len + SEGMENT;
        i := i + 1;
      }
      CopySegment(t, i, len, t.len - len);
    }

    // memcpy of `n` user bytes to the start of the task's segment `i`.
    method CopySegment(t: Task, i: nat, len: nat, n: nat)
      requires |dma| == POOL && Shaped(dma) && InPool(dma, t.segs) && Distinct(t.segs)
      requires i < |t.segs| && len == i * SEGMENT && n <= SEGMENT && t.buf + len + n <= |ram|
      requires Flat(dma, t.segs)[..len] == ram[t.buf..t.buf + len]
      modifies this`dma
      ensures |dma| == POOL && Shaped(dma)
      ensures forall s :: 0 <= s < POOL && s !in t.segs ==> dma[s] == old(dma[s])
      ensures len + n <= |t.segs| * SEGMENT
      ensures Flat(dma, t.segs)[..len + n] == ram[t.buf..t.buf + len + n]
    {
      var data := ram[t.buf + len..t.buf + len + n];
      FlatSplice(dma, t.segs, i, 0, data);
      ghost var flat := Flat(dma, t.segs);
      dma := dma[t.segs[i] := Splice(dma[t.segs[i]], 0, data)];
      assert Flat(dma, t.segs) == Splice(flat, len, data);
      assert Flat(dma, t.segs)[..len + n] == flat[..len] + data;
    }

    // Segments go back to the front of the list; the list's links overwrite their first bytes.
    method ReleaseSegs(t: Task)
      requires |dma| == POOL && Shaped(dma) && t.ctx != null
      requires t.nseg == |t.segs| && InPool(dma, t.segs)
      modifies this`dataBufList, this`dma, t`segs, t`nseg, t.ctx`totalNseg
      ensures Returned(old(dataBufList), old(t.segs), dataBufList)
      ensures t.nseg == 0 && t.segs == []
      ensures t.ctx.totalNseg == old(t.ctx.totalNseg) - old(t.nseg)
      ensures |dma| == POOL && Shaped(dma)
      ensures forall s :: 0 <= s < POOL && s !in old(t.segs) ==> dma[s] == old(dma[s])
    {
      for i := 0 to t.nseg
        invariant |dma| == POOL && Shaped(dma) && t.segs == old(t.segs) && t.nseg == old(t.nseg)
        invariant t.ctx.totalNseg == old(t.ctx.totalNseg)
        invariant multiset(dataBufList) == multiset(old(dataBufList)) + multiset(t.segs[..i])
        invariant forall s :: 0 <= s < POOL && s !in t.segs ==> dma[s] == old(dma[s])
      {
        var link: seq<byte> := *;
        var n := Min(|link|, SEGMENT);
        dma := dma[t.segs[i] := Splice(dma[t.segs[i]], 0, link[..n])];
        dataBufList := [t.segs[i]] + dataBufList;
        assert t.segs[..i + 1] == t.segs[..i] + [t.segs[i]];
      }
      assert t.segs[..t.nseg] == t.segs;
      ReturnedIff(old(dataBufList), t.segs, dataBufList);
      t.ctx.totalNseg := t.ctx.totalNseg - t.nseg;
      t.nseg := 0;
      t.segs := [];
    }

    // memcpy out of the task's segments, `off` bytes into the first one.
    method CopyToBuf(t: Task, buf: nat, off: nat, len: nat)
      requires |dma| == POOL && Shaped(dma) && InPool(dma, t.segs)
      requires off <= SEGMENT && off + len <= |t.segs| * SEGMENT && buf + len <= |ram|
      modifies this`ram
      ensures ram == Splice(old(ram), buf, Flat(dma, t.segs)[off..off + len])
    {
      var copied: nat, left: nat, i: nat, o: nat := 0, len, 0, off;
      ghost var flat := Flat(dma, t.segs);
      while left > 0
        invariant copied + left == len && o <= SEGMENT
        invariant left > 0 ==> i * SEGMENT + o == off + copied && i < |t.segs|
        invariant ram == Splice(old(ram), buf, flat[off..off + copied])
        decreases left, o
      {
        var need := Min(left, SEGMENT - o);
        var part := dma[t.segs[i]][o..o + need];
        FlatPart(dma, t.segs, i, o, need);
        CopyMore(old(ram), buf, flat, off, copied, part);
        ram := Splice(ram, buf + copied, part);
        i := i + 1;
        o := 0;
        left := left - need;
        copied := copied + need;
      }
    }

    // The NVMe driver asks for bytes `from` to `stop` of a task by the two reports: it resets the
    // cursor and takes ranges until it has enough, the last one in part if need be.
    method ShowPart(t: Task, from: nat, stop: nat) returns (sges: seq<Sge>)
      requires t.nseg == SegCount(t.len) && from < stop <= t.len
      modifies t`curSegIdx, t`curSegLeft
      ensures InSlots(sges, SegCount(t.len)) && Covers(sges, from, stop)
    {
      ResetInSegment(t.len, from);
      t.ResetSgl(from);
      sges := [];
      var at := from;
      while at < stop
        invariant from <= at <= stop && (at < stop ==> StandsAt(t.len, Cursor(t.curSegIdx, t.curSegLeft), at))
        invariant InSlots(sges, SegCount(t.len)) && Covers(sges, from, at)
      {
        NextStands(t.len, Cursor(t.curSegIdx, t.curSegLeft), at);
        var slot, off, length := t.NextSge();
        length := Min(length, stop - at);
        assert Covers([Sge(slot, off, length)], at, at + length);
        CoversConcat(sges, [Sge(slot, off, length)], from, at, at + length);
        sges := sges + [Sge(slot, off, length)];
        at := at + length;
      }
    }

    // A command may be split at any offsets, part by part.
    method ShowSegments(t: Task) returns (sges: seq<Sge>)
      requires t.nseg == SegCount(t.len)
      modifies t`curSegIdx, t`curSegLeft
      ensures Presents(sges, t.len)
    {
      sges := [];
      var from := 0;
      while from < t.len
        invariant from <= t.len && InSlots(sges, SegCount(t.len)) && Covers(sges, 0, from)
      {
        var stop :| from < stop <= t.len;
        var part := ShowPart(t, from, stop);
        CoversConcat(sges, part, 0, from, stop);
        sges := sges + part;
        from := stop;
      }
    }

    // A synchronous read waits for its return code to become 0.
    ghost predicate Synchronous(t: Task)
      reads t
    {
      t.command.ReadCommand? && t.returnCode != 0
    }

    // The completion callback of one command; `piece` is what a read's copy finds.
    method IoComplete(t: Task, ghost piece: seq<byte>)
      requires t.live && t.ctx != null && t.primary != t
      requires currentQueueDepth > 0 && t.ctx.numRunning >= 1
      requires |dma| == POOL && Shaped(dma) && t.nseg == |t.segs| && InPool(dma, t.segs)
      requires t.command.ReadCommand? ==>
        && t.tmpOff <= SEGMENT && t.tmpOff + t.tmpLen <= |t.segs| * SEGMENT && t.buf + t.tmpLen <= |ram|
        && Flat(dma, t.segs)[t.tmpOff..t.tmpOff + t.tmpLen] == piece
      modifies this`currentQueueDepth, this`dataBufList, this`dma, this`ram
      modifies t`segs, t`nseg, t`live, t`returnCode
      modifies t.ctx`numRunning, t.ctx`totalNseg, t.ctx`reports
      modifies NonNull(t.primary)`ref, NonNull(t.primary)`returnCode
      ensures currentQueueDepth == old(currentQueueDepth) - 1
      ensures Returned(old(dataBufList), old(t.segs), dataBufList)
      ensures |dma| == POOL && Shaped(dma)
      ensures forall s :: 0 <= s < POOL && s !in old(t.segs) ==> dma[s] == old(dma[s])
      ensures t.command.ReadCommand? ==> t.buf + |piece| <= |old(ram)|
      ensures ram == if t.command.WriteCommand? then old(ram) else Splice(old(ram), t.buf, piece)
      ensures t.nseg == 0 && t.segs == []
      ensures t.ctx.numRunning == old(t.ctx.numRunning) - 1
      ensures t.ctx.totalNseg == old(t.ctx.totalNseg) - old(t.nseg)
      ensures t.ctx.reports ==
              if !old(Synchronous(t)) && t.ctx.numRunning == 0 then old(t.ctx.reports).Told(t.ctx.priv)
              else old(t.ctx.reports)
      ensures t.live <==> old(Synchronous(t)) && t.primary == null
      ensures t.returnCode == if old(Synchronous(t)) && t.primary == null then 0 else old(t.returnCode)
      ensures t.primary != null ==>
        && t.primary.ref == old(t.primary.ref) - 1
        && t.primary.returnCode == if old(Synchronous(t)) && t.primary.ref == 0 then 0 else old(t.primary.returnCode)
    {
      var ctx := t.ctx;
      currentQueueDepth := currentQueueDepth - 1;
      if t.command.WriteCommand? {
        ReportDone(ctx);
        ReleaseSegs(t);
        t.Delete();
      } else {
        CopyToBuf(t, t.buf, t.tmpOff, t.tmpLen);
        ReleaseSegs(t);
        if t.returnCode == 0 {
          ReportDone(ctx);
          t.Delete();
        } else {
          var primary := t.primary;
          if primary != null {
            t.Delete();
            if primary.ref == 0 {
              primary.returnCode := 0;
            }
          } else {
            t.returnCode := 0;
          }
          ctx.numRunning := ctx.numRunning - 1;
        }
      }
    }

    method ReportDone(ctx: IoContext)
      requires ctx.numRunning >= 1
      modifies ctx`numRunning, ctx`reports
      ensures ctx.numRunning == old(ctx.numRunning) - 1
      ensures ctx.reports == if ctx.numRunning == 0 then old(ctx.reports).Told(ctx.priv) else old(ctx.reports)
    {
      if ctx.priv {
        ctx.numRunning := ctx.numRunning - 1;
        if ctx.numRunning == 0 {
          ctx.reports := ctx.reports.(callbacks := ctx.reports.callbacks + 1);
        }
      } else {
        ctx.TryAioWake();
      }
    }

    // The fields of the queue, the context and the primary task are as `s` says.
    ghost predicate FieldsShown(sub: Submission, s: State)
      reads this, sub.ioc`numRunning, sub.ioc`totalNseg, sub.ioc`reports
      reads NonNull(sub.prim)`ref, NonNull(sub.prim)`returnCode
    {
      && s.depth == currentQueueDepth && s.free == dataBufList && s.dma == dma && s.disk == disk && s.ram == ram
      && sub.job.priv == sub.ioc.priv && s.running == sub.ioc.numRunning
      && s.totalNseg == sub.ioc.totalNseg && s.reports == sub.ioc.reports
      && (sub.prim != null ==> s.ref == sub.prim.ref && s.primCode == sub.prim.returnCode)
    }

    // `s` is the state of the submission.
    ghost predicate Shows(sub: Submission, s: State)
      reads this, sub.chain, sub.ioc`numRunning, sub.ioc`totalNseg, sub.ioc`reports
      reads NonNull(sub.prim)`ref, NonNull(sub.prim)`returnCode
    {
      && FieldsShown(sub, s) && SlotsShown(sub.chain, s.slots)
      && CmdsOk(inflight, s.flight, sub.chain, s.slots) && RangesOk(inflight, blockSize)
    }

    // The invariant of the submit/poll loop, with `k` tasks submitted.
    ghost predicate LoopInv(sub: Submission, s: State, k: nat)
      reads this, sub.chain, sub.ioc`numRunning, sub.ioc`totalNseg, sub.ioc`reports
      reads NonNull(sub.prim)`ref, NonNull(sub.prim)`returnCode
    {
      WellFormed(sub, maxQueueDepth, blockSize) && Wired(sub) && Shows(sub, s) && Inv(sub.job, s, k)
    }

    // The drive carries out one command.
    method Transfer(c: Cmd)
      requires |dma| == POOL && Shaped(dma) && InPool(dma, c.segs) && Distinct(c.segs)
      requires c.task.len > 0 && |c.segs| == SegCount(c.task.len)
      requires Presents(c.sges, c.task.len)
      requires BlockAligned(c.task, blockSize) && RangeOk(c, blockSize) && c.task.offset + c.task.len <= |disk|
      modifies this`dma, this`disk
      ensures |dma| == POOL && Shaped(dma)
      ensures c.task.len <= |c.segs| * SEGMENT
      ensures c.task.command.WriteCommand? ==>
        dma == old(dma) && disk == Splice(old(disk), c.task.offset, Flat(dma, c.segs)[..c.task.len])
      ensures c.task.command.ReadCommand? ==>
        && disk == old(disk)
        && (forall s :: 0 <= s < POOL && s !in c.segs ==> dma[s] == old(dma[s]))
        && Flat(dma, c.segs)[..c.task.len] == disk[c.task.offset..c.task.offset + c.task.len]
    {
      var len := c.task.len;
      WholeBlocks(c.task, blockSize);
      SegCountFits(len);
      GatherCovers(dma, c.segs, c.sges, 0, len);
      CoversTotal(c.sges, 0, len);
      var at := c.lba * blockSize;
      if c.task.command.WriteCommand? {
        disk := Splice(disk, at, Gather(dma, c.segs, c.sges));
      } else {
        var data := disk[at..at + c.count * blockSize];
        ScatterCovers(dma, c.segs, c.sges, data, 0, len);
        dma := Scatter(dma, c.segs, c.sges, data);
        assert Flat(dma, c.segs)[..len] == data;
      }
    }

    // Allocates a task's segments and hands the command to the queue pair.
    method Issue(t: Task) returns (r: int)
      requires |dma| == POOL && Shaped(dma) && InPool(dma, dataBufList) && Distinct(dataBufList)
      requires t.ctx != null && t.nseg == 0 && t.len > 0 && blockSize > 0
      requires t.command.WriteCommand? ==> t.buf + t.len <= |ram|
      modifies this`currentQueueDepth, this`dataBufList, this`dma, this`inflight
      modifies t`segs, t`nseg, t`extraSegs, t`curSegIdx, t`curSegLeft
      modifies t.ctx`totalNseg
      ensures r == if SegCount(t.len) > |old(dataBufList)| then -ENOMEM else 0
      ensures r != 0 ==> unchanged(this) && unchanged(t) && unchanged(t.ctx)
      ensures |dma| == POOL && Shaped(dma)
      ensures r == 0 ==>
        && t.segs == old(dataBufList)[..SegCount(t.len)]
        && dataBufList == old(dataBufList)[SegCount(t.len)..]
        && t.nseg == SegCount(t.len)
        && t.extraSegs == (old(t.extraSegs) || SegCount(t.len) > INLINE)
        && t.ctx.totalNseg == old(t.ctx.totalNseg) + SegCount(t.len)
        && currentQueueDepth == old(currentQueueDepth) + 1
        && |inflight| == |old(inflight)| + 1 && inflight == old(inflight) + [inflight[|old(inflight)|]]
        && inflight[|old(inflight)|].task == t && inflight[|old(inflight)|].segs == t.segs
        && Presents(inflight[|old(inflight)|].sges, t.len) && RangeOk(inflight[|old(inflight)|], blockSize)
        && InPool(dma, t.segs) && t.len <= |t.segs| * SEGMENT
        && (t.command.WriteCommand? ==> Flat(dma, t.segs)[..t.len] == ram[t.buf..t.buf + t.len])
      ensures forall s :: 0 <= s < POOL && s !in t.segs ==> dma[s] == old(dma[s])
    {
      SegCountFits(t.len);
      r := AllocBufFromPool(t, t.command.WriteCommand?);
      if r < 0 {
        return;
      }
      var sges := ShowSegments(t);
      inflight := inflight + [Cmd(t, t.offset / blockSize, t.len / blockSize, t.segs, sges)];
      currentQueueDepth := currentQueueDepth + 1;
    }

    // What the next task brings along when it is submitted.
    lemma NextIsReady(sub: Submission, s: State, k: nat)
      requires LoopInv(sub, s, k) && k < |sub.chain|
      ensures |dma| == POOL && Shaped(dma) && InPool(dma, dataBufList) && Distinct(dataBufList)
      ensures TaskWired(sub.chain[k], k, sub) && s.slots[k].phase == Queued
      ensures var t := sub.chain[k];
        && t.nseg == 0 && t.len > 0 && blockSize > 0 && (t.command.WriteCommand? ==> t.buf + t.len <= |ram|)
    {
      var t := sub.chain[k];
      assert BlockAligned(t, blockSize);
      assert TaskWired(t, k, sub) && SlotShown(t, s.slots[k]);
      assert Fits(sub.job, sub.job.items[k]) && SlotOk(sub.job, s, sub.job.items[k], s.slots[k]);
      FreeDistinct(dataBufList, Held(s));
    }

    // The next task goes out: the queue's own fields and the task's.
    method IssueTask(t: Task, ghost sub: Submission, ghost s: State, ghost k: nat) returns (r: int, ghost v: State)
      requires |dma| == POOL && Shaped(dma) && InPool(dma, dataBufList) && Distinct(dataBufList)
      requires FieldsShown(sub, s) && k < |sub.chain| == |s.slots| && t == sub.chain[k] && TaskWired(t, k, sub)
      requires SlotShown(t, s.slots[k])
      requires t.nseg == 0 && t.len > 0 && blockSize > 0 && (t.command.WriteCommand? ==> t.buf + t.len <= |ram|)
      modifies this`currentQueueDepth, this`dataBufList, this`dma, this`inflight
      modifies t`segs, t`nseg, t`extraSegs, t`curSegIdx, t`curSegLeft
      modifies sub.ioc`totalNseg
      ensures FieldsShown(sub, v)
      ensures r < 0 ==> v == s && |s.free| < SegCount(t.len) && inflight == old(inflight) && SlotShown(t, s.slots[k])
      ensures r >= 0 ==>
        && Submits(sub.job, s, k, v) && SlotShown(t, v.slots[k]) && v.slots == s.slots[k := v.slots[k]]
        && v.flight == s.flight + [k]
        && |inflight| == |old(inflight)| + 1 && inflight == old(inflight) + [inflight[|old(inflight)|]]
        && CmdOk(inflight[|old(inflight)|], k, sub.chain, v.slots) && RangeOk(inflight[|old(inflight)|], blockSize)
    {
      r := Issue(t);
      v := s;
      if r >= 0 {
        var u := s.slots[k].(phase := InFlight, segs := t.segs, extra := t.extraSegs);
        v := s.(depth := currentQueueDepth, free := dataBufList, dma := dma, totalNseg := sub.ioc.totalNseg,
                flight := s.flight + [k], slots := s.slots[k := u]);
      }
    }

    // The next task goes out, or too few segments are free and nothing changes.
    method IssueNext(t: Task, ghost sub: Submission, ghost s: State, ghost k: nat) returns (r: int, ghost v: State)
      requires |dma| == POOL && Shaped(dma) && InPool(dma, dataBufList) && Distinct(dataBufList)
      requires Shows(sub, s) && k < |sub.chain| && t == sub.chain[k] && TaskWired(t, k, sub)
      requires forall i :: 0 <= i < |sub.chain| && i != k ==> sub.chain[i] != t
      requires k !in s.flight
      requires t.nseg == 0 && t.len > 0 && blockSize > 0 && (t.command.WriteCommand? ==> t.buf + t.len <= |ram|)
      modifies this`currentQueueDepth, this`dataBufList, this`dma, this`inflight
      modifies t`segs, t`nseg, t`extraSegs, t`curSegIdx, t`curSegLeft
      modifies sub.ioc`totalNseg
      ensures Shows(sub, v)
      ensures r < 0 ==> v == s && |s.free| < SegCount(t.len)
      ensures r >= 0 ==> Submits(sub.job, s, k, v)
    {
      assert SlotShown(t, s.slots[k]);
      r, v := IssueTask(t, sub, s, k);
      forall i | 0 <= i < |sub.chain| ensures SlotShown(sub.chain[i], v.slots[i]) {
        if i != k { assert old(SlotShown(sub.chain[i], s.slots[i])); }
      }
      if r >= 0 {
        CmdsAppend(old(inflight), s.flight, sub.chain, s.slots, inflight[|inflight| - 1], k, v.slots[k]);
        RangesAppend(old(inflight), blockSize, inflight[|inflight| - 1]);
      }
    }

    method SubmitStep(t: Task, ghost sub: Submission, ghost s: State, ghost k: nat) returns (r: int, ghost v: State)
      requires LoopInv(sub, s, k) && k < |sub.chain| && t == sub.chain[k]
      requires currentQueueDepth < maxQueueDepth
      modifies this`currentQueueDepth, this`dataBufList, this`dma, this`inflight
      modifies t`segs, t`nseg, t`extraSegs, t`curSegIdx, t`curSegLeft
      modifies sub.ioc`totalNseg
      ensures Shows(sub, v)
      ensures r < 0 ==> v == s && Inv(sub.job, v, k) && s.depth > 0 && SegCount(t.len) > |s.free|
      ensures r >= 0 ==> Inv(sub.job, v, k + 1) && |v.flight| == |s.flight| + 1
    {
      NextIsReady(sub, s, k);
      if SegCount(t.len) > |s.free| { BusyWhenShort(sub, s, k); }
      OnePlace(sub.chain, k);
      r, v := IssueNext(t, sub, s, k);
      if r >= 0 {
        SubmitKeeps(sub.job, s, k, v);
      }
    }

    // One turn of the submission loop: `t` gets its segments and goes to the queue pair, or
    // there are too few free segments and nothing changes.
    method SubmitOne(t: Task, ghost sub: Submission, ghost s: State, ghost k: nat) returns (r: int, ghost v: State)
      requires LoopInv(sub, s, k) && k < |sub.chain| && t == sub.chain[k]
      requires currentQueueDepth < maxQueueDepth
      modifies this`currentQueueDepth, this`dataBufList, this`dma, this`inflight
      modifies sub.chain
      modifies sub.ioc`totalNseg
      ensures r < 0 ==> LoopInv(sub, v, k) && v == s && s.depth > 0 && SegCount(t.len) > |s.free|
      ensures r >= 0 ==> LoopInv(sub, v, k + 1) && |v.flight| == |s.flight| + 1 && t.next == TaskAt(sub.chain, k + 1)
    {
      assert TaskWired(t, k, sub);
      r, v := SubmitStep(t, sub, s, k);
      forall m | 0 <= m < |sub.chain| ensures TaskWired(sub.chain[m], m, sub) {
        assert old(TaskWired(sub.chain[m], m, sub));
        assert ItemOf(sub.chain[m]) == old(ItemOf(sub.chain[m]));
      }
    }

    // After a read is carried out the bytes to copy out are those asked for.
    method Serve(c: Cmd) returns (ghost piece: seq<byte>)
      requires |dma| == POOL && Shaped(dma) && InPool(dma, c.segs) && Distinct(c.segs)
      requires c.task.len > 0 && |c.segs| == SegCount(c.task.len)
      requires Presents(c.sges, c.task.len)
      requires BlockAligned(c.task, blockSize) && RangeOk(c, blockSize) && c.task.offset + c.task.len <= |disk|
      requires c.task.len <= |c.segs| * SEGMENT
      requires c.task.command.ReadCommand? ==> c.task.tmpOff + c.task.tmpLen <= c.task.len
      modifies this`dma, this`disk
      ensures |dma| == POOL && Shaped(dma)
      ensures c.task.command.WriteCommand? ==>
        dma == old(dma) && disk == Splice(old(disk), c.task.offset, Flat(dma, c.segs)[..c.task.len])
      ensures c.task.command.ReadCommand? ==>
        && disk == old(disk)
        && (forall s :: 0 <= s < POOL && s !in c.segs ==> dma[s] == old(dma[s]))
        && piece == disk[c.task.offset + c.task.tmpOff..c.task.offset + c.task.tmpOff + c.task.tmpLen]
        && Flat(dma, c.segs)[c.task.tmpOff..c.task.tmpOff + c.task.tmpLen] == piece
    {
      piece := [];
      Transfer(c);
      if c.task.command.ReadCommand? {
        PartOfRead(Flat(dma, c.segs), disk, c.task.offset, c.task.len, c.task.tmpOff, c.task.tmpLen);
        piece := disk[c.task.offset + c.task.tmpOff..c.task.offset + c.task.tmpOff + c.task.tmpLen];
      }
    }

    // The drive carries out a command and its completion callback runs.
    method Finish(c: Cmd)
      requires c.task.live && c.task.ctx != null && c.task.primary != c.task
      requires currentQueueDepth > 0 && c.task.ctx.numRunning >= 1 && BlockAligned(c.task, blockSize)
      requires |dma| == POOL && Shaped(dma) && c.task.nseg == |c.segs| && InPool(dma, c.segs) && Distinct(c.segs)
      requires c.segs == c.task.segs && |c.segs| == SegCount(c.task.len) && c.task.len > 0
      requires Presents(c.sges, c.task.len)
      requires RangeOk(c, blockSize)
      requires c.task.offset + c.task.len <= |disk| && c.task.len <= |c.segs| * SEGMENT
      requires c.task.command.ReadCommand? ==>
        c.task.tmpOff <= SEGMENT && c.task.tmpOff + c.task.tmpLen <= c.task.len && c.task.buf + c.task.tmpLen <= |ram|
      modifies this`currentQueueDepth, this`dataBufList, this`dma, this`ram, this`disk
      modifies c.task`segs, c.task`nseg, c.task`live, c.task`returnCode
      modifies c.task.ctx`numRunning, c.task.ctx`totalNseg, c.task.ctx`reports
      modifies NonNull(c.task.primary)`ref, NonNull(c.task.primary)`returnCode
      ensures currentQueueDepth == old(currentQueueDepth) - 1
      ensures Returned(old(dataBufList), c.segs, dataBufList)
      ensures |dma| == POOL && Shaped(dma)
      ensures forall s :: 0 <= s < POOL && s !in c.segs ==> dma[s] == old(dma[s])
      ensures disk == if c.task.command.ReadCommand? then old(disk)
                      else Splice(old(disk), c.task.offset, old(Flat(dma, c.segs))[..c.task.len])
      ensures ram == if c.task.command.WriteCommand? then old(ram)
                     else
                       var from := c.task.offset + c.task.tmpOff;
                       Splice(old(ram), c.task.buf, old(disk)[from..from + c.task.tmpLen])
      ensures c.task.nseg == 0 && c.task.segs == []
      ensures c.task.ctx.numRunning == old(c.task.ctx.numRunning) - 1
      ensures c.task.ctx.totalNseg == old(c.task.ctx.totalNseg) - |c.segs|
      ensures c.task.ctx.reports ==
              if !old(Synchronous(c.task)) && c.task.ctx.numRunning == 0
              then old(c.task.ctx.reports).Told(c.task.ctx.priv)
              else old(c.task.ctx.reports)
      ensures c.task.live <==> old(Synchronous(c.task)) && c.task.primary == null
      ensures c.task.returnCode ==
              if old(Synchronous(c.task)) && c.task.primary == null then 0 else old(c.task.returnCode)
      ensures c.task.primary != null ==>
        && c.task.primary.ref == old(c.task.primary.ref) - 1
        && c.task.primary.returnCode ==
           if old(Synchronous(c.task)) && c.task.primary.ref == 0 then 0 else old(c.task.primary.returnCode)
    {
      ghost var piece := Serve(c);
      IoComplete(c.task, piece);
    }

    // What a command in flight brings along when it completes.
    lemma FlyingIsReady(sub: Submission, s: State, k: nat, j: nat)
      requires LoopInv(sub, s, k) && j < |inflight|
      ensures |dma| == POOL && Shaped(dma) && currentQueueDepth > 0 && sub.ioc.numRunning >= 1
      ensures Distinct(s.flight) && sub.prim !in sub.chain
      ensures CmdOk(inflight[j], s.flight[j], sub.chain, s.slots)
      ensures TaskWired(inflight[j].task, s.flight[j], sub)
      ensures SlotShown(inflight[j].task, s.slots[s.flight[j]])
      ensures CmdFits(inflight[j]) && RangeOk(inflight[j], blockSize) && BlockAligned(inflight[j].task, blockSize)
    {
      var i := s.flight[j];
      assert CmdOk(inflight[j], i, sub.chain, s.slots);
      var t := sub.chain[i];
      assert BlockAligned(t, blockSize);
      assert TaskWired(t, i, sub) && SlotShown(t, s.slots[i]);
      assert Fits(sub.job, sub.job.items[i]) && SlotOk(sub.job, s, sub.job.items[i], s.slots[i]);
      OwnedDistinct(dataBufList, Held(s), j);
      PrimaryApart(sub);
    }

    ghost predicate CmdFits(c: Cmd)
      reads this`dma, this`disk, this`ram, c.task
    {
      && c.task.live && InPool(dma, c.segs) && Distinct(c.segs)
      && |c.segs| == SegCount(c.task.len) && c.task.len > 0
      && c.task.offset + c.task.len <= |disk| && c.task.len <= |c.segs| * SEGMENT
      && (c.task.command.ReadCommand? ==>
            && c.task.tmpOff <= SEGMENT && c.task.tmpOff + c.task.tmpLen <= c.task.len
            && c.task.buf + c.task.tmpLen <= |ram|)
    }

    lemma PrimaryApart(sub: Submission)
      requires Wired(sub) && |sub.chain| == |sub.job.items|
      ensures sub.prim !in sub.chain
    {
      forall m | 0 <= m < |sub.chain| ensures sub.chain[m] != sub.prim {
        assert TaskWired(sub.chain[m], m, sub);
      }
    }

    // A command in flight completes: the queue's own fields, the context's, the primary's and the task's.
    method FinishTask(ghost sub: Submission, ghost s: State, j: nat, ghost i: nat) returns (ghost v: State)
      requires FieldsShown(sub, s) && j < |inflight| == |s.flight| && i == s.flight[j]
      requires |dma| == POOL && Shaped(dma) && currentQueueDepth > 0 && sub.ioc.numRunning >= 1
      requires CmdOk(inflight[j], i, sub.chain, s.slots) && TaskWired(inflight[j].task, i, sub)
      requires SlotShown(inflight[j].task, s.slots[i])
      requires BlockAligned(inflight[j].task, blockSize) && sub.job.sub == (sub.prim != null)
      requires CmdFits(inflight[j]) && RangeOk(inflight[j], blockSize)
      modifies this`currentQueueDepth, this`dataBufList, this`dma, this`ram, this`disk, this`inflight
      modifies inflight[j].task`segs, inflight[j].task`nseg, inflight[j].task`live, inflight[j].task`returnCode
      modifies sub.ioc`numRunning, sub.ioc`totalNseg, sub.ioc`reports
      modifies NonNull(sub.prim)`ref, NonNull(sub.prim)`returnCode
      ensures FieldsShown(sub, v) && inflight == Without(old(inflight), j) && v.flight == Without(s.flight, j)
      ensures Completes(sub.job, s, j, v)
      ensures v.slots == s.slots[i := v.slots[i]] && SlotShown(sub.chain[i], v.slots[i])
    {
      var c := inflight[j];
      assert sub.job.items[i] == ItemOf(c.task) && s.slots[i].segs == c.segs;
      inflight := Without(inflight, j);
      Finish(c);
      ghost var u := Slot(Finished, [], c.task.returnCode, c.task.live, s.slots[i].extra);
      v := s.(depth := currentQueueDepth, free := dataBufList, dma := dma, disk := disk, ram := ram,
              flight := Without(s.flight, j), running := sub.ioc.numRunning, totalNseg := sub.ioc.totalNseg,
              reports := sub.ioc.reports, slots := s.slots[i := u]);
      if sub.prim != null {
        v := v.(ref := sub.prim.ref, primCode := sub.prim.returnCode);
      }
    }

    method FinishOne(ghost sub: Submission, ghost s: State, j: nat, ghost i: nat) returns (ghost v: State)
      requires Shows(sub, s) && j < |inflight| && i == s.flight[j] && Distinct(s.flight)
      requires |dma| == POOL && Shaped(dma) && currentQueueDepth > 0 && sub.ioc.numRunning >= 1
      requires CmdOk(inflight[j], i, sub.chain, s.slots)
      requires forall m :: 0 <= m < |sub.chain| && m != i ==> sub.chain[m] != inflight[j].task
      requires TaskWired(inflight[j].task, i, sub)
      requires SlotShown(inflight[j].task, s.slots[i])
      requires sub.prim !in sub.chain && BlockAligned(inflight[j].task, blockSize)
      requires sub.job.sub == (sub.prim != null)
      requires CmdFits(inflight[j]) && RangeOk(inflight[j], blockSize)
      modifies this`currentQueueDepth, this`dataBufList, this`dma, this`ram, this`disk, this`inflight
      modifies inflight[j].task`segs, inflight[j].task`nseg, inflight[j].task`live, inflight[j].task`returnCode
      modifies sub.ioc`numRunning, sub.ioc`totalNseg, sub.ioc`reports
      modifies NonNull(sub.prim)`ref, NonNull(sub.prim)`returnCode
      ensures Shows(sub, v)
      ensures Completes(sub.job, s, j, v)
    {
      v := FinishTask(sub, s, j, i);
      forall m | 0 <= m < |sub.chain| ensures SlotShown(sub.chain[m], v.slots[m]) {
        if m != i { assert old(SlotShown(sub.chain[m], s.slots[m])); }
      }
      CmdsWithout(old(inflight), s.flight, sub.chain, s.slots, j, v.slots[i]);
      RangesWithout(old(inflight), blockSize, j);
    }

    method CompleteStep(ghost sub: Submission, ghost s: State, ghost k: nat, j: nat) returns (ghost v: State)
      requires LoopInv(sub, s, k) && j < |inflight|
      modifies this`currentQueueDepth, this`dataBufList, this`dma, this`ram, this`disk, this`inflight
      modifies inflight[j].task`segs, inflight[j].task`nseg, inflight[j].task`live, inflight[j].task`returnCode
      modifies sub.ioc`numRunning, sub.ioc`totalNseg, sub.ioc`reports
      modifies NonNull(sub.prim)`ref, NonNull(sub.prim)`returnCode
      ensures Shows(sub, v) && Inv(sub.job, v, k) && |v.flight| == |s.flight| - 1
    {
      FlyingIsReady(sub, s, k, j);
      OnePlace(sub.chain, s.flight[j]);
      v := FinishOne(sub, s, j, s.flight[j]);
      CompleteKeeps(sub.job, s, k, j, v);
    }

    lemma FlyingIsMember(sub: Submission, s: State, j: nat)
      requires Shows(sub, s) && j < |inflight|
      ensures inflight[j].task in sub.chain
    {
      assert CmdOk(inflight[j], s.flight[j], sub.chain, s.slots);
    }

    // One completion.
    method CompleteOne(ghost sub: Submission, ghost s: State, ghost k: nat, j: nat) returns (ghost v: State)
      requires LoopInv(sub, s, k) && j < |inflight|
      modifies this`currentQueueDepth, this`dataBufList, this`dma, this`ram, this`disk, this`inflight
      modifies sub.chain
      modifies sub.ioc`numRunning, sub.ioc`totalNseg, sub.ioc`reports
      modifies NonNull(sub.prim)`ref, NonNull(sub.prim)`returnCode
      ensures LoopInv(sub, v, k) && |v.flight| == |s.flight| - 1
    {
      FlyingIsMember(sub, s, j);
      v := CompleteStep(sub, s, k, j);
      forall m | 0 <= m < |sub.chain| ensures TaskWired(sub.chain[m], m, sub) {
        assert old(TaskWired(sub.chain[m], m, sub));
        assert ItemOf(sub.chain[m]) == old(ItemOf(sub.chain[m]));
      }
    }

    // The drive picks which command to complete.
    method CompleteAny(ghost sub: Submission, ghost s: State, ghost k: nat) returns (ghost v: State)
      requires LoopInv(sub, s, k) && inflight != []
      modifies this`currentQueueDepth, this`dataBufList, this`dma, this`ram, this`disk, this`inflight
      modifies sub.chain
      modifies sub.ioc`numRunning, sub.ioc`totalNseg, sub.ioc`reports
      modifies NonNull(sub.prim)`ref, NonNull(sub.prim)`returnCode
      ensures LoopInv(sub, v, k) && |v.flight| == |s.flight| - 1
    {
      var pick: int := *;
      var j: nat := if 0 <= pick < |inflight| then pick else 0;
      v := CompleteOne(sub, s, k, j);
    }

    // A poll: the drive completes any of the commands in flight, in any order, and their reports
    // run. `patience` says how many more times in a row it may find none completed.
    method ProcessCompletions(patience: nat, ghost sub: Submission, ghost s: State, ghost k: nat)
      returns (r: nat, left: nat, ghost v: State)
      requires LoopInv(sub, s, k) && inflight != []
      modifies this`currentQueueDepth, this`dataBufList, this`dma, this`ram, this`disk, this`inflight
      modifies sub.chain
      modifies sub.ioc`numRunning, sub.ioc`totalNseg, sub.ioc`reports
      modifies NonNull(sub.prim)`ref, NonNull(sub.prim)`returnCode
      ensures LoopInv(sub, v, k)
      ensures |v.flight| == |s.flight| - r
      ensures r == 0 ==> v == s && left < patience
    {
      r, v := 0, s;
      var more: bool := *;
      more := more || patience == 0;
      while more && inflight != []
        invariant LoopInv(sub, v, k)
        invariant |v.flight| == |s.flight| - r && (r == 0 ==> v == s)
        invariant r == 0 && patience == 0 ==> more
        decreases |s.flight| - r
      {
        v := CompleteAny(sub, v, k);
        r := r + 1;
        more := *;
      }
      left := *;
      if r == 0 {
        left := patience - 1;
      }
    }

    ghost function TaskAt(chain: seq<Task>, k: nat): Task? {
      if k < |chain| then chain[k] else null
    }

    // Too few segments for the next task means that others hold them.
    lemma BusyWhenShort(sub: Submission, s: State, k: nat)
      requires LoopInv(sub, s, k) && k < |sub.chain| && SegCount(sub.chain[k].len) > |s.free|
      ensures s.depth > 0
    {
      NeverStuck(sub.job, s, k);
      assert TaskWired(sub.chain[k], k, sub);
    }

    lemma DepthShown(sub: Submission, s: State, k: nat)
      requires LoopInv(sub, s, k)
      ensures s.depth == currentQueueDepth <= maxQueueDepth
    {
    }

    // No room for the next task: the queue is full, or too few segments are free.
    ghost predicate Blocked(t: Task, s: State) {
      s.depth == maxQueueDepth || SegCount(t.len) > |s.free|
    }

    // One turn of the inner loop: back to polling when the queue is full or the pool too small.
    method Turn(t: Task, ghost sub: Submission, ghost s: State, ghost k: nat)
      returns (next: Task?, again: bool, ghost v: State)
      requires LoopInv(sub, s, k) && k < |sub.chain| && t == sub.chain[k] && maxQueueDepth > 0
      modifies this`currentQueueDepth, this`dataBufList, this`dma, this`inflight
      modifies sub.chain
      modifies sub.ioc`totalNseg
      ensures again ==> LoopInv(sub, v, k) && v == s && s.depth > 0 && next == t && Blocked(t, v)
      ensures !again ==> LoopInv(sub, v, k + 1) && |v.flight| == |s.flight| + 1 && next == TaskAt(sub.chain, k + 1)
    {
      DepthShown(sub, s, k);
      if currentQueueDepth == maxQueueDepth {
        return t, true, s;
      }
      var r;
      r, v := SubmitOne(t, sub, s, k);
      if r < 0 {
        return t, true, v;
      }
      return t.next, false, v;
    }

    // Submits from `first` on until the queue is full, the pool runs out, or the list ends.
    method SubmitMany(first: Task?, ghost sub: Submission, ghost s: State, ghost from: nat)
      returns (t: Task?, again: bool, ghost v: State, ghost k: nat)
      requires LoopInv(sub, s, from) && maxQueueDepth > 0 && first == TaskAt(sub.chain, from)
      modifies this`currentQueueDepth, this`dataBufList, this`dma, this`inflight
      modifies sub.chain
      modifies sub.ioc`totalNseg
      ensures LoopInv(sub, v, k) && from <= k <= |sub.chain| && t == TaskAt(sub.chain, k)
      ensures again <==> t != null
      ensures Work(sub.job, v, k) == Work(sub.job, s, from) - (k - from)
      ensures k == from ==> v == s
      ensures again ==> v.depth > 0 && Blocked(t, v)
    {
      t, again, v, k := first, false, s, from;
      while t != null
        invariant from <= k <= |sub.chain| && LoopInv(sub, v, k) && t == TaskAt(sub.chain, k)
        invariant Work(sub.job, v, k) == Work(sub.job, s, from) - (k - from)
        invariant !again && (k == from ==> v == s)
        decreases |sub.chain| - k
      {
        ghost var u;
        t, again, u := Turn(t, sub, v, k);
        if again {
          break;
        }
        v, k := u, k + 1;
      }
    }

    // Submits the list `first` and polls until the context has nothing running.
    method AioHandle(first: Task?, ioc: IoContext, ghost sub: Submission, ghost s: State) returns (ghost v: State)
      requires LoopInv(sub, s, 0) && maxQueueDepth > 0 && ioc == sub.ioc && first == TaskAt(sub.chain, 0)
      modifies this`currentQueueDepth, this`dataBufList, this`dma, this`ram, this`disk, this`inflight
      modifies sub.chain
      modifies sub.ioc`numRunning, sub.ioc`totalNseg, sub.ioc`reports
      modifies NonNull(sub.prim)`ref, NonNull(sub.prim)`returnCode
      ensures LoopInv(sub, v, |sub.chain|) && AllDone(sub.job, v)
    {
      var t := first;
      ghost var k := 0;
      v := s;
      var again := false;
      var patience: nat := *;
      while again || ioc.numRunning != 0
        invariant k <= |sub.chain| && LoopInv(sub, v, k) && t == TaskAt(sub.chain, k)
        invariant again ==> k < |sub.chain|
        decreases Work(sub.job, v, k), patience
      {
        if currentQueueDepth != 0 {
          var r;
          r, patience, v := ProcessCompletions(patience, sub, v, k);
        }
        t, again, v, k := SubmitMany(t, sub, v, k);
      }
      NothingRunning(sub.job, v, k);
    }
  }

  lemma CmdsWithout(cmds: seq<Cmd>, flight: seq<nat>, chain: seq<Task>, slots: seq<Slot>, j: nat, u: Slot)
    requires CmdsOk(cmds, flight, chain, slots) && Distinct(flight) && j < |cmds| && flight[j] < |slots|
    ensures CmdsOk(Without(cmds, j), Without(flight, j), chain, slots[flight[j] := u])
  {
    var a, f, us := Without(cmds, j), Without(flight, j), slots[flight[j] := u];
    OnePlace(flight, j);
    forall m | 0 <= m < |a| ensures CmdOk(a[m], f[m], chain, us) {
      var n := if m < j then m else m + 1;
      assert CmdOk(cmds[n], flight[n], chain, slots);
    }
  }

  // One more piece copied out.
  lemma CopyMore(to: seq<byte>, buf: nat, flat: seq<byte>, off: nat, copied: nat, part: seq<byte>)
    requires off + copied + |part| <= |flat| && buf + copied + |part| <= |to|
    requires part == flat[off + copied..off + copied + |part|]
    ensures Splice(Splice(to, buf, flat[off..off + copied]), buf + copied, part)
         == Splice(to, buf, flat[off..off + copied + |part|])
  {
    SpliceAppend(to, buf, flat[off..off + copied], part);
    assert flat[off..off + copied] + part == flat[off..off + copied + |part|];
  }

  lemma WholeBlocks(t: Task, blockSize: nat)
    requires BlockAligned(t, blockSize)
    ensures t.offset / blockSize * blockSize == t.offset && t.len / blockSize * blockSize == t.len
  {
  }

  lemma PartOfRead(flat: seq<byte>, disk: seq<byte>, offset: nat, len: nat, off: nat, n: nat)
    requires len <= |flat| && offset + len <= |disk| && off + n <= len
    requires flat[..len] == disk[offset..offset + len]
    ensures flat[off..off + n] == disk[offset + off..offset + off + n]
  {
    var a, b := flat[off..off + n], disk[offset + off..offset + off + n];
    forall k | 0 <= k < n ensures a[k] == b[k] {
      assert flat[..len][off + k] == disk[offset..offset + len][off + k];
    }
  }
}
