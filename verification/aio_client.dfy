// A caller of the asynchronous interface: it queues any number of reads and writes on one
// context, submits them together, and has what each of them asked for.
module AioClient {
  import opened AioBatch
  import opened BitOp
  import opened IoModel
  import opened NvmeDevice
  import opened NvmeQueue
  import opened Segments
  import opened Tiling

  // The device accepts the request, and its buffer is in memory.
  ghost predicate Accepted(dev: Device, r: Request)
    reads dev.queue`ram
  {
    r.off < WORD && r.len < WORD && dev.IsValidIo(r.off, r.len) && r.buf + r.len <= |dev.queue.ram|
  }

  ghost predicate AllAccepted(dev: Device, rs: seq<Request>)
    reads dev.queue`ram
  {
    forall n {:trigger Accepted(dev, rs[n])} :: 0 <= n < |rs| ==> Accepted(dev, rs[n])
  }

  lemma AcceptedIsInside(dev: Device, rs: seq<Request>)
    requires dev.Valid() && AllAccepted(dev, rs)
    ensures AllInside(rs, |dev.queue.disk|, |dev.queue.ram|)
  {
    forall n | 0 <= n < |rs| ensures Inside(rs[n], |dev.queue.disk|, |dev.queue.ram|) {
      assert Accepted(dev, rs[n]);
      dev.EndDoesNotWrap(rs[n].off, rs[n].len);
    }
  }

  lemma BatchGrows(rs: seq<Request>, n: nat)
    requires n < |rs|
    ensures BatchItems(rs[..n + 1]) == BatchItems(rs[..n]) + RequestItems(rs[n])
  {
    assert rs[..n + 1][..n] == rs[..n];
  }

  method QueueOne(dev: Device, r: Request, ioc: IoContext, ghost items: seq<Item>)
    requires dev.Valid() && ioc.Valid() && Accepted(dev, r) && Holds(ioc, items, null, 0)
    modifies ioc`first, ioc`last, ioc`numPending, ioc`chain, Members(ioc.chain)`next
    ensures ioc.Valid() && Holds(ioc, items + RequestItems(r), null, 0)
    ensures Grown(old(ioc.chain), ioc.chain) && forall j :: |items| <= j < |ioc.chain| ==> fresh(ioc.chain[j])
  {
    dev.EndDoesNotWrap(r.off, r.len);
    var code;
    if r.write {
      WriteDoesNotWrap(r.off, r.len, r.buf);
      code := dev.AioWrite(r.off, r.len, r.buf, ioc, items);
    } else {
      ReadIsCut(Window(r.off, r.len, r.off, r.len), r.buf);
      code := dev.AioRead(r.off, r.len, r.buf, ioc, items);
    }
  }

  // Queues every request, in order.
  method QueueAll(dev: Device, rs: seq<Request>, ioc: IoContext)
    requires dev.Valid() && ioc.Valid() && ioc.chain == [] && AllAccepted(dev, rs)
    modifies ioc`first, ioc`last, ioc`numPending, ioc`chain
    ensures ioc.Valid() && Holds(ioc, BatchItems(rs), null, 0)
    ensures forall j :: 0 <= j < |ioc.chain| ==> fresh(ioc.chain[j])
  {
    for n := 0 to |rs|
      invariant ioc.Valid() && Holds(ioc, BatchItems(rs[..n]), null, 0)
      invariant forall j :: 0 <= j < |ioc.chain| ==> fresh(ioc.chain[j])
    {
      assert Accepted(dev, rs[n]);
      BatchGrows(rs, n);
      QueueOne(dev, rs[n], ioc, BatchItems(rs[..n]));
    }
    assert rs[..|rs|] == rs;
  }

  ghost function BatchJob(dev: Device, rs: seq<Request>, ioc: IoContext): Job
    reads dev.queue, ioc
  {
    Job(BatchItems(rs), AllIndependent(rs), false, 0,
        dev.queue.maxQueueDepth, ioc.priv, dev.queue.disk, dev.queue.ram, ioc.reports)
  }

  lemma TasksAligned(dev: Device, rs: seq<Request>, ioc: IoContext)
    requires dev.Valid() && AllAccepted(dev, rs) && Holds(ioc, BatchItems(rs), null, 0)
    ensures Aligned(ioc.chain, dev.blockSize)
  {
    forall n | 0 <= n < |rs| ensures RequestAligned(rs[n], dev.blockSize) {
      assert Accepted(dev, rs[n]);
    }
    forall k | 0 <= k < |ioc.chain| ensures BlockAligned(ioc.chain[k], dev.blockSize) {
      assert IsQueued(ioc.chain[k], BatchItems(rs)[k], ioc, null, 0);
      BatchAligned(rs, dev.blockSize, k);
    }
  }

  // Bytes that no request is for are untouched, and independent requests have had their effects.
  ghost predicate BatchDone(disk: seq<byte>, ram: seq<byte>, newDisk: seq<byte>, newRam: seq<byte>, rs: seq<Request>) {
    && |newDisk| == |disk| && |newRam| == |ram|
    && (AllIndependent(rs) ==> forall n {:trigger Inside(rs[n], |disk|, |ram|)} :: 0 <= n < |rs| ==>
          Inside(rs[n], |disk|, |ram|) && Effect(disk, ram, newDisk, newRam, rs[n]))
    && (forall x {:trigger WriteTarget(rs, x)} :: 0 <= x < |disk| && !WriteTarget(rs, x) ==> newDisk[x] == disk[x])
    && (forall x {:trigger ReadTarget(rs, x)} :: 0 <= x < |ram| && !ReadTarget(rs, x) ==> newRam[x] == ram[x])
  }

  lemma {:induction false} AllEffects(job: Job, s: State, rs: seq<Request>)
    requires AllInside(rs, |job.disk|, |job.ram|) && job.apart == AllIndependent(rs)
    requires job.items == BatchItems(rs) && AllDone(job, s)
    ensures BatchDone(job.disk, job.ram, s.disk, s.ram, rs)
  {
    BatchLeaves(job, s, rs, 0);
    forall n | 0 <= n < |rs| && job.apart
      ensures Inside(rs[n], |job.disk|, |job.ram|) && Effect(job.disk, job.ram, s.disk, s.ram, rs[n])
    {
      assert Inside(rs[n], |job.disk|, |job.ram|);
      BatchEffect(job, s, rs, n);
    }
    forall x | 0 <= x < |job.disk| && !WriteTarget(rs, x) ensures s.disk[x] == job.disk[x] {
      BatchLeaves(job, s, rs, x);
    }
    forall x | 0 <= x < |job.ram| && !ReadTarget(rs, x) ensures s.ram[x] == job.ram[x] {
      BatchLeaves(job, s, rs, x);
    }
  }

  lemma {:induction false} BatchNotEmpty(rs: seq<Request>)
    requires rs != [] && rs[|rs| - 1].len > 0
    ensures BatchItems(rs) != []
  {
    assert |RequestItems(rs[|rs| - 1])| > 0;
  }

  // Requests queued on one context and submitted together: independent ones have had their effects,
  // nothing else has changed, and the context has been told exactly once, even if some overlap.
  method RunBatch(dev: Device, rs: seq<Request>, ioc: IoContext)
    requires dev.Valid() && ioc.Valid() && ioc.chain == [] && ioc.numRunning == 0 && ioc.totalNseg == 0
    requires AllAccepted(dev, rs)
    modifies dev.queue, ioc
    ensures dev.Valid() && ioc.Valid() && ioc.chain == [] && ioc.numRunning == 0 && ioc.totalNseg == 0
    ensures BatchDone(old(dev.queue.disk), old(dev.queue.ram), dev.queue.disk, dev.queue.ram, rs)
    ensures ioc.reports == if rs == [] then old(ioc.reports) else old(ioc.reports).Told(ioc.priv)
  {
    ghost var job := BatchJob(dev, rs, ioc);
    AcceptedIsInside(dev, rs);
    QueueAll(dev, rs, ioc);
    BatchFits(job, rs);
    TasksAligned(dev, rs, ioc);
    ghost var v := dev.AioSubmit(ioc, Submission(ioc.chain, ioc, null, job));
    if rs != [] {
      assert Inside(rs[|rs| - 1], |job.disk|, |job.ram|);
      BatchNotEmpty(rs);
      AllEffects(job, v, rs);
    }
  }
}
