// Several reads and writes queued on one context and submitted together.
module AioBatch {
  import opened BitOp
  import opened IoModel
  import opened Segments
  import opened Tiling

  datatype Request = Request(write: bool, off: nat, len: nat, buf: nat)

  function RequestItems(r: Request): (items: seq<Item>)
    ensures |items| == Pieces(r.len)
  {
    if r.write then WriteItems(r.off, r.len, r.buf) else ReadItems(Window(r.off, r.len, r.off, r.len), r.buf)
  }

  function BatchItems(rs: seq<Request>): seq<Item> {
    if rs == [] then [] else BatchItems(rs[..|rs| - 1]) + RequestItems(rs[|rs| - 1])
  }

  predicate Inside(r: Request, disk: nat, ram: nat) {
    r.len > 0 && r.off + r.len <= disk && r.buf + r.len <= ram
  }

  // A write shares no byte of the drive with another request, and no byte a read fills is
  // filled or sent by another.
  predicate Independent(a: Request, b: Request) {
    && (a.write || b.write ==> !Overlap(a.off, a.len, b.off, b.len))
    && (!a.write || !b.write ==> !Overlap(a.buf, a.len, b.buf, b.len))
  }

  ghost predicate AllInside(rs: seq<Request>, disk: nat, ram: nat) {
    forall n {:trigger Inside(rs[n], disk, ram)} :: 0 <= n < |rs| ==> Inside(rs[n], disk, ram)
  }

  ghost predicate AllIndependent(rs: seq<Request>) {
    forall m, n {:trigger Independent(rs[m], rs[n])} :: 0 <= m < n < |rs| ==> Independent(rs[m], rs[n])
  }

  // A task touches only what its request does.
  ghost predicate Within(t: Item, r: Request) {
    && t.write == r.write && 0 < t.len <= SPLIT
    && r.off <= t.offset && t.offset + t.len <= r.off + r.len && r.buf <= t.buf
    && (t.write ==> t.buf + t.len <= r.buf + r.len)
    && (!t.write ==> t.tmpOff == 0 && t.tmpLen <= t.len && t.buf + t.tmpLen <= r.buf + r.len)
  }

  lemma ItemWithin(r: Request, i: nat)
    requires i < Pieces(r.len)
    ensures Within(RequestItems(r)[i], r)
  {
  }

  lemma ItemsApart(r: Request, i: nat, j: nat)
    requires i < j < Pieces(r.len)
    ensures Apart(RequestItems(r)[i], RequestItems(r)[j])
  {
  }

  lemma WithinApart(t: Item, u: Item, r: Request, q: Request)
    requires Within(t, r) && Within(u, q) && Independent(r, q)
    ensures Apart(t, u)
  {
  }

  lemma WithinFits(job: Job, t: Item, r: Request)
    requires Within(t, r) && Inside(r, |job.disk|, |job.ram|) && job.rc == 0
    ensures Fits(job, t)
  {
  }

  // The request each task belongs to.
  lemma {:induction false} RequestOf(rs: seq<Request>, k: nat) returns (n: nat)
    requires k < |BatchItems(rs)|
    ensures n < |rs| && Within(BatchItems(rs)[k], rs[n])
    decreases |rs|
  {
    var last := |rs| - 1;
    var before := |BatchItems(rs[..last])|;
    if k < before {
      n := RequestOf(rs[..last], k);
    } else {
      n := last;
      ItemWithin(rs[last], k - before);
    }
  }

  ghost predicate AllApart(items: seq<Item>) {
    forall k, l {:trigger Apart(items[k], items[l])} :: 0 <= k < l < |items| ==> Apart(items[k], items[l])
  }

  lemma ConcatApart(a: seq<Item>, b: seq<Item>)
    requires AllApart(a) && AllApart(b)
    requires forall k, l {:trigger Apart(a[k], b[l])} :: 0 <= k < |a| && 0 <= l < |b| ==> Apart(a[k], b[l])
    ensures AllApart(a + b)
  {
    var c := a + b;
    forall k, l | 0 <= k < l < |c| ensures Apart(c[k], c[l]) {
      if l < |a| {
        assert Apart(a[k], a[l]);
      } else if k >= |a| {
        assert Apart(b[k - |a|], b[l - |a|]);
      } else {
        assert Apart(a[k], b[l - |a|]);
      }
    }
  }

  lemma {:induction false} BatchApart(rs: seq<Request>)
    requires AllIndependent(rs)
    ensures AllApart(BatchItems(rs))
    decreases |rs|
  {
    if rs == [] {
    } else {
      var last := |rs| - 1;
      var a, b := BatchItems(rs[..last]), RequestItems(rs[last]);
      forall m, n | 0 <= m < n < last ensures Independent(rs[..last][m], rs[..last][n]) {
        assert Independent(rs[m], rs[n]);
      }
      BatchApart(rs[..last]);
      forall k, l | 0 <= k < l < |b| ensures Apart(b[k], b[l]) {
        ItemsApart(rs[last], k, l);
      }
      forall k, l | 0 <= k < |a| && 0 <= l < |b| ensures Apart(a[k], b[l]) {
        ApartFromLast(rs, k, l);
      }
      ConcatApart(a, b);
    }
  }

  lemma {:induction false} ApartFromLast(rs: seq<Request>, k: nat, i: nat)
    requires AllIndependent(rs) && rs != []
    requires k < |BatchItems(rs[..|rs| - 1])| && i < Pieces(rs[|rs| - 1].len)
    ensures Apart(BatchItems(rs[..|rs| - 1])[k], RequestItems(rs[|rs| - 1])[i])
  {
    var last := |rs| - 1;
    var n := RequestOf(rs[..last], k);
    ItemWithin(rs[last], i);
    assert Independent(rs[n], rs[last]);
    WithinApart(BatchItems(rs[..last])[k], RequestItems(rs[last])[i], rs[n], rs[last]);
  }

  // Requests inside the drive and memory make a submission the queue can work through, and
  // independent ones make tasks that keep apart.
  lemma {:induction false} BatchFits(job: Job, rs: seq<Request>)
    requires AllInside(rs, |job.disk|, |job.ram|) && (job.apart ==> AllIndependent(rs))
    requires job.items == BatchItems(rs) && job.rc == 0 && !job.sub
    ensures JobOk(job)
  {
    forall k | 0 <= k < |job.items| ensures Fits(job, job.items[k]) {
      var n := RequestOf(rs, k);
      assert Inside(rs[n], |job.disk|, |job.ram|);
      WithinFits(job, job.items[k], rs[n]);
    }
    if job.apart { BatchApart(rs); }
  }

  lemma {:induction false} ItemOfRequest(rs: seq<Request>, n: nat, i: nat) returns (k: nat)
    requires n < |rs| && i < Pieces(rs[n].len)
    ensures k < |BatchItems(rs)| && BatchItems(rs)[k] == RequestItems(rs[n])[i]
    decreases |rs|
  {
    var last := |rs| - 1;
    var before := BatchItems(rs[..last]);
    if n == last {
      k := |before| + i;
    } else {
      k := ItemOfRequest(rs[..last], n, i);
      assert rs[..last][n] == rs[n] && (before + RequestItems(rs[last]))[k] == before[k];
    }
  }

  // The task moves byte `d` of the request.
  ghost predicate Moves(t: Item, r: Request, d: nat) {
    && t.write == r.write && t.buf <= r.buf + d < t.buf + (if r.write then t.len else t.tmpLen)
    && t.tmpOff == 0 && t.offset + (r.buf + d - t.buf) == r.off + d
  }

  lemma PieceAt(r: Request, d: nat) returns (i: nat)
    requires d < r.len
    ensures i < Pieces(r.len)
    ensures Moves(RequestItems(r)[i], r, d)
  {
    i := d / SPLIT;
  }

  ghost predicate Moved(items: seq<Item>, r: Request, d: nat) {
    exists k :: 0 <= k < |items| && Moves(items[k], r, d)
  }

  // The tasks move every byte of the request.
  ghost predicate Carry(items: seq<Item>, r: Request) {
    forall d {:trigger Moved(items, r, d)} :: 0 <= d < r.len ==> Moved(items, r, d)
  }

  lemma {:induction false} BatchCarries(rs: seq<Request>, n: nat)
    requires n < |rs|
    ensures Carry(BatchItems(rs), rs[n])
  {
    forall d | 0 <= d < rs[n].len ensures Moved(BatchItems(rs), rs[n], d) {
      var i := PieceAt(rs[n], d);
      var k := ItemOfRequest(rs, n, i);
    }
  }

  ghost predicate ItemsDone(job: Job, s: State) {
    && |s.disk| == |job.disk| && |s.ram| == |job.ram|
    && forall k {:trigger Fits(job, job.items[k])} :: 0 <= k < |job.items| ==>
         Fits(job, job.items[k]) && Done(job, s, job.items[k])
  }

  lemma ItemByte(job: Job, s: State, r: Request, t: Item, d: nat)
    requires Fits(job, t) && |s.disk| == |job.disk| && |s.ram| == |job.ram| && Done(job, s, t)
    requires Inside(r, |job.disk|, |job.ram|) && d < r.len && Moves(t, r, d)
    ensures if r.write then s.disk[r.off + d] == job.ram[r.buf + d] else s.ram[r.buf + d] == job.disk[r.off + d]
  {
    if t.write {
      WrittenAt(job, s, t, r.buf + d - t.buf);
    } else {
      DoneAt(job, s, t, r.buf + d - t.buf);
    }
  }

  lemma RequestByte(job: Job, s: State, r: Request, d: nat)
    requires ItemsDone(job, s) && Carry(job.items, r) && d < r.len
    requires Inside(r, |job.disk|, |job.ram|)
    ensures if r.write then s.disk[r.off + d] == job.ram[r.buf + d] else s.ram[r.buf + d] == job.disk[r.off + d]
  {
    assert Moved(job.items, r, d);
    var k :| 0 <= k < |job.items| && Moves(job.items[k], r, d);
    assert Fits(job, job.items[k]);
    ItemByte(job, s, r, job.items[k], d);
  }

  // What a request does run alone, to a drive and a memory that were `disk` and `ram` before it.
  ghost predicate Effect(disk: seq<byte>, ram: seq<byte>, newDisk: seq<byte>, newRam: seq<byte>, r: Request)
    requires Inside(r, |disk|, |ram|) && |newDisk| == |disk| && |newRam| == |ram|
  {
    if r.write then newDisk[r.off..r.off + r.len] == ram[r.buf..r.buf + r.len]
    else newRam[r.buf..r.buf + r.len] == disk[r.off..r.off + r.len]
  }

  lemma RequestEffect(job: Job, s: State, r: Request)
    requires ItemsDone(job, s) && Carry(job.items, r)
    requires Inside(r, |job.disk|, |job.ram|)
    ensures Effect(job.disk, job.ram, s.disk, s.ram, r)
  {
    if r.write {
      var a, b := s.disk[r.off..r.off + r.len], job.ram[r.buf..r.buf + r.len];
      forall d | 0 <= d < r.len ensures a[d] == b[d] {
        RequestByte(job, s, r, d);
      }
    } else {
      var a, b := s.ram[r.buf..r.buf + r.len], job.disk[r.off..r.off + r.len];
      forall d | 0 <= d < r.len ensures a[d] == b[d] {
        RequestByte(job, s, r, d);
      }
    }
  }

  lemma AllItemsDone(job: Job, s: State)
    requires job.apart && AllDone(job, s)
    ensures ItemsDone(job, s)
  {
  }

  // Each request has had its effect as if it had run alone: a write's range holds its buffer, a
  // read's buffer the range as it was before the submission.
  lemma {:induction false} BatchEffect(job: Job, s: State, rs: seq<Request>, n: nat)
    requires job.items == BatchItems(rs) && job.apart && AllDone(job, s) && n < |rs|
    requires Inside(rs[n], |job.disk|, |job.ram|)
    ensures |s.disk| == |job.disk| && |s.ram| == |job.ram| && Effect(job.disk, job.ram, s.disk, s.ram, rs[n])
  {
    AllItemsDone(job, s);
    BatchCarries(rs, n);
    RequestEffect(job, s, rs[n]);
  }

  // A byte of the drive that some write is for, and a byte of memory that some read is for.
  ghost predicate WriteTarget(rs: seq<Request>, x: int) {
    exists n :: 0 <= n < |rs| && rs[n].write && rs[n].off <= x < rs[n].off + rs[n].len
  }

  ghost predicate ReadTarget(rs: seq<Request>, x: int) {
    exists n :: 0 <= n < |rs| && !rs[n].write && rs[n].buf <= x < rs[n].buf + rs[n].len
  }

  // All other bytes are untouched.
  lemma {:induction false} BatchLeaves(job: Job, s: State, rs: seq<Request>, x: nat)
    requires job.items == BatchItems(rs) && AllDone(job, s)
    ensures |s.disk| == |job.disk| && |s.ram| == |job.ram|
    ensures x < |s.disk| && !WriteTarget(rs, x) ==> s.disk[x] == job.disk[x]
    ensures x < |s.ram| && !ReadTarget(rs, x) ==> s.ram[x] == job.ram[x]
  {
    forall k | 0 <= k < |job.items| ensures exists n :: 0 <= n < |rs| && Within(job.items[k], rs[n]) {
      var n := RequestOf(rs, k);
    }
    assert Written(job, s, x) ==> WriteTarget(rs, x);
    assert Filled(job, s, x) ==> ReadTarget(rs, x);
  }

  predicate RequestAligned(r: Request, blockSize: nat) {
    blockSize > 0 && r.off % blockSize == 0 && r.len % blockSize == 0
  }

  lemma ItemRange(r: Request, i: nat)
    requires i < Pieces(r.len)
    ensures RequestItems(r)[i].offset == r.off + i * SPLIT && RequestItems(r)[i].len == PieceLen(r.len, i)
  {
  }

  // Requests of whole blocks are cut into tasks of whole blocks.
  lemma {:induction false} BatchAligned(rs: seq<Request>, blockSize: nat, k: nat)
    requires PowerOfTwo(blockSize) && blockSize <= SEGMENT && k < |BatchItems(rs)|
    requires forall n {:trigger RequestAligned(rs[n], blockSize)} :: 0 <= n < |rs| ==> RequestAligned(rs[n], blockSize)
    ensures BatchItems(rs)[k].offset % blockSize == 0 && BatchItems(rs)[k].len % blockSize == 0
    decreases |rs|
  {
    var last := |rs| - 1;
    var before := |BatchItems(rs[..last])|;
    assert RequestAligned(rs[last], blockSize);
    if k < before {
      forall n | 0 <= n < last ensures RequestAligned(rs[..last][n], blockSize) {
        assert RequestAligned(rs[n], blockSize);
      }
      BatchAligned(rs[..last], blockSize, k);
    } else {
      var r := rs[last];
      PieceIsAligned(r.off, r.len, k - before, blockSize);
      ItemRange(r, k - before);
    }
  }
}
