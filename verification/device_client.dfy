// A caller of the synchronous interface: it opens a device, writes, and reads back what it likes.
module DeviceClient {
  import opened BitOp
  import opened NvmeDevice
  import opened Segments

  lemma SlicesAgree(disk: seq<byte>, off: nat, data: seq<byte>, at: nat, n: nat)
    requires off + |data| <= |disk| && off <= at && at + n <= off + |data|
    ensures Splice(disk, off, data)[at..at + n] == data[at - off..at - off + n]
  {
  }

  // Any part of what has been written, aligned or not, is read back as it was in memory.
  method WriteThenRead(dev: Device, off: Word, len: Word, from: nat, at: Word, n: Word, to: nat)
    requires dev.Valid() && dev.IsValidIo(off, len) && from + len <= |dev.queue.ram|
    requires n > 0 && off <= at && at + n <= off + len && to + n <= |dev.queue.ram|
    modifies dev.queue
    ensures dev.Valid()
    ensures dev.queue.ram == Splice(old(dev.queue.ram), to,
                                    old(dev.queue.ram)[from + (at - off)..from + (at - off) + n])
    ensures off + len <= |old(dev.queue.disk)|
    ensures dev.queue.disk == Splice(old(dev.queue.disk), off, old(dev.queue.ram)[from..from + len])
  {
    dev.EndDoesNotWrap(off, len);
    ghost var disk, data := dev.queue.disk, dev.queue.ram[from..from + len];
    var r := dev.Write(off, len, from);
    SlicesAgree(disk, off, data, at, n);
    r := dev.ReadRandom(at, n, to);
    assert data[at - off..at - off + n] == old(dev.queue.ram)[from + (at - off)..from + (at - off) + n];
  }

  // The same on a device just opened, if it accepts the write.
  method OpenWriteRead(blockSize: nat, maxQueueDepth: nat, disk: seq<byte>, ram: seq<byte>,
                       off: Word, len: Word, from: nat, at: Word, n: Word, to: nat)
    returns (dev: Device, accepted: bool)
    requires PowerOfTwo(blockSize) && blockSize <= SEGMENT && maxQueueDepth > 0
    requires |disk| + |ram| <= WORD && |disk| + SPLIT <= WORD
    requires from + len <= |ram| && n > 0 && off <= at && at + n <= off + len && to + n <= |ram|
    ensures fresh(dev) && dev.Valid() && (accepted <==> dev.IsValidIo(off, len))
    ensures accepted ==> dev.queue.ram == Splice(ram, to, ram[from + (at - off)..from + (at - off) + n])
  {
    dev := new Device(blockSize, maxQueueDepth, disk, ram);
    accepted := dev.IsValidIo(off, len);
    if accepted {
      WriteThenRead(dev, off, len, from, at, n, to);
    }
  }
}
