// The pool's 8 KiB segments, the bytes a task's segments hold in order, and the
// scatter/gather cursor that shows them to the NVMe driver.
module Segments {
  newtype byte = x: int | 0 <= x < 0x100

  const SEGMENT: nat := 8192
  const POOL: nat := 1024
  const INLINE: nat := 32
  const SPLIT: nat := 131072

  // The contents of the segments; a segment's address is its index.
  type Memory = seq<seq<byte>>

  ghost predicate Shaped(mem: Memory) {
    forall s :: 0 <= s < |mem| ==> |mem[s]| == SEGMENT
  }

  ghost predicate InPool(mem: Memory, segs: seq<nat>) {
    forall i :: 0 <= i < |segs| ==> segs[i] < |mem|
  }

  ghost predicate Differ<T>(list: seq<T>, i: nat, j: nat)
    requires i < |list| && j < |list|
  {
    list[i] != list[j]
  }

  ghost predicate Distinct<T>(list: seq<T>) {
    forall i: nat, j: nat {:trigger Differ(list, i, j)} :: i < j < |list| ==> Differ(list, i, j)
  }

  // A member of a list of distinct ones is in one place only.
  lemma OnePlace<T>(list: seq<T>, k: nat)
    requires Distinct(list) && k < |list|
    ensures forall i :: 0 <= i < |list| && i != k ==> list[i] != list[k]
  {
    forall i | 0 <= i < |list| && i != k ensures list[i] != list[k] {
      assert if i < k then Differ(list, i, k) else Differ(list, k, i);
    }
  }

  // Segments needed for `len` bytes.
  function SegCount(len: nat): nat {
    len / SEGMENT + if len % SEGMENT != 0 then 1 else 0
  }

  lemma SegCountFits(len: nat)
    ensures len <= SegCount(len) * SEGMENT < len + SEGMENT
    ensures len > 0 ==> SegCount(len) > 0
  {
  }

  // The bytes of `segs` one after the other.
  ghost function Flat(mem: Memory, segs: seq<nat>): (r: seq<byte>)
    requires Shaped(mem) && InPool(mem, segs)
    ensures |r| == |segs| * SEGMENT
  {
    seq(|segs| * SEGMENT, k requires 0 <= k < |segs| * SEGMENT => mem[segs[k / SEGMENT]][k % SEGMENT])
  }

  lemma FlatPart(mem: Memory, segs: seq<nat>, i: nat, off: nat, len: nat)
    requires Shaped(mem) && InPool(mem, segs) && i < |segs| && off + len <= SEGMENT
    ensures i * SEGMENT + off + len <= |segs| * SEGMENT
    ensures Flat(mem, segs)[i * SEGMENT + off..i * SEGMENT + off + len] == mem[segs[i]][off..off + len]
  {
    var a := Flat(mem, segs)[i * SEGMENT + off..i * SEGMENT + off + len];
    var b := mem[segs[i]][off..off + len];
    forall k | 0 <= k < len ensures a[k] == b[k] {
      assert (i * SEGMENT + off + k) / SEGMENT == i;
    }
  }

  // ---- The cursor ----

  // `left` counts the bytes still to show of a segment entered in the middle.
  datatype Cursor = Cursor(idx: nat, left: nat)

  // A range of bytes of one segment: `slot` indexes the task's segments.
  datatype Sge = Sge(slot: nat, off: nat, len: nat)

  function Min(a: nat, b: nat): nat {
    if a <= b then a else b
  }

  function ResetCursor(len: nat, o: nat): Cursor
    requires o <= len
  {
    var i := o / SEGMENT;
    if i < SegCount(len) then Cursor(i, Min((i + 1) * SEGMENT, len) - o) else Cursor(i, 0)
  }

  function SlotSize(len: nat, idx: nat): nat {
    if idx + 1 == SegCount(len) && len % SEGMENT != 0 then len % SEGMENT else SEGMENT
  }

  ghost predicate CursorOk(len: nat, c: Cursor) {
    c.idx < SegCount(len) ==> c.left <= SlotSize(len, c.idx)
  }

  function NextRange(len: nat, c: Cursor): Sge
    requires c.idx < SegCount(len) && c.left <= SlotSize(len, c.idx)
  {
    var size := SlotSize(len, c.idx);
    if c.left > 0 then Sge(c.idx, size - c.left, c.left) else Sge(c.idx, 0, size)
  }

  // What calling next until it yields length 0 shows.
  function Drain(len: nat, c: Cursor): seq<Sge>
    requires CursorOk(len, c)
    decreases SegCount(len) - c.idx
  {
    if c.idx >= SegCount(len) then []
    else [NextRange(len, c)] + Drain(len, Cursor(c.idx + 1, 0))
  }

  // The ranges are bytes [a, b) of the task, in order, each once and none empty.
  ghost predicate Covers(sges: seq<Sge>, a: nat, b: nat) {
    if sges == [] then a == b
    else
      var s := sges[0];
      && s.slot * SEGMENT + s.off == a && 0 < s.len && s.off + s.len <= SEGMENT
      && Covers(sges[1..], a + s.len, b)
  }

  lemma {:induction false} DrainCovers(len: nat, c: Cursor, a: nat)
    requires c.idx < SegCount(len) && c.left <= SlotSize(len, c.idx)
    requires a == c.idx * SEGMENT + if c.left > 0 then SlotSize(len, c.idx) - c.left else 0
    ensures Covers(Drain(len, c), a, len)
    decreases SegCount(len) - c.idx
  {
    var next := Cursor(c.idx + 1, 0);
    var rest := Drain(len, next);
    assert Drain(len, c)[1..] == rest;
    if next.idx == SegCount(len) {
      assert rest == [];
    } else {
      DrainCovers(len, next, next.idx * SEGMENT);
    }
  }

  lemma ResetInSegment(len: nat, o: nat)
    requires o < len
    ensures var c := ResetCursor(len, o);
      && c.idx < SegCount(len) && 0 < c.left <= SlotSize(len, c.idx)
      && o == c.idx * SEGMENT + SlotSize(len, c.idx) - c.left
  {
  }

  // A reset to any offset within the task followed by next until it is exhausted shows
  // exactly the task's bytes from there on. A reset to the very end shows nothing only if the last
  // segment is full; otherwise it starts over with the short tail.
  lemma ResetThenDrain(len: nat, o: nat)
    requires o <= len
    ensures CursorOk(len, ResetCursor(len, o))
    ensures Covers(Drain(len, ResetCursor(len, o)), o, len) <==> o < len || len % SEGMENT == 0
  {
    var c := ResetCursor(len, o);
    if o < len {
      ResetInSegment(len, o);
      DrainCovers(len, c, o);
    } else if len % SEGMENT == 0 {
      assert c.idx == SegCount(len);
    } else {
      assert c == Cursor(SegCount(len) - 1, 0);
      assert Drain(len, c)[0] == NextRange(len, c);
    }
  }

  // ---- Moving bytes through the ranges ----

  ghost predicate InSlots(sges: seq<Sge>, n: nat) {
    forall i :: 0 <= i < |sges| ==> sges[i].slot < n && sges[i].off + sges[i].len <= SEGMENT
  }

  lemma {:induction false} DrainInSlots(len: nat, c: Cursor)
    requires CursorOk(len, c)
    ensures InSlots(Drain(len, c), SegCount(len))
    decreases SegCount(len) - c.idx
  {
    if c.idx >= SegCount(len) {
    } else {
      DrainInSlots(len, Cursor(c.idx + 1, 0));
    }
  }

  // The ranges are in the task's segments and show each of its bytes once, in order.
  ghost predicate Presents(sges: seq<Sge>, len: nat) {
    InSlots(sges, SegCount(len)) && Covers(sges, 0, len)
  }

  lemma {:induction false} CoversConcat(a: seq<Sge>, b: seq<Sge>, from: nat, mid: nat, to: nat)
    requires Covers(a, from, mid) && Covers(b, mid, to)
    ensures Covers(a + b, from, to)
    decreases |a|
  {
    if a == [] {
      assert a + b == b;
    } else {
      CoversConcat(a[1..], b, from + a[0].len, mid, to);
      assert (a + b)[1..] == a[1..] + b;
    }
  }

  // The cursor stands at byte `at` of the task.
  ghost predicate StandsAt(len: nat, c: Cursor, at: nat) {
    && c.idx < SegCount(len) && c.left <= SlotSize(len, c.idx)
    && at == c.idx * SEGMENT + if c.left > 0 then SlotSize(len, c.idx) - c.left else 0
  }

  // The next range starts where the cursor stands, and the cursor moves to its end.
  lemma NextStands(len: nat, c: Cursor, at: nat)
    requires StandsAt(len, c, at)
    ensures var s := NextRange(len, c);
      && s.slot == c.idx && s.slot * SEGMENT + s.off == at && 0 < s.len && s.off + s.len <= SEGMENT
      && at + s.len <= len
      && (at + s.len < len ==> StandsAt(len, Cursor(c.idx + 1, 0), at + s.len))
  {
  }

  function Gather(mem: Memory, segs: seq<nat>, sges: seq<Sge>): seq<byte>
    requires Shaped(mem) && InPool(mem, segs) && InSlots(sges, |segs|)
  {
    if sges == [] then []
    else mem[segs[sges[0].slot]][sges[0].off..sges[0].off + sges[0].len] + Gather(mem, segs, sges[1..])
  }

  lemma {:induction false} GatherCovers(mem: Memory, segs: seq<nat>, sges: seq<Sge>, a: nat, b: nat)
    requires Shaped(mem) && InPool(mem, segs) && InSlots(sges, |segs|) && Covers(sges, a, b)
    requires a <= |segs| * SEGMENT
    ensures a <= b <= |segs| * SEGMENT && Gather(mem, segs, sges) == Flat(mem, segs)[a..b]
    decreases |sges|
  {
    if sges == [] {
    } else {
      var s := sges[0];
      FlatPart(mem, segs, s.slot, s.off, s.len);
      GatherCovers(mem, segs, sges[1..], a + s.len, b);
      assert Flat(mem, segs)[a..b] == Flat(mem, segs)[a..a + s.len] + Flat(mem, segs)[a + s.len..b];
    }
  }

  function Total(sges: seq<Sge>): nat {
    if sges == [] then 0 else sges[0].len + Total(sges[1..])
  }

  lemma {:induction false} CoversTotal(sges: seq<Sge>, a: nat, b: nat)
    requires Covers(sges, a, b)
    ensures a + Total(sges) == b
  {
    if sges == [] {
    } else {
      CoversTotal(sges[1..], a + sges[0].len, b);
    }
  }

  // `to` with `data` laid over it from `off` on.
  function Splice(to: seq<byte>, off: nat, data: seq<byte>): (r: seq<byte>)
    requires off + |data| <= |to|
    ensures |r| == |to|
    ensures forall k :: 0 <= k < |to| ==> r[k] == if off <= k < off + |data| then data[k - off] else to[k]
  {
    seq(|to|, k requires 0 <= k < |to| => if off <= k < off + |data| then data[k - off] else to[k])
  }

  lemma SpliceAppend(to: seq<byte>, off: nat, a: seq<byte>, b: seq<byte>)
    requires off + |a| + |b| <= |to|
    ensures Splice(Splice(to, off, a), off + |a|, b) == Splice(to, off, a + b)
  {
  }

  function Scatter(mem: Memory, segs: seq<nat>, sges: seq<Sge>, data: seq<byte>): (r: Memory)
    requires Shaped(mem) && InPool(mem, segs) && InSlots(sges, |segs|) && |data| == Total(sges)
    ensures |r| == |mem| && Shaped(r)
    ensures forall s :: 0 <= s < |mem| && s !in segs ==> r[s] == mem[s]
    decreases |sges|
  {
    if sges == [] then mem
    else
      var s := sges[0];
      var seg := segs[s.slot];
      Scatter(mem[seg := Splice(mem[seg], s.off, data[..s.len])], segs, sges[1..], data[s.len..])
  }

  // With distinct segments, scattering bytes [a, b) changes those bytes and no other.
  lemma {:induction false} ScatterCovers(mem: Memory, segs: seq<nat>, sges: seq<Sge>, data: seq<byte>, a: nat, b: nat)
    requires Shaped(mem) && InPool(mem, segs) && InSlots(sges, |segs|) && Distinct(segs)
    requires Covers(sges, a, b) && |data| == Total(sges) && a <= |segs| * SEGMENT
    ensures a + |data| == b <= |segs| * SEGMENT
    ensures Flat(Scatter(mem, segs, sges, data), segs) == Splice(Flat(mem, segs), a, data)
    decreases |sges|
  {
    CoversTotal(sges, a, b);
    GatherCovers(mem, segs, sges, a, b);
    if sges == [] {
      assert data == [];
    } else {
      var s := sges[0];
      var seg := segs[s.slot];
      var one := mem[seg := Splice(mem[seg], s.off, data[..s.len])];
      FlatSplice(mem, segs, s.slot, s.off, data[..s.len]);
      ScatterCovers(one, segs, sges[1..], data[s.len..], a + s.len, b);
    }
  }

  lemma FlatSplice(mem: Memory, segs: seq<nat>, slot: nat, off: nat, data: seq<byte>)
    requires Shaped(mem) && InPool(mem, segs) && Distinct(segs) && slot < |segs| && off + |data| <= SEGMENT
    ensures slot * SEGMENT + off + |data| <= |segs| * SEGMENT
    ensures var seg := segs[slot];
      Flat(mem[seg := Splice(mem[seg], off, data)], segs) == Splice(Flat(mem, segs), slot * SEGMENT + off, data)
  {
    var seg := segs[slot];
    var one := mem[seg := Splice(mem[seg], off, data)];
    var l, r := Flat(one, segs), Splice(Flat(mem, segs), slot * SEGMENT + off, data);
    OnePlace(segs, slot);
    forall k | 0 <= k < |l| ensures l[k] == r[k] {
      assert k / SEGMENT != slot ==> segs[k / SEGMENT] != seg;
    }
  }

  lemma DistinctAppend<T>(list: seq<T>, x: T)
    requires Distinct(list) && x !in list
    ensures Distinct(list + [x])
  {
    var a := list + [x];
    forall i: nat, j: nat | i < j < |a| ensures Differ(a, i, j) {
      assert j < |list| ==> Differ(list, i, j);
    }
  }

  lemma DistinctPrefix<T>(list: seq<T>, n: nat)
    requires Distinct(list) && n <= |list|
    ensures Distinct(list[..n])
  {
    forall i: nat, j: nat | i < j < n ensures Differ(list[..n], i, j) {
      assert Differ(list, i, j);
    }
  }

  // Bytes of segments that were not written stay.
  lemma FlatUnchanged(before: Memory, after: Memory, segs: seq<nat>)
    requires Shaped(before) && Shaped(after) && |after| == |before| && InPool(before, segs)
    requires forall i :: 0 <= i < |segs| ==> after[segs[i]] == before[segs[i]]
    ensures Flat(after, segs) == Flat(before, segs)
  {
  }
}
