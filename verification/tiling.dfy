// How a request is cut into tasks of at most 128 KiB, and what the tasks of one request do together.
module Tiling {
  import opened BitOp
  import opened IoModel
  import opened Segments

  // Number of tasks for `len` bytes.
  function Pieces(len: nat): (n: nat)
    ensures n * SPLIT < len + SPLIT && len <= n * SPLIT
  {
    (len + SPLIT - 1) / SPLIT
  }

  function PieceLen(len: nat, i: nat): nat
    requires i * SPLIT <= len
  {
    Min(len - i * SPLIT, SPLIT)
  }

  function WriteItem(off: nat, len: nat, buf: nat, i: nat): Item
    requires i * SPLIT <= len
  {
    Item(true, off + i * SPLIT, PieceLen(len, i), buf + i * SPLIT, 0, 0)
  }

  function WriteItems(off: nat, len: nat, buf: nat): (items: seq<Item>)
    ensures |items| == Pieces(len)
  {
    seq(Pieces(len), i requires 0 <= i < Pieces(len) => WriteItem(off, len, buf, i))
  }

  // A read of `len` bytes at `off` through the window of `alignedLen` bytes at `alignedOff`.
  datatype Window = Window(alignedOff: nat, alignedLen: nat, off: nat, len: nat) {
    predicate Contains() {
      && alignedOff <= off && off + len <= alignedOff + alignedLen
      && off - alignedOff < SEGMENT
    }

    // Bytes of the request that the first `i` pieces hold.
    function Copied(i: nat): (c: nat)
      requires Contains()
      ensures c <= len
    {
      if i == 0 then 0
      else if Min(i * SPLIT, alignedLen) <= off - alignedOff then 0
      else Min(Min(i * SPLIT, alignedLen) - (off - alignedOff), len)
    }
  }

  function ReadItem(w: Window, buf: nat, i: nat): Item
    requires w.Contains() && i * SPLIT <= w.alignedLen
  {
    Item(false, w.alignedOff + i * SPLIT, PieceLen(w.alignedLen, i), buf + w.Copied(i),
         if i == 0 then w.off - w.alignedOff else 0,
         if w.Copied(i + 1) >= w.Copied(i) then w.Copied(i + 1) - w.Copied(i) else 0)
  }

  function ReadItems(w: Window, buf: nat): (items: seq<Item>)
    requires w.Contains()
    ensures |items| == Pieces(w.alignedLen)
  {
    seq(Pieces(w.alignedLen), i requires 0 <= i < Pieces(w.alignedLen) => ReadItem(w, buf, i))
  }

  // ---- 64-bit arithmetic ----

  // The item as the fields of a task hold it: offsets and addresses wrap.
  function InWord(t: Item): Item {
    t.(offset := t.offset % WORD, buf := t.buf % WORD)
  }

  function InWords(items: seq<Item>): (r: seq<Item>)
    ensures |r| == |items|
  {
    seq(|items|, i requires 0 <= i < |items| => InWord(items[i]))
  }

  // A range that does not wrap, to or from a buffer that does not, is cut without wrapping.
  lemma WriteDoesNotWrap(off: nat, len: nat, buf: nat)
    requires off + len <= WORD && buf + len <= WORD
    ensures InWords(WriteItems(off, len, buf)) == WriteItems(off, len, buf)
  {
    forall i | 0 <= i < Pieces(len) ensures InWord(WriteItem(off, len, buf, i)) == WriteItem(off, len, buf, i) {
    }
  }

  lemma ReadDoesNotWrap(w: Window, buf: nat)
    requires w.Contains() && w.len > 0 && w.alignedOff + w.alignedLen <= WORD && buf + w.len < WORD
    ensures InWords(ReadItems(w, buf)) == ReadItems(w, buf)
  {
    forall i | 0 <= i < Pieces(w.alignedLen) ensures InWord(ReadItem(w, buf, i)) == ReadItem(w, buf, i) {
    }
  }

  // Where the loop that cuts a read stands after `n` turns, and the end it compares with.
  function CutAt(w: Window, n: nat): nat {
    (w.alignedOff + n * SPLIT) % WORD
  }

  function CutEnd(w: Window): Word
    requires w.alignedOff < WORD && w.alignedLen < WORD
  {
    WordSum(w.alignedOff, w.alignedLen)
  }

  predicate Wraps(w: Window) {
    w.alignedOff + w.alignedLen >= WORD
  }

  // The step past the last piece does not wrap.
  predicate CutEnds(w: Window) {
    Wraps(w) || w.alignedOff + Pieces(w.alignedLen) * SPLIT < WORD
  }

  // Past the end it would start over, and come by the same places again.
  lemma CutGoesOn(w: Window, n: nat)
    requires 0 < w.alignedLen < WORD && w.alignedOff < WORD && !CutEnds(w)
    ensures CutAt(w, n) < CutEnd(w)
  {
    var q, r := w.alignedOff / SPLIT, w.alignedOff % SPLIT;
    var turns := WORD / SPLIT;
    assert turns * SPLIT == WORD;
    var at := w.alignedOff + n * SPLIT;
    assert at == (q + n) * SPLIT + r;
    var k := (q + n) / turns;
    var m := (q + n) % turns;
    assert q + n == k * turns + m;
    assert at == k * WORD + (m * SPLIT + r);
    MulStep(m, turns, SPLIT);
    ModUnique(at, WORD, k, m * SPLIT + r);
    var last := q + Pieces(w.alignedLen) - 1;
    assert last * SPLIT + r == w.alignedOff + (Pieces(w.alignedLen) - 1) * SPLIT;
    assert last >= turns - 1;
  }

  // The loop that cuts a read ends if and only if the end wraps, when it does nothing, or the step
  // past the last piece does not.
  lemma CutEndsIff(w: Window)
    requires 0 < w.alignedLen < WORD && w.alignedOff < WORD
    ensures (exists n {:trigger CutAt(w, n)} :: CutAt(w, n) >= CutEnd(w)) <==> CutEnds(w)
  {
    if Wraps(w) {
      assert CutAt(w, 0) >= CutEnd(w);
    } else if CutEnds(w) {
      assert CutAt(w, Pieces(w.alignedLen)) >= CutEnd(w);
    } else {
      forall n: nat ensures CutAt(w, n) < CutEnd(w) {
        CutGoesOn(w, n);
      }
    }
  }

  // What the loop appends: nothing if the end wraps.
  function CutItems(w: Window, buf: nat): seq<Item>
    requires w.Contains()
  {
    if Wraps(w) then [] else InWords(ReadItems(w, buf))
  }

  // The piece of a write that holds byte `size` of the drive reaches past it.
  lemma PieceOver(off: nat, len: nat, buf: nat, size: nat) returns (i: nat)
    requires off < size < off + len && size < WORD
    ensures i < Pieces(len)
    ensures var t := InWord(WriteItem(off, len, buf, i)); t.offset + t.len > size
  {
    i := (size - off) / SPLIT;
    assert off + i * SPLIT <= size;
  }

  lemma PieceInside(off: nat, len: nat, buf: nat, i: nat)
    requires off + len <= WORD && i < Pieces(len)
    ensures var t := InWord(WriteItem(off, len, buf, i)); t.offset + t.len <= off + len
  {
  }

  // The tasks of a read cover the window from end to end, and their copies the destination:
  // each starts where the one before stopped, each byte goes to its place, none is left over.
  lemma ReadTiling(w: Window, buf: nat, i: nat)
    requires w.Contains() && w.len > 0 && i < Pieces(w.alignedLen)
    ensures var items := ReadItems(w, buf);
      && items[0].offset == w.alignedOff && items[0].buf == buf
      && (if i + 1 < |items|
          then items[i + 1].offset == items[i].offset + items[i].len
               && items[i + 1].buf == items[i].buf + items[i].tmpLen
          else items[i].offset + items[i].len == w.alignedOff + w.alignedLen
               && items[i].buf + items[i].tmpLen == buf + w.len)
      && (items[i].tmpLen > 0 ==> items[i].offset + items[i].tmpOff == w.off + (items[i].buf - buf))
      && 0 < items[i].len <= SPLIT && items[i].tmpOff + items[i].tmpLen <= items[i].len
      && SegCount(items[i].len) <= INLINE / 2
  {
  }

  // The variables of the splitting loop at the head of a turn, all of them words.
  datatype Turn = Turn(begin: Word, tmpOff: nat, to: Word, remain: nat)

  // One turn appends `t` and goes from `s` to `n`.
  ghost predicate TurnTo(end: Word, s: Turn, t: Item, n: Turn) {
    s.begin < end && s.tmpOff <= Min(end - s.begin, SPLIT) &&
    var size := Min(end - s.begin, SPLIT);
    var tmpLen := Min(s.remain, size - s.tmpOff);
    && t == Item(false, s.begin, size, s.to, s.tmpOff, tmpLen)
    && n == Turn(WordSum(s.begin, SPLIT), 0, WordSum(s.to, tmpLen), s.remain - tmpLen)
  }

  ghost predicate TurnAppends(w: Window, items: seq<Item>, turns: seq<Turn>, i: nat)
    requires w.alignedOff < WORD && w.alignedLen < WORD && i < |items| && |turns| == |items| + 1
  {
    TurnTo(CutEnd(w), turns[i], items[i], turns[i + 1])
  }

  // The loop appends `items` turn by turn, stepping through `turns`, and then ends. A window of
  // one piece has at most one turn.
  ghost predicate Splits(w: Window, buf: nat, items: seq<Item>, turns: seq<Turn>)
    requires w.Contains()
  {
    && w.alignedOff < WORD && w.alignedLen < WORD && w.len < WORD && buf < WORD
    && |turns| == |items| + 1
    && turns[0] == Turn(w.alignedOff, w.off - w.alignedOff, buf, w.len)
    && (forall i {:trigger TurnAppends(w, items, turns, i)} :: 0 <= i < |items| ==> TurnAppends(w, items, turns, i))
    && turns[|items|].begin >= CutEnd(w)
    && (w.alignedLen <= SPLIT ==> |items| <= 1)
  }

  function TurnAt(w: Window, buf: nat, i: nat): Turn
    requires w.Contains()
  {
    Turn(CutAt(w, i), if i == 0 then w.off - w.alignedOff else 0, (buf + w.Copied(i)) % WORD, w.len - w.Copied(i))
  }

  // The loop's variables are those of turn `i`.
  ghost predicate AtTurn(w: Window, buf: nat, items: seq<Item>, turns: seq<Turn>, i: nat, t: Turn) {
    w.Contains() && Splits(w, buf, items, turns) && i <= |items| && turns[i] == t
  }

  // The loop goes on exactly as long as items are missing, and a window of one piece is one item.
  lemma NextTurn(w: Window, buf: nat, items: seq<Item>, turns: seq<Turn>, i: nat, t: Turn)
    requires AtTurn(w, buf, items, turns, i, t)
    ensures t.begin < CutEnd(w) <==> i < |items|
    ensures i < |items| ==> TurnTo(CutEnd(w), t, items[i], turns[i + 1])
    ensures i < |items| && w.alignedLen <= SPLIT ==>
      i == 0 && |items| == 1 && items[0].offset == w.alignedOff && items[0].len == w.alignedLen
  {
    if i < |items| { assert TurnAppends(w, items, turns, i); }
  }

  lemma CopiedMore(w: Window, i: nat)
    requires w.Contains() && w.len > 0 && i < Pieces(w.alignedLen)
    ensures var c, d, at := w.Copied(i), w.Copied(i + 1), if i == 0 then w.off - w.alignedOff else 0;
      c <= d && at <= PieceLen(w.alignedLen, i) && d - c == Min(w.len - c, PieceLen(w.alignedLen, i) - at)
  {
  }

  lemma WordAdd(a: nat, b: Word)
    ensures WordSum(a % WORD, b) == (a + b) % WORD
  {
  }

  lemma CutAdvances(w: Window, i: nat)
    requires w.alignedOff + w.alignedLen < WORD && i < Pieces(w.alignedLen)
    requires w.alignedOff + Pieces(w.alignedLen) * SPLIT < WORD
    ensures w.alignedOff + i * SPLIT == CutAt(w, i) < CutEnd(w) == w.alignedOff + w.alignedLen
    ensures CutAt(w, i + 1) == WordSum(CutAt(w, i), SPLIT)
    ensures PieceLen(w.alignedLen, i) == Min(CutEnd(w) - CutAt(w, i), SPLIT)
  {
    var at := w.alignedOff + i * SPLIT;
    assert at + SPLIT == w.alignedOff + (i + 1) * SPLIT;
    assert (i + 1) * SPLIT <= Pieces(w.alignedLen) * SPLIT;
  }

  lemma ReadTurn(w: Window, buf: nat, i: nat)
    requires w.Contains() && w.len > 0 && w.alignedOff + w.alignedLen < WORD && w.len < WORD
    requires w.alignedOff + Pieces(w.alignedLen) * SPLIT < WORD && i < Pieces(w.alignedLen)
    ensures TurnTo(CutEnd(w), TurnAt(w, buf, i), InWord(ReadItem(w, buf, i)), TurnAt(w, buf, i + 1))
  {
    CutAdvances(w, i);
    CopiedMore(w, i);
    WordAdd(buf + w.Copied(i), w.Copied(i + 1) - w.Copied(i));
    assert InWord(ReadItem(w, buf, i)).offset == CutAt(w, i);
  }

  lemma ReadTurns(w: Window, buf: nat, turns: seq<Turn>)
    requires w.Contains() && w.len > 0 && w.alignedOff + w.alignedLen < WORD && w.len < WORD
    requires w.alignedOff + Pieces(w.alignedLen) * SPLIT < WORD && |turns| == Pieces(w.alignedLen) + 1
    requires forall i :: 0 <= i < |turns| ==> turns[i] == TurnAt(w, buf, i)
    ensures forall i {:trigger TurnAppends(w, CutItems(w, buf), turns, i)} ::
      0 <= i < Pieces(w.alignedLen) ==> TurnAppends(w, CutItems(w, buf), turns, i)
  {
    forall i | 0 <= i < Pieces(w.alignedLen) ensures TurnAppends(w, CutItems(w, buf), turns, i) {
      ReadTurn(w, buf, i);
      assert CutItems(w, buf)[i] == InWord(ReadItem(w, buf, i));
    }
  }

  // The closed form of the pieces is what the loop computes, whenever it ends.
  lemma ReadItemsSplit(w: Window, buf: nat) returns (turns: seq<Turn>)
    requires w.Contains() && w.len > 0 && CutEnds(w)
    requires w.alignedOff < WORD && w.alignedLen < WORD && w.len < WORD && buf < WORD
    ensures Splits(w, buf, CutItems(w, buf), turns)
  {
    if Wraps(w) {
      turns := [TurnAt(w, buf, 0)];
    } else {
      var n := Pieces(w.alignedLen);
      turns := seq(n + 1, i requires 0 <= i <= n => TurnAt(w, buf, i));
      ReadTurns(w, buf, turns);
      assert turns[n].begin == w.alignedOff + n * SPLIT;
    }
  }

  // A read whose window ends a piece before the address space does is cut without wrapping.
  lemma ReadIsCut(w: Window, buf: nat)
    requires w.Contains() && w.len > 0 && w.alignedOff + w.alignedLen + SPLIT <= WORD && buf + w.len < WORD
    ensures CutEnds(w) && CutItems(w, buf) == ReadItems(w, buf) && |ReadItems(w, buf)| > 0
  {
    ReadDoesNotWrap(w, buf);
  }

  lemma WritesFit(job: Job, off: nat, len: nat, buf: nat)
    requires job.items == WriteItems(off, len, buf) && job.rc == 0 && !job.sub
    requires off + len <= |job.disk| && buf + len <= |job.ram|
    ensures JobOk(job)
  {
    forall i | 0 <= i < |job.items| ensures Fits(job, job.items[i]) {
    }
    forall i, j | 0 <= i < j < |job.items| ensures Apart(job.items[i], job.items[j]) {
    }
  }

  lemma ReadsFit(job: Job, w: Window, buf: nat)
    requires w.Contains() && w.len > 0 && job.items == ReadItems(w, buf)
    requires job.sub ==> job.rc != 0
    requires w.alignedOff + w.alignedLen <= |job.disk| && buf + w.len <= |job.ram|
    ensures JobOk(job)
  {
    forall i | 0 <= i < |job.items| ensures Fits(job, job.items[i]) {
    }
    forall i, j | 0 <= i < j < |job.items| ensures Apart(job.items[i], job.items[j]) {
    }
  }

  lemma TaskIsDone(job: Job, s: State, i: nat)
    requires AllDone(job, s) && job.apart && i < |job.items|
    ensures |s.disk| == |job.disk| && |s.ram| == |job.ram|
    ensures Fits(job, job.items[i]) && Done(job, s, job.items[i])
  {
    assert Fits(job, job.items[i]);
  }

  lemma WrittenAt(job: Job, s: State, t: Item, d: nat)
    requires |s.disk| == |job.disk| && |s.ram| == |job.ram| && Fits(job, t) && Done(job, s, t)
    requires t.write && d < t.len
    ensures s.disk[t.offset + d] == job.ram[t.buf + d]
  {
    assert s.disk[t.offset..t.offset + t.len][d] == job.ram[t.buf..t.buf + t.len][d];
  }

  lemma WriteAt(job: Job, s: State, off: nat, len: nat, buf: nat, d: nat)
    requires job.items == WriteItems(off, len, buf) && job.apart && AllDone(job, s)
    requires off + len <= |job.disk| == |s.disk| && buf + len <= |job.ram| && d < len
    ensures s.disk[off + d] == job.ram[buf + d]
  {
    var i := d / SPLIT;
    TaskIsDone(job, s, i);
    WrittenAt(job, s, WriteItem(off, len, buf, i), d - i * SPLIT);
  }

  lemma NotWritten(job: Job, s: State, off: nat, len: nat, buf: nat, x: nat)
    requires job.items == WriteItems(off, len, buf) && AllDone(job, s)
    requires x < |s.disk| == |job.disk| && !(off <= x < off + len)
    ensures s.disk[x] == job.disk[x]
  {
    forall i | 0 <= i < |job.items| ensures !(job.items[i].offset <= x < job.items[i].offset + job.items[i].len) {
      assert job.items[i] == WriteItem(off, len, buf, i);
    }
    assert !Written(job, s, x);
  }

  lemma NothingFilled(job: Job, s: State, x: nat)
    requires AllDone(job, s) && x < |s.ram| == |job.ram|
    requires forall i :: 0 <= i < |job.items| ==> job.items[i].write
    ensures s.ram[x] == job.ram[x]
  {
    assert !Filled(job, s, x);
  }

  lemma NothingWritten(job: Job, s: State, x: nat)
    requires AllDone(job, s) && x < |s.disk| == |job.disk|
    requires forall i :: 0 <= i < |job.items| ==> !job.items[i].write
    ensures s.disk[x] == job.disk[x]
  {
    assert !Written(job, s, x);
  }

  // When all tasks of a write are done, the drive holds the buffer in its range and is
  // otherwise as it was.
  lemma WriteEffect(job: Job, s: State, off: nat, len: nat, buf: nat)
    requires job.items == WriteItems(off, len, buf) && job.apart && AllDone(job, s)
    requires off + len <= |job.disk| && buf + len <= |job.ram|
    ensures s.disk == Splice(job.disk, off, job.ram[buf..buf + len]) && s.ram == job.ram
  {
    var want := Splice(job.disk, off, job.ram[buf..buf + len]);
    forall x | 0 <= x < |s.disk| ensures s.disk[x] == want[x] {
      if off <= x < off + len {
        WriteAt(job, s, off, len, buf, x - off);
      } else {
        NotWritten(job, s, off, len, buf, x);
      }
    }
    forall x | 0 <= x < |s.ram| ensures s.ram[x] == job.ram[x] {
      NothingFilled(job, s, x);
    }
  }

  // The task that fills byte `d` of the destination, and the byte of the drive it comes from.
  lemma PieceOf(w: Window, buf: nat, d: nat) returns (i: nat)
    requires w.Contains() && d < w.len
    ensures i < Pieces(w.alignedLen)
    ensures var t := ReadItem(w, buf, i);
      t.buf <= buf + d < t.buf + t.tmpLen && t.offset + t.tmpOff + (buf + d - t.buf) == w.off + d
  {
    i := (w.off - w.alignedOff + d) / SPLIT;
  }

  lemma DoneAt(job: Job, s: State, t: Item, d: nat)
    requires |s.disk| == |job.disk| && |s.ram| == |job.ram| && Fits(job, t) && Done(job, s, t)
    requires !t.write && d < t.tmpLen
    ensures s.ram[t.buf + d] == job.disk[t.offset + t.tmpOff + d]
  {
    assert s.ram[t.buf..t.buf + t.tmpLen][d] == job.disk[t.offset + t.tmpOff..t.offset + t.tmpOff + t.tmpLen][d];
  }

  lemma ReadAt(job: Job, s: State, w: Window, buf: nat, d: nat)
    requires w.Contains() && job.items == ReadItems(w, buf) && job.apart && AllDone(job, s)
    requires w.off + w.len <= |job.disk| && buf + w.len <= |job.ram| == |s.ram| && d < w.len
    ensures s.ram[buf + d] == job.disk[w.off + d]
  {
    var i := PieceOf(w, buf, d);
    TaskIsDone(job, s, i);
    DoneAt(job, s, ReadItem(w, buf, i), buf + d - ReadItem(w, buf, i).buf);
  }

  lemma NotRead(job: Job, s: State, w: Window, buf: nat, x: nat)
    requires w.Contains() && job.items == ReadItems(w, buf) && AllDone(job, s)
    requires x < |s.ram| == |job.ram| && !(buf <= x < buf + w.len)
    ensures s.ram[x] == job.ram[x]
  {
    forall i | 0 <= i < |job.items| ensures !(job.items[i].buf <= x < job.items[i].buf + job.items[i].tmpLen) {
      assert job.items[i] == ReadItem(w, buf, i);
    }
    assert !Filled(job, s, x);
  }

  // When all tasks of a read are done, the caller's buffer holds exactly the bytes asked for,
  // and nothing else has changed.
  lemma ReadEffect(job: Job, s: State, w: Window, buf: nat)
    requires w.Contains() && job.items == ReadItems(w, buf) && job.apart && AllDone(job, s)
    requires w.off + w.len <= |job.disk| && buf + w.len <= |job.ram|
    ensures s.ram == Splice(job.ram, buf, job.disk[w.off..w.off + w.len]) && s.disk == job.disk
  {
    var want := Splice(job.ram, buf, job.disk[w.off..w.off + w.len]);
    forall x | 0 <= x < |s.ram| ensures s.ram[x] == want[x] {
      if buf <= x < buf + w.len {
        ReadAt(job, s, w, buf, x - buf);
      } else {
        NotRead(job, s, w, buf, x);
      }
    }
    forall x | 0 <= x < |s.disk| ensures s.disk[x] == job.disk[x] {
      NothingWritten(job, s, x);
    }
  }

  // ---- Block sizes ----

  lemma SplitIsAligned(blockSize: nat)
    requires PowerOfTwo(blockSize) && blockSize <= SEGMENT
    ensures SPLIT % blockSize == 0
  {
    var k :| blockSize == Pow2(k);
    assert Pow2(13) == SEGMENT && Pow2(17) == SPLIT;
    if k > 13 { Pow2Monotone(14, k); }
    Pow2Monotone(k, 17);
  }

  lemma RestOfWordIsAligned(blockSize: nat)
    requires PowerOfTwo(blockSize) && blockSize <= SEGMENT
    ensures blockSize % blockSize == 0 && (WORD - blockSize) % blockSize == 0
  {
    MaskIsAlign(0, blockSize);
    ModUnique(blockSize, blockSize, 1, 0);
    MultiplesAdd(WORD, blockSize, blockSize);
  }

  lemma PositiveMultiple(a: nat, m: nat)
    requires m > 0 && a > 0 && a % m == 0
    ensures a >= m
  {
  }

  lemma LastMultiple(size: nat, piece: nat, word: nat, m: nat)
    requires m > 0 && size % m == 0 && piece % m == 0 && word % m == 0 && 0 < size && word < size + piece
    ensures m <= size && (size - m) % m == 0 && size - m + piece >= word
  {
    PositiveMultiple(size, m);
    ModUnique(m, m, 1, 0);
    MultiplesAdd(size, m, m);
    MultiplesAdd(size, piece, m);
    MultiplesAdd(size + piece, word, m);
    PositiveMultiple(size + piece - word, m);
  }

  // A device of whole blocks that ends within one piece of the address space: past its last block
  // there is no room for another piece.
  lemma LastBlock(blockSize: nat, size: nat)
    requires PowerOfTwo(blockSize) && blockSize <= SEGMENT && size % blockSize == 0 && 0 < size < WORD < size + SPLIT
    ensures blockSize <= size && (size - blockSize) % blockSize == 0 && blockSize % blockSize == 0
    ensures size - blockSize + SPLIT >= WORD
  {
    RestOfWordIsAligned(blockSize);
    SplitIsAligned(blockSize);
    MultiplesAdd(WORD - blockSize, blockSize, blockSize);
    LastMultiple(size, SPLIT, WORD, blockSize);
  }

  lemma MultiplesAdd(a: nat, b: nat, m: nat)
    requires m > 0 && a % m == 0 && b % m == 0
    ensures (a + b) % m == 0 && (a >= b ==> (a - b) % m == 0)
  {
    var p, q := a / m, b / m;
    DivMod(a, m);
    DivMod(b, m);
    assert (p + q) * m == a + b;
    ModUnique(a + b, m, p + q, 0);
    if a >= b {
      assert (p - q) * m == a - b;
      ModUnique(a - b, m, p - q, 0);
    }
  }

  lemma {:induction false} MultipleOfMultiple(i: nat, a: nat, m: nat)
    requires m > 0 && a % m == 0
    ensures (i * a) % m == 0
    decreases i
  {
    if i == 0 {
      MultipleIsZeroMod(0, m);
    } else {
      MultipleOfMultiple(i - 1, a, m);
      MultiplesAdd((i - 1) * a, a, m);
      assert (i - 1) * a + a == i * a;
    }
  }

  // Cutting whole blocks at 128 KiB gives whole blocks.
  lemma PieceIsAligned(off: nat, len: nat, i: nat, blockSize: nat)
    requires PowerOfTwo(blockSize) && blockSize <= SEGMENT
    requires off % blockSize == 0 && len % blockSize == 0 && i * SPLIT <= len
    ensures (off + i * SPLIT) % blockSize == 0 && PieceLen(len, i) % blockSize == 0
  {
    SplitIsAligned(blockSize);
    MultipleOfMultiple(i, SPLIT, blockSize);
    MultiplesAdd(off, i * SPLIT, blockSize);
    MultiplesAdd(len, i * SPLIT, blockSize);
  }

  // The least window of whole blocks around a range stays inside a device of whole blocks.
  lemma WindowAround(off: nat, len: nat, size: nat, m: nat)
    requires m > 0 && size % m == 0 && off + len <= size
    ensures var start, end := off - off % m, RoundUp(off + len, m);
      && start % m == 0 && start <= off < start + m && off + len <= end <= size
      && start <= end && (end - start) % m == 0
  {
    var end := RoundUp(off + len, m);
    LeastMultipleIsLeast(end, off + len, m, size);
    AlignedDown(off, m);
    MultiplesAdd(end, off - off % m, m);
  }

  lemma AlignedDown(off: nat, m: nat)
    requires m > 0
    ensures 0 <= off % m < m && off - off % m >= 0 && (off - off % m) % m == 0
  {
    DivMod(off, m);
    ModUnique(off - off % m, m, off / m, 0);
  }
}
