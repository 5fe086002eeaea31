// Alignment of 64-bit words by masks, against the arithmetic it stands for.
module BitOp {
  const WORD: nat := 0x1_0000_0000_0000_0000

  type Word = x: nat | x < WORD

  function Pow2(n: nat): (r: nat)
    ensures r >= 1
  {
    if n == 0 then 1 else 2 * Pow2(n - 1)
  }

  ghost predicate PowerOfTwo(a: nat) {
    exists k: nat :: a == Pow2(k)
  }

  // Bitwise conjunction.
  function And(x: nat, y: nat): nat {
    if x == 0 || y == 0 then 0 else 2 * And(x / 2, y / 2) + (x % 2) * (y % 2)
  }

  // Unsigned negation wraps.
  function Neg(x: Word): Word {
    (WORD - x) % WORD
  }

  lemma {:induction false} AndBounded(x: nat, y: nat)
    ensures And(x, y) <= x
  {
    if x == 0 || y == 0 {
    } else {
      AndBounded(x / 2, y / 2);
    }
  }

  // Unsigned addition wraps: the sum modulo 2^64.
  function WordSum(x: Word, y: Word): Word {
    if x + y < WORD then x + y else x + y - WORD
  }

  function P2Align(x: Word, align: Word): Word {
    AndBounded(x, Neg(align));
    And(x, Neg(align))
  }

  function P2Roundup(x: Word, align: Word): Word {
    AndBounded(Neg(x), Neg(align));
    Neg(And(Neg(x), Neg(align)))
  }

  lemma {:induction false} Pow2Monotone(k: nat, n: nat)
    requires k <= n
    ensures Pow2(k) <= Pow2(n) && Pow2(n) % Pow2(k) == 0
    decreases n
  {
    if k == n {
      assert Pow2(n) == 1 * Pow2(k);
      MultipleIsZeroMod(1, Pow2(k));
    } else {
      Pow2Monotone(k, n - 1);
      var q := Pow2(n - 1) / Pow2(k);
      assert Pow2(n - 1) == q * Pow2(k);
      MultipleIsZeroMod(2 * q, Pow2(k));
      assert Pow2(n) == 2 * q * Pow2(k);
    }
  }

  lemma MultipleIsZeroMod(q: nat, m: nat)
    requires m > 0
    ensures (q * m) % m == 0
  {
    ModUnique(q * m, m, q, 0);
  }

  lemma MulStep(a: int, b: int, m: nat)
    requires a < b
    ensures a * m + m <= b * m
  {
    var d := b - a - 1;
    assert d * m >= 0;
    assert b * m == (a + 1 + d) * m == a * m + m + d * m;
  }

  lemma DivMod(x: nat, m: nat)
    requires m > 0
    ensures x == (x / m) * m + x % m
  {
  }

  lemma ModUnique(x: nat, m: nat, q: int, r: nat)
    requires m > 0 && x == q * m + r && r < m
    ensures x % m == r && x / m == q
  {
    var p := x / m;
    DivMod(x, m);
    if q < p {
      MulStep(q, p, m);
    } else if p < q {
      MulStep(p, q, m);
    }
  }

  lemma ModDouble(x: nat, m: nat)
    requires m > 0
    ensures x % (2 * m) == 2 * ((x / 2) % m) + x % 2
  {
    var h := x / 2;
    assert h == (h / m) * m + h % m;
    assert x == 2 * h + x % 2;
    assert x == (h / m) * (2 * m) + (2 * (h % m) + x % 2);
    ModUnique(x, 2 * m, h / m, 2 * (h % m) + x % 2);
  }

  // A mask one bit longer and one bit further up.
  lemma MaskDoubles(mask: nat, p: nat, x: nat)
    requires p >= 1 && And(x / 2, mask) == x / 2 - (x / 2) % p
    ensures And(x, 2 * mask) == x - x % (2 * p)
  {
    AndEven(x, mask);
    ModDouble(x, p);
    var r := (x / 2) % p;
    assert x == 2 * (x / 2) + x % 2 && x % (2 * p) == 2 * r + x % 2;
  }

  // Masking with all ones from bit `k` up to bit `n` drops the low `k` bits.
  lemma {:induction false} AndOnes(n: nat, x: nat)
    requires x < Pow2(n)
    ensures And(x, Pow2(n) - 1) == x
    decreases n
  {
    if n == 0 {
    } else {
      AndOnes(n - 1, x / 2);
      AndOdd(x, Pow2(n - 1));
    }
  }

  lemma {:induction false} AndMask(n: nat, k: nat, x: nat)
    requires k <= n && x < Pow2(n)
    ensures Pow2(k) <= Pow2(n) && And(x, Pow2(n) - Pow2(k)) == x - x % Pow2(k)
    decreases n
  {
    Pow2Monotone(k, n);
    if k == n {
      assert And(x, 0) == 0;
      ModUnique(x, Pow2(n), 0, x);
    } else if k == 0 {
      AndOnes(n, x);
    } else {
      Pow2Monotone(k - 1, n - 1);
      AndMask(n - 1, k - 1, x / 2);
      MaskDoubles(Pow2(n - 1) - Pow2(k - 1), Pow2(k - 1), x);
    }
  }

  lemma AndOdd(x: nat, p: nat)
    requires p >= 1
    ensures And(x, 2 * p - 1) == 2 * And(x / 2, p - 1) + x % 2
  {
    assert (2 * p - 1) / 2 == p - 1 && (2 * p - 1) % 2 == 1;
  }

  lemma AndEven(x: nat, half: nat)
    ensures And(x, 2 * half) == 2 * And(x / 2, half)
  {
    assert (2 * half) / 2 == half && (2 * half) % 2 == 0;
  }

  lemma WordIsPow2()
    ensures WORD == Pow2(64)
  {
    assert Pow2(16) == 0x1_0000 by {
      assert Pow2(4) == 16;
      assert Pow2(8) == 256;
      assert Pow2(12) == 4096;
    }
    assert Pow2(20) == 0x10_0000;
    assert Pow2(24) == 0x100_0000;
    assert Pow2(28) == 0x1000_0000;
    assert Pow2(32) == 0x1_0000_0000;
    assert Pow2(36) == 0x10_0000_0000;
    assert Pow2(40) == 0x100_0000_0000;
    assert Pow2(44) == 0x1000_0000_0000;
    assert Pow2(48) == 0x1_0000_0000_0000;
    assert Pow2(52) == 0x10_0000_0000_0000;
    assert Pow2(56) == 0x100_0000_0000_0000;
    assert Pow2(60) == 0x1000_0000_0000_0000;
  }

  lemma PowerOfWord(align: Word) returns (k: nat)
    requires PowerOfTwo(align)
    ensures k < 64 && align == Pow2(k)
  {
    k :| align == Pow2(k);
    WordIsPow2();
    if k >= 64 { Pow2Monotone(64, k); }
  }

  lemma MaskIsAlign(x: Word, align: Word)
    requires PowerOfTwo(align)
    ensures And(x, Neg(align)) == x - x % align
    ensures WORD % align == 0
  {
    var k := PowerOfWord(align);
    WordIsPow2();
    NegPositive(align);
    Pow2Monotone(k, 64);
    AndMask(64, k, x);
  }

  // For a power of two the mask takes off exactly the remainder.
  lemma P2AlignExact(x: Word, align: Word)
    requires PowerOfTwo(align)
    ensures P2Align(x, align) == x - x % align
  {
    MaskIsAlign(x, align);
  }

  ghost predicate LeastMultiple(r: nat, x: nat, align: nat)
    requires align > 0
  {
    r % align == 0 && x <= r < x + align
  }

  function RoundUp(x: nat, align: nat): (r: nat)
    requires align > 0
    ensures LeastMultiple(r, x, align)
  {
    if x % align == 0 then x
    else
      ModUnique(x - x % align + align, align, x / align + 1, 0);
      x - x % align + align
  }

  lemma LeastMultipleIsLeast(r: nat, x: nat, align: nat, y: nat)
    requires align > 0 && LeastMultiple(r, x, align)
    requires y % align == 0 && x <= y
    ensures r <= y
  {
    var p, q := y / align, r / align;
    DivMod(y, align);
    DivMod(r, align);
    if p < q {
      MulStep(p, q, align);
    } else if q < p {
      MulStep(q, p, align);
    }
  }

  // For a power of two the result is the least multiple not below `x`, and zero exactly
  // when that multiple does not fit in a word.
  lemma P2RoundupExact(x: Word, align: Word)
    requires PowerOfTwo(align)
    ensures P2Roundup(x, align) == if RoundUp(x, align) < WORD then RoundUp(x, align) else 0
    ensures RoundUp(x, align) <= WORD
  {
    if x == 0 {
      MaskIsAlign(0, align);
    } else {
      ComplementRoundsUp(x, align);
      NegatedMask(x, align);
    }
  }

  lemma ComplementRoundsUp(x: Word, align: Word)
    requires PowerOfTwo(align) && x > 0
    ensures align > 0 && x + (WORD - x) % align == RoundUp(x, align) <= WORD
  {
    var n: Word := WORD - x;
    MaskIsAlign(n, align);
    var up := x + n % align;
    MultiplesSubtract(WORD, n, align);
    assert up == WORD - (n - n % align);
    assert LeastMultiple(up, x, align);
    LeastMultipleIsLeast(up, x, align, RoundUp(x, align));
    LeastMultipleIsLeast(RoundUp(x, align), x, align, up);
  }

  lemma NegPositive(x: Word)
    requires x > 0
    ensures Neg(x) == WORD - x
  {
    ModUnique(WORD - x, WORD, 0, WORD - x);
  }

  lemma NegatedMask(x: Word, align: Word)
    requires PowerOfTwo(align) && x > 0
    ensures align > 0 && P2Roundup(x, align) == (x + (WORD - x) % align) % WORD
  {
    var n: Word := WORD - x;
    NegPositive(x);
    MaskIsAlign(n, align);
    assert WORD - And(n, Neg(align)) == x + n % align;
  }

  lemma MultiplesSubtract(w: nat, n: nat, m: nat)
    requires m > 0 && w % m == 0 && n <= w
    ensures n - n % m >= 0 && (w - (n - n % m)) % m == 0
  {
    DivMod(w, m);
    DivMod(n, m);
    var q, p := w / m, n / m;
    assert w - p * m == (q - p) * m;
    ModUnique(w - p * m, m, q - p, 0);
  }
}
