// The position of the lowest set bit of a core mask written as a hexadecimal numeral.
module Coremask {
  import opened BitOp

  const EINVAL: int := 22

  predicate IsDigit(c: char) { '0' <= c <= '9' }

  predicate IsUpper(c: char) { 'A' <= c <= 'Z' }

  predicate IsHexDigit(c: char) { IsDigit(c) || 'A' <= c <= 'F' || 'a' <= c <= 'f' }

  function HexToDec(c: char): int {
    if IsDigit(c) then c as int - '0' as int
    else if IsUpper(c) then c as int - 'A' as int + 10
    else c as int - 'a' as int + 10
  }

  // The digits by value, in either case.
  const LOWER: string := "0123456789abcdef"
  const UPPER: string := "0123456789ABCDEF"

  predicate DigitIs(c: char, v: int) {
    0 <= v < 16 && (LOWER[v] == c || UPPER[v] == c)
  }

  ghost predicate InTable(c: char) {
    exists v :: DigitIs(c, v)
  }

  // A character is a digit exactly if the table has it, and its value is its place there.
  lemma DigitsAgree(c: char)
    ensures IsHexDigit(c) <==> InTable(c)
    ensures forall v :: DigitIs(c, v) <==> IsHexDigit(c) && v == HexToDec(c)
  {
    if IsHexDigit(c) {
      assert DigitIs(c, HexToDec(c));
    }
  }

  // The C library's ffs on a value of four bits.
  function FindFirstSet(v: int): (p: nat)
    requires 0 <= v < 16
    ensures v == 0 <==> p == 0
    ensures v != 0 ==> p <= 4 && v % Pow2(p - 1) == 0 && v % Pow2(p) != 0
  {
    if v == 0 then 0 else if v % 2 == 1 then 1 else if v % 4 == 2 then 2 else if v % 8 == 4 then 3 else 4
  }

  // The digits after an optional prefix.
  function Digits(s: string): string {
    if |s| >= 2 && s[0] == '0' && (s[1] == 'x' || s[1] == 'X') then s[2..] else s
  }

  // `d` is a numeral of `v` in base 16, maybe with zeros in front.
  ghost predicate Denotes(d: string, v: nat) {
    if d == [] then v == 0
    else exists rest: nat, low: nat ::
           Shifts(v, rest, low) && Denotes(d[..|d| - 1], rest) && DigitIs(d[|d| - 1], low)
  }

  predicate Shifts(v: nat, rest: nat, low: nat) {
    low < 16 && v == 16 * rest + low
  }

  // `p` counts from one.
  ghost predicate LowestBit(v: int, p: int) {
    p > 0 && v % Pow2(p - 1) == 0 && v % Pow2(p) != 0
  }

  // What the scan returns: an error for a character that is no digit and has only zeros to its right;
  // otherwise what the lowest digit that is not zero says.
  function Scan(d: string): int {
    if d == [] then 0
    else
      var c := d[|d| - 1];
      if !IsHexDigit(c) then -EINVAL
      else if HexToDec(c) != 0 then FindFirstSet(HexToDec(c))
      else
        var r := Scan(d[..|d| - 1]);
        if r > 0 then r + 4 else r
  }

  lemma ScanStep(s: string, e: nat, p: nat)
    requires e < p <= |s|
    ensures Scan(s[e..p]) == var c := s[p - 1];
      if !IsHexDigit(c) then -EINVAL
      else if HexToDec(c) != 0 then FindFirstSet(HexToDec(c))
      else if Scan(s[e..p - 1]) > 0 then Scan(s[e..p - 1]) + 4 else Scan(s[e..p - 1])
  {
    assert s[e..p][..p - e - 1] == s[e..p - 1];
  }

  lemma Times16(v: nat, p: nat)
    requires p >= 1 && LowestBit(v, p)
    ensures LowestBit(16 * v, p + 4)
  {
    ScaleMod(v, p - 1);
    ScaleMod(v, p);
  }

  lemma ScaleMod(v: nat, k: nat)
    ensures Pow2(k + 4) == 16 * Pow2(k) && (16 * v) % Pow2(k + 4) == 16 * (v % Pow2(k))
  {
    var m := Pow2(k);
    assert Pow2(k + 1) == 2 * m && Pow2(k + 2) == 4 * m && Pow2(k + 3) == 8 * m && Pow2(k + 4) == 16 * m;
    var q, r := v / m, v % m;
    assert 16 * v == q * (16 * m) + 16 * r;
    ModUnique(16 * v, 16 * m, q, 16 * r);
  }

  lemma LowDigit(v: nat, low: int)
    requires 0 < low < 16
    ensures LowestBit(16 * v + low, FindFirstSet(low))
  {
    assert Pow2(0) == 1 && Pow2(1) == 2 && Pow2(2) == 4 && Pow2(3) == 8 && Pow2(4) == 16;
    LowRemainders(v, low);
  }

  lemma LowRemainders(v: nat, low: nat)
    requires low < 16
    ensures var x := 16 * v + low; x % 2 == low % 2 && x % 4 == low % 4 && x % 8 == low % 8 && x % 16 == low
  {
    var x := 16 * v + low;
    ModUnique(x, 2, 8 * v + low / 2, low % 2);
    ModUnique(x, 4, 4 * v + low / 4, low % 4);
    ModUnique(x, 8, 2 * v + low / 8, low % 8);
    ModUnique(x, 16, v, low);
  }

  // For a numeral the result is 0 when its value is 0, and otherwise the position of the lowest bit
  // set in it.
  ghost predicate FindsLowest(v: nat, r: int) {
    if v == 0 then r == 0 else LowestBit(v, r)
  }

  lemma {:induction false} ScanFindsLowestBit(d: string, v: nat)
    requires Denotes(d, v)
    ensures FindsLowest(v, Scan(d))
    decreases |d|
  {
    if d != [] {
      var last := d[|d| - 1];
      DigitsAgree(last);
      var rest: nat, low: nat :| Shifts(v, rest, low) && Denotes(d[..|d| - 1], rest) && DigitIs(last, low);
      ScanFindsLowestBit(d[..|d| - 1], rest);
      OneMoreDigit(rest, low, Scan(d[..|d| - 1]));
    }
  }

  lemma OneMoreDigit(rest: nat, low: nat, r: int)
    requires low < 16 && FindsLowest(rest, r)
    ensures FindsLowest(16 * rest + low, if low != 0 then FindFirstSet(low) else if r > 0 then r + 4 else r)
  {
    if low != 0 {
      LowDigit(rest, low);
    } else if rest != 0 {
      Times16(rest, r);
    }
  }

  // Every string of digits is a numeral.
  lemma {:induction false} DigitsDenote(d: string) returns (v: nat)
    requires forall i :: 0 <= i < |d| ==> InTable(d[i])
    ensures Denotes(d, v)
    decreases |d|
  {
    if d == [] {
      v := 0;
    } else {
      var n := |d| - 1;
      var low: nat :| DigitIs(d[n], low);
      forall i | 0 <= i < n ensures InTable(d[..n][i]) {
        assert d[..n][i] == d[i];
      }
      var rest := DigitsDenote(d[..n]);
      v := 16 * rest + low;
      assert Shifts(v, rest, low);
    }
  }

  // ---- Any string at all ----

  ghost predicate ZerosFrom(d: string, i: int) {
    forall j :: 0 <= j < |d| && i < j ==> d[j] == '0'
  }

  // What the last character that is not '0' says: its lowest bit, as many digits up as zeros follow,
  // or an error if it is no digit.
  ghost predicate LastSays(d: string, i: int, r: int) {
    && 0 <= i < |d| && d[i] != '0' && ZerosFrom(d, i)
    && if InTable(d[i]) then exists v, p :: DigitIs(d[i], v) && LowestBit(v, p) && r == 4 * (|d| - 1 - i) + p
       else r == -EINVAL
  }

  ghost predicate Says(d: string, r: int) {
    (ZerosFrom(d, -1) && r == 0) || exists i :: LastSays(d, i, r)
  }

  lemma {:induction false} ScanSays(d: string)
    ensures Says(d, Scan(d))
    decreases |d|
  {
    if d == [] {
    } else {
      var n := |d| - 1;
      var rest := d[..n];
      DigitsAgree(d[n]);
      if d[n] == '0' {
        ScanSays(rest);
        ZeroShifts(d, Scan(rest));
      } else if IsHexDigit(d[n]) {
        LowDigit(0, HexToDec(d[n]));
        assert LastSays(d, n, Scan(d));
      } else {
        assert LastSays(d, n, Scan(d));
      }
    }
  }

  // One more zero at the end.
  lemma ZeroShifts(d: string, r: int)
    requires d != [] && d[|d| - 1] == '0' && Says(d[..|d| - 1], r)
    ensures Says(d, if r > 0 then r + 4 else r)
  {
    var rest := d[..|d| - 1];
    assert forall j :: 0 <= j < |rest| ==> rest[j] == d[j];
    if ZerosFrom(rest, -1) && r == 0 {
      assert ZerosFrom(d, -1);
    } else {
      var i :| LastSays(rest, i, r);
      forall j | i < j < |d| ensures d[j] == '0' {
        assert j < |rest| ==> rest[j] == '0';
      }
      assert LastSays(d, i, if r > 0 then r + 4 else r);
    }
  }

  lemma {:induction false} NumeralHasNoPrefix(s: string, v: nat)
    requires Denotes(s, v)
    ensures forall i :: 0 <= i < |s| ==> IsHexDigit(s[i])
    decreases |s|
  {
    if s != [] {
      var n := |s| - 1;
      DigitsAgree(s[n]);
      var rest: nat, low: nat :| Shifts(v, rest, low) && Denotes(s[..n], rest) && DigitIs(s[n], low);
      NumeralHasNoPrefix(s[..n], rest);
      forall i | 0 <= i < |s| ensures IsHexDigit(s[i]) {
        assert i < n ==> s[..n][i] == s[i];
      }
    }
  }

  ghost predicate Prefixed(s: string) {
    |s| >= 2 && (s[..2] == "0x" || s[..2] == "0X")
  }

  // The lowest set bit of a numeral, with or without a prefix; and of any string at all what
  // follows the prefix says what the result is.
  ghost predicate Answers(s: string, r: int) {
    && (forall v: nat :: Denotes(s, v) ==> FindsLowest(v, r))
    && (Prefixed(s) ==> forall v: nat :: Denotes(s[2..], v) ==> FindsLowest(v, r))
    && Says(if Prefixed(s) then s[2..] else s, r)
  }

  lemma ScanAnswers(s: string)
    ensures Answers(s, Scan(Digits(s)))
  {
    assert Prefixed(s) <==> |s| >= 2 && s[0] == '0' && (s[1] == 'x' || s[1] == 'X');
    forall v: nat | Denotes(s, v) ensures FindsLowest(v, Scan(Digits(s))) {
      NumeralHasNoPrefix(s, v);
      ScanFindsLowestBit(s, v);
    }
    forall v: nat | Prefixed(s) && Denotes(s[2..], v) ensures FindsLowest(v, Scan(Digits(s))) {
      ScanFindsLowestBit(s[2..], v);
    }
    ScanSays(Digits(s));
  }

  // The loop from the right end down to position `e`.
  method ScanBack(s: string, e: nat) returns (r: int)
    requires e <= |s|
    ensures r == Scan(s[e..])
  {
    var p := |s|;
    var pos := 0;
    assert s[e..p] == s[e..];
    while p != e
      invariant e <= p <= |s| && pos >= 0
      invariant Scan(s[e..]) == if Scan(s[e..p]) > 0 then Scan(s[e..p]) + pos else Scan(s[e..p])
      decreases p - e
    {
      ScanStep(s, e, p);
      if !IsHexDigit(s[p - 1]) {
        return -EINVAL;
      }
      var val := HexToDec(s[p - 1]);
      if val != 0 {
        return pos + FindFirstSet(val);
      }
      p := p - 1;
      pos := pos + 4;
    }
    r := 0;
  }

  method FindFirstBitset(s: string) returns (r: int)
    ensures Answers(s, r)
  {
    var e := 0;
    if |s| >= 2 && s[0] == '0' && (s[1] == 'x' || s[1] == 'X') {
      e := 2;
    }
    r := ScanBack(s, e);
    assert Digits(s) == s[e..];
    ScanAnswers(s);
  }

  // A character that is no digit with only zeros to its right.
  ghost predicate Stops(d: string, i: int) {
    0 <= i < |d| && !IsHexDigit(d[i]) && forall j :: i < j < |d| ==> d[j] == '0'
  }

  lemma StopsBefore(d: string, i: int)
    requires d != [] && d[|d| - 1] == '0'
    ensures Stops(d, i) <==> Stops(d[..|d| - 1], i)
  {
    var rest := d[..|d| - 1];
    assert forall j :: 0 <= j < |rest| ==> rest[j] == d[j];
    if Stops(rest, i) {
      forall j | i < j < |d| ensures d[j] == '0' {
        assert j < |rest| ==> rest[j] == '0';
      }
    }
  }

  // The scan fails exactly when some character is no digit and all those to its right are zeros.
  lemma {:induction false} ScanFailsIff(d: string)
    ensures Scan(d) == -EINVAL <==> exists i :: Stops(d, i)
    ensures Scan(d) != -EINVAL ==> Scan(d) >= 0
    decreases |d|
  {
    if d != [] {
      var last := |d| - 1;
      if d[last] == '0' {
        ScanFailsIff(d[..last]);
        forall i ensures Stops(d, i) <==> Stops(d[..last], i) {
          StopsBefore(d, i);
        }
      } else if !IsHexDigit(d[last]) {
        assert Stops(d, last);
      } else {
        forall i ensures !Stops(d, i) {
        }
      }
    }
  }
}
