/**
 * The part of Go's `strconv` package that the logger relies on: base-10
 * rendering of integers (`FormatInt`), base-10 parsing (`ParseUint`,
 * `ParseInt`, `Atoi`), and the truncating conversion of a 64-bit value to
 * `int32`. The parser is written the way `strconv` scans: digit by digit,
 * stopping at the first syntax error or at the first digit that overflows
 * 64 bits.
 */
module Numerals {

  const MaxUint64: int := 0xffff_ffff_ffff_ffff
  const MaxInt64: int := 0x7fff_ffff_ffff_ffff
  const MinInt64: int := -0x8000_0000_0000_0000
  const MaxInt32: int := 0x7fff_ffff
  const MinInt32: int := -0x8000_0000

  predicate IsDigit(c: char) {
    '0' <= c <= '9'
  }

  predicate AllDigits(s: string) {
    forall i :: 0 <= i < |s| ==> IsDigit(s[i])
  }

  function DigitValue(c: char): (d: nat)
    requires IsDigit(c)
    ensures d < 10
  {
    c as int - '0' as int
  }

  function DigitChar(d: nat): (c: char)
    requires d < 10
    ensures IsDigit(c) && DigitValue(c) == d
  {
    ('0' as int + d) as char
  }

  /** Decimal digits of `n`, most significant first (`strconv.FormatUint(n, 10)`). */
  function Digits(n: nat): (s: string)
    ensures |s| > 0 && AllDigits(s)
    ensures s[0] == '0' ==> n == 0
  {
    if n < 10 then [DigitChar(n)] else Digits(n / 10) + [DigitChar(n % 10)]
  }

  /** The number a run of decimal digits denotes (reference reading, no overflow). */
  function DigitsValue(s: string): nat
    requires AllDigits(s)
  {
    if |s| == 0 then 0 else DigitsValue(s[..|s| - 1]) * 10 + DigitValue(s[|s| - 1])
  }

  /** `strconv.FormatInt(n, 10)`: a minus sign for negative numbers, then the digits of |n|. */
  function FormatInt(n: int): string {
    if n < 0 then "-" + Digits(-n) else Digits(n)
  }

  datatype NumError = NoError | ErrSyntax | ErrRange

  /** The pair `(value, err)` the `strconv` parsers return. */
  datatype Parsed = Parsed(value: int, err: NumError)

  /** Overflow limit of the base-10 scanner: `n >= Cutoff` means `n * 10` leaves 64 bits. */
  const Cutoff: int := MaxUint64 / 10 + 1

  /** The scanning loop of `strconv.ParseUint(s, 10, 64)`, from index `i` with accumulated value `n`. */
  function Scan(s: string, i: nat, n: nat): (r: Parsed)
    requires i <= |s| && n <= MaxUint64
    ensures 0 <= r.value <= MaxUint64
    ensures r.err == ErrSyntax ==> r.value == 0
    ensures r.err == ErrRange ==> r.value == MaxUint64
    decreases |s| - i
  {
    if i == |s| then Parsed(n, NoError)
    else if !IsDigit(s[i]) then Parsed(0, ErrSyntax)
    else if n >= Cutoff then Parsed(MaxUint64, ErrRange)
    else
      var n1 := n * 10 + DigitValue(s[i]);
      if n1 > MaxUint64 then Parsed(MaxUint64, ErrRange) else Scan(s, i + 1, n1)
  }

  /** `strconv.ParseUint(s, 10, 64)`. */
  function ParseUint(s: string): (r: Parsed)
    ensures 0 <= r.value <= MaxUint64
  {
    if |s| == 0 then Parsed(0, ErrSyntax) else Scan(s, 0, 0)
  }

  predicate IsSign(c: char) {
    c == '+' || c == '-'
  }

  /**
   * `strconv.ParseInt(s, 10, 64)`: an optional sign, then `ParseUint`; a
   * syntax error yields 0, an out-of-range magnitude is clamped to the
   * nearest 64-bit bound.
   */
  function ParseInt(s: string): (r: Parsed)
    ensures MinInt64 <= r.value <= MaxInt64
    ensures r.err == ErrSyntax ==> r.value == 0
  {
    if |s| == 0 then Parsed(0, ErrSyntax)
    else
      var neg := s[0] == '-';
      var u := ParseUint(if IsSign(s[0]) then s[1..] else s);
      if u.err == ErrSyntax then Parsed(0, ErrSyntax)
      else if !neg && u.value > MaxInt64 then Parsed(MaxInt64, ErrRange)
      else if neg && u.value > -MinInt64 then Parsed(MinInt64, ErrRange)
      else Parsed(if neg then -u.value else u.value, u.err)
  }

  /**
   * `strconv.Atoi` on a 64-bit platform with its error discarded. Its fast
   * path for short inputs gives the same value as `ParseInt`.
   */
  function Atoi(s: string): int {
    ParseInt(s).value
  }

  /** Go's conversion of an integer to `int32`: keep the low 32 bits, two's complement. */
  function ToInt32(x: int): (r: int)
    ensures MinInt32 <= r <= MaxInt32
    ensures (r - x) % 0x1_0000_0000 == 0
  {
    var m := x % 0x1_0000_0000;
    if m > MaxInt32 then m - 0x1_0000_0000 else m
  }

  // ---------------------------------------------------------------------
  // Round trips
  // ---------------------------------------------------------------------

  lemma {:induction false} DigitsValueOfDigits(n: nat)
    ensures DigitsValue(Digits(n)) == n
  {
    if n >= 10 {
      var s := Digits(n);
      assert s[..|s| - 1] == Digits(n / 10);
      DigitsValueOfDigits(n / 10);
    }
  }

  /** A prefix of a digit run never denotes more than the whole run. */
  lemma {:induction false} PrefixValueBounded(s: string, j: nat)
    requires AllDigits(s) && j <= |s|
    ensures AllDigits(s[..j]) && DigitsValue(s[..j]) <= DigitsValue(s)
    decreases |s|
  {
    if j < |s| {
      var t := s[..|s| - 1];
      assert t[..j] == s[..j];
      PrefixValueBounded(t, j);
    } else {
      assert s[..j] == s;
    }
  }

  /** Scanning across a run of digits whose value fits in 64 bits just accumulates that value. */
  lemma {:induction false} ScanPrefix(s: string, i: nat, j: nat)
    requires i <= j <= |s| && AllDigits(s[..j]) && DigitsValue(s[..j]) <= MaxUint64
    ensures AllDigits(s[..i]) && DigitsValue(s[..i]) <= MaxUint64
    ensures Scan(s, i, DigitsValue(s[..i])) == Scan(s, j, DigitsValue(s[..j]))
    decreases j - i
  {
    assert s[..j][..i] == s[..i];
    PrefixValueBounded(s[..j], i);
    if i < j {
      assert s[..j][..i + 1] == s[..i + 1];
      PrefixValueBounded(s[..j], i + 1);
      var n := DigitsValue(s[..i]);
      assert s[..i + 1][..i] == s[..i];
      assert DigitsValue(s[..i + 1]) == n * 10 + DigitValue(s[i]);
      ScanPrefix(s, i + 1, j);
    }
  }

  lemma ParseUintOfDigits(n: nat)
    requires n <= MaxUint64
    ensures ParseUint(Digits(n)) == Parsed(n, NoError)
  {
    var s := Digits(n);
    DigitsValueOfDigits(n);
    assert s[..|s|] == s;
    ScanPrefix(s, 0, |s|);
    assert s[..0] == [];
  }

  /** `ParseInt` undoes `FormatInt` on every 64-bit integer. */
  lemma ParseIntOfFormatInt(n: int)
    requires MinInt64 <= n <= MaxInt64
    ensures ParseInt(FormatInt(n)) == Parsed(n, NoError)
  {
    var s := FormatInt(n);
    if n < 0 {
      assert s[1..] == Digits(-n);
      ParseUintOfDigits(-n);
    } else {
      ParseUintOfDigits(n);
    }
  }

  /** Where the digits of `s` begin: after an optional leading sign. */
  function DigitsStart(s: string): (off: nat)
    ensures off <= |s|
  {
    if |s| > 0 && IsSign(s[0]) then 1 else 0
  }

  /**
   * `s` is not a number, and the scanner finds that out before any
   * overflow: either nothing follows the optional sign, or the first
   * non-digit is at index `k` and the digits before it fit in 64 bits.
   */
  predicate SyntaxErrorAt(s: string, k: nat) {
    var off := DigitsStart(s);
    || |s| == off
    || (&& off <= k < |s| && !IsDigit(s[k])
        && AllDigits(s[off..k]) && DigitsValue(s[off..k]) <= MaxUint64)
  }

  /** Text the scanner rejects before any overflow parses as 0 with a syntax error. */
  lemma SyntaxErrorParsesAsZero(s: string, k: nat)
    requires SyntaxErrorAt(s, k)
    ensures ParseInt(s) == Parsed(0, ErrSyntax)
  {
    var off := DigitsStart(s);
    var t := s[off..];
    if |s| > off {
      assert t == (if IsSign(s[0]) then s[1..] else s);
      var j := k - off;
      assert t[..j] == s[off..k];
      ScanPrefix(t, 0, j);
      assert t[..0] == [];
      assert !IsDigit(t[j]);
    }
  }

  /**
   * The digits after the optional sign overflow 64 bits at index `j`: the
   * run before `j` still fits, the run through `j` does not.
   */
  predicate OverflowAt(s: string, j: nat) {
    var off := DigitsStart(s);
    && off <= j < |s| && AllDigits(s[off..j]) && AllDigits(s[off..j + 1])
    && DigitsValue(s[off..j]) <= MaxUint64 < DigitsValue(s[off..j + 1])
  }

  /**
   * Once a digit run overflows 64 bits, the scanner stops with a range
   * error and never looks at the rest: `ParseInt` yields the clamped bound
   * of the sign's direction even when non-digits follow.
   */
  lemma OverflowHidesTrailingText(s: string, j: nat)
    requires OverflowAt(s, j)
    ensures ParseUint(s[DigitsStart(s)..]) == Parsed(MaxUint64, ErrRange)
    ensures ParseInt(s) == if s[0] == '-' then Parsed(MinInt64, ErrRange) else Parsed(MaxInt64, ErrRange)
  {
    var off := DigitsStart(s);
    var t := s[off..];
    var i := j - off;
    assert t[..i + 1] == s[off..j + 1];
    assert t[..i] == s[off..j];
    assert t[..i + 1][..i] == t[..i];
    assert AllDigits(t[..i]);
    ScanPrefix(t, 0, i);
    assert t[..0] == [];
    assert IsDigit(t[..i + 1][i]);
    assert t == (if IsSign(s[0]) then s[1..] else s);
  }

  /** `s` is a sign-optional run of decimal digits whose magnitude fits in 64 unsigned bits. */
  predicate DecimalText(s: string) {
    var off := DigitsStart(s);
    |s| > off && AllDigits(s[off..]) && DigitsValue(s[off..]) <= MaxUint64
  }

  /** The number a `DecimalText` denotes, with its sign and without any bound. */
  function SignedValue(s: string): int
    requires DecimalText(s)
  {
    var v: int := DigitsValue(s[DigitsStart(s)..]);
    if s[0] == '-' then -v else v
  }

  /**
   * Well-formed text, with or without a `+` or `-` and leading zeros,
   * parses to the number it denotes; a magnitude that fits in 64 unsigned
   * bits but not in `int64` is clamped to the bound of its sign with a
   * range error.
   */
  lemma ParseIntOfDecimalText(s: string)
    requires DecimalText(s)
    ensures var x := SignedValue(s);
      ParseInt(s) == if x > MaxInt64 then Parsed(MaxInt64, ErrRange)
                     else if x < MinInt64 then Parsed(MinInt64, ErrRange)
                     else Parsed(x, NoError)
  {
    var t := s[DigitsStart(s)..];
    assert t == (if IsSign(s[0]) then s[1..] else s);
    assert t[..|t|] == t;
    ScanPrefix(t, 0, |t|);
    assert t[..0] == [];
  }

  /**
   * Every text falls under one of the cases the lemmas above describe:
   * well-formed text, a syntax error met before any overflow, or an
   * overflow of the unsigned scan.
   */
  lemma ParseIntCasesCover(s: string)
    ensures DecimalText(s) || (exists k: nat :: SyntaxErrorAt(s, k)) || (exists j: nat :: OverflowAt(s, j))
  {
    var off := DigitsStart(s);
    assert s[off..off] == [];
    CoverFrom(s, off);
  }

  /** `ParseIntCasesCover` from index `i`, once the digits from the start up to `i` are known to fit in 64 bits. */
  lemma {:induction false} CoverFrom(s: string, i: nat)
    requires DigitsStart(s) <= i <= |s| && AllDigits(s[DigitsStart(s)..i])
    requires DigitsValue(s[DigitsStart(s)..i]) <= MaxUint64
    ensures DecimalText(s) || (exists k: nat :: SyntaxErrorAt(s, k)) || (exists j: nat :: OverflowAt(s, j))
    decreases |s| - i
  {
    var off := DigitsStart(s);
    if i == |s| {
      if i == off {
        assert SyntaxErrorAt(s, 0);
      } else {
        assert s[off..] == s[off..i];
      }
    } else if !IsDigit(s[i]) {
      assert SyntaxErrorAt(s, i);
    } else {
      assert s[off..i + 1][..i - off] == s[off..i];
      if DigitsValue(s[off..i + 1]) > MaxUint64 {
        assert OverflowAt(s, i);
      } else {
        CoverFrom(s, i + 1);
      }
    }
  }

  /** Conversion to `int32` leaves values that already fit unchanged. */
  lemma ToInt32OfInt32(x: int)
    requires MinInt32 <= x <= MaxInt32
    ensures ToInt32(x) == x
  {
  }
}
