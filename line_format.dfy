/**
 * The line dlog writes to a file or to standard error:
 * `[<year>-<MM>-<DD> <hh>:<mm>:<ss>] [<app name>] [<SEVERITY>] <message>\n`,
 * rendered by `fmt.Sprintf` with `%d` for the year and `%02d` for the other
 * clock fields. A decoder for the time stamp is given beside it as the
 * partner that shows the rendering loses nothing.
 */
module LineFormat {
  import opened Wrappers
  import opened Numerals
  import opened Severities

  /** The local wall-clock reading `time.Now()` supplies (`now.Date()` and `now.Clock()`). */
  datatype Timestamp = Timestamp(year: int, month: nat, day: nat, hour: nat, minute: nat, second: nat)

  /** The ranges a Go `time.Time` gives its fields: a 64-bit year, month 1-12, day 1-31, and a 24-hour clock. */
  predicate IsClockReading(t: Timestamp) {
    && MinInt64 <= t.year <= MaxInt64
    && 1 <= t.month <= 12 && 1 <= t.day <= 31
    && t.hour < 24 && t.minute < 60 && t.second < 60
  }

  /** `%02d` of a non-negative value: two digits below 100 (a leading zero below 10), else all its digits. */
  function Pad2(n: nat): string {
    if n < 100 then [DigitChar(n / 10), DigitChar(n % 10)] else Digits(n)
  }

  /** The part of the stamp after the year: `-%02d-%02d %02d:%02d:%02d`. */
  function ClockTail(t: Timestamp): string {
    "-" + Pad2(t.month) + "-" + Pad2(t.day) + " " + Pad2(t.hour) + ":" + Pad2(t.minute) + ":" + Pad2(t.second)
  }

  /** The text between the first pair of brackets: `%d-%02d-%02d %02d:%02d:%02d`. */
  function Stamp(t: Timestamp): string {
    FormatInt(t.year) + ClockTail(t)
  }

  /** The whole line written for a message at level `s`. */
  function Line(t: Timestamp, appName: string, s: Level, message: string): string {
    "[" + Stamp(t) + "] [" + appName + "] [" + Name(s) + "] " + message + "\n"
  }

  // ---------------------------------------------------------------------
  // Decoding the time stamp back
  // ---------------------------------------------------------------------

  /** The value of the two digits at `s[i]`, `s[i + 1]`, if both are digits. */
  function TwoDigits(s: string, i: nat): Option<nat>
    requires i + 2 <= |s|
  {
    if IsDigit(s[i]) && IsDigit(s[i + 1]) then Some(DigitValue(s[i]) * 10 + DigitValue(s[i + 1])) else None
  }

  /** Reads a time stamp: a base-10 year, then the fixed-width `-MM-DD hh:mm:ss` tail of 15 characters. */
  function ParseStamp(text: string): Option<Timestamp> {
    if |text| < 16 then None else ParseStampParts(text[..|text| - 15], text[|text| - 15..])
  }

  /** Reads the year text and the 15-character clock tail that follows it. */
  function ParseStampParts(yearText: string, tail: string): Option<Timestamp>
    requires |tail| == 15
  {
    var year := ParseInt(yearText);
    var month := TwoDigits(tail, 1);
    var day := TwoDigits(tail, 4);
    var hour := TwoDigits(tail, 7);
    var minute := TwoDigits(tail, 10);
    var second := TwoDigits(tail, 13);
    if year.err == NoError
       && tail[0] == '-' && tail[3] == '-' && tail[6] == ' ' && tail[9] == ':' && tail[12] == ':'
       && month.Some? && day.Some? && hour.Some? && minute.Some? && second.Some?
    then Some(Timestamp(year.value, month.value, day.value, hour.value, minute.value, second.value))
    else None
  }

  /** Index of the first occurrence of `c` in `s`. */
  function IndexOf(s: string, c: char): (r: Option<nat>)
    ensures r.Some? ==> r.value < |s| && s[r.value] == c && forall k :: 0 <= k < r.value ==> s[k] != c
    ensures r.None? ==> forall k :: 0 <= k < |s| ==> s[k] != c
  {
    if |s| == 0 then None
    else if s[0] == c then Some(0)
    else match IndexOf(s[1..], c)
      case None => None
      case Some(i) => Some(i + 1)
  }

  /** Reads the time stamp of a log line: the text after the opening bracket, up to the first closing one. */
  function ReadStamp(line: string): Option<Timestamp> {
    if |line| == 0 || line[0] != '[' then None
    else match IndexOf(line, ']')
      case None => None
      case Some(e) => ParseStamp(line[1..e])  // `e > 0`, since `line[0]` is the opening bracket
  }

  // ---------------------------------------------------------------------
  // Properties
  // ---------------------------------------------------------------------

  /** `Pad2` is `%02d`: the decimal digits, padded with a zero on the left to a width of two. */
  lemma Pad2IsPaddedDigits(n: nat)
    ensures Pad2(n) == if |Digits(n)| < 2 then "0" + Digits(n) else Digits(n)
  {
    if 10 <= n < 100 {
      assert Digits(n / 10) == [DigitChar(n / 10)];
    }
  }

  /** The clock tail character by character, for a reading whose clock fields stay below 100. */
  lemma ClockTailChars(t: Timestamp)
    requires t.month < 100 && t.day < 100 && t.hour < 100 && t.minute < 100 && t.second < 100
    ensures ClockTail(t) ==
      ['-', DigitChar(t.month / 10), DigitChar(t.month % 10),
       '-', DigitChar(t.day / 10), DigitChar(t.day % 10),
       ' ', DigitChar(t.hour / 10), DigitChar(t.hour % 10),
       ':', DigitChar(t.minute / 10), DigitChar(t.minute % 10),
       ':', DigitChar(t.second / 10), DigitChar(t.second % 10)]
  {
  }

  /** Two digit characters of a number below 100, read back. */
  lemma TwoDigitsOf(text: string, i: nat, n: nat)
    requires n < 100 && i + 2 <= |text|
    requires text[i] == DigitChar(n / 10) && text[i + 1] == DigitChar(n % 10)
    ensures TwoDigits(text, i) == Some(n)
  {
  }

  /** The clock tail has a fixed width of 15 characters: separators at fixed places, two digits per field. */
  lemma ClockTailShape(t: Timestamp)
    requires IsClockReading(t)
    ensures var tail := ClockTail(t);
      && |tail| == 15
      && tail[0] == '-' && tail[3] == '-' && tail[6] == ' ' && tail[9] == ':' && tail[12] == ':'
      && TwoDigits(tail, 1) == Some(t.month) && TwoDigits(tail, 4) == Some(t.day)
      && TwoDigits(tail, 7) == Some(t.hour) && TwoDigits(tail, 10) == Some(t.minute)
      && TwoDigits(tail, 13) == Some(t.second)
  {
    ClockTailChars(t);
    FieldsOfTail(ClockTail(t), t);
  }

  /** Reading the fields back from a tail spelled out character by character. */
  lemma FieldsOfTail(tail: string, t: Timestamp)
    requires t.month < 100 && t.day < 100 && t.hour < 100 && t.minute < 100 && t.second < 100
    requires tail ==
      ['-', DigitChar(t.month / 10), DigitChar(t.month % 10),
       '-', DigitChar(t.day / 10), DigitChar(t.day % 10),
       ' ', DigitChar(t.hour / 10), DigitChar(t.hour % 10),
       ':', DigitChar(t.minute / 10), DigitChar(t.minute % 10),
       ':', DigitChar(t.second / 10), DigitChar(t.second % 10)]
    ensures TwoDigits(tail, 1) == Some(t.month) && TwoDigits(tail, 4) == Some(t.day)
    ensures TwoDigits(tail, 7) == Some(t.hour) && TwoDigits(tail, 10) == Some(t.minute)
    ensures TwoDigits(tail, 13) == Some(t.second)
  {
    TwoDigitsOf(tail, 1, t.month);
    TwoDigitsOf(tail, 4, t.day);
    TwoDigitsOf(tail, 7, t.hour);
    TwoDigitsOf(tail, 10, t.minute);
    TwoDigitsOf(tail, 13, t.second);
  }

  /** The year is not padded: the stamp is the year's own digits followed by a fixed tail of 15 characters. */
  lemma StampLength(t: Timestamp)
    requires IsClockReading(t)
    ensures |Stamp(t)| == |FormatInt(t.year)| + 15
  {
    ClockTailShape(t);
  }

  /** A year that parses, followed by a well-formed clock tail, is read back field by field. */
  lemma ParseStampOf(y: string, tail: string, t: Timestamp)
    requires ParseInt(y) == Parsed(t.year, NoError)
    requires |tail| == 15
    requires tail[0] == '-' && tail[3] == '-' && tail[6] == ' ' && tail[9] == ':' && tail[12] == ':'
    requires TwoDigits(tail, 1) == Some(t.month) && TwoDigits(tail, 4) == Some(t.day)
    requires TwoDigits(tail, 7) == Some(t.hour) && TwoDigits(tail, 10) == Some(t.minute)
    requires TwoDigits(tail, 13) == Some(t.second)
    ensures ParseStamp(y + tail) == Some(t)
  {
    var text := y + tail;
    assert text[..|text| - 15] == y;
    assert text[|text| - 15..] == tail;
  }

  /** Every clock reading is read back from its stamp. */
  lemma StampRoundTrip(t: Timestamp)
    requires IsClockReading(t)
    ensures ParseStamp(Stamp(t)) == Some(t)
  {
    ClockTailShape(t);
    ParseIntOfFormatInt(t.year);
    ParseStampOf(FormatInt(t.year), ClockTail(t), t);
  }

  /** No closing bracket occurs inside a stamp (only digits, a sign and separators do). */
  lemma StampHasNoBracket(t: Timestamp)
    requires IsClockReading(t)
    ensures forall k :: 0 <= k < |Stamp(t)| ==> Stamp(t)[k] != ']'
  {
    var y := FormatInt(t.year);
    var tail := ClockTail(t);
    FormatIntHasNoBracket(t.year);
    TailHasNoBracket(t);
    NoBracketInConcat(y, tail);
  }

  lemma FormatIntHasNoBracket(n: int)
    ensures forall k :: 0 <= k < |FormatInt(n)| ==> FormatInt(n)[k] != ']'
  {
    var y := FormatInt(n);
    assert forall k :: 0 <= k < |y| ==> y[k] == '-' || IsDigit(y[k]);
  }

  lemma TailHasNoBracket(t: Timestamp)
    requires IsClockReading(t)
    ensures forall k :: 0 <= k < |ClockTail(t)| ==> ClockTail(t)[k] != ']'
  {
    var tail := ClockTail(t);
    ClockTailChars(t);
    forall k | 0 <= k < |tail|
      ensures tail[k] != ']'
    {
      assert tail[k] in "-: " || IsDigit(tail[k]);
    }
  }

  lemma NoBracketInConcat(a: string, b: string)
    requires forall k :: 0 <= k < |a| ==> a[k] != ']'
    requires forall k :: 0 <= k < |b| ==> b[k] != ']'
    ensures forall k :: 0 <= k < |a + b| ==> (a + b)[k] != ']'
  {
  }

  /** The first `c` in `p + [c] + rest` is the one after `p`, when `p` holds none. */
  lemma {:induction false} IndexOfFirst(p: string, c: char, rest: string)
    requires forall k :: 0 <= k < |p| ==> p[k] != c
    ensures IndexOf(p + [c] + rest, c) == Some(|p|)
  {
    if |p| > 0 {
      assert (p + [c] + rest)[1..] == p[1..] + [c] + rest;
      IndexOfFirst(p[1..], c, rest);
    }
  }

  /** `ReadStamp` finds the stamp of any line of the shape `[<stamp>]...` whose stamp holds no `]`. */
  lemma ReadStampOf(line: string, st: string)
    requires forall k :: 0 <= k < |st| ==> st[k] != ']'
    requires |st| + 2 <= |line| && line[0] == '[' && line[1..|st| + 1] == st && line[|st| + 1] == ']'
    ensures ReadStamp(line) == ParseStamp(st)
  {
    var p := line[..|st| + 1];
    var rest := line[|st| + 2..];
    assert line == p + [']'] + rest;
    assert forall k :: 1 <= k < |p| ==> p[k] == st[k - 1];
    IndexOfFirst(p, ']', rest);
  }

  /** Where the parts of a line sit: the stamp in the first brackets, the message just before the final newline. */
  lemma LineShape(line: string, st: string, appName: string, s: Level, message: string)
    requires line == "[" + st + "] [" + appName + "] [" + Name(s) + "] " + message + "\n"
    ensures |st| + 2 <= |line| && line[0] == '[' && line[1..|st| + 1] == st && line[|st| + 1] == ']'
    ensures line[|line| - |message| - 1..] == message + "\n"
  {
  }

  /**
   * The time stamp can be read back from any rendered line, whatever the
   * application name and message hold; the line ends with the message and
   * a newline.
   */
  lemma LineRoundTrip(t: Timestamp, appName: string, s: Level, message: string)
    requires IsClockReading(t)
    ensures ReadStamp(Line(t, appName, s, message)) == Some(t)
    ensures Line(t, appName, s, message)[|Line(t, appName, s, message)| - |message| - 1..] == message + "\n"
  {
    var line := Line(t, appName, s, message);
    var st := Stamp(t);
    StampHasNoBracket(t);
    LineShape(line, st, appName, s, message);
    ReadStampOf(line, st);
    StampRoundTrip(t);
  }

  /** The year keeps its natural width: year 999 is written with three digits. */
  lemma ShortYearExample()
    ensures Stamp(Timestamp(999, 12, 31, 23, 59, 59)) == "999-12-31 23:59:59"
  {
    ThreeDigitYear();
    LastSecondOfYear();
  }

  lemma ThreeDigitYear()
    ensures FormatInt(999) == "999"
  {
    assert Digits(9) == "9";
    assert Digits(99) == Digits(9) + "9";
    assert Digits(999) == Digits(99) + "9";
  }

  lemma LastSecondOfYear()
    ensures ClockTail(Timestamp(999, 12, 31, 23, 59, 59)) == "-12-31 23:59:59"
  {
    ClockTailChars(Timestamp(999, 12, 31, 23, 59, 59));
    assert 12 / 10 == 1 && 12 % 10 == 2 && 31 / 10 == 3 && 31 % 10 == 1 && 23 / 10 == 2 && 23 % 10 == 3;
    assert 59 / 10 == 5 && 59 % 10 == 9;
    assert DigitChar(1) == '1' && DigitChar(2) == '2' && DigitChar(3) == '3' && DigitChar(5) == '5' && DigitChar(9) == '9';
  }
}
