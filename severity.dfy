/**
 * The `Severity` type of dlog: an `int32` whose values 0..6 are the seven
 * log levels and 7 is the sentinel `SeverityLast` (the disabled threshold).
 * The display-name table and the syslog-priority table are indexed by the
 * same ordinals; `String` and `Set` are the text form used by the command-line
 * flag that carries the threshold.
 */
module Severities {
  import opened Wrappers
  import opened Numerals

  newtype Severity = x: int | -0x8000_0000 <= x < 0x8000_0000

  const SeverityDebug: Severity := 0
  const SeverityInfo: Severity := 1
  const SeverityNotice: Severity := 2
  const SeverityWarning: Severity := 3
  const SeverityError: Severity := 4
  const SeverityCritical: Severity := 5
  const SeverityFatal: Severity := 6
  const SeverityLast: Severity := 7

  /** The severities a log call can carry: the ones both tables have an entry for. */
  type Level = s: Severity | SeverityDebug <= s <= SeverityFatal

  /** `SeverityName[s]`. */
  function Name(s: Level): string {
    match s
    case 0 => "DEBUG"
    case 1 => "INFO"
    case 2 => "NOTICE"
    case 3 => "WARNING"
    case 4 => "ERROR"
    case 5 => "CRITICAL"
    case 6 => "FATAL"
  }

  /** Syslog priorities of the syslog client library, in the order of their numeric codes. */
  datatype Priority = LogEmerg | LogAlert | LogCrit | LogErr | LogWarning | LogNotice | LogInfo | LogDebug

  /** The numeric code of a priority, as numbered in section 6.2.1 of RFC 5424 (0 is most urgent). */
  function Code(p: Priority): (c: nat)
    ensures c <= 7
  {
    match p
    case LogEmerg => 0
    case LogAlert => 1
    case LogCrit => 2
    case LogErr => 3
    case LogWarning => 4
    case LogNotice => 5
    case LogInfo => 6
    case LogDebug => 7
  }

  /** `severityToSyslogPriority[s]`. */
  function SyslogPriority(s: Level): Priority {
    match s
    case 0 => LogDebug
    case 1 => LogInfo
    case 2 => LogNotice
    case 3 => LogWarning
    case 4 => LogErr
    case 5 => LogCrit
    case 6 => LogAlert
  }

  /** Reference inverse of the name table, used to state that the table is injective. */
  function LevelOfName(name: string): Option<Level> {
    if name == "DEBUG" then Some(0)
    else if name == "INFO" then Some(1)
    else if name == "NOTICE" then Some(2)
    else if name == "WARNING" then Some(3)
    else if name == "ERROR" then Some(4)
    else if name == "CRITICAL" then Some(5)
    else if name == "FATAL" then Some(6)
    else None
  }

  /** `(*Severity).String`: the base-10 text of the value. */
  function String(s: Severity): string {
    FormatInt(s as int)
  }

  /** The value `(*Severity).Set(text)` stores: `Severity(val)` with `val, _ := strconv.Atoi(text)`. */
  function Parse(text: string): Severity {
    ToInt32(Atoi(text)) as Severity
  }

  // ---------------------------------------------------------------------
  // Properties of the tables
  // ---------------------------------------------------------------------

  lemma NameRoundTrip(s: Level)
    ensures LevelOfName(Name(s)) == Some(s)
  {
  }

  /** Distinct levels have distinct display names. */
  lemma NamesDistinct(a: Level, b: Level)
    requires a != b
    ensures Name(a) != Name(b)
  {
    NameRoundTrip(a);
    NameRoundTrip(b);
  }

  /** Every display name is a non-empty upper-case word. */
  lemma NamesUpperCase(s: Level)
    ensures |Name(s)| > 0 && forall i :: 0 <= i < |Name(s)| ==> 'A' <= Name(s)[i] <= 'Z'
  {
  }

  /**
   * Urgency rises strictly with severity: a higher level maps to a smaller
   * (more urgent) syslog code, so the seven priorities are distinct, and no
   * level is mapped to the emergency priority.
   */
  lemma PriorityOrder(a: Level, b: Level)
    ensures a < b <==> Code(SyslogPriority(a)) > Code(SyslogPriority(b))
    ensures 1 <= Code(SyslogPriority(a)) <= 7
  {
  }

  lemma PrioritiesDistinct(a: Level, b: Level)
    requires a != b
    ensures SyslogPriority(a) != SyslogPriority(b)
  {
    PriorityOrder(a, b);
    PriorityOrder(b, a);
  }

  // ---------------------------------------------------------------------
  // The lenient text round trip
  // ---------------------------------------------------------------------

  /** `Set(String(s))` restores every `int32` severity. */
  lemma ParseOfString(s: Severity)
    ensures Parse(String(s)) == s
  {
    ParseIntOfFormatInt(s as int);
    ToInt32OfInt32(s as int);
  }

  /**
   * Text that is not a number is stored as 0 (`SeverityDebug`) whenever
   * the scanner meets the offending character before any overflow: "",
   * "-", "debug", "3 ", "12abc" and "1.5" alike.
   */
  lemma ParseNonNumeric(text: string, k: nat)
    requires SyntaxErrorAt(text, k)
    ensures Parse(text) == SeverityDebug
  {
    SyntaxErrorParsesAsZero(text, k);
  }

  /** Trailing blanks and fractions are not numbers: each of these is stored as `SeverityDebug`. */
  lemma ParseNonNumericExamples()
    ensures Parse("3 ") == SeverityDebug && Parse("12abc") == SeverityDebug && Parse("1.5") == SeverityDebug
    ensures Parse("debug") == SeverityDebug
  {
    assert "3 "[0..1] == "3";
    ParseNonNumeric("3 ", 1);
    assert "12abc"[0..2] == "12";
    assert DigitsValue("12") == 12 by {
      assert "12"[..1] == "1";
    }
    ParseNonNumeric("12abc", 2);
    assert "1.5"[0..1] == "1";
    ParseNonNumeric("1.5", 1);
    assert "debug"[0..0] == [];
    ParseNonNumeric("debug", 0);
  }

  /**
   * Well-formed text is stored as the number it denotes, first clamped to
   * the 64-bit range and then cut to its low 32 bits.
   */
  lemma ParseDecimalText(text: string)
    requires DecimalText(text)
    ensures var x := SignedValue(text);
      Parse(text) == ToInt32(if x > MaxInt64 then MaxInt64 else if x < MinInt64 then MinInt64 else x) as Severity
  {
    ParseIntOfDecimalText(text);
  }

  /** A leading `+` or `-` is accepted: `+3` is stored as 3 and `-0` as 0. */
  lemma ParseDecimalTextExamples()
    ensures Parse("+3") == SeverityWarning && Parse("-0") == SeverityDebug
  {
    assert "+3"[1..] == "3";
    ParseDecimalText("+3");
    assert "-0"[1..] == "0";
    ParseDecimalText("-0");
  }

  /** Leading zeros are accepted: `007` is stored as 7. */
  lemma ParseLeadingZerosExample()
    ensures Parse("007") == SeverityLast
  {
    assert "007"[0..] == "007";
    assert DigitsValue("007") == 7 by {
      assert "007"[..2] == "00";
      assert "00"[..1] == "0";
    }
    ParseDecimalText("007");
  }

  /**
   * A number outside `int64` whose magnitude still fits in 64 bits is
   * clamped to the bound of its sign: stored as -1 when positive, as 0
   * (`SeverityDebug`) when negative.
   */
  lemma ParseBeyondInt64(n: int)
    requires -MaxUint64 <= n <= MaxUint64 && (n > MaxInt64 || n < MinInt64)
    ensures Parse(FormatInt(n)) == if n < 0 then SeverityDebug else -1
  {
    var s := FormatInt(n);
    if n < 0 {
      assert s[DigitsStart(s)..] == Digits(-n);
      DigitsValueOfDigits(-n);
    } else {
      assert s[DigitsStart(s)..] == Digits(n);
      DigitsValueOfDigits(n);
    }
    ParseDecimalText(s);
  }

  /**
   * The leniency has a second face: a digit run too long for 64 bits,
   * even with garbage after it, is clamped to the 64-bit bound of its
   * sign. The low 32 bits of the largest value make -1; those of the
   * smallest make 0.
   */
  lemma ParseOverflowing(text: string, j: nat)
    requires OverflowAt(text, j)
    ensures Parse(text) == if text[0] == '-' then SeverityDebug else -1
  {
    OverflowHidesTrailingText(text, j);
    if text[0] == '-' {
      assert Atoi(text) == MinInt64;
      assert ToInt32(MinInt64) == 0;
    } else {
      assert Atoi(text) == MaxInt64;
      assert ToInt32(MaxInt64) == -1;
    }
  }
}
