# dlog, modelled and verified in Dafny

This project models `dlog`, the process-wide levelled logger that
dnscrypt-proxy vendors (`vendor/github.com/jedisct1/dlog/dlog.go`). The model covers:

- **Severity and its tables.** `Severity` is an `int32`. Debug..Fatal are 0..6, and the sentinel `SeverityLast` is 7. The display-name table and the syslog-priority table are indexed by the same ordinals. `String` and `Set` are the lenient text form that the `-loglevel` flag uses.
- **`Init`.** It sets the threshold, the application name and the facility (an empty facility becomes `DAEMON`), registers the flags and returns `nil`.
- **`logf` and its forwarders.** `logf` runs these steps in order:
  1. The threshold filter.
  2. Normalisation of the message: `TrimSpace(TrimSuffix(m, "\n"))`. An empty result is dropped.
  3. Lazy, sticky resolution of the syslog client and of the log file. These are two independent steps, and each happens at most once.
  4. Exactly one write: syslog if a client exists, else the file if one is open, else standard error. The file and stderr line is `[<year>-<MM>-<DD> <hh>:<mm>:<ss>] [<app>] [<LEVEL>] <message>\n`, and the year is not padded.
  5. `os.Exit(255)` at `SeverityFatal` and above.

Files:

- `wrappers.dfy`: `Option`.
- `numerals.dfy` (module `Numerals`): the part of Go's `strconv` that dlog uses. This is `FormatInt`, plus `ParseUint`/`ParseInt`/`Atoi` scanning digit by digit with early overflow. It also holds the truncating conversion to `int32`.
- `severity.dfy` (module `Severities`): the `Severity` newtype, the `Level` subset (0..6), the two tables, `String`, `Parse` (what `Set` stores), and the table and round-trip lemmas.
- `whitespace.dfy` (module `Whitespace`): `unicode.IsSpace`, `TrimSuffix(_, "\n")`, `TrimSpace` and `Normalize`, with lemmas on uniqueness, emptiness and idempotence.
- `line_format.dfy` (module `LineFormat`): the time stamp and the line. A decoder (`ParseStamp`, `ReadStamp`) serves as the partner that shows the rendering can be read back.
- `log_spec.dfy` (module `LogSpec`): the logger state `_globals` as a value `Logger`. Its effects are recorded as a trace of `Event`s, and `panic` and `os.Exit` become an `Outcome`. It has one transition function per operation (`Init`, `SetLevel`, `Configure`, `Log`) and `Run` over a sequence of operations.
- `log_laws.dfy` (module `LogLaws`): the properties of single calls and of whole runs.
- `dlog.dfy` (module `Dlog`): the class `LogState`, whose fields are those of `_globals`. Its methods update the fields in place, and each method is proved to move `Model()` exactly as the matching `LogSpec` function does.

Points where the model follows the code and not what a reader might expect:

- **Both destinations can be resolved.** With `-syslog` and `-logfile` both set, the first accepted call creates the syslog client and also opens the file, but it writes to syslog only (`LogLaws.SyslogAndFileBothResolved`). The two resolution steps are independent `if`s, not an `if`/`else if`.
- **The year is written with `%d`.** It is not zero-padded to four digits (`LineFormat.StampLength`, `LineFormat.ShortYearExample`).
- **Malformed level text is not always 0.** Text that the scanner rejects before any overflow sets the threshold to 0 (Debug). This covers the empty text, a lone sign, `debug`, `3 `, `12abc` and `1.5` (`Severities.ParseNonNumeric`). But `strconv.ParseUint` stops at the first digit that overflows 64 bits before it looks at the rest of the text. So a digit run longer than 64 bits followed by garbage is clamped to the bound of its sign. Without a minus sign that is `MaxInt64`, whose low 32 bits store -1. With one it is `MinInt64`, whose low 32 bits store 0, so Debug (`Severities.ParseOverflowing`). A well-formed number outside the int64 range but within 64 bits is clamped the same way (`Severities.ParseBeyondInt64`).
- **A second `Init` panics.** `flag.Bool("syslog", ...)` panics when that flag is already defined. This happens after the threshold, app name and facility have been stored. The model records this as `Panicked(FlagRedefined("syslog"))`.
- **The nil pointer is never reached.** `logf` dereferences `_globals.useSyslog` without a nil check, and that pointer is nil until `Init` runs. The model includes this panic (`NilUseSyslog`). It also proves that no run from process start reaches it, because the threshold stays at `SeverityLast` until `Init` (`LogLaws.ResolutionAtMostOnce`).

## Model

| member | source | states |
|---|---|---|
| Severities.Name | vendor/github.com/jedisct1/dlog/dlog.go:47-55 | the display-name table; `NameRoundTrip` shows it is inverted by `LevelOfName` |
| Severities.SyslogPriority | vendor/github.com/jedisct1/dlog/dlog.go:57-65 | the syslog-priority table; `PriorityOrder` states that urgency rises strictly with severity |
| Severities.String | vendor/github.com/jedisct1/dlog/dlog.go:131-133 | the base-10 text of a severity; `ParseOfString` shows `Parse` undoes it |
| Severities.Parse | vendor/github.com/jedisct1/dlog/dlog.go:139-143 | the value `Set` stores: `Atoi` truncated to `int32`; `ParseDecimalText` (well-formed text, clamped to 64 bits), `ParseNonNumeric` (syntax errors) and `ParseOverflowing` (overflow of the unsigned scan) state its three cases, and `Numerals.ParseIntCasesCover` shows every text falls under one of them |
| Severities.NameRoundTrip | vendor/github.com/jedisct1/dlog/dlog.go:47-55 | every level 0..6 has a display name, and the name determines the level |
| Severities.NamesDistinct | vendor/github.com/jedisct1/dlog/dlog.go:47-55 | distinct levels have distinct display names |
| Severities.NamesUpperCase | vendor/github.com/jedisct1/dlog/dlog.go:47-55 | every display name is a non-empty upper-case word |
| Severities.PriorityOrder | vendor/github.com/jedisct1/dlog/dlog.go:57-65 | every level maps to a syslog priority in 1..7 (never emergency); a higher level maps to a strictly more urgent priority, and the converse |
| Severities.PrioritiesDistinct | vendor/github.com/jedisct1/dlog/dlog.go:57-65 | the seven levels map to seven distinct priorities |
| Severities.ParseOfString | vendor/github.com/jedisct1/dlog/dlog.go:131-143 | `Set(String(s))` restores every `int32` severity |
| Severities.ParseNonNumeric | vendor/github.com/jedisct1/dlog/dlog.go:139-143 | text that is not a number is stored as 0 (Debug) whenever its first non-digit after the optional sign comes before any 64-bit overflow (or nothing follows the sign) |
| Severities.ParseNonNumericExamples | vendor/github.com/jedisct1/dlog/dlog.go:139-143 | `3 `, `12abc`, `1.5` and `debug` are each stored as 0 (Debug) |
| Severities.ParseDecimalText | vendor/github.com/jedisct1/dlog/dlog.go:139-143 | text with an optional sign, leading zeros allowed and a magnitude within 64 bits is stored as the number it denotes, clamped to the int64 range and cut to its low 32 bits |
| Severities.ParseDecimalTextExamples | vendor/github.com/jedisct1/dlog/dlog.go:139-143 | a leading sign is accepted: `+3` stores Warning and `-0` stores Debug |
| Severities.ParseLeadingZerosExample | vendor/github.com/jedisct1/dlog/dlog.go:139-143 | leading zeros are accepted: `007` stores 7 |
| Severities.ParseBeyondInt64 | vendor/github.com/jedisct1/dlog/dlog.go:139-143 | a number outside int64 whose magnitude fits in 64 bits is clamped to the bound of its sign: stored as -1 when positive, as 0 (Debug) when negative |
| Severities.ParseOverflowing | vendor/github.com/jedisct1/dlog/dlog.go:139-143 | a digit run that overflows 64 bits after the optional sign is stored as -1, or as 0 (Debug) after a minus sign, whatever follows it |
| Numerals.FormatInt | vendor/github.com/jedisct1/dlog/dlog.go:132 | `strconv.FormatInt(n, 10)`: a minus sign for negative values, then the digits of the magnitude; `ParseIntOfFormatInt` shows `ParseInt` reads it back |
| Numerals.Scan | vendor/github.com/jedisct1/dlog/dlog.go:140 | the digit loop of `strconv.ParseUint`: the result is within 64 bits, 0 on a syntax error, the maximum on overflow; `ScanPrefix`, `SyntaxErrorParsesAsZero` and `OverflowHidesTrailingText` state where it stops |
| Numerals.ParseUint | vendor/github.com/jedisct1/dlog/dlog.go:140 | `strconv.ParseUint(s, 10, 64)`: empty text is a syntax error, otherwise `Scan` from the start; the value is within 64 bits |
| Numerals.ParseInt | vendor/github.com/jedisct1/dlog/dlog.go:140 | `strconv.ParseInt(s, 10, 64)`: optional sign, then `ParseUint`; the value is within the int64 range, 0 on a syntax error; `ParseIntOfDecimalText`, `SyntaxErrorParsesAsZero` and `OverflowHidesTrailingText` give its value on each kind of text, and `ParseIntCasesCover` shows these kinds cover every text |
| Numerals.Atoi | vendor/github.com/jedisct1/dlog/dlog.go:140 | `strconv.Atoi` with its error dropped: the value `ParseInt` returns; `ParseIntOfDecimalText`, `SyntaxErrorParsesAsZero` and `OverflowHidesTrailingText` state its cases, which `ParseIntCasesCover` shows are exhaustive |
| Numerals.ParseIntOfFormatInt | vendor/github.com/jedisct1/dlog/dlog.go:131-143 | `strconv.ParseInt` undoes `strconv.FormatInt` with no error on every 64-bit integer |
| Numerals.SyntaxErrorParsesAsZero | vendor/github.com/jedisct1/dlog/dlog.go:140 | `Atoi` of text whose first non-digit after the optional sign comes before any overflow (or that has no digits) is 0 with a syntax error |
| Numerals.ParseIntOfDecimalText | vendor/github.com/jedisct1/dlog/dlog.go:140 | text of an optional sign and digits (leading zeros allowed) whose magnitude fits in 64 bits parses to its signed value with no error, or to the bound of its sign with a range error when that value is outside int64 |
| Numerals.ParseIntCasesCover | vendor/github.com/jedisct1/dlog/dlog.go:140 | every text is well-formed, has a syntax error met before any overflow, or overflows the unsigned scan |
| Numerals.OverflowHidesTrailingText | vendor/github.com/jedisct1/dlog/dlog.go:140 | once the digits after the optional sign overflow 64 bits, the unsigned scan yields its maximum and `ParseInt` the bound of the sign (`MinInt64` after `-`, else `MaxInt64`), both with a range error, whatever text follows |
| Numerals.ToInt32 | vendor/github.com/jedisct1/dlog/dlog.go:141 | the conversion to `Severity` yields an `int32` congruent to its input modulo 2^32 |
| Numerals.ToInt32OfInt32 | vendor/github.com/jedisct1/dlog/dlog.go:141 | the conversion leaves values already in `int32` range unchanged |
| Numerals.DigitsValueOfDigits | vendor/github.com/jedisct1/dlog/dlog.go:132 | the decimal digits `FormatInt` writes denote the number written |
| Whitespace.IsSpace | vendor/github.com/jedisct1/dlog/dlog.go:167 | `unicode.IsSpace`: the ASCII tab, newline, vertical tab, form feed, carriage return and space, U+0085, U+00A0, and the other White_Space code points; `TrimSpaceEnds` and `TrimSpaceEmpty` use it |
| Whitespace.TrimSpace | vendor/github.com/jedisct1/dlog/dlog.go:167 | the result is a slice of the input with only whitespace cut on either side, and it starts and ends with non-whitespace unless it is empty |
| Whitespace.TrimNewline | vendor/github.com/jedisct1/dlog/dlog.go:167 | the result is a prefix of the input that is one character shorter exactly when the input ends with a newline |
| Whitespace.TrimsToUnique | vendor/github.com/jedisct1/dlog/dlog.go:167 | the trimmed text is determined by the input |
| Whitespace.TrimSpaceEmpty | vendor/github.com/jedisct1/dlog/dlog.go:167-170 | trimming leaves nothing exactly when the input is all whitespace |
| Whitespace.TrimSpaceEnds | vendor/github.com/jedisct1/dlog/dlog.go:167 | a non-empty trimmed text starts and ends with non-whitespace |
| Whitespace.TrimSpaceIdempotent | vendor/github.com/jedisct1/dlog/dlog.go:167 | trimming twice is trimming once |
| Whitespace.Normalize | vendor/github.com/jedisct1/dlog/dlog.go:167 | the message logged: one trailing newline dropped, then surrounding whitespace; `NormalizeIsTrimSpace`, `NormalizeEmpty` and `NormalizeIdempotent` state its properties |
| Whitespace.NormalizeIsTrimSpace | vendor/github.com/jedisct1/dlog/dlog.go:167 | removing one trailing newline before trimming never changes the result |
| Whitespace.NormalizeEmpty | vendor/github.com/jedisct1/dlog/dlog.go:167-170 | a message normalises to nothing exactly when it is all whitespace |
| Whitespace.NormalizeIdempotent | vendor/github.com/jedisct1/dlog/dlog.go:167 | normalising a normalised message changes nothing |
| Whitespace.TrimSpaceOf | vendor/github.com/jedisct1/dlog/dlog.go:167 | any cut with only whitespace outside it and non-whitespace at both of its ends is what trimming keeps |
| Whitespace.TrimSpaceKeepsTrimmed | vendor/github.com/jedisct1/dlog/dlog.go:167 | trimming leaves text that starts and ends with non-whitespace as it is |
| Whitespace.NormalizeKeepsTrimmed | vendor/github.com/jedisct1/dlog/dlog.go:167 | a message that starts and ends with non-whitespace is logged unchanged |
| LineFormat.Stamp | vendor/github.com/jedisct1/dlog/dlog.go:190 | `%d-%02d-%02d %02d:%02d:%02d` of the clock reading; `StampRoundTrip` shows `ParseStamp` reads it back |
| LineFormat.Line | vendor/github.com/jedisct1/dlog/dlog.go:190 | the line written to a file or stderr; `LineRoundTrip` shows its stamp reads back and it ends with the message and a newline |
| LineFormat.Pad2 | vendor/github.com/jedisct1/dlog/dlog.go:190 | `%02d` of a non-negative field; `Pad2IsPaddedDigits` shows it is the digits zero-padded to width two |
| LineFormat.Pad2IsPaddedDigits | vendor/github.com/jedisct1/dlog/dlog.go:190 | `Pad2` is `%02d`: the decimal digits of the value, zero-padded on the left to width two |
| LineFormat.ClockTailShape | vendor/github.com/jedisct1/dlog/dlog.go:190 | after the year, a stamp has exactly 15 characters: separators `-`, `-`, space, `:`, `:` at fixed places and two digits per clock field, which read back as the field |
| LineFormat.StampLength | vendor/github.com/jedisct1/dlog/dlog.go:190 | the stamp is the unpadded year followed by a fixed 15-character tail |
| LineFormat.StampRoundTrip | vendor/github.com/jedisct1/dlog/dlog.go:190 | every clock reading can be read back from its stamp |
| LineFormat.StampHasNoBracket | vendor/github.com/jedisct1/dlog/dlog.go:190 | no `]` occurs inside a stamp |
| LineFormat.LineShape | vendor/github.com/jedisct1/dlog/dlog.go:190 | in a line, the stamp sits in the first brackets and the message comes right before the final newline |
| LineFormat.LineRoundTrip | vendor/github.com/jedisct1/dlog/dlog.go:190 | the time stamp can be read back from any rendered line, whatever the app name and message; the line ends with message and newline |
| LineFormat.ShortYearExample | vendor/github.com/jedisct1/dlog/dlog.go:190 | year 999 is written with three digits, the other fields with two |
| LogLaws.FilteredCallIsSilent | vendor/github.com/jedisct1/dlog/dlog.go:160-162 | a call below the threshold changes nothing: no state, no trace entry, no exit |
| LogLaws.InitialStateFiltersAll | vendor/github.com/jedisct1/dlog/dlog.go:29-34 | with the threshold the process starts with, calls of every level are dropped |
| LogLaws.BlankMessageIsSilent | vendor/github.com/jedisct1/dlog/dlog.go:167-170 | an all-whitespace message changes nothing (nothing resolved or written, no exit), even at Fatal |
| LogLaws.LogPanicsIff | vendor/github.com/jedisct1/dlog/dlog.go:173-186 | a call panics exactly when it is accepted and the flag pointer is nil, or a needed syslog client cannot be created, or a needed file cannot be opened; the cause is the first of these |
| LogLaws.ResolveSyslogEvents | vendor/github.com/jedisct1/dlog/dlog.go:173-179 | the syslog step only extends the trace, writes nothing, leaves the file and the configuration alone, and adds one creation event exactly when it sets the client |
| LogLaws.ResolveFileEvents | vendor/github.com/jedisct1/dlog/dlog.go:180-186 | the file step only extends the trace, writes nothing, leaves syslog and the configuration alone, and adds one open event exactly when it sets the handle |
| LogLaws.EmitEvents | vendor/github.com/jedisct1/dlog/dlog.go:187-197 | the write step appends exactly one write and nothing that resolves a destination |
| LogLaws.WriteEvents | vendor/github.com/jedisct1/dlog/dlog.go:187-200 | the write step adds exactly one write, the first event `Emit` produces, and resolves nothing |
| LogLaws.EmitIsExpected | vendor/github.com/jedisct1/dlog/dlog.go:187-197 | after resolution, the sink written to is syslog if requested or connected, else the file (open or configured), else stderr; a file write is followed by a sync of that file and nothing else follows |
| LogLaws.DispatchAppends | vendor/github.com/jedisct1/dlog/dlog.go:171-197 | under the lock, a non-aborting call appends exactly the due syslog connection, the due file opening, the expected write and, after a file write, its sync |
| LogLaws.DispatchSyncsFileWrite | vendor/github.com/jedisct1/dlog/dlog.go:187-197 | under the lock, a non-aborting call ends the trace with the write and, for a file, the sync of that file |
| LogLaws.DispatchWritesOnce | vendor/github.com/jedisct1/dlog/dlog.go:171-197 | under the lock, a non-aborting call extends the trace with exactly one write, to the expected sink |
| LogSpec.Initial | vendor/github.com/jedisct1/dlog/dlog.go:29-34 | the logger at process start: threshold `SeverityLast`, app name `-`, no flags registered, nothing resolved; `InitialStateFiltersAll` and `InitialInv` state what follows |
| LogSpec.Init | vendor/github.com/jedisct1/dlog/dlog.go:145-157 | stores threshold, app name and facility (empty becomes `DAEMON`), then registers the flags or panics on the second registration; `InitEffect` states its effect |
| LogSpec.SetLevel | vendor/github.com/jedisct1/dlog/dlog.go:139-143 | stores `Parse(text)` as the threshold; `SetLevelOfString` and `SetLevelNonNumeric` state its cases |
| LogSpec.Configure | vendor/github.com/jedisct1/dlog/dlog.go:153-154 | the flag parser's stores through the two registered pointers; `ApplyInv` shows they keep the run invariant |
| LogSpec.ResolveSyslog | vendor/github.com/jedisct1/dlog/dlog.go:173-179 | creates the syslog client when requested and absent, or panics when that fails; `ResolveSyslogEvents` states its effect |
| LogSpec.ResolveFile | vendor/github.com/jedisct1/dlog/dlog.go:180-186 | opens the log file when a path is set and none is open, or panics when that fails; `ResolveFileEvents` states its effect |
| LogSpec.Emit | vendor/github.com/jedisct1/dlog/dlog.go:187-197 | the write: syslog if a client exists, else file write and sync, else stderr; `EmitEvents` and `EmitIsExpected` state exactly what it adds |
| LogSpec.Write | vendor/github.com/jedisct1/dlog/dlog.go:187-200 | the write followed by `os.Exit(255)` at Fatal and above; `WriteEvents` states the events it adds and `AcceptedCallExitsIffFatal` the exit |
| LogSpec.Dispatch | vendor/github.com/jedisct1/dlog/dlog.go:171-200 | the part under the lock: nil-pointer check, both resolutions, then the write; `DispatchWritesOnce`, `DispatchPanics` and `DispatchFollows` state its effect |
| LogSpec.Log | vendor/github.com/jedisct1/dlog/dlog.go:159-201 | `logf` with rendered message, clock reading and foreign-call answers as inputs; `LogCases` and the `LogLaws` lemmas on `Log` state its effect |
| LogSpec.LogCases | vendor/github.com/jedisct1/dlog/dlog.go:159-170 | a call below the threshold or with a blank message leaves the logger as it was; any other call is the locked part applied to the normalised message |
| LogLaws.DispatchPanics | vendor/github.com/jedisct1/dlog/dlog.go:171-186 | under the lock, the call aborts exactly when the flag pointer is nil or a needed resolution fails, and the cause is the first failure |
| LogLaws.DispatchFollows | vendor/github.com/jedisct1/dlog/dlog.go:171-197 | under the lock, the trace only grows, resolved destinations and the configuration stay, and the nil-pointer panic happens exactly when the pointer is nil |
| LogLaws.DispatchResolves | vendor/github.com/jedisct1/dlog/dlog.go:173-186 | under the lock, a call that does not abort leaves each destination resolved exactly when it is configured or was already resolved |
| LogLaws.AcceptedCallAppends | vendor/github.com/jedisct1/dlog/dlog.go:159-197 | an accepted, non-aborting call appends exactly the events read off the state before it: the due syslog connection, the due file opening, the write of the normalised message and, after a file write, its sync |
| LogLaws.FileWriteIsSynced | vendor/github.com/jedisct1/dlog/dlog.go:187-197 | a call that writes to the log file ends the trace with that write followed by the sync of the same file; any other call ends with its write |
| LogLaws.AcceptedCallWritesOnce | vendor/github.com/jedisct1/dlog/dlog.go:159-197 | an accepted, non-aborting call only extends the trace, with exactly one write: syslog with the level's priority, else the file line, else the stderr line, carrying the normalised message |
| LogLaws.AcceptedCallExitsIffFatal | vendor/github.com/jedisct1/dlog/dlog.go:198-200 | an accepted, non-aborting call exits with 255 exactly when the level is Fatal or above; below it the process runs on |
| LogLaws.LogKeepsResolution | vendor/github.com/jedisct1/dlog/dlog.go:173-186 | a call never drops a resolved syslog client or file handle, and never changes threshold, app name, facility or flags |
| LogLaws.AcceptedCallResolves | vendor/github.com/jedisct1/dlog/dlog.go:173-186 | after an accepted, non-aborting call, a client exists exactly when syslog is requested or was connected, and a file is open exactly when a path is set or one was open |
| LogLaws.SyslogAndFileBothResolved | vendor/github.com/jedisct1/dlog/dlog.go:173-188 | with syslog and a file both configured, the first accepted call creates the client and opens the file, then writes to syslog only |
| LogLaws.InitEffect | vendor/github.com/jedisct1/dlog/dlog.go:145-157 | `Init` stores threshold and app name, defaults an empty facility to DAEMON, registers the flags with defaults, touches no destination; it returns normally exactly on the first call |
| LogLaws.SetLevelOfString | vendor/github.com/jedisct1/dlog/dlog.go:131-143 | setting the threshold from its own text restores it and changes nothing else |
| LogLaws.SetLevelNonNumeric | vendor/github.com/jedisct1/dlog/dlog.go:139-143 | text that is not a number, and shows it before any overflow, sets the threshold to Debug |
| LogLaws.InitialInv | vendor/github.com/jedisct1/dlog/dlog.go:29-34 | the process-start state satisfies the run invariant |
| LogLaws.DispatchResolutionEvents | vendor/github.com/jedisct1/dlog/dlog.go:171-197 | under the lock, one open event is added exactly when the handle is set, and one creation event exactly when the client is set |
| LogLaws.LogResolutionEvents | vendor/github.com/jedisct1/dlog/dlog.go:159-201 | a call adds one open event exactly when it sets the file handle, and one client creation exactly when it sets the client |
| LogLaws.LogInv | vendor/github.com/jedisct1/dlog/dlog.go:159-201 | a log call preserves the run invariant |
| LogLaws.ApplyInv | vendor/github.com/jedisct1/dlog/dlog.go:139-201 | every operation preserves the run invariant |
| LogLaws.RunInv | vendor/github.com/jedisct1/dlog/dlog.go:139-201 | every run preserves the run invariant |
| LogLaws.ResolutionAtMostOnce | vendor/github.com/jedisct1/dlog/dlog.go:173-186 | from process start, every run opens the file at most once and creates the syslog client at most once, and never dereferences the nil flag pointer |
| LogLaws.NoInitNoOutput | vendor/github.com/jedisct1/dlog/dlog.go:29-34 | without `Init`, any run leaves the logger in its start state: nothing written, nothing resolved |
| LogLaws.RunKeepsResolution | vendor/github.com/jedisct1/dlog/dlog.go:173-186 | across any run, resolved destinations stay as they are and the trace is only extended |
| LogLaws.LogTraceGrows | vendor/github.com/jedisct1/dlog/dlog.go:159-201 | a call never removes or rewrites earlier trace entries |
| LogLaws.DefaultsWriteToStderr | vendor/github.com/jedisct1/dlog/dlog.go:187-200 | right after the first `Init`, with the flags at their defaults, a message resolves nothing, goes to stderr as one line, and exits at Fatal (`AcceptedCallAppends` states the general case) |
| LogLaws.WarningThresholdExample | vendor/github.com/jedisct1/dlog/dlog.go:145-201 | after `Init("myapp", SeverityWarning, "")`, an info message is dropped and a warning yields one stderr line |
| LogLaws.FatalExample | vendor/github.com/jedisct1/dlog/dlog.go:167-200 | at threshold Debug, `Fatal("")` does nothing and the process runs on; `Fatal("boom\n")` writes `boom` and exits with 255 |
| Dlog.LogState.constructor | vendor/github.com/jedisct1/dlog/dlog.go:29-34 | the state at process start: threshold `SeverityLast`, app name `-`, no flags, nothing resolved |
| Dlog.LogState.Init | vendor/github.com/jedisct1/dlog/dlog.go:145-157 | updates the fields as `LogSpec.Init` does and returns no error |
| Dlog.LogState.Set | vendor/github.com/jedisct1/dlog/dlog.go:139-143 | once `Init` has registered the `-loglevel` flag (line 155), stores `Severity(Atoi(text))` as the threshold and returns no error |
| Dlog.LogState.Configure | vendor/github.com/jedisct1/dlog/dlog.go:153-154 | stores the `-syslog` and `-logfile` values through the registered pointers |
| Dlog.LogState.Logf | vendor/github.com/jedisct1/dlog/dlog.go:159-201 | updates the fields exactly as `LogSpec.Log` does, so every `LogLaws` property holds of the object |
| Dlog.LogState.LogValue | vendor/github.com/jedisct1/dlog/dlog.go:203-205 | same effect as `Logf` on the value's rendered text |
| Dlog.LogState.Debugf | vendor/github.com/jedisct1/dlog/dlog.go:67-69 | `Logf` at Debug |
| Dlog.LogState.Infof | vendor/github.com/jedisct1/dlog/dlog.go:71-73 | `Logf` at Info |
| Dlog.LogState.Noticef | vendor/github.com/jedisct1/dlog/dlog.go:75-77 | `Logf` at Notice |
| Dlog.LogState.Warnf | vendor/github.com/jedisct1/dlog/dlog.go:79-81 | `Logf` at Warning |
| Dlog.LogState.Errorf | vendor/github.com/jedisct1/dlog/dlog.go:83-85 | `Logf` at Error |
| Dlog.LogState.Criticalf | vendor/github.com/jedisct1/dlog/dlog.go:87-89 | `Logf` at Critical |
| Dlog.LogState.Fatalf | vendor/github.com/jedisct1/dlog/dlog.go:91-93 | `Logf` at Fatal |
| Dlog.LogState.Debug | vendor/github.com/jedisct1/dlog/dlog.go:95-97 | `log` at Debug |
| Dlog.LogState.Info | vendor/github.com/jedisct1/dlog/dlog.go:99-101 | `log` at Info |
| Dlog.LogState.Notice | vendor/github.com/jedisct1/dlog/dlog.go:103-105 | `log` at Notice |
| Dlog.LogState.Warn | vendor/github.com/jedisct1/dlog/dlog.go:107-109 | `log` at Warning |
| Dlog.LogState.Error | vendor/github.com/jedisct1/dlog/dlog.go:111-113 | `log` at Error |
| Dlog.LogState.Critical | vendor/github.com/jedisct1/dlog/dlog.go:115-117 | `log` at Critical |
| Dlog.LogState.Fatal | vendor/github.com/jedisct1/dlog/dlog.go:119-121 | `log` at Fatal |

## Left out

- Locking (`sync.Mutex`) and the atomic loads and stores of the threshold (`get`, `set`, `Get`). Calls are modelled one after another, and the threshold is read and written as a plain field. So the model says nothing about interleavings.
- The flag package. Registration is modelled only as the flag pointers becoming non-nil (`useSyslog`, `fileName`), plus the panic on a second registration. Parsing the command line is modelled by `Configure` and `Set`. The `-loglevel` usage text is not modelled.
- Real I/O: `gsyslog.NewLogger`, `WriteLevel`, `os.OpenFile`, `WriteString`, `Sync` and stderr. These are recorded as trace events. Whether creating the client and opening the file succeed is an input (`Env`). Errors from writes and syncs are ignored by the code, and the model always records the write.
- `time.Now()`: the clock reading is an input. Its fields are only constrained where a lemma needs them to fit two digits.
- `fmt.Sprintf(format, args...)` and `%v` of arbitrary values: the rendered message is an input.
- Byte strings: messages are sequences of Unicode code points. The UTF-8 decoding that `strings.TrimSpace` does, and its treatment of invalid bytes, are not modelled. `len(message)` is read as "the message is empty".
- `panic` and `os.Exit`: they set the outcome, and a process that has stopped takes no further calls.
- `strconv.Atoi` is modelled for a 64-bit platform through its `ParseInt` reading. Its fast path for short inputs returns the same values.
- The syslog daemon's own formatting of the message is outside this model.
