/**
 * The logger's process-wide state as a value, and what each operation of
 * dlog does to it: `Init`, the flag-driven `Set` of the threshold, the
 * external flag parser filling in `-syslog` and `-logfile`, and `logf`
 * with its filtering, normalisation, lazy destination resolution, single
 * write and fatal exit. Writes, the creation of the syslog client and the
 * opening of the log file are recorded as events of a trace; `panic` and
 * `os.Exit` end the run through `outcome`.
 */
module LogSpec {
  import opened Wrappers
  import opened Severities
  import opened Whitespace
  import opened LineFormat

  /** Why the process aborted through `panic`. */
  datatype PanicCause =
    | NilUseSyslog                  // `*_globals.useSyslog` read while the pointer is still nil
    | SyslogUnavailable             // `gsyslog.NewLogger` returned an error
    | FileOpenFailed(path: string)  // `os.OpenFile` returned an error
    | FlagRedefined(name: string)   // `flag.Bool` refuses a flag name that is already defined

  datatype Outcome = Running | Exited(code: int) | Panicked(cause: PanicCause)

  /** The observable effects of the logger on the outside world. */
  datatype Event =
    | SyslogConnect(priority: Priority, facility: string, tag: string)  // `gsyslog.NewLogger`
    | FileOpen(path: string)             // `os.OpenFile(path, O_WRONLY|O_APPEND|O_CREATE, 0644)`
    | SyslogWrite(priority: Priority, message: string)  // `WriteLevel`
    | FileWrite(path: string, line: string)            // `outFd.WriteString`
    | FileSync(path: string)                           // `outFd.Sync`
    | StderrWrite(line: string)                        // `os.Stderr.WriteString`

  predicate IsWrite(e: Event) {
    e.SyslogWrite? || e.FileWrite? || e.StderrWrite?
  }

  predicate IsFileOpen(e: Event) {
    e.FileOpen?
  }

  predicate IsSyslogConnect(e: Event) {
    e.SyslogConnect?
  }

  /** How the foreign calls answer on one log call: whether a syslog client can be created and the file opened. */
  datatype Env = Env(syslogAvailable: bool, fileOpens: bool)

  /** A syslog client, with the facility and tag it was created with. */
  datatype Syslogger = Syslogger(facility: string, tag: string)

  /**
   * `_globals`. `useSyslog` and `fileName` are the flag pointers, nil
   * (`None`) until `Init` registers the flags; `syslogger` and `outFile`
   * are the lazily resolved destinations.
   */
  datatype Logger = Logger(
    threshold: Severity,
    appName: string,
    facility: string,
    useSyslog: Option<bool>,
    fileName: Option<string>,
    syslogger: Option<Syslogger>,
    outFile: Option<string>,
    trace: seq<Event>,
    outcome: Outcome)

  const ExitCodeFatal: int := 255
  const DefaultFacility: string := "DAEMON"

  /** The state at process start: nothing accepted (`SeverityLast`), app name `-`, no flags, nothing resolved. */
  function Initial(): Logger {
    Logger(SeverityLast, "-", "", None, None, None, None, [], Running)
  }

  predicate FlagsRegistered(w: Logger) {
    w.useSyslog.Some?
  }

  /**
   * `Init`: store the threshold, the application name and the facility
   * (`DAEMON` when empty), then register the flags. Registering a flag name
   * a second time makes the flag package panic.
   */
  function Init(w: Logger, appName: string, level: Severity, facility: string): Logger {
    var w' := w.(threshold := level, appName := appName,
                 facility := if |facility| == 0 then DefaultFacility else facility);
    if FlagsRegistered(w) then w'.(outcome := Panicked(FlagRedefined("syslog")))
    else w'.(useSyslog := Some(false), fileName := Some(""))
  }

  /** `(*Severity).Set` on the threshold, as the `-loglevel` flag calls it. */
  function SetLevel(w: Logger, text: string): Logger {
    w.(threshold := Parse(text))
  }

  /** The flag parser storing the values of `-syslog` and `-logfile` through the registered pointers. */
  function Configure(w: Logger, useSyslog: bool, fileName: string): Logger
    requires FlagsRegistered(w)
  {
    w.(useSyslog := Some(useSyslog), fileName := Some(fileName))
  }

  /** A syslog client is created when syslog is requested and none exists yet. */
  predicate NeedsSyslog(w: Logger) {
    w.useSyslog == Some(true) && w.syslogger.None?
  }

  /** The log file is opened when a non-empty path is set and no handle exists yet. */
  predicate NeedsFile(w: Logger) {
    w.fileName.Some? && |w.fileName.value| > 0 && w.outFile.None?
  }

  function ResolveSyslog(w: Logger, env: Env): Logger {
    if !NeedsSyslog(w) then w
    else if env.syslogAvailable then
      w.(syslogger := Some(Syslogger(w.facility, w.appName)),
         trace := w.trace + [SyslogConnect(LogInfo, w.facility, w.appName)])
    else w.(outcome := Panicked(SyslogUnavailable))
  }

  function ResolveFile(w: Logger, env: Env): Logger {
    if !NeedsFile(w) then w
    else if env.fileOpens then
      w.(outFile := w.fileName, trace := w.trace + [FileOpen(w.fileName.value)])
    else w.(outcome := Panicked(FileOpenFailed(w.fileName.value)))
  }

  /** The write of one message: to syslog if a client exists, else to the file if open, else to stderr. */
  function Emit(w: Logger, s: Level, message: string, now: Timestamp): seq<Event> {
    if w.syslogger.Some? then [SyslogWrite(SyslogPriority(s), message)]
    else
      var line := Line(now, w.appName, s, message);
      match w.outFile
      case Some(path) => [FileWrite(path, line), FileSync(path)]
      case None => [StderrWrite(line)]
  }

  /** Appending the write of a message; then, at `SeverityFatal` and above, `os.Exit(255)`. */
  function Write(w: Logger, s: Level, message: string, now: Timestamp): Logger {
    var w' := w.(trace := w.trace + Emit(w, s, message, now));
    if s >= SeverityFatal then w'.(outcome := Exited(ExitCodeFatal)) else w'
  }

  /** What `logf` does under the lock with a non-empty message: resolve the destinations, then write. */
  function Dispatch(w: Logger, s: Level, message: string, now: Timestamp, env: Env): Logger {
    if w.useSyslog.None? then w.(outcome := Panicked(NilUseSyslog))
    else
      var w1 := ResolveSyslog(w, env);
      if !w1.outcome.Running? then w1
      else
        var w2 := ResolveFile(w1, env);
        if !w2.outcome.Running? then w2 else Write(w2, s, message, now)
  }

  /** `logf(s, ...)` with the message already rendered by `fmt.Sprintf`, and the clock reading `now`. */
  function Log(w: Logger, s: Level, rendered: string, now: Timestamp, env: Env): Logger
    requires w.outcome.Running?
  {
    if s < w.threshold then w
    else
      var message := Normalize(rendered);
      if |message| == 0 then w else Dispatch(w, s, message, now, env)
  }

  /** A call passes the filter and has something left to say. */
  predicate Accepted(w: Logger, s: Level, rendered: string) {
    s >= w.threshold && Normalize(rendered) != []
  }

  /** A call that is dropped leaves the logger as it was; one that is accepted is `Dispatch` of the normalised message. */
  lemma LogCases(w: Logger, s: Level, rendered: string, now: Timestamp, env: Env)
    requires w.outcome.Running?
    ensures !Accepted(w, s, rendered) ==> Log(w, s, rendered, now, env) == w
    ensures Accepted(w, s, rendered) ==> Log(w, s, rendered, now, env) == Dispatch(w, s, Normalize(rendered), now, env)
  {
  }

  // ---------------------------------------------------------------------
  // Sequences of operations
  // ---------------------------------------------------------------------

  /** What the rest of the program can do to the logger. */
  datatype Op =
    | InitOp(appName: string, level: Severity, facility: string)
    | SetLevelOp(text: string)
    | ConfigureOp(useSyslog: bool, fileName: string)
    | LogOp(severity: Level, rendered: string, now: Timestamp, env: Env)

  /** One operation; the flags can only be set once `Init` has registered them. */
  function Apply(w: Logger, op: Op): Logger
    requires w.outcome.Running?
  {
    match op
    case InitOp(appName, level, facility) => Init(w, appName, level, facility)
    case SetLevelOp(text) => if FlagsRegistered(w) then SetLevel(w, text) else w
    case ConfigureOp(useSyslog, fileName) => if FlagsRegistered(w) then Configure(w, useSyslog, fileName) else w
    case LogOp(s, rendered, now, env) => Log(w, s, rendered, now, env)
  }

  /** The operations in order; nothing happens once the process has exited or panicked. */
  function Run(w: Logger, ops: seq<Op>): Logger
    decreases |ops|
  {
    if |ops| == 0 || !w.outcome.Running? then w else Run(Apply(w, ops[0]), ops[1..])
  }

  /** The events of `t` that satisfy `p`, in order. */
  function Filter(t: seq<Event>, p: Event -> bool): (r: seq<Event>)
    ensures |r| <= |t|
  {
    if |t| == 0 then [] else Filter(t[..|t| - 1], p) + (if p(t[|t| - 1]) then [t[|t| - 1]] else [])
  }

  lemma FilterAppendOne(t: seq<Event>, e: Event, p: Event -> bool)
    ensures Filter(t + [e], p) == Filter(t, p) + (if p(e) then [e] else [])
  {
    assert (t + [e])[..|t|] == t;
  }
}
