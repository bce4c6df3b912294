/**
 * What dlog promises about one log call and about any sequence of calls,
 * proved of the state-transition functions in `LogSpec`.
 */
module LogLaws {
  import opened Wrappers
  import opened Severities
  import opened Whitespace
  import opened LineFormat
  import opened LogSpec

  // ---------------------------------------------------------------------
  // Filtering and suppression
  // ---------------------------------------------------------------------

  /** A call below the threshold leaves the whole state, trace and outcome included, as it was. */
  lemma FilteredCallIsSilent(w: Logger, s: Level, rendered: string, now: Timestamp, env: Env)
    requires w.outcome.Running? && s < w.threshold
    ensures Log(w, s, rendered, now, env) == w
  {
  }

  /** With the threshold it starts with, the logger drops every call of every level. */
  lemma InitialStateFiltersAll(s: Level, rendered: string, now: Timestamp, env: Env)
    ensures Log(Initial(), s, rendered, now, env) == Initial()
  {
  }

  /**
   * A message that is empty or all whitespace (a lone newline included) is
   * dropped before anything is resolved or written, and even at
   * `SeverityFatal` the process goes on.
   */
  lemma BlankMessageIsSilent(w: Logger, s: Level, rendered: string, now: Timestamp, env: Env)
    requires w.outcome.Running?
    requires forall k :: 0 <= k < |rendered| ==> IsSpace(rendered[k])
    ensures Log(w, s, rendered, now, env) == w
  {
    NormalizeEmpty(rendered);
  }

  // ---------------------------------------------------------------------
  // One accepted call
  // ---------------------------------------------------------------------

  /** Under the lock, the call aborts exactly when the flag pointer is nil or a needed resolution fails; the cause is the first failure. */
  lemma DispatchPanics(w: Logger, s: Level, message: string, now: Timestamp, env: Env)
    requires w.outcome.Running?
    ensures var o := Dispatch(w, s, message, now, env).outcome;
      && (o.Panicked? <==>
          || w.useSyslog.None?
          || (NeedsSyslog(w) && !env.syslogAvailable)
          || (NeedsFile(w) && !env.fileOpens))
      && (o.Panicked? ==>
          o.cause == if w.useSyslog.None? then NilUseSyslog
                     else if NeedsSyslog(w) && !env.syslogAvailable then SyslogUnavailable
                     else FileOpenFailed(w.fileName.value))
  {
    if w.useSyslog.Some? {
      var w1 := ResolveSyslog(w, env);
      if w1.outcome.Running? {
        var w2 := ResolveFile(w1, env);
        assert NeedsFile(w1) == NeedsFile(w) && w1.fileName == w.fileName;
        if w2.outcome.Running? {
          assert Dispatch(w, s, message, now, env) == Write(w2, s, message, now);
        } else {
          assert Dispatch(w, s, message, now, env) == w2;
        }
      } else {
        assert Dispatch(w, s, message, now, env) == w1;
      }
    }
  }

  /** The call aborts the process exactly when it is accepted and a dereference or a needed resolution fails. */
  lemma LogPanicsIff(w: Logger, s: Level, rendered: string, now: Timestamp, env: Env)
    requires w.outcome.Running?
    ensures Log(w, s, rendered, now, env).outcome.Panicked? <==>
      && Accepted(w, s, rendered)
      && (|| w.useSyslog.None?
          || (NeedsSyslog(w) && !env.syslogAvailable)
          || (NeedsFile(w) && !env.fileOpens))
    ensures Log(w, s, rendered, now, env).outcome.Panicked? ==>
      Log(w, s, rendered, now, env).outcome.cause ==
        if w.useSyslog.None? then NilUseSyslog
        else if NeedsSyslog(w) && !env.syslogAvailable then SyslogUnavailable
        else FileOpenFailed(w.fileName.value)
  {
    LogCases(w, s, rendered, now, env);
    if Accepted(w, s, rendered) {
      DispatchPanics(w, s, Normalize(rendered), now, env);
    }
  }

  /**
   * The write an accepted call makes, read off the state before the call:
   * syslog wins if it is requested or already connected, then the file
   * (the open one, or the configured path), then standard error.
   */
  function ExpectedWrite(w: Logger, s: Level, message: string, now: Timestamp): Event {
    if w.syslogger.Some? || w.useSyslog == Some(true) then SyslogWrite(SyslogPriority(s), message)
    else if w.outFile.Some? then FileWrite(w.outFile.value, Line(now, w.appName, s, message))
    else if w.fileName.Some? && |w.fileName.value| > 0 then FileWrite(w.fileName.value, Line(now, w.appName, s, message))
    else StderrWrite(Line(now, w.appName, s, message))
  }

  /**
   * `b` follows `a` without touching the configuration: the trace only
   * grows, a resolved destination stays as it is, and threshold, names and
   * flags are unchanged.
   */
  ghost predicate Follows(a: Logger, b: Logger) {
    && a.trace <= b.trace
    && (a.syslogger.Some? ==> b.syslogger == a.syslogger)
    && (a.outFile.Some? ==> b.outFile == a.outFile)
    && b.threshold == a.threshold && b.appName == a.appName && b.facility == a.facility
    && b.useSyslog == a.useSyslog && b.fileName == a.fileName
  }

  /**
   * Going from `a` to `b` adds one file opening to the trace exactly when
   * the file handle changes, and one syslog client creation exactly when
   * the client changes.
   */
  ghost predicate ResolutionsCounted(a: Logger, b: Logger) {
    && |Filter(b.trace, IsFileOpen)| == |Filter(a.trace, IsFileOpen)| + (if b.outFile != a.outFile then 1 else 0)
    && |Filter(b.trace, IsSyslogConnect)| == |Filter(a.trace, IsSyslogConnect)| + (if b.syslogger != a.syslogger then 1 else 0)
  }

  /** Two counted steps make a counted step when neither destination changes in both. */
  lemma ChainCounted(a: Logger, b: Logger, c: Logger)
    requires ResolutionsCounted(a, b) && ResolutionsCounted(b, c)
    requires b.outFile == a.outFile || c.outFile == b.outFile
    requires b.syslogger == a.syslogger || c.syslogger == b.syslogger
    ensures ResolutionsCounted(a, c)
  {
  }

  /** Resolving syslog writes nothing, leaves the file alone, and records the client's creation exactly when it sets one. */
  lemma ResolveSyslogEvents(w: Logger, env: Env)
    requires w.outcome.Running?
    ensures var w1 := ResolveSyslog(w, env);
      && w.trace <= w1.trace && Filter(w1.trace, IsWrite) == Filter(w.trace, IsWrite)
      && w1.outFile == w.outFile && ResolutionsCounted(w, w1)
      && Follows(w, w1) && w1.outcome != Panicked(NilUseSyslog)
  {
    if NeedsSyslog(w) && env.syslogAvailable {
      var e := SyslogConnect(LogInfo, w.facility, w.appName);
      FilterAppendOne(w.trace, e, IsWrite);
      FilterAppendOne(w.trace, e, IsFileOpen);
      FilterAppendOne(w.trace, e, IsSyslogConnect);
    }
  }

  /** Opening the file writes nothing, leaves syslog alone, and records the opening exactly when it sets the handle. */
  lemma ResolveFileEvents(w: Logger, env: Env)
    requires w.outcome.Running?
    ensures var w2 := ResolveFile(w, env);
      && w.trace <= w2.trace && Filter(w2.trace, IsWrite) == Filter(w.trace, IsWrite)
      && w2.syslogger == w.syslogger && ResolutionsCounted(w, w2)
      && Follows(w, w2) && w2.outcome != Panicked(NilUseSyslog)
  {
    if NeedsFile(w) && env.fileOpens {
      var e := FileOpen(w.fileName.value);
      FilterAppendOne(w.trace, e, IsWrite);
      FilterAppendOne(w.trace, e, IsFileOpen);
      FilterAppendOne(w.trace, e, IsSyslogConnect);
    }
  }

  /** Appending an event that resolves nothing leaves the resolution events as they were. */
  lemma AppendNonResolving(t: seq<Event>, e: Event)
    requires !IsFileOpen(e) && !IsSyslogConnect(e)
    ensures Filter(t + [e], IsWrite) == Filter(t, IsWrite) + (if IsWrite(e) then [e] else [])
    ensures Filter(t + [e], IsFileOpen) == Filter(t, IsFileOpen)
    ensures Filter(t + [e], IsSyslogConnect) == Filter(t, IsSyslogConnect)
  {
    FilterAppendOne(t, e, IsWrite);
    FilterAppendOne(t, e, IsFileOpen);
    FilterAppendOne(t, e, IsSyslogConnect);
  }

  /** The events `Emit` appends hold exactly one write and nothing that resolves a destination. */
  lemma EmitEvents(t: seq<Event>, w: Logger, s: Level, message: string, now: Timestamp)
    ensures var es := Emit(w, s, message, now);
      && Filter(t + es, IsWrite) == Filter(t, IsWrite) + [es[0]]
      && Filter(t + es, IsFileOpen) == Filter(t, IsFileOpen)
      && Filter(t + es, IsSyslogConnect) == Filter(t, IsSyslogConnect)
  {
    var es := Emit(w, s, message, now);
    AppendNonResolving(t, es[0]);
    if |es| == 2 {
      assert t + es == (t + [es[0]]) + [es[1]];
      AppendNonResolving(t + [es[0]], es[1]);
    } else {
      assert t + es == t + [es[0]];
    }
  }

  /** The write step adds exactly one write and resolves nothing. */
  lemma WriteEvents(w: Logger, s: Level, message: string, now: Timestamp)
    requires w.outcome.Running?
    ensures var w3 := Write(w, s, message, now);
      && w.trace <= w3.trace
      && Filter(w3.trace, IsWrite) == Filter(w.trace, IsWrite) + [Emit(w, s, message, now)[0]]
      && w3.outFile == w.outFile && w3.syslogger == w.syslogger && ResolutionsCounted(w, w3)
      && Follows(w, w3) && w3.outcome != Panicked(NilUseSyslog)
  {
    EmitEvents(w.trace, w, s, message, now);
  }

  /** After both resolution steps succeed, the sink `Emit` writes to is the one `ExpectedWrite` names. */
  lemma EmitIsExpected(w: Logger, env: Env, s: Level, message: string, now: Timestamp)
    requires w.outcome.Running? && w.useSyslog.Some?
    requires ResolveFile(ResolveSyslog(w, env), env).outcome.Running?
    ensures Emit(ResolveFile(ResolveSyslog(w, env), env), s, message, now)[0] == ExpectedWrite(w, s, message, now)
    ensures Emit(ResolveFile(ResolveSyslog(w, env), env), s, message, now)
            == [ExpectedWrite(w, s, message, now)] + SyncAfter(ExpectedWrite(w, s, message, now))
  {
  }

  /** The flush that follows a write to the log file; no other write is followed by anything. */
  function SyncAfter(e: Event): seq<Event> {
    if e.FileWrite? then [FileSync(e.path)] else []
  }

  /**
   * Everything an accepted call that does not abort appends to the trace,
   * read off the state before the call: the syslog client's creation and
   * the file's opening when they are due, the write `ExpectedWrite` names,
   * and the sync after a file write.
   */
  function ExpectedEvents(w: Logger, s: Level, message: string, now: Timestamp): seq<Event> {
    (if NeedsSyslog(w) then [SyslogConnect(LogInfo, w.facility, w.appName)] else [])
    + (if NeedsFile(w) then [FileOpen(w.fileName.value)] else [])
    + [ExpectedWrite(w, s, message, now)] + SyncAfter(ExpectedWrite(w, s, message, now))
  }

  /** Under the lock, a call that does not abort appends exactly `ExpectedEvents` to the trace. */
  lemma DispatchAppends(w: Logger, s: Level, message: string, now: Timestamp, env: Env)
    requires w.outcome.Running?
    requires !Dispatch(w, s, message, now, env).outcome.Panicked?
    ensures Dispatch(w, s, message, now, env).trace == w.trace + ExpectedEvents(w, s, message, now)
  {
    var w1 := ResolveSyslog(w, env);
    var w2 := ResolveFile(w1, env);
    assert Dispatch(w, s, message, now, env) == Write(w2, s, message, now);
    var connect := if NeedsSyslog(w) then [SyslogConnect(LogInfo, w.facility, w.appName)] else [];
    var open := if NeedsFile(w) then [FileOpen(w.fileName.value)] else [];
    assert w1.trace == w.trace + connect;
    assert NeedsFile(w1) == NeedsFile(w) && w1.fileName == w.fileName;
    assert w2.trace == w1.trace + open;
    EmitIsExpected(w, env, s, message, now);
    var e := ExpectedWrite(w, s, message, now);
    assert Write(w2, s, message, now).trace == w2.trace + ([e] + SyncAfter(e));
    assert ExpectedEvents(w, s, message, now) == connect + open + [e] + SyncAfter(e);
  }

  /** An accepted call that does not abort appends exactly `ExpectedEvents` of the normalised message. */
  lemma AcceptedCallAppends(w: Logger, s: Level, rendered: string, now: Timestamp, env: Env)
    requires w.outcome.Running? && Accepted(w, s, rendered)
    requires !Log(w, s, rendered, now, env).outcome.Panicked?
    ensures Log(w, s, rendered, now, env).trace == w.trace + ExpectedEvents(w, s, Normalize(rendered), now)
  {
    LogCases(w, s, rendered, now, env);
    DispatchAppends(w, s, Normalize(rendered), now, env);
  }

  /**
   * A call bound for the log file ends its trace with the write and then
   * the sync of that same file; a call bound elsewhere ends with its write.
   */
  lemma FileWriteIsSynced(w: Logger, s: Level, rendered: string, now: Timestamp, env: Env)
    requires w.outcome.Running? && Accepted(w, s, rendered)
    requires !Log(w, s, rendered, now, env).outcome.Panicked?
    ensures var e := ExpectedWrite(w, s, Normalize(rendered), now);
      var t := Log(w, s, rendered, now, env).trace;
      && (e.FileWrite? ==> |t| >= 2 && t[|t| - 2..] == [e, FileSync(e.path)])
      && (!e.FileWrite? ==> |t| >= 1 && t[|t| - 1] == e)
  {
    LogCases(w, s, rendered, now, env);
    DispatchSyncsFileWrite(w, s, Normalize(rendered), now, env);
  }

  /** Under the lock, a call that does not abort ends its trace with the write, then the sync of a file write. */
  lemma DispatchSyncsFileWrite(w: Logger, s: Level, message: string, now: Timestamp, env: Env)
    requires w.outcome.Running?
    requires !Dispatch(w, s, message, now, env).outcome.Panicked?
    ensures var e := ExpectedWrite(w, s, message, now);
      var t := Dispatch(w, s, message, now, env).trace;
      && (e.FileWrite? ==> |t| >= 2 && t[|t| - 2..] == [e, FileSync(e.path)])
      && (!e.FileWrite? ==> |t| >= 1 && t[|t| - 1] == e)
  {
    var e := ExpectedWrite(w, s, message, now);
    DispatchAppends(w, s, message, now, env);
    var resolutions := (if NeedsSyslog(w) then [SyslogConnect(LogInfo, w.facility, w.appName)] else [])
                       + (if NeedsFile(w) then [FileOpen(w.fileName.value)] else []);
    assert ExpectedEvents(w, s, message, now) == resolutions + [e] + SyncAfter(e);
    EndsWithWrite(Dispatch(w, s, message, now, env).trace, w.trace + resolutions, e);
  }

  /** A trace that ends with a write and the events `SyncAfter` adds ends with the write, then the sync of a file write. */
  lemma EndsWithWrite(t: seq<Event>, front: seq<Event>, e: Event)
    requires t == front + [e] + SyncAfter(e)
    ensures e.FileWrite? ==> |t| >= 2 && t[|t| - 2..] == [e, FileSync(e.path)]
    ensures !e.FileWrite? ==> |t| >= 1 && t[|t| - 1] == e
  {
  }

  /** Under the lock, a call that does not abort extends the trace with exactly one write, to the sink `ExpectedWrite` names. */
  lemma DispatchWritesOnce(w: Logger, s: Level, message: string, now: Timestamp, env: Env)
    requires w.outcome.Running?
    requires !Dispatch(w, s, message, now, env).outcome.Panicked?
    ensures w.trace <= Dispatch(w, s, message, now, env).trace
    ensures Filter(Dispatch(w, s, message, now, env).trace, IsWrite)
            == Filter(w.trace, IsWrite) + [ExpectedWrite(w, s, message, now)]
  {
    var w1 := ResolveSyslog(w, env);
    var w2 := ResolveFile(w1, env);
    ResolveSyslogEvents(w, env);
    ResolveFileEvents(w1, env);
    WriteEvents(w2, s, message, now);
    EmitIsExpected(w, env, s, message, now);
    assert Dispatch(w, s, message, now, env) == Write(w2, s, message, now);
  }

  /**
   * An accepted call that does not abort adds to the trace, never rewrites
   * it, and adds exactly one write: to the sink `ExpectedWrite` names, with
   * the normalised message.
   */
  lemma AcceptedCallWritesOnce(w: Logger, s: Level, rendered: string, now: Timestamp, env: Env)
    requires w.outcome.Running? && Accepted(w, s, rendered)
    requires !Log(w, s, rendered, now, env).outcome.Panicked?
    ensures w.trace <= Log(w, s, rendered, now, env).trace
    ensures Filter(Log(w, s, rendered, now, env).trace, IsWrite)
            == Filter(w.trace, IsWrite) + [ExpectedWrite(w, s, Normalize(rendered), now)]
  {
    DispatchWritesOnce(w, s, Normalize(rendered), now, env);
  }

  /** An accepted call that does not abort exits with code 255 exactly at `SeverityFatal`; below it, it returns. */
  lemma AcceptedCallExitsIffFatal(w: Logger, s: Level, rendered: string, now: Timestamp, env: Env)
    requires w.outcome.Running? && Accepted(w, s, rendered)
    requires !Log(w, s, rendered, now, env).outcome.Panicked?
    ensures Log(w, s, rendered, now, env).outcome == Exited(ExitCodeFatal) <==> s >= SeverityFatal
    ensures s < SeverityFatal ==> Log(w, s, rendered, now, env).outcome == Running
  {
  }

  /** A call never drops a resolved destination, and never changes the configuration. */
  lemma LogKeepsResolution(w: Logger, s: Level, rendered: string, now: Timestamp, env: Env)
    requires w.outcome.Running?
    ensures w.syslogger.Some? ==> Log(w, s, rendered, now, env).syslogger == w.syslogger
    ensures w.outFile.Some? ==> Log(w, s, rendered, now, env).outFile == w.outFile
    ensures var w' := Log(w, s, rendered, now, env);
      w'.threshold == w.threshold && w'.appName == w.appName && w'.facility == w.facility
      && w'.useSyslog == w.useSyslog && w'.fileName == w.fileName
  {
    LogCases(w, s, rendered, now, env);
    if Accepted(w, s, rendered) {
      DispatchFollows(w, s, Normalize(rendered), now, env);
    }
  }

  /**
   * Destinations are resolved lazily: an accepted call that does not abort
   * leaves a syslog client exactly when syslog is requested (or was
   * connected before), and an open file exactly when a path is set (or one
   * was open).
   */
  lemma AcceptedCallResolves(w: Logger, s: Level, rendered: string, now: Timestamp, env: Env)
    requires w.outcome.Running? && Accepted(w, s, rendered)
    requires !Log(w, s, rendered, now, env).outcome.Panicked?
    ensures Log(w, s, rendered, now, env).syslogger.Some? <==> w.syslogger.Some? || w.useSyslog == Some(true)
    ensures Log(w, s, rendered, now, env).outFile.Some? <==> w.outFile.Some? || (w.fileName.Some? && |w.fileName.value| > 0)
  {
    LogCases(w, s, rendered, now, env);
    DispatchResolves(w, s, Normalize(rendered), now, env);
  }

  /** Under the lock, a call that does not abort leaves each destination resolved exactly when it is configured or was resolved. */
  lemma DispatchResolves(w: Logger, s: Level, message: string, now: Timestamp, env: Env)
    requires w.outcome.Running?
    requires !Dispatch(w, s, message, now, env).outcome.Panicked?
    ensures Dispatch(w, s, message, now, env).syslogger.Some? <==> w.syslogger.Some? || w.useSyslog == Some(true)
    ensures Dispatch(w, s, message, now, env).outFile.Some? <==> w.outFile.Some? || (w.fileName.Some? && |w.fileName.value| > 0)
  {
    var w1 := ResolveSyslog(w, env);
    var w2 := ResolveFile(w1, env);
    assert w2.syslogger == w1.syslogger;
    assert w1.outFile == w.outFile && w1.fileName == w.fileName;
    assert Dispatch(w, s, message, now, env) == Write(w2, s, message, now);
  }

  /**
   * With syslog requested and a log file configured, the first accepted
   * call creates the syslog client AND opens the file, yet writes to
   * syslog only.
   */
  lemma SyslogAndFileBothResolved(w: Logger, s: Level, rendered: string, now: Timestamp, path: string)
    requires w.outcome.Running? && Accepted(w, s, rendered)
    requires w.useSyslog == Some(true) && w.syslogger.None?
    requires w.fileName == Some(path) && |path| > 0 && w.outFile.None?
    ensures var w' := Log(w, s, rendered, now, Env(true, true));
      && w'.syslogger == Some(Syslogger(w.facility, w.appName))
      && w'.outFile == Some(path)
      && w'.trace == w.trace + [SyslogConnect(LogInfo, w.facility, w.appName), FileOpen(path),
                                SyslogWrite(SyslogPriority(s), Normalize(rendered))]
  {
    var env := Env(true, true);
    var message := Normalize(rendered);
    LogCases(w, s, rendered, now, env);
    var w1 := w.(syslogger := Some(Syslogger(w.facility, w.appName)),
                 trace := w.trace + [SyslogConnect(LogInfo, w.facility, w.appName)]);
    assert ResolveSyslog(w, env) == w1;
    var w2 := w1.(outFile := Some(path), trace := w1.trace + [FileOpen(path)]);
    assert ResolveFile(w1, env) == w2;
    assert Dispatch(w, s, message, now, env) == Write(w2, s, message, now);
    assert Emit(w2, s, message, now) == [SyslogWrite(SyslogPriority(s), message)];
  }

  // ---------------------------------------------------------------------
  // Init and the threshold flag
  // ---------------------------------------------------------------------

  /**
   * The first `Init` returns normally: it sets the threshold and the
   * application name, defaults an empty facility to `DAEMON`, registers the
   * flags with their defaults (syslog off, no file), and resolves and writes
   * nothing. A second `Init` panics on the flag it tries to register again.
   */
  lemma InitEffect(w: Logger, appName: string, level: Severity, facility: string)
    requires w.outcome.Running?
    ensures var w' := Init(w, appName, level, facility);
      && w'.threshold == level && w'.appName == appName
      && (|facility| == 0 ==> w'.facility == "DAEMON") && (|facility| > 0 ==> w'.facility == facility)
      && w'.syslogger == w.syslogger && w'.outFile == w.outFile && w'.trace == w.trace
      && (w'.outcome == w.outcome <==> !FlagsRegistered(w))
      && (!FlagsRegistered(w) ==> w'.useSyslog == Some(false) && w'.fileName == Some(""))
  {
  }

  /** Setting the threshold from its own text form restores it exactly. */
  lemma SetLevelOfString(w: Logger, level: Severity)
    ensures SetLevel(w, String(level)) == w.(threshold := level)
  {
    ParseOfString(level);
  }

  /** Text that is not a number, and shows it before any overflow, sets the threshold to `SeverityDebug`. */
  lemma SetLevelNonNumeric(w: Logger, text: string, k: nat)
    requires Numerals.SyntaxErrorAt(text, k)
    ensures SetLevel(w, text).threshold == SeverityDebug
  {
    ParseNonNumeric(text, k);
  }

  // ---------------------------------------------------------------------
  // Runs of operations
  // ---------------------------------------------------------------------

  /**
   * What holds in every state a run reaches from `Initial()`: the log file
   * has been opened, and the syslog client created, at most once, each
   * exactly when it is resolved; before `Init` the threshold is still the
   * sentinel; and the nil flag pointer is never dereferenced.
   */
  ghost predicate Inv(w: Logger) {
    && |Filter(w.trace, IsFileOpen)| == (if w.outFile.Some? then 1 else 0)
    && |Filter(w.trace, IsSyslogConnect)| == (if w.syslogger.Some? then 1 else 0)
    && (w.useSyslog.Some? <==> w.fileName.Some?)
    && (!FlagsRegistered(w) ==> w.threshold == SeverityLast && w.syslogger.None? && w.outFile.None?)
    && w.outcome != Panicked(NilUseSyslog)
  }

  lemma InitialInv()
    ensures Inv(Initial())
  {
  }

  /** Under the lock, a call records one file opening exactly when it sets the handle, and one client creation exactly when it sets the client. */
  lemma DispatchResolutionEvents(w: Logger, s: Level, message: string, now: Timestamp, env: Env)
    requires w.outcome.Running?
    ensures ResolutionsCounted(w, Dispatch(w, s, message, now, env))
  {
    if w.useSyslog.Some? {
      var w1 := ResolveSyslog(w, env);
      ResolveSyslogEvents(w, env);
      if w1.outcome.Running? {
        var w2 := ResolveFile(w1, env);
        ResolveFileEvents(w1, env);
        ChainCounted(w, w1, w2);
        if w2.outcome.Running? {
          var w3 := Write(w2, s, message, now);
          WriteEvents(w2, s, message, now);
          ChainCounted(w, w2, w3);
          assert Dispatch(w, s, message, now, env) == w3;
        } else {
          assert Dispatch(w, s, message, now, env) == w2;
        }
      } else {
        assert Dispatch(w, s, message, now, env) == w1;
      }
    }
  }

  /** Under the lock, a call keeps the configuration and what is resolved, and dereferences the flag pointer only when it is nil. */
  lemma DispatchFollows(w: Logger, s: Level, message: string, now: Timestamp, env: Env)
    requires w.outcome.Running?
    ensures Follows(w, Dispatch(w, s, message, now, env))
    ensures Dispatch(w, s, message, now, env).outcome == Panicked(NilUseSyslog) <==> w.useSyslog.None?
  {
    if w.useSyslog.Some? {
      var w1 := ResolveSyslog(w, env);
      ResolveSyslogEvents(w, env);
      if w1.outcome.Running? {
        var w2 := ResolveFile(w1, env);
        ResolveFileEvents(w1, env);
        if w2.outcome.Running? {
          var w3 := Write(w2, s, message, now);
          WriteEvents(w2, s, message, now);
          assert Dispatch(w, s, message, now, env) == w3;
        } else {
          assert Dispatch(w, s, message, now, env) == w2;
        }
      } else {
        assert Dispatch(w, s, message, now, env) == w1;
      }
    }
  }

  /** A call adds one file opening exactly when it sets the handle, and one client creation exactly when it sets the client. */
  lemma LogResolutionEvents(w: Logger, s: Level, rendered: string, now: Timestamp, env: Env)
    requires w.outcome.Running?
    ensures ResolutionsCounted(w, Log(w, s, rendered, now, env))
  {
    LogCases(w, s, rendered, now, env);
    if Accepted(w, s, rendered) {
      DispatchResolutionEvents(w, s, Normalize(rendered), now, env);
    }
  }

  lemma LogInv(w: Logger, s: Level, rendered: string, now: Timestamp, env: Env)
    requires Inv(w) && w.outcome.Running?
    ensures Inv(Log(w, s, rendered, now, env))
  {
    LogCases(w, s, rendered, now, env);
    LogResolutionEvents(w, s, rendered, now, env);
    if Accepted(w, s, rendered) {
      DispatchFollows(w, s, Normalize(rendered), now, env);
    }
  }

  lemma ApplyInv(w: Logger, op: Op)
    requires Inv(w) && w.outcome.Running?
    ensures Inv(Apply(w, op))
  {
    if op.LogOp? {
      LogInv(w, op.severity, op.rendered, op.now, op.env);
    }
  }

  lemma {:induction false} RunInv(w: Logger, ops: seq<Op>)
    requires Inv(w)
    ensures Inv(Run(w, ops))
    decreases |ops|
  {
    if |ops| > 0 && w.outcome.Running? {
      ApplyInv(w, ops[0]);
      RunInv(Apply(w, ops[0]), ops[1..]);
    }
  }

  /**
   * However the program drives the logger, the log file is opened at most
   * once and the syslog client created at most once, and the logger never
   * dereferences the flag pointer before `Init` has set it.
   */
  lemma ResolutionAtMostOnce(ops: seq<Op>)
    ensures |Filter(Run(Initial(), ops).trace, IsFileOpen)| <= 1
    ensures |Filter(Run(Initial(), ops).trace, IsSyslogConnect)| <= 1
    ensures Run(Initial(), ops).outcome != Panicked(NilUseSyslog)
  {
    InitialInv();
    RunInv(Initial(), ops);
  }

  /** Without `Init`, nothing the program does reaches the outside world: every call is filtered. */
  lemma {:induction false} NoInitNoOutput(ops: seq<Op>)
    requires forall i :: 0 <= i < |ops| ==> !ops[i].InitOp?
    ensures Run(Initial(), ops) == Initial()
    decreases |ops|
  {
    if |ops| > 0 {
      var op := ops[0];
      if op.LogOp? {
        InitialStateFiltersAll(op.severity, op.rendered, op.now, op.env);
      }
      assert Apply(Initial(), op) == Initial();
      NoInitNoOutput(ops[1..]);
    }
  }

  /** Resolved destinations are sticky across any run, and the trace is only ever extended. */
  lemma {:induction false} RunKeepsResolution(w: Logger, ops: seq<Op>)
    ensures w.syslogger.Some? ==> Run(w, ops).syslogger == w.syslogger
    ensures w.outFile.Some? ==> Run(w, ops).outFile == w.outFile
    ensures w.trace <= Run(w, ops).trace
    decreases |ops|
  {
    if |ops| > 0 && w.outcome.Running? {
      var w' := Apply(w, ops[0]);
      if ops[0].LogOp? {
        var op := ops[0];
        LogKeepsResolution(w, op.severity, op.rendered, op.now, op.env);
        LogTraceGrows(w, op.severity, op.rendered, op.now, op.env);
      }
      RunKeepsResolution(w', ops[1..]);
    }
  }

  lemma LogTraceGrows(w: Logger, s: Level, rendered: string, now: Timestamp, env: Env)
    requires w.outcome.Running?
    ensures w.trace <= Log(w, s, rendered, now, env).trace
  {
    LogCases(w, s, rendered, now, env);
    if Accepted(w, s, rendered) {
      DispatchFollows(w, s, Normalize(rendered), now, env);
    }
  }

  // ---------------------------------------------------------------------
  // Sample runs
  // ---------------------------------------------------------------------

  /** The state right after `Init(appName, level, "")` at process start. */
  function AfterInit(appName: string, level: Severity): Logger {
    Initial().(threshold := level, appName := appName, facility := DefaultFacility,
               useSyslog := Some(false), fileName := Some(""))
  }

  /**
   * With the flags at their defaults (no syslog, no file), an accepted
   * message resolves nothing and goes to standard error as one line.
   */
  lemma DefaultsWriteToStderr(appName: string, level: Severity, s: Level, message: string, now: Timestamp, env: Env)
    ensures Dispatch(AfterInit(appName, level), s, message, now, env)
            == AfterInit(appName, level).(trace := [StderrWrite(Line(now, appName, s, message))],
                                          outcome := if s >= SeverityFatal then Exited(ExitCodeFatal) else Running)
  {
    var w := AfterInit(appName, level);
    assert ResolveSyslog(w, env) == w;
    assert ResolveFile(w, env) == w;
  }

  /**
   * `Init("myapp", SeverityWarning, "")`, then an info message (filtered)
   * and a warning: exactly one line, on standard error.
   */
  lemma WarningThresholdExample(now: Timestamp, env: Env)
    ensures Init(Initial(), "myapp", SeverityWarning, "") == AfterInit("myapp", SeverityWarning)
    ensures Log(AfterInit("myapp", SeverityWarning), SeverityInfo, "starting", now, env) == AfterInit("myapp", SeverityWarning)
    ensures Log(AfterInit("myapp", SeverityWarning), SeverityWarning, "disk at 91%", now, env)
            == AfterInit("myapp", SeverityWarning).(trace := [StderrWrite(Line(now, "myapp", SeverityWarning, "disk at 91%"))])
  {
    NormalizeKeepsTrimmed("disk at 91%");
    LogCases(AfterInit("myapp", SeverityWarning), SeverityWarning, "disk at 91%", now, env);
    DefaultsWriteToStderr("myapp", SeverityWarning, SeverityWarning, "disk at 91%", now, env);
  }

  /** At threshold `SeverityDebug`, `Fatal("")` writes nothing and the process goes on; `Fatal("boom\n")` writes `boom` and exits with 255. */
  lemma FatalExample(now: Timestamp, env: Env)
    ensures Log(AfterInit("myapp", SeverityDebug), SeverityFatal, "", now, env) == AfterInit("myapp", SeverityDebug)
    ensures Log(AfterInit("myapp", SeverityDebug), SeverityFatal, "boom\n", now, env)
            == AfterInit("myapp", SeverityDebug).(trace := [StderrWrite(Line(now, "myapp", SeverityFatal, "boom"))],
                                                  outcome := Exited(255))
  {
    NormalizeEmpty("");
    NormalizeBoom();
    LogCases(AfterInit("myapp", SeverityDebug), SeverityFatal, "boom\n", now, env);
    DefaultsWriteToStderr("myapp", SeverityDebug, SeverityFatal, "boom", now, env);
  }

  lemma NormalizeBoom()
    ensures Normalize("boom\n") == "boom"
  {
    assert TrimNewline("boom\n") == "boom";
    TrimSpaceKeepsTrimmed("boom");
  }
}
