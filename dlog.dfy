/**
 * dlog's process-wide logger `_globals` as an object whose fields the
 * operations update in place, with `Init`, the threshold's `Set`, the flag
 * parser's stores through the registered flag pointers, `logf` and the
 * per-level forwarders. Every method is proved to move the object exactly
 * as the state-transition function of `LogSpec` moves its value, so the
 * laws of `LogLaws` hold of the object.
 */
module Dlog {
  import opened Wrappers
  import opened Severities
  import opened Whitespace
  import opened LineFormat
  import opened LogSpec

  class LogState {
    var threshold: Severity
    var appName: string
    var facility: string
    var useSyslog: Option<bool>
    var fileName: Option<string>
    var syslogger: Option<Syslogger>
    var outFile: Option<string>
    var trace: seq<Event>
    var outcome: Outcome

    /** The value the fields make up. */
    function Model(): Logger
      reads this
    {
      Logger(threshold, appName, facility, useSyslog, fileName, syslogger, outFile, trace, outcome)
    }

    /** `_globals` at process start. */
    constructor ()
      ensures Model() == Initial()
    {
      threshold := SeverityLast;
      appName := "-";
      facility := "";
      useSyslog := None;
      fileName := None;
      syslogger := None;
      outFile := None;
      trace := [];
      outcome := Running;
    }

    /** `Init`: returns `nil` whenever it returns. */
    method Init(name: string, level: Severity, syslogFacility: string) returns (err: Option<string>)
      requires outcome.Running?
      modifies this
      ensures Model() == LogSpec.Init(old(Model()), name, level, syslogFacility)
      ensures err == None
    {
      threshold := level;
      var f := syslogFacility;
      if |f| == 0 {
        f := DefaultFacility;
      }
      appName := name;
      facility := f;
      err := None;
      if useSyslog.Some? {
        outcome := Panicked(FlagRedefined("syslog"));
        return;
      }
      useSyslog := Some(false);
      fileName := Some("");
    }

    /** `(*Severity).Set` on the threshold, reached only through the `-loglevel` flag `Init` registers: parse leniently, store, return `nil`. */
    method Set(text: string) returns (err: Option<string>)
      requires outcome.Running? && useSyslog.Some?
      modifies this
      ensures Model() == SetLevel(old(Model()), text)
      ensures err == None
    {
      var val := Numerals.Atoi(text);
      threshold := Numerals.ToInt32(val) as Severity;
      err := None;
    }

    /** The flag parser storing `-syslog` and `-logfile` through the pointers `Init` registered. */
    method Configure(syslogFlag: bool, logFile: string)
      requires outcome.Running? && useSyslog.Some?
      modifies this
      ensures Model() == LogSpec.Configure(old(Model()), syslogFlag, logFile)
    {
      useSyslog := Some(syslogFlag);
      fileName := Some(logFile);
    }

    /** `logf`, with the rendered message, the clock reading and the answers of the foreign calls as inputs. */
    method Logf(s: Level, rendered: string, now: Timestamp, env: Env)
      requires outcome.Running?
      modifies this
      ensures Model() == Log(old(Model()), s, rendered, now, env)
    {
      ghost var w0 := Model();
      LogCases(w0, s, rendered, now, env);
      if s < threshold {
        return;
      }
      var message := TrimSpace(TrimNewline(rendered));
      if |message| <= 0 {
        return;
      }
      assert Log(w0, s, rendered, now, env) == Dispatch(w0, s, message, now, env);
      if useSyslog.None? {
        outcome := Panicked(NilUseSyslog);
        return;
      }
      ghost var w1 := ResolveSyslog(w0, env);
      if useSyslog.value && syslogger.None? {
        if !env.syslogAvailable {
          outcome := Panicked(SyslogUnavailable);
          return;
        }
        syslogger := Some(Syslogger(facility, appName));
        trace := trace + [SyslogConnect(LogInfo, facility, appName)];
      }
      assert Model() == w1;
      ghost var w2 := ResolveFile(w1, env);
      if fileName.Some? && |fileName.value| > 0 && outFile.None? {
        if !env.fileOpens {
          outcome := Panicked(FileOpenFailed(fileName.value));
          return;
        }
        outFile := fileName;
        trace := trace + [FileOpen(fileName.value)];
      }
      assert Model() == w2;
      if syslogger.Some? {
        trace := trace + [SyslogWrite(SyslogPriority(s), message)];
      } else {
        var line := Line(now, appName, s, message);
        if outFile.Some? {
          trace := trace + [FileWrite(outFile.value, line), FileSync(outFile.value)];
        } else {
          trace := trace + [StderrWrite(line)];
        }
      }
      assert trace == w2.trace + Emit(w2, s, message, now);
      if s >= SeverityFatal {
        outcome := Exited(ExitCodeFatal);
      }
    }

    /** `log`: a plain value, already rendered with `%v`, forwarded to `logf`. */
    method LogValue(s: Level, rendered: string, now: Timestamp, env: Env)
      requires outcome.Running?
      modifies this
      ensures Model() == Log(old(Model()), s, rendered, now, env)
    {
      Logf(s, rendered, now, env);
    }

    method Debugf(rendered: string, now: Timestamp, env: Env)
      requires outcome.Running?
      modifies this
      ensures Model() == Log(old(Model()), SeverityDebug, rendered, now, env)
    {
      Logf(SeverityDebug, rendered, now, env);
    }

    method Infof(rendered: string, now: Timestamp, env: Env)
      requires outcome.Running?
      modifies this
      ensures Model() == Log(old(Model()), SeverityInfo, rendered, now, env)
    {
      Logf(SeverityInfo, rendered, now, env);
    }

    method Noticef(rendered: string, now: Timestamp, env: Env)
      requires outcome.Running?
      modifies this
      ensures Model() == Log(old(Model()), SeverityNotice, rendered, now, env)
    {
      Logf(SeverityNotice, rendered, now, env);
    }

    method Warnf(rendered: string, now: Timestamp, env: Env)
      requires outcome.Running?
      modifies this
      ensures Model() == Log(old(Model()), SeverityWarning, rendered, now, env)
    {
      Logf(SeverityWarning, rendered, now, env);
    }

    method Errorf(rendered: string, now: Timestamp, env: Env)
      requires outcome.Running?
      modifies this
      ensures Model() == Log(old(Model()), SeverityError, rendered, now, env)
    {
      Logf(SeverityError, rendered, now, env);
    }

    method Criticalf(rendered: string, now: Timestamp, env: Env)
      requires outcome.Running?
      modifies this
      ensures Model() == Log(old(Model()), SeverityCritical, rendered, now, env)
    {
      Logf(SeverityCritical, rendered, now, env);
    }

    method Fatalf(rendered: string, now: Timestamp, env: Env)
      requires outcome.Running?
      modifies this
      ensures Model() == Log(old(Model()), SeverityFatal, rendered, now, env)
    {
      Logf(SeverityFatal, rendered, now, env);
    }

    method Debug(rendered: string, now: Timestamp, env: Env)
      requires outcome.Running?
      modifies this
      ensures Model() == Log(old(Model()), SeverityDebug, rendered, now, env)
    {
      LogValue(SeverityDebug, rendered, now, env);
    }

    method Info(rendered: string, now: Timestamp, env: Env)
      requires outcome.Running?
      modifies this
      ensures Model() == Log(old(Model()), SeverityInfo, rendered, now, env)
    {
      LogValue(SeverityInfo, rendered, now, env);
    }

    method Notice(rendered: string, now: Timestamp, env: Env)
      requires outcome.Running?
      modifies this
      ensures Model() == Log(old(Model()), SeverityNotice, rendered, now, env)
    {
      LogValue(SeverityNotice, rendered, now, env);
    }

    method Warn(rendered: string, now: Timestamp, env: Env)
      requires outcome.Running?
      modifies this
      ensures Model() == Log(old(Model()), SeverityWarning, rendered, now, env)
    {
      LogValue(SeverityWarning, rendered, now, env);
    }

    method Error(rendered: string, now: Timestamp, env: Env)
      requires outcome.Running?
      modifies this
      ensures Model() == Log(old(Model()), SeverityError, rendered, now, env)
    {
      LogValue(SeverityError, rendered, now, env);
    }

    method Critical(rendered: string, now: Timestamp, env: Env)
      requires outcome.Running?
      modifies this
      ensures Model() == Log(old(Model()), SeverityCritical, rendered, now, env)
    {
      LogValue(SeverityCritical, rendered, now, env);
    }

    method Fatal(rendered: string, now: Timestamp, env: Env)
      requires outcome.Running?
      modifies this
      ensures Model() == Log(old(Model()), SeverityFatal, rendered, now, env)
    {
      LogValue(SeverityFatal, rendered, now, env);
    }
  }
}
