/**
 * The report script as a running process: the process environment that
 * `add_to_no_proxy` rewrites and the log of events that `main` produces,
 * with the script's functions as methods that update them step by step.
 * Each method is proved to produce exactly the events of the trace
 * functions in `ReportRun`, whose properties are proved there.
 */
module Script {
  import opened Results
  import opened Text
  import opened Urls
  import opened NoProxy
  import opened ReportRun

  class Process {
    /** `os.environ`. */
    var env: map<string, string>
    /** The observable events so far, oldest first. */
    var log: seq<Event>

    constructor(env0: map<string, string>)
      ensures env == env0 && log == []
    {
      env := env0;
      log := [];
    }

    /**
     * `add_to_no_proxy(entries)`: reads `no_proxy` (absent counts as empty),
     * takes its tokens, adds `entries`, and writes the tokens back joined by
     * `,` in some order of the set; no other variable changes. Clean entries
     * are always read back from the new value; when all the tokens are clean,
     * exactly the old tokens and the entries are. Then it builds its debug
     * lines, which raise `KeyError` when a proxy variable is unset.
     */
    method AddToNoProxy(entries: seq<string>) returns (debug: Result<seq<string>>)
      modifies this`env
      ensures env.Keys == old(env).Keys + {NoProxyKey}
      ensures forall key :: key in old(env) && key != NoProxyKey ==> env[key] == old(env)[key]
      ensures JoinedFrom(env[NoProxyKey], CurrentTokens(old(env)) + ToSet(entries))
      ensures Clean(CurrentTokens(old(env)) + ToSet(entries)) ==>
                CurrentTokens(env) == CurrentTokens(old(env)) + ToSet(entries)
      ensures Clean(ToSet(entries)) ==> ToSet(entries) <= CurrentTokens(env)
      ensures (forall e :: e in entries ==> ',' !in e) && CurrentTokens(old(env)) + ToSet(entries) != {""} ==>
                forall t :: t in CurrentTokens(old(env)) && CleanToken(t) ==> t in CurrentTokens(env)
      ensures debug == DebugLinesAsWritten(env)
      ensures debug.Failure? <==> LoggingFailure(old(env)).Some?
      ensures debug.Failure? ==> debug.error == LoggingFailure(old(env)).value
      ensures debug.Success? ==> debug.value == DebugLines(env)
    {
      CurrentTokensCases(env);
      var value := Strip(Get(env, NoProxyKey, ""), Whitespace);
      var current: set<string>;
      if value == "" {
        current := {};
      } else {
        current := ToSet(Split(value, ','));
      }
      assert current == CurrentTokens(env);
      var tokens := current + ToSet(entries);
      var joined, order := JoinTokens(tokens);
      WrittenBack(env, entries, order, joined);
      AsWrittenAfterUpdate(env, joined);
      env := env[NoProxyKey := joined];
      assert env[NoProxyKey] == joined;
      debug := DebugLinesAsWritten(env);
    }

    /**
     * One iteration of the scan loop of `main` for the k-th requested scan:
     * query the scan and its assessor, resolve the file URLs, render the
     * template into a temporary HTML file, snapshot it, and remove it unless
     * HTML is preserved. Returns the exception that ends the iteration early.
     */
    method ProcessScan(args: Args, w: World, experiment: Experiment, k: nat) returns (failure: Option<Error>)
      requires k < |args.scans|
      modifies this`log
      ensures log == old(log) + ScanStep(args, w, experiment, k).events
      ensures failure == ScanStep(args, w, experiment, k).failure
    {
      var scanId := args.scans[k];
      log := log + [QueryScan(experiment.project, experiment.sessionLabel, scanId)];
      if scanId !in w.scans {
        return Some(NoScan(scanId));
      }
      log := log + [QueryAssessor(experiment.project, experiment.sessionLabel, scanId, args.legacy)];
      if scanId !in w.assessors {
        return Some(NoAssessor(scanId));
      }
      ghost var queried := [QueryScan(experiment.project, experiment.sessionLabel, scanId)];
      ghost var asked := queried + [QueryAssessor(experiment.project, experiment.sessionLabel, scanId, args.legacy)];
      Associative(old(log), queried, asked[1..]);
      failure := RenderReport(args, w, k);
      Associative(old(log), asked, ReportStep(args, w, k).events);
    }

    /**
     * The rest of an iteration once the assessor is known: resolve the file
     * URLs, render the template into a temporary HTML file, snapshot it as a
     * landscape PDF at scale 1.5, and remove the HTML unless it is preserved.
     */
    method RenderReport(args: Args, w: World, k: nat) returns (failure: Option<Error>)
      requires k < |args.scans| && args.scans[k] in w.assessors
      modifies this`log
      ensures log == old(log) + ReportStep(args, w, k).events
      ensures failure == ReportStep(args, w, k).failure
    {
      var assessor := w.assessors[args.scans[k]];
      var files := FileUrls(w.url, assessor);
      if files.Failure? {
        return Some(files.error);
      }
      if !w.templateReadable {
        return Some(TemplateUnreadable(args.template));
      }
      var stylesheet := FileUrl(args.stylesheet);
      log := log + [Render(args.template, stylesheet, w.url, assessor.id, files.value)];
      var path := w.tempPath(k);
      log := log + [WriteTemp(args.outputDir, assessor.id + "_", ".html", path)];
      var url := FileUrl(path);
      var saveto := PdfPath(args.outputDir, assessor.id);
      log := log + [Snapshot(url, saveto, ReportScale, true)];
      if url in w.failingSnapshots {
        return Some(SnapshotFailed(url));
      }
      if !args.preserveHtml {
        log := log + [RemoveTemp(path)];
      }
      return None;
    }

    /**
     * `main` after argument parsing: the output-directory gate, then the
     * `no_proxy` update, whose debug lines may raise, then the queries and
     * snapshots of `Report`. The events and the way the run ends are those
     * of `RunTrace` from the starting environment; the gate leaves the
     * environment alone, every other run adds the loopback hosts to
     * `no_proxy`, so that both are read back from it, and changes no other
     * variable.
     */
    method Run(args: Args, w: World) returns (status: Termination)
      modifies this
      ensures log == old(log) + RunTrace(args, w, old(env)).events
      ensures status == RunTrace(args, w, old(env)).status
      ensures MissingOutputDir(args) ==> env == old(env)
      ensures !MissingOutputDir(args) ==>
                && env.Keys == old(env).Keys + {NoProxyKey}
                && (forall key :: key in old(env) && key != NoProxyKey ==> env[key] == old(env)[key])
                && JoinedFrom(env[NoProxyKey], CurrentTokens(old(env)) + ToSet(Loopback))
                && ToSet(Loopback) <= CurrentTokens(env)
                && (forall t :: t in CurrentTokens(old(env)) && CleanToken(t) ==> t in CurrentTokens(env))
    {
      if |args.scans| > 1 && args.outputDir == "" {
        log := log + [Usage];
        return Exit(1);
      }
      LoopbackClean();
      assert Loopback[0] in ToSet(Loopback) && Loopback[0] != "";
      var debug := AddToNoProxy(Loopback);
      if debug.Failure? {
        return Raised(debug.error);
      }
      status := Report(args, w);
    }

    /**
     * The part of `main` after the `no_proxy` update: the cache, the
     * experiment query, the dashboard snapshot and the scan loop, which stops
     * at the first exception. The environment is not touched.
     */
    method Report(args: Args, w: World) returns (status: Termination)
      modifies this`log
      ensures log == old(log) + ReportTrace(args, w).events
      ensures status == ReportTrace(args, w).status
    {
      if args.cache {
        log := log + [InstallCache];
      }
      log := log + [Authenticate(args.alias), QueryExperiments(args.sessionLabel, args.project)];
      assert log == old(log) + Preamble(args);
      if |w.experiments| == 0 {
        return Exit(0);
      }
      var experiment := w.experiments[0];
      var dashboard := DashboardSnapshot(args, w, experiment);
      log := log + [dashboard];
      if dashboard.url in w.failingSnapshots {
        return Raised(SnapshotFailed(dashboard.url));
      }
      ghost var head := Preamble(args) + [dashboard];
      assert log == old(log) + head;
      var failure := ScanLoop(args, w, experiment);
      ghost var scans := ScansUpTo(args, w, experiment, |args.scans|);
      Associative(old(log), head, scans.events);
      ReportTraceAfterLoop(args, w);
      status := if failure.None? then Exit(0) else Raised(failure.value);
    }

    /** The i-th iteration of the loop, after i iterations that did not raise. */
    method NextScan(args: Args, w: World, experiment: Experiment, i: nat, ghost start: seq<Event>)
        returns (failure: Option<Error>)
      requires i < |args.scans| && ScansUpTo(args, w, experiment, i).failure.None?
      requires log == start + ScansUpTo(args, w, experiment, i).events
      modifies this`log
      ensures log == start + ScansUpTo(args, w, experiment, i + 1).events
      ensures failure == ScansUpTo(args, w, experiment, i + 1).failure
      ensures failure.Some? ==> log == start + ScansUpTo(args, w, experiment, |args.scans|).events
                                && failure == ScansUpTo(args, w, experiment, |args.scans|).failure
    {
      ghost var mid := log;
      failure := ProcessScan(args, w, experiment, i);
      ScanLoopStep(args, w, experiment, i, start, mid, log, failure);
    }

    /** The loop over the requested scans, in order, until one raises. */
    method ScanLoop(args: Args, w: World, experiment: Experiment) returns (failure: Option<Error>)
      modifies this`log
      ensures log == old(log) + ScansUpTo(args, w, experiment, |args.scans|).events
      ensures failure == ScansUpTo(args, w, experiment, |args.scans|).failure
    {
      var i := 0;
      assert ScansUpTo(args, w, experiment, 0).events == [];
      assert log == old(log) + [];
      while i < |args.scans|
        invariant i <= |args.scans|
        invariant log == old(log) + ScansUpTo(args, w, experiment, i).events
        invariant ScansUpTo(args, w, experiment, i).failure.None?
      {
        failure := NextScan(args, w, experiment, i, old(log));
        if failure.Some? {
          return;
        }
        i := i + 1;
      }
      assert i == |args.scans|;
      return None;
    }
  }

  lemma Associative(a: seq<Event>, b: seq<Event>, c: seq<Event>)
    ensures (a + b) + c == a + (b + c)
  {
  }

  /**
   * The loop's next iteration, when no earlier one has raised: a log that
   * held the first i iterations' events, extended by the next one's, holds
   * the first i + 1 iterations' events.
   */
  lemma ScanLoopStep(args: Args, w: World, experiment: Experiment, i: nat,
                     start: seq<Event>, mid: seq<Event>, now: seq<Event>, failure: Option<Error>)
    requires i < |args.scans| && ScansUpTo(args, w, experiment, i).failure.None?
    requires mid == start + ScansUpTo(args, w, experiment, i).events
    requires now == mid + ScanStep(args, w, experiment, i).events
    requires failure == ScanStep(args, w, experiment, i).failure
    ensures now == start + ScansUpTo(args, w, experiment, i + 1).events
    ensures failure == ScansUpTo(args, w, experiment, i + 1).failure
    ensures failure.Some? ==> now == start + ScansUpTo(args, w, experiment, |args.scans|).events
                              && failure == ScansUpTo(args, w, experiment, |args.scans|).failure
  {
    var before := ScansUpTo(args, w, experiment, i);
    var step := ScanStep(args, w, experiment, i);
    ScansUpToNext(args, w, experiment, i);
    ExtendLog(start, before, step, ScansUpTo(args, w, experiment, i + 1), mid, now);
    if failure.Some? {
      FailureSticks(args, w, experiment, i + 1, |args.scans|);
    }
  }

  /** A log that held the events of a prefix, extended by one more step, holds those of the longer prefix. */
  lemma ExtendLog(start: seq<Event>, before: Progress, step: Progress, after: Progress, mid: seq<Event>, now: seq<Event>)
    requires mid == start + before.events && now == mid + step.events
    requires after == Progress(before.events + step.events, step.failure)
    ensures now == start + after.events && after.failure == step.failure
  {
  }

  lemma ScansUpToNext(args: Args, w: World, experiment: Experiment, i: nat)
    requires i < |args.scans| && ScansUpTo(args, w, experiment, i).failure.None?
    ensures var step := ScanStep(args, w, experiment, i);
      ScansUpTo(args, w, experiment, i + 1)
        == Progress(ScansUpTo(args, w, experiment, i).events + step.events, step.failure)
  {
  }

  /** A run whose dashboard snapshot succeeds ends with the whole scan loop. */
  lemma ReportTraceAfterLoop(args: Args, w: World)
    requires |w.experiments| > 0
    requires DashboardSnapshot(args, w, w.experiments[0]).url !in w.failingSnapshots
    ensures var scans := ScansUpTo(args, w, w.experiments[0], |args.scans|);
      ReportTrace(args, w)
        == Trace(Preamble(args) + [DashboardSnapshot(args, w, w.experiments[0])] + scans.events,
                 if scans.failure.None? then Exit(0) else Raised(scans.failure.value))
  {
  }

  /** Once an iteration has raised, later iterations add nothing: the loop has ended. */
  lemma {:induction false} FailureSticks(args: Args, w: World, experiment: Experiment, m: nat, n: nat)
    requires m <= n <= |args.scans|
    requires ScansUpTo(args, w, experiment, m).failure.Some?
    ensures ScansUpTo(args, w, experiment, n) == ScansUpTo(args, w, experiment, m)
    decreases n
  {
    if n > m {
      FailureSticks(args, w, experiment, m, n - 1);
    }
  }
}
