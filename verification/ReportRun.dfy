/**
 * The control flow of the report script's `main`, as the sequence of
 * observable events one run produces: the output-directory gate, the
 * "no experiment" exit, the dashboard snapshot, then per scan the queries,
 * the rendering, the temporary HTML file, its snapshot and its removal.
 * Everything outside the script (the XNAT server, the file system, the
 * browser) is a `World` whose answers are given.
 */
module ReportRun {
  import opened Results
  import opened Text
  import opened Urls
  import opened NoProxy

  /** An MR session as returned by the experiment query. */
  datatype Experiment = Experiment(id: string, sessionLabel: string, project: string)

  /** The command-line options the control flow reads. */
  datatype Args = Args(
    alias: string,
    sessionLabel: string,
    project: Option<string>,
    scans: seq<string>,
    template: string,
    stylesheet: string,
    preserveHtml: bool,
    outputDir: string,
    cache: bool,
    legacy: bool)

  /**
   * The answers of everything outside the script: the deployment's base URL,
   * the experiments matching the label, the scan ids the session has, the
   * assessor of each scan, whether the template can be read, the path the
   * temporary-file module picks for the k-th HTML file, and the URLs the
   * browser fails to load.
   */
  datatype World = World(
    url: string,
    experiments: seq<Experiment>,
    scans: set<string>,
    assessors: map<string, Assessor>,
    templateReadable: bool,
    tempPath: nat -> string,
    failingSnapshots: set<string>)

  datatype Event =
    | Usage                                                        // usage text and error message
    | InstallCache                                                 // response cache switched on
    | Authenticate(alias: string)
    | QueryExperiments(sessionLabel: string, projectFilter: Option<string>)
    | Snapshot(url: string, saveto: string, scale: real, landscape: bool)
    | QueryScan(project: string, sessionLabel: string, scanId: string)
    | QueryAssessor(project: string, sessionLabel: string, scanId: string, legacy: bool)
    | Render(template: string, stylesheet: string, baseurl: string, assessorId: string, files: map<string, string>)
    | WriteTemp(dir: string, prefix: string, suffix: string, path: string)
    | RemoveTemp(path: string)

  /** How a run ends: `sys.exit(code)` or an exception that escapes `main`. */
  datatype Termination = Exit(code: int) | Raised(error: Error)

  datatype Trace = Trace(events: seq<Event>, status: Termination)

  /** The events of some scans so far, and the exception that stopped them, if any. */
  datatype Progress = Progress(events: seq<Event>, failure: Option<Error>)

  const DashboardScale: real := 0.8
  const ReportScale: real := 1.5

  /** More than one scan was asked for and the output directory is empty. */
  predicate MissingOutputDir(args: Args)
  {
    |args.scans| > 1 && args.outputDir == ""
  }

  /** `f'{baseurl}/data/experiments/{experiment.id}?format=html'`, base without trailing slashes. */
  function DashboardUrl(baseurl: string, experiment: Experiment): string
  {
    RStrip(baseurl, Slash) + "/data/experiments/" + experiment.id + "?format=html"
  }

  /** `os.path.join(output_dir, f'{name}.pdf')`. */
  function PdfPath(dir: string, name: string): string
  {
    PathJoin(dir, name + ".pdf")
  }

  /** `f'file://{path}'`: the URL of a local file, for the stylesheet and the rendered HTML. */
  function FileUrl(path: string): string
  {
    "file://" + path
  }

  /** The events between the gate and the end of the experiment query. */
  function Preamble(args: Args): seq<Event>
  {
    (if args.cache then [InstallCache] else [])
      + [Authenticate(args.alias), QueryExperiments(args.sessionLabel, args.project)]
  }

  /** The snapshot of the session's own page: portrait, scale 0.8, named after the label. */
  function DashboardSnapshot(args: Args, w: World, experiment: Experiment): Event
  {
    Snapshot(DashboardUrl(w.url, experiment), PdfPath(args.outputDir, experiment.sessionLabel), DashboardScale, false)
  }

  /** The snapshot of the k-th scan's report: landscape, scale 1.5, named after the assessor. */
  function ReportSnapshot(args: Args, w: World, k: nat): Event
    requires k < |args.scans| && args.scans[k] in w.assessors
  {
    Snapshot(FileUrl(w.tempPath(k)), PdfPath(args.outputDir, w.assessors[args.scans[k]].id), ReportScale, true)
  }

  /** One iteration of the scan loop, for the k-th requested scan. */
  function ScanStep(args: Args, w: World, experiment: Experiment, k: nat): Progress
    requires k < |args.scans|
  {
    var scanId := args.scans[k];
    var queried := [QueryScan(experiment.project, experiment.sessionLabel, scanId)];
    var assessed := queried + [QueryAssessor(experiment.project, experiment.sessionLabel, scanId, args.legacy)];
    if scanId !in w.scans then Progress(queried, Some(NoScan(scanId)))
    else if scanId !in w.assessors then Progress(assessed, Some(NoAssessor(scanId)))
    else
      var report := ReportStep(args, w, k);
      Progress(assessed + report.events, report.failure)
  }

  /**
   * The rest of an iteration once the assessor is known: resolve the file
   * URLs, render the template into a temporary HTML file, snapshot it, and
   * remove it unless it is to be preserved.
   */
  function ReportStep(args: Args, w: World, k: nat): Progress
    requires k < |args.scans| && args.scans[k] in w.assessors
  {
    var assessor := w.assessors[args.scans[k]];
    match FileUrlsOf(w.url, assessor)
    case Failure(e) => Progress([], Some(e))
    case Success(files) =>
      if !w.templateReadable then Progress([], Some(TemplateUnreadable(args.template)))
      else
        var path := w.tempPath(k);
        var snap := ReportSnapshot(args, w, k);
        var shot := [
          Render(args.template, FileUrl(args.stylesheet), w.url, assessor.id, files),
          WriteTemp(args.outputDir, assessor.id + "_", ".html", path),
          snap];
        if snap.url in w.failingSnapshots then Progress(shot, Some(SnapshotFailed(snap.url)))
        else Progress(shot + (if args.preserveHtml then [] else [RemoveTemp(path)]), None)
  }

  /** The first n iterations of the scan loop; the first exception ends the loop. */
  function ScansUpTo(args: Args, w: World, experiment: Experiment, n: nat): Progress
    requires n <= |args.scans|
  {
    if n == 0 then Progress([], None)
    else
      var before := ScansUpTo(args, w, experiment, n - 1);
      if before.failure.Some? then before
      else
        var step := ScanStep(args, w, experiment, n - 1);
        Progress(before.events + step.events, step.failure)
  }

  /**
   * A whole run of `main` after argument parsing, from the environment it
   * starts in: the output-directory gate; then `add_to_no_proxy`, whose
   * debug lines raise `KeyError` when a proxy variable is unset; then the
   * queries and snapshots of `ReportTrace`. Only the gate exits 1.
   */
  function RunTrace(args: Args, w: World, env: map<string, string>): (t: Trace)
    ensures t.status == Exit(1) <==> MissingOutputDir(args)
  {
    if MissingOutputDir(args) then Trace([Usage], Exit(1))
    else if LoggingFailure(env).Some? then Trace([], Raised(LoggingFailure(env).value))
    else ReportTrace(args, w)
  }

  /**
   * The part of `main` after the `no_proxy` update: exit 0 when no experiment
   * matches, otherwise the dashboard snapshot and the scan loop; it either
   * exits 0 or raises.
   */
  function ReportTrace(args: Args, w: World): (t: Trace)
    ensures t.status.Exit? ==> t.status.code == 0
  {
    if |w.experiments| == 0 then Trace(Preamble(args), Exit(0))
    else
      var experiment := w.experiments[0];
      var dashboard := DashboardSnapshot(args, w, experiment);
      var head := Preamble(args) + [dashboard];
      if dashboard.url in w.failingSnapshots then Trace(head, Raised(SnapshotFailed(dashboard.url)))
      else
        var scans := ScansUpTo(args, w, experiment, |args.scans|);
        Trace(head + scans.events, if scans.failure.None? then Exit(0) else Raised(scans.failure.value))
  }

  // ---------------------------------------------------------------------
  // Properties of a run

  /**
   * A PDF path always ends with the file name `{name}.pdf`, which is all there
   * is when the output directory is empty; when the directory is non-empty and
   * the name does not start with `/`, the path starts with the directory.
   */
  lemma PdfPathShape(dir: string, name: string)
    ensures var r := PdfPath(dir, name);
      && |name| + 4 <= |r| && r[|r| - |name| - 4..] == name + ".pdf"
      && (dir == "" ==> r == name + ".pdf")
      && (!(|name| > 0 && name[0] == '/') ==> |dir| <= |r| && r[..|dir|] == dir)
  {
    PathJoinShape(dir, name + ".pdf");
  }

  /**
   * Before the experiments are known a run installs the cache only when asked
   * to, then authenticates and queries the experiments, and asks for no snapshot.
   */
  lemma PreambleShape(args: Args)
    ensures var r := Preamble(args);
      && (InstallCache in r <==> args.cache)
      && |r| >= 2 && r[|r| - 2..] == [Authenticate(args.alias), QueryExperiments(args.sessionLabel, args.project)]
      && (forall e :: e in r ==> !e.Snapshot?)
  {
  }

  /**
   * An iteration starts by querying its scan, and completes exactly when the
   * scan and its assessor are found and the report part completes.
   */
  lemma ScanStepOutcome(args: Args, w: World, experiment: Experiment, k: nat)
    requires k < |args.scans|
    ensures var p := ScanStep(args, w, experiment, k);
      && |p.events| >= 1 && p.events[0] == QueryScan(experiment.project, experiment.sessionLabel, args.scans[k])
      && (p.failure.None? <==>
            args.scans[k] in w.scans && args.scans[k] in w.assessors && ReportStep(args, w, k).failure.None?)
  {
  }

  /**
   * The report part completes exactly when every file has a `URI`, the
   * template can be read and the snapshot of the rendered file succeeds;
   * otherwise it raises the first of those errors.
   */
  lemma ReportStepOutcome(args: Args, w: World, k: nat)
    requires k < |args.scans| && args.scans[k] in w.assessors
    ensures var r := ReportStep(args, w, k); var files := w.assessors[args.scans[k]].files;
      && (r.failure.None? <==>
            AllHaveUri(files) && w.templateReadable && ReportSnapshot(args, w, k).url !in w.failingSnapshots)
      && (!AllHaveUri(files) ==> r == Progress([], Some(KeyError(UriKey))))
      && (AllHaveUri(files) && !w.templateReadable ==> r == Progress([], Some(TemplateUnreadable(args.template))))
      && (AllHaveUri(files) && w.templateReadable && ReportSnapshot(args, w, k).url in w.failingSnapshots ==>
            r.failure == Some(SnapshotFailed(ReportSnapshot(args, w, k).url)))
  {
  }

  /** The snapshot requests of a run, in the order they are made. */
  function Snapshots(events: seq<Event>): seq<Event>
    decreases |events|
  {
    if |events| == 0 then []
    else (if events[0].Snapshot? then [events[0]] else []) + Snapshots(events[1..])
  }

  lemma {:induction false} SnapshotsAppend(a: seq<Event>, b: seq<Event>)
    ensures Snapshots(a + b) == Snapshots(a) + Snapshots(b)
    decreases |a|
  {
    if |a| > 0 {
      assert (a + b)[0] == a[0] && (a + b)[1..] == a[1..] + b;
      SnapshotsAppend(a[1..], b);
      var first := if a[0].Snapshot? then [a[0]] else [];
      assert Snapshots(a + b) == first + (Snapshots(a[1..]) + Snapshots(b));
    } else {
      assert a + b == b;
    }
  }

  /** A stretch of events without snapshot requests contributes none. */
  lemma {:induction false} NoSnapshots(events: seq<Event>)
    requires forall i :: 0 <= i < |events| ==> !events[i].Snapshot?
    ensures Snapshots(events) == []
    decreases |events|
  {
    if |events| > 0 {
      NoSnapshots(events[1..]);
    }
  }

  /**
   * The gate: with several scans and no output directory the run prints its
   * usage and exits 1 before any other event; every other run authenticates.
   */
  lemma GateStopsBeforeNetwork(args: Args, w: World, env: map<string, string>)
    ensures MissingOutputDir(args) ==> RunTrace(args, w, env) == Trace([Usage], Exit(1))
    ensures Authenticate(args.alias) in RunTrace(args, w, env).events <==> !MissingOutputDir(args) && ProxiesSet(env)
  {
    if !MissingOutputDir(args) && ProxiesSet(env) {
      assert Authenticate(args.alias) in Preamble(args);
      var t := ReportTrace(args, w);
      if |w.experiments| > 0 {
        assert t.events[..|Preamble(args)|] == Preamble(args);
      }
    }
  }

  /**
   * With either proxy variable unset, the as-written debug lines raise
   * `KeyError` right after `no_proxy` is written: the run ends there,
   * before any query.
   */
  lemma LoggingRaisesBeforeNetwork(args: Args, w: World, env: map<string, string>)
    requires !MissingOutputDir(args) && !ProxiesSet(env)
    ensures RunTrace(args, w, env)
      == Trace([], Raised(KeyError(if HttpProxyKey !in env then HttpProxyKey else HttpsProxyKey)))
  {
  }

  /** No matching experiment: the run exits 0 and asks for no snapshot. */
  lemma NoExperimentExitsCleanly(args: Args, w: World, env: map<string, string>)
    requires !MissingOutputDir(args) && ProxiesSet(env) && |w.experiments| == 0
    ensures RunTrace(args, w, env).status == Exit(0)
    ensures Snapshots(RunTrace(args, w, env).events) == []
  {
    NoSnapshots(Preamble(args));
  }

  /** `e` is the snapshot request for the k-th scan's report. */
  predicate IsReportSnapshot(args: Args, w: World, k: nat, e: Event)
  {
    k < |args.scans| && args.scans[k] in w.assessors && e == ReportSnapshot(args, w, k)
  }

  /** The j-th of `shots` is the snapshot request of the j-th scan's report. */
  predicate InScanOrder(args: Args, w: World, shots: seq<Event>)
  {
    forall j :: 0 <= j < |shots| ==> IsReportSnapshot(args, w, j, shots[j])
  }

  /** Only the last of these events is a snapshot request. */
  lemma SnapshotsLast(events: seq<Event>)
    requires |events| > 0 && events[|events| - 1].Snapshot?
    requires forall i :: 0 <= i < |events| - 1 ==> !events[i].Snapshot?
    ensures Snapshots(events) == [events[|events| - 1]]
  {
    var init := events[..|events| - 1];
    var last := events[|events| - 1];
    NoSnapshots(init);
    assert Snapshots([last]) == [last] by {
      assert [last][1..] == [];
    }
    SnapshotsAppend(init, [last]);
    assert init + [last] == events;
  }

  /** The report part of an iteration asks for its own snapshot, or for none if it fails first. */
  lemma ReportStepSnapshots(args: Args, w: World, k: nat)
    requires k < |args.scans| && args.scans[k] in w.assessors
    ensures var report := ReportStep(args, w, k);
      Snapshots(report.events) == [] || Snapshots(report.events) == [ReportSnapshot(args, w, k)]
    ensures ReportStep(args, w, k).failure.None? ==> Snapshots(ReportStep(args, w, k).events) == [ReportSnapshot(args, w, k)]
  {
    var report := ReportStep(args, w, k);
    var assessor := w.assessors[args.scans[k]];
    if FileUrlsOf(w.url, assessor).Success? && w.templateReadable {
      var path := w.tempPath(k);
      var snap := ReportSnapshot(args, w, k);
      var shot := [Render(args.template, FileUrl(args.stylesheet), w.url, assessor.id, FileUrlsOf(w.url, assessor).value),
                   WriteTemp(args.outputDir, assessor.id + "_", ".html", path),
                   snap];
      SnapshotsLast(shot);
      if snap.url in w.failingSnapshots || args.preserveHtml {
        assert report.events == shot;
      } else {
        assert report.events == shot + [RemoveTemp(path)];
        NoSnapshots([RemoveTemp(path)]);
        SnapshotsAppend(shot, [RemoveTemp(path)]);
      }
    } else {
      assert report.events == [];
    }
  }

  /**
   * What one iteration snapshots: at most the k-th scan's report, and
   * exactly that when the iteration completes.
   */
  predicate StepShots(args: Args, w: World, events: seq<Event>, failure: Option<Error>, k: nat)
  {
    var shots := Snapshots(events);
    && |shots| <= 1
    && (forall j :: 0 <= j < |shots| ==> IsReportSnapshot(args, w, k, shots[j]))
    && (failure.None? ==> |shots| == 1)
  }

  /** One scan asks for at most one snapshot, its own, and a completed scan asks for exactly one. */
  lemma ScanStepSnapshots(args: Args, w: World, experiment: Experiment, k: nat)
    requires k < |args.scans|
    ensures var step := ScanStep(args, w, experiment, k); StepShots(args, w, step.events, step.failure, k)
  {
    var scanId := args.scans[k];
    var queried := [QueryScan(experiment.project, experiment.sessionLabel, scanId)];
    var assessed := queried + [QueryAssessor(experiment.project, experiment.sessionLabel, scanId, args.legacy)];
    NoSnapshots(queried);
    NoSnapshots(assessed);
    if scanId in w.scans && scanId in w.assessors {
      ReportStepSnapshots(args, w, k);
      SnapshotsAppend(assessed, ReportStep(args, w, k).events);
    }
  }

  /** The first n scans ask for their snapshots in argument order, one per completed scan. */
  lemma {:induction false} ScansSnapshots(args: Args, w: World, experiment: Experiment, n: nat)
    requires n <= |args.scans|
    ensures var progress := ScansUpTo(args, w, experiment, n);
      LoopShots(args, w, progress.events, progress.failure, n)
  {
    if n > 0 {
      ScansSnapshots(args, w, experiment, n - 1);
      var before := ScansUpTo(args, w, experiment, n - 1);
      assert LoopShots(args, w, before.events, before.failure, n - 1);
      if before.failure.None? {
        ScansSnapshotsNext(args, w, experiment, n);
      } else {
        assert ScansUpTo(args, w, experiment, n) == before;
      }
    } else {
      assert ScansUpTo(args, w, experiment, 0) == Progress([], None);
    }
  }

  /**
   * What the first n iterations snapshot: at most one report per iteration,
   * exactly one per iteration when none raised, the k-th of them for the k-th scan.
   */
  predicate LoopShots(args: Args, w: World, events: seq<Event>, failure: Option<Error>, n: nat)
  {
    var shots := Snapshots(events);
    && |shots| <= n
    && (failure.None? ==> |shots| == n)
    && InScanOrder(args, w, shots)
  }

  lemma ScansSnapshotsNext(args: Args, w: World, experiment: Experiment, n: nat)
    requires 0 < n <= |args.scans|
    requires ScansUpTo(args, w, experiment, n - 1).failure.None?
    requires var before := ScansUpTo(args, w, experiment, n - 1);
      LoopShots(args, w, before.events, before.failure, n - 1)
    ensures var after := ScansUpTo(args, w, experiment, n);
      LoopShots(args, w, after.events, after.failure, n)
  {
    ScanStepSnapshots(args, w, experiment, n - 1);
    LoopShotsNext(args, w, ScansUpTo(args, w, experiment, n - 1), ScanStep(args, w, experiment, n - 1),
                  ScansUpTo(args, w, experiment, n), n - 1);
  }

  lemma LoopShotsNext(args: Args, w: World, before: Progress, step: Progress, after: Progress, n: nat)
    requires before.failure.None? && after == Progress(before.events + step.events, step.failure)
    requires LoopShots(args, w, before.events, before.failure, n)
    requires StepShots(args, w, step.events, step.failure, n)
    ensures LoopShots(args, w, after.events, after.failure, n + 1)
  {
    SnapshotsExtend(args, w, before.events, step.events, n);
  }

  /** A completed prefix of the loop followed by one more iteration keeps the snapshots in scan order. */
  lemma SnapshotsExtend(args: Args, w: World, before: seq<Event>, step: seq<Event>, n: nat)
    requires |Snapshots(before)| == n && InScanOrder(args, w, Snapshots(before))
    requires |Snapshots(step)| <= 1
    requires forall j :: 0 <= j < |Snapshots(step)| ==> IsReportSnapshot(args, w, n, Snapshots(step)[j])
    ensures |Snapshots(before + step)| == n + |Snapshots(step)|
    ensures InScanOrder(args, w, Snapshots(before + step))
  {
    SnapshotsAppend(before, step);
    var shots := Snapshots(before + step);
    forall j | 0 <= j < |shots|
      ensures IsReportSnapshot(args, w, j, shots[j])
    {
      if j < n {
        assert IsReportSnapshot(args, w, j, Snapshots(before)[j]);
        assert shots[j] == Snapshots(before)[j];
      } else {
        assert IsReportSnapshot(args, w, n, Snapshots(step)[j - n]);
        assert shots[j] == Snapshots(step)[j - n];
      }
    }
  }

  /** The events of a run that gets past the experiment query. */
  lemma RunEvents(args: Args, w: World)
    requires |w.experiments| > 0
    ensures var dashboard := DashboardSnapshot(args, w, w.experiments[0]);
      ReportTrace(args, w).events
        == Preamble(args) + [dashboard]
           + (if dashboard.url in w.failingSnapshots then []
              else ScansUpTo(args, w, w.experiments[0], |args.scans|).events)
  {
  }

  /** The snapshot requests of a run: the dashboard's, then those of the scan loop if it starts. */
  lemma RunSnapshots(args: Args, w: World, env: map<string, string>)
    requires !MissingOutputDir(args) && ProxiesSet(env) && |w.experiments| > 0
    ensures var dashboard := DashboardSnapshot(args, w, w.experiments[0]);
      Snapshots(RunTrace(args, w, env).events)
        == [dashboard] + (if dashboard.url in w.failingSnapshots then []
                          else Snapshots(ScansUpTo(args, w, w.experiments[0], |args.scans|).events))
  {
    var dashboard := DashboardSnapshot(args, w, w.experiments[0]);
    var head := Preamble(args) + [dashboard];
    var tail := if dashboard.url in w.failingSnapshots then []
                else ScansUpTo(args, w, w.experiments[0], |args.scans|).events;
    RunEvents(args, w);
    HeadSnapshots(args, dashboard);
    SnapshotsAppend(head, tail);
    assert tail == [] ==> Snapshots(tail) == [];
  }

  /** Before the dashboard's snapshot a run asks for none. */
  lemma HeadSnapshots(args: Args, dashboard: Event)
    requires dashboard.Snapshot?
    ensures Snapshots(Preamble(args) + [dashboard]) == [dashboard]
  {
    var head := Preamble(args) + [dashboard];
    assert forall i :: 0 <= i < |head| - 1 ==> !head[i].Snapshot? by {
      if args.cache {
        assert head == [InstallCache, Authenticate(args.alias), QueryExperiments(args.sessionLabel, args.project), dashboard];
      } else {
        assert head == [Authenticate(args.alias), QueryExperiments(args.sessionLabel, args.project), dashboard];
      }
    }
    SnapshotsLast(head);
  }

  /** Putting the dashboard's request in front shifts the scan positions by one. */
  lemma ShiftedReportSnapshots(args: Args, w: World, dashboard: Event, rest: seq<Event>)
    requires InScanOrder(args, w, rest)
    ensures forall j :: 1 <= j < |[dashboard] + rest| ==> IsReportSnapshot(args, w, j - 1, ([dashboard] + rest)[j])
  {
    var shots := [dashboard] + rest;
    forall j | 1 <= j < |shots|
      ensures IsReportSnapshot(args, w, j - 1, shots[j])
    {
      assert shots[j] == rest[j - 1];
    }
  }

  /**
   * The order of snapshot requests: the dashboard first (portrait, scale 0.8,
   * `{label}.pdf`), then one per scan in argument order (landscape, scale 1.5,
   * `{assessor id}.pdf`); a run that exits 0 asks for one per scan.
   */
  lemma SnapshotOrder(args: Args, w: World, env: map<string, string>)
    requires !MissingOutputDir(args) && ProxiesSet(env) && |w.experiments| > 0
    ensures var t := RunTrace(args, w, env); var shots := Snapshots(t.events);
      && |shots| >= 1
      && shots[0] == Snapshot(DashboardUrl(w.url, w.experiments[0]),
                              PathJoin(args.outputDir, w.experiments[0].sessionLabel + ".pdf"), 0.8, false)
      && |shots| <= |args.scans| + 1
      && (forall j :: 1 <= j < |shots| ==> IsReportSnapshot(args, w, j - 1, shots[j]))
      && (t.status == Exit(0) ==> |shots| == |args.scans| + 1)
  {
    var experiment := w.experiments[0];
    var dashboard := DashboardSnapshot(args, w, experiment);
    RunSnapshots(args, w, env);
    var rest: seq<Event> := [];
    if dashboard.url !in w.failingSnapshots {
      rest := Snapshots(ScansUpTo(args, w, experiment, |args.scans|).events);
      ScansSnapshots(args, w, experiment, |args.scans|);
    }
    assert Snapshots(RunTrace(args, w, env).events) == [dashboard] + rest;
    ShiftedReportSnapshots(args, w, dashboard, rest);
  }

  // ---------------------------------------------------------------------
  // Temporary HTML files

  /** The paths of the temporary files written (`removed` false) or removed (`removed` true), in order. */
  function TempFiles(events: seq<Event>, removed: bool): seq<string>
    decreases |events|
  {
    if |events| == 0 then []
    else
      var here := if removed then events[0].RemoveTemp? else events[0].WriteTemp?;
      (if here then [events[0].path] else []) + TempFiles(events[1..], removed)
  }

  lemma {:induction false} TempFilesAppend(a: seq<Event>, b: seq<Event>, removed: bool)
    ensures TempFiles(a + b, removed) == TempFiles(a, removed) + TempFiles(b, removed)
    decreases |a|
  {
    if |a| > 0 {
      assert (a + b)[0] == a[0] && (a + b)[1..] == a[1..] + b;
      TempFilesAppend(a[1..], b, removed);
    } else {
      assert a + b == b;
    }
  }

  /** A stretch of events that neither writes nor removes a temporary file. */
  lemma {:induction false} NoTempFiles(events: seq<Event>)
    requires forall i :: 0 <= i < |events| ==> !events[i].WriteTemp? && !events[i].RemoveTemp?
    ensures TempFiles(events, false) == [] && TempFiles(events, true) == []
    decreases |events|
  {
    if |events| > 0 {
      NoTempFiles(events[1..]);
    }
  }

  /** The file a single event writes or removes, if any. */
  lemma TempFilesOne(e: Event)
    ensures TempFiles([e], false) == (if e.WriteTemp? then [e.path] else [])
    ensures TempFiles([e], true) == (if e.RemoveTemp? then [e.path] else [])
  {
    assert [e][1..] == [];
  }

  /** The removal at position p comes right after the snapshot of the file written just before it. */
  predicate RemovalFollowsSnapshot(events: seq<Event>, p: nat)
    requires p < |events| && events[p].RemoveTemp?
  {
    && p >= 2
    && events[p - 2].WriteTemp? && events[p - 2].path == events[p].path
    && events[p - 1].Snapshot? && events[p - 1].url == FileUrl(events[p].path)
  }

  predicate RemovalsFollowSnapshots(events: seq<Event>)
  {
    forall p: nat :: p < |events| && events[p].RemoveTemp? ==> RemovalFollowsSnapshot(events, p)
  }

  lemma RemovalsFollowSnapshotsAppend(a: seq<Event>, b: seq<Event>)
    requires RemovalsFollowSnapshots(a) && RemovalsFollowSnapshots(b)
    ensures RemovalsFollowSnapshots(a + b)
  {
    var ab := a + b;
    forall p: nat | p < |ab| && ab[p].RemoveTemp?
      ensures RemovalFollowsSnapshot(ab, p)
    {
      if p < |a| {
        assert ab[p] == a[p] && RemovalFollowsSnapshot(a, p);
        assert ab[p - 2] == a[p - 2] && ab[p - 1] == a[p - 1];
      } else {
        var q: nat := p - |a|;
        assert ab[p] == b[q] && RemovalFollowsSnapshot(b, q);
        assert ab[p - 2] == b[q - 2] && ab[p - 1] == b[q - 1];
      }
    }
  }

  lemma NoRemovals(events: seq<Event>)
    requires forall i :: 0 <= i < |events| ==> !events[i].RemoveTemp?
    ensures RemovalsFollowSnapshots(events)
  {
  }

  /**
   * What one iteration does to temporary files, given the path of its file:
   * completed, it has written that file and removed it unless HTML is
   * preserved; failed, it has removed nothing, and has written its file
   * only if the snapshot of that file failed.
   */
  predicate StepFiles(events: seq<Event>, failure: Option<Error>, path: string, preserve: bool)
  {
    && RemovalsFollowSnapshots(events)
    && (failure.None? ==> TempFiles(events, false) == [path]
                          && TempFiles(events, true) == (if preserve then [] else [path]))
    && (failure.Some? ==> TempFiles(events, true) == []
                          && (TempFiles(events, false) == []
                              || (failure.value.SnapshotFailed? && TempFiles(events, false) == [path])))
  }

  /** Render, write, snapshot: one file written, none removed. */
  lemma ShotFiles(render: Event, write: Event, snap: Event)
    requires !render.WriteTemp? && !render.RemoveTemp? && write.WriteTemp? && snap.Snapshot?
    ensures var shot := [render, write, snap];
      TempFiles(shot, false) == [write.path] && TempFiles(shot, true) == [] && RemovalsFollowSnapshots(shot)
  {
    NoTempFiles([render]);
    NoTempFiles([snap]);
    TempFilesOne(write);
    TempFilesAppend([render], [write], false);
    TempFilesAppend([render], [write], true);
    TempFilesAppend([render] + [write], [snap], false);
    TempFilesAppend([render] + [write], [snap], true);
    assert [render] + [write] + [snap] == [render, write, snap];
    NoRemovals([render, write, snap]);
  }

  /** Render, write, snapshot of the written file, removal of it. */
  lemma ShotRemovedFiles(render: Event, write: Event, snap: Event)
    requires !render.WriteTemp? && !render.RemoveTemp? && write.WriteTemp? && snap.Snapshot?
    requires snap.url == FileUrl(write.path)
    ensures var events := [render, write, snap, RemoveTemp(write.path)];
      TempFiles(events, false) == [write.path] && TempFiles(events, true) == [write.path]
      && RemovalsFollowSnapshots(events)
  {
    var shot := [render, write, snap];
    var remove := RemoveTemp(write.path);
    ShotFiles(render, write, snap);
    TempFilesOne(remove);
    TempFilesAppend(shot, [remove], false);
    TempFilesAppend(shot, [remove], true);
    var events := shot + [remove];
    assert events == [render, write, snap, remove];
    forall p: nat | p < |events| && events[p].RemoveTemp?
      ensures RemovalFollowsSnapshot(events, p)
    {
      assert p == 3;
    }
  }

  /** The report part of an iteration keeps the discipline of `StepFiles` for the k-th file. */
  lemma ReportStepTempFiles(args: Args, w: World, k: nat)
    requires k < |args.scans| && args.scans[k] in w.assessors
    ensures var r := ReportStep(args, w, k); StepFiles(r.events, r.failure, w.tempPath(k), args.preserveHtml)
  {
    var r := ReportStep(args, w, k);
    var assessor := w.assessors[args.scans[k]];
    if FileUrlsOf(w.url, assessor).Success? && w.templateReadable {
      var path := w.tempPath(k);
      var snap := ReportSnapshot(args, w, k);
      var render := Render(args.template, FileUrl(args.stylesheet), w.url, assessor.id, FileUrlsOf(w.url, assessor).value);
      var write := WriteTemp(args.outputDir, assessor.id + "_", ".html", path);
      if snap.url in w.failingSnapshots || args.preserveHtml {
        assert r.events == [render, write, snap];
        assert r.failure.Some? ==> r.failure == Some(SnapshotFailed(snap.url));
        ShotFiles(render, write, snap);
      } else {
        assert r == Progress([render, write, snap, RemoveTemp(write.path)], None);
        ShotRemovedFiles(render, write, snap);
      }
    } else {
      assert r.events == [];
      NoTempFiles(r.events);
    }
  }

  /** A whole iteration: the scan and assessor queries in front touch no file. */
  lemma ScanStepTempFiles(args: Args, w: World, experiment: Experiment, k: nat)
    requires k < |args.scans|
    ensures var step := ScanStep(args, w, experiment, k);
      StepFiles(step.events, step.failure, w.tempPath(k), args.preserveHtml)
  {
    var scanId := args.scans[k];
    var queried := [QueryScan(experiment.project, experiment.sessionLabel, scanId)];
    var assessed := queried + [QueryAssessor(experiment.project, experiment.sessionLabel, scanId, args.legacy)];
    NoTempFiles(queried);
    NoTempFiles(assessed);
    if scanId in w.scans && scanId in w.assessors {
      var report := ReportStep(args, w, k);
      ReportStepTempFiles(args, w, k);
      TempFilesAppend(assessed, report.events, false);
      TempFilesAppend(assessed, report.events, true);
      RemovalsFollowSnapshotsAppend(assessed, report.events);
    }
  }

  /**
   * What the first n iterations do to temporary files: the j-th file written
   * is the j-th scan's; all n are written when none failed; none is removed
   * when HTML is preserved; otherwise every file is removed, except the last
   * one written when its snapshot failed.
   */
  predicate LoopFiles(events: seq<Event>, failure: Option<Error>, paths: nat -> string, n: nat, preserve: bool)
  {
    var written := TempFiles(events, false);
    var removed := TempFiles(events, true);
    && RemovalsFollowSnapshots(events)
    && |written| <= n
    && (forall j: nat :: j < |written| ==> written[j] == paths(j))
    && (failure.None? ==> |written| == n)
    && (preserve ==> removed == [])
    && (!preserve ==>
          || removed == written
          || (failure.Some? && failure.value.SnapshotFailed? && |written| > 0 && removed == written[..|written| - 1]))
    && (!preserve && failure.None? ==> removed == written)
  }

  /** A completed prefix of the loop followed by one more iteration. */
  lemma LoopFilesNext(before: Progress, step: Progress, after: Progress,
                      paths: nat -> string, n: nat, preserve: bool)
    requires before.failure.None? && after == Progress(before.events + step.events, step.failure)
    requires LoopFiles(before.events, before.failure, paths, n, preserve)
    requires StepFiles(step.events, step.failure, paths(n), preserve)
    ensures LoopFiles(after.events, after.failure, paths, n + 1, preserve)
  {
    LoopFilesExtend(before.events, step.events, step.failure, paths, n, preserve);
  }

  lemma LoopFilesExtend(before: seq<Event>, step: seq<Event>, failure: Option<Error>,
                        paths: nat -> string, n: nat, preserve: bool)
    requires LoopFiles(before, None, paths, n, preserve)
    requires StepFiles(step, failure, paths(n), preserve)
    ensures LoopFiles(before + step, failure, paths, n + 1, preserve)
  {
    TempFilesAppend(before, step, false);
    TempFilesAppend(before, step, true);
    RemovalsFollowSnapshotsAppend(before, step);
    var earlier := TempFiles(before, false);
    var written := TempFiles(before + step, false);
    forall j: nat | j < |written|
      ensures written[j] == paths(j)
    {
      if j < |earlier| {
        assert written[j] == earlier[j];
      } else {
        assert written[j] == TempFiles(step, false)[j - |earlier|];
      }
    }
    if !preserve && TempFiles(step, false) != TempFiles(step, true) {
      assert written[..|written| - 1] == earlier;
    }
  }

  /** The temporary files of the first n iterations of the scan loop. */
  lemma {:induction false} ScansTempFiles(args: Args, w: World, experiment: Experiment, n: nat)
    requires n <= |args.scans|
    ensures var progress := ScansUpTo(args, w, experiment, n);
      LoopFiles(progress.events, progress.failure, w.tempPath, n, args.preserveHtml)
  {
    if n > 0 {
      ScansTempFiles(args, w, experiment, n - 1);
      var before := ScansUpTo(args, w, experiment, n - 1);
      assert LoopFiles(before.events, before.failure, w.tempPath, n - 1, args.preserveHtml);
      if ScansUpTo(args, w, experiment, n - 1).failure.None? {
        ScansTempFilesNext(args, w, experiment, n);
      } else {
        ScansTempFilesStopped(args, w, experiment, n);
      }
    } else {
      ScansTempFilesNone(args, w, experiment);
    }
  }

  lemma ScansTempFilesNone(args: Args, w: World, experiment: Experiment)
    ensures var none := ScansUpTo(args, w, experiment, 0);
      LoopFiles(none.events, none.failure, w.tempPath, 0, args.preserveHtml)
  {
    assert ScansUpTo(args, w, experiment, 0) == Progress([], None);
    NoTempFiles([]);
  }

  lemma ScansTempFilesNext(args: Args, w: World, experiment: Experiment, n: nat)
    requires 0 < n <= |args.scans|
    requires ScansUpTo(args, w, experiment, n - 1).failure.None?
    requires var before := ScansUpTo(args, w, experiment, n - 1);
      LoopFiles(before.events, before.failure, w.tempPath, n - 1, args.preserveHtml)
    ensures var after := ScansUpTo(args, w, experiment, n);
      LoopFiles(after.events, after.failure, w.tempPath, n, args.preserveHtml)
  {
    ScanStepTempFiles(args, w, experiment, n - 1);
    LoopFilesNext(ScansUpTo(args, w, experiment, n - 1), ScanStep(args, w, experiment, n - 1),
                  ScansUpTo(args, w, experiment, n), w.tempPath, n - 1, args.preserveHtml);
  }

  lemma ScansTempFilesStopped(args: Args, w: World, experiment: Experiment, n: nat)
    requires 0 < n <= |args.scans|
    requires ScansUpTo(args, w, experiment, n - 1).failure.Some?
    requires var before := ScansUpTo(args, w, experiment, n - 1);
      LoopFiles(before.events, before.failure, w.tempPath, n - 1, args.preserveHtml)
    ensures var after := ScansUpTo(args, w, experiment, n);
      LoopFiles(after.events, after.failure, w.tempPath, n, args.preserveHtml)
  {
    var before := ScansUpTo(args, w, experiment, n - 1);
    assert ScansUpTo(args, w, experiment, n) == before;
    LoopFilesWeaken(before.events, before.failure, w.tempPath, n - 1, args.preserveHtml);
  }

  /** A loop stopped by a failure stays within any larger bound. */
  lemma LoopFilesWeaken(events: seq<Event>, failure: Option<Error>, paths: nat -> string, n: nat, preserve: bool)
    requires LoopFiles(events, failure, paths, n, preserve) && failure.Some?
    ensures LoopFiles(events, failure, paths, n + 1, preserve)
  {
  }

  /**
   * The temporary files of a run: each removal comes right after the
   * snapshot of the file it removes; the j-th file written is the j-th
   * scan's; a run that exits 0 writes one file per scan and removes every one
   * of them exactly when HTML is not preserved; a run that raises leaves
   * behind at most the file whose snapshot failed.
   */
  predicate FilesCleanedUp(args: Args, w: World, t: Trace)
  {
    var written := TempFiles(t.events, false);
    var removed := TempFiles(t.events, true);
    && RemovalsFollowSnapshots(t.events)
    && (forall j :: 0 <= j < |written| ==> written[j] == w.tempPath(j))
    && (args.preserveHtml ==> removed == [])
    && (t.status == Exit(0) ==> |written| == |args.scans| && removed == (if args.preserveHtml then [] else written))
    && (!args.preserveHtml ==>
          || removed == written
          || (t.status.Raised? && t.status.error.SnapshotFailed? && |written| > 0 && removed == written[..|written| - 1]))
  }

  /** Every run that gets past the gate cleans up its temporary files as `FilesCleanedUp` says. */
  lemma TempFileCleanup(args: Args, w: World, env: map<string, string>)
    requires !MissingOutputDir(args) && |w.experiments| > 0
    ensures FilesCleanedUp(args, w, RunTrace(args, w, env))
  {
    if ProxiesSet(env) {
      ReportTempFiles(args, w);
    } else {
      assert RunTrace(args, w, env).events == [];
      NoTempFiles([]);
      NoRemovals([]);
    }
  }

  /** The part of the run after the `no_proxy` update cleans up its temporary files. */
  lemma ReportTempFiles(args: Args, w: World)
    requires |w.experiments| > 0
    ensures FilesCleanedUp(args, w, ReportTrace(args, w))
  {
    var experiment := w.experiments[0];
    var dashboard := DashboardSnapshot(args, w, experiment);
    var head := Preamble(args) + [dashboard];
    RunEvents(args, w);
    HeadTempFiles(args, dashboard);
    if dashboard.url !in w.failingSnapshots {
      var scans := ScansUpTo(args, w, experiment, |args.scans|);
      ScansTempFiles(args, w, experiment, |args.scans|);
      LoopFilesAfterHead(head, scans.events, scans.failure, w.tempPath, |args.scans|, args.preserveHtml);
      assert ReportTrace(args, w).status == (if scans.failure.None? then Exit(0) else Raised(scans.failure.value));
    } else {
      assert ReportTrace(args, w).events == head;
    }
  }

  /** Events that touch no temporary file in front of the loop change nothing about its files. */
  lemma LoopFilesAfterHead(head: seq<Event>, events: seq<Event>, failure: Option<Error>,
                           paths: nat -> string, n: nat, preserve: bool)
    requires TempFiles(head, false) == [] && TempFiles(head, true) == [] && RemovalsFollowSnapshots(head)
    requires LoopFiles(events, failure, paths, n, preserve)
    ensures LoopFiles(head + events, failure, paths, n, preserve)
  {
    TempFilesAppend(head, events, false);
    TempFilesAppend(head, events, true);
    RemovalsFollowSnapshotsAppend(head, events);
  }

  /** The events before the scan loop touch no temporary file. */
  lemma HeadTempFiles(args: Args, dashboard: Event)
    requires dashboard.Snapshot?
    ensures var head := Preamble(args) + [dashboard];
      TempFiles(head, false) == [] && TempFiles(head, true) == [] && RemovalsFollowSnapshots(head)
  {
    var head := Preamble(args) + [dashboard];
    if args.cache {
      assert head == [InstallCache, Authenticate(args.alias), QueryExperiments(args.sessionLabel, args.project), dashboard];
    } else {
      assert head == [Authenticate(args.alias), QueryExperiments(args.sessionLabel, args.project), dashboard];
    }
    NoTempFiles(head);
  }
}
