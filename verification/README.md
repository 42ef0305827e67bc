# extqc-report: a verified model of the report script

`scripts/extqc_report.py` produces PDF reports for the extended BOLD QC
assessments of an MR session stored in XNAT. It first checks its
arguments. It then adds the loopback hosts to the process's `no_proxy`
variable and looks up the session. It snapshots the session's dashboard
page as a PDF. Then, for each requested scan, it:

- resolves the download URLs of the assessor's files (`file_urls`);
- renders a template into a temporary HTML file;
- snapshots that file as a landscape PDF;
- removes the HTML file unless `--preserve-html` was given.

This project models that script in Dafny and proves what it promises.

- `Text.dfy`: the Python built-ins the script relies on, with their
  properties. These are `str.lstrip`, `rstrip`, `strip`, `split` on one
  character, `join`, ASCII `lower` and POSIX `os.path.join`.
- `Urls.dfy`: `file_urls`. `FileUrlsOf` is the specification. The method
  `FileUrls` is its loop, proved equal to the specification. The lemmas
  cover:
  - key normalisation;
  - the single slash between base and path;
  - last write wins;
  - the size bound.
- `NoProxy.dfy`: the token view of `no_proxy` that `add_to_no_proxy`
  reads and writes. It covers:
  - the set iteration order of `','.join(set)`, left open by a loop that
    picks any element;
  - the round trip from tokens to value and back;
  - idempotence;
  - a defect in the debug logging.
- `ReportRun.dfy`: `main` as the sequence of observable events one run
  produces, over a `World` that gives every answer from outside the
  script. It covers:
  - the gate;
  - the `KeyError` of the debug lines when a proxy variable is unset;
  - the exit with no experiment;
  - the order and parameters of the snapshots;
  - the discipline for temporary files.
- `Script.dfy`: the running process, a class `Process` holding `env`
  (`os.environ`) and `log` (the events so far). `add_to_no_proxy`, `main`
  and the scan loop are methods that update these fields step by step.
  Each method is proved to produce exactly the events of the trace
  functions in `ReportRun`.

`Results.dfy` holds the `Option`, `Result` and `Error` types.

The PDF paths are built with `os.path.join(output_dir, ...)`: an empty
output directory gives a bare file name, and an absolute name replaces the
directory (`Text.PathJoin`).

The model of `main` follows the script as written, including its debug
lines: when `http_proxy` or `https_proxy` is unset, `add_to_no_proxy` raises
`KeyError` right after rewriting `no_proxy`, and the run ends there
(`ReportRun.LoggingRaisesBeforeNetwork`). The corrected lines are modelled
beside them (`NoProxy.DebugLines`).

## Model

| member | source | states |
|---|---|---|
| Text.LStrip | scripts/extqc_report.py:166 | `uri.lstrip('/')`: the result is no longer than the input, does not start with a stripped character, and everything dropped was a stripped character |
| Text.LStripSuffix | scripts/extqc_report.py:166 | what `lstrip` leaves is a suffix of its argument |
| Text.RStrip | scripts/extqc_report.py:162 | `baseurl.rstrip('/')`: the result does not end with a stripped character, and everything dropped from the end was one |
| Text.RStripPrefix | scripts/extqc_report.py:162 | what `rstrip` leaves is a prefix of its argument |
| Text.Strip | scripts/extqc_report.py:172 | `str.strip()`: neither end of the result is whitespace; the result is empty exactly when every character was whitespace |
| Text.StripKeeps | scripts/extqc_report.py:172 | a string with no whitespace at either end is unchanged by `strip` |
| Text.StripDropsLeading | scripts/extqc_report.py:172 | a leading whitespace character is removed by `strip` |
| Text.StripIsSlice | scripts/extqc_report.py:172 | what `strip` keeps is one contiguous slice of its argument, and every character it drops from either end is whitespace |
| Text.Split | scripts/extqc_report.py:176 | `value.split(',')` on one separator character yields at least one part |
| Text.SplitFields | scripts/extqc_report.py:176 | no part of a split contains the separator |
| Text.ToSet | scripts/extqc_report.py:176-177 | `set(xs)` holds exactly the elements of `xs` |
| Text.Join | scripts/extqc_report.py:178 | definition of `sep.join(parts)` (no contract of its own; `SplitJoin`, `JoinSplit` and `JoinEdges` state its properties) |
| Text.SplitPrefix | scripts/extqc_report.py:176 | splitting a string that starts with a separator-free piece puts that piece at the head of the first part |
| Text.SplitJoin | scripts/extqc_report.py:176-178 | splitting a `,`-join gives back the parts when no part contains `,` |
| Text.JoinSplit | scripts/extqc_report.py:176-178 | joining the split of a string gives back the string |
| Text.JoinEdges | scripts/extqc_report.py:178 | the first and last characters of a non-empty join are those of the first and last parts, or the separator |
| Text.SplitLStrip | scripts/extqc_report.py:172-176 | when the separator is not stripped, left-stripping a string only left-strips the first part of its split |
| Text.SplitSnocSep | scripts/extqc_report.py:176-178 | appending the separator to a string appends an empty part to its split |
| Text.SplitSnocChar | scripts/extqc_report.py:176-178 | appending another character to a string extends the last part of its split by that character |
| Text.SplitRStrip | scripts/extqc_report.py:172-176 | when the separator is not stripped, right-stripping a string only right-strips the last part of its split |
| Text.LowerAscii | scripts/extqc_report.py:165 | `lower()` on one character: capitals move by 32 to lower case; every other character is unchanged |
| Text.PathJoin | scripts/extqc_report.py:90 | definition of POSIX `os.path.join(a, b)` on two arguments (its properties are stated by `PathJoinShape`) |
| Text.PathJoinShape | scripts/extqc_report.py:90 | `os.path.join(dir, name)` ends with `name`; an absolute name replaces `dir`; otherwise it starts with `dir`, with one `/` inserted when `dir` is non-empty and does not end in one |
| Urls.NormalizeChar | scripts/extqc_report.py:165 | definition of `key.lower().replace(' ', '_')` on one character (its properties are stated by `NormalizeKey`) |
| Urls.NormalizeKey | scripts/extqc_report.py:165 | the key has the name's length, holds no space and no capital; spaces become `_`, capitals become lower case, and nothing else changes |
| Urls.NormalizeKeyFixedPoints | scripts/extqc_report.py:165 | normalising is idempotent, and a key is its own normalisation exactly when it holds no space and no capital |
| Urls.ResolveUrl | scripts/extqc_report.py:162-167 | definition of `f'{baseurl}/{path}'` with the base right-stripped and the URI left-stripped of `/` (its properties are stated by `ResolveUrlShape`) |
| Urls.ResolveUrlShape | scripts/extqc_report.py:162-167 | the URL is the base's prefix without trailing `/`, exactly one `/`, then the URI's suffix without leading `/`; everything dropped is `/` |
| Urls.BaseKept | scripts/extqc_report.py:162 | what `rstrip('/')` keeps of the base: a prefix not ending in `/`, followed only by `/` |
| Urls.UriKept | scripts/extqc_report.py:166 | what `lstrip('/')` keeps of the URI: a suffix not starting with `/`, preceded only by `/` |
| Urls.ResolveUrlIgnoresExtraSlashes | scripts/extqc_report.py:162-167 | an extra `/` at the end of the base or at the start of the URI does not change the URL |
| Urls.ResolveUrlClean | scripts/extqc_report.py:162-167 | a base without a trailing `/` and a path without a leading `/` meet at exactly one `/`, also when each brings its own |
| Urls.ResolveUrlExample | scripts/extqc_report.py:162-167 | base `https://h/` with URI `/data/x` gives `https://h/data/x` |
| Urls.UrlsOf | scripts/extqc_report.py:163-168 | definition of the dictionary after visiting the files in order, each setting its normalised key (its properties are stated by `UrlKeys`, `FileUrlsLastWriteWins` and `FileUrlsSize`) |
| Urls.FileUrlsOf | scripts/extqc_report.py:161-169 | `file_urls` succeeds exactly when every file has a `URI`; otherwise it raises `KeyError('URI')` |
| Urls.UrlsOfExtend | scripts/extqc_report.py:164-168 | visiting one more file that has a `URI` sets its normalised key to its resolved URL |
| Urls.FileUrls | scripts/extqc_report.py:161-169 | the loop over the files, with its early `KeyError`, returns exactly `FileUrlsOf` |
| Urls.NamesSnoc | scripts/extqc_report.py:164-168 | the normalised names of files with one more file added are the earlier names plus the new file's name |
| Urls.UrlKeys | scripts/extqc_report.py:164-168 | the dictionary's keys are exactly the normalised names of the files |
| Urls.FileUrlsKeys | scripts/extqc_report.py:161-169 | every key is normalised and is the normalised name of some file, and every file's normalised name is a key |
| Urls.FileUrlsLastWriteWins | scripts/extqc_report.py:168 | the URL under a key belongs to the last file, in iteration order, whose name normalises to that key |
| Urls.FileUrlsSize | scripts/extqc_report.py:163-168 | there are never more URLs than files |
| NoProxy.Get | scripts/extqc_report.py:172 | `os.environ.get(key, default)`: the value when the key is set, the default otherwise |
| NoProxy.ValueTokens | scripts/extqc_report.py:172-176 | the token set is empty exactly when the value is blank; no token contains `,` |
| NoProxy.CurrentTokens | scripts/extqc_report.py:172-176 | definition of the tokens of `no_proxy` in the environment, absent counting as empty (its properties are stated by `ValueTokens`) |
| NoProxy.JoinTokens | scripts/extqc_report.py:178 | `','.join(set)`: the result is the join of some order listing every token exactly once |
| NoProxy.LoopbackClean | scripts/extqc_report.py:70 | `127.0.0.1` and `localhost` survive being joined and read back |
| NoProxy.TokensRoundTrip | scripts/extqc_report.py:172-178 | reading back a join of clean tokens, in any order, gives exactly those tokens |
| NoProxy.AddKeepsTokens | scripts/extqc_report.py:171-178 | when all the tokens are clean, the tokens read back after the update are exactly the old tokens plus the entries; none of the old tokens is lost |
| NoProxy.EntriesKept | scripts/extqc_report.py:171-178 | clean entries are always read back from the new value, whatever the old tokens look like (`"a, b"` included) |
| NoProxy.OldCleanKept | scripts/extqc_report.py:171-178 | a clean old token always survives the update, also beside unclean ones (`".corp, .example.com"`), when no entry holds a comma and the tokens are not a lone empty one |
| NoProxy.TokenReadBack | scripts/extqc_report.py:172-178 | a clean token among comma-free fields is among the tokens read back from their join |
| NoProxy.JoinNotBlank | scripts/extqc_report.py:172-173 | a join holding a clean token, other than a lone empty one, is not blank after `strip` |
| NoProxy.StrippedFields | scripts/extqc_report.py:172-176 | the fields of a stripped join are the joined tokens with only the first left-stripped and the last right-stripped |
| NoProxy.EntryField | scripts/extqc_report.py:176 | a clean token keeps its place among the fields once the two ends are stripped |
| NoProxy.WrittenBack | scripts/extqc_report.py:177-178 | the new value is a join of the old tokens plus the entries, and reads back as exactly those tokens when they are clean; clean entries, and clean old tokens, always read back |
| NoProxy.BlankStartGivesEntries | scripts/extqc_report.py:172-178 | from an absent or blank `no_proxy`, the tokens afterwards are exactly the entries when the entries are `Clean` |
| NoProxy.AddTwiceSameAsOnce | scripts/extqc_report.py:171-178 | adding the same entries a second time leaves the same token set as the first call when the old tokens and the entries are `Clean` |
| NoProxy.EdgeWhitespaceNotKept | scripts/extqc_report.py:172-178 | a token with leading whitespace does not survive the round trip, which is why `Clean` is required |
| NoProxy.DebugLinesAsWritten | scripts/extqc_report.py:179-181 | the logging succeeds exactly when `no_proxy`, `http_proxy` and `https_proxy` are all set; otherwise it raises `KeyError` for one of them |
| NoProxy.AsWrittenRaisesWithoutHttpProxy | scripts/extqc_report.py:178-181 | without `http_proxy`, the logging raises `KeyError('http_proxy')` whatever `no_proxy` was set to |
| NoProxy.LoggingFailure | scripts/extqc_report.py:180-181 | the exception of the debug lines after the write: none exactly when both proxy variables are set; otherwise `KeyError` for `http_proxy` when it is unset, else for `https_proxy` |
| NoProxy.AsWrittenAfterUpdate | scripts/extqc_report.py:178-181 | right after `no_proxy` is written, the as-written lines raise exactly `LoggingFailure`, and otherwise equal the corrected lines |
| NoProxy.DebugLines | scripts/extqc_report.py:179-181 | definition of the corrected debug lines, with an unset variable logged as empty (its properties are stated by `DebugLinesAgree`) |
| NoProxy.DebugLinesAgree | scripts/extqc_report.py:179-181 | the corrected logging always gives three lines, the same as the original wherever the original does not raise |
| ReportRun.MissingOutputDir | scripts/extqc_report.py:65 | definition of the gate condition `len(args.scan) > 1 and not args.output_dir` |
| ReportRun.DashboardUrl | scripts/extqc_report.py:88-89 | definition of `f'{baseurl}/data/experiments/{experiment.id}?format=html'`, base right-stripped of `/` |
| ReportRun.FileUrl | scripts/extqc_report.py:151 | definition of `f'file://{path}'`, used for the stylesheet (line 126) and the temporary HTML file |
| ReportRun.PdfPath | scripts/extqc_report.py:147 | definition of `os.path.join(output_dir, f'{name}.pdf')` (its properties are stated by `PdfPathShape`) |
| ReportRun.PdfPathShape | scripts/extqc_report.py:90 | a PDF path ends with `{name}.pdf`, is exactly that when the output directory is empty, and otherwise starts with the directory unless the name is absolute |
| ReportRun.Preamble | scripts/extqc_report.py:73-80 | definition of the events from the cache to the experiment query (their properties are stated by `PreambleShape`) |
| ReportRun.PreambleShape | scripts/extqc_report.py:73-80 | the cache is installed exactly when asked for; the preamble ends with authentication then the experiment query, and asks for no snapshot |
| ReportRun.DashboardSnapshot | scripts/extqc_report.py:86-97 | definition of the dashboard snapshot: the session page, `{label}.pdf`, scale 0.8, portrait |
| ReportRun.ReportSnapshot | scripts/extqc_report.py:147-155 | definition of a scan report snapshot: the temporary HTML file, `{assessor id}.pdf`, scale 1.5, landscape |
| ReportRun.ScanStep | scripts/extqc_report.py:100-117 | definition of one loop iteration: the scan and assessor queries, raising when either is missing, then `ReportStep` (its properties are stated by `ScanStepOutcome`) |
| ReportRun.ReportStep | scripts/extqc_report.py:118-159 | definition of the rest of an iteration: file URLs, template, render, temporary file, snapshot, removal (its properties are stated by `ReportStepOutcome`) |
| ReportRun.ScansUpTo | scripts/extqc_report.py:100-159 | definition of the first n iterations, the first exception ending the loop (its properties are stated by `ScansSnapshots`, `ScansTempFiles` and `FailureSticks`) |
| ReportRun.RunTrace | scripts/extqc_report.py:64-159 | a run calls `sys.exit(1)` exactly when several scans are asked for without an output directory; past the gate it raises the logging `KeyError` when a proxy variable is unset, otherwise it continues as `ReportTrace` |
| ReportRun.ReportTrace | scripts/extqc_report.py:73-159 | the run after the `no_proxy` update ends in `sys.exit(0)` or an exception: it never calls `sys.exit` with another code |
| ReportRun.ScanStepOutcome | scripts/extqc_report.py:100-118 | an iteration starts by querying its scan, and completes exactly when the scan and its assessor are found and the report part completes |
| ReportRun.ReportStepOutcome | scripts/extqc_report.py:118-155 | the report part completes exactly when every file has a `URI`, the template is readable and the snapshot succeeds; otherwise it raises `KeyError('URI')`, the template error or the snapshot error, in that order |
| ReportRun.SnapshotsAppend | scripts/extqc_report.py:92-155 | the snapshots of concatenated events are the concatenation of their snapshots |
| ReportRun.NoSnapshots | scripts/extqc_report.py:70-83 | events that are not snapshot requests contribute none |
| ReportRun.GateStopsBeforeNetwork | scripts/extqc_report.py:64-79 | with several scans and no output directory, the run prints usage and exits 1 with no other event; a run authenticates exactly when it is past the gate and both proxy variables are set |
| ReportRun.LoggingRaisesBeforeNetwork | scripts/extqc_report.py:178-181 | past the gate, with `http_proxy` or `https_proxy` unset, the run raises `KeyError` for the first unset one before any event |
| ReportRun.NoExperimentExitsCleanly | scripts/extqc_report.py:81-83 | past the gate and with both proxy variables set, no matching experiment means the run exits 0 and asks for no snapshot |
| ReportRun.SnapshotsLast | scripts/extqc_report.py:139-155 | a block whose only snapshot is its last event contributes exactly that snapshot |
| ReportRun.ReportStepSnapshots | scripts/extqc_report.py:118-159 | the report part of an iteration asks for no snapshot or for its own, and for its own whenever it completes |
| ReportRun.ScanStepSnapshots | scripts/extqc_report.py:100-159 | one iteration asks for at most one snapshot, the report of its own scan, and for exactly one when it completes |
| ReportRun.ScansSnapshots | scripts/extqc_report.py:100-159 | the first n iterations ask for at most n snapshots, exactly n when none raised, and the j-th is scan j's report |
| ReportRun.ScansSnapshotsNext | scripts/extqc_report.py:100-159 | a completed iteration extends the loop's snapshot order by one |
| ReportRun.LoopShotsNext | scripts/extqc_report.py:100-159 | a completed prefix followed by one iteration keeps one snapshot per scan, in order |
| ReportRun.SnapshotsExtend | scripts/extqc_report.py:100-159 | appending an iteration's own snapshot to n snapshots in order gives n + 1 in order |
| ReportRun.RunSnapshots | scripts/extqc_report.py:86-159 | past the gate, with both proxy variables set and an experiment found, the snapshots of a run are the dashboard's, followed by the loop's unless the dashboard failed |
| ReportRun.HeadSnapshots | scripts/extqc_report.py:70-97 | before the dashboard's, the run asks for no snapshot |
| ReportRun.ShiftedReportSnapshots | scripts/extqc_report.py:92-155 | with the dashboard in front, snapshot j is scan j - 1's report |
| ReportRun.SnapshotOrder | scripts/extqc_report.py:86-155 | past the gate, with both proxy variables set and an experiment found: the dashboard comes first (`{label}.pdf`, scale 0.8, portrait); then at most one snapshot per scan in argument order (`{assessor id}.pdf`, scale 1.5, landscape); a run that exits 0 has one per scan |
| ReportRun.TempFilesAppend | scripts/extqc_report.py:139-159 | the temporary files of concatenated events are the concatenation of their files |
| ReportRun.NoTempFiles | scripts/extqc_report.py:100-117 | events that neither write nor remove a file contribute none |
| ReportRun.RemovalsFollowSnapshotsAppend | scripts/extqc_report.py:139-159 | "each removal comes right after the snapshot of the file written just before it" survives concatenation |
| ReportRun.ShotFiles | scripts/extqc_report.py:139-155 | render, write and snapshot together write one file and remove none |
| ReportRun.ShotRemovedFiles | scripts/extqc_report.py:139-159 | render, write, snapshot of that file, then removal: the written file is removed right after its snapshot |
| ReportRun.ReportStepTempFiles | scripts/extqc_report.py:118-159 | a completed report writes its file, and removes it exactly when HTML is not preserved; a failed one removes nothing, and writes its file only when the snapshot failed |
| ReportRun.ScanStepTempFiles | scripts/extqc_report.py:100-159 | the same for a whole iteration; the queries touch no file |
| ReportRun.LoopFilesNext | scripts/extqc_report.py:100-159 | a completed prefix followed by one iteration keeps the loop's file discipline |
| ReportRun.LoopFilesExtend | scripts/extqc_report.py:100-159 | extending n completed iterations by one iteration's files gives the discipline for n + 1 |
| ReportRun.ScansTempFiles | scripts/extqc_report.py:100-159 | after n iterations, file j is scan j's; n files when none raised; nothing removed when HTML is preserved; otherwise all removed, except the last when its snapshot failed |
| ReportRun.ScansTempFilesNext | scripts/extqc_report.py:100-159 | one more completed iteration keeps the discipline |
| ReportRun.TempFileCleanup | scripts/extqc_report.py:139-159 | over every run past the gate with an experiment, in every environment: each removal follows its file's snapshot; file j is scan j's; a run that exits 0 writes one file per scan, all removed exactly when HTML is not preserved; a run that raises leaves at most the file whose snapshot failed |
| ReportRun.ReportTempFiles | scripts/extqc_report.py:139-159 | the same discipline for the part of the run after the `no_proxy` update |
| ReportRun.LoopFilesAfterHead | scripts/extqc_report.py:70-159 | events in front of the loop that touch no file leave the loop's discipline intact |
| ReportRun.HeadTempFiles | scripts/extqc_report.py:70-97 | the events before the loop touch no temporary file |
| Script.Process.AddToNoProxy | scripts/extqc_report.py:171-181 | adds `no_proxy` to the keys and changes no other variable; the new value joins the old tokens and the entries in some order; clean entries and clean old tokens always read back, and with all tokens clean exactly the old tokens and the entries do; the debug lines raise `KeyError` exactly when a proxy variable is unset, and are otherwise the three `env` lines |
| Script.Process.ProcessScan | scripts/extqc_report.py:100-159 | one iteration appends exactly `ScanStep`'s events and returns its exception |
| Script.Process.RenderReport | scripts/extqc_report.py:118-159 | the report part appends exactly `ReportStep`'s events and returns its exception |
| Script.Process.Run | scripts/extqc_report.py:64-159 | the log grows by exactly `RunTrace`'s events and the run ends as `RunTrace` says, for the environment it starts in; the gate leaves `env` alone; every other run adds the loopback hosts to `no_proxy`, reads both back along with every clean old token, and changes no other variable |
| Script.Process.Report | scripts/extqc_report.py:73-159 | the part after the `no_proxy` update appends exactly `ReportTrace`'s events and ends with its status |
| Script.Process.NextScan | scripts/extqc_report.py:100-159 | after i iterations that did not raise, iteration i extends the log to the first i + 1 iterations; if it raises, the log is the whole loop's |
| Script.Process.ScanLoop | scripts/extqc_report.py:100-159 | the loop appends exactly the events of the requested scans, in order, up to the first exception, and returns that exception |
| Script.ScanLoopStep | scripts/extqc_report.py:100-159 | a log that held i iterations, extended by the next one, holds i + 1 iterations; a raise ends the loop |
| Script.FailureSticks | scripts/extqc_report.py:100-159 | once an iteration has raised, later iterations add nothing |

## Left out

- The XNAT queries (`yaxil.auth`, `experiments`, `scans`, `neuroinfo.boldqc`) are modelled by the answers in `World`: the base URL, the experiments, the scan ids found and the assessor of each scan. Their network traffic is not modelled.
- A missing scan or assessor is a `NoScan` or `NoAssessor` error. The kind of Python exception actually raised (`StopIteration` from `next`, or whatever the query library raises) is not modelled.
- Jinja template rendering is a `Render` event carrying the values it is given. The HTML it produces is not modelled. An unreadable template is the `TemplateUnreadable` error.
- The browser snapshot service (Playwright, Basic-Authentication headers, print styles, margins) is a `Snapshot` event with its URL, destination, scale and orientation. A snapshot that fails is one whose URL is in `World.failingSnapshots`.
- The name that `tempfile.NamedTemporaryFile` picks is an oracle, `World.tempPath(k)`. The event records the directory, prefix and suffix requested. The file's contents are not modelled.
- Logging (`logger.info`, the `--verbose` level) is not modelled. The exception is the three `no_proxy` debug lines, which matter to the finding below.
- Argument parsing is not modelled: `argparse`, the legacy choice of assessment module and template, and the unused `--orientation` option. `Args` holds the parsed values.
- `os.path.expanduser` on the output directory and the template path is not modelled. Paths are taken as already expanded.
- The path of the `requests_cache` cache is not modelled. Installing the cache is an `InstallCache` event.
- `asyncio` scheduling is not modelled. The coroutine runs to completion in order.
- Text.LowerAscii: only ASCII capitals are lower-cased. Python's `str.lower` also maps non-ASCII capitals, and can lengthen a string (`'İ'` becomes two code points), so `Urls.NormalizeKey` keeping the name's length holds only under this ASCII mapping.
- NoProxy.AddKeepsTokens: the token round trip is proved only for `Clean` tokens. A token with a comma, with whitespace at an edge, or a lone empty token is changed by the round trip (see `NoProxy.EdgeWhitespaceNotKept`).
- NoProxy.BlankStartGivesEntries: states its result only for `Clean` entries. An entry with whitespace at an edge, such as `" x"`, reads back as `"x"`.
- NoProxy.AddTwiceSameAsOnce: states idempotence only for `Clean` tokens. From `no_proxy = "a, b"`, one set order writes `" b,a,..."`, which reads back with `"b"` in place of `" b"`, so a second call starts from a different set.
- Script.Process.AddToNoProxy: states the whole read-back token set only under `Clean`, for the same reason. The written value is stated for every input. Clean entries always read back, and clean old tokens do too, given entries without commas; an unclean old token may come back changed.
- Calls the model assumes succeed: `yaxil.auth` (line 79), `yaxil.experiments` (line 80), reading and rendering the template beyond its readability (`jinja.Template`, `render`, lines 134, 136), `NamedTemporaryFile` and `fo.write` (lines 139-144) and `os.remove` (line 159). `World` has no failure oracle for them, so a run cannot raise there.
- ReportRun.TempFileCleanup: "a run that raises leaves at most the file whose snapshot failed" holds only because of the assumption above. A failing `fo.write` (line 144) would leave a file that was never snapshotted, and a failing `os.remove` (line 159) one whose snapshot succeeded.
- ReportRun.ReportStepOutcome: "completes exactly when" the three conditions hold relies on the same assumption.
- The `Assessor` datatype assumes every assessor has `files` and `id`. In the script, `assessor['files']` (line 164) and `assessor["id"]` (lines 141, 147) would raise `KeyError` if either were missing.
- The insertion order of the dictionary `file_urls` returns is not modelled, including that an overwritten key keeps its first position. The model is a `map`.
- Script.Process.Run: names the written value up to the set iteration order. Python's string hashing makes that order vary from run to run.

## Findings

| source | as written | input that shows it | evidently intended | confidence | as-written member | corrected member |
|---|---|---|---|---|---|---|
| scripts/extqc_report.py:180-181 | the debug lines index `os.environ["http_proxy"]` and `os.environ["https_proxy"]` directly, and the f-strings are built even when debug logging is off | an environment without `http_proxy`: `add_to_no_proxy` raises `KeyError('http_proxy')` after rewriting `no_proxy`, so `main` ends before any query | log an unset variable as empty (`os.environ.get`) | medium, not executed | NoProxy.AsWrittenRaisesWithoutHttpProxy | NoProxy.DebugLinesAgree |
