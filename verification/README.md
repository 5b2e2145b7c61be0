# Camera benchmark metrics core, in Dafny

This project models the benchmark-metrics core of a mobile app that compares
three camera-capture engines, whose labels are `Native`, `ExpoCamera` and
`VisionCamera` (the `Engine` enum, app/types/metrics.ts:1-5). The model covers:

- **The metrics session** (`useCameraMetrics`). This is a class, `CameraMetrics.MetricsSession`, with these parts:
  - two stopwatches, cold start and shutter lag, each idle (`None`) or running from a start instant;
  - the `isCapturing` flag;
  - the append-only list of trials;
  - the test-number counter.

  Its methods start and stop the stopwatches, record a trial and reset the session. The class invariant `Valid()` has three parts:
  - the trials are numbered 1..N in recording order;
  - the counter holds N+1;
  - the capturing flag is set exactly while the shutter stopwatch runs.
- **The per-engine averages** (`getAverageMetrics`). These are pure functions, checked against reference definitions of "mean over the trials that carry the metric".
- **The file inspector** (`getFileStats`, `getFileFormat`). This works against an abstract file store, a map from URI to the size the file system reports and the outcome of the image-size lookup.
- **The CSV exporter** (`exportResultsToCSV`). Its header, field order and line structure are proved by splitting the output back on `\n` and `,`. Which cells are left empty is stated per column by `FileStats.RowEmptyCells`.
- **The record types** (`app/types/metrics.ts`). These are datatypes with `Option` fields.

Clock readings are parameters, and so are the host-platform strings, the file store, and the rendering of durations and ISO timestamps.
- `now: real` stands for `performance.now()`.
- `nowMs: int` stands for `Date.now()`.

Operations run one at a time, to completion.

Two behaviours of the code shape the model:
- **Missing files.** `getFileStats` on a missing file returns a zero-filled record and never fails (app/utils/fileStats.ts:29-38). The session's `if (stats.uri)` test always passes for a non-empty URI. So a trial recorded with a non-empty photo URI always carries file metrics, zero-filled when the file is missing. Such a trial contributes a file size of 0 to the average.
- **Dimensions.** `FileMetrics` declares width and height as mandatory (app/types/metrics.ts:13-20). The session stores the inspector's partial record through an unchecked cast (app/hooks/useCameraMetrics.ts:61), and that record has no dimensions when the image-size lookup fails. `Metrics.FileMetrics` therefore keeps them optional. `HasDimensions()` says when a record has the declared shape.

## Model

| member | source | states |
|---|---|---|
| `Metrics.EngineLabel` | app/types/metrics.ts:1-5 | each engine's string value is non-empty and holds no comma or line break |
| `Metrics.EngineLabelInjective` | app/types/metrics.ts:1-5 | the three engines have pairwise distinct labels |
| `Text.SplitJoin` | app/utils/fileStats.ts:105-106 | splitting a join on its separator gives the pieces back exactly when there is at least one piece and no piece contains the separator |
| `Text.JoinSplit` | app/utils/fileStats.ts:42 | joining the pieces of a split gives the original string |
| `Text.SplitJoinLength` | app/utils/fileStats.ts:105 | a join of n pieces splits into n pieces exactly when no piece holds the separator, and into more otherwise |
| `Text.LastPieceIsSuffix` | app/utils/fileStats.ts:42 | the last piece of a split is the longest separator-free suffix: it ends the string and is the whole string or follows a separator |
| `Text.LowerKeepsNonLetters` | app/utils/fileStats.ts:42 | lower-casing keeps exactly the non-letter characters a string holds, and lower-casing twice is the same as once |
| `Text.NatToStringRoundTrip` | app/utils/fileStats.ts:98 | the decimal rendering of a whole number reads back as that number |
| `FileStats.Extension` | app/utils/fileStats.ts:42 | the extension is the text after the last `.`, holds no `.`, and is the whole URI exactly when the URI has no `.` |
| `FileStats.GetFileFormat` | app/utils/fileStats.ts:41-53 | JPEG exactly for jpg/jpeg, HEIC for heic, PNG for png (case-insensitive), `unknown` for an empty extension, otherwise the lower-cased extension itself |
| `FileStats.FormatOfNamedFile` | app/utils/fileStats.ts:41-53 | the format of `base.ext` depends on `ext` alone, whatever precedes the last `.` |
| `FileStats.FormatWithComma` | app/utils/fileStats.ts:51-52 | an unrecognised extension such as `a,b` comes back verbatim as the format |
| `FileStats.CommaSurvivesFormat` | app/utils/fileStats.ts:41-53 | a comma in a file's extension always appears in its format label |
| `FileStats.MissingFileStats` | app/utils/fileStats.ts:29-38 | the record for a missing file echoes the URI, has size 0, width and height 0, no codec, and the label an empty extension gets (`unknown`) |
| `FileStats.InspectionOf` | app/utils/fileStats.ts:9-38 | an inspection result echoes the URI and has width and height together or neither. For an existing file it has both exactly when the image-size lookup succeeds |
| `FileStats.GetFileStats` | app/utils/fileStats.ts:5-39 | never fails and always echoes the URI. A missing file gives the zero-filled record with format `unknown`. An existing file gives its reported size (0 when none is reported), the format of its extension, and width and height only when the size lookup succeeds |
| `FileStats.InspectionDeterministic` | app/utils/fileStats.ts:5-39 | the inspection result is determined by the file store and the URI |
| `FileStats.DurationCell` | app/utils/fileStats.ts:99-100 | a duration cell is empty when the duration is absent or zero, and otherwise holds the duration's rendering |
| `FileStats.FileSizeCell` | app/utils/fileStats.ts:101 | the file-size cell is empty exactly when there are no file metrics or the size is 0. Otherwise it is decimal digits that read back as the size |
| `FileStats.FormatCell` | app/utils/fileStats.ts:103 | the format cell is the format label when file metrics exist, and empty otherwise. It is empty exactly when there are no file metrics or the label is empty |
| `FileStats.ResolutionCellAsWritten` | app/utils/fileStats.ts:102 | as written, the resolution cell is empty exactly when there are no file metrics. It agrees with the intended cell exactly when there are no file metrics or both dimensions are known |
| `FileStats.ResolutionCell` | app/utils/fileStats.ts:102 | the resolution cell is non-empty exactly when file metrics with both dimensions are present, and holds no comma or line break |
| `FileStats.ResolutionCellRoundTrip` | app/utils/fileStats.ts:102 | a non-empty resolution cell splits on `x` into the decimal width and height |
| `FileStats.FailedSizeLookupResolution` | app/utils/fileStats.ts:19-26 | as written, a photo whose size lookup failed is exported with the resolution `undefinedxundefined`. The corrected cell is empty |
| `FileStats.ExportResultsToCSV` | app/utils/fileStats.ts:80-81 | the export is the empty string exactly when there are no results |
| `FileStats.HeaderColumns` | app/utils/fileStats.ts:83-92 | the header line splits on `,` into the eight fixed column titles, in order |
| `FileStats.RowFields` | app/utils/fileStats.ts:96-105 | a row has eight fields, as many as the header: first the engine's label, then digits that read back as the test number, and last the rendered timestamp. The resolution field is the intended cell |
| `FileStats.RowEmptyCells` | app/utils/fileStats.ts:99-103 | the duration cells are empty when their duration is absent or zero. The file-size, resolution and format cells are empty exactly when there are no file metrics or, respectively, the size is 0, a dimension is missing, or the label is empty |
| `FileStats.CsvRow` | app/utils/fileStats.ts:96-105 | a row holds exactly seven separating commas plus every comma inside its fields |
| `FileStats.RowColumns` | app/utils/fileStats.ts:96-105 | a row splits into exactly its eight fields in column order if and only if no field holds a comma. It never splits into fewer than eight |
| `FileStats.RowRecoversEngineAndTestNumber` | app/utils/fileStats.ts:96-98 | with comma-free fields, column 1 identifies the trial's engine and column 2 reads back as its test number |
| `FileStats.ExportSplitsBack` | app/utils/fileStats.ts:94-106 | a non-empty export whose fields hold no line break splits on `\n` into exactly the header line followed by one row per result |
| `FileStats.ExportLines` | app/utils/fileStats.ts:94-106 | for a non-empty list the lines are the header and then one row per result in input order, with no trailing empty line |
| `FileStats.CommaInFormatBreaksRow` | app/utils/fileStats.ts:103-105 | a row whose format label holds a comma, such as that of `photo.a,b`, splits into more than eight columns, because fields are not quoted |
| `CameraMetrics.Select` | app/hooks/useCameraMetrics.ts:95-97 | without an engine every trial is selected. With one, exactly that engine's trials are selected, each as often as it occurs among the trials |
| `CameraMetrics.PipelineComputesMean` | app/hooks/useCameraMetrics.ts:108-128 | the map/filter/reduce pipeline keeps one value per trial carrying the metric, sums them and divides by their number, or gives 0 when there are none |
| `CameraMetrics.AverageMetrics` | app/hooks/useCameraMetrics.ts:94-131 | count is the number of selected trials, and everything is 0 when none is selected. Each average is the mean over the selected trials that carry that metric, independently per metric |
| `CameraMetrics.MeanWithinBounds` | app/hooks/useCameraMetrics.ts:120-129 | an average lies between the least and greatest value it is taken over |
| `CameraMetrics.SelectAppend` | app/hooks/useCameraMetrics.ts:95-97 | appending a trial extends the selection by that trial exactly when it matches the filter |
| `CameraMetrics.LackingMetricKeepsMean` | app/hooks/useCameraMetrics.ts:108-128 | a trial without a metric leaves that metric's count of present values, their total and their mean unchanged |
| `CameraMetrics.RecordedTrialEffect` | app/hooks/useCameraMetrics.ts:94-131 | a new trial of the filtered engine raises count by one and leaves unchanged the average of every metric it lacks. A trial of another engine leaves that engine's summary unchanged |
| `CameraMetrics.DeviceInfoOf` | app/hooks/useCameraMetrics.ts:73-77 | the platform is the OS name as given. The model and OS version are always present and non-empty: the host's string when it is non-empty, `Unknown` otherwise |
| `CameraMetrics.OrUnknown` | app/hooks/useCameraMetrics.ts:75-76 | a missing or empty platform string becomes `Unknown`. Any other string is kept |
| `CameraMetrics.MetricsSession.constructor` | app/hooks/useCameraMetrics.ts:7-12 | a new session has no trials, counter 1, both stopwatches idle and the flag down |
| `CameraMetrics.MetricsSession.StartColdStartTimer` | app/hooks/useCameraMetrics.ts:14-16 | the cold-start stopwatch runs from `now`, replacing any earlier start. Nothing else changes |
| `CameraMetrics.MetricsSession.StopColdStartTimer` | app/hooks/useCameraMetrics.ts:18-26 | from running: the elapsed time, and the stopwatch goes idle. From idle: absent, with no change. Nothing else changes |
| `CameraMetrics.MetricsSession.StartShutterTimer` | app/hooks/useCameraMetrics.ts:28-31 | the shutter stopwatch runs from `now`, replacing any earlier start, and the capturing flag is raised |
| `CameraMetrics.MetricsSession.StopShutterTimer` | app/hooks/useCameraMetrics.ts:33-42 | from running: the shutter lag, with the stopwatch idle and the flag lowered. From idle: absent, with the stopwatch and the flag untouched |
| `CameraMetrics.MetricsSession.RecordBenchmarkResult` | app/hooks/useCameraMetrics.ts:44-84 | appends exactly one trial, numbered with the current counter, and the counter grows by one. Earlier trials are unchanged. The overrides are copied and the timestamp comes from the clock. File metrics are attached exactly when a non-empty photo URI is given, and they are the inspector's result |
| `CameraMetrics.MetricsSession.ResetBenchmarks` | app/hooks/useCameraMetrics.ts:86-92 | no trials, counter 1, both stopwatches idle, flag down |
| `CameraMetrics.MetricsSession.GetAverageMetrics` | app/hooks/useCameraMetrics.ts:94-132 | it is `AverageMetrics` over the session's trials: the count is the number of selected trials (all of them without an engine filter). Everything is 0 when nothing is selected, and each average is the mean over the selected trials that carry that metric |
| `CameraMetrics.MetricsSession.State` | app/types/metrics.ts:34-39 | the grouped state holds the given engine and this session's flag, trials and counter. It numbers its trials 1..N, its counter is N+1, and its flag is set exactly while the shutter stopwatch runs |
| `CameraMetrics.StopwatchRoundTrip` | app/hooks/useCameraMetrics.ts:14-26 | start at t0 then stop at t1 gives t1 - t0. A second stop gives absent |
| `CameraMetrics.RestartOverwrites` | app/hooks/useCameraMetrics.ts:28-42 | after two starts, the shutter lag runs from the later one, and stopping lowers the flag |
| `CameraMetrics.ColdStartLeavesFlag` | app/hooks/useCameraMetrics.ts:14-31 | starting and stopping the cold-start stopwatch never lowers the capturing flag |
| `CameraMetrics.NumberingAcrossReset` | app/hooks/useCameraMetrics.ts:72-92 | trials recorded with or without a photo are numbered 1, 2, 3. Two resets leave the same state as one, and the first trial after a reset is numbered 1 |
| `CameraMetrics.JpegFormat` | app/utils/fileStats.ts:43-46 | a `.jpg` photo is labelled JPEG |
| `CameraMetrics.CaptureScenario` | app/hooks/useCameraMetrics.ts:44-84 | a 120 ms cold start is measured as 120. Then a trial with an 85 ms shutter lag and a 1024-byte 100x200 JPEG gets test number 1 and exactly those file metrics |
| `CameraMetrics.MissingPhotoScenario` | app/utils/fileStats.ts:29-38 | a trial whose photo does not exist still records, carrying the zero-filled file record |

## Left out

- JSON export (`JSON.stringify` in the results screen) is not modelled. It is an external library.
- `formatFileSize` (app/utils/fileStats.ts:70-78) is not modelled. It rests on `Math.log`, `toFixed` and `parseFloat` floating-point formatting.
- Floating point is not modelled. Durations and averages are exact `real`s, so the summation order of `reduce` and rounding play no part. NaN and infinite durations are not represented.
- The rendering of a duration (`String(x)`) and of a timestamp (`toISOString`) is not defined. Both are supplied as the functions in `FileStats.Renderers`. Whole numbers (test number, file size, dimensions) are rendered as plain decimal digits by the model. JavaScript's `String(n)` switches to exponent notation from 1e21, and the model does not represent that.
- `toLowerCase` is modelled for ASCII letters only. Other characters are kept as they are.
- `getImageDimensions` and the file system are not modelled as code. They are the `FileEntry` oracle in the file store. An error thrown by `getInfoAsync` is treated like a missing file, which is how the outer handler treats it.
- The session's `try/catch` around `getFileStats` (app/hooks/useCameraMetrics.ts:58-65) has no modelled error path. `getFileStats` never throws, so its error branch cannot run.
- Console logging is not modelled.
- `Platform.Version` is not modelled as a number. The host platform is passed in as optional strings.
- React state batching and the `useCallback` closure over `currentTestNumber` are not modelled. Operations are sequential and atomic. So two overlapping `recordBenchmarkResult` calls, which could reuse a test number in the app, are not represented.
- `FileStats.RowFields`: the resolution column uses the corrected cell `FileStats.ResolutionCell`. The as-written rendering is `FileStats.ResolutionCellAsWritten`; see Findings.
- The capture screens, permission requests, camera-library calls, navigation, the context provider and the UI components are not part of this model.
- Timestamps come from the clock. Nothing orders them, and the model states no ordering.

## Findings

| source | as written | input that shows it | evidently intended | confidence | as-written member | corrected member |
|---|---|---|---|---|---|---|
| app/utils/fileStats.ts:102 | the resolution cell is `${width}x${height}` whenever file metrics exist. When the image-size lookup failed, the stored record has no width or height (app/utils/fileStats.ts:19-26, app/hooks/useCameraMetrics.ts:61), so the cell prints `undefinedxundefined` | an existing photo whose `Image.getSize` call fails | `WIDTHxHEIGHT` only when both dimensions are known, else an empty cell | medium, not executed | `FileStats.ResolutionCellAsWritten` (shown by `FileStats.FailedSizeLookupResolution`) | `FileStats.ResolutionCell` (proved by `FileStats.ResolutionCellRoundTrip`) |
