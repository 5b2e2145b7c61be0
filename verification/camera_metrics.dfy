/**
 * The benchmark-metrics session of app/hooks/useCameraMetrics.ts: two
 * stopwatches (cold start and shutter lag), the capturing flag, the
 * append-only list of trials with its test-number counter, the reset, and the
 * per-engine averages.
 *
 * Clock readings are parameters: `now` stands for `performance.now()` in the
 * stopwatches and `nowMs` for `Date.now()` when a trial is stamped. Each
 * operation runs to completion before the next starts.
 */
module CameraMetrics {
  import opened Wrappers
  import opened Metrics
  import opened FileStats
  import Text

  // ---------------------------------------------------------------------------
  // getAverageMetrics
  // ---------------------------------------------------------------------------

  datatype Metric = ColdStart | ShutterLag | FileSize

  /** The value a trial contributes to one metric, absent when it has none. */
  function MetricOf(r: BenchmarkResult, m: Metric): Option<real>
  {
    match m
    case ColdStart => r.timingMetrics.coldStartTime
    case ShutterLag => r.timingMetrics.shutterLagTime
    case FileSize => if r.fileMetrics.Some? then Some(r.fileMetrics.value.fileSize as real) else None
  }

  /** Whether a trial is selected by the optional engine filter. */
  predicate Matches(r: BenchmarkResult, engine: Option<Engine>)
  {
    engine.None? || r.engine == engine.value
  }

  /**
   * `engine ? results.filter(r => r.engine === engine) : results`. Every engine
   * label is a non-empty string, so a given engine always filters.
   */
  function Select(results: seq<BenchmarkResult>, engine: Option<Engine>): (selected: seq<BenchmarkResult>)
    ensures engine.None? ==> selected == results
    ensures forall r :: r in selected <==> r in results && Matches(r, engine)
    ensures |selected| <= |results|
    ensures forall r ::
      multiset(selected)[r] == (if Matches(r, engine) then multiset(results)[r] else 0)
    decreases |results|
  {
    if results == [] then []
    else
      var init, last := results[..|results| - 1], results[|results| - 1];
      assert results == init + [last];
      assert multiset(results) == multiset(init) + multiset{last};
      Select(init, engine) + (if Matches(last, engine) then [last] else [])
  }

  /** `selected.map(metric).filter(v => v !== undefined)`: the present values, in order. */
  function Values(selected: seq<BenchmarkResult>, m: Metric): seq<real>
    decreases |selected|
  {
    if selected == [] then []
    else
      var last := selected[|selected| - 1];
      Values(selected[..|selected| - 1], m)
        + (if MetricOf(last, m).Some? then [MetricOf(last, m).value] else [])
  }

  /** `xs.reduce((a, b) => a + b, acc)`: a left fold. */
  function Reduce(xs: seq<real>, acc: real): real
    decreases |xs|
  {
    if xs == [] then acc else Reduce(xs[1..], acc + xs[0])
  }

  /** `xs.length > 0 ? xs.reduce(...) / xs.length : 0`. */
  function Mean(xs: seq<real>): real
  {
    if |xs| > 0 then Reduce(xs, 0.0) / (|xs| as real) else 0.0
  }

  // Reference definitions: how many trials carry a metric, their total, and the mean.

  function CountPresent(rs: seq<BenchmarkResult>, m: Metric): nat
    decreases |rs|
  {
    if rs == [] then 0
    else CountPresent(rs[..|rs| - 1], m) + (if MetricOf(rs[|rs| - 1], m).Some? then 1 else 0)
  }

  function SumPresent(rs: seq<BenchmarkResult>, m: Metric): real
    decreases |rs|
  {
    if rs == [] then 0.0
    else
      var v := MetricOf(rs[|rs| - 1], m);
      SumPresent(rs[..|rs| - 1], m) + (if v.Some? then v.value else 0.0)
  }

  function MeanOfPresent(rs: seq<BenchmarkResult>, m: Metric): real
  {
    if CountPresent(rs, m) == 0 then 0.0 else SumPresent(rs, m) / (CountPresent(rs, m) as real)
  }

  datatype Averages = Averages(avgColdStart: real, avgShutterLag: real, avgFileSize: real, count: nat)

  const NoAverages := Averages(0.0, 0.0, 0.0, 0)

  lemma {:induction false} ReduceAppend(xs: seq<real>, v: real, acc: real)
    ensures Reduce(xs + [v], acc) == Reduce(xs, acc) + v
    decreases |xs|
  {
    if xs != [] {
      assert (xs + [v])[1..] == xs[1..] + [v];
      ReduceAppend(xs[1..], v, acc + xs[0]);
    } else {
      assert [v][1..] == [];
    }
  }

  /** The map-filter-reduce pipeline computes the mean over present values only. */
  lemma {:induction false} PipelineComputesMean(rs: seq<BenchmarkResult>, m: Metric)
    ensures |Values(rs, m)| == CountPresent(rs, m)
    ensures Reduce(Values(rs, m), 0.0) == SumPresent(rs, m)
    ensures Mean(Values(rs, m)) == MeanOfPresent(rs, m)
    decreases |rs|
  {
    if rs != [] {
      var init := rs[..|rs| - 1];
      PipelineComputesMean(init, m);
      var v := MetricOf(rs[|rs| - 1], m);
      if v.Some? {
        ReduceAppend(Values(init, m), v.value, 0.0);
      } else {
        assert Values(rs, m) == Values(init, m);
      }
    }
  }

  /**
   * `getAverageMetrics(engine)`: `count` is the number of selected trials; with
   * none selected everything is zero; each average is the mean over the
   * selected trials that carry that metric, independently per metric.
   */
  function AverageMetrics(results: seq<BenchmarkResult>, engine: Option<Engine>): (a: Averages)
    ensures a.count == |Select(results, engine)|
    ensures a.count == 0 ==> a == NoAverages
    ensures a.avgColdStart == MeanOfPresent(Select(results, engine), ColdStart)
    ensures a.avgShutterLag == MeanOfPresent(Select(results, engine), ShutterLag)
    ensures a.avgFileSize == MeanOfPresent(Select(results, engine), FileSize)
  {
    var selected := Select(results, engine);
    PipelineComputesMean(selected, ColdStart);
    PipelineComputesMean(selected, ShutterLag);
    PipelineComputesMean(selected, FileSize);
    if |selected| == 0 then NoAverages
    else
      Averages(
        Mean(Values(selected, ColdStart)),
        Mean(Values(selected, ShutterLag)),
        Mean(Values(selected, FileSize)),
        |selected|)
  }

  /** `n` copies of `x` added up. */
  function Repeat(x: real, n: nat): real
    decreases n
  {
    if n == 0 then 0.0 else Repeat(x, n - 1) + x
  }

  lemma {:induction false} RepeatIsProduct(x: real, n: nat)
    ensures Repeat(x, n) == x * (n as real)
    decreases n
  {
    if n > 0 {
      RepeatIsProduct(x, n - 1);
      var k := (n - 1) as real;
      assert n as real == k + 1.0;
      assert x * (k + 1.0) == x * k + x;
    }
  }

  /** Bounds on the present values bound the total. */
  lemma {:induction false} SumWithinBounds(rs: seq<BenchmarkResult>, m: Metric, lo: real, hi: real)
    requires forall i :: 0 <= i < |rs| && MetricOf(rs[i], m).Some? ==> lo <= MetricOf(rs[i], m).value <= hi
    ensures Repeat(lo, CountPresent(rs, m)) <= SumPresent(rs, m) <= Repeat(hi, CountPresent(rs, m))
    decreases |rs|
  {
    if rs != [] {
      var init := rs[..|rs| - 1];
      assert forall i :: 0 <= i < |init| ==> init[i] == rs[i];
      SumWithinBounds(init, m, lo, hi);
    }
  }

  /** A total between `k` copies of `lo` and of `hi` has its `k`-th part between `lo` and `hi`. */
  lemma QuotientWithinBounds(total: real, k: nat, lo: real, hi: real)
    requires k > 0 && Repeat(lo, k) <= total <= Repeat(hi, k)
    ensures lo <= total / (k as real) <= hi
  {
    RepeatIsProduct(lo, k);
    RepeatIsProduct(hi, k);
    var n := k as real;
    var q := total / n;
    assert q * n == total;
    assert (q - lo) * n == total - lo * n;
    assert (hi - q) * n == hi * n - total;
  }

  /** Each average lies between the smallest and largest value it is taken over. */
  lemma MeanWithinBounds(rs: seq<BenchmarkResult>, m: Metric, lo: real, hi: real)
    requires CountPresent(rs, m) > 0
    requires forall i :: 0 <= i < |rs| && MetricOf(rs[i], m).Some? ==> lo <= MetricOf(rs[i], m).value <= hi
    ensures lo <= MeanOfPresent(rs, m) <= hi
  {
    SumWithinBounds(rs, m, lo, hi);
    QuotientWithinBounds(SumPresent(rs, m), CountPresent(rs, m), lo, hi);
  }

  /** Appending one trial extends the selection by that trial exactly when it matches. */
  lemma SelectAppend(rs: seq<BenchmarkResult>, r: BenchmarkResult, engine: Option<Engine>)
    ensures Select(rs + [r], engine) == Select(rs, engine) + (if Matches(r, engine) then [r] else [])
  {
    assert (rs + [r])[..|rs|] == rs;
  }

  /**
   * Recording a trial that the filter selects raises `count` by one and leaves
   * the average of every metric the trial lacks unchanged; recording a trial of
   * another engine changes nothing in that engine's summary.
   */
  lemma RecordedTrialEffect(rs: seq<BenchmarkResult>, r: BenchmarkResult, engine: Option<Engine>)
    ensures Matches(r, engine) ==> AverageMetrics(rs + [r], engine).count == AverageMetrics(rs, engine).count + 1
    ensures !Matches(r, engine) ==> AverageMetrics(rs + [r], engine) == AverageMetrics(rs, engine)
    ensures Matches(r, engine) && MetricOf(r, ColdStart).None? ==>
      AverageMetrics(rs + [r], engine).avgColdStart == AverageMetrics(rs, engine).avgColdStart
    ensures Matches(r, engine) && MetricOf(r, ShutterLag).None? ==>
      AverageMetrics(rs + [r], engine).avgShutterLag == AverageMetrics(rs, engine).avgShutterLag
    ensures Matches(r, engine) && MetricOf(r, FileSize).None? ==>
      AverageMetrics(rs + [r], engine).avgFileSize == AverageMetrics(rs, engine).avgFileSize
  {
    SelectAppend(rs, r, engine);
    var sel := Select(rs, engine);
    if Matches(r, engine) {
      assert |sel + [r]| == |sel| + 1;
      forall m | MetricOf(r, m).None? ensures MeanOfPresent(sel + [r], m) == MeanOfPresent(sel, m) {
        LackingMetricKeepsMean(sel, r, m);
      }
    } else {
      assert sel + [] == sel;
    }
  }

  /** A trial without a metric leaves that metric's count, total and mean as they were. */
  lemma LackingMetricKeepsMean(rs: seq<BenchmarkResult>, r: BenchmarkResult, m: Metric)
    requires MetricOf(r, m).None?
    ensures CountPresent(rs + [r], m) == CountPresent(rs, m)
    ensures SumPresent(rs + [r], m) == SumPresent(rs, m)
    ensures MeanOfPresent(rs + [r], m) == MeanOfPresent(rs, m)
  {
    assert (rs + [r])[..|rs|] == rs;
  }

  // ---------------------------------------------------------------------------
  // recordBenchmarkResult inputs
  // ---------------------------------------------------------------------------

  /** The caller-measured durations; an absent overrides object reads as both absent. */
  datatype TimingOverrides = TimingOverrides(coldStartTime: Option<real>, shutterLagTime: Option<real>)

  const NoOverrides := TimingOverrides(None, None)

  /** What the host platform reports: OS name, system name and version, each possibly missing. */
  datatype HostPlatform = HostPlatform(os: string, systemName: Option<string>, version: Option<string>)

  /** `s || 'Unknown'`. */
  function OrUnknown(s: Option<string>): (r: string)
    ensures r != []
    ensures s.Some? && s.value != [] ==> r == s.value
    ensures !(s.Some? && s.value != []) ==> r == "Unknown"
  {
    if s.Some? && s.value != [] then s.value else "Unknown"
  }

  /**
   * The device description stamped on a trial: the OS name as given, and the
   * model and OS version each falling back to "Unknown" when missing or empty.
   */
  function DeviceInfoOf(host: HostPlatform): (info: DeviceInfo)
    ensures info.platform == host.os
    ensures info.model.Some? && info.model.value != []
    ensures info.osVersion.Some? && info.osVersion.value != []
    ensures host.systemName.Some? && host.systemName.value != [] ==> info.model == host.systemName
    ensures !(host.systemName.Some? && host.systemName.value != []) ==> info.model == Some("Unknown")
    ensures host.version.Some? && host.version.value != [] ==> info.osVersion == host.version
    ensures !(host.version.Some? && host.version.value != []) ==> info.osVersion == Some("Unknown")
  {
    DeviceInfo(host.os, Some(OrUnknown(host.systemName)), Some(OrUnknown(host.version)))
  }

  // ---------------------------------------------------------------------------
  // The session
  // ---------------------------------------------------------------------------

  class MetricsSession {
    var isCapturing: bool
    var results: seq<BenchmarkResult>
    var currentTestNumber: nat
    /** The shutter stopwatch: `None` when idle, the start instant when running. */
    var shutterStart: Option<real>
    /** The cold-start stopwatch. */
    var coldStart: Option<real>

    /**
     * The trials are numbered 1..N in recording order, the counter holds the
     * next number, and the capturing flag is set exactly while the shutter
     * stopwatch runs.
     */
    ghost predicate Valid()
      reads this
    {
      && currentTestNumber == |results| + 1
      && (forall i :: 0 <= i < |results| ==> results[i].testNumber == i + 1)
      && (isCapturing <==> shutterStart.Some?)
    }

    /** The state of a new session, and of one just reset. */
    ghost predicate IsInitial()
      reads this
    {
      results == [] && currentTestNumber == 1 && shutterStart.None? && coldStart.None? && !isCapturing
    }

    constructor ()
      ensures Valid() && IsInitial()
    {
      isCapturing := false;
      results := [];
      currentTestNumber := 1;
      shutterStart := None;
      coldStart := None;
    }

    /** Starts (or restarts, discarding the earlier instant) the cold-start stopwatch. */
    method StartColdStartTimer(now: real)
      requires Valid()
      modifies this`coldStart
      ensures Valid()
      ensures coldStart == Some(now)
    {
      coldStart := Some(now);
    }

    /** The elapsed time since the start, leaving the stopwatch idle; absent and no change when idle. */
    method StopColdStartTimer(now: real) returns (duration: Option<real>)
      requires Valid()
      modifies this`coldStart
      ensures Valid()
      ensures old(coldStart).None? ==> duration.None? && coldStart == old(coldStart)
      ensures old(coldStart).Some? ==> duration == Some(now - old(coldStart).value) && coldStart.None?
    {
      if coldStart.None? {
        return None;
      }
      duration := Some(now - coldStart.value);
      coldStart := None;
    }

    /** Starts (or restarts) the shutter stopwatch and raises the capturing flag. */
    method StartShutterTimer(now: real)
      requires Valid()
      modifies this`shutterStart, this`isCapturing
      ensures Valid()
      ensures shutterStart == Some(now) && isCapturing
    {
      shutterStart := Some(now);
      isCapturing := true;
    }

    /**
     * The shutter lag since the start, leaving the stopwatch idle and the flag
     * lowered; absent, with the flag untouched, when the stopwatch is idle.
     */
    method StopShutterTimer(now: real) returns (duration: Option<real>)
      requires Valid()
      modifies this`shutterStart, this`isCapturing
      ensures Valid()
      ensures old(shutterStart).None? ==>
        duration.None? && shutterStart == old(shutterStart) && isCapturing == old(isCapturing)
      ensures old(shutterStart).Some? ==>
        duration == Some(now - old(shutterStart).value) && shutterStart.None? && !isCapturing
    {
      if shutterStart.None? {
        return None;
      }
      duration := Some(now - shutterStart.value);
      shutterStart := None;
      isCapturing := false;
    }

    /**
     * Records one trial: the overrides are copied, the timestamp comes from the
     * clock, the photo (when a non-empty URI is given) is inspected and always
     * attached, the trial takes the current test number, is appended, and the
     * counter moves on by one.
     */
    method RecordBenchmarkResult(
      engine: Engine, photoUri: Option<string>, overrides: TimingOverrides,
      nowMs: int, host: HostPlatform, store: FileStore)
      returns (r: BenchmarkResult)
      requires Valid()
      modifies this`results, this`currentTestNumber
      ensures Valid()
      ensures results == old(results) + [r]
      ensures r.testNumber == old(currentTestNumber) && currentTestNumber == old(currentTestNumber) + 1
      ensures r.engine == engine && r.deviceInfo == DeviceInfoOf(host)
      ensures r.timingMetrics == TimingMetrics(overrides.coldStartTime, overrides.shutterLagTime, nowMs)
      ensures r.fileMetrics.Some? <==> photoUri.Some? && photoUri.value != []
      ensures r.fileMetrics.Some? ==> InspectionOf(store, photoUri.value, r.fileMetrics.value)
    {
      var timing := TimingMetrics(overrides.coldStartTime, overrides.shutterLagTime, nowMs);
      var fileMetrics: Option<FileMetrics> := None;
      if photoUri.Some? && photoUri.value != [] {
        var stats := GetFileStats(store, photoUri.value);
        if stats.uri != [] {
          fileMetrics := Some(stats);
        }
      }
      r := BenchmarkResult(engine, timing, fileMetrics, currentTestNumber, DeviceInfoOf(host));
      results := results + [r];
      currentTestNumber := currentTestNumber + 1;
    }

    /** Clears the trials, rewinds the counter, idles both stopwatches and lowers the flag. */
    method ResetBenchmarks()
      requires Valid()
      modifies this
      ensures Valid() && IsInitial()
    {
      results := [];
      currentTestNumber := 1;
      shutterStart := None;
      coldStart := None;
      isCapturing := false;
    }

    /**
     * `getAverageMetrics(engine)` over this session's trials: the count of the
     * selected trials and, per metric, the mean over those that carry it.
     */
    function GetAverageMetrics(engine: Option<Engine>): (a: Averages)
      reads this
      ensures a == AverageMetrics(results, engine)
      ensures a.count == |Select(results, engine)|
      ensures a.count <= |results| && (engine.None? ==> a.count == |results|)
      ensures a.count == 0 ==> a == NoAverages
      ensures a.avgColdStart == MeanOfPresent(Select(results, engine), ColdStart)
      ensures a.avgShutterLag == MeanOfPresent(Select(results, engine), ShutterLag)
      ensures a.avgFileSize == MeanOfPresent(Select(results, engine), FileSize)
    {
      AverageMetrics(results, engine)
    }

    /** The session fields grouped with the engine being exercised. */
    function State(currentEngine: Engine): (st: BenchmarkState)
      reads this
      requires Valid()
      ensures st.currentTestNumber == |st.results| + 1
      ensures forall i :: 0 <= i < |st.results| ==> st.results[i].testNumber == i + 1
      ensures st.isCapturing == shutterStart.Some?
      ensures st == BenchmarkState(currentEngine, isCapturing, results, currentTestNumber)
    {
      BenchmarkState(currentEngine, isCapturing, results, currentTestNumber)
    }
  }

  // ---------------------------------------------------------------------------
  // Sessions driven by a caller
  // ---------------------------------------------------------------------------

  /** Start at `t0`, stop at `t1`: the duration is `t1 - t0`; a second stop yields nothing. */
  method StopwatchRoundTrip(t0: real, t1: real, t2: real) returns (first: Option<real>, second: Option<real>)
    ensures first == Some(t1 - t0)
    ensures second.None?
  {
    var s := new MetricsSession();
    s.StartColdStartTimer(t0);
    first := s.StopColdStartTimer(t1);
    second := s.StopColdStartTimer(t2);
  }

  /** A second start replaces the first: the shutter lag runs from the later instant. */
  method RestartOverwrites(t0: real, t1: real, t2: real) returns (lag: Option<real>, capturing: bool)
    ensures lag == Some(t2 - t1)
    ensures !capturing
  {
    var s := new MetricsSession();
    s.StartShutterTimer(t0);
    s.StartShutterTimer(t1);
    lag := s.StopShutterTimer(t2);
    capturing := s.isCapturing;
  }

  /** The cold-start stopwatch never moves the capturing flag. */
  method ColdStartLeavesFlag(t0: real, t1: real, t2: real) returns (during: bool, after: bool)
    ensures during && after
  {
    var s := new MetricsSession();
    s.StartShutterTimer(t0);
    s.StartColdStartTimer(t1);
    var _ := s.StopColdStartTimer(t2);
    during := s.isCapturing;
    s.StartColdStartTimer(t2);
    after := s.isCapturing;
  }

  /**
   * Trials recorded with or without a photo are numbered 1, 2, 3; reset is
   * idempotent, and the first trial after it is numbered 1 again.
   */
  method NumberingAcrossReset(host: HostPlatform, store: FileStore, uri: string, ms: int)
    returns (numbers: seq<nat>, afterReset: nat, onceReset: BenchmarkState, twiceReset: BenchmarkState)
    ensures numbers == [1, 2, 3]
    ensures onceReset == twiceReset
    ensures onceReset.results == [] && onceReset.currentTestNumber == 1 && !onceReset.isCapturing
    ensures afterReset == 1
  {
    var s := new MetricsSession();
    var a := s.RecordBenchmarkResult(Native, None, NoOverrides, ms, host, store);
    var b := s.RecordBenchmarkResult(Expo, Some(uri), TimingOverrides(None, Some(1.5)), ms, host, store);
    var c := s.RecordBenchmarkResult(Vision, Some(""), NoOverrides, ms, host, store);
    numbers := [a.testNumber, b.testNumber, c.testNumber];
    s.StartShutterTimer(0.0);
    s.ResetBenchmarks();
    onceReset := s.State(Native);
    s.ResetBenchmarks();
    twiceReset := s.State(Native);
    var d := s.RecordBenchmarkResult(Native, None, NoOverrides, ms, host, store);
    afterReset := d.testNumber;
  }

  /** A `.jpg` photo is labelled JPEG. */
  lemma JpegFormat()
    ensures GetFileFormat("/tmp/a.jpg") == "JPEG"
  {
    FormatOfNamedFile("/tmp/a", "jpg");
    assert "/tmp/a" + "." + "jpg" == "/tmp/a.jpg";
    assert Extension("jpg") == "jpg";
    assert Text.Lower("jpg") == "jpg";
  }

  /**
   * A 120 ms cold start, then a trial on the embedded camera view with an
   * 85 ms shutter lag whose photo is a 1024-byte 100x200 JPEG.
   */
  method CaptureScenario(host: HostPlatform, ms: int)
    returns (coldStartTime: Option<real>, r: BenchmarkResult)
    ensures coldStartTime == Some(120.0)
    ensures r.testNumber == 1
    ensures r.timingMetrics.shutterLagTime == Some(85.0)
    ensures r.fileMetrics == Some(FileMetrics("/tmp/a.jpg", Some(100), Some(200), 1024, "JPEG", None))
  {
    var s := new MetricsSession();
    s.StartColdStartTimer(0.0);
    coldStartTime := s.StopColdStartTimer(120.0);
    var store: FileStore := map["/tmp/a.jpg" := FileEntry(Some(1024), Some(Dimensions(100, 200)))];
    JpegFormat();
    r := s.RecordBenchmarkResult(Expo, Some("/tmp/a.jpg"), TimingOverrides(None, Some(85.0)), ms, host, store);
  }

  /** A photo that does not exist is still attached, as the zero-filled record. */
  method MissingPhotoScenario(host: HostPlatform, ms: int, uri: string) returns (r: BenchmarkResult)
    requires uri != []
    ensures r.fileMetrics == Some(MissingFileStats(uri))
    ensures r.testNumber == 1
  {
    var s := new MetricsSession();
    r := s.RecordBenchmarkResult(Native, Some(uri), NoOverrides, ms, host, map[]);
  }
}
