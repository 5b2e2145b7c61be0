/**
 * The record types shared by the metrics session, the file inspector and the
 * CSV exporter (app/types/metrics.ts).
 */
module Metrics {
  import opened Wrappers

  /** The closed set of capture engines under comparison. */
  datatype Engine = Native | Expo | Vision

  /** The string value behind each enum member; it is what the CSV export prints. */
  function EngineLabel(e: Engine): (name: string)
    ensures |name| > 0 && ',' !in name && '\n' !in name
  {
    match e
    case Native => "Native"
    case Expo => "ExpoCamera"
    case Vision => "VisionCamera"
  }

  /** Distinct engines carry distinct labels, so a label identifies its engine. */
  lemma EngineLabelInjective(a: Engine, b: Engine)
    ensures EngineLabel(a) == EngineLabel(b) <==> a == b
  {
  }

  /** Durations in milliseconds; the timestamp is always set, the durations may be absent. */
  datatype TimingMetrics = TimingMetrics(
    coldStartTime: Option<real>,
    shutterLagTime: Option<real>,
    measurementTimestamp: int)

  /**
   * What the file inspector reports for a photo. The declared interface makes
   * width and height mandatory, but the value the session stores is the
   * inspector's partial record cast to this type, and that record lacks both
   * dimensions when the image-size lookup fails; so they are optional here.
   */
  datatype FileMetrics = FileMetrics(
    uri: string,
    width: Option<nat>,
    height: Option<nat>,
    fileSize: nat,
    format: string,
    codec: Option<string>)
  {
    /** True when the record has the full shape the declared interface promises. */
    predicate HasDimensions() {
      width.Some? && height.Some?
    }
  }

  datatype DeviceInfo = DeviceInfo(platform: string, model: Option<string>, osVersion: Option<string>)

  /** One trial. */
  datatype BenchmarkResult = BenchmarkResult(
    engine: Engine,
    timingMetrics: TimingMetrics,
    fileMetrics: Option<FileMetrics>,
    testNumber: nat,
    deviceInfo: DeviceInfo)

  /** The session fields grouped with the engine being exercised. */
  datatype BenchmarkState = BenchmarkState(
    currentEngine: Engine,
    isCapturing: bool,
    results: seq<BenchmarkResult>,
    currentTestNumber: nat)
}
