/**
 * The file inspector and the CSV exporter (app/utils/fileStats.ts).
 *
 * The file system and the image decoder are replaced by an abstract file store:
 * a URI that is not a key of the store is a file that does not exist (or whose
 * information could not be read); for an existing file the store gives the
 * size the file system reports, if any, and the outcome of the image-size
 * lookup, `None` when that lookup fails.
 */
module FileStats {
  import opened Wrappers
  import opened Text
  import opened Metrics

  datatype Dimensions = Dimensions(width: nat, height: nat)

  datatype FileEntry = FileEntry(size: Option<nat>, dimensions: Option<Dimensions>)

  type FileStore = map<string, FileEntry>

  // ---------------------------------------------------------------------------
  // getFileFormat
  // ---------------------------------------------------------------------------

  /**
   * `uri.split('.').pop()`: the text after the last '.', or the whole URI when
   * it has no '.'.
   */
  function Extension(uri: string): (ext: string)
    ensures |ext| <= |uri| && uri[|uri| - |ext|..] == ext
    ensures '.' !in ext
    ensures ext == uri <==> '.' !in uri
    ensures |ext| < |uri| ==> uri[|uri| - |ext| - 1] == '.'
  {
    LastPieceIsSuffix(uri, '.');
    Last(Split(uri, '.'))
  }

  /** The format label of a URI, decided by its lower-cased extension. */
  function GetFileFormat(uri: string): (format: string)
    ensures var ext := Lower(Extension(uri));
      && (format == "JPEG" <==> ext == "jpg" || ext == "jpeg")
      && (format == "HEIC" <==> ext == "heic")
      && (format == "PNG" <==> ext == "png")
      && (format == "unknown" <==> ext == [] || ext == "unknown")
      && (format !in {"JPEG", "HEIC", "PNG", "unknown"} ==> format == ext)
  {
    var ext := Lower(Extension(uri));
    assert ext != "JPEG" && ext != "HEIC" && ext != "PNG" by {
      if |ext| > 0 { assert !('A' <= ext[0] <= 'Z'); }
    }
    if ext == "jpg" || ext == "jpeg" then "JPEG"
    else if ext == "heic" then "HEIC"
    else if ext == "png" then "PNG"
    else if ext == [] then "unknown"
    else ext
  }

  /** The format of `base.ext` is decided by `ext` alone, whatever `base` holds. */
  lemma FormatOfNamedFile(base: string, ext: string)
    requires '.' !in ext
    ensures Extension(base + "." + ext) == ext
    ensures GetFileFormat(base + "." + ext) == GetFileFormat(ext)
  {
    LastPieceAfterSeparator(base, ext, '.');
    SplitNoSeparator(ext, '.');
  }

  // ---------------------------------------------------------------------------
  // getFileStats
  // ---------------------------------------------------------------------------

  /** The record returned when the file does not exist: zero-filled, never absent. */
  function MissingFileStats(uri: string): (stats: FileMetrics)
    ensures stats.uri == uri && stats.fileSize == 0 && stats.codec.None?
    ensures stats.HasDimensions() && stats.width.value == 0 && stats.height.value == 0
    ensures stats.format == GetFileFormat("")
  {
    FileMetrics(uri, Some(0), Some(0), 0, "unknown", None)
  }

  /**
   * `stats` is what inspecting `uri` against `store` resolves with: the
   * zero-filled record for a missing file; otherwise the URI, the reported size
   * (0 when none is reported), the format from the extension, and the
   * dimensions exactly when the image-size lookup succeeds.
   */
  predicate InspectionOf(store: FileStore, uri: string, stats: FileMetrics)
    ensures InspectionOf(store, uri, stats) ==>
      stats.uri == uri && (stats.width.Some? <==> stats.height.Some?)
    ensures InspectionOf(store, uri, stats) && uri in store ==>
      (stats.HasDimensions() <==> store[uri].dimensions.Some?)
  {
    if uri !in store then stats == MissingFileStats(uri)
    else
      var entry := store[uri];
      && stats.uri == uri
      && stats.fileSize == entry.size.GetOr(0)
      && stats.format == GetFileFormat(uri)
      && stats.codec.None?
      && (match entry.dimensions
          case Some(d) => stats.width == Some(d.width) && stats.height == Some(d.height)
          case None => stats.width.None? && stats.height.None?)
  }

  /**
   * `getFileStats(uri)`: never fails; a missing file yields the zero-filled
   * record, a failed image-size lookup only leaves the dimensions out.
   */
  method GetFileStats(store: FileStore, uri: string) returns (stats: FileMetrics)
    ensures InspectionOf(store, uri, stats)
    ensures stats.uri == uri
  {
    if uri !in store {
      // the file does not exist: the thrown error is caught by the outer handler
      return MissingFileStats(uri);
    }
    var info := store[uri];
    stats := FileMetrics(uri, None, None, if info.size.Some? then info.size.value else 0, GetFileFormat(uri), None);
    match info.dimensions {
      case Some(d) =>
        stats := stats.(width := Some(d.width));
        stats := stats.(height := Some(d.height));
      case None =>
        // the lookup failed: only a warning, the partial record is returned
    }
  }

  /** The inspection outcome is fully determined by the store and the URI. */
  lemma InspectionDeterministic(store: FileStore, uri: string, a: FileMetrics, b: FileMetrics)
    requires InspectionOf(store, uri, a) && InspectionOf(store, uri, b)
    ensures a == b
  {
  }

  // ---------------------------------------------------------------------------
  // exportResultsToCSV
  // ---------------------------------------------------------------------------

  /**
   * Renderings the runtime provides: `String(x)` of a duration and
   * `new Date(t).toISOString()` of a timestamp.
   */
  datatype Renderers = Renderers(number: real -> string, isoTimestamp: int -> string)

  const HeaderFields: seq<string> := [
    "Engine", "Test Number", "Cold Start (ms)", "Shutter Lag (ms)",
    "File Size (bytes)", "Resolution", "Format", "Timestamp"]

  const CsvHeader: string := Join(HeaderFields, ',')

  /** `value || ''` for an optional duration: empty when absent or zero. */
  function DurationCell(v: Option<real>, render: Renderers): (cell: string)
    ensures v.None? || v.value == 0.0 ==> cell == []
    ensures v.Some? && v.value != 0.0 ==> cell == render.number(v.value)
  {
    if v.Some? && v.value != 0.0 then render.number(v.value) else ""
  }

  /** `result.fileMetrics?.fileSize || ''`: empty without file metrics or for size 0. */
  function FileSizeCell(fm: Option<FileMetrics>): (cell: string)
    ensures cell == [] <==> fm.None? || fm.value.fileSize == 0
    ensures forall i :: 0 <= i < |cell| ==> IsDigit(cell[i])
    ensures cell != [] ==> DigitsValue(cell) == fm.value.fileSize
  {
    if fm.Some? && fm.value.fileSize != 0 then
      NatToStringRoundTrip(fm.value.fileSize);
      NatToString(fm.value.fileSize)
    else ""
  }

  /** `result.fileMetrics?.format || ''`. */
  function FormatCell(fm: Option<FileMetrics>): (cell: string)
    ensures cell == [] <==> fm.None? || fm.value.format == []
    ensures fm.Some? ==> cell == fm.value.format
  {
    if fm.Some? then fm.value.format else ""
  }

  /** How a template literal prints an optional number: absent reads "undefined". */
  function TemplateText(d: Option<nat>): string
  {
    match d
    case Some(n) => NatToString(n)
    case None => "undefined"
  }

  /**
   * The resolution cell as written: `${width}x${height}` whenever file metrics
   * are present, even when the dimensions are missing. It agrees with the
   * intended cell exactly when no file metrics are present or both dimensions
   * are known.
   */
  function ResolutionCellAsWritten(fm: Option<FileMetrics>): (cell: string)
    ensures cell == [] <==> fm.None?
    ensures cell == ResolutionCell(fm) <==> fm.None? || fm.value.HasDimensions()
  {
    match fm
    case Some(m) => TemplateText(m.width) + "x" + TemplateText(m.height)
    case None => ""
  }

  /** The resolution cell as intended: WIDTHxHEIGHT when both dimensions are known, else empty. */
  function ResolutionCell(fm: Option<FileMetrics>): (cell: string)
    ensures cell != [] <==> fm.Some? && fm.value.HasDimensions()
    ensures ',' !in cell && '\n' !in cell
  {
    if fm.Some? && fm.value.HasDimensions() then
      NatToString(fm.value.width.value) + "x" + NatToString(fm.value.height.value)
    else ""
  }

  /** A known resolution cell reads back as the two dimensions. */
  lemma ResolutionCellRoundTrip(m: FileMetrics)
    requires m.HasDimensions()
    ensures var parts := Split(ResolutionCell(Some(m)), 'x');
      && |parts| == 2
      && (forall i :: 0 <= i < |parts[0]| ==> IsDigit(parts[0][i]))
      && (forall i :: 0 <= i < |parts[1]| ==> IsDigit(parts[1][i]))
      && DigitsValue(parts[0]) == m.width.value
      && DigitsValue(parts[1]) == m.height.value
  {
    var w, h := NatToString(m.width.value), NatToString(m.height.value);
    assert 'x' !in w && 'x' !in h;
    assert Join([w, h], 'x') == ResolutionCell(Some(m)) by {
      assert [w, h][1..] == [h];
    }
    SplitJoin([w, h], 'x');
    NatToStringRoundTrip(m.width.value);
    NatToStringRoundTrip(m.height.value);
  }

  /**
   * The eight fields of one result's row, in column order. The resolution
   * column holds the intended cell, which differs from the program when an
   * image-size lookup failed (see `ResolutionCellAsWritten`).
   */
  function RowFields(r: BenchmarkResult, render: Renderers): (fields: seq<string>)
    ensures |fields| == |HeaderFields|
    ensures fields[0] == EngineLabel(r.engine)
    ensures (forall i :: 0 <= i < |fields[1]| ==> IsDigit(fields[1][i])) && DigitsValue(fields[1]) == r.testNumber
    ensures fields[7] == render.isoTimestamp(r.timingMetrics.measurementTimestamp)
  {
    NatToStringRoundTrip(r.testNumber);
    [ EngineLabel(r.engine),
      NatToString(r.testNumber),
      DurationCell(r.timingMetrics.coldStartTime, render),
      DurationCell(r.timingMetrics.shutterLagTime, render),
      FileSizeCell(r.fileMetrics),
      ResolutionCell(r.fileMetrics),
      FormatCell(r.fileMetrics),
      render.isoTimestamp(r.timingMetrics.measurementTimestamp) ]
  }

  /**
   * One data line: the fields joined by ',' with no quoting, so it holds the
   * seven separators plus every comma inside a field.
   */
  function CsvRow(r: BenchmarkResult, render: Renderers): (row: string)
    ensures CountChar(row, ',') == CountInAll(RowFields(r, render), ',') + 7
  {
    CountJoin(RowFields(r, render), ',');
    Join(RowFields(r, render), ',')
  }

  function CsvRows(results: seq<BenchmarkResult>, render: Renderers): (rows: seq<string>)
    ensures |rows| == |results|
  {
    seq(|results|, i requires 0 <= i < |results| => CsvRow(results[i], render))
  }

  /**
   * `exportResultsToCSV(results)`: nothing at all for no results, else header
   * and rows joined by '\n'. Its resolution column is the intended cell, so it
   * differs from the program for a photo whose image-size lookup failed.
   */
  function ExportResultsToCSV(results: seq<BenchmarkResult>, render: Renderers): (csv: string)
    ensures csv == [] <==> results == []
  {
    if results == [] then ""
    else
      assert |CsvHeader| > 0 by {
        assert HeaderFields[1..] != [];
        assert CsvHeader == HeaderFields[0] + [','] + Join(HeaderFields[1..], ',');
      }
      Join([CsvHeader] + CsvRows(results, render), '\n')
  }

  /** No column title holds a comma or a line break. */
  lemma HeaderFieldsFree()
    ensures AllFree(HeaderFields, ',') && AllFree(HeaderFields, '\n')
  {
    forall i | 0 <= i < |HeaderFields| ensures ',' !in HeaderFields[i] && '\n' !in HeaderFields[i] {
      if i == 0 { assert HeaderFields[i] == "Engine"; }
      else if i == 1 { assert HeaderFields[i] == "Test Number"; }
      else if i == 2 { assert HeaderFields[i] == "Cold Start (ms)"; }
      else if i == 3 { assert HeaderFields[i] == "Shutter Lag (ms)"; }
      else if i == 4 { assert HeaderFields[i] == "File Size (bytes)"; }
      else if i == 5 { assert HeaderFields[i] == "Resolution"; }
      else if i == 6 { assert HeaderFields[i] == "Format"; }
      else { assert HeaderFields[i] == "Timestamp"; }
    }
  }

  /** The header line splits into the eight fixed column titles. */
  lemma HeaderColumns()
    ensures Split(CsvHeader, ',') == HeaderFields
    ensures '\n' !in CsvHeader
  {
    HeaderFieldsFree();
    SplitJoin(HeaderFields, ',');
    JoinFree(HeaderFields, ',', '\n');
  }

  /**
   * A row has exactly the eight fields in column order if and only if no
   * field text contains a comma; otherwise it splits into more columns.
   */
  lemma RowColumns(r: BenchmarkResult, render: Renderers)
    ensures Split(CsvRow(r, render), ',') == RowFields(r, render) <==> AllFree(RowFields(r, render), ',')
    ensures |Split(CsvRow(r, render), ',')| == 8 <==> AllFree(RowFields(r, render), ',')
    ensures |Split(CsvRow(r, render), ',')| >= 8
  {
    SplitJoin(RowFields(r, render), ',');
    SplitJoinLength(RowFields(r, render), ',');
  }

  /**
   * Which cells of a row are empty: a duration that is absent or zero, a file
   * size that is absent or zero, a resolution without file metrics or without
   * both dimensions, and a format without file metrics or with an empty label.
   */
  lemma RowEmptyCells(r: BenchmarkResult, render: Renderers)
    ensures var f, t, fm := RowFields(r, render), r.timingMetrics, r.fileMetrics;
      && (t.coldStartTime.None? || t.coldStartTime.value == 0.0 ==> f[2] == [])
      && (t.coldStartTime.Some? && t.coldStartTime.value != 0.0 ==> f[2] == render.number(t.coldStartTime.value))
      && (t.shutterLagTime.None? || t.shutterLagTime.value == 0.0 ==> f[3] == [])
      && (t.shutterLagTime.Some? && t.shutterLagTime.value != 0.0 ==> f[3] == render.number(t.shutterLagTime.value))
      && (f[4] == [] <==> fm.None? || fm.value.fileSize == 0)
      && (f[4] != [] ==> DigitsValue(f[4]) == fm.value.fileSize)
      && (f[5] == [] <==> fm.None? || !fm.value.HasDimensions())
      && (f[6] == [] <==> fm.None? || fm.value.format == [])
  {
  }

  /** With comma-free fields, a row gives back the engine and the test number of its result. */
  lemma RowRecoversEngineAndTestNumber(r: BenchmarkResult, render: Renderers, e: Engine)
    requires AllFree(RowFields(r, render), ',')
    ensures var cols := Split(CsvRow(r, render), ',');
      && |cols| == 8
      && (cols[0] == EngineLabel(e) <==> r.engine == e)
      && (forall i :: 0 <= i < |cols[1]| ==> IsDigit(cols[1][i]))
      && DigitsValue(cols[1]) == r.testNumber
  {
    RowColumns(r, render);
    EngineLabelInjective(r.engine, e);
    NatToStringRoundTrip(r.testNumber);
  }

  /** Every field a result renders free of line breaks. */
  predicate LineSafe(results: seq<BenchmarkResult>, render: Renderers)
  {
    forall i :: 0 <= i < |results| ==> AllFree(RowFields(results[i], render), '\n')
  }

  /**
   * For a non-empty list, the lines of the export are the header followed by
   * one row per result in input order, with no trailing empty line.
   */
  lemma ExportLines(results: seq<BenchmarkResult>, render: Renderers)
    requires results != []
    requires LineSafe(results, render)
    ensures var lines := Split(ExportResultsToCSV(results, render), '\n');
      && |lines| == |results| + 1
      && lines[0] == CsvHeader
      && (forall i :: 0 <= i < |results| ==> lines[i + 1] == CsvRow(results[i], render))
      && Last(lines) != []
  {
    ExportSplitsBack(results, render);
    RowNotEmpty(results[|results| - 1], render);
  }

  /** Splitting a non-empty, line-safe export on '\n' gives the header and the rows back. */
  lemma ExportSplitsBack(results: seq<BenchmarkResult>, render: Renderers)
    requires results != []
    requires LineSafe(results, render)
    ensures Split(ExportResultsToCSV(results, render), '\n') == [CsvHeader] + CsvRows(results, render)
  {
    var rows := CsvRows(results, render);
    var all := [CsvHeader] + rows;
    HeaderColumns();
    forall i | 0 <= i < |rows| ensures '\n' !in rows[i] {
      RowLineFree(results[i], render);
    }
    assert AllFree(all, '\n');
    SplitJoin(all, '\n');
  }

  /** A row always holds its seven separators, so it is never empty. */
  lemma RowNotEmpty(r: BenchmarkResult, render: Renderers)
    ensures CsvRow(r, render) != []
  {
    assert CountChar(CsvRow(r, render), ',') >= 7;
  }

  /** A row whose fields hold no line break holds none itself. */
  lemma RowLineFree(r: BenchmarkResult, render: Renderers)
    requires AllFree(RowFields(r, render), '\n')
    ensures '\n' !in CsvRow(r, render)
  {
    JoinFree(RowFields(r, render), ',', '\n');
  }

  /** A file named `photo.a,b` gets the format label `a,b`. */
  lemma FormatWithComma()
    ensures GetFileFormat("photo.a,b") == "a,b"
  {
    FormatOfNamedFile("photo", "a,b");
    assert "photo" + "." + "a,b" == "photo.a,b";
    var ext := Extension("a,b");
    assert ext == "a,b";
    var low := Lower(ext);
    assert low[0] == 'a' && low[1] == ',' && low[2] == 'b';
    assert low == "a,b";
  }

  /**
   * Lower-casing keeps commas, and no fixed label holds one, so a comma in a
   * file's extension always reaches its format label.
   */
  lemma CommaSurvivesFormat(uri: string)
    requires ',' in Extension(uri)
    ensures ',' in GetFileFormat(uri)
  {
    var ext := Extension(uri);
    LowerKeepsNonLetters(ext, ',');
    var low := Lower(ext);
    assert low != [];
    assert low != "jpg" && low != "jpeg" && low != "heic" && low != "png" && low != "unknown";
  }

  /**
   * Comma-joined fields are not escaped: a format label holding a comma (as
   * `FormatWithComma` shows one can) leaves the row with more than eight columns.
   */
  lemma CommaInFormatBreaksRow(r: BenchmarkResult, render: Renderers)
    requires r.fileMetrics.Some? && ',' in r.fileMetrics.value.format
    ensures |Split(CsvRow(r, render), ',')| > 8
  {
    var fields := RowFields(r, render);
    assert ',' in fields[6];
    assert !AllFree(fields, ',');
    RowColumns(r, render);
  }

  /**
   * As written, a photo whose image-size lookup failed is exported with the
   * resolution "undefinedxundefined"; the intended cell is empty.
   */
  lemma FailedSizeLookupResolution(store: FileStore, uri: string, stats: FileMetrics)
    requires uri in store && store[uri].dimensions.None?
    requires InspectionOf(store, uri, stats)
    ensures ResolutionCellAsWritten(Some(stats)) == "undefinedxundefined"
    ensures ResolutionCell(Some(stats)) == ""
  {
  }
}
