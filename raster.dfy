/**
 * The nearest-cell copy of a raster onto a new grid (`Raster::Copy`), the
 * argument checks and type dispatch of the bilinear resampler
 * (`Raster::ReSample`), and the cleaner applied to each cell of a CSV file
 * (`Raster::CSVCellClean`).
 *
 * GDAL is outside the model. The band of the input file is an in-memory
 * grid of values; whether the file opens, whether the driver creates the
 * output and whether it accepts the nodata value are parameters
 * (`Environment`); the created output is a header value, and the rows the
 * engine writes are a log of (row index, cells) entries in write order.
 */
module Raster {
  import opened Base
  import opened RasterTypes
  import opened Interface

  /**
   * Band 1 of the input raster as the raster object knows it: the
   * geotransform (origin x, cell width, 0, origin y, 0, cell height), the
   * cells row by row, the row width, the pixel type, the nodata value with
   * its presence flag, and the projection.
   */
  datatype Band = Band(
    transform: seq<real>, grid: seq<seq<real>>, xSize: nat,
    dataType: DataType, hasNoData: bool, noData: real, projection: string)
  {
    predicate Valid()
    {
      |transform| == 6 && forall r :: 0 <= r < |grid| ==> |grid[r]| == xSize
    }
  }

  /** What the outside world answers: does the input open, does the driver create the output, does it accept the nodata value. */
  datatype Environment = Environment(inputOpens: bool, createSucceeds: bool, setNoDataSucceeds: bool)

  /**
   * The output dataset as far as the engine has set it up: driver and
   * creation options, size, pixel type, the nodata value it was given (if
   * any), the geotransform (empty until set) and the projection.
   */
  datatype CreatedDataset = CreatedDataset(
    driver: Driver, options: seq<(string, string)>, cols: int, rows: int, dataType: DataType,
    noData: Option<real>, transform: seq<real>, projection: string)

  /** One write of a whole output row: the row index and its cells. */
  datatype RowWrite = RowWrite(row: int, cells: seq<real>)

  /** Everything `Copy` leaves behind: its return (or exception), the output it created, and the rows it wrote. */
  datatype CopyResult = CopyResult(outcome: Outcome, created: Option<CreatedDataset>, log: seq<RowWrite>)

  /**
   * The checks on the target extent, in order: left, top, rows, columns,
   * each with its own code. `None` means every check passed.
   */
  function ValidateExtent(left: real, top: real, nRows: int, nCols: int): (r: Option<ReturnCode>)
    ensures r == None <==> left > 0.0 && top > 0.0 && nRows > 0 && nCols > 0
    ensures r == Some(LeftError) <==> left <= 0.0
    ensures r == Some(TopError) <==> left > 0.0 && top <= 0.0
    ensures r == Some(RowsError) <==> left > 0.0 && top > 0.0 && nRows <= 0
    ensures r == Some(ColsError) <==> left > 0.0 && top > 0.0 && nRows > 0 && nCols <= 0
  {
    if left <= 0.0 then Some(LeftError)
    else if top <= 0.0 then Some(TopError)
    else if nRows <= 0 then Some(RowsError)
    else if nCols <= 0 then Some(ColsError)
    else None
  }

  /**
   * The output driver from the output file name: no extension is one
   * error, an extension other than exactly ".tif" or ".img" another. It
   * accepts exactly the names `GetDriverFromFilename` accepts, with the
   * same driver.
   */
  function SelectOutputDriver(outputName: string): (r: Result<Driver, ReturnCode>)
    ensures r == Err(OutputFileExtError) <==> '.' !in outputName
    ensures r.Err? ==> r.error == OutputFileExtError || r.error == OutputUnhandledDriver
    ensures r.Ok? <==> GetDriverFromFilename(outputName).Some?
    ensures r.Ok? ==> GetDriverFromFilename(outputName) == Some(r.value)
  {
    FileExtensionIsLastDot(outputName);
    match FileExtension(outputName)
    case None => Err(OutputFileExtError)
    case Some(ext) =>
      if ext == ".tif" then Ok(GTiff)
      else if ext == ".img" then Ok(HFA)
      else Err(OutputUnhandledDriver)
  }

  /** Creation options: LZW compression with the floating-point predictor for GeoTIFF, none for HFA. */
  function CreationOptions(driver: Driver): seq<(string, string)>
  {
    match driver
    case GTiff => [("COMPRESS", "LZW"), ("PREDICTOR", "3")]
    case HFA => []
  }

  /** The north-up geotransform of the output: origin (left, top), square cells of `cellSize`. */
  function OutputTransform(left: real, top: real, cellSize: real): seq<real>
  {
    [left, cellSize, 0.0, top, 0.0, -1.0 * cellSize]
  }

  /** How far the output is set up: failed (with what was created by then), or ready to be filled. */
  datatype Prepared = Failed(code: ReturnCode, created: Option<CreatedDataset>) | Ready(header: CreatedDataset)

  /**
   * The steps `Copy` and `ReSample` share after validation: open the
   * input, pick the driver, create the output, give it the nodata value
   * when the input has one, set its geotransform and projection.
   */
  function PrepareOutput(band: Band, env: Environment, outputName: string,
                         cellSize: real, left: real, top: real, nRows: int, nCols: int): (p: Prepared)
    ensures p.Ready? ==>
      && p.header.transform == OutputTransform(left, top, cellSize)
      && p.header.cols == nCols && p.header.rows == nRows
      && p.header.dataType == band.dataType
      && p.header.projection == band.projection
      && (p.header.noData.Some? <==> band.hasNoData)
      && (band.hasNoData ==> p.header.noData == Some(band.noData))
      && SelectOutputDriver(outputName) == Ok(p.header.driver)
    ensures p.Ready? <==> env.inputOpens && SelectOutputDriver(outputName).Ok? && env.createSucceeds
                          && (band.hasNoData ==> env.setNoDataSucceeds)
    ensures p.Failed? && p.created.Some? ==> p.code == OutputNoDataError
    ensures !env.inputOpens ==> p == Failed(InputFileError, None)
    ensures env.inputOpens && SelectOutputDriver(outputName).Err? ==>
      p == Failed(SelectOutputDriver(outputName).error, None)
    ensures env.inputOpens && SelectOutputDriver(outputName).Ok? && !env.createSucceeds ==>
      p == Failed(OutputFileError, None)
    ensures env.inputOpens && SelectOutputDriver(outputName).Ok? && env.createSucceeds
            && band.hasNoData && !env.setNoDataSucceeds ==>
      var driver := SelectOutputDriver(outputName).value;
      p == Failed(OutputNoDataError,
                  Some(CreatedDataset(driver, CreationOptions(driver), nCols, nRows, band.dataType, None, [], "")))
  {
    if !env.inputOpens then Failed(InputFileError, None)
    else match SelectOutputDriver(outputName)
      case Err(code) => Failed(code, None)
      case Ok(driver) =>
        if !env.createSucceeds then Failed(OutputFileError, None)
        else
          var header := CreatedDataset(driver, CreationOptions(driver), nCols, nRows, band.dataType, None, [], "");
          if band.hasNoData && !env.setNoDataSucceeds then Failed(OutputNoDataError, Some(header))
          else
            var header' := if band.hasNoData then header.(noData := Some(band.noData)) else header;
            Ready(header'.(transform := OutputTransform(left, top, cellSize), projection := band.projection))
  }

  /** The source row offset: the distance between the origins in source cell heights, truncated. */
  function RowOffset(band: Band, top: real): int
    requires band.Valid() && band.transform[5] != 0.0
  {
    Trunc((top - band.transform[3]) / band.transform[5])
  }

  /** The source column offset: the distance between the origins in NEW cell sizes, truncated. */
  function ColOffset(band: Band, left: real, newCellSize: real): int
    requires band.Valid() && newCellSize != 0.0
  {
    Trunc((left - band.transform[0]) / newCellSize)
  }

  /**
   * Output cell (i, j): the source cell it maps to when both the source
   * row and column exist; in an existing row, a missing column gives the
   * nodata value when there is one and 0 otherwise; a missing row gives
   * the nodata value in every column.
   */
  function CopiedCell(band: Band, newCellSize: real, left: real, top: real, i: int, j: int): real
    requires band.Valid() && band.transform[5] != 0.0 && newCellSize != 0.0
  {
    var oldRow := i + RowOffset(band, top);
    if 0 <= oldRow < |band.grid| then
      var oldCol := j + ColOffset(band, left, newCellSize);
      if 0 <= oldCol < band.xSize then band.grid[oldRow][oldCol]
      else if band.hasNoData then band.noData
      else 0.0
    else band.noData
  }

  function CopiedRow(band: Band, newCellSize: real, left: real, top: real, i: int, nCols: nat): seq<real>
    requires band.Valid() && band.transform[5] != 0.0 && newCellSize != 0.0
  {
    seq(nCols, j => CopiedCell(band, newCellSize, left, top, i, j))
  }

  /** The rows `Copy` writes, in write order. */
  function CopiedRows(band: Band, newCellSize: real, left: real, top: real, nRows: nat, nCols: nat): seq<RowWrite>
    requires band.Valid() && band.transform[5] != 0.0 && newCellSize != 0.0
  {
    seq(nRows, i => RowWrite(i, CopiedRow(band, newCellSize, left, top, i, nCols)))
  }

  /** The whole effect of `Copy`, step by step. */
  function CopyRun(band: Band, env: Environment, outputName: string,
                   newCellSize: real, left: real, top: real, nRows: int, nCols: int): CopyResult
    requires band.Valid() && band.transform[5] != 0.0 && newCellSize != 0.0
  {
    match ValidateExtent(left, top, nRows, nCols)
    case Some(code) => CopyResult(Returned(code), None, [])
    case None =>
      match PrepareOutput(band, env, outputName, newCellSize, left, top, nRows, nCols)
      case Failed(code, created) => CopyResult(Returned(code), created, [])
      case Ready(header) =>
        if !IsHandledType(band.dataType) then CopyResult(Threw(RuntimeError), Some(header), [])
        else CopyResult(Returned(ProcessOk), Some(header), CopiedRows(band, newCellSize, left, top, nRows, nCols))
  }

  /**
   * The set-up steps of `Copy` after validation: open the input, pick the
   * driver from the output extension, create the output, give it the
   * input's nodata and the new geotransform and projection.
   */
  method CopyPrepare(band: Band, env: Environment, outputName: string,
                     newCellSize: real, left: real, top: real, nRows: int, nCols: int)
    returns (prepared: Prepared)
    ensures prepared == PrepareOutput(band, env, outputName, newCellSize, left, top, nRows, nCols)
  {
    if !env.inputOpens {
      return Failed(InputFileError, None);
    }
    var suffix := ExtractFileExt(outputName);
    var driver: Driver;
    if suffix.None? {
      return Failed(OutputFileExtError, None);
    } else if suffix.value == ".tif" {
      driver := GTiff;
    } else if suffix.value == ".img" {
      driver := HFA;
    } else {
      return Failed(OutputUnhandledDriver, None);
    }
    if !env.createSucceeds {
      return Failed(OutputFileError, None);
    }
    var header := CreatedDataset(driver, CreationOptions(driver), nCols, nRows, band.dataType, None, [], "");
    if band.hasNoData {
      if !env.setNoDataSucceeds {
        return Failed(OutputNoDataError, Some(header));
      }
      header := header.(noData := Some(band.noData));
    }
    var newTransform := new real[6];
    newTransform[0], newTransform[1], newTransform[2] := left, newCellSize, 0.0;
    newTransform[3], newTransform[4], newTransform[5] := top, 0.0, -1.0 * newCellSize;
    assert newTransform[..] == OutputTransform(left, top, newCellSize);
    return Ready(header.(transform := newTransform[..], projection := band.projection));
  }

  /** One pass of the row loop of `Copy`: fills the output line for output row `i`. */
  method CopyRow(band: Band, newCellSize: real, left: real, top: real, i: int, outputLine: array<real>)
    requires band.Valid() && band.transform[5] != 0.0 && newCellSize != 0.0
    modifies outputLine
    ensures outputLine[..] == CopiedRow(band, newCellSize, left, top, i, outputLine.Length)
  {
    var nCols := outputLine.Length;
    var oldRow := i + Trunc((top - band.transform[3]) / band.transform[5]);
    var j := 0;
    if oldRow >= 0 && oldRow < |band.grid| {
      var inputLine := band.grid[oldRow];
      while j < nCols
        invariant 0 <= j <= nCols
        invariant forall k :: 0 <= k < j ==> outputLine[k] == CopiedCell(band, newCellSize, left, top, i, k)
      {
        var oldCol := j + Trunc((left - band.transform[0]) / newCellSize);
        if oldCol >= 0 && oldCol < band.xSize {
          outputLine[j] := inputLine[oldCol];
        } else if band.hasNoData {
          outputLine[j] := band.noData;
        } else {
          outputLine[j] := 0.0;
        }
        j := j + 1;
      }
    } else {
      while j < nCols
        invariant 0 <= j <= nCols
        invariant forall k :: 0 <= k < j ==> outputLine[k] == CopiedCell(band, newCellSize, left, top, i, k)
      {
        outputLine[j] := band.noData;
        j := j + 1;
      }
    }
  }

  /**
   * `Raster::Copy`: copies the raster onto a grid of `nRows` x `nCols`
   * cells of `newCellSize` with origin (`left`, `top`), cell by cell from
   * the source cell each output cell falls on, filling one output line and
   * writing it row by row.
   */
  method Copy(band: Band, env: Environment, outputName: string,
              newCellSize: real, left: real, top: real, nRows: int, nCols: int)
    returns (outcome: Outcome, created: Option<CreatedDataset>, log: seq<RowWrite>)
    requires band.Valid() && band.transform[5] != 0.0 && newCellSize != 0.0
    ensures CopyResult(outcome, created, log) == CopyRun(band, env, outputName, newCellSize, left, top, nRows, nCols)
  {
    created, log := None, [];
    if left <= 0.0 {
      return Returned(LeftError), created, log;
    }
    if top <= 0.0 {
      return Returned(TopError), created, log;
    }
    if nRows <= 0 {
      return Returned(RowsError), created, log;
    }
    if nCols <= 0 {
      return Returned(ColsError), created, log;
    }
    var prepared := CopyPrepare(band, env, outputName, newCellSize, left, top, nRows, nCols);
    if prepared.Failed? {
      return Returned(prepared.code), prepared.created, log;
    }
    created := Some(prepared.header);
    if !IsHandledType(band.dataType) {
      return Threw(RuntimeError), created, log;
    }

    var outputLine := new real[nCols];
    var i := 0;
    while i < nRows
      invariant 0 <= i <= nRows
      invariant |log| == i
      invariant forall k :: 0 <= k < i ==> log[k] == RowWrite(k, CopiedRow(band, newCellSize, left, top, k, nCols))
    {
      CopyRow(band, newCellSize, left, top, i, outputLine);
      log := log + [RowWrite(i, outputLine[..])];
      i := i + 1;
    }
    assert log == CopiedRows(band, newCellSize, left, top, nRows, nCols);
    outcome := Returned(ProcessOk);
  }

  /**
   * The checks come first and in order, before any file is opened: with a
   * failing check the outcome is that check's code whatever the files do,
   * and nothing is created or written.
   */
  lemma CopyValidatesFirst(band: Band, env: Environment, outputName: string,
                           newCellSize: real, left: real, top: real, nRows: int, nCols: int)
    requires band.Valid() && band.transform[5] != 0.0 && newCellSize != 0.0
    requires left <= 0.0 || top <= 0.0 || nRows <= 0 || nCols <= 0
    ensures var r := CopyRun(band, env, outputName, newCellSize, left, top, nRows, nCols);
      r.created == None && r.log == []
      && r.outcome == Returned(if left <= 0.0 then LeftError else if top <= 0.0 then TopError
                               else if nRows <= 0 then RowsError else ColsError)
  {
  }

  /** The output file name decides the errors after the input opens: no '.' at all, or an extension other than ".tif"/".img". */
  lemma CopyOutputExtensionErrors(band: Band, env: Environment, outputName: string,
                                  newCellSize: real, left: real, top: real, nRows: int, nCols: int)
    requires band.Valid() && band.transform[5] != 0.0 && newCellSize != 0.0
    requires ValidateExtent(left, top, nRows, nCols) == None && env.inputOpens
    ensures '.' !in outputName ==>
      CopyRun(band, env, outputName, newCellSize, left, top, nRows, nCols).outcome == Returned(OutputFileExtError)
    ensures '.' in outputName && GetDriverFromFilename(outputName) == None ==>
      CopyRun(band, env, outputName, newCellSize, left, top, nRows, nCols).outcome == Returned(OutputUnhandledDriver)
  {
  }

  /**
   * A copy that completes writes exactly `nRows` rows, row `i` as the
   * `i`-th write, each of `nCols` cells, into an output whose geotransform
   * is north-up at the new cell size from (`left`, `top`).
   */
  lemma CopyWritesEveryRowOnce(band: Band, env: Environment, outputName: string,
                               newCellSize: real, left: real, top: real, nRows: int, nCols: int)
    requires band.Valid() && band.transform[5] != 0.0 && newCellSize != 0.0
    requires CopyRun(band, env, outputName, newCellSize, left, top, nRows, nCols).outcome == Returned(ProcessOk)
    ensures var r := CopyRun(band, env, outputName, newCellSize, left, top, nRows, nCols);
      |r.log| == nRows
      && (forall i :: 0 <= i < nRows ==> r.log[i].row == i && |r.log[i].cells| == nCols)
      && r.created.Some? && r.created.value.transform == [left, newCellSize, 0.0, top, 0.0, -newCellSize]
  {
  }

  /** Where the source row and column both exist, the output cell is the source cell exactly. */
  lemma CopyInBoundsCell(band: Band, newCellSize: real, left: real, top: real, nRows: nat, nCols: nat, i: int, j: int)
    requires band.Valid() && band.transform[5] != 0.0 && newCellSize != 0.0
    requires 0 <= i < nRows && 0 <= j < nCols
    requires 0 <= i + RowOffset(band, top) < |band.grid|
    requires 0 <= j + ColOffset(band, left, newCellSize) < band.xSize
    ensures CopiedRows(band, newCellSize, left, top, nRows, nCols)[i].cells[j]
            == band.grid[i + RowOffset(band, top)][j + ColOffset(band, left, newCellSize)]
  {
  }

  /** In a row that exists in the source, a column that does not gets the nodata value when there is one, else 0. */
  lemma CopyOutOfBoundsColumn(band: Band, newCellSize: real, left: real, top: real, nRows: nat, nCols: nat, i: int, j: int)
    requires band.Valid() && band.transform[5] != 0.0 && newCellSize != 0.0
    requires 0 <= i < nRows && 0 <= j < nCols
    requires 0 <= i + RowOffset(band, top) < |band.grid|
    requires !(0 <= j + ColOffset(band, left, newCellSize) < band.xSize)
    ensures CopiedRows(band, newCellSize, left, top, nRows, nCols)[i].cells[j]
            == (if band.hasNoData then band.noData else 0.0)
  {
  }

  /** A row that does not exist in the source is nodata in every column, whether or not the flag is set. */
  lemma CopyOutOfBoundsRow(band: Band, newCellSize: real, left: real, top: real, nRows: nat, nCols: nat, i: int)
    requires band.Valid() && band.transform[5] != 0.0 && newCellSize != 0.0
    requires 0 <= i < nRows
    requires !(0 <= i + RowOffset(band, top) < |band.grid|)
    ensures forall j :: 0 <= j < nCols ==> CopiedRows(band, newCellSize, left, top, nRows, nCols)[i].cells[j] == band.noData
  {
  }

  /**
   * Copying onto the source's own origin and size reproduces the source
   * grid cell for cell, whatever the new cell size.
   */
  lemma {:induction false} CopyIdentity(band: Band, newCellSize: real)
    requires band.Valid() && band.transform[5] != 0.0 && newCellSize != 0.0
    ensures var rows := CopiedRows(band, newCellSize, band.transform[0], band.transform[3], |band.grid|, band.xSize);
      forall i :: 0 <= i < |band.grid| ==> rows[i].cells == band.grid[i]
  {
    assert RowOffset(band, band.transform[3]) == 0 by {
      assert (band.transform[3] - band.transform[3]) / band.transform[5] == 0.0;
    }
    assert ColOffset(band, band.transform[0], newCellSize) == 0 by {
      assert (band.transform[0] - band.transform[0]) / newCellSize == 0.0;
    }
    var rows := CopiedRows(band, newCellSize, band.transform[0], band.transform[3], |band.grid|, band.xSize);
    forall i | 0 <= i < |band.grid|
      ensures rows[i].cells == band.grid[i]
    {
      assert |rows[i].cells| == |band.grid[i]|;
      forall j | 0 <= j < band.xSize
        ensures rows[i].cells[j] == band.grid[i][j]
      {
      }
    }
  }

  /**
   * The column offset is measured in the new cell size: the source's own
   * cell width (transform[1]) plays no part in what is copied.
   */
  lemma CopyIgnoresSourceCellWidth(band: Band, w: real, newCellSize: real, left: real, top: real, nRows: nat, nCols: nat)
    requires band.Valid() && band.transform[5] != 0.0 && newCellSize != 0.0
    ensures var other := band.(transform := band.transform[1 := w]);
      other.Valid() && CopiedRows(other, newCellSize, left, top, nRows, nCols)
                       == CopiedRows(band, newCellSize, left, top, nRows, nCols)
  {
    var other := band.(transform := band.transform[1 := w]);
    assert RowOffset(other, top) == RowOffset(band, top);
    assert ColOffset(other, left, newCellSize) == ColOffset(band, left, newCellSize);
    forall i | 0 <= i < nRows
      ensures CopiedRow(other, newCellSize, left, top, i, nCols) == CopiedRow(band, newCellSize, left, top, i, nCols)
    {
      forall j | 0 <= j < nCols
        ensures CopiedCell(other, newCellSize, left, top, i, j) == CopiedCell(band, newCellSize, left, top, i, j)
      {
      }
    }
  }

  /** The bilinear routine `ReSample` hands the work to, by pixel type. */
  datatype ReSampleRoutine = ReSampleFloat32 | ReSampleFloat64

  /** What `ReSample` returns, the output it created and the routine it called. */
  datatype ReSampleResult = ReSampleResult(code: ReturnCode, created: Option<CreatedDataset>, routine: Option<ReSampleRoutine>)

  /**
   * `Raster::ReSample`, without the interpolation itself: the cell size is
   * checked before the extent; then the output is prepared like `Copy`'s;
   * Byte, Int16, Int32 and Float32 go to the float32 routine and Float64 to
   * the float64 routine. For any other pixel type the exception object is
   * built but not thrown, so the call reports success having called no
   * routine.
   */
  function ReSample(band: Band, env: Environment, outputName: string, newCellSize: real,
                    newLeft: real, newTop: real, nNewRows: int, nNewCols: int): (r: ReSampleResult)
    ensures newCellSize <= 0.0 ==> r == ReSampleResult(CellSizeError, None, None)
    ensures newCellSize > 0.0 && ValidateExtent(newLeft, newTop, nNewRows, nNewCols).Some? ==>
      r == ReSampleResult(ValidateExtent(newLeft, newTop, nNewRows, nNewCols).value, None, None)
    ensures r.routine.Some? ==> r.code == ProcessOk && IsHandledType(band.dataType)
    ensures r.routine == Some(ReSampleFloat64) <==> r.code == ProcessOk && band.dataType == Float64
    ensures r.routine == Some(ReSampleFloat32) <==> r.code == ProcessOk && band.dataType in {Byte, Int16, Int32, Float32}
    ensures r.code == ProcessOk <==> newCellSize > 0.0 && ValidateExtent(newLeft, newTop, nNewRows, nNewCols).None?
                                     && PrepareOutput(band, env, outputName, newCellSize, newLeft, newTop, nNewRows, nNewCols).Ready?
    ensures newCellSize > 0.0 && ValidateExtent(newLeft, newTop, nNewRows, nNewCols).None? ==>
      var p := PrepareOutput(band, env, outputName, newCellSize, newLeft, newTop, nNewRows, nNewCols);
      && r.code == (if p.Ready? then ProcessOk else p.code)
      && r.created == (if p.Ready? then Some(p.header) else p.created)
  {
    if newCellSize <= 0.0 then ReSampleResult(CellSizeError, None, None)
    else match ValidateExtent(newLeft, newTop, nNewRows, nNewCols)
      case Some(code) => ReSampleResult(code, None, None)
      case None =>
        match PrepareOutput(band, env, outputName, newCellSize, newLeft, newTop, nNewRows, nNewCols)
        case Failed(code, created) => ReSampleResult(code, created, None)
        case Ready(header) =>
          var routine := match band.dataType
            case Byte => Some(ReSampleFloat32)
            case Int32 => Some(ReSampleFloat32)
            case Int16 => Some(ReSampleFloat32)
            case Float32 => Some(ReSampleFloat32)
            case Float64 => Some(ReSampleFloat64)
            case _ => None;
          ReSampleResult(ProcessOk, Some(header), routine)
  }

  /** With everything else in order, an unhandled pixel type still reports success, and nothing is resampled. */
  lemma ReSampleUnhandledTypeReportsSuccess(band: Band, outputName: string, newCellSize: real,
                                            newLeft: real, newTop: real, nNewRows: int, nNewCols: int)
    requires !IsHandledType(band.dataType)
    requires newCellSize > 0.0 && newLeft > 0.0 && newTop > 0.0 && nNewRows > 0 && nNewCols > 0
    requires GetDriverFromFilename(outputName).Some?
    ensures var r := ReSample(band, Environment(true, true, true), outputName, newCellSize,
                              newLeft, newTop, nNewRows, nNewCols);
      r.code == ProcessOk && r.routine == None && r.created.Some?
  {
  }

  /**
   * `ReSample` with the exception for an unhandled pixel type thrown rather
   * than only constructed: every other path is unchanged, and a reported
   * success always means a resampling routine ran.
   */
  function ReSampleCorrected(band: Band, env: Environment, outputName: string, newCellSize: real,
                             newLeft: real, newTop: real, nNewRows: int, nNewCols: int): (r: Result<ReSampleResult, Exception>)
    ensures r.Err? <==>
      ReSample(band, env, outputName, newCellSize, newLeft, newTop, nNewRows, nNewCols).code == ProcessOk
      && !IsHandledType(band.dataType)
    ensures r.Err? ==> r.error == RuntimeError
    ensures r.Ok? ==> r.value == ReSample(band, env, outputName, newCellSize, newLeft, newTop, nNewRows, nNewCols)
    ensures r.Ok? && r.value.code == ProcessOk ==> r.value.routine.Some?
  {
    var written := ReSample(band, env, outputName, newCellSize, newLeft, newTop, nNewRows, nNewCols);
    if written.code == ProcessOk && !IsHandledType(band.dataType) then Err(RuntimeError) else Ok(written)
  }

  /*
   * CSV cell cleaning.
   */

  /** `s` without its trailing run of `c`. */
  function TrimEnd(s: string, c: char): string
  {
    if |s| > 0 && s[|s| - 1] == c then TrimEnd(s[..|s| - 1], c) else s
  }

  /** `s` without its leading run of `c`. */
  function TrimStart(s: string, c: char): string
  {
    if |s| > 0 && s[0] == c then TrimStart(s[1..], c) else s
  }

  /** `s` without its leading and trailing runs of `c`. */
  function Trim(s: string, c: char): string
  {
    TrimStart(TrimEnd(s, c), c)
  }

  /** The trailing run removed is all `c`, and what is left does not end in `c`. */
  lemma {:induction false} TrimEndShape(s: string, c: char)
    ensures var t := TrimEnd(s, c);
      |t| <= |s| && t == s[..|t|] && (|t| > 0 ==> t[|t| - 1] != c)
      && forall k :: |t| <= k < |s| ==> s[k] == c
    decreases |s|
  {
    if |s| > 0 && s[|s| - 1] == c {
      var s' := s[..|s| - 1];
      TrimEndShape(s', c);
      var t := TrimEnd(s', c);
      assert TrimEnd(s, c) == t;
      assert t == s'[..|t|] == s[..|t|];
    }
  }

  /** The leading run removed is all `c`, and what is left does not start with `c`. */
  lemma {:induction false} TrimStartShape(s: string, c: char)
    ensures var t := TrimStart(s, c);
      |t| <= |s| && t == s[|s| - |t|..] && (|t| > 0 ==> t[0] != c)
      && forall k :: 0 <= k < |s| - |t| ==> s[k] == c
    decreases |s|
  {
    if |s| > 0 && s[0] == c {
      TrimStartShape(s[1..], c);
      var t := TrimStart(s[1..], c);
      assert t == s[1..][|s| - 1 - |t|..] == s[|s| - |t|..];
    }
  }

  /**
   * Trimming keeps a contiguous piece of `s` that neither starts nor ends
   * with `c`; it is empty exactly when `s` is nothing but `c`.
   */
  lemma {:induction false} TrimShape(s: string, c: char)
    ensures var t := Trim(s, c); var i := |TrimEnd(s, c)| - |t|;
      (0 <= i <= |s| - |t| && s[i..i + |t|] == t)
      && (|t| > 0 ==> t[0] != c && t[|t| - 1] != c)
      && (|t| == 0 <==> forall k :: 0 <= k < |s| ==> s[k] == c)
  {
    var e := TrimEnd(s, c);
    TrimEndShape(s, c);
    TrimStartShape(e, c);
    var t := Trim(s, c);
    var i := |e| - |t|;
    assert s[i..i + |t|] == e[i..] == t;
    if |t| > 0 {
      assert t[|t| - 1] == e[|e| - 1];
    }
    if |t| == 0 {
      assert |e| == 0;
    } else {
      assert s[i] == t[0] != c;
    }
  }

  /** Trimming twice is trimming once. */
  lemma TrimIdempotent(s: string, c: char)
    ensures Trim(Trim(s, c), c) == Trim(s, c)
  {
    var t := Trim(s, c);
    TrimShape(s, c);
    if |t| > 0 {
      assert TrimEnd(t, c) == t;
      assert TrimStart(t, c) == t;
    }
  }

  /**
   * Strips the runs of `c` at both ends of `value`, as the two halves of
   * `CSVCellClean` do: find the last character that is not `c` and erase
   * after it; if there is none, erase everything; otherwise find the first
   * character that is not `c` and erase before it.
   */
  method StripInPlace(value: string, c: char) returns (r: string)
    ensures r == Trim(value, c)
  {
    r := value;
    var pos := |r| - 1;
    assert r[..pos + 1] == r;
    while pos >= 0 && r[pos] == c
      invariant -1 <= pos < |r|
      invariant TrimEnd(r, c) == TrimEnd(r[..pos + 1], c)
      decreases pos + 1
    {
      assert r[..pos + 1][..pos] == r[..pos];
      pos := pos - 1;
    }
    if pos >= 0 {
      r := r[..pos + 1];
      assert TrimEnd(r, c) == r;
      assert Trim(value, c) == TrimStart(r, c);
      var first := 0;
      while first < |r| && r[first] == c
        invariant 0 <= first <= |r|
        invariant TrimStart(r, c) == TrimStart(r[first..], c)
        invariant |r| > 0 && r[|r| - 1] != c
        invariant forall k :: 0 <= k < first ==> r[k] == c
        decreases |r| - first
      {
        assert r[first..][1..] == r[first + 1..];
        first := first + 1;
      }
      assert first < |r|;
      r := r[first..];
    } else {
      assert r[..0] == [];
      r := [];
    }
  }

  /**
   * `Raster::CSVCellClean`: strips surrounding double quotes, then
   * surrounding spaces. The result has no leading or trailing space, and a
   * cell of nothing but quotes becomes empty.
   */
  method CSVCellClean(value: string) returns (r: string)
    ensures r == Trim(Trim(value, '"'), ' ')
    ensures |r| > 0 ==> r[0] != ' ' && r[|r| - 1] != ' '
    ensures (forall k :: 0 <= k < |value| ==> value[k] == '"') ==> r == []
  {
    var unquoted := StripInPlace(value, '"');
    TrimShape(value, '"');
    r := StripInPlace(unquoted, ' ');
    TrimShape(unquoted, ' ');
  }

  /** A quoted, padded cell comes out as its bare content: "\" 12 \"" cleans to "12". */
  lemma CSVCellCleanExample()
    ensures Trim(Trim("\" 12 \"", '"'), ' ') == "12"
  {
    assert TrimEnd("\" 12 \"", '"') == "\" 12 ";
    assert TrimStart("\" 12 ", '"') == " 12 ";
    assert TrimEnd(" 12 ", ' ') == " 12";
    assert TrimStart(" 12", ' ') == "12";
  }
}
