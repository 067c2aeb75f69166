/**
 * `RasterMeta`: the geometry of a raster together with its nodata value,
 * the separate flag saying whether that value is real, the pixel type, the
 * projection, the unit and the GDAL driver name.
 *
 * In C++ `RasterMeta` derives from `ExtentRectangle`. Dafny classes do not
 * inherit, so the geometry is a distinct `ExtentRectangle` object the meta
 * holds (`extent`); every operation below states that it leaves that
 * geometry as it was. The nodata value lives in a one-field cell
 * (`RealCell`) so that `GetNoDataValuePtr` can hand out the very storage
 * `GetNoDataValue` reads.
 */
module Meta {
  import opened Base
  import opened RasterTypes
  import opened ExtentRect

  /** A mutable double: the target of a `double *`. */
  class RealCell {
    var value: real

    constructor (v: real)
      ensures value == v
    {
      value := v;
    }
  }

  class RasterMeta {
    const extent: ExtentRectangle
    const noData: RealCell
    var hasNoData: bool
    var dataType: DataType
    var projection: string
    var unit: string
    var driver: string

    /**
     * The value a meta holds for its nodata when no nodata was given: the
     * most negative double, a placeholder that `hasNoData` marks as unreal.
     */
    static const NoDataPlaceholder: real := DblLowest

    /**
     * Builds a meta from first principles. A missing nodata (a NULL
     * `fNoData`) leaves the flag down and the placeholder in the value.
     */
    constructor (fTop: real, fLeft: real, nRows: int, nCols: int,
                 dCellHeight: real, dCellWidth: real, fNoData: Option<real>,
                 psDriver: string, eDataType: DataType, psProjection: string, psUnit: string)
      ensures fresh(extent) && fresh(noData)
      ensures extent.Value() == Geometry(fTop, fLeft, nRows, nCols, dCellHeight, dCellWidth)
      ensures HasNoDataValue() <==> fNoData.Some?
      ensures GetNoDataValue() == (if fNoData.Some? then fNoData.value else NoDataPlaceholder)
      ensures GetGDALDataType() == eDataType && GetGDALDriver() == psDriver
      ensures GetProjectionRef() == psProjection && GetUnit() == psUnit
    {
      extent := new ExtentRectangle(fTop, fLeft, nRows, nCols, dCellHeight, dCellWidth);
      noData := new RealCell(if fNoData.Some? then fNoData.value else NoDataPlaceholder);
      hasNoData := fNoData.Some?;
      dataType, driver, projection, unit := eDataType, psDriver, psProjection, psUnit;
    }

    /** The copy constructor: same geometry and properties, in storage of its own. */
    constructor CopyOf(source: RasterMeta)
      ensures fresh(extent) && fresh(noData)
      ensures extent.Value() == source.extent.Value()
      ensures Properties() == source.Properties()
    {
      extent := new ExtentRectangle.CopyOf(source.extent);
      noData := new RealCell(source.noData.value);
      hasNoData := source.hasNoData;
      dataType, driver, projection, unit := source.dataType, source.driver, source.projection, source.unit;
    }

    /** `operator=`: takes the source's geometry and properties. */
    method Assign(source: RasterMeta)
      modifies this, extent, noData
      ensures extent.Value() == old(source.extent.Value())
      ensures Properties() == old(source.Properties())
    {
      var v, f := source.noData.value, source.hasNoData;
      var t, d, p, u := source.dataType, source.driver, source.projection, source.unit;
      extent.Assign(source.extent);
      noData.value := v;
      hasNoData := f;
      dataType, driver, projection, unit := t, d, p, u;
    }

    /** Everything a meta holds besides its geometry. */
    function Properties(): (real, bool, DataType, string, string, string)
      reads this, noData
    {
      (noData.value, hasNoData, dataType, driver, projection, unit)
    }

    function GetGDALDriver(): string reads this { driver }
    function GetNoDataValue(): real reads this, noData { noData.value }
    function GetGDALDataType(): DataType reads this { dataType }
    function GetProjectionRef(): string reads this { projection }
    function GetUnit(): string reads this { unit }

    /** Whether the nodata value is real, independently of what the value holds. */
    function HasNoDataValue(): bool reads this { hasNoData }

    /** The storage of the nodata value: writing through it is what `GetNoDataValue` then reads. */
    function GetNoDataValuePtr(): (p: RealCell)
      reads this
      ensures p == noData
    {
      noData
    }

    /** `GetCellArea`: the absolute area of one cell. */
    function GetCellArea(): (area: real)
      reads this, extent
      ensures area >= 0.0
    {
      Abs(extent.GetCellHeight()) * Abs(extent.GetCellWidth())
    }

    /** `SetGDALDataType`: the pixel type changes, nothing else does. */
    method SetGDALDataType(fDataType: DataType)
      modifies this
      ensures GetGDALDataType() == fDataType
      ensures Properties() == old(Properties()).(2 := fDataType)
      ensures extent.Value() == old(extent.Value())
    {
      dataType := fDataType;
    }

    /** `SetNoDataValue`: stores the value and marks it as a real nodata; nothing else changes. */
    method SetNoDataValue(fNoData: real)
      modifies noData, this
      ensures GetNoDataValue() == fNoData && HasNoDataValue()
      ensures Properties() == old(Properties()).(0 := fNoData, 1 := true)
      ensures extent.Value() == old(extent.Value())
    {
      noData.value := fNoData;
      hasNoData := true;
    }

    /** `SetProjectionRef`: the projection changes, nothing else does. */
    method SetProjectionRef(fProjectionRef: string)
      modifies this
      ensures GetProjectionRef() == fProjectionRef
      ensures Properties() == old(Properties()).(4 := fProjectionRef)
      ensures extent.Value() == old(extent.Value())
    {
      projection := fProjectionRef;
    }

    /** `SetGDALDriver`: the driver name changes, nothing else does. */
    method SetGDALDriver(sGDALDriver: string)
      modifies this
      ensures GetGDALDriver() == sGDALDriver
      ensures Properties() == old(Properties()).(3 := sGDALDriver)
      ensures extent.Value() == old(extent.Value())
    {
      driver := sGDALDriver;
    }

    /** `SetUnit`: the unit changes, nothing else does. */
    method SetUnit(psUnit: string)
      modifies this
      ensures GetUnit() == psUnit
      ensures Properties() == old(Properties()).(5 := psUnit)
      ensures extent.Value() == old(extent.Value())
    {
      unit := psUnit;
    }
  }

  /**
   * A caller writing a new nodata through `GetNoDataValuePtr` changes what
   * `GetNoDataValue` returns, and leaves the presence flag alone.
   */
  method WriteNoDataThroughPtr(m: RasterMeta, x: real)
    modifies m.noData
    ensures m.GetNoDataValue() == x
    ensures m.HasNoDataValue() == old(m.HasNoDataValue())
  {
    var p := m.GetNoDataValuePtr();
    p.value := x;
  }

  /**
   * The cell area times the number of cells is the area of the whole
   * rectangle, width times height.
   */
  lemma {:induction false} CellAreaTimesCells(m: RasterMeta)
    requires m.extent.rows >= 0 && m.extent.cols >= 0
    ensures m.GetCellArea() * (m.extent.rows * m.extent.cols) as real
            == m.extent.GetWidth() * m.extent.GetHeight()
  {
    var g := m.extent.Value();
    var r, c := g.rows as real, g.cols as real;
    AbsMul(c, g.cellWidth);
    AbsMul(r, g.cellHeight);
    assert g.Width() == c * Abs(g.cellWidth);
    assert g.Height() == r * Abs(g.cellHeight);
    assert (g.rows * g.cols) as real == r * c;
  }

  lemma AbsMul(n: real, x: real)
    requires n >= 0.0
    ensures Abs(n * x) == n * Abs(x)
  {
    if x < 0.0 {
      assert n * x == -(n * -x);
    }
  }
}
