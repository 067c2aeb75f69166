/**
 * The enumerations shared by every raster operation: GDAL's pixel types, the
 * integer return codes of the engine's public operations and the two kinds of
 * exception the operations can raise instead of returning.
 *
 * The numeric values behind these names live in headers that are not part of
 * this model, so each is a constructor of its own.
 */
module RasterTypes {

  /** GDALDataType: the fixed-width numeric kind of a band's pixels. */
  datatype DataType =
    | Unknown | Byte | UInt16 | Int16 | UInt32 | Int32 | Float32 | Float64
    | CInt16 | CInt32 | CFloat32 | CFloat64

  /** The five pixel types whose per-pixel copy the engine implements. */
  predicate IsHandledType(t: DataType)
  {
    t == Byte || t == Int16 || t == Int32 || t == Float32 || t == Float64
  }

  /** The integer return codes of the engine (RasterManagerOutputCodes). */
  datatype ReturnCode =
    | ProcessOk
    | InputFileError
    | OutputFileError
    | OutputFileExtError
    | OutputUnhandledDriver
    | OutputNoDataError
    | LeftError
    | TopError
    | RowsError
    | ColsError
    | CellSizeError
    | ArgumentValidation
    | VectorLayerNotFound
    | VectorFieldNotValid

  /** The exceptions the core raises rather than returns. */
  datatype Exception =
    | RasterManagerException(code: ReturnCode)  // carries a return code
    | RuntimeError                              // a bare std::runtime_error

  /** How a public operation ends: with a return code, or by throwing. */
  datatype Outcome = Returned(code: ReturnCode) | Threw(exc: Exception)

  /** The two output drivers the engine can create files with. */
  datatype Driver = GTiff | HFA
}
