# rasterman core, in Dafny

A model of the raster-manipulation core of rasterman, a C++ library built on GDAL. The model covers the following:

- **Raster geometry.** `ExtentRectangle` is a top-left origin, a number of rows and columns, and a signed cell height and width. `RasterMeta` adds to it:
  - a nodata value with a separate presence flag;
  - the pixel type;
  - the projection;
  - the unit;
  - the GDAL driver name.
- **`Raster::Copy`.** It validates the requested extent and chooses the output driver from the file extension. It then creates the output and maps every output cell to a source cell or to nodata.
- **`Raster::ReSample`.** Its validation, set-up and dispatch to a routine by pixel type are modelled. The interpolation itself is not.
- **`Raster::CSVCellClean`.**
- **`Raster::CombineRaster` and its reducers.** Several rasters of one geometry are combined cell by cell: any nodata input vetoes the cell, and otherwise the cell gets the product, maximum, minimum, range or mean of the input values. The range reducer, as written, returns nodata for every cell it sees.
- **`Raster::VectortoRaster`.** This covers:
  - the decision on the field type;
  - the lists of geometries and burn values;
  - the template grid sized from a layer envelope and a cell width;
  - the CSV legend written for text fields.
- **The string helpers of the C interface.** These are:
  - file-extension extraction;
  - the two driver selectors;
  - the case-insensitive `EndsWith`;
  - the name-to-code lookup tables.

The modules follow the source files:

| module | what it holds |
|---|---|
| `Base` | C value semantics (`(int)` cast, rounding, float limits) |
| `RasterTypes` | pixel types, return codes, exceptions |
| `Interface` | `rastermanager_interface.cpp` |
| `ExtentRect` | `extentrectangle.h` |
| `Meta` | `rastermeta.h` |
| `Raster` | `raster.cpp` |
| `Reductions` | reference definitions of the combine reductions |
| `Combine` | `raster_combine.cpp` |
| `Vector` | `raster_vector.cpp` |

How the model represents the source:

- **Doubles** are exact `real`s, and C `int`s are unbounded integers.
- **Classes.** Code that updates objects in place is modelled as classes with `modifies` frames. `ExtentRectangle` and `RasterMeta` are modelled this way.
- **Loops.** Loops become methods with invariants, each proved equal to a specification function. Examples are the copy, combine and burn-list loops, `ExtractFileExt`, `EndsWith`, `CSVCellClean` and the legend writer.
- **Everything outside the model is a parameter:**
  - the GDAL and OGR data (the input band, the vector layers);
  - whether opening, creating or writing a file succeeds (`Environment`, `csvOpens`).

## Model

| member | source | states |
|---|---|---|
| Base.Trunc | RasterManager/raster.cpp:539 | the C `(int)` cast of a double: the integer part, truncated toward zero, for either sign |
| Base.Round | RasterManager/extentrectangle.h:97-108 | the nearest integer, within half of the argument |
| Base.Ceil | RasterManager/extentrectangle.h:84-89 | the least integer not below the argument |
| Interface.ToLowerIdempotent | RasterManager/rastermanager_interface.cpp:918-919 | lower-casing twice is lower-casing once |
| Interface.FileExtensionNone | RasterManager/rastermanager_interface.cpp:870-878 | a name with no '.' has no extension |
| Interface.FileExtensionAt | RasterManager/rastermanager_interface.cpp:870-878 | a '.' with none after it starts the extension |
| Interface.FileExtensionIsLastDot | RasterManager/rastermanager_interface.cpp:870-878 | no extension exactly when there is no '.'; otherwise the extension is a suffix that starts with '.' and holds no other '.' |
| Interface.FileExtensionFound | RasterManager/rastermanager_interface.cpp:870-878 | a name holding a '.' has an extension |
| Interface.FileExtensionShape | RasterManager/rastermanager_interface.cpp:870-878 | an extension is a suffix of the name that starts with its only '.' |
| Interface.ExtractFileExt | RasterManager/rastermanager_interface.cpp:870-878 | the backward scan returns the suffix from the last '.', or nothing when the name has no '.' |
| Interface.ExtensionOfSuffix | RasterManager/rastermanager_interface.cpp:870-878 | a name ending in "." + a dot-free tail has exactly that extension |
| Interface.GetDriverFromFilenameExact | RasterManager/rastermanager_interface.cpp:880-897 | GTiff exactly for names ending in ".tif" and HFA exactly for ".img", compared case-sensitively |
| Interface.ToLowerInPlace | RasterManager/rastermanager_interface.cpp:918-919 | the array afterwards holds the lower-cased old contents |
| Interface.EndsWith | RasterManager/rastermanager_interface.cpp:912-926 | a case-insensitive suffix test: true for an empty ending, false when the ending is longer than the string |
| Interface.GetDriverFromFileName | RasterManager/rastermanager_interface.cpp:899-910 | accepts ".tif"/".img" in any case and throws a runtime error for every other name, so it never returns null |
| Interface.DriverSelectorsAgree | RasterManager/rastermanager_interface.cpp:880-910 | whatever the exact selector accepts, the case-insensitive one accepts with the same driver |
| Interface.DriverSelectorsDifferOnCase | RasterManager/rastermanager_interface.cpp:880-910 | "DEM.TIF" is refused by the exact selector and accepted as GTiff by the other |
| Interface.LowerStringMatches | RasterManager/rastermanager_interface.cpp:918-919 | case-insensitive comparison ignores a prior lower-casing |
| Interface.GetStatFromString | RasterManager/rastermanager_interface.cpp:1016-1042 | a code is returned only for a name equal, ignoring case, to that code's name |
| Interface.GetStatFromStringNames | RasterManager/rastermanager_interface.cpp:1016-1042 | every spelling of a statistic's name, in any case, gives that statistic |
| Interface.StatNameRoundTrip | RasterManager/rastermanager_interface.cpp:1016-1042 | looking up a statistic's own name gives the statistic back |
| Interface.GetStatFromStringIgnoresCase | RasterManager/rastermanager_interface.cpp:1016-1042 | the lookup of a lower-cased name equals the lookup of the name |
| Interface.GetStatOperationFromString | RasterManager/rastermanager_interface.cpp:950-976 | a code is returned only for the name its table pairs with it |
| Interface.GetStatOperationFromStringSameNames | RasterManager/rastermanager_interface.cpp:950-976 | it accepts exactly the names `GetStatFromString` accepts |
| Interface.GetStatOperationFromStringShifted | RasterManager/rastermanager_interface.cpp:950-976 | only "mean" gives the code of the statistic it names; "maximum" gives STATS_MAJORITY |
| Interface.GetMathOpFromString | RasterManager/rastermanager_interface.cpp:992-1014 | a code is returned only for its own name, ignoring case |
| Interface.GetMathOpFromStringNames | RasterManager/rastermanager_interface.cpp:992-1014 | every operation name, in any case, gives its code, and "std" gives the statistics code STATS_STD |
| Interface.GetFillMethodFromString | RasterManager/rastermanager_interface.cpp:978-990 | a code is returned only for its own name, ignoring case |
| Interface.GetFillMethodFromStringNames | RasterManager/rastermanager_interface.cpp:978-990 | every fill method's name, in any case, gives that method |
| Interface.GetSymbologyStyleFromString | RasterManager/rastermanager_interface.cpp:928-948 | a code is returned only for its own name, ignoring case |
| Interface.GetSymbologyStyleFromStringNames | RasterManager/rastermanager_interface.cpp:928-948 | every style's name, in any case, gives that style |
| ExtentRect.BoundsOfNorthUp | RasterManager/extentrectangle.h:124-139 | for a north-up rectangle, right ≥ left, bottom ≤ top, and width and height are those distances |
| ExtentRect.CeilCovers | RasterManager/extentrectangle.h:84-89 | the ceiling of span/size is the fewest cells that reach across the span |
| ExtentRect.RowsReach | RasterManager/extentrectangle.h:84-89 | rows counted down from the top reach the bottom, and one fewer would not |
| ExtentRect.ColsReach | RasterManager/extentrectangle.h:84-89 | columns counted right from the left reach the right edge, and one fewer would not |
| ExtentRect.UnionRowsReach | RasterManager/extentrectangle.h:84-89 | the rows of a union reach the lower bottom, and one fewer would not |
| ExtentRect.UnionColsReach | RasterManager/extentrectangle.h:84-89 | the columns of a union reach the further right edge, and one fewer would not |
| ExtentRect.UnionCoversBoth | RasterManager/extentrectangle.h:84-89 | a union is north-up, covers both rectangles, and is the smallest such grid at its cell size |
| ExtentRect.RoundedQuotient | RasterManager/extentrectangle.h:97-108 | the rounded quotient times the divisor lies within half a divisor of the dividend |
| ExtentRect.TranslationNearest | RasterManager/extentrectangle.h:97-108 | shifting an origin by the translation lands within half a cell of the other origin |
| ExtentRect.TranslationRecoversOrigin | RasterManager/extentrectangle.h:97-108 | for origins a whole number of cells apart, the translation is that number |
| ExtentRect.ExtentRectangle.constructor | RasterManager/extentrectangle.h:40-45 | the getters return the six values given |
| ExtentRect.ExtentRectangle.CopyOf | RasterManager/extentrectangle.h:57 | a copy has the source's six fields |
| ExtentRect.ExtentRectangle.Assign | RasterManager/extentrectangle.h:63 | after assignment the six fields equal the source's |
| ExtentRect.ExtentRectangle.Init | RasterManager/extentrectangle.h:74-79 | the getters return the six values given |
| ExtentRect.ExtentRectangle.Union | RasterManager/extentrectangle.h:84-89 | in place, the rectangle becomes the union of its old value and the argument; it stays north-up and covers both old extents |
| ExtentRect.TranslationsOnLattice | RasterManager/extentrectangle.h:97-108 | on a shared lattice, the row and column translations are the cell offsets, and adding them back recovers the other origin |
| ExtentRect.ExtentRingCorners | RasterManager/raster.cpp:136-145 | the ring recorded when a raster is opened is the rectangle's corners (left, top), (left, bottom), (right, bottom), (right, top) |
| Meta.RasterMeta.constructor | RasterManager/rastermeta.h:24-26 | the geometry and properties as given; without a nodata value the flag is down and the value is the lowest double |
| Meta.RasterMeta.CopyOf | RasterManager/rastermeta.h:35 | fresh storage with the source's geometry and properties |
| Meta.RasterMeta.Assign | RasterManager/rastermeta.h:38 | geometry and every property equal the source's |
| Meta.RasterMeta.GetNoDataValuePtr | RasterManager/rastermeta.h:55 | the pointer is the very storage `GetNoDataValue` reads |
| Meta.RasterMeta.GetCellArea | RasterManager/rastermeta.h:57 | the cell area is never negative |
| Meta.RasterMeta.SetGDALDataType | RasterManager/rastermeta.h:99 | the pixel type changes and nothing else does |
| Meta.RasterMeta.SetNoDataValue | RasterManager/rastermeta.h:105 | the value is stored and the presence flag raised; nothing else changes |
| Meta.RasterMeta.SetProjectionRef | RasterManager/rastermeta.h:130 | the projection changes and nothing else does |
| Meta.RasterMeta.SetGDALDriver | RasterManager/rastermeta.h:150 | the driver name changes and nothing else does |
| Meta.RasterMeta.SetUnit | RasterManager/rastermeta.h:151 | the unit changes and nothing else does |
| Meta.WriteNoDataThroughPtr | RasterManager/rastermeta.h:50-55 | writing through the pointer changes what `GetNoDataValue` returns and leaves the flag alone |
| Meta.CellAreaTimesCells | RasterManager/rastermeta.h:57 | cell area times rows times columns is width times height |
| Raster.ValidateExtent | RasterManager/raster.cpp:417-427 | LEFT_ERROR, TOP_ERROR, ROWS_ERROR and COLS_ERROR, each exactly when its test is the first to fail |
| Raster.SelectOutputDriver | RasterManager/raster.cpp:452-467 | no '.' gives OUTPUT_FILE_EXT_ERROR; it accepts exactly the names `GetDriverFromFilename` accepts, with the same driver |
| Raster.PrepareOutput | RasterManager/raster.cpp:432-490 | INPUT_FILE_ERROR when the input does not open; then the driver's error; OUTPUT_FILE_ERROR when creation fails; OUTPUT_NODATA_ERROR, with the output already created, when a needed nodata is refused; each before anything later. Otherwise the output is ready with the requested size, the input's type, projection and nodata, and the north-up transform |
| Raster.CopyPrepare | RasterManager/raster.cpp:432-490 | the set-up steps give exactly `PrepareOutput` |
| Raster.CopyRow | RasterManager/raster.cpp:539-662 | the output line is the copied row: each cell from its source cell, or nodata/0 outside the source |
| Raster.Copy | RasterManager/raster.cpp:413-676 | the outcome, the created output and the rows written are exactly those of `CopyRun` |
| Raster.CopyValidatesFirst | RasterManager/raster.cpp:417-427 | a bad extent is reported, in test order, before anything is opened or created |
| Raster.CopyOutputExtensionErrors | RasterManager/raster.cpp:452-467 | a name with no '.' is OUTPUT_FILE_EXT_ERROR; any other unknown extension is OUTPUT_UNHANDLED_DRIVER |
| Raster.CopyWritesEveryRowOnce | RasterManager/raster.cpp:481-489 | a completed copy writes rows 0 … nRows−1 once each, in order, nCols cells each, under the north-up transform |
| Raster.CopyInBoundsCell | RasterManager/raster.cpp:539-571 | inside the source, an output cell is the source cell at the truncated offsets |
| Raster.CopyOutOfBoundsColumn | RasterManager/raster.cpp:579-630 | a missing column in an existing row gives nodata when the flag is set, else 0 |
| Raster.CopyOutOfBoundsRow | RasterManager/raster.cpp:634-661 | a missing row gives nodata in every column, whatever the flag |
| Raster.CopyIdentity | RasterManager/raster.cpp:537-664 | copying onto the source's own origin and size reproduces the source grid, whatever the new cell size |
| Raster.CopyIgnoresSourceCellWidth | RasterManager/raster.cpp:443-444 | the source cell width plays no part: the column offset uses the new cell size |
| Raster.ReSample | RasterManager/raster.cpp:683-786 | CELL_SIZE_ERROR first, then the extent errors; past them, the code and the created output are those of `PrepareOutput`; Byte/Int16/Int32/Float32 go to the float32 routine and Float64 to the float64 routine; success exactly when every check passes |
| Raster.ReSampleUnhandledTypeReportsSuccess | RasterManager/raster.cpp:778-785 | an unhandled pixel type reports PROCESS_OK having run no routine |
| Raster.ReSampleCorrected | RasterManager/raster.cpp:778-779 | with the exception thrown, a reported success always ran a routine |
| Raster.TrimEndShape | RasterManager/raster.cpp:170-172 | trimming the end leaves a prefix; what remains does not end with the character and only that character was removed |
| Raster.TrimStartShape | RasterManager/raster.cpp:173-174 | trimming the start leaves a suffix; what remains does not start with the character and only that character was removed |
| Raster.TrimShape | RasterManager/raster.cpp:170-176 | a trimmed string is a slice of the original, and only the character was removed around it |
| Raster.TrimIdempotent | RasterManager/raster.cpp:170-176 | trimming twice is trimming once |
| Raster.StripInPlace | RasterManager/raster.cpp:170-176 | the erase steps give the string trimmed of the character at both ends, or empty when it is all that character |
| Raster.CSVCellClean | RasterManager/raster.cpp:169-185 | quotes are trimmed, then spaces; the result has no space at either end, and an all-quote cell becomes empty |
| Raster.CSVCellCleanExample | RasterManager/raster.cpp:169-185 | the quoted, padded cell `" 12 "` becomes `12` |
| Reductions.MaxOfIsMaximum | RasterManager/raster_combine.cpp:198-213 | the maximum is one of the values and no value exceeds it |
| Reductions.MinOfIsMinimum | RasterManager/raster_combine.cpp:214-229 | the minimum is one of the values and no value is below it |
| Reductions.SumBetweenBounds | RasterManager/raster_combine.cpp:254-271 | n·min ≤ sum ≤ n·max |
| Reductions.FoldRemoveAt | RasterManager/raster_combine.cpp:113-119 | a right-commutative fold can take any one value last |
| Reductions.FoldPermutation | RasterManager/raster_combine.cpp:113-119 | a right-commutative fold does not depend on the order of the values |
| Reductions.SumIsFold | RasterManager/raster_combine.cpp:254-271 | the sum is a left fold of addition |
| Reductions.ProductIsFold | RasterManager/raster_combine.cpp:182-196 | the product is a left fold of multiplication |
| Reductions.SumPermutation | RasterManager/raster_combine.cpp:113-119 | the sum does not depend on the hash order of the inputs |
| Reductions.ProductPermutation | RasterManager/raster_combine.cpp:113-119 | the product does not depend on the hash order of the inputs |
| Combine.ParseCombineOp | RasterManager/raster_combine.cpp:30-47 | an operation is returned only for its own name, ignoring case; anything else throws ARGUMENT_VALIDATION |
| Combine.ParseCombineOpNames | RasterManager/raster_combine.cpp:30-47 | every operation name, in any case, parses to its operation |
| Combine.CombineMultiplyValues | RasterManager/raster_combine.cpp:182-196 | nodata if any value is nodata, else the product |
| Combine.CombineMaxValues | RasterManager/raster_combine.cpp:198-213 | nodata if any value is nodata or there are none, else the maximum |
| Combine.CombineMinValues | RasterManager/raster_combine.cpp:214-229 | nodata if any value is nodata or there are none, else the minimum |
| Combine.CombineRangeValues | RasterManager/raster_combine.cpp:230-252 | as written: nodata for every non-empty input; 0 for none |
| Combine.CombineRangeValuesCorrected | RasterManager/raster_combine.cpp:230-252 | nodata if any value is nodata, else maximum minus minimum |
| Combine.RangeIsSpread | RasterManager/raster_combine.cpp:230-252 | max − min is non-negative, bounds every difference of two values, and is attained |
| Combine.CombineMeanValues | RasterManager/raster_combine.cpp:254-271 | nodata if any value is nodata, else sum over count, which lies between minimum and maximum |
| Combine.MeanBetweenBounds | RasterManager/raster_combine.cpp:254-271 | the mean lies between the minimum and the maximum |
| Combine.CombineRasterValues | RasterManager/raster_combine.cpp:152-180 | nodata for no values, else the chosen reducer as written (`Reduce`): the range is nodata |
| Combine.CombineRasterValuesCorrected | RasterManager/raster_combine.cpp:152-180 | the same dispatch to the corrected range reducer (`ReduceCorrected`) |
| Combine.ReduceMeaning | RasterManager/raster_combine.cpp:152-271 | without nodata: maximum and minimum are values that bound all others, the mean lies between the extremes, and the range as written is nodata; every other operation agrees with the corrected reduction |
| Combine.ReduceCorrectedRange | RasterManager/raster_combine.cpp:230-252 | the corrected range is non-negative, bounds every difference of two values, and is attained |
| Combine.CombineRow | RasterManager/raster_combine.cpp:109-124 | each output cell is nodata when an input holds its own nodata there, else the reduction of the inputs' values as the reducers are written |
| Combine.CombineRaster | RasterManager/raster_combine.cpp:20-149 | a bad operation throws ARGUMENT_VALIDATION before any output exists; otherwise the output is a fresh copy of the first input's meta with only the type (Float64) and the nodata (−FLT_MAX, flag raised) changed, and the rows written are `CombinedRows` |
| Combine.CombineRangeWritesNoData | RasterManager/raster_combine.cpp:170-171 | a "range" combine, as the reducer is written, writes the output nodata into every cell |
| Combine.CombineVeto | RasterManager/raster_combine.cpp:111-123 | one input holding its own nodata makes the output cell nodata, whatever the others hold |
| Combine.CombineWritesEveryRowOnce | RasterManager/raster_combine.cpp:98-127 | every row is written once, in order, with every column |
| Combine.CombineMultiplyExample | RasterManager/raster_combine.cpp:98-127 | a two-input multiply, cell by cell, with a veto |
| Vector.FindLayer | RasterManager/raster_vector.cpp:153-156 | a layer is found only with the requested name, and is missing only when no layer has it |
| Vector.FindLayerFirst | RasterManager/raster_vector.cpp:153-156 | with several layers of that name, the first is found |
| Vector.FieldOutputTypeAsWritten | RasterManager/raster_vector.cpp:45-56 | as written: text and integer fields give Byte, every other type (real included) throws VECTOR_FIELD_NOT_VALID |
| Vector.FieldOutputType | RasterManager/raster_vector.cpp:45-56 | with a `break` after the real case: text/integer give Byte, real gives Float64, others throw |
| Vector.FieldFallThrough | RasterManager/raster_vector.cpp:51-54 | the two decisions differ on the real field alone |
| Vector.BuildBurnList | RasterManager/raster_vector.cpp:76-98 | the loop builds exactly `BurnShapes` and `BurnValues` |
| Vector.BurnListsPairUp | RasterManager/raster_vector.cpp:77-98 | both lists have one entry per feature with a geometry; entry i is that feature's geometry and its value (FID for text fields, the field as a double otherwise) |
| Vector.BurntExactlyWithGeometry | RasterManager/raster_vector.cpp:79-86 | a feature is burnt exactly when it has a geometry |
| Vector.BurntKeepsOrder | RasterManager/raster_vector.cpp:77-98 | burning keeps layer order |
| Vector.NatToTextRoundTrip | RasterManager/raster_vector.cpp:199 | decimal text is digits only and reads back as the number |
| Vector.IntToTextRoundTrip | RasterManager/raster_vector.cpp:199 | an FID's text has no comma, quote or line break, and reads back as the FID |
| Vector.LegendLineRoundTrip | RasterManager/raster_vector.cpp:199 | every legend line reads back as its FID and field text, whatever the text holds |
| Vector.ParseLineParts | RasterManager/raster_vector.cpp:199 | a comma-free FID text followed by `, "`, any value and `"` reads back as the FID and the value |
| Vector.LegendLineCount | RasterManager/raster_vector.cpp:191-199 | the legend has one line per feature plus the header when no text holds a line break |
| Vector.OutputCSVFile | RasterManager/raster_vector.cpp:175-207 | the header `"index", "<field>"`, then `FID, "value"` per feature in layer order; nothing when the file does not open |
| Vector.LegendFileName | RasterManager/raster_vector.cpp:180-182 | the legend file name ends in ".csv"; a name without '.' gets ".csv" appended |
| Vector.LegendFileNameStem | RasterManager/raster_vector.cpp:180-182 | a name with a '.' keeps everything before its last '.' and gets ".csv" there |
| Vector.VectorToRaster | RasterManager/raster_vector.cpp:21-128 | INPUT_FILE_ERROR when the source does not open; the legend for text fields; every field type but text and integer throws VECTOR_FIELD_NOT_VALID, real included, leaving the template unchanged; otherwise the template gets the layer's projection and the burn lists are built |
| Vector.TemplateFitsEnvelope | RasterManager/raster_vector.cpp:158-168 | the template's rows and columns fit inside the envelope and fall short of it by less than one cell |
| Vector.SpanInCells | RasterManager/raster_vector.cpp:161-162 | the truncated count of cells fits in the span and one more would not |
| Vector.NewTemplate | RasterManager/raster_vector.cpp:158-168 | a fresh meta with the template grid, nodata the lowest float (flag raised), GTiff, Float32, no projection and no unit |
| Vector.VectorToRasterByCellWidth | RasterManager/raster_vector.cpp:141-173 | INPUT_FILE_ERROR, then VECTOR_LAYER_NOT_FOUND; otherwise a GTiff Float32 template at top = MaxY, left = MinX, cell height −w, cell width w, nodata the lowest float, then the burn above, a real field throwing |

## Findings

| source | as written | input that shows it | evidently intended | confidence | as-written member | corrected member |
|---|---|---|---|---|---|---|
| RasterManager/raster_combine.cpp:245-247 | the maximum is updated under the minimum's test (`dMin == nodata \|\| value < dMin`) right after the minimum was set to the value, so it is never set and the next test returns nodata | the values {1, 3}: the result is nodata, not 2 | `dMax == nodata \|\| value > dMax`, giving max − min | high; not executed | Combine.CombineRangeValues | Combine.CombineRangeValuesCorrected |
| RasterManager/raster_vector.cpp:51-54 | the real case sets Float64 and has no `break`, so it falls into `default` and throws | a layer whose burnt field is OFTReal: VECTOR_FIELD_NOT_VALID | a `break` after the real case | high; not executed | Vector.FieldOutputTypeAsWritten | Vector.FieldOutputType |
| RasterManager/raster.cpp:778-779 | the exception for an unhandled pixel type is constructed but not thrown, and the call returns PROCESS_OK | a CInt16 input with valid arguments: PROCESS_OK, nothing resampled | `throw std::runtime_error(...)`, as in `Copy` | high; not executed | Raster.ReSampleUnhandledTypeReportsSuccess | Raster.ReSampleCorrected |

`CombineRasterValues`, and through it `CombineRaster`, dispatches to the range reducer as written, so a "range" combine writes nodata everywhere (`CombineRangeWritesNoData`); `CombineRasterValuesCorrected` dispatches to the corrected one. `VectorToRaster` uses the field decision as written, so a real field throws; `FieldOutputType` is the corrected decision.

## Left out

- **GDAL and OGR I/O:**
  - opening datasets;
  - reading and writing bands (`RasterIO`);
  - `CreateOutputDS`;
  - rasterising (`GDALRasterizeGeometries`);
  - statistics;
  - `PrintRasterProperties` and `GetInfo`.

  Their results are parameters or are not modelled. `Copy`'s and `CombineRaster`'s row writes are returned as a log.
- **The `extern "C"` wrappers and their error-string handling.** These are foreign-call glue.
- **The interpolation inside `ReSample_Float32`/`ReSample_Float64`, `Slope` and `CSVtoRaster`.** These are not part of this model.
- **Bodies not shown for `IsConcurrent`, `IsOrthogonal`, `IsDivisible`, `RasterUnDelimit`, `RasterMetaExpand`, `CheckFile`, `GetVerticalPrecision` and `GetHorizontalPrecision`.** Their bodies are not part of this model.
- CombineRaster: requires its inputs already split, checked and opened: at least one, each with the first one's rows and columns.
- **The default and file-path constructors of `ExtentRectangle` and `RasterMeta`, and the template-file overload of `VectortoRaster`.** They read a file.
- **Bodies of `Union`, `GetRowTranslation`, `GetColTranslation` and `SetNoDataValue`.** These are not in the headers. They are modelled from their declarations and documented intent:
  - `Union`: top-most top, left-most left, and the fewest rows and columns at this rectangle's cell size that reach the farther edges. North-up rectangles are required.
  - translations: the origin offset over the cell size, rounded to nearest.
  - `SetNoDataValue`: stores the value and raises the flag.
- SetNoDataValue: takes the value itself, where the source takes a `double *`. The NULL pointer, which the constructor reads as "no nodata", is not modelled for the setter, because what the setter does with it is not in the header.
- Union: requires both rectangles to be north-up (negative cell height, positive cell width), the orientation the union formula assumes.
- **Inheritance.** `RasterMeta` derives from `ExtentRectangle` in C++. Here it holds its geometry as an `ExtentRectangle` field, and each operation states that the geometry is unchanged.
- **Narrowing and floating point.**
  - Copy writes cells through their pixel type, with narrowing casts of the nodata value. It also stores Float32 values in doubles, and reals stand in for both.
  - Rounding of double arithmetic is not modelled.
  - Integer overflow of the `(int)` casts is not modelled.
- **Case-insensitive comparison.** It is ASCII lower-casing only. Qt's and the C library's locale and Unicode case folding are not modelled.
- **Input order.** `CombineRaster` keeps its inputs in hash tables. The model orders them by key. Product and sum are proved order-independent. Maximum, minimum and mean depend only on the values.
- Copy: requires a non-zero new cell size and a non-zero source cell height. The source divides by both unchecked.
- VectorToRasterByCellWidth: requires a non-zero cell width. The source divides by it unchecked.
- VectorToRaster: requires the layer and the field type to exist, because the source dereferences the layer, feature 0, the field definition and the spatial reference without checks; the spatial reference is taken as WKT text.
- **Layer lookup.** It is an exact name match, which is first-match. OGR's own lookup rules are not part of this model.
- **The template constructor call.** The cell-width overload calls `RasterMeta` with values and without a unit. The header shown declares no such constructor. The model passes the same values and an empty unit.
- **Output data type.** The data type chosen by the field switch is never applied to the output, which is created from the template meta. The model therefore uses only whether the switch accepts the field, and returns no data type.
- **Legend file path.** It is modelled as the file name only (`LegendFileName`). Making it absolute needs the working directory.
- CombineMeanValues: requires at least one value. The source divides by the count, and its caller never passes an empty set.
