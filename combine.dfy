/**
 * Combining several rasters of the same geometry cell by cell
 * (`Raster::CombineRaster`): the operation name is parsed, the output
 * takes the first input's geometry as 64-bit floats with nodata
 * -FLT_MAX, and each output cell is the output nodata when any input holds
 * its own nodata there, and otherwise the chosen reduction of the inputs'
 * values.
 *
 * The inputs, held by the source in hash tables keyed by position, are a
 * sequence here in that key order; the reductions below do not depend on
 * the order (see `SumPermutation` and `ProductPermutation`).
 */
module Combine {
  import opened Base
  import opened RasterTypes
  import opened Interface
  import opened ExtentRect
  import opened Meta
  import opened Reductions

  /** The five reductions. */
  datatype CombineOp = CombineMultiply | CombineMaximum | CombineMinimum | CombineRange | CombineMean

  /** The name each reduction is requested by. */
  function CombineOpName(op: CombineOp): string
  {
    match op
    case CombineMultiply => "multiply"
    case CombineMaximum => "max"
    case CombineMinimum => "min"
    case CombineRange => "range"
    case CombineMean => "mean"
  }

  /**
   * The operation argument, compared with each name regardless of case;
   * anything else is an argument-validation exception.
   */
  function ParseCombineOp(psOperation: string): (r: Result<CombineOp, Exception>)
    ensures r.Ok? ==> EqualsIgnoreCase(psOperation, CombineOpName(r.value))
    ensures r.Err? ==> r.error == RasterManagerException(ArgumentValidation)
  {
    if EqualsIgnoreCase(psOperation, "multiply") then Ok(CombineMultiply)
    else if EqualsIgnoreCase(psOperation, "max") then Ok(CombineMaximum)
    else if EqualsIgnoreCase(psOperation, "min") then Ok(CombineMinimum)
    else if EqualsIgnoreCase(psOperation, "range") then Ok(CombineRange)
    else if EqualsIgnoreCase(psOperation, "mean") then Ok(CombineMean)
    else Err(RasterManagerException(ArgumentValidation))
  }

  /** Every operation name, in any mix of case, parses to its operation; a name matching none is rejected. */
  lemma ParseCombineOpNames(s: string, op: CombineOp)
    ensures EqualsIgnoreCase(s, CombineOpName(op)) ==> ParseCombineOp(s) == Ok(op)
    ensures (forall o: CombineOp :: !EqualsIgnoreCase(s, CombineOpName(o)))
            ==> ParseCombineOp(s) == Err(RasterManagerException(ArgumentValidation))
  {
    if EqualsIgnoreCase(s, CombineOpName(op)) {
      match op
      case CombineMultiply =>
      case CombineMaximum =>
        assert ToLower(s[1]) == 'a';
      case CombineMinimum =>
        assert ToLower(s[1]) == 'i';
      case CombineRange =>
      case CombineMean =>
        assert ToLower(s[1]) == 'e';
    }
    if forall o: CombineOp :: !EqualsIgnoreCase(s, CombineOpName(o)) {
      assert !EqualsIgnoreCase(s, CombineOpName(CombineMultiply));
      assert !EqualsIgnoreCase(s, CombineOpName(CombineMaximum));
      assert !EqualsIgnoreCase(s, CombineOpName(CombineMinimum));
      assert !EqualsIgnoreCase(s, CombineOpName(CombineRange));
      assert !EqualsIgnoreCase(s, CombineOpName(CombineMean));
    }
  }

  /** The output nodata: -FLT_MAX, as a double. */
  const OutputNoData: real := -FltMax

  /*
   * The reducers, each an accumulator loop that gives up with the nodata
   * argument as soon as it meets a value equal to it.
   */

  /** `CombineRasterValuesMultiply`: the product of the values, or nodata if any value is nodata. */
  method CombineMultiplyValues(values: seq<real>, noData: real) returns (r: real)
    ensures noData in values ==> r == noData
    ensures noData !in values ==> r == Product(values)
  {
    var prod := 1.0;
    var k := 0;
    while k < |values|
      invariant 0 <= k <= |values|
      invariant noData !in values[..k]
      invariant prod == Product(values[..k])
    {
      if values[k] == noData {
        return noData;
      }
      assert values[..k + 1][..k] == values[..k];
      prod := prod * values[k];
      k := k + 1;
    }
    assert values[..k] == values;
    r := prod;
  }

  /** `CombineRasterValuesMax`: the largest value, or nodata if any value is nodata or there are none. */
  method CombineMaxValues(values: seq<real>, noData: real) returns (r: real)
    ensures noData in values || |values| == 0 ==> r == noData
    ensures noData !in values && |values| > 0 ==> r == MaxOf(values)
  {
    var max := noData;
    var k := 0;
    while k < |values|
      invariant 0 <= k <= |values|
      invariant noData !in values[..k]
      invariant k == 0 ==> max == noData
      invariant k > 0 ==> max == MaxOf(values[..k]) && max != noData
    {
      if values[k] == noData {
        return noData;
      }
      assert values[..k + 1][..k] == values[..k];
      if k > 0 {
        MaxOfIsMaximum(values[..k]);
      }
      if max == noData || values[k] > max {
        max := values[k];
      }
      k := k + 1;
    }
    assert values[..k] == values;
    r := max;
  }

  /** `CombineRasterValuesMin`: the smallest value, or nodata if any value is nodata or there are none. */
  method CombineMinValues(values: seq<real>, noData: real) returns (r: real)
    ensures noData in values || |values| == 0 ==> r == noData
    ensures noData !in values && |values| > 0 ==> r == MinOf(values)
  {
    var min := noData;
    var k := 0;
    while k < |values|
      invariant 0 <= k <= |values|
      invariant noData !in values[..k]
      invariant k == 0 ==> min == noData
      invariant k > 0 ==> min == MinOf(values[..k]) && min != noData
    {
      if values[k] == noData {
        return noData;
      }
      assert values[..k + 1][..k] == values[..k];
      if k > 0 {
        MinOfIsMinimum(values[..k]);
      }
      if min == noData || values[k] < min {
        min := values[k];
      }
      k := k + 1;
    }
    assert values[..k] == values;
    r := min;
  }

  /**
   * `CombineRasterValuesRange`, as written: the second test re-reads the
   * minimum it has just lowered to the current value, so the maximum is
   * never set and the first value makes it return nodata. Every non-empty
   * set of values gives nodata; an empty one gives nodata minus nodata.
   */
  method CombineRangeValues(values: seq<real>, noData: real) returns (r: real)
    ensures |values| > 0 ==> r == noData
    ensures |values| == 0 ==> r == 0.0
  {
    var max := noData;
    var min := noData;
    var returned: Option<real> := None;
    var k := 0;
    while k < |values| && returned.None?
      invariant 0 <= k <= |values|
      invariant k == 0 ==> returned.None? && max == noData && min == noData
      invariant k > 0 ==> returned == Some(noData)
    {
      var v := values[k];
      if v == noData {
        returned := Some(noData);
      } else {
        if min == noData || v < min {
          min := v;
        }
        if min == noData || v < min {
          max := v;
        }
        if max == noData || min == noData {
          returned := Some(noData);
        }
      }
      k := k + 1;
    }
    r := if returned.Some? then returned.value else max - min;
  }

  /**
   * `CombineRasterValuesRange` with the maximum kept under its own test
   * (`dMax == nodata || value > dMax`): the largest value minus the
   * smallest, or nodata if any value is nodata. With both extremes set by
   * the first value, the closing nodata test can no longer fire and is
   * dropped.
   */
  method CombineRangeValuesCorrected(values: seq<real>, noData: real) returns (r: real)
    ensures noData in values ==> r == noData
    ensures |values| == 0 ==> r == 0.0
    ensures noData !in values && |values| > 0 ==> r == MaxOf(values) - MinOf(values)
  {
    var max := noData;
    var min := noData;
    var k := 0;
    while k < |values|
      invariant 0 <= k <= |values|
      invariant noData !in values[..k]
      invariant k == 0 ==> max == noData && min == noData
      invariant k > 0 ==> max == MaxOf(values[..k]) && max != noData && min == MinOf(values[..k]) && min != noData
    {
      if values[k] == noData {
        return noData;
      }
      assert values[..k + 1][..k] == values[..k];
      if k > 0 {
        MaxOfIsMaximum(values[..k]);
        MinOfIsMinimum(values[..k]);
      }
      if min == noData || values[k] < min {
        min := values[k];
      }
      if max == noData || values[k] > max {
        max := values[k];
      }
      k := k + 1;
    }
    assert values[..k] == values;
    r := max - min;
  }

  /** The range is never negative and no two values lie further apart; the two extremes lie exactly that far apart. */
  lemma RangeIsSpread(values: seq<real>)
    requires |values| > 0
    ensures MaxOf(values) - MinOf(values) >= 0.0
    ensures forall i, j :: 0 <= i < |values| && 0 <= j < |values| ==> values[i] - values[j] <= MaxOf(values) - MinOf(values)
    ensures exists i, j :: 0 <= i < |values| && 0 <= j < |values| && values[i] - values[j] == MaxOf(values) - MinOf(values)
  {
    MaxOfIsMaximum(values);
    MinOfIsMinimum(values);
    var i :| 0 <= i < |values| && values[i] == MaxOf(values);
    var j :| 0 <= j < |values| && values[j] == MinOf(values);
    assert values[i] - values[j] == MaxOf(values) - MinOf(values);
  }

  /** `CombineRasterValuesMean`: the sum over the count, or nodata if any value is nodata. */
  method CombineMeanValues(values: seq<real>, noData: real) returns (r: real)
    requires |values| > 0
    ensures noData in values ==> r == noData
    ensures noData !in values ==> r == Sum(values) / |values| as real
    ensures noData !in values ==> MinOf(values) <= r <= MaxOf(values)
  {
    var sum := 0.0;
    var count := 0;
    var k := 0;
    while k < |values|
      invariant 0 <= k <= |values|
      invariant noData !in values[..k]
      invariant sum == Sum(values[..k]) && count == k
    {
      if values[k] == noData {
        return noData;
      }
      assert values[..k + 1][..k] == values[..k];
      sum := sum + values[k];
      count := count + 1;
      k := k + 1;
    }
    assert values[..k] == values;
    r := sum / count as real;
    MeanBetweenBounds(values);
  }

  /** The mean of non-empty values lies between their minimum and maximum. */
  lemma MeanBetweenBounds(values: seq<real>)
    requires |values| > 0
    ensures MinOf(values) <= Sum(values) / |values| as real <= MaxOf(values)
  {
    SumBetweenBounds(values);
    QuotientBetween(Sum(values), |values| as real, MinOf(values), MaxOf(values));
  }

  lemma QuotientBetween(a: real, n: real, lo: real, hi: real)
    requires n > 0.0 && n * lo <= a <= n * hi
    ensures lo <= a / n <= hi
  {
    var q := a / n;
    assert q * n == a;
    if q < lo {
      MulLt(q, lo, n);
    }
    if q > hi {
      MulLt(hi, q, n);
    }
  }

  /**
   * What the reducers return for a set of values when each does what its
   * name says: nodata for no values or a nodata among them, otherwise the
   * product, the extremes, the spread between them or the mean.
   */
  function ReduceCorrected(op: CombineOp, values: seq<real>, noData: real): real
  {
    if |values| == 0 then noData
    else if noData in values then noData
    else match op
      case CombineMultiply => Product(values)
      case CombineMaximum => MaxOf(values)
      case CombineMinimum => MinOf(values)
      case CombineRange => MaxOf(values) - MinOf(values)
      case CombineMean => Sum(values) / |values| as real
  }

  /**
   * What `CombineRasterValues` returns for a set of values: as the reducers
   * are written, the range of any set of values is nodata; every other
   * operation returns the intended reduction.
   */
  function Reduce(op: CombineOp, values: seq<real>, noData: real): real
  {
    if op == CombineRange then noData else ReduceCorrected(op, values, noData)
  }

  /** `CombineRasterValues`: nodata for an empty set of values, otherwise the operation's reducer. */
  method CombineRasterValues(op: CombineOp, values: seq<real>, noData: real) returns (r: real)
    ensures r == Reduce(op, values, noData)
  {
    if |values| == 0 {
      return noData;
    }
    match op
    case CombineMultiply =>
      r := CombineMultiplyValues(values, noData);
    case CombineMaximum =>
      r := CombineMaxValues(values, noData);
    case CombineMinimum =>
      r := CombineMinValues(values, noData);
    case CombineRange =>
      r := CombineRangeValues(values, noData);
    case CombineMean =>
      r := CombineMeanValues(values, noData);
  }

  /** `CombineRasterValues` dispatching to the corrected range reducer. */
  method CombineRasterValuesCorrected(op: CombineOp, values: seq<real>, noData: real) returns (r: real)
    ensures r == ReduceCorrected(op, values, noData)
  {
    if |values| == 0 {
      return noData;
    }
    match op
    case CombineMultiply =>
      r := CombineMultiplyValues(values, noData);
    case CombineMaximum =>
      r := CombineMaxValues(values, noData);
    case CombineMinimum =>
      r := CombineMinValues(values, noData);
    case CombineRange =>
      r := CombineRangeValuesCorrected(values, noData);
    case CombineMean =>
      r := CombineMeanValues(values, noData);
  }

  /**
   * The reduction of values none of which is nodata: the extremes are values
   * bounding all the others, the mean lies between them, and the range, as
   * written, is nodata.
   */
  lemma ReduceMeaning(op: CombineOp, values: seq<real>, noData: real)
    requires |values| > 0 && noData !in values
    ensures op == CombineMaximum ==>
      Reduce(op, values, noData) in values && forall k :: 0 <= k < |values| ==> values[k] <= Reduce(op, values, noData)
    ensures op == CombineMinimum ==>
      Reduce(op, values, noData) in values && forall k :: 0 <= k < |values| ==> Reduce(op, values, noData) <= values[k]
    ensures op == CombineMean ==> MinOf(values) <= Reduce(op, values, noData) <= MaxOf(values)
    ensures op == CombineRange ==> Reduce(op, values, noData) == noData
    ensures op != CombineRange ==> Reduce(op, values, noData) == ReduceCorrected(op, values, noData)
  {
    MaxOfIsMaximum(values);
    MinOfIsMinimum(values);
    MeanBetweenBounds(values);
  }

  /**
   * The corrected range of values none of which is nodata: never negative,
   * at least the difference of any two values, and attained by two of them.
   */
  lemma ReduceCorrectedRange(values: seq<real>, noData: real)
    requires |values| > 0 && noData !in values
    ensures ReduceCorrected(CombineRange, values, noData) >= 0.0
    ensures forall i, j :: 0 <= i < |values| && 0 <= j < |values| ==>
      values[i] - values[j] <= ReduceCorrected(CombineRange, values, noData)
    ensures exists i, j ::
      (0 <= i < |values| && 0 <= j < |values| && values[i] - values[j] == ReduceCorrected(CombineRange, values, noData))
  {
    RangeIsSpread(values);
  }

  /** One input: its cells, row by row, and its own nodata value. */
  datatype CombineInput = CombineInput(grid: seq<seq<real>>, noData: real)

  /** The inputs all have `rows` rows of `cols` cells. */
  predicate SameShape(inputs: seq<CombineInput>, rows: int, cols: int)
  {
    forall k :: 0 <= k < |inputs| ==>
      |inputs[k].grid| == rows && forall i :: 0 <= i < rows ==> |inputs[k].grid[i]| == cols
  }

  /** The inputs' values at cell (i, j), in input order. */
  function CellValues(inputs: seq<CombineInput>, rows: int, cols: int, i: int, j: int): seq<real>
    requires SameShape(inputs, rows, cols) && 0 <= i < rows && 0 <= j < cols
  {
    seq(|inputs|, k requires 0 <= k < |inputs| => inputs[k].grid[i][j])
  }

  /** Some input holds its own nodata at cell (i, j). */
  predicate Vetoed(inputs: seq<CombineInput>, rows: int, cols: int, i: int, j: int)
    requires SameShape(inputs, rows, cols) && 0 <= i < rows && 0 <= j < cols
  {
    exists k :: 0 <= k < |inputs| && inputs[k].grid[i][j] == inputs[k].noData
  }

  /** Output cell (i, j): the output nodata under a veto, else the reduction of the inputs' values. */
  function CombinedCell(op: CombineOp, inputs: seq<CombineInput>, rows: int, cols: int, i: int, j: int): real
    requires SameShape(inputs, rows, cols) && 0 <= i < rows && 0 <= j < cols
  {
    if Vetoed(inputs, rows, cols, i, j) then OutputNoData
    else Reduce(op, CellValues(inputs, rows, cols, i, j), OutputNoData)
  }

  function CombinedRow(op: CombineOp, inputs: seq<CombineInput>, rows: int, cols: nat, i: int): seq<real>
    requires SameShape(inputs, rows, cols) && 0 <= i < rows
  {
    seq(cols, j requires 0 <= j < cols => CombinedCell(op, inputs, rows, cols, i, j))
  }

  /** One row write: the row index and its cells. */
  datatype RowWrite = RowWrite(row: int, cells: seq<real>)

  /** The rows `CombineRaster` writes, in write order. */
  function CombinedRows(op: CombineOp, inputs: seq<CombineInput>, rows: nat, cols: nat): seq<RowWrite>
    requires SameShape(inputs, rows, cols)
  {
    seq(rows, i requires 0 <= i < rows => RowWrite(i, CombinedRow(op, inputs, rows, cols, i)))
  }

  /**
   * One pass of the row loop of `CombineRaster`: reads row `i` of every
   * input and decides each cell of the output line.
   */
  method CombineRow(op: CombineOp, inputs: seq<CombineInput>, rows: int, i: int, readBuffer: array<real>)
    requires SameShape(inputs, rows, readBuffer.Length) && 0 <= i < rows
    modifies readBuffer
    ensures readBuffer[..] == CombinedRow(op, inputs, rows, readBuffer.Length, i)
  {
    var cols := readBuffer.Length;
    var outputNoData := OutputNoData;
    var buffers := seq(|inputs|, k requires 0 <= k < |inputs| => inputs[k].grid[i]);
    var j := 0;
    while j < cols
      invariant 0 <= j <= cols
      invariant forall m :: 0 <= m < j ==> readBuffer[m] == CombinedCell(op, inputs, rows, cols, i, m)
    {
      var disqualify := false;
      var contents: seq<real> := [];
      var k := 0;
      while k < |buffers|
        invariant 0 <= k <= |buffers|
        invariant contents == CellValues(inputs, rows, cols, i, j)[..k]
        invariant disqualify <==> exists m :: 0 <= m < k && inputs[m].grid[i][j] == inputs[m].noData
      {
        if buffers[k][j] == inputs[k].noData {
          disqualify := true;
        }
        contents := contents + [buffers[k][j]];
        k := k + 1;
      }
      assert contents == CellValues(inputs, rows, cols, i, j);
      if !disqualify {
        readBuffer[j] := CombineRasterValues(op, contents, outputNoData);
      } else {
        readBuffer[j] := outputNoData;
      }
      j := j + 1;
    }
  }

  /**
   * `Raster::CombineRaster`: parses the operation, makes the output meta
   * a copy of the first input's with 64-bit floats and nodata -FLT_MAX,
   * then, row by row, reads each input's row, decides each cell (veto or
   * reduction) into one output line, and writes the line.
   *
   * The inputs are the already split, checked and opened list: at least
   * one raster, all with the first one's rows and columns.
   */
  method CombineRaster(first: RasterMeta, inputs: seq<CombineInput>, psOperation: string)
    returns (outcome: Outcome, outputMeta: RasterMeta?, log: seq<RowWrite>)
    requires |inputs| > 0 && first.extent.rows >= 0 && first.extent.cols >= 0
    requires SameShape(inputs, first.extent.rows, first.extent.cols)
    ensures ParseCombineOp(psOperation).Err? ==>
      outcome == Threw(RasterManagerException(ArgumentValidation)) && outputMeta == null && log == []
    ensures ParseCombineOp(psOperation).Ok? ==>
      && outcome == Returned(ProcessOk)
      && outputMeta != null && fresh(outputMeta) && fresh(outputMeta.extent) && fresh(outputMeta.noData)
      && outputMeta.extent.Value() == first.extent.Value()
      && outputMeta.Properties() == first.Properties().(0 := OutputNoData, 1 := true, 2 := Float64)
      && log == CombinedRows(ParseCombineOp(psOperation).value, inputs, first.extent.rows, first.extent.cols)
  {
    log, outputMeta := [], null;
    var parsed := ParseCombineOp(psOperation);
    if parsed.Err? {
      return Threw(parsed.error), outputMeta, log;
    }
    outputMeta := new RasterMeta.CopyOf(first);
    var op := parsed.value;
    outputMeta.SetGDALDataType(Float64);
    var outputNoData := -FltMax;
    outputMeta.SetNoDataValue(outputNoData);

    var rows := outputMeta.extent.GetRows();
    var cols := outputMeta.extent.GetCols();
    var readBuffer := new real[cols];
    var i := 0;
    while i < rows
      modifies readBuffer
      invariant 0 <= i <= rows
      invariant |log| == i
      invariant forall m :: 0 <= m < i ==> log[m] == RowWrite(m, CombinedRow(op, inputs, rows, cols, m))
    {
      CombineRow(op, inputs, rows, i, readBuffer);
      log := log + [RowWrite(i, readBuffer[..])];
      i := i + 1;
    }
    assert log == CombinedRows(op, inputs, rows, cols);
    outcome := Returned(ProcessOk);
  }

  /** Any input at its own nodata vetoes the cell: the output there is the output nodata, whatever the operation. */
  lemma CombineVeto(op: CombineOp, inputs: seq<CombineInput>, rows: nat, cols: nat, i: int, j: int, k: int)
    requires SameShape(inputs, rows, cols) && 0 <= i < rows && 0 <= j < cols
    requires 0 <= k < |inputs| && inputs[k].grid[i][j] == inputs[k].noData
    ensures CombinedRows(op, inputs, rows, cols)[i].cells[j] == OutputNoData
  {
  }

  /** Every row is written exactly once, the `i`-th write being row `i`, with all its columns. */
  lemma CombineWritesEveryRowOnce(op: CombineOp, inputs: seq<CombineInput>, rows: nat, cols: nat)
    requires SameShape(inputs, rows, cols)
    ensures |CombinedRows(op, inputs, rows, cols)| == rows
    ensures forall i :: 0 <= i < rows ==>
      CombinedRows(op, inputs, rows, cols)[i].row == i && |CombinedRows(op, inputs, rows, cols)[i].cells| == cols
  {
  }

  /**
   * Multiplying [[2, 3], [4, 5]] by [[1, 1], [1, nodata]] gives
   * [[2, 3], [4, nodata]]: the vetoed cell is the output nodata.
   */
  lemma CombineMultiplyExample(nd: real)
    requires nd !in {1.0, 2.0, 3.0, 4.0, 5.0}
    ensures var inputs := [CombineInput([[2.0, 3.0], [4.0, 5.0]], nd), CombineInput([[1.0, 1.0], [1.0, nd]], nd)];
      SameShape(inputs, 2, 2)
      && CombinedRows(CombineMultiply, inputs, 2, 2)
         == [RowWrite(0, [2.0, 3.0]), RowWrite(1, [4.0, OutputNoData])]
  {
    var inputs := [CombineInput([[2.0, 3.0], [4.0, 5.0]], nd), CombineInput([[1.0, 1.0], [1.0, nd]], nd)];
    assert SameShape(inputs, 2, 2);
    assert [2.0][..0] == [] && [3.0][..0] == [] && [4.0][..0] == [];
    assert Product([2.0, 1.0]) == 2.0 by { assert [2.0, 1.0][..1] == [2.0]; }
    assert Product([3.0, 1.0]) == 3.0 by { assert [3.0, 1.0][..1] == [3.0]; }
    assert Product([4.0, 1.0]) == 4.0 by { assert [4.0, 1.0][..1] == [4.0]; }
    assert CellValues(inputs, 2, 2, 0, 0) == [2.0, 1.0];
    assert CellValues(inputs, 2, 2, 0, 1) == [3.0, 1.0];
    assert CellValues(inputs, 2, 2, 1, 0) == [4.0, 1.0];
    assert !Vetoed(inputs, 2, 2, 0, 0) && !Vetoed(inputs, 2, 2, 0, 1) && !Vetoed(inputs, 2, 2, 1, 0);
    assert Vetoed(inputs, 2, 2, 1, 1) by {
      assert inputs[1].grid[1][1] == inputs[1].noData;
    }
    assert CombinedRow(CombineMultiply, inputs, 2, 2, 0) == [2.0, 3.0];
    assert CombinedRow(CombineMultiply, inputs, 2, 2, 1) == [4.0, OutputNoData];
  }

  /**
   * With the range reducer as written, a "range" combine writes the output
   * nodata into every cell of every row.
   */
  lemma CombineRangeWritesNoData(inputs: seq<CombineInput>, rows: nat, cols: nat)
    requires SameShape(inputs, rows, cols)
    ensures forall i, j :: 0 <= i < rows && 0 <= j < cols ==>
      CombinedRows(CombineRange, inputs, rows, cols)[i].cells[j] == OutputNoData
  {
    forall i, j | 0 <= i < rows && 0 <= j < cols
      ensures CombinedRows(CombineRange, inputs, rows, cols)[i].cells[j] == OutputNoData
    {
      var row := CombinedRows(CombineRange, inputs, rows, cols)[i];
      assert row == RowWrite(i, CombinedRow(CombineRange, inputs, rows, cols, i));
      assert row.cells[j] == CombinedCell(CombineRange, inputs, rows, cols, i, j);
    }
  }
}
