/**
 * The rectangular footprint of a raster: the upper-left corner (`top`,
 * `left`), the number of rows and columns, and the signed cell size. Under
 * the north-up convention the cell height is negative, so rows run
 * downward from `top`.
 *
 * `Geometry` is the value of the six numbers; `ExtentRectangle` is the
 * object that holds them and is updated in place by `Init`, assignment and
 * `Union`.
 */
module ExtentRect {
  import opened Base

  datatype Geometry = Geometry(
    top: real, left: real, rows: int, cols: int, cellHeight: real, cellWidth: real)
  {
    function Right(): real { left + cols as real * cellWidth }
    function Bottom(): real { top + rows as real * cellHeight }
    function Width(): real { Abs(cols as real * cellWidth) }
    function Height(): real { Abs(rows as real * cellHeight) }

    /** Rows run down and columns run right from the upper-left corner. */
    predicate NorthUp()
    {
      cellHeight < 0.0 < cellWidth && rows >= 0 && cols >= 0
    }

    /** The rectangle covers the axis-aligned box [l, r] x [b, t]. */
    predicate Covers(t: real, l: real, b: real, r: real)
    {
      top >= t && left <= l && Bottom() <= b && Right() >= r
    }
  }

  /**
   * For a north-up rectangle the derived bounds are ordered and the width
   * and height are the distances between them.
   */
  lemma BoundsOfNorthUp(g: Geometry)
    requires g.NorthUp()
    ensures g.left <= g.Right() && g.Bottom() <= g.top
    ensures g.Width() == g.Right() - g.left && g.Height() == g.top - g.Bottom()
  {
    assert g.cols as real * g.cellWidth >= 0.0;
    assert g.rows as real * g.cellHeight <= 0.0;
  }

  /**
   * The union of two north-up rectangles at the first one's cell size: the
   * upper-left corner of the common envelope, and the fewest rows and
   * columns of that size that reach its lower and right edges.
   */
  function UnionOf(a: Geometry, b: Geometry): Geometry
    requires a.NorthUp() && b.NorthUp()
  {
    var top := if a.top >= b.top then a.top else b.top;
    var left := if a.left <= b.left then a.left else b.left;
    var bottom := if a.Bottom() <= b.Bottom() then a.Bottom() else b.Bottom();
    var right := if a.Right() >= b.Right() then a.Right() else b.Right();
    Geometry(top, left,
             Ceil((top - bottom) / -a.cellHeight), Ceil((right - left) / a.cellWidth),
             a.cellHeight, a.cellWidth)
  }

  lemma MulLe(x: real, y: real, c: real)
    requires x <= y && c > 0.0
    ensures x * c <= y * c
  {
    assert y * c - x * c == (y - x) * c;
  }

  lemma MulLt(x: real, y: real, c: real)
    requires x < y && c > 0.0
    ensures x * c < y * c
  {
    assert y * c - x * c == (y - x) * c;
  }

  /**
   * The ceiling of `span / size` is the fewest whole cells of size `size`
   * that reach across `span`.
   */
  lemma CeilCovers(span: real, size: real)
    requires size > 0.0
    ensures Ceil(span / size) as real * size >= span
    ensures (Ceil(span / size) - 1) as real * size < span
  {
    var n := Ceil(span / size);
    var q := span / size;
    assert q * size == span;
    assert n as real * size >= span by {
      MulLe(q, n as real, size);
    }
    assert (n - 1) as real * size < span by {
      assert (n - 1) as real < q;
      MulLt((n - 1) as real, q, size);
    }
  }

  /** Rows counted down from `top` at a negative cell height reach `bottom`, and one fewer would not. */
  lemma RowsReach(top: real, bottom: real, cellHeight: real)
    requires cellHeight < 0.0 && bottom <= top
    ensures var n := Ceil((top - bottom) / -cellHeight);
      n >= 0 && top + n as real * cellHeight <= bottom && top + (n - 1) as real * cellHeight > bottom
  {
    var n := Ceil((top - bottom) / -cellHeight);
    CeilCovers(top - bottom, -cellHeight);
    assert n as real * cellHeight == -(n as real * -cellHeight);
    assert (n - 1) as real * cellHeight == -((n - 1) as real * -cellHeight);
    assert (top - bottom) / -cellHeight >= 0.0;
  }

  /** Columns counted right from `left` at a positive cell width reach `right`, and one fewer would not. */
  lemma ColsReach(left: real, right: real, cellWidth: real)
    requires cellWidth > 0.0 && left <= right
    ensures var n := Ceil((right - left) / cellWidth);
      n >= 0 && left + n as real * cellWidth >= right && left + (n - 1) as real * cellWidth < right
  {
    CeilCovers(right - left, cellWidth);
    assert (right - left) / cellWidth >= 0.0;
  }

  /** The rows of a union reach the lower of the two bottoms, and one row fewer would not. */
  lemma UnionRowsReach(a: Geometry, b: Geometry)
    requires a.NorthUp() && b.NorthUp()
    ensures var u := UnionOf(a, b); var bottom := if a.Bottom() <= b.Bottom() then a.Bottom() else b.Bottom();
      u.rows >= 0 && u.Bottom() <= bottom && u.Bottom() - u.cellHeight > bottom
  {
    var u := UnionOf(a, b);
    BoundsOfNorthUp(a);
    BoundsOfNorthUp(b);
    var bottom := if a.Bottom() <= b.Bottom() then a.Bottom() else b.Bottom();
    RowsReach(u.top, bottom, a.cellHeight);
    assert u.Bottom() - u.cellHeight == u.top + (u.rows - 1) as real * a.cellHeight;
  }

  /** The columns of a union reach the further of the two right edges, and one column fewer would not. */
  lemma UnionColsReach(a: Geometry, b: Geometry)
    requires a.NorthUp() && b.NorthUp()
    ensures var u := UnionOf(a, b); var right := if a.Right() >= b.Right() then a.Right() else b.Right();
      u.cols >= 0 && u.Right() >= right && u.Right() - u.cellWidth < right
  {
    var u := UnionOf(a, b);
    BoundsOfNorthUp(a);
    BoundsOfNorthUp(b);
    var right := if a.Right() >= b.Right() then a.Right() else b.Right();
    ColsReach(u.left, right, a.cellWidth);
    assert u.Right() - u.cellWidth == u.left + (u.cols - 1) as real * a.cellWidth;
  }

  /**
   * After a union the rectangle covers both envelopes, is still north-up,
   * and is as small as its cell size allows: one row or column fewer would
   * leave part of an envelope uncovered.
   */
  lemma UnionCoversBoth(a: Geometry, b: Geometry)
    requires a.NorthUp() && b.NorthUp()
    ensures UnionOf(a, b).NorthUp()
    ensures UnionOf(a, b).Covers(a.top, a.left, a.Bottom(), a.Right())
    ensures UnionOf(a, b).Covers(b.top, b.left, b.Bottom(), b.Right())
    ensures var u := UnionOf(a, b);
      u.Bottom() - u.cellHeight > (if a.Bottom() <= b.Bottom() then a.Bottom() else b.Bottom())
    ensures var u := UnionOf(a, b);
      u.Right() - u.cellWidth < (if a.Right() >= b.Right() then a.Right() else b.Right())
  {
    BoundsOfNorthUp(a);
    BoundsOfNorthUp(b);
    UnionRowsReach(a, b);
    UnionColsReach(a, b);
  }

  /** A quotient rounded to the nearest integer, times the divisor, is within half a divisor of the dividend. */
  lemma RoundedQuotient(d: real, c: real)
    requires c != 0.0
    ensures Abs(Round(d / c) as real * c - d) <= Abs(c) / 2.0
  {
    var q := d / c;
    var r := Round(q) as real;
    assert q * c == d;
    Distribute(r, q, c);
    ScaledWithinHalf(r - q, c);
  }

  /** Multiplication distributes over a difference. */
  lemma Distribute(r: real, q: real, c: real)
    ensures r * c - q * c == (r - q) * c
  {
  }

  lemma Negate(e: real, c: real)
    ensures e * -c == -(e * c)
  {
  }

  /** A factor of magnitude at most one half scales a number to at most half its magnitude. */
  lemma ScaledWithinHalf(e: real, c: real)
    requires -0.5 < e <= 0.5
    ensures Abs(e * c) <= Abs(c) / 2.0
  {
    if c > 0.0 {
      MulLe(e, 0.5, c);
      MulLe(-0.5, e, c);
      assert Abs(c) == c;
    } else if c < 0.0 {
      var p := -c;
      MulLe(e, 0.5, p);
      MulLe(-0.5, e, p);
      Negate(e, c);
      assert e * p == -(e * c);
      assert e * p <= 0.5 * p;
      assert -0.5 * p <= e * p;
      assert -(0.5 * p) <= -(e * p);
      assert -(0.5 * p) <= e * c;
      assert e * c <= 0.5 * p;
      assert Abs(c) == p;
    }
  }

  /**
   * The cell offset between two origins along one axis: the distance
   * divided by this rectangle's cell size, rounded to the nearest cell.
   */
  function Translation(from: real, to: real, cellSize: real): int
    requires cellSize != 0.0
  {
    Round((to - from) / cellSize)
  }

  /** Shifting by the translation lands within half a cell of the target origin. */
  lemma TranslationNearest(from: real, to: real, cellSize: real)
    requires cellSize != 0.0
    ensures Abs(from + Translation(from, to, cellSize) as real * cellSize - to) <= Abs(cellSize) / 2.0
  {
    var t := Translation(from, to, cellSize) as real * cellSize;
    RoundedQuotient(to - from, cellSize);
    assert t == Round((to - from) / cellSize) as real * cellSize;
    assert from + t - to == t - (to - from);
  }

  /**
   * Two origins a whole number of cells apart: the translation is that
   * number, so adding it back to the first origin recovers the second.
   */
  lemma TranslationRecoversOrigin(from: real, to: real, k: int, cellSize: real)
    requires cellSize != 0.0 && to == from + k as real * cellSize
    ensures Translation(from, to, cellSize) == k
    ensures from + Translation(from, to, cellSize) as real * cellSize == to
  {
    var q := (to - from) / cellSize;
    assert q * cellSize == k as real * cellSize;
    assert q == k as real;
    assert Round(q) == k;
  }

  /** `ExtentRectangle`: a geometry stored in six mutable fields. */
  class ExtentRectangle {
    var top: real
    var left: real
    var rows: int
    var cols: int
    var cellHeight: real
    var cellWidth: real

    /** The value of the six fields. */
    function Value(): Geometry
      reads this
    {
      Geometry(top, left, rows, cols, cellHeight, cellWidth)
    }

    /** ExtentRectangle(fTop, fLeft, nRows, nCols, dCellHeight, dCellWidth). */
    constructor (fTop: real, fLeft: real, nRows: int, nCols: int, dCellHeight: real, dCellWidth: real)
      ensures GetTop() == fTop && GetLeft() == fLeft && GetRows() == nRows && GetCols() == nCols
      ensures GetCellHeight() == dCellHeight && GetCellWidth() == dCellWidth
    {
      top, left, rows, cols := fTop, fLeft, nRows, nCols;
      cellHeight, cellWidth := dCellHeight, dCellWidth;
    }

    /** The copy constructor: all six fields equal the source's. */
    constructor CopyOf(source: ExtentRectangle)
      ensures Value() == source.Value()
    {
      top, left, rows, cols := source.top, source.left, source.rows, source.cols;
      cellHeight, cellWidth := source.cellHeight, source.cellWidth;
    }

    /** `operator=`: all six fields take the source's values. */
    method Assign(source: ExtentRectangle)
      modifies this
      ensures Value() == old(source.Value())
    {
      top, left, rows, cols := source.top, source.left, source.rows, source.cols;
      cellHeight, cellWidth := source.cellHeight, source.cellWidth;
    }

    /** `Init`: stores the six values; the getters then return them. */
    method Init(fTop: real, fLeft: real, nRows: int, nCols: int, dCellHeight: real, dCellWidth: real)
      modifies this
      ensures GetTop() == fTop && GetLeft() == fLeft && GetRows() == nRows && GetCols() == nCols
      ensures GetCellHeight() == dCellHeight && GetCellWidth() == dCellWidth
    {
      top, left, rows, cols := fTop, fLeft, nRows, nCols;
      cellHeight, cellWidth := dCellHeight, dCellWidth;
    }

    /**
     * `Union`: grows this rectangle, in place and at its own cell size, to
     * cover its previous extent and the argument's.
     */
    method Union(aRectangle: ExtentRectangle)
      requires Value().NorthUp() && aRectangle.Value().NorthUp()
      modifies this
      ensures Value() == UnionOf(old(Value()), old(aRectangle.Value()))
      ensures Value().NorthUp()
      ensures Value().Covers(old(top), old(left), old(Value().Bottom()), old(Value().Right()))
      ensures Value().Covers(old(aRectangle.top), old(aRectangle.left),
                             old(aRectangle.Value().Bottom()), old(aRectangle.Value().Right()))
    {
      var u := UnionOf(Value(), aRectangle.Value());
      UnionCoversBoth(Value(), aRectangle.Value());
      top, left, rows, cols := u.top, u.left, u.rows, u.cols;
    }

    /** `GetRowTranslation`: rows from this origin down to the argument's. */
    function GetRowTranslation(aRectangle: ExtentRectangle): int
      requires cellHeight != 0.0
      reads this, aRectangle
    {
      Translation(top, aRectangle.top, cellHeight)
    }

    /** `GetColTranslation`: columns from this origin across to the argument's. */
    function GetColTranslation(aRectangle: ExtentRectangle): int
      requires cellWidth != 0.0
      reads this, aRectangle
    {
      Translation(left, aRectangle.left, cellWidth)
    }

    function GetTop(): real reads this { top }
    function GetLeft(): real reads this { left }
    function GetRight(): real reads this { Value().Right() }
    function GetBottom(): real reads this { Value().Bottom() }
    function GetWidth(): real reads this { Value().Width() }
    function GetHeight(): real reads this { Value().Height() }
    function GetRows(): int reads this { rows }
    function GetCols(): int reads this { cols }
    function GetCellHeight(): real reads this { cellHeight }
    function GetCellWidth(): real reads this { cellWidth }
  }

  /**
   * For two rectangles on the same lattice (origins a whole number of cells
   * apart at this rectangle's cell size), the translations are those
   * numbers of cells: re-deriving the argument's origin from this origin
   * plus the translation gives the argument's stated origin.
   */
  lemma TranslationsOnLattice(a: ExtentRectangle, b: ExtentRectangle, dr: int, dc: int)
    requires a.cellHeight != 0.0 && a.cellWidth != 0.0
    requires b.top == a.top + dr as real * a.cellHeight
    requires b.left == a.left + dc as real * a.cellWidth
    ensures a.GetRowTranslation(b) == dr && a.GetColTranslation(b) == dc
    ensures a.top + a.GetRowTranslation(b) as real * a.cellHeight == b.top
    ensures a.left + a.GetColTranslation(b) as real * a.cellWidth == b.left
  {
    TranslationRecoversOrigin(a.top, b.top, dr, a.cellHeight);
    TranslationRecoversOrigin(a.left, b.left, dc, a.cellWidth);
  }

  /**
   * The four corners a raster records as its extent ring when it is opened
   * (origin, origin plus the band's height, the far corner, origin plus its
   * width), from a geotransform and the band size.
   */
  function ExtentRing(transform: seq<real>, xSize: int, ySize: int): seq<(real, real)>
    requires |transform| == 6
  {
    [(transform[0], transform[3]),
     (transform[0], transform[3] + transform[5] * ySize as real),
     (transform[0] + transform[1] * xSize as real, transform[3] + transform[5] * ySize as real),
     (transform[0] + transform[1] * xSize as real, transform[3])]
  }

  /**
   * The rectangle of that geotransform and size has exactly those corners:
   * (left, top), (left, bottom), (right, bottom), (right, top).
   */
  lemma ExtentRingCorners(transform: seq<real>, xSize: int, ySize: int)
    requires |transform| == 6
    ensures var g := Geometry(transform[3], transform[0], ySize, xSize, transform[5], transform[1]);
      ExtentRing(transform, xSize, ySize)
        == [(g.left, g.top), (g.left, g.Bottom()), (g.Right(), g.Bottom()), (g.Right(), g.top)]
  {
    var g := Geometry(transform[3], transform[0], ySize, xSize, transform[5], transform[1]);
    assert g.Bottom() == transform[3] + transform[5] * ySize as real;
    assert g.Right() == transform[0] + transform[1] * xSize as real;
  }
}
