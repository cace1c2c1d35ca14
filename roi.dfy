// OpenCV's row and column ranges, and the regions of interest they select
// from a matrix header: OpenCV's own submatrix headers and the hand-made one
// AutoMat builds for page-locked memory.

module Ranges {
  /** `cv::Range`: the rows or columns `start` up to `end` (exclusive). */
  datatype Range = Range(start: int, end: int)
  {
    function Size(): int { end - start }
  }

  /** `cv::Range::all()`: `( INT_MIN, INT_MAX )`. */
  const All := Range(-0x8000_0000, 0x7fff_ffff)

  /** OpenCV's assertion on a range used to select from `n` rows or columns. */
  predicate Within(r: Range, n: int)
  {
    r == All || 0 <= r.start <= r.end <= n
  }

  /** A range changes the selection from `n`: it is neither `all()` nor `( 0, n )`. */
  predicate Cuts(r: Range, n: int)
  {
    r != All && r != Range(0, n)
  }

  /** The first row or column a range selects. */
  function Start(r: Range): int
  {
    if r == All then 0 else r.start
  }

  /** How many of `n` rows or columns a range selects. */
  function Extent(r: Range, n: int): int
  {
    if r == All then n else r.end - r.start
  }

  /** A range taken within the selection of `outer`, as a range of the whole. */
  function Compose(outer: Range, inner: Range): Range
  {
    if inner == All then outer else Range(Start(outer) + inner.start, Start(outer) + inner.end)
  }

  /** Within bounds, a range cuts exactly when it selects fewer than all. */
  lemma CutsIffFewer(r: Range, n: int)
    requires Within(r, n)
    ensures Cuts(r, n) <==> Extent(r, n) < n
  {
  }

  /** A range within a selection of `n`, composed, is a range within `n` that starts and cuts accordingly. */
  lemma ComposeWithin(outer: Range, inner: Range, n: int)
    requires Within(outer, n) && Extent(outer, n) > 0 && Within(inner, Extent(outer, n))
    ensures Within(Compose(outer, inner), n)
    ensures Start(Compose(outer, inner)) == Start(outer) + Start(inner)
    ensures Extent(Compose(outer, inner), n) == Extent(inner, Extent(outer, n))
    ensures Cuts(Compose(outer, inner), n) <==> Cuts(outer, n) || Cuts(inner, Extent(outer, n))
  {
    CutsIffFewer(outer, n);
    CutsIffFewer(inner, Extent(outer, n));
    CutsIffFewer(Compose(outer, inner), n);
  }
}

module Submatrix {
  import opened GpuRuntime
  import opened Ranges

  /**
   * `cv::Mat( m, rowRange, colRange )` (and its `GpuMat` counterpart): a
   * header over the same buffer that starts `start` rows and columns further,
   * is a submatrix once a range cuts, loses continuity when columns are cut
   * and gains it for a single row; an empty selection releases its data.
   */
  function SubMat(h: Header, rr: Range, cr: Range): (s: Header)
    requires Within(rr, h.rows) && Within(cr, h.cols)
    ensures s.typ == h.typ
    ensures (s.rows > 0 && s.cols > 0) <==> (Extent(rr, h.rows) > 0 && Extent(cr, h.cols) > 0)
    ensures s.rows <= 0 || s.cols <= 0 ==> !s.HasData() && s.rows == 0 && s.cols == 0
    ensures s.rows > 0 && s.cols > 0 ==>
              && s.buffer == h.buffer && s.step == h.step
              && s.rows == Extent(rr, h.rows) && s.cols == Extent(cr, h.cols)
              && s.offset == h.offset + Start(rr) * h.step + Start(cr) * ElemSize(h.typ)
              && (s.continuous <==> s.rows == 1 || (h.continuous && s.cols == h.cols))
              && (s.submatrix <==> h.submatrix || Cuts(rr, h.rows) || Cuts(cr, h.cols))
  {
    var rows := if Cuts(rr, h.rows) then rr.end - rr.start else h.rows;
    var rowOffset := if Cuts(rr, h.rows) then h.offset + h.step * rr.start else h.offset;
    var cols := if Cuts(cr, h.cols) then cr.end - cr.start else h.cols;
    var offset := if Cuts(cr, h.cols) then rowOffset + cr.start * ElemSize(h.typ) else rowOffset;
    var continuous := (h.continuous && !(Cuts(cr, h.cols) && cols < h.cols)) || rows == 1;
    var submatrix := h.submatrix || Cuts(rr, h.rows) || Cuts(cr, h.cols);
    if rows <= 0 || cols <= 0 then Header(Null, 0, 0, 0, h.typ, h.step, continuous, submatrix)
    else Header(h.buffer, offset, rows, cols, h.typ, h.step, continuous, submatrix)
  }

  /**
   * The ROI of page-locked memory, done by hand because `CudaMem` has none:
   * rows, columns and the data pointer are adjusted for each range that cuts
   * and the submatrix flag is set; nothing is checked and the continuity
   * flag is kept.
   */
  function PlRoi(h: Header, rr: Range, cr: Range): (s: Header)
    ensures s.buffer == h.buffer && s.step == h.step && s.typ == h.typ && s.continuous == h.continuous
    ensures s.rows == Extent(rr, h.rows) && s.cols == Extent(cr, h.cols)
    ensures s.offset == h.offset + Start(rr) * h.step + Start(cr) * ElemSize(h.typ)
    ensures s.submatrix <==> h.submatrix || Cuts(rr, h.rows) || Cuts(cr, h.cols)
  {
    var afterRows :=
      if Cuts(rr, h.rows) then h.(rows := rr.end - rr.start, offset := h.offset + rr.start * h.step, submatrix := true)
      else h;
    if Cuts(cr, afterRows.cols)
    then afterRows.(cols := cr.end - cr.start, offset := afterRows.offset + cr.start * ElemSize(h.typ), submatrix := true)
    else afterRows
  }

  /** Selecting everything changes nothing but marking a single row continuous. */
  lemma SubMatWhole(h: Header)
    requires h.rows > 0 && h.cols > 0
    ensures SubMat(h, All, All) == h.(continuous := h.continuous || h.rows == 1)
    ensures SubMat(h, Range(0, h.rows), Range(0, h.cols)) == h.(continuous := h.continuous || h.rows == 1)
  {
  }

  lemma AddMul(x: int, y: int, k: int)
    ensures (x + y) * k == x * k + y * k
  {
  }

  /** The ROI of a non-empty ROI is the ROI of the composed ranges. */
  lemma SubMatNested(h: Header, r1: Range, c1: Range, r2: Range, c2: Range)
    requires Within(r1, h.rows) && Within(c1, h.cols)
    requires SubMat(h, r1, c1).rows > 0 && SubMat(h, r1, c1).cols > 0
    requires Within(r2, SubMat(h, r1, c1).rows) && Within(c2, SubMat(h, r1, c1).cols)
    ensures Within(Compose(r1, r2), h.rows) && Within(Compose(c1, c2), h.cols)
    ensures var a, b := SubMat(SubMat(h, r1, c1), r2, c2), SubMat(h, Compose(r1, r2), Compose(c1, c2));
            (a.rows > 0 && a.cols > 0 <==> b.rows > 0 && b.cols > 0) && (a.rows > 0 && a.cols > 0 ==> a == b)
  {
    var s := SubMat(h, r1, c1);
    ComposeWithin(r1, r2, h.rows);
    ComposeWithin(c1, c2, h.cols);
    var rr, cr := Compose(r1, r2), Compose(c1, c2);
    var a, b := SubMat(s, r2, c2), SubMat(h, rr, cr);
    if a.rows > 0 && a.cols > 0 {
      AddMul(Start(r1), Start(r2), h.step);
      AddMul(Start(c1), Start(c2), ElemSize(h.typ));
    }
  }

  /** Where the page-locked ROI has data, it lies where OpenCV's ROI would; only the continuity flag may differ. */
  lemma PlRoiAgrees(h: Header, rr: Range, cr: Range)
    requires Within(rr, h.rows) && Within(cr, h.cols)
    requires SubMat(h, rr, cr).rows > 0 && SubMat(h, rr, cr).cols > 0
    ensures PlRoi(h, rr, cr) == SubMat(h, rr, cr).(continuous := h.continuous)
  {
  }

  /** `cv::Rect`: a rectangle at column `x`, row `y`. */
  datatype Rect = Rect(x: int, y: int, width: int, height: int)

  /** The ranges `operator ()( rect )` selects: rows `y` up to `y + height`, columns `x` up to `x + width`. */
  function RectRanges(r: Rect): (Range, Range)
  {
    (Range(r.y, r.y + r.height), Range(r.x, r.x + r.width))
  }

  /** The ranges `row( i )` selects: the single row `i` and all columns. */
  function RowRanges(i: int): (Range, Range)
  {
    (Range(i, i + 1), All)
  }

  /** The ranges `col( j )` selects: all rows and the single column `j`. */
  function ColRanges(j: int): (Range, Range)
  {
    (All, Range(j, j + 1))
  }

  /** The ranges `rowRange( start, end )` selects; `colRange` is its transpose. */
  function RowRangeRanges(start: int, end: int): (Range, Range)
  {
    (Range(start, end), All)
  }

  function ColRangeRanges(start: int, end: int): (Range, Range)
  {
    (All, Range(start, end))
  }

  /** A row of a matrix with columns is that one continuous row, `i` steps into the data. */
  lemma RowRoi(h: Header, i: int)
    requires 0 <= i < h.rows && h.cols > 0
    ensures var s := SubMat(h, RowRanges(i).0, RowRanges(i).1);
            s.rows == 1 && s.cols == h.cols && s.continuous && s.buffer == h.buffer && s.offset == h.offset + i * h.step
  {
  }

  /** A column of a matrix with rows is that one column, `j` elements into the data, continuous only as a single row. */
  lemma ColRoi(h: Header, j: int)
    requires 0 <= j < h.cols && h.rows > 0
    ensures var s := SubMat(h, ColRanges(j).0, ColRanges(j).1);
            && s.rows == h.rows && s.cols == 1 && s.buffer == h.buffer
            && s.offset == h.offset + j * ElemSize(h.typ)
            && (s.continuous <==> h.rows == 1 || (h.continuous && h.cols == 1))
  {
  }

  /** A non-empty rectangle inside the matrix selects a header of its own size at its corner. */
  lemma RectRoi(h: Header, r: Rect)
    requires 0 <= r.x && 0 < r.width && r.x + r.width <= h.cols
    requires 0 <= r.y && 0 < r.height && r.y + r.height <= h.rows
    ensures var s := SubMat(h, RectRanges(r).0, RectRanges(r).1);
            && s.rows == r.height && s.cols == r.width && s.buffer == h.buffer
            && s.offset == h.offset + r.y * h.step + r.x * ElemSize(h.typ)
            && (s.submatrix <==> h.submatrix || r.height < h.rows || r.width < h.cols)
  {
  }
}
