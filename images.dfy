// `cv::Mat` as the drone application sees it: a header (rows, columns,
// element type, row step in bytes) over a byte buffer that starts at the
// first row. Only the bytes the header addresses matter; pixel values are
// left uninterpreted.

module Images {
  import GpuRuntime

  type MatType = GpuRuntime.MatType

  /**
   * A matrix of `rows` x `cols` elements of type `typ`; row `i` starts at
   * byte `i * step` of `data`. Between the end of a row's elements and the
   * next row lie `step - cols * elemSize` padding bytes, as in a region of
   * interest of a larger image.
   */
  datatype Mat = Mat(rows: int, cols: int, typ: MatType, step: int, data: seq<bv8>)
  {
    /** `elemSize()` */
    function ElemSize(): int {
      GpuRuntime.ElemSize(typ)
    }

    /** The bytes of the elements of one row. */
    function RowBytes(): int {
      cols * ElemSize()
    }

    /** The header fits the buffer: every addressed byte exists. */
    ghost predicate Valid() {
      rows >= 0 && cols >= 0 && step >= RowBytes() && (rows > 0 ==> |data| >= (rows - 1) * step + RowBytes())
    }

    /** `empty()`: no elements. */
    predicate Empty() {
      rows == 0 || cols == 0
    }

    /** `isContinuous()`: the rows follow each other without padding. */
    predicate Continuous() {
      rows <= 1 || step == RowBytes()
    }
  }

  /** The matrix `Mat()` of the default constructor and of `release()`. */
  const EmptyMat := Mat(0, 0, GpuRuntime.CV_8UC1, 0, [])

  /** The bounds a further row needs: the rest of the buffer after one step holds the other rows. */
  lemma NextRow(len: int, step: int, w: int, n: int)
    requires n >= 2 && 0 <= w <= step && len >= (n - 1) * step + w
    ensures step <= len && len - step >= (n - 2) * step + w
    ensures n * w == w + (n - 1) * w
  {
    assert (n - 1) * step == (n - 2) * step + step;
    assert (n - 2) * step >= 0;
  }

  lemma MulSplit(n: int, w: int)
    ensures n * w == w + (n - 1) * w
  {
  }

  /** The first `w` bytes of each of `n` rows `step` bytes apart, concatenated. */
  function Rows(data: seq<bv8>, step: int, w: int, n: int): (r: seq<bv8>)
    requires n >= 0 && 0 <= w <= step
    requires n > 0 ==> |data| >= (n - 1) * step + w
    ensures |r| == n * w
    decreases n
  {
    if n == 0 then []
    else if n == 1 then data[..w]
    else
      NextRow(|data|, step, w, n);
      data[..w] + Rows(data[step..], step, w, n - 1)
  }

  /** The element bytes of a matrix, row after row, without padding. */
  function Contents(m: Mat): (r: seq<bv8>)
    requires m.Valid()
    ensures |r| == m.rows * m.RowBytes()
  {
    Rows(m.data, m.step, m.RowBytes(), m.rows)
  }

  /** Without padding the element bytes are simply the start of the buffer. */
  lemma {:induction false} RowsContiguous(data: seq<bv8>, w: int, n: int)
    requires n >= 0 && 0 <= w
    requires n > 0 ==> |data| >= (n - 1) * w + w
    ensures |data| >= n * w
    ensures Rows(data, w, w, n) == data[..n * w]
    decreases n
  {
    MulSplit(n, w);
    if n > 1 {
      NextRow(|data|, w, w, n);
      RowsContiguous(data[w..], w, n - 1);
      assert data[..w] + data[w..][..(n - 1) * w] == data[..n * w];
    }
  }

  /** A continuous matrix's element bytes are the first `rows * cols * elemSize` bytes of its buffer. */
  lemma ContinuousContents(m: Mat)
    requires m.Valid() && m.Continuous()
    ensures |m.data| >= m.rows * m.RowBytes()
    ensures Contents(m) == m.data[..m.rows * m.RowBytes()]
  {
    if m.rows <= 1 {
      assert m.rows * m.RowBytes() == if m.rows == 0 then 0 else m.RowBytes();
    } else {
      RowsContiguous(m.data, m.RowBytes(), m.rows);
    }
  }

  /** A continuous matrix of `rows` x `cols` elements of type `typ` holding `bytes`. */
  function Packed(rows: int, cols: int, typ: MatType, bytes: seq<bv8>): (m: Mat)
    requires rows >= 0 && cols >= 0 && |bytes| == rows * (cols * GpuRuntime.ElemSize(typ))
    ensures m.Valid() && m.Continuous() && Contents(m) == bytes
    ensures m.rows == rows && m.cols == cols && m.typ == typ
  {
    var m := Mat(rows, cols, typ, cols * GpuRuntime.ElemSize(typ), bytes);
    MulSplit(rows, m.RowBytes());
    ContinuousContents(m);
    m
  }

  /** `clone()`: a fresh continuous matrix with the same size, type and elements. */
  function Clone(m: Mat): (c: Mat)
    requires m.Valid()
    ensures c.Valid() && c.Continuous()
    ensures c.rows == m.rows && c.cols == m.cols && c.typ == m.typ && Contents(c) == Contents(m)
  {
    Packed(m.rows, m.cols, m.typ, Contents(m))
  }
}
