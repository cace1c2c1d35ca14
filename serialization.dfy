// The boost serialization of `cv::Mat` used to send camera images between
// the drone's processes. An archive is the sequence of values written into
// it; the binary or text encoding of each value is left to boost and not
// modelled.

module Serialization {
  import opened Wrappers
  import GpuRuntime
  import opened Images

  /** `boost::posix_time::ptime`: the special "not a date time" value, or microseconds since the epoch. */
  datatype Timestamp = NotADateTime | At(micros: int)

  /**
   * One value of an archive: an `int`, a `size_t`, an array of bytes, a time
   * stamp, or an `int` the program never initialised (whatever bits it held).
   */
  datatype Item = Int(i: int) | Size(n: nat) | Bytes(b: seq<bv8>) | Stamp(t: Timestamp) | Indeterminate

  /** A value of the wrong kind, or the end of the archive, where a value is expected. */
  const ErrStream := "input stream error"
  /** `Mat::create` refuses negative dimensions. */
  const ErrCreate := "Assertion failed (_rows >= 0 && _cols >= 0)"
  /** The stored element size disagrees with the stored type. */
  const ErrElemSize := "stored element size does not match the stored type"

  /** `boost::archive::*_oarchive`: the values written so far. */
  class OArchive {
    var items: seq<Item>

    constructor ()
      ensures items == []
    {
      items := [];
    }

    /** `ar & x` on an output archive */
    method Put(x: Item)
      modifies this
      ensures items == old(items) + [x]
    {
      items := items + [x];
    }
  }

  /** `boost::archive::*_iarchive`: the values of an archive and how many have been read. */
  class IArchive {
    const items: seq<Item>
    var pos: nat

    constructor (content: seq<Item>)
      ensures items == content && pos == 0
    {
      items := content;
      pos := 0;
    }

    /** The value at `p`, if it is an `int`. */
    static function IntAt(items: seq<Item>, p: nat): Option<int> {
      if p < |items| && items[p].Int? then Some(items[p].i) else None
    }

    /** The value at `p`, if it is a `size_t`. */
    static function SizeAt(items: seq<Item>, p: nat): Option<nat> {
      if p < |items| && items[p].Size? then Some(items[p].n) else None
    }

    /** `ar & i` for an `int`: the next value, which must be an `int`. */
    method ReadInt() returns (r: Result<int>)
      modifies this
      ensures IntAt(items, old(pos)).Some? ==> r == Ok(IntAt(items, old(pos)).value) && pos == old(pos) + 1
      ensures IntAt(items, old(pos)).None? ==> r == Err(ErrStream) && pos == old(pos)
    {
      if pos < |items| && items[pos].Int? {
        r := Ok(items[pos].i);
        pos := pos + 1;
      } else {
        r := Err(ErrStream);
      }
    }

    /** `ar & n` for a `size_t` */
    method ReadSize() returns (r: Result<nat>)
      modifies this
      ensures SizeAt(items, old(pos)).Some? ==> r == Ok(SizeAt(items, old(pos)).value) && pos == old(pos) + 1
      ensures SizeAt(items, old(pos)).None? ==> r == Err(ErrStream) && pos == old(pos)
    {
      if pos < |items| && items[pos].Size? {
        r := Ok(items[pos].n);
        pos := pos + 1;
      } else {
        r := Err(ErrStream);
      }
    }

    /** `ar & make_array(p, n)`: the next value, which must be an array of exactly `n` bytes. */
    method ReadBytes(n: int) returns (r: Result<seq<bv8>>)
      modifies this
      ensures BytesAt(items, old(pos), n) ==> r == Ok(items[old(pos)].b) && pos == old(pos) + 1
      ensures !BytesAt(items, old(pos), n) ==> r == Err(ErrStream) && pos == old(pos)
    {
      if pos < |items| && items[pos].Bytes? && |items[pos].b| == n {
        r := Ok(items[pos].b);
        pos := pos + 1;
      } else {
        r := Err(ErrStream);
      }
    }
  }

  /** The value at `p` is an array of `n` bytes. */
  predicate BytesAt(items: seq<Item>, p: nat, n: int) {
    p < |items| && items[p].Bytes? && |items[p].b| == n
  }

  /** With a step of at least a row's bytes, the buffer holds `rows * cols * elemSize` bytes. */
  lemma BufferHoldsElements(m: Mat)
    requires m.Valid()
    ensures m.cols * m.rows * m.ElemSize() == m.rows * m.RowBytes()
    ensures 0 <= m.rows * m.RowBytes() <= |m.data|
  {
    ElementsFit(m.rows, m.cols, m.ElemSize(), m.step, |m.data|);
  }

  lemma ElementsFit(rows: int, cols: int, es: int, step: int, len: int)
    requires rows >= 0 && cols >= 0 && es >= 1 && step >= cols * es && len >= 0
    requires rows > 0 ==> len >= (rows - 1) * step + cols * es
    ensures cols * rows * es == rows * (cols * es)
    ensures 0 <= rows * (cols * es) <= len
  {
    Reassociate(cols, rows, es);
    var w := cols * es;
    NonNegProduct(cols, es);
    NonNegProduct(rows, w);
    if rows > 0 {
      StepAtLeastRow(rows, step, w);
      MulSplit(rows, w);
    }
  }

  lemma Reassociate(cols: int, rows: int, es: int)
    ensures cols * rows * es == rows * (cols * es)
  {
  }

  lemma NonNegProduct(a: int, b: int)
    requires a >= 0 && b >= 0
    ensures a * b >= 0
  {
  }

  lemma StepAtLeastRow(rows: int, step: int, w: int)
    requires rows >= 1 && step >= w
    ensures (rows - 1) * step >= (rows - 1) * w
  {
  }

  /** The header `save` writes: columns, rows, element size and type. */
  function Header(m: Mat): seq<Item> {
    [Int(m.cols), Int(m.rows), Size(m.ElemSize()), Size(m.typ)]
  }

  /**
   * The values `save` writes as written: the header, then `cols * rows *
   * elemSize` bytes read contiguously from the first row, so a matrix with
   * padding between its rows contributes padding bytes and misses the end of
   * its last rows.
   */
  function MatItemsAsWritten(m: Mat): (r: seq<Item>)
    requires m.Valid()
    ensures |r| == 5 && r[..4] == Header(m)
    ensures r[4] == Bytes(LeadingBytes(m))
  {
    Header(m) + [Bytes(LeadingBytes(m))]
  }

  /** The `rows * cols * elemSize` bytes from the start of the buffer. */
  function LeadingBytes(m: Mat): (b: seq<bv8>)
    requires m.Valid()
    ensures |b| == m.rows * m.RowBytes() && b <= m.data
  {
    BufferHoldsElements(m);
    m.data[..m.rows * m.RowBytes()]
  }

  /** The values the intended `save` writes: the header, then the element bytes row by row. */
  function MatItems(m: Mat): (r: seq<Item>)
    requires m.Valid()
    ensures |r| == 5 && r[..4] == Header(m) && r[4] == Bytes(Contents(m))
  {
    Header(m) + [Bytes(Contents(m))]
  }

  /** For a continuous matrix the written and the intended `save` agree. */
  lemma SaveAgreesWhenContinuous(m: Mat)
    requires m.Valid() && m.Continuous()
    ensures MatItemsAsWritten(m) == MatItems(m)
  {
    ContinuousContents(m);
  }

  /** `save(ar, m)` as written */
  method SaveAsWritten(ar: OArchive, m: Mat)
    requires m.Valid()
    modifies ar
    ensures ar.items == old(ar.items) + MatItemsAsWritten(m)
  {
    var elemSize := m.ElemSize();
    var elemType := m.typ;
    ar.Put(Int(m.cols));
    ar.Put(Int(m.rows));
    ar.Put(Size(elemSize));
    ar.Put(Size(elemType));
    var dataSize := m.cols * m.rows * elemSize;
    BufferHoldsElements(m);
    assert dataSize == m.rows * m.RowBytes();
    ar.Put(Bytes(m.data[..dataSize]));
  }

  /** `save(ar, m)` writing the element bytes of each row */
  method Save(ar: OArchive, m: Mat)
    requires m.Valid()
    modifies ar
    ensures ar.items == old(ar.items) + MatItems(m)
  {
    var elemSize := m.ElemSize();
    var elemType := m.typ;
    ar.Put(Int(m.cols));
    ar.Put(Int(m.rows));
    ar.Put(Size(elemSize));
    ar.Put(Size(elemType));
    ar.Put(Bytes(Contents(m)));
  }

  /**
   * What `load` reads at position `p`: columns, rows, element size and type;
   * a fresh continuous matrix of that size and type (the type masked to its
   * twelve bits, as `Mat::create` does); then `cols * rows * elemSize` bytes
   * with the stored element size. Returns the matrix and the next position.
   */
  function LoadAt(items: seq<Item>, p: nat): (r: Result<(Mat, nat)>)
    ensures r.Ok? ==> r.value.0.Valid() && r.value.0.Continuous() && r.value.1 == p + 5
  {
    var cols := IArchive.IntAt(items, p);
    var rows := IArchive.IntAt(items, p + 1);
    var elemSize := IArchive.SizeAt(items, p + 2);
    var elemType := IArchive.SizeAt(items, p + 3);
    if cols.None? || rows.None? || elemSize.None? || elemType.None? then Err(ErrStream)
    else if rows.value < 0 || cols.value < 0 then Err(ErrCreate)
    else
      var typ: MatType := elemType.value % 4096;
      var dataSize := cols.value * rows.value * elemSize.value;
      if !BytesAt(items, p + 4, dataSize) then Err(ErrStream)
      else if elemSize.value != GpuRuntime.ElemSize(typ) then Err(ErrElemSize)
      else
        assert dataSize == rows.value * (cols.value * GpuRuntime.ElemSize(typ));
        Ok((Packed(rows.value, cols.value, typ, items[p + 4].b), p + 5))
  }

  /** `load(ar, m)`: the loaded matrix, or the error that ends the loading. */
  method Load(ar: IArchive) returns (r: Result<Mat>)
    modifies ar
    ensures LoadAt(ar.items, old(ar.pos)).Ok? ==>
              r == Ok(LoadAt(ar.items, old(ar.pos)).value.0) && ar.pos == LoadAt(ar.items, old(ar.pos)).value.1
    ensures LoadAt(ar.items, old(ar.pos)).Err? ==> r == Err(LoadAt(ar.items, old(ar.pos)).msg)
  {
    var cols := ar.ReadInt();
    if cols.Err? { return Err(cols.msg); }
    var rows := ar.ReadInt();
    if rows.Err? { return Err(rows.msg); }
    var elemSize := ar.ReadSize();
    if elemSize.Err? { return Err(elemSize.msg); }
    var elemType := ar.ReadSize();
    if elemType.Err? { return Err(elemType.msg); }
    if rows.value < 0 || cols.value < 0 {
      return Err(ErrCreate);
    }
    var typ: MatType := elemType.value % 4096;
    var dataSize := cols.value * rows.value * elemSize.value;
    var bytes := ar.ReadBytes(dataSize);
    if bytes.Err? { return Err(bytes.msg); }
    if elemSize.value != GpuRuntime.ElemSize(typ) {
      return Err(ErrElemSize);
    }
    assert dataSize == rows.value * (cols.value * GpuRuntime.ElemSize(typ));
    r := Ok(Packed(rows.value, cols.value, typ, bytes.value));
  }

  /** Loading the values `items` holds at `p` as written by the intended `save` of `m`. */
  lemma LoadSaved(items: seq<Item>, p: nat, m: Mat, bytes: seq<bv8>)
    requires m.Valid() && p + 5 <= |items| && items[p..p + 4] == Header(m)
    requires items[p + 4] == Bytes(bytes) && |bytes| == m.rows * m.RowBytes()
    ensures LoadAt(items, p) == Ok((Packed(m.rows, m.cols, m.typ, bytes), p + 5))
  {
    assert items[p] == Header(m)[0] && items[p + 1] == Header(m)[1];
    assert items[p + 2] == Header(m)[2] && items[p + 3] == Header(m)[3];
    assert IArchive.IntAt(items, p) == Some(m.cols) && IArchive.IntAt(items, p + 1) == Some(m.rows);
    assert IArchive.SizeAt(items, p + 2) == Some(m.ElemSize()) && IArchive.SizeAt(items, p + 3) == Some(m.typ);
    assert m.typ % 4096 == m.typ;
    BufferHoldsElements(m);
    assert BytesAt(items, p + 4, m.cols * m.rows * m.ElemSize());
  }

  /**
   * Loading after the intended `save`, whatever precedes and follows in the
   * archive, yields a continuous matrix of the same size, type and elements,
   * and continues after the saved values.
   */
  lemma RoundTrip(m: Mat, before: seq<Item>, after: seq<Item>)
    requires m.Valid()
    ensures var r := LoadAt(before + MatItems(m) + after, |before|);
            r.Ok? && r.value.1 == |before| + 5 &&
            r.value.0.rows == m.rows && r.value.0.cols == m.cols && r.value.0.typ == m.typ &&
            Contents(r.value.0) == Contents(m)
  {
    var items := before + MatItems(m) + after;
    assert items[|before|..|before| + 4] == MatItems(m)[..4];
    assert items[|before| + 4] == MatItems(m)[4];
    LoadSaved(items, |before|, m, Contents(m));
  }

  /** Loading after `save` as written reproduces a continuous matrix. */
  lemma RoundTripAsWrittenWhenContinuous(m: Mat, before: seq<Item>, after: seq<Item>)
    requires m.Valid() && m.Continuous()
    ensures var r := LoadAt(before + MatItemsAsWritten(m) + after, |before|);
            r.Ok? && r.value.0.rows == m.rows && r.value.0.cols == m.cols && r.value.0.typ == m.typ &&
            Contents(r.value.0) == Contents(m)
  {
    SaveAgreesWhenContinuous(m);
    RoundTrip(m, before, after);
  }

  /**
   * A 2 x 1 byte matrix with one padding byte after its first row, as a
   * column of a wider image: `save` as written stores the padding byte 9 in
   * place of the second element 2, so loading gives back [1, 9].
   */
  lemma SaveAsWrittenStoresPadding()
    ensures var m := Mat(2, 1, GpuRuntime.CV_8UC1, 2, [1, 9, 2]);
            m.Valid() && Contents(m) == [1, 2] &&
            LoadAt(MatItemsAsWritten(m), 0).Ok? && Contents(LoadAt(MatItemsAsWritten(m), 0).value.0) == [1, 9]
  {
    var m := Mat(2, 1, GpuRuntime.CV_8UC1, 2, [1, 9, 2]);
    assert m.RowBytes() == 1;
    assert Contents(m) == [1] + Rows([2], 2, 1, 1) == [1, 2];
    var items := MatItemsAsWritten(m);
    assert items[..4] == Header(m) && items[4] == Bytes([1, 9]);
    LoadSaved(items, 0, m, [1, 9]);
  }
}
