// The size-binned memory pool: per GPU and for page-locked host memory, 64
// buckets of buffers whose sizes are powers of two. A request is padded to
// the largest alignment of all GPUs, served by the bucket of the least power
// of two that holds it, and satisfied by the first entry nobody but the pool
// references, or by a new entry.

module Pool {
  import opened Wrappers
  import Hardware
  import opened GpuRuntime

  const BucketCount: nat := 64

  function Pow2(n: nat): (r: nat)
    ensures r >= 1
  {
    if n == 0 then 1 else 2 * Pow2(n - 1)
  }

  /** 2^63: the largest request the bucket arithmetic serves. */
  const SizeLimit: nat := 0x8000_0000_0000_0000

  lemma {:induction false} Pow2Add(a: nat, b: nat)
    ensures Pow2(a + b) == Pow2(a) * Pow2(b)
    decreases b
  {
    if b > 0 {
      Pow2Add(a, b - 1);
    }
  }

  lemma SizeLimitIsPow2()
    ensures Pow2(63) == SizeLimit
  {
    assert Pow2(1) == 2;
    Pow2Add(1, 1);
    assert Pow2(2) == 4;
    Pow2Add(2, 2);
    assert Pow2(4) == 16;
    Pow2Add(4, 4);
    assert Pow2(8) == 256;
    Pow2Add(8, 8);
    assert Pow2(16) == 0x1_0000;
    Pow2Add(16, 16);
    assert Pow2(32) == 0x1_0000_0000;
    Pow2Add(31, 1);
    assert Pow2(31) == 0x8000_0000;
    Pow2Add(31, 32);
  }

  lemma {:induction false} Pow2Monotone(a: nat, b: nat)
    requires a <= b
    ensures Pow2(a) <= Pow2(b)
    decreases b
  {
    if a < b {
      Pow2Monotone(a, b - 1);
    }
  }

  /** The number of binary digits of `x`, i.e. `64 - clzll(x)` for a 64-bit `x`, and 0 for 0. */
  function BitLength(x: nat): nat
  {
    if x == 0 then 0 else 1 + BitLength(x / 2)
  }

  lemma {:induction false} BitLengthBounds(x: nat)
    ensures x < Pow2(BitLength(x))
    ensures x > 0 ==> Pow2(BitLength(x) - 1) <= x
    decreases x
  {
    if x > 0 {
      BitLengthBounds(x / 2);
    }
  }

  lemma {:induction false} BitLengthAtMost(x: nat, n: nat)
    requires x < Pow2(n)
    ensures BitLength(x) <= n
    decreases n
  {
    if x > 0 {
      BitLengthAtMost(x / 2, n - 1);
    }
  }

  /** `hawaii::GPUAlignmentMax()`: the largest alignment of all device slots. */
  function Align(hw: Hardware.Platform): (a: int)
    requires hw.WellFormed()
    ensures a >= 1
  {
    Hardware.AlignmentMaxInstance(hw)
  }

  /** `( ( elem * cols + align - 1 ) / align ) * align` */
  function PaddedStep(elem: int, cols: int, align: int): int
    requires align >= 1
  {
    ((elem * cols + align - 1) / align) * align
  }

  /** The padded row step is the least multiple of the alignment that holds a row. */
  lemma PaddedStepIsLeastMultiple(elem: nat, cols: nat, align: int)
    requires align >= 1
    ensures PaddedStep(elem, cols, align) % align == 0
    ensures elem * cols <= PaddedStep(elem, cols, align) < elem * cols + align
  {
    var w := elem * cols;
    var q := (w + align - 1) / align;
    var m := (w + align - 1) % align;
    assert w + align - 1 == q * align + m;
    MultipleMod(q, align);
  }

  lemma MultipleMod(q: nat, a: int)
    requires a >= 1
    ensures (q * a) % a == 0
  {
    var x := q * a;
    var d, r := x / a, x % a;
    assert x == d * a + r && 0 <= r < a;
    var k := q - d;
    DistribSub(q, d, a);
    assert k * a == r;
    assert (-k) * a == -r;
    if k >= 1 {
      MulAtLeast(k, a);
    } else if k <= -1 {
      MulAtLeast(-k, a);
    }
    assert k == 0;
  }

  lemma DistribSub(q: int, d: int, a: int)
    ensures (q - d) * a == q * a - d * a
  {
  }

  lemma MulAtLeast(k: int, a: int)
    requires k >= 1 && a >= 1
    ensures k * a >= a
  {
  }

  /** `step * rows`, the bytes a request of `rows` x `cols` elements of type `typ` occupies. */
  function PaddedTotal(hw: Hardware.Platform, rows: int, cols: int, typ: MatType): int
    requires hw.WellFormed()
  {
    PaddedStep(ElemSize(typ), cols, Align(hw)) * rows
  }

  /** A request the pool rejects (fewer than one row or column) or one that fits the largest bucket. */
  predicate Fits(hw: Hardware.Platform, rows: int, cols: int, typ: MatType)
    requires hw.WellFormed()
  {
    rows < 1 || cols < 1 || PaddedTotal(hw, rows, cols, typ) <= SizeLimit
  }

  /** A region of a request fits whenever the request does. */
  lemma FitsShrinks(hw: Hardware.Platform, rows: int, cols: int, rows': int, cols': int, typ: MatType)
    requires hw.WellFormed() && Fits(hw, rows, cols, typ)
    requires 0 <= rows' <= rows && 0 <= cols' <= cols
    ensures Fits(hw, rows', cols', typ)
  {
    if rows' >= 1 && cols' >= 1 {
      var e, a := ElemSize(typ), Align(hw);
      PaddedStepLe(e, cols', cols, a);
      var s', s := PaddedStep(e, cols', a), PaddedStep(e, cols, a);
      PaddedStepIsLeastMultiple(e, cols', a);
      MulLe(s', rows', rows);
      MulLe(rows, s', s);
      assert PaddedTotal(hw, rows', cols', typ) == s' * rows';
      assert PaddedTotal(hw, rows, cols, typ) == s * rows;
    }
  }

  /** The padded row step grows with the number of columns. */
  lemma PaddedStepLe(e: nat, c': nat, c: nat, a: int)
    requires a >= 1 && c' <= c
    ensures PaddedStep(e, c', a) <= PaddedStep(e, c, a)
  {
    MulLe(e, c', c);
    DivLe(e * c' + a - 1, e * c + a - 1, a);
    MulLe(a, (e * c' + a - 1) / a, (e * c + a - 1) / a);
  }

  lemma MulLe(k: int, x: int, y: int)
    requires k >= 0 && x <= y
    ensures k * x <= k * y && x * k <= y * k
  {
    assert k * y - k * x == k * (y - x);
  }

  lemma DivLe(x: int, y: int, a: int)
    requires a >= 1 && 0 <= x <= y
    ensures x / a <= y / a
  {
    assert a * (x / a) <= x;
    assert y < a * (y / a + 1) by {
      assert a * (y / a + 1) == a * (y / a) + a;
    }
    if x / a > y / a {
      MulLe(a, y / a + 1, x / a);
    }
  }

  lemma PaddedTotalPositive(hw: Hardware.Platform, rows: int, cols: int, typ: MatType)
    requires hw.WellFormed() && rows >= 1 && cols >= 1
    ensures PaddedTotal(hw, rows, cols, typ) >= 1
  {
    PaddedStepIsLeastMultiple(ElemSize(typ), cols, Align(hw));
    var step := PaddedStep(ElemSize(typ), cols, Align(hw));
    MulAtLeast(cols, ElemSize(typ));
    MulAtLeast(rows, step);
  }

  /**
   * The bucket serving `total` bytes: the bit length of `total - 1`, so that its
   * size `2^index` is the least power of two holding `total`. A request of one
   * byte goes to bucket 0.
   */
  function BucketIndex(total: int): (i: nat)
    requires 1 <= total <= SizeLimit
    ensures i < BucketCount
    ensures total <= Pow2(i)
    ensures i > 0 ==> Pow2(i - 1) < total
  {
    SizeLimitIsPow2();
    BitLengthBounds(total - 1);
    BitLengthAtMost(total - 1, 63);
    BitLength(total - 1)
  }

  /** The bytes of every entry in bucket `i`. */
  function BucketBytes(i: nat): nat
  {
    Pow2(i)
  }

  /** Bucket `i` holds exactly the sizes in (2^(i-1), 2^i]. */
  lemma BucketIsLeastPowerOfTwo(total: int, i: nat)
    requires 1 <= total <= SizeLimit && i < BucketCount
    ensures BucketIndex(total) == i <==> total <= BucketBytes(i) && (i == 0 || BucketBytes(i - 1) < total)
  {
    var j := BucketIndex(total);
    if total <= Pow2(i) && (i == 0 || Pow2(i - 1) < total) {
      if j < i {
        Pow2Monotone(j, i - 1);
      } else if j > i {
        Pow2Monotone(i, j - 1);
      }
    }
  }

  /** The padded row step of a request. */
  function RowStep(hw: Hardware.Platform, cols: int, typ: MatType): int
    requires hw.WellFormed()
  {
    PaddedStep(ElemSize(typ), cols, Align(hw))
  }

  /** The bucket serving a request of `rows` x `cols` elements of type `typ`. */
  function RequestBucket(hw: Hardware.Platform, rows: int, cols: int, typ: MatType): (i: nat)
    requires hw.WellFormed() && rows >= 1 && cols >= 1 && Fits(hw, rows, cols, typ)
    ensures i < BucketCount
    ensures PaddedTotal(hw, rows, cols, typ) <= BucketBytes(i)
    ensures i > 0 ==> BucketBytes(i - 1) < PaddedTotal(hw, rows, cols, typ)
  {
    PaddedTotalPositive(hw, rows, cols, typ);
    BucketIndex(PaddedTotal(hw, rows, cols, typ))
  }

  /**
   * The requested view stamped onto a pool buffer: `rows`, `cols`, `step`, the
   * type in the flags, continuous iff a single row or unpadded rows, and
   * `data` at the start of the buffer.
   */
  function Stamp(b: BufferId, rows: int, cols: int, typ: MatType, step: int): Header
  {
    Header(b, 0, rows, cols, typ, step, rows == 1 || ElemSize(typ) * cols == step, false)
  }

  // ---------------------------------------------------------------------------
  // The bucket arithmetic as written

  /** `__builtin_clzll(x)`: leading zero bits of a 64-bit value; undefined for 0. */
  function Clz64(x: int): (z: nat)
    requires 1 <= x < Pow2(64)
    ensures z < 64
  {
    BitLengthBounds(x);
    BitLengthAtMost(x, 64);
    64 - BitLength(x)
  }

  /** `64 - __builtin_clzll( total - 1 )` as written: defined only when `total - 1` is non-zero. */
  function BucketIndexAsWritten(total: int): nat
    requires 2 <= total <= SizeLimit
  {
    SizeLimitIsPow2();
    Pow2Monotone(63, 64);
    64 - Clz64(total - 1)
  }

  lemma BucketIndexAsWrittenAgrees(total: int)
    requires 2 <= total <= SizeLimit
    ensures BucketIndexAsWritten(total) == BucketIndex(total)
  {
  }

  /** A platform on which CUDA is compiled in but reports no device. */
  function NoDevicePlatform(): (p: Hardware.Platform)
    ensures p.WellFormed() && p.cudaCompiled
  {
    Hardware.Platform(true, Some(0), seq(Hardware.GpusMax, _ => Hardware.DeviceFacts(None, None, None, None)))
  }

  /**
   * A request of one element of one byte, on a platform whose largest
   * alignment is 1, is padded to a total of 1 byte: `clzll(0)` is evaluated,
   * outside the domain of the as-written bucket index.
   */
  lemma OneByteRequestHasNoBucketAsWritten()
    ensures Align(NoDevicePlatform()) == 1
    ensures Fits(NoDevicePlatform(), 1, 1, CV_8UC1)
    ensures PaddedTotal(NoDevicePlatform(), 1, 1, CV_8UC1) == 1
  {
    var p := NoDevicePlatform();
    var k :| 0 <= k < Hardware.GpusMax && Align(p) == Hardware.AlignmentImpl(p, k);
    assert Hardware.GpusImpl(p) == 0;
  }

  /** The two's complement value of an `int` bit pattern of 32 bits. */
  function Int32(x: int): int
    requires 0 <= x < Pow2(32)
  {
    if x >= Pow2(31) then x - Pow2(32) else x
  }

  /** `const size_t bytes = 1 << poolIdx` as written: an `int` shift, then a conversion to 64-bit `size_t`. */
  function BucketBytesAsWritten(idx: nat): int
    requires idx < 32
  {
    Pow2Monotone(idx, 31);
    var asInt := Int32(Pow2(idx));
    if asInt < 0 then asInt + Pow2(64) else asInt
  }

  /**
   * A request of 2^31 bytes lands in bucket 31, whose size the `int` shift
   * computes as 2^64 - 2^31 instead of 2^31.
   */
  lemma BucketBytesAsWrittenOverflows()
    ensures Pow2(31) <= SizeLimit && BucketIndex(Pow2(31)) == 31
    ensures BucketBytesAsWritten(31) == Pow2(64) - Pow2(31) != BucketBytes(31)
  {
    SizeLimitIsPow2();
    Pow2Monotone(31, 63);
    BucketIsLeastPowerOfTwo(Pow2(31), 31);
    Pow2Monotone(33, 64);
  }

  /** Below bucket 31 the as-written shift is exact. */
  lemma BucketBytesAsWrittenAgreesBelow31(idx: nat)
    requires idx < 31
    ensures BucketBytesAsWritten(idx) == BucketBytes(idx)
  {
    Pow2Monotone(idx, 30);
  }

  // ---------------------------------------------------------------------------
  // `allocateReally` for a GpuMat as written

  /**
   * `gpuMatArg.create(1, bytes, CV_8UC1)` as written: OpenCV's `create` leaves
   * a header that already has data, one row, `bytes` columns and type CV_8UC1
   * as it is, and otherwise allocates the next new buffer `next`.
   */
  function CreateAsWritten(h: Header, bytes: int, next: BufferId): (b: BufferId)
    ensures b == next || (b == h.buffer && h.HasData())
    ensures h.HasData() && h.rows == 1 && h.cols == bytes && h.typ == CV_8UC1 ==> b == h.buffer
  {
    if h.HasData() && h.rows == 1 && h.cols == bytes && h.typ == CV_8UC1 then h.buffer else next
  }

  /**
   * The not-found branch of `allocateFromPoolSet` as written: the bucket and
   * the reference counts after `allocateReally` into the handle `h` and
   * `push_back`. A kept buffer only gains the bucket's reference; a new one
   * has the handle's and the bucket's.
   */
  function AppendAsWritten(rc: map<BufferId, int>, bucket: seq<BufferId>, h: Header, bytes: int, next: BufferId)
    : (r: (seq<BufferId>, map<BufferId, int>))
    requires next !in rc
    ensures r.0 == bucket + [CreateAsWritten(h, bytes, next)]
    ensures CreateAsWritten(h, bytes, next) == next ==> r.1 == Released(rc, h.buffer)[next := 2]
    ensures CreateAsWritten(h, bytes, next) != next ==> r.1 == Retained(rc, h.buffer)
  {
    var b := CreateAsWritten(h, bytes, next);
    if b == next then (bucket + [b], Released(rc, h.buffer)[b := 2]) else (bucket + [b], Retained(rc, b))
  }

  /**
   * The duplicate entry, as written. The handle holds entry `e` of bucket `i`
   * (count 2: the pool and the handle) stamped as one row of `2^i` bytes of
   * CV_8UC1, which is what a request of exactly that size leaves. Without
   * unified addressing the keep-check is skipped, and the same request again
   * finds `e` not available; `create` keeps `e` and `push_back` appends it a
   * second time. Once the handle lets go, `e` still has count 2, so neither of
   * its two entries is ever available again.
   */
  lemma DuplicateEntryAsWritten(hw: Hardware.Platform, i: nat, e: BufferId, next: BufferId)
    requires hw.WellFormed() && i < BucketCount && RowStep(hw, BucketBytes(i), CV_8UC1) == BucketBytes(i)
    requires 0 <= e && next != e
    ensures Fits(hw, 1, BucketBytes(i), CV_8UC1) && RequestBucket(hw, 1, BucketBytes(i), CV_8UC1) == i
    ensures FirstAvailable(map[e := 2], [e]) == None
    ensures var h := Stamp(e, 1, BucketBytes(i), CV_8UC1, BucketBytes(i));
            var r := AppendAsWritten(map[e := 2], [e], h, BucketBytes(i), next);
            && r.0 == [e, e]
            && r.1 == map[e := 3]
            && FirstAvailable(Released(r.1, e), r.0) == None
  {
    Pow2Monotone(i, 63);
    SizeLimitIsPow2();
    BucketIsLeastPowerOfTwo(BucketBytes(i), i);
    var h := Stamp(e, 1, BucketBytes(i), CV_8UC1, BucketBytes(i));
    assert CreateAsWritten(h, BucketBytes(i), next) == e;
    var r := AppendAsWritten(map[e := 2], [e], h, BucketBytes(i), next);
    assert Released(r.1, e)[e] == 2;
  }

  // ---------------------------------------------------------------------------
  // The pool

  /** A set of buckets: the own memory of one GPU, or page-locked host memory shared by all GPUs. */
  datatype Domain = OwnMemory(gpu: nat) | PageLocked
  {
    predicate Exists() { PageLocked? || gpu < Hardware.GpusMax }
    function Location(): Location {
      match this
      case OwnMemory(g) => Device(g)
      case PageLocked => Pinned(true, true)
    }
  }

  /** A pool entry is available iff its reference count is 1: the pool itself is its only user. */
  predicate Available(rc: map<BufferId, int>, b: BufferId)
  {
    b in rc && rc[b] == 1
  }

  /** The index of the first available entry. */
  function FirstAvailable(rc: map<BufferId, int>, entries: seq<BufferId>): (r: Option<nat>)
    ensures r.Some? ==> r.value < |entries| && Available(rc, entries[r.value])
    ensures r.Some? ==> forall j :: 0 <= j < r.value ==> !Available(rc, entries[j])
    ensures r.None? ==> forall j :: 0 <= j < |entries| ==> !Available(rc, entries[j])
  {
    if entries == [] then None
    else if Available(rc, entries[0]) then Some(0)
    else match FirstAvailable(rc, entries[1..])
      case None => None
      case Some(k) => Some(k + 1)
  }

  /** The header the pool keeps for an entry: one row of the entry's bytes. */
  function EntryHeader(rt: Runtime, b: BufferId): Header
    reads rt
    requires b in rt.bytes
  {
    Header(b, 0, 1, rt.bytes[b], CV_8UC1, rt.bytes[b], true, false)
  }

  /** One line of `stringifyPoolSet`: a non-empty bucket, its size range and its available and lent entries. */
  datatype StatusLine = StatusLine(poolIdx: nat, bytesMin: int, bytesMax: int, available: nat, lent: nat)

  /** The entries of `entries` that are lent, i.e. referenced by more than the pool. */
  function Lent(rc: map<BufferId, int>, entries: seq<BufferId>): (n: nat)
    ensures n <= |entries|
  {
    if entries == [] then 0
    else Lent(rc, entries[..|entries| - 1]) + (if entries[|entries| - 1] in rc && rc[entries[|entries| - 1]] > 1 then 1 else 0)
  }

  /** The status line of bucket `i`. */
  function LineOf(rc: map<BufferId, int>, entries: seq<BufferId>, i: nat): StatusLine
  {
    StatusLine(i, BucketBytes(i) / 2 + 1, BucketBytes(i), |entries| - Lent(rc, entries), Lent(rc, entries))
  }

  /** A bucket has no lent entry iff every entry is available, and is all lent iff no entry is available. */
  lemma {:induction false} LentExtremes(rc: map<BufferId, int>, entries: seq<BufferId>)
    requires forall k :: 0 <= k < |entries| ==> entries[k] in rc && rc[entries[k]] >= 1
    ensures Lent(rc, entries) == 0 <==> forall k :: 0 <= k < |entries| ==> Available(rc, entries[k])
    ensures Lent(rc, entries) == |entries| <==> forall k :: 0 <= k < |entries| ==> !Available(rc, entries[k])
    decreases |entries|
  {
    if entries != [] {
      var init := entries[..|entries| - 1];
      LentExtremes(rc, init);
      assert forall k :: 0 <= k < |init| ==> init[k] == entries[k];
    }
  }

  /** The status lines of the first `n` buckets, skipping empty ones. */
  function Report(rc: map<BufferId, int>, buckets: seq<seq<BufferId>>, n: nat): seq<StatusLine>
    requires n <= |buckets|
  {
    if n == 0 then []
    else Report(rc, buckets, n - 1) + (if |buckets[n - 1]| > 0 then [LineOf(rc, buckets[n - 1], n - 1)] else [])
  }

  /** Every line of a report is that of a non-empty bucket, and splits it into available and lent entries. */
  lemma {:induction false} ReportOnlyNonEmpty(rc: map<BufferId, int>, buckets: seq<seq<BufferId>>, n: nat)
    requires n <= |buckets|
    ensures forall l :: l in Report(rc, buckets, n) ==>
              && l.poolIdx < n && |buckets[l.poolIdx]| > 0 && l == LineOf(rc, buckets[l.poolIdx], l.poolIdx)
              && l.available + l.lent == |buckets[l.poolIdx]|
  {
    if n > 0 {
      ReportOnlyNonEmpty(rc, buckets, n - 1);
    }
  }

  /** Every non-empty bucket is reported. */
  lemma {:induction false} ReportAllNonEmpty(rc: map<BufferId, int>, buckets: seq<seq<BufferId>>, n: nat)
    requires n <= |buckets|
    ensures forall i :: 0 <= i < n && |buckets[i]| > 0 ==> LineOf(rc, buckets[i], i) in Report(rc, buckets, n)
  {
    if n > 0 {
      ReportAllNonEmpty(rc, buckets, n - 1);
    }
  }

  /** Lines appear in increasing bucket order. */
  lemma {:induction false} ReportOrdered(rc: map<BufferId, int>, buckets: seq<seq<BufferId>>, n: nat)
    requires n <= |buckets|
    ensures forall a, b :: 0 <= a < b < |Report(rc, buckets, n)| ==>
              Report(rc, buckets, n)[a].poolIdx < Report(rc, buckets, n)[b].poolIdx
  {
    if n > 0 {
      ReportOrdered(rc, buckets, n - 1);
      ReportOnlyNonEmpty(rc, buckets, n - 1);
      var prev := Report(rc, buckets, n - 1);
      forall a | 0 <= a < |prev| ensures prev[a].poolIdx < n - 1 {
        assert prev[a] in prev;
      }
    }
  }

  /** The memory a `GpuMat` request asks for: `memoryAuto` picks the active GPU's preferred kind. */
  datatype MemoryKind = MemoryAuto | MemoryOwn | MemoryMapped

  /** `memoryAuto` resolves to own memory iff the active GPU prefers it, and fails for an active GPU at or above GPUs. */
  function Resolve(hw: Hardware.Platform, active: nat, memory: MemoryKind): (r: Result<MemoryKind>)
    requires hw.WellFormed() && active < Hardware.GpusMax
    ensures memory != MemoryAuto ==> r == Ok(memory)
    ensures memory == MemoryAuto ==> (r.Ok? <==> hw.cudaCompiled && active < Hardware.Gpus(hw))
    ensures memory == MemoryAuto && r.Ok? ==> (r.value == MemoryOwn <==> Hardware.MemoryOwnImpl(hw, active))
    ensures r.Ok? ==> r.value != MemoryAuto
  {
    if memory != MemoryAuto then Ok(memory)
    else match Hardware.GpuMemoryOwn(hw, active, active)
      case Err(e) => Err(e)
      case Ok(own) => Ok(if own then MemoryOwn else MemoryMapped)
  }

  /** Where memory of a resolved kind lives: on GPU `gpu`, or page-locked and mapped. */
  predicate InKind(loc: Location, kind: MemoryKind, gpu: int)
  {
    match kind
    case MemoryOwn => loc == Device(gpu)
    case MemoryMapped => loc.Pinned? && loc.mapped
    case MemoryAuto => false
  }

  /** The pool domain serving a resolved kind. */
  function KindDomain(kind: MemoryKind, gpu: nat): Domain
  {
    if kind == MemoryOwn then OwnMemory(gpu) else PageLocked
  }

  /** A `GpuMat` the pool leaves as it is: the requested size and type, at a device pointer of the requested kind. */
  predicate GpuMatSuits(rt: Runtime, h: Header, rows: int, cols: int, typ: MatType, kind: MemoryKind)
    reads rt
  {
    && h.HasData() && h.rows == rows && h.cols == cols && h.typ == typ
    && match rt.Attributes(h)
       case Err(_) => false
       case Ok(a) =>
         a.devicePointer &&
         ((kind == MemoryOwn && a.memoryType == DeviceMemory && a.device == rt.active) ||
          (kind == MemoryMapped && a.memoryType == HostMemory))
  }

  /** A `CudaMem` the pool leaves as it is: the requested size and type, page-locked with the mapped and portable flags. */
  predicate CudaMemSuits(rt: Runtime, h: Header, rows: int, cols: int, typ: MatType)
    reads rt
  {
    h.HasData() && h.rows == rows && h.cols == cols && h.typ == typ && rt.HostFlags(h) == Ok((true, true))
  }

  /** A `GpuMat` whose data the pool inspects: unified addressing and a data pointer of the requested size and type. */
  predicate GpuMatInspected(rt: Runtime, h: Header, rows: int, cols: int, typ: MatType)
    reads rt
  {
    rt.hw.WellFormed() && Hardware.UnifiedAddressingImpl(rt.hw, rt.active) && h.HasData() && h.rows == rows && h.cols == cols && h.typ == typ
  }

  /** The pooled buffers of some buckets, bucket after bucket. */
  function Flatten(bs: seq<seq<BufferId>>): seq<BufferId>
  {
    if bs == [] then [] else Flatten(bs[..|bs| - 1]) + bs[|bs| - 1]
  }

  /** The entries of several domains' buckets, domain by domain. */
  function FlattenAll(ds: seq<seq<seq<BufferId>>>): seq<BufferId>
  {
    if ds == [] then [] else FlattenAll(ds[..|ds| - 1]) + Flatten(ds[|ds| - 1])
  }

  /** Dropping one reference from each of `es`, front to back. */
  function ReleasedAll(rc: map<BufferId, int>, es: seq<BufferId>): map<BufferId, int>
  {
    if es == [] then rc else Released(ReleasedAll(rc, es[..|es| - 1]), es[|es| - 1])
  }

  lemma {:induction false} ReleasedAllConcat(rc: map<BufferId, int>, a: seq<BufferId>, b: seq<BufferId>)
    ensures ReleasedAll(ReleasedAll(rc, a), b) == ReleasedAll(rc, a + b)
    decreases |b|
  {
    if b != [] {
      assert (a + b)[..|a + b| - 1] == a + b[..|b| - 1];
      ReleasedAllConcat(rc, a, b[..|b| - 1]);
    } else {
      assert a + b == a;
    }
  }

  /** Releasing a list of entries takes from every buffer one reference per occurrence, and from no other. */
  lemma {:induction false} ReleasedAllCounts(rc: map<BufferId, int>, es: seq<BufferId>)
    ensures ReleasedAll(rc, es).Keys == rc.Keys
    ensures forall b :: b in rc ==> ReleasedAll(rc, es)[b] == rc[b] - multiset(es)[b]
    decreases |es|
  {
    if es != [] {
      var init := es[..|es| - 1];
      ReleasedAllCounts(rc, init);
      assert es == init + [es[|es| - 1]];
      assert multiset(es) == multiset(init) + multiset{es[|es| - 1]};
    }
  }

  /** Dropping one reference from each entry of the first `n` buckets of `bs`, bucket after bucket. */
  function ReleasedBuckets(rc: map<BufferId, int>, bs: seq<seq<BufferId>>, n: nat): map<BufferId, int>
    requires n <= |bs|
  {
    if n == 0 then rc else ReleasedAll(ReleasedBuckets(rc, bs, n - 1), bs[n - 1])
  }

  lemma {:induction false} ReleasedBucketsFlat(rc: map<BufferId, int>, bs: seq<seq<BufferId>>, n: nat)
    requires n <= |bs|
    ensures ReleasedBuckets(rc, bs, n) == ReleasedAll(rc, Flatten(bs[..n]))
  {
    if n > 0 {
      ReleasedBucketsFlat(rc, bs, n - 1);
      assert bs[..n][..n - 1] == bs[..n - 1];
      ReleasedAllConcat(rc, Flatten(bs[..n - 1]), bs[n - 1]);
    }
  }

  /** Dropping one reference from each entry of the first `n` domains of `ds`, domain after domain. */
  function ReleasedDomains(rc: map<BufferId, int>, ds: seq<seq<seq<BufferId>>>, n: nat): map<BufferId, int>
    requires n <= |ds|
  {
    if n == 0 then rc else ReleasedBuckets(ReleasedDomains(rc, ds, n - 1), ds[n - 1], |ds[n - 1]|)
  }

  lemma {:induction false} ReleasedDomainsFlat(rc: map<BufferId, int>, ds: seq<seq<seq<BufferId>>>, n: nat)
    requires n <= |ds|
    ensures ReleasedDomains(rc, ds, n) == ReleasedAll(rc, FlattenAll(ds[..n]))
  {
    if n > 0 {
      ReleasedDomainsFlat(rc, ds, n - 1);
      ReleasedBucketsFlat(ReleasedDomains(rc, ds, n - 1), ds[n - 1], |ds[n - 1]|);
      assert ds[n - 1][..|ds[n - 1]|] == ds[n - 1];
      assert ds[..n][..n - 1] == ds[..n - 1];
      ReleasedAllConcat(rc, FlattenAll(ds[..n - 1]), Flatten(ds[n - 1]));
    }
  }

  /** Clearing domain after domain, then the page-locked buckets, releases every entry once, in that order. */
  lemma ClearCounts(rc: map<BufferId, int>, ds: seq<seq<seq<BufferId>>>, n: nat, pinned: seq<seq<BufferId>>)
    requires n <= |ds|
    ensures ReleasedBuckets(ReleasedDomains(rc, ds, n), pinned, |pinned|) == ReleasedAll(rc, FlattenAll(ds[..n]) + Flatten(pinned))
  {
    ReleasedDomainsFlat(rc, ds, n);
    ReleasedBucketsFlat(ReleasedDomains(rc, ds, n), pinned, |pinned|);
    assert pinned[..|pinned|] == pinned;
    ReleasedAllConcat(rc, FlattenAll(ds[..n]), Flatten(pinned));
  }

  /** One line of `printStatus`: the domain and the status of its non-empty buckets. */
  datatype DomainStatus = DomainStatus(domain: Domain, lines: seq<StatusLine>)

  /** The status of the GPUs `0 .. n-1` of `ds` whose buckets are not all empty. */
  function DeviceStatus(rc: map<BufferId, int>, ds: seq<seq<seq<BufferId>>>, n: nat): seq<DomainStatus>
    requires n <= |ds|
  {
    if n == 0 then []
    else
      var lines := Report(rc, ds[n - 1], |ds[n - 1]|);
      DeviceStatus(rc, ds, n - 1) + (if lines != [] then [DomainStatus(OwnMemory(n - 1), lines)] else [])
  }

  /** The status of the GPUs below `gpus`, then that of the page-locked buckets, each only if not empty. */
  function StatusOf(rc: map<BufferId, int>, ds: seq<seq<seq<BufferId>>>, pinned: seq<seq<BufferId>>, gpus: nat): seq<DomainStatus>
    requires gpus <= |ds|
  {
    var lines := Report(rc, pinned, |pinned|);
    DeviceStatus(rc, ds, gpus) + (if lines != [] then [DomainStatus(PageLocked, lines)] else [])
  }

  const ErrSize := "Number of rows and columns must be at least 1."

  /** The messages the pool's requests can fail with. */
  predicate PoolError(msg: string)
  {
    msg == ErrSize || msg == Hardware.ErrNoCuda || msg == Hardware.ErrGpuIndex || msg == ErrCuda
  }

  /** `HandedOver` on the counts before (`rc0`) and after (`rc`). */
  predicate HandedOverCounts(rc0: map<BufferId, int>, rc: map<BufferId, int>, previous: BufferId, e: BufferId)
  {
    && e in rc
    && (e != previous ==> rc[e] == 2)
    && (previous in rc0 && previous != e ==> previous in rc && rc[previous] == rc0[previous] - 1)
    && (forall b :: b in rc0 && b != previous && b != e ==> b in rc && rc[b] == rc0[b])
  }

  /**
   * The counts of a mapped `GpuMat`: a handover to a null handle, then one
   * reference for the device header, a release of the handle's old buffer and
   * a release of the local `CudaMem`, together hand the entry over to the handle.
   */
  lemma SettledIsHandedOver(rc0: map<BufferId, int>, rc1: map<BufferId, int>, previous: BufferId, e: BufferId)
    requires e >= 0 && Null !in rc0 && HandedOverCounts(rc0, rc1, Null, e)
    ensures HandedOverCounts(rc0, Released(Released(Retained(rc1, e), previous), e), previous, e)
  {
  }

  class MemoryPool {
    /** `poolsGpuMat[GPU][poolIdx]` */
    const devicePools: array2<seq<BufferId>>
    /** `poolsCudaMem[poolIdx]` */
    const pinnedPools: array<seq<BufferId>>

    ghost predicate Shaped()
      reads this
    {
      devicePools.Length0 == Hardware.GpusMax && devicePools.Length1 == BucketCount && pinnedPools.Length == BucketCount
    }

    function Bucket(d: Domain, i: nat): seq<BufferId>
      reads this, devicePools, pinnedPools
      requires Shaped() && d.Exists() && i < BucketCount
    {
      match d
      case OwnMemory(g) => devicePools[g, i]
      case PageLocked => pinnedPools[i]
    }

    function Buckets(d: Domain): (s: seq<seq<BufferId>>)
      reads this, devicePools, pinnedPools
      requires Shaped() && d.Exists()
      ensures |s| == BucketCount && forall i :: 0 <= i < BucketCount ==> s[i] == Bucket(d, i)
    {
      BucketsBelow(d, BucketCount)
    }

    /** The first `n` buckets of a domain. */
    function BucketsBelow(d: Domain, n: nat): (s: seq<seq<BufferId>>)
      reads this, devicePools, pinnedPools
      requires Shaped() && d.Exists() && n <= BucketCount
      ensures |s| == n && forall i :: 0 <= i < n ==> s[i] == Bucket(d, i)
    {
      if n == 0 then [] else BucketsBelow(d, n - 1) + [Bucket(d, n - 1)]
    }

    /**
     * Every entry is a buffer of its domain's location whose size is its
     * bucket's, and no bucket holds a buffer twice (so, by
     * `EntriesAreDistinct`, no buffer is in two places of the pool).
     */
    ghost predicate Valid(rt: Runtime)
      reads this, devicePools, pinnedPools, rt
    {
      ValidOver(rt.location, rt.bytes)
    }

    /** `Valid` over the runtime's locations and sizes. */
    ghost predicate ValidOver(location: map<BufferId, Location>, bytes: map<BufferId, int>)
      reads this, devicePools, pinnedPools
    {
      && Shaped()
      && (forall d: Domain, i: int, k: int :: d.Exists() && 0 <= i < BucketCount && 0 <= k < |Bucket(d, i)| ==>
            var b := Bucket(d, i)[k];
            b in location && location[b] == d.Location() && b in bytes && bytes[b] == BucketBytes(i))
      && (forall d: Domain, i: int, k: int, k': int ::
            d.Exists() && 0 <= i < BucketCount && 0 <= k < k' < |Bucket(d, i)| ==> Bucket(d, i)[k] != Bucket(d, i)[k'])
    }

    /** In a valid pool every buffer occupies one place only, the domain and bucket included. */
    lemma EntriesAreDistinct(rt: Runtime, d: Domain, i: nat, k: nat, d': Domain, i': nat, k': nat)
      requires Valid(rt)
      requires d.Exists() && i < BucketCount && k < |Bucket(d, i)|
      requires d'.Exists() && i' < BucketCount && k' < |Bucket(d', i')|
      requires Bucket(d, i)[k] == Bucket(d', i')[k']
      ensures d == d' && i == i' && k == k'
    {
      var b := Bucket(d, i)[k];
      assert rt.location[b] == d.Location() == d'.Location();
      assert rt.bytes[b] == BucketBytes(i) == BucketBytes(i');
      if i < i' {
        Pow2Monotone(i + 1, i');
      } else if i' < i {
        Pow2Monotone(i' + 1, i);
      }
    }

    constructor()
      ensures Shaped() && fresh(devicePools) && fresh(pinnedPools)
      ensures forall d: Domain, i: int :: d.Exists() && 0 <= i < BucketCount ==> Bucket(d, i) == []
    {
      devicePools := new seq<BufferId>[Hardware.GpusMax, BucketCount]((_, _) => []);
      pinnedPools := new seq<BufferId>[BucketCount](_ => []);
    }

    /** An empty pool is valid for every runtime. */
    lemma EmptyIsValid(rt: Runtime)
      requires Shaped() && forall d: Domain, i: int :: d.Exists() && 0 <= i < BucketCount ==> Bucket(d, i) == []
      ensures Valid(rt)
    {
    }

    /** The first-fit search over one bucket: `*instancePool.refcount == 1`. */
    method FindAvailable(rt: Runtime, entries: seq<BufferId>) returns (k: nat)
      ensures k <= |entries|
      ensures FirstAvailable(rt.refcount, entries) == (if k < |entries| then Some(k) else None)
    {
      k := 0;
      while k < |entries| && !(entries[k] in rt.refcount && rt.refcount[entries[k]] == 1)
        invariant 0 <= k <= |entries|
        invariant forall j :: 0 <= j < k ==> !Available(rt.refcount, entries[j])
      {
        k := k + 1;
      }
      FirstAvailableIs(rt.refcount, entries, k);
    }

    lemma {:induction false} FirstAvailableIs(rc: map<BufferId, int>, entries: seq<BufferId>, k: nat)
      requires k <= |entries|
      requires forall j :: 0 <= j < k ==> !Available(rc, entries[j])
      requires k < |entries| ==> Available(rc, entries[k])
      ensures FirstAvailable(rc, entries) == (if k < |entries| then Some(k) else None)
      decreases k
    {
      if entries != [] && k > 0 {
        FirstAvailableIs(rc, entries[1..], k - 1);
      }
    }

    /** Appends a buffer of the bucket's size and the domain's location that the pool does not hold yet; no other bucket changes. */
    method Push(rt: Runtime, d: Domain, i: nat, b: BufferId)
      requires Valid(rt) && d.Exists() && i < BucketCount
      requires b in rt.location && rt.location[b] == d.Location() && b in rt.bytes && rt.bytes[b] == BucketBytes(i)
      requires forall k :: 0 <= k < |Bucket(d, i)| ==> Bucket(d, i)[k] != b
      modifies devicePools, pinnedPools
      ensures Valid(rt)
      ensures Bucket(d, i) == old(Bucket(d, i)) + [b]
      ensures forall d': Domain, i': int :: d'.Exists() && 0 <= i' < BucketCount && (d', i') != (d, i) ==>
                Bucket(d', i') == old(Bucket(d', i'))
    {
      match d {
        case OwnMemory(g) => devicePools[g, i] := devicePools[g, i] + [b];
        case PageLocked => pinnedPools[i] := pinnedPools[i] + [b];
      }
      forall d1: Domain, i1: int, k1: int | d1.Exists() && 0 <= i1 < BucketCount && 0 <= k1 < |Bucket(d1, i1)| &&
                                         (d1, i1, k1) != (d, i, |old(Bucket(d, i))|)
        ensures k1 < |old(Bucket(d1, i1))| && Bucket(d1, i1)[k1] == old(Bucket(d1, i1))[k1]
      {
      }
    }

    /** Empties one bucket (`pool.second.clear()`); no other bucket changes. */
    method Empty(d: Domain, i: nat)
      requires Shaped() && d.Exists() && i < BucketCount
      modifies devicePools, pinnedPools
      ensures Bucket(d, i) == []
      ensures forall d': Domain, i': int :: d'.Exists() && 0 <= i' < BucketCount && (d', i') != (d, i) ==>
                Bucket(d', i') == old(Bucket(d', i'))
    {
      match d
      case OwnMemory(g) => devicePools[g, i] := [];
      case PageLocked => pinnedPools[i] := [];
    }

    /** A pool whose buckets each stayed as they were or became empty stays valid. */
    twostate lemma ShrunkKeepsValid(rt: Runtime)
      requires old(Valid(rt)) && rt.Keeps() && Shaped()
      requires forall d: Domain, i: int :: d.Exists() && 0 <= i < BucketCount ==>
                 Bucket(d, i) == old(Bucket(d, i)) || Bucket(d, i) == []
      ensures Valid(rt)
    {
      forall d: Domain, i: int, k: int | d.Exists() && 0 <= i < BucketCount && 0 <= k < |Bucket(d, i)|
        ensures Bucket(d, i)[k] == old(Bucket(d, i))[k] && k < |old(Bucket(d, i))|
      {
      }
    }

    /** A pool stays valid while the runtime keeps every location and size (a copy, a change of device). */
    twostate lemma RuntimeKeepsValid(rt: Runtime)
      requires old(Valid(rt)) && unchanged(this, devicePools, pinnedPools)
      requires rt.location == old(rt.location) && rt.bytes == old(rt.bytes)
      ensures Valid(rt)
    {
      forall d: Domain, i: int | d.Exists() && 0 <= i < BucketCount
        ensures Bucket(d, i) == old(Bucket(d, i))
      {
      }
    }

    /** The found branch of allocateFromPoolSet: `instanceArg = instancePool`. */
    method TakeEntry(rt: Runtime, d: Domain, idx: nat, h: Header, k: nat) returns (e: Header)
      requires rt.Valid() && Valid(rt) && d.Exists() && idx < BucketCount && k < |Bucket(d, idx)|
      modifies rt
      ensures rt.Valid() && Valid(rt) && rt.active == old(rt.active) && rt.Keeps()
      ensures e.buffer == Bucket(d, idx)[k]
      ensures rt.refcount == Released(Retained(old(rt.refcount), e.buffer), h.buffer)
      ensures rt.location == old(rt.location) && rt.bytes == old(rt.bytes) && rt.contents == old(rt.contents)
      ensures rt.nextId == old(rt.nextId)
    {
      var b := Bucket(d, idx)[k];
      e := rt.Assign(h, EntryHeader(rt, b));
      ShrunkKeepsValid(rt);
    }

    /** The not-found branch of allocateFromPoolSet: `allocateReally` into the handle, then `push_back`. */
    method AppendEntry(rt: Runtime, d: Domain, idx: nat, h: Header) returns (e: Header)
      requires rt.Valid() && Valid(rt) && d.Exists() && idx < BucketCount
      modifies rt, devicePools, pinnedPools
      ensures rt.Valid() && Valid(rt) && rt.active == old(rt.active) && rt.Keeps()
      ensures e.buffer == old(rt.nextId) && e.buffer !in old(rt.location)
      ensures Bucket(d, idx) == old(Bucket(d, idx)) + [e.buffer]
      ensures forall d': Domain, i': int :: d'.Exists() && 0 <= i' < BucketCount && (d', i') != (d, idx) ==>
                Bucket(d', i') == old(Bucket(d', i'))
      ensures rt.refcount == Released(old(rt.refcount), h.buffer)[e.buffer := 2]
      ensures rt.location == old(rt.location)[e.buffer := d.Location()]
      ensures rt.bytes == old(rt.bytes)[e.buffer := BucketBytes(idx)]
      ensures rt.contents == old(rt.contents)[e.buffer := []]
    {
      e := NewEntry(rt, d, idx, h);
      Push(rt, d, idx, e.buffer);
    }

    /** `allocateReally` into the handle, with the pool's own reference added: a buffer the pool does not hold yet. */
    method NewEntry(rt: Runtime, d: Domain, idx: nat, h: Header) returns (e: Header)
      requires rt.Valid() && Valid(rt) && d.Exists() && idx < BucketCount
      modifies rt
      ensures rt.Valid()
      ensures Valid(rt)
      ensures rt.active == old(rt.active)
      ensures rt.Keeps()
      ensures e.buffer == old(rt.nextId) && e.buffer !in old(rt.location)
      ensures forall k :: 0 <= k < |Bucket(d, idx)| ==> Bucket(d, idx)[k] != e.buffer
      ensures rt.refcount == Released(old(rt.refcount), h.buffer)[e.buffer := 2]
      ensures rt.location == old(rt.location)[e.buffer := d.Location()]
      ensures rt.bytes == old(rt.bytes)[e.buffer := BucketBytes(idx)]
      ensures rt.contents == old(rt.contents)[e.buffer := []]
    {
      e := rt.Allocate(h, d.Location(), BucketBytes(idx));
      rt.Retain(e.buffer);
      ShrunkKeepsValid(rt);
      forall k | 0 <= k < |Bucket(d, idx)| ensures Bucket(d, idx)[k] != e.buffer {
        assert Bucket(d, idx)[k] in old(rt.location);
      }
    }

    /**
     * allocateFromPoolSet: pad the request, pick its bucket, take the first
     * entry only the pool references, or allocate a new entry of the bucket's
     * size and append it; then stamp the requested view onto the handle `h`.
     */
    method AllocateFromPoolSet(rt: Runtime, d: Domain, h: Header, rows: int, cols: int, typ: MatType) returns (r: Header)
      requires rt.Valid() && Valid(rt) && d.Exists() && (d.OwnMemory? ==> d.gpu == rt.active)
      requires rows >= 1 && cols >= 1 && Fits(rt.hw, rows, cols, typ)
      modifies rt, devicePools, pinnedPools
      ensures rt.Valid() && Valid(rt) && rt.active == old(rt.active) && rt.Keeps()
      ensures r == Stamp(r.buffer, rows, cols, typ, RowStep(rt.hw, cols, typ))
      ensures r.buffer in Bucket(d, RequestBucket(rt.hw, rows, cols, typ))
      ensures r.buffer in rt.location && rt.location[r.buffer] == d.Location()
      ensures r.buffer in rt.bytes && rt.bytes[r.buffer] == BucketBytes(RequestBucket(rt.hw, rows, cols, typ))
      ensures forall d': Domain, i': int :: d'.Exists() && 0 <= i' < BucketCount && (d', i') != (d, RequestBucket(rt.hw, rows, cols, typ)) ==>
                Bucket(d', i') == old(Bucket(d', i'))
      ensures old(FirstAvailable(rt.refcount, Bucket(d, RequestBucket(rt.hw, rows, cols, typ)))).Some? ==>
                && r.buffer == old(Bucket(d, RequestBucket(rt.hw, rows, cols, typ)))[old(FirstAvailable(rt.refcount, Bucket(d, RequestBucket(rt.hw, rows, cols, typ)))).value]
                && Bucket(d, RequestBucket(rt.hw, rows, cols, typ)) == old(Bucket(d, RequestBucket(rt.hw, rows, cols, typ)))
                && rt.refcount == Released(Retained(old(rt.refcount), r.buffer), h.buffer)
                && rt.location == old(rt.location) && rt.contents == old(rt.contents)
      ensures old(FirstAvailable(rt.refcount, Bucket(d, RequestBucket(rt.hw, rows, cols, typ)))).None? ==>
                && r.buffer == old(rt.nextId) && r.buffer !in old(rt.location)
                && Bucket(d, RequestBucket(rt.hw, rows, cols, typ)) == old(Bucket(d, RequestBucket(rt.hw, rows, cols, typ))) + [r.buffer]
                && rt.refcount == Released(old(rt.refcount), h.buffer)[r.buffer := 2]
                && rt.location == old(rt.location)[r.buffer := d.Location()]
                && rt.contents == old(rt.contents)[r.buffer := []]
    {
      var step := RowStep(rt.hw, cols, typ);
      var idx := RequestBucket(rt.hw, rows, cols, typ);
      var entries := Bucket(d, idx);
      var k := FindAvailable(rt, entries);
      var e: Header;
      if k < |entries| {
        e := TakeEntry(rt, d, idx, h, k);
      } else {
        e := AppendEntry(rt, d, idx, h);
        assert Bucket(d, idx)[|entries|] == e.buffer;
      }
      r := Stamp(e.buffer, rows, cols, typ, step);
    }

    /** Why `operator()` for a `GpuMat` fails: a bad size, no CUDA, an active GPU at or above GPUs, or a failed pointer query. */
    predicate GpuMatFails(rt: Runtime, h: Header, rows: int, cols: int, typ: MatType, memory: MemoryKind)
      reads rt
      requires rt.Valid()
    {
      || rows < 1 || cols < 1 || !rt.hw.cudaCompiled
      || Resolve(rt.hw, rt.active, memory).Err?
      || Hardware.GpuUnifiedAddressing(rt.hw, rt.active, rt.active).Err?
      || (GpuMatInspected(rt, h, rows, cols, typ) && rt.Attributes(h).Err?)
    }

    /** A `GpuMat` that `operator()` leaves as it is. */
    predicate GpuMatKept(rt: Runtime, h: Header, rows: int, cols: int, typ: MatType, memory: MemoryKind)
      reads rt
      requires rt.Valid()
    {
      && Resolve(rt.hw, rt.active, memory).Ok?
      && GpuMatInspected(rt, h, rows, cols, typ)
      && GpuMatSuits(rt, h, rows, cols, typ, Resolve(rt.hw, rt.active, memory).value)
    }

    /**
     * The reference counts after a handle `h` was pointed at the pool entry
     * `e`: `h`'s old buffer lost one reference, `e` is held by the pool and the
     * handle, and no other count changed.
     */
    twostate predicate HandedOver(rt: Runtime, h: Header, e: BufferId)
      reads rt
    {
      HandedOverCounts(old(rt.refcount), rt.refcount, h.buffer, e)
    }

    /**
     * `operator()` for a `GpuMat`, the replacement for `create()`: with unified
     * addressing, a handle of the requested size and type whose data already is
     * memory of the requested kind is left as it is; otherwise own memory comes
     * from the active GPU's pool and mapped memory is a page-locked pool entry
     * wrapped as a device header.
     */
    method AcquireGpuMat(rt: Runtime, h: Header, rows: int, cols: int, typ: MatType, memory: MemoryKind) returns (res: Result<Header>)
      requires rt.Valid() && Valid(rt) && Fits(rt.hw, rows, cols, typ) && h.buffer < rt.nextId
      modifies rt, devicePools, pinnedPools
      ensures rt.Valid() && Valid(rt) && rt.active == old(rt.active) && rt.Keeps()
      ensures rows < 1 || cols < 1 ==> res == Err(ErrSize)
      ensures rows >= 1 && cols >= 1 && !rt.hw.cudaCompiled ==> res == Err(Hardware.ErrNoCuda)
      ensures res.Err? <==> old(GpuMatFails(rt, h, rows, cols, typ, memory))
      ensures res.Err? ==> PoolError(res.msg)
      ensures res.Err? ==> unchanged(rt) && unchanged(devicePools, pinnedPools)
      ensures res.Ok? ==> Resolve(rt.hw, rt.active, memory).Ok?
      ensures res.Ok? ==>
                && res.value.rows == rows && res.value.cols == cols && res.value.typ == typ
                && res.value.buffer in rt.location
                && InKind(rt.location[res.value.buffer], Resolve(rt.hw, rt.active, memory).value, rt.active)
      ensures res.Ok? && old(GpuMatKept(rt, h, rows, cols, typ, memory)) ==>
                res.value == h && unchanged(rt) && unchanged(devicePools, pinnedPools)
      ensures res.Ok? && !old(GpuMatKept(rt, h, rows, cols, typ, memory)) ==>
                && res.value == Stamp(res.value.buffer, rows, cols, typ, RowStep(rt.hw, cols, typ))
                && res.value.buffer in Bucket(KindDomain(Resolve(rt.hw, rt.active, memory).value, rt.active), RequestBucket(rt.hw, rows, cols, typ))
                && HandedOver(rt, h, res.value.buffer)
    {
      if rows < 1 || cols < 1 {
        return Err(ErrSize);
      }
      if !rt.hw.cudaCompiled {
        return Err(Hardware.ErrNoCuda);
      }
      var check := GpuMatCheck(rt, h, rows, cols, typ, memory);
      if check.Err? {
        return Err(check.msg);
      }
      if check.value.0 {
        return Ok(h);
      }
      var r := GpuMatFromPool(rt, h, rows, cols, typ, check.value.1);
      res := Ok(r);
    }

    /**
     * The checks of `operator()` for a `GpuMat` before the pool is consulted:
     * the error, or the resolved memory kind and whether `h` is kept as it is.
     */
    method GpuMatCheck(rt: Runtime, h: Header, rows: int, cols: int, typ: MatType, memory: MemoryKind)
      returns (r: Result<(bool, MemoryKind)>)
      requires rt.Valid() && rows >= 1 && cols >= 1 && rt.hw.cudaCompiled
      ensures r.Err? <==> GpuMatFails(rt, h, rows, cols, typ, memory)
      ensures r.Err? ==> PoolError(r.msg)
      ensures r.Ok? ==> Resolve(rt.hw, rt.active, memory) == Ok(r.value.1) && r.value.1 != MemoryAuto
      ensures r.Ok? ==> (r.value.0 <==> GpuMatKept(rt, h, rows, cols, typ, memory))
    {
      var gpu := rt.active;
      var kind: MemoryKind;
      match Resolve(rt.hw, gpu, memory) {
        case Err(e) => return Err(e);
        case Ok(k) => kind := k;
      }
      var ua := Hardware.GpuUnifiedAddressing(rt.hw, gpu, gpu);
      if ua.Err? {
        return Err(ua.msg);
      }
      if ua.value && h.HasData() && h.rows == rows && h.cols == cols && h.typ == typ {
        var attr := rt.Attributes(h);
        if attr.Err? {
          return Err(attr.msg);
        }
        var a := attr.value;
        if a.devicePointer &&
           ((kind == MemoryOwn && a.memoryType == DeviceMemory && a.device == gpu) ||
            (kind == MemoryMapped && a.memoryType == HostMemory)) {
          return Ok((true, kind));
        }
      }
      r := Ok((false, kind));
    }

    /** The pool branch of `operator()` for a `GpuMat`, for a resolved kind. */
    method GpuMatFromPool(rt: Runtime, h: Header, rows: int, cols: int, typ: MatType, kind: MemoryKind) returns (r: Header)
      requires rt.Valid() && Valid(rt) && rows >= 1 && cols >= 1 && Fits(rt.hw, rows, cols, typ) && h.buffer < rt.nextId
      requires kind != MemoryAuto
      modifies rt, devicePools, pinnedPools
      ensures rt.Valid() && Valid(rt) && rt.active == old(rt.active) && rt.Keeps()
      ensures r == Stamp(r.buffer, rows, cols, typ, RowStep(rt.hw, cols, typ))
      ensures r.buffer in Bucket(KindDomain(kind, rt.active), RequestBucket(rt.hw, rows, cols, typ))
      ensures r.buffer in rt.location && InKind(rt.location[r.buffer], kind, rt.active)
      ensures HandedOver(rt, h, r.buffer)
    {
      if kind == MemoryOwn {
        r := AllocateFromPoolSet(rt, OwnMemory(rt.active), h, rows, cols, typ);
      } else {
        r := MappedFromPool(rt, h, rows, cols, typ);
      }
    }

    /**
     * Mapped memory for a `GpuMat`: a local `CudaMem` takes a page-locked pool
     * entry, one reference is added for the `GpuMat` header created over it,
     * the handle's old buffer is released, and so is the local `CudaMem`.
     */
    method MappedFromPool(rt: Runtime, h: Header, rows: int, cols: int, typ: MatType) returns (r: Header)
      requires rt.Valid() && Valid(rt) && rows >= 1 && cols >= 1 && Fits(rt.hw, rows, cols, typ) && h.buffer < rt.nextId
      modifies rt, devicePools, pinnedPools
      ensures rt.Valid() && Valid(rt) && rt.active == old(rt.active) && rt.Keeps()
      ensures r == Stamp(r.buffer, rows, cols, typ, RowStep(rt.hw, cols, typ))
      ensures r.buffer in Bucket(PageLocked, RequestBucket(rt.hw, rows, cols, typ))
      ensures r.buffer in rt.location && rt.location[r.buffer] == Pinned(true, true)
      ensures HandedOver(rt, h, r.buffer)
    {
      ghost var rc0 := rt.refcount;
      r := PinnedFromPool(rt, NullHeader, rows, cols, typ);
      ghost var rc1 := rt.refcount;
      SettleMapped(rt, h.buffer, r.buffer);
      SettledIsHandedOver(rc0, rc1, h.buffer, r.buffer);
    }

    /**
     * The reference counting around a mapped `GpuMat`: `CV_XADD` for the new
     * header, release of the handle's old buffer, release of the local `CudaMem`.
     */
    method SettleMapped(rt: Runtime, previous: BufferId, entry: BufferId)
      requires rt.Valid() && Valid(rt)
      modifies rt
      ensures rt.Valid() && Valid(rt) && rt.Keeps()
      ensures rt.refcount == Released(Released(Retained(old(rt.refcount), entry), previous), entry)
      ensures rt.active == old(rt.active) && rt.location == old(rt.location) && rt.bytes == old(rt.bytes)
      ensures rt.contents == old(rt.contents) && rt.nextId == old(rt.nextId)
    {
      rt.Retain(entry);
      rt.Release(previous);
      rt.Release(entry);
      ShrunkKeepsValid(rt);
    }

    /**
     * `operator()` for a `CudaMem`: a handle of the requested size and type in
     * page-locked memory with the mapped and portable flags is left as it is;
     * otherwise it gets an entry of the page-locked pool.
     */
    method AcquireCudaMem(rt: Runtime, h: Header, rows: int, cols: int, typ: MatType) returns (res: Result<Header>)
      requires rt.Valid() && Valid(rt) && Fits(rt.hw, rows, cols, typ) && h.buffer < rt.nextId
      modifies rt, devicePools, pinnedPools
      ensures rt.Valid() && Valid(rt) && rt.active == old(rt.active) && rt.Keeps()
      ensures rows < 1 || cols < 1 ==> res == Err(ErrSize)
      ensures rows >= 1 && cols >= 1 && !rt.hw.cudaCompiled ==> res == Err(Hardware.ErrNoCuda)
      ensures res.Err? <==>
                || rows < 1 || cols < 1 || !rt.hw.cudaCompiled
                || (h.HasData() && h.rows == rows && h.cols == cols && h.typ == typ && old(rt.HostFlags(h)).Err?)
      ensures res.Err? ==> unchanged(rt) && unchanged(devicePools, pinnedPools)
      ensures res.Err? ==> PoolError(res.msg)
      ensures res.Ok? ==>
                && res.value.rows == rows && res.value.cols == cols && res.value.typ == typ
                && res.value.buffer in rt.location && rt.location[res.value.buffer] == Pinned(true, true)
      ensures res.Ok? && old(CudaMemSuits(rt, h, rows, cols, typ)) ==>
                res.value == h && unchanged(rt) && unchanged(devicePools, pinnedPools)
      ensures res.Ok? && !old(CudaMemSuits(rt, h, rows, cols, typ)) ==>
                && res.value == Stamp(res.value.buffer, rows, cols, typ, RowStep(rt.hw, cols, typ))
                && res.value.buffer in Bucket(PageLocked, RequestBucket(rt.hw, rows, cols, typ))
                && HandedOver(rt, h, res.value.buffer)
    {
      if rows < 1 || cols < 1 {
        return Err(ErrSize);
      }
      if !rt.hw.cudaCompiled {
        return Err(Hardware.ErrNoCuda);
      }
      if h.HasData() && h.rows == rows && h.cols == cols && h.typ == typ {
        var flags := rt.HostFlags(h);
        if flags.Err? {
          return Err(flags.msg);
        }
        if flags.value.0 && flags.value.1 {
          return Ok(h);
        }
      }
      var r := PinnedFromPool(rt, h, rows, cols, typ);
      res := Ok(r);
    }

    /** The page-locked pool entry for a handle `h`, as allocateFromPoolSet hands it over. */
    method PinnedFromPool(rt: Runtime, h: Header, rows: int, cols: int, typ: MatType) returns (r: Header)
      requires rt.Valid() && Valid(rt) && rows >= 1 && cols >= 1 && Fits(rt.hw, rows, cols, typ) && h.buffer < rt.nextId
      modifies rt, devicePools, pinnedPools
      ensures rt.Valid() && Valid(rt) && rt.active == old(rt.active) && rt.Keeps()
      ensures r == Stamp(r.buffer, rows, cols, typ, RowStep(rt.hw, cols, typ))
      ensures r.buffer in Bucket(PageLocked, RequestBucket(rt.hw, rows, cols, typ))
      ensures r.buffer in rt.location && rt.location[r.buffer] == Pinned(true, true)
      ensures HandedOver(rt, h, r.buffer)
    {
      r := AllocateFromPoolSet(rt, PageLocked, h, rows, cols, typ);
    }

    /** The count of lent entries of one bucket. */
    static method CountLent(rc: map<BufferId, int>, entries: seq<BufferId>) returns (lent: nat)
      ensures lent == Lent(rc, entries)
    {
      lent := 0;
      var j := 0;
      while j < |entries|
        invariant 0 <= j <= |entries| && lent == Lent(rc, entries[..j])
      {
        assert entries[..j + 1][..j] == entries[..j];
        if entries[j] in rc && rc[entries[j]] > 1 {
          lent := lent + 1;
        }
        j := j + 1;
      }
      assert entries[..j] == entries;
    }

    /** stringifyPoolSet over the buckets of one domain: the status lines of the non-empty ones. */
    static method BucketsStatus(rc: map<BufferId, int>, buckets: seq<seq<BufferId>>) returns (lines: seq<StatusLine>)
      ensures lines == Report(rc, buckets, |buckets|)
    {
      lines := [];
      var i := 0;
      while i < |buckets|
        invariant 0 <= i <= |buckets| && lines == Report(rc, buckets, i)
      {
        var entries := buckets[i];
        var lent := CountLent(rc, entries);
        if |entries| > 0 {
          lines := lines + [StatusLine(i, BucketBytes(i) / 2 + 1, BucketBytes(i), |entries| - lent, lent)];
        }
        i := i + 1;
      }
    }

    /** stringifyPoolSet: the status lines of the non-empty buckets of one domain. */
    method PoolSetStatus(rt: Runtime, d: Domain) returns (lines: seq<StatusLine>)
      requires Shaped() && d.Exists()
      ensures lines == Report(rt.refcount, Buckets(d), |Buckets(d)|)
    {
      lines := BucketsStatus(rt.refcount, Buckets(d));
    }

    /** What printStatus reports: the pools of each GPU below GPUs, then the page-locked pools, each only if not empty. */
    function Status(rt: Runtime): seq<DomainStatus>
      reads this, devicePools, pinnedPools, rt
      requires Shaped()
    {
      StatusOf(rt.refcount, Devices(), Buckets(PageLocked), Hardware.Gpus(rt.hw))
    }

    /** The body of printStatus over the pools as values: each GPU below `gpus`, then the page-locked pools. */
    static method StatusFrom(rc: map<BufferId, int>, ds: seq<seq<seq<BufferId>>>, pinned: seq<seq<BufferId>>, gpus: nat)
      returns (status: seq<DomainStatus>)
      requires gpus <= |ds|
      ensures status == StatusOf(rc, ds, pinned, gpus)
    {
      status := [];
      var g := 0;
      while g < gpus
        invariant 0 <= g <= gpus && status == DeviceStatus(rc, ds, g)
      {
        var lines := BucketsStatus(rc, ds[g]);
        if lines != [] {
          status := status + [DomainStatus(OwnMemory(g), lines)];
        }
        g := g + 1;
      }
      var lines := BucketsStatus(rc, pinned);
      if lines != [] {
        status := status + [DomainStatus(PageLocked, lines)];
      }
    }

    /** printStatus, with the text replaced by its content. */
    method PrintStatus(rt: Runtime) returns (status: seq<DomainStatus>)
      requires Shaped()
      ensures status == Status(rt)
    {
      status := StatusFrom(rt.refcount, Devices(), Buckets(PageLocked), Hardware.Gpus(rt.hw));
    }

    /** The buckets of every GPU slot, as a value. */
    function Devices(): (ds: seq<seq<seq<BufferId>>>)
      reads this, devicePools, pinnedPools
      requires Shaped()
      ensures |ds| == Hardware.GpusMax && forall g :: 0 <= g < Hardware.GpusMax ==> ds[g] == Buckets(OwnMemory(g))
    {
      DevicesBelow(Hardware.GpusMax)
    }

    /** The buckets of the first `n` GPU slots. */
    function DevicesBelow(n: nat): (ds: seq<seq<seq<BufferId>>>)
      reads this, devicePools, pinnedPools
      requires Shaped() && n <= Hardware.GpusMax
      ensures |ds| == n && forall g :: 0 <= g < n ==> ds[g] == Buckets(OwnMemory(g))
    {
      if n == 0 then [] else DevicesBelow(n - 1) + [Buckets(OwnMemory(n - 1))]
    }

    /** The entries clear releases: those of the first `n` GPU slots, then the page-locked ones. */
    function PoolEntries(n: nat): seq<BufferId>
      reads this, devicePools, pinnedPools
      requires Shaped() && n <= Hardware.GpusMax
    {
      FlattenAll(Devices()[..n]) + Flatten(Buckets(PageLocked))
    }

    /** Every entry's vector element releases its reference (`pool.second.clear()` destroys the handles). */
    method ReleaseEntries(rt: Runtime, entries: seq<BufferId>)
      requires rt.Valid()
      modifies rt
      ensures rt.Valid() && rt.refcount == ReleasedAll(old(rt.refcount), entries)
      ensures rt.Recounted()
    {
      var j := 0;
      while j < |entries|
        invariant 0 <= j <= |entries| && rt.Valid()
        invariant rt.refcount == ReleasedAll(old(rt.refcount), entries[..j])
        invariant rt.Recounted()
      {
        assert entries[..j + 1][..j] == entries[..j];
        rt.Release(entries[j]);
        j := j + 1;
      }
      assert entries[..j] == entries;
    }

    /** Releases the entries of bucket `i` of GPU `g` and empties it. */
    method ClearDeviceBucket(rt: Runtime, g: nat, i: nat)
      requires rt.Valid() && Shaped() && g < Hardware.GpusMax && i < BucketCount
      modifies rt, devicePools
      ensures rt.Valid() && rt.refcount == ReleasedAll(old(rt.refcount), old(devicePools[g, i]))
      ensures rt.Recounted()
      ensures devicePools[g, i] == []
      ensures forall g', i' :: 0 <= g' < Hardware.GpusMax && 0 <= i' < BucketCount && (g', i') != (g, i) ==>
                devicePools[g', i'] == old(devicePools[g', i'])
    {
      ReleaseEntries(rt, devicePools[g, i]);
      devicePools[g, i] := [];
    }

    /** Empties the 64 buckets of GPU `g`, which hold `before`. */
    method ClearDevice(rt: Runtime, g: nat, ghost before: seq<seq<BufferId>>)
      requires rt.Valid() && Shaped() && g < Hardware.GpusMax
      requires |before| == BucketCount && forall i :: 0 <= i < BucketCount ==> before[i] == devicePools[g, i]
      modifies rt, devicePools
      ensures rt.Valid() && rt.refcount == ReleasedBuckets(old(rt.refcount), before, BucketCount)
      ensures rt.Recounted()
      ensures forall g', i :: 0 <= g' < Hardware.GpusMax && 0 <= i < BucketCount ==>
                devicePools[g', i] == (if g' == g then [] else old(devicePools[g', i]))
    {
      var i := 0;
      while i < BucketCount
        invariant 0 <= i <= BucketCount && rt.Valid()
        invariant rt.refcount == ReleasedBuckets(old(rt.refcount), before, i)
        invariant rt.Recounted()
        invariant forall g', j :: 0 <= g' < Hardware.GpusMax && 0 <= j < BucketCount ==>
                    devicePools[g', j] == (if g' == g && j < i then [] else old(devicePools[g', j]))
      {
        ClearDeviceBucket(rt, g, i);
        i := i + 1;
      }
    }

    /** Releases the entries of page-locked bucket `i` and empties it. */
    method ClearPinnedBucket(rt: Runtime, i: nat)
      requires rt.Valid() && Shaped() && i < BucketCount
      modifies rt, pinnedPools
      ensures rt.Valid() && rt.refcount == ReleasedAll(old(rt.refcount), old(pinnedPools[i]))
      ensures rt.Recounted()
      ensures pinnedPools[..] == old(pinnedPools[..])[i := []]
    {
      ReleaseEntries(rt, pinnedPools[i]);
      pinnedPools[i] := [];
    }

    /** Empties the 64 page-locked buckets. */
    method ClearPinned(rt: Runtime)
      requires rt.Valid() && Shaped()
      modifies rt, pinnedPools
      ensures rt.Valid() && rt.refcount == ReleasedBuckets(old(rt.refcount), old(pinnedPools[..]), BucketCount)
      ensures rt.Recounted()
      ensures forall i :: 0 <= i < BucketCount ==> pinnedPools[i] == []
    {
      ghost var before := pinnedPools[..];
      var i := 0;
      while i < BucketCount
        invariant 0 <= i <= BucketCount && rt.Valid()
        invariant rt.refcount == ReleasedBuckets(old(rt.refcount), before, i)
        invariant rt.Recounted()
        invariant forall j :: 0 <= j < BucketCount ==> pinnedPools[j] == (if j < i then [] else before[j])
      {
        ClearPinnedBucket(rt, i);
        i := i + 1;
      }
    }

    /** One round of clear's device loop: GPU `g` made active, then its buckets emptied. */
    method ClearOnDevice(rt: Runtime, g: nat, ghost before: seq<seq<BufferId>>)
      requires rt.Valid() && Shaped() && g < Hardware.GpusMax
      requires |before| == BucketCount && forall i :: 0 <= i < BucketCount ==> before[i] == devicePools[g, i]
      modifies rt, devicePools
      ensures rt.Valid() && rt.refcount == ReleasedBuckets(old(rt.refcount), before, BucketCount)
      ensures rt.active == g && rt.SameBuffers()
      ensures forall g', i :: 0 <= g' < Hardware.GpusMax && 0 <= i < BucketCount ==>
                devicePools[g', i] == (if g' == g then [] else old(devicePools[g', i]))
    {
      rt.SetDevice(g);
      ClearDevice(rt, g, before);
    }

    /** The device half of clear: each GPU below GPUs, made active in turn, has its buckets emptied. */
    method ClearDevices(rt: Runtime, gpus: nat)
      requires rt.Valid() && Shaped() && gpus <= Hardware.GpusMax
      modifies rt, devicePools
      ensures rt.Valid() && rt.refcount == ReleasedDomains(old(rt.refcount), old(Devices()), gpus)
      ensures gpus > 0 ==> rt.active == gpus - 1
      ensures gpus == 0 ==> rt.active == old(rt.active)
      ensures rt.SameBuffers()
      ensures forall g, i :: 0 <= g < Hardware.GpusMax && 0 <= i < BucketCount ==>
                devicePools[g, i] == (if g < gpus then [] else old(devicePools[g, i]))
    {
      ghost var before := Devices();
      assert ClearedBelow(0, before);
      var g := 0;
      while g < gpus
        invariant 0 <= g <= gpus && rt.Valid() && Shaped()
        invariant g == 0 ==> rt.active == old(rt.active)
        invariant g > 0 ==> rt.active == g - 1
        invariant rt.refcount == ReleasedDomains(old(rt.refcount), before, g)
        invariant rt.SameBuffers()
        invariant ClearedBelow(g, before)
      {
        assert forall i :: 0 <= i < BucketCount ==> before[g][i] == devicePools[g, i];
        ClearOnDevice(rt, g, before[g]);
        assert ClearedBelow(g + 1, before);
        g := g + 1;
      }
    }

    /** The device buckets of the GPUs below `g` are empty, the others as in `before`. */
    ghost predicate ClearedBelow(g: int, before: seq<seq<seq<BufferId>>>)
      reads this, devicePools
      requires Shaped() && |before| == Hardware.GpusMax
      requires forall g' :: 0 <= g' < Hardware.GpusMax ==> |before[g']| == BucketCount
    {
      forall g', i :: 0 <= g' < Hardware.GpusMax && 0 <= i < BucketCount ==>
        devicePools[g', i] == (if g' < g then [] else before[g'][i])
    }

    /** After clear, the emptied buckets are exactly those of the GPUs below GPUs and the page-locked ones. */
    twostate lemma ClearedKeepsValid(rt: Runtime)
      requires old(Valid(rt)) && rt.Keeps() && Shaped()
      requires forall g, i :: 0 <= g < Hardware.GpusMax && 0 <= i < BucketCount ==>
                 devicePools[g, i] == (if g < Hardware.Gpus(rt.hw) then [] else old(devicePools[g, i]))
      requires forall i :: 0 <= i < BucketCount ==> pinnedPools[i] == []
      ensures Valid(rt)
      ensures forall d: Domain, i: int :: d.Exists() && 0 <= i < BucketCount ==>
                Bucket(d, i) == (if d.PageLocked? || d.gpu < Hardware.Gpus(rt.hw) then [] else old(Bucket(d, i)))
    {
      ShrunkKeepsValid(rt);
    }

    /**
     * clear (also the destructor): empties the buckets of every GPU below GPUs,
     * each with that GPU active, restores the caller's active GPU, then
     * empties the page-locked buckets. Buckets of slots at or above GPUs are not touched.
     */
    method Clear(rt: Runtime)
      requires rt.Valid() && Valid(rt)
      modifies rt, devicePools, pinnedPools
      ensures rt.Valid() && Valid(rt) && rt.Recounted()
      ensures forall d: Domain, i: int :: d.Exists() && 0 <= i < BucketCount ==>
                Bucket(d, i) == (if d.PageLocked? || d.gpu < Hardware.Gpus(rt.hw) then [] else old(Bucket(d, i)))
      ensures rt.refcount == ReleasedAll(old(rt.refcount), old(PoolEntries(Hardware.Gpus(rt.hw))))
    {
      var gpus := Hardware.Gpus(rt.hw);
      var caller := rt.active;
      ghost var rc, devices, pinned := rt.refcount, Devices(), pinnedPools[..];
      assert Buckets(PageLocked) == pinned;
      ClearDevices(rt, gpus);
      assert pinnedPools[..] == pinned;
      rt.SetDevice(caller);
      ClearPinned(rt);
      assert rt.refcount == ReleasedBuckets(ReleasedDomains(rc, devices, gpus), pinned, |pinned|);
      ClearCounts(rc, devices, gpus, pinned);
      ClearedKeepsValid(rt);
    }
  }
}
