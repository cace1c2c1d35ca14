// The CUDA runtime and OpenCV matrix headers as seen by the memory pool and
// AutoMat: buffers with a location, a size, a shared reference count and
// abstract contents, plus the active device. Real copies between host and
// devices become "target contents := source contents"; pointer queries become
// lookups of a buffer's location.

module GpuRuntime {
  import opened Wrappers
  import Hardware

  /** A buffer (a `data` pointer with its reference counter); negative means a null pointer. */
  type BufferId = int
  const Null: BufferId := -1

  /** OpenCV's type encoding: depth in the low three bits, channels - 1 above them. */
  type MatType = t: int | 0 <= t < 4096

  const CV_8UC1: MatType := 0
  const CV_8UC3: MatType := 16

  function Depth(t: MatType): (d: int)
    ensures 0 <= d < 8
  {
    t % 8
  }

  function Channels(t: MatType): (c: int)
    ensures 1 <= c <= 512
  {
    t / 8 + 1
  }

  /** `CV_ELEM_SIZE1`: bytes of one channel, by depth (8U, 8S, 16U, 16S, 32S, 32F, 64F, user type). */
  function ElemSize1(t: MatType): (r: int)
    ensures r == 1 || r == 2 || r == 4 || r == 8
    ensures Depth(t) <= 1 <==> r == 1
  {
    if Depth(t) < 2 then 1 else if Depth(t) < 4 then 2 else if Depth(t) < 6 then 4 else 8
  }

  /** `CV_ELEM_SIZE`: bytes of one element. */
  function ElemSize(t: MatType): (r: int)
    ensures 1 <= r <= 4096
    ensures r % ElemSize1(t) == 0
  {
    Channels(t) * ElemSize1(t)
  }

  /** Where a buffer lives: pageable host memory, page-locked host memory with its allocation flags, or a device. */
  datatype Location = Pageable | Pinned(mapped: bool, portable: bool) | Device(gpu: int)

  type Bytes = seq<bv8>

  /**
   * An OpenCV matrix header (`cv::Mat`, `cv::gpu::CudaMem`, `cv::gpu::GpuMat`):
   * the buffer it references, the byte offset of `data` within it, its size,
   * type, row step and the continuous/submatrix flags.
   */
  datatype Header = Header(buffer: BufferId, offset: int, rows: int, cols: int, typ: MatType, step: int,
                           continuous: bool, submatrix: bool)
  {
    predicate HasData() { buffer >= 0 }
    /** `cv::Mat::empty()`: no data or no elements. */
    predicate MatEmpty() { !HasData() || rows * cols == 0 }
    /** `cv::gpu::GpuMat::empty()` and `cv::gpu::CudaMem::empty()`: no data. */
    predicate DataEmpty() { !HasData() }
  }

  /** A default-constructed header: no data, 0 x 0, type 0. */
  const NullHeader := Header(Null, 0, 0, 0, 0, 0, false, false)

  /** What `cudaPointerGetAttributes` reports. */
  datatype MemoryType = HostMemory | DeviceMemory
  datatype PointerAttributes = PointerAttributes(memoryType: MemoryType, device: int, devicePointer: bool)

  /** Adding one reference (`CV_XADD(refcount, 1)`); a null pointer has no counter. */
  function Retained(rc: map<BufferId, int>, b: BufferId): (r: map<BufferId, int>)
    ensures r.Keys == rc.Keys
    ensures forall x :: x in rc && x != b ==> r[x] == rc[x]
    ensures b in rc ==> r[b] == rc[b] + 1
  {
    if b in rc then rc[b := rc[b] + 1] else rc
  }

  /** Dropping one reference (`release()`). */
  function Released(rc: map<BufferId, int>, b: BufferId): (r: map<BufferId, int>)
    ensures r.Keys == rc.Keys
    ensures forall x :: x in rc && x != b ==> r[x] == rc[x]
    ensures b in rc ==> r[b] == rc[b] - 1
  {
    if b in rc then rc[b := rc[b] - 1] else rc
  }

  lemma RetainThenRelease(rc: map<BufferId, int>, b: BufferId)
    ensures Released(Retained(rc, b), b) == rc
  {
  }

  /**
   * The process-wide CUDA state: the platform's device facts, the active device
   * (`cv::gpu::getDevice`) and every buffer allocated so far.
   */
  class Runtime {
    const hw: Hardware.Platform
    var active: int
    var refcount: map<BufferId, int>
    var location: map<BufferId, Location>
    var bytes: map<BufferId, int>
    var contents: map<BufferId, Bytes>
    var nextId: BufferId

    ghost predicate Valid()
      reads this
    {
      && hw.WellFormed()
      && 0 <= active < Hardware.GpusMax
      && 0 <= nextId
      && refcount.Keys == location.Keys == bytes.Keys == contents.Keys
      && forall b :: b in location ==> 0 <= b < nextId
    }

    constructor(hw: Hardware.Platform, active: int)
      requires hw.WellFormed() && 0 <= active < Hardware.GpusMax
      ensures Valid() && this.hw == hw && this.active == active
      ensures refcount == map[] && location == map[] && bytes == map[] && contents == map[]
    {
      this.hw := hw;
      this.active := active;
      refcount, location, bytes, contents := map[], map[], map[], map[];
      nextId := 0;
    }

    /** The contents a header sees (empty for a null or unknown buffer). */
    function ContentOf(h: Header): Bytes
      reads this
    {
      ContentIn(contents, h)
    }

    /** `cv::gpu::setDevice` */
    method SetDevice(gpu: int)
      requires Valid() && 0 <= gpu < Hardware.GpusMax
      modifies this
      ensures Valid() && active == gpu
      ensures refcount == old(refcount) && location == old(location) && bytes == old(bytes)
      ensures contents == old(contents) && nextId == old(nextId)
    {
      active := gpu;
    }

    /** Every buffer that existed keeps its location, size and contents. */
    twostate predicate Keeps()
      reads this
    {
      && (forall b :: b in old(location) ==> b in location && location[b] == old(location[b]))
      && (forall b :: b in old(bytes) ==> b in bytes && bytes[b] == old(bytes[b]))
      && (forall b :: b in old(contents) ==> b in contents && contents[b] == old(contents[b]))
    }

    /** Nothing but (at most) the active device changed. */
    twostate predicate Same()
      reads this
    {
      refcount == old(refcount) && location == old(location) && bytes == old(bytes) && contents == old(contents) && nextId == old(nextId)
    }

    /** Every buffer keeps its location, size and contents, and none was allocated. */
    twostate predicate SameBuffers()
      reads this
    {
      location == old(location) && bytes == old(bytes) && contents == old(contents) && nextId == old(nextId)
    }

    /** Only reference counts changed. */
    twostate predicate Recounted()
      reads this
    {
      active == old(active) && SameBuffers()
    }

    /** `CV_XADD(refcount, 1)` */
    method Retain(b: BufferId)
      requires Valid()
      modifies this
      ensures Valid() && refcount == Retained(old(refcount), b) && active == old(active)
      ensures location == old(location) && bytes == old(bytes) && contents == old(contents) && nextId == old(nextId)
    {
      refcount := Retained(refcount, b);
    }

    /** `release()`: drop one reference. */
    method Release(b: BufferId)
      requires Valid()
      modifies this
      ensures Valid() && refcount == Released(old(refcount), b) && active == old(active)
      ensures location == old(location) && bytes == old(bytes) && contents == old(contents) && nextId == old(nextId)
    {
      refcount := Released(refcount, b);
    }

    /**
     * Header assignment with OpenCV reference counting: the source's counter is
     * incremented, then the target's old counter is decremented.
     */
    method Assign(target: Header, source: Header) returns (r: Header)
      requires Valid()
      modifies this
      ensures Valid() && r == source && active == old(active)
      ensures refcount == Released(Retained(old(refcount), source.buffer), target.buffer)
      ensures location == old(location) && bytes == old(bytes) && contents == old(contents) && nextId == old(nextId)
    {
      refcount := Retained(refcount, source.buffer);
      refcount := Released(refcount, target.buffer);
      r := source;
    }

    /**
     * Allocation of `n` bytes at `loc` into the header `target` (`create`,
     * `cudaHostAlloc`): the old buffer is released and a new buffer with one
     * reference and uninitialised contents is wrapped as one row of `n` bytes.
     */
    method Allocate(target: Header, loc: Location, n: int) returns (r: Header)
      requires Valid()
      modifies this
      ensures Valid() && active == old(active)
      ensures r == Header(old(nextId), 0, 1, n, CV_8UC1, n, true, false)
      ensures old(nextId) !in old(location) && nextId == old(nextId) + 1
      ensures refcount == Released(old(refcount), target.buffer)[r.buffer := 1]
      ensures location == old(location)[r.buffer := loc] && bytes == old(bytes)[r.buffer := n]
      ensures contents == old(contents)[r.buffer := []]
    {
      refcount := Released(refcount, target.buffer);
      var b := nextId;
      refcount := refcount[b := 1];
      location := location[b := loc];
      bytes := bytes[b := n];
      contents := contents[b := []];
      nextId := nextId + 1;
      r := Header(b, 0, 1, n, CV_8UC1, n, true, false);
    }

    /** A copy between host and device memory (upload, download, peer copy, row-wise memcpy). */
    method Copy(target: Header, source: Header)
      requires Valid()
      modifies this
      ensures Valid() && active == old(active)
      ensures contents == (if target.buffer in old(contents) then old(contents)[target.buffer := old(ContentOf(source))] else old(contents))
      ensures refcount == old(refcount) && location == old(location) && bytes == old(bytes) && nextId == old(nextId)
    {
      if target.buffer in contents {
        contents := contents[target.buffer := ContentOf(source)];
      }
    }

    /** `cudaPointerGetAttributes`: fails for memory the runtime does not know. */
    function Attributes(h: Header): (r: Result<PointerAttributes>)
      reads this
      ensures r.Ok? <==> h.buffer in location && !location[h.buffer].Pageable?
      ensures r.Ok? && r.value.memoryType == DeviceMemory ==> location[h.buffer] == Device(r.value.device)
      ensures r.Ok? && r.value.memoryType == HostMemory ==>
                location[h.buffer].Pinned? && location[h.buffer].mapped == r.value.devicePointer
    {
      if h.buffer !in location then Err(ErrCuda)
      else match location[h.buffer]
        case Pageable => Err(ErrCuda)
        case Pinned(mapped, _) => Ok(PointerAttributes(HostMemory, active, mapped))
        case Device(g) => Ok(PointerAttributes(DeviceMemory, g, true))
    }

    /** `cudaHostGetFlags`: mapped and portable flags of page-locked memory. */
    function HostFlags(h: Header): (r: Result<(bool, bool)>)
      reads this
      ensures r.Ok? <==> h.buffer in location && location[h.buffer].Pinned?
    {
      if h.buffer in location && location[h.buffer].Pinned?
      then Ok((location[h.buffer].mapped, location[h.buffer].portable))
      else Err(ErrCuda)
    }
  }

  /** The contents a header sees in `contents` (empty for a null or unknown buffer). */
  function ContentIn(contents: map<BufferId, Bytes>, h: Header): Bytes
  {
    if h.buffer in contents then contents[h.buffer] else []
  }

  /**
   * isMappedMemory: whether a GPU header is page-locked memory `pl` mapped
   * into the device's address space. `cudaHostGetDevicePointer` fails unless
   * `pl` is page-locked memory allocated with the mapped flag.
   */
  function MappedMemory(location: map<BufferId, Location>, pl: Header, gm: Header): (r: Result<bool>)
    ensures !pl.HasData() || !gm.HasData() ==> r == Ok(false)
    ensures r == Ok(true) ==> gm.buffer == pl.buffer && gm.offset == pl.offset
  {
    if !pl.HasData() || !gm.HasData() then Ok(false)
    else if pl.buffer in location && location[pl.buffer].Pinned? && location[pl.buffer].mapped
    then Ok(gm.buffer == pl.buffer && gm.offset == pl.offset)
    else Err(ErrCuda)
  }

  const ErrCuda := "CUDA error"
}
