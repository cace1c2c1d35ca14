// hawaii::AutoMat: one logical image held as a pageable host copy `cm`, a
// page-locked host copy `pl` and one copy `gm[g]` per GPU slot, each with an
// up-to-date flag. Writing marks every other copy stale; reading finds a valid
// copy in a fixed order and materialises the requested one by wrapping,
// mapping, downloading, peer copying or uploading.
//
// The CUDA runtime and the memory pool are the process-wide singletons
// `GpuRuntime.Runtime` and `Pool.MemoryPool`, passed to every operation.

module AutoMats {
  import opened Wrappers
  import Hardware
  import opened GpuRuntime
  import opened Pool
  import opened Ranges
  import opened Submatrix

  const ErrUninitialized := "not initialized anywhere yet"
  const ErrWrongGpu := "Current GPU's instance is on the wrong GPU. Did you re-allocate it after activating a different GPU?"
  const ErrInaccessible := "Current GPU's instance is inaccessible. I don't know what exactly went wrong."
  const ErrOtherWrongGpu := "Other GPU's instance is on the wrong GPU. Did you re-allocate it after activating a different GPU?"
  /** OpenCV's assertion in `create` on a negative size; OpenCV's own text is not part of this model. */
  const ErrNegativeSize := "negative size"

  /** `MatValid<MatBase>`: a wrapped matrix header with its `upToDate` flag. */
  datatype MatValid = MatValid(h: Header, upToDate: bool)
  {
    /** `valid()` of a wrapped `cv::Mat`: up to date and neither without data nor without elements. */
    predicate CpuValid() { upToDate && !h.MatEmpty() }
    /** `valid()` of a wrapped `CudaMem` or `GpuMat`: up to date and with data. */
    predicate DeviceValid() { upToDate && !h.DataEmpty() }
  }

  /** The default `MatValid`: an empty header that is not up to date. */
  const Unset := MatValid(NullHeader, false)

  /** `MatValid(matBase)` and `operator =(matBase)`: wrapping a plain matrix marks it up to date. */
  function Wrapping(h: Header): (v: MatValid)
    ensures v.h == h && v.upToDate
    ensures v.CpuValid() <==> !h.MatEmpty()
    ensures v.DeviceValid() <==> h.HasData()
  {
    MatValid(h, true)
  }

  /** A buffer the runtime knows, or none. */
  predicate Known(m: map<BufferId, Bytes>, h: Header)
  {
    h.buffer < 0 || h.buffer in m
  }

  /** `m'` keeps every buffer of `m` with its contents. */
  predicate Extends(m': map<BufferId, Bytes>, m: map<BufferId, Bytes>)
  {
    forall b :: b in m ==> b in m' && m'[b] == m[b]
  }

  /** A header whose size the pool can serve. */
  predicate HeaderFits(hw: Hardware.Platform, h: Header)
    requires hw.WellFormed()
  {
    Fits(hw, h.rows, h.cols, h.typ)
  }

  /**
   * `pl.createMatHeader()` and `pl.createGpuMatHeader()`: a `cv::Mat` header
   * over the page-locked data, or a `GpuMat` header over its device pointer
   * when it is mapped; both address the same buffer.
   */
  function HeaderOver(p: Header): (h: Header)
    ensures h.buffer == p.buffer && h.offset == p.offset
    ensures h.rows == p.rows && h.cols == p.cols && h.typ == p.typ && h.step == p.step && !h.submatrix
  {
    Header(p.buffer, p.offset, p.rows, p.cols, p.typ, p.step, p.rows == 1 || ElemSize(p.typ) * p.cols == p.step, false)
  }

  /** `cv::Size`: width (columns) and height (rows). */
  datatype Size = Size(width: int, height: int)

  /** What scanning the GPU copies for page-locked memory mapped into a device found. */
  datatype ScanResult = Mapped(gpu: nat) | Own(gpu: nat) | NoneValid | Failed(msg: string)

  /** Two headers over the same bytes with the same shape and type. */
  predicate SameView(a: Header, b: Header) {
    a.buffer == b.buffer && a.offset == b.offset && a.step == b.step && a.rows == b.rows && a.cols == b.cols && a.typ == b.typ
  }

  /**
   * The scan of the GPU copies from slot `g` on for one that is `p` mapped
   * into its device: the first such valid copy, else the last valid one
   * (`own` is the last valid one before `g`), else none; a failed mapping
   * query ends the scan.
   */
  function Scan(hw: Hardware.Platform, loc: map<BufferId, Location>, p: Header, gm: seq<MatValid>, g: nat, own: int): (r: ScanResult)
    requires |gm| == Hardware.GpusMax && -1 <= own < g
    requires own >= 0 ==> own < Hardware.Gpus(hw) && gm[own].DeviceValid() && MappedMemory(loc, p, gm[own].h) == Ok(false)
    ensures r.Mapped? ==> g <= r.gpu < Hardware.Gpus(hw) && gm[r.gpu].DeviceValid() && MappedMemory(loc, p, gm[r.gpu].h) == Ok(true)
    ensures r.Own? ==>
              && (r.gpu == own || g <= r.gpu)
              && r.gpu < Hardware.Gpus(hw) && gm[r.gpu].DeviceValid() && MappedMemory(loc, p, gm[r.gpu].h) == Ok(false)
              && forall j :: g <= j < Hardware.Gpus(hw) && r.gpu < j ==> !gm[j].DeviceValid()
    ensures r.Own? || r.NoneValid? ==>
              forall j :: g <= j < Hardware.Gpus(hw) && gm[j].DeviceValid() ==> MappedMemory(loc, p, gm[j].h) == Ok(false)
    ensures r.NoneValid? ==> own < 0 && forall j :: g <= j < Hardware.Gpus(hw) ==> !gm[j].DeviceValid()
    ensures r.Failed? ==> r.msg == ErrCuda && exists j :: g <= j < Hardware.Gpus(hw) && gm[j].DeviceValid()
    decreases Hardware.Gpus(hw) - g
  {
    if g >= Hardware.Gpus(hw) then (if own >= 0 then Own(own) else NoneValid)
    else if !gm[g].DeviceValid() then Scan(hw, loc, p, gm, g + 1, own)
    else match MappedMemory(loc, p, gm[g].h)
      case Err(e) => Failed(e)
      case Ok(mapped) => if mapped then Mapped(g) else Scan(hw, loc, p, gm, g + 1, g)
  }

  /** The ROIs of a header the pool can serve are headers the pool can serve. */
  lemma RoiFits(hw: Hardware.Platform, h: Header, rr: Range, cr: Range)
    requires hw.WellFormed() && HeaderFits(hw, h) && Within(rr, h.rows) && Within(cr, h.cols)
    ensures HeaderFits(hw, SubMat(h, rr, cr)) && HeaderFits(hw, PlRoi(h, rr, cr))
  {
    var rows, cols := Extent(rr, h.rows), Extent(cr, h.cols);
    if rows >= 1 && cols >= 1 {
      FitsShrinks(hw, h.rows, h.cols, rows, cols, h.typ);
    }
  }

  /** A header with the given size and type (`size() == size && type() == type`). */
  predicate Matches(h: Header, size: Size, t: MatType)
  {
    h.rows == size.height && h.cols == size.width && h.typ == t
  }

  /** What the ROI takes from a `cv::Mat` or `GpuMat` copy: its ROI with its flag if it matches, else nothing. */
  function RoiOf(v: MatValid, size: Size, t: MatType, rr: Range, cr: Range): MatValid
    requires Matches(v.h, size, t) ==> Within(rr, v.h.rows) && Within(cr, v.h.cols)
  {
    if Matches(v.h, size, t) then MatValid(SubMat(v.h, rr, cr), v.upToDate) else Unset
  }

  /** What the ROI takes from the page-locked copy: its hand-made ROI with its flag if it has data and matches. */
  function PlRoiOf(v: MatValid, size: Size, t: MatType, rr: Range, cr: Range): MatValid
  {
    if v.h.HasData() && Matches(v.h, size, t) then MatValid(PlRoi(v.h, rr, cr), v.upToDate) else Unset
  }

  class AutoMat {
    var cm: MatValid
    var pl: MatValid
    const gm: array<MatValid>

    /** The default constructor: no copy has data or is up to date. */
    constructor()
      ensures cm == Unset && pl == Unset && fresh(gm) && gm.Length == Hardware.GpusMax
      ensures forall g :: 0 <= g < Hardware.GpusMax ==> gm[g] == Unset
    {
      cm, pl := Unset, Unset;
      gm := new MatValid[Hardware.GpusMax](_ => Unset);
    }

    ghost predicate Shaped()
      reads this
    {
      gm.Length == Hardware.GpusMax
    }

    /** Every copy's buffer is null or known in `m`, and every copy's size is one the pool can serve. */
    ghost predicate Inv(hw: Hardware.Platform, m: map<BufferId, Bytes>)
      reads this, gm
    {
      && Shaped() && hw.WellFormed()
      && Known(m, cm.h) && HeaderFits(hw, cm.h)
      && Known(m, pl.h) && HeaderFits(hw, pl.h)
      && (forall g :: 0 <= g < Hardware.GpusMax ==> Known(m, gm[g].h) && HeaderFits(hw, gm[g].h))
    }

    ghost predicate Valid(rt: Runtime)
      reads this, gm, rt
    {
      Inv(rt.hw, rt.contents)
    }

    /** The valid GPU copies below GPUs all see `c`. */
    ghost predicate GpusShow(hw: Hardware.Platform, m: map<BufferId, Bytes>, c: Bytes)
      reads gm
      requires gm.Length == Hardware.GpusMax
    {
      forall g :: 0 <= g < Hardware.Gpus(hw) && gm[g].DeviceValid() ==> ContentIn(m, gm[g].h) == c
    }

    /** Coherence: every valid copy the getters and readers consult sees the contents `c` (`pl` exists only with CUDA). */
    ghost predicate Shows(hw: Hardware.Platform, m: map<BufferId, Bytes>, c: Bytes)
      reads this, gm
      requires Shaped()
    {
      && (cm.CpuValid() ==> ContentIn(m, cm.h) == c)
      && (hw.cudaCompiled && pl.DeviceValid() ==> ContentIn(m, pl.h) == c)
      && GpusShow(hw, m, c)
    }

    /** Some copy the getters consult is valid. */
    ghost predicate AnyValid(hw: Hardware.Platform)
      reads this, gm
      requires Shaped()
    {
      || cm.CpuValid()
      || (hw.cudaCompiled && (pl.DeviceValid() || exists g :: 0 <= g < Hardware.Gpus(hw) && gm[g].DeviceValid()))
    }

    /** Keeping every known buffer keeps the invariant and what every copy sees. */
    lemma Extended(hw: Hardware.Platform, m: map<BufferId, Bytes>, m': map<BufferId, Bytes>, c: Bytes)
      requires Inv(hw, m) && Extends(m', m)
      ensures Inv(hw, m')
      ensures Shows(hw, m, c) ==> Shows(hw, m', c)
    {
      Invariant(hw, m, m');
      if Shows(hw, m, c) {
        forall g | 0 <= g < Hardware.Gpus(hw) && gm[g].DeviceValid()
          ensures ContentIn(m', gm[g].h) == c
        {
          assert Known(m, gm[g].h);
        }
      }
    }

    lemma Invariant(hw: Hardware.Platform, m: map<BufferId, Bytes>, m': map<BufferId, Bytes>)
      requires Inv(hw, m) && Extends(m', m)
      ensures Inv(hw, m')
    {
      forall g | 0 <= g < Hardware.GpusMax
        ensures Known(m', gm[g].h)
      {
        assert Known(m, gm[g].h);
      }
    }

    /** Overwriting buffer `t` with `c` keeps every copy that saw `c` seeing it. */
    lemma Overwritten(hw: Hardware.Platform, m: map<BufferId, Bytes>, t: BufferId, c: Bytes)
      requires Shaped() && t in m && GpusShow(hw, m, c)
      ensures GpusShow(hw, m[t := c], c)
      ensures cm.CpuValid() && ContentIn(m, cm.h) == c ==> ContentIn(m[t := c], cm.h) == c
      ensures pl.DeviceValid() && ContentIn(m, pl.h) == c ==> ContentIn(m[t := c], pl.h) == c
    {
    }

    // -------------------------------------------------------------------------
    // Getters

    /** The first valid GPU copy from slot `g` on, below GPUs. */
    function FirstGpu(hw: Hardware.Platform, g: nat): (r: Option<Header>)
      reads this, gm
      requires Shaped()
      ensures r.None? <==> forall j :: g <= j < Hardware.Gpus(hw) ==> !gm[j].DeviceValid()
      ensures r.Some? ==>
                exists j :: g <= j < Hardware.Gpus(hw) && gm[j].DeviceValid() && gm[j].h == r.value &&
                  forall i :: g <= i < j ==> !gm[i].DeviceValid()
      decreases Hardware.Gpus(hw) - g
    {
      if g >= Hardware.Gpus(hw) then None
      else if gm[g].DeviceValid() then Some(gm[g].h)
      else FirstGpu(hw, g + 1)
    }

    /** The copy every getter reads: `cm`, then `pl`, then `gm[0..GPUs)`, the first that is valid (only `cm` without CUDA). */
    function Selected(hw: Hardware.Platform): (r: Option<Header>)
      reads this, gm
      requires Shaped()
      ensures r.None? <==> !AnyValid(hw)
      ensures cm.CpuValid() ==> r == Some(cm.h)
    {
      if cm.CpuValid() then Some(cm.h)
      else if !hw.cudaCompiled then None
      else if pl.DeviceValid() then Some(pl.h)
      else FirstGpu(hw, 0)
    }

    /** `size()`: the selected copy's size, 0 x 0 when none is valid. */
    function GetSize(hw: Hardware.Platform): (s: Size)
      reads this, gm
      requires Shaped()
      ensures !AnyValid(hw) ==> s == Size(0, 0)
      ensures AnyValid(hw) ==> s == Size(Selected(hw).value.cols, Selected(hw).value.rows)
    {
      match Selected(hw)
      case None => Size(0, 0)
      case Some(h) => Size(h.cols, h.rows)
    }

    /** `empty()`: the selected copy's `empty()`, true when none is valid; a valid copy is never empty. */
    function Empty(hw: Hardware.Platform): (e: bool)
      reads this, gm
      requires Shaped()
      ensures e <==> !AnyValid(hw)
    {
      if cm.CpuValid() then cm.h.MatEmpty()
      else if !hw.cudaCompiled then true
      else if pl.DeviceValid() then pl.h.DataEmpty()
      else match FirstGpu(hw, 0)
        case None => true
        case Some(h) => h.DataEmpty()
    }

    /** `type()`: the selected copy's type; fails when none is valid. */
    function Type(hw: Hardware.Platform): (r: Result<MatType>)
      reads this, gm
      requires Shaped()
      ensures r.Err? <==> !AnyValid(hw)
      ensures r.Err? ==> r.msg == ErrUninitialized
      ensures r.Ok? ==> r.value == Selected(hw).value.typ
    {
      match Selected(hw)
      case None => Err(ErrUninitialized)
      case Some(h) => Ok(h.typ)
    }

    /** `elemSize()`: bytes per element of the selected copy; fails when none is valid. */
    function GetElemSize(hw: Hardware.Platform): (r: Result<int>)
      reads this, gm
      requires Shaped()
      ensures r.Err? <==> !AnyValid(hw)
      ensures r.Ok? ==> r.value == ElemSize(Type(hw).value) && 1 <= r.value
    {
      match Selected(hw)
      case None => Err(ErrUninitialized)
      case Some(h) => Ok(ElemSize(h.typ))
    }

    /** `elemSize1()`: bytes per channel of the selected copy; fails when none is valid. */
    function GetElemSize1(hw: Hardware.Platform): (r: Result<int>)
      reads this, gm
      requires Shaped()
      ensures r.Err? <==> !AnyValid(hw)
      ensures r.Ok? ==> r.value == ElemSize1(Type(hw).value) && GetElemSize(hw).value % r.value == 0
    {
      match Selected(hw)
      case None => Err(ErrUninitialized)
      case Some(h) => Ok(ElemSize1(h.typ))
    }

    /** `depth()`: the selected copy's depth; fails when none is valid. */
    function GetDepth(hw: Hardware.Platform): (r: Result<int>)
      reads this, gm
      requires Shaped()
      ensures r.Err? <==> !AnyValid(hw)
      ensures r.Ok? ==> r.value == Depth(Type(hw).value)
    {
      match Selected(hw)
      case None => Err(ErrUninitialized)
      case Some(h) => Ok(Depth(h.typ))
    }

    /** `channels()`: the selected copy's channel count; fails when none is valid. */
    function GetChannels(hw: Hardware.Platform): (r: Result<int>)
      reads this, gm
      requires Shaped()
      ensures r.Err? <==> !AnyValid(hw)
      ensures r.Ok? ==> r.value == Channels(Type(hw).value) && r.value * ElemSize1(Type(hw).value) == GetElemSize(hw).value
    {
      match Selected(hw)
      case None => Err(ErrUninitialized)
      case Some(h) => Ok(Channels(h.typ))
    }

    /** `rows`: the height of `size()`. */
    function Rows(hw: Hardware.Platform): (n: int)
      reads this, gm
      requires Shaped()
      ensures n == (if AnyValid(hw) then Selected(hw).value.rows else 0)
    {
      GetSize(hw).height
    }

    /** `cols`: the width of `size()`. */
    function Cols(hw: Hardware.Platform): (n: int)
      reads this, gm
      requires Shaped()
      ensures n == (if AnyValid(hw) then Selected(hw).value.cols else 0)
    {
      GetSize(hw).width
    }

    // -------------------------------------------------------------------------
    // Invalidation

    /** `invalidate()`: every flag is cleared (`pl` and the GPU copies only with CUDA); no header changes. */
    method Invalidate(hw: Hardware.Platform)
      requires Shaped()
      modifies this, gm
      ensures cm == old(cm).(upToDate := false)
      ensures pl == (if hw.cudaCompiled then old(pl).(upToDate := false) else old(pl))
      ensures forall g :: 0 <= g < Hardware.GpusMax ==>
                gm[g] == (if g < Hardware.Gpus(hw) then old(gm[g]).(upToDate := false) else old(gm[g]))
      ensures !AnyValid(hw)
    {
      cm := cm.(upToDate := false);
      if hw.cudaCompiled {
        pl := pl.(upToDate := false);
        var g := 0;
        while g < Hardware.Gpus(hw)
          invariant 0 <= g <= Hardware.Gpus(hw)
          invariant cm == old(cm).(upToDate := false) && pl == old(pl).(upToDate := false)
          invariant forall j :: 0 <= j < Hardware.GpusMax ==>
                      gm[j] == (if j < g then old(gm[j]).(upToDate := false) else old(gm[j]))
        {
          gm[g] := gm[g].(upToDate := false);
          g := g + 1;
        }
      }
    }

    // -------------------------------------------------------------------------
    // Reading

    /**
     * The loop of readCPU and readGPU over the GPU copies while `pl` is not
     * valid: each valid one is activated and tested for being `pl` mapped; a
     * mapped one makes `pl` up to date, otherwise the last valid one is remembered.
     */
    method ScanGpus(rt: Runtime) returns (r: ScanResult)
      requires rt.Valid() && Shaped()
      modifies this, rt
      ensures rt.Valid() && rt.Same() && cm == old(cm) && pl.h == old(pl.h)
      ensures old(pl.DeviceValid()) ==> r == NoneValid && pl == old(pl)
      ensures !old(pl.DeviceValid()) ==> r == Scan(rt.hw, rt.location, pl.h, gm[..], 0, -1)
      ensures pl.upToDate == (old(pl.upToDate) || r.Mapped?)
      ensures r.Mapped? ==> pl.DeviceValid()
      ensures r.Own? ==> r.gpu < Hardware.Gpus(rt.hw) && gm[r.gpu].DeviceValid()
      ensures r.Failed? ==> r.msg == ErrCuda && exists j :: 0 <= j < Hardware.Gpus(rt.hw) && gm[j].DeviceValid()
      ensures r.NoneValid? && !old(pl.DeviceValid()) ==> forall j :: 0 <= j < Hardware.Gpus(rt.hw) ==> !gm[j].DeviceValid()
    {
      if pl.DeviceValid() {
        return NoneValid;
      }
      ghost var loc, p, gs := rt.location, pl.h, gm[..];
      var own := -1;
      var g := 0;
      while g < Hardware.Gpus(rt.hw)
        invariant 0 <= g <= Hardware.Gpus(rt.hw) && -1 <= own < g
        invariant own >= 0 ==> gs[own].DeviceValid() && MappedMemory(loc, p, gs[own].h) == Ok(false)
        invariant rt.Valid() && rt.Same() && cm == old(cm) && pl == old(pl)
        invariant Scan(rt.hw, loc, p, gs, 0, -1) == Scan(rt.hw, loc, p, gs, g, own)
      {
        if gm[g].DeviceValid() {
          rt.SetDevice(g);
          var m := MappedMemory(rt.location, pl.h, gm[g].h);
          if m.Err? {
            assert Scan(rt.hw, loc, p, gs, g, own) == Failed(m.msg);
            return Failed(m.msg);
          }
          if m.value {
            assert Scan(rt.hw, loc, p, gs, g, own) == Mapped(g);
            pl := pl.(upToDate := true);
            return Mapped(g);
          }
          own := g;
        }
        g := g + 1;
      }
      r := if own >= 0 then Own(own) else NoneValid;
    }

    /** wrapInclRefcount into `cm`: one more reference to `pl`'s buffer, and `cm` becomes a `Mat` header over it. */
    method WrapCpu(rt: Runtime)
      requires rt.Valid() && Valid(rt)
      modifies this, rt
      ensures rt.Valid() && Valid(rt) && rt.Keeps()
      ensures cm == Wrapping(HeaderOver(pl.h)) && pl == old(pl)
      ensures rt.refcount == Released(Retained(old(rt.refcount), pl.h.buffer), old(cm.h.buffer))
      ensures rt.active == old(rt.active) && rt.location == old(rt.location) && rt.bytes == old(rt.bytes)
      ensures rt.contents == old(rt.contents) && rt.nextId == old(rt.nextId)
    {
      var h := rt.Assign(cm.h, HeaderOver(pl.h));
      cm := Wrapping(h);
    }

    /**
     * wrapInclRefcount into `gm[g]`: one more reference to `pl`'s buffer, then
     * `gm[g]` becomes an up-to-date `GpuMat` header over its device pointer,
     * which fails unless `pl` is mapped page-locked memory.
     */
    method MapInto(rt: Runtime, g: nat) returns (res: Result<()>)
      requires rt.Valid() && Valid(rt) && g < Hardware.GpusMax
      modifies gm, rt
      ensures rt.Valid() && Valid(rt) && rt.Keeps()
      ensures res.Err? <==> !(pl.h.HasData() && pl.h.buffer in rt.location && rt.location[pl.h.buffer].Pinned? && rt.location[pl.h.buffer].mapped)
      ensures res.Err? ==> res.msg == ErrCuda && gm[..] == old(gm[..]) && rt.refcount == Retained(old(rt.refcount), pl.h.buffer)
      ensures res.Ok? ==> gm[..] == old(gm[..])[g := Wrapping(HeaderOver(pl.h))]
      ensures res.Ok? ==> gm[g] == Wrapping(HeaderOver(pl.h))
      ensures res.Ok? ==> rt.refcount == Released(Retained(old(rt.refcount), pl.h.buffer), old(gm[g].h.buffer))
      ensures rt.active == old(rt.active) && rt.location == old(rt.location) && rt.bytes == old(rt.bytes)
      ensures rt.contents == old(rt.contents) && rt.nextId == old(rt.nextId)
    {
      rt.Retain(pl.h.buffer);
      if !(pl.h.HasData() && pl.h.buffer in rt.location && rt.location[pl.h.buffer].Pinned? && rt.location[pl.h.buffer].mapped) {
        return Err(ErrCuda);
      }
      rt.Release(gm[g].h.buffer);
      gm[g] := Wrapping(HeaderOver(pl.h));
      res := Ok(());
    }

    /** MapInto from a valid `pl`: the mapped GPU copy is valid and sees what every valid copy sees. */
    method WrapGpu(rt: Runtime, g: nat, ghost c: Bytes) returns (res: Result<()>)
      requires rt.Valid() && Valid(rt) && g < Hardware.GpusMax && Shows(rt.hw, rt.contents, c) && pl.DeviceValid()
      requires rt.hw.cudaCompiled
      modifies gm, rt
      ensures rt.Valid() && Valid(rt) && rt.Keeps() && Shows(rt.hw, rt.contents, c)
      ensures res.Ok? ==> gm[g].DeviceValid() && ContentIn(rt.contents, gm[g].h) == c
      ensures res.Err? <==> !(rt.location[pl.h.buffer].Pinned? && rt.location[pl.h.buffer].mapped)
      ensures res.Err? ==> res.msg == ErrCuda && gm[..] == old(gm[..])
      ensures res.Ok? ==> gm[..] == old(gm[..])[g := Wrapping(HeaderOver(pl.h))]
      ensures rt.active == old(rt.active) && rt.location == old(rt.location) && rt.bytes == old(rt.bytes)
      ensures rt.contents == old(rt.contents) && rt.nextId == old(rt.nextId)
    {
      res := MapInto(rt, g);
    }

    /** AcquireCudaMem into `pl`'s header, with the consequences the readers and writers rely on. */
    method AcquirePl(rt: Runtime, pool: MemoryPool, rows: int, cols: int, typ: MatType, ghost c: Bytes)
      returns (res: Result<Header>)
      requires rt.Valid() && pool.Valid(rt) && Valid(rt) && Shows(rt.hw, rt.contents, c) && Fits(rt.hw, rows, cols, typ)
      modifies rt, pool.devicePools, pool.pinnedPools
      ensures rt.Valid() && pool.Valid(rt) && rt.active == old(rt.active)
      ensures Valid(rt) && Shows(rt.hw, rt.contents, c) && Extends(rt.contents, old(rt.contents))
      ensures res.Err? ==> PoolError(res.msg)
      ensures rows < 1 || cols < 1 ==> res.Err?
      ensures res.Ok? ==> res.value.rows == rows && res.value.cols == cols && res.value.typ == typ
      ensures res.Ok? ==> res.value.buffer in rt.contents && rt.location[res.value.buffer] == Pinned(true, true)
    {
      res := pool.AcquireCudaMem(rt, pl.h, rows, cols, typ);
      Extended(rt.hw, old(rt.contents), rt.contents, c);
    }

    /** `pl` becomes `h` holding the contents `src` sees, which are `c`, and is up to date. */
    method FillPl(rt: Runtime, h: Header, src: Header, ghost c: Bytes)
      requires rt.Valid() && Valid(rt) && Shows(rt.hw, rt.contents, c)
      requires h.buffer in rt.contents && HeaderFits(rt.hw, h) && ContentIn(rt.contents, src) == c
      modifies this, rt
      ensures rt.Valid() && Valid(rt) && Shows(rt.hw, rt.contents, c)
      ensures cm == old(cm) && pl == Wrapping(h)
      ensures rt.active == old(rt.active) && rt.location == old(rt.location) && rt.bytes == old(rt.bytes)
    {
      ghost var m := rt.contents;
      rt.Copy(h, src);
      Overwritten(rt.hw, m, h.buffer, c);
      pl := Wrapping(h);
    }

    /**
     * The download branch of readCPU and readGPU: GPU `own` is activated, `pl`
     * gets page-locked pool memory of `gm[own]`'s size and type, the copy's
     * contents are downloaded into it and it becomes up to date.
     */
    method Download(rt: Runtime, pool: MemoryPool, own: nat, ghost c: Bytes) returns (res: Result<()>)
      requires rt.Valid() && pool.Valid(rt) && Valid(rt) && Shows(rt.hw, rt.contents, c)
      requires own < Hardware.Gpus(rt.hw) && gm[own].DeviceValid()
      modifies this, rt, pool.devicePools, pool.pinnedPools
      ensures rt.Valid() && pool.Valid(rt)
      ensures Valid(rt)
      ensures Shows(rt.hw, rt.contents, c)
      ensures cm == old(cm) && rt.active == own
      ensures res.Err? ==> PoolError(res.msg) && pl == old(pl)
      ensures res.Ok? ==> pl.DeviceValid()
      ensures res.Ok? ==> pl.h.rows == gm[own].h.rows && pl.h.cols == gm[own].h.cols && pl.h.typ == gm[own].h.typ
    {
      rt.SetDevice(own);
      pool.RuntimeKeepsValid(rt);
      res := PlFrom(rt, pool, gm[own].h, c);
    }

    /**
     * `pl` gets page-locked pool memory of `src`'s size and type, `src`'s
     * contents are copied into it and it becomes up to date (the download
     * and the deep copy from `cm` of readGPU).
     */
    method PlFrom(rt: Runtime, pool: MemoryPool, src: Header, ghost c: Bytes) returns (res: Result<()>)
      requires rt.Valid() && pool.Valid(rt) && Valid(rt) && Shows(rt.hw, rt.contents, c)
      requires Known(rt.contents, src) && HeaderFits(rt.hw, src) && ContentIn(rt.contents, src) == c
      modifies this, rt, pool.devicePools, pool.pinnedPools
      ensures rt.Valid() && pool.Valid(rt)
      ensures Valid(rt)
      ensures Shows(rt.hw, rt.contents, c)
      ensures cm == old(cm) && rt.active == old(rt.active)
      ensures res.Err? ==> PoolError(res.msg) && pl == old(pl)
      ensures res.Ok? ==> pl.DeviceValid()
      ensures res.Ok? ==> pl.h.rows == src.rows && pl.h.cols == src.cols && pl.h.typ == src.typ
    {
      var r := AcquirePl(rt, pool, src.rows, src.cols, src.typ, c);
      if r.Err? {
        return Err(r.msg);
      }
      FillPl(rt, r.value, src, c);
      res := Ok(());
    }

    /**
     * readCPU: a valid `cm` is returned as it is. Otherwise (with CUDA) the
     * GPU copies are scanned for `pl` mapped into a device; failing that, the
     * last valid non-mapped GPU copy is downloaded into `pl`; the caller's GPU
     * is activated again and a valid `pl` is wrapped into `cm`. Nothing valid
     * is an error.
     */
    method ReadCpu(rt: Runtime, pool: MemoryPool, ghost c: Bytes) returns (res: Result<Header>)
      requires rt.Valid() && pool.Valid(rt) && Valid(rt) && Shows(rt.hw, rt.contents, c)
      modifies this, rt, pool.devicePools, pool.pinnedPools
      ensures rt.Valid() && pool.Valid(rt)
      ensures Valid(rt)
      ensures Shows(rt.hw, rt.contents, c)
      ensures old(cm.CpuValid()) ==> res == Ok(old(cm.h)) && cm == old(cm) && pl == old(pl) && rt.Same()
      ensures res == Err(ErrUninitialized) <==> !old(AnyValid(rt.hw))
      ensures res.Err? ==> res.msg == ErrUninitialized || PoolError(res.msg)
      ensures res.Ok? || res.msg == ErrUninitialized ==> rt.active == old(rt.active)
      ensures res.Ok? ==> cm.upToDate && res.value == cm.h && ContentIn(rt.contents, res.value) == c
      ensures res.Ok? && !old(cm.CpuValid()) && old(pl.DeviceValid()) ==> res.value == HeaderOver(old(pl.h))
      ensures res.Ok? && !old(cm.CpuValid()) && !old(pl.DeviceValid()) ==>
                match old(Scan(rt.hw, rt.location, pl.h, gm[..], 0, -1))
                case Mapped(_) => res.value == HeaderOver(old(pl.h))
                case Own(g) => res.value.rows == gm[g].h.rows && res.value.cols == gm[g].h.cols && res.value.typ == gm[g].h.typ
                case _ => false
    {
      if cm.CpuValid() {
        return Ok(cm.h);
      }
      if !rt.hw.cudaCompiled {
        return Err(ErrUninitialized);
      }
      var caller := rt.active;
      var r := ScanGpus(rt);
      pool.RuntimeKeepsValid(rt);
      if r.Failed? {
        return Err(r.msg);
      }
      if !pl.DeviceValid() && r.Own? {
        var d := Download(rt, pool, r.gpu, c);
        if d.Err? {
          return Err(d.msg);
        }
      }
      res := Deliver(rt, pool, caller, c);
    }

    /** The end of readCPU: the caller's GPU is activated again and a valid `pl` is wrapped into `cm`. */
    method Deliver(rt: Runtime, pool: MemoryPool, caller: nat, ghost c: Bytes) returns (res: Result<Header>)
      requires rt.Valid() && pool.Valid(rt) && Valid(rt) && Shows(rt.hw, rt.contents, c) && caller < Hardware.GpusMax
      requires rt.hw.cudaCompiled
      modifies this, rt
      ensures rt.Valid() && pool.Valid(rt)
      ensures Valid(rt)
      ensures Shows(rt.hw, rt.contents, c)
      ensures rt.active == caller && pl == old(pl)
      ensures res.Err? <==> !pl.DeviceValid()
      ensures res.Err? ==> res.msg == ErrUninitialized && cm == old(cm)
      ensures res.Ok? ==> cm.upToDate && res.value == cm.h && res.value == HeaderOver(pl.h)
      ensures res.Ok? ==> ContentIn(rt.contents, res.value) == c
    {
      rt.SetDevice(caller);
      pool.RuntimeKeepsValid(rt);
      if !pl.DeviceValid() {
        return Err(ErrUninitialized);
      }
      WrapCpu(rt);
      pool.RuntimeKeepsValid(rt);
      res := Ok(cm.h);
    }

    /**
     * The most simple case of readGPU for the active GPU `gpu` and a resolved
     * kind: whether a valid `gm[gpu]` is returned as it is. With unified
     * addressing its pointer attributes decide (and expose memory on the
     * wrong device or without a device pointer); without, whether it is `pl`
     * mapped into the device.
     */
    function SimpleCase(rt: Runtime, gpu: nat, kind: MemoryKind): (r: Result<bool>)
      reads this, gm, rt
      requires rt.Valid() && Shaped() && gpu == rt.active
      ensures r == Ok(true) ==> gpu < Hardware.Gpus(rt.hw) && gm[gpu].DeviceValid()
      ensures r == Ok(true) && Hardware.UnifiedAddressingImpl(rt.hw, gpu) ==>
                gm[gpu].h.buffer in rt.location && InKind(rt.location[gm[gpu].h.buffer], kind, gpu)
      ensures (&& gm[gpu].DeviceValid() && gpu < Hardware.Gpus(rt.hw) && rt.hw.cudaCompiled
               && Hardware.UnifiedAddressingImpl(rt.hw, gpu) && gm[gpu].h.buffer in rt.location
               && InKind(rt.location[gm[gpu].h.buffer], kind, gpu)) ==> r == Ok(true)
      ensures !gm[gpu].DeviceValid() ==> r == Ok(false)
      ensures r.Err? ==> ReadError(r.msg) && r.msg != ErrUninitialized
    {
      if !gm[gpu].DeviceValid() then Ok(false)
      else match Hardware.GpuUnifiedAddressing(rt.hw, rt.active, gpu)
        case Err(e) => Err(e)
        case Ok(ua) =>
          if ua then
            match rt.Attributes(gm[gpu].h)
            case Err(e) => Err(e)
            case Ok(a) =>
              if a.memoryType == DeviceMemory && a.device != gpu then Err(ErrWrongGpu)
              else if !a.devicePointer then Err(ErrInaccessible)
              else Ok((kind == MemoryOwn && a.memoryType == DeviceMemory) || (kind == MemoryMapped && a.memoryType == HostMemory))
          else match MappedMemory(rt.location, pl.h, gm[gpu].h)
            case Err(e) => Err(e)
            case Ok(mapped) => Ok((kind == MemoryOwn && !mapped) || (kind == MemoryMapped && mapped))
    }

    /**
     * The search of readGPU for own memory: the first valid GPU copy whose
     * pointer attributes (both GPUs with unified addressing) say it is device
     * memory with a device pointer, i.e. one that can be peer copied.
     */
    method FindPeer(rt: Runtime, caller: nat) returns (r: Result<Option<nat>>)
      requires rt.Valid() && Shaped() && caller == rt.active
      ensures r.Ok? && r.value.Some? ==>
                && r.value.value < Hardware.Gpus(rt.hw) && gm[r.value.value].DeviceValid()
                && gm[r.value.value].h.buffer in rt.location
                && rt.location[gm[r.value.value].h.buffer] == Device(r.value.value)
      ensures r.Ok? && r.value.None? ==>
                forall g :: 0 <= g < Hardware.Gpus(rt.hw) && gm[g].DeviceValid() && Peerable(rt, caller, g) ==>
                  !(gm[g].h.buffer in rt.location && rt.location[gm[g].h.buffer].Device?)
      ensures r.Err? ==> ReadError(r.msg) && r.msg != ErrUninitialized
      ensures r.Err? ==> exists g :: 0 <= g < Hardware.Gpus(rt.hw) && gm[g].DeviceValid()
    {
      var g := 0;
      while g < Hardware.Gpus(rt.hw)
        invariant 0 <= g <= Hardware.Gpus(rt.hw)
        invariant forall j :: 0 <= j < g && gm[j].DeviceValid() && Peerable(rt, caller, j) ==>
                    !(gm[j].h.buffer in rt.location && rt.location[gm[j].h.buffer].Device?)
      {
        if gm[g].DeviceValid() {
          var uaCall := Hardware.GpuUnifiedAddressing(rt.hw, rt.active, caller);
          if uaCall.Err? {
            return Err(uaCall.msg);
          }
          if uaCall.value && Hardware.GpuUnifiedAddressing(rt.hw, rt.active, g) == Ok(true) {
            var attr := rt.Attributes(gm[g].h);
            if attr.Err? {
              return Err(attr.msg);
            }
            if attr.value.memoryType == DeviceMemory && attr.value.device != g {
              return Err(ErrOtherWrongGpu);
            }
            if attr.value.devicePointer && attr.value.memoryType == DeviceMemory {
              return Ok(Some(g));
            }
          }
        }
        g := g + 1;
      }
      r := Ok(None);
    }

    /**
     * `gm[g]` on the active GPU `g` gets own memory of `src`'s size and type
     * from the pool, `src`'s contents are copied into it (the peer copy and
     * the upload of readGPU) and it becomes up to date.
     */
    method GpuFrom(rt: Runtime, pool: MemoryPool, g: nat, src: Header, ghost c: Bytes) returns (res: Result<()>)
      requires rt.Valid() && pool.Valid(rt) && Valid(rt) && Shows(rt.hw, rt.contents, c) && g == rt.active
      requires Known(rt.contents, src) && HeaderFits(rt.hw, src) && ContentIn(rt.contents, src) == c
      modifies gm, rt, pool.devicePools, pool.pinnedPools
      ensures rt.Valid() && pool.Valid(rt)
      ensures Valid(rt)
      ensures Shows(rt.hw, rt.contents, c)
      ensures rt.active == old(rt.active)
      ensures res.Err? ==> PoolError(res.msg) && gm[..] == old(gm[..])
      ensures res.Ok? ==> gm[..] == old(gm[..])[g := gm[g]] && gm[g].DeviceValid() && ContentIn(rt.contents, gm[g].h) == c
      ensures res.Ok? ==> gm[g].h.rows == src.rows && gm[g].h.cols == src.cols && gm[g].h.typ == src.typ
      ensures res.Ok? ==> gm[g].h.buffer in rt.location && rt.location[gm[g].h.buffer] == Device(g)
    {
      var r := AcquireOwn(rt, pool, gm[g].h, src.rows, src.cols, src.typ, c);
      if r.Err? {
        return Err(r.msg);
      }
      FillGm(rt, g, r.value, src, c);
      res := Ok(());
    }

    /** The pool's `operator()` for own memory of the active GPU, with the consequences readGPU relies on. */
    method AcquireOwn(rt: Runtime, pool: MemoryPool, h: Header, rows: int, cols: int, typ: MatType, ghost c: Bytes)
      returns (res: Result<Header>)
      requires rt.Valid() && pool.Valid(rt) && Valid(rt) && Shows(rt.hw, rt.contents, c)
      requires Fits(rt.hw, rows, cols, typ) && Known(rt.contents, h)
      modifies rt, pool.devicePools, pool.pinnedPools
      ensures rt.Valid() && pool.Valid(rt) && rt.active == old(rt.active)
      ensures Valid(rt) && Shows(rt.hw, rt.contents, c) && Extends(rt.contents, old(rt.contents))
      ensures res.Err? ==> PoolError(res.msg)
      ensures res.Ok? ==> res.value.rows == rows && res.value.cols == cols && res.value.typ == typ
      ensures res.Ok? ==> res.value.buffer in rt.contents && rt.location[res.value.buffer] == Device(rt.active)
    {
      res := pool.AcquireGpuMat(rt, h, rows, cols, typ, MemoryOwn);
      Extended(rt.hw, old(rt.contents), rt.contents, c);
    }

    /** `gm[g]` becomes `h` holding the contents `src` sees, which are `c`, and is up to date. */
    method FillGm(rt: Runtime, g: nat, h: Header, src: Header, ghost c: Bytes)
      requires rt.Valid() && Valid(rt) && Shows(rt.hw, rt.contents, c) && g < Hardware.GpusMax
      requires h.buffer in rt.contents && HeaderFits(rt.hw, h) && ContentIn(rt.contents, src) == c
      modifies gm, rt
      ensures rt.Valid() && Valid(rt) && Shows(rt.hw, rt.contents, c)
      ensures gm[..] == old(gm[..])[g := Wrapping(h)] && ContentIn(rt.contents, h) == c
      ensures rt.active == old(rt.active) && rt.location == old(rt.location) && rt.bytes == old(rt.bytes)
    {
      ghost var m := rt.contents;
      rt.Copy(h, src);
      Overwritten(rt.hw, m, h.buffer, c);
      gm[g] := Wrapping(h);
    }

    /**
     * readGPU for the active GPU and the requested memory kind (`memoryAuto`
     * resolved by the active GPU's preference): a valid `gm[active]` of that
     * kind is returned as it is; own memory is peer copied from another GPU's
     * valid device memory; otherwise `pl` is made up to date (the alias of
     * `cm`, a mapped GPU copy, a deep copy of `cm`, a download) and uploaded
     * or mapped into the active GPU. Nothing valid is an error.
     */
    method ReadGpu(rt: Runtime, pool: MemoryPool, memory: MemoryKind, ghost c: Bytes) returns (res: Result<Header>)
      requires rt.Valid() && pool.Valid(rt) && Valid(rt) && Shows(rt.hw, rt.contents, c)
      modifies this, gm, rt, pool.devicePools, pool.pinnedPools
      ensures rt.Valid() && pool.Valid(rt)
      ensures Valid(rt)
      ensures Shows(rt.hw, rt.contents, c)
      ensures !rt.hw.cudaCompiled ==> res == Err(Hardware.ErrNoCuda)
      ensures res.Err? ==> ReadError(res.msg)
      ensures rt.hw.cudaCompiled && old(rt.active) < Hardware.Gpus(rt.hw) ==>
                (res == Err(ErrUninitialized) <==> !old(AnyValid(rt.hw)))
      ensures res.Ok? || res == Err(ErrUninitialized) ==> rt.active == old(rt.active)
      ensures res.Ok? ==> gm[rt.active].upToDate && res.value == gm[rt.active].h && ContentIn(rt.contents, res.value) == c
      ensures res.Ok? ==> Resolve(rt.hw, rt.active, memory).Ok?
      ensures res.Ok? && Hardware.UnifiedAddressingImpl(rt.hw, rt.active) ==>
                res.value.buffer in rt.location &&
                InKind(rt.location[res.value.buffer], Resolve(rt.hw, rt.active, memory).value, rt.active)
      ensures old(Resolve(rt.hw, rt.active, memory).Ok? && SimpleCase(rt, rt.active, Resolve(rt.hw, rt.active, memory).value) == Ok(true)) ==>
                res == Ok(old(gm[rt.active].h)) && cm == old(cm) && pl == old(pl) && gm[..] == old(gm[..]) && rt.Same()
    {
      if !rt.hw.cudaCompiled {
        return Err(Hardware.ErrNoCuda);
      }
      var caller := rt.active;
      var kind: MemoryKind;
      match Resolve(rt.hw, caller, memory) {
        case Err(e) => return Err(e);
        case Ok(k) => kind := k;
      }
      var simple := SimpleCase(rt, caller, kind);
      if simple.Err? {
        return Err(simple.msg);
      }
      if simple.value {
        return Ok(gm[caller].h);
      }
      res := Refresh(rt, pool, caller, kind, c);
    }

    /**
     * readGPU past its most simple case: a peer copy for own memory, else
     * `pl` made up to date and uploaded or mapped into the caller's GPU.
     */
    method Refresh(rt: Runtime, pool: MemoryPool, caller: nat, kind: MemoryKind, ghost c: Bytes) returns (res: Result<Header>)
      requires rt.Valid() && pool.Valid(rt) && Valid(rt) && Shows(rt.hw, rt.contents, c) && rt.hw.cudaCompiled
      requires caller == rt.active && kind != MemoryAuto
      modifies this, gm, rt, pool.devicePools, pool.pinnedPools
      ensures rt.Valid() && pool.Valid(rt)
      ensures Valid(rt)
      ensures Shows(rt.hw, rt.contents, c)
      ensures res.Err? ==> ReadError(res.msg)
      ensures res == Err(ErrUninitialized) <==> !old(AnyValid(rt.hw))
      ensures res.Ok? || res == Err(ErrUninitialized) ==> rt.active == caller
      ensures res.Ok? ==> gm[caller].upToDate && res.value == gm[caller].h && ContentIn(rt.contents, res.value) == c
      ensures res.Ok? && Hardware.UnifiedAddressingImpl(rt.hw, caller) ==>
                res.value.buffer in rt.location && InKind(rt.location[res.value.buffer], kind, caller)
    {
      if kind == MemoryOwn {
        var peer := FindPeer(rt, caller);
        if peer.Err? {
          return Err(peer.msg);
        }
        if peer.value.Some? {
          var copied := GpuFrom(rt, pool, caller, gm[peer.value.value].h, c);
          if copied.Err? {
            return Err(copied.msg);
          }
          return Ok(gm[caller].h);
        }
      }
      var made := MakePl(rt, pool, c);
      if made.Err? {
        return Err(made.msg);
      }
      res := GpuDeliver(rt, pool, caller, kind, c);
    }

    /**
     * The part of readGPU that makes `pl` up to date: it is recognised as the
     * buffer `cm` wraps, found mapped into a GPU, deep copied from a valid
     * `cm`, or downloaded from the last valid non-mapped GPU copy.
     */
    method MakePl(rt: Runtime, pool: MemoryPool, ghost c: Bytes) returns (res: Result<()>)
      requires rt.Valid() && pool.Valid(rt) && Valid(rt) && Shows(rt.hw, rt.contents, c) && rt.hw.cudaCompiled
      modifies this, rt, pool.devicePools, pool.pinnedPools
      ensures rt.Valid() && pool.Valid(rt)
      ensures Valid(rt)
      ensures Shows(rt.hw, rt.contents, c)
      ensures cm == old(cm)
      ensures res.Err? ==> ReadError(res.msg) && res.msg != ErrUninitialized && old(AnyValid(rt.hw))
      ensures res.Ok? ==> (pl.DeviceValid() <==> old(AnyValid(rt.hw)))
    {
      AdoptCm(rt, c);
      var r := ScanGpus(rt);
      pool.RuntimeKeepsValid(rt);
      if r.Failed? {
        return Err(r.msg);
      }
      res := Fetch(rt, pool, if r.Own? then Some(r.gpu) else None, c);
    }

    /** A stale `pl` that has the very view of a valid `cm` (which then wraps it) is marked up to date. */
    method AdoptCm(rt: Runtime, ghost c: Bytes)
      requires rt.Valid() && Valid(rt) && Shows(rt.hw, rt.contents, c)
      modifies this
      ensures Valid(rt) && Shows(rt.hw, rt.contents, c)
      ensures cm == old(cm) && AnyValid(rt.hw) == old(AnyValid(rt.hw))
      ensures pl == if !old(pl.DeviceValid()) && cm.CpuValid() && SameView(pl.h, cm.h) then old(pl).(upToDate := true) else old(pl)
    {
      if !pl.DeviceValid() && cm.CpuValid() && SameView(pl.h, cm.h) {
        pl := pl.(upToDate := true);
      }
    }

    /** The copies that make `pl` up to date after the scan: from a valid `cm`, else from the GPU copy `own`. */
    method Fetch(rt: Runtime, pool: MemoryPool, own: Option<nat>, ghost c: Bytes) returns (res: Result<()>)
      requires rt.Valid() && pool.Valid(rt) && Valid(rt) && Shows(rt.hw, rt.contents, c) && rt.hw.cudaCompiled
      requires own.Some? ==> own.value < Hardware.Gpus(rt.hw) && gm[own.value].DeviceValid()
      requires AnyValid(rt.hw) ==> pl.DeviceValid() || cm.CpuValid() || own.Some?
      modifies this, rt, pool.devicePools, pool.pinnedPools
      ensures rt.Valid() && pool.Valid(rt)
      ensures Valid(rt)
      ensures Shows(rt.hw, rt.contents, c)
      ensures cm == old(cm)
      ensures res.Err? ==> PoolError(res.msg) && old(AnyValid(rt.hw))
      ensures res.Ok? ==> (pl.DeviceValid() <==> old(AnyValid(rt.hw)))
    {
      if !pl.DeviceValid() && cm.CpuValid() {
        var copied := PlFrom(rt, pool, cm.h, c);
        if copied.Err? {
          return Err(copied.msg);
        }
      }
      if !pl.DeviceValid() && own.Some? {
        var downloaded := Download(rt, pool, own.value, c);
        if downloaded.Err? {
          return Err(downloaded.msg);
        }
      }
      res := Ok(());
    }

    /** The end of readGPU: the caller's GPU is activated again and a valid `pl` is uploaded or mapped into it. */
    method GpuDeliver(rt: Runtime, pool: MemoryPool, caller: nat, kind: MemoryKind, ghost c: Bytes) returns (res: Result<Header>)
      requires rt.Valid() && pool.Valid(rt) && Valid(rt) && Shows(rt.hw, rt.contents, c)
      requires caller < Hardware.GpusMax && kind != MemoryAuto && rt.hw.cudaCompiled
      modifies gm, rt, pool.devicePools, pool.pinnedPools
      ensures rt.Valid() && pool.Valid(rt)
      ensures Valid(rt)
      ensures Shows(rt.hw, rt.contents, c)
      ensures res.Ok? || res == Err(ErrUninitialized) ==> rt.active == caller
      ensures res == Err(ErrUninitialized) <==> !pl.DeviceValid()
      ensures res.Err? ==> ReadError(res.msg)
      ensures res.Ok? ==> gm[caller].upToDate && res.value == gm[caller].h && ContentIn(rt.contents, res.value) == c
      ensures res.Ok? ==> res.value.buffer in rt.location && InKind(rt.location[res.value.buffer], kind, caller)
    {
      rt.SetDevice(caller);
      pool.RuntimeKeepsValid(rt);
      if !pl.DeviceValid() {
        return Err(ErrUninitialized);
      }
      if kind == MemoryOwn {
        var uploaded := GpuFrom(rt, pool, caller, pl.h, c);
        if uploaded.Err? {
          return Err(uploaded.msg);
        }
      } else {
        var mapped := WrapGpu(rt, caller, c);
        pool.RuntimeKeepsValid(rt);
        if mapped.Err? {
          return Err(mapped.msg);
        }
      }
      res := Ok(gm[caller].h);
    }

    // -------------------------------------------------------------------------
    // Assignment

    /**
     * `operator =(const AutoMat&)` (and the copy constructor): every copy's
     * header and flag is copied with reference counting, `pl` and the GPU
     * copies below GPUs only with CUDA. The matrix then shows what `that` shows.
     */
    method Assign(rt: Runtime, pool: MemoryPool, that: AutoMat, ghost c: Bytes)
      requires rt.Valid() && pool.Valid(rt) && Valid(rt) && that.Valid(rt) && that.Shows(rt.hw, rt.contents, c)
      modifies this, gm, rt
      ensures rt.Valid() && pool.Valid(rt)
      ensures Valid(rt)
      ensures rt.active == old(rt.active) && rt.location == old(rt.location) && rt.bytes == old(rt.bytes)
      ensures rt.contents == old(rt.contents) && rt.refcount.Keys == old(rt.refcount.Keys)
      ensures cm == old(that.cm)
      ensures pl == (if rt.hw.cudaCompiled then old(that.pl) else old(pl))
      ensures forall g :: 0 <= g < Hardware.GpusMax ==> gm[g] == (if g < Hardware.Gpus(rt.hw) then old(that.gm[g]) else old(gm[g]))
      ensures Shows(rt.hw, rt.contents, c)
      ensures AnyValid(rt.hw) == old(that.AnyValid(rt.hw))
    {
      CopyFrom(rt, that);
      pool.RuntimeKeepsValid(rt);
      Mirrors(rt.hw, rt.contents, that, c);
    }

    /** The copying of the assignment, with `that` left as it was (also when it is this matrix). */
    method CopyFrom(rt: Runtime, that: AutoMat)
      requires rt.Valid() && Valid(rt) && that.Valid(rt)
      modifies this, gm, rt
      ensures rt.Valid() && Valid(rt)
      ensures rt.active == old(rt.active) && rt.location == old(rt.location) && rt.bytes == old(rt.bytes)
      ensures rt.contents == old(rt.contents) && rt.refcount.Keys == old(rt.refcount.Keys)
      ensures cm == old(that.cm) && that.cm == old(that.cm)
      ensures pl == (if rt.hw.cudaCompiled then old(that.pl) else old(pl)) && that.pl == old(that.pl)
      ensures forall g :: 0 <= g < Hardware.GpusMax ==> gm[g] == (if g < Hardware.Gpus(rt.hw) then old(that.gm[g]) else old(gm[g]))
      ensures that.gm[..] == old(that.gm[..])
    {
      var n := rt.Assign(cm.h, that.cm.h);
      cm := MatValid(n, that.cm.upToDate);
      if rt.hw.cudaCompiled {
        n := rt.Assign(pl.h, that.pl.h);
        pl := MatValid(n, that.pl.upToDate);
        CopyGpus(rt, that);
      }
    }

    /** The device half of assignment: `gm[g] = that.gm[g]` for every GPU below GPUs. */
    method CopyGpus(rt: Runtime, that: AutoMat)
      requires rt.Valid() && Shaped() && that.Shaped()
      modifies gm, rt
      ensures rt.Valid() && rt.Recounted()
      ensures forall g :: 0 <= g < Hardware.GpusMax ==> gm[g] == (if g < Hardware.Gpus(rt.hw) then old(that.gm[g]) else old(gm[g]))
      ensures that.gm[..] == old(that.gm[..])
    {
      ghost var source := that.gm[..];
      ghost var before := gm[..];
      var g := 0;
      while g < Hardware.Gpus(rt.hw)
        invariant 0 <= g <= Hardware.Gpus(rt.hw)
        invariant rt.Valid() && rt.Recounted()
        invariant forall j :: 0 <= j < Hardware.GpusMax ==> gm[j] == (if j < g then source[j] else before[j])
        invariant forall j :: g <= j < Hardware.GpusMax ==> that.gm[j] == source[j]
      {
        var n := rt.Assign(gm[g].h, that.gm[g].h);
        gm[g] := MatValid(n, that.gm[g].upToDate);
        g := g + 1;
      }
    }

    /** Two matrices with the same copies (below GPUs, `pl` only with CUDA) show the same and are valid alike. */
    lemma Mirrors(hw: Hardware.Platform, m: map<BufferId, Bytes>, that: AutoMat, c: Bytes)
      requires Shaped() && that.Shaped()
      requires cm == that.cm && (hw.cudaCompiled ==> pl == that.pl)
      requires forall g :: 0 <= g < Hardware.Gpus(hw) ==> gm[g] == that.gm[g]
      ensures that.Shows(hw, m, c) ==> Shows(hw, m, c)
      ensures AnyValid(hw) == that.AnyValid(hw)
    {
    }

    // -------------------------------------------------------------------------
    // Regions of interest

    /**
     * `operator ()( rowRange, colRange )`: a new matrix holding the ROI of
     * every copy with the size and type of the selected one, each with its
     * own flag and one more reference to its buffer; `pl` and the GPU copies
     * only with CUDA. Fails, as `type()` does, when no copy is valid.
     */
    method Roi(rt: Runtime, rr: Range, cr: Range, ghost c: Bytes) returns (res: Result<AutoMat>)
      requires rt.Valid() && Valid(rt) && Shows(rt.hw, rt.contents, c)
      requires AnyValid(rt.hw) ==> Within(rr, Rows(rt.hw)) && Within(cr, Cols(rt.hw))
      modifies rt
      ensures rt.Valid() && rt.active == old(rt.active) && rt.location == old(rt.location) && rt.bytes == old(rt.bytes)
      ensures rt.contents == old(rt.contents) && rt.refcount.Keys == old(rt.refcount.Keys)
      ensures res.Err? <==> !AnyValid(rt.hw)
      ensures res.Err? ==> res.msg == ErrUninitialized && rt.Same()
      ensures res.Ok? ==>
                var r, size, t := res.value, GetSize(rt.hw), Type(rt.hw).value;
                && fresh(r) && fresh(r.gm) && r.Valid(rt) && r.Shows(rt.hw, rt.contents, c)
                && r.cm == RoiOf(cm, size, t, rr, cr)
                && r.pl == (if rt.hw.cudaCompiled then PlRoiOf(pl, size, t, rr, cr) else Unset)
                && forall g :: 0 <= g < Hardware.GpusMax ==>
                     r.gm[g] == (if g < Hardware.Gpus(rt.hw) then RoiOf(gm[g], size, t, rr, cr) else Unset)
    {
      var typ := Type(rt.hw);
      if typ.Err? {
        return Err(typ.msg);
      }
      var size, t := GetSize(rt.hw), typ.value;
      assert size.height == Rows(rt.hw) && size.width == Cols(rt.hw);
      var r := RoiAt(rt, cm, pl, gm[..], size, t, rr, cr, c);
      res := Ok(r);
    }

    // -------------------------------------------------------------------------
    // Writing

    /**
     * writeCPU(rows, cols, type): every copy is marked stale and `cm` up to
     * date. A non-zero size gets page-locked pool memory into `pl`'s handle
     * (which stays stale) and `cm` wraps it; without CUDA `cm` is created in
     * pageable memory instead. Whatever is written into `cm` afterwards is
     * the only valid version.
     */
    method WriteCpu(rt: Runtime, pool: MemoryPool, rows: int, cols: int, typ: MatType) returns (res: Result<Header>)
      requires rt.Valid() && pool.Valid(rt) && Valid(rt) && Fits(rt.hw, rows, cols, typ)
      modifies this, gm, rt, pool.devicePools, pool.pinnedPools
      ensures rt.Valid() && pool.Valid(rt)
      ensures Valid(rt)
      ensures rt.active == old(rt.active)
      ensures cm.upToDate && (rt.hw.cudaCompiled ==> !pl.upToDate)
      ensures forall g :: 0 <= g < Hardware.Gpus(rt.hw) ==> !gm[g].upToDate
      ensures Shows(rt.hw, rt.contents, ContentIn(rt.contents, cm.h))
      ensures res.Ok? ==> res.value == cm.h
      ensures res.Err? ==> PoolError(res.msg) || res.msg == ErrNegativeSize
      ensures rows == 0 || cols == 0 ==> res == Ok(old(cm.h))
      ensures rows != 0 && cols != 0 && (rows < 0 || cols < 0) && rt.hw.cudaCompiled ==> res.Err?
      ensures res.Ok? && rows != 0 && cols != 0 ==> cm.h.rows == rows && cm.h.cols == cols && cm.h.typ == typ
      ensures res.Ok? && rows > 0 && cols > 0 ==> GetSize(rt.hw) == Size(cols, rows) && Type(rt.hw) == Ok(typ)
      ensures res.Ok? && rows != 0 && cols != 0 && rt.hw.cudaCompiled ==>
                cm.h == HeaderOver(pl.h) && cm.h.buffer in rt.location && rt.location[cm.h.buffer] == Pinned(true, true)
      ensures Extends(rt.contents, old(rt.contents))
    {
      Invalidate(rt.hw);
      cm := cm.(upToDate := true);
      if rows != 0 && cols != 0 {
        res := AllocateCpu(rt, pool, rows, cols, typ);
      } else {
        res := Ok(cm.h);
      }
    }

    /** The allocation of writeCPU for a non-zero size, with only `cm` up to date. */
    method AllocateCpu(rt: Runtime, pool: MemoryPool, rows: int, cols: int, typ: MatType) returns (res: Result<Header>)
      requires rt.Valid() && pool.Valid(rt) && Valid(rt) && Fits(rt.hw, rows, cols, typ)
      requires cm.upToDate && (rt.hw.cudaCompiled ==> !pl.upToDate)
      requires forall g :: 0 <= g < Hardware.Gpus(rt.hw) ==> !gm[g].upToDate
      modifies this, rt, pool.devicePools, pool.pinnedPools
      ensures rt.Valid() && pool.Valid(rt)
      ensures Valid(rt)
      ensures rt.active == old(rt.active)
      ensures cm.upToDate && (rt.hw.cudaCompiled ==> !pl.upToDate)
      ensures res.Ok? ==> res.value == cm.h
      ensures res.Err? ==> PoolError(res.msg) || res.msg == ErrNegativeSize
      ensures (rows < 0 || cols < 0) && rt.hw.cudaCompiled ==> res.Err?
      ensures res.Ok? ==> cm.h.rows == rows && cm.h.cols == cols && cm.h.typ == typ && cm.h.HasData()
      ensures res.Ok? && rt.hw.cudaCompiled ==>
                cm.h == HeaderOver(pl.h) && cm.h.buffer in rt.location && rt.location[cm.h.buffer] == Pinned(true, true)
      ensures Extends(rt.contents, old(rt.contents))
    {
      if rt.hw.cudaCompiled {
        res := PinCpu(rt, pool, rows, cols, typ);
        return;
      } else {
        var r := CreateCpu(rt, pool, rows, cols, typ);
        if r.Err? {
          return Err(r.msg);
        }
        cm := cm.(h := r.value);
      }
      res := Ok(cm.h);
    }

    /** Page-locked pool memory of the given size and type into the handle of a stale `pl` (writeCPU, writeGPU). */
    method PinPl(rt: Runtime, pool: MemoryPool, rows: int, cols: int, typ: MatType, ghost c: Bytes) returns (res: Result<()>)
      requires rt.Valid() && pool.Valid(rt) && Valid(rt) && Shows(rt.hw, rt.contents, c) && Fits(rt.hw, rows, cols, typ)
      requires !pl.upToDate
      modifies this, rt, pool.devicePools, pool.pinnedPools
      ensures rt.Valid() && pool.Valid(rt)
      ensures Valid(rt) && Shows(rt.hw, rt.contents, c)
      ensures rt.active == old(rt.active) && cm == old(cm) && !pl.upToDate
      ensures res.Err? ==> PoolError(res.msg)
      ensures rows < 1 || cols < 1 ==> res.Err?
      ensures res.Ok? ==> pl.h.rows == rows && pl.h.cols == cols && pl.h.typ == typ
      ensures res.Ok? ==> pl.h.HasData() && pl.h.buffer in rt.location && rt.location[pl.h.buffer] == Pinned(true, true)
      ensures Extends(rt.contents, old(rt.contents))
    {
      var r := AcquirePl(rt, pool, rows, cols, typ, c);
      if r.Err? {
        return Err(r.msg);
      }
      pl := pl.(h := r.value);
      res := Ok(());
    }

    /** writeCPU's page-locked pool memory in `pl`'s handle, wrapped by `cm`. */
    method PinCpu(rt: Runtime, pool: MemoryPool, rows: int, cols: int, typ: MatType) returns (res: Result<Header>)
      requires rt.Valid() && pool.Valid(rt) && Valid(rt) && Fits(rt.hw, rows, cols, typ)
      requires cm.upToDate && !pl.upToDate && rt.hw.cudaCompiled
      requires forall g :: 0 <= g < Hardware.Gpus(rt.hw) ==> !gm[g].upToDate
      modifies this, rt, pool.devicePools, pool.pinnedPools
      ensures rt.Valid() && pool.Valid(rt)
      ensures Valid(rt)
      ensures rt.active == old(rt.active)
      ensures cm.upToDate && !pl.upToDate
      ensures res.Ok? ==> res.value == cm.h
      ensures res.Err? ==> PoolError(res.msg)
      ensures rows < 1 || cols < 1 ==> res.Err?
      ensures res.Ok? ==> cm.h.rows == rows && cm.h.cols == cols && cm.h.typ == typ
      ensures res.Ok? ==>
                cm.h == HeaderOver(pl.h) && cm.h.buffer in rt.location && rt.location[cm.h.buffer] == Pinned(true, true)
      ensures Extends(rt.contents, old(rt.contents))
    {
      var r := PinPl(rt, pool, rows, cols, typ, ContentIn(rt.contents, cm.h));
      if r.Err? {
        return Err(r.msg);
      }
      label Acquired:
      WrapCpu(rt);
      pool.RuntimeKeepsValid@Acquired(rt);
      res := Ok(cm.h);
    }

    /**
     * The test of writeGPU on the active GPU `g` for a resolved kind: with
     * unified addressing, a `gm[g]` with data of the requested size and type
     * whose pointer is accessible own memory of `g` or mapped host memory is
     * reused as it is.
     */
    predicate Reusable(rt: Runtime, g: nat, rows: int, cols: int, typ: MatType, kind: MemoryKind)
      reads this, gm, rt
      requires rt.Valid() && Shaped() && g < Hardware.GpusMax
    {
      && Hardware.GpuUnifiedAddressing(rt.hw, rt.active, g) == Ok(true)
      && gm[g].h.HasData() && gm[g].h.rows == rows && gm[g].h.cols == cols && gm[g].h.typ == typ
      && rt.Attributes(gm[g].h).Ok?
      && var a := rt.Attributes(gm[g].h).value;
         && a.devicePointer
         && ((kind == MemoryOwn && a.memoryType == DeviceMemory && a.device == g)
             || (kind == MemoryMapped && a.memoryType == HostMemory))
    }

    /**
     * writeGPU(rows, cols, type, memory) on the active GPU: every copy but
     * `gm[active]` is marked stale and it is marked up to date; `memoryAuto`
     * is resolved by the GPU's preference; a reusable `gm[active]` is kept,
     * otherwise a non-zero size gets own memory from the GPU's pool, or
     * page-locked pool memory in `pl`'s handle (which stays stale) mapped
     * into the GPU. Whatever is written into `gm[active]` afterwards is the
     * only valid version.
     */
    method WriteGpu(rt: Runtime, pool: MemoryPool, rows: int, cols: int, typ: MatType, memory: MemoryKind)
      returns (res: Result<Header>)
      requires rt.Valid() && pool.Valid(rt) && Valid(rt) && Fits(rt.hw, rows, cols, typ)
      modifies this, gm, rt, pool.devicePools, pool.pinnedPools
      ensures rt.Valid() && pool.Valid(rt)
      ensures Valid(rt)
      ensures rt.active == old(rt.active)
      ensures !rt.hw.cudaCompiled ==> res == Err(Hardware.ErrNoCuda) && cm == old(cm) && pl == old(pl) && gm[..] == old(gm[..])
      ensures res.Err? ==> PoolError(res.msg)
      ensures rt.hw.cudaCompiled ==>
                OnlyGpu(rt.hw, rt.active) && Shows(rt.hw, rt.contents, ContentIn(rt.contents, gm[rt.active].h))
      ensures res.Ok? ==> res.value == gm[rt.active].h && Resolve(rt.hw, rt.active, memory).Ok?
      ensures res.Ok? && (rows == 0 || cols == 0) ==> res.value == old(gm[rt.active].h)
      ensures res.Ok? && rows != 0 && cols != 0 ==>
                && res.value.rows == rows && res.value.cols == cols && res.value.typ == typ
                && res.value.buffer in rt.location
                && InKind(rt.location[res.value.buffer], Resolve(rt.hw, rt.active, memory).value, rt.active)
      ensures rt.hw.cudaCompiled && old(Resolve(rt.hw, rt.active, memory)).Ok? &&
              old(Reusable(rt, rt.active, rows, cols, typ, Resolve(rt.hw, rt.active, memory).value)) ==>
                res == Ok(old(gm[rt.active].h)) && rt.Same()
      ensures Extends(rt.contents, old(rt.contents))
    {
      if !rt.hw.cudaCompiled {
        return Err(Hardware.ErrNoCuda);
      }
      var gpu := rt.active;
      Invalidate(rt.hw);
      gm[gpu] := gm[gpu].(upToDate := true);
      OnlyGpuShows(rt.hw, rt.contents, gpu);
      var kind: MemoryKind;
      match Resolve(rt.hw, gpu, memory) {
        case Err(e) => return Err(e);
        case Ok(k) => kind := k;
      }
      res := WriteKind(rt, pool, gpu, rows, cols, typ, kind);
    }

    /** writeGPU past the resolution of the memory kind, with only `gm[g]` up to date. */
    method WriteKind(rt: Runtime, pool: MemoryPool, g: nat, rows: int, cols: int, typ: MatType, kind: MemoryKind)
      returns (res: Result<Header>)
      requires rt.Valid() && pool.Valid(rt) && Valid(rt) && Fits(rt.hw, rows, cols, typ)
      requires g == rt.active && OnlyGpu(rt.hw, g) && kind != MemoryAuto && rt.hw.cudaCompiled
      modifies this, gm, rt, pool.devicePools, pool.pinnedPools
      ensures rt.Valid() && pool.Valid(rt)
      ensures Valid(rt)
      ensures rt.active == old(rt.active) && OnlyGpu(rt.hw, g)
      ensures Shows(rt.hw, rt.contents, ContentIn(rt.contents, gm[g].h))
      ensures res.Err? ==> PoolError(res.msg)
      ensures res.Ok? ==> res.value == gm[g].h
      ensures res.Ok? && (rows == 0 || cols == 0) ==> res.value == old(gm[g].h)
      ensures res.Ok? && rows != 0 && cols != 0 ==>
                && res.value.rows == rows && res.value.cols == cols && res.value.typ == typ
                && res.value.buffer in rt.location && InKind(rt.location[res.value.buffer], kind, g)
      ensures old(Reusable(rt, g, rows, cols, typ, kind)) ==> res == Ok(old(gm[g].h)) && rt.Same()
      ensures Extends(rt.contents, old(rt.contents))
    {
      var ua := Hardware.GpuUnifiedAddressing(rt.hw, g, g);
      if ua.Err? {
        OnlyGpuShows(rt.hw, rt.contents, g);
        return Err(ua.msg);
      }
      if ua.value && gm[g].h.HasData() && gm[g].h.rows == rows && gm[g].h.cols == cols && gm[g].h.typ == typ {
        var attr := rt.Attributes(gm[g].h);
        if attr.Err? {
          OnlyGpuShows(rt.hw, rt.contents, g);
          return Err(attr.msg);
        }
        if && attr.value.devicePointer
           && ((kind == MemoryOwn && attr.value.memoryType == DeviceMemory && attr.value.device == g)
               || (kind == MemoryMapped && attr.value.memoryType == HostMemory)) {
          OnlyGpuShows(rt.hw, rt.contents, g);
          return Ok(gm[g].h);
        }
      }
      if rows != 0 && cols != 0 {
        if kind == MemoryOwn {
          res := WriteOwn(rt, pool, g, rows, cols, typ);
        } else {
          res := WriteMapped(rt, pool, g, rows, cols, typ);
        }
      } else {
        res := Ok(gm[g].h);
      }
      OnlyGpuShows(rt.hw, rt.contents, g);
    }

    /** writeGPU(size, type, memory): the height is the row count and the width the column count. */
    method WriteGpuSize(rt: Runtime, pool: MemoryPool, size: Size, typ: MatType, memory: MemoryKind) returns (res: Result<Header>)
      requires rt.Valid() && pool.Valid(rt) && Valid(rt) && Fits(rt.hw, size.height, size.width, typ)
      modifies this, gm, rt, pool.devicePools, pool.pinnedPools
      ensures rt.Valid() && pool.Valid(rt)
      ensures Valid(rt)
      ensures res.Ok? && size.height != 0 && size.width != 0 ==>
                res.value.rows == size.height && res.value.cols == size.width && res.value.typ == typ
    {
      res := WriteGpu(rt, pool, size.height, size.width, typ, memory);
    }

    /**
     * writeGPU(): writeGPU on the active GPU with `gm[active]`'s own size and
     * type and the GPU's preferred memory kind; a written copy keeps its size
     * and type.
     */
    method WriteGpuAsIs(rt: Runtime, pool: MemoryPool) returns (res: Result<Header>)
      requires rt.Valid() && pool.Valid(rt) && Valid(rt)
      modifies this, gm, rt, pool.devicePools, pool.pinnedPools
      ensures rt.Valid() && pool.Valid(rt)
      ensures Valid(rt)
      ensures rt.active == old(rt.active) && Extends(rt.contents, old(rt.contents))
      ensures !rt.hw.cudaCompiled ==> res == Err(Hardware.ErrNoCuda)
      ensures res.Err? ==> PoolError(res.msg)
      ensures rt.hw.cudaCompiled ==> OnlyGpu(rt.hw, rt.active)
      ensures res.Ok? ==>
                && res.value == gm[rt.active].h && res.value.rows == old(gm[rt.active].h.rows)
                && res.value.cols == old(gm[rt.active].h.cols) && res.value.typ == old(gm[rt.active].h.typ)
    {
      if !rt.hw.cudaCompiled {
        return Err(Hardware.ErrNoCuda);
      }
      var g := rt.active;
      res := WriteGpu(rt, pool, gm[g].h.rows, gm[g].h.cols, gm[g].h.typ, MemoryAuto);
    }

    /**
     * `operator =(const cv::gpu::GpuMat&)` (and the constructor from a
     * `GpuMat`): writeGPU(), then `gm[active]` references `h` and is the only
     * up-to-date copy, so the matrix shows `h`'s contents.
     */
    method AssignGpuMat(rt: Runtime, pool: MemoryPool, h: Header) returns (res: Result<()>)
      requires rt.Valid() && pool.Valid(rt) && Valid(rt) && Known(rt.contents, h) && HeaderFits(rt.hw, h)
      modifies this, gm, rt, pool.devicePools, pool.pinnedPools
      ensures rt.Valid() && pool.Valid(rt)
      ensures Valid(rt)
      ensures !rt.hw.cudaCompiled ==> res == Err(Hardware.ErrNoCuda)
      ensures res.Err? ==> PoolError(res.msg)
      ensures res.Ok? ==> gm[rt.active] == Wrapping(h) && OnlyGpu(rt.hw, rt.active)
      ensures res.Ok? ==> Shows(rt.hw, rt.contents, ContentIn(rt.contents, h))
    {
      var w := WriteGpuAsIs(rt, pool);
      if w.Err? {
        return Err(w.msg);
      }
      var g := rt.active;
      label Written:
      var n := rt.Assign(gm[g].h, h);
      gm[g] := Wrapping(n);
      pool.RuntimeKeepsValid@Written(rt);
      OnlyGpuShows(rt.hw, rt.contents, g);
      res := Ok(());
    }

    /** The only up-to-date copy is `gm[g]`, so whatever it holds is what every valid copy sees. */
    ghost predicate OnlyGpu(hw: Hardware.Platform, g: nat)
      reads this, gm
      requires Shaped()
    {
      !cm.upToDate && !pl.upToDate && g < Hardware.GpusMax && gm[g].upToDate
      && forall j :: 0 <= j < Hardware.Gpus(hw) && j != g ==> !gm[j].upToDate
    }

    /** With `gm[g]` the only up-to-date copy, every valid copy sees what `gm[g]` holds. */
    lemma OnlyGpuShows(hw: Hardware.Platform, m: map<BufferId, Bytes>, g: nat)
      requires Shaped() && OnlyGpu(hw, g)
      ensures Shows(hw, m, ContentIn(m, gm[g].h))
    {
    }

    /** With `gm[g]` the only up-to-date copy and valid, the getters read it. */
    lemma OnlyGpuSelected(hw: Hardware.Platform, g: nat)
      requires Shaped() && OnlyGpu(hw, g) && hw.cudaCompiled && g < Hardware.Gpus(hw) && gm[g].DeviceValid()
      ensures Selected(hw) == Some(gm[g].h)
    {
      FirstGpuReaches(hw, 0, g);
    }

    /** The first valid GPU copy from `k` on is `gm[g]` when none between is valid. */
    lemma {:induction false} FirstGpuReaches(hw: Hardware.Platform, k: nat, g: nat)
      requires Shaped() && k <= g < Hardware.Gpus(hw) && gm[g].DeviceValid()
      requires forall j :: k <= j < g ==> !gm[j].DeviceValid()
      ensures FirstGpu(hw, k) == Some(gm[g].h)
      decreases g - k
    {
      if k < g {
        FirstGpuReaches(hw, k + 1, g);
      }
    }

    /** writeGPU's own memory from the active GPU `g`'s pool for `gm[g]`. */
    method WriteOwn(rt: Runtime, pool: MemoryPool, g: nat, rows: int, cols: int, typ: MatType) returns (res: Result<Header>)
      requires rt.Valid() && pool.Valid(rt) && Valid(rt) && Fits(rt.hw, rows, cols, typ)
      requires g == rt.active && OnlyGpu(rt.hw, g)
      modifies gm, rt, pool.devicePools, pool.pinnedPools
      ensures rt.Valid() && pool.Valid(rt)
      ensures Valid(rt)
      ensures rt.active == old(rt.active) && OnlyGpu(rt.hw, g)
      ensures res.Err? ==> PoolError(res.msg)
      ensures res.Ok? ==> res.value == gm[g].h && res.value.rows == rows && res.value.cols == cols && res.value.typ == typ
      ensures res.Ok? ==> res.value.buffer in rt.location && rt.location[res.value.buffer] == Device(g)
      ensures Extends(rt.contents, old(rt.contents))
    {
      var r := AcquireOwn(rt, pool, gm[g].h, rows, cols, typ, ContentIn(rt.contents, gm[g].h));
      if r.Err? {
        return Err(r.msg);
      }
      gm[g] := gm[g].(h := r.value);
      res := Ok(gm[g].h);
    }

    /** writeGPU's page-locked pool memory in `pl`'s handle, mapped into the active GPU `g` as `gm[g]`. */
    method WriteMapped(rt: Runtime, pool: MemoryPool, g: nat, rows: int, cols: int, typ: MatType) returns (res: Result<Header>)
      requires rt.Valid() && pool.Valid(rt) && Valid(rt) && Fits(rt.hw, rows, cols, typ)
      requires g == rt.active && OnlyGpu(rt.hw, g)
      modifies this, gm, rt, pool.devicePools, pool.pinnedPools
      ensures rt.Valid() && pool.Valid(rt)
      ensures Valid(rt)
      ensures rt.active == old(rt.active) && OnlyGpu(rt.hw, g)
      ensures res.Err? ==> PoolError(res.msg)
      ensures res.Ok? ==> res.value == gm[g].h && res.value.rows == rows && res.value.cols == cols && res.value.typ == typ
      ensures res.Ok? ==> res.value.buffer in rt.location && rt.location[res.value.buffer] == Pinned(true, true)
      ensures Extends(rt.contents, old(rt.contents))
    {
      var r := PinPl(rt, pool, rows, cols, typ, ContentIn(rt.contents, gm[g].h));
      if r.Err? {
        return Err(r.msg);
      }
      label Acquired:
      var mapped := MapInto(rt, g);
      pool.RuntimeKeepsValid@Acquired(rt);
      res := Ok(gm[g].h);
    }

    /** writeCPU(size, type): the height is the row count and the width the column count. */
    method WriteCpuSize(rt: Runtime, pool: MemoryPool, size: Size, typ: MatType) returns (res: Result<Header>)
      requires rt.Valid() && pool.Valid(rt) && Valid(rt) && Fits(rt.hw, size.height, size.width, typ)
      modifies this, gm, rt, pool.devicePools, pool.pinnedPools
      ensures rt.Valid() && pool.Valid(rt)
      ensures Valid(rt)
      ensures Shows(rt.hw, rt.contents, ContentIn(rt.contents, cm.h))
      ensures res.Ok? && size.height > 0 && size.width > 0 ==> GetSize(rt.hw) == size && Type(rt.hw) == Ok(typ)
    {
      res := WriteCpu(rt, pool, size.height, size.width, typ);
    }

    /**
     * writeCPU(): writeCPU with `cm`'s own size and type, so that the writer
     * allocates; a written `cm` keeps its size and type.
     */
    method WriteCpuAsIs(rt: Runtime, pool: MemoryPool) returns (res: Result<Header>)
      requires rt.Valid() && pool.Valid(rt) && Valid(rt)
      modifies this, gm, rt, pool.devicePools, pool.pinnedPools
      ensures rt.Valid() && pool.Valid(rt)
      ensures Valid(rt)
      ensures rt.active == old(rt.active) && Extends(rt.contents, old(rt.contents))
      ensures cm.upToDate && (rt.hw.cudaCompiled ==> !pl.upToDate)
      ensures forall g :: 0 <= g < Hardware.Gpus(rt.hw) ==> !gm[g].upToDate
      ensures res.Err? ==> PoolError(res.msg) || res.msg == ErrNegativeSize
      ensures res.Ok? ==> res.value == cm.h && cm.h.rows == old(cm.h.rows) && cm.h.cols == old(cm.h.cols) && cm.h.typ == old(cm.h.typ)
    {
      res := WriteCpu(rt, pool, cm.h.rows, cm.h.cols, cm.h.typ);
    }

    /**
     * `operator =(const cv::Mat&)` (and the constructor from a `cv::Mat`):
     * writeCPU(), then `cm` references `h` and is up to date; every other
     * copy is stale, so the matrix shows `h`'s contents.
     */
    method AssignMat(rt: Runtime, pool: MemoryPool, h: Header) returns (res: Result<()>)
      requires rt.Valid() && pool.Valid(rt) && Valid(rt) && Known(rt.contents, h) && HeaderFits(rt.hw, h)
      modifies this, gm, rt, pool.devicePools, pool.pinnedPools
      ensures rt.Valid() && pool.Valid(rt)
      ensures Valid(rt)
      ensures res.Err? ==> PoolError(res.msg) || res.msg == ErrNegativeSize
      ensures res.Ok? ==> cm == Wrapping(h) && (rt.hw.cudaCompiled ==> !pl.upToDate)
      ensures res.Ok? ==> forall g :: 0 <= g < Hardware.Gpus(rt.hw) ==> !gm[g].upToDate
      ensures res.Ok? ==> Shows(rt.hw, rt.contents, ContentIn(rt.contents, h))
      ensures res.Ok? ==> (AnyValid(rt.hw) <==> !h.MatEmpty())
      ensures res.Ok? && !h.MatEmpty() ==> GetSize(rt.hw) == Size(h.cols, h.rows) && Type(rt.hw) == Ok(h.typ)
    {
      var w := WriteCpuAsIs(rt, pool);
      if w.Err? {
        return Err(w.msg);
      }
      label Written:
      var n := rt.Assign(cm.h, h);
      cm := Wrapping(n);
      pool.RuntimeKeepsValid@Written(rt);
      res := Ok(());
    }

    /**
     * `cm.create(rows, cols, type)` of the build without CUDA: a header of that
     * size and type with data is kept; otherwise its buffer is released and
     * a new continuous pageable buffer is allocated. A negative size fails.
     */
    method CreateCpu(rt: Runtime, pool: MemoryPool, rows: int, cols: int, typ: MatType) returns (res: Result<Header>)
      requires rt.Valid() && pool.Valid(rt) && Valid(rt)
      modifies rt
      ensures rt.Valid() && pool.Valid(rt)
      ensures Valid(rt)
      ensures rt.active == old(rt.active) && Extends(rt.contents, old(rt.contents))
      ensures res.Err? <==> (rows < 0 || cols < 0) && !old(cm.h.HasData() && cm.h.rows == rows && cm.h.cols == cols && cm.h.typ == typ)
      ensures res.Err? ==> res.msg == ErrNegativeSize
      ensures res.Ok? ==> res.value.rows == rows && res.value.cols == cols && res.value.typ == typ && res.value.buffer in rt.contents
      ensures res.Ok? && old(cm.h.HasData() && cm.h.rows == rows && cm.h.cols == cols && cm.h.typ == typ) ==>
                res.value == old(cm.h) && rt.Same()
      ensures res.Ok? && !old(cm.h.HasData() && cm.h.rows == rows && cm.h.cols == cols && cm.h.typ == typ) ==>
                && res.value.buffer !in old(rt.location) && rt.location[res.value.buffer] == Pageable
                && res.value.step == cols * ElemSize(typ) && res.value.continuous
    {
      if cm.h.HasData() && cm.h.rows == rows && cm.h.cols == cols && cm.h.typ == typ {
        return Ok(cm.h);
      }
      if rows < 0 || cols < 0 {
        return Err(ErrNegativeSize);
      }
      var r := rt.Allocate(cm.h, Pageable, rows * cols * ElemSize(typ));
      pool.ShrunkKeepsValid(rt);
      Invariant(rt.hw, old(rt.contents), rt.contents);
      res := Ok(Header(r.buffer, 0, rows, cols, typ, cols * ElemSize(typ), true, false));
    }
  }

  /** One copy's part of the ROI, with one more reference to the buffer the new header keeps. */
  method TakeRoi(rt: Runtime, v: MatValid, size: Size, t: MatType, rr: Range, cr: Range) returns (w: MatValid)
    requires rt.Valid() && Known(rt.contents, v.h) && HeaderFits(rt.hw, v.h)
    requires Matches(v.h, size, t) ==> Within(rr, v.h.rows) && Within(cr, v.h.cols)
    modifies rt
    ensures rt.Valid() && rt.Recounted()
    ensures w == RoiOf(v, size, t, rr, cr)
    ensures Known(rt.contents, w.h) && HeaderFits(rt.hw, w.h)
    ensures w.h.HasData() ==> w.h.buffer == v.h.buffer
    ensures w.CpuValid() ==> v.CpuValid()
    ensures w.DeviceValid() ==> v.DeviceValid()
  {
    w := Unset;
    if Matches(v.h, size, t) {
      RoiFits(rt.hw, v.h, rr, cr);
      var s := SubMat(v.h, rr, cr);
      rt.Retain(s.buffer);
      w := MatValid(s, v.upToDate);
    }
  }

  /** The page-locked copy's part of the ROI, with one more reference to its buffer. */
  method TakePlRoi(rt: Runtime, v: MatValid, size: Size, t: MatType, rr: Range, cr: Range) returns (w: MatValid)
    requires rt.Valid() && Known(rt.contents, v.h) && HeaderFits(rt.hw, v.h)
    requires Matches(v.h, size, t) ==> Within(rr, v.h.rows) && Within(cr, v.h.cols)
    modifies rt
    ensures rt.Valid() && rt.active == old(rt.active) && rt.location == old(rt.location) && rt.bytes == old(rt.bytes)
    ensures rt.contents == old(rt.contents) && rt.refcount.Keys == old(rt.refcount.Keys)
    ensures w == PlRoiOf(v, size, t, rr, cr)
    ensures Known(rt.contents, w.h) && HeaderFits(rt.hw, w.h)
    ensures w.h.HasData() ==> w.h.buffer == v.h.buffer
    ensures w.DeviceValid() ==> v.DeviceValid()
  {
    w := Unset;
    if v.h.HasData() && Matches(v.h, size, t) {
      RoiFits(rt.hw, v.h, rr, cr);
      rt.Retain(v.h.buffer);
      w := MatValid(PlRoi(v.h, rr, cr), v.upToDate);
    }
  }

  /** A new matrix holding the ROIs of the copies `cm`, `pl` and `gm`, for the selected size and type. */
  method RoiAt(rt: Runtime, cm: MatValid, pl: MatValid, gm: seq<MatValid>, size: Size, t: MatType, rr: Range, cr: Range, ghost c: Bytes)
    returns (r: AutoMat)
    requires rt.Valid() && |gm| == Hardware.GpusMax
    requires Known(rt.contents, cm.h) && HeaderFits(rt.hw, cm.h) && Known(rt.contents, pl.h) && HeaderFits(rt.hw, pl.h)
    requires forall g :: 0 <= g < Hardware.GpusMax ==> Known(rt.contents, gm[g].h) && HeaderFits(rt.hw, gm[g].h)
    requires cm.CpuValid() ==> ContentIn(rt.contents, cm.h) == c
    requires rt.hw.cudaCompiled && pl.DeviceValid() ==> ContentIn(rt.contents, pl.h) == c
    requires forall g :: 0 <= g < Hardware.Gpus(rt.hw) && gm[g].DeviceValid() ==> ContentIn(rt.contents, gm[g].h) == c
    requires Matches(cm.h, size, t) ==> Within(rr, cm.h.rows) && Within(cr, cm.h.cols)
    requires Matches(pl.h, size, t) ==> Within(rr, pl.h.rows) && Within(cr, pl.h.cols)
    requires forall g :: 0 <= g < Hardware.GpusMax && Matches(gm[g].h, size, t) ==> Within(rr, gm[g].h.rows) && Within(cr, gm[g].h.cols)
    modifies rt
    ensures rt.Valid() && rt.active == old(rt.active) && rt.location == old(rt.location) && rt.bytes == old(rt.bytes)
    ensures rt.contents == old(rt.contents) && rt.refcount.Keys == old(rt.refcount.Keys)
    ensures fresh(r) && fresh(r.gm) && r.Valid(rt) && r.Shows(rt.hw, rt.contents, c)
    ensures r.cm == RoiOf(cm, size, t, rr, cr)
    ensures r.pl == (if rt.hw.cudaCompiled then PlRoiOf(pl, size, t, rr, cr) else Unset)
    ensures forall g :: 0 <= g < Hardware.GpusMax ==>
              r.gm[g] == (if g < Hardware.Gpus(rt.hw) then RoiOf(gm[g], size, t, rr, cr) else Unset)
  {
    r := new AutoMat();
    r.cm := TakeRoi(rt, cm, size, t, rr, cr);
    if rt.hw.cudaCompiled {
      r.pl := TakePlRoi(rt, pl, size, t, rr, cr);
      var out := RoiGpus(rt, gm, size, t, rr, cr, c);
      forall g | 0 <= g < Hardware.GpusMax {
        r.gm[g] := out[g];
      }
    }
  }

  /** The GPU part of the ROI: slot `g` below GPUs gets the ROI of `src[g]` if it matches, the others stay unset. */
  method RoiGpus(rt: Runtime, src: seq<MatValid>, size: Size, t: MatType, rr: Range, cr: Range, ghost c: Bytes)
    returns (out: seq<MatValid>)
    requires rt.Valid() && |src| == Hardware.GpusMax
    requires forall g :: 0 <= g < Hardware.GpusMax ==> Known(rt.contents, src[g].h) && HeaderFits(rt.hw, src[g].h)
    requires forall g :: 0 <= g < Hardware.Gpus(rt.hw) && src[g].DeviceValid() ==> ContentIn(rt.contents, src[g].h) == c
    requires forall g :: 0 <= g < Hardware.GpusMax && Matches(src[g].h, size, t) ==> Within(rr, src[g].h.rows) && Within(cr, src[g].h.cols)
    modifies rt
    ensures rt.Valid() && rt.active == old(rt.active) && rt.location == old(rt.location) && rt.bytes == old(rt.bytes)
    ensures rt.contents == old(rt.contents) && rt.refcount.Keys == old(rt.refcount.Keys)
    ensures |out| == Hardware.GpusMax
    ensures forall g :: 0 <= g < Hardware.GpusMax ==>
              out[g] == (if g < Hardware.Gpus(rt.hw) then RoiOf(src[g], size, t, rr, cr) else Unset)
    ensures forall g :: 0 <= g < Hardware.GpusMax ==> Known(rt.contents, out[g].h) && HeaderFits(rt.hw, out[g].h)
    ensures forall g :: 0 <= g < Hardware.Gpus(rt.hw) && out[g].DeviceValid() ==> ContentIn(rt.contents, out[g].h) == c
  {
    out := seq(Hardware.GpusMax, g requires 0 <= g < Hardware.GpusMax =>
                 if g < Hardware.Gpus(rt.hw) then RoiOf(src[g], size, t, rr, cr) else Unset);
    forall g | 0 <= g < Hardware.GpusMax
      ensures Known(rt.contents, out[g].h) && HeaderFits(rt.hw, out[g].h)
      ensures g < Hardware.Gpus(rt.hw) && out[g].DeviceValid() ==> ContentIn(rt.contents, out[g].h) == c
    {
      RoiOfFits(rt.hw, rt.contents, src[g], size, t, rr, cr);
    }
    var g := 0;
    while g < Hardware.Gpus(rt.hw)
      invariant 0 <= g <= Hardware.Gpus(rt.hw) && rt.Valid() && rt.Recounted()
    {
      if Matches(src[g].h, size, t) {
        rt.Retain(out[g].h.buffer);
      }
      g := g + 1;
    }
  }

  /** The ROI of a copy fits and is known where the copy is, and a valid one sees the copy's contents. */
  lemma RoiOfFits(hw: Hardware.Platform, m: map<BufferId, Bytes>, v: MatValid, size: Size, t: MatType, rr: Range, cr: Range)
    requires hw.WellFormed() && Known(m, v.h) && HeaderFits(hw, v.h)
    requires Matches(v.h, size, t) ==> Within(rr, v.h.rows) && Within(cr, v.h.cols)
    ensures Known(m, RoiOf(v, size, t, rr, cr).h) && HeaderFits(hw, RoiOf(v, size, t, rr, cr).h)
    ensures RoiOf(v, size, t, rr, cr).DeviceValid() ==>
              v.DeviceValid() && ContentIn(m, RoiOf(v, size, t, rr, cr).h) == ContentIn(m, v.h)
  {
    if Matches(v.h, size, t) {
      RoiFits(hw, v.h, rr, cr);
    }
  }

  /** Whether readGPU inspects GPU copy `g` for a peer copy to `caller`: both have unified addressing. */
  predicate Peerable(rt: Runtime, caller: nat, g: nat)
    reads rt
    requires rt.Valid()
  {
    caller < Hardware.GpusMax && g < Hardware.GpusMax &&
    Hardware.GpuUnifiedAddressing(rt.hw, rt.active, caller) == Ok(true) &&
    Hardware.GpuUnifiedAddressing(rt.hw, rt.active, g) == Ok(true)
  }

  /** The messages readGPU can fail with. */
  predicate ReadError(msg: string)
  {
    || PoolError(msg) || msg == ErrWrongGpu || msg == ErrInaccessible || msg == ErrOtherWrongGpu || msg == ErrUninitialized
  }
}
