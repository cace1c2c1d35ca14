// The GPU capability registry: facts queried once per device slot and cached
// in constant tables, and the public accessors that validate an index.
// The raw device facts are a parameter, so everything built on top of them is
// verified for any hardware.

module Hardware {
  import opened Wrappers
  import MinMax

  /** HAWAII_GPUS_MAX: the number of device slots every table has. */
  const GpusMax: nat := 64

  type Positive = x: int | x >= 1 witness 1

  /** The properties `cudaGetDeviceProperties` reports that this registry uses (alignments are positive byte counts). */
  datatype DeviceProps = DeviceProps(textureAlignment: Positive, texturePitchAlignment: Positive, surfaceAlignment: Positive)

  /** What the runtime answers for one device slot; `None` is a failed query. */
  datatype DeviceFacts = DeviceFacts(
    integrated: Option<int>,
    canMapHostMemory: Option<int>,
    props: Option<DeviceProps>,
    unifiedAddressing: Option<int>)

  /**
   * The platform: whether CUDA support was compiled in, the answer of
   * `cudaGetDeviceCount` (`None` if it fails) and the facts of each of the 64 slots.
   */
  datatype Platform = Platform(cudaCompiled: bool, deviceCount: Option<nat>, slots: seq<DeviceFacts>)
  {
    predicate WellFormed() { |slots| == GpusMax }
  }

  const ErrNoCuda := "compiled without GPU support"
  const ErrGpuIndex := "invalid GPU index"

  /** GPUsImpl: the reported device count capped at 64, and 0 when the query fails or CUDA is compiled out. */
  function GpusImpl(p: Platform): (n: nat)
    ensures n <= GpusMax
    ensures !p.cudaCompiled || p.deviceCount.None? ==> n == 0
    ensures p.cudaCompiled && p.deviceCount.Some? ==>
              (n == p.deviceCount.value || (n == GpusMax && p.deviceCount.value > GpusMax)) &&
              n <= p.deviceCount.value
  {
    if !p.cudaCompiled then 0
    else match p.deviceCount
      case None => 0
      case Some(c) => if c > GpusMax then GpusMax else c
  }

  /** `(uint)GPU >= (uint)GPUs`: a negative index wraps to a huge unsigned value. */
  predicate OutOfRange(gpu: int, gpus: nat) { gpu < 0 || gpu >= gpus }

  /** GPUMemoryOwnImpl: a device owns memory unless it is integrated and can map host memory. */
  function MemoryOwnImpl(p: Platform, gpu: int): (own: bool)
    requires p.WellFormed()
    ensures own <==> p.cudaCompiled && !OutOfRange(gpu, GpusImpl(p))
                     && p.slots[gpu].integrated.Some? && p.slots[gpu].canMapHostMemory.Some?
                     && !(p.slots[gpu].integrated.value != 0 && p.slots[gpu].canMapHostMemory.value != 0)
  {
    if !p.cudaCompiled || OutOfRange(gpu, GpusImpl(p)) then false
    else
      var f := p.slots[gpu];
      match (f.integrated, f.canMapHostMemory)
      case (None, _) => false
      case (_, None) => false
      case (Some(i), Some(m)) => !(i != 0 && m != 0)
  }

  /** max(textureAlignment, texturePitchAlignment, surfaceAlignment) via `hawaii::max`. */
  function PropsAlignment(d: DeviceProps): Positive {
    var s := [d.textureAlignment as int, d.texturePitchAlignment as int, d.surfaceAlignment as int];
    var m := MinMax.Max(MinMax.IntLess, s);
    assert m == s[0] || m == s[1] || m == s[2];
    m
  }

  /** GPUAlignmentImpl: 1 for an out-of-range index or a failed query. */
  function AlignmentImpl(p: Platform, gpu: int): (a: nat)
    requires p.WellFormed()
    ensures a >= 1
    ensures !p.cudaCompiled || OutOfRange(gpu, GpusImpl(p)) || p.slots[gpu].props.None? ==> a == 1
    ensures p.cudaCompiled && !OutOfRange(gpu, GpusImpl(p)) && p.slots[gpu].props.Some? ==>
              var d := p.slots[gpu].props.value;
              a >= d.textureAlignment && a >= d.texturePitchAlignment && a >= d.surfaceAlignment &&
              (a == d.textureAlignment || a == d.texturePitchAlignment || a == d.surfaceAlignment)
  {
    if !p.cudaCompiled || OutOfRange(gpu, GpusImpl(p)) then 1
    else match p.slots[gpu].props
      case None => 1
      case Some(d) =>
        var s := [d.textureAlignment as int, d.texturePitchAlignment as int, d.surfaceAlignment as int];
        MinMax.IntLessIsStrictWeakOrder();
        MinMax.MaxIsGreatest(MinMax.IntLess, s);
        assert !MinMax.IntLess(PropsAlignment(d), s[2]);
        PropsAlignment(d)
  }

  /** GPUUnifiedAddressingImpl: the attribute is positive; false for an out-of-range index or a failed query. */
  function UnifiedAddressingImpl(p: Platform, gpu: int): (u: bool)
    requires p.WellFormed()
    ensures u <==> p.cudaCompiled && !OutOfRange(gpu, GpusImpl(p))
                   && p.slots[gpu].unifiedAddressing.Some? && p.slots[gpu].unifiedAddressing.value > 0
  {
    if !p.cudaCompiled || OutOfRange(gpu, GpusImpl(p)) then false
    else match p.slots[gpu].unifiedAddressing
      case None => false
      case Some(v) => v > 0
  }

  /** The cached tables, one entry per slot, each computed by the matching `...Impl`. */
  function MemoryOwnTable(p: Platform): (t: seq<bool>)
    requires p.WellFormed()
    ensures |t| == GpusMax && forall i :: 0 <= i < GpusMax ==> t[i] == MemoryOwnImpl(p, i)
  {
    seq(GpusMax, i requires 0 <= i < GpusMax => MemoryOwnImpl(p, i))
  }

  function AlignmentTable(p: Platform): (t: seq<nat>)
    requires p.WellFormed()
    ensures |t| == GpusMax && forall i :: 0 <= i < GpusMax ==> t[i] == AlignmentImpl(p, i)
  {
    seq(GpusMax, i requires 0 <= i < GpusMax => AlignmentImpl(p, i))
  }

  function UnifiedAddressingTable(p: Platform): (t: seq<bool>)
    requires p.WellFormed()
    ensures |t| == GpusMax && forall i :: 0 <= i < GpusMax ==> t[i] == UnifiedAddressingImpl(p, i)
  {
    seq(GpusMax, i requires 0 <= i < GpusMax => UnifiedAddressingImpl(p, i))
  }

  function AsInts(s: seq<nat>): (r: seq<int>)
    ensures |r| == |s| && forall i :: 0 <= i < |s| ==> r[i] == s[i]
  {
    if s == [] then [] else [s[0] as int] + AsInts(s[1..])
  }

  /** GPUAlignmentMaxInstance: `hawaii::max` over the alignments of all 64 slots. */
  function AlignmentMaxInstance(p: Platform): (m: nat)
    requires p.WellFormed()
    ensures forall i :: 0 <= i < GpusMax ==> m >= AlignmentImpl(p, i)
    ensures m >= 1
    ensures exists i :: 0 <= i < GpusMax && m == AlignmentImpl(p, i)
  {
    var t := AsInts(AlignmentTable(p));
    MinMax.IntLessIsStrictWeakOrder();
    MinMax.MaxIsGreatest(MinMax.IntLess, t);
    var m := MinMax.Max(MinMax.IntLess, t);
    var k :| 0 <= k < |t| && t[k] == m;
    assert m >= t[0];
    m as nat
  }

  /** GPUs: the device count every accessor checks against. */
  function Gpus(p: Platform): (n: nat)
    ensures n <= GpusMax
  {
    GpusImpl(p)
  }

  /**
   * The index check shared by the public accessors: a negative index means the
   * active GPU (whatever `cudaGetDevice` reports, unchecked), a non-negative
   * index must be below GPUs.
   */
  function ResolveGpu(p: Platform, active: nat, gpu: int): (r: Result<nat>)
    requires active < GpusMax
    ensures !p.cudaCompiled ==> r == Err(ErrNoCuda)
    ensures p.cudaCompiled && gpu < 0 ==> r == Ok(active)
    ensures p.cudaCompiled && gpu >= 0 ==> r == (if gpu < Gpus(p) then Ok(gpu) else Err(ErrGpuIndex))
    ensures r.Ok? ==> r.value < GpusMax
  {
    if !p.cudaCompiled then Err(ErrNoCuda)
    else if gpu < 0 then Ok(active)
    else if gpu >= Gpus(p) then Err(ErrGpuIndex)
    else Ok(gpu)
  }

  /** GPUMemoryOwn */
  function GpuMemoryOwn(p: Platform, active: nat, gpu: int): (r: Result<bool>)
    requires p.WellFormed() && active < GpusMax
    ensures !p.cudaCompiled ==> r == Err(ErrNoCuda)
    ensures p.cudaCompiled && 0 <= gpu ==> (r.Ok? <==> gpu < Gpus(p))
    ensures p.cudaCompiled && gpu < 0 ==> r == Ok(MemoryOwnImpl(p, active))
    ensures r.Ok? && gpu >= 0 ==> r.value == MemoryOwnImpl(p, gpu)
  {
    match ResolveGpu(p, active, gpu)
    case Err(e) => Err(e)
    case Ok(g) => Ok(MemoryOwnTable(p)[g])
  }

  /** GPUAlignment */
  function GpuAlignment(p: Platform, active: nat, gpu: int): (r: Result<nat>)
    requires p.WellFormed() && active < GpusMax
    ensures !p.cudaCompiled ==> r == Err(ErrNoCuda)
    ensures p.cudaCompiled && 0 <= gpu ==> (r.Ok? <==> gpu < Gpus(p))
    ensures p.cudaCompiled && gpu < 0 ==> r == Ok(AlignmentImpl(p, active))
    ensures r.Ok? && gpu >= 0 ==> r.value == AlignmentImpl(p, gpu)
    ensures r.Ok? ==> 1 <= r.value <= AlignmentMaxInstance(p)
  {
    match ResolveGpu(p, active, gpu)
    case Err(e) => Err(e)
    case Ok(g) =>
      assert AlignmentMaxInstance(p) >= AlignmentImpl(p, g);
      Ok(AlignmentTable(p)[g])
  }

  /** GPUAlignmentMax */
  function GpuAlignmentMax(p: Platform): (r: Result<nat>)
    requires p.WellFormed()
    ensures !p.cudaCompiled ==> r == Err(ErrNoCuda)
    ensures p.cudaCompiled ==>
              && r.Ok? && r.value >= 1
              && forall i :: 0 <= i < GpusMax ==> r.value >= AlignmentImpl(p, i)
  {
    if !p.cudaCompiled then Err(ErrNoCuda) else Ok(AlignmentMaxInstance(p))
  }

  /** GPUUnifiedAddressing */
  function GpuUnifiedAddressing(p: Platform, active: nat, gpu: int): (r: Result<bool>)
    requires p.WellFormed() && active < GpusMax
    ensures !p.cudaCompiled ==> r == Err(ErrNoCuda)
    ensures p.cudaCompiled && 0 <= gpu ==> (r.Ok? <==> gpu < Gpus(p))
    ensures p.cudaCompiled && gpu < 0 ==> r == Ok(UnifiedAddressingImpl(p, active))
    ensures r.Ok? && gpu >= 0 ==> r.value == UnifiedAddressingImpl(p, gpu)
  {
    match ResolveGpu(p, active, gpu)
    case Err(e) => Err(e)
    case Ok(g) => Ok(UnifiedAddressingTable(p)[g])
  }

  /** A slot at or above GPUs reads as "not own memory", alignment 1 and no unified addressing. */
  lemma UnusedSlotsAreNeutral(p: Platform, i: nat)
    requires p.WellFormed() && Gpus(p) <= i < GpusMax
    ensures !MemoryOwnTable(p)[i] && AlignmentTable(p)[i] == 1 && !UnifiedAddressingTable(p)[i]
  {
  }
}
