// `hawaii::partitionize`: split [0, total) into ranges that overlap by a
// fixed amount, either into a number of almost equal parts or proportionally
// to ratios (largest remainder method), and apply such ranges to matrices.

module Partition {
  import opened Wrappers
  import opened Ranges


  const ErrOverlap := "too much overlap for given range"

  // ---------------------------------------------------------------------------
  // Count variant

  /** The closed form of the count variant: range `i` of `partitions`. */
  function BaseSize(total: int, partitions: int, overlap: int): int
    requires partitions >= 1 && total - overlap >= 0
  {
    (total - overlap) / partitions + overlap
  }

  function Bigger(total: int, partitions: int, overlap: int): int
    requires partitions >= 1 && total - overlap >= 0
  {
    (total - overlap) % partitions
  }

  function SizeAt(total: int, partitions: int, overlap: int, i: int): int
    requires partitions >= 1 && total - overlap >= 0
  {
    BaseSize(total, partitions, overlap) + (if i < Bigger(total, partitions, overlap) then 1 else 0)
  }

  function StartAt(total: int, partitions: int, overlap: int, i: nat): int
    requires partitions >= 1 && total - overlap >= 0
  {
    var b := Bigger(total, partitions, overlap);
    i * (BaseSize(total, partitions, overlap) - overlap) + (if i < b then i else b)
  }

  function RangeAt(total: int, partitions: int, overlap: int, i: nat): Range
    requires partitions >= 1 && total - overlap >= 0
  {
    var s := StartAt(total, partitions, overlap, i);
    Range(s, s + SizeAt(total, partitions, overlap, i))
  }

  /** The partition the count variant returns, written as a closed form. */
  function CountPartition(total: int, partitions: int, overlap: int): (r: seq<Range>)
    requires partitions >= 1 && total - overlap >= 0
    ensures |r| == partitions
  {
    seq(partitions, i requires 0 <= i < partitions => RangeAt(total, partitions, overlap, i))
  }

  /**
   * partitionize(total, partitions, overlap): fails when overlap exceeds
   * total, and otherwise returns the closed-form partition.
   */
  method PartitionizeCount(total: int, partitions: int, overlap: int := 0) returns (r: Result<seq<Range>>)
    requires partitions >= 1
    ensures total - overlap < 0 <==> r.Err?
    ensures r.Err? ==> r.msg == ErrOverlap
    ensures r.Ok? ==> r.value == CountPartition(total, partitions, overlap)
  {
    if total - overlap < 0 {
      return Err(ErrOverlap);
    }
    var totalNoOverlap := total - overlap;
    var sizeBase := totalNoOverlap / partitions + overlap;
    var partsBigger := totalNoOverlap % partitions;
    ghost var bigger := partsBigger;
    var ret: seq<Range> := [];
    var start := 0;
    var part := 0;
    while part < partitions
      invariant 0 <= part <= partitions
      invariant partsBigger == if part < bigger then bigger - part else 0
      invariant start == StartAt(total, partitions, overlap, part)
      invariant ret == seq(part, i requires 0 <= i < part => RangeAt(total, partitions, overlap, i))
    {
      var size := sizeBase;
      if partsBigger > 0 {
        size := size + 1;
        partsBigger := partsBigger - 1;
      }
      ret := ret + [Range(start, start + size)];
      start := start + size - overlap;
      part := part + 1;
    }
    return Ok(ret);
  }

  /** The count partition has `partitions` ranges; the first starts at 0 and the last ends at total. */
  lemma CountPartitionCoversTotal(total: int, partitions: int, overlap: int)
    requires partitions >= 1 && total - overlap >= 0
    ensures var r := CountPartition(total, partitions, overlap);
      |r| == partitions && r[0].start == 0 && r[partitions - 1].end == total
  {
    var t := total - overlap;
    var q := t / partitions;
    var b := t % partitions;
    assert t == partitions * q + b;
    calc {
      StartAt(total, partitions, overlap, partitions - 1) + SizeAt(total, partitions, overlap, partitions - 1);
      (partitions - 1) * q + b + q + overlap;
      { assert (partitions - 1) * q + q == partitions * q; }
      total;
    }
  }

  /** Consecutive ranges overlap by exactly `overlap` elements. */
  lemma CountPartitionOverlap(total: int, partitions: int, overlap: int, i: nat)
    requires partitions >= 1 && total - overlap >= 0 && i + 1 < partitions
    ensures var r := CountPartition(total, partitions, overlap);
      r[i + 1].start == r[i].end - overlap
  {
    var base := BaseSize(total, partitions, overlap);
    assert (i + 1) * (base - overlap) == i * (base - overlap) + (base - overlap);
  }

  /**
   * Every range has the base size `(total - overlap) / partitions + overlap`,
   * and exactly the first `(total - overlap) % partitions` ranges are one bigger.
   */
  lemma CountPartitionSizes(total: int, partitions: int, overlap: int, i: nat)
    requires partitions >= 1 && total - overlap >= 0 && i < partitions
    ensures var r := CountPartition(total, partitions, overlap);
      r[i].Size() == (total - overlap) / partitions + overlap + (if i < (total - overlap) % partitions then 1 else 0)
  {
  }

  /** Without overlap, the first `total % partitions` ranges are one bigger than the others. */
  lemma CountPartitionNoOverlap(total: nat, partitions: int, i: nat, j: nat)
    requires partitions >= 1 && i < partitions && j < partitions
    requires i < total % partitions <= j
    ensures var r := CountPartition(total, partitions, 0);
      r[i].Size() == r[j].Size() + 1 && r[j].Size() == total / partitions
  {
  }

  // ---------------------------------------------------------------------------
  // Ratio variant (largest remainder method)

  function SumR(s: seq<real>): real {
    if s == [] then 0.0 else SumR(s[..|s| - 1]) + s[|s| - 1]
  }

  function SumI(s: seq<int>): int {
    if s == [] then 0 else SumI(s[..|s| - 1]) + s[|s| - 1]
  }

  function Scale(s: seq<real>, q: real): (r: seq<real>)
    ensures |r| == |s|
  {
    if s == [] then [] else Scale(s[..|s| - 1], q) + [s[|s| - 1] * q]
  }

  function Offset(s: seq<real>, o: real): (r: seq<real>)
    ensures |r| == |s|
  {
    if s == [] then [] else Offset(s[..|s| - 1], o) + [s[|s| - 1] + o]
  }

  /** `quotaInv = totalNoOverlap / sum(ratios)` */
  function QuotaInv(total: int, ratios: seq<real>, overlap: int): real
    requires SumR(ratios) != 0.0
  {
    (total - overlap) as real / SumR(ratios)
  }

  /** The exact (real) size of each partition: `ratio * quotaInv + overlap`. */
  function Exacts(total: int, ratios: seq<real>, overlap: int): (e: seq<real>)
    requires SumR(ratios) != 0.0
    ensures |e| == |ratios|
  {
    Offset(Scale(ratios, QuotaInv(total, ratios, overlap)), overlap as real)
  }

  function Floors(e: seq<real>): (f: seq<int>)
    ensures |f| == |e|
  {
    seq(|e|, i requires 0 <= i < |e| => e[i].Floor)
  }

  function Remainders(e: seq<real>): (m: seq<real>)
    ensures |m| == |e|
    ensures forall i :: 0 <= i < |e| ==> 0.0 <= m[i] < 1.0
  {
    seq(|e|, i requires 0 <= i < |e| => e[i] - e[i].Floor as real)
  }

  /**
   * What the ratio variant promises of its result `r`, given the exact sizes
   * `e`: one range per exact size, sizes that are the floor of the exact size
   * or one more, summing to `(total - overlap) + overlap * |e|`, bonus units
   * only to partitions whose remainder is at least that of every partition
   * without one, and ranges chained from 0 with the given overlap up to `total`.
   */
  ghost predicate IsRemainderPartition(r: seq<Range>, total: int, e: seq<real>, overlap: int) {
    && |r| == |e| > 0
    && (forall i :: 0 <= i < |r| ==> r[i].Size() == e[i].Floor || r[i].Size() == e[i].Floor + 1)
    && (forall i, j :: 0 <= i < |r| && 0 <= j < |r| && r[i].Size() == e[i].Floor + 1 && r[j].Size() == e[j].Floor
          ==> Remainders(e)[i] >= Remainders(e)[j])
    && SumI(Sizes(r)) == (total - overlap) + overlap * |e|
    && r[0].start == 0
    && (forall i :: 0 <= i < |r| - 1 ==> r[i + 1].start == r[i].end - overlap)
    && r[|r| - 1].end == total
  }

  /** The ratio variant's promise, with the exact sizes `ratio * quotaInv + overlap`. */
  ghost predicate IsRatioPartition(r: seq<Range>, total: int, ratios: seq<real>, overlap: int)
    requires SumR(ratios) != 0.0
  {
    IsRemainderPartition(r, total, Exacts(total, ratios, overlap), overlap)
  }

  function Sizes(r: seq<Range>): (s: seq<int>)
    ensures |s| == |r| && forall i :: 0 <= i < |r| ==> s[i] == r[i].Size()
  {
    seq(|r|, i requires 0 <= i < |r| => r[i].Size())
  }

  lemma {:induction false} SumRNonEmpty(s: seq<real>)
    requires SumR(s) != 0.0
    ensures |s| >= 1
  {
  }

  lemma {:induction false} ScaleAt(s: seq<real>, q: real, i: nat)
    requires i < |s|
    ensures Scale(s, q)[i] == s[i] * q
    decreases |s|
  {
    if i < |s| - 1 {
      ScaleAt(s[..|s| - 1], q, i);
    }
  }

  lemma {:induction false} OffsetAt(s: seq<real>, o: real, i: nat)
    requires i < |s|
    ensures Offset(s, o)[i] == s[i] + o
    decreases |s|
  {
    if i < |s| - 1 {
      OffsetAt(s[..|s| - 1], o, i);
    }
  }

  lemma ScaleStep(scaled: real, sum: real, x: real, q: real)
    requires scaled == q * sum
    ensures scaled + x * q == q * (sum + x)
  {
  }

  lemma Distrib(q: real, a: real, b: real)
    ensures q * (a + b) == q * a + q * b
  {
  }

  lemma CountTimes(n: nat, o: real)
    requires n >= 1
    ensures (n as real) * o == ((n - 1) as real) * o + o
  {
  }

  lemma DivTimes(t: real, d: real)
    requires d != 0.0
    ensures (t / d) * d == t
  {
  }

  lemma CastTimes(a: int, b: int)
    ensures (b as real) * (a as real) == (a * b) as real
  {
  }

  /** Scaling every element scales the sum. */
  lemma {:induction false} SumScale(s: seq<real>, q: real)
    ensures SumR(Scale(s, q)) == q * SumR(s)
    decreases |s|
  {
    if s != [] {
      var n := |s|;
      var init := s[..n - 1];
      SumScale(init, q);
      var a, x := Scale(init, q), s[n - 1];
      var sc := Scale(s, q);
      assert sc == Scale(s[..|s| - 1], q) + [s[|s| - 1] * q];
      assert sc[..n - 1] == a;
      assert SumR(sc) == SumR(a) + x * q;
      ScaleStep(SumR(a), SumR(init), x, q);
    }
  }

  /** Adding `o` to every element adds `|s| * o` to the sum. */
  lemma {:induction false} SumOffset(s: seq<real>, o: real)
    ensures SumR(Offset(s, o)) == SumR(s) + (|s| as real) * o
    decreases |s|
  {
    if s != [] {
      var n := |s|;
      var init := s[..n - 1];
      SumOffset(init, o);
      var sc := Offset(s, o);
      assert sc[..n - 1] == Offset(init, o);
      assert SumR(sc) == SumR(Offset(init, o)) + (s[n - 1] + o);
      assert SumR(s) == SumR(init) + s[n - 1];
      CountTimes(n, o);
    }
  }

  lemma QuotaInvScales(total: int, ratios: seq<real>, overlap: int)
    requires SumR(ratios) != 0.0
    ensures QuotaInv(total, ratios, overlap) * SumR(ratios) == (total - overlap) as real
  {
    DivTimes((total - overlap) as real, SumR(ratios));
  }

  lemma SumScaledOffset(ratios: seq<real>, q: real, t: real, overlap: int)
    requires q * SumR(ratios) == t
    ensures SumR(Offset(Scale(ratios, q), overlap as real)) == t + (overlap * |ratios|) as real
  {
    SumScale(ratios, q);
    SumOffset(Scale(ratios, q), overlap as real);
    CastTimes(overlap, |ratios|);
  }

  lemma ExactsUnfold(total: int, ratios: seq<real>, overlap: int)
    requires SumR(ratios) != 0.0
    ensures Exacts(total, ratios, overlap) == Offset(Scale(ratios, QuotaInv(total, ratios, overlap)), overlap as real)
  {
  }

  lemma ExactsSumSplit(total: int, ratios: seq<real>, overlap: int)
    requires SumR(ratios) != 0.0
    ensures SumR(Offset(Scale(ratios, QuotaInv(total, ratios, overlap)), overlap as real))
            == (total - overlap) as real + (overlap * |ratios|) as real
  {
    QuotaInvScales(total, ratios, overlap);
    SumScaledOffset(ratios, QuotaInv(total, ratios, overlap), (total - overlap) as real, overlap);
  }

  /** The exact sizes add up to `(total - overlap) + overlap * |ratios|`. */
  lemma ExactsSum(total: int, ratios: seq<real>, overlap: int)
    requires SumR(ratios) != 0.0
    ensures SumR(Exacts(total, ratios, overlap)) == ((total - overlap) + overlap * |ratios|) as real
  {
    ExactsUnfold(total, ratios, overlap);
    ExactsSumSplit(total, ratios, overlap);
  }

  /** Summing floors and remainders gives back the sum of the exact values. */
  lemma {:induction false} FloorsPlusRemainders(e: seq<real>)
    ensures SumI(Floors(e)) as real + SumR(Remainders(e)) == SumR(e)
    ensures 0.0 <= SumR(Remainders(e)) && (e != [] ==> SumR(Remainders(e)) < |e| as real)
    decreases |e|
  {
    if e != [] {
      var n := |e|;
      FloorsPlusRemainders(e[..n - 1]);
      assert Floors(e)[..n - 1] == Floors(e[..n - 1]);
      assert Remainders(e)[..n - 1] == Remainders(e[..n - 1]);
    }
  }

  /** The number of bonus units is a whole number in [0, |ratios|). */
  lemma PartsBiggerBounds(total: int, ratios: seq<real>, overlap: int)
    requires SumR(ratios) != 0.0
    ensures var pb := (total - overlap) + overlap * |ratios| - SumI(Floors(Exacts(total, ratios, overlap)));
      0 <= pb < |ratios|
  {
    var e := Exacts(total, ratios, overlap);
    ExactsSum(total, ratios, overlap);
    FloorsPlusRemainders(e);
    SumRNonEmpty(ratios);
  }

  lemma {:induction false} SumIUpdate(s: seq<int>, j: nat, v: int)
    requires j < |s|
    ensures SumI(s[j := v]) == SumI(s) - s[j] + v
    decreases |s|
  {
    var n := |s|;
    if j < n - 1 {
      SumIUpdate(s[..n - 1], j, v);
      assert s[j := v][..n - 1] == s[..n - 1][j := v];
    } else {
      assert s[j := v][..n - 1] == s[..n - 1];
    }
  }

  /** The properties of the sorted index list once it covers indices [0, i). */
  ghost predicate SortedIndices(rems: seq<real>, idx: seq<nat>, i: nat) {
    && i <= |rems|
    && |idx| == i
    && (forall k :: 0 <= k < |idx| ==> idx[k] < i)
    && (forall k, l :: 0 <= k < l < |idx| ==> idx[k] != idx[l])
    && (forall x :: 0 <= x < i ==> x in idx)
    && (forall k, l :: 0 <= k < l < |idx| ==> rems[idx[k]] >= rems[idx[l]])
  }

  /** Inserting index `i` before the first smaller remainder keeps the list sorted and complete. */
  lemma InsertSorted(rems: seq<real>, idx: seq<nat>, i: nat, pos: nat)
    requires i < |rems| && SortedIndices(rems, idx, i) && pos <= |idx|
    requires forall k :: 0 <= k < pos ==> rems[idx[k]] >= rems[i]
    requires pos < |idx| ==> rems[idx[pos]] < rems[i]
    ensures SortedIndices(rems, idx[..pos] + [i] + idx[pos..], i + 1)
  {
    var next := idx[..pos] + [i] + idx[pos..];
    InsertPlaces(idx, i, pos);
    InsertComplete(idx, i, pos);
    InsertOrdered(rems, idx, i, pos);
  }

  /** Where each element of the list lands once `i` is inserted at `pos`. */
  lemma InsertPlaces(idx: seq<nat>, i: nat, pos: nat)
    requires pos <= |idx|
    ensures var next := idx[..pos] + [i] + idx[pos..];
            && |next| == |idx| + 1 && next[pos] == i
            && (forall k :: 0 <= k < pos ==> next[k] == idx[k])
            && (forall k :: pos < k < |next| ==> next[k] == idx[k - 1])
  {
  }

  /** Inserting `i` into a list holding every index below `i` gives a list holding every index up to `i`. */
  lemma InsertComplete(idx: seq<nat>, i: nat, pos: nat)
    requires pos <= |idx| && forall x :: 0 <= x < i ==> x in idx
    ensures forall x :: 0 <= x < i + 1 ==> x in idx[..pos] + [i] + idx[pos..]
  {
    var next := idx[..pos] + [i] + idx[pos..];
    InsertPlaces(idx, i, pos);
    forall x | 0 <= x < i + 1 ensures x in next {
      if x < i {
        assert x in idx;
        var m :| 0 <= m < |idx| && idx[m] == x;
        if m < pos { assert next[m] == x; } else { assert next[m + 1] == x; }
      }
    }
  }

  /** Inserting `i` before the first smaller remainder keeps the remainders descending. */
  lemma InsertOrdered(rems: seq<real>, idx: seq<nat>, i: nat, pos: nat)
    requires i < |rems| && SortedIndices(rems, idx, i) && pos <= |idx|
    requires forall k :: 0 <= k < pos ==> rems[idx[k]] >= rems[i]
    requires pos < |idx| ==> rems[idx[pos]] < rems[i]
    ensures var next := idx[..pos] + [i] + idx[pos..];
            forall k, l :: 0 <= k < l < |next| ==> rems[next[k]] >= rems[next[l]]
  {
    var next := idx[..pos] + [i] + idx[pos..];
    InsertPlaces(idx, i, pos);
    forall k, l | 0 <= k < l < |next| ensures rems[next[k]] >= rems[next[l]] {
      if k == pos && l > pos + 1 {
        assert rems[idx[pos]] >= rems[idx[l - 1]];
      }
    }
  }

  /**
   * The `std::sort` of partition indices by descending remainder. The sort is
   * not stable, so the order among equal remainders is not specified; this
   * insertion sort is one admissible order, and only its listed properties are used.
   */
  method SortByRemainder(rems: seq<real>) returns (idx: seq<nat>)
    ensures SortedIndices(rems, idx, |rems|)
  {
    idx := [];
    var i := 0;
    while i < |rems|
      invariant 0 <= i <= |rems|
      invariant SortedIndices(rems, idx, i)
    {
      var pos := 0;
      while pos < |idx| && rems[idx[pos]] >= rems[i]
        invariant 0 <= pos <= |idx|
        invariant forall k :: 0 <= k < pos ==> rems[idx[k]] >= rems[i]
      {
        pos := pos + 1;
      }
      InsertSorted(rems, idx, i, pos);
      idx := idx[..pos] + [i] + idx[pos..];
      i := i + 1;
    }
  }

  /** The first `partsBigger` sorted indices have remainders no smaller than any other index. */
  lemma BonusHasLargestRemainders(rems: seq<real>, idx: seq<nat>, pb: nat, i: nat, j: nat)
    requires SortedIndices(rems, idx, |rems|) && pb <= |idx|
    requires i < |rems| && j < |rems| && i in idx[..pb] && j !in idx[..pb]
    ensures rems[i] >= rems[j]
  {
    var a :| 0 <= a < pb && idx[a] == i;
    assert j in idx;
    var b :| 0 <= b < |idx| && idx[b] == j;
  }

  /** The loop splitting every exact size into its floor and remainder. */
  method SplitExact(ratios: seq<real>, quotaInv: real, overlap: int) returns (sizes: seq<int>, remainders: seq<real>)
    ensures sizes == Floors(Offset(Scale(ratios, quotaInv), overlap as real))
    ensures remainders == Remainders(Offset(Scale(ratios, quotaInv), overlap as real))
  {
    ghost var e := Offset(Scale(ratios, quotaInv), overlap as real);
    sizes, remainders := [], [];
    var k := 0;
    while k < |ratios|
      invariant 0 <= k <= |ratios|
      invariant sizes == Floors(e)[..k] && remainders == Remainders(e)[..k]
    {
      var sizeExact := ratios[k] * quotaInv + overlap as real;
      ScaleAt(ratios, quotaInv, k);
      OffsetAt(Scale(ratios, quotaInv), overlap as real, k);
      var sizeBase := sizeExact.Floor;
      assert Floors(e)[..k + 1] == Floors(e)[..k] + [sizeBase];
      assert Remainders(e)[..k + 1] == Remainders(e)[..k] + [sizeExact - sizeBase as real];
      sizes := sizes + [sizeBase];
      remainders := remainders + [sizeExact - sizeBase as real];
      k := k + 1;
    }
  }

  /** `++sizes[indices[indexIndex]]` for the first `partsBigger` indices. */
  method AddBonus(floors: seq<int>, indices: seq<nat>, partsBigger: int) returns (sizes: seq<int>)
    requires 0 <= partsBigger <= |indices|
    requires forall k :: 0 <= k < |indices| ==> indices[k] < |floors|
    requires forall k, l :: 0 <= k < l < |indices| ==> indices[k] != indices[l]
    ensures |sizes| == |floors|
    ensures forall j :: 0 <= j < |floors| ==> sizes[j] == floors[j] + (if j in indices[..partsBigger] then 1 else 0)
    ensures SumI(sizes) == SumI(floors) + partsBigger
  {
    sizes := floors;
    var indexIndex := 0;
    while indexIndex < partsBigger
      invariant 0 <= indexIndex <= partsBigger && |sizes| == |floors|
      invariant forall j :: 0 <= j < |floors| ==> sizes[j] == floors[j] + (if j in indices[..indexIndex] then 1 else 0)
      invariant SumI(sizes) == SumI(floors) + indexIndex
    {
      var j := indices[indexIndex];
      assert j !in indices[..indexIndex];
      assert indices[..indexIndex + 1] == indices[..indexIndex] + [j];
      SumIUpdate(sizes, j, sizes[j] + 1);
      sizes := sizes[j := sizes[j] + 1];
      indexIndex := indexIndex + 1;
    }
  }

  /** Convert sizes to ranges chained from 0, each next start being the previous end minus overlap. */
  method SizesToRanges(sizes: seq<int>, overlap: int) returns (ret: seq<Range>)
    ensures |ret| == |sizes|
    ensures Sizes(ret) == sizes
    ensures |ret| > 0 ==> ret[0].start == 0
    ensures forall i :: 0 <= i < |ret| - 1 ==> ret[i + 1].start == ret[i].end - overlap
    ensures |ret| > 0 ==> ret[|ret| - 1].end == SumI(sizes) - (|sizes| - 1) * overlap
  {
    ret := [];
    var partStart := 0;
    var k := 0;
    assert sizes[..0] == [];
    while k < |sizes|
      invariant 0 <= k <= |sizes| && |ret| == k
      invariant forall i :: 0 <= i < k ==> ret[i] == PlacedRange(sizes, overlap, i)
      invariant partStart == StartOf(sizes, overlap, k)
    {
      StartStep(sizes, overlap, k);
      ret := ret + [Range(partStart, partStart + sizes[k])];
      partStart := partStart + sizes[k] - overlap;
      k := k + 1;
    }
    RangesAtChain(sizes, overlap, ret);
  }

  /** Where the loop starts range k: the sizes before it, less k overlaps. */
  ghost function StartOf(sizes: seq<int>, overlap: int, k: nat): int
    requires k <= |sizes|
  {
    SumI(sizes[..k]) - Advance(k, overlap)
  }

  ghost function PlacedRange(sizes: seq<int>, overlap: int, k: nat): Range
    requires k < |sizes|
  {
    Range(StartOf(sizes, overlap, k), StartOf(sizes, overlap, k) + sizes[k])
  }

  lemma StartStep(sizes: seq<int>, overlap: int, k: nat)
    requires k < |sizes|
    ensures StartOf(sizes, overlap, k + 1) == StartOf(sizes, overlap, k) + sizes[k] - overlap
  {
    assert sizes[..k + 1][..k] == sizes[..k];
  }

  /** The ranges the loop builds are chained from 0 and end at the sum of the sizes less the overlaps. */
  lemma RangesAtChain(sizes: seq<int>, overlap: int, ret: seq<Range>)
    requires |ret| == |sizes| && forall i :: 0 <= i < |ret| ==> ret[i] == PlacedRange(sizes, overlap, i)
    ensures Sizes(ret) == sizes
    ensures |ret| > 0 ==> ret[0].start == 0
    ensures forall i :: 0 <= i < |ret| - 1 ==> ret[i + 1].start == ret[i].end - overlap
    ensures |ret| > 0 ==> ret[|ret| - 1].end == SumI(sizes) - (|sizes| - 1) * overlap
  {
    assert sizes[..0] == [];
    var r := Sizes(ret);
    forall i | 0 <= i < |ret|
      ensures r[i] == sizes[i]
    {
      assert ret[i] == PlacedRange(sizes, overlap, i);
    }
    assert r == sizes;
    forall i | 0 <= i < |ret| - 1
      ensures ret[i + 1].start == ret[i].end - overlap
    {
      StartStep(sizes, overlap, i);
    }
    if |sizes| > 0 {
      LastPlacedEnd(sizes, overlap);
    }
  }

  lemma LastPlacedEnd(sizes: seq<int>, overlap: int)
    requires |sizes| > 0
    ensures PlacedRange(sizes, overlap, |sizes| - 1).end == SumI(sizes) - (|sizes| - 1) * overlap
  {
    var n := |sizes|;
    StartStep(sizes, overlap, n - 1);
    assert sizes[..n] == sizes;
    AdvanceIsProduct(n - 1, overlap);
  }

  /** `k * o`, accumulated the way the loop advances its start. */
  ghost function Advance(k: nat, o: int): int {
    if k == 0 then 0 else Advance(k - 1, o) + o
  }

  lemma {:induction false} AdvanceIsProduct(k: nat, o: int)
    ensures Advance(k + 1, o) - o == k * o
  {
    if k > 0 {
      AdvanceIsProduct(k - 1, o);
      MulSucc(k - 1, o);
    }
  }

  lemma MulSucc(k: int, o: int)
    ensures (k + 1) * o == k * o + o
  {
  }

  /** Assembles the promise of the ratio variant from the facts its steps establish. */
  lemma RemainderPartitionHolds(total: int, e: seq<real>, overlap: int, indices: seq<nat>,
                                pb: int, sizes: seq<int>, ret: seq<Range>)
    requires SortedIndices(Remainders(e), indices, |e|)
    requires pb == (total - overlap) + overlap * |e| - SumI(Floors(e))
    requires 0 <= pb < |e|
    requires |sizes| == |e|
    requires forall j :: 0 <= j < |e| ==> sizes[j] == Floors(e)[j] + (if j in indices[..pb] then 1 else 0)
    requires SumI(sizes) == SumI(Floors(e)) + pb
    requires |ret| == |sizes| && Sizes(ret) == sizes && ret[0].start == 0
    requires forall i :: 0 <= i < |ret| - 1 ==> ret[i + 1].start == ret[i].end - overlap
    requires ret[|ret| - 1].end == SumI(sizes) - (|sizes| - 1) * overlap
    ensures IsRemainderPartition(ret, total, e, overlap)
  {
    BonusOrder(e, indices, pb, sizes);
    ChainEnd(total, overlap, |e|);
  }

  /** A partition that got a bonus unit has a remainder no smaller than one that did not. */
  lemma BonusOrder(e: seq<real>, indices: seq<nat>, pb: int, sizes: seq<int>)
    requires SortedIndices(Remainders(e), indices, |e|) && 0 <= pb < |e| && |sizes| == |e|
    requires forall j :: 0 <= j < |e| ==> sizes[j] == Floors(e)[j] + (if j in indices[..pb] then 1 else 0)
    ensures forall i, j :: 0 <= i < |e| && 0 <= j < |e| && sizes[i] == e[i].Floor + 1 && sizes[j] == e[j].Floor
              ==> Remainders(e)[i] >= Remainders(e)[j]
  {
    forall i, j | 0 <= i < |e| && 0 <= j < |e| && sizes[i] == e[i].Floor + 1 && sizes[j] == e[j].Floor
      ensures Remainders(e)[i] >= Remainders(e)[j]
    {
      BonusHasLargestRemainders(Remainders(e), indices, pb, i, j);
    }
  }

  lemma ChainEnd(total: int, overlap: int, n: int)
    ensures (total - overlap) + overlap * n - (n - 1) * overlap == total
  {
  }

  /** partitionize(total, ratios, overlap), the largest remainder method. */
  method PartitionizeRatios(total: int, ratios: seq<real>, overlap: int := 0) returns (r: Result<seq<Range>>)
    requires SumR(ratios) != 0.0
    ensures total - overlap < 0 <==> r.Err?
    ensures r.Err? ==> r.msg == ErrOverlap
    ensures r.Ok? ==> IsRatioPartition(r.value, total, ratios, overlap)
  {
    if total - overlap < 0 {
      return Err(ErrOverlap);
    }
    var totalNoOverlap := total - overlap;
    var quotaInv := totalNoOverlap as real / SumR(ratios);
    ExactsUnfold(total, ratios, overlap);
    var floors, remainders := SplitExact(ratios, quotaInv, overlap);
    var indices := SortByRemainder(remainders);
    var partsBigger := totalNoOverlap + overlap * |ratios| - SumI(floors);
    PartsBiggerBounds(total, ratios, overlap);
    var sizes := AddBonus(floors, indices, partsBigger);
    var ret := SizesToRanges(sizes, overlap);
    RemainderPartitionHolds(total, Exacts(total, ratios, overlap), overlap, indices, partsBigger, sizes, ret);
    return Ok(ret);
  }

  // ---------------------------------------------------------------------------
  // Range overloads and the template parameter `PartsOrRatios`

  /** Either a number of partitions or a vector of ratios. */
  datatype PartsOrRatios = Parts(partitions: int) | Ratios(ratios: seq<real>)
  {
    predicate Usable() {
      match this
      case Parts(n) => n >= 1
      case Ratios(rs) => SumR(rs) != 0.0
    }

    /** No ratio is negative, so no exact size falls below the overlap. */
    predicate NonNegative() {
      match this
      case Parts(_) => true
      case Ratios(rs) => forall i :: 0 <= i < |rs| ==> rs[i] >= 0.0
    }
  }

  /** What the integer overload dispatched on `por` promises. */
  ghost predicate IsPartition(r: seq<Range>, total: int, por: PartsOrRatios, overlap: int)
    requires por.Usable() && total - overlap >= 0
  {
    match por
    case Parts(n) => r == CountPartition(total, n, overlap)
    case Ratios(rs) => IsRatioPartition(r, total, rs, overlap)
  }

  method PartitionizeTotal(total: int, por: PartsOrRatios, overlap: int := 0) returns (r: Result<seq<Range>>)
    requires por.Usable()
    ensures total - overlap < 0 <==> r.Err?
    ensures r.Err? ==> r.msg == ErrOverlap
    ensures r.Ok? ==> IsPartition(r.value, total, por, overlap)
  {
    match por
    case Parts(n) => r := PartitionizeCount(total, n, overlap);
    case Ratios(rs) => r := PartitionizeRatios(total, rs, overlap);
  }

  function Shift(rs: seq<Range>, offset: int): (r: seq<Range>)
    ensures |r| == |rs|
    ensures forall i :: 0 <= i < |rs| ==> r[i] == Range(rs[i].start + offset, rs[i].end + offset)
  {
    seq(|rs|, i requires 0 <= i < |rs| => Range(rs[i].start + offset, rs[i].end + offset))
  }

  lemma ShiftBack(rs: seq<Range>, offset: int)
    ensures Shift(Shift(rs, offset), -offset) == rs
  {
  }

  /** The loop adding `total.start` to every range. */
  method ShiftRanges(rs: seq<Range>, offset: int) returns (ret: seq<Range>)
    ensures ret == Shift(rs, offset)
  {
    ret := rs;
    if offset != 0 {
      var k := 0;
      while k < |ret|
        invariant 0 <= k <= |ret| && |ret| == |rs|
        invariant forall i :: 0 <= i < k ==> ret[i] == Range(rs[i].start + offset, rs[i].end + offset)
        invariant forall i :: k <= i < |ret| ==> ret[i] == rs[i]
      {
        ret := ret[k := Range(ret[k].start + offset, ret[k].end + offset)];
        k := k + 1;
      }
    }
  }

  /** partitionize(cv::Range, ...): the partition of `total.size()`, shifted by `total.start`. */
  method PartitionizeRange(total: Range, por: PartsOrRatios, overlap: int := 0) returns (r: Result<seq<Range>>)
    requires por.Usable()
    ensures total.Size() - overlap < 0 <==> r.Err?
    ensures r.Ok? ==> IsPartition(Shift(r.value, -total.start), total.Size(), por, overlap)
  {
    var base := PartitionizeTotal(total.Size(), por, overlap);
    if base.Err? {
      return base;
    }
    var ret := ShiftRanges(base.value, total.start);
    ShiftBack(base.value, total.start);
    return Ok(ret);
  }

  /** A count partition of a range has the same sizes as that of its size and starts at its start. */
  lemma RangePartitionStartsAtStart(total: Range, n: int, overlap: int, r: seq<Range>)
    requires n >= 1 && total.Size() - overlap >= 0
    requires IsPartition(Shift(r, -total.start), total.Size(), Parts(n), overlap)
    ensures |r| == n && r[0].start == total.start && r[n - 1].end == total.end
  {
    CountPartitionCoversTotal(total.Size(), n, overlap);
    ShiftBack(r, -total.start);
  }

  // ---------------------------------------------------------------------------
  // With a non-negative overlap every range lies within [0, total]

  /** Every range lies within [0, total]. */
  predicate AllWithin(rs: seq<Range>, total: int) {
    forall i :: 0 <= i < |rs| ==> 0 <= rs[i].start <= rs[i].end <= total
  }

  /** Ranges chained from 0 with overlap `overlap` up to `total`, none smaller than the overlap. */
  ghost predicate Chained(rs: seq<Range>, total: int, overlap: int) {
    && |rs| > 0 && rs[0].start == 0 && rs[|rs| - 1].end == total
    && (forall i :: 0 <= i < |rs| - 1 ==> rs[i + 1].start == rs[i].end - overlap)
    && (forall i :: 0 <= i < |rs| ==> rs[i].Size() >= overlap)
  }

  /** The starts of a chain never decrease, so none is negative. */
  lemma {:induction false} ChainedStartsNonneg(rs: seq<Range>, total: int, overlap: int, i: nat)
    requires Chained(rs, total, overlap) && i < |rs|
    ensures rs[i].start >= 0
  {
    if i > 0 {
      ChainedStartsNonneg(rs, total, overlap, i - 1);
      assert rs[i].start == rs[i - 1].end - overlap;
    }
  }

  /** The ends of a chain never decrease, so none exceeds the last one. */
  lemma {:induction false} ChainedEndsBelow(rs: seq<Range>, total: int, overlap: int, i: nat)
    requires Chained(rs, total, overlap) && i < |rs|
    ensures rs[i].end <= total
    decreases |rs| - i
  {
    if i < |rs| - 1 {
      ChainedEndsBelow(rs, total, overlap, i + 1);
      assert rs[i + 1].start == rs[i].end - overlap;
    }
  }

  lemma ChainedWithin(rs: seq<Range>, total: int, overlap: int)
    requires Chained(rs, total, overlap) && overlap >= 0
    ensures AllWithin(rs, total)
  {
    forall i | 0 <= i < |rs| ensures 0 <= rs[i].start <= rs[i].end <= total {
      ChainedStartsNonneg(rs, total, overlap, i);
      ChainedEndsBelow(rs, total, overlap, i);
    }
  }

  /** The count partition is a chain: every size is at least the base size, which is at least the overlap. */
  lemma CountPartitionChained(total: int, partitions: int, overlap: int)
    requires partitions >= 1 && total - overlap >= 0
    ensures Chained(CountPartition(total, partitions, overlap), total, overlap)
  {
    var r := CountPartition(total, partitions, overlap);
    CountPartitionCoversTotal(total, partitions, overlap);
    forall i | 0 <= i < |r| - 1 ensures r[i + 1].start == r[i].end - overlap {
      CountPartitionOverlap(total, partitions, overlap, i);
    }
    forall i | 0 <= i < |r| ensures r[i].Size() >= overlap {
      CountPartitionSizes(total, partitions, overlap, i);
    }
  }

  lemma {:induction false} SumRNonneg(s: seq<real>)
    requires forall i :: 0 <= i < |s| ==> s[i] >= 0.0
    ensures SumR(s) >= 0.0
  {
    if s != [] {
      SumRNonneg(s[..|s| - 1]);
    }
  }

  /** With non-negative ratios every exact size, and so its floor, is at least the overlap. */
  lemma ExactsAtLeastOverlap(total: int, ratios: seq<real>, overlap: int, i: nat)
    requires SumR(ratios) != 0.0 && total - overlap >= 0 && i < |ratios|
    requires forall k :: 0 <= k < |ratios| ==> ratios[k] >= 0.0
    ensures Exacts(total, ratios, overlap)[i].Floor >= overlap
  {
    var q := QuotaInv(total, ratios, overlap);
    SumRNonneg(ratios);
    NonnegQuotient((total - overlap) as real, SumR(ratios));
    NonnegProduct(ratios[i], q);
    ExactsUnfold(total, ratios, overlap);
    ScaleAt(ratios, q, i);
    OffsetAt(Scale(ratios, q), overlap as real, i);
    assert Exacts(total, ratios, overlap)[i] >= overlap as real;
  }

  lemma NonnegQuotient(a: real, b: real)
    requires a >= 0.0 && b > 0.0
    ensures a / b >= 0.0
  {
  }

  lemma NonnegProduct(a: real, b: real)
    requires a >= 0.0 && b >= 0.0
    ensures a * b >= 0.0
  {
  }

  /** A ratio partition with non-negative ratios is a chain. */
  lemma RatioPartitionChained(r: seq<Range>, total: int, ratios: seq<real>, overlap: int)
    requires SumR(ratios) != 0.0 && total - overlap >= 0
    requires forall k :: 0 <= k < |ratios| ==> ratios[k] >= 0.0
    requires IsRatioPartition(r, total, ratios, overlap)
    ensures Chained(r, total, overlap)
  {
    forall i | 0 <= i < |r| ensures r[i].Size() >= overlap {
      ExactsAtLeastOverlap(total, ratios, overlap, i);
    }
  }

  /**
   * With an overlap in [0, total] and no negative ratio, every range of the
   * partition lies within [0, total], so every view of it can be taken.
   */
  lemma PartitionWithin(rs: seq<Range>, total: int, por: PartsOrRatios, overlap: int)
    requires por.Usable() && por.NonNegative() && 0 <= overlap <= total
    requires IsPartition(rs, total, por, overlap)
    ensures |rs| > 0 && AllWithin(rs, total)
  {
    if por.Parts? {
      CountPartitionChained(total, por.partitions, overlap);
    } else {
      RatioPartitionChained(rs, total, por.ratios, overlap);
    }
    ChainedWithin(rs, total, overlap);
  }

  // ---------------------------------------------------------------------------
  // Matrices: partitions only wrap the parent's data

  /**
   * A matrix header (`cv::Mat`, `cv::gpu::GpuMat`): the buffer it wraps, where
   * its top-left element lies in that buffer, and its size.
   */
  datatype MatView = MatView(buffer: nat, rowOffset: int, colOffset: int, rows: int, cols: int)

  const ErrRoi := "ROI outside of matrix"

  /** `rowRange`: a view of rows [start, end); the range must lie within the matrix. */
  function RowRange(m: MatView, rg: Range): (r: Result<MatView>)
    ensures r.Ok? <==> 0 <= rg.start <= rg.end <= m.rows
    ensures r.Ok? ==> r.value == MatView(m.buffer, m.rowOffset + rg.start, m.colOffset, rg.Size(), m.cols)
  {
    if 0 <= rg.start <= rg.end <= m.rows
    then Ok(MatView(m.buffer, m.rowOffset + rg.start, m.colOffset, rg.end - rg.start, m.cols))
    else Err(ErrRoi)
  }

  /** `colRange`: a view of columns [start, end). */
  function ColRange(m: MatView, rg: Range): (r: Result<MatView>)
    ensures r.Ok? <==> 0 <= rg.start <= rg.end <= m.cols
    ensures r.Ok? ==> r.value == MatView(m.buffer, m.rowOffset, m.colOffset + rg.start, m.rows, rg.Size())
  {
    if 0 <= rg.start <= rg.end <= m.cols
    then Ok(MatView(m.buffer, m.rowOffset, m.colOffset + rg.start, m.rows, rg.end - rg.start))
    else Err(ErrRoi)
  }

  /** `m(rowRange, colRange)` */
  function SubView(m: MatView, rh: Range, rv: Range): (r: Result<MatView>)
    ensures r.Ok? <==> 0 <= rh.start <= rh.end <= m.rows && 0 <= rv.start <= rv.end <= m.cols
    ensures r.Ok? ==> r.value == MatView(m.buffer, m.rowOffset + rh.start, m.colOffset + rv.start, rh.Size(), rv.Size())
  {
    match RowRange(m, rh)
    case Err(e) => Err(e)
    case Ok(v) => ColRange(v, rv)
  }

  /** The loop taking one row view per range. */
  method RowViews(total: MatView, rs: seq<Range>) returns (r: Result<seq<MatView>>)
    ensures r.Ok? <==> forall i :: 0 <= i < |rs| ==> RowRange(total, rs[i]).Ok?
    ensures r.Err? ==> r.msg == ErrRoi
    ensures r.Ok? ==> |r.value| == |rs| && forall i :: 0 <= i < |rs| ==> RowRange(total, rs[i]) == Ok(r.value[i])
  {
    var ret: seq<MatView> := [];
    var k := 0;
    while k < |rs|
      invariant 0 <= k <= |rs| && |ret| == k
      invariant forall i :: 0 <= i < k ==> RowRange(total, rs[i]) == Ok(ret[i])
    {
      var v := RowRange(total, rs[k]);
      if v.Err? { return Err(v.msg); }
      ret := ret + [v.value];
      k := k + 1;
    }
    return Ok(ret);
  }

  /** The loop taking one column view per range. */
  method ColViews(total: MatView, rs: seq<Range>) returns (r: Result<seq<MatView>>)
    ensures r.Ok? <==> forall i :: 0 <= i < |rs| ==> ColRange(total, rs[i]).Ok?
    ensures r.Err? ==> r.msg == ErrRoi
    ensures r.Ok? ==> |r.value| == |rs| && forall i :: 0 <= i < |rs| ==> ColRange(total, rs[i]) == Ok(r.value[i])
  {
    var ret: seq<MatView> := [];
    var k := 0;
    while k < |rs|
      invariant 0 <= k <= |rs| && |ret| == k
      invariant forall i :: 0 <= i < k ==> ColRange(total, rs[i]) == Ok(ret[i])
    {
      var v := ColRange(total, rs[k]);
      if v.Err? { return Err(v.msg); }
      ret := ret + [v.value];
      k := k + 1;
    }
    return Ok(ret);
  }

  /**
   * partitionizeHoriz: horizontal stripes stacked vertically, i.e. one view
   * per range of rows, all wrapping the parent's buffer.
   */
  method PartitionizeHoriz(total: MatView, por: PartsOrRatios, overlap: int := 0) returns (r: Result<seq<MatView>>)
    requires por.Usable()
    ensures total.rows - overlap < 0 ==> r.Err? && r.msg == ErrOverlap
    ensures 0 <= overlap <= total.rows && por.NonNegative() ==> r.Ok?
    ensures r.Ok? ==> exists rs :: (IsPartition(rs, total.rows, por, overlap) && |r.value| == |rs| &&
      forall i :: 0 <= i < |rs| ==> RowRange(total, rs[i]) == Ok(r.value[i]))
  {
    var ranges := PartitionizeTotal(total.rows, por, overlap);
    if ranges.Err? { return Err(ranges.msg); }
    if 0 <= overlap <= total.rows && por.NonNegative() {
      PartitionWithin(ranges.value, total.rows, por, overlap);
    }
    r := RowViews(total, ranges.value);
  }

  /** partitionizeVerti: one view per range of columns. */
  method PartitionizeVerti(total: MatView, por: PartsOrRatios, overlap: int := 0) returns (r: Result<seq<MatView>>)
    requires por.Usable()
    ensures total.cols - overlap < 0 ==> r.Err? && r.msg == ErrOverlap
    ensures 0 <= overlap <= total.cols && por.NonNegative() ==> r.Ok?
    ensures r.Ok? ==> exists rs :: (IsPartition(rs, total.cols, por, overlap) && |r.value| == |rs| &&
      forall i :: 0 <= i < |rs| ==> ColRange(total, rs[i]) == Ok(r.value[i]))
  {
    var ranges := PartitionizeTotal(total.cols, por, overlap);
    if ranges.Err? { return Err(ranges.msg); }
    if 0 <= overlap <= total.cols && por.NonNegative() {
      PartitionWithin(ranges.value, total.cols, por, overlap);
    }
    r := ColViews(total, ranges.value);
  }

  lemma GridIndexBound(a: nat, b: nat, i: nat, w: nat)
    requires a < i && b < w
    ensures a * w + b < i * w
  {
    assert a * w + b < (a + 1) * w;
    assert (a + 1) * w <= i * w;
  }

  /** Block `(a, b)` of the grid built from views `ret` sits at `a * |rv| + b`. */
  ghost predicate GridPrefix(total: MatView, rh: seq<Range>, rv: seq<Range>, ret: seq<MatView>, i: nat) {
    && i <= |rh|
    && |ret| == i * |rv|
    && forall a, b :: 0 <= a < i && 0 <= b < |rv| ==>
         a * |rv| + b < |ret| && SubView(total, rh[a], rv[b]) == Ok(ret[a * |rv| + b])
  }

  /** Appending the row of blocks of range `rh[i]` extends the grid by one row. */
  lemma GridPrefixStep(total: MatView, rh: seq<Range>, rv: seq<Range>, ret: seq<MatView>, row: seq<MatView>, i: nat)
    requires i < |rh| && GridPrefix(total, rh, rv, ret, i)
    requires |row| == |rv| && forall b :: 0 <= b < |rv| ==> SubView(total, rh[i], rv[b]) == Ok(row[b])
    ensures GridPrefix(total, rh, rv, ret + row, i + 1)
  {
    var next := ret + row;
    assert |next| == (i + 1) * |rv|;
    forall a, b | 0 <= a < i + 1 && 0 <= b < |rv|
      ensures a * |rv| + b < |next| && SubView(total, rh[a], rv[b]) == Ok(next[a * |rv| + b])
    {
      if a < i {
        GridIndexBound(a, b, i, |rv|);
        assert next[a * |rv| + b] == ret[a * |rv| + b];
      } else {
        assert next[a * |rv| + b] == row[b];
      }
    }
  }

  /** The inner loop: the blocks of one row range, one per column range. */
  method GridRow(total: MatView, rhI: Range, rv: seq<Range>) returns (r: Result<seq<MatView>>)
    ensures r.Ok? <==> forall b :: 0 <= b < |rv| ==> SubView(total, rhI, rv[b]).Ok?
    ensures r.Err? ==> r.msg == ErrRoi
    ensures r.Ok? ==> |r.value| == |rv| && forall b :: 0 <= b < |rv| ==> SubView(total, rhI, rv[b]) == Ok(r.value[b])
  {
    var ret: seq<MatView> := [];
    var j := 0;
    while j < |rv|
      invariant 0 <= j <= |rv| && |ret| == j
      invariant forall b :: 0 <= b < j ==> SubView(total, rhI, rv[b]) == Ok(ret[b])
    {
      var v := SubView(total, rhI, rv[j]);
      if v.Err? { return Err(v.msg); }
      ret := ret + [v.value];
      j := j + 1;
    }
    return Ok(ret);
  }

  /** The outer loop over the row ranges. */
  method GridViews(total: MatView, rh: seq<Range>, rv: seq<Range>) returns (r: Result<seq<MatView>>)
    ensures r.Ok? <==> forall a, b :: 0 <= a < |rh| && 0 <= b < |rv| ==> SubView(total, rh[a], rv[b]).Ok?
    ensures r.Err? ==> r.msg == ErrRoi
    ensures r.Ok? ==> GridPrefix(total, rh, rv, r.value, |rh|)
  {
    var ret: seq<MatView> := [];
    var i := 0;
    while i < |rh|
      invariant 0 <= i <= |rh| && GridPrefix(total, rh, rv, ret, i)
      invariant forall a, b :: 0 <= a < i && 0 <= b < |rv| ==> SubView(total, rh[a], rv[b]).Ok?
    {
      var row := GridRow(total, rh[i], rv);
      if row.Err? { return Err(row.msg); }
      GridPrefixStep(total, rh, rv, ret, row.value, i);
      ret := ret + row.value;
      i := i + 1;
    }
    return Ok(ret);
  }

  /**
   * partitionizeGrid: |row ranges| * |column ranges| blocks in row-major
   * order, block (i, j) at position i * |column ranges| + j.
   */
  method PartitionizeGrid(total: MatView, porHoriz: PartsOrRatios, porVerti: PartsOrRatios,
                          overlapHoriz: int := 0, overlapVerti: int := 0) returns (r: Result<seq<MatView>>)
    requires porHoriz.Usable() && porVerti.Usable()
    ensures total.rows - overlapHoriz < 0 || total.cols - overlapVerti < 0 ==> r.Err? && r.msg == ErrOverlap
    ensures (0 <= overlapHoriz <= total.rows && 0 <= overlapVerti <= total.cols &&
             porHoriz.NonNegative() && porVerti.NonNegative()) ==> r.Ok?
    ensures r.Ok? ==> exists rh, rv ::
      && IsPartition(rh, total.rows, porHoriz, overlapHoriz)
      && IsPartition(rv, total.cols, porVerti, overlapVerti)
      && GridPrefix(total, rh, rv, r.value, |rh|)
  {
    var rangesHor := PartitionizeTotal(total.rows, porHoriz, overlapHoriz);
    var rangesVer := PartitionizeTotal(total.cols, porVerti, overlapVerti);
    if rangesHor.Err? { return Err(rangesHor.msg); }
    if rangesVer.Err? { return Err(rangesVer.msg); }
    if 0 <= overlapHoriz <= total.rows && 0 <= overlapVerti <= total.cols &&
       porHoriz.NonNegative() && porVerti.NonNegative() {
      PartitionWithin(rangesHor.value, total.rows, porHoriz, overlapHoriz);
      PartitionWithin(rangesVer.value, total.cols, porVerti, overlapVerti);
    }
    r := GridViews(total, rangesHor.value, rangesVer.value);
  }
}
