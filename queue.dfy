// The bounded queue the person follower uses to average the corners of the
// detected person over the last frames: thirty `int` slots shifted in place,
// with the index of the last element, and a weighted mean that favours the
// latest elements.

module FollowPerson {
  import opened Wrappers

  /** The number of slots of every queue. */
  const Capacity: int := 30

  /** C++ `/` on `int`: the quotient truncated toward zero. */
  function TruncDiv(a: int, b: int): int
    requires b > 0
  {
    if a >= 0 then a / b else -((-a) / b)
  }

  /** `sum_{j < |s|} (j + 1) * s[j]` */
  function Weighted(s: seq<int>): int {
    if s == [] then 0 else Weighted(s[..|s| - 1]) + |s| * s[|s| - 1]
  }

  /** `sum_{j < n} (j + 1)` */
  function Weights(n: nat): (w: nat)
    ensures n > 0 ==> w > 0
  {
    if n == 0 then 0 else Weights(n - 1) + n
  }

  /** The weighted mean `wt_mean` computes: 0 for no elements. */
  function WeightedMean(s: seq<int>): int {
    if s == [] then 0 else TruncDiv(Weighted(s), Weights(|s|))
  }

  lemma MulMono(x: int, y: int, b: int)
    requires x <= y && b >= 0
    ensures x * b <= y * b
  {
  }

  lemma Distribute(a: int, w: int, n: int)
    ensures a * (w + n) == a * w + n * a
  {
  }

  /** Elements within [lo, hi] give a weighted sum within [lo, hi] times the weights. */
  lemma {:induction false} WeightedBounds(s: seq<int>, lo: int, hi: int)
    requires forall i :: 0 <= i < |s| ==> lo <= s[i] <= hi
    ensures lo * Weights(|s|) <= Weighted(s) <= hi * Weights(|s|)
  {
    if s != [] {
      var n := |s|;
      var init := s[..n - 1];
      assert |init| == n - 1;
      WeightedBounds(init, lo, hi);
      var w := Weights(n - 1);
      var x := s[n - 1];
      assert Weighted(s) == Weighted(init) + n * x;
      assert lo * w <= Weighted(init) <= hi * w;
      MulMono(lo, x, n);
      MulMono(x, hi, n);
      Distribute(lo, w, n);
      Distribute(hi, w, n);
    }
  }

  /** Truncation keeps a quotient of a value within [lo * b, hi * b] by b within [lo, hi]. */
  lemma TruncDivBounds(a: int, b: int, lo: int, hi: int)
    requires b > 0 && lo * b <= a <= hi * b
    ensures lo <= TruncDiv(a, b) <= hi
  {
    if a >= 0 {
      FloorDivBounds(a, b, lo, hi);
    } else {
      assert -hi * b <= -a <= -lo * b;
      FloorDivBounds(-a, b, -hi, -lo);
    }
  }

  /** The same for the (floor) quotient of a non-negative value. */
  lemma FloorDivBounds(a: int, b: int, lo: int, hi: int)
    requires a >= 0 && b > 0 && lo * b <= a <= hi * b
    ensures lo <= a / b <= hi
  {
    var q := a / b;
    var r := a % b;
    assert a == q * b + r && 0 <= r < b;
    if q < lo {
      MulMono(q + 1, lo, b);
    }
    if q > hi {
      MulMono(hi + 1, q, b);
    }
  }

  /**
   * The weighted mean of a queue's elements lies between the smallest and
   * the largest of them, and it is `c` when every element is `c`.
   */
  lemma MeanBetween(s: seq<int>, lo: int, hi: int)
    requires s != [] && forall i :: 0 <= i < |s| ==> lo <= s[i] <= hi
    ensures lo <= WeightedMean(s) <= hi
  {
    WeightedBounds(s, lo, hi);
    TruncDivBounds(Weighted(s), Weights(|s|), lo, hi);
  }

  lemma MeanOfConstant(s: seq<int>, c: int)
    requires s != [] && forall i :: 0 <= i < |s| ==> s[i] == c
    ensures WeightedMean(s) == c
  {
    MeanBetween(s, c, c);
  }

  /** Later elements weigh more: with the last element raised, the weighted sum grows by its position. */
  lemma {:induction false} LaterWeighsMore(s: seq<int>, x: int)
    ensures Weighted(s + [x]) == Weighted(s) + (|s| + 1) * x
  {
    assert (s + [x])[..|s|] == s;
  }

  /**
   * The value `push` and `pop` return as written: 0 when they refuse (an
   * overflow, an underflow), and no value at all (`None`) after they changed
   * the queue, since both fall off the end of the function there.
   */
  function ReturnedAsWritten(refused: bool): Option<int> {
    if refused then Some(0) else None
  }

  /**
   * An append and a removal, the cases that matter, return nothing: the
   * caller reads an indeterminate `int`.
   */
  lemma ChangeAsWrittenReturnsNothing()
    ensures ReturnedAsWritten(false).None? && ReturnedAsWritten(true) == Some(0)
  {
  }

  /** The slots `pop` reads as written when the last element is at `rear`, in order: 1 to `rear + 1`. */
  function PopReadsAsWritten(rear: int): (r: seq<int>)
    requires rear >= -1
    ensures |r| == rear + 1
  {
    seq(rear + 1, i => i + 1)
  }

  /** Popping a full queue as written finally reads slot 30, one past the end of the array. */
  lemma PopAsWrittenReadsPastEnd()
    ensures PopReadsAsWritten(Capacity - 1)[Capacity - 1] == Capacity
  {
  }

  /** The slots the corrected `pop` reads: 1 to `rear`, all within the array. */
  lemma PopReadsWithin(rear: int, i: int)
    requires -1 <= rear < Capacity && 0 <= i < rear
    ensures 0 <= i + 1 < Capacity
  {
  }

  /** `queue` */
  class Queue {
    const a: array<int>
    var front: int
    var rear: int

    /** Thirty slots; the elements are slots 0 to `rear`. */
    ghost predicate Valid()
      reads this
    {
      a.Length == Capacity && -1 <= rear < Capacity && front == 0
    }

    /** The elements, oldest first. */
    function Contents(): seq<int>
      reads this, a
      requires Valid()
    {
      a[..rear + 1]
    }

    constructor ()
      ensures Valid() && fresh(a) && Contents() == []
    {
      front := 0;
      rear := -1;
      a := new int[30];
    }

    /** `isempty()`: 1 iff there is no element. */
    function IsEmpty(): (b: int)
      reads this, a
      requires Valid()
      ensures b == 0 || b == 1
      ensures b == 1 <==> Contents() == []
    {
      if rear == -1 then 1 else 0
    }

    /** `isfull()`: 1 iff all thirty slots hold elements. */
    function IsFull(): (b: int)
      reads this, a
      requires Valid()
      ensures b == 0 || b == 1
      ensures b == 1 <==> |Contents()| == Capacity
    {
      if rear == Capacity - 1 then 1 else 0
    }

    /** `push(x)`: appends at the rear unless full; returns 1 for an append and 0 for an overflow. */
    method Push(x: int) returns (res: int)
      requires Valid()
      modifies this, a
      ensures Valid()
      ensures old(|Contents()|) == Capacity ==> res == 0 && Contents() == old(Contents())
      ensures old(|Contents()|) < Capacity ==> res == 1 && Contents() == old(Contents()) + [x]
    {
      if IsFull() == 1 {
        return 0;
      }
      rear := rear + 1;
      a[rear] := x;
      res := 1;
    }

    /**
     * `pop()`: removes the front element unless empty, shifting the others one
     * slot down; returns 1 for a removal and 0 for an underflow. The shift
     * stops at the last element, so it never reads past the array.
     */
    method Pop() returns (res: int)
      requires Valid()
      modifies this, a
      ensures Valid()
      ensures old(Contents()) == [] ==> res == 0 && Contents() == []
      ensures old(Contents()) != [] ==> res == 1 && Contents() == old(Contents())[1..]
    {
      if IsEmpty() == 1 {
        return 0;
      }
      var i := 0;
      while i < rear
        invariant Valid() && rear == old(rear)
        invariant 0 <= i <= rear
        invariant forall k :: 0 <= k < i ==> a[k] == old(a[k + 1])
        invariant forall k :: i <= k <= rear ==> a[k] == old(a[k])
      {
        PopReadsWithin(rear, i);
        a[i] := a[i + 1];
        i := i + 1;
      }
      assert a[..rear] == old(a[..])[1..rear + 1];
      rear := rear - 1;
      res := 1;
    }

    /** `wt_mean()`: 0 when empty, else the weighted mean of the elements, later ones weighing more. */
    method WtMean() returns (mean: int)
      requires Valid()
      ensures mean == WeightedMean(Contents())
    {
      if IsEmpty() == 1 {
        return 0;
      }
      var sum := 0;
      var sumn := 0;
      var j := 0;
      while j <= rear
        invariant 0 <= j <= rear + 1
        invariant sum == Weighted(a[..j]) && sumn == Weights(j)
      {
        assert a[..j + 1][..j] == a[..j];
        sum := sum + (j + 1) * a[j];
        sumn := sumn + j + 1;
        j := j + 1;
      }
      assert a[..j] == Contents();
      mean := TruncDiv(sum, sumn);
    }
  }
}
