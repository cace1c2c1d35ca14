// The variadic `hawaii::min` / `hawaii::max` templates.
// An argument list is a non-empty sequence; `less` plays the role of `operator<`.
// `min(t1, t2, tn...)` keeps `t1 < t2 ? t1 : t2` and recurses on the rest,
// `max(t1, t2, tn...)` keeps `t1 > t2 ? t1 : t2`.

module MinMax {

  /** What `operator<` must be for min/max to return a least/greatest argument. */
  ghost predicate StrictWeakOrder<T(!new)>(less: (T, T) -> bool) {
    && (forall a :: !less(a, a))
    && (forall a, b, c :: less(a, b) && less(b, c) ==> less(a, c))
    && (forall a, b, c :: less(a, c) ==> less(a, b) || less(b, c))
  }

  /** The variadic recursion of `min`: `acc` is the value kept so far. */
  function MinFold<T>(less: (T, T) -> bool, acc: T, rest: seq<T>): (r: T)
    ensures r == acc || r in rest
    decreases |rest|
  {
    if rest == [] then acc
    else MinFold(less, if less(acc, rest[0]) then acc else rest[0], rest[1..])
  }

  function MaxFold<T>(less: (T, T) -> bool, acc: T, rest: seq<T>): (r: T)
    ensures r == acc || r in rest
    decreases |rest|
  {
    if rest == [] then acc
    else MaxFold(less, if less(rest[0], acc) then acc else rest[0], rest[1..])
  }

  /** `hawaii::min(args...)`; with one argument it returns that argument. */
  function Min<T>(less: (T, T) -> bool, args: seq<T>): (r: T)
    requires |args| >= 1
    ensures r in args
    ensures |args| == 1 ==> r == args[0]
  {
    MinFold(less, args[0], args[1..])
  }

  /** `hawaii::max(args...)`; with one argument it returns that argument. */
  function Max<T>(less: (T, T) -> bool, args: seq<T>): (r: T)
    requires |args| >= 1
    ensures r in args
    ensures |args| == 1 ==> r == args[0]
  {
    MaxFold(less, args[0], args[1..])
  }

  lemma {:induction false} MinFoldLeast<T(!new)>(less: (T, T) -> bool, acc: T, rest: seq<T>)
    requires StrictWeakOrder(less)
    ensures !less(acc, MinFold(less, acc, rest))
    ensures forall j :: 0 <= j < |rest| ==> !less(rest[j], MinFold(less, acc, rest))
    decreases |rest|
  {
    if rest != [] {
      var next := if less(acc, rest[0]) then acc else rest[0];
      MinFoldLeast(less, next, rest[1..]);
      assert forall j :: 1 <= j < |rest| ==> rest[j] == rest[1..][j - 1];
    }
  }

  lemma {:induction false} MaxFoldGreatest<T(!new)>(less: (T, T) -> bool, acc: T, rest: seq<T>)
    requires StrictWeakOrder(less)
    ensures !less(MaxFold(less, acc, rest), acc)
    ensures forall j :: 0 <= j < |rest| ==> !less(MaxFold(less, acc, rest), rest[j])
    decreases |rest|
  {
    if rest != [] {
      var next := if less(rest[0], acc) then acc else rest[0];
      MaxFoldGreatest(less, next, rest[1..]);
      assert forall j :: 1 <= j < |rest| ==> rest[j] == rest[1..][j - 1];
    }
  }

  /** No argument is smaller than the result of `min`. */
  lemma MinIsLeast<T(!new)>(less: (T, T) -> bool, args: seq<T>)
    requires |args| >= 1 && StrictWeakOrder(less)
    ensures forall j :: 0 <= j < |args| ==> !less(args[j], Min(less, args))
  {
    MinFoldLeast(less, args[0], args[1..]);
    assert forall j :: 1 <= j < |args| ==> args[j] == args[1..][j - 1];
  }

  /** No argument is greater than the result of `max`. */
  lemma MaxIsGreatest<T(!new)>(less: (T, T) -> bool, args: seq<T>)
    requires |args| >= 1 && StrictWeakOrder(less)
    ensures forall j :: 0 <= j < |args| ==> !less(Max(less, args), args[j])
  {
    MaxFoldGreatest(less, args[0], args[1..]);
    assert forall j :: 1 <= j < |args| ==> args[j] == args[1..][j - 1];
  }

  lemma {:induction false} MinFoldLast<T>(less: (T, T) -> bool, acc: T, rest: seq<T>)
    ensures var r := MinFold(less, acc, rest);
      || (r == acc && forall j :: 0 <= j < |rest| ==> less(r, rest[j]))
      || (exists k :: 0 <= k < |rest| && rest[k] == r && forall j :: k < j < |rest| ==> less(r, rest[j]))
    decreases |rest|
  {
    if rest != [] {
      var next := if less(acc, rest[0]) then acc else rest[0];
      var r := MinFold(less, acc, rest);
      MinFoldLast(less, next, rest[1..]);
      if r == next && forall j :: 0 <= j < |rest[1..]| ==> less(r, rest[1..][j]) {
        if less(acc, rest[0]) {
          assert forall j :: 1 <= j < |rest| ==> rest[j] == rest[1..][j - 1];
        } else {
          assert rest[0] == r;
          assert forall j :: 0 < j < |rest| ==> rest[j] == rest[1..][j - 1];
        }
      } else {
        var k :| 0 <= k < |rest[1..]| && rest[1..][k] == r && forall j :: k < j < |rest[1..]| ==> less(r, rest[1..][j]);
        assert rest[k + 1] == r;
        assert forall j :: k + 1 < j < |rest| ==> rest[j] == rest[1..][j - 1];
      }
    }
  }

  lemma {:induction false} MaxFoldLast<T>(less: (T, T) -> bool, acc: T, rest: seq<T>)
    ensures var r := MaxFold(less, acc, rest);
      || (r == acc && forall j :: 0 <= j < |rest| ==> less(rest[j], r))
      || (exists k :: 0 <= k < |rest| && rest[k] == r && forall j :: k < j < |rest| ==> less(rest[j], r))
    decreases |rest|
  {
    if rest != [] {
      var next := if less(rest[0], acc) then acc else rest[0];
      var r := MaxFold(less, acc, rest);
      MaxFoldLast(less, next, rest[1..]);
      if r == next && forall j :: 0 <= j < |rest[1..]| ==> less(rest[1..][j], r) {
        if less(rest[0], acc) {
          assert forall j :: 1 <= j < |rest| ==> rest[j] == rest[1..][j - 1];
        } else {
          assert rest[0] == r;
          assert forall j :: 0 < j < |rest| ==> rest[j] == rest[1..][j - 1];
        }
      } else {
        var k :| 0 <= k < |rest[1..]| && rest[1..][k] == r && forall j :: k < j < |rest[1..]| ==> less(rest[1..][j], r);
        assert rest[k + 1] == r;
        assert forall j :: k + 1 < j < |rest| ==> rest[j] == rest[1..][j - 1];
      }
    }
  }

  /**
   * Ties go to the later argument: `min` returns an argument at some position k
   * such that every later argument is strictly greater.
   */
  lemma MinPicksLastTie<T>(less: (T, T) -> bool, args: seq<T>)
    requires |args| >= 1
    ensures exists k :: 0 <= k < |args| && args[k] == Min(less, args)
                        && forall j :: k < j < |args| ==> less(Min(less, args), args[j])
  {
    var r := Min(less, args);
    MinFoldLast(less, args[0], args[1..]);
    if r == args[0] && forall j :: 0 <= j < |args[1..]| ==> less(r, args[1..][j]) {
      assert forall j :: 0 < j < |args| ==> args[j] == args[1..][j - 1];
    } else {
      var k :| 0 <= k < |args[1..]| && args[1..][k] == r && forall j :: k < j < |args[1..]| ==> less(r, args[1..][j]);
      assert args[k + 1] == r;
      assert forall j :: k + 1 < j < |args| ==> args[j] == args[1..][j - 1];
    }
  }

  /** Ties go to the later argument: every argument after the one `max` returns is strictly smaller. */
  lemma MaxPicksLastTie<T>(less: (T, T) -> bool, args: seq<T>)
    requires |args| >= 1
    ensures exists k :: 0 <= k < |args| && args[k] == Max(less, args)
                        && forall j :: k < j < |args| ==> less(args[j], Max(less, args))
  {
    var r := Max(less, args);
    MaxFoldLast(less, args[0], args[1..]);
    if r == args[0] && forall j :: 0 <= j < |args[1..]| ==> less(args[1..][j], r) {
      assert forall j :: 0 < j < |args| ==> args[j] == args[1..][j - 1];
    } else {
      var k :| 0 <= k < |args[1..]| && args[1..][k] == r && forall j :: k < j < |args[1..]| ==> less(args[1..][j], r);
      assert args[k + 1] == r;
      assert forall j :: k + 1 < j < |args| ==> args[j] == args[1..][j - 1];
    }
  }

  function IntLess(a: int, b: int): bool { a < b }

  lemma IntLessIsStrictWeakOrder()
    ensures StrictWeakOrder(IntLess)
  {
  }
}
