// The landmark detector's bookkeeping: the luminance of a pixel, the table of
// connected components the labelling fills (append with growth, union by
// linking the larger identity to the smaller), the ranking of the root
// components by size into a chain, the mapping of a decoded landmark type to
// a symbol, and the input handling of `detectLandmark`.

module ImageProcessing {
  import opened Wrappers
  import opened Doubles
  import opened Images
  import GpuRuntime

  /** The channel indices of a BGR pixel. */
  const ColorRed: int := 2
  const ColorGreen: int := 1
  const ColorBlue: int := 0

  /** `luminance(pixel)`: 3 R + 6 G + B, an approximation of the brightness in [0, 2550]. */
  function Luminance(pixel: seq<bv8>): (l: int)
    requires |pixel| >= 3
    ensures 0 <= l <= 2550
    ensures l == 0 <==> pixel[0] == 0 && pixel[1] == 0 && pixel[2] == 0
    ensures l == 2550 <==> pixel[0] == 255 && pixel[1] == 255 && pixel[2] == 255
  {
    3 * pixel[ColorRed] as int + 6 * pixel[ColorGreen] as int + pixel[ColorBlue] as int
  }

  /** Raising one channel never darkens a pixel. */
  lemma LuminanceMonotone(p: seq<bv8>, q: seq<bv8>)
    requires |p| >= 3 && |q| >= 3
    requires p[0] as int <= q[0] as int && p[1] as int <= q[1] as int && p[2] as int <= q[2] as int
    ensures Luminance(p) <= Luminance(q)
  {
  }

  datatype Point = Point(x: int, y: int)

  /** `ConnectedComponent`: the parent link (-1 for a root), its own index, its pixel count and coordinate sum. */
  datatype Component = Component(linkTo: int, identity: int, numberPixel: int, sumPixel: Point)

  /** The entry `addNewConnectedComponent` appends for the pixel (x, y) as component `id`. */
  function NewComponent(id: int, x: int, y: int): (c: Component)
    ensures c.linkTo == -1 && c.identity == id && c.numberPixel == 1 && c.sumPixel == Point(x, y)
  {
    Component(-1, id, 1, Point(x, y))
  }

  /**
   * The shape of a table as `addNewConnectedComponent` sees it: the number
   * of entries, the recorded maximum and the slots actually allocated.
   */
  datatype Shape = Shape(size: int, sizeMax: int, capacity: int)

  /** `createConnectedComponentsTable(length)` */
  function CreateShape(length: int): Shape {
    Shape(0, length, length)
  }

  /** The slots the table has when the new entry is written, and the counters after it, as written. */
  function AddShapeAsWritten(s: Shape): (r: Shape)
    ensures r.size == s.size + 1 && r.sizeMax == s.sizeMax
  {
    Shape(s.size + 1, s.sizeMax, if s.size == s.sizeMax then 2 * s.size + 1 else s.capacity)
  }

  /** The new entry goes to slot `size` of what is allocated once growth has happened. */
  predicate WritesInBoundsAsWritten(s: Shape) {
    s.size < AddShapeAsWritten(s).capacity
  }

  /**
   * Growth as written never updates `sizeMax`: from a table created with
   * length 0, the first append grows it to one slot, the second sees
   * `size != sizeMax` and writes slot 1 of that one-slot table.
   */
  lemma AddAsWrittenOverflows()
    ensures var s1 := AddShapeAsWritten(CreateShape(0));
            WritesInBoundsAsWritten(CreateShape(0)) && s1 == Shape(1, 0, 1) && !WritesInBoundsAsWritten(s1)
  {
  }

  /** A chain element: the pixel count and the index of a root component. */
  datatype ChainNode = ChainNode(value: int, id: int)

  /** The chain is ordered by non-increasing pixel count. */
  predicate Sorted(c: seq<ChainNode>) {
    forall j, k :: 0 <= j < k < |c| ==> c[j].value >= c[k].value
  }

  /** Insertion before the first element whose count is not larger: the walk `while (q && n < q->value)`. */
  function Insert(c: seq<ChainNode>, node: ChainNode): (r: seq<ChainNode>)
    ensures |r| == |c| + 1
  {
    if c == [] || node.value >= c[0].value then [node] + c else [c[0]] + Insert(c[1..], node)
  }

  /** Insertion keeps the chain ordered. */
  lemma {:induction false} InsertSorted(c: seq<ChainNode>, node: ChainNode)
    requires Sorted(c)
    ensures Sorted(Insert(c, node))
    ensures Insert(c, node) != [] && (Insert(c, node)[0] == node || (c != [] && Insert(c, node)[0] == c[0]))
  {
    if c != [] && node.value < c[0].value {
      var rest := Insert(c[1..], node);
      assert Sorted(c[1..]) by {
        forall j, k | 0 <= j < k < |c[1..]|
          ensures c[1..][j].value >= c[1..][k].value
        {
          assert c[1..][j] == c[j + 1] && c[1..][k] == c[k + 1];
        }
      }
      InsertSorted(c[1..], node);
      assert forall k :: 0 <= k < |rest| ==> c[0].value >= rest[k].value by {
        InsertElements(c[1..], node);
        forall k | 0 <= k < |rest|
          ensures c[0].value >= rest[k].value
        {
          assert rest[k] in rest;
          if rest[k] != node {
            var j :| 0 <= j < |c[1..]| && c[1..][j] == rest[k];
            assert c[1..][j] == c[j + 1];
          }
        }
      }
      var r := [c[0]] + rest;
      forall j, k | 0 <= j < k < |r|
        ensures r[j].value >= r[k].value
      {
        if j > 0 {
          assert r[j] == rest[j - 1] && r[k] == rest[k - 1];
        }
      }
    }
  }

  /** Insertion adds exactly the new node: the result is a permutation of the chain and the node. */
  lemma {:induction false} InsertElements(c: seq<ChainNode>, node: ChainNode)
    ensures multiset(Insert(c, node)) == multiset(c) + multiset{node}
    ensures forall x :: x in Insert(c, node) <==> x in c || x == node
  {
    if c != [] && node.value < c[0].value {
      InsertElements(c[1..], node);
      assert c == [c[0]] + c[1..];
    }
  }

  /** The identities of the chain's elements, each as often as it occurs. */
  function Ids(c: seq<ChainNode>): multiset<int> {
    if c == [] then multiset{} else multiset{c[0].id} + Ids(c[1..])
  }

  lemma {:induction false} IdsOfInsert(c: seq<ChainNode>, node: ChainNode)
    ensures Ids(Insert(c, node)) == Ids(c) + multiset{node.id}
  {
    if c != [] && node.value < c[0].value {
      IdsOfInsert(c[1..], node);
      assert Insert(c, node)[1..] == Insert(c[1..], node);
    } else {
      assert ([node] + c)[1..] == c;
    }
  }

  /** The root components among the entries `lo` to `|t| - 1`. */
  ghost function RootsFrom(t: seq<Component>, lo: int): set<int> {
    set j | 0 <= j < |t| && lo <= j && t[j].linkTo == -1
  }

  /** One step down: entry `i` joins the roots when it is one. */
  lemma RootsStep(t: seq<Component>, i: int)
    requires 0 <= i < |t|
    ensures t[i].linkTo == -1 ==> RootsFrom(t, i) == RootsFrom(t, i + 1) + {i} && i !in RootsFrom(t, i + 1)
    ensures t[i].linkTo != -1 ==> RootsFrom(t, i) == RootsFrom(t, i + 1)
  {
  }

  /** The pixel count and the coordinate sum of a group of pixels. */
  datatype Tally = Tally(count: int, sum: Point)

  function TallyOf(c: Component): Tally {
    Tally(c.numberPixel, c.sumPixel)
  }

  function Plus(a: Tally, b: Tally): Tally {
    Tally(a.count + b.count, Point(a.sum.x + b.sum.x, a.sum.y + b.sum.y))
  }

  const NoPixels := Tally(0, Point(0, 0))

  /** The mean of the coordinates, rounded down (`floor` of the quotient). */
  function Centroid(t: Tally): Point {
    if t.count > 0 then Point(t.sum.x / t.count, t.sum.y / t.count) else t.sum
  }

  /**
   * The tally of entry `j` of the labelling and of every later entry linked
   * to it, directly or through other entries: the whole of `j`'s subtree.
   */
  ghost function Subtree(t: seq<Component>, j: int): Tally
    requires 0 <= j < |t|
    decreases 2 * (|t| - j)
  {
    Plus(TallyOf(t[j]), Children(t, j, j + 1))
  }

  /** The subtrees of the entries from `lo` up that link to `j` directly. */
  ghost function Children(t: seq<Component>, j: int, lo: int): Tally
    requires 0 <= j < lo <= |t|
    decreases 2 * (|t| - lo) + 1
  {
    if lo == |t| then NoPixels
    else if t[lo].linkTo == j then Plus(Subtree(t, lo), Children(t, j, lo + 1))
    else Children(t, j, lo + 1)
  }

  /**
   * Before entry `i` is ranked, every entry up to `i` holds its own tally
   * plus the subtrees of the entries above `i` linked to it.
   */
  ghost predicate Pending(table: seq<Component>, t0: seq<Component>, i: int)
    requires |table| == |t0| && -1 <= i < |t0|
  {
    forall j :: 0 <= j <= i ==> TallyOf(table[j]) == Plus(TallyOf(t0[j]), Children(t0, j, i + 1))
  }

  /** Every root above `i` holds its subtree's pixel count and the centroid of its pixels. */
  ghost predicate RootsDone(table: seq<Component>, t0: seq<Component>, i: int)
    requires |table| == |t0| && -1 <= i
  {
    forall j :: i < j < |t0| && t0[j].linkTo == -1 ==>
      table[j].numberPixel == Subtree(t0, j).count && table[j].sumPixel == Centroid(Subtree(t0, j))
  }

  /** Ranking entry `i` completes it: the entries above it linked to it are all of its children. */
  lemma ChildrenStep(t: seq<Component>, j: int, i: int)
    requires 0 <= j < i < |t|
    ensures Children(t, j, i) == if t[i].linkTo == j then Plus(Subtree(t, i), Children(t, j, i + 1)) else Children(t, j, i + 1)
  {
  }

  /**
   * Absorbing entry `i`, which holds its whole subtree, into its parent
   * completes the ranking of `i`: the parent's pending tally gains that
   * subtree and every other entry is left alone.
   */
  lemma AbsorbCompletes(before: seq<Component>, after: seq<Component>, t0: seq<Component>, i: int)
    requires |before| == |after| == |t0| && 0 <= i < |t0|
    requires Pending(before, t0, i) && RootsDone(before, t0, i)
    requires var u := t0[i].linkTo;
             && 0 <= u < i
             && (forall j :: 0 <= j < |t0| && j != u ==> after[j] == before[j])
             && TallyOf(after[u]) == Plus(TallyOf(before[u]), TallyOf(before[i]))
    ensures Pending(after, t0, i - 1) && RootsDone(after, t0, i - 1)
  {
    assert TallyOf(before[i]) == Subtree(t0, i);
    forall j | 0 <= j <= i - 1
      ensures TallyOf(after[j]) == Plus(TallyOf(t0[j]), Children(t0, j, i))
    {
      ChildrenStep(t0, j, i);
    }
  }

  /** Settling root `i`, which holds its whole subtree, completes the ranking of `i`. */
  lemma SettleCompletes(before: seq<Component>, after: seq<Component>, t0: seq<Component>, i: int)
    requires |before| == |after| == |t0| && 0 <= i < |t0| && t0[i].linkTo == -1
    requires Pending(before, t0, i) && RootsDone(before, t0, i)
    requires after == before[i := before[i].(sumPixel := Centroid(TallyOf(before[i])))]
    ensures Pending(after, t0, i - 1) && RootsDone(after, t0, i - 1)
  {
    assert TallyOf(before[i]) == Subtree(t0, i);
    forall j | 0 <= j <= i - 1
      ensures TallyOf(after[j]) == Plus(TallyOf(t0[j]), Children(t0, j, i))
    {
      ChildrenStep(t0, j, i);
    }
  }

  /** Before any entry is ranked, every entry holds exactly its own tally. */
  lemma PendingAtStart(t0: seq<Component>)
    ensures Pending(t0, t0, |t0| - 1)
  {
  }

  /** `ConnectedComponentsTable`: the entries `table[0..size-1]` in a buffer of `sizeMax` slots. */
  class ComponentsTable {
    var table: array<Component>
    var size: int
    var sizeMax: int

    /** The recorded maximum is the allocation and bounds the entries. */
    ghost predicate Valid()
      reads this
    {
      0 <= size <= sizeMax == table.Length
    }

    /** The entries, in order of creation. */
    function Entries(): seq<Component>
      reads this, table
      requires Valid()
    {
      table[..size]
    }

    /**
     * The forest the labelling builds: each entry knows its own index, counts
     * at least one pixel and links to -1 or to an earlier entry.
     */
    ghost predicate WellFormed()
      reads this, table
      requires Valid()
    {
      forall i :: 0 <= i < size ==>
        table[i].identity == i && table[i].numberPixel >= 1 && -1 <= table[i].linkTo < i
    }

    /** `createConnectedComponentsTable(length)` */
    constructor (length: int)
      requires length >= 0
      ensures Valid() && WellFormed() && fresh(table)
      ensures Entries() == [] && sizeMax == length
    {
      size := 0;
      sizeMax := length;
      table := new Component[length];
    }

    /**
     * `addNewConnectedComponent(x, y)`: appends a root of one pixel at
     * (x, y), first moving the entries to a table of `2 * size + 1` slots when
     * this one is full. Unlike the source, growth records the new maximum.
     */
    method Add(x: int, y: int)
      requires Valid()
      modifies this, table
      ensures Valid()
      ensures Entries() == old(Entries()) + [NewComponent(old(size), x, y)]
      ensures old(WellFormed()) ==> WellFormed()
      ensures old(size) < old(sizeMax) ==> table == old(table) && sizeMax == old(sizeMax)
      ensures old(size) == old(sizeMax) ==> fresh(table) && sizeMax == 2 * old(size) + 1
    {
      if size == sizeMax {
        var newTable := new Component[2 * size + 1];
        var i := 0;
        while i < size
          invariant 0 <= i <= size && size == old(size) && table == old(table) && Valid()
          invariant newTable.Length == 2 * size + 1 && size == table.Length && unchanged(table)
          invariant newTable[..i] == table[..i]
        {
          newTable[i] := table[i];
          i := i + 1;
        }
        assert newTable[..size] == table[..size];
        table := newTable;
        sizeMax := 2 * size + 1;
      }
      ghost var before := table[..size];
      assert before == old(Entries());
      table[size] := NewComponent(size, x, y);
      assert table[..size + 1] == before + [NewComponent(size, x, y)];
      size := size + 1;
    }

    /**
     * `linkConnectedComponents(id1, id2)`: nothing when the identities are
     * equal or either is not an entry; otherwise the larger one links to the
     * smaller. The slot written is within the table when one of them is
     * non-negative, and the forest stays well formed when both are.
     */
    method Link(id1: int, id2: int)
      requires Valid() && (id1 >= 0 || id2 >= 0)
      modifies table
      ensures Valid()
      ensures id1 == id2 || id1 >= size || id2 >= size ==> Entries() == old(Entries())
      ensures !(id1 == id2 || id1 >= size || id2 >= size) ==>
                var hi := if id1 < id2 then id2 else id1;
                var lo := if id1 < id2 then id1 else id2;
                Entries() == old(Entries())[hi := old(Entries())[hi].(linkTo := lo)]
      ensures old(WellFormed()) && id1 >= 0 && id2 >= 0 ==> WellFormed()
    {
      if id1 == id2 || id1 >= size || id2 >= size {
        return;
      }
      if id1 < id2 {
        table[id2] := table[id2].(linkTo := id1);
      } else {
        table[id1] := table[id1].(linkTo := id2);
      }
    }

    /**
     * The ranking step of `checkSymbol`: from the last entry down, a linked
     * entry adds its coordinate sum and pixel count to its parent, and a root
     * replaces its sum by the mean (rounded down) and is inserted into the
     * chain. Afterwards the chain holds every root exactly once, with its
     * final pixel count, ordered by non-increasing count; every root holds
     * the pixel count of its whole subtree and the centroid of its pixels;
     * the links are untouched.
     */
    method Rank() returns (chain: seq<ChainNode>)
      requires Valid() && WellFormed()
      modifies table
      ensures Valid() && WellFormed()
      ensures Sorted(chain)
      ensures Ids(chain) == multiset(RootsFrom(Entries(), 0))
      ensures forall x :: x in chain ==> 0 <= x.id < size && x.value == table[x.id].numberPixel
      ensures forall j :: 0 <= j < size ==> table[j].linkTo == old(table[j].linkTo)
      ensures RootsDone(Entries(), old(Entries()), -1)
    {
      ghost var t0 := Entries();
      chain := [];
      var i := size - 1;
      PendingAtStart(t0);
      while i > -1
        invariant -1 <= i < size && Valid() && WellFormed()
        invariant forall j :: 0 <= j < size ==> table[j].linkTo == t0[j].linkTo
        invariant Sorted(chain)
        invariant Ids(chain) == multiset(RootsFrom(t0, i + 1))
        invariant forall x :: x in chain ==> i < x.id < size && x.value == table[x.id].numberPixel
        invariant Pending(Entries(), t0, i) && RootsDone(Entries(), t0, i)
      {
        chain := RankStep(i, chain, t0);
        i := i - 1;
      }
      RootsSameLinks(t0, Entries());
    }

    /** One step of the ranking, for entry `i`, with the entries above `i` done. */
    method RankStep(i: int, chain: seq<ChainNode>, ghost t0: seq<Component>) returns (chain': seq<ChainNode>)
      requires 0 <= i < size && Valid() && WellFormed() && |t0| == size
      requires forall j :: 0 <= j < size ==> table[j].linkTo == t0[j].linkTo
      requires Sorted(chain)
      requires Ids(chain) == multiset(RootsFrom(t0, i + 1))
      requires forall x :: x in chain ==> i < x.id < size && x.value == table[x.id].numberPixel
      requires Pending(Entries(), t0, i) && RootsDone(Entries(), t0, i)
      modifies table
      ensures Valid() && WellFormed()
      ensures forall j :: 0 <= j < size ==> table[j].linkTo == t0[j].linkTo
      ensures Sorted(chain')
      ensures Ids(chain') == multiset(RootsFrom(t0, i))
      ensures forall x :: x in chain' ==> i - 1 < x.id < size && x.value == table[x.id].numberPixel
      ensures Pending(Entries(), t0, i - 1) && RootsDone(Entries(), t0, i - 1)
    {
      RootsStep(t0, i);
      ghost var before := Entries();
      if table[i].linkTo != -1 {
        Absorb(i, chain, t0);
        chain' := chain;
        AbsorbCompletes(before, Entries(), t0, i);
      } else {
        chain' := Settle(i, chain, t0);
        SettleCompletes(before, Entries(), t0, i);
      }
    }

    /**
     * A linked entry adds its coordinate sum and pixel count to its parent's;
     * every other entry stays as it was.
     */
    method Absorb(i: int, chain: seq<ChainNode>, ghost t0: seq<Component>)
      requires 0 <= i < size && Valid() && WellFormed() && |t0| == size && table[i].linkTo != -1
      requires forall j :: 0 <= j < size ==> table[j].linkTo == t0[j].linkTo
      requires forall x :: x in chain ==> i < x.id < size && x.value == table[x.id].numberPixel
      modifies table
      ensures Valid() && WellFormed()
      ensures forall j :: 0 <= j < size ==> table[j].linkTo == t0[j].linkTo
      ensures forall x :: x in chain ==> i - 1 < x.id < size && x.value == table[x.id].numberPixel
      ensures var u := old(table[i].linkTo);
              && 0 <= u < i
              && (forall j :: 0 <= j < size && j != u ==> table[j] == old(table[j]))
              && TallyOf(table[u]) == Plus(old(TallyOf(table[u])), old(TallyOf(table[i])))
    {
      var c := table[i];
      var u := c.linkTo;
      var p := table[u];
      table[u] := p.(sumPixel := Point(p.sumPixel.x + c.sumPixel.x, p.sumPixel.y + c.sumPixel.y),
                     numberPixel := p.numberPixel + c.numberPixel);
    }

    /** A root takes the mean of its coordinates and joins the chain. */
    method Settle(i: int, chain: seq<ChainNode>, ghost t0: seq<Component>) returns (chain': seq<ChainNode>)
      requires 0 <= i < size && Valid() && WellFormed() && |t0| == size && table[i].linkTo == -1
      requires forall j :: 0 <= j < size ==> table[j].linkTo == t0[j].linkTo
      requires Sorted(chain)
      requires Ids(chain) == multiset(RootsFrom(t0, i + 1))
      requires forall x :: x in chain ==> i < x.id < size && x.value == table[x.id].numberPixel
      requires RootsFrom(t0, i) == RootsFrom(t0, i + 1) + {i} && i !in RootsFrom(t0, i + 1)
      modifies table
      ensures Entries() == old(Entries())[i := old(table[i]).(sumPixel := Centroid(old(TallyOf(table[i]))))]
      ensures Valid() && WellFormed()
      ensures forall j :: 0 <= j < size ==> table[j].linkTo == t0[j].linkTo
      ensures Sorted(chain')
      ensures Ids(chain') == multiset(RootsFrom(t0, i))
      ensures forall x :: x in chain' ==> i - 1 < x.id < size && x.value == table[x.id].numberPixel
    {
      var n := table[i].numberPixel;
      SetMean(i);
      var node := ChainNode(n, i);
      InsertSorted(chain, node);
      InsertElements(chain, node);
      IdsOfInsert(chain, node);
      MultisetOfFresh(RootsFrom(t0, i + 1), i);
      chain' := InsertNode(chain, node);
      forall x | x in chain'
        ensures i - 1 < x.id < size && x.value == table[x.id].numberPixel
      {
        if x != node {
          assert x in chain;
        }
      }
    }

    /** `sumPixel` of entry `i` becomes the mean of its pixels' coordinates, rounded down. */
    method SetMean(i: int)
      requires 0 <= i < size && Valid() && WellFormed()
      modifies table
      ensures Valid() && WellFormed()
      ensures forall j :: 0 <= j < size ==>
                table[j].linkTo == old(table[j].linkTo) && table[j].numberPixel == old(table[j].numberPixel)
      ensures table[i].sumPixel == Point(old(table[i].sumPixel.x) / table[i].numberPixel,
                                         old(table[i].sumPixel.y) / table[i].numberPixel)
      ensures Entries() == old(Entries())[i := old(table[i]).(sumPixel := Centroid(old(TallyOf(table[i]))))]
    {
      var c := table[i];
      var n := c.numberPixel;
      table[i] := c.(sumPixel := Point(c.sumPixel.x / n, c.sumPixel.y / n));
    }
  }

  /** Two tables with the same links have the same roots. */
  lemma RootsSameLinks(t: seq<Component>, t': seq<Component>)
    requires |t| == |t'| && forall j :: 0 <= j < |t| ==> t[j].linkTo == t'[j].linkTo
    ensures RootsFrom(t, 0) == RootsFrom(t', 0)
  {
  }

  lemma MultisetOfFresh(a: set<int>, i: int)
    requires i !in a
    ensures multiset(a + {i}) == multiset(a) + multiset{i}
  {
  }

  /** One step of the walk: the insertion point lies past a heavier node. */
  lemma InsertPasses(c: seq<ChainNode>, k: int, node: ChainNode)
    requires 0 <= k < |c| && node.value < c[k].value
    ensures c[..k] + Insert(c[k..], node) == c[..k + 1] + Insert(c[k + 1..], node)
  {
    assert c[k..][0] == c[k] && c[k..][1..] == c[k + 1..];
    assert c[..k + 1] == c[..k] + [c[k]];
  }

  /** The walk along the chain to the insertion point, then the insertion. */
  method InsertNode(c: seq<ChainNode>, node: ChainNode) returns (r: seq<ChainNode>)
    ensures r == Insert(c, node)
  {
    var k := 0;
    while k < |c| && node.value < c[k].value
      invariant 0 <= k <= |c|
      invariant Insert(c, node) == c[..k] + Insert(c[k..], node)
    {
      InsertPasses(c, k, node);
      k := k + 1;
    }
    if k < |c| {
      assert Insert(c[k..], node) == [node] + c[k..] by {
        assert c[k..][0] == c[k];
      }
    }
    r := c[..k] + [node] + c[k..];
  }

  /** `symbolType`, in declaration order. */
  datatype Symbol = NoSymbol | SymbolTurnRight | SymbolTurnLeft | SymbolRaise | SymbolLand | SymbolSpeed | SymbolAltitude

  /** The symbol a decoded landmark type stands for. */
  function SymbolOf(typ: int): (s: Symbol)
    ensures s != SymbolRaise
    ensures s == NoSymbol <==> typ != 1 && typ != 4 && typ != 8 && typ != 29 && typ != 30
  {
    match typ
    case 1 => SymbolLand
    case 4 => SymbolSpeed
    case 8 => SymbolAltitude
    case 29 => SymbolTurnRight
    case 30 => SymbolTurnLeft
    case _ => NoSymbol
  }

  /** The landmark type that encodes each symbol that can be chosen. */
  function TypeOf(s: Symbol): int
    requires s != NoSymbol && s != SymbolRaise
  {
    match s
    case SymbolLand => 1
    case SymbolSpeed => 4
    case SymbolAltitude => 8
    case SymbolTurnRight => 29
    case SymbolTurnLeft => 30
  }

  /** Every symbol but `SYMBOLRAISE` is chosen by exactly one type. */
  lemma SymbolTypes(s: Symbol, typ: int)
    requires s != NoSymbol && s != SymbolRaise
    ensures SymbolOf(TypeOf(s)) == s
    ensures SymbolOf(typ) == s ==> typ == TypeOf(s)
  {
  }

  /** The globals the image interpretation publishes to the flight logic. */
  class Interpretation {
    var symbol: Symbol
    var symbolValue: int

    constructor ()
      ensures symbol == NoSymbol && symbolValue == 0
    {
      symbol := NoSymbol;
      symbolValue := 0;
    }

    /** `symbolChoice(type, value)`: the value is always stored, the symbol is the one the type stands for. */
    method SymbolChoice(typ: int, value: int)
      modifies this
      ensures symbol == SymbolOf(typ) && symbolValue == value
    {
      symbolValue := value;
      if typ == 1 {
        symbol := SymbolLand;
      } else if typ == 4 {
        symbol := SymbolSpeed;
      } else if typ == 8 {
        symbol := SymbolAltitude;
      } else if typ == 29 {
        symbol := SymbolTurnRight;
      } else if typ == 30 {
        symbol := SymbolTurnLeft;
      } else {
        symbol := NoSymbol;
      }
    }
  }

  /** A landmark as `detectLandmark` reports it: type, value, centre (u, v) and mean diagonal in pixels. */
  datatype Landmark = Landmark(typ: int, value: int, u: Dbl, v: Dbl, diag: Dbl)

  /** The values reported when no landmark is found. */
  const NoLandmark := Landmark(0, 0, NaN, NaN, NaN)

  const ErrEmpty := "detectLandmark(): input image must not be empty."
  const ErrType := "detectLandmark(): input image must be of type \"CV_8UC3\"."

  /** The width the image is stretched to: `((cols + 3) / 4) * 4`. */
  function PaddedCols(cols: int): (w: int)
    requires cols >= 0
    ensures w % 4 == 0 && cols <= w < cols + 4
    ensures forall v {:trigger v % 4} :: cols <= v && v % 4 == 0 ==> w <= v
  {
    ((cols + 3) / 4) * 4
  }

  /** Widths that are already a multiple of 4 are kept. */
  lemma PaddedColsKeepsMultiples(cols: int)
    requires cols >= 0 && cols % 4 == 0
    ensures PaddedCols(cols) == cols
  {
  }

  /**
   * `detectLandmark(image, ...)`: the checks of the input image and the size
   * of the stretched copy the detector works on, as (rows, cols).
   */
  function LandmarkInput(image: Mat): (r: Result<(int, int)>)
    requires image.Valid()
    ensures r.Err? <==> image.Empty() || image.typ != GpuRuntime.CV_8UC3
    ensures image.Empty() ==> r == Err(ErrEmpty)
    ensures !image.Empty() && image.typ != GpuRuntime.CV_8UC3 ==> r == Err(ErrType)
    ensures r.Ok? ==> r.value.0 == image.rows && r.value.1 % 4 == 0 && image.cols <= r.value.1 < image.cols + 4
  {
    if image.Empty() then Err(ErrEmpty)
    else if image.typ != GpuRuntime.CV_8UC3 then Err(ErrType)
    else Ok((image.rows, PaddedCols(image.cols)))
  }

  /**
   * The whole of `detectLandmark` with the colour filtering and the symbol
   * check as inputs: `enough` says whether the filter found more pixels of
   * the landmarks' colour than the limit, `check` is what `checkSymbol`
   * makes of the defaults on the stretched image.
   */
  function DetectLandmark(image: Mat, enough: bool, check: Landmark -> Landmark): (r: Result<Landmark>)
    requires image.Valid()
    ensures r.Err? <==> LandmarkInput(image).Err?
    ensures r.Err? ==> r.msg == LandmarkInput(image).msg
    ensures r.Ok? && !enough ==> r.value == NoLandmark
    ensures r.Ok? && enough ==> r.value == check(NoLandmark)
  {
    var size := LandmarkInput(image);
    if size.Err? then Err(size.msg)
    else if enough then Ok(check(NoLandmark))
    else Ok(NoLandmark)
  }
}
