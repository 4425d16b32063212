/**
  A static search tree over closed intervals: built by halving the intervals sorted by
  start, each node with the largest end below it, so that a query can skip subtrees.
 */
module IntervalTree {
  import opened Text

  /** What an interval carries: the place of its rule in the caller's list. */
  type Data = nat

  datatype Interval = Interval(start: int, end: int, data: Data)

  predicate Overlaps(v: Interval, start: int, end: int) { v.start <= end && start <= v.end }

  // ---- What a query means ----

  /** How many of the intervals overlap the query and carry `d`. */
  function Hits(intervals: seq<Interval>, start: int, end: int, d: Data): nat
  {
    if intervals == [] then 0
    else
      (if Overlaps(intervals[0], start, end) && intervals[0].data == d then 1 else 0)
      + Hits(intervals[1..], start, end, d)
  }

  /** How often `d` is in the list. */
  function Times(s: seq<Data>, d: Data): nat
  {
    if s == [] then 0 else (if s[0] == d then 1 else 0) + Times(s[1..], d)
  }

  function Hit(v: Interval, start: int, end: int): seq<Data>
  {
    if Overlaps(v, start, end) then [v.data] else []
  }

  lemma {:induction false} TimesAppend(a: seq<Data>, b: seq<Data>, d: Data)
    ensures Times(a + b, d) == Times(a, d) + Times(b, d)
  {
    if a == [] {
      assert a + b == b;
    } else {
      assert (a + b)[1..] == a[1..] + b;
      TimesAppend(a[1..], b, d);
    }
  }

  lemma {:induction false} HitsAppend(a: seq<Interval>, b: seq<Interval>, start: int, end: int, d: Data)
    ensures Hits(a + b, start, end, d) == Hits(a, start, end, d) + Hits(b, start, end, d)
  {
    if a == [] {
      assert a + b == b;
    } else {
      assert (a + b)[1..] == a[1..] + b;
      HitsAppend(a[1..], b, start, end, d);
    }
  }

  lemma HitsOfParts(left: seq<Interval>, v: Interval, right: seq<Interval>, start: int, end: int, d: Data)
    ensures Hits(left + [v] + right, start, end, d) ==
            Times(Hit(v, start, end), d) + Hits(left, start, end, d) + Hits(right, start, end, d)
  {
    HitsAppend(left + [v], right, start, end, d);
    HitsAppend(left, [v], start, end, d);
  }

  ghost predicate Sorted(intervals: seq<Interval>)
  {
    forall i, j | 0 <= i < j < |intervals| :: intervals[i].start <= intervals[j].start
  }

  ghost predicate StartsFrom(intervals: seq<Interval>, min: int)
  {
    forall i | 0 <= i < |intervals| :: min <= intervals[i].start
  }

  lemma SortedParts(left: seq<Interval>, v: Interval, right: seq<Interval>)
    requires Sorted(left + [v] + right)
    ensures Sorted(left) && Sorted(right) && StartsFrom(right, v.start)
  {
    SortedSlices(left + [v], right);
    SortedSlices(left, [v]);
    var all := left + [v] + right;
    forall i | 0 <= i < |right|
      ensures v.start <= right[i].start
    {
      assert all[|left|] == v && all[|left| + 1 + i] == right[i];
    }
  }

  lemma SortedSlices(a: seq<Interval>, b: seq<Interval>)
    requires Sorted(a + b)
    ensures Sorted(a) && Sorted(b)
  {
    assert forall i | 0 <= i < |a| :: a[i] == (a + b)[i];
    assert forall i | 0 <= i < |b| :: b[i] == (a + b)[|a| + i];
  }

  // ---- Sorting ----

  function InsertSorted(v: Interval, sorted: seq<Interval>): seq<Interval>
  {
    if sorted == [] || v.start < sorted[0].start then [v] + sorted
    else [sorted[0]] + InsertSorted(v, sorted[1..])
  }

  /** A stable sort by start. */
  function SortByStart(intervals: seq<Interval>): (sorted: seq<Interval>)
    ensures |sorted| == |intervals|
  {
    if intervals == [] then []
    else
      var sorted := SortByStart(intervals[..|intervals| - 1]);
      InsertSortedLength(intervals[|intervals| - 1], sorted);
      InsertSorted(intervals[|intervals| - 1], sorted)
  }

  lemma {:induction false} InsertSortedLength(v: Interval, sorted: seq<Interval>)
    ensures |InsertSorted(v, sorted)| == |sorted| + 1
  {
    if sorted != [] && !(v.start < sorted[0].start) {
      InsertSortedLength(v, sorted[1..]);
    }
  }

  lemma {:induction false} InsertSortedIsSorted(v: Interval, sorted: seq<Interval>, min: int)
    requires Sorted(sorted) && StartsFrom(sorted, min) && min <= v.start
    ensures Sorted(InsertSorted(v, sorted)) && StartsFrom(InsertSorted(v, sorted), min)
  {
    if sorted != [] && !(v.start < sorted[0].start) {
      InsertSortedIsSorted(v, sorted[1..], sorted[0].start);
    }
  }

  lemma {:induction false} InsertSortedHits(v: Interval, sorted: seq<Interval>, start: int, end: int, d: Data)
    ensures Hits(InsertSorted(v, sorted), start, end, d) == Hits([v], start, end, d) + Hits(sorted, start, end, d)
  {
    if sorted == [] || v.start < sorted[0].start {
      HitsAppend([v], sorted, start, end, d);
    } else {
      InsertSortedHits(v, sorted[1..], start, end, d);
      assert InsertSorted(v, sorted)[1..] == InsertSorted(v, sorted[1..]);
    }
  }

  ghost predicate SameHits(a: seq<Interval>, b: seq<Interval>)
  {
    forall start, end, d :: Hits(a, start, end, d) == Hits(b, start, end, d)
  }

  lemma {:induction false} SortByStartKeeps(intervals: seq<Interval>)
    ensures Sorted(SortByStart(intervals)) && SameHits(SortByStart(intervals), intervals)
  {
    if intervals != [] {
      var n := |intervals| - 1;
      var v, before := intervals[n], SortByStart(intervals[..n]);
      SortByStartKeeps(intervals[..n]);
      InsertSortedIsSorted(v, before, if before == [] || v.start < before[0].start then v.start else before[0].start);
      assert intervals == intervals[..n] + [v];
      forall start, end, d
        ensures Hits(SortByStart(intervals), start, end, d) == Hits(intervals, start, end, d)
      {
        InsertSortedHits(v, before, start, end, d);
        HitsAppend(intervals[..n], [v], start, end, d);
      }
    }
  }

  // ---- The shape of a tree ----

  datatype Shape = Leaf | Fork(left: Shape, v: Interval, max: int, right: Shape)

  function Items(s: Shape): seq<Interval>
  {
    match s
    case Leaf => []
    case Fork(left, v, _, right) => Items(left) + [v] + Items(right)
  }

  /** No interval below a node ends after its `max`. */
  ghost predicate MaxBounds(s: Shape)
  {
    match s
    case Leaf => true
    case Fork(left, v, max, right) =>
      && MaxBounds(left) && MaxBounds(right) && v.end <= max
      && (left.Fork? ==> left.max <= max) && (right.Fork? ==> right.max <= max)
  }

  /** What overlaps, node first, then left, then right. */
  function Found(s: Shape, start: int, end: int): seq<Data>
  {
    match s
    case Leaf => []
    case Fork(left, v, _, right) => Hit(v, start, end) + Found(left, start, end) + Found(right, start, end)
  }

  lemma {:induction false} FoundIsHits(s: Shape, start: int, end: int, d: Data)
    ensures Times(Found(s, start, end), d) == Hits(Items(s), start, end, d)
  {
    if s.Fork? {
      FoundIsHits(s.left, start, end, d);
      FoundIsHits(s.right, start, end, d);
      HitsOfParts(Items(s.left), s.v, Items(s.right), start, end, d);
      TimesAppend(Hit(s.v, start, end) + Found(s.left, start, end), Found(s.right, start, end), d);
      TimesAppend(Hit(s.v, start, end), Found(s.left, start, end), d);
    }
  }

  /** Nothing overlaps below a node whose `max` is before the query. */
  lemma {:induction false} NothingBefore(s: Shape, start: int, end: int)
    requires s.Fork? && MaxBounds(s) && s.max < start
    ensures Found(s, start, end) == []
  {
    if s.left.Fork? {
      NothingBefore(s.left, start, end);
    }
    if s.right.Fork? {
      NothingBefore(s.right, start, end);
    }
  }

  /** Nothing overlaps to the right of a node that starts after the query. */
  lemma {:induction false} NothingAfter(s: Shape, start: int, end: int, min: int)
    requires Sorted(Items(s)) && StartsFrom(Items(s), min) && end < min
    ensures Found(s, start, end) == []
  {
    if s.Fork? {
      SortedParts(Items(s.left), s.v, Items(s.right));
      StartsFromParts(Items(s.left), s.v, Items(s.right), min);
      NothingAfter(s.left, start, end, min);
      NothingAfter(s.right, start, end, min);
    }
  }

  lemma StartsFromParts(left: seq<Interval>, v: Interval, right: seq<Interval>, min: int)
    requires StartsFrom(left + [v] + right, min)
    ensures StartsFrom(left, min) && min <= v.start && StartsFrom(right, min)
  {
    var all := left + [v] + right;
    assert forall i | 0 <= i < |left| :: left[i] == all[i];
    assert all[|left|] == v;
    assert forall i | 0 <= i < |right| :: right[i] == all[|left| + 1 + i];
  }

  // ---- The tree ----

  class IntervalNode {
    const start: int
    const end: int
    const data: Data
    var max: int
    var left: IntervalNode?
    var right: IntervalNode?
    ghost var shape: Shape
    ghost var Repr: set<object>

    ghost predicate Valid()
      reads this, Repr
      decreases Repr
    {
      && this in Repr
      && shape.Fork? && shape.v == Interval(start, end, data) && shape.max == max
      && (if left == null then shape.left == Leaf
          else left in Repr && left.Repr <= Repr && this !in left.Repr && left.Valid() && left.shape == shape.left)
      && (if right == null then shape.right == Leaf
          else
            right in Repr && right.Repr <= Repr && this !in right.Repr && right.Valid() && right.shape == shape.right)
    }

    constructor (v: Interval)
      ensures start == v.start && end == v.end && data == v.data && max == v.end && left == null && right == null
    {
      start, end, data, max := v.start, v.end, v.data, v.end;
      left, right := null, null;
      shape, Repr := Leaf, {};
    }

    method Attach(l: IntervalNode?, r: IntervalNode?, max: int)
      requires l != null ==> l.Valid() && this !in l.Repr
      requires r != null ==> r.Valid() && this !in r.Repr
      modifies this
      ensures Valid() && shape == Fork(ShapeOf(l), Interval(start, end, data), max, ShapeOf(r))
      ensures Repr == {this} + ReprOf(l) + ReprOf(r)
    {
      left, right, this.max, shape, Repr :=
        l, r, max, Fork(ShapeOf(l), Interval(start, end, data), max, ShapeOf(r)), {this} + ReprOf(l) + ReprOf(r);
    }
  }

  ghost function ShapeOf(node: IntervalNode?): Shape
    reads node
  {
    if node == null then Leaf else node.shape
  }

  ghost function ReprOf(node: IntervalNode?): set<object>
    reads node
  {
    if node == null then {} else node.Repr
  }

  lemma ForkOfSlices(intervals: seq<Interval>, from: nat, mid: nat, to: nat, left: Shape, right: Shape)
    requires from <= mid < to <= |intervals|
    requires Items(left) == intervals[from..mid] && Items(right) == intervals[mid + 1..to]
    ensures forall max :: Items(Fork(left, intervals[mid], max, right)) == intervals[from..to]
  {
    assert intervals[from..to] == intervals[from..mid] + [intervals[mid]] + intervals[mid + 1..to];
  }

  method LargestEnd(end: int, l: IntervalNode?, r: IntervalNode?) returns (max: int)
    ensures end <= max && (l != null ==> l.max <= max) && (r != null ==> r.max <= max)
    ensures max == end || (l != null && max == l.max) || (r != null && max == r.max)
  {
    max := end;
    if l != null && l.max > max {
      max := l.max;
    }
    if r != null && r.max > max {
      max := r.max;
    }
  }

  method BuildTree(intervals: seq<Interval>, left: int, right: int) returns (node: IntervalNode?)
    requires 0 <= left <= right + 1 <= |intervals|
    ensures node != null ==> node.Valid() && fresh(node.Repr)
    ensures Items(ShapeOf(node)) == intervals[left..right + 1] && MaxBounds(ShapeOf(node))
    decreases right - left + 1
  {
    if left > right {
      return null;
    }
    var mid := (left + right) / 2;
    node := new IntervalNode(intervals[mid]);
    var l := BuildTree(intervals, left, mid - 1);
    var r := BuildTree(intervals, mid + 1, right);
    ForkOfSlices(intervals, left, mid, right + 1, ShapeOf(l), ShapeOf(r));
    Join(node, l, r);
  }

  /** Hangs two trees under a node, with the largest end of all three. */
  method Join(node: IntervalNode, l: IntervalNode?, r: IntervalNode?)
    requires l != null ==> l.Valid() && node !in l.Repr
    requires r != null ==> r.Valid() && node !in r.Repr
    requires MaxBounds(ShapeOf(l)) && MaxBounds(ShapeOf(r))
    modifies node
    ensures node.Valid() && node.Repr == {node} + old(ReprOf(l)) + old(ReprOf(r)) && MaxBounds(node.shape)
    ensures node.shape == Fork(old(ShapeOf(l)), Interval(node.start, node.end, node.data), node.max, old(ShapeOf(r)))
  {
    var max := LargestEnd(node.end, l, r);
    node.Attach(l, r, max);
  }

  method QueryNode(node: IntervalNode?, start: int, end: int, results: seq<Data>) returns (out: seq<Data>)
    requires node != null ==> node.Valid() && MaxBounds(node.shape) && Sorted(Items(node.shape))
    ensures out == results + Found(ShapeOf(node), start, end)
    decreases ReprOf(node), node != null
  {
    out := results;
    if node == null {
      return;
    }
    ghost var s := node.shape;
    SortedParts(Items(s.left), s.v, Items(s.right));
    FoundInOrder(results, s, start, end);
    if node.start <= end && start <= node.end {
      out := out + [node.data];
    }
    assert out == results + Hit(s.v, start, end);
    if node.left != null && node.left.max >= start {
      out := QueryNode(node.left, start, end, out);
    } else if node.left != null {
      NothingBefore(s.left, start, end);
    }
    assert out == results + Hit(s.v, start, end) + Found(s.left, start, end);
    if node.right != null && node.start <= end {
      out := QueryNode(node.right, start, end, out);
    } else if node.right != null {
      NothingAfter(s.right, start, end, node.start);
    }
  }

  lemma FoundInOrder(results: seq<Data>, s: Shape, start: int, end: int)
    requires s.Fork?
    ensures results + Found(s, start, end) ==
            results + Hit(s.v, start, end) + Found(s.left, start, end) + Found(s.right, start, end)
  {
    Regroup(results, Hit(s.v, start, end), Found(s.left, start, end), Found(s.right, start, end));
  }

  lemma Regroup(a: seq<Data>, b: seq<Data>, c: seq<Data>, d: seq<Data>)
    ensures a + (b + c + d) == a + b + c + d
  {
    assert a + (b + c + d) == a + (b + c) + d && a + (b + c) == a + b + c;
  }

  class IntervalTree {
    var intervals: seq<Interval>
    var root: IntervalNode?
    var isBuilt: bool
    /** What was inserted since the last `Clear`, in order. */
    ghost var inserted: seq<Interval>
    ghost var Repr: set<object>

    ghost predicate Valid()
      reads this, Repr
    {
      && this in Repr && SameHits(intervals, inserted)
      && (root != null ==> root in Repr && root.Repr <= Repr && this !in root.Repr && root.Valid())
      && (isBuilt ==> Sorted(intervals) && Items(ShapeOf(root)) == intervals && MaxBounds(ShapeOf(root)))
    }

    constructor ()
      ensures Valid() && fresh(Repr) && inserted == [] && !isBuilt
    {
      intervals, root, isBuilt, inserted := [], null, false, [];
      Repr := {this};
    }

    method Insert(start: int, end: int, data: Data)
      requires Valid()
      modifies this
      ensures Valid() && Repr == old(Repr) && inserted == old(inserted) + [Interval(start, end, data)] && !isBuilt
    {
      SameHitsPush(intervals, inserted, Interval(start, end, data));
      intervals := intervals + [Interval(start, end, data)];
      inserted := inserted + [Interval(start, end, data)];
      isBuilt := false;
    }

    method Build()
      requires Valid()
      modifies this
      ensures Valid() && fresh(Repr - old(Repr)) && inserted == old(inserted) && isBuilt
    {
      if |intervals| == 0 {
        root, isBuilt := null, true;
        return;
      }
      SortByStartKeeps(intervals);
      var sorted := SortByStart(intervals);
      var built := BuildTree(sorted, 0, |sorted| - 1);
      assert sorted[0..|sorted| - 1 + 1] == sorted;
      intervals, root, isBuilt := sorted, built, true;
      Repr := {this} + ReprOf(built);
    }

    /** Exactly the inserted intervals that overlap, each as often as it was inserted; an
        error before the tree is built. */
    method Query(start: int, end: int) returns (out: Option<seq<Data>>)
      requires Valid()
      ensures out.Some? <==> isBuilt
      ensures out.Some? ==> forall d :: Times(out.value, d) == Hits(inserted, start, end, d)
    {
      if !isBuilt {
        return None;
      }
      var results := QueryNode(root, start, end, []);
      assert results == Found(ShapeOf(root), start, end);
      forall d
        ensures Times(results, d) == Hits(inserted, start, end, d)
      {
        FoundIsHits(ShapeOf(root), start, end, d);
      }
      out := Some(results);
    }

    method Clear()
      requires Valid()
      modifies this
      ensures Valid() && Repr == old(Repr) && inserted == [] && !isBuilt
    {
      intervals, root, isBuilt, inserted := [], null, false, [];
    }
  }

  lemma SameHitsPush(a: seq<Interval>, b: seq<Interval>, v: Interval)
    requires SameHits(a, b)
    ensures SameHits(a + [v], b + [v])
  {
    forall start, end, d
      ensures Hits(a + [v], start, end, d) == Hits(b + [v], start, end, d)
    {
      HitsAppend(a, [v], start, end, d);
      HitsAppend(b, [v], start, end, d);
    }
  }
}
