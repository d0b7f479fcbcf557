/** Stable sorting by a total preorder, as Python's `sorted` does it. */
module Sorting {
  function Insert<T>(le: (T, T) -> bool, x: T, s: seq<T>): seq<T> {
    if s == [] || le(x, s[0]) then [x] + s else [s[0]] + Insert(le, x, s[1..])
  }

  /** Later elements first, each new one before its equals: equal keys keep their order. */
  function StableSort<T>(le: (T, T) -> bool, s: seq<T>): seq<T> {
    if s == [] then [] else Insert(le, s[0], StableSort(le, s[1..]))
  }

  ghost predicate TotalPreorder<T(!new)>(le: (T, T) -> bool) {
    && (forall a, b :: le(a, b) || le(b, a))
    && (forall a, b, c :: le(a, b) && le(b, c) ==> le(a, c))
  }

  predicate Sorted<T>(le: (T, T) -> bool, s: seq<T>) {
    forall i, j :: 0 <= i < j < |s| ==> le(s[i], s[j])
  }

  lemma {:induction false} InsertPermutes<T>(le: (T, T) -> bool, x: T, s: seq<T>)
    ensures multiset(Insert(le, x, s)) == multiset{x} + multiset(s)
  {
    if s != [] && !le(x, s[0]) {
      InsertPermutes(le, x, s[1..]);
      assert s == [s[0]] + s[1..];
    }
  }

  lemma {:induction false} SortPermutes<T>(le: (T, T) -> bool, s: seq<T>)
    ensures multiset(StableSort(le, s)) == multiset(s)
  {
    if s != [] {
      SortPermutes(le, s[1..]);
      InsertPermutes(le, s[0], StableSort(le, s[1..]));
      assert s == [s[0]] + s[1..];
    }
  }

  lemma {:induction false} InsertSorted<T(!new)>(le: (T, T) -> bool, x: T, s: seq<T>)
    requires TotalPreorder(le) && Sorted(le, s)
    ensures Sorted(le, Insert(le, x, s))
  {
    if s != [] && !le(x, s[0]) {
      InsertSorted(le, x, s[1..]);
      InsertPermutes(le, x, s[1..]);
      var rest := Insert(le, x, s[1..]);
      forall j | 0 <= j < |rest| ensures le(s[0], rest[j]) {
        assert rest[j] in multiset(rest);
        assert rest[j] == x || rest[j] in s[1..];
      }
    }
  }

  lemma {:induction false} SortSorted<T(!new)>(le: (T, T) -> bool, s: seq<T>)
    requires TotalPreorder(le)
    ensures Sorted(le, StableSort(le, s))
  {
    if s != [] {
      SortSorted(le, s[1..]);
      InsertSorted(le, s[0], StableSort(le, s[1..]));
    }
  }

  lemma {:induction false} InsertIntoFirst<T>(le: (T, T) -> bool, x: T, a: seq<T>, b: seq<T>)
    requires forall y :: y in b ==> le(x, y)
    ensures Insert(le, x, a + b) == Insert(le, x, a) + b
  {
    if a == [] {
      assert a + b == b;
    } else if !le(x, a[0]) {
      assert (a + b)[1..] == a[1..] + b;
      InsertIntoFirst(le, x, a[1..], b);
    }
  }

  lemma {:induction false} InsertIntoSecond<T>(le: (T, T) -> bool, x: T, a: seq<T>, b: seq<T>)
    requires forall y :: y in a ==> !le(x, y)
    ensures Insert(le, x, a + b) == a + Insert(le, x, b)
  {
    if a == [] {
      assert a + b == b;
    } else {
      assert (a + b)[1..] == a[1..] + b;
      InsertIntoSecond(le, x, a[1..], b);
    }
  }

  lemma SortMembers<T>(le: (T, T) -> bool, s: seq<T>)
    ensures forall x :: x in StableSort(le, s) <==> x in s
  {
    SortPermutes(le, s);
    forall x ensures x in StableSort(le, s) <==> x in s {
      assert x in StableSort(le, s) <==> x in multiset(StableSort(le, s));
    }
  }

  /** The elements that tie with `x`, in order. */
  function Ties<T>(le: (T, T) -> bool, x: T, s: seq<T>): seq<T> {
    if s == [] then []
    else TieOf(le, x, s[0]) + Ties(le, x, s[1..])
  }

  function TieOf<T>(le: (T, T) -> bool, x: T, y: T): seq<T> {
    if le(x, y) && le(y, x) then [y] else []
  }

  lemma TiesCons<T>(le: (T, T) -> bool, x: T, head: T, tail: seq<T>)
    ensures Ties(le, x, [head] + tail) == TieOf(le, x, head) + Ties(le, x, tail)
  {
    assert ([head] + tail)[1..] == tail;
  }

  lemma {:induction false} InsertTies<T(!new)>(le: (T, T) -> bool, x: T, y: T, s: seq<T>)
    requires TotalPreorder(le) && Sorted(le, s)
    ensures Ties(le, x, Insert(le, y, s)) == TieOf(le, x, y) + Ties(le, x, s)
  {
    hide Ties;
    if s == [] || le(y, s[0]) {
      TiesCons(le, x, y, s);
    } else {
      InsertTies(le, x, y, s[1..]);
      TiesCons(le, x, s[0], Insert(le, y, s[1..]));
      TiesCons(le, x, s[0], s[1..]);
      assert s == [s[0]] + s[1..];
    }
  }

  lemma {:induction false} TiesAppend<T>(le: (T, T) -> bool, x: T, a: seq<T>, b: seq<T>)
    ensures Ties(le, x, a + b) == Ties(le, x, a) + Ties(le, x, b)
  {
    if a == [] {
      assert a + b == b;
    } else {
      assert a + b == [a[0]] + (a[1..] + b);
      TiesCons(le, x, a[0], a[1..] + b);
      TiesAppend(le, x, a[1..], b);
    }
  }

  lemma {:induction false} TiesMembers<T>(le: (T, T) -> bool, x: T, s: seq<T>)
    ensures forall y :: y in Ties(le, x, s) <==> y in s && le(x, y) && le(y, x)
  {
    if s != [] {
      TiesMembers(le, x, s[1..]);
    }
  }

  /** Stability: any element's ties come out in the order they went in. */
  lemma {:induction false} SortStable<T(!new)>(le: (T, T) -> bool, x: T, s: seq<T>)
    requires TotalPreorder(le)
    ensures Ties(le, x, StableSort(le, s)) == Ties(le, x, s)
  {
    if s != [] {
      SortStable(le, x, s[1..]);
      SortSorted(le, s[1..]);
      InsertTies(le, x, s[0], StableSort(le, s[1..]));
    }
  }

  /** In a sorted list, what is in its first part comes before what is in the rest. */
  lemma SortedAcross<T>(le: (T, T) -> bool, above: seq<T>, below: seq<T>, x: T, y: T)
    requires Sorted(le, above + below) && x in above && y in below
    ensures le(x, y)
  {
    var a :| 0 <= a < |above| && above[a] == x;
    var b :| 0 <= b < |below| && below[b] == y;
    var all := above + below;
    assert all[a] == x && all[|above| + b] == y;
  }

  lemma KeepsOrder<T>(above: seq<T>, below: seq<T>, earlier: seq<T>, later: seq<T>, y: T, x: T)
    requires above + below == earlier + later && y in earlier && x in later && x !in below
    ensures y in above
  {
    var a :| 0 <= a < |earlier| && earlier[a] == y;
    var b :| 0 <= b < |later| && later[b] == x;
    var all := above + below;
    assert all[a] == y && all[|earlier| + b] == x;
  }

  /** Of two ties, `y` before `x`, the sorted list cannot have `x` in its first part and `y` in the rest only. */
  lemma TiesKeepOrder<T(!new)>(
    le: (T, T) -> bool, earlier: seq<T>, later: seq<T>, above: seq<T>, below: seq<T>, y: T, x: T)
    requires TotalPreorder(le) && StableSort(le, earlier + later) == above + below
    requires y in earlier && x in later && x !in below && le(x, y) && le(y, x) && le(x, x)
    ensures y in above
  {
    hide StableSort, Ties, TotalPreorder;
    SortStable(le, x, earlier + later);
    TiesAppend(le, x, earlier, later);
    TiesAppend(le, x, above, below);
    TiesMembers(le, x, earlier);
    TiesMembers(le, x, later);
    TiesMembers(le, x, above);
    TiesMembers(le, x, below);
    KeepsOrder(Ties(le, x, above), Ties(le, x, below), Ties(le, x, earlier), Ties(le, x, later), y, x);
  }
}

/** Recursive XY-cut: the reading order of a page's text blocks. */
module ReadingOrder {
  import opened Common
  import opened Sorting

  datatype Box = Box(x0: real, y0: real, x1: real, y1: real)

  /** `bbox` is None when the block has no list of coordinates. */
  datatype Block = Block(bbox: Option<seq<real>>, text: string)

  datatype Axis = X | Y

  function BoxOf(b: Block): Box {
    match b.bbox
    case None => Box(0.0, 0.0, 0.0, 0.0)
    case Some(c) => if |c| >= 4 then Box(c[0], c[1], c[2], c[3]) else Box(0.0, 0.0, 0.0, 0.0)
  }

  /** Four coordinates or more are left, top, right and bottom; with fewer, or none, the block is at the origin. */
  lemma BoxMeaning(x0: real, y0: real, x1: real, y1: real, more: seq<real>, text: string)
    ensures BoxOf(Block(Some([x0, y0, x1, y1] + more), text)) == Box(x0, y0, x1, y1)
    ensures BoxOf(Block(None, text)) == BoxOf(Block(Some([x0, y0, x1]), text)) == Box(0.0, 0.0, 0.0, 0.0)
  {
  }

  function Lo(axis: Axis, b: Box): real {
    if axis.X? then b.x0 else b.y0
  }

  function Hi(axis: Axis, b: Box): real {
    if axis.X? then b.x1 else b.y1
  }

  function Boxes(blocks: seq<Block>): seq<Box> {
    seq(|blocks|, i requires 0 <= i < |blocks| => BoxOf(blocks[i]))
  }

  predicate ByX0(a: Box, b: Box) {
    a.x0 <= b.x0
  }

  predicate ByY0(a: Box, b: Box) {
    a.y0 <= b.y0
  }

  function Along(axis: Axis): (Box, Box) -> bool {
    if axis.X? then ByX0 else ByY0
  }

  // ---- Finding a split ----

  datatype Gap = Gap(width: real, middle: Option<real>)

  /** The first widest positive gap between one box's far edge and the next box's near edge. */
  function WidestGap(axis: Axis, sorted: seq<Box>): Gap {
    if |sorted| < 2 then Gap(0.0, None)
    else
      var prior := WidestGap(axis, Init(sorted));
      var edge, next := Hi(axis, sorted[|sorted| - 2]), Lo(axis, Last(sorted));
      if next - edge > prior.width then Gap(next - edge, Some((edge + next) / 2.0)) else prior
  }

  function MinimumGap(axis: Axis): real {
    if axis.X? then 20.0 else 5.0
  }

  function SplitPoint(axis: Axis, boxes: seq<Box>): Option<real> {
    var gap := WidestGap(axis, StableSort(Along(axis), boxes));
    if gap.width > MinimumGap(axis) then gap.middle else None
  }

  method FindSplit(axis: Axis, boxes: seq<Box>) returns (split: Option<real>)
    ensures split == SplitPoint(axis, boxes)
  {
    SortPermutes(Along(axis), boxes);
    var sorted := StableSort(Along(axis), boxes);
    SameLength(sorted, boxes);
    if |boxes| < 2 {
      return None;
    }
    hide StableSort;
    var bestGap, bestSplit: Option<real> := 0.0, None;
    for i := 0 to |sorted| - 1
      invariant Gap(bestGap, bestSplit) == WidestGap(axis, sorted[..i + 1])
    {
      var edge, next := Hi(axis, sorted[i]), Lo(axis, sorted[i + 1]);
      assert Init(sorted[..i + 2]) == sorted[..i + 1];
      if next - edge > bestGap {
        bestGap, bestSplit := next - edge, Some((edge + next) / 2.0);
      }
    }
    assert sorted[..|sorted|] == sorted;
    split := if bestGap > MinimumGap(axis) then bestSplit else None;
  }

  lemma SameLength<T>(a: seq<T>, b: seq<T>)
    requires multiset(a) == multiset(b)
    ensures |a| == |b|
  {
    assert |multiset(a)| == |multiset(b)|;
  }

  method FindHorizontalSplit(boxes: seq<Box>) returns (split: Option<real>)
    ensures split == SplitPoint(Y, boxes)
  {
    split := FindSplit(Y, boxes);
  }

  method FindVerticalSplit(boxes: seq<Box>) returns (split: Option<real>)
    ensures split == SplitPoint(X, boxes)
  {
    split := FindSplit(X, boxes);
  }

  lemma WidestGapGrows(axis: Axis, sorted: seq<Box>)
    requires |sorted| >= 2
    ensures var prior, g := WidestGap(axis, Init(sorted)), WidestGap(axis, sorted);
      && (g == prior || (GapAt(axis, sorted, |sorted| - 2, g) && g.middle.Some? && g.width > prior.width))
      && g.width >= prior.width
      && Lo(axis, sorted[|sorted| - 1]) - Hi(axis, sorted[|sorted| - 2]) <= g.width
  {
  }

  lemma GapAtInit(axis: Axis, sorted: seq<Box>, i: int, g: Gap)
    requires sorted != [] && GapAt(axis, Init(sorted), i, g)
    ensures GapAt(axis, sorted, i, g)
  {
  }

  /** Where the widest gap lies, and that no neighbouring gap is wider. */
  lemma {:induction false} WidestGapMeaning(axis: Axis, sorted: seq<Box>)
    ensures var g := WidestGap(axis, sorted);
      && g.width >= 0.0
      && (forall i :: 0 <= i < |sorted| - 1 ==> Lo(axis, sorted[i + 1]) - Hi(axis, sorted[i]) <= g.width)
      && (g.middle.Some? <==> g.width > 0.0)
      && (g.middle.Some? ==> exists i :: GapAt(axis, sorted, i, g))
  {
    if |sorted| >= 2 {
      WidestGapMeaning(axis, Init(sorted));
      WidestGapGrows(axis, sorted);
      hide WidestGap, Lo, Hi, GapAt;
      var prior, g := WidestGap(axis, Init(sorted)), WidestGap(axis, sorted);
      if g == prior && g.middle.Some? {
        var i :| GapAt(axis, Init(sorted), i, prior);
        GapAtInit(axis, sorted, i, g);
      }
    }
  }

  predicate GapAt(axis: Axis, sorted: seq<Box>, i: int, g: Gap) {
    && 0 <= i < |sorted| - 1
    && g.width == Lo(axis, sorted[i + 1]) - Hi(axis, sorted[i])
    && g.middle == Some((Hi(axis, sorted[i]) + Lo(axis, sorted[i + 1])) / 2.0)
  }

  // ---- The cut ----

  function Before(axis: Axis, cut: real, blocks: seq<Block>): (part: seq<Block>)
    ensures |part| <= |blocks|
  {
    if blocks == [] then []
    else (if Lo(axis, BoxOf(blocks[0])) < cut then [blocks[0]] else []) + Before(axis, cut, blocks[1..])
  }

  function From(axis: Axis, cut: real, blocks: seq<Block>): (part: seq<Block>)
    ensures |part| + |Before(axis, cut, blocks)| == |blocks|
  {
    if blocks == [] then []
    else (if Lo(axis, BoxOf(blocks[0])) < cut then [] else [blocks[0]]) + From(axis, cut, blocks[1..])
  }

  predicate Splits(axis: Axis, blocks: seq<Block>) {
    var cut := SplitPoint(axis, Boxes(blocks));
    cut.Some? && Before(axis, cut.value, blocks) != [] && From(axis, cut.value, blocks) != []
  }

  /** The sort key reads the raw coordinates; a block without any sorts at the origin. */
  function Top(b: Block): real {
    if b.bbox.Some? && |b.bbox.value| >= 2 then b.bbox.value[1] else 0.0
  }

  function Left(b: Block): real {
    if b.bbox.Some? && |b.bbox.value| >= 1 then b.bbox.value[0] else 0.0
  }

  predicate TopLeft(a: Block, b: Block) {
    Top(a) < Top(b) || (Top(a) == Top(b) && Left(a) <= Left(b))
  }

  function XyCut(blocks: seq<Block>): seq<Block>
    decreases |blocks|
  {
    if |blocks| <= 1 then blocks
    else if Splits(Y, blocks) then
      var cut := SplitPoint(Y, Boxes(blocks)).value;
      XyCut(Before(Y, cut, blocks)) + XyCut(From(Y, cut, blocks))
    else if Splits(X, blocks) then
      var cut := SplitPoint(X, Boxes(blocks)).value;
      XyCut(Before(X, cut, blocks)) + XyCut(From(X, cut, blocks))
    else StableSort(TopLeft, blocks)
  }

  lemma {:induction false} CutPermutes(axis: Axis, cut: real, blocks: seq<Block>)
    ensures multiset(Before(axis, cut, blocks)) + multiset(From(axis, cut, blocks)) == multiset(blocks)
  {
    if blocks != [] {
      CutPermutes(axis, cut, blocks[1..]);
      assert blocks == [blocks[0]] + blocks[1..];
    }
  }

  /** Nothing is lost, added or duplicated. */
  lemma {:induction false} XyCutPermutes(blocks: seq<Block>)
    ensures multiset(XyCut(blocks)) == multiset(blocks)
    decreases |blocks|
  {
    if |blocks| > 1 {
      if Splits(Y, blocks) {
        var cut := SplitPoint(Y, Boxes(blocks)).value;
        CutPermutes(Y, cut, blocks);
        XyCutPermutes(Before(Y, cut, blocks));
        XyCutPermutes(From(Y, cut, blocks));
      } else if Splits(X, blocks) {
        var cut := SplitPoint(X, Boxes(blocks)).value;
        CutPermutes(X, cut, blocks);
        XyCutPermutes(Before(X, cut, blocks));
        XyCutPermutes(From(X, cut, blocks));
      } else {
        SortPermutes(TopLeft, blocks);
      }
    }
  }

  // ---- Every split found is proper ----

  predicate Upright(axis: Axis, blocks: seq<Block>) {
    forall i :: 0 <= i < |blocks| ==> Lo(axis, BoxOf(blocks[i])) <= Hi(axis, BoxOf(blocks[i]))
  }

  lemma {:induction false} CutMembers(axis: Axis, cut: real, blocks: seq<Block>)
    ensures forall b :: b in Before(axis, cut, blocks) <==> b in blocks && Lo(axis, BoxOf(b)) < cut
    ensures forall b :: b in From(axis, cut, blocks) <==> b in blocks && Lo(axis, BoxOf(b)) >= cut
  {
    if blocks != [] {
      CutMembers(axis, cut, blocks[1..]);
    }
  }

  /** A found split lies strictly between one block's far edge and another's near edge, wider apart than the minimum. */
  lemma SplitSeparates(axis: Axis, blocks: seq<Block>) returns (near: Block, far: Block)
    requires SplitPoint(axis, Boxes(blocks)).Some?
    ensures near in blocks && far in blocks
    ensures Hi(axis, BoxOf(near)) < SplitPoint(axis, Boxes(blocks)).value < Lo(axis, BoxOf(far))
    ensures Lo(axis, BoxOf(far)) - Hi(axis, BoxOf(near)) > MinimumGap(axis)
  {
    var boxes := Boxes(blocks);
    var sorted := StableSort(Along(axis), boxes);
    WidestGapMeaning(axis, sorted);
    SortMembers(Along(axis), boxes);
    var i :| GapAt(axis, sorted, i, WidestGap(axis, sorted));
    assert sorted[i] in boxes && sorted[i + 1] in boxes;
    var m :| 0 <= m < |blocks| && boxes[m] == sorted[i];
    var n :| 0 <= n < |blocks| && boxes[n] == sorted[i + 1];
    near, far := blocks[m], blocks[n];
  }

  /** For boxes that are the right way round, every split found leaves blocks on both sides. */
  lemma SplitIsProper(axis: Axis, blocks: seq<Block>)
    requires Upright(axis, blocks) && SplitPoint(axis, Boxes(blocks)).Some?
    ensures Splits(axis, blocks)
  {
    var near, far := SplitSeparates(axis, blocks);
    CutMembers(axis, SplitPoint(axis, Boxes(blocks)).value, blocks);
  }

  // ---- The order of rows and columns ----

  /** No block beyond the cut comes before one that is not. */
  predicate InOrder(axis: Axis, cut: real, s: seq<Block>) {
    forall p, q :: 0 <= p < q < |s| && Lo(axis, BoxOf(s[q])) < cut ==> Lo(axis, BoxOf(s[p])) < cut
  }

  lemma SidesInOrder(axis: Axis, cut: real, split: real, above: seq<Block>, below: seq<Block>)
    requires InOrder(axis, cut, above) && InOrder(axis, cut, below)
    requires forall b :: b in above ==> Lo(axis, BoxOf(b)) < split
    requires forall b :: b in below ==> Lo(axis, BoxOf(b)) >= split
    ensures InOrder(axis, cut, above + below)
  {
    var s := above + below;
    forall p, q | 0 <= p < q < |s| && Lo(axis, BoxOf(s[q])) < cut ensures Lo(axis, BoxOf(s[p])) < cut {
      if p < |above| <= q {
        assert s[p] in above && s[q] in below;
      }
    }
  }

  lemma SameMembers(a: seq<Block>, b: seq<Block>)
    requires multiset(a) == multiset(b)
    ensures forall c :: c in a <==> c in b
  {
    forall c ensures c in a <==> c in b {
      assert c in a <==> c in multiset(a);
    }
  }

  lemma XyCutMembers(blocks: seq<Block>)
    ensures forall b :: b in XyCut(blocks) <==> b in blocks
  {
    XyCutPermutes(blocks);
    SameMembers(XyCut(blocks), blocks);
  }

  /** Wherever the recursion cuts, down or across the page, one side is read before the other. */
  lemma CutSidesInOrder(blocks: seq<Block>)
    requires |blocks| > 1
    ensures Splits(Y, blocks) ==> InOrder(Y, SplitPoint(Y, Boxes(blocks)).value, XyCut(blocks))
    ensures !Splits(Y, blocks) && Splits(X, blocks) ==> InOrder(X, SplitPoint(X, Boxes(blocks)).value, XyCut(blocks))
  {
    var axis := if Splits(Y, blocks) then Y else X;
    if Splits(axis, blocks) {
      var cut := SplitPoint(axis, Boxes(blocks)).value;
      CutMembers(axis, cut, blocks);
      XyCutMembers(Before(axis, cut, blocks));
      XyCutMembers(From(axis, cut, blocks));
      assert XyCut(blocks) == XyCut(Before(axis, cut, blocks)) + XyCut(From(axis, cut, blocks));
      hide XyCut, Before, From, Splits, SplitPoint, Lo, BoxOf;
      SidesInOrder(axis, cut, cut, XyCut(Before(axis, cut, blocks)), XyCut(From(axis, cut, blocks)));
    }
  }

  /** The blocks on the two sides stand apart: by more than 20 across the page, by more than 5 down it. */
  ghost predicate Parted(axis: Axis, cut: real, blocks: seq<Block>) {
    forall a, b :: a in blocks && b in blocks && Lo(axis, BoxOf(a)) < cut <= Lo(axis, BoxOf(b)) ==>
                     Lo(axis, BoxOf(b)) - Hi(axis, BoxOf(a)) > if axis.X? then 20.0 else 5.0
  }

  ghost predicate OnBothSides(axis: Axis, cut: real, blocks: seq<Block>) {
    && (exists b :: b in blocks && Lo(axis, BoxOf(b)) < cut)
    && (exists b :: b in blocks && Lo(axis, BoxOf(b)) >= cut)
  }

  lemma {:induction false} Crossing(axis: Axis, cut: real, sorted: seq<Box>, i: nat, j: nat) returns (k: nat)
    requires i < j < |sorted| && Lo(axis, sorted[i]) < cut <= Lo(axis, sorted[j])
    ensures i <= k < j && Lo(axis, sorted[k]) < cut <= Lo(axis, sorted[k + 1])
  {
    if Lo(axis, sorted[j - 1]) < cut {
      k := j - 1;
    } else {
      k := Crossing(axis, cut, sorted, i, j - 1);
    }
  }

  lemma AlongTotal(axis: Axis)
    ensures TotalPreorder(Along(axis))
    ensures forall a, b :: Along(axis)(a, b) <==> Lo(axis, a) <= Lo(axis, b)
  {
  }

  lemma BoxListed(blocks: seq<Block>, b: Block)
    requires b in blocks
    ensures BoxOf(b) in Boxes(blocks)
  {
    var m :| 0 <= m < |blocks| && blocks[m] == b;
    assert Boxes(blocks)[m] == BoxOf(b);
  }

  /** Somewhere along the axis the sorted boxes step over the cut. */
  lemma StepsOver(axis: Axis, cut: real, sorted: seq<Box>, near: Box, far: Box) returns (k: nat)
    requires Sorted(Along(axis), sorted) && near in sorted && far in sorted
    requires Lo(axis, near) < cut <= Lo(axis, far)
    ensures k + 1 < |sorted| && Lo(axis, sorted[k]) < cut <= Lo(axis, sorted[k + 1])
  {
    AlongTotal(axis);
    hide Along, Lo, TotalPreorder;
    var i :| 0 <= i < |sorted| && sorted[i] == near;
    var j :| 0 <= j < |sorted| && sorted[j] == far;
    k := Crossing(axis, cut, sorted, i, j);
  }

  /** Blocks that stand apart, and are the right way round, are split. */
  lemma PartedSplits(axis: Axis, cut: real, blocks: seq<Block>)
    requires Upright(axis, blocks) && Parted(axis, cut, blocks) && OnBothSides(axis, cut, blocks)
    ensures Splits(axis, blocks)
  {
    var boxes := Boxes(blocks);
    var sorted := StableSort(Along(axis), boxes);
    AlongTotal(axis);
    SortSorted(Along(axis), boxes);
    SortMembers(Along(axis), boxes);
    WidestGapMeaning(axis, sorted);
    assert SplitPoint(axis, boxes) == if WidestGap(axis, sorted).width > MinimumGap(axis)
                                      then WidestGap(axis, sorted).middle else None;
    hide StableSort, Along, Lo, BoxOf, TotalPreorder, WidestGap, Boxes, Sorted, Upright, Parted, Splits, SplitPoint;
    hide GapAt;
    var near :| near in blocks && Lo(axis, BoxOf(near)) < cut;
    var far :| far in blocks && Lo(axis, BoxOf(far)) >= cut;
    BoxListed(blocks, near);
    BoxListed(blocks, far);
    var k := StepsOver(axis, cut, sorted, BoxOf(near), BoxOf(far));
    GapCrossed(axis, cut, blocks, sorted, k);
    SplitIsProper(axis, blocks);
  }

  lemma GapCrossed(axis: Axis, cut: real, blocks: seq<Block>, sorted: seq<Box>, k: nat)
    requires Parted(axis, cut, blocks) && (forall b :: b in sorted ==> b in Boxes(blocks))
    requires k + 1 < |sorted| && Lo(axis, sorted[k]) < cut <= Lo(axis, sorted[k + 1])
    ensures Lo(axis, sorted[k + 1]) - Hi(axis, sorted[k]) > if axis.X? then 20.0 else 5.0
  {
    var boxes := Boxes(blocks);
    assert sorted[k] in boxes && sorted[k + 1] in boxes;
    var m :| 0 <= m < |blocks| && boxes[m] == sorted[k];
    var n :| 0 <= n < |blocks| && boxes[n] == sorted[k + 1];
    assert blocks[m] in blocks && blocks[n] in blocks;
  }

  lemma PartedPart(axis: Axis, cut: real, blocks: seq<Block>, part: seq<Block>)
    requires Parted(axis, cut, blocks) && Upright(axis, blocks) && forall b :: b in part ==> b in blocks
    ensures Parted(axis, cut, part) && Upright(axis, part)
  {
    forall i | 0 <= i < |part| ensures Lo(axis, BoxOf(part[i])) <= Hi(axis, BoxOf(part[i])) {
      assert part[i] in part;
      var j :| 0 <= j < |blocks| && blocks[j] == part[i];
    }
  }

  lemma OneSideInOrder(axis: Axis, cut: real, s: seq<Block>)
    requires !OnBothSides(axis, cut, s)
    ensures InOrder(axis, cut, s)
  {
    forall p, q | 0 <= p < q < |s| && Lo(axis, BoxOf(s[q])) < cut ensures Lo(axis, BoxOf(s[p])) < cut {
      assert s[p] in s && s[q] in s;
    }
  }

  /** When the page is parted down from top to bottom, what is above is read before what is below, columns or not. */
  lemma {:induction false} RowsInOrder(cut: real, blocks: seq<Block>)
    requires Upright(Y, blocks) && Parted(Y, cut, blocks)
    ensures InOrder(Y, cut, XyCut(blocks))
    decreases |blocks|
  {
    XyCutMembers(blocks);
    if !OnBothSides(Y, cut, blocks) {
      OneSideInOrder(Y, cut, XyCut(blocks));
    } else {
      PartedSplits(Y, cut, blocks);
      var split := SplitPoint(Y, Boxes(blocks)).value;
      var above, below := Before(Y, split, blocks), From(Y, split, blocks);
      CutMembers(Y, split, blocks);
      assert |above| > 0 && |below| > 0 && XyCut(blocks) == XyCut(above) + XyCut(below);
      hide XyCut, Before, From, Splits, SplitPoint, Lo, BoxOf, Upright, Parted;
      PartedPart(Y, cut, blocks, above);
      PartedPart(Y, cut, blocks, below);
      RowsInOrder(cut, above);
      RowsInOrder(cut, below);
      XyCutMembers(above);
      XyCutMembers(below);
      SidesInOrder(Y, cut, split, XyCut(above), XyCut(below));
    }
  }

  /** No two blocks stand more than a line gap apart, one below the other. */
  ghost predicate OneRow(blocks: seq<Block>) {
    forall a, b :: a in blocks && b in blocks ==> BoxOf(b).y0 - BoxOf(a).y1 <= 5.0
  }

  lemma OneRowNeverSplits(blocks: seq<Block>)
    requires OneRow(blocks)
    ensures !Splits(Y, blocks)
  {
    if SplitPoint(Y, Boxes(blocks)).Some? {
      var near, far := SplitSeparates(Y, blocks);
    }
  }

  /** When no cut down the page is possible, of any columns that stand apart the left one is read before the right. */
  lemma {:induction false} ColumnsInOrder(cut: real, blocks: seq<Block>)
    requires OneRow(blocks) && Upright(X, blocks) && Parted(X, cut, blocks)
    ensures InOrder(X, cut, XyCut(blocks))
    decreases |blocks|
  {
    XyCutMembers(blocks);
    if !OnBothSides(X, cut, blocks) {
      OneSideInOrder(X, cut, XyCut(blocks));
    } else {
      OneRowNeverSplits(blocks);
      PartedSplits(X, cut, blocks);
      var split := SplitPoint(X, Boxes(blocks)).value;
      var left, right := Before(X, split, blocks), From(X, split, blocks);
      CutMembers(X, split, blocks);
      assert |left| > 0 && |right| > 0 && XyCut(blocks) == XyCut(left) + XyCut(right);
      hide XyCut, Before, From, Splits, SplitPoint, Lo, BoxOf, Upright, Parted;
      PartedPart(X, cut, blocks, left);
      PartedPart(X, cut, blocks, right);
      ColumnsInOrder(cut, left);
      ColumnsInOrder(cut, right);
      XyCutMembers(left);
      XyCutMembers(right);
      SidesInOrder(X, cut, split, XyCut(left), XyCut(right));
    }
  }

  /** In particular a line in two columns is read from left to right, in whatever order its blocks come. */
  lemma LeftIsReadFirst()
    ensures var left := Block(Some([0.0, 0.0, 100.0, 10.0]), "left");
            var right := Block(Some([150.0, 0.0, 250.0, 10.0]), "right");
            XyCut([left, right]) == [left, right] && XyCut([right, left]) == [left, right]
  {
    var left := Block(Some([0.0, 0.0, 100.0, 10.0]), "left");
    var right := Block(Some([150.0, 0.0, 250.0, 10.0]), "right");
    ReadInOrder(X, 150.0, left, right);
    ReadInOrder(X, 150.0, right, left);
  }

  /** And a page of two lines from top to bottom. */
  lemma TopIsReadFirst()
    ensures var top := Block(Some([0.0, 0.0, 100.0, 10.0]), "top");
            var bottom := Block(Some([0.0, 20.0, 100.0, 30.0]), "bottom");
            XyCut([top, bottom]) == [top, bottom] && XyCut([bottom, top]) == [top, bottom]
  {
    var top := Block(Some([0.0, 0.0, 100.0, 10.0]), "top");
    var bottom := Block(Some([0.0, 20.0, 100.0, 30.0]), "bottom");
    ReadInOrder(Y, 20.0, top, bottom);
    ReadInOrder(Y, 20.0, bottom, top);
  }

  lemma ReadInOrder(axis: Axis, cut: real, a: Block, b: Block)
    requires Upright(axis, [a, b]) && Parted(axis, cut, [a, b]) && (axis.X? ==> OneRow([a, b]))
    ensures Lo(axis, BoxOf(a)) < cut <= Lo(axis, BoxOf(b)) ==> XyCut([a, b]) == [a, b]
    ensures Lo(axis, BoxOf(b)) < cut <= Lo(axis, BoxOf(a)) ==> XyCut([a, b]) == [b, a]
  {
    var s := XyCut([a, b]);
    XyCutPermutes([a, b]);
    if axis.X? {
      ColumnsInOrder(cut, [a, b]);
    } else {
      RowsInOrder(cut, [a, b]);
    }
    hide XyCut, Lo, BoxOf, Upright, Parted, OneRow;
    TwoOf(s, a, b);
    assert Lo(axis, BoxOf(s[1])) < cut ==> Lo(axis, BoxOf(s[0])) < cut;
  }

  lemma TwoOf(s: seq<Block>, a: Block, b: Block)
    requires multiset(s) == multiset([a, b])
    ensures s == [a, b] || s == [b, a]
  {
    assert |multiset(s)| == |s| && |multiset([a, b])| == 2;
    assert s == [s[0], s[1]];
    assert multiset([a, b]) == multiset{a, b};
    assert s[0] in multiset(s) && s[1] in multiset(s);
    if s[0] == a {
      assert multiset(s) - multiset{a} == multiset{s[1]} && multiset{a, b} - multiset{a} == multiset{b};
      assert s[1] in multiset{b};
    } else {
      assert s[0] == b;
      assert multiset(s) - multiset{b} == multiset{s[1]} && multiset{a, b} - multiset{b} == multiset{a};
      assert s[1] in multiset{a};
    }
  }

  /** What no cut takes apart is read line by line: by the top of each block, and on one height from left to right. */
  lemma UncutIsReadByLine(blocks: seq<Block>, p: nat, q: nat)
    requires OneRow(blocks) && OneColumn(blocks) && p < q < |XyCut(blocks)|
    requires forall b :: b in blocks ==> b.bbox.Some? && |b.bbox.value| >= 2
    ensures XyCut(blocks)[p].bbox.Some? && XyCut(blocks)[q].bbox.Some?
    ensures var a, b := XyCut(blocks)[p].bbox.value, XyCut(blocks)[q].bbox.value;
            |a| >= 2 && |b| >= 2 && (a[1] < b[1] || (a[1] == b[1] && a[0] <= b[0]))
  {
    OneRowNeverSplits(blocks);
    OneColumnNeverSplits(blocks);
    XyCutMembers(blocks);
    assert XyCut(blocks)[p] in blocks && XyCut(blocks)[q] in blocks;
    if |blocks| > 1 {
      TopLeftTotal();
      SortSorted(TopLeft, blocks);
      assert TopLeft(XyCut(blocks)[p], XyCut(blocks)[q]);
    }
  }

  // ---- One column is a plain sort ----

  /** No two blocks stand more than a column gap apart. */
  ghost predicate OneColumn(blocks: seq<Block>) {
    forall a, b :: a in blocks && b in blocks ==> BoxOf(b).x0 - BoxOf(a).x1 <= 20.0
  }

  lemma OneColumnNeverSplits(blocks: seq<Block>)
    requires OneColumn(blocks)
    ensures SplitPoint(X, Boxes(blocks)).None?
  {
    if SplitPoint(X, Boxes(blocks)).Some? {
      var near, far := SplitSeparates(X, blocks);
    }
  }

  lemma OneColumnPart(blocks: seq<Block>, part: seq<Block>)
    requires OneColumn(blocks) && forall b :: b in part ==> b in blocks
    ensures OneColumn(part)
  {
  }

  /** The block at `i` sorts before the one at `j`, or ties with it and comes first. */
  predicate SortsBefore(blocks: seq<Block>, i: nat, j: nat)
    requires i < |blocks| && j < |blocks|
  {
    TopLeft(blocks[i], blocks[j]) && (TopLeft(blocks[j], blocks[i]) ==> i < j)
  }

  /** Every block above the cut sorts before every block below it. */
  predicate CutAgrees(cut: real, blocks: seq<Block>) {
    forall i, j :: 0 <= i < |blocks| && 0 <= j < |blocks| ==>
                     Lo(Y, BoxOf(blocks[i])) < cut <= Lo(Y, BoxOf(blocks[j])) ==> SortsBefore(blocks, i, j)
  }

  /** All cuts that the recursion makes down the page agree with the sort. */
  predicate CutsAgree(blocks: seq<Block>)
    decreases |blocks|
  {
    |blocks| > 1 && Splits(Y, blocks) ==>
      var cut := SplitPoint(Y, Boxes(blocks)).value;
      CutAgrees(cut, blocks) && CutsAgree(Before(Y, cut, blocks)) && CutsAgree(From(Y, cut, blocks))
  }

  lemma SortCons(b: Block, rest: seq<Block>)
    ensures StableSort(TopLeft, [b] + rest) == Insert(TopLeft, b, StableSort(TopLeft, rest))
  {
    assert ([b] + rest)[1..] == rest;
  }

  lemma CutCons(cut: real, b: Block, rest: seq<Block>)
    ensures Before(Y, cut, [b] + rest) == (if Lo(Y, BoxOf(b)) < cut then [b] else []) + Before(Y, cut, rest)
    ensures From(Y, cut, [b] + rest) == (if Lo(Y, BoxOf(b)) < cut then [] else [b]) + From(Y, cut, rest)
  {
    assert ([b] + rest)[1..] == rest;
  }

  lemma SortedCutMembers(cut: real, blocks: seq<Block>)
    ensures forall c :: c in StableSort(TopLeft, Before(Y, cut, blocks)) <==> c in blocks && Lo(Y, BoxOf(c)) < cut
    ensures forall c :: c in StableSort(TopLeft, From(Y, cut, blocks)) <==> c in blocks && Lo(Y, BoxOf(c)) >= cut
  {
    CutMembers(Y, cut, blocks);
    SortMembers(TopLeft, Before(Y, cut, blocks));
    SortMembers(TopLeft, From(Y, cut, blocks));
  }

  /** The sorted blocks above the cut, then the sorted blocks below it. */
  function SortedApart(cut: real, blocks: seq<Block>): seq<Block> {
    StableSort(TopLeft, Before(Y, cut, blocks)) + StableSort(TopLeft, From(Y, cut, blocks))
  }

  lemma AgreesTail(cut: real, b: Block, rest: seq<Block>)
    requires CutAgrees(cut, [b] + rest)
    ensures CutAgrees(cut, rest)
    ensures forall c :: c in rest && Lo(Y, BoxOf(b)) < cut <= Lo(Y, BoxOf(c)) ==> TopLeft(b, c)
    ensures forall c :: c in rest && Lo(Y, BoxOf(c)) < cut <= Lo(Y, BoxOf(b)) ==> !TopLeft(b, c)
  {
    var all := [b] + rest;
    forall i, j | 0 <= i < |rest| && 0 <= j < |rest| && Lo(Y, BoxOf(rest[i])) < cut <= Lo(Y, BoxOf(rest[j]))
      ensures SortsBefore(rest, i, j)
    {
      assert SortsBefore(all, i + 1, j + 1);
    }
    forall c | c in rest && Lo(Y, BoxOf(b)) < cut <= Lo(Y, BoxOf(c)) ensures TopLeft(b, c) {
      var j :| 0 <= j < |rest| && rest[j] == c;
      assert SortsBefore(all, 0, j + 1);
    }
    forall c | c in rest && Lo(Y, BoxOf(c)) < cut <= Lo(Y, BoxOf(b)) ensures !TopLeft(b, c) {
      var i :| 0 <= i < |rest| && rest[i] == c;
      assert SortsBefore(all, i + 1, 0);
    }
  }

  lemma {:induction false} AgreeingCutSorts(cut: real, blocks: seq<Block>)
    requires CutAgrees(cut, blocks)
    ensures StableSort(TopLeft, blocks) == SortedApart(cut, blocks)
  {
    if blocks != [] {
      hide Insert, StableSort, Before, From, Lo, BoxOf, TopLeft, CutAgrees;
      var b, rest := blocks[0], blocks[1..];
      assert blocks == [b] + rest;
      AgreesTail(cut, b, rest);
      AgreeingCutSorts(cut, rest);
      SortedCutMembers(cut, rest);
      var above, below := StableSort(TopLeft, Before(Y, cut, rest)), StableSort(TopLeft, From(Y, cut, rest));
      CutCons(cut, b, rest);
      SortCons(b, rest);
      if Lo(Y, BoxOf(b)) < cut {
        SortCons(b, Before(Y, cut, rest));
        InsertIntoFirst(TopLeft, b, above, below);
        assert [] + From(Y, cut, rest) == From(Y, cut, rest);
      } else {
        SortCons(b, From(Y, cut, rest));
        InsertIntoSecond(TopLeft, b, above, below);
        assert [] + Before(Y, cut, rest) == Before(Y, cut, rest);
      }
    }
  }

  lemma TopLeftTotal()
    ensures TotalPreorder(TopLeft)
  {
  }

  lemma SplitAt<T>(s: seq<T>, j: nat, i: nat)
    requires j < i < |s|
    ensures s[..i] + s[i..] == s && s[j] in s[..i] && s[i] in s[i..]
  {
    assert s[..i][j] == s[j] && s[i..][0] == s[i];
  }

  lemma TopLeftReflexive(b: Block)
    ensures TopLeft(b, b)
  {
  }

  /** Of two tied blocks on different sides, the one above the cut comes first if the cut agrees with the sort. */
  lemma TiesInOrder(cut: real, blocks: seq<Block>, i: nat, j: nat)
    requires StableSort(TopLeft, blocks) == SortedApart(cut, blocks)
    requires i < |blocks| && j < |blocks| && Lo(Y, BoxOf(blocks[i])) < cut <= Lo(Y, BoxOf(blocks[j]))
    requires TopLeft(blocks[i], blocks[j]) && TopLeft(blocks[j], blocks[i])
    ensures i < j
  {
    var x, y := blocks[i], blocks[j];
    TopLeftTotal();
    TopLeftReflexive(x);
    SortedCutMembers(cut, blocks);
    hide StableSort, Before, From, Lo, BoxOf, TotalPreorder, TopLeft;
    if j < i {
      var earlier, later := blocks[..i], blocks[i..];
      SplitAt(blocks, j, i);
      TiesKeepOrder(TopLeft, earlier, later, StableSort(TopLeft, Before(Y, cut, blocks)),
                    StableSort(TopLeft, From(Y, cut, blocks)), y, x);
      assert false;
    }
  }

  lemma SortingCutAgrees(cut: real, blocks: seq<Block>)
    requires StableSort(TopLeft, blocks) == SortedApart(cut, blocks)
    ensures CutAgrees(cut, blocks)
  {
    TopLeftTotal();
    SortSorted(TopLeft, blocks);
    SortedCutMembers(cut, blocks);
    var above, below := StableSort(TopLeft, Before(Y, cut, blocks)), StableSort(TopLeft, From(Y, cut, blocks));
    hide StableSort, Before, From, Lo, BoxOf, TotalPreorder, TopLeft, Sorted;
    forall i, j | 0 <= i < |blocks| && 0 <= j < |blocks| && Lo(Y, BoxOf(blocks[i])) < cut <= Lo(Y, BoxOf(blocks[j]))
      ensures SortsBefore(blocks, i, j)
    {
      SortedAcross(TopLeft, above, below, blocks[i], blocks[j]);
      if TopLeft(blocks[j], blocks[i]) {
        TiesInOrder(cut, blocks, i, j);
      }
    }
  }

  lemma {:induction false} CutAppend(cut: real, a: seq<Block>, b: seq<Block>)
    ensures Before(Y, cut, a + b) == Before(Y, cut, a) + Before(Y, cut, b)
    ensures From(Y, cut, a + b) == From(Y, cut, a) + From(Y, cut, b)
  {
    if a == [] {
      assert a + b == b;
      assert [] + Before(Y, cut, b) == Before(Y, cut, b) && [] + From(Y, cut, b) == From(Y, cut, b);
    } else {
      hide Before, From, Lo, BoxOf;
      var head, tail := a[0], a[1..];
      assert a == [head] + tail;
      ConcatAssociates([head], tail, b);
      CutCons(cut, head, tail + b);
      CutCons(cut, head, tail);
      CutAppend(cut, tail, b);
      var above := if Lo(Y, BoxOf(head)) < cut then [head] else [];
      var below := if Lo(Y, BoxOf(head)) < cut then [] else [head];
      ConcatAssociates(above, Before(Y, cut, tail), Before(Y, cut, b));
      ConcatAssociates(below, From(Y, cut, tail), From(Y, cut, b));
    }
  }

  lemma {:induction false} OneSided(cut: real, blocks: seq<Block>)
    ensures (forall b :: b in blocks ==> Lo(Y, BoxOf(b)) < cut) ==>
              Before(Y, cut, blocks) == blocks && From(Y, cut, blocks) == []
    ensures (forall b :: b in blocks ==> Lo(Y, BoxOf(b)) >= cut) ==>
              Before(Y, cut, blocks) == [] && From(Y, cut, blocks) == blocks
  {
    if blocks != [] {
      assert blocks == [blocks[0]] + blocks[1..] && blocks[0] in blocks;
      CutCons(cut, blocks[0], blocks[1..]);
      OneSided(cut, blocks[1..]);
    }
  }

  lemma {:induction false} CutOfInsert(cut: real, b: Block, s: seq<Block>)
    requires Sorted(TopLeft, s)
    ensures Before(Y, cut, Insert(TopLeft, b, s))
         == if Lo(Y, BoxOf(b)) < cut then Insert(TopLeft, b, Before(Y, cut, s)) else Before(Y, cut, s)
    ensures From(Y, cut, Insert(TopLeft, b, s))
         == if Lo(Y, BoxOf(b)) < cut then From(Y, cut, s) else Insert(TopLeft, b, From(Y, cut, s))
  {
    hide Before, From, Lo, BoxOf;
    if s == [] || TopLeft(b, s[0]) {
      assert forall c :: c in s ==> TopLeft(b, c);
      CutMembers(Y, cut, s);
      CutCons(cut, b, s);
      InsertFirst(b, s);
      InsertFirst(b, Before(Y, cut, s));
      InsertFirst(b, From(Y, cut, s));
      hide TopLeft, Insert;
      assert [] + Before(Y, cut, s) == Before(Y, cut, s) && [] + From(Y, cut, s) == From(Y, cut, s);
    } else {
      var head, tail := s[0], s[1..];
      assert s == [head] + tail;
      InsertAfter(b, head, tail);
      InsertAfter(b, head, Before(Y, cut, tail));
      InsertAfter(b, head, From(Y, cut, tail));
      hide TopLeft, Insert;
      CutOfInsert(cut, b, tail);
      CutCons(cut, head, tail);
      CutCons(cut, head, Insert(TopLeft, b, tail));
      NothingBefore(Before(Y, cut, tail));
      NothingBefore(From(Y, cut, tail));
      NothingBefore(Insert(TopLeft, b, Before(Y, cut, tail)));
      NothingBefore(Insert(TopLeft, b, From(Y, cut, tail)));
    }
  }

  lemma NothingBefore(s: seq<Block>)
    ensures [] + s == s
  {
  }

  lemma InsertFirst(b: Block, s: seq<Block>)
    requires forall c :: c in s ==> TopLeft(b, c)
    ensures Insert(TopLeft, b, s) == [b] + s
  {
  }

  lemma InsertAfter(b: Block, head: Block, tail: seq<Block>)
    requires !TopLeft(b, head)
    ensures Insert(TopLeft, b, [head] + tail) == [head] + Insert(TopLeft, b, tail)
  {
    assert ([head] + tail)[1..] == tail;
  }

  /** Sorting the blocks on one side is taking that side of the sorted blocks. */
  lemma {:induction false} CutOfSort(cut: real, blocks: seq<Block>)
    ensures Before(Y, cut, StableSort(TopLeft, blocks)) == StableSort(TopLeft, Before(Y, cut, blocks))
    ensures From(Y, cut, StableSort(TopLeft, blocks)) == StableSort(TopLeft, From(Y, cut, blocks))
  {
    if blocks != [] {
      hide Before, From, Lo, BoxOf, Insert, TopLeft;
      var b, rest := blocks[0], blocks[1..];
      assert blocks == [b] + rest;
      CutOfSort(cut, rest);
      TopLeftTotal();
      SortSorted(TopLeft, rest);
      CutOfInsert(cut, b, StableSort(TopLeft, rest));
      CutCons(cut, b, rest);
      hide StableSort;
      SortCons(b, rest);
      SortCons(b, Before(Y, cut, rest));
      SortCons(b, From(Y, cut, rest));
      assert [] + Before(Y, cut, rest) == Before(Y, cut, rest) && [] + From(Y, cut, rest) == From(Y, cut, rest);
    }
  }

  /** What the recursion returns for the two sides is, if sorted together, each side sorted. */
  lemma SidesOfSorted(cut: real, blocks: seq<Block>, above: seq<Block>, below: seq<Block>)
    requires above + below == StableSort(TopLeft, blocks)
    requires multiset(above) == multiset(Before(Y, cut, blocks)) && multiset(below) == multiset(From(Y, cut, blocks))
    ensures above == StableSort(TopLeft, Before(Y, cut, blocks))
    ensures below == StableSort(TopLeft, From(Y, cut, blocks))
  {
    SameMembers(above, Before(Y, cut, blocks));
    SameMembers(below, From(Y, cut, blocks));
    CutMembers(Y, cut, blocks);
    hide Before, From, Lo, BoxOf, StableSort;
    CutOfSort(cut, blocks);
    CutAppend(cut, above, below);
    OneSided(cut, above);
    OneSided(cut, below);
    assert above + [] == above && [] + below == below;
  }

  /**
   * When no column gap exceeds the minimum, the reading order is the stable sort by (top, left) exactly when every
   * cut the recursion makes agrees with that sort.
   */
  lemma {:induction false} OneColumnIsPlainSortIff(blocks: seq<Block>)
    requires OneColumn(blocks)
    ensures XyCut(blocks) == StableSort(TopLeft, blocks) <==> CutsAgree(blocks)
    decreases |blocks|
  {
    if |blocks| == 1 {
      assert blocks == [blocks[0]];
    } else if |blocks| > 1 {
      OneColumnNeverSplits(blocks);
      if Splits(Y, blocks) {
        var cut := SplitPoint(Y, Boxes(blocks)).value;
        var above, below := Before(Y, cut, blocks), From(Y, cut, blocks);
        assert XyCut(blocks) == XyCut(above) + XyCut(below);
        assert CutsAgree(blocks) <==> CutAgrees(cut, blocks) && CutsAgree(above) && CutsAgree(below);
        CutMembers(Y, cut, blocks);
        OneColumnPart(blocks, above);
        OneColumnPart(blocks, below);
        OneColumnIsPlainSortIff(above);
        OneColumnIsPlainSortIff(below);
        XyCutPermutes(above);
        XyCutPermutes(below);
        hide XyCut, CutsAgree, CutAgrees, StableSort, Before, From, OneColumn;
        if XyCut(blocks) == StableSort(TopLeft, blocks) {
          SidesOfSorted(cut, blocks, XyCut(above), XyCut(below));
          SortingCutAgrees(cut, blocks);
        } else if CutAgrees(cut, blocks) {
          AgreeingCutSorts(cut, blocks);
        }
      }
    }
  }

  /** The sort key and the box agree; so they do when a coordinate list has all four entries. */
  predicate SameTops(blocks: seq<Block>) {
    forall b :: b in blocks ==> Top(b) == BoxOf(b).y0
  }

  lemma {:induction false} SameTopsAgree(blocks: seq<Block>)
    requires SameTops(blocks)
    ensures CutsAgree(blocks)
    decreases |blocks|
  {
    if |blocks| > 1 && Splits(Y, blocks) {
      var cut := SplitPoint(Y, Boxes(blocks)).value;
      CutMembers(Y, cut, blocks);
      SameTopsAgree(Before(Y, cut, blocks));
      SameTopsAgree(From(Y, cut, blocks));
      hide Splits, SplitPoint, Before, From;
      assert CutAgrees(cut, blocks);
    }
  }

  /** So it is for blocks with full coordinate lists, or without any. */
  lemma OneColumnIsPlainSort(blocks: seq<Block>)
    requires OneColumn(blocks) && forall b :: b in blocks ==> b.bbox.None? || |b.bbox.value| >= 4
    ensures XyCut(blocks) == StableSort(TopLeft, blocks)
  {
    SameTopsAgree(blocks);
    OneColumnIsPlainSortIff(blocks);
  }

  /** It is not for a list of two coordinates: cut as if it were at the origin, sorted by what it says. */
  lemma ShortListIsMisplaced()
    ensures var short, full := Block(Some([0.0, 100.0]), "b"), Block(Some([0.0, 10.0, 5.0, 20.0]), "a");
            && OneColumn([short, full])
            && XyCut([short, full]) == [short, full] && StableSort(TopLeft, [short, full]) == [full, short]
  {
    var short, full := Block(Some([0.0, 100.0]), "b"), Block(Some([0.0, 10.0, 5.0, 20.0]), "a");
    var blocks := [short, full];
    var boxes := Boxes(blocks);
    assert boxes == [Box(0.0, 0.0, 0.0, 0.0), Box(0.0, 10.0, 5.0, 20.0)];
    assert boxes[1..] == [boxes[1]] && [boxes[1]][1..] == [];
    assert StableSort(ByY0, [boxes[1]]) == [boxes[1]];
    assert StableSort(ByY0, boxes) == boxes;
    assert WidestGap(Y, Init(boxes)) == Gap(0.0, None);
    assert SplitPoint(Y, boxes) == Some(5.0);
    assert blocks[1..] == [full] && [full][1..] == [] && [short][1..] == [];
    assert Before(Y, 5.0, [full]) == [] && From(Y, 5.0, [full]) == [full];
    assert Before(Y, 5.0, blocks) == [short] && From(Y, 5.0, blocks) == [full];
    assert StableSort(TopLeft, [full]) == [full];
    assert Insert(TopLeft, short, [full]) == [full] + Insert(TopLeft, short, [full][1..]) == [full, short];
  }
}
