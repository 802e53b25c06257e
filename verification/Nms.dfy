/** SCRFD post-processing (service/mobilefaceswap.py): greedy suppression of overlapping boxes, and the
    split of one batch's output rows by image. */
module Nms {

  // ---- Overlap -----------------------------------------------------------------------------------

  datatype Box = Box(x1: real, y1: real, x2: real, y2: real, score: real)

  const LIMIT := 0.4
  const TINY := 0.000_000_000_001

  function Max(a: real, b: real): real {
    if a < b then b else a
  }

  function Min(a: real, b: real): real {
    if a < b then a else b
  }

  function Area(b: Box): real {
    (b.x2 - b.x1 + 1.0) * (b.y2 - b.y1 + 1.0)
  }

  function Overlap(a: Box, b: Box): real {
    Max(0.0, Min(a.x2, b.x2) - Max(a.x1, b.x1) + 1.0) * Max(0.0, Min(a.y2, b.y2) - Max(a.y1, b.y1) + 1.0)
  }

  function Iou(a: Box, b: Box): real {
    Overlap(a, b) / Max(Area(a) + Area(b) - Overlap(a, b), TINY)
  }

  lemma IouIsSymmetric(a: Box, b: Box)
    ensures Iou(a, b) == Iou(b, a)
  {
    assert Overlap(a, b) == Overlap(b, a);
  }

  /** A box with whole coordinates as the pixels it includes, its last column and row among them. */
  datatype Pixel = Pixel(x: int, y: int)

  datatype Span = Span(left: int, top: int, right: int, bottom: int) {

    function Pixels(): (s: set<Pixel>)
      ensures forall p: Pixel :: p in s <==> left <= p.x <= right && top <= p.y <= bottom
    {
      assert forall p: Pixel :: p == Pixel(p.x, p.y);
      set x, y | left <= x <= right && top <= y <= bottom :: Pixel(x, y)
    }

    function Scored(score: real): Box {
      Box(left as real, top as real, right as real, bottom as real, score)
    }
  }

  /** Numbers in an inclusive range. */
  function Count(low: int, high: int): nat {
    if low <= high then high - low + 1 else 0
  }

  lemma {:induction false} RowCount(s: Span)
    requires s.top == s.bottom
    ensures |s.Pixels()| == Count(s.left, s.right)
    decreases Count(s.left, s.right)
  {
    if s.left <= s.right {
      var fewer := s.(right := s.right - 1);
      RowCount(fewer);
      assert s.Pixels() == fewer.Pixels() + {Pixel(s.right, s.top)};
    } else {
      assert s.Pixels() == {};
    }
  }

  lemma {:induction false} PixelCount(s: Span)
    ensures |s.Pixels()| == Count(s.left, s.right) * Count(s.top, s.bottom)
    decreases Count(s.top, s.bottom)
  {
    if s.top <= s.bottom {
      var fewer, row := s.(bottom := s.bottom - 1), s.(top := s.bottom);
      PixelCount(fewer);
      RowCount(row);
      RowsApart(s, fewer, row);
      OneMore(Count(s.left, s.right), Count(s.top, s.bottom - 1));
    } else {
      assert s.Pixels() == {};
    }
  }

  lemma RowsApart(s: Span, fewer: Span, row: Span)
    requires s.top <= s.bottom && fewer == s.(bottom := s.bottom - 1) && row == s.(top := s.bottom)
    ensures |s.Pixels()| == |fewer.Pixels()| + |row.Pixels()|
  {
    assert s.Pixels() == fewer.Pixels() + row.Pixels() && fewer.Pixels() !! row.Pixels();
  }

  lemma OneMore(width: nat, height: nat)
    ensures width * (height + 1) == width * height + width
  {
  }

  /** On whole coordinates the area counts a box's pixels and the overlap those that two boxes share. */
  lemma AreaCountsPixels(a: Span, score: real)
    requires a.left <= a.right && a.top <= a.bottom
    ensures Area(a.Scored(score)) == |a.Pixels()| as real
  {
    PixelCount(a);
  }

  lemma OverlapCountsPixels(a: Span, b: Span, p: real, q: real)
    ensures Overlap(a.Scored(p), b.Scored(q)) == |a.Pixels() * b.Pixels()| as real
  {
    var c := Common(a, b);
    assert a.Pixels() * b.Pixels() == c.Pixels();
    PixelCount(c);
    OverlapIs(a, b, p, q);
  }

  function Common(a: Span, b: Span): Span {
    Span(if a.left < b.left then b.left else a.left, if a.top < b.top then b.top else a.top,
         if b.right < a.right then b.right else a.right, if b.bottom < a.bottom then b.bottom else a.bottom)
  }

  lemma OverlapIs(a: Span, b: Span, p: real, q: real)
    ensures var c := Common(a, b);
            Overlap(a.Scored(p), b.Scored(q)) == (Count(c.left, c.right) * Count(c.top, c.bottom)) as real
  {
    CommonLength(a.left, a.right, b.left, b.right);
    CommonLength(a.top, a.bottom, b.top, b.bottom);
    RealProduct(Count(Common(a, b).left, Common(a, b).right), Count(Common(a, b).top, Common(a, b).bottom));
    hide Max, Min, Count;
  }

  lemma CommonLength(a: int, b: int, c: int, d: int)
    ensures Max(0.0, Min(b as real, d as real) - Max(a as real, c as real) + 1.0)
            == Count(if a < c then c else a, if d < b then d else b) as real
  {
  }

  lemma RealProduct(a: nat, b: nat)
    ensures a as real * b as real == (a * b) as real
  {
  }

  /** So the measure is the share of their joint pixels that two boxes have in common. */
  lemma IouIsSharedPixels(a: Span, b: Span, p: real, q: real)
    requires a.left <= a.right && a.top <= a.bottom && b.left <= b.right && b.top <= b.bottom
    ensures |a.Pixels() + b.Pixels()| > 0
    ensures Iou(a.Scored(p), b.Scored(q)) * |a.Pixels() + b.Pixels()| as real == |a.Pixels() * b.Pixels()| as real
  {
    hide Iou, Area, Overlap;
    var s, t := a.Pixels(), b.Pixels();
    JoinedCount(s, t, Pixel(a.left, a.top));
    AreaCountsPixels(a, p);
    AreaCountsPixels(b, q);
    OverlapCountsPixels(a, b, p, q);
    IouOfCounts(a.Scored(p), b.Scored(q), |s|, |t|, |s * t|);
  }

  lemma JoinedCount(a: set<Pixel>, b: set<Pixel>, p: Pixel)
    requires p in a
    ensures |a + b| == |a| + |b| - |a * b| > 0
  {
    assert p in a + b;
  }

  lemma IouOfCounts(a: Box, b: Box, n: nat, m: nat, common: nat)
    requires Area(a) == n as real && Area(b) == m as real && Overlap(a, b) == common as real && n + m - common > 0
    ensures Iou(a, b) * (n + m - common) as real == common as real
  {
    Quotient(common as real, n + m - common);
    hide Area, Overlap;
  }

  lemma Quotient(part: real, whole: nat)
    requires whole > 0
    ensures Max(whole as real, TINY) == whole as real && part / whole as real * whole as real == part
  {
  }

  predicate Clash(boxes: seq<Box>, i: nat, j: nat)
    requires i < |boxes| && j < |boxes|
  {
    Iou(boxes[i], boxes[j]) > LIMIT
  }

  // ---- The order of the scores ---------------------------------------------------------------------

  predicate Indices(order: seq<nat>, n: nat) {
    forall k :: 0 <= k < |order| ==> order[k] < n
  }

  predicate Distinct(order: seq<nat>) {
    forall i, j :: 0 <= i < j < |order| ==> order[i] != order[j]
  }

  /** Higher scores first; equal scores keep their original order. */
  predicate Before(boxes: seq<Box>, i: nat, j: nat)
    requires i < |boxes| && j < |boxes|
  {
    boxes[i].score > boxes[j].score || (boxes[i].score == boxes[j].score && i < j)
  }

  function Insert(boxes: seq<Box>, order: seq<nat>, i: nat): (r: seq<nat>)
    requires i < |boxes| && Indices(order, |boxes|)
  {
    if order == [] then [i]
    else
      var last := order[|order| - 1];
      if boxes[last].score >= boxes[i].score then order + [i] else Insert(boxes, order[..|order| - 1], i) + [last]
  }

  /** The stable descending order of the first n boxes. */
  function StableOrder(boxes: seq<Box>, n: nat): (order: seq<nat>)
    requires n <= |boxes|
    ensures Indices(order, n)
  {
    if n == 0 then []
    else
      InsertMembers(boxes, StableOrder(boxes, n - 1), n - 1);
      var r := Insert(boxes, StableOrder(boxes, n - 1), n - 1);
      assert forall k :: 0 <= k < |r| ==> r[k] in r;
      r
  }

  lemma {:induction false} InsertMembers(boxes: seq<Box>, order: seq<nat>, i: nat)
    requires i < |boxes| && Indices(order, |boxes|)
    ensures |Insert(boxes, order, i)| == |order| + 1
    ensures forall x :: x in Insert(boxes, order, i) <==> x in order || x == i
  {
    if order != [] {
      var init, last := order[..|order| - 1], order[|order| - 1];
      assert order == init + [last];
      InsertMembers(boxes, init, i);
    }
  }

  ghost predicate Ordered(boxes: seq<Box>, order: seq<nat>)
    requires Indices(order, |boxes|)
  {
    forall j, k :: 0 <= j < k < |order| ==> Before(boxes, order[j], order[k])
  }

  lemma {:induction false} InsertOrdered(boxes: seq<Box>, order: seq<nat>, i: nat)
    requires i < |boxes| && Indices(order, i) && Ordered(boxes, order)
    ensures Indices(Insert(boxes, order, i), |boxes|) && Ordered(boxes, Insert(boxes, order, i))
  {
    InsertMembers(boxes, order, i);
    if order != [] {
      var init, last := order[..|order| - 1], order[|order| - 1];
      InsertOrdered(boxes, init, i);
      InsertMembers(boxes, init, i);
      var r := Insert(boxes, order, i);
      if boxes[last].score < boxes[i].score {
        var front := Insert(boxes, init, i);
        forall j | 0 <= j < |front| ensures Before(boxes, front[j], last) {
          assert front[j] in init || front[j] == i;
        }
      }
    }
  }

  /** The order lists every box once, best score first, ties in their original order. */
  lemma {:induction false} StableOrderIsRight(boxes: seq<Box>, n: nat)
    requires n <= |boxes|
    ensures var order := StableOrder(boxes, n);
            |order| == n && (forall i :: 0 <= i < n ==> i in order) && Ordered(boxes, order) && Distinct(order)
  {
    hide Ordered, Insert, Distinct;
    if n > 0 {
      StableOrderIsRight(boxes, n - 1);
      InsertMembers(boxes, StableOrder(boxes, n - 1), n - 1);
      InsertOrdered(boxes, StableOrder(boxes, n - 1), n - 1);
    } else {
      NothingIsOrdered(boxes);
    }
    OrderedIsDistinct(boxes, StableOrder(boxes, n));
  }

  lemma NothingIsOrdered(boxes: seq<Box>)
    ensures Ordered(boxes, [])
  {
  }

  lemma OrderedIsDistinct(boxes: seq<Box>, order: seq<nat>)
    requires Indices(order, |boxes|) && Ordered(boxes, order)
    ensures Distinct(order)
  {
    forall i, j | 0 <= i < j < |order| ensures order[i] != order[j] {
      assert Before(boxes, order[i], order[j]);
    }
  }

  // ---- Suppression -----------------------------------------------------------------------------------

  /** The rest of the order that does not clash with the box just kept. */
  function Survivors(boxes: seq<Box>, current: nat, rest: seq<nat>): (r: seq<nat>)
    requires current < |boxes| && Indices(rest, |boxes|)
    ensures |r| <= |rest| && Indices(r, |boxes|)
  {
    if rest == [] then []
    else if Clash(boxes, current, rest[0]) then Survivors(boxes, current, rest[1..])
    else [rest[0]] + Survivors(boxes, current, rest[1..])
  }

  function Greedy(boxes: seq<Box>, order: seq<nat>): seq<nat>
    requires Indices(order, |boxes|)
    decreases |order|
  {
    if order == [] then [] else [order[0]] + Greedy(boxes, Survivors(boxes, order[0], order[1..]))
  }

  /** a is b with some elements left out. */
  predicate Sublist(a: seq<nat>, b: seq<nat>) {
    if a == [] then true
    else if b == [] then false
    else if a[0] == b[0] then Sublist(a[1..], b[1..])
    else Sublist(a, b[1..])
  }

  /** What suppression is for: the kept boxes are in score order, none clashes with another, and every
      dropped box clashes with a kept one of better rank. */
  ghost predicate Suppressed(boxes: seq<Box>, order: seq<nat>, keep: seq<nat>)
    requires Indices(order, |boxes|)
  {
    && Sublist(keep, order) && Indices(keep, |boxes|)
    && (forall i, j :: 0 <= i < j < |keep| ==> !Clash(boxes, keep[i], keep[j]))
    && (forall k :: 0 <= k < |order| && order[k] !in keep ==> Dominated(boxes, order, keep, k))
  }

  ghost predicate Dominated(boxes: seq<Box>, order: seq<nat>, keep: seq<nat>, k: nat)
    requires k < |order| && Indices(order, |boxes|)
  {
    exists j :: 0 <= j < k && order[j] in keep && Clash(boxes, order[j], order[k])
  }

  lemma {:induction false} SublistMembers(a: seq<nat>, b: seq<nat>, x: nat)
    requires Sublist(a, b) && x in a
    ensures x in b
  {
    if a[0] == b[0] {
      if x != a[0] {
        assert x in a[1..];
        SublistMembers(a[1..], b[1..], x);
      }
    } else {
      SublistMembers(a, b[1..], x);
    }
  }

  lemma {:induction false} SublistExtends(a: seq<nat>, b: seq<nat>, c: nat)
    requires Sublist(a, b) && c !in b
    ensures Sublist(a, [c] + b)
  {
    assert ([c] + b)[1..] == b;
    if a != [] {
      SublistMembers(a, b, a[0]);
    }
  }

  lemma {:induction false} SublistTrans(a: seq<nat>, b: seq<nat>, c: seq<nat>)
    requires Sublist(a, b) && Sublist(b, c)
    ensures Sublist(a, c)
    decreases |c|
  {
    if a != [] && b != [] {
      if b[0] == c[0] {
        if a[0] == b[0] {
          SublistTrans(a[1..], b[1..], c[1..]);
        } else {
          SublistTrans(a, b[1..], c[1..]);
        }
      } else if a[0] == c[0] {
        SublistTrans(a, b, c[1..]);
        SublistTail(a, c[1..]);
      } else {
        SublistTrans(a, b, c[1..]);
      }
    }
  }

  lemma {:induction false} SublistTail(a: seq<nat>, b: seq<nat>)
    requires a != [] && Sublist(a, b)
    ensures Sublist(a[1..], b)
    decreases |b|
  {
    if a[0] == b[0] {
      if a[1..] != [] && a[1] == b[0] {
        SublistTail(a[1..], b[1..]);
      }
    } else {
      SublistTail(a, b[1..]);
      if a[1..] != [] && a[1] == b[0] {
        SublistTail(a[1..], b[1..]);
      }
    }
  }

  lemma {:induction false} SurvivorsAre(boxes: seq<Box>, current: nat, rest: seq<nat>)
    requires current < |boxes| && Indices(rest, |boxes|) && Distinct(rest)
    ensures var s := Survivors(boxes, current, rest);
            && Sublist(s, rest) && Distinct(s)
            && forall x :: x in s <==> x in rest && !Clash(boxes, current, x)
  {
    if rest != [] {
      var tail := rest[1..];
      SurvivorsAre(boxes, current, tail);
      var s := Survivors(boxes, current, tail);
      assert rest == [rest[0]] + tail && rest[0] !in tail;
      if Clash(boxes, current, rest[0]) {
        SublistExtends(s, tail, rest[0]);
      }
    }
  }

  /** Leaving elements out does not change the relative order of the others. */
  lemma {:induction false} SublistKeepsOrder(a: seq<nat>, b: seq<nat>, i: nat, k: nat, x: nat) returns (j: nat)
    requires Sublist(a, b) && Distinct(b) && i < |a| && k < |b| && a[i] == b[k] && x in a[..i]
    ensures j < k && b[j] == x
  {
    if a[0] == b[0] {
      if x == a[0] {
        j := 0;
        if k == 0 {
          SublistMembers(a[1..], b[1..], a[1..][i - 1]);
          assert false;
        }
      } else {
        assert x in a[1..][..i - 1] by { assert a[..i] == [a[0]] + a[1..][..i - 1]; }
        if k == 0 {
          SublistMembers(a[1..], b[1..], a[1..][i - 1]);
          assert false;
        } else {
          j := SublistKeepsOrder(a[1..], b[1..], i - 1, k - 1, x);
          j := j + 1;
        }
      }
    } else {
      if k == 0 {
        SublistMembers(a, b[1..], a[i]);
        assert false;
      } else {
        j := SublistKeepsOrder(a, b[1..], i, k - 1, x);
        j := j + 1;
      }
    }
  }

  lemma BestIsFree(boxes: seq<Box>, order: seq<nat>, keep: seq<nat>)
    requires order != [] && Indices(order, |boxes|) && Distinct(order)
    requires Suppressed(boxes, Survivors(boxes, order[0], order[1..]), keep)
    ensures forall j :: 0 <= j < |keep| ==> !Clash(boxes, order[0], keep[j])
  {
    hide Clash, Dominated;
    var left := Survivors(boxes, order[0], order[1..]);
    SurvivorsAre(boxes, order[0], order[1..]);
    forall j | 0 <= j < |keep| ensures !Clash(boxes, order[0], keep[j]) {
      SublistMembers(keep, left, keep[j]);
    }
  }

  lemma BestLeads(boxes: seq<Box>, order: seq<nat>, keep: seq<nat>)
    requires order != [] && Indices(order, |boxes|) && Distinct(order)
    requires Suppressed(boxes, Survivors(boxes, order[0], order[1..]), keep)
    ensures Sublist([order[0]] + keep, order)
  {
    hide Clash, Dominated;
    SurvivorsAre(boxes, order[0], order[1..]);
    SublistTrans(keep, Survivors(boxes, order[0], order[1..]), order[1..]);
    assert ([order[0]] + keep)[1..] == keep;
  }

  /** One round of suppression: keeping the best box and solving the survivors solves the whole order. */
  lemma KeepBest(boxes: seq<Box>, order: seq<nat>, keep: seq<nat>)
    requires order != [] && Indices(order, |boxes|) && Distinct(order)
    requires Suppressed(boxes, Survivors(boxes, order[0], order[1..]), keep)
    ensures Suppressed(boxes, order, [order[0]] + keep)
  {
    hide Clash, Sublist, Survivors, Dominated, Distinct;
    BestLeads(boxes, order, keep);
    BestIsFree(boxes, order, keep);
    var all := [order[0]] + keep;
    forall i, j | 0 <= i < j < |all| ensures !Clash(boxes, all[i], all[j]) {
      assert all[j] == keep[j - 1] && (i > 0 ==> all[i] == keep[i - 1]);
    }
    forall k | 0 <= k < |order| && order[k] !in all ensures Dominated(boxes, order, all, k) {
      DroppedIsDominated(boxes, order, keep, k);
    }
  }

  lemma DroppedIsDominated(boxes: seq<Box>, order: seq<nat>, keep: seq<nat>, k: nat)
    requires order != [] && Indices(order, |boxes|) && Distinct(order)
    requires Suppressed(boxes, Survivors(boxes, order[0], order[1..]), keep)
    requires k < |order| && order[k] !in [order[0]] + keep
    ensures Dominated(boxes, order, [order[0]] + keep, k)
  {
    hide Clash, Sublist, Survivors;
    var best, rest := order[0], order[1..];
    var left, all := Survivors(boxes, best, rest), [best] + keep;
    SurvivorsAre(boxes, best, rest);
    assert all[0] == best && rest[k - 1] == order[k];
    if Clash(boxes, best, order[k]) {
      assert order[0] in all;
    } else {
      assert order[k] in rest;
      var i :| 0 <= i < |left| && left[i] == order[k];
      assert Dominated(boxes, left, keep, i);
      var j :| 0 <= j < i && left[j] in keep && Clash(boxes, left[j], left[i]);
      var m := SublistKeepsOrder(left, rest, i, k - 1, left[j]);
      assert order[m + 1] == left[j] && left[j] in all;
    }
  }

  lemma {:induction false} GreedyIsSuppressed(boxes: seq<Box>, order: seq<nat>)
    requires Indices(order, |boxes|) && Distinct(order)
    ensures Suppressed(boxes, order, Greedy(boxes, order))
    decreases |order|
  {
    if order != [] {
      var left := Survivors(boxes, order[0], order[1..]);
      SurvivorsAre(boxes, order[0], order[1..]);
      GreedyIsSuppressed(boxes, left);
      KeepBest(boxes, order, Greedy(boxes, left));
    }
  }

  /** What the kept boxes are, in numbers: no two of them overlap by more than 0.4, and every other box
      overlaps by more than that with a kept one of higher score, or of equal score and listed earlier. */
  lemma SuppressedMeans(boxes: seq<Box>, keep: seq<nat>)
    requires Suppressed(boxes, StableOrder(boxes, |boxes|), keep)
    ensures Indices(keep, |boxes|)
    ensures forall i, j :: 0 <= i < j < |keep| ==> Iou(boxes[keep[i]], boxes[keep[j]]) <= 0.4
    ensures forall x: nat :: x < |boxes| && x !in keep ==> exists y :: y in keep && Beats(boxes, y, x)
  {
    hide StableOrder, Iou, Beats, Sublist;
    forall x: nat | x < |boxes| && x !in keep ensures exists y :: y in keep && Beats(boxes, y, x) {
      var y := BeatenBy(boxes, keep, x);
    }
  }

  lemma BeatenBy(boxes: seq<Box>, keep: seq<nat>, x: nat) returns (y: nat)
    requires Suppressed(boxes, StableOrder(boxes, |boxes|), keep) && x < |boxes| && x !in keep
    ensures y in keep && Beats(boxes, y, x)
  {
    var order := StableOrder(boxes, |boxes|);
    StableOrderIsRight(boxes, |boxes|);
    hide StableOrder, Iou, Sublist, Distinct;
    assert x in order;
    var k :| 0 <= k < |order| && order[k] == x;
    assert Dominated(boxes, order, keep, k);
    var j :| 0 <= j < k && order[j] in keep && Clash(boxes, order[j], order[k]);
    assert Before(boxes, order[j], order[k]);
    y := order[j];
  }

  predicate Beats(boxes: seq<Box>, y: nat, x: nat) {
    y < |boxes| && x < |boxes| && Iou(boxes[y], boxes[x]) > 0.4
    && (boxes[x].score < boxes[y].score || (boxes[x].score == boxes[y].score && y < x))
  }

  method Suppress(boxes: seq<Box>) returns (keep: seq<nat>)
    ensures keep == Greedy(boxes, StableOrder(boxes, |boxes|))
    ensures Suppressed(boxes, StableOrder(boxes, |boxes|), keep)
  {
    StableOrderIsRight(boxes, |boxes|);
    GreedyIsSuppressed(boxes, StableOrder(boxes, |boxes|));
    hide Suppressed, StableOrder;
    var order := StableOrder(boxes, |boxes|);
    keep := [];
    while order != []
      invariant Indices(order, |boxes|)
      invariant keep + Greedy(boxes, order) == Greedy(boxes, StableOrder(boxes, |boxes|))
      decreases |order|
    {
      var current, rest := order[0], order[1..];
      keep := keep + [current];
      order := Survivors(boxes, current, rest);
    }
  }

  /** Two solutions keep the same boxes: a box is kept exactly when no better kept box clashes with it. */
  lemma {:induction false} SameKept(boxes: seq<Box>, order: seq<nat>, a: seq<nat>, b: seq<nat>, k: nat)
    requires Indices(order, |boxes|) && Suppressed(boxes, order, a) && Suppressed(boxes, order, b)
    requires k < |order| && Distinct(order)
    ensures order[k] in a <==> order[k] in b
  {
    forall j | 0 <= j < k ensures order[j] in a <==> order[j] in b {
      SameKept(boxes, order, a, b, j);
    }
    hide Suppressed;
    if order[k] in b {
      KeptByBoth(boxes, order, a, b, k);
    }
    if order[k] in a {
      KeptByBoth(boxes, order, b, a, k);
    }
  }

  lemma KeptByBoth(boxes: seq<Box>, order: seq<nat>, a: seq<nat>, b: seq<nat>, k: nat)
    requires Indices(order, |boxes|) && Suppressed(boxes, order, a) && Suppressed(boxes, order, b)
    requires k < |order| && Distinct(order) && order[k] in b
    requires forall j :: 0 <= j < k ==> (order[j] in a <==> order[j] in b)
    ensures order[k] in a
  {
    KeptMeansFree(boxes, order, b, k);
  }

  lemma KeptMeansFree(boxes: seq<Box>, order: seq<nat>, keep: seq<nat>, k: nat)
    requires Indices(order, |boxes|) && Suppressed(boxes, order, keep) && k < |order| && Distinct(order)
             && order[k] in keep
    ensures forall j :: 0 <= j < k && order[j] in keep ==> !Clash(boxes, order[j], order[k])
  {
    forall j | 0 <= j < k && order[j] in keep ensures !Clash(boxes, order[j], order[k]) {
      var p :| 0 <= p < |keep| && keep[p] == order[j];
      var q :| 0 <= q < |keep| && keep[q] == order[k];
      IouIsSymmetric(boxes[order[j]], boxes[order[k]]);
      if p < q {
        assert !Clash(boxes, keep[p], keep[q]);
      } else {
        assert !Clash(boxes, keep[q], keep[p]);
      }
    }
  }

  lemma {:induction false} SameMembersSameList(a: seq<nat>, b: seq<nat>, order: seq<nat>)
    requires Sublist(a, order) && Sublist(b, order) && Distinct(order)
    requires forall x :: x in order ==> (x in a <==> x in b)
    ensures a == b
  {
    if order == [] {
    } else {
      var rest := order[1..];
      assert order[0] !in rest;
      HeadIsFirst(a, order);
      HeadIsFirst(b, order);
      if order[0] in a {
        forall x | x in rest ensures x in a[1..] <==> x in b[1..] {
          assert x in order && (x in a <==> x in [a[0]] + a[1..]) && (x in b <==> x in [b[0]] + b[1..]);
        }
        SameMembersSameList(a[1..], b[1..], rest);
      } else {
        SameMembersSameList(a, b, rest);
      }
    }
  }

  lemma HeadIsFirst(a: seq<nat>, order: seq<nat>)
    requires order != [] && Sublist(a, order) && Distinct(order)
    ensures order[0] in a <==> a != [] && a[0] == order[0]
    ensures if order[0] in a then Sublist(a[1..], order[1..]) else Sublist(a, order[1..])
  {
    if order[0] in a && a[0] != order[0] {
      SublistMembers(a, order[1..], order[0]);
    }
  }

  /** The kept boxes are the only solution, whatever the boxes and scores are. */
  lemma SuppressionIsUnique(boxes: seq<Box>, keep: seq<nat>)
    ensures Suppressed(boxes, StableOrder(boxes, |boxes|), keep) <==> keep == Greedy(boxes, StableOrder(boxes, |boxes|))
  {
    var order := StableOrder(boxes, |boxes|);
    StableOrderIsRight(boxes, |boxes|);
    GreedyIsSuppressed(boxes, order);
    var greedy := Greedy(boxes, order);
    if Suppressed(boxes, order, keep) {
      forall x | x in order ensures x in keep <==> x in greedy {
        var k :| 0 <= k < |order| && order[k] == x;
        SameKept(boxes, order, keep, greedy, k);
      }
      SameMembersSameList(keep, greedy, order);
    }
  }

  // ---- Batches -----------------------------------------------------------------------------------------

  const ANCHORS := 2

  /** Scores, distances and landmark offsets at three strides. */
  const HEADS := 9

  /** The detector: the rows of each of its nine output heads, for one image alone and for a batch of images
      at once. */
  datatype Detector<!I, !T, !D> = Detector(rows: I -> seq<seq<T>>, batch: seq<I> -> seq<seq<T>>, tooSmall: I -> bool,
                                           decode: (I, seq<seq<T>>) -> D, nothing: D)

  ghost predicate Shaped<T>(rows: seq<seq<T>>, sizes: seq<nat>) {
    |rows| == |sizes| && forall h :: 0 <= h < |sizes| ==> |rows[h]| == sizes[h]
  }

  /** Every image alone has `sizes[h]` rows at head h. */
  ghost predicate AllShaped<I(!new), T, D>(net: Detector<I, T, D>, sizes: seq<nat>) {
    forall image {:trigger net.rows(image)} :: Shaped(net.rows(image), sizes)
  }

  /** What one head computes for each image alone. */
  ghost function RowsOf<I(!new), T, D>(net: Detector<I, T, D>, images: seq<I>, sizes: seq<nat>,
                                       head: nat): (parts: seq<seq<T>>)
    requires AllShaped(net, sizes) && head < |sizes|
    ensures |parts| == |images| && forall i :: 0 <= i < |parts| ==> |parts[i]| == sizes[head]
  {
    seq(|images|, i requires 0 <= i < |images| && Shaped(net.rows(images[i]), sizes) => net.rows(images[i])[head])
  }

  /** A batch head lists its rows by position, then image, then anchor. */
  function Interleave<T>(parts: seq<seq<T>>, n: nat): seq<T>
    requires |parts| > 0 && n % ANCHORS == 0 && forall i :: 0 <= i < |parts| ==> |parts[i]| == n
  {
    seq(n * |parts|, k requires 0 <= k < n * |parts| => InterleavedRow(parts, n, k))
  }

  function InterleavedRow<T>(parts: seq<seq<T>>, n: nat, k: nat): T
    requires |parts| > 0 && n % ANCHORS == 0 && forall i :: 0 <= i < |parts| ==> |parts[i]| == n
    requires k < n * |parts|
  {
    var (image, row) := Place(k, |parts|);
    PlaceIsIn(k, |parts|, n);
    parts[image][row]
  }

  /** Row k of a batch of b images belongs to this image, as this row. */
  function Place(k: nat, b: nat): (nat, nat)
    requires b > 0
  {
    (k / ANCHORS % b, k / ANCHORS / b * ANCHORS + k % ANCHORS)
  }

  /** Where row `row` of image `image` stands in the batch. */
  function Position(image: nat, row: nat, b: nat): nat {
    (row / ANCHORS * b + image) * ANCHORS + row % ANCHORS
  }

  lemma PlaceIsIn(k: nat, b: nat, n: nat)
    requires b > 0 && n % ANCHORS == 0 && k < n * b
    ensures Place(k, b).0 < b && Place(k, b).1 < n
    ensures Position(Place(k, b).0, Place(k, b).1, b) == k
  {
    var m, half := k / ANCHORS, n / ANCHORS;
    assert n == half * ANCHORS;
    assert m < half * b by { assert k < half * ANCHORS * b == half * b * ANCHORS; }
    var q, image := m / b, m % b;
    assert m == q * b + image;
    assert q < half by { if q >= half { MulMono(half, q, b); } }
  }

  lemma MulMono(a: nat, c: nat, b: nat)
    requires a <= c
    ensures a * b <= c * b
  {
  }

  lemma PositionIsIn(image: nat, row: nat, b: nat, n: nat)
    requires image < b && row < n && n % ANCHORS == 0
    ensures Position(image, row, b) < n * b
    ensures Place(Position(image, row, b), b) == (image, row)
  {
    var q, half := row / ANCHORS, n / ANCHORS;
    var m := q * b + image;
    var k := Position(image, row, b);
    assert k / ANCHORS == m && k % ANCHORS == row % ANCHORS;
    DivMod(q, image, b);
    MulMono(q + 1, half, b);
    assert (q + 1) * b == q * b + b;
    assert m < half * b;
    assert n * b == half * b * ANCHORS;
  }

  lemma DivMod(q: nat, r: nat, b: nat)
    requires r < b
    ensures (q * b + r) / b == q && (q * b + r) % b == r
  {
    var x := q * b + r;
    var q2 := x / b;
    assert x == q2 * b + x % b;
    assert (q2 + 1) * b == q2 * b + b && (q + 1) * b == q * b + b;
    if q2 < q {
      MulMono(q2 + 1, q, b);
    } else if q2 > q {
      MulMono(q + 1, q2, b);
    }
  }

  /** The rows of each of b images, restored from the batch. */
  function Deinterleave<T>(rows: seq<T>, b: nat, n: nat): (parts: seq<seq<T>>)
    requires b > 0 && n % ANCHORS == 0 && |rows| == n * b
    ensures |parts| == b && forall i :: 0 <= i < b ==> |parts[i]| == n
  {
    seq(b, i requires 0 <= i < b => Part(rows, b, n, i))
  }

  function Part<T>(rows: seq<T>, b: nat, n: nat, i: nat): (part: seq<T>)
    requires i < b && n % ANCHORS == 0 && |rows| == n * b
    ensures |part| == n
  {
    seq(n, r requires 0 <= r < n => (PositionIsIn(i, r, b, n); rows[Position(i, r, b)]))
  }

  /** Splitting undoes batching: each image gets back exactly its own rows, in order. */
  lemma SplitUndoesBatch<T>(parts: seq<seq<T>>, n: nat)
    requires |parts| > 0 && n % ANCHORS == 0 && forall i :: 0 <= i < |parts| ==> |parts[i]| == n
    ensures Deinterleave(Interleave(parts, n), |parts|, n) == parts
  {
    var rows := Interleave(parts, n);
    var split := Deinterleave(rows, |parts|, n);
    forall i | 0 <= i < |parts| ensures split[i] == parts[i] {
      forall r | 0 <= r < n ensures split[i][r] == parts[i][r] {
        PositionIsIn(i, r, |parts|, n);
      }
    }
  }

  /** And batching undoes splitting: no row of the batch is lost or used twice. */
  lemma BatchUndoesSplit<T>(rows: seq<T>, b: nat, n: nat)
    requires b > 0 && n % ANCHORS == 0 && |rows| == n * b
    ensures Interleave(Deinterleave(rows, b, n), n) == rows
  {
    var parts := Deinterleave(rows, b, n);
    var batch := Interleave(parts, n);
    forall k | 0 <= k < |rows| ensures batch[k] == rows[k] {
      PlaceIsIn(k, b, n);
    }
  }

  /** A lone image has `sizes[h]` rows at head h, and every head of a batch is the interleaving of them. */
  ghost predicate Batches<I(!new), T, D>(net: Detector<I, T, D>, sizes: seq<nat>) {
    && |sizes| == HEADS && (forall h :: 0 <= h < HEADS ==> sizes[h] % ANCHORS == 0)
    && AllShaped(net, sizes)
    && (forall images {:trigger net.batch(images)} :: images != [] ==> Batched(net, images, sizes))
  }

  ghost predicate Batched<I(!new), T, D>(net: Detector<I, T, D>, images: seq<I>, sizes: seq<nat>)
    requires images != [] && AllShaped(net, sizes) && forall h :: 0 <= h < |sizes| ==> sizes[h] % ANCHORS == 0
  {
    |net.batch(images)| == |sizes|
    && forall h :: 0 <= h < |sizes| ==> net.batch(images)[h] == Interleave(RowsOf(net, images, sizes, h), sizes[h])
  }

  function DetectOne<I, T, D>(net: Detector<I, T, D>, image: I): D {
    if net.tooSmall(image) then net.nothing else net.decode(image, net.rows(image))
  }

  /** Every head of a batch, split by image: `parts[h][i]` are image i's rows of head h. */
  method SplitHeads<I(!new), T, D>(net: Detector<I, T, D>, chunk: seq<I>, outputs: seq<seq<T>>, ghost sizes: seq<nat>)
    returns (parts: seq<seq<seq<T>>>)
    requires chunk != [] && Batches(net, sizes) && outputs == net.batch(chunk)
    ensures |parts| == HEADS && forall h :: 0 <= h < HEADS ==> parts[h] == RowsOf(net, chunk, sizes, h)
  {
    parts := [];
    for h := 0 to |outputs|
      invariant |outputs| == HEADS && |parts| == h
      invariant forall j :: 0 <= j < h ==> parts[j] == RowsOf(net, chunk, sizes, j)
    {
      HeadSplits(net, chunk, sizes, h);
      parts := parts + [Deinterleave(outputs[h], |chunk|, |outputs[h]| / |chunk|)];
    }
  }

  lemma HeadSplits<I(!new), T, D>(net: Detector<I, T, D>, chunk: seq<I>, sizes: seq<nat>, h: nat)
    requires chunk != [] && Batches(net, sizes) && h < HEADS
    ensures var rows, b := net.batch(chunk)[h], |chunk|;
            && |rows| == sizes[h] * b && |rows| / b == sizes[h]
            && Deinterleave(rows, b, sizes[h]) == RowsOf(net, chunk, sizes, h)
  {
    assert Batched(net, chunk, sizes);
    SplitUndoesBatch(RowsOf(net, chunk, sizes, h), sizes[h]);
    DivMod(sizes[h], 0, |chunk|);
  }

  /** The rows of one image, head by head. */
  function HeadsOf<T>(parts: seq<seq<seq<T>>>, index: nat): seq<seq<T>>
    requires forall h :: 0 <= h < |parts| ==> index < |parts[h]|
  {
    seq(|parts|, h requires 0 <= h < |parts| && index < |parts[h]| => parts[h][index])
  }

  lemma HeadsAreOwn<I(!new), T, D>(net: Detector<I, T, D>, chunk: seq<I>, parts: seq<seq<seq<T>>>, sizes: seq<nat>,
                                   index: nat)
    requires Batches(net, sizes) && index < |chunk|
    requires |parts| == HEADS && forall h :: 0 <= h < HEADS ==> parts[h] == RowsOf(net, chunk, sizes, h)
    ensures (forall h :: 0 <= h < |parts| ==> index < |parts[h]|) && HeadsOf(parts, index) == net.rows(chunk[index])
  {
    assert Shaped(net.rows(chunk[index]), sizes);
    forall h | 0 <= h < |parts| ensures index < |parts[h]| && parts[h][index] == net.rows(chunk[index])[h] {
    }
  }

  /** Batched detection gives every image what it would get alone, in the order asked. */
  method DetectMany<I(!new), T, D>(net: Detector<I, T, D>, images: seq<I>, maxBatch: nat, ghost sizes: seq<nat>)
    returns (results: seq<D>)
    requires maxBatch >= 1 && Batches(net, sizes)
    ensures |results| == |images| && forall i :: 0 <= i < |images| ==> results[i] == DetectOne(net, images[i])
  {
    results := [];
    if maxBatch == 1 || exists i :: 0 <= i < |images| && net.tooSmall(images[i]) {
      for i := 0 to |images|
        invariant |results| == i && forall j :: 0 <= j < i ==> results[j] == DetectOne(net, images[j])
      {
        results := results + [DetectOne(net, images[i])];
      }
      return;
    }
    hide Batches;
    var start := 0;
    while start < |images|
      invariant 0 <= start <= |images| && |results| == start
      invariant forall j :: 0 <= j < start ==> results[j] == DetectOne(net, images[j])
    {
      var end := if start + maxBatch <= |images| then start + maxBatch else |images|;
      var chunk := images[start..end];
      var parts := SplitHeads(net, chunk, net.batch(chunk), sizes);
      for index := 0 to |chunk|
        invariant |results| == start + index
        invariant forall j :: 0 <= j < start + index ==> results[j] == DetectOne(net, images[j])
      {
        HeadsAreOwn(net, chunk, parts, sizes, index);
        results := results + [net.decode(chunk[index], HeadsOf(parts, index))];
      }
      start := end;
    }
  }
}
