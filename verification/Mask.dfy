/** Protected masks and their feathered edges (service/mosaic.py, _fill_polygons and
    _feathered_mask). `Protected` and `Alpha` are the whole-view definitions; the methods compute
    them only around the protected pixels. */
module Mask {
  import opened Raster
  import opened OpenCv

  const DEFAULT_MASK_MARGIN: nat := 8

  // ---- Whole-view definitions ----------------------------------------------------------

  /** The pixels of the view that fillPoly sets for some polygon. */
  function Filled(cv: Cv, polygons: seq<Polygon>, region: Rect): set<Point> {
    set p | p in region.Points() && (exists polygon :: polygon in polygons && cv.paints(polygon, p))
  }

  /** The filled pixels widened by `pad` fully opaque pixels, over the whole view. */
  function Protected(cv: Cv, polygons: seq<Polygon>, region: Rect, pad: nat): set<Point> {
    Dilate(cv, Filled(cv, polygons, region), pad, region)
  }

  /** Some pixel that a polygon fills lies within `pad` pixels of p. */
  ghost predicate FilledWithin(cv: Cv, polygons: seq<Polygon>, region: Rect, pad: nat, p: Point) {
    exists q, polygon :: region.Has(q) && polygon in polygons && cv.paints(polygon, q) && Dist2(p, q) <= pad * pad
  }

  /** Some pixel that a polygon fills lies near p: within `pad` pixels once p is one column closer. */
  ghost predicate FilledAround(cv: Cv, polygons: seq<Polygon>, region: Rect, pad: nat, p: Point) {
    exists q, polygon :: region.Has(q) && polygon in polygons && cv.paints(polygon, q)
                         && RoundDisc(pad, q.x - p.x, q.y - p.y)
  }

  /** Padding protects every pixel of the view within `pad` pixels of a filled one, and none that is a whole
      column farther. */
  lemma PadIsADisc(cv: Cv, polygons: seq<Polygon>, region: Rect, pad: nat, p: Point)
    requires RootLaw(cv) && RintLaw(cv)
    ensures region.Has(p) && FilledWithin(cv, polygons, region, pad, p) ==> p in Protected(cv, polygons, region, pad)
    ensures p in Protected(cv, polygons, region, pad) ==> region.Has(p) && FilledAround(cv, polygons, region, pad, p)
  {
    if region.Has(p) && FilledWithin(cv, polygons, region, pad, p) {
      var q, polygon :| region.Has(q) && polygon in polygons && cv.paints(polygon, q) && Dist2(p, q) <= pad * pad;
      assert q in Filled(cv, polygons, region);
      DiscIsElliptic(cv, pad, p, q);
    }
    if p in Protected(cv, polygons, region, pad) {
      var q :| q in Filled(cv, polygons, region) && Ellipse(cv, pad, q.x - p.x, q.y - p.y);
      EllipseIsRound(cv, pad, q.x - p.x, q.y - p.y);
      hide Ellipse, RoundDisc;
    }
  }

  function Clip255(r: real): real {
    if r < 0.0 then 0.0 else if r > 255.0 then 255.0 else r
  }

  /** Blend weight at a given distance from the protected area, for margins other than 0 and 8. */
  function Taper(cv: Cv, margin: nat, distance: real): int
    requires margin > 0
  {
    if distance > margin as real then 0
    else cv.rint(Clip255(((margin + 1) as real - distance) * (255.0 / Min(margin, DEFAULT_MASK_MARGIN) as real)))
  }

  /** Blend weight of the 8-pixel morphology, by the distance to the nearest unexpanded pixel. */
  function Morph(cv: Cv, distance: real): int {
    cv.rint((if distance / 8.0 < 1.0 then distance / 8.0 else 1.0) * 255.0)
  }

  /** The weight one distance transform of a view gives, for margins other than 0 and 8. */
  function DistanceWeight(cv: Cv, mask: set<Point>, region: Rect, margin: nat, p: Point): int
    requires margin > 0
  {
    Taper(cv, margin, DistanceTransform(cv, mask, region, p))
  }

  /** The weight the 8-pixel morphology of a view gives. */
  function MorphologyWeight(cv: Cv, mask: set<Point>, region: Rect, p: Point): int {
    if p in mask then 255
    else Morph(cv, DistanceTransform(cv, region.Points() - Dilate(cv, mask, DEFAULT_MASK_MARGIN, region), region, p))
  }

  /** The blend weight of pixel `p` when the whole view is computed at once. */
  function Alpha(cv: Cv, mask: set<Point>, region: Rect, margin: nat, p: Point): int {
    if mask == {} then 0
    else if margin == 0 then (if p in mask then 255 else 0)
    else if margin != DEFAULT_MASK_MARGIN then DistanceWeight(cv, mask, region, margin, p)
    else MorphologyWeight(cv, mask, region, p)
  }

  // ---- Full opacity and range ----------------------------------------------------------

  lemma TaperNearIsOpaque(cv: Cv, margin: nat, distance: real)
    requires RintLaw(cv) && margin > 0
    requires 0.0 <= distance <= (margin + 1 - Min(margin, DEFAULT_MASK_MARGIN)) as real
    ensures Taper(cv, margin, distance) == 255
  {
    var w := Min(margin, DEFAULT_MASK_MARGIN) as real;
    var rest := (margin + 1) as real - distance;
    SteepSlope(rest, w);
    assert distance <= margin as real;
    TaperIs(cv, margin, distance, rest * (255.0 / w));
    assert cv.rint(255 as real) == 255;
    hide Taper;
  }

  lemma TaperIs(cv: Cv, margin: nat, distance: real, r: real)
    requires margin > 0 && distance <= margin as real
    requires r == ((margin + 1) as real - distance) * (255.0 / Min(margin, DEFAULT_MASK_MARGIN) as real)
    ensures Taper(cv, margin, distance) == cv.rint(Clip255(r))
  {
  }

  lemma SteepSlope(rest: real, steps: real)
    requires 0.0 < steps <= rest
    ensures rest * (255.0 / steps) >= 255.0
  {
    var k := 255.0 / steps;
    assert steps * k == 255.0 && k > 0.0;
    assert rest * k == steps * k + (rest - steps) * k;
  }

  /** Every source protected pixel stays fully opaque, for every margin. */
  lemma SourcePixelsAreOpaque(cv: Cv, mask: set<Point>, region: Rect, margin: nat, p: Point)
    requires RootLaw(cv) && RintLaw(cv) && p in mask
    ensures Alpha(cv, mask, region, margin, p) == 255
  {
    if margin != 0 && margin != DEFAULT_MASK_MARGIN {
      NearestIs(p, mask, p);
      RootZero(cv);
      TaperNearIsOpaque(cv, margin, 0.0);
    }
  }

  /** A larger margin extends the fully blurred area: only its outermost 8 pixels taper. */
  lemma OpaqueBand(cv: Cv, mask: set<Point>, region: Rect, margin: nat, p: Point)
    requires RootLaw(cv) && RintLaw(cv) && mask != {} && margin > DEFAULT_MASK_MARGIN
    requires Nearest(p, mask) <= Square(margin + 1 - DEFAULT_MASK_MARGIN)
    ensures Alpha(cv, mask, region, margin, p) == 255
  {
    var n := Nearest(p, mask);
    RootCompare(cv, n, margin + 1 - DEFAULT_MASK_MARGIN);
    RootCompare(cv, n, 0);
    TaperNearIsOpaque(cv, margin, cv.root(n));
  }

  lemma RintRange(cv: Cv, r: real)
    requires RintLaw(cv) && 0.0 <= r <= 255.0
    ensures 0 <= cv.rint(r) <= 255
  {
    assert cv.rint(0 as real) <= cv.rint(r) <= cv.rint(255 as real);
  }

  lemma TaperRange(cv: Cv, margin: nat, distance: real)
    requires RintLaw(cv) && margin > 0
    ensures 0 <= Taper(cv, margin, distance) <= 255
  {
    RintRange(cv, Clip255(((margin + 1) as real - distance) * (255.0 / Min(margin, DEFAULT_MASK_MARGIN) as real)));
  }

  lemma MorphRange(cv: Cv, distance: real)
    requires RintLaw(cv) && distance >= 0.0
    ensures 0 <= Morph(cv, distance) <= 255
  {
    var f := if distance / 8.0 < 1.0 then distance / 8.0 else 1.0;
    assert 0.0 <= f <= 1.0;
    assert 0.0 <= f * 255.0 <= 255.0;
    RintRange(cv, f * 255.0);
  }

  /** Beyond its opaque band a margin fades in equal steps per pixel, to the nearest weight, and is nothing
      beyond the margin. */
  lemma TaperIsARamp(cv: Cv, margin: nat, distance: real)
    requires RintLaw(cv) && margin > 0 && (margin + 1 - Min(margin, DEFAULT_MASK_MARGIN)) as real <= distance
    ensures var weight := Taper(cv, margin, distance) as real;
            if distance > margin as real then weight == 0.0
            else
              var share := ((margin + 1) as real - distance) / Min(margin, DEFAULT_MASK_MARGIN) as real;
              255.0 * share - 0.5 <= weight <= 255.0 * share + 0.5
  {
    if distance <= margin as real {
      var steps := Min(margin, DEFAULT_MASK_MARGIN) as real;
      var rest := (margin + 1) as real - distance;
      Slope(rest, steps);
      var r := rest * (255.0 / steps);
      TaperIs(cv, margin, distance, r);
      hide Taper;
      assert -0.5 <= cv.rint(r) as real - r <= 0.5;
    }
  }

  lemma Slope(rest: real, steps: real)
    requires 0.0 <= rest <= steps && steps > 0.0
    ensures 0.0 <= rest * (255.0 / steps) <= 255.0
    ensures rest * (255.0 / steps) == 255.0 * (rest / steps)
  {
    var k := 255.0 / steps;
    assert steps * k == 255.0;
    assert rest * k <= steps * k;
    var share := rest / steps;
    assert share * steps == rest;
    assert rest * k == share * (steps * k);
  }

  /** The default margin's weight grows by an eighth of full opacity per pixel from the nearest pixel outside
      it, to the nearest weight. */
  lemma MorphIsARamp(cv: Cv, distance: real)
    requires RintLaw(cv) && distance >= 0.0
    ensures distance >= 8.0 ==> Morph(cv, distance) == 255
    ensures distance <= 8.0 ==> -8.0 <= 2.0 * (8.0 * Morph(cv, distance) as real - 255.0 * distance) <= 8.0
  {
    var f := if distance / 8.0 < 1.0 then distance / 8.0 else 1.0;
    assert -0.5 <= cv.rint(f * 255.0) as real - f * 255.0 <= 0.5;
    assert cv.rint(255 as real) == 255;
  }

  lemma AlphaRange(cv: Cv, mask: set<Point>, region: Rect, margin: nat, p: Point)
    requires RootLaw(cv) && RintLaw(cv) && forall w, h, x, y :: cv.blank(w, h, x, y) >= 0.0
    ensures 0 <= Alpha(cv, mask, region, margin, p) <= 255
  {
    hide Taper, Morph, DistanceTransform, Dilate, RootLaw, RintLaw;
    if margin != 0 && margin != DEFAULT_MASK_MARGIN {
      TaperRange(cv, margin, DistanceTransform(cv, mask, region, p));
    } else {
      var empty := region.Points() - Dilate(cv, mask, DEFAULT_MASK_MARGIN, region);
      DistanceNotNegative(cv, empty, region, p);
      MorphRange(cv, DistanceTransform(cv, empty, region, p));
    }
  }

  // ---- Locality ------------------------------------------------------------------------

  /** How far the weight of a pixel looks: the default margin needs one empty pixel more. */
  function Reach(margin: nat): nat {
    if margin == DEFAULT_MASK_MARGIN then margin + 1 else margin
  }

  /** No protected pixel of `outer` is within reach across the border of `inner`. */
  ghost predicate Isolated(mask: set<Point>, outer: Rect, inner: Rect, reach: nat) {
    forall q, s :: q in mask && outer.Has(s) && Near(q, s, reach) ==> (inner.Has(q) <==> inner.Has(s))
  }

  lemma NoNearPixelNoWeight(cv: Cv, mask: set<Point>, region: Rect, margin: nat, p: Point)
    requires RootLaw(cv) && RintLaw(cv) && region.Has(p)
    requires forall q :: q in mask ==> !Near(p, q, margin)
    ensures Alpha(cv, mask, region, margin, p) == 0
  {
    if mask != {} && margin == DEFAULT_MASK_MARGIN {
      NotExpanded(cv, mask, region, p);
      var zeros := region.Points() - Dilate(cv, mask, DEFAULT_MASK_MARGIN, region);
      NearestIs(p, zeros, p);
      RootZero(cv);
      assert cv.rint(0 as real) == 0;
    } else if mask != {} && margin != 0 {
      var q := NearestPixel(p, mask);
      FarIsFar(p, q, margin);
      RootCompare(cv, Nearest(p, mask), margin);
    }
  }

  lemma NotExpanded(cv: Cv, mask: set<Point>, region: Rect, p: Point)
    requires RootLaw(cv) && RintLaw(cv)
    requires forall q :: q in mask ==> !Near(p, q, DEFAULT_MASK_MARGIN)
    ensures p !in Dilate(cv, mask, DEFAULT_MASK_MARGIN, region)
  {
    forall q | q in mask && Ellipse(cv, DEFAULT_MASK_MARGIN, q.x - p.x, q.y - p.y) ensures false {
      EllipseIsNear(cv, DEFAULT_MASK_MARGIN, p, q);
    }
  }

  lemma TaperIsLocal(cv: Cv, mask: set<Point>, outer: Rect, inner: Rect, margin: nat, p: Point)
    requires RootLaw(cv) && RintLaw(cv) && margin != 0 && margin != DEFAULT_MASK_MARGIN
    requires inner.Within(outer) && inner.Has(p) && mask <= outer.Points()
    requires Isolated(mask, outer, inner, margin)
    ensures Alpha(cv, mask, outer, margin, p) == Alpha(cv, mask * inner.Points(), inner, margin, p)
  {
    var part := mask * inner.Points();
    if mask != {} {
      var q := NearestPixel(p, mask);
      if Near(p, q, margin) {
        assert inner.Has(q);
        NearestIs(p, part, q);
      } else {
        FarIsFar(p, q, margin);
        TaperFar(cv, mask, outer, margin, p);
        TaperFar(cv, part, inner, margin, p);
      }
    }
  }

  lemma TaperFar(cv: Cv, mask: set<Point>, region: Rect, margin: nat, p: Point)
    requires RootLaw(cv) && margin != 0 && margin != DEFAULT_MASK_MARGIN
    requires forall q :: q in mask ==> Dist2(p, q) > Square(margin)
    ensures Alpha(cv, mask, region, margin, p) == 0
  {
    if mask != {} {
      var q := NearestPixel(p, mask);
      RootCompare(cv, Nearest(p, mask), margin);
    }
  }

  /** Inside an isolated view the expansion is the expansion of its own protected pixels. */
  lemma ExpansionIsLocal(cv: Cv, mask: set<Point>, outer: Rect, inner: Rect)
    requires RootLaw(cv) && RintLaw(cv) && inner.Within(outer)
    requires Isolated(mask, outer, inner, DEFAULT_MASK_MARGIN + 1)
    ensures Dilate(cv, mask, DEFAULT_MASK_MARGIN, outer) * inner.Points()
            == Dilate(cv, mask * inner.Points(), DEFAULT_MASK_MARGIN, inner)
  {
    forall s, q | inner.Has(s) && q in mask && Ellipse(cv, DEFAULT_MASK_MARGIN, q.x - s.x, q.y - s.y)
      ensures inner.Has(q)
    {
      EllipseIsNear(cv, DEFAULT_MASK_MARGIN, s, q);
      assert Near(q, s, DEFAULT_MASK_MARGIN + 1);
    }
  }

  /** Clamping any pixel outside an isolated view onto its border gives an empty pixel. */
  lemma BorderIsEmpty(cv: Cv, mask: set<Point>, outer: Rect, inner: Rect, z: Point, p: Point)
    requires RootLaw(cv) && RintLaw(cv) && inner.Within(outer) && inner.Has(p)
    requires outer.Has(z) && !inner.Has(z)
    requires Isolated(mask, outer, inner, DEFAULT_MASK_MARGIN + 1)
    ensures inner.Has(ClampTo(z, inner))
    ensures ClampTo(z, inner) !in Dilate(cv, mask * inner.Points(), DEFAULT_MASK_MARGIN, inner)
  {
    var c := ClampTo(z, inner);
    var s := ClampTo(z, inner.Widen(1));
    assert outer.Has(s) && !inner.Has(s);
    forall q | q in mask && inner.Has(q) ensures !Ellipse(cv, DEFAULT_MASK_MARGIN, q.x - c.x, q.y - c.y) {
      assert Near(c, q, DEFAULT_MASK_MARGIN) ==> Near(q, s, DEFAULT_MASK_MARGIN + 1);
      if Ellipse(cv, DEFAULT_MASK_MARGIN, q.x - c.x, q.y - c.y) {
        EllipseIsNear(cv, DEFAULT_MASK_MARGIN, c, q);
      }
    }
  }

  /** The distance to the nearest empty pixel can be taken inside an isolated view. */
  lemma EmptyDistanceIsLocal(cv: Cv, mask: set<Point>, outer: Rect, inner: Rect, p: Point)
    requires RootLaw(cv) && RintLaw(cv) && inner.Within(outer) && inner.Has(p)
    requires Isolated(mask, outer, inner, DEFAULT_MASK_MARGIN + 1)
    ensures DistanceTransform(cv, outer.Points() - Dilate(cv, mask, DEFAULT_MASK_MARGIN, outer), outer, p)
            == DistanceTransform(cv, inner.Points() - Dilate(cv, mask * inner.Points(), DEFAULT_MASK_MARGIN, inner),
                                 inner, p)
  {
    var all := outer.Points() - Dilate(cv, mask, DEFAULT_MASK_MARGIN, outer);
    var own := inner.Points() - Dilate(cv, mask * inner.Points(), DEFAULT_MASK_MARGIN, inner);
    ExpansionIsLocal(cv, mask, outer, inner);
    assert own == all * inner.Points() by { OwnZeros(cv, mask, outer, inner); }
    if all == {} {
      NoEmptyNoBorder(cv, mask, outer, inner, p);
    } else {
      var z := NearestPixel(p, all);
      var c := ClampTo(z, inner);
      ClampIsNoFarther(p, z, inner);
      if !inner.Has(z) {
        BorderIsEmpty(cv, mask, outer, inner, z, p);
      }
      assert c in own;
      NearestIs(p, own, c);
    }
  }

  lemma OwnZeros(cv: Cv, mask: set<Point>, outer: Rect, inner: Rect)
    requires inner.Within(outer)
    requires Dilate(cv, mask, DEFAULT_MASK_MARGIN, outer) * inner.Points()
             == Dilate(cv, mask * inner.Points(), DEFAULT_MASK_MARGIN, inner)
    ensures inner.Points() - Dilate(cv, mask * inner.Points(), DEFAULT_MASK_MARGIN, inner)
            == (outer.Points() - Dilate(cv, mask, DEFAULT_MASK_MARGIN, outer)) * inner.Points()
  {
    hide Dilate;
    assert inner.Points() <= outer.Points();
  }

  /** If nothing is empty, the isolated view is the whole view. */
  lemma NoEmptyNoBorder(cv: Cv, mask: set<Point>, outer: Rect, inner: Rect, p: Point)
    requires RootLaw(cv) && RintLaw(cv) && inner.Within(outer) && inner.Has(p)
    requires Isolated(mask, outer, inner, DEFAULT_MASK_MARGIN + 1)
    requires outer.Points() - Dilate(cv, mask, DEFAULT_MASK_MARGIN, outer) == {}
    ensures inner == outer
  {
    if inner != outer {
      var z := if inner.left != outer.left then Point(outer.left, p.y)
               else if inner.right != outer.right then Point(outer.right - 1, p.y)
               else if inner.top != outer.top then Point(p.x, outer.top)
               else Point(p.x, outer.bottom - 1);
      ExpansionIsLocal(cv, mask, outer, inner);
      var c := ClampTo(z, inner);
      assert c in outer.Points() && c !in outer.Points() - Dilate(cv, mask, DEFAULT_MASK_MARGIN, outer);
      assert c in Dilate(cv, mask, DEFAULT_MASK_MARGIN, outer) * inner.Points();
      BorderIsEmpty(cv, mask, outer, inner, z, p);
    }
  }

  /** A view that keeps its protected pixels isolated computes the whole view's weights. */
  lemma AlphaIsLocal(cv: Cv, mask: set<Point>, outer: Rect, inner: Rect, margin: nat, p: Point)
    requires RootLaw(cv) && RintLaw(cv)
    requires inner.Within(outer) && inner.Has(p) && mask <= outer.Points()
    requires Isolated(mask, outer, inner, Reach(margin))
    ensures Alpha(cv, mask, outer, margin, p) == Alpha(cv, mask * inner.Points(), inner, margin, p)
  {
    var part := mask * inner.Points();
    if margin == DEFAULT_MASK_MARGIN {
      EmptyDistanceIsLocal(cv, mask, outer, inner, p);
      if part == {} {
        forall q | q in mask ensures !Near(p, q, margin) {
          assert Near(p, q, margin) ==> Near(q, p, Reach(margin));
        }
        NoNearPixelNoWeight(cv, mask, outer, margin, p);
      }
    } else if margin == 0 {
      assert p in mask <==> p in part;
    } else {
      TaperIsLocal(cv, mask, outer, inner, margin, p);
    }
  }

  /** The bounds of the protected pixels, widened by the reach, are an isolated view. */
  lemma WidenedBoundsIsolate(mask: set<Point>, bounds: Rect, outer: Rect, reach: nat)
    requires mask <= outer.Points() && forall q :: q in mask ==> bounds.Has(q)
    ensures var inner := bounds.Widen(reach).Meet(outer);
            Isolated(mask, outer, inner, reach) && mask * inner.Points() == mask
  {
  }

  lemma OutsideWidenedBounds(mask: set<Point>, bounds: Rect, outer: Rect, reach: nat, p: Point)
    requires forall q :: q in mask ==> bounds.Has(q)
    requires outer.Has(p) && !bounds.Widen(reach).Meet(outer).Has(p)
    ensures forall q :: q in mask ==> !Near(p, q, reach)
  {
  }

  // ---- The bounded computations --------------------------------------------------------

  ghost predicate Holds255(a: array2<int>, s: set<Point>)
    reads a
  {
    forall y, x :: 0 <= y < a.Length0 && 0 <= x < a.Length1 ==> a[y, x] == if Point(x, y) in s then 255 else 0
  }

  lemma FrozenPixels(a: array2<int>, s: set<Point>)
    requires Holds255(a, s) && s <= Frame(a.Length1, a.Length0).Points()
    ensures Pixels(Freeze(a)) == s
  {
    var image := Freeze(a);
    forall p ensures p in Pixels(image) <==> p in s {
      if p in s {
        assert image.In(p.x, p.y) && image.At(p.x, p.y) == 255;
        assert p == Point(p.x, p.y);
      }
    }
  }

  /** Dilation cannot leave the widened bounds, so the bounded dilation is the whole one. */
  lemma DilationIsBounded(cv: Cv, mask: set<Point>, pad: nat, bounds: Rect, outer: Rect)
    requires RootLaw(cv) && RintLaw(cv) && mask <= outer.Points() && forall q :: q in mask ==> bounds.Has(q)
    ensures var box := bounds.Widen(pad).Meet(outer);
            Dilate(cv, mask, pad, outer) == Dilate(cv, mask * box.Points(), pad, box)
  {
    var box := bounds.Widen(pad).Meet(outer);
    assert mask * box.Points() == mask;
    forall p, q | outer.Has(p) && q in mask && Ellipse(cv, pad, q.x - p.x, q.y - p.y) ensures box.Has(p) {
      EllipseIsNear(cv, pad, p, q);
    }
  }

  lemma DilationByZero(cv: Cv, mask: set<Point>, outer: Rect)
    requires RootLaw(cv) && RintLaw(cv) && mask <= outer.Points()
    ensures Dilate(cv, mask, 0, outer) == mask
  {
    EllipseCentre(cv, 0);
    forall p: Point, q: Point | q in mask && Ellipse(cv, 0, q.x - p.x, q.y - p.y) ensures p == q {
      EllipseIsNear(cv, 0, p, q);
    }
  }

  lemma DilationOfNothing(cv: Cv, pad: nat, outer: Rect)
    ensures Dilate(cv, {}, pad, outer) == {}
  {
  }

  lemma FilledStep(cv: Cv, polygons: seq<Polygon>, n: nat, region: Rect, p: Point)
    requires n < |polygons| && region.Has(p)
    ensures p in Filled(cv, polygons[..n + 1], region)
            <==> p in Filled(cv, polygons[..n], region) || cv.paints(polygons[n], p)
  {
    assert polygons[..n + 1] == polygons[..n] + [polygons[n]];
    if cv.paints(polygons[n], p) {
      assert polygons[n] in polygons[..n + 1];
    }
  }

  method PaintPolygons(cv: Cv, mask: array2<int>, polygons: seq<Polygon>)
    requires forall y, x :: 0 <= y < mask.Length0 && 0 <= x < mask.Length1 ==> mask[y, x] == 0
    modifies mask
    ensures Holds255(mask, Filled(cv, polygons, Frame(mask.Length1, mask.Length0)))
  {
    ghost var frame := Frame(mask.Length1, mask.Length0);
    for n := 0 to |polygons|
      invariant Holds255(mask, Filled(cv, polygons[..n], frame))
    {
      forall y, x | 0 <= y < mask.Length0 && 0 <= x < mask.Length1 && cv.paints(polygons[n], Point(x, y)) {
        mask[y, x] := 255;
      }
      forall y, x | 0 <= y < mask.Length0 && 0 <= x < mask.Length1
        ensures mask[y, x] == if Point(x, y) in Filled(cv, polygons[..n + 1], frame) then 255 else 0
      {
        FilledStep(cv, polygons, n, frame, Point(x, y));
      }
    }
    assert polygons[..|polygons|] == polygons;
  }

  lemma GrownStaysInBox(cv: Cv, filled: set<Point>, pad: nat, bounds: Rect, outer: Rect)
    requires filled <= outer.Points() && forall q :: q in filled ==> bounds.Has(q)
    ensures var box := bounds.Widen(pad).Meet(outer);
            filled <= box.Points() && filled * box.Points() == filled && box.Within(outer)
            && Dilate(cv, filled, pad, box) <= box.Points() && box.Points() <= outer.Points()
  {
  }

  /** Overwrites one rectangle of a mask that is empty outside it. */
  method PasteMask(buffer: array2<int>, box: Rect, grown: set<Point>, ghost filled: set<Point>)
    requires box.Within(Frame(buffer.Length1, buffer.Length0))
    requires Holds255(buffer, filled) && filled <= box.Points() && grown <= box.Points()
    modifies buffer
    ensures Holds255(buffer, grown)
  {
    forall y, x | box.top <= y < box.bottom && box.left <= x < box.right {
      buffer[y, x] := if Point(x, y) in grown then 255 else 0;
    }
  }

  /** Fills the polygons and dilates only the widened bounds of what was filled. */
  method FillPolygons(cv: Cv, width: nat, height: nat, polygons: seq<Polygon>, pad: nat) returns (mask: Image)
    requires RootLaw(cv) && RintLaw(cv)
    ensures mask.Valid() && mask.width == width && mask.height == height
    ensures Pixels(mask) == Protected(cv, polygons, Frame(width, height), pad)
    ensures forall x, y :: mask.In(x, y) ==> mask.At(x, y) == 0 || mask.At(x, y) == 255
  {
    hide Dilate, Pixels, Tracks, RootLaw, RintLaw, Rect.Points;
    var buffer := new int[height, width]((y, x) => 0);
    PaintPolygons(cv, buffer, polygons);
    ghost var filled := Filled(cv, polygons, Frame(width, height));
    hide Filled;
    FrozenPixels(buffer, filled);
    mask := Freeze(buffer);
    if pad == 0 {
      DilationByZero(cv, filled, Frame(width, height));
      return;
    }
    var bounds := BoundingRect(mask);
    if bounds.Width() == 0 {
      DilationOfNothing(cv, pad, Frame(width, height));
      return;
    }
    BoundsCover(bounds, filled);
    DilationIsBounded(cv, filled, pad, bounds, Frame(width, height));
    GrownStaysInBox(cv, filled, pad, bounds, Frame(width, height));
    var box := bounds.Widen(pad).Meet(Frame(width, height));
    var grown := Dilate(cv, Pixels(mask) * box.Points(), pad, box);
    PasteMask(buffer, box, grown, filled);
    FrozenPixels(buffer, grown);
    mask := Freeze(buffer);
  }

  lemma BoundsCover(bounds: Rect, s: set<Point>)
    requires Tracks(bounds, s)
    ensures forall q :: q in s ==> bounds.Has(q)
  {
  }

  lemma PixelsInBounds(mask: Image)
    requires mask.Valid()
    ensures Pixels(mask) <= mask.Bounds().Points()
  {
  }

  lemma WeightIs(cv: Cv, mask: set<Point>, region: Rect, margin: nat, p: Point)
    requires mask != {} && margin > 0
    ensures Alpha(cv, mask, region, margin, p) ==
            if margin != DEFAULT_MASK_MARGIN then DistanceWeight(cv, mask, region, margin, p)
            else MorphologyWeight(cv, mask, region, p)
  {
  }

  /** Computes the weights only around the protected pixels; every other weight is zero. */
  method FeatheredMask(cv: Cv, mask: Image, margin: nat) returns (alpha: Image)
    requires RootLaw(cv) && RintLaw(cv) && mask.Valid()
    ensures alpha.Valid() && alpha.width == mask.width && alpha.height == mask.height
    ensures forall x, y :: alpha.In(x, y) ==>
              alpha.At(x, y) == Alpha(cv, Pixels(mask), mask.Bounds(), margin, Point(x, y))
  {
    hide IsBounds, RootLaw, RintLaw;
    var bounds := BoundingRect(mask);
    if bounds.Width() == 0 {
      EmptyMaskIsZero(mask);
      return mask;
    }
    if margin == 0 {
      HardMask(cv, mask);
      return Build(mask.width, mask.height,
        (x, y) requires mask.Valid() && mask.In(x, y) => if mask.At(x, y) != 0 then 255 else 0);
    }
    var box := bounds.Widen(Reach(margin)).Meet(mask.Bounds());
    var crop := Pixels(mask) * box.Points();
    hide Pixels, DistanceWeight, MorphologyWeight, Alpha;
    PixelsInBounds(mask);
    BoundsCover(bounds, Pixels(mask));
    if margin != DEFAULT_MASK_MARGIN {
      alpha := PasteWeights(mask.width, mask.height, box,
        p => DistanceWeight(cv, crop, box, margin, p));
    } else {
      alpha := PasteWeights(mask.width, mask.height, box,
        p => MorphologyWeight(cv, crop, box, p));
    }
    forall x, y | mask.In(x, y)
      ensures alpha.At(x, y) == Alpha(cv, Pixels(mask), mask.Bounds(), margin, Point(x, y))
    {
      BoundedWeight(cv, Pixels(mask), bounds, mask.Bounds(), margin, Point(x, y));
      WeightIs(cv, crop, box, margin, Point(x, y));
    }
  }

  /** A zeroed buffer with the weights of one rectangle written into it. */
  method PasteWeights(width: nat, height: nat, box: Rect, weight: Point -> int) returns (image: Image)
    requires box.left >= 0 && box.top >= 0 && box.right <= width && box.bottom <= height
    ensures image.Valid() && image.width == width && image.height == height
    ensures forall x, y :: image.In(x, y) ==> image.At(x, y) == if box.Has(Point(x, y)) then weight(Point(x, y)) else 0
  {
    var feathered := new int[height, width]((y, x) => 0);
    forall y, x | box.top <= y < box.bottom && box.left <= x < box.right {
      feathered[y, x] := weight(Point(x, y));
    }
    image := Freeze(feathered);
  }

  lemma HardMask(cv: Cv, mask: Image)
    requires mask.Valid()
    ensures forall x, y :: mask.In(x, y) ==>
              Alpha(cv, Pixels(mask), mask.Bounds(), 0, Point(x, y)) == if mask.At(x, y) != 0 then 255 else 0
  {
  }

  lemma EmptyMaskIsZero(mask: Image)
    requires mask.Valid() && Pixels(mask) == {}
    ensures forall x, y :: mask.In(x, y) ==> mask.At(x, y) == 0
  {
    forall x, y | mask.In(x, y) ensures mask.At(x, y) == 0 {
      assert Point(x, y) !in Pixels(mask);
    }
  }

  lemma BoundedWeight(cv: Cv, mask: set<Point>, bounds: Rect, outer: Rect, margin: nat, p: Point)
    requires RootLaw(cv) && RintLaw(cv) && mask <= outer.Points() && outer.Has(p)
    requires forall q :: q in mask ==> bounds.Has(q)
    ensures var box := bounds.Widen(Reach(margin)).Meet(outer);
            Alpha(cv, mask, outer, margin, p) == if box.Has(p) then Alpha(cv, mask * box.Points(), box, margin, p)
              else 0
  {
    var box := bounds.Widen(Reach(margin)).Meet(outer);
    WidenedBoundsIsolate(mask, bounds, outer, Reach(margin));
    if box.Has(p) {
      AlphaIsLocal(cv, mask, outer, box, margin, p);
    } else {
      OutsideWidenedBounds(mask, bounds, outer, Reach(margin), p);
      NoNearPixelNoWeight(cv, mask, outer, margin, p);
    }
  }

  // ---- Moving a view does not change what it computes ----------------------------------

  lemma NearestMoves(p: Point, s: set<Point>, dx: int, dy: int)
    requires s != {}
    ensures Shift(s, dx, dy) != {} && Nearest(Moved(p, dx, dy), Shift(s, dx, dy)) == Nearest(p, s)
  {
    var q := NearestPixel(p, s);
    var q' := Moved(q, dx, dy);
    assert q' in Shift(s, dx, dy);
    hide Nearest;
    forall o | o in Shift(s, dx, dy) ensures Dist2(Moved(p, dx, dy), q') <= Dist2(Moved(p, dx, dy), o) {
      InShift(s, dx, dy, o);
      assert Dist2(Moved(p, dx, dy), o) == Dist2(p, Moved(o, -dx, -dy));
    }
    NearestIs(Moved(p, dx, dy), Shift(s, dx, dy), q');
  }

  lemma DistanceMoves(cv: Cv, zeros: set<Point>, region: Rect, p: Point, dx: int, dy: int)
    ensures DistanceTransform(cv, Shift(zeros, dx, dy), MovedRect(region, dx, dy), Moved(p, dx, dy))
            == DistanceTransform(cv, zeros, region, p)
  {
    hide Nearest;
    if zeros == {} {
      assert Shift(zeros, dx, dy) == {};
    } else {
      NearestMoves(p, zeros, dx, dy);
    }
  }

  lemma DilatedPixelMoves(cv: Cv, mask: set<Point>, radius: nat, region: Rect, dx: int, dy: int, p: Point)
    requires Moved(p, -dx, -dy) in Dilate(cv, mask, radius, region)
    ensures p in Dilate(cv, Shift(mask, dx, dy), radius, MovedRect(region, dx, dy))
  {
    hide Ellipse;
    var o := Moved(p, -dx, -dy);
    var u :| u in mask && Ellipse(cv, radius, u.x - o.x, u.y - o.y);
    var q := Moved(u, dx, dy);
    assert q in Shift(mask, dx, dy) && Ellipse(cv, radius, q.x - p.x, q.y - p.y);
  }

  lemma ShiftBack(s: set<Point>, dx: int, dy: int)
    ensures Shift(Shift(s, dx, dy), -dx, -dy) == s
  {
    forall p | p in s ensures p in Shift(Shift(s, dx, dy), -dx, -dy) {
      assert Moved(p, dx, dy) in Shift(s, dx, dy);
      assert Moved(Moved(p, dx, dy), -dx, -dy) == p;
    }
  }

  lemma DilationMoves(cv: Cv, mask: set<Point>, radius: nat, region: Rect, dx: int, dy: int)
    ensures Dilate(cv, Shift(mask, dx, dy), radius, MovedRect(region, dx, dy))
            == Shift(Dilate(cv, mask, radius, region), dx, dy)
  {
    var moved := Dilate(cv, Shift(mask, dx, dy), radius, MovedRect(region, dx, dy));
    var still := Dilate(cv, mask, radius, region);
    hide Dilate, Shift;
    ShiftBack(mask, dx, dy);
    forall p ensures p in moved <==> p in Shift(still, dx, dy) {
      InShift(still, dx, dy, p);
      if Moved(p, -dx, -dy) in still {
        DilatedPixelMoves(cv, mask, radius, region, dx, dy, p);
      }
      if p in moved {
        assert Moved(Moved(p, -dx, -dy), dx, dy) == p;
        DilatedPixelMoves(cv, Shift(mask, dx, dy), radius, MovedRect(region, dx, dy), -dx, -dy, Moved(p, -dx, -dy));
      }
    }
  }

  lemma EmptyMoves(expanded: set<Point>, region: Rect, dx: int, dy: int)
    ensures MovedRect(region, dx, dy).Points() - Shift(expanded, dx, dy) == Shift(region.Points() - expanded, dx, dy)
  {
    hide Shift;
    forall p
      ensures p in MovedRect(region, dx, dy).Points() - Shift(expanded, dx, dy)
              <==> p in Shift(region.Points() - expanded, dx, dy)
    {
      InShift(expanded, dx, dy, p);
      InShift(region.Points() - expanded, dx, dy, p);
    }
  }

  lemma EmptyDistanceMoves(cv: Cv, mask: set<Point>, region: Rect, p: Point, dx: int, dy: int)
    ensures DistanceTransform(cv, MovedRect(region, dx, dy).Points()
              - Dilate(cv, Shift(mask, dx, dy), DEFAULT_MASK_MARGIN, MovedRect(region, dx, dy)),
                MovedRect(region, dx, dy), Moved(p, dx, dy))
            == DistanceTransform(cv, region.Points() - Dilate(cv, mask, DEFAULT_MASK_MARGIN, region), region, p)
  {
    var expanded := Dilate(cv, mask, DEFAULT_MASK_MARGIN, region);
    hide Dilate, Shift, DistanceTransform;
    DilationMoves(cv, mask, DEFAULT_MASK_MARGIN, region, dx, dy);
    EmptyMoves(expanded, region, dx, dy);
    DistanceMoves(cv, region.Points() - expanded, region, p, dx, dy);
  }

  /** A view moved with its mask computes the same weights. */
  lemma AlphaMoves(cv: Cv, mask: set<Point>, region: Rect, margin: nat, p: Point, dx: int, dy: int)
    ensures Alpha(cv, Shift(mask, dx, dy), MovedRect(region, dx, dy), margin, Moved(p, dx, dy))
            == Alpha(cv, mask, region, margin, p)
  {
    hide Dilate, DistanceTransform, Taper, Morph, Nearest;
    InShift(mask, dx, dy, Moved(p, dx, dy));
    assert Moved(Moved(p, dx, dy), -dx, -dy) == p;
    if mask == {} {
      assert Shift(mask, dx, dy) == {};
    } else {
      NearestMoves(p, mask, dx, dy);
      DistanceMoves(cv, mask, region, p, dx, dy);
      EmptyDistanceMoves(cv, mask, region, p, dx, dy);
    }
  }

  function AllMoved(polygons: seq<Polygon>, dx: int, dy: int): seq<Polygon> {
    seq(|polygons|, i requires 0 <= i < |polygons| => MovedAll(polygons[i], dx, dy))
  }

  /** Polygons moved with their view protect the same pixels of it. */
  lemma ProtectedMoves(cv: Cv, polygons: seq<Polygon>, region: Rect, pad: nat, dx: int, dy: int)
    requires FillLaw(cv)
    ensures Protected(cv, AllMoved(polygons, dx, dy), MovedRect(region, dx, dy), pad)
            == Shift(Protected(cv, polygons, region, pad), dx, dy)
  {
    var moved, there := AllMoved(polygons, dx, dy), MovedRect(region, dx, dy);
    forall p ensures p in Filled(cv, moved, there) <==> p in Shift(Filled(cv, polygons, region), dx, dy) {
      InShift(Filled(cv, polygons, region), dx, dy, p);
      FilledMoves(cv, polygons, region, dx, dy, p);
    }
    hide Filled, Dilate, Shift;
    DilationMoves(cv, Filled(cv, polygons, region), pad, region, dx, dy);
  }

  lemma FilledMoves(cv: Cv, polygons: seq<Polygon>, region: Rect, dx: int, dy: int, p: Point)
    requires FillLaw(cv)
    ensures p in Filled(cv, AllMoved(polygons, dx, dy), MovedRect(region, dx, dy))
            <==> Moved(p, -dx, -dy) in Filled(cv, polygons, region)
  {
    var moved, o := AllMoved(polygons, dx, dy), Moved(p, -dx, -dy);
    assert Moved(o, dx, dy) == p;
    forall i | 0 <= i < |polygons| ensures cv.paints(moved[i], p) == cv.paints(polygons[i], o) {
      assert cv.paints(MovedAll(polygons[i], dx, dy), Moved(o, dx, dy)) == cv.paints(polygons[i], o);
    }
    if polygon :| polygon in polygons && cv.paints(polygon, o) {
      var i :| 0 <= i < |polygons| && polygons[i] == polygon;
      assert moved[i] in moved && cv.paints(moved[i], p);
    }
  }
}
