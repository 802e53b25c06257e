/** Composition of the protected frame (service/mosaic.py, _compose_protected and _blend_layers):
    every group of nearby objects is masked and blurred in its own crop, and the result is the
    frame that one whole-frame mask, feather and blur would give. */
module Compose {
  import opened Raster
  import opened OpenCv
  import opened Detection
  import opened Grouping
  import opened Mask
  import opened Blur

  const MAX_MASK_MARGIN := 64
  const MAX_MASK_POINTS := 64
  const MAX_MASK_PAD := 16

  // ---- Blending ------------------------------------------------------------------------

  /** Numerator of the rounded blend; the source keeps it in 16 bits. */
  function Numerator(source: int, blurred: int, weight: int): int {
    source * (255 - weight) + blurred * weight + 127
  }

  function Blend(source: int, blurred: int, weight: int): int {
    Numerator(source, blurred, weight) / 255
  }

  predicate Byte(v: int) {
    0 <= v <= 255
  }

  /** The blend is the weighted mean rounded to nearest; no weight overflows 16 bits or leaves the range
      between the two pixels. */
  lemma BlendIsExact(source: int, blurred: int, weight: int)
    requires Byte(source) && Byte(blurred) && Byte(weight)
    ensures 0 <= Numerator(source, blurred, weight) <= 255 * 255 + 127 < 0x1_0000
    ensures Min(source, blurred) <= Blend(source, blurred, weight) <= Max(source, blurred)
    ensures -127 <= 255 * Blend(source, blurred, weight) - (source * (255 - weight) + blurred * weight) <= 127
  {
    var low, high := Min(source, blurred), Max(source, blurred);
    var n := source * (255 - weight) + blurred * weight;
    Weighted(source, blurred, weight, low, high);
    assert 255 * low <= n <= 255 * high;
  }

  lemma Weighted(a: int, b: int, w: int, low: int, high: int)
    requires low <= a <= high && low <= b <= high && 0 <= w <= 255
    ensures 255 * low <= a * (255 - w) + b * w <= 255 * high
  {
    assert (a - low) * (255 - w) >= 0 && (b - low) * w >= 0;
    assert (high - a) * (255 - w) >= 0 && (high - b) * w >= 0;
    assert low * (255 - w) + low * w == 255 * low by { assert low * (255 - w) == 255 * low - low * w; }
    assert high * (255 - w) + high * w == 255 * high by { assert high * (255 - w) == 255 * high - high * w; }
  }

  lemma BlendExtremes(source: int, blurred: int)
    ensures Blend(source, blurred, 255) == blurred
    ensures Blend(source, blurred, 0) == source
  {
  }

  // ---- Protected polygons ----------------------------------------------------------------

  /** A coordinate received from the detector; NaN and infinities are not finite. */
  datatype Coordinate = Finite(value: real) | NonFinite

  /** A vertex as received. */
  datatype Vertex = Vertex(x: Coordinate, y: Coordinate) {

    predicate IsFinite() {
      x.Finite? && y.Finite?
    }
  }

  /** A detected object: its class, its approval, and its outline (None when malformed). */
  datatype Item = Item(kind: Label, whitelisted: bool, outline: Option<seq<Vertex>>)

  predicate MustBlur(item: Item) {
    !item.whitelisted || item.kind.IsPlate()
  }

  function ClipReal(v: real, high: int): real {
    if v < 0.0 then 0.0 else if v > high as real then high as real else v
  }

  function Rounded(cv: Cv, outline: seq<Vertex>, width: nat, height: nat): Polygon
    requires forall i :: 0 <= i < |outline| ==> outline[i].IsFinite()
  {
    seq(|outline|, i requires 0 <= i < |outline| && outline[i].IsFinite() =>
      Point(cv.rint(ClipReal(outline[i].x.value, width - 1)), cv.rint(ClipReal(outline[i].y.value, height - 1))))
  }

  /** Where a received coordinate ends up on an axis of `size` pixels: on the nearest pixel, or on the first or
      last one when it lies outside. */
  predicate PlacedAt(cv: Cv, received: real, size: nat, pixel: int) {
    && (received < 0.0 ==> pixel == 0)
    && (received > (size - 1) as real ==> pixel == size - 1)
    && (0.0 <= received <= (size - 1) as real ==> pixel == cv.rint(received))
  }

  /** The polygon follows the outline vertex by vertex: columns from its x coordinates, rows from its y. */
  predicate Traces(cv: Cv, polygon: Polygon, outline: seq<Vertex>, width: nat, height: nat) {
    |polygon| == |outline|
    && forall i :: 0 <= i < |outline| ==>
         && outline[i].IsFinite()
         && PlacedAt(cv, outline[i].x.value, width, polygon[i].x)
         && PlacedAt(cv, outline[i].y.value, height, polygon[i].y)
  }

  /** Twice the signed area of the closed contour from vertex i on. */
  function Shoelace(polygon: Polygon, i: nat): int
    requires i <= |polygon|
    decreases |polygon| - i
  {
    if i == |polygon| then 0 else
      var p, q := polygon[i], polygon[if i + 1 == |polygon| then 0 else i + 1];
      Cross(p, q) + Shoelace(polygon, i + 1)
  }

  function Cross(p: Point, q: Point): int {
    p.x * q.y - q.x * p.y
  }

  /** Validates, clips and rounds one outline. */
  function PolygonOf(cv: Cv, outline: Option<seq<Vertex>>, width: nat, height: nat): Result<Polygon> {
    if outline.None? || !(3 <= |outline.value| <= MAX_MASK_POINTS) then
      Err("protected object has an invalid mask polygon")
    else if exists i :: 0 <= i < |outline.value| && !outline.value[i].IsFinite() then
      Err("protected object mask contains a non-finite point")
    else
      var polygon := Rounded(cv, outline.value, width, height);
      if Shoelace(polygon, 0) == 0 then Err("protected object mask has no area") else Ok(polygon)
  }

  ghost predicate InFrame(polygon: Polygon, width: nat, height: nat) {
    polygon != [] && forall i :: 0 <= i < |polygon| ==> Frame(width, height).Has(polygon[i])
  }

  lemma ClippedInFrame(cv: Cv, v: real, high: nat)
    requires RintLaw(cv)
    ensures 0 <= cv.rint(ClipReal(v, high)) <= high
  {
    var c := ClipReal(v, high);
    assert 0 as real <= c <= high as real;
    assert cv.rint(0 as real) <= cv.rint(c) <= cv.rint(high as real);
  }

  lemma AcceptedPolygonInFrame(cv: Cv, outline: Option<seq<Vertex>>, width: nat, height: nat)
    requires RintLaw(cv) && width > 0 && height > 0 && PolygonOf(cv, outline, width, height).Ok?
    ensures InFrame(PolygonOf(cv, outline, width, height).value, width, height)
  {
    forall i | 0 <= i < |outline.value| ensures Frame(width, height).Has(Rounded(cv, outline.value, width, height)[i]) {
      ClippedInFrame(cv, outline.value[i].x.value, width - 1);
      ClippedInFrame(cv, outline.value[i].y.value, height - 1);
    }
  }

  /** An accepted polygon is the one that traces its outline, and no vertex moves more than half a pixel unless
      it lay outside the frame. */
  lemma AcceptedPolygonTraces(cv: Cv, outline: Option<seq<Vertex>>, width: nat, height: nat)
    requires RintLaw(cv) && width > 0 && height > 0 && PolygonOf(cv, outline, width, height).Ok?
    ensures var polygon := PolygonOf(cv, outline, width, height).value;
            && Traces(cv, polygon, outline.value, width, height)
            && forall i :: 0 <= i < |polygon| ==>
                 && Follows(outline.value[i].x.value, width, polygon[i].x)
                 && Follows(outline.value[i].y.value, height, polygon[i].y)
  {
    var polygon := PolygonOf(cv, outline, width, height).value;
    forall i | 0 <= i < |polygon|
      ensures PlacedAt(cv, outline.value[i].x.value, width, polygon[i].x)
      ensures PlacedAt(cv, outline.value[i].y.value, height, polygon[i].y)
      ensures Follows(outline.value[i].x.value, width, polygon[i].x)
      ensures Follows(outline.value[i].y.value, height, polygon[i].y)
    {
      ClippedIsPlaced(cv, outline.value[i].x.value, width);
      ClippedIsPlaced(cv, outline.value[i].y.value, height);
    }
  }

  /** The pixel is within half of the received coordinate, or at the edge the coordinate lies beyond. */
  predicate Follows(received: real, size: nat, pixel: int) {
    if received < 0.0 then pixel == 0
    else if received > (size - 1) as real then pixel == size - 1
    else received - 0.5 <= pixel as real <= received + 0.5
  }

  lemma ClippedIsPlaced(cv: Cv, v: real, size: nat)
    requires RintLaw(cv) && size > 0
    ensures PlacedAt(cv, v, size, cv.rint(ClipReal(v, size - 1))) && Follows(v, size, cv.rint(ClipReal(v, size - 1)))
  {
    assert cv.rint(0 as real) == 0 && cv.rint((size - 1) as real) == size - 1;
  }

  /** Only one polygon traces an outline. */
  lemma TracedIsUnique(cv: Cv, a: Polygon, b: Polygon, outline: seq<Vertex>, width: nat, height: nat)
    requires Traces(cv, a, outline, width, height) && Traces(cv, b, outline, width, height)
    ensures a == b
  {
    forall i | 0 <= i < |a| ensures a[i] == b[i] {
      assert PlacedAt(cv, outline[i].x.value, width, a[i].x) && PlacedAt(cv, outline[i].x.value, width, b[i].x);
      assert PlacedAt(cv, outline[i].y.value, height, a[i].y) && PlacedAt(cv, outline[i].y.value, height, b[i].y);
    }
  }

  /** The signed area, counted as a fan of triangles around the first vertex. */
  function Fan(polygon: Polygon, i: nat): int
    requires 1 <= i <= |polygon|
    decreases |polygon| - i
  {
    if i + 1 >= |polygon| then 0 else Triangle(polygon[0], polygon[i], polygon[i + 1]) + Fan(polygon, i + 1)
  }

  /** Twice the signed area of a triangle. */
  function Triangle(a: Point, b: Point, c: Point): int {
    (b.x - a.x) * (c.y - a.y) - (c.x - a.x) * (b.y - a.y)
  }

  lemma TriangleCrosses(a: Point, b: Point, c: Point)
    ensures Triangle(a, b, c) == Cross(a, b) + Cross(b, c) + Cross(c, a)
  {
    Expand(b.x, a.x, c.y, a.y);
    Expand(c.x, a.x, b.y, a.y);
  }

  lemma Expand(a: int, b: int, c: int, d: int)
    ensures (a - b) * (c - d) == a * c - a * d - b * c + b * d
  {
  }

  lemma CrossTurns(p: Point, q: Point)
    ensures Cross(p, q) == 0 - Cross(q, p)
  {
  }

  lemma {:induction false} ShoelaceFrom(polygon: Polygon, i: nat)
    requires 1 <= i < |polygon|
    ensures Shoelace(polygon, i) == Fan(polygon, i) + Cross(polygon[i], polygon[0])
    decreases |polygon| - i
  {
    hide Cross, Triangle;
    if i + 1 < |polygon| {
      ShoelaceFrom(polygon, i + 1);
      TriangleCrosses(polygon[0], polygon[i], polygon[i + 1]);
      CrossTurns(polygon[0], polygon[i]);
    }
  }

  /** The area that decides acceptance is the polygon's: the sum over the triangles of a fan. */
  lemma ShoelaceIsArea(polygon: Polygon)
    requires |polygon| >= 1
    ensures Shoelace(polygon, 0) == Fan(polygon, 1)
  {
    if |polygon| >= 2 {
      ShoelaceFrom(polygon, 1);
      CrossTurns(polygon[0], polygon[1]);
      hide Cross;
    }
  }

  /** Which outlines are accepted: three to 64 finite vertices whose traced polygon encloses some area. */
  lemma AcceptedExactly(cv: Cv, outline: Option<seq<Vertex>>, width: nat, height: nat)
    requires RintLaw(cv) && width > 0 && height > 0
    ensures PolygonOf(cv, outline, width, height).Ok? <==>
            && outline.Some? && 3 <= |outline.value| <= 64
            && exists polygon :: Traces(cv, polygon, outline.value, width, height) && Fan(polygon, 1) != 0
  {
    if PolygonOf(cv, outline, width, height).Ok? {
      AcceptedPolygonTraces(cv, outline, width, height);
      ShoelaceIsArea(PolygonOf(cv, outline, width, height).value);
    } else if outline.Some? && 3 <= |outline.value| <= 64 {
      if polygon :| Traces(cv, polygon, outline.value, width, height) && Fan(polygon, 1) != 0 {
        var rounded := Rounded(cv, outline.value, width, height);
        forall i | 0 <= i < |rounded|
          ensures PlacedAt(cv, outline.value[i].x.value, width, rounded[i].x)
          ensures PlacedAt(cv, outline.value[i].y.value, height, rounded[i].y)
        {
          ClippedIsPlaced(cv, outline.value[i].x.value, width);
          ClippedIsPlaced(cv, outline.value[i].y.value, height);
        }
        TracedIsUnique(cv, polygon, rounded, outline.value, width, height);
        ShoelaceIsArea(polygon);
      }
    }
  }

  /** The polygons that must be blurred, in order; one invalid protected outline fails the frame. */
  function ProtectedPolygons(cv: Cv, items: seq<Item>, width: nat, height: nat): (r: Result<seq<Polygon>>)
    requires RintLaw(cv) && width > 0 && height > 0
    ensures r.Ok? ==> forall i :: 0 <= i < |r.value| ==> InFrame(r.value[i], width, height)
    ensures r.Ok? ==> forall item :: item in items && MustBlur(item) ==>
              PolygonOf(cv, item.outline, width, height).Ok?
                && PolygonOf(cv, item.outline, width, height).value in r.value
    ensures r.Ok? ==> forall polygon :: polygon in r.value ==>
              exists item :: item in items && MustBlur(item)
                             && PolygonOf(cv, item.outline, width, height) == Ok(polygon)
    ensures r.Ok? ==> (r.value == [] <==> forall item :: item in items ==> !MustBlur(item))
    ensures r.Err? ==> exists item :: item in items && MustBlur(item) && PolygonOf(cv, item.outline, width, height).Err?
  {
    if items == [] then Ok([])
    else if !MustBlur(items[0]) then ProtectedPolygons(cv, items[1..], width, height)
    else
      match PolygonOf(cv, items[0].outline, width, height)
      case Err(message) => Err(message)
      case Ok(polygon) =>
        AcceptedPolygonInFrame(cv, items[0].outline, width, height);
        match ProtectedPolygons(cv, items[1..], width, height)
        case Err(message) => Err(message)
        case Ok(rest) => Ok([polygon] + rest)
  }

  /** A plate is protected whatever its approval says, and so is every object that is not approved. */
  lemma PlatesAreAlwaysProtected(cv: Cv, items: seq<Item>, item: Item, width: nat, height: nat)
    requires RintLaw(cv) && width > 0 && height > 0 && ProtectedPolygons(cv, items, width, height).Ok? && item in items
    requires !item.whitelisted || item.kind.classId == Some(1) || item.kind.className == Some("number_plate")
    ensures PolygonOf(cv, item.outline, width, height).Ok?
    ensures PolygonOf(cv, item.outline, width, height).value in ProtectedPolygons(cv, items, width, height).value
  {
    hide PolygonOf;
  }

  // ---- The whole-frame result ------------------------------------------------------------

  /** Blend weight of a frame pixel when the whole frame is masked and feathered at once. */
  function Weight(cv: Cv, polygons: seq<Polygon>, width: nat, height: nat, margin: nat, pad: nat, p: Point): int {
    Alpha(cv, Protected(cv, polygons, Frame(width, height), pad), Frame(width, height), margin, p)
  }

  /** The frame pixel composed with one whole-frame mask, feather and blur. */
  function ComposedAt(cv: Cv, image: Image, polygons: seq<Polygon>, radius: real, cell: nat, margin: nat, pad: nat,
                      p: Point): int
    requires image.Valid() && image.Bounds().Has(p) && cell > 0
  {
    Blend(image.At(p.x, p.y), BlurredAt(cv, image, radius, cell, p),
          Weight(cv, polygons, image.width, image.height, margin, pad, p))
  }

  // ---- Crops compute the frame's weights -------------------------------------------------

  /** What the compositor needs of the groups: separate crops, each around its members' reach. */
  ghost predicate Grouped(polygons: seq<Polygon>, groups: seq<Group>, reach: nat, width: nat, height: nat) {
    && (forall i :: 0 <= i < |polygons| ==> polygons[i] != [])
    && (forall k :: 0 <= k < |groups| ==> groups[k].members != [] && groups[k].crop.Within(Frame(width, height)))
    && (forall j, k :: 0 <= j < k < |groups| ==> !groups[j].crop.Overlaps(groups[k].crop))
    && (forall k, polygon :: 0 <= k < |groups| && polygon in groups[k].members ==>
          polygon in polygons && polygon != [] && Reached(polygon, reach, width, height).Within(groups[k].crop))
    && (forall polygon :: polygon in polygons ==> exists k :: 0 <= k < |groups| && polygon in groups[k].members)
  }

  /** The group whose crop a polygon's mask can touch. */
  lemma HomeOf(polygons: seq<Polygon>, groups: seq<Group>, reach: nat, width: nat, height: nat, polygon: Polygon)
    returns (k: nat)
    requires Grouped(polygons, groups, reach, width, height) && polygon in polygons
    ensures k < |groups| && polygon in groups[k].members && polygon != []
    ensures Reached(polygon, reach, width, height).Within(groups[k].crop)
  {
    k :| 0 <= k < |groups| && polygon in groups[k].members;
  }

  lemma SamePixelSameCrop(polygons: seq<Polygon>, groups: seq<Group>, reach: nat, width: nat, height: nat, j: nat,
                          k: nat, p: Point)
    requires Grouped(polygons, groups, reach, width, height) && j < |groups| && k < |groups|
    requires groups[j].crop.Has(p) && groups[k].crop.Has(p)
    ensures j == k
  {
  }

  /** A pixel within `far` of a painted pixel lies in every rectangle reaching that far. */
  lemma PaintedReach(cv: Cv, polygon: Polygon, reach: nat, width: nat, height: nat, f: Point, s: Point, far: nat)
    requires FillLaw(cv) && polygon != [] && cv.paints(polygon, f) && Near(f, s, far) && far <= reach
    requires Frame(width, height).Has(s)
    ensures Reached(polygon, reach, width, height).Has(s)
  {
  }

  /** A protected pixel is near a pixel painted by some polygon. */
  lemma ProtectedOrigin(cv: Cv, polygons: seq<Polygon>, region: Rect, pad: nat, q: Point)
    returns (f: Point, polygon: Polygon)
    requires RootLaw(cv) && RintLaw(cv) && q in Protected(cv, polygons, region, pad)
    ensures region.Has(q) && region.Has(f) && polygon in polygons && cv.paints(polygon, f) && Near(f, q, pad)
    ensures Ellipse(cv, pad, f.x - q.x, f.y - q.y)
  {
    f :| f in Filled(cv, polygons, region) && Ellipse(cv, pad, f.x - q.x, f.y - q.y);
    polygon :| polygon in polygons && cv.paints(polygon, f);
    EllipseIsNear(cv, pad, q, f);
  }

  lemma ProtectedFrom(cv: Cv, polygons: seq<Polygon>, region: Rect, pad: nat, q: Point, f: Point, polygon: Polygon)
    requires region.Has(q) && region.Has(f) && polygon in polygons && cv.paints(polygon, f)
    requires Ellipse(cv, pad, f.x - q.x, f.y - q.y)
    ensures q in Protected(cv, polygons, region, pad)
  {
    assert f in Filled(cv, polygons, region);
  }

  ghost predicate Laws(cv: Cv) {
    FillLaw(cv) && RootLaw(cv) && RintLaw(cv)
  }

  /** Inside one crop the frame's protected pixels are those of the crop's own polygons. */
  lemma CropProtects(cv: Cv, polygons: seq<Polygon>, groups: seq<Group>, reach: nat, width: nat, height: nat, k: nat,
                     pad: nat, q: Point)
    requires Laws(cv) && Grouped(polygons, groups, reach, width, height) && k < |groups| && pad <= reach
    requires groups[k].crop.Has(q)
    ensures q in Protected(cv, polygons, Frame(width, height), pad) <==>
            q in Protected(cv, groups[k].members, groups[k].crop, pad)
  {
    hide Protected, Reached, Ellipse, RootLaw, RintLaw, FillLaw;
    var frame, crop, members := Frame(width, height), groups[k].crop, groups[k].members;
    if q in Protected(cv, polygons, frame, pad) {
      var f, polygon := ProtectedOrigin(cv, polygons, frame, pad, q);
      var home := HomeOf(polygons, groups, reach, width, height, polygon);
      PaintedReach(cv, polygon, reach, width, height, f, q, pad);
      PaintedReach(cv, polygon, reach, width, height, f, f, 0);
      WithinHas(Reached(polygon, reach, width, height), groups[home].crop, q);
      WithinHas(Reached(polygon, reach, width, height), groups[home].crop, f);
      SamePixelSameCrop(polygons, groups, reach, width, height, home, k, q);
      ProtectedFrom(cv, members, crop, pad, q, f, polygon);
    }
    if q in Protected(cv, members, crop, pad) {
      var f, polygon := ProtectedOrigin(cv, members, crop, pad, q);
      ProtectedFrom(cv, polygons, frame, pad, q, f, polygon);
    }
  }

  lemma WithinHas(inner: Rect, outer: Rect, p: Point)
    requires inner.Within(outer) && inner.Has(p)
    ensures outer.Has(p)
  {
  }

  /** Other groups' protected pixels never come within the feather's reach of a crop. */
  lemma CropIsIsolated(cv: Cv, polygons: seq<Polygon>, groups: seq<Group>, width: nat, height: nat, k: nat,
                       margin: nat, pad: nat)
    requires Laws(cv) && Grouped(polygons, groups, pad + margin + 1, width, height) && k < |groups|
    ensures Isolated(Protected(cv, polygons, Frame(width, height), pad), Frame(width, height), groups[k].crop,
                     Reach(margin))
  {
    hide Protected, Reached, Ellipse, RootLaw, RintLaw, FillLaw;
    var frame, reach := Frame(width, height), pad + margin + 1;
    forall q, s | q in Protected(cv, polygons, frame, pad) && frame.Has(s) && Near(q, s, Reach(margin))
      ensures groups[k].crop.Has(q) <==> groups[k].crop.Has(s)
    {
      var f, polygon := ProtectedOrigin(cv, polygons, frame, pad, q);
      var home := HomeOf(polygons, groups, reach, width, height, polygon);
      PaintedReach(cv, polygon, reach, width, height, f, q, pad);
      PaintedReach(cv, polygon, reach, width, height, f, s, reach);
      WithinHas(Reached(polygon, reach, width, height), groups[home].crop, q);
      WithinHas(Reached(polygon, reach, width, height), groups[home].crop, s);
      if groups[k].crop.Has(q) {
        SamePixelSameCrop(polygons, groups, reach, width, height, home, k, q);
      } else if groups[k].crop.Has(s) {
        SamePixelSameCrop(polygons, groups, reach, width, height, home, k, s);
      }
    }
  }

  /** A crop computes the whole frame's blend weights. */
  lemma CropWeightIsFrameWeight(cv: Cv, polygons: seq<Polygon>, groups: seq<Group>, width: nat, height: nat, k: nat,
                                margin: nat, pad: nat, p: Point)
    requires Laws(cv) && Grouped(polygons, groups, pad + margin + 1, width, height) && k < |groups|
    requires groups[k].crop.Has(p)
    ensures Alpha(cv, Protected(cv, groups[k].members, groups[k].crop, pad), groups[k].crop, margin, p)
            == Weight(cv, polygons, width, height, margin, pad, p)
  {
    hide Reached, Alpha, RootLaw, RintLaw, FillLaw;
    var frame, crop, reach := Frame(width, height), groups[k].crop, pad + margin + 1;
    var all, own := Protected(cv, polygons, frame, pad), Protected(cv, groups[k].members, crop, pad);
    assert all <= frame.Points() && own <= crop.Points();
    hide Protected;
    CropIsIsolated(cv, polygons, groups, width, height, k, margin, pad);
    forall q ensures q in all * crop.Points() <==> q in own {
      if crop.Has(q) {
        CropProtects(cv, polygons, groups, reach, width, height, k, pad, q);
      }
    }
    assert all * crop.Points() == own;
    AlphaIsLocal(cv, all, frame, crop, margin, p);
  }

  /** Outside every crop the whole-frame weight is zero. */
  lemma NoCropNoWeight(cv: Cv, polygons: seq<Polygon>, groups: seq<Group>, width: nat, height: nat, margin: nat,
                       pad: nat, p: Point)
    requires Laws(cv) && Grouped(polygons, groups, pad + margin + 1, width, height)
    requires Frame(width, height).Has(p) && forall k :: 0 <= k < |groups| ==> !groups[k].crop.Has(p)
    ensures Weight(cv, polygons, width, height, margin, pad, p) == 0
  {
    hide Protected, Reached, Alpha, Ellipse, RootLaw, RintLaw, FillLaw;
    var frame, reach := Frame(width, height), pad + margin + 1;
    forall q | q in Protected(cv, polygons, frame, pad) ensures !Near(p, q, margin) {
      var f, polygon := ProtectedOrigin(cv, polygons, frame, pad, q);
      var home := HomeOf(polygons, groups, reach, width, height, polygon);
      if Near(p, q, margin) {
        PaintedReach(cv, polygon, reach, width, height, f, p, pad + margin);
        WithinHas(Reached(polygon, reach, width, height), groups[home].crop, p);
      }
    }
    NoNearPixelNoWeight(cv, Protected(cv, polygons, frame, pad), frame, margin, p);
  }

  /** What grouping promises is what the compositor needs. */
  lemma GroupsServe(polygons: seq<Polygon>, groups: seq<Group>, ids: seq<seq<nat>>, reach: nat, width: nat, height: nat)
    requires forall i :: 0 <= i < |polygons| ==> polygons[i] != []
    requires |groups| == |ids| && Finest(Reaches(polygons, reach, width, height), Blocks(ids))
    requires forall k :: 0 <= k < |groups| ==>
             Carries(polygons, Reaches(polygons, reach, width, height), groups[k], ids[k])
    requires forall j, k :: 0 <= j < k < |groups| ==> !groups[j].crop.Overlaps(groups[k].crop)
    ensures Grouped(polygons, groups, reach, width, height)
  {
    hide Inseparable, Apart, Reached, Finest;
    var rects := Reaches(polygons, reach, width, height);
    forall k | 0 <= k < |groups| ensures groups[k].members != [] && groups[k].crop.Within(Frame(width, height)) {
      CropInFrame(polygons, reach, width, height, Block(ids[k]), groups[k].crop);
      HullIsOfSomething(rects, Block(ids[k]), groups[k].crop);
    }
    forall k, polygon | 0 <= k < |groups| && polygon in groups[k].members
      ensures polygon in polygons && polygon != [] && Reached(polygon, reach, width, height).Within(groups[k].crop)
    {
      MemberReached(polygons, reach, width, height, groups[k], ids[k], polygon);
    }
    forall polygon | polygon in polygons ensures exists k :: 0 <= k < |groups| && polygon in groups[k].members {
      var i :| 0 <= i < |polygons| && polygons[i] == polygon;
      var k := CarrierOf(rects, ids, i);
      var j :| 0 <= j < |ids[k]| && ids[k][j] == i;
      assert groups[k].members[j] == polygon;
    }
  }

  lemma CropInFrame(polygons: seq<Polygon>, reach: nat, width: nat, height: nat, block: set<nat>, crop: Rect)
    requires forall i :: 0 <= i < |polygons| ==> polygons[i] != []
    requires IsHull(Reaches(polygons, reach, width, height), block, crop)
    ensures crop.Within(Frame(width, height))
  {
    assert Encloses(Reaches(polygons, reach, width, height), block, Frame(width, height));
  }

  lemma MemberReached(polygons: seq<Polygon>, reach: nat, width: nat, height: nat, group: Group, ids: seq<nat>,
                      polygon: Polygon)
    requires forall i :: 0 <= i < |polygons| ==> polygons[i] != []
    requires Carries(polygons, Reaches(polygons, reach, width, height), group, ids) && polygon in group.members
    ensures polygon in polygons && polygon != [] && Reached(polygon, reach, width, height).Within(group.crop)
  {
    var j :| 0 <= j < |group.members| && group.members[j] == polygon;
    assert ids[j] in Block(ids);
    assert Reaches(polygons, reach, width, height)[ids[j]].Within(group.crop);
  }

  lemma CarrierOf(rects: seq<Rect>, ids: seq<seq<nat>>, i: nat) returns (k: nat)
    requires Finest(rects, Blocks(ids)) && i < |rects|
    ensures k < |ids| && i in ids[k]
  {
    hide Inseparable, Apart;
    assert i in Indices(|rects|);
    assert InSome(Blocks(ids), i);
    k :| 0 <= k < |Blocks(ids)| && i in Blocks(ids)[k];
  }

  // ---- Layers ----------------------------------------------------------------------------

  /** The blend weights of one rectangle of the frame. */
  datatype Layer = Layer(left: int, top: int, alpha: Image) {

    function Box(): Rect {
      Rect(left, top, left + alpha.width, top + alpha.height)
    }

    function WeightAt(p: Point): int
      requires alpha.Valid() && Box().Has(p)
    {
      alpha.At(p.x - left, p.y - top)
    }
  }

  ghost predicate LayersFit(image: Image, layers: seq<Layer>) {
    && image.Valid()
    && (forall k :: 0 <= k < |layers| ==> layers[k].alpha.Valid() && Inside(layers[k].Box(), image))
    && (forall j, k :: 0 <= j < k < |layers| ==> !layers[j].Box().Overlaps(layers[k].Box()))
  }

  /** Pixels that a blur of `box` reads, as the cost estimate counts them. */
  function BlurArea(box: Rect, support: int, width: nat, height: nat): int {
    (Min(width, box.right + support) - Max(0, box.left - support))
    * (Min(height, box.bottom + support) - Max(0, box.top - support))
  }

  /** `value` is pixel (x, y) with the first `n` layers blended: at most one of them covers it. */
  ghost predicate PixelSoFar(cv: Cv, image: Image, layers: seq<Layer>, radius: real, cell: nat, n: nat, x: int, y: int,
                             value: int)
    requires LayersFit(image, layers) && n <= |layers| && cell > 0 && image.In(x, y)
  {
    && (forall k :: 0 <= k < n && layers[k].Box().Has(Point(x, y)) ==>
        value == BlendedWith(cv, image, layers[k], radius, cell, x, y))
    && ((forall k :: 0 <= k < n ==> !layers[k].Box().Has(Point(x, y))) ==> value == image.At(x, y))
  }

  function BlendedWith(cv: Cv, image: Image, layer: Layer, radius: real, cell: nat, x: int, y: int): int
    requires image.Valid() && image.In(x, y) && cell > 0 && layer.alpha.Valid() && layer.Box().Has(Point(x, y))
  {
    Blend(image.At(x, y), BlurredAt(cv, image, radius, cell, Point(x, y)), layer.WeightAt(Point(x, y)))
  }

  /** The first `n` layers are blended into `output`; everything else is still the image. */
  ghost predicate BlendedSoFar(cv: Cv, image: Image, layers: seq<Layer>, radius: real, cell: nat, output: array2<int>,
                               n: nat)
    requires LayersFit(image, layers) && n <= |layers| && cell > 0
    reads output
  {
    && output.Length0 == image.height && output.Length1 == image.width
    && forall x, y {:trigger output[y, x]} :: image.In(x, y) ==>
      PixelSoFar(cv, image, layers, radius, cell, n, x, y, output[y, x])
  }

  /** The frame with every layer blended. */
  ghost predicate Blended(cv: Cv, image: Image, layers: seq<Layer>, radius: real, cell: nat, out: Image)
    requires LayersFit(image, layers) && cell > 0
  {
    && out.Valid() && out.width == image.width && out.height == image.height
    && forall x, y {:trigger out.At(x, y)} :: image.In(x, y) ==>
      PixelSoFar(cv, image, layers, radius, cell, |layers|, x, y, out.At(x, y))
  }

  /** A pixel of layer `n` is covered by no earlier layer. */
  lemma PixelBlended(cv: Cv, image: Image, layers: seq<Layer>, radius: real, cell: nat, n: nat, x: int, y: int)
    requires LayersFit(image, layers) && n < |layers| && cell > 0 && image.In(x, y) && layers[n].Box().Has(Point(x, y))
    ensures PixelSoFar(cv, image, layers, radius, cell, n + 1, x, y,
                       BlendedWith(cv, image, layers[n], radius, cell, x, y))
  {
    hide BlendedWith;
    forall k | 0 <= k < n ensures !layers[k].Box().Has(Point(x, y)) {
      assert !layers[k].Box().Overlaps(layers[n].Box());
    }
  }

  lemma PixelKept(cv: Cv, image: Image, layers: seq<Layer>, radius: real, cell: nat, n: nat, x: int, y: int, value: int)
    requires LayersFit(image, layers) && n < |layers| && cell > 0 && image.In(x, y) && !layers[n].Box().Has(Point(x, y))
    requires PixelSoFar(cv, image, layers, radius, cell, n, x, y, value)
    ensures PixelSoFar(cv, image, layers, radius, cell, n + 1, x, y, value)
  {
    hide BlendedWith;
  }

  /** Blends one layer in place. */
  method BlendOne(cv: Cv, image: Image, layers: seq<Layer>, radius: real, cell: nat, output: array2<int>, n: nat,
                  blurred: Image)
    requires LayersFit(image, layers) && n < |layers| && cell > 0
    requires BlendedSoFar(cv, image, layers, radius, cell, output, n)
    requires HoldsBlur(cv, image, layers[n].Box(), radius, cell, blurred)
    modifies output
    ensures BlendedSoFar(cv, image, layers, radius, cell, output, n + 1)
  {
    hide BlurredAt, FrameBlurAt, Blend, PixelSoFar;
    var box, layer := layers[n].Box(), layers[n];
    forall y, x | box.top <= y < box.bottom && box.left <= x < box.right {
      output[y, x] := Blend(image.At(x, y), blurred.At(x - layer.left, y - layer.top),
                            layer.alpha.At(x - layer.left, y - layer.top));
    }
    forall x, y | image.In(x, y) ensures PixelSoFar(cv, image, layers, radius, cell, n + 1, x, y, output[y, x]) {
      var p := Point(x, y);
      if box.Has(p) {
        assert blurred.At(p.x - layer.left, p.y - layer.top) == BlurredAt(cv, image, radius, cell, p);
        PixelBlended(cv, image, layers, radius, cell, n, x, y);
      } else {
        PixelKept(cv, image, layers, radius, cell, n, x, y, output[y, x]);
      }
    }
  }

  /** `blurred` holds the frame's blur over `box`. */
  ghost predicate HoldsBlur(cv: Cv, image: Image, box: Rect, radius: real, cell: nat, blurred: Image)
    requires image.Valid() && Inside(box, image) && cell > 0
  {
    && blurred.Valid() && blurred.width == box.Width() && blurred.height == box.Height()
    && forall p {:trigger BlurredAt(cv, image, radius, cell, p)} :: box.Has(p) ==>
         blurred.At(p.x - box.left, p.y - box.top) == BlurredAt(cv, image, radius, cell, p)
  }

  lemma OwnBlur(cv: Cv, image: Image, box: Rect, radius: real, cell: nat)
    requires KernelLaw(cv) && image.Valid() && radius > 0.0 && cell > 0 && Inside(box, image)
    ensures HoldsBlur(cv, image, box, radius, cell, FrameBlur(cv, image, box, radius, cell))
  {
    hide BlurredAt, FrameBlur, KernelLaw;
    forall p | box.Has(p)
      ensures FrameBlur(cv, image, box, radius, cell).At(p.x - box.left, p.y - box.top)
              == BlurredAt(cv, image, radius, cell, p)
    {
      BlurIsWindowIndependent(cv, image, box, radius, cell, p);
    }
  }

  /** A slice of a shared blur is the frame's blur over the slice. */
  lemma SlicedBlur(cv: Cv, image: Image, union: Rect, box: Rect, radius: real, cell: nat, shared: Image)
    requires image.Valid() && Inside(union, image) && Inside(box, image) && box.Within(union) && cell > 0
    requires HoldsBlur(cv, image, union, radius, cell, shared)
    ensures HoldsBlur(cv, image, box, radius, cell, Crop(shared, MovedRect(box, -union.left, -union.top)))
  {
    hide BlurredAt, Crop;
    var part := Crop(shared, MovedRect(box, -union.left, -union.top));
    forall p | box.Has(p) ensures part.At(p.x - box.left, p.y - box.top) == BlurredAt(cv, image, radius, cell, p) {
      assert union.Has(p);
      assert part.At(p.x - box.left, p.y - box.top) == shared.At(p.x - union.left, p.y - union.top);
    }
  }

  lemma UnionInside(a: Rect, b: Rect, image: Image)
    requires Inside(a, image) && Inside(b, image)
    ensures Inside(a.Hull(b), image) && a.Within(a.Hull(b)) && b.Within(a.Hull(b))
  {
  }

  /** Bounding box of the layers and the summed cost of blurring each on its own. */
  method MeasureLayers(image: Image, layers: seq<Layer>, support: int) returns (union: Rect, total: int)
    requires LayersFit(image, layers) && layers != []
    ensures Inside(union, image) && forall k :: 0 <= k < |layers| ==> layers[k].Box().Within(union)
  {
    union := layers[0].Box();
    total := BlurArea(union, support, image.width, image.height);
    for n := 1 to |layers|
      invariant Inside(union, image) && forall k :: 0 <= k < n ==> layers[k].Box().Within(union)
    {
      UnionInside(union, layers[n].Box(), image);
      union := union.Hull(layers[n].Box());
      total := total + BlurArea(layers[n].Box(), support, image.width, image.height);
    }
  }

  /** Blends every layer, blurring once over their union when that is cheaper. */
  method BlendLayers(cv: Cv, image: Image, layers: seq<Layer>, radius: real, pixelSize: nat) returns (out: Image)
    requires KernelLaw(cv) && LayersFit(image, layers) && radius > 0.0 && pixelSize > 0
    ensures Blended(cv, image, layers, radius, ReductionCell(radius, pixelSize), out)
  {
    hide BlurredAt, FrameBlur, KernelLaw, Blend, Crop;
    var cell := ReductionCell(radius, pixelSize);
    if layers == [] {
      return image;
    }
    var support := BlurSupport(radius, cell);
    var union, total := MeasureLayers(image, layers, support);
    var share := total >= BlurArea(union, support, image.width, image.height);
    var shared := Image(0, 0, []);
    if share {
      shared := FrameBlur(cv, image, union, radius, cell);
      OwnBlur(cv, image, union, radius, cell);
    }
    var output := new int[image.height, image.width](
      (y, x) requires image.Valid() && image.In(x, y) => image.At(x, y));
    for n := 0 to |layers|
      invariant BlendedSoFar(cv, image, layers, radius, cell, output, n)
    {
      var box := layers[n].Box();
      var blurred;
      if share {
        SlicedBlur(cv, image, union, box, radius, cell, shared);
        blurred := Crop(shared, MovedRect(box, -union.left, -union.top));
      } else {
        OwnBlur(cv, image, box, radius, cell);
        blurred := FrameBlur(cv, image, box, radius, cell);
      }
      BlendOne(cv, image, layers, radius, cell, output, n, blurred);
    }
    out := Freeze(output);
    AllBlended(cv, image, layers, radius, cell, output);
  }

  lemma AllBlended(cv: Cv, image: Image, layers: seq<Layer>, radius: real, cell: nat, output: array2<int>)
    requires LayersFit(image, layers) && cell > 0 && BlendedSoFar(cv, image, layers, radius, cell, output, |layers|)
    ensures Blended(cv, image, layers, radius, cell, Freeze(output))
  {
    hide BlurredAt, Blend;
  }

  // ---- The compositor ----------------------------------------------------------------------

  /** The weights computed inside one crop. */
  function CropWeight(cv: Cv, group: Group, margin: nat, pad: nat, p: Point): int {
    Alpha(cv, Protected(cv, group.members, group.crop, pad), group.crop, margin, p)
  }

  /** `layer` carries every nonzero weight of the crop. */
  ghost predicate LayerOf(cv: Cv, group: Group, margin: nat, pad: nat, layer: Option<Layer>) {
    && (layer.Some? ==>
          && layer.value.alpha.Valid() && layer.value.alpha.width > 0 && layer.value.alpha.height > 0
          && layer.value.Box().Within(group.crop)
          && forall p :: layer.value.Box().Has(p) ==> layer.value.WeightAt(p) == CropWeight(cv, group, margin, pad, p))
    && forall p :: group.crop.Has(p) && (layer.Some? ==> !layer.value.Box().Has(p)) ==>
      CropWeight(cv, group, margin, pad, p) == 0
  }

  lemma LocalWeight(cv: Cv, group: Group, margin: nat, pad: nat, q: Point)
    requires FillLaw(cv)
    ensures var c := group.crop;
            Alpha(cv, Protected(cv, AllMoved(group.members, -c.left, -c.top), Frame(c.Width(), c.Height()), pad),
                  Frame(c.Width(), c.Height()), margin, q)
            == CropWeight(cv, group, margin, pad, Moved(q, c.left, c.top))
  {
    hide Alpha, Protected, FillLaw;
    var c := group.crop;
    var own := Protected(cv, group.members, c, pad);
    assert MovedRect(c, -c.left, -c.top) == Frame(c.Width(), c.Height());
    ProtectedMoves(cv, group.members, c, pad, -c.left, -c.top);
    AlphaMoves(cv, own, c, margin, Moved(q, c.left, c.top), -c.left, -c.top);
    assert Moved(Moved(q, c.left, c.top), -c.left, -c.top) == q;
  }

  /** `alpha` is the crop's weights in the crop's own coordinates. */
  ghost predicate LocalAlpha(cv: Cv, group: Group, margin: nat, pad: nat, alpha: Image) {
    && alpha.Valid() && alpha.width == group.crop.Width() && alpha.height == group.crop.Height()
    && forall x, y {:trigger alpha.At(x, y)} :: alpha.In(x, y) ==>
         alpha.At(x, y) == CropWeight(cv, group, margin, pad, Point(x + group.crop.left, y + group.crop.top))
  }

  lemma TrimmedLayer(cv: Cv, group: Group, margin: nat, pad: nat, alpha: Image, r: Rect)
    requires LocalAlpha(cv, group, margin, pad, alpha)
    requires Tracks(r, Pixels(alpha)) && r.left >= 0 && r.top >= 0 && r.right <= alpha.width && r.bottom <= alpha.height
    requires r.left < r.right && r.top < r.bottom
    ensures LayerOf(cv, group, margin, pad,
                    Some(Layer(group.crop.left + r.left, group.crop.top + r.top, Crop(alpha, r))))
  {
    hide CropWeight, Crop, Pixels, Tracks, LocalAlpha;
    var c := group.crop;
    LocalAlphaSize(cv, group, margin, pad, alpha);
    var layer := Layer(c.left + r.left, c.top + r.top, Crop(alpha, r));
    forall p | c.Has(p)
      ensures layer.Box().Has(p) ==> layer.WeightAt(p) == CropWeight(cv, group, margin, pad, p)
      ensures !layer.Box().Has(p) ==> CropWeight(cv, group, margin, pad, p) == 0
    {
      TrimmedAt(cv, group, margin, pad, alpha, r, p);
    }
  }

  lemma LocalAlphaSize(cv: Cv, group: Group, margin: nat, pad: nat, alpha: Image)
    requires LocalAlpha(cv, group, margin, pad, alpha)
    ensures alpha.Valid() && alpha.width == group.crop.Width() && alpha.height == group.crop.Height()
  {
  }

  lemma TrimmedAt(cv: Cv, group: Group, margin: nat, pad: nat, alpha: Image, r: Rect, p: Point)
    requires LocalAlpha(cv, group, margin, pad, alpha) && group.crop.Has(p)
    requires Tracks(r, Pixels(alpha)) && r.left >= 0 && r.top >= 0 && r.right <= alpha.width && r.bottom <= alpha.height
    requires r.left < r.right && r.top < r.bottom
    ensures var x, y := p.x - group.crop.left, p.y - group.crop.top;
            if r.Has(Point(x, y)) then Crop(alpha, r).At(x - r.left, y - r.top) == CropWeight(cv, group, margin, pad, p)
            else CropWeight(cv, group, margin, pad, p) == 0
  {
    hide CropWeight, Crop, Pixels, Tracks, LocalAlpha;
    LocalAlphaSize(cv, group, margin, pad, alpha);
    LocalAlphaAt(cv, group, margin, pad, alpha, p);
    var x, y := p.x - group.crop.left, p.y - group.crop.top;
    if r.Has(Point(x, y)) {
      assert Crop(alpha, r).At(x - r.left, y - r.top) == alpha.At(x, y);
    } else {
      OutsideTracked(alpha, r, x, y);
    }
  }

  lemma OutsideTracked(alpha: Image, r: Rect, x: int, y: int)
    requires alpha.Valid() && alpha.In(x, y) && Tracks(r, Pixels(alpha)) && !r.Has(Point(x, y))
    ensures alpha.At(x, y) == 0
  {
    hide Pixels;
    if Point(x, y) !in Pixels(alpha) {
      UnsetPixel(alpha, x, y);
    }
  }

  lemma LocalAlphaAt(cv: Cv, group: Group, margin: nat, pad: nat, alpha: Image, p: Point)
    requires LocalAlpha(cv, group, margin, pad, alpha) && group.crop.Has(p)
    ensures alpha.At(p.x - group.crop.left, p.y - group.crop.top) == CropWeight(cv, group, margin, pad, p)
  {
    hide CropWeight;
    var x, y := p.x - group.crop.left, p.y - group.crop.top;
    assert alpha.At(x, y) == CropWeight(cv, group, margin, pad, Point(x + group.crop.left, y + group.crop.top));
  }

  lemma TrackedIsProper(r: Rect, s: set<Point>)
    requires Tracks(r, s) && r.Width() != 0
    ensures r.left < r.right && r.top < r.bottom
  {
  }

  lemma UnsetPixel(alpha: Image, x: int, y: int)
    requires alpha.Valid() && alpha.In(x, y) && Point(x, y) !in Pixels(alpha)
    ensures alpha.At(x, y) == 0
  {
  }

  lemma EmptyLayer(cv: Cv, group: Group, margin: nat, pad: nat, alpha: Image)
    requires LocalAlpha(cv, group, margin, pad, alpha) && Pixels(alpha) == {}
    ensures LayerOf(cv, group, margin, pad, None)
  {
    hide CropWeight;
    var c := group.crop;
    forall p | c.Has(p) ensures CropWeight(cv, group, margin, pad, p) == 0 {
      UnsetPixel(alpha, p.x - c.left, p.y - c.top);
      LocalAlphaAt(cv, group, margin, pad, alpha, p);
    }
  }

  /** Masks and feathers one group in its crop's coordinates. */
  method CropAlpha(cv: Cv, group: Group, margin: nat, pad: nat) returns (alpha: Image)
    requires Laws(cv) && group.crop.left < group.crop.right && group.crop.top < group.crop.bottom
    ensures LocalAlpha(cv, group, margin, pad, alpha)
  {
    hide Alpha, Protected, FillLaw, RootLaw, RintLaw, Pixels, CropWeight;
    var c := group.crop;
    var mask := FillPolygons(cv, c.Width(), c.Height(), AllMoved(group.members, -c.left, -c.top), pad);
    alpha := FeatheredMask(cv, mask, margin);
    forall x, y | alpha.In(x, y)
      ensures alpha.At(x, y) == CropWeight(cv, group, margin, pad, Point(x + c.left, y + c.top))
    {
      LocalWeight(cv, group, margin, pad, Point(x, y));
    }
  }

  /** The crop's weights, trimmed to the nonzero ones. */
  method CropLayer(cv: Cv, group: Group, margin: nat, pad: nat) returns (layer: Option<Layer>)
    requires Laws(cv) && group.crop.left < group.crop.right && group.crop.top < group.crop.bottom
    ensures LayerOf(cv, group, margin, pad, layer)
  {
    hide FillLaw, RootLaw, RintLaw, Pixels, Tracks, LayerOf, CropWeight, LocalAlpha, Crop;
    var alpha := CropAlpha(cv, group, margin, pad);
    LocalAlphaSize(cv, group, margin, pad, alpha);
    var r := BoundingRect(alpha);
    if r.Width() == 0 {
      EmptyLayer(cv, group, margin, pad, alpha);
      return None;
    }
    TrackedIsProper(r, Pixels(alpha));
    TrimmedLayer(cv, group, margin, pad, alpha, r);
    layer := Some(Layer(group.crop.left + r.left, group.crop.top + r.top, Crop(alpha, r)));
  }

  ghost predicate InSomeCrop(groups: seq<Group>, n: nat, box: Rect)
    requires n <= |groups|
  {
    exists j :: 0 <= j < n && box.Within(groups[j].crop)
  }

  /** Every weight of the layer is the frame's. */
  ghost predicate RightLayer(cv: Cv, image: Image, polygons: seq<Polygon>, margin: nat, pad: nat, layer: Layer) {
    layer.alpha.Valid()
    && forall p :: layer.Box().Has(p) ==>
      layer.WeightAt(p) == Weight(cv, polygons, image.width, image.height, margin, pad, p)
  }

  /** Where no layer covers the crop, the frame's weight is zero. */
  ghost predicate RestIsZero(cv: Cv, image: Image, polygons: seq<Polygon>, margin: nat, pad: nat, layers: seq<Layer>,
                             crop: Rect)
  {
    forall p :: crop.Has(p) && (forall k :: 0 <= k < |layers| ==> !layers[k].Box().Has(p)) ==>
      Weight(cv, polygons, image.width, image.height, margin, pad, p) == 0
  }

  /** The layers made from the first `n` groups carry exactly the frame's weights there. */
  ghost predicate LayersSoFar(cv: Cv, image: Image, polygons: seq<Polygon>, groups: seq<Group>, margin: nat, pad: nat,
                              layers: seq<Layer>, n: nat)
    requires n <= |groups|
  {
    && LayersFit(image, layers)
    && (forall k :: 0 <= k < |layers| ==>
        InSomeCrop(groups, n, layers[k].Box()) && RightLayer(cv, image, polygons, margin, pad, layers[k]))
    && (forall j :: 0 <= j < n ==> RestIsZero(cv, image, polygons, margin, pad, layers, groups[j].crop))
  }

  lemma GroupWeights(cv: Cv, image: Image, polygons: seq<Polygon>, groups: seq<Group>, margin: nat, pad: nat, n: nat,
                     p: Point)
    requires Laws(cv) && n < |groups| && Grouped(polygons, groups, pad + margin + 1, image.width, image.height)
             && groups[n].crop.Has(p)
    ensures CropWeight(cv, groups[n], margin, pad, p) == Weight(cv, polygons, image.width, image.height, margin, pad, p)
  {
    hide Weight, Laws, Grouped, CropWeight;
    CropWeightIsFrameWeight(cv, polygons, groups, image.width, image.height, n, margin, pad, p);
    CropWeightIs(cv, groups[n], margin, pad, p);
  }

  lemma SkipGroup(cv: Cv, image: Image, polygons: seq<Polygon>, groups: seq<Group>, margin: nat, pad: nat,
                  layers: seq<Layer>, n: nat)
    requires Laws(cv) && n < |groups| && Grouped(polygons, groups, pad + margin + 1, image.width, image.height)
    requires LayersSoFar(cv, image, polygons, groups, margin, pad, layers, n)
             && LayerOf(cv, groups[n], margin, pad, None)
    ensures LayersSoFar(cv, image, polygons, groups, margin, pad, layers, n + 1)
  {
    hide Weight, Laws, Grouped, LayersFit, CropWeight, RightLayer;
    forall p | groups[n].crop.Has(p) ensures Weight(cv, polygons, image.width, image.height, margin, pad, p) == 0 {
      GroupWeights(cv, image, polygons, groups, margin, pad, n, p);
    }
    assert RestIsZero(cv, image, polygons, margin, pad, layers, groups[n].crop);
    hide RestIsZero;
  }

  lemma NewLayerIsRight(cv: Cv, image: Image, polygons: seq<Polygon>, groups: seq<Group>, margin: nat, pad: nat,
                        n: nat, layer: Layer)
    requires Laws(cv) && n < |groups| && Grouped(polygons, groups, pad + margin + 1, image.width, image.height)
    requires LayerOf(cv, groups[n], margin, pad, Some(layer))
    ensures RightLayer(cv, image, polygons, margin, pad, layer)
  {
    hide Weight, Laws, Grouped, CropWeight;
    forall p | layer.Box().Has(p)
      ensures layer.WeightAt(p) == Weight(cv, polygons, image.width, image.height, margin, pad, p)
    {
      GroupWeights(cv, image, polygons, groups, margin, pad, n, p);
    }
  }

  lemma NewLayerLeavesZero(cv: Cv, image: Image, polygons: seq<Polygon>, groups: seq<Group>, margin: nat, pad: nat,
                           layers: seq<Layer>, n: nat, layer: Layer)
    requires Laws(cv) && n < |groups| && Grouped(polygons, groups, pad + margin + 1, image.width, image.height)
    requires LayerOf(cv, groups[n], margin, pad, Some(layer)) && layer in layers
    ensures RestIsZero(cv, image, polygons, margin, pad, layers, groups[n].crop)
  {
    hide Weight, Laws, Grouped, CropWeight;
    var i :| 0 <= i < |layers| && layers[i] == layer;
    forall p | groups[n].crop.Has(p) && (forall k :: 0 <= k < |layers| ==> !layers[k].Box().Has(p))
      ensures Weight(cv, polygons, image.width, image.height, margin, pad, p) == 0
    {
      assert !layers[i].Box().Has(p);
      GroupWeights(cv, image, polygons, groups, margin, pad, n, p);
    }
  }

  /** More layers leave less uncovered. */
  lemma RestStaysZero(cv: Cv, image: Image, polygons: seq<Polygon>, margin: nat, pad: nat, layers: seq<Layer>,
                      layer: Layer, crop: Rect)
    requires RestIsZero(cv, image, polygons, margin, pad, layers, crop)
    ensures RestIsZero(cv, image, polygons, margin, pad, layers + [layer], crop)
  {
    hide Weight;
    var more := layers + [layer];
    forall p | crop.Has(p) && (forall k :: 0 <= k < |more| ==> !more[k].Box().Has(p))
      ensures Weight(cv, polygons, image.width, image.height, margin, pad, p) == 0
    {
      forall k | 0 <= k < |layers| ensures !layers[k].Box().Has(p) {
        assert more[k] == layers[k];
      }
    }
  }

  lemma InMoreCrops(groups: seq<Group>, n: nat, box: Rect)
    requires n < |groups| && (InSomeCrop(groups, n, box) || box.Within(groups[n].crop))
    ensures InSomeCrop(groups, n + 1, box)
  {
  }

  lemma AddLayer(cv: Cv, image: Image, polygons: seq<Polygon>, groups: seq<Group>, margin: nat, pad: nat,
                 layers: seq<Layer>, n: nat, layer: Layer)
    requires Laws(cv) && n < |groups| && Grouped(polygons, groups, pad + margin + 1, image.width, image.height)
    requires LayersSoFar(cv, image, polygons, groups, margin, pad, layers, n)
             && LayerOf(cv, groups[n], margin, pad, Some(layer))
    ensures LayersSoFar(cv, image, polygons, groups, margin, pad, layers + [layer], n + 1)
  {
    hide Weight, Laws, Grouped, LayersFit, CropWeight, RightLayer, RestIsZero, InSomeCrop;
    var more := layers + [layer];
    NewLayerFits(image, polygons, groups, margin, pad, layers, n, layer);
    NewLayerIsRight(cv, image, polygons, groups, margin, pad, n, layer);
    NewLayerLeavesZero(cv, image, polygons, groups, margin, pad, more, n, layer);
    hide LayerOf;
    forall k | 0 <= k < |more|
      ensures InSomeCrop(groups, n + 1, more[k].Box()) && RightLayer(cv, image, polygons, margin, pad, more[k])
    {
      assert k < |layers| ==> more[k] == layers[k];
      InMoreCrops(groups, n, more[k].Box());
    }
    forall j | 0 <= j < n + 1 ensures RestIsZero(cv, image, polygons, margin, pad, more, groups[j].crop) {
      if j < n {
        RestStaysZero(cv, image, polygons, margin, pad, layers, layer, groups[j].crop);
      }
    }
  }

  lemma CropWeightIs(cv: Cv, group: Group, margin: nat, pad: nat, p: Point)
    ensures CropWeight(cv, group, margin, pad, p)
            == Alpha(cv, Protected(cv, group.members, group.crop, pad), group.crop, margin, p)
  {
  }

  lemma NewLayerFits(image: Image, polygons: seq<Polygon>, groups: seq<Group>, margin: nat, pad: nat,
                     layers: seq<Layer>, n: nat, layer: Layer)
    requires n < |groups| && Grouped(polygons, groups, pad + margin + 1, image.width, image.height)
             && LayersFit(image, layers)
    requires forall k :: 0 <= k < |layers| ==> InSomeCrop(groups, n, layers[k].Box())
    requires layer.alpha.Valid() && layer.alpha.width > 0 && layer.alpha.height > 0
             && layer.Box().Within(groups[n].crop)
    ensures LayersFit(image, layers + [layer])
  {
    hide Reached;
    forall k | 0 <= k < |layers| ensures !layers[k].Box().Overlaps(layer.Box()) {
      var j :| 0 <= j < n && layers[k].Box().Within(groups[j].crop);
      assert !groups[j].crop.Overlaps(groups[n].crop);
    }
  }

  lemma CropNotEmpty(polygons: seq<Polygon>, groups: seq<Group>, reach: nat, width: nat, height: nat, k: nat)
    requires Grouped(polygons, groups, reach, width, height) && k < |groups|
    requires forall i :: 0 <= i < |polygons| ==> InFrame(polygons[i], width, height)
    ensures groups[k].crop.left < groups[k].crop.right && groups[k].crop.top < groups[k].crop.bottom
  {
    var polygon := groups[k].members[0];
    assert polygon in polygons;
    assert InFrame(polygon, width, height);
    assert BoundingBox(polygon).Has(polygon[0]);
    assert Reached(polygon, reach, width, height).Has(polygon[0]);
  }

  /** Blending the groups' layers gives the frame composed at once. */
  lemma LayersComposeFrame(cv: Cv, image: Image, polygons: seq<Polygon>, groups: seq<Group>, radius: real, cell: nat,
                           margin: nat, pad: nat, layers: seq<Layer>, out: Image, p: Point)
    requires Laws(cv) && cell > 0 && Grouped(polygons, groups, pad + margin + 1, image.width, image.height)
    requires LayersSoFar(cv, image, polygons, groups, margin, pad, layers, |groups|)
    requires Blended(cv, image, layers, radius, cell, out) && image.In(p.x, p.y)
    ensures out.At(p.x, p.y) == ComposedAt(cv, image, polygons, radius, cell, margin, pad, p)
  {
    hide Weight, Laws, Grouped, BlurredAt;
    assert Point(p.x, p.y) == p;
    if k :| 0 <= k < |layers| && layers[k].Box().Has(p) {
      assert layers[k].WeightAt(p) == Weight(cv, polygons, image.width, image.height, margin, pad, p);
    } else {
      BlendExtremes(image.At(p.x, p.y), BlurredAt(cv, image, radius, cell, p));
      if j :| 0 <= j < |groups| && groups[j].crop.Has(p) {
      } else {
        NoCropNoWeight(cv, polygons, groups, image.width, image.height, margin, pad, p);
      }
    }
  }

  /** Blurs every protected object, computing each group of nearby objects in its own crop; the
      result is the whole-frame composition, pixel for pixel. */
  method ComposeProtected(cv: Cv, image: Image, items: seq<Item>, radius: real, pixelSize: nat, margin: int, pad: int)
    returns (r: Result<Image>)
    requires Lawful(cv) && image.Valid() && image.width > 0 && image.height > 0 && radius > 0.0 && pixelSize > 0
    ensures r.Ok? <==> && 0 <= pad <= MAX_MASK_PAD && 0 <= margin <= MAX_MASK_MARGIN
                       && ProtectedPolygons(cv, items, image.width, image.height).Ok?
    ensures r.Ok? ==>
              && r.value.Valid() && r.value.width == image.width && r.value.height == image.height
              && forall p :: image.Bounds().Has(p) ==>
                   r.value.At(p.x, p.y) ==
                   ComposedAt(cv, image, ProtectedPolygons(cv, items, image.width, image.height).value,
                                                     radius, ReductionCell(radius, pixelSize), margin, pad, p)
  {
    if !(0 <= pad <= MAX_MASK_PAD) {
      return Err("mask pad must be an integer in 0..16");
    }
    var protected := ProtectedPolygons(cv, items, image.width, image.height);
    hide ProtectedPolygons;
    if protected.Err? {
      return Err(protected.message);
    }
    if !(0 <= margin <= MAX_MASK_MARGIN) {
      return Err("mask_margin must be an integer in 0..64");
    }
    var out := ComposePolygons(cv, image, protected.value, radius, pixelSize, margin, pad);
    r := Ok(out);
  }

  method ComposePolygons(cv: Cv, image: Image, polygons: seq<Polygon>, radius: real, pixelSize: nat, margin: nat,
                         pad: nat)
    returns (out: Image)
    requires Lawful(cv) && image.Valid() && radius > 0.0 && pixelSize > 0
    requires forall i :: 0 <= i < |polygons| ==> InFrame(polygons[i], image.width, image.height)
    ensures out.Valid() && out.width == image.width && out.height == image.height
    ensures forall p :: image.Bounds().Has(p) ==>
              out.At(p.x, p.y) ==
              ComposedAt(cv, image, polygons, radius, ReductionCell(radius, pixelSize), margin, pad, p)
  {
    hide FillLaw, RootLaw, RintLaw, KernelLaw, Finest, Carries, Reaches, ComposedAt;
    var reach := pad + margin + 1;
    var groups, ids := GroupPolygons(polygons, reach, image.width, image.height);
    GroupsServe(polygons, groups, ids, reach, image.width, image.height);
    hide Grouped, LayerOf, LayersFit;
    var layers: seq<Layer> := [];
    assert LayersFit(image, layers) by { NoLayersFit(image); }
    for n := 0 to |groups|
      invariant LayersSoFar(cv, image, polygons, groups, margin, pad, layers, n)
    {
      CropNotEmpty(polygons, groups, reach, image.width, image.height, n);
      var layer := CropLayer(cv, groups[n], margin, pad);
      if layer.Some? {
        AddLayer(cv, image, polygons, groups, margin, pad, layers, n, layer.value);
        layers := layers + [layer.value];
      } else {
        SkipGroup(cv, image, polygons, groups, margin, pad, layers, n);
      }
    }
    out := BlendLayers(cv, image, layers, radius, pixelSize);
    forall p | image.Bounds().Has(p)
      ensures out.At(p.x, p.y)
              == ComposedAt(cv, image, polygons, radius, ReductionCell(radius, pixelSize), margin, pad, p)
    {
      LayersComposeFrame(cv, image, polygons, groups, radius, ReductionCell(radius, pixelSize), margin, pad, layers,
                         out, p);
    }
  }

  lemma NoLayersFit(image: Image)
    requires image.Valid()
    ensures LayersFit(image, [])
  {
  }

  // ---- What the composition guarantees -----------------------------------------------------

  /** Every frame pixel filled by the polygon that traces a protected object's outline leaves composition
      fully blurred. */
  lemma FilledPixelsAreBlurred(cv: Cv, image: Image, items: seq<Item>, item: Item, polygon: Polygon, radius: real,
                               pixelSize: nat, margin: nat, pad: nat, p: Point)
    requires Lawful(cv) && image.Valid() && image.width > 0 && image.height > 0 && pixelSize > 0
             && image.Bounds().Has(p)
    requires ProtectedPolygons(cv, items, image.width, image.height).Ok? && item in items && MustBlur(item)
    requires item.outline.Some? && Traces(cv, polygon, item.outline.value, image.width, image.height)
    requires cv.paints(polygon, p)
    ensures var polygons := ProtectedPolygons(cv, items, image.width, image.height).value;
            var cell := ReductionCell(radius, pixelSize);
            ComposedAt(cv, image, polygons, radius, cell, margin, pad, p) == BlurredAt(cv, image, radius, cell, p)
  {
    hide BlurredAt, Alpha, PolygonOf, Traces;
    AcceptedPolygonTraces(cv, item.outline, image.width, image.height);
    TracedIsUnique(cv, polygon, PolygonOf(cv, item.outline, image.width, image.height).value, item.outline.value,
                   image.width, image.height);
    var polygons := ProtectedPolygons(cv, items, image.width, image.height).value;
    var frame := Frame(image.width, image.height);
    assert polygon in polygons;
    hide ProtectedPolygons;
    EllipseCentre(cv, pad);
    ProtectedFrom(cv, polygons, frame, pad, p, p, polygon);
    hide Protected;
    SourcePixelsAreOpaque(cv, Protected(cv, polygons, frame, pad), frame, margin, p);
    BlendExtremes(image.At(p.x, p.y), BlurredAt(cv, image, radius, ReductionCell(radius, pixelSize), p));
  }

  /** Every pixel within the padding of a filled one is blurred as well. */
  lemma PaddedPixelsAreBlurred(cv: Cv, image: Image, polygons: seq<Polygon>, radius: real, cell: nat, margin: nat,
                               pad: nat, p: Point)
    requires Laws(cv) && image.Valid() && image.Bounds().Has(p) && cell > 0
    requires FilledWithin(cv, polygons, Frame(image.width, image.height), pad, p)
    ensures ComposedAt(cv, image, polygons, radius, cell, margin, pad, p) == BlurredAt(cv, image, radius, cell, p)
  {
    hide BlurredAt, Alpha, Protected, FilledWithin;
    var frame := Frame(image.width, image.height);
    PadIsADisc(cv, polygons, frame, pad, p);
    SourcePixelsAreOpaque(cv, Protected(cv, polygons, frame, pad), frame, margin, p);
    BlendExtremes(image.At(p.x, p.y), BlurredAt(cv, image, radius, cell, p));
  }

  /** Pixels farther from every filled one than padding and margin together are left as they are. */
  lemma FarPixelsAreUntouched(cv: Cv, image: Image, polygons: seq<Polygon>, radius: real, cell: nat, margin: nat,
                              pad: nat, p: Point)
    requires Laws(cv) && image.Valid() && image.Bounds().Has(p) && cell > 0
    requires forall q, polygon :: image.Bounds().Has(q) && polygon in polygons && cv.paints(polygon, q) ==>
               !Near(p, q, pad + margin)
    ensures ComposedAt(cv, image, polygons, radius, cell, margin, pad, p) == image.At(p.x, p.y)
  {
    hide BlurredAt, Alpha, Protected;
    var frame := Frame(image.width, image.height);
    var mask := Protected(cv, polygons, frame, pad);
    forall q | q in mask ensures !Near(p, q, margin) {
      var f, polygon := ProtectedOrigin(cv, polygons, frame, pad, q);
    }
    NoNearPixelNoWeight(cv, mask, frame, margin, p);
    BlendExtremes(image.At(p.x, p.y), BlurredAt(cv, image, radius, cell, p));
  }

  /** Every composed pixel is a byte between the frame's pixel and the blurred one, and its blend never
      leaves 16 bits. */
  lemma ComposedIsBetween(cv: Cv, image: Image, polygons: seq<Polygon>, radius: real, cell: nat, margin: nat, pad: nat,
                          p: Point)
    requires Laws(cv) && (forall w, h, x, y :: cv.blank(w, h, x, y) >= 0.0)
    requires image.Valid() && image.Bounds().Has(p) && cell > 0
    requires Byte(image.At(p.x, p.y)) && Byte(BlurredAt(cv, image, radius, cell, p))
    ensures var source, blurred := image.At(p.x, p.y), BlurredAt(cv, image, radius, cell, p);
            var weight := Weight(cv, polygons, image.width, image.height, margin, pad, p);
            && Byte(ComposedAt(cv, image, polygons, radius, cell, margin, pad, p))
            && Min(source, blurred) <= ComposedAt(cv, image, polygons, radius, cell, margin, pad, p)
                                    <= Max(source, blurred)
            && 0 <= Numerator(source, blurred, weight) < 0x1_0000
  {
    hide BlurredAt, Alpha, Protected;
    AlphaRange(cv, Protected(cv, polygons, Frame(image.width, image.height), pad), Frame(image.width, image.height),
               margin, p);
    BlendIsExact(image.At(p.x, p.y), BlurredAt(cv, image, radius, cell, p),
                 Weight(cv, polygons, image.width, image.height, margin, pad, p));
  }

  /** With nothing to protect the composition is the frame itself. */
  lemma NothingProtectedIsIdentity(cv: Cv, image: Image, items: seq<Item>, radius: real, cell: nat, margin: nat,
                                   pad: nat, p: Point)
    requires Lawful(cv) && image.Valid() && image.width > 0 && image.height > 0 && cell > 0 && image.Bounds().Has(p)
    requires forall item :: item in items ==> !MustBlur(item)
    ensures ProtectedPolygons(cv, items, image.width, image.height) == Ok([])
    ensures ComposedAt(cv, image, [], radius, cell, margin, pad, p) == image.At(p.x, p.y)
  {
    NothingProtected(cv, items, image.width, image.height);
    hide ProtectedPolygons;
    assert Filled(cv, [], Frame(image.width, image.height)) == {};
    DilationOfNothing(cv, pad, Frame(image.width, image.height));
    BlendExtremes(image.At(p.x, p.y), BlurredAt(cv, image, radius, cell, p));
  }

  lemma NothingProtected(cv: Cv, items: seq<Item>, width: nat, height: nat)
    requires RintLaw(cv) && width > 0 && height > 0 && forall item :: item in items ==> !MustBlur(item)
    ensures ProtectedPolygons(cv, items, width, height) == Ok([])
  {
    if items != [] {
      assert items[0] in items;
      NothingProtected(cv, items[1..], width, height);
    }
  }
}
