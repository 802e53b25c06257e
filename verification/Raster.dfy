/** Integer pixel geometry shared by the mosaic modules: half-open rectangles, pixel sets
    and one-plane images. */
module Raster {

  datatype Point = Point(x: int, y: int)

  /** A half-open rectangle: `right` and `bottom` are one past the last pixel. */
  datatype Rect = Rect(left: int, top: int, right: int, bottom: int) {

    predicate Has(p: Point) {
      left <= p.x < right && top <= p.y < bottom
    }

    /** Componentwise order; it is meaningful for degenerate rectangles too. */
    predicate Within(outer: Rect) {
      outer.left <= left && right <= outer.right && outer.top <= top && bottom <= outer.bottom
    }

    predicate Overlaps(other: Rect) {
      left < other.right && other.left < right && top < other.bottom && other.top < bottom
    }

    function Hull(other: Rect): Rect {
      Rect(Min(left, other.left), Min(top, other.top), Max(right, other.right), Max(bottom, other.bottom))
    }

    function Widen(reach: int): Rect {
      Rect(left - reach, top - reach, right + reach, bottom + reach)
    }

    function Meet(other: Rect): Rect {
      Rect(Max(left, other.left), Max(top, other.top), Min(right, other.right), Min(bottom, other.bottom))
    }

    function Points(): (s: set<Point>)
      ensures forall p :: p in s <==> Has(p)
    {
      assert forall p: Point :: p == Point(p.x, p.y);
      set x, y | left <= x < right && top <= y < bottom :: Point(x, y)
    }

    function Width(): int { right - left }

    function Height(): int { bottom - top }
  }

  function Min(a: int, b: int): int { if a <= b then a else b }

  function Max(a: int, b: int): int { if a >= b then a else b }

  function Abs(a: int): int { if a >= 0 then a else -a }

  function Frame(width: int, height: int): Rect {
    Rect(0, 0, width, height)
  }

  /** Chebyshev distance at most `radius`: the pixels a square window of that radius can see. */
  predicate Near(p: Point, q: Point, radius: int) {
    Abs(p.x - q.x) <= radius && Abs(p.y - q.y) <= radius
  }

  function Dist2(p: Point, q: Point): nat {
    Square(p.x - q.x) + Square(p.y - q.y)
  }

  function Square(a: int): nat {
    a * a
  }

  /** The nearest pixel of a rectangle, coordinate by coordinate. */
  function ClampTo(p: Point, r: Rect): Point {
    Point(Max(r.left, Min(p.x, r.right - 1)), Max(r.top, Min(p.y, r.bottom - 1)))
  }

  /** A polygon by its vertices. */
  type Polygon = seq<Point>

  /** cv2.boundingRect on a list of vertices. */
  function BoundingBox(polygon: Polygon): (r: Rect)
    requires polygon != []
    ensures forall i :: 0 <= i < |polygon| ==> r.Has(polygon[i])
  {
    var p := polygon[0];
    var one := Rect(p.x, p.y, p.x + 1, p.y + 1);
    if |polygon| == 1 then one else one.Hull(BoundingBox(polygon[1..]))
  }

  lemma SquareMonotone(a: int, b: int)
    requires Abs(a) <= Abs(b)
    ensures Square(a) <= Square(b)
  {
    assert Abs(a) * Abs(a) <= Abs(b) * Abs(b);
  }

  /** Clamping onto a rectangle never moves a pixel away from a pixel of that rectangle. */
  lemma ClampIsNoFarther(p: Point, z: Point, r: Rect)
    requires r.Has(p)
    ensures r.Has(ClampTo(z, r))
    ensures Dist2(p, ClampTo(z, r)) <= Dist2(p, z)
  {
    var c := ClampTo(z, r);
    SquareMonotone(p.x - c.x, p.x - z.x);
    SquareMonotone(p.y - c.y, p.y - z.y);
  }

  lemma FarIsFar(p: Point, q: Point, radius: nat)
    requires !Near(p, q, radius)
    ensures Dist2(p, q) > Square(radius)
  {
    if Abs(p.x - q.x) > radius {
      SquareMonotone(radius + 1, p.x - q.x);
    } else {
      SquareMonotone(radius + 1, p.y - q.y);
    }
    assert Square(radius + 1) > Square(radius);
  }

  /** One colour plane; `rows[y][x]` is the sample at column x of row y. */
  datatype Image = Image(width: nat, height: nat, rows: seq<seq<int>>) {

    predicate Valid() {
      |rows| == height && forall row | row in rows :: |row| == width
    }

    predicate In(x: int, y: int) {
      0 <= x < width && 0 <= y < height
    }

    function At(x: int, y: int): int
      requires Valid() && In(x, y)
    {
      assert rows[y] in rows;
      rows[y][x]
    }

    function Bounds(): Rect {
      Frame(width, height)
    }
  }

  /** The image whose sample at (x, y) is `f(x, y)`. */
  function Build(width: nat, height: nat, f: (int, int) --> int): (image: Image)
    requires forall x, y :: 0 <= x < width && 0 <= y < height ==> f.requires(x, y)
    ensures image.Valid() && image.width == width && image.height == height
    ensures forall x, y {:trigger image.At(x, y)} :: image.In(x, y) ==> image.At(x, y) == f(x, y)
  {
    Image(width, height,
      seq(height, y requires 0 <= y < height =>
        seq(width, x requires 0 <= x < width && 0 <= y < height
            && (forall u, v :: 0 <= u < width && 0 <= v < height ==> f.requires(u, v)) => f(x, y))))
  }

  /** The present contents of an in-place buffer. */
  function Freeze(a: array2<int>): (image: Image)
    reads a
    ensures image.Valid() && image.width == a.Length1 && image.height == a.Length0
    ensures forall x, y {:trigger image.At(x, y)} :: image.In(x, y) ==> image.At(x, y) == a[y, x]
  {
    Image(a.Length1, a.Length0,
      seq(a.Length0, y requires 0 <= y < a.Length0 reads a =>
        seq(a.Length1, x requires 0 <= x < a.Length1 && 0 <= y < a.Length0 reads a => a[y, x])))
  }

  /** The sub-image covered by a rectangle, in the rectangle's own coordinates. */
  function Crop(image: Image, r: Rect): (part: Image)
    requires image.Valid() && r.Within(image.Bounds()) && r.left <= r.right && r.top <= r.bottom
    ensures part.Valid() && part.width == r.Width() && part.height == r.Height()
    ensures forall x, y {:trigger part.At(x, y)} :: part.In(x, y) ==> part.At(x, y) == image.At(x + r.left, y + r.top)
  {
    Build(r.Width(), r.Height(),
      (x, y) requires image.Valid() && image.In(x + r.left, y + r.top) => image.At(x + r.left, y + r.top))
  }

  /** The pixels of a mask that are set. */
  function Pixels(mask: Image): set<Point>
    requires mask.Valid()
  {
    set x, y | 0 <= x < mask.width && 0 <= y < mask.height && mask.At(x, y) != 0 :: Point(x, y)
  }

  function Moved(p: Point, dx: int, dy: int): Point {
    Point(p.x + dx, p.y + dy)
  }

  function Shift(s: set<Point>, dx: int, dy: int): set<Point> {
    set p | p in s :: Moved(p, dx, dy)
  }

  function MovedRect(r: Rect, dx: int, dy: int): Rect {
    Rect(r.left + dx, r.top + dy, r.right + dx, r.bottom + dy)
  }

  lemma InShift(s: set<Point>, dx: int, dy: int, p: Point)
    ensures p in Shift(s, dx, dy) <==> Moved(p, -dx, -dy) in s
  {
    assert Moved(Moved(p, -dx, -dy), dx, dy) == p;
  }

  /** `r` is the bounding rectangle of a non-empty pixel set: it covers it and each side is touched. */
  ghost predicate IsBounds(r: Rect, s: set<Point>) {
    && (forall p :: p in s ==> r.Has(p))
    && (exists p :: p in s && p.x == r.left)
    && (exists p :: p in s && p.y == r.top)
    && (exists p :: p in s && p.x == r.right - 1)
    && (exists p :: p in s && p.y == r.bottom - 1)
  }

  /** What cv2.boundingRect answers: the tight rectangle, or all zeros when nothing is set. */
  ghost predicate Tracks(r: Rect, s: set<Point>) {
    if s == {} then r == Rect(0, 0, 0, 0) else IsBounds(r, s) && r.left < r.right && r.top < r.bottom
  }

  /** The pixels of a mask met before (x, y) by a row-major scan. */
  ghost function Scanned(mask: Image, x: int, y: int): set<Point>
    requires mask.Valid()
  {
    set p | p in Pixels(mask) && (p.y < y || (p.y == y && p.x < x))
  }

  /** cv2.boundingRect on a mask, by its definition. */
  method BoundingRect(mask: Image) returns (r: Rect)
    requires mask.Valid()
    ensures Tracks(r, Pixels(mask))
    ensures r.left >= 0 && r.top >= 0 && r.right <= mask.width && r.bottom <= mask.height
    ensures r.Width() != 0 <==> Pixels(mask) != {}
  {
    hide Tracks, Scanned, Pixels;
    r := Rect(0, 0, 0, 0);
    ScanStart(mask);
    var y := 0;
    while y < mask.height
      invariant 0 <= y <= mask.height
      invariant Tracks(r, Scanned(mask, 0, y))
    {
      var x := 0;
      while x < mask.width
        invariant 0 <= x <= mask.width
        invariant Tracks(r, Scanned(mask, x, y))
      {
        ScanStep(mask, x, y, r);
        if mask.At(x, y) != 0 {
          r := Grown(r, x, y);
        }
        x := x + 1;
      }
      ScanRow(mask, y, r);
      y := y + 1;
    }
    ScanEnd(mask, r);
  }

  function Grown(r: Rect, x: int, y: int): Rect {
    if r.Width() == 0 then Rect(x, y, x + 1, y + 1) else r.Hull(Rect(x, y, x + 1, y + 1))
  }

  lemma ScanStart(mask: Image)
    requires mask.Valid()
    ensures Tracks(Rect(0, 0, 0, 0), Scanned(mask, 0, 0))
  {
    assert Scanned(mask, 0, 0) == {};
  }

  lemma ScanStep(mask: Image, x: int, y: int, r: Rect)
    requires mask.Valid() && mask.In(x, y) && Tracks(r, Scanned(mask, x, y))
    ensures Tracks(if mask.At(x, y) != 0 then Grown(r, x, y) else r, Scanned(mask, x + 1, y))
  {
    var after := Scanned(mask, x, y) + (if mask.At(x, y) != 0 then {Point(x, y)} else {});
    assert Scanned(mask, x + 1, y) == after;
    GrowTracks(r, Scanned(mask, x, y), Point(x, y));
  }

  lemma ScanRow(mask: Image, y: int, r: Rect)
    requires mask.Valid() && 0 <= y < mask.height && Tracks(r, Scanned(mask, mask.width, y))
    ensures Tracks(r, Scanned(mask, 0, y + 1))
  {
    assert Scanned(mask, mask.width, y) == Scanned(mask, 0, y + 1);
  }

  lemma ScanEnd(mask: Image, r: Rect)
    requires mask.Valid() && Tracks(r, Scanned(mask, 0, mask.height))
    ensures Tracks(r, Pixels(mask))
    ensures r.left >= 0 && r.top >= 0 && r.right <= mask.width && r.bottom <= mask.height
    ensures r.Width() != 0 <==> Pixels(mask) != {}
  {
    assert Scanned(mask, 0, mask.height) == Pixels(mask);
    TracksInside(r, Pixels(mask), mask.Bounds());
  }

  lemma TracksInside(r: Rect, s: set<Point>, outer: Rect)
    requires Tracks(r, s) && forall p :: p in s ==> outer.Has(p)
    ensures s != {} ==> r.Within(outer)
  {
    if s != {} {
      var a :| a in s && a.x == r.left;
      var b :| b in s && b.y == r.top;
      var c :| c in s && c.x == r.right - 1;
      var d :| d in s && d.y == r.bottom - 1;
    }
  }

  lemma GrowTracks(r: Rect, s: set<Point>, p: Point)
    requires Tracks(r, s)
    ensures Tracks(Grown(r, p.x, p.y), s + {p})
  {
    assert p in s + {p};
    if s != {} {
      var a :| a in s && a.x == r.left;
      var b :| b in s && b.y == r.top;
      var c :| c in s && c.x == r.right - 1;
      var d :| d in s && d.y == r.bottom - 1;
      assert {a, b, c, d, p} <= s + {p};
    }
  }
}
