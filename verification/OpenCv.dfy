/** The OpenCV primitives the compositor calls, by definition. What the library leaves to
    fixed-point kernels or rounding is a field of `Cv`; `Lawful` says what is assumed of it. */
module OpenCv {
  import opened Raster

  datatype Cv = Cv(
    paints: (Polygon, Point) -> bool,          // does fillPoly set this pixel?
    root: nat -> real,                         // square root of a squared distance
    rint: real -> int,                         // round to nearest
    blank: (int, int, int, int) -> real,       // distanceTransform value when no pixel is zero
    area: seq<seq<int>> -> int,                // INTER_AREA value of one whole cell
    radius: real -> nat,                       // GaussianBlur kernel radius for a sigma
    across: (real, seq<int>) -> int,           // horizontal kernel applied to its taps
    down: (real, seq<int>) -> int,             // vertical kernel applied to its taps
    lerp: (int, int, int, int, nat, nat, nat) -> int) // INTER_LINEAR of four neighbours

  function Ceil(r: real): int {
    -((-r).Floor)
  }

  function MovedAll(polygon: Polygon, dx: int, dy: int): Polygon {
    seq(|polygon|, i requires 0 <= i < |polygon| => Moved(polygon[i], dx, dy))
  }

  /** A fill covers its vertices, stays inside their bounds, and moves with them. */
  ghost predicate FillLaw(cv: Cv) {
    && (forall polygon: Polygon, p :: p in polygon ==> cv.paints(polygon, p))
    && (forall polygon, p :: polygon != [] && cv.paints(polygon, p) ==> BoundingBox(polygon).Has(p))
    && (forall polygon, p, dx, dy {:trigger cv.paints(MovedAll(polygon, dx, dy), Moved(p, dx, dy))} ::
          cv.paints(MovedAll(polygon, dx, dy), Moved(p, dx, dy)) == cv.paints(polygon, p))
  }

  /** A root compares with whole numbers as its square does. The exact square root does, and so does a
      correctly rounded one as long as its steps are finer than the gaps between such roots. */
  ghost predicate RootLaw(cv: Cv) {
    forall n, m :: Compares(cv, n, m)
  }

  ghost predicate Compares(cv: Cv, n: nat, m: nat) {
    (cv.root(n) > m as real <==> n > m * m) && (cv.root(n) < m as real <==> n < m * m)
  }

  /** Rounding is monotone and to a nearest integer. */
  ghost predicate RintLaw(cv: Cv) {
    && (forall r {:trigger cv.rint(r)} :: -0.5 <= cv.rint(r) as real - r <= 0.5)
    && (forall a, b :: a <= b ==> cv.rint(a) <= cv.rint(b))
    && (forall n: int {:trigger cv.rint(n as real)} :: cv.rint(n as real) == n)
  }

  /** OpenCV's 8-bit kernels reach at most ceil(3 sigma) samples to each side. */
  ghost predicate KernelLaw(cv: Cv) {
    forall sigma :: sigma > 0.0 ==> cv.radius(sigma) <= Ceil(3.0 * sigma)
  }

  ghost predicate Lawful(cv: Cv) {
    FillLaw(cv) && RootLaw(cv) && RintLaw(cv) && KernelLaw(cv)
  }

  // ---- Distances -----------------------------------------------------------------------

  lemma LeastExists(s: set<nat>) returns (least: nat)
    requires s != {}
    ensures least in s && forall e :: e in s ==> least <= e
  {
    var d :| d in s;
    var rest := s - {d};
    if rest == {} {
      assert s == {d};
      least := d;
    } else {
      var m := LeastExists(rest);
      least := Min(d, m);
      forall e | e in s ensures least <= e {
        assert e == d || e in rest;
      }
    }
  }

  function Distances(p: Point, s: set<Point>): set<nat> {
    set q | q in s :: Dist2(p, q)
  }

  lemma NearestExists(p: Point, s: set<Point>)
    requires s != {}
    ensures exists d :: d in Distances(p, s) && forall e :: e in Distances(p, s) ==> d <= e
  {
    var q :| q in s;
    assert Dist2(p, q) in Distances(p, s);
    var d := LeastExists(Distances(p, s));
  }

  /** Squared distance to the nearest of some pixels. */
  function Nearest(p: Point, s: set<Point>): nat
    requires s != {}
  {
    NearestExists(p, s);
    var d :| d in Distances(p, s) && forall e :: e in Distances(p, s) ==> d <= e;
    d
  }

  lemma NearestPixel(p: Point, s: set<Point>) returns (q: Point)
    requires s != {}
    ensures q in s && Dist2(p, q) == Nearest(p, s)
    ensures forall o :: o in s ==> Nearest(p, s) <= Dist2(p, o)
  {
    NearestExists(p, s);
    var d :| d in Distances(p, s) && forall e :: e in Distances(p, s) ==> d <= e;
    assert d == Nearest(p, s);
    q :| q in s && Dist2(p, q) == d;
    forall o | o in s ensures d <= Dist2(p, o) {
      assert Dist2(p, o) in Distances(p, s);
    }
  }

  lemma NearestIs(p: Point, s: set<Point>, q: Point)
    requires q in s && forall o :: o in s ==> Dist2(p, q) <= Dist2(p, o)
    ensures Nearest(p, s) == Dist2(p, q)
  {
    var n := NearestPixel(p, s);
  }

  /** cv2.distanceTransform (DIST_L2, DIST_MASK_PRECISE): distance to the nearest zero pixel of
      the view `region`; with no zero pixel the value depends only on the view's own geometry. */
  function DistanceTransform(cv: Cv, zeros: set<Point>, region: Rect, p: Point): real {
    if zeros == {} then cv.blank(region.Width(), region.Height(), p.x - region.left, p.y - region.top)
    else cv.root(Nearest(p, zeros))
  }

  lemma RootCompare(cv: Cv, n: nat, m: nat)
    requires RootLaw(cv)
    ensures cv.root(n) > m as real <==> n > m * m
    ensures cv.root(n) < m as real <==> n < m * m
  {
    assert Compares(cv, n, m);
  }

  lemma DistanceNotNegative(cv: Cv, zeros: set<Point>, region: Rect, p: Point)
    requires RootLaw(cv) && forall w, h, x, y :: cv.blank(w, h, x, y) >= 0.0
    ensures DistanceTransform(cv, zeros, region, p) >= 0.0
  {
    if zeros != {} {
      RootCompare(cv, Nearest(p, zeros), 0);
    }
  }

  lemma RootZero(cv: Cv)
    requires RootLaw(cv)
    ensures cv.root(0) == 0.0
  {
    RootCompare(cv, 0, 0);
  }

  // ---- Dilation ------------------------------------------------------------------------

  /** getStructuringElement(MORPH_ELLIPSE, (2r+1, 2r+1)): row dy spans round(sqrt(r^2 - dy^2)). */
  predicate Ellipse(cv: Cv, radius: nat, dx: int, dy: int) {
    Abs(dy) <= radius && radius * radius - dy * dy >= 0 && Abs(dx) <= cv.rint(cv.root(radius * radius - dy * dy))
  }

  lemma EllipseIsNear(cv: Cv, radius: nat, p: Point, q: Point)
    requires RootLaw(cv) && RintLaw(cv)
    requires Ellipse(cv, radius, q.x - p.x, q.y - p.y)
    ensures Near(p, q, radius)
  {
    var n := radius * radius - (q.y - p.y) * (q.y - p.y);
    RootCompare(cv, n, radius);
    assert cv.rint(cv.root(n)) <= cv.rint(radius as real);
  }

  lemma EllipseCentre(cv: Cv, radius: nat)
    requires RootLaw(cv) && RintLaw(cv)
    ensures Ellipse(cv, radius, 0, 0)
  {
    RootCompare(cv, radius * radius, 0);
    assert cv.rint(0 as real) <= cv.rint(cv.root(radius * radius));
  }

  /** The offset is at most `radius` pixels long, or would be with one column less. */
  predicate RoundDisc(radius: nat, dx: int, dy: int) {
    Abs(dy) <= radius && (dx == 0 || Square(Abs(dx) - 1) + Square(dy) < Square(radius))
  }

  lemma EllipseIsRound(cv: Cv, radius: nat, dx: int, dy: int)
    requires RootLaw(cv) && RintLaw(cv) && Ellipse(cv, radius, dx, dy)
    ensures RoundDisc(radius, dx, dy)
  {
    var n := radius * radius - dy * dy;
    if dx != 0 {
      RootCompare(cv, n, Abs(dx) - 1);
      assert cv.rint(cv.root(n)) as real - cv.root(n) <= 0.5;
      assert Abs(dx) as real <= cv.rint(cv.root(n)) as real;
      assert cv.root(n) > (Abs(dx) - 1) as real;
    }
  }

  lemma RootOrder(a: int, radius: nat)
    requires a * a <= radius * radius
    ensures Abs(a) <= radius
  {
    assert (Abs(a) - radius) * (Abs(a) + radius) == a * a - radius * radius;
  }

  /** The element holds every offset no longer than its radius. */
  lemma DiscIsElliptic(cv: Cv, radius: nat, p: Point, q: Point)
    requires RootLaw(cv) && RintLaw(cv) && Dist2(p, q) <= radius * radius
    ensures Ellipse(cv, radius, q.x - p.x, q.y - p.y)
  {
    var dx, dy := q.x - p.x, q.y - p.y;
    assert Square(p.x - q.x) == Square(dx) && Square(p.y - q.y) == Square(dy);
    var n := radius * radius - dy * dy;
    assert Square(dx) <= n;
    RootOrder(dy, radius);
    RootCompare(cv, n, Abs(dx));
    assert cv.root(n) >= Abs(dx) as real;
    assert cv.rint(Abs(dx) as real) <= cv.rint(cv.root(n));
  }

  /** cv2.dilate of a mask inside the view `region`. */
  function Dilate(cv: Cv, mask: set<Point>, radius: nat, region: Rect): set<Point> {
    set p | p in region.Points() && (exists q :: q in mask && Ellipse(cv, radius, q.x - p.x, q.y - p.y))
  }

  // ---- The laws can be met -------------------------------------------------------------

  /** The whole part of a square root. */
  function WholeRoot(n: nat): (k: nat)
    ensures k * k <= n < (k + 1) * (k + 1)
  {
    if n == 0 then 0
    else
      var k := WholeRoot(n - 1);
      if (k + 1) * (k + 1) <= n then k + 1 else k
  }

  /** A root that is exact on squares and half a step above the whole part elsewhere. */
  function HalfRoot(n: nat): real {
    var k := WholeRoot(n);
    if k * k == n then k as real else k as real + 0.5
  }

  lemma HalfRootCompares(n: nat, m: nat)
    ensures HalfRoot(n) > m as real <==> n > m * m
    ensures HalfRoot(n) < m as real <==> n < m * m
  {
    var k := WholeRoot(n);
    if k < m {
      SquareMonotone(k + 1, m);
    } else {
      SquareMonotone(m, k);
      if m < k {
        SquareMonotone(m + 1, k);
      }
    }
  }

  function KernelRadius(sigma: real): nat {
    if sigma > 0.0 then Ceil(3.0 * sigma) else 0
  }

  lemma VertexInBox(polygon: Polygon, p: Point)
    requires p in polygon
    ensures BoundingBox(polygon).Has(p)
  {
  }

  lemma MovedVertex(polygon: Polygon, p: Point, dx: int, dy: int)
    ensures Moved(p, dx, dy) in MovedAll(polygon, dx, dy) <==> p in polygon
  {
    if i :| 0 <= i < |polygon| && polygon[i] == p {
      assert MovedAll(polygon, dx, dy)[i] == Moved(p, dx, dy);
    }
  }

  /** Some primitives meet every law, so no theorem that assumes them is empty. */
  lemma LawsAreConsistent() returns (cv: Cv)
    ensures Lawful(cv)
  {
    cv := Cv((polygon, p) => p in polygon, HalfRoot, r => (r + 0.5).Floor, (w, h, x, y) => 0.0,
             cells => 0, KernelRadius,
             (sigma, taps) => 0, (sigma, taps) => 0, (a, b, c, d, u, v, n) => a);
    forall polygon: Polygon, p | polygon != [] && cv.paints(polygon, p) ensures BoundingBox(polygon).Has(p) {
      VertexInBox(polygon, p);
    }
    forall polygon, p, dx, dy ensures cv.paints(MovedAll(polygon, dx, dy), Moved(p, dx, dy)) == cv.paints(polygon, p) {
      MovedVertex(polygon, p, dx, dy);
    }
    forall n, m ensures Compares(cv, n, m) {
      HalfRootCompares(n, m);
    }
  }
}
