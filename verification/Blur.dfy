/** The frame-anchored blur (service/mosaic.py, _reduction_cell, _blur_support, _frame_blur):
    reduce to cells, Gaussian with reflect-101 borders, linear enlargement. A window of the frame
    is blurred from a crop, and every value equals the one a whole-frame blur gives. */
module Blur {
  import opened Raster
  import opened OpenCv

  const MAX_REDUCED_SIGMA: real := 6.0

  // ---- Cell size and support -----------------------------------------------------------

  function ReductionCell(radius: real, pixelSize: nat): nat {
    Max(pixelSize, Ceil(radius / MAX_REDUCED_SIGMA))
  }

  lemma CeilIs(r: real, n: int)
    ensures Ceil(r) <= n <==> r <= n as real
  {
  }

  /** The cell is the smallest one that keeps the request and the reduced sigma cap. */
  lemma CellIsLeast(radius: real, pixelSize: nat, cell: nat)
    requires radius > 0.0 && pixelSize >= 1
    ensures ReductionCell(radius, pixelSize) <= cell
            <==> pixelSize <= cell && radius <= MAX_REDUCED_SIGMA * cell as real
  {
    CeilIs(radius / MAX_REDUCED_SIGMA, cell);
  }

  /** Cells on each side that can change one blurred cell. */
  function KernelCells(radius: real, cell: nat): int
    requires cell > 0
  {
    Ceil(3.0 * radius / cell as real)
  }

  function BlurSupport(radius: real, cell: nat): int
    requires cell > 0
  {
    cell * (KernelCells(radius, cell) + 3)
  }

  lemma SupportPositive(radius: real, cell: nat)
    requires radius > 0.0 && cell > 0
    ensures KernelCells(radius, cell) >= 1 && BlurSupport(radius, cell) > 0
  {
    assert 3.0 * radius / cell as real > 0.0;
    CeilIs(3.0 * radius / cell as real, 0);
    assert cell * (KernelCells(radius, cell) + 3) >= cell;
  }

  // ---- The stages ----------------------------------------------------------------------

  /** Length after padding to whole cells. */
  function RoundUp(length: nat, cell: nat): nat
    requires cell > 0
  {
    length + (0 - length) % cell
  }

  lemma CellInside(i: nat, u: nat, cell: nat, cells: nat)
    requires i < cells && u < cell
    ensures 0 <= i * cell + u < cells * cell
  {
    FactorOrder(cell, i + 1, cells);
    assert (i + 1) * cell == i * cell + cell;
  }

  lemma CellsCover(length: nat, cell: nat)
    requires cell > 0
    ensures RoundUp(length, cell) / cell >= 0
    ensures RoundUp(length, cell) / cell * cell == RoundUp(length, cell)
    ensures length <= RoundUp(length, cell) < length + cell
    ensures length > 0 ==> RoundUp(length, cell) / cell > 0
  {
    var v: int := 0 - length;
    var q := v / cell;
    assert v == q * cell + v % cell;
    assert RoundUp(length, cell) == -q * cell;
    MultipleHasNoRest(-q, cell);
    if -q <= 0 {
      NoPositiveMultiple(-q, cell);
    }
  }

  lemma NoPositiveMultiple(q: int, cell: nat)
    requires q <= 0
    ensures q * cell <= 0
  {
  }

  /** Reduction cells across `length` pixels. */
  function Cells(length: nat, cell: nat): nat
    requires cell > 0
  {
    CellsCover(length, cell);
    RoundUp(length, cell) / cell
  }

  lemma MultipleHasNoRest(q: int, n: nat)
    requires n > 0
    ensures (q * n) % n == 0 && (q * n) / n == q
  {
    DivUnique(q * n, n, q, 0);
  }

  lemma AtLeastOnce(d: int, n: nat)
    requires d >= 1
    ensures d * n >= n
  {
    assert (d - 1) * n >= 0;
  }

  lemma OnlyZeroMultiple(d: int, n: nat)
    requires 0 - n < d * n < n
    ensures d == 0
  {
    if d >= 1 {
      AtLeastOnce(d, n);
    } else if d <= -1 {
      AtLeastOnce(-d, n);
    }
  }

  lemma DivUnique(v: int, n: nat, q: int, r: int)
    requires n > 0 && v == q * n + r && 0 <= r < n
    ensures v / n == q && v % n == r
  {
    var q', r' := v / n, v % n;
    assert v == q' * n + r' && 0 <= r' < n;
    assert (q - q') * n == r' - r;
    OnlyZeroMultiple(q - q', n);
  }

  lemma FactorOrder(n: nat, p: int, q: int)
    requires n > 0
    ensures n * p > n * q ==> p > q
    ensures p >= q ==> n * p >= n * q
  {
    if p <= q {
      assert n * (q - p) >= 0;
    } else {
      assert n * (p - q) >= 0;
    }
  }

  /** Column u of a block starting at x, after copyMakeBorder(BORDER_REPLICATE) on the far side. */
  function Edge(x: nat, u: nat, length: int): (e: int)
    requires length > 0
    ensures 0 <= e < length
  {
    Min(x + u, length - 1)
  }

  function SampleAt(region: Image, x: nat, y: nat, u: nat, v: nat): int
    requires region.Valid() && region.width > 0 && region.height > 0
  {
    region.At(Edge(x, u, region.width), Edge(y, v, region.height))
  }

  /** The samples of the `cell` x `cell` block whose first sample is (x, y). */
  function BlockAt(region: Image, cell: nat, x: nat, y: nat): seq<seq<int>>
    requires region.Valid() && region.width > 0 && region.height > 0
  {
    seq(cell, v requires 0 <= v < cell && region.Valid() && region.width > 0 && region.height > 0 =>
      seq(cell, u requires 0 <= u < cell && 0 <= v < cell && region.Valid() && region.width > 0 && region.height > 0 =>
        SampleAt(region, x, y, u, v)))
  }

  function CellOf(region: Image, cell: nat, i: nat, j: nat): seq<seq<int>>
    requires region.Valid() && region.width > 0 && region.height > 0
  {
    BlockAt(region, cell, i * cell, j * cell)
  }

  /** resize(INTER_AREA) by a whole factor. */
  function Reduced(cv: Cv, region: Image, cell: nat): (image: Image)
    requires region.Valid() && region.width > 0 && region.height > 0 && cell > 0
    ensures image.Valid()
    ensures image.width == Cells(region.width, cell) && image.height == Cells(region.height, cell)
    ensures forall i, j {:trigger image.At(i, j)} :: image.In(i, j) ==>
            image.At(i, j) == cv.area(CellOf(region, cell, i, j))
  {
    Build(Cells(region.width, cell), Cells(region.height, cell),
      (i, j) requires region.Valid() && region.width > 0 && region.height > 0 && i >= 0 && j >= 0
        => cv.area(CellOf(region, cell, i, j)))
  }

  /** borderInterpolate(BORDER_REFLECT_101), which bounces until it is inside. */
  function Reflect(p: int, length: nat): (q: int)
    requires length > 0
    ensures 0 <= q < length
    ensures 0 <= p < length ==> q == p
    decreases if p < 0 then 2 * -p + 1 else 2 * p
  {
    if length == 1 then 0
    else if p < 0 then Reflect(-p, length)
    else if p >= length then Reflect(2 * length - 2 - p, length)
    else p
  }

  /** Tap t of a horizontal kernel of radius k. */
  function TapAcross(image: Image, k: int, x: int, y: int, t: int): int
    requires image.Valid() && image.In(x, y)
  {
    image.At(Reflect(x + (t - k), image.width), y)
  }

  function TapsAcross(image: Image, k: nat, x: int, y: int): seq<int>
    requires image.Valid() && image.In(x, y)
  {
    seq(2 * k + 1, t requires 0 <= t < 2 * k + 1 && image.Valid() && image.In(x, y) => TapAcross(image, k, x, y, t))
  }

  /** Tap t of a vertical kernel of radius k. */
  function TapDown(image: Image, k: int, x: int, y: int, t: int): int
    requires image.Valid() && image.In(x, y)
  {
    image.At(x, Reflect(y + (t - k), image.height))
  }

  function TapsDown(image: Image, k: nat, x: int, y: int): seq<int>
    requires image.Valid() && image.In(x, y)
  {
    seq(2 * k + 1, t requires 0 <= t < 2 * k + 1 && image.Valid() && image.In(x, y) => TapDown(image, k, x, y, t))
  }

  function Across(cv: Cv, image: Image, sigma: real): (out: Image)
    requires image.Valid()
    ensures out.Valid() && out.width == image.width && out.height == image.height
    ensures forall x, y {:trigger out.At(x, y)} :: out.In(x, y) ==>
              out.At(x, y) == cv.across(sigma, TapsAcross(image, cv.radius(sigma), x, y))
  {
    Build(image.width, image.height,
      (x, y) requires image.Valid() && image.In(x, y) => cv.across(sigma, TapsAcross(image, cv.radius(sigma), x, y)))
  }

  function Down(cv: Cv, image: Image, sigma: real): (out: Image)
    requires image.Valid()
    ensures out.Valid() && out.width == image.width && out.height == image.height
    ensures forall x, y {:trigger out.At(x, y)} :: out.In(x, y) ==>
              out.At(x, y) == cv.down(sigma, TapsDown(image, cv.radius(sigma), x, y))
  {
    Build(image.width, image.height,
      (x, y) requires image.Valid() && image.In(x, y) => cv.down(sigma, TapsDown(image, cv.radius(sigma), x, y)))
  }

  /** Pixel centre x lies this many cells from the first cell centre, rounded down. */
  function Base(x: int, cell: nat): int
    requires cell > 0
  {
    (2 * x + 1 - cell) / (2 * cell)
  }

  function Fraction(x: int, cell: nat): nat
    requires cell > 0
  {
    (2 * x + 1 - cell) % (2 * cell)
  }

  function Clamp(i: int, length: nat): (c: int)
    requires length > 0
    ensures 0 <= c < length
  {
    Max(0, Min(i, length - 1))
  }

  /** Horizontal interpolation drops its weight beyond the first and last centre. */
  function WeightAcross(x: int, cell: nat, length: nat): nat
    requires cell > 0
  {
    if 0 <= Base(x, cell) < length - 1 then Fraction(x, cell) else 0
  }

  /** resize(INTER_LINEAR) by a whole factor. */
  function Enlarged(cv: Cv, image: Image, cell: nat): (out: Image)
    requires image.Valid() && image.width > 0 && image.height > 0 && cell > 0
    ensures out.Valid() && out.width == image.width * cell && out.height == image.height * cell
    ensures forall x, y {:trigger out.At(x, y)} :: out.In(x, y) ==> out.At(x, y) == Interpolated(cv, image, cell, x, y)
  {
    Build(image.width * cell, image.height * cell,
      (x, y) requires image.Valid() && image.width > 0 && image.height > 0 && cell > 0 =>
        Interpolated(cv, image, cell, x, y))
  }

  /** The two cells next to a pixel, along one axis. */
  datatype Neighbours = Neighbours(low: nat, high: nat)

  function NeighboursOf(x: int, cell: nat, length: nat): (near: Neighbours)
    requires cell > 0 && length > 0
    ensures near.low < length && near.high < length
  {
    Neighbours(Clamp(Base(x, cell), length), Clamp(Base(x, cell) + 1, length))
  }

  function Interpolated(cv: Cv, image: Image, cell: nat, x: int, y: int): int
    requires image.Valid() && image.width > 0 && image.height > 0 && cell > 0
  {
    var h, v := NeighboursOf(x, cell, image.width), NeighboursOf(y, cell, image.height);
    cv.lerp(image.At(h.low, v.low), image.At(h.high, v.low), image.At(h.low, v.high), image.At(h.high, v.high),
            WeightAcross(x, cell, image.width), Fraction(y, cell), cell)
  }

  /** Pad, reduce, blur: one value per cell. */
  function BlurredCells(cv: Cv, region: Image, radius: real, cell: nat): (out: Image)
    requires region.Valid() && region.width > 0 && region.height > 0 && cell > 0
    ensures out.Valid() && out.width == Cells(region.width, cell) && out.height == Cells(region.height, cell)
  {
    var sigma := radius / cell as real;
    Down(cv, Across(cv, Reduced(cv, region, cell), sigma), sigma)
  }

  lemma SomeCells(length: nat, cell: nat)
    requires length > 0 && cell > 0
    ensures Cells(length, cell) > 0 && length <= Cells(length, cell) * cell
  {
    CellsCover(length, cell);
  }

  /** Everything computed for one region. */
  function Pipeline(cv: Cv, region: Image, radius: real, cell: nat): (out: Image)
    requires region.Valid() && region.width > 0 && region.height > 0 && cell > 0
    ensures out.Valid() && out.width >= region.width && out.height >= region.height
    ensures Cells(region.width, cell) > 0 && Cells(region.height, cell) > 0
    ensures forall x, y {:trigger out.At(x, y)} :: region.In(x, y) ==>
              out.At(x, y) == Interpolated(cv, BlurredCells(cv, region, radius, cell), cell, x, y)
  {
    SomeCells(region.width, cell);
    SomeCells(region.height, cell);
    Enlarged(cv, BlurredCells(cv, region, radius, cell), cell)
  }

  // ---- The window ----------------------------------------------------------------------

  function CropStart(start: int, support: int, cell: nat): int
    requires cell > 0
  {
    Max(0, start - support) / cell * cell
  }

  function CropEnd(end: int, support: int, cell: nat, length: nat): int
    requires cell > 0
  {
    Min(length, -(-(end + support) / cell) * cell)
  }

  /** A window [from, to) of one axis of `length` pixels, and the crop kept around it: pixels
      [start, end), which are the cells [first, last) of `total`. */
  datatype Axis = Axis(from: int, to: int, length: nat, cell: nat, kernel: nat,
                       start: int, end: int, first: nat, last: nat, total: nat) {

    ghost predicate Shape() {
      && 0 <= start <= from < to <= end <= length && cell > 0
      && first < last <= total && (end == length ==> last == total)
    }

    /** The crop is a run of whole cells on the frame's grid that keeps the kernel's support. */
    ghost predicate Valid() {
      && Shape()
      && start == first * cell && total == Cells(length, cell) && last - first == Cells(end - start, cell)
      && total * cell >= length
      && (first > 0 ==> start <= from - cell * (kernel + 3))
      && (end < length ==> end >= to + cell * (kernel + 3) && last * cell == end)
    }

    /** A kept cell whose whole kernel is kept, or is cut by the frame's own edge. */
    ghost predicate Core(i: int) {
      && first <= i < last
      && (first == 0 || i - kernel >= first)
      && (last == total || i + kernel < last)
    }
  }

  lemma CropStartFacts(start: int, support: int, cell: nat)
    requires cell > 0 && start >= 0 && support > 0
    ensures var c := CropStart(start, support, cell);
            0 <= c <= start && c / cell * cell == c && (c > 0 ==> c <= start - support)
  {
    var q := Max(0, start - support) / cell;
    assert q >= 0 && q * cell <= Max(0, start - support);
    assert q * cell >= 0;
    MultipleHasNoRest(q, cell);
  }

  lemma CropEndFacts(end: int, support: int, cell: nat, length: nat)
    requires cell > 0 && 0 < end <= length && support > 0
    ensures var c := CropEnd(end, support, cell, length);
            end <= c <= length && (c < length ==> c >= end + support && c / cell * cell == c)
  {
    var q := -(-(end + support) / cell);
    assert -(end + support) == -q * cell + (-(end + support)) % cell;
    assert q * cell >= end + support;
    MultipleHasNoRest(q, cell);
  }

  lemma RoundUpWhole(q: nat, cell: nat)
    requires cell > 0
    ensures RoundUp(q * cell, cell) == q * cell && RoundUp(q * cell, cell) / cell == q
  {
    DivUnique(0 - q * cell, cell, 0 - q, 0);
    MultipleHasNoRest(q, cell);
  }

  lemma CellsShift(length: nat, a: nat, cell: nat)
    requires cell > 0 && length + a * cell >= 0
    ensures Cells(length + a * cell, cell) == Cells(length, cell) + a
  {
    var v: int := 0 - length;
    var q, r := v / cell, v % cell;
    assert v == q * cell + r;
    assert v - a * cell == (q - a) * cell + r;
    DivUnique(v - a * cell, cell, q - a, r);
    assert RoundUp(length, cell) == -q * cell;
    assert RoundUp(length + a * cell, cell) == (a - q) * cell;
    MultipleHasNoRest(a - q, cell);
    MultipleHasNoRest(-q, cell);
  }

  lemma LastBelowTotal(b: nat, length: nat, cell: nat)
    requires cell > 0 && b * cell <= length
    ensures b <= Cells(length, cell)
  {
    CellsCover(length, cell);
    assert cell * (Cells(length, cell) + 1) == Cells(length, cell) * cell + cell;
    FactorOrder(cell, Cells(length, cell) + 1, b);
  }

  function AxisOf(from: int, to: int, length: nat, cell: nat, kernel: nat): Axis
    requires 0 <= from < to <= length && cell > 0
  {
    var support := cell * (kernel + 3);
    var start, end := CropStart(from, support, cell), CropEnd(to, support, cell, length);
    var first := Max(0, start / cell);
    Axis(from, to, length, cell, kernel, start, end, first, first + Cells(Max(0, end - start), cell),
         Cells(length, cell))
  }

  lemma AxisFacts(from: int, to: int, length: nat, cell: nat, kernel: nat)
    requires 0 <= from < to <= length && cell > 0
    ensures AxisOf(from, to, length, cell, kernel).Valid()
  {
    var ax := AxisOf(from, to, length, cell, kernel);
    var support := cell * (kernel + 3);
    assert support > 0 by { AtLeastOnce(kernel + 3, cell); }
    CropStartFacts(from, support, cell);
    CropEndFacts(to, support, cell, length);
    hide CropStart, CropEnd, Cells, RoundUp;
    assert ax.start / cell >= 0;
    SomeCells(length, cell);
    AxisCells(ax.start, ax.end, length, cell);
  }

  lemma AxisCells(start: nat, end: int, length: nat, cell: nat)
    requires cell > 0 && start < end <= length && start / cell * cell == start
    requires end < length ==> end / cell * cell == end
    ensures var last := start / cell + Cells(end - start, cell);
            start / cell < last <= Cells(length, cell)
            && (end < length ==> last * cell == end)
            && (end == length ==> last == Cells(length, cell))
  {
    var a := start / cell;
    SomeCells(end - start, cell);
    assert end - start + a * cell == end;
    CellsShift(end - start, a, cell);
    if end < length {
      RoundUpWhole(end / cell, cell);
      LastBelowTotal(end / cell, length, cell);
    }
  }

  /** The interpolation neighbours of a window pixel are core cells, or clamped by the frame. */
  lemma BaseInCore(ax: Axis, x: int)
    requires ax.Valid() && ax.from <= x < ax.to
    ensures ax.first > 0 ==> Base(x, ax.cell) - ax.kernel >= ax.first
    ensures ax.last < ax.total ==> Base(x, ax.cell) + 1 + ax.kernel < ax.last
    ensures -1 <= Base(x, ax.cell) < ax.total
  {
    var n, base := ax.cell, Base(x, ax.cell);
    BaseBounds(x, n);
    hide Base, Cells;
    if ax.first > 0 {
      BaseLow(n, base, x, ax.first, ax.kernel, ax.start);
    }
    if ax.last < ax.total {
      BaseHigh(n, base, x, ax.last, ax.kernel, ax.end);
    }
    BaseRange(n, base, x, ax.length, ax.total);
  }

  lemma BaseRange(n: nat, base: int, x: int, length: nat, total: nat)
    requires n > 0 && 2 * (n * base) <= 2 * x + 1 - n < 2 * (n * base) + 2 * n
    requires 0 <= x < length && total * n >= length
    ensures -1 <= base < total
  {
    assert n * base < n * total;
    FactorOrder(n, total, base);
    assert n * (base + 2) > n * 0;
    FactorOrder(n, base + 2, 0);
  }

  lemma BaseBounds(x: int, n: nat)
    requires n > 0
    ensures 2 * (n * Base(x, n)) <= 2 * x + 1 - n < 2 * (n * Base(x, n)) + 2 * n
  {
    var v := 2 * x + 1 - n;
    assert v == (v / (2 * n)) * (2 * n) + v % (2 * n);
  }

  lemma BaseLow(n: nat, base: int, x: int, first: nat, kernel: nat, start: int)
    requires n > 0 && 2 * x + 1 - n < 2 * (n * base) + 2 * n
    requires start == first * n && start <= x - n * (kernel + 3)
    ensures base - kernel >= first
  {
    assert first * n + n * (kernel + 3) == n * (first + kernel + 3);
    assert n * (first + kernel + 2) + n == n * (first + kernel + 3);
    assert n * (base + 2) > n * (first + kernel + 2) by {
      assert n * (base + 2) == n * base + 2 * n;
    }
    FactorOrder(n, base + 2, first + kernel + 2);
    assert n * base == n * (base + 1) - n;
    assert n * (base + 1) > n * (first + kernel);
    FactorOrder(n, base + 1, first + kernel);
  }

  lemma BaseHigh(n: nat, base: int, x: int, last: nat, kernel: nat, end: int)
    requires n > 0 && 2 * (n * base) <= 2 * x + 1 - n
    requires end == last * n && end >= x + 1 + n * (kernel + 3)
    ensures base + 1 + kernel < last
  {
    assert last * n - n * (kernel + 3) == n * (last - kernel - 3);
    assert n * (last - kernel - 3) > n * base;
    FactorOrder(n, last - kernel - 3, base);
  }

  lemma ShiftedBase(x: int, a: int, cell: nat)
    requires cell > 0
    ensures Base(x - a * cell, cell) == Base(x, cell) - a
    ensures Fraction(x - a * cell, cell) == Fraction(x, cell)
  {
    var v := 2 * x + 1 - cell;
    var q, r := v / (2 * cell), v % (2 * cell);
    assert v == q * (2 * cell) + r;
    assert 2 * (x - a * cell) + 1 - cell == (q - a) * (2 * cell) + r;
    DivUnique(2 * (x - a * cell) + 1 - cell, 2 * cell, q - a, r);
  }

  lemma ClampsAgree(ax: Axis, i: int)
    requires ax.Shape() && -1 <= i <= ax.total
    requires ax.first > 0 ==> i - ax.kernel >= ax.first
    requires ax.last < ax.total ==> i + ax.kernel < ax.last
    ensures Clamp(i - ax.first, ax.last - ax.first) + ax.first == Clamp(i, ax.total)
    ensures ax.first <= Clamp(i, ax.total) < ax.last
  {
  }

  /** Every kernel tap of a core cell reads the same frame cell in the crop and in the frame. */
  lemma TapsAgree(ax: Axis, i: int, d: int)
    requires ax.Shape() && ax.Core(i) && 0 - ax.kernel <= d <= ax.kernel
    ensures Reflect(i - ax.first + d, ax.last - ax.first) + ax.first == Reflect(i + d, ax.total)
  {
    hide Reflect;
    var a, b, w := ax.first, ax.last, ax.total;
    if i + d >= b && a > 0 {
      ReflectOnce(i + d, w);
      ReflectOnce(i - a + d, b - a);
    } else if i + d < 0 && b < w {
      ReflectOnce(i + d, w);
      ReflectOnce(i + d, b);
    }
  }

  lemma ReflectOnce(p: int, length: nat)
    requires length > 0
    ensures length <= p <= 2 * length - 2 ==> Reflect(p, length) == 2 * length - 2 - p
    ensures p < 0 && -p < length ==> Reflect(p, length) == -p
  {
  }

  // ---- Stage by stage, the crop computes the frame's values ------------------------------

  function Window(image: Image, ax: Axis, ay: Axis): (part: Image)
    requires image.Valid() && ax.length == image.width && ay.length == image.height
    requires 0 <= ax.start < ax.end <= ax.length && 0 <= ay.start < ay.end <= ay.length
    ensures part.Valid() && part.width == ax.end - ax.start && part.height == ay.end - ay.start
  {
    Crop(image, Rect(ax.start, ay.start, ax.end, ay.end))
  }

  /** The two axes of one window of `image`. */
  ghost predicate Framed(image: Image, ax: Axis, ay: Axis) {
    image.Valid() && ax.Shape() && ay.Shape() && ax.cell == ay.cell && ax.kernel == ay.kernel
    && ax.length == image.width && ay.length == image.height
  }

  /** Padding by replication reads the same frame column in the crop and in the frame. */
  ghost predicate SameEdges(ax: Axis, x: int, u: int) {
    && x >= 0 && u >= 0 && ax.Shape()
    && forall c: nat {:trigger Edge(x, c, ax.end - ax.start)} :: c < ax.cell ==>
      Edge(x, c, ax.end - ax.start) + ax.start == Edge(u, c, ax.length)
  }

  lemma EdgesAgree(ax: Axis, i: int)
    requires ax.Valid() && ax.first <= i < ax.last
    ensures SameEdges(ax, (i - ax.first) * ax.cell, i * ax.cell)
  {
    NonNegative(i - ax.first, ax.cell);
    NonNegative(i, ax.cell);
    forall c: nat | c < ax.cell
      ensures Edge((i - ax.first) * ax.cell, c, ax.end - ax.start) + ax.start == Edge(i * ax.cell, c, ax.length)
    {
      EdgeAgrees(ax, i, c);
    }
  }

  lemma EdgeAgrees(ax: Axis, i: int, c: nat)
    requires ax.Valid() && ax.first <= i < ax.last && c < ax.cell && (i - ax.first) * ax.cell >= 0 && i * ax.cell >= 0
    ensures Edge((i - ax.first) * ax.cell, c, ax.end - ax.start) + ax.start == Edge(i * ax.cell, c, ax.length)
  {
    hide Cells;
    Distribute(i, ax.first, ax.cell);
    if ax.end < ax.length {
      CellInside(i, c, ax.cell, ax.last);
    }
  }

  lemma NonNegative(i: nat, n: nat)
    ensures i * n >= 0
  {
  }

  lemma Distribute(i: int, a: int, n: int)
    ensures (i - a) * n == i * n - a * n
  {
  }

  lemma CellAgrees(image: Image, ax: Axis, ay: Axis, i: int, j: int)
    requires Framed(image, ax, ay) && ax.Valid() && ay.Valid() && ax.first <= i < ax.last && ay.first <= j < ay.last
    ensures CellOf(Window(image, ax, ay), ax.cell, i - ax.first, j - ay.first) == CellOf(image, ax.cell, i, j)
  {
    EdgesAgree(ax, i);
    EdgesAgree(ay, j);
    hide SameEdges, Cells;
    BlockAgrees(image, ax, ay, (i - ax.first) * ax.cell, (j - ay.first) * ax.cell, i * ax.cell, j * ax.cell);
  }

  lemma EdgeOf(ax: Axis, x: nat, u: nat, c: nat)
    requires SameEdges(ax, x, u) && c < ax.cell
    ensures Edge(x, c, ax.end - ax.start) + ax.start == Edge(u, c, ax.length)
  {
  }

  lemma SampleAgrees(image: Image, ax: Axis, ay: Axis, x: nat, y: nat, u: nat, v: nat, c: nat, d: nat)
    requires Framed(image, ax, ay) && SameEdges(ax, x, u) && SameEdges(ay, y, v) && c < ax.cell && d < ay.cell
    ensures SampleAt(Window(image, ax, ay), x, y, c, d) == SampleAt(image, u, v, c, d)
  {
    hide Edge, SameEdges;
    EdgeOf(ax, x, u, c);
    EdgeOf(ay, y, v, d);
  }

  lemma BlockAgrees(image: Image, ax: Axis, ay: Axis, x: nat, y: nat, u: nat, v: nat)
    requires Framed(image, ax, ay) && SameEdges(ax, x, u) && SameEdges(ay, y, v)
    ensures BlockAt(Window(image, ax, ay), ax.cell, x, y) == BlockAt(image, ax.cell, u, v)
  {
    hide SampleAt, SameEdges, BlockAt, Window;
    forall c, d | 0 <= c < ax.cell && 0 <= d < ax.cell
      ensures SampleAt(Window(image, ax, ay), x, y, c, d) == SampleAt(image, u, v, c, d)
    {
      SampleAgrees(image, ax, ay, x, y, u, v, c, d);
    }
    SameBlock(Window(image, ax, ay), x, y, image, u, v, ax.cell);
  }

  lemma SameBlock(a: Image, x: int, y: int, b: Image, u: int, v: int, n: nat)
    requires a.Valid() && b.Valid() && a.width > 0 && a.height > 0 && b.width > 0 && b.height > 0
    requires x >= 0 && y >= 0 && u >= 0 && v >= 0
    requires forall c, d :: 0 <= c < n && 0 <= d < n ==> SampleAt(a, x, y, c, d) == SampleAt(b, u, v, c, d)
    ensures BlockAt(a, n, x, y) == BlockAt(b, n, u, v)
  {
    hide SampleAt;
    var one, two := BlockAt(a, n, x, y), BlockAt(b, n, u, v);
    forall d | 0 <= d < n ensures one[d] == two[d] {
      forall c | 0 <= c < n ensures one[d][c] == two[d][c] {
        assert one[d][c] == SampleAt(a, x, y, c, d);
        assert two[d][c] == SampleAt(b, u, v, c, d);
      }
    }
  }

  // ---- Stage by stage --------------------------------------------------------------------

  /** `part` covers the kept cells and `whole` all cells. */
  ghost predicate Covers(part: Image, whole: Image, ax: Axis, ay: Axis) {
    && ax.Shape() && ay.Shape() && part.Valid() && whole.Valid()
    && part.width == ax.last - ax.first && part.height == ay.last - ay.first
    && whole.width == ax.total && whole.height == ay.total
  }

  /** Every kept cell holds the frame's value. */
  ghost predicate Agrees(part: Image, whole: Image, ax: Axis, ay: Axis) {
    Covers(part, whole, ax, ay)
    && forall i, j {:trigger whole.At(i, j)} :: ax.first <= i < ax.last && ay.first <= j < ay.last ==>
         part.At(i - ax.first, j - ay.first) == whole.At(i, j)
  }

  lemma ReducedCovers(cv: Cv, image: Image, ax: Axis, ay: Axis)
    requires Framed(image, ax, ay) && ax.Valid() && ay.Valid()
    ensures Covers(Reduced(cv, Window(image, ax, ay), ax.cell), Reduced(cv, image, ax.cell), ax, ay)
  {
    hide Cells, Window, Reduced, CellOf;
  }

  lemma ReducedAgrees(cv: Cv, image: Image, ax: Axis, ay: Axis)
    requires Framed(image, ax, ay) && ax.Valid() && ay.Valid()
    ensures Agrees(Reduced(cv, Window(image, ax, ay), ax.cell), Reduced(cv, image, ax.cell), ax, ay)
  {
    ReducedCovers(cv, image, ax, ay);
    var region := Window(image, ax, ay);
    var part, whole := Reduced(cv, region, ax.cell), Reduced(cv, image, ax.cell);
    hide Cells, Window, Reduced, CellOf;
    forall i, j | ax.first <= i < ax.last && ay.first <= j < ay.last
      ensures CellOf(region, ax.cell, i - ax.first, j - ay.first) == CellOf(image, ax.cell, i, j)
    {
      CellAgrees(image, ax, ay, i, j);
    }
    CellsToValues(cv, region, image, part, whole, ax, ay);
  }

  lemma CellsToValues(cv: Cv, region: Image, image: Image, part: Image, whole: Image, ax: Axis, ay: Axis)
    requires Covers(part, whole, ax, ay) && region.Valid() && region.width > 0 && region.height > 0
    requires image.Valid() && image.width > 0 && image.height > 0
    requires part == Reduced(cv, region, ax.cell) && whole == Reduced(cv, image, ax.cell)
    requires forall i, j {:trigger CellOf(image, ax.cell, i, j)} ::
             ax.first <= i < ax.last && ay.first <= j < ay.last ==>
               CellOf(region, ax.cell, i - ax.first, j - ay.first) == CellOf(image, ax.cell, i, j)
    ensures Agrees(part, whole, ax, ay)
  {
    hide CellOf, Reduced;
  }

  lemma AcrossTapAgrees(part: Image, whole: Image, ax: Axis, ay: Axis, i: int, j: int, k: int, t: int)
    requires Agrees(part, whole, ax, ay) && ax.Core(i) && ay.first <= j < ay.last
    requires 0 <= k <= ax.kernel && 0 <= t <= 2 * k
    ensures TapAcross(part, k, i - ax.first, j - ay.first, t) == TapAcross(whole, k, i, j, t)
  {
    hide Reflect;
    TapsAgree(ax, i, t - k);
    assert whole.At(Reflect(i + (t - k), ax.total), j) == TapAcross(whole, k, i, j, t);
  }

  lemma AcrossTapsAgree(part: Image, whole: Image, ax: Axis, ay: Axis, k: nat, i: int, j: int)
    requires Agrees(part, whole, ax, ay) && k <= ax.kernel && ax.Core(i) && ay.first <= j < ay.last
    ensures TapsAcross(part, k, i - ax.first, j - ay.first) == TapsAcross(whole, k, i, j)
  {
    hide TapAcross;
    forall t: int | 0 <= t < 2 * k + 1
      ensures TapAcross(part, k, i - ax.first, j - ay.first, t) == TapAcross(whole, k, i, j, t)
    {
      AcrossTapAgrees(part, whole, ax, ay, i, j, k, t);
    }
  }

  lemma AcrossAgrees(cv: Cv, part: Image, whole: Image, ax: Axis, ay: Axis, sigma: real, i: int, j: int)
    requires Agrees(part, whole, ax, ay) && cv.radius(sigma) <= ax.kernel
    requires ax.Core(i) && ay.first <= j < ay.last
    ensures Across(cv, part, sigma).At(i - ax.first, j - ay.first) == Across(cv, whole, sigma).At(i, j)
  {
    AcrossTapsAgree(part, whole, ax, ay, cv.radius(sigma), i, j);
    hide TapsAcross;
  }

  lemma DownTapAgrees(cv: Cv, part: Image, whole: Image, ax: Axis, ay: Axis, sigma: real, i: int, j: int, k: int,
                      t: int)
    requires Agrees(part, whole, ax, ay) && cv.radius(sigma) <= ax.kernel && ax.Core(i) && ay.Core(j)
    requires 0 <= k <= ay.kernel && 0 <= t <= 2 * k
    ensures TapDown(Across(cv, part, sigma), k, i - ax.first, j - ay.first, t)
            == TapDown(Across(cv, whole, sigma), k, i, j, t)
  {
    hide Across, Reflect;
    TapsAgree(ay, j, t - k);
    AcrossAgrees(cv, part, whole, ax, ay, sigma, i, Reflect(j + (t - k), ay.total));
  }

  lemma DownAgrees(cv: Cv, part: Image, whole: Image, ax: Axis, ay: Axis, sigma: real, i: int, j: int)
    requires Agrees(part, whole, ax, ay) && cv.radius(sigma) <= ax.kernel && cv.radius(sigma) <= ay.kernel
    requires ax.Core(i) && ay.Core(j)
    ensures Down(cv, Across(cv, part, sigma), sigma).At(i - ax.first, j - ay.first)
            == Down(cv, Across(cv, whole, sigma), sigma).At(i, j)
  {
    DownTapsAgree(cv, part, whole, ax, ay, sigma, i, j);
    hide TapsDown, Across, Reflect;
  }

  lemma DownTapsAgree(cv: Cv, part: Image, whole: Image, ax: Axis, ay: Axis, sigma: real, i: int, j: int)
    requires Agrees(part, whole, ax, ay) && cv.radius(sigma) <= ax.kernel && cv.radius(sigma) <= ay.kernel
    requires ax.Core(i) && ay.Core(j)
    ensures TapsDown(Across(cv, part, sigma), cv.radius(sigma), i - ax.first, j - ay.first)
            == TapsDown(Across(cv, whole, sigma), cv.radius(sigma), i, j)
  {
    var k := cv.radius(sigma);
    hide Across, Reflect, TapDown;
    forall t: int | 0 <= t < 2 * k + 1
      ensures TapDown(Across(cv, part, sigma), k, i - ax.first, j - ay.first, t)
              == TapDown(Across(cv, whole, sigma), k, i, j, t)
    {
      DownTapAgrees(cv, part, whole, ax, ay, sigma, i, j, k, t);
    }
    SameTaps(Across(cv, part, sigma), Across(cv, whole, sigma), k, i - ax.first, j - ay.first, i, j);
  }

  lemma SameTaps(a: Image, b: Image, k: nat, x: int, y: int, u: int, v: int)
    requires a.Valid() && b.Valid() && a.In(x, y) && b.In(u, v)
    requires forall t: int :: 0 <= t < 2 * k + 1 ==> TapDown(a, k, x, y, t) == TapDown(b, k, u, v, t)
    ensures TapsDown(a, k, x, y) == TapsDown(b, k, u, v)
  {
    hide TapDown;
  }

  /** Pixel (x, y) enlarged from `part` equals pixel (u, v) enlarged from `whole`. */
  ghost predicate SamePixel(cv: Cv, part: Image, x: int, y: int, whole: Image, u: int, v: int, cell: nat) {
    && part.Valid() && part.width > 0 && part.height > 0 && whole.Valid() && whole.width > 0 && whole.height > 0
      && cell > 0
    && Interpolated(cv, part, cell, x, y) == Interpolated(cv, whole, cell, u, v)
  }

  /** Two cell images agree at the kept neighbours of a window pixel. */
  lemma SameNeighbours(cv: Cv, part: Image, whole: Image, ax: Axis, ay: Axis, x: int, y: int)
    requires Covers(part, whole, ax, ay) && ax.cell == ay.cell && ax.Valid() && ay.Valid()
    requires ax.from <= x < ax.to && ay.from <= y < ay.to
    requires forall i, j {:trigger whole.At(i, j)} :: ax.Core(i) && ay.Core(j) ==>
             part.At(i - ax.first, j - ay.first) == whole.At(i, j)
    ensures SamePixel(cv, part, x - ax.start, y - ay.start, whole, x, y, ax.cell)
  {
    NeighboursAgree(ax, x);
    NeighboursAgree(ay, y);
    hide NeighboursOf, Fraction, WeightAcross, Cells, RoundUp;
  }

  lemma InterpolatedAgrees(cv: Cv, part: Image, whole: Image, ax: Axis, ay: Axis, sigma: real, x: int, y: int)
    requires Agrees(part, whole, ax, ay) && ax.cell == ay.cell && ax.Valid() && ay.Valid()
    requires cv.radius(sigma) <= ax.kernel && cv.radius(sigma) <= ay.kernel
    requires ax.from <= x < ax.to && ay.from <= y < ay.to
    ensures SamePixel(cv, Down(cv, Across(cv, part, sigma), sigma), x - ax.start, y - ay.start,
                      Down(cv, Across(cv, whole, sigma), sigma), x, y, ax.cell)
  {
    hide Across, Down, Cells, SamePixel;
    var mine, theirs := Down(cv, Across(cv, part, sigma), sigma), Down(cv, Across(cv, whole, sigma), sigma);
    forall i, j | ax.Core(i) && ay.Core(j) ensures mine.At(i - ax.first, j - ay.first) == theirs.At(i, j) {
      DownAgrees(cv, part, whole, ax, ay, sigma, i, j);
    }
    SameNeighbours(cv, mine, theirs, ax, ay, x, y);
  }

  lemma NeighboursAgree(ax: Axis, x: int)
    requires ax.Valid() && ax.from <= x < ax.to
    ensures var n, len := ax.cell, ax.last - ax.first;
            && WeightAcross(x - ax.start, n, len) == WeightAcross(x, n, ax.total)
            && Fraction(x - ax.start, n) == Fraction(x, n)
    ensures var mine, theirs := NeighboursOf(x - ax.start, ax.cell, ax.last - ax.first),
            NeighboursOf(x, ax.cell, ax.total);
            && mine.low + ax.first == theirs.low && mine.high + ax.first == theirs.high
            && ax.Core(theirs.low) && ax.Core(theirs.high)
  {
    BaseInCore(ax, x);
    ShiftedBase(x, ax.first, ax.cell);
    hide Base, Fraction, RoundUp;
    ClampsAgree(ax, Base(x, ax.cell));
    ClampsAgree(ax, Base(x, ax.cell) + 1);
  }

  // ---- The theorem -----------------------------------------------------------------------

  /** The crop a box is blurred from. */
  function BoxAxes(image: Image, box: Rect, radius: real, cell: nat): (axes: (Axis, Axis))
    requires image.Valid() && radius > 0.0 && cell > 0 && Inside(box, image)
    ensures Framed(image, axes.0, axes.1) && axes.0.Valid() && axes.1.Valid()
    ensures axes.0.from == box.left && axes.0.to == box.right && axes.1.from == box.top && axes.1.to == box.bottom
    ensures axes.0.cell == cell && axes.0.kernel == KernelCells(radius, cell)
    ensures axes.0.start == CropStart(box.left, BlurSupport(radius, cell), cell)
    ensures axes.1.end == CropEnd(box.bottom, BlurSupport(radius, cell), cell, image.height)
  {
    SupportPositive(radius, cell);
    AxisFacts(box.left, box.right, image.width, cell, KernelCells(radius, cell));
    AxisFacts(box.top, box.bottom, image.height, cell, KernelCells(radius, cell));
    (AxisOf(box.left, box.right, image.width, cell, KernelCells(radius, cell)),
     AxisOf(box.top, box.bottom, image.height, cell, KernelCells(radius, cell)))
  }

  predicate Inside(box: Rect, image: Image) {
    0 <= box.left < box.right <= image.width && 0 <= box.top < box.bottom <= image.height
  }

  /** The pixels of one window, enlarged from its crop's blurred cells. */
  function WindowBlur(cv: Cv, image: Image, ax: Axis, ay: Axis, radius: real): (out: Image)
    requires Framed(image, ax, ay)
    ensures out.Valid() && out.width == ax.to - ax.from && out.height == ay.to - ay.from
  {
    Crop(Pipeline(cv, Window(image, ax, ay), radius, ax.cell),
         Rect(ax.from - ax.start, ay.from - ay.start, ax.to - ax.start, ay.to - ay.start))
  }

  /** The blurred pixels of `box`, computed from a crop around it. */
  function FrameBlur(cv: Cv, image: Image, box: Rect, radius: real, cell: nat): (out: Image)
    requires image.Valid() && radius > 0.0 && cell > 0 && Inside(box, image)
    ensures out.Valid() && out.width == box.Width() && out.height == box.Height()
  {
    var (ax, ay) := BoxAxes(image, box, radius, cell);
    WindowBlur(cv, image, ax, ay, radius)
  }

  function PipelineAt(cv: Cv, region: Image, radius: real, cell: nat, x: int, y: int): int
    requires region.Valid() && region.In(x, y) && cell > 0
  {
    Pipeline(cv, region, radius, cell).At(x, y)
  }

  /** One pixel of a window's blur. */
  function WindowBlurAt(cv: Cv, image: Image, ax: Axis, ay: Axis, radius: real, x: int, y: int): int
    requires Framed(image, ax, ay) && ax.from <= x < ax.to && ay.from <= y < ay.to
  {
    WindowBlur(cv, image, ax, ay, radius).At(x - ax.from, y - ay.from)
  }

  /** The pixel of a box's blur that lands on frame pixel `p`. */
  function FrameBlurAt(cv: Cv, image: Image, box: Rect, radius: real, cell: nat, p: Point): int
    requires image.Valid() && radius > 0.0 && cell > 0 && Inside(box, image) && box.Has(p)
  {
    FrameBlur(cv, image, box, radius, cell).At(p.x - box.left, p.y - box.top)
  }

  /** The blur of the whole frame at one pixel. */
  function BlurredAt(cv: Cv, image: Image, radius: real, cell: nat, p: Point): int
    requires image.Valid() && image.Bounds().Has(p) && cell > 0
  {
    PipelineAt(cv, image, radius, cell, p.x, p.y)
  }

  lemma CellsAgree(cv: Cv, image: Image, ax: Axis, ay: Axis, radius: real, x: int, y: int)
    requires KernelLaw(cv) && radius > 0.0 && Framed(image, ax, ay) && ax.Valid() && ay.Valid()
             && ax.kernel == KernelCells(radius, ax.cell)
    requires ax.from <= x < ax.to && ay.from <= y < ay.to
    ensures SamePixel(cv, BlurredCells(cv, Window(image, ax, ay), radius, ax.cell), x - ax.start, y - ay.start,
                      BlurredCells(cv, image, radius, ax.cell), x, y, ax.cell)
  {
    hide Interpolated, Reduced, Across, Down, Window, Cells, SamePixel, Agrees;
    SigmaFits(cv, radius, ax.cell);
    ReducedAgrees(cv, image, ax, ay);
    InterpolatedAgrees(cv, Reduced(cv, Window(image, ax, ay), ax.cell), Reduced(cv, image, ax.cell), ax, ay,
                       radius / ax.cell as real, x, y);
  }

  lemma CropAt(image: Image, r: Rect, x: int, y: int)
    requires image.Valid() && r.Within(image.Bounds()) && r.left <= r.right && r.top <= r.bottom && r.Has(Point(x, y))
    ensures Crop(image, r).At(x - r.left, y - r.top) == image.At(x, y)
  {
    hide Crop;
  }

  lemma WindowBlurIs(cv: Cv, image: Image, ax: Axis, ay: Axis, radius: real, x: int, y: int)
    requires Framed(image, ax, ay) && ax.from <= x < ax.to && ay.from <= y < ay.to
    ensures WindowBlurAt(cv, image, ax, ay, radius, x, y)
            == PipelineAt(cv, Window(image, ax, ay), radius, ax.cell, x - ax.start, y - ay.start)
  {
    hide Pipeline, Window, Cells, Crop, BlurredCells, Interpolated;
    var r := Rect(ax.from - ax.start, ay.from - ay.start, ax.to - ax.start, ay.to - ay.start);
    CropAt(Pipeline(cv, Window(image, ax, ay), radius, ax.cell), r, x - ax.start, y - ay.start);
  }

  lemma PipelinesAgree(cv: Cv, region: Image, image: Image, radius: real, cell: nat, x: int, y: int, u: int, v: int)
    requires region.Valid() && region.In(x, y) && image.Valid() && image.In(u, v) && cell > 0
    requires SamePixel(cv, BlurredCells(cv, region, radius, cell), x, y, BlurredCells(cv, image, radius, cell), u, v,
                       cell)
    ensures PipelineAt(cv, region, radius, cell, x, y) == PipelineAt(cv, image, radius, cell, u, v)
  {
    hide BlurredCells, Interpolated, Pipeline, Cells;
  }

  lemma WindowIsWhole(cv: Cv, image: Image, ax: Axis, ay: Axis, radius: real, x: int, y: int)
    requires KernelLaw(cv) && radius > 0.0 && Framed(image, ax, ay) && ax.Valid() && ay.Valid()
             && ax.kernel == KernelCells(radius, ax.cell)
    requires ax.from <= x < ax.to && ay.from <= y < ay.to
    ensures WindowBlurAt(cv, image, ax, ay, radius, x, y) == BlurredAt(cv, image, radius, ax.cell, Point(x, y))
  {
    hide BlurredCells, SamePixel, WindowBlurAt, PipelineAt, Window, Cells;
    CellsAgree(cv, image, ax, ay, radius, x, y);
    WindowBlurIs(cv, image, ax, ay, radius, x, y);
    PipelinesAgree(cv, Window(image, ax, ay), image, radius, ax.cell, x - ax.start, y - ay.start, x, y);
  }

  /** Every window gives the whole frame's blurred pixels, wherever its crop starts. */
  lemma BlurIsWindowIndependent(cv: Cv, image: Image, box: Rect, radius: real, cell: nat, p: Point)
    requires KernelLaw(cv) && image.Valid() && radius > 0.0 && cell > 0
    requires Inside(box, image) && box.Has(p)
    ensures FrameBlurAt(cv, image, box, radius, cell, p) == BlurredAt(cv, image, radius, cell, p)
  {
    hide BlurredAt, WindowBlurAt, FrameBlurAt;
    var (ax, ay) := BoxAxes(image, box, radius, cell);
    WindowIsWhole(cv, image, ax, ay, radius, p.x, p.y);
    BoxBlurIs(cv, image, box, radius, cell, p, ax, ay);
  }

  lemma BoxBlurIs(cv: Cv, image: Image, box: Rect, radius: real, cell: nat, p: Point, ax: Axis, ay: Axis)
    requires image.Valid() && radius > 0.0 && cell > 0 && Inside(box, image) && box.Has(p)
    requires (ax, ay) == BoxAxes(image, box, radius, cell)
    ensures FrameBlurAt(cv, image, box, radius, cell, p) == WindowBlurAt(cv, image, ax, ay, radius, p.x, p.y)
  {
    hide WindowBlur, BoxAxes;
  }

  lemma SigmaFits(cv: Cv, radius: real, cell: nat)
    requires KernelLaw(cv) && radius > 0.0 && cell > 0
    ensures cv.radius(radius / cell as real) <= KernelCells(radius, cell)
  {
    var n := cell as real;
    assert radius / n > 0.0;
    assert 3.0 * (radius / n) == 3.0 * radius / n;
  }

  // ---- What the blur computes ------------------------------------------------------------

  /** `q` is the sample that index `p` of a row of `length` samples means when the row continues as its
      mirror image about its first and last sample. */
  ghost predicate Mirrors(p: int, length: int, q: int) {
    && 0 <= q < length
    && (length > 1 ==> exists m: int :: Unfolds(p, length, q, m))
  }

  ghost predicate Unfolds(p: int, length: int, q: int, m: int) {
    p == m * (2 * length - 2) + q || p == m * (2 * length - 2) - q
  }

  /** Reflection takes each index to its mirror image. */
  lemma {:induction false} ReflectMirrors(p: int, length: nat)
    requires length > 0
    ensures Mirrors(p, length, Reflect(p, length))
    decreases if p < 0 then 2 * -p + 1 else 2 * p
  {
    var q := Reflect(p, length);
    if length > 1 {
      if p < 0 {
        ReflectMirrors(-p, length);
        var m :| Unfolds(-p, length, q, m);
        MirrorNegates(p, length, q, m);
      } else if p >= length {
        ReflectMirrors(2 * length - 2 - p, length);
        var m :| Unfolds(2 * length - 2 - p, length, q, m);
        MirrorTurns(p, length, q, m);
      } else {
        assert Unfolds(p, length, q, 0);
      }
    }
  }

  lemma MirrorNegates(p: int, length: int, q: int, m: int)
    requires Unfolds(-p, length, q, m)
    ensures Unfolds(p, length, q, -m)
  {
  }

  lemma MirrorTurns(p: int, length: int, q: int, m: int)
    requires Unfolds(2 * length - 2 - p, length, q, m)
    ensures Unfolds(p, length, q, 1 - m)
  {
    assert (1 - m) * (2 * length - 2) == (2 * length - 2) - m * (2 * length - 2);
  }

  /** The samples of a cell: `cell` rows of as many frame pixels, those past the frame's far edges taken
      from its last column and row. */
  lemma CellSamples(image: Image, cell: nat, i: nat, j: nat, u: nat, v: nat)
    requires image.Valid() && image.width > 0 && image.height > 0 && u < cell && v < cell
    ensures |CellOf(image, cell, i, j)| == cell && |CellOf(image, cell, i, j)[v]| == cell
    ensures CellOf(image, cell, i, j)[v][u]
            == image.At(if cell * i + u < image.width then cell * i + u else image.width - 1,
                        if cell * j + v < image.height then cell * j + v else image.height - 1)
  {
    assert i * cell == cell * i && j * cell == cell * j;
  }

  /** The reduced value of one cell. */
  function MeanAt(cv: Cv, image: Image, cell: nat, i: nat, j: nat): int
    requires image.Valid() && image.width > 0 && image.height > 0
  {
    cv.area(CellOf(image, cell, i, j))
  }

  /** The reduced values of 2k + 1 cells around cell i of row j, mirrored at the frame's edges. */
  function CellRow(cv: Cv, image: Image, cell: nat, k: nat, i: int, j: nat): seq<int>
    requires image.Valid() && image.width > 0 && image.height > 0 && cell > 0 && Cells(image.width, cell) > 0
  {
    seq(2 * k + 1, s requires 0 <= s < 2 * k + 1 && image.Valid() && image.width > 0 && image.height > 0 && cell > 0
                   && Cells(image.width, cell) > 0 =>
      MeanAt(cv, image, cell, Reflect(i + s - k, Cells(image.width, cell)), j))
  }

  /** The horizontal kernel's values of 2k + 1 rows around row j. */
  function CellColumn(cv: Cv, image: Image, sigma: real, cell: nat, k: nat, i: int, j: int): seq<int>
    requires image.Valid() && image.width > 0 && image.height > 0 && cell > 0
    requires Cells(image.width, cell) > 0 && Cells(image.height, cell) > 0
  {
    seq(2 * k + 1, t requires 0 <= t < 2 * k + 1 && image.Valid() && image.width > 0 && image.height > 0 && cell > 0
                   && Cells(image.width, cell) > 0 && Cells(image.height, cell) > 0 =>
      cv.across(sigma, CellRow(cv, image, cell, k, i, Reflect(j + t - k, Cells(image.height, cell)))))
  }

  /** Reduce, then the horizontal and the vertical kernel with the reduced sigma. */
  function CellBlur(cv: Cv, image: Image, radius: real, cell: nat, i: int, j: int): int
    requires image.Valid() && image.width > 0 && image.height > 0 && cell > 0
    requires Cells(image.width, cell) > 0 && Cells(image.height, cell) > 0
  {
    var sigma := radius / cell as real;
    cv.down(sigma, CellColumn(cv, image, sigma, cell, cv.radius(sigma), i, j))
  }

  lemma AcrossIs(cv: Cv, image: Image, sigma: real, cell: nat, i: int, j: int)
    requires image.Valid() && image.width > 0 && image.height > 0 && cell > 0
    requires 0 <= i < Cells(image.width, cell) && 0 <= j < Cells(image.height, cell)
    ensures Across(cv, Reduced(cv, image, cell), sigma).At(i, j)
            == cv.across(sigma, CellRow(cv, image, cell, cv.radius(sigma), i, j))
  {
    hide Cells, CellOf, Reflect;
    var reduced := Reduced(cv, image, cell);
    assert reduced.In(i, j);
    var k := cv.radius(sigma);
    var a, b := TapsAcross(reduced, k, i, j), CellRow(cv, image, cell, k, i, j);
    forall s | 0 <= s < 2 * k + 1 ensures a[s] == b[s] {
      AcrossTapIs(cv, image, cell, k, i, j, s);
    }
    assert a == b;
    assert Across(cv, reduced, sigma).In(i, j);
  }

  lemma AcrossTapIs(cv: Cv, image: Image, cell: nat, k: nat, i: int, j: int, s: nat)
    requires image.Valid() && image.width > 0 && image.height > 0 && cell > 0 && s < 2 * k + 1
    requires 0 <= i < Cells(image.width, cell) && 0 <= j < Cells(image.height, cell)
    ensures TapsAcross(Reduced(cv, image, cell), k, i, j)[s] == CellRow(cv, image, cell, k, i, j)[s]
  {
    hide Cells, CellOf, Reflect;
    var reduced := Reduced(cv, image, cell);
    assert TapsAcross(reduced, k, i, j)[s] == TapAcross(reduced, k, i, j, s);
    var c := Reflect(i + s - k, reduced.width);
    assert i + (s - k) == i + s - k;
    assert reduced.In(c, j) && reduced.At(c, j) == MeanAt(cv, image, cell, c, j);
  }

  lemma BlurredCellIs(cv: Cv, image: Image, radius: real, cell: nat, i: int, j: int)
    requires image.Valid() && image.width > 0 && image.height > 0 && cell > 0
    requires 0 <= i < Cells(image.width, cell) && 0 <= j < Cells(image.height, cell)
    ensures BlurredCells(cv, image, radius, cell).At(i, j) == CellBlur(cv, image, radius, cell, i, j)
  {
    hide Cells, CellOf, Reflect, CellRow, Reduced;
    var sigma := radius / cell as real;
    var rows := Across(cv, Reduced(cv, image, cell), sigma);
    var k := cv.radius(sigma);
    assert rows.In(i, j);
    var a, b := TapsDown(rows, k, i, j), CellColumn(cv, image, sigma, cell, k, i, j);
    forall t | 0 <= t < 2 * k + 1 ensures a[t] == b[t] {
      assert a[t] == TapDown(rows, k, i, j, t);
      AcrossIs(cv, image, sigma, cell, i, Reflect(j + (t - k), rows.height));
    }
    assert a == b;
    assert Down(cv, rows, sigma).In(i, j);
  }

  /** A pixel's centre lies between the centres of the two cells it is interpolated from. */
  lemma BetweenCentres(x: int, cell: nat)
    requires cell > 0
    ensures 2 * (cell * Base(x, cell)) + cell <= 2 * x + 1 < 2 * (cell * (Base(x, cell) + 1)) + cell
    ensures Fraction(x, cell) == (2 * x + 1) - (2 * (cell * Base(x, cell)) + cell)
  {
    var v, n := 2 * x + 1 - cell, 2 * cell;
    assert v == v / n * n + v % n;
    assert Base(x, cell) * n == 2 * (cell * Base(x, cell));
    assert cell * (Base(x, cell) + 1) == cell * Base(x, cell) + cell;
  }

  /** The two cells around a pixel: those whose centres enclose its own, with the distance from the nearer
      one on the left as weight; before the first and after the last centre it is that cell alone. */
  lemma NeighboursEnclose(x: int, cell: nat, length: nat)
    requires cell > 0 && 0 <= x < cell * length
    ensures length > 0
    ensures var near := NeighboursOf(x, cell, length);
            var centre := 2 * x + 1;
            if centre < cell then near == Neighbours(0, 0) && WeightAcross(x, cell, length) == 0
            else if centre >= 2 * (cell * (length - 1)) + cell then
              near == Neighbours(length - 1, length - 1) && WeightAcross(x, cell, length) == 0
            else
              && near.high == near.low + 1
              && 2 * (cell * near.low) + cell <= centre < 2 * (cell * near.high) + cell
              && WeightAcross(x, cell, length) == centre - (2 * (cell * near.low) + cell)
  {
    FactorOrder(cell, length, 0);
    BetweenCentres(x, cell);
    var base := Base(x, cell);
    EnclosedBase(x, cell, length, base);
    hide Base;
  }

  lemma EnclosedBase(x: int, cell: nat, length: nat, base: int)
    requires cell > 0 && length > 0 && 0 <= x < cell * length
    requires 2 * (cell * base) + cell <= 2 * x + 1 < 2 * (cell * (base + 1)) + cell
    ensures 2 * x + 1 < cell ==> base == -1
    ensures 2 * x + 1 >= cell ==> base >= 0
    ensures 2 * x + 1 >= 2 * (cell * (length - 1)) + cell ==> base == length - 1
    ensures 2 * x + 1 < 2 * (cell * (length - 1)) + cell ==> base < length - 1
  {
    CentreOrder(cell, base, length - 1);
    CentreOrder(cell, length - 1, base);
    CentreOrder(cell, length - 1, base + 1);
    CentreOrder(cell, 0, base);
    CentreOrder(cell, base, 0);
    CentreOrder(cell, 0, base + 1);
    CentreOrder(cell, -1, base + 1);
    CentreOrder(cell, base, length);
  }

  /** Cell centres are ordered like the cells. */
  lemma CentreOrder(cell: nat, i: int, j: int)
    requires cell > 0
    ensures 2 * (cell * i) + cell < 2 * (cell * j) + cell ==> i < j
    ensures cell * 0 == 0 && cell * -1 == 0 - cell
  {
    FactorOrder(cell, j, i);
  }

  /** A blurred pixel in one formula: the four cells around it, each the blur of mirrored cell values,
      interpolated by how far the pixel's centre is from theirs. */
  lemma BlurredPixelIs(cv: Cv, image: Image, radius: real, cell: nat, p: Point)
    requires image.Valid() && image.Bounds().Has(p) && cell > 0
    ensures Cells(image.width, cell) > 0 && Cells(image.height, cell) > 0
    ensures var h := NeighboursOf(p.x, cell, Cells(image.width, cell));
            var v := NeighboursOf(p.y, cell, Cells(image.height, cell));
            BlurredAt(cv, image, radius, cell, p)
            == cv.lerp(CellBlur(cv, image, radius, cell, h.low, v.low),
                       CellBlur(cv, image, radius, cell, h.high, v.low),
                       CellBlur(cv, image, radius, cell, h.low, v.high),
                       CellBlur(cv, image, radius, cell, h.high, v.high),
                       WeightAcross(p.x, cell, Cells(image.width, cell)), Fraction(p.y, cell), cell)
  {
    SomeCells(image.width, cell);
    SomeCells(image.height, cell);
    BlurredPixelIsInterpolated(cv, image, radius, cell, p);
    hide Cells, CellBlur, NeighboursOf, WeightAcross, Fraction, BlurredCells, BlurredAt;
    var h := NeighboursOf(p.x, cell, Cells(image.width, cell));
    var v := NeighboursOf(p.y, cell, Cells(image.height, cell));
    BlurredCellIs(cv, image, radius, cell, h.low, v.low);
    BlurredCellIs(cv, image, radius, cell, h.high, v.low);
    BlurredCellIs(cv, image, radius, cell, h.low, v.high);
    BlurredCellIs(cv, image, radius, cell, h.high, v.high);
  }

  lemma BlurredPixelIsInterpolated(cv: Cv, image: Image, radius: real, cell: nat, p: Point)
    requires image.Valid() && image.Bounds().Has(p) && cell > 0
    requires Cells(image.width, cell) > 0 && Cells(image.height, cell) > 0
    ensures BlurredAt(cv, image, radius, cell, p)
            == Interpolated(cv, BlurredCells(cv, image, radius, cell), cell, p.x, p.y)
  {
    hide Cells, BlurredCells, Interpolated, Enlarged;
    assert image.In(p.x, p.y);
    var out := Pipeline(cv, image, radius, cell);
    assert out.At(p.x, p.y) == Interpolated(cv, BlurredCells(cv, image, radius, cell), cell, p.x, p.y);
  }

  /** Both frames have the same reduced cells. */
  ghost predicate SameMeans(cv: Cv, a: Image, b: Image, cell: nat)
    requires a.Valid() && b.Valid() && a.width > 0 && a.height > 0 && cell > 0
    requires b.width == a.width && b.height == a.height
  {
    forall i: nat, j: nat :: i < Cells(a.width, cell) && j < Cells(a.height, cell) ==>
      MeanAt(cv, a, cell, i, j) == MeanAt(cv, b, cell, i, j)
  }

  /** Nothing finer than a cell survives: frames whose cells reduce to the same values have the same blur,
      whatever their pixels are. */
  lemma OnlyMeansSurvive(cv: Cv, a: Image, b: Image, radius: real, cell: nat, p: Point)
    requires a.Valid() && b.Valid() && a.Bounds().Has(p) && b.width == a.width && b.height == a.height && cell > 0
    requires SameMeans(cv, a, b, cell)
    ensures BlurredAt(cv, a, radius, cell, p) == BlurredAt(cv, b, radius, cell, p)
  {
    BlurredPixelIs(cv, a, radius, cell, p);
    BlurredPixelIs(cv, b, radius, cell, p);
    hide Cells, CellBlur, NeighboursOf, WeightAcross, Fraction, BlurredAt, SameMeans;
    var h := NeighboursOf(p.x, cell, Cells(a.width, cell));
    var v := NeighboursOf(p.y, cell, Cells(a.height, cell));
    SameCellBlur(cv, a, b, radius, cell, h.low, v.low);
    SameCellBlur(cv, a, b, radius, cell, h.high, v.low);
    SameCellBlur(cv, a, b, radius, cell, h.low, v.high);
    SameCellBlur(cv, a, b, radius, cell, h.high, v.high);
  }

  lemma SameCellBlur(cv: Cv, a: Image, b: Image, radius: real, cell: nat, i: int, j: int)
    requires a.Valid() && b.Valid() && a.width > 0 && a.height > 0 && b.width == a.width && b.height == a.height
    requires cell > 0 && Cells(a.width, cell) > 0 && Cells(a.height, cell) > 0 && SameMeans(cv, a, b, cell)
    ensures CellBlur(cv, a, radius, cell, i, j) == CellBlur(cv, b, radius, cell, i, j)
  {
    hide Cells, MeanAt, Reflect, CellRow, SameMeans;
    var sigma := radius / cell as real;
    var k := cv.radius(sigma);
    var ca, cb := CellColumn(cv, a, sigma, cell, k, i, j), CellColumn(cv, b, sigma, cell, k, i, j);
    forall t | 0 <= t < 2 * k + 1 ensures ca[t] == cb[t] {
      SameCellRow(cv, a, b, cell, k, i, Reflect(j + t - k, Cells(a.height, cell)));
    }
    assert ca == cb;
  }

  lemma SameCellRow(cv: Cv, a: Image, b: Image, cell: nat, k: nat, i: int, j: nat)
    requires a.Valid() && b.Valid() && a.width > 0 && a.height > 0 && b.width == a.width && b.height == a.height
    requires cell > 0 && Cells(a.width, cell) > 0 && j < Cells(a.height, cell) && SameMeans(cv, a, b, cell)
    ensures CellRow(cv, a, cell, k, i, j) == CellRow(cv, b, cell, k, i, j)
  {
    hide Cells, MeanAt, Reflect;
    var ra, rb := CellRow(cv, a, cell, k, i, j), CellRow(cv, b, cell, k, i, j);
    forall s | 0 <= s < 2 * k + 1 ensures ra[s] == rb[s] {
      var c: nat := Reflect(i + s - k, Cells(a.width, cell));
      assert MeanAt(cv, a, cell, c, j) == MeanAt(cv, b, cell, c, j);
    }
    assert ra == rb;
  }
}
