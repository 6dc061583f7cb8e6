/** Line drawing: ssd1306_set_line against the closed form of a Bresenham line. */
module Line {
  import opened Arithmetic
  import opened Display

  function Abs(a: int): nat { if a < 0 then -a else a }

  function Max(a: int, b: int): int { if a > b then a else b }

  function Sign(from: int, to: int): int { if from < to then 1 else -1 }

  // ---------- the ideal line ----------

  /** How far the shorter axis has come after `k` steps along the longer one: k * minor / major, rounded to the
      nearest integer. */
  function Minor(major: nat, minor: nat, k: nat): nat
    requires minor <= major
  {
    if major == 0 then 0 else (k * minor + (major - 1 - major / 2)) / major
  }

  /** What the error term of the algorithm measures. */
  function Rest(major: nat, minor: nat, k: nat): int
    requires minor <= major
  {
    major / 2 - k * minor + Minor(major, minor, k) * major
  }

  lemma RestInRange(major: nat, minor: nat, k: nat)
    requires minor <= major && major > 0
    ensures 0 <= Rest(major, minor, k) < major
  {
  }

  lemma MinorUnique(major: nat, minor: nat, k: nat, m: int)
    requires minor <= major && major > 0 && 0 <= major / 2 - k * minor + m * major < major
    ensures m == Minor(major, minor, k)
  {
    RestInRange(major, minor, k);
    var d := m - Minor(major, minor, k);
    assert d * major == m * major - Minor(major, minor, k) * major;
    NoMultiple(major, d);
  }

  /** One step along the longer axis. */
  lemma MinorSteps(major: nat, minor: nat, k: nat)
    requires minor <= major && major > 0
    ensures Minor(major, minor, k + 1) == Minor(major, minor, k) + if Rest(major, minor, k) < minor then 1 else 0
    ensures Rest(major, minor, k + 1) == Rest(major, minor, k) - minor + if Rest(major, minor, k) < minor then major else 0
  {
    RestInRange(major, minor, k);
    var m := Minor(major, minor, k);
    var m' := m + if Rest(major, minor, k) < minor then 1 else 0;
    assert m' * major == m * major + if Rest(major, minor, k) < minor then major else 0;
    assert (k + 1) * minor == k * minor + minor;
    MinorUnique(major, minor, k + 1, m');
  }

  lemma MinorEnds(major: nat, minor: nat)
    requires minor <= major
    ensures Minor(major, minor, 0) == 0 && Minor(major, minor, major) == minor
    ensures major > 0 ==> Rest(major, minor, 0) == major / 2
  {
    if major > 0 {
      MinorUnique(major, minor, 0, 0);
      assert major / 2 - major * minor + minor * major == major / 2;
      MinorUnique(major, minor, major, minor);
    }
  }

  lemma {:induction false} MinorInside(major: nat, minor: nat, k: nat)
    requires minor <= major && k <= major
    ensures Minor(major, minor, k) <= minor
    decreases major - k
  {
    MinorEnds(major, minor);
    if k < major {
      MinorSteps(major, minor, k);
      MinorInside(major, minor, k + 1);
    }
  }

  /** The k-th pixel from (x0, y0) towards (x1, y1). */
  function LineAt(x0: int, y0: int, x1: int, y1: int, k: nat): Point {
    var dx, dy := Abs(x1 - x0), Abs(y1 - y0);
    var sx, sy := Sign(x0, x1), Sign(y0, y1);
    if dx > dy then Point(x0 + sx * k, y0 + sy * Minor(dx, dy, k)) else Point(x0 + sx * Minor(dy, dx, k), y0 + sy * k)
  }

  function LineLength(x0: int, y0: int, x1: int, y1: int): nat {
    Max(Abs(x1 - x0), Abs(y1 - y0)) + 1
  }

  /** The line as a path. */
  function LinePath(x0: int, y0: int, x1: int, y1: int): (path: seq<Point>)
    ensures |path| == LineLength(x0, y0, x1, y1)
    ensures forall k :: 0 <= k < |path| ==> path[k] == LineAt(x0, y0, x1, y1, k)
  {
    seq(LineLength(x0, y0, x1, y1), k requires k >= 0 => LineAt(x0, y0, x1, y1, k))
  }

  function PointsOf(path: seq<Point>): (s: set<Point>)
    ensures forall p :: p in s <==> p in path
  {
    set p | p in path
  }

  predicate Neighbours(p: Point, q: Point) {
    p != q && Abs(p.x - q.x) <= 1 && Abs(p.y - q.y) <= 1
  }

  lemma LineSteps(x0: int, y0: int, x1: int, y1: int, k: nat)
    requires k < LineLength(x0, y0, x1, y1) - 1
    ensures Neighbours(LineAt(x0, y0, x1, y1, k), LineAt(x0, y0, x1, y1, k + 1))
  {
    var dx: int, dy: int := Abs(x1 - x0), Abs(y1 - y0);
    if dx > dy {
      MinorSteps(dx, dy, k);
    } else {
      MinorSteps(dy, dx, k);
    }
  }

  /** The path has max(dx, dy) + 1 pixels, leads from end to end, each next to the one before. */
  lemma LineConnects(x0: int, y0: int, x1: int, y1: int)
    ensures var path := LinePath(x0, y0, x1, y1);
            && |path| == Max(Abs(x1 - x0), Abs(y1 - y0)) + 1
            && path[0] == Point(x0, y0) && path[|path| - 1] == Point(x1, y1)
            && forall k :: 0 <= k < |path| - 1 ==> Neighbours(path[k], path[k + 1])
  {
    var dx, dy := Abs(x1 - x0), Abs(y1 - y0);
    var path := LinePath(x0, y0, x1, y1);
    if dx > dy {
      MinorEnds(dx, dy);
    } else {
      MinorEnds(dy, dx);
    }
    forall k | 0 <= k < |path| - 1
      ensures Neighbours(path[k], path[k + 1])
    {
      LineSteps(x0, y0, x1, y1, k);
    }
  }

  /** No pixel comes twice. */
  lemma LineIsInjective(x0: int, y0: int, x1: int, y1: int, j: nat, k: nat)
    requires j < k < LineLength(x0, y0, x1, y1)
    ensures LineAt(x0, y0, x1, y1, j) != LineAt(x0, y0, x1, y1, k)
  {
  }

  /** After `a` steps along x and `b` along y the pixel is within half a step of the ideal line. */
  lemma LineIsClose(x0: int, y0: int, x1: int, y1: int, k: nat)
    requires k < LineLength(x0, y0, x1, y1)
    ensures var dx, dy := Abs(x1 - x0), Abs(y1 - y0);
            var p := LineAt(x0, y0, x1, y1, k);
            var a, b := Abs(p.x - x0), Abs(p.y - y0);
            2 * Abs(b * dx - a * dy) <= Max(dx, dy) && a <= dx && b <= dy
  {
    var dx, dy := Abs(x1 - x0), Abs(y1 - y0);
    if dx > dy {
      RestInRange(dx, dy, k);
      MinorInside(dx, dy, k);
      var b := Minor(dx, dy, k);
      assert Rest(dx, dy, k) == dx / 2 - (k * dy - b * dx);
    } else if dy > 0 {
      RestInRange(dy, dx, k);
      MinorInside(dy, dx, k);
      var a := Minor(dy, dx, k);
      assert Rest(dy, dx, k) == dy / 2 - (k * dx - a * dy);
    }
  }

  lemma LineOnScreen(x0: int, y0: int, x1: int, y1: int, k: nat, width: int, height: int)
    requires 0 <= x0 < width && 0 <= x1 < width && 0 <= y0 < height && 0 <= y1 < height
    requires k < LineLength(x0, y0, x1, y1)
    ensures var p := LineAt(x0, y0, x1, y1, k); 0 <= p.x < width && 0 <= p.y < height
  {
    var dx, dy := Abs(x1 - x0), Abs(y1 - y0);
    if dx > dy {
      MinorInside(dx, dy, k);
    } else {
      MinorInside(dy, dx, k);
    }
  }

  // ---------- the algorithm ----------

  /** A coordinate in range stays as it is, any other becomes the last one. */
  function Clamp(v: nat, limit: nat): (r: nat)
    requires limit > 0
    ensures r < limit && (v < limit ==> r == v) && (v >= limit ==> r + 1 == limit)
  {
    if v >= limit then limit - 1 else v
  }

  lemma PaintedMore(image: set<Point>, path: seq<Point>, k: nat, now: set<Point>, invert: bool)
    requires k < |path| && now == Painted(Painted(image, PointsOf(path[..k]), invert), {path[k]}, invert)
    ensures now == Painted(image, PointsOf(path[..k + 1]), invert)
  {
  }

  /** Plots one pixel of a path that lies on the screen. */
  method PlotNext(dev: Display, ghost image: set<Point>, ghost path: seq<Point>, ghost k: nat, x: nat, y: nat, invert: bool)
    requires dev.Valid() && k < |path| && path[k] == Point(x, y) && x < dev.width && y < dev.Height()
    requires dev.Pixels() == Painted(image, PointsOf(path[..k]), invert)
    modifies dev.page
    ensures dev.Pixels() == Painted(image, PointsOf(path[..k + 1]), invert)
  {
    var _ := dev.SetPixel(x, y, invert);
    assert {Point(x, y)} * dev.OnScreen() == {path[k]};
    PaintedMore(image, path, k, dev.Pixels(), invert);
  }

  lemma VerticalAt(x: int, y0: int, y1: int, k: nat)
    requires k <= Abs(y1 - y0)
    ensures LineAt(x, y0, x, y1, k) == Point(x, y0 + Sign(y0, y1) * k)
  {
  }

  lemma HorizontalAt(x0: int, x1: int, y: int, k: nat)
    requires k <= Abs(x1 - x0)
    ensures LineAt(x0, y, x1, y, k) == Point(x0 + Sign(x0, x1) * k, y)
  {
  }

  lemma VerticalMirrors(x: int, y0: int, y1: int, k: nat)
    requires k <= Abs(y1 - y0)
    ensures LineAt(x, y0, x, y1, k) == LineAt(x, y1, x, y0, Abs(y1 - y0) - k)
  {
    VerticalAt(x, y0, y1, k);
    VerticalAt(x, y1, y0, Abs(y1 - y0) - k);
  }

  lemma HorizontalMirrors(x0: int, x1: int, y: int, k: nat)
    requires k <= Abs(x1 - x0)
    ensures LineAt(x0, y, x1, y, k) == LineAt(x1, y, x0, y, Abs(x1 - x0) - k)
  {
    HorizontalAt(x0, x1, y, k);
    HorizontalAt(x1, x0, y, Abs(x1 - x0) - k);
  }

  /** A straight line drawn from either end. */
  lemma VerticalReversed(x: int, y0: int, y1: int)
    ensures PointsOf(LinePath(x, y0, x, y1)) == PointsOf(LinePath(x, y1, x, y0))
  {
    VerticalCovers(x, y0, y1);
    VerticalCovers(x, y1, y0);
  }

  lemma VerticalCovers(x: int, y0: int, y1: int)
    ensures PointsOf(LinePath(x, y0, x, y1)) <= PointsOf(LinePath(x, y1, x, y0))
  {
    var there, back := LinePath(x, y0, x, y1), LinePath(x, y1, x, y0);
    var n := Abs(y1 - y0);
    forall p | p in PointsOf(there)
      ensures p in PointsOf(back)
    {
      var k :| 0 <= k < |there| && there[k] == p;
      VerticalMirrors(x, y0, y1, k);
      assert back[n - k] == p;
    }
  }

  lemma HorizontalReversed(x0: int, x1: int, y: int)
    ensures PointsOf(LinePath(x0, y, x1, y)) == PointsOf(LinePath(x1, y, x0, y))
  {
    HorizontalCovers(x0, x1, y);
    HorizontalCovers(x1, x0, y);
  }

  lemma HorizontalCovers(x0: int, x1: int, y: int)
    ensures PointsOf(LinePath(x0, y, x1, y)) <= PointsOf(LinePath(x1, y, x0, y))
  {
    var there, back := LinePath(x0, y, x1, y), LinePath(x1, y, x0, y);
    var n := Abs(x1 - x0);
    forall p | p in PointsOf(there)
      ensures p in PointsOf(back)
    {
      var k :| 0 <= k < |there| && there[k] == p;
      HorizontalMirrors(x0, x1, y, k);
      assert back[n - k] == p;
    }
  }

  /** The vertical branch, from the upper end down. */
  method SetVertical(dev: Display, x: nat, yA: nat, yB: nat, invert: bool)
    requires dev.Valid() && x < dev.width && yA < dev.Height() && yB < dev.Height()
    modifies dev.page
    ensures dev.Pixels() == Painted(old(dev.Pixels()), PointsOf(LinePath(x, yA, x, yB)), invert)
  {
    var y0, y1 := yA, yB;
    if y1 < y0 {
      y0, y1 := y1, y0;
      VerticalReversed(x, yA, yB);
    }
    ghost var path, image := LinePath(x, y0, x, y1), dev.Pixels();
    assert Painted(image, PointsOf(path[..0]), invert) == image;
    for i := y0 to y1 + 1
      invariant dev.Pixels() == Painted(image, PointsOf(path[..i - y0]), invert)
    {
      VerticalAt(x, y0, y1, i - y0);
      PlotNext(dev, image, path, i - y0, x, i, invert);
    }
    assert path[..|path|] == path;
  }

  /** The horizontal branch, from left to right. */
  method SetHorizontal(dev: Display, xA: nat, xB: nat, y: nat, invert: bool)
    requires dev.Valid() && xA < dev.width && xB < dev.width && y < dev.Height()
    modifies dev.page
    ensures dev.Pixels() == Painted(old(dev.Pixels()), PointsOf(LinePath(xA, y, xB, y)), invert)
  {
    var x0, x1 := xA, xB;
    if x1 < x0 {
      x0, x1 := x1, x0;
      HorizontalReversed(xA, xB, y);
    }
    ghost var path, image := LinePath(x0, y, x1, y), dev.Pixels();
    assert Painted(image, PointsOf(path[..0]), invert) == image;
    for i := x0 to x1 + 1
      invariant dev.Pixels() == Painted(image, PointsOf(path[..i - x0]), invert)
    {
      HorizontalAt(x0, x1, y, i - x0);
      PlotNext(dev, image, path, i - x0, i, y, invert);
    }
    assert path[..|path|] == path;
  }

  /** The state of the general loop before its k-th pixel: where it stands and what `err` is. */
  ghost predicate AtStep(xa: int, ya: int, x1: int, y1: int, k: nat, x: int, y: int, err: int) {
    var dx, dy := Abs(x1 - xa), Abs(y1 - ya);
    && k < LineLength(xa, ya, x1, y1)
    && Point(x, y) == LineAt(xa, ya, x1, y1, k)
    && err == if dx > dy then Rest(dx, dy, k) else -Rest(dy, dx, k)
  }

  /** The two updates of the loop lead to the next pixel. */
  lemma NextStep(xa: int, ya: int, x1: int, y1: int, k: nat, x: int, y: int, e2: int)
    requires xa != x1 && ya != y1 && AtStep(xa, ya, x1, y1, k, x, y, e2) && k + 1 < LineLength(xa, ya, x1, y1)
    ensures var dx: int, dy: int := Abs(x1 - xa), Abs(y1 - ya);
            AtStep(xa, ya, x1, y1, k + 1,
                   if e2 > -dx then x + Sign(xa, x1) else x, if e2 < dy then y + Sign(ya, y1) else y,
                   e2 - (if e2 > -dx then dy else 0) + (if e2 < dy then dx else 0))
  {
    var dx, dy := Abs(x1 - xa), Abs(y1 - ya);
    if dx > dy {
      RestInRange(dx, dy, k);
      MinorSteps(dx, dy, k);
    } else {
      RestInRange(dy, dx, k);
      MinorSteps(dy, dx, k);
    }
  }

  /** Only the last pixel is (x1, y1). */
  lemma EndsOnlyAtEnd(xa: int, ya: int, x1: int, y1: int, k: nat)
    requires k < LineLength(xa, ya, x1, y1)
    ensures LineAt(xa, ya, x1, y1, k) == Point(x1, y1) <==> k == LineLength(xa, ya, x1, y1) - 1
  {
    LineConnects(xa, ya, x1, y1);
    var n := LineLength(xa, ya, x1, y1) - 1;
    if k < n {
      LineIsInjective(xa, ya, x1, y1, k, n);
    }
  }

  /** The updates at the end of the loop body. */
  method Advance(xa: int, ya: int, x1: int, y1: int, ghost k: nat, x: int, y: int, e2: int) returns (x0: int, y0: int, err: int)
    requires xa != x1 && ya != y1 && AtStep(xa, ya, x1, y1, k, x, y, e2) && k + 1 < LineLength(xa, ya, x1, y1)
    ensures AtStep(xa, ya, x1, y1, k + 1, x0, y0, err)
  {
    var dx: int, dy: int := Abs(x1 - xa), Abs(y1 - ya);
    NextStep(xa, ya, x1, y1, k, x, y, e2);
    x0, y0, err := x, y, e2;
    if e2 > -dx {
      err := err - dy;
      x0 := x0 + Sign(xa, x1);
    }
    if e2 < dy {
      err := err + dx;
      y0 := y0 + Sign(ya, y1);
    }
  }

  /** The pixel at the head of the loop body, and the test for the end. */
  method PlotStep(dev: Display, ghost image: set<Point>, xa: nat, ya: nat, x1: nat, y1: nat,
                  ghost k: nat, x: int, y: int, ghost err: int, invert: bool)
    returns (last: bool)
    requires dev.Valid() && xa < dev.width && x1 < dev.width && ya < dev.Height() && y1 < dev.Height()
    requires AtStep(xa, ya, x1, y1, k, x, y, err)
    requires dev.Pixels() == Painted(image, PointsOf(LinePath(xa, ya, x1, y1)[..k]), invert)
    modifies dev.page
    ensures dev.Pixels() == Painted(image, PointsOf(LinePath(xa, ya, x1, y1)[..k + 1]), invert)
    ensures last <==> k + 1 == LineLength(xa, ya, x1, y1)
  {
    LineOnScreen(xa, ya, x1, y1, k, dev.width, dev.Height());
    EndsOnlyAtEnd(xa, ya, x1, y1, k);
    PlotNext(dev, image, LinePath(xa, ya, x1, y1), k, x, y, invert);
    last := x == x1 && y == y1;
  }

  lemma FirstStep(xa: int, ya: int, x1: int, y1: int)
    requires xa != x1 && ya != y1
    ensures var dx: int, dy: int := Abs(x1 - xa), Abs(y1 - ya); AtStep(xa, ya, x1, y1, 0, xa, ya, if dx > dy then dx / 2 else -(dy / 2))
  {
    var dx, dy := Abs(x1 - xa), Abs(y1 - ya);
    MinorEnds(if dx > dy then dx else dy, if dx > dy then dy else dx);
  }

  /** The general loop. */
  method SetSloped(dev: Display, xa: nat, ya: nat, x1: nat, y1: nat, invert: bool)
    requires dev.Valid() && xa < dev.width && x1 < dev.width && ya < dev.Height() && y1 < dev.Height()
    requires xa != x1 && ya != y1
    modifies dev.page
    ensures dev.Pixels() == Painted(old(dev.Pixels()), PointsOf(LinePath(xa, ya, x1, y1)), invert)
  {
    var dx: int, dy: int := Abs(x1 - xa), Abs(y1 - ya);
    var err: int := if dx > dy then dx / 2 else -(dy / 2);
    var x0: int, y0: int := xa, ya;
    ghost var image, k := dev.Pixels(), 0;
    FirstStep(xa, ya, x1, y1);
    assert Painted(image, PointsOf(LinePath(xa, ya, x1, y1)[..0]), invert) == image;
    var last := false;
    while !last
      invariant !last ==> AtStep(xa, ya, x1, y1, k, x0, y0, err)
      invariant k <= LineLength(xa, ya, x1, y1) && (last ==> k == LineLength(xa, ya, x1, y1))
      invariant dev.Pixels() == Painted(image, PointsOf(LinePath(xa, ya, x1, y1)[..k]), invert)
      decreases !last, LineLength(xa, ya, x1, y1) - k
    {
      last := PlotStep(dev, image, xa, ya, x1, y1, k, x0, y0, err, invert);
      if !last {
        x0, y0, err := Advance(xa, ya, x1, y1, k, x0, y0, err);
      }
      k := k + 1;
    }
    assert LinePath(xa, ya, x1, y1)[..k] == LinePath(xa, ya, x1, y1);
  }

  /** ssd1306_set_line: after clamping to the panel exactly the pixels of the line are painted. `-dy / 2` of the C
      truncates towards zero. */
  method SetLine(dev: Display, xA: nat, yA: nat, xB: nat, yB: nat, invert: bool)
    requires dev.Valid() && xA < 256 && yA < 256 && xB < 256 && yB < 256
    modifies dev.page
    ensures var x0, x1 := Clamp(xA, dev.width), Clamp(xB, dev.width);
            var y0, y1 := Clamp(yA, dev.Height()), Clamp(yB, dev.Height());
            dev.Pixels() == Painted(old(dev.Pixels()), PointsOf(LinePath(x0, y0, x1, y1)), invert)
  {
    var x0, x1, y0, y1 := xA, xB, yA, yB;
    if x0 >= dev.width {
      x0 := dev.width - 1;
    }
    if x1 >= dev.width {
      x1 := dev.width - 1;
    }
    if y0 >= dev.Height() {
      y0 := dev.Height() - 1;
    }
    if y1 >= dev.Height() {
      y1 := dev.Height() - 1;
    }
    if x0 == x1 {
      SetVertical(dev, x0, y0, y1, invert);
    } else if y0 == y1 {
      SetHorizontal(dev, x0, x1, y0, invert);
    } else {
      SetSloped(dev, x0, y0, x1, y1, invert);
    }
  }
}
