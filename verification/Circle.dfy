/** Circle drawing: ssd1306_set_circle against the set of pixels nearest to the circle. */
module Circle {
  import opened Display
  import opened Line

  // ---------- the ideal circle ----------

  /** `t` is the integer nearest to the square root of r * r - s * s. */
  predicate Nearest(r: int, s: int, t: int) {
    t * t - t + 1 <= r * r - s * s <= t * t + t
  }

  /** In the octant where the first offset is the smaller: the second is the nearest to the circle. */
  predicate InOctant(r: int, s: int, t: int) {
    0 <= s <= t && if r == 0 then t == 0 else Nearest(r, s, t)
  }

  /** An offset (a, b) from the centre that belongs to the circle of radius `r`: eight octants alike. */
  predicate OnCircle(r: int, a: int, b: int) {
    if Abs(a) <= Abs(b) then InOctant(r, Abs(a), Abs(b)) else InOctant(r, Abs(b), Abs(a))
  }

  function CirclePoints(x0: int, y0: int, r: nat): set<Point> {
    set a, b | 0 - r <= a <= r && 0 - r <= b <= r && OnCircle(r, a, b) :: Point(x0 + a, y0 + b)
  }

  lemma SquareGrows(a: int, b: int)
    requires 0 <= a <= b
    ensures a * a <= b * b && a * a + a <= b * b + b
  {
  }

  lemma Squares(a: int, b: int)
    requires 0 <= a <= b
    ensures a * a <= b * b && (a < b ==> a * a + a < b * b - b + 1)
  {
    SquareGrows(a, b);
    if a < b {
      SquareGrows(a, b - 1);
      assert (b - 1) * (b - 1) + (b - 1) == b * b - b;
    }
  }

  /** The nearest integer falls as the other offset grows. */
  lemma NearestFalls(r: int, s: int, t: int, s': int, t': int)
    requires 0 <= s <= s' && t >= 0 && t' >= 0
    requires r * r - s * s <= t * t + t && Nearest(r, s', t')
    ensures t' <= t
  {
    Squares(s, s');
    if t < t' {
      Squares(t, t');
    }
  }

  lemma NearestUnique(r: int, s: int, t: int, t': int)
    requires s >= 0 && t >= 0 && t' >= 0 && Nearest(r, s, t) && Nearest(r, s, t')
    ensures t == t'
  {
    NearestFalls(r, s, t, s, t');
    NearestFalls(r, s, t', s, t);
  }

  lemma NotBeyondRadius(r: nat, s: int, t: int)
    requires InOctant(r, s, t)
    ensures t <= r
  {
    if r > 0 {
      assert s * s >= 0;
      if t > r {
        Squares(r, t);
      }
    }
  }

  /** Every pixel of the circle misses it by less than its larger offset. */
  lemma CircleIsAccurate(r: nat, a: int, b: int)
    requires OnCircle(r, a, b)
    ensures Abs(a * a + b * b - r * r) <= Max(Abs(a), Abs(b))
  {
  }

  /** The circle has no gaps: every pixel of an octant has a neighbour at the next offset, up to the diagonal, where it is a
      neighbour of its own mirror image. */
  lemma CircleGoesOn(r: nat, s: int, t: int)
    requires r > 0 && InOctant(r, s, t)
    ensures t <= s + 1 || InOctant(r, s + 1, t - 1) || InOctant(r, s + 1, t)
  {
  }

  // ---------- coordinates ----------

  /** Conversion to uint8_t. */
  function U8(v: int): (u: nat)
    ensures u < 256
  {
    v % 256
  }

  function Wrapped(points: set<Point>): set<Point> {
    set p | p in points :: Point(U8(p.x), U8(p.y))
  }

  /** What is left of some points on the panel after the conversion of their coordinates. */
  function Shown(dev: Display, points: set<Point>): set<Point> {
    Wrapped(points) * dev.OnScreen()
  }

  lemma WrappedMore(points: set<Point>, p: Point)
    ensures Wrapped(points + {p}) == Wrapped(points) + {Point(U8(p.x), U8(p.y))}
  {
  }

  /** No coordinate of the circle wraps onto the panel. */
  predicate NoWrap(x0: nat, r: nat, limit: nat) {
    x0 + r < 256 && limit + r <= 256 + x0
  }

  /** Off-screen parts of a circle stay off the screen if its reach stays below 256 on one side and above the panel's
      wrapped image on the other; the panel then shows exactly the part of the circle that lies on it. */
  lemma CircleIsClipped(dev: Display, x0: nat, y0: nat, r: nat)
    requires dev.Valid() && NoWrap(x0, r, dev.width) && NoWrap(y0, r, dev.Height())
    ensures Shown(dev, CirclePoints(x0, y0, r)) == CirclePoints(x0, y0, r) * dev.OnScreen()
  {
    var circle := CirclePoints(x0, y0, r);
    forall p | p in circle
      ensures p in dev.OnScreen() <==> Point(U8(p.x), U8(p.y)) in dev.OnScreen()
      ensures p in dev.OnScreen() ==> Point(U8(p.x), U8(p.y)) == p
    {
      WrapsOff(p.x, dev.width);
      WrapsOff(p.y, dev.Height());
    }
  }

  lemma WrapsOff(v: int, limit: nat)
    requires limit <= 256 && limit - 256 <= v < 256
    ensures 0 <= v < limit <==> U8(v) < limit
    ensures 0 <= v ==> U8(v) == v
  {
  }

  /** All circles with centre and radius below 128 are among them. */
  lemma SmallCirclesDoNotWrap(dev: Display, x0: nat, r: nat)
    requires dev.Valid() && x0 < 128 && r < 128
    ensures NoWrap(x0, r, dev.width) && NoWrap(x0, r, dev.Height())
  {
  }

  /** A circle whose outermost pixel on some side comes back onto the panel from the other side is wrong. */
  lemma WrappedCircleIsWrong(dev: Display, x0: nat, y0: nat, r: nat)
    requires dev.Valid() && x0 < 256 && y0 < 256 && r < 256 && r != 128
    requires || (y0 < dev.Height() && 256 <= x0 + r < 256 + dev.width)
             || (y0 < dev.Height() && x0 < r && x0 - r + 256 < dev.width)
             || (x0 < dev.width && 256 <= y0 + r < 256 + dev.Height())
             || (x0 < dev.width && y0 < r && y0 - r + 256 < dev.Height())
    ensures Shown(dev, CirclePoints(x0, y0, r)) != CirclePoints(x0, y0, r) * dev.OnScreen()
  {
    if y0 < dev.Height() && (256 <= x0 + r < 256 + dev.width || (x0 < r && x0 - r + 256 < dev.width)) {
      WrapsSideways(dev, x0, y0, r);
    } else {
      WrapsUpOrDown(dev, x0, y0, r);
    }
  }

  lemma WrapsSideways(dev: Display, x0: nat, y0: nat, r: nat)
    requires dev.Valid() && x0 < 256 && y0 < dev.Height() && r < 256 && r != 128
    requires 256 <= x0 + r < 256 + dev.width || (x0 < r && x0 - r + 256 < dev.width)
    ensures Shown(dev, CirclePoints(x0, y0, r)) != CirclePoints(x0, y0, r) * dev.OnScreen()
  {
    StrayOnRow(dev, x0, y0, r, if 256 <= x0 + r < 256 + dev.width then r else 0 - r);
  }

  lemma WrapsUpOrDown(dev: Display, x0: nat, y0: nat, r: nat)
    requires dev.Valid() && x0 < dev.width && y0 < 256 && r < 256 && r != 128
    requires 256 <= y0 + r < 256 + dev.Height() || (y0 < r && y0 - r + 256 < dev.Height())
    ensures Shown(dev, CirclePoints(x0, y0, r)) != CirclePoints(x0, y0, r) * dev.OnScreen()
  {
    StrayOnColumn(dev, x0, y0, r, if 256 <= y0 + r < 256 + dev.Height() then r else 0 - r);
  }

  /** The leftmost or rightmost pixel comes back at a place that is not on the circle. */
  lemma StrayOnRow(dev: Display, x0: nat, y0: nat, r: nat, a: int)
    requires dev.Valid() && 0 < r < 256 && r != 128 && x0 < 256 && y0 < dev.Height()
    requires (a == r || a == 0 - r) && !(0 <= x0 + a < 256) && U8(x0 + a) < dev.width
    ensures Shown(dev, CirclePoints(x0, y0, r)) != CirclePoints(x0, y0, r) * dev.OnScreen()
  {
    OnAxis(r, a);
    WrapsElsewhere(x0, r, a);
    AxisElsewhere(r, U8(x0 + a) - x0);
    assert U8(y0 + 0) - y0 == 0;
    Stray(dev, x0, y0, r, a, 0);
  }

  lemma StrayOnColumn(dev: Display, x0: nat, y0: nat, r: nat, b: int)
    requires dev.Valid() && 0 < r < 256 && r != 128 && y0 < 256 && x0 < dev.width
    requires (b == r || b == 0 - r) && !(0 <= y0 + b < 256) && U8(y0 + b) < dev.Height()
    ensures Shown(dev, CirclePoints(x0, y0, r)) != CirclePoints(x0, y0, r) * dev.OnScreen()
  {
    OnAxis(r, b);
    WrapsElsewhere(y0, r, b);
    AxisElsewhere(r, U8(y0 + b) - y0);
    assert U8(x0 + 0) - x0 == 0;
    Stray(dev, x0, y0, r, 0, b);
  }

  lemma WrapsElsewhere(v: nat, r: nat, a: int)
    requires r < 256 && r != 128 && v < 256 && (a == r || a == 0 - r) && !(0 <= v + a < 256)
    ensures U8(v + a) - v != r && U8(v + a) - v != 0 - r
  {
  }

  /** A pixel of the circle that is shown at a place off the circle. */
  lemma Stray(dev: Display, x0: nat, y0: nat, r: nat, a: int, b: int)
    requires dev.Valid() && OnCircle(r, a, b) && U8(x0 + a) < dev.width && U8(y0 + b) < dev.Height()
    requires !OnCircle(r, U8(x0 + a) - x0, U8(y0 + b) - y0)
    ensures Shown(dev, CirclePoints(x0, y0, r)) != CirclePoints(x0, y0, r) * dev.OnScreen()
  {
    CircleMembership(x0, y0, r, Point(x0 + a, y0 + b));
    CircleMembership(x0, y0, r, Point(U8(x0 + a), U8(y0 + b)));
    ShownElsewhere(dev, CirclePoints(x0, y0, r), Point(x0 + a, y0 + b));
  }

  lemma ShownElsewhere(dev: Display, points: set<Point>, p: Point)
    requires dev.Valid() && p in points && U8(p.x) < dev.width && U8(p.y) < dev.Height()
    requires Point(U8(p.x), U8(p.y)) !in points
    ensures Shown(dev, points) != points * dev.OnScreen()
  {
    assert Point(U8(p.x), U8(p.y)) in Shown(dev, points);
  }

  lemma OnAxis(r: nat, a: int)
    requires r > 0 && (a == r || a == 0 - r)
    ensures OnCircle(r, a, 0) && OnCircle(r, 0, a)
  {
  }

  /** On an axis the circle has two pixels. */
  lemma AxisElsewhere(r: nat, a: int)
    requires r > 0 && a != r && a != 0 - r
    ensures !OnCircle(r, a, 0) && !OnCircle(r, 0, a)
  {
    if OnCircle(r, a, 0) || OnCircle(r, 0, a) {
      assert 0 * 0 == 0;
      NearestUnique(r, 0, r, Abs(a));
    }
  }

  /** For radii up to 128 and a centre on a row of the panel it is right exactly if it does not reach past column 255, or is
      the one circle whose rightmost pixels come back onto its leftmost. */
  lemma CircleWrapsExactly(dev: Display, x0: nat, y0: nat, r: nat)
    requires dev.Valid() && x0 < 256 && y0 < dev.Height() && r <= 128
    ensures Shown(dev, CirclePoints(x0, y0, r)) == CirclePoints(x0, y0, r) * dev.OnScreen() <==> x0 + r < 256 || x0 == r == 128
  {
    if x0 + r < 256 {
      CircleIsClipped(dev, x0, y0, r);
    } else if r < 128 {
      WrappedCircleIsWrong(dev, x0, y0, r);
    } else if x0 == 128 {
      CircleMeetsItself(dev, y0);
    } else {
      NextColumnStrays(dev, x0, y0);
    }
  }

  lemma CircleMeetsItself(dev: Display, y0: nat)
    requires dev.Valid() && y0 < dev.Height()
    ensures Shown(dev, CirclePoints(128, y0, 128)) == CirclePoints(128, y0, 128) * dev.OnScreen()
  {
    var circle := CirclePoints(128, y0, 128);
    forall p | p in circle
      ensures p in dev.OnScreen() ==> Point(U8(p.x), U8(p.y)) == p
      ensures Point(U8(p.x), U8(p.y)) in dev.OnScreen() ==> Point(U8(p.x), U8(p.y)) in circle
    {
      MeetsItself(dev, y0, p);
    }
  }

  lemma MeetsItself(dev: Display, y0: nat, p: Point)
    requires dev.Valid() && y0 < dev.Height() && p in CirclePoints(128, y0, 128)
    ensures p in dev.OnScreen() ==> Point(U8(p.x), U8(p.y)) == p
    ensures Point(U8(p.x), U8(p.y)) in dev.OnScreen() ==> Point(U8(p.x), U8(p.y)) in CirclePoints(128, y0, 128)
  {
    var q := Point(U8(p.x), U8(p.y));
    CircleMembership(128, y0, 128, p);
    CircleMembership(128, y0, 128, q);
    if q in dev.OnScreen() {
      assert q.y == p.y && (q.x == p.x || (p.x == 256 && q.x == 0));
    }
  }

  /** In column 127 the circle of radius 128 has pixels in the rows 12 above and 12 below the centre. */
  lemma NextColumnStrays(dev: Display, x0: nat, y0: nat)
    requires dev.Valid() && 128 < x0 < 256 && y0 < dev.Height()
    ensures Shown(dev, CirclePoints(x0, y0, 128)) != CirclePoints(x0, y0, 128) * dev.OnScreen()
  {
    var b := if y0 < 12 then 12 else -12;
    AtTwelve(b);
    assert U8(x0 + 127) == x0 - 129 && U8(y0 + b) == y0 + b;
    Stray(dev, x0, y0, 128, 127, b);
  }

  lemma AtTwelve(b: int)
    requires Abs(b) == 12
    ensures OnCircle(128, 127, b) && !OnCircle(128, -129, b)
  {
  }

  /** The conversion brings this point onto the panel from somewhere else. */
  predicate ComesBack(dev: Display, p: Point)
    requires dev.Valid()
  {
    Point(U8(p.x), U8(p.y)) in dev.OnScreen() && p != Point(U8(p.x), U8(p.y))
  }

  /** For radii below 128, wherever the centre: right exactly if no pixel comes back. */
  lemma CircleRightExactly(dev: Display, x0: nat, y0: nat, r: nat)
    requires dev.Valid() && x0 < 256 && y0 < 256 && r < 128
    ensures Shown(dev, CirclePoints(x0, y0, r)) == CirclePoints(x0, y0, r) * dev.OnScreen() <==>
            forall p :: p in CirclePoints(x0, y0, r) ==> !ComesBack(dev, p)
  {
    if forall p :: p in CirclePoints(x0, y0, r) ==> !ComesBack(dev, p) {
      NothingComesBack(dev, CirclePoints(x0, y0, r));
    } else {
      var p :| p in CirclePoints(x0, y0, r) && ComesBack(dev, p);
      ComesBackElsewhere(x0, y0, r, p);
      ShownElsewhere(dev, CirclePoints(x0, y0, r), p);
    }
  }

  lemma NothingComesBack(dev: Display, points: set<Point>)
    requires dev.Valid() && forall p :: p in points ==> !ComesBack(dev, p)
    ensures Shown(dev, points) == points * dev.OnScreen()
  {
    forall q
      ensures q in Shown(dev, points) <==> q in points * dev.OnScreen()
    {
      if q in points * dev.OnScreen() {
        assert Point(U8(q.x), U8(q.y)) == q;
      }
    }
  }

  lemma ComesBackElsewhere(x0: nat, y0: nat, r: nat, p: Point)
    requires x0 < 256 && y0 < 256 && r < 128 && p in CirclePoints(x0, y0, r) && p != Point(U8(p.x), U8(p.y))
    ensures Point(U8(p.x), U8(p.y)) !in CirclePoints(x0, y0, r)
  {
  }

  // ---------- the algorithm ----------

  function Min(a: int, b: int): int { if a < b then a else b }

  lemma CircleMembership(x0: int, y0: int, r: nat, p: Point)
    ensures p in CirclePoints(x0, y0, r) <==> OnCircle(r, p.x - x0, p.y - y0)
  {
    var a, b := p.x - x0, p.y - y0;
    if OnCircle(r, a, b) {
      NotBeyondRadius(r, Min(Abs(a), Abs(b)), Max(Abs(a), Abs(b)));
      assert p == Point(x0 + a, y0 + b);
    }
  }

  /** A pixel belongs to the circle exactly if its larger offset is the integer nearest to the circle at its smaller one,
      on whatever side of the centre it lies. */
  lemma CircleExactly(x0: int, y0: int, r: nat, a: int, b: int)
    ensures var width, height := if a < 0 then -a else a, if b < 0 then -b else b;
            var s, t := if width < height then width else height, if width < height then height else width;
            Point(x0 + a, y0 + b) in CirclePoints(x0, y0, r) <==>
            if r == 0 then t == 0 else t * t - t < r * r - s * s <= t * t + t
  {
    CircleMembership(x0, y0, r, Point(x0 + a, y0 + b));
  }

  /** The part of the circle whose smaller offset is at most `x`. */
  function Covered(x0: int, y0: int, r: nat, x: int): set<Point> {
    set p | p in CirclePoints(x0, y0, r) && Min(Abs(p.x - x0), Abs(p.y - y0)) <= x
  }

  /** The eight pixels of one offset. */
  function Layer(x0: int, y0: int, s: int, t: int): set<Point> {
    {Point(x0 + s, y0 + t), Point(x0 - s, y0 + t), Point(x0 + s, y0 - t), Point(x0 - s, y0 - t),
     Point(x0 + t, y0 + s), Point(x0 - t, y0 + s), Point(x0 + t, y0 - s), Point(x0 - t, y0 - s)}
  }

  lemma LayerMembership(x0: int, y0: int, s: nat, t: nat, p: Point)
    requires s <= t
    ensures p in Layer(x0, y0, s, t) <==>
            Min(Abs(p.x - x0), Abs(p.y - y0)) == s && Max(Abs(p.x - x0), Abs(p.y - y0)) == t
  {
  }

  lemma OctantDecides(r: nat, a: int, b: int)
    ensures OnCircle(r, a, b) <==> InOctant(r, Min(Abs(a), Abs(b)), Max(Abs(a), Abs(b)))
  {
  }

  lemma LayerDecides(x0: int, y0: int, r: nat, s: nat, t: nat, p: Point)
    requires r > 0 && InOctant(r, s, t)
    ensures p in Layer(x0, y0, s, t) <==> p in CirclePoints(x0, y0, r) && Min(Abs(p.x - x0), Abs(p.y - y0)) == s
  {
    CircleMembership(x0, y0, r, p);
    LayerMembership(x0, y0, s, t, p);
    var a, b := p.x - x0, p.y - y0;
    OctantDecides(r, a, b);
    if OnCircle(r, a, b) && Min(Abs(a), Abs(b)) == s {
      NearestUnique(r, s, t, Max(Abs(a), Abs(b)));
    }
  }

  /** One more offset covers one more layer. */
  lemma LayerAdds(x0: int, y0: int, r: nat, s: nat, t: nat)
    requires r > 0 && InOctant(r, s, t)
    ensures Covered(x0, y0, r, s) == Covered(x0, y0, r, s - 1) + Layer(x0, y0, s, t)
  {
    forall p
      ensures p in Covered(x0, y0, r, s) <==> p in Covered(x0, y0, r, s - 1) + Layer(x0, y0, s, t)
    {
      LayerAddsAt(x0, y0, r, s, t, p);
    }
  }

  lemma LayerAddsAt(x0: int, y0: int, r: nat, s: nat, t: nat, p: Point)
    requires r > 0 && InOctant(r, s, t)
    ensures p in Covered(x0, y0, r, s) <==> p in Covered(x0, y0, r, s - 1) || p in Layer(x0, y0, s, t)
  {
    LayerDecides(x0, y0, r, s, t, p);
  }

  /** Beyond the diagonal nothing is left to cover. */
  lemma DiagonalEnds(x0: int, y0: int, r: nat, x: nat, y: nat, x': int)
    requires r > 0 && y <= x <= x' && r * r - x * x <= y * y + y
    ensures Covered(x0, y0, r, x') == Covered(x0, y0, r, x) == CirclePoints(x0, y0, r)
  {
    forall p | p in CirclePoints(x0, y0, r)
      ensures Min(Abs(p.x - x0), Abs(p.y - y0)) <= x
    {
      CircleMembership(x0, y0, r, p);
      var s, t := Min(Abs(p.x - x0), Abs(p.y - y0)), Max(Abs(p.x - x0), Abs(p.y - y0));
      OctantDecides(r, p.x - x0, p.y - y0);
      if s > x {
        NearestFalls(r, x, y, s, t);
      }
    }
  }

  /** What the loop of ssd1306_set_circle keeps: the closed form of its error term and its increments, and that (x, y) is
      the pixel of the octant, or at the end its mirror image. */
  ghost predicate OnTrack(r: nat, x: int, y: int, f: int, ddFx: int, ddFy: int) {
    && 0 <= x <= y + 1 && 0 <= y <= r
    && f == (x + 1) * (x + 1) + y * (y - 1) - r * r
    && ddFx == 2 * x + 1 && ddFy == -2 * y
    && r * r - x * x <= y * y + y
    && (x <= y && r > 0 ==> Nearest(r, x, y))
    && (x > y ==> y == x - 1 && InOctant(r, y, x))
  }

  lemma TrackStarts(r: nat)
    ensures OnTrack(r, 0, r, 1 - r, 1, -2 * r)
  {
  }

  /** The error terms of the C fit their sixteen bits, after the last round as well. */
  lemma TermsFit(r: nat, x: int, y: int, f: int, ddFx: int, ddFy: int)
    requires OnTrack(r, x, y, f, ddFx, ddFy) && r < 256
    ensures -512 <= f <= 512 && 0 <= ddFx <= 512 && -512 <= ddFy <= 0
  {
  }

  lemma TrackGoesOn(r: nat, x: int, y: int, f: int, ddFx: int, ddFy: int)
    requires OnTrack(r, x, y, f, ddFx, ddFy) && x < y
    ensures var y' := if f >= 0 then y - 1 else y;
            OnTrack(r, x + 1, y', f + (if f >= 0 then ddFy + 2 else 0) + ddFx + 2, ddFx + 2, if f >= 0 then ddFy + 2 else ddFy)
    ensures f < 0 ==> x + 1 <= y
  {
    assert (x + 1) * (x + 1) == x * x + 2 * x + 1;
    assert (x + 2) * (x + 2) == x * x + 4 * x + 4;
    assert y * (y - 1) == y * y - y;
    assert (y - 1) * (y - 2) == y * y - 3 * y + 2;
    assert (y - 1) * (y - 1) == y * y - 2 * y + 1;
  }

  /** Plots a pixel after the conversion of its coordinates. */
  method PlotAt(dev: Display, ghost image: set<Point>, ghost points: set<Point>, x: int, y: int, invert: bool)
    requires dev.Valid() && dev.Pixels() == Painted(image, Shown(dev, points), invert)
    modifies dev.page
    ensures dev.Pixels() == Painted(image, Shown(dev, points + {Point(x, y)}), invert)
  {
    var _ := dev.SetPixel(U8(x), U8(y), invert);
    WrappedMore(points, Point(x, y));
  }

  function Quad(x0: int, y0: int, a: int, b: int): set<Point> {
    {Point(x0 + a, y0 + b), Point(x0 - a, y0 + b), Point(x0 + a, y0 - b), Point(x0 - a, y0 - b)}
  }

  /** Two calls in a row; `after` is what they leave plotted. */
  method PlotPair(dev: Display, ghost image: set<Point>, ghost points: set<Point>, ghost after: set<Point>,
                  xa: int, ya: int, xb: int, yb: int, invert: bool)
    requires dev.Valid() && dev.Pixels() == Painted(image, Shown(dev, points), invert)
    requires after == points + {Point(xa, ya)} + {Point(xb, yb)}
    modifies dev.page
    ensures dev.Pixels() == Painted(image, Shown(dev, after), invert)
  {
    PlotAt(dev, image, points, xa, ya, invert);
    PlotAt(dev, image, points + {Point(xa, ya)}, xb, yb, invert);
  }

  /** Four pixels, mirrored at both axes. */
  method PlotQuad(dev: Display, ghost image: set<Point>, ghost points: set<Point>, x0: int, y0: int, a: int, b: int, invert: bool)
    requires dev.Valid() && dev.Pixels() == Painted(image, Shown(dev, points), invert)
    modifies dev.page
    ensures dev.Pixels() == Painted(image, Shown(dev, points + Quad(x0, y0, a, b)), invert)
  {
    ghost var half := points + {Point(x0 + a, y0 + b)} + {Point(x0 - a, y0 + b)};
    ghost var whole := points + Quad(x0, y0, a, b);
    PlotPair(dev, image, points, half, x0 + a, y0 + b, x0 - a, y0 + b, invert);
    PlotPair(dev, image, half, whole, x0 + a, y0 - b, x0 - a, y0 - b, invert);
  }

  /** The eight calls in the loop. */
  method PlotLayer(dev: Display, ghost image: set<Point>, ghost points: set<Point>, x0: int, y0: int, x: int, y: int, invert: bool)
    requires dev.Valid() && dev.Pixels() == Painted(image, Shown(dev, points), invert)
    modifies dev.page
    ensures dev.Pixels() == Painted(image, Shown(dev, points + Layer(x0, y0, x, y)), invert)
  {
    PlotQuad(dev, image, points, x0, y0, x, y, invert);
    PlotQuad(dev, image, points + Quad(x0, y0, x, y), x0, y0, y, x, invert);
    LayerOfQuads(x0, y0, x, y);
    assert points + Quad(x0, y0, x, y) + Quad(x0, y0, y, x) == points + Layer(x0, y0, x, y);
  }

  lemma LayerOfQuads(x0: int, y0: int, s: int, t: int)
    ensures Quad(x0, y0, s, t) + Quad(x0, y0, t, s) == Layer(x0, y0, s, t)
  {
  }

  /** The four pixels on the axes. */
  method PlotAxes(dev: Display, ghost image: set<Point>, x0: int, y0: int, r: nat, invert: bool)
    requires dev.Valid() && dev.Pixels() == image
    modifies dev.page
    ensures dev.Pixels() == Painted(image, Shown(dev, Layer(x0, y0, 0, r)), invert)
  {
    ghost var none: set<Point> := {};
    ghost var half := none + {Point(x0, y0 + r)} + {Point(x0, y0 - r)};
    ghost var whole := Layer(x0, y0, 0, r);
    assert Painted(image, Shown(dev, none), invert) == image;
    AxesSum(x0, y0, r, half);
    PlotPair(dev, image, none, half, x0, y0 + r, x0, y0 - r, invert);
    PlotPair(dev, image, half, whole, x0 + r, y0, x0 - r, y0, invert);
  }

  lemma AxesSum(x0: int, y0: int, r: nat, half: set<Point>)
    requires half == {Point(x0, y0 + r)} + {Point(x0, y0 - r)}
    ensures Layer(x0, y0, 0, r) == half + {Point(x0 + r, y0)} + {Point(x0 - r, y0)}
  {
  }

  lemma AxesCovered(x0: int, y0: int, r: nat)
    ensures Layer(x0, y0, 0, r) == Covered(x0, y0, r, 0)
  {
    if r > 0 {
      LayerAdds(x0, y0, r, 0, r);
      assert Covered(x0, y0, r, -1) == {};
    } else {
      forall p
        ensures p in Layer(x0, y0, 0, 0) <==> p in Covered(x0, y0, 0, 0)
      {
        CircleMembership(x0, y0, 0, p);
        LayerMembership(x0, y0, 0, 0, p);
      }
    }
  }

  /** What a layer adds, whether it lies in the octant or is the mirror image of the one before. */
  lemma LayerCovers(x0: int, y0: int, r: nat, x: int, y: int, f: int, ddFx: int, ddFy: int)
    requires OnTrack(r, x, y, f, ddFx, ddFy) && x > 0 && r > 0
    ensures Covered(x0, y0, r, x - 1) + Layer(x0, y0, x, y) == Covered(x0, y0, r, x)
  {
    if x <= y {
      LayerAdds(x0, y0, r, x, y);
    } else {
      MirrorCovers(x0, y0, r, y, x);
    }
  }

  lemma MirrorCovers(x0: int, y0: int, r: nat, s: nat, t: nat)
    requires r > 0 && t == s + 1 && InOctant(r, s, t) && r * r - t * t <= s * s + s
    ensures Covered(x0, y0, r, s) + Layer(x0, y0, t, s) == Covered(x0, y0, r, t)
  {
    LayerAdds(x0, y0, r, s, t);
    assert Layer(x0, y0, t, s) == Layer(x0, y0, s, t);
    forall p | p in CirclePoints(x0, y0, r)
      ensures Min(Abs(p.x - x0), Abs(p.y - y0)) <= s
    {
      CircleMembership(x0, y0, r, p);
      var a, b := Min(Abs(p.x - x0), Abs(p.y - y0)), Max(Abs(p.x - x0), Abs(p.y - y0));
      OctantDecides(r, p.x - x0, p.y - y0);
      if a > s {
        NearestFalls(r, t, s, a, b);
      }
    }
  }

  /** The arithmetic of the loop body. */
  method Advance(r: nat, xa: int, ya: int, fa: int, ddA: int, ddB: int) returns (x: int, y: int, f: int, ddFx: int, ddFy: int)
    requires OnTrack(r, xa, ya, fa, ddA, ddB) && xa < ya
    ensures OnTrack(r, x, y, f, ddFx, ddFy) && x == xa + 1 && y <= ya
  {
    x, y, f, ddFx, ddFy := xa, ya, fa, ddA, ddB;
    TrackGoesOn(r, x, y, f, ddFx, ddFy);
    if f >= 0 {
      y := y - 1;
      ddFy := ddFy + 2;
      f := f + ddFy;
    }
    x := x + 1;
    ddFx := ddFx + 2;
    f := f + ddFx;
  }

  /** ssd1306_set_circle: exactly the pixels of the circle are painted, after the conversion of their coordinates. */
  method SetCircle(dev: Display, x0: nat, y0: nat, r: nat, invert: bool)
    requires dev.Valid() && x0 < 256 && y0 < 256 && r < 256
    modifies dev.page
    ensures dev.Pixels() == Painted(old(dev.Pixels()), Shown(dev, CirclePoints(x0, y0, r)), invert)
  {
    var f, ddFx, ddFy, x, y := 1 - r, 1, -2 * r, 0, r;
    ghost var image := dev.Pixels();
    PlotAxes(dev, image, x0, y0, r, invert);
    AxesCovered(x0, y0, r);
    TrackStarts(r);
    while x < y
      invariant OnTrack(r, x, y, f, ddFx, ddFy)
      invariant dev.Pixels() == Painted(image, Shown(dev, Covered(x0, y0, r, x)), invert)
      decreases y - x
    {
      x, y, f, ddFx, ddFy := Advance(r, x, y, f, ddFx, ddFy);
      PlotLayer(dev, image, Covered(x0, y0, r, x - 1), x0, y0, x, y, invert);
      LayerCovers(x0, y0, r, x, y, f, ddFx, ddFy);
    }
    EndOfTrack(x0, y0, r, x, y, f, ddFx, ddFy);
  }

  lemma EndOfTrack(x0: int, y0: int, r: nat, x: int, y: int, f: int, ddFx: int, ddFy: int)
    requires OnTrack(r, x, y, f, ddFx, ddFy) && y <= x
    ensures Covered(x0, y0, r, x) == CirclePoints(x0, y0, r)
  {
    if r > 0 {
      DiagonalEnds(x0, y0, r, x, y, x);
    } else {
      assert x >= 0;
      forall p | p in CirclePoints(x0, y0, 0)
        ensures Min(Abs(p.x - x0), Abs(p.y - y0)) <= x
      {
        CircleMembership(x0, y0, 0, p);
      }
    }
  }
}
