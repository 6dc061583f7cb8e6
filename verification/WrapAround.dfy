/** Wrap-around scrolling: ssd1306_display_wrap_around against rotations of the image. */
module WrapAround {
  import opened Arithmetic
  import opened Bits
  import opened Display

  datatype Scroll = Right | Left | Down | Up

  // ---------- rotations of the image ----------

  /** LEFT and RIGHT move whole pages, UP and DOWN single columns. */
  predicate Selected(dir: Scroll, lo: nat, hi: int, x: int, y: int) {
    if dir.Left? || dir.Right? then lo <= y / 8 <= hi else lo <= x <= hi
  }

  function Next(v: int, n: int): int { if v == n - 1 then 0 else v + 1 }

  function Previous(v: int, n: int): int { if v == 0 then n - 1 else v - 1 }

  /** Where the pixel that comes to (x, y) was before. */
  function Source(dir: Scroll, height: nat, lo: nat, hi: int, x: int, y: int): Point
    requires height > 0
  {
    if !Selected(dir, lo, hi, x, y) then Point(x, y)
    else
      match dir
      case Right => Point(Previous(x, PAGE_SEGMENTS), y)
      case Left => Point(Next(x, PAGE_SEGMENTS), y)
      case Down => Point(x, Previous(y, height))
      case Up => Point(x, Next(y, height))
  }

  function Scrolled(image: set<Point>, dir: Scroll, height: nat, lo: nat, hi: int): (s: set<Point>)
    requires height > 0
    ensures forall p :: p in s <==>
              0 <= p.x < PAGE_SEGMENTS && 0 <= p.y < height && Source(dir, height, lo, hi, p.x, p.y) in image
  {
    set x, y | 0 <= x < PAGE_SEGMENTS && 0 <= y < height && Source(dir, height, lo, hi, x, y) in image :: Point(x, y)
  }

  /** RIGHT and LEFT rotate the rows of the pages from `lo` to `hi` by one pixel; all others stay. */
  lemma SidewaysExactly(image: set<Point>, dir: Scroll, height: nat, lo: nat, hi: int, x: int, y: int)
    requires 0 <= x < 128 && 0 <= y < height && dir in {Right, Left}
    ensures var from := if !(lo <= y / 8 <= hi) then x else if dir.Right? then (if x == 0 then 127 else x - 1) else (if x == 127 then 0 else x + 1);
            Point(x, y) in Scrolled(image, dir, height, lo, hi) <==> Point(from, y) in image
  {
    var p := Point(x, y);
    assert p in Scrolled(image, dir, height, lo, hi) <==> Source(dir, height, lo, hi, p.x, p.y) in image;
  }

  /** DOWN and UP rotate the columns from `lo` to `hi`. */
  lemma UpwardsExactly(image: set<Point>, dir: Scroll, height: nat, lo: nat, hi: int, x: int, y: int)
    requires 0 <= x < 128 && 0 <= y < height && dir in {Down, Up}
    ensures var from := if !(lo <= x <= hi) then y else if dir.Down? then (if y == 0 then height - 1 else y - 1) else (if y == height - 1 then 0 else y + 1);
            Point(x, y) in Scrolled(image, dir, height, lo, hi) <==> Point(x, from) in image
  {
    var p := Point(x, y);
    assert p in Scrolled(image, dir, height, lo, hi) <==> Source(dir, height, lo, hi, p.x, p.y) in image;
  }

  function Opposite(dir: Scroll): Scroll {
    match dir
    case Right => Left
    case Left => Right
    case Down => Up
    case Up => Down
  }

  predicate OnPanel(image: set<Point>, height: nat) {
    forall p :: p in image ==> 0 <= p.x < PAGE_SEGMENTS && 0 <= p.y < height
  }

  lemma SourceBack(dir: Scroll, height: nat, lo: nat, hi: int, x: int, y: int)
    requires height > 0 && 0 <= x < PAGE_SEGMENTS && 0 <= y < height
    ensures var p := Source(dir, height, lo, hi, x, y);
            0 <= p.x < PAGE_SEGMENTS && 0 <= p.y < height && Source(Opposite(dir), height, lo, hi, p.x, p.y) == Point(x, y)
  {
  }

  /** Opposite directions undo each other. */
  lemma ScrollBack(image: set<Point>, dir: Scroll, height: nat, lo: nat, hi: int)
    requires height > 0 && OnPanel(image, height)
    ensures Scrolled(Scrolled(image, dir, height, lo, hi), Opposite(dir), height, lo, hi) == image
  {
    var there := Scrolled(image, dir, height, lo, hi);
    var back := Scrolled(there, Opposite(dir), height, lo, hi);
    assert Opposite(Opposite(dir)) == dir;
    forall p
      ensures p in back <==> p in image
    {
      if 0 <= p.x < PAGE_SEGMENTS && 0 <= p.y < height {
        SourceBack(Opposite(dir), height, lo, hi, p.x, p.y);
      }
    }
  }

  function Times(image: set<Point>, dir: Scroll, height: nat, lo: nat, hi: int, n: nat): set<Point>
    requires height > 0
  {
    if n == 0 then image else Scrolled(Times(image, dir, height, lo, hi, n - 1), dir, height, lo, hi)
  }

  /** Where a pixel was `n` scrolls before. */
  function SourceAfter(dir: Scroll, height: nat, lo: nat, hi: int, n: nat, x: int, y: int): Point
    requires height > 0
  {
    if !Selected(dir, lo, hi, x, y) then Point(x, y)
    else
      match dir
      case Right => Point((x - n) % PAGE_SEGMENTS, y)
      case Left => Point((x + n) % PAGE_SEGMENTS, y)
      case Down => Point(x, (y - n) % height)
      case Up => Point(x, (y + n) % height)
  }

  lemma NextAndMore(v: int, more: int, n: int)
    requires 0 <= v < n
    ensures (Next(v, n) + more) % n == (v + 1 + more) % n
  {
    ModPeriod(v + 1 + more, -1, n);
  }

  lemma PreviousAndMore(v: int, more: int, n: int)
    requires 0 <= v < n
    ensures (Previous(v, n) + more) % n == (v - 1 + more) % n
  {
    ModPeriod(v - 1 + more, 1, n);
  }

  lemma SourceComposes(dir: Scroll, height: nat, lo: nat, hi: int, n: nat, x: int, y: int)
    requires height > 0 && 0 <= x < PAGE_SEGMENTS && 0 <= y < height
    ensures var p := Source(dir, height, lo, hi, x, y);
            SourceAfter(dir, height, lo, hi, n, p.x, p.y) == SourceAfter(dir, height, lo, hi, n + 1, x, y)
  {
    match dir {
      case Right => PreviousAndMore(x, 0 - n, PAGE_SEGMENTS);
      case Left => NextAndMore(x, n, PAGE_SEGMENTS);
      case Down => PreviousAndMore(y, 0 - n, height);
      case Up => NextAndMore(y, n, height);
    }
  }

  lemma SourceAfterNone(dir: Scroll, height: nat, lo: nat, hi: int, x: int, y: int)
    requires height > 0 && 0 <= x < PAGE_SEGMENTS && 0 <= y < height
    ensures SourceAfter(dir, height, lo, hi, 0, x, y) == Point(x, y)
  {
  }

  lemma SourceStays(dir: Scroll, height: nat, lo: nat, hi: int, x: int, y: int)
    requires height > 0 && 0 <= x < PAGE_SEGMENTS && 0 <= y < height
    ensures var p := Source(dir, height, lo, hi, x, y); 0 <= p.x < PAGE_SEGMENTS && 0 <= p.y < height
  {
  }

  lemma InScrolled(image: set<Point>, dir: Scroll, height: nat, lo: nat, hi: int, x: int, y: int)
    requires height > 0 && 0 <= x < PAGE_SEGMENTS && 0 <= y < height
    ensures Point(x, y) in Scrolled(image, dir, height, lo, hi) <==>
            var p := Source(dir, height, lo, hi, x, y); Point(p.x, p.y) in image
  {
  }

  lemma Chain(image: set<Point>, dir: Scroll, height: nat, lo: nat, hi: int, n: nat, x: int, y: int)
    requires height > 0 && 0 <= x < PAGE_SEGMENTS && 0 <= y < height
    requires var p := Source(dir, height, lo, hi, x, y);
             Point(p.x, p.y) in Times(image, dir, height, lo, hi, n) <==> SourceAfter(dir, height, lo, hi, n, p.x, p.y) in image
    ensures Point(x, y) in Times(image, dir, height, lo, hi, n + 1) <==> SourceAfter(dir, height, lo, hi, n + 1, x, y) in image
  {
    var before := Times(image, dir, height, lo, hi, n);
    var after := Times(image, dir, height, lo, hi, n + 1);
    var p := Source(dir, height, lo, hi, x, y);
    var q := SourceAfter(dir, height, lo, hi, n + 1, x, y);
    assert Point(x, y) in after <==> Point(p.x, p.y) in before by {
      assert after == Scrolled(before, dir, height, lo, hi);
      InScrolled(before, dir, height, lo, hi, x, y);
    }
    assert q == SourceAfter(dir, height, lo, hi, n, p.x, p.y) by {
      SourceComposes(dir, height, lo, hi, n, x, y);
    }
  }

  lemma {:induction false} TimesMeans(image: set<Point>, dir: Scroll, height: nat, lo: nat, hi: int, n: nat, x: int, y: int)
    requires height > 0 && 0 <= x < PAGE_SEGMENTS && 0 <= y < height
    ensures Point(x, y) in Times(image, dir, height, lo, hi, n) <==> SourceAfter(dir, height, lo, hi, n, x, y) in image
  {
    if n == 0 {
      SourceAfterNone(dir, height, lo, hi, x, y);
    } else {
      var p := Source(dir, height, lo, hi, x, y);
      SourceStays(dir, height, lo, hi, x, y);
      TimesMeans(image, dir, height, lo, hi, n - 1, p.x, p.y);
      Chain(image, dir, height, lo, hi, n - 1, x, y);
    }
  }

  /** How many scrolls bring every pixel home: the width of the panel, or its height. */
  function Turn(dir: Scroll, height: nat): nat {
    if dir.Left? || dir.Right? then PAGE_SEGMENTS else height
  }

  lemma TurnBringsHome(dir: Scroll, height: nat, lo: nat, hi: int, x: int, y: int)
    requires height > 0 && 0 <= x < PAGE_SEGMENTS && 0 <= y < height
    ensures SourceAfter(dir, height, lo, hi, Turn(dir, height), x, y) == Point(x, y)
  {
    match dir {
      case Right => DivModUnique(x - PAGE_SEGMENTS, PAGE_SEGMENTS, -1, x);
      case Left => DivModUnique(x + PAGE_SEGMENTS, PAGE_SEGMENTS, 1, x);
      case Down => DivModUnique(y - height, height, -1, y);
      case Up => DivModUnique(y + height, height, 1, y);
    }
  }

  /** After as many scrolls as the panel is high (UP, DOWN) or wide (LEFT, RIGHT) the image is back. */
  lemma FullTurn(image: set<Point>, dir: Scroll, height: nat, lo: nat, hi: int)
    requires height > 0 && OnPanel(image, height)
    ensures Times(image, dir, height, lo, hi, Turn(dir, height)) == image
  {
    var turned := Times(image, dir, height, lo, hi, Turn(dir, height));
    forall p
      ensures p in turned <==> p in image
    {
      if 0 <= p.x < PAGE_SEGMENTS && 0 <= p.y < height {
        TimesMeans(image, dir, height, lo, hi, Turn(dir, height), p.x, p.y);
        TurnBringsHome(dir, height, lo, hi, p.x, p.y);
      }
    }
  }

  // ---------- the algorithm ----------

  /** A byte of a column that moves up: its rows shift by one, the last one comes from the byte below. */
  predicate MovedUp(dev: Display, after: bv8, own: bv8, below: bv8) {
    forall y :: 0 <= y < 8 ==> (Bit(after, dev.Row(y)) <==> if y < 7 then Bit(own, dev.Row(y + 1)) else Bit(below, dev.Row(0)))
  }

  predicate MovedDown(dev: Display, after: bv8, own: bv8, above: bv8) {
    forall y :: 0 <= y < 8 ==> (Bit(after, dev.Row(y)) <==> if y > 0 then Bit(own, dev.Row(y - 1)) else Bit(above, dev.Row(7)))
  }

  /** Turns a byte the right way round if the panel is flipped. */
  method Upright(dev: Display, b: bv8) returns (r: bv8)
    ensures forall k :: 0 <= k < 8 ==> (Bit(r, k) <==> Bit(b, dev.Row(k)))
  {
    r := b;
    if dev.flip {
      r := RotateByte(b);
    }
  }

  /** The byte work of SCROLL_UP. */
  method ShiftUp(dev: Display, own: bv8, below: bv8) returns (wk2: bv8)
    ensures MovedUp(dev, wk2, own, below)
  {
    var wk0 := Upright(dev, own);
    var wk1 := Upright(dev, below);
    var shifted := (wk0 >> 1) | ((wk1 & 1) << 7);
    wk2 := Upright(dev, shifted);
    forall y | 0 <= y < 8
      ensures Bit(wk2, dev.Row(y)) <==> if y < 7 then Bit(own, dev.Row(y + 1)) else Bit(below, dev.Row(0))
    {
      UpBit(wk0, wk1, y);
      assert dev.Row(dev.Row(y)) == y;
    }
  }

  method ShiftDown(dev: Display, own: bv8, above: bv8) returns (wk2: bv8)
    ensures MovedDown(dev, wk2, own, above)
  {
    var wk0 := Upright(dev, own);
    var wk1 := Upright(dev, above);
    var shifted := (wk0 << 1) | ((wk1 & 0x80) >> 7);
    wk2 := Upright(dev, shifted);
    forall y | 0 <= y < 8
      ensures Bit(wk2, dev.Row(y)) <==> if y > 0 then Bit(own, dev.Row(y - 1)) else Bit(above, dev.Row(7))
    {
      DownBit(wk0, wk1, y);
      assert dev.Row(dev.Row(y)) == y;
    }
  }

  /** One page of SCROLL_RIGHT. */
  method RotateRight(dev: Display, p: nat)
    requires dev.Valid() && p < dev.pages
    modifies dev.page
    ensures forall q, s :: 0 <= q < MAX_PAGES && 0 <= s < PAGE_SEGMENTS ==>
              dev.page[q, s] == if q == p then old(dev.page[p, if s == 0 then 127 else s - 1]) else old(dev.page[q, s])
  {
    var wk := dev.page[p, 127];
    for seg := 127 downto 0
      invariant forall q, s :: 0 <= q < MAX_PAGES && 0 <= s < PAGE_SEGMENTS ==>
                  dev.page[q, s] == if q == p && s > seg then old(dev.page[p, s - 1]) else old(dev.page[q, s])
    {
      dev.page[p, seg + 1] := dev.page[p, seg];
    }
    dev.page[p, 0] := wk;
  }

  /** One page of SCROLL_LEFT. */
  method RotateLeft(dev: Display, p: nat)
    requires dev.Valid() && p < dev.pages
    modifies dev.page
    ensures forall q, s :: 0 <= q < MAX_PAGES && 0 <= s < PAGE_SEGMENTS ==>
              dev.page[q, s] == if q == p then old(dev.page[p, if s == 127 then 0 else s + 1]) else old(dev.page[q, s])
  {
    var wk := dev.page[p, 0];
    for seg := 0 to 127
      invariant forall q, s :: 0 <= q < MAX_PAGES && 0 <= s < PAGE_SEGMENTS ==>
                  dev.page[q, s] == if q == p && s < seg then old(dev.page[p, s + 1]) else old(dev.page[q, s])
    {
      dev.page[p, seg] := dev.page[p, seg + 1];
    }
    dev.page[p, 127] := wk;
  }

  /** The inner loop of SCROLL_UP: the selected columns of page `p`, fed from `below`. */
  method ShiftPageUp(dev: Display, p: nat, lo: nat, hi: int, below: seq<bv8>)
    requires dev.Valid() && p < dev.pages && hi < PAGE_SEGMENTS && |below| == PAGE_SEGMENTS
    modifies dev.page
    ensures forall q, s :: 0 <= q < MAX_PAGES && 0 <= s < PAGE_SEGMENTS ==>
              if q == p && lo <= s <= hi then MovedUp(dev, dev.page[q, s], old(dev.page[q, s]), below[s])
              else dev.page[q, s] == old(dev.page[q, s])
  {
    var seg := lo;
    while seg <= hi
      invariant lo <= seg && (seg <= hi + 1 || seg == lo)
      invariant forall q, s :: 0 <= q < MAX_PAGES && 0 <= s < PAGE_SEGMENTS ==>
                  if q == p && lo <= s < seg && s <= hi then MovedUp(dev, dev.page[q, s], old(dev.page[q, s]), below[s])
                  else dev.page[q, s] == old(dev.page[q, s])
    {
      var wk2 := ShiftUp(dev, dev.page[p, seg], below[seg]);
      dev.page[p, seg] := wk2;
      seg := seg + 1;
    }
  }

  method ShiftPageDown(dev: Display, p: nat, lo: nat, hi: int, above: seq<bv8>)
    requires dev.Valid() && p < dev.pages && hi < PAGE_SEGMENTS && |above| == PAGE_SEGMENTS
    modifies dev.page
    ensures forall q, s :: 0 <= q < MAX_PAGES && 0 <= s < PAGE_SEGMENTS ==>
              if q == p && lo <= s <= hi then MovedDown(dev, dev.page[q, s], old(dev.page[q, s]), above[s])
              else dev.page[q, s] == old(dev.page[q, s])
  {
    var seg := lo;
    while seg <= hi
      invariant lo <= seg && (seg <= hi + 1 || seg == lo)
      invariant forall q, s :: 0 <= q < MAX_PAGES && 0 <= s < PAGE_SEGMENTS ==>
                  if q == p && lo <= s < seg && s <= hi then MovedDown(dev, dev.page[q, s], old(dev.page[q, s]), above[s])
                  else dev.page[q, s] == old(dev.page[q, s])
    {
      var wk2 := ShiftDown(dev, dev.page[p, seg], above[seg]);
      dev.page[p, seg] := wk2;
      seg := seg + 1;
    }
  }

  /** The segments of one page. */
  function PageOf(dev: Display, p: nat): (s: seq<bv8>)
    requires dev.Valid() && p < dev.pages
    reads dev.page
    ensures |s| == PAGE_SEGMENTS && forall k :: 0 <= k < PAGE_SEGMENTS ==> s[k] == dev.page[p, k]
  {
    seq(PAGE_SEGMENTS, k requires 0 <= k < PAGE_SEGMENTS reads dev.page => dev.page[p, k])
  }

  method BytesUp(dev: Display, lo: nat, hi: int)
    requires dev.Valid() && hi < PAGE_SEGMENTS
    modifies dev.page
    ensures forall q, s :: 0 <= q < dev.pages && 0 <= s < PAGE_SEGMENTS ==>
              if lo <= s <= hi then
                MovedUp(dev, dev.page[q, s], old(dev.page[q, s]), old(dev.page[if q == dev.pages - 1 then 0 else q + 1, s]))
              else dev.page[q, s] == old(dev.page[q, s])
  {
    var save := PageOf(dev, 0);
    for p := 0 to dev.pages - 1
      invariant forall q, s :: 0 <= q < p && 0 <= s < PAGE_SEGMENTS ==>
                  if lo <= s <= hi then MovedUp(dev, dev.page[q, s], old(dev.page[q, s]), old(dev.page[q + 1, s]))
                  else dev.page[q, s] == old(dev.page[q, s])
      invariant forall q, s :: p <= q < MAX_PAGES && 0 <= s < PAGE_SEGMENTS ==> dev.page[q, s] == old(dev.page[q, s])
    {
      ShiftPageUp(dev, p, lo, hi, PageOf(dev, p + 1));
    }
    ShiftPageUp(dev, dev.pages - 1, lo, hi, save);
  }

  method BytesDown(dev: Display, lo: nat, hi: int)
    requires dev.Valid() && hi < PAGE_SEGMENTS
    modifies dev.page
    ensures forall q, s :: 0 <= q < dev.pages && 0 <= s < PAGE_SEGMENTS ==>
              if lo <= s <= hi then
                MovedDown(dev, dev.page[q, s], old(dev.page[q, s]), old(dev.page[if q == 0 then dev.pages - 1 else q - 1, s]))
              else dev.page[q, s] == old(dev.page[q, s])
  {
    var save := PageOf(dev, dev.pages - 1);
    var p := dev.pages - 1;
    while p > 0
      invariant 0 <= p <= dev.pages - 1
      invariant forall q, s :: p < q < dev.pages && 0 <= s < PAGE_SEGMENTS ==>
                  if lo <= s <= hi then MovedDown(dev, dev.page[q, s], old(dev.page[q, s]), old(dev.page[q - 1, s]))
                  else dev.page[q, s] == old(dev.page[q, s])
      invariant forall q, s :: 0 <= q <= p && 0 <= s < PAGE_SEGMENTS ==> dev.page[q, s] == old(dev.page[q, s])
    {
      ShiftPageDown(dev, p, lo, hi, PageOf(dev, p - 1));
      p := p - 1;
    }
    ShiftPageDown(dev, 0, lo, hi, save);
  }

  method BytesRight(dev: Display, lo: nat, hi: int)
    requires dev.Valid() && hi < dev.pages
    modifies dev.page
    ensures forall q, s :: 0 <= q < MAX_PAGES && 0 <= s < PAGE_SEGMENTS ==>
              dev.page[q, s] == if lo <= q <= hi then old(dev.page[q, Previous(s, PAGE_SEGMENTS)]) else old(dev.page[q, s])
  {
    var p := lo;
    while p <= hi
      invariant lo <= p && (p <= hi + 1 || p == lo)
      invariant forall q, s :: 0 <= q < MAX_PAGES && 0 <= s < PAGE_SEGMENTS ==>
                  dev.page[q, s] == if lo <= q < p then old(dev.page[q, Previous(s, PAGE_SEGMENTS)]) else old(dev.page[q, s])
    {
      RotateRight(dev, p);
      p := p + 1;
    }
  }

  method BytesLeft(dev: Display, lo: nat, hi: int)
    requires dev.Valid() && hi < dev.pages
    modifies dev.page
    ensures forall q, s :: 0 <= q < MAX_PAGES && 0 <= s < PAGE_SEGMENTS ==>
              dev.page[q, s] == if lo <= q <= hi then old(dev.page[q, Next(s, PAGE_SEGMENTS)]) else old(dev.page[q, s])
  {
    var p := lo;
    while p <= hi
      invariant lo <= p && (p <= hi + 1 || p == lo)
      invariant forall q, s :: 0 <= q < MAX_PAGES && 0 <= s < PAGE_SEGMENTS ==>
                  dev.page[q, s] == if lo <= q < p then old(dev.page[q, Next(s, PAGE_SEGMENTS)]) else old(dev.page[q, s])
    {
      RotateLeft(dev, p);
      p := p + 1;
    }
  }

  /** The byte and the row of the pixel below, and of the one above. */
  lemma RowBelow(dev: Display, y: nat)
    requires dev.Valid() && y < dev.Height()
    ensures var n := Next(y, dev.Height());
            0 <= n < dev.Height() && dev.Row(y) == dev.Row(y % 8) &&
            if y % 8 < 7 then n / 8 == y / 8 && dev.Row(n) == dev.Row(y % 8 + 1)
            else n / 8 == (if y / 8 == dev.pages - 1 then 0 else y / 8 + 1) && dev.Row(n) == dev.Row(0)
  {
  }

  lemma RowAbove(dev: Display, y: nat)
    requires dev.Valid() && y < dev.Height()
    ensures var n := Previous(y, dev.Height());
            0 <= n < dev.Height() && dev.Row(y) == dev.Row(y % 8) &&
            if y % 8 > 0 then n / 8 == y / 8 && dev.Row(n) == dev.Row(y % 8 - 1)
            else n / 8 == (if y / 8 == 0 then dev.pages - 1 else y / 8 - 1) && dev.Row(n) == dev.Row(7)
  {
  }

  lemma ComesUp(dev: Display, after: bv8, own: bv8, below: bv8, y: nat)
    requires dev.Valid() && y < dev.Height() && MovedUp(dev, after, own, below)
    ensures Bit(after, dev.Row(y)) <==> Bit(if y % 8 < 7 then own else below, dev.Row(Next(y, dev.Height())))
  {
    RowBelow(dev, y);
    UpAt(dev, after, own, below, y % 8);
  }

  lemma UpAt(dev: Display, after: bv8, own: bv8, below: bv8, r: nat)
    requires r < 8 && MovedUp(dev, after, own, below)
    ensures Bit(after, dev.Row(r)) <==> if r < 7 then Bit(own, dev.Row(r + 1)) else Bit(below, dev.Row(0))
  {
    var lit := Bit(after, dev.Row(r));
  }

  lemma ComesDown(dev: Display, after: bv8, own: bv8, above: bv8, y: nat)
    requires dev.Valid() && y < dev.Height() && MovedDown(dev, after, own, above)
    ensures Bit(after, dev.Row(y)) <==> Bit(if y % 8 > 0 then own else above, dev.Row(Previous(y, dev.Height())))
  {
    RowAbove(dev, y);
    DownAt(dev, after, own, above, y % 8);
  }

  lemma DownAt(dev: Display, after: bv8, own: bv8, above: bv8, r: nat)
    requires r < 8 && MovedDown(dev, after, own, above)
    ensures Bit(after, dev.Row(r)) <==> if r > 0 then Bit(own, dev.Row(r - 1)) else Bit(above, dev.Row(7))
  {
    var lit := Bit(after, dev.Row(r));
  }

  method ScrollUp(dev: Display, lo: nat, hi: int)
    requires dev.Valid() && hi < PAGE_SEGMENTS
    modifies dev.page
    ensures dev.Pixels() == Scrolled(old(dev.Pixels()), Up, dev.Height(), lo, hi)
  {
    BytesUp(dev, lo, hi);
    forall x, y | 0 <= x < PAGE_SEGMENTS && 0 <= y < dev.Height()
      ensures dev.Lit(x, y) <==> Source(Up, dev.Height(), lo, hi, x, y) in old(dev.Pixels())
    {
      RowBelow(dev, y);
      var n := Next(y, dev.Height());
      assert Point(x, n) in old(dev.Pixels()) <==> old(dev.Lit(x, n));
      if lo <= x <= hi {
        ComesUp(dev, dev.page[y / 8, x], old(dev.page[y / 8, x]), old(dev.page[if y / 8 == dev.pages - 1 then 0 else y / 8 + 1, x]), y);
        assert dev.Lit(x, y) <==> old(dev.Lit(x, n));
      }
    }
  }

  method ScrollDown(dev: Display, lo: nat, hi: int)
    requires dev.Valid() && hi < PAGE_SEGMENTS
    modifies dev.page
    ensures dev.Pixels() == Scrolled(old(dev.Pixels()), Down, dev.Height(), lo, hi)
  {
    BytesDown(dev, lo, hi);
    forall x, y | 0 <= x < PAGE_SEGMENTS && 0 <= y < dev.Height()
      ensures dev.Lit(x, y) <==> Source(Down, dev.Height(), lo, hi, x, y) in old(dev.Pixels())
    {
      RowAbove(dev, y);
      var n := Previous(y, dev.Height());
      assert Point(x, n) in old(dev.Pixels()) <==> old(dev.Lit(x, n));
      if lo <= x <= hi {
        ComesDown(dev, dev.page[y / 8, x], old(dev.page[y / 8, x]), old(dev.page[if y / 8 == 0 then dev.pages - 1 else y / 8 - 1, x]), y);
        assert dev.Lit(x, y) <==> old(dev.Lit(x, n));
      }
    }
  }

  method ScrollRight(dev: Display, lo: nat, hi: int)
    requires dev.Valid() && hi < dev.pages
    modifies dev.page
    ensures dev.Pixels() == Scrolled(old(dev.Pixels()), Right, dev.Height(), lo, hi)
  {
    BytesRight(dev, lo, hi);
    forall x, y | 0 <= x < PAGE_SEGMENTS && 0 <= y < dev.Height()
      ensures dev.Lit(x, y) <==> Source(Right, dev.Height(), lo, hi, x, y) in old(dev.Pixels())
    {
      assert 0 <= y / 8 < MAX_PAGES;
    }
  }

  method ScrollLeft(dev: Display, lo: nat, hi: int)
    requires dev.Valid() && hi < dev.pages
    modifies dev.page
    ensures dev.Pixels() == Scrolled(old(dev.Pixels()), Left, dev.Height(), lo, hi)
  {
    BytesLeft(dev, lo, hi);
    forall x, y | 0 <= x < PAGE_SEGMENTS && 0 <= y < dev.Height()
      ensures dev.Lit(x, y) <==> Source(Left, dev.Height(), lo, hi, x, y) in old(dev.Pixels())
    {
      assert 0 <= y / 8 < MAX_PAGES;
    }
  }

  /** The last page or column that the arguments select: an `_end` in range, or else the last there is. */
  function LastSelected(dev: Display, dir: Scroll, end: nat): (last: int)
    ensures dir in {Right, Left} ==> (if end < dev.pages then last == end else last + 1 == dev.pages)
    ensures dir in {Down, Up} ==> (if end < 128 then last == end else last == 127)
  {
    var limit := if dir.Left? || dir.Right? then dev.pages else dev.width;
    if end >= limit then limit - 1 else end
  }

  /** ssd1306_display_wrap_around: the selected pages or columns are rotated by one pixel, the rest stays. */
  method WrapAround(dev: Display, dir: Scroll, start: nat, end: nat)
    requires dev.Valid() && start < 256 && end < 256
    modifies dev.page
    ensures dev.Pixels() == Scrolled(old(dev.Pixels()), dir, dev.Height(), start, LastSelected(dev, dir, end))
  {
    var last := LastSelected(dev, dir, end);
    match dir {
      case Right => ScrollRight(dev, start, last);
      case Left => ScrollLeft(dev, start, last);
      case Down => ScrollDown(dev, start, last);
      case Up => ScrollUp(dev, start, last);
    }
  }
}
