/** The frame buffer of ssd1306.c: bit-packed pages behind a set of lit pixels. */
module Display {
  import opened Bits

  const PAGE_SEGMENTS := 128
  const MAX_PAGES := 16

  datatype Point = Point(x: int, y: int)

  /** Drawing sets the points, inverted drawing clears them. */
  function Painted(image: set<Point>, points: set<Point>, invert: bool): set<Point> {
    if invert then image - points else image + points
  }

  /** Each point is lit or dark as it was painted last. */
  lemma PaintedExactly(image: set<Point>, points: set<Point>, invert: bool, p: Point)
    ensures p in Painted(image, points, invert) <==> if p in points then !invert else p in image
  {
  }

  /** ssd1306_device_t, as far as drawing goes. `page[p, s]` is page[p].segment[s]. */
  class Display {
    const flip: bool
    const pages: nat
    const page: array2<bv8>

    constructor (pages: nat, flip: bool)
      requires pages in {4, 8, 16}
      ensures Valid() && fresh(page) && this.pages == pages && this.flip == flip
    {
      this.flip, this.pages := flip, pages;
      page := new bv8[MAX_PAGES, PAGE_SEGMENTS]((p, s) => 0);
    }

    /** One of the supported panels: 128 columns of 32, 64 or 128 pixels. */
    predicate Valid() {
      pages in {4, 8, 16} && page.Length0 == MAX_PAGES && page.Length1 == PAGE_SEGMENTS
    }

    const width := PAGE_SEGMENTS

    function Height(): nat { 8 * pages }

    function OnScreen(): (s: set<Point>)
      ensures forall p :: p in s <==> 0 <= p.x < width && 0 <= p.y < Height()
    {
      set x, y | 0 <= x < width && 0 <= y < Height() :: Point(x, y)
    }

    /** The bit of its byte that row `y` is kept in. */
    function Row(y: nat): (k: nat)
      ensures k < 8
    {
      if flip then 7 - y % 8 else y % 8
    }

    /** Pixel (x, y) is bit y % 8 of segment x of page y / 8, counted from the other end when flipped. */
    predicate Lit(x: nat, y: nat)
      requires Valid() && x < width && y < Height()
      reads page
    {
      Bit(page[y / 8, x], Row(y))
    }

    /** Row `y` of a column is bit y % 8 of its byte, or, on a flipped panel, the bit as far from the other end. */
    lemma LitExactly(x: nat, y: nat)
      requires Valid() && x < width && y < Height()
      ensures var k := if flip then 7 - y % 8 else y % 8;
              var value: bv8 := if k == 0 then 1 else if k == 1 then 2 else if k == 2 then 4 else if k == 3 then 8
                                else if k == 4 then 16 else if k == 5 then 32 else if k == 6 then 64 else 128;
              Lit(x, y) <==> page[y / 8, x] & value != 0
    {
      Masks();
    }

    function Pixels(): (s: set<Point>)
      requires Valid()
      reads page
      ensures forall p :: p in s <==> 0 <= p.x < width && 0 <= p.y < Height() && Lit(p.x, p.y)
    {
      set x, y | 0 <= x < width && 0 <= y < Height() && Lit(x, y) :: Point(x, y)
    }

    /** The bit work of ssd1306_set_pixel. */
    method PaintedByte(wk0: bv8, ypos: nat, invert: bool) returns (r: bv8)
      ensures forall k :: 0 <= k < 8 ==> (Bit(r, k) <==> if k == Row(ypos) then !invert else Bit(wk0, k))
    {
      var bits := ypos % 8;
      var wk1: bv8 := Mask(bits);
      forall k | 0 <= k < 8
        ensures Bit(wk1, k) <==> k == bits
      {
        MaskBit(bits, k);
      }
      if flip {
        wk1 := RotateByte(wk1);
      }
      if invert {
        r := wk0 & !wk1;
      } else {
        r := wk0 | wk1;
      }
      forall k | 0 <= k < 8
        ensures Bit(r, k) <==> if k == Row(ypos) then !invert else Bit(wk0, k)
      {
        OrBit(wk0, wk1, k);
        AndNotBit(wk0, wk1, k);
      }
    }

    lemma SameRow(y: nat, y': nat)
      ensures y / 8 == y' / 8 && Row(y) == Row(y') ==> y == y'
    {
    }

    /** ssd1306_set_pixel. */
    method SetPixel(xpos: nat, ypos: nat, invert: bool) returns (ok: bool)
      requires Valid() && xpos < 256 && ypos < 256
      modifies page
      ensures ok <==> xpos < width && ypos < Height()
      ensures Pixels() == Painted(old(Pixels()), {Point(xpos, ypos)} * OnScreen(), invert)
    {
      if xpos >= width || ypos >= Height() {
        return false;
      }
      var wk := PaintedByte(page[ypos / 8, xpos], ypos, invert);
      page[ypos / 8, xpos] := wk;
      forall x, y | 0 <= x < width && 0 <= y < Height()
        ensures Lit(x, y) <==> if x == xpos && y == ypos then !invert else old(Lit(x, y))
      {
        SameRow(y, ypos);
      }
      ok := true;
    }
  }
}
