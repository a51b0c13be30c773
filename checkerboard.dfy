/** The checkerboard that `TransparencyBackground` (gradia/overlay/transparency_overlay.py)
    paints behind the displayed image: 20-pixel squares from the truncated
    corner of the letterbox, alternating light and dark, cut short at the
    right and bottom edges. */
module Checkerboard {
  import opened Wrappers
  import opened Numbers
  import opened Letterbox

  /** `self.square_size`. */
  const SquareSize: int := 20

  /** One filled square: its corner, size and shade. */
  datatype Tile = Tile(x: int, y: int, w: int, h: int, light: bool)

  /** The integer rectangle the squares cover: `int()` of the frame's corners. */
  datatype Area = Area(sx: int, sy: int, ex: int, ey: int)

  function AreaOf(f: Frame): Area {
    Area(Trunc(f.ox), Trunc(f.oy), Trunc(f.ox + f.dw), Trunc(f.oy + f.dh))
  }

  /** The square painted at loop position `(x, y)`. */
  function TileOf(a: Area, x: int, y: int): Tile
    requires a.sx <= x && a.sy <= y
  {
    var col := (x - a.sx) / SquareSize;
    var row := (y - a.sy) / SquareSize;
    Tile(x, y, Min(SquareSize, a.ex - x), Min(SquareSize, a.ey - y), (col + row) % 2 == 0)
  }

  /** The squares of one row, from loop position `x` to the right edge. */
  function RowFrom(a: Area, x: int, y: int): seq<Tile>
    requires a.sx <= x && a.sy <= y
    decreases a.ex - x
  {
    if x >= a.ex then [] else [TileOf(a, x, y)] + RowFrom(a, x + SquareSize, y)
  }

  /** The squares of the rows from loop position `y` down to the bottom edge. */
  function GridFrom(a: Area, y: int): seq<Tile>
    requires a.sy <= y
    decreases a.ey - y
  {
    if y >= a.ey then [] else RowFrom(a, a.sx, y) + GridFrom(a, y + SquareSize)
  }

  /** Everything `_on_draw` paints, in painting order. */
  function Grid(a: Area): seq<Tile> {
    GridFrom(a, a.sy)
  }

  /** The square in column `c` and row `r`. */
  function TileAt(a: Area, c: nat, r: nat): Tile {
    TileOf(a, a.sx + c * SquareSize, a.sy + r * SquareSize)
  }

  predicate ValidCell(a: Area, c: nat, r: nat) {
    a.sx + c * SquareSize < a.ex && a.sy + r * SquareSize < a.ey
  }

  // ---------------------------------------------------------------------
  // The painting loops

  /** `TransparencyBackground`: the picture it follows and its own size. */
  class TransparencyBackground {
    var picture: Option<Picture>

    constructor ()
      ensures picture == None
    {
      picture := None;
    }

    /** `set_picture_reference`. */
    method SetPictureReference(p: Option<Picture>)
      modifies this
      ensures picture == p
    {
      picture := p;
    }

    /** `_on_draw` of a widget of the given size: the squares it fills. */
    method OnDraw(width: int, height: int) returns (tiles: seq<Tile>)
      ensures tiles == Grid(AreaOf(ImageBounds(View(picture, width, height))))
    {
      var f := ImageBounds(View(picture, width, height));
      tiles := PaintArea(AreaOf(f));
    }
  }

  /** The outer `for y in range(start_y, end_y, 20)` loop. */
  method PaintArea(a: Area) returns (tiles: seq<Tile>)
    ensures tiles == Grid(a)
  {
    tiles := [];
    var y := a.sy;
    while y < a.ey
      invariant a.sy <= y
      invariant tiles + GridFrom(a, y) == Grid(a)
      decreases a.ey - y
    {
      var row := PaintRow(a, y);
      assert GridFrom(a, y) == row + GridFrom(a, y + SquareSize);
      tiles := tiles + row;
      y := y + SquareSize;
    }
  }

  /** The inner `for x in range(start_x, end_x, 20)` loop. */
  method PaintRow(a: Area, y: int) returns (tiles: seq<Tile>)
    requires a.sy <= y
    ensures tiles == RowFrom(a, a.sx, y)
  {
    tiles := [];
    var x := a.sx;
    while x < a.ex
      invariant a.sx <= x
      invariant tiles + RowFrom(a, x, y) == RowFrom(a, a.sx, y)
      decreases a.ex - x
    {
      var col := (x - a.sx) / SquareSize;
      var row := (y - a.sy) / SquareSize;
      var t := Tile(x, y, Min(SquareSize, a.ex - x), Min(SquareSize, a.ey - y), (col + row) % 2 == 0);
      assert RowFrom(a, x, y) == [t] + RowFrom(a, x + SquareSize, y);
      tiles := tiles + [t];
      x := x + SquareSize;
    }
  }

  // ---------------------------------------------------------------------
  // What is painted

  /** Every square of row `r` from column `k` on is the square of a later column. */
  lemma {:induction false} RowFromSound(a: Area, k: nat, r: nat, t: Tile)
    requires t in RowFrom(a, a.sx + k * SquareSize, a.sy + r * SquareSize)
    ensures exists c: nat :: k <= c && a.sx + c * SquareSize < a.ex && t == TileAt(a, c, r)
    decreases a.ex - (a.sx + k * SquareSize)
  {
    var x := a.sx + k * SquareSize;
    assert x + SquareSize == a.sx + (k + 1) * SquareSize;
    if t != TileAt(a, k, r) {
      RowFromSound(a, k + 1, r, t);
      var c: nat :| k + 1 <= c && a.sx + c * SquareSize < a.ex && t == TileAt(a, c, r);
      assert k <= c;
    }
  }

  /** Row `r` from column `k` holds the square of every later column inside the area. */
  lemma {:induction false} RowFromComplete(a: Area, k: nat, c: nat, r: nat)
    requires k <= c && a.sx + c * SquareSize < a.ex
    ensures TileAt(a, c, r) in RowFrom(a, a.sx + k * SquareSize, a.sy + r * SquareSize)
    decreases c - k
  {
    var x := a.sx + k * SquareSize;
    assert x <= a.sx + c * SquareSize;
    if k < c {
      assert x + SquareSize == a.sx + (k + 1) * SquareSize;
      RowFromComplete(a, k + 1, c, r);
    }
  }

  lemma {:induction false} GridFromSound(a: Area, k: nat, t: Tile)
    requires t in GridFrom(a, a.sy + k * SquareSize)
    ensures exists c: nat, r: nat :: k <= r && ValidCell(a, c, r) && t == TileAt(a, c, r)
    decreases a.ey - (a.sy + k * SquareSize)
  {
    var y := a.sy + k * SquareSize;
    assert y + SquareSize == a.sy + (k + 1) * SquareSize;
    assert a.sx + 0 * SquareSize == a.sx;
    if t in RowFrom(a, a.sx, y) {
      RowFromSound(a, 0, k, t);
      var c: nat :| a.sx + c * SquareSize < a.ex && t == TileAt(a, c, k);
      assert ValidCell(a, c, k);
    } else {
      GridFromSound(a, k + 1, t);
      var c: nat, r: nat :| k + 1 <= r && ValidCell(a, c, r) && t == TileAt(a, c, r);
      assert k <= r;
    }
  }

  lemma {:induction false} GridFromComplete(a: Area, k: nat, c: nat, r: nat)
    requires k <= r && ValidCell(a, c, r)
    ensures TileAt(a, c, r) in GridFrom(a, a.sy + k * SquareSize)
    decreases r - k
  {
    var y := a.sy + k * SquareSize;
    assert y <= a.sy + r * SquareSize;
    var row, rest := RowFrom(a, a.sx, y), GridFrom(a, y + SquareSize);
    assert GridFrom(a, y) == row + rest;
    if k < r {
      assert y + SquareSize == a.sy + (k + 1) * SquareSize;
      GridFromComplete(a, k + 1, c, r);
      assert TileAt(a, c, r) in rest;
    } else {
      assert a.sx + 0 * SquareSize == a.sx;
      RowFromComplete(a, 0, c, r);
      assert TileAt(a, c, r) in row;
    }
  }

  /** The painted squares are exactly the squares of the valid cells. */
  lemma GridIff(a: Area, t: Tile)
    ensures t in Grid(a) <==> exists c: nat, r: nat :: ValidCell(a, c, r) && t == TileAt(a, c, r)
  {
    assert a.sy + 0 * SquareSize == a.sy;
    if t in Grid(a) {
      GridFromSound(a, 0, t);
    }
    if exists c: nat, r: nat :: ValidCell(a, c, r) && t == TileAt(a, c, r) {
      var c: nat, r: nat :| ValidCell(a, c, r) && t == TileAt(a, c, r);
      GridFromComplete(a, 0, c, r);
    }
  }

  /** The square of a valid cell has its corner on the 20-pixel lattice,
      is at least one pixel and at most 20 pixels on each side, and lies
      inside the area. */
  lemma CellInside(a: Area, c: nat, r: nat)
    requires ValidCell(a, c, r)
    ensures var t := TileAt(a, c, r);
      && t.x == a.sx + c * SquareSize && t.y == a.sy + r * SquareSize
      && 1 <= t.w <= SquareSize && 1 <= t.h <= SquareSize
      && a.sx <= t.x && t.x + t.w <= a.ex && a.sy <= t.y && t.y + t.h <= a.ey
  {
  }

  /** Every painted square lies inside the area. */
  lemma TilesInside(a: Area, t: Tile)
    requires t in Grid(a)
    ensures a.sx <= t.x && t.x + t.w <= a.ex && a.sy <= t.y && t.y + t.h <= a.ey
    ensures 1 <= t.w <= SquareSize && 1 <= t.h <= SquareSize
  {
    GridIff(a, t);
    var c: nat, r: nat :| ValidCell(a, c, r) && t == TileAt(a, c, r);
    CellInside(a, c, r);
  }

  predicate Covers(t: Tile, px: int, py: int) {
    t.x <= px < t.x + t.w && t.y <= py < t.y + t.h
  }

  lemma LatticeIndex(s: int, k: nat, p: int)
    requires s + k * SquareSize <= p < s + k * SquareSize + SquareSize
    ensures (p - s) / SquareSize == k
  {
  }

  /** A square covers a pixel only if its cell is the pixel's cell, so no
      two squares overlap. */
  lemma CoverUnique(a: Area, c: nat, r: nat, px: int, py: int)
    requires ValidCell(a, c, r) && Covers(TileAt(a, c, r), px, py)
    ensures c == (px - a.sx) / SquareSize && r == (py - a.sy) / SquareSize
  {
    LatticeIndex(a.sx, c, px);
    LatticeIndex(a.sy, r, py);
  }

  /** Every pixel of the area is covered by the square of its cell. */
  lemma CoverExists(a: Area, px: int, py: int)
    requires a.sx <= px < a.ex && a.sy <= py < a.ey
    ensures var c := (px - a.sx) / SquareSize; var r := (py - a.sy) / SquareSize;
      c >= 0 && r >= 0 && ValidCell(a, c, r) && Covers(TileAt(a, c, r), px, py)
  {
    var c := (px - a.sx) / SquareSize;
    var r := (py - a.sy) / SquareSize;
    assert c * SquareSize <= px - a.sx < c * SquareSize + SquareSize;
    assert r * SquareSize <= py - a.sy < r * SquareSize + SquareSize;
  }

  /** The painted squares cover every pixel of the area exactly once; no
      square covers a pixel outside it. */
  lemma ExactCover(a: Area, px: int, py: int)
    ensures (a.sx <= px < a.ex && a.sy <= py < a.ey)
        <==> exists t :: t in Grid(a) && Covers(t, px, py)
    ensures forall c1: nat, r1: nat, c2: nat, r2: nat ::
      ValidCell(a, c1, r1) && ValidCell(a, c2, r2)
      && Covers(TileAt(a, c1, r1), px, py) && Covers(TileAt(a, c2, r2), px, py)
      ==> c1 == c2 && r1 == r2
  {
    if a.sx <= px < a.ex && a.sy <= py < a.ey {
      CoverExists(a, px, py);
      var c := (px - a.sx) / SquareSize;
      var r := (py - a.sy) / SquareSize;
      GridIff(a, TileAt(a, c, r));
    }
    if exists t :: t in Grid(a) && Covers(t, px, py) {
      var t :| t in Grid(a) && Covers(t, px, py);
      TilesInside(a, t);
    }
    forall c1: nat, r1: nat, c2: nat, r2: nat |
      ValidCell(a, c1, r1) && ValidCell(a, c2, r2)
      && Covers(TileAt(a, c1, r1), px, py) && Covers(TileAt(a, c2, r2), px, py)
      ensures c1 == c2 && r1 == r2
    {
      CoverUnique(a, c1, r1, px, py);
      CoverUnique(a, c2, r2, px, py);
    }
  }

  /** The shade follows the parity of column plus row: the top-left square
      is light and squares that share an edge differ. */
  lemma Shades(a: Area, c: nat, r: nat)
    ensures TileAt(a, c, r).light <==> (c + r) % 2 == 0
    ensures TileAt(a, 0, 0).light
    ensures TileAt(a, c + 1, r).light != TileAt(a, c, r).light
    ensures TileAt(a, c, r + 1).light != TileAt(a, c, r).light
  {
    CellShade(a, c, r);
    CellShade(a, 0, 0);
    CellShade(a, c + 1, r);
    CellShade(a, c, r + 1);
  }

  lemma CellShade(a: Area, c: nat, r: nat)
    ensures TileAt(a, c, r).light <==> (c + r) % 2 == 0
  {
    LatticeIndex(a.sx, c, a.sx + c * SquareSize);
    LatticeIndex(a.sy, r, a.sy + r * SquareSize);
  }

  /** An empty letterbox (no width or no height) paints nothing. */
  lemma EmptyAreaPaintsNothing(a: Area)
    requires a.ex <= a.sx || a.ey <= a.sy
    ensures Grid(a) == []
  {
    if a.sy < a.ey {
      EmptyRows(a, a.sy);
    }
  }

  lemma {:induction false} EmptyRows(a: Area, y: int)
    requires a.ex <= a.sx && a.sy <= y
    ensures GridFrom(a, y) == []
    decreases a.ey - y
  {
    if y < a.ey {
      EmptyRows(a, y + SquareSize);
    }
  }
}
