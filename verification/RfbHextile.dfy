/** What a Hextile rectangle looks like, pixel by pixel: its tiles partition it, each pixel gets
    the colour of its own tile, and exactly where this client differs from a reader that carries
    the background over a raw tile. Also: when a Raw rectangle can be finished at all. */
module RfbHextile {
  import opened Numbers
  import opened Framebuffer
  import opened RfbFormat
  import opened RfbParser

  predicate Within(a: Area, px: int, py: int) {
    a.x <= px < a.x + a.w && a.y <= py < a.y + a.h
  }

  /* The partition */

  /** The tile that holds a pixel of a. */
  function TileOf(a: Area, px: int, py: int): int {
    (py - a.y) / 16 * TilesAcross(a.w) + (px - a.x) / 16
  }

  lemma OneSpan(w: nat, col: nat, dx: int)
    requires col * 16 < w
    ensures col * 16 <= dx < col * 16 + Min(16, w - col * 16) <==> 0 <= dx < w && dx / 16 == col
  {
  }

  /** A pixel lies in tile k exactly if k is its tile. */
  lemma TilesPartition(a: Area, px: int, py: int, k: nat)
    requires k < TileCount(a)
    ensures Within(TileArea(a, k), px, py) <==> Within(a, px, py) && k == TileOf(a, px, py)
  {
    var n, t := TilesAcross(a.w), TileArea(a, k);
    var col, row := k % n, k / n;
    TileInside(a, k);
    OneSpan(a.w, col, px - a.x);
    OneSpan(a.h, row, py - a.y);
    if Within(a, px, py) {
      OwnColumn(a.w, px - a.x);
      hide Min, TilesAcross, TileCount, TileArea;
      ByColumns(n, k, (py - a.y) / 16, (px - a.x) / 16);
    }
  }

  lemma ByColumns(n: nat, k: int, row: int, col: int)
    requires 0 <= col < n
    ensures k == row * n + col <==> k / n == row && k % n == col
  {
    assert k == n * (k / n) + k % n;
    assert row * n == n * row;
    if k == row * n + col { DivModUnique(k, n, row, col); }
  }

  lemma OwnColumn(w: nat, dx: int)
    requires 0 <= dx < w
    ensures 0 <= dx / 16 < TilesAcross(w)
  {
  }

  /** Every pixel has one. */
  lemma TileExists(a: Area, px: int, py: int)
    requires Within(a, px, py)
    ensures 0 <= TileOf(a, px, py) < TileCount(a)
  {
    OwnColumn(a.w, px - a.x);
    OwnColumn(a.h, py - a.y);
    var n, m := TilesAcross(a.w), TilesAcross(a.h);
    var row := (py - a.y) / 16;
    MoreTimes(n, row + 1, m);
    assert n * (row + 1) == row * n + n && n * m == m * n;
  }

  /* The colours of a tile's pixels */

  predicate Covers(r: TileRect, a: Area, px: int, py: int) {
    a.x + r.x <= px < a.x + r.x + r.w && a.y + r.y <= py < a.y + r.y + r.h
  }

  /** The colour of the last subrectangle over a pixel, or what was there before. */
  function RectsPixel(f: Format, under: Pixel, a: Area, coloured: bool,
          foreground: seq<byte>, rs: seq<TileRect>, px: int, py: int): Pixel
    requires forall i :: 0 <= i < |rs| ==> |rs[i].colour| == if coloured then Bpp(f) else 0
    requires rs != [] && !coloured ==> |foreground| == Bpp(f)
  {
    if rs == [] then under
    else
      var r := rs[|rs| - 1];
      if Covers(r, a, px, py) then PixelAt(f, if coloured then r.colour else foreground, 0)
      else RectsPixel(f, under, a, coloured, foreground, rs[..|rs| - 1], px, py)
  }

  /** A pixel of a tile: its own pixel value in a raw tile; otherwise the colour of the last
      subrectangle over it, or the background in force. */
  function TilePixel(f: Format, c: Colours, t: Tile, a: Area, px: int, py: int): Pixel
    requires ValidTile(f, c, t, a.w, a.h) && Within(a, px, py)
  {
    if IsRaw(t.mask) then
      InImage(Bpp(f), a.w, a.h, px - a.x, py - a.y);
      PixelAt(f, t.raw, ((py - a.y) * a.w + (px - a.x)) * Bpp(f))
    else
      var n := After(c, t);
      RectsPixel(f, PixelAt(f, n.background, 0), a, Coloured(t.mask), n.foreground, t.rects, px, py)
  }

  /** Blank tiles that follow a raw tile: this client does not draw them. */
  predicate Ignored(c: Colours, t: Tile) {
    t.mask == 0 && IsRaw(c.last)
  }

  /** Subrectangles of well-formed tiles stay in their tile. */
  predicate Inside(t: Tile, a: Area) {
    forall i :: 0 <= i < |t.rects| ==> t.rects[i].x + t.rects[i].w <= a.w && t.rects[i].y + t.rects[i].h <= a.h
  }

  lemma FillPixel(pic: Picture, x: int, y: int, w: int, h: int, p: Pixel, px: int, py: int)
    requires InPicture(pic, px, py)
    ensures InPicture(Fill(pic, x, y, w, h, p), px, py)
    ensures Fill(pic, x, y, w, h, p)[py][px] == if x <= px < x + w && y <= py < y + h then p else pic[py][px]
  {
  }

  /** The first subrectangle is drawn below the others. */
  lemma {:induction false} RectsPixelFirst(f: Format, under: Pixel, a: Area,
          coloured: bool, foreground: seq<byte>, rs: seq<TileRect>, px: int, py: int)
    requires rs != [] && forall i :: 0 <= i < |rs| ==> |rs[i].colour| == if coloured then Bpp(f) else 0
    requires !coloured ==> |foreground| == Bpp(f)
    ensures RectsPixel(f, under, a, coloured, foreground, rs, px, py)
         == RectsPixel(f,
              if Covers(rs[0], a, px, py) then PixelAt(f, if coloured then rs[0].colour else foreground, 0) else under,
              a, coloured, foreground, rs[1..], px, py)
    decreases |rs|
  {
    hide Covers, PixelAt, Bpp;
    if |rs| == 1 {
      assert rs[..0] == [] && rs[1..] == [];
    } else {
      var last := rs[|rs| - 1];
      assert rs[1..][|rs| - 2] == last;
      assert rs[..|rs| - 1][1..] == rs[1..][..|rs| - 2];
      RectsPixelFirst(f, under, a, coloured, foreground, rs[..|rs| - 1], px, py);
    }
  }

  lemma PaintRectPixel(f: Format, pic: Picture, a: Area,
          coloured: bool, foreground: seq<byte>, r: TileRect, px: int, py: int)
    requires InPicture(pic, px, py) && |r.colour| == (if coloured then Bpp(f) else 0)
        && (!coloured ==> |foreground| == Bpp(f))
    ensures var p := PaintTileRect(f, pic, a.x, a.y, coloured, foreground, r);
            && InPicture(p, px, py)
            && p[py][px] == if Covers(r, a, px, py)
                then PixelAt(f, if coloured then r.colour else foreground, 0) else pic[py][px]
  {
    FillPixel(pic, a.x + r.x, a.y + r.y, r.w, r.h, PixelAt(f, if coloured then r.colour else foreground, 0), px, py);
    hide Fill, PixelAt, Bpp;
  }

  lemma {:induction false} PaintRectsPixel(f: Format, pic: Picture, a: Area,
          coloured: bool, foreground: seq<byte>, rs: seq<TileRect>, px: int, py: int)
    requires InPicture(pic, px, py) && forall i :: 0 <= i < |rs| ==> |rs[i].colour| == if coloured then Bpp(f) else 0
    requires rs != [] && !coloured ==> |foreground| == Bpp(f)
    ensures var p := PaintTileRects(f, pic, a.x, a.y, coloured, foreground, rs);
            InPicture(p, px, py) && p[py][px] == RectsPixel(f, pic[py][px], a, coloured, foreground, rs, px, py)
    decreases |rs|
  {
    hide Covers, PixelAt, Bpp, PaintTileRect, InPicture;
    if rs != [] {
      var next := PaintTileRect(f, pic, a.x, a.y, coloured, foreground, rs[0]);
      PaintRectPixel(f, pic, a, coloured, foreground, rs[0], px, py);
      Indexes(pic, px, py);
      Indexes(next, px, py);
      hide RectsPixel;
      RectsPixelFirst(f, pic[py][px], a, coloured, foreground, rs, px, py);
      PaintRectsPixel(f, next, a, coloured, foreground, rs[1..], px, py);
    }
  }

  lemma Indexes(pic: Picture, px: int, py: int)
    requires InPicture(pic, px, py)
    ensures 0 <= py < |pic| && 0 <= px < |pic[py]|
  {
  }

  lemma {:induction false} NotCovered(f: Format, under: Pixel, a: Area,
          coloured: bool, foreground: seq<byte>, rs: seq<TileRect>, px: int, py: int)
    requires forall i ::
        0 <= i < |rs| ==> |rs[i].colour| == (if coloured then Bpp(f) else 0) && !Covers(rs[i], a, px, py)
    requires rs != [] && !coloured ==> |foreground| == Bpp(f)
    ensures RectsPixel(f, under, a, coloured, foreground, rs, px, py) == under
    decreases |rs|
  {
    hide Covers, PixelAt, Bpp;
    if rs != [] { NotCovered(f, under, a, coloured, foreground, rs[..|rs| - 1], px, py); }
  }

  /** A tile in colours changes the pixels of its own area and no others. */
  lemma ColouredTilePixel(f: Format, pic: Picture, c: Colours, t: Tile, a: Area, px: int, py: int)
    requires ValidTile(f, c, t, a.w, a.h) && !IsRaw(t.mask) && !Ignored(c, t) && Inside(t, a) && InPicture(pic, px, py)
    ensures var p := PaintTile(f, pic, c, t, a);
            InPicture(p, px, py) && p[py][px] == if Within(a, px, py)
                then TilePixel(f, c, t, a, px, py) else pic[py][px]
  {
    var n := After(c, t);
    var bg := PixelAt(f, n.background, 0);
    var filled := Fill(pic, a.x, a.y, a.w, a.h, bg);
    assert PaintTile(f, pic, c, t, a) == PaintTileRects(f, filled, a.x, a.y, Coloured(t.mask), n.foreground, t.rects);
    FillPixel(pic, a.x, a.y, a.w, a.h, bg, px, py);
    RectsOfTile(f, c, t, a);
    Indexes(pic, px, py);
    Indexes(filled, px, py);
    hide Fill, PixelAt, Bpp, PaintTile, PaintTileRects, RectsPixel,
        ValidTile, InPicture, After, Covers, Flag, Coloured, Inside;
    PaintRectsPixel(f, filled, a, Coloured(t.mask), n.foreground, t.rects, px, py);
    if !Within(a, px, py) {
      StaysInside(t, a, px, py);
      NotCovered(f, pic[py][px], a, Coloured(t.mask), n.foreground, t.rects, px, py);
    }
  }

  lemma RectsOfTile(f: Format, c: Colours, t: Tile, a: Area)
    requires ValidTile(f, c, t, a.w, a.h) && !IsRaw(t.mask)
    ensures forall i :: 0 <= i < |t.rects| ==> |t.rects[i].colour| == if Coloured(t.mask) then Bpp(f) else 0
    ensures t.rects != [] && !Coloured(t.mask) ==> |After(c, t).foreground| == Bpp(f)
    ensures |After(c, t).background| == Bpp(f)
  {
  }

  lemma StaysInside(t: Tile, a: Area, px: int, py: int)
    requires Inside(t, a) && !Within(a, px, py)
    ensures forall i :: 0 <= i < |t.rects| ==> !Covers(t.rects[i], a, px, py)
  {
  }

  lemma PaintTilePixel(f: Format, pic: Picture, c: Colours, t: Tile, a: Area, px: int, py: int)
    requires ValidTile(f, c, t, a.w, a.h) && Inside(t, a) && InPicture(pic, px, py)
    ensures var p := PaintTile(f, pic, c, t, a);
            && InPicture(p, px, py)
            && p[py][px] == if Within(a, px, py) && !Ignored(c, t) then TilePixel(f, c, t, a, px, py) else pic[py][px]
  {
    if Ignored(c, t) {
    } else if IsRaw(t.mask) {
      RawTilePixel(f, pic, c, t, a, px, py);
    } else {
      ColouredTilePixel(f, pic, c, t, a, px, py);
    }
  }

  lemma RawTilePixel(f: Format, pic: Picture, c: Colours, t: Tile, a: Area, px: int, py: int)
    requires ValidTile(f, c, t, a.w, a.h) && IsRaw(t.mask) && InPicture(pic, px, py)
    ensures var p := PaintTile(f, pic, c, t, a);
            InPicture(p, px, py) && p[py][px] == if Within(a, px, py)
                then TilePixel(f, c, t, a, px, py) else pic[py][px]
  {
    hide *;
    RawTileIs(f, pic, c, t, a, px, py);
    BlitPixels(f, pic, a.x, a.y, a.w, a.h, t.raw, px, py);
    Indexes(pic, px, py);
    Indexes(PaintTile(f, pic, c, t, a), px, py);
    if Within(a, px, py) {
      ColourIs(f, PaintTile(f, pic, c, t, a)[py][px], t.raw, ((py - a.y) * a.w + (px - a.x)) * Bpp(f));
    }
  }

  lemma RawTileIs(f: Format, pic: Picture, c: Colours, t: Tile, a: Area, px: int, py: int)
    requires ValidTile(f, c, t, a.w, a.h) && IsRaw(t.mask)
    ensures Within(a, px, py) <==> a.x <= px < a.x + a.w && a.y <= py < a.y + a.h
    ensures |t.raw| == a.h * (a.w * Bpp(f)) && PaintTile(f, pic, c, t, a) == Blit(f, pic, a.x, a.y, a.w, a.h, t.raw)
    ensures Within(a, px, py) ==>
      && 0 <= py - a.y < a.h && 0 <= px - a.x < a.w
      && 0 <= ((py - a.y) * a.w + (px - a.x)) * Bpp(f) <= |t.raw| - Bpp(f)
      && TilePixel(f, c, t, a, px, py) == PixelAt(f, t.raw, ((py - a.y) * a.w + (px - a.x)) * Bpp(f))
  {
    hide Blit, PixelAt, Bpp;
    if Within(a, px, py) { InImage(Bpp(f), a.w, a.h, px - a.x, py - a.y); }
  }

  /* Whole rectangles */

  /** The colours in force before tile k. */
  function Carried(c: Colours, tiles: seq<Tile>, k: nat): Colours
    requires k <= |tiles|
    decreases k
  {
    if k == 0 then c else Carried(After(c, tiles[0]), tiles[1..], k - 1)
  }

  /** Tile i of those from number k on is well formed, and its subrectangles stay in it. */
  lemma {:induction false} EachValid(f: Format, c: Colours, a: Area, k: nat, tiles: seq<Tile>, i: nat)
    requires ValidTiles(f, c, a, k, tiles) && i < |tiles|
    ensures k + i < TileCount(a)
    ensures ValidTile(f, Carried(c, tiles, i), tiles[i], TileArea(a, k + i).w, TileArea(a, k + i).h)
    decreases |tiles|
  {
    hide ValidTile, TileArea, TileCount, After;
    if i > 0 {
      EachValid(f, After(c, tiles[0]), a, k + 1, tiles[1..], i - 1);
      assert tiles[1..][i - 1] == tiles[i];
    }
  }

  predicate AllInside(a: Area, k: nat, tiles: seq<Tile>) {
    k + |tiles| <= TileCount(a) && forall i :: 0 <= i < |tiles| ==> Inside(tiles[i], TileArea(a, k + i))
  }

  lemma InsideStep(a: Area, k: nat, tiles: seq<Tile>)
    requires AllInside(a, k, tiles) && tiles != []
    ensures k < TileCount(a) && Inside(tiles[0], TileArea(a, k)) && AllInside(a, k + 1, tiles[1..])
  {
    hide TileArea, Inside, TileCount;
    assert Inside(tiles[0], TileArea(a, k + 0));
    forall i | 0 <= i < |tiles[1..]| ensures Inside(tiles[1..][i], TileArea(a, k + 1 + i)) {
      assert Inside(tiles[i + 1], TileArea(a, k + (i + 1)));
    }
  }

  lemma PaintTilesStep(f: Format, cv: Canvas, a: Area, k: nat, tiles: seq<Tile>) returns (next: Canvas)
    requires ValidTiles(f, cv.colours, a, k, tiles) && tiles != []
    ensures k < TileCount(a) && ValidTile(f, cv.colours, tiles[0], TileArea(a, k).w, TileArea(a, k).h)
    ensures next == Canvas(PaintTile(f, cv.pic, cv.colours, tiles[0], TileArea(a, k)), After(cv.colours, tiles[0]))
    ensures ValidTiles(f, next.colours, a, k + 1, tiles[1..])
    ensures PaintTiles(f, cv, a, k, tiles) == PaintTiles(f, next, a, k + 1, tiles[1..])
  {
    hide ValidTile, PaintTile, After, TileArea;
    next := Canvas(PaintTile(f, cv.pic, cv.colours, tiles[0], TileArea(a, k)), After(cv.colours, tiles[0]));
  }

  lemma NoTiles(f: Format, cv: Canvas, a: Area, k: nat)
    requires ValidTiles(f, cv.colours, a, k, [])
    ensures PaintTiles(f, cv, a, k, []) == cv && k == TileCount(a)
  {
  }

  lemma TileValid(f: Format, c: Colours, tiles: seq<Tile>, i: nat, a: Area, k: nat)
    requires ValidTiles(f, c, a, k, tiles) && i < |tiles|
    ensures Carried(c, tiles, i) == if i == 0 then c else Carried(After(c, tiles[0]), tiles[1..], i - 1)
    ensures tiles[i] == if i == 0 then tiles[0] else tiles[1..][i - 1]
  {
  }

  /** The tiles from number k on do not touch the pixels of earlier tiles. */
  lemma {:induction false} LaterTiles(f: Format, cv: Canvas, a: Area, k: nat, tiles: seq<Tile>, px: int, py: int)
    requires ValidTiles(f, cv.colours, a, k, tiles) && AllInside(a, k, tiles) && InPicture(cv.pic, px, py)
    requires !Within(a, px, py) || TileOf(a, px, py) < k
    ensures var p := PaintTiles(f, cv, a, k, tiles).pic; InPicture(p, px, py) && p[py][px] == cv.pic[py][px]
    decreases |tiles|
  {
    Indexes(cv.pic, px, py);
    hide *;
    if tiles == [] {
      NoTiles(f, cv, a, k);
    } else {
      var next := PaintTilesStep(f, cv, a, k, tiles);
      InsideStep(a, k, tiles);
      TilesPartition(a, px, py, k);
      PaintTilePixel(f, cv.pic, cv.colours, tiles[0], TileArea(a, k), px, py);
      LaterTiles(f, next, a, k + 1, tiles[1..], px, py);
      Indexes(next.pic, px, py);
      Indexes(PaintTiles(f, cv, a, k, tiles).pic, px, py);
    }
  }

  /** A pixel of tile t, in the colours c and at ta, after it was drawn over `before`. */
  ghost predicate Shows(f: Format, p: Picture, before: Picture, c: Colours, t: Tile, ta: Area, px: int, py: int)
    requires ValidTile(f, c, t, ta.w, ta.h) && Within(ta, px, py) && InPicture(before, px, py)
  {
    InPicture(p, px, py) && p[py][px] == if Ignored(c, t) then before[py][px] else TilePixel(f, c, t, ta, px, py)
  }

  lemma ShowsAgain(f: Format, p: Picture, before: Picture,
          next: Picture, c: Colours, t: Tile, ta: Area, px: int, py: int)
    requires ValidTile(f, c, t, ta.w, ta.h) && Within(ta, px, py)
        && InPicture(before, px, py) && InPicture(next, px, py)
    requires next[py][px] == before[py][px] && Shows(f, p, next, c, t, ta, px, py)
    ensures Shows(f, p, before, c, t, ta, px, py)
  {
    hide InPicture, Ignored, TilePixel, Within, ValidTile;
  }

  lemma ShowsAfter(f: Format, p: Picture, before: Picture,
          next: Picture, c: Colours, t: Tile, ta: Area, px: int, py: int)
    requires ValidTile(f, c, t, ta.w, ta.h) && Within(ta, px, py)
        && InPicture(before, px, py) && InPicture(next, px, py)
    requires InPicture(p, px, py) && p[py][px] == next[py][px]
    requires next[py][px] == if !Ignored(c, t) then TilePixel(f, c, t, ta, px, py) else before[py][px]
    ensures Shows(f, p, before, c, t, ta, px, py)
  {
    hide InPicture, Ignored, TilePixel, Within, ValidTile;
  }

  lemma OwnFirst(f: Format, cv: Canvas, a: Area, k: nat, tiles: seq<Tile>, px: int, py: int)
    requires ValidTiles(f, cv.colours, a, k, tiles) && AllInside(a, k, tiles) && InPicture(cv.pic, px, py)
    requires tiles != [] && Within(a, px, py) && TileOf(a, px, py) == k
    ensures k < TileCount(a) && Within(TileArea(a, k), px, py)
    ensures ValidTile(f, cv.colours, tiles[0], TileArea(a, k).w, TileArea(a, k).h)
    ensures Shows(f, PaintTiles(f, cv, a, k, tiles).pic, cv.pic, cv.colours, tiles[0], TileArea(a, k), px, py)
  {
    Indexes(cv.pic, px, py);
    hide *;
    var next := PaintTilesStep(f, cv, a, k, tiles);
    InsideStep(a, k, tiles);
    TilesPartition(a, px, py, k);
    PaintTilePixel(f, cv.pic, cv.colours, tiles[0], TileArea(a, k), px, py);
    Indexes(next.pic, px, py);
    LaterTiles(f, next, a, k + 1, tiles[1..], px, py);
    Indexes(PaintTiles(f, cv, a, k, tiles).pic, px, py);
    ShowsAfter(f, PaintTiles(f, cv, a, k, tiles).pic, cv.pic, next.pic, cv.colours, tiles[0], TileArea(a, k), px, py);
  }

  lemma {:induction false} OwnTile(f: Format, cv: Canvas, a: Area, k: nat,
          tiles: seq<Tile>, i: nat, c: Colours, ta: Area, px: int, py: int)
    requires ValidTiles(f, cv.colours, a, k, tiles) && AllInside(a, k, tiles) && InPicture(cv.pic, px, py)
    requires i < |tiles| && Within(a, px, py) && TileOf(a, px, py) == k + i
    requires k + i < TileCount(a) && ta == TileArea(a, k + i) && Within(ta, px, py)
    requires c == Carried(cv.colours, tiles, i) && ValidTile(f, c, tiles[i], ta.w, ta.h)
    ensures Shows(f, PaintTiles(f, cv, a, k, tiles).pic, cv.pic, c, tiles[i], ta, px, py)
    decreases |tiles|
  {
    hide *;
    TileValid(f, cv.colours, tiles, i, a, k);
    if i == 0 {
      OwnFirst(f, cv, a, k, tiles, px, py);
    } else {
      assert k + 1 + (i - 1) == k + i;
      var next := SkipTile(f, cv, a, k, tiles, px, py);
      OwnTile(f, next, a, k + 1, tiles[1..], i - 1, c, ta, px, py);
      ShowsAgain(f, PaintTiles(f, cv, a, k, tiles).pic, cv.pic, next.pic, c, tiles[i], ta, px, py);
    }
  }

  /** A tile that is not the pixel's. */
  lemma SkipTile(f: Format, cv: Canvas, a: Area, k: nat, tiles: seq<Tile>, px: int, py: int) returns (next: Canvas)
    requires ValidTiles(f, cv.colours, a, k, tiles) && AllInside(a, k, tiles) && InPicture(cv.pic, px, py)
    requires tiles != [] && TileOf(a, px, py) != k
    ensures next.colours == After(cv.colours, tiles[0]) && ValidTiles(f, next.colours, a, k + 1, tiles[1..])
    ensures AllInside(a, k + 1, tiles[1..])
    ensures PaintTiles(f, cv, a, k, tiles) == PaintTiles(f, next, a, k + 1, tiles[1..])
    ensures 0 <= py < |cv.pic| && 0 <= px < |cv.pic[py]| && 0 <= py < |next.pic| && 0 <= px < |next.pic[py]|
    ensures InPicture(next.pic, px, py) && next.pic[py][px] == cv.pic[py][px]
  {
    Indexes(cv.pic, px, py);
    hide *;
    next := PaintTilesStep(f, cv, a, k, tiles);
    InsideStep(a, k, tiles);
    TilesPartition(a, px, py, k);
    PaintTilePixel(f, cv.pic, cv.colours, tiles[0], TileArea(a, k), px, py);
    Indexes(next.pic, px, py);
  }

  /** Every pixel of a Hextile rectangle ends up with the colour that its own tile gives it, in
      the colours carried to that tile, and every other pixel stays as it is. */
  lemma HextilePixels(f: Format, cv: Canvas, a: Area, tiles: seq<Tile>, px: int, py: int)
    requires ValidTiles(f, cv.colours, a, 0, tiles) && AllInside(a, 0, tiles)
        && |tiles| == TileCount(a) && InPicture(cv.pic, px, py)
    ensures InPicture(PaintTiles(f, cv, a, 0, tiles).pic, px, py)
    ensures !Within(a, px, py) ==> PaintTiles(f, cv, a, 0, tiles).pic[py][px] == cv.pic[py][px]
    ensures Within(a, px, py) ==>
      && 0 <= TileOf(a, px, py) < |tiles| && Within(TileArea(a, TileOf(a, px, py)), px, py)
      && var k := TileOf(a, px, py);
         var c, ta := Carried(cv.colours, tiles, k), TileArea(a, k);
         && ValidTile(f, c, tiles[k], ta.w, ta.h)
         && PaintTiles(f, cv, a, 0, tiles).pic[py][px]
            == if Ignored(c, tiles[k]) then cv.pic[py][px] else TilePixel(f, c, tiles[k], ta, px, py)
  {
    hide *;
    Indexes(cv.pic, px, py);
    if Within(a, px, py) {
      var k := TileOf(a, px, py);
      TileExists(a, px, py);
      TilesPartition(a, px, py, k);
      EachValid(f, cv.colours, a, 0, tiles, k);
      OwnTile(f, cv, a, 0, tiles, k, Carried(cv.colours, tiles, k), TileArea(a, k), px, py);
      ShowsIs(f, PaintTiles(f, cv, a, 0, tiles).pic, cv.pic,
          Carried(cv.colours, tiles, k), tiles[k], TileArea(a, k), px, py);
    } else {
      LaterTiles(f, cv, a, 0, tiles, px, py);
    }
    Indexes(PaintTiles(f, cv, a, 0, tiles).pic, px, py);
  }

  lemma ShowsIs(f: Format, p: Picture, before: Picture, c: Colours, t: Tile, ta: Area, px: int, py: int)
    requires ValidTile(f, c, t, ta.w, ta.h) && Within(ta, px, py) && InPicture(before, px, py)
    requires Shows(f, p, before, c, t, ta, px, py)
    ensures InPicture(p, px, py)
        && p[py][px] == if Ignored(c, t) then before[py][px] else TilePixel(f, c, t, ta, px, py)
  {
    hide Ignored, TilePixel, Within, ValidTile;
  }

  /* Blank tiles */

  /** A blank tile stands for one that repeats the background in force. */
  function Explicit(c: Colours, t: Tile): Tile {
    if t.mask == 0 then t.(mask := 2, background := c.background) else t
  }

  function Explicits(c: Colours, tiles: seq<Tile>): (r: seq<Tile>)
    ensures |r| == |tiles|
    decreases |tiles|
  {
    if tiles == [] then [] else [Explicit(c, tiles[0])] + Explicits(After(c, tiles[0]), tiles[1..])
  }

  predicate SameInk(c: Colours, d: Colours) {
    c.background == d.background && c.foreground == d.foreground
  }

  lemma ExplicitTile(f: Format, c: Colours, d: Colours, t: Tile, w: nat, h: nat)
    requires ValidTile(f, c, t, w, h) && SameInk(c, d)
    ensures ValidTile(f, d, Explicit(c, t), w, h)
        && SameInk(After(c, t), After(d, Explicit(c, t))) && !Ignored(d, Explicit(c, t))
    ensures Explicit(c, t).rects == t.rects
  {
    hide Bpp, ValidTileRect;
    if t.mask == 0 { assert t.rects == []; }
  }

  lemma ExplicitPaint(f: Format, pic: Picture, c: Colours, d: Colours, t: Tile, a: Area)
    requires ValidTile(f, c, t, a.w, a.h) && SameInk(c, d) && ValidTile(f, d, Explicit(c, t), a.w, a.h)
    ensures !Ignored(c, t) ==> PaintTile(f, pic, c, t, a) == PaintTile(f, pic, d, Explicit(c, t), a)
  {
    hide Fill, Blit, Bpp, PixelAt, ValidTileRect;
    if t.mask == 0 {
      assert t.rects == [];
    }
  }

  lemma BlankPixel(f: Format, c: Colours, d: Colours, t: Tile, a: Area, px: int, py: int)
    requires t.mask == 0 && ValidTile(f, c, t, a.w, a.h) && SameInk(c, d)
        && ValidTile(f, d, Explicit(c, t), a.w, a.h) && Within(a, px, py)
    ensures |c.background| == Bpp(f) && TilePixel(f, d, Explicit(c, t), a, px, py) == PixelAt(f, c.background, 0)
  {
    hide Bpp, PixelAt, ValidTileRect;
    assert t.rects == [];
  }

  lemma ExplicitsStep(f: Format, c: Colours, a: Area, k: nat, tiles: seq<Tile>)
    requires tiles != [] && ValidTiles(f, c, a, k, tiles)
    ensures k < TileCount(a) && ValidTile(f, c, tiles[0], TileArea(a, k).w, TileArea(a, k).h)
    ensures ValidTiles(f, After(c, tiles[0]), a, k + 1, tiles[1..])
    ensures Explicits(c, tiles)[0] == Explicit(c, tiles[0])
        && Explicits(c, tiles)[1..] == Explicits(After(c, tiles[0]), tiles[1..])
  {
    hide ValidTile, After, TileArea, Explicit;
  }

  lemma ValidFirst(f: Format, c: Colours, a: Area, k: nat, tiles: seq<Tile>)
    requires tiles != [] && k < TileCount(a)
    requires ValidTile(f, c, tiles[0], TileArea(a, k).w, TileArea(a, k).h)
        && ValidTiles(f, After(c, tiles[0]), a, k + 1, tiles[1..])
    ensures ValidTiles(f, c, a, k, tiles)
  {
    hide ValidTile, After, TileArea;
  }

  lemma {:induction false} ExplicitsValid(f: Format, c: Colours, d: Colours, a: Area, k: nat, tiles: seq<Tile>)
    requires ValidTiles(f, c, a, k, tiles) && SameInk(c, d)
    ensures ValidTiles(f, d, a, k, Explicits(c, tiles))
    decreases |tiles|
  {
    if tiles != [] {
      hide *;
      var t := tiles[0];
      ExplicitsStep(f, c, a, k, tiles);
      ExplicitTile(f, c, d, t, TileArea(a, k).w, TileArea(a, k).h);
      ExplicitsValid(f, After(c, t), After(d, Explicit(c, t)), a, k + 1, tiles[1..]);
      ValidFirst(f, d, a, k, Explicits(c, tiles));
    }
  }

  /** No tile is ignored. */
  predicate AllDrawn(c: Colours, tiles: seq<Tile>) {
    forall k :: 0 <= k < |tiles| ==> !Ignored(Carried(c, tiles, k), tiles[k])
  }

  lemma DrawnStep(c: Colours, tiles: seq<Tile>)
    requires AllDrawn(c, tiles) && tiles != []
    ensures !Ignored(c, tiles[0]) && AllDrawn(After(c, tiles[0]), tiles[1..])
  {
    hide After, Ignored;
    assert Carried(c, tiles, 0) == c;
    forall k | 0 <= k < |tiles[1..]| ensures !Ignored(Carried(After(c, tiles[0]), tiles[1..], k), tiles[1..][k]) {
      assert Carried(c, tiles, k + 1) == Carried(After(c, tiles[0]), tiles[1..], k);
      assert !Ignored(Carried(c, tiles, k + 1), tiles[k + 1]);
    }
  }

  lemma {:induction false} DrawnAlike(f: Format, pic: Picture,
          c: Colours, d: Colours, a: Area, k: nat, tiles: seq<Tile>)
    requires ValidTiles(f, c, a, k, tiles) && SameInk(c, d)
        && ValidTiles(f, d, a, k, Explicits(c, tiles)) && AllDrawn(c, tiles)
    ensures PaintTiles(f, Canvas(pic, c), a, k, tiles).pic
        == PaintTiles(f, Canvas(pic, d), a, k, Explicits(c, tiles)).pic
    decreases |tiles|
  {
    if tiles == [] {
    } else {
      hide *;
      var t, e := tiles[0], Explicits(c, tiles);
      ExplicitsStep(f, c, a, k, tiles);
      ExplicitTile(f, c, d, t, TileArea(a, k).w, TileArea(a, k).h);
      var next := PaintTilesStep(f, Canvas(pic, c), a, k, tiles);
      var next' := PaintTilesStep(f, Canvas(pic, d), a, k, e);
      DrawnStep(c, tiles);
      ExplicitPaint(f, pic, c, d, t, TileArea(a, k));
      DrawnAlike(f, next.pic, After(c, t), After(d, Explicit(c, t)), a, k + 1, tiles[1..]);
    }
  }

  /** Tile k and the colours before it, with all backgrounds written out. */
  lemma {:induction false} ExplicitAt(f: Format, c: Colours, d: Colours, a: Area, j: nat, tiles: seq<Tile>, k: nat)
    requires ValidTiles(f, c, a, j, tiles) && SameInk(c, d) && k < |tiles|
    ensures Explicits(c, tiles)[k] == Explicit(Carried(c, tiles, k), tiles[k])
    ensures SameInk(Carried(c, tiles, k), Carried(d, Explicits(c, tiles), k))
    decreases |tiles|
  {
    var e := Explicits(c, tiles);
    hide ValidTiles, Explicits, Explicit, After, SameInk;
    ExplicitsStep(f, c, a, j, tiles);
    if k > 0 {
      ExplicitTile(f, c, d, tiles[0], TileArea(a, j).w, TileArea(a, j).h);
      ExplicitAt(f, After(c, tiles[0]), After(d, e[0]), a, j + 1, tiles[1..], k - 1);
      assert e[1..][k - 1] == e[k] && tiles[1..][k - 1] == tiles[k];
    }
  }

  lemma {:induction false} ExplicitsInside(f: Format, c: Colours, a: Area, k: nat, tiles: seq<Tile>)
    requires ValidTiles(f, c, a, 0, tiles) && AllInside(a, 0, tiles)
    ensures AllInside(a, 0, Explicits(c, tiles))
  {
    var e := Explicits(c, tiles);
    hide ValidTiles, Explicits, After, SameInk, TileCount, TileArea;
    forall i | 0 <= i < |e| ensures Inside(e[i], TileArea(a, 0 + i)) {
      SameInkAsItself(c);
      ExplicitAt(f, c, c, a, 0, tiles, i);
      assert e[i].rects == tiles[i].rects;
    }
  }

  lemma SameInkAsItself(c: Colours)
    ensures SameInk(c, c)
  {
  }

  /** A picture that covers the area, all in a colour other than p. */
  function Contrast(a: Area, p: Pixel): (pic: Picture)
    ensures forall px, py :: Within(a, px, py) ==> InPicture(pic, px, py) && pic[py][px] != p
  {
    seq(a.y + a.h, _ => seq(a.x + a.w, _ => if p.red == 0 then Pixel(1, 0, 0) else Pixel(0, 0, 0)))
  }

  lemma IgnoredShows(f: Format, c: Colours, a: Area, tiles: seq<Tile>, k: nat)
    requires ValidTiles(f, c, a, 0, tiles) && AllInside(a, 0, tiles) && |tiles| == TileCount(a)
    requires ValidTiles(f, c, a, 0, Explicits(c, tiles))
    requires k < |tiles| && Ignored(Carried(c, tiles, k), tiles[k])
    ensures exists pic: Picture ::
        PaintTiles(f, Canvas(pic, c), a, 0, tiles).pic != PaintTiles(f, Canvas(pic, c), a, 0, Explicits(c, tiles)).pic
  {
    hide *;
    var e, ck := Explicits(c, tiles), Carried(c, tiles, k);
    var px, py := CornerOf(a, k);
    EachValid(f, c, a, 0, tiles, k);
    SameInkAsItself(c);
    ExplicitAt(f, c, c, a, 0, tiles, k);
    ExplicitTile(f, ck, Carried(c, e, k), tiles[k], TileArea(a, k).w, TileArea(a, k).h);
    IgnoredIsBlank(ck, tiles[k]);
    BlankPixel(f, ck, Carried(c, e, k), tiles[k], TileArea(a, k), px, py);
    var p := PixelAt(f, ck.background, 0);
    var pic := Contrast(a, p);
    ExplicitsInside(f, c, a, k, tiles);
    HextilePixels(f, Canvas(pic, c), a, tiles, px, py);
    HextilePixels(f, Canvas(pic, c), a, e, px, py);
    var x, y := PaintTiles(f, Canvas(pic, c), a, 0, tiles).pic, PaintTiles(f, Canvas(pic, c), a, 0, e).pic;
    Indexes(x, px, py);
    Indexes(y, px, py);
    assert x[py][px] != y[py][px];
  }

  lemma CornerOf(a: Area, k: nat) returns (px: int, py: int)
    requires k < TileCount(a)
    ensures Within(a, px, py) && TileOf(a, px, py) == k && Within(TileArea(a, k), px, py)
  {
    px, py := TileArea(a, k).x, TileArea(a, k).y;
    TilesPartition(a, px, py, k);
  }

  lemma IgnoredIsBlank(c: Colours, t: Tile)
    requires Ignored(c, t)
    ensures t.mask == 0
  {
  }

  /** The client reads a blank tile as one that repeats the background in force, on every
      picture, exactly if no blank tile directly follows a raw one. */
  lemma BlankAfterRaw(f: Format, c: Colours, a: Area, tiles: seq<Tile>)
    requires ValidTiles(f, c, a, 0, tiles) && AllInside(a, 0, tiles) && |tiles| == TileCount(a)
    ensures ValidTiles(f, c, a, 0, Explicits(c, tiles))
    ensures (forall pic: Picture ::
        PaintTiles(f, Canvas(pic, c), a, 0, tiles).pic == PaintTiles(f, Canvas(pic, c), a, 0, Explicits(c, tiles)).pic)
       <==> forall k :: 0 <= k < |tiles| ==> !(tiles[k].mask == 0 && IsRaw(Carried(c, tiles, k).last))
  {
    SameInkAsItself(c);
    ExplicitsValid(f, c, c, a, 0, tiles);
    hide ValidTiles, PaintTiles, Explicits, Carried, AllInside, TileCount, IsRaw, SameInk;
    if AllDrawn(c, tiles) {
      forall pic: Picture
        ensures PaintTiles(f, Canvas(pic, c), a, 0, tiles).pic
            == PaintTiles(f, Canvas(pic, c), a, 0, Explicits(c, tiles)).pic
      {
        DrawnAlike(f, pic, c, c, a, 0, tiles);
      }
    } else {
      var k :| 0 <= k < |tiles| && Ignored(Carried(c, tiles, k), tiles[k]);
      IgnoredShows(f, c, a, tiles, k);
    }
  }

  /* A row of 33 pixels: a tile in one colour, a raw tile, and a blank one of a single pixel */

  function Row33(background: seq<byte>, data: seq<byte>): seq<Tile> {
    [Tile(2, [], background, [], []), Tile(1, data, [], [], []), Tile(0, [], [], [], [])]
  }

  lemma Row33Tile(a: Area, k: nat)
    requires a.w == 33 && a.h == 1 && k < 3
    ensures TileCount(a) == 3 && TileArea(a, k).w == (if k == 2 then 1 else 16) && TileArea(a, k).h == 1
  {
    assert TilesAcross(33) == 3 && TilesAcross(1) == 1;
    assert k % 3 == k && k / 3 == 0;
  }

  lemma Row33Pixel(a: Area)
    requires a.x == 0 && a.y == 0 && a.w == 33 && a.h == 1
    ensures Within(a, 32, 0) && TileOf(a, 32, 0) == 2
  {
  }

  lemma NoneOutside(a: Area, tiles: seq<Tile>)
    requires |tiles| <= TileCount(a) && forall i :: 0 <= i < |tiles| ==> tiles[i].rects == []
    ensures AllInside(a, 0, tiles)
  {
    hide TileCount, TileArea;
  }

  lemma Row33Valid(f: Format, c: Colours, background: seq<byte>, data: seq<byte>)
    requires |background| == Bpp(f) && |data| == 1 * (16 * Bpp(f))
    ensures var ts, d := Row33(background, data), Colours(background, c.foreground, 2);
            && ValidTile(f, c, ts[0], 16, 1) && After(c, ts[0]) == d
            && ValidTile(f, d, ts[1], 16, 1) && After(d, ts[1]) == d.(last := 1)
            && ValidTile(f, d.(last := 1), ts[2], 1, 1)
  {
    hide Bpp;
  }

  lemma ThreeTiles(f: Format, c: Colours, a: Area, ts: seq<Tile>)
    requires |ts| == 3 && TileCount(a) == 3 && ValidTile(f, c, ts[0], TileArea(a, 0).w, TileArea(a, 0).h)
    requires ValidTile(f, After(c, ts[0]), ts[1], TileArea(a, 1).w, TileArea(a, 1).h)
    requires ValidTile(f, After(After(c, ts[0]), ts[1]), ts[2], TileArea(a, 2).w, TileArea(a, 2).h)
    ensures ValidTiles(f, c, a, 0, ts) && Carried(c, ts, 2) == After(After(c, ts[0]), ts[1])
  {
    hide ValidTile, After, TileCount, TileArea;
    var t1, t2, t3 := ts[1..], ts[2..], ts[3..];
    var c1, c2 := After(c, ts[0]), After(After(c, ts[0]), ts[1]);
    assert t1[1..] == t2 && t2[1..] == t3 && t3 == [];
    assert Carried(c2, t2, 0) == c2;
    assert Carried(c1, t1, 1) == c2;
    assert ValidTiles(f, After(c2, ts[2]), a, 3, t3);
    assert ValidTiles(f, c2, a, 2, t2);
    assert ValidTiles(f, c1, a, 1, t1);
  }

  lemma Stays(f: Format, cv: Canvas, a: Area, ts: seq<Tile>, px: int, py: int)
    requires ValidTiles(f, cv.colours, a, 0, ts) && AllInside(a, 0, ts) && |ts| == TileCount(a)
    requires InPicture(cv.pic, px, py) && Within(a, px, py) && 0 <= TileOf(a, px, py) < |ts|
    requires Ignored(Carried(cv.colours, ts, TileOf(a, px, py)), ts[TileOf(a, px, py)])
    ensures var p := PaintTiles(f, cv, a, 0, ts).pic; InPicture(p, px, py) && p[py][px] == cv.pic[py][px]
  {
    hide *;
    HextilePixels(f, cv, a, ts, px, py);
    Indexes(cv.pic, px, py);
    Indexes(PaintTiles(f, cv, a, 0, ts).pic, px, py);
  }

  lemma Row33Carries(f: Format, c: Colours, a: Area, ts: seq<Tile>, background: seq<byte>, data: seq<byte>)
    requires a.w == 33 && a.h == 1 && |background| == Bpp(f)
        && |data| == 1 * (16 * Bpp(f)) && ts == Row33(background, data)
    ensures |ts| == TileCount(a) == 3 && ValidTiles(f, c, a, 0, ts)
        && AllInside(a, 0, ts) && Ignored(Carried(c, ts, 2), ts[2])
  {
    hide *;
    Row33Tile(a, 0);
    Row33Tile(a, 1);
    Row33Tile(a, 2);
    Row33Valid(f, c, background, data);
    Row33Rects(background, data);
    NoneOutside(a, ts);
    ThreeTiles(f, c, a, ts);
    Row33Colours(Carried(c, ts, 2), ts[2]);
  }

  /** The last pixel keeps the colour it had, whatever the background is. */
  lemma BlankAfterRawStays(f: Format, cv: Canvas, background: seq<byte>, data: seq<byte>)
    requires |background| == Bpp(f) && |data| == 1 * (16 * Bpp(f)) && InPicture(cv.pic, 32, 0)
    ensures var a, ts := Area(0, 0, 33, 1), Row33(background, data);
            && ValidTiles(f, cv.colours, a, 0, ts)
            && var p := PaintTiles(f, cv, a, 0, ts).pic; InPicture(p, 32, 0) && p[0][32] == cv.pic[0][32]
  {
    hide *;
    var a, ts := Area(0, 0, 33, 1), Row33(background, data);
    Row33Pixel(a);
    Row33Carries(f, cv.colours, a, ts, background, data);
    Stays(f, cv, a, ts, 32, 0);
  }

  lemma Row33Colours(c: Colours, t: Tile)
    requires c.last == 1 && t.mask == 0
    ensures Ignored(c, t)
  {
  }

  lemma Row33Rects(background: seq<byte>, data: seq<byte>)
    ensures var ts := Row33(background, data);
        |ts| == 3 && ts[2].mask == 0 && forall i :: 0 <= i < 3 ==> ts[i].rects == []
  {
  }

  /* Empty Raw rectangles */

  /** A Raw rectangle whose bytes have all arrived is finished exactly if it has a pixel: the
      canvas refuses an empty image, and a rectangle without rows waits for a row. */
  lemma RawFinishes(f: Format, m: Machine)
    requires m.fbu.lines == 0 && |m.queue| >= m.fbu.area.h * (m.fbu.area.w * Bpp(f))
    ensures RfbParser.Raw(f, m).1 == Done && RfbParser.Raw(f, m).0.fbu.rects == m.fbu.rects - 1
        <==> m.fbu.area.w > 0 && m.fbu.area.h > 0
  {
    var w, h, line := m.fbu.area.w, m.fbu.area.h, m.fbu.area.w * Bpp(f);
    if w > 0 && h > 0 {
      assert line > 0;
      MoreTimes(line, 1, h);
      Quotient(|m.queue|, line, h);
      hide Blit, Bpp;
    } else {
      EmptyLine(f, w);
      hide Blit, Bpp;
    }
  }

  lemma EmptyLine(f: Format, w: nat)
    ensures w == 0 ==> w * Bpp(f) == 0
  {
  }

  lemma Quotient(q: nat, line: nat, h: nat)
    requires line > 0 && q >= h * line
    ensures q / line >= h
  {
    assert q == line * (q / line) + q % line;
    assert line * (q / line + 1) == line * (q / line) + line;
    MoreTimes(line, q / line + 1, h);
  }
}
