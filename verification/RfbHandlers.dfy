/** One call of an encoding handler, at any point of a rectangle and with any part of it
    arrived: it draws what has arrived, keeps what is left to draw, and never waits for more than
    the rectangle still has. */
module RfbHandlers {
  import opened Numbers
  import opened Framebuffer
  import opened RfbFormat
  import opened RfbParser

  /* A Hextile tile at the front of the stream */

  lemma PaintRectsStep(f: Format, pic: Picture, x: int, y: int, mask: nat,
          foreground: seq<byte>, rs: seq<TileRect>, q: seq<byte>, more: seq<byte>)
    requires rs != [] && ValidTileRect(f, Coloured(mask), rs[0])
    requires q == TileRectBytes(rs[0]) + more && (!Coloured(mask) ==> |foreground| == Bpp(f))
    requires |rs| * RectSize(f, mask) <= |q|
    ensures |rs[0].colour| == (if Coloured(mask) then Bpp(f) else 0) && (|rs| - 1) * RectSize(f, mask) <= |more|
    ensures DrawTileRects(f, pic, x, y, q, |rs|, mask, foreground)
         == DrawTileRects(f, PaintTileRect(f, pic, x, y, Coloured(mask), foreground, rs[0]),
             x, y, more, |rs| - 1, mask, foreground)
  {
    hide *;
    ColourOf(f, mask, rs[0]);
    TileRectParts(f, mask, rs[0], more);
    Peel(|rs|, RectSize(f, mask));
    DrawRectsUnfold(f, pic, x, y, q, |rs|, mask, foreground, rs[0], more);
  }

  lemma Peel(n: int, size: int)
    ensures n * size == size + (n - 1) * size
  {
  }

  lemma DrawRectsUnfold(f: Format, pic: Picture, x: int, y: int, q: seq<byte>,
          count: nat, mask: nat, foreground: seq<byte>, r: TileRect, more: seq<byte>)
    requires count > 0 && count * RectSize(f, mask) <= |q| && (count - 1) * RectSize(f, mask) <= |more|
    requires |q| >= RectSize(f, mask) >= 2 && q[RectSize(f, mask)..] == more
    requires |r.colour| == if Coloured(mask) then Bpp(f) else 0
    requires Coloured(mask) ==> Bpp(f) <= |q| && q[..Bpp(f)] == r.colour
    requires !Coloured(mask) ==> |foreground| == Bpp(f)
    requires q[RectSize(f, mask) - 2] / 16 == r.x && q[RectSize(f, mask) - 2] % 16 == r.y
    requires q[RectSize(f, mask) - 1] / 16 + 1 == r.w && q[RectSize(f, mask) - 1] % 16 + 1 == r.h
    ensures DrawTileRects(f, pic, x, y, q, count, mask, foreground)
         == DrawTileRects(f, PaintTileRect(f, pic, x, y, Coloured(mask), foreground, r),
             x, y, more, count - 1, mask, foreground)
  {
    hide Fill, PixelAt, Coloured, Bpp, RectSize;
  }

  /** A subrectangle's colour, position and size, read back from its bytes. */
  lemma TileRectParts(f: Format, mask: nat, r: TileRect, more: seq<byte>)
    requires ValidTileRect(f, Coloured(mask), r)
    ensures var q, size := TileRectBytes(r) + more, RectSize(f, mask);
            && |q| >= size >= 2 && q[size..] == more
            && (Coloured(mask) ==> Bpp(f) <= |q| && q[..Bpp(f)] == r.colour && |r.colour| == Bpp(f))
            && q[size - 2] / 16 == r.x && q[size - 2] % 16 == r.y
            && q[size - 1] / 16 + 1 == r.w && q[size - 1] % 16 + 1 == r.h
  {
    var q, size := TileRectBytes(r) + more, RectSize(f, mask);
    assert q[size - 2] == r.x * 16 + r.y && q[size - 1] == (r.w - 1) * 16 + (r.h - 1);
    Nibbles(r.x, r.y);
    Nibbles(r.w - 1, r.h - 1);
  }

  lemma Nibbles(a: nat, b: nat)
    requires b < 16
    ensures (a * 16 + b) / 16 == a && (a * 16 + b) % 16 == b
  {
  }

  predicate ValidTileRects(f: Format, mask: nat, rs: seq<TileRect>) {
    forall i :: 0 <= i < |rs| ==> ValidTileRect(f, Coloured(mask), rs[i])
  }

  lemma TileRectsStep(f: Format, mask: nat, rs: seq<TileRect>)
    requires rs != [] && ValidTileRects(f, mask, rs)
    ensures ValidTileRect(f, Coloured(mask), rs[0]) && ValidTileRects(f, mask, rs[1..])
    ensures TileRectsBytes(rs) == TileRectBytes(rs[0]) + TileRectsBytes(rs[1..])
    ensures |TileRectBytes(rs[0])| == RectSize(f, mask)
  {
  }

  lemma {:induction false} TileRectsSize(f: Format, mask: nat, rs: seq<TileRect>)
    requires ValidTileRects(f, mask, rs)
    ensures |TileRectsBytes(rs)| == |rs| * RectSize(f, mask)
    decreases rs
  {
    if rs != [] {
      TileRectsStep(f, mask, rs);
      TileRectsSize(f, mask, rs[1..]);
      Peel(|rs|, RectSize(f, mask));
    }
  }

  lemma {:induction false} DrawsTileRects(f: Format, pic: Picture, x: int,
          y: int, mask: nat, foreground: seq<byte>, rs: seq<TileRect>, more: seq<byte>)
    requires ValidTileRects(f, mask, rs) && (rs != [] && !Coloured(mask) ==> |foreground| == Bpp(f))
    ensures |rs| * RectSize(f, mask) <= |TileRectsBytes(rs) + more|
    ensures DrawTileRects(f, pic, x, y, TileRectsBytes(rs) + more, |rs|, mask, foreground)
         == (PaintTileRects(f, pic, x, y, Coloured(mask), foreground, rs), true)
    decreases rs
  {
    TileRectsSize(f, mask, rs);
    if rs != [] {
      hide DrawTileRects, TileRectsBytes, TileRectBytes, RectSize, PaintTileRect, ValidTileRect;
      TileRectsStep(f, mask, rs);
      var q, next := TileRectsBytes(rs) + more, TileRectsBytes(rs[1..]) + more;
      assert q == TileRectBytes(rs[0]) + next;
      ColourOf(f, mask, rs[0]);
      var pic' := PaintTileRect(f, pic, x, y, Coloured(mask), foreground, rs[0]);
      PaintRectsStep(f, pic, x, y, mask, foreground, rs, q, next);
      DrawsTileRects(f, pic', x, y, mask, foreground, rs[1..], more);
    }
  }

  lemma ColourOf(f: Format, mask: nat, r: TileRect)
    requires ValidTileRect(f, Coloured(mask), r)
    ensures |r.colour| == if Coloured(mask) then Bpp(f) else 0
  {
  }

  /** The parts of a tile that is not raw, and where they lie. */
  lemma TileParts(f: Format, c: Colours, t: Tile, w: nat, h: nat, rest: seq<byte>)
    requires ValidTile(f, c, t, w, h) && !IsRaw(t.mask)
    ensures var q := TileBytes(t) + rest;
            var i := 1 + |t.background|;
            var j := i + |t.foreground|;
            && q[0] == t.mask && q[1..i] == t.background && q[i..j] == t.foreground
            && |t.background| + |t.foreground| == ColourBytes(f, t.mask)
            && (!HasRects(t.mask) ==> |TileBytes(t)| == j)
            && (HasRects(t.mask) ==> |TileBytes(t)| == j + 1 + |TileRectsBytes(t.rects)|
                                     && q[j] == |t.rects| && q[j + 1..] == TileRectsBytes(t.rects) + rest)
  {
    SizeOfColours(f, c, t, w, h);
    hide *;
    var tail := TileTail(t);
    Sections([t.mask], t.background, t.foreground, tail, rest);
    var q, j := TileBytes(t) + rest, 1 + |t.background| + |t.foreground|;
    if HasRects(t.mask) {
      AfterFirst(q, j, |t.rects|, TileRectsBytes(t.rects), rest);
    }
  }

  lemma AfterFirst(q: seq<byte>, j: nat, n: byte, a: seq<byte>, rest: seq<byte>)
    requires j <= |q| && q[j..] == ([n] + a) + rest
    ensures j < |q| && q[j] == n && q[j + 1..] == a + rest
  {
    assert q[j..][0] == n;
    assert q[j..][1..] == q[j + 1..];
    assert (([n] + a) + rest)[1..] == a + rest;
  }

  lemma SizeOfColours(f: Format, c: Colours, t: Tile, w: nat, h: nat)
    requires ValidTile(f, c, t, w, h) && !IsRaw(t.mask)
    ensures |t.background| + |t.foreground| == ColourBytes(f, t.mask)
    ensures forall i ::
        0 <= i < |t.rects| ==>
          t.rects[i].x < 16 && t.rects[i].y < 16 && 1 <= t.rects[i].w <= 16 && 1 <= t.rects[i].h <= 16
    ensures |t.rects| < 256
  {
    hide Bpp;
  }

  lemma TileTail(t: Tile) returns (tail: seq<byte>)
    requires Encodable(t) && !IsRaw(t.mask)
    ensures TileBytes(t) == [t.mask] + (t.background + (t.foreground + tail))
    ensures HasRects(t.mask) ==> tail == [|t.rects|] + TileRectsBytes(t.rects)
    ensures !HasRects(t.mask) ==> tail == []
  {
    tail := if HasRects(t.mask) then [|t.rects|] + TileRectsBytes(t.rects) else [];
    hide TileRectsBytes;
  }

  lemma Sections(a: seq<byte>, b: seq<byte>, c: seq<byte>, d: seq<byte>, rest: seq<byte>)
    ensures var q := (a + (b + (c + d))) + rest;
            var i := |a| + |b|;
            var j := i + |c|;
            q[..|a|] == a && q[|a|..i] == b && q[i..j] == c && q[j..] == d + rest
  {
    var q := (a + (b + (c + d))) + rest;
    assert q == a + b + c + d + rest;
  }

  /** What has arrived of the stream. */
  predicate Arrived(queue: seq<byte>, future: seq<byte>, stream: seq<byte>) {
    queue + future == stream
  }

  lemma ArrivedAt(queue: seq<byte>, future: seq<byte>, stream: seq<byte>)
    requires Arrived(queue, future, stream)
    ensures |queue| <= |stream| && queue == stream[..|queue|] && future == stream[|queue|..]
    ensures forall i :: 0 <= i < |queue| ==> queue[i] == stream[i]
  {
  }

  lemma RawTileSize(f: Format, c: Colours, t: Tile, w: nat, h: nat, rest: seq<byte>)
    requires ValidTile(f, c, t, w, h) && IsRaw(t.mask)
    ensures |TileBytes(t)| == 1 + h * (w * Bpp(f)) && |t.raw| == h * (w * Bpp(f))
    ensures (TileBytes(t) + rest)[0] == t.mask && (TileBytes(t) + rest)[1..|TileBytes(t)|] == t.raw
  {
    hide Bpp, TileRectsBytes;
  }

  /** The handler never asks for more than the tile has, and once it has what it asks for, the
      tile is complete. */
  lemma TileWaits(f: Format, c: Colours, t: Tile, w: nat, h: nat, queue: seq<byte>, future: seq<byte>, rest: seq<byte>)
    requires ValidTile(f, c, t, w, h) && Arrived(queue, future, TileBytes(t) + rest)
    ensures queue != [] ==> queue[0] == t.mask <= 31
    ensures TileWait(f, queue, w, h) <= |TileBytes(t)|
    ensures |queue| >= TileWait(f, queue, w, h) ==> TileWait(f, queue, w, h) == |TileBytes(t)|
  {
    var s := TileBytes(t) + rest;
    ArrivedAt(queue, future, s);
    var mask := t.mask;
    assert mask <= 31;
    if IsRaw(mask) {
      RawTileSize(f, c, t, w, h, rest);
      hide TileBytes, ValidTile, IsRaw, ColourBytes, RectSize, Arrived;
    } else {
      TileParts(f, c, t, w, h, rest);
      RectsOf(f, c, t, w, h);
      TileRectsSize(f, mask, t.rects);
      hide TileBytes, ValidTile, IsRaw, HasRects, ColourBytes, RectSize, TileRectsBytes, ValidTileRects, Arrived;
    }
  }

  lemma RectsOf(f: Format, c: Colours, t: Tile, w: nat, h: nat)
    requires ValidTile(f, c, t, w, h)
    ensures ValidTileRects(f, t.mask, t.rects)
    ensures forall i :: 0 <= i < |t.rects| ==> |t.rects[i].colour| == if Coloured(t.mask) then Bpp(f) else 0
    ensures t.rects != [] && !Coloured(t.mask) ==> |After(c, t).foreground| == Bpp(f)
  {
  }

  function ColoursOf(m: Machine): Colours {
    Colours(m.fbu.background, m.fbu.foreground, m.fbu.last)
  }

  lemma DrawsBlank(f: Format, m: Machine, t: Tile, a: Area)
    requires t.mask == 0 && ValidTile(f, ColoursOf(m), t, a.w, a.h) && m.queue != [] && m.queue[0] == 0
    requires |m.queue| >= TileWait(f, m.queue, a.w, a.h)
    ensures DrawTile(f, m, a)
        == Drawn(PaintTile(f, m.pic, ColoursOf(m), t, a), m.fbu.background, m.fbu.foreground, true)
    ensures After(ColoursOf(m), t) == Colours(m.fbu.background, m.fbu.foreground, t.mask)
  {
    hide Fill, PixelAt, Bpp, Blit, TileWait;
    assert t.rects == [];
  }

  lemma DrawsRaw(f: Format, m: Machine, t: Tile, a: Area)
    requires IsRaw(t.mask) && ValidTile(f, ColoursOf(m), t, a.w, a.h) && m.queue != [] && m.queue[0] == t.mask
    requires |m.queue| >= TileWait(f, m.queue, a.w, a.h) && m.queue[1..1 + a.h * (a.w * Bpp(f))] == t.raw
    ensures DrawTile(f, m, a)
        == Drawn(PaintTile(f, m.pic, ColoursOf(m), t, a), m.fbu.background, m.fbu.foreground, true)
    ensures After(ColoursOf(m), t) == Colours(m.fbu.background, m.fbu.foreground, t.mask)
  {
    assert t.mask != 0;
    hide Fill, PixelAt, Bpp, Blit, TileWait;
  }

  /** A tile in colours, with what lies where in the queue. */
  lemma DrawsColoured(f: Format, m: Machine, t: Tile, a: Area, i: nat, j: nat)
    requires !IsRaw(t.mask) && t.mask != 0 && ValidTile(f, ColoursOf(m), t, a.w, a.h)
    requires m.queue != [] && m.queue[0] == t.mask && |m.queue| >= TileWait(f, m.queue, a.w, a.h)
    requires i == 1 + |t.background| && j == i + |t.foreground| && j <= |m.queue|
    requires m.queue[1..i] == t.background && m.queue[i..j] == t.foreground
    requires HasRects(t.mask) ==>
      j < |m.queue| && m.queue[j] == |t.rects| && |t.rects| * RectSize(f, t.mask) <= |m.queue[j + 1..]|
    requires forall pic: Picture :: HasRects(t.mask) ==>
      DrawTileRects(f, pic, a.x, a.y, m.queue[j + 1..], |t.rects|, t.mask, After(ColoursOf(m), t).foreground)
      == (PaintTileRects(f, pic, a.x, a.y, Coloured(t.mask), After(ColoursOf(m), t).foreground, t.rects), true)
    ensures var n := After(ColoursOf(m), t);
            DrawTile(f, m, a) == Drawn(PaintTile(f, m.pic, ColoursOf(m), t, a), n.background, n.foreground, true)
  {
    var n := After(ColoursOf(m), t);
    assert |t.background| == if HasBackground(t.mask) then Bpp(f) else 0;
    assert |t.foreground| == if HasForeground(t.mask) then Bpp(f) else 0;
    assert |n.background| == Bpp(f);
    hide Fill, PixelAt, Bpp, Blit, TileWait, DrawTileRects, Flag, RectSize, ValidTileRect;
  }

  lemma FromArrived(queue: seq<byte>, future: seq<byte>, stream: seq<byte>, i: nat, j: nat)
    requires Arrived(queue, future, stream) && i <= j <= |queue|
    ensures j <= |stream| && queue[i..j] == stream[i..j]
    ensures Arrived(queue[j..], future, stream[j..])
  {
  }

  lemma TailArrived(queue: seq<byte>, future: seq<byte>, a: seq<byte>, rest: seq<byte>)
    requires Arrived(queue, future, a + rest) && |a| <= |queue|
    ensures Arrived(queue[|a|..], future, rest) && queue[..|a|] == a && queue == a + queue[|a|..]
  {
    assert (a + rest)[|a|..] == rest;
  }

  /** A complete tile at the front of the queue is drawn as the format prescribes. */
  lemma DrawsTile(f: Format, m: Machine, t: Tile, a: Area)
    requires ValidTile(f, ColoursOf(m), t, a.w, a.h) && |m.queue| >= |TileBytes(t)|
    requires m.queue == TileBytes(t) + m.queue[|TileBytes(t)|..]
    ensures m.queue != [] && |m.queue| >= TileWait(f, m.queue, a.w, a.h)
    ensures var n := After(ColoursOf(m), t);
            DrawTile(f, m, a) == Drawn(PaintTile(f, m.pic, ColoursOf(m), t, a), n.background, n.foreground, true)
    ensures After(ColoursOf(m), t).last == t.mask
  {
    var more := m.queue[|TileBytes(t)|..];
    var c := ColoursOf(m);
    AllArrived(m.queue);
    TileWaits(f, c, t, a.w, a.h, m.queue, [], more);
    NotEmpty(f, m.queue, a.w, a.h, t);
    LastMask(c, t);
    if t.mask == 0 {
      DrawsBlank(f, m, t, a);
    } else if IsRaw(t.mask) {
      RawTileSize(f, c, t, a.w, a.h, more);
      DrawsRaw(f, m, t, a);
    } else {
      hide *;
      DrawsParts(f, m, t, a, more);
    }
  }

  lemma LastMask(c: Colours, t: Tile)
    ensures After(c, t).last == t.mask
  {
  }

  lemma AllArrived(queue: seq<byte>)
    ensures Arrived(queue, [], queue)
  {
  }

  lemma NotEmpty(f: Format, queue: seq<byte>, w: nat, h: nat, t: Tile)
    requires Encodable(t)
    ensures |TileBytes(t)| > 0
  {
  }

  lemma DrawsParts(f: Format, m: Machine, t: Tile, a: Area, more: seq<byte>)
    requires !IsRaw(t.mask) && t.mask != 0 && ValidTile(f, ColoursOf(m), t, a.w, a.h)
    requires m.queue == TileBytes(t) + more && m.queue != [] && |m.queue| >= TileWait(f, m.queue, a.w, a.h)
    ensures var n := After(ColoursOf(m), t);
            DrawTile(f, m, a) == Drawn(PaintTile(f, m.pic, ColoursOf(m), t, a), n.background, n.foreground, true)
  {
    var c := ColoursOf(m);
    var i := 1 + |t.background|;
    var j := i + |t.foreground|;
    hide *;
    TileParts(f, c, t, a.w, a.h, more);
    RectsOf(f, c, t, a.w, a.h);
    TileRectsSize(f, t.mask, t.rects);
    forall pic: Picture | HasRects(t.mask)
      ensures DrawTileRects(f, pic, a.x, a.y, m.queue[j + 1..], |t.rects|, t.mask, After(c, t).foreground)
           == (PaintTileRects(f, pic, a.x, a.y, Coloured(t.mask), After(c, t).foreground, t.rects), true)
    {
      DrawsTileRects(f, pic, a.x, a.y, t.mask, After(c, t).foreground, t.rects, more);
    }
    DrawsColoured(f, m, t, a, i, j);
  }

  /* The tiles of a rectangle */

  /** m is about to handle tile k, and `tiles` are left. */
  predicate AtTile(f: Format, m: Machine, a: Area, k: nat, tiles: seq<Tile>) {
    && m.fbu.area == a && m.fbu.encoding == 5 && m.fbu.rects > 0
    && m.fbu.tiles == |tiles| && m.fbu.total == TileCount(a) && m.fbu.across == TilesAcross(a.w)
    && k + |tiles| == TileCount(a) && ValidTiles(f, ColoursOf(m), a, k, tiles)
  }

  /** Nothing but the tile fields, the queue, the picture and the status differs. */
  predicate SameElse(m: Machine, m': Machine) {
    && m'.fbu.area == m.fbu.area && m'.fbu.encoding == m.fbu.encoding && m'.fbu.lines == m.fbu.lines
    && m'.fbu.subrects == m.fbu.subrects && m'.done == m.done
  }

  function CanvasOf(m: Machine): Canvas {
    Canvas(m.pic, ColoursOf(m))
  }

  lemma TilesStep(f: Format, cv: Canvas, a: Area, k: nat, tiles: seq<Tile>)
    requires tiles != [] && ValidTiles(f, cv.colours, a, k, tiles)
    ensures k < TileCount(a) && ValidTile(f, cv.colours, tiles[0], TileArea(a, k).w, TileArea(a, k).h)
    ensures Encodable(tiles[0])
    ensures ValidTiles(f, After(cv.colours, tiles[0]), a, k + 1, tiles[1..])
    ensures var next := Canvas(PaintTile(f, cv.pic, cv.colours, tiles[0], TileArea(a, k)), After(cv.colours, tiles[0]));
            && TilesBytes(f, cv.colours, a, k, tiles)
                == TileBytes(tiles[0]) + TilesBytes(f, next.colours, a, k + 1, tiles[1..])
            && PaintTiles(f, cv, a, k, tiles) == PaintTiles(f, next, a, k + 1, tiles[1..])
            && SeenTiles(f, cv, a, k, tiles)
               == if Refused(tiles[0]) then (cv, Tile31) else SeenTiles(f, next, a, k + 1, tiles[1..])
  {
    hide ValidTile, PaintTile, After, TileArea, TileBytes, Refused;
  }

  /** The handler fails at a mask above 30, before it looks at the rest of the tile. */
  lemma HexTilesRefuse(f: Format, m: Machine)
    requires m.fbu.tiles > 0 && Coherent(m.(fbu := m.fbu.(bytes := 1)))
    requires m.queue != [] && m.queue[0] > 30
    ensures HexTiles(f, m) == (m.(fbu := m.fbu.(bytes := 1), status := Failed), More)
  {
    hide TileWait, TileArea, DrawTile;
  }

  lemma HexTilesUnfold(f: Format, m: Machine, a: Area, n: nat)
    requires m.fbu.tiles > 0 && Coherent(m.(fbu := m.fbu.(bytes := 1))) && m.fbu.tiles <= m.fbu.total
    requires a == TileArea(m.fbu.area, m.fbu.total - m.fbu.tiles) && n == TileWait(f, m.queue, a.w, a.h)
    requires m.queue != [] ==> m.queue[0] <= 30
    ensures |m.queue| < n ==> HexTiles(f, m) == (m.(fbu := m.fbu.(bytes := n)), More)
    ensures |m.queue| >= n && DrawTile(f, m, a).ok ==>
      var d := DrawTile(f, m, a);
      HexTiles(f, m) == HexTiles(f, m.(queue := m.queue[n..], pic := d.pic,
        fbu := m.fbu.(background := d.background,
            foreground := d.foreground, last := m.queue[0], bytes := 0, tiles := m.fbu.tiles - 1)))
  {
    hide DrawTile, TileWait, TileArea;
  }

  lemma AtTileCoherent(f: Format, m: Machine, a: Area, k: nat, tiles: seq<Tile>)
    requires AtTile(f, m, a, k, tiles)
    ensures tiles != [] ==> Coherent(m.(fbu := m.fbu.(bytes := 1))) && m.fbu.tiles > 0 && m.fbu.total - m.fbu.tiles == k
    ensures m.fbu.area == a && m.fbu.tiles == |tiles| && ValidTiles(f, ColoursOf(m), a, k, tiles)
    ensures tiles == [] ==>
        TilesBytes(f, ColoursOf(m), a, k, tiles) == [] && PaintTiles(f, CanvasOf(m), a, k, tiles) == CanvasOf(m)
    ensures tiles == [] ==> SeenTiles(f, CanvasOf(m), a, k, tiles) == (CanvasOf(m), None)
    ensures tiles == [] ==> HexTiles(f, m) == (m, Done)
  {
  }

  /** The machine after a tile. */
  lemma NextTile(f: Format, m: Machine, m1: Machine, a: Area, k: nat,
          tiles: seq<Tile>, queue: seq<byte>, pic: Picture, c: Colours)
    requires AtTile(f, m, a, k, tiles) && tiles != [] && ValidTiles(f, c, a, k + 1, tiles[1..])
    requires m1 == m.(queue := queue, pic := pic, fbu := m.fbu.(background := c.background, foreground := c.foreground,
                      last := c.last, bytes := 0, tiles := m.fbu.tiles - 1))
    ensures AtTile(f, m1, a, k + 1, tiles[1..]) && ColoursOf(m1) == c && CanvasOf(m1) == Canvas(pic, c)
    ensures SameElse(m, m1) && m1.fbu.rects == m.fbu.rects && m1.fbu.bytes == 0
  {
    hide ValidTiles;
  }

  lemma SameElseAgain(m: Machine, m1: Machine, m2: Machine)
    requires SameElse(m, m1) && SameElse(m1, m2)
    ensures SameElse(m, m2)
  {
  }

  lemma StillAtTile(f: Format, m: Machine, a: Area, k: nat, tiles: seq<Tile>, n: nat, status: Status)
    requires AtTile(f, m, a, k, tiles)
    ensures var m' := m.(fbu := m.fbu.(bytes := n), status := status);
            AtTile(f, m', a, k, tiles) && SameElse(m, m')
                && ColoursOf(m') == ColoursOf(m) && CanvasOf(m') == CanvasOf(m)
  {
    hide ValidTiles;
  }

  /** A machine that failed at the tile at the front of its queue. */
  predicate Stuck(m: Machine, tiles: seq<Tile>) {
    m.status == Failed && tiles != [] && Refused(tiles[0])
  }

  lemma TileSome(f: Format, c: Colours, a: Area, k: nat, tiles: seq<Tile>)
    requires ValidTiles(f, c, a, k, tiles) && tiles != []
    ensures |TilesBytes(f, c, a, k, tiles)| >= 1
  {
    TilesStep(f, Canvas([], c), a, k, tiles);
    hide TileArea, After, ValidTiles, TilesBytes;
  }

  /** The Hextile loop draws every tile that has arrived and stops at the first that has not,
      with a wait for no more than that tile has; or it fails at the first tile that it refuses. */
  lemma {:induction false} HexLoop(f: Format, m: Machine, a: Area,
          k: nat, tiles: seq<Tile>, future: seq<byte>, rest: seq<byte>)
    returns (m': Machine, ret: Ret, k': nat, tiles': seq<Tile>)
    requires AtTile(f, m, a, k, tiles) && m.status == Normal && (tiles == [] ==> m.fbu.bytes == 0)
    requires Arrived(m.queue, future, TilesBytes(f, ColoursOf(m), a, k, tiles) + rest)
    ensures m.fbu.tiles > 0 ==> Coherent(m.(fbu := m.fbu.(bytes := 1)))
    ensures HexTiles(f, m) == (m', ret) && ret != Thrown && SameElse(m, m') && m'.fbu.rects == m.fbu.rects
    ensures AtTile(f, m', a, k', tiles')
        && Arrived(m'.queue, future, TilesBytes(f, ColoursOf(m'), a, k', tiles') + rest)
    ensures PaintTiles(f, CanvasOf(m'), a, k', tiles') == PaintTiles(f, CanvasOf(m), a, k, tiles)
    ensures SeenTiles(f, CanvasOf(m'), a, k', tiles') == SeenTiles(f, CanvasOf(m), a, k, tiles)
    ensures m'.status == Normal || (ret == More && Stuck(m', tiles'))
    ensures ret == Done ==> tiles' == [] && m'.fbu.bytes == 0
    ensures ret == More ==> tiles' != [] && 0 < m'.fbu.bytes <= |TilesBytes(f, ColoursOf(m'), a, k', tiles')|
    ensures ret == More && m'.status == Normal ==> |m'.queue| < m'.fbu.bytes
    decreases |tiles|
  {
    hide *;
    AtTileCoherent(f, m, a, k, tiles);
    if tiles == [] {
      m', ret, k', tiles' := m, Done, k, tiles;
      SameAsItself(m);
    } else {
      var t, b := tiles[0], TileArea(a, k);
      var c := ColoursOf(m);
      CanvasColours(m);
      TilesStep(f, CanvasOf(m), a, k, tiles);
      var tail := TilesBytes(f, After(c, t), a, k + 1, tiles[1..]);
      assert (TileBytes(t) + tail) + rest == TileBytes(t) + (tail + rest);
      TileWaits(f, c, t, b.w, b.h, m.queue, future, tail + rest);
      var n := TileWait(f, m.queue, b.w, b.h);
      if m.queue != [] && m.queue[0] > 30 {
        HexTilesRefuse(f, m);
        RefusedIs(t);
        TileSome(f, c, a, k, tiles);
        m', ret, k', tiles' := m.(fbu := m.fbu.(bytes := 1), status := Failed), More, k, tiles;
        StillAtTile(f, m, a, k, tiles, 1, Failed);
        StuckIf(m', tiles);
        return;
      }
      HexTilesUnfold(f, m, b, n);
      if |m.queue| < n {
        StillAtTile(f, m, a, k, tiles, n, Normal);
        m', ret, k', tiles' := m.(fbu := m.fbu.(bytes := n)), More, k, tiles;
      } else {
        RefusedIs(t);
        WaitsForSome(f, m.queue, b.w, b.h);
        TailArrived(m.queue, future, TileBytes(t), tail + rest);
        DrawsTile(f, m, t, b);
        var pic := PaintTile(f, m.pic, c, t, b);
        var c1 := After(c, t);
        var m1 := m.(queue := m.queue[n..], pic := pic,
            fbu := m.fbu.(background := c1.background, foreground := c1.foreground,
                     last := c1.last, bytes := 0, tiles := m.fbu.tiles - 1));
        NextTile(f, m, m1, a, k, tiles, m.queue[n..], pic, c1);
        m', ret, k', tiles' := HexLoop(f, m1, a, k + 1, tiles[1..], future, rest);
        SameElseAgain(m, m1, m');
      }
    }
  }

  lemma RefusedIs(t: Tile)
    ensures Refused(t) <==> t.mask > 30
  {
  }

  lemma StuckIf(m: Machine, tiles: seq<Tile>)
    requires m.status == Failed && tiles != [] && Refused(tiles[0])
    ensures Stuck(m, tiles)
  {
  }

  lemma WaitsForSome(f: Format, q: seq<byte>, w: nat, h: nat)
    ensures TileWait(f, q, w, h) >= 1
  {
  }

  lemma SameAsItself(m: Machine)
    ensures SameElse(m, m)
  {
  }

  lemma CanvasColours(m: Machine)
    ensures CanvasOf(m).colours == ColoursOf(m) && CanvasOf(m).pic == m.pic
  {
  }

  /** The client gets through the tiles exactly if it refuses none. */
  lemma {:induction false} SeenTilesAll(f: Format, cv: Canvas, a: Area, k: nat, tiles: seq<Tile>)
    requires ValidTiles(f, cv.colours, a, k, tiles)
    ensures SeenTiles(f, cv, a, k, tiles).1 == if Accepted(tiles) then None else Tile31
    ensures Accepted(tiles) ==> SeenTiles(f, cv, a, k, tiles).0 == PaintTiles(f, cv, a, k, tiles)
    decreases |tiles|
  {
    hide ValidTile, PaintTile, After, TileArea, TileBytes, Refused;
    if tiles != [] {
      TilesStep(f, cv, a, k, tiles);
      hide SeenTiles, PaintTiles, ValidTiles;
      SeenTilesAll(f, Canvas(PaintTile(f, cv.pic, cv.colours, tiles[0], TileArea(a, k)), After(cv.colours, tiles[0])),
          a, k + 1, tiles[1..]);
      AcceptedStep(tiles);
    }
  }

  lemma AcceptedStep(tiles: seq<Tile>)
    requires tiles != []
    ensures Accepted(tiles) <==> !Refused(tiles[0]) && Accepted(tiles[1..])
  {
    hide Refused;
    if Accepted(tiles[1..]) && !Refused(tiles[0]) {
      forall i | 0 <= i < |tiles| ensures !Refused(tiles[i]) {
        if i > 0 { assert tiles[i] == tiles[1..][i - 1]; }
      }
    }
  }

  /** With all its bytes there, a rectangle of legal tiles is finished exactly if none has mask 31;
      otherwise the handler fails, and has drawn exactly the tiles in front of the first one. */
  lemma HextileFinishes(f: Format, m: Machine, a: Area, k: nat, tiles: seq<Tile>, more: seq<byte>)
    requires AtTile(f, m, a, k, tiles) && m.status == Normal && (tiles == [] ==> m.fbu.bytes == 0)
    requires m.queue == TilesBytes(f, ColoursOf(m), a, k, tiles) + more
    ensures m.fbu.tiles > 0 ==> Coherent(m.(fbu := m.fbu.(bytes := 1)))
    ensures var (m', ret), s := HexTiles(f, m), SeenTiles(f, CanvasOf(m), a, k, tiles);
            && CanvasOf(m') == s.0
            && (ret == Done <==> Accepted(tiles)) && (m'.status == Failed <==> !Accepted(tiles))
            && (Accepted(tiles) ==> CanvasOf(m') == PaintTiles(f, CanvasOf(m), a, k, tiles) && m'.queue == more)
  {
    hide *;
    AtTileCoherent(f, m, a, k, tiles);
    ArrivedWhole(m.queue);
    var m', ret, k', tiles' := HexLoop(f, m, a, k, tiles, [], more);
    AtTileCoherent(f, m', a, k', tiles');
    CanvasColours(m);
    SeenTilesAll(f, CanvasOf(m), a, k, tiles);
    if ret == Done {
      ArrivedAt(m'.queue, [], TilesBytes(f, ColoursOf(m'), a, k', tiles') + more);
    } else if m'.status == Normal {
      AllThere(m'.queue, TilesBytes(f, ColoursOf(m'), a, k', tiles'), more);
    } else {
      StuckIs(m', tiles');
      CanvasColours(m');
      TilesStep(f, CanvasOf(m'), a, k', tiles');
    }
  }

  lemma ArrivedWhole(queue: seq<byte>)
    ensures Arrived(queue, [], queue)
  {
  }

  lemma AllThere(queue: seq<byte>, now: seq<byte>, more: seq<byte>)
    requires Arrived(queue, [], now + more)
    ensures |queue| >= |now|
  {
  }

  lemma StuckIs(m: Machine, tiles: seq<Tile>)
    requires Stuck(m, tiles)
    ensures m.status == Failed && tiles != [] && Refused(tiles[0])
  {
  }

  /* The rectangle under way */

  /** What is left of it. */
  datatype Current =
    | Nothing
    | RawLines(lines: nat, data: seq<byte>)
    | CopyFrom(sx: nat, sy: nat)
    | RreNew(background: seq<byte>, subrects: seq<Subrect>)
    | RreLeft(subrects: seq<Subrect>)
    | Tiles(k: nat, tiles: seq<Tile>)
    | Pixelless

  /** The fields of m say that much is left. */
  predicate Fits(f: Format, m: Machine, cur: Current) {
    var u := m.fbu;
    && (m.status == Normal || (cur.Tiles? && Stuck(m, cur.tiles))) && u.rects >= (if cur.Nothing? then 0 else 1)
    && match cur
       case Nothing => u.bytes == 0 && u.lines == 0 && u.subrects == 0 && u.tiles == 0
       case RawLines(lines, data) =>
         && u.encoding == 0 && u.subrects == 0 && u.tiles == 0
         && u.area.w > 0 && 0 < lines <= u.area.h && |data| == lines * (u.area.w * Bpp(f))
         && (u.lines == lines || (u.lines == 0 && lines == u.area.h))
       case CopyFrom(sx, sy) =>
         u.encoding == 1 && u.lines == 0 && u.subrects == 0 && u.tiles == 0 && sx < 0x1_0000 && sy < 0x1_0000
       case RreNew(background, subrects) =>
         && u.encoding == 2 && u.lines == 0 && u.subrects == 0 && u.tiles == 0
         && |background| == Bpp(f) && |subrects| < 0x8000_0000 && ValidSubrects(f, subrects)
       case RreLeft(subrects) =>
         u.encoding == 2 && u.lines == 0 && u.subrects == |subrects| > 0 && u.tiles == 0 && ValidSubrects(f, subrects)
       case Tiles(k, tiles) =>
         && u.encoding == 5 && u.lines == 0 && u.subrects == 0 && ValidTiles(f, ColoursOf(m), u.area, k, tiles)
         && (if u.tiles == 0 then k == 0 && u.bytes == 0 else AtTile(f, m, u.area, k, tiles))
       case Pixelless =>
         && u.encoding == 0 && u.lines == 0 && u.subrects == 0 && u.tiles == 0 && (u.area.w == 0 || u.area.h == 0)
  }

  function CurBytes(f: Format, m: Machine, cur: Current): seq<byte>
    requires Fits(f, m, cur)
  {
    match cur
    case Nothing => []
    case Pixelless => []
    case RawLines(_, data) => data
    case CopyFrom(sx, sy) => U16(sx) + U16(sy)
    case RreNew(background, subrects) => U32(|subrects|) + (background + SubrectsBytes(f, subrects))
    case RreLeft(subrects) => SubrectsBytes(f, subrects)
    case Tiles(k, tiles) => TilesBytes(f, ColoursOf(m), m.fbu.area, k, tiles)
  }

  /** The canvas once it is finished. */
  function Finished(f: Format, m: Machine, cur: Current): Canvas
    requires Fits(f, m, cur)
  {
    var a, cv := m.fbu.area, CanvasOf(m);
    match cur
    case Nothing => cv
    case Pixelless => cv
    case RawLines(lines, data) => cv.(pic := Blit(f, m.pic, a.x, a.y + (a.h - lines), a.w, lines, data))
    case CopyFrom(sx, sy) => cv.(pic := CopyArea(m.pic, sx, sy, a.x, a.y, a.w, a.h))
    case RreNew(background, subrects) =>
      cv.(pic := PaintSubrects(f, Fill(m.pic, a.x, a.y, a.w, a.h, PixelAt(f, background, 0)), a, subrects))
    case RreLeft(subrects) => cv.(pic := PaintSubrects(f, m.pic, a, subrects))
    case Tiles(k, tiles) => PaintTiles(f, cv, a, k, tiles)
  }

  /** What the client has drawn once it is finished, or has stopped. */
  function SeenFinish(f: Format, m: Machine, cur: Current): (Canvas, Obstacle)
    requires Fits(f, m, cur)
  {
    if cur.Tiles? then SeenTiles(f, CanvasOf(m), m.fbu.area, cur.k, cur.tiles)
    else (Finished(f, m, cur), if cur.Pixelless? then NoPixels else None)
  }

  /** A handler took m with `cur` left to m' with `cur'` left: it drew what it took from the
      queue, finished the rectangle or waits for no more than the rectangle still has, or failed at a
      tile that it refuses. */
  ghost predicate Handled(f: Format, m: Machine, cur: Current, m': Machine,
          ret: Ret, cur': Current, future: seq<byte>, rest: seq<byte>) {
    && Fits(f, m, cur) && Fits(f, m', cur') && m'.done == m.done
    && Finished(f, m', cur') == Finished(f, m, cur) && SeenFinish(f, m', cur') == SeenFinish(f, m, cur)
    && Arrived(m'.queue, future, CurBytes(f, m', cur') + rest)
    && m'.fbu.rects == m.fbu.rects - (if cur'.Nothing? then 1 else 0)
    && (cur'.Nothing? ==> ret == Done)
    && (!cur'.Nothing? ==> 0 < m'.fbu.bytes <= |CurBytes(f, m', cur')|)
    && ret != Thrown && (ret == More && m'.status == Normal ==> |m'.queue| < m'.fbu.bytes)
    && (m'.status != Normal ==> ret == More) && !cur'.Pixelless?
  }

  lemma LinesLeft(line: nat, lines: nat, n: nat, data: seq<byte>)
    requires 0 < n <= lines && line > 0 && |data| == lines * line
    ensures line <= n * line <= |data| && |data[n * line..]| == (lines - n) * line
    ensures n < lines ==> line <= |data[n * line..]|
  {
    assert lines * line == n * line + (lines - n) * line;
    MoreTimes(line, 1, n);
    MoreTimes(line, 1, lines - n);
  }

  lemma PositiveLine(f: Format, a: Area)
    requires a.w > 0
    ensures a.w * Bpp(f) > 0
  {
  }

  lemma RawUnfold(f: Format, m: Machine, lines: nat, line: nat, n: nat)
    requires line == m.fbu.area.w * Bpp(f) && line > 0 && lines > 0
    requires lines == (if m.fbu.lines == 0 then m.fbu.area.h else m.fbu.lines)
    requires n == Min(lines, |m.queue| / line)
    ensures |m.queue| < line ==> RfbParser.Raw(f, m) == (m.(fbu := m.fbu.(lines := lines, bytes := line)), More)
    ensures |m.queue| >= line ==> 0 < n && line <= n * line <= |m.queue|
    ensures |m.queue| >= line ==>
      RfbParser.Raw(f, m) == (m.(queue := m.queue[n * line..],
        fbu := if lines > n then m.fbu.(lines := lines - n, bytes := line)
               else m.fbu.(lines := 0, rects := m.fbu.rects - 1, bytes := 0),
        pic := Blit(f, m.pic, m.fbu.area.x, m.fbu.area.y + (m.fbu.area.h - lines),
            m.fbu.area.w, n, m.queue[..n * line])), Done)
  {
    if |m.queue| >= line { WholeLines(|m.queue|, line, n); }
    hide Blit, Bpp;
  }

  lemma LinesArrived(line: nat, lines: nat, n: nat, queue: seq<byte>,
          future: seq<byte>, data: seq<byte>, rest: seq<byte>)
    requires Arrived(queue, future, data + rest) && 0 < n <= lines && line > 0 && |data| == lines * line
    requires n * line <= |queue|
    ensures n * line <= |data| && queue[..n * line] == data[..n * line] && data == data[..n * line] + data[n * line..]
    ensures Arrived(queue[n * line..], future, data[n * line..] + rest)
  {
    LinesLeft(line, lines, n, data);
    assert (data + rest)[..n * line] == data[..n * line];
    assert (data + rest)[n * line..] == data[n * line..] + rest;
    FromArrived(queue, future, data + rest, 0, n * line);
  }

  lemma RawStep(f: Format, m: Machine, cur: Current, future: seq<byte>, rest: seq<byte>) returns (cur': Current)
    requires cur.RawLines? && Fits(f, m, cur) && Arrived(m.queue, future, CurBytes(f, m, cur) + rest)
    ensures var r := RfbParser.Raw(f, m); Handled(f, m, cur, r.0, r.1, cur', future, rest)
  {
    var lines, data := cur.lines, cur.data;
    RawFits(f, m, cur);
    hide *;
    var line := m.fbu.area.w * Bpp(f);
    var n := AtMost(lines, |m.queue|, line);
    RawUnfold(f, m, lines, line, n);
    if |m.queue| < line {
      RawWaits(f, m, cur, future, rest);
      cur' := cur;
    } else {
      cur' := RawDraws(f, m, cur, line, n, n * line, RfbParser.Raw(f, m).0, future, rest);
    }
  }

  lemma RawDraws(f: Format, m: Machine, cur: Current, line: nat,
          n: nat, p: nat, m': Machine, future: seq<byte>, rest: seq<byte>)
    returns (cur': Current)
    requires cur.RawLines? && Fits(f, m, cur) && Arrived(m.queue, future, cur.data + rest)
    requires line == m.fbu.area.w * Bpp(f) && line > 0 && |cur.data| == cur.lines * line && cur.lines <= m.fbu.area.h
    requires 0 < n <= cur.lines && p == n * line && p <= |m.queue|
    requires var a := m.fbu.area;
            m' == m.(queue := m.queue[p..],
              fbu := if cur.lines > n then m.fbu.(lines := cur.lines - n, bytes := line)
                     else m.fbu.(lines := 0, rects := m.fbu.rects - 1, bytes := 0),
              pic := Blit(f, m.pic, a.x, a.y + (a.h - cur.lines), a.w, n, m.queue[..p]))
    ensures Handled(f, m, cur, m', Done, cur', future, rest)
  {
    hide *;
    LinesArrived(line, cur.lines, n, m.queue, future, cur.data, rest);
    LinesLeft(line, cur.lines, n, cur.data);
    BlitBands(f, m.pic, m.fbu.area, cur.lines, n, cur.data);
    cur' := RawBand(f, m, cur, n, p, cur.data[p..], m', future, rest);
  }

  lemma AtMost(lines: nat, q: nat, line: nat) returns (n: nat)
    requires line > 0
    ensures n == Min(lines, q / line) <= lines
  {
    n := Min(lines, q / line);
  }

  lemma RawFits(f: Format, m: Machine, cur: Current)
    requires cur.RawLines? && Fits(f, m, cur)
    ensures m.fbu.area.w * Bpp(f) > 0 && 0 < cur.lines <= m.fbu.area.h
        && |cur.data| == cur.lines * (m.fbu.area.w * Bpp(f))
    ensures cur.lines == (if m.fbu.lines == 0 then m.fbu.area.h else m.fbu.lines) && CurBytes(f, m, cur) == cur.data
  {
    PositiveLine(f, m.fbu.area);
  }

  lemma RawWaits(f: Format, m: Machine, cur: Current, future: seq<byte>, rest: seq<byte>)
    requires cur.RawLines? && Fits(f, m, cur) && Arrived(m.queue, future, CurBytes(f, m, cur) + rest)
    requires |m.queue| < m.fbu.area.w * Bpp(f)
    ensures Handled(f, m, cur,
        m.(fbu := m.fbu.(lines := cur.lines, bytes := m.fbu.area.w * Bpp(f))), More, cur, future, rest)
  {
    PositiveLine(f, m.fbu.area);
    LinesLeft(m.fbu.area.w * Bpp(f), cur.lines, 1, cur.data);
    hide Blit, Bpp, Arrived;
  }

  lemma RawBand(f: Format, m: Machine, cur: Current, n: nat, p: nat,
          left: seq<byte>, m': Machine, future: seq<byte>, rest: seq<byte>)
    returns (cur': Current)
    requires cur.RawLines? && Fits(f, m, cur) && 0 < n <= cur.lines
    requires p == n * (m.fbu.area.w * Bpp(f)) && p <= |m.queue|
    requires |left| == (cur.lines - n) * (m.fbu.area.w * Bpp(f)) && Arrived(m.queue[p..], future, left + rest)
    requires n < cur.lines ==> m.fbu.area.w * Bpp(f) <= |left|
    requires var a, y := m.fbu.area, m.fbu.area.y + (m.fbu.area.h - cur.lines);
             && |m.queue[..p]| == n * (a.w * Bpp(f)) && |cur.data| == cur.lines * (a.w * Bpp(f))
             && Blit(f, m.pic, a.x, y, a.w, cur.lines, cur.data)
                == Blit(f, Blit(f, m.pic, a.x, y, a.w, n, m.queue[..p]), a.x, y + n, a.w, cur.lines - n, left)
             && (n == cur.lines ==> m.queue[..p] == cur.data)
    requires var a := m.fbu.area;
            m' == m.(queue := m.queue[p..],
              fbu := if cur.lines > n then m.fbu.(lines := cur.lines - n, bytes := a.w * Bpp(f))
                     else m.fbu.(lines := 0, rects := m.fbu.rects - 1, bytes := 0),
              pic := Blit(f, m.pic, a.x, a.y + (a.h - cur.lines), a.w, n, m.queue[..p]))
    ensures Handled(f, m, cur, m', Done, cur', future, rest)
  {
    hide *;
    RawFinished(f, m, cur);
    if n == cur.lines {
      NoLines(cur.lines, n, m.fbu.area.w * Bpp(f));
      cur' := Nothing;
      RawEnd(f, m, cur, p, m', future, rest, left);
    } else {
      cur' := RawLines(cur.lines - n, left);
      RawMore(f, m, cur, n, p, left, m', future, rest);
    }
  }

  lemma NoLines(lines: nat, n: nat, line: int)
    ensures lines == n ==> (lines - n) * line == 0
  {
  }

  lemma RawFinished(f: Format, m: Machine, cur: Current)
    requires cur.RawLines? && Fits(f, m, cur)
    ensures |cur.data| == cur.lines * (m.fbu.area.w * Bpp(f))
    ensures Finished(f, m, cur).pic
         == Blit(f, m.pic, m.fbu.area.x, m.fbu.area.y + (m.fbu.area.h - cur.lines), m.fbu.area.w, cur.lines, cur.data)
  {
    hide Bpp, Blit;
  }

  lemma RawEnd(f: Format, m: Machine, cur: Current, p: nat,
          m': Machine, future: seq<byte>, rest: seq<byte>, left: seq<byte>)
    requires cur.RawLines? && Fits(f, m, cur) && left == [] && p <= |m.queue|
    requires Arrived(m.queue[p..], future, left + rest)
    requires m' == m.(queue := m.queue[p..], fbu := m.fbu.(lines := 0, rects := m.fbu.rects - 1, bytes := 0),
                      pic := Finished(f, m, cur).pic)
    ensures Handled(f, m, cur, m', Done, Nothing, future, rest)
  {
    hide Blit, Bpp, Arrived;
  }

  lemma RawMore(f: Format, m: Machine, cur: Current, n: nat, p: nat,
          left: seq<byte>, m': Machine, future: seq<byte>, rest: seq<byte>)
    requires cur.RawLines? && Fits(f, m, cur) && 0 < n < cur.lines && p <= |m.queue|
    requires Arrived(m.queue[p..], future, left + rest)
    requires |left| == (cur.lines - n) * (m.fbu.area.w * Bpp(f)) && m.fbu.area.w * Bpp(f) <= |left|
    requires m' == m.(queue := m.queue[p..],
        fbu := m.fbu.(lines := cur.lines - n, bytes := m.fbu.area.w * Bpp(f)), pic := m'.pic)
    requires var a, y := m.fbu.area, m.fbu.area.y + (m.fbu.area.h - cur.lines);
             Finished(f, m, cur).pic == Blit(f, m'.pic, a.x, y + n, a.w, cur.lines - n, left)
    ensures Handled(f, m, cur, m', Done, RawLines(cur.lines - n, left), future, rest)
  {
    PositiveLine(f, m.fbu.area);
    hide Blit, Bpp, Arrived;
  }

  /** The rows drawn now and the rows left make the rows that were left. */
  lemma BlitBands(f: Format, pic: Picture, a: Area, lines: nat, n: nat, data: seq<byte>)
    requires 0 < n <= lines <= a.h && |data| == lines * (a.w * Bpp(f)) && a.w * Bpp(f) > 0
    ensures n * (a.w * Bpp(f)) <= |data| && |data[n * (a.w * Bpp(f))..]| == (lines - n) * (a.w * Bpp(f))
    ensures var y, p := a.y + (a.h - lines), n * (a.w * Bpp(f));
            && Blit(f, pic, a.x, y, a.w, lines, data)
               == Blit(f, Blit(f, pic, a.x, y, a.w, n, data[..p]), a.x, y + n, a.w, lines - n, data[p..])
            && (n == lines ==> data[..p] == data)
  {
    hide Blit, Bpp;
    var p := n * (a.w * Bpp(f));
    LinesLeft(a.w * Bpp(f), lines, n, data);
    BlitSplit(f, pic, a.x, a.y + (a.h - lines), a.w, n, lines - n, data[..p], data[p..]);
    assert data == data[..p] + data[p..];
  }

  lemma Words(v: nat, w: nat, tail: seq<byte>)
    requires v < 0x1_0000 && w < 0x1_0000
    ensures var q := (U16(v) + U16(w)) + tail;
            Shift16(q, 0) == v && Shift16(q, 2) == w && q[4..] == tail
  {
  }

  lemma CopyStep(f: Format, m: Machine, cur: Current, future: seq<byte>, rest: seq<byte>) returns (cur': Current)
    requires cur.CopyFrom? && Fits(f, m, cur) && Arrived(m.queue, future, CurBytes(f, m, cur) + rest)
    ensures var r := Copy(f, m); Handled(f, m, cur, r.0, r.1, cur', future, rest)
  {
    hide CopyArea;
    if |m.queue| < 4 {
      cur' := cur;
    } else {
      cur' := Nothing;
      TailArrived(m.queue, future, U16(cur.sx) + U16(cur.sy), rest);
      Words(cur.sx, cur.sy, m.queue[4..]);
    }
  }

  /* RRE */

  lemma SubrectSize(f: Format, s: Subrect)
    requires ValidSubrect(f, s)
    ensures s.x < 0x1_0000 && s.y < 0x1_0000 && s.w < 0x1_0000 && s.h < 0x1_0000
    ensures |s.colour| == Bpp(f) && |SubrectBytes(s)| == Bpp(f) + 8
  {
    hide Bpp;
  }

  lemma SubrectsStep(f: Format, pic: Picture, a: Area, ss: seq<Subrect>)
    requires ss != [] && ValidSubrects(f, ss)
    ensures ValidSubrect(f, ss[0]) && ValidSubrects(f, ss[1..])
    ensures ss[0].x < 0x1_0000 && ss[0].y < 0x1_0000 && ss[0].w < 0x1_0000 && ss[0].h < 0x1_0000
    ensures |ss[0].colour| == Bpp(f) && |SubrectBytes(ss[0])| == Bpp(f) + 8
    ensures SubrectsBytes(f, ss) == SubrectBytes(ss[0]) + SubrectsBytes(f, ss[1..])
    ensures PaintSubrects(f, pic, a, ss)
         == PaintSubrects(f, Fill(pic, a.x + ss[0].x, a.y + ss[0].y, ss[0].w, ss[0].h, PixelAt(f, ss[0].colour, 0)),
             a, ss[1..])
  {
    hide Fill, PixelAt, Bpp, ValidSubrect, SubrectBytes;
    FirstValid(f, ss);
    SubrectSize(f, ss[0]);
  }

  lemma FirstValid(f: Format, ss: seq<Subrect>)
    requires ss != [] && ValidSubrects(f, ss)
    ensures ValidSubrect(f, ss[0]) && ValidSubrects(f, ss[1..])
  {
    hide ValidSubrect;
  }

  lemma {:induction false} SubrectsSize(f: Format, ss: seq<Subrect>)
    requires ValidSubrects(f, ss)
    ensures |SubrectsBytes(f, ss)| == |ss| * (Bpp(f) + 8)
    decreases ss
  {
    if ss != [] {
      SubrectsStep(f, [], Area(0, 0, 0, 0), ss);
      SubrectsSize(f, ss[1..]);
      Peel(|ss|, Bpp(f) + 8);
    }
  }

  lemma ReadsWords(c: seq<byte>, x: nat, y: nat, w: nat, h: nat, more: seq<byte>)
    requires x < 0x1_0000 && y < 0x1_0000 && w < 0x1_0000 && h < 0x1_0000
    ensures var q := (c + (U16(x) + (U16(y) + (U16(w) + U16(h))))) + more;
            && Shift16(q, |c|) == x && Shift16(q, |c| + 2) == y && Shift16(q, |c| + 4) == w && Shift16(q, |c| + 6) == h
            && q[..|c|] == c && q[|c| + 8..] == more
  {
    var q := (c + (U16(x) + (U16(y) + (U16(w) + U16(h))))) + more;
    assert q == c + U16(x) + U16(y) + U16(w) + U16(h) + more;
  }

  lemma FirstPixel(f: Format, q: seq<byte>, i: nat, c: seq<byte>)
    requires |c| == Bpp(f) && i + |c| <= |q| && q[i..i + |c|] == c
    ensures PixelAt(f, q, i) == PixelAt(f, c, 0)
  {
    assert forall k :: 0 <= k < |c| ==> q[i + k] == c[k];
  }

  lemma DrawsSubrect(f: Format, m: Machine, s: Subrect, more: seq<byte>)
    requires ValidSubrect(f, s) && m.queue == SubrectBytes(s) + more
    ensures |m.queue| >= Bpp(f) + 8
    ensures DrawSubrect(f, m) == m.(queue := more, fbu := m.fbu.(subrects := m.fbu.subrects - 1),
      pic := Fill(m.pic, m.fbu.area.x + s.x, m.fbu.area.y + s.y, s.w, s.h, PixelAt(f, s.colour, 0)))
  {
    hide Fill, PixelAt, Bpp, Shift16, SubrectBytes, ValidSubrect;
    SubrectReads(f, m.queue, s, more);
    FirstPixel(f, m.queue, 0, s.colour);
  }

  lemma SubrectReads(f: Format, q: seq<byte>, s: Subrect, more: seq<byte>)
    requires ValidSubrect(f, s) && q == SubrectBytes(s) + more
    ensures |s.colour| == Bpp(f) && |q| >= Bpp(f) + 8 && q[..Bpp(f)] == s.colour && q[Bpp(f) + 8..] == more
    ensures Shift16(q, Bpp(f)) == s.x && Shift16(q, Bpp(f) + 2) == s.y
    ensures Shift16(q, Bpp(f) + 4) == s.w && Shift16(q, Bpp(f) + 6) == s.h
  {
    hide Bpp, Shift16, U16;
    ReadsWords(s.colour, s.x, s.y, s.w, s.h, more);
  }

  lemma RreUnfold(f: Format, m: Machine)
    requires m.fbu.subrects > 0 && |m.queue| >= Bpp(f) + 8
    ensures RreSubrects(f, m) == RreSubrects(f, DrawSubrect(f, m))
  {
    hide DrawSubrect, Bpp;
  }

  lemma RreStops(f: Format, m: Machine)
    requires m.fbu.subrects <= 0 || |m.queue| < Bpp(f) + 8
    ensures RreSubrects(f, m) == m
  {
    hide DrawSubrect;
  }

  /** The loop over RRE subrectangles draws those that have arrived whole. */
  lemma {:induction false} RreLoop(f: Format, m: Machine, ss: seq<Subrect>, future: seq<byte>, rest: seq<byte>)
    returns (m': Machine, ss': seq<Subrect>)
    requires ValidSubrects(f, ss) && m.fbu.subrects == |ss| && Arrived(m.queue, future, SubrectsBytes(f, ss) + rest)
    ensures RreSubrects(f, m) == m' && ValidSubrects(f, ss')
    ensures m' == m.(queue := m'.queue, pic := m'.pic, fbu := m.fbu.(subrects := |ss'|))
    ensures Arrived(m'.queue, future, SubrectsBytes(f, ss') + rest)
    ensures PaintSubrects(f, m'.pic, m.fbu.area, ss') == PaintSubrects(f, m.pic, m.fbu.area, ss)
    decreases |ss|
  {
    hide *;
    if ss == [] || |m.queue| < Bpp(f) + 8 {
      RreStops(f, m);
      m', ss' := m, ss;
    } else {
      SubrectsStep(f, m.pic, m.fbu.area, ss);
      var s, tail := ss[0], SubrectsBytes(f, ss[1..]);
      assert (SubrectBytes(s) + tail) + rest == SubrectBytes(s) + (tail + rest);
      TailArrived(m.queue, future, SubrectBytes(s), tail + rest);
      var more := m.queue[Bpp(f) + 8..];
      DrawsSubrect(f, m, s, more);
      RreUnfold(f, m);
      m', ss' := RreLoop(f, m.(queue := more, fbu := m.fbu.(subrects := m.fbu.subrects - 1),
        pic := Fill(m.pic, m.fbu.area.x + s.x, m.fbu.area.y + s.y, s.w, s.h, PixelAt(f, s.colour, 0))),
            ss[1..], future, rest);
    }
  }

  /** The bytes asked for before the next subrectangles are those of a hundred of them, or of
      all that are left. */
  lemma ChunkLeft(f: Format, ss: seq<Subrect>)
    requires ValidSubrects(f, ss) && ss != []
    ensures 0 < (Bpp(f) + 8) * Min(RRE_CHUNK, |ss|) <= |SubrectsBytes(f, ss)|
  {
    SubrectsSize(f, ss);
    var b, n := Bpp(f) + 8, Min(RRE_CHUNK, |ss|);
    hide *;
    MoreTimes(b, n, |ss|);
    MoreTimes(b, 1, n);
  }

  /** A machine in front of RRE subrectangles. */
  predicate AtSubrects(f: Format, m: Machine, ss: seq<Subrect>) {
    && m.status == Normal && m.fbu.rects > 0 && m.fbu.encoding == 2 && m.fbu.lines == 0 && m.fbu.tiles == 0
    && m.fbu.subrects == |ss| && ValidSubrects(f, ss)
  }

  function SubrectsLeft(ss: seq<Subrect>): Current {
    if ss == [] then Nothing else RreLeft(ss)
  }

  /** RreRest after its loop. */
  function RreEnds(f: Format, n: Machine, left: int): Machine {
    n.(fbu := if left > 0 then n.fbu.(bytes := (Bpp(f) + 8) * Min(RRE_CHUNK, left))
        else n.fbu.(rects := n.fbu.rects - 1, bytes := 0))
  }

  lemma RreRestUnfold(f: Format, m: Machine, n: Machine)
    requires RreSubrects(f, m) == n
    ensures RreRest(f, m) == (RreEnds(f, n, n.fbu.subrects), Done)
  {
    hide RreSubrects;
  }

  lemma RreEndsFits(f: Format, n: Machine, ss: seq<Subrect>)
    requires AtSubrects(f, n, ss)
    ensures var m', cur' := RreEnds(f, n, |ss|), SubrectsLeft(ss);
            && Fits(f, m', cur') && m'.done == n.done && m'.queue == n.queue
            && CurBytes(f, m', cur') == SubrectsBytes(f, ss)
            && Finished(f, m', cur') == CanvasOf(n).(pic := PaintSubrects(f, n.pic, n.fbu.area, ss))
            && m'.fbu.rects == n.fbu.rects - (if cur'.Nothing? then 1 else 0)
            && (!cur'.Nothing? ==> 0 < m'.fbu.bytes <= |CurBytes(f, m', cur')|)
  {
    hide PaintSubrects, SubrectsBytes, ValidSubrects, Bpp;
    if ss == [] { NoSubrects(f, n.pic, n.fbu.area); } else { ChunkLeft(f, ss); }
  }

  lemma NoSubrects(f: Format, pic: Picture, a: Area)
    ensures ValidSubrects(f, []) && SubrectsBytes(f, []) == [] && PaintSubrects(f, pic, a, []) == pic
  {
  }

  lemma RestHandled(f: Format, m: Machine, cur: Current,
          m1: Machine, ss: seq<Subrect>, future: seq<byte>, rest: seq<byte>)
    returns (cur': Current)
    requires !cur.Tiles? && !cur.Pixelless? && Fits(f, m, cur) && AtSubrects(f, m1, ss)
        && Arrived(m1.queue, future, SubrectsBytes(f, ss) + rest)
    requires m1.done == m.done && m1.fbu.rects == m.fbu.rects
    requires Finished(f, m, cur) == CanvasOf(m1).(pic := PaintSubrects(f, m1.pic, m1.fbu.area, ss))
    ensures var r := RreRest(f, m1); Handled(f, m, cur, r.0, r.1, cur', future, rest)
  {
    hide *;
    AtSubrectsIs(f, m1, ss);
    var n, ss' := RreLoop(f, m1, ss, future, rest);
    RreRestUnfold(f, m1, n);
    StillAtSubrects(f, m1, ss, n, ss');
    RreEndsFits(f, n, ss');
    cur' := SubrectsLeft(ss');
    NoTilesLeft(ss');
    SeenIs(f, RreEnds(f, n, |ss'|), cur');
    SeenIs(f, m, cur);
    IsHandled(f, m, cur, RreEnds(f, n, |ss'|), Done, cur', future, rest);
  }

  lemma NoTilesLeft(ss: seq<Subrect>)
    ensures !SubrectsLeft(ss).Tiles? && !SubrectsLeft(ss).Pixelless?
  {
  }

  /** Other rectangles are never refused. */
  lemma SeenIs(f: Format, m: Machine, cur: Current)
    requires !cur.Tiles? && !cur.Pixelless? && Fits(f, m, cur)
    ensures SeenFinish(f, m, cur) == (Finished(f, m, cur), None) && m.status == Normal
  {
    hide Finished;
  }

  lemma AtSubrectsIs(f: Format, m: Machine, ss: seq<Subrect>)
    requires AtSubrects(f, m, ss)
    ensures m.fbu.subrects == |ss| && ValidSubrects(f, ss)
  {
  }

  lemma StillAtSubrects(f: Format, m: Machine, ss: seq<Subrect>, n: Machine, ss': seq<Subrect>)
    requires AtSubrects(f, m, ss) && ValidSubrects(f, ss')
    requires n == m.(queue := n.queue, pic := n.pic, fbu := m.fbu.(subrects := |ss'|))
    ensures AtSubrects(f, n, ss') && n.done == m.done && n.fbu.rects == m.fbu.rects && n.fbu.area == m.fbu.area
    ensures CanvasOf(n).colours == CanvasOf(m).colours
  {
    hide ValidSubrects;
  }

  lemma IsHandled(f: Format, m: Machine, cur: Current, m': Machine,
          ret: Ret, cur': Current, future: seq<byte>, rest: seq<byte>)
    requires Fits(f, m, cur) && Fits(f, m', cur') && m'.done == m.done && Finished(f, m', cur') == Finished(f, m, cur)
    requires SeenFinish(f, m', cur') == SeenFinish(f, m, cur)
    requires Arrived(m'.queue, future, CurBytes(f, m', cur') + rest)
    requires m'.fbu.rects == m.fbu.rects - (if cur'.Nothing? then 1 else 0)
    requires cur'.Nothing? ==> ret == Done
    requires !cur'.Nothing? ==> 0 < m'.fbu.bytes <= |CurBytes(f, m', cur')|
    requires ret != Thrown && (ret == More && m'.status == Normal ==> |m'.queue| < m'.fbu.bytes)
    requires m'.status != Normal ==> ret == More
    requires !cur'.Pixelless?
    ensures Handled(f, m, cur, m', ret, cur', future, rest)
  {
    hide Fits, Finished, SeenFinish, CurBytes, Arrived;
  }

  /** The number of subrectangles and the background. */
  lemma ReadsRreHead(f: Format, n: nat, background: seq<byte>, more: seq<byte>)
    requires n < 0x8000_0000 && |background| == Bpp(f)
    ensures var q := (U32(n) + background) + more;
            Shift32(q, 0) == n && PixelAt(f, q, 4) == PixelAt(f, background, 0) && q[4 + Bpp(f)..] == more
  {
    var q := (U32(n) + background) + more;
    hide Bpp, PixelAt;
    assert q == U32(n) + background + more;
    FirstPixel(f, q, 4, background);
    Reads32(q, n);
  }

  lemma Reads32(q: seq<byte>, n: nat)
    requires n < 0x8000_0000 && |q| >= 4 && q[..4] == U32(n)
    ensures Shift32(q, 0) == n
  {
    var b := U32(n);
    assert q[0] == b[0] && q[1] == b[1] && q[2] == b[2] && q[3] == b[3];
    SmallWord(b[0], b[1]);
  }

  lemma SmallWord(a: byte, b: byte)
    requires a < 128
    ensures 0 <= (a * 256 + b) * 0x1_0000 < 0x8000_0000
    ensures ToInt32((a * 256 + b) * 0x1_0000) == (a * 256 + b) * 0x1_0000
  {
  }

  lemma RreHeadUnfold(f: Format, m: Machine, n: nat, background: seq<byte>, more: seq<byte>, m1: Machine)
    requires m.fbu.subrects == 0 && n < 0x8000_0000 && |background| == Bpp(f) && m.queue == (U32(n) + background) + more
    requires m1 == m.(queue := more, fbu := m.fbu.(subrects := n, bytes := 4 + Bpp(f)),
                      pic := Fill(m.pic, m.fbu.area.x, m.fbu.area.y,
                          m.fbu.area.w, m.fbu.area.h, PixelAt(f, background, 0)))
    ensures RfbParser.Rre(f, m) == RreRest(f, m1)
  {
    hide Fill, PixelAt, Bpp, RreRest, Shift32;
    ReadsRreHead(f, n, background, more);
  }

  lemma RreNewFits(f: Format, m: Machine, cur: Current)
    requires cur.RreNew? && Fits(f, m, cur)
    ensures m.fbu.subrects == 0 && |cur.background| == Bpp(f)
        && |cur.subrects| < 0x8000_0000 && ValidSubrects(f, cur.subrects)
    ensures CurBytes(f, m, cur) == U32(|cur.subrects|) + (cur.background + SubrectsBytes(f, cur.subrects))
  {
    hide Bpp, SubrectsBytes, ValidSubrects;
  }

  lemma HeadOf(a: seq<byte>, b: seq<byte>, c: seq<byte>, d: seq<byte>)
    ensures (a + (b + c)) + d == (a + b) + (c + d)
  {
  }

  lemma RreNewWaits(f: Format, m: Machine, cur: Current, future: seq<byte>, rest: seq<byte>)
    requires cur.RreNew? && Fits(f, m, cur) && Arrived(m.queue, future, CurBytes(f, m, cur) + rest)
    requires |m.queue| < 4 + Bpp(f)
    ensures var r := RfbParser.Rre(f, m); Handled(f, m, cur, r.0, r.1, cur, future, rest)
  {
    var m' := m.(fbu := m.fbu.(bytes := 4 + Bpp(f)));
    hide Fill, PixelAt, Bpp, SubrectsBytes, PaintSubrects, ValidSubrects, Arrived, RreRest, Handled;
    assert RfbParser.Rre(f, m) == (m', More);
    IsHandled(f, m, cur, m', More, cur, future, rest);
  }

  lemma RreNewAt(f: Format, m: Machine, cur: Current, queue: seq<byte>) returns (m1: Machine)
    requires cur.RreNew? && Fits(f, m, cur)
    ensures m1 == m.(queue := queue, fbu := m.fbu.(subrects := |cur.subrects|, bytes := 4 + Bpp(f)),
                     pic := Fill(m.pic, m.fbu.area.x, m.fbu.area.y,
                         m.fbu.area.w, m.fbu.area.h, PixelAt(f, cur.background, 0)))
    ensures AtSubrects(f, m1, cur.subrects) && m1.done == m.done && m1.fbu.rects == m.fbu.rects
    ensures Finished(f, m, cur) == CanvasOf(m1).(pic := PaintSubrects(f, m1.pic, m1.fbu.area, cur.subrects))
  {
    hide Fill, PixelAt, Bpp, ValidSubrects, PaintSubrects;
    m1 := m.(queue := queue, fbu := m.fbu.(subrects := |cur.subrects|, bytes := 4 + Bpp(f)),
             pic := Fill(m.pic, m.fbu.area.x, m.fbu.area.y, m.fbu.area.w, m.fbu.area.h, PixelAt(f, cur.background, 0)));
  }

  lemma RreNewStep(f: Format, m: Machine, cur: Current, future: seq<byte>, rest: seq<byte>) returns (cur': Current)
    requires cur.RreNew? && Fits(f, m, cur) && Arrived(m.queue, future, CurBytes(f, m, cur) + rest)
    ensures var r := RfbParser.Rre(f, m); Handled(f, m, cur, r.0, r.1, cur', future, rest)
  {
    hide *;
    RreNewFits(f, m, cur);
    if |m.queue| < 4 + Bpp(f) {
      cur' := cur;
      RreNewWaits(f, m, cur, future, rest);
    } else {
      HeadOf(U32(|cur.subrects|), cur.background, SubrectsBytes(f, cur.subrects), rest);
      var head := U32(|cur.subrects|) + cur.background;
      TailArrived(m.queue, future, head, SubrectsBytes(f, cur.subrects) + rest);
      var more := m.queue[|head|..];
      var m1 := RreNewAt(f, m, cur, more);
      RreHeadUnfold(f, m, |cur.subrects|, cur.background, more, m1);
      cur' := RestHandled(f, m, cur, m1, cur.subrects, future, rest);
    }
  }

  lemma RreLeftAt(f: Format, m: Machine, cur: Current)
    requires cur.RreLeft? && Fits(f, m, cur)
    ensures AtSubrects(f, m, cur.subrects) && RfbParser.Rre(f, m) == RreRest(f, m)
    ensures CurBytes(f, m, cur) == SubrectsBytes(f, cur.subrects)
    ensures Finished(f, m, cur) == CanvasOf(m).(pic := PaintSubrects(f, m.pic, m.fbu.area, cur.subrects))
  {
    hide RreRest, Bpp, ValidSubrects, PaintSubrects, SubrectsBytes;
  }

  lemma RreLeftStep(f: Format, m: Machine, cur: Current, future: seq<byte>, rest: seq<byte>) returns (cur': Current)
    requires cur.RreLeft? && Fits(f, m, cur) && Arrived(m.queue, future, CurBytes(f, m, cur) + rest)
    ensures var r := RfbParser.Rre(f, m); Handled(f, m, cur, r.0, r.1, cur', future, rest)
  {
    hide *;
    RreLeftAt(f, m, cur);
    cur' := RestHandled(f, m, cur, m, cur.subrects, future, rest);
  }

  /* Hextile */

  lemma {:induction false} TilesLeft(f: Format, c: Colours, a: Area, k: nat, tiles: seq<Tile>)
    requires ValidTiles(f, c, a, k, tiles)
    ensures k + |tiles| == TileCount(a)
    decreases |tiles|
  {
    hide TileCount, ValidTile, TileArea;
    if tiles != [] { TilesLeft(f, After(c, tiles[0]), a, k + 1, tiles[1..]); }
  }

  /** The machine with the tile counters set. */
  lemma TilesBegin(f: Format, m: Machine, cur: Current) returns (m1: Machine)
    requires cur.Tiles? && Fits(f, m, cur)
    ensures AtTile(f, m1, m.fbu.area, cur.k, cur.tiles) && (cur.tiles == [] ==> m1.fbu.bytes == 0)
    ensures SameElse(m, m1) && m1.fbu.rects == m.fbu.rects && m1.queue == m.queue && m1.status == m.status
    ensures ColoursOf(m1) == ColoursOf(m) && CanvasOf(m1) == CanvasOf(m)
    ensures m1 == if m.fbu.tiles > 0 then m
      else m.(fbu := m.fbu.(across := TilesAcross(m.fbu.area.w),
          total := TileCount(m.fbu.area), tiles := TileCount(m.fbu.area)))
    ensures CurBytes(f, m, cur) == TilesBytes(f, ColoursOf(m), m.fbu.area, cur.k, cur.tiles)
    ensures Finished(f, m, cur) == PaintTiles(f, CanvasOf(m), m.fbu.area, cur.k, cur.tiles)
    ensures SeenFinish(f, m, cur) == SeenTiles(f, CanvasOf(m), m.fbu.area, cur.k, cur.tiles)
  {
    hide ValidTiles, TilesBytes, PaintTiles, SeenTiles, TilesAcross, TileCount;
    TilesLeft(f, ColoursOf(m), m.fbu.area, cur.k, cur.tiles);
    m1 := if m.fbu.tiles > 0 then m
      else m.(fbu := m.fbu.(across := TilesAcross(m.fbu.area.w),
          total := TileCount(m.fbu.area), tiles := TileCount(m.fbu.area)));
  }

  lemma HextileUnfold(f: Format, m: Machine, m1: Machine, m2: Machine, ret: Ret)
    requires Coherent(m) && m.fbu.encoding == 5 && m.fbu.rects > 0
    requires m1 == if m.fbu.tiles > 0 then m
      else m.(fbu := m.fbu.(across := TilesAcross(m.fbu.area.w),
          total := TileCount(m.fbu.area), tiles := TileCount(m.fbu.area)))
    requires m1.fbu.tiles > 0 ==> Coherent(m1.(fbu := m1.fbu.(bytes := 1)))
    requires HexTiles(f, m1) == (m2, ret)
    ensures RfbParser.Hextile(f, m) == (if ret == Done then m2.(fbu := m2.fbu.(rects := m2.fbu.rects - 1)) else m2, ret)
  {
    hide HexTiles, TilesAcross, TileCount;
  }

  lemma TilesDone(f: Format, m: Machine, a: Area, k: nat)
    requires AtTile(f, m, a, k, []) && m.status == Normal && m.fbu.bytes == 0 && m.fbu.lines == 0 && m.fbu.subrects == 0
    ensures var m' := m.(fbu := m.fbu.(rects := m.fbu.rects - 1));
            && Fits(f, m', Nothing) && CurBytes(f, m', Nothing) == [] && Finished(f, m', Nothing) == CanvasOf(m)
            && TilesBytes(f, ColoursOf(m), a, k, []) == [] && PaintTiles(f, CanvasOf(m), a, k, []) == CanvasOf(m)
            && SeenFinish(f, m', Nothing) == SeenTiles(f, CanvasOf(m), a, k, []) == (CanvasOf(m), None)
  {
    hide TileCount;
  }

  lemma TilesGoOn(f: Format, m: Machine, a: Area, k: nat, tiles: seq<Tile>)
    requires AtTile(f, m, a, k, tiles) && tiles != [] && m.fbu.lines == 0 && m.fbu.subrects == 0
    requires m.status == Normal || Stuck(m, tiles)
    ensures Fits(f, m, Tiles(k, tiles)) && Finished(f, m, Tiles(k, tiles)) == PaintTiles(f, CanvasOf(m), a, k, tiles)
    ensures SeenFinish(f, m, Tiles(k, tiles)) == SeenTiles(f, CanvasOf(m), a, k, tiles)
    ensures CurBytes(f, m, Tiles(k, tiles)) == TilesBytes(f, ColoursOf(m), a, k, tiles)
  {
    hide ValidTiles, TilesBytes, PaintTiles, SeenTiles, Stuck;
  }

  lemma TilesRest(f: Format, m: Machine, cur: Current)
    requires cur.Tiles? && Fits(f, m, cur)
    ensures m.fbu.encoding == 5 && m.fbu.lines == 0 && m.fbu.subrects == 0 && m.fbu.rects > 0
  {
  }

  lemma SameElseIs(m: Machine, m': Machine)
    requires SameElse(m, m')
    ensures m'.fbu.area == m.fbu.area && m'.fbu.lines == m.fbu.lines
        && m'.fbu.subrects == m.fbu.subrects && m'.done == m.done
  {
  }

  lemma HexStep(f: Format, m: Machine, cur: Current, future: seq<byte>, rest: seq<byte>) returns (cur': Current)
    requires cur.Tiles? && m.status == Normal && Fits(f, m, cur)
        && Coherent(m) && Arrived(m.queue, future, CurBytes(f, m, cur) + rest)
    ensures m.fbu.encoding == 5 && m.fbu.rects > 0
    ensures var r := RfbParser.Hextile(f, m); Handled(f, m, cur, r.0, r.1, cur', future, rest)
  {
    hide *;
    TilesRest(f, m, cur);
    var a := m.fbu.area;
    var m1 := TilesBegin(f, m, cur);
    var m2, ret, k', tiles' := HexLoop(f, m1, a, cur.k, cur.tiles, future, rest);
    SameElseIs(m, m1);
    SameElseIs(m1, m2);
    HextileUnfold(f, m, m1, m2, ret);
    if ret == Done {
      TilesDone(f, m2, a, k');
      cur' := Nothing;
      IsHandled(f, m, cur, m2.(fbu := m2.fbu.(rects := m2.fbu.rects - 1)), ret, cur', future, rest);
    } else {
      TilesGoOn(f, m2, a, k', tiles');
      cur' := Tiles(k', tiles');
      IsHandled(f, m, cur, m2, ret, cur', future, rest);
    }
  }

  /** The handler of a Raw rectangle without pixels throws, or waits for a row of it that never comes. */
  lemma PixellessStep(f: Format, m: Machine)
    requires Fits(f, m, Pixelless)
    ensures m.fbu.encoding == 0 && m.fbu.rects > 0 && m.fbu.tiles == 0
    ensures var r, line := RfbParser.Raw(f, m), m.fbu.area.w * Bpp(f);
      && (r.1 == Thrown || (r.1 == More && m.fbu.area.h == 0 && |m.queue| < line))
      && r.0 == m.(fbu := m.fbu.(lines := m.fbu.area.h, bytes := line))
      && (r.1 == More ==> Fits(f, r.0, Pixelless))
  {
    EmptyRow(f, m.fbu.area.w);
    hide Bpp, Blit, DrawLines;
  }

  lemma EmptyRow(f: Format, w: nat)
    ensures w * Bpp(f) >= 0 && (w == 0 ==> w * Bpp(f) == 0)
  {
  }

  /** Every handler, at every point of its rectangle. */
  lemma HandleStep(f: Format, m: Machine, cur: Current, future: seq<byte>, rest: seq<byte>) returns (cur': Current)
    requires !cur.Nothing? && !cur.Pixelless? && m.status == Normal && Fits(f, m, cur)
        && Coherent(m) && Arrived(m.queue, future, CurBytes(f, m, cur) + rest)
    ensures Modelled(m.fbu.encoding) && m.fbu.rects > 0
    ensures var r := Handle(f, m); Handled(f, m, cur, r.0, r.1, cur', future, rest)
  {
    hide *;
    EncodingOf(f, m, cur);
    HandleUnfold(f, m);
    match cur {
      case RawLines(_, _) => cur' := RawStep(f, m, cur, future, rest);
      case CopyFrom(_, _) => cur' := CopyStep(f, m, cur, future, rest);
      case RreNew(_, _) => cur' := RreNewStep(f, m, cur, future, rest);
      case RreLeft(_) => cur' := RreLeftStep(f, m, cur, future, rest);
      case Tiles(_, _) => cur' := HexStep(f, m, cur, future, rest);
    }
  }

  lemma EncodingOf(f: Format, m: Machine, cur: Current)
    requires !cur.Nothing? && Fits(f, m, cur)
    ensures m.fbu.rects > 0 && Modelled(m.fbu.encoding)
    ensures m.fbu.encoding == match cur
      case RawLines(_, _) => 0
      case Pixelless => 0
      case CopyFrom(_, _) => 1
      case RreNew(_, _) => 2
      case RreLeft(_) => 2
      case _ => 5
  {
    hide Bpp, ValidSubrects, ValidTiles;
  }

  lemma HandleUnfold(f: Format, m: Machine)
    requires Coherent(m) && m.fbu.rects > 0
    ensures m.fbu.encoding == 0 ==> Handle(f, m) == RfbParser.Raw(f, m)
    ensures m.fbu.encoding == 1 ==> Handle(f, m) == Copy(f, m)
    ensures m.fbu.encoding == 2 ==> Handle(f, m) == RfbParser.Rre(f, m)
    ensures m.fbu.encoding == 5 ==> Handle(f, m) == RfbParser.Hextile(f, m)
  {
    hide RfbParser.Raw, Copy, RfbParser.Rre, RfbParser.Hextile;
  }
}
