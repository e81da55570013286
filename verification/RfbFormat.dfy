/** FramebufferUpdate messages as sections 7.6.1 and 7.7.1 to 7.7.4 of RFC 6143 lay them out:
    their bytes, and what a client that has a whole message draws. */
module RfbFormat {
  import opened Numbers
  import opened Framebuffer

  datatype Area = Area(x: nat, y: nat, w: nat, h: nat)

  /** The subencoding mask of a tile and what follows it. Parts that the mask leaves out are
      empty. */
  datatype TileRect = TileRect(colour: seq<byte>, x: nat, y: nat, w: nat, h: nat)

  datatype Tile = Tile(mask: nat, raw: seq<byte>, background: seq<byte>, foreground: seq<byte>, rects: seq<TileRect>)

  datatype Subrect = Subrect(colour: seq<byte>, x: nat, y: nat, w: nat, h: nat)

  datatype Rect =
    | Raw(area: Area, data: seq<byte>)
    | CopyRect(area: Area, sx: nat, sy: nat)
    | Rre(area: Area, background: seq<byte>, subrects: seq<Subrect>)
    | Hextile(area: Area, tiles: seq<Tile>)

  /** Bit 2^k of a subencoding mask. */
  predicate Flag(mask: nat, bit: nat)
    requires bit > 0
  {
    mask / bit % 2 == 1
  }

  predicate IsRaw(mask: nat) { Flag(mask, 1) }
  predicate HasBackground(mask: nat) { Flag(mask, 2) }
  predicate HasForeground(mask: nat) { Flag(mask, 4) }
  predicate HasRects(mask: nat) { Flag(mask, 8) }
  predicate Coloured(mask: nat) { Flag(mask, 16) }

  /* Bytes */

  function U16(v: nat): (r: seq<byte>)
    requires v < 0x1_0000
    ensures |r| == 2 && r[0] as int * 256 + r[1] as int == v
  {
    [v / 256, v % 256]
  }

  function U32(v: nat): (r: seq<byte>)
    requires v < 0x8000_0000
    ensures |r| == 4 && r[0] < 128
    ensures r[0] as int * 0x100_0000 + r[1] as int * 0x1_0000 + r[2] as int * 0x100 + r[3] as int == v
  {
    U16(v / 0x1_0000) + U16(v % 0x1_0000)
  }

  function TileRectBytes(r: TileRect): seq<byte>
    requires r.x < 16 && r.y < 16 && 1 <= r.w <= 16 && 1 <= r.h <= 16
  {
    r.colour + [r.x * 16 + r.y, (r.w - 1) * 16 + (r.h - 1)]
  }

  function TileRectsBytes(rs: seq<TileRect>): seq<byte>
    requires forall i :: 0 <= i < |rs| ==> rs[i].x < 16 && rs[i].y < 16 && 1 <= rs[i].w <= 16 && 1 <= rs[i].h <= 16
  {
    if rs == [] then [] else TileRectBytes(rs[0]) + TileRectsBytes(rs[1..])
  }

  predicate Encodable(t: Tile) {
    t.mask < 256 && |t.rects| < 256
    && forall i :: 0 <= i < |t.rects| ==>
         t.rects[i].x < 16 && t.rects[i].y < 16 && 1 <= t.rects[i].w <= 16 && 1 <= t.rects[i].h <= 16
  }

  function TileBytes(t: Tile): seq<byte>
    requires Encodable(t)
  {
    if IsRaw(t.mask) then [t.mask] + t.raw
    else
      [t.mask] + (t.background
        + (t.foreground + (if HasRects(t.mask) then [|t.rects|] + TileRectsBytes(t.rects) else [])))
  }

  function SubrectBytes(s: Subrect): seq<byte>
    requires s.x < 0x1_0000 && s.y < 0x1_0000 && s.w < 0x1_0000 && s.h < 0x1_0000
  {
    s.colour + (U16(s.x) + (U16(s.y) + (U16(s.w) + U16(s.h))))
  }

  /* Well-formed tiles, given what colours earlier tiles have set */

  /** Colours are carried from tile to tile; one that is not set yet is empty. */
  datatype Colours = Colours(background: seq<byte>, foreground: seq<byte>, last: nat)

  predicate ValidTileRect(f: Format, coloured: bool, r: TileRect) {
    r.x < 16 && r.y < 16 && 1 <= r.w <= 16 && 1 <= r.h <= 16 && |r.colour| == if coloured then Bpp(f) else 0
  }

  function After(c: Colours, t: Tile): Colours {
    if IsRaw(t.mask) then Colours(c.background, c.foreground, t.mask)
    else Colours(if HasBackground(t.mask) then t.background else c.background,
                 if HasForeground(t.mask) then t.foreground else c.foreground, t.mask)
  }

  /** A tile of w by h pixels after the colours c. In a raw tile the other bits of the mask are
      irrelevant, so masks go up to 31. */
  predicate ValidTile(f: Format, c: Colours, t: Tile, w: nat, h: nat)
    ensures ValidTile(f, c, t, w, h) ==> Encodable(t)
  {
    && t.mask <= 31 && |t.rects| < 256
    && (forall i :: 0 <= i < |t.rects| ==> ValidTileRect(f, Coloured(t.mask), t.rects[i]))
    && if IsRaw(t.mask) then
         |t.raw| == h * (w * Bpp(f)) && t.background == t.foreground == [] && t.rects == []
       else
         && t.raw == []
         && |t.background| == (if HasBackground(t.mask) then Bpp(f) else 0)
         && |t.foreground| == (if HasForeground(t.mask) then Bpp(f) else 0)
         && (!HasRects(t.mask) ==> t.rects == [])
         && |After(c, t).background| == Bpp(f)
         && (t.rects != [] && !Coloured(t.mask) ==> |After(c, t).foreground| == Bpp(f))
  }

  /* What a tile draws */

  function PaintTileRect(f: Format, pic: Picture, x: int, y: int,
          coloured: bool, foreground: seq<byte>, r: TileRect): Picture
    requires |r.colour| == if coloured then Bpp(f) else 0
    requires !coloured ==> |foreground| == Bpp(f)
  {
    Fill(pic, x + r.x, y + r.y, r.w, r.h, PixelAt(f, if coloured then r.colour else foreground, 0))
  }

  function PaintTileRects(f: Format, pic: Picture, x: int, y: int,
          coloured: bool, foreground: seq<byte>, rs: seq<TileRect>): Picture
    requires forall i :: 0 <= i < |rs| ==> |rs[i].colour| == if coloured then Bpp(f) else 0
    requires rs != [] && !coloured ==> |foreground| == Bpp(f)
    decreases rs
  {
    if rs == [] then pic
    else PaintTileRects(f, PaintTileRect(f, pic, x, y, coloured, foreground, rs[0]),
        x, y, coloured, foreground, rs[1..])
  }

  /** A tile at a. A blank tile that follows a raw tile is ignored, as this client does. */
  function PaintTile(f: Format, pic: Picture, c: Colours, t: Tile, a: Area): Picture
    requires ValidTile(f, c, t, a.w, a.h)
  {
    if t.mask == 0 && IsRaw(c.last) then pic
    else if IsRaw(t.mask) then Blit(f, pic, a.x, a.y, a.w, a.h, t.raw)
    else
      var n := After(c, t);
      PaintTileRects(f, Fill(pic, a.x, a.y, a.w, a.h, PixelAt(f, n.background, 0)),
          a.x, a.y, Coloured(t.mask), n.foreground, t.rects)
  }

  /* The tiles of a rectangle, left to right and top to bottom */

  function TilesAcross(n: nat): nat {
    (n + 15) / 16
  }

  function TileCount(a: Area): nat {
    TilesAcross(a.w) * TilesAcross(a.h)
  }

  /** Tile k: 16 pixels wide and high except at the right and lower edge. */
  function TileArea(a: Area, k: nat): (t: Area)
    requires k < TileCount(a)
    ensures t.x == a.x + k % TilesAcross(a.w) * 16 && t.y == a.y + k / TilesAcross(a.w) * 16
    ensures t.w == Min(16, a.x + a.w - t.x) > 0 && t.h == Min(16, a.y + a.h - t.y) > 0
  {
    TileInside(a, k);
    var x, y := a.x + k % TilesAcross(a.w) * 16, a.y + k / TilesAcross(a.w) * 16;
    Area(x, y, Min(16, a.x + a.w - x), Min(16, a.y + a.h - y))
  }

  lemma TileInside(a: Area, k: nat)
    requires k < TileCount(a)
    ensures TilesAcross(a.w) > 0
    ensures k % TilesAcross(a.w) * 16 < a.w && k / TilesAcross(a.w) * 16 < a.h
    ensures k / TilesAcross(a.w) >= 0 && k % TilesAcross(a.w) >= 0
  {
    var n, m := TilesAcross(a.w), TilesAcross(a.h);
    Factors(n, m, k);
    assert k == n * (k / n) + k % n;
    MoreTimes(n, m, k / n);
  }

  lemma Factors(n: nat, m: nat, k: nat)
    requires k < n * m
    ensures n > 0
  {
  }

  lemma MoreTimes(n: nat, m: nat, q: int)
    ensures m <= q ==> n * m <= n * q
  {
    if m <= q { assert n * q == n * m + n * (q - m); }
  }

  /** Tiles from number k on, with the colours carried along. */
  predicate ValidTiles(f: Format, c: Colours, a: Area, k: nat, tiles: seq<Tile>)
    decreases |tiles|
  {
    if tiles == [] then k == TileCount(a)
    else k < TileCount(a) && var t := TileArea(a, k);
         ValidTile(f, c, tiles[0], t.w, t.h) && ValidTiles(f, After(c, tiles[0]), a, k + 1, tiles[1..])
  }

  datatype Canvas = Canvas(pic: Picture, colours: Colours)

  function PaintTiles(f: Format, cv: Canvas, a: Area, k: nat, tiles: seq<Tile>): Canvas
    requires ValidTiles(f, cv.colours, a, k, tiles)
    decreases |tiles|
  {
    if tiles == [] then cv
    else PaintTiles(f, Canvas(PaintTile(f, cv.pic, cv.colours, tiles[0], TileArea(a, k)), After(cv.colours, tiles[0])),
        a, k + 1, tiles[1..])
  }

  /** A legal tile that this client takes for an error: it accepts no mask above 30. */
  predicate Refused(t: Tile) {
    t.mask > 30
  }

  /** Why this client does not get through something legal: a tile that it refuses, or a Raw rectangle
      without pixels. */
  datatype Obstacle = None | Tile31 | NoPixels

  predicate Accepted(tiles: seq<Tile>) {
    forall i :: 0 <= i < |tiles| ==> !Refused(tiles[i])
  }

  /** What this client draws of the tiles: those in front of the first that it refuses, if there is one. */
  function SeenTiles(f: Format, cv: Canvas, a: Area, k: nat, tiles: seq<Tile>): (Canvas, Obstacle)
    requires ValidTiles(f, cv.colours, a, k, tiles)
    decreases |tiles|
  {
    if tiles == [] then (cv, None)
    else if Refused(tiles[0]) then (cv, Tile31)
    else SeenTiles(f, Canvas(PaintTile(f, cv.pic, cv.colours, tiles[0], TileArea(a, k)), After(cv.colours, tiles[0])),
        a, k + 1, tiles[1..])
  }

  function TilesBytes(f: Format, c: Colours, a: Area, k: nat, tiles: seq<Tile>): seq<byte>
    requires ValidTiles(f, c, a, k, tiles)
    decreases |tiles|
  {
    if tiles == [] then [] else TileBytes(tiles[0]) + TilesBytes(f, After(c, tiles[0]), a, k + 1, tiles[1..])
  }

  /* Rectangles */

  predicate ValidArea(a: Area) {
    a.x < 0x1_0000 && a.y < 0x1_0000 && a.w < 0x1_0000 && a.h < 0x1_0000
  }

  predicate ValidSubrect(f: Format, s: Subrect) {
    |s.colour| == Bpp(f) && s.x < 0x1_0000 && s.y < 0x1_0000 && s.w < 0x1_0000 && s.h < 0x1_0000
  }

  predicate ValidSubrects(f: Format, ss: seq<Subrect>) {
    ss != [] ==> ValidSubrect(f, ss[0]) && ValidSubrects(f, ss[1..])
  }

  /** A Raw rectangle without pixels, and so without a body. */
  predicate Hollow(r: Rect) {
    r.Raw? && (r.area.w == 0 || r.area.h == 0)
  }

  predicate ValidRect(f: Format, c: Colours, r: Rect) {
    && ValidArea(r.area)
    && match r
       case Raw(a, data) => if Hollow(r) then data == [] else |data| == a.h * (a.w * Bpp(f))
       case CopyRect(_, sx, sy) => sx < 0x1_0000 && sy < 0x1_0000
       case Rre(_, background, subrects) => |background| == Bpp(f)
           && |subrects| < 0x8000_0000 && ValidSubrects(f, subrects)
       case Hextile(a, tiles) => ValidTiles(f, c, a, 0, tiles)
  }

  function PaintSubrects(f: Format, pic: Picture, a: Area, ss: seq<Subrect>): Picture
    requires ValidSubrects(f, ss)
    decreases ss
  {
    if ss == [] then pic
    else PaintSubrects(f, Fill(pic, a.x + ss[0].x, a.y + ss[0].y, ss[0].w, ss[0].h, PixelAt(f, ss[0].colour, 0)),
        a, ss[1..])
  }

  function PaintRect(f: Format, cv: Canvas, r: Rect): Canvas
    requires ValidRect(f, cv.colours, r)
  {
    match r
    case Raw(a, data) => if Hollow(r) then cv else cv.(pic := Blit(f, cv.pic, a.x, a.y, a.w, a.h, data))
    case CopyRect(a, sx, sy) => cv.(pic := CopyArea(cv.pic, sx, sy, a.x, a.y, a.w, a.h))
    case Rre(a, background, subrects) =>
      cv.(pic := PaintSubrects(f, Fill(cv.pic, a.x, a.y, a.w, a.h, PixelAt(f, background, 0)), a, subrects))
    case Hextile(a, tiles) => PaintTiles(f, cv, a, 0, tiles)
  }

  function Encoding(r: Rect): (n: nat)
    ensures n < 256
  {
    match r
    case Raw(_, _) => 0
    case CopyRect(_, _, _) => 1
    case Rre(_, _, _) => 2
    case Hextile(_, _) => 5
  }

  function SubrectsBytes(f: Format, ss: seq<Subrect>): seq<byte>
    requires ValidSubrects(f, ss)
  {
    if ss == [] then [] else SubrectBytes(ss[0]) + SubrectsBytes(f, ss[1..])
  }

  function BodyBytes(f: Format, c: Colours, r: Rect): seq<byte>
    requires ValidRect(f, c, r)
  {
    match r
    case Raw(_, data) => data
    case CopyRect(_, sx, sy) => U16(sx) + U16(sy)
    case Rre(_, background, subrects) => U32(|subrects|) + (background + SubrectsBytes(f, subrects))
    case Hextile(a, tiles) => TilesBytes(f, c, a, 0, tiles)
  }

  function HeaderBytes(a: Area, encoding: nat): (r: seq<byte>)
    requires ValidArea(a) && encoding < 256
    ensures |r| == 12
  {
    U16(a.x) + (U16(a.y) + (U16(a.w) + (U16(a.h) + [0, 0, 0, encoding])))
  }

  /* Updates: a header with the number of rectangles, then the rectangles */

  predicate ValidRects(f: Format, cv: Canvas, rs: seq<Rect>)
    decreases rs
  {
    rs != [] ==> ValidRect(f, cv.colours, rs[0]) && ValidRects(f, PaintRect(f, cv, rs[0]), rs[1..])
  }

  function PaintRects(f: Format, cv: Canvas, rs: seq<Rect>): Canvas
    requires ValidRects(f, cv, rs)
    decreases rs
  {
    if rs == [] then cv else PaintRects(f, PaintRect(f, cv, rs[0]), rs[1..])
  }

  function RectsBytes(f: Format, cv: Canvas, rs: seq<Rect>): seq<byte>
    requires ValidRects(f, cv, rs)
    decreases rs
  {
    if rs == [] then []
    else
      HeaderBytes(rs[0].area, Encoding(rs[0]))
        + (BodyBytes(f, cv.colours, rs[0]) + RectsBytes(f, PaintRect(f, cv, rs[0]), rs[1..]))
  }

  datatype Update = Update(padding: byte, rects: seq<Rect>)

  predicate ValidUpdates(f: Format, cv: Canvas, us: seq<Update>)
    decreases us
  {
    us != [] ==>
      |us[0].rects| < 0x1_0000 && ValidRects(f, cv, us[0].rects)
      && ValidUpdates(f, PaintRects(f, cv, us[0].rects), us[1..])
  }

  function PaintUpdates(f: Format, cv: Canvas, us: seq<Update>): Canvas
    requires ValidUpdates(f, cv, us)
    decreases us
  {
    if us == [] then cv else PaintUpdates(f, PaintRects(f, cv, us[0].rects), us[1..])
  }

  /* What this client draws: everything in front of the first obstacle */

  predicate AcceptedRect(r: Rect) {
    !Hollow(r) && (r.Hextile? ==> Accepted(r.tiles))
  }

  predicate AcceptedRects(rs: seq<Rect>) {
    forall i :: 0 <= i < |rs| ==> AcceptedRect(rs[i])
  }

  predicate AcceptedUpdates(us: seq<Update>) {
    forall i :: 0 <= i < |us| ==> AcceptedRects(us[i].rects)
  }

  /** No Raw rectangle of the stream is without pixels. */
  predicate Solid(us: seq<Update>) {
    forall i, k :: 0 <= i < |us| && 0 <= k < |us[i].rects| ==> !Hollow(us[i].rects[k])
  }

  function SeenRect(f: Format, cv: Canvas, r: Rect): (Canvas, Obstacle)
    requires ValidRect(f, cv.colours, r)
  {
    if r.Hextile? then SeenTiles(f, cv, r.area, 0, r.tiles)
    else if Hollow(r) then (cv, NoPixels) else (PaintRect(f, cv, r), None)
  }

  function SeenRects(f: Format, cv: Canvas, rs: seq<Rect>): (Canvas, Obstacle)
    requires ValidRects(f, cv, rs)
    decreases rs
  {
    if rs == [] then (cv, None)
    else
      var s := SeenRect(f, cv, rs[0]);
      if s.1.None? then SeenRects(f, PaintRect(f, cv, rs[0]), rs[1..]) else s
  }

  /** Canvas and number of updates that the client gets to, and what it stops at. */
  datatype Seen = Seen(canvas: Canvas, updates: nat, obstacle: Obstacle)

  function SeenUpdates(f: Format, cv: Canvas, us: seq<Update>): Seen
    requires ValidUpdates(f, cv, us)
    decreases us
  {
    if us == [] then Seen(cv, 0, None)
    else
      var s := SeenRects(f, cv, us[0].rects);
      if s.1.None? then
        var t := SeenUpdates(f, PaintRects(f, cv, us[0].rects), us[1..]);
        t.(updates := t.updates + 1)
      else Seen(s.0, 0, s.1)
  }

  function UpdatesBytes(f: Format, cv: Canvas, us: seq<Update>): seq<byte>
    requires ValidUpdates(f, cv, us)
    decreases us
  {
    if us == [] then []
    else [0, us[0].padding] + (U16(|us[0].rects|)
         + (RectsBytes(f, cv, us[0].rects) + UpdatesBytes(f, PaintRects(f, cv, us[0].rects), us[1..])))
  }
}
