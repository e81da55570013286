/** Streams of updates as RFC 6143 describes them: a blank Hextile tile repeats the background in force,
    also where this client ignores it. */
module RfbDescribed {
  import opened Numbers
  import opened Framebuffer
  import opened RfbFormat
  import opened RfbParser
  import opened RfbSplit
  import opened RfbHextile

  /* The same updates with all backgrounds written out, so that no tile is blank */

  function ExplicitRect(c: Colours, r: Rect): Rect {
    if r.Hextile? then r.(tiles := Explicits(c, r.tiles)) else r
  }

  function ExplicitRects(f: Format, cv: Canvas, rs: seq<Rect>): (r: seq<Rect>)
    requires ValidRects(f, cv, rs)
    ensures |r| == |rs|
    decreases rs
  {
    if rs == [] then [] else [ExplicitRect(cv.colours, rs[0])] + ExplicitRects(f, PaintRect(f, cv, rs[0]), rs[1..])
  }

  function ExplicitUpdates(f: Format, cv: Canvas, us: seq<Update>): seq<Update>
    requires ValidUpdates(f, cv, us)
    decreases us
  {
    if us == [] then []
    else [us[0].(rects := ExplicitRects(f, cv, us[0].rects))]
         + ExplicitUpdates(f, PaintRects(f, cv, us[0].rects), us[1..])
  }

  /* Whether a blank tile directly follows a raw one, in a rectangle or across two */

  predicate DrawnRect(c: Colours, r: Rect) {
    r.Hextile? ==> AllDrawn(c, r.tiles)
  }

  predicate DrawnRects(f: Format, cv: Canvas, rs: seq<Rect>)
    requires ValidRects(f, cv, rs)
    decreases rs
  {
    rs != [] ==> DrawnRect(cv.colours, rs[0]) && DrawnRects(f, PaintRect(f, cv, rs[0]), rs[1..])
  }

  predicate DrawnUpdates(f: Format, cv: Canvas, us: seq<Update>)
    requires ValidUpdates(f, cv, us)
    decreases us
  {
    us != [] ==> DrawnRects(f, cv, us[0].rects) && DrawnUpdates(f, PaintRects(f, cv, us[0].rects), us[1..])
  }

  /* What both come to */

  /** The same picture, and the same colours in force. */
  predicate Alike(cv: Canvas, dv: Canvas) {
    cv.pic == dv.pic && SameInk(cv.colours, dv.colours)
  }

  lemma {:induction false} SameInkAfter(f: Format, cv: Canvas, dv: Canvas, a: Area, k: nat, tiles: seq<Tile>)
    requires ValidTiles(f, cv.colours, a, k, tiles) && SameInk(cv.colours, dv.colours)
    requires ValidTiles(f, dv.colours, a, k, Explicits(cv.colours, tiles))
    ensures SameInk(PaintTiles(f, cv, a, k, tiles).colours,
        PaintTiles(f, dv, a, k, Explicits(cv.colours, tiles)).colours)
    decreases |tiles|
  {
    if tiles == [] {
    } else {
      hide *;
      var c, d := cv.colours, dv.colours;
      var t, e := tiles[0], Explicits(c, tiles);
      ExplicitsStep(f, c, a, k, tiles);
      ExplicitTile(f, c, d, t, TileArea(a, k).w, TileArea(a, k).h);
      var next := PaintTilesStep(f, cv, a, k, tiles);
      var next' := PaintTilesStep(f, dv, a, k, e);
      SameInkAfter(f, next, next', a, k + 1, tiles[1..]);
    }
  }

  lemma RectAlike(f: Format, cv: Canvas, dv: Canvas, r: Rect)
    requires ValidRect(f, cv.colours, r) && Alike(cv, dv)
    ensures ValidRect(f, dv.colours, ExplicitRect(cv.colours, r))
    ensures SameInk(PaintRect(f, cv, r).colours, PaintRect(f, dv, ExplicitRect(cv.colours, r)).colours)
    ensures DrawnRect(cv.colours, r) ==> PaintRect(f, dv, ExplicitRect(cv.colours, r)).pic == PaintRect(f, cv, r).pic
  {
    if r.Hextile? {
      ExplicitsValid(f, cv.colours, dv.colours, r.area, 0, r.tiles);
      SameInkAfter(f, cv, dv, r.area, 0, r.tiles);
      if AllDrawn(cv.colours, r.tiles) { DrawnAlike(f, cv.pic, cv.colours, dv.colours, r.area, 0, r.tiles); }
    }
    hide ValidTiles, PaintTiles, Explicits, AllDrawn, ValidSubrects, PaintSubrects, Blit, CopyArea, Fill, PixelAt, Bpp;
  }

  lemma ExplicitRectsStep(f: Format, cv: Canvas, rs: seq<Rect>)
    requires rs != [] && ValidRects(f, cv, rs)
    ensures ValidRect(f, cv.colours, rs[0]) && ValidRects(f, PaintRect(f, cv, rs[0]), rs[1..])
    ensures PaintRects(f, cv, rs) == PaintRects(f, PaintRect(f, cv, rs[0]), rs[1..])
    ensures var e := ExplicitRects(f, cv, rs);
            && e != [] && e[0] == ExplicitRect(cv.colours, rs[0])
            && e[1..] == ExplicitRects(f, PaintRect(f, cv, rs[0]), rs[1..])
    ensures DrawnRects(f, cv, rs)
        <==> DrawnRect(cv.colours, rs[0]) && DrawnRects(f, PaintRect(f, cv, rs[0]), rs[1..])
  {
    hide ExplicitRect, PaintRect, ValidRect, DrawnRect;
  }

  lemma RectsFirst(f: Format, cv: Canvas, rs: seq<Rect>)
    requires rs != [] && ValidRect(f, cv.colours, rs[0]) && ValidRects(f, PaintRect(f, cv, rs[0]), rs[1..])
    ensures ValidRects(f, cv, rs) && PaintRects(f, cv, rs) == PaintRects(f, PaintRect(f, cv, rs[0]), rs[1..])
  {
    hide PaintRect, ValidRect;
  }

  lemma {:induction false} ExplicitRectsValid(f: Format, cv: Canvas, dv: Canvas, rs: seq<Rect>)
    requires ValidRects(f, cv, rs) && SameInk(cv.colours, dv.colours)
    ensures ValidRects(f, dv, ExplicitRects(f, cv, rs))
    ensures SameInk(PaintRects(f, cv, rs).colours, PaintRects(f, dv, ExplicitRects(f, cv, rs)).colours)
    decreases rs
  {
    if rs == [] {
    } else {
      hide *;
      var e := ExplicitRects(f, cv, rs);
      ExplicitRectsStep(f, cv, rs);
      InkOnly(f, cv, dv, rs[0]);
      ExplicitRectsValid(f, PaintRect(f, cv, rs[0]), PaintRect(f, dv, e[0]), rs[1..]);
      RectsFirst(f, dv, e);
    }
  }

  lemma InkOnly(f: Format, cv: Canvas, dv: Canvas, r: Rect)
    requires ValidRect(f, cv.colours, r) && SameInk(cv.colours, dv.colours)
    ensures ValidRect(f, dv.colours, ExplicitRect(cv.colours, r))
    ensures SameInk(PaintRect(f, cv, r).colours, PaintRect(f, dv, ExplicitRect(cv.colours, r)).colours)
  {
    if r.Hextile? {
      ExplicitsValid(f, cv.colours, dv.colours, r.area, 0, r.tiles);
      SameInkAfter(f, cv, dv, r.area, 0, r.tiles);
    }
    hide ValidTiles, PaintTiles, Explicits, ValidSubrects, PaintSubrects, Blit, CopyArea, Fill, PixelAt, Bpp;
  }

  lemma {:induction false} RectsAlike(f: Format, cv: Canvas, dv: Canvas, rs: seq<Rect>)
    requires ValidRects(f, cv, rs) && Alike(cv, dv) && DrawnRects(f, cv, rs)
    ensures ValidRects(f, dv, ExplicitRects(f, cv, rs))
    ensures Alike(PaintRects(f, cv, rs), PaintRects(f, dv, ExplicitRects(f, cv, rs)))
    decreases rs
  {
    if rs == [] {
    } else {
      hide *;
      var e := ExplicitRects(f, cv, rs);
      ExplicitRectsStep(f, cv, rs);
      RectAlike(f, cv, dv, rs[0]);
      AlikeIf(PaintRect(f, cv, rs[0]), PaintRect(f, dv, e[0]));
      RectsAlike(f, PaintRect(f, cv, rs[0]), PaintRect(f, dv, e[0]), rs[1..]);
      RectsFirst(f, dv, e);
    }
  }

  lemma AlikeIf(cv: Canvas, dv: Canvas)
    requires cv.pic == dv.pic && SameInk(cv.colours, dv.colours)
    ensures Alike(cv, dv)
  {
  }

  lemma ExplicitUpdatesStep(f: Format, cv: Canvas, us: seq<Update>)
    requires us != [] && ValidUpdates(f, cv, us)
    ensures |us[0].rects| < 0x1_0000 && ValidRects(f, cv, us[0].rects)
    ensures ValidUpdates(f, PaintRects(f, cv, us[0].rects), us[1..])
    ensures PaintUpdates(f, cv, us) == PaintUpdates(f, PaintRects(f, cv, us[0].rects), us[1..])
    ensures var e := ExplicitUpdates(f, cv, us);
            && e != [] && e[0].rects == ExplicitRects(f, cv, us[0].rects)
            && e[1..] == ExplicitUpdates(f, PaintRects(f, cv, us[0].rects), us[1..])
    ensures DrawnUpdates(f, cv, us)
        <==> DrawnRects(f, cv, us[0].rects) && DrawnUpdates(f, PaintRects(f, cv, us[0].rects), us[1..])
  {
    hide ExplicitRects, PaintRects, ValidRects, DrawnRects;
  }

  lemma UpdatesFirst(f: Format, cv: Canvas, us: seq<Update>)
    requires us != [] && |us[0].rects| < 0x1_0000 && ValidRects(f, cv, us[0].rects)
    requires ValidUpdates(f, PaintRects(f, cv, us[0].rects), us[1..])
    ensures ValidUpdates(f, cv, us)
    ensures PaintUpdates(f, cv, us) == PaintUpdates(f, PaintRects(f, cv, us[0].rects), us[1..])
  {
    hide PaintRects, ValidRects;
  }

  lemma {:induction false} ExplicitUpdatesValid(f: Format, cv: Canvas, dv: Canvas, us: seq<Update>)
    requires ValidUpdates(f, cv, us) && SameInk(cv.colours, dv.colours)
    ensures ValidUpdates(f, dv, ExplicitUpdates(f, cv, us))
    decreases us
  {
    if us == [] {
    } else {
      hide *;
      var e := ExplicitUpdates(f, cv, us);
      ExplicitUpdatesStep(f, cv, us);
      ExplicitRectsValid(f, cv, dv, us[0].rects);
      ExplicitUpdatesValid(f, PaintRects(f, cv, us[0].rects), PaintRects(f, dv, e[0].rects), us[1..]);
      UpdatesFirst(f, dv, e);
    }
  }

  lemma {:induction false} UpdatesAlike(f: Format, cv: Canvas, dv: Canvas, us: seq<Update>)
    requires ValidUpdates(f, cv, us) && Alike(cv, dv) && DrawnUpdates(f, cv, us)
    ensures ValidUpdates(f, dv, ExplicitUpdates(f, cv, us))
    ensures PaintUpdates(f, dv, ExplicitUpdates(f, cv, us)).pic == PaintUpdates(f, cv, us).pic
    decreases us
  {
    if us == [] {
    } else {
      hide *;
      var e := ExplicitUpdates(f, cv, us);
      ExplicitUpdatesStep(f, cv, us);
      RectsAlike(f, cv, dv, us[0].rects);
      UpdatesAlike(f, PaintRects(f, cv, us[0].rects), PaintRects(f, dv, e[0].rects), us[1..]);
      UpdatesFirst(f, dv, e);
    }
  }

  /* The theorems */

  /** The picture as RFC 6143 describes it, in which a blank tile is drawn wherever it stands. */
  ghost function Described(f: Format, pic: Picture, us: seq<Update>): Picture
    requires ValidUpdates(f, Canvas(pic, NoColours()), us)
  {
    var cv := Canvas(pic, NoColours());
    SameInkAsItself(NoColours());
    ExplicitUpdatesValid(f, cv, cv, us);
    PaintUpdates(f, cv, ExplicitUpdates(f, cv, us)).pic
  }

  lemma DescribedIs(f: Format, pic: Picture, us: seq<Update>)
    requires ValidUpdates(f, Canvas(pic, NoColours()), us)
    ensures var cv := Canvas(pic, NoColours());
            && ValidUpdates(f, cv, ExplicitUpdates(f, cv, us))
            && Described(f, pic, us) == PaintUpdates(f, cv, ExplicitUpdates(f, cv, us)).pic
  {
    var cv := Canvas(pic, NoColours());
    hide ValidUpdates, ExplicitUpdates, PaintUpdates;
    SameInkAsItself(NoColours());
    ExplicitUpdatesValid(f, cv, cv, us);
  }

  /** However a stream of updates is cut, the client ends with the picture that RFC 6143 describes, if no
      blank tile directly follows a raw one. */
  lemma ShowsDescribed(f: Format, pic: Picture, setup: Setup, us: seq<Update>, events: seq<Event>)
    requires ValidUpdates(f, Canvas(pic, NoColours()), us) && AcceptedUpdates(us)
    requires DrawnUpdates(f, Canvas(pic, NoColours()), us)
    requires Delivered(events) == UpdatesBytes(f, Canvas(pic, NoColours()), us)
    ensures var s := Run(f, Fresh(pic, setup), events);
            !s.pending ==> s.m.pic == Described(f, pic, us) && s.m.done == |us| && s.m.status == Normal
  {
    var cv := Canvas(pic, NoColours());
    assert Alike(cv, cv);
    hide *;
    DescribedIs(f, pic, us);
    UpdatesAlike(f, cv, cv, us);
    AnyCutting(f, pic, setup, us, events);
    OfCanvas(Run(f, Fresh(pic, setup), events).m);
  }

  lemma OfCanvas(m: Machine)
    ensures RfbHandlers.CanvasOf(m).pic == m.pic
  {
  }

  /** The rectangle is painted on this picture as RFC 6143 describes it. */
  predicate PaintsAs(f: Format, pic: Picture, c: Colours, r: Rect)
    requires ValidRect(f, c, r)
  {
    && ValidRect(f, c, ExplicitRect(c, r))
    && PaintRect(f, Canvas(pic, c), r).pic == PaintRect(f, Canvas(pic, c), ExplicitRect(c, r)).pic
  }

  ghost predicate Faithful(f: Format, c: Colours, r: Rect)
    requires ValidRect(f, c, r)
  {
    forall pic: Picture :: PaintsAs(f, pic, c, r)
  }

  ghost predicate FaithfulRects(f: Format, cv: Canvas, rs: seq<Rect>)
    requires ValidRects(f, cv, rs)
    decreases rs
  {
    rs != [] ==> Faithful(f, cv.colours, rs[0]) && FaithfulRects(f, PaintRect(f, cv, rs[0]), rs[1..])
  }

  ghost predicate FaithfulUpdates(f: Format, cv: Canvas, us: seq<Update>)
    requires ValidUpdates(f, cv, us)
    decreases us
  {
    us != [] ==> FaithfulRects(f, cv, us[0].rects) && FaithfulUpdates(f, PaintRects(f, cv, us[0].rects), us[1..])
  }

  /** Subrectangles stay in their tiles. */
  predicate TidyRect(r: Rect) {
    r.Hextile? ==> AllInside(r.area, 0, r.tiles) && |r.tiles| == TileCount(r.area)
  }

  predicate TidyUpdates(us: seq<Update>) {
    forall i, k :: 0 <= i < |us| && 0 <= k < |us[i].rects| ==> TidyRect(us[i].rects[k])
  }

  lemma FaithfulExactly(f: Format, c: Colours, r: Rect)
    requires ValidRect(f, c, r) && TidyRect(r)
    ensures Faithful(f, c, r) <==> DrawnRect(c, r)
  {
    hide ValidRect, TidyRect, PaintsAs, AllDrawn;
    if DrawnRect(c, r) {
      forall pic: Picture ensures PaintsAs(f, pic, c, r) { PaintsDrawn(f, pic, c, r); }
    } else {
      var pic := PaintsOther(f, c, r);
    }
  }

  lemma PaintsDrawn(f: Format, pic: Picture, c: Colours, r: Rect)
    requires ValidRect(f, c, r) && DrawnRect(c, r)
    ensures PaintsAs(f, pic, c, r)
  {
    var cv := Canvas(pic, c);
    assert Alike(cv, cv);
    hide ValidRect, PaintRect, ExplicitRect, DrawnRect, Alike;
    RectAlike(f, cv, cv, r);
  }

  lemma PaintsOther(f: Format, c: Colours, r: Rect) returns (pic: Picture)
    requires ValidRect(f, c, r) && TidyRect(r) && r.Hextile? && !AllDrawn(c, r.tiles)
    ensures !PaintsAs(f, pic, c, r)
  {
    var a, tiles := r.area, r.tiles;
    ExplicitTiles(f, c, r);
    hide ValidTiles, PaintTiles, Explicits, Carried, AllInside, TileCount, Ignored, ExplicitRect, ValidRect, PaintRect;
    var k :| 0 <= k < |tiles| && Ignored(Carried(c, tiles, k), tiles[k]);
    IgnoredShows(f, c, a, tiles, k);
    pic :|
      PaintTiles(f, Canvas(pic, c), a, 0, tiles).pic != PaintTiles(f, Canvas(pic, c), a, 0, Explicits(c, tiles)).pic;
    HextilePaint(f, pic, c, r);
  }

  lemma ExplicitTiles(f: Format, c: Colours, r: Rect)
    requires ValidRect(f, c, r) && r.Hextile?
    ensures ValidTiles(f, c, r.area, 0, r.tiles) && ValidTiles(f, c, r.area, 0, Explicits(c, r.tiles))
  {
    SameInkAsItself(c);
    ExplicitsValid(f, c, c, r.area, 0, r.tiles);
    hide ValidTiles, Explicits;
  }

  lemma HextilePaint(f: Format, pic: Picture, c: Colours, r: Rect)
    requires r.Hextile? && ValidRect(f, c, r) && ValidTiles(f, c, r.area, 0, Explicits(c, r.tiles))
    ensures ValidTiles(f, c, r.area, 0, r.tiles) && ValidRect(f, c, ExplicitRect(c, r))
    ensures PaintRect(f, Canvas(pic, c), r).pic == PaintTiles(f, Canvas(pic, c), r.area, 0, r.tiles).pic
    ensures PaintRect(f, Canvas(pic, c), ExplicitRect(c, r)).pic
         == PaintTiles(f, Canvas(pic, c), r.area, 0, Explicits(c, r.tiles)).pic
  {
    hide ValidTiles, PaintTiles, Explicits, TileCount;
  }

  lemma {:induction false} FaithfulRectsExactly(f: Format, cv: Canvas, rs: seq<Rect>)
    requires ValidRects(f, cv, rs) && forall k :: 0 <= k < |rs| ==> TidyRect(rs[k])
    ensures FaithfulRects(f, cv, rs) <==> DrawnRects(f, cv, rs)
    decreases rs
  {
    hide ValidRect, PaintRect, Faithful, DrawnRect, TidyRect;
    if rs != [] {
      FaithfulExactly(f, cv.colours, rs[0]);
      FaithfulRectsExactly(f, PaintRect(f, cv, rs[0]), rs[1..]);
    }
  }

  /** All rectangles of a stream are painted as described, on every picture, exactly if no blank tile
      directly follows a raw one. */
  lemma {:induction false} DescribedExactly(f: Format, cv: Canvas, us: seq<Update>)
    requires ValidUpdates(f, cv, us) && TidyUpdates(us)
    ensures FaithfulUpdates(f, cv, us) <==> DrawnUpdates(f, cv, us)
    decreases us
  {
    hide ValidRects, PaintRects, FaithfulRects, DrawnRects, TidyRect;
    if us != [] {
      FaithfulRectsExactly(f, cv, us[0].rects);
      assert TidyUpdates(us[1..]) by {
        forall i, k | 0 <= i < |us[1..]| && 0 <= k < |us[1..][i].rects| ensures TidyRect(us[1..][i].rects[k]) {
          assert us[1..][i] == us[i + 1];
        }
      }
      DescribedExactly(f, PaintRects(f, cv, us[0].rects), us[1..]);
    }
  }

  /* One update with a row of 33 pixels, the last of them a blank tile behind a raw one */

  lemma OneRectOnly(f: Format, cv: Canvas, r: Rect)
    requires ValidRect(f, cv.colours, r)
    ensures var us := [Update(0, [r])];
            && ValidUpdates(f, cv, us) && PaintUpdates(f, cv, us) == PaintRect(f, cv, r)
            && ExplicitUpdates(f, cv, us) == [Update(0, [ExplicitRect(cv.colours, r)])]
  {
    hide ValidRect, PaintRect, ExplicitRect;
    var next := PaintRect(f, cv, r);
    assert [r][1..] == [];
    assert ValidRects(f, next, []) && PaintRects(f, next, []) == next && ExplicitRects(f, next, []) == [];
    RectsFirst(f, cv, [r]);
    ExplicitRectsStep(f, cv, [r]);
    assert ExplicitRects(f, cv, [r]) == [ExplicitRect(cv.colours, r)];
    var us := [Update(0, [r])];
    assert us[1..] == [];
    assert ValidUpdates(f, next, []) && PaintUpdates(f, next, []) == next && ExplicitUpdates(f, next, []) == [];
    UpdatesFirst(f, cv, us);
  }

  lemma Row33Accepted(background: seq<byte>, data: seq<byte>)
    ensures AcceptedUpdates([Update(0, [Hextile(Area(0, 0, 33, 1), Row33(background, data))])])
  {
  }

  lemma Row33Rect(f: Format, cv: Canvas, r: Rect)
    requires r.Hextile? && ValidArea(r.area) && ValidTiles(f, cv.colours, r.area, 0, r.tiles)
    requires ValidTiles(f, cv.colours, r.area, 0, Explicits(cv.colours, r.tiles))
    ensures ValidRect(f, cv.colours, r) && PaintRect(f, cv, r) == PaintTiles(f, cv, r.area, 0, r.tiles)
    ensures var e := ExplicitRect(cv.colours, r);
            && ValidRect(f, cv.colours, e)
            && PaintRect(f, cv, e) == PaintTiles(f, cv, r.area, 0, Explicits(cv.colours, r.tiles))
  {
    hide ValidTiles, PaintTiles, Explicits, ValidArea;
  }

  /** With the background written out, the last pixel has its colour. */
  lemma Row33Described(f: Format, cv: Canvas, a: Area, ts: seq<Tile>, background: seq<byte>, data: seq<byte>)
    requires a.x == a.y == 0 && a.w == 33 && a.h == 1 && ts == Row33(background, data) && InPicture(cv.pic, 32, 0)
    requires |background| == Bpp(f) && |data| == 1 * (16 * Bpp(f))
    ensures ValidTiles(f, cv.colours, a, 0, ts) && ValidTiles(f, cv.colours, a, 0, Explicits(cv.colours, ts))
    ensures var p := PaintTiles(f, cv, a, 0, Explicits(cv.colours, ts)).pic;
            InPicture(p, 32, 0) && p[0][32] == PixelAt(f, background, 0)
  {
    hide *;
    var c, e, px, py := cv.colours, Explicits(cv.colours, ts), 32, 0;
    Row33Carries(f, c, a, ts, background, data);
    Row33Pixel(a);
    Row33Last(c, ts, background, data);
    var k := TileOf(a, px, py);
    EachValid(f, c, a, 0, ts, k);
    SameInkAsItself(c);
    ExplicitsValid(f, c, c, a, 0, ts);
    ExplicitAt(f, c, c, a, 0, ts, k);
    var ck, dk := Carried(c, ts, k), Carried(c, e, k);
    ExplicitTile(f, ck, dk, ts[k], TileArea(a, k).w, TileArea(a, k).h);
    TilesPartition(a, px, py, k);
    BlankPixel(f, ck, dk, ts[k], TileArea(a, k), px, py);
    ExplicitsInside(f, c, a, k, ts);
    HextilePixels(f, cv, a, e, px, py);
    Indexes(PaintTiles(f, cv, a, 0, e).pic, px, py);
  }

  lemma Row33Last(c: Colours, ts: seq<Tile>, background: seq<byte>, data: seq<byte>)
    requires ts == Row33(background, data)
    ensures |ts| == 3 && ts[2].mask == 0 && Carried(c, ts, 2).background == background
  {
    var t1, t2 := ts[1..], ts[2..];
    assert t1[1..] == t2;
    var c1 := After(c, ts[0]);
    var c2 := After(c1, t1[0]);
    assert Carried(c2, t2, 0) == c2;
    assert Carried(c1, t1, 1) == c2;
  }

  /** The pixel at 32, 0. */
  function Pixel32(pic: Picture): Pixel
    requires InPicture(pic, 32, 0)
  {
    pic[0][32]
  }

  lemma Pixel32Is(pic: Picture)
    requires InPicture(pic, 32, 0)
    ensures 0 < |pic| && 32 < |pic[0]| && Pixel32(pic) == pic[0][32]
  {
  }

  lemma Row33Update(f: Format, cv: Canvas, background: seq<byte>, data: seq<byte>, us: seq<Update>)
    requires |background| == Bpp(f) && |data| == 1 * (16 * Bpp(f)) && InPicture(cv.pic, 32, 0)
    requires us == [Update(0, [Hextile(Area(0, 0, 33, 1), Row33(background, data))])]
    ensures ValidUpdates(f, cv, us) && ValidUpdates(f, cv, ExplicitUpdates(f, cv, us))
    ensures var p := PaintUpdates(f, cv, us).pic; InPicture(p, 32, 0) && Pixel32(p) == Pixel32(cv.pic)
    ensures var d := PaintUpdates(f, cv, ExplicitUpdates(f, cv, us)).pic;
            InPicture(d, 32, 0) && Pixel32(d) == PixelAt(f, background, 0)
  {
    var a, ts := Area(0, 0, 33, 1), Row33(background, data);
    assert ValidArea(a);
    hide *;
    BlankAfterRawStays(f, cv, background, data);
    Row33Described(f, cv, a, ts, background, data);
    var r := Hextile(a, ts);
    Row33Rect(f, cv, r);
    OneRectOnly(f, cv, r);
    OneRectOnly(f, cv, ExplicitRect(cv.colours, r));
    Pixel32Is(cv.pic);
    Pixel32Is(PaintUpdates(f, cv, us).pic);
    Pixel32Is(PaintUpdates(f, cv, ExplicitUpdates(f, cv, us)).pic);
  }

  /** However the update is cut, the last pixel keeps the colour it had, and should have that of the
      background. */
  lemma Row33Shows(f: Format, pic: Picture, setup: Setup, background: seq<byte>, data: seq<byte>,
          us: seq<Update>, events: seq<Event>)
    requires |background| == Bpp(f) && |data| == 1 * (16 * Bpp(f)) && InPicture(pic, 32, 0)
    requires us == [Update(0, [Hextile(Area(0, 0, 33, 1), Row33(background, data))])]
    ensures ValidUpdates(f, Canvas(pic, NoColours()), us)
    ensures InPicture(Described(f, pic, us), 32, 0) && Pixel32(Described(f, pic, us)) == PixelAt(f, background, 0)
    ensures Delivered(events) == UpdatesBytes(f, Canvas(pic, NoColours()), us) ==>
      var s := Run(f, Fresh(pic, setup), events);
      !s.pending ==> InPicture(s.m.pic, 32, 0) && Pixel32(s.m.pic) == Pixel32(pic)
  {
    hide *;
    Row33Update(f, Canvas(pic, NoColours()), background, data, us);
    DescribedIs(f, pic, us);
    Row33Accepted(background, data);
    if Delivered(events) == UpdatesBytes(f, Canvas(pic, NoColours()), us) {
      AnyCutting(f, pic, setup, us, events);
      OfCanvas(Run(f, Fresh(pic, setup), events).m);
    }
  }
}
