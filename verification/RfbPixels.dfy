/** What Raw, CopyRect and RRE rectangles show, pixel by pixel, wherever they stand in a stream and however
    it is cut. */
module RfbPixels {
  import opened Numbers
  import opened Framebuffer
  import opened RfbFormat
  import opened RfbParser
  import opened RfbHandlers
  import opened RfbSplit
  import opened RfbHextile

  /* RRE: the last subrectangle over a pixel is on top */

  predicate Over(s: Subrect, a: Area, px: int, py: int) {
    a.x + s.x <= px < a.x + s.x + s.w && a.y + s.y <= py < a.y + s.y + s.h
  }

  /** The number of the last subrectangle over a pixel, or -1. */
  function Topmost(a: Area, ss: seq<Subrect>, px: int, py: int): (k: int)
    ensures -1 <= k < |ss|
  {
    if ss == [] then -1
    else if Over(ss[|ss| - 1], a, px, py) then |ss| - 1
    else Topmost(a, ss[..|ss| - 1], px, py)
  }

  lemma {:induction false} TopmostIs(a: Area, ss: seq<Subrect>, px: int, py: int)
    requires ss != []
    ensures var k := Topmost(a, ss[1..], px, py);
            Topmost(a, ss, px, py) == if k >= 0 then k + 1 else if Over(ss[0], a, px, py) then 0 else -1
    decreases |ss|
  {
    hide Over;
    var front, rest := ss[..|ss| - 1], ss[1..];
    if |ss| > 1 {
      assert rest[|rest| - 1] == ss[|ss| - 1] && rest[..|rest| - 1] == front[1..] && front[0] == ss[0];
      TopmostIs(a, front, px, py);
    }
  }

  /** A pixel after subrectangles were drawn over `under`. */
  predicate OnTop(f: Format, p: Pixel, under: Pixel, a: Area, ss: seq<Subrect>, px: int, py: int) {
    var k := Topmost(a, ss, px, py);
    if k >= 0 then IsColour(f, p, ss[k].colour, 0) else p == under
  }

  lemma OnTopIs(f: Format, p: Pixel, next: Pixel, under: Pixel, a: Area, ss: seq<Subrect>, px: int, py: int)
    requires ss != [] && OnTop(f, p, next, a, ss[1..], px, py)
    requires if Over(ss[0], a, px, py) then IsColour(f, next, ss[0].colour, 0) else next == under
    ensures OnTop(f, p, under, a, ss, px, py)
  {
    hide Topmost, Over, IsColour;
    TopmostIs(a, ss, px, py);
  }

  lemma NothingOnTop(f: Format, p: Pixel, a: Area, px: int, py: int)
    ensures OnTop(f, p, p, a, [], px, py)
  {
  }

  lemma SubrectsStep(f: Format, pic: Picture, a: Area, ss: seq<Subrect>) returns (p: Pixel, next: Picture)
    requires ss != [] && ValidSubrects(f, ss)
    ensures IsColour(f, p, ss[0].colour, 0) && ValidSubrects(f, ss[1..])
    ensures next == Fill(pic, a.x + ss[0].x, a.y + ss[0].y, ss[0].w, ss[0].h, p)
    ensures PaintSubrects(f, pic, a, ss) == PaintSubrects(f, next, a, ss[1..])
  {
    hide Fill, PixelAt, IsColour, Bpp;
    p := PixelAt(f, ss[0].colour, 0);
    next := Fill(pic, a.x + ss[0].x, a.y + ss[0].y, ss[0].w, ss[0].h, p);
    ColourIs(f, p, ss[0].colour, 0);
  }

  lemma OverIs(s: Subrect, a: Area, px: int, py: int)
    ensures Over(s, a, px, py) <==> a.x + s.x <= px < a.x + s.x + s.w && a.y + s.y <= py < a.y + s.y + s.h
  {
  }

  lemma {:induction false} SubrectsPixel(f: Format, pic: Picture, a: Area, ss: seq<Subrect>, px: int, py: int)
    requires ValidSubrects(f, ss) && InPicture(pic, px, py)
    ensures InPicture(PaintSubrects(f, pic, a, ss), px, py)
    ensures OnTop(f, PaintSubrects(f, pic, a, ss)[py][px], pic[py][px], a, ss, px, py)
    decreases |ss|
  {
    Indexes(pic, px, py);
    if ss == [] {
      assert PaintSubrects(f, pic, a, ss) == pic;
      hide *;
      NothingOnTop(f, pic[py][px], a, px, py);
    } else {
      hide *;
      var p, next := SubrectsStep(f, pic, a, ss);
      OverIs(ss[0], a, px, py);
      FillPixel(pic, a.x + ss[0].x, a.y + ss[0].y, ss[0].w, ss[0].h, p, px, py);
      Indexes(next, px, py);
      SubrectsPixel(f, next, a, ss[1..], px, py);
      var q := PaintSubrects(f, pic, a, ss);
      Indexes(q, px, py);
      OnTopIs(f, q[py][px], next[py][px], pic[py][px], a, ss, px, py);
    }
  }

  /* One rectangle */

  /** The pixel that a rectangle leaves behind. In a Raw rectangle it has the colour of its place in reading
      order; in a CopyRect that of its source before; in RRE that of the last subrectangle over it, or the
      background. Hextile is told tile by tile elsewhere. */
  predicate PixelDrawn(f: Format, before: Picture, r: Rect, p: Pixel, px: int, py: int)
    requires InPicture(before, px, py)
  {
    var a := r.area;
    match r
    case Raw(_, data) =>
      if Within(a, px, py) then IsColour(f, p, data, ((py - a.y) * a.w + (px - a.x)) * Bpp(f)) else p == before[py][px]
    case CopyRect(_, sx, sy) =>
      var qx, qy := sx + (px - a.x), sy + (py - a.y);
      p == if Within(a, px, py) && InPicture(before, qx, qy) then before[qy][qx] else before[py][px]
    case Rre(_, background, subrects) =>
      var k := Topmost(a, subrects, px, py);
      if k >= 0 then IsColour(f, p, subrects[k].colour, 0)
      else if Within(a, px, py) then IsColour(f, p, background, 0)
      else p == before[py][px]
    case Hextile(_, _) => true
  }

  predicate SameSize(p: Picture, q: Picture) {
    |p| == |q| && forall j :: 0 <= j < |p| ==> |p[j]| == |q[j]|
  }

  /** Every pixel of the picture is the one that the rectangle leaves there. */
  ghost predicate Drawn(f: Format, before: Picture, r: Rect, after: Picture) {
    && SameSize(before, after)
    && forall px, py :: InPicture(before, px, py) ==> PixelDrawn(f, before, r, after[py][px], px, py)
  }

  lemma SizesStay(f: Format, cv: Canvas, r: Rect)
    requires ValidRect(f, cv.colours, r) && !r.Hextile?
    ensures SameSize(cv.pic, PaintRect(f, cv, r).pic)
  {
    hide PixelAt, Bpp, Line, PixelOf, ValidSubrects, PaintSubrects;
    if r.Rre? {
      var p := PixelAt(f, r.background, 0);
      var filled := Fill(cv.pic, r.area.x, r.area.y, r.area.w, r.area.h, p);
      FillSize(cv.pic, r.area.x, r.area.y, r.area.w, r.area.h, p);
      SubrectsSize(f, filled, r.area, r.subrects);
      hide Fill;
    }
  }

  lemma {:induction false} SubrectsSize(f: Format, pic: Picture, a: Area, ss: seq<Subrect>)
    requires ValidSubrects(f, ss)
    ensures SameSize(pic, PaintSubrects(f, pic, a, ss))
    decreases |ss|
  {
    if ss == [] {
      assert PaintSubrects(f, pic, a, ss) == pic;
    } else {
      hide *;
      var p, next := SubrectsStep(f, pic, a, ss);
      FillSize(pic, a.x + ss[0].x, a.y + ss[0].y, ss[0].w, ss[0].h, p);
      SubrectsSize(f, next, a, ss[1..]);
      SameSizeTwice(pic, next, PaintSubrects(f, pic, a, ss));
    }
  }

  lemma FillSize(pic: Picture, x: int, y: int, w: int, h: int, p: Pixel)
    ensures SameSize(pic, Fill(pic, x, y, w, h, p))
  {
  }

  lemma SameSizeTwice(p: Picture, q: Picture, r: Picture)
    requires SameSize(p, q) && SameSize(q, r)
    ensures SameSize(p, r)
  {
  }

  lemma RrePixel(f: Format, cv: Canvas, r: Rect, px: int, py: int)
    requires ValidRect(f, cv.colours, r) && r.Rre? && InPicture(cv.pic, px, py)
    ensures InPicture(PaintRect(f, cv, r).pic, px, py)
    ensures PixelDrawn(f, cv.pic, r, PaintRect(f, cv, r).pic[py][px], px, py)
  {
    var a, p := r.area, PixelAt(f, r.background, 0);
    ColourIs(f, p, r.background, 0);
    var filled := Fill(cv.pic, a.x, a.y, a.w, a.h, p);
    FillPixel(cv.pic, a.x, a.y, a.w, a.h, p, px, py);
    hide PixelAt, Bpp, Fill, IsColour, Topmost, ValidSubrects, PaintSubrects;
    SubrectsPixel(f, filled, a, r.subrects, px, py);
  }

  lemma RectPixel(f: Format, cv: Canvas, r: Rect, px: int, py: int)
    requires ValidRect(f, cv.colours, r) && !r.Hextile? && InPicture(cv.pic, px, py)
    ensures InPicture(PaintRect(f, cv, r).pic, px, py)
    ensures PixelDrawn(f, cv.pic, r, PaintRect(f, cv, r).pic[py][px], px, py)
  {
    hide Blit, Bpp, IsColour, Topmost, ValidSubrects, PaintSubrects, CopyArea, Fill, PixelAt;
    var a := r.area;
    match r
    case Raw(_, data) => if !Hollow(r) { BlitPixels(f, cv.pic, a.x, a.y, a.w, a.h, data, px, py); }
    case CopyRect(_, sx, sy) => CopyPixels(cv.pic, sx, sy, a.x, a.y, a.w, a.h, px, py);
    case Rre(_, _, _) => RrePixel(f, cv, r, px, py);
  }

  lemma RectDrawn(f: Format, cv: Canvas, r: Rect)
    requires ValidRect(f, cv.colours, r) && !r.Hextile?
    ensures Drawn(f, cv.pic, r, PaintRect(f, cv, r).pic)
  {
    hide PixelDrawn, PaintRect, ValidRect;
    SizesStay(f, cv, r);
    forall px, py | InPicture(cv.pic, px, py)
      ensures PixelDrawn(f, cv.pic, r, PaintRect(f, cv, r).pic[py][px], px, py)
    {
      RectPixel(f, cv, r, px, py);
    }
  }

  /* A rectangle of a stream */

  lemma {:induction false} RectsAppend(f: Format, cv: Canvas, rs: seq<Rect>, r: Rect)
    requires ValidRects(f, cv, rs + [r])
    ensures ValidRects(f, cv, rs) && ValidRect(f, PaintRects(f, cv, rs).colours, r)
    ensures PaintRects(f, cv, rs + [r]) == PaintRect(f, PaintRects(f, cv, rs), r)
    decreases |rs|
  {
    hide ValidRect, PaintRect;
    var all := rs + [r];
    if rs == [] {
      assert all == [r] && all[1..] == [];
      assert PaintRects(f, PaintRect(f, cv, r), []) == PaintRect(f, cv, r);
    } else {
      assert all[0] == rs[0] && all[1..] == rs[1..] + [r];
      RectsAppend(f, PaintRect(f, cv, rs[0]), rs[1..], r);
    }
  }

  lemma {:induction false} UpdatesAppend(f: Format, cv: Canvas, us: seq<Update>, u: Update)
    requires ValidUpdates(f, cv, us + [u])
    ensures ValidUpdates(f, cv, us) && ValidRects(f, PaintUpdates(f, cv, us), u.rects)
    ensures PaintUpdates(f, cv, us + [u]) == PaintRects(f, PaintUpdates(f, cv, us), u.rects)
    decreases |us|
  {
    hide ValidRects, PaintRects;
    var all := us + [u];
    if us == [] {
      assert all == [u] && all[1..] == [];
      assert PaintUpdates(f, PaintRects(f, cv, u.rects), []) == PaintRects(f, cv, u.rects);
    } else {
      assert all[0] == us[0] && all[1..] == us[1..] + [u];
      UpdatesAppend(f, PaintRects(f, cv, us[0].rects), us[1..], u);
    }
  }

  /** However a stream is cut: of what the client has drawn in front of its last rectangle, that rectangle
      makes the picture it ends with, pixel by pixel. */
  lemma LastRectShows(f: Format, pic: Picture, setup: Setup, us: seq<Update>, u: Update, rs: seq<Rect>, r: Rect,
                      events: seq<Event>)
    requires u.rects == rs + [r] && !r.Hextile?
    requires ValidUpdates(f, Canvas(pic, NoColours()), us + [u]) && AcceptedUpdates(us + [u])
    requires Delivered(events) == UpdatesBytes(f, Canvas(pic, NoColours()), us + [u])
    ensures ValidUpdates(f, Canvas(pic, NoColours()), us)
        && ValidRects(f, PaintUpdates(f, Canvas(pic, NoColours()), us), rs)
    ensures var s := Run(f, Fresh(pic, setup), events);
            var before := PaintRects(f, PaintUpdates(f, Canvas(pic, NoColours()), us), rs);
            !s.pending ==> s.m.status == Normal && s.m.done == |us| + 1 && Drawn(f, before.pic, r, s.m.pic)
  {
    hide *;
    var cv := Canvas(pic, NoColours());
    AnyCutting(f, pic, setup, us + [u], events);
    UpdatesAppend(f, cv, us, u);
    RectsAppend(f, PaintUpdates(f, cv, us), rs, r);
    RectDrawn(f, PaintRects(f, PaintUpdates(f, cv, us), rs), r);
    CanvasPic(Run(f, Fresh(pic, setup), events).m);
  }

  lemma CanvasPic(m: Machine)
    ensures CanvasOf(m).pic == m.pic
  {
  }
}
