/** However a stream of updates is cut into messages, the parser draws what a client that has
    it whole would draw, and never waits for bytes that the stream does not hold. */
module RfbSplit {
  import opened Numbers
  import opened Framebuffer
  import opened RfbFormat
  import opened RfbParser
  import opened RfbHandlers

  /* The loop over rectangles */

  /** m is in an update of which the rectangle under way and the rectangles after it are left. A
      handler that stopped in a rectangle waits for no more than the rectangle still has. */
  ghost predicate Going(f: Format, m: Machine, cur: Current, rects: seq<Rect>) {
    && Fits(f, m, cur) && m.fbu.rects == |rects| + (if cur.Nothing? then 0 else 1)
    && ValidRects(f, Finished(f, m, cur), rects)
    && (!cur.Nothing? && !cur.Pixelless? ==> 0 < m.fbu.bytes <= |CurBytes(f, m, cur)|)
    && (cur.Pixelless? ==> m.fbu.area.h == 0 && 0 < m.fbu.bytes == m.fbu.area.w * Bpp(f))
  }

  ghost function GoingBytes(f: Format, m: Machine, cur: Current, rects: seq<Rect>): seq<byte>
    requires Going(f, m, cur, rects)
  {
    CurBytes(f, m, cur) + RectsBytes(f, Finished(f, m, cur), rects)
  }

  ghost function GoingCanvas(f: Format, m: Machine, cur: Current, rects: seq<Rect>): Canvas
    requires Going(f, m, cur, rects)
  {
    PaintRects(f, Finished(f, m, cur), rects)
  }

  /** What the client has drawn at the end of the update, or where it stops. */
  ghost function GoingSeen(f: Format, m: Machine, cur: Current, rects: seq<Rect>): (Canvas, Obstacle)
    requires Going(f, m, cur, rects)
  {
    var s := SeenFinish(f, m, cur);
    if s.1.None? then SeenRects(f, Finished(f, m, cur), rects) else s
  }

  lemma ReadsHeader(a: Area, encoding: nat, more: seq<byte>)
    requires ValidArea(a) && encoding < 256
    ensures var q := HeaderBytes(a, encoding) + more;
            && Area(Shift16(q, 0), Shift16(q, 2), Shift16(q, 4), Shift16(q, 6)) == a
            && Shift32(q, 8) == encoding && q[12..] == more
  {
    var h, q := HeaderBytes(a, encoding), HeaderBytes(a, encoding) + more;
    ReadsWords([], a.x, a.y, a.w, a.h, []);
    assert h == U16(a.x) + U16(a.y) + U16(a.w) + U16(a.h) + [0, 0, 0, encoding];
    assert q[..12] == h;
    assert forall i :: 0 <= i < 12 ==> q[i] == h[i];
  }

  /** What is left of a rectangle whose header has been read. */
  function Start(r: Rect): Current {
    match r
    case Raw(a, data) => if Hollow(r) then Pixelless else RawLines(a.h, data)
    case CopyRect(_, sx, sy) => CopyFrom(sx, sy)
    case Rre(_, background, subrects) => RreNew(background, subrects)
    case Hextile(_, tiles) => Tiles(0, tiles)
  }

  /** A machine that has read the header of r. */
  lemma Started(f: Format, m: Machine, m1: Machine, r: Rect)
    requires Fits(f, m, Nothing) && m.fbu.rects > 0 && ValidRect(f, ColoursOf(m), r)
    requires m1 == m.(queue := m1.queue, fbu := m.fbu.(area := r.area, encoding := Encoding(r)))
    ensures Fits(f, m1, Start(r)) && CurBytes(f, m1, Start(r)) == BodyBytes(f, ColoursOf(m), r)
    ensures Finished(f, m1, Start(r)) == PaintRect(f, CanvasOf(m), r)
    ensures SeenFinish(f, m1, Start(r)) == SeenRect(f, CanvasOf(m), r) && m1.status == Normal
  {
    hide Bpp, ValidSubrects, ValidTiles, PaintTiles, SeenTiles, PaintSubrects,
        Blit, CopyArea, Fill, PixelAt, TilesBytes, SubrectsBytes, U16, U32;
  }

  lemma RectsStep(f: Format, cv: Canvas, rs: seq<Rect>)
    requires rs != [] && ValidRects(f, cv, rs)
    ensures ValidRect(f, cv.colours, rs[0]) && ValidArea(rs[0].area) && ValidRects(f, PaintRect(f, cv, rs[0]), rs[1..])
    ensures PaintRects(f, cv, rs) == PaintRects(f, PaintRect(f, cv, rs[0]), rs[1..])
    ensures RectsBytes(f, cv, rs)
         == HeaderBytes(rs[0].area, Encoding(rs[0]))
             + (BodyBytes(f, cv.colours, rs[0]) + RectsBytes(f, PaintRect(f, cv, rs[0]), rs[1..]))
    ensures var s := SeenRect(f, cv, rs[0]);
            SeenRects(f, cv, rs) == if s.1.None? then SeenRects(f, PaintRect(f, cv, rs[0]), rs[1..]) else s
  {
    hide PaintRect, BodyBytes, HeaderBytes, SeenRect;
  }

  lemma NothingLeft(f: Format, m: Machine)
    requires Fits(f, m, Nothing)
    ensures CurBytes(f, m, Nothing) == [] && Finished(f, m, Nothing) == CanvasOf(m)
        && m.fbu.bytes == 0 && m.status == Normal
    ensures CanvasOf(m).colours == ColoursOf(m) && SeenFinish(f, m, Nothing) == (CanvasOf(m), None)
  {
  }

  lemma HeaderUnfold(m: Machine, r: Rect, more: seq<byte>)
    requires ValidArea(r.area) && m.queue == HeaderBytes(r.area, Encoding(r)) + more
    ensures |m.queue| >= 12
    ensures WithHeader(m) == m.(queue := more, fbu := m.fbu.(area := r.area, encoding := Encoding(r)))
  {
    hide HeaderBytes, Shift16, Shift32;
    ReadsHeader(r.area, Encoding(r), more);
  }

  lemma Regroup(h: seq<byte>, b: seq<byte>, t: seq<byte>, rest: seq<byte>)
    ensures ([] + (h + (b + t))) + rest == h + (b + (t + rest)) && (b + t) + rest == b + (t + rest)
  {
  }

  /** Reading a rectangle header. */
  lemma HeaderRead(f: Format, m: Machine, rects: seq<Rect>, future: seq<byte>, rest: seq<byte>)
          returns (m1: Machine, cur: Current)
    requires Going(f, m, Nothing, rects) && rects != [] && |m.queue| >= 12
    requires Arrived(m.queue, future, GoingBytes(f, m, Nothing, rects) + rest)
    ensures m1 == WithHeader(m) && |m1.queue| < |m.queue| && !cur.Nothing?
        && Fits(f, m1, cur) && m1.fbu.rects == m.fbu.rects && m1.done == m.done
    ensures m1.fbu.tiles == 0
    ensures ValidRects(f, Finished(f, m1, cur), rects[1..])
    ensures Arrived(m1.queue, future, CurBytes(f, m1, cur) + (RectsBytes(f, Finished(f, m1, cur), rects[1..]) + rest))
    ensures PaintRects(f, Finished(f, m1, cur), rects[1..]) == GoingCanvas(f, m, Nothing, rects)
    ensures m1.status == Normal
    ensures var s := SeenFinish(f, m1, cur);
            GoingSeen(f, m, Nothing, rects) == if s.1.None? then SeenRects(f, Finished(f, m1, cur), rects[1..]) else s
  {
    hide *;
    GoingIs(f, m, Nothing, rects);
    NothingLeft(f, m);
    RectsStep(f, CanvasOf(m), rects);
    var r := rects[0];
    var h, b := HeaderBytes(r.area, Encoding(r)), BodyBytes(f, ColoursOf(m), r);
    var t := RectsBytes(f, PaintRect(f, CanvasOf(m), r), rects[1..]);
    Regroup(h, b, t, rest);
    TailArrived(m.queue, future, h, b + (t + rest));
    HeaderUnfold(m, r, m.queue[12..]);
    m1, cur := WithHeader(m), Start(r);
    Started(f, m, m1, r);
    StartsSomething(f, m, r);
  }

  lemma StartsSomething(f: Format, m: Machine, r: Rect)
    requires Fits(f, m, Nothing)
    ensures !Start(r).Nothing? && m.fbu.tiles == 0
  {
  }

  lemma GoingIs(f: Format, m: Machine, cur: Current, rects: seq<Rect>)
    requires Going(f, m, cur, rects)
    ensures Fits(f, m, cur) && m.fbu.rects == |rects| + (if cur.Nothing? then 0 else 1)
    ensures ValidRects(f, Finished(f, m, cur), rects) && (m.status == Normal || m.status == Failed)
    ensures var s := SeenFinish(f, m, cur);
            GoingSeen(f, m, cur, rects) == if s.1.None? then SeenRects(f, Finished(f, m, cur), rects) else s
    ensures !cur.Nothing? && !cur.Pixelless? ==> 0 < m.fbu.bytes <= |CurBytes(f, m, cur)|
    ensures cur.Pixelless? ==> m.fbu.area.h == 0 && 0 < m.fbu.bytes == m.fbu.area.w * Bpp(f) && m.status == Normal
    ensures cur.Nothing? ==> m.fbu.bytes == 0
    ensures GoingBytes(f, m, cur, rects) == CurBytes(f, m, cur) + RectsBytes(f, Finished(f, m, cur), rects)
    ensures GoingCanvas(f, m, cur, rects) == PaintRects(f, Finished(f, m, cur), rects)
  {
    hide ValidRects, Finished, SeenFinish, SeenRects, CurBytes, ValidTiles, ValidSubrects, Bpp;
  }

  /** A client that waits in a Raw rectangle without pixels has drawn what is in front of it. */
  lemma GoingBlocked(f: Format, m: Machine, cur: Current, rects: seq<Rect>)
    requires Going(f, m, cur, rects) && cur.Pixelless?
    ensures m.fbu.rects > 0 && GoingSeen(f, m, cur, rects) == (CanvasOf(m), NoPixels)
  {
    hide *;
    GoingIs(f, m, cur, rects);
    PixellessShows(f, m);
  }

  lemma PixellessShows(f: Format, m: Machine)
    requires Fits(f, m, Pixelless)
    ensures SeenFinish(f, m, Pixelless) == (CanvasOf(m), NoPixels) && Finished(f, m, Pixelless) == CanvasOf(m)
    ensures CurBytes(f, m, Pixelless) == []
  {
  }

  /** A client that failed shows what it has drawn, and nothing more. */
  lemma GoingStuck(f: Format, m: Machine, cur: Current, rects: seq<Rect>)
    requires Going(f, m, cur, rects) && m.status == Failed
    ensures m.fbu.rects > 0 && GoingSeen(f, m, cur, rects) == (CanvasOf(m), Tile31)
  {
    hide *;
    GoingIs(f, m, cur, rects);
    StuckShows(f, m, cur);
  }

  lemma StuckShows(f: Format, m: Machine, cur: Current)
    requires Fits(f, m, cur) && m.status == Failed
    ensures !cur.Nothing? && SeenFinish(f, m, cur) == (CanvasOf(m), Tile31)
  {
    hide ValidTiles, ValidTile, After, TileArea, Bpp, Blit, PaintTile;
  }

  lemma FitsCoherent(f: Format, m: Machine, cur: Current)
    requires Fits(f, m, cur) && (m.fbu.tiles == 0 || m.fbu.bytes > 0)
    ensures Coherent(m)
  {
    hide ValidTiles, ValidSubrects, Bpp, TileCount, TilesAcross;
  }

  lemma GoingReady(f: Format, m: Machine, cur: Current, rects: seq<Rect>)
    requires Going(f, m, cur, rects)
    ensures Ready(m) && Coherent(m) && (!cur.Nothing? ==> Modelled(m.fbu.encoding))
  {
    hide *;
    GoingIs(f, m, cur, rects);
    TilesOfNothing(f, m, cur);
    FitsCoherent(f, m, cur);
    if !cur.Nothing? { EncodingOf(f, m, cur); }
    ReadyIf(m);
  }

  lemma TilesOfNothing(f: Format, m: Machine, cur: Current)
    requires Fits(f, m, cur)
    ensures cur.Nothing? ==> m.fbu.tiles == 0
  {
  }

  lemma ReadyIf(m: Machine)
    requires Coherent(m) && (m.fbu.bytes != 0 ==> Modelled(m.fbu.encoding))
    ensures Ready(m)
  {
  }

  lemma HandledIs(f: Format, m: Machine, cur: Current, m': Machine,
          ret: Ret, cur': Current, future: seq<byte>, rest: seq<byte>)
    requires Handled(f, m, cur, m', ret, cur', future, rest)
    ensures Fits(f, m, cur) && Fits(f, m', cur') && m'.done == m.done && Finished(f, m', cur') == Finished(f, m, cur)
    ensures SeenFinish(f, m', cur') == SeenFinish(f, m, cur)
    ensures Arrived(m'.queue, future, CurBytes(f, m', cur') + rest)
    ensures m'.fbu.rects == m.fbu.rects - (if cur'.Nothing? then 1 else 0) && (cur'.Nothing? ==> ret == Done)
    ensures !cur'.Nothing? ==> 0 < m'.fbu.bytes <= |CurBytes(f, m', cur')|
    ensures ret != Thrown && (ret == More && m'.status == Normal ==> |m'.queue| < m'.fbu.bytes)
    ensures m'.status != Normal ==> ret == More
    ensures !cur'.Pixelless?
  {
    hide Fits, Finished, SeenFinish, CurBytes, Arrived;
  }

  lemma GoingIf(f: Format, m: Machine, cur: Current, rects: seq<Rect>)
    requires Fits(f, m, cur) && m.fbu.rects == |rects| + (if cur.Nothing? then 0 else 1)
    requires ValidRects(f, Finished(f, m, cur), rects)
    requires !cur.Nothing? && !cur.Pixelless? ==> 0 < m.fbu.bytes <= |CurBytes(f, m, cur)|
    requires cur.Pixelless? ==> m.fbu.area.h == 0 && 0 < m.fbu.bytes == m.fbu.area.w * Bpp(f)
    ensures Going(f, m, cur, rects)
  {
    hide ValidRects, Finished, CurBytes, Fits, Bpp;
  }

  /** One handler call of the loop, after the header has been read if there was none. */
  lemma OneCall(f: Format, m: Machine, cur: Current, rects: seq<Rect>, future: seq<byte>, rest: seq<byte>)
    returns (m2: Machine, ret: Ret, cur2: Current, rects2: seq<Rect>)
    requires Going(f, m, cur, rects) && m.fbu.rects > 0 && m.status == Normal
    requires cur.Nothing? ==> |m.queue| >= 12
    requires !cur.Nothing? ==> |m.queue| >= m.fbu.bytes
    requires Arrived(m.queue, future, GoingBytes(f, m, cur, rects) + rest)
    ensures m.fbu.bytes == 0 ==> |m.queue| >= 12
    ensures var m1 := if m.fbu.bytes == 0 then WithHeader(m) else m;
            && Coherent(m1) && Modelled(m1.fbu.encoding) && m1.fbu.rects > 0 && Handle(f, m1) == (m2, ret)
            && (ret == Done ==> Progress(m1, m2)) && |m1.queue| <= |m.queue|
            && (m.fbu.bytes == 0 ==> |m1.queue| < |m.queue|)
            && m1.fbu.rects == m.fbu.rects && |m2.queue| <= |m1.queue| && m2.fbu.rects <= m1.fbu.rects
    ensures m2.done == m.done && Ready(m2)
    ensures ret == Thrown ==> GoingSeen(f, m, cur, rects) == (CanvasOf(m2), NoPixels)
    ensures ret != Thrown ==>
      && Going(f, m2, cur2, rects2) && Arrived(m2.queue, future, GoingBytes(f, m2, cur2, rects2) + rest)
      && GoingCanvas(f, m2, cur2, rects2) == GoingCanvas(f, m, cur, rects)
      && GoingSeen(f, m2, cur2, rects2) == GoingSeen(f, m, cur, rects)
    ensures ret == More ==> !cur2.Nothing? && (m2.status == Normal ==> |m2.queue| < m2.fbu.bytes)
    ensures m2.status != Normal ==> ret == More
  {
    hide *;
    GoingIs(f, m, cur, rects);
    var m1, cur1 := m, cur;
    rects2 := rects;
    if cur.Nothing? {
      NothingLeft(f, m);
      m1, cur1 := HeaderRead(f, m, rects, future, rest);
      rects2 := rects[1..];
    } else {
      TilesOfNothing(f, m, cur);
      Regroup([], CurBytes(f, m, cur), RectsBytes(f, Finished(f, m, cur), rects), rest);
    }
    FitsCoherent(f, m1, cur1);
    var tail := RectsBytes(f, Finished(f, m1, cur1), rects2);
    if cur1.Pixelless? {
      PixellessShows(f, m1);
      m2, ret := PixellessCall(f, m1, rects2, future, tail + rest);
      cur2 := Pixelless;
      if ret == More {
        PixellessShows(f, m2);
        Regroup([], [], tail, rest);
        GoingIf(f, m2, cur2, rects2);
        GoingIs(f, m2, cur2, rects2);
      }
    } else {
      cur2 := HandleStep(f, m1, cur1, future, tail + rest);
      m2, ret := Handle(f, m1).0, Handle(f, m1).1;
      HandledIs(f, m1, cur1, m2, ret, cur2, future, tail + rest);
      Regroup([], CurBytes(f, m2, cur2), tail, rest);
      GoingIf(f, m2, cur2, rects2);
      GoingIs(f, m2, cur2, rects2);
      GoingReady(f, m2, cur2, rects2);
    }
  }

  lemma PixellessCall(f: Format, m: Machine, rects: seq<Rect>, future: seq<byte>, rest: seq<byte>)
    returns (m': Machine, ret: Ret)
    requires Fits(f, m, Pixelless) && Coherent(m) && ValidRects(f, Finished(f, m, Pixelless), rects)
    requires Arrived(m.queue, future, [] + rest)
    ensures m.fbu.rects > 0 && Modelled(m.fbu.encoding) && Handle(f, m) == (m', ret) && ret != Done
    ensures m'.queue == m.queue && m'.done == m.done && m'.fbu.rects == m.fbu.rects && CanvasOf(m') == CanvasOf(m)
    ensures m'.status == Normal && Ready(m')
    ensures ret == More ==>
      && Fits(f, m', Pixelless) && ValidRects(f, Finished(f, m', Pixelless), rects)
      && m'.fbu.area.h == 0 && |m'.queue| < m'.fbu.bytes == m'.fbu.area.w * Bpp(f)
  {
    hide *;
    PixellessStep(f, m);
    HandleUnfold(f, m);
    m', ret := RfbParser.Raw(f, m).0, RfbParser.Raw(f, m).1;
    PixellessShows(f, m);
    if ret == More { PixellessShows(f, m'); }
    PixellessReady(f, m, m');
  }

  lemma PixellessReady(f: Format, m: Machine, m': Machine)
    requires Fits(f, m, Pixelless)
    requires m' == m.(fbu := m.fbu.(lines := m'.fbu.lines, bytes := m'.fbu.bytes))
    ensures Ready(m') && m'.status == Normal && CanvasOf(m') == CanvasOf(m) && Modelled(m.fbu.encoding)
    ensures m'.queue == m.queue && m'.done == m.done && m'.fbu.rects == m.fbu.rects
  {
  }

  lemma RectsUnfold(f: Format, m: Machine)
    requires Ready(m) && m.status == Normal
    ensures m.fbu.rects <= 0 ==> Rects(f, m) == (m.(done := m.done + 1), Done)
    ensures m.fbu.rects > 0 && (|m.queue| < m.fbu.bytes || (m.fbu.bytes == 0 && |m.queue| < 12))
        ==> Rects(f, m) == (m, More)
  {
  }

  lemma RectsCall(f: Format, m: Machine, m2: Machine, ret: Ret)
    requires Ready(m) && m.status == Normal && m.fbu.rects > 0
        && |m.queue| >= m.fbu.bytes && (m.fbu.bytes == 0 ==> |m.queue| >= 12)
    requires var m1 := if m.fbu.bytes == 0 then WithHeader(m) else m;
             Coherent(m1) && Modelled(m1.fbu.encoding) && m1.fbu.rects > 0 && Handle(f, m1) == (m2, ret)
    requires Ready(m2)
    ensures Rects(f, m) == if ret == Done then Rects(f, m2) else (m2, ret)
  {
    hide Handle, WithHeader, Coherent;
    OnlyOne(if m.fbu.bytes == 0 then WithHeader(m).fbu.encoding else m.fbu.encoding);
  }

  lemma OnlyOne(encoding: int)
    ensures !(Modelled(encoding) && NamedOnly(encoding))
  {
  }

  lemma WaitsLess(m: Machine, m1: Machine, m2: Machine)
    requires m1.fbu.rects == m.fbu.rects && |m2.queue| <= |m1.queue| && m2.fbu.rects <= m1.fbu.rects && Progress(m1, m2)
    requires |m1.queue| <= |m.queue| && |m.queue| >= m.fbu.bytes
    ensures m2.fbu.rects < m.fbu.rects || |m2.queue| < |m.queue| || (|m2.queue| == |m.queue| && Waits(m2) < Waits(m))
  {
  }

  lemma FewBytes(f: Format, m: Machine, cur: Current, rects: seq<Rect>)
    requires Going(f, m, cur, rects) && m.fbu.rects > 0
    ensures cur.Nothing? ==> |GoingBytes(f, m, cur, rects)| >= 12
    ensures !cur.Nothing? && !cur.Pixelless? ==> m.fbu.bytes <= |CurBytes(f, m, cur)| <= |GoingBytes(f, m, cur, rects)|
  {
    hide *;
    GoingIs(f, m, cur, rects);
    if cur.Nothing? {
      NothingLeft(f, m);
      RectsStep(f, CanvasOf(m), rects);
    }
  }

  /** The loop over rectangles, entered at any point of an update and with any part of it
      arrived: it ends the update, or stops with less in the queue than the update still has. */
  lemma {:induction false} RectsLoop(f: Format, m: Machine,
          cur: Current, rects: seq<Rect>, future: seq<byte>, rest: seq<byte>)
    returns (m': Machine, ret: Ret, cur': Current, rects': seq<Rect>)
    requires Going(f, m, cur, rects) && m.status == Normal
    requires Arrived(m.queue, future, GoingBytes(f, m, cur, rects) + rest)
    ensures Ready(m) && Rects(f, m) == (m', ret)
    ensures ret == Thrown ==> GoingSeen(f, m, cur, rects) == (CanvasOf(m'), NoPixels) && m'.done == m.done
    ensures ret == Thrown ==> m'.status == Normal
    ensures ret != Thrown ==>
      && Going(f, m', cur', rects') && Arrived(m'.queue, future, GoingBytes(f, m', cur', rects') + rest)
      && GoingCanvas(f, m', cur', rects') == GoingCanvas(f, m, cur, rects)
      && GoingSeen(f, m', cur', rects') == GoingSeen(f, m, cur, rects)
    ensures ret == Done ==> m'.fbu.rects == 0 && m'.done == m.done + 1 && m'.status == Normal
    ensures ret == More ==> m'.fbu.rects > 0 && m'.done == m.done
    ensures ret == More && m'.status == Normal && !cur'.Pixelless? ==> |m'.queue| < |GoingBytes(f, m', cur', rects')|
    decreases m.fbu.rects, |m.queue|, Waits(m)
  {
    hide *;
    GoingIs(f, m, cur, rects);
    GoingReady(f, m, cur, rects);
    RectsUnfold(f, m);
    if m.fbu.rects == 0 {
      m', ret, cur', rects' := m.(done := m.done + 1), Done, cur, rects;
      Counted(f, m, cur, rects, m');
    } else if |m.queue| < m.fbu.bytes || (m.fbu.bytes == 0 && |m.queue| < 12) {
      m', ret, cur', rects' := m, More, cur, rects;
      FewBytes(f, m, cur, rects);
    } else {
      var m2, ret2, cur2, rects2 := OneCall(f, m, cur, rects, future, rest);
      RectsCall(f, m, m2, ret2);
      if ret2 == Thrown {
        m', ret, cur', rects' := m2, ret2, cur, rects;
      } else if ret2 == Done {
        WaitsLess(m, if m.fbu.bytes == 0 then WithHeader(m) else m, m2);
        m', ret, cur', rects' := RectsLoop(f, m2, cur2, rects2, future, rest);
      } else {
        m', ret, cur', rects' := m2, ret2, cur2, rects2;
        GoingIs(f, m2, cur2, rects2);
        FewBytes(f, m2, cur2, rects2);
      }
    }
  }

  /** What is left does not depend on the queue or on the count of updates. */
  lemma Counted(f: Format, m: Machine, cur: Current, rects: seq<Rect>, m': Machine)
    requires Going(f, m, cur, rects) && m' == m.(queue := m'.queue, done := m'.done)
    ensures Going(f, m', cur, rects) && GoingBytes(f, m', cur, rects) == GoingBytes(f, m, cur, rects)
    ensures GoingCanvas(f, m', cur, rects) == GoingCanvas(f, m, cur, rects)
    ensures GoingSeen(f, m', cur, rects) == GoingSeen(f, m, cur, rects)
  {
    hide *;
    GoingIs(f, m, cur, rects);
    SameLeft(f, m, cur, m');
    GoingIf(f, m', cur, rects);
    GoingIs(f, m', cur, rects);
  }

  lemma SameLeft(f: Format, m: Machine, cur: Current, m': Machine)
    requires Fits(f, m, cur) && m' == m.(queue := m'.queue, done := m'.done)
    ensures Fits(f, m', cur) && CurBytes(f, m', cur) == CurBytes(f, m, cur)
        && Finished(f, m', cur) == Finished(f, m, cur)
    ensures SeenFinish(f, m', cur) == SeenFinish(f, m, cur)
  {
    hide SeenTiles, Refused, ValidTiles, ValidSubrects, Bpp, TileCount, TilesAcross,
        PaintTiles, PaintSubrects, Blit, CopyArea, Fill, PixelAt, TilesBytes,
      SubrectsBytes, U16, U32;
  }

  /* Sessions */

  /** What is left of a stream: the rectangle under way, the rectangles after it in its update,
      and the updates after that. */
  datatype Left = Left(cur: Current, rects: seq<Rect>, updates: seq<Update>)

  /** The queue holds what has arrived of it, and `future` is still to come. */
  ghost predicate Following(f: Format, m: Machine, left: Left, future: seq<byte>) {
    && Going(f, m, left.cur, left.rects)
    && ValidUpdates(f, GoingCanvas(f, m, left.cur, left.rects), left.updates)
    && Arrived(m.queue, future, GoingBytes(f, m, left.cur, left.rects)
                                + UpdatesBytes(f, GoingCanvas(f, m, left.cur, left.rects), left.updates))
  }

  /** The canvas at the end of the stream. */
  ghost function Target(f: Format, m: Machine, left: Left): Canvas
    requires Going(f, m, left.cur, left.rects) && ValidUpdates(f, GoingCanvas(f, m, left.cur, left.rects), left.updates)
  {
    PaintUpdates(f, GoingCanvas(f, m, left.cur, left.rects), left.updates)
  }

  /** What the client gets to in all: what the update under way comes to, and the updates after it. */
  function Outcome(s: (Canvas, Obstacle), done: nat, busy: bool, rest: Seen): Seen {
    if !s.1.None? then Seen(s.0, done, s.1) else rest.(updates := rest.updates + done + if busy then 1 else 0)
  }

  ghost function Outlook(f: Format, m: Machine, left: Left): Seen
    requires Going(f, m, left.cur, left.rects) && ValidUpdates(f, GoingCanvas(f, m, left.cur, left.rects), left.updates)
  {
    Outcome(GoingSeen(f, m, left.cur, left.rects), m.done, m.fbu.rects > 0,
      SeenUpdates(f, GoingCanvas(f, m, left.cur, left.rects), left.updates))
  }

  /** Updates that are not complete. */
  function ToDo(m: Machine, left: Left): nat {
    |left.updates| + if m.fbu.rects > 0 then 1 else 0
  }

  /** Where a machine is going: what it will have drawn, what a client shows of that, and the number of
      updates. */
  datatype Plan = Plan(canvas: Canvas, seen: Seen, updates: nat)

  ghost function PlanOf(f: Format, m: Machine, left: Left): Plan
    requires Going(f, m, left.cur, left.rects) && ValidUpdates(f, GoingCanvas(f, m, left.cur, left.rects), left.updates)
  {
    Plan(Target(f, m, left), Outlook(f, m, left), m.done + ToDo(m, left))
  }

  lemma FollowingIs(f: Format, m: Machine, left: Left, future: seq<byte>)
    requires Following(f, m, left, future)
    ensures Going(f, m, left.cur, left.rects) && ValidUpdates(f, GoingCanvas(f, m, left.cur, left.rects), left.updates)
    ensures Arrived(m.queue, future, GoingBytes(f, m, left.cur, left.rects)
                                     + UpdatesBytes(f, GoingCanvas(f, m, left.cur, left.rects), left.updates))
    ensures Target(f, m, left) == PaintUpdates(f, GoingCanvas(f, m, left.cur, left.rects), left.updates)
    ensures ToDo(m, left) == |left.updates| + if m.fbu.rects > 0 then 1 else 0
    ensures Outlook(f, m, left) == Outcome(GoingSeen(f, m, left.cur, left.rects), m.done, m.fbu.rects > 0,
      SeenUpdates(f, GoingCanvas(f, m, left.cur, left.rects), left.updates))
  {
    hide Going, GoingCanvas, GoingBytes, GoingSeen, ValidUpdates,
        UpdatesBytes, PaintUpdates, SeenUpdates, Outcome, Arrived;
  }

  lemma FollowingIf(f: Format, m: Machine, left: Left, future: seq<byte>)
    requires Going(f, m, left.cur, left.rects) && ValidUpdates(f, GoingCanvas(f, m, left.cur, left.rects), left.updates)
    requires Arrived(m.queue, future, GoingBytes(f, m, left.cur, left.rects)
                                      + UpdatesBytes(f, GoingCanvas(f, m, left.cur, left.rects), left.updates))
    ensures Following(f, m, left, future)
  {
    hide Going, GoingCanvas, GoingBytes, ValidUpdates, UpdatesBytes, PaintUpdates, Arrived;
  }

  lemma UpdatesStep(f: Format, cv: Canvas, us: seq<Update>)
    requires us != [] && ValidUpdates(f, cv, us)
    ensures |us[0].rects| < 0x1_0000 && ValidRects(f, cv, us[0].rects)
        && ValidUpdates(f, PaintRects(f, cv, us[0].rects), us[1..])
    ensures PaintUpdates(f, cv, us) == PaintUpdates(f, PaintRects(f, cv, us[0].rects), us[1..])
    ensures UpdatesBytes(f, cv, us)
         == [0, us[0].padding] + (U16(|us[0].rects|)
            + (RectsBytes(f, cv, us[0].rects) + UpdatesBytes(f, PaintRects(f, cv, us[0].rects), us[1..])))
    ensures SeenUpdates(f, cv, us)
         == Outcome(SeenRects(f, cv, us[0].rects), 0, true, SeenUpdates(f, PaintRects(f, cv, us[0].rects), us[1..]))
  {
    hide PaintRects, ValidRects, RectsBytes, SeenRects;
  }

  lemma UpdateHead(queue: seq<byte>, future: seq<byte>, padding: byte, n: nat, tail: seq<byte>)
    requires n < 0x1_0000 && queue != [] && Arrived(queue, future, [0, padding] + (U16(n) + tail))
    ensures queue[0] == 0
    ensures |queue| >= 4 ==> Shift16(queue, 2) == n && Arrived(queue[4..], future, tail)
    ensures |queue| < 4 ==> future != []
  {
    var q := [0, padding] + U16(n);
    assert [0, padding] + (U16(n) + tail) == q + tail;
    ArrivedAt(queue, future, q + tail);
    if |queue| >= 4 {
      TailArrived(queue, future, q, tail);
    }
  }

  /** Between updates nothing is left of the last one. */
  lemma Between(f: Format, m: Machine, cur: Current, rects: seq<Rect>)
    requires Going(f, m, cur, rects) && m.fbu.rects == 0
    ensures cur.Nothing? && rects == [] && GoingBytes(f, m, cur, rects) == []
        && GoingCanvas(f, m, cur, rects) == CanvasOf(m)
    ensures GoingSeen(f, m, cur, rects) == (CanvasOf(m), None) && m.status == Normal
  {
    hide *;
    GoingIs(f, m, cur, rects);
    NothingLeft(f, m);
    NoRects(f, CanvasOf(m));
  }

  lemma NoRects(f: Format, cv: Canvas)
    ensures ValidRects(f, cv, []) && RectsBytes(f, cv, []) == []
        && PaintRects(f, cv, []) == cv && SeenRects(f, cv, []) == (cv, None)
  {
  }

  lemma GoingNew(f: Format, m: Machine, m1: Machine, rects: seq<Rect>)
    requires Fits(f, m, Nothing) && ValidRects(f, CanvasOf(m), rects)
    requires m1 == m.(queue := m1.queue, fbu := m.fbu.(rects := |rects|, bytes := 0))
    ensures Going(f, m1, Nothing, rects)
    ensures GoingBytes(f, m1, Nothing, rects) == RectsBytes(f, CanvasOf(m), rects)
    ensures GoingCanvas(f, m1, Nothing, rects) == PaintRects(f, CanvasOf(m), rects)
    ensures GoingSeen(f, m1, Nothing, rects) == SeenRects(f, CanvasOf(m), rects) && m1.status == Normal
  {
    hide ValidRects, RectsBytes, PaintRects, SeenRects;
  }

  lemma NormalUnfold(f: Format, m: Machine)
    requires Ready(m) && (m.fbu.rects > 0 || m.queue != [])
    ensures m.fbu.rects > 0 ==> NormalMsg(f, m) == Rects(f, m)
    ensures m.fbu.rects <= 0 && m.queue[0] == 0 && |m.queue| < 4 ==> NormalMsg(f, m) == (m, More)
    ensures m.fbu.rects <= 0 && m.queue[0] == 0 && |m.queue| >= 4 ==>
      var m1 := m.(queue := m.queue[4..], fbu := m.fbu.(rects := Shift16(m.queue, 2), bytes := 0));
      Ready(m1) && NormalMsg(f, m) == Rects(f, m1)
  {
    hide Rects, Shift16;
  }

  /** Less in the queue than the update under way still has: more must come. */
  lemma MoreComes(queue: seq<byte>, future: seq<byte>, now: seq<byte>, later: seq<byte>)
    requires Arrived(queue, future, now + later) && |queue| < |now|
    ensures future != []
  {
  }

  /** An update is counted when it ends. */
  lemma Counts(s: (Canvas, Obstacle), done: nat, rest: Seen)
    ensures s.1.None? ==> Outcome(s, done + 1, false, rest) == Outcome(s, done, true, rest)
  {
  }

  lemma BeginsUpdate(cv: Canvas, s: (Canvas, Obstacle), done: nat, rest: Seen)
    ensures Outcome((cv, None), done, false, Outcome(s, 0, true, rest)) == Outcome(s, done, true, rest)
  {
  }

  /** One call of the message handler. */
  lemma CallStep(f: Format, m: Machine, left: Left, future: seq<byte>) returns (m': Machine, ret: Ret, left': Left)
    requires Following(f, m, left, future) && m.queue != [] && m.status == Normal
    ensures Ready(m) && NormalMsg(f, m) == (m', ret)
    ensures ret == Thrown ==> Outlook(f, m, left) == Seen(CanvasOf(m'), m'.done, NoPixels) && m'.status == Normal
    ensures ret != Thrown ==>
      && Following(f, m', left', future) && Target(f, m', left') == Target(f, m, left)
      && Outlook(f, m', left') == Outlook(f, m, left)
    ensures ret == Done ==> ToDo(m', left') == ToDo(m, left) - 1 && m'.done == m.done + 1 && m'.status == Normal
    ensures ret == More ==> ToDo(m', left') == ToDo(m, left) && m'.done == m.done
    ensures ret == More && m'.status == Normal && !left'.cur.Pixelless? ==> future != []
  {
    hide *;
    FollowingIs(f, m, left, future);
    GoingIs(f, m, left.cur, left.rects);
    GoingReady(f, m, left.cur, left.rects);
    NormalUnfold(f, m);
    var m1, rects, us := m, left.rects, left.updates;
    if m.fbu.rects == 0 {
      Between(f, m, left.cur, left.rects);
      var b := UpdatesBytes(f, CanvasOf(m), us);
      assert [] + b == b;
      SomeUpdate(f, m.queue, future, CanvasOf(m), us);
      UpdatesStep(f, CanvasOf(m), us);
      var tail := RectsBytes(f, CanvasOf(m), us[0].rects)
          + UpdatesBytes(f, PaintRects(f, CanvasOf(m), us[0].rects), us[1..]);
      UpdateHead(m.queue, future, us[0].padding, |us[0].rects|, tail);
      if |m.queue| >= 4 {
        m1 := m.(queue := m.queue[4..], fbu := m.fbu.(rects := |us[0].rects|, bytes := 0));
        rects, us := us[0].rects, us[1..];
        GoingNew(f, m, m1, rects);
        BeginsUpdate(CanvasOf(m), SeenRects(f, CanvasOf(m), rects),
            m.done, SeenUpdates(f, PaintRects(f, CanvasOf(m), rects), us));
      }
    }
    if m.fbu.rects == 0 && |m.queue| < 4 {
      m', ret, left' := m, More, left;
    } else {
      var cur', rects';
      m', ret, cur', rects' :=
          RectsLoop(f, m1, left.cur, rects, future, UpdatesBytes(f, GoingCanvas(f, m1, left.cur, rects), us));
      if ret == Thrown {
        left' := left;
        EndsEarly(CanvasOf(m'), m.done, true, SeenUpdates(f, GoingCanvas(f, m1, left.cur, rects), us));
        return;
      }
      left' := Left(cur', rects', us);
      FollowingIf(f, m', left', future);
      FollowingIs(f, m', left', future);
      var seen := GoingSeen(f, m', cur', rects');
      if ret == Done {
        Between(f, m', cur', rects');
        Counts(seen, m.done, SeenUpdates(f, GoingCanvas(f, m', cur', rects'), us));
      } else if m'.status == Normal && !cur'.Pixelless? {
        MoreComes(m'.queue, future, GoingBytes(f, m', cur', rects'),
            UpdatesBytes(f, GoingCanvas(f, m', cur', rects'), us));
      }
    }
  }

  lemma SomeUpdate(f: Format, queue: seq<byte>, future: seq<byte>, cv: Canvas, us: seq<Update>)
    requires ValidUpdates(f, cv, us) && Arrived(queue, future, UpdatesBytes(f, cv, us)) && queue != []
    ensures us != []
  {
    hide PaintRects, ValidRects, RectsBytes;
  }

  lemma NoBytesLeft(f: Format, m: Machine, left: Left)
    requires Following(f, m, left, []) && m.queue == [] && !left.cur.Pixelless?
    ensures ToDo(m, left) == 0
  {
    hide *;
    FollowingIs(f, m, left, []);
    if m.fbu.rects > 0 {
      GoingIs(f, m, left.cur, left.rects);
      FewBytes(f, m, left.cur, left.rects);
    } else if left.updates != [] {
      UpdatesStep(f, GoingCanvas(f, m, left.cur, left.rects), left.updates);
    }
    GoingIs(f, m, left.cur, left.rects);
    NothingArrived(GoingBytes(f, m, left.cur, left.rects),
        UpdatesBytes(f, GoingCanvas(f, m, left.cur, left.rects), left.updates));
  }

  lemma NothingArrived(now: seq<byte>, later: seq<byte>)
    ensures Arrived([], [], now + later) ==> now == [] && later == []
  {
  }

  lemma Requeued(f: Format, m: Machine, left: Left, data: seq<byte>, future: seq<byte>)
    requires Following(f, m, left, data + future)
    ensures var m' := m.(queue := m.queue + data);
            && Following(f, m', left, future) && Target(f, m', left) == Target(f, m, left)
            && ToDo(m', left) == ToDo(m, left)
            && Outlook(f, m', left) == Outlook(f, m, left)
  {
    hide *;
    var m' := m.(queue := m.queue + data);
    FollowingIs(f, m, left, data + future);
    Counted(f, m, left.cur, left.rects, m');
    Appended(m.queue, data, future);
    FollowingIf(f, m', left, future);
    FollowingIs(f, m', left, future);
  }

  lemma Appended(queue: seq<byte>, data: seq<byte>, future: seq<byte>)
    ensures forall s: seq<byte> :: Arrived(queue, data + future, s) ==> Arrived(queue + data, future, s)
  {
    assert (queue + data) + future == queue + (data + future);
  }

  lemma NormalOrFailed(f: Format, m: Machine, left: Left, future: seq<byte>)
    requires Following(f, m, left, future)
    ensures Ready(m) && (m.status == Normal || m.status == Failed)
    ensures m.status == Failed ==> Outlook(f, m, left) == Seen(CanvasOf(m), m.done, Tile31)
    ensures left.cur.Pixelless? ==> m.status == Normal && Outlook(f, m, left) == Seen(CanvasOf(m), m.done, NoPixels)
  {
    hide *;
    FollowingIs(f, m, left, future);
    GoingIs(f, m, left.cur, left.rects);
    GoingReady(f, m, left.cur, left.rects);
    if left.cur.Pixelless? {
      GoingBlocked(f, m, left.cur, left.rects);
      EndsEarly(CanvasOf(m), m.done, m.fbu.rects > 0,
        SeenUpdates(f, GoingCanvas(f, m, left.cur, left.rects), left.updates));
    } else if m.status == Failed {
      GoingStuck(f, m, left.cur, left.rects);
      EndsEarly(CanvasOf(m), m.done, m.fbu.rects > 0,
        SeenUpdates(f, GoingCanvas(f, m, left.cur, left.rects), left.updates));
    }
  }

  lemma Ends(cv: Canvas, done: nat)
    ensures Outcome((cv, None), done, false, Seen(cv, 0, None)) == Seen(cv, done, None)
  {
  }

  lemma EndsEarly(cv: Canvas, done: nat, busy: bool, rest: Seen)
    ensures Outcome((cv, Tile31), done, busy, rest) == Seen(cv, done, Tile31)
    ensures Outcome((cv, NoPixels), done, busy, rest) == Seen(cv, done, NoPixels)
  {
  }

  lemma HandleMessageUnfold(f: Format, s: Session)
    requires Ready(s.m)
    ensures s.m.queue == [] || s.m.status != Normal ==> HandleMessage(f, s) == s
    ensures s.m.queue != [] && s.m.status == Normal ==>
      var (m, ret) := NormalMsg(f, s.m);
      var more := ret == Done && m.queue != [];
      var s' := HandleMessage(f, s);
      && s'.thrown == (s.thrown || ret == Thrown) && s'.setup == s.setup
      && s'.m == (if m.status == Failed then m.(pic := Cleared(s.setup, m.pic)) else m)
      && s'.pending == if m.status == Failed then more else s.pending || more
  {
    hide NormalMsg, Cleared;
  }

  /** How far a client has got: its machine, what is left of the stream, and the bytes that are still to
      come. The machine of a client that has failed is that of the moment before its clean-up, and the
      bytes that came later are still to come. Once a handler has thrown, the parser may read anything: the
      track ends there. */
  datatype Track = Track(m: Machine, left: Left, future: seq<byte>)

  ghost predicate Tracks(f: Format, s: Session, t: Track, future: seq<byte>) {
    && Following(f, t.m, t.left, t.future)
    && if s.thrown then Ready(s.m) && Outlook(f, t.m, t.left).obstacle == NoPixels
       else if t.m.status == Failed then s.m == t.m.(pic := Cleared(s.setup, t.m.pic)) && !s.pending
       else s.m == t.m && t.future == future
  }

  lemma TracksIs(f: Format, s: Session, t: Track, future: seq<byte>)
    requires Tracks(f, s, t, future)
    ensures Ready(s.m) && (t.m.status == Normal || t.m.status == Failed)
    ensures s.thrown ==> Outlook(f, t.m, t.left).obstacle == NoPixels
    ensures !s.thrown && t.m.status == Normal ==> s.m == t.m && t.future == future
    ensures !s.thrown && t.m.status == Failed ==> s.m == t.m.(pic := Cleared(s.setup, t.m.pic)) && !s.pending
    ensures !s.thrown ==> s.m.status == t.m.status
    ensures t.m.status == Failed ==> Outlook(f, t.m, t.left) == Seen(CanvasOf(t.m), t.m.done, Tile31)
    ensures t.left.cur.Pixelless? ==>
      t.m.status == Normal && Outlook(f, t.m, t.left) == Seen(CanvasOf(t.m), t.m.done, NoPixels)
  {
    hide Following, Outlook, Cleared, Ready;
    NormalOrFailed(f, t.m, t.left, t.future);
    if !s.thrown { SameReady(t.m, s.m); }
  }

  lemma SameReady(m: Machine, m': Machine)
    requires Ready(m) && m'.fbu == m.fbu
    ensures Ready(m')
  {
  }

  lemma TracksIf(f: Format, s: Session, t: Track, future: seq<byte>)
    requires Following(f, t.m, t.left, t.future)
    requires if s.thrown then Ready(s.m) && Outlook(f, t.m, t.left).obstacle == NoPixels
             else if t.m.status == Failed then s.m == t.m.(pic := Cleared(s.setup, t.m.pic)) && !s.pending
             else s.m == t.m && t.future == future
    ensures Tracks(f, s, t, future)
  {
    hide Following;
  }

  /** Unless the timer is set or the client has stopped, all of a stream that has arrived whole has been
      drawn. */
  ghost predicate Calm(s: Session, left: Left, future: seq<byte>) {
    s.pending || s.thrown || s.m.status == Failed || left.cur.Pixelless? || (future == [] ==> ToDo(s.m, left) == 0)
  }

  /** The message handler, whether it is entered from the socket or from the timer. */
  lemma HandleMessageStep(f: Format, s: Session, left: Left, future: seq<byte>) returns (t: Track)
    requires Following(f, s.m, left, future) && s.m.status == Normal && !s.thrown
    ensures Ready(s.m)
    ensures var s' := HandleMessage(f, s);
            && Tracks(f, s', t, future) && PlanOf(f, t.m, t.left) == PlanOf(f, s.m, left) && Calm(s', t.left, future)
            && (!s'.thrown && future == [] && !s.pending && s'.pending ==> ToDo(t.m, t.left) < ToDo(s.m, left))
  {
    hide NormalMsg, Following, Target, ToDo, Outlook, HandleMessage, Ready, Cleared;
    NormalOrFailed(f, s.m, left, future);
    HandleMessageUnfold(f, s);
    t := Track(s.m, left, future);
    if s.m.queue != [] {
      var m', ret, left' := CallStep(f, s.m, left, future);
      if ret != Thrown {
        t := Track(m', left', future);
        NormalOrFailed(f, m', left', future);
        if m'.queue == [] && future == [] && !left'.cur.Pixelless? { NoBytesLeft(f, m', left'); }
      }
    } else if future == [] && !left.cur.Pixelless? {
      NoBytesLeft(f, s.m, left);
    }
    TracksIf(f, HandleMessage(f, s), t, future);
  }

  function Data(e: Event): seq<byte> {
    match e
    case Message(data) => data
    case Timer => []
  }

  function Delivered(events: seq<Event>): seq<byte> {
    if events == [] then [] else Data(events[0]) + Delivered(events[1..])
  }

  lemma EventStep(f: Format, s: Session, e: Event, t: Track, future: seq<byte>) returns (t': Track)
    requires Tracks(f, s, t, Data(e) + future) && Calm(s, t.left, Data(e) + future)
    ensures Ready(s.m)
    ensures var s' := Step(f, s, e);
            && Tracks(f, s', t', future) && PlanOf(f, t'.m, t'.left) == PlanOf(f, t.m, t.left)
            && Calm(s', t'.left, future)
            && (!s'.thrown && e.Timer? && future == [] && s'.pending ==> ToDo(t'.m, t'.left) < ToDo(t.m, t.left))
            && (!s'.thrown && e.Timer? && !s.pending ==> !s'.pending)
  {
    hide HandleMessage, Following, Target, ToDo, Outlook, Ready, Cleared;
    TracksIs(f, s, t, Data(e) + future);
    t' := t;
    if s.thrown || t.m.status == Failed {
      TracksIf(f, Step(f, s, e), t, future);
    } else if e.Message? {
      Requeued(f, s.m, t.left, e.data, future);
      t' := HandleMessageStep(f, s.(m := s.m.(queue := s.m.queue + e.data)), t.left, future);
    } else {
      assert Data(e) + future == future;
      if s.pending { t' := HandleMessageStep(f, s.(pending := false), t.left, future); }
    }
  }

  lemma RunUnfold(f: Format, s: Session, events: seq<Event>)
    requires Ready(s.m)
    ensures events == [] ==> Run(f, s, events) == s && Delivered(events) == []
    ensures events != [] ==> Run(f, s, events) == Run(f, Step(f, s, events[0]), events[1..])
    ensures events != [] ==> Delivered(events) == Data(events[0]) + Delivered(events[1..])
  {
    hide Step;
  }

  lemma {:induction false} RunFollows(f: Format, s: Session, events: seq<Event>, t: Track, future: seq<byte>)
          returns (t': Track)
    requires Tracks(f, s, t, Delivered(events) + future) && Calm(s, t.left, Delivered(events) + future)
    ensures Ready(s.m)
    ensures var s' := Run(f, s, events);
            Tracks(f, s', t', future) && PlanOf(f, t'.m, t'.left) == PlanOf(f, t.m, t.left) && Calm(s', t'.left, future)
    decreases |events|
  {
    hide *;
    TracksIs(f, s, t, Delivered(events) + future);
    RunUnfold(f, s, events);
    if events == [] {
      t' := t;
      assert [] + future == future;
    } else {
      var d := Delivered(events[1..]);
      assert (Data(events[0]) + d) + future == Data(events[0]) + (d + future);
      var t1 := EventStep(f, s, events[0], t, d + future);
      t' := RunFollows(f, Step(f, s, events[0]), events[1..], t1, future);
    }
  }

  /* The theorems */

  function NoColours(): Colours {
    Colours([], [], 0)
  }

  /** A client that has just entered its normal state. */
  function Fresh(pic: Picture, setup: Setup): (s: Session)
    ensures Ready(s.m) && s.setup == setup && !s.thrown
  {
    Session(NewMachine(pic), false, false, setup)
  }

  function NewMachine(pic: Picture): Machine {
    Machine([], Fbu(0, 0, Area(0, 0, 0, 0), 0, 0, 0, 0, 0, 0, 0, [], []), pic, 0, Normal)
  }

  /** Nothing of the stream has arrived. */
  function AtStart(pic: Picture, us: seq<Update>, stream: seq<byte>): Track {
    Track(NewMachine(pic), Left(Nothing, [], us), stream)
  }

  lemma FreshFollows(f: Format, pic: Picture, setup: Setup, us: seq<Update>, stream: seq<byte>)
    requires ValidUpdates(f, Canvas(pic, NoColours()), us) && stream == UpdatesBytes(f, Canvas(pic, NoColours()), us)
    ensures var s, t, cv := Fresh(pic, setup), AtStart(pic, us, stream), Canvas(pic, NoColours());
            && Tracks(f, s, t, stream) && Calm(s, t.left, stream) && ToDo(t.m, t.left) == |us| && t.m.done == 0
            && PlanOf(f, t.m, t.left) == Plan(PaintUpdates(f, cv, us), SeenUpdates(f, cv, us), |us|)
  {
    var m, left := NewMachine(pic), Left(Nothing, [], us);
    assert Fits(f, m, Nothing) && CanvasOf(m) == Canvas(pic, NoColours());
    hide *;
    NothingLeft(f, m);
    NoRects(f, CanvasOf(m));
    FreshGoing(f, pic);
    Between(f, m, Nothing, []);
    assert [] + stream == stream;
    FreshEmpty(pic, stream);
    FollowingIf(f, m, left, stream);
    FollowingIs(f, m, left, stream);
    AllAhead(CanvasOf(m), SeenUpdates(f, CanvasOf(m), us));
    if stream == [] { NoBytesLeft(f, m, left); }
    FreshCalm(pic, setup, us, stream);
    TracksIf(f, Fresh(pic, setup), AtStart(pic, us, stream), stream);
    PlanIs(f, m, left);
  }

  lemma PlanIs(f: Format, m: Machine, left: Left)
    requires Going(f, m, left.cur, left.rects) && ValidUpdates(f, GoingCanvas(f, m, left.cur, left.rects), left.updates)
    ensures PlanOf(f, m, left) == Plan(Target(f, m, left), Outlook(f, m, left), m.done + ToDo(m, left))
  {
  }

  lemma AllAhead(cv: Canvas, rest: Seen)
    ensures Outcome((cv, None), 0, false, rest) == rest
  {
  }

  lemma FreshGoing(f: Format, pic: Picture)
    ensures var m := NewMachine(pic);
            Going(f, m, Nothing, []) && m.fbu.rects == 0 && m.done == 0 && m.status == Normal
  {
  }

  lemma FreshEmpty(pic: Picture, stream: seq<byte>)
    ensures NewMachine(pic).queue == [] && Arrived([], stream, stream)
  {
    assert [] + stream == stream;
  }

  lemma FreshCalm(pic: Picture, setup: Setup, us: seq<Update>, stream: seq<byte>)
    ensures var s, t := Fresh(pic, setup), AtStart(pic, us, stream);
            && t == Track(NewMachine(pic), Left(Nothing, [], us), stream) && s.m == t.m && !s.pending && !s.thrown
            && ((stream == [] ==> ToDo(t.m, t.left) == 0) ==> Calm(s, t.left, stream))
  {
  }

  /** Where a client is when no byte of a stream is still to come and no timer is set. It has drawn all of it;
      or it has failed at a tile of mask 31, and shows the cleared display; or a Raw rectangle without pixels
      has made a handler throw, or keeps it waiting with everything in front drawn. */
  predicate Shows(s: Session, seen: Seen) {
    match seen.obstacle
    case None =>
      !s.thrown && CanvasOf(s.m) == seen.canvas && s.m.done == seen.updates && s.m.status == Normal && s.m.queue == []
    case Tile31 =>
      && !s.thrown && s.m.pic == Cleared(s.setup, seen.canvas.pic) && ColoursOf(s.m) == seen.canvas.colours
      && s.m.done == seen.updates && s.m.status == Failed
    case NoPixels =>
      s.thrown || (CanvasOf(s.m) == seen.canvas && s.m.done == seen.updates && s.m.status == Normal)
  }

  /** However the bytes of a stream of legal updates are cut, and whenever the timer fires: once all of
      them have been delivered and the timer is not set, the client is where the stream as a whole says. */
  lemma StopsWhere(f: Format, pic: Picture, setup: Setup, us: seq<Update>, events: seq<Event>)
    requires ValidUpdates(f, Canvas(pic, NoColours()), us)
    requires Delivered(events) == UpdatesBytes(f, Canvas(pic, NoColours()), us)
    ensures var s := Run(f, Fresh(pic, setup), events);
            s.setup == setup && (!s.pending ==> Shows(s, SeenUpdates(f, Canvas(pic, NoColours()), us)))
  {
    hide *;
    var cv := Canvas(pic, NoColours());
    var stream := UpdatesBytes(f, cv, us);
    FreshFollows(f, pic, setup, us, stream);
    assert stream + [] == stream;
    var t := RunFollows(f, Fresh(pic, setup), events, AtStart(pic, us, stream), []);
    var s := Run(f, Fresh(pic, setup), events);
    if !s.pending { AtEnd(f, s, t, cv, us); }
  }

  lemma AtEnd(f: Format, s: Session, t: Track, cv: Canvas, us: seq<Update>)
    requires Tracks(f, s, t, []) && Calm(s, t.left, []) && !s.pending && ValidUpdates(f, cv, us)
    requires PlanOf(f, t.m, t.left) == Plan(PaintUpdates(f, cv, us), SeenUpdates(f, cv, us), |us|)
    ensures Shows(s, SeenUpdates(f, cv, us))
  {
    hide *;
    TracksFollows(f, s, t, []);
    PlanIs(f, t.m, t.left);
    TracksIs(f, s, t, []);
    CalmIs(s, t.left, []);
    if !s.thrown && s.m.status == Normal && !t.left.cur.Pixelless? { AllDone(f, s.m, t.left); }
    ShowsIf(s, t.m, SeenUpdates(f, cv, us));
  }

  lemma TracksFollows(f: Format, s: Session, t: Track, future: seq<byte>)
    requires Tracks(f, s, t, future)
    ensures Following(f, t.m, t.left, t.future)
    ensures Going(f, t.m, t.left.cur, t.left.rects)
        && ValidUpdates(f, GoingCanvas(f, t.m, t.left.cur, t.left.rects), t.left.updates)
  {
    hide Going, ValidUpdates, GoingCanvas;
  }

  lemma ShowsIf(s: Session, m: Machine, seen: Seen)
    requires s.thrown ==> seen.obstacle == NoPixels
    requires !s.thrown ==> CanvasOf(m) == seen.canvas && m.done == seen.updates
    requires !s.thrown ==> s.m == if seen.obstacle == Tile31 then m.(pic := Cleared(s.setup, m.pic)) else m
    requires !s.thrown ==> s.m.status == if seen.obstacle == Tile31 then Failed else Normal
    requires !s.thrown && seen.obstacle == None ==> s.m.queue == []
    ensures Shows(s, seen)
  {
    hide Cleared;
  }

  /** Everything has been drawn: nothing was thrown, nothing is left unread, and every update has been counted
      once. */
  predicate GotThrough(s: Session, n: nat) {
    !s.thrown && s.m.status == Normal && s.m.queue == [] && s.m.done == n
  }

  /** So the client gets through a stream of legal updates exactly if no tile has mask 31 and every Raw
      rectangle has a pixel. */
  lemma ThroughExactly(f: Format, pic: Picture, setup: Setup, us: seq<Update>, events: seq<Event>)
    requires ValidUpdates(f, Canvas(pic, NoColours()), us)
    requires Delivered(events) == UpdatesBytes(f, Canvas(pic, NoColours()), us)
    ensures var s := Run(f, Fresh(pic, setup), events); !s.pending ==> (GotThrough(s, |us|) <==> AcceptedUpdates(us))
  {
    hide *;
    StopsWhere(f, pic, setup, us, events);
    SeenUpdatesAll(f, Canvas(pic, NoColours()), us);
    ThroughIs(Run(f, Fresh(pic, setup), events), SeenUpdates(f, Canvas(pic, NoColours()), us), |us|);
  }

  lemma ThroughIs(s: Session, seen: Seen, n: nat)
    requires if seen.obstacle == None then seen.updates == n else seen.updates < n
    ensures Shows(s, seen) ==> (GotThrough(s, n) <==> seen.obstacle == None)
  {
  }

  /** If every Raw rectangle has a pixel, the client fails exactly if some tile has mask 31. Its display is
      cleared then; only with debug logging it shows what is in front of the first such tile. */
  lemma FailsExactly(f: Format, pic: Picture, setup: Setup, us: seq<Update>, events: seq<Event>)
    requires ValidUpdates(f, Canvas(pic, NoColours()), us) && Solid(us)
    requires Delivered(events) == UpdatesBytes(f, Canvas(pic, NoColours()), us)
    ensures var s, seen := Run(f, Fresh(pic, setup), events), SeenUpdates(f, Canvas(pic, NoColours()), us);
            !s.pending ==>
              && !s.thrown && (s.m.status == Failed <==> !AcceptedUpdates(us))
              && s.m.pic == (if AcceptedUpdates(us) then seen.canvas.pic else Cleared(setup, seen.canvas.pic))
              && s.m.done == seen.updates
  {
    hide *;
    StopsWhere(f, pic, setup, us, events);
    SeenUpdatesAll(f, Canvas(pic, NoColours()), us);
    FailsIs(Run(f, Fresh(pic, setup), events), SeenUpdates(f, Canvas(pic, NoColours()), us));
  }

  lemma FailsIs(s: Session, seen: Seen)
    requires seen.obstacle != NoPixels
    ensures Shows(s, seen) ==>
      && !s.thrown && (s.m.status == Failed <==> seen.obstacle == Tile31) && s.m.done == seen.updates
      && s.m.pic == if seen.obstacle == None then seen.canvas.pic else Cleared(s.setup, seen.canvas.pic)
  {
    hide Cleared;
  }

  /** In particular, without obstacles: the picture is the one the updates describe, nothing is left
      unread, and every update has been counted once. */
  lemma AnyCutting(f: Format, pic: Picture, setup: Setup, us: seq<Update>, events: seq<Event>)
    requires ValidUpdates(f, Canvas(pic, NoColours()), us) && AcceptedUpdates(us)
    requires Delivered(events) == UpdatesBytes(f, Canvas(pic, NoColours()), us)
    ensures var s := Run(f, Fresh(pic, setup), events);
            !s.pending ==>
              && CanvasOf(s.m) == PaintUpdates(f, Canvas(pic, NoColours()), us)
              && s.m.queue == [] && s.m.done == |us| && s.m.status == Normal
  {
    hide *;
    StopsWhere(f, pic, setup, us, events);
    SeenUpdatesAll(f, Canvas(pic, NoColours()), us);
    ShowsAll(Run(f, Fresh(pic, setup), events), SeenUpdates(f, Canvas(pic, NoColours()), us));
  }

  lemma ShowsAll(s: Session, seen: Seen)
    requires seen.obstacle == None
    ensures Shows(s, seen)
        ==> CanvasOf(s.m) == seen.canvas && s.m.done == seen.updates && s.m.queue == [] && s.m.status == Normal
  {
  }

  /* Which streams the client gets through */

  lemma SeenRectAll(f: Format, cv: Canvas, r: Rect)
    requires ValidRect(f, cv.colours, r)
    ensures SeenRect(f, cv, r).1 == None <==> AcceptedRect(r)
    ensures SeenRect(f, cv, r).1 == NoPixels <==> Hollow(r)
    ensures AcceptedRect(r) ==> SeenRect(f, cv, r).0 == PaintRect(f, cv, r)
  {
    if r.Hextile? { SeenTilesAll(f, cv, r.area, 0, r.tiles); }
    hide SeenTiles, PaintTiles, ValidTiles, Accepted;
  }

  lemma {:induction false} SeenRectsAll(f: Format, cv: Canvas, rs: seq<Rect>)
    requires ValidRects(f, cv, rs)
    ensures SeenRects(f, cv, rs).1 == None <==> AcceptedRects(rs)
    ensures SeenRects(f, cv, rs).1 == NoPixels ==> exists k :: 0 <= k < |rs| && Hollow(rs[k])
    ensures AcceptedRects(rs) ==> SeenRects(f, cv, rs).0 == PaintRects(f, cv, rs)
    decreases rs
  {
    hide *;
    AcceptedRectsIs(rs);
    if rs == [] {
      NoRects(f, cv);
    } else {
      RectsStep(f, cv, rs);
      SeenRectAll(f, cv, rs[0]);
      SeenRectsAll(f, PaintRect(f, cv, rs[0]), rs[1..]);
      if SeenRects(f, cv, rs).1 == NoPixels && !Hollow(rs[0]) {
        var k :| 0 <= k < |rs[1..]| && Hollow(rs[1..][k]);
        assert rs[k + 1] == rs[1..][k];
      }
    }
  }

  lemma AcceptedRectsIs(rs: seq<Rect>)
    ensures rs == [] ==> AcceptedRects(rs)
    ensures rs != [] ==> (AcceptedRects(rs) <==> AcceptedRect(rs[0]) && AcceptedRects(rs[1..]))
  {
    hide AcceptedRect;
    if rs != [] && AcceptedRect(rs[0]) && AcceptedRects(rs[1..]) {
      forall i | 0 <= i < |rs| ensures AcceptedRect(rs[i]) {
        if i > 0 { assert rs[i] == rs[1..][i - 1]; }
      }
    }
  }

  lemma {:induction false} SeenUpdatesAll(f: Format, cv: Canvas, us: seq<Update>)
    requires ValidUpdates(f, cv, us)
    ensures var seen := SeenUpdates(f, cv, us);
      && (seen.obstacle == None <==> AcceptedUpdates(us))
      && (Solid(us) ==> seen.obstacle != NoPixels)
      && (if AcceptedUpdates(us) then seen.canvas == PaintUpdates(f, cv, us) && seen.updates == |us|
          else seen.updates < |us|)
    decreases us
  {
    hide *;
    AcceptedUpdatesIs(us);
    if us == [] {
      NoUpdates(f, cv);
    } else {
      UpdatesStep(f, cv, us);
      SeenRectsAll(f, cv, us[0].rects);
      SeenUpdatesAll(f, PaintRects(f, cv, us[0].rects), us[1..]);
      OneMore(SeenRects(f, cv, us[0].rects), SeenUpdates(f, PaintRects(f, cv, us[0].rects), us[1..]));
      SolidStep(us);
    }
  }

  lemma SolidStep(us: seq<Update>)
    requires us != []
    ensures Solid(us) ==> Solid(us[1..]) && forall k :: 0 <= k < |us[0].rects| ==> !Hollow(us[0].rects[k])
  {
    hide Hollow;
    if Solid(us) {
      forall i, k | 0 <= i < |us[1..]| && 0 <= k < |us[1..][i].rects| ensures !Hollow(us[1..][i].rects[k]) {
        assert us[1..][i] == us[i + 1];
      }
    }
  }

  lemma OneMore(s: (Canvas, Obstacle), rest: Seen)
    ensures var o := Outcome(s, 0, true, rest);
      && (o.obstacle == if s.1 == None then rest.obstacle else s.1)
      && (if s.1 == None then o.canvas == rest.canvas && o.updates == rest.updates + 1 else o.updates == 0)
  {
  }

  lemma AcceptedUpdatesIs(us: seq<Update>)
    ensures us == [] ==> AcceptedUpdates(us)
    ensures us != [] ==> (AcceptedUpdates(us) <==> AcceptedRects(us[0].rects) && AcceptedUpdates(us[1..]))
  {
    hide AcceptedRects;
    if us != [] && AcceptedRects(us[0].rects) && AcceptedUpdates(us[1..]) {
      forall i | 0 <= i < |us| ensures AcceptedRects(us[i].rects) {
        if i > 0 { assert us[i] == us[1..][i - 1]; }
      }
    }
  }

  lemma CalmIs(s: Session, left: Left, future: seq<byte>)
    requires Calm(s, left, future)
    ensures s.pending || s.thrown || s.m.status == Failed || left.cur.Pixelless?
      || (future == [] ==> ToDo(s.m, left) == 0)
  {
  }

  lemma AllDone(f: Format, m: Machine, left: Left)
    requires Following(f, m, left, []) && ToDo(m, left) == 0
    ensures m.queue == [] && CanvasOf(m) == Target(f, m, left) && Outlook(f, m, left) == Seen(CanvasOf(m), m.done, None)
  {
    hide *;
    FollowingIs(f, m, left, []);
    GoingIs(f, m, left.cur, left.rects);
    Between(f, m, left.cur, left.rects);
    NoUpdates(f, GoingCanvas(f, m, left.cur, left.rects));
    Ends(CanvasOf(m), m.done);
    AllRead(m.queue);
  }

  lemma NoUpdates(f: Format, cv: Canvas)
    ensures ValidUpdates(f, cv, []) && PaintUpdates(f, cv, []) == cv && UpdatesBytes(f, cv, []) == []
    ensures SeenUpdates(f, cv, []) == Seen(cv, 0, None)
  {
  }

  lemma AllRead(queue: seq<byte>)
    ensures Arrived(queue, [], [] + []) ==> queue == []
  {
  }

  function Timers(n: nat): seq<Event> {
    if n == 0 then [] else [Timer] + Timers(n - 1)
  }

  lemma TimersStep(f: Format, s: Session, n: nat)
    requires Ready(s.m)
    ensures n == 0 ==> Run(f, s, Timers(n)) == s
    ensures n > 0 ==> Run(f, s, Timers(n)) == Run(f, Step(f, s, Timer), Timers(n - 1))
  {
    hide Step;
    if n > 0 { assert Timers(n)[1..] == Timers(n - 1); }
  }

  /** The timer is set again only while updates are to be done. */
  lemma {:induction false} TimersEnd(f: Format, s: Session, t: Track, n: nat)
    requires Tracks(f, s, t, []) && Calm(s, t.left, [])
    requires PlanOf(f, t.m, t.left).seen.obstacle != NoPixels
    requires s.pending ==> n > ToDo(t.m, t.left)
    ensures Ready(s.m) && !Run(f, s, Timers(n)).pending
    decreases n
  {
    hide *;
    TracksIs(f, s, t, []);
    TimersStep(f, s, n);
    if n > 0 {
      DataOfTimer();
      var t' := EventStep(f, s, Timer, t, []);
      NeverThrown(f, Step(f, s, Timer), t', []);
      TimersEnd(f, Step(f, s, Timer), t', n - 1);
    }
  }

  lemma NeverThrown(f: Format, s: Session, t: Track, future: seq<byte>)
    requires Tracks(f, s, t, future) && PlanOf(f, t.m, t.left).seen.obstacle != NoPixels
    ensures !s.thrown && !t.left.cur.Pixelless?
  {
    hide *;
    TracksFollows(f, s, t, future);
    PlanIs(f, t.m, t.left);
    TracksIs(f, s, t, future);
  }

  lemma DataOfTimer()
    ensures Data(Timer) + [] == []
  {
  }

  /** The timer has to fire at most once more than there are updates. */
  lemma Completes(f: Format, pic: Picture, setup: Setup, us: seq<Update>, events: seq<Event>)
    requires ValidUpdates(f, Canvas(pic, NoColours()), us) && Solid(us)
    requires Delivered(events) == UpdatesBytes(f, Canvas(pic, NoColours()), us)
    ensures var s := Run(f, Run(f, Fresh(pic, setup), events), Timers(|us| + 1));
            && !s.pending && s.setup == setup && Shows(s, SeenUpdates(f, Canvas(pic, NoColours()), us))
            && (s.m.status == Failed <==> !AcceptedUpdates(us))
            && (AcceptedUpdates(us) ==>
                CanvasOf(s.m) == PaintUpdates(f, Canvas(pic, NoColours()), us) && s.m.queue == [] && s.m.done == |us|)
  {
    hide *;
    var cv := Canvas(pic, NoColours());
    var stream := UpdatesBytes(f, cv, us);
    FreshFollows(f, pic, setup, us, stream);
    assert stream + [] == stream;
    var t := RunFollows(f, Fresh(pic, setup), events, AtStart(pic, us, stream), []);
    var s := Run(f, Fresh(pic, setup), events);
    TracksFollows(f, s, t, []);
    PlanIs(f, t.m, t.left);
    SeenUpdatesAll(f, cv, us);
    TimersEnd(f, s, t, |us| + 1);
    NoData(|us| + 1);
    var t' := RunFollows(f, s, Timers(|us| + 1), t, []);
    var s' := Run(f, s, Timers(|us| + 1));
    AtEnd(f, s', t', cv, us);
    FailsIs(s', SeenUpdates(f, cv, us));
    if AcceptedUpdates(us) { ShowsAll(s', SeenUpdates(f, cv, us)); }
  }

  lemma {:induction false} NoData(n: nat)
    ensures Delivered(Timers(n)) + [] == []
  {
    if n > 0 {
      NoData(n - 1);
      assert Timers(n)[1..] == Timers(n - 1);
    }
  }

  /** At every moment of every run of a stream of legal updates, whose Raw rectangles have pixels, nothing has
      been thrown, what is left of the stream is known exactly, and the machine does not wait for a byte that
      the stream does not hold. It has failed only at a tile of mask 31, with what is in front of it drawn,
      and is cleared. */
  lemma NeverWaitsForTooMuch(f: Format, pic: Picture, setup: Setup, us: seq<Update>, events: seq<Event>,
          future: seq<byte>) returns (t: Track)
    requires ValidUpdates(f, Canvas(pic, NoColours()), us) && Solid(us)
    requires Delivered(events) + future == UpdatesBytes(f, Canvas(pic, NoColours()), us)
    ensures var s, seen := Run(f, Fresh(pic, setup), events), SeenUpdates(f, Canvas(pic, NoColours()), us);
            && Following(f, t.m, t.left, t.future) && t.m.fbu.bytes <= |t.m.queue| + |t.future|
            && (!t.left.cur.Nothing? ==> 0 < t.m.fbu.bytes <= |CurBytes(f, t.m, t.left.cur)|)
            && t.m.done + ToDo(t.m, t.left) == |us| && !s.thrown
            && (if s.m.status == Normal then s.m == t.m && t.future == future else
                && s.m.status == Failed && t.left.cur.Tiles? && Stuck(t.m, t.left.cur.tiles)
                && s.m == t.m.(pic := Cleared(setup, t.m.pic)) && !s.pending
                && seen == Seen(CanvasOf(t.m), t.m.done, Tile31) && !AcceptedUpdates(us))
  {
    hide *;
    var cv := Canvas(pic, NoColours());
    FreshFollows(f, pic, setup, us, Delivered(events) + future);
    t := RunFollows(f, Fresh(pic, setup), events, AtStart(pic, us, Delivered(events) + future), future);
    var s := Run(f, Fresh(pic, setup), events);
    TracksIs(f, s, t, future);
    TracksFollows(f, s, t, future);
    PlanIs(f, t.m, t.left);
    FollowingIs(f, t.m, t.left, t.future);
    SeenUpdatesAll(f, cv, us);
    NeverThrown(f, s, t, future);
    GoingIs(f, t.m, t.left.cur, t.left.rects);
    if t.m.fbu.rects > 0 { FewBytes(f, t.m, t.left.cur, t.left.rects); }
    ArrivedSize(t.m.queue, t.future, GoingBytes(f, t.m, t.left.cur, t.left.rects),
      UpdatesBytes(f, GoingCanvas(f, t.m, t.left.cur, t.left.rects), t.left.updates));
    if t.m.status == Failed {
      StuckWhere(f, t.m, t.left.cur);
    }
  }

  lemma StuckWhere(f: Format, m: Machine, cur: Current)
    requires Fits(f, m, cur) && m.status == Failed
    ensures cur.Tiles? && Stuck(m, cur.tiles)
  {
  }

  lemma ArrivedSize(queue: seq<byte>, future: seq<byte>, now: seq<byte>, later: seq<byte>)
    requires Arrived(queue, future, now + later)
    ensures |now| <= |queue| + |future|
  {
    assert |queue + future| == |now + later|;
  }

  /* A legal update that fails: one pixel, in a raw tile whose other bits are set too */

  function OnePixel(pixel: seq<byte>): seq<Update> {
    [Update(0, [Hextile(Area(0, 0, 1, 1), [Tile(31, pixel, [], [], [])])])]
  }

  function OnePixelBytes(pixel: seq<byte>): seq<byte> {
    [0, 0, 0, 1, 0, 0, 0, 0, 0, 1, 0, 1, 0, 0, 0, 5, 31] + pixel
  }

  lemma OneTile(f: Format, c: Colours, t: Tile)
    requires t == Tile(31, t.raw, [], [], []) && |t.raw| == Bpp(f)
    ensures TileCount(Area(0, 0, 1, 1)) == 1 && TileArea(Area(0, 0, 1, 1), 0) == Area(0, 0, 1, 1)
    ensures ValidTile(f, c, t, 1, 1) && TileBytes(t) == [31] + t.raw && Refused(t)
  {
    hide Bpp;
    assert TilesAcross(1) == 1;
  }

  lemma OnlyTile(f: Format, cv: Canvas, a: Area, t: Tile)
    requires TileCount(a) == 1 && ValidTile(f, cv.colours, t, TileArea(a, 0).w, TileArea(a, 0).h) && Refused(t)
    ensures ValidTiles(f, cv.colours, a, 0, [t])
    ensures TilesBytes(f, cv.colours, a, 0, [t]) == TileBytes(t) && SeenTiles(f, cv, a, 0, [t]) == (cv, Tile31)
  {
    hide ValidTile, TileCount, TileArea, TileBytes, After, Bpp, PaintTile, Refused;
    assert [t][1..] == [];
    assert ValidTiles(f, After(cv.colours, t), a, 1, []);
    assert TilesBytes(f, After(cv.colours, t), a, 1, []) == [];
    assert TileBytes(t) + [] == TileBytes(t);
  }

  lemma HextileRect(f: Format, cv: Canvas, r: Rect)
    requires r.Hextile? && ValidArea(r.area) && ValidTiles(f, cv.colours, r.area, 0, r.tiles)
    ensures ValidRect(f, cv.colours, r) && BodyBytes(f, cv.colours, r) == TilesBytes(f, cv.colours, r.area, 0, r.tiles)
    ensures SeenRect(f, cv, r) == SeenTiles(f, cv, r.area, 0, r.tiles)
  {
    hide ValidArea, ValidTiles, TilesBytes, SeenTiles, PaintRect, Bpp;
  }

  lemma InARow(a: seq<byte>, b: seq<byte>, c: seq<byte>, d: seq<byte>, e: seq<byte>)
    requires |a| == |b| == |c| == |d| == 2 && |e| == 4
    ensures a + (b + (c + (d + e))) == [a[0], a[1], b[0], b[1], c[0], c[1], d[0], d[1], e[0], e[1], e[2], e[3]]
  {
  }

  lemma HeaderIs(a: Area, encoding: nat)
    requires ValidArea(a) && encoding < 256
    ensures HeaderBytes(a, encoding) == U16(a.x) + (U16(a.y) + (U16(a.w) + (U16(a.h) + [0, 0, 0, encoding])))
  {
    hide U16;
  }

  lemma SmallNumber(v: nat)
    requires v < 256
    ensures U16(v) == [0, v]
  {
  }

  /** The header of a rectangle with small numbers. */
  lemma SmallHeader(a: Area, encoding: nat)
    requires a.x < 256 && a.y < 256 && a.w < 256 && a.h < 256 && encoding < 256
    ensures HeaderBytes(a, encoding) == [0, a.x, 0, a.y, 0, a.w, 0, a.h, 0, 0, 0, encoding]
  {
    hide U16;
    SmallNumber(a.x);
    SmallNumber(a.y);
    SmallNumber(a.w);
    SmallNumber(a.h);
    HeaderIs(a, encoding);
    InARow(U16(a.x), U16(a.y), U16(a.w), U16(a.h), [0, 0, 0, encoding]);
  }

  lemma OnlyRect(f: Format, cv: Canvas, r: Rect)
    requires ValidRect(f, cv.colours, r) && SeenRect(f, cv, r).1 != None
    ensures ValidRects(f, cv, [r]) && SeenRects(f, cv, [r]) == SeenRect(f, cv, r)
    ensures RectsBytes(f, cv, [r]) == HeaderBytes(r.area, Encoding(r)) + BodyBytes(f, cv.colours, r)
  {
    NoRects(f, PaintRect(f, cv, r));
    hide ValidRect, PaintRect, BodyBytes, SeenRect, HeaderBytes;
    assert [r][1..] == [];
    assert ValidRects(f, cv, [r]);
    RectsStep(f, cv, [r]);
    hide ValidRects, SeenRects, RectsBytes;
    assert BodyBytes(f, cv.colours, r) + [] == BodyBytes(f, cv.colours, r);
  }

  lemma OnlyUpdate(f: Format, cv: Canvas, rs: seq<Rect>)
    requires |rs| == 1 && ValidRects(f, cv, rs) && SeenRects(f, cv, rs).1 != None
    ensures ValidUpdates(f, cv, [Update(0, rs)])
    ensures SeenUpdates(f, cv, [Update(0, rs)]) == Seen(SeenRects(f, cv, rs).0, 0, SeenRects(f, cv, rs).1)
    ensures UpdatesBytes(f, cv, [Update(0, rs)]) == [0, 0] + (U16(1) + RectsBytes(f, cv, rs))
  {
    var us := [Update(0, rs)];
    NoUpdates(f, PaintRects(f, cv, rs));
    hide ValidRects, PaintRects, SeenRects, RectsBytes, U16;
    assert us[1..] == [];
    assert ValidUpdates(f, cv, us);
    UpdatesStep(f, cv, us);
    hide ValidUpdates, SeenUpdates, UpdatesBytes;
    assert RectsBytes(f, cv, rs) + [] == RectsBytes(f, cv, rs);
  }

  lemma OneByOne(r: Rect, pixel: seq<byte>)
    requires r == Hextile(Area(0, 0, 1, 1), [Tile(31, pixel, [], [], [])])
    ensures Encoding(r) == 5 && OnePixel(pixel) == [Update(0, [r])]
    ensures [0, 0] + (U16(1) + ([0, 0, 0, 0, 0, 1, 0, 1, 0, 0, 0, 5] + ([31] + pixel))) == OnePixelBytes(pixel)
  {
    assert U16(1) == [0, 1];
  }

  /** However it is cut, the client fails, and shows its cleared display. */
  lemma LegalPixelFails(f: Format, pic: Picture, setup: Setup, pixel: seq<byte>, events: seq<Event>)
    requires |pixel| == Bpp(f) && Delivered(events) == OnePixelBytes(pixel)
    ensures var s := Run(f, Fresh(pic, setup), events);
            !s.pending ==> s.m.status == Failed && s.m.pic == Cleared(setup, pic) && s.m.done == 0
  {
    var a := Area(0, 0, 1, 1);
    assert ValidArea(a);
    hide *;
    var cv, t := Canvas(pic, NoColours()), Tile(31, pixel, [], [], []);
    var r := Hextile(a, [t]);
    OneTile(f, cv.colours, t);
    OnlyTile(f, cv, a, t);
    HextileRect(f, cv, r);
    OnlyRect(f, cv, r);
    OnlyUpdate(f, cv, [r]);
    SmallHeader(a, 5);
    OneByOne(r, pixel);
    StopsWhere(f, pic, setup, OnePixel(pixel), events);
    ShowsNone(Run(f, Fresh(pic, setup), events), pic);
  }

  lemma ShowsNone(s: Session, pic: Picture)
    ensures Shows(s, Seen(Canvas(pic, NoColours()), 0, Tile31))
        ==> s.m.status == Failed && s.m.pic == Cleared(s.setup, pic) && s.m.done == 0
  {
  }

  /* A Raw rectangle without columns */

  function NoColumns(): seq<byte> {
    [0, 0, 0, 1, 0, 0, 0, 0, 0, 0, 0, 1, 0, 0, 0, 0]
  }

  lemma RawWithoutColumns(f: Format, m: Machine)
    requires m.fbu.area.w == 0 && m.fbu.lines == 0
    ensures RfbParser.Raw(f, m) == (m.(fbu := m.fbu.(lines := m.fbu.area.h, bytes := 0)), Thrown)
  {
    assert m.fbu.area.w * Bpp(f) == 0;
    hide Bpp;
  }

  lemma ReadsNoColumns(f: Format, m: Machine, h: nat, more: seq<byte>)
    requires Ready(m) && m.status == Normal && m.fbu.rects > 0
        && m.fbu.bytes == 0 && m.fbu.lines == 0 && m.fbu.tiles == 0 && h < 256
    requires m.queue == [0, 0, 0, 0, 0, 0, 0, h, 0, 0, 0, 0] + more
    ensures var r := Rects(f, m);
        r.1 == Thrown && r.0.done == m.done && r.0.fbu.rects == m.fbu.rects && r.0.pic == m.pic
  {
    hide *;
    var a := Area(0, 0, 0, h);
    NoColumnsArea(a);
    SmallHeader(a, 0);
    ReadsHeader(a, 0, more);
    NoColumnsHeader(m, h, more);
    var m1 := WithHeader(m);
    RawWithoutColumns(f, m1);
    HandleUnfold(f, m1);
    RectsCall(f, m, Handle(f, m1).0, Handle(f, m1).1);
  }

  lemma NoColumnsArea(a: Area)
    requires a.x < 256 && a.y < 256 && a.w < 256 && a.h < 256
    ensures ValidArea(a)
  {
  }

  lemma NoColumnsHeader(m: Machine, h: nat, more: seq<byte>)
    requires m.fbu.tiles == 0 && m.fbu.lines == 0 && m.fbu.rects > 0
        && h < 256 && m.queue == [0, 0, 0, 0, 0, 0, 0, h, 0, 0, 0, 0] + more
    requires Area(Shift16(m.queue, 0), Shift16(m.queue, 2), Shift16(m.queue, 4), Shift16(m.queue, 6))
        == Area(0, 0, 0, h)
    requires Shift32(m.queue, 8) == 0
    ensures |m.queue| >= 12
    ensures var m1 := WithHeader(m);
            && m1.fbu.area == Area(0, 0, 0, h) && m1.fbu.encoding == 0
            && m1.fbu.rects == m.fbu.rects && m1.fbu.lines == 0
            && m1.fbu.tiles == 0 && Coherent(m1) && Modelled(0) && m1.pic == m.pic && m1.done == m.done
            && Coherent(m1.(fbu := m1.fbu.(lines := h, bytes := 0)))
            && Ready(m1.(fbu := m1.fbu.(lines := h, bytes := 0)))
  {
    hide Shift16, Shift32;
  }

  /** An update with such a rectangle makes the client throw in the middle of it. */
  lemma EmptyRawThrows(f: Format, pic: Picture)
    ensures var m := NewMachine(pic).(queue := NoColumns());
            Ready(m) && NormalMsg(f, m).1 == Thrown && NormalMsg(f, m).0.done == 0 && NormalMsg(f, m).0.fbu.rects == 1
  {
    var q := NoColumns();
    var m := NewMachine(pic).(queue := q);
    var m1 := m.(queue := q[4..], fbu := m.fbu.(rects := 1, bytes := 0));
    assert q[4..] == [0, 0, 0, 0, 0, 0, 0, 1, 0, 0, 0, 0] + [];
    assert Shift16(q, 2) == 1 && Ready(m) && Ready(m1);
    NormalUnfold(f, m);
    var h := 1;
    ReadsNoColumns(f, m1, h, []);
    hide NormalMsg, Rects, Ready;
  }

  /* Counts of RRE subrectangles */

  /** A count of 2^31 or more turns negative: the client draws the background, takes the rectangle for
      finished, and goes on in the middle of it. */
  lemma RreCountTurnsNegative(f: Format, m: Machine, n: int)
    requires m.fbu.subrects == 0 && |m.queue| >= 4 + Bpp(f)
    requires n == Shift16(m.queue, 0) * 0x1_0000 + Shift16(m.queue, 2)
    ensures Shift32(m.queue, 0) == if n < 0x8000_0000 then n else n - 0x1_0000_0000
    ensures n >= 0x8000_0000 ==> var a := m.fbu.area;
      RfbParser.Rre(f, m) == (m.(queue := m.queue[4 + Bpp(f)..],
        fbu := m.fbu.(subrects := n - 0x1_0000_0000, rects := m.fbu.rects - 1, bytes := 0),
        pic := Fill(m.pic, a.x, a.y, a.w, a.h, PixelAt(f, m.queue, 4))), Done)
  {
    hide Fill, PixelAt, Bpp;
    Turns(m.queue[0], m.queue[1], m.queue[2], m.queue[3]);
  }

  lemma Turns(a: byte, b: byte, c: byte, d: byte)
    ensures var hi, lo := a * 256 + b, c * 256 + d;
            ToInt32(hi * 0x1_0000) + lo == if hi * 0x1_0000 + lo < 0x8000_0000
                then hi * 0x1_0000 + lo else hi * 0x1_0000 + lo - 0x1_0000_0000
  {
  }
}
