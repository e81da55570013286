/** The client: its handlers update its fields and the read index of the queue in place. Each
    method leaves exactly the state that the functions of module RfbParser prescribe. */
module Rfb {
  import opened Numbers
  import opened Framebuffer
  import opened RfbFormat
  import opened RfbParser
  import opened RfbHandlers
  import opened RfbSplit
  import opened Websock
  import Base64

  /* JavaScript's bit tests of a subencoding */

  lemma MaskBit(mask: nat, k: nat, bit: nat)
    requires bit == Pow2(k)
    ensures And(mask, bit) != 0 <==> Flag(mask, bit)
  {
    AndBit(mask, k);
    hide And, Pow2;
  }

  lemma Bits()
    ensures Pow2(0) == 1 && Pow2(1) == 2 && Pow2(2) == 4 && Pow2(3) == 8 && Pow2(4) == 16
  {
  }

  method TestMask(mask: nat, bit: nat) returns (r: bool)
    requires bit in {1, 2, 4, 8, 16}
    ensures r <==> Flag(mask, bit)
  {
    r := And(mask, bit) != 0;
    Bits();
    hide And, Pow2;
    var k := if bit == 1 then 0 else if bit == 2 then 1 else if bit == 4 then 2 else if bit == 8 then 3 else 4;
    MaskBit(mask, k, bit);
  }

  class Client {
    const sock: Queue
    const format: Format
    const setup: Setup
    var pic: Picture
    var done: nat
    var state: Status
    var timer: bool
    var thrown: bool

    // _FBU
    var rects: int
    var bytes: int
    var x: nat
    var y: nat
    var width: nat
    var height: nat
    var encoding: int
    var lines: int
    var subrects: int
    var tiles: nat
    var totalTiles: nat
    var tilesX: nat
    var lastSubencoding: nat
    var background: seq<byte>
    var foreground: seq<byte>

    ghost predicate Valid()
      reads this, sock
    {
      sock.Valid()
    }

    ghost function F(): Fbu
      reads this
    {
      Fbu(rects, bytes, Area(x, y, width, height), encoding,
          lines, subrects, tiles, totalTiles, tilesX, lastSubencoding,
          background, foreground)
    }

    ghost function M(): Machine
      requires Valid()
      reads this, sock
    {
      Machine(sock.Unread(), F(), pic, done, state)
    }

    ghost function S(): Session
      requires Valid()
      reads this, sock
    {
      Session(M(), timer, thrown, setup)
    }

    /** A client that fails on its way to m has cleaned up. */
    ghost function Cleaned(m: Machine): Machine {
      if m.status == Failed then m.(pic := Cleared(setup, m.pic)) else m
    }

    /** The timer is cancelled exactly by a failure. */
    twostate predicate TimerKept()
      reads this
    {
      timer == (old(timer) && state != Failed) && thrown == old(thrown)
    }

    twostate predicate SameTimer()
      reads this
    {
      timer == old(timer) && thrown == old(thrown)
    }

    constructor (format: Format, pic: Picture, setup: Setup)
      ensures Valid() && fresh(sock) && S() == Fresh(pic, setup) && this.format == format
    {
      sock := new Queue();
      this.format, this.setup, this.pic, done, state := format, setup, pic, 0, Normal;
      timer, thrown := false, false;
      rects, bytes, x, y, width, height, encoding := 0, 0, 0, 0, 0, 0, 0;
      lines, subrects, tiles, totalTiles, tilesX, lastSubencoding := 0, 0, 0, 0, 0, 0;
      background, foreground := [], [];
    }

    method CleanupSocket()
      modifies this`timer, this`pic
      ensures timer == false && pic == Cleared(setup, old(pic))
    {
      timer := false;
      if !setup.debug { pic := setup.logo; }
    }

    method Fail()
      modifies this`state, this`timer, this`pic
      ensures state == Failed && timer == false && pic == Cleared(setup, old(pic))
    {
      CleanupSocket();
      state := Failed;
    }

    method Raw() returns (ret: Ret)
      requires Valid()
      modifies this, sock
      ensures Valid() && (M(), ret) == RfbParser.Raw(format, old(M())) && SameTimer()
    {
      hide DrawLines, Bpp, RfbParser.Raw;
      ghost var m := M();
      if lines == 0 { lines := height; }
      var line := width * Bpp(format);
      bytes := line;
      RawCases(format, m, M(), lines, line);
      var short := sock.Wait(bytes);
      if short { return More; }
      if line == 0 || lines <= 0 { return Thrown; }
      var length := sock.Length();
      var curHeight := Min(lines, length / line);
      BlitLines(curHeight, line);
      EndRaw(line);
      return Done;
    }

    /** The next row, or the end of the rectangle. */
    method EndRaw(line: nat)
      requires Valid()
      modifies this`bytes, this`rects
      ensures M() == EndLines(old(M()), line)
    {
      if lines > 0 {
        bytes := line;
      } else {
        rects := rects - 1;
        bytes := 0;
      }
    }

    /** The next rows of a Raw rectangle. */
    method BlitLines(n: nat, line: nat)
      requires Valid() && n * line <= |sock.Unread()| && line == width * Bpp(format)
      modifies this, sock
      ensures Valid() && SameTimer() && M() == DrawLines(format, old(M()), n, line)
    {
      hide Blit, Bpp;
      var curY := y + (height - lines);
      var data := sock.rQ[sock.rQi..sock.rQi + n * line];
      assert data == sock.Unread()[..n * line];
      pic := Blit(format, pic, x, curY, width, n, data);
      sock.SkipBytes(n * line);
      lines := lines - n;
    }

    method Copy() returns (ret: Ret)
      requires Valid()
      modifies this, sock
      ensures Valid() && (M(), ret) == RfbParser.Copy(format, old(M())) && SameTimer()
    {
      hide CopyArea, RfbParser.Copy, RfbParser.Shift16;
      CopyCases(format, M());
      bytes := 4;
      var short := sock.Wait(4);
      if short { return More; }
      var oldX := sock.Shift16();
      var oldY := sock.Shift16();
      pic := CopyArea(pic, oldX, oldY, x, y, width, height);
      rects := rects - 1;
      bytes := 0;
      return Done;
    }

    method Rre() returns (ret: Ret)
      requires Valid()
      modifies this, sock
      ensures Valid() && (M(), ret) == RfbParser.Rre(format, old(M())) && SameTimer()
    {
      hide Fill, PixelAt, RfbParser.Shift32, RfbParser.Rre, RfbParser.RreRest, Bpp;
      RreCases(format, M());
      if subrects == 0 {
        bytes := 4 + Bpp(format);
        var short := sock.Wait(4 + Bpp(format));
        if short { return More; }
        RreHead();
      }
      RreRest();
      return Done;
    }

    /** The number of subrectangles and the background. */
    method RreHead()
      requires Valid() && |sock.Unread()| >= 4 + Bpp(format)
      modifies this`subrects, this`pic, sock
      ensures Valid()
      ensures var m := old(M());
              M() == m.(queue := m.queue[4 + Bpp(format)..], fbu := m.fbu.(subrects := RfbParser.Shift32(m.queue, 0)),
                        pic := Fill(m.pic, x, y, width, height, PixelAt(format, m.queue, 4)))
    {
      hide Fill, PixelAt, RfbParser.Shift32, Bpp;
      ghost var q := sock.Unread();
      subrects := sock.Shift32();
      var colour := sock.ShiftBytes(Bpp(format));
      FillColour(format, q, 4, colour);
      pic := Fill(pic, x, y, width, height, PixelAt(format, colour, 0));
    }

    /** The loop over subrectangles and what follows it. */
    method RreRest()
      requires Valid()
      modifies this, sock
      ensures Valid() && (M(), Done) == RfbParser.RreRest(format, old(M())) && SameTimer()
    {
      hide RreSubrects;
      RreLoop();
      if subrects > 0 {
        var chunk := Min(RRE_CHUNK, subrects);
        bytes := (Bpp(format) + 8) * chunk;
      } else {
        rects := rects - 1;
        bytes := 0;
      }
    }

    method RreLoop()
      requires Valid()
      modifies this, sock
      ensures Valid() && M() == RreSubrects(format, old(M())) && SameTimer()
    {
      hide Fill, PixelAt, RreSubrects, Bpp, RfbParser.Shift16, DrawSubrect;
      var length := sock.Length();
      while subrects > 0 && length >= Bpp(format) + 8
        invariant Valid() && length == |sock.Unread()| && SameTimer()
        invariant RreSubrects(format, M()) == RreSubrects(format, old(M()))
        decreases length
      {
        RreUnfold(format, M());
        Subrect();
        length := sock.Length();
      }
      RreStops(format, M());
    }

    method Subrect()
      requires Valid() && |sock.Unread()| >= Bpp(format) + 8
      modifies this, sock
      ensures Valid() && M() == DrawSubrect(format, old(M())) && SameTimer()
      ensures |sock.Unread()| < |old(sock.Unread())|
    {
      hide Fill, PixelAt, Bpp, RfbParser.Shift16, DrawSubrect;
      ghost var m := M();
      var colour := sock.ShiftBytes(Bpp(format));
      var dx, dy, w, h := FourNumbers();
      SubrectDrawn(format, m, colour);
      ShiftedWords(m.queue, Bpp(format));
      pic := Fill(pic, x + dx, y + dy, w, h, PixelAt(format, colour, 0));
      subrects := subrects - 1;
    }

    method FourNumbers() returns (a: nat, b: nat, c: nat, d: nat)
      requires Valid() && |sock.Unread()| >= 8
      modifies sock
      ensures Valid() && sock.Unread() == old(sock.Unread()[8..])
      ensures a == RfbParser.Shift16(old(sock.Unread()), 0) && b == RfbParser.Shift16(old(sock.Unread()), 2)
      ensures c == RfbParser.Shift16(old(sock.Unread()), 4) && d == RfbParser.Shift16(old(sock.Unread()), 6)
    {
      a := sock.Shift16();
      b := sock.Shift16();
      c := sock.Shift16();
      d := sock.Shift16();
    }

    method Hextile() returns (ret: Ret)
      requires Valid() && state != Failed && Coherent(M()) && encoding == 5 && rects > 0
      modifies this, sock
      ensures Valid() && ret == RfbParser.Hextile(format, old(M())).1 && TimerKept()
      ensures M() == Cleaned(RfbParser.Hextile(format, old(M())).0) && (ret == Done ==> state == old(state))
    {
      hide RfbParser.HexTiles, TilesAcross, TileCount, Cleared;
      if tiles == 0 {
        tilesX := TilesAcross(width);
        totalTiles := TileCount(Area(x, y, width, height));
        tiles := totalTiles;
      }
      ret := HexTiles();
      if ret == Done { rects := rects - 1; }
    }

    /** The loop over tiles. */
    method HexTiles() returns (ret: Ret)
      requires Valid() && state != Failed && (tiles > 0 ==> Coherent(M().(fbu := F().(bytes := 1))))
      modifies this, sock
      ensures Valid() && ret == RfbParser.HexTiles(format, old(M())).1 && TimerKept()
      ensures M() == Cleaned(RfbParser.HexTiles(format, old(M())).0) && (ret == Done ==> state == old(state))
    {
      hide RfbParser.HexTiles, Coherent, Cleared;
      while tiles > 0
        invariant Valid() && SameTimer() && state == old(state)
        invariant tiles > 0 ==> Coherent(M().(fbu := F().(bytes := 1)))
        invariant RfbParser.HexTiles(format, M()) == RfbParser.HexTiles(format, old(M()))
        decreases tiles
      {
        var going, r := OneTile();
        if !going { return r; }
      }
      NoMoreTiles(format, M());
      return Done;
    }

    /** One tile: it is drawn, or the handler stops here. */
    method OneTile() returns (going: bool, ret: Ret)
      requires Valid() && state != Failed && tiles > 0 && Coherent(M().(fbu := F().(bytes := 1)))
      modifies this, sock
      ensures Valid() && TimerKept() && (going ==> tiles < old(tiles) && state == old(state) && SameTimer())
      ensures going && tiles > 0 ==> Coherent(M().(fbu := F().(bytes := 1)))
      ensures going ==> RfbParser.HexTiles(format, old(M())) == RfbParser.HexTiles(format, M())
      ensures !going ==> ret == RfbParser.HexTiles(format, old(M())).1 && ret != Done
      ensures !going ==> M() == Cleaned(RfbParser.HexTiles(format, old(M())).0)
    {
      hide Cleared, RfbParser.HexTiles, DrawTile, TileWait, TileArea, Flag, TilesAcross, TileCount;
      ghost var m := M();
      bytes := 1;
      HexTilesStops(format, m);
      var short := sock.Wait(bytes);
      if short { return false, More; }
      var subencoding := sock.rQ[sock.rQi];
      assert subencoding == sock.Unread()[0];
      if subencoding > 30 {
        Fail();
        return false, More;
      }
      going, ret := LegalTile(m, subencoding);
    }

    /** One with a mask up to 30. */
    method LegalTile(ghost m: Machine, subencoding: nat) returns (going: bool, ret: Ret)
      requires Valid() && state != Failed && tiles > 0 && Coherent(m.(fbu := m.fbu.(bytes := 1)))
      requires M() == m.(fbu := m.fbu.(bytes := 1)) && m.queue != [] && subencoding == m.queue[0] <= 30
      modifies this, sock
      ensures Valid() && state == old(state) && SameTimer() && (going ==> tiles < old(tiles))
      ensures going && tiles > 0 ==> Coherent(M().(fbu := F().(bytes := 1)))
      ensures going ==> RfbParser.HexTiles(format, m) == RfbParser.HexTiles(format, M())
      ensures !going ==> (M(), ret) == RfbParser.HexTiles(format, m) && ret != Done
    {
      hide Cleared, RfbParser.HexTiles, DrawTile, TileWait, TileArea, Flag, TilesAcross, TileCount;
      var a := CurrentTile();
      var short := Expect(a.w, a.h, subencoding);
      HexTilesGoes(format, m, a, bytes);
      if short { return false, More; }
      short := sock.Wait(bytes);
      if short { return false, More; }
      SameDrawing(format, m, a, bytes);
      going := FinishTile(a, subencoding);
      return going, Thrown;
    }

    /** A whole tile is drawn and taken from the queue, unless drawing it throws. */
    method FinishTile(a: Area, subencoding: nat) returns (ok: bool)
      requires Valid() && tiles > 0 && sock.Unread() != [] && subencoding == sock.Unread()[0]
      requires bytes == TileWait(format, sock.Unread(), a.w, a.h) <= |sock.Unread()|
      modifies this, sock
      ensures Valid() && SameTimer()
      ensures var m, d := old(M()), RfbParser.DrawTile(format, old(M()), a);
        var fbu := m.fbu.(background := d.background, foreground := d.foreground);
        && ok == d.ok
        && M() == if d.ok then m.(queue := m.queue[m.fbu.bytes..], pic := d.pic,
                                  fbu := fbu.(last := m.queue[0], bytes := 0, tiles := m.fbu.tiles - 1))
                  else m.(fbu := fbu, pic := d.pic)
    {
      hide RfbParser.DrawTile, TileWait;
      var rQi;
      ok, rQi := DrawAt(a, subencoding);
      if ok {
        sock.rQi := rQi;
        lastSubencoding := subencoding;
        bytes := 0;
        tiles := tiles - 1;
      }
    }

    /** Where the next tile lies. */
    method CurrentTile() returns (a: Area)
      requires tiles > 0 && tilesX == TilesAcross(width)
          && totalTiles == TileCount(Area(x, y, width, height)) && tiles <= totalTiles
      ensures a == TileArea(Area(x, y, width, height), totalTiles - tiles)
    {
      var currTile := totalTiles - tiles;
      TileInside(Area(x, y, width, height), currTile);
      var tileX, tileY := currTile % tilesX, currTile / tilesX;
      var x0, y0 := x + tileX * 16, y + tileY * 16;
      hide TilesAcross, TileCount;
      a := Area(x0, y0, Min(16, x + width - x0), Min(16, y + height - y0));
    }

    /** The bytes to expect; the count of subrectangles has to be there to know them. */
    method Expect(w: nat, h: nat, subencoding: nat) returns (short: bool)
      requires Valid() && bytes == 1 && sock.Unread() != [] && subencoding == sock.Unread()[0]
      modifies this`bytes
      ensures bytes == TileWait(format, sock.Unread(), w, h)
      ensures short ==> |sock.Unread()| < bytes
    {
      hide Flag;
      TileWaitCases(format, sock.Unread(), w, h, subencoding);
      var raw := TestMask(subencoding, 1);
      if raw {
        bytes := bytes + h * (w * Bpp(format));
      } else {
        var bg := TestMask(subencoding, 2);
        if bg { bytes := bytes + Bpp(format); }
        var fg := TestMask(subencoding, 4);
        if fg { bytes := bytes + Bpp(format); }
        var any := TestMask(subencoding, 8);
        if any {
          bytes := bytes + 1;
          var few := sock.Wait(bytes);
          if few { return true; }
          var subrects := sock.rQ[sock.rQi + bytes - 1];
          var coloured := TestMask(subencoding, 16);
          bytes := bytes + subrects * (if coloured then Bpp(format) + 2 else 2);
        }
      }
      return false;
    }

    /** A whole tile at the front of the queue is drawn; rQi ends behind it. */
    method DrawAt(a: Area, subencoding: nat) returns (ok: bool, rQi: nat)
      requires Valid() && sock.Unread() != [] && subencoding == sock.Unread()[0]
      requires bytes == TileWait(format, sock.Unread(), a.w, a.h) <= |sock.Unread()|
      modifies this`pic, this`background, this`foreground
      ensures var d := RfbParser.DrawTile(format, old(M()), a);
              pic == d.pic && background == d.background && foreground == d.foreground && ok == d.ok
      ensures ok ==> rQi == sock.rQi + bytes
    {
      hide Flag, Blit, Fill, PixelAt, RfbParser.DrawTile, Bpp, TileWait;
      DrawTileCases(format, M(), a);
      rQi := sock.rQi + 1;
      var raw := TestMask(subencoding, 1);
      if subencoding == 0 {
        var lastRaw := TestMask(lastSubencoding, 1);
        if !lastRaw {
          if |background| != Bpp(format) { return false, rQi; }
          pic := Fill(pic, a.x, a.y, a.w, a.h, PixelAt(format, background, 0));
        }
        return true, rQi;
      } else if raw {
        var data := sock.rQ[rQi..rQi + a.h * (a.w * Bpp(format))];
        assert data == sock.Unread()[1..1 + a.h * (a.w * Bpp(format))];
        pic := Blit(format, pic, a.x, a.y, a.w, a.h, data);
        return true, rQi + (bytes - 1);
      }
      ok, rQi := DrawColoured(a, subencoding);
    }

    method DrawColoured(a: Area, subencoding: nat) returns (ok: bool, rQi: nat)
      requires Valid() && sock.Unread() != [] && subencoding == sock.Unread()[0]
          && subencoding != 0 && !Flag(subencoding, 1)
      requires bytes == TileWait(format, sock.Unread(), a.w, a.h) <= |sock.Unread()|
      modifies this`pic, this`background, this`foreground
      ensures var d := RfbParser.DrawTile(format, old(M()), a);
              pic == d.pic && background == d.background && foreground == d.foreground && ok == d.ok
      ensures ok ==> rQi == sock.rQi + bytes
    {
      hide Flag, Fill, PixelAt, RfbParser.DrawTile, Bpp, TileWait, RectSize, DrawTileRects;
      ghost var q, m := sock.Unread(), M();
      ghost var b := Bpp(format);
      ghost var i := if Flag(subencoding, 2) then 1 + b else 1;
      ghost var j := if Flag(subencoding, 4) then i + b else i;
      ColouredFits(format, q, a.w, a.h, subencoding, j);
      rQi := ReadColours(subencoding, i, j);
      DrawColouredCases(format, m, a, i, j, background, foreground);
      if |background| != Bpp(format) { return false, rQi; }
      pic := Fill(pic, a.x, a.y, a.w, a.h, PixelAt(format, background, 0));
      var any := TestMask(subencoding, 8);
      ok := true;
      if any {
        var subrects := sock.rQ[rQi];
        rQi := rQi + 1;
        assert subrects == q[j] && sock.rQ[rQi..] == q[j + 1..];
        ok, rQi := SubTiles(a, subencoding, subrects, sock.rQ, rQi);
      }
    }

    /** The colours at the front of a tile. */
    method ReadColours(subencoding: nat, ghost i: nat, ghost j: nat) returns (rQi: nat)
      requires Valid() && j <= |sock.Unread()|
      requires i == (if Flag(subencoding, 2) then 1 + Bpp(format) else 1)
          && j == (if Flag(subencoding, 4) then i + Bpp(format) else i)
      modifies this`background, this`foreground
      ensures rQi == sock.rQi + j
      ensures background == if Flag(subencoding, 2) then sock.Unread()[1..i] else old(background)
      ensures foreground == if Flag(subencoding, 4) then sock.Unread()[i..j] else old(foreground)
    {
      hide Flag, Bpp;
      rQi := sock.rQi + 1;
      var bg := TestMask(subencoding, 2);
      if bg {
        background := sock.rQ[rQi..rQi + Bpp(format)];
        Part(sock.rQ, sock.rQi, 1, i);
        rQi := rQi + Bpp(format);
      }
      var fg := TestMask(subencoding, 4);
      if fg {
        Part(sock.rQ, sock.rQi, i, j);
        foreground := sock.rQ[rQi..rQi + Bpp(format)];
        rQi := rQi + Bpp(format);
      }
    }

    /** The subrectangles of a tile. */
    method SubTiles(a: Area, subencoding: nat, subrects: nat, rQ: seq<byte>, start: nat) returns (ok: bool, rQi: nat)
      requires start <= |rQ| && subrects * RectSize(format, subencoding) <= |rQ[start..]|
      modifies this`pic
      ensures (pic, ok) == DrawTileRects(format, old(pic), a.x, a.y, rQ[start..], subrects, subencoding, foreground)
      ensures ok ==> rQi == start + subrects * RectSize(format, subencoding)
    {
      hide RectSize, Fill, DrawTileRects;
      ghost var size := RectSize(format, subencoding);
      var s := 0;
      rQi := start;
      while s < subrects
        invariant 0 <= s <= subrects && rQi == start + s * size <= |rQ| && (subrects - s) * size <= |rQ[rQi..]|
        invariant DrawTileRects(format, old(pic), a.x, a.y, rQ[start..], subrects, subencoding, foreground)
               == DrawTileRects(format, pic, a.x, a.y, rQ[rQi..], subrects - s, subencoding, foreground)
      {
        Peel(subrects - s, size);
        Peel(s + 1, size);
        DrawTileRectsCases(format, pic, a.x, a.y, rQ[rQi..], subrects - s, subencoding, foreground);
        ok, rQi := SubTile(a, subencoding, rQ, rQi);
        if !ok { return false, rQi; }
        s := s + 1;
      }
      NoTileRects(format, pic, a.x, a.y, rQ[rQi..], subencoding, foreground);
      return true, rQi;
    }

    /** One subrectangle; a colour that was never set throws. */
    method SubTile(a: Area, subencoding: nat, rQ: seq<byte>, start: nat) returns (ok: bool, rQi: nat)
      requires start <= |rQ| && RectSize(format, subencoding) <= |rQ[start..]|
      modifies this`pic
      ensures ok ==>
          rQi == start + RectSize(format, subencoding) && rQ[rQi..] == rQ[start..][RectSize(format, subencoding)..]
      ensures DrawnRect(format, old(pic), a.x, a.y, rQ[start..], subencoding, foreground) == (pic, ok)
    {
      hide Flag, Fill, PixelAt, Bpp;
      rQi := start;
      var coloured := TestMask(subencoding, 16);
      var colour := foreground;
      if coloured {
        colour := rQ[rQi..rQi + Bpp(format)];
        assert colour == rQ[start..][..Bpp(format)];
        rQi := rQi + Bpp(format);
      }
      if |colour| != Bpp(format) { return false, rQi; }
      var xy := rQ[rQi];
      rQi := rQi + 1;
      var wh := rQ[rQi];
      rQi := rQi + 1;
      pic := Fill(pic, a.x + xy / 16, a.y + xy % 16, wh / 16 + 1, wh % 16 + 1, PixelAt(format, colour, 0));
      ok := true;
    }

    /* Messages */

    method Handle() returns (ret: Ret)
      requires Valid() && state != Failed && Coherent(M()) && Modelled(encoding) && rects > 0
      modifies this, sock
      ensures Valid() && ret == RfbParser.Handle(format, old(M())).1 && TimerKept()
      ensures M() == Cleaned(RfbParser.Handle(format, old(M())).0) && (ret == Done ==> state == old(state))
    {
      hide Cleared, RfbParser.Raw, RfbParser.Copy, RfbParser.Rre, RfbParser.Hextile, Coherent;
      if encoding == 0 {
        ret := Raw();
      } else if encoding == 1 {
        ret := Copy();
      } else if encoding == 2 {
        ret := Rre();
      } else {
        ret := Hextile();
      }
    }

    method ReadHeader()
      requires Valid() && |sock.Unread()| >= 12
      modifies this, sock
      ensures Valid() && M() == WithHeader(old(M())) && SameTimer()
    {
      var hdr := sock.ShiftBytes(12);
      x := hdr[0] as int * 256 + hdr[1] as int;
      y := hdr[2] as int * 256 + hdr[3] as int;
      width := hdr[4] as int * 256 + hdr[5] as int;
      height := hdr[6] as int * 256 + hdr[7] as int;
      encoding := ToInt32(hdr[8] as int * 0x100_0000)
          + hdr[9] as int * 0x1_0000 + hdr[10] as int * 0x100 + hdr[11] as int;
      TopByte(hdr[8], hdr[9]);
    }

    /** The loop over rectangles. */
    method Rects() returns (ret: Ret)
      requires Valid() && Ready(M()) && state != Failed
      modifies this, sock
      ensures Valid() && ret == RfbParser.Rects(format, old(M())).1 && TimerKept()
      ensures M() == Cleaned(RfbParser.Rects(format, old(M())).0)
    {
      hide RfbParser.Rects, Ready, Cleared;
      while rects > 0
        invariant Valid() && Ready(M()) && SameTimer() && state == old(state)
        invariant RfbParser.Rects(format, M()) == RfbParser.Rects(format, old(M()))
        decreases rects, |sock.Unread()|, Waits(M())
      {
        var r := OneRect();
        if r != Done { return r; }
      }
      RectsEnd(format, M());
      done := done + 1;
      return Done;
    }

    /** One turn of the loop: a handler call that reports true, or the loop stops here. */
    method OneRect() returns (ret: Ret)
      requires Valid() && Ready(M()) && rects > 0 && state != Failed
      modifies this, sock
      ensures Valid() && TimerKept() && (ret == Done ==> state == old(state) && SameTimer())
      ensures ret == Done ==> Ready(M()) && RfbParser.Rects(format, old(M())) == RfbParser.Rects(format, M())
      ensures ret == Done ==>
        rects < old(rects) || (rects == old(rects) && (|sock.Unread()| < |old(sock.Unread())|
        || (|sock.Unread()| == |old(sock.Unread())| && Waits(M()) < old(Waits(M())))))
      ensures ret != Done ==> ret == RfbParser.Rects(format, old(M())).1
      ensures ret != Done ==> M() == Cleaned(RfbParser.Rects(format, old(M())).0)
    {
      hide Cleared, RfbParser.Rects, RfbParser.Handle, Ready, WithHeader, Coherent, Waits, Progress, Modelled,
        NamedOnly;
      ghost var m := M();
      RectsWaits(format, m);
      if state != Normal { return More; }
      var short := sock.Wait(bytes);
      if short { return More; }
      if bytes == 0 {
        short := sock.Wait(12);
        if short { return More; }
        ReadHeader();
      }
      ghost var m1 := M();
      RectsHandles(format, m, m1);
      if NamedOnly(encoding) { state := Outside; return More; }
      if !Modelled(encoding) { Fail(); return More; }
      ret := Handle();
    }

    /** A message, or the rest of the update under way. */
    method NormalMsg() returns (ret: Ret)
      requires Valid() && Ready(M()) && state != Failed && (rects > 0 || sock.Unread() != [])
      modifies this, sock
      ensures Valid() && ret == RfbParser.NormalMsg(format, old(M())).1 && TimerKept()
      ensures M() == Cleaned(RfbParser.NormalMsg(format, old(M())).0)
    {
      hide RfbParser.Rects, RfbParser.NormalMsg, Ready, Cleared;
      ghost var m := M();
      if rects > 0 {
        NormalCases(format, m);
        ret := Rects();
        return;
      }
      var type0 := MessageType(m);
      if type0 == 0 {
        ret := FramebufferUpdate(m);
      } else {
        ret := OtherMessage(m, type0);
      }
    }

    method MessageType(ghost m: Machine) returns (type0: byte)
      requires Valid() && m == M() && m.queue != []
      modifies sock
      ensures Valid() && m.queue != [] && type0 == m.queue[0] && M() == m.(queue := m.queue[1..])
      ensures sock.rQi > 0 && sock.rQ[sock.rQi - 1..] == m.queue
    {
      type0 := sock.Shift8();
      assert sock.rQ[sock.rQi - 1..][1..] == sock.rQ[sock.rQi..];
    }

    /** A bell, or a message that is not part of this model, or an illegal one. */
    method OtherMessage(ghost m: Machine, type0: byte) returns (ret: Ret)
      requires Valid() && state != Failed && sock.rQi > 0 && rects <= 0 && Ready(m) && m.queue != []
      requires m.queue[0] == type0 != 0
      requires M() == m.(queue := m.queue[1..]) && sock.rQ[sock.rQi - 1..] == m.queue
      modifies this, sock
      ensures Valid() && ret == RfbParser.NormalMsg(format, m).1 && TimerKept()
      ensures M() == Cleaned(RfbParser.NormalMsg(format, m).0)
    {
      NormalCases(format, m);
      hide RfbParser.Rects, RfbParser.NormalMsg, Ready, Cleared;
      if type0 == 2 {
        return Done;
      } else if type0 == 1 || type0 == 3 || type0 == 250 {
        // the whole message is handled by code outside the model
        state := Outside;
        sock.rQi := sock.rQi - 1;
        return More;
      } else {
        Fail();
        return Done;
      }
    }

    method FramebufferUpdate(ghost m: Machine) returns (ret: Ret)
      requires Valid() && state != Failed && sock.rQi > 0 && rects <= 0 && Ready(m) && m.queue != [] && m.queue[0] == 0
      requires M() == m.(queue := m.queue[1..]) && sock.rQ[sock.rQi - 1..] == m.queue
      modifies this, sock
      ensures Valid() && ret == RfbParser.NormalMsg(format, m).1 && TimerKept()
      ensures M() == Cleaned(RfbParser.NormalMsg(format, m).0)
    {
      hide RfbParser.Rects, Ready, Cleared;
      NormalCases(format, m);
      var wait := sock.WaitBack(3, 1);
      if wait == NeedMore { return More; }
      sock.Skip8();
      rects := sock.Shift16();
      bytes := 0;
      ret := Rects();
    }

    method HandleMessage()
      requires Valid() && Ready(M())
      modifies this, sock
      ensures Valid() && Ready(M()) && S() == RfbParser.HandleMessage(format, old(S()))
    {
      hide RfbParser.NormalMsg, Ready, Cleared;
      HandleMessageUnfold(format, S());
      var length := sock.Length();
      if length == 0 { return; }
      if state == Normal {
        var ret := NormalMsg();
        length := sock.Length();
        if ret == Done && length > 0 { timer := true; }
        if ret == Thrown { thrown := true; }
      }
    }

    /** A binary websocket message; afterwards the queue may drop what has been read. */
    method RecvMessage(data: seq<byte>)
      requires Valid() && Ready(M())
      modifies this, sock
      ensures Valid() && Ready(M()) && S() == Step(format, old(S()), Message(data))
    {
      hide RfbParser.HandleMessage, Ready;
      if state == Failed { return; }  // the handler of the closed socket does nothing
      StillReady(M(), M().(queue := M().queue + data));
      sock.Push(data);
      Received();
    }

    /** A message in base64 is handled like its bytes. */
    method RecvText(text: seq<nat>, ghost data: seq<byte>)
      requires Valid() && Ready(M()) && text == Base64.Encode(data)
      modifies this, sock
      ensures Valid() && Ready(M()) && S() == Step(format, old(S()), Message(data))
    {
      hide RfbParser.HandleMessage, Ready;
      if state == Failed { return; }
      StillReady(M(), M().(queue := M().queue + data));
      sock.PushText(text, data);
      Received();
    }

    /** The handler runs if anything is unread. */
    method Received()
      requires Valid() && Ready(M())
      modifies this, sock
      ensures Valid() && Ready(M()) && S() == RfbParser.HandleMessage(format, old(S()))
    {
      hide RfbParser.HandleMessage, Ready;
      HandleMessageUnfold(format, S());
      var length := sock.Length();
      if length > 0 {
        HandleMessage();
        sock.Compact();
      }
    }

    method TimerFired()
      requires Valid() && Ready(M())
      modifies this, sock
      ensures Valid() && Ready(M()) && S() == Step(format, old(S()), Timer)
    {
      hide RfbParser.HandleMessage, Ready;
      if timer {
        timer := false;
        HandleMessage();
      }
    }

    /** A run of the client, whose messages arrive as bytes or in base64. */
    method Play(events: seq<Event>, base64: bool)
      requires Valid() && Ready(M())
      modifies this, sock
      ensures Valid() && Ready(M()) && S() == Run(format, old(S()), events)
    {
      hide Step, Run, Ready;
      var i := 0;
      assert events[0..] == events;
      while i < |events|
        invariant 0 <= i <= |events| && Valid() && Ready(M())
            && Run(format, S(), events[i..]) == Run(format, old(S()), events)
      {
        RunUnfold(format, S(), events[i..]);
        assert events[i..][1..] == events[i + 1..];
        match events[i] {
          case Message(data) => if base64 { RecvText(Base64.Encode(data), data); } else { RecvMessage(data); }
          case Timer => TimerFired();
        }
        i := i + 1;
      }
      RunUnfold(format, S(), events[i..]);
    }

    /** The theorem for the client itself: once a stream of legal updates has been delivered, in
        whatever pieces, as bytes or in base64, and the timer is not set, it has got through exactly if no
        tile has mask 31 and every Raw rectangle has a pixel, and shows the picture the updates describe. If
        only tiles are in its way it has failed, and shows the cleared display, or with debug logging what
        is in front of the first one. */
    method Show(us: seq<Update>, events: seq<Event>, base64: bool)
      requires Valid() && S() == Fresh(pic, setup) && ValidUpdates(format, Canvas(pic, NoColours()), us)
      requires Delivered(events) == UpdatesBytes(format, Canvas(pic, NoColours()), us)
      modifies this, sock
      ensures Valid()
      ensures !timer ==> Shows(S(), SeenUpdates(format, Canvas(old(pic), NoColours()), us))
      ensures !timer ==> (GotThrough(S(), |us|) <==> AcceptedUpdates(us))
      ensures !timer && AcceptedUpdates(us) ==>
        && pic == PaintUpdates(format, Canvas(old(pic), NoColours()), us).pic
        && state == Normal && done == |us| && sock.Unread() == []
      ensures !timer && Solid(us) ==>
        var seen := SeenUpdates(format, Canvas(old(pic), NoColours()), us);
        && pic == (if AcceptedUpdates(us) then seen.canvas.pic else Cleared(setup, seen.canvas.pic))
        && done == seen.updates && (state == Failed <==> !AcceptedUpdates(us))
    {
      StopsWhere(format, pic, setup, us, events);
      ThroughExactly(format, pic, setup, us, events);
      if Solid(us) { FailsExactly(format, pic, setup, us, events); }
      if AcceptedUpdates(us) { AnyCutting(format, pic, setup, us, events); }
      hide Cleared, Run, ValidUpdates, PaintUpdates, SeenUpdates, AcceptedUpdates, UpdatesBytes, Delivered, Fresh;
      hide Ready, Shows, GotThrough, Solid;
      Play(events, base64);
    }
  }

  lemma Part(rQ: seq<byte>, rQi: nat, i: nat, j: nat)
    requires rQi <= |rQ| && i <= j <= |rQ| - rQi
    ensures rQ[rQi..][i..j] == rQ[rQi + i..rQi + j]
  {
  }

  lemma StillReady(m: Machine, m': Machine)
    requires Ready(m) && m'.fbu == m.fbu
    ensures Ready(m')
  {
  }

  lemma RectsEnd(f: Format, m: Machine)
    requires Ready(m)
    ensures m.fbu.rects <= 0 ==> RfbParser.Rects(f, m) == (m.(done := m.done + 1), Done)
  {
  }

  lemma RectsWaits(f: Format, m: Machine)
    requires Ready(m) && m.fbu.rects > 0
    ensures m.status != Normal || |m.queue| < m.fbu.bytes || (m.fbu.bytes == 0 && |m.queue| < 12)
        ==> RfbParser.Rects(f, m) == (m, More)
  {
  }

  lemma RectsHandles(f: Format, m: Machine, m1: Machine)
    requires Ready(m) && m.fbu.rects > 0 && m.status == Normal
        && |m.queue| >= m.fbu.bytes && (m.fbu.bytes == 0 ==> |m.queue| >= 12)
    requires m1 == if m.fbu.bytes == 0 then WithHeader(m) else m
    ensures m1.fbu.rects == m.fbu.rects && m1.status == Normal
    ensures NamedOnly(m1.fbu.encoding) ==> RfbParser.Rects(f, m) == (m1.(status := Outside), More)
    ensures !NamedOnly(m1.fbu.encoding) && !Modelled(m1.fbu.encoding)
        ==> RfbParser.Rects(f, m) == (m1.(status := Failed), More)
    ensures !NamedOnly(m1.fbu.encoding) && Modelled(m1.fbu.encoding) ==>
      && Coherent(m1)
      && var r := RfbParser.Handle(f, m1);
         && (r.1 != Done ==> RfbParser.Rects(f, m) == r)
         && (r.1 == Done ==>
             && Ready(r.0) && RfbParser.Rects(f, m) == RfbParser.Rects(f, r.0)
             && (r.0.fbu.rects < m.fbu.rects || (r.0.fbu.rects == m.fbu.rects && (|r.0.queue| < |m.queue|
                 || (|r.0.queue| == |m.queue| && Waits(r.0) < Waits(m))))))
  {
    hide RfbParser.Handle, RfbParser.Rects;
    HandleReady(f, m, m1);
    hide Ready, WithHeader, Coherent;
    RectsTurn(f, m, m1);
  }

  lemma HandleReady(f: Format, m: Machine, m1: Machine)
    requires Ready(m) && m.fbu.rects > 0 && |m.queue| >= m.fbu.bytes && (m.fbu.bytes == 0 ==> |m.queue| >= 12)
    requires m1 == if m.fbu.bytes == 0 then WithHeader(m) else m
    ensures Coherent(m1) && m1.fbu.rects == m.fbu.rects && m1.status == m.status
    ensures Modelled(m1.fbu.encoding) ==>
      var r := RfbParser.Handle(f, m1);
      && Ready(r.0)
      && (r.1 == Done ==> r.0.fbu.rects < m.fbu.rects || (r.0.fbu.rects == m.fbu.rects && (|r.0.queue| < |m.queue|
                          || (|r.0.queue| == |m.queue| && Waits(r.0) < Waits(m)))))
  {
    hide RfbParser.Handle, RfbParser.Rects;
  }

  lemma RectsTurn(f: Format, m: Machine, m1: Machine)
    requires Ready(m) && m.fbu.rects > 0 && m.status == Normal
        && |m.queue| >= m.fbu.bytes && (m.fbu.bytes == 0 ==> |m.queue| >= 12)
    requires m1 == (if m.fbu.bytes == 0 then WithHeader(m) else m) && Coherent(m1) && m1.fbu.rects == m.fbu.rects
    requires Modelled(m1.fbu.encoding) ==> Ready(RfbParser.Handle(f, m1).0)
    ensures NamedOnly(m1.fbu.encoding) ==> RfbParser.Rects(f, m) == (m1.(status := Outside), More)
    ensures !NamedOnly(m1.fbu.encoding) && !Modelled(m1.fbu.encoding)
        ==> RfbParser.Rects(f, m) == (m1.(status := Failed), More)
    ensures !NamedOnly(m1.fbu.encoding) && Modelled(m1.fbu.encoding) ==>
      var r := RfbParser.Handle(f, m1);
      RfbParser.Rects(f, m) == if r.1 != Done then r else RfbParser.Rects(f, r.0)
  {
    hide RfbParser.Handle, WithHeader, Coherent;
  }

  lemma NormalCases(f: Format, m: Machine)
    requires Ready(m) && (m.fbu.rects > 0 || m.queue != [])
    ensures m.fbu.rects > 0 ==> RfbParser.NormalMsg(f, m) == RfbParser.Rects(f, m)
    ensures m.fbu.rects <= 0 && m.queue[0] == 0 && |m.queue| < 4 ==> RfbParser.NormalMsg(f, m) == (m, More)
    ensures m.fbu.rects <= 0 && m.queue[0] == 0 && |m.queue| >= 4 ==>
      var m1 := m.(queue := m.queue[4..], fbu := m.fbu.(rects := RfbParser.Shift16(m.queue, 2), bytes := 0));
      Ready(m1) && RfbParser.NormalMsg(f, m) == RfbParser.Rects(f, m1)
    ensures m.fbu.rects <= 0 && m.queue[0] == 2 ==> RfbParser.NormalMsg(f, m) == (m.(queue := m.queue[1..]), Done)
    ensures m.fbu.rects <= 0 && m.queue[0] in {1, 3, 250} ==> RfbParser.NormalMsg(f, m) == (m.(status := Outside), More)
    ensures m.fbu.rects <= 0 && m.queue[0] !in {0, 1, 2, 3, 250} ==>
      RfbParser.NormalMsg(f, m) == (m.(queue := m.queue[1..], status := Failed), Done)
  {
    hide RfbParser.Rects, RfbParser.Shift16;
  }

  /** What one subrectangle at the front of q draws. */
  ghost function DrawnRect(f: Format, pic: Picture, x: int, y: int,
          q: seq<byte>, mask: nat, foreground: seq<byte>): (Picture, bool)
    requires RectSize(f, mask) <= |q|
  {
    var size := RectSize(f, mask);
    var colour := if Coloured(mask) then q[..Bpp(f)] else foreground;
    if |colour| != Bpp(f) then (pic, false)
    else (Fill(pic, x + q[size - 2] / 16, y + q[size - 2] % 16,
        q[size - 1] / 16 + 1, q[size - 1] % 16 + 1, PixelAt(f, colour, 0)), true)
  }

  lemma DrawTileRectsCases(f: Format, pic: Picture, x: int, y: int,
          q: seq<byte>, count: nat, mask: nat, foreground: seq<byte>)
    requires count > 0 && count * RectSize(f, mask) <= |q|
    ensures RectSize(f, mask) <= |q| && (count - 1) * RectSize(f, mask) <= |q[RectSize(f, mask)..]|
    ensures var d, size := DrawnRect(f, pic, x, y, q, mask, foreground), RectSize(f, mask);
            DrawTileRects(f, pic, x, y, q, count, mask, foreground)
            == if d.1 then DrawTileRects(f, d.0, x, y, q[size..], count - 1, mask, foreground) else d
  {
    Peel(count, RectSize(f, mask));
    hide Flag, Bpp, Fill, PixelAt;
  }

  lemma NoTileRects(f: Format, pic: Picture, x: int, y: int, q: seq<byte>, mask: nat, foreground: seq<byte>)
    ensures 0 * RectSize(f, mask) <= |q| && DrawTileRects(f, pic, x, y, q, 0, mask, foreground) == (pic, true)
  {
  }

  lemma NoMoreTiles(f: Format, m: Machine)
    ensures m.fbu.tiles == 0 ==> RfbParser.HexTiles(f, m) == (m, Done)
  {
  }

  lemma HexTilesStops(f: Format, m: Machine)
    requires m.fbu.tiles > 0 && Coherent(m.(fbu := m.fbu.(bytes := 1)))
    ensures m.queue == [] ==> RfbParser.HexTiles(f, m) == (m.(fbu := m.fbu.(bytes := 1)), More)
    ensures m.queue != [] && m.queue[0] > 30
        ==> RfbParser.HexTiles(f, m) == (m.(fbu := m.fbu.(bytes := 1), status := Failed), More)
  {
    if m.queue == [] {
      var a := TileArea(m.fbu.area, m.fbu.total - m.fbu.tiles);
      assert TileWait(f, m.queue, a.w, a.h) == 1;
    }
    hide DrawTile, TileWait, TileArea, TilesAcross, TileCount;
  }

  lemma HexTilesGoes(f: Format, m: Machine, a: Area, n: nat)
    requires m.fbu.tiles > 0 && Coherent(m.(fbu := m.fbu.(bytes := 1))) && m.fbu.tiles <= m.fbu.total
    requires m.queue != [] && m.queue[0] <= 30
    requires a == TileArea(m.fbu.area, m.fbu.total - m.fbu.tiles) && n == TileWait(f, m.queue, a.w, a.h)
    ensures |m.queue| < n ==> RfbParser.HexTiles(f, m) == (m.(fbu := m.fbu.(bytes := n)), More)
    ensures |m.queue| >= n ==>
      var d := DrawTile(f, m, a);
      var fbu := m.fbu.(background := d.background, foreground := d.foreground);
      && (!d.ok ==> RfbParser.HexTiles(f, m) == (m.(fbu := fbu.(bytes := n), pic := d.pic), Thrown))
      && (d.ok ==> RfbParser.HexTiles(f, m) == RfbParser.HexTiles(f, m.(queue := m.queue[n..], pic := d.pic,
                        fbu := fbu.(last := m.queue[0], bytes := 0, tiles := m.fbu.tiles - 1))))
  {
    hide DrawTile, TileWait, TileArea, TilesAcross, TileCount;
  }

  lemma SameDrawing(f: Format, m: Machine, a: Area, n: int)
    requires m.queue != [] && |m.queue| >= TileWait(f, m.queue, a.w, a.h)
    ensures DrawTile(f, m.(fbu := m.fbu.(bytes := n)), a) == DrawTile(f, m, a)
  {
    hide Fill, PixelAt, Bpp, Blit, TileWait, DrawTileRects, Flag, RectSize;
  }

  lemma TileWaitCases(f: Format, q: seq<byte>, w: nat, h: nat, mask: nat)
    requires q != [] && mask == q[0]
    ensures Flag(mask, 1) ==> TileWait(f, q, w, h) == 1 + h * (w * Bpp(f))
    ensures !Flag(mask, 1) ==>
      var head := 1 + (if Flag(mask, 2) then Bpp(f) else 0) + (if Flag(mask, 4) then Bpp(f) else 0);
      && (!Flag(mask, 8) ==> TileWait(f, q, w, h) == head)
      && (Flag(mask, 8) && |q| < head + 1 ==> TileWait(f, q, w, h) == head + 1)
      && (Flag(mask, 8) && |q| >= head + 1
          ==> TileWait(f, q, w, h) == head + 1 + q[head] * (if Flag(mask, 16) then Bpp(f) + 2 else 2))
  {
    hide Flag, Bpp;
  }

  lemma DrawTileCases(f: Format, m: Machine, a: Area)
    requires m.queue != [] && |m.queue| >= TileWait(f, m.queue, a.w, a.h)
    ensures var q, mask, b, bg, fg := m.queue, m.queue[0], Bpp(f), m.fbu.background, m.fbu.foreground;
      && (mask == 0 ==> TileWait(f, q, a.w, a.h) == 1)
      && (Flag(mask, 1) ==> TileWait(f, q, a.w, a.h) == 1 + a.h * (a.w * b))
      && (mask == 0 && Flag(m.fbu.last, 1) ==> DrawTile(f, m, a) == Drawn(m.pic, bg, fg, true))
      && (mask == 0 && !Flag(m.fbu.last, 1) && |bg| != b ==> DrawTile(f, m, a) == Drawn(m.pic, bg, fg, false))
      && (mask == 0 && !Flag(m.fbu.last, 1) && |bg| == b ==>
          DrawTile(f, m, a) == Drawn(Fill(m.pic, a.x, a.y, a.w, a.h, PixelAt(f, bg, 0)), bg, fg, true))
      && (mask != 0 && Flag(mask, 1) ==>
          && 1 + a.h * (a.w * b) <= |q|
          && DrawTile(f, m, a) == Drawn(Blit(f, m.pic, a.x, a.y, a.w, a.h, q[1..1 + a.h * (a.w * b)]), bg, fg, true))
  {
    hide Bpp, Blit, Fill, PixelAt, DrawTileRects;
  }

  /** A whole tile in colours: its colours and its subrectangles are in the queue. */
  lemma ColouredFits(f: Format, q: seq<byte>, w: nat, h: nat, mask: nat, j: nat)
    requires q != [] && |q| >= TileWait(f, q, w, h) && mask == q[0] && !Flag(mask, 1)
    requires j == 1 + (if Flag(mask, 2) then Bpp(f) else 0) + (if Flag(mask, 4) then Bpp(f) else 0)
    ensures j <= |q|
    ensures !Flag(mask, 8) ==> TileWait(f, q, w, h) == j
    ensures Flag(mask, 8) ==>
      j < |q| && q[j] * RectSize(f, mask) <= |q[j + 1..]| && TileWait(f, q, w, h) == j + 1 + q[j] * RectSize(f, mask)
  {
    hide Flag, Bpp;
  }

  lemma DrawColouredCases(f: Format, m: Machine, a: Area, i: nat, j: nat, bg: seq<byte>, fg: seq<byte>)
    requires m.queue != [] && |m.queue| >= TileWait(f, m.queue, a.w, a.h) && m.queue[0] != 0 && !Flag(m.queue[0], 1)
    requires i == (if Flag(m.queue[0], 2) then 1 + Bpp(f) else 1)
        && j == (if Flag(m.queue[0], 4) then i + Bpp(f) else i) <= |m.queue|
    requires Flag(m.queue[0], 8) ==> j < |m.queue| && m.queue[j] * RectSize(f, m.queue[0]) <= |m.queue[j + 1..]|
    requires bg == (if Flag(m.queue[0], 2) then m.queue[1..i] else m.fbu.background)
    requires fg == (if Flag(m.queue[0], 4) then m.queue[i..j] else m.fbu.foreground)
    ensures |bg| != Bpp(f) ==> DrawTile(f, m, a) == Drawn(m.pic, bg, fg, false)
    ensures |bg| == Bpp(f) && !Flag(m.queue[0], 8) ==>
      DrawTile(f, m, a) == Drawn(Fill(m.pic, a.x, a.y, a.w, a.h, PixelAt(f, bg, 0)), bg, fg, true)
    ensures |bg| == Bpp(f) && Flag(m.queue[0], 8) ==>
      var d := DrawTileRects(f, Fill(m.pic, a.x, a.y, a.w, a.h, PixelAt(f, bg, 0)),
          a.x, a.y, m.queue[j + 1..], m.queue[j], m.queue[0], fg);
      DrawTile(f, m, a) == Drawn(d.0, bg, fg, d.1)
  {
    hide Flag, Bpp, Blit, Fill, PixelAt, DrawTileRects, RectSize, TileWait;
  }

  lemma FillColour(f: Format, q: seq<byte>, i: nat, colour: seq<byte>)
    requires |colour| == Bpp(f) && i + |colour| <= |q| && colour == q[i..][..|colour|]
    ensures PixelAt(f, q, i) == PixelAt(f, colour, 0)
  {
    assert forall k :: 0 <= k < |colour| ==> q[i + k] == colour[k];
  }

  lemma SubrectDrawn(f: Format, m: Machine, colour: seq<byte>)
    requires |m.queue| >= Bpp(f) + 8 && colour == m.queue[..Bpp(f)]
    ensures var q, b := m.queue, Bpp(f);
            DrawSubrect(f, m) == m.(queue := q[b + 8..], fbu := m.fbu.(subrects := m.fbu.subrects - 1),
              pic := Fill(m.pic, m.fbu.area.x + RfbParser.Shift16(q, b), m.fbu.area.y + RfbParser.Shift16(q, b + 2),
                          RfbParser.Shift16(q, b + 4), RfbParser.Shift16(q, b + 6), PixelAt(f, colour, 0)))
  {
    assert m.queue[0..] == m.queue;
    FillColour(f, m.queue, 0, colour);
    hide Fill, PixelAt, RfbParser.Shift16, Bpp;
  }

  lemma ShiftedWords(q: seq<byte>, b: nat)
    requires |q| >= b + 8
    ensures RfbParser.Shift16(q[b..], 0) == RfbParser.Shift16(q, b)
        && RfbParser.Shift16(q[b..], 2) == RfbParser.Shift16(q, b + 2)
    ensures RfbParser.Shift16(q[b..], 4) == RfbParser.Shift16(q, b + 4)
        && RfbParser.Shift16(q[b..], 6) == RfbParser.Shift16(q, b + 6)
    ensures q[b..][8..] == q[b + 8..]
  {
  }

  lemma RawCases(f: Format, m: Machine, m1: Machine, lines: int, line: nat)
    requires lines == (if m.fbu.lines == 0 then m.fbu.area.h else m.fbu.lines) && line == m.fbu.area.w * Bpp(f)
    requires m1 == m.(fbu := m.fbu.(lines := lines, bytes := line))
    ensures |m.queue| < line ==> RfbParser.Raw(f, m) == (m1, More)
    ensures |m.queue| >= line && (line == 0 || lines <= 0) ==> RfbParser.Raw(f, m) == (m1, Thrown)
    ensures |m.queue| >= line > 0 && lines > 0 ==>
      var n := Min(lines, |m.queue| / line);
      0 < n <= lines && n * line <= |m.queue|
          && RfbParser.Raw(f, m) == (EndLines(DrawLines(f, m1, n, line), line), Done)
  {
    if |m.queue| >= line > 0 && lines > 0 { WholeLines(|m.queue|, line, Min(lines, |m.queue| / line)); }
    hide DrawLines, EndLines, Bpp;
  }

  lemma CopyCases(f: Format, m: Machine)
    ensures |m.queue| < 4 ==> RfbParser.Copy(f, m) == (m.(fbu := m.fbu.(bytes := 4)), More)
    ensures |m.queue| >= 4 ==>
      && RfbParser.Shift16(m.queue[2..], 0) == RfbParser.Shift16(m.queue, 2) && m.queue[2..][2..] == m.queue[4..]
      && RfbParser.Copy(f, m) == (m.(queue := m.queue[4..], fbu := m.fbu.(rects := m.fbu.rects - 1, bytes := 0),
           pic := CopyArea(m.pic, RfbParser.Shift16(m.queue, 0), RfbParser.Shift16(m.queue, 2),
                           m.fbu.area.x, m.fbu.area.y, m.fbu.area.w, m.fbu.area.h)), Done)
  {
    hide CopyArea;
  }

  lemma RreCases(f: Format, m: Machine)
    ensures m.fbu.subrects != 0 ==> RfbParser.Rre(f, m) == RfbParser.RreRest(f, m)
    ensures m.fbu.subrects == 0 && |m.queue| < 4 + Bpp(f)
        ==> RfbParser.Rre(f, m) == (m.(fbu := m.fbu.(bytes := 4 + Bpp(f))), More)
    ensures m.fbu.subrects == 0 && |m.queue| >= 4 + Bpp(f) ==>
      RfbParser.Rre(f, m) == RfbParser.RreRest(f, m.(queue := m.queue[4 + Bpp(f)..],
        fbu := m.fbu.(subrects := RfbParser.Shift32(m.queue, 0), bytes := 4 + Bpp(f)),
        pic := Fill(m.pic, m.fbu.area.x, m.fbu.area.y, m.fbu.area.w, m.fbu.area.h, PixelAt(f, m.queue, 4))))
  {
    hide Fill, PixelAt, RfbParser.Shift32, RfbParser.RreRest, Bpp;
  }
}
