/** The resumable FramebufferUpdate parser, as functions of the unread bytes of the receive
    queue and of what the handlers remember between calls: the specification of the methods of
    module Rfb. Malformed input takes the branches it takes in the code. */
module RfbParser {
  import opened Numbers
  import opened Framebuffer
  import opened RfbFormat

  /** this._FBU. A colour that was never set is empty. */
  datatype Fbu = Fbu(
    rects: int, bytes: int, area: Area, encoding: int, lines: int, subrects: int,
    tiles: nat, total: nat, across: nat, last: nat, background: seq<byte>, foreground: seq<byte>)

  /** Failed is the state after `_fail`; Outside is entered at a message or encoding that this
      model leaves out. */
  datatype Status = Normal | Failed | Outside

  datatype Machine = Machine(queue: seq<byte>, fbu: Fbu, pic: Picture, done: nat, status: Status)

  /** What a handler reports: false (it needs more data or has failed), true, or an exception. */
  datatype Ret = More | Done | Thrown

  const RRE_CHUNK := 100

  /** A handler that reports true has finished a rectangle, consumed bytes, or asks for more
      bytes than there are. */
  predicate Progress(m: Machine, m': Machine) {
    m'.fbu.rects < m.fbu.rects || |m'.queue| < |m.queue| || |m'.queue| < m'.fbu.bytes
  }

  /** While tiles are left, the current rectangle is the Hextile rectangle they belong to. */
  predicate Coherent(m: Machine) {
    m.fbu.tiles > 0 ==>
      && m.fbu.across == TilesAcross(m.fbu.area.w) && m.fbu.total == TileCount(m.fbu.area)
      && m.fbu.tiles <= m.fbu.total && m.fbu.encoding == 5 && m.fbu.bytes > 0 && m.fbu.rects > 0
  }

  /* Raw */

  /** The next n rows of the rectangle, from the front of the queue. */
  function DrawLines(f: Format, m: Machine, n: nat, line: nat): (r: Machine)
    requires n * line <= |m.queue| && line == m.fbu.area.w * Bpp(f)
    ensures |r.queue| == |m.queue| - n * line && r.fbu == m.fbu.(lines := m.fbu.lines - n)
        && r.status == m.status && r.done == m.done
  {
    var a := m.fbu.area;
    m.(queue := m.queue[n * line..], fbu := m.fbu.(lines := m.fbu.lines - n),
       pic := Blit(f, m.pic, a.x, a.y + (a.h - m.fbu.lines), a.w, n, m.queue[..n * line]))
  }

  function EndLines(m: Machine, line: int): Machine {
    m.(fbu := if m.fbu.lines > 0 then m.fbu.(bytes := line) else m.fbu.(rects := m.fbu.rects - 1, bytes := 0))
  }

  function Raw(f: Format, m: Machine): (r: (Machine, Ret))
    ensures |r.0.queue| <= |m.queue| && r.0.fbu.rects <= m.fbu.rects && r.0.status == m.status
    ensures r.1 == Done ==> Progress(m, r.0)
    ensures r.0.fbu.tiles == m.fbu.tiles && r.0.fbu.encoding == m.fbu.encoding
  {
    var a := m.fbu.area;
    var lines := if m.fbu.lines == 0 then a.h else m.fbu.lines;
    var line := a.w * Bpp(f);
    var m1 := m.(fbu := m.fbu.(lines := lines, bytes := line));
    if |m.queue| < line then (m1, More)
    else if line == 0 || lines <= 0 then (m1, Thrown)
    else
      var n := Min(lines, |m.queue| / line);
      WholeLines(|m.queue|, line, n);
      (EndLines(DrawLines(f, m1, n, line), line), Done)
  }

  lemma WholeLines(q: nat, line: nat, n: int)
    requires 0 < line <= q
    ensures q / line > 0
    ensures 0 < n <= q / line ==> line <= n * line <= q
  {
    assert q == line * (q / line) + q % line;
    Factors(q / line, line, 0);
    if 0 < n <= q / line {
      MoreTimes(line, n, q / line);
      MoreTimes(line, 1, n);
      assert n * line == line * n;
    }
  }

  /* CopyRect */

  function Shift16(q: seq<byte>, i: nat): nat
    requires i + 2 <= |q|
  {
    q[i] as int * 256 + q[i + 1] as int
  }

  /** Four bytes added up after 32-bit shifts: the sign is that of the first byte. */
  function Shift32(q: seq<byte>, i: nat): int
    requires i + 4 <= |q|
  {
    ToInt32(Shift16(q, i) * 0x1_0000) + Shift16(q, i + 2)
  }

  function Copy(f: Format, m: Machine): (r: (Machine, Ret))
    ensures |r.0.queue| <= |m.queue| && r.0.fbu.rects <= m.fbu.rects && r.0.status == m.status
    ensures r.1 == Done ==> r.0.fbu.rects < m.fbu.rects
    ensures r.0.fbu.tiles == m.fbu.tiles && r.0.fbu.encoding == m.fbu.encoding
  {
    var a := m.fbu.area;
    if |m.queue| < 4 then (m.(fbu := m.fbu.(bytes := 4)), More)
    else (m.(queue := m.queue[4..], fbu := m.fbu.(rects := m.fbu.rects - 1, bytes := 0),
             pic := CopyArea(m.pic, Shift16(m.queue, 0), Shift16(m.queue, 2), a.x, a.y, a.w, a.h)), Done)
  }

  /* RRE */

  /** The subrectangle at the front of the queue. */
  function DrawSubrect(f: Format, m: Machine): Machine
    requires |m.queue| >= Bpp(f) + 8
  {
    var q, b := m.queue, Bpp(f);
    var pic := Fill(m.pic, m.fbu.area.x + Shift16(q, b), m.fbu.area.y + Shift16(q, b + 2),
        Shift16(q, b + 4), Shift16(q, b + 6), PixelAt(f, q, 0));
    m.(queue := q[b + 8..], fbu := m.fbu.(subrects := m.fbu.subrects - 1), pic := pic)
  }

  function RreSubrects(f: Format, m: Machine): (r: Machine)
    ensures |r.queue| <= |m.queue| && r.fbu == m.fbu.(subrects := r.fbu.subrects)
        && r.status == m.status && r.done == m.done
    ensures r.fbu.subrects > 0 ==> |r.queue| < Bpp(f) + 8
    decreases |m.queue|
  {
    if m.fbu.subrects > 0 && |m.queue| >= Bpp(f) + 8 then RreSubrects(f, DrawSubrect(f, m)) else m
  }

  function RreRest(f: Format, m: Machine): (r: (Machine, Ret))
    ensures |r.0.queue| <= |m.queue| && r.0.fbu.rects <= m.fbu.rects && r.0.status == m.status
    ensures r.0.fbu.tiles == m.fbu.tiles && r.0.fbu.encoding == m.fbu.encoding
    ensures r.1 == Done && Progress(m, r.0)
  {
    var n := RreSubrects(f, m);
    var fbu := if n.fbu.subrects > 0 then n.fbu.(bytes := (Bpp(f) + 8) * Min(RRE_CHUNK, n.fbu.subrects))
               else n.fbu.(rects := n.fbu.rects - 1, bytes := 0);
    (n.(fbu := fbu), Done)
  }

  function Rre(f: Format, m: Machine): (r: (Machine, Ret))
    ensures |r.0.queue| <= |m.queue| && r.0.fbu.rects <= m.fbu.rects && r.0.status == m.status
    ensures r.0.fbu.tiles == m.fbu.tiles && r.0.fbu.encoding == m.fbu.encoding
    ensures r.1 == Done ==> Progress(m, r.0)
  {
    if m.fbu.subrects != 0 then RreRest(f, m)
    else if |m.queue| < 4 + Bpp(f) then (m.(fbu := m.fbu.(bytes := 4 + Bpp(f))), More)
    else
      var a, n := m.fbu.area, Shift32(m.queue, 0);
      RreRest(f, m.(queue := m.queue[4 + Bpp(f)..], fbu := m.fbu.(subrects := n, bytes := 4 + Bpp(f)),
                    pic := Fill(m.pic, a.x, a.y, a.w, a.h, PixelAt(f, m.queue, 4))))
  }

  /* Hextile */

  /** The bytes in front of a tile's subrectangle count, for a mask that has one. */
  function ColourBytes(f: Format, mask: nat): nat {
    (if HasBackground(mask) then Bpp(f) else 0) + (if HasForeground(mask) then Bpp(f) else 0)
  }

  function RectSize(f: Format, mask: nat): nat {
    if Coloured(mask) then Bpp(f) + 2 else 2
  }

  /** How many bytes the handler asks for before it draws the tile at the front of q. */
  function TileWait(f: Format, q: seq<byte>, w: nat, h: nat): (n: nat)
    ensures n >= 1
  {
    if q == [] then 1
    else if IsRaw(q[0]) then 1 + h * (w * Bpp(f))
    else if !HasRects(q[0]) then 1 + ColourBytes(f, q[0])
    else
      var head := 2 + ColourBytes(f, q[0]);
      if |q| < head then head else head + q[head - 1] * RectSize(f, q[0])
  }

  /** The subrectangles at the front of q; one without a colour throws. */
  function DrawTileRects(f: Format, pic: Picture, x: int, y: int,
          q: seq<byte>, count: nat, mask: nat, foreground: seq<byte>): (Picture, bool)
    requires count * RectSize(f, mask) <= |q|
    decreases count
  {
    if count == 0 then (pic, true) else
    var size := RectSize(f, mask);
    assert count * size == size + (count - 1) * size;
    var colour := if Coloured(mask) then q[..Bpp(f)] else foreground;
    if |colour| != Bpp(f) then (pic, false)
    else
      var xy, wh := q[size - 2], q[size - 1];
      var pic' := Fill(pic, x + xy / 16, y + xy % 16, wh / 16 + 1, wh % 16 + 1, PixelAt(f, colour, 0));
      DrawTileRects(f, pic', x, y, q[size..], count - 1, mask, foreground)
  }

  datatype Drawn = Drawn(pic: Picture, background: seq<byte>, foreground: seq<byte>, ok: bool)

  /** A whole tile at the front of the queue. */
  function DrawTile(f: Format, m: Machine, a: Area): Drawn
    requires m.queue != [] && |m.queue| >= TileWait(f, m.queue, a.w, a.h)
  {
    var q, b := m.queue, Bpp(f);
    var mask := q[0];
    var bg, fg := m.fbu.background, m.fbu.foreground;
    if mask == 0 then
      if IsRaw(m.fbu.last) then Drawn(m.pic, bg, fg, true)
      else if |bg| != b then Drawn(m.pic, bg, fg, false)
      else Drawn(Fill(m.pic, a.x, a.y, a.w, a.h, PixelAt(f, bg, 0)), bg, fg, true)
    else if IsRaw(mask) then Drawn(Blit(f, m.pic, a.x, a.y, a.w, a.h, q[1..1 + a.h * (a.w * b)]), bg, fg, true)
    else
      var i := if HasBackground(mask) then 1 + b else 1;
      var bg' := if HasBackground(mask) then q[1..i] else bg;
      var j := if HasForeground(mask) then i + b else i;
      var fg' := if HasForeground(mask) then q[i..j] else fg;
      if |bg'| != b then Drawn(m.pic, bg', fg', false)
      else
        var pic := Fill(m.pic, a.x, a.y, a.w, a.h, PixelAt(f, bg', 0));
        if !HasRects(mask) then Drawn(pic, bg', fg', true)
        else
          var (pic', ok) := DrawTileRects(f, pic, a.x, a.y, q[j + 1..], q[j], mask, fg');
          Drawn(pic', bg', fg', ok)
  }

  function HexTiles(f: Format, m: Machine): (r: (Machine, Ret))
    requires m.fbu.tiles > 0 ==> Coherent(m.(fbu := m.fbu.(bytes := 1)))
    ensures |r.0.queue| <= |m.queue| && r.0.fbu.rects == m.fbu.rects && r.0.fbu.encoding == m.fbu.encoding
    ensures r.0.fbu.tiles > 0 ==> Coherent(r.0) && r.1 != Done
    decreases m.fbu.tiles
  {
    if m.fbu.tiles == 0 then (m, Done)
    else if m.queue != [] && m.queue[0] > 30 then (m.(fbu := m.fbu.(bytes := 1), status := Failed), More)
    else
      var a := TileArea(m.fbu.area, m.fbu.total - m.fbu.tiles);
      var n := TileWait(f, m.queue, a.w, a.h);
      if |m.queue| < n then (m.(fbu := m.fbu.(bytes := n)), More)
      else
        var d := DrawTile(f, m, a);
        var fbu := m.fbu.(background := d.background, foreground := d.foreground);
        if !d.ok then (m.(fbu := fbu.(bytes := n), pic := d.pic), Thrown)
        else HexTiles(f, m.(queue := m.queue[n..], pic := d.pic,
                            fbu := fbu.(last := m.queue[0], bytes := 0, tiles := m.fbu.tiles - 1)))
  }

  function Hextile(f: Format, m: Machine): (r: (Machine, Ret))
    requires Coherent(m) && m.fbu.encoding == 5 && m.fbu.rects > 0
    ensures |r.0.queue| <= |m.queue| && r.0.fbu.rects <= m.fbu.rects
    ensures r.1 == Done ==> Progress(m, r.0)
    ensures Coherent(r.0) && r.0.fbu.encoding == m.fbu.encoding
  {
    var m1 := if m.fbu.tiles > 0 then m
              else m.(fbu := m.fbu.(across := TilesAcross(m.fbu.area.w),
                  total := TileCount(m.fbu.area), tiles := TileCount(m.fbu.area)));
    var (m2, ret) := HexTiles(f, m1);
    if ret == Done then (m2.(fbu := m2.fbu.(rects := m2.fbu.rects - 1)), Done) else (m2, ret)
  }

  /* Updates */

  predicate Modelled(encoding: int) {
    encoding == 0 || encoding == 1 || encoding == 2 || encoding == 5
  }

  /** Encodings in _encNames that are not part of this model. */
  predicate NamedOnly(encoding: int) {
    encoding in {7, -260, -223, -239, -26, -247, -224, -309, -308}
  }

  lemma KeepsCoherent(m: Machine, m': Machine)
    requires Coherent(m) && m'.fbu.tiles == m.fbu.tiles && m.fbu.encoding != 5
    ensures Coherent(m')
  {
  }

  function Handle(f: Format, m: Machine): (r: (Machine, Ret))
    requires Coherent(m) && Modelled(m.fbu.encoding) && m.fbu.rects > 0
    ensures |r.0.queue| <= |m.queue| && r.0.fbu.rects <= m.fbu.rects && Coherent(r.0)
    ensures r.0.fbu.encoding == m.fbu.encoding
    ensures r.1 == Done ==> Progress(m, r.0)
  {
    if m.fbu.encoding == 0 then KeepsCoherent(m, Raw(f, m).0); Raw(f, m)
    else if m.fbu.encoding == 1 then KeepsCoherent(m, Copy(f, m).0); Copy(f, m)
    else if m.fbu.encoding == 2 then KeepsCoherent(m, Rre(f, m).0); Rre(f, m)
    else Hextile(f, m)
  }

  /** The rectangle header at the front of the queue. */
  function WithHeader(m: Machine): Machine
    requires |m.queue| >= 12
  {
    var q := m.queue;
    m.(queue := q[12..],
        fbu := m.fbu.(area := Area(Shift16(q, 0), Shift16(q, 2), Shift16(q, 4), Shift16(q, 6)),
            encoding := Shift32(q, 8)))
  }

  function Waits(m: Machine): nat {
    if |m.queue| < m.fbu.bytes then 0 else 1
  }

  /** Between calls: in the middle of a rectangle its encoding is one that can be resumed. */
  predicate Ready(m: Machine) {
    Coherent(m) && (m.fbu.rects > 0 && m.fbu.bytes != 0 ==> Modelled(m.fbu.encoding))
  }

  /** The loop over rectangles. */
  function Rects(f: Format, m: Machine): (r: (Machine, Ret))
    requires Ready(m)
    ensures |r.0.queue| <= |m.queue| && Ready(r.0)
    decreases m.fbu.rects, |m.queue|, Waits(m)
  {
    if m.fbu.rects <= 0 then (m.(done := m.done + 1), Done)
    else if m.status != Normal || |m.queue| < m.fbu.bytes then (m, More)
    else if m.fbu.bytes == 0 && |m.queue| < 12 then (m, More)
    else
      var m1 := if m.fbu.bytes == 0 then WithHeader(m) else m;
      if NamedOnly(m1.fbu.encoding) then (m1.(status := Outside), More)
      else if !Modelled(m1.fbu.encoding) then (m1.(status := Failed), More)
      else
        var (m2, ret) := Handle(f, m1);
        if ret != Done then (m2, ret) else Rects(f, m2)
  }

  /* Messages */

  /** The message at the front of the queue, or the rest of the update under way. Fewer than
      four bytes of an update's header are left in the queue. */
  function NormalMsg(f: Format, m: Machine): (r: (Machine, Ret))
    requires Ready(m) && (m.fbu.rects > 0 || m.queue != [])
    ensures Ready(r.0)
  {
    if m.fbu.rects > 0 then Rects(f, m)
    else if m.queue[0] == 0 then
      if |m.queue| < 4 then (m, More)
      else Rects(f, m.(queue := m.queue[4..], fbu := m.fbu.(rects := Shift16(m.queue, 2), bytes := 0)))
    else if m.queue[0] == 2 then (m.(queue := m.queue[1..]), Done)
    else if m.queue[0] in {1, 3, 250} then (m.(status := Outside), More)
    else (m.(queue := m.queue[1..], status := Failed), Done)
  }

  /** Whether the log level is 'debug', and what the display shows when it has been cleared: its logo,
      or nothing. */
  datatype Setup = Setup(debug: bool, logo: Picture)

  /** The picture after `_cleanupSocket`. */
  function Cleared(setup: Setup, pic: Picture): Picture {
    if setup.debug then pic else setup.logo
  }

  /** The parser, the timer that lets it go on after a message, and whether a handler has ever thrown: the
      exception is reported, and the parser is entered again with the next message. */
  datatype Session = Session(m: Machine, pending: bool, thrown: bool, setup: Setup)

  /** `_cleanupSocket`, with which `_fail` begins: the timer is cancelled and the display cleared. The
      socket is closed too, so that no later message gets through. */
  function CleanedUp(s: Session): Session {
    s.(pending := false, m := s.m.(pic := Cleared(s.setup, s.m.pic)))
  }

  function HandleMessage(f: Format, s: Session): (r: Session)
    requires Ready(s.m)
    ensures Ready(r.m) && r.setup == s.setup && (s.thrown ==> r.thrown)
  {
    if s.m.queue == [] || s.m.status != Normal then s
    else
      var (m, ret) := NormalMsg(f, s.m);
      var s1 := if m.status == Failed then CleanedUp(s.(m := m)) else s.(m := m);
      s1.(pending := s1.pending || (ret == Done && m.queue != []), thrown := s.thrown || ret == Thrown)
  }

  /** What happens to the client: a websocket message arrives, or the timer fires. */
  datatype Event = Message(data: seq<byte>) | Timer

  function Step(f: Format, s: Session, e: Event): (r: Session)
    requires Ready(s.m)
    ensures Ready(r.m) && r.setup == s.setup && (s.thrown ==> r.thrown)
  {
    match e
    case Message(data) =>
      if s.m.status == Failed then s else HandleMessage(f, s.(m := s.m.(queue := s.m.queue + data)))
    case Timer => if s.pending then HandleMessage(f, s.(pending := false)) else s
  }

  function Run(f: Format, s: Session, events: seq<Event>): (r: Session)
    requires Ready(s.m)
    ensures Ready(r.m) && r.setup == s.setup && (s.thrown ==> r.thrown)
    decreases events
  {
    if events == [] then s else Run(f, Step(f, s, events[0]), events[1..])
  }
}
