/** The one array of lines behaves like a history and a screen: what each operation that moves
    lines or cells does to that pair, in closed form. */
module TermRefines {
  import opened Numbers
  import opened TermScreen

  datatype View = View(history: seq<Line>, screen: seq<Line>)

  function ViewOf(b: Buffer): View
    requires 0 <= b.ybase <= |b.lines|
  {
    View(b.lines[..b.ybase], b.lines[b.ybase..])
  }

  /* Shifting part of a sequence */

  /** Elements lo up to hi move k places to the front, and v fills up behind them. */
  function ShiftUp<T>(s: seq<T>, lo: nat, hi: nat, k: nat, v: T): (r: seq<T>)
    requires lo <= hi <= |s|
    ensures |r| == |s|
    ensures forall i :: 0 <= i < |s| ==>
      r[i] == if i < lo || i >= hi then s[i] else if i + k < hi then s[i + k] else v
  {
    seq(|s|, i requires 0 <= i < |s| => if i < lo || i >= hi then s[i] else if i + k < hi then s[i + k] else v)
  }

  /** Elements lo up to hi move k places to the back, and v fills up in front of them. */
  function ShiftDown<T>(s: seq<T>, lo: nat, hi: nat, k: nat, v: T): (r: seq<T>)
    requires lo <= hi <= |s|
    ensures |r| == |s|
    ensures forall i :: 0 <= i < |s| ==>
      r[i] == if i < lo || i >= hi then s[i] else if i - k >= lo then s[i - k] else v
  {
    seq(|s|, i requires 0 <= i < |s| => if i < lo || i >= hi then s[i] else if i - k >= lo then s[i - k] else v)
  }

  lemma ShiftUpAgain<T>(s: seq<T>, lo: nat, hi: nat, k: nat, v: T)
    requires lo <= hi <= |s|
    ensures ShiftUp(ShiftUp(s, lo, hi, 1, v), lo, hi, k, v) == ShiftUp(s, lo, hi, k + 1, v)
    ensures ShiftUp(s, lo, hi, 0, v) == s
  {
  }

  lemma ShiftDownAgain<T>(s: seq<T>, lo: nat, hi: nat, k: nat, v: T)
    requires lo <= hi <= |s|
    ensures ShiftDown(ShiftDown(s, lo, hi, 1, v), lo, hi, k, v) == ShiftDown(s, lo, hi, k + 1, v)
    ensures ShiftDown(s, lo, hi, 0, v) == s
  {
  }

  lemma InsertRemoveOnce(s: seq<Line>, row: nat, j: nat, v: Line)
    requires row <= |s| && j <= |s|
    ensures row <= j ==> RemoveAt(InsertAt(s, row, v), j) == ShiftDown(s, row, j, 1, v)
    ensures j <= row ==> RemoveAt(InsertAt(s, row, v), j) == ShiftUp(s, j, row, 1, v)
  {
    var r := InsertAt(s, row, v);
    assert r == s[..row] + [v] + s[row..];
    assert RemoveAt(r, j) == r[..j] + r[j + 1..];
    hide InsertAt, RemoveAt;
  }

  lemma RemoveInsertUp(s: seq<Line>, row: nat, j: nat, v: Line)
    requires row <= j < |s|
    ensures InsertAt(RemoveAt(s, row), j, v) == ShiftUp(s, row, j + 1, 1, v)
  {
    var r := RemoveAt(s, row);
    assert r == s[..row] + s[row + 1..];
    assert InsertAt(r, j, v) == r[..j] + [v] + r[j..];
    hide InsertAt, RemoveAt;
  }

  lemma RemoveInsertDown(s: seq<Line>, row: nat, j: nat, v: Line)
    requires j <= row < |s|
    ensures InsertAt(RemoveAt(s, row), j, v) == ShiftDown(s, j, row + 1, 1, v)
  {
    var r := RemoveAt(s, row);
    assert r == s[..row] + s[row + 1..];
    assert InsertAt(r, j, v) == r[..j] + [v] + r[j..];
    hide InsertAt, RemoveAt;
  }

  /** Inserting lines at row and removing as many at j shifts the lines between the two. */
  lemma {:induction false} InsertRemoveShifts(s: seq<Line>, row: nat, j: nat, v: Line, n: nat)
    requires row <= |s| && j <= |s|
    ensures row <= j ==> InsertRemove(s, row, j, v, n) == ShiftDown(s, row, j, n, v)
    ensures j <= row ==> InsertRemove(s, row, j, v, n) == ShiftUp(s, j, row, n, v)
    decreases n
  {
    hide ShiftDown, ShiftUp, RemoveAt, InsertAt;
    if n == 0 {
      if row <= j { ShiftDownAgain(s, row, j, 0, v); }
      if j <= row { ShiftUpAgain(s, j, row, 0, v); }
    } else {
      InsertRemoveOnce(s, row, j, v);
      if row <= j { ShiftDownAgain(s, row, j, n - 1, v); }
      if j <= row { ShiftUpAgain(s, j, row, n - 1, v); }
      InsertRemoveShifts(RemoveAt(InsertAt(s, row, v), j), row, j, v, n - 1);
    }
  }

  lemma {:induction false} RemoveInsertShifts(s: seq<Line>, row: nat, j: nat, v: Line, n: nat)
    requires row < |s| && j < |s|
    ensures row <= j ==> RemoveInsert(s, row, j, v, n) == ShiftUp(s, row, j + 1, n, v)
    ensures j <= row ==> RemoveInsert(s, row, j, v, n) == ShiftDown(s, j, row + 1, n, v)
    decreases n
  {
    hide ShiftDown, ShiftUp, RemoveAt, InsertAt;
    if n == 0 {
      if row <= j { ShiftUpAgain(s, row, j + 1, 0, v); }
      if j <= row { ShiftDownAgain(s, j, row + 1, 0, v); }
    } else {
      if row <= j { RemoveInsertUp(s, row, j, v); }
      if j <= row { RemoveInsertDown(s, row, j, v); }
      if row <= j { ShiftUpAgain(s, row, j + 1, n - 1, v); }
      if j <= row { ShiftDownAgain(s, j, row + 1, n - 1, v); }
      RemoveInsertShifts(InsertAt(RemoveAt(s, row), j, v), row, j, v, n - 1);
    }
  }

  /** A shift within the screen is a shift of the screen, and leaves the history alone. */
  lemma ShiftScreen(s: seq<Line>, base: nat, lo: nat, hi: nat, k: nat, v: Line)
    requires lo <= hi && base + hi <= |s|
    ensures ShiftUp(s, base + lo, base + hi, k, v)[..base] == s[..base]
    ensures ShiftUp(s, base + lo, base + hi, k, v)[base..] == ShiftUp(s[base..], lo, hi, k, v)
    ensures ShiftDown(s, base + lo, base + hi, k, v)[..base] == s[..base]
    ensures ShiftDown(s, base + lo, base + hi, k, v)[base..] == ShiftDown(s[base..], lo, hi, k, v)
  {
  }

  /** Shifting keeps every line as long as it was, or as long as the new one. */
  lemma ShiftFits(s: seq<Line>, lo: nat, hi: nat, k: nat, v: Line, cols: int)
    requires lo <= hi <= |s| && LinesFit(s, cols) && |v| >= cols
    ensures LinesFit(ShiftUp(s, lo, hi, k, v), cols) && LinesFit(ShiftDown(s, lo, hi, k, v), cols)
  {
  }

  /* Operations that move lines */

  /** What scrolling leaves of the history: all of it, or the younger half when it is full. */
  function Trimmed(history: seq<Line>, scrollback: int): seq<Line>
    requires scrollback >= 2 && |history| < scrollback
  {
    if |history| + 1 == scrollback then history[|history| - (scrollback / 2 - 1)..] else history
  }

  /** The region moves up by a line. If its margins are the wrong way round, the lines that lie between
      them move down. */
  function RegionUp(screen: seq<Line>, top: nat, bottom: nat, blank: Line): seq<Line>
    requires top < |screen| && bottom < |screen|
  {
    if top <= bottom then ShiftUp(screen, top, bottom + 1, 1, blank) else ShiftDown(screen, bottom + 1, top, 1, blank)
  }

  /** The top line of the screen goes to the history only if the region starts there. */
  function Scrolled(v: View, top: nat, bottom: nat, scrollback: int, blank: Line): View
    requires scrollback >= 2 && |v.history| < scrollback && top < |v.screen| && bottom < |v.screen|
  {
    var h := Trimmed(v.history, scrollback);
    View(if top == 0 then h + [v.screen[0]] else h, RegionUp(v.screen, top, bottom, blank))
  }

  /** The lines that scroll works on once it has dropped old history, and where they start. */
  lemma ScrollLines(t: Term) returns (kept: seq<Line>, base: nat)
    requires Valid(t)
    ensures base < t.scrollback - 1 && |kept| == base + t.rows
    ensures kept[..base] == Trimmed(t.b.lines[..t.b.ybase], t.scrollback) && kept[base..] == t.b.lines[t.b.ybase..]
    ensures t.b.top >= 0 && t.b.bottom >= 0
    ensures Scroll(t).b.ybase == (if t.b.top == 0 then base + 1 else base)
    ensures t.b.top == 0 ==> Scroll(t).b.lines == InsertAt(kept, base + (t.b.bottom + 1), BlankLine(t, false))
    ensures t.b.top != 0 ==>
      Scroll(t).b.lines == RemoveAt(InsertAt(kept, base + (t.b.bottom + 1), BlankLine(t, false)), base + t.b.top)
  {
    var b := t.b;
    hide InsertAt, RemoveAt, BlankLine, LinesFit;
    if b.ybase + 1 == t.scrollback {
      base := t.scrollback / 2 - 1;
      kept := Last(b.lines, base + t.rows);
      LastLines(b.lines, b.ybase, base, t.rows);
    } else {
      base := b.ybase;
      kept := b.lines;
    }
  }

  lemma LastLines(lines: seq<Line>, ybase: nat, base: nat, rows: nat)
    requires |lines| == ybase + rows && base <= ybase && rows > 0
    ensures var k := Last(lines, base + rows);
            |k| == base + rows && k[..base] == lines[..ybase][ybase - base..] && k[base..] == lines[ybase..]
  {
  }

  lemma Inserted(s: seq<Line>, base: nat, hi: nat, v: Line)
    requires 0 < hi && base + hi <= |s|
    ensures InsertAt(s, base + hi, v)[..base + 1] == s[..base] + [s[base..][0]]
    ensures InsertAt(s, base + hi, v)[base + 1..] == RegionUp(s[base..], 0, hi - 1, v)
  {
    assert InsertAt(s, base + hi, v) == s[..base + hi] + [v] + s[base + hi..];
    hide InsertAt;
  }

  lemma InsertedInside(s: seq<Line>, base: nat, top: nat, bottom: nat, v: Line, r: seq<Line>)
    requires base + top < |s| && base + bottom < |s| && r == RemoveAt(InsertAt(s, base + (bottom + 1), v), base + top)
    ensures |r| == |s| && r[..base] == s[..base] && r[base..] == RegionUp(s[base..], top, bottom, v)
  {
    hide InsertAt, RemoveAt, ShiftUp, ShiftDown;
    InsertRemoveOnce(s, base + (bottom + 1), base + top, v);
    if top <= bottom {
      ShiftScreen(s, base, top, bottom + 1, 1, v);
    } else {
      ShiftScreen(s, base, bottom + 1, top, 1, v);
    }
  }

  lemma RegionFits(s: seq<Line>, top: nat, bottom: nat, v: Line, cols: int)
    requires top < |s| && bottom < |s| && LinesFit(s, cols) && |v| >= cols
    ensures LinesFit(RegionUp(s, top, bottom, v), cols)
  {
    hide LinesFit, ShiftUp, ShiftDown;
    if top <= bottom {
      ShiftFits(s, top, bottom + 1, 1, v, cols);
    } else {
      ShiftFits(s, bottom + 1, top, 1, v, cols);
    }
  }

  /** The two parts of the array after scroll. */
  lemma ScrollAtTop(t: Term)
    requires Valid(t) && t.b.top == 0
    ensures var b, h := Scroll(t).b, Trimmed(t.b.lines[..t.b.ybase], t.scrollback);
            && |b.lines| == b.ybase + t.rows && b.ybase == |h| + 1 < t.scrollback
            && |t.b.lines[t.b.ybase..]| == t.rows > t.b.bottom
            && b.lines[..b.ybase] == h + [t.b.lines[t.b.ybase..][0]]
            && b.lines[b.ybase..] == RegionUp(t.b.lines[t.b.ybase..], 0, t.b.bottom, BlankLine(t, false))
  {
    hide *;
    var kept, base := ScrollLines(t);
    IsShape(t);
    Inserted(kept, base, t.b.bottom + 1, BlankLine(t, false));
  }

  lemma ScrollInside(t: Term)
    requires Valid(t) && t.b.top != 0
    ensures |t.b.lines[t.b.ybase..]| == t.rows > t.b.bottom >= 0 && t.rows > t.b.top >= 0
    ensures |Scroll(t).b.lines| == Scroll(t).b.ybase + t.rows && 0 <= Scroll(t).b.ybase < t.scrollback
    ensures Scroll(t).b.lines[..Scroll(t).b.ybase] == Trimmed(t.b.lines[..t.b.ybase], t.scrollback)
    ensures Scroll(t).b.lines[Scroll(t).b.ybase..]
         == RegionUp(t.b.lines[t.b.ybase..], t.b.top, t.b.bottom, BlankLine(t, false))
  {
    hide *;
    var kept, base := ScrollLines(t);
    IsShape(t);
    InsertedInside(kept, base, t.b.top, t.b.bottom, BlankLine(t, false), Scroll(t).b.lines);
  }

  lemma ScrollFrame(t: Term)
    requires Valid(t)
    ensures Scroll(t).b.ydisp == Scroll(t).b.ybase
    ensures Scroll(t) == t.(b :=
        t.b.(lines := Scroll(t).b.lines, ybase := Scroll(t).b.ybase, ydisp := Scroll(t).b.ydisp))
  {
    hide LinesFit, BlankLine, InsertAt, RemoveAt, Last;
  }

  /** scroll on the pair of history and screen: the region moves up by a line, the lines outside
      it stay, and a full history is halved by dropping its oldest lines. */
  lemma ScrollRefines(t: Term)
    requires Valid(t)
    ensures Shape(Scroll(t).b, t.rows, t.cols, t.scrollback)
    ensures ViewOf(Scroll(t).b) == Scrolled(ViewOf(t.b), t.b.top, t.b.bottom, t.scrollback, BlankLine(t, false))
    ensures Scroll(t).b.ydisp == Scroll(t).b.ybase
    ensures Scroll(t) == t.(b :=
        t.b.(lines := Scroll(t).b.lines, ybase := Scroll(t).b.ybase, ydisp := Scroll(t).b.ydisp))
  {
    ScrollFrame(t);
    ScrolledIs(t);
    ScrollFits(t);
    hide *;
    IsShape(t);
    if t.b.top == 0 { ScrollAtTop(t); } else { ScrollInside(t); }
    ShapeIf(t, Scroll(t).b);
  }

  lemma ScrollFits(t: Term)
    requires Valid(t)
    ensures LinesFit(Scroll(t).b.lines, t.cols)
  {
    var b, blank := t.b, BlankLine(t, false);
    hide *;
    IsShape(t);
    TrimmedFits(b.lines, b.ybase, t.scrollback, t.cols);
    BlankFits(t);
    var lines, ybase := Scroll(t).b.lines, Scroll(t).b.ybase;
    if t.b.top == 0 {
      ScrollAtTop(t);
      ScreenTop(b.lines[b.ybase..], t.cols);
      JoinFits(Trimmed(b.lines[..b.ybase], t.scrollback), [b.lines[b.ybase..][0]], t.cols);
    } else {
      ScrollInside(t);
    }
    RegionFits(b.lines[b.ybase..], b.top, b.bottom, blank, t.cols);
    JoinFits(lines[..ybase], lines[ybase..], t.cols);
    Rejoined(lines, ybase);
  }

  lemma Rejoined(s: seq<Line>, i: nat)
    requires i <= |s|
    ensures s == s[..i] + s[i..]
  {
  }

  lemma IsShape(t: Term)
    requires Valid(t)
    ensures var b := t.b;
        |b.lines| == b.ybase + t.rows && 0 <= b.ydisp <= b.ybase < t.scrollback && 0 <= b.y < t.rows && 0 <= b.x
    ensures 0 <= t.b.top < t.rows && 0 <= t.b.bottom < t.rows
    ensures t.cols >= 1 && t.scrollback >= 2 && LinesFit(t.b.lines, t.cols)
  {
    hide LinesFit;
  }

  lemma ShapeIf(t: Term, b: Buffer)
    requires |b.lines| == b.ybase + t.rows && 0 <= b.ydisp <= b.ybase < t.scrollback && 0 <= b.y < t.rows && 0 <= b.x
    requires 0 <= b.top < t.rows && 0 <= b.bottom < t.rows && t.cols >= 1 && LinesFit(b.lines, t.cols)
    ensures Shape(b, t.rows, t.cols, t.scrollback)
  {
  }

  lemma BlankFits(t: Term)
    requires Valid(t)
    ensures |BlankLine(t, false)| == |BlankLine(t, true)| == t.cols
  {
  }

  lemma ScrolledIs(t: Term)
    requires Valid(t)
    ensures var h, screen := Trimmed(t.b.lines[..t.b.ybase], t.scrollback), t.b.lines[t.b.ybase..];
            Scrolled(ViewOf(t.b), t.b.top, t.b.bottom, t.scrollback, BlankLine(t, false))
            == View(if t.b.top == 0 then h + [screen[0]] else h,
                RegionUp(screen, t.b.top, t.b.bottom, BlankLine(t, false)))
    ensures var b := Scroll(t).b;
        0 <= b.ybase <= |b.lines| ==> ViewOf(b) == View(b.lines[..b.ybase], b.lines[b.ybase..])
  {
    hide RegionUp, Trimmed, BlankLine, Scroll, LinesFit;
  }

  lemma ScreenTop(s: seq<Line>, cols: int)
    requires s != [] && LinesFit(s, cols)
    ensures LinesFit([s[0]], cols)
  {
  }

  lemma TrimmedFits(lines: seq<Line>, ybase: nat, scrollback: int, cols: int)
    requires ybase <= |lines| && LinesFit(lines, cols) && scrollback >= 2 && ybase < scrollback
    ensures LinesFit(Trimmed(lines[..ybase], scrollback), cols) && LinesFit(lines[ybase..], cols)
  {
  }

  lemma JoinFits(a: seq<Line>, b: seq<Line>, cols: int)
    ensures LinesFit(a, cols) && LinesFit(b, cols) ==> LinesFit(a + b, cols)
  {
  }

  /** Shifting screen lines keeps the shape and the history. */
  lemma ShiftRefines(t: Term, lo: nat, hi: nat, k: nat, v: Line)
    requires Valid(t) && lo <= hi <= t.rows && |v| >= t.cols
    ensures t.b.ybase + hi <= |t.b.lines| && |ViewOf(t.b).screen| == t.rows
    ensures var up := t.b.(lines := ShiftUp(t.b.lines, t.b.ybase + lo, t.b.ybase + hi, k, v));
            Shape(up, t.rows, t.cols, t.scrollback)
                && ViewOf(up) == ViewOf(t.b).(screen := ShiftUp(ViewOf(t.b).screen, lo, hi, k, v))
    ensures var down := t.b.(lines := ShiftDown(t.b.lines, t.b.ybase + lo, t.b.ybase + hi, k, v));
            Shape(down, t.rows, t.cols, t.scrollback)
                && ViewOf(down) == ViewOf(t.b).(screen := ShiftDown(ViewOf(t.b).screen, lo, hi, k, v))
  {
    hide ShiftUp, ShiftDown, LinesFit;
    ShiftScreen(t.b.lines, t.b.ybase, lo, hi, k, v);
    ShiftFits(t.b.lines, t.b.ybase + lo, t.b.ybase + hi, k, v, t.cols);
  }

  /** IL: from the cursor to the bottom margin, lines move down; with the cursor below the margin,
      the lines between the two move up instead. */
  lemma InsertLinesRefines(t: Term, n: int)
    requires Valid(t)
    ensures InsertLines(t, n) == t.(b := t.b.(lines := InsertLines(t, n).b.lines))
    ensures Shape(InsertLines(t, n).b, t.rows, t.cols, t.scrollback) && |ViewOf(t.b).screen| == t.rows
    ensures ViewOf(InsertLines(t, n).b) == ViewOf(t.b).(screen :=
      if t.b.y <= t.b.bottom then ShiftDown(ViewOf(t.b).screen, t.b.y, t.b.bottom + 1, AtLeast1(n), BlankLine(t, true))
      else ShiftUp(ViewOf(t.b).screen, t.b.bottom + 1, t.b.y, AtLeast1(n), BlankLine(t, true)))
  {
    hide ShiftUp, ShiftDown, BlankLine, InsertRemove, LinesFit, AtLeast1, ViewOf, Shape;
    IsShape(t);
    BlankFits(t);
    var b, v := t.b, BlankLine(t, true);
    InsertRemoveShifts(b.lines, b.y + b.ybase, b.ybase + b.bottom + 1, v, AtLeast1(n));
    if b.y <= b.bottom {
      ShiftRefines(t, b.y, b.bottom + 1, AtLeast1(n), v);
    } else {
      ShiftRefines(t, b.bottom + 1, b.y, AtLeast1(n), v);
    }
  }

  /** DL: from the cursor to the bottom margin, lines move up; with the cursor below the margin,
      the lines between the two move down instead. */
  lemma DeleteLinesRefines(t: Term, n: int)
    requires Valid(t)
    ensures DeleteLines(t, n) == t.(b := t.b.(lines := DeleteLines(t, n).b.lines))
    ensures Shape(DeleteLines(t, n).b, t.rows, t.cols, t.scrollback) && |ViewOf(t.b).screen| == t.rows
    ensures ViewOf(DeleteLines(t, n).b) == ViewOf(t.b).(screen :=
      if t.b.y <= t.b.bottom then ShiftUp(ViewOf(t.b).screen, t.b.y, t.b.bottom + 1, AtLeast1(n), BlankLine(t, true))
      else ShiftDown(ViewOf(t.b).screen, t.b.bottom + 1, t.b.y, AtLeast1(n), BlankLine(t, true)))
  {
    hide ShiftUp, ShiftDown, BlankLine, InsertRemove, LinesFit, AtLeast1, ViewOf, Shape;
    IsShape(t);
    BlankFits(t);
    var b, v := t.b, BlankLine(t, true);
    InsertRemoveShifts(b.lines, b.ybase + b.bottom + 1, b.y + b.ybase, v, AtLeast1(n));
    if b.y <= b.bottom {
      ShiftRefines(t, b.y, b.bottom + 1, AtLeast1(n), v);
    } else {
      ShiftRefines(t, b.bottom + 1, b.y, AtLeast1(n), v);
    }
  }

  /** SU and SD shift exactly the region; with its margins the wrong way round, the lines from one to
      the other move the other way. */
  lemma ScrollUpRefines(t: Term, n: nat)
    requires Valid(t)
    ensures ScrollUp(t, n) == t.(b := t.b.(lines := ScrollUp(t, n).b.lines))
    ensures Shape(ScrollUp(t, n).b, t.rows, t.cols, t.scrollback) && |ViewOf(t.b).screen| == t.rows
    ensures ViewOf(ScrollUp(t, n).b)
         == ViewOf(t.b).(screen :=
             if t.b.top <= t.b.bottom
             then ShiftUp(ViewOf(t.b).screen, t.b.top, t.b.bottom + 1, OrOne(n), BlankLine(t, false))
             else ShiftDown(ViewOf(t.b).screen, t.b.bottom, t.b.top + 1, OrOne(n), BlankLine(t, false)))
  {
    hide ShiftUp, ShiftDown, BlankLine, RemoveInsert, LinesFit, OrOne, ViewOf, Shape;
    IsShape(t);
    BlankFits(t);
    var b, v := t.b, BlankLine(t, false);
    RemoveInsertShifts(b.lines, b.ybase + b.top, b.ybase + b.bottom, v, OrOne(n));
    if b.top <= b.bottom {
      ShiftRefines(t, b.top, b.bottom + 1, OrOne(n), v);
    } else {
      ShiftRefines(t, b.bottom, b.top + 1, OrOne(n), v);
    }
  }

  lemma ScrollDownRefines(t: Term, n: nat)
    requires Valid(t)
    ensures ScrollDown(t, n) == t.(b := t.b.(lines := ScrollDown(t, n).b.lines))
    ensures Shape(ScrollDown(t, n).b, t.rows, t.cols, t.scrollback) && |ViewOf(t.b).screen| == t.rows
    ensures ViewOf(ScrollDown(t, n).b)
         == ViewOf(t.b).(screen :=
             if t.b.top <= t.b.bottom
             then ShiftDown(ViewOf(t.b).screen, t.b.top, t.b.bottom + 1, OrOne(n), BlankLine(t, false))
             else ShiftUp(ViewOf(t.b).screen, t.b.bottom, t.b.top + 1, OrOne(n), BlankLine(t, false)))
  {
    hide ShiftUp, ShiftDown, BlankLine, RemoveInsert, LinesFit, OrOne, ViewOf, Shape;
    IsShape(t);
    BlankFits(t);
    var b, v := t.b, BlankLine(t, false);
    RemoveInsertShifts(b.lines, b.ybase + b.bottom, b.ybase + b.top, v, OrOne(n));
    if b.top <= b.bottom {
      ShiftRefines(t, b.top, b.bottom + 1, OrOne(n), v);
    } else {
      ShiftRefines(t, b.bottom, b.top + 1, OrOne(n), v);
    }
  }

  /** RI in front of the top margin shifts down everything from the cursor to the bottom margin, or, with
      the cursor below that, shifts up the lines between the two. */
  lemma ReverseIndexRefines(t: Term)
    requires Valid(t)
    ensures Shape(ReverseIndex(t).b, t.rows, t.cols, t.scrollback) && |ViewOf(t.b).screen| == t.rows
    ensures t.b.y > t.b.top ==> ReverseIndex(t) == t.(b := t.b.(y := t.b.y - 1))
    ensures t.b.y <= t.b.top ==>
      && ReverseIndex(t) == t.(b := t.b.(lines := ReverseIndex(t).b.lines))
      && ViewOf(ReverseIndex(t).b)
          == ViewOf(t.b).(screen :=
              if t.b.y <= t.b.bottom then ShiftDown(ViewOf(t.b).screen, t.b.y, t.b.bottom + 1, 1, BlankLine(t, true))
              else ShiftUp(ViewOf(t.b).screen, t.b.bottom + 1, t.b.y, 1, BlankLine(t, true)))
  {
    hide ShiftUp, ShiftDown, BlankLine, LinesFit, InsertAt, RemoveAt, ViewOf;
    BlankFits(t);
    var b, v := t.b, BlankLine(t, true);
    if b.y <= b.top {
      InsertRemoveOnce(b.lines, b.y + b.ybase, b.ybase + b.bottom + 1, v);
      if b.y <= b.bottom {
        ShiftRefines(t, b.y, b.bottom + 1, 1, v);
      } else {
        ShiftRefines(t, b.bottom + 1, b.y, 1, v);
      }
    } else {
      ShiftRefines(t, 0, 0, 0, v);
    }
  }

  /** Line feed and IND: the cursor moves down, or the region scrolls under it. */
  lemma IndexRefines(t: Term)
    requires Valid(t)
    ensures Shape(Index(t).b, t.rows, t.cols, t.scrollback) && Index(t) == t.(b := Index(t).b)
    ensures t.b.y < t.b.bottom ==> Index(t) == t.(b := t.b.(y := t.b.y + 1)) && ViewOf(Index(t).b) == ViewOf(t.b)
    ensures t.b.y >= t.b.bottom ==>
      && Index(t) == Scroll(t)
      && ViewOf(Index(t).b) == Scrolled(ViewOf(t.b), t.b.top, t.b.bottom, t.scrollback, BlankLine(t, false))
  {
    hide BlankLine, LinesFit, Scrolled, Scroll;
    if t.b.y >= t.b.bottom { ScrollRefines(t); }
  }

  /* Operations that move cells */

  lemma InsertedCell(line: Line, j: nat, v: Glyph)
    requires j < |line|
    ensures InsertAt(line, j, v)[..|line|] == ShiftDown(line, j, |line|, 1, v)
  {
    assert InsertAt(line, j, v) == line[..j] + [v] + line[j..];
    hide InsertAt;
  }

  lemma ShiftOverBlanks(line: Line, j: nat, k: nat, v: Glyph)
    requires j < |line|
    ensures ShiftDown(ShiftDown(line, j, |line|, 1, v), j + 1, |line|, k, v) == ShiftDown(line, j, |line|, k + 1, v)
  {
  }

  /** ICH: the cells from the cursor on move right, by no more than there are columns left. */
  lemma {:induction false} InsertCellsShifts(line: Line, j: nat, n: nat, cols: int, v: Glyph)
    requires |line| >= cols && j <= |line|
    ensures InsertCells(line, j, n, cols, v)
        == if j >= cols then line else ShiftDown(line, j, |line|, Min(n, cols - j), v)
    decreases n
  {
    hide ShiftDown;
    if n == 0 || j >= cols {
      if j < cols { ShiftDownAgain(line, j, |line|, 0, v); }
    } else {
      InsertedCell(line, j, v);
      var next := ShiftDown(line, j, |line|, 1, v);
      InsertCellsShifts(next, j + 1, n - 1, cols, v);
      ShiftOverBlanks(line, j, Min(n, cols - j) - 1, v);
      ShiftDownAgain(next, j + 1, |line|, 0, v);
    }
  }

  lemma DeletedCell(line: Line, x: nat, v: Glyph)
    ensures x < |line| ==> RemoveAt(line, x) + [v] == ShiftUp(line, x, |line|, 1, v)
    ensures x >= |line| ==> RemoveAt(line, x) + [v] == line + [v]
  {
    if x < |line| { assert RemoveAt(line, x) == line[..x] + line[x + 1..]; }
    hide RemoveAt;
  }

  /** DCH: the cells behind the cursor move left and blanks come in from the end of the line; if
      the cursor is behind the end, the line grows until it reaches the cursor. */
  lemma {:induction false} DeleteCellsShifts(line: Line, x: nat, n: nat, v: Glyph)
    ensures DeleteCells(line, x, n, v)
         == if x < |line| then ShiftUp(line, x, |line|, n, v) else line + TermScreen.Fill(Min(n, x + 1 - |line|), v)
    decreases n
  {
    hide ShiftUp, RemoveAt;
    if n == 0 {
      if x < |line| { ShiftUpAgain(line, x, |line|, 0, v); }
    } else {
      var next := RemoveAt(line, x) + [v];
      DeletedCell(line, x, v);
      DeleteCellsShifts(next, x, n - 1, v);
      if x < |line| {
        ShiftUpAgain(line, x, |line|, n - 1, v);
      } else if x == |line| {
        BlankAtEnd(next, x, n - 1, v);
      }
    }
  }

  lemma BlankAtEnd(line: Line, x: nat, k: nat, v: Glyph)
    requires |line| == x + 1 && line[x] == v
    ensures ShiftUp(line, x, |line|, k, v) == line
  {
  }

  /** ECH blanks the cells from the cursor on, but not behind the last column. */
  lemma {:induction false} EraseCellsBlanks(line: Line, j: nat, n: nat, cols: int, v: Glyph)
    requires |line| >= cols
    ensures EraseCells(line, j, n, cols, v) == ErasedRight(line, j, Min(j + n, cols), v)
    decreases n
  {
    if n == 0 || j >= cols {
    } else {
      EraseCellsBlanks(line[j := v], j + 1, n - 1, cols, v);
    }
  }
}
