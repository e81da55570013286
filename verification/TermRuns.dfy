/** The buffer invariant over every run of operations, what a run does to the history, and the
    alternate screen. */
module TermRuns {
  import opened Numbers
  import opened TermScreen
  import opened TermRefines

  /** Whether the margins of DECSTBM lie on the screen. */
  predicate RegionOk(t: Term, p: nat, q: nat) {
    p <= t.rows && q <= t.rows
  }

  predicate Allowed(t: Term, op: Op) {
    match op
    case Stbm(p, q) => RegionOk(t, p, q)
    case RestoreCursor => t.savedY < t.rows
    case _ => true
  }

  /* Single operations */

  /** Operations on one line of the screen. */
  lemma LineFits(t: Term, y: int, line: Line)
    requires Valid(t) && 0 <= y < t.rows && |line| >= t.cols
    ensures 0 <= t.b.ybase + y < |t.b.lines| && Valid(WithLine(t, y, line))
    ensures ViewOf(WithLine(t, y, line).b) == ViewOf(t.b).(screen := ViewOf(t.b).screen[y := line])
    ensures WithLine(t, y, line) == t.(b := t.b.(lines := WithLine(t, y, line).b.lines))
  {
  }

  lemma Moved(t: Term, x: int, y: int)
    requires Valid(t) && x >= 0 && 0 <= y < t.rows
    ensures Valid(AtColumn(AtRow(t, y), x)) && Valid(AtColumn(t, x)) && Valid(AtRow(t, y))
  {
    hide LinesFit;
  }

  lemma {:induction false} NextStopInside(tabs: set<int>, x: int, cols: int)
    requires x >= 0 && cols >= 1
    ensures 0 <= NextStop(tabs, x, cols) < cols
    decreases if cols > x then cols - x else 0
  {
    if x + 1 !in tabs && x + 1 < cols { NextStopInside(tabs, x + 1, cols); }
  }

  lemma {:induction false} ForwardKeeps(t: Term, n: nat)
    requires Valid(t)
    ensures Valid(Forward(t, n)) && Forward(t, n) == AtColumn(t, Forward(t, n).b.x)
    decreases n
  {
    hide Valid, NextStop;
    if n > 0 {
      ShapeOf(t);
      NextStopInside(t.b.tabs, t.b.x, t.cols);
      Moved(t, NextStop(t.b.tabs, t.b.x, t.cols), t.b.y);
      ForwardKeeps(AtColumn(t, NextStop(t.b.tabs, t.b.x, t.cols)), n - 1);
    }
  }

  lemma {:induction false} BackwardKeeps(t: Term, n: nat)
    requires Valid(t)
    ensures Valid(Backward(t, n)) && Backward(t, n) == AtColumn(t, Backward(t, n).b.x)
    decreases n
  {
    hide Valid, StopBefore;
    if n > 0 {
      ShapeOf(t);
      Moved(t, PrevStop(t.b.tabs, t.b.x, t.cols), t.b.y);
      BackwardKeeps(AtColumn(t, PrevStop(t.b.tabs, t.b.x, t.cols)), n - 1);
    }
  }

  lemma ShapeOf(t: Term)
    requires Valid(t)
    ensures 0 <= t.b.y < t.rows && t.b.x >= 0 && t.cols >= 1 && t.savedX >= 0 && t.savedY >= 0
    ensures |t.b.lines| == t.b.ybase + t.rows && t.b.ybase >= 0
        && |CurLine(t)| >= t.cols && 0 <= t.b.top < t.rows && 0 <= t.b.bottom < t.rows
  {
  }

  lemma SameBuffer(t: Term, b: Buffer)
    requires Valid(t) && Shape(b, t.rows, t.cols, t.scrollback)
    ensures Valid(t.(b := b))
  {
    hide Shape;
  }

  lemma EraseRowsKeeps(t: Term, lo: int, hi: int)
    requires Valid(t)
    ensures Valid(EraseRows(t, lo, hi)) && EraseRows(t, lo, hi) == t.(b := t.b.(lines := EraseRows(t, lo, hi).b.lines))
    ensures lo >= 0 ==> ViewOf(EraseRows(t, lo, hi).b).history == ViewOf(t.b).history
  {
  }

  lemma EraseInLineKeeps(t: Term, n: int)
    requires Valid(t)
    ensures Valid(EraseInLine(t, n)) && EraseInLine(t, n) == t.(b := t.b.(lines := EraseInLine(t, n).b.lines))
    ensures ViewOf(EraseInLine(t, n).b).history == ViewOf(t.b).history
  {
    hide Valid, ErasedRight, ErasedLeft, Shape;
    ShapeOf(t);
    LineFits(t, t.b.y, ErasedRight(CurLine(t), t.b.x, t.cols, Eraser(t)));
    LineFits(t, t.b.y, ErasedLeft(CurLine(t), t.b.x, Eraser(t)));
    LineFits(t, t.b.y, ErasedRight(CurLine(t), 0, t.cols, Eraser(t)));
  }

  lemma EraseInDisplayKeeps(t: Term, n: int)
    requires Valid(t)
    ensures Valid(EraseInDisplay(t, n)) && EraseInDisplay(t, n) == t.(b := t.b.(lines := EraseInDisplay(t, n).b.lines))
    ensures ViewOf(EraseInDisplay(t, n).b).history == ViewOf(t.b).history
  {
    hide Valid, EraseRows, EraseInLine, Shape;
    ShapeOf(t);
    if n == 0 {
      EraseRowsKeeps(t, t.b.y + 1, t.rows);
      EraseInLineKeeps(EraseRows(t, t.b.y + 1, t.rows), 0);
    } else if n == 1 {
      EraseRowsKeeps(t, 0, t.b.y);
      EraseInLineKeeps(EraseRows(t, 0, t.b.y), 1);
    } else if n == 2 {
      EraseRowsKeeps(t, 0, t.rows);
    }
  }

  lemma IndexKeeps(t: Term)
    requires Valid(t)
    ensures Valid(Index(t)) && Index(t).b.x == t.b.x && Index(t) == t.(b := Index(t).b)
  {
    IndexRefines(t);
    hide Shape, Index, Scroll, Scrolled, ViewOf;
    SameBuffer(t, Index(t).b);
    IndexColumn(t);
  }

  lemma IndexColumn(t: Term)
    requires Valid(t)
    ensures Index(t).b.x == t.b.x
  {
    hide BlankLine, InsertAt, RemoveAt, Last, LinesFit;
  }

  lemma PrintKeeps(t: Term, ch: nat)
    requires Valid(t)
    ensures Valid(Wrap(t)) && CanPut(Wrap(t)) && Valid(PutChar(Wrap(t), ch))
    ensures PutChar(Wrap(t), ch).b.ybase == Wrap(t).b.ybase
        && ViewOf(PutChar(Wrap(t), ch).b).history == ViewOf(Wrap(t).b).history
  {
    hide Valid, Shape, Index;
    ShapeOf(t);
    Moved(t, 0, t.b.y);
    IndexKeeps(AtColumn(t, 0));
    PutKeeps(Wrap(t), ch);
  }

  lemma PutKeeps(t: Term, ch: nat)
    requires Valid(t) && t.b.x < t.cols
    ensures CanPut(t) && Valid(PutChar(t, ch)) && PutChar(t, ch).b.ybase == t.b.ybase
    ensures ViewOf(PutChar(t, ch).b).history == ViewOf(t.b).history
    ensures PutChar(t, ch).b.x > t.b.x
  {
    ShapeOf(t);
    hide Valid, Shape, IsWide, ViewOf;
    var x, line, space := t.b.x, CurLine(t), Glyph(t.curAttr, SPACE);
    LineFits(t, t.b.y, line[x := Glyph(t.curAttr, ch)]);
    Moved(WithLine(t, t.b.y, line[x := Glyph(t.curAttr, ch)]), x + 1, t.b.y);
    LineFits(t, t.b.y, line[x := space]);
    Moved(WithLine(t, t.b.y, line[x := space]), x + 1, t.b.y);
    if x + 1 < t.cols {
      var wide := line[x := Glyph(t.curAttr, ch)][x + 1 := space];
      LineFits(t, t.b.y, wide);
      Moved(WithLine(t, t.b.y, wide), x + 2, t.b.y);
    }
    SameView(t, ch);
  }

  lemma SameView(t: Term, ch: nat)
    requires Valid(t) && t.b.x < t.cols && CanPut(t)
    ensures PutChar(t, ch).b.lines[..t.b.ybase] == t.b.lines[..t.b.ybase] && PutChar(t, ch).b.ybase == t.b.ybase
    ensures ViewOf(t.b).history == t.b.lines[..t.b.ybase]
    ensures 0 <= PutChar(t, ch).b.ybase <= |PutChar(t, ch).b.lines|
    ensures ViewOf(PutChar(t, ch).b).history == PutChar(t, ch).b.lines[..PutChar(t, ch).b.ybase]
  {
    hide IsWide;
  }

  /* Resizing */

  lemma {:induction false} GrownSize(lines: seq<Line>, goal: int, blank: Line, n: nat)
    requires |lines| + n == goal
    ensures |Grown(lines, goal, blank, n)| == goal && Grown(lines, goal, blank, n) == lines + TermScreen.Fill(n, blank)
    decreases n
  {
    if n > 0 {
      GrownSize(lines + [blank], goal, blank, n - 1);
      assert TermScreen.Fill(n, blank) == [blank] + TermScreen.Fill(n - 1, blank);
    }
  }

  lemma {:induction false} ShrunkSize(lines: seq<Line>, goal: nat, n: nat)
    requires |lines| == goal + n
    ensures Shrunk(lines, goal, n) == lines[..goal]
    decreases n
  {
    if n > 0 { ShrunkSize(lines[..|lines| - 1], goal, n - 1); }
  }

  lemma ReshapedFits(lines: seq<Line>, cols: int, x: nat)
    requires LinesFit(lines, cols)
    ensures LinesFit(Reshaped(lines, cols, x), x)
  {
    hide Padded;
  }

  /** A new height keeps the top of the screen: rows are added or dropped at its lower end. */
  lemma ResizeRefines(t: Term, x0: int, y0: int)
    requires Valid(t)
    ensures var x, y, b := AtLeast1(x0), AtLeast1(y0), Resize(t, x0, y0).b;
      && b.ybase == t.b.ybase && |b.lines| == b.ybase + y
      && var lines := Reshaped(t.b.lines, t.cols, x);
         b.lines == if t.rows <= y then lines + TermScreen.Fill(y - t.rows, TermScreen.Fill(x, Blank(DEF_ATTR)))
             else lines[..t.b.ybase + y]
    ensures Valid(Resize(t, x0, y0))
  {
    var x, y := AtLeast1(x0), AtLeast1(y0);
    var lines := Reshaped(t.b.lines, t.cols, x);
    ResizeIs(t, x0, y0);
    hide Resize, Reshaped, Shape, LinesFit, SetupStops;
    ShapeParts(t);
    ReshapedFits(t.b.lines, t.cols, x);
    var v := TermScreen.Fill(x, Blank(DEF_ATTR));
    if t.rows < y {
      GrownSize(lines, y + t.b.ybase, v, y - t.rows);
      AddedFits(lines, v, y - t.rows, x);
    } else if t.rows > y {
      ShrunkSize(lines, y + t.b.ybase, t.rows - y);
      CutFits(lines, t.b.ybase + y, x);
    } else {
      assert lines + TermScreen.Fill(0, v) == lines;
    }
    ResizedShape(t, Resize(t, x0, y0), x, y);
  }

  lemma AddedFits(lines: seq<Line>, v: Line, n: nat, x: int)
    requires LinesFit(lines, x) && |v| >= x
    ensures LinesFit(lines + TermScreen.Fill(n, v), x)
  {
  }

  lemma CutFits(lines: seq<Line>, n: nat, x: int)
    requires LinesFit(lines, x) && n <= |lines|
    ensures LinesFit(lines[..n], x)
  {
  }

  lemma ShapeParts(t: Term)
    requires Valid(t)
    ensures |t.b.lines| == t.b.ybase + t.rows
        && 0 <= t.b.ydisp <= t.b.ybase < t.scrollback && 0 <= t.b.y < t.rows && 0 <= t.b.x
    ensures 0 <= t.b.top < t.rows && 0 <= t.b.bottom < t.rows && t.cols >= 1 && LinesFit(t.b.lines, t.cols)
    ensures t.scrollback >= 2 && t.savedX >= 0 && t.savedY >= 0
  {
    hide LinesFit;
  }

  lemma ResizeIs(t: Term, x0: int, y0: int)
    requires Valid(t)
    ensures var x, y, b := AtLeast1(x0), AtLeast1(y0), t.b;
      var lines := Reshaped(b.lines, t.cols, x);
      var r := Resize(t, x0, y0);
      && r.rows == y && r.cols == x && r.normal == NoScreen
      && r.scrollback == t.scrollback && r.savedX == t.savedX && r.savedY == t.savedY
      && r.b == b.(lines := r.b.lines, tabs := r.b.tabs, top := 0, bottom := y - 1,
                   y := if b.y >= y then y - 1 else b.y, x := if b.x >= x then x - 1 else b.x)
      && r.b.lines == if t.rows < y then Grown(lines, y + b.ybase, TermScreen.Fill(x, Blank(DEF_ATTR)), y - t.rows)
                      else if t.rows > y then Shrunk(lines, y + b.ybase, t.rows - y) else lines
  {
    hide Reshaped, Grown, Shrunk, SetupStops, LinesFit;
  }

  lemma ResizedShape(t: Term, r: Term, x: int, y: int)
    requires t.scrollback >= 2 && 0 <= t.b.ydisp <= t.b.ybase < t.scrollback
        && 0 <= t.b.y && 0 <= t.b.x && x >= 1 && y >= 1
    requires t.savedX >= 0 && t.savedY >= 0
    requires r.rows == y && r.cols == x && r.normal == NoScreen
        && r.scrollback == t.scrollback && r.savedX == t.savedX && r.savedY == t.savedY
    requires r.b == t.b.(lines := r.b.lines, tabs := r.b.tabs, top := 0, bottom := y - 1,
                   y := if t.b.y >= y then y - 1 else t.b.y, x := if t.b.x >= x then x - 1 else t.b.x)
    requires |r.b.lines| == t.b.ybase + y && LinesFit(r.b.lines, x)
    ensures Valid(r)
  {
    hide LinesFit;
  }

  lemma {:induction false} StopsBelow(tabs: set<int>, i: int, cols: int)
    ensures forall s :: s in EveryEighth(tabs, i, cols) ==> s in tabs || s < cols
    ensures tabs <= EveryEighth(tabs, i, cols)
    decreases if cols > i then cols - i else 0
  {
    if i < cols { StopsBelow(tabs + {i}, i + 8, cols); }
  }

  /** A resize changes no tab stop from the old right edge on: widening sets none in the new columns,
      and keeps exactly those that a wider screen has left there. */
  lemma NoStopsInNewColumns(t: Term, x0: int, y0: int, s: int)
    requires Valid(t) && s >= t.cols
    ensures s in Resize(t, x0, y0).b.tabs <==> s in t.b.tabs
  {
    ResizeTabs(t, x0, y0);
    StopsBelow(t.b.tabs, if t.cols !in t.b.tabs then PrevStop(t.b.tabs, t.cols, t.cols) else t.cols, t.cols);
    assert SetupStops(t.b.tabs, t.cols, t.cols)
        == EveryEighth(t.b.tabs, if t.cols !in t.b.tabs then PrevStop(t.b.tabs, t.cols, t.cols) else t.cols, t.cols);
    hide Resize, SetupStops, EveryEighth;
  }

  /** So after widening, a tab from the old last column or beyond goes to the new last column exactly
      if no old stop lies between. */
  lemma TabAfterWidening(t: Term, x0: int, y0: int)
    requires Valid(t)
    ensures Valid(Resize(t, x0, y0))
    ensures var r := Resize(t, x0, y0);
            r.cols > t.cols && r.b.x >= t.cols - 1 ==>
              (Step(r, Tab).b.x == r.cols - 1 <==> forall s :: s in t.b.tabs ==> !(r.b.x < s < r.cols - 1))
  {
    ResizeRefines(t, x0, y0);
    var r := Resize(t, x0, y0);
    ShapeParts(r);
    if r.cols > t.cols && r.b.x >= t.cols - 1 {
      forall s | r.b.x < s ensures s in r.b.tabs <==> s in t.b.tabs {
        NoStopsInNewColumns(t, x0, y0, s);
      }
      TabGoes(r);
      hide Resize, Step, Valid, NextStop;
      GoesToLast(r.b.tabs, r.b.x, r.cols);
    }
  }

  lemma TabGoes(t: Term)
    requires Valid(t)
    ensures Step(t, Tab).b.x == NextStop(t.b.tabs, t.b.x, t.cols)
  {
    hide Valid, NextStop;
  }

  lemma {:induction false} GoesToLast(tabs: set<int>, x: int, cols: int)
    requires cols >= 1 && x >= -1
    ensures NextStop(tabs, x, cols) == cols - 1 <==> forall s :: s in tabs ==> !(x < s < cols - 1)
    decreases if cols > x then cols - x else 0
  {
    if x + 1 !in tabs && x + 1 < cols {
      GoesToLast(tabs, x + 1, cols);
    } else if x + 1 in tabs && x + 1 < cols - 1 {
      assert NextStop(tabs, x, cols) == x + 1;
    }
  }

  /** A screen of 80 columns made one of 132: a tab from column 79 finds no stop at 80, 88 and so on. */
  lemma TabPastColumn80(t: Term)
    requires Valid(t) && t.cols == 80 && t.b.tabs == EveryEighth({}, 0, 80) && t.b.x == 79
    ensures Valid(Resize(t, 132, t.rows)) && Step(Resize(t, 132, t.rows), Tab).b.x == 131
  {
    TabAfterWidening(t, 132, t.rows);
    StopsBelow({}, 0, 80);
    ResizeIs(t, 132, t.rows);
    hide Resize, Step, EveryEighth;
  }

  lemma ResizeTabs(t: Term, x0: int, y0: int)
    ensures Resize(t, x0, y0).b.tabs == SetupStops(t.b.tabs, t.cols, t.cols)
  {
    hide Reshaped, Grown, Shrunk, SetupStops, TermScreen.Fill;
  }

  /* Other operations */

  lemma FreshShape(rows: int, cols: int, scrollback: int)
    requires rows >= 1 && cols >= 1 && scrollback >= 2
    ensures Shape(FreshBuffer(rows, cols), rows, cols, scrollback)
  {
    hide EveryEighth;
  }

  lemma ScreensKeep(t: Term)
    requires Valid(t)
    ensures Valid(Reset(t)) && Valid(EnterAlternate(t)) && Valid(LeaveAlternate(t))
  {
    hide Shape, FreshBuffer;
    ShapeParts(t);
    FreshShape(t.rows, t.cols, t.scrollback);
  }

  lemma CellsKeep(t: Term, line: Line)
    requires Valid(t) && |line| >= t.cols
    ensures Valid(OnLine(t, line)) && ViewOf(OnLine(t, line).b).history == ViewOf(t.b).history
    ensures OnLine(t, line).b.ybase == t.b.ybase
  {
    hide LinesFit;
    ShapeOf(t);
    LineFits(t, t.b.y, line);
  }

  lemma DeletedFits(line: Line, x: nat, n: nat, v: Glyph)
    ensures |DeleteCells(line, x, n, v)| >= |line|
  {
    DeleteCellsShifts(line, x, n, v);
  }

  /* Every operation */

  /** Operations that move the cursor, the tab stops, the view or the attribute only. */
  predicate LeavesLines(op: Op) {
    op.BeginWrite? || op.Return? || op.Backspace? || op.Tab? || op.SaveCursor?
        || op.RestoreCursor? || op.TabSet? || op.Cuu? || op.Cud?
    || op.Cuf? || op.Cub? || op.Cnl? || op.Cpl? || op.Cha? || op.Hpa?
    || op.Vpa? || op.Cup? || op.Hvp? || op.Cht? || op.Cbt? || op.Tbc?
    || op.Stbm? || op.Sgr? || op.ScrollDisp?
  }

  predicate Scrolling(op: Op) {
    op.Print? || op.LineFeed? || op.Ind? || op.Nel?
  }

  predicate ShiftsLines(op: Op) {
    op.Ri? || op.Il? || op.Dl? || op.Su? || op.Sd?
  }

  predicate OverwritesCells(op: Op) {
    op.Ed? || op.El? || op.Ich? || op.Dch? || op.Ech?
  }

  predicate ChangesScreen(op: Op) {
    op.FullReset? || op.EnterAlt? || op.LeaveAlt? || op.ResizeTo?
  }

  /** Operations that set the cursor and nothing else. */
  predicate MovesCursor(op: Op) {
    op.Return? || op.Backspace? || op.Tab? || op.RestoreCursor?
        || op.Cuu? || op.Cud? || op.Cuf? || op.Cub? || op.Cnl? || op.Cpl?
    || op.Cha? || op.Hpa? || op.Vpa? || op.Cup? || op.Hvp? || op.Cht? || op.Cbt?
  }

  lemma MoveIs(t: Term, op: Op)
    requires Valid(t) && MovesCursor(op)
    ensures Step(t, op) == AtColumn(AtRow(t, Step(t, op).b.y), Step(t, op).b.x)
  {
    if op.Cht? || op.Cbt? {
      hide Valid;
      TabIs(t, op);
    } else {
      hide Valid, NextStop, Forward, Backward;
    }
  }

  lemma TabIs(t: Term, op: Op)
    requires Valid(t) && (op.Cht? || op.Cbt?)
    ensures Step(t, op) == AtColumn(AtRow(t, Step(t, op).b.y), Step(t, op).b.x)
  {
    hide Valid, Forward, Backward;
    if op.Cht? { ForwardKeeps(t, OrOne(op.n)); } else { BackwardKeeps(t, OrOne(op.n)); }
  }

  lemma MoveStays(t: Term, op: Op)
    requires Valid(t) && MovesCursor(op)
    ensures Step(t, op).b.x >= 0
    ensures 0 <= Step(t, op).b.y < t.rows <==> Allowed(t, op)
  {
    ShapeParts(t);
    hide Valid, NextStop, Forward, Backward, LinesFit;
    if op.Tab? || op.Cht? || op.Cbt? { TabStays(t, op); }
  }

  lemma TabStays(t: Term, op: Op)
    requires Valid(t) && (op.Tab? || op.Cht? || op.Cbt?)
    ensures Step(t, op).b.x >= 0 && Step(t, op).b.y == t.b.y && 0 <= t.b.y < t.rows && Allowed(t, op)
  {
    hide Valid, NextStop, Forward, Backward, LinesFit;
    ShapeParts(t);
    if op.Tab? { NextStopInside(t.b.tabs, t.b.x, t.cols); }
    if op.Cht? { ForwardKeeps(t, OrOne(op.n)); ShapeParts(Forward(t, OrOne(op.n))); }
    if op.Cbt? { BackwardKeeps(t, OrOne(op.n)); ShapeParts(Backward(t, OrOne(op.n))); }
  }

  lemma MovedExactly(t: Term, x: int, y: int)
    requires Valid(t) && x >= 0
    ensures Valid(AtColumn(AtRow(t, y), x)) <==> 0 <= y < t.rows
  {
    hide LinesFit;
  }

  lemma CursorStep(t: Term, op: Op)
    requires Valid(t) && LeavesLines(op)
    ensures Valid(Step(t, op)) <==> Allowed(t, op)
    ensures Step(t, op).b.lines == t.b.lines && Step(t, op).b.ybase == t.b.ybase && Step(t, op).normal == t.normal
  {
    if MovesCursor(op) {
      hide Valid, Step, Allowed;
      MoveIs(t, op);
      MoveStays(t, op);
      MovedExactly(t, Step(t, op).b.x, Step(t, op).b.y);
    } else {
      ShapeParts(t);
      hide LinesFit, NextStop, Forward, Backward;
    }
  }

  lemma ScrollingStep(t: Term, op: Op)
    requires Valid(t) && Scrolling(op)
    ensures Valid(Step(t, op)) && Step(t, op).normal == t.normal
  {
    ShapeOf(t);
    hide Valid, Shape, Index, PutChar;
    match op {
      case Print(ch) => PrintKeeps(t, ch); PutFrame(Wrap(t), ch); WrapFrame(t);
      case LineFeed => Moved(t, 0, t.b.y); IndexKeeps(AtColumn(t, 0)); IndexKeeps(t);
      case Ind => IndexKeeps(t);
      case Nel => Moved(t, 0, t.b.y); IndexKeeps(AtColumn(t, 0));
    }
  }

  lemma PutFrame(t: Term, ch: nat)
    requires CanPut(t)
    ensures PutChar(t, ch).normal == t.normal
  {
    hide IsWide;
  }

  lemma WrapFrame(t: Term)
    requires Valid(t)
    ensures Wrap(t).normal == t.normal
  {
    hide Valid, Index;
    ShapeOf(t);
    Moved(t, 0, t.b.y);
    IndexKeeps(AtColumn(t, 0));
  }

  lemma StepsLines(t: Term, op: Op)
    requires Valid(t) && ShiftsLines(op)
    ensures op.Ri? ==> Step(t, op) == ReverseIndex(t)
    ensures op.Il? ==> Step(t, op) == InsertLines(t, op.n)
    ensures op.Dl? ==> Step(t, op) == DeleteLines(t, op.n)
    ensures op.Su? ==> Step(t, op) == ScrollUp(t, op.n)
    ensures op.Sd? ==> Step(t, op) == ScrollDown(t, op.n)
  {
    ShapeOf(t);
    hide Valid, ReverseIndex, InsertLines, DeleteLines, ScrollUp, ScrollDown;
  }

  lemma ShiftingStep(t: Term, op: Op)
    requires Valid(t) && ShiftsLines(op)
    ensures Valid(Step(t, op)) && Step(t, op).normal == t.normal
    ensures Step(t, op).b.ybase == t.b.ybase && ViewOf(Step(t, op).b).history == ViewOf(t.b).history
  {
    StepsLines(t, op);
    ShapeOf(t);
    hide Valid, Shape, ReverseIndex, InsertLines, DeleteLines,
        ScrollUp, ScrollDown, ShiftUp, ShiftDown, BlankLine, Step;
    match op {
      case Ri => ReverseIndexRefines(t); SameBuffer(t, ReverseIndex(t).b);
      case Il(n) => InsertLinesRefines(t, n); SameBuffer(t, InsertLines(t, n).b);
      case Dl(n) => DeleteLinesRefines(t, n); SameBuffer(t, DeleteLines(t, n).b);
      case Su(n) => ScrollUpRefines(t, n); SameBuffer(t, ScrollUp(t, n).b);
      case Sd(n) => ScrollDownRefines(t, n); SameBuffer(t, ScrollDown(t, n).b);
    }
  }

  lemma StepsCells(t: Term, op: Op)
    requires Valid(t) && OverwritesCells(op)
    ensures op.Ed? ==> Step(t, op) == EraseInDisplay(t, op.n)
    ensures op.El? ==> Step(t, op) == EraseInLine(t, op.n)
    ensures op.Ich? ==> Step(t, op) == OnLine(t, InsertCells(CurLine(t), t.b.x, AtLeast1(op.n), t.cols, Eraser(t)))
    ensures op.Dch? ==> Step(t, op) == OnLine(t, DeleteCells(CurLine(t), t.b.x, AtLeast1(op.n), Eraser(t)))
    ensures op.Ech? ==> Step(t, op) == OnLine(t, EraseCells(CurLine(t), t.b.x, AtLeast1(op.n), t.cols, Eraser(t)))
  {
    ShapeOf(t);
    hide Valid, EraseInDisplay, EraseInLine, InsertCells, DeleteCells, EraseCells, OnLine, CurLine, Eraser;
  }

  lemma CellsStep(t: Term, op: Op)
    requires Valid(t) && OverwritesCells(op)
    ensures Valid(Step(t, op)) && Step(t, op).normal == t.normal
    ensures Step(t, op).b.ybase == t.b.ybase && ViewOf(Step(t, op).b).history == ViewOf(t.b).history
  {
    StepsCells(t, op);
    ShapeOf(t);
    hide Valid, Shape, EraseInDisplay, EraseInLine, InsertCells,
        DeleteCells, EraseCells, ViewOf, Step, OnLine, CurLine, Eraser;
    match op {
      case Ed(n) => EraseInDisplayKeeps(t, n);
      case El(n) => EraseInLineKeeps(t, n);
      case Ich(n) => CellsKeep(t, InsertCells(CurLine(t), t.b.x, AtLeast1(n), t.cols, Eraser(t)));
      case Dch(n) => DeletedFits(CurLine(t), t.b.x, AtLeast1(n), Eraser(t));
                     CellsKeep(t, DeleteCells(CurLine(t), t.b.x, AtLeast1(n), Eraser(t)));
      case Ech(n) => CellsKeep(t, EraseCells(CurLine(t), t.b.x, AtLeast1(n), t.cols, Eraser(t)));
    }
  }

  lemma ScreenStep(t: Term, op: Op)
    requires Valid(t) && ChangesScreen(op)
    ensures Valid(Step(t, op))
  {
    hide Valid, Reset, EnterAlternate, LeaveAlternate, Resize;
    ScreensKeep(t);
    if op.ResizeTo? { ResizeRefines(t, op.x, op.y); }
  }

  /** An operation keeps the invariant exactly if it is not a scroll region that reaches below the screen
      and not a return to a cursor saved on a taller screen. */
  lemma KeptExactly(t: Term, op: Op)
    requires Valid(t)
    ensures Valid(Step(t, op)) <==> Allowed(t, op)
  {
    hide Valid, Step, Allowed;
    AllowedElse(t, op);
    if LeavesLines(op) {
      CursorStep(t, op);
    } else if Scrolling(op) {
      ScrollingStep(t, op);
    } else if ShiftsLines(op) {
      ShiftingStep(t, op);
    } else if OverwritesCells(op) {
      CellsStep(t, op);
    } else {
      ScreenStep(t, op);
    }
  }

  lemma AllowedElse(t: Term, op: Op)
    ensures !LeavesLines(op) ==> Allowed(t, op)
  {
  }

  /* Runs */

  /** No operation of the run is one that breaks the invariant. */
  ghost predicate Lawful(t: Term, ops: seq<Op>)
    requires Valid(t)
    decreases |ops|
  {
    ops == [] || (KeptExactly(t, ops[0]); Allowed(t, ops[0]) && Lawful(Step(t, ops[0]), ops[1..]))
  }

  /** The terminal after a run: every state on the way satisfies the invariant. */
  ghost function Run(t: Term, ops: seq<Op>): (r: Term)
    requires Valid(t) && Lawful(t, ops)
    ensures Valid(r)
    decreases |ops|
  {
    if ops == [] then t
    else KeptExactly(t, ops[0]); Run(Step(t, ops[0]), ops[1..])
  }

  lemma RunStep(t: Term, ops: seq<Op>)
    requires Valid(t) && Lawful(t, ops) && ops != []
    ensures Valid(Step(t, ops[0])) && Lawful(Step(t, ops[0]), ops[1..]) && Run(t, ops) == Run(Step(t, ops[0]), ops[1..])
  {
    hide Valid, Step, Allowed;
    KeptExactly(t, ops[0]);
  }

  lemma RunEnd(t: Term)
    requires Valid(t)
    ensures Lawful(t, []) && Run(t, []) == t
  {
  }

  /** A new terminal. */
  lemma NewIsValid(rows: int, cols: int, scrollback: int, convertEol: bool)
    requires rows >= 1 && cols >= 1 && scrollback >= 2
    ensures Valid(Term(FreshBuffer(rows, cols), rows, cols, scrollback, convertEol, DEF_ATTR, 0, 0, NoScreen))
  {
    hide FreshBuffer;
    FreshShape(rows, cols, scrollback);
  }

  /* Runs that break it */

  /** The lines, the view and the cursor are where they belong; nothing is said of the margins. */
  predicate Intact(t: Term) {
    && |t.b.lines| == t.b.ybase + t.rows && 0 <= t.b.ydisp <= t.b.ybase < t.scrollback
    && 0 <= t.b.y < t.rows && 0 <= t.b.x && LinesFit(t.b.lines, t.cols)
  }

  /** Operations that the code carries out one after the other, whether the invariant holds or not; none
      sets a region or a cursor off the screen. */
  ghost predicate Possible(t: Term, ops: seq<Op>)
    decreases |ops|
  {
    ops != [] ==>
      && (Valid(t) || (OnlySplices(ops[0]) && Splicing(t))) && Allowed(t, ops[0])
      && Possible(Step(t, ops[0]), ops[1..])
  }

  ghost function Play(t: Term, ops: seq<Op>): Term
    requires Possible(t, ops)
    decreases |ops|
  {
    if ops == [] then t else Play(Step(t, ops[0]), ops[1..])
  }

  /** Whatever follows leaves the buffer intact. */
  ghost predicate Lasts(t: Term) {
    forall ops :: Possible(t, ops) ==> Intact(Play(t, ops))
  }

  lemma ValidIntact(t: Term)
    requires Valid(t)
    ensures Intact(t)
  {
    hide LinesFit;
  }

  lemma {:induction false} ValidPlays(t: Term, ops: seq<Op>)
    requires Valid(t) && Possible(t, ops)
    ensures Lawful(t, ops) && Play(t, ops) == Run(t, ops) && Intact(Play(t, ops))
    decreases |ops|
  {
    ValidIntact(t);
    hide Valid, Step, Intact, Allowed;
    if ops != [] {
      KeptExactly(t, ops[0]);
      ValidPlays(Step(t, ops[0]), ops[1..]);
    }
  }

  lemma ValidLasts(t: Term)
    requires Valid(t)
    ensures Lasts(t)
  {
    hide Valid, Possible, Play, Intact;
    forall ops | Possible(t, ops) ensures Intact(Play(t, ops)) {
      ValidPlays(t, ops);
    }
  }

  lemma PlayOne(t: Term, op: Op)
    requires (Valid(t) || (OnlySplices(op) && Splicing(t))) && Allowed(t, op)
    ensures Possible(t, [op]) && Play(t, [op]) == Step(t, op)
  {
    hide Step, Allowed, Valid;
    assert [op][1..] == [];
    assert Possible(Step(t, op), []);
  }

  lemma OneMoreLine(s: seq<Line>, i: nat, j: nat, v: Line)
    ensures i >= |s| ==> |RemoveInsert(s, i, j, v, 1)| == |s| + 1
  {
    if i >= |s| { assert RemoveInsert(s, i, j, v, 1) == RemoveInsert(InsertAt(s, j, v), i, j, v, 0); }
  }

  /** With a margin below the screen, SU or SD removes no line for the one it inserts. */
  lemma RegionBreaks(t: Term, op: Op)
    requires Splicing(t) && |t.b.lines| == t.b.ybase + t.rows
    requires (op == Su(1) && t.b.top >= t.rows) || (op == Sd(1) && t.b.bottom >= t.rows)
    ensures !Intact(Step(t, op))
  {
    var v := BlankLine(t, false);
    if op == Su(1) {
      OneMoreLine(t.b.lines, t.b.ybase + t.b.top, t.b.ybase + t.b.bottom, v);
    } else {
      OneMoreLine(t.b.lines, t.b.ybase + t.b.bottom, t.b.ybase + t.b.top, v);
    }
    hide RemoveInsert, LinesFit, BlankLine, Valid;
  }

  lemma SplicesStill(t: Term, p: nat, q: nat)
    requires Valid(t)
    ensures var u := Step(t, Stbm(p, q));
      && Splicing(u) && |u.b.lines| == u.b.ybase + u.rows && Allowed(u, Su(1)) && Allowed(u, Sd(1))
      && (Allowed(t, Stbm(p, q)) <==> u.b.top < u.rows && u.b.bottom < u.rows)
  {
    hide LinesFit;
  }

  lemma LastsThrough(t: Term, op: Op)
    requires Possible(t, [op]) && !Intact(Play(t, [op]))
    ensures !Lasts(t)
  {
    hide Possible, Play, Intact;
  }

  lemma LastsNow(t: Term)
    requires !Intact(t)
    ensures !Lasts(t)
  {
    assert Possible(t, []) && Play(t, []) == t;
    hide Intact;
  }

  /** A region is harmless, whatever follows, exactly if both its margins lie on the screen; their order
      does not matter. */
  lemma RegionExactly(t: Term, p: nat, q: nat)
    requires Valid(t)
    ensures Lasts(Step(t, Stbm(p, q))) <==> p <= t.rows && q <= t.rows
  {
    RegionIs(t, p, q);
    SplicesStill(t, p, q);
    KeptExactly(t, Stbm(p, q));
    var u := Step(t, Stbm(p, q));
    hide Valid, Step, Intact, Lasts, Possible, Play, Splicing, Allowed;
    if p <= t.rows && q <= t.rows {
      ValidLasts(u);
    } else {
      var op := if u.b.top >= u.rows then Su(1) else Sd(1);
      RegionBreaks(u, op);
      PlayOne(u, op);
      LastsThrough(u, op);
    }
  }

  lemma RestoredRow(t: Term)
    requires Valid(t)
    ensures Step(t, RestoreCursor).b.y == t.savedY >= 0 && Step(t, RestoreCursor).rows == t.rows
    ensures Allowed(t, RestoreCursor) <==> t.savedY < t.rows
  {
    hide LinesFit;
  }

  /** An operation leaves a buffer that stays intact, whatever follows, exactly if it is not a scroll
      region that reaches below the screen and not a return to a cursor saved on a taller one. */
  lemma AllowedExactly(t: Term, op: Op)
    requires Valid(t)
    ensures Lasts(Step(t, op)) <==> Allowed(t, op)
  {
    hide Valid, Step, Lasts;
    KeptExactly(t, op);
    AllowedElse(t, op);
    if Allowed(t, op) {
      ValidLasts(Step(t, op));
    } else if op.Stbm? {
      RegionIs(t, op.p, op.q);
      RegionExactly(t, op.p, op.q);
    } else {
      RestoredRow(t);
      LastsNow(Step(t, op));
    }
  }

  /** A new terminal. */
  function NewTerm(rows: int, cols: int): Term {
    Term(FreshBuffer(rows, cols), rows, cols, 1000, false, DEF_ATTR, 0, 0, NoScreen)
  }

  lemma NewTermIs(t: Term, rows: int, cols: int)
    requires t == NewTerm(rows, cols) && rows >= 1 && cols >= 1
    ensures Valid(t) && t.rows == rows && t.cols == cols && !t.convertEol
  {
    hide Valid, FreshBuffer;
    NewIsValid(rows, cols, 1000, false);
  }

  lemma RegionIs(t: Term, p: nat, q: nat)
    ensures Allowed(t, Stbm(p, q)) <==> p <= t.rows && q <= t.rows
  {
  }

  function Feeds(n: nat): seq<Op> {
    if n == 0 then [] else [LineFeed] + Feeds(n - 1)
  }

  lemma FeedOnce(t: Term)
    requires Splicing(t) && !t.convertEol && t.b.y < t.b.bottom
    ensures Allowed(t, LineFeed) && Step(t, LineFeed) == AtRow(t, t.b.y + 1) && Splicing(AtRow(t, t.b.y + 1))
  {
    hide Valid;
  }

  /** In front of the bottom margin line feeds move the cursor down, on the screen or not. */
  lemma {:induction false} FeedsDown(t: Term, n: nat)
    requires Splicing(t) && !t.convertEol && t.b.y + n <= t.b.bottom
    ensures Possible(t, Feeds(n)) && Play(t, Feeds(n)) == AtRow(t, t.b.y + n)
    decreases n
  {
    hide Step, Allowed, Valid, Splicing;
    if n > 0 {
      assert Feeds(n)[0] == LineFeed && Feeds(n)[1..] == Feeds(n - 1);
      FeedOnce(t);
      FeedsDown(AtRow(t, t.b.y + 1), n - 1);
      assert Possible(Step(t, LineFeed), Feeds(n)[1..]);
    }
  }

  /** CSI 1;100 r on a new terminal of 24 rows: as many line feeds take the cursor off the screen. */
  lemma RegionOffTheScreen(t: Term, rows: int, cols: int)
    requires rows == 24 && cols >= 1 && t == NewTerm(rows, cols)
    ensures Valid(t) && Possible(Step(t, Stbm(1, 100)), Feeds(24))
    ensures Play(Step(t, Stbm(1, 100)), Feeds(24)).b.y == 24 == t.rows
    ensures !Lasts(Step(t, Stbm(1, 100)))
  {
    NewTermIs(t, rows, cols);
    SplicesStill(t, 1, 100);
    var u := Step(t, Stbm(1, 100));
    assert u.b.y == 0 && u.b.bottom == 99 && !u.convertEol;
    var n := 24;
    hide *;
    FeedsDown(u, n);
    RegionExactly(t, 1, 100);
  }

  lemma SavedRow(t: Term, n: nat, y: int)
    requires Valid(t) && 1 <= n <= t.rows
    ensures Allowed(t, Vpa(n)) && Allowed(t, SaveCursor) && Allowed(t, ResizeTo(t.cols, y))
    ensures Step(t, Vpa(n)).b.y == n - 1 && Step(t, Vpa(n)).rows == t.rows && Step(t, Vpa(n)).cols == t.cols
    ensures Step(t, SaveCursor).savedY == t.b.y
        && Step(t, SaveCursor).rows == t.rows && Step(t, SaveCursor).cols == t.cols
    ensures Step(t, ResizeTo(t.cols, y)) == Resize(t, t.cols, y)
    ensures Allowed(t, RestoreCursor) <==> t.savedY < t.rows
  {
    hide Valid, Resize;
  }

  /** On a new terminal of 24 rows the cursor is saved in the last one, the screen becomes one of 10
      rows, and the cursor is restored. */
  lemma CursorBelowTheScreen(t: Term, rows: int, cols: int)
    requires rows == 24 && cols >= 1 && t == NewTerm(rows, cols)
    ensures Valid(t) && Lawful(t, [Vpa(24), SaveCursor, ResizeTo(cols, 10)])
    ensures var u := Step(Run(t, [Vpa(24), SaveCursor, ResizeTo(cols, 10)]), RestoreCursor);
            u.b.y == 23 && u.rows == 10 && !Lasts(u)
  {
    hide *;
    NewTermIs(t, rows, cols);
    SavedRow(t, 24, 10);
    KeptExactly(t, Vpa(24));
    var t1 := Step(t, Vpa(24));
    SavedRow(t1, 24, 10);
    KeptExactly(t1, SaveCursor);
    var t2 := Step(t1, SaveCursor);
    SavedRow(t2, 24, 10);
    KeptExactly(t2, ResizeTo(cols, 10));
    var t3 := Resize(t2, cols, 10);
    ResizeIs(t2, cols, 10);
    TenRows(10);
    ThreeSteps(t, [Vpa(24), SaveCursor, ResizeTo(cols, 10)]);
    SavedRow(t3, 1, 10);
    RestoredRow(t3);
    AllowedExactly(t3, RestoreCursor);
  }

  lemma TenRows(n: int)
    requires n >= 1
    ensures AtLeast1(n) == n
  {
  }

  lemma ThreeSteps(t: Term, ops: seq<Op>)
    requires |ops| == 3 && Valid(t) && Allowed(t, ops[0])
    requires var t1 := Step(t, ops[0]); Valid(t1) && Allowed(t1, ops[1])
    requires var t2 := Step(Step(t, ops[0]), ops[1]); Valid(t2) && Allowed(t2, ops[2])
    ensures Lawful(t, ops) && Run(t, ops) == Step(Step(Step(t, ops[0]), ops[1]), ops[2])
  {
    hide Valid, Step, Allowed;
    var t1 := Step(t, ops[0]);
    var t2 := Step(t1, ops[1]);
    var o1, o2, o3 := ops[1..], ops[2..], ops[3..];
    assert o1[1..] == o2 && o2[1..] == o3 && o3 == [];
    KeptExactly(t2, ops[2]);
    RunEnd(Step(t2, ops[2]));
    assert Lawful(t2, o2) && Run(t2, o2) == Step(t2, ops[2]);
    assert Lawful(t1, o1) && Run(t1, o1) == Run(t2, o2);
  }

  /* The history */

  /** Whether an operation scrolls the screen. */
  predicate Scrolls(t: Term, op: Op) {
    t.b.y + 1 > t.b.bottom && (op.LineFeed? || op.Ind? || op.Nel? || (op.Print? && t.b.x >= t.cols))
  }

  /** The line that an operation hands over to the history. */
  function Handed(t: Term, op: Op): seq<Line>
    requires Valid(t)
  {
    if Scrolls(t, op) && t.b.top == 0 then [t.b.lines[t.b.ybase]] else []
  }

  lemma IndexHistory(t: Term)
    requires Valid(t)
    ensures ViewOf(Index(t).b).history ==
      if t.b.y + 1 <= t.b.bottom then ViewOf(t.b).history
      else Trimmed(ViewOf(t.b).history, t.scrollback) + if t.b.top == 0 then [t.b.lines[t.b.ybase]] else []
  {
    IndexRefines(t);
    hide Index, Scroll, Trimmed, ShiftUp, BlankLine, LinesFit;
    assert ViewOf(t.b).screen[0] == t.b.lines[t.b.ybase];
  }

  lemma ColumnFrame(t: Term, x: int)
    requires Valid(t) && x >= 0
    ensures Valid(AtColumn(t, x)) && ViewOf(AtColumn(t, x).b) == ViewOf(t.b) && AtColumn(t, x).b.ybase == t.b.ybase
  {
    hide LinesFit;
  }

  lemma StepsScrolling(t: Term, op: Op)
    requires Valid(t) && Scrolling(op)
    ensures op.Print? ==> Step(t, op) == if CanPut(Wrap(t)) then PutChar(Wrap(t), op.ch) else Wrap(t)
    ensures Valid(AtColumn(t, 0))
    ensures op.LineFeed? ==> Step(t, op) == Index(if t.convertEol then AtColumn(t, 0) else t)
    ensures op.Ind? ==> Step(t, op) == Index(t)
    ensures op.Nel? ==> Step(t, op) == Index(AtColumn(t, 0))
    ensures AtColumn(t, 0).b.lines == t.b.lines && AtColumn(t, 0).b.y == t.b.y && AtColumn(t, 0).b.top == t.b.top
    ensures AtColumn(t, 0).b.bottom == t.b.bottom
        && AtColumn(t, 0).b.ybase == t.b.ybase && AtColumn(t, 0).scrollback == t.scrollback
  {
    ColumnFrame(t, 0);
    hide Valid, Index, PutChar, Wrap, CanPut;
  }

  lemma ScrollingHistory(t: Term, op: Op)
    requires Valid(t) && Scrolling(op) && Valid(Step(t, op))
    ensures var h := ViewOf(t.b).history;
            |h| < t.scrollback && t.scrollback >= 2 &&
            ViewOf(Step(t, op).b).history == (if Scrolls(t, op) then Trimmed(h, t.scrollback) else h) + Handed(t, op)
  {
    ShapeParts(t);
    StepsScrolling(t, op);
    hide Valid, Shape, Index, PutChar, Trimmed, LinesFit, ViewOf, Step, Wrap, CanPut, AtColumn;
    if op.Print? {
      PrintKeeps(t, op.ch);
      WrapHistory(t);
    } else {
      ColumnFrame(t, 0);
      IndexHistory(t);
      IndexHistory(AtColumn(t, 0));
    }
  }

  lemma WrapHistory(t: Term)
    requires Valid(t)
    ensures Valid(Wrap(t)) && |ViewOf(t.b).history| < t.scrollback && t.scrollback >= 2
    ensures ViewOf(Wrap(t).b).history ==
      if t.b.x >= t.cols && t.b.y + 1 > t.b.bottom
      then Trimmed(ViewOf(t.b).history, t.scrollback) + (if t.b.top == 0 then [t.b.lines[t.b.ybase]] else [])
          else ViewOf(t.b).history
  {
    ShapeParts(t);
    hide Valid, Shape, Index, Trimmed, LinesFit;
    ColumnFrame(t, 0);
    IndexKeeps(AtColumn(t, 0));
    IndexHistory(AtColumn(t, 0));
  }

  /** What an operation does to the history: nothing, unless it scrolls. */
  lemma HistoryStep(t: Term, op: Op)
    requires Valid(t) && !ChangesScreen(op) && Allowed(t, op)
    ensures Valid(Step(t, op)) && |ViewOf(t.b).history| < t.scrollback && t.scrollback >= 2
    ensures ViewOf(Step(t, op).b).history
         == (if Scrolls(t, op) then Trimmed(ViewOf(t.b).history, t.scrollback) else ViewOf(t.b).history) + Handed(t, op)
  {
    ShapeParts(t);
    hide Valid, Step, Trimmed, Allowed, Shape, LinesFit;
    KeptExactly(t, op);
    if Scrolling(op) {
      ScrollingHistory(t, op);
    } else {
      NotScrolling(t, op);
      if LeavesLines(op) {
        CursorStep(t, op);
      } else if ShiftsLines(op) {
        ShiftingStep(t, op);
      } else {
        CellsStep(t, op);
      }
    }
  }

  lemma NotScrolling(t: Term, op: Op)
    requires Valid(t) && !Scrolling(op)
    ensures !Scrolls(t, op) && Handed(t, op) == []
  {
  }

  predicate SameScreen(ops: seq<Op>) {
    forall i :: 0 <= i < |ops| ==> !ChangesScreen(ops[i])
  }

  /** All lines a run hands over, in order. */
  ghost function AllHanded(t: Term, ops: seq<Op>): seq<Line>
    requires Valid(t) && Lawful(t, ops)
    decreases |ops|
  {
    if ops == [] then [] else KeptExactly(t, ops[0]); Handed(t, ops[0]) + AllHanded(Step(t, ops[0]), ops[1..])
  }

  lemma HandedStep(t: Term, ops: seq<Op>)
    requires Valid(t) && Lawful(t, ops)
    ensures ops == [] ==> AllHanded(t, ops) == []
    ensures ops != [] ==>
      && Valid(Step(t, ops[0])) && Lawful(Step(t, ops[0]), ops[1..])
      && AllHanded(t, ops) == Handed(t, ops[0]) + AllHanded(Step(t, ops[0]), ops[1..])
  {
    hide Valid, Step, Handed;
    if ops != [] { RunStep(t, ops); }
  }

  /** How many lines a trim drops. */
  function TrimSize(scrollback: int): int {
    scrollback - scrollback / 2
  }

  lemma ScrollbackKept(t: Term, op: Op)
    requires Valid(t) && !ChangesScreen(op)
    ensures Step(t, op).scrollback == t.scrollback
  {
    hide Valid, NextStop;
    if op.Cht? || op.Cbt? {
      TabIs(t, op);
    } else if Scrolling(op) {
      ScrollingScrollback(t, op);
    } else {
      hide InsertRemove, RemoveInsert, InsertCells, DeleteCells, EraseCells, ErasedLeft, ErasedRight, Forward, Backward;
      ShapeOf(t);
    }
  }

  lemma ScrollingScrollback(t: Term, op: Op)
    requires Valid(t) && Scrolling(op)
    ensures Step(t, op).scrollback == t.scrollback
  {
    hide Valid, IsWide, InsertAt, RemoveAt, Last, BlankLine;
    ShapeOf(t);
    ColumnFrame(t, 0);
  }

  /** What a cut of c lines and then one of d come to. */
  lemma CutsAddUp(scrollback: int, h: nat, handed: nat, rest: nat, c: nat, d: nat)
    requires scrollback >= 2 && (c == 0 || (c == TrimSize(scrollback) && h == scrollback - 1))
    requires c <= h && d <= h - c + handed + rest && d % TrimSize(scrollback) == 0
    requires d > 0 ==> h - c + handed + rest >= scrollback - 1 && h - c + handed + rest - d >= scrollback / 2 - 1
    ensures (c + d) % TrimSize(scrollback) == 0
    ensures c + d > 0 ==>
      h + handed + rest >= scrollback - 1 && h + handed + rest - (c + d) >= scrollback / 2 - 1
  {
    var n := TrimSize(scrollback);
    if c == n {
      assert d == n * (d / n);
      assert c + d == n * (d / n + 1);
      MultipleOf(n, d / n + 1);
    }
  }

  lemma MultipleOf(n: int, k: nat)
    requires n > 0
    ensures (n * k) % n == 0
  {
    DivModUnique(n * k, n, k, 0);
  }

  /** After any run on one screen the history is the youngest part of what it was with the lines
      handed over behind it: nothing is lost in the middle, changed or reordered. Lines are only dropped
      once the scrollback was full, always in halves of it, and the younger half survives. */
  lemma {:induction false} HistoryIsYoungest(t: Term, ops: seq<Op>) returns (dropped: nat)
    requires Valid(t) && Lawful(t, ops) && SameScreen(ops)
    ensures t.scrollback >= 2 && dropped <= |HistoryOf(t) + AllHanded(t, ops)|
    ensures HistoryOf(Run(t, ops)) == (HistoryOf(t) + AllHanded(t, ops))[dropped..]
    ensures dropped % TrimSize(t.scrollback) == 0
    ensures dropped > 0 ==> |HistoryOf(t) + AllHanded(t, ops)| >= t.scrollback - 1
    ensures dropped > 0 ==> |HistoryOf(Run(t, ops))| >= t.scrollback / 2 - 1
    ensures |HistoryOf(Run(t, ops))| < t.scrollback
    decreases |ops|
  {
    hide *;
    HandedStep(t, ops);
    HistoryFits(t);
    if ops == [] {
      RunEnd(t);
      dropped := 0;
      NothingDropped(HistoryOf(t));
      MultipleOf(TrimSize(t.scrollback), 0);
    } else {
      var t1 := Step(t, ops[0]);
      RunStep(t, ops);
      SameScreenStep(ops);
      LawfulFirst(t, ops);
      ScrollbackKept(t, ops[0]);
      var c := HistoryCut(t, ops[0]);
      var d := HistoryIsYoungest(t1, ops[1..]);
      var h, handed, rest := HistoryOf(t), Handed(t, ops[0]), AllHanded(t1, ops[1..]);
      Suffixes(h, handed, rest, c, d);
      CutsAddUp(t.scrollback, |h|, |handed|, |rest|, c, d);
      dropped := c + d;
    }
  }

  lemma HistoryFits(t: Term)
    requires Valid(t)
    ensures |HistoryOf(t)| < t.scrollback && TrimSize(t.scrollback) > 0 && t.scrollback >= 2
  {
    hide LinesFit;
  }

  function HistoryOf(t: Term): seq<Line>
    requires Valid(t)
  {
    ViewOf(t.b).history
  }

  lemma NothingDropped(h: seq<Line>)
    ensures (h + [])[0..] == h
  {
  }

  /** An operation drops c lines at the old end of the history and adds what it hands over. */
  lemma HistoryCut(t: Term, op: Op) returns (c: nat)
    requires Valid(t) && !ChangesScreen(op) && Allowed(t, op)
    ensures Valid(Step(t, op)) && c <= |HistoryOf(t)| && HistoryOf(Step(t, op)) == HistoryOf(t)[c..] + Handed(t, op)
    ensures c == 0 || (c == TrimSize(t.scrollback) && |HistoryOf(t)| == t.scrollback - 1)
  {
    HistoryStep(t, op);
    hide Valid, Step, Allowed, Handed, Trimmed, Scrolls, ViewOf;
    var cut := TrimmedIs(HistoryOf(t), t.scrollback);
    c := if Scrolls(t, op) then cut else 0;
    assert HistoryOf(t)[0..] == HistoryOf(t);
  }

  lemma SameScreenStep(ops: seq<Op>)
    requires SameScreen(ops) && ops != []
    ensures !ChangesScreen(ops[0]) && SameScreen(ops[1..])
  {
  }

  lemma LawfulFirst(t: Term, ops: seq<Op>)
    requires Valid(t) && Lawful(t, ops) && ops != []
    ensures Allowed(t, ops[0])
  {
    hide Valid, Step, Allowed;
  }

  lemma TrimmedIs(h: seq<Line>, scrollback: int) returns (cut: nat)
    requires |h| < scrollback && scrollback >= 2
    ensures cut <= |h| && Trimmed(h, scrollback) == h[cut..]
    ensures cut > 0 ==> |h| == scrollback - 1 && cut == TrimSize(scrollback)
  {
    cut := if |h| + 1 == scrollback then |h| - (scrollback / 2 - 1) else 0;
  }

  lemma Suffixes(h: seq<Line>, handed: seq<Line>, rest: seq<Line>, c: nat, d: nat)
    requires c <= |h| && d <= |(h[c..] + handed) + rest|
    ensures c + d <= |h + (handed + rest)| && ((h[c..] + handed) + rest)[d..] == (h + (handed + rest))[c + d..]
    ensures c == 0 ==> h[c..] == h
  {
    assert h[c..] + (handed + rest) == (h + (handed + rest))[c..];
    assert (h[c..] + handed) + rest == h[c..] + (handed + rest);
  }

  /* The alternate screen */

  predicate KeepsSaved(op: Op) {
    !ChangesScreen(op) || op.EnterAlt?
  }

  lemma NormalStep(t: Term, op: Op)
    requires Valid(t) && KeepsSaved(op) && t.normal.Screen?
    ensures Step(t, op).normal == t.normal
  {
    hide Valid, Step;
    if op.EnterAlt? {
      AlreadyThere(t);
    } else if LeavesLines(op) {
      CursorStep(t, op);
    } else if Scrolling(op) {
      ScrollingStep(t, op);
    } else if ShiftsLines(op) {
      ShiftingStep(t, op);
    } else {
      CellsStep(t, op);
    }
  }

  lemma AlreadyThere(t: Term)
    requires Valid(t) && t.normal.Screen?
    ensures Step(t, EnterAlt) == t
  {
  }

  lemma {:induction false} SavedKept(t: Term, ops: seq<Op>)
    requires Valid(t) && Lawful(t, ops) && t.normal.Screen? && forall i :: 0 <= i < |ops| ==> KeepsSaved(ops[i])
    ensures Run(t, ops).normal == t.normal
    decreases |ops|
  {
    hide Valid, Step, Run, Lawful, KeepsSaved;
    if ops == [] {
      RunEnd(t);
    } else {
      RunStep(t, ops);
      NormalStep(t, ops[0]);
      SavedKept(Step(t, ops[0]), ops[1..]);
    }
  }

  /** Whatever is done on the alternate screen, short of resizing or a reset, leaving it brings
      back the buffer as it was: lines, history, cursor, margins and tab stops. */
  lemma AlternateRoundTrip(t: Term, ops: seq<Op>)
    requires Valid(t) && t.normal == NoScreen
    requires Valid(Step(t, EnterAlt)) && Lawful(Step(t, EnterAlt), ops)
        && forall i :: 0 <= i < |ops| ==> KeepsSaved(ops[i])
    ensures Step(Run(Step(t, EnterAlt), ops), LeaveAlt).b == t.b
    ensures ViewOf(Step(t, EnterAlt).b) == View([], TermScreen.Fill(t.rows, TermScreen.Fill(t.cols, Blank(DEF_ATTR))))
  {
    var t1 := Step(t, EnterAlt);
    EntersAlt(t);
    hide Step, Run, Lawful, KeepsSaved, Valid;
    SavedKept(t1, ops);
    LeavesAlt(Run(t1, ops));
  }

  lemma EntersAlt(t: Term)
    requires Valid(t) && t.normal == NoScreen
    ensures Step(t, EnterAlt).normal == Screen(t.b) && Step(t, EnterAlt).b == FreshBuffer(t.rows, t.cols)
    ensures ViewOf(FreshBuffer(t.rows, t.cols))
        == View([], TermScreen.Fill(t.rows, TermScreen.Fill(t.cols, Blank(DEF_ATTR))))
  {
    hide EveryEighth, LinesFit;
  }

  lemma LeavesAlt(t: Term)
    requires Valid(t) && t.normal.Screen?
    ensures Step(t, LeaveAlt).b == t.normal.b
  {
    hide LinesFit;
  }

  /* Exactness at a scrollback of one line */

  /** With a scrollback of one line, scrolling keeps the shape exactly if the region starts at the
      top of a screen of more than one row. */
  lemma ScrollbackOfOne(t: Term)
    requires t.scrollback == 1 && Shape(t.b, t.rows, t.cols, t.scrollback)
    ensures Shape(Scroll(t).b, t.rows, t.cols, t.scrollback) <==> t.b.top == 0 && t.rows >= 2
  {
    var v := BlankLine(t, false);
    hide BlankLine;
    var lines := Last(t.b.lines, t.rows - 1);
    if t.rows >= 2 {
      assert LinesFit(lines, t.cols) && |lines| == t.rows - 1;
      assert InsertAt(lines, t.b.bottom, v) == if t.b.bottom >= |lines|
          then lines + [v] else lines[..t.b.bottom] + [v] + lines[t.b.bottom..];
    }
  }

  /** CSI 2;24 r and a line feed in the last row, on a new terminal of 24 rows that keeps one line: a line
      of the screen is missing afterwards. */
  lemma ScrollbackOfOneBreaks(t: Term, cols: int)
    requires cols >= 1 && t == NewTerm(24, cols).(scrollback := 1)
    ensures Shape(t.b, 24, cols, 1)
    ensures var u := AtRow(SetRegion(t, 2, 24), 23);
            && Splicing(u) && Shape(u.b, 24, cols, 1)
            && |Index(u).b.lines| == 23 && Index(u).b.ybase == 0 && Index(u).rows == 24
  {
    FreshShape(24, cols, 1000);
    hide FreshBuffer, LinesFit;
    FreshStart(24, cols);
    hide BlankLine, Valid;
  }

  lemma FreshStart(rows: int, cols: int)
    ensures var b := FreshBuffer(rows, cols);
            b.ybase == 0 && b.ydisp == 0 && b.y == 0 && b.x == 0 && b.top == 0 && b.bottom == rows - 1
  {
  }

  /** The shape at a scrollback of one line, with a region that starts at the top. */
  predicate ShapeOfOne(t: Term) {
    t.scrollback == 1 && Shape(t.b, t.rows, t.cols, 1) && t.b.top == 0 && t.rows >= 2
  }

  lemma OneIsIntact(t: Term)
    requires ShapeOfOne(t)
    ensures Splicing(t) && Intact(t) && !Valid(t)
  {
    hide LinesFit;
  }

  /** Operations that do not scroll do not look at the scrollback. */
  lemma OneShifts(t: Term, op: Op)
    requires ShapeOfOne(t) && ShiftsLines(op)
    ensures ShapeOfOne(Step(t, op))
  {
    var u := t.(scrollback := 2, savedX := 0, savedY := 0, normal := NoScreen);
    assert Valid(u) by { hide LinesFit; }
    ShiftsAlike(t, u, op);
    hide Step, LinesFit, ShiftsLines;
    ShiftingStep(u, op);
  }

  lemma ShiftsAlike(t: Term, u: Term, op: Op)
    requires ShiftsLines(op) && Splicing(t) && Valid(u) && u.b == t.b && u.rows == t.rows && u.cols == t.cols
    requires u.curAttr == t.curAttr
    ensures var t1, u1 := Step(t, op), Step(u, op);
            && t1.b == u1.b && t1 == t.(b := t1.b) && u1 == u.(b := u1.b)
            && t1.b == t.b.(lines := t1.b.lines, y := t1.b.y)
  {
    hide Valid, InsertRemove, RemoveInsert, InsertAt, RemoveAt, Fill;
  }

  lemma OneScrolls(t: Term, op: Op)
    requires ShapeOfOne(t) && (op.LineFeed? || op.Ind? || op.Nel?)
    ensures ShapeOfOne(Step(t, op))
  {
    var u := AtColumn(t, 0);
    assert ShapeOfOne(u) by { hide LinesFit; }
    OneIndexes(t);
    OneIndexes(u);
    hide Index, ShapeOfOne, Valid, LinesFit;
  }

  lemma OneIndexes(t: Term)
    requires ShapeOfOne(t)
    ensures Splicing(t) && ShapeOfOne(Index(t))
  {
    OneIsIntact(t);
    ScrollbackOfOne(t);
    hide LinesFit, BlankLine, InsertAt, RemoveAt, Last, Valid;
  }

  lemma {:induction false} OnePlays(t: Term, ops: seq<Op>)
    requires ShapeOfOne(t) && Possible(t, ops)
    ensures Intact(Play(t, ops))
    decreases |ops|
  {
    hide Step, ShapeOfOne, Intact, Splicing, Valid, Allowed;
    OneIsIntact(t);
    if ops != [] {
      if ShiftsLines(ops[0]) { OneShifts(t, ops[0]); } else { OneScrolls(t, ops[0]); }
      OnePlays(Step(t, ops[0]), ops[1..]);
    }
  }

  lemma IndLasts(t: Term, u: Term)
    requires Splicing(t) && u == Step(t, Ind) && !Lasts(u)
    ensures !Lasts(t)
  {
    hide Step, Splicing, Intact, Valid;
    var ops :| Possible(u, ops) && !Intact(Play(u, ops));
    var more := [Ind] + ops;
    assert more[1..] == ops;
    assert Possible(t, more) && Play(t, more) == Play(u, ops);
  }

  /** Line feeds down to the bottom margin, and one more. */
  lemma {:induction false} OneBreaks(t: Term)
    requires t.scrollback == 1 && Shape(t.b, t.rows, t.cols, 1) && (t.b.top != 0 || t.rows < 2)
    ensures !Lasts(t)
    decreases t.b.bottom - t.b.y
  {
    assert Splicing(t) by { hide LinesFit; }
    if t.b.y < t.b.bottom {
      var u := AtRow(t, t.b.y + 1);
      assert u == Step(t, Ind) by { hide LinesFit; }
      assert Shape(u.b, u.rows, u.cols, 1) by { hide LinesFit; }
      hide *;
      OneBreaks(u);
      IndLasts(t, u);
    } else {
      OneOverflows(t);
      hide *;
      PlayOne(t, Ind);
      LastsThrough(t, Ind);
    }
  }

  lemma OneOverflows(t: Term)
    requires t.scrollback == 1 && Shape(t.b, t.rows, t.cols, 1) && (t.b.top != 0 || t.rows < 2)
    requires t.b.y >= t.b.bottom
    ensures Splicing(t) && OnlySplices(Ind) && Allowed(t, Ind) && !Intact(Step(t, Ind))
  {
    hide BlankLine, LinesFit;
  }

  /** A terminal that keeps one line stays intact, whatever lines are fed and spliced, exactly if its region
      starts at the top of a screen of more than one row. */
  lemma ScrollbackOfOneLasts(t: Term)
    requires t.scrollback == 1 && Shape(t.b, t.rows, t.cols, t.scrollback)
    ensures Lasts(t) <==> t.b.top == 0 && t.rows >= 2
  {
    hide Possible, Play, Intact, Shape;
    if t.b.top == 0 && t.rows >= 2 {
      assert ShapeOfOne(t);
      hide ShapeOfOne;
      forall ops | Possible(t, ops) ensures Intact(Play(t, ops)) {
        OnePlays(t, ops);
      }
    } else {
      OneBreaks(t);
    }
  }
}
