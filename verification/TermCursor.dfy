/** Where the cursor goes, what is put aside of it, where tabs stop, and what a reset leaves. */
module TermCursor {
  import opened Numbers
  import opened TermScreen
  import opened TermRefines
  import opened TermRuns

  /* Addressing */

  /** The place of 1 to n that is nearest to v. */
  function Nearest(v: int, n: int): int {
    if v < 1 then 1 else if v > n then n else v
  }

  /** The cursor at another place, counted from 1. */
  function At(t: Term, row: int, col: int): Term {
    t.(b := t.b.(y := row - 1, x := col - 1))
  }

  /** Addresses count from 1 and are drawn to the nearest place on the screen, but for CHA, which may lead
      behind the last column. */
  lemma Addressed(t: Term, op: Op)
    requires Valid(t)
    ensures op.Cup? ==> Step(t, op) == At(t, Nearest(op.row, t.rows), Nearest(op.col, t.cols))
    ensures op.Hvp? ==> Step(t, op) == At(t, Nearest(op.row, t.rows), Nearest(op.col, t.cols))
    ensures op.Vpa? ==> Step(t, op) == At(t, Nearest(op.n, t.rows), t.b.x + 1)
    ensures op.Hpa? ==> Step(t, op) == At(t, t.b.y + 1, Nearest(op.n, t.cols))
    ensures op.Cha? ==> Step(t, op) == At(t, t.b.y + 1, if op.n == 0 then 1 else op.n)
    ensures op.Return? ==> Step(t, op) == At(t, t.b.y + 1, 1)
    ensures op.Backspace? ==> Step(t, op) == At(t, t.b.y + 1, if t.b.x == 0 then 1 else t.b.x)
  {
    ShapeOf(t);
    hide Valid, NextStop, Forward, Backward, LinesFit;
  }

  /** Relative moves end at the edge; a distance of 0 is one of 1. */
  lemma Moves(t: Term, op: Op, n: nat, d: nat)
    requires Valid(t) && d == if n == 0 then 1 else n
    ensures op == Cuu(n) ==> Step(t, op) == At(t, Nearest(t.b.y + 1 - d, t.rows), t.b.x + 1)
    ensures op == Cud(n) ==> Step(t, op) == At(t, Nearest(t.b.y + 1 + d, t.rows), t.b.x + 1)
    ensures op == Cpl(n) ==> Step(t, op) == At(t, Nearest(t.b.y + 1 - d, t.rows), 1)
    ensures op == Cnl(n) ==> Step(t, op) == At(t, Nearest(t.b.y + 1 + d, t.rows), 1)
    ensures op == Cuf(n) ==> Step(t, op) == At(t, t.b.y + 1, Nearest(t.b.x + 1 + d, t.cols))
    ensures op == Cub(n) ==> Step(t, op) == At(t, t.b.y + 1, if d > t.b.x then 1 else t.b.x + 1 - d)
  {
    hide *;
    ShapeOf(t);
    StepMoves(t, n);
    UpDown(t, n, d);
    LeftRight(t, n, d);
  }

  lemma StepMoves(t: Term, n: nat)
    requires Valid(t)
    ensures Step(t, Cuu(n)) == Up(t, n) && Step(t, Cud(n)) == Down(t, n)
    ensures Step(t, Cpl(n)) == AtColumn(Up(t, n), 0) && Step(t, Cnl(n)) == AtColumn(Down(t, n), 0)
    ensures Step(t, Cuf(n)) == Right(t, n) && Step(t, Cub(n)) == Left(t, n)
  {
    hide Valid, Up, Down, Right, Left, AtColumn;
  }

  lemma UpDown(t: Term, n: nat, d: nat)
    requires 0 <= t.b.y < t.rows && d == if n == 0 then 1 else n
    ensures Up(t, n) == At(t, Nearest(t.b.y + 1 - d, t.rows), t.b.x + 1)
    ensures Down(t, n) == At(t, Nearest(t.b.y + 1 + d, t.rows), t.b.x + 1)
    ensures AtColumn(Up(t, n), 0) == At(t, Nearest(t.b.y + 1 - d, t.rows), 1)
    ensures AtColumn(Down(t, n), 0) == At(t, Nearest(t.b.y + 1 + d, t.rows), 1)
  {
  }

  lemma LeftRight(t: Term, n: nat, d: nat)
    requires 0 <= t.b.x && t.cols >= 1 && d == if n == 0 then 1 else n
    ensures Right(t, n) == At(t, t.b.y + 1, Nearest(t.b.x + 1 + d, t.cols))
    ensures Left(t, n) == At(t, t.b.y + 1, if d > t.b.x then 1 else t.b.x + 1 - d)
  {
  }

  /* The saved cursor */

  lemma SavesCursor(t: Term)
    requires Valid(t)
    ensures Valid(Step(t, SaveCursor)) && Step(t, SaveCursor).savedX == t.b.x && Step(t, SaveCursor).savedY == t.b.y
    ensures Step(t, RestoreCursor) == t.(b := t.b.(x := t.savedX, y := t.savedY))
  {
    ShapeOf(t);
    hide LinesFit;
  }

  /** No other operation touches it. */
  lemma SavedStays(t: Term, op: Op)
    requires Valid(t) && !op.SaveCursor?
    ensures Step(t, op).savedX == t.savedX && Step(t, op).savedY == t.savedY
  {
    if MovesCursor(op) {
      MoveIs(t, op);
      hide Step, Valid, MovesCursor;
    } else if Scrolling(op) {
      ScrollingSaved(t, op);
    } else {
      ShapeOf(t);
      hide Valid, InsertRemove, RemoveInsert, InsertCells, DeleteCells, EraseCells, ErasedLeft, ErasedRight,
          Forward, Backward, NextStop, FreshBuffer, Grown, Shrunk, Reshaped, SetupStops;
    }
  }

  lemma ScrollingSaved(t: Term, op: Op)
    requires Valid(t) && Scrolling(op)
    ensures Step(t, op).savedX == t.savedX && Step(t, op).savedY == t.savedY
  {
    hide Valid, IsWide, InsertAt, RemoveAt, Last, BlankLine;
    ShapeOf(t);
    ColumnFrame(t, 0);
  }

  /** Whatever is done in between, short of saving another place, the cursor comes back to where it was
      saved; also on a screen that has other rows and columns by then. */
  lemma {:induction false} SavedRuns(t: Term, ops: seq<Op>)
    requires Valid(t) && Lawful(t, ops) && forall i :: 0 <= i < |ops| ==> !ops[i].SaveCursor?
    ensures Run(t, ops).savedX == t.savedX && Run(t, ops).savedY == t.savedY
    decreases |ops|
  {
    hide Valid, Step, Run, Lawful;
    if ops == [] {
      RunEnd(t);
    } else {
      RunStep(t, ops);
      SavedStays(t, ops[0]);
      SavedRuns(Step(t, ops[0]), ops[1..]);
    }
  }

  lemma CursorRoundTrip(t: Term, ops: seq<Op>)
    requires Valid(t) && Valid(Step(t, SaveCursor)) && Lawful(Step(t, SaveCursor), ops)
    requires forall i :: 0 <= i < |ops| ==> !ops[i].SaveCursor?
    ensures var u := Step(Run(Step(t, SaveCursor), ops), RestoreCursor); u.b.x == t.b.x && u.b.y == t.b.y
  {
    hide *;
    SavesCursor(t);
    SavedRuns(Step(t, SaveCursor), ops);
    SavesCursor(Run(Step(t, SaveCursor), ops));
  }

  /* Tab stops */

  /** A tab goes to the first stop behind the cursor, or to the last column. */
  lemma {:induction false} NextStopIs(tabs: set<int>, x: int, cols: int)
    requires cols >= 1 && x >= 0
    ensures var r := NextStop(tabs, x, cols);
            && (r == cols - 1 || (r in tabs && x < r < cols - 1))
            && forall s :: s in tabs ==> !(x < s < r)
    decreases if cols > x then cols - x else 0
  {
    if x + 1 !in tabs && x + 1 < cols { NextStopIs(tabs, x + 1, cols); }
  }

  /** A back tab goes to the last stop in front of it, or to the first column. */
  lemma {:induction false} StopBeforeIs(tabs: set<int>, x: int)
    requires x >= 1
    ensures var r := StopBefore(tabs, x);
            && 0 <= r < x && (r == 0 || r in tabs)
            && forall s :: s in tabs ==> !(r < s < x)
    decreases x
  {
    if x - 1 !in tabs && x - 1 > 0 { StopBeforeIs(tabs, x - 1); }
  }

  lemma PrevStopIs(tabs: set<int>, x: int, cols: int)
    requires cols >= 1 && x >= 0
    ensures x == 0 ==> PrevStop(tabs, x, cols) == 0
    ensures x >= 1 ==> PrevStop(tabs, x, cols) == Min(StopBefore(tabs, x), cols - 1)
  {
    if x >= 1 { StopBeforeIs(tabs, x); }
  }

  lemma TabsGo(t: Term)
    requires Valid(t)
    ensures Step(t, Tab) == At(t, t.b.y + 1, NextStop(t.b.tabs, t.b.x, t.cols) + 1)
    ensures Step(t, Cht(0)) == Step(t, Cht(1)) == Step(t, Tab)
    ensures Step(t, Cbt(0)) == Step(t, Cbt(1)) == At(t, t.b.y + 1, PrevStop(t.b.tabs, t.b.x, t.cols) + 1)
  {
    hide Valid, NextStop, PrevStop;
  }

  /** Stops are set at the cursor, and cleared there or everywhere. */
  lemma StopsChange(t: Term, n: nat)
    requires Valid(t)
    ensures Step(t, TabSet) == t.(b := t.b.(tabs := t.b.tabs + {t.b.x}))
    ensures Step(t, Tbc(n)) == t.(b := t.b.(tabs := Step(t, Tbc(n)).b.tabs))
    ensures forall s :: s in Step(t, Tbc(n)).b.tabs <==> s in t.b.tabs && n != 3 && (n == 0 ==> s != t.b.x)
  {
    hide Valid;
  }

  /** A region is given by its first and last row, from 1; the screen's own are meant by none. */
  lemma SetsRegion(t: Term, p: nat, q: nat)
    requires Valid(t)
    ensures var first, last := if p == 0 then 1 else p, if q == 0 then t.rows else q;
            Step(t, Stbm(p, q)) == At(t, 1, 1).(b := At(t, 1, 1).b.(top := first - 1, bottom := last - 1))
  {
    hide Valid;
  }

  /** Scrolling back moves the view, within the history; a write brings it back to the screen. */
  lemma ViewMoves(t: Term, d: int)
    requires Valid(t)
    ensures Step(t, ScrollDisp(d)) == t.(b := t.b.(ydisp := Nearest(t.b.ydisp + d + 1, t.b.ybase + 1) - 1))
    ensures Step(t, BeginWrite) == t.(b := t.b.(ydisp := t.b.ybase))
  {
    ShapeParts(t);
    hide Valid, LinesFit;
  }

  /* Resetting */

  lemma {:induction false} EveryEighthIs(tabs: set<int>, i: nat, cols: int, s: int)
    ensures s in EveryEighth(tabs, i, cols) <==> s in tabs || (i <= s < cols && (s - i) % 8 == 0)
    decreases if cols > i then cols - i else 0
  {
    if i < cols {
      EveryEighthIs(tabs + {i}, i + 8, cols, s);
      assert (s - i) % 8 == (s - (i + 8)) % 8;
      if i < s < i + 8 { assert (s - i) % 8 == s - i; }
    }
  }

  /** A reset leaves rows of blank cells without a history, the cursor in the first of them, the whole
      screen as the region, a stop at every eighth column, and the plain attribute. */
  lemma ResetLeaves(t: Term)
    requires Valid(t)
    ensures var u := Step(t, FullReset);
            && Valid(u) && u.rows == t.rows && u.cols == t.cols && u.normal == NoScreen && u.curAttr == 257 * 512 + 256
            && |u.b.lines| == t.rows && u.b.ybase == u.b.ydisp == 0 && u.b.x == u.b.y == 0
            && u.b.top == 0 && u.b.bottom == t.rows - 1
            && (forall i :: 0 <= i < t.rows ==> |u.b.lines[i]| == t.cols)
            && (forall i, j :: 0 <= i < t.rows && 0 <= j < t.cols ==> u.b.lines[i][j] == Glyph(257 * 512 + 256, 32))
            && (forall s :: s in u.b.tabs <==> 0 <= s < t.cols && s % 8 == 0)
  {
    ScreensKeep(t);
    ShapeOf(t);
    forall s ensures s in EveryEighth({}, 0, t.cols) <==> 0 <= s < t.cols && s % 8 == 0 {
      EveryEighthIs({}, 0, t.cols, s);
    }
    hide Valid, EveryEighth;
  }
}
