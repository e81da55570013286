/** What the operations that insert, delete and shift do to the screen, cell by cell and line by line. */
module TermEdits {
  import opened Numbers
  import opened TermScreen
  import opened TermRefines
  import opened TermRuns
  import opened TermErase

  /** A new line is blank: in the current background, or plain. */
  lemma BlankIs(t: Term, cur: bool)
    requires t.cols >= 1
    ensures |BlankLine(t, cur)| == t.cols
    ensures forall c :: 0 <= c < t.cols ==>
      BlankLine(t, cur)[c] == if cur then Erased(t) else Glyph(257 * 512 + 256, 32)
  {
  }

  /** Only the cursor's line differs. */
  predicate SameRows(t: Term, u: Term) {
    && SameElse(t, u)
    && forall i :: 0 <= i < |t.b.lines| && i != t.b.ybase + t.b.y ==> u.b.lines[i] == t.b.lines[i]
  }

  lemma OnLineIs(t: Term, line: Line)
    requires Valid(t)
    ensures SameRows(t, OnLine(t, line)) && RowOf(OnLine(t, line), t.b.y) == line && CurLine(t) == RowOf(t, t.b.y)
    ensures |CurLine(t)| >= t.cols && t.b.x >= 0 && Eraser(t) == Erased(t)
  {
  }

  /** The counts of IL, DL, ICH, DCH, ECH, SU and SD: none means one. */
  lemma CountIs(n: nat, d: nat)
    requires d == if n == 0 then 1 else n
    ensures AtLeast1(n) == d && OrOne(n) == d
  {
  }

  lemma StepIch(t: Term, n: nat)
    requires Valid(t)
    ensures Step(t, Ich(n)) == OnLine(t, InsertCells(CurLine(t), t.b.x, AtLeast1(n), t.cols, Eraser(t)))
    ensures Step(t, Dch(n)) == OnLine(t, DeleteCells(CurLine(t), t.b.x, AtLeast1(n), Eraser(t)))
    ensures Step(t, Ech(n)) == OnLine(t, EraseCells(CurLine(t), t.b.x, AtLeast1(n), t.cols, Eraser(t)))
  {
    StepsCells(t, Ich(n));
    StepsCells(t, Dch(n));
    StepsCells(t, Ech(n));
    hide Step, Valid, OnLine, InsertCells, DeleteCells, EraseCells, CurLine, Eraser, AtLeast1;
  }

  /** ICH n opens a gap of n erased cells at the cursor; what it pushes behind the last column is lost. */
  lemma Inserts(t: Term, n: nat, d: nat, c: int)
    requires Valid(t) && d == (if n == 0 then 1 else n) && 0 <= c < t.cols
    ensures var u, x := Step(t, Ich(n)), t.b.x;
            && SameRows(t, u) && |RowOf(u, t.b.y)| == |RowOf(t, t.b.y)| >= t.cols && x >= 0
            && RowOf(u, t.b.y)[c]
               == if c < x then RowOf(t, t.b.y)[c] else if c < x + d then Erased(t) else RowOf(t, t.b.y)[c - d]
  {
    hide *;
    ShapeOf(t);
    StepIch(t, n);
    CountIs(n, d);
    OnLineIs(t, CurLine(t));
    var line, x, v := CurLine(t), t.b.x, Eraser(t);
    OnLineIs(t, InsertCells(line, x, d, t.cols, v));
    if x < t.cols { InsertCellsShifts(line, x, d, t.cols, v); InsertedAt(line, x, d, t.cols, v, c); }
    else { NoneInserted(line, x, d, t.cols, v); }
  }

  lemma InsertedAt(line: Line, x: nat, d: nat, cols: int, v: Glyph, c: int)
    requires x < cols <= |line| && 0 <= c < cols && d >= 1
    ensures var l := ShiftDown(line, x, |line|, Min(d, cols - x), v);
            |l| == |line| && l[c] == if c < x then line[c] else if c < x + d then v else line[c - d]
  {
  }

  lemma NoneInserted(line: Line, x: nat, d: nat, cols: int, v: Glyph)
    requires x >= cols
    ensures InsertCells(line, x, d, cols, v) == line
  {
  }

  /** DCH n takes n cells out at the cursor, and erased ones come in from the end of the line. */
  lemma Deletes(t: Term, n: nat, d: nat, c: int)
    requires Valid(t) && d == (if n == 0 then 1 else n) && 0 <= c < t.cols
    ensures var u, x, line := Step(t, Dch(n)), t.b.x, RowOf(t, t.b.y);
            && SameRows(t, u) && |RowOf(u, t.b.y)| >= |line| >= t.cols && x >= 0
            && RowOf(u, t.b.y)[c] == if c < x then line[c] else if c + d < |line| then line[c + d] else Erased(t)
  {
    hide *;
    ShapeOf(t);
    StepIch(t, n);
    CountIs(n, d);
    OnLineIs(t, CurLine(t));
    var line, x, v := CurLine(t), t.b.x, Eraser(t);
    OnLineIs(t, DeleteCells(line, x, d, v));
    DeleteCellsShifts(line, x, d, v);
    DeletedAt(line, x, d, v, c);
  }

  lemma DeletedAt(line: Line, x: nat, d: nat, v: Glyph, c: int)
    requires 0 <= c < |line| && d >= 1
    ensures var l := if x < |line| then ShiftUp(line, x, |line|, d, v)
                     else line + TermScreen.Fill(Min(d, x + 1 - |line|), v);
            |l| >= |line| && l[c] == if c < x then line[c] else if c + d < |line| then line[c + d] else v
  {
    if x >= |line| {
      var fill := TermScreen.Fill(Min(d, x + 1 - |line|), v);
      assert (line + fill)[c] == line[c];
    }
    hide TermScreen.Fill, Min, ShiftUp;
  }

  /** ECH n erases n cells from the cursor on. */
  lemma Blanks(t: Term, n: nat, d: nat, c: int)
    requires Valid(t) && d == (if n == 0 then 1 else n) && 0 <= c < t.cols
    ensures var u, x := Step(t, Ech(n)), t.b.x;
            && SameRows(t, u) && |RowOf(u, t.b.y)| == |RowOf(t, t.b.y)| >= t.cols
            && RowOf(u, t.b.y)[c] == if x <= c < x + d then Erased(t) else RowOf(t, t.b.y)[c]
  {
    hide *;
    ShapeOf(t);
    StepIch(t, n);
    CountIs(n, d);
    OnLineIs(t, CurLine(t));
    var line, x, v := CurLine(t), t.b.x, Eraser(t);
    OnLineIs(t, EraseCells(line, x, d, t.cols, v));
    EraseCellsBlanks(line, x, d, t.cols, v);
    BlankedAt(line, x, d, t.cols, v, c);
  }

  lemma BlankedAt(line: Line, x: nat, d: nat, cols: int, v: Glyph, c: int)
    requires cols <= |line| && 0 <= c < cols
    ensures var l := ErasedRight(line, x, Min(x + d, cols), v);
            |l| == |line| && l[c] == if x <= c < x + d then v else line[c]
  {
  }

  /* Lines */

  /** The screen of t, with some of its lines shifted. */
  ghost predicate Shifted(t: Term, u: Term, screen: seq<Line>)
    requires 0 <= t.b.ybase <= |t.b.lines|
  {
    && u == t.(b := t.b.(lines := u.b.lines))
    && u.b.ybase <= |u.b.lines| && ViewOf(u.b) == ViewOf(t.b).(screen := screen)
  }

  /** IL n and DL n shift the lines from the cursor to the bottom margin; below it, those in between. */
  lemma InsertsLines(t: Term, n: nat, d: nat)
    requires Valid(t) && d == if n == 0 then 1 else n
    ensures var s := ViewOf(t.b).screen;
            && 0 <= t.b.y < |s| && 0 <= t.b.bottom < |s|
            && Shifted(t, Step(t, Il(n)),
                 if t.b.y <= t.b.bottom then ShiftDown(s, t.b.y, t.b.bottom + 1, d, BlankLine(t, true))
                 else ShiftUp(s, t.b.bottom + 1, t.b.y, d, BlankLine(t, true)))
            && Shifted(t, Step(t, Dl(n)),
                 if t.b.y <= t.b.bottom then ShiftUp(s, t.b.y, t.b.bottom + 1, d, BlankLine(t, true))
                 else ShiftDown(s, t.b.bottom + 1, t.b.y, d, BlankLine(t, true)))
  {
    CountIs(n, d);
    ShapeOf(t);
    StepsLines(t, Il(n));
    StepsLines(t, Dl(n));
    InsertLinesRefines(t, n);
    DeleteLinesRefines(t, n);
    hide Valid, Step, ShiftUp, ShiftDown, BlankLine, InsertLines, DeleteLines, LinesFit, AtLeast1, OrOne;
  }

  /** SU n and SD n shift the region. */
  lemma ScrollsRegion(t: Term, n: nat, d: nat)
    requires Valid(t) && d == if n == 0 then 1 else n
    ensures var s := ViewOf(t.b).screen;
            && 0 <= t.b.top < |s| && 0 <= t.b.bottom < |s|
            && Shifted(t, Step(t, Su(n)),
                 if t.b.top <= t.b.bottom then ShiftUp(s, t.b.top, t.b.bottom + 1, d, BlankLine(t, false))
                 else ShiftDown(s, t.b.bottom, t.b.top + 1, d, BlankLine(t, false)))
            && Shifted(t, Step(t, Sd(n)),
                 if t.b.top <= t.b.bottom then ShiftDown(s, t.b.top, t.b.bottom + 1, d, BlankLine(t, false))
                 else ShiftUp(s, t.b.bottom, t.b.top + 1, d, BlankLine(t, false)))
  {
    CountIs(n, d);
    ShapeOf(t);
    StepsLines(t, Su(n));
    StepsLines(t, Sd(n));
    ScrollUpRefines(t, n);
    ScrollDownRefines(t, n);
    hide Valid, Step, ShiftUp, ShiftDown, BlankLine, ScrollUp, ScrollDown, LinesFit, AtLeast1, OrOne;
  }

  /** RI goes up or, at the top margin, shifts the lines from the cursor to the bottom margin down by one. */
  lemma ReversesIndex(t: Term)
    requires Valid(t)
    ensures t.b.y > t.b.top ==> Step(t, Ri) == t.(b := t.b.(y := t.b.y - 1))
    ensures t.b.y <= t.b.top ==>
      var s := ViewOf(t.b).screen;
      && 0 <= t.b.y < |s| && 0 <= t.b.bottom < |s|
      && Shifted(t, Step(t, Ri),
           if t.b.y <= t.b.bottom then ShiftDown(s, t.b.y, t.b.bottom + 1, 1, BlankLine(t, true))
           else ShiftUp(s, t.b.bottom + 1, t.b.y, 1, BlankLine(t, true)))
  {
    ShapeOf(t);
    StepsLines(t, Ri);
    ReverseIndexRefines(t);
    hide Valid, Step, ShiftUp, ShiftDown, BlankLine, ReverseIndex, LinesFit;
  }

  /** Line feeds go down or, from the bottom margin on, scroll the region; NEL, and a line feed that is told
      to, return to the first column. */
  lemma FeedsLine(t: Term, op: Op)
    requires Valid(t) && (op.LineFeed? || op.Ind? || op.Nel?)
    ensures var u, x := Step(t, op), if op.Nel? || (op.LineFeed? && t.convertEol) then 0 else t.b.x;
            && u == t.(b := u.b) && u.b.x == x && u.b.ybase <= |u.b.lines| && 0 <= u.b.ybase
            && (t.b.y < t.b.bottom ==> u.b == t.b.(y := t.b.y + 1, x := x))
            && (t.b.y >= t.b.bottom ==>
                  && u.b.y == t.b.y && 0 <= t.b.top < t.rows && 0 <= t.b.bottom < t.rows
                  && ViewOf(u.b) == Scrolled(ViewOf(t.b), t.b.top, t.b.bottom, t.scrollback, BlankLine(t, false)))
  {
    ShapeOf(t);
    StepsScrolling(t, op);
    ColumnFrame(t, 0);
    FeedIs(t);
    FeedIs(AtColumn(t, 0));
    hide Valid, Step, Index, BlankLine, LinesFit, Scrolled;
    SameBlank(t);
  }

  lemma SameBlank(t: Term)
    ensures BlankLine(AtColumn(t, 0), false) == BlankLine(t, false)
  {
  }

  lemma FeedIs(t: Term)
    requires Valid(t)
    ensures var u := Index(t);
            && u == t.(b := u.b) && u.b.x == t.b.x && 0 <= u.b.ybase <= |u.b.lines|
            && (t.b.y < t.b.bottom ==> u.b == t.b.(y := t.b.y + 1))
            && (t.b.y >= t.b.bottom ==>
                  && u.b.y == t.b.y && 0 <= t.b.top < t.rows && 0 <= t.b.bottom < t.rows
                  && ViewOf(u.b) == Scrolled(ViewOf(t.b), t.b.top, t.b.bottom, t.scrollback, BlankLine(t, false)))
  {
    ShapeOf(t);
    IndexRefines(t);
    IndexKeeps(t);
    if t.b.y >= t.b.bottom { ScrollRefines(t); }
    hide Index, Scroll, BlankLine, LinesFit, Scrolled;
  }
}
