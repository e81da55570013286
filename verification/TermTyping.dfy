/** What text does to the screen: it fills the cursor's row, wraps behind the last column, and scrolls the
    region at its bottom margin. */
module TermTyping {
  import opened Numbers
  import opened TermScreen
  import opened TermRefines
  import opened TermRuns

  /* Text in one row */

  function Prints(text: seq<nat>): seq<Op> {
    if text == [] then [] else [Print(text[0])] + Prints(text[1..])
  }

  function Typed(text: seq<nat>, attr: nat): (r: Line)
    ensures |r| == |text| && forall i :: 0 <= i < |text| ==> r[i] == Glyph(attr, text[i])
  {
    seq(|text|, i requires 0 <= i < |text| => Glyph(attr, text[i]))
  }

  predicate Narrow(text: seq<nat>) {
    forall i :: 0 <= i < |text| ==> !IsWide(text[i])
  }

  /** The terminal with another line and column at the cursor. */
  function Overwritten(t: Term, line: Line, x: int): Term
    requires 0 <= t.b.ybase + t.b.y < |t.b.lines|
  {
    AtColumn(WithLine(t, t.b.y, line), x)
  }

  lemma OverwrittenTwice(t: Term, line: Line, x: int, line': Line, x': int)
    requires 0 <= t.b.ybase + t.b.y < |t.b.lines|
    ensures Overwritten(t, CurLine(t), t.b.x) == t
    ensures var t1 := Overwritten(t, line, x);
      && 0 <= t1.b.ybase + t1.b.y < |t1.b.lines| && CurLine(t1) == line && t1.b.x == x
      && t1.cols == t.cols && t1.curAttr == t.curAttr && Overwritten(t1, line', x') == Overwritten(t, line', x')
  {
  }

  lemma TypedStep(t: Term, ch: nat)
    requires Valid(t) && t.b.x < t.cols && !IsWide(ch)
    ensures 0 <= t.b.ybase + t.b.y < |t.b.lines| && 0 <= t.b.x < |CurLine(t)|
    ensures Step(t, Print(ch)) == Overwritten(t, CurLine(t)[t.b.x := Glyph(t.curAttr, ch)], t.b.x + 1)
    ensures Valid(Step(t, Print(ch)))
  {
    PutKeeps(t, ch);
    ShapeOf(t);
    hide Valid;
  }

  /** Text that fits in the rest of the cursor's line replaces the cells from the cursor on, and
      changes nothing else but the column. */
  lemma {:induction false} TypedText(t: Term, text: seq<nat>)
    requires Valid(t) && Narrow(text) && t.b.x + |text| <= t.cols
    ensures Lawful(t, Prints(text))
    ensures 0 <= t.b.ybase + t.b.y < |t.b.lines| && 0 <= t.b.x && t.b.x + |text| <= |CurLine(t)|
    ensures Run(t, Prints(text))
         == Overwritten(t, CurLine(t)[..t.b.x] + Typed(text, t.curAttr) + CurLine(t)[t.b.x + |text|..], t.b.x + |text|)
    decreases |text|
  {
    hide *;
    ShapeOf(t);
    PrintsStep(text);
    var line, x := CurLine(t), t.b.x;
    if text == [] {
      RunEnd(t);
      OverwrittenTwice(t, line, x, line, x);
      SplitTyped(line, x, text, t.curAttr);
    } else {
      var t1 := Step(t, Print(text[0]));
      TypedStep(t, text[0]);
      var line' := line[x := Glyph(t.curAttr, text[0])];
      var final := line[..x] + Typed(text, t.curAttr) + line[x + |text|..];
      OverwrittenTwice(t, line', x + 1, final, x + |text|);
      TypedText(t1, text[1..]);
      LawfulNext(t, Prints(text));
      RunStep(t, Prints(text));
      SplitTyped(line, x, text, t.curAttr);
    }
  }

  lemma PrintsStep(text: seq<nat>)
    requires Narrow(text)
    ensures text == [] ==> Prints(text) == []
    ensures text != [] ==>
      !IsWide(text[0]) && Narrow(text[1..]) && Prints(text) != []
          && Prints(text)[0] == Print(text[0]) && Prints(text)[1..] == Prints(text[1..])
  {
    hide IsWide;
  }

  lemma SplitTyped(line: Line, x: nat, text: seq<nat>, attr: nat)
    requires x + |text| <= |line|
    ensures text == [] ==> line[..x] + Typed(text, attr) + line[x + |text|..] == line
    ensures text != [] ==>
      var l := line[x := Glyph(attr, text[0])];
      l[..x + 1] + Typed(text[1..], attr) + l[x + 1 + |text[1..]|..]
          == line[..x] + Typed(text, attr) + line[x + |text|..]
  {
    if text != [] {
      var l := line[x := Glyph(attr, text[0])];
      assert Typed(text, attr) == [Glyph(attr, text[0])] + Typed(text[1..], attr);
      assert l[..x + 1] == line[..x] + [Glyph(attr, text[0])];
      assert l[x + |text|..] == line[x + |text|..];
    }
  }

  lemma LawfulNext(t: Term, ops: seq<Op>)
    requires Valid(t) && ops != [] && ops[0].Print? && Valid(Step(t, ops[0])) && Lawful(Step(t, ops[0]), ops[1..])
    ensures Lawful(t, ops)
  {
    hide Valid, Step;
  }

  /* Text of any length */

  /** The cells of a character at column x: a wide one has a space behind it, and is one in the last column. */
  function CellsOf(ch: nat, attr: nat, x: nat, cols: int): (r: Line)
    requires x < cols
    ensures 1 <= |r| <= cols - x
  {
    if !IsWide(ch) then [Glyph(attr, ch)]
    else if x + 1 >= cols then [Glyph(attr, SPACE)]
    else [Glyph(attr, ch), Glyph(attr, SPACE)]
  }

  /** The rows that text comes to which starts at column x. */
  function Rows(text: seq<nat>, attr: nat, x: nat, cols: int): (r: seq<Line>)
    requires cols >= 1
    ensures |r| >= 1
    decreases |text|, if x >= cols then 1 else 0
  {
    if text == [] then [[]]
    else if x >= cols then [[]] + Rows(text, attr, 0, cols)
    else
      var cells := CellsOf(text[0], attr, x, cols);
      var rest := Rows(text[1..], attr, x + |cells|, cols);
      [cells + rest[0]] + rest[1..]
  }

  /** How many cells there are from column x on. */
  function Room(x: nat, cols: int): nat {
    if x >= cols then 0 else cols - x
  }

  /** Every row but the last is full. */
  predicate Full(rows: seq<Line>, x: nat, cols: int) {
    && rows != [] && |rows[0]| <= Room(x, cols)
    && (|rows| > 1 ==> |rows[0]| == Room(x, cols))
    && (forall i :: 1 <= i < |rows| ==> |rows[i]| <= cols)
    && (forall i :: 1 <= i < |rows| - 1 ==> |rows[i]| == cols)
  }

  lemma FullBelow(rows: seq<Line>, x: nat, cols: int)
    requires cols >= 1 && x >= cols && Full(rows, 0, cols)
    ensures Full([[]] + rows, x, cols)
  {
  }

  /** The rows are filled in order. */
  lemma {:induction false} RowsFull(text: seq<nat>, attr: nat, x: nat, cols: int)
    requires cols >= 1
    ensures Full(Rows(text, attr, x, cols), x, cols)
    decreases |text|, if x >= cols then 1 else 0
  {
    if text == [] {
    } else if x >= cols {
      RowsFull(text, attr, 0, cols);
      FullBelow(Rows(text, attr, 0, cols), x, cols);
    } else {
      RowsFull(text[1..], attr, x + |CellsOf(text[0], attr, x, cols)|, cols);
    }
  }

  function Joined(rows: seq<Line>): Line {
    if rows == [] then [] else rows[0] + Joined(rows[1..])
  }

  /** Of narrow text nothing is lost. */
  lemma {:induction false} RowsJoined(text: seq<nat>, attr: nat, x: nat, cols: int)
    requires cols >= 1 && Narrow(text)
    ensures Joined(Rows(text, attr, x, cols)) == Typed(text, attr)
    decreases |text|, if x >= cols then 1 else 0
  {
    var rows := Rows(text, attr, x, cols);
    if text == [] {
      assert Joined(rows) == [] + Joined([]);
    } else if x >= cols {
      RowsJoined(text, attr, 0, cols);
      assert rows[1..] == Rows(text, attr, 0, cols);
    } else {
      var rest := Rows(text[1..], attr, x + 1, cols);
      assert rows == [[Glyph(attr, text[0])] + rest[0]] + rest[1..];
      RowsJoined(text[1..], attr, x + 1, cols);
      assert rows[1..] == rest[1..];
      assert Typed(text, attr) == [Glyph(attr, text[0])] + Typed(text[1..], attr);
    }
  }

  predicate RowFits(t: Term, row: Line) {
    row == [] || t.b.x + |row| <= t.cols
  }

  /** A row laid over the cells from the cursor on. */
  function Laid(t: Term, row: Line): Term
    requires Valid(t) && RowFits(t, row)
  {
    var x, line := t.b.x, CurLine(t);
    if row == [] then t else Overwritten(t, line[..x] + row + line[x + |row|..], x + |row|)
  }

  lemma LaidKeeps(t: Term, row: Line)
    requires Valid(t) && RowFits(t, row)
    ensures var u := Laid(t, row);
            Valid(u) && u.b.x == t.b.x + |row| && u.cols == t.cols && u.curAttr == t.curAttr && u.b.y == t.b.y
  {
    ShapeOf(t);
    if row != [] {
      var x, line := t.b.x, CurLine(t);
      var l := line[..x] + row + line[x + |row|..];
      LineFits(t, t.b.y, l);
      hide Valid;
      Moved(WithLine(t, t.b.y, l), x + |row|, t.b.y);
    }
  }

  lemma LaidTwice(t: Term, a: Line, b: Line)
    requires Valid(t) && RowFits(t, a + b)
    ensures RowFits(t, a) && Valid(Laid(t, a)) && RowFits(Laid(t, a), b)
    ensures Laid(Laid(t, a), b) == Laid(t, a + b)
  {
    LaidKeeps(t, a);
    ShapeOf(t);
    if a == [] {
      assert a + b == b;
    } else if b == [] {
      assert a + b == a;
    } else {
      var x, line := t.b.x, CurLine(t);
      var l := line[..x] + a + line[x + |a|..];
      OverwrittenTwice(t, l, x + |a|, line[..x] + (a + b) + line[x + |a + b|..], x + |a + b|);
      assert l[..x + |a|] + b + l[x + |a| + |b|..] == line[..x] + (a + b) + line[x + |a + b|..];
      hide Valid, Overwritten;
    }
  }

  /** Whether rows can be laid one below the other, the first from the cursor on. */
  predicate RowsFit(t: Term, rows: seq<Line>) {
    rows != [] && RowFits(t, rows[0]) && forall i :: 1 <= i < |rows| ==> |rows[i]| <= t.cols
  }

  lemma FullFits(t: Term, rows: seq<Line>)
    requires t.b.x >= 0 && Full(rows, t.b.x, t.cols)
    ensures RowsFit(t, rows)
  {
  }

  lemma NextRow(t: Term, rows: seq<Line>)
    requires Valid(t) && RowsFit(t, rows)
    ensures Valid(Laid(t, rows[0]))
    ensures var u := Index(AtColumn(Laid(t, rows[0]), 0));
            && Valid(u) && u.b.x == 0 && u.cols == t.cols && u.curAttr == t.curAttr
            && (|rows| > 1 ==> RowsFit(u, rows[1..]))
  {
    hide Valid, Laid, Index;
    LaidKeeps(t, rows[0]);
    ShapeOf(Laid(t, rows[0]));
    Moved(Laid(t, rows[0]), 0, t.b.y);
    IndexKeeps(AtColumn(Laid(t, rows[0]), 0));
  }

  /** Rows one below the other, each from the first column on but the first, which is laid from the cursor
      on; between them line feeds go down or, at the bottom margin, scroll the region. */
  ghost function Placed(t: Term, rows: seq<Line>): Term
    requires Valid(t) && RowsFit(t, rows)
    decreases |rows|
  {
    NextRow(t, rows);
    if |rows| == 1 then Laid(t, rows[0]) else Placed(Index(AtColumn(Laid(t, rows[0]), 0)), rows[1..])
  }

  lemma PlacedOnto(t: Term, cells: Line, rows: seq<Line>, all: seq<Line>)
    requires rows != [] && all == [cells + rows[0]] + rows[1..] && Valid(t) && RowsFit(t, all)
    ensures RowFits(t, cells) && Valid(Laid(t, cells)) && RowsFit(Laid(t, cells), rows)
    ensures Placed(Laid(t, cells), rows) == Placed(t, all)
  {
    hide Valid, Laid, Index;
    LaidTwice(t, cells, rows[0]);
    LaidKeeps(t, cells);
    assert all[1..] == rows[1..];
  }

  lemma PlacedBelow(t: Term, rows: seq<Line>)
    requires Valid(t) && rows != [] && RowsFit(t, [[]] + rows)
    ensures Valid(Index(AtColumn(t, 0))) && RowsFit(Index(AtColumn(t, 0)), rows)
    ensures Placed(t, [[]] + rows) == Placed(Index(AtColumn(t, 0)), rows)
  {
    NextRow(t, [[]] + rows);
    assert Laid(t, []) == t;
    assert ([[]] + rows)[1..] == rows;
    hide Valid, Laid, Index;
  }

  lemma PutsCells(t: Term, ch: nat)
    requires Valid(t) && t.b.x < t.cols
    ensures t.b.x >= 0 && RowFits(t, CellsOf(ch, t.curAttr, t.b.x, t.cols))
    ensures Step(t, Print(ch)) == Laid(t, CellsOf(ch, t.curAttr, t.b.x, t.cols))
    ensures Allowed(t, Print(ch))
  {
    PutKeeps(t, ch);
    ShapeOf(t);
    hide Valid, IsWide;
    var x, line, g, space := t.b.x, CurLine(t), Glyph(t.curAttr, ch), Glyph(t.curAttr, SPACE);
    assert line[..x] + [g] + line[x + 1..] == line[x := g];
    assert line[..x] + [space] + line[x + 1..] == line[x := space];
    if x + 1 < t.cols {
      assert line[..x] + [g, space] + line[x + 2..] == line[x := g][x + 1 := space];
    }
  }

  lemma PrintsAfterWrap(t: Term, ch: nat)
    requires Valid(t) && t.b.x >= t.cols
    ensures Valid(Wrap(t)) && Wrap(t) == Index(AtColumn(t, 0)) && Step(t, Print(ch)) == Step(Wrap(t), Print(ch))
    ensures Wrap(t).b.x == 0 && Wrap(t).cols == t.cols && Wrap(t).curAttr == t.curAttr && t.cols >= 1
  {
    ShapeOf(t);
    Moved(t, 0, t.b.y);
    hide Valid, Index, PutChar;
    IndexKeeps(AtColumn(t, 0));
  }

  lemma PrintsFirst(text: seq<nat>)
    requires text != []
    ensures Prints(text) != [] && Prints(text)[0] == Print(text[0]) && Prints(text)[1..] == Prints(text[1..])
  {
  }

  lemma RowsUnfold(text: seq<nat>, attr: nat, x: nat, cols: int)
    requires cols >= 1
    ensures text == [] ==> Rows(text, attr, x, cols) == [[]]
    ensures text != [] && x >= cols ==> Rows(text, attr, x, cols) == [[]] + Rows(text, attr, 0, cols)
    ensures text != [] && x < cols ==>
      var cells := CellsOf(text[0], attr, x, cols);
      var rest := Rows(text[1..], attr, x + |cells|, cols);
      Rows(text, attr, x, cols) == [cells + rest[0]] + rest[1..]
  {
    hide CellsOf;
  }

  /** Text of any length, with wide characters or without, is laid out in rows which are placed
      one below the other. */
  lemma {:induction false} TypedRows(t: Term, text: seq<nat>)
    requires Valid(t)
    ensures t.b.x >= 0 && t.cols >= 1 && Lawful(t, Prints(text))
    ensures RowsFit(t, Rows(text, t.curAttr, t.b.x, t.cols))
    ensures Run(t, Prints(text)) == Placed(t, Rows(text, t.curAttr, t.b.x, t.cols))
    decreases |text|, if t.b.x >= t.cols then 1 else 0
  {
    hide *;
    ShapeOf(t);
    var attr, x, cols := t.curAttr, t.b.x, t.cols;
    var rows := Rows(text, attr, x, cols);
    RowsFull(text, attr, x, cols);
    FullFits(t, rows);
    RowsUnfold(text, attr, x, cols);
    if text == [] {
      TypedNothing(t);
    } else if x >= cols {
      PrintsFirst(text);
      PrintsAfterWrap(t, text[0]);
      var u := Wrap(t);
      TypedRows(u, text);
      RunsAlike(t, u, Prints(text));
      PlacedBelow(t, Rows(text, attr, 0, cols));
    } else {
      PrintsFirst(text);
      var cells := CellsOf(text[0], attr, x, cols);
      PutsCells(t, text[0]);
      LaidKeeps(t, cells);
      var u := Laid(t, cells);
      TypedRows(u, text[1..]);
      LawfulNext(t, Prints(text));
      RunStep(t, Prints(text));
      PlacedOnto(t, cells, Rows(text[1..], attr, x + |cells|, cols), rows);
    }
  }

  lemma TypedNothing(t: Term)
    requires Valid(t)
    ensures Lawful(t, Prints([])) && RowsFit(t, [[]]) && Run(t, Prints([])) == Placed(t, [[]])
  {
    RunEnd(t);
    hide Valid;
  }

  lemma RunsAlike(t: Term, u: Term, ops: seq<Op>)
    requires Valid(t) && Valid(u) && ops != [] && ops[0].Print? && Step(t, ops[0]) == Step(u, ops[0]) && Lawful(u, ops)
    ensures Lawful(t, ops) && Run(t, ops) == Run(u, ops)
  {
    hide Valid, Step;
    RunStep(u, ops);
    LawfulNext(t, ops);
    RunStep(t, ops);
  }
}
