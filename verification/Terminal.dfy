/** The terminal itself: lines are objects whose cells are overwritten in place, and the array
    that holds them is spliced. Each method leaves the buffer that the functions of module
    TermScreen prescribe, because no line is shared. */
module Terminal {
  import opened Numbers
  import opened TermScreen
  import opened TermRefines
  import opened TermRuns

  class Row {
    var cells: Line

    constructor (cells: Line)
      ensures this.cells == cells
    {
      this.cells := cells;
    }

    method Put(x: nat, ch: Glyph)
      requires x < |cells|
      modifies this
      ensures cells == old(cells)[x := ch]
    {
      cells := cells[x := ch];
    }

    /** Columns x up to the last are overwritten. */
    method EraseRight(x0: nat, cols: int, ch: Glyph)
      requires |cells| >= cols
      modifies this
      ensures cells == ErasedRight(old(cells), x0, cols, ch)
    {
      var x := x0;
      while x < cols
        invariant x >= x0 && |cells| == |old(cells)|
        invariant forall i :: 0 <= i < |cells| ==> cells[i] == if x0 <= i < x && i < cols then ch else old(cells)[i]
      {
        cells := cells[x := ch];
        x := x + 1;
      }
    }

    /** Columns x down to 0 are overwritten. Writing behind the end makes the array longer; what
        lies between the end and that column is written by the next turns of the loop. */
    method EraseLeft(x0: nat, ch: Glyph)
      modifies this
      ensures cells == ErasedLeft(old(cells), x0, ch)
    {
      var x := x0 + 1;
      while x > 0
        invariant 0 <= x <= x0 + 1
        invariant |cells| == if x <= x0 && x0 >= |old(cells)| then x0 + 1 else |old(cells)|
        invariant forall i :: 0 <= i < |cells| ==>
          (x <= i <= x0 ==> cells[i] == ch) && ((i > x0 || (i < x && i < |old(cells)|)) ==> cells[i] == old(cells)[i])
      {
        x := x - 1;
        cells := if x < |cells| then cells[x := ch] else cells + TermScreen.Fill(x + 1 - |cells|, ch);
      }
    }

    /** n times, splice(j++, 0, ch) and pop. */
    method InsertBlanks(j0: nat, n: nat, cols: int, ch: Glyph)
      modifies this
      ensures cells == InsertCells(old(cells), j0, n, cols, ch)
    {
      var j, param := j0, n;
      while param > 0 && j < cols
        invariant 0 <= param <= n && j >= 0
        invariant InsertCells(cells, j, param, cols, ch) == InsertCells(old(cells), j0, n, cols, ch)
        decreases param
      {
        var longer := InsertAt(cells, j, ch);
        cells := longer[..|longer| - 1];
        j := j + 1;
        param := param - 1;
      }
    }

    /** n times, splice(x, 1) and push(ch). */
    method DeleteBlanks(x: nat, n: nat, ch: Glyph)
      modifies this
      ensures cells == DeleteCells(old(cells), x, n, ch)
    {
      var param := n;
      while param > 0
        invariant 0 <= param <= n && DeleteCells(cells, x, param, ch) == DeleteCells(old(cells), x, n, ch)
      {
        cells := RemoveAt(cells, x) + [ch];
        param := param - 1;
      }
    }

    method EraseRun(j0: nat, n: nat, cols: int, ch: Glyph)
      requires |cells| >= cols
      modifies this
      ensures cells == EraseCells(old(cells), j0, n, cols, ch)
    {
      var j, param := j0, n;
      while param > 0 && j < cols
        invariant 0 <= param <= n && j >= 0 && |cells| >= cols
        invariant EraseCells(cells, j, param, cols, ch) == EraseCells(old(cells), j0, n, cols, ch)
        decreases param
      {
        cells := cells[j := ch];
        j := j + 1;
        param := param - 1;
      }
    }

    method Pad(n: nat, ch: Glyph)
      modifies this
      ensures cells == old(cells) + TermScreen.Fill(n - |old(cells)|, ch)
    {
      while |cells| < n
        invariant |cells| >= |old(cells)| && cells == old(cells) + TermScreen.Fill(|cells| - |old(cells)|, ch)
        invariant |cells| <= n || cells == old(cells)
        decreases n - |cells|
      {
        cells := cells + [ch];
      }
    }

    method CutTo(n: nat)
      modifies this
      ensures cells == Cut(old(cells), n)
    {
      while |cells| > n
        invariant Cut(cells, n) == Cut(old(cells), n)
        decreases |cells|
      {
        cells := cells[..|cells| - 1];
      }
    }
  }

  function Contents(rows: seq<Row>): (r: seq<Line>)
    reads rows
    ensures |r| == |rows| && forall i :: 0 <= i < |rows| ==> r[i] == rows[i].cells
  {
    seq(|rows|, i requires 0 <= i < |rows| reads rows => rows[i].cells)
  }

  predicate Distinct(rows: seq<Row>) {
    forall i, j :: 0 <= i < j < |rows| ==> rows[i] != rows[j]
  }

  /* Splices of distinct lines */

  lemma InsertedRow(rows: seq<Row>, i: nat, row: Row)
    requires Distinct(rows) && row !in rows
    ensures Distinct(InsertAt(rows, i, row))
        && Contents(InsertAt(rows, i, row)) == InsertAt(Contents(rows), i, row.cells)
    ensures forall r :: r in InsertAt(rows, i, row) ==> r in rows || r == row
  {
    InsertedContents(rows, i, row);
    hide Contents;
    var s := InsertAt(rows, i, row);
    var k := if i >= |rows| then |rows| else i;
    assert s[k] == row;
    assert forall j :: 0 <= j < |s| && j != k ==> s[j] == rows[if j < k then j else j - 1];
  }

  lemma InsertedContents(rows: seq<Row>, i: nat, row: Row)
    ensures Contents(InsertAt(rows, i, row)) == InsertAt(Contents(rows), i, row.cells)
  {
  }

  lemma RemovedRow(rows: seq<Row>, i: nat)
    requires Distinct(rows)
    ensures Distinct(RemoveAt(rows, i)) && Contents(RemoveAt(rows, i)) == RemoveAt(Contents(rows), i)
    ensures forall r :: r in RemoveAt(rows, i) ==> r in rows
  {
  }

  lemma LastRows(rows: seq<Row>, n: nat)
    requires Distinct(rows)
    ensures Distinct(Last(rows, n)) && Contents(Last(rows, n)) == Last(Contents(rows), n)
    ensures forall r :: r in Last(rows, n) ==> r in rows
  {
  }

  datatype Held = NotHeld | Held(lines: seq<Row>, ybase: int,
      ydisp: int, x: int, y: int, top: int, bottom: int, tabs: set<int>)

  function HeldRows(h: Held): seq<Row> {
    if h.Held? then h.lines else []
  }

  class Terminal {
    var lines: seq<Row>
    var ybase: int
    var ydisp: int
    var x: int
    var y: int
    var scrollTop: int
    var scrollBottom: int
    var tabs: set<int>
    var rows: int
    var cols: int
    var curAttr: nat
    var savedX: int
    var savedY: int
    var normal: Held
    const scrollback: int
    const convertEol: bool

    ghost function All(): seq<Row>
      reads this
    {
      lines + HeldRows(normal)
    }

    ghost function Owned(): set<Row>
      reads this
    {
      set r | r in All()
    }

    /** No line is shared, within a screen or between the two. */
    ghost predicate Unshared()
      reads this
    {
      Distinct(All())
    }

    ghost function T(): Term
      reads this, lines, HeldRows(normal)
    {
      Term(Buffer(Contents(lines), ybase, ydisp, x, y, scrollTop, scrollBottom, tabs),
          rows, cols, scrollback, convertEol, curAttr,
           savedX, savedY,
           if normal.Held?
           then Screen(Buffer(Contents(normal.lines), normal.ybase, normal.ydisp,
               normal.x, normal.y, normal.top, normal.bottom, normal.tabs))
           else NoScreen)
    }

    /** The screen holds only lines that it held before or that are new. */
    twostate predicate NoStrangers()
      reads this
    {
      normal == old(normal) && forall r :: r in lines ==> r in old(lines) || fresh(r)
    }

    /** blankLine: a new line. */
    method BlankLine(cur: bool) returns (row: Row)
      ensures fresh(row) && row.cells == TermScreen.BlankLine(T(), cur)
    {
      var attr := if cur then DEF_ATTR / 512 * 512 + curAttr % 512 else DEF_ATTR;
      var ch := Blank(attr);
      var line: Line := [];
      var i := 0;
      while i < cols
        invariant 0 <= i && (i <= cols || i == 0) && line == TermScreen.Fill(i, ch)
      {
        line := line + [ch];
        i := i + 1;
      }
      row := new Row(line);
    }

    /** lines.splice(i, 0, this.blankLine(cur)). */
    method InsertBlank(i: nat, cur: bool)
      requires Unshared()
      modifies this`lines
      ensures Unshared() && T() == Inserting(old(T()), i, TermScreen.BlankLine(old(T()), cur)) && NoStrangers()
    {
      hide InsertAt, TermScreen.BlankLine;
      var row := BlankLine(cur);
      DistinctParts(lines, HeldRows(normal));
      InsertedRow(lines, i, row);
      lines := InsertAt(lines, i, row);
      DistinctParts(lines, HeldRows(normal));
    }

    /** lines.splice(i, 1). */
    method Remove(i: nat)
      requires Unshared()
      modifies this`lines
      ensures Unshared() && T() == Removing(old(T()), i) && NoStrangers()
    {
      hide RemoveAt;
      DistinctParts(lines, HeldRows(normal));
      RemovedRow(lines, i);
      lines := RemoveAt(lines, i);
      DistinctParts(lines, HeldRows(normal));
    }

    /** lines = lines.slice(-n). */
    method Keep(n: nat)
      requires Unshared()
      modifies this`lines
      ensures Unshared() && T() == Keeping(old(T()), n) && NoStrangers()
    {
      hide Last;
      DistinctParts(lines, HeldRows(normal));
      LastRows(lines, n);
      lines := Last(lines, n);
      DistinctParts(lines, HeldRows(normal));
    }

    method Scroll()
      requires Unshared() && ybase >= 0 && rows >= 1 && scrollTop >= 0 && scrollBottom >= 0
      modifies this
      ensures Unshared() && T() == TermScreen.Scroll(old(T())) && NoStrangers()
    {
      hide T, Contents, Inserting, Removing, Advanced, TermScreen.BlankLine, TermScreen.Scroll, Distinct;
      ghost var t := T();
      Fields();
      AdvancedKeeps(t);
      Advance();
      Fields();
      ghost var t1 := T();
      var row := ybase + rows - 1;
      row := row - (rows - 1 - scrollBottom);
      InsertingKeeps(t1, row, TermScreen.BlankLine(t1, false));
      InsertBlank(row, false);
      Fields();
      ScrollSteps(t, t1, T());
      if scrollTop != 0 {
        StepBack();
        Remove(ybase + scrollTop);
      }
    }

    /** The line that goes from inside the region was counted as history. */
    method StepBack()
      modifies this`ybase, this`ydisp
      ensures T() == SteppedBack(old(T())) && (Unshared() <==> old(Unshared())) && All() == old(All())
      ensures ybase == if old(ybase) != 0 then old(ybase) - 1 else 0
    {
      hide Contents, Distinct;
      if ybase != 0 {
        ybase := ybase - 1;
        ydisp := ybase;
      }
    }

    /** One more line of history, or half of it if it is full. */
    method Advance()
      requires Unshared() && ybase >= 0 && rows >= 1
      modifies this
      ensures Unshared() && T() == Advanced(old(T())) && NoStrangers()
    {
      hide Keeping, Distinct;
      ghost var t := T();
      ybase := ybase + 1;
      if ybase == scrollback {
        ybase := ybase / 2;
        Keep(ybase + rows - 1);
      }
      ydisp := ybase;
      AdvancedIs(t);
    }

    method Index()
      requires Unshared() && Valid(T())
      modifies this
      ensures Unshared() && T() == TermScreen.Index(old(T())) && NoStrangers()
    {
      hide TermScreen.Scroll, LinesFit, Distinct;
      y := y + 1;
      if y > scrollBottom {
        y := y - 1;
        Scroll();
      }
    }

    method ReverseIndex()
      requires Unshared() && Valid(T())
      modifies this
      ensures Unshared() && T() == TermScreen.ReverseIndex(old(T())) && NoStrangers()
    {
      hide T, Contents, Unshared, Valid, Inserting, Removing,
          TermScreen.BlankLine, TermScreen.ReverseIndex, Distinct, AtRow;
      ghost var t := T();
      ShapeOf(t);
      Fields();
      ReverseIndexIs(t);
      SetRow(y - 1);
      if y < scrollTop {
        SetRow(y + 1);
        RowAgain(t, y - 1);
        InsertingKeeps(t, y + ybase, TermScreen.BlankLine(t, true));
        InsertBlank(y + ybase, true);
        var j := rows - 1 - scrollBottom;
        Remove(rows - 1 + ybase - j + 1);
      }
    }

    method SetRow(y1: int)
      modifies this`y
      ensures y == y1 && T() == AtRow(old(T()), y1) && (Unshared() <==> old(Unshared()))
    {
      hide Contents, Distinct;
      y := y1;
    }

    method InsertLines(n: int)
      requires Unshared() && Valid(T())
      modifies this
      ensures Unshared() && T() == TermScreen.InsertLines(old(T()), n) && NoStrangers()
    {
      hide InsertRemove, LinesFit, Distinct, TermScreen.BlankLine;
      var param := if n < 1 then 1 else n;
      var row := y + ybase;
      var j := rows - 1 - scrollBottom;
      j := rows - 1 + ybase - j + 1;
      SpliceTimes(row, j, param, true);
    }

    method DeleteLines(n: int)
      requires Unshared() && Valid(T())
      modifies this
      ensures Unshared() && T() == TermScreen.DeleteLines(old(T()), n) && NoStrangers()
    {
      hide InsertRemove, LinesFit, Distinct, TermScreen.BlankLine;
      var param := if n < 1 then 1 else n;
      var row := y + ybase;
      var j := rows - 1 - scrollBottom;
      j := rows - 1 + ybase - j;
      SpliceTimes(j + 1, row, param, true);
    }

    /** The loop of IL and DL: a blank line at i, and the line at j goes. */
    method SpliceTimes(i: nat, j: nat, n: nat, cur: bool)
      requires Unshared()
      modifies this`lines
      ensures Unshared() && NoStrangers()
      ensures T() == SplicedTimes(old(T()), i, j, n, cur)
    {
      hide InsertRemove, InsertAt, RemoveAt, Distinct, TermScreen.BlankLine;
      var param := n;
      WithLinesAgain(T());
      while param > 0
        invariant 0 <= param <= n && Unshared() && NoStrangers()
        invariant T() == old(T()).(b := old(T()).b.(lines := T().b.lines))
        invariant SplicedTimes(T(), i, j, param, cur) == SplicedTimes(old(T()), i, j, n, cur)
      {
        SplicedOnce(T(), i, j, param, cur);
        InsertBlank(i, cur);
        Remove(j);
        param := param - 1;
      }
      SplicedNever(T(), i, j, cur);
    }

    method ScrollUp(n: nat)
      requires Unshared() && Valid(T())
      modifies this
      ensures Unshared() && T() == TermScreen.ScrollUp(old(T()), n) && NoStrangers()
    {
      hide RemoveInsert, LinesFit, Distinct, TermScreen.BlankLine;
      RemoveInsertTimes(ybase + scrollTop, ybase + scrollBottom, if n == 0 then 1 else n);
    }

    method ScrollDown(n: nat)
      requires Unshared() && Valid(T())
      modifies this
      ensures Unshared() && T() == TermScreen.ScrollDown(old(T()), n) && NoStrangers()
    {
      hide RemoveInsert, LinesFit, Distinct, TermScreen.BlankLine;
      RemoveInsertTimes(ybase + scrollBottom, ybase + scrollTop, if n == 0 then 1 else n);
    }

    /** The loop of SU and SD. */
    method RemoveInsertTimes(i: nat, j: nat, n: nat)
      requires Unshared()
      modifies this`lines
      ensures Unshared() && NoStrangers()
      ensures T() == ReplacedTimes(old(T()), i, j, n)
    {
      hide RemoveInsert, InsertAt, RemoveAt, Distinct, TermScreen.BlankLine;
      var param := n;
      WithLinesAgain(T());
      while param > 0
        invariant 0 <= param <= n && Unshared() && NoStrangers()
        invariant T() == old(T()).(b := old(T()).b.(lines := T().b.lines))
        invariant ReplacedTimes(T(), i, j, param) == ReplacedTimes(old(T()), i, j, n)
      {
        ReplacedOnce(T(), i, j, param);
        Remove(i);
        InsertBlank(j, false);
        param := param - 1;
      }
      ReplacedNever(T(), i, j);
    }

    /* Cells */

    /** Overwriting one line changes that line of the buffer and no other, in either screen. */
    twostate lemma RowChanged(k: nat)
      requires old(Unshared()) && lines == old(lines) && normal == old(normal) && k < |lines|
      requires forall r :: r in All() && r != lines[k] ==> r.cells == old(r.cells)
      ensures Contents(lines) == old(Contents(lines))[k := lines[k].cells]
      ensures normal.Held? ==> Contents(normal.lines) == old(Contents(normal.lines))
    {
      OwnIndex(lines, HeldRows(normal), k);
    }

    /** What overwriting line k makes of the terminal. */
    twostate lemma RowWritten(k: nat)
      requires old(Unshared()) && unchanged(this) && k < |lines|
      requires forall r :: r in All() && r != lines[k] ==> r.cells == old(r.cells)
      ensures Unshared() && k < |old(T()).b.lines|
          && T() == old(T()).(b := old(T()).b.(lines := old(T()).b.lines[k := lines[k].cells]))
    {
      hide Distinct, Contents;
      RowChanged(k);
    }

    lemma CellsAt(k: int)
      ensures |T().b.lines| == |lines| && (0 <= k < |lines| ==> lines[k] in lines && T().b.lines[k] == lines[k].cells)
    {
    }

    /** The fields of the buffer. */
    lemma Fields()
      ensures T().b.ybase == ybase && T().b.y == y && T().b.x == x
          && T().rows == rows && T().cols == cols && |T().b.lines| == |lines|
      ensures T().curAttr == curAttr && T().scrollback == scrollback
          && T().b.top == scrollTop && T().b.bottom == scrollBottom
      ensures T().b.tabs == tabs
    {
    }

    method EraseRight(x0: nat, y0: nat)
      requires Unshared() && Valid(T()) && y0 < rows
      modifies lines[ybase + y0]
      ensures Unshared() && T()
          == WithLine(old(T()), y0, ErasedRight(old(T()).b.lines[ybase + y0], x0, cols, Eraser(old(T()))))
    {
      hide T, Contents, Unshared, Valid, Distinct, WithLine, OnLine, CurLine,
          Eraser, AtLeast1, ErasedRight, ErasedLeft, InsertCells, DeleteCells,
        EraseCells, CellsPut, CanPut, IsWide;
      ghost var t := T();
      LineLength(t, ybase + y0);
      Fields();
      CellsAt(ybase + y0);
      EraserIs(t);
      var ch := Blank(DEF_ATTR / 512 * 512 + curAttr % 512);
      lines[ybase + y0].EraseRight(x0, cols, ch);
      RowWritten(ybase + y0);
      WithLineIs(t, y0, lines[ybase + y0].cells);
    }

    method EraseLeft(x0: nat, y0: nat)
      requires Unshared() && Valid(T()) && y0 < rows
      modifies lines[ybase + y0]
      ensures Unshared() && T()
          == WithLine(old(T()), y0, ErasedLeft(old(T()).b.lines[ybase + y0], x0, Eraser(old(T()))))
    {
      hide T, Contents, Unshared, Valid, Distinct, WithLine, OnLine, CurLine,
          Eraser, AtLeast1, ErasedRight, ErasedLeft, InsertCells, DeleteCells,
        EraseCells, CellsPut, CanPut, IsWide;
      ghost var t := T();
      LineLength(t, ybase + y0);
      Fields();
      CellsAt(ybase + y0);
      EraserIs(t);
      var ch := Blank(DEF_ATTR / 512 * 512 + curAttr % 512);
      lines[ybase + y0].EraseLeft(x0, ch);
      RowWritten(ybase + y0);
      WithLineIs(t, y0, lines[ybase + y0].cells);
    }

    method EraseLine(y0: nat)
      requires Unshared() && Valid(T()) && y0 < rows
      modifies lines[ybase + y0]
      ensures T() == EraseRows(old(T()), y0, y0 + 1)
    {
      ghost var t := T();
      OneErased(t, y0);
      hide Valid, EraseRows, WithLine, Distinct;
      EraseRight(0, y0);
    }

    method EraseInLine(n: int)
      requires Unshared() && Valid(T())
      modifies lines[ybase + y]
      ensures T() == TermScreen.EraseInLine(old(T()), n)
    {
      ShapeOf(T());
      hide Valid, WithLine, ErasedRight, ErasedLeft, Distinct;
      if n == 0 {
        EraseRight(x, y);
      } else if n == 1 {
        EraseLeft(x, y);
      } else if n == 2 {
        EraseRight(0, y);
      }
    }

    method EraseInDisplay(n: int)
      requires Unshared() && Valid(T())
      modifies lines
      ensures T() == TermScreen.EraseInDisplay(old(T()), n)
    {
      hide *;
      ghost var t := T();
      Fields();
      ShapeOf(t);
      CurrentIn(lines, ybase + y);
      DisplayCases(t, n);
      if n == 0 {
        EraseInLine(0);
        EraseBelow(y + 1);
      } else if n == 1 {
        EraseInLine(1);
        EraseAbove(y);
      } else if n == 2 {
        EraseAbove(rows);
      }
    }

    /** Lines j0 up to the last, downwards. */
    method EraseBelow(j0: nat)
      requires Unshared() && Valid(T()) && j0 <= rows
      modifies lines
      ensures T() == EraseRows(old(T()), j0, rows)
    {
      hide *;
      ghost var t := T();
      NoneErased(t, j0);
      var j := j0;
      while j < rows
        invariant j0 <= j <= rows && Valid(t) && T() == EraseRows(t, j0, j) && Unshared()
      {
        ErasedValid(t, j0, j);
        MoreErased(t, j0, j, j + 1);
        Fields();
        LineLength(T(), ybase + j);
        CurrentIn(lines, ybase + j);
        EraseLine(j);
        StillUnshared();
        j := j + 1;
      }
    }

    /** Lines in front of j0, upwards. */
    method EraseAbove(j0: nat)
      requires Unshared() && Valid(T()) && j0 <= rows
      modifies lines
      ensures T() == EraseRows(old(T()), 0, j0)
    {
      hide *;
      ghost var t := T();
      NoneErased(t, j0);
      var j := j0;
      while j > 0
        invariant 0 <= j <= j0 && Valid(t) && T() == EraseRows(t, j, j0) && Unshared()
      {
        j := j - 1;
        ErasedValid(t, j + 1, j0);
        FewerErased(t, j, j0);
        Fields();
        LineLength(T(), ybase + j);
        CurrentIn(lines, ybase + j);
        EraseLine(j);
        StillUnshared();
      }
    }

    /** Whether lines are shared does not depend on their cells. */
    twostate lemma StillUnshared()
      requires old(Unshared()) && unchanged(this)
      ensures Unshared()
    {
    }

    method InsertChars(n: int)
      requires Unshared() && Valid(T())
      modifies lines[ybase + y]
      ensures Unshared() && T()
          == OnLine(old(T()), InsertCells(CurLine(old(T())), x, AtLeast1(n), cols, Eraser(old(T()))))
    {
      hide T, Contents, Unshared, Valid, Distinct, WithLine, OnLine, CurLine,
          Eraser, AtLeast1, ErasedRight, ErasedLeft, InsertCells, DeleteCells,
        EraseCells, CellsPut, CanPut, IsWide;
      ghost var t := T();
      ShapeOf(t);
      Fields();
      CellsAt(ybase + y);
      EraserIs(t);
      CurLineIs(t, n);
      var ch := Blank(DEF_ATTR / 512 * 512 + curAttr % 512);
      lines[ybase + y].InsertBlanks(x, if n < 1 then 1 else n, cols, ch);
      RowWritten(ybase + y);
      WithLineIs(t, y, lines[ybase + y].cells);
      OnLineIs(t, lines[ybase + y].cells);
    }

    method DeleteChars(n: int)
      requires Unshared() && Valid(T())
      modifies lines[ybase + y]
      ensures Unshared() && T() == OnLine(old(T()), DeleteCells(CurLine(old(T())), x, AtLeast1(n), Eraser(old(T()))))
    {
      hide T, Contents, Unshared, Valid, Distinct, WithLine, OnLine, CurLine,
          Eraser, AtLeast1, ErasedRight, ErasedLeft, InsertCells, DeleteCells,
        EraseCells, CellsPut, CanPut, IsWide;
      ghost var t := T();
      ShapeOf(t);
      Fields();
      CellsAt(ybase + y);
      EraserIs(t);
      CurLineIs(t, n);
      var ch := Blank(DEF_ATTR / 512 * 512 + curAttr % 512);
      lines[ybase + y].DeleteBlanks(x, if n < 1 then 1 else n, ch);
      RowWritten(ybase + y);
      WithLineIs(t, y, lines[ybase + y].cells);
      OnLineIs(t, lines[ybase + y].cells);
    }

    method EraseChars(n: int)
      requires Unshared() && Valid(T())
      modifies lines[ybase + y]
      ensures Unshared() && T()
          == OnLine(old(T()), EraseCells(CurLine(old(T())), x, AtLeast1(n), cols, Eraser(old(T()))))
    {
      hide T, Contents, Unshared, Valid, Distinct, WithLine, OnLine, CurLine,
          Eraser, AtLeast1, ErasedRight, ErasedLeft, InsertCells, DeleteCells,
        EraseCells, CellsPut, CanPut, IsWide;
      ghost var t := T();
      ShapeOf(t);
      Fields();
      CellsAt(ybase + y);
      EraserIs(t);
      CurLineIs(t, n);
      var ch := Blank(DEF_ATTR / 512 * 512 + curAttr % 512);
      lines[ybase + y].EraseRun(x, if n < 1 then 1 else n, cols, ch);
      RowWritten(ybase + y);
      WithLineIs(t, y, lines[ybase + y].cells);
      OnLineIs(t, lines[ybase + y].cells);
    }

    /** A printing character. */
    method Print(ch: nat)
      requires Unshared() && Valid(T())
      modifies this, lines
      ensures Unshared() && NoStrangers()
      ensures Valid(Wrap(old(T()))) && CanPut(Wrap(old(T()))) && T() == PutChar(Wrap(old(T())), ch)
    {
      hide T, Contents, Valid, PutChar, TermScreen.Index, Distinct;
      PrintKeeps(T(), ch);
      Fields();
      MaybeWrap();
      Fields();
      CellsAt(ybase + y);
      PutHere(ch);
    }

    method MaybeWrap()
      requires Unshared() && Valid(T())
      modifies this
      ensures Unshared() && NoStrangers() && T() == Wrap(old(T()))
    {
      ShapeOf(T());
      Moved(T(), 0, y);
      hide Contents, Valid, TermScreen.Index, Distinct;
      if x >= cols {
        x := 0;
        Index();
      }
    }

    method PutHere(ch: nat)
      requires Unshared() && Valid(T()) && CanPut(T())
      modifies this`x, lines[ybase + y]
      ensures Unshared() && All() == old(All()) && T() == PutChar(old(T()), ch)
    {
      hide Valid, IsWide, Distinct;
      PutCells(ch);
      if IsWide(ch) && !(cols < 2 || x + 1 >= cols) { x := x + 1; }
      x := x + 1;
    }

    /** The cells that a character at the cursor sets. */
    method PutCells(ch: nat)
      requires Unshared() && Valid(T()) && CanPut(T())
      modifies lines[ybase + y]
      ensures Unshared() && T() == WithLine(old(T()), y, CellsPut(old(T()), ch))
    {
      hide T, Contents, Unshared, Valid, Distinct, WithLine, OnLine, CurLine,
          Eraser, AtLeast1, ErasedRight, ErasedLeft, InsertCells, DeleteCells,
        EraseCells, CellsPut, CanPut, IsWide;
      ghost var t := T();
      ShapeOf(t);
      Fields();
      CellsAt(ybase + y);
      CellsPutIs(t, ch);
      EraserIs(t);
      var row := lines[y + ybase];
      row.Put(x, Glyph(curAttr, ch));
      if IsWide(ch) {
        if cols < 2 || x + 1 >= cols {
          row.Put(x, Glyph(curAttr, SPACE));
        } else {
          row.Put(x + 1, Glyph(curAttr, SPACE));
        }
      }
      RowWritten(ybase + y);
      WithLineIs(t, y, lines[ybase + y].cells);
    }

    /* Resizing */

    method PadAll(n: nat)
      requires Unshared()
      modifies lines
      ensures Unshared() && T() == PaddedFrom(old(T()), 0, n)
    {
      hide T, Contents, Unshared, Distinct, PaddedFrom, Padded;
      ghost var t := T();
      var i := |lines|;
      Fields();
      NonePadded(t, i, n);
      while i > 0
        invariant 0 <= i <= |lines| == |t.b.lines| && Unshared() && T() == PaddedFrom(t, i, n)
      {
        i := i - 1;
        PaddedOne(t, i, n);
        CellsAt(i);
        PadIs(lines[i].cells, n);
        label Before:
        lines[i].Pad(n, Blank(DEF_ATTR));
        RowWritten@Before(i);
      }
    }

    method CutAll(n: nat)
      requires Unshared()
      modifies lines
      ensures Unshared() && T() == CutFrom(old(T()), 0, n)
    {
      hide T, Contents, Unshared, Distinct, CutFrom, Cut;
      ghost var t := T();
      var i := |lines|;
      Fields();
      NoneCut(t, i, n);
      while i > 0
        invariant 0 <= i <= |lines| == |t.b.lines| && Unshared() && T() == CutFrom(t, i, n)
      {
        i := i - 1;
        CutOne(t, i, n);
        CellsAt(i);
        label Before:
        lines[i].CutTo(n);
        RowWritten@Before(i);
      }
    }

    /** Rows are added at the lower end of the screen. */
    method AddRows(y1: int)
      requires Unshared() && rows < y1
      modifies this`lines
      ensures Unshared() && NoStrangers() && T() == Growing(old(T()), y1 + ybase, y1 - rows)
    {
      hide T, Contents, Unshared, Distinct, TermScreen.BlankLine, Growing;
      ghost var t := T();
      Fields();
      var j := rows;
      while j < y1
        invariant rows <= j <= y1 && Unshared() && NoStrangers()
        invariant T() == t.(b := t.b.(lines := T().b.lines))
            && Growing(T(), y1 + ybase, y1 - j) == Growing(t, y1 + ybase, y1 - rows)
      {
        j := j + 1;
        Fields();
        GrowsOnce(T(), y1 + ybase, y1 - j + 1);
        if |lines| < y1 + ybase {
          ghost var u := T();
          InsertBlank(|lines|, false);
          InsertsLast(u);
        }
      }
      GrowsNever(T(), y1 + ybase);
    }

    /** Rows are dropped there. */
    method DropRows(y1: int)
      requires Unshared() && rows > y1
      modifies this`lines
      ensures Unshared() && NoStrangers() && T() == Shrinking(old(T()), y1 + ybase, rows - y1)
    {
      hide T, Contents, Unshared, Distinct, Shrinking;
      ghost var t := T();
      Fields();
      WithLinesAgain(t);
      var j := rows;
      while j > y1
        invariant y1 <= j <= rows && Unshared() && NoStrangers()
        invariant T() == t.(b := t.b.(lines := T().b.lines))
            && Shrinking(T(), y1 + ybase, j - y1) == Shrinking(t, y1 + ybase, rows - y1)
      {
        j := j - 1;
        Fields();
        ShrinksOnce(T(), y1 + ybase, j + 1 - y1);
        if |lines| > y1 + ybase && |lines| > 0 {
          RemovesLast(T());
          Remove(|lines| - 1);
        }
      }
      ShrinksNever(T(), y1 + ybase);
    }

    method Resize(x0: int, y0: int)
      requires Unshared() && Valid(T())
      modifies this, lines
      ensures Unshared() && T() == TermScreen.Resize(old(T()), x0, y0)
      ensures forall r :: r in lines ==> r in old(lines) || fresh(r)
    {
      hide T, Contents, Unshared, Distinct, Valid, Growing, Shrinking,
          TermScreen.Resize, PaddedFrom, CutFrom, TermScreen.SetupStops, Reshaped;
      ghost var t := T();
      var x1, y1 := if x0 < 1 then 1 else x0, if y0 < 1 then 1 else y0;
      Fields();
      ReshapedCases(t, x1);
      if cols < x1 {
        PadAll(x1);
      } else if cols > x1 {
        CutAll(x1);
      }
      assert T() == Reshaping(t, x1);
      Fields();
      var j := cols;
      SetupStops(j);
      SetColumns(x1);
      assert T() == Reshaped2(t, x1);
      Fields();
      if rows < y1 {
        AddRows(y1);
      } else if rows > y1 {
        DropRows(y1);
      }
      Settle(x1, y1);
      ResizeSteps(t, x0, y0, x1, y1);
    }

    method SetColumns(x1: int)
      modifies this`cols
      ensures T() == old(T()).(cols := x1) && (Unshared() <==> old(Unshared()))
    {
      hide Contents, Distinct;
      cols := x1;
    }

    /** The cursor stays on the screen, the region is all of it, and the other screen is given up. */
    method Settle(x1: int, y1: int)
      requires Unshared()
      modifies this
      ensures Unshared() && lines == old(lines) && T() == Settled(old(T()), x1, y1)
    {
      hide Contents;
      rows := y1;
      if y >= y1 { y := y1 - 1; }
      if x >= x1 { x := x1 - 1; }
      scrollTop := 0;
      scrollBottom := y1 - 1;
      DistinctParts(lines, HeldRows(normal));
      normal := NotHeld;
      assert All() == lines;
    }

    /* Tab stops */

    method SetupStops(i0: int)
      modifies this`tabs
      ensures T() == old(T()).(b := old(T()).b.(tabs := TermScreen.SetupStops(old(tabs), i0, cols)))
          && (Unshared() <==> old(Unshared()))
    {
      hide Contents, Distinct, EveryEighth;
      var i := i0;
      if i !in tabs { i := PrevStop(i); }
      EighthStops(i);
    }

    /** The loop of setupStops. */
    method EighthStops(i0: int)
      modifies this`tabs
      ensures T() == old(T()).(b := old(T()).b.(tabs := EveryEighth(old(tabs), i0, cols)))
          && (Unshared() <==> old(Unshared()))
      ensures tabs == EveryEighth(old(tabs), i0, cols)
    {
      hide Contents, Distinct;
      var i := i0;
      while i < cols
        invariant EveryEighth(tabs, i, cols) == EveryEighth(old(tabs), i0, cols)
        decreases cols - i
      {
        tabs := tabs + {i};
        i := i + 8;
      }
    }

    method PrevStop(x0: int) returns (r: int)
      ensures r == TermScreen.PrevStop(tabs, x0, cols)
    {
      var x1 := x0 - 1;
      while x1 !in tabs && x1 > 0
        invariant StopBefore(tabs, x1 + 1) == StopBefore(tabs, x0)
        decreases x1
      {
        x1 := x1 - 1;
      }
      r := if x1 >= cols then cols - 1 else if x1 < 0 then 0 else x1;
    }

    method NextStop(x0: int) returns (r: int)
      ensures r == TermScreen.NextStop(tabs, x0, cols)
    {
      var x1 := x0 + 1;
      while x1 !in tabs && x1 < cols
        invariant TermScreen.NextStop(tabs, x1 - 1, cols) == TermScreen.NextStop(tabs, x0, cols)
        decreases cols - x1
      {
        x1 := x1 + 1;
      }
      r := if x1 >= cols then cols - 1 else if x1 < 0 then 0 else x1;
    }

    /* The two screens */

    /** What the constructor does again on a reset. */
    method Reset()
      requires rows >= 0
      modifies this
      ensures Unshared() && T() == TermScreen.Reset(old(T()))
          && normal == NotHeld && (forall r :: r in lines ==> fresh(r))
    {
      hide T, Contents, EveryEighth, TermScreen.Fill;
      ghost var t := T();
      ResetFields();
      Fields();
      FreshLines();
      ClearStops();
      Fields();
      EighthStops(0);
      ResetIs(t);
    }

    method ResetFields()
      modifies this
      ensures T() == old(T()).(b := Buffer(old(T()).b.lines, 0, 0, 0, 0, 0, rows - 1, tabs),
          curAttr := DEF_ATTR, normal := NoScreen)
      ensures normal == NotHeld && rows == old(rows) && cols == old(cols)
    {
      hide Contents;
      ybase, ydisp, x, y, scrollTop, scrollBottom := 0, 0, 0, 0, 0, rows - 1;
      normal := NotHeld;
      curAttr := DEF_ATTR;
    }

    method ClearStops()
      modifies this`tabs
      ensures T() == old(T()).(b := old(T()).b.(tabs := {})) && (Unshared() <==> old(Unshared())) && tabs == {}
    {
      hide Contents, Distinct;
      tabs := {};
    }

    method FreshLines()
      requires rows >= 0 && normal == NotHeld
      modifies this`lines
      ensures Unshared() && (forall r :: r in lines ==> fresh(r))
      ensures T() == old(T()).(b := old(T()).b.(lines := TermScreen.Fill(rows, TermScreen.Fill(cols, Blank(DEF_ATTR)))))
    {
      hide TermScreen.Fill;
      lines := [];
      var i := rows;
      ghost var v := TermScreen.Fill(cols, Blank(DEF_ATTR));
      FillAgain(0, v);
      while i > 0
        invariant 0 <= i <= rows && Distinct(lines) && (forall r :: r in lines ==> fresh(r))
        invariant |lines| == rows - i && Contents(lines) == TermScreen.Fill(rows - i, v)
      {
        i := i - 1;
        var row := BlankLine(false);
        ghost var was := lines;
        lines := lines + [row];
        FillAgain(rows - i - 1, v);
        assert Contents(lines) == Contents(was) + [v];
      }
      assert All() == lines;
    }

    method EnterAlternate()
      requires Unshared() && Valid(T())
      modifies this
      ensures Unshared() && T() == TermScreen.EnterAlternate(old(T()))
      ensures forall r :: r in All() ==> r in old(All()) || fresh(r)
    {
      ShapeParts(T());
      hide Contents, Valid, FreshBuffer;
      if normal.NotHeld? {
        DistinctParts(lines, HeldRows(normal));
        var held := Held(lines, ybase, ydisp, x, y, scrollTop, scrollBottom, tabs);
        Reset();
        normal := held;
        assert lines + HeldRows(NotHeld) == lines;
        DistinctParts(lines, held.lines);
      }
    }

    method LeaveAlternate()
      requires Unshared()
      modifies this
      ensures Unshared() && T() == TermScreen.LeaveAlternate(old(T()))
      ensures forall r :: r in All() ==> r in old(All())
    {
      hide Contents;
      DistinctParts(lines, HeldRows(normal));
      if normal.Held? {
        lines, ybase, ydisp, x, y := normal.lines, normal.ybase, normal.ydisp, normal.x, normal.y;
        scrollTop, scrollBottom, tabs := normal.top, normal.bottom, normal.tabs;
        normal := NotHeld;
        assert All() == lines;
      }
    }

    /* The cursor */

    method Cursor(op: Op)
      requires Valid(T()) && MovesCursor(op)
      modifies this`x, this`y
      ensures T() == Step(old(T()), op) && (Unshared() <==> old(Unshared())) && All() == old(All())
    {
      hide Contents, Distinct, Step, Valid, MovesCursor;
      ghost var t := T();
      MoveIs(t, op);
      SetCursor(op);
    }

    method SetCursor(op: Op)
      requires Valid(T()) && MovesCursor(op)
      modifies this`x, this`y
      ensures x == Step(old(T()), op).b.x && y == Step(old(T()), op).b.y
    {
      hide T, Step, Valid;
      if op.Tab? || op.Cht? || op.Cbt? {
        MoveTab(op);
      } else if op.Return? || op.Backspace? || op.RestoreCursor? || op.Cuf? || op.Cub? || op.Cha? || op.Hpa? {
        MoveColumn(op);
      } else {
        MoveRow(op);
      }
    }

    /** CR, BS and the movements within a line, as their functions assign x. */
    method MoveColumn(op: Op)
      requires Valid(T()) && (op.Return? || op.Backspace?
          || op.RestoreCursor? || op.Cuf? || op.Cub? || op.Cha? || op.Hpa?)
      modifies this`x, this`y
      ensures x == Step(old(T()), op).b.x && y == Step(old(T()), op).b.y
    {
      hide Valid, Contents;
      match op {
        case Return => x := 0;
        case Backspace => if x > 0 { x := x - 1; }
        case RestoreCursor => x, y := savedX, savedY;
        case Cuf(n) => MoveRight(n);
        case Cub(n) => MoveLeft(n);
        case Cha(n) => x := (if n < 1 then 1 else n) - 1;
        case Hpa(n) =>
          x := (if n < 1 then 1 else n) - 1;
          if x >= cols { x := cols - 1; }
      }
    }

    /** The movements between lines. */
    method MoveRow(op: Op)
      requires Valid(T()) && (op.Cuu? || op.Cpl? || op.Cud? || op.Cnl? || op.Vpa? || op.Cup? || op.Hvp?)
      modifies this`x, this`y
      ensures x == Step(old(T()), op).b.x && y == Step(old(T()), op).b.y
    {
      hide Valid, Contents;
      match op {
        case Cuu(n) => MoveUp(n);
        case Cpl(n) => MoveUp(n); x := 0;
        case Cud(n) => MoveDown(n);
        case Cnl(n) => MoveDown(n); x := 0;
        case Vpa(n) =>
          y := (if n < 1 then 1 else n) - 1;
          if y >= rows { y := rows - 1; }
        case Cup(row, col) =>
          var r, c := row - 1, col - 1;
          if r < 0 { r := 0; } else if r >= rows { r := rows - 1; }
          if c < 0 { c := 0; } else if c >= cols { c := cols - 1; }
          x, y := c, r;
        case Hvp(row, col) =>
          var r, c := if row < 1 then 1 else row, if col < 1 then 1 else col;
          y := r - 1;
          if y >= rows { y := rows - 1; }
          x := c - 1;
          if x >= cols { x := cols - 1; }
      }
    }

    method MoveUp(n: nat)
      modifies this`y
      ensures y == (if old(y) - AtLeast1(n) < 0 then 0 else old(y) - AtLeast1(n))
    {
      y := y - if n < 1 then 1 else n;
      if y < 0 { y := 0; }
    }

    method MoveDown(n: nat)
      modifies this`y
      ensures y == (if old(y) + AtLeast1(n) >= rows then rows - 1 else old(y) + AtLeast1(n))
    {
      y := y + if n < 1 then 1 else n;
      if y >= rows { y := rows - 1; }
    }

    method MoveRight(n: nat)
      modifies this`x
      ensures x == (if old(x) + AtLeast1(n) >= cols then cols - 1 else old(x) + AtLeast1(n))
    {
      x := x + if n < 1 then 1 else n;
      if x >= cols { x := cols - 1; }
    }

    method MoveLeft(n: nat)
      modifies this`x
      ensures x == (if old(x) - AtLeast1(n) < 0 then 0 else old(x) - AtLeast1(n))
    {
      x := x - if n < 1 then 1 else n;
      if x < 0 { x := 0; }
    }

    method MoveTab(op: Op)
      requires Valid(T()) && (op.Tab? || op.Cht? || op.Cbt?)
      modifies this`x, this`y
      ensures x == Step(old(T()), op).b.x && y == Step(old(T()), op).b.y
    {
      ghost var t := T();
      TabsIs(t, op);
      hide Step, Valid, Contents, TermScreen.NextStop, TermScreen.PrevStop, Forward, Backward;
      if op.Tab? {
        x := NextStop(x);
      } else {
        var param := if op.n == 0 then 1 else op.n;
        while param > 0
          invariant param >= 0 && y == old(y)
          invariant op.Cht? ==> Forward(AtColumn(t, x), param).b.x == Forward(t, OrOne(op.n)).b.x
          invariant op.Cbt? ==> Backward(AtColumn(t, x), param).b.x == Backward(t, OrOne(op.n)).b.x
        {
          TabOnce(AtColumn(t, x), param);
          if op.Cht? { x := NextStop(x); } else { x := PrevStop(x); }
          param := param - 1;
        }
        TabNever(AtColumn(t, x));
      }
    }

    /* Every operation */

    method SetFields(op: Op)
      requires Valid(T()) && LeavesLines(op) && !MovesCursor(op)
      modifies this`ydisp, this`x, this`y, this`scrollTop,
          this`scrollBottom, this`tabs, this`curAttr, this`savedX, this`savedY
      ensures T() == Step(old(T()), op) && (Unshared() <==> old(Unshared())) && All() == old(All())
    {
      hide T, Valid, Step, Contents, Distinct;
      if op.BeginWrite? {
        ShowScreen();
      } else if op.ScrollDisp? {
        ScrollView(op.disp);
      } else if op.Stbm? {
        SetScrollRegion(op.p, op.q);
      } else if op.Tbc? {
        TabClear(op.n);
      } else {
        Remember(op);
      }
    }

    /** write starts by showing the screen. */
    method ShowScreen()
      requires Valid(T())
      modifies this`ydisp
      ensures T() == Step(old(T()), BeginWrite) && (Unshared() <==> old(Unshared()))
    {
      hide Valid, Contents, Distinct;
      if ybase != ydisp { ydisp := ybase; }
    }

    method ScrollView(disp: int)
      requires Valid(T())
      modifies this`ydisp
      ensures T() == Step(old(T()), Op.ScrollDisp(disp)) && (Unshared() <==> old(Unshared()))
    {
      ShapeParts(T());
      hide Valid, Contents, Distinct;
      ydisp := ydisp + disp;
      if ydisp > ybase { ydisp := ybase; } else if ydisp < 0 { ydisp := 0; }
    }

    method SetScrollRegion(p: nat, q: nat)
      requires Valid(T())
      modifies this`x, this`y, this`scrollTop, this`scrollBottom
      ensures T() == Step(old(T()), Stbm(p, q)) && (Unshared() <==> old(Unshared()))
    {
      RegionSet(T(), p, q);
      hide Valid, Contents, Distinct, Step;
      scrollTop := (if p == 0 then 1 else p) - 1;
      scrollBottom := (if q == 0 then rows else q) - 1;
      x, y := 0, 0;
    }

    method TabClear(n: nat)
      requires Valid(T())
      modifies this`tabs
      ensures T() == Step(old(T()), Tbc(n)) && (Unshared() <==> old(Unshared()))
    {
      hide Valid, Contents, Distinct;
      if n <= 0 { tabs := tabs - {x}; } else if n == 3 { tabs := {}; }
    }

    method Remember(op: Op)
      requires Valid(T()) && (op.SaveCursor? || op.TabSet? || op.Sgr?)
      modifies this`tabs, this`curAttr, this`savedX, this`savedY
      ensures T() == Step(old(T()), op) && (Unshared() <==> old(Unshared()))
    {
      hide Valid, Contents, Distinct;
      match op {
        case SaveCursor => savedX, savedY := x, y;
        case TabSet => tabs := tabs + {x};
        case Sgr(attr) => curAttr := attr;
      }
    }

    method LineFeed(reset: bool)
      requires Unshared() && Valid(T())
      modifies this
      ensures Unshared() && NoStrangers() && Valid(if reset then AtColumn(old(T()), 0) else old(T()))
      ensures T() == TermScreen.Index(if reset then AtColumn(old(T()), 0) else old(T()))
    {
      ShapeOf(T());
      Moved(T(), 0, y);
      hide Valid, Contents, Distinct, TermScreen.Index;
      if reset { x := 0; }
      Index();
    }

    /** What the terminal does with one operation. */
    method Do(op: Op)
      requires Unshared() && Valid(T())
      modifies this, Owned()
      ensures Unshared() && T() == Step(old(T()), op)
      ensures forall r :: r in All() ==> r in old(All()) || fresh(r)
    {
      hide T, Contents, Unshared, Distinct, Valid, Step, HeldRows;
      AllIs();
      if MovesCursor(op) {
        Cursor(op);
      } else if LeavesLines(op) {
        SetFields(op);
      } else if ChangesScreen(op) {
        DoScreen(op);
      } else if OverwritesCells(op) {
        DoCells(op);
      } else {
        DoLines(op);
      }
    }

    lemma AllIs()
      ensures forall r :: r in lines ==> r in Owned()
    {
    }

    method DoScreen(op: Op)
      requires Unshared() && Valid(T()) && ChangesScreen(op)
      modifies this, lines
      ensures Unshared() && T() == Step(old(T()), op)
      ensures forall r :: r in All() ==> r in old(All()) || fresh(r)
    {
      hide T, Contents, Unshared, Distinct, Valid, TermScreen.Reset,
          TermScreen.EnterAlternate, TermScreen.LeaveAlternate, TermScreen.Resize;
      ShapeOf(T());
      Fields();
      match op {
        case FullReset => Reset();
        case EnterAlt => EnterAlternate();
        case LeaveAlt => LeaveAlternate();
        case ResizeTo(x1, y1) => Resize(x1, y1);
      }
      Fields();
      ResizeDrops(op, T());
      HeldIs();
    }

    /** Whether the other screen is held. */
    lemma HeldIs()
      ensures T().normal.Screen? <==> normal.Held?
    {
    }

    method DoCells(op: Op)
      requires Unshared() && Valid(T()) && OverwritesCells(op)
      modifies lines
      ensures Unshared() && T() == Step(old(T()), op)
    {
      StepsCells(T(), op);
      hide T, Contents, Unshared, Distinct, Valid, TermScreen.EraseInDisplay,
          TermScreen.EraseInLine, InsertCells, DeleteCells, EraseCells,
        Step;
      ShapeOf(T());
      Fields();
      CellsAt(ybase + y);
      match op {
        case Ed(n) => EraseInDisplay(n);
        case El(n) => EraseInLine(n);
        case Ich(n) => InsertChars(n);
        case Dch(n) => DeleteChars(n);
        case Ech(n) => EraseChars(n);
      }
      StillUnshared();
    }

    method DoLines(op: Op)
      requires Unshared() && Valid(T()) && (Scrolling(op) || ShiftsLines(op))
      modifies this, lines
      ensures Unshared() && T() == Step(old(T()), op) && NoStrangers()
    {
      hide T, Contents, Unshared, Distinct, Valid, PutChar, Wrap,
          TermScreen.Index, TermScreen.ReverseIndex, TermScreen.InsertLines,
        TermScreen.DeleteLines, TermScreen.ScrollUp, TermScreen.ScrollDown;
      Converts();
      match op {
        case Print(ch) => Print(ch);
        case LineFeed => LineFeed(convertEol);
        case Ind => Index();
        case Nel => LineFeed(true);
        case Ri => ReverseIndex();
        case Il(n) => InsertLines(n);
        case Dl(n) => DeleteLines(n);
        case Su(n) => ScrollUp(n);
        case Sd(n) => ScrollDown(n);
      }
    }

    lemma Converts()
      ensures T().convertEol == convertEol
    {
    }

    /** A run: every state on the way has the shape of a buffer and shares no line. */
    method Play(ops: seq<Op>)
      requires Unshared() && Valid(T()) && Lawful(T(), ops)
      modifies this, Owned()
      ensures Unshared() && Valid(T()) && T() == Run(old(T()), ops)
      ensures forall r :: r in All() ==> r in old(All()) || fresh(r)
    {
      hide T, Contents, Unshared, Distinct, Valid, Step, Run, Lawful;
      var i := 0;
      assert ops[0..] == ops;
      while i < |ops|
        invariant 0 <= i <= |ops| && Unshared() && Valid(T())
            && Lawful(T(), ops[i..]) && Run(T(), ops[i..]) == Run(old(T()), ops)
        invariant forall r :: r in All() ==> r in old(All()) || fresh(r)
      {
        RunStep(T(), ops[i..]);
        assert ops[i..][1..] == ops[i + 1..];
        Do(ops[i]);
        i := i + 1;
      }
      assert ops[i..] == [];
      RunEnd(T());
    }

    constructor (rows: int, cols: int, scrollback: int, convertEol: bool)
      requires rows >= 1 && cols >= 1 && scrollback >= 2
      ensures Unshared() && Valid(T()) && (forall r :: r in All() ==> fresh(r))
      ensures T() == Term(FreshBuffer(rows, cols), rows, cols, scrollback, convertEol, DEF_ATTR, 0, 0, NoScreen)
    {
      this.rows, this.cols, this.scrollback, this.convertEol := rows, cols, scrollback, convertEol;
      ybase, ydisp, x, y, savedX, savedY, lines, tabs := 0, 0, 0, 0, 0, 0, [], {};
      scrollTop, scrollBottom, curAttr, normal := 0, rows - 1, DEF_ATTR, NotHeld;
      new;
      NewIsValid(rows, cols, scrollback, convertEol);
      hide Contents, TermScreen.Fill, Valid, EveryEighth;
      FreshLines();
      EighthStops(0);
    }
  }

  lemma TabsIs(t: Term, op: Op)
    requires Valid(t)
    ensures op.Tab? ==> Step(t, op).b.x == TermScreen.NextStop(t.b.tabs, t.b.x, t.cols) && Step(t, op).b.y == t.b.y
    ensures op.Cht? ==> Step(t, op).b.x == Forward(t, OrOne(op.n)).b.x && Step(t, op).b.y == t.b.y
    ensures op.Cbt? ==> Step(t, op).b.x == Backward(t, OrOne(op.n)).b.x && Step(t, op).b.y == t.b.y
    ensures AtColumn(t, t.b.x) == t
  {
    hide Valid, TermScreen.NextStop, TermScreen.PrevStop, Forward, Backward;
    if op.Cht? { ForwardKeeps(t, OrOne(op.n)); }
    if op.Cbt? { BackwardKeeps(t, OrOne(op.n)); }
  }

  lemma TabOnce(t: Term, n: nat)
    requires n > 0
    ensures Forward(t, n) == Forward(AtColumn(t, TermScreen.NextStop(t.b.tabs, t.b.x, t.cols)), n - 1)
    ensures Backward(t, n) == Backward(AtColumn(t, TermScreen.PrevStop(t.b.tabs, t.b.x, t.cols)), n - 1)
  {
    hide TermScreen.NextStop, TermScreen.PrevStop;
  }

  lemma TabNever(t: Term)
    ensures Forward(t, 0) == t && Backward(t, 0) == t
  {
  }

  lemma ResizeDrops(op: Op, t: Term)
    ensures op.ResizeTo? ==> forall u: Term :: Valid(u) && t == Step(u, op) ==> t.normal == NoScreen
  {
    hide Valid, Grown, Shrunk, Reshaped, TermScreen.SetupStops;
  }

  lemma ResetIs(t: Term)
    ensures TermScreen.Reset(t)
         == t.(b := Buffer(TermScreen.Fill(t.rows, TermScreen.Fill(t.cols, Blank(DEF_ATTR))),
             0, 0, 0, 0, 0, t.rows - 1, EveryEighth({}, 0, t.cols)),
               curAttr := DEF_ATTR, normal := NoScreen)
  {
    hide EveryEighth, TermScreen.Fill;
  }

  lemma FillAgain(n: nat, v: Line)
    ensures TermScreen.Fill(n + 1, v) == TermScreen.Fill(n, v) + [v] && TermScreen.Fill(0, v) == []
  {
  }

  /* The steps of a resize, as functions */

  ghost function PaddedFrom(t: Term, i: int, n: nat): Term {
    t.(b := t.b.(lines :=
        seq(|t.b.lines|, k requires 0 <= k < |t.b.lines| => if k >= i then Padded(t.b.lines[k], n) else t.b.lines[k])))
  }

  lemma NonePadded(t: Term, i: int, n: nat)
    requires i >= |t.b.lines|
    ensures PaddedFrom(t, i, n) == t
  {
    assert PaddedFrom(t, i, n).b.lines == t.b.lines;
  }

  lemma PaddedOne(t: Term, i: nat, n: nat)
    requires i < |t.b.lines|
    ensures var u := PaddedFrom(t, i + 1, n);
      |u.b.lines| == |t.b.lines|
          && PaddedFrom(t, i, n) == u.(b := u.b.(lines := u.b.lines[i := Padded(u.b.lines[i], n)]))
  {
    hide Padded;
    var u := PaddedFrom(t, i + 1, n);
    assert PaddedFrom(t, i, n).b.lines == u.b.lines[i := Padded(u.b.lines[i], n)];
  }

  lemma PadIs(line: Line, n: nat)
    ensures line + TermScreen.Fill(n - |line|, Blank(DEF_ATTR)) == Padded(line, n)
  {
  }

  ghost function CutFrom(t: Term, i: int, n: nat): Term {
    t.(b := t.b.(lines :=
        seq(|t.b.lines|, k requires 0 <= k < |t.b.lines| => if k >= i then Cut(t.b.lines[k], n) else t.b.lines[k])))
  }

  lemma NoneCut(t: Term, i: int, n: nat)
    requires i >= |t.b.lines|
    ensures CutFrom(t, i, n) == t
  {
    assert CutFrom(t, i, n).b.lines == t.b.lines;
  }

  lemma CutOne(t: Term, i: nat, n: nat)
    requires i < |t.b.lines|
    ensures var u := CutFrom(t, i + 1, n);
      |u.b.lines| == |t.b.lines| && CutFrom(t, i, n) == u.(b := u.b.(lines := u.b.lines[i := Cut(u.b.lines[i], n)]))
  {
    hide Cut;
    var u := CutFrom(t, i + 1, n);
    assert CutFrom(t, i, n).b.lines == u.b.lines[i := Cut(u.b.lines[i], n)];
  }

  ghost function Growing(t: Term, goal: int, n: nat): Term {
    t.(b := t.b.(lines := Grown(t.b.lines, goal, TermScreen.BlankLine(t, false), n)))
  }

  lemma GrowsOnce(t: Term, goal: int, n: nat)
    requires n > 0
    ensures Growing(t, goal, n)
         == Growing(
             if |t.b.lines| < goal then t.(b := t.b.(lines := t.b.lines + [TermScreen.BlankLine(t, false)])) else t,
             goal, n - 1)
  {
    hide TermScreen.Fill;
  }

  lemma GrowsNever(t: Term, goal: int)
    ensures Growing(t, goal, 0) == t
  {
  }

  lemma InsertsLast(t: Term)
    ensures Inserting(t, |t.b.lines|, TermScreen.BlankLine(t, false))
        == t.(b := t.b.(lines := t.b.lines + [TermScreen.BlankLine(t, false)]))
  {
  }

  ghost function Shrinking(t: Term, goal: int, n: nat): Term {
    t.(b := t.b.(lines := Shrunk(t.b.lines, goal, n)))
  }

  lemma ShrinksOnce(t: Term, goal: int, n: nat)
    requires n > 0
    ensures Shrinking(t, goal, n)
         == Shrinking(
             if |t.b.lines| > goal && |t.b.lines| > 0 then t.(b := t.b.(lines := t.b.lines[..|t.b.lines| - 1])) else t,
             goal, n - 1)
  {
  }

  lemma ShrinksNever(t: Term, goal: int)
    ensures Shrinking(t, goal, 0) == t
  {
  }

  lemma RemovesLast(t: Term)
    requires |t.b.lines| > 0
    ensures Removing(t, |t.b.lines| - 1) == t.(b := t.b.(lines := t.b.lines[..|t.b.lines| - 1]))
  {
  }

  ghost function Reshaping(t: Term, x: nat): Term {
    t.(b := t.b.(lines := Reshaped(t.b.lines, t.cols, x)))
  }

  lemma ReshapedCases(t: Term, x: nat)
    ensures t.cols < x ==> PaddedFrom(t, 0, x) == Reshaping(t, x)
    ensures t.cols > x ==> CutFrom(t, 0, x) == Reshaping(t, x)
    ensures t.cols == x ==> t == Reshaping(t, x)
  {
    hide Padded, Cut;
    if t.cols < x { assert PaddedFrom(t, 0, x).b.lines == Reshaping(t, x).b.lines; }
    if t.cols > x { assert CutFrom(t, 0, x).b.lines == Reshaping(t, x).b.lines; }
    if t.cols == x { assert t.b.lines == Reshaping(t, x).b.lines; }
  }

  /** The new columns, before the rows change. */
  ghost function Reshaped2(t: Term, x: nat): Term {
    var u := Reshaping(t, x);
    u.(b := u.b.(tabs := TermScreen.SetupStops(t.b.tabs, t.cols, t.cols)), cols := x)
  }

  ghost function Settled(t: Term, x: int, y: int): Term {
    t.(rows := y, normal := NoScreen,
       b := t.b.(top := 0, bottom := y - 1,
           y := if t.b.y >= y then y - 1 else t.b.y, x := if t.b.x >= x then x - 1 else t.b.x))
  }

  lemma ResizeSteps(t: Term, x0: int, y0: int, x: nat, y: nat)
    requires x == AtLeast1(x0) && y == AtLeast1(y0)
    ensures var u := Reshaped2(t, x);
      var w := if u.rows < y then Growing(u, y + u.b.ybase, y - u.rows)
               else if u.rows > y then Shrinking(u, y + u.b.ybase, u.rows - y) else u;
      u.rows == t.rows && u.b.ybase == t.b.ybase && TermScreen.Resize(t, x0, y0) == Settled(w, x, y)
  {
    hide Reshaped, Grown, Shrunk, TermScreen.Fill, TermScreen.SetupStops;
  }

  lemma RegionSet(t: Term, p: nat, q: nat)
    requires Valid(t)
    ensures Step(t, Stbm(p, q))
         == t.(b := t.b.(top := (if p == 0 then 1 else p) - 1,
             bottom := (if q == 0 then t.rows else q) - 1, x := 0, y := 0))
  {
    hide Valid;
  }

  lemma EraserIs(t: Term)
    ensures DEF_ATTR / 512 * 512 + t.curAttr % 512 >= 0 && SPACE >= 0
    ensures Eraser(t) == Blank(DEF_ATTR / 512 * 512 + t.curAttr % 512)
  {
  }

  lemma WithLineIs(t: Term, y: int, line: Line)
    requires 0 <= t.b.ybase + y < |t.b.lines|
    ensures WithLine(t, y, line) == t.(b := t.b.(lines := t.b.lines[t.b.ybase + y := line]))
  {
  }

  lemma OnLineIs(t: Term, line: Line)
    requires Valid(t)
    ensures 0 <= t.b.ybase + t.b.y < |t.b.lines| && OnLine(t, line) == WithLine(t, t.b.y, line)
  {
    ShapeOf(t);
  }

  lemma CurLineIs(t: Term, n: int)
    requires 0 <= t.b.ybase + t.b.y < |t.b.lines|
    ensures CurLine(t) == t.b.lines[t.b.ybase + t.b.y] && AtLeast1(n) == if n < 1 then 1 else n
  {
  }

  lemma CellsPutIs(t: Term, ch: nat)
    requires CanPut(t)
    ensures 0 <= t.b.x < t.cols && 0 <= t.b.ybase + t.b.y < |t.b.lines|
    ensures var x, line, space := t.b.x, t.b.lines[t.b.ybase + t.b.y], Glyph(t.curAttr, SPACE);
      && |line| >= t.cols
      && CellsPut(t, ch) == if !IsWide(ch) then line[x := Glyph(t.curAttr, ch)]
                            else if t.cols < 2 || x + 1 >= t.cols then line[x := space]
                            else line[x := Glyph(t.curAttr, ch)][x + 1 := space]
    ensures var x, line, space := t.b.x, t.b.lines[t.b.ybase + t.b.y], Glyph(t.curAttr, SPACE);
      line[x := Glyph(t.curAttr, ch)][x := space] == line[x := space]
  {
  }

  /** The cursor's line with a character put into it. */
  ghost function CellsPut(t: Term, ch: nat): Line
    requires CanPut(t)
  {
    var x, line, space := t.b.x, CurLine(t), Glyph(t.curAttr, SPACE);
    if !IsWide(ch) then line[x := Glyph(t.curAttr, ch)]
    else if t.cols < 2 || x + 1 >= t.cols then line[x := space]
    else line[x := Glyph(t.curAttr, ch)][x + 1 := space]
  }

  lemma CurrentIn(rows: seq<Row>, k: int)
    ensures 0 <= k < |rows| ==> rows[k] in rows
  {
  }

  lemma OwnIndex(rows: seq<Row>, others: seq<Row>, k: nat)
    requires Distinct(rows + others) && k < |rows|
    ensures forall i :: 0 <= i < |rows| && i != k ==> rows[i] != rows[k]
    ensures forall i :: 0 <= i < |rows| ==> rows[i] in rows + others
    ensures forall i :: 0 <= i < |others| ==> others[i] != rows[k] && others[i] in rows + others
  {
    var s := rows + others;
    forall i | 0 <= i < |rows|
      ensures rows[i] in s && (i != k ==> rows[i] != rows[k])
    {
      assert s[i] == rows[i] && s[k] == rows[k];
    }
    forall i | 0 <= i < |others|
      ensures others[i] != rows[k] && others[i] in s
    {
      assert s[|rows| + i] == others[i] && s[k] == rows[k];
    }
  }

  lemma LineLength(t: Term, k: int)
    requires Valid(t)
    ensures 0 <= k < |t.b.lines| ==> |t.b.lines[k]| >= t.cols
    ensures |t.b.lines| == t.b.ybase + t.rows && t.b.ybase >= 0
  {
  }

  lemma OneErased(t: Term, y: nat)
    requires Valid(t) && y < t.rows
    ensures 0 <= t.b.ybase + y < |t.b.lines| && |t.b.lines[t.b.ybase + y]| >= t.cols
    ensures EraseRows(t, y, y + 1) == WithLine(t, y, ErasedRight(t.b.lines[t.b.ybase + y], 0, t.cols, Eraser(t)))
  {
    hide ErasedRight;
  }

  lemma ErasedValid(t: Term, lo: int, hi: int)
    requires Valid(t)
    ensures Valid(EraseRows(t, lo, hi))
  {
    hide ErasedRight, LinesFit;
    EraseRowsKeeps(t, lo, hi);
  }

  lemma DisplayCases(t: Term, n: int)
    requires Valid(t)
    ensures Valid(TermScreen.EraseInLine(t, n)) && 0 <= t.b.y < t.rows
    ensures n == 0 ==> TermScreen.EraseInDisplay(t, n) == EraseRows(TermScreen.EraseInLine(t, 0), t.b.y + 1, t.rows)
    ensures n == 1 ==> TermScreen.EraseInDisplay(t, n) == EraseRows(TermScreen.EraseInLine(t, 1), 0, t.b.y)
    ensures n == 2 ==> TermScreen.EraseInDisplay(t, n) == EraseRows(t, 0, t.rows)
    ensures n != 0 && n != 1 && n != 2 ==> TermScreen.EraseInDisplay(t, n) == t
  {
    hide *;
    EraseInLineKeeps(t, n);
    ShapeOf(t);
    DisplayIs(t, n);
    if n == 0 {
      ErasedValid(t, t.b.y + 1, t.rows);
      EraseSwaps(t, 0, t.b.y + 1, t.rows);
    } else if n == 1 {
      ErasedValid(t, 0, t.b.y);
      EraseSwaps(t, 1, 0, t.b.y);
    }
  }

  lemma DisplayIs(t: Term, n: int)
    requires Valid(t)
    ensures n == 0 && Valid(EraseRows(t, t.b.y + 1, t.rows)) ==>
      TermScreen.EraseInDisplay(t, n) == TermScreen.EraseInLine(EraseRows(t, t.b.y + 1, t.rows), 0)
    ensures n == 1 && Valid(EraseRows(t, 0, t.b.y))
        ==> TermScreen.EraseInDisplay(t, n) == TermScreen.EraseInLine(EraseRows(t, 0, t.b.y), 1)
    ensures n == 2 ==> TermScreen.EraseInDisplay(t, n) == EraseRows(t, 0, t.rows)
    ensures n != 0 && n != 1 && n != 2 ==> TermScreen.EraseInDisplay(t, n) == t
  {
    hide Valid, TermScreen.EraseInLine, EraseRows;
  }

  lemma NoneErased(t: Term, j: int)
    requires Valid(t)
    ensures EraseRows(t, j, j) == t
  {
    assert EraseRows(t, j, j).b.lines == t.b.lines;
  }

  lemma MoreErased(t: Term, lo: nat, mid: nat, hi: nat)
    requires Valid(t) && lo <= mid <= hi && Valid(EraseRows(t, lo, mid))
    ensures EraseRows(EraseRows(t, lo, mid), mid, hi) == EraseRows(t, lo, hi)
  {
    hide ErasedRight, LinesFit;
    assert EraseRows(EraseRows(t, lo, mid), mid, hi).b.lines == EraseRows(t, lo, hi).b.lines;
  }

  lemma FewerErased(t: Term, j: nat, hi: nat)
    requires Valid(t) && j < hi && Valid(EraseRows(t, j + 1, hi))
    ensures EraseRows(EraseRows(t, j + 1, hi), j, j + 1) == EraseRows(t, j, hi)
  {
    hide ErasedRight, LinesFit;
    assert EraseRows(EraseRows(t, j + 1, hi), j, j + 1).b.lines == EraseRows(t, j, hi).b.lines;
  }

  /** Erasing in the cursor's line and erasing other lines can be done in either order. */
  lemma EraseSwaps(t: Term, n: int, lo: nat, hi: nat)
    requires Valid(t) && (t.b.y < lo || hi <= t.b.y)
        && Valid(EraseRows(t, lo, hi)) && Valid(TermScreen.EraseInLine(t, n))
    ensures EraseRows(TermScreen.EraseInLine(t, n), lo, hi) == TermScreen.EraseInLine(EraseRows(t, lo, hi), n)
  {
    ShapeOf(t);
    SameCurrent(t, lo, hi);
    hide ErasedRight, ErasedLeft, Valid, EraseRows;
    if n == 0 {
      LineSwaps(t, lo, hi, ErasedRight(CurLine(t), t.b.x, t.cols, Eraser(t)));
    } else if n == 1 {
      LineSwaps(t, lo, hi, ErasedLeft(CurLine(t), t.b.x, Eraser(t)));
    } else if n == 2 {
      LineSwaps(t, lo, hi, ErasedRight(CurLine(t), 0, t.cols, Eraser(t)));
    }
  }

  lemma SameCurrent(t: Term, lo: nat, hi: nat)
    requires Valid(t) && (t.b.y < lo || hi <= t.b.y)
    ensures EraseRows(t, lo, hi) == t.(b := t.b.(lines := EraseRows(t, lo, hi).b.lines))
        && |EraseRows(t, lo, hi).b.lines| == |t.b.lines|
    ensures 0 <= t.b.ybase + t.b.y < |t.b.lines| && CurLine(EraseRows(t, lo, hi)) == CurLine(t)
  {
    hide ErasedRight;
  }

  lemma LineSwaps(t: Term, lo: nat, hi: nat, line: Line)
    requires Valid(t) && (t.b.y < lo || hi <= t.b.y) && |line| >= t.cols
    ensures 0 <= t.b.ybase + t.b.y < |t.b.lines| == |EraseRows(t, lo, hi).b.lines|
        && EraseRows(t, lo, hi).b.ybase == t.b.ybase
    ensures Valid(WithLine(t, t.b.y, line))
    ensures EraseRows(WithLine(t, t.b.y, line), lo, hi) == WithLine(EraseRows(t, lo, hi), t.b.y, line)
  {
    LineFits(t, t.b.y, line);
    hide ErasedRight, Valid;
    assert EraseRows(WithLine(t, t.b.y, line), lo, hi).b.lines == WithLine(EraseRows(t, lo, hi), t.b.y, line).b.lines;
  }

  ghost function SplicedTimes(t: Term, i: nat, j: nat, n: nat, cur: bool): Term {
    t.(b := t.b.(lines := InsertRemove(t.b.lines, i, j, TermScreen.BlankLine(t, cur), n)))
  }

  lemma WithLinesAgain(t: Term)
    ensures t == t.(b := t.b.(lines := t.b.lines))
  {
  }

  lemma SplicedOnce(t: Term, i: nat, j: nat, n: nat, cur: bool)
    requires n > 0
    ensures SplicedTimes(t, i, j, n, cur)
         == SplicedTimes(Removing(Inserting(t, i, TermScreen.BlankLine(t, cur)), j), i, j, n - 1, cur)
  {
    hide InsertAt, RemoveAt, TermScreen.Fill;
  }

  lemma SplicedNever(t: Term, i: nat, j: nat, cur: bool)
    ensures SplicedTimes(t, i, j, 0, cur) == t
  {
  }

  ghost function ReplacedTimes(t: Term, i: nat, j: nat, n: nat): Term {
    t.(b := t.b.(lines := RemoveInsert(t.b.lines, i, j, TermScreen.BlankLine(t, false), n)))
  }

  lemma ReplacedOnce(t: Term, i: nat, j: nat, n: nat)
    requires n > 0
    ensures ReplacedTimes(t, i, j, n)
         == ReplacedTimes(Inserting(Removing(t, i), j, TermScreen.BlankLine(Removing(t, i), false)), i, j, n - 1)
  {
    hide InsertAt, RemoveAt, TermScreen.Fill;
  }

  lemma ReplacedNever(t: Term, i: nat, j: nat)
    ensures ReplacedTimes(t, i, j, 0) == t
  {
  }

  lemma RowAgain(t: Term, y: int)
    ensures AtRow(AtRow(t, y), t.b.y) == t
  {
  }

  lemma ReverseIndexIs(t: Term)
    requires Valid(t)
    ensures t.b.y - 1 >= t.b.top ==> TermScreen.ReverseIndex(t) == AtRow(t, t.b.y - 1)
    ensures t.b.y - 1 < t.b.top ==>
      TermScreen.ReverseIndex(t)
          == Removing(Inserting(t, t.b.y + t.b.ybase, TermScreen.BlankLine(t, true)), t.b.ybase + t.b.bottom + 1)
  {
    hide InsertAt, RemoveAt, TermScreen.BlankLine, LinesFit;
  }

  /* The steps of scroll, as functions */

  function Inserting(t: Term, i: nat, line: Line): Term {
    t.(b := t.b.(lines := InsertAt(t.b.lines, i, line)))
  }

  function Removing(t: Term, i: nat): Term {
    t.(b := t.b.(lines := RemoveAt(t.b.lines, i)))
  }

  function Keeping(t: Term, n: nat): Term {
    t.(b := t.b.(lines := Last(t.b.lines, n)))
  }

  function AtBase(t: Term, ybase: int): Term {
    t.(b := t.b.(ybase := ybase))
  }

  function Advanced(t: Term): Term
    requires t.b.ybase >= 0 && t.rows >= 1
  {
    var n := t.b.ybase + 1;
    var u := if n == t.scrollback then Keeping(AtBase(t, n / 2), n / 2 + t.rows - 1) else AtBase(t, n);
    u.(b := u.b.(ydisp := u.b.ybase))
  }

  function SteppedBack(t: Term): Term {
    if t.b.ybase != 0 then t.(b := t.b.(ybase := t.b.ybase - 1, ydisp := t.b.ybase - 1)) else t
  }

  lemma AdvancedKeeps(t: Term)
    requires t.b.ybase >= 0 && t.rows >= 1
    ensures var u := Advanced(t);
      u.b.ybase >= 0 && u.b.ydisp == u.b.ybase && u.rows == t.rows
          && u.cols == t.cols && u.b.top == t.b.top && u.b.bottom == t.b.bottom
  {
    hide Last;
  }

  lemma AdvancedIs(t: Term)
    requires t.b.ybase >= 0 && t.rows >= 1
    ensures var n := t.b.ybase + 1;
      && (n == t.scrollback ==> Advanced(t) == Keeping(AtBase(t, n / 2), n / 2 + t.rows - 1).(b :=
                                   Keeping(AtBase(t, n / 2), n / 2 + t.rows - 1).b.(ydisp := n / 2)))
      && (n != t.scrollback ==> Advanced(t) == AtBase(t, n).(b := AtBase(t, n).b.(ydisp := n)))
  {
  }

  lemma InsertingKeeps(t: Term, i: nat, line: Line)
    ensures var u := Inserting(t, i, line);
      u == t.(b := t.b.(lines := u.b.lines)) && u.b.ybase == t.b.ybase && u.b.top == t.b.top
  {
  }

  lemma ScrollSteps(t: Term, t1: Term, t2: Term)
    requires t.b.ybase >= 0 && t.rows >= 1 && t.b.top >= 0 && t.b.bottom >= 0 && t1 == Advanced(t)
    requires t1.b.ybase >= 0 && t2 == Inserting(t1, t1.b.ybase + t.b.bottom, TermScreen.BlankLine(t1, false))
    ensures t.b.top == 0 ==> TermScreen.Scroll(t) == t2
    ensures t.b.top != 0 ==>
      var y := if t1.b.ybase != 0 then t1.b.ybase - 1 else 0;
      TermScreen.Scroll(t) == Removing(SteppedBack(t2), y + t.b.top)
  {
    hide InsertAt, RemoveAt, Last, TermScreen.Fill;
  }

  lemma DistinctParts(a: seq<Row>, b: seq<Row>)
    ensures Distinct(a + b) <==> Distinct(a) && Distinct(b) && forall r :: r in a ==> r !in b
  {
    var s := a + b;
    if Distinct(s) {
      forall i, j | 0 <= i < j < |a| ensures a[i] != a[j] { assert s[i] == a[i] && s[j] == a[j]; }
      forall i, j | 0 <= i < j < |b| ensures b[i] != b[j] { assert s[|a| + i] == b[i] && s[|a| + j] == b[j]; }
      forall r | r in a ensures r !in b {
        var i :| 0 <= i < |a| && a[i] == r;
        assert s[i] == r;
        forall j | 0 <= j < |b| ensures b[j] != r { assert s[|a| + j] == b[j]; }
      }
    }
    if Distinct(a) && Distinct(b) && forall r :: r in a ==> r !in b {
      forall i, j | 0 <= i < j < |s| ensures s[i] != s[j] {
        if i < |a| <= j { assert s[i] in a && s[j] in b; }
      }
    }
  }
}
