/** The terminal's buffer: one array of lines that holds both the history and the screen, and the
    operations that splice it and overwrite its cells, as functions. They are the specification
    of the methods of module Terminal. */
module TermScreen {
  import opened Numbers

  const SPACE := 32

  /** No flags, and the default colours. */
  const DEF_ATTR := 257 * 512 + 256

  datatype Glyph = Glyph(attr: nat, ch: nat)

  type Line = seq<Glyph>

  /** What switching to the alternate screen puts aside. */
  datatype Buffer = Buffer(lines: seq<Line>, ybase: int, ydisp: int,
      x: int, y: int, top: int, bottom: int, tabs: set<int>)

  datatype Saved = NoScreen | Screen(b: Buffer)

  datatype Term = Term(
    b: Buffer, rows: int, cols: int, scrollback: int, convertEol: bool,
        curAttr: nat, savedX: int, savedY: int, normal: Saved)

  /* Arrays */

  /** splice(i, 0, v). */
  function InsertAt<T>(s: seq<T>, i: nat, v: T): (r: seq<T>)
    ensures |r| == |s| + 1
  {
    if i >= |s| then s + [v] else s[..i] + [v] + s[i..]
  }

  /** splice(i, 1). */
  function RemoveAt<T>(s: seq<T>, i: nat): (r: seq<T>)
    ensures |r| == |s| - if i < |s| then 1 else 0
  {
    if i >= |s| then s else s[..i] + s[i + 1..]
  }

  /** slice(-n), which is everything if n is 0. */
  function Last<T>(s: seq<T>, n: nat): seq<T> {
    if n == 0 || n >= |s| then s else s[|s| - n..]
  }

  function Fill<T>(n: int, v: T): (r: seq<T>)
    ensures |r| == (if n > 0 then n else 0) && forall i :: 0 <= i < |r| ==> r[i] == v
  {
    if n <= 0 then [] else seq(n, _ => v)
  }

  /* Lines */

  function Blank(attr: nat): Glyph {
    Glyph(attr, SPACE)
  }

  /** Back colour erase: the background of the current attribute. */
  function EraseAttr(t: Term): nat {
    DEF_ATTR / 512 * 512 + t.curAttr % 512
  }

  function BlankLine(t: Term, cur: bool): (r: Line)
    ensures t.cols >= 0 ==> |r| == t.cols
  {
    Fill(t.cols, Blank(if cur then EraseAttr(t) else DEF_ATTR))
  }

  function AtLeast1(n: int): (r: int)
    ensures r >= 1
  {
    if n < 1 then 1 else n
  }

  predicate LinesFit(lines: seq<Line>, cols: int) {
    forall i :: 0 <= i < |lines| ==> |lines[i]| >= cols
  }

  /** The buffer invariant. The margins lie on the screen, in any order. */
  predicate Shape(b: Buffer, rows: int, cols: int, scrollback: int) {
    && |b.lines| == b.ybase + rows && 0 <= b.ydisp <= b.ybase < scrollback
    && 0 <= b.y < rows && 0 <= b.x && 0 <= b.top < rows && 0 <= b.bottom < rows
    && cols >= 1 && LinesFit(b.lines, cols)
  }

  predicate Valid(t: Term) {
    && t.scrollback >= 2 && Shape(t.b, t.rows, t.cols, t.scrollback) && t.savedX >= 0 && t.savedY >= 0
    && (t.normal.Screen? ==> Shape(t.normal.b, t.rows, t.cols, t.scrollback))
  }

  /* Scrolling */

  /** What operations need that only splice lines: a margin, or the cursor, may be off the screen. */
  predicate Splicing(t: Term) {
    t.b.ybase >= 0 && t.b.y >= 0 && t.b.top >= 0 && t.b.bottom >= 0 && t.rows >= 1
  }

  function Scroll(t: Term): Term
    requires t.b.ybase >= 0 && t.rows >= 1 && 0 <= t.b.top && 0 <= t.b.bottom
  {
    var b := t.b;
    var full := b.ybase + 1 == t.scrollback;
    var ybase := if full then (b.ybase + 1) / 2 else b.ybase + 1;
    var lines := InsertAt(if full then Last(b.lines, ybase + t.rows - 1) else b.lines,
        ybase + b.bottom, BlankLine(t, false));
    if b.top == 0 then t.(b := b.(lines := lines, ybase := ybase, ydisp := ybase))
    else
      var ybase' := if ybase != 0 then ybase - 1 else ybase;
      t.(b := b.(lines := RemoveAt(lines, ybase' + b.top), ybase := ybase', ydisp := ybase'))
  }

  /** Line feed and IND: below the bottom margin, too, the region scrolls. */
  function Index(t: Term): Term
    requires Valid(t) || Splicing(t)
  {
    if t.b.y + 1 > t.b.bottom then Scroll(t) else t.(b := t.b.(y := t.b.y + 1))
  }

  function ReverseIndex(t: Term): Term
    requires Valid(t) || Splicing(t)
  {
    var b := t.b;
    if b.y - 1 < b.top then t.(b :=
        b.(lines := RemoveAt(InsertAt(b.lines, b.y + b.ybase, BlankLine(t, true)), b.ybase + b.bottom + 1)))
    else t.(b := b.(y := b.y - 1))
  }

  /** A line inserted at row and one removed at j, n times. */
  function InsertRemove(lines: seq<Line>, row: nat, j: nat, blank: Line, n: nat): seq<Line>
    decreases n
  {
    if n == 0 then lines else InsertRemove(RemoveAt(InsertAt(lines, row, blank), j), row, j, blank, n - 1)
  }

  /** A line removed at row and one inserted at j, n times. */
  function RemoveInsert(lines: seq<Line>, row: nat, j: nat, blank: Line, n: nat): seq<Line>
    decreases n
  {
    if n == 0 then lines else RemoveInsert(InsertAt(RemoveAt(lines, row), j, blank), row, j, blank, n - 1)
  }

  function InsertLines(t: Term, n: int): Term
    requires Valid(t) || Splicing(t)
  {
    t.(b := t.b.(lines :=
        InsertRemove(t.b.lines, t.b.y + t.b.ybase, t.b.ybase + t.b.bottom + 1, BlankLine(t, true), AtLeast1(n))))
  }

  function DeleteLines(t: Term, n: int): Term
    requires Valid(t) || Splicing(t)
  {
    t.(b := t.b.(lines :=
        InsertRemove(t.b.lines, t.b.ybase + t.b.bottom + 1, t.b.y + t.b.ybase, BlankLine(t, true), AtLeast1(n))))
  }

  /** A missing or zero parameter of SU, SD, CHT and CBT means 1. */
  function OrOne(n: nat): (r: nat)
    ensures r >= 1
  {
    if n == 0 then 1 else n
  }

  function ScrollUp(t: Term, n: nat): Term
    requires Valid(t) || Splicing(t)
  {
    t.(b := t.b.(lines :=
        RemoveInsert(t.b.lines, t.b.ybase + t.b.top, t.b.ybase + t.b.bottom, BlankLine(t, false), OrOne(n))))
  }

  function ScrollDown(t: Term, n: nat): Term
    requires Valid(t) || Splicing(t)
  {
    t.(b := t.b.(lines :=
        RemoveInsert(t.b.lines, t.b.ybase + t.b.bottom, t.b.ybase + t.b.top, BlankLine(t, false), OrOne(n))))
  }

  /* Cells */

  function WithLine(t: Term, y: int, line: Line): Term
    requires 0 <= t.b.ybase + y < |t.b.lines|
  {
    t.(b := t.b.(lines := t.b.lines[t.b.ybase + y := line]))
  }

  function CurLine(t: Term): Line
    requires 0 <= t.b.ybase + t.b.y < |t.b.lines|
  {
    t.b.lines[t.b.ybase + t.b.y]
  }

  predicate IsWide(ch: nat) {
    ch > 0xff00 &&
    (0xff01 <= ch <= 0xffbe || 0xffc2 <= ch <= 0xffc7 || 0xffca <= ch <= 0xffcf || 0xffd2 <= ch <= 0xffd7
     || 0xffda <= ch <= 0xffdc || 0xffe0 <= ch <= 0xffe6 || 0xffe8 <= ch <= 0xffee)
  }

  /** The cursor goes to the start of the next line if it is behind the last column. */
  function Wrap(t: Term): Term
    requires Valid(t)
  {
    if t.b.x >= t.cols then Index(t.(b := t.b.(x := 0))) else t
  }

  function AtColumn(t: Term, x: int): Term {
    t.(b := t.b.(x := x))
  }

  function AtRow(t: Term, y: int): Term {
    t.(b := t.b.(y := y))
  }

  /** A character at the cursor, which is on the screen; the second column of a wide one is a
      space, and one that does not fit becomes a space. */
  function PutChar(t: Term, ch: nat): Term
    requires 0 <= t.b.x < t.cols && 0 <= t.b.ybase + t.b.y < |t.b.lines| && |CurLine(t)| >= t.cols
  {
    var x, line, space := t.b.x, CurLine(t), Glyph(t.curAttr, SPACE);
    if !IsWide(ch) then AtColumn(WithLine(t, t.b.y, line[x := Glyph(t.curAttr, ch)]), x + 1)
    else if t.cols < 2 || x + 1 >= t.cols then AtColumn(WithLine(t, t.b.y, line[x := space]), x + 1)
    else AtColumn(WithLine(t, t.b.y, line[x := Glyph(t.curAttr, ch)][x + 1 := space]), x + 2)
  }

  /** n blanks are inserted at column j, and as many cells fall off the end. */
  function InsertCells(line: Line, j: nat, n: nat, cols: int, blank: Glyph): (r: Line)
    ensures |r| == |line|
    decreases n
  {
    if n == 0 || j >= cols then line
    else var longer := InsertAt(line, j, blank); InsertCells(longer[..|line|], j + 1, n - 1, cols, blank)
  }

  /** n times, the cell at column x is removed and a blank appended. */
  function DeleteCells(line: Line, x: nat, n: nat, blank: Glyph): Line
    decreases n
  {
    if n == 0 then line else DeleteCells(RemoveAt(line, x) + [blank], x, n - 1, blank)
  }

  function EraseCells(line: Line, j: nat, n: nat, cols: int, blank: Glyph): (r: Line)
    requires |line| >= cols
    ensures |r| == |line|
    decreases n
  {
    if n == 0 || j >= cols then line else EraseCells(line[j := blank], j + 1, n - 1, cols, blank)
  }

  /** Columns x up to the last. */
  function ErasedRight(line: Line, x: nat, cols: int, blank: Glyph): (r: Line)
    requires |line| >= cols
    ensures |r| == |line| && forall i :: 0 <= i < |line| ==> r[i] == if x <= i < cols then blank else line[i]
  {
    seq(|line|, i requires 0 <= i < |line| => if x <= i < cols then blank else line[i])
  }

  /** Columns 0 up to x: a line that is shorter grows. */
  function ErasedLeft(line: Line, x: nat, blank: Glyph): (r: Line)
    ensures |r| == (if x + 1 > |line| then x + 1 else |line|)
    ensures forall i :: 0 <= i < |r| ==> r[i] == if i <= x then blank else line[i]
  {
    Fill(x + 1, blank) + if x + 1 < |line| then line[x + 1..] else []
  }

  function Eraser(t: Term): Glyph {
    Blank(EraseAttr(t))
  }

  function OnLine(t: Term, line: Line): Term
    requires Valid(t)
  {
    WithLine(t, t.b.y, line)
  }

  /** Lines lo up to hi of the screen are erased. */
  function EraseRows(t: Term, lo: int, hi: int): (r: Term)
    requires Valid(t)
  {
    var n := |t.b.lines|;
    t.(b := t.b.(lines := seq(n, i requires 0 <= i < n =>
      if t.b.ybase + lo <= i < t.b.ybase + hi then ErasedRight(t.b.lines[i], 0, t.cols, Eraser(t)) else t.b.lines[i])))
  }

  function EraseInLine(t: Term, n: int): Term
    requires Valid(t)
  {
    if n == 0 then OnLine(t, ErasedRight(CurLine(t), t.b.x, t.cols, Eraser(t)))
    else if n == 1 then OnLine(t, ErasedLeft(CurLine(t), t.b.x, Eraser(t)))
    else if n == 2 then OnLine(t, ErasedRight(CurLine(t), 0, t.cols, Eraser(t)))
    else t
  }

  function EraseInDisplay(t: Term, n: int): Term
    requires Valid(t)
  {
    if n == 0 then EraseInLine(EraseRows(t, t.b.y + 1, t.rows), 0)
    else if n == 1 then EraseInLine(EraseRows(t, 0, t.b.y), 1)
    else if n == 2 then EraseRows(t, 0, t.rows)
    else t
  }

  /* Tab stops */

  function NextStop(tabs: set<int>, x: int, cols: int): (r: int)
    decreases if cols > x then cols - x else 0
  {
    if x + 1 !in tabs && x + 1 < cols then NextStop(tabs, x + 1, cols)
    else if x + 1 >= cols then cols - 1 else if x + 1 < 0 then 0 else x + 1
  }

  /** The stop in front of x, before it is clipped to the screen. */
  function StopBefore(tabs: set<int>, x: int): (r: int)
    decreases if x > 0 then x else 0
  {
    if x - 1 !in tabs && x - 1 > 0 then StopBefore(tabs, x - 1) else x - 1
  }

  function PrevStop(tabs: set<int>, x: int, cols: int): int {
    var p := StopBefore(tabs, x);
    if p >= cols then cols - 1 else if p < 0 then 0 else p
  }

  /** A stop at i and at every eighth column after it. */
  function EveryEighth(tabs: set<int>, i: int, cols: int): set<int>
    decreases if cols > i then cols - i else 0
  {
    if i >= cols then tabs else EveryEighth(tabs + {i}, i + 8, cols)
  }

  /** setupStops(i), where cols is the number of columns at the time. */
  function SetupStops(tabs: set<int>, i: int, cols: int): set<int> {
    EveryEighth(tabs, if i !in tabs then PrevStop(tabs, i, cols) else i, cols)
  }

  function Forward(t: Term, n: nat): Term
    decreases n
  {
    if n == 0 then t else Forward(AtColumn(t, NextStop(t.b.tabs, t.b.x, t.cols)), n - 1)
  }

  function Backward(t: Term, n: nat): Term
    decreases n
  {
    if n == 0 then t else Backward(AtColumn(t, PrevStop(t.b.tabs, t.b.x, t.cols)), n - 1)
  }

  /* Resizing */

  function Padded(line: Line, n: int): (r: Line)
    ensures |r| >= n && |r| >= |line| && r[..|line|] == line
  {
    line + Fill(n - |line|, Blank(DEF_ATTR))
  }

  function Cut(line: Line, n: nat): Line {
    if |line| > n then line[..n] else line
  }

  /** Every line gets x columns more or less; on shrinking, none is longer afterwards. */
  function Reshaped(lines: seq<Line>, cols: int, x: nat): (r: seq<Line>)
    ensures |r| == |lines|
    ensures forall i ::
        0 <= i < |lines| ==>
          r[i] == if cols < x then Padded(lines[i], x) else if cols > x then Cut(lines[i], x) else lines[i]
  {
    seq(|lines|, i requires 0 <= i < |lines| =>
      if cols < x then Padded(lines[i], x) else if cols > x then Cut(lines[i], x) else lines[i])
  }

  /** n times, a line is added unless there are `goal` already. */
  function Grown(lines: seq<Line>, goal: int, blank: Line, n: nat): seq<Line>
    decreases n
  {
    if n == 0 then lines else Grown(if |lines| < goal then lines + [blank] else lines, goal, blank, n - 1)
  }

  /** n times, the last line is dropped unless there are no more than `goal`. */
  function Shrunk(lines: seq<Line>, goal: int, n: nat): seq<Line>
    decreases n
  {
    if n == 0 then lines else Shrunk(if |lines| > goal && |lines| > 0 then lines[..|lines| - 1] else lines, goal, n - 1)
  }

  function Resize(t: Term, x0: int, y0: int): Term {
    var x, y := AtLeast1(x0), AtLeast1(y0);
    var b := t.b;
    var lines := Reshaped(b.lines, t.cols, x);
    var tabs := SetupStops(b.tabs, t.cols, t.cols);
    var t1 := t.(cols := x);
    var lines1 := if t.rows < y then Grown(lines, y + b.ybase, BlankLine(t1, false), y - t.rows)
                  else if t.rows > y then Shrunk(lines, y + b.ybase, t.rows - y) else lines;
    t1.(rows := y, normal := NoScreen,
        b := b.(lines := lines1, tabs := tabs, top := 0, bottom := y - 1,
                y := if b.y >= y then y - 1 else b.y, x := if b.x >= x then x - 1 else b.x))
  }

  /* Screens */

  /** The buffer of a terminal that has just been created or reset. */
  function FreshBuffer(rows: int, cols: int): Buffer {
    Buffer(Fill(rows, Fill(cols, Blank(DEF_ATTR))), 0, 0, 0, 0, 0, rows - 1, EveryEighth({}, 0, cols))
  }

  /** A reset keeps the saved cursor. */
  function Reset(t: Term): Term {
    t.(b := FreshBuffer(t.rows, t.cols), curAttr := DEF_ATTR, normal := NoScreen)
  }

  function EnterAlternate(t: Term): Term {
    if t.normal.Screen? then t else Reset(t).(normal := Screen(t.b))
  }

  function LeaveAlternate(t: Term): Term {
    if t.normal.Screen? then t.(b := t.normal.b, normal := NoScreen) else t
  }

  /* The cursor */

  function SetRegion(t: Term, p: int, q: int): Term {
    t.(b := t.b.(top := (if p == 0 then 1 else p) - 1, bottom := (if q == 0 then t.rows else q) - 1, x := 0, y := 0))
  }

  function Up(t: Term, n: int): Term {
    AtRow(t, if t.b.y - AtLeast1(n) < 0 then 0 else t.b.y - AtLeast1(n))
  }

  function Down(t: Term, n: int): Term {
    AtRow(t, if t.b.y + AtLeast1(n) >= t.rows then t.rows - 1 else t.b.y + AtLeast1(n))
  }

  function Right(t: Term, n: int): Term {
    AtColumn(t, if t.b.x + AtLeast1(n) >= t.cols then t.cols - 1 else t.b.x + AtLeast1(n))
  }

  function Left(t: Term, n: int): Term {
    AtColumn(t, if t.b.x - AtLeast1(n) < 0 then 0 else t.b.x - AtLeast1(n))
  }

  function Clamp(v: int, n: int): int {
    if v < 0 then 0 else if v >= n then n - 1 else v
  }

  /* What a host or a user can do to the terminal */

  datatype Op =
    | BeginWrite | Print(ch: nat) | LineFeed | Return | Backspace | Tab
    | Ind | Nel | Ri | SaveCursor | RestoreCursor | TabSet | FullReset
    | Cuu(n: nat) | Cud(n: nat) | Cuf(n: nat) | Cub(n: nat) | Cnl(n: nat) | Cpl(n: nat)
    | Cha(n: nat) | Hpa(n: nat) | Vpa(n: nat)
    | Cup(row: nat, col: nat) | Hvp(row: nat, col: nat)
    | Ed(n: nat) | El(n: nat) | Ich(n: nat) | Dch(n: nat) | Ech(n: nat)
    | Il(n: nat) | Dl(n: nat) | Su(n: nat) | Sd(n: nat) | Cht(n: nat) | Cbt(n: nat) | Tbc(n: nat)
    | Stbm(p: nat, q: nat) | Sgr(attr: nat) | EnterAlt | LeaveAlt
    | ResizeTo(x: int, y: int) | ScrollDisp(disp: int)

  /** Operations that splice lines or move the cursor to another one, and look at no line. */
  predicate OnlySplices(op: Op) {
    op.LineFeed? || op.Ind? || op.Nel? || op.Ri? || op.Il? || op.Dl? || op.Su? || op.Sd?
  }

  /** A step beyond the invariant is defined as long as the code looks for no line that is not there. */
  function Step(t: Term, op: Op): Term
    requires Valid(t) || (OnlySplices(op) && Splicing(t))
  {
    match op
    case BeginWrite => t.(b := t.b.(ydisp := t.b.ybase))
    case Print(ch) => var w := Wrap(t); if CanPut(w) then PutChar(w, ch) else w
    case LineFeed => Index(if t.convertEol then AtColumn(t, 0) else t)
    case Return => AtColumn(t, 0)
    case Backspace => if t.b.x > 0 then AtColumn(t, t.b.x - 1) else t
    case Tab => AtColumn(t, NextStop(t.b.tabs, t.b.x, t.cols))
    case Ind => Index(t)
    case Nel => Index(AtColumn(t, 0))
    case Ri => ReverseIndex(t)
    case SaveCursor => t.(savedX := t.b.x, savedY := t.b.y)
    case RestoreCursor => AtColumn(AtRow(t, t.savedY), t.savedX)
    case TabSet => t.(b := t.b.(tabs := t.b.tabs + {t.b.x}))
    case FullReset => Reset(t)
    case Cuu(n) => Up(t, n)
    case Cud(n) => Down(t, n)
    case Cuf(n) => Right(t, n)
    case Cub(n) => Left(t, n)
    case Cnl(n) => AtColumn(Down(t, n), 0)
    case Cpl(n) => AtColumn(Up(t, n), 0)
    case Cha(n) => AtColumn(t, AtLeast1(n) - 1)
    case Hpa(n) => AtColumn(t, Min(AtLeast1(n), t.cols) - 1)
    case Vpa(n) => AtRow(t, Min(AtLeast1(n), t.rows) - 1)
    case Cup(row, col) => AtColumn(AtRow(t, Clamp(row - 1, t.rows)), Clamp(col - 1, t.cols))
    case Hvp(row, col) => AtColumn(AtRow(t, Min(AtLeast1(row), t.rows) - 1), Min(AtLeast1(col), t.cols) - 1)
    case Ed(n) => EraseInDisplay(t, n)
    case El(n) => EraseInLine(t, n)
    case Ich(n) => OnLine(t, InsertCells(CurLine(t), t.b.x, AtLeast1(n), t.cols, Eraser(t)))
    case Dch(n) => OnLine(t, DeleteCells(CurLine(t), t.b.x, AtLeast1(n), Eraser(t)))
    case Ech(n) => OnLine(t, EraseCells(CurLine(t), t.b.x, AtLeast1(n), t.cols, Eraser(t)))
    case Il(n) => InsertLines(t, n)
    case Dl(n) => DeleteLines(t, n)
    case Su(n) => ScrollUp(t, n)
    case Sd(n) => ScrollDown(t, n)
    case Cht(n) => Forward(t, OrOne(n))
    case Cbt(n) => Backward(t, OrOne(n))
    case Tbc(n) => t.(b := t.b.(tabs := if n <= 0 then t.b.tabs - {t.b.x} else if n == 3 then {} else t.b.tabs))
    case Stbm(p, q) => SetRegion(t, p, q)
    case Sgr(attr) => t.(curAttr := attr)
    case EnterAlt => EnterAlternate(t)
    case LeaveAlt => LeaveAlternate(t)
    case ResizeTo(x, y) => Resize(t, x, y)
    case ScrollDisp(disp) => t.(b := t.b.(ydisp := Clamp(t.b.ydisp + disp, t.b.ybase + 1)))
  }

  predicate CanPut(t: Term) {
    0 <= t.b.x < t.cols && 0 <= t.b.ybase + t.b.y < |t.b.lines| && |CurLine(t)| >= t.cols
  }
}
