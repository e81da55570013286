/** What ED and EL erase, cell by cell. */
module TermErase {
  import opened Numbers
  import opened TermScreen
  import opened TermRefines
  import opened TermRuns

  /** Row r of the screen; lines may be longer than the screen is wide. */
  function RowOf(t: Term, r: int): Line
    requires 0 <= t.b.ybase + r < |t.b.lines|
  {
    t.b.lines[t.b.ybase + r]
  }

  /** A cell without a character, in the default colours but for the current background. */
  function Erased(t: Term): Glyph {
    Glyph(257 * 512 + t.curAttr % 512, 32)
  }

  /** Whether cell c of row r is at the cursor or behind it, in reading order. */
  predicate AtOrBehind(t: Term, r: int, c: int) {
    r > t.b.y || (r == t.b.y && c >= t.b.x)
  }

  predicate AtOrBefore(t: Term, r: int, c: int) {
    r < t.b.y || (r == t.b.y && c <= t.b.x)
  }

  /** What parameter n of ED and EL selects. */
  predicate Selected(t: Term, n: int, r: int, c: int) {
    (n == 0 && AtOrBehind(t, r, c)) || (n == 1 && AtOrBefore(t, r, c)) || n == 2
  }

  /** Only lines of the screen differ, and they have all their cells. */
  predicate SameElse(t: Term, u: Term) {
    && u == t.(b := t.b.(lines := u.b.lines)) && |u.b.lines| == |t.b.lines|
    && forall i :: 0 <= i < t.b.ybase && i < |t.b.lines| ==> u.b.lines[i] == t.b.lines[i]
  }

  /** Cells behind the last column are no part of the screen; of those only EL 1 and ED 1 erase some, when the
      cursor is there. */
  predicate Reached(t: Term, n: int, r: int, c: int) {
    c < t.cols || (n == 1 && r == t.b.y)
  }

  /** EL n erases what n selects of the cursor's line; every other cell, the history and the cursor stay. */
  lemma ErasesInLine(t: Term, n: nat, r: int, c: int)
    requires Valid(t) && 0 <= r < t.rows && 0 <= c < |RowOf(t, r)|
    ensures var u := Step(t, El(n));
            && SameElse(t, u) && c < |RowOf(u, r)|
            && RowOf(u, r)[c]
               == if r == t.b.y && Selected(t, n, r, c) && Reached(t, n, r, c) then Erased(t) else RowOf(t, r)[c]
  {
    hide *;
    OverwritesEd(n);
    StepsCells(t, El(n));
    LineErased(t, n, r, c);
  }

  lemma LineErased(t: Term, n: nat, r: int, c: int)
    requires Valid(t) && 0 <= r < t.rows && 0 <= c < |RowOf(t, r)|
    ensures var u := EraseInLine(t, n);
            && SameElse(t, u) && c < |RowOf(u, r)|
            && RowOf(u, r)[c]
               == if r == t.b.y && Selected(t, n, r, c) && Reached(t, n, r, c) then Erased(t) else RowOf(t, r)[c]
  {
    var line, blank := CurLine(t), Eraser(t);
    assert line == RowOf(t, t.b.y) && blank == Erased(t) && |line| >= t.cols;
    hide LinesFit, Erased, Eraser;
    if n == 0 {
      assert EraseInLine(t, n) == WithLine(t, t.b.y, ErasedRight(line, t.b.x, t.cols, blank));
    } else if n == 1 {
      assert EraseInLine(t, n) == WithLine(t, t.b.y, ErasedLeft(line, t.b.x, blank));
    } else if n == 2 {
      assert EraseInLine(t, n) == WithLine(t, t.b.y, ErasedRight(line, 0, t.cols, blank));
    }
  }

  /** Whole rows. */
  lemma RowsErased(t: Term, lo: int, hi: int, r: int, c: int)
    requires Valid(t) && 0 <= lo && 0 <= r < t.rows && 0 <= c < |RowOf(t, r)|
    ensures var u := EraseRows(t, lo, hi);
            && SameElse(t, u) && |RowOf(u, r)| == |RowOf(t, r)|
            && RowOf(u, r)[c] == if lo <= r < hi && c < t.cols then Erased(t) else RowOf(t, r)[c]
  {
  }

  /** ED n erases what n selects of the screen; every other cell, the history and the cursor stay. */
  lemma ErasesInDisplay(t: Term, n: nat, r: int, c: int)
    requires Valid(t) && 0 <= r < t.rows && 0 <= c < |RowOf(t, r)|
    ensures var u := Step(t, Ed(n));
            && SameElse(t, u) && c < |RowOf(u, r)|
            && RowOf(u, r)[c] == if Selected(t, n, r, c) && Reached(t, n, r, c) then Erased(t) else RowOf(t, r)[c]
  {
    hide *;
    OverwritesEd(n);
    StepsCells(t, Ed(n));
    DisplayErased(t, n, r, c);
  }

  lemma OverwritesEd(n: nat)
    ensures OverwritesCells(Ed(n)) && OverwritesCells(El(n))
  {
  }

  lemma DisplayErased(t: Term, n: nat, r: int, c: int)
    requires Valid(t) && 0 <= r < t.rows && 0 <= c < |RowOf(t, r)|
    ensures var u := EraseInDisplay(t, n);
            && SameElse(t, u) && c < |RowOf(u, r)|
            && RowOf(u, r)[c] == if Selected(t, n, r, c) && Reached(t, n, r, c) then Erased(t) else RowOf(t, r)[c]
  {
    hide *;
    var lo, hi := if n == 0 then t.b.y + 1 else 0, if n == 1 then t.b.y else t.rows;
    DisplayIs(t, n, lo, hi);
    SelectedIs(t, n, r, c, lo, hi);
    if n <= 2 {
      EraseRowsKeeps(t, lo, hi);
      RowsErased(t, lo, hi, r, c);
      var u := EraseRows(t, lo, hi);
      if n < 2 {
        SameElseIs(t, u, n, r, c);
        LineErased(u, n, r, c);
        SameElseTwice(t, u, EraseInLine(u, n));
      }
    }
  }

  lemma DisplayIs(t: Term, n: nat, lo: int, hi: int)
    requires Valid(t)
    requires lo == (if n == 0 then t.b.y + 1 else 0) && hi == if n == 1 then t.b.y else t.rows
    ensures lo >= 0
    ensures n < 2 ==>
      Valid(EraseRows(t, lo, hi)) && EraseInDisplay(t, n) == EraseInLine(EraseRows(t, lo, hi), n)
    ensures n == 2 ==> EraseInDisplay(t, n) == EraseRows(t, lo, hi)
    ensures n > 2 ==> EraseInDisplay(t, n) == t && SameElse(t, t)
  {
    ShapeOf(t);
    hide Valid, EraseRows, EraseInLine;
    EraseRowsKeeps(t, lo, hi);
  }

  lemma SelectedIs(t: Term, n: nat, r: int, c: int, lo: int, hi: int)
    requires Valid(t) && 0 <= r < t.rows && c >= 0
    requires lo == (if n == 0 then t.b.y + 1 else 0) && hi == if n == 1 then t.b.y else t.rows
    ensures Selected(t, n, r, c) && Reached(t, n, r, c)
        <==> (n <= 2 && lo <= r < hi && c < t.cols)
             || (n < 2 && r == t.b.y && Selected(t, n, r, c) && Reached(t, n, r, c))
  {
  }

  lemma SameElseIs(t: Term, u: Term, n: nat, r: int, c: int)
    requires SameElse(t, u)
    ensures u.b.y == t.b.y && u.rows == t.rows && Erased(u) == Erased(t)
    ensures Selected(u, n, r, c) == Selected(t, n, r, c) && Reached(u, n, r, c) == Reached(t, n, r, c)
  {
  }

  lemma SameElseTwice(t: Term, u: Term, v: Term)
    requires SameElse(t, u) && SameElse(u, v)
    ensures SameElse(t, v)
  {
  }
}
