/** How the decoder's read-ahead moves over an encoded stream: from the lengths of the codes and of the extra
    bits alone, without the bits themselves. */
module InflateCursor {
  import opened Numbers
  import opened BitStream
  import opened DeflateFormat

  /** A symbol with a code of len bits, for which sixteen are buffered. */
  function AfterSymbol(c: Cursor, len: int): (r: Cursor)
    requires c.Valid()
    ensures r.Valid()
  {
    var f := Fill(c, 16);
    if 0 <= len <= 16 then Skip(f, len) else f
  }

  function CodeLength(lens: seq<int>, s: nat): int {
    if s < |lens| then lens[s] else 0
  }

  /** The extra bits of a length or distance symbol. */
  function AfterExtra(c: Cursor, bits: seq<nat>, i: nat): (r: Cursor)
    requires c.Valid()
    ensures r.Valid()
  {
    if i < |bits| && bits[i] <= 16 then AfterBits(c, bits[i]) else c
  }

  function AfterMatch(codes: Codes, length: nat, distance: nat, c: Cursor): (r: Cursor)
    requires c.Valid() && 3 <= length <= 258 && 1 <= distance <= WINDOW_SIZE
    ensures r.Valid()
  {
    var i, j := LengthIndex(length), DistanceIndex(distance);
    AfterExtra(AfterSymbol(AfterExtra(c, LENGTH_EXTRA, i), CodeLength(codes.dist, j)), DISTANCE_EXTRA, j)
  }

  function AfterToken(codes: Codes, token: Token, c: Cursor): (r: Cursor)
    requires c.Valid()
    ensures r.Valid()
  {
    match token
    case Literal(value) => AfterSymbol(c, CodeLength(codes.lit, value))
    case Match(length, distance) =>
      if 3 <= length <= 258 && 1 <= distance <= WINDOW_SIZE then
        AfterMatch(codes, length, distance, AfterSymbol(c, CodeLength(codes.lit, 257 + LengthIndex(length))))
      else c
  }

  function AfterTokens(codes: Codes, tokens: seq<Token>, c: Cursor): (r: Cursor)
    requires c.Valid()
    ensures r.Valid()
    decreases |tokens|
  {
    if tokens == [] then AfterSymbol(c, CodeLength(codes.lit, END_OF_BLOCK))
    else AfterTokens(codes, tokens[1..], AfterToken(codes, tokens[0], c))
  }

  /** n code lengths of three bits. */
  function AfterThrees(c: Cursor, n: nat): (r: Cursor)
    requires c.Valid()
    ensures r.Valid()
    decreases n
  {
    if n == 0 then c else AfterThrees(AfterBits(c, 3), n - 1)
  }

  /** The number of extra bits after a run's symbol, and the smallest count. */
  function RunExtra(run: Run): (nat, nat) {
    match run
    case Length(_) => (0, 1)
    case Again(_) => (2, 3)
    case Zeros(_) => (3, 3)
    case ManyZeros(_) => (7, 11)
  }

  function AfterRuns(clens: seq<int>, runs: seq<Run>, c: Cursor): (r: Cursor)
    requires c.Valid()
    ensures r.Valid()
    decreases |runs|
  {
    if runs == [] then c
    else
      AfterRuns(clens, runs[1..],
        AfterBits(AfterSymbol(c, CodeLength(clens, RunSymbol(runs[0]))), RunExtra(runs[0]).0))
  }

  function AfterHeader(h: Header, c: Cursor): (r: Cursor)
    requires c.Valid()
    ensures r.Valid()
  {
    AfterRuns(h.clens, h.runs, AfterThrees(AfterBits(AfterBits(AfterBits(c, 5), 5), 4), h.hclen))
  }

  /** Behind a stored block nothing is buffered. */
  function AfterBody(b: Body, c: Cursor): (r: Cursor)
    requires c.Valid()
    ensures r.Valid()
  {
    match b
    case Stored(pad, data) => Cursor((c.Pos() + |pad| + 32 + 8 * |data|) / 8, 0)
    case Fixed(tokens) => AfterTokens(FixedCodes(), tokens, c)
    case Dynamic(h, tokens) => AfterTokens(h.codes, tokens, AfterHeader(h, c))
  }

  function AfterBlock(b: Block, c: Cursor): (r: Cursor)
    requires c.Valid()
    ensures r.Valid()
  {
    AfterBody(b.body, AfterBits(AfterBit(c), 2))
  }

  /** How many blocks the loop decodes in a source of n bytes: up to the first behind which the read-ahead has
      reached its end. */
  function BlocksRead(bs: seq<Block>, c: Cursor, n: nat): (k: nat)
    requires c.Valid()
    ensures k <= |bs| && (bs != [] ==> k >= 1)
    decreases |bs|
  {
    if |bs| <= 1 then |bs|
    else if AfterBlock(bs[0], c).index >= n then 1 else 1 + BlocksRead(bs[1..], AfterBlock(bs[0], c), n)
  }

  function CursorAfter(bs: seq<Block>, c: Cursor, k: nat): (r: Cursor)
    requires c.Valid() && k <= |bs|
    ensures r.Valid()
    decreases k
  {
    if k == 0 then c else CursorAfter(bs[1..], AfterBlock(bs[0], c), k - 1)
  }

  /** All of them are read exactly if the read-ahead stops short of the end of the source behind each but the
      last. */
  lemma {:induction false} AllReadExactly(bs: seq<Block>, c: Cursor, n: nat)
    requires c.Valid()
    ensures BlocksRead(bs, c, n) == |bs| <==> forall i :: 1 <= i < |bs| ==> CursorAfter(bs, c, i).index < n
    decreases |bs|
  {
    hide *;
    BlocksReadStep(bs, c, n);
    if |bs| > 1 {
      var c1 := AfterBlock(bs[0], c);
      AllReadExactly(bs[1..], c1, n);
      CursorStep(bs, c, 1);
      NoBlocksYet(bs[1..], c1);
      if BlocksRead(bs, c, n) == |bs| {
        forall i | 1 <= i < |bs| ensures CursorAfter(bs, c, i).index < n { CursorStep(bs, c, i); }
      } else if c1.index >= n {
        assert CursorAfter(bs, c, 1).index >= n;
      } else {
        var i :| 1 <= i < |bs[1..]| && CursorAfter(bs[1..], c1, i).index >= n;
        CursorStep(bs, c, i + 1);
      }
    }
  }

  lemma BlocksReadStep(bs: seq<Block>, c: Cursor, n: nat)
    requires c.Valid()
    ensures |bs| <= 1 ==> BlocksRead(bs, c, n) == |bs|
    ensures |bs| > 1 ==>
      var c1 := AfterBlock(bs[0], c);
      c1.Valid() && BlocksRead(bs, c, n) == if c1.index >= n then 1 else 1 + BlocksRead(bs[1..], c1, n)
  {
    hide AfterBlock;
  }

  lemma CursorStep(bs: seq<Block>, c: Cursor, k: nat)
    requires c.Valid() && 1 <= k <= |bs|
    ensures AfterBlock(bs[0], c).Valid()
    ensures CursorAfter(bs, c, k) == CursorAfter(bs[1..], AfterBlock(bs[0], c), k - 1)
  {
    hide AfterBlock;
  }

  lemma NoBlocksYet(bs: seq<Block>, c: Cursor)
    requires c.Valid()
    ensures CursorAfter(bs, c, 0) == c
  {
  }
}
