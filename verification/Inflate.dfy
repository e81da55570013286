/** What the inflater computes, as functions of the source, the read position and the output so
    far: the specification its methods are proved against. Every branch of the code is here,
    also those only malformed streams take. */
module Inflate {
  import opened Numbers
  import opened BitStream
  import opened Huffman
  import opened DeflateFormat

  /** How a call ends. A stream whose blocks never end runs forever; the decoder is given a
      bound on the symbols of a block, and says when it would have gone on. */
  datatype Outcome = Finished | DataError | Thrown | Unbounded

  datatype Inflated = Inflated(cursor: Cursor, history: seq<Cell>, outcome: Outcome)

  /* Tables */

  /** The symbols below n whose length is l, in order. */
  function SymbolsOf(lens: seq<int>, n: nat, l: int): (r: seq<int>)
    requires n <= |lens|
    ensures |r| == Cnt(lens, n, l) && forall i :: 0 <= i < |r| ==> 0 <= r[i] < n
    decreases n
  {
    if n == 0 then [] else SymbolsOf(lens, n - 1, l) + (if lens[n - 1] == l then [n - 1] else [])
  }

  /** The symbols with lengths 1 to l, by length and then by symbol. */
  function Sorted(lens: seq<int>, l: nat): (r: seq<int>)
    ensures |r| == Offset(lens, l + 1) && forall i :: 0 <= i < |r| ==> 0 <= r[i] < |lens|
  {
    if l == 0 then [] else Sorted(lens, l - 1) + SymbolsOf(lens, |lens|, l)
  }

  function Counts(lens: seq<int>, m: nat): (r: seq<int>)
    ensures |r| == m + 1 && forall l :: 0 <= l <= m ==> r[l] == BlCount(lens, l)
  {
    if m == 0 then [0] else Counts(lens, m - 1) + [BlCount(lens, m)]
  }

  /** The tables build_tree leaves for the code lengths. */
  function TreeOf(lens: seq<int>, m: nat): (t: Tree)
    ensures |t.table| == m + 1
  {
    Tree(Counts(lens, m), Sorted(lens, m))
  }

  /** The tables build_fixed_trees writes; it leaves the counts of longer codes undefined. */
  const FIXED_LIT_TREE: Tree := Tree(
    [0, 0, 0, 0, 0, 0, 0, 24, 152, 112, -1, -1, -1, -1, -1, -1], FixedLitSymbols())

  const FIXED_DIST_TREE: Tree := Tree(
    [0, 0, 0, 0, 0, 32, -1, -1, -1, -1, -1, -1, -1, -1, -1, -1], FixedDistSymbols())

  function FixedLitSymbol(i: nat): int {
    if i < 24 then 256 + i else if i < 168 then i - 24 else if i < 176 then 280 + (i - 168) else 144 + (i - 176)
  }

  function FixedLitSymbols(): (r: seq<int>)
    ensures |r| == 288 && forall i :: 0 <= i < 288 ==> r[i] == FixedLitSymbol(i)
  {
    seq(288, i requires i >= 0 => FixedLitSymbol(i))
  }

  function FixedDistSymbols(): (r: seq<int>)
    ensures |r| == 288 && forall i :: 0 <= i < 288 ==> r[i] == if i < 32 then i else UNDEFINED
  {
    seq(288, i => if i < 32 then i else UNDEFINED)
  }

  /** length_bits and length_base after `init`, with an entry beyond the 29 of the format. */
  const LENGTH_BITS: seq<nat> := LENGTH_EXTRA + [6]
  const LENGTH_START: seq<nat> := LENGTH_BASE + [323]

  /* Reading values */

  /** read_bits(num, base) */
  function BitsValue(src: seq<byte>, c: Cursor, num: nat, base: nat): (v: nat)
    requires c.Valid()
    ensures base <= v < base + Pow2(num)
  {
    Value(src, c.Pos(), num) + base
  }

  /** What follows a length symbol: a length and a distance, each of which may be undefined. */
  datatype Pair = Pair(cursor: Cursor, length: int, distance: int)

  /** An array element and the extra bits it calls for; an index past the arrays reads nothing. */
  function ReadExtra(src: seq<byte>, c: Cursor, i: int, bits: seq<nat>, base: seq<nat>): (r: (Cursor, int))
    requires c.Valid() && |bits| == |base| && forall k :: 0 <= k < |bits| ==> bits[k] <= 13
    ensures r.0.Valid() && r.0.Pos() >= c.Pos()
  {
    if 0 <= i < |bits| then (AfterBits(c, bits[i]), BitsValue(src, c, bits[i], base[i])) else (c, UNDEFINED)
  }

  function ReadPair(src: seq<byte>, c: Cursor, dt: Tree, sym: int): (r: Pair)
    requires c.Valid() && |dt.table| == MAX_BITS + 1
    ensures r.cursor.Valid() && r.cursor.Pos() > c.Pos()
  {
    var (c1, length) := ReadExtra(src, c, if sym == UNDEFINED then UNDEFINED else sym - 257, LENGTH_BITS, LENGTH_START);
    var (c2, d) := DecodeSymbol(src, c1, dt);
    var (c3, distance) := ReadExtra(src, c2, d, DISTANCE_EXTRA, DISTANCE_BASE);
    Pair(c3, length, distance)
  }

  /** The copying loop: it runs no iteration when its bounds are NaN. */
  function CopyPair(history: seq<Cell>, r: Pair): (h: seq<Cell>)
    requires r.distance <= |history|
    ensures |h| >= |history| && h[..|history|] == history
  {
    if r.length >= 0 && r.distance >= 1 then Copy(history, r.distance, r.length) else history
  }

  /** inflate_block_data, for at most `fuel` symbols. */
  function InflateData(src: seq<byte>, c: Cursor, lt: Tree, dt: Tree, history: seq<Cell>, fuel: nat): (r: Inflated)
    requires c.Valid() && |lt.table| == |dt.table| == MAX_BITS + 1
    ensures r.cursor.Valid() && r.cursor.Pos() >= c.Pos()
    ensures |r.history| >= |history| && r.history[..|history|] == history
    decreases fuel
  {
    if fuel == 0 then Inflated(c, history, Unbounded)
    else
      var (c1, sym) := DecodeSymbol(src, c, lt);
      if sym == END_OF_BLOCK then Inflated(c1, history, Finished)
      else if 0 <= sym < 256 then InflateData(src, c1, lt, dt, history + [sym], fuel - 1)
      else
        var r := ReadPair(src, c1, dt, sym);
        if r.distance > |history| then Inflated(r.cursor, history, Thrown)
        else InflateData(src, r.cursor, lt, dt, CopyPair(history, r), fuel - 1)
  }

  /* Stored blocks */

  function SourceAt(src: seq<byte>, i: int): Cell {
    if 0 <= i < |src| then src[i] else UNDEFINED
  }

  /** A 16-bit number, least significant byte first, or NaN (undefined) at the end of the source. */
  function Word(src: seq<byte>, i: nat): int {
    if i + 1 < |src| then 256 * src[i + 1] + src[i] else UNDEFINED
  }

  /** ~w & 0xffff, where NaN counts as 0. */
  function Complement(w: int): int {
    if w == UNDEFINED then 0xffff else 0xffff - w
  }

  function SourceCells(src: seq<byte>, i: nat, n: nat): (r: seq<Cell>)
    ensures |r| == n
  {
    seq<Cell>(n, k requires k >= 0 => SourceAt(src, i + k))
  }

  /** Giving back whole buffered bytes. */
  function Rewound(c: Cursor): (r: Cursor)
    requires c.Valid()
    ensures r.Valid() && c.Pos() <= r.Pos()
  {
    if c.count > 7 then Cursor(c.index - c.count / 8, 0) else c
  }

  /** inflate_uncompressed_block */
  function InflateStored(src: seq<byte>, c: Cursor, history: seq<Cell>): (r: Inflated)
    requires c.Valid()
    ensures r.cursor.Valid() && r.cursor.Pos() >= c.Pos()
    ensures |r.history| >= |history| && r.history[..|history|] == history
  {
    var b := Rewound(c);
    var length := Word(src, b.index);
    if length == UNDEFINED || length != Complement(Word(src, b.index + 2)) then Inflated(b, history, DataError)
    else Inflated(Cursor(b.index + 4 + length, 0), history + SourceCells(src, b.index + 4, length), Finished)
  }

  /* Dynamic trees */

  function ReadCodeLengths(src: seq<byte>, c: Cursor, i: nat, hclen: nat, lens: seq<int>): (r: (Cursor, seq<int>))
    requires c.Valid() && i <= hclen <= 19 && |lens| == 19
    requires forall s :: 0 <= s < 19 ==> 0 <= lens[s] <= 7
    ensures r.0.Valid() && r.0.Pos() == c.Pos() + 3 * (hclen - i)
    ensures |r.1| == 19 && forall s :: 0 <= s < 19 ==> 0 <= r.1[s] <= 7
    decreases hclen - i
  {
    if i == hclen then (c, lens)
    else
      var v := Value(src, c.Pos(), 3);
      assert Pow2(3) == 8;
      ReadCodeLengths(src, AfterBits(c, 3), i + 1, hclen, lens[CodeLengthSymbol(i) := v])
  }

  predicate LengthList(lens: seq<int>) {
    forall i :: 0 <= i < |lens| ==> UNDEFINED <= lens[i] <= MAX_BITS
  }

  predicate CodeLengthTree(t: Tree) {
    |t.table| == MAX_BITS + 1 && forall i :: 0 <= i < |t.trans| ==> 0 <= t.trans[i] < 19
  }

  /** The lengths one code length symbol stands for, and the cursor after its repeat count. */
  function ReadRun(src: seq<byte>, c: Cursor, sym: int, lens: seq<int>): (r: (Cursor, seq<int>))
    requires c.Valid() && UNDEFINED <= sym < 19 && LengthList(lens)
    ensures r.0.Valid() && r.0.Pos() >= c.Pos()
    ensures |r.1| > 0 && LengthList(r.1)
  {
    if sym == 16 then
      (AfterBits(c, 2), Repeat(if lens == [] then UNDEFINED else lens[|lens| - 1], BitsValue(src, c, 2, 3)))
    else if sym == 17 then (AfterBits(c, 3), Repeat(0, BitsValue(src, c, 3, 3)))
    else if sym == 18 then (AfterBits(c, 7), Repeat(0, BitsValue(src, c, 7, 11)))
    else (c, [sym])
  }

  function ReadLengths(src: seq<byte>, c: Cursor, t: Tree, lens: seq<int>, target: nat): (r: (Cursor, seq<int>))
    requires c.Valid() && CodeLengthTree(t) && LengthList(lens)
    ensures r.0.Valid() && r.0.Pos() >= c.Pos()
    ensures |r.1| >= target && LengthList(r.1)
    decreases target - |lens|
  {
    if |lens| >= target then (c, lens)
    else
      var (c1, sym) := DecodeSymbol(src, c, t);
      var (c2, more) := ReadRun(src, c1, sym, lens);
      ReadLengths(src, c2, t, lens + more, target)
  }

  datatype Trees = Trees(cursor: Cursor, codes: Codes)

  /** decode_trees: the code lengths it builds the two trees from. */
  function DecodeTrees(src: seq<byte>, c: Cursor): (r: Trees)
    requires c.Valid()
    ensures r.cursor.Valid() && r.cursor.Pos() > c.Pos()
    ensures LengthList(r.codes.lit) && LengthList(r.codes.dist) && |r.codes.lit| <= 288 && |r.codes.dist| <= 32
  {
    assert Pow2(4) == 16 && Pow2(5) == 32;
    var hlit := BitsValue(src, c, 5, 257);
    var c1 := AfterBits(c, 5);
    var hdist := BitsValue(src, c1, 5, 1);
    var c2 := AfterBits(c1, 5);
    var hclen := BitsValue(src, c2, 4, 4);
    var (c3, clens) := ReadCodeLengths(src, AfterBits(c2, 4), 0, hclen, Repeat(0, 19));
    var (c4, all) := ReadLengths(src, c3, TreeOf(clens, MAX_BITS), [], hlit + hdist);
    Trees(c4, Codes(all[..hlit], all[hlit..hlit + hdist]))
  }

  /* Blocks */

  /** inflate_dynamic_block */
  function InflateDynamic(src: seq<byte>, c: Cursor, history: seq<Cell>, fuel: nat): (r: Inflated)
    requires c.Valid()
    ensures r.cursor.Valid() && r.cursor.Pos() >= c.Pos()
    ensures |r.history| >= |history| && r.history[..|history|] == history
  {
    var t := DecodeTrees(src, c);
    InflateData(src, t.cursor, TreeOf(t.codes.lit, MAX_BITS), TreeOf(t.codes.dist, MAX_BITS), history, fuel)
  }

  /** The body of one block, by type. */
  function InflateBody(src: seq<byte>, c: Cursor, btype: nat, history: seq<Cell>, fuel: nat): (r: Inflated)
    requires c.Valid()
    ensures r.cursor.Valid() && r.cursor.Pos() >= c.Pos()
    ensures |r.history| >= |history| && r.history[..|history|] == history
  {
    if btype == 0 then InflateStored(src, c, history)
    else if btype == 1 then InflateData(src, c, FIXED_LIT_TREE, FIXED_DIST_TREE, history, fuel)
    else if btype == 2 then InflateDynamic(src, c, history, fuel)
    else Inflated(c, history, DataError)
  }

  function BitsLeft(src: seq<byte>, c: Cursor): nat
    requires c.Valid()
  {
    if c.Pos() < 8 * |src| then 8 * |src| - c.Pos() else 0
  }

  /** The block loop of uncompress: it goes on after a block that is not final while the source
      is not used up, counting prefetched bytes as used. */
  function InflateBlocks(src: seq<byte>, c: Cursor, history: seq<Cell>, fuel: nat): (r: Inflated)
    requires c.Valid()
    ensures r.cursor.Valid()
    ensures |r.history| >= |history| && r.history[..|history|] == history
    decreases BitsLeft(src, c)
  {
    var bfinal := Bit(src, c.Pos());
    var c1 := AfterBit(c);
    var r := InflateBody(src, AfterBits(c1, 2), Value(src, c1.Pos(), 2), history, fuel);
    if r.outcome != Finished || bfinal == 1 || r.cursor.index >= |src| then r
    else InflateBlocks(src, r.cursor, r.history, fuel)
  }

  /** Reading starts at the offset; only the first call after a reset skips the zlib header. */
  function FirstCursor(offset: nat, headerSeen: bool): (c: Cursor)
    ensures c.Valid() && c.Pos() == 8 * offset + (if headerSeen then 0 else 16)
  {
    if headerSeen then Cursor(offset, 0) else AfterBits(Cursor(offset, 0), 16)
  }

  /** uncompress(source, offset) */
  function Uncompress(src: seq<byte>, offset: nat, headerSeen: bool, history: seq<Cell>, fuel: nat): (r: Inflated)
    ensures |r.history| >= |history| && r.history[..|history|] == history
  {
    InflateBlocks(src, FirstCursor(offset, headerSeen), history, fuel)
  }

  /** d.history.slice(-WINDOW_SIZE) */
  function Trim(history: seq<Cell>): (r: seq<Cell>)
    ensures |r| == Min(|history|, WINDOW_SIZE)
  {
    if |history| <= WINDOW_SIZE then history else history[|history| - WINDOW_SIZE..]
  }
}
