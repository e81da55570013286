/** How far a call of uncompress gets: the block loop takes bytes that are only buffered for used ones. */
module InflateEnds {
  import opened Numbers
  import opened BitStream
  import opened Huffman
  import opened DeflateFormat
  import opened Inflate
  import opened InflateCursor
  import opened InflateTables
  import opened InflateRoundTrip

  /** The least and the most bits that are buffered behind a body. */
  function Least(b: Body): int {
    match b
    case Stored(_, _) => 0
    case Fixed(_) => 9
    case Dynamic(h, _) => if HasCode(h.codes.lit, END_OF_BLOCK) then 16 - h.codes.lit[END_OF_BLOCK] else 0
  }

  function Most(b: Body): int {
    match b
    case Stored(_, _) => 0
    case Fixed(_) => 24
    case Dynamic(h, _) => if HasCode(h.codes.lit, END_OF_BLOCK) then 31 - h.codes.lit[END_OF_BLOCK] else 0
  }

  lemma BufferBounds(b: Body, n: nat)
    requires BuffersAfter(b, n)
    ensures Least(b) <= n <= Most(b)
  {
  }

  lemma FirstStep(bs: seq<Block>, p: nat, history: seq<Cell>, k: nat)
    requires bs != [] && ValidBlocks(bs, p, history) && 1 <= k <= |bs|
    ensures var end, next := BlockEnd(bs[0], p, |history|), ExpandBody(bs[0].body, p + 3, history);
            && ValidBlocks(bs[1..], end, next)
            && EndOf(bs, p, history, k) == EndOf(bs[1..], end, next, k - 1)
            && ExpandFirst(bs, p, history, k) == ExpandFirst(bs[1..], end, next, k - 1)
  {
    hide ValidBody, ExpandBody, BlockEnd;
  }

  lemma NoneYet(bs: seq<Block>, p: nat, history: seq<Cell>)
    requires ValidBlocks(bs, p, history)
    ensures EndOf(bs, p, history, 0) == p && ExpandFirst(bs, p, history, 0) == history
  {
    hide ValidBlocks;
  }

  lemma {:induction false} AllOfThem(bs: seq<Block>, p: nat, history: seq<Cell>)
    requires ValidBlocks(bs, p, history)
    ensures ExpandFirst(bs, p, history, |bs|) == ExpandBlocks(bs, p, history)
    decreases |bs|
  {
    hide *;
    if bs == [] {
      NoBlocks(bs, p, history);
      NoneYet(bs, p, history);
    } else {
      BlocksStep(bs, p, history);
      FirstStep(bs, p, history, |bs|);
      AllOfThem(bs[1..], BlockEnd(bs[0], p, |history|), ExpandBody(bs[0].body, p + 3, history));
    }
  }

  lemma Where(c: Cursor, n: nat)
    requires c.Valid()
    ensures c.index < n <==> c.Pos() + c.count < 8 * n
  {
  }

  /** The block loop decodes the first k of the blocks, where k follows from the lengths of the codes alone.
      Behind each of those in front it found more of the source than it had buffered; it stops early only at a
      block behind which no more was left. */
  lemma {:induction false} BlocksKept(src: seq<byte>, c: Cursor, bs: seq<Block>, history: seq<Cell>, fuel: nat)
    returns (k: nat, c': Cursor)
    requires c.Valid() && ValidBlocks(bs, c.Pos(), history) && AllEnoughFuel(bs, fuel) && bs != []
    requires BitsAt(src, c.Pos(), BlocksBits(bs, c.Pos(), history))
    ensures 1 <= k == BlocksRead(bs, c, |src|) <= |bs|
    ensures c'.Valid() && c'.Pos() == EndOf(bs, c.Pos(), history, k) && c' == CursorAfter(bs, c, k)
    ensures forall i :: 1 <= i < k ==> EndOf(bs, c.Pos(), history, i) + Least(bs[i - 1].body) < 8 * |src|
    ensures k < |bs| ==> EndOf(bs, c.Pos(), history, k) + Most(bs[k - 1].body) >= 8 * |src| && c'.index >= |src|
    ensures InflateBlocks(src, c, history, fuel)
         == if bs[k - 1].final || c'.index >= |src|
            then Inflated(c', ExpandFirst(bs, c.Pos(), history, k), Finished)
            else InflateBlocks(src, c', ExpandFirst(bs, c.Pos(), history, k), fuel)
    decreases |bs|
  {
    hide *;
    var p := c.Pos();
    BlocksStep(bs, p, history);
    FirstFuel(bs, fuel);
    var end, next := BlockEnd(bs[0], p, |history|), ExpandBody(bs[0].body, p + 3, history);
    BitsAtConcat(src, p, BlockBits(bs[0], p, |history|), BlocksBits(bs[1..], end, next));
    var c1 := ReadsBlock(src, c, bs[0], history, fuel);
    BufferBounds(bs[0].body, c1.count);
    Where(c1, |src|);
    BlocksReadStep(bs, c, |src|);
    FirstStep(bs, p, history, 1);
    NoneYet(bs[1..], end, next);
    CursorStep(bs, c, 1);
    NoBlocksYet(bs[1..], c1);
    if |bs| == 1 || c1.index >= |src| {
      k, c' := 1, c1;
    } else {
      FuelLater(bs, fuel);
      var k1;
      k1, c' := BlocksKept(src, c1, bs[1..], next, fuel);
      k := k1 + 1;
      CursorStep(bs, c, k);
      FirstStep(bs, p, history, k);
      forall i | 1 <= i < k ensures EndOf(bs, p, history, i) + Least(bs[i - 1].body) < 8 * |src| {
        FirstStep(bs, p, history, i);
        if i > 1 { assert bs[1..][i - 1 - 1] == bs[i - 1]; }
      }
      assert bs[1..][k1 - 1] == bs[k - 1];
    }
  }

  lemma FuelLater(bs: seq<Block>, fuel: nat)
    requires |bs| > 1 && AllEnoughFuel(bs, fuel)
    ensures AllEnoughFuel(bs[1..], fuel)
  {
    hide EnoughFuel;
  }

  /** So a call decodes exactly the blocks up to the first behind which the read-ahead has reached the end of
      the source; and all of them exactly if there is no such block in front of the last one. The last block
      is final, or the read-ahead reaches the end behind it at the latest. */
  lemma AllKept(src: seq<byte>, offset: nat, headerSeen: bool, bs: seq<Block>, history: seq<Cell>, fuel: nat)
    requires ValidBlocks(bs, Start(offset, headerSeen), history) && AllEnoughFuel(bs, fuel)
    requires bs != []
    requires bs[|bs| - 1].final || CursorAfter(bs, FirstCursor(offset, headerSeen), |bs|).index >= |src|
    requires BitsAt(src, Start(offset, headerSeen), BlocksBits(bs, Start(offset, headerSeen), history))
    ensures var c, r := FirstCursor(offset, headerSeen), Uncompress(src, offset, headerSeen, history, fuel);
      && r.outcome == Finished
      && r.history == ExpandFirst(bs, Start(offset, headerSeen), history, BlocksRead(bs, c, |src|))
      && (BlocksRead(bs, c, |src|) == |bs| <==> forall i :: 1 <= i < |bs| ==> CursorAfter(bs, c, i).index < |src|)
      && (BlocksRead(bs, c, |src|) == |bs| ==> r.history == ExpandBlocks(bs, Start(offset, headerSeen), history))
  {
    hide *;
    var p := Start(offset, headerSeen);
    var c := UncompressIs(src, offset, headerSeen, history, fuel);
    var k, c' := BlocksKept(src, c, bs, history, fuel);
    AllOfThem(bs, p, history);
    AllReadExactly(bs, c, |src|);
    if k < |bs| { OnlyLastFinal(bs, p, history, k); }
  }

  lemma {:induction false} OnlyLastFinal(bs: seq<Block>, p: nat, history: seq<Cell>, k: nat)
    requires ValidBlocks(bs, p, history) && 1 <= k < |bs|
    ensures !bs[k - 1].final
    decreases |bs|
  {
    hide *;
    BlocksStep(bs, p, history);
    if k > 1 {
      OnlyLastFinal(bs[1..], BlockEnd(bs[0], p, |history|), ExpandBody(bs[0].body, p + 3, history), k - 1);
    }
  }

  /** In terms of the bits that follow: all blocks are read if behind each but the last more of the source
      follows than can be buffered there, and not if behind one no more follows than is buffered in any case. */
  lemma KeptIf(src: seq<byte>, c: Cursor, bs: seq<Block>, history: seq<Cell>, fuel: nat)
    requires c.Valid() && ValidBlocks(bs, c.Pos(), history) && AllEnoughFuel(bs, fuel) && bs != []
    requires BitsAt(src, c.Pos(), BlocksBits(bs, c.Pos(), history))
    ensures (forall i :: 1 <= i < |bs| ==> EndOf(bs, c.Pos(), history, i) + Most(bs[i - 1].body) < 8 * |src|)
        ==> BlocksRead(bs, c, |src|) == |bs|
    ensures (exists i :: 1 <= i < |bs| && EndOf(bs, c.Pos(), history, i) + Least(bs[i - 1].body) >= 8 * |src|)
        ==> BlocksRead(bs, c, |src|) < |bs|
  {
    hide *;
    var k, c' := BlocksKept(src, c, bs, history, fuel);
  }

  /* Two blocks in four bytes: an empty one, and one with the byte 65 */

  function EmptyThenByte(): seq<Block> {
    [Block(false, Fixed([])), Block(true, Fixed([Literal(65)]))]
  }

  lemma FixedLengths()
    ensures var lit := FixedCodes().lit;
            && HasCode(lit, END_OF_BLOCK) && HasCode(lit, 65)
            && |SymbolBits(lit, END_OF_BLOCK)| == 7 && |SymbolBits(lit, 65)| == 8
  {
  }

  lemma EmptyBlock(p: nat)
    ensures AllWritable(FixedCodes(), [], 0) && ValidBody(Fixed([]), p, 0)
    ensures BodyBits(Fixed([]), p, 0) == TokensBits(FixedCodes(), [], 0) == SymbolBits(FixedCodes().lit, END_OF_BLOCK)
    ensures ExpandBody(Fixed([]), p, []) == []
  {
    FixedLengths();
    hide SymbolBits, FixedCodes;
  }

  lemma ByteBlock(p: nat)
    ensures ValidBody(Fixed([Literal(65)]), p, 0)
    ensures |BodyBits(Fixed([Literal(65)]), p, 0)| == 15
    ensures ExpandBody(Fixed([Literal(65)]), p, []) == [65]
  {
    var t := Literal(65);
    FixedLengths();
    hide SymbolBits, FixedCodes;
    assert [t][1..] == [];
    assert AllWritable(FixedCodes(), [], 0 + Size(t));
    assert Emit([], t) == [65];
  }

  lemma TwoBlocks()
    ensures var bs := EmptyThenByte();
      && ValidBlocks(bs, 0, []) && |BlocksBits(bs, 0, [])| == 28 && ExpandBlocks(bs, 0, []) == [65]
      && |BlockBits(bs[0], 0, 0)| == 10
      && BlocksBits(bs, 0, []) == BlockBits(bs[0], 0, 0) + BlocksBits(bs[1..], 10, [])
  {
    var bs := EmptyThenByte();
    EmptyBlock(3);
    ByteBlock(13);
    FixedLengths();
    BlockSplit(bs[0], 0, 0);
    BlockSplit(bs[1], 10, 0);
    hide ValidBody, BodyBits, ExpandBody, BlockBits, SymbolBits, FixedCodes;
    var last := bs[1..];
    assert last == [bs[1]] && last[1..] == [];
    var next: seq<Cell> := [65];
    assert ValidBlocks([], 28, next) && BlocksBits([], 28, next) == [] && ExpandBlocks([], 28, next) == next;
    assert BlockEnd(bs[1], 10, 0) == 28;
    assert ValidBlocks(last, 10, []) && BlocksBits(last, 10, []) == BlockBits(bs[1], 10, 0) + [];
    assert BlockEnd(bs[0], 0, 0) == 10;
  }

  lemma FillOnce(c: Cursor, m: nat)
    requires c.Valid() && m <= 24
    ensures Fill(c, m) == if c.count >= m then c else Fill(Cursor(c.index + 1, c.count + 8), m)
  {
  }

  lemma FilledAtOnce(c: Cursor)
    requires c == Cursor(0, 0)
    ensures c.Valid() && AfterBit(c).Valid() && AfterBits(AfterBit(c), 2) == Cursor(4, 29)
  {
    hide Fill;
    FillOnce(Cursor(1, 7), 24);
    FillOnce(Cursor(2, 15), 24);
    FillOnce(Cursor(3, 23), 24);
    FillOnce(Cursor(4, 31), 24);
  }

  lemma AtStart(offset: nat)
    ensures FirstCursor(offset, true) == Cursor(offset, 0) && Start(offset, true) == 8 * offset
  {
  }

  lemma EndsAtOnce(src: seq<byte>, c: Cursor, lt: Tree, dt: Tree, history: seq<Cell>, fuel: nat)
    requires c.Valid() && |lt.table| == |dt.table| == MAX_BITS + 1 && fuel > 0
    requires DecodeSymbol(src, c, lt).1 == END_OF_BLOCK
    ensures InflateData(src, c, lt, dt, history, fuel) == Inflated(DecodeSymbol(src, c, lt).0, history, Finished)
  {
    hide DecodeSymbol;
  }

  lemma FixedBody(src: seq<byte>, c: Cursor, history: seq<Cell>, fuel: nat)
    requires c.Valid()
    ensures InflateBody(src, c, 1, history, fuel)
         == InflateData(src, c, FIXED_LIT_TREE, FIXED_DIST_TREE, history, fuel)
  {
    hide InflateData, FixedLitSymbols, FixedDistSymbols;
  }

  lemma ReadsEmptyBlock(src: seq<byte>, c: Cursor, fuel: nat)
    requires fuel > 0 && c == Cursor(4, 29) && c.Valid()
    requires BitsAt(src, c.Pos(), SymbolBits(FixedCodes().lit, END_OF_BLOCK))
    ensures InflateBody(src, c, 1, [], fuel) == Inflated(Cursor(4, 22), [], Finished)
  {
    hide *;
    FixedLengths();
    FixedLitBuilds();
    FixedEnd();
    FixedReads();
    var c' := ReadsSymbol(src, c, FIXED_LIT_TREE, FixedCodes().lit, 9, END_OF_BLOCK);
    SevenTaken(c, c');
    FixedBody(src, c, [], fuel);
    EndsAtOnce(src, c, FIXED_LIT_TREE, FIXED_DIST_TREE, [], fuel);
  }

  lemma SevenTaken(c: Cursor, c': Cursor)
    requires c == Cursor(4, 29) && c.Valid() && c'.Valid() && c'.index == c.index && c'.Pos() == c.Pos() + 7
    ensures c' == Cursor(4, 22)
  {
  }

  lemma FixedReads()
    ensures Reads(FIXED_LIT_TREE, FixedCodes().lit, 9)
    ensures |FIXED_LIT_TREE.table| == |FIXED_DIST_TREE.table| == MAX_BITS + 1
  {
    FixedLitBuilds();
    hide Realizable, Builds, FixedLitSymbols, FixedDistSymbols, FixedCodes;
  }

  /** After an empty block at the front of four bytes nothing more is read. */
  lemma StopsBehindEmpty(src: seq<byte>, offset: nat, b: Block, fuel: nat)
    requires offset == 0 && fuel > 0 && |src| == 4 && b == Block(false, Fixed([])) && ValidBody(b.body, 3, 0)
    requires BitsAt(src, 0, BlockBits(b, 0, 0))
    ensures var r := Uncompress(src, offset, true, [], fuel); r.outcome == Finished && r.history == []
  {
    hide *;
    EmptyBlock(3);
    BlockSplit(b, 0, 0);
    FirstType(b);
    AtStart(offset);
    var c := UncompressIs(src, offset, true, [], fuel);
    FilledAtOnce(c);
    ReadsFlag(src, c, 0, 1, BodyBits(Fixed([]), 3, 0));
    ReadsEmptyBlock(src, Cursor(4, 29), fuel);
    InflateBlocksStep(src, c, [], fuel, Cursor(4, 29), 1, Inflated(Cursor(4, 22), [], Finished));
  }

  /** In raw DEFLATE, without a trailer, four bytes hold two blocks, and the second is lost: the first one
      was decoded with all four bytes in the buffer. */
  lemma BlockDropped(bs: seq<Block>, offset: nat, fuel: nat)
    requires bs == EmptyThenByte() && offset == 0 && fuel > 0
    ensures ValidBlocks(bs, 0, []) && ExpandBlocks(bs, 0, []) == [65] && |Pack(BlocksBits(bs, 0, []))| == 4
    ensures var r := Uncompress(Pack(BlocksBits(bs, 0, [])), offset, true, [], fuel);
            r.outcome == Finished && r.history == []
  {
    TwoBlocks();
    EmptyBlock(3);
    var b := Block(false, Fixed([]));
    assert bs[0] == b;
    hide *;
    var bits := BlocksBits(bs, 0, []);
    var src := Pack(bits);
    PackHolds(bits);
    BitsAtConcat(src, 0, BlockBits(b, 0, 0), BlocksBits(bs[1..], 10, []));
    StopsBehindEmpty(src, offset, b, fuel);
  }

  lemma FirstType(b: Block)
    requires b == Block(false, Fixed([]))
    ensures BodyType(b.body) == 1 && !b.final && b.body == Fixed([]) && 1 < Pow2(2)
  {
  }
}
