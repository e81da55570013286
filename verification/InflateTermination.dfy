/** When the symbol loop ends. Past the end of the source every bit reads zero, so the loop
    either ends on the next symbol or never: a bound of one symbol a source bit, and one more,
    tells the streams on which the inflater returns from those on which it loops forever. */
module InflateTermination {
  import opened Numbers
  import opened BitStream
  import opened Huffman
  import opened DeflateFormat
  import opened Inflate
  import opened InflateTables
  import opened InflateRoundTrip
  import opened InflateSession

  lemma NoBits(src: seq<byte>, p: nat)
    requires p >= 8 * |src|
    ensures Bit(src, p) == 0
  {
    assert p / 8 >= |src|;
    assert 0 / Pow2(p % 8) == 0;
  }

  lemma {:induction false} NoValue(src: seq<byte>, p: nat, n: nat)
    requires p >= 8 * |src|
    ensures Value(src, p, n) == 0
    decreases n
  {
    if n != 0 {
      NoBits(src, p);
      NoValue(src, p + 1, n - 1);
    }
  }

  lemma {:induction false} WalkPastEnd(src: seq<byte>, p: nat, q: nat, t: Tree, len: nat, cur: int, sum: int)
    requires p >= 8 * |src| && q >= 8 * |src| && len < |t.table|
    ensures Walk(src, p, t, len, cur, sum) == Walk(src, q, t, len, cur, sum)
    decreases |t.table| - len
  {
    hide Bit;
    NoBits(src, p + len);
    NoBits(src, q + len);
    var n := TableAt(t, len + 1);
    if n != UNDEFINED && 2 * cur - n >= 0 { WalkPastEnd(src, p, q, t, len + 1, 2 * cur - n, sum + n); }
  }

  lemma SymbolPastEnd(src: seq<byte>, c: Cursor, d: Cursor, t: Tree)
    requires c.Valid() && d.Valid() && c.Pos() >= 8 * |src| && d.Pos() >= 8 * |src| && |t.table| == MAX_BITS + 1
    ensures DecodeSymbol(src, c, t).1 == DecodeSymbol(src, d, t).1
  {
    hide Walk;
    WalkPastEnd(src, c.Pos(), d.Pos(), t, 0, 0, 0);
  }

  lemma ExtraPastEnd(src: seq<byte>, c: Cursor, i: int, bits: seq<nat>, base: seq<nat>)
    requires c.Valid() && c.Pos() >= 8 * |src|
    requires |bits| == |base| && forall k :: 0 <= k < |bits| ==> bits[k] <= 13
    ensures Inflate.ReadExtra(src, c, i, bits, base).1 == if 0 <= i < |bits| then base[i] else UNDEFINED
  {
    if 0 <= i < |bits| { NoValue(src, c.Pos(), bits[i]); }
  }

  lemma PairPastEnd(src: seq<byte>, c: Cursor, d: Cursor, dt: Tree, sym: int)
    requires c.Valid() && d.Valid() && c.Pos() >= 8 * |src| && d.Pos() >= 8 * |src| && |dt.table| == MAX_BITS + 1
    ensures ReadPair(src, c, dt, sym).distance == ReadPair(src, d, dt, sym).distance
  {
    hide DecodeSymbol, ReadExtra;
    var i := if sym == UNDEFINED then UNDEFINED else sym - 257;
    var c1, d1 := ReadExtra(src, c, i, LENGTH_BITS, LENGTH_START).0, ReadExtra(src, d, i, LENGTH_BITS, LENGTH_START).0;
    SymbolPastEnd(src, c1, d1, dt);
    var c2, d2 := DecodeSymbol(src, c1, dt).0, DecodeSymbol(src, d1, dt).0;
    var k := DecodeSymbol(src, c1, dt).1;
    ExtraPastEnd(src, c2, k, DISTANCE_EXTRA, DISTANCE_BASE);
    ExtraPastEnd(src, d2, k, DISTANCE_EXTRA, DISTANCE_BASE);
  }

  /** Past the end the loop goes on when the symbol zeros stand for does not end it. */
  predicate GoesOn(src: seq<byte>, c: Cursor, lt: Tree, dt: Tree, h: seq<Cell>)
    requires c.Valid() && |lt.table| == |dt.table| == MAX_BITS + 1
  {
    var (c1, sym) := DecodeSymbol(src, c, lt);
    sym != END_OF_BLOCK && (0 <= sym < 256 || ReadPair(src, c1, dt, sym).distance <= |h|)
  }

  lemma GoesOnAgain(src: seq<byte>, c: Cursor, d: Cursor, lt: Tree, dt: Tree, h: seq<Cell>, h': seq<Cell>)
    requires c.Valid() && d.Valid() && c.Pos() >= 8 * |src| && d.Pos() >= 8 * |src|
    requires |lt.table| == |dt.table| == MAX_BITS + 1
    requires GoesOn(src, c, lt, dt, h) && |h| <= |h'|
    ensures GoesOn(src, d, lt, dt, h')
  {
    hide DecodeSymbol, ReadPair;
    SymbolPastEnd(src, c, d, lt);
    var (c1, sym) := DecodeSymbol(src, c, lt);
    PairPastEnd(src, c1, DecodeSymbol(src, d, lt).0, dt, sym);
  }

  lemma {:induction false} Forever(src: seq<byte>, c: Cursor, lt: Tree, dt: Tree, h: seq<Cell>, fuel: nat)
    requires c.Valid() && c.Pos() >= 8 * |src| && |lt.table| == |dt.table| == MAX_BITS + 1
    requires GoesOn(src, c, lt, dt, h)
    ensures InflateData(src, c, lt, dt, h, fuel).outcome == Unbounded
    decreases fuel
  {
    hide DecodeSymbol, ReadPair, CopyPair, InflateData;
    if fuel == 0 {
      NoFuel(src, c, lt, dt, h);
    } else {
      var (c1, sym) := DecodeSymbol(src, c, lt);
      SymbolStep(src, c, lt, dt, h, fuel, c1, sym);
      var r := ReadPair(src, c1, dt, sym);
      if 0 <= sym < 256 {
        GoesOnAgain(src, c, c1, lt, dt, h, h + [sym]);
        Forever(src, c1, lt, dt, h + [sym], fuel - 1);
      } else {
        GoesOnAgain(src, c, r.cursor, lt, dt, h, CopyPair(h, r));
        Forever(src, r.cursor, lt, dt, CopyPair(h, r), fuel - 1);
      }
    }
  }

  /** Both bounds run out, or neither does and the results agree. */
  predicate SameFate(r: Inflated, r': Inflated) {
    (r.outcome == Unbounded && r'.outcome == Unbounded) || (r.outcome != Unbounded && r == r')
  }

  lemma {:induction false} DataDecides(src: seq<byte>, c: Cursor, lt: Tree, dt: Tree, h: seq<Cell>, f: nat, g: nat)
    requires c.Valid() && |lt.table| == |dt.table| == MAX_BITS + 1
    requires f > BitsLeft(src, c) && g > BitsLeft(src, c)
    ensures SameFate(InflateData(src, c, lt, dt, h, f), InflateData(src, c, lt, dt, h, g))
    decreases f
  {
    hide DecodeSymbol, ReadPair, CopyPair, InflateData;
    var (c1, sym) := DecodeSymbol(src, c, lt);
    SymbolStep(src, c, lt, dt, h, f, c1, sym);
    SymbolStep(src, c, lt, dt, h, g, c1, sym);
    var r := ReadPair(src, c1, dt, sym);
    if BitsLeft(src, c) == 0 {
      if GoesOn(src, c, lt, dt, h) {
        Forever(src, c, lt, dt, h, f);
        Forever(src, c, lt, dt, h, g);
      }
    } else if 0 <= sym < 256 {
      DataDecides(src, c1, lt, dt, h + [sym], f - 1, g - 1);
    } else if sym != END_OF_BLOCK && r.distance <= |h| {
      DataDecides(src, r.cursor, lt, dt, CopyPair(h, r), f - 1, g - 1);
    }
  }

  lemma FewerLeft(src: seq<byte>, c: Cursor, d: Cursor)
    requires c.Valid() && d.Valid() && d.Pos() >= c.Pos()
    ensures BitsLeft(src, d) <= BitsLeft(src, c) <= 8 * |src|
  {
  }

  lemma BodyDecides(src: seq<byte>, c: Cursor, btype: nat, h: seq<Cell>, f: nat, g: nat)
    requires c.Valid() && f > 8 * |src| && g > 8 * |src|
    ensures SameFate(InflateBody(src, c, btype, h, f), InflateBody(src, c, btype, h, g))
  {
    hide InflateData, InflateStored, DecodeTrees, TreeOf, BitsLeft;
    FewerLeft(src, c, c);
    if btype == 1 {
      DataDecides(src, c, FIXED_LIT_TREE, FIXED_DIST_TREE, h, f, g);
    } else if btype == 2 {
      var t := DecodeTrees(src, c);
      FewerLeft(src, t.cursor, t.cursor);
      DataDecides(src, t.cursor, TreeOf(t.codes.lit, MAX_BITS), TreeOf(t.codes.dist, MAX_BITS), h, f, g);
    }
  }

  lemma {:induction false} BlocksDecide(src: seq<byte>, c: Cursor, h: seq<Cell>, f: nat, g: nat)
    requires c.Valid() && f > 8 * |src| && g > 8 * |src|
    ensures SameFate(InflateBlocks(src, c, h, f), InflateBlocks(src, c, h, g))
    decreases BitsLeft(src, c)
  {
    hide InflateBlocks, InflateBody, Value, Bit, AfterBits, AfterBit, BitsLeft;
    var c2 := AfterBits(AfterBit(c), 2);
    var t := Value(src, AfterBit(c).Pos(), 2);
    var r := InflateBody(src, c2, t, h, f);
    BodyDecides(src, c2, t, h, f, g);
    BlocksUnfold(src, c, h, f, c2, r);
    BlocksUnfold(src, c, h, g, c2, InflateBody(src, c2, t, h, g));
    if r.outcome == Finished && Bit(src, c.Pos()) != 1 && r.cursor.index < |src| {
      BlocksDecide(src, r.cursor, r.history, f, g);
    }
  }

  /** A call returns within 8 * |src| + 1 symbols a block or runs forever: any two bounds from
      there on agree, on every source. */
  lemma UncompressDecides(src: seq<byte>, offset: nat, headerSeen: bool, h: seq<Cell>, f: nat, g: nat)
    requires f > 8 * |src| && g > 8 * |src|
    ensures SameFate(Uncompress(src, offset, headerSeen, h, f), Uncompress(src, offset, headerSeen, h, g))
  {
    hide InflateBlocks, FirstCursor;
    BlocksDecide(src, FirstCursor(offset, headerSeen), h, f, g);
  }

  /* A compressor's stream is never cut short by the bound */

  lemma {:induction false} TokensNeedBits(codes: Codes, tokens: seq<Token>, h: seq<Cell>)
    requires HasCode(codes.lit, END_OF_BLOCK) && AllWritable(codes, tokens, |h|)
    ensures |tokens| < |TokensBits(codes, tokens, |h|)|
    decreases |tokens|
  {
    hide *;
    if tokens == [] {
      EndNeedsBits(codes, tokens, |h|);
    } else {
      TokensStep(codes, tokens, h);
      TokenNeedsBits(codes, tokens[0], |h|);
      TokensNeedBits(codes, tokens[1..], Emit(h, tokens[0]));
    }
  }

  lemma EndNeedsBits(codes: Codes, tokens: seq<Token>, before: nat)
    requires HasCode(codes.lit, END_OF_BLOCK) && tokens == []
    ensures |TokensBits(codes, tokens, before)| > 0
  {
  }

  lemma TokenNeedsBits(codes: Codes, token: Token, before: nat)
    requires Writable(codes, token, before)
    ensures |TokenBits(codes, token, before)| > 0
  {
    hide LsbBits, LengthIndex, DistanceIndex;
  }

  lemma BodyNeedsBits(b: Body, p: nat, h: seq<Cell>, fuel: nat)
    requires ValidBody(b, p, |h|) && |BodyBits(b, p, |h|)| < fuel
    ensures EnoughFuel(b, fuel)
  {
    hide TokensBits, HeaderBits, AllWritable, ValidHeader;
    match b
    case Stored(_, _) =>
    case Fixed(tokens) =>
      TokensNeedBits(FixedCodes(), tokens, h);
    case Dynamic(header, tokens) =>
      DynamicBits(header, tokens, p, h);
      TokensNeedBits(header.codes, tokens, h);
  }

  lemma {:induction false} BlocksNeedBits(bs: seq<Block>, p: nat, h: seq<Cell>, fuel: nat)
    requires ValidBlocks(bs, p, h) && |BlocksBits(bs, p, h)| < fuel
    ensures AllEnoughFuel(bs, fuel)
    decreases |bs|
  {
    if bs != [] {
      hide *;
      BlocksStep(bs, p, h);
      BlockSplit(bs[0], p, |h|);
      BodyNeedsBits(bs[0].body, p + 3, h, fuel);
      BlocksNeedBits(bs[1..], BlockEnd(bs[0], p, |h|), ExpandBody(bs[0].body, p + 3, h), fuel);
      FuelForMore(bs, fuel);
    }
  }

  lemma FuelForMore(bs: seq<Block>, fuel: nat)
    requires bs != [] && EnoughFuel(bs[0].body, fuel) && AllEnoughFuel(bs[1..], fuel)
    ensures AllEnoughFuel(bs, fuel)
  {
    hide EnoughFuel;
    forall i | 0 <= i < |bs| ensures EnoughFuel(bs[i].body, fuel) {
      if i > 0 { assert bs[i] == bs[1..][i - 1]; }
    }
  }

  /** Decompressing what a compressor sent gives back what it compressed, under the bound that
      decides whether a call returns at all. */
  lemma Decompresses(header: nat, bs: seq<Block>, trailer: seq<bit>, fuel: nat)
    requires bs != [] && bs[|bs| - 1].final && ValidBlocks(bs, 16, []) && |trailer| >= 32
    requires fuel > 8 * |Compressed(header, bs, trailer)|
    ensures var r := Uncompress(Compressed(header, bs, trailer), 0, false, [], fuel);
            r.outcome == Finished && r.history == ExpandBlocks(bs, 16, [])
  {
    hide *;
    CompressedIs(header, bs, trailer);
    PackedLength(LsbBits(header, 16), BlocksBits(bs, 16, []), trailer);
    BlocksNeedBits(bs, 16, [], fuel);
    ZlibRoundTrip(header, bs, trailer, fuel);
  }

  lemma PackedLength(a: seq<bit>, b: seq<bit>, c: seq<bit>)
    ensures |b| <= 8 * |Pack(a + (b + c))|
  {
  }
}
