/** Runs of uncompress: a session decompresses one stream in several calls, and between calls
    keeps only the last 32768 bytes of its output. */
module InflateSession {
  import opened Numbers
  import opened BitStream
  import opened Huffman
  import opened DeflateFormat
  import opened Inflate
  import opened InflateTables
  import opened InflateRoundTrip

  datatype Call = Call(src: seq<byte>, offset: nat)

  /** What a call returns: the bytes it added, unless it failed. */
  datatype Answer = Answer(outcome: Outcome, data: seq<Cell>)

  function AnswerOf(r: Inflated, history: seq<Cell>): Answer
    requires |r.history| >= |history|
  {
    Answer(r.outcome, if r.outcome == Finished then r.history[|history|..] else [])
  }

  /** The history after a call; a call that fails returns before it is trimmed. */
  function Kept(r: Inflated, trim: bool): seq<Cell> {
    if trim && r.outcome == Finished then Trim(r.history) else r.history
  }

  function Session(calls: seq<Call>, headerSeen: bool, history: seq<Cell>, fuel: nat, trim: bool): seq<Answer> {
    if calls == [] then [] else
    var r := Uncompress(calls[0].src, calls[0].offset, headerSeen, history, fuel);
    [AnswerOf(r, history)] + Session(calls[1..], true, Kept(r, trim), fuel, trim)
  }

  /* A history that lacks its oldest part decodes alike */

  /** `kept` is what is left of pre + kept: all of it, or at least a window. */
  predicate Covers(pre: seq<Cell>, kept: seq<Cell>) {
    pre == [] || |kept| >= WINDOW_SIZE
  }

  function Longer(pre: seq<Cell>, r: Inflated): Inflated {
    r.(history := pre + r.history)
  }

  lemma {:induction false} CopyLonger(pre: seq<Cell>, h: seq<Cell>, distance: nat, n: nat)
    requires 1 <= distance <= |h|
    ensures Copy(pre + h, distance, n) == pre + Copy(h, distance, n)
    decreases n
  {
    if n != 0 {
      var next := h + [h[|h| - distance]];
      assert (pre + h)[|pre + h| - distance] == h[|h| - distance];
      assert (pre + h) + [h[|h| - distance]] == pre + next;
      CopyLonger(pre, next, distance, n - 1);
    }
  }

  /** No match reaches farther back than the window. */
  lemma PairInWindow(src: seq<byte>, c: Cursor, dt: Tree, sym: int)
    requires c.Valid() && |dt.table| == MAX_BITS + 1
    ensures ReadPair(src, c, dt, sym).distance <= WINDOW_SIZE
  {
    hide DecodeSymbol, Pow2;
    var c1 := ReadExtra(src, c, if sym == UNDEFINED then UNDEFINED else sym - 257, LENGTH_BITS, LENGTH_START).0;
    var (c2, d) := DecodeSymbol(src, c1, dt);
    if 0 <= d < 30 {
      DistanceInWindow(d, Value(src, c2.Pos(), DISTANCE_EXTRA[d]));
    }
  }

  lemma PairLonger(pre: seq<Cell>, h: seq<Cell>, r: Pair)
    requires Covers(pre, h) && r.distance <= WINDOW_SIZE
    ensures r.distance > |pre + h| <==> r.distance > |h|
    ensures r.distance <= |h| ==> CopyPair(pre + h, r) == pre + CopyPair(h, r)
  {
    if r.length >= 0 && 1 <= r.distance <= |h| { CopyLonger(pre, h, r.distance, r.length); }
  }

  lemma {:induction false} DataLonger(src: seq<byte>, c: Cursor,
          lt: Tree, dt: Tree, pre: seq<Cell>, h: seq<Cell>, fuel: nat)
    requires c.Valid() && |lt.table| == |dt.table| == MAX_BITS + 1 && Covers(pre, h)
    ensures InflateData(src, c, lt, dt, pre + h, fuel) == Longer(pre, InflateData(src, c, lt, dt, h, fuel))
    decreases fuel
  {
    hide DecodeSymbol, ReadPair, CopyPair, InflateData;
    if fuel == 0 {
      NoFuel(src, c, lt, dt, h);
      NoFuel(src, c, lt, dt, pre + h);
    } else {
      var (c1, sym) := DecodeSymbol(src, c, lt);
      SymbolStep(src, c, lt, dt, h, fuel, c1, sym);
      SymbolStep(src, c, lt, dt, pre + h, fuel, c1, sym);
      if sym == END_OF_BLOCK {
      } else if 0 <= sym < 256 {
        assert (pre + h) + [sym] == pre + (h + [sym]);
        DataLonger(src, c1, lt, dt, pre, h + [sym], fuel - 1);
      } else {
        var r := ReadPair(src, c1, dt, sym);
        PairInWindow(src, c1, dt, sym);
        PairLonger(pre, h, r);
        if r.distance <= |h| { DataLonger(src, r.cursor, lt, dt, pre, CopyPair(h, r), fuel - 1); }
      }
    }
  }

  lemma BodyLonger(src: seq<byte>, c: Cursor, btype: nat, pre: seq<Cell>, h: seq<Cell>, fuel: nat)
    requires c.Valid() && Covers(pre, h)
    ensures InflateBody(src, c, btype, pre + h, fuel) == Longer(pre, InflateBody(src, c, btype, h, fuel))
  {
    hide InflateData, DecodeTrees, TreeOf, Covers, Word, Rewound;
    if btype == 0 {
      var b := Rewound(c);
      var cells := SourceCells(src, b.index + 4, if Word(src, b.index) >= 0 then Word(src, b.index) else 0);
      assert (pre + h) + cells == pre + (h + cells);
    } else if btype == 1 {
      DataLonger(src, c, FIXED_LIT_TREE, FIXED_DIST_TREE, pre, h, fuel);
    } else if btype == 2 {
      var t := DecodeTrees(src, c);
      DataLonger(src, t.cursor, TreeOf(t.codes.lit, MAX_BITS), TreeOf(t.codes.dist, MAX_BITS), pre, h, fuel);
    }
  }

  lemma BlocksUnfold(src: seq<byte>, c: Cursor, h: seq<Cell>, fuel: nat, c2: Cursor, r: Inflated)
    requires c.Valid() && c2 == AfterBits(AfterBit(c), 2) && c2.Valid()
    requires r == InflateBody(src, c2, Value(src, AfterBit(c).Pos(), 2), h, fuel)
    ensures InflateBlocks(src, c, h, fuel)
         == if r.outcome != Finished || Bit(src, c.Pos()) == 1 || r.cursor.index >= |src| then r
            else InflateBlocks(src, r.cursor, r.history, fuel)
    ensures BitsLeft(src, c) >= 0
    ensures r.cursor.index < |src| ==> BitsLeft(src, r.cursor) < BitsLeft(src, c)
  {
    hide InflateBody, Value, Bit;
  }

  lemma CoversMore(pre: seq<Cell>, h: seq<Cell>, h': seq<Cell>)
    requires Covers(pre, h) && |h'| >= |h|
    ensures Covers(pre, h')
  {
  }

  lemma {:induction false} BlocksLonger(src: seq<byte>, c: Cursor, pre: seq<Cell>, h: seq<Cell>, fuel: nat)
    requires c.Valid() && Covers(pre, h)
    ensures InflateBlocks(src, c, pre + h, fuel) == Longer(pre, InflateBlocks(src, c, h, fuel))
    decreases BitsLeft(src, c)
  {
    hide InflateBlocks, InflateBody, Value, Bit, AfterBits, AfterBit, Covers, BitsLeft;
    var c2 := AfterBits(AfterBit(c), 2);
    var t := Value(src, AfterBit(c).Pos(), 2);
    var r := InflateBody(src, c2, t, h, fuel);
    BodyLonger(src, c2, t, pre, h, fuel);
    BlocksUnfold(src, c, h, fuel, c2, r);
    BlocksUnfold(src, c, pre + h, fuel, c2, Longer(pre, r));
    if !(r.outcome != Finished || Bit(src, c.Pos()) == 1 || r.cursor.index >= |src|) {
      CoversMore(pre, h, r.history);
      BlocksLonger(src, r.cursor, pre, r.history, fuel);
    }
  }

  lemma UncompressLonger(src: seq<byte>, offset: nat, headerSeen: bool, pre: seq<Cell>, h: seq<Cell>, fuel: nat)
    requires Covers(pre, h)
    ensures Uncompress(src, offset, headerSeen, pre + h, fuel)
        == Longer(pre, Uncompress(src, offset, headerSeen, h, fuel))
  {
    hide *;
    var c := UncompressIs(src, offset, headerSeen, h, fuel);
    var c' := UncompressIs(src, offset, headerSeen, pre + h, fuel);
    BlocksLonger(src, c, pre, h, fuel);
  }

  lemma {:induction false} TrimmingStep(pre: seq<Cell>, h: seq<Cell>, r: Inflated) returns (pre': seq<Cell>)
    requires Covers(pre, h) && |r.history| >= |h|
    ensures AnswerOf(Longer(pre, r), pre + h) == AnswerOf(r, h)
    ensures pre' + Kept(r, true) == Kept(Longer(pre, r), false) && Covers(pre', Kept(r, true))
  {
    assert (pre + r.history)[|pre + h|..] == r.history[|h|..];
    if r.outcome == Finished && |r.history| > WINDOW_SIZE {
      var cut := |r.history| - WINDOW_SIZE;
      pre' := pre + r.history[..cut];
      assert r.history == r.history[..cut] + r.history[cut..];
    } else {
      pre' := pre;
    }
  }

  lemma SessionStep(calls: seq<Call>, headerSeen: bool, h: seq<Cell>, fuel: nat, trim: bool, r: Inflated)
    requires calls != [] && r == Uncompress(calls[0].src, calls[0].offset, headerSeen, h, fuel)
    ensures |r.history| >= |h|
    ensures Session(calls, headerSeen, h, fuel, trim)
         == [AnswerOf(r, h)] + Session(calls[1..], true, Kept(r, trim), fuel, trim)
  {
    hide AnswerOf, Kept;
  }

  /** The sliding window is lossless: for every series of calls, malformed ones included, what
      the calls return is what they would return had no output ever been dropped. */
  lemma {:induction false} TrimmingIsLossless(calls: seq<Call>,
          headerSeen: bool, pre: seq<Cell>, h: seq<Cell>, fuel: nat)
    requires Covers(pre, h)
    ensures Session(calls, headerSeen, h, fuel, true) == Session(calls, headerSeen, pre + h, fuel, false)
    decreases |calls|
  {
    if calls != [] {
      hide *;
      var r := Uncompress(calls[0].src, calls[0].offset, headerSeen, h, fuel);
      SessionStep(calls, headerSeen, h, fuel, true, r);
      UncompressLonger(calls[0].src, calls[0].offset, headerSeen, pre, h, fuel);
      SessionStep(calls, headerSeen, pre + h, fuel, false, Longer(pre, r));
      var pre' := TrimmingStep(pre, h, r);
      TrimmingIsLossless(calls[1..], true, pre', Kept(r, true), fuel);
    }
  }

  /* A stream cut into segments, one a call */

  datatype Segment = Segment(call: Call, blocks: seq<Block>)

  /** Each source holds its blocks, whose matches may reach into all earlier segments. */
  ghost predicate ValidSegments(segments: seq<Segment>, headerSeen: bool, history: seq<Cell>, fuel: nat)
    decreases |segments|
  {
    segments != [] ==>
      var s, p := segments[0], Start(segments[0].call.offset, headerSeen);
      && s.blocks != [] && AllEnoughFuel(s.blocks, fuel) && ValidBlocks(s.blocks, p, history)
      && BitsAt(s.call.src, p, BlocksBits(s.blocks, p, history))
      && Terminated(s.call.src, s.blocks, p + |BlocksBits(s.blocks, p, history)|)
      && ValidSegments(segments[1..], true, ExpandBlocks(s.blocks, p, history), fuel)
  }

  ghost function Expansions(segments: seq<Segment>, headerSeen: bool, history: seq<Cell>, fuel: nat): seq<Answer>
    requires ValidSegments(segments, headerSeen, history, fuel)
    decreases |segments|
  {
    if segments == [] then [] else
    var h := ExpandBlocks(segments[0].blocks, Start(segments[0].call.offset, headerSeen), history);
    [Answer(Finished, h[|history|..])] + Expansions(segments[1..], true, h, fuel)
  }

  function CallsOf(segments: seq<Segment>): seq<Call> {
    if segments == [] then [] else [segments[0].call] + CallsOf(segments[1..])
  }

  lemma {:induction false} UntrimmedRoundTrip(segments: seq<Segment>, headerSeen: bool, history: seq<Cell>, fuel: nat)
    requires ValidSegments(segments, headerSeen, history, fuel)
    ensures Session(CallsOf(segments), headerSeen, history, fuel, false)
        == Expansions(segments, headerSeen, history, fuel)
    decreases |segments|
  {
    hide *;
    if segments == [] {
      NoSegments(segments, headerSeen, history, fuel);
    } else {
      var s := segments[0];
      SegmentsStep(segments, headerSeen, history, fuel);
      RoundTrip(s.call.src, s.call.offset, headerSeen, s.blocks, history, fuel);
      var r := Uncompress(s.call.src, s.call.offset, headerSeen, history, fuel);
      SessionStep(CallsOf(segments), headerSeen, history, fuel, false, r);
      KeptWhole(r, history);
      UntrimmedRoundTrip(segments[1..], true, r.history, fuel);
    }
  }

  lemma NoSegments(segments: seq<Segment>, headerSeen: bool, history: seq<Cell>, fuel: nat)
    requires segments == [] && ValidSegments(segments, headerSeen, history, fuel)
    ensures Session(CallsOf(segments), headerSeen, history, fuel, false) == []
    ensures Expansions(segments, headerSeen, history, fuel) == []
  {
  }

  lemma KeptWhole(r: Inflated, history: seq<Cell>)
    requires r.outcome == Finished && |r.history| >= |history|
    ensures Kept(r, false) == r.history && AnswerOf(r, history) == Answer(Finished, r.history[|history|..])
  {
  }

  lemma SegmentsStep(segments: seq<Segment>, headerSeen: bool, history: seq<Cell>, fuel: nat)
    requires segments != [] && ValidSegments(segments, headerSeen, history, fuel)
    ensures CallsOf(segments) == [segments[0].call] + CallsOf(segments[1..])
    ensures CallsOf(segments)[1..] == CallsOf(segments[1..])
    ensures var s, p := segments[0], Start(segments[0].call.offset, headerSeen);
            && s.blocks != [] && AllEnoughFuel(s.blocks, fuel) && ValidBlocks(s.blocks, p, history)
            && BitsAt(s.call.src, p, BlocksBits(s.blocks, p, history))
            && Terminated(s.call.src, s.blocks, p + |BlocksBits(s.blocks, p, history)|)
            && var h := ExpandBlocks(s.blocks, p, history);
               && ValidSegments(segments[1..], true, h, fuel)
               && Expansions(segments, headerSeen, history, fuel)
                  == [Answer(Finished, h[|history|..])] + Expansions(segments[1..], true, h, fuel)
  {
    hide ValidBlocks, BlocksBits, BitsAt, Terminated, AllEnoughFuel, ExpandBlocks, Start;
  }

  /** A stream decompressed segment by segment, with only a window of output kept in between,
      comes out as the expansion of all its blocks. */
  lemma SegmentsRoundTrip(segments: seq<Segment>, fuel: nat)
    requires ValidSegments(segments, false, [], fuel)
    ensures Session(CallsOf(segments), false, [], fuel, true) == Expansions(segments, false, [], fuel)
  {
    hide *;
    NothingMissing([]);
    TrimmingIsLossless(CallsOf(segments), false, [], [], fuel);
    UntrimmedRoundTrip(segments, false, [], fuel);
  }

  lemma NothingMissing(h: seq<Cell>)
    ensures Covers([], h)
    ensures forall s: seq<Cell> :: [] + s == s
  {
  }
}
