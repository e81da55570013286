/** The inflater undoes every compressor that follows the format. */
module InflateRoundTrip {
  import opened Numbers
  import opened BitStream
  import opened Huffman
  import opened DeflateFormat
  import opened Inflate
  import opened InflateCursor
  import opened InflateTables

  /** t decodes the canonical code with these lengths. */
  ghost predicate Reads(t: Tree, lens: seq<int>, m: nat) {
    Realizable(lens, m) && Builds(t, lens, m) && |t.table| == MAX_BITS + 1
  }

  lemma ReadsSymbol(src: seq<byte>, c: Cursor, t: Tree, lens: seq<int>, m: nat, s: nat) returns (c': Cursor)
    requires c.Valid() && Reads(t, lens, m)
    requires HasCode(lens, s) && BitsAt(src, c.Pos(), SymbolBits(lens, s))
    ensures c'.Valid() && DecodeSymbol(src, c, t) == (c', s) && c'.Pos() == c.Pos() + lens[s]
    ensures c' == AfterSymbol(c, lens[s]) && CodeLength(lens, s) == lens[s]
    ensures 16 <= c'.count + lens[s] <= 31
  {
    DecodesCode(src, c, lens, t, m, s);
    c' := DecodeSymbol(src, c, t).0;
  }

  lemma ReadsExtra(src: seq<byte>, c: Cursor, i: nat, bits: seq<nat>, base: seq<nat>, v: nat) returns (c': Cursor)
    requires c.Valid() && |bits| == |base| && (forall k :: 0 <= k < |bits| ==> bits[k] <= 13)
    requires i < |bits| && base[i] <= v < base[i] + Pow2(bits[i])
    requires BitsAt(src, c.Pos(), LsbBits(v - base[i], bits[i]))
    ensures c'.Valid() && ReadExtra(src, c, i, bits, base) == (c', v) && c'.Pos() == c.Pos() + bits[i]
    ensures c' == AfterExtra(c, bits, i)
  {
    hide Value, Pow2, LsbBits, BitsAt, AfterBits;
    ReadLsb(src, c.Pos(), v - base[i], bits[i]);
    c' := AfterBits(c, bits[i]);
  }

  /* Tokens */

  /** The bits of a match after its length symbol. */
  function MatchTail(codes: Codes, length: nat, distance: nat): seq<bit>
    requires 3 <= length <= 258 && 1 <= distance <= WINDOW_SIZE && HasCode(codes.dist, DistanceIndex(distance))
  {
    var i, j := LengthIndex(length), DistanceIndex(distance);
    LsbBits(length - LENGTH_BASE[i], LENGTH_EXTRA[i])
    + (SymbolBits(codes.dist, j) + LsbBits(distance - DISTANCE_BASE[j], DISTANCE_EXTRA[j]))
  }

  lemma LengthTables(i: nat)
    requires i < 29
    ensures LENGTH_BITS[i] == LENGTH_EXTRA[i] && LENGTH_START[i] == LENGTH_BASE[i]
  {
  }

  /** The extra bits of a match length. */
  lemma ReadsLength(src: seq<byte>, c: Cursor, length: nat, e: seq<bit>, i: nat) returns (c': Cursor)
    requires c.Valid() && i < 29 && LENGTH_BASE[i] <= length < LENGTH_BASE[i] + Pow2(LENGTH_EXTRA[i])
    requires e == LsbBits(length - LENGTH_BASE[i], LENGTH_EXTRA[i]) && BitsAt(src, c.Pos(), e)
    ensures c'.Valid() && c'.Pos() == c.Pos() + |e| && ReadExtra(src, c, i, LENGTH_BITS, LENGTH_START) == (c', length)
    ensures c' == AfterExtra(c, LENGTH_EXTRA, i)
  {
    hide *;
    LengthTables(i);
    SameExtra(c, i);
    LengthShape();
    c' := ReadsExtra(src, c, i, LENGTH_BITS, LENGTH_START, length);
  }

  lemma SameExtra(c: Cursor, i: nat)
    requires c.Valid() && i < 29
    ensures AfterExtra(c, LENGTH_BITS, i) == AfterExtra(c, LENGTH_EXTRA, i)
  {
    LengthTables(i);
    hide AfterBits;
  }

  lemma LengthShape()
    ensures |LENGTH_BITS| == |LENGTH_START| == 30 && forall k :: 0 <= k < 30 ==> LENGTH_BITS[k] <= 13
  {
  }

  lemma DistanceShape()
    ensures |DISTANCE_EXTRA| == |DISTANCE_BASE| == 30 && forall k :: 0 <= k < 30 ==> DISTANCE_EXTRA[k] <= 13
  {
  }

  /** Those of a distance. */
  lemma ReadsDistance(src: seq<byte>, c: Cursor, distance: nat, d: seq<bit>, j: nat) returns (c': Cursor)
    requires c.Valid() && j < 30 && DISTANCE_BASE[j] <= distance < DISTANCE_BASE[j] + Pow2(DISTANCE_EXTRA[j])
    requires d == LsbBits(distance - DISTANCE_BASE[j], DISTANCE_EXTRA[j]) && BitsAt(src, c.Pos(), d)
    ensures c'.Valid() && c'.Pos() == c.Pos() + |d|
        && ReadExtra(src, c, j, DISTANCE_EXTRA, DISTANCE_BASE) == (c', distance)
    ensures c' == AfterExtra(c, DISTANCE_EXTRA, j)
  {
    hide *;
    DistanceShape();
    c' := ReadsExtra(src, c, j, DISTANCE_EXTRA, DISTANCE_BASE, distance);
  }

  lemma MatchParts(codes: Codes, length: nat, distance: nat, i: nat, j: nat)
          returns (e: seq<bit>, s: seq<bit>, d: seq<bit>)
    requires 3 <= length <= 258 && 1 <= distance <= WINDOW_SIZE && HasCode(codes.dist, DistanceIndex(distance))
    requires i == LengthIndex(length) && j == DistanceIndex(distance)
    ensures i < 29 && j < 30 && HasCode(codes.dist, j)
    ensures LENGTH_BASE[i] <= length < LENGTH_BASE[i] + Pow2(LENGTH_EXTRA[i])
    ensures DISTANCE_BASE[j] <= distance < DISTANCE_BASE[j] + Pow2(DISTANCE_EXTRA[j])
    ensures e == LsbBits(length - LENGTH_BASE[i], LENGTH_EXTRA[i])
    ensures j < |codes.dist| && codes.dist[j] > 0 && s == SymbolBits(codes.dist, j) && |s| == codes.dist[j]
    ensures d == LsbBits(distance - DISTANCE_BASE[j], DISTANCE_EXTRA[j])
    ensures MatchTail(codes, length, distance) == e + (s + d)
  {
    hide LsbBits, SymbolBits, LengthIndex, DistanceIndex, Pow2;
    LengthExtraCovers(length);
    DistanceExtraCovers(distance);
    e := LsbBits(length - LENGTH_BASE[i], LENGTH_EXTRA[i]);
    s := SymbolBits(codes.dist, j);
    d := LsbBits(distance - DISTANCE_BASE[j], DISTANCE_EXTRA[j]);
  }

  lemma ReadsMatch(src: seq<byte>, c: Cursor, dt: Tree, md: nat, codes: Codes, length: nat, distance: nat)
    returns (c': Cursor)
    requires c.Valid() && Reads(dt, codes.dist, md)
    requires 3 <= length <= 258 && 1 <= distance <= WINDOW_SIZE && HasCode(codes.dist, DistanceIndex(distance))
    requires BitsAt(src, c.Pos(), MatchTail(codes, length, distance))
    ensures c'.Valid() && c'.Pos() == c.Pos() + |MatchTail(codes, length, distance)|
    ensures ReadPair(src, c, dt, 257 + LengthIndex(length)) == Pair(c', length, distance)
    ensures c' == AfterMatch(codes, length, distance, c)
  {
    hide *;
    MatchCursor(codes, length, distance, c);
    var i, j := LengthIndex(length), DistanceIndex(distance);
    var e, s, d := MatchParts(codes, length, distance, i, j);
    BitsAtConcat(src, c.Pos(), e, s + d);
    BitsAtConcat(src, c.Pos() + |e|, s, d);
    var c1 := ReadsLength(src, c, length, e, i);
    var c2 := ReadsSymbol(src, c1, dt, codes.dist, md, j);
    c' := ReadsDistance(src, c2, distance, d, j);
    ReadsShape(dt, codes.dist, md);
    PairOf(src, c, dt, 257 + i, c1, length, c2, j, c', distance);
  }

  lemma MatchCursor(codes: Codes, length: nat, distance: nat, c: Cursor)
    requires c.Valid() && 3 <= length <= 258 && 1 <= distance <= WINDOW_SIZE
    ensures var i, j := LengthIndex(length), DistanceIndex(distance);
            AfterMatch(codes, length, distance, c)
            == AfterExtra(AfterSymbol(AfterExtra(c, LENGTH_EXTRA, i), CodeLength(codes.dist, j)), DISTANCE_EXTRA, j)
  {
    hide AfterExtra, AfterSymbol, LengthIndex, DistanceIndex;
  }

  lemma PairOf(src: seq<byte>, c: Cursor, dt: Tree, sym: nat, c1: Cursor,
          length: int, c2: Cursor, d: int, c3: Cursor, distance: int)
    requires c.Valid() && c1.Valid() && c2.Valid() && |dt.table| == MAX_BITS + 1
    requires ReadExtra(src, c, sym - 257, LENGTH_BITS, LENGTH_START) == (c1, length)
    requires Huffman.DecodeSymbol(src, c1, dt) == (c2, d)
    requires ReadExtra(src, c2, d, DISTANCE_EXTRA, DISTANCE_BASE) == (c3, distance)
    ensures ReadPair(src, c, dt, sym) == Pair(c3, length, distance)
  {
    hide ReadExtra, Huffman.DecodeSymbol;
  }

  lemma SplitMatch(codes: Codes, length: nat, distance: nat, before: nat)
    requires Writable(codes, Match(length, distance), before)
    ensures TokenBits(codes, Match(length, distance), before)
         == SymbolBits(codes.lit, 257 + LengthIndex(length)) + MatchTail(codes, length, distance)
  {
    hide SymbolBits, LsbBits, LengthIndex, DistanceIndex;
  }

  /** One turn of the symbol loop reads one token. */
  lemma ReadsToken(src: seq<byte>, c: Cursor, lt: Tree, dt: Tree, ml: nat, md: nat, codes: Codes, token: Token,
                   history: seq<Cell>, fuel: nat) returns (c': Cursor)
    requires c.Valid() && Reads(lt, codes.lit, ml) && Reads(dt, codes.dist, md)
    requires Writable(codes, token, |history|) && BitsAt(src, c.Pos(), TokenBits(codes, token, |history|))
    ensures c'.Valid() && c'.Pos() == c.Pos() + |TokenBits(codes, token, |history|)|
    ensures c' == AfterToken(codes, token, c)
    ensures InflateData(src, c, lt, dt, history, fuel + 1) == InflateData(src, c', lt, dt, Emit(history, token), fuel)
  {
    hide Reads, SymbolBits, BitsAt, DecodeSymbol, ReadPair, MatchTail, LengthIndex, DistanceIndex;
    hide AfterSymbol, AfterMatch, CodeLength;
    match token
    case Literal(value) =>
      c' := ReadsSymbol(src, c, lt, codes.lit, ml, value);
    case Match(length, distance) =>
      var s := 257 + LengthIndex(length);
      SplitMatch(codes, length, distance, |history|);
      BitsAtConcat(src, c.Pos(), SymbolBits(codes.lit, s), MatchTail(codes, length, distance));
      var c1 := ReadsSymbol(src, c, lt, codes.lit, ml, s);
      c' := ReadsMatch(src, c1, dt, md, codes, length, distance);
  }

  /** The symbol loop reads a block's tokens up to the end-of-block symbol and no further, and
      appends exactly their LZ77 expansion. */
  lemma {:induction false} ReadsTokens(src: seq<byte>, c: Cursor, lt: Tree, dt: Tree, ml: nat, md: nat, codes: Codes,
                                       tokens: seq<Token>, history: seq<Cell>, fuel: nat) returns (c': Cursor)
    requires c.Valid() && Reads(lt, codes.lit, ml) && Reads(dt, codes.dist, md)
    requires HasCode(codes.lit, END_OF_BLOCK) && AllWritable(codes, tokens, |history|)
    requires BitsAt(src, c.Pos(), TokensBits(codes, tokens, |history|)) && fuel > |tokens|
    ensures c'.Valid() && c'.Pos() == c.Pos() + |TokensBits(codes, tokens, |history|)|
    ensures c' == AfterTokens(codes, tokens, c)
    ensures 16 <= c'.count + codes.lit[END_OF_BLOCK] <= 31
    ensures InflateData(src, c, lt, dt, history, fuel) == Inflated(c', Expand(codes, history, tokens), Finished)
    decreases |tokens|
  {
    hide *;
    ReadsShape(dt, codes.dist, md);
    TokensCursor(codes, tokens, c);
    if tokens == [] {
      c' := ReadsEnd(src, c, lt, dt, ml, codes, tokens, history, fuel);
    } else {
      TokensStep(codes, tokens, history);
      var next := Emit(history, tokens[0]);
      BitsAtConcat(src, c.Pos(), TokenBits(codes, tokens[0], |history|), TokensBits(codes, tokens[1..], |next|));
      var c1 := ReadsToken(src, c, lt, dt, ml, md, codes, tokens[0], history, fuel - 1);
      c' := ReadsTokens(src, c1, lt, dt, ml, md, codes, tokens[1..], next, fuel - 1);
    }
  }

  lemma TokensCursor(codes: Codes, tokens: seq<Token>, c: Cursor)
    requires c.Valid()
    ensures AfterTokens(codes, tokens, c)
         == if tokens == [] then AfterSymbol(c, CodeLength(codes.lit, END_OF_BLOCK))
            else AfterTokens(codes, tokens[1..], AfterToken(codes, tokens[0], c))
  {
    hide AfterSymbol, AfterToken, CodeLength;
  }

  lemma TokensStep(codes: Codes, tokens: seq<Token>, history: seq<Cell>)
    requires tokens != [] && HasCode(codes.lit, END_OF_BLOCK) && AllWritable(codes, tokens, |history|)
    ensures Writable(codes, tokens[0], |history|)
    ensures tokens[0].Match? ==> 1 <= tokens[0].distance <= |history|
    ensures var next := Emit(history, tokens[0]);
            && AllWritable(codes, tokens[1..], |next|)
            && TokensBits(codes, tokens, |history|)
               == TokenBits(codes, tokens[0], |history|) + TokensBits(codes, tokens[1..], |next|)
            && Expand(codes, history, tokens) == Expand(codes, next, tokens[1..])
  {
    hide *;
    WritableFirst(codes, tokens, |history|);
    TokensBitsStep(codes, tokens, |history|);
    ExpandStep(codes, history, tokens);
  }

  lemma ExpandStep(codes: Codes, history: seq<Cell>, tokens: seq<Token>)
    requires tokens != [] && AllWritable(codes, tokens, |history|)
    ensures tokens[0].Match? ==> 1 <= tokens[0].distance <= |history|
    ensures var next := Emit(history, tokens[0]);
            AllWritable(codes, tokens[1..], |next|)
                && Expand(codes, history, tokens) == Expand(codes, next, tokens[1..])
  {
    hide *;
    WritableFirst(codes, tokens, |history|);
    ExpandOnce(codes, history, tokens);
  }

  lemma ExpandOnce(codes: Codes, history: seq<Cell>, tokens: seq<Token>)
    requires tokens != [] && AllWritable(codes, tokens, |history|)
    requires tokens[0].Match? ==> 1 <= tokens[0].distance <= |history|
    requires AllWritable(codes, tokens[1..], |Emit(history, tokens[0])|)
    ensures Expand(codes, history, tokens) == Expand(codes, Emit(history, tokens[0]), tokens[1..])
  {
    hide AllWritable, Writable, Emit, Size;
  }

  lemma WritableFirst(codes: Codes, tokens: seq<Token>, before: nat)
    requires tokens != [] && AllWritable(codes, tokens, before)
    ensures Writable(codes, tokens[0], before) && AllWritable(codes, tokens[1..], before + Size(tokens[0]))
    ensures tokens[0].Match? ==> 1 <= tokens[0].distance <= before
  {
    hide HasCode, LengthIndex, DistanceIndex;
  }

  lemma TokensBitsStep(codes: Codes, tokens: seq<Token>, before: nat)
    requires tokens != [] && HasCode(codes.lit, END_OF_BLOCK) && AllWritable(codes, tokens, before)
    ensures Writable(codes, tokens[0], before) && AllWritable(codes, tokens[1..], before + Size(tokens[0]))
    ensures TokensBits(codes, tokens, before)
        == TokenBits(codes, tokens[0], before) + TokensBits(codes, tokens[1..], before + Size(tokens[0]))
  {
    hide TokenBits, SymbolBits, HasCode, Writable, Size;
  }

  lemma ReadsShape(t: Tree, lens: seq<int>, m: nat)
    requires Reads(t, lens, m)
    ensures |t.table| == MAX_BITS + 1
  {
  }

  lemma ReadsEnd(src: seq<byte>, c: Cursor, lt: Tree, dt: Tree, ml: nat, codes: Codes, tokens: seq<Token>,
                 history: seq<Cell>, fuel: nat) returns (c': Cursor)
    requires c.Valid() && Reads(lt, codes.lit, ml) && |dt.table| == MAX_BITS + 1
    requires HasCode(codes.lit, END_OF_BLOCK) && tokens == [] && fuel > 0
    requires BitsAt(src, c.Pos(), TokensBits(codes, tokens, |history|))
    ensures c'.Valid() && c'.Pos() == c.Pos() + |TokensBits(codes, tokens, |history|)|
    ensures c' == AfterTokens(codes, tokens, c)
    ensures 16 <= c'.count + codes.lit[END_OF_BLOCK] <= 31
    ensures InflateData(src, c, lt, dt, history, fuel) == Inflated(c', Expand(codes, history, tokens), Finished)
  {
    c' := ReadsSymbol(src, c, lt, codes.lit, ml, END_OF_BLOCK);
  }

  /* Dynamic headers */

  const ORDER_POSITION: seq<nat> := [3, 17, 15, 13, 11, 9, 7, 5, 4, 6, 8, 10, 12, 14, 16, 18, 0, 1, 2]

  lemma OrderIsPermutation()
    ensures forall k :: 0 <= k < 19 ==> ORDER_POSITION[CodeLengthSymbol(k)] == k
    ensures forall s :: 0 <= s < 19 ==> ORDER_POSITION[s] < 19 && CodeLengthSymbol(ORDER_POSITION[s]) == s
  {
  }

  /** lens has the entries of clens up to the i-th in the order they are written, and zeros. */
  ghost predicate PartlyRead(clens: seq<int>, i: nat, lens: seq<int>) {
    && |lens| == |clens| == 19 && (forall s :: 0 <= s < 19 ==> 0 <= lens[s] <= 7)
    && forall s :: 0 <= s < 19 ==> lens[s] == if ORDER_POSITION[s] < i then clens[s] else 0
  }

  lemma CodeLengthStep(src: seq<byte>, c: Cursor, i: nat, hclen: nat, lens: seq<int>, v: nat)
    requires c.Valid() && i < hclen <= 19 && |lens| == 19 && (forall s :: 0 <= s < 19 ==> 0 <= lens[s] <= 7)
    requires v == Value(src, c.Pos(), 3) <= 7
    ensures ReadCodeLengths(src, c, i, hclen, lens)
         == ReadCodeLengths(src, AfterBits(c, 3), i + 1, hclen, lens[CodeLengthSymbol(i) := v])
  {
    hide Value, AfterBits, CodeLengthSymbol;
  }

  lemma NextCodeLength(clens: seq<int>, i: nat, lens: seq<int>)
    requires i < 19 && PartlyRead(clens, i, lens) && 0 <= clens[CodeLengthSymbol(i)] <= 7
    ensures PartlyRead(clens, i + 1, lens[CodeLengthSymbol(i) := clens[CodeLengthSymbol(i)]])
  {
    OrderIsPermutation();
  }

  lemma {:induction false} ReadsCodeLengths(src: seq<byte>,
          c: Cursor, clens: seq<int>, hclen: nat, i: nat, lens: seq<int>)
    requires c.Valid() && |clens| == 19 && (forall s :: 0 <= s < 19 ==> 0 <= clens[s] <= 7)
    requires i <= hclen <= 19 && PartlyRead(clens, i, lens)
    requires BitsAt(src, c.Pos(), CodeLengthBits(clens, hclen, i))
    ensures PartlyRead(clens, hclen, ReadCodeLengths(src, c, i, hclen, lens).1)
    ensures ReadCodeLengths(src, c, i, hclen, lens).0.Pos() == c.Pos() + |CodeLengthBits(clens, hclen, i)|
    ensures ReadCodeLengths(src, c, i, hclen, lens).0 == AfterThrees(c, hclen - i)
    decreases hclen - i
  {
    hide *;
    PartlyReadIs(clens, i, lens);
    ThreesCursor(c, hclen - i);
    if i < hclen {
      var v := clens[CodeLengthSymbol(i)];
      CodeLengthBitsStep(clens, hclen, i, v);
      BitsAtConcat(src, c.Pos(), LsbBits(v, 3), CodeLengthBits(clens, hclen, i + 1));
      SmallPowers();
      ReadLsb(src, c.Pos(), v, 3);
      CodeLengthStep(src, c, i, hclen, lens, v);
      NextCodeLength(clens, i, lens);
      PartlyReadIs(clens, i + 1, lens[CodeLengthSymbol(i) := v]);
      ReadsCodeLengths(src, AfterBits(c, 3), clens, hclen, i + 1, lens[CodeLengthSymbol(i) := v]);
    } else {
      NoMoreCodeLengths(src, c, clens, hclen, lens);
    }
  }

  lemma ThreesCursor(c: Cursor, n: nat)
    requires c.Valid()
    ensures AfterThrees(c, n) == if n == 0 then c else AfterThrees(AfterBits(c, 3), n - 1)
  {
    hide AfterBits;
  }

  lemma PartlyReadIs(clens: seq<int>, i: nat, lens: seq<int>)
    requires PartlyRead(clens, i, lens)
    ensures |lens| == 19 && forall s :: 0 <= s < 19 ==> 0 <= lens[s] <= 7
  {
  }

  lemma CodeLengthBitsStep(clens: seq<int>, hclen: nat, i: nat, v: nat)
    requires |clens| == 19 && (forall s :: 0 <= s < 19 ==> 0 <= clens[s] <= 7)
        && i < hclen <= 19 && v == clens[CodeLengthSymbol(i)]
    ensures CodeLengthBits(clens, hclen, i) == LsbBits(v, 3) + CodeLengthBits(clens, hclen, i + 1)
  {
    hide LsbBits, CodeLengthSymbol;
  }

  lemma NoMoreCodeLengths(src: seq<byte>, c: Cursor, clens: seq<int>, hclen: nat, lens: seq<int>)
    requires c.Valid() && |clens| == 19 && (forall s :: 0 <= s < 19 ==> 0 <= clens[s] <= 7)
    requires hclen <= 19 && |lens| == 19 && forall s :: 0 <= s < 19 ==> 0 <= lens[s] <= 7
    ensures ReadCodeLengths(src, c, hclen, hclen, lens) == (c, lens) && CodeLengthBits(clens, hclen, hclen) == []
  {
  }

  lemma ReadsAllCodeLengths(src: seq<byte>, c: Cursor, clens: seq<int>, hclen: nat) returns (c': Cursor)
    requires c.Valid() && |clens| == 19 && (forall s :: 0 <= s < 19 ==> 0 <= clens[s] <= 7)
    requires hclen <= 19 && (forall i :: hclen <= i < 19 ==> clens[CodeLengthSymbol(i)] == 0)
    requires BitsAt(src, c.Pos(), CodeLengthBits(clens, hclen, 0))
    ensures c'.Valid() && c'.Pos() == c.Pos() + |CodeLengthBits(clens, hclen, 0)|
    ensures ReadCodeLengths(src, c, 0, hclen, Repeat(0, 19)) == (c', clens) && c' == AfterThrees(c, hclen)
  {
    OrderIsPermutation();
    assert PartlyRead(clens, 0, Repeat(0, 19));
    ReadsCodeLengths(src, c, clens, hclen, 0, Repeat(0, 19));
    var r := ReadCodeLengths(src, c, 0, hclen, Repeat(0, 19));
    c' := r.0;
    assert r.1 == clens by {
      forall s | 0 <= s < 19 ensures r.1[s] == clens[s] {
        assert clens[CodeLengthSymbol(ORDER_POSITION[s])] == clens[s];
      }
    }
  }

  lemma RunBitsSplit(clens: seq<int>, run: Run, before: nat)
    requires ValidRun(clens, run, before)
    ensures RunExtra(run).1 <= RunSize(run) < RunExtra(run).1 + Pow2(RunExtra(run).0)
    ensures RunBits(clens, run, before)
         == SymbolBits(clens, RunSymbol(run)) + LsbBits(RunSize(run) - RunExtra(run).1, RunExtra(run).0)
  {
    SmallPowers();
  }

  lemma ReadsRun(src: seq<byte>, c: Cursor, t: Tree, m: nat, clens: seq<int>, run: Run, sofar: seq<int>)
          returns (c': Cursor)
    requires c.Valid() && Reads(t, clens, m) && ValidRun(clens, run, |sofar|) && LengthList(sofar)
    requires BitsAt(src, c.Pos(), RunBits(clens, run, |sofar|))
    ensures c'.Valid() && c'.Pos() == c.Pos() + |RunBits(clens, run, |sofar|)|
    ensures c' == AfterBits(AfterSymbol(c, CodeLength(clens, RunSymbol(run))), RunExtra(run).0)
    ensures var (c1, sym) := DecodeSymbol(src, c, t);
            UNDEFINED <= sym < 19 && ReadRun(src, c1, sym, sofar) == (c', RunLengths(sofar, run))
    ensures LengthList(RunLengths(sofar, run))
  {
    hide *;
    RunFacts(clens, run, sofar);
    var s, e := SymbolBits(clens, RunSymbol(run)), RunExtra(run);
    RunBitsSplit(clens, run, |sofar|);
    var x := LsbBits(RunSize(run) - e.1, e.0);
    BitsAtConcat(src, c.Pos(), s, x);
    var c1 := ReadsSymbol(src, c, t, clens, m, RunSymbol(run));
    ReadLsb(src, c1.Pos(), RunSize(run) - e.1, e.0);
    c' := AfterBits(c1, e.0);
    RunIs(src, c1, run, sofar);
  }

  lemma RunFacts(clens: seq<int>, run: Run, sofar: seq<int>)
    requires ValidRun(clens, run, |sofar|) && LengthList(sofar)
    ensures UNDEFINED <= RunSymbol(run) < 19 && (run.Length? ==> run.length <= 15) && (run.Again? ==> sofar != [])
    ensures HasCode(clens, RunSymbol(run)) && RunSymbol(run) < |clens| && clens[RunSymbol(run)] > 0
    ensures RunExtra(run).0 <= 7
    ensures |SymbolBits(clens, RunSymbol(run))| == clens[RunSymbol(run)]
    ensures LengthList(RunLengths(sofar, run))
  {
  }

  lemma RunIs(src: seq<byte>, c: Cursor, run: Run, sofar: seq<int>)
    requires c.Valid() && LengthList(sofar) && RunSymbol(run) < 19 && (run.Length? ==> run.length <= 15)
    requires run.Again? ==> sofar != []
    requires RunExtra(run).1 <= RunSize(run)
    requires Value(src, c.Pos(), RunExtra(run).0) == RunSize(run) - RunExtra(run).1
    ensures ReadRun(src, c, RunSymbol(run), sofar) == (AfterBits(c, RunExtra(run).0), RunLengths(sofar, run))
  {
    hide Value, Fill, Skip, Repeat, LengthList;
  }

  lemma RunsStep(clens: seq<int>, runs: seq<Run>, sofar: seq<int>)
    requires runs != [] && ValidRuns(clens, runs, |sofar|)
    ensures ValidRun(clens, runs[0], |sofar|)
    ensures runs[0].Again? ==> sofar != []
    ensures var next := sofar + RunLengths(sofar, runs[0]);
            && ValidRuns(clens, runs[1..], |next|)
            && RunsBits(clens, runs, |sofar|) == RunBits(clens, runs[0], |sofar|) + RunsBits(clens, runs[1..], |next|)
            && Lengths(clens, sofar, runs) == Lengths(clens, next, runs[1..])
            && |sofar| < |Lengths(clens, sofar, runs)|
  {
    hide RunBits, HasCode;
  }

  lemma ReadLengthsStep(src: seq<byte>, c: Cursor, t: Tree, lens: seq<int>,
          target: nat, c1: Cursor, sym: int, c2: Cursor, more: seq<int>)
    requires c.Valid() && CodeLengthTree(t) && LengthList(lens) && |lens| < target
    requires DecodeSymbol(src, c, t) == (c1, sym) && c1.Valid() && UNDEFINED <= sym < 19
    requires ReadRun(src, c1, sym, lens) == (c2, more) && LengthList(more) && c2.Valid()
    ensures LengthList(lens + more)
    ensures ReadLengths(src, c, t, lens, target) == ReadLengths(src, c2, t, lens + more, target)
  {
    hide DecodeSymbol, ReadRun;
  }

  lemma RunsEnd(src: seq<byte>, c: Cursor, t: Tree, clens: seq<int>, sofar: seq<int>, target: nat)
    requires c.Valid() && CodeLengthTree(t) && LengthList(sofar) && |sofar| == target
    ensures ReadLengths(src, c, t, sofar, target) == (c, sofar)
  {
  }

  lemma NoRuns(clens: seq<int>, runs: seq<Run>, sofar: seq<int>)
    requires runs == [] && ValidRuns(clens, runs, |sofar|)
    ensures RunsBits(clens, runs, |sofar|) == [] && Lengths(clens, sofar, runs) == sofar
  {
  }

  /** The runs are read back to the code lengths they were written from. */
  lemma {:induction false} ReadsLengths(src: seq<byte>, c: Cursor, t: Tree, m: nat, clens: seq<int>, runs: seq<Run>,
                                        sofar: seq<int>, target: nat) returns (c': Cursor)
    requires c.Valid() && Reads(t, clens, m) && CodeLengthTree(t) && LengthList(sofar)
    requires ValidRuns(clens, runs, |sofar|) && |Lengths(clens, sofar, runs)| == target
    requires BitsAt(src, c.Pos(), RunsBits(clens, runs, |sofar|))
    ensures c'.Valid() && c'.Pos() == c.Pos() + |RunsBits(clens, runs, |sofar|)|
    ensures c' == AfterRuns(clens, runs, c)
    ensures ReadLengths(src, c, t, sofar, target) == (c', Lengths(clens, sofar, runs))
    decreases |runs|
  {
    hide *;
    RunsCursor(clens, runs, c);
    if runs == [] {
      NoRuns(clens, runs, sofar);
      RunsEnd(src, c, t, clens, sofar, target);
      c' := c;
    } else {
      ReadsShape(t, clens, m);
      RunsStep(clens, runs, sofar);
      var more := RunLengths(sofar, runs[0]);
      BitsAtConcat(src, c.Pos(), RunBits(clens, runs[0], |sofar|), RunsBits(clens, runs[1..], |sofar + more|));
      var c2 := ReadsRun(src, c, t, m, clens, runs[0], sofar);
      var (c1, sym) := DecodeSymbol(src, c, t);
      ReadLengthsStep(src, c, t, sofar, target, c1, sym, c2, more);
      c' := ReadsLengths(src, c2, t, m, clens, runs[1..], sofar + more, target);
    }
  }

  lemma RunsCursor(clens: seq<int>, runs: seq<Run>, c: Cursor)
    requires c.Valid()
    ensures AfterRuns(clens, runs, c)
         == if runs == [] then c
            else AfterRuns(clens, runs[1..],
              AfterBits(AfterSymbol(c, CodeLength(clens, RunSymbol(runs[0]))), RunExtra(runs[0]).0))
  {
    hide AfterBits, AfterSymbol, CodeLength;
  }

  lemma HeaderSplit(h: Header)
    requires ValidHeader(h)
    ensures |h.codes.lit| - 257 < Pow2(5) && |h.codes.dist| - 1 < Pow2(5) && h.hclen - 4 < Pow2(4)
    ensures HeaderBits(h) == LsbBits(|h.codes.lit| - 257, 5) + (LsbBits(|h.codes.dist| - 1, 5)
              + (LsbBits(h.hclen - 4, 4) + (CodeLengthBits(h.clens, h.hclen, 0) + RunsBits(h.clens, h.runs, 0))))
  {
    hide CodeLengthBits, RunsBits, LsbBits, Usable, Realizable, Lengths;
    SmallPowers();
  }

  /** Three numbers of the header, read one after the other. */
  lemma ReadsCounts(src: seq<byte>, c: Cursor, h: Header, rest: seq<bit>) returns (c2: Cursor)
    requires c.Valid() && 257 <= |h.codes.lit| < 257 + Pow2(5)
        && 1 <= |h.codes.dist| < 1 + Pow2(5) && 4 <= h.hclen < 4 + Pow2(4)
    requires BitsAt(src, c.Pos(), LsbBits(|h.codes.lit| - 257, 5) + (LsbBits(|h.codes.dist| - 1, 5)
                                  + (LsbBits(h.hclen - 4, 4) + rest)))
    ensures c2 == AfterBits(AfterBits(c, 5), 5) && BitsAt(src, c.Pos() + 14, rest)
    ensures BitsValue(src, c, 5, 257) == |h.codes.lit| && BitsValue(src, AfterBits(c, 5), 5, 1) == |h.codes.dist|
    ensures BitsValue(src, c2, 4, 4) == h.hclen
  {
    hide LsbBits, BitsAt, Value, Pow2;
    var a, b, d := LsbBits(|h.codes.lit| - 257, 5), LsbBits(|h.codes.dist| - 1, 5), LsbBits(h.hclen - 4, 4);
    BitsAtConcat(src, c.Pos(), a, b + (d + rest));
    BitsAtConcat(src, c.Pos() + 5, b, d + rest);
    BitsAtConcat(src, c.Pos() + 10, d, rest);
    ReadLsb(src, c.Pos(), |h.codes.lit| - 257, 5);
    ReadLsb(src, c.Pos() + 5, |h.codes.dist| - 1, 5);
    ReadLsb(src, c.Pos() + 10, h.hclen - 4, 4);
    c2 := AfterBits(AfterBits(c, 5), 5);
  }

  lemma CodeLengthTables(h: Header)
    requires ValidHeader(h)
    ensures Reads(TreeOf(h.clens, MAX_BITS), h.clens, MAX_BITS) && CodeLengthTree(TreeOf(h.clens, MAX_BITS))
  {
    hide ValidRuns, Lengths, KraftSum, Usable;
    TreeBuilds(h.clens, MAX_BITS);
  }

  lemma HeaderFacts(h: Header)
    requires ValidHeader(h)
    ensures ValidRuns(h.clens, h.runs, 0) && Lengths(h.clens, [], h.runs) == h.codes.lit + h.codes.dist
    ensures |h.clens| == 19 && 4 <= h.hclen <= 19 && (forall s :: 0 <= s < 19 ==> 0 <= h.clens[s] <= 7)
    ensures forall i :: h.hclen <= i < 19 ==> h.clens[CodeLengthSymbol(i)] == 0
    ensures 257 <= |h.codes.lit| && 1 <= |h.codes.dist|
    ensures Usable(h.codes)
  {
  }

  lemma NoLengths()
    ensures LengthList([])
  {
  }

  lemma SplitAll(lit: seq<int>, dist: seq<int>, all: seq<int>)
    requires all == lit + dist
    ensures all[..|lit|] == lit && all[|lit|..|lit| + |dist|] == dist
  {
  }

  /** Dynamic tree header round trip: decode_trees builds its trees from exactly the code
      lengths the header was written from. */
  lemma ReadsHeader(src: seq<byte>, c: Cursor, h: Header) returns (c': Cursor)
    requires c.Valid() && ValidHeader(h) && BitsAt(src, c.Pos(), HeaderBits(h))
    ensures c'.Valid() && c'.Pos() == c.Pos() + |HeaderBits(h)|
    ensures DecodeTrees(src, c) == Trees(c', h.codes) && c' == AfterHeader(h, c)
  {
    hide *;
    HeaderCursor(h, c);
    NoLengths();
    HeaderSplit(h);
    HeaderFacts(h);
    CodeLengthTables(h);
    var x, y := CodeLengthBits(h.clens, h.hclen, 0), RunsBits(h.clens, h.runs, 0);
    var c2 := ReadsCounts(src, c, h, x + y);
    BitsAtConcat(src, c.Pos() + 14, x, y);
    var c3 := ReadsAllCodeLengths(src, AfterBits(c2, 4), h.clens, h.hclen);
    var all := Lengths(h.clens, [], h.runs);
    c' := ReadsLengths(src, c3, TreeOf(h.clens, MAX_BITS), MAX_BITS, h.clens, h.runs, [], |all|);
    DecodeTreesIs(src, c, c2, c3, c', h.clens, all, |h.codes.lit|, |h.codes.dist|, h.hclen);
    SplitAll(h.codes.lit, h.codes.dist, all);
  }

  lemma HeaderCursor(h: Header, c: Cursor)
    requires c.Valid()
    ensures AfterHeader(h, c)
         == AfterRuns(h.clens, h.runs, AfterThrees(AfterBits(AfterBits(AfterBits(c, 5), 5), 4), h.hclen))
  {
    hide AfterRuns, AfterThrees, AfterBits;
  }

  /* Stored blocks */

  lemma ReadsByte(src: seq<byte>, i: nat, b: byte, n: nat)
    requires n == 8 && BitsAt(src, 8 * i, LsbBits(b, n))
    ensures i < |src| && src[i] == b
  {
    hide LsbBits, Value;
    PowersUpTo31();
    ReadLsb(src, 8 * i, b, n);
    ValueByte(src, i, n);
  }

  lemma Inside(src: seq<byte>, p: nat, bits: seq<bit>)
    requires BitsAt(src, p, bits)
    ensures p + |bits| <= 8 * |src|
  {
  }

  lemma Width()
    ensures BYTE_WIDTH == 8
  {
  }

  lemma DataStep(data: seq<byte>, n: nat)
    requires data != [] && n == 8
    ensures DataBits(data) == LsbBits(data[0], n) + DataBits(data[1..])
    ensures [data[0]] + data[1..] == data
  {
    hide LsbBits;
  }

  lemma Consecutive(src: seq<byte>, i: nat, data: seq<byte>)
    requires data != [] && i + |data| <= |src| && src[i] == data[0] && src[i + 1..i + |data|] == data[1..]
    ensures src[i..i + |data|] == data
  {
    assert src[i..i + |data|] == [src[i]] + src[i + 1..i + |data|];
  }

  lemma {:induction false} ReadsData(src: seq<byte>, i: nat, data: seq<byte>)
    requires BitsAt(src, 8 * i, DataBits(data))
    ensures i + |data| <= |src| && src[i..i + |data|] == data
    decreases data
  {
    hide *;
    if data != [] {
      Width();
      DataStep(data, BYTE_WIDTH);
      BitsAtConcat(src, 8 * i, LsbBits(data[0], BYTE_WIDTH), DataBits(data[1..]));
      ReadsByte(src, i, data[0], BYTE_WIDTH);
      ReadsData(src, i + 1, data[1..]);
      Consecutive(src, i, data);
    } else {
      Inside(src, 8 * i, DataBits(data));
    }
  }

  lemma ReadsWord(src: seq<byte>, i: nat, w: nat)
    requires w < 0x1_0000 && BitsAt(src, 8 * i, LsbBits(w, 16))
    ensures Word(src, i) == w && i + 2 <= |src|
  {
    hide LsbBits, Value;
    PowersUpTo31();
    ReadLsb(src, 8 * i, w, 16);
    ValueSplit(src, 8 * i, BYTE_WIDTH, BYTE_WIDTH);
    ValueByte(src, i, BYTE_WIDTH);
    ValueByte(src, i + 1, BYTE_WIDTH);
  }

  lemma RewindsToBoundary(c: Cursor)
    requires c.Valid() && c.count > 7
    ensures Rewound(c).Pos() == c.Pos() + ToBoundary(c.Pos()) == 8 * Rewound(c).index
  {
    GivesBack(c.index, c.count);
  }

  lemma GivesBack(index: nat, count: nat)
    requires count <= 8 * index
    ensures var p, q := 8 * index - count, count / 8;
            index - q >= 0 && p + (8 - p % 8) % 8 == 8 * (index - q)
  {
    var p, q, r := 8 * index - count, count / 8, count % 8;
    assert count == 8 * q + r;
    assert p == 8 * (index - q) - r;
    if r == 0 {
      assert p % 8 == 0;
    } else {
      assert p == 8 * (index - q - 1) + (8 - r);
      assert p % 8 == 8 - r;
    }
  }

  lemma StoredBits(pad: seq<bit>, data: seq<byte>, p: nat, before: nat)
    requires ValidBody(Stored(pad, data), p, before)
    ensures BodyBits(Stored(pad, data), p, before)
         == pad + (LsbBits(|data|, 16) + (LsbBits(0xffff - |data|, 16) + DataBits(data)))
    ensures |pad| == ToBoundary(p) && |data| < 0x1_0000
    ensures |BodyBits(Stored(pad, data), p, before)| == |pad| + 32 + 8 * |data|
  {
    hide LsbBits, DataBits;
  }

  /** A stored block is read back from the byte boundary the prefetched bits are returned to. */
  lemma ReadsStored(src: seq<byte>, c: Cursor, pad: seq<bit>, data: seq<byte>, history: seq<Cell>) returns (c': Cursor)
    requires c.Valid() && c.count > 7 && ValidBody(Stored(pad, data), c.Pos(), |history|)
    requires BitsAt(src, c.Pos(), BodyBits(Stored(pad, data), c.Pos(), |history|))
    ensures c'.Valid() && c'.count == 0 && c'.Pos() == c.Pos() + |BodyBits(Stored(pad, data), c.Pos(), |history|)|
    ensures InflateStored(src, c, history) == Inflated(c', history + data, Finished)
  {
    hide *;
    StoredBits(pad, data, c.Pos(), |history|);
    RewindsToBoundary(c);
    var i, n := Rewound(c).index, |data|;
    var x, y, z := LsbBits(n, 16), LsbBits(0xffff - n, 16), DataBits(data);
    BitsAtConcat(src, c.Pos(), pad, x + (y + z));
    BitsAtConcat(src, 8 * i, x, y + z);
    BitsAtConcat(src, 8 * i + 16, y, z);
    ReadsWord(src, i, n);
    assert 8 * (i + 2) == 8 * i + 16 && 8 * (i + 4) == 8 * i + 32;
    ReadsWord(src, i + 2, 0xffff - n);
    ReadsData(src, i + 4, data);
    StoredIs(src, c, i, data, history);
    c' := Cursor(i + 4 + n, 0);
    CursorAt(i + 4 + n);
  }

  lemma CursorAt(i: nat)
    ensures Cursor(i, 0).Valid() && Cursor(i, 0).Pos() == 8 * i
  {
  }

  lemma StoredIs(src: seq<byte>, c: Cursor, i: nat, data: seq<byte>, history: seq<Cell>)
    requires c.Valid() && Rewound(c).index == i && |data| < 0x1_0000
    requires Word(src, i) == |data| && Word(src, i + 2) == 0xffff - |data|
    requires i + 4 + |data| <= |src| && src[i + 4..i + 4 + |data|] == data
    ensures InflateStored(src, c, history) == Inflated(Cursor(i + 4 + |data|, 0), history + data, Finished)
  {
    hide Rewound, Word;
    var r := SourceCells(src, i + 4, |data|);
    forall k | 0 <= k < |data| ensures r[k] == data[k] {
      assert data[k] == src[i + 4..i + 4 + |data|][k];
    }
    assert r == data;
  }

  /* Blocks */

  /** Enough symbols for every block of the stream. */
  /** How many bits may be buffered behind a block body: none behind a stored one, and as many as decoding
      the end of the others leaves. */
  predicate BuffersAfter(b: Body, n: nat) {
    match b
    case Stored(_, _) => n == 0
    case Fixed(_) => 9 <= n <= 24
    case Dynamic(h, _) => HasCode(h.codes.lit, END_OF_BLOCK) && 16 <= n + h.codes.lit[END_OF_BLOCK] <= 31
  }

  predicate EnoughFuel(b: Body, fuel: nat) {
    match b
    case Stored(_, _) => true
    case Fixed(tokens) => |tokens| < fuel
    case Dynamic(_, tokens) => |tokens| < fuel
  }

  lemma ReadsFixed(src: seq<byte>, c: Cursor, tokens: seq<Token>, history: seq<Cell>, fuel: nat) returns (c': Cursor)
    requires c.Valid() && ValidBody(Fixed(tokens), c.Pos(), |history|) && |tokens| < fuel
    requires BitsAt(src, c.Pos(), BodyBits(Fixed(tokens), c.Pos(), |history|))
    ensures c'.Valid() && c'.Pos() == c.Pos() + |BodyBits(Fixed(tokens), c.Pos(), |history|)|
    ensures c' == AfterTokens(FixedCodes(), tokens, c)
    ensures 9 <= c'.count <= 24
    ensures InflateBody(src, c, 1, history, fuel) == Inflated(c', ExpandBody(Fixed(tokens), c.Pos(), history), Finished)
  {
    hide Realizable, Builds, TokensBits, Expand, AllWritable, InflateData, BitsAt, AfterTokens;
    FixedLitBuilds();
    FixedDistBuilds();
    c' := ReadsTokens(src, c, FIXED_LIT_TREE, FIXED_DIST_TREE, 9, 5, FixedCodes(), tokens, history, fuel);
    FixedEnd();
  }

  lemma FixedEnd()
    ensures |FixedCodes().lit| > END_OF_BLOCK && FixedCodes().lit[END_OF_BLOCK] == 7
  {
  }

  lemma TreeReads(lens: seq<int>)
    requires Realizable(lens, MAX_BITS)
    ensures Reads(TreeOf(lens, MAX_BITS), lens, MAX_BITS)
  {
    TreeBuilds(lens, MAX_BITS);
  }

  lemma DynamicIs(src: seq<byte>, c: Cursor, c1: Cursor, h: Header, history: seq<Cell>, fuel: nat)
    requires c.Valid() && DecodeTrees(src, c) == Trees(c1, h.codes) && c1.Valid()
    ensures InflateBody(src, c, 2, history, fuel)
         == InflateData(src, c1, TreeOf(h.codes.lit, MAX_BITS), TreeOf(h.codes.dist, MAX_BITS), history, fuel)
  {
    hide DecodeTrees, InflateData, TreeOf;
  }

  lemma DynamicBits(h: Header, tokens: seq<Token>, p: nat, history: seq<Cell>)
    requires ValidBody(Dynamic(h, tokens), p, |history|)
    ensures ValidHeader(h) && HasCode(h.codes.lit, END_OF_BLOCK) && AllWritable(h.codes, tokens, |history|)
    ensures Realizable(h.codes.lit, MAX_BITS) && Realizable(h.codes.dist, MAX_BITS)
    ensures BodyBits(Dynamic(h, tokens), p, |history|) == HeaderBits(h) + TokensBits(h.codes, tokens, |history|)
    ensures ExpandBody(Dynamic(h, tokens), p, history) == Expand(h.codes, history, tokens)
  {
    hide HeaderBits, TokensBits, AllWritable, Expand, Realizable, Lengths;
  }

  lemma ReadsDynamic(src: seq<byte>, c: Cursor, h: Header, tokens: seq<Token>, history: seq<Cell>, fuel: nat)
          returns (c': Cursor)
    requires c.Valid() && ValidBody(Dynamic(h, tokens), c.Pos(), |history|) && |tokens| < fuel
    requires BitsAt(src, c.Pos(), BodyBits(Dynamic(h, tokens), c.Pos(), |history|))
    ensures c'.Valid() && c'.Pos() == c.Pos() + |BodyBits(Dynamic(h, tokens), c.Pos(), |history|)|
    ensures c' == AfterTokens(h.codes, tokens, AfterHeader(h, c))
    ensures HasCode(h.codes.lit, END_OF_BLOCK) && 16 <= c'.count + h.codes.lit[END_OF_BLOCK] <= 31
    ensures InflateBody(src, c, 2, history, fuel)
        == Inflated(c', ExpandBody(Dynamic(h, tokens), c.Pos(), history), Finished)
  {
    hide *;
    DynamicBits(h, tokens, c.Pos(), history);
    BitsAtConcat(src, c.Pos(), HeaderBits(h), TokensBits(h.codes, tokens, |history|));
    var c1 := ReadsHeader(src, c, h);
    TreeReads(h.codes.lit);
    TreeReads(h.codes.dist);
    DynamicIs(src, c, c1, h, history, fuel);
    c' := ReadsTokens(src, c1, TreeOf(h.codes.lit, MAX_BITS), TreeOf(h.codes.dist, MAX_BITS), MAX_BITS, MAX_BITS,
                      h.codes, tokens, history, fuel);
  }

  /** Every kind of block body is read to its end and expanded. */
  lemma ReadsBody(src: seq<byte>, c: Cursor, b: Body, history: seq<Cell>, fuel: nat) returns (c': Cursor)
    requires c.Valid() && c.count > 7 && ValidBody(b, c.Pos(), |history|) && EnoughFuel(b, fuel)
    requires BitsAt(src, c.Pos(), BodyBits(b, c.Pos(), |history|))
    ensures c'.Valid() && c'.Pos() == c.Pos() + |BodyBits(b, c.Pos(), |history|)| && BuffersAfter(b, c'.count)
    ensures c' == AfterBody(b, c)
    ensures b.Stored? ==> c'.count == 0
    ensures InflateBody(src, c, BodyType(b), history, fuel) == Inflated(c', ExpandBody(b, c.Pos(), history), Finished)
  {
    hide BodyBits, ValidBody, BitsAt, InflateStored, InflateData, InflateDynamic, Expand, AfterTokens, AfterHeader;
    match b
    case Stored(pad, data) =>
      c' := ReadsStored(src, c, pad, data, history);
      StoredBits(pad, data, c.Pos(), |history|);
    case Fixed(tokens) =>
      c' := ReadsFixed(src, c, tokens, history, fuel);
    case Dynamic(header, tokens) =>
      c' := ReadsDynamic(src, c, header, tokens, history, fuel);
  }

  /* Streams */

  predicate AllEnoughFuel(bs: seq<Block>, fuel: nat) {
    forall i :: 0 <= i < |bs| ==> EnoughFuel(bs[i].body, fuel)
  }

  /** How a stream ends: with a final block and a trailer of four bytes (section 2.2 of RFC
      1950), or, when more follows in a later call, with a stored block that ends the source. */
  predicate Terminated(src: seq<byte>, bs: seq<Block>, end: nat) {
    bs != [] &&
    var last := bs[|bs| - 1];
    if last.final then end + 32 <= 8 * |src| else last.body.Stored? && end == 8 * |src|
  }

  lemma BlocksStep(bs: seq<Block>, p: nat, history: seq<Cell>)
    requires bs != [] && ValidBlocks(bs, p, history)
    ensures ValidBody(bs[0].body, p + 3, |history|) && (bs[0].final ==> |bs| == 1)
    ensures var end, next := BlockEnd(bs[0], p, |history|), ExpandBody(bs[0].body, p + 3, history);
            && ValidBlocks(bs[1..], end, next)
            && end == p + |BlockBits(bs[0], p, |history|)|
            && BlocksBits(bs, p, history) == BlockBits(bs[0], p, |history|) + BlocksBits(bs[1..], end, next)
            && ExpandBlocks(bs, p, history) == ExpandBlocks(bs[1..], end, next)
  {
    hide ValidBody, ExpandBody, BlockBits;
  }

  lemma NoBlocks(bs: seq<Block>, p: nat, history: seq<Cell>)
    requires bs == [] && ValidBlocks(bs, p, history)
    ensures BlocksBits(bs, p, history) == [] && ExpandBlocks(bs, p, history) == history
  {
  }

  lemma BlockSplit(b: Block, p: nat, before: nat)
    requires ValidBody(b.body, p + 3, before)
    ensures BlockBits(b, p, before)
         == [if b.final then 1 else 0] + (LsbBits(BodyType(b.body), 2) + BodyBits(b.body, p + 3, before))
    ensures |BlockBits(b, p, before)| == 3 + |BodyBits(b.body, p + 3, before)|
    ensures BodyType(b.body) < Pow2(2)
  {
    hide BodyBits, ValidBody, LsbBits;
    SmallPowers();
  }

  /** At least 35 bits of a stream that ends with a stored block remain before its last block. */
  lemma {:induction false} StoredTail(bs: seq<Block>, p: nat, history: seq<Cell>)
    requires bs != [] && ValidBlocks(bs, p, history) && bs[|bs| - 1].body.Stored?
    ensures |BlocksBits(bs, p, history)| >= 35
    decreases |bs|
  {
    hide *;
    BlocksStep(bs, p, history);
    if |bs| == 1 {
      BlockSplit(bs[0], p, |history|);
      StoredBits(bs[0].body.pad, bs[0].body.data, p + 3, |history|);
    } else {
      StoredTail(bs[1..], BlockEnd(bs[0], p, |history|), ExpandBody(bs[0].body, p + 3, history));
    }
  }

  lemma ReadsFlag(src: seq<byte>, c: Cursor, flag: bit, t: nat, body: seq<bit>)
    requires c.Valid() && t < Pow2(2) && BitsAt(src, c.Pos(), [flag] + (LsbBits(t, 2) + body))
    ensures Bit(src, c.Pos()) == flag && Value(src, c.Pos() + 1, 2) == t && BitsAt(src, c.Pos() + 3, body)
  {
    hide LsbBits, Value, Bit;
    var p := c.Pos();
    BitsAtConcat(src, p, [flag], LsbBits(t, 2) + body);
    BitsAtConcat(src, p + 1, LsbBits(t, 2), body);
    ReadLsb(src, p + 1, t, 2);
    assert Bit(src, p + 0) == [flag][0];
  }

  /** The position and buffer of the cursor with which a block body is read. */
  lemma BodyCursor(c: Cursor) returns (c2: Cursor)
    requires c.Valid()
    ensures AfterBit(c).Valid() && AfterBit(c).Pos() == c.Pos() + 1
    ensures c2 == AfterBits(AfterBit(c), 2) && c2.Valid() && c2.Pos() == c.Pos() + 3 && c2.count > 7
  {
    c2 := AfterBits(AfterBit(c), 2);
  }

  lemma InflateBlocksStep(src: seq<byte>, c: Cursor, history: seq<Cell>, fuel: nat, c2: Cursor, t: nat, r: Inflated)
    requires c.Valid() && c2.Valid() && c2 == AfterBits(AfterBit(c), 2) && Value(src, c.Pos() + 1, 2) == t
    requires InflateBody(src, c2, t, history, fuel) == r && r.outcome == Finished
    ensures InflateBlocks(src, c, history, fuel)
         == if Bit(src, c.Pos()) == 1 || r.cursor.index >= |src| then r
            else InflateBlocks(src, r.cursor, r.history, fuel)
  {
    hide InflateBody, Value, Bit, AfterBits;
  }

  lemma IndexBefore(c: Cursor, n: nat)
    requires c.Valid()
    ensures c.Pos() + 32 <= 8 * n ==> c.index < n
    ensures c.count == 0 && c.Pos() == 8 * n ==> c.index == n
  {
  }

  lemma OneMore(src: seq<byte>, bs: seq<Block>, end: nat, fuel: nat)
    requires |bs| > 1 && Terminated(src, bs, end) && AllEnoughFuel(bs, fuel)
    ensures Terminated(src, bs[1..], end) && AllEnoughFuel(bs[1..], fuel)
    ensures bs[|bs| - 1].final ==> end + 32 <= 8 * |src|
    ensures !bs[|bs| - 1].final ==> bs[|bs| - 1].body.Stored? && end == 8 * |src|
  {
    hide EnoughFuel;
  }

  lemma LastOne(src: seq<byte>, bs: seq<Block>, end: nat)
    requires |bs| == 1 && Terminated(src, bs, end)
    ensures !bs[0].final ==> bs[0].body.Stored? && end == 8 * |src|
  {
  }

  lemma FirstFuel(bs: seq<Block>, fuel: nat)
    requires bs != [] && AllEnoughFuel(bs, fuel)
    ensures EnoughFuel(bs[0].body, fuel)
  {
  }

  lemma ReadsBlock(src: seq<byte>, c: Cursor, b: Block, history: seq<Cell>, fuel: nat) returns (c': Cursor)
    requires c.Valid() && ValidBody(b.body, c.Pos() + 3, |history|) && EnoughFuel(b.body, fuel)
    requires BitsAt(src, c.Pos(), BlockBits(b, c.Pos(), |history|))
    ensures c'.Valid() && c'.Pos() == c.Pos() + |BlockBits(b, c.Pos(), |history|)|
    ensures BuffersAfter(b.body, c'.count) && (b.body.Stored? ==> c'.count == 0) && c' == AfterBlock(b, c)
    ensures InflateBlocks(src, c, history, fuel)
         == if b.final || c'.index >= |src| then Inflated(c', ExpandBody(b.body, c.Pos() + 3, history), Finished)
            else InflateBlocks(src, c', ExpandBody(b.body, c.Pos() + 3, history), fuel)
  {
    hide *;
    BlockSplit(b, c.Pos(), |history|);
    ReadsFlag(src, c, if b.final then 1 else 0, BodyType(b.body), BodyBits(b.body, c.Pos() + 3, |history|));
    var c2 := BodyCursor(c);
    c' := ReadsBody(src, c2, b.body, history, fuel);
    BlockCursor(b, c);
    InflateBlocksStep(src, c, history, fuel, c2, BodyType(b.body),
                      Inflated(c', ExpandBody(b.body, c2.Pos(), history), Finished));
  }

  lemma BlockCursor(b: Block, c: Cursor)
    requires c.Valid()
    ensures AfterBlock(b, c) == AfterBody(b.body, AfterBits(AfterBit(c), 2))
  {
    hide AfterBody, AfterBits, AfterBit;
  }

  /** The block loop reads every block of the stream, however many bits it has prefetched, and
      stops after the last. */
  lemma {:induction false} ReadsBlocks(src: seq<byte>, c: Cursor, bs: seq<Block>, history: seq<Cell>, fuel: nat)
    returns (c': Cursor)
    requires c.Valid() && ValidBlocks(bs, c.Pos(), history) && AllEnoughFuel(bs, fuel)
    requires BitsAt(src, c.Pos(), BlocksBits(bs, c.Pos(), history))
    requires Terminated(src, bs, c.Pos() + |BlocksBits(bs, c.Pos(), history)|) && bs != []
    ensures c'.Valid() && c'.Pos() == c.Pos() + |BlocksBits(bs, c.Pos(), history)|
    ensures InflateBlocks(src, c, history, fuel) == Inflated(c', ExpandBlocks(bs, c.Pos(), history), Finished)
    decreases |bs|
  {
    hide *;
    var p := c.Pos();
    var total := p + |BlocksBits(bs, p, history)|;
    BlocksStep(bs, p, history);
    FirstFuel(bs, fuel);
    var end, next := BlockEnd(bs[0], p, |history|), ExpandBody(bs[0].body, p + 3, history);
    BitsAtConcat(src, p, BlockBits(bs[0], p, |history|), BlocksBits(bs[1..], end, next));
    var c1 := ReadsBlock(src, c, bs[0], history, fuel);
    IndexBefore(c1, |src|);
    if |bs| == 1 {
      NoBlocks(bs[1..], end, next);
      LastOne(src, bs, total);
      c' := c1;
    } else {
      OneMore(src, bs, total, fuel);
      if !bs[|bs| - 1].final { StoredTail(bs[1..], end, next); }
      assert c1.index < |src|;
      c' := ReadsBlocks(src, c1, bs[1..], next, fuel);
    }
  }

  /* One call */

  /** Where the blocks of a call start: after the two header bytes in the first call only. */
  function Start(offset: nat, headerSeen: bool): nat {
    8 * offset + (if headerSeen then 0 else 16)
  }

  lemma UncompressIs(src: seq<byte>, offset: nat, headerSeen: bool, history: seq<Cell>, fuel: nat) returns (c: Cursor)
    ensures c == FirstCursor(offset, headerSeen) && c.Valid() && c.Pos() == Start(offset, headerSeen)
    ensures Uncompress(src, offset, headerSeen, history, fuel) == InflateBlocks(src, c, history, fuel)
  {
    hide InflateBlocks, FirstCursor;
    c := FirstCursor(offset, headerSeen);
  }

  /** Inflate round trip: uncompress returns exactly the expansion of the blocks it is given. */
  lemma RoundTrip(src: seq<byte>, offset: nat, headerSeen: bool, bs: seq<Block>, history: seq<Cell>, fuel: nat)
    requires bs != [] && AllEnoughFuel(bs, fuel)
    requires ValidBlocks(bs, Start(offset, headerSeen), history)
    requires BitsAt(src, Start(offset, headerSeen), BlocksBits(bs, Start(offset, headerSeen), history))
    requires Terminated(src, bs, Start(offset, headerSeen) + |BlocksBits(bs, Start(offset, headerSeen), history)|)
    ensures var r := Uncompress(src, offset, headerSeen, history, fuel);
            r.outcome == Finished && r.history == ExpandBlocks(bs, Start(offset, headerSeen), history)
  {
    hide *;
    var c := UncompressIs(src, offset, headerSeen, history, fuel);
    var c' := ReadsBlocks(src, c, bs, history, fuel);
  }

  /** What a compressor sends for the blocks: a header, the blocks and a trailer. */
  function Compressed(header: nat, bs: seq<Block>, trailer: seq<bit>): seq<byte>
    requires ValidBlocks(bs, 16, [])
  {
    Pack(LsbBits(header, 16) + (BlocksBits(bs, 16, []) + trailer))
  }

  lemma FinalTerminated(src: seq<byte>, bs: seq<Block>, end: nat)
    requires bs != [] && bs[|bs| - 1].final && end + 32 <= 8 * |src|
    ensures Terminated(src, bs, end)
  {
  }

  lemma CompressedIs(header: nat, bs: seq<Block>, trailer: seq<bit>)
    requires ValidBlocks(bs, 16, [])
    ensures Compressed(header, bs, trailer) == Pack(LsbBits(header, 16) + (BlocksBits(bs, 16, []) + trailer))
  {
    hide LsbBits, BlocksBits, ValidBlocks, Pack;
  }

  lemma FirstStart()
    ensures Start(0, false) == 16
  {
  }

  /** The round trip on whole zlib streams: decompressing what a compressor sent gives back
      what it compressed, whatever the header, the padding and the checksum are. */
  lemma ZlibRoundTrip(header: nat, bs: seq<Block>, trailer: seq<bit>, fuel: nat)
    requires bs != [] && bs[|bs| - 1].final && ValidBlocks(bs, 16, []) && AllEnoughFuel(bs, fuel)
    requires |trailer| >= 32
    ensures var r := Uncompress(Compressed(header, bs, trailer), 0, false, [], fuel);
            r.outcome == Finished && r.history == ExpandBlocks(bs, 16, [])
  {
    hide *;
    var src := Compressed(header, bs, trailer);
    var h, b: seq<bit> := LsbBits(header, 16), BlocksBits(bs, 16, []);
    CompressedIs(header, bs, trailer);
    PackHolds(h + (b + trailer));
    BitsAtConcat(src, 0, h, b + trailer);
    BitsAtConcat(src, 16, b, trailer);
    assert BitsAt(src, 16 + |b|, trailer);
    BitsInside(src, 16 + |b|, trailer);
    FinalTerminated(src, bs, 16 + |b|);
    FirstStart();
    RoundTrip(src, 0, false, bs, [], fuel);
  }

  lemma BitsInside(src: seq<byte>, p: nat, bits: seq<bit>)
    requires BitsAt(src, p, bits)
    ensures p + |bits| <= 8 * |src|
  {
  }
}
