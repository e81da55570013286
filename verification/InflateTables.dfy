/** The decoding tables are right: those built from code lengths, the fixed ones, and the
    tables of lengths and distances. */
module InflateTables {
  import opened Numbers
  import opened BitStream
  import opened Huffman
  import opened DeflateFormat
  import opened Inflate

  /* Tables built from code lengths */

  lemma {:induction false} SymbolsInOrder(lens: seq<int>, n: nat, s: nat)
    requires s < n <= |lens|
    ensures Cnt(lens, s, lens[s]) < |SymbolsOf(lens, n, lens[s])|
    ensures SymbolsOf(lens, n, lens[s])[Cnt(lens, s, lens[s])] == s
    decreases n
  {
    CntMonotone(lens, s, n, lens[s]);
    if s < n - 1 {
      SymbolsInOrder(lens, n - 1, s);
    }
  }

  lemma {:induction false} SortedPrefix(lens: seq<int>, l: nat, m: nat)
    requires l <= m
    ensures Sorted(lens, l) <= Sorted(lens, m)
    decreases m
  {
    hide SymbolsOf, Offset, Cnt;
    if l < m {
      SortedPrefix(lens, l, m - 1);
      PrefixOfSum(Sorted(lens, l), Sorted(lens, m - 1), SymbolsOf(lens, |lens|, m));
    }
  }

  lemma PrefixOfSum(a: seq<int>, b: seq<int>, c: seq<int>)
    requires a <= b
    ensures a <= b + c
  {
  }

  lemma SortedPlace(lens: seq<int>, m: nat, s: nat)
    requires s < |lens| && 0 < lens[s] <= m
    ensures Place(lens, s) < |Sorted(lens, m)| && Sorted(lens, m)[Place(lens, s)] == s
  {
    var l := lens[s];
    SymbolsInOrder(lens, |lens|, s);
    SortedPrefix(lens, l, m);
    assert Sorted(lens, l) == Sorted(lens, l - 1) + SymbolsOf(lens, |lens|, l);
    assert Sorted(lens, l)[Place(lens, s)] == s;
  }

  /** Counting sort gives the tables decoding needs. */
  lemma TreeBuilds(lens: seq<int>, m: nat)
    requires forall i :: 0 <= i < |lens| ==> lens[i] <= m
    ensures Builds(TreeOf(lens, m), lens, m)
  {
    forall s | 0 <= s < |lens| && lens[s] > 0
      ensures Place(lens, s) < |Sorted(lens, m)| && Sorted(lens, m)[Place(lens, s)] == s
    {
      SortedPlace(lens, m, s);
    }
  }

  /* Places in the sorted list: what keeps the counting sort from overwriting itself */

  lemma {:induction false} OffsetMonotone(lens: seq<int>, a: nat, b: nat)
    requires a <= b
    ensures Offset(lens, a) <= Offset(lens, b)
    ensures a < b ==> Offset(lens, a) + BlCount(lens, a) <= Offset(lens, b)
    decreases b
  {
    if a < b { OffsetMonotone(lens, a, b - 1); }
  }

  lemma PlaceBetween(lens: seq<int>, s: nat, l: nat)
    requires s < |lens| && 0 < lens[s] < l
    ensures Offset(lens, lens[s]) <= Place(lens, s) < Offset(lens, lens[s] + 1) <= Offset(lens, l)
  {
    CntMonotone(lens, s, |lens|, lens[s]);
    OffsetMonotone(lens, lens[s] + 1, l);
  }

  lemma PlaceInjective(lens: seq<int>, s: nat, s': nat)
    requires s < s' < |lens| && lens[s] > 0 && lens[s'] > 0
    ensures Place(lens, s) != Place(lens, s')
  {
    if lens[s] == lens[s'] {
      CntMonotone(lens, s, s', lens[s]);
    } else {
      var m := if lens[s] < lens[s'] then lens[s'] else lens[s];
      PlaceBetween(lens, s, m + 1);
      PlaceBetween(lens, s', m + 1);
      OffsetMonotone(lens, (if lens[s] < lens[s'] then lens[s] else lens[s']) + 1, m);
    }
  }

  /** The number of the first n symbols with lengths from 1 to l - 1. */
  function Coded(lens: seq<int>, n: nat, l: nat): nat
    requires n <= |lens|
    decreases l
  {
    if l <= 1 then 0 else Coded(lens, n, l - 1) + Cnt(lens, n, l - 1)
  }

  lemma {:induction false} CodedIsOffset(lens: seq<int>, l: nat)
    ensures Coded(lens, |lens|, l) == Offset(lens, l)
  {
    if l > 1 { CodedIsOffset(lens, l - 1); }
  }

  lemma {:induction false} CodedGrows(lens: seq<int>, n: nat, l: nat)
    requires n < |lens|
    ensures Coded(lens, n + 1, l) == Coded(lens, n, l) + (if 1 <= lens[n] < l then 1 else 0)
    decreases l
  {
    if l > 1 { CodedGrows(lens, n, l - 1); }
  }

  lemma {:induction false} CodedOfNone(lens: seq<int>, l: nat)
    ensures Coded(lens, 0, l) == 0
  {
    if l > 1 { CodedOfNone(lens, l - 1); }
  }

  lemma {:induction false} CodedFits(lens: seq<int>, n: nat, l: nat)
    requires n <= |lens|
    ensures Coded(lens, n, l) <= n
    decreases n
  {
    if n == 0 {
      CodedOfNone(lens, l);
    } else {
      CodedFits(lens, n - 1, l);
      CodedGrows(lens, n - 1, l);
    }
  }

  lemma OffsetFits(lens: seq<int>, l: nat)
    ensures Offset(lens, l) <= |lens|
  {
    CodedIsOffset(lens, l);
    CodedFits(lens, |lens|, l);
  }

  /** Every position of the sorted list is the place of its symbol. */
  lemma {:induction false} SymbolsAt(lens: seq<int>, n: nat, l: int, j: nat)
    requires n <= |lens| && j < |SymbolsOf(lens, n, l)|
    ensures var s := SymbolsOf(lens, n, l)[j];
            0 <= s < n && lens[s] == l && Cnt(lens, s, l) == j
    decreases n
  {
    if j < |SymbolsOf(lens, n - 1, l)| { SymbolsAt(lens, n - 1, l, j); }
  }

  lemma {:induction false} SortedAt(lens: seq<int>, m: nat, j: nat)
    requires j < |Sorted(lens, m)|
    ensures var s := Sorted(lens, m)[j];
            0 <= s < |lens| && 0 < lens[s] <= m && Place(lens, s) == j
    decreases m
  {
    if j < |Sorted(lens, m - 1)| {
      SortedAt(lens, m - 1, j);
    } else {
      SymbolsAt(lens, |lens|, m, j - |Sorted(lens, m - 1)|);
    }
  }

  /** A table filled at the place of every symbol starts with the sorted list. */
  lemma FilledIsSorted(lens: seq<int>, m: nat, trans: seq<int>)
    requires |Sorted(lens, m)| <= |trans|
    requires forall s :: 0 <= s < |lens| && 0 < lens[s] <= m ==> Place(lens, s) < |trans| && trans[Place(lens, s)] == s
    ensures trans[..|Sorted(lens, m)|] == Sorted(lens, m)
  {
    forall j | 0 <= j < |Sorted(lens, m)| ensures trans[j] == Sorted(lens, m)[j] {
      SortedAt(lens, m, j);
    }
  }

  /* The fixed tables */

  function Clamp(x: int, hi: nat): nat {
    if x < 0 then 0 else if x > hi then hi else x
  }

  function FixedCnt(n: nat, l: int): nat {
    if l == 7 then Clamp(n - 256, 24)
    else if l == 8 then Clamp(n, 144) + Clamp(n - 280, 8)
    else if l == 9 then Clamp(n - 144, 112)
    else 0
  }

  lemma {:induction false} FixedCounts(lens: seq<int>, n: nat, l: int)
    requires n <= |lens| <= 288 && forall i :: 0 <= i < |lens| ==> lens[i] == FixedLength(i)
    ensures Cnt(lens, n, l) == FixedCnt(n, l)
    decreases n
  {
    if n != 0 { FixedCounts(lens, n - 1, l); }
  }

  lemma FixedOffsets(lens: seq<int>)
    requires |lens| == 288 && forall i :: 0 <= i < |lens| ==> lens[i] == FixedLength(i)
    ensures forall l: nat :: l <= 9 ==> BlCount(lens, l) == FixedCnt(288, l)
    ensures Offset(lens, 7) == 0 && Offset(lens, 8) == 24 && Offset(lens, 9) == 176
    ensures Used(lens, |lens|, 9) == 512
  {
    forall l: nat ensures Cnt(lens, |lens|, l) == FixedCnt(288, l) { FixedCounts(lens, |lens|, l); }
    var zero: nat := 0;
    assert BlCount(lens, 0) == 0 && Offset(lens, zero) == 0 && Used(lens, |lens|, zero) == 0;
    assert Offset(lens, 1) == 0 && Used(lens, |lens|, 1) == 0;
    assert Offset(lens, 2) == 0 && Used(lens, |lens|, 2) == 0;
    assert Offset(lens, 3) == 0 && Used(lens, |lens|, 3) == 0;
    assert Offset(lens, 4) == 0 && Used(lens, |lens|, 4) == 0;
    assert Offset(lens, 5) == 0 && Used(lens, |lens|, 5) == 0;
    assert Offset(lens, 6) == 0 && Used(lens, |lens|, 6) == 0;
    assert Offset(lens, 7) == 0 && Used(lens, |lens|, 7) == 24;
    assert Offset(lens, 8) == 24 && Used(lens, |lens|, 8) == 200;
  }

  /** build_fixed_trees writes the tables build_tree would for the lengths of section 3.2.6,
      on every entry decoding reaches, and the code is complete within 9 bits. */
  lemma FixedLitBuilds()
    ensures Builds(FIXED_LIT_TREE, FixedCodes().lit, 9)
    ensures Realizable(FixedCodes().lit, 9) && KraftSum(FixedCodes().lit, 288, 9) == Pow2(9)
  {
    hide Used, KraftSum, Cnt;
    var lens := FixedCodes().lit;
    FixedOffsets(lens);
    KraftIsUsed(lens, 288, 9);
    forall s | 0 <= s < |lens| && lens[s] > 0
      ensures Place(lens, s) < 288 && FixedLitSymbol(Place(lens, s)) == s
    {
      FixedCounts(lens, s, lens[s]);
    }
  }

  lemma {:induction false} FivesCounts(lens: seq<int>, n: nat, l: int)
    requires n <= |lens| && forall i :: 0 <= i < |lens| ==> lens[i] == 5
    ensures Cnt(lens, n, l) == if l == 5 then n else 0
    decreases n
  {
    if n != 0 { FivesCounts(lens, n - 1, l); }
  }

  lemma FivesOffsets(lens: seq<int>)
    requires |lens| == 32 && forall i :: 0 <= i < |lens| ==> lens[i] == 5
    ensures forall l: nat :: BlCount(lens, l) == if l == 5 then 32 else 0
    ensures Offset(lens, 5) == 0 && Used(lens, |lens|, 5) == 32
  {
    forall l: nat ensures Cnt(lens, |lens|, l) == if l == 5 then 32 else 0 { FivesCounts(lens, |lens|, l); }
    var zero: nat := 0;
    assert Offset(lens, zero) == 0 && Used(lens, |lens|, zero) == 0;
    assert Offset(lens, 1) == 0 && Used(lens, |lens|, 1) == 0;
    assert Offset(lens, 2) == 0 && Used(lens, |lens|, 2) == 0;
    assert Offset(lens, 3) == 0 && Used(lens, |lens|, 3) == 0;
    assert Offset(lens, 4) == 0 && Used(lens, |lens|, 4) == 0;
  }

  lemma FixedDistBuilds()
    ensures Builds(FIXED_DIST_TREE, FixedCodes().dist, 5)
    ensures Realizable(FixedCodes().dist, 5) && KraftSum(FixedCodes().dist, 32, 5) == Pow2(5)
  {
    var lens := FixedCodes().dist;
    FivesOffsets(lens);
    KraftIsUsed(lens, 32, 5);
    forall s | 0 <= s < |lens| && lens[s] > 0 ensures Place(lens, s) == s {
      FivesCounts(lens, s, 5);
    }
  }

  /* Lengths and distances */

  lemma SmallPowers()
    ensures Pow2(0) == 1 && Pow2(1) == 2 && Pow2(2) == 4 && Pow2(3) == 8 && Pow2(4) == 16
    ensures Pow2(5) == 32 && Pow2(6) == 64 && Pow2(7) == 128 && Pow2(8) == 256 && Pow2(9) == 512
    ensures Pow2(10) == 1024 && Pow2(11) == 2048 && Pow2(12) == 4096 && Pow2(13) == 8192
  {
  }

  /** The extra bits of a symbol cover every value up to the next symbol's base. */
  lemma LengthExtraCovers(length: nat)
    requires 3 <= length <= 258
    ensures length - LENGTH_BASE[LengthIndex(length)] < Pow2(LENGTH_EXTRA[LengthIndex(length)])
  {
    SmallPowers();
    assert forall i :: 0 <= i < 28 ==> LENGTH_BASE[i + 1] - LENGTH_BASE[i] <= Pow2(LENGTH_EXTRA[i]);
  }

  lemma DistanceExtraCovers(distance: nat)
    requires 1 <= distance <= WINDOW_SIZE
    ensures distance - DISTANCE_BASE[DistanceIndex(distance)] < Pow2(DISTANCE_EXTRA[DistanceIndex(distance)])
  {
    SmallPowers();
    assert forall i :: 0 <= i < 29 ==> DISTANCE_BASE[i + 1] - DISTANCE_BASE[i] <= Pow2(DISTANCE_EXTRA[i]);
  }

  /** No symbol and extra bits decode to a distance beyond the window. */
  lemma DistanceInWindow(i: nat, extra: nat)
    requires i < 30 && extra < Pow2(DISTANCE_EXTRA[i])
    ensures 1 <= DISTANCE_BASE[i] + extra <= WINDOW_SIZE
  {
    SmallPowers();
    assert forall k :: 0 <= k < 30 ==> DISTANCE_BASE[k] + Pow2(DISTANCE_EXTRA[k]) <= WINDOW_SIZE + 1;
  }

  /* The symbol loop, unfolded */

  /** One turn of the symbol loop. */
  lemma SymbolStep(src: seq<byte>, c: Cursor, lt: Tree, dt: Tree, h: seq<Cell>, fuel: nat, c1: Cursor, sym: int)
    requires c.Valid() && |lt.table| == |dt.table| == MAX_BITS + 1 && fuel > 0
    requires DecodeSymbol(src, c, lt) == (c1, sym) && c1.Valid()
    ensures InflateData(src, c, lt, dt, h, fuel)
         == if sym == END_OF_BLOCK then Inflated(c1, h, Finished)
            else if 0 <= sym < 256 then InflateData(src, c1, lt, dt, h + [sym], fuel - 1)
            else var r := ReadPair(src, c1, dt, sym);
                 if r.distance > |h| then Inflated(r.cursor, h, Thrown)
                 else InflateData(src, r.cursor, lt, dt, CopyPair(h, r), fuel - 1)
  {
    hide DecodeSymbol, ReadPair, CopyPair;
  }

  lemma NoFuel(src: seq<byte>, c: Cursor, lt: Tree, dt: Tree, h: seq<Cell>)
    requires c.Valid() && |lt.table| == |dt.table| == MAX_BITS + 1
    ensures InflateData(src, c, lt, dt, h, 0) == Inflated(c, h, Unbounded)
  {
  }

  /** decode_trees, put together from its steps. */
  lemma DecodeTreesIs(src: seq<byte>, c: Cursor, c2: Cursor, c3: Cursor,
          c4: Cursor, clens: seq<int>, all: seq<int>, hlit: nat, hdist: nat, hclen: nat)
    requires c.Valid() && c2 == AfterBits(AfterBits(c, 5), 5) && c3.Valid() && c4.Valid()
    requires BitsValue(src, c, 5, 257) == hlit
        && BitsValue(src, AfterBits(c, 5), 5, 1) == hdist && BitsValue(src, c2, 4, 4) == hclen
    requires hclen <= 19 && ReadCodeLengths(src, AfterBits(c2, 4), 0, hclen, Repeat(0, 19)) == (c3, clens)
    requires CodeLengthTree(TreeOf(clens, MAX_BITS))
    requires ReadLengths(src, c3, TreeOf(clens, MAX_BITS), [], hlit + hdist) == (c4, all)
    ensures |all| >= hlit + hdist && DecodeTrees(src, c) == Trees(c4, Codes(all[..hlit], all[hlit..hlit + hdist]))
  {
    hide ReadCodeLengths, ReadLengths, BitsValue, TreeOf, AfterBits, Pow2, CodeLengthTree, Repeat, LengthList;
  }

  /* Trees that decode alike */

  /** t starts with the tables built for lens; entries of trans beyond them are left over. */
  ghost predicate StartsWith(t: Tree, lens: seq<int>) {
    && |t.table| == MAX_BITS + 1
    && t.table == Counts(lens, MAX_BITS)
    && |Sorted(lens, MAX_BITS)| <= |t.trans| && t.trans[..|Sorted(lens, MAX_BITS)|] == Sorted(lens, MAX_BITS)
  }

  /** A walk never ends beyond the symbols that have codes, so leftovers are never read. */
  lemma {:induction false} WalkInRange(src: seq<byte>, p: nat, t: Tree, lens: seq<int>, m: nat, len: nat, cur: nat)
    requires t.table == Counts(lens, m) && len <= m
    ensures var w := Walk(src, p, t, len, cur, Offset(lens, len + 1));
            w.found ==> 0 <= w.index < Offset(lens, m + 1)
    decreases m - len
  {
    hide Walk, TableAt, Offset, BlCount, Counts, Bit;
    CountsAt(t, lens, m, len + 1);
    WalkUnfold(src, p, t, len, cur, Offset(lens, len + 1));
    if len < m {
      var n := BlCount(lens, len + 1);
      var cur' := 2 * cur + Bit(src, p + len) - n;
      NextOffset(lens, len + 1);
      OffsetMonotone(lens, len + 2, m + 1);
      if cur' >= 0 { WalkInRange(src, p, t, lens, m, len + 1, cur'); }
    }
  }

  /** An entry of the table, or the undefined one behind it. */
  lemma CountsAt(t: Tree, lens: seq<int>, m: nat, l: nat)
    requires t.table == Counts(lens, m) && 1 <= l <= m + 1
    ensures |t.table| == m + 1 && TableAt(t, l) == if l <= m then BlCount(lens, l) else UNDEFINED
  {
    hide BlCount;
  }

  lemma NextOffset(lens: seq<int>, l: nat)
    ensures Offset(lens, l + 1) == Offset(lens, l) + BlCount(lens, l)
  {
    hide BlCount;
  }

  lemma {:induction false} WalkSame(src: seq<byte>, p: nat, t: Tree, t': Tree, len: nat, cur: int, sum: int)
    requires t.table == t'.table && len < |t.table|
    ensures Walk(src, p, t, len, cur, sum) == Walk(src, p, t', len, cur, sum)
    decreases |t.table| - len
  {
    var n := TableAt(t, len + 1);
    if n != UNDEFINED && 2 * cur + Bit(src, p + len) - n >= 0 {
      WalkSame(src, p, t, t', len + 1, 2 * cur + Bit(src, p + len) - n, sum + n);
    }
  }

  lemma DecodesAlike(src: seq<byte>, c: Cursor, t: Tree, lens: seq<int>)
    requires c.Valid() && StartsWith(t, lens)
    ensures DecodeSymbol(src, c, t) == DecodeSymbol(src, c, TreeOf(lens, MAX_BITS))
  {
    hide Walk, Counts, Sorted;
    var t' := TreeOf(lens, MAX_BITS);
    NoOffset(lens);
    WalkInRange(src, c.Pos(), t, lens, MAX_BITS, 0, 0);
    WalkSame(src, c.Pos(), t, t', 0, 0, 0);
    var w := Walk(src, c.Pos(), t, 0, 0, 0);
    if w.found {
      assert t.trans[w.index] == t.trans[..|Sorted(lens, MAX_BITS)|][w.index];
    }
  }

  lemma NoOffset(lens: seq<int>)
    ensures Offset(lens, 1) == 0
  {
  }

  /** Two trees decode alike on this source, wherever reading starts. */
  ghost predicate Alike(src: seq<byte>, t: Tree, t': Tree) {
    && |t.table| == |t'.table| == MAX_BITS + 1
    && forall c: Cursor :: c.Valid() ==> DecodeSymbol(src, c, t) == DecodeSymbol(src, c, t')
  }

  lemma StartsAlike(src: seq<byte>, t: Tree, lens: seq<int>)
    requires StartsWith(t, lens)
    ensures Alike(src, t, TreeOf(lens, MAX_BITS))
  {
    assert |t.table| == |TreeOf(lens, MAX_BITS).table| == MAX_BITS + 1;
    hide StartsWith, DecodeSymbol, TreeOf;
    forall c: Cursor | c.Valid() ensures DecodeSymbol(src, c, t) == DecodeSymbol(src, c, TreeOf(lens, MAX_BITS)) {
      DecodesAlike(src, c, t, lens);
    }
  }

  lemma AlikeAt(src: seq<byte>, c: Cursor, t: Tree, t': Tree) returns (c1: Cursor, sym: int)
    requires c.Valid() && Alike(src, t, t')
    ensures |t.table| == |t'.table| == MAX_BITS + 1 && c1.Valid()
    ensures DecodeSymbol(src, c, t) == DecodeSymbol(src, c, t') == (c1, sym)
  {
    hide DecodeSymbol;
    var r := DecodeSymbol(src, c, t);
    c1, sym := r.0, r.1;
  }

  lemma PairAlike(src: seq<byte>, c: Cursor, t: Tree, t': Tree, sym: int) returns (r: Pair)
    requires c.Valid() && Alike(src, t, t')
    ensures |t.table| == |t'.table| == MAX_BITS + 1 && r.cursor.Valid()
    ensures ReadPair(src, c, t, sym) == ReadPair(src, c, t', sym) == r
  {
    hide DecodeSymbol, Value;
    var c1 := ReadExtra(src, c, if sym == UNDEFINED then UNDEFINED else sym - 257, LENGTH_BITS, LENGTH_START).0;
    assert DecodeSymbol(src, c1, t) == DecodeSymbol(src, c1, t');
    r := ReadPair(src, c, t, sym);
  }

  lemma {:induction false} InflatesAlike(src: seq<byte>, c: Cursor,
          lt: Tree, lt': Tree, dt: Tree, dt': Tree, h: seq<Cell>, fuel: nat)
    requires c.Valid() && Alike(src, lt, lt') && Alike(src, dt, dt')
    ensures InflateData(src, c, lt, dt, h, fuel) == InflateData(src, c, lt', dt', h, fuel)
    decreases fuel
  {
    hide *;
    var c1, sym := AlikeAt(src, c, lt, lt');
    var r := PairAlike(src, c1, dt, dt', sym);
    if fuel == 0 {
      NoFuel(src, c, lt, dt, h);
      NoFuel(src, c, lt', dt', h);
    } else {
      SymbolStep(src, c, lt, dt, h, fuel, c1, sym);
      SymbolStep(src, c, lt', dt', h, fuel, c1, sym);
      if 0 <= sym < 256 {
        InflatesAlike(src, c1, lt, lt', dt, dt', h + [sym], fuel - 1);
      } else if sym != END_OF_BLOCK && r.distance <= |h| {
        InflatesAlike(src, r.cursor, lt, lt', dt, dt', CopyPair(h, r), fuel - 1);
      }
    }
  }
}
