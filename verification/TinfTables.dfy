/** The tables of the inflater and the methods that fill them in place. */
module TinfTables {
  import opened Numbers
  import opened BitStream
  import opened Huffman
  import opened DeflateFormat
  import opened Inflate
  import opened InflateTables

  /** this.TREE: two arrays whose elements are undefined until assigned. */
  class TreeTables {
    const table: array<int>
    const trans: array<int>

    constructor ()
      ensures Shape() && fresh(table) && fresh(trans)
      ensures Tables() == Tree(Repeat(UNDEFINED, 16), Repeat(UNDEFINED, 288))
    {
      table := new int[16](i => UNDEFINED);
      trans := new int[288](i => UNDEFINED);
      new;
      assert table[..] == Repeat(UNDEFINED, 16);
      assert trans[..] == Repeat(UNDEFINED, 288);
    }

    predicate Shape() {
      table.Length == MAX_BITS + 1 && trans.Length == 288 && table != trans
    }

    function Tables(): Tree
      reads table, trans
    {
      Tree(table[..], trans[..])
    }
  }

  /* Building tables */

  /** The part of the lengths that build_tree is called on. */
  function Part(lengths: seq<int>, loffset: nat, num: nat): seq<int>
    requires loffset + num <= |lengths|
  {
    lengths[loffset..loffset + num]
  }

  /** Counting the code lengths; an undefined length counts nothing. */
  method CountLengths(table: array<int>, lens: seq<int>)
    requires table.Length == MAX_BITS + 1 && LengthList(lens)
    modifies table
    ensures forall l :: 0 <= l <= MAX_BITS ==> table[l] == BlCount(lens, l)
  {
    for i := 0 to 16
      invariant forall l :: 0 <= l < i ==> table[l] == 0
    {
      table[i] := 0;
    }
    for i := 0 to |lens|
      invariant forall l :: 0 <= l < 16 ==> table[l] == Cnt(lens, i, l)
    {
      if lens[i] != UNDEFINED { table[lens[i]] := table[lens[i]] + 1; }
    }
    table[0] := 0;
  }

  /** The offset table for the distribution sort. */
  method SumCounts(table: array<int>, lens: seq<int>) returns (offs: array<int>)
    requires table.Length == MAX_BITS + 1
    requires forall l :: 0 <= l <= MAX_BITS ==> table[l] == BlCount(lens, l)
    ensures fresh(offs) && offs.Length == 16 && forall l :: 0 <= l < 16 ==> offs[l] == Offset(lens, l)
  {
    assert Offset(lens, 0) == 0;
    hide BlCount, Offset;
    offs := new int[16];
    var sum := 0;
    for i := 0 to 16
      invariant sum == Offset(lens, i) && forall l :: 0 <= l < i ==> offs[l] == Offset(lens, l)
    {
      NextOffset(lens, i);
      offs[i] := sum;
      sum := sum + table[i];
    }
  }

  /** The first n symbols with codes are at their places. */
  ghost predicate Placed(trans: seq<int>, lens: seq<int>, n: nat)
    requires n <= |lens|
  {
    forall s :: 0 <= s < n && lens[s] > 0 ==> Place(lens, s) < |trans| && trans[Place(lens, s)] == s
  }

  lemma PlaceNext(trans: seq<int>, lens: seq<int>, n: nat)
    requires n < |lens| && lens[n] > 0 && Placed(trans, lens, n) && Place(lens, n) < |trans|
    ensures Placed(trans[Place(lens, n) := n], lens, n + 1)
  {
    forall s | 0 <= s < n && lens[s] > 0 ensures Place(lens, s) != Place(lens, n) {
      PlaceInjective(lens, s, n);
    }
  }

  lemma PlaceFits(lens: seq<int>, s: nat)
    requires s < |lens| && 0 < lens[s] <= MAX_BITS
    ensures Place(lens, s) < |lens|
  {
    PlaceBetween(lens, s, MAX_BITS + 1);
    OffsetFits(lens, MAX_BITS + 1);
  }

  /** offs holds, for every length, the place of the next symbol of that length. */
  ghost predicate NextPlaces(offs: seq<int>, lens: seq<int>, n: nat)
    requires n <= |lens|
  {
    |offs| == MAX_BITS + 1 && forall l :: 0 < l <= MAX_BITS ==> offs[l] == Offset(lens, l) + Cnt(lens, n, l)
  }

  method PlaceSymbol(trans: array<int>, offs: array<int>, lens: seq<int>, i: nat)
    requires trans != offs && i < |lens| <= trans.Length && LengthList(lens)
    requires NextPlaces(offs[..], lens, i) && Placed(trans[..], lens, i)
    modifies trans, offs
    ensures NextPlaces(offs[..], lens, i + 1) && Placed(trans[..], lens, i + 1)
  {
    var l := lens[i];
    if l > 0 {
      PlaceFits(lens, i);
      PlaceNext(trans[..], lens, i);
      ghost var before := trans[..];
      trans[offs[l]] := i;
      offs[l] := offs[l] + 1;
      assert trans[..] == before[Place(lens, i) := i];
    }
  }

  /** Symbols sorted by code. */
  method PlaceSymbols(trans: array<int>, offs: array<int>, lens: seq<int>)
    requires trans != offs && |lens| <= trans.Length && LengthList(lens) && NextPlaces(offs[..], lens, 0)
    modifies trans, offs
    ensures Placed(trans[..], lens, |lens|)
  {
    for i := 0 to |lens|
      invariant NextPlaces(offs[..], lens, i) && Placed(trans[..], lens, i)
    {
      PlaceSymbol(trans, offs, lens, i);
    }
  }

  /** build_tree: afterwards t starts with the tables of the code lengths. */
  method BuildTree(t: TreeTables, lengths: seq<int>, loffset: nat, num: nat)
    requires t.Shape() && loffset + num <= |lengths| && num <= 288 && LengthList(Part(lengths, loffset, num))
    modifies t.table, t.trans
    ensures StartsWith(t.Tables(), Part(lengths, loffset, num))
  {
    var lens := Part(lengths, loffset, num);
    CountLengths(t.table, lens);
    var offs := SumCounts(t.table, lens);
    PlaceSymbols(t.trans, offs, lens);
    assert t.table[..] == Counts(lens, MAX_BITS);
    OffsetFits(lens, MAX_BITS + 1);
    FilledIsSorted(lens, MAX_BITS, t.trans[..]);
  }

  method FillFixedLit(t: TreeTables)
    requires t.Shape() && t.Tables() == Tree(Repeat(UNDEFINED, 16), Repeat(UNDEFINED, 288))
    modifies t.table, t.trans
    ensures t.Tables() == FIXED_LIT_TREE
  {
    assert forall i :: 0 <= i < 16 ==> t.table[i] == t.Tables().table[i];
    for i := 0 to 7
      invariant forall k :: 0 <= k < i ==> t.table[k] == 0
      invariant forall k :: i <= k < 16 ==> t.table[k] == UNDEFINED
    {
      t.table[i] := 0;
    }
    t.table[7] := 24;
    t.table[8] := 152;
    t.table[9] := 112;
    assert t.table[..] == FIXED_LIT_TREE.table;
    for i := 0 to 24
      invariant t.table[..] == FIXED_LIT_TREE.table
      invariant forall k :: 0 <= k < i ==> t.trans[k] == FixedLitSymbol(k)
    {
      t.trans[i] := 256 + i;
    }
    for i := 0 to 144
      invariant t.table[..] == FIXED_LIT_TREE.table
      invariant forall k :: 0 <= k < 24 + i ==> t.trans[k] == FixedLitSymbol(k)
    {
      t.trans[24 + i] := i;
    }
    for i := 0 to 8
      invariant t.table[..] == FIXED_LIT_TREE.table
      invariant forall k :: 0 <= k < 24 + 144 + i ==> t.trans[k] == FixedLitSymbol(k)
    {
      t.trans[24 + 144 + i] := 280 + i;
    }
    for i := 0 to 112
      invariant t.table[..] == FIXED_LIT_TREE.table
      invariant forall k :: 0 <= k < 24 + 144 + 8 + i ==> t.trans[k] == FixedLitSymbol(k)
    {
      t.trans[24 + 144 + 8 + i] := 144 + i;
    }
    assert t.trans[..] == FixedLitSymbols();
  }

  method FillFixedDist(t: TreeTables)
    requires t.Shape() && t.Tables() == Tree(Repeat(UNDEFINED, 16), Repeat(UNDEFINED, 288))
    modifies t.table, t.trans
    ensures t.Tables() == FIXED_DIST_TREE
  {
    assert forall i :: 0 <= i < 16 ==> t.table[i] == t.Tables().table[i];
    assert forall i :: 0 <= i < 288 ==> t.trans[i] == t.Tables().trans[i];
    for i := 0 to 5
      invariant forall k :: 0 <= k < i ==> t.table[k] == 0
      invariant forall k :: i <= k < 16 ==> t.table[k] == UNDEFINED
      invariant forall k :: 0 <= k < 288 ==> t.trans[k] == UNDEFINED
    {
      t.table[i] := 0;
    }
    t.table[5] := 32;
    assert t.table[..] == FIXED_DIST_TREE.table;
    for i := 0 to 32
      invariant t.table[..] == FIXED_DIST_TREE.table
      invariant forall k :: 0 <= k < i ==> t.trans[k] == k
      invariant forall k :: i <= k < 288 ==> t.trans[k] == UNDEFINED
    {
      t.trans[i] := i;
    }
    assert t.trans[..] == FixedDistSymbols();
  }

  /* Extra bits and base values */

  /** The base of entry i when every entry covers 2^bits values. */
  function BaseOf(bits: seq<nat>, first: nat, i: nat): nat
    requires i <= |bits|
    decreases i
  {
    if i == 0 then first else BaseOf(bits, first, i - 1) + Pow2(bits[i - 1])
  }

  /** The number of extra bits goes up by one every delta entries. */
  function BitsOf(delta: nat, i: nat): nat
    requires delta > 0
  {
    if i < delta then 0 else (i - delta) / delta
  }

  method FillBits(bits: array<nat>, delta: nat)
    requires bits.Length == 30 && 0 < delta <= 30
    modifies bits
    ensures forall i :: 0 <= i < 30 ==> bits[i] == BitsOf(delta, i)
  {
    for i := 0 to delta
      invariant forall k :: 0 <= k < i ==> bits[k] == 0
    {
      bits[i] := 0;
    }
    for i := 0 to 30 - delta
      invariant forall k :: 0 <= k < i + delta ==> bits[k] == BitsOf(delta, k)
    {
      assert BitsOf(delta, i + delta) == i / delta;
      hide BitsOf;
      bits[i + delta] := i / delta;
    }
  }

  /** build_bits_base: the entries cover consecutive ranges from `first` on. */
  method BuildBitsBase(bits: array<nat>, base: array<nat>, delta: nat, first: nat)
    requires bits.Length == base.Length == 30 && bits != base && 0 < delta <= 30
    modifies bits, base
    ensures forall i :: 0 <= i < 30 ==> bits[i] == BitsOf(delta, i) && base[i] == BaseOf(bits[..], first, i)
  {
    hide BitsOf;
    FillBits(bits, delta);
    ghost var built := bits[..];
    var sum := first;
    for i := 0 to 30
      invariant bits[..] == built && sum == BaseOf(built, first, i)
      invariant forall k :: 0 <= k < i ==> base[k] == BaseOf(built, first, k)
    {
      base[i] := sum;
      sum := sum + Pow2(bits[i]);
    }
  }

  lemma {:induction false} BasesFrom(bits: seq<nat>, first: nat, base: seq<nat>, i: nat)
    requires i < |bits| == |base| && base[0] == first
    requires forall k :: 0 <= k < |bits| - 1 ==> base[k + 1] == base[k] + Pow2(bits[k])
    ensures BaseOf(bits, first, i) == base[i]
    decreases i
  {
    if i != 0 { BasesFrom(bits, first, base, i - 1); }
  }

  const LENGTH_BITS_BUILT: seq<nat> := [
    0, 0, 0, 0, 0, 0, 0, 0, 1, 1, 1, 1, 2, 2, 2, 2, 3, 3, 3, 3, 4, 4, 4, 4, 5, 5, 5, 5, 6, 6]

  const LENGTH_BASE_BUILT: seq<nat> := LENGTH_START[28 := 259]

  lemma LengthRanges()
    ensures |LENGTH_BASE_BUILT| == |LENGTH_BITS_BUILT| == 30 && LENGTH_BASE_BUILT[0] == 3
    ensures forall k :: 0 <= k < 29 ==> LENGTH_BASE_BUILT[k + 1] == LENGTH_BASE_BUILT[k] + Pow2(LENGTH_BITS_BUILT[k])
  {
    hide Pow2;
    SmallPowers();
    assert forall k :: 0 <= k < 14 ==> LENGTH_BASE_BUILT[k + 1] == LENGTH_BASE_BUILT[k] + Pow2(LENGTH_BITS_BUILT[k]);
  }

  lemma DistanceRanges()
    ensures |DISTANCE_BASE| == |DISTANCE_EXTRA| == 30 && DISTANCE_BASE[0] == 1
    ensures forall k :: 0 <= k < 29 ==> DISTANCE_BASE[k + 1] == DISTANCE_BASE[k] + Pow2(DISTANCE_EXTRA[k])
  {
    SmallPowers();
  }

  lemma LengthBitsBuilt(bits: seq<nat>)
    requires |bits| == 30 && forall i :: 0 <= i < 30 ==> bits[i] == BitsOf(4, i)
    ensures bits == LENGTH_BITS_BUILT
  {
    assert forall i :: 0 <= i < 30 ==> LENGTH_BITS_BUILT[i] == BitsOf(4, i);
  }

  lemma DistanceBitsBuilt(bits: seq<nat>)
    requires |bits| == 30 && forall i :: 0 <= i < 30 ==> bits[i] == BitsOf(2, i)
    ensures bits == DISTANCE_EXTRA
  {
    assert forall i :: 0 <= i < 30 ==> DISTANCE_EXTRA[i] == BitsOf(2, i);
  }

  lemma LengthFix(bits: seq<nat>, base: seq<nat>)
    requires bits == LENGTH_BITS_BUILT && |base| == 30 && forall i :: 0 <= i < 30 ==> base[i] == LENGTH_BASE_BUILT[i]
    ensures bits[28 := 0] == LENGTH_BITS && base[28 := 258] == LENGTH_START
  {
  }

  /** With delta 4 from 3, and entry 28 replaced, the tables are the lengths of RFC 1951. */
  lemma LengthTablesAreRight(bits: seq<nat>, base: seq<nat>)
    requires |bits| == |base| == 30
    requires forall i :: 0 <= i < 30 ==> bits[i] == BitsOf(4, i) && base[i] == BaseOf(bits, 3, i)
    ensures bits[28 := 0] == LENGTH_BITS && base[28 := 258] == LENGTH_START
  {
    hide *;
    LengthBitsBuilt(bits);
    LengthRanges();
    forall i | 0 <= i < 30 ensures base[i] == LENGTH_BASE_BUILT[i] {
      BasesFrom(bits, 3, LENGTH_BASE_BUILT, i);
    }
    LengthFix(bits, base);
  }

  /** With delta 2 from 1, the tables are the distances of RFC 1951. */
  lemma DistanceTablesAreRight(bits: seq<nat>, base: seq<nat>)
    requires |bits| == |base| == 30
    requires forall i :: 0 <= i < 30 ==> bits[i] == BitsOf(2, i) && base[i] == BaseOf(bits, 1, i)
    ensures bits == DISTANCE_EXTRA && base == DISTANCE_BASE
  {
    hide *;
    DistanceBitsBuilt(bits);
    DistanceRanges();
    forall i | 0 <= i < 30 ensures base[i] == DISTANCE_BASE[i] {
      BasesFrom(bits, 1, DISTANCE_BASE, i);
    }
  }
}
