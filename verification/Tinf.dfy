/** The inflater itself: its fields are updated in place, and each method is proved to leave
    exactly the state the functions of module Inflate prescribe. */
module Tinf {
  import opened Numbers
  import opened BitStream
  import opened Huffman
  import opened DeflateFormat
  import opened Inflate
  import opened InflateTables
  import opened TinfTables
  import opened InflateSession
  import InflateRoundTrip
  import InflateTermination

  /* The tag: buffered bits of the stream */

  lemma TagBit(src: seq<byte>, p: nat, n: nat, k: nat)
    requires k < n
    ensures Shr(Value(src, p, n), k) % 2 == Bit(src, p + k)
  {
    ValueDivMod(src, p, n, k);
    hide Value;
    FirstBit(src, p + k, n - k);
  }

  lemma FirstBit(src: seq<byte>, p: nat, n: nat)
    requires n > 0
    ensures Value(src, p, n) % 2 == Bit(src, p) && Value(src, p, n) / 2 == Value(src, p + 1, n - 1)
  {
    hide Bit;
  }

  lemma PickBit(x: nat, k: nat)
    ensures Shr(And(x, Pow2(k)), k) == Shr(x, k) % 2
  {
    AndBit(x, k);
    if (x / Pow2(k)) % 2 == 0 {
      assert 0 / Pow2(k) == 0;
    } else {
      assert 1 * Pow2(k) == Pow2(k);
      DivModUnique(Pow2(k), Pow2(k), 1, 0);
    }
  }

  /** 0xffff >> (16 - num) is a mask of num ones. */
  lemma MaskOfOnes(num: nat)
    requires 1 <= num <= 16
    ensures Shr(0xffff, 16 - num) == Pow2(num) - 1
  {
    PowersUpTo31();
    hide Pow2;
    Pow2Add(16 - num, num);
    AllOnes(Pow2(16 - num), Pow2(num));
  }

  lemma AllOnes(a: nat, b: nat)
    requires a > 0 && a * b == 65536
    ensures 0xffff / a == b - 1
  {
    assert a * (b - 1) == a * b - a;
    DivModUnique(0xffff, a, b - 1, a - 1);
  }

  /** One more byte in the buffer. */
  lemma NextTag(src: seq<byte>, c: Cursor, tag: nat) returns (c': Cursor)
    requires c.Valid() && c.count < 24 && tag == Value(src, c.Pos(), c.count)
    ensures c' == Cursor(c.index + 1, c.count + 8) && c'.Valid() && c'.Pos() == c.Pos()
    ensures Shl(At(src, c.index), c.count) >= 0
    ensures Or(tag, Shl(At(src, c.index), c.count)) == Value(src, c'.Pos(), c'.count)
  {
    c' := Cursor(c.index + 1, c.count + 8);
    hide Value, Or, At, Shl;
    ShiftedIn(src, c.Pos(), c.count, c.index, c'.count - c.count);
  }

  lemma ShiftedIn(src: seq<byte>, p: nat, k: nat, i: nat, n: nat)
    requires k < 24 && p + k == 8 * i && n == 8
    ensures Shl(At(src, i), k) >= 0 && Or(Value(src, p, k), Shl(At(src, i), k)) == Value(src, p, k + n)
  {
    hide *;
    ShiftByte(At(src, i), k);
    BufferByte(src, p, k, i, n);
  }

  /** Bits taken out of the buffer. */
  lemma DroppedTag(src: seq<byte>, c: Cursor, tag: nat, n: nat)
    requires c.Valid() && n <= c.count && tag == Value(src, c.Pos(), c.count)
    ensures Shr(tag, n) == Value(src, Skip(c, n).Pos(), Skip(c, n).count)
  {
    hide Value;
    ValueDivMod(src, c.Pos(), c.count, n);
  }

  /** The bits a mask takes from the tag. */
  lemma MaskedTag(src: seq<byte>, c: Cursor, tag: nat, num: nat)
    requires c.Valid() && 1 <= num <= 16 && num <= c.count && tag == Value(src, c.Pos(), c.count)
    ensures Shr(0xffff, 16 - num) >= 0 && And(tag, Shr(0xffff, 16 - num)) == Value(src, c.Pos(), num)
  {
    hide Value, And, Shr, Pow2;
    MaskOfOnes(num);
    AndMask(tag, num);
    ValueDivMod(src, c.Pos(), c.count, num);
  }

  /** One bit of the tag as decode_symbol tests it. */
  lemma TestedBit(src: seq<byte>, c: Cursor, tag: nat, len: nat)
    requires c.Valid() && len < c.count && len < 16 && tag == Value(src, c.Pos(), c.count)
    ensures Shl(1, len) >= 0 && Shr(And(tag, Shl(1, len)), len) == Bit(src, c.Pos() + len)
  {
    OneShifted(len);
    hide *;
    PickBit(tag, len);
    TagBit(src, c.Pos(), c.count, len);
  }

  lemma OneShifted(len: nat)
    requires len < 16
    ensures Shl(1, len) == Pow2(len)
  {
    PowersUpTo31();
    Pow2Monotone(len, 16);
  }

  /** lengths[i] = v, where a JavaScript array grows when it is assigned past its end. */
  function Put(lengths: seq<int>, i: nat, v: int): (r: seq<int>)
    requires i <= |lengths|
    ensures |r| >= |lengths| && i < |r| && r[..i] == lengths[..i] && r[i] == v
  {
    if i < |lengths| then lengths[i := v] else lengths + [v]
  }

  /** The loops that write one length several times. */
  method PutRun(lengths: seq<int>, num: nat, v: int, times: nat) returns (r: seq<int>)
    requires num <= |lengths|
    ensures |r| >= |lengths| && num + times <= |r|
    ensures r[..num + times] == lengths[..num] + Repeat(v, times)
  {
    r := lengths;
    for k := 0 to times
      invariant |r| >= |lengths| && num + k <= |r| && r[..num + k] == lengths[..num] + Repeat(v, k)
    {
      ghost var before := r;
      r := Put(r, num + k, v);
      assert r[..num + k + 1] == before[..num + k] + [v];
    }
  }

  method FixedLitTables() returns (t: TreeTables)
    ensures fresh(t) && fresh(t.table) && fresh(t.trans) && t.Shape() && t.Tables() == FIXED_LIT_TREE
  {
    t := new TreeTables();
    FillFixedLit(t);
  }

  method FixedDistTables() returns (t: TreeTables)
    ensures fresh(t) && fresh(t.table) && fresh(t.trans) && t.Shape() && t.Tables() == FIXED_DIST_TREE
  {
    t := new TreeTables();
    FillFixedDist(t);
  }

  /** The length tables, with the special case of length 258. */
  method LengthTables() returns (bits: array<nat>, base: array<nat>)
    ensures fresh(bits) && fresh(base) && bits[..] == LENGTH_BITS && base[..] == LENGTH_START
  {
    hide BaseOf, BitsOf;
    bits, base := new nat[30], new nat[30];
    BuildBitsBase(bits, base, 4, 3);
    ghost var b, e := bits[..], base[..];
    LengthTablesAreRight(b, e);
    bits[28] := 0;
    base[28] := 258;
    assert bits[..] == b[28 := 0] && base[..] == e[28 := 258];
  }

  method DistanceTables() returns (bits: array<nat>, base: array<nat>)
    ensures fresh(bits) && fresh(base) && bits[..] == DISTANCE_EXTRA && base[..] == DISTANCE_BASE
  {
    hide BaseOf, BitsOf;
    bits, base := new nat[30], new nat[30];
    BuildBitsBase(bits, base, 2, 1);
    DistanceTablesAreRight(bits[..], base[..]);
  }

  method NewTrees() returns (lt: TreeTables, dt: TreeTables)
    ensures lt.Shape() && dt.Shape() && fresh(lt.table) && fresh(lt.trans) && fresh(dt.table) && fresh(dt.trans)
    ensures lt.table != dt.table && lt.table != dt.trans && lt.trans != dt.table && lt.trans != dt.trans
  {
    lt := new TreeTables();
    dt := new TreeTables();
  }

  /** Bytes appended to both. */
  lemma DestGrows(d0: seq<Cell>, h0: seq<Cell>, d: seq<Cell>, h: seq<Cell>, d': seq<Cell>, h': seq<Cell>)
    requires |h0| <= |h| <= |h'| && h'[..|h|] == h && d == d0 + h[|h0|..] && d' == d + h'[|h|..]
    ensures d' == d0 + h'[|h0|..]
  {
    assert h'[|h0|..] == h'[|h0|..|h|] + h'[|h|..];
    assert h'[|h0|..|h|] == h[|h0|..];
  }

  /** The tables of the fixed codes and of the extra bits. */
  ghost predicate AreStatic(slt: TreeTables, sdt: TreeTables,
          lb: array<nat>, ls: array<nat>, db: array<nat>, ds: array<nat>)
    reads slt.table, slt.trans, sdt.table, sdt.trans, lb, ls, db, ds
  {
    && slt.Shape() && slt.Tables() == FIXED_LIT_TREE && sdt.Shape() && sdt.Tables() == FIXED_DIST_TREE
    && lb[..] == LENGTH_BITS && ls[..] == LENGTH_START && db[..] == DISTANCE_EXTRA && ds[..] == DISTANCE_BASE
  }

  method StaticTables()
          returns (slt: TreeTables, sdt: TreeTables, lb: array<nat>, ls: array<nat>, db: array<nat>, ds: array<nat>)
    ensures AreStatic(slt, sdt, lb, ls, db, ds)
    ensures fresh(slt) && fresh(slt.table) && fresh(slt.trans) && fresh(sdt) && fresh(sdt.table) && fresh(sdt.trans)
    ensures fresh(lb) && fresh(ls) && fresh(db) && fresh(ds)
  {
    hide TreeTables.Tables;
    slt := FixedLitTables();
    sdt := FixedDistTables();
    lb, ls := LengthTables();
    db, ds := DistanceTables();
  }

  class Inflater {
    var source: seq<byte>
    var sourceIndex: nat
    var tag: nat
    var bitcount: nat
    var dest: seq<Cell>
    var history: seq<Cell>
    var headerSeen: bool
    var ltree: TreeTables
    var dtree: TreeTables
    const sltree: TreeTables
    const sdtree: TreeTables
    const lengthBits: array<nat>
    const lengthBase: array<nat>
    const distBits: array<nat>
    const distBase: array<nat>

    /** The tables `init` fills never change. */
    ghost predicate Static()
      reads sltree.table, sltree.trans, sdtree.table, sdtree.trans, lengthBits, lengthBase, distBits, distBase
    {
      AreStatic(sltree, sdtree, lengthBits, lengthBase, distBits, distBase)
    }

    /** `init`, which ends with a `reset`. */
    constructor ()
      ensures Valid() && history == [] && !headerSeen
      ensures fresh(ltree.table) && fresh(ltree.trans) && fresh(dtree.table) && fresh(dtree.trans)
    {
      hide AreStatic;
      var slt, sdt, lb, ls, db, ds := StaticTables();
      var lt, dt := NewTrees();
      sltree, sdtree, ltree, dtree := slt, sdt, lt, dt;
      lengthBits, lengthBase, distBits, distBase := lb, ls, db, ds;
      source, sourceIndex, tag, bitcount, dest, history, headerSeen := [], 0, 0, 0, [], [], false;
    }

    /** Between calls: the dynamic trees share no array with each other or with the fixed
        tables, and before the header is read the tag is clear. */
    ghost predicate Valid()
      reads this, sltree.table, sltree.trans, sdtree.table, sdtree.trans, lengthBits, lengthBase, distBits, distBase
    {
      Static() && Apart(ltree, dtree) && (!headerSeen ==> tag == 0)
    }

    ghost predicate Apart(lt: TreeTables, dt: TreeTables) {
      && lt.Shape() && dt.Shape()
      && lt.table !in StaticArrays() && lt.trans !in StaticArrays()
      && dt.table !in StaticArrays() && dt.trans !in StaticArrays()
      && lt.table != dt.table && lt.table != dt.trans && lt.trans != dt.table && lt.trans != dt.trans
    }

    /** A new stream: a new history and new trees, and the header is due again. */
    method Reset()
      requires Valid()
      modifies this
      ensures Valid() && history == [] && !headerSeen
      ensures fresh(ltree.table) && fresh(ltree.trans) && fresh(dtree.table) && fresh(dtree.trans)
    {
      hide Static;
      var lt, dt := NewTrees();
      assert Apart(lt, dt);
      hide Apart;
      ltree, dtree := lt, dt;
      source, sourceIndex, tag, bitcount, dest, history, headerSeen := [], 0, 0, 0, [], [], false;
    }

    function StaticArrays(): set<object> {
      {sltree.table as object, sltree.trans as object, sdtree.table as object, sdtree.trans as object,
       lengthBits as object, lengthBase as object, distBits as object, distBase as object}
    }

    function Here(): Cursor
      reads this`sourceIndex, this`bitcount
    {
      Cursor(sourceIndex, bitcount)
    }

    /** The tag holds the buffered bits of the stream and nothing above them, so that further
        bytes can be OR-ed in. */
    ghost predicate Synced()
      reads this`source, this`sourceIndex, this`tag, this`bitcount
    {
      Here().Valid() && tag == Value(source, Here().Pos(), bitcount)
    }

    /** An empty buffer may leave a stale tag behind: the next bit replaces it. */
    ghost predicate Readable()
      reads this`source, this`sourceIndex, this`tag, this`bitcount
    {
      Here().Valid() && (bitcount > 0 ==> Synced())
    }

    method GetBit() returns (b: bit)
      requires Readable()
      modifies this`sourceIndex, this`tag, this`bitcount
      ensures Synced() && Here() == old(AfterBit(Here())) && b == old(Bit(source, Here().Pos()))
    {
      hide Value, Bit;
      ghost var p := Here().Pos();
      ghost var n: nat := if bitcount == 0 then BYTE_WIDTH else bitcount;
      if bitcount == 0 {
        ValueByte(source, sourceIndex, n);
        tag := At(source, sourceIndex);
        sourceIndex := sourceIndex + 1;
        bitcount := 7;
      } else {
        bitcount := bitcount - 1;
      }
      assert tag == Value(source, p, n);
      FirstBit(source, p, n);
      b := tag % 2;
      tag := tag / 2;
    }

    method BufferNext()
      requires Synced() && bitcount < 24
      modifies this`sourceIndex, this`tag, this`bitcount
      ensures Synced() && Here() == old(Cursor(sourceIndex + 1, bitcount + 8))
    {
      hide Value, Or, At, Shl;
      ghost var c := NextTag(source, Here(), tag);
      tag := Or(tag, Shl(At(source, sourceIndex), bitcount));
      sourceIndex := sourceIndex + 1;
      bitcount := bitcount + 8;
    }

    /** read_bits_direct tops the buffer up to 24 bits a byte at a time, decode_symbol to 16. */
    method TopUp(limit: nat)
      requires Synced() && limit <= 24
      modifies this`sourceIndex, this`tag, this`bitcount
      ensures Synced() && Here() == old(Fill(Here(), limit))
    {
      hide Value;
      ghost var c := Here();
      while bitcount < limit
        invariant Synced() && Fill(Here(), limit) == Fill(c, limit)
        decreases limit - bitcount
      {
        BufferNext();
      }
    }

    method DropBits(n: nat)
      requires Synced() && n <= bitcount
      modifies this`tag, this`bitcount
      ensures Synced() && Here() == old(Skip(Here(), n))
    {
      hide Value, Shr;
      DroppedTag(source, Here(), tag, n);
      tag := Shr(tag, n);
      bitcount := bitcount - n;
    }

    method ReadBits(num: nat, base: nat) returns (val: nat)
      requires Synced() && num <= 16
      modifies this`sourceIndex, this`tag, this`bitcount
      ensures Synced() && Here() == old(AfterBits(Here(), num)) && val == old(BitsValue(source, Here(), num, base))
    {
      if num == 0 {
        return base;
      }
      hide Value, Shr, And, Fill;
      TopUp(24);
      MaskedTag(source, Here(), tag, num);
      val := And(tag, Shr(0xffff, 16 - num)) + base;
      DropBits(num);
    }

    /** The loop of decode_symbol: one bit a turn until `cur` is negative or NaN. */
    method WalkTables(t: TreeTables) returns (len: nat, index: int, found: bool)
      requires Synced() && t.Shape() && bitcount >= 16
      ensures Walked(len, index, found) == Walk(source, Here().Pos(), t.Tables(), 0, 0, 0)
    {
      hide Value, Walk, Bit;
      ghost var p, tables := Here().Pos(), t.Tables();
      var sum, cur, more := 0, 0, true;
      len, index, found := 0, 0, false;
      ghost var w := Walk(source, p, tables, len, cur, sum);
      while more
        invariant len <= 16 && (more
            ==> len < 16 && Walk(source, p, tables, len, cur, sum) == w && !found && index == 0)
        invariant !more ==> Walked(len, index, found) == w
        decreases more, 16 - len
      {
        TestedBit(source, Here(), tag, len);
        WalkUnfold(source, p, tables, len, cur, sum);
        cur := 2 * cur + Shr(And(tag, Shl(1, len)), len);
        len := len + 1;
        if len == t.table.Length || t.table[len] == UNDEFINED {
          more := false;
        } else {
          sum := sum + t.table[len];
          cur := cur - t.table[len];
          if cur < 0 { more, index, found := false, sum + cur, true; }
        }
      }
    }

    method DecodeSymbol(t: TreeTables) returns (sym: int)
      requires Synced() && t.Shape()
      modifies this`sourceIndex, this`tag, this`bitcount
      ensures Synced() && (Here(), sym) == old(Huffman.DecodeSymbol(source, Here(), t.Tables()))
    {
      hide Value, Walk, Bit;
      TopUp(16);
      var len, index, found := WalkTables(t);
      DropBits(len);
      sym := if found && 0 <= index < t.trans.Length then t.trans[index] else UNDEFINED;
    }

    /* Blocks */

    method ReadExtra(i: int, bits: array<nat>, base: array<nat>) returns (v: int)
      requires Synced() && bits.Length == base.Length && forall k :: 0 <= k < bits.Length ==> bits[k] <= 13
      modifies this`sourceIndex, this`tag, this`bitcount
      ensures Synced() && (Here(), v) == old(Inflate.ReadExtra(source, Here(), i, bits[..], base[..]))
    {
      if 0 <= i < bits.Length {
        v := ReadBits(bits[i], base[i]);
      } else {
        v := UNDEFINED;
      }
    }

    /** The copying loop, which appends to the history it reads. */
    method CopyMatch(distance: nat, length: nat)
      requires 1 <= distance <= |history|
      modifies this`dest, this`history
      ensures |history| == |old(history)| + length && history[..|old(history)|] == old(history)
      ensures forall i :: |old(history)| <= i < |history| ==> history[i] == history[i - distance]
      ensures history == old(Copy(history, distance, length))
      ensures dest == old(dest) + history[|old(history)|..]
    {
      var offs := |history| - distance;
      ghost var start := |history|;
      for i := offs to offs + length
        invariant |history| == start + (i - offs) && history[..start] == old(history)
        invariant forall k :: start <= k < |history| ==> history[k] == history[k - distance]
        invariant Copy(history, distance, offs + length - i) == old(Copy(history, distance, length))
        invariant dest == old(dest) + history[start..]
      {
        ghost var h, d := history, dest;
        dest := dest + [history[i]];
        history := history + [history[i]];
        assert history[start..] == h[start..] + [h[i]];
      }
    }

    /** The part of the symbol loop that reads and copies a match. */
    method InflateMatch(sym: int, dt: TreeTables) returns (thrown: bool)
      requires Synced() && dt.Shape() && Static() && !(0 <= sym <= 256)
      modifies this`sourceIndex, this`tag, this`bitcount, this`dest, this`history
      ensures Synced() && |history| >= |old(history)| && dest == old(dest) + history[|old(history)|..]
      ensures var r := old(ReadPair(source, Here(), dt.Tables(), sym));
              && Here() == r.cursor && thrown == (r.distance > |old(history)|)
              && history == if thrown then old(history) else CopyPair(old(history), r)
    {
      hide Huffman.DecodeSymbol, Inflate.ReadExtra;
      var length := ReadExtra(if sym == UNDEFINED then UNDEFINED else sym - 257, lengthBits, lengthBase);
      var d := DecodeSymbol(dt);
      var distance := ReadExtra(d, distBits, distBase);
      thrown := distance > |history|;
      if !thrown && length >= 0 && distance >= 1 { CopyMatch(distance, length); }
    }

    method InflateBlockData(lt: TreeTables, dt: TreeTables, fuel: nat) returns (res: Outcome)
      requires Synced() && lt.Shape() && dt.Shape() && Static()
      modifies this`sourceIndex, this`tag, this`bitcount, this`dest, this`history
      ensures Synced() && |history| >= |old(history)| && dest == old(dest) + history[|old(history)|..]
      ensures Inflated(Here(), history, res)
          == old(InflateData(source, Here(), lt.Tables(), dt.Tables(), history, fuel))
    {
      hide Huffman.DecodeSymbol, ReadPair, CopyPair, InflateData, Value, Static;
      ghost var lts, dts := lt.Tables(), dt.Tables();
      ghost var result := InflateData(source, Here(), lts, dts, history, fuel);
      var left, done := fuel, false;
      res := Unbounded;
      while !done && left > 0
        invariant Synced() && lt.Tables() == lts && dt.Tables() == dts && Static()
        invariant |history| >= |old(history)| && dest == old(dest) + history[|old(history)|..]
        invariant done ==> Inflated(Here(), history, res) == result
        invariant !done ==> res == Unbounded && InflateData(source, Here(), lts, dts, history, left) == result
        decreases left
      {
        ghost var c, h, d := Here(), history, dest;
        var sym := DecodeSymbol(lt);
        SymbolStep(source, c, lts, dts, h, left, Here(), sym);
        if sym == 256 {
          res, done := Finished, true;
        } else if 0 <= sym < 256 {
          dest := dest + [sym];
          history := history + [sym];
        } else {
          var thrown := InflateMatch(sym, dt);
          if thrown { res, done := Thrown, true; }
        }
        DestGrows(old(dest), old(history), d, h, dest, history);
        left := left - 1;
      }
      if !done { NoFuel(source, Here(), lts, dts, history); }
    }

    /** A 16-bit number at i, or NaN. */
    method ReadWord(i: nat) returns (w: int)
      ensures w == Word(source, i)
    {
      if i + 1 < |source| {
        var high: int := source[i + 1];
        w := 256 * high + source[i];
      } else {
        w := UNDEFINED;
      }
    }

    method InflateUncompressedBlock() returns (res: Outcome)
      requires Synced()
      modifies this`sourceIndex, this`tag, this`bitcount, this`dest, this`history
      ensures Readable() && |history| >= |old(history)| && dest == old(dest) + history[|old(history)|..]
      ensures Inflated(Here(), history, res) == old(InflateStored(source, Here(), history))
    {
      hide Value;
      if bitcount > 7 {
        sourceIndex := sourceIndex - bitcount / 8;
        bitcount := 0;
        tag := 0;
      }
      var length := ReadWord(sourceIndex);
      var invlength := ReadWord(sourceIndex + 2);
      if length == UNDEFINED || length != Complement(invlength) {
        return DataError;
      }
      sourceIndex := sourceIndex + 4;
      CopySource(length);
      bitcount := 0;
      res := Finished;
    }

    method CopySource(length: nat)
      modifies this`sourceIndex, this`dest, this`history
      ensures sourceIndex == old(sourceIndex) + length
      ensures history == old(history) + SourceCells(source, old(sourceIndex), length)
      ensures dest == old(dest) + SourceCells(source, old(sourceIndex), length)
    {
      ghost var first := sourceIndex;
      for k := 0 to length
        invariant sourceIndex == first + k
        invariant history == old(history) + SourceCells(source, first, k)
        invariant dest == old(dest) + SourceCells(source, first, k)
      {
        var cell: Cell := SourceAt(source, sourceIndex);
        history := history + [cell];
        dest := dest + [cell];
        sourceIndex := sourceIndex + 1;
        assert SourceCells(source, first, k + 1) == SourceCells(source, first, k) + [cell];
      }
    }

    /* Dynamic trees */

    /** The code lengths of the code length alphabet, read in their own order. */
    method ReadCodeLengths(lengths: seq<int>, hclen: nat) returns (r: seq<int>)
      requires Synced() && |lengths| == 320 && lengths[..19] == Repeat(0, 19) && hclen <= 19
      modifies this`sourceIndex, this`tag, this`bitcount
      ensures Synced() && |r| == 320
      ensures (Here(), r[..19]) == old(Inflate.ReadCodeLengths(source, Here(), 0, hclen, Repeat(0, 19)))
    {
      hide Value, Fill;
      ghost var result := Inflate.ReadCodeLengths(source, Here(), 0, hclen, Repeat(0, 19));
      r := lengths;
      for i := 0 to hclen
        invariant Synced() && |r| == 320 && forall s :: 0 <= s < 19 ==> 0 <= r[..19][s] <= 7
        invariant Inflate.ReadCodeLengths(source, Here(), i, hclen, r[..19]) == result
      {
        ghost var before := r[..19];
        var clen := ReadBits(3, 0);
        assert Pow2(3) == 8;
        r := r[CodeLengthSymbol(i) := clen];
        assert r[..19] == before[CodeLengthSymbol(i) := clen];
      }
    }

    /** One code length symbol: a length, or a run of lengths. */
    method PutLengths(sym: int, lengths: seq<int>, num: nat) returns (r: seq<int>, next: nat)
      requires Synced() && UNDEFINED <= sym < 19 && num <= |lengths| && LengthList(lengths[..num])
      modifies this`sourceIndex, this`tag, this`bitcount
      ensures Synced() && |r| >= |lengths| && num < next <= |r|
      ensures var run := old(ReadRun(source, Here(), sym, lengths[..num]));
              Here() == run.0 && r[..next] == lengths[..num] + run.1
    {
      ReadRunCases(source, Here(), sym, lengths[..num]);
      hide Value, Fill, Repeat, LengthList, ReadRun, AfterBits, BitsValue;
      if sym == 16 {
        var prev := if num == 0 then UNDEFINED else lengths[num - 1];
        var length := ReadBits(2, 3);
        r := PutRun(lengths, num, prev, length);
        next := num + length;
      } else if sym == 17 {
        var length := ReadBits(3, 3);
        r := PutRun(lengths, num, 0, length);
        next := num + length;
      } else if sym == 18 {
        var length := ReadBits(7, 11);
        r := PutRun(lengths, num, 0, length);
        next := num + length;
      } else {
        r := Put(lengths, num, sym);
        next := num + 1;
      }
    }

    method ReadLengths(codeTree: TreeTables, ghost clens: seq<int>, lengths: seq<int>, target: nat)
            returns (r: seq<int>)
      requires Synced() && codeTree.Shape() && StartsWith(codeTree.Tables(), clens)
      requires CodeLengthTree(TreeOf(clens, MAX_BITS))
      modifies this`sourceIndex, this`tag, this`bitcount
      ensures Synced()
      ensures var all := old(Inflate.ReadLengths(source, Here(), TreeOf(clens, MAX_BITS), [], target));
              Here() == all.0 && |r| >= |all.1| && r[..|all.1|] == all.1
    {
      hide Value, Fill, TreeOf, StartsWith, CodeLengthTree, LengthList, Huffman.DecodeSymbol, ReadRun;
      NoLengthsYet();
      ghost var t := TreeOf(clens, MAX_BITS);
      ghost var result := Inflate.ReadLengths(source, Here(), t, [], target);
      r := lengths;
      var num := 0;
      while num < target
        invariant Synced() && StartsWith(codeTree.Tables(), clens) && CodeLengthTree(t)
        invariant num <= |r| && LengthList(r[..num])
        invariant Inflate.ReadLengths(source, Here(), t, r[..num], target) == result
        decreases target - num
      {
        ghost var c := Here();
        DecodesAlike(source, c, codeTree.Tables(), clens);
        CodeLengthSymbolRange(source, c, t);
        var sym := DecodeSymbol(codeTree);
        ghost var c1, sofar := Here(), r[..num];
        ReadLengthsUnfold(source, c, t, sofar, target, c1, sym);
        r, num := PutLengths(sym, r, num);
      }
      ReadLengthsDone(source, Here(), t, r[..num], target);
    }

    method DecodeTrees(lt: TreeTables, dt: TreeTables)
      requires Synced() && Apart(lt, dt)
      modifies this`sourceIndex, this`tag, this`bitcount, lt.table, lt.trans, dt.table, dt.trans
      ensures Synced() && Here() == old(Inflate.DecodeTrees(source, Here()).cursor)
      ensures StartsWith(lt.Tables(), old(Inflate.DecodeTrees(source, Here()).codes.lit))
      ensures StartsWith(dt.Tables(), old(Inflate.DecodeTrees(source, Here()).codes.dist))
    {
      hide Value, AfterBits, TreeOf, StartsWith, Inflate.ReadCodeLengths,
          Inflate.ReadLengths, Inflate.DecodeTrees, LengthList;
      SmallPowers();
      NoLengthsYet();
      hide Pow2, Repeat;
      ghost var c := Here();
      var hlit := ReadBits(5, 257);
      var hdist := ReadBits(5, 1);
      ghost var c2 := Here();
      var hclen := ReadBits(4, 4);
      var lengths := NewLengths();
      lengths := ReadCodeLengths(lengths, hclen);
      ghost var c3, clens := Here(), lengths[..19];
      var codeTree := BuildCodeTree(lengths);
      lengths := ReadLengths(codeTree, clens, lengths, hlit + hdist);
      ghost var all := Inflate.ReadLengths(source, c3, TreeOf(clens, MAX_BITS), [], hlit + hdist).1;
      DecodeTreesIs(source, c, c2, c3, Here(), clens, all, hlit, hdist, hclen);
      BuildBoth(lt, dt, lengths, all, hlit, hdist);
    }

    /* Whole blocks */

    method InflateFixedBlock(fuel: nat) returns (res: Outcome)
      requires Synced() && Static()
      modifies this`sourceIndex, this`tag, this`bitcount, this`dest, this`history
      ensures Synced() && |history| >= |old(history)| && dest == old(dest) + history[|old(history)|..]
      ensures Inflated(Here(), history, res) == old(InflateBody(source, Here(), 1, history, fuel))
    {
      hide InflateData, Value;
      res := InflateBlockData(sltree, sdtree, fuel);
    }

    method InflateDynamicBlock(fuel: nat) returns (res: Outcome)
      requires Synced() && Static() && Apart(ltree, dtree)
      modifies this`sourceIndex, this`tag, this`bitcount, this`dest, this`history
      modifies ltree.table, ltree.trans, dtree.table, dtree.trans
      ensures Synced() && Static() && |history| >= |old(history)| && dest == old(dest) + history[|old(history)|..]
      ensures Inflated(Here(), history, res) == old(InflateBody(source, Here(), 2, history, fuel))
    {
      hide InflateData, Inflate.DecodeTrees, TreeOf, Value, StartsWith;
      ghost var t := Inflate.DecodeTrees(source, Here());
      DecodeTrees(ltree, dtree);
      ghost var h := history;
      SameBlock(source, Here(), ltree.Tables(), t.codes.lit, dtree.Tables(), t.codes.dist, h, fuel);
      res := InflateBlockData(ltree, dtree, fuel);
    }

    method InflateBlock(btype: nat, fuel: nat) returns (res: Outcome)
      requires Synced() && Static() && Apart(ltree, dtree)
      modifies this`sourceIndex, this`tag, this`bitcount, this`dest, this`history
      modifies ltree.table, ltree.trans, dtree.table, dtree.trans
      ensures Readable() && Static() && |history| >= |old(history)| && dest == old(dest) + history[|old(history)|..]
      ensures Inflated(Here(), history, res) == old(InflateBody(source, Here(), btype, history, fuel))
    {
      hide InflateData, InflateDynamic, InflateStored, Static, Value;
      if btype == 0 {
        res := InflateUncompressedBlock();
      } else if btype == 1 {
        res := InflateFixedBlock(fuel);
      } else if btype == 2 {
        res := InflateDynamicBlock(fuel);
      } else {
        res := DataError;
      }
    }

    /** The start of uncompress: the header is read once. */
    method Begin(src: seq<byte>, offset: nat)
      requires !headerSeen ==> tag == 0
      modifies this`source, this`sourceIndex, this`tag, this`bitcount, this`dest, this`headerSeen
      ensures Readable() && headerSeen && source == src && dest == []
      ensures Here() == FirstCursor(offset, old(headerSeen))
    {
      hide Fill;
      source, sourceIndex, bitcount, dest := src, offset, 0, [];
      if !headerSeen {
        var header := ReadBits(16, 0);
        headerSeen := true;
      }
    }

    /** One turn of the block loop. */
    method NextBlock(fuel: nat) returns (res: Outcome, more: bool)
      requires Readable() && Static() && Apart(ltree, dtree)
      modifies this`sourceIndex, this`tag, this`bitcount, this`dest, this`history
      modifies ltree.table, ltree.trans, dtree.table, dtree.trans
      ensures Readable() && Static() && |history| >= |old(history)| && dest == old(dest) + history[|old(history)|..]
      ensures old(InflateBlocks(source, Here(), history, fuel))
           == if more then InflateBlocks(source, Here(), history, fuel) else Inflated(Here(), history, res)
      ensures more ==> res == Finished && BitsLeft(source, Here()) < old(BitsLeft(source, Here()))
    {
      hide InflateBlocks, InflateBody, Value, Bit, Static, Apart, BitsLeft, Fill;
      ghost var c, h := Here(), history;
      var bfinal := GetBit();
      var btype := ReadBits(2, 0);
      ghost var c2 := Here();
      res := InflateBlock(btype, fuel);
      BlocksUnfold(source, c, h, fuel, c2, Inflated(Here(), history, res));
      more := res == Finished && bfinal == 0 && sourceIndex < |source|;
    }

    method BlockLoop(fuel: nat) returns (res: Outcome)
      requires Readable() && Static() && Apart(ltree, dtree)
      modifies this`sourceIndex, this`tag, this`bitcount, this`dest, this`history
      modifies ltree.table, ltree.trans, dtree.table, dtree.trans
      ensures Static() && |history| >= |old(history)| && dest == old(dest) + history[|old(history)|..]
      ensures Inflated(Here(), history, res) == old(InflateBlocks(source, Here(), history, fuel))
    {
      hide InflateBlocks, Value, Static, Apart, BitsLeft;
      ghost var result, start := InflateBlocks(source, Here(), history, fuel), |history|;
      var more := true;
      res := Finished;
      while more
        invariant Static() && |history| >= start && dest == old(dest) + history[start..]
        invariant more ==> Readable() && InflateBlocks(source, Here(), history, fuel) == result
        invariant !more ==> Inflated(Here(), history, res) == result
        decreases if more then (if Here().Valid() then BitsLeft(source, Here()) else 0) + 1 else 0
      {
        ghost var d, h := dest, history;
        res, more := NextBlock(fuel);
        Appended(old(dest), h, start, history);
      }
    }

    /** uncompress(source, offset): the answer and the history it leaves are those of the
        specification, whose sessions are proved lossless and inverse to compression. */
    method Uncompress(src: seq<byte>, offset: nat, fuel: nat) returns (answer: Answer)
      requires Valid()
      modifies this, ltree.table, ltree.trans, dtree.table, dtree.trans
      ensures Valid() && headerSeen && ltree == old(ltree) && dtree == old(dtree)
      ensures var r := old(Inflate.Uncompress(src, offset, headerSeen, history, fuel));
              answer == AnswerOf(r, old(history)) && history == Kept(r, true)
    {
      hide InflateBlocks, Static, Apart, FirstCursor, Trim;
      Begin(src, offset);
      var res := BlockLoop(fuel);
      if res == Finished { history := Trim(history); }
      answer := Answer(res, if res == Finished then dest else []);
    }
  }

  lemma Appended(dest: seq<Cell>, h: seq<Cell>, start: nat, h': seq<Cell>)
    requires start <= |h| <= |h'| && h'[..|h|] == h
    ensures dest + h[start..] + h'[|h|..] == dest + h'[start..]
  {
  }

  lemma SameBlock(src: seq<byte>, c: Cursor, lt: Tree, lit: seq<int>, dt: Tree, dist: seq<int>, h: seq<Cell>, fuel: nat)
    requires c.Valid() && StartsWith(lt, lit) && StartsWith(dt, dist)
    ensures |lt.table| == |dt.table| == MAX_BITS + 1
    ensures InflateData(src, c, lt, dt, h, fuel)
         == InflateData(src, c, TreeOf(lit, MAX_BITS), TreeOf(dist, MAX_BITS), h, fuel)
  {
    hide TreeOf, InflateData, Alike;
    StartsAlike(src, lt, lit);
    StartsAlike(src, dt, dist);
    InflatesAlike(src, c, lt, TreeOf(lit, MAX_BITS), dt, TreeOf(dist, MAX_BITS), h, fuel);
  }

  function NewLengths(): (r: seq<int>)
    ensures |r| == 320 && r[..19] == Repeat(0, 19)
  {
    Repeat(0, 19) + Repeat(UNDEFINED, 301)
  }

  method BuildCodeTree(lengths: seq<int>) returns (t: TreeTables)
    requires |lengths| >= 19 && forall s :: 0 <= s < 19 ==> 0 <= lengths[..19][s] <= 7
    ensures fresh(t) && fresh(t.table) && fresh(t.trans) && t.Shape()
    ensures StartsWith(t.Tables(), lengths[..19]) && CodeLengthTree(TreeOf(lengths[..19], MAX_BITS))
  {
    hide StartsWith;
    t := new TreeTables();
    CodeLengthsAreLengths(lengths[..19]);
    assert Part(lengths, 0, 19) == lengths[..19];
    BuildTree(t, lengths, 0, 19);
  }

  lemma SliceOfFront(s: seq<int>, n: nat, i: nat, j: nat)
    requires i <= j <= n <= |s|
    ensures s[..n][i..j] == s[i..j]
  {
  }

  lemma SamePart(lengths: seq<int>, all: seq<int>, i: nat, n: nat)
    requires i + n <= |all| <= |lengths| && lengths[..|all|] == all
    ensures Part(lengths, i, n) == all[i..i + n]
  {
    assert lengths[..|all|][i..i + n] == all[i..i + n];
    SliceOfFront(lengths, |all|, i, i + n);
  }

  method BuildBoth(lt: TreeTables, dt: TreeTables, lengths: seq<int>, ghost all: seq<int>, hlit: nat, hdist: nat)
    requires lt.Shape() && dt.Shape() && lt.table != dt.table
        && lt.table != dt.trans && lt.trans != dt.table && lt.trans != dt.trans
    requires hlit + hdist <= |all| <= |lengths| && lengths[..|all|] == all
        && LengthList(all) && hlit <= 288 && hdist <= 288
    modifies lt.table, lt.trans, dt.table, dt.trans
    ensures StartsWith(lt.Tables(), all[..hlit]) && StartsWith(dt.Tables(), all[hlit..hlit + hdist])
  {
    hide StartsWith;
    forall i | 0 <= i < hlit ensures UNDEFINED <= lengths[i] <= MAX_BITS { assert lengths[i] == all[i]; }
    forall i | hlit <= i < hlit + hdist ensures UNDEFINED <= lengths[i] <= MAX_BITS { assert lengths[i] == all[i]; }
    SamePart(lengths, all, 0, hlit);
    SamePart(lengths, all, hlit, hdist);
    BuildTree(lt, lengths, 0, hlit);
    BuildTree(dt, lengths, hlit, hdist);
  }

  lemma CodeLengthsAreLengths(clens: seq<int>)
    requires |clens| == 19 && forall s :: 0 <= s < 19 ==> 0 <= clens[s] <= 7
    ensures LengthList(clens) && CodeLengthTree(TreeOf(clens, MAX_BITS))
  {
  }

  lemma NoLengthsYet()
    ensures LengthList([])
  {
  }

  lemma CodeLengthSymbolRange(src: seq<byte>, c: Cursor, t: Tree)
    requires c.Valid() && CodeLengthTree(t)
    ensures |t.table| == MAX_BITS + 1 && UNDEFINED <= Huffman.DecodeSymbol(src, c, t).1 < 19
  {
    hide Walk;
  }

  lemma ReadLengthsUnfold(src: seq<byte>, c: Cursor, t: Tree, sofar: seq<int>, target: nat, c1: Cursor, sym: int)
    requires c.Valid() && c1.Valid() && CodeLengthTree(t) && LengthList(sofar) && |sofar| < target
    requires Huffman.DecodeSymbol(src, c, t) == (c1, sym) && UNDEFINED <= sym < 19
    ensures var run := ReadRun(src, c1, sym, sofar);
            && LengthList(sofar + run.1) && |run.1| > 0 && run.0.Valid()
            && Inflate.ReadLengths(src, c, t, sofar, target)
                == Inflate.ReadLengths(src, run.0, t, sofar + run.1, target)
  {
    hide Huffman.DecodeSymbol, ReadRun;
  }

  lemma ReadRunCases(src: seq<byte>, c: Cursor, sym: int, lens: seq<int>)
    requires c.Valid() && UNDEFINED <= sym < 19 && LengthList(lens)
    ensures sym == 16 ==>
      var last := if lens == [] then UNDEFINED else lens[|lens| - 1];
      ReadRun(src, c, sym, lens) == (AfterBits(c, 2), Repeat(last, BitsValue(src, c, 2, 3)))
    ensures sym == 17 ==> ReadRun(src, c, sym, lens) == (AfterBits(c, 3), Repeat(0, BitsValue(src, c, 3, 3)))
    ensures sym == 18 ==> ReadRun(src, c, sym, lens) == (AfterBits(c, 7), Repeat(0, BitsValue(src, c, 7, 11)))
    ensures sym < 16 ==> ReadRun(src, c, sym, lens) == (c, [sym])
  {
    hide AfterBits, BitsValue, Repeat, LengthList;
  }

  lemma ReadLengthsDone(src: seq<byte>, c: Cursor, t: Tree, sofar: seq<int>, target: nat)
    requires c.Valid() && CodeLengthTree(t) && LengthList(sofar) && |sofar| >= target
    ensures Inflate.ReadLengths(src, c, t, sofar, target) == (c, sofar)
  {
  }

  /** A client that decompresses the pieces of a stream one after the other: for every series
      of pieces the answers are those of InflateSession.Session, so by SegmentsRoundTrip the
      pieces of a compressed stream come back as what was compressed. */
  method DecompressAll(z: Inflater, calls: seq<Call>, fuel: nat) returns (answers: seq<Answer>)
    requires z.Valid()
    modifies z, z.ltree.table, z.ltree.trans, z.dtree.table, z.dtree.trans
    ensures z.Valid() && answers == old(Session(calls, z.headerSeen, z.history, fuel, true))
  {
    hide Session, AnswerOf, Kept, Inflate.Uncompress;
    ghost var all := Session(calls, z.headerSeen, z.history, fuel, true);
    answers := [];
    for i := 0 to |calls|
      invariant z.Valid() && z.ltree == old(z.ltree) && z.dtree == old(z.dtree)
      invariant i > 0 ==> z.headerSeen
      invariant answers + Session(calls[i..], z.headerSeen, z.history, fuel, true) == all
    {
      ghost var seen, h := z.headerSeen, z.history;
      var answer := z.Uncompress(calls[i].src, calls[i].offset, fuel);
      SessionStep(calls[i..], seen, h, fuel, true, Inflate.Uncompress(calls[i].src, calls[i].offset, seen, h, fuel));
      assert calls[i..][1..] == calls[i + 1..];
      answers := answers + [answer];
    }
    assert calls[|calls|..] == [];
    NoCalls(z.headerSeen, z.history, fuel);
  }

  /** A stream in one call, by an inflater of its own. */
  method Decompress(src: seq<byte>, offset: nat, fuel: nat) returns (answer: Answer)
    ensures answer == AnswerOf(Inflate.Uncompress(src, offset, false, [], fuel), [])
  {
    hide AnswerOf, Inflate.Uncompress;
    var z := new Inflater();
    answer := z.Uncompress(src, offset, fuel);
  }

  /** The round trip by the class itself: a new inflater gives back what was compressed. */
  method Inflates(src: seq<byte>, fuel: nat, ghost header: nat, ghost bs: seq<Block>, ghost trailer: seq<bit>)
      returns (data: seq<Cell>)
    requires bs != [] && bs[|bs| - 1].final && ValidBlocks(bs, 16, []) && |trailer| >= 32
    requires src == InflateRoundTrip.Compressed(header, bs, trailer) && fuel > 8 * |src|
    ensures data == ExpandBlocks(bs, 16, [])
  {
    InflateTermination.Decompresses(header, bs, trailer, fuel);
    hide Inflate.Uncompress, ExpandBlocks, ValidBlocks, InflateRoundTrip.Compressed;
    var answer := Decompress(src, 0, fuel);
    data := answer.data;
  }

  lemma NoCalls(headerSeen: bool, history: seq<Cell>, fuel: nat)
    ensures Session([], headerSeen, history, fuel, true) == []
  {
  }
}
