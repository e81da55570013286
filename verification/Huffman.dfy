/** Canonical Huffman codes: the code assignment of section 3.2.2 of RFC 1951, the decoding
    tables of the inflater, and the proof that walking the tables reads the code back. */
module Huffman {
  import opened Numbers
  import opened BitStream

  const MAX_BITS: nat := 15

  /* Code assignment (RFC 1951). A symbol without a positive length has no code. */

  function Cnt(lens: seq<int>, n: nat, l: int): (r: nat)
    requires n <= |lens|
    ensures r <= n
    decreases n
  {
    if n == 0 then 0 else Cnt(lens, n - 1, l) + (if lens[n - 1] == l then 1 else 0)
  }

  /** bl_count, with bl_count[0] = 0. */
  function BlCount(lens: seq<int>, l: nat): nat {
    if l == 0 then 0 else Cnt(lens, |lens|, l)
  }

  /** next_code before any code of that length is handed out. */
  function NextCode(lens: seq<int>, bits: nat): nat {
    if bits == 0 then 0 else 2 * (NextCode(lens, bits - 1) + BlCount(lens, bits - 1))
  }

  /** Codes of one length are handed out in symbol order. */
  function Code(lens: seq<int>, s: nat): nat
    requires s < |lens| && lens[s] > 0
  {
    NextCode(lens, lens[s]) + Cnt(lens, s, lens[s])
  }

  /** v in n bits, most significant first: how Huffman codes are packed. */
  function MsbBits(v: nat, n: nat): (bits: seq<bit>)
    ensures |bits| == n
    decreases n
  {
    if n == 0 then [] else MsbBits(v / 2, n - 1) + [v % 2]
  }

  function SymbolBits(lens: seq<int>, s: nat): (bits: seq<bit>)
    requires s < |lens| && lens[s] > 0
    ensures |bits| == lens[s]
  {
    MsbBits(Code(lens, s), lens[s])
  }

  /** The Kraft sum of the first n symbols, in units of 2^-m. */
  function KraftSum(lens: seq<int>, n: nat, m: nat): nat
    requires n <= |lens|
    decreases n
  {
    if n == 0 then 0
    else KraftSum(lens, n - 1, m) + (if 1 <= lens[n - 1] <= m then Pow2(m - lens[n - 1]) else 0)
  }

  /** Lengths of at most m that some prefix code has. */
  predicate Realizable(lens: seq<int>, m: nat) {
    (forall i :: 0 <= i < |lens| ==> lens[i] <= m) && KraftSum(lens, |lens|, m) <= Pow2(m)
  }

  /* Decoding tables */

  /** table[l] counts the codes of length l, trans lists the symbols in code order. */
  datatype Tree = Tree(table: seq<int>, trans: seq<int>)

  function TableAt(t: Tree, l: nat): int {
    if l < |t.table| then t.table[l] else UNDEFINED
  }

  datatype Walked = Walked(length: nat, index: int, found: bool)

  /** The loop of decode_symbol from len on. A table entry that is undefined turns `cur` into
      NaN, which ends the loop without an index. */
  function Walk(src: seq<byte>, p: nat, t: Tree, len: nat, cur: int, sum: int): (w: Walked)
    requires len < |t.table|
    ensures len < w.length <= |t.table|
    decreases |t.table| - len
  {
    var n := TableAt(t, len + 1);
    if n == UNDEFINED then Walked(len + 1, 0, false)
    else
      var cur' := 2 * cur + Bit(src, p + len) - n;
      if cur' < 0 then Walked(len + 1, sum + n + cur', true)
      else Walk(src, p, t, len + 1, cur', sum + n)
  }

  lemma WalkUnfold(src: seq<byte>, p: nat, t: Tree, len: nat, cur: int, sum: int)
    requires len < |t.table|
    ensures var n := TableAt(t, len + 1);
            var cur' := 2 * cur + Bit(src, p + len) - n;
            Walk(src, p, t, len, cur, sum)
            == if n == UNDEFINED then Walked(len + 1, 0, false)
               else if cur' < 0 then Walked(len + 1, sum + n + cur', true)
               else Walk(src, p, t, len + 1, cur', sum + n)
  {
  }

  function TransAt(t: Tree, w: Walked): int {
    if w.found && 0 <= w.index < |t.trans| then t.trans[w.index] else UNDEFINED
  }

  /** decode_symbol: the cursor after it and the symbol. */
  function DecodeSymbol(src: seq<byte>, c: Cursor, t: Tree): (r: (Cursor, int))
    requires c.Valid() && |t.table| == MAX_BITS + 1
    ensures r.0.Valid()
    ensures c.Pos() < r.0.Pos() <= c.Pos() + MAX_BITS + 1
    ensures 16 <= r.0.count + (r.0.Pos() - c.Pos()) <= 31
    ensures c.count >= 16 ==> r.0.index == c.index
  {
    var f := Fill(c, 16);
    var w := Walk(src, f.Pos(), t, 0, 0, 0);
    (Skip(f, w.length), TransAt(t, w))
  }

  /* The tables of a code */

  /** Where the symbols of length l start in trans. */
  function Offset(lens: seq<int>, l: nat): nat {
    if l == 0 then 0 else Offset(lens, l - 1) + BlCount(lens, l - 1)
  }

  function Place(lens: seq<int>, s: nat): nat
    requires s < |lens| && lens[s] > 0
  {
    Offset(lens, lens[s]) + Cnt(lens, s, lens[s])
  }

  /** t holds the tables of lens, whose lengths are at most m, wherever decoding looks. */
  ghost predicate Builds(t: Tree, lens: seq<int>, m: nat) {
    && m < |t.table|
    && (forall s :: 0 <= s < |lens| ==> lens[s] <= m)
    && (forall l :: 1 <= l <= m ==> t.table[l] == BlCount(lens, l))
    && (forall s :: 0 <= s < |lens| && lens[s] > 0 ==> Place(lens, s) < |t.trans| && t.trans[Place(lens, s)] == s)
  }

  /* How much of the code space the first n symbols use at depth l */

  function Used(lens: seq<int>, n: nat, l: nat): nat
    requires n <= |lens|
    decreases l
  {
    if l == 0 then 0 else 2 * Used(lens, n, l - 1) + Cnt(lens, n, l)
  }

  lemma {:induction false} NextCodeIsUsed(lens: seq<int>, l: nat)
    ensures NextCode(lens, l + 1) == 2 * Used(lens, |lens|, l)
  {
    if l != 0 { NextCodeIsUsed(lens, l - 1); }
  }

  lemma {:induction false} UsedGrows(lens: seq<int>, n: nat, l: nat)
    requires n < |lens|
    ensures Used(lens, n + 1, l) == Used(lens, n, l) + (if 1 <= lens[n] <= l then Pow2(l - lens[n]) else 0)
    decreases l
  {
    if l != 0 { UsedGrows(lens, n, l - 1); }
  }

  lemma {:induction false} UsedOfNone(lens: seq<int>, l: nat)
    ensures Used(lens, 0, l) == 0
  {
    if l != 0 { UsedOfNone(lens, l - 1); }
  }

  lemma {:induction false} KraftIsUsed(lens: seq<int>, n: nat, m: nat)
    requires n <= |lens|
    ensures KraftSum(lens, n, m) == Used(lens, n, m)
    decreases n
  {
    if n == 0 {
      UsedOfNone(lens, m);
    } else {
      KraftIsUsed(lens, n - 1, m);
      UsedGrows(lens, n - 1, m);
    }
  }

  /** No depth of a realizable code is overfull. */
  lemma {:induction false} UsedFits(lens: seq<int>, l: nat, m: nat)
    requires Realizable(lens, m) && l <= m
    ensures Used(lens, |lens|, l) <= Pow2(l)
    decreases m - l
  {
    if l == m {
      KraftIsUsed(lens, |lens|, m);
    } else {
      UsedFits(lens, l + 1, m);
      assert Used(lens, |lens|, l + 1) >= 2 * Used(lens, |lens|, l);
    }
  }

  lemma {:induction false} CntMonotone(lens: seq<int>, a: nat, b: nat, l: int)
    requires a <= b <= |lens|
    ensures Cnt(lens, a, l) <= Cnt(lens, b, l)
    ensures a < b && lens[a] == l ==> Cnt(lens, a, l) < Cnt(lens, b, l)
    decreases b
  {
    if a < b { CntMonotone(lens, a, b - 1, l); }
  }

  /* Reading a code */

  /** The n bits at p as a number, first bit most significant. */
  function Msb(src: seq<byte>, p: nat, n: nat): (v: nat)
    ensures v < Pow2(n)
    decreases n
  {
    if n == 0 then 0 else 2 * Msb(src, p, n - 1) + Bit(src, p + n - 1)
  }

  lemma {:induction false} ReadMsb(src: seq<byte>, p: nat, v: nat, n: nat)
    requires v < Pow2(n) && BitsAt(src, p, MsbBits(v, n))
    ensures Msb(src, p, n) == v
    decreases n
  {
    if n != 0 {
      BitsAtConcat(src, p, MsbBits(v / 2, n - 1), [v % 2]);
      ReadMsb(src, p, v / 2, n - 1);
      assert Bit(src, p + (n - 1)) == MsbBits(v, n)[n - 1] == v % 2;
    }
  }

  /** A prefix of the code of s does not look like a shorter code. */
  lemma {:induction false} PrefixUnused(src: seq<byte>, p: nat, lens: seq<int>, n: nat, k: nat)
    requires k < n && Msb(src, p, n) >= 2 * Used(lens, |lens|, n - 1)
    ensures Msb(src, p, k) >= Used(lens, |lens|, k)
    decreases n
  {
    if k < n - 1 {
      assert Msb(src, p, n - 1) >= Used(lens, |lens|, n - 1) >= 2 * Used(lens, |lens|, n - 2);
      PrefixUnused(src, p, lens, n - 1, k);
    }
  }

  /** After len steps cur is the code read minus the code space used, and sum the number of
      shorter codes; the walk ends at the first depth n where the code read is in use. */
  lemma {:induction false} WalkEnds(src: seq<byte>, p: nat, lens: seq<int>, t: Tree, m: nat, len: nat, n: nat)
    requires Builds(t, lens, m) && len < n <= m
    requires forall k :: len < k < n ==> Msb(src, p, k) >= Used(lens, |lens|, k)
    requires Msb(src, p, n) < Used(lens, |lens|, n)
    ensures Walk(src, p, t, len, Msb(src, p, len) - Used(lens, |lens|, len), Offset(lens, len + 1))
         == Walked(n, Offset(lens, n + 1) + Msb(src, p, n) - Used(lens, |lens|, n), true)
    decreases n - len
  {
    hide Walk, Msb, Used, Offset, Builds;
    WalkStep(src, p, lens, t, m, len);
    if len + 1 < n {
      assert Msb(src, p, len + 1) >= Used(lens, |lens|, len + 1);
      WalkEnds(src, p, lens, t, m, len + 1, n);
    }
  }

  /** One step of the walk. */
  lemma WalkStep(src: seq<byte>, p: nat, lens: seq<int>, t: Tree, m: nat, len: nat)
    requires Builds(t, lens, m) && len < m
    ensures var cur := Msb(src, p, len + 1) - Used(lens, |lens|, len + 1);
            (Walk(src, p, t, len, Msb(src, p, len) - Used(lens, |lens|, len), Offset(lens, len + 1))
             == if cur < 0 then Walked(len + 1, Offset(lens, len + 2) + cur, true)
                else Walk(src, p, t, len + 1, cur, Offset(lens, len + 2)))
  {
    assert TableAt(t, len + 1) == BlCount(lens, len + 1);
    StepFacts(src, p, lens, len);
  }

  lemma StepFacts(src: seq<byte>, p: nat, lens: seq<int>, len: nat)
    ensures Msb(src, p, len + 1) == 2 * Msb(src, p, len) + Bit(src, p + len)
    ensures Used(lens, |lens|, len + 1) == 2 * Used(lens, |lens|, len) + BlCount(lens, len + 1)
    ensures Offset(lens, len + 2) == Offset(lens, len + 1) + BlCount(lens, len + 1)
  {
  }

  /** The code of s lies in the space used at its depth and in no shorter code's. */
  lemma CodeInRange(lens: seq<int>, m: nat, s: nat)
    requires Realizable(lens, m) && s < |lens| && lens[s] > 0
    ensures var n := lens[s];
            && Code(lens, s) == 2 * Used(lens, |lens|, n - 1) + Cnt(lens, s, n)
            && Code(lens, s) < Used(lens, |lens|, n) <= Pow2(n)
  {
    NextCodeIsUsed(lens, lens[s] - 1);
    CntMonotone(lens, s, |lens|, lens[s]);
    UsedFits(lens, lens[s], m);
  }

  /** The walk over a stream that starts with the code of s ends at the place of s. */
  lemma WalkFinds(src: seq<byte>, p: nat, lens: seq<int>, t: Tree, m: nat, s: nat)
    requires Realizable(lens, m) && Builds(t, lens, m)
    requires s < |lens| && lens[s] > 0 && BitsAt(src, p, SymbolBits(lens, s))
    ensures Walk(src, p, t, 0, 0, 0) == Walked(lens[s], Place(lens, s), true)
  {
    hide Walk, Used, Msb, Code, Cnt, BlCount, KraftSum, BitsAt;
    var n := lens[s];
    CodeInRange(lens, m, s);
    ReadMsb(src, p, Code(lens, s), n);
    forall k | 0 < k < n ensures Msb(src, p, k) >= Used(lens, |lens|, k) {
      PrefixUnused(src, p, lens, n, k);
    }
    WalkEnds(src, p, lens, t, m, 0, n);
    WalkStart(src, p, lens);
    StepFacts(src, p, lens, n - 1);
  }

  lemma WalkStart(src: seq<byte>, p: nat, lens: seq<int>)
    ensures Msb(src, p, 0) == 0 && Used(lens, |lens|, 0) == 0 && Offset(lens, 1) == 0
  {
  }

  /** Canonical Huffman decoding: on a stream that starts with the code of s, decode_symbol
      returns s and consumes exactly its code. */
  lemma DecodesCode(src: seq<byte>, c: Cursor, lens: seq<int>, t: Tree, m: nat, s: nat)
    requires c.Valid() && Realizable(lens, m) && Builds(t, lens, m) && |t.table| == MAX_BITS + 1
    requires s < |lens| && lens[s] > 0 && BitsAt(src, c.Pos(), SymbolBits(lens, s))
    ensures var r := DecodeSymbol(src, c, t);
            r.1 == s && r.0.Pos() == c.Pos() + lens[s]
  {
    WalkFinds(src, c.Pos(), lens, t, m, s);
  }

  /** Walking over bits that are in use at no depth goes on to the end of the table. */
  lemma {:induction false} WalkGoesOn(src: seq<byte>, p: nat, lens: seq<int>, t: Tree, m: nat, len: nat)
    requires Builds(t, lens, m) && |t.table| == m + 1 && len <= m
    requires forall k :: len < k <= m ==> Msb(src, p, k) >= Used(lens, |lens|, k)
    ensures Walk(src, p, t, len, Msb(src, p, len) - Used(lens, |lens|, len), Offset(lens, len + 1))
         == Walked(m + 1, 0, false)
    decreases m - len
  {
    hide Walk, Msb, Used, Offset, BlCount;
    if len < m {
      WalkStep(src, p, lens, t, m, len);
      WalkGoesOn(src, p, lens, t, m, len + 1);
    } else {
      WalkRunsOut(src, p, t, len, Msb(src, p, len) - Used(lens, |lens|, len), Offset(lens, len + 1));
    }
  }

  lemma WalkRunsOut(src: seq<byte>, p: nat, t: Tree, len: nat, cur: int, sum: int)
    requires |t.table| == len + 1
    ensures Walk(src, p, t, len, cur, sum) == Walked(len + 1, 0, false)
  {
  }

  /** The first depth from k on at which the bits read are in use. */
  lemma FirstUsed(src: seq<byte>, p: nat, lens: seq<int>, m: nat, k: nat) returns (n: nat)
    requires k <= m && Msb(src, p, m) < Used(lens, |lens|, m)
    ensures k <= n <= m && Msb(src, p, n) < Used(lens, |lens|, n)
    ensures forall i :: k <= i < n ==> Msb(src, p, i) >= Used(lens, |lens|, i)
  {
    n := k;
    while Msb(src, p, n) >= Used(lens, |lens|, n)
      invariant k <= n <= m
      invariant forall i :: k <= i < n ==> Msb(src, p, i) >= Used(lens, |lens|, i)
      decreases m - n
    {
      n := n + 1;
    }
  }

  /** A complete code decodes every stream. */
  lemma CompleteDecodes(src: seq<byte>, p: nat, lens: seq<int>, t: Tree, m: nat)
    requires m > 0 && Builds(t, lens, m) && KraftSum(lens, |lens|, m) == Pow2(m)
    ensures Walk(src, p, t, 0, 0, 0).found && Walk(src, p, t, 0, 0, 0).length <= m
  {
    hide Walk, Msb, Used, Offset, BlCount, KraftSum;
    KraftIsUsed(lens, |lens|, m);
    var n := FirstUsed(src, p, lens, m, 1);
    WalkEnds(src, p, lens, t, m, 0, n);
    WalkStart(src, p, lens);
  }

  lemma {:induction false} AllOnes(src: seq<byte>, p: nat, n: nat)
    requires forall i :: p <= i < p + n ==> Bit(src, i) == 1
    ensures Msb(src, p, n) == Pow2(n) - 1
    decreases n
  {
    if n != 0 { AllOnes(src, p, n - 1); }
  }

  /** A code that is not complete leaves a stream of ones undecoded. */
  lemma IncompleteFails(src: seq<byte>, p: nat, lens: seq<int>, t: Tree, m: nat)
    requires m > 0 && Builds(t, lens, m) && |t.table| == m + 1
    requires KraftSum(lens, |lens|, m) < Pow2(m)
    requires forall i :: p <= i < p + m ==> Bit(src, i) == 1
    ensures !Walk(src, p, t, 0, 0, 0).found
  {
    OnesUnused(src, p, lens, m);
    WalkGoesOn(src, p, lens, t, m, 0);
    WalkStart(src, p, lens);
  }

  lemma OnesUnused(src: seq<byte>, p: nat, lens: seq<int>, m: nat)
    requires m > 0 && KraftSum(lens, |lens|, m) < Pow2(m)
    requires forall i :: p <= i < p + m ==> Bit(src, i) == 1
    ensures forall k :: 0 < k <= m ==> Msb(src, p, k) >= Used(lens, |lens|, k)
  {
    KraftIsUsed(lens, |lens|, m);
    AllOnes(src, p, m);
    StepFacts(src, p, lens, m - 1);
    forall k | 0 < k <= m ensures Msb(src, p, k) >= Used(lens, |lens|, k) {
      if k < m { PrefixUnused(src, p, lens, m, k); }
    }
  }

  lemma OnesBit(src: seq<byte>, i: nat)
    requires src == [255, 255] && i < 16
    ensures Bit(src, i) == 1
  {
    assert At(src, i / 8) == 255;
    assert Pow2(0) == 1 && Pow2(1) == 2 && Pow2(2) == 4 && Pow2(3) == 8;
    assert Pow2(4) == 16 && Pow2(5) == 32 && Pow2(6) == 64 && Pow2(7) == 128;
  }

  /** The decoding loop finds a symbol within 15 bits on every stream exactly when the Kraft
      sum of the code is one. */
  lemma CompleteIffAlwaysDecodes(lens: seq<int>, t: Tree, m: nat)
    requires m == MAX_BITS && Realizable(lens, m) && Builds(t, lens, m) && |t.table| == m + 1
    ensures KraftSum(lens, |lens|, m) == Pow2(m)
        <==> forall src: seq<byte>, p: nat :: Walk(src, p, t, 0, 0, 0).found
  {
    if KraftSum(lens, |lens|, m) == Pow2(m) {
      forall src: seq<byte>, p: nat ensures Walk(src, p, t, 0, 0, 0).found {
        CompleteDecodes(src, p, lens, t, m);
      }
    } else {
      var src: seq<byte> := [255, 255];
      forall i | 0 <= i < 16 ensures Bit(src, i) == 1 { OnesBit(src, i); }
      IncompleteFails(src, 0, lens, t, m);
      assert !Walk(src, 0, t, 0, 0, 0).found;
    }
  }
}
