/** The logical bit stream behind the decoder's read-ahead buffer. Bits are numbered from the
    least significant bit of the first byte; a position past the end of the source reads zero,
    as `source[i] & 0xff` does for an index that is out of bounds. */
module BitStream {
  import opened Numbers

  type bit = b: int | 0 <= b < 2

  function At(src: seq<byte>, i: int): byte {
    if 0 <= i < |src| then src[i] else 0
  }

  function Bit(src: seq<byte>, p: nat): bit {
    At(src, p / 8) / Pow2(p % 8) % 2
  }

  /** The n bits at p as a number, first bit least significant. */
  function Value(src: seq<byte>, p: nat, n: nat): (v: nat)
    ensures v < Pow2(n)
    decreases n
  {
    if n == 0 then 0 else Bit(src, p) + 2 * Value(src, p + 1, n - 1)
  }

  /** `sourceIndex` and `bitcount`: count bits before byte index are buffered but unread. */
  datatype Cursor = Cursor(index: nat, count: nat) {
    predicate Valid() {
      count <= 31 && count <= 8 * index
    }

    /** Position of the next unread bit. */
    function Pos(): nat
      requires Valid()
    {
      8 * index - count
    }
  }

  /** Reading ahead a byte at a time until at least m bits are buffered. */
  function Fill(c: Cursor, m: nat): (r: Cursor)
    requires c.Valid() && m <= 24
    ensures r.Valid() && r.Pos() == c.Pos()
    ensures m <= r.count && (c.count >= m ==> r == c) && (c.count < m ==> r.count < m + 8)
    decreases m - c.count
  {
    if c.count >= m then c else Fill(Cursor(c.index + 1, c.count + 8), m)
  }

  function Skip(c: Cursor, n: nat): (r: Cursor)
    requires c.Valid() && n <= c.count
    ensures r.Valid() && r.Pos() == c.Pos() + n
  {
    Cursor(c.index, c.count - n)
  }

  /** getbit */
  function AfterBit(c: Cursor): (r: Cursor)
    requires c.Valid()
    ensures r.Valid() && r.Pos() == c.Pos() + 1
  {
    if c.count == 0 then Cursor(c.index + 1, 7) else Skip(c, 1)
  }

  /** read_bits: nothing is buffered for a read of no bits. */
  function AfterBits(c: Cursor, n: nat): (r: Cursor)
    requires c.Valid() && n <= 16
    ensures r.Valid() && r.Pos() == c.Pos() + n
    ensures n > 0 ==> 24 <= r.count + n
  {
    if n == 0 then c else Skip(Fill(c, 24), n)
  }

  lemma {:induction false} ValueSplit(src: seq<byte>, p: nat, a: nat, b: nat)
    ensures Value(src, p, a + b) == Value(src, p, a) + Pow2(a) * Value(src, p + a, b)
    decreases a
  {
    if a != 0 {
      ValueSplit(src, p + 1, a - 1, b);
      var v := Value(src, p + a, b);
      assert (p + 1) + (a - 1) == p + a && (a - 1) + b == a + b - 1;
      Associate(Pow2(a - 1), v);
    }
  }

  lemma Associate(x: int, y: int)
    ensures 2 * x * y == 2 * (x * y)
  {
  }

  lemma ValueDivMod(src: seq<byte>, p: nat, n: nat, a: nat)
    requires a <= n
    ensures Value(src, p, n) / Pow2(a) == Value(src, p + a, n - a)
    ensures Value(src, p, n) % Pow2(a) == Value(src, p, a)
  {
    ValueSplit(src, p, a, n - a);
    DivModUnique(Value(src, p, n), Pow2(a), Value(src, p + a, n - a), Value(src, p, a));
  }

  lemma {:induction false} ByteTail(src: seq<byte>, i: nat, j: nat)
    requires j <= 8
    ensures Value(src, 8 * i + j, 8 - j) == At(src, i) / Pow2(j)
    decreases 8 - j
  {
    if j == 8 {
      assert Pow2(8) == 256 by { Pow2Add(4, 4); assert Pow2(4) == 16; }
    } else {
      assert (8 * i + j) / 8 == i && (8 * i + j) % 8 == j;
      ByteTail(src, i, j + 1);
      assert At(src, i) / Pow2(j) / 2 == At(src, i) / Pow2(j + 1) by { DivTwice(At(src, i), Pow2(j)); }
    }
  }

  lemma DivTwice(x: int, p: nat)
    requires p > 0
    ensures x / p / 2 == x / (2 * p)
  {
    var y := x / p;
    assert x == p * y + x % p;
    assert p * y == (2 * p) * (y / 2) + p * (y % 2);
    DivModUnique(x, 2 * p, y / 2, p * (y % 2) + x % p);
  }

  lemma ValueByte(src: seq<byte>, i: nat, n: nat)
    requires n == 8
    ensures Value(src, 8 * i, n) == At(src, i)
  {
    hide Value, At;
    var j := 8 - n;
    ByteTail(src, i, j);
    assert Pow2(j) == 1;
  }

  lemma PowersUpTo31()
    ensures Pow2(8) == 256 && Pow2(16) == 65536
    ensures Pow2(23) == 0x80_0000 && Pow2(31) == 0x8000_0000
  {
    assert Pow2(4) == 16 && Pow2(7) == 128;
    Pow2Add(4, 4);
    Pow2Add(8, 8);
    Pow2Add(16, 7);
    Pow2Add(23, 8);
  }

  lemma Product(b: byte, p: nat)
    ensures 0 <= p * b <= 255 * p
  {
  }

  /** Shifting a byte by at most 23 places does not reach the sign bit. */
  lemma ShiftByte(b: byte, k: nat)
    requires k < 24
    ensures Shl(b, k) == Pow2(k) * b
  {
    PowersUpTo31();
    Pow2Monotone(k, 23);
    Product(b, Pow2(k));
  }

  lemma ByteAbove(src: seq<byte>, p: nat, k: nat, i: nat, n: nat)
    requires p + k == 8 * i && n == 8
    ensures Value(src, p, k + n) == Value(src, p, k) + Pow2(k) * At(src, i)
  {
    hide Value, Pow2, At;
    ValueSplit(src, p, k, n);
    ValueByte(src, i, n);
  }

  /** OR-ing byte i above the k bits buffered from p buffers eight more bits of the stream. */
  lemma BufferByte(src: seq<byte>, p: nat, k: nat, i: nat, n: nat)
    requires p + k == 8 * i && n == 8
    ensures Or(Value(src, p, k), Pow2(k) * At(src, i)) == Value(src, p, k + n)
  {
    ByteAbove(src, p, k, i, n);
    OrDisjoint(Value(src, p, k), At(src, i), k);
  }

  /** The source holds these bits from p on, all of them before its end. */
  ghost predicate BitsAt(src: seq<byte>, p: nat, bits: seq<bit>) {
    p + |bits| <= 8 * |src| && forall i :: 0 <= i < |bits| ==> Bit(src, p + i) == bits[i]
  }

  lemma BitsAtConcat(src: seq<byte>, p: nat, a: seq<bit>, b: seq<bit>)
    ensures BitsAt(src, p, a + b) <==> BitsAt(src, p, a) && BitsAt(src, p + |a|, b)
  {
    var ab := a + b;
    if BitsAt(src, p, ab) {
      forall i | 0 <= i < |a| ensures Bit(src, p + i) == a[i] {
        assert ab[i] == a[i];
      }
      forall i | 0 <= i < |b| ensures Bit(src, p + |a| + i) == b[i] {
        assert ab[|a| + i] == b[i];
        assert p + (|a| + i) == p + |a| + i;
      }
    }
    if BitsAt(src, p, a) && BitsAt(src, p + |a|, b) {
      forall i | 0 <= i < |ab| ensures Bit(src, p + i) == ab[i] {
        if i >= |a| {
          assert Bit(src, p + |a| + (i - |a|)) == b[i - |a|];
          assert p + |a| + (i - |a|) == p + i;
        }
      }
    }
  }

  /** v in n bits, least significant first (section 3.1.1 of RFC 1951). */
  function LsbBits(v: nat, n: nat): (bits: seq<bit>)
    ensures |bits| == n
  {
    if n == 0 then [] else [v % 2] + LsbBits(v / 2, n - 1)
  }

  lemma {:induction false} ReadLsb(src: seq<byte>, p: nat, v: nat, n: nat)
    requires v < Pow2(n) && BitsAt(src, p, LsbBits(v, n))
    ensures Value(src, p, n) == v
    decreases n
  {
    if n != 0 {
      BitsAtConcat(src, p, [v % 2], LsbBits(v / 2, n - 1));
      assert LsbBits(v, n)[0] == v % 2;
      assert Bit(src, p + 0) == v % 2;
      ReadLsb(src, p + 1, v / 2, n - 1);
    }
  }

  const BYTE_WIDTH: nat := 8

  /** Bits packed into bytes, first bit least significant, the last byte filled with zeros. */
  function Pack(bits: seq<bit>): (src: seq<byte>)
    ensures |src| == (|bits| + 7) / 8
  {
    seq((|bits| + 7) / 8, k requires 0 <= k < (|bits| + 7) / 8 => PackByte(bits, 8 * k, BYTE_WIDTH))
  }

  function BitOr0(bits: seq<bit>, i: nat): bit {
    if i < |bits| then bits[i] else 0
  }

  function BitsFrom(bits: seq<bit>, i: nat, n: nat): (v: nat)
    ensures v < Pow2(n)
    decreases n
  {
    if n == 0 then 0 else BitOr0(bits, i) + 2 * BitsFrom(bits, i + 1, n - 1)
  }

  function PackByte(bits: seq<bit>, i: nat, n: nat): byte
    requires n == 8
  {
    PowersUpTo31();
    BitsFrom(bits, i, n)
  }

  lemma {:induction false} PackedTail(bits: seq<bit>, i: nat, n: nat, j: nat)
    requires j <= n
    ensures BitsFrom(bits, i, n) / Pow2(j) == BitsFrom(bits, i + j, n - j)
    decreases j
  {
    if j != 0 {
      PackedTail(bits, i, n, j - 1);
      DivTwice(BitsFrom(bits, i, n), Pow2(j - 1));
      assert i + (j - 1) + 1 == i + j;
    }
  }

  lemma LowBit(bits: seq<bit>, p: nat, n: nat)
    requires p < |bits| && n > 0
    ensures BitsFrom(bits, p, n) % 2 == bits[p]
  {
  }

  lemma PackedBit(bits: seq<bit>, p: nat)
    requires p < |bits|
    ensures Bit(Pack(bits), p) == bits[p]
  {
    var k, j := p / 8, p % 8;
    assert At(Pack(bits), k) == PackByte(bits, 8 * k, BYTE_WIDTH);
    PackedTail(bits, 8 * k, BYTE_WIDTH, j);
    assert 8 * k + j == p;
    LowBit(bits, p, BYTE_WIDTH - j);
  }

  lemma PackHolds(bits: seq<bit>)
    ensures BitsAt(Pack(bits), 0, bits)
  {
    forall i | 0 <= i < |bits| ensures Bit(Pack(bits), 0 + i) == bits[i] {
      PackedBit(bits, i);
    }
  }
}
