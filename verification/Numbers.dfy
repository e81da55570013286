/** Integer facts shared by the decoders: powers of two, and the bitwise operators of
    JavaScript on non-negative numbers, where every operand and result stays below 2^31 so
    that the signed 32-bit conversion is the identity. */
module Numbers {

  type byte = b: int | 0 <= b < 256

  /** What a JavaScript array read outside its bounds yields. */
  const UNDEFINED := -1

  /** An array element that is a byte or was never assigned. */
  type Cell = c: int | -1 <= c < 256

  function Min(a: int, b: int): int {
    if a <= b then a else b
  }

  function Pow2(n: nat): (r: nat)
    ensures r > 0
  {
    if n == 0 then 1 else 2 * Pow2(n - 1)
  }

  lemma {:induction false} Pow2Add(a: nat, b: nat)
    ensures Pow2(a + b) == Pow2(a) * Pow2(b)
  {
    if b != 0 {
      Pow2Add(a, b - 1);
      assert Pow2(a + b) == 2 * Pow2(a + b - 1);
      assert Pow2(a) * Pow2(b) == Pow2(a) * (2 * Pow2(b - 1)) == 2 * (Pow2(a) * Pow2(b - 1));
    }
  }

  lemma {:induction false} Pow2Monotone(a: nat, b: nat)
    requires a <= b
    ensures Pow2(a) <= Pow2(b)
    decreases b
  {
    if a < b { Pow2Monotone(a, b - 1); }
  }

  /** `x | y` on non-negative integers. */
  function Or(x: nat, y: nat): nat {
    if x == 0 then y
    else if y == 0 then x
    else 2 * Or(x / 2, y / 2) + (if x % 2 == 1 || y % 2 == 1 then 1 else 0)
  }

  /** `x & y` on non-negative integers. */
  function And(x: nat, y: nat): nat {
    if x == 0 || y == 0 then 0
    else 2 * And(x / 2, y / 2) + (if x % 2 == 1 && y % 2 == 1 then 1 else 0)
  }

  /** The signed 32-bit value JavaScript gives to the result of a bitwise operator. */
  function ToInt32(x: int): (r: int)
    ensures -0x8000_0000 <= r < 0x8000_0000
    ensures -0x8000_0000 <= x < 0x8000_0000 ==> r == x
  {
    var m := x % 0x1_0000_0000;
    if m < 0x8000_0000 then m else m - 0x1_0000_0000
  }

  /** `x << k`. */
  function Shl(x: int, k: nat): int {
    ToInt32(Pow2(k) * x)
  }

  /** `x >> k`: Dafny's division by a positive number rounds down, as the shift does. */
  function Shr(x: int, k: nat): int {
    x / Pow2(k)
  }

  /** Bits that do not overlap can be OR-ed by adding them. */
  lemma {:induction false} OrDisjoint(x: nat, y: nat, k: nat)
    requires x < Pow2(k)
    ensures Or(x, Pow2(k) * y) == x + Pow2(k) * y
  {
    if x == 0 || y == 0 {
    } else {
      var p := Pow2(k - 1);
      assert Pow2(k) * y == 2 * (p * y);
      OrDisjoint(x / 2, y, k - 1);
      OrStep(x, p * y);
    }
  }

  lemma OrStep(x: nat, z: nat)
    ensures Or(x, 2 * z) == 2 * Or(x / 2, z) + x % 2
  {
    assert (2 * z) / 2 == z && (2 * z) % 2 == 0;
  }

  /** A mask of k ones keeps the value modulo 2^k. */
  lemma {:induction false} AndMask(x: nat, k: nat)
    ensures And(x, Pow2(k) - 1) == x % Pow2(k)
  {
    if k == 0 {
      assert x % 1 == 0;
    } else if x == 0 {
      assert 0 % Pow2(k) == 0;
    } else {
      var p := Pow2(k - 1);
      AndMask(x / 2, k - 1);
      ModDouble(x, p);
      assert (2 * p - 1) / 2 == p - 1 && (2 * p - 1) % 2 == 1;
    }
  }

  lemma ModDouble(x: nat, p: nat)
    requires p > 0
    ensures x % (2 * p) == 2 * ((x / 2) % p) + x % 2
  {
    var q, r := (x / 2) / p, (x / 2) % p;
    assert x / 2 == p * q + r;
    assert x == (2 * p) * q + (2 * r + x % 2);
    DivModUnique(x, 2 * p, q, 2 * r + x % 2);
  }

  /** The quotient and remainder of a division are the only ones in range. */
  lemma DivModUnique(x: int, d: int, q: int, r: int)
    requires 0 <= r < d && x == d * q + r
    ensures x / d == q && x % d == r
  {
    var q', r' := x / d, x % d;
    assert x == d * q' + r';
    assert d * (q - q') == r' - r;
    MulGrows(d, q - q');
  }

  lemma MulGrows(d: int, k: int)
    requires d > 0
    ensures k >= 1 ==> d * k >= d
    ensures k <= -1 ==> d * k <= -d
  {
    if k >= 1 {
      assert d * k == d + d * (k - 1);
    } else if k <= -1 {
      assert d * k == -d + d * (k + 1);
    }
  }

  /** A mask of one bit picks that bit. */
  lemma {:induction false} AndBit(x: nat, k: nat)
    ensures And(x, Pow2(k)) == (x / Pow2(k)) % 2 * Pow2(k)
  {
    if x == 0 {
      assert 0 / Pow2(k) == 0;
    } else if k == 0 {
      assert x / 1 == x;
      assert And(x / 2, 0) == 0;
    } else {
      var p := Pow2(k - 1);
      AndBit(x / 2, k - 1);
      DivHalves(x, p);
      assert (2 * p) / 2 == p && (2 * p) % 2 == 0;
    }
  }

  lemma DivHalves(x: int, p: nat)
    requires p > 0
    ensures x / (2 * p) == (x / 2) / p
  {
    var q, r := (x / 2) / p, (x / 2) % p;
    assert x / 2 == p * q + r;
    assert x == (2 * p) * q + (2 * r + x % 2);
    DivModUnique(x, 2 * p, q, 2 * r + x % 2);
  }
}
