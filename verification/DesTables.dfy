/** The tables of FIPS 46-3 as it prints them, row by row. Bits are counted from 1, from the left of
    a 64-bit word; shorter words stand at its left. */
module DesTables {

  function At(w: bv64, n: bv64): bv64 {
    if 1 <= n <= 64 then (w >> (64 - n)) & 1 else 0
  }

  /* The bits with these numbers, one behind the other */

  function Bits4(w: bv64, a: bv64, b: bv64, c: bv64, d: bv64): bv64 {
    (At(w, a) << 3) | (At(w, b) << 2) | (At(w, c) << 1) | At(w, d)
  }

  function Bits6(w: bv64, a: bv64, b: bv64, c: bv64, d: bv64, e: bv64, f: bv64): bv64 {
    (At(w, a) << 5) | (At(w, b) << 4) | (At(w, c) << 3) | (At(w, d) << 2) | (At(w, e) << 1) | At(w, f)
  }

  function Bits7(w: bv64, a: bv64, b: bv64, c: bv64, d: bv64, e: bv64, f: bv64, g: bv64): bv64 {
    (At(w, a) << 6) | (At(w, b) << 5) | (At(w, c) << 4) | (At(w, d) << 3) | (At(w, e) << 2) | (At(w, f) << 1) | At(w, g)
  }

  function Bits8(w: bv64, a: bv64, b: bv64, c: bv64, d: bv64, e: bv64, f: bv64, g: bv64, h: bv64): bv64 {
    (At(w, a) << 7) | (At(w, b) << 6) | (At(w, c) << 5) | (At(w, d) << 4)
        | (At(w, e) << 3) | (At(w, f) << 2) | (At(w, g) << 1) | At(w, h)
  }

  function OfHalf(r: bv32): bv64 { r as bv64 << 32 }

  /* The block */

  function IP(w: bv64): bv64 {
    (Bits8(w, 58, 50, 42, 34, 26, 18, 10, 2) << 56)
    | (Bits8(w, 60, 52, 44, 36, 28, 20, 12, 4) << 48)
    | (Bits8(w, 62, 54, 46, 38, 30, 22, 14, 6) << 40)
    | (Bits8(w, 64, 56, 48, 40, 32, 24, 16, 8) << 32)
    | (Bits8(w, 57, 49, 41, 33, 25, 17, 9, 1) << 24)
    | (Bits8(w, 59, 51, 43, 35, 27, 19, 11, 3) << 16)
    | (Bits8(w, 61, 53, 45, 37, 29, 21, 13, 5) << 8)
    | Bits8(w, 63, 55, 47, 39, 31, 23, 15, 7)
  }

  function InverseIP(w: bv64): bv64 {
    (Bits8(w, 40, 8, 48, 16, 56, 24, 64, 32) << 56)
    | (Bits8(w, 39, 7, 47, 15, 55, 23, 63, 31) << 48)
    | (Bits8(w, 38, 6, 46, 14, 54, 22, 62, 30) << 40)
    | (Bits8(w, 37, 5, 45, 13, 53, 21, 61, 29) << 32)
    | (Bits8(w, 36, 4, 44, 12, 52, 20, 60, 28) << 24)
    | (Bits8(w, 35, 3, 43, 11, 51, 19, 59, 27) << 16)
    | (Bits8(w, 34, 2, 42, 10, 50, 18, 58, 26) << 8)
    | Bits8(w, 33, 1, 41, 9, 49, 17, 57, 25)
  }

  /* The cipher function */

  function E(r: bv32): bv64 {
    var w := OfHalf(r);
    (Bits6(w, 32, 1, 2, 3, 4, 5) << 42)
    | (Bits6(w, 4, 5, 6, 7, 8, 9) << 36)
    | (Bits6(w, 8, 9, 10, 11, 12, 13) << 30)
    | (Bits6(w, 12, 13, 14, 15, 16, 17) << 24)
    | (Bits6(w, 16, 17, 18, 19, 20, 21) << 18)
    | (Bits6(w, 20, 21, 22, 23, 24, 25) << 12)
    | (Bits6(w, 24, 25, 26, 27, 28, 29) << 6)
    | Bits6(w, 28, 29, 30, 31, 32, 1)
  }

  function P(r: bv32): bv32 {
    var w := OfHalf(r);
    ((Bits4(w, 16, 7, 20, 21) << 28)
     | (Bits4(w, 29, 12, 28, 17) << 24)
     | (Bits4(w, 1, 15, 23, 26) << 20)
     | (Bits4(w, 5, 18, 31, 10) << 16)
     | (Bits4(w, 2, 8, 24, 14) << 12)
     | (Bits4(w, 32, 27, 3, 9) << 8)
     | (Bits4(w, 19, 13, 30, 6) << 4)
     | Bits4(w, 22, 11, 4, 25)) as bv32
  }

  /** The first and the last bit of six choose a row, and the others a digit of it. */
  function Chosen(six: bv6, row0: bv64, row1: bv64, row2: bv64, row3: bv64): bv32 {
    var row := if six & 0x21 == 0 then row0 else if six & 0x21 == 1 then row1
        else if six & 0x21 == 0x20 then row2 else row3;
    ((row >> (60 - ((six & 0x1e) as bv64 << 1))) & 0xf) as bv32
  }

  function S1(six: bv6): bv32 {
    Chosen(six, 0xe4d12fb83a6c5907, 0x0f74e2d1a6cb9538, 0x41e8d62bfc973a50, 0xfc8249175b3ea06d)
  }

  function S2(six: bv6): bv32 {
    Chosen(six, 0xf18e6b34972dc05a, 0x3d47f28ec01a69b5, 0x0e7ba4d158c6932f, 0xd8a13f42b67c05e9)
  }

  function S3(six: bv6): bv32 {
    Chosen(six, 0xa09e63f51dc7b428, 0xd709346a285ecbf1, 0xd6498f30b12c5ae7, 0x1ad069874fe3b52c)
  }

  function S4(six: bv6): bv32 {
    Chosen(six, 0x7de3069a1285bc4f, 0xd8b56f03472c1ae9, 0xa690cb7df13e5284, 0x3f06a1d8945bc72e)
  }

  function S5(six: bv6): bv32 {
    Chosen(six, 0x2c417ab6853fd0e9, 0xeb2c47d150fa3986, 0x421bad78f9c5630e, 0xb8c71e2d6f09a453)
  }

  function S6(six: bv6): bv32 {
    Chosen(six, 0xc1af92680d34e75b, 0xaf427c9561de0b38, 0x9ef528c3704a1db6, 0x432c95fabe17608d)
  }

  function S7(six: bv6): bv32 {
    Chosen(six, 0x4b2ef08d3c975a61, 0xd0b7491ae35c2f86, 0x14bdc37eaf680592, 0x6bd814a7950fe23c)
  }

  function S8(six: bv6): bv32 {
    Chosen(six, 0xd2846fb1a93e50c7, 0x1fd8a374c56b0e92, 0x7b419ce206adf358, 0x21e74a8dfc90356b)
  }

  /* Group n of six of the 48 bits */

  function Group1(x: bv64): bv6 { ((x >> 42) & 0x3f) as bv6 }
  function Group2(x: bv64): bv6 { ((x >> 36) & 0x3f) as bv6 }
  function Group3(x: bv64): bv6 { ((x >> 30) & 0x3f) as bv6 }
  function Group4(x: bv64): bv6 { ((x >> 24) & 0x3f) as bv6 }
  function Group5(x: bv64): bv6 { ((x >> 18) & 0x3f) as bv6 }
  function Group6(x: bv64): bv6 { ((x >> 12) & 0x3f) as bv6 }
  function Group7(x: bv64): bv6 { ((x >> 6) & 0x3f) as bv6 }
  function Group8(x: bv64): bv6 { (x & 0x3f) as bv6 }

  function Boxes(x: bv64): bv32 {
    (S1(Group1(x)) << 28)
    | (S2(Group2(x)) << 24)
    | (S3(Group3(x)) << 20)
    | (S4(Group4(x)) << 16)
    | (S5(Group5(x)) << 12)
    | (S6(Group6(x)) << 8)
    | (S7(Group7(x)) << 4)
    | S8(Group8(x))
  }

  /** f(R, K) */
  function CipherFunction(r: bv32, k: bv64): bv32 {
    P(Boxes(E(r) ^ k))
  }

  /* The key schedule */

  function PC1C(w: bv64): bv28 {
    ((Bits7(w, 57, 49, 41, 33, 25, 17, 9) << 21)
     | (Bits7(w, 1, 58, 50, 42, 34, 26, 18) << 14)
     | (Bits7(w, 10, 2, 59, 51, 43, 35, 27) << 7)
     | Bits7(w, 19, 11, 3, 60, 52, 44, 36)) as bv28
  }

  function PC1D(w: bv64): bv28 {
    ((Bits7(w, 63, 55, 47, 39, 31, 23, 15) << 21)
     | (Bits7(w, 7, 62, 54, 46, 38, 30, 22) << 14)
     | (Bits7(w, 14, 6, 61, 53, 45, 37, 29) << 7)
     | Bits7(w, 21, 13, 5, 28, 20, 12, 4)) as bv28
  }

  function LeftShift(c: bv28): bv28 { (c << 1) | (c >> 27) }

  function PC2(c: bv28, d: bv28): bv64 {
    var w := (c as bv64 << 36) | (d as bv64 << 8);
    (Bits6(w, 14, 17, 11, 24, 1, 5) << 42)
    | (Bits6(w, 3, 28, 15, 6, 21, 10) << 36)
    | (Bits6(w, 23, 19, 12, 4, 26, 8) << 30)
    | (Bits6(w, 16, 7, 27, 20, 13, 2) << 24)
    | (Bits6(w, 41, 52, 31, 37, 47, 55) << 18)
    | (Bits6(w, 30, 40, 51, 45, 33, 48) << 12)
    | (Bits6(w, 44, 49, 39, 56, 34, 53) << 6)
    | Bits6(w, 46, 42, 50, 36, 29, 32)
  }
}
