/** One round: the code works on halves rotated by one bit and on round keys whose groups of six
    stand in two words, one group a byte. */
module DesRound {
  import opened DesBits
  import opened DesTables
  import opened DesBoxes

  /* Two words of 24 bits make the round key, and cookey lays out its groups */

  function Raw0(k: bv64): bv32 { ((k >> 24) & 0xffffff) as bv32 }
  function Raw1(k: bv64): bv32 { (k & 0xffffff) as bv32 }

  function Cook0(raw0: bv32, raw1: bv32): bv32 {
    ((raw0 & 0x00fc0000) << 6) | ((raw0 & 0x00000fc0) << 10) | ((raw1 & 0x00fc0000) >> 10) | ((raw1 & 0x00000fc0) >> 6)
  }

  function Cook1(raw0: bv32, raw1: bv32): bv32 {
    ((raw0 & 0x0003f000) << 12) | ((raw0 & 0x0000003f) << 16) | ((raw1 & 0x0003f000) >> 4) | (raw1 & 0x0000003f)
  }

  function Key0(k: bv64): bv32 { Cook0(Raw0(k), Raw1(k)) }
  function Key1(k: bv64): bv32 { Cook1(Raw0(k), Raw1(k)) }

  /** What the boxes are given. */
  function Expanded(r: bv32, k: bv64): bv64 { E(r) ^ k }

  lemma OddGroups(r: bv32, k: bv64)
    ensures var x, y := Xor(Turn(Rol(r)), Key0(k)), Expanded(r, k);
            && Low6(Down24(x)) == Group1(y) && Low6(Down16(x)) == Group3(y)
            && Low6(Down8(x)) == Group5(y) && Low6(x) == Group7(y)
  {
  }

  lemma EvenGroups(r: bv32, k: bv64)
    ensures var x, y := Xor(Rol(r), Key1(k)), Expanded(r, k);
            && Low6(Down24(x)) == Group2(y) && Low6(Down16(x)) == Group4(y)
            && Low6(Down8(x)) == Group6(y) && Low6(x) == Group8(y)
  {
  }

  /** P moves the bits of different boxes to different places. */
  lemma Gathered(a: bv32, b: bv32, c: bv32, d: bv32, e: bv32, f: bv32, g: bv32, h: bv32)
    requires a < 16 && b < 16 && c < 16 && d < 16 && e < 16 && f < 16 && g < 16 && h < 16
    ensures Or(Or(Or(Or(Or(Or(Or(Placed7(g), Placed5(e)), Placed3(c)), Placed1(a)), Placed8(h)), Placed6(f)),
        Placed4(d)), Placed2(b))
         == Rol(P((a << 28) | (b << 24) | (c << 20) | (d << 16) | (e << 12) | (f << 8) | (g << 4) | h))
  {
  }

  /** The round function of the code with its own tables, x and y being what they are indexed by. */
  function Fused(x: bv32, y: bv32): bv32 {
    var odd := Or(Or(Or(Sp7(Low6(x)), Sp5(Low6(Down8(x)))), Sp3(Low6(Down16(x)))), Sp1(Low6(Down24(x))));
    Or(Or(Or(Or(odd, Sp8(Low6(y))), Sp6(Low6(Down8(y)))), Sp4(Low6(Down16(y)))), Sp2(Low6(Down24(y))))
  }

  function BoxesOf(a: bv6, b: bv6, c: bv6, d: bv6, e: bv6, f: bv6, g: bv6, h: bv6): bv32 {
    (S1(a) << 28) | (S2(b) << 24) | (S3(c) << 20) | (S4(d) << 16) | (S5(e) << 12) | (S6(f) << 8) | (S7(g) << 4) | S8(h)
  }

  lemma FusedIs(a: bv6, b: bv6, c: bv6, d: bv6, e: bv6, f: bv6, g: bv6, h: bv6)
    ensures Or(Or(Or(Or(Or(Or(Or(Sp7(g), Sp5(e)), Sp3(c)), Sp1(a)), Sp8(h)), Sp6(f)), Sp4(d)), Sp2(b))
         == Rol(P(BoxesOf(a, b, c, d, e, f, g, h)))
  {
    BoxesOfIs(a, b, c, d, e, f, g, h);
    hide *;
    Fused1(a);
    Fused2(b);
    Fused3(c);
    Fused4(d);
    Fused5(e);
    Fused6(f);
    Fused7(g);
    Fused8(h);
    Gathered(S1(a), S2(b), S3(c), S4(d), S5(e), S6(f), S7(g), S8(h));
  }

  lemma BoxesOfIs(a: bv6, b: bv6, c: bv6, d: bv6, e: bv6, f: bv6, g: bv6, h: bv6)
    ensures BoxesOf(a, b, c, d, e, f, g, h)
         == (S1(a) << 28) | (S2(b) << 24) | (S3(c) << 20) | (S4(d) << 16)
             | (S5(e) << 12) | (S6(f) << 8) | (S7(g) << 4) | S8(h)
  {
    hide S1, S2, S3, S4, S5, S6, S7, S8;
  }

  lemma BoxesAre(x: bv64)
    ensures Boxes(x) == BoxesOf(Group1(x), Group2(x), Group3(x), Group4(x), Group5(x), Group6(x), Group7(x), Group8(x))
  {
    hide Group1, Group2, Group3, Group4, Group5, Group6, Group7, Group8, S1, S2, S3, S4, S5, S6, S7, S8;
  }

  /** On a rotated half and with its key laid out by cookey, it is the rotated cipher function. */
  lemma FusedRound(r: bv32, k: bv64)
    ensures Fused(Xor(Turn(Rol(r)), Key0(k)), Xor(Rol(r), Key1(k))) == Rol(CipherFunction(r, k))
  {
    hide Rol, Turn, Xor, Key0, Key1, Or, Low6, Down8, Down16,
        Down24, E, P, Boxes, Sp1, Sp2, Sp3, Sp4, Sp5, Sp6, Sp7, Sp8;
    hide Group1, Group2, Group3, Group4, Group5, Group6, Group7, Group8;
    var y := Expanded(r, k);
    OddGroups(r, k);
    EvenGroups(r, k);
    FusedIs(Group1(y), Group2(y), Group3(y), Group4(y), Group5(y), Group6(y), Group7(y), Group8(y));
    BoxesAre(y);
  }
}
