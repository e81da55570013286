/** The substitution tables of the code: eight arrays of words made of the one-bit words a, b, d and e,
    and what they are: a box, the permutation P behind it, and a rotation by one bit. */
module DesBoxes {
  import opened DesBits
  import opened DesTables

  /** An element of a line of sixteen. */
  function Line(v: bv6, x0: bv32, x1: bv32, x2: bv32, x3: bv32, x4: bv32, x5: bv32, x6: bv32, x7: bv32,
                x8: bv32, x9: bv32, x10: bv32, x11: bv32, x12: bv32, x13: bv32, x14: bv32, x15: bv32): bv32 {
    var i := v & 0xf;
    if i == 0 then x0 else if i == 1 then x1 else if i == 2 then x2 else if i == 3 then x3
    else if i == 4 then x4 else if i == 5 then x5 else if i == 6 then x6 else if i == 7 then x7
    else if i == 8 then x8 else if i == 9 then x9 else if i == 10 then x10 else if i == 11 then x11
    else if i == 12 then x12 else if i == 13 then x13 else if i == 14 then x14 else x15
  }

  function Lines(v: bv6, line0: bv32, line1: bv32, line2: bv32, line3: bv32): bv32 {
    if v < 16 then line0 else if v < 32 then line1 else if v < 48 then line2 else line3
  }

  function Sp1(v: bv6): bv32 {
    var z: bv32, a: bv32, b: bv32, d: bv32, e: bv32 := 0, 1 << 16, 1 << 24, 1 << 2, 1 << 10;
    var c, f := a | b, d | e;
    Lines(v,
      Line(v, c|e, z|z, a|z, c|f, c|d, a|f, z|d, a|z, z|e, c|e, c|f, z|e, b|f, c|d, b|z, z|d),
      Line(v, z|f, b|e, b|e, a|e, a|e, c|z, c|z, b|f, a|d, b|d, b|d, a|d, z|z, z|f, a|f, b|z),
      Line(v, a|z, c|f, z|d, c|z, c|e, b|z, b|z, z|e, c|d, a|z, a|e, b|d, z|e, z|d, b|f, a|f),
      Line(v, c|f, a|d, c|z, b|f, b|d, z|f, a|f, c|e, z|f, b|e, b|e, z|z, a|d, a|e, z|z, c|d))
  }

  function Sp2(v: bv6): bv32 {
    var z: bv32, a: bv32, b: bv32, d: bv32, e: bv32 := 0, 1 << 20, 1 << 31, 1 << 5, 1 << 15;
    var c, f := a | b, d | e;
    Lines(v,
      Line(v, c|f, b|e, z|e, a|f, a|z, z|d, c|d, b|f, b|d, c|f, c|e, b|z, b|e, a|z, z|d, c|d),
      Line(v, a|e, a|d, b|f, z|z, b|z, z|e, a|f, c|z, a|d, b|d, z|z, a|e, z|f, c|e, c|z, z|f),
      Line(v, z|z, a|f, c|d, a|z, b|f, c|z, c|e, z|e, c|z, b|e, z|d, c|f, a|f, z|d, z|e, b|z),
      Line(v, z|f, c|e, a|z, b|d, a|d, b|f, b|d, a|d, a|e, z|z, b|e, z|f, b|z, c|d, c|f, a|e))
  }

  function Sp3(v: bv6): bv32 {
    var z: bv32, a: bv32, b: bv32, d: bv32, e: bv32 := 0, 1 << 17, 1 << 27, 1 << 3, 1 << 9;
    var c, f := a | b, d | e;
    Lines(v,
      Line(v, z|f, c|e, z|z, c|d, b|e, z|z, a|f, b|e, a|d, b|d, b|d, a|z, c|f, a|d, c|z, z|f),
      Line(v, b|z, z|d, c|e, z|e, a|e, c|z, c|d, a|f, b|f, a|e, a|z, b|f, z|d, c|f, z|e, b|z),
      Line(v, c|e, b|z, a|d, z|f, a|z, c|e, b|e, z|z, z|e, a|d, c|f, b|e, b|d, z|e, z|z, c|d),
      Line(v, b|f, a|z, b|z, c|f, z|d, a|f, a|e, b|d, c|z, b|f, z|f, c|z, a|f, z|d, c|d, a|e))
  }

  function Sp4(v: bv6): bv32 {
    var z: bv32, a: bv32, b: bv32, d: bv32, e: bv32 := 0, 1 << 13, 1 << 23, 1 << 0, 1 << 7;
    var c, f := a | b, d | e;
    Lines(v,
      Line(v, c|d, a|f, a|f, z|e, c|e, b|f, b|d, a|d, z|z, c|z, c|z, c|f, z|f, z|z, b|e, b|d),
      Line(v, z|d, a|z, b|z, c|d, z|e, b|z, a|d, a|e, b|f, z|d, a|e, b|e, a|z, c|e, c|f, z|f),
      Line(v, b|e, b|d, c|z, c|f, z|f, z|z, z|z, c|z, a|e, b|e, b|f, z|d, c|d, a|f, a|f, z|e),
      Line(v, c|f, z|f, z|d, a|z, b|d, a|d, c|e, b|f, a|d, a|e, b|z, c|d, z|e, b|z, a|z, c|e))
  }

  function Sp5(v: bv6): bv32 {
    var z: bv32, a: bv32, b: bv32, d: bv32, e: bv32 := 0, 1 << 25, 1 << 30, 1 << 8, 1 << 19;
    var c, f := a | b, d | e;
    Lines(v,
      Line(v, z|d, a|f, a|e, c|d, z|e, z|d, b|z, a|e, b|f, z|e, a|d, b|f, c|d, c|e, z|f, b|z),
      Line(v, a|z, b|e, b|e, z|z, b|d, c|f, c|f, a|d, c|e, b|d, z|z, c|z, a|f, a|z, c|z, z|f),
      Line(v, z|e, c|d, z|d, a|z, b|z, a|e, c|d, b|f, a|d, b|z, c|e, a|f, b|f, z|d, a|z, c|e),
      Line(v, c|f, z|f, c|z, c|f, a|e, z|z, b|e, c|z, z|f, a|d, b|d, z|e, z|z, b|e, a|f, b|d))
  }

  function Sp6(v: bv6): bv32 {
    var z: bv32, a: bv32, b: bv32, d: bv32, e: bv32 := 0, 1 << 22, 1 << 29, 1 << 4, 1 << 14;
    var c, f := a | b, d | e;
    Lines(v,
      Line(v, b|d, c|z, z|e, c|f, c|z, z|d, c|f, a|z, b|e, a|f, a|z, b|d, a|d, b|e, b|z, z|f),
      Line(v, z|z, a|d, b|f, z|e, a|e, b|f, z|d, c|d, c|d, z|z, a|f, c|e, z|f, a|e, c|e, b|z),
      Line(v, b|e, z|d, c|d, a|e, c|f, a|z, z|f, b|d, a|z, b|e, b|z, z|f, b|d, c|f, a|e, c|z),
      Line(v, a|f, c|e, z|z, c|d, z|d, z|e, c|z, a|f, z|e, a|d, b|f, z|z, c|e, b|z, a|d, b|f))
  }

  function Sp7(v: bv6): bv32 {
    var z: bv32, a: bv32, b: bv32, d: bv32, e: bv32 := 0, 1 << 21, 1 << 26, 1 << 1, 1 << 11;
    var c, f := a | b, d | e;
    Lines(v,
      Line(v, a|z, c|d, b|f, z|z, z|e, b|f, a|f, c|e, c|f, a|z, z|z, b|d, z|d, b|z, c|d, z|f),
      Line(v, b|e, a|f, a|d, b|e, b|d, c|z, c|e, a|d, c|z, z|e, z|f, c|f, a|e, z|d, b|z, a|e),
      Line(v, b|z, a|e, a|z, b|f, b|f, c|d, c|d, z|d, a|d, b|z, b|e, a|z, c|e, z|f, a|f, c|e),
      Line(v, z|f, b|d, c|f, c|z, a|e, z|z, z|d, c|f, z|z, a|f, c|z, z|e, b|d, b|e, z|e, a|d))
  }

  function Sp8(v: bv6): bv32 {
    var z: bv32, a: bv32, b: bv32, d: bv32, e: bv32 := 0, 1 << 18, 1 << 28, 1 << 6, 1 << 12;
    var c, f := a | b, d | e;
    Lines(v,
      Line(v, b|f, z|e, a|z, c|f, b|z, b|f, z|d, b|z, a|d, c|z, c|f, a|e, c|e, a|f, z|e, z|d),
      Line(v, c|z, b|d, b|e, z|f, a|e, a|d, c|d, c|e, z|f, z|z, z|z, c|d, b|d, b|e, a|f, a|z),
      Line(v, a|f, a|z, c|e, z|e, z|d, c|d, z|e, a|f, b|e, z|d, b|d, c|z, c|d, b|z, a|z, b|f),
      Line(v, z|z, c|f, a|d, b|d, c|z, b|e, b|f, z|z, c|f, a|e, a|e, z|f, z|f, a|d, b|z, c|e))
  }

  /** Four bits, first one first, at these places of a word. */
  function Placed(s: bv32, w: bv5, x: bv5, y: bv5, z: bv5): bv32 {
    (((s >> 3) & 1) << w) | (((s >> 2) & 1) << x) | (((s >> 1) & 1) << y) | ((s & 1) << z)
  }

  function Placed1(s: bv32): bv32 { Placed(s, 24, 16, 10, 2) }

  lemma Wired1(s: bv32)
    requires s < 16
    ensures Rol(P(s << 28)) == Placed1(s)
  {
  }

  lemma Fused1(v: bv6)
    ensures Sp1(v) == Placed1(S1(v)) == Rol(P(S1(v) << 28))
    ensures S1(v) < 16
  {
    hide Rol, P;
    Wired1(S1(v));
  }

  function Placed2(s: bv32): bv32 { Placed(s, 20, 5, 31, 15) }

  lemma Wired2(s: bv32)
    requires s < 16
    ensures Rol(P(s << 24)) == Placed2(s)
  {
  }

  lemma Fused2(v: bv6)
    ensures Sp2(v) == Placed2(S2(v)) == Rol(P(S2(v) << 24))
    ensures S2(v) < 16
  {
    hide Rol, P;
    Wired2(S2(v));
  }

  function Placed3(s: bv32): bv32 { Placed(s, 9, 17, 3, 27) }

  lemma Wired3(s: bv32)
    requires s < 16
    ensures Rol(P(s << 20)) == Placed3(s)
  {
  }

  lemma Fused3(v: bv6)
    ensures Sp3(v) == Placed3(S3(v)) == Rol(P(S3(v) << 20))
    ensures S3(v) < 16
  {
    hide Rol, P;
    Wired3(S3(v));
  }

  function Placed4(s: bv32): bv32 { Placed(s, 7, 13, 23, 0) }

  lemma Wired4(s: bv32)
    requires s < 16
    ensures Rol(P(s << 16)) == Placed4(s)
  {
  }

  lemma Fused4(v: bv6)
    ensures Sp4(v) == Placed4(S4(v)) == Rol(P(S4(v) << 16))
    ensures S4(v) < 16
  {
    hide Rol, P;
    Wired4(S4(v));
  }

  function Placed5(s: bv32): bv32 { Placed(s, 25, 19, 8, 30) }

  lemma Wired5(s: bv32)
    requires s < 16
    ensures Rol(P(s << 12)) == Placed5(s)
  {
  }

  lemma Fused5(v: bv6)
    ensures Sp5(v) == Placed5(S5(v)) == Rol(P(S5(v) << 12))
    ensures S5(v) < 16
  {
    hide Rol, P;
    Wired5(S5(v));
  }

  function Placed6(s: bv32): bv32 { Placed(s, 29, 4, 22, 14) }

  lemma Wired6(s: bv32)
    requires s < 16
    ensures Rol(P(s << 8)) == Placed6(s)
  {
  }

  lemma Fused6(v: bv6)
    ensures Sp6(v) == Placed6(S6(v)) == Rol(P(S6(v) << 8))
    ensures S6(v) < 16
  {
    hide Rol, P;
    Wired6(S6(v));
  }

  function Placed7(s: bv32): bv32 { Placed(s, 1, 21, 11, 26) }

  lemma Wired7(s: bv32)
    requires s < 16
    ensures Rol(P(s << 4)) == Placed7(s)
  {
  }

  lemma Fused7(v: bv6)
    ensures Sp7(v) == Placed7(S7(v)) == Rol(P(S7(v) << 4))
    ensures S7(v) < 16
  {
    hide Rol, P;
    Wired7(S7(v));
  }

  function Placed8(s: bv32): bv32 { Placed(s, 28, 6, 18, 12) }

  lemma Wired8(s: bv32)
    requires s < 16
    ensures Rol(P(s)) == Placed8(s)
  {
  }

  lemma Fused8(v: bv6)
    ensures Sp8(v) == Placed8(S8(v)) == Rol(P(S8(v)))
    ensures S8(v) < 16
  {
    hide Rol, P;
    Wired8(S8(v));
  }

}
