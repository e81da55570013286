/** The bit operations of DES on 32-bit words: what the masks and shifts of its swap networks
    move where. */
module DesBits {

  function Pack(a: bv8, b: bv8, c: bv8, d: bv8): bv32 {
    (a as bv32 << 24) | (b as bv32 << 16) | (c as bv32 << 8) | d as bv32
  }

  function Byte0(w: bv32): bv8 { ((w >> 24) & 0xff) as bv8 }
  function Byte1(w: bv32): bv8 { ((w >> 16) & 0xff) as bv8 }
  function Byte2(w: bv32): bv8 { ((w >> 8) & 0xff) as bv8 }
  function Byte3(w: bv32): bv8 { (w & 0xff) as bv8 }

  function Xor(a: bv32, b: bv32): bv32 { a ^ b }

  lemma XorTwice(a: bv32, x: bv32)
    ensures Xor(Xor(a, x), x) == a
  {
  }

  function Rol(w: bv32): bv32 { (w << 1) | ((w >> 31) & 1) }
  function Ror(w: bv32): bv32 { (w << 31) | (w >> 1) }

  lemma Rotations(w: bv32)
    ensures Rol(Ror(w)) == w && Ror(Rol(w)) == w
  {
  }

  /* The round function */

  function Or(a: bv32, b: bv32): bv32 { a | b }
  function Turn(r: bv32): bv32 { (r << 28) | (r >> 4) }

  function Low6(w: bv32): bv6 { (w & 0x3f) as bv6 }
  function Down8(w: bv32): bv32 { w >> 8 }
  function Down16(w: bv32): bv32 { w >> 16 }
  function Down24(w: bv32): bv32 { w >> 24 }

  /* Where the bits of a, shifted down, differ from those of b, as far as they are exchanged; and
     what has to be shifted up for a */

  function Pick4(a: bv32, b: bv32): bv32 { ((a >> 4) ^ b) & 0x0f0f0f0f }
  function Up4(x: bv32): bv32 { x << 4 }

  function Pick16(a: bv32, b: bv32): bv32 { ((a >> 16) ^ b) & 0x0000ffff }
  function Up16(x: bv32): bv32 { x << 16 }

  function Pick2(a: bv32, b: bv32): bv32 { ((a >> 2) ^ b) & 0x33333333 }
  function Up2(x: bv32): bv32 { x << 2 }

  function Pick8(a: bv32, b: bv32): bv32 { ((a >> 8) ^ b) & 0x00ff00ff }
  function Up8(x: bv32): bv32 { x << 8 }

  function Odd(l: bv32, r: bv32): bv32 { (l ^ r) & 0xaaaaaaaa }

  lemma PickAgain4(a: bv32, b: bv32)
    ensures Pick4(Xor(a, Up4(Pick4(a, b))), Xor(b, Pick4(a, b))) == Pick4(a, b)
  {
  }

  lemma PickAgain16(a: bv32, b: bv32)
    ensures Pick16(Xor(a, Up16(Pick16(a, b))), Xor(b, Pick16(a, b))) == Pick16(a, b)
  {
  }

  lemma PickAgain2(a: bv32, b: bv32)
    ensures Pick2(Xor(a, Up2(Pick2(a, b))), Xor(b, Pick2(a, b))) == Pick2(a, b)
  {
  }

  lemma PickAgain8(a: bv32, b: bv32)
    ensures Pick8(Xor(a, Up8(Pick8(a, b))), Xor(b, Pick8(a, b))) == Pick8(a, b)
  {
  }

  lemma OddAgain(l: bv32, r: bv32, x: bv32)
    requires x == Odd(l, r)
    ensures Odd(Xor(r, x), Xor(l, x)) == x && Odd(Xor(l, x), Xor(r, x)) == x
  {
  }

  /* What the exchanges do, without exclusive or */

  function Left4(a: bv32, b: bv32): bv32 { (a & 0x0f0f0f0f) | ((b & 0x0f0f0f0f) << 4) }
  function Right4(a: bv32, b: bv32): bv32 { (b & 0xf0f0f0f0) | ((a >> 4) & 0x0f0f0f0f) }

  function Left16(a: bv32, b: bv32): bv32 { (a & 0x0000ffff) | ((b & 0x0000ffff) << 16) }
  function Right16(a: bv32, b: bv32): bv32 { (b & 0xffff0000) | ((a >> 16) & 0x0000ffff) }

  function Left2(a: bv32, b: bv32): bv32 { (a & 0x33333333) | ((b & 0x33333333) << 2) }
  function Right2(a: bv32, b: bv32): bv32 { (b & 0xcccccccc) | ((a >> 2) & 0x33333333) }

  function Left8(a: bv32, b: bv32): bv32 { (a & 0x00ff00ff) | ((b & 0x00ff00ff) << 8) }
  function Right8(a: bv32, b: bv32): bv32 { (b & 0xff00ff00) | ((a >> 8) & 0x00ff00ff) }

  function EvenOdd(a: bv32, b: bv32): bv32 { (a & 0x55555555) | (b & 0xaaaaaaaa) }

  lemma Wires4(a: bv32, b: bv32)
    ensures Xor(a, Up4(Pick4(a, b))) == Left4(a, b) && Xor(b, Pick4(a, b)) == Right4(a, b)
  {
  }

  lemma Wires16(a: bv32, b: bv32)
    ensures Xor(a, Up16(Pick16(a, b))) == Left16(a, b) && Xor(b, Pick16(a, b)) == Right16(a, b)
  {
  }

  lemma Twos(a: bv32, b: bv32)
    ensures a ^ ((((a >> 2) ^ b) & 0x33333333) << 2) == (a & 0x33333333) | ((b & 0x33333333) << 2)
    ensures b ^ (((a >> 2) ^ b) & 0x33333333) == (b & 0xcccccccc) | ((a >> 2) & 0x33333333)
  {
  }

  lemma Wires2(a: bv32, b: bv32)
    ensures Xor(a, Up2(Pick2(a, b))) == Left2(a, b) && Xor(b, Pick2(a, b)) == Right2(a, b)
  {
    Twos(a, b);
  }

  lemma Wires8(a: bv32, b: bv32)
    ensures Xor(a, Up8(Pick8(a, b))) == Left8(a, b) && Xor(b, Pick8(a, b)) == Right8(a, b)
  {
  }

  lemma WiresOdd(l: bv32, r: bv32)
    ensures Xor(l, Odd(l, r)) == EvenOdd(l, r) && Xor(r, Odd(l, r)) == EvenOdd(r, l)
  {
  }

  /* Columns of bits */

  /** Bit s, from the right, of each byte, the last byte first. */
  function Col(b0: bv8, b1: bv8, b2: bv8, b3: bv8, b4: bv8, b5: bv8, b6: bv8, b7: bv8, s: bv3): bv8 {
    (((b7 >> s) & 1) << 7) | (((b6 >> s) & 1) << 6) | (((b5 >> s) & 1) << 5) | (((b4 >> s) & 1) << 4)
    | (((b3 >> s) & 1) << 3) | (((b2 >> s) & 1) << 2) | (((b1 >> s) & 1) << 1) | ((b0 >> s) & 1)
  }

  /* The exchanges byte by byte */

  function Lo4(a: bv8, b: bv8): bv8 { (a & 0x0f) | ((b & 0x0f) << 4) }
  function Hi4(a: bv8, b: bv8): bv8 { (b & 0xf0) | ((a >> 4) & 0x0f) }
  function Lo2(a: bv8, b: bv8): bv8 { (a & 0x33) | ((b & 0x33) << 2) }
  function Hi2(a: bv8, b: bv8): bv8 { (b & 0xcc) | ((a >> 2) & 0x33) }
  function MixL(p: bv8, q: bv8): bv8 { (p & 0x55) | ((q << 1) & 0xaa) }
  function MixR(p: bv8, q: bv8): bv8 { (q & 0xaa) | ((p >> 1) & 0x55) }

  lemma BytesLeft4(a: bv32, b: bv32)
    ensures Byte0(Left4(a, b)) == Lo4(Byte0(a), Byte0(b))
    ensures Byte1(Left4(a, b)) == Lo4(Byte1(a), Byte1(b))
    ensures Byte2(Left4(a, b)) == Lo4(Byte2(a), Byte2(b))
    ensures Byte3(Left4(a, b)) == Lo4(Byte3(a), Byte3(b))
  {
  }

  lemma BytesRight4(a: bv32, b: bv32)
    ensures Byte0(Right4(a, b)) == Hi4(Byte0(a), Byte0(b))
    ensures Byte1(Right4(a, b)) == Hi4(Byte1(a), Byte1(b))
    ensures Byte2(Right4(a, b)) == Hi4(Byte2(a), Byte2(b))
    ensures Byte3(Right4(a, b)) == Hi4(Byte3(a), Byte3(b))
  {
  }

  lemma BytesLeft16(a: bv32, b: bv32)
    ensures Byte0(Left16(a, b)) == Byte2(b)
    ensures Byte1(Left16(a, b)) == Byte3(b)
    ensures Byte2(Left16(a, b)) == Byte2(a)
    ensures Byte3(Left16(a, b)) == Byte3(a)
  {
  }

  lemma BytesRight16(a: bv32, b: bv32)
    ensures Byte0(Right16(a, b)) == Byte0(b)
    ensures Byte1(Right16(a, b)) == Byte1(b)
    ensures Byte2(Right16(a, b)) == Byte0(a)
    ensures Byte3(Right16(a, b)) == Byte1(a)
  {
  }

  lemma BytesLeft2(a: bv32, b: bv32)
    ensures Byte0(Left2(a, b)) == Lo2(Byte0(a), Byte0(b))
    ensures Byte1(Left2(a, b)) == Lo2(Byte1(a), Byte1(b))
    ensures Byte2(Left2(a, b)) == Lo2(Byte2(a), Byte2(b))
    ensures Byte3(Left2(a, b)) == Lo2(Byte3(a), Byte3(b))
  {
  }

  lemma BytesRight2(a: bv32, b: bv32)
    ensures Byte0(Right2(a, b)) == Hi2(Byte0(a), Byte0(b))
    ensures Byte1(Right2(a, b)) == Hi2(Byte1(a), Byte1(b))
    ensures Byte2(Right2(a, b)) == Hi2(Byte2(a), Byte2(b))
    ensures Byte3(Right2(a, b)) == Hi2(Byte3(a), Byte3(b))
  {
  }

  lemma BytesLeft8(a: bv32, b: bv32)
    ensures Byte0(Left8(a, b)) == Byte1(b)
    ensures Byte1(Left8(a, b)) == Byte1(a)
    ensures Byte2(Left8(a, b)) == Byte3(b)
    ensures Byte3(Left8(a, b)) == Byte3(a)
  {
  }

  lemma BytesRight8(a: bv32, b: bv32)
    ensures Byte0(Right8(a, b)) == Byte0(b)
    ensures Byte1(Right8(a, b)) == Byte0(a)
    ensures Byte2(Right8(a, b)) == Byte2(b)
    ensures Byte3(Right8(a, b)) == Byte2(a)
  {
  }

  lemma BytesMixL(a: bv32, b: bv32)
    ensures Byte0(EvenOdd(a, Rol(b))) == MixL(Byte0(a), Byte0(b))
    ensures Byte1(EvenOdd(a, Rol(b))) == MixL(Byte1(a), Byte1(b))
    ensures Byte2(EvenOdd(a, Rol(b))) == MixL(Byte2(a), Byte2(b))
    ensures Byte3(EvenOdd(a, Rol(b))) == MixL(Byte3(a), Byte3(b))
  {
  }

  lemma BytesMixR(a: bv32, b: bv32)
    ensures Byte0(Ror(EvenOdd(Rol(b), a))) == MixR(Byte0(a), Byte0(b))
    ensures Byte1(Ror(EvenOdd(Rol(b), a))) == MixR(Byte1(a), Byte1(b))
    ensures Byte2(Ror(EvenOdd(Rol(b), a))) == MixR(Byte2(a), Byte2(b))
    ensures Byte3(Ror(EvenOdd(Rol(b), a))) == MixR(Byte3(a), Byte3(b))
  {
  }

  /* The bytes they end in are columns */

  lemma Column6(b0: bv8, b1: bv8, b2: bv8, b3: bv8, b4: bv8, b5: bv8, b6: bv8, b7: bv8)
    ensures MixL(Hi2(Hi4(b0, b4), Hi4(b2, b6)),
              Hi2(Hi4(b1, b5), Hi4(b3, b7))) == Col(b0, b1, b2, b3, b4, b5, b6, b7, 6)
  {
  }

  lemma Column7(b0: bv8, b1: bv8, b2: bv8, b3: bv8, b4: bv8, b5: bv8, b6: bv8, b7: bv8)
    ensures MixR(Hi2(Hi4(b0, b4), Hi4(b2, b6)),
              Hi2(Hi4(b1, b5), Hi4(b3, b7))) == Col(b0, b1, b2, b3, b4, b5, b6, b7, 7)
  {
  }

  lemma Column4(b0: bv8, b1: bv8, b2: bv8, b3: bv8, b4: bv8, b5: bv8, b6: bv8, b7: bv8)
    ensures MixL(Lo2(Hi4(b0, b4), Hi4(b2, b6)),
              Lo2(Hi4(b1, b5), Hi4(b3, b7))) == Col(b0, b1, b2, b3, b4, b5, b6, b7, 4)
  {
  }

  lemma Column5(b0: bv8, b1: bv8, b2: bv8, b3: bv8, b4: bv8, b5: bv8, b6: bv8, b7: bv8)
    ensures MixR(Lo2(Hi4(b0, b4), Hi4(b2, b6)),
              Lo2(Hi4(b1, b5), Hi4(b3, b7))) == Col(b0, b1, b2, b3, b4, b5, b6, b7, 5)
  {
  }

  lemma Column2(b0: bv8, b1: bv8, b2: bv8, b3: bv8, b4: bv8, b5: bv8, b6: bv8, b7: bv8)
    ensures MixL(Hi2(Lo4(b0, b4), Lo4(b2, b6)),
              Hi2(Lo4(b1, b5), Lo4(b3, b7))) == Col(b0, b1, b2, b3, b4, b5, b6, b7, 2)
  {
  }

  lemma Column3(b0: bv8, b1: bv8, b2: bv8, b3: bv8, b4: bv8, b5: bv8, b6: bv8, b7: bv8)
    ensures MixR(Hi2(Lo4(b0, b4), Lo4(b2, b6)),
              Hi2(Lo4(b1, b5), Lo4(b3, b7))) == Col(b0, b1, b2, b3, b4, b5, b6, b7, 3)
  {
  }

  lemma Column0(b0: bv8, b1: bv8, b2: bv8, b3: bv8, b4: bv8, b5: bv8, b6: bv8, b7: bv8)
    ensures MixL(Lo2(Lo4(b0, b4), Lo4(b2, b6)),
              Lo2(Lo4(b1, b5), Lo4(b3, b7))) == Col(b0, b1, b2, b3, b4, b5, b6, b7, 0)
  {
  }

  lemma Column1(b0: bv8, b1: bv8, b2: bv8, b3: bv8, b4: bv8, b5: bv8, b6: bv8, b7: bv8)
    ensures MixR(Lo2(Lo4(b0, b4), Lo4(b2, b6)),
              Lo2(Lo4(b1, b5), Lo4(b3, b7))) == Col(b0, b1, b2, b3, b4, b5, b6, b7, 1)
  {
  }
}
