/** The bits of the key schedule: where the code finds in its arrays of bits what the tables of
    FIPS 46-3 pick. */
module DesKeyBits {
  import opened DesBits
  import opened DesTables
  import opened DesRound

  /** Bit j of a half of the key, counted from 0 on the left. */
  function BitOf(c: bv28, j: nat): bv32
    requires j < 28
  {
    ((c >> (27 - j)) & 1) as bv32
  }

  /** Bit m of a byte of the key, counted from the right. */
  function KeyBit(b: bv8, m: nat): bv32
    requires m < 8
  {
    if b & (1 << m) != 0 then 1 else 0
  }

  function Mirror(b: bv8): bv8 {
    ((b & 0x01) << 7) | ((b & 0x02) << 5) | ((b & 0x04) << 3) | ((b & 0x08) << 1)
    | ((b & 0x10) >> 1) | ((b & 0x20) >> 3) | ((b & 0x40) >> 5) | ((b & 0x80) >> 7)
  }

  /** The key of the standard whose bytes are these, each with its bits in the other order. */
  function Mirrored(b0: bv8, b1: bv8, b2: bv8, b3: bv8, b4: bv8, b5: bv8, b6: bv8, b7: bv8): bv64 {
    (Mirror(b0) as bv64 << 56) | (Mirror(b1) as bv64 << 48) | (Mirror(b2) as bv64 << 40) | (Mirror(b3) as bv64 << 32)
    | (Mirror(b4) as bv64 << 24) | (Mirror(b5) as bv64 << 16) | (Mirror(b6) as bv64 << 8) | Mirror(b7) as bv64
  }

  lemma PC1CBits(b0: bv8, b1: bv8, b2: bv8, b3: bv8, b4: bv8, b5: bv8, b6: bv8, b7: bv8)
    ensures var c := PC1C(Mirrored(b0, b1, b2, b3, b4, b5, b6, b7));
            && BitOf(c, 0) == KeyBit(b7, 0) && BitOf(c, 1) == KeyBit(b6, 0)
            && BitOf(c, 2) == KeyBit(b5, 0) && BitOf(c, 3) == KeyBit(b4, 0)
            && BitOf(c, 4) == KeyBit(b3, 0) && BitOf(c, 5) == KeyBit(b2, 0)
            && BitOf(c, 6) == KeyBit(b1, 0) && BitOf(c, 7) == KeyBit(b0, 0)
            && BitOf(c, 8) == KeyBit(b7, 1) && BitOf(c, 9) == KeyBit(b6, 1)
            && BitOf(c, 10) == KeyBit(b5, 1) && BitOf(c, 11) == KeyBit(b4, 1)
            && BitOf(c, 12) == KeyBit(b3, 1) && BitOf(c, 13) == KeyBit(b2, 1)
            && BitOf(c, 14) == KeyBit(b1, 1) && BitOf(c, 15) == KeyBit(b0, 1)
            && BitOf(c, 16) == KeyBit(b7, 2) && BitOf(c, 17) == KeyBit(b6, 2)
            && BitOf(c, 18) == KeyBit(b5, 2) && BitOf(c, 19) == KeyBit(b4, 2)
            && BitOf(c, 20) == KeyBit(b3, 2) && BitOf(c, 21) == KeyBit(b2, 2)
            && BitOf(c, 22) == KeyBit(b1, 2) && BitOf(c, 23) == KeyBit(b0, 2)
            && BitOf(c, 24) == KeyBit(b7, 3) && BitOf(c, 25) == KeyBit(b6, 3)
            && BitOf(c, 26) == KeyBit(b5, 3) && BitOf(c, 27) == KeyBit(b4, 3)
  {
  }

  lemma PC1DBits(b0: bv8, b1: bv8, b2: bv8, b3: bv8, b4: bv8, b5: bv8, b6: bv8, b7: bv8)
    ensures var c := PC1D(Mirrored(b0, b1, b2, b3, b4, b5, b6, b7));
            && BitOf(c, 0) == KeyBit(b7, 6) && BitOf(c, 1) == KeyBit(b6, 6)
            && BitOf(c, 2) == KeyBit(b5, 6) && BitOf(c, 3) == KeyBit(b4, 6)
            && BitOf(c, 4) == KeyBit(b3, 6) && BitOf(c, 5) == KeyBit(b2, 6)
            && BitOf(c, 6) == KeyBit(b1, 6) && BitOf(c, 7) == KeyBit(b0, 6)
            && BitOf(c, 8) == KeyBit(b7, 5) && BitOf(c, 9) == KeyBit(b6, 5)
            && BitOf(c, 10) == KeyBit(b5, 5) && BitOf(c, 11) == KeyBit(b4, 5)
            && BitOf(c, 12) == KeyBit(b3, 5) && BitOf(c, 13) == KeyBit(b2, 5)
            && BitOf(c, 14) == KeyBit(b1, 5) && BitOf(c, 15) == KeyBit(b0, 5)
            && BitOf(c, 16) == KeyBit(b7, 4) && BitOf(c, 17) == KeyBit(b6, 4)
            && BitOf(c, 18) == KeyBit(b5, 4) && BitOf(c, 19) == KeyBit(b4, 4)
            && BitOf(c, 20) == KeyBit(b3, 4) && BitOf(c, 21) == KeyBit(b2, 4)
            && BitOf(c, 22) == KeyBit(b1, 4) && BitOf(c, 23) == KeyBit(b0, 4)
            && BitOf(c, 24) == KeyBit(b3, 3) && BitOf(c, 25) == KeyBit(b2, 3)
            && BitOf(c, 26) == KeyBit(b1, 3) && BitOf(c, 27) == KeyBit(b0, 3)
  {
  }

  lemma ShiftedBits(c: bv28)
    ensures var s := LeftShift(c);
            && BitOf(s, 0) == BitOf(c, 1) && BitOf(s, 1) == BitOf(c, 2)
            && BitOf(s, 2) == BitOf(c, 3) && BitOf(s, 3) == BitOf(c, 4)
            && BitOf(s, 4) == BitOf(c, 5) && BitOf(s, 5) == BitOf(c, 6)
            && BitOf(s, 6) == BitOf(c, 7) && BitOf(s, 7) == BitOf(c, 8)
            && BitOf(s, 8) == BitOf(c, 9) && BitOf(s, 9) == BitOf(c, 10)
            && BitOf(s, 10) == BitOf(c, 11) && BitOf(s, 11) == BitOf(c, 12)
            && BitOf(s, 12) == BitOf(c, 13) && BitOf(s, 13) == BitOf(c, 14)
            && BitOf(s, 14) == BitOf(c, 15) && BitOf(s, 15) == BitOf(c, 16)
            && BitOf(s, 16) == BitOf(c, 17) && BitOf(s, 17) == BitOf(c, 18)
            && BitOf(s, 18) == BitOf(c, 19) && BitOf(s, 19) == BitOf(c, 20)
            && BitOf(s, 20) == BitOf(c, 21) && BitOf(s, 21) == BitOf(c, 22)
            && BitOf(s, 22) == BitOf(c, 23) && BitOf(s, 23) == BitOf(c, 24)
            && BitOf(s, 24) == BitOf(c, 25) && BitOf(s, 25) == BitOf(c, 26)
            && BitOf(s, 26) == BitOf(c, 27) && BitOf(s, 27) == BitOf(c, 0)
  {
  }

  function Put(p: bv32, place: nat): bv32
    requires place < 24
  {
    p << place
  }

  /** Six more bits of a word. */
  function With(w: bv32, a: bv32, b: bv32, c: bv32, d: bv32, e: bv32, f: bv32): bv32 {
    w | a | b | c | d | e | f
  }

  lemma OneByOne(w: bv32, a: bv32, b: bv32, c: bv32, d: bv32, e: bv32, f: bv32)
    ensures w | a | b | c | d | e | f == Or(Or(Or(Or(Or(Or(w, a), b), c), d), e), f)
  {
  }

  lemma WithIs(w: bv32, a: bv32, b: bv32, c: bv32, d: bv32, e: bv32, f: bv32)
    ensures With(w, a, b, c, d, e, f) == Or(Or(Or(Or(Or(Or(w, a), b), c), d), e), f)
  {
    hide Or;
    OneByOne(w, a, b, c, d, e, f);
  }

  /** The groups of the round key as the code puts them together. */
  lemma PC2Bits0(c: bv28, d: bv28)
    ensures Raw0(PC2(c, d)) == With(With(With(With(0,
           Put(BitOf(c, 13), 23), Put(BitOf(c, 16), 22), Put(BitOf(c, 10), 21),
           Put(BitOf(c, 23), 20), Put(BitOf(c, 0), 19), Put(BitOf(c, 4), 18)),
           Put(BitOf(c, 2), 17), Put(BitOf(c, 27), 16), Put(BitOf(c, 14), 15),
           Put(BitOf(c, 5), 14), Put(BitOf(c, 20), 13), Put(BitOf(c, 9), 12)),
           Put(BitOf(c, 22), 11), Put(BitOf(c, 18), 10), Put(BitOf(c, 11), 9),
           Put(BitOf(c, 3), 8), Put(BitOf(c, 25), 7), Put(BitOf(c, 7), 6)),
           Put(BitOf(c, 15), 5), Put(BitOf(c, 6), 4), Put(BitOf(c, 26), 3),
           Put(BitOf(c, 19), 2), Put(BitOf(c, 12), 1), Put(BitOf(c, 1), 0))
  {
  }

  lemma PC2Bits1(c: bv28, d: bv28)
    ensures Raw1(PC2(c, d)) == With(With(With(With(0,
           Put(BitOf(d, 12), 23), Put(BitOf(d, 23), 22), Put(BitOf(d, 2), 21),
           Put(BitOf(d, 8), 20), Put(BitOf(d, 18), 19), Put(BitOf(d, 26), 18)),
           Put(BitOf(d, 1), 17), Put(BitOf(d, 11), 16), Put(BitOf(d, 22), 15),
           Put(BitOf(d, 16), 14), Put(BitOf(d, 4), 13), Put(BitOf(d, 19), 12)),
           Put(BitOf(d, 15), 11), Put(BitOf(d, 20), 10), Put(BitOf(d, 10), 9),
           Put(BitOf(d, 27), 8), Put(BitOf(d, 5), 7), Put(BitOf(d, 24), 6)),
           Put(BitOf(d, 17), 5), Put(BitOf(d, 13), 4), Put(BitOf(d, 21), 3),
           Put(BitOf(d, 7), 2), Put(BitOf(d, 0), 1), Put(BitOf(d, 3), 0))
  {
  }
}
