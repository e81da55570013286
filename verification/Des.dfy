/** The DES block cipher as swap networks and fused substitution tables. The tables and the round
    keys are arbitrary: that the cipher inverts does not depend on them. */
module Des {
  import opened DesBits

  type Block = b: seq<bv8> | |b| == 8 witness [0, 0, 0, 0, 0, 0, 0, 0]

  /** SP1 to SP8. */
  type Tables = t: seq<seq<bv32>> | |t| == 8 && forall i :: 0 <= i < 8 ==> |t[i]| == 64
      witness seq(8, i => seq(64, j => 0 as bv32))

  datatype Halves = Halves(l: bv32, r: bv32)

  function Swapped(h: Halves): Halves {
    Halves(h.r, h.l)
  }

  /* Bytes and words */

  lemma PackUnpack(a: bv8, b: bv8, c: bv8, d: bv8)
    ensures var w := Pack(a, b, c, d); Byte0(w) == a && Byte1(w) == b && Byte2(w) == c && Byte3(w) == d
  {
  }

  lemma UnpackPack(w: bv32)
    ensures Pack(Byte0(w), Byte1(w), Byte2(w), Byte3(w)) == w
  {
  }

  function Squash(b: Block): Halves {
    Halves(Pack(b[0], b[1], b[2], b[3]), Pack(b[4], b[5], b[6], b[7]))
  }

  function Spread(h: Halves): Block {
    [Byte0(h.l), Byte1(h.l), Byte2(h.l), Byte3(h.l), Byte0(h.r), Byte1(h.r), Byte2(h.r), Byte3(h.r)]
  }

  lemma SquashSpread(h: Halves)
    ensures Squash(Spread(h)) == h
  {
    UnpackPack(h.l);
    UnpackPack(h.r);
  }

  lemma SpreadSquash(b: Block)
    ensures Spread(Squash(b)) == b
  {
    PackUnpack(b[0], b[1], b[2], b[3]);
    PackUnpack(b[4], b[5], b[6], b[7]);
  }

  /* The swap networks: bits of one half change places with bits of the other */

  datatype Net = By4 | By16 | By2 | By8

  function Up(n: Net, x: bv32): bv32 {
    match n
    case By4 => Up4(x)
    case By16 => Up16(x)
    case By2 => Up2(x)
    case By8 => Up8(x)
  }

  function Pick(n: Net, a: bv32, b: bv32): bv32 {
    match n
    case By4 => Pick4(a, b)
    case By16 => Pick16(a, b)
    case By2 => Pick2(a, b)
    case By8 => Pick8(a, b)
  }

  function Exchange(n: Net, a: bv32, b: bv32): Halves {
    var x := Pick(n, a, b);
    Halves(Xor(a, Up(n, x)), Xor(b, x))
  }

  /** Every other bit, with rotations around it. */
  function Mix(l: bv32, r: bv32): Halves {
    var r1 := Rol(r);
    var x := Odd(l, r1);
    Halves(Rol(Xor(l, x)), Xor(r1, x))
  }

  function Unmix(l: bv32, r: bv32): Halves {
    var r1 := Ror(r);
    var x := Odd(l, r1);
    Halves(Ror(Xor(l, x)), Xor(r1, x))
  }

  function Initial(h: Halves): Halves {
    var h1 := Exchange(By4, h.l, h.r);
    var h2 := Exchange(By16, h1.l, h1.r);
    var h3 := Swapped(Exchange(By2, h2.r, h2.l));
    var h4 := Swapped(Exchange(By8, h3.r, h3.l));
    Mix(h4.l, h4.r)
  }

  /** The network after the rounds, with the halves in the order in which they are spread. */
  function Final(h: Halves): Halves {
    var h1 := Unmix(h.l, h.r);
    var h2 := Exchange(By8, h1.l, h1.r);
    var h3 := Exchange(By2, h2.l, h2.r);
    var h4 := Exchange(By16, h3.r, h3.l);
    Exchange(By4, h4.l, h4.r)
  }

  lemma PickAgain(n: Net, a: bv32, b: bv32)
    ensures Pick(n, Xor(a, Up(n, Pick(n, a, b))), Xor(b, Pick(n, a, b))) == Pick(n, a, b)
  {
    hide Pick4, Pick16, Pick2, Pick8, Up4, Up16, Up2, Up8, Xor;
    PickAgain4(a, b);
    PickAgain16(a, b);
    PickAgain2(a, b);
    PickAgain8(a, b);
  }

  /** Each exchange undoes itself. */
  lemma ExchangeTwice(n: Net, a: bv32, b: bv32)
    ensures Exchange(n, Exchange(n, a, b).l, Exchange(n, a, b).r) == Halves(a, b)
  {
    hide Pick, Up, Xor;
    var x := Pick(n, a, b);
    PickAgain(n, a, b);
    XorTwice(a, Up(n, x));
    XorTwice(b, x);
  }

  lemma MixUndoes(l: bv32, r: bv32)
    ensures Mix(Unmix(l, r).r, Unmix(l, r).l) == Halves(r, l)
  {
    hide Odd, Xor, Rol, Ror;
    var r1 := Ror(r);
    var x := Odd(l, r1);
    OddAgain(l, r1, x);
    Rotations(r);
    Rotations(Xor(l, x));
    XorTwice(l, x);
    XorTwice(r1, x);
  }

  lemma UnmixUndoes(l: bv32, r: bv32)
    ensures Unmix(Mix(l, r).r, Mix(l, r).l) == Halves(r, l)
  {
    hide Odd, Xor, Rol, Ror;
    var r1 := Rol(r);
    var x := Odd(l, r1);
    OddAgain(l, r1, x);
    Rotations(r);
    Rotations(Xor(l, x));
    XorTwice(l, x);
    XorTwice(r1, x);
  }

  /** The final network undoes the initial one with the halves exchanged. */
  lemma FinalUndoesInitial(h: Halves)
    ensures Final(Swapped(Initial(h))) == h
  {
    hide Exchange, Mix, Unmix;
    var h1 := Exchange(By4, h.l, h.r);
    var h2 := Exchange(By16, h1.l, h1.r);
    var h3 := Swapped(Exchange(By2, h2.r, h2.l));
    var h4 := Swapped(Exchange(By8, h3.r, h3.l));
    UnmixUndoes(h4.l, h4.r);
    ExchangeTwice(By8, h3.r, h3.l);
    ExchangeTwice(By2, h2.r, h2.l);
    ExchangeTwice(By16, h1.l, h1.r);
    ExchangeTwice(By4, h.l, h.r);
  }

  /** And the initial one undoes the final one. */
  lemma InitialUndoesFinal(h: Halves)
    ensures Initial(Final(h)) == Swapped(h)
  {
    hide Exchange, Mix, Unmix;
    var h1 := Unmix(h.l, h.r);
    var h2 := Exchange(By8, h1.l, h1.r);
    var h3 := Exchange(By2, h2.l, h2.r);
    var h4 := Exchange(By16, h3.r, h3.l);
    ExchangeTwice(By4, h4.l, h4.r);
    ExchangeTwice(By16, h3.r, h3.l);
    ExchangeTwice(By2, h2.l, h2.r);
    ExchangeTwice(By8, h1.l, h1.r);
    MixUndoes(h.l, h.r);
  }

  /* The initial network is the initial permutation of FIPS 46-3 */

  function Column(b: Block, s: bv3): bv8 {
    Col(b[0], b[1], b[2], b[3], b[4], b[5], b[6], b[7], s)
  }

  /** The permutation IP: bits 2, 4, 6 and 8 of all bytes, counted from the left, and then bits 1,
      3, 5 and 7, each time from the last byte to the first: 58, 50, 42 and so on. */
  function Ip(b: Block): Block {
    [Column(b, 6), Column(b, 4), Column(b, 2), Column(b, 0), Column(b, 7), Column(b, 5), Column(b, 3), Column(b, 1)]
  }

  /** Initial as wiring only. */
  lemma InitialWires(h: Halves, r1: bv32, l1: bv32, r2: bv32,
          l2: bv32, r3: bv32, l3: bv32, r4: bv32, l4: bv32, r5: bv32)
    requires l1 == Left4(h.l, h.r) && r1 == Right4(h.l, h.r) && l2 == Left16(l1, r1) && r2 == Right16(l1, r1)
    requires r3 == Left2(r2, l2) && l3 == Right2(r2, l2) && r4 == Left8(r3, l3) && l4 == Right8(r3, l3) && r5 == Rol(r4)
    ensures Initial(h) == Halves(Rol(EvenOdd(l4, r5)), EvenOdd(r5, l4))
  {
    hide Pick4, Pick16, Pick2, Pick8, Up4, Up16, Up2, Up8, Xor, Odd,
        Rol, Left4, Right4, Left16, Right16, Left2, Right2, Left8, Right8,
      EvenOdd;
    Wires4(h.l, h.r);
    Wires16(l1, r1);
    Wires2(r2, l2);
    Wires8(r3, l3);
    WiresOdd(l4, r5);
  }

  /** The bytes after all exchanges, from the bytes at the beginning. */
  lemma StageBytes(l: bv32, r: bv32, l4: bv32, r4: bv32)
    requires var l1, r1 := Left4(l, r), Right4(l, r);
             var l2, r2 := Left16(l1, r1), Right16(l1, r1);
             var r3, l3 := Left2(r2, l2), Right2(r2, l2);
             r4 == Left8(r3, l3) && l4 == Right8(r3, l3)
    ensures var a0, a1, a2, a3 := Lo4(Byte0(l), Byte0(r)),
        Lo4(Byte1(l), Byte1(r)), Lo4(Byte2(l), Byte2(r)), Lo4(Byte3(l), Byte3(r));
            var b0, b1, b2, b3 := Hi4(Byte0(l), Byte0(r)), Hi4(Byte1(l), Byte1(r)),
                Hi4(Byte2(l), Byte2(r)), Hi4(Byte3(l), Byte3(r));
            && Byte0(l4) == Hi2(b0, b2) && Byte1(l4) == Lo2(b0, b2)
            && Byte2(l4) == Hi2(a0, a2) && Byte3(l4) == Lo2(a0, a2)
            && Byte0(r4) == Hi2(b1, b3) && Byte1(r4) == Lo2(b1, b3)
            && Byte2(r4) == Hi2(a1, a3) && Byte3(r4) == Lo2(a1, a3)
  {
    hide *;
    var l1, r1 := Left4(l, r), Right4(l, r);
    var l2, r2 := Left16(l1, r1), Right16(l1, r1);
    var r3, l3 := Left2(r2, l2), Right2(r2, l2);
    BytesLeft4(l, r);
    BytesRight4(l, r);
    BytesLeft16(l1, r1);
    BytesRight16(l1, r1);
    BytesLeft2(r2, l2);
    BytesRight2(r2, l2);
    BytesLeft8(r3, l3);
    BytesRight8(r3, l3);
  }

  lemma SquashBytes(b: Block)
    ensures var l, r := Squash(b).l, Squash(b).r;
            && Byte0(l) == b[0] && Byte1(l) == b[1] && Byte2(l) == b[2] && Byte3(l) == b[3]
            && Byte0(r) == b[4] && Byte1(r) == b[5] && Byte2(r) == b[6] && Byte3(r) == b[7]
  {
    PackUnpack(b[0], b[1], b[2], b[3]);
    PackUnpack(b[4], b[5], b[6], b[7]);
    hide Pack, Byte0, Byte1, Byte2, Byte3;
  }

  lemma IpIs(b: Block)
    ensures Squash(Ip(b)) == Halves(Pack(Column(b, 6), Column(b, 4), Column(b, 2), Column(b, 0)),
                                    Pack(Column(b, 7), Column(b, 5), Column(b, 3), Column(b, 1)))
  {
    hide Pack, Column;
  }

  /** The columns are the bytes that the exchanges end in. */
  lemma ColumnsOf(b: Block, l4: bv32, r4: bv32)
    requires var l, r := Squash(b).l, Squash(b).r;
             var l1, r1 := Left4(l, r), Right4(l, r);
             var l2, r2 := Left16(l1, r1), Right16(l1, r1);
             var r3, l3 := Left2(r2, l2), Right2(r2, l2);
             r4 == Left8(r3, l3) && l4 == Right8(r3, l3)
    ensures Squash(Ip(b)) == Halves(EvenOdd(l4, Rol(r4)), Ror(EvenOdd(Rol(r4), l4)))
  {
    ColumnIs(b);
    hide *;
    SquashBytes(b);
    StageBytes(Squash(b).l, Squash(b).r, l4, r4);
    BytesMixL(l4, r4);
    BytesMixR(l4, r4);
    DesBits.Column0(b[0], b[1], b[2], b[3], b[4], b[5], b[6], b[7]);
    DesBits.Column1(b[0], b[1], b[2], b[3], b[4], b[5], b[6], b[7]);
    DesBits.Column2(b[0], b[1], b[2], b[3], b[4], b[5], b[6], b[7]);
    DesBits.Column3(b[0], b[1], b[2], b[3], b[4], b[5], b[6], b[7]);
    DesBits.Column4(b[0], b[1], b[2], b[3], b[4], b[5], b[6], b[7]);
    DesBits.Column5(b[0], b[1], b[2], b[3], b[4], b[5], b[6], b[7]);
    DesBits.Column6(b[0], b[1], b[2], b[3], b[4], b[5], b[6], b[7]);
    DesBits.Column7(b[0], b[1], b[2], b[3], b[4], b[5], b[6], b[7]);
    IpIs(b);
    UnpackPack(EvenOdd(l4, Rol(r4)));
    UnpackPack(Ror(EvenOdd(Rol(r4), l4)));
  }

  lemma ColumnIs(b: Block)
    ensures forall s: bv3 :: Column(b, s) == Col(b[0], b[1], b[2], b[3], b[4], b[5], b[6], b[7], s)
  {
    hide Col;
  }

  /** The swap networks compute IP, with both halves rotated by one bit for the rounds. */
  lemma InitialIsIp(b: Block)
    ensures Initial(Squash(b)) == Halves(Rol(Squash(Ip(b)).l), Rol(Squash(Ip(b)).r))
  {
    hide *;
    var h := Squash(b);
    var l1, r1 := Left4(h.l, h.r), Right4(h.l, h.r);
    var l2, r2 := Left16(l1, r1), Right16(l1, r1);
    var r3, l3 := Left2(r2, l2), Right2(r2, l2);
    var r4, l4 := Left8(r3, l3), Right8(r3, l3);
    InitialWires(h, r1, l1, r2, l2, r3, l3, r4, l4, Rol(r4));
    ColumnsOf(b, l4, r4);
    Rotations(EvenOdd(Rol(r4), l4));
  }

  /* The rounds */

  function SixBits(w: bv32): (i: nat)
    ensures i < 64
  {
    Low6(w) as nat
  }

  function Six0(w: bv32): (i: nat) ensures i < 64 { SixBits(w) }
  function Six1(w: bv32): (i: nat) ensures i < 64 { SixBits(Down8(w)) }
  function Six2(w: bv32): (i: nat) ensures i < 64 { SixBits(Down16(w)) }
  function Six3(w: bv32): (i: nat) ensures i < 64 { SixBits(Down24(w)) }

  /** The round function: each table is indexed by six bits. */
  function F(sp: Tables, r: bv32, k0: bv32, k1: bv32): bv32 {
    var x, y := Xor(Turn(r), k0), Xor(r, k1);
    var odd := Or(Or(Or(sp[6][Six0(x)], sp[4][Six1(x)]), sp[2][Six2(x)]), sp[0][Six3(x)]);
    Or(Or(Or(Or(odd, sp[7][Six0(y)]), sp[5][Six1(y)]), sp[3][Six2(y)]), sp[1][Six3(y)])
  }

  datatype Key = Key(k0: bv32, k1: bv32)

  function Round(sp: Tables, k: Key, h: Halves): Halves {
    Halves(h.r, Xor(h.l, F(sp, h.r, k.k0, k.k1)))
  }

  /** Rounds with the halves changing places after each. */
  function Rounds(sp: Tables, ks: seq<Key>, h: Halves): Halves {
    if ks == [] then h else Rounds(sp, ks[1..], Round(sp, ks[0], h))
  }

  function Reverse<T>(s: seq<T>): seq<T> {
    if s == [] then [] else Reverse(s[1..]) + [s[0]]
  }

  lemma {:induction false} LastRound(sp: Tables, ks: seq<Key>, k: Key, h: Halves)
    ensures Rounds(sp, ks + [k], h) == Round(sp, k, Rounds(sp, ks, h))
    decreases ks
  {
    hide Round;
    if ks == [] {
      assert (ks + [k])[1..] == [];
    } else {
      assert (ks + [k])[1..] == ks[1..] + [k];
      LastRound(sp, ks[1..], k, Round(sp, ks[0], h));
    }
  }

  lemma RoundUndoes(sp: Tables, k: Key, h: Halves)
    ensures Round(sp, k, Swapped(Round(sp, k, h))) == Swapped(h)
  {
    hide F, Xor;
    XorTwice(h.l, F(sp, h.r, k.k0, k.k1));
  }

  /** Rounds with the keys in reverse order, on exchanged halves, go back. */
  lemma {:induction false} RoundsUndo(sp: Tables, ks: seq<Key>, h: Halves)
    ensures Rounds(sp, Reverse(ks), Swapped(Rounds(sp, ks, h))) == Swapped(h)
    decreases ks
  {
    hide Round, Swapped;
    if ks != [] {
      var h1 := Round(sp, ks[0], h);
      RoundsUndo(sp, ks[1..], h1);
      LastRound(sp, Reverse(ks[1..]), ks[0], Swapped(Rounds(sp, ks, h)));
      RoundUndoes(sp, ks[0], h);
    }
  }

  /* The cipher */

  function Enc8(sp: Tables, ks: seq<Key>, b: Block): Block {
    Spread(Final(Rounds(sp, ks, Initial(Squash(b)))))
  }

  /** Encrypting with the round keys in reverse order undoes encrypting. */
  lemma Inverts(sp: Tables, ks: seq<Key>, b: Block)
    ensures Enc8(sp, Reverse(ks), Enc8(sp, ks, b)) == b
  {
    hide Initial, Final, Rounds, Squash, Spread, Swapped, Reverse;
    var h := Squash(b);
    var out := Rounds(sp, ks, Initial(h));
    SquashSpread(Final(out));
    InitialUndoesFinal(out);
    RoundsUndo(sp, ks, Initial(h));
    FinalUndoesInitial(h);
    SpreadSquash(b);
  }

  lemma {:induction false} ReverseAppend<T>(s: seq<T>, v: T)
    ensures Reverse(s + [v]) == [v] + Reverse(s)
    decreases s
  {
    if s == [] {
      assert (s + [v])[1..] == [];
    } else {
      assert (s + [v])[1..] == s[1..] + [v];
      ReverseAppend(s[1..], v);
    }
  }

  lemma {:induction false} ReverseTwice<T>(s: seq<T>)
    ensures Reverse(Reverse(s)) == s
    decreases s
  {
    if s != [] {
      ReverseAppend(Reverse(s[1..]), s[0]);
      ReverseTwice(s[1..]);
    }
  }

  /** So the cipher is a bijection on blocks, for every key. */
  lemma Bijective(sp: Tables, ks: seq<Key>, a: Block, b: Block)
    ensures Enc8(sp, ks, a) == Enc8(sp, ks, b) ==> a == b
    ensures Enc8(sp, ks, Enc8(sp, Reverse(ks), a)) == a
  {
    hide Enc8;
    Inverts(sp, ks, a);
    Inverts(sp, ks, b);
    ReverseTwice(ks);
    Inverts(sp, Reverse(ks), a);
  }
}
