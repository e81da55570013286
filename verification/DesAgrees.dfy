/** The code is the standard: with its own tables, and the round keys of the schedule laid out as
    cookey does, the swap networks and table lookups encipher as FIPS 46-3 prescribes. */
module DesAgrees {
  import opened DesBits
  import opened DesTables
  import opened DesBoxes
  import opened DesRound
  import opened DesStandard
  import opened Des

  function Table1(): (s: seq<bv32>)
    ensures |s| == 64
  {
    seq(64, i requires 0 <= i < 64 => Sp1(i as bv6))
  }

  function Table2(): (s: seq<bv32>)
    ensures |s| == 64
  {
    seq(64, i requires 0 <= i < 64 => Sp2(i as bv6))
  }

  function Table3(): (s: seq<bv32>)
    ensures |s| == 64
  {
    seq(64, i requires 0 <= i < 64 => Sp3(i as bv6))
  }

  function Table4(): (s: seq<bv32>)
    ensures |s| == 64
  {
    seq(64, i requires 0 <= i < 64 => Sp4(i as bv6))
  }

  function Table5(): (s: seq<bv32>)
    ensures |s| == 64
  {
    seq(64, i requires 0 <= i < 64 => Sp5(i as bv6))
  }

  function Table6(): (s: seq<bv32>)
    ensures |s| == 64
  {
    seq(64, i requires 0 <= i < 64 => Sp6(i as bv6))
  }

  function Table7(): (s: seq<bv32>)
    ensures |s| == 64
  {
    seq(64, i requires 0 <= i < 64 => Sp7(i as bv6))
  }

  function Table8(): (s: seq<bv32>)
    ensures |s| == 64
  {
    seq(64, i requires 0 <= i < 64 => Sp8(i as bv6))
  }

  function SpTables(): Tables {
    [Table1(), Table2(), Table3(), Table4(), Table5(), Table6(), Table7(), Table8()]
  }

  lemma BackAgain(v: bv6)
    ensures (v as nat) as bv6 == v
  {
  }

  lemma Elements(v: bv6)
    ensures SpTables()[0][v as nat] == Sp1(v) && SpTables()[1][v as nat] == Sp2(v)
    ensures SpTables()[2][v as nat] == Sp3(v) && SpTables()[3][v as nat] == Sp4(v)
    ensures SpTables()[4][v as nat] == Sp5(v) && SpTables()[5][v as nat] == Sp6(v)
    ensures SpTables()[6][v as nat] == Sp7(v) && SpTables()[7][v as nat] == Sp8(v)
  {
    hide Sp1, Sp2, Sp3, Sp4, Sp5, Sp6, Sp7, Sp8;
    BackAgain(v);
  }

  lemma FusedLookups(r: bv32, k0: bv32, k1: bv32)
    ensures F(SpTables(), r, k0, k1) == Fused(Xor(Turn(r), k0), Xor(r, k1))
  {
    hide SpTables, Xor, Turn, Or, Low6, Down8, Down16, Down24, Sp1, Sp2, Sp3, Sp4, Sp5, Sp6, Sp7, Sp8;
    var x, y := Xor(Turn(r), k0), Xor(r, k1);
    Elements(Low6(x));
    Elements(Low6(Down8(x)));
    Elements(Low6(Down16(x)));
    Elements(Low6(Down24(x)));
    Elements(Low6(y));
    Elements(Low6(Down8(y)));
    Elements(Low6(Down16(y)));
    Elements(Low6(Down24(y)));
  }

  function KeyWords(k: bv64): Key {
    Key(Key0(k), Key1(k))
  }

  function AllKeyWords(ks: seq<bv64>): (r: seq<Key>)
    ensures |r| == |ks|
  {
    seq(|ks|, i requires 0 <= i < |ks| => KeyWords(ks[i]))
  }

  lemma RolXor(a: bv32, b: bv32)
    ensures Xor(Rol(a), Rol(b)) == Rol(Xor(a, b))
  {
  }

  lemma RoundAgrees(k: bv64, l: bv32, r: bv32)
    ensures Round(SpTables(), KeyWords(k), Halves(Rol(l), Rol(r))) == Halves(Rol(r), Rol(Xor(l, CipherFunction(r, k))))
  {
    hide F, Rol, Xor, Fused, Turn, CipherFunction, Key0, Key1;
    FusedLookups(Rol(r), Key0(k), Key1(k));
    FusedRound(r, k);
    RolXor(l, CipherFunction(r, k));
  }

  /** The rounds of the code on rotated halves are those of the standard. */
  lemma {:induction false} RoundsAgree(ks: seq<bv64>, l: bv32, r: bv32)
    ensures var out := Preoutput(ks, l, r);
            Rounds(SpTables(), AllKeyWords(ks), Halves(Rol(l), Rol(r))) == Halves(Rol(Right(out)), Rol(Left(out)))
    decreases ks
  {
    hide Round, KeyWords, CipherFunction, SpTables, Xor, Rol, Join, Left, Right;
    if ks == [] {
      Halved(r, l);
    } else {
      RoundAgrees(ks[0], l, r);
      assert AllKeyWords(ks)[1..] == AllKeyWords(ks[1..]);
      RoundsAgree(ks[1..], r, Xor(l, CipherFunction(r, ks[0])));
    }
  }

  /* Blocks */

  function WordOf(b: Block): bv64 {
    Join(Squash(b).l, Squash(b).r)
  }

  function BlockOf(w: bv64): Block {
    Spread(Halves(Left(w), Right(w)))
  }

  lemma BlockOfWord(b: Block)
    ensures BlockOf(WordOf(b)) == b
  {
    hide Squash, Spread, Join, Left, Right;
    Halved(Squash(b).l, Squash(b).r);
    SpreadSquash(b);
  }

  lemma IPIs(b: Block)
    ensures IP(WordOf(b)) == Join(Squash(Ip(b)).l, Squash(Ip(b)).r)
  {
    ColumnIs(b);
    SquashIs(b);
    hide *;
    IPColumns(b[0], b[1], b[2], b[3], b[4], b[5], b[6], b[7]);
    IpIs(b);
  }

  lemma SquashIs(b: Block)
    ensures WordOf(b) == Join(Pack(b[0], b[1], b[2], b[3]), Pack(b[4], b[5], b[6], b[7]))
  {
    hide Pack, Join;
  }

  /** The networks in front compute IP, up to the rotations. */
  lemma InitialAgrees(b: Block)
    ensures Initial(Squash(b)) == Halves(Rol(Left(IP(WordOf(b)))), Rol(Right(IP(WordOf(b)))))
  {
    hide *;
    InitialIsIp(b);
    IPIs(b);
    Halved(Squash(Ip(b)).l, Squash(Ip(b)).r);
  }

  lemma RolInjective(a: bv32, b: bv32)
    requires Rol(a) == Rol(b)
    ensures a == b
  {
    hide Rol, Ror;
    Rotations(a);
    Rotations(b);
  }

  /** And those behind the rounds its inverse. */
  lemma FinalAgrees(w: bv64)
    ensures Spread(Final(Halves(Rol(Right(w)), Rol(Left(w))))) == BlockOf(InverseIP(w))
  {
    hide Rol, Initial, Final, Spread, Squash, WordOf, BlockOf, IP, InverseIP, Join, Left, Right;
    var h := Halves(Rol(Right(w)), Rol(Left(w)));
    var b := Spread(Final(h));
    SquashSpread(Final(h));
    InitialUndoesFinal(h);
    InitialAgrees(b);
    RolInjective(Left(w), Left(IP(WordOf(b))));
    RolInjective(Right(w), Right(IP(WordOf(b))));
    Joined(w);
    Joined(IP(WordOf(b)));
    InverseOfIP(WordOf(b));
    BlockOfWord(b);
  }

  /** The whole cipher, for every key and every block. */
  lemma Agrees(key: bv64, b: Block)
    ensures Enc8(SpTables(), AllKeyWords(KeySchedule(key)), b) == BlockOf(Encipher(key, WordOf(b)))
  {
    hide SpTables, AllKeyWords, KeySchedule, Rounds, Initial, Final,
        Spread, Squash, WordOf, BlockOf, IP, InverseIP, Rol, Left, Right,
      Preoutput;
    var w := IP(WordOf(b));
    InitialAgrees(b);
    RoundsAgree(KeySchedule(key), Left(w), Right(w));
    FinalAgrees(Preoutput(KeySchedule(key), Left(w), Right(w)));
  }
}
