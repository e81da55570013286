/** The cipher of FIPS 46-3: a key and a block of 64 bits each. */
module DesStandard {
  import opened DesBits
  import opened DesTables

  function Join(l: bv32, r: bv32): bv64 { (l as bv64 << 32) | r as bv64 }
  function Left(w: bv64): bv32 { (w >> 32) as bv32 }
  function Right(w: bv64): bv32 { (w & 0xffffffff) as bv32 }

  lemma Halved(l: bv32, r: bv32)
    ensures Left(Join(l, r)) == l && Right(Join(l, r)) == r
  {
  }

  lemma Joined(w: bv64)
    ensures Join(Left(w), Right(w)) == w
  {
  }

  const LAST_ROUND := 16

  /** How far both halves of the key are shifted for round n. */
  function LeftShifts(n: nat): nat {
    if n == 1 || n == 2 || n == 9 || n == 16 then 1 else 2
  }

  function Shifted(c: bv28, n: nat): bv28 {
    if n == 0 then c
    else if LeftShifts(n) == 1 then LeftShift(Shifted(c, n - 1))
    else LeftShift(LeftShift(Shifted(c, n - 1)))
  }

  function RoundKey(key: bv64, n: nat): bv64 {
    PC2(Shifted(PC1C(key), n), Shifted(PC1D(key), n))
  }

  function KeySchedule(key: bv64): (ks: seq<bv64>)
    ensures |ks| == LAST_ROUND
  {
    seq(LAST_ROUND, i requires i >= 0 => RoundKey(key, i + 1))
  }

  /** The rounds, and what is handed to the inverse of IP: the halves in the other order. */
  function Preoutput(ks: seq<bv64>, l: bv32, r: bv32): bv64 {
    if ks == [] then Join(r, l) else Preoutput(ks[1..], r, Xor(l, CipherFunction(r, ks[0])))
  }

  function Encipher(key: bv64, block: bv64): bv64 {
    InverseIP(Preoutput(KeySchedule(key), Left(IP(block)), Right(IP(block))))
  }

  /* The tables of the block */

  lemma InverseOfIP(w: bv64)
    ensures InverseIP(IP(w)) == w
  {
  }

  lemma IPColumns(b0: bv8, b1: bv8, b2: bv8, b3: bv8, b4: bv8, b5: bv8, b6: bv8, b7: bv8)
    ensures IP(Join(Pack(b0, b1, b2, b3), Pack(b4, b5, b6, b7))) == Join(
      Pack(Col(b0, b1, b2, b3, b4, b5, b6, b7, 6), Col(b0, b1, b2, b3, b4, b5, b6, b7, 4),
           Col(b0, b1, b2, b3, b4, b5, b6, b7, 2), Col(b0, b1, b2, b3, b4, b5, b6, b7, 0)),
      Pack(Col(b0, b1, b2, b3, b4, b5, b6, b7, 7), Col(b0, b1, b2, b3, b4, b5, b6, b7, 5),
           Col(b0, b1, b2, b3, b4, b5, b6, b7, 3), Col(b0, b1, b2, b3, b4, b5, b6, b7, 1)))
  {
  }
}
