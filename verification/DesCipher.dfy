/** The cipher as it runs: its constructor fills an array of round keys, and two words and an
    accumulator are reassigned step by step over it. */
module DesCipher {
  import opened DesBits
  import opened DesTables
  import opened DesRound
  import opened DesStandard
  import opened Des
  import opened DesAgrees
  import opened DesKeys

  const ROUNDS := 16

  function Pair(keys: seq<bv32>, i: nat): Key
    requires 2 * i + 1 < |keys|
  {
    Key(keys[2 * i], keys[2 * i + 1])
  }

  /** The round keys, two words each, from number i on. */
  function PairsFrom(keys: seq<bv32>, i: nat): (ks: seq<Key>)
    requires 2 * i <= |keys|
    decreases |keys| - 2 * i
  {
    if 2 * i + 1 >= |keys| then [] else [Pair(keys, i)] + PairsFrom(keys, i + 1)
  }

  lemma PairStep(sp: Tables, keys: seq<bv32>, i: nat, h: Halves)
    requires 2 * i + 1 < |keys|
    ensures Rounds(sp, PairsFrom(keys, i), h) == Rounds(sp, PairsFrom(keys, i + 1), Round(sp, Pair(keys, i), h))
  {
    hide Round, Pair;
    assert PairsFrom(keys, i)[1..] == PairsFrom(keys, i + 1);
  }

  /** Two rounds without exchanging the halves. */
  lemma TwoRounds(sp: Tables, keys: seq<bv32>, i: nat, l: bv32, r: bv32, l1: bv32, r1: bv32)
    requires 2 * i + 3 < |keys|
    requires l1 == Xor(l, F(sp, r, keys[2 * i], keys[2 * i + 1]))
        && r1 == Xor(r, F(sp, l1, keys[2 * i + 2], keys[2 * i + 3]))
    ensures Rounds(sp, PairsFrom(keys, i), Halves(l, r)) == Rounds(sp, PairsFrom(keys, i + 2), Halves(l1, r1))
  {
    hide Rounds, PairsFrom, F, Xor;
    PairStep(sp, keys, i, Halves(l, r));
    PairStep(sp, keys, i + 1, Halves(r, l1));
  }

  lemma NoPairs(sp: Tables, keys: seq<bv32>, i: nat, h: Halves)
    requires |keys| == 2 * i
    ensures Rounds(sp, PairsFrom(keys, i), h) == h
  {
  }

  /* What the loops over the keys leave at place p */

  function RawAt(key: bv64, p: nat): bv32 {
    if p % 2 == 0 then Raw0(RoundKey(key, p / 2 + 1)) else Raw1(RoundKey(key, p / 2 + 1))
  }

  function WordAt(key: bv64, p: nat): bv32 {
    if p % 2 == 0 then Key0(RoundKey(key, p / 2 + 1)) else Key1(RoundKey(key, p / 2 + 1))
  }

  lemma RawsAt(key: bv64, i: nat)
    ensures RawAt(key, 2 * i) == Raw0(RoundKey(key, i + 1)) && RawAt(key, 2 * i + 1) == Raw1(RoundKey(key, i + 1))
    ensures WordAt(key, 2 * i) == Key0(RoundKey(key, i + 1)) && WordAt(key, 2 * i + 1) == Key1(RoundKey(key, i + 1))
  {
    hide Raw0, Raw1, Key0, Key1, RoundKey;
  }

  lemma CookedIs(k: bv64)
    ensures Cook0(Raw0(k), Raw1(k)) == Key0(k) && Cook1(Raw0(k), Raw1(k)) == Key1(k)
  {
    hide Cook0, Cook1, Raw0, Raw1;
  }

  /** The round keys that follow from a password. */
  function KeysOf(keyBlock: seq<bv16>): (ks: seq<Key>)
    ensures |ks| == ROUNDS
  {
    AllKeyWords(KeySchedule(StandardKey(keyBlock)))
  }

  lemma KeyAt(keyBlock: seq<bv16>, i: nat)
    requires i < ROUNDS
    ensures KeysOf(keyBlock)[i] == Key(WordAt(StandardKey(keyBlock), 2 * i), WordAt(StandardKey(keyBlock), 2 * i + 1))
  {
    hide Key0, Key1, RoundKey, StandardKey, WordAt;
    RawsAt(StandardKey(keyBlock), i);
  }

  lemma {:induction false} ArrayHolds(keyBlock: seq<bv16>, keys: seq<bv32>, i: nat)
    requires |keys| == 2 * ROUNDS && i <= ROUNDS
    requires forall p :: 0 <= p < 2 * ROUNDS ==> keys[p] == WordAt(StandardKey(keyBlock), p)
    ensures PairsFrom(keys, i) == KeysOf(keyBlock)[i..]
    decreases ROUNDS - i
  {
    hide KeysOf, StandardKey, WordAt;
    if i < ROUNDS {
      ArrayHolds(keyBlock, keys, i + 1);
      KeyAt(keyBlock, i);
      assert KeysOf(keyBlock)[i..] == [KeysOf(keyBlock)[i]] + KeysOf(keyBlock)[i + 1..];
    }
  }

  /** Picking from the rotated halves gives the words of round i. */
  method RoundWords(pcr: array<bv32>, ghost key: bv64, i: nat) returns (raw0: bv32, raw1: bv32)
    requires Holds(pcr[..], Shifted(PC1C(key), i + 1), Shifted(PC1D(key), i + 1))
    ensures raw0 == Raw0(RoundKey(key, i + 1)) && raw1 == Raw1(RoundKey(key, i + 1))
  {
    ghost var c, d := Shifted(PC1C(key), i + 1), Shifted(PC1D(key), i + 1);
    HoldsBits(pcr[..], c, d);
    hide Holds, Collected, Raw0, Raw1, PC2, Shifted, PC1C, PC1D;
    raw0, raw1 := PickBits(pcr);
    Collects0(pcr[..], c, d);
    Collects1(pcr[..], c, d);
  }

  /** The words of round i, from the chosen bits. */
  method WordsOf(pc1m: array<bv32>, pcr: array<bv32>, ghost key: bv64, i: nat) returns (raw0: bv32, raw1: bv32)
    requires pc1m.Length == pcr.Length == 56 && pc1m != pcr && i < ROUNDS && Holds(pc1m[..], PC1C(key), PC1D(key))
    modifies pcr
    ensures raw0 == Raw0(RoundKey(key, i + 1)) && raw1 == Raw1(RoundKey(key, i + 1))
  {
    hide Holds, PC1C, PC1D, Shifted, RoundKey, Raw0, Raw1, Totrot, Origin;
    Rotate(pc1m, Totrot(i), pcr);
    RotatedHolds(pc1m[..], pcr[..], PC1C(key), PC1D(key), i);
    raw0, raw1 := RoundWords(pcr, key, i);
  }

  /** The words of all rounds. */
  method AllWords(pc1m: array<bv32>, ghost key: bv64, kn: array<bv32>)
    requires pc1m.Length == 56 && kn.Length == 2 * ROUNDS && pc1m != kn && Holds(pc1m[..], PC1C(key), PC1D(key))
    modifies kn
    ensures forall p :: 0 <= p < 2 * ROUNDS ==> kn[p] == RawAt(key, p)
  {
    hide *;
    var pcr := new bv32[56];
    var i := 0;
    while i < ROUNDS
      invariant 0 <= i <= ROUNDS && pc1m[..] == old(pc1m[..])
      invariant forall p :: 0 <= p < 2 * i ==> kn[p] == RawAt(key, p)
    {
      var m := 2 * i;
      var n := m + 1;
      var raw0, raw1 := WordsOf(pc1m, pcr, key, i);
      RawsAt(key, i);
      kn[m], kn[n] := raw0, raw1;
      i := i + 1;
    }
  }

  /** Their groups, laid out. */
  method AllGroups(kn: array<bv32>, ghost key: bv64, keys: array<bv32>)
    requires kn.Length == keys.Length == 2 * ROUNDS && kn != keys
    requires forall p :: 0 <= p < 2 * ROUNDS ==> kn[p] == RawAt(key, p)
    modifies keys
    ensures forall p :: 0 <= p < 2 * ROUNDS ==> keys[p] == WordAt(key, p)
  {
    hide *;
    var i, rawi, KnLi := 0, 0, 0;
    while i < ROUNDS
      invariant 0 <= i <= ROUNDS && rawi == KnLi == 2 * i
      invariant forall p :: 0 <= p < 2 * i ==> keys[p] == WordAt(key, p)
    {
      var raw0, raw1 := kn[rawi], kn[rawi + 1];
      rawi := rawi + 2;
      var k0, k1 := Cookey(raw0, raw1);
      RawsAt(key, i);
      CookedIs(RoundKey(key, i + 1));
      keys[KnLi], keys[KnLi + 1] := k0, k1;
      KnLi := KnLi + 2;
      i := i + 1;
    }
  }

  /** slice(i, i + 8): a byte that is missing is undefined, and shifted like 0. */
  function EightFrom(t: seq<bv8>, i: nat): (b: Block)
    ensures i + 8 <= |t| ==> b == t[i..i + 8]
  {
    seq(8, k requires k >= 0 => if i + k < |t| then t[i + k] else 0)
  }

  class Cipher {
    const sp: Tables
    const keys: array<bv32>

    ghost predicate Valid()
      reads this
    {
      keys.Length == 2 * ROUNDS
    }

    ghost function RoundKeys(): seq<Key>
      requires Valid()
      reads this, keys
    {
      PairsFrom(keys[..], 0)
    }

    /** A cipher is made from the character codes of a password. */
    constructor (keyBlock: seq<bv16>)
      ensures Valid() && fresh(keys) && sp == SpTables()
      ensures RoundKeys() == KeysOf(keyBlock)
    {
      hide SpTables, KeysOf;
      sp, keys := SpTables(), new bv32[2 * ROUNDS];
      new;
      SetKeys(keyBlock);
    }

    method SetKeys(keyBlock: seq<bv16>)
      requires Valid()
      modifies keys
      ensures RoundKeys() == KeysOf(keyBlock)
    {
      hide StandardKey, RawAt, WordAt, KeysOf, PairsFrom, Holds, PC1C, PC1D;
      var pc1m, kn := new bv32[56], new bv32[2 * ROUNDS];
      FirstChoice(keyBlock, pc1m);
      AllWords(pc1m, StandardKey(keyBlock), kn);
      AllGroups(kn, StandardKey(keyBlock), keys);
      ArrayHolds(keyBlock, keys[..], 0);
    }

    /** The network in front of the rounds. */
    method Scramble(text: Block) returns (l: bv32, r: bv32)
      ensures Halves(l, r) == Initial(Squash(text))
    {
      hide Pack, Pick4, Pick16, Pick2, Pick8, Up4, Up16, Up2, Up8, Xor, Odd, Rol;
      l := Pack(text[0], text[1], text[2], text[3]);
      r := Pack(text[4], text[5], text[6], text[7]);
      var x := Pick4(l, r);
      r, l := Xor(r, x), Xor(l, Up4(x));
      x := Pick16(l, r);
      r, l := Xor(r, x), Xor(l, Up16(x));
      x := Pick2(r, l);
      l, r := Xor(l, x), Xor(r, Up2(x));
      x := Pick8(r, l);
      l, r := Xor(l, x), Xor(r, Up8(x));
      r := Rol(r);
      x := Odd(l, r);
      l, r := Xor(l, x), Xor(r, x);
      l := Rol(l);
    }

    /** The network behind them. */
    method Unscramble(l0: bv32, r0: bv32) returns (l: bv32, r: bv32)
      ensures Halves(r, l) == Final(Halves(l0, r0))
    {
      hide Pick4, Pick16, Pick2, Pick8, Up4, Up16, Up2, Up8, Xor, Odd, Ror;
      l, r := l0, Ror(r0);
      var x := Odd(l, r);
      l, r := Xor(l, x), Xor(r, x);
      l := Ror(l);
      x := Pick8(l, r);
      r, l := Xor(r, x), Xor(l, Up8(x));
      x := Pick2(l, r);
      r, l := Xor(r, x), Xor(l, Up2(x));
      x := Pick16(r, l);
      l, r := Xor(l, x), Xor(r, Up16(x));
      x := Pick4(r, l);
      l, r := Xor(l, x), Xor(r, Up4(x));
    }

    /** The round function, as the two halves of each turn of the loop compute it. */
    method Value(r: bv32, keysi: nat) returns (fval: bv32)
      requires Valid() && keysi + 1 < 2 * ROUNDS
      ensures fval == F(sp, r, keys[keysi], keys[keysi + 1])
    {
      hide Six0, Six1, Six2, Six3, Or, Turn, Xor;
      var x := Xor(Turn(r), keys[keysi]);
      fval := sp[6][Six0(x)];
      fval := Or(fval, sp[4][Six1(x)]);
      fval := Or(fval, sp[2][Six2(x)]);
      fval := Or(fval, sp[0][Six3(x)]);
      x := Xor(r, keys[keysi + 1]);
      fval := Or(fval, sp[7][Six0(x)]);
      fval := Or(fval, sp[5][Six1(x)]);
      fval := Or(fval, sp[3][Six2(x)]);
      fval := Or(fval, sp[1][Six3(x)]);
    }

    method Encrypt8(text: Block) returns (b: Block)
      requires Valid()
      ensures b == Enc8(sp, RoundKeys(), text)
    {
      hide F, Xor, Rounds, PairsFrom, Initial, Final, Squash, Spread;
      ghost var ks := keys[..];
      var l, r := Scramble(text);
      var i, keysi := 0, 0;
      while i < ROUNDS / 2
        invariant 0 <= i <= ROUNDS / 2 && keysi == 4 * i
        invariant Rounds(sp, PairsFrom(ks, 2 * i), Halves(l, r)) == Rounds(sp, PairsFrom(ks, 0), Initial(Squash(text)))
      {
        ghost var l0, r0 := l, r;
        var fval := Value(r, keysi);
        l := Xor(l, fval);
        fval := Value(l, keysi + 2);
        r := Xor(r, fval);
        TwoRounds(sp, ks, 2 * i, l0, r0, l, r);
        keysi := keysi + 4;
        i := i + 1;
      }
      NoPairs(sp, ks, ROUNDS, Halves(l, r));
      l, r := Unscramble(l, r);
      b := Spread(Halves(r, l));
    }

    /** Sixteen bytes, eight at a time. */
    method Encrypt(t: seq<bv8>) returns (c: seq<bv8>)
      requires Valid()
      ensures c == Enc8(sp, RoundKeys(), EightFrom(t, 0)) + Enc8(sp, RoundKeys(), EightFrom(t, 8))
    {
      hide Enc8;
      var a: seq<bv8> := Encrypt8(EightFrom(t, 0));
      var b: seq<bv8> := Encrypt8(EightFrom(t, 8));
      c := a + b;
    }
  }

  function EncipheredBlock(key: bv64, b: Block): Block {
    BlockOf(Encipher(key, WordOf(b)))
  }

  /** The first sixteen bytes as FIPS 46-3 enciphers them, each half alone. */
  function Enciphered(key: bv64, t: seq<bv8>): seq<bv8> {
    EncipheredBlock(key, EightFrom(t, 0)) + EncipheredBlock(key, EightFrom(t, 8))
  }

  lemma PasswordAgrees(password: seq<bv16>, b: Block)
    ensures Enc8(SpTables(), KeysOf(password), b) == EncipheredBlock(StandardKey(password), b)
  {
    hide SpTables, Enc8, BlockOf, Encipher, WordOf, KeySchedule, AllKeyWords, StandardKey;
    Agrees(StandardKey(password), b);
  }

  /** The answer to a challenge of VNC authentication is the challenge enciphered with the key whose
      bytes are those of the password with their bits in the other order. */
  method GenDes(password: seq<bv16>, challenge: seq<bv8>) returns (response: seq<bv8>)
    ensures response == Enciphered(StandardKey(password), challenge)
  {
    hide SpTables, Enc8, EncipheredBlock, StandardKey, KeysOf, EightFrom;
    var des := new Cipher(password);
    response := des.Encrypt(challenge);
    PasswordAgrees(password, EightFrom(challenge, 0));
    PasswordAgrees(password, EightFrom(challenge, 8));
  }
}
