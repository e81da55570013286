/** The key schedule of the code: an array of the bits that PC1 chooses, rotated for each round by all
    that has been shifted so far, picked by PC2 into two words, and laid out for the rounds. */
module DesKeys {
  import opened DesBits
  import opened DesTables
  import opened DesRound
  import opened DesStandard
  import opened DesKeyBits

  /* Tables of the code */

  /** An element of a line of sixteen. */
  function Entry(i: nat, x0: nat, x1: nat, x2: nat, x3: nat, x4: nat, x5: nat, x6: nat, x7: nat,
                 x8: nat, x9: nat, x10: nat, x11: nat, x12: nat, x13: nat, x14: nat, x15: nat): nat {
    if i == 0 then x0 else if i == 1 then x1 else if i == 2 then x2 else if i == 3 then x3
    else if i == 4 then x4 else if i == 5 then x5 else if i == 6 then x6 else if i == 7 then x7
    else if i == 8 then x8 else if i == 9 then x9 else if i == 10 then x10 else if i == 11 then x11
    else if i == 12 then x12 else if i == 13 then x13 else if i == 14 then x14 else x15
  }

  /** PC2, with places counted from 0. */
  function Picked(j: nat): (r: nat)
    requires j < 48
    ensures r < 56
  {
    if j < 16 then Entry(j, 13, 16, 10, 23, 0, 4, 2, 27, 14, 5, 20, 9, 22, 18, 11, 3)
    else if j < 32 then Entry(j - 16, 25, 7, 15, 6, 26, 19, 12, 1, 40, 51, 30, 36, 46, 54, 29, 39)
    else Entry(j - 32, 50, 44, 32, 47, 43, 48, 38, 55, 33, 52, 45, 41, 49, 35, 28, 31)
  }

  function Totrot(i: nat): (r: nat)
    ensures r <= 28
  {
    Entry(i, 1, 2, 4, 6, 8, 10, 12, 14, 15, 17, 19, 21, 23, 25, 27, 28)
  }

  /** The step from one bit of the key to the next. */
  function Adjusted(l: int): int {
    l + if l < -5 then 65 else if l < -3 then 31 else if l < -1 then 63 else if l == 27 then 35 else 0
  }

  /** The bit of the key that goes to place j: its byte, and from the right its place there. */
  function KeyPlace(j: nat): int {
    Adjusted(if j == 0 then 56 else KeyPlace(j - 1) - 8)
  }

  lemma PlaceStep(j: nat)
    requires j > 0
    ensures KeyPlace(j) == Adjusted(KeyPlace(j - 1) - 8)
  {
  }

  lemma PlacesC()
    ensures && KeyPlace(0) == 56 && KeyPlace(1) == 48 && KeyPlace(2) == 40 && KeyPlace(3) == 32
            && KeyPlace(4) == 24 && KeyPlace(5) == 16 && KeyPlace(6) == 8
            && KeyPlace(7) == 0 && KeyPlace(8) == 57 && KeyPlace(9) == 49 && KeyPlace(10) == 41
            && KeyPlace(11) == 33 && KeyPlace(12) == 25 && KeyPlace(13) == 17
            && KeyPlace(14) == 9 && KeyPlace(15) == 1 && KeyPlace(16) == 58 && KeyPlace(17) == 50
            && KeyPlace(18) == 42 && KeyPlace(19) == 34 && KeyPlace(20) == 26
            && KeyPlace(21) == 18 && KeyPlace(22) == 10 && KeyPlace(23) == 2 && KeyPlace(24) == 59
            && KeyPlace(25) == 51 && KeyPlace(26) == 43 && KeyPlace(27) == 35
  {
    assert KeyPlace(0) == 56;
    hide KeyPlace;
    PlaceStep(1); PlaceStep(2); PlaceStep(3); PlaceStep(4); PlaceStep(5);
    PlaceStep(6); PlaceStep(7); PlaceStep(8); PlaceStep(9);
    PlaceStep(10); PlaceStep(11); PlaceStep(12); PlaceStep(13); PlaceStep(14);
    PlaceStep(15); PlaceStep(16); PlaceStep(17); PlaceStep(18);
    PlaceStep(19); PlaceStep(20); PlaceStep(21); PlaceStep(22); PlaceStep(23);
    PlaceStep(24); PlaceStep(25); PlaceStep(26); PlaceStep(27);
  }

  lemma PlacesD()
    ensures && KeyPlace(28) == 62 && KeyPlace(29) == 54 && KeyPlace(30) == 46 && KeyPlace(31) == 38
            && KeyPlace(32) == 30 && KeyPlace(33) == 22 && KeyPlace(34) == 14
            && KeyPlace(35) == 6 && KeyPlace(36) == 61 && KeyPlace(37) == 53 && KeyPlace(38) == 45
            && KeyPlace(39) == 37 && KeyPlace(40) == 29 && KeyPlace(41) == 21
            && KeyPlace(42) == 13 && KeyPlace(43) == 5 && KeyPlace(44) == 60 && KeyPlace(45) == 52
            && KeyPlace(46) == 44 && KeyPlace(47) == 36 && KeyPlace(48) == 28
            && KeyPlace(49) == 20 && KeyPlace(50) == 12 && KeyPlace(51) == 4 && KeyPlace(52) == 27
            && KeyPlace(53) == 19 && KeyPlace(54) == 11 && KeyPlace(55) == 3
  {
    hide KeyPlace;
    PlacesC();
    PlaceStep(28); PlaceStep(29); PlaceStep(30); PlaceStep(31); PlaceStep(32);
    PlaceStep(33); PlaceStep(34); PlaceStep(35); PlaceStep(36); PlaceStep(37);
    PlaceStep(38); PlaceStep(39); PlaceStep(40); PlaceStep(41); PlaceStep(42);
    PlaceStep(43); PlaceStep(44); PlaceStep(45); PlaceStep(46); PlaceStep(47);
    PlaceStep(48); PlaceStep(49); PlaceStep(50); PlaceStep(51);
    PlaceStep(52); PlaceStep(53); PlaceStep(54); PlaceStep(55);
  }

  /* The key of the standard */

  /** A byte of the key: character codes beyond a byte lose their upper bits, and missing ones count as 0. */
  function KeyByte(keyBlock: seq<bv16>, i: nat): bv8 {
    if i < |keyBlock| then (keyBlock[i] & 0xff) as bv8 else 0
  }

  function StandardKey(keyBlock: seq<bv16>): bv64 {
    Mirrored(KeyByte(keyBlock, 0), KeyByte(keyBlock, 1), KeyByte(keyBlock, 2), KeyByte(keyBlock, 3),
      KeyByte(keyBlock, 4), KeyByte(keyBlock, 5), KeyByte(keyBlock, 6), KeyByte(keyBlock, 7))
  }

  /** The bit that the code takes from place l. */
  function TakenBit(keyBlock: seq<bv16>, l: int): bv32
    requires 0 <= l < 64
  {
    KeyBit(KeyByte(keyBlock, l / 8), l % 8)
  }

  lemma OneOf28(j: nat)
    requires j < 28
    ensures j == 0 || j == 1 || j == 2 || j == 3 || j == 4 || j == 5 || j == 6 || j == 7 || j == 8 || j == 9 ||
            j == 10 || j == 11 || j == 12 || j == 13 || j == 14
                || j == 15 || j == 16 || j == 17 || j == 18 || j == 19 ||
            j == 20 || j == 21 || j == 22 || j == 23 || j == 24 || j == 25 || j == 26 || j == 27
  {
  }

  lemma TakenC(keyBlock: seq<bv16>)
    ensures var x := PC1C(StandardKey(keyBlock));
            && BitOf(x, 0) == TakenBit(keyBlock, 56) && BitOf(x, 1) == TakenBit(keyBlock, 48)
            && BitOf(x, 2) == TakenBit(keyBlock, 40)
            && BitOf(x, 3) == TakenBit(keyBlock, 32) && BitOf(x, 4) == TakenBit(keyBlock, 24)
            && BitOf(x, 5) == TakenBit(keyBlock, 16)
            && BitOf(x, 6) == TakenBit(keyBlock, 8) && BitOf(x, 7) == TakenBit(keyBlock, 0)
            && BitOf(x, 8) == TakenBit(keyBlock, 57)
            && BitOf(x, 9) == TakenBit(keyBlock, 49) && BitOf(x, 10) == TakenBit(keyBlock, 41)
            && BitOf(x, 11) == TakenBit(keyBlock, 33)
            && BitOf(x, 12) == TakenBit(keyBlock, 25) && BitOf(x, 13) == TakenBit(keyBlock, 17)
            && BitOf(x, 14) == TakenBit(keyBlock, 9)
            && BitOf(x, 15) == TakenBit(keyBlock, 1) && BitOf(x, 16) == TakenBit(keyBlock, 58)
            && BitOf(x, 17) == TakenBit(keyBlock, 50)
            && BitOf(x, 18) == TakenBit(keyBlock, 42) && BitOf(x, 19) == TakenBit(keyBlock, 34)
            && BitOf(x, 20) == TakenBit(keyBlock, 26)
            && BitOf(x, 21) == TakenBit(keyBlock, 18) && BitOf(x, 22) == TakenBit(keyBlock, 10)
            && BitOf(x, 23) == TakenBit(keyBlock, 2)
            && BitOf(x, 24) == TakenBit(keyBlock, 59) && BitOf(x, 25) == TakenBit(keyBlock, 51)
            && BitOf(x, 26) == TakenBit(keyBlock, 43)
            && BitOf(x, 27) == TakenBit(keyBlock, 35)
  {
    hide KeyBit, KeyByte, BitOf, PC1C, Mirrored;
    PC1CBits(KeyByte(keyBlock, 0), KeyByte(keyBlock, 1), KeyByte(keyBlock, 2), KeyByte(keyBlock, 3),
      KeyByte(keyBlock, 4), KeyByte(keyBlock, 5), KeyByte(keyBlock, 6), KeyByte(keyBlock, 7));
  }

  lemma TakesC(keyBlock: seq<bv16>, j: nat)
    requires j < 28
    ensures 0 <= KeyPlace(j) < 64 && TakenBit(keyBlock, KeyPlace(j)) == BitOf(PC1C(StandardKey(keyBlock)), j)
  {
    hide KeyPlace, TakenBit, BitOf, PC1C, StandardKey;
    PlacesC();
    TakenC(keyBlock);
    OneOf28(j);
  }

  lemma TakenD(keyBlock: seq<bv16>)
    ensures var x := PC1D(StandardKey(keyBlock));
            && BitOf(x, 0) == TakenBit(keyBlock, 62) && BitOf(x, 1) == TakenBit(keyBlock, 54)
            && BitOf(x, 2) == TakenBit(keyBlock, 46)
            && BitOf(x, 3) == TakenBit(keyBlock, 38) && BitOf(x, 4) == TakenBit(keyBlock, 30)
            && BitOf(x, 5) == TakenBit(keyBlock, 22)
            && BitOf(x, 6) == TakenBit(keyBlock, 14) && BitOf(x, 7) == TakenBit(keyBlock, 6)
            && BitOf(x, 8) == TakenBit(keyBlock, 61)
            && BitOf(x, 9) == TakenBit(keyBlock, 53) && BitOf(x, 10) == TakenBit(keyBlock, 45)
            && BitOf(x, 11) == TakenBit(keyBlock, 37)
            && BitOf(x, 12) == TakenBit(keyBlock, 29) && BitOf(x, 13) == TakenBit(keyBlock, 21)
            && BitOf(x, 14) == TakenBit(keyBlock, 13)
            && BitOf(x, 15) == TakenBit(keyBlock, 5) && BitOf(x, 16) == TakenBit(keyBlock, 60)
            && BitOf(x, 17) == TakenBit(keyBlock, 52)
            && BitOf(x, 18) == TakenBit(keyBlock, 44) && BitOf(x, 19) == TakenBit(keyBlock, 36)
            && BitOf(x, 20) == TakenBit(keyBlock, 28)
            && BitOf(x, 21) == TakenBit(keyBlock, 20) && BitOf(x, 22) == TakenBit(keyBlock, 12)
            && BitOf(x, 23) == TakenBit(keyBlock, 4)
            && BitOf(x, 24) == TakenBit(keyBlock, 27) && BitOf(x, 25) == TakenBit(keyBlock, 19)
            && BitOf(x, 26) == TakenBit(keyBlock, 11)
            && BitOf(x, 27) == TakenBit(keyBlock, 3)
  {
    hide KeyBit, KeyByte, BitOf, PC1D, Mirrored;
    PC1DBits(KeyByte(keyBlock, 0), KeyByte(keyBlock, 1), KeyByte(keyBlock, 2), KeyByte(keyBlock, 3),
      KeyByte(keyBlock, 4), KeyByte(keyBlock, 5), KeyByte(keyBlock, 6), KeyByte(keyBlock, 7));
  }

  lemma TakesD(keyBlock: seq<bv16>, j: nat)
    requires j < 28
    ensures 0 <= KeyPlace(j + 28) < 64 && TakenBit(keyBlock, KeyPlace(j + 28)) == BitOf(PC1D(StandardKey(keyBlock)), j)
  {
    hide KeyPlace, TakenBit, BitOf, PC1D, StandardKey;
    PlacesD();
    TakenD(keyBlock);
    OneOf28(j);
  }

  /* Rotations */

  function Turned(j: nat, t: nat): (r: nat)
    ensures r < 28
  {
    (j + t) % 28
  }

  lemma TurnedTwice(j: nat, t: nat, u: nat)
    ensures Turned(Turned(j, t), u) == Turned(j, u + t)
  {
    assert j + t == 28 * ((j + t) / 28) + (j + t) % 28;
    assert j + (u + t) == 28 * ((j + t) / 28) + (Turned(j, t) + u);
  }

  lemma OneShift(c: bv28, j: nat)
    requires j < 28
    ensures BitOf(LeftShift(c), j) == BitOf(c, Turned(j, 1))
  {
    hide BitOf, LeftShift;
    ShiftedBits(c);
    OneOf28(j);
  }

  /** All that has been shifted up to round n. */
  function Total(n: nat): nat {
    if n == 0 then 0 else Total(n - 1) + LeftShifts(n)
  }

  lemma ShiftedStep(c: bv28, n: nat, j: nat)
    requires j < 28 && n > 0
    ensures BitOf(Shifted(c, n), j) == BitOf(Shifted(c, n - 1), Turned(j, LeftShifts(n)))
  {
    hide BitOf, LeftShift;
    var s := Shifted(c, n - 1);
    OneShift(s, j);
    OneShift(LeftShift(s), j);
    OneShift(s, Turned(j, 1));
  }

  lemma {:induction false} ShiftedBit(c: bv28, n: nat, j: nat)
    requires j < 28
    ensures BitOf(Shifted(c, n), j) == BitOf(c, Turned(j, Total(n)))
    decreases n
  {
    hide BitOf, Shifted, LeftShifts, Turned, Total;
    if n == 0 {
      NoShift(c, j);
    } else {
      var t := LeftShifts(n);
      ShiftedStep(c, n, j);
      ShiftedBit(c, n - 1, Turned(j, t));
      TurnedTwice(j, t, Total(n - 1));
      TotalStep(n);
    }
  }

  lemma NoShift(c: bv28, j: nat)
    requires j < 28
    ensures Shifted(c, 0) == c && Turned(j, Total(0)) == j
  {
    hide LeftShift;
  }

  lemma TotalStep(n: nat)
    requires n > 0
    ensures Total(n) == Total(n - 1) + LeftShifts(n)
  {
  }

  lemma Totals()
    ensures && Total(1) == 1 && Total(2) == 2 && Total(3) == 4 && Total(4) == 6
            && Total(5) == 8 && Total(6) == 10 && Total(7) == 12 && Total(8) == 14
            && Total(9) == 15 && Total(10) == 17 && Total(11) == 19 && Total(12) == 21
            && Total(13) == 23 && Total(14) == 25 && Total(15) == 27 && Total(16) == 28
  {
    assert Total(0) == 0;
    hide Total;
    TotalStep(1); TotalStep(2); TotalStep(3); TotalStep(4); TotalStep(5); TotalStep(6); TotalStep(7); TotalStep(8);
    TotalStep(9); TotalStep(10); TotalStep(11); TotalStep(12);
    TotalStep(13); TotalStep(14); TotalStep(15); TotalStep(16);
  }

  /** The totals of the code are the sums of the shifts of the standard. */
  lemma TotrotIs(i: nat)
    requires i < 16
    ensures Totrot(i) == Total(i + 1)
  {
    hide Total;
    Totals();
    assert i == 0 || i == 1 || i == 2 || i == 3 || i == 4 || i == 5 || i == 6 || i == 7 || i == 8 || i == 9
        || i == 10 || i == 11 || i == 12 || i == 13 || i == 14 || i == 15;
  }

  /* Picking */

  function PickedBit(bits: seq<bv32>, k: nat): bv32
    requires |bits| == 56 && k < 48
  {
    bits[Picked(k)]
  }

  /** The first n of 24 places of a word. */
  function Collected(bits: seq<bv32>, first: nat, n: nat): bv32
    requires |bits| == 56 && first + n <= 48 && n <= 24
    decreases n
  {
    if n == 0 then 0 else Or(Collected(bits, first, n - 1), Put(PickedBit(bits, first + n - 1), 24 - n))
  }

  lemma CollectStep(bits: seq<bv32>, first: nat, n: nat)
    requires |bits| == 56 && first + n <= 48 && 0 < n <= 24
    ensures Collected(bits, first, n) == Or(Collected(bits, first, n - 1), Put(PickedBit(bits, first + n - 1), 24 - n))
  {
    hide Or, Put, PickedBit;
  }

  /** An array holds the bits of both halves of the key. */
  ghost predicate Holds(bits: seq<bv32>, c: bv28, d: bv28)
    ensures Holds(bits, c, d) ==> |bits| == 56
  {
    && |bits| == 56
    && (forall j :: 0 <= j < 28 ==> bits[j] == BitOf(c, j))
    && (forall j :: 28 <= j < 56 ==> bits[j] == BitOf(d, j - 28))
  }

  lemma HeldC(bits: seq<bv32>, c: bv28, d: bv28, j: nat)
    requires Holds(bits, c, d) && j < 28
    ensures bits[j] == BitOf(c, j)
  {
    hide BitOf;
  }

  lemma HeldD(bits: seq<bv32>, c: bv28, d: bv28, j: nat)
    requires Holds(bits, c, d) && j < 28
    ensures bits[j + 28] == BitOf(d, j)
  {
    hide BitOf;
  }

  lemma CollectSix(bits: seq<bv32>, first: nat, n: nat)
    requires |bits| == 56 && first + n + 6 <= 48 && n <= 18
    ensures Collected(bits, first, n + 6) == With(Collected(bits, first, n),
              Put(PickedBit(bits, first + n), 23 - n), Put(PickedBit(bits, first + n + 1), 22 - n),
              Put(PickedBit(bits, first + n + 2), 21 - n), Put(PickedBit(bits, first + n + 3), 20 - n),
              Put(PickedBit(bits, first + n + 4), 19 - n), Put(PickedBit(bits, first + n + 5), 18 - n))
  {
    hide Collected, Put, PickedBit, Or, With;
    WithIs(Collected(bits, first, n),
      Put(PickedBit(bits, first + n), 23 - n), Put(PickedBit(bits, first + n + 1), 22 - n),
      Put(PickedBit(bits, first + n + 2), 21 - n), Put(PickedBit(bits, first + n + 3), 20 - n),
      Put(PickedBit(bits, first + n + 4), 19 - n), Put(PickedBit(bits, first + n + 5), 18 - n));
    CollectStep(bits, first, n + 1);
    CollectStep(bits, first, n + 2);
    CollectStep(bits, first, n + 3);
    CollectStep(bits, first, n + 4);
    CollectStep(bits, first, n + 5);
    CollectStep(bits, first, n + 6);
  }

  lemma Group1Collected(bits: seq<bv32>, c: bv28, d: bv28)
    requires Holds(bits, c, d)
    ensures Collected(bits, 0, 6) == With(Collected(bits, 0, 0), Put(BitOf(c, 13), 23), Put(BitOf(c, 16), 22),
              Put(BitOf(c, 10), 21), Put(BitOf(c, 23), 20), Put(BitOf(c, 0), 19), Put(BitOf(c, 4), 18))
  {
    hide Collected, Put, With, BitOf, Holds;
    CollectSix(bits, 0, 0);
    HeldC(bits, c, d, 13); HeldC(bits, c, d, 16); HeldC(bits, c, d, 10);
    HeldC(bits, c, d, 23); HeldC(bits, c, d, 0); HeldC(bits, c, d, 4);
  }

  lemma Group2Collected(bits: seq<bv32>, c: bv28, d: bv28)
    requires Holds(bits, c, d)
    ensures Collected(bits, 0, 12) == With(Collected(bits, 0, 6), Put(BitOf(c, 2), 17), Put(BitOf(c, 27), 16),
              Put(BitOf(c, 14), 15), Put(BitOf(c, 5), 14), Put(BitOf(c, 20), 13), Put(BitOf(c, 9), 12))
  {
    hide Collected, Put, With, BitOf, Holds;
    CollectSix(bits, 0, 6);
    HeldC(bits, c, d, 2); HeldC(bits, c, d, 27); HeldC(bits, c, d, 14);
    HeldC(bits, c, d, 5); HeldC(bits, c, d, 20); HeldC(bits, c, d, 9);
  }

  lemma Group3Collected(bits: seq<bv32>, c: bv28, d: bv28)
    requires Holds(bits, c, d)
    ensures Collected(bits, 0, 18) == With(Collected(bits, 0, 12), Put(BitOf(c, 22), 11), Put(BitOf(c, 18), 10),
              Put(BitOf(c, 11), 9), Put(BitOf(c, 3), 8), Put(BitOf(c, 25), 7), Put(BitOf(c, 7), 6))
  {
    hide Collected, Put, With, BitOf, Holds;
    CollectSix(bits, 0, 12);
    HeldC(bits, c, d, 22); HeldC(bits, c, d, 18); HeldC(bits, c, d, 11);
    HeldC(bits, c, d, 3); HeldC(bits, c, d, 25); HeldC(bits, c, d, 7);
  }

  lemma Group4Collected(bits: seq<bv32>, c: bv28, d: bv28)
    requires Holds(bits, c, d)
    ensures Collected(bits, 0, 24) == With(Collected(bits, 0, 18), Put(BitOf(c, 15), 5), Put(BitOf(c, 6), 4),
              Put(BitOf(c, 26), 3), Put(BitOf(c, 19), 2), Put(BitOf(c, 12), 1), Put(BitOf(c, 1), 0))
  {
    hide Collected, Put, With, BitOf, Holds;
    CollectSix(bits, 0, 18);
    HeldC(bits, c, d, 15); HeldC(bits, c, d, 6); HeldC(bits, c, d, 26);
    HeldC(bits, c, d, 19); HeldC(bits, c, d, 12); HeldC(bits, c, d, 1);
  }

  lemma Group5Collected(bits: seq<bv32>, c: bv28, d: bv28)
    requires Holds(bits, c, d)
    ensures Collected(bits, 24, 6) == With(Collected(bits, 24, 0), Put(BitOf(d, 12), 23), Put(BitOf(d, 23), 22),
              Put(BitOf(d, 2), 21), Put(BitOf(d, 8), 20), Put(BitOf(d, 18), 19), Put(BitOf(d, 26), 18))
  {
    hide Collected, Put, With, BitOf, Holds;
    CollectSix(bits, 24, 0);
    HeldD(bits, c, d, 12); HeldD(bits, c, d, 23); HeldD(bits, c, d, 2);
    HeldD(bits, c, d, 8); HeldD(bits, c, d, 18); HeldD(bits, c, d, 26);
  }

  lemma Group6Collected(bits: seq<bv32>, c: bv28, d: bv28)
    requires Holds(bits, c, d)
    ensures Collected(bits, 24, 12) == With(Collected(bits, 24, 6), Put(BitOf(d, 1), 17), Put(BitOf(d, 11), 16),
              Put(BitOf(d, 22), 15), Put(BitOf(d, 16), 14), Put(BitOf(d, 4), 13), Put(BitOf(d, 19), 12))
  {
    hide Collected, Put, With, BitOf, Holds;
    CollectSix(bits, 24, 6);
    HeldD(bits, c, d, 1); HeldD(bits, c, d, 11); HeldD(bits, c, d, 22);
    HeldD(bits, c, d, 16); HeldD(bits, c, d, 4); HeldD(bits, c, d, 19);
  }

  lemma Group7Collected(bits: seq<bv32>, c: bv28, d: bv28)
    requires Holds(bits, c, d)
    ensures Collected(bits, 24, 18) == With(Collected(bits, 24, 12), Put(BitOf(d, 15), 11), Put(BitOf(d, 20), 10),
              Put(BitOf(d, 10), 9), Put(BitOf(d, 27), 8), Put(BitOf(d, 5), 7), Put(BitOf(d, 24), 6))
  {
    hide Collected, Put, With, BitOf, Holds;
    CollectSix(bits, 24, 12);
    HeldD(bits, c, d, 15); HeldD(bits, c, d, 20); HeldD(bits, c, d, 10);
    HeldD(bits, c, d, 27); HeldD(bits, c, d, 5); HeldD(bits, c, d, 24);
  }

  lemma Group8Collected(bits: seq<bv32>, c: bv28, d: bv28)
    requires Holds(bits, c, d)
    ensures Collected(bits, 24, 24) == With(Collected(bits, 24, 18), Put(BitOf(d, 17), 5), Put(BitOf(d, 13), 4),
              Put(BitOf(d, 21), 3), Put(BitOf(d, 7), 2), Put(BitOf(d, 0), 1), Put(BitOf(d, 3), 0))
  {
    hide Collected, Put, With, BitOf, Holds;
    CollectSix(bits, 24, 18);
    HeldD(bits, c, d, 17); HeldD(bits, c, d, 13); HeldD(bits, c, d, 21);
    HeldD(bits, c, d, 7); HeldD(bits, c, d, 0); HeldD(bits, c, d, 3);
  }

  lemma Collects0(bits: seq<bv32>, c: bv28, d: bv28)
    requires Holds(bits, c, d)
    ensures Collected(bits, 0, 24) == Raw0(PC2(c, d))
  {
    assert Collected(bits, 0, 0) == 0;
    hide Collected, Put, PickedBit, With, BitOf, Raw0, PC2, Holds;
    PC2Bits0(c, d);
    Group1Collected(bits, c, d);
    Group2Collected(bits, c, d);
    Group3Collected(bits, c, d);
    Group4Collected(bits, c, d);
  }

  lemma Collects1(bits: seq<bv32>, c: bv28, d: bv28)
    requires Holds(bits, c, d)
    ensures Collected(bits, 24, 24) == Raw1(PC2(c, d))
  {
    assert Collected(bits, 24, 0) == 0;
    hide Collected, Put, PickedBit, With, BitOf, Raw1, PC2, Holds;
    PC2Bits1(c, d);
    Group5Collected(bits, c, d);
    Group6Collected(bits, c, d);
    Group7Collected(bits, c, d);
    Group8Collected(bits, c, d);
  }

  /* The loops */

  lemma BitIsBit(c: bv28, j: nat)
    requires j < 28
    ensures BitOf(c, j) == 0 || BitOf(c, j) == 1
  {
  }

  lemma NextPlace(j: nat, l: int)
    requires j < 56 && l == if j == 0 then 56 else KeyPlace(j - 1) - 8
    ensures Adjusted(l) == KeyPlace(j) && 0 <= KeyPlace(j) < 64
  {
    if j > 0 { PlaceStep(j); }
    hide *;
    if j < 28 { TakesC([], j); } else { TakesD([], j - 28); }
  }

  /** The chosen bits are those of PC1. */
  lemma ChosenHolds(keyBlock: seq<bv16>, bits: seq<bv32>)
    requires |bits| == 56
    requires forall k :: 0 <= k < 56 ==> 0 <= KeyPlace(k) < 64 && bits[k] == TakenBit(keyBlock, KeyPlace(k))
    ensures Holds(bits, PC1C(StandardKey(keyBlock)), PC1D(StandardKey(keyBlock)))
  {
    hide TakenBit, KeyPlace, PC1C, PC1D, StandardKey, BitOf;
    forall k | 0 <= k < 28 ensures bits[k] == BitOf(PC1C(StandardKey(keyBlock)), k) {
      TakesC(keyBlock, k);
    }
    forall k | 28 <= k < 56 ensures bits[k] == BitOf(PC1D(StandardKey(keyBlock)), k - 28) {
      TakesD(keyBlock, k - 28);
    }
  }

  lemma HoldsBits(bits: seq<bv32>, c: bv28, d: bv28)
    requires Holds(bits, c, d)
    ensures forall j :: 0 <= j < 56 ==> bits[j] == 0 || bits[j] == 1
  {
    hide BitOf;
    forall j | 0 <= j < 56 ensures bits[j] == 0 || bits[j] == 1 {
      if j < 28 { BitIsBit(c, j); } else { BitIsBit(d, j - 28); }
    }
  }

  /** The first loop chooses the bits as PC1 does. */
  method FirstChoice(keyBlock: seq<bv16>, pc1m: array<bv32>)
    requires pc1m.Length == 56
    modifies pc1m
    ensures Holds(pc1m[..], PC1C(StandardKey(keyBlock)), PC1D(StandardKey(keyBlock)))
  {
    hide KeyBit, KeyByte, PC1C, PC1D, StandardKey, BitOf, Holds, KeyPlace;
    var j, l := 0, 56;
    while j < 56
      invariant 0 <= j <= 56 && l == if j == 0 then 56 else KeyPlace(j - 1) - 8
      invariant forall k :: 0 <= k < j ==> 0 <= KeyPlace(k) < 64 && pc1m[k] == TakenBit(keyBlock, KeyPlace(k))
    {
      NextPlace(j, l);
      l := l + if l < -5 then 65 else if l < -3 then 31 else if l < -1 then 63 else if l == 27 then 35 else 0;
      var m := l % 8;
      pc1m[j] := KeyBit(KeyByte(keyBlock, l / 8), m);
      j, l := j + 1, l - 8;
    }
    ChosenHolds(keyBlock, pc1m[..]);
  }

  /** Where place j of both halves comes from. */
  function Origin(j: nat, t: nat): (r: nat)
    requires j < 56
    ensures r < 56
  {
    if j < 28 then Turned(j, t) else Turned(j - 28, t) + 28
  }

  /** Both halves, rotated. */
  method Rotate(pc1m: array<bv32>, t: nat, pcr: array<bv32>)
    requires pc1m.Length == pcr.Length == 56 && pc1m != pcr && t <= 28
    modifies pcr
    ensures forall j :: 0 <= j < 56 ==> pcr[j] == pc1m[Origin(j, t)]
  {
    var o := 28;
    while o < 59
      invariant o == 28 || o == 56 || o == 84
      invariant forall k :: 0 <= k < o - 28 ==> pcr[k] == pc1m[Origin(k, t)]
    {
      var j := o - 28;
      while j < o
        invariant o - 28 <= j <= o
        invariant forall k :: 0 <= k < j ==> pcr[k] == pc1m[Origin(k, t)]
      {
        var l := j + t;
        if l < o {
          pcr[j] := pc1m[l];
        } else {
          pcr[j] := pc1m[l - 28];
        }
        j := j + 1;
      }
      o := o + 28;
    }
  }

  /** Rotating by the total gives the halves of round i. */
  lemma RotatedHolds(was: seq<bv32>, bits: seq<bv32>, c: bv28, d: bv28, i: nat)
    requires Holds(was, c, d) && |bits| == 56 && i < 16
    requires forall j :: 0 <= j < 56 ==> bits[j] == was[Origin(j, Totrot(i))]
    ensures Holds(bits, Shifted(c, i + 1), Shifted(d, i + 1))
  {
    hide BitOf, Shifted, Totrot, Turned;
    TotrotIs(i);
    forall j | 0 <= j < 28 ensures bits[j] == BitOf(Shifted(c, i + 1), j) {
      ShiftedBit(c, i + 1, j);
    }
    forall j | 28 <= j < 56 ensures bits[j] == BitOf(Shifted(d, i + 1), j - 28) {
      ShiftedBit(d, i + 1, j - 28);
    }
  }

  function One(place: nat): bv32
    requires place < 24
  {
    1 << place
  }

  lemma PutOne(w: bv32, p: bv32, place: nat)
    requires place < 24 && (p == 0 || p == 1)
    ensures Or(w, Put(p, place)) == if p != 0 then Or(w, One(place)) else w
  {
  }

  /** The loop that picks bits with PC2. */
  method PickBits(pcr: array<bv32>) returns (raw0: bv32, raw1: bv32)
    requires pcr.Length == 56 && forall j :: 0 <= j < 56 ==> pcr[j] == 0 || pcr[j] == 1
    ensures raw0 == Collected(pcr[..], 0, 24) && raw1 == Collected(pcr[..], 24, 24)
  {
    hide Or, Put, One, Picked;
    raw0, raw1 := 0, 0;
    var j := 0;
    while j < 24
      invariant 0 <= j <= 24
      invariant raw0 == Collected(pcr[..], 0, j) && raw1 == Collected(pcr[..], 24, j)
    {
      PutOne(raw0, pcr[Picked(j)], 23 - j);
      PutOne(raw1, pcr[Picked(j + 24)], 23 - j);
      if pcr[Picked(j)] != 0 {
        raw0 := Or(raw0, One(23 - j));
      }
      if pcr[Picked(j + 24)] != 0 {
        raw1 := Or(raw1, One(23 - j));
      }
      j := j + 1;
    }
  }

  /** The groups of six, one a byte. */
  method Cookey(raw0: bv32, raw1: bv32) returns (k0: bv32, k1: bv32)
    ensures k0 == Cook0(raw0, raw1) && k1 == Cook1(raw0, raw1)
  {
    k0 := (raw0 & 0x00fc0000) << 6;
    k0 := k0 | ((raw0 & 0x00000fc0) << 10);
    k0 := k0 | ((raw1 & 0x00fc0000) >> 10);
    k0 := k0 | ((raw1 & 0x00000fc0) >> 6);
    k1 := (raw0 & 0x0003f000) << 12;
    k1 := k1 | ((raw0 & 0x0000003f) << 16);
    k1 := k1 | ((raw1 & 0x0003f000) >> 4);
    k1 := k1 | (raw1 & 0x0000003f);
  }
}
