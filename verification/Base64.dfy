/** Base64 as section 4 of RFC 4648 defines it, and a decoder that collects six bits a character,
    skips what is not in the alphabet, and fills a result whose length it has computed before.
    Characters are character codes. */
module Base64 {
  import opened Numbers

  const PAD := 61

  /** toBase64Table, by ranges: upper case, lower case, digits, plus, slash and the pad. */
  function ToBase64(i: nat): (c: nat)
    requires i <= 64
    ensures 43 <= c < 128 && (c == PAD <==> i == 64)
  {
    if i < 26 then 65 + i else if i < 52 then 71 + i else if i < 62 then i - 4
    else if i == 62 then 43 else if i == 63 then 47 else PAD
  }

  /** toBinaryTable, by ranges; the pad counts as 0. */
  function ToBinary(c: nat): (v: int)
    requires c < 128
    ensures -1 <= v < 64
  {
    if 65 <= c <= 90 then c - 65 else if 97 <= c <= 122 then c - 71 else if 48 <= c <= 57 then c + 4
    else if c == 43 then 62 else if c == 47 then 63 else if c == PAD then 0 else -1
  }

  /** Table 1 of RFC 4648, and what reads it back: no other character has a value. */
  lemma Table1(i: nat, c: nat)
    requires i <= 64 && c < 128
    ensures i < 26 ==> ToBase64(i) == 'A' as int + i
    ensures 26 <= i < 52 ==> ToBase64(i) == 'a' as int + (i - 26)
    ensures 52 <= i < 62 ==> ToBase64(i) == '0' as int + (i - 52)
    ensures i == 62 ==> ToBase64(i) == '+' as int
    ensures i == 63 ==> ToBase64(i) == '/' as int
    ensures i == 64 ==> ToBase64(i) == PAD == '=' as int
    ensures c != PAD ==> (i < 64 && ToBase64(i) == c <==> ToBinary(c) == i)
    ensures ToBinary(c) == -1 <==> c != PAD && forall k: nat :: k < 64 ==> ToBase64(k) != c
  {
    if c != PAD && ToBinary(c) >= 0 { assert ToBase64(ToBinary(c)) == c; }
  }

  lemma Alphabet(i: nat)
    requires i < 64
    ensures ToBinary(ToBase64(i)) == i && ToBase64(i) != PAD && ToBinary(PAD) == 0
  {
  }

  /* Encoding */

  function Encode(d: seq<byte>): (r: seq<nat>)
    ensures |r| == (|d| + 2) / 3 * 4
    ensures forall i :: 0 <= i < |r| ==> r[i] < 128
  {
    if d == [] then []
    else if |d| == 1 then [ToBase64(d[0] / 4), ToBase64(d[0] % 4 * 16), PAD, PAD]
    else if |d| == 2 then [ToBase64(d[0] / 4), ToBase64(d[0] % 4 * 16 + d[1] / 16), ToBase64(d[1] % 16 * 4), PAD]
    else [ToBase64(d[0] / 4), ToBase64(d[0] % 4 * 16 + d[1] / 16),
        ToBase64(d[1] % 16 * 4 + d[2] / 64), ToBase64(d[2] % 64)]
         + Encode(d[3..])
  }

  /** The number that a byte string writes in base 256, and digits in base 64. */
  function Number(d: seq<byte>): nat {
    if d == [] then 0 else 256 * Number(d[..|d| - 1]) + d[|d| - 1]
  }

  function Digits(s: seq<nat>): nat
    requires forall i :: 0 <= i < |s| ==> s[i] < 128
  {
    if s == [] then 0 else 64 * Digits(s[..|s| - 1]) + if ToBinary(s[|s| - 1]) < 0 then 0 else ToBinary(s[|s| - 1])
  }

  /** Each quantum of 24 bits is written as four digits in base 64. */
  lemma Quantum(a: byte, b: byte, c: byte)
    ensures Digits(Encode([a, b, c])) == Number([a, b, c])
    ensures Digits(Encode([a, b])) == Number([a, b, 0])
    ensures Digits(Encode([a])) == Number([a, 0, 0])
  {
    hide Digits, Number, ToBinary;
    Three(a, b, c);
    Three(a, b, 0);
    Three(a, 0, 0);
    OneQuantum(a, b, c);
    Read4(a / 4, a % 4 * 16 + b / 16, b % 16 * 4 + c / 64, c % 64);
    Read4(a / 4, a % 4 * 16 + b / 16, b % 16 * 4, 64);
    Read4(a / 4, a % 4 * 16, 64, 64);
    Four(Encode([a, b, c]));
    Four(Encode([a, b]));
    Four(Encode([a]));
  }

  lemma Read4(i: nat, j: nat, k: nat, l: nat)
    requires i < 64 && j < 64 && k <= 64 && l <= 64
    ensures ToBinary(ToBase64(i)) == i && ToBinary(ToBase64(j)) == j
    ensures ToBinary(ToBase64(k)) == (if k == 64 then 0 else k) && ToBinary(ToBase64(l)) == (if l == 64 then 0 else l)
  {
  }

  lemma OneQuantum(a: byte, b: byte, c: byte)
    ensures Encode([a, b, c])
        == [ToBase64(a / 4), ToBase64(a % 4 * 16 + b / 16), ToBase64(b % 16 * 4 + c / 64), ToBase64(c % 64)]
    ensures Encode([a, b]) == [ToBase64(a / 4), ToBase64(a % 4 * 16 + b / 16), ToBase64(b % 16 * 4), PAD]
    ensures Encode([a]) == [ToBase64(a / 4), ToBase64(a % 4 * 16), PAD, PAD]
    ensures ToBase64(64) == PAD
  {
    assert [a, b, c][3..] == [];
  }

  lemma Four(s: seq<nat>)
    requires |s| == 4 && forall i :: 0 <= i < 4 ==> s[i] < 128 && ToBinary(s[i]) >= 0
    ensures Digits(s) == 64 * (64 * (64 * ToBinary(s[0]) + ToBinary(s[1])) + ToBinary(s[2])) + ToBinary(s[3])
  {
    hide ToBinary;
    assert s[..3][..2] == s[..2] && s[..2][..1] == s[..1] && s[..1][..0] == [];
    assert Digits(s[..1]) == ToBinary(s[0]);
    assert Digits(s[..2]) == 64 * Digits(s[..1]) + ToBinary(s[1]);
    assert Digits(s[..3]) == 64 * Digits(s[..2]) + ToBinary(s[2]);
  }

  lemma Three(a: byte, b: byte, c: byte)
    ensures Number([a, b, c]) == 65536 * a + 256 * b + c
  {
    var d := [a, b, c];
    assert d[..2] == [a, b] && [a, b][..1] == [a] && [a][..0] == [];
    assert Number([a]) == a && Number([a, b]) == 256 * Number([a]) + b;
  }

  /* Decoding */

  /** Bytes appended so far, and bits that are not a byte yet. */
  datatype State = State(out: seq<byte>, data: nat, bits: nat)

  predicate Ok(s: State) {
    s.bits in {0, 2, 4, 6} && s.data < Pow2(s.bits)
  }

  /** Below 64 bits are 6 at a time: a byte is appended as soon as there are 8, unless the
      character is a pad. */
  function Collect(s: State, c: nat): State {
    var v := ToBinary(c % 128);
    if v == -1 then s
    else
      var data, bits := s.data * 64 + v, s.bits + 6;
      if bits >= 8 then
        State(if c == PAD then s.out else s.out + [data / Pow2(bits - 8) % 256], data % Pow2(bits - 8), bits - 8)
      else State(s.out, data, bits)
  }

  function CollectAll(s: State, data: seq<nat>): State
    decreases |data|
  {
    if data == [] then s else CollectAll(Collect(s, data[0]), data[1..])
  }

  lemma Powers()
    ensures Pow2(0) == 1 && Pow2(2) == 4 && Pow2(4) == 16 && Pow2(6) == 64 && Pow2(8) == 256
  {
  }

  lemma CollectKeeps(s: State, c: nat)
    requires Ok(s)
    ensures Ok(Collect(s, c))
    ensures Collect(s, c).bits == if ToBinary(c % 128) == -1 then s.bits else (s.bits + 6) % 8
  {
    Powers();
  }

  /** How many characters count. */
  function Legal(data: seq<nat>): nat {
    if data == [] then 0 else (if ToBinary(data[0] % 128) == -1 then 0 else 1) + Legal(data[1..])
  }

  lemma LegalStep(data: seq<nat>)
    requires data != []
    ensures Legal(data) == (if ToBinary(data[0] % 128) == -1 then 0 else 1) + Legal(data[1..])
  {
  }

  lemma SixMore(bits: nat, n: nat)
    ensures ((bits + 6) % 8 + 6 * n) % 8 == (bits + 6 * (n + 1)) % 8
  {
    Wraps((bits + 6) % 8 + 6 * n, (bits + 6) / 8);
  }

  lemma Wraps(x: nat, k: nat)
    ensures (x + 8 * k) % 8 == x % 8
    decreases k
  {
    if k > 0 { Wraps(x, k - 1); }
  }

  /** Six bits at a time fill whole bytes exactly after every fourth. */
  lemma WholeBytes(n: nat)
    ensures 6 * n % 8 == 0 <==> n % 4 == 0
  {
    var r := n % 4;
    Wraps(6 * r, 3 * (n / 4));
    assert 6 * n == 6 * r + 8 * (3 * (n / 4));
  }

  lemma {:induction false} BitsLeft(s: State, data: seq<nat>)
    requires Ok(s)
    ensures Ok(CollectAll(s, data)) && CollectAll(s, data).bits == (s.bits + 6 * Legal(data)) % 8
    decreases |data|
  {
    hide ToBinary, Pow2, Collect;
    if data != [] {
      CollectKeeps(s, data[0]);
      hide Ok, Legal;
      LegalStep(data);
      SixMore(s.bits, Legal(data[1..]));
      BitsLeft(Collect(s, data[0]), data[1..]);
    }
  }

  datatype Result = Decoded(bytes: seq<Cell>) | Corrupted

  function IndexOf(data: seq<nat>, c: nat): (i: int)
    ensures -1 <= i < |data|
    ensures i >= 0 ==> data[i] == c && forall j :: 0 <= j < i ==> data[j] != c
    ensures i < 0 ==> forall j :: 0 <= j < |data| ==> data[j] != c
  {
    if data == [] then -1 else if data[0] == c then 0
    else var i := IndexOf(data[1..], c); if i < 0 then -1 else i + 1
  }

  /** The length of the result: three bytes for four characters, and for the rest two thirds of
      it, rounded down. */
  function ResultLength(data: seq<nat>, offset: nat): nat
    requires offset <= |data|
  {
    var found := IndexOf(data, PAD) - offset;
    var n := if found < 0 then |data| - offset else found;
    n / 4 * 3 + n % 4 * 2 / 3
  }

  /** new Array(n) with the bytes assigned from its start: what was not assigned is undefined. */
  function Filled(n: nat, bytes: seq<byte>): (r: seq<Cell>)
    ensures |r| == if |bytes| > n then |bytes| else n
    ensures forall i :: 0 <= i < |r| ==> r[i] == if i < |bytes| then bytes[i] else UNDEFINED
  {
    seq(if |bytes| > n then |bytes| else n, i requires i >= 0 => if i < |bytes| then bytes[i] else UNDEFINED)
  }

  function Decode(data: seq<nat>, offset: nat): Result
    requires offset <= |data|
  {
    var s := CollectAll(State([], 0, 0), data[offset..]);
    if s.bits != 0 then Corrupted
    else Decoded(Filled(ResultLength(data, offset), s.out))
  }

  /** Decoding fails exactly if the number of characters that count is no multiple of four. */
  lemma FailsExactly(data: seq<nat>, offset: nat)
    requires offset <= |data|
    ensures Decode(data, offset) == Corrupted <==> Legal(data[offset..]) % 4 != 0
  {
    Powers();
    BitsLeft(State([], 0, 0), data[offset..]);
    WholeBytes(Legal(data[offset..]));
    hide CollectAll, Legal, Pow2, ResultLength;
  }

  /* The round trip */

  function Start(out: seq<byte>): State {
    State(out, 0, 0)
  }

  lemma CollectStep(s: State, c: nat, rest: seq<nat>)
    ensures CollectAll(s, [c] + rest) == CollectAll(Collect(s, c), rest)
  {
    hide Collect;
    assert ([c] + rest)[1..] == rest;
  }

  lemma CollectDigit(s: State, i: nat)
    requires Ok(s) && i < 64
    ensures s.bits == 0 ==> Collect(s, ToBase64(i)) == State(s.out, i, 6)
    ensures s.bits == 6 ==>
        Collect(s, ToBase64(i)) == State(s.out + [(s.data * 64 + i) / 16 % 256], (s.data * 64 + i) % 16, 4)
    ensures s.bits == 4 ==>
        Collect(s, ToBase64(i)) == State(s.out + [(s.data * 64 + i) / 4 % 256], (s.data * 64 + i) % 4, 2)
    ensures s.bits == 2 ==> Collect(s, ToBase64(i)) == State(s.out + [(s.data * 64 + i) % 256], 0, 0)
  {
    Powers();
    Alphabet(i);
    hide ToBinary, Pow2;
  }

  lemma CollectPad(s: State)
    requires Ok(s)
    ensures s.bits == 4 ==> Collect(s, PAD) == State(s.out, s.data * 64 % 4, 2)
    ensures s.bits == 2 ==> Collect(s, PAD) == State(s.out, 0, 0)
  {
    Powers();
    Alphabet(0);
    hide ToBinary, Pow2;
  }

  lemma OkAt(s: State, n: nat)
    requires s.bits == n && (n == 0 || n == 2 || n == 4 || n == 6)
    requires (n == 0 ==> s.data == 0) && (n == 2 ==> s.data < 4) && (n == 4 ==> s.data < 16) && (n == 6 ==> s.data < 64)
    ensures Ok(s)
  {
    Powers();
  }

  /** Four characters that stand for three bytes. */
  lemma ThreeBytes(out: seq<byte>, a: byte, b: byte, c: byte, rest: seq<nat>)
    ensures CollectAll(Start(out),
        [ToBase64(a / 4), ToBase64(a % 4 * 16 + b / 16), ToBase64(b % 16 * 4 + c / 64), ToBase64(c % 64)] + rest)
         == CollectAll(Start(out + [a, b, c]), rest)
  {
    hide Collect, CollectAll, Ok;
    var i, j, k, l := a / 4, a % 4 * 16 + b / 16, b % 16 * 4 + c / 64, c % 64;
    var s1 := FirstTwo(out, a, b / 16, [ToBase64(k), ToBase64(l)] + rest);
    assert [ToBase64(i), ToBase64(j), ToBase64(k), ToBase64(l)] + rest
        == [ToBase64(i)] + ([ToBase64(j)] + ([ToBase64(k), ToBase64(l)] + rest));
    assert [ToBase64(k), ToBase64(l)] + rest == [ToBase64(k)] + ([ToBase64(l)] + rest);
    CollectStep(s1, ToBase64(k), [ToBase64(l)] + rest);
    OkAt(s1, 4);
    CollectDigit(s1, k);
    LowerBits(b, c);
    var s2 := State(out + [a] + [b], c / 64, 2);
    CollectStep(s2, ToBase64(l), rest);
    OkAt(s2, 2);
    CollectDigit(s2, l);
    assert out + [a] + [b] + [c] == out + [a, b, c];
  }

  lemma LowerBits(b: byte, c: byte)
    ensures (b / 16 * 64 + (b % 16 * 4 + c / 64)) / 4 % 256 == b && (b / 16 * 64 + (b % 16 * 4 + c / 64)) % 4 == c / 64
    ensures (c / 64 * 64 + c % 64) % 256 == c
  {
    assert b / 16 * 64 + (b % 16 * 4 + c / 64) == 4 * b + c / 64;
  }

  /** Its first two characters, of which the second has h as its lower four bits. */
  lemma FirstTwo(out: seq<byte>, a: byte, h: nat, rest: seq<nat>) returns (s: State)
    requires h < 16
    ensures s == State(out + [a], h, 4)
    ensures CollectAll(Start(out), [ToBase64(a / 4)] + ([ToBase64(a % 4 * 16 + h)] + rest)) == CollectAll(s, rest)
  {
    hide Collect, CollectAll, Ok;
    var i, j := a / 4, a % 4 * 16 + h;
    OkAt(Start(out), 0);
    CollectStep(Start(out), ToBase64(i), [ToBase64(j)] + rest);
    CollectDigit(Start(out), i);
    var s0 := State(out, i, 6);
    OkAt(s0, 6);
    CollectStep(s0, ToBase64(j), rest);
    CollectDigit(s0, j);
    s := State(out + [a], h, 4);
    UpperBits(a, h);
  }

  lemma UpperBits(a: byte, h: nat)
    requires h < 16
    ensures (a / 4 * 64 + (a % 4 * 16 + h)) / 16 % 256 == a && (a / 4 * 64 + (a % 4 * 16 + h)) % 16 == h
  {
    assert a / 4 * 64 + (a % 4 * 16 + h) == 16 * a + h;
  }

  lemma TwoBytes(out: seq<byte>, a: byte, b: byte)
    ensures CollectAll(Start(out), [ToBase64(a / 4), ToBase64(a % 4 * 16 + b / 16), ToBase64(b % 16 * 4), PAD])
        == Start(out + [a, b])
  {
    hide Collect, CollectAll, Ok;
    var k := b % 16 * 4;
    var s1 := FirstTwo(out, a, b / 16, [ToBase64(k), PAD]);
    assert [ToBase64(a / 4), ToBase64(a % 4 * 16 + b / 16), ToBase64(k), PAD]
        == [ToBase64(a / 4)] + ([ToBase64(a % 4 * 16 + b / 16)] + [ToBase64(k), PAD]);
    assert [ToBase64(k), PAD] == [ToBase64(k)] + ([PAD] + []);
    CollectStep(s1, ToBase64(k), [PAD] + []);
    OkAt(s1, 4);
    CollectDigit(s1, k);
    var s2 := State(out + [a] + [b], 0, 2);
    CollectStep(s2, PAD, []);
    OkAt(s2, 2);
    CollectPad(s2);
    CollectEnd(Start(out + [a, b]));
    assert out + [a] + [b] == out + [a, b];
  }

  lemma OneByte(out: seq<byte>, a: byte)
    ensures CollectAll(Start(out), [ToBase64(a / 4), ToBase64(a % 4 * 16), PAD, PAD]) == Start(out + [a])
  {
    hide Collect, CollectAll, Ok;
    var s1 := FirstTwo(out, a, 0, [PAD, PAD]);
    assert [ToBase64(a / 4), ToBase64(a % 4 * 16), PAD, PAD]
        == [ToBase64(a / 4)] + ([ToBase64(a % 4 * 16)] + [PAD, PAD]);
    assert [PAD, PAD] == [PAD] + ([PAD] + []);
    CollectStep(s1, PAD, [PAD] + []);
    OkAt(s1, 4);
    CollectPad(s1);
    var s2 := State(out + [a], 0, 2);
    CollectStep(s2, PAD, []);
    OkAt(s2, 2);
    CollectPad(s2);
    CollectEnd(Start(out + [a]));
  }

  lemma CollectEnd(s: State)
    ensures CollectAll(s, []) == s
  {
  }

  lemma EncodeThree(d: seq<byte>)
    requires |d| >= 3
    ensures Encode(d) == [ToBase64(d[0] / 4), ToBase64(d[0] % 4 * 16 + d[1] / 16),
        ToBase64(d[1] % 16 * 4 + d[2] / 64), ToBase64(d[2] % 64)]
                         + Encode(d[3..])
  {
    hide ToBase64;
  }

  lemma EncodeFew(d: seq<byte>)
    requires |d| < 3
    ensures d == [] ==> Encode(d) == []
    ensures |d| == 1 ==> Encode(d) == [ToBase64(d[0] / 4), ToBase64(d[0] % 4 * 16), PAD, PAD]
    ensures |d| == 2 ==>
        Encode(d) == [ToBase64(d[0] / 4), ToBase64(d[0] % 4 * 16 + d[1] / 16), ToBase64(d[1] % 16 * 4), PAD]
  {
    hide ToBase64;
  }

  /** Decoding an encoding appends its bytes and leaves no bits over. */
  lemma {:induction false} Collects(out: seq<byte>, d: seq<byte>)
    ensures CollectAll(Start(out), Encode(d)) == Start(out + d)
    decreases |d|
  {
    hide CollectAll, Encode, ToBase64, Start;
    if |d| < 3 {
      EncodeFew(d);
      if d == [] {
        CollectEnd(Start(out));
        assert out + d == out;
      } else if |d| == 1 {
        OneByte(out, d[0]);
        assert d == [d[0]];
      } else {
        TwoBytes(out, d[0], d[1]);
        assert d == [d[0], d[1]];
      }
    } else {
      EncodeThree(d);
      ThreeBytes(out, d[0], d[1], d[2], Encode(d[3..]));
      Collects(out + [d[0], d[1], d[2]], d[3..]);
      assert out + [d[0], d[1], d[2]] + d[3..] == out + d;
    }
  }

  lemma IndexOfStep(data: seq<nat>, c: nat)
    ensures data == [] ==> IndexOf(data, c) == -1
    ensures data != [] && data[0] == c ==> IndexOf(data, c) == 0
    ensures data != [] && data[0] != c
        ==> IndexOf(data, c) == if IndexOf(data[1..], c) < 0 then -1 else IndexOf(data[1..], c) + 1
  {
  }

  lemma IndexIn4(a: nat, b: nat, c: nat, d: nat, rest: seq<nat>)
    requires a != PAD && b != PAD
    ensures var s := [a, b, c, d] + rest;
      IndexOf(s, PAD) == if c == PAD then 2 else if d == PAD then 3
          else if IndexOf(rest, PAD) < 0 then -1 else IndexOf(rest, PAD) + 4
  {
    hide IndexOf;
    var s := [a, b, c, d] + rest;
    assert s[1..] == [b, c, d] + rest && s[1..][1..] == [c, d] + rest
        && s[1..][1..][1..] == [d] + rest && s[1..][1..][1..][1..] == rest;
    IndexOfStep(s, PAD);
    IndexOfStep(s[1..], PAD);
    IndexOfStep(s[1..][1..], PAD);
    IndexOfStep(s[1..][1..][1..], PAD);
  }

  /** The first pad of an encoding stands behind the characters of its last bytes. */
  lemma {:induction false} FirstPad(d: seq<byte>)
    ensures IndexOf(Encode(d), PAD) == if |d| % 3 == 0 then -1 else |d| / 3 * 4 + |d| % 3 + 1
    decreases |d|
  {
    hide IndexOf, Encode, ToBase64;
    if |d| < 3 {
      EncodeFew(d);
      var e := Encode(d);
      if d == [] {
        IndexOfStep([], PAD);
      } else {
        assert e + [] == e;
        IndexIn4(e[0], e[1], e[2], e[3], []);
      }
    } else {
      EncodeThree(d);
      FirstPad(d[3..]);
      IndexIn4(ToBase64(d[0] / 4), ToBase64(d[0] % 4 * 16 + d[1] / 16),
          ToBase64(d[1] % 16 * 4 + d[2] / 64), ToBase64(d[2] % 64), Encode(d[3..]));
    }
  }

  /** The length computed in advance is that of the bytes. */
  lemma ExactLength(d: seq<byte>)
    ensures ResultLength(Encode(d), 0) == |d|
  {
    hide *;
    var q, r := |d| / 3, |d| % 3;
    FirstPad(d);
    Thirds(q, r);
    ByThrees(|d|);
    LengthIs(Encode(d));
  }

  lemma ByThrees(n: nat)
    ensures n == 3 * (n / 3) + n % 3 && (n % 3 == 0 ==> (n + 2) / 3 * 4 == n / 3 * 4)
  {
  }

  lemma LengthIs(e: seq<nat>)
    ensures var i := IndexOf(e, PAD);
            ResultLength(e, 0) == if i < 0 then |e| / 4 * 3 + |e| % 4 * 2 / 3 else i / 4 * 3 + i % 4 * 2 / 3
  {
    hide IndexOf;
  }

  lemma Thirds(q: nat, r: nat)
    requires r < 3
    ensures (q * 4) / 4 * 3 + (q * 4) % 4 * 2 / 3 == 3 * q
    ensures r > 0 ==> (q * 4 + r + 1) / 4 * 3 + (q * 4 + r + 1) % 4 * 2 / 3 == 3 * q + r
  {
    assert (q * 4) / 4 == q && (q * 4) % 4 == 0;
    if r > 0 { assert (q * 4 + r + 1) / 4 == q && (q * 4 + r + 1) % 4 == r + 1; }
  }

  /** Every byte string comes back, with no hole, nothing behind it, and no bits left over. */
  lemma RoundTrip(d: seq<byte>)
    ensures Decode(Encode(d), 0) == Decoded(d)
  {
    hide *;
    Collects([], d);
    assert [] + d == d;
    DecodeWhole(Encode(d), Start(d));
    StartIs(d);
    ExactLength(d);
    FilledExactly(|d|, d);
  }

  /* Characters outside the alphabet */

  function Clean(data: seq<nat>): seq<nat> {
    if data == [] then [] else (if ToBinary(data[0] % 128) == -1 then [] else [data[0]]) + Clean(data[1..])
  }

  lemma {:induction false} CollectsClean(s: State, data: seq<nat>)
    ensures CollectAll(s, data) == CollectAll(s, Clean(data))
    decreases |data|
  {
    if data != [] {
      hide ToBinary, Pow2, Collect;
      CollectsClean(Collect(s, data[0]), data[1..]);
      if ToBinary(data[0] % 128) == -1 {
        CollectSkips(s, data[0]);
        assert [] + Clean(data[1..]) == Clean(data[1..]);
      } else {
        CollectStep(s, data[0], Clean(data[1..]));
      }
    }
  }

  /** Characters in front of the first pad that do not count. */
  function Strays(data: seq<nat>): nat {
    if data == [] || data[0] == PAD then 0
    else (if ToBinary(data[0] % 128) == -1 then 1 else 0) + Strays(data[1..])
  }

  lemma {:induction false} PadMoves(data: seq<nat>)
    ensures var i, e := IndexOf(Clean(data), PAD), Clean(data);
            && (i < 0 ==> IndexOf(data, PAD) < 0 && |data| == |e| + Strays(data))
            && (i >= 0 ==> IndexOf(data, PAD) == i + Strays(data))
    decreases |data|
  {
    IndexOfStep(data, PAD);
    Alphabet(0);
    if data != [] {
      PadMoves(data[1..]);
      hide IndexOf, ToBinary;
      var c, e := data[0], Clean(data[1..]);
      if ToBinary(c % 128) == -1 {
        assert [] + e == e;
      } else {
        assert Clean(data) == [c] + e && ([c] + e)[1..] == e;
        IndexOfStep(Clean(data), PAD);
      }
    }
  }

  /** The length that n characters in front of the first pad are taken for. */
  function LengthFor(n: nat): nat {
    n / 4 * 3 + n % 4 * 2 / 3
  }

  lemma LongerBy(q: nat, r: nat, k: nat)
    requires r < 3
    ensures var n := 4 * q + (if r > 0 then r + 1 else 0);
            LengthFor(n + k) <= 3 * q + r <==> k == 0 || (k == 1 && r == 0)
  {
    var n := 4 * q + (if r > 0 then r + 1 else 0) + k;
    assert n == 4 * (n / 4) + n % 4;
  }

  /** Such characters are skipped, but the length was computed with them: the bytes come back
      alone exactly if there is none in front of the first pad, or only one and no pad is needed. */
  lemma SkippedExactly(data: seq<nat>, d: seq<byte>)
    requires Clean(data) == Encode(d)
    ensures Decode(data, 0) == Decoded(Filled(ResultLength(data, 0), d))
    ensures Decode(data, 0) == Decoded(d) <==> Strays(data) == 0 || (Strays(data) == 1 && |d| % 3 == 0)
  {
    hide *;
    CollectsClean(Start([]), data);
    Collects([], d);
    assert [] + d == d;
    DecodeWhole(data, Start(d));
    StartIs(d);
    FilledExactly(ResultLength(data, 0), d);
    PadMoves(data);
    FirstPad(d);
    LengthIs(data);
    CharactersOf(|Encode(d)|, |d|, Strays(data));
  }

  lemma CharactersOf(length: nat, n: nat, k: nat)
    requires length == (n + 2) / 3 * 4
    ensures var m := k + if n % 3 == 0 then length else n / 3 * 4 + n % 3 + 1;
            m / 4 * 3 + m % 4 * 2 / 3 <= n <==> k == 0 || (k == 1 && n % 3 == 0)
  {
    var q, r := n / 3, n % 3;
    ByThrees(n);
    LongerBy(q, r, k);
  }

  lemma StartIs(out: seq<byte>)
    ensures Start(out).bits == 0 && Start(out).out == out
  {
  }

  lemma DecodeWhole(data: seq<nat>, s: State)
    requires CollectAll(Start([]), data) == s
    ensures Decode(data, 0) == if s.bits != 0 then Corrupted else Decoded(Filled(ResultLength(data, 0), s.out))
  {
    hide CollectAll, ResultLength;
    assert data[0..] == data;
  }

  lemma FilledExactly(n: nat, d: seq<byte>)
    ensures Filled(n, d) == d <==> n <= |d|
  {
    if n <= |d| { assert Filled(n, d) == d; }
  }

  /** A line break behind a full line of four characters is enough to leave a hole once there
      are two of them. */
  lemma LineBreaksLeaveHoles()
    ensures Decode(Encode([0, 0, 0]) + [13, 10], 0) == Decoded([0, 0, 0, UNDEFINED])
  {
    var e := Encode([0, 0, 0]);
    EncodeThree([0, 0, 0]);
    EncodeFew([]);
    var data := e + [13, 10];
    assert e == [65, 65, 65, 65];
    CleanBreaks(e);
    SkippedExactly(data, [0, 0, 0]);
    NoPad(data);
    assert ResultLength(data, 0) == 4 by { LengthIs(data); }
    hide *;
    assert Filled(4, [0, 0, 0]) == [0, 0, 0, UNDEFINED] by { FourCells(); }
  }

  lemma FourCells()
    ensures Filled(4, [0, 0, 0]) == [0, 0, 0, UNDEFINED]
  {
  }

  lemma CleanBreaks(e: seq<nat>)
    requires e == [65, 65, 65, 65]
    ensures Clean(e + [13, 10]) == e
  {
    var s := e + [13, 10];
    assert s[1..][1..][1..][1..] == [13, 10] && s[1..][1..][1..] == [65, 13, 10] && s[1..][1..] == [65, 65, 13, 10];
    assert Clean([10]) == [];
    assert [13, 10][1..] == [10];
    assert Clean([13, 10]) == [];
    assert Clean(s[1..][1..][1..]) == [65];
    assert Clean(s[1..][1..]) == [65, 65];
    assert Clean(s[1..]) == [65, 65, 65];
  }

  lemma NoPad(data: seq<nat>)
    requires forall i :: 0 <= i < |data| ==> data[i] != PAD
    ensures IndexOf(data, PAD) == -1
  {
  }

  /* The loops */

  lemma Masks(x: nat)
    ensures And(x, 0x03) == x % 4 && And(x, 0x0f) == x % 16
        && And(x, 0x3f) == x % 64 && And(x, 0x7f) == x % 128 && And(x, 0xff) == x % 256
  {
    Powers();
    assert Pow2(7) == 2 * Pow2(6);
    AndMask(x, 2);
    AndMask(x, 4);
    AndMask(x, 6);
    AndMask(x, 7);
    AndMask(x, 8);
  }

  method EncodeLoop(data: seq<byte>) returns (result: seq<nat>)
    ensures result == Encode(data)
  {
    hide *;
    result := [];
    var length := |data|;
    var lengthpad := length % 3;
    var i := 0;
    assert data[0..] == data;
    while i < length - 2
      invariant 0 <= i <= length && (length - i) % 3 == lengthpad && result + Encode(data[i..]) == Encode(data)
    {
      var q := FourCharacters(data[i], data[i + 1], data[i + 2]);
      NextThree(data, i, q);
      Grouped(result, q, Encode(data[i + 3..]));
      result := result + q;
      i := i + 3;
    }
    var tail := EncodeTail(data[i..]);
    result := result + tail;
  }

  /** The remaining one or two bytes, padded to four characters. */
  method EncodeTail(data: seq<byte>) returns (q: seq<nat>)
    requires |data| < 3
    ensures q == Encode(data)
  {
    hide Encode, And;
    EncodeFew(data);
    if |data| == 2 {
      Masks(data[0]);
      Masks(data[1]);
      q := [ToBase64(data[0] / 4), ToBase64(And(data[0], 0x03) * 16 + data[1] / 16),
          ToBase64(And(data[1], 0x0f) * 4), PAD];
    } else if |data| == 1 {
      Masks(data[0]);
      q := [ToBase64(data[0] / 4), ToBase64(And(data[0], 0x03) * 16), PAD, PAD];
    } else {
      q := [];
    }
  }

  lemma NextThree(data: seq<byte>, i: nat, q: seq<nat>)
    requires i + 2 < |data|
    requires q == [ToBase64(data[i] / 4), ToBase64(data[i] % 4 * 16 + data[i + 1] / 16),
        ToBase64(data[i + 1] % 16 * 4 + data[i + 2] / 64),
                   ToBase64(data[i + 2] % 64)]
    ensures Encode(data[i..]) == q + Encode(data[i + 3..])
  {
    hide *;
    var left := data[i..];
    EncodeThree(left);
    assert left[3..] == data[i + 3..] && left[0] == data[i] && left[1] == data[i + 1] && left[2] == data[i + 2];
  }

  lemma Grouped(a: seq<nat>, b: seq<nat>, c: seq<nat>)
    ensures a + (b + c) == a + b + c
  {
  }

  /** Three bytes as four characters. */
  method FourCharacters(a: byte, b: byte, c: byte) returns (q: seq<nat>)
    ensures q == [ToBase64(a / 4), ToBase64(a % 4 * 16 + b / 16), ToBase64(b % 16 * 4 + c / 64), ToBase64(c % 64)]
  {
    hide ToBase64, And;
    Masks(a);
    Masks(b);
    Masks(c);
    q := [ToBase64(a / 4)];
    q := q + [ToBase64(And(a, 0x03) * 16 + b / 16)];
    q := q + [ToBase64(And(b, 0x0f) * 4 + c / 64)];
    q := q + [ToBase64(And(c, 0x3f))];
  }

  method DecodeLoop(data: seq<nat>, offset: nat) returns (r: Result)
    requires offset <= |data|
    ensures r == Decode(data, offset)
  {
    hide Collect, CollectAll, ResultLength, ToBinary, And, Or;
    var resultLength := ResultLength(data, offset);
    var result: seq<Cell> := Filled(resultLength, []);
    var leftbits: nat, leftdata: nat, idx: nat, i := 0, 0, 0, offset;
    ghost var out: seq<byte> := [];
    OkAt(State([], 0, 0), 0);
    while i < |data|
      invariant offset <= i <= |data| && idx == |out|
          && result == Filled(resultLength, out) && Ok(State(out, leftdata, leftbits))
      invariant CollectAll(State(out, leftdata, leftbits), data[i..]) == CollectAll(State([], 0, 0), data[offset..])
    {
      ghost var s := State(out, leftdata, leftbits);
      assert data[i..] == [data[i]] + data[i + 1..];
      CollectStep(s, data[i], data[i + 1..]);
      CollectKeeps(s, data[i]);
      Masks(data[i]);
      var c := ToBinary(And(data[i], 0x7f));
      var padding := data[i] == PAD;
      if c == -1 {
        CollectSkips(s, data[i]);
      } else {
        CollectTakes(s, data[i], c);
        leftdata := Or(leftdata * 64, c);
        leftbits := leftbits + 6;
        if leftbits >= 8 {
          leftbits := leftbits - 8;
          if !padding {
            Masks(leftdata / Pow2(leftbits));
            var v := And(leftdata / Pow2(leftbits), 0xff);
            FilledMore(resultLength, out, v);
            result := Assigned(result, idx, v);
            idx := idx + 1;
            out := out + [v];
          }
          AndMask(leftdata, leftbits);
          leftdata := And(leftdata, Pow2(leftbits) - 1);
        }
      }
      i := i + 1;
    }
    CollectEnd(State(out, leftdata, leftbits));
    assert data[i..] == [];
    if leftbits != 0 { return Corrupted; }
    return Decoded(result);
  }

  /** result[i] = v: an array grows when it is assigned behind its end. */
  function Assigned(result: seq<Cell>, i: nat, v: byte): seq<Cell>
    requires i <= |result|
  {
    if i < |result| then result[i := v] else result + [v]
  }

  lemma FilledMore(n: nat, out: seq<byte>, v: byte)
    ensures |out| <= |Filled(n, out)| && Assigned(Filled(n, out), |out|, v) == Filled(n, out + [v])
  {
  }

  lemma CollectSkips(s: State, c: nat)
    requires ToBinary(c % 128) == -1
    ensures Collect(s, c) == s
  {
  }

  lemma CollectTakes(s: State, c: nat, v: nat)
    requires Ok(s) && v == ToBinary(c % 128) && v < 64
    ensures Or(s.data * 64, v) == s.data * 64 + v
    ensures var data, bits := s.data * 64 + v, s.bits + 6;
      && (bits < 8 ==> Collect(s, c) == State(s.out, data, bits))
      && (bits >= 8 ==>
          Collect(s, c)
            == State(if c == PAD then s.out else s.out + [data / Pow2(bits - 8) % 256],
                 data % Pow2(bits - 8), bits - 8))
  {
    OrSix(s.data, v);
    hide ToBinary, Pow2, Or;
  }

  lemma OrSix(x: nat, v: nat)
    requires v < 64
    ensures Or(x * 64, v) == x * 64 + v
  {
    Powers();
    OrCommutes(x * 64, v);
    OrDisjoint(v, x, 6);
  }

  lemma {:induction false} OrCommutes(x: nat, y: nat)
    ensures Or(x, y) == Or(y, x)
  {
    if x != 0 && y != 0 { OrCommutes(x / 2, y / 2); }
  }
}
