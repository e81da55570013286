/** The receive queue of a websocket: bytes are appended at the end of an array and an index
    moves over them; the bytes before the index are dropped only when the array has grown long.
    What the methods mean is said in terms of the unread bytes. */
module Websock {
  import opened Numbers
  import opened RfbParser
  import Base64

  /** rQwait: enough bytes; not enough; or not enough and no room to go back. */
  datatype Wait = Enough | NeedMore | CannotBackUp

  class Queue {
    var rQ: seq<byte>
    var rQi: nat

    const RQ_MAX: nat := 10000

    ghost predicate Valid()
      reads this
    {
      rQi <= |rQ|
    }

    ghost function Unread(): (s: seq<byte>)
      requires Valid()
      reads this
      ensures |s| == |rQ| - rQi
    {
      rQ[rQi..]
    }

    constructor ()
      ensures Valid() && Unread() == []
    {
      rQ, rQi := [], 0;
    }

    method Length() returns (n: nat)
      requires Valid()
      ensures n == |Unread()|
    {
      n := |rQ| - rQi;
    }

    method Shift8() returns (b: byte)
      requires Valid() && Unread() != []
      modifies this
      ensures Valid() && b == old(Unread()[0]) && Unread() == old(Unread()[1..]) && rQ == old(rQ) && rQi > 0
    {
      b := rQ[rQi];
      rQi := rQi + 1;
    }

    method Skip8()
      requires Valid() && Unread() != []
      modifies this
      ensures Valid() && Unread() == old(Unread()[1..]) && rQ == old(rQ)
    {
      rQi := rQi + 1;
    }

    method SkipBytes(n: nat)
      requires Valid() && n <= |Unread()|
      modifies this
      ensures Valid() && Unread() == old(Unread()[n..]) && rQ == old(rQ)
    {
      rQi := rQi + n;
    }

    method Shift16() returns (v: nat)
      requires Valid() && |Unread()| >= 2
      modifies this
      ensures Valid() && v == old(RfbParser.Shift16(Unread(), 0)) && Unread() == old(Unread()[2..]) && rQ == old(rQ)
    {
      var a: int, b: int := rQ[rQi], rQ[rQi + 1];
      v := a * 256 + b;
      rQi := rQi + 2;
    }

    method Shift32() returns (v: int)
      requires Valid() && |Unread()| >= 4
      modifies this
      ensures Valid() && v == old(RfbParser.Shift32(Unread(), 0)) && Unread() == old(Unread()[4..]) && rQ == old(rQ)
    {
      var a: int, b: int, c: int, d: int := rQ[rQi], rQ[rQi + 1], rQ[rQi + 2], rQ[rQi + 3];
      v := ToInt32(a * 0x100_0000) + b * 0x1_0000 + c * 0x100 + d;
      rQi := rQi + 4;
      TopByte(a, b);
    }

    method ShiftBytes(n: nat) returns (bytes: seq<byte>)
      requires Valid() && n <= |Unread()|
      modifies this
      ensures Valid() && bytes == old(Unread()[..n]) && Unread() == old(Unread()[n..]) && rQ == old(rQ)
    {
      rQi := rQi + n;
      bytes := rQ[rQi - n..rQi];
    }

    /** rQwait without a third argument: whether to wait for n bytes. */
    method Wait(n: int) returns (short: bool)
      requires Valid()
      ensures short <==> |Unread()| < n
    {
      short := |rQ| - rQi < n;
    }

    /** rQwait with one: the index goes back over bytes already read if there are too few. */
    method WaitBack(n: int, goback: nat) returns (w: Wait)
      requires Valid() && goback > 0
      modifies this
      ensures Valid() && rQ == old(rQ)
      ensures w.Enough? <==> |old(Unread())| >= n
      ensures w.NeedMore? <==> |old(Unread())| < n && goback <= old(rQi)
      ensures rQi == old(rQi) - if w.NeedMore? then goback else 0
    {
      if |rQ| - rQi < n {
        if rQi < goback { return CannotBackUp; }
        rQi := rQi - goback;
        return NeedMore;
      }
      return Enough;
    }

    /** A binary message is pushed byte by byte. */
    method Push(data: seq<byte>)
      requires Valid()
      modifies this
      ensures Valid() && Unread() == old(Unread()) + data && rQi == old(rQi)
    {
      var i := 0;
      while i < |data|
        invariant 0 <= i <= |data| && rQi == old(rQi) && rQ == old(rQ) + data[..i]
      {
        rQ := rQ + [data[i]];
        i := i + 1;
      }
      assert data[..i] == data;
    }

    /** A text message is decoded and appended: one that encodes d arrives like d itself. */
    method PushText(text: seq<nat>, ghost d: seq<byte>)
      requires Valid() && text == Base64.Encode(d)
      modifies this
      ensures Valid() && Unread() == old(Unread()) + d && rQi == old(rQi)
    {
      Base64.RoundTrip(d);
      var r := Base64.DecodeLoop(text, 0);
      hide *;
      rQ := rQ + r.bytes;
      Behind(old(rQ), d, rQi);
    }

    /** Dropping what has been read does not change what is unread. */
    method Compact()
      requires Valid()
      modifies this
      ensures Valid() && Unread() == old(Unread()) && (|old(rQ)| > RQ_MAX ==> rQi == 0)
    {
      if |rQ| > RQ_MAX {
        rQ := rQ[rQi..];
        rQi := 0;
      }
    }
  }

  lemma Behind(a: seq<byte>, b: seq<byte>, i: nat)
    requires i <= |a|
    ensures (a + b)[i..] == a[i..] + b
  {
  }

  lemma TopByte(a: byte, b: byte)
    ensures ToInt32(a * 0x100_0000) + b * 0x1_0000 == ToInt32((a * 256 + b) * 0x1_0000)
  {
  }
}
