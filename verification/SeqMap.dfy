/** A map from request numbers to messages that are waiting for an answer: a dense array of the
    messages, and an index from numbers to places in it. The numbers are stored in the messages. */
module SeqMap {
  import opened Numbers

  const WIDTH := 65536

  class Message {
    var seq0: nat

    constructor ()
      ensures seq0 == 0
    {
      seq0 := 0;
    }

    method GetRequestId() returns (r: nat)
      ensures r == seq0
    {
      r := seq0;
    }

    /** The number is kept in sixteen bits. */
    method SetRequestId(s: nat)
      modifies this
      ensures seq0 == s % WIDTH
    {
      seq0 := s % WIDTH;
    }
  }

  /** What NewSeq does: it panics when the array is full; otherwise it returns the message whose
      number was taken over, if there was one. */
  datatype Outcome = Panic | Displaced(old0: Message?)

  class Map {
    const index2obj: array<Message?>
    const seq2index: array<int>
    const maxSize: nat
    var pos: int
    var currSeq: nat

    ghost function Objects(): set<object>
      reads this, index2obj
    {
      set i | 0 <= i < index2obj.Length && index2obj[i] != null :: index2obj[i]
    }

    /** The shape of the arrays. */
    ghost predicate Sized()
      reads this
    {
      && index2obj.Length == maxSize && seq2index.Length == maxSize && index2obj as object != seq2index
      && 0 <= pos <= maxSize
    }

    /** Messages fill the places up to pos, and the two arrays are inverse to each other. */
    ghost predicate Valid()
      reads this, index2obj, seq2index, Objects()
    {
      && Sized()
      && (forall i ::
          0 <= i < pos ==> index2obj[i] != null && index2obj[i].seq0 < maxSize && seq2index[index2obj[i].seq0] == i)
      && (forall i :: pos <= i < maxSize ==> index2obj[i] == null)
      && (forall s :: 0 <= s < maxSize ==>
            seq2index[s] == -1 || (0 <= seq2index[s] < pos
                && index2obj[seq2index[s]] != null && index2obj[seq2index[s]].seq0 == s))
    }

    /** The finite map that the arrays stand for. */
    ghost function Live(): (m: map<nat, Message?>)
      requires Sized()
      reads this, index2obj, seq2index
    {
      map s | 0 <= s < maxSize && 0 <= seq2index[s] < maxSize :: index2obj[seq2index[s]]
    }

    constructor (maxSize: nat)
      ensures Valid() && Live() == map[] && this.maxSize == maxSize && pos == 0
          && currSeq == 1 && fresh(index2obj) && fresh(seq2index)
    {
      this.maxSize := maxSize;
      index2obj := new Message?[maxSize](i => null);
      seq2index := new int[maxSize](i => -1);
      pos := 0;
      currSeq := 1;
    }

    /** The number that the next call of NewSeq gives out. */
    ghost function Next(): nat
      reads this
    {
      if currSeq >= maxSize then 0 else currSeq
    }

    /** Whether that number is in use. */
    ghost predicate Free()
      requires Sized() && maxSize > 0
      reads this, seq2index
    {
      seq2index[Next()] < 0
    }

    /** Whether a message is waiting already. */
    ghost predicate Holds(m: Message)
      requires Sized()
      reads this, index2obj
    {
      exists i :: 0 <= i < pos && index2obj[i] == m
    }

    /** The messages that wait are the values of the map. */
    lemma HeldAreValues(m: Message)
      requires Valid()
      ensures Holds(m) <==> m in Live().Values
    {
      if Holds(m) {
        var i :| 0 <= i < pos && index2obj[i] == m;
        assert Live()[m.seq0] == m;
      }
    }

    /** A message that waits alone has the first place. */
    lemma FirstPlace()
      requires Valid()
      ensures Sized() && (pos == 1 ==> index2obj[0] != null && Live() == map[index2obj[0].seq0 := index2obj[0]])
    {
      if pos == 1 {
        forall s | s in Live() ensures s == index2obj[0].seq0 && Live()[s] == index2obj[0] {
        }
      }
    }

    method NewSeq(data: Message) returns (r: Outcome)
      requires Valid()
      modifies this, index2obj, seq2index, data
      ensures r == Panic <==> old(pos) == maxSize
      ensures r == Panic ==> Valid() && Live() == old(Live()) && data.seq0 == old(data.seq0) && currSeq == old(currSeq)
      ensures r != Panic ==> Sized() && currSeq == old(Next()) + 1 && pos == old(pos) + 1
      ensures r != Panic ==> (Valid() <==> old(Free()) && !old(Holds(data)) && old(Next()) < WIDTH)
      ensures r != Panic ==> r == Displaced(if old(Next()) in old(Live()) then old(Live())[old(Next())] else null)
      ensures r != Panic ==> (r == Displaced(null) <==> old(Free()))
      ensures r != Panic ==> data.seq0 == old(Next()) % WIDTH && Live() == old(Live())[old(Next()) := data]
      ensures r != Panic ==> forall i ::
          0 <= i < maxSize ==> index2obj[i] == if i == old(pos) then data else old(index2obj[i])
    {
      var s := currSeq;
      if s >= maxSize {
        s := 0;
      }
      if pos >= maxSize { return Panic; }
      var oldData := Enter(s, data);
      r := Displaced(oldData);
      SlotFilled(s);
      ValidExactly(s);
    }

    /** The message gets the number s and the place behind the others. */
    method Enter(s: nat, data: Message) returns (oldData: Message?)
      requires Valid() && s < maxSize && pos < maxSize
      modifies this, index2obj, seq2index, data
      ensures Sized() && currSeq == s + 1 && pos == old(pos) + 1 && data.seq0 == s % WIDTH
      ensures oldData == if old(seq2index[s]) >= 0 then old(index2obj[seq2index[s]]) else null
      ensures old(seq2index[s]) >= 0 ==> oldData != null
      ensures forall k :: 0 <= k < maxSize ==> seq2index[k] == if k == s then old(pos) else old(seq2index[k])
      ensures forall i :: 0 <= i < maxSize ==> index2obj[i] == if i == old(pos) then data else old(index2obj[i])
    {
      var index := seq2index[s];
      oldData := null;
      if index >= 0 {
        oldData := index2obj[index];
        var id := oldData.GetRequestId();
        seq2index[id] := -1;
      }
      data.SetRequestId(s);
      seq2index[s] := pos;
      index2obj[pos] := data;
      currSeq := s + 1;
      pos := pos + 1;
    }

    /** Whether the arrays are still inverse to each other: a displaced message keeps its place but
        has lost its number, and a message that waits twice has two places. */
    twostate lemma ValidExactly(s: nat)
      requires old(Valid()) && Sized() && s < maxSize && old(pos) < maxSize
          && pos == old(pos) + 1 && index2obj[old(pos)] != null
      requires forall k :: 0 <= k < maxSize ==> seq2index[k] == if k == s then old(pos) else old(seq2index[k])
      requires forall i :: 0 <= i < maxSize && i != old(pos) ==> index2obj[i] == old(index2obj[i])
      requires index2obj[old(pos)].seq0 == s % WIDTH
      requires forall i ::
          0 <= i < old(pos) && index2obj[i] != index2obj[old(pos)] ==> index2obj[i].seq0 == old(index2obj[i].seq0)
      ensures Valid() <==>
        && old(seq2index[s]) < 0 && s < WIDTH
        && (forall i :: 0 <= i < old(pos) ==> old(index2obj[i]) != index2obj[old(pos)])
    {
      if s >= WIDTH {
        assert seq2index[s] == old(pos) && index2obj[old(pos)].seq0 != s;
      } else if old(seq2index[s]) >= 0 {
        var index := old(seq2index[s]);
        assert index2obj[index] == old(index2obj[index]) && seq2index[s] != index;
      }
    }

    /** A new entry behind the others. */
    twostate lemma SlotFilled(s: nat)
      requires old(Sized()) && Sized() && s < maxSize && old(pos) < maxSize
      requires forall k :: 0 <= k < maxSize ==> old(seq2index[k]) < old(pos)
      requires forall k :: 0 <= k < maxSize ==> seq2index[k] == if k == s then old(pos) else old(seq2index[k])
      requires forall i :: 0 <= i < maxSize && i != old(pos) ==> index2obj[i] == old(index2obj[i])
      ensures Live() == old(Live())[s := index2obj[old(pos)]]
    {
    }

    method DelSeq(s: int) returns (data: Message?)
      requires Valid()
      modifies this`pos, index2obj, seq2index
      ensures Valid()
      ensures data == if s in old(Live()) then old(Live())[s] else null
      ensures Live() == old(Live()) - {s}
      ensures pos == old(pos) - if s in old(Live()) then 1 else 0
    {
      if s < 0 || s >= maxSize { return null; }
      var index := seq2index[s];
      if index < 0 { return null; }
      data := index2obj[index];
      if data == null { return null; }
      var id := data.GetRequestId();
      if id != s { return null; }
      pos := pos - 1;
      Take(s, index);
      EntryGone(s);
      StillInverse(s);
    }

    /** The last message moves to the place that becomes free. */
    method Take(s: nat, index: nat)
      requires Sized() && s < maxSize && index == seq2index[s] && index <= pos < maxSize
      requires index2obj[index] != null && index2obj[pos] != null && index2obj[pos].seq0 < maxSize
      requires index != pos ==> index2obj[pos].seq0 != s
      modifies index2obj, seq2index
      ensures forall i :: 0 <= i < maxSize ==>
        index2obj[i] == if i == pos then null else if i == index then old(index2obj[pos]) else old(index2obj[i])
      ensures forall k :: 0 <= k < maxSize ==>
        seq2index[k] == if k == s then -1
            else if index != pos && k == old(index2obj[pos].seq0) then index else old(seq2index[k])
    {
      seq2index[s] := -1;
      if index == pos {
        index2obj[index] := null;
      } else {
        index2obj[index] := index2obj[pos];
        var last := index2obj[pos].GetRequestId();
        seq2index[last] := index;
        index2obj[pos] := null;
      }
    }

    twostate lemma EntryGone(s: nat)
      requires old(Valid()) && Sized() && s < maxSize && pos == old(pos) - 1 && 0 <= old(seq2index[s]) <= pos
      requires forall i :: 0 <= i < old(pos) ==> old(index2obj[i]).seq0 == old(index2obj[i].seq0)
      requires forall i :: 0 <= i < maxSize ==>
        index2obj[i] == if i == pos then null
            else if i == old(seq2index[s]) then old(index2obj[pos - 1]) else old(index2obj[i])
      requires forall k :: 0 <= k < maxSize ==>
        seq2index[k] == if k == s then -1
            else if old(seq2index[s]) != pos && k == old(index2obj[pos - 1].seq0) then old(seq2index[s])
            else old(seq2index[k])
      ensures Live() == old(Live()) - {s}
    {
    }

    twostate lemma StillInverse(s: nat)
      requires old(Valid()) && Sized() && s < maxSize && pos == old(pos) - 1 && 0 <= old(seq2index[s]) <= pos
      requires forall i :: 0 <= i < old(pos) ==> old(index2obj[i]).seq0 == old(index2obj[i].seq0)
      requires forall i :: 0 <= i < maxSize ==>
        index2obj[i] == if i == pos then null
            else if i == old(seq2index[s]) then old(index2obj[pos - 1]) else old(index2obj[i])
      requires forall k :: 0 <= k < maxSize ==>
        seq2index[k] == if k == s then -1
            else if old(seq2index[s]) != pos && k == old(index2obj[pos - 1].seq0) then old(seq2index[s])
            else old(seq2index[k])
      ensures Valid()
    {
    }

    method GetData(s: int) returns (data: Message?)
      requires Valid()
      ensures data == if s in Live() then Live()[s] else null
    {
      if s < 0 || s >= maxSize { return null; }
      var index := seq2index[s];
      if index < 0 { return null; }
      data := index2obj[index];
      if data == null { return null; }
      var id := data.GetRequestId();
      if id != s { return null; }
    }

    /* Runs */

    ghost function UsedBelow(n: int): set<nat>
      requires Valid() && 0 <= n <= pos
      reads this, index2obj, seq2index, Objects()
    {
      set i | 0 <= i < n :: index2obj[i].seq0
    }

    lemma {:induction false} UsedSize(n: int)
      requires Valid() && 0 <= n <= pos
      ensures |UsedBelow(n)| == n
      decreases n
    {
      if n > 0 {
        UsedSize(n - 1);
        var last := index2obj[n - 1].seq0;
        assert UsedBelow(n) == UsedBelow(n - 1) + {last};
        assert last !in UsedBelow(n - 1) by {
          assert forall i :: 0 <= i < n - 1 ==> seq2index[index2obj[i].seq0] == i;
        }
      } else {
        assert UsedBelow(n) == {};
      }
    }

    /** While the next number is free there is room. */
    lemma NotFull()
      requires Valid() && maxSize > 0 && Free()
      ensures pos < maxSize
    {
      UsedSize(pos);
      var others := Below(maxSize) - {Next()};
      BelowSize(maxSize);
      assert Next() in Below(maxSize);
      forall s | s in UsedBelow(pos) ensures s in others {
        var i :| 0 <= i < pos && index2obj[i].seq0 == s;
      }
      SubsetSize(UsedBelow(pos), others);
    }

    /** The map after the first i calls. */
    ghost predicate After(calls: seq<Call>, i: nat)
      reads this, index2obj, seq2index, Objects()
    {
      && Valid() && 0 < maxSize <= WIDTH && i <= |calls|
      && Live() == LiveAfter(calls[..i], maxSize) && Next() == Number(calls[..i], maxSize)
    }

    /** One call of a run; the number and the outcome of an insertion are recorded. */
    method Play1(calls: seq<Call>, i: nat, issued: seq<nat>, outcomes: seq<Outcome>)
            returns (issued': seq<nat>, outcomes': seq<Outcome>)
      requires After(calls, i) && i < |calls| && NumbersFree(calls, maxSize) && NotWaiting(calls, maxSize)
      requires |issued| == |outcomes| == News(calls[..i]) && Circular(issued, outcomes, maxSize)
      modifies this, index2obj, seq2index, Messages(calls)
      ensures After(calls, i + 1)
      ensures |issued'| == |outcomes'| == News(calls[..i + 1]) && Circular(issued', outcomes', maxSize)
    {
      hide LiveAfter, News, Number, Issued, Valid, Live, Next, Circular;
      CallStep(calls, i, maxSize);
      issued', outcomes' := issued, outcomes;
      match calls[i] {
        case New(m) =>
          NextIssued(calls[..i], maxSize);
          var r := Insert(calls, i, m);
          issued', outcomes' := issued + [m.seq0], outcomes + [r];
          CircularOn(issued, outcomes, m.seq0, r, maxSize);
        case Del(s) =>
          SameNumber(calls, i, maxSize);
          Delete(s);
      }
    }

    /** A whole run: if every message is deleted before its number comes back, every call finds its
        number free and room for the message, and call k gives out the number k in the circle. */
    method Play(calls: seq<Call>) returns (issued: seq<nat>, outcomes: seq<Outcome>)
      requires Valid() && Live() == map[] && currSeq == 1 && 0 < maxSize <= WIDTH
      requires InTime(calls, maxSize) && NotWaiting(calls, maxSize)
      modifies this, index2obj, seq2index, Messages(calls)
      ensures Valid() && Live() == LiveAfter(calls, maxSize)
      ensures |issued| == |outcomes| == News(calls)
      ensures forall k :: 0 <= k < |issued| ==>
        issued[k] == Issued(k + 1, maxSize) == (k + 1) % maxSize && outcomes[k] == Displaced(null)
    {
      FreeExactly(calls, maxSize);
      FirstNumber(maxSize);
      issued, outcomes := [], [];
      assert calls[..0] == [] && After(calls, 0);
      hide After, NumbersFree, NotWaiting, InTime, LiveAfter, News, Issued;
      var i := 0;
      while i < |calls|
        invariant 0 <= i <= |calls| && After(calls, i)
        invariant |issued| == |outcomes| == News(calls[..i]) && Circular(issued, outcomes, maxSize)
      {
        issued, outcomes := Play1(calls, i, issued, outcomes);
        i := i + 1;
      }
      AfterAll(calls);
      forall k | 0 <= k < |issued| ensures issued[k] == (k + 1) % maxSize { IssuedInCircle(k + 1, maxSize); }
    }

    lemma AfterAll(calls: seq<Call>)
      requires After(calls, |calls|)
      ensures Valid() && Live() == LiveAfter(calls, maxSize) && calls[..|calls|] == calls
    {
      hide Valid, Live, LiveAfter;
      assert calls[..|calls|] == calls;
    }

    method Delete(s: int)
      requires Valid()
      modifies this`pos, index2obj, seq2index
      ensures Valid() && Live() == old(Live()) - {s} && Next() == old(Next())
    {
      hide Valid, Live;
      var _ := DelSeq(s);
    }

    method Insert(ghost calls: seq<Call>, ghost i: nat, m: Message) returns (r: Outcome)
      requires Valid() && 0 < maxSize <= WIDTH && i < |calls| && calls[i] == New(m)
      requires Live() == LiveAfter(calls[..i], maxSize) && Next() == Number(calls[..i], maxSize)
      requires Number(calls[..i], maxSize) !in LiveAfter(calls[..i], maxSize)
          && m !in LiveAfter(calls[..i], maxSize).Values
      modifies this, index2obj, seq2index, m
      ensures Valid() && r == Displaced(null) && Live() == old(Live())[old(Next()) := m]
      ensures m.seq0 == old(Next()) && Next() == Number(calls[..i + 1], maxSize)
    {
      HeldAreValues(m);
      NotFull();
      NextNumber(calls[..i], m, maxSize);
      assert calls[..i + 1] == calls[..i] + [New(m)];
      r := NewSeq(m);
    }
  }

  /* Runs of calls */

  datatype Call = New(msg: Message) | Del(seq0: int)

  function Messages(calls: seq<Call>): set<Message> {
    set i | 0 <= i < |calls| && calls[i].New? :: calls[i].msg
  }

  /** How many messages have been inserted. */
  function News(calls: seq<Call>): nat {
    if calls == [] then 0 else News(calls[..|calls| - 1]) + if calls[|calls| - 1].New? then 1 else 0
  }

  /** The number of the next one. */
  function Number(calls: seq<Call>, size: nat): (n: nat)
    requires size > 0
    ensures n < size
  {
    (News(calls) + 1) % size
  }

  /** The messages that wait, by their numbers. */
  ghost function LiveAfter(calls: seq<Call>, size: nat): map<nat, Message?>
    requires size > 0
    decreases |calls|
  {
    if calls == [] then map[]
    else
      var before := calls[..|calls| - 1];
      match calls[|calls| - 1]
      case New(m) => LiveAfter(before, size)[Number(before, size) := m]
      case Del(s) => LiveAfter(before, size) - {s}
  }

  /** Each message is deleted before as many others have been inserted as there are numbers. */
  ghost predicate InTime(calls: seq<Call>, size: nat)
    requires size > 0
  {
    forall i, j ::
      0 <= i < j < |calls| && calls[i].New? && calls[j].New? && News(calls[..j]) == News(calls[..i]) + size ==>
        DeletedBetween(calls, i, j, Number(calls[..i], size))
  }

  ghost predicate DeletedBetween(calls: seq<Call>, i: int, j: int, s: int) {
    exists d :: i < d < j && 0 <= d < |calls| && calls[d] == Del(s)
  }

  /** No message is inserted while it waits. */
  ghost predicate NotWaiting(calls: seq<Call>, size: nat)
    requires size > 0
  {
    forall j :: 0 <= j < |calls| && calls[j].New? ==> calls[j].msg !in LiveAfter(calls[..j], size).Values
  }

  ghost predicate NumbersFree(calls: seq<Call>, size: nat)
    requires size > 0
  {
    forall j :: 0 <= j < |calls| && calls[j].New? ==> Number(calls[..j], size) !in LiveAfter(calls[..j], size)
  }

  lemma CallStep(calls: seq<Call>, i: nat, size: nat)
    requires i < |calls| && size > 0
    ensures News(calls[..i + 1]) == News(calls[..i]) + if calls[i].New? then 1 else 0
    ensures LiveAfter(calls[..i + 1], size) == match calls[i]
      case New(m) => LiveAfter(calls[..i], size)[Number(calls[..i], size) := m]
      case Del(s) => LiveAfter(calls[..i], size) - {s}
  {
    assert calls[..i + 1][..i] == calls[..i] && calls[..i + 1][i] == calls[i];
  }

  lemma FirstNumber(size: nat)
    requires size > 0
    ensures News([]) == 0 && Number([], size) == if 1 >= size then 0 else 1
  {
    NextInCircle(0, size);
  }

  lemma NextNumber(calls: seq<Call>, m: Message, size: nat)
    requires size > 0
    ensures Number(calls + [New(m)], size) == if Number(calls, size) + 1 >= size then 0 else Number(calls, size) + 1
  {
    assert (calls + [New(m)])[..|calls|] == calls;
    NextInCircle(News(calls) + 1, size);
  }

  /** The numbers are those of the circle, and nothing was displaced. */
  predicate Circular(issued: seq<nat>, outcomes: seq<Outcome>, size: nat) {
    |issued| == |outcomes| && forall k ::
        0 <= k < |issued| ==> issued[k] == Issued(k + 1, size) && outcomes[k] == Displaced(null)
  }

  lemma CircularOn(issued: seq<nat>, outcomes: seq<Outcome>, n: nat, r: Outcome, size: nat)
    requires Circular(issued, outcomes, size) && n == Issued(|issued| + 1, size) && r == Displaced(null)
    ensures Circular(issued + [n], outcomes + [r], size)
  {
    hide Issued;
  }

  lemma NextIssued(calls: seq<Call>, size: nat)
    requires size > 0
    ensures Number(calls, size) == Issued(News(calls) + 1, size)
  {
    hide News, Issued;
    IssuedInCircle(News(calls) + 1, size);
  }

  lemma SameNumber(calls: seq<Call>, i: nat, size: nat)
    requires i < |calls| && size > 0 && !calls[i].New?
    ensures Number(calls[..i + 1], size) == Number(calls[..i], size)
  {
    hide News;
    CallStep(calls, i, size);
  }

  /** A number is in use exactly if it was given out and not deleted since. */
  lemma {:induction false} InUseExactly(calls: seq<Call>, j: nat, size: nat, s: nat)
    requires size > 0 && j <= |calls|
    ensures s in LiveAfter(calls[..j], size)
       <==> exists i :: 0 <= i < j && calls[i].New? && Number(calls[..i], size) == s && !DeletedBetween(calls, i, j, s)
    decreases j
  {
    if j > 0 {
      var n := j - 1;
      CallStep(calls, n, size);
      InUseExactly(calls, n, size, s);
      hide LiveAfter, Number, News;
      forall i | 0 <= i < n
        ensures DeletedBetween(calls, i, j, s) <==> DeletedBetween(calls, i, n, s) || calls[n] == Del(s)
      {
        if calls[n] == Del(s) { assert i < n < j; }
      }
      assert !DeletedBetween(calls, n, j, s);
    }
  }

  /** The counts rise by at most one at a call, so each value between two is met. */
  lemma {:induction false} Met(calls: seq<Call>, i: nat, j: nat, n: nat) returns (k: nat)
    requires i < j <= |calls| && calls[i].New? && News(calls[..i]) <= n < News(calls[..j])
    ensures i <= k < j && calls[k].New? && News(calls[..k]) == n
    decreases j
  {
    CallStep(calls, j - 1, 1);
    if News(calls[..j - 1]) <= n {
      k := j - 1;
    } else {
      k := Met(calls, i, j - 1, n);
    }
  }

  lemma {:induction false} NewsGrow(calls: seq<Call>, i: nat, j: nat)
    requires i <= j <= |calls|
    ensures News(calls[..i]) <= News(calls[..j])
    ensures i < j && calls[i].New? ==> News(calls[..i]) < News(calls[..j])
    decreases j
  {
    if i < j {
      CallStep(calls, j - 1, 1);
      NewsGrow(calls, i, j - 1);
    }
  }

  /** Every insertion finds its number free exactly if the messages are deleted in time. */
  lemma FreeExactly(calls: seq<Call>, size: nat)
    requires size > 0
    ensures NumbersFree(calls, size) <==> InTime(calls, size)
  {
    if NumbersFree(calls, size) {
      forall i, j | 0 <= i < j < |calls| && calls[i].New?
          && calls[j].New? && News(calls[..j]) == News(calls[..i]) + size
        ensures DeletedBetween(calls, i, j, Number(calls[..i], size))
      {
        InCircle(News(calls[..i]) + 1, size, size);
        InUseExactly(calls, j, size, Number(calls[..j], size));
      }
    }
    if InTime(calls, size) {
      forall j | 0 <= j < |calls| && calls[j].New? ensures Number(calls[..j], size) !in LiveAfter(calls[..j], size) {
        InUseExactly(calls, j, size, Number(calls[..j], size));
        var s := Number(calls[..j], size);
        forall i | 0 <= i < j && calls[i].New? && Number(calls[..i], size) == s
          ensures DeletedBetween(calls, i, j, s)
        {
          DeletedSince(calls, i, j, size);
        }
      }
    }
  }

  lemma DeletedSince(calls: seq<Call>, i: nat, j: nat, size: nat)
    requires size > 0 && InTime(calls, size) && i < j < |calls| && calls[i].New? && calls[j].New?
    requires Number(calls[..i], size) == Number(calls[..j], size)
    ensures DeletedBetween(calls, i, j, Number(calls[..i], size))
  {
    var a, b := News(calls[..i]), News(calls[..j]);
    NewsGrow(calls, i, j);
    SameRemainder(a + 1, b + 1, size);
    var k := Met(calls, i, j, b - size);
    InCircle(News(calls[..k]) + 1, size, size);
    assert Number(calls[..k], size) == Number(calls[..j], size);
    hide Number, News;
    assert DeletedBetween(calls, k, j, Number(calls[..k], size));
    var d :| k < d < j && 0 <= d < |calls| && calls[d] == Del(Number(calls[..k], size));
    assert i < d < j;
  }

  lemma SameRemainder(a: nat, b: nat, size: nat)
    requires size > 0 && a < b && a % size == b % size
    ensures b >= a + size
  {
    if b < a + size { InCircle(a, size, b - a); }
  }

  function Below(n: nat): set<nat> {
    if n == 0 then {} else Below(n - 1) + {n - 1}
  }

  lemma {:induction false} BelowSize(n: nat)
    ensures |Below(n)| == n && forall k: nat :: k in Below(n) <==> k < n
  {
    if n > 0 { BelowSize(n - 1); }
  }

  lemma {:induction false} SubsetSize(a: set<nat>, b: set<nat>)
    requires a <= b
    ensures |a| <= |b|
    decreases a
  {
    if a != {} {
      var x :| x in a;
      SubsetSize(a - {x}, b - {x});
    }
  }

  /* The numbers given out */

  /** The number that call k of NewSeq gives out, counting from 1, on a map for `size` messages. */
  function Issued(k: nat, size: nat): nat
    requires k > 0
  {
    var curr := if k == 1 then 1 else Issued(k - 1, size) + 1;
    if curr >= size then 0 else curr
  }

  /** Numbers are given out in a circle. */
  lemma {:induction false} IssuedInCircle(k: nat, size: nat)
    requires k > 0 && size > 0
    ensures Issued(k, size) == k % size
  {
    NextInCircle(k - 1, size);
    if k == 1 {
      assert 0 % size == 0;
    } else {
      IssuedInCircle(k - 1, size);
    }
  }

  lemma NextInCircle(k: nat, size: nat)
    requires size > 0
    ensures (k + 1) % size == if k % size + 1 >= size then 0 else k % size + 1
  {
    InCircle(k, size, 1);
  }

  lemma InCircle(k: nat, size: nat, d: nat)
    requires size > 0 && d <= size
    ensures (k + d) % size == if k % size + d >= size then k % size + d - size else k % size + d
  {
    var q, r := k / size, k % size;
    assert k == size * q + r;
    assert size * (q + 1) == size * q + size;
    if r + d >= size { DivModUnique(k + d, size, q + 1, r + d - size); } else { DivModUnique(k + d, size, q, r + d); }
  }

  /** A number comes back after as many calls as there are places, and not before: the slot of a
      message that is answered sooner is free again. */
  lemma ReusedAfterACircle(k: nat, d: nat, size: nat)
    requires k > 0 && 0 < d <= size
    ensures Issued(k + d, size) == Issued(k, size) <==> d == size
  {
    IssuedInCircle(k, size);
    IssuedInCircle(k + d, size);
    InCircle(k, size, d);
  }

  /* A number that is taken over */

  function Overtaking(a: Message, b: Message, c: Message): seq<Call> {
    [New(a), New(b), Del(0), New(c)]
  }

  /** With two numbers, the third message gets the number of the first, though there is room for it and
      only one message waits. */
  lemma TooLate(a: Message, b: Message, c: Message)
    requires a != b && b != c && a != c
    ensures var calls := Overtaking(a, b, c);
            && NotWaiting(calls, 2) && LiveAfter(calls[..3], 2) == map[1 := a] && Number(calls[..3], 2) == 1
            && !InTime(calls, 2)
  {
    var calls := Overtaking(a, b, c);
    assert calls[..0] == [] && calls[..1] == [New(a)] && calls[..2] == [New(a), New(b)];
    assert calls[..3] == [New(a), New(b), Del(0)];
    CallStep(calls, 0, 2);
    CallStep(calls, 1, 2);
    CallStep(calls, 2, 2);
    hide News, LiveAfter, InTime;
    assert News([]) == 0 && LiveAfter([], 2) == map[] by { CallNone(); }
    assert LiveAfter(calls[..3], 2) == map[1 := a];
    assert !NumbersFree(calls, 2) by { assert calls[3].New?; }
    FreeExactly(calls, 2);
  }

  lemma CallNone()
    ensures News([]) == 0 && LiveAfter([], 2) == map[]
  {
  }

  method FirstOfTwo(a: Message) returns (m: Map)
    modifies a
    ensures fresh(m) && fresh(m.index2obj) && fresh(m.seq2index) && m.maxSize == 2 && m.Valid()
    ensures m.currSeq == 2 && m.pos == 1 && m.index2obj[0] == a && a.seq0 == 1 && m.Live() == map[1 := a]
  {
    m := new Map(2);
    hide Map.Valid, Map.Live, Map.Holds;
    m.HeldAreValues(a);
    var r := m.NewSeq(a);
  }

  method SecondOfTwo(m: Map, a: Message, b: Message)
    requires a != b && m.maxSize == 2 && m.Valid() && m.currSeq == 2 && m.pos == 1 && m.Live() == map[1 := a]
    modifies m, m.index2obj, m.seq2index, b
    ensures m.Valid() && m.currSeq == 1 && m.pos == 2 && m.Live() == map[1 := a, 0 := b]
  {
    m.HeldAreValues(b);
    hide Map.Valid, Map.Live, Map.Holds;
    var r := m.NewSeq(b);
  }

  method SecondDeleted(m: Map, a: Message, b: Message)
    requires m.maxSize == 2 && m.Valid() && m.pos == 2 && m.Live() == map[1 := a, 0 := b]
    modifies m`pos, m.index2obj, m.seq2index
    ensures m.Valid() && m.pos == 1 && m.Live() == map[1 := a] && m.index2obj.Length == 2 && m.index2obj[0] == a
  {
    hide Map.Valid, Map.Live;
    var d := m.DelSeq(0);
    assert m.Live() == map[1 := a] && m.pos == 1;
    m.FirstPlace();
    assert 1 in m.Live();
  }

  /** On the map itself: the answer to the first message would be given to the third one, and the first
      keeps its place in the array for good. */
  method TakenOver(a: Message, b: Message, c: Message) returns (m: Map, r: Outcome)
    requires a != b && b != c && a != c
    modifies a, b, c
    ensures r == Displaced(a) && a.seq0 == c.seq0 == 1
    ensures m.Sized() && !m.Valid() && m.Live() == map[1 := c] && m.pos == 2 && m.index2obj[..] == [a, c]
  {
    hide Map.Valid, Map.Live;
    m := FirstOfTwo(a);
    SecondOfTwo(m, a, b);
    SecondDeleted(m, a, b);
    r := m.NewSeq(c);
    assert m.index2obj[..] == [a, c];
  }
}
