/** What the subscribers of the topic registry see: each channel on its own, as its subscriptions
    and the items put on it, under the commands that the registry goroutine takes one by one. */
module PubSub {

  type Topic = string
  type Msg = nat

  datatype Chan = Chan(id: nat)

  datatype Item = Message(msg: Msg) | Close

  /** Topics with their once flag, and what has been put on the channel. */
  datatype ChanState = ChanState(subs: map<Topic, bool>, items: seq<Item>)

  /** What the command loop does for one topic of a command. */
  datatype Op =
    | Add(topic: Topic, ch: Chan, once: bool)
    | Send(topic: Topic, msg: Msg)
    | Remove(topic: Topic, ch: Chan)
    | RemoveTopic(topic: Topic)
    | RemoveChannel(ch: Chan)
    | DropAll

  /* One operation, seen from channel c */

  /** A channel is closed when its last subscription goes. */
  function Without(s: ChanState, t: Topic): ChanState {
    if t !in s.subs then s
    else if s.subs - {t} == map[] then ChanState(map[], s.items + [Close])
    else ChanState(s.subs - {t}, s.items)
  }

  function Cleared(s: ChanState): ChanState {
    if s.subs == map[] then s else ChanState(map[], s.items + [Close])
  }

  function Sent(s: ChanState, t: Topic, m: Msg): ChanState {
    if t !in s.subs then s
    else
      var s1 := s.(items := s.items + [Message(m)]);
      if s.subs[t] then Cleared(s1) else s1
  }

  function Step(s: ChanState, c: Chan, op: Op): ChanState {
    match op
    case Add(t, ch, once) => if ch == c then s.(subs := s.subs[t := once]) else s
    case Send(t, m) => Sent(s, t, m)
    case Remove(t, ch) => if ch == c then Without(s, t) else s
    case RemoveTopic(t) => Without(s, t)
    case RemoveChannel(ch) => if ch == c then Cleared(s) else s
    case DropAll => Cleared(s)
  }

  function Run(s: ChanState, c: Chan, ops: seq<Op>): ChanState
    decreases |ops|
  {
    if ops == [] then s else Run(Step(s, c, ops[0]), c, ops[1..])
  }

  const NEW := ChanState(map[], [])

  /* Commands */

  datatype Cmd =
    | Sub(ch: Chan, topics: seq<Topic>, once: bool)
    | Pub(msg: Msg, topics: seq<Topic>)
    | Unsub(ch: Chan, topics: seq<Topic>)
    | CloseTopics(topics: seq<Topic>)
    | Shutdown

  /** The operation of a command for one of its topics. */
  function OpOf(cmd: Cmd, topic: Topic): Op
    requires !cmd.Shutdown?
  {
    match cmd
    case Sub(ch, _, once) => Add(topic, ch, once)
    case Pub(m, _) => Send(topic, m)
    case Unsub(ch, _) => Remove(topic, ch)
    case CloseTopics(_) => RemoveTopic(topic)
  }

  /** The operations of a command, topic by topic. */
  function OpsFor(cmd: Cmd, topics: seq<Topic>): seq<Op>
    requires !cmd.Shutdown?
    decreases |topics|
  {
    if topics == [] then [] else [OpOf(cmd, topics[0])] + OpsFor(cmd, topics[1..])
  }

  /** Unsub without topics means all of them; the other commands do nothing then. */
  function Ops(cmd: Cmd): seq<Op> {
    if cmd.Shutdown? then [DropAll]
    else if cmd.Unsub? && cmd.topics == [] then [RemoveChannel(cmd.ch)]
    else OpsFor(cmd, cmd.topics)
  }

  /** The command loop ends with the first Shutdown. */
  function AllOps(cmds: seq<Cmd>): seq<Op>
    decreases |cmds|
  {
    if cmds == [] then [] else if cmds[0].Shutdown? then Ops(cmds[0]) else Ops(cmds[0]) + AllOps(cmds[1..])
  }

  lemma {:induction false} RunAppend(s: ChanState, c: Chan, a: seq<Op>, b: seq<Op>)
    ensures Run(s, c, a + b) == Run(Run(s, c, a), c, b)
    decreases |a|
  {
    if a == [] {
      assert a + b == b;
    } else {
      assert (a + b)[0] == a[0] && (a + b)[1..] == a[1..] + b;
      hide Step;
      RunAppend(Step(s, c, a[0]), c, a[1..], b);
    }
  }

  lemma RunOne(s: ChanState, c: Chan, op: Op)
    ensures Run(s, c, [op]) == Step(s, c, op)
  {
    hide Step;
    assert [op][1..] == [];
    assert Run(Step(s, c, op), c, []) == Step(s, c, op);
  }

  /* Delivery */

  function Messages(items: seq<Item>): seq<Msg> {
    if items == [] then []
    else Messages(items[..|items| - 1]) + match items[|items| - 1] { case Message(m) => [m] case Close => [] }
  }

  datatype Subscription = NotSubscribed | Subscribed(once: bool)

  /** How channel c is subscribed to t after some operations: what decides is the last of them that
      concerns the pair. A message published on any of its once-subscriptions ends them all. */
  function Subscribes(c: Chan, t: Topic, ops: seq<Op>): Subscription
    decreases |ops|
  {
    if ops == [] then NotSubscribed
    else
      var before, op := ops[..|ops| - 1], ops[|ops| - 1];
      match op
      case Add(t1, ch, once) => if ch == c && t1 == t then Subscribed(once) else Subscribes(c, t, before)
      case Send(t1, _) => if Subscribes(c, t1, before) == Subscribed(true)
          then NotSubscribed else Subscribes(c, t, before)
      case Remove(t1, ch) => if ch == c && t1 == t then NotSubscribed else Subscribes(c, t, before)
      case RemoveTopic(t1) => if t1 == t then NotSubscribed else Subscribes(c, t, before)
      case RemoveChannel(ch) => if ch == c then NotSubscribed else Subscribes(c, t, before)
      case DropAll => NotSubscribed
  }

  function Lookup(s: ChanState, t: Topic): Subscription {
    if t in s.subs then Subscribed(s.subs[t]) else NotSubscribed
  }

  lemma StepLookup(s: ChanState, c: Chan, op: Op, t: Topic)
    ensures Lookup(Step(s, c, op), t) ==
      match op
      case Add(t1, ch, once) => if ch == c && t1 == t then Subscribed(once) else Lookup(s, t)
      case Send(t1, _) => if Lookup(s, t1) == Subscribed(true) then NotSubscribed else Lookup(s, t)
      case Remove(t1, ch) => if ch == c && t1 == t then NotSubscribed else Lookup(s, t)
      case RemoveTopic(t1) => if t1 == t then NotSubscribed else Lookup(s, t)
      case RemoveChannel(ch) => if ch == c then NotSubscribed else Lookup(s, t)
      case DropAll => NotSubscribed
  {
    GoneFrom(s, t);
    if op.Remove? || op.RemoveTopic? { GoneFrom(s, op.topic); }
  }

  lemma GoneFrom(s: ChanState, t: Topic)
    ensures forall u :: Lookup(Without(s, t), u) == if u == t then NotSubscribed else Lookup(s, u)
  {
    forall u | u != t ensures u in s.subs <==> u in s.subs - {t} {
    }
  }

  /** The registry's subscriptions are those. */
  lemma {:induction false} SubscriptionsAre(c: Chan, t: Topic, ops: seq<Op>)
    ensures Lookup(Run(NEW, c, ops), t) == Subscribes(c, t, ops)
    decreases |ops|
  {
    if ops == [] {
      assert Run(NEW, c, []) == NEW;
    } else {
      var before, op := ops[..|ops| - 1], ops[|ops| - 1];
      assert ops == before + [op];
      hide Step, Lookup;
      RunAppend(NEW, c, before, [op]);
      RunOne(Run(NEW, c, before), c, op);
      StepLookup(Run(NEW, c, before), c, op, t);
      SubscriptionsAre(c, t, before);
      if op.Send? { SubscriptionsAre(c, op.topic, before); }
    }
  }

  /** What channel c should get: for each published topic, in order, the message if c is subscribed
      to the topic at that moment. */
  function Deliveries(c: Chan, ops: seq<Op>): seq<Msg> {
    if ops == [] then []
    else
      var before, op := ops[..|ops| - 1], ops[|ops| - 1];
      Deliveries(c, before) + if op.Send? && Subscribes(c, op.topic, before).Subscribed? then [op.msg] else []
  }

  lemma SentMessages(items: seq<Item>, m: Msg)
    ensures Messages(items + [Message(m)]) == Messages(items) + [m]
    ensures Messages(items + [Message(m)] + [Close]) == Messages(items) + [m]
    ensures Messages(items + [Close]) == Messages(items)
  {
    assert (items + [Message(m)])[..|items|] == items;
    assert (items + [Message(m)] + [Close])[..|items| + 1] == items + [Message(m)];
    assert (items + [Close])[..|items|] == items;
    assert Messages(items) + [] == Messages(items);
    assert Messages(items) + [m] + [] == Messages(items) + [m];
  }

  lemma StepMessages(s: ChanState, c: Chan, op: Op)
    ensures Messages(Step(s, c, op).items)
        == Messages(s.items) + if op.Send? && op.topic in s.subs then [op.msg] else []
  {
    hide Messages;
    SentMessages(s.items, if op.Send? then op.msg else 0);
    assert Messages(s.items) + [] == Messages(s.items);
  }

  /** Exact delivery: the messages on a channel are those it was subscribed to when they were
      published, one for each published topic, in publication order. */
  lemma {:induction false} ExactDelivery(c: Chan, ops: seq<Op>)
    ensures Messages(Run(NEW, c, ops).items) == Deliveries(c, ops)
    decreases |ops|
  {
    if ops == [] {
      assert Run(NEW, c, []) == NEW;
    } else {
      var before, op := ops[..|ops| - 1], ops[|ops| - 1];
      assert ops == before + [op];
      hide Step, Messages;
      RunAppend(NEW, c, before, [op]);
      RunOne(Run(NEW, c, before), c, op);
      StepMessages(Run(NEW, c, before), c, op);
      if op.Send? { SubscriptionsAre(c, op.topic, before); }
      ExactDelivery(c, before);
    }
  }

  /* Once-subscriptions */

  predicate NamesIn(c: Chan, ops: seq<Op>) {
    exists i :: 0 <= i < |ops| && ops[i].Add? && ops[i].ch == c
  }

  /** Only once-subscriptions, or no message yet missing: at most one message is still to come. */
  predicate OnlyOnce(s: ChanState) {
    (forall t :: t in s.subs ==> s.subs[t]) && |Messages(s.items)| <= 1
        && (|Messages(s.items)| == 1 ==> s.subs == map[])
  }

  lemma OnceStep(s: ChanState, c: Chan, op: Op)
    requires OnlyOnce(s) && !(op.Add? && op.ch == c)
    ensures OnlyOnce(Step(s, c, op))
  {
    StepMessages(s, c, op);
    hide Messages;
  }

  lemma {:induction false} OnceRun(s: ChanState, c: Chan, ops: seq<Op>)
    requires OnlyOnce(s) && !NamesIn(c, ops)
    ensures OnlyOnce(Run(s, c, ops))
    decreases |ops|
  {
    if ops != [] {
      hide OnlyOnce, Step;
      OnceStep(s, c, ops[0]);
      forall i | 0 <= i < |ops[1..]|
        ensures !(ops[1..][i].Add? && ops[1..][i].ch == c)
      {
        assert ops[1..][i] == ops[i + 1];
      }
      OnceRun(Step(s, c, ops[0]), c, ops[1..]);
    }
  }

  lemma {:induction false} OnceAdds(s: ChanState, c: Chan, topics: seq<Topic>)
    requires OnlyOnce(s) && s.items == []
    ensures OnlyOnce(Run(s, c, OpsFor(Sub(c, topics, true), topics)))
    decreases |topics|
  {
    AddsOnly(s, c, topics, topics);
  }

  lemma {:induction false} AddsOnly(s: ChanState, c: Chan, topics: seq<Topic>, all: seq<Topic>)
    requires OnlyOnce(s) && s.items == []
    ensures OnlyOnce(Run(s, c, OpsFor(Sub(c, all, true), topics)))
    decreases |topics|
  {
    if topics != [] {
      var ops := OpsFor(Sub(c, all, true), topics);
      assert ops[0] == Add(topics[0], c, true) && ops[1..] == OpsFor(Sub(c, all, true), topics[1..]);
      assert Messages([]) == [];
      AddsOnly(Step(s, c, ops[0]), c, topics[1..], all);
    }
  }

  /** A channel made by SubOnce and never added to later gets at most one message, whatever else
      happens; and once it has one it has no subscription left. */
  lemma OnceGetsAtMostOne(c: Chan, topics: seq<Topic>, before: seq<Op>, after: seq<Op>)
    requires !NamesIn(c, before) && !NamesIn(c, after)
    ensures var s := Run(NEW, c, before + (OpsFor(Sub(c, topics, true), topics) + after));
      |Messages(s.items)| <= 1 && (|Messages(s.items)| == 1 ==> s.subs == map[])
  {
    Untouched(c, before);
    assert Messages([]) == [];
    OnceAdds(NEW, c, topics);
    var adds := OpsFor(Sub(c, topics, true), topics);
    RunAppend(NEW, c, before, adds + after);
    RunAppend(NEW, c, adds, after);
    hide Run;
    OnceRun(Run(NEW, c, adds), c, after);
  }

  /** A channel that no command has named is as new. */
  lemma {:induction false} Untouched(c: Chan, ops: seq<Op>)
    requires !NamesIn(c, ops)
    ensures Run(NEW, c, ops) == NEW
    decreases |ops|
  {
    if ops != [] {
      assert Step(NEW, c, ops[0]) == NEW;
      hide Step;
      forall i | 0 <= i < |ops[1..]|
        ensures !(ops[1..][i].Add? && ops[1..][i].ch == c)
      {
        assert ops[1..][i] == ops[i + 1];
      }
      Untouched(c, ops[1..]);
    }
  }

  /* Closing */

  /** A channel is used properly if nothing is put on it after it is closed: sending on a closed
      channel panics, and so does closing it again. */
  predicate Proper(items: seq<Item>) {
    forall i :: 0 <= i < |items| - 1 ==> items[i] != Close
  }

  predicate Closed(s: ChanState) {
    Close in s.items
  }

  /** An operation that subscribes a channel that is closed. */
  predicate AddsClosed(s: ChanState, c: Chan, op: Op) {
    op.Add? && op.ch == c && Closed(s)
  }

  /** Whether some operation of a run does. */
  predicate EverAddsClosed(s: ChanState, c: Chan, ops: seq<Op>)
    decreases |ops|
  {
    ops != [] && (AddsClosed(s, c, ops[0]) || EverAddsClosed(Step(s, c, ops[0]), c, ops[1..]))
  }

  /** Used properly so far, and closed exactly if there was a subscription and there is none. */
  predicate Sound(s: ChanState) {
    Proper(s.items) && (Closed(s) ==> s.subs == map[])
  }

  lemma SoundStep(s: ChanState, c: Chan, op: Op)
    requires Sound(s) && !AddsClosed(s, c, op)
    ensures Sound(Step(s, c, op))
  {
  }

  /** A closed channel with a subscription: sooner or later something is put on it. */
  predicate Doomed(s: ChanState) {
    Closed(s) && (s.subs != map[] || !Proper(s.items))
  }

  lemma DoomedStep(s: ChanState, c: Chan, op: Op)
    requires Doomed(s)
    ensures Doomed(Step(s, c, op)) && (op == DropAll ==> !Proper(Step(s, c, op).items))
  {
    Appended(s.items, [Close]);
    if op.Send? {
      Appended(s.items, [Message(op.msg)]);
      Appended(s.items + [Message(op.msg)], [Close]);
    }
  }

  lemma Appended(items: seq<Item>, more: seq<Item>)
    requires |more| == 1
    ensures Close in items ==> Close in items + more && !Proper(items + more)
    ensures !Proper(items) ==> !Proper(items + more)
  {
    if Close in items {
      var i :| 0 <= i < |items| && items[i] == Close;
      assert (items + more)[i] == Close;
    }
    if !Proper(items) {
      var i :| 0 <= i < |items| - 1 && items[i] == Close;
      assert (items + more)[i] == Close;
    }
  }

  lemma {:induction false} DoomedRun(s: ChanState, c: Chan, ops: seq<Op>)
    requires Doomed(s) && ops != [] && ops[|ops| - 1] == DropAll
    ensures !Proper(Run(s, c, ops).items)
    decreases |ops|
  {
    hide Doomed, Step, Proper;
    DoomedStep(s, c, ops[0]);
    var s1 := Step(s, c, ops[0]);
    if |ops| == 1 {
      assert ops[1..] == [];
      assert Run(s1, c, []) == s1;
    } else {
      DoomedRun(s1, c, ops[1..]);
    }
  }

  lemma {:induction false} SoundRun(s: ChanState, c: Chan, ops: seq<Op>)
    requires Sound(s) && !EverAddsClosed(s, c, ops)
    ensures Sound(Run(s, c, ops))
    decreases |ops|
  {
    if ops != [] {
      hide Sound, Step;
      SoundStep(s, c, ops[0]);
      SoundRun(Step(s, c, ops[0]), c, ops[1..]);
    }
  }

  lemma {:induction false} PanicRun(s: ChanState, c: Chan, ops: seq<Op>)
    requires EverAddsClosed(s, c, ops) && ops[|ops| - 1] == DropAll
    ensures !Proper(Run(s, c, ops).items)
    decreases |ops|
  {
    var s1 := Step(s, c, ops[0]);
    if AddsClosed(s, c, ops[0]) {
      assert ops[0].topic in s1.subs;
      assert Doomed(s1);
      assert |ops| > 1;
      DoomedRun(s1, c, ops[1..]);
    } else {
      hide Step, Proper, AddsClosed;
      assert |ops| > 1;
      PanicRun(s1, c, ops[1..]);
    }
  }

  /** In a run that ends with a shutdown, a channel is sent on or closed after it was closed
      exactly if a subscription was added to it after it was closed. */
  lemma ShutdownPanics(c: Chan, ops: seq<Op>)
    requires ops != [] && ops[|ops| - 1] == DropAll
    ensures Proper(Run(NEW, c, ops).items) <==> !EverAddsClosed(NEW, c, ops)
  {
    assert Sound(NEW);
    if EverAddsClosed(NEW, c, ops) { PanicRun(NEW, c, ops); } else { SoundRun(NEW, c, ops); }
  }

  /* Any run, judged by its operations alone */

  ghost predicate HasTopics(c: Chan, ops: seq<Op>) {
    exists t: Topic :: Subscribes(c, t, ops).Subscribed?
  }

  /** Operation k takes the last topic of c. */
  ghost predicate Ends(c: Chan, ops: seq<Op>, k: nat)
    requires k < |ops|
  {
    HasTopics(c, ops[..k]) && !HasTopics(c, ops[..k + 1])
  }

  /** Operation k publishes on a topic of c. */
  predicate Hits(c: Chan, ops: seq<Op>, k: nat)
    requires k < |ops|
  {
    ops[k].Send? && Subscribes(c, ops[k].topic, ops[..k]).Subscribed?
  }

  ghost predicate EndedBefore(c: Chan, ops: seq<Op>, n: nat) {
    exists k :: 0 <= k < n && k < |ops| && Ends(c, ops, k)
  }

  /** After c has lost its last topic something is published on a topic of it, or it loses its last
      topic again. */
  ghost predicate UsedAfterEnd(c: Chan, ops: seq<Op>) {
    exists j :: 0 <= j < |ops| && EndedBefore(c, ops, j) && (Ends(c, ops, j) || Hits(c, ops, j))
  }

  /** What an operation puts on a channel. */
  lemma StepPuts(s: ChanState, c: Chan, op: Op) returns (put: seq<Item>)
    ensures Step(s, c, op).items == s.items + put && Proper(put)
    ensures Close in put <==> s.subs != map[] && Step(s, c, op).subs == map[]
    ensures put != [] <==> (s.subs != map[] && Step(s, c, op).subs == map[]) || (op.Send? && op.topic in s.subs)
  {
    var s' := Step(s, c, op);
    put := (if op.Send? && op.topic in s.subs then [Message(op.msg)] else [])
         + (if s.subs != map[] && s'.subs == map[] then [Close] else []);
    if op.Add? && op.ch == c { assert op.topic in s'.subs; }
    if op.Send? && op.topic in s.subs { assert s.subs != map[]; }
    if s.subs == map[] { assert forall t :: t !in s.subs; }
    assert s.items + [] == s.items;
  }

  lemma ProperAppend(items: seq<Item>, put: seq<Item>)
    requires Proper(put)
    ensures Proper(items + put) <==> Proper(items) && (put == [] || Close !in items)
    ensures Close in items + put <==> Close in items || Close in put
  {
    var all := items + put;
    if put == [] {
      assert all == items;
    } else if Close in items {
      var i :| 0 <= i < |items| && items[i] == Close;
      assert all[i] == Close && i < |all| - 1;
    } else {
      forall i | 0 <= i < |all| - 1 ensures all[i] != Close {
        if i >= |items| { assert all[i] == put[i - |items|]; }
      }
    }
  }

  /** The subscriptions of a channel are empty exactly if its operations leave it none. */
  lemma TopicsAre(c: Chan, ops: seq<Op>)
    ensures Run(NEW, c, ops).subs == map[] <==> !HasTopics(c, ops)
  {
    var s := Run(NEW, c, ops);
    if s.subs != map[] {
      var t :| t in s.subs;
      SubscriptionsAre(c, t, ops);
    } else {
      forall t: Topic ensures !Subscribes(c, t, ops).Subscribed? { SubscriptionsAre(c, t, ops); }
    }
  }

  lemma EndsEarlier(c: Chan, ops: seq<Op>, k: nat)
    requires k < |ops| - 1
    ensures Ends(c, ops[..|ops| - 1], k) <==> Ends(c, ops, k)
    ensures Hits(c, ops[..|ops| - 1], k) <==> Hits(c, ops, k)
  {
    assert ops[..|ops| - 1][..k] == ops[..k] && ops[..|ops| - 1][..k + 1] == ops[..k + 1];
  }

  lemma EndedEarlier(c: Chan, ops: seq<Op>, n: nat)
    requires ops != [] && n <= |ops| - 1
    ensures EndedBefore(c, ops[..|ops| - 1], n) <==> EndedBefore(c, ops, n)
  {
    hide HasTopics, Ends, Subscribes;
    if EndedBefore(c, ops, n) {
      var k :| 0 <= k < n && k < |ops| && Ends(c, ops, k);
      EndsEarlier(c, ops, k);
      assert Ends(c, ops[..|ops| - 1], k);
    }
    if EndedBefore(c, ops[..|ops| - 1], n) {
      var k :| 0 <= k < n && k < |ops| - 1 && Ends(c, ops[..|ops| - 1], k);
      EndsEarlier(c, ops, k);
      assert Ends(c, ops, k);
    }
  }

  lemma EndedStepwise(c: Chan, ops: seq<Op>)
    requires ops != []
    ensures EndedBefore(c, ops, |ops|) <==> EndedBefore(c, ops, |ops| - 1) || Ends(c, ops, |ops| - 1)
  {
    hide HasTopics, Ends, Subscribes;
    if EndedBefore(c, ops, |ops|) && !Ends(c, ops, |ops| - 1) {
      var k :| 0 <= k < |ops| && Ends(c, ops, k);
      assert k < |ops| - 1;
    }
    if Ends(c, ops, |ops| - 1) { assert EndedBefore(c, ops, |ops|); }
  }

  lemma UsedStepwise(c: Chan, ops: seq<Op>)
    requires ops != []
    ensures var n := |ops| - 1;
            UsedAfterEnd(c, ops)
            <==> UsedAfterEnd(c, ops[..n]) || (EndedBefore(c, ops, n) && (Ends(c, ops, n) || Hits(c, ops, n)))
  {
    var n := |ops| - 1;
    forall j | 0 <= j < n
      ensures EndedBefore(c, ops[..n], j) <==> EndedBefore(c, ops, j)
      ensures Ends(c, ops[..n], j) <==> Ends(c, ops, j)
      ensures Hits(c, ops[..n], j) <==> Hits(c, ops, j)
    {
      EndedEarlier(c, ops, j);
      EndsEarlier(c, ops, j);
    }
    hide Ends, Hits, EndedBefore;
    if UsedAfterEnd(c, ops[..n]) {
      var j :| 0 <= j < n && EndedBefore(c, ops[..n], j) && (Ends(c, ops[..n], j) || Hits(c, ops[..n], j));
      assert EndedBefore(c, ops, j);
    }
    if EndedBefore(c, ops, n) && (Ends(c, ops, n) || Hits(c, ops, n)) { assert UsedAfterEnd(c, ops); }
    if UsedAfterEnd(c, ops) {
      var j :| 0 <= j < |ops| && EndedBefore(c, ops, j) && (Ends(c, ops, j) || Hits(c, ops, j));
      if j < n { assert EndedBefore(c, ops[..n], j); }
    }
  }

  /** In every run: something is put on a channel after it was closed exactly if it had lost its last
      topic before, and now loses it again or something is published on a topic of it. */
  lemma {:induction false} PanicsExactly(c: Chan, ops: seq<Op>)
    ensures !Proper(Run(NEW, c, ops).items) <==> UsedAfterEnd(c, ops)
    ensures Closed(Run(NEW, c, ops)) <==> EndedBefore(c, ops, |ops|)
    decreases |ops|
  {
    if ops == [] {
      assert Run(NEW, c, []) == NEW;
    } else {
      var n := |ops| - 1;
      var before, op := ops[..n], ops[n];
      assert ops == before + [op] && ops[..n + 1] == ops;
      var s := Run(NEW, c, before);
      hide Step, Subscribes, HasTopics, UsedAfterEnd, EndedBefore;
      RunAppend(NEW, c, before, [op]);
      RunOne(s, c, op);
      hide Run;
      var put := StepPuts(s, c, op);
      ProperAppend(s.items, put);
      TopicsAre(c, before);
      TopicsAre(c, ops);
      if op.Send? { SubscriptionsAre(c, op.topic, before); }
      EndedEarlier(c, ops, n);
      EndedStepwise(c, ops);
      UsedStepwise(c, ops);
      PanicsExactly(c, before);
    }
  }

  /** For that a subscription must have been added in between. */
  lemma {:induction false} AddedBetween(c: Chan, ops: seq<Op>, k: nat, j: nat)
    requires k < j <= |ops| && !HasTopics(c, ops[..k + 1]) && HasTopics(c, ops[..j])
    ensures exists i :: k < i < j && ops[i].Add? && ops[i].ch == c
    decreases j
  {
    assert ops[..j][..j - 1] == ops[..j - 1] && ops[..j][j - 1] == ops[j - 1];
    if j - 1 == k {
      assert false;
    } else if !(ops[j - 1].Add? && ops[j - 1].ch == c) {
      var t :| Subscribes(c, t, ops[..j]).Subscribed?;
      assert Subscribes(c, t, ops[..j - 1]).Subscribed?;
      AddedBetween(c, ops, k, j - 1);
    }
  }

  /** The shortest run that closes a channel twice. */
  lemma ClosedTwice(c: Chan, t: Topic)
    ensures Run(NEW, c, [Add(t, c, false), Remove(t, c), Add(t, c, false), DropAll]).items == [Close, Close]
  {
    var s1 := Step(NEW, c, Add(t, c, false));
    assert s1.subs - {t} == map[] && t in s1.subs;
    var s2 := Step(s1, c, Remove(t, c));
    assert s2 == ChanState(map[], [Close]);
    var s3 := Step(s2, c, Add(t, c, false));
    assert t in s3.subs;
    RunFour(NEW, c, Add(t, c, false), Remove(t, c), Add(t, c, false), DropAll);
  }

  lemma RunFour(s: ChanState, c: Chan, a: Op, b: Op, d: Op, e: Op)
    ensures Run(s, c, [a, b, d, e]) == Step(Step(Step(Step(s, c, a), c, b), c, d), c, e)
  {
    hide Step;
    assert [a, b, d, e] == [a] + ([b] + ([d] + [e]));
    RunAppend(s, c, [a], [b] + ([d] + [e]));
    RunAppend(Step(s, c, a), c, [b], [d] + [e]);
    RunAppend(Step(Step(s, c, a), c, b), c, [d], [e]);
    RunOne(s, c, a);
    RunOne(Step(s, c, a), c, b);
    RunOne(Step(Step(s, c, a), c, b), c, d);
    RunOne(Step(Step(Step(s, c, a), c, b), c, d), c, e);
  }

  /** After a shutdown no channel has a subscription, and each that ever had one is closed, once,
      as the last thing that happens to it. */
  lemma ShutdownCloses(c: Chan, ops: seq<Op>)
    requires !EverAddsClosed(NEW, c, ops + [DropAll])
    ensures var s := Run(NEW, c, ops + [DropAll]);
      && s.subs == map[]
      && (NamesIn(c, ops) ==>
          s.items != [] && s.items[|s.items| - 1] == Close &&
          forall i :: 0 <= i < |s.items| - 1 ==> s.items[i] != Close)
      && (!NamesIn(c, ops) ==> s.items == [])
  {
    RunAppend(NEW, c, ops, [DropAll]);
    RunOne(Run(NEW, c, ops), c, DropAll);
    assert Sound(NEW);
    SoundRun(NEW, c, ops + [DropAll]);
    EverUsed(c, ops);
    if !NamesIn(c, ops) { Untouched(c, ops); }
    var s := Run(NEW, c, ops);
    if NamesIn(c, ops) && s.subs == map[] {
      var i :| 0 <= i < |s.items| && s.items[i] == Close;
      assert Step(s, c, DropAll) == s;
    }
  }

  /** A channel that was added has a subscription or has been closed. */
  predicate Used(s: ChanState) {
    s.subs != map[] || Closed(s)
  }

  lemma UsedStep(s: ChanState, c: Chan, op: Op)
    ensures Used(s) ==> Used(Step(s, c, op))
    ensures op.Add? && op.ch == c ==> Used(Step(s, c, op))
  {
    if op.Add? && op.ch == c { assert op.topic in Step(s, c, op).subs; }
    assert Close in s.items ==> Close in s.items + [Close];
    if op.Send? {
      assert Close in s.items ==> Close in s.items + [Message(op.msg)];
      assert Close in s.items + [Message(op.msg)] + [Close];
    }
  }

  lemma {:induction false} EverUsed(c: Chan, ops: seq<Op>)
    ensures NamesIn(c, ops) ==> Used(Run(NEW, c, ops))
    decreases |ops|
  {
    if ops != [] {
      var before, op := ops[..|ops| - 1], ops[|ops| - 1];
      assert ops == before + [op];
      RunAppend(NEW, c, before, [op]);
      RunOne(Run(NEW, c, before), c, op);
      hide Used, Step, Run;
      UsedStep(Run(NEW, c, before), c, op);
      EverUsed(c, before);
      if NamesIn(c, ops) {
        var i :| 0 <= i < |ops| && ops[i].Add? && ops[i].ch == c;
        if i < |ops| - 1 { assert before[i] == ops[i]; }
      }
    }
  }
}
