/** What the commands of the topic registry do to a channel, each with all its topics at once, and what a
    list of commands comes to. */
module Commands {
  import opened PubSub

  function Among(topics: seq<Topic>): set<Topic> {
    set t | t in topics
  }

  /** Some subscriptions end; the channel is closed with its last one. */
  function Ended(s: ChanState, gone: set<Topic>): ChanState {
    ChanState(s.subs - gone, if s.subs != map[] && s.subs - gone == map[] then s.items + [Close] else s.items)
  }

  /** Subscriptions to all of the topics, with one flag, besides those there were. */
  function Subscribing(s: ChanState, topics: seq<Topic>, once: bool): ChanState {
    s.(subs := map t | t in s.subs.Keys + Among(topics) :: if t in topics then once else s.subs[t])
  }

  /** How many messages come of one that is published on the topics: one for each that the channel is
      subscribed to, but none behind the first that it is subscribed to once. */
  function Hits(s: ChanState, topics: seq<Topic>): nat {
    if topics == [] then 0
    else
      match Lookup(s, topics[0])
      case NotSubscribed => Hits(s, topics[1..])
      case Subscribed(once) => if once then 1 else 1 + Hits(s, topics[1..])
  }

  predicate HitsOnce(s: ChanState, topics: seq<Topic>) {
    exists i :: 0 <= i < |topics| && Lookup(s, topics[i]) == Subscribed(true)
  }

  function Times(m: Msg, n: nat): (r: seq<Item>)
    ensures |r| == n && forall i :: 0 <= i < n ==> r[i] == Message(m)
  {
    seq(n, _ => Message(m))
  }

  function Published(s: ChanState, m: Msg, topics: seq<Topic>): ChanState {
    var items := s.items + Times(m, Hits(s, topics));
    if HitsOnce(s, topics) then ChanState(map[], items + [Close]) else s.(items := items)
  }

  /** A command, seen from channel c. Unsub without topics means all of them. */
  function Does(s: ChanState, c: Chan, cmd: Cmd): ChanState {
    match cmd
    case Sub(ch, topics, once) => if ch == c then Subscribing(s, topics, once) else s
    case Pub(m, topics) => Published(s, m, topics)
    case Unsub(ch, topics) => if ch == c then Ended(s, if topics == [] then s.subs.Keys else Among(topics)) else s
    case CloseTopics(topics) => Ended(s, Among(topics))
    case Shutdown => Ended(s, s.subs.Keys)
  }

  /** The commands up to the first Shutdown. */
  function After(s: ChanState, c: Chan, cmds: seq<Cmd>): ChanState
    decreases |cmds|
  {
    if cmds == [] then s
    else if cmds[0].Shutdown? then Does(s, c, cmds[0])
    else After(Does(s, c, cmds[0]), c, cmds[1..])
  }

  /* The loops over the topics of a command */

  lemma EndedTwice(s: ChanState, a: set<Topic>, b: set<Topic>)
    ensures Ended(Ended(s, a), b) == Ended(s, a + b)
  {
    assert (s.subs - a) - b == s.subs - (a + b);
    if s.subs - a == map[] { assert s.subs - (a + b) == map[]; }
  }

  lemma EndsOne(s: ChanState, t: Topic)
    ensures Without(s, t) == Ended(s, {t})
  {
    if t !in s.subs { assert s.subs - {t} == s.subs; }
  }

  lemma EndsNone(s: ChanState)
    ensures Ended(s, {}) == s
  {
    assert s.subs - {} == s.subs;
  }

  lemma EndsAll(s: ChanState, gone: set<Topic>)
    requires s.subs.Keys <= gone
    ensures Ended(s, gone) == Cleared(s) == Ended(s, s.subs.Keys)
  {
    assert s.subs - gone == map[] && s.subs - s.subs.Keys == map[];
  }

  lemma AmongFirst(topics: seq<Topic>)
    ensures topics == [] ==> Among(topics) == {}
    ensures topics != [] ==> Among(topics) == {topics[0]} + Among(topics[1..])
  {
    if topics != [] {
      assert topics == [topics[0]] + topics[1..];
    }
  }

  lemma OpsForFirst(cmd: Cmd, topics: seq<Topic>, op: Op)
    requires !cmd.Shutdown? && topics != [] && op == OpOf(cmd, topics[0])
    ensures OpsFor(cmd, topics) != []
    ensures OpsFor(cmd, topics)[0] == op && OpsFor(cmd, topics)[1..] == OpsFor(cmd, topics[1..])
  {
    hide OpOf;
  }

  lemma SubscribesFirst(s: ChanState, topics: seq<Topic>, once: bool)
    ensures topics == [] ==> Subscribing(s, topics, once) == s
    ensures topics != [] ==>
      Subscribing(s, topics, once) == Subscribing(s.(subs := s.subs[topics[0] := once]), topics[1..], once)
  {
    AmongFirst(topics);
    if topics == [] {
      assert Subscribing(s, topics, once).subs == s.subs;
    } else {
      assert topics == [topics[0]] + topics[1..];
      assert Subscribing(s, topics, once).subs
          == Subscribing(s.(subs := s.subs[topics[0] := once]), topics[1..], once).subs;
    }
  }

  lemma {:induction false} Adds(s: ChanState, c: Chan, cmd: Cmd, topics: seq<Topic>)
    requires cmd.Sub?
    ensures Run(s, c, OpsFor(cmd, topics)) == if cmd.ch == c then Subscribing(s, topics, cmd.once) else s
    decreases |topics|
  {
    SubscribesFirst(s, topics, cmd.once);
    hide Subscribing;
    if topics != [] {
      OpsForFirst(cmd, topics, Add(topics[0], cmd.ch, cmd.once));
      hide OpsFor;
      Adds(Step(s, c, Add(topics[0], cmd.ch, cmd.once)), c, cmd, topics[1..]);
    }
  }

  lemma {:induction false} Removes(s: ChanState, c: Chan, cmd: Cmd, topics: seq<Topic>)
    requires cmd.Unsub? || cmd.CloseTopics?
    ensures Run(s, c, OpsFor(cmd, topics))
         == if cmd.CloseTopics? || cmd.ch == c then Ended(s, Among(topics)) else s
    decreases |topics|
  {
    AmongFirst(topics);
    EndsNone(s);
    hide Among, Ended, Without;
    if topics != [] {
      var op := if cmd.Unsub? then Remove(topics[0], cmd.ch) else RemoveTopic(topics[0]);
      OpsForFirst(cmd, topics, op);
      EndsOne(s, topics[0]);
      EndedTwice(s, {topics[0]}, Among(topics[1..]));
      hide OpsFor;
      Removes(Step(s, c, op), c, cmd, topics[1..]);
    }
  }

  /** Publishing on one topic and then on the others. */
  lemma PublishesFirst(s: ChanState, m: Msg, topics: seq<Topic>)
    ensures topics == [] ==> Published(s, m, topics) == s
    ensures topics != [] ==> Published(s, m, topics) == Published(Sent(s, topics[0], m), m, topics[1..])
  {
    if topics == [] {
      assert s.items + Times(m, 0) == s.items;
    } else {
      var t, rest := topics[0], topics[1..];
      var s1 := Sent(s, t, m);
      OnceFirst(s, topics);
      if Lookup(s, t) == Subscribed(true) {
        Unhit(s1, rest);
        assert s1.items == s.items + Times(m, 1) + [Close];
        assert s1.items + Times(m, 0) == s1.items;
      } else if t in s.subs {
        SameHits(s, s1, rest);
        assert s.items + Times(m, 1 + Hits(s, rest)) == (s.items + [Message(m)]) + Times(m, Hits(s, rest));
      }
    }
  }

  lemma OnceFirst(s: ChanState, topics: seq<Topic>)
    requires topics != []
    ensures HitsOnce(s, topics) <==> Lookup(s, topics[0]) == Subscribed(true) || HitsOnce(s, topics[1..])
  {
    if HitsOnce(s, topics[1..]) {
      var i :| 0 <= i < |topics[1..]| && Lookup(s, topics[1..][i]) == Subscribed(true);
      assert topics[i + 1] == topics[1..][i];
    }
    if HitsOnce(s, topics) && Lookup(s, topics[0]) != Subscribed(true) {
      var i :| 0 <= i < |topics| && Lookup(s, topics[i]) == Subscribed(true);
      assert topics[1..][i - 1] == topics[i];
    }
  }

  lemma {:induction false} Unhit(s: ChanState, topics: seq<Topic>)
    requires s.subs == map[]
    ensures Hits(s, topics) == 0 && !HitsOnce(s, topics)
    decreases |topics|
  {
    if topics != [] { Unhit(s, topics[1..]); }
  }

  lemma {:induction false} SameHits(s: ChanState, s1: ChanState, topics: seq<Topic>)
    requires s1.subs == s.subs
    ensures Hits(s1, topics) == Hits(s, topics) && HitsOnce(s1, topics) == HitsOnce(s, topics)
    decreases |topics|
  {
    if topics != [] { SameHits(s, s1, topics[1..]); }
  }

  lemma {:induction false} Publishes(s: ChanState, c: Chan, cmd: Cmd, topics: seq<Topic>)
    requires cmd.Pub?
    ensures Run(s, c, OpsFor(cmd, topics)) == Published(s, cmd.msg, topics)
    decreases |topics|
  {
    PublishesFirst(s, cmd.msg, topics);
    hide Published, Sent;
    if topics != [] {
      OpsForFirst(cmd, topics, Send(topics[0], cmd.msg));
      hide OpsFor;
      Publishes(Sent(s, topics[0], cmd.msg), c, cmd, topics[1..]);
    }
  }

  /** The operations of a command come to that. */
  lemma DoesIs(s: ChanState, c: Chan, cmd: Cmd)
    ensures Run(s, c, Ops(cmd)) == Does(s, c, cmd)
  {
    EndsAll(s, s.subs.Keys);
    hide Run, OpsFor, Subscribing, Published, Ended, Cleared;
    match cmd
    case Sub(_, topics, _) => Adds(s, c, cmd, topics);
    case Pub(_, topics) => Publishes(s, c, cmd, topics);
    case Unsub(ch, topics) => if topics == [] { RunOne(s, c, RemoveChannel(ch)); } else { Removes(s, c, cmd, topics); }
    case CloseTopics(topics) => Removes(s, c, cmd, topics);
    case Shutdown => RunOne(s, c, DropAll);
  }

  lemma {:induction false} AfterIs(s: ChanState, c: Chan, cmds: seq<Cmd>)
    ensures Run(s, c, AllOps(cmds)) == After(s, c, cmds)
    decreases |cmds|
  {
    hide Ops, Does, Step;
    if cmds != [] {
      DoesIs(s, c, cmds[0]);
      if !cmds[0].Shutdown? {
        RunAppend(s, c, Ops(cmds[0]), AllOps(cmds[1..]));
        AfterIs(Does(s, c, cmds[0]), c, cmds[1..]);
      }
    }
  }

  /* What a command does, in terms of subscriptions */

  /** Unsub with topics ends exactly the subscriptions of its channel to them, and leaves other channels
      as they were. */
  lemma UnsubEnds(s: ChanState, c: Chan, ch: Chan, topics: seq<Topic>, t: Topic)
    requires topics != []
    ensures var u := Does(s, c, Unsub(ch, topics));
            && (c != ch ==> u == s)
            && (c == ch ==> Lookup(u, t) == if t in topics then NotSubscribed else Lookup(s, t))
            && (c == ch ==> u.items == s.items + if s.subs != map[] && u.subs == map[] then [Close] else [])
  {
    assert s.items + [] == s.items;
  }

  lemma CloseEnds(s: ChanState, c: Chan, topics: seq<Topic>, t: Topic)
    ensures var u := Does(s, c, CloseTopics(topics));
            && Lookup(u, t) == (if t in topics then NotSubscribed else Lookup(s, t))
            && u.items == s.items + if s.subs != map[] && u.subs == map[] then [Close] else []
  {
    assert s.items + [] == s.items;
  }

  lemma SubAdds(s: ChanState, c: Chan, ch: Chan, topics: seq<Topic>, once: bool, t: Topic)
    ensures var u := Does(s, c, Sub(ch, topics, once));
            && Lookup(u, t) == (if c == ch && t in topics then Subscribed(once) else Lookup(s, t))
            && u.items == s.items
  {
  }

  lemma PubPuts(s: ChanState, c: Chan, m: Msg, topics: seq<Topic>, t: Topic)
    ensures var u := Does(s, c, Pub(m, topics));
            && Lookup(u, t) == (if HitsOnce(s, topics) then NotSubscribed else Lookup(s, t))
            && u.items == s.items + Times(m, Hits(s, topics)) + if HitsOnce(s, topics) then [Close] else []
  {
    assert s.items + Times(m, Hits(s, topics)) + [] == s.items + Times(m, Hits(s, topics));
  }

  /* Lists of commands */

  /** No command follows a Shutdown. */
  predicate Running(cmds: seq<Cmd>) {
    forall i :: 0 <= i < |cmds| - 1 ==> cmds[i] != Shutdown
  }

  /** How channel c is subscribed to t after some commands: the last of them that concerns both decides. */
  function Holds(c: Chan, t: Topic, cmds: seq<Cmd>): Subscription
    decreases |cmds|
  {
    if cmds == [] then NotSubscribed
    else
      var before := cmds[..|cmds| - 1];
      match cmds[|cmds| - 1]
      case Sub(ch, topics, once) => if ch == c && t in topics then Subscribed(once) else Holds(c, t, before)
      case Pub(_, topics) =>
        if exists i :: 0 <= i < |topics| && Holds(c, topics[i], before) == Subscribed(true) then NotSubscribed
        else Holds(c, t, before)
      case Unsub(ch, topics) =>
        if ch == c && (topics == [] || t in topics) then NotSubscribed else Holds(c, t, before)
      case CloseTopics(topics) => if t in topics then NotSubscribed else Holds(c, t, before)
      case Shutdown => NotSubscribed
  }

  /** One message for each listed topic that c is subscribed to at that moment; with the first that it is
      subscribed to once its subscriptions end. */
  function Copies(c: Chan, m: Msg, topics: seq<Topic>, before: seq<Cmd>): seq<Msg>
    decreases |topics|
  {
    if topics == [] then []
    else
      match Holds(c, topics[0], before)
      case NotSubscribed => Copies(c, m, topics[1..], before)
      case Subscribed(once) => if once then [m] else [m] + Copies(c, m, topics[1..], before)
  }

  /** The messages that c should get. */
  function Received(c: Chan, cmds: seq<Cmd>): seq<Msg>
    decreases |cmds|
  {
    if cmds == [] then []
    else
      var before, cmd := cmds[..|cmds| - 1], cmds[|cmds| - 1];
      Received(c, before) + if cmd.Pub? then Copies(c, cmd.msg, cmd.topics, before) else []
  }

  lemma {:induction false} AfterAppend(s: ChanState, c: Chan, cmds: seq<Cmd>, cmd: Cmd)
    requires Shutdown !in cmds
    ensures After(s, c, cmds + [cmd]) == Does(After(s, c, cmds), c, cmd)
    decreases |cmds|
  {
    hide Does;
    var all := cmds + [cmd];
    if cmds == [] {
      assert all[1..] == [];
      assert After(Does(s, c, cmd), c, []) == Does(s, c, cmd);
    } else {
      assert all[0] == cmds[0] && all[1..] == cmds[1..] + [cmd];
      AfterAppend(Does(s, c, cmds[0]), c, cmds[1..], cmd);
    }
  }

  lemma Last(cmds: seq<Cmd>) returns (before: seq<Cmd>, cmd: Cmd)
    requires cmds != [] && Running(cmds)
    ensures cmds == before + [cmd] && before == cmds[..|cmds| - 1] && cmd == cmds[|cmds| - 1]
    ensures Shutdown !in before && Running(before)
  {
    before, cmd := cmds[..|cmds| - 1], cmds[|cmds| - 1];
  }

  /** A command changes how a channel is subscribed to t so. */
  lemma DoesLookup(s: ChanState, c: Chan, cmd: Cmd, t: Topic)
    ensures Lookup(Does(s, c, cmd), t) ==
      match cmd
      case Sub(ch, topics, once) => if ch == c && t in topics then Subscribed(once) else Lookup(s, t)
      case Pub(_, topics) => if HitsOnce(s, topics) then NotSubscribed else Lookup(s, t)
      case Unsub(ch, topics) => if ch == c && (topics == [] || t in topics) then NotSubscribed else Lookup(s, t)
      case CloseTopics(topics) => if t in topics then NotSubscribed else Lookup(s, t)
      case Shutdown => NotSubscribed
  {
    match cmd
    case Sub(ch, topics, once) => SubAdds(s, c, ch, topics, once, t);
    case Pub(m, topics) => PubPuts(s, c, m, topics, t);
    case Unsub(ch, topics) => if topics != [] { UnsubEnds(s, c, ch, topics, t); }
    case CloseTopics(topics) => CloseEnds(s, c, topics, t);
    case Shutdown =>
  }

  /** After any commands the registry's subscriptions are those. */
  lemma {:induction false} HoldsIs(c: Chan, t: Topic, cmds: seq<Cmd>)
    requires Running(cmds)
    ensures Lookup(After(NEW, c, cmds), t) == Holds(c, t, cmds)
    decreases |cmds|
  {
    if cmds == [] {
      assert After(NEW, c, []) == NEW;
    } else {
      hide Does, Lookup;
      var before, cmd := Last(cmds);
      var s := After(NEW, c, before);
      AfterAppend(NEW, c, before, cmd);
      DoesLookup(s, c, cmd, t);
      HoldsIs(c, t, before);
      if cmd.Pub? {
        forall i | 0 <= i < |cmd.topics| ensures Lookup(s, cmd.topics[i]) == Holds(c, cmd.topics[i], before) {
          HoldsIs(c, cmd.topics[i], before);
        }
      }
    }
  }

  lemma {:induction false} TimesMessages(items: seq<Item>, m: Msg, n: nat, all: seq<Msg>)
    requires |all| == n && forall i :: 0 <= i < n ==> all[i] == m
    ensures Messages(items + Times(m, n)) == Messages(items) + all
    ensures Messages(items + Times(m, n) + [Close]) == Messages(items) + all
    decreases n
  {
    SentMessages(items + Times(m, n), m);
    hide Messages;
    if n == 0 {
      assert items + Times(m, 0) == items && Messages(items) + all == Messages(items);
    } else {
      var most := items + Times(m, n - 1);
      TimesMessages(items, m, n - 1, all[..n - 1]);
      SentMessages(most, m);
      assert items + Times(m, n) == most + [Message(m)];
      assert Messages(items) + all[..n - 1] + [m] == Messages(items) + all;
    }
  }

  lemma {:induction false} CopiesAre(s: ChanState, c: Chan, m: Msg, topics: seq<Topic>, before: seq<Cmd>)
    requires Running(before) && s == After(NEW, c, before)
    ensures |Copies(c, m, topics, before)| == Hits(s, topics)
    ensures forall i :: 0 <= i < Hits(s, topics) ==> Copies(c, m, topics, before)[i] == m
    decreases |topics|
  {
    hide After, Lookup, Holds;
    if topics != [] {
      HoldsIs(c, topics[0], before);
      CopiesAre(s, c, m, topics[1..], before);
    }
  }

  lemma DoesMessages(s: ChanState, c: Chan, cmd: Cmd, copies: seq<Msg>)
    requires cmd.Pub? ==> |copies| == Hits(s, cmd.topics) && forall i :: 0 <= i < |copies| ==> copies[i] == cmd.msg
    requires !cmd.Pub? ==> copies == []
    ensures Messages(Does(s, c, cmd).items) == Messages(s.items) + copies
  {
    SentMessages(s.items, 0);
    assert Messages(s.items) + [] == Messages(s.items);
    if cmd.Pub? { TimesMessages(s.items, cmd.msg, |copies|, copies); }
    hide Messages;
  }

  /** The messages on a channel are those published on topics it was subscribed to at that moment, in
      order. */
  lemma {:induction false} ReceivedIs(c: Chan, cmds: seq<Cmd>)
    requires Running(cmds)
    ensures Messages(After(NEW, c, cmds).items) == Received(c, cmds)
    decreases |cmds|
  {
    if cmds == [] {
      assert After(NEW, c, []) == NEW;
    } else {
      hide Does, Messages;
      var before, cmd := Last(cmds);
      var s := After(NEW, c, before);
      AfterAppend(NEW, c, before, cmd);
      if cmd.Pub? { CopiesAre(s, c, cmd.msg, cmd.topics, before); }
      DoesMessages(s, c, cmd, if cmd.Pub? then Copies(c, cmd.msg, cmd.topics, before) else []);
      ReceivedIs(c, before);
    }
  }
}
