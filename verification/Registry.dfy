/** The registry itself: two nested maps, one from topics to channels and one back, which loops
    change while they range over them, in whatever order. */
module Registry {
  import opened PubSub
  import opened Commands

  datatype Put = Put(ch: Chan, item: Item)

  /** What has been put on one channel. */
  function Project(log: seq<Put>, c: Chan): seq<Item> {
    if log == [] then []
    else Project(log[..|log| - 1], c) + if log[|log| - 1].ch == c then [log[|log| - 1].item] else []
  }

  lemma ProjectMore(log: seq<Put>, p: Put, c: Chan)
    ensures Project(log + [p], c) == Project(log, c) + if p.ch == c then [p.item] else []
  {
    assert (log + [p])[..|log|] == log;
  }

  type Topics = map<Topic, map<Chan, bool>>
  type RevTopics = map<Chan, map<Topic, bool>>

  predicate In(ts: Topics, t: Topic, c: Chan) {
    t in ts && c in ts[t]
  }

  predicate RevIn(rs: RevTopics, c: Chan, t: Topic) {
    c in rs && t in rs[c]
  }

  /** The two maps are converse to each other, without empty inner maps. */
  ghost predicate Converses(ts: Topics, rs: RevTopics) {
    && (forall t, c :: In(ts, t, c) <==> RevIn(rs, c, t))
    && (forall t :: t in ts ==> ts[t] != map[])
    && (forall c :: c in rs ==> rs[c] != map[])
  }

  ghost function SubsOf(ts: Topics, rs: RevTopics, c: Chan): (m: map<Topic, bool>)
    requires Converses(ts, rs)
    ensures forall t :: t in m <==> In(ts, t, c)
    ensures forall t :: t in m ==> m[t] == ts[t][c]
  {
    if c in rs then map t | t in rs[c] && In(ts, t, c) :: ts[t][c] else map[]
  }

  /* The maps after one change */

  function Inserted(ts: Topics, t: Topic, c: Chan, once: bool): (r: Topics)
    ensures forall u, d :: In(r, u, d) <==> In(ts, u, d) || (u == t && d == c)
    ensures In(r, t, c) && r[t][c] == once
    ensures forall u, d :: In(r, u, d) && !(u == t && d == c) ==> In(ts, u, d) && r[u][d] == ts[u][d]
    ensures (forall u :: u in ts ==> ts[u] != map[]) ==> forall u :: u in r ==> r[u] != map[]
  {
    var inner: map<Chan, bool> := if t in ts then ts[t] else map[];
    assert c in inner[c := once];
    ts[t := inner[c := once]]
  }

  function RevInserted(rs: RevTopics, c: Chan, t: Topic): (r: RevTopics)
    ensures forall u, d :: RevIn(r, d, u) <==> RevIn(rs, d, u) || (u == t && d == c)
    ensures (forall d :: d in rs ==> rs[d] != map[]) ==> forall d :: d in r ==> r[d] != map[]
  {
    var inner: map<Topic, bool> := if c in rs then rs[c] else map[];
    assert t in inner[t := true];
    rs[c := inner[t := true]]
  }

  function Deleted(ts: Topics, t: Topic, c: Chan): (r: Topics)
    requires In(ts, t, c)
    ensures forall u, d :: In(r, u, d) <==> In(ts, u, d) && !(u == t && d == c)
    ensures forall u, d :: In(r, u, d) ==> In(ts, u, d) && r[u][d] == ts[u][d]
    ensures (forall u :: u in ts ==> ts[u] != map[]) ==> forall u :: u in r ==> r[u] != map[]
  {
    var inner := ts[t] - {c};
    assert forall d :: d in inner <==> d in ts[t] && d != c;
    if inner == map[] then ts - {t} else ts[t := inner]
  }

  function RevDeleted(rs: RevTopics, c: Chan, t: Topic): (r: RevTopics)
    requires RevIn(rs, c, t)
    ensures forall u, d :: RevIn(r, d, u) <==> RevIn(rs, d, u) && !(u == t && d == c)
    ensures (forall d :: d in rs ==> rs[d] != map[]) ==> forall d :: d in r ==> r[d] != map[]
    ensures c in r <==> rs[c] - {t} != map[]
  {
    var inner := rs[c] - {t};
    assert forall u :: u in inner <==> u in rs[c] && u != t;
    if inner == map[] then rs - {c} else rs[c := inner]
  }

  lemma InsertedIs(ts: Topics, t: Topic, c: Chan, once: bool)
    ensures var none: map<Chan, bool> := map[];
      Inserted(ts, t, c, once) == if t in ts then ts[t := ts[t][c := once]]
          else ts[t := none][t := ts[t := none][t][c := once]]
  {
  }

  lemma RevInsertedIs(rs: RevTopics, c: Chan, t: Topic)
    ensures var none: map<Topic, bool> := map[];
      RevInserted(rs, c, t) == if c in rs then rs[c := rs[c][t := true]]
          else rs[c := none][c := rs[c := none][c][t := true]]
  {
  }

  lemma InIs(ts: Topics, rs: RevTopics, t: Topic, c: Chan)
    requires In(ts, t, c) && RevIn(rs, c, t)
    ensures t in ts && c in ts[t] && c in rs && t in rs[c]
  {
  }

  lemma DeletedIs(ts: Topics, t: Topic, c: Chan, inner: map<Chan, bool>)
    requires In(ts, t, c) && inner == ts[t] - {c}
    ensures Deleted(ts, t, c) == if |inner| == 0 then ts[t := inner] - {t} else ts[t := inner]
  {
    assert |inner| == 0 <==> inner == map[];
    assert ts[t := inner] - {t} == ts - {t};
  }

  lemma RevDeletedIs(rs: RevTopics, c: Chan, t: Topic, inner: map<Topic, bool>)
    requires RevIn(rs, c, t) && inner == rs[c] - {t}
    ensures RevDeleted(rs, c, t) == if |inner| == 0 then rs[c := inner] - {c} else rs[c := inner]
    ensures c in RevDeleted(rs, c, t) <==> |inner| != 0
  {
    assert |inner| == 0 <==> inner == map[];
    assert rs[c := inner] - {c} == rs - {c};
  }

  lemma AddKeeps(ts: Topics, rs: RevTopics, t: Topic, c: Chan, once: bool)
    requires Converses(ts, rs)
    ensures Converses(Inserted(ts, t, c, once), RevInserted(rs, c, t))
    ensures forall d :: SubsOf(Inserted(ts, t, c, once), RevInserted(rs, c, t), d)
                     == if d == c then SubsOf(ts, rs, d)[t := once] else SubsOf(ts, rs, d)
  {
    hide Inserted, RevInserted, In, RevIn, SubsOf;
  }

  lemma RemoveKeeps(ts: Topics, rs: RevTopics, t: Topic, c: Chan)
    requires Converses(ts, rs) && In(ts, t, c)
    ensures RevIn(rs, c, t) && Converses(Deleted(ts, t, c), RevDeleted(rs, c, t))
    ensures forall d ::
        SubsOf(Deleted(ts, t, c), RevDeleted(rs, c, t), d)
          == if d == c then SubsOf(ts, rs, d) - {t} else SubsOf(ts, rs, d)
    ensures c in RevDeleted(rs, c, t) <==> SubsOf(ts, rs, c) - {t} != map[]
  {
    hide Deleted, RevDeleted, In, SubsOf;
    Emptied(ts, rs, t, c);
  }

  lemma Emptied(ts: Topics, rs: RevTopics, t: Topic, c: Chan)
    requires Converses(ts, rs) && RevIn(rs, c, t)
    ensures rs[c] - {t} == map[] <==> SubsOf(ts, rs, c) - {t} == map[]
  {
    var a, b := rs[c] - {t}, SubsOf(ts, rs, c) - {t};
    hide SubsOf;
    assert forall u :: u in rs[c] <==> In(ts, u, c) by {
      forall u
        ensures u in rs[c] <==> In(ts, u, c)
      {
        assert RevIn(rs, c, u) <==> In(ts, u, c);
      }
    }
    assert forall u :: u in a <==> u in b;
  }

  class Registry {
    var topics: Topics
    var revTopics: RevTopics
    var log: seq<Put>

    ghost predicate Converse()
      reads this
    {
      Converses(topics, revTopics)
    }

    ghost function State(c: Chan): ChanState
      requires Converse()
      reads this
    {
      ChanState(SubsOf(topics, revTopics, c), Project(log, c))
    }

    constructor ()
      ensures Converse() && topics == map[] && revTopics == map[] && forall c :: State(c) == NEW
    {
      topics, revTopics, log := map[], map[], [];
    }

    method AddTo(topic: Topic, ch: Chan, once: bool)
      requires Converse()
      modifies this
      ensures Converse() && forall c :: State(c) == Step(old(State(c)), c, Add(topic, ch, once))
    {
      hide Converses, SubsOf, Project, Inserted, RevInserted;
      AddKeeps(topics, revTopics, topic, ch, once);
      Insert(topic, ch, once);
    }

    method Insert(topic: Topic, ch: Chan, once: bool)
      modifies this`topics, this`revTopics
      ensures topics == Inserted(old(topics), topic, ch, once) && revTopics == RevInserted(old(revTopics), ch, topic)
    {
      hide *;
      ghost var ts, rs := topics, revTopics;
      InsertedIs(ts, topic, ch, once);
      RevInsertedIs(rs, ch, topic);
      var noChans: map<Chan, bool>, noTopics: map<Topic, bool> := map[], map[];
      if topic !in topics { topics := topics[topic := noChans]; }
      topics := topics[topic := topics[topic][ch := once]];
      if ch !in revTopics { revTopics := revTopics[ch := noTopics]; }
      revTopics := revTopics[ch := revTopics[ch][topic := true]];
    }

    /** The channel is closed with its last topic. */
    method RemoveFrom(topic: Topic, ch: Chan)
      requires Converse()
      modifies this
      ensures Converse() && forall c :: State(c) == Step(old(State(c)), c, Op.Remove(topic, ch))
    {
      hide Converses, SubsOf, Project, Deleted, RevDeleted;
      SubsAre(topic, ch);
      if topic !in topics { return; }
      if ch !in topics[topic] { return; }
      RemoveKeeps(topics, revTopics, topic, ch);
      ghost var was := log;
      Delete(topic, ch);
      forall c ensures Project(was + [Put(ch, Close)], c) == Project(was, c) + if c == ch then [Close] else [] {
        ProjectMore(was, Put(ch, Close), c);
      }
    }

    method Delete(topic: Topic, ch: Chan)
      requires In(topics, topic, ch) && RevIn(revTopics, ch, topic)
      modifies this
      ensures topics == Deleted(old(topics), topic, ch) && revTopics == RevDeleted(old(revTopics), ch, topic)
      ensures log == if ch in revTopics then old(log) else old(log) + [Put(ch, Close)]
    {
      hide *;
      ghost var ts, rs := topics, revTopics;
      InIs(ts, rs, topic, ch);
      ghost var inner, revInner := topics[topic] - {ch}, revTopics[ch] - {topic};
      DeletedIs(ts, topic, ch, inner);
      RevDeletedIs(rs, ch, topic, revInner);
      topics := topics[topic := topics[topic] - {ch}];
      revTopics := revTopics[ch := revTopics[ch] - {topic}];
      if |topics[topic]| == 0 {
        topics := topics - {topic};
      }
      if |revTopics[ch]| == 0 {
        log := log + [Put(ch, Close)];
        revTopics := revTopics - {ch};
      }
    }

    lemma SubsAre(topic: Topic, ch: Chan)
      requires Converse()
      ensures topic in SubsOf(topics, revTopics, ch) <==> In(topics, topic, ch)
    {
    }

    /** Ranging over the channels of a topic while they are removed from it. */
    method RemoveAll(topic: Topic)
      requires Converse()
      modifies this
      ensures Converse() && forall c :: State(c) == Step(old(State(c)), c, Op.RemoveTopic(topic))
    {
      hide Converses, SubsOf, Project, In;
      if topic !in topics { NotIn(topic); return; }
      var todo := topics[topic].Keys;
      OnlyThese(topic, todo);
      while todo != {}
        invariant Converse()
        invariant forall c :: State(c) == if c in todo then old(State(c)) else Without(old(State(c)), topic)
        decreases |todo|
      {
        var ch :| ch in todo;
        todo := todo - {ch};
        if topic in topics && ch in topics[topic] {
          RemoveFrom(topic, ch);
        } else {
          NotSubscribed(topic, ch);
        }
      }
    }

    /** Ranging over the topics of a channel while they are removed from it. */
    method RemoveChannel(ch: Chan)
      requires Converse()
      modifies this
      ensures Converse() && forall c :: State(c) == Step(old(State(c)), c, Op.RemoveChannel(ch))
    {
      hide Converses, SubsOf, Project, In;
      ghost var s := State(ch);
      ChannelTopics(ch);
      if ch !in revTopics { return; }
      var todo := revTopics[ch].Keys;
      ghost var gone: set<Topic> := {};
      EndsNone(s);
      while todo != {}
        invariant Converse() && todo + gone == s.subs.Keys && todo !! gone
        invariant forall c :: State(c) == if c == ch then Ended(s, gone) else old(State(c))
        decreases |todo|
      {
        var topic :| topic in todo;
        todo := todo - {topic};
        OneMoreGone(s, gone, topic);
        gone := gone + {topic};
        RemoveFrom(topic, ch);
      }
      EndsAll(s, gone);
    }

    /** A message to every channel of a topic; a once-subscription ends all those of its channel. */
    method SendTo(topic: Topic, msg: Msg)
      requires Converse()
      modifies this
      ensures Converse() && forall c :: State(c) == Step(old(State(c)), c, Send(topic, msg))
    {
      hide Converses, SubsOf, Project, In;
      if topic !in topics { NotIn(topic); return; }
      var todo := topics[topic].Keys;
      OnlyThese(topic, todo);
      while todo != {}
        invariant Converse()
        invariant forall c :: c in todo ==> State(c) == old(State(c)) && topic in State(c).subs
        invariant forall c :: c !in todo ==> State(c) == Sent(old(State(c)), topic, msg)
        decreases |todo|
      {
        var ch :| ch in todo;
        todo := todo - {ch};
        SendOne(topic, ch, msg);
      }
    }

    method SendOne(topic: Topic, ch: Chan, msg: Msg)
      requires Converse() && topic in State(ch).subs
      modifies this
      ensures Converse() && forall c :: State(c) == if c == ch then Sent(old(State(c)), topic, msg) else old(State(c))
    {
      hide Converses, SubsOf, Project, In;
      InTopic(topic, ch);
      var once := topics[topic][ch];
      PutOn(ch, msg);
      if once {
        RemoveChannel(ch);
      }
    }

    method PutOn(ch: Chan, msg: Msg)
      requires Converse()
      modifies this`log
      ensures Converse() && forall c ::
          State(c) == if c == ch then old(State(c)).(items := old(State(c)).items + [Message(msg)]) else old(State(c))
    {
      hide Converses, SubsOf, Project;
      ghost var was := log;
      log := log + [Put(ch, Message(msg))];
      forall c ensures Project(was + [Put(ch, Message(msg))], c)
          == Project(was, c) + if c == ch then [Message(msg)] else [] {
        ProjectMore(was, Put(ch, Message(msg)), c);
      }
    }

    /** What follows the command loop: ranging over the topics while they disappear. */
    method DropEverything()
      requires Converse()
      modifies this
      ensures Converse() && forall c :: State(c) == Step(old(State(c)), c, DropAll)
    {
      hide Converses, SubsOf, Project, In, Step, Ended, Without, Cleared;
      forall c ensures Step(State(c), c, DropAll) == Cleared(State(c)) { DropsAll(State(c), c); }
      var todo := topics.Keys;
      ghost var gone: set<Topic> := {};
      AllTopics();
      forall c ensures State(c) == Ended(State(c), {}) { EndsNone(State(c)); }
      while todo != {}
        invariant Converse() && todo !! gone && todo + gone == old(topics.Keys)
        invariant forall c :: State(c) == Ended(old(State(c)), gone)
        decreases |todo|
      {
        var topic :| topic in todo;
        todo := todo - {topic};
        forall c
          ensures Without(State(c), topic) == Ended(old(State(c)), gone + {topic})
        {
          OneMoreGone(old(State(c)), gone, topic);
        }
        gone := gone + {topic};
        forall c
          ensures Step(State(c), c, Op.RemoveTopic(topic)) == Without(State(c), topic)
        {
          RemovesTopic(State(c), c, topic);
        }
        RemoveAll(topic);
      }
      forall c ensures Ended(old(State(c)), gone) == Cleared(old(State(c))) { EndsAll(old(State(c)), gone); }
    }

    /** One topic of a command. */
    method Do(op: Op)
      requires Converse() && !op.RemoveChannel? && !op.DropAll?
      modifies this
      ensures Converse() && forall c :: State(c) == Step(old(State(c)), c, op)
    {
      hide Converse, State, Step;
      match op {
        case Add(t, ch, once) => AddTo(t, ch, once);
        case Send(t, m) => SendTo(t, m);
        case Remove(t, ch) => RemoveFrom(t, ch);
        case RemoveTopic(t) => RemoveAll(t);
      }
    }

    method Command(cmd: Cmd)
      requires Converse() && !cmd.Shutdown?
      modifies this
      ensures Converse() && forall c :: State(c) == Does(old(State(c)), c, cmd)
    {
      hide Converse, State, Step, Run, Does;
      forall c ensures Run(State(c), c, Ops(cmd)) == Does(State(c), c, cmd) { DoesIs(State(c), c, cmd); }
      if cmd.topics == [] {
        if cmd.Unsub? {
          forall c ensures Run(State(c), c, [Op.RemoveChannel(cmd.ch)]) == Step(State(c), c, Op.RemoveChannel(cmd.ch)) {
            RunOne(State(c), c, Op.RemoveChannel(cmd.ch));
          }
          RemoveChannel(cmd.ch);
        } else {
          forall c ensures Run(State(c), c, []) == State(c) { RunNone(State(c), c); }
        }
        return;
      }
      var i := 0;
      assert cmd.topics[0..] == cmd.topics;
      while i < |cmd.topics|
        invariant 0 <= i <= |cmd.topics| && Converse()
        invariant forall c ::
            Run(State(c), c, OpsFor(cmd, cmd.topics[i..])) == Run(old(State(c)), c, OpsFor(cmd, cmd.topics))
      {
        var op := FirstOp(cmd, cmd.topics[i]);
        assert cmd.topics[i..][1..] == cmd.topics[i + 1..];
        OpsForStep(cmd, cmd.topics[i..], op);
        forall c ensures Run(State(c), c, [op] + OpsFor(cmd, cmd.topics[i + 1..]))
            == Run(Step(State(c), c, op), c, OpsFor(cmd, cmd.topics[i + 1..])) {
          RunFirst(State(c), c, op, OpsFor(cmd, cmd.topics[i + 1..]));
        }
        Do(op);
        i := i + 1;
      }
      assert cmd.topics[i..] == [];
      forall c ensures Run(State(c), c, []) == State(c) { RunNone(State(c), c); }
    }

    /** The goroutine: it takes commands until the first Shutdown, and then drops everything. */
    method Start(cmds: seq<Cmd>) returns (stopped: bool)
      requires Converse()
      modifies this
      ensures Converse() && forall c :: State(c) == After(old(State(c)), c, cmds)
      ensures stopped <==> Shutdown in cmds
      ensures stopped ==> topics == map[] && revTopics == map[]
    {
      hide Converse, State, Step, Does, After;
      stopped := false;
      var i := 0;
      assert cmds[0..] == cmds;
      while i < |cmds| && cmds[i] != Shutdown
        invariant 0 <= i <= |cmds| && Converse() && Shutdown !in cmds[..i]
        invariant forall c :: After(State(c), c, cmds[i..]) == After(old(State(c)), c, cmds)
      {
        var cmd := cmds[i];
        assert cmds[i..][1..] == cmds[i + 1..];
        forall c ensures After(State(c), c, cmds[i..]) == After(Does(State(c), c, cmd), c, cmds[i + 1..]) {
          AfterFirst(State(c), c, cmds[i..]);
        }
        Command(cmd);
        i := i + 1;
      }
      forall c ensures After(State(c), c, cmds[i..]) == if i < |cmds| then Step(State(c), c, DropAll) else State(c) {
        AfterFirst(State(c), c, cmds[i..]);
        DropsAll(State(c), c);
        EndsAll(State(c), State(c).subs.Keys);
      }
      if i < |cmds| {
        stopped := true;
        DropEverything();
        forall c ensures State(c).subs == map[] { EmptyAfterDrop(c); }
        NothingLeft();
      }
    }

    lemma EmptyAfterDrop(c: Chan)
      requires Converse()
      ensures forall s: ChanState :: State(c) == Step(s, c, DropAll) ==> State(c).subs == map[]
    {
    }

    lemma NothingLeft()
      requires Converse() && forall c :: State(c).subs == map[]
      ensures topics == map[] && revTopics == map[]
    {
      if topics != map[] {
        var t :| t in topics;
        var c := SubscriberOf(t);
        assert false;
      }
      if revTopics != map[] {
        var c :| c in revTopics;
        ChannelTopics(c);
      }
    }

    lemma SubscriberOf(t: Topic) returns (c: Chan)
      requires Converse() && t in topics
      ensures t in State(c).subs
    {
      c :| c in topics[t];
      assert In(topics, t, c);
    }

    lemma AllTopics()
      requires Converse()
      ensures forall c :: State(c).subs.Keys <= topics.Keys
    {
    }

    lemma NotIn(topic: Topic)
      requires Converse() && topic !in topics
      ensures forall c :: topic !in State(c).subs
    {
    }

    lemma OnlyThese(topic: Topic, chans: set<Chan>)
      requires Converse() && topic in topics && chans == topics[topic].Keys
      ensures forall c :: c in chans <==> topic in State(c).subs
    {
    }

    lemma NotSubscribed(topic: Topic, ch: Chan)
      requires Converse() && !(topic in topics && ch in topics[topic])
      ensures topic !in State(ch).subs
    {
    }

    lemma InTopic(topic: Topic, ch: Chan)
      requires Converse() && topic in State(ch).subs
      ensures topic in topics && ch in topics[topic] && State(ch).subs[topic] == topics[topic][ch]
    {
    }

    lemma ChannelTopics(ch: Chan)
      requires Converse()
      ensures ch !in revTopics ==> State(ch).subs == map[]
      ensures ch in revTopics ==> revTopics[ch].Keys == State(ch).subs.Keys && State(ch).subs != map[]
    {
      forall t
        ensures t in State(ch).subs <==> RevIn(revTopics, ch, t)
      {
        assert In(topics, t, ch) <==> RevIn(revTopics, ch, t);
      }
    }
  }

  method FirstOp(cmd: Cmd, topic: Topic) returns (op: Op)
    requires !cmd.Shutdown?
    ensures op == OpOf(cmd, topic) && !op.RemoveChannel? && !op.DropAll?
  {
    match cmd {
      case Sub(ch, _, once) => op := Add(topic, ch, once);
      case Pub(m, _) => op := Send(topic, m);
      case Unsub(ch, _) => op := Op.Remove(topic, ch);
      case CloseTopics(_) => op := Op.RemoveTopic(topic);
    }
  }

  lemma OpsForStep(cmd: Cmd, topics: seq<Topic>, op: Op)
    requires !cmd.Shutdown? && topics != [] && op == OpOf(cmd, topics[0])
    ensures OpsFor(cmd, topics) == [op] + OpsFor(cmd, topics[1..])
  {
    hide OpOf;
  }

  lemma RunNone(s: ChanState, c: Chan)
    ensures Run(s, c, []) == s
  {
  }

  lemma RunFirst(s: ChanState, c: Chan, op: Op, ops: seq<Op>)
    ensures Run(s, c, [op] + ops) == Run(Step(s, c, op), c, ops)
  {
    hide Step;
    assert ([op] + ops)[1..] == ops;
  }

  lemma AfterFirst(s: ChanState, c: Chan, cmds: seq<Cmd>)
    ensures cmds == [] ==> After(s, c, cmds) == s
    ensures cmds != [] && cmds[0].Shutdown? ==> After(s, c, cmds) == Ended(s, s.subs.Keys)
    ensures cmds != [] && !cmds[0].Shutdown? ==> After(s, c, cmds) == After(Does(s, c, cmds[0]), c, cmds[1..])
  {
    hide Ended;
  }

  lemma OneMoreGone(s: ChanState, gone: set<Topic>, t: Topic)
    ensures Without(Ended(s, gone), t) == Ended(s, gone + {t})
  {
    EndsOne(Ended(s, gone), t);
    EndedTwice(s, gone, {t});
  }

  lemma DropsAll(s: ChanState, c: Chan)
    ensures Step(s, c, DropAll) == Cleared(s)
  {
  }

  lemma RemovesTopic(s: ChanState, c: Chan, t: Topic)
    ensures Step(s, c, Op.RemoveTopic(t)) == Without(s, t)
  {
  }
}
