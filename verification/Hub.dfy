/** The pub/sub hub: topics know their audiences, connections know their subscriptions. */
module Hub {
  import opened Bytes
  import Buffers
  import opened HubCodec
  import opened Wrappers

  type Conn = nat
  type Name = Text

  datatype Topic = Topic(content: Text, lastPubTime: int, audience: set<Conn>)

  /** What is sent to a connection on behalf of a topic. */
  datatype Message = Message(topic: Name, text: Text)

  /** `subs` is the context that each connection carries. The connections in `closing` have been shut down, so
      that send drops what is given to it; `outbox` is what has been sent to each. */
  datatype State = State(topics: map<Name, Topic>, subs: map<Conn, set<Name>>, up: set<Conn>, closing: set<Conn>,
                         outbox: map<Conn, seq<Message>>)

  const INIT := State(map[], map[], {}, {}, map[])

  /** makeMessage makes a string, and send takes a StringPiece, which ends at the first NUL. */
  function MakeMessage(t: Name, content: Text): Message {
    Message(t, CStr(Encode(Pub(t, content))))
  }

  function TopicOf(topics: map<Name, Topic>, t: Name): Topic {
    if t in topics then topics[t] else Topic("", 0, {})
  }

  predicate InAudience(s: State, c: Conn, t: Name) { t in s.topics && c in s.topics[t].audience }

  predicate Subscribed(s: State, c: Conn, t: Name) { c in s.subs && t in s.subs[c] }

  /** What a connection was last sent on a topic. */
  function LastSent(sent: seq<Message>, t: Name): Option<Message> {
    if sent == [] then None
    else if sent[|sent| - 1].topic == t then Some(sent[|sent| - 1])
    else LastSent(sent[..|sent| - 1], t)
  }

  predicate Agrees(s: State, c: Conn, t: Name) { InAudience(s, c, t) <==> Subscribed(s, c, t) }

  /** The subscriber was last sent the latest content, unless it was shut down. */
  predicate Current(s: State, c: Conn, t: Name)
    requires c in s.outbox && t in s.topics
  {
    s.topics[t].lastPubTime > 0 && c !in s.closing ==> LastSent(s.outbox[c], t) == Some(MakeMessage(t, s.topics[t].content))
  }

  ghost predicate Inv(s: State) {
    && s.subs.Keys == s.outbox.Keys && s.up <= s.subs.Keys
    && (forall c :: c in s.subs && c !in s.up ==> s.subs[c] == {})
    && (forall c, t {:trigger Agrees(s, c, t)} :: Agrees(s, c, t))
    && (forall c, t {:trigger Current(s, c, t)} :: InAudience(s, c, t) && c in s.outbox ==> Current(s, c, t))
  }

  // ----- the operations

  function Sent(outbox: map<Conn, seq<Message>>, to: set<Conn>, m: Message): map<Conn, seq<Message>> {
    map c | c in outbox :: if c in to then outbox[c] + [m] else outbox[c]
  }

  function Subscribe(s: State, c: Conn, t: Name): State
    requires c in s.subs
  {
    var topic := TopicOf(s.topics, t);
    State(s.topics[t := topic.(audience := topic.audience + {c})], s.subs[c := s.subs[c] + {t}], s.up, s.closing,
          if topic.lastPubTime > 0 then Sent(s.outbox, {c} - s.closing, MakeMessage(t, topic.content)) else s.outbox)
  }

  function Unsubscribe(s: State, c: Conn, t: Name): State
    requires c in s.subs
  {
    var topic := TopicOf(s.topics, t);
    s.(topics := s.topics[t := topic.(audience := topic.audience - {c})], subs := s.subs[c := s.subs[c] - {t}])
  }

  function Publish(s: State, t: Name, content: Text, time: int): State {
    var audience := TopicOf(s.topics, t).audience;
    s.(topics := s.topics[t := Topic(content, time, audience)],
       outbox := Sent(s.outbox, audience - s.closing, MakeMessage(t, content)))
  }

  function Connect(s: State, c: Conn): State {
    s.(subs := s.subs[c := {}], up := s.up + {c}, outbox := s.outbox[c := []])
  }

  /** The connection gives up some of its subscriptions. */
  function Leave(s: State, c: Conn, names: set<Name>): State
    requires c in s.subs
  {
    s.(topics := map t | t in s.topics :: if t in names then s.topics[t].(audience := s.topics[t].audience - {c}) else s.topics[t],
       subs := s.subs[c := s.subs[c] - names])
  }

  datatype Action = Connected(c: Conn) | Disconnected(c: Conn) | ShutDown(c: Conn) | Do(c: Conn, command: Command, time: int)

  /** Every connection is a new object, and only those that are up say anything. The timer's own
      publication is a Pub of any connection. */
  predicate Enabled(s: State, a: Action) {
    match a
    case Connected(c) => c !in s.subs
    case Disconnected(c) => c in s.up && c in s.subs
    case ShutDown(c) => c in s.up && c in s.subs
    case Do(c, command, _) => command.Pub? || (c in s.up && c in s.subs)
  }

  function Step(s: State, a: Action): State
    requires Enabled(s, a)
  {
    match a
    case Connected(c) => Connect(s, c)
    case Disconnected(c) => Leave(s, c, s.subs[c]).(up := s.up - {c})
    case ShutDown(c) => s.(closing := s.closing + {c})
    case Do(c, command, time) => Obey(s, c, command, time)
  }

  function Obey(s: State, c: Conn, command: Command, time: int): State
    requires command.Pub? || c in s.subs
  {
    match command
    case Pub(t, content) => Publish(s, t, content, time)
    case Sub(t) => Subscribe(s, c, t)
    case Unsub(t) => Unsubscribe(s, c, t)
  }

  lemma LastSentAppend(sent: seq<Message>, m: Message, t: Name)
    ensures LastSent(sent + [m], t) == if m.topic == t then Some(m) else LastSent(sent, t)
  {
    assert (sent + [m])[..|sent|] == sent;
  }

  lemma SentKeepsCurrent(s: State, to: set<Conn>, m: Message, c: Conn, t: Name)
    requires c in s.outbox
    ensures LastSent(Sent(s.outbox, to, m)[c], t) == if c in to && m.topic == t then Some(m) else LastSent(s.outbox[c], t)
  {
    LastSentAppend(s.outbox[c], m, t);
    hide LastSent;
  }

  lemma PublishKeepsInv(s: State, t: Name, content: Text, time: int)
    requires Inv(s)
    ensures Inv(Publish(s, t, content, time))
  {
    var s' := Publish(s, t, content, time);
    forall c, x ensures Agrees(s', c, x) {
      assert Agrees(s, c, x);
    }
    forall c, x | InAudience(s', c, x) && c in s'.outbox ensures Current(s', c, x) {
      assert InAudience(s, c, x) && Current(s, c, x);
      SentKeepsCurrent(s, TopicOf(s.topics, t).audience - s.closing, MakeMessage(t, content), c, x);
      hide LastSent, MakeMessage;
    }
  }

  lemma SubscribeKeepsInv(s: State, c: Conn, t: Name)
    requires Inv(s) && c in s.up && c in s.subs
    ensures Inv(Subscribe(s, c, t))
  {
    var s', topic := Subscribe(s, c, t), TopicOf(s.topics, t);
    forall d, x ensures Agrees(s', d, x) {
      assert Agrees(s, d, x);
    }
    forall d, x | InAudience(s', d, x) && d in s'.outbox ensures Current(s', d, x) {
      assert InAudience(s, d, x) ==> Current(s, d, x);
      SentKeepsCurrent(s, {c} - s.closing, MakeMessage(t, topic.content), d, x);
      hide LastSent, MakeMessage;
    }
  }

  lemma LeaveKeepsInv(s: State, c: Conn, names: set<Name>)
    requires Inv(s) && c in s.subs
    ensures Inv(Leave(s, c, names))
  {
    var s' := Leave(s, c, names);
    hide LastSent, MakeMessage;
    forall d, x ensures Agrees(s', d, x) {
      assert Agrees(s, d, x);
    }
    forall d, x | InAudience(s', d, x) && d in s'.outbox ensures Current(s', d, x) {
      assert InAudience(s, d, x) && Current(s, d, x);
    }
  }

  lemma UnsubscribeKeepsInv(s: State, c: Conn, t: Name)
    requires Inv(s) && c in s.subs
    ensures Inv(Unsubscribe(s, c, t))
  {
    var s' := Unsubscribe(s, c, t);
    hide LastSent, MakeMessage;
    forall d, x ensures Agrees(s', d, x) {
      assert Agrees(s, d, x);
    }
    forall d, x | InAudience(s', d, x) && d in s'.outbox ensures Current(s', d, x) {
      assert InAudience(s, d, x) && Current(s, d, x);
    }
  }

  lemma ConnectKeepsInv(s: State, c: Conn)
    requires Inv(s) && c !in s.subs
    ensures Inv(Connect(s, c))
  {
    var s' := Connect(s, c);
    hide LastSent, MakeMessage;
    forall d, x ensures Agrees(s', d, x) {
      assert Agrees(s, d, x);
    }
    forall d, x | InAudience(s', d, x) && d in s'.outbox ensures Current(s', d, x) {
      assert Agrees(s, d, x) && Current(s, d, x);
    }
  }

  lemma StepKeepsInv(s: State, a: Action)
    requires Inv(s) && Enabled(s, a)
    ensures Inv(Step(s, a))
  {
    match a
    case Connected(c) => ConnectKeepsInv(s, c); hide Inv;
    case Disconnected(c) => HangUpKeepsInv(s, c); hide Inv;
    case ShutDown(c) => ShutDownKeepsInv(s, c); hide Inv;
    case Do(c, command, time) => ObeyKeepsInv(s, c, command, time); hide Inv;
  }

  lemma ShutDownKeepsInv(s: State, c: Conn)
    requires Inv(s)
    ensures Inv(s.(closing := s.closing + {c}))
  {
    var s' := s.(closing := s.closing + {c});
    hide LastSent, MakeMessage;
    forall d, x ensures Agrees(s', d, x) {
      assert Agrees(s, d, x);
    }
    forall d, x | InAudience(s', d, x) && d in s'.outbox ensures Current(s', d, x) {
      assert InAudience(s, d, x) && Current(s, d, x);
    }
  }

  lemma HangUpKeepsInv(s: State, c: Conn)
    requires Inv(s) && c in s.subs
    ensures Inv(Leave(s, c, s.subs[c]).(up := s.up - {c}))
  {
    var s' := Leave(s, c, s.subs[c]);
    LeaveKeepsInv(s, c, s.subs[c]);
    var s'' := s'.(up := s.up - {c});
    hide LastSent, MakeMessage;
    forall d, x ensures Agrees(s'', d, x) {
      assert Agrees(s', d, x);
    }
    forall d, x | InAudience(s'', d, x) && d in s''.outbox ensures Current(s'', d, x) {
      assert InAudience(s', d, x) && Current(s', d, x);
    }
  }

  lemma ObeyKeepsInv(s: State, c: Conn, command: Command, time: int)
    requires Inv(s) && (command.Pub? || (c in s.up && c in s.subs))
    ensures Inv(Obey(s, c, command, time))
  {
    match command
    case Pub(t, content) => PublishKeepsInv(s, t, content, time); hide Inv;
    case Sub(t) => SubscribeKeepsInv(s, c, t); hide Inv;
    case Unsub(t) => UnsubscribeKeepsInv(s, c, t); hide Inv;
  }

  predicate IsRun(s: State, run: seq<Action>)
    decreases |run|
  {
    run == [] || (Enabled(s, run[0]) && IsRun(Step(s, run[0]), run[1..]))
  }

  function Final(s: State, run: seq<Action>): State
    requires IsRun(s, run)
    decreases |run|
  {
    if run == [] then s else Final(Step(s, run[0]), run[1..])
  }

  lemma {:induction false} RunKeepsInv(s: State, run: seq<Action>)
    requires Inv(s) && IsRun(s, run)
    ensures Inv(Final(s, run))
    decreases |run|
  {
    hide Inv, Step, Enabled;
    if run != [] {
      StepKeepsInv(s, run[0]);
      RunKeepsInv(Step(s, run[0]), run[1..]);
    }
  }

  /** In every reachable state a connection is in a topic's audience exactly if the topic is among its
      subscriptions, one that is down is in no audience, and one that is in an audience and has not been
      shut down was last sent the topic's latest content. */
  lemma IndexesAgree(run: seq<Action>, c: Conn, t: Name)
    requires IsRun(INIT, run)
    ensures var s := Final(INIT, run);
            && (InAudience(s, c, t) <==> Subscribed(s, c, t))
            && (c !in s.up ==> !InAudience(s, c, t))
            && (InAudience(s, c, t) && s.topics[t].lastPubTime > 0 && c !in s.closing ==>
                  c in s.outbox && LastSent(s.outbox[c], t) == Some(MakeMessage(t, s.topics[t].content)))
  {
    RunKeepsInv(INIT, run);
    var s := Final(INIT, run);
    assert Agrees(s, c, t);
    assert InAudience(s, c, t) ==> Current(s, c, t);
    hide LastSent, MakeMessage;
  }

  /** A publication is sent once to each subscriber of its topic that has not been shut down, and to
      nobody else. */
  lemma PublicationReachesSubscribers(run: seq<Action>, c: Conn, t: Name, content: Text, time: int)
    requires IsRun(INIT, run) && c in Final(INIT, run).subs
    ensures var s := Final(INIT, run);
            var s' := Publish(s, t, content, time);
            && c in s.outbox && c in s'.outbox
            && s'.outbox[c] == s.outbox[c] + if t in s.subs[c] && c !in s.closing then [MakeMessage(t, content)] else []
  {
    RunKeepsInv(INIT, run);
    assert Agrees(Final(INIT, run), c, t);
    hide MakeMessage;
  }

  // ----- what the connections asked for

  /** Whether the last thing that a connection asked for with respect to a topic, or its going down, leaves it
      subscribed. */
  function Wants(now: bool, run: seq<Action>, c: Conn, t: Name): bool
    decreases |run|
  {
    if run == [] then now
    else
      var a := run[0];
      var next := if a.Do? && a.c == c && a.command == Sub(t) then true
                  else if a.Do? && a.c == c && a.command == Unsub(t) then false
                  else if a == Disconnected(c) then false
                  else now;
      Wants(next, run[1..], c, t)
  }

  /** The content and the time of the last publication on a topic. */
  function Latest(now: (Text, int), run: seq<Action>, t: Name): (Text, int)
    decreases |run|
  {
    if run == [] then now
    else
      var a := run[0];
      Latest(if a.Do? && a.command.Pub? && a.command.topic == t then (a.command.content, a.time) else now, run[1..], t)
  }

  function PublishedOn(s: State, t: Name): (Text, int) { (TopicOf(s.topics, t).content, TopicOf(s.topics, t).lastPubTime) }

  lemma StepObeys(s: State, a: Action, c: Conn, t: Name)
    requires Inv(s) && Enabled(s, a)
    ensures var s' := Step(s, a);
            && (Subscribed(s', c, t) <==> Wants(Subscribed(s, c, t), [a], c, t))
            && PublishedOn(s', t) == Latest(PublishedOn(s, t), [a], t)
            && (c in s'.up <==> a == Connected(c) || (c in s.up && a != Disconnected(c)))
            && (c in s'.closing <==> a == ShutDown(c) || c in s.closing)
  {
    assert [a][1..] == [];
    hide Sent, MakeMessage, LastSent;
  }

  lemma {:induction false} RunObeys(s: State, run: seq<Action>, c: Conn, t: Name)
    requires Inv(s) && IsRun(s, run)
    ensures var e := Final(s, run);
            && (Subscribed(e, c, t) <==> Wants(Subscribed(s, c, t), run, c, t))
            && PublishedOn(e, t) == Latest(PublishedOn(s, t), run, t)
            && (c in e.closing <==> c in s.closing || ShutDown(c) in run)
    decreases |run|
  {
    if run != [] {
      StepKeepsInv(s, run[0]);
      StepObeys(s, run[0], c, t);
      RunObeys(Step(s, run[0]), run[1..], c, t);
      assert run == [run[0]] + run[1..] && [run[0]][1..] == [];
    }
    hide Inv, Step, Enabled, Subscribed, PublishedOn;
  }

  /** After any run, a connection subscribes to a topic exactly if the last thing it asked for, while up, was to
      subscribe; a topic has the content of the last publication on it; and a connection has been shut down
      exactly if that happened in the run. */
  lemma HubDoesAsAsked(run: seq<Action>, c: Conn, t: Name)
    requires IsRun(INIT, run)
    ensures var s := Final(INIT, run);
            && (Subscribed(s, c, t) <==> Wants(false, run, c, t))
            && PublishedOn(s, t) == Latest(([], 0), run, t)
            && (c in s.closing <==> ShutDown(c) in run)
  {
    RunObeys(INIT, run, c, t);
  }

  // ----- the latest content

  lemma NulFreeParts(a: Text, b: Text)
    ensures NulFree(a + b) <==> NulFree(a) && NulFree(b)
  {
  }

  /** A message is sent whole exactly if neither topic nor content has a NUL in it. */
  lemma SentWhole(t: Name, content: Text)
    ensures MakeMessage(t, content).text == Encode(Pub(t, content)) <==> NulFree(t) && NulFree(content)
    ensures NulFree(MakeMessage(t, content).text)
  {
    var head, mid := PUB + [' '], PUB + [' '] + t;
    assert NulFree(head) && NulFree(CRLF);
    NulFreeParts(head, t);
    NulFreeParts(mid, CRLF);
    NulFreeParts(mid + CRLF, content);
    NulFreeParts(mid + CRLF + content, CRLF);
    CStrIsIdentity(Encode(Pub(t, content)));
    hide NulFree, CStr;
  }

  /** Something has been added behind, and nothing of it has a NUL. */
  predicate Grows(sent: seq<Message>, sent': seq<Message>) {
    sent <= sent' && forall i :: |sent| <= i < |sent'| ==> NulFree(sent'[i].text)
  }

  lemma SentGrows(outbox: map<Conn, seq<Message>>, to: set<Conn>, t: Name, content: Text, c: Conn)
    requires c in outbox
    ensures var outbox' := Sent(outbox, to, MakeMessage(t, content));
            Grows(outbox[c], outbox'[c]) && (c !in to ==> outbox'[c] == outbox[c])
  {
    SentWhole(t, content);
    hide MakeMessage, NulFree;
  }

  lemma StepGrows(s: State, a: Action, c: Conn)
    requires Inv(s) && Enabled(s, a) && c in s.subs
    ensures var s' := Step(s, a);
            && c in s.outbox && c in s'.outbox && c in s'.subs && Grows(s.outbox[c], s'.outbox[c])
            && (c in s.closing ==> c in s'.closing && s'.outbox[c] == s.outbox[c])
  {
    hide MakeMessage, NulFree, Sent;
    if a.Do? && a.command.Pub? {
      SentGrows(s.outbox, TopicOf(s.topics, a.command.topic).audience - s.closing, a.command.topic, a.command.content, c);
      SentKeys(s.outbox, TopicOf(s.topics, a.command.topic).audience - s.closing, MakeMessage(a.command.topic, a.command.content));
    } else if a.Do? && a.command.Sub? {
      SentGrows(s.outbox, {a.c} - s.closing, a.command.topic, TopicOf(s.topics, a.command.topic).content, c);
      SentKeys(s.outbox, {a.c} - s.closing, MakeMessage(a.command.topic, TopicOf(s.topics, a.command.topic).content));
    }
  }

  lemma SentKeys(outbox: map<Conn, seq<Message>>, to: set<Conn>, m: Message)
    ensures Sent(outbox, to, m).Keys == outbox.Keys
  {
  }

  lemma {:induction false} RunGrows(s: State, run: seq<Action>, c: Conn)
    requires Inv(s) && IsRun(s, run) && c in s.subs
    ensures var e := Final(s, run);
            && c in s.outbox && c in e.outbox && Grows(s.outbox[c], e.outbox[c])
            && (c in s.closing ==> e.outbox[c] == s.outbox[c])
    decreases |run|
  {
    hide Inv, Step, Enabled, NulFree;
    if run != [] {
      StepKeepsInv(s, run[0]);
      StepGrows(s, run[0], c);
      RunGrows(Step(s, run[0]), run[1..], c);
    } else {
      OutboxIsKnown(s, c);
    }
  }

  lemma OutboxIsKnown(s: State, c: Conn)
    requires Inv(s) && c in s.subs
    ensures c in s.outbox
  {
  }

  /** The step gives the topic's latest content to send, for this connection: a publication that finds it
      subscribed, or its own subscription to a topic that has been published. */
  predicate Announces(s: State, a: Action, c: Conn, t: Name) {
    a.Do? && match a.command
             case Pub(x, _) => x == t && Subscribed(s, c, t)
             case Sub(x) => x == t && a.c == c && TopicOf(s.topics, t).lastPubTime > 0
             case Unsub(_) => false
  }

  lemma AnnouncementIsSent(s: State, a: Action, c: Conn, t: Name)
    requires Inv(s) && Enabled(s, a) && Announces(s, a, c, t) && c in s.subs
    ensures var s' := Step(s, a);
            && c in s.outbox && c in s'.outbox && t in s'.topics
            && s'.outbox[c] == s.outbox[c] + if c in s.closing then [] else [MakeMessage(t, s'.topics[t].content)]
  {
    assert Agrees(s, c, t);
    hide MakeMessage;
  }

  /** Whatever happens before and after, the latest content of a topic has been sent whole to the connection,
      since it was given to send, exactly if the connection had not been shut down before and neither
      topic nor content has a NUL in it. */
  lemma LatestContentIsSent(run: seq<Action>, a: Action, more: seq<Action>, c: Conn, t: Name)
    requires IsRun(INIT, run) && Enabled(Final(INIT, run), a) && IsRun(Step(Final(INIT, run), a), more)
    requires c in Final(INIT, run).subs && Announces(Final(INIT, run), a, c, t)
    ensures var s := Final(INIT, run);
            var s' := Step(s, a);
            var e := Final(s', more);
            && c in s.outbox && c in e.outbox && t in s'.topics && |s.outbox[c]| <= |e.outbox[c]|
            && var content := s'.topics[t].content;
               (Message(t, Encode(Pub(t, content))) in e.outbox[c][|s.outbox[c]|..]
                <==> c !in s.closing && NulFree(t) && NulFree(content))
  {
    RunKeepsInv(INIT, run);
    var s := Final(INIT, run);
    StepKeepsInv(s, a);
    var s' := Step(s, a);
    StepGrows(s, a, c);
    AnnouncementIsSent(s, a, c, t);
    RunGrows(s', more, c);
    var e := Final(s', more);
    var content := s'.topics[t].content;
    SentWhole(t, content);
    WholeMessageIsAmong(s.outbox[c], s'.outbox[c], e.outbox[c], c in s.closing, t, content);
  }

  lemma WholeMessageIsAmong(sent: seq<Message>, sent': seq<Message>, sent'': seq<Message>, silent: bool, t: Name, content: Text)
    requires Grows(sent', sent'') && (silent ==> sent'' == sent')
    requires sent' == sent + if silent then [] else [MakeMessage(t, content)]
    ensures Message(t, Encode(Pub(t, content))) in sent''[|sent|..] <==> !silent && NulFree(t) && NulFree(content)
  {
    SentWhole(t, content);
    var whole, rest := Message(t, Encode(Pub(t, content))), sent''[|sent|..];
    EncodingHasNul(t, content);
    hide MakeMessage, Encode, NulFree;
    if !silent {
      assert rest[0] == sent'[|sent|] == MakeMessage(t, content) && MakeMessage(t, content).topic == t;
      forall i | 0 <= i < |rest| ensures NulFree(rest[i].text) {
        assert rest[i] == sent''[|sent| + i];
      }
    }
  }

  lemma EncodingHasNul(t: Name, content: Text)
    ensures NulFree(Encode(Pub(t, content))) <==> NulFree(t) && NulFree(content)
    ensures MakeMessage(t, content).topic == t
  {
    SentWhole(t, content);
    CStrIsIdentity(Encode(Pub(t, content)));
    hide NulFree, CStr, Encode;
  }

  /** 0 subscribes and then sends a line that is no command, for which it is shut down; what 1 then publishes
      is not sent to 0, although 0 still subscribes. `SilencingBytes` gives the bytes they send. */
  lemma SilencedSubscriber()
    ensures var run := [Connected(0), Connected(1), Do(0, Sub("t"), 1), ShutDown(0), Do(1, Pub("t", "v"), 2)];
            && IsRun(INIT, run)
            && var s := Final(INIT, run); Subscribed(s, 0, "t") && 0 in s.outbox && s.outbox[0] == []
  {
    var run := [Connected(0), Connected(1), Do(0, Sub("t"), 1), ShutDown(0), Do(1, Pub("t", "v"), 2)];
    var s1 := Step(INIT, run[0]);
    var s2 := Step(s1, run[1]);
    var s3 := Step(s2, run[2]);
    var s4 := Step(s3, run[3]);
    var s5 := Step(s4, run[4]);
    assert s5.outbox[0] == [] && Subscribed(s5, 0, "t");
    hide Step;
    assert run[1..] == [run[1], run[2], run[3], run[4]];
    assert run[1..][1..] == [run[2], run[3], run[4]];
    assert run[1..][1..][1..] == [run[3], run[4]];
    assert run[1..][1..][1..][1..] == [run[4]];
    assert run[1..][1..][1..][1..][1..] == [];
    assert IsRun(s5, []) && Final(s5, []) == s5;
    assert IsRun(s4, [run[4]]) && Final(s4, [run[4]]) == s5;
    assert IsRun(s3, [run[3], run[4]]) && Final(s3, [run[3], run[4]]) == s5;
  }

  lemma SilencingBytes()
    ensures Handle(['s', 'u', 'b', ' '] + ['t'] + CRLF) == Outcome([Sub(['t'])], [], false)
    ensures Handle(['x'] + CRLF) == Outcome([], ['x'] + CRLF, true)
    ensures Handle(['p', 'u', 'b', ' '] + ['t'] + CRLF + ['v'] + CRLF) == Outcome([Pub(['t'], ['v'])], [], false)
  {
    WordIsNoCommand();
    assert !HasCRLF(['t']) && !HasCRLF(['v']);
    hide Handle, HasCRLF;
    Grammar(['t'], ['v']);
  }

  lemma WordIsNoCommand()
    ensures Handle(['x'] + CRLF) == Outcome([], ['x'] + CRLF, true)
  {
    var line: Text := ['x'];
    var s := line + CRLF + [];
    assert s == ['x'] + CRLF;
    FindCRLFAfter(line, []);
    assert s[..1] == line;
    FindAt(line, ' ', 1);
    hide FindCRLF, Find;
  }

  // ----- the server

  function ObeyAll(s: State, c: Conn, commands: seq<Command>, time: int): (r: State)
    requires c in s.subs
    ensures c in r.subs && r.up == s.up
    decreases |commands|
  {
    if commands == [] then s
    else
      var last := |commands| - 1;
      Obey(ObeyAll(s, c, commands[..last], time), c, commands[last], time)
  }

  /** The commands are carried out, and the connection is shut down if something was wrong. */
  function Received(s: State, c: Conn, o: Outcome, time: int): State
    requires c in s.subs
  {
    var s' := ObeyAll(s, c, o.commands, time);
    if o.shutdown then s'.(closing := s'.closing + {c}) else s'
  }

  lemma ObeyOneMore(s: State, c: Conn, commands: seq<Command>, command: Command, time: int)
    requires c in s.subs
    ensures ObeyAll(s, c, commands + [command], time) == Obey(ObeyAll(s, c, commands, time), c, command, time)
  {
    assert (commands + [command])[..|commands|] == commands;
  }

  lemma SentOneMore(outbox: map<Conn, seq<Message>>, to: set<Conn>, c: Conn, m: Message)
    requires c in outbox && c !in to
    ensures c in Sent(outbox, to, m) && Sent(outbox, to, m)[c := Sent(outbox, to, m)[c] + [m]] == Sent(outbox, to + {c}, m)
  {
  }

  lemma LeaveOneMore(s: State, c: Conn, names: set<Name>, t: Name)
    requires Inv(s) && c in s.subs && t in s.subs[c] && t !in names
    ensures Unsubscribe(Leave(s, c, names), c, t) == Leave(s, c, names + {t})
  {
    assert Agrees(s, c, t);
    hide Inv;
    var l, r := Unsubscribe(Leave(s, c, names), c, t), Leave(s, c, names + {t});
    assert l.topics == r.topics;
    assert s.subs[c] - names - {t} == s.subs[c] - (names + {t});
    assert l.subs == r.subs;
  }

  class PubSubServer {
    var topics: map<Name, Topic>
    var subs: map<Conn, set<Name>>
    ghost var up: set<Conn>
    ghost var closing: set<Conn>
    ghost var outbox: map<Conn, seq<Message>>

    ghost function Abs(): State
      reads this
    {
      State(topics, subs, up, closing, outbox)
    }

    ghost predicate Valid()
      reads this
    {
      Inv(Abs())
    }

    constructor ()
      ensures Valid() && Abs() == INIT
    {
      topics, subs, up, closing, outbox := map[], map[], {}, {}, map[];
    }

    /** getTopic, which makes the topic if it is not there. */
    method GetTopic(t: Name) returns (topic: Topic)
      modifies this`topics
      ensures topic == TopicOf(old(topics), t) && topics == old(topics)[t := topic]
    {
      if t !in topics {
        topics := topics[t := Topic("", 0, {})];
      }
      topic := topics[t];
    }

    method DoSubscribe(c: Conn, t: Name)
      requires Valid() && c in up && c in subs
      modifies this
      ensures Valid() && Abs() == Subscribe(old(Abs()), c, t)
    {
      SubscribeKeepsInv(Abs(), c, t);
      ghost var target := Subscribe(Abs(), c, t);
      hide Inv;
      subs := subs[c := subs[c] + {t}];
      var topic := GetTopic(t);
      topics := topics[t := topic.(audience := topic.audience + {c})];
      if topic.lastPubTime > 0 {
        outbox := Sent(outbox, {c} - closing, MakeMessage(t, topic.content));
      }
      assert topics == target.topics;
    }

    method DoUnsubscribe(c: Conn, t: Name)
      requires Valid() && c in subs
      modifies this
      ensures Valid() && Abs() == Unsubscribe(old(Abs()), c, t)
    {
      UnsubscribeKeepsInv(Abs(), c, t);
      ghost var target := Unsubscribe(Abs(), c, t);
      hide Inv;
      var topic := GetTopic(t);
      topics := topics[t := topic.(audience := topic.audience - {c})];
      subs := subs[c := subs[c] - {t}];
      assert topics == target.topics;
    }

    /** Gives a message to each of an audience; the connections that are shut down drop it. */
    method SendAll(audience: set<Conn>, ghost m: Message)
      requires audience <= outbox.Keys
      modifies this`outbox
      ensures outbox == Sent(old(outbox), audience - closing, m)
    {
      var todo := audience;
      ghost var done := {};
      assert outbox == Sent(outbox, done - closing, m);
      while todo != {}
        invariant done + todo == audience && done !! todo
        invariant outbox == Sent(old(outbox), done - closing, m)
      {
        var c :| c in todo;
        if c !in closing {
          SentOneMore(old(outbox), done - closing, c, m);
          outbox := outbox[c := outbox[c] + [m]];
        }
        assert done + {c} - closing == if c in closing then done - closing else done - closing + {c};
        done, todo := done + {c}, todo - {c};
      }
      assert done == audience;
    }

    method DoPublish(t: Name, content: Text, time: int)
      requires Valid()
      modifies this
      ensures Valid() && Abs() == Publish(old(Abs()), t, content, time)
    {
      PublishKeepsInv(Abs(), t, content, time);
      forall c | c in TopicOf(topics, t).audience ensures c in outbox {
        assert Agrees(Abs(), c, t);
      }
      ghost var target := Publish(Abs(), t, content, time);
      hide Inv, Sent, MakeMessage;
      var topic := GetTopic(t);
      topics := topics[t := Topic(content, time, topic.audience)];
      SendAll(topic.audience, MakeMessage(t, content));
      assert topics == target.topics;
    }

    method OnConnection(c: Conn, connected: bool)
      requires Valid() && Enabled(Abs(), if connected then Connected(c) else Disconnected(c))
      modifies this
      ensures Valid() && Abs() == Step(old(Abs()), if connected then Connected(c) else Disconnected(c))
    {
      if connected {
        ConnectKeepsInv(Abs(), c);
        hide Inv;
        subs, up, outbox := subs[c := {}], up + {c}, outbox[c := []];
      } else {
        HangUpKeepsInv(Abs(), c);
        LeaveAll(c);
        hide Inv, Leave;
        up := up - {c};
      }
    }

    /** The loop that unsubscribes from one topic after the other. */
    method LeaveAll(c: Conn)
      requires Valid() && c in subs
      modifies this
      ensures Abs() == Leave(old(Abs()), c, old(subs[c]))
    {
      ghost var s, done := Abs(), {};
      LeaveNothing(s, c);
      hide Inv;
      while subs[c] != {}
        invariant Valid() && c in subs && c in s.subs && done <= s.subs[c]
        invariant Abs() == Leave(s, c, done)
        decreases |subs[c]|
      {
        var t :| t in subs[c];
        LeaveOneMore(s, c, done, t);
        DoUnsubscribe(c, t);
        done := done + {t};
      }
      assert done == s.subs[c];
    }

    method Execute(c: Conn, command: Command, time: int)
      requires Valid() && c in up && c in subs
      modifies this
      ensures Valid() && Abs() == Obey(old(Abs()), c, command, time)
    {
      hide Inv, Publish, Subscribe, Unsubscribe;
      match command {
        case Pub(t, content) => DoPublish(t, content, time);
        case Sub(t) => DoSubscribe(c, t);
        case Unsub(t) => DoUnsubscribe(c, t);
      }
    }

    /** One round of onMessage. */
    method HandleOne(c: Conn, buf: Buffers.Buffer, time: int) returns (command: Option<Command>, shutdown: bool)
      requires Valid() && c in up && c in subs && buf.Valid()
      modifies this, buf
      ensures Valid() && buf.Valid()
      ensures match command
              case Some(x) =>
                && Abs() == Obey(old(Abs()), c, x, time) && |buf.Content()| < old(|buf.Content()|)
                && Handle(old(buf.Content())) == After(x, Handle(buf.Content()))
              case None => Abs() == old(Abs()) && Handle(old(buf.Content())) == Outcome([], buf.Content(), shutdown)
    {
      HandleUnfolds(buf.Content());
      hide Inv, Handle, Parse, Obey, AsCommand, After;
      var r := ParseMessage(buf);
      command := if r.Success? then AsCommand(r.cmd, r.topic, r.content) else None;
      shutdown := command.None? && !r.Continue?;
      if command.Some? {
        Execute(c, command.value, time);
      }
    }

    /** onMessage; conn->shutdown() comes last. */
    method OnMessage(c: Conn, buf: Buffers.Buffer, time: int) returns (shutdown: bool)
      requires Valid() && c in up && c in subs && buf.Valid()
      modifies this, buf
      ensures Valid() && buf.Valid()
      ensures Abs() == Received(old(Abs()), c, Handle(old(buf.Content())), time)
      ensures buf.Content() == Handle(old(buf.Content())).rest && shutdown == Handle(old(buf.Content())).shutdown
    {
      hide Inv, Handle, ObeyAll;
      shutdown := ObeyMessages(c, buf, time);
      if shutdown {
        ShutDownKeepsInv(Abs(), c);
        closing := closing + {c};
      }
    }

    /** Parses and carries out commands until the buffer holds no complete one or something is wrong. */
    method ObeyMessages(c: Conn, buf: Buffers.Buffer, time: int) returns (shutdown: bool)
      requires Valid() && c in up && c in subs && buf.Valid()
      modifies this, buf
      ensures Valid() && buf.Valid()
      ensures Abs() == ObeyAll(old(Abs()), c, Handle(old(buf.Content())).commands, time)
      ensures buf.Content() == Handle(old(buf.Content())).rest && shutdown == Handle(old(buf.Content())).shutdown
    {
      ghost var s, whole, done := Abs(), Handle(buf.Content()), [];
      FirstRound(s, c, time, whole);
      hide Inv, Handle, Obey, ObeyAll, After, Joined, SoFar;
      var command;
      command, shutdown := HandleOne(c, buf, time);
      NextRound(s, c, time, whole, done, s, whole, command, Abs(), Handle(buf.Content()), buf.Content(), shutdown);
      while command.Some?
        invariant Valid() && buf.Valid() && c in s.subs && c in s.up && c in subs && c in up
        invariant command.Some? ==> SoFar(s, c, time, whole, done + [command.value], Abs(), Handle(buf.Content()))
        invariant command.None? ==> Abs() == ObeyAll(s, c, done, time) && whole == Outcome(done, buf.Content(), shutdown)
        decreases command.Some?, |buf.Content()|
      {
        done := done + [command.value];
        ghost var st, o := Abs(), Handle(buf.Content());
        command, shutdown := HandleOne(c, buf, time);
        NextRound(s, c, time, whole, done, st, o, command, Abs(), Handle(buf.Content()), buf.Content(), shutdown);
      }
    }
  }

  /** The commands done so far have led to a state, and the bytes that are left hold the others. */
  ghost predicate SoFar(s: State, c: Conn, time: int, whole: Outcome, done: seq<Command>, st: State, o: Outcome) {
    c in s.subs && st == ObeyAll(s, c, done, time) && whole == Joined(done, o)
  }

  lemma FirstRound(s: State, c: Conn, time: int, whole: Outcome)
    requires c in s.subs
    ensures SoFar(s, c, time, whole, [], s, whole)
  {
  }

  lemma NextRound(s: State, c: Conn, time: int, whole: Outcome, done: seq<Command>, st: State, o: Outcome,
                  command: Option<Command>, st': State, o': Outcome, rest: Text, shutdown: bool)
    requires SoFar(s, c, time, whole, done, st, o) && c in st.subs
    requires match command
             case Some(x) => st' == Obey(st, c, x, time) && o == After(x, o')
             case None => st' == st && o == Outcome([], rest, shutdown)
    ensures command.Some? ==> SoFar(s, c, time, whole, done + [command.value], st', o') && c in st'.subs && st'.up == s.up
    ensures command.None? ==> st' == ObeyAll(s, c, done, time) && whole == Outcome(done, rest, shutdown) && st'.up == s.up
  {
    if command.Some? {
      ObeyOneMore(s, c, done, command.value, time);
      AfterJoined(done, command.value, o');
      hide Obey, After, Joined;
    } else {
      hide ObeyAll, Obey;
    }
  }

  function Joined(done: seq<Command>, o: Outcome): Outcome {
    o.(commands := done + o.commands)
  }

  lemma AfterJoined(done: seq<Command>, c: Command, o: Outcome)
    ensures Joined(done, After(c, o)) == Joined(done + [c], o)
  {
    assert done + ([c] + o.commands) == done + [c] + o.commands;
  }

  lemma HandleUnfolds(s: Text)
    ensures match Parse(s)
            case Continue => Handle(s) == Outcome([], s, false)
            case Error => Handle(s) == Outcome([], s, true)
            case Success(cmd, topic, content, rest) =>
              var c := AsCommand(cmd, topic, content);
              Handle(s) == if c.Some? then After(c.value, Handle(rest)) else Outcome([], rest, true)
  {
  }

  lemma LeaveNothing(s: State, c: Conn)
    requires c in s.subs
    ensures Leave(s, c, {}) == s
  {
    var l := Leave(s, c, {});
    assert l.topics == s.topics && s.subs[c] - {} == s.subs[c] && l.subs == s.subs;
  }
}
