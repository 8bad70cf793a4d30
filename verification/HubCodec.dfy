/** The hub's line protocol: a command and a topic on one line, and for pub the content on the next. */
module HubCodec {
  import opened Bytes
  import opened Buffers
  import opened Wrappers

  const PUB: Text := "pub"
  const SUB: Text := "sub"
  const UNSUB: Text := "unsub"

  datatype Parsed = Error | Continue | Success(cmd: Text, topic: Text, content: Text, rest: Text)

  function Parse(s: Text): (r: Parsed)
    ensures r.Success? ==> |r.rest| < |s|
  {
    var crlf := FindCRLF(s);
    if crlf < 0 then Continue
    else
      var space := Find(s[..crlf], ' ');
      if space == crlf then Error else Cut(s[..space], s[space + 1..crlf], s[crlf + 2..])
  }

  /** A line whose command and topic have been found, and what follows it. */
  function Cut(cmd: Text, topic: Text, rest: Text): (r: Parsed)
    ensures r.Success? ==> |r.rest| <= |rest| && r.topic == topic
  {
    if cmd == PUB then
      var end := FindCRLF(rest);
      if end < 0 then Continue else Success(cmd, topic, rest[..end], rest[end + 2..])
    else Success(cmd, topic, [], rest)
  }

  method ParseMessage(buf: Buffer) returns (result: Parsed)
    requires buf.Valid()
    modifies buf
    ensures buf.Valid() && result == Parse(old(buf.Content()))
    ensures buf.Content() == if result.Success? then result.rest else old(buf.Content())
  {
    var bytes := buf.Content();
    var crlf := FindCRLF(bytes);
    if crlf < 0 {
      return Continue;
    }
    var space := Find(bytes[..crlf], ' ');
    if space == crlf {
      return Error;
    }
    result := ParseContent(bytes[..space], bytes[space + 1..crlf], bytes, crlf + 2);
    hide FindCRLF, Find, Cut;
    if result.Success? {
      buf.Retrieve(|bytes| - |result.rest|);
    }
  }

  /** The content of a pub, from `start` on. */
  method ParseContent(cmd: Text, topic: Text, bytes: Text, start: nat) returns (result: Parsed)
    requires start <= |bytes|
    ensures result == Cut(cmd, topic, bytes[start..])
    ensures result.Success? ==> |result.rest| <= |bytes| && result.rest == bytes[|bytes| - |result.rest|..]
  {
    hide FindCRLF;
    if cmd == PUB {
      var end := FindCRLF(bytes[start..]);
      result := if end < 0 then Continue else Success(cmd, topic, bytes[start..][..end], bytes[start..][end + 2..]);
    } else {
      result := Success(cmd, topic, [], bytes[start..]);
    }
  }

  // ----- commands

  datatype Command = Pub(topic: Text, content: Text) | Sub(topic: Text) | Unsub(topic: Text)

  /** makeMessage, and the lines that the server understands. */
  function Encode(c: Command): Text {
    match c
    case Pub(topic, content) => PUB + [' '] + topic + CRLF + content + CRLF
    case Sub(topic) => SUB + [' '] + topic + CRLF
    case Unsub(topic) => UNSUB + [' '] + topic + CRLF
  }

  function AsParsed(c: Command, rest: Text): Parsed {
    match c
    case Pub(topic, content) => Success(PUB, topic, content, rest)
    case Sub(topic) => Success(SUB, topic, [], rest)
    case Unsub(topic) => Success(UNSUB, topic, [], rest)
  }

  ghost predicate IsPlain(c: Command) {
    !HasCRLF(c.topic) && (c.Pub? ==> !HasCRLF(c.content))
  }

  function Word(c: Command): Text {
    match c
    case Pub(_, _) => PUB
    case Sub(_) => SUB
    case Unsub(_) => UNSUB
  }

  lemma NoCRLFInHead(word: Text, topic: Text)
    requires '\r' !in word && '\n' !in word
    ensures HasCRLF(word + [' '] + topic) <==> HasCRLF(topic)
  {
    var head := word + [' '] + topic;
    assert forall i :: 0 <= i < |word| ==> head[i] == word[i] && head[i] in word;
    forall i | IsCRLFAt(topic, i) ensures IsCRLFAt(head, |word| + 1 + i) {
    }
    forall i | IsCRLFAt(head, i) ensures IsCRLFAt(topic, i - |word| - 1) {
    }
  }

  /** The first line of a command: parsed as it was made exactly if its topic has no CRLF. */
  lemma HeadIsFound(word: Text, topic: Text, rest: Text)
    requires '\r' !in word && '\n' !in word && ' ' !in word
    ensures var s := word + [' '] + topic + CRLF + rest;
            && 0 <= FindCRLF(s) <= |word| + 1 + |topic|
            && (FindCRLF(s) == |word| + 1 + |topic| <==> !HasCRLF(topic))
            && FindCRLF(s) > |word| && Find(s[..FindCRLF(s)], ' ') == |word|
  {
    var head := word + [' '] + topic;
    var s := head + CRLF + rest;
    NoCRLFInHead(word, topic);
    var r := FindCRLF(s);
    assert IsCRLFAt(s, |head|);
    if !HasCRLF(topic) {
      FindCRLFAfter(head, rest);
    } else {
      var i :| IsCRLFAt(head, i);
      assert IsCRLFAt(s, i);
    }
    assert r > |word| by {
      assert forall i :: 0 <= i < |word| ==> s[i] == word[i] && s[i] in word;
      assert s[|word|] == ' ';
    }
    assert s[..r][..|word|] == word;
    FindAt(s[..r], ' ', |word|);
  }

  lemma ContentIsFound(content: Text, rest: Text)
    ensures var s := content + CRLF + rest;
            0 <= FindCRLF(s) <= |content| && (FindCRLF(s) == |content| <==> !HasCRLF(content))
  {
    var s := content + CRLF + rest;
    assert IsCRLFAt(s, |content|);
    if !HasCRLF(content) {
      FindCRLFAfter(content, rest);
    } else {
      var i :| IsCRLFAt(content, i);
      assert IsCRLFAt(s, i);
    }
  }

  lemma ParseLine(word: Text, topic: Text, tail: Text)
    requires '\r' !in word && '\n' !in word && ' ' !in word
    ensures var r := Parse(word + [' '] + topic + CRLF + tail);
            if HasCRLF(topic) then r.Success? ==> |r.topic| < |topic| else r == Cut(word, topic, tail)
  {
    var s := word + [' '] + topic + CRLF + tail;
    HeadIsFound(word, topic, tail);
    hide HasCRLF, FindCRLF, Find, Cut;
    var crlf := FindCRLF(s);
    assert s[..|word|] == word;
    if !HasCRLF(topic) {
      assert s[|word| + 1..crlf] == topic && s[crlf + 2..] == tail;
    }
  }

  /** parseMessage inverts makeMessage exactly for topics and contents without CRLF. */
  lemma ParseEncoded(c: Command, rest: Text)
    ensures Parse(Encode(c) + rest) == AsParsed(c, rest) <==> IsPlain(c)
  {
    var tail := if c.Pub? then c.content + CRLF + rest else rest;
    assert Encode(c) + rest == Word(c) + [' '] + c.topic + CRLF + tail;
    ParseLine(Word(c), c.topic, tail);
    hide Parse, HasCRLF, Encode;
    if c.Pub? {
      ContentIsFound(c.content, rest);
      assert tail[..|c.content|] == c.content && tail[|c.content| + 2..] == rest;
    }
  }

  // ----- the stream of commands

  function AsCommand(cmd: Text, topic: Text, content: Text): Option<Command> {
    if cmd == PUB then Some(Pub(topic, content))
    else if cmd == SUB then Some(Sub(topic))
    else if cmd == UNSUB then Some(Unsub(topic))
    else None
  }

  /** What onMessage does with the bytes in the buffer: the commands it carries out, the bytes it leaves,
      and whether it shuts the connection down. */
  datatype Outcome = Outcome(commands: seq<Command>, rest: Text, shutdown: bool)

  function Handle(s: Text): Outcome
    decreases |s|
  {
    match Parse(s)
    case Continue => Outcome([], s, false)
    case Error => Outcome([], s, true)
    case Success(cmd, topic, content, rest) =>
      match AsCommand(cmd, topic, content)
      case None => Outcome([], rest, true)
      case Some(c) => After(c, Handle(rest))
  }

  function After(c: Command, o: Outcome): Outcome {
    o.(commands := [c] + o.commands)
  }

  /** A chunk arrives. */
  function Receive(o: Outcome, chunk: Text): Outcome {
    var h := Handle(o.rest + chunk);
    Outcome(o.commands + h.commands, h.rest, o.shutdown || h.shutdown)
  }

  /** Chunks arrive, until the connection is shut down. */
  function ReceiveAll(o: Outcome, chunks: seq<Text>): Outcome
    decreases |chunks|
  {
    if chunks == [] || o.shutdown then o else ReceiveAll(Receive(o, chunks[0]), chunks[1..])
  }

  lemma CutStable(cmd: Text, topic: Text, rest: Text, more: Text)
    ensures var r := Cut(cmd, topic, rest);
            r.Success? ==> Cut(cmd, topic, rest + more) == r.(rest := r.rest + more)
  {
    var end := FindCRLF(rest);
    if cmd == PUB && end >= 0 {
      FindCRLFStable(rest, more);
      assert (rest + more)[..end] == rest[..end] && (rest + more)[end + 2..] == rest[end + 2..] + more;
    }
  }

  /** A verdict stands, whatever arrives later. */
  lemma ParseStable(s: Text, more: Text)
    ensures Parse(s).Success? ==> Parse(s + more) == Parse(s).(rest := Parse(s).rest + more)
    ensures Parse(s).Error? ==> Parse(s + more).Error?
  {
    var crlf := FindCRLF(s);
    if crlf >= 0 {
      FindCRLFStable(s, more);
      assert (s + more)[..crlf] == s[..crlf];
      var space := Find(s[..crlf], ' ');
      hide FindCRLF, Find, Cut;
      if space < crlf {
        var cmd, topic, rest := s[..space], s[space + 1..crlf], s[crlf + 2..];
        assert (s + more)[..space] == cmd && (s + more)[space + 1..crlf] == topic && (s + more)[crlf + 2..] == rest + more;
        CutStable(cmd, topic, rest, more);
      }
    }
  }

  lemma {:induction false} HandleResumes(s: Text, more: Text)
    ensures Handle(s + more) ==
            if Handle(s).shutdown then Handle(s).(rest := Handle(s).rest + more) else Receive(Handle(s), more)
    decreases |s|
  {
    ParseStable(s, more);
    hide Parse;
    match Parse(s)
    case Continue =>
    case Error =>
    case Success(cmd, topic, content, rest) =>
      HandleResumes(rest, more);
      var c := AsCommand(cmd, topic, content);
      hide AsCommand;
      if c.Some? {
        AfterReceive(c.value, Handle(rest), more);
      }
  }

  lemma AfterReceive(c: Command, o: Outcome, more: Text)
    ensures After(c, Receive(o, more)) == Receive(After(c, o), more)
  {
    var h := Handle(o.rest + more);
    hide Handle;
    assert [c] + (o.commands + h.commands) == [c] + o.commands + h.commands;
  }

  /** Up to the first error the cutting of the stream does not matter: the same commands are carried
      out and the connection is shut down alike, and if it is not, the same bytes are left over. */
  lemma {:induction false} ChunkIndependent(s: Text, chunks: seq<Text>)
    ensures var o, whole := ReceiveAll(Handle(s), chunks), Handle(s + Concat(chunks));
            o.commands == whole.commands && o.shutdown == whole.shutdown && (!o.shutdown ==> o.rest == whole.rest)
    decreases |chunks|
  {
    hide Handle;
    HandleResumes(s, Concat(chunks));
    if chunks == [] {
      assert s + Concat(chunks) == s;
    } else if !Handle(s).shutdown {
      HandleResumes(s, chunks[0]);
      ChunkIndependent(s + chunks[0], chunks[1..]);
      assert s + chunks[0] + Concat(chunks[1..]) == s + Concat(chunks);
    }
  }

  /** After an error the server goes on reading. What it then does depends on the cutting exactly if
      a complete command follows the offending line, which only an unknown command lets through. */
  lemma AfterError(s: Text, more: Text)
    requires Handle(s).shutdown
    ensures Receive(Handle(s), more) == Handle(s + more) <==> !Parse(Handle(s).rest + more).Success?
  {
    HandleResumes(s, more);
    HandleShrinks(Handle(s).rest + more);
    hide Parse;
  }

  lemma {:induction false} HandleShrinks(s: Text)
    ensures |Handle(s).rest| <= |s| && (Parse(s).Success? ==> |Handle(s).rest| < |s|)
    decreases |s|
  {
    hide Parse;
    if Parse(s).Success? {
      HandleShrinks(Parse(s).rest);
    }
  }

  function EncodeAll(cs: seq<Command>): Text {
    if cs == [] then [] else Encode(cs[0]) + EncodeAll(cs[1..])
  }

  lemma HandlesFirst(c: Command, rest: Text)
    requires IsPlain(c)
    ensures Handle(Encode(c) + rest) == After(c, Handle(rest))
  {
    ParseEncoded(c, rest);
    hide IsPlain, Encode, Parse;
  }

  lemma {:induction false} HandleEncoded(cs: seq<Command>, tail: Text)
    requires forall i :: 0 <= i < |cs| ==> IsPlain(cs[i])
    ensures Handle(EncodeAll(cs) + tail) == Handle(tail).(commands := cs + Handle(tail).commands)
  {
    hide IsPlain, Encode, Handle, Parse;
    if cs == [] {
      assert EncodeAll(cs) + tail == tail;
    } else {
      var rest, o := EncodeAll(cs[1..]) + tail, Handle(tail);
      assert EncodeAll(cs) + tail == Encode(cs[0]) + rest;
      HandlesFirst(cs[0], rest);
      HandleEncoded(cs[1..], tail);
      assert [cs[0]] + (cs[1..] + o.commands) == cs + o.commands;
    }
  }

  /** Commands whose topics and contents have no CRLF arrive as they were sent, however the stream is cut. */
  lemma StreamRoundTrip(cs: seq<Command>, chunks: seq<Text>)
    requires (forall i :: 0 <= i < |cs| ==> IsPlain(cs[i])) && Concat(chunks) == EncodeAll(cs)
    ensures ReceiveAll(Outcome([], [], false), chunks) == Outcome(cs, [], false)
  {
    assert Handle([]) == Outcome([], [], false);
    HandleEncoded(cs, []);
    assert EncodeAll(cs) + [] == EncodeAll(cs) && [] + Concat(chunks) == Concat(chunks);
    ChunkIndependent([], chunks);
    hide Handle, ReceiveAll;
  }

  lemma OneCommand(c: Command)
    requires IsPlain(c)
    ensures Handle(Encode(c)) == Outcome([c], [], false)
  {
    HandlesFirst(c, []);
    assert Encode(c) + [] == Encode(c) && Handle([]) == Outcome([], [], false);
    hide Handle, Encode, IsPlain;
  }

  /** The grammar, byte by byte. */
  lemma Grammar(topic: Text, content: Text)
    requires !HasCRLF(topic) && !HasCRLF(content)
    ensures Handle(['s', 'u', 'b', ' '] + topic + CRLF) == Outcome([Sub(topic)], [], false)
    ensures Handle(['u', 'n', 's', 'u', 'b', ' '] + topic + CRLF) == Outcome([Unsub(topic)], [], false)
    ensures Handle(['p', 'u', 'b', ' '] + topic + CRLF + content + CRLF) == Outcome([Pub(topic, content)], [], false)
  {
    OneCommand(Sub(topic));
    OneCommand(Unsub(topic));
    OneCommand(Pub(topic, content));
    assert SUB + [' '] == ['s', 'u', 'b', ' '] && UNSUB + [' '] == ['u', 'n', 's', 'u', 'b', ' '] && PUB + [' '] == ['p', 'u', 'b', ' '];
    hide Handle, HasCRLF;
  }

  /** What is refused. A line without a blank shuts the connection down and stays in the buffer; a line with an
      unknown word in front of its first blank shuts it down and is taken out. */
  lemma Refusals(line: Text, word: Text, topic: Text, rest: Text)
    requires !HasCRLF(line) && !HasCRLF(topic) && '\r' !in word && '\n' !in word && ' ' !in word
    ensures ' ' !in line ==> Handle(line + CRLF + rest) == Outcome([], line + CRLF + rest, true)
    ensures word != ['p', 'u', 'b'] && word != ['s', 'u', 'b'] && word != ['u', 'n', 's', 'u', 'b'] ==>
              Handle(word + [' '] + topic + CRLF + rest) == Outcome([], rest, true)
  {
    if ' ' !in line {
      FindCRLFAfter(line, rest);
      assert (line + CRLF + rest)[..|line|] == line;
      FindAt(line, ' ', |line|);
    }
    ParseLine(word, topic, rest);
    assert PUB == ['p', 'u', 'b'] && SUB == ['s', 'u', 'b'] && UNSUB == ['u', 'n', 's', 'u', 'b'];
    hide HasCRLF, FindCRLF, Find;
  }
}
