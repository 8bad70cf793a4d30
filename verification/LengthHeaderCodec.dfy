/** The chat codec: a message travels behind its length, a 32-bit big-endian integer. */
module LengthHeaderCodec {
  import opened Bytes
  import opened Buffers
  import TcpConnection

  const HEADER_LEN: nat := 4
  const MAX_LEN: nat := 65536

  /** What one call of onMessage does with the bytes it finds in the buffer. */
  datatype Delivery = Delivery(messages: seq<Text>, rest: Text, shutdown: bool)

  function Encode(message: Text): Text
    requires FitsSigned(|message|, HEADER_LEN)
  {
    EncodeInt(|message|, HEADER_LEN) + message
  }

  function Decode(s: Text): Delivery
    decreases |s|
  {
    if |s| < HEADER_LEN then Delivery([], s, false)
    else
      var len := DecodeInt(s[..HEADER_LEN]);
      if len > MAX_LEN || len < 0 then Delivery([], s, true)
      else if |s| >= len + HEADER_LEN then
        var d := Decode(s[HEADER_LEN + len..]);
        d.(messages := [s[HEADER_LEN..HEADER_LEN + len]] + d.messages)
      else Delivery([], s, false)
  }

  /** A connection: each chunk that arrives is appended to what is left over, and decoded. */
  function Receive(d: Delivery, chunk: Text): Delivery {
    var d' := Decode(d.rest + chunk);
    Delivery(d.messages + d'.messages, d'.rest, d.shutdown || d'.shutdown)
  }

  function ReceiveAll(d: Delivery, chunks: seq<Text>): Delivery
    decreases |chunks|
  {
    if chunks == [] then d else ReceiveAll(Receive(d, chunks[0]), chunks[1..])
  }

  // ----- chunk independence

  /** Decoding can stop anywhere and resume when more has arrived. */
  lemma {:induction false} DecodeResumes(s: Text, more: Text)
    ensures Decode(s + more) == Receive(Decode(s), more)
    decreases |s|
  {
    var t := s + more;
    if |s| >= HEADER_LEN {
      assert t[..HEADER_LEN] == s[..HEADER_LEN];
      var len := DecodeInt(s[..HEADER_LEN]);
      hide DecodeInt;
      if 0 <= len <= MAX_LEN && |s| >= len + HEADER_LEN {
        var m, r := s[HEADER_LEN..HEADER_LEN + len], s[HEADER_LEN + len..];
        DecodeResumes(r, more);
        assert t[HEADER_LEN..HEADER_LEN + len] == m && t[HEADER_LEN + len..] == r + more;
        MessageFirst(m, Decode(r), more);
      }
    }
  }

  lemma MessageFirst(m: Text, d: Delivery, more: Text)
    ensures var e := Receive(d, more);
            Receive(d.(messages := [m] + d.messages), more) == e.(messages := [m] + e.messages)
  {
    var e := Decode(d.rest + more);
    hide Decode;
    assert [m] + (d.messages + e.messages) == [m] + d.messages + e.messages;
  }

  /** However a stream is cut into chunks, the messages delivered, the bytes left over and whether
      the connection was shut down are the same as if it had arrived at once. */
  lemma {:induction false} ChunkIndependent(s: Text, chunks: seq<Text>)
    ensures ReceiveAll(Decode(s), chunks) == Decode(s + Concat(chunks))
    decreases |chunks|
  {
    hide Decode;
    if chunks == [] {
      assert s + Concat(chunks) == s;
    } else {
      DecodeResumes(s, chunks[0]);
      ChunkIndependent(s + chunks[0], chunks[1..]);
      assert s + chunks[0] + Concat(chunks[1..]) == s + Concat(chunks);
    }
  }

  // ----- round trip

  function EncodeAll(messages: seq<Text>): Text
    requires forall m :: m in messages ==> |m| <= MAX_LEN
  {
    if messages == [] then []
    else
      SizeFits(|messages[0]|);
      Encode(messages[0]) + EncodeAll(messages[1..])
  }

  lemma SizeFits(n: nat)
    requires n <= MAX_LEN
    ensures FitsSigned(n, HEADER_LEN)
  {
    assert Pow256(2) == 256 * Pow256(1) && Pow256(1) == 256;
    assert Pow256(HEADER_LEN) == 256 * Pow256(3) && Pow256(3) == 256 * Pow256(2);
  }

  lemma DecodeEncoded(m: Text, rest: Text)
    requires FitsSigned(|m|, HEADER_LEN)
    ensures Decode(Encode(m) + rest) ==
            if |m| <= 65536 then Decode(rest).(messages := [m] + Decode(rest).messages)
            else Delivery([], Encode(m) + rest, true)
  {
    var s := Encode(m) + rest;
    assert s[..HEADER_LEN] == EncodeInt(|m|, HEADER_LEN);
    IntRoundTrip(|m|, HEADER_LEN);
    if |m| <= MAX_LEN {
      assert s[HEADER_LEN..HEADER_LEN + |m|] == m && s[HEADER_LEN + |m|..] == rest;
    }
  }

  /** The beginning of an encoding, cut off before its end. */
  predicate IsIncomplete(tail: Text, m: Text)
    requires |m| <= MAX_LEN
  {
    SizeFits(|m|);
    tail < Encode(m)
  }

  lemma IncompleteWaits(tail: Text, m: Text)
    requires |m| <= MAX_LEN && IsIncomplete(tail, m)
    ensures Decode(tail) == Delivery([], tail, false)
  {
    SizeFits(|m|);
    if |tail| >= HEADER_LEN {
      assert tail[..HEADER_LEN] == Encode(m)[..HEADER_LEN] == EncodeInt(|m|, HEADER_LEN);
      IntRoundTrip(|m|, HEADER_LEN);
    }
  }

  lemma {:induction false} DecodeAll(messages: seq<Text>, tail: Text, next: Text)
    requires forall m :: m in messages ==> |m| <= MAX_LEN
    requires |next| <= MAX_LEN && IsIncomplete(tail, next)
    ensures Decode(EncodeAll(messages) + tail) == Delivery(messages, tail, false)
    decreases |messages|
  {
    hide Decode, FitsSigned, Encode;
    if messages == [] {
      IncompleteWaits(tail, next);
      assert EncodeAll(messages) + tail == tail;
    } else {
      var m := messages[0];
      SizeFits(|m|);
      DecodeAll(messages[1..], tail, next);
      DecodeEncoded(m, EncodeAll(messages[1..]) + tail);
      assert EncodeAll(messages) + tail == Encode(m) + (EncodeAll(messages[1..]) + tail);
      assert messages == [m] + messages[1..];
    }
  }

  /** At any moment of the transfer: if what has arrived is `messages` and the beginning of one more,
      in chunks of any kind, then exactly `messages` were delivered, in order, and the buffer holds
      exactly the incomplete tail. */
  lemma CodecRoundTrip(messages: seq<Text>, tail: Text, next: Text, chunks: seq<Text>)
    requires forall m :: m in messages ==> |m| <= MAX_LEN
    requires |next| <= MAX_LEN && IsIncomplete(tail, next)
    requires Concat(chunks) == EncodeAll(messages) + tail
    ensures ReceiveAll(Delivery([], [], false), chunks) == Delivery(messages, tail, false)
  {
    assert Decode([]) == Delivery([], [], false);
    ChunkIndependent([], chunks);
    assert [] + Concat(chunks) == Concat(chunks);
    DecodeAll(messages, tail, next);
  }

  // ----- sending from another thread

  lemma HeaderStartsWithNul(n: nat)
    requires n <= MAX_LEN
    ensures EncodeNat(n, HEADER_LEN)[0] == '\0'
  {
    var a, b, c := n / 256, n / 256 / 256, n / 256 / 256 / 256;
    assert c == 0;
    assert EncodeNat(c, 1) == EncodeNat(c / 256, 0) + ['\0'];
    assert EncodeNat(b, 2) == EncodeNat(c, 1) + [(b % 256) as char];
    assert EncodeNat(a, 3) == EncodeNat(b, 2) + [(a % 256) as char];
    assert EncodeNat(n, HEADER_LEN) == EncodeNat(a, 3) + [(n % 256) as char];
  }

  /** Every message that the receiver would deliver has a header that starts with a NUL, so nothing of it is
      posted when it is sent from another thread; in the loop thread all of it reaches sendInLoop. */
  lemma LostOffTheLoop(code: TcpConnection.Code, s: TcpConnection.State, m: Text, result: TcpConnection.WriteResult)
    requires |m| <= MAX_LEN && s.phase == TcpConnection.Connected
    ensures FitsSigned(|m|, HEADER_LEN)
    ensures var a := TcpConnection.Send(false, Encode(m), result);
            TcpConnection.Enabled(s, a) ==> TcpConnection.Step(code, s, a).pending == s.pending + [TcpConnection.SendIt([])]
    ensures TcpConnection.Payload(s, TcpConnection.Send(true, Encode(m), result)) == Encode(m)
  {
    SizeFits(|m|);
    HeaderStartsWithNul(|m|);
    assert Encode(m)[0] == '\0';
    FindAt(Encode(m), '\0', 0);
  }

  // ----- the codec itself

  lemma DecodeTakes(s: Text, len: int)
    requires |s| >= HEADER_LEN && len == DecodeInt(s[..HEADER_LEN]) && 0 <= len <= MAX_LEN && |s| >= len + HEADER_LEN
    ensures var d := Decode(s[HEADER_LEN + len..]);
            Decode(s) == d.(messages := [s[HEADER_LEN..HEADER_LEN + len]] + d.messages)
  {
  }

  lemma DecodeStops(s: Text, shutdown: bool)
    requires if shutdown then |s| >= HEADER_LEN && !(0 <= DecodeInt(s[..HEADER_LEN]) <= MAX_LEN)
             else |s| < HEADER_LEN || (0 <= DecodeInt(s[..HEADER_LEN]) <= MAX_LEN && |s| < HEADER_LEN + DecodeInt(s[..HEADER_LEN]))
    ensures Decode(s) == Delivery([], s, shutdown)
  {
  }

  /** Takes one complete message out of the buffer. */
  method TakeMessage(buf: Buffer, len: nat) returns (message: Text)
    requires buf.Valid() && buf.ReadableBytes() >= len + HEADER_LEN
    modifies buf`readerIndex, buf`writerIndex
    ensures buf.Valid() && message == old(buf.Content())[HEADER_LEN..HEADER_LEN + len]
    ensures buf.Content() == old(buf.Content())[HEADER_LEN + len..]
  {
    buf.Retrieve(HEADER_LEN);
    message := buf.Content()[..len];
    buf.Retrieve(len);
  }

  /** The length in front of the buffer. */
  method PeekLength(buf: Buffer) returns (len: int)
    requires buf.Valid() && buf.ReadableBytes() >= HEADER_LEN
    ensures len == DecodeInt(buf.Content()[..HEADER_LEN])
  {
    assert buf.Content()[..HEADER_LEN] == buf.buffer[buf.readerIndex..buf.readerIndex + HEADER_LEN];
    len := buf.PeekInt(HEADER_LEN);
  }

  /** `onMessage`: the loop over the input buffer. */
  method OnMessage(buf: Buffer) returns (messages: seq<Text>, shutdown: bool)
    requires buf.Valid()
    modifies buf`readerIndex, buf`writerIndex
    ensures buf.Valid()
    ensures Delivery(messages, buf.Content(), shutdown) == Decode(old(buf.Content()))
  {
    hide Decode, DecodeInt;
    messages, shutdown := [], false;
    while buf.ReadableBytes() >= HEADER_LEN
      invariant buf.Valid()
      invariant var d := Decode(buf.Content());
                Decode(old(buf.Content())) == d.(messages := messages + d.messages)
      decreases buf.ReadableBytes()
    {
      var len := PeekLength(buf);
      if len > MAX_LEN || len < 0 {
        shutdown := true;
        break;
      } else if buf.ReadableBytes() >= len + HEADER_LEN {
        DecodeTakes(buf.Content(), len);
        var message := TakeMessage(buf, len);
        assert messages + ([message] + Decode(buf.Content()).messages) == messages + [message] + Decode(buf.Content()).messages;
        messages := messages + [message];
      } else {
        break;
      }
    }
    DecodeStops(buf.Content(), shutdown);
    assert messages + [] == messages;
  }

  /** `send`: append the message, then prepend its length. */
  method Send(message: Text) returns (buf: Buffer)
    requires FitsSigned(|message|, HEADER_LEN)
    ensures fresh(buf) && buf.Valid() && buf.Content() == Encode(message)
  {
    buf := new Buffer();
    buf.Append(message);
    assert buf.readerIndex >= HEADER_LEN;
    buf.PrependInt(|message|, HEADER_LEN);
    assert EncodeInt(|message|, HEADER_LEN) + ([] + message) == Encode(message);
  }
}
