/** Length-prefixed messages over a byte stream that delivers its bytes in arbitrary pieces. */
module Framing {
  import opened ByteStrings
  import opened CryptoModel

  datatype CommunicationError = Io | Bincode | MessageTooLarge

  datatype Result<+T> = Ok(value: T) | Err(error: CommunicationError)

  // ----- The format -----

  function Frame(payload: Bytes): Bytes
    requires |payload| <= U32_MAX
  {
    BigEndian(|payload|, 4) + payload
  }

  ghost predicate Sendable(messages: seq<Bytes>) {
    forall i | 0 <= i < |messages| :: |messages[i]| <= U32_MAX
  }

  function Frames(messages: seq<Bytes>): Bytes
    requires Sendable(messages)
  {
    if messages == [] then [] else Frame(messages[0]) + Frames(messages[1..])
  }

  /** The first whole message and the bytes after it, or `None` when the stream ends too early. */
  function Unframe(bytes: Bytes): Option<(Bytes, Bytes)> {
    if |bytes| < 4 then None
    else
      var end := 4 + FromBigEndian(bytes[..4]);
      if |bytes| < end then None else Some((bytes[4..end], bytes[end..]))
  }

  /** The whole messages of a byte stream, up to its end or a truncated message. */
  function Messages(bytes: Bytes): seq<Bytes>
    decreases |bytes|
  {
    match Unframe(bytes)
    case None => []
    case Some((payload, rest)) => [payload] + Messages(rest)
  }

  lemma UnframeFrame(payload: Bytes, rest: Bytes)
    requires |payload| <= U32_MAX
    ensures Unframe(Frame(payload) + rest) == Some((payload, rest))
  {
    var header := BigEndian(|payload|, 4);
    Power256Of4();
    BigEndianRoundTrip(|payload|, 4);
    var bytes := Frame(payload) + rest;
    assert bytes[..4] == header;
    assert bytes[4..4 + |payload|] == payload && bytes[4 + |payload|..] == rest;
  }

  /** The format in figures: four bytes of length, the most significant first, and the payload. */
  lemma FrameBytes(payload: Bytes)
    requires |payload| <= 0xFFFF_FFFF
    ensures var n, frame := |payload|, Frame(payload);
            && frame[..4] == [n / 0x100_0000 % 256, n / 0x1_0000 % 256, n / 0x100 % 256, n % 256]
            && frame[4..] == payload
  {
    FourBytes(|payload|);
    assert Frame(payload)[..4] == BigEndian(|payload|, 4);
  }

  /** A stream starts with a whole message exactly when it starts with the message's frame. */
  lemma UnframeIff(bytes: Bytes, payload: Bytes, rest: Bytes)
    ensures Unframe(bytes) == Some((payload, rest)) <==>
              |payload| <= 0xFFFF_FFFF && bytes == Frame(payload) + rest
  {
    Power256Of4();
    if |payload| <= 0xFFFF_FFFF && bytes == Frame(payload) + rest {
      UnframeFrame(payload, rest);
    }
    if Unframe(bytes) == Some((payload, rest)) {
      FromBigEndianRoundTrip(bytes[..4]);
      assert bytes == bytes[..4] + bytes[4..4 + |payload|] + bytes[4 + |payload|..];
    }
  }

  /** What is received is what was sent, whatever incomplete message follows. */
  lemma {:induction false} MessagesOfFrames(messages: seq<Bytes>, tail: Bytes)
    requires Sendable(messages)
    ensures Messages(Frames(messages) + tail) == messages + Messages(tail)
    decreases |messages|
  {
    if messages == [] {
      assert Frames(messages) + tail == tail;
    } else {
      var rest := messages[1..];
      assert Frames(messages) + tail == Frame(messages[0]) + (Frames(rest) + tail);
      UnframeFrame(messages[0], Frames(rest) + tail);
      MessagesOfFrames(rest, tail);
      assert messages == [messages[0]] + rest;
    }
  }

  /** No sequence of messages can be read as another one, not even as the start of a longer one. */
  lemma FramesUnambiguous(sent: seq<Bytes>, sent': seq<Bytes>, tail: Bytes)
    requires Sendable(sent) && Sendable(sent')
    requires Frames(sent) + tail == Frames(sent')
    ensures sent <= sent'
    ensures tail == [] ==> sent == sent'
  {
    MessagesOfFrames(sent, tail);
    MessagesOfFrames(sent', []);
    assert Frames(sent') + [] == Frames(sent');
    assert sent' == sent' + Messages([]) == sent + Messages(tail);
  }

  /** A stream cut short anywhere yields a strict prefix of the messages, never a partial or altered one. */
  lemma {:induction false} TruncationYieldsStrictPrefix(sent: seq<Bytes>, cut: nat)
    requires Sendable(sent) && cut < |Frames(sent)|
    ensures Messages(Frames(sent)[..cut]) < sent
    decreases |sent|
  {
    var first, rest := Frame(sent[0]), sent[1..];
    var bytes := Frames(sent)[..cut];
    if cut >= |first| {
      assert bytes == first + Frames(rest)[..cut - |first|];
      UnframeFrame(sent[0], Frames(rest)[..cut - |first|]);
      TruncationYieldsStrictPrefix(rest, cut - |first|);
      assert sent == [sent[0]] + rest;
    } else if cut >= 4 {
      Power256Of4();
      BigEndianRoundTrip(|sent[0]|, 4);
      assert bytes[..4] == BigEndian(|sent[0]|, 4);
      assert Unframe(bytes).None?;
    }
  }

  /** A frame that breaks off holds no message. */
  lemma TornFrame(payload: Bytes, cut: nat)
    requires |payload| <= U32_MAX && cut < |Frame(payload)|
    ensures Messages(Frame(payload)[..cut]) == []
  {
    assert Frames([payload]) == Frame(payload) + Frames([payload][1..]) == Frame(payload);
    TruncationYieldsStrictPrefix([payload], cut);
  }

  lemma {:induction false} FramesOfOneMore(messages: seq<Bytes>, message: Bytes)
    requires Sendable(messages) && |message| <= U32_MAX
    ensures Sendable(messages + [message])
    ensures Frames(messages + [message]) == Frames(messages) + Frame(message)
    decreases |messages|
  {
    var all := messages + [message];
    if messages == [] {
      assert all == [message] && all[1..] == [];
      assert Frames(all) == Frame(message) + Frames([]);
    } else {
      var first, rest := messages[0], messages[1..];
      FramesOfOneMore(rest, message);
      assert all[0] == first && all[1..] == rest + [message];
      assert Frames(all) == Frame(first) + (Frames(rest) + Frame(message));
    }
  }

  // ----- Serialized messages; the serialization is a parameter -----

  /** What can go into a frame: serialization succeeds, and the length fits. */
  function Payload<Out>(serialize: Out -> Option<Bytes>, message: Out): (payload: Option<Bytes>)
    ensures payload.Some? <==> serialize(message).Some? && |serialize(message).value| <= 0xFFFF_FFFF
    ensures payload.Some? ==> payload == serialize(message)
  {
    var bytes := serialize(message);
    if bytes.Some? && |bytes.value| <= U32_MAX then bytes else None
  }

  ghost predicate Framable<Out>(serialize: Out -> Option<Bytes>, messages: seq<Out>) {
    forall i | 0 <= i < |messages| :: Payload(serialize, messages[i]).Some?
  }

  function Payloads<Out>(serialize: Out -> Option<Bytes>, messages: seq<Out>): (payloads: seq<Bytes>)
    requires Framable(serialize, messages)
    ensures |payloads| == |messages| && Sendable(payloads)
    ensures forall i | 0 <= i < |messages| :: Payload(serialize, messages[i]) == Some(payloads[i])
  {
    seq(|messages|, i requires 0 <= i < |messages| => Payload(serialize, messages[i]).value)
  }

  /** The messages up to the first that does not deserialize. */
  function Decoded<In>(deserialize: Bytes -> Option<In>, payloads: seq<Bytes>): seq<In> {
    if payloads == [] || deserialize(payloads[0]).None? then []
    else [deserialize(payloads[0]).value] + Decoded(deserialize, payloads[1..])
  }

  lemma {:induction false} DecodedPrefix<In>(deserialize: Bytes -> Option<In>, payloads: seq<Bytes>)
    ensures var messages := Decoded(deserialize, payloads);
            && |messages| <= |payloads|
            && (forall i | 0 <= i < |messages| :: deserialize(payloads[i]) == Some(messages[i]))
            && (|messages| < |payloads| ==> deserialize(payloads[|messages|]).None?)
    decreases |payloads|
  {
    if payloads == [] {
    } else {
      DecodedPrefix(deserialize, payloads[1..]);
    }
  }

  /** Deserialization undoes serialization. */
  ghost predicate RoundTrips<M(!new)>(serialize: M -> Option<Bytes>, deserialize: Bytes -> Option<M>) {
    forall message :: serialize(message).Some? ==> deserialize(serialize(message).value) == Some(message)
  }

  lemma {:induction false} DecodedPayloads<M(!new)>(serialize: M -> Option<Bytes>, deserialize: Bytes -> Option<M>,
                                                    messages: seq<M>)
    requires RoundTrips(serialize, deserialize) && Framable(serialize, messages)
    ensures Decoded(deserialize, Payloads(serialize, messages)) == messages
    decreases |messages|
  {
    if messages == [] {
    } else {
      var rest := messages[1..];
      assert Payload(serialize, messages[0]).Some?;
      assert Payloads(serialize, messages)[1..] == Payloads(serialize, rest);
      DecodedPayloads(serialize, deserialize, rest);
    }
  }

  /** The bytes are whole frames of these messages, and maybe a part of one more that broke off. */
  ghost predicate Carries<Out>(serialize: Out -> Option<Bytes>, bytes: Bytes, messages: seq<Out>, torn: Bytes) {
    && Framable(serialize, messages)
    && bytes == Frames(Payloads(serialize, messages)) + torn
    && Messages(torn) == []
  }

  lemma CarriesOneMore<Out>(serialize: Out -> Option<Bytes>, bytes: Bytes, messages: seq<Out>, message: Out)
    requires Carries(serialize, bytes, messages, []) && Payload(serialize, message).Some?
    ensures Carries(serialize, bytes + Frame(Payload(serialize, message).value), messages + [message], [])
  {
    var payloads, payload := Payloads(serialize, messages), Payload(serialize, message).value;
    FramesOfOneMore(payloads, payload);
    assert Payloads(serialize, messages + [message]) == payloads + [payload];
    assert bytes == Frames(payloads) + [] == Frames(payloads);
    assert Frames(payloads) + Frame(payload) == Frames(payloads) + Frame(payload) + [];
  }

  lemma CarriesTorn<Out>(serialize: Out -> Option<Bytes>, bytes: Bytes, messages: seq<Out>, message: Out, cut: nat)
    requires Carries(serialize, bytes, messages, []) && Payload(serialize, message).Some?
    requires cut < |Frame(Payload(serialize, message).value)|
    ensures var part := Frame(Payload(serialize, message).value)[..cut];
            Carries(serialize, bytes + part, messages, part)
  {
    TornFrame(Payload(serialize, message).value, cut);
    assert bytes == Frames(Payloads(serialize, messages)) + [] == Frames(Payloads(serialize, messages));
  }

  function Min(a: nat, b: nat): nat {
    if a < b then a else b
  }

  // ----- The stream -----

  function Flatten(pieces: seq<Bytes>): Bytes {
    if pieces == [] then [] else pieces[0] + Flatten(pieces[1..])
  }

  /**
   * One end of a connection: the bytes written so far, how many more get through before the connection breaks,
   * and the pieces in which the peer's bytes will arrive.
   */
  class VsockStream<In, Out> {
    const serialize: Out -> Option<Bytes>
    const deserialize: Bytes -> Option<In>
    var written: Bytes
    var room: nat
    var arriving: seq<Bytes>

    /** The bytes still to be read; how they are cut into pieces is up to the network. */
    ghost function Unread(): Bytes
      reads this
    {
      Flatten(arriving)
    }

    constructor (serialize: Out -> Option<Bytes>, deserialize: Bytes -> Option<In>, room: nat, arriving: seq<Bytes>)
      ensures this.serialize == serialize && this.deserialize == deserialize
      ensures written == [] && this.room == room && Unread() == Flatten(arriving)
    {
      this.serialize := serialize;
      this.deserialize := deserialize;
      written := [];
      this.room := room;
      this.arriving := arriving;
    }

    /** Writes everything, or as much as gets through. */
    method WriteAll(bytes: Bytes) returns (ok: bool)
      modifies this
      ensures arriving == old(arriving)
      ensures ok <==> |bytes| <= old(room)
      ensures written == old(written) + bytes[..Min(|bytes|, old(room))]
      ensures room == old(room) - Min(|bytes|, old(room))
    {
      var n := Min(|bytes|, room);
      written := written + bytes[..n];
      room := room - n;
      ok := n == |bytes|;
    }

    /** Sends a message as one frame; nothing is written when it has none, and a part when the connection breaks. */
    method Send(message: Out) returns (result: Result<()>)
      modifies this
      ensures arriving == old(arriving)
      ensures match serialize(message)
              case None => result == Err(Bincode) && written == old(written) && room == old(room)
              case Some(bytes) =>
                if |bytes| > 0xFFFF_FFFF then
                  result == Err(MessageTooLarge) && written == old(written) && room == old(room)
                else
                  var n := Min(|Frame(bytes)|, old(room));
                  && result == (if n == |Frame(bytes)| then Ok(()) else Err(Io))
                  && written == old(written) + Frame(bytes)[..n] && room == old(room) - n
    {
      var serialized := serialize(message);
      if serialized.None? {
        return Err(Bincode);
      }
      var messageBytes := serialized.value;
      if |messageBytes| > U32_MAX {
        return Err(MessageTooLarge);
      }
      var messageLen := BigEndian(|messageBytes|, 4);
      var ok := WriteAll(messageLen);
      if !ok {
        assert Frame(messageBytes)[..old(room)] == messageLen[..old(room)];
        return Err(Io);
      }
      ghost var rest := room;
      ok := WriteAll(messageBytes);
      assert Frame(messageBytes)[..4 + Min(|messageBytes|, rest)]
          == messageLen + messageBytes[..Min(|messageBytes|, rest)];
      return if ok then Ok(()) else Err(Io);
    }

    /** Fills the whole buffer from however many pieces it takes; fails only at the end of the stream. */
    method ReadExact(buf: array<Byte>) returns (ok: bool)
      modifies this, buf
      ensures written == old(written) && room == old(room)
      ensures ok <==> buf.Length <= |old(Unread())|
      ensures ok ==> old(Unread()) == buf[..] + Unread()
      ensures !ok ==> Unread() == []
    {
      var filled := 0;
      assert buf[..0] + Unread() == old(Unread());
      while filled < buf.Length && arriving != []
        invariant 0 <= filled <= buf.Length
        invariant written == old(written) && room == old(room)
        invariant buf[..filled] + Unread() == old(Unread())
        decreases |arriving|, buf.Length - filled
      {
        var piece := arriving[0];
        var n := if |piece| <= buf.Length - filled then |piece| else buf.Length - filled;
        ghost var before, unread := buf[..filled], Unread();
        CopyInto(buf, filled, piece[..n]);
        if n == |piece| {
          arriving := arriving[1..];
        } else {
          arriving := [piece[n..]] + arriving[1..];
        }
        assert unread == piece[..n] + Unread();
        filled := filled + n;
        assert buf[..filled] == before + piece[..n];
        assert before + (piece[..n] + Unread()) == buf[..filled] + Unread();
      }
      ok := filled == buf.Length;
      assert buf[..filled] == buf[..] || arriving == [];
    }

    method CopyInto(buf: array<Byte>, start: nat, bytes: Bytes)
      requires start + |bytes| <= buf.Length
      modifies buf
      ensures buf[..start] == old(buf[..start])
      ensures buf[start..start + |bytes|] == bytes
    {
      forall i | 0 <= i < |bytes| {
        buf[start + i] := bytes[i];
      }
    }

    /** Receives one message; an early end of the stream is an error and leaves nothing to read. */
    method Recv() returns (result: Result<In>)
      modifies this
      ensures written == old(written) && room == old(room)
      ensures match Unframe(old(Unread()))
              case None => result == Err(Io) && Unread() == []
              case Some((payload, rest)) =>
                && Unread() == rest
                && result == (match deserialize(payload) case None => Err(Bincode) case Some(message) => Ok(message))
    {
      ghost var bytes := Unread();
      var messageLenBuf := new Byte[4];
      var ok := ReadExact(messageLenBuf);
      if !ok {
        return Err(Io);
      }
      assert bytes[..4] == messageLenBuf[..];
      ghost var afterHeader := Unread();
      assert bytes[4..] == afterHeader;
      var messageLen := FromBigEndian(messageLenBuf[..]);
      var messageBuf := new Byte[messageLen];
      ok := ReadExact(messageBuf);
      if !ok {
        return Err(Io);
      }
      assert messageBuf[..] == afterHeader[..messageLen] == bytes[4..4 + messageLen];
      assert Unread() == afterHeader[messageLen..] == bytes[4 + messageLen..];
      var message := deserialize(messageBuf[..]);
      return if message.Some? then Ok(message.value) else Err(Bincode);
    }
  }

  /** End to end: what one side sends is what the other receives, in any pieces, whatever part of a frame follows. */
  lemma DeliveredAsSent<M(!new)>(serialize: M -> Option<Bytes>, deserialize: Bytes -> Option<M>,
                                 sent: seq<M>, torn: Bytes, pieces: seq<Bytes>)
    requires RoundTrips(serialize, deserialize) && Carries(serialize, Flatten(pieces), sent, torn)
    ensures Decoded(deserialize, Messages(Flatten(pieces))) == sent
  {
    var payloads := Payloads(serialize, sent);
    MessagesOfFrames(payloads, torn);
    assert payloads + [] == payloads;
    DecodedPayloads(serialize, deserialize, sent);
  }
}
