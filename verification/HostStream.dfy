/** The host's end of a connection: dropping it sends a final `CloseSession`. */
module HostStreams {
  import opened ByteStrings
  import opened CryptoModel
  import opened Framing
  import opened Enclaves

  class HostStream {
    var stream: Option<VsockStream<Response, Request>>
    ghost const connection: VsockStream<Response, Request>
    /** The requests that went out on the connection, and the part of one more on which it broke, if it did. */
    ghost var sent: seq<Request>
    ghost var torn: Bytes

    ghost predicate OnWire()
      reads this, connection
    {
      Carries(connection.serialize, connection.written, sent, torn) && (torn != [] ==> connection.room == 0)
    }

    /** Open from construction until it is dropped; `send` and `recv` rely on it. */
    ghost predicate Open()
      reads this, connection
    {
      stream == Some(connection) && OnWire()
    }

    constructor (connected: VsockStream<Response, Request>)
      requires connected.written == []
      ensures Open() && connection == connected && sent == [] && torn == []
    {
      stream := Some(connected);
      connection := connected;
      sent, torn := [], [];
    }

    /** The request goes out whole, or it has no frame or does not get through, and then nothing more ever does. */
    method Send(request: Request) returns (result: Result<()>)
      requires Open()
      modifies this`sent, this`torn, connection
      ensures Open() && connection.arriving == old(connection.arriving)
      ensures sent == old(sent) + if result.Ok? then [request] else []
      ensures var payload := Payload(connection.serialize, request);
              && (result.Ok? <==> payload.Some? && |Frame(payload.value)| <= old(connection.room))
              && (result == Err(Io) <==> payload.Some? && |Frame(payload.value)| > old(connection.room))
              && (result == Err(Io) ==> connection.room == 0)
    {
      ghost var written, room := connection.written, connection.room;
      result := stream.value.Send(request);
      if result.Ok? {
        CarriesOneMore(connection.serialize, written, sent, request);
        sent := sent + [request];
      } else if result == Err(Io) && torn == [] {
        CarriesTorn(connection.serialize, written, sent, request, room);
        torn := Frame(Payload(connection.serialize, request).value)[..room];
      }
    }

    /** Receives the next response. */
    method Recv() returns (result: Result<Response>)
      requires Open()
      modifies connection
      ensures Open()
      ensures match Unframe(old(connection.Unread()))
              case None => result == Err(Io) && connection.Unread() == []
              case Some((payload, rest)) =>
                && connection.Unread() == rest
                && result == (match connection.deserialize(payload)
                              case None => Err(Bincode)
                              case Some(response) => Ok(response))
    {
      result := stream.value.Recv();
    }

    /** Dropping takes the stream, so that nothing can follow, and closes the session as the last thing sent. */
    method Drop()
      requires Open()
      modifies this, connection
      ensures stream.None? && OnWire()
      ensures var payload := Payload(connection.serialize, CloseSession);
              var closed := payload.Some? && |Frame(payload.value)| <= old(connection.room);
              sent == old(sent) + if closed then [CloseSession] else []
    {
      var result := Send(CloseSession);
      stream := None;
    }
  }
}
