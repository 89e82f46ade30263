/** The enclave's end of a connection: the loop that answers one request after the other until the session closes. */
module Sessions {
  import opened ByteStrings
  import opened CryptoModel
  import opened Framing
  import opened Enclaves
  import EnclaveRuns

  /** The requests that are answered: those before the first `CloseSession`. */
  function BeforeClose(requests: seq<Request>): (session: seq<Request>)
    ensures |session| <= |requests|
  {
    if requests == [] || requests[0].CloseSession? then [] else [requests[0]] + BeforeClose(requests[1..])
  }

  lemma {:induction false} BeforeCloseFrom(requests: seq<Request>, n: nat)
    requires n <= |requests| && forall i | 0 <= i < n :: !requests[i].CloseSession?
    ensures BeforeClose(requests) == requests[..n] + BeforeClose(requests[n..])
    decreases |requests|
  {
    if n == 0 {
      assert requests[0..] == requests;
    } else {
      BeforeCloseFrom(requests[1..], n - 1);
      assert requests[1..][n - 1..] == requests[n..];
      assert requests[..n] == [requests[0]] + requests[1..][..n - 1];
    }
  }

  /** The requests from `index` on are left, and none before it closed the session. */
  ghost predicate AtRequest(requests: seq<Request>, index: nat, rest: seq<Request>) {
    && index <= |requests| && rest == requests[index..]
    && BeforeClose(requests) == requests[..index] + BeforeClose(rest)
  }

  lemma AtNextRequest(requests: seq<Request>, index: nat, rest: seq<Request>)
    requires AtRequest(requests, index, rest)
    ensures rest == [] ==> index == |BeforeClose(requests)| == |requests|
    ensures rest != [] && rest[0].CloseSession? ==> index == |BeforeClose(requests)| < |requests|
    ensures rest != [] && !rest[0].CloseSession? ==>
              && index < |BeforeClose(requests)| && BeforeClose(requests)[index] == rest[0]
              && AtRequest(requests, index + 1, rest[1..])
  {
    if rest != [] && !rest[0].CloseSession? {
      assert rest[0] == requests[index] && rest[1..] == requests[index + 1..];
      assert requests[..index] + [rest[0]] == requests[..index + 1];
      assert requests[..index] + ([rest[0]] + BeforeClose(rest[1..])) == requests[..index + 1] + BeforeClose(rest[1..]);
    }
  }

  /** What is left to receive. */
  function Receivable(deserialize: Bytes -> Option<Request>, bytes: Bytes): seq<Request> {
    Decoded(deserialize, Messages(bytes))
  }

  lemma ReceiveOne(deserialize: Bytes -> Option<Request>, bytes: Bytes)
    ensures match Unframe(bytes)
            case None => Receivable(deserialize, bytes) == []
            case Some((payload, rest)) =>
              && |rest| < |bytes|
              && Receivable(deserialize, bytes)
                   == match deserialize(payload)
                      case None => []
                      case Some(request) => [request] + Receivable(deserialize, rest)
  {
    if Unframe(bytes).Some? {
      var (payload, rest) := Unframe(bytes).value;
      assert ([payload] + Messages(rest))[1..] == Messages(rest);
    }
  }

  /** How handling a message ends; `Panicked` is an `unwrap` of a failed send. */
  datatype ConnectionState = Continue | Close | Panicked

  /** One message: anything but `CloseSession` is answered with one response, whatever the enclave makes it. */
  method HandleMessage(stream: VsockStream<Request, Response>, message: Request, response: Response,
                       ghost responses: seq<Response>)
    returns (state: ConnectionState, ghost torn: Bytes)
    requires Carries(stream.serialize, stream.written, responses, [])
    modifies stream
    ensures stream.arriving == old(stream.arriving)
    ensures stream.room + |stream.written| == old(stream.room + |stream.written|)
    ensures state.Close? <==> message.CloseSession?
    ensures state.Continue? ==> Carries(stream.serialize, stream.written, responses + [response], [])
    ensures !state.Continue? ==> Carries(stream.serialize, stream.written, responses, torn)
    ensures state.Close? ==> torn == []
    ensures state.Panicked? ==>
              var payload := Payload(stream.serialize, response);
              payload.None? || |stream.written| - |torn| + |Frame(payload.value)| > old(stream.room + |stream.written|)
  {
    torn := [];
    if message.CloseSession? {
      return Close, torn;
    }
    ghost var written, room := stream.written, stream.room;
    var result := stream.Send(response);
    if result.Ok? {
      CarriesOneMore(stream.serialize, written, responses, response);
      return Continue, torn;
    }
    if result == Err(Io) {
      CarriesTorn(stream.serialize, written, responses, response, room);
      torn := Frame(Payload(stream.serialize, response).value)[..room];
    }
    return Panicked, torn;
  }

  /** What the enclave's end of a connection depends on: its two serialized forms, and what makes the responses. */
  datatype Codec = Codec(
    serialize: Response -> Option<Bytes>,
    deserialize: Bytes -> Option<Request>,
    respond: (nat, Request) -> Response)

  /**
   * How the loop over the messages of one connection ends, given the bytes that arrive and the number of bytes that
   * get through: it has answered the requests in order, each with one frame, and none from `CloseSession` on. It has
   * stopped early only at an answer that has no frame or does not get through, or where the requests end without a
   * `CloseSession`.
   */
  ghost predicate Handled(x: Codec, arrived: Bytes, room: nat, closed: bool, responses: seq<Response>,
                          written: Bytes, torn: Bytes)
  {
    var requests := Receivable(x.deserialize, arrived);
    var session := BeforeClose(requests);
    && |responses| <= |session|
    && (forall i | 0 <= i < |responses| :: responses[i] == x.respond(i, session[i]))
    && Carries(x.serialize, written, responses, torn)
    && (closed <==> |responses| == |session| < |requests|)
    && (torn != [] ==> |responses| < |session|)
    && (|responses| < |session| ==>
          var payload := Payload(x.serialize, x.respond(|responses|, session[|responses|]));
          payload.None? || |written| - |torn| + |Frame(payload.value)| > room)
  }

  /** Before the next message: those before it are answered, and the answers have gone out whole. */
  ghost predicate Answering(x: Codec, requests: seq<Request>, rest: seq<Request>, responses: seq<Response>,
                            written: Bytes)
  {
    && AtRequest(requests, |responses|, rest)
    && |responses| <= |BeforeClose(requests)|
    && (forall i | 0 <= i < |responses| :: responses[i] == x.respond(i, BeforeClose(requests)[i]))
    && Carries(x.serialize, written, responses, [])
  }

  lemma AnsweredOneMore(x: Codec, requests: seq<Request>, rest: seq<Request>, responses: seq<Response>,
                        written: Bytes, written': Bytes)
    requires Answering(x, requests, rest, responses, written) && rest != [] && !rest[0].CloseSession?
    requires Carries(x.serialize, written', responses + [x.respond(|responses|, rest[0])], [])
    ensures Answering(x, requests, rest[1..], responses + [x.respond(|responses|, rest[0])], written')
  {
    AtNextRequest(requests, |responses|, rest);
  }

  /** No message, or `CloseSession`: the loop ends with all requests answered that were to be. */
  lemma NothingMore(x: Codec, arrived: Bytes, room: nat, rest: seq<Request>, responses: seq<Response>, written: Bytes)
    requires Answering(x, Receivable(x.deserialize, arrived), rest, responses, written)
    requires rest == [] || rest[0].CloseSession?
    ensures Handled(x, arrived, room, rest != [], responses, written, [])
  {
    AtNextRequest(Receivable(x.deserialize, arrived), |responses|, rest);
  }

  /** An answer that has no frame or does not get through ends the loop, too. */
  lemma AnswerLost(x: Codec, arrived: Bytes, room: nat, rest: seq<Request>, responses: seq<Response>,
                   before: Bytes, written: Bytes, torn: Bytes)
    requires Answering(x, Receivable(x.deserialize, arrived), rest, responses, before)
    requires rest != [] && !rest[0].CloseSession? && Carries(x.serialize, written, responses, torn)
    requires var payload := Payload(x.serialize, x.respond(|responses|, rest[0]));
             payload.None? || |written| - |torn| + |Frame(payload.value)| > room
    ensures Handled(x, arrived, room, false, responses, written, torn)
  {
    AtNextRequest(Receivable(x.deserialize, arrived), |responses|, rest);
  }

  /** The loop, up to `CloseSession` or the first `unwrap` of an error; what the responses are is up to the enclave. */
  method HandleConnection(stream: VsockStream<Request, Response>, respond: (nat, Request) -> Response)
    returns (closed: bool, ghost responses: seq<Response>, ghost torn: Bytes)
    requires stream.written == []
    modifies stream
    ensures Handled(Codec(stream.serialize, stream.deserialize, respond), old(stream.Unread()), old(stream.room),
                    closed, responses, stream.written, torn)
  {
    ghost var x := Codec(stream.serialize, stream.deserialize, respond);
    ghost var arrived, room := stream.Unread(), stream.room;
    ghost var requests := Receivable(x.deserialize, arrived);
    responses, torn := [], [];
    var index := 0;
    while true
      invariant index == |responses|
      invariant Answering(x, requests, Receivable(x.deserialize, stream.Unread()), responses, stream.written)
      invariant stream.room + |stream.written| == room
      decreases |stream.Unread()|
    {
      ghost var rest, before := Receivable(x.deserialize, stream.Unread()), stream.written;
      ReceiveOne(x.deserialize, stream.Unread());
      var message := stream.Recv();
      if message.Err? {
        NothingMore(x, arrived, room, rest, responses, before);
        return false, responses, [];
      }
      var response := respond(index, message.value);
      var state;
      state, torn := HandleMessage(stream, message.value, response, responses);
      if state.Close? {
        NothingMore(x, arrived, room, rest, responses, stream.written);
        return true, responses, [];
      }
      if state.Panicked? {
        AnswerLost(x, arrived, room, rest, responses, before, stream.written, torn);
        return false, responses, torn;
      }
      AnsweredOneMore(x, requests, rest, responses, before, stream.written);
      responses := responses + [response];
      index := index + 1;
    }
  }

  // ----- Whole sessions -----

  /** From the bytes of a dropped stream, in whatever pieces they arrive, the requests are read, and then the close. */
  lemma DroppedSessionIsRead(serialize: Request -> Option<Bytes>, deserialize: Bytes -> Option<Request>,
                             requests: seq<Request>, written: Bytes, torn: Bytes, pieces: seq<Bytes>)
    requires RoundTrips(serialize, deserialize) && Carries(serialize, written, requests + [CloseSession], torn)
    requires Flatten(pieces) == written && CloseSession !in requests
    ensures var received := Receivable(deserialize, Flatten(pieces));
            received == requests + [CloseSession] && BeforeClose(received) == requests
  {
    var all := requests + [CloseSession];
    DeliveredAsSent(serialize, deserialize, all, torn, pieces);
    forall i | 0 <= i < |requests| ensures !all[i].CloseSession? {
      assert all[i] in requests;
    }
    BeforeCloseFrom(all, |requests|);
    assert all[|requests|..] == [CloseSession] && all[..|requests|] == requests;
  }

  /** Answers that have frames and fit together all get through, in order. */
  lemma AnswersGetThrough(x: Codec, arrived: Bytes, room: nat, closed: bool, responses: seq<Response>,
                          written: Bytes, torn: Bytes, answers: seq<Response>)
    requires Handled(x, arrived, room, closed, responses, written, torn)
    requires |answers| <= |BeforeClose(Receivable(x.deserialize, arrived))|
    requires forall i | 0 <= i < |answers| ::
               answers[i] == x.respond(i, BeforeClose(Receivable(x.deserialize, arrived))[i])
    requires Framable(x.serialize, answers) && |Frames(Payloads(x.serialize, answers))| <= room
    ensures answers <= responses
  {
    var n := |responses|;
    if n < |answers| {
      var payloads := Payloads(x.serialize, answers);
      assert responses == answers[..n];
      assert Payloads(x.serialize, responses) == payloads[..n];
      assert Payload(x.serialize, answers[n]) == Some(payloads[n]);
      FramesUpTo(payloads, n);
    }
  }

  lemma {:induction false} FramesUpTo(messages: seq<Bytes>, n: nat)
    requires Sendable(messages) && n < |messages|
    ensures |Frames(messages[..n])| + |Frame(messages[n])| <= |Frames(messages)|
    decreases n
  {
    var rest := messages[1..];
    if n == 0 {
      assert Frames(messages) == Frame(messages[0]) + Frames(rest);
    } else {
      FramesUpTo(rest, n - 1);
      assert messages[..n][1..] == rest[..n - 1];
      assert Frames(messages[..n]) == Frame(messages[0]) + Frames(rest[..n - 1]);
    }
  }

  /**
   * A whole session on the bytes: when the host's stream is dropped after its requests, and all answers have frames
   * that get through, the enclave's loop closes, after one response per request, and the host's side can read
   * just these responses.
   */
  lemma DroppedSessionIsServed(x: Codec, serialize: Request -> Option<Bytes>, deserialize: Bytes -> Option<Response>,
                               requests: seq<Request>, sent: Bytes, cut: Bytes, pieces: seq<Bytes>,
                               room: nat, closed: bool, responses: seq<Response>, written: Bytes, torn: Bytes,
                               answers: seq<Response>)
    requires RoundTrips(serialize, x.deserialize) && RoundTrips(x.serialize, deserialize)
    requires Carries(serialize, sent, requests + [CloseSession], cut) && CloseSession !in requests
    requires Flatten(pieces) == sent && Handled(x, Flatten(pieces), room, closed, responses, written, torn)
    requires |answers| == |requests| && forall i | 0 <= i < |answers| :: answers[i] == x.respond(i, requests[i])
    requires Framable(x.serialize, answers) && |Frames(Payloads(x.serialize, answers))| <= room
    ensures closed && responses == answers && torn == []
    ensures Decoded(deserialize, Messages(written)) == answers
  {
    DroppedSessionIsRead(serialize, x.deserialize, requests, sent, cut, pieces);
    AnswersGetThrough(x, Flatten(pieces), room, closed, responses, written, torn, answers);
    assert Flatten([written]) == written;
    DeliveredAsSent(x.serialize, deserialize, responses, torn, [written]);
  }

  // ----- The loop and the machine -----

  /**
   * The machine of interleaved steps and the loop on the bytes agree. Take any connection in any reachable state of
   * the machine, its requests on the bytes of a host's stream in whatever pieces, and a loop that is handed the
   * machine's replies, for which there is room: its responses start with the replies of the machine, in order, and
   * that is what the host reads. Where the machine's handler has closed, the loop closes too, with no others.
   */
  lemma LoopFollowsMachine(p: Platform, e: Enclave, c: nat, x: Codec, serialize: Request -> Option<Bytes>,
                           deserialize: Bytes -> Option<Response>, sent: Bytes, cut: Bytes, pieces: seq<Bytes>,
                           room: nat, closed: bool, responses: seq<Response>, written: Bytes, torn: Bytes)
    requires EnclaveRuns.Reachable(p, e) && c in e.connections
    requires RoundTrips(serialize, x.deserialize) && RoundTrips(x.serialize, deserialize)
    requires Carries(serialize, sent, e.connections[c].sent, cut) && Flatten(pieces) == sent
    requires Handled(x, Flatten(pieces), room, closed, responses, written, torn)
    requires var conn := e.connections[c];
             && |conn.replies| <= |conn.sent|
             && (forall i | 0 <= i < |conn.replies| :: conn.replies[i] == x.respond(i, conn.sent[i]))
             && Framable(x.serialize, conn.replies) && |Frames(Payloads(x.serialize, conn.replies))| <= room
    ensures Receivable(x.deserialize, Flatten(pieces)) == e.connections[c].sent
    ensures e.connections[c].replies <= responses
    ensures e.connections[c].task.Closed? ==> closed && responses == e.connections[c].replies
    ensures Decoded(deserialize, Messages(written)) == responses
  {
    var conn := e.connections[c];
    DeliveredAsSent(serialize, x.deserialize, conn.sent, cut, pieces);
    EnclaveRuns.SessionCorrespondence(p, e, c);
    RepliesAreInSession(conn);
    AnswersGetThrough(x, Flatten(pieces), room, closed, responses, written, torn, conn.replies);
    if conn.task.Closed? {
      ClosedSessionEnds(p, e, c);
    }
    assert Flatten([written]) == written;
    DeliveredAsSent(x.serialize, deserialize, responses, torn, [written]);
  }

  lemma RepliesAreInSession(conn: Connection)
    requires |conn.replies| <= |conn.sent|
    requires forall k | 0 <= k < |conn.replies| :: conn.sent[k] != CloseSession
    ensures |conn.replies| <= |BeforeClose(conn.sent)|
    ensures forall k | 0 <= k < |conn.replies| :: BeforeClose(conn.sent)[k] == conn.sent[k]
  {
    BeforeCloseFrom(conn.sent, |conn.replies|);
  }

  lemma ClosedSessionEnds(p: Platform, e: Enclave, c: nat)
    requires EnclaveRuns.Reachable(p, e) && c in e.connections && e.connections[c].task.Closed?
    ensures |BeforeClose(e.connections[c].sent)| == |e.connections[c].replies| < |e.connections[c].sent|
  {
    var conn := e.connections[c];
    EnclaveRuns.SessionCorrespondence(p, e, c);
    EnclaveRuns.ReachableKeepsInv(p, e);
    assert ConnectionInv(p, e, conn);
    BeforeCloseFrom(conn.sent, |conn.replies|);
    assert conn.sent[|conn.replies|..][0].CloseSession?;
  }
}
