/** BridgeXPC framing over a byte stream that arrives in arbitrary pieces, and requests whose reply is
    preceded by service callbacks. */
module BridgeWire {
  import opened Outcomes
  import opened AksProtocol

  const MAGIC := 0xB892
  const PROTOCOL_VERSION := 1
  const TYPE_MESSAGE := 2
  const HEADER_SIZE: nat := 16
  const MAX_FRAME_BODY := 16 * 1024 * 1024

  /** Decoded values, as far as the bridge distinguishes them. */
  datatype Object =
    | Nil
    | Boolean(b: bool)
    | Integer(i: int)
    | Real(r: real)
    | Octets(bytes: Bytes)
    | Text(text: string)
    | Items(items: seq<Object>)
    | Other

  /** Python's comparison with an integer. */
  predicate Equals(v: Object, n: int) {
    match v
    case Integer(i) => i == n
    case Real(r) => r == n as real
    case Boolean(b) => (if b then 1 else 0) == n
    case _ => false
  }

  /** Property lists are encoded and decoded outside; decoding may fail. */
  datatype Codec = Codec(encode: Object -> Bytes, decode: Bytes -> Option<Object>)

  // ---------------------------------------------------------------------------------------
  // Frames

  function Le16(v: nat): (b: Bytes)
    requires v < 0x1_0000
    ensures |b| == 2
  {
    [v % 0x100, v / 0x100]
  }

  function GetLe16(b: Bytes): nat
    requires |b| == 2
  {
    b[0] as int + 0x100 * (b[1] as int)
  }

  function Frame(frameType: nat, body: Bytes): (frame: Bytes)
    requires frameType < WORD && |body| <= MAX_FRAME_BODY
    ensures |frame| == HEADER_SIZE + |body|
  {
    Le16(MAGIC) + Le16(PROTOCOL_VERSION) + Le32(frameType) + Le64(|body|) + body
  }

  /** The type and the length of the body. */
  function ParseHeader(header: Bytes): (r: Result<(nat, nat)>)
    requires |header| == HEADER_SIZE
    ensures r.Ok? ==> r.value.0 < WORD && r.value.1 <= MAX_FRAME_BODY
  {
    var length := GetLe64(header[8..16]);
    if GetLe16(header[..2]) != MAGIC || GetLe16(header[2..4]) != PROTOCOL_VERSION || length > MAX_FRAME_BODY then Err
    else Ok((GetLe32(header[4..8]), length))
  }

  /** The first frame of a stream: its type, its body and what follows it. */
  function FirstFrame(stream: Bytes): (r: Result<(nat, Bytes, Bytes)>)
    ensures r.Ok? ==> |r.value.2| < |stream|
  {
    if |stream| < HEADER_SIZE then Err
    else
      var (frameType, length) :- ParseHeader(stream[..HEADER_SIZE]);
      if |stream| < HEADER_SIZE + length then Err
      else Ok((frameType, stream[HEADER_SIZE..HEADER_SIZE + length], stream[HEADER_SIZE + length..]))
  }

  lemma HeaderInverse(frameType: nat, length: nat)
    requires frameType < WORD && length <= MAX_FRAME_BODY
    ensures ParseHeader(Le16(MAGIC) + Le16(PROTOCOL_VERSION) + Le32(frameType) + Le64(length)) == Ok((frameType, length))
  {
    hide Le32, Le64, GetLe32, GetLe64;
    var header := Le16(MAGIC) + Le16(PROTOCOL_VERSION) + Le32(frameType) + Le64(length);
    assert header[..2] == Le16(MAGIC) && header[2..4] == Le16(PROTOCOL_VERSION);
    assert header[4..8] == Le32(frameType) && header[8..16] == Le64(length);
    GetInverse(frameType);
    Get64Inverse(length);
  }

  lemma HeaderUnique(header: Bytes)
    requires |header| == HEADER_SIZE && ParseHeader(header).Ok?
    ensures var (frameType, length) := ParseHeader(header).value;
      header == Le16(MAGIC) + Le16(PROTOCOL_VERSION) + Le32(frameType) + Le64(length)
  {
    hide Le32, Le64, GetLe32, GetLe64;
    Le32Inverse(header[4..8]);
    Le64Inverse(header[8..16]);
    assert header == header[..2] + header[2..4] + header[4..8] + header[8..16];
  }

  /** A stream parses as a frame and a rest exactly if it is their concatenation. */
  lemma FramesExactly(stream: Bytes, frameType: nat, body: Bytes, rest: Bytes)
    ensures FirstFrame(stream) == Ok((frameType, body, rest)) <==>
      frameType < WORD && |body| <= MAX_FRAME_BODY && stream == Frame(frameType, body) + rest
  {
    hide Le32, Le64, ParseHeader;
    if FirstFrame(stream) == Ok((frameType, body, rest)) {
      HeaderUnique(stream[..HEADER_SIZE]);
      assert stream == stream[..HEADER_SIZE] + body + rest;
    }
    if frameType < WORD && |body| <= MAX_FRAME_BODY && stream == Frame(frameType, body) + rest {
      HeaderInverse(frameType, |body|);
      var header := Le16(MAGIC) + Le16(PROTOCOL_VERSION) + Le32(frameType) + Le64(|body|);
      assert stream == header + (body + rest);
      assert stream[..HEADER_SIZE] == header;
      assert stream[HEADER_SIZE..] == body + rest;
      assert stream[HEADER_SIZE..HEADER_SIZE + |body|] == body && stream[HEADER_SIZE + |body|..] == rest;
    }
  }

  // ---------------------------------------------------------------------------------------
  // A request and its callbacks

  function Envelope(stream: Bytes, codec: Codec): (r: Result<(seq<Object>, Bytes)>)
    ensures r.Ok? ==> |r.value.0| == 4 && |r.value.1| < |stream|
  {
    var (frameType, body, rest) :- FirstFrame(stream);
    if frameType != TYPE_MESSAGE then Err
    else match codec.decode(body)
      case Some(Items(items)) => if |items| == 4 then Ok((items, rest)) else Err
      case _ => Err
  }

  datatype Kind = IsReply(payload: Object) | IsCallback(token: string, payload: Object) | IsMalformed

  function Classify(envelope: seq<Object>, replyId: string): Kind
    requires |envelope| == 4
  {
    if !Equals(envelope[0], 1) then IsMalformed
    else if envelope[1] == Boolean(true) then
      if envelope[2] != Text(replyId) then IsMalformed else IsReply(envelope[3])
    else if envelope[1] != Boolean(false) || !envelope[2].Text? then IsMalformed
    else IsCallback(envelope[2].text, envelope[3])
  }

  /** A version one, as Python compares it. */
  predicate IsOne(v: Object) {
    v in {Integer(1), Real(1.0), Boolean(true)}
  }

  /** A reply has the truth value and the identifier of the request, a callback the other truth value and a token. */
  lemma ClassifyExactly(envelope: seq<Object>, replyId: string, token: string, payload: Object)
    requires |envelope| == 4
    ensures Classify(envelope, replyId) == IsReply(payload) <==>
      IsOne(envelope[0]) && envelope == [envelope[0], Boolean(true), Text(replyId), payload]
    ensures Classify(envelope, replyId) == IsCallback(token, payload) <==>
      IsOne(envelope[0]) && envelope == [envelope[0], Boolean(false), Text(token), payload]
  {
    assert envelope == [envelope[0], envelope[1], envelope[2], envelope[3]];
  }

  /** The peer understands a request as a callback with its identifier, and an acknowledgement as the reply, zero, to the
      token. */
  lemma UnderstoodByPeer(replyId: string, token: string, payload: Object)
    ensures Classify(RequestMessage(replyId, payload).items, token) == IsCallback(replyId, payload)
    ensures Classify(Acknowledgement(token).items, token) == IsReply(Items([Integer(0)]))
  {
  }

  datatype Conversation = Conversation(reply: Result<Object>, callbacks: seq<(string, Object)>, rest: Bytes)

  /** What the stream says: the callbacks before the reply, the reply, and what was not read. */
  function Converse(stream: Bytes, replyId: string, codec: Codec): Conversation
    decreases |stream|
  {
    match Envelope(stream, codec)
    case Err => Conversation(Err, [], [])
    case Ok((envelope, rest)) =>
      match Classify(envelope, replyId)
      case IsMalformed => Conversation(Err, [], [])
      case IsReply(payload) => Conversation(Ok(payload), [], rest)
      case IsCallback(token, payload) =>
        var later := Converse(rest, replyId, codec);
        later.(callbacks := [(token, payload)] + later.callbacks)
  }

  function RequestMessage(replyId: string, payload: Object): Object {
    Items([Integer(1), Boolean(false), Text(replyId), payload])
  }

  function CallbackMessage(callback: (string, Object)): Object {
    Items([Integer(1), Boolean(false), Text(callback.0), callback.1])
  }

  function ReplyMessage(replyId: string, payload: Object): Object {
    Items([Integer(1), Boolean(true), Text(replyId), payload])
  }

  function Acknowledgement(token: string): Object {
    Items([Integer(1), Boolean(true), Text(token), Items([Integer(0)])])
  }

  function Acknowledgements(callbacks: seq<(string, Object)>): seq<Object> {
    seq(|callbacks|, i requires 0 <= i < |callbacks| => Acknowledgement(callbacks[i].0))
  }

  function Payloads(callbacks: seq<(string, Object)>): seq<Object> {
    seq(|callbacks|, i requires 0 <= i < |callbacks| => callbacks[i].1)
  }

  /** The message survives its encoding and fits a frame. */
  predicate Transmissible(codec: Codec, m: Object) {
    |codec.encode(m)| <= MAX_FRAME_BODY && codec.decode(codec.encode(m)) == Some(m)
  }

  predicate AllTransmissible(codec: Codec, callbacks: seq<(string, Object)>) {
    forall i :: 0 <= i < |callbacks| ==> Transmissible(codec, CallbackMessage(callbacks[i]))
  }

  /** The stream of a peer that sends these callbacks and then the reply. */
  function PeerStream(callbacks: seq<(string, Object)>, replyId: string, reply: Object, codec: Codec): Bytes
    requires AllTransmissible(codec, callbacks) && Transmissible(codec, ReplyMessage(replyId, reply))
  {
    if callbacks == [] then Frame(TYPE_MESSAGE, codec.encode(ReplyMessage(replyId, reply)))
    else
      assert Transmissible(codec, CallbackMessage(callbacks[0]));
      Frame(TYPE_MESSAGE, codec.encode(CallbackMessage(callbacks[0]))) + PeerStream(callbacks[1..], replyId, reply, codec)
  }

  lemma EnvelopeOf(codec: Codec, m: Object, rest: Bytes)
    requires Transmissible(codec, m) && m.Items? && |m.items| == 4
    ensures Envelope(Frame(TYPE_MESSAGE, codec.encode(m)) + rest, codec) == Ok((m.items, rest))
  {
    FramesExactly(Frame(TYPE_MESSAGE, codec.encode(m)) + rest, TYPE_MESSAGE, codec.encode(m), rest);
    hide FirstFrame, Frame;
  }

  /** Whatever a peer sends as callbacks and reply is what is understood, and nothing after the reply is read. */
  lemma {:induction false} ConversationOf(callbacks: seq<(string, Object)>, replyId: string, reply: Object, codec: Codec, rest: Bytes)
    requires AllTransmissible(codec, callbacks) && Transmissible(codec, ReplyMessage(replyId, reply))
    ensures Converse(PeerStream(callbacks, replyId, reply, codec) + rest, replyId, codec) == Conversation(Ok(reply), callbacks, rest)
  {
    hide Frame, Envelope;
    if callbacks == [] {
      EnvelopeOf(codec, ReplyMessage(replyId, reply), rest);
    } else {
      var message := CallbackMessage(callbacks[0]);
      assert Transmissible(codec, message);
      var later := PeerStream(callbacks[1..], replyId, reply, codec) + rest;
      assert PeerStream(callbacks, replyId, reply, codec) + rest == Frame(TYPE_MESSAGE, codec.encode(message)) + later;
      EnvelopeOf(codec, message, later);
      ConversationOf(callbacks[1..], replyId, reply, codec, rest);
    }
  }

  // ---------------------------------------------------------------------------------------
  // The socket and its loops

  /** One end of a connection. The peer's stream arrives in pieces of any size; receiving or sending may raise. */
  class Socket {
    var remaining: Bytes      // what the peer sends before it closes
    var sent: seq<Object>     // the messages sent to the peer
    ghost var raised: bool    // the operating system has raised

    constructor (stream: Bytes)
      ensures remaining == stream && sent == [] && !raised
    {
      remaining, sent, raised := stream, [], false;
    }

    /** Up to n bytes; none only at the end of the stream. */
    method Receive(n: nat) returns (r: Result<Bytes>)
      requires n > 0
      modifies this
      ensures sent == old(sent) && (old(raised) ==> raised)
      ensures r.Ok? ==> raised == old(raised) && |r.value| <= n && old(remaining) == r.value + remaining
      ensures r.Ok? && old(remaining) != [] ==> r.value != []
      ensures r.Err? ==> raised
    {
      var fails: bool := *;
      if fails {
        raised := true;
        return Err;
      }
      var size: nat :| size <= n && size <= |remaining| && (remaining != [] ==> size > 0) by {
        assert if remaining == [] then 0 <= n && 0 <= |remaining| else 1 <= n && 1 <= |remaining|;
      }
      r := Ok(remaining[..size]);
      remaining := remaining[size..];
    }

    method Send(message: Object) returns (ok: bool)
      modifies this
      ensures remaining == old(remaining) && (old(raised) ==> raised)
      ensures ok ==> sent == old(sent) + [message] && raised == old(raised)
      ensures !ok ==> raised && sent == old(sent)
    {
      ok := *;
      if ok {
        sent := sent + [message];
      } else {
        raised := true;
      }
    }
  }

  /** Exactly the next bytes of the stream, however they were split. */
  method ReceiveExact(socket: Socket, length: nat) returns (r: Result<Bytes>)
    modifies socket
    ensures socket.sent == old(socket.sent) && (old(socket.raised) ==> socket.raised)
    ensures r.Ok? ==> length <= |old(socket.remaining)| && r.value == old(socket.remaining)[..length]
    ensures r.Ok? ==> socket.remaining == old(socket.remaining)[length..] && socket.raised == old(socket.raised)
    ensures r.Err? ==> socket.raised || |old(socket.remaining)| < length
  {
    var chunks: Bytes := [];
    while |chunks| < length
      invariant |chunks| <= length && old(socket.remaining) == chunks + socket.remaining
      invariant socket.sent == old(socket.sent) && socket.raised == old(socket.raised)
      decreases length - |chunks|
    {
      var chunk :- socket.Receive(length - |chunks|);
      if chunk == [] {
        return Err;
      }
      chunks := chunks + chunk;
    }
    r := Ok(chunks);
  }

  /** The first frame of the stream. Err covers the end of the stream, a bad header and an interruption. */
  method ReceiveFrame(socket: Socket) returns (r: Result<(nat, Bytes)>)
    modifies socket
    ensures socket.sent == old(socket.sent) && (old(socket.raised) ==> socket.raised)
    ensures r.Ok? ==> FirstFrame(old(socket.remaining)) == Ok((r.value.0, r.value.1, socket.remaining))
    ensures r.Ok? ==> socket.raised == old(socket.raised)
    ensures r.Err? ==> socket.raised || FirstFrame(old(socket.remaining)).Err?
  {
    hide ParseHeader;
    var header :- ReceiveExact(socket, HEADER_SIZE);
    var parsed :- ParseHeader(header);
    var body :- ReceiveExact(socket, parsed.1);
    r := Ok((parsed.0, body));
    ghost var stream := old(socket.remaining);
    assert stream[HEADER_SIZE..][..parsed.1] == stream[HEADER_SIZE..HEADER_SIZE + parsed.1];
    assert stream[HEADER_SIZE..][parsed.1..] == stream[HEADER_SIZE + parsed.1..];
  }

  method ReceiveEnvelope(socket: Socket, codec: Codec) returns (r: Result<seq<Object>>)
    modifies socket
    ensures socket.sent == old(socket.sent) && (old(socket.raised) ==> socket.raised)
    ensures r.Ok? ==> Envelope(old(socket.remaining), codec) == Ok((r.value, socket.remaining))
    ensures r.Ok? ==> socket.raised == old(socket.raised)
    ensures r.Err? ==> socket.raised || Envelope(old(socket.remaining), codec).Err?
  {
    hide FirstFrame;
    var frame :- ReceiveFrame(socket);
    if frame.0 != TYPE_MESSAGE {
      return Err;
    }
    var decoded := codec.decode(frame.1);
    if decoded.None? || !decoded.value.Items? || |decoded.value.items| != 4 {
      return Err;
    }
    r := Ok(decoded.value.items);
  }

  /** One request: the reply and, in order, the payloads of exactly the callbacks that precede it, each
      acknowledged once, in order. */
  method RequestWithEvents(socket: Socket, codec: Codec, replyId: string, payload: Object)
    returns (r: Result<(Object, seq<Object>)>)
    modifies socket
    ensures r.Ok? ==> (
      var said := Converse(old(socket.remaining), replyId, codec);
      && said.reply == Ok(r.value.0) && r.value.1 == Payloads(said.callbacks) && socket.remaining == said.rest
      && socket.sent == old(socket.sent) + [RequestMessage(replyId, payload)] + Acknowledgements(said.callbacks))
    ensures r.Err? ==> socket.raised || Converse(old(socket.remaining), replyId, codec).reply.Err?
    ensures |socket.sent| > |old(socket.sent)| ==> (
      exists k :: 0 <= k <= |Converse(old(socket.remaining), replyId, codec).callbacks|
        && socket.sent == old(socket.sent) + [RequestMessage(replyId, payload)]
             + Acknowledgements(Converse(old(socket.remaining), replyId, codec).callbacks[..k]))
  {
    var sent := socket.Send(RequestMessage(replyId, payload));
    if !sent {
      return Err;
    }
    hide Envelope, Acknowledgements, Payloads, Understood, Converse;
    ghost var said := Converse(old(socket.remaining), replyId, codec);
    ghost var k: nat := 0;
    var events: seq<Object> := [];
    EmptyLists();
    assert said.callbacks[..0] == [];
    Begin(old(socket.remaining), replyId, codec);
    while true
      invariant Understood(said, socket.remaining, k, replyId, codec)
      invariant k <= |said.callbacks| && events == Payloads(said.callbacks[..k])
      invariant socket.sent == old(socket.sent) + [RequestMessage(replyId, payload)] + Acknowledgements(said.callbacks[..k])
      invariant socket.raised == old(socket.raised)
      decreases |socket.remaining|
    {
      Continue(said, socket.remaining, k, replyId, codec);
      var envelope :- ReceiveEnvelope(socket, codec);
      match Classify(envelope, replyId)
      case IsMalformed =>
        return Err;
      case IsReply(reply) =>
        assert said.callbacks[..k] == said.callbacks;
        return Ok((reply, events));
      case IsCallback(token, event) =>
        events := events + [event];
        var acknowledged := socket.Send(Acknowledgement(token));
        if !acknowledged {
          return Err;
        }
        OneMore(said.callbacks, k);
        k := k + 1;
    }
  }

  /** What is still to be said, once the first k callbacks were read. */
  ghost predicate Understood(said: Conversation, stream: Bytes, k: nat, replyId: string, codec: Codec) {
    k <= |said.callbacks| && Converse(stream, replyId, codec) == said.(callbacks := said.callbacks[k..])
  }

  lemma Begin(stream: Bytes, replyId: string, codec: Codec)
    ensures Understood(Converse(stream, replyId, codec), stream, 0, replyId, codec)
  {
  }

  lemma Continue(said: Conversation, stream: Bytes, k: nat, replyId: string, codec: Codec)
    requires Understood(said, stream, k, replyId, codec)
    ensures match Envelope(stream, codec)
      case Err => said.reply.Err?
      case Ok((envelope, rest)) =>
        match Classify(envelope, replyId)
        case IsMalformed => said.reply.Err?
        case IsReply(payload) => k == |said.callbacks| && said.reply == Ok(payload) && said.rest == rest
        case IsCallback(token, payload) =>
          k < |said.callbacks| && said.callbacks[k] == (token, payload) && Understood(said, rest, k + 1, replyId, codec)
  {
    hide Envelope, Classify;
    match Envelope(stream, codec)
    case Err =>
    case Ok((envelope, rest)) =>
      match Classify(envelope, replyId)
      case IsMalformed =>
      case IsReply(payload) =>
      case IsCallback(token, payload) =>
        var left := said.callbacks[k..];
        assert left == [(token, payload)] + Converse(rest, replyId, codec).callbacks;
        assert left[1..] == said.callbacks[k + 1..];
  }

  lemma EmptyLists()
    ensures Acknowledgements([]) == [] && Payloads([]) == []
  {
  }

  lemma OneMore(callbacks: seq<(string, Object)>, k: nat)
    requires k < |callbacks|
    ensures callbacks[..k + 1] == callbacks[..k] + [callbacks[k]]
    ensures Acknowledgements(callbacks[..k + 1]) == Acknowledgements(callbacks[..k]) + [Acknowledgement(callbacks[k].0)]
    ensures Payloads(callbacks[..k + 1]) == Payloads(callbacks[..k]) + [callbacks[k].1]
  {
  }
}
