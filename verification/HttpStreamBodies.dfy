/** The bytes of a streamed response, and the object that writes them. */
module HttpStreamBodies {

  import opened ConnectFrames
  import opened ConnectReframer
  import opened HttpStreams
  function EnvelopeOf(e: Event, end: Bytes): (r: seq<Bytes>)
    requires e.Data? ==> |e.payload| <= MAX_PAYLOAD
    requires |end| <= CONTROL_MAX
  {
    match e
    case Headers(_) => []
    case Data(payload) => [Envelope(0, payload)]
    case End(_) => [Envelope(END_STREAM, end)]
  }

  predicate Encodable(events: seq<Event>, limit: int) {
    forall k :: 0 <= k < |events| ==> events[k].Data? ==>
        |events[k].payload| <= limit && |events[k].payload| <= MAX_PAYLOAD
  }

  /** The envelopes of a response body, in order. */
  function BodyOf(events: seq<Event>, end: Bytes, limit: int): seq<Bytes>
    requires Encodable(events, limit) && |end| <= CONTROL_MAX
  {
    if events == [] then
      []
    else
      BodyOf(events[..|events| - 1], end, limit) + EnvelopeOf(events[|events| - 1], end)
  }

  lemma {:induction false} DataBody(events: seq<Event>, end: Bytes, limit: int)
    requires Encodable(events, limit) && |end| <= CONTROL_MAX && forall k :: 0 <= k < |events| ==> !events[k].End?
    ensures forall k :: 0 <= k < |BodyOf(events, end, limit)| ==>
              Allowed(BodyOf(events, end, limit)[k], limit) && !EndFlag(BodyOf(events, end, limit)[k][0])
  {
    hide PayloadSize, Frame;
    if events != [] {
      var init, last := events[..|events| - 1], events[|events| - 1];
      DataBody(init, end, limit);
      if last.Data? {
        EnvelopeIsFrame(0, last.payload);
      }
    }
  }

  lemma {:induction false} WireEncodable(ops: seq<Op>, limit: int, handlerFailed: bool, trailersFit: bool)
    ensures var wire := Finish(After(ops, limit), handlerFailed, trailersFit);
            Encodable(wire, limit) && forall k :: 0 <= k < |wire| - 1 ==> !wire[k].End?
  {
    hide After, Finish, Delivered, AcceptedHeader;
    WireShape(ops, limit, handlerFailed, trailersFit);
    var data := Delivered(ops, limit);
    forall k | 0 <= k < |data|
      ensures data[k].Data? && |data[k].payload| <= limit && |data[k].payload| <= MAX_PAYLOAD
    {
      DeliveredBounded(ops, limit, k);
    }
  }

  /** Whatever the handler did, the body is well-formed: a re-framer with the same
      limit passes it on unchanged. */
  lemma {:induction false} BodyPassesReframer(
    ops: seq<Op>, limit: int, handlerFailed: bool, trailersFit: bool, end: Bytes)
    requires |end| <= CONTROL_MAX
    ensures var wire := Finish(After(ops, limit), handlerFailed, trailersFit);
            && Encodable(wire, limit)
            && Reframe(Joined(BodyOf(wire, end, limit)), limit) == BodyOf(wire, end, limit)
  {
    hide After, Finish, BodyOf, Reframe, Joined, Encodable;
    var wire := Finish(After(ops, limit), handlerFailed, trailersFit);
    WireEncodable(ops, limit, handlerFailed, trailersFit);
    BodyWellFormed(wire, end, limit);
    WellFormedPasses(BodyOf(wire, end, limit), [], limit);
    assert Joined(BodyOf(wire, end, limit)) + [] == Joined(BodyOf(wire, end, limit));
  }

  lemma {:induction false} BodyWellFormed(wire: seq<Event>, end: Bytes, limit: int)
    requires Encodable(wire, limit) && |end| <= CONTROL_MAX && forall k :: 0 <= k < |wire| - 1 ==> !wire[k].End?
    ensures WellFormedBody(BodyOf(wire, end, limit), limit)
  {
    hide PayloadSize, Frame;
    if wire != [] {
      var init, last := wire[..|wire| - 1], wire[|wire| - 1];
      DataBody(init, end, limit);
      if last.Data? {
        EnvelopeIsFrame(0, last.payload);
      }
      EnvelopeIsFrame(END_STREAM, end);
    }
  }

  // ----- the object -----

  /** The projected server stream together with the HTTP response it writes to. */
  class HttpStream {
    const limit: int
    var header: Metadata
    var trailer: Metadata
    var headerSent: bool
    var sendErr: bool
    var done: bool
    var committed: bool
    var wire: seq<Event>

    ghost function Value(): Stream
      reads this
    {
      Stream(header, trailer, headerSent, sendErr, done, committed, wire)
    }

    constructor (limit: int)
      ensures this.limit == limit && Value() == OPENED
    {
      this.limit := limit;
      header, trailer := [], [];
      headerSent, sendErr, done, committed := false, false, false, false;
      wire := [];
    }

    method CommitHeaders()
      modifies `committed, `wire
      ensures Value() == Commit(old(Value()))
    {
      if committed {
        return;
      }
      wire := wire + [Headers(header)];
      committed := true;
    }

    method SetHeader(md: Metadata) returns (ok: bool)
      modifies `header
      ensures ok == Succeeds(old(Value()), Op.SetHeader(md), limit)
      ensures Value() == Apply(old(Value()), Op.SetHeader(md), limit)
    {
      if headerSent {
        return false;
      }
      header := header + md;
      ok := true;
    }

    method SendHeader(md: Metadata) returns (ok: bool)
      modifies `header, `headerSent, `committed, `wire
      ensures ok == Succeeds(old(Value()), Op.SendHeader(md), limit)
      ensures Value() == Apply(old(Value()), Op.SendHeader(md), limit)
    {
      if headerSent {
        return false;
      }
      header := header + md;
      headerSent := true;
      CommitHeaders();
      ok := true;
    }

    method SetTrailer(md: Metadata)
      modifies `trailer
      ensures Value() == Apply(old(Value()), Op.SetTrailer(md), limit)
    {
      trailer := trailer + md;
    }

    /** The send callback: encode, check the limit, commit, write one envelope. */
    method SendEnvelope(msg: Message) returns (ok: bool)
      requires !msg.NotProto?
      modifies `committed, `wire
      ensures ok == Sendable(msg, limit)
      ensures Value() ==
        if !msg.Encoded? || |msg.payload| > limit then old(Value())
        else if |msg.payload| > MAX_PAYLOAD then Commit(old(Value()))
        else Commit(old(Value())).(wire := Commit(old(Value())).wire + [Data(msg.payload)])
    {
      if msg.Unencodable? || |msg.payload| > limit {
        return false;
      }
      CommitHeaders();
      if |msg.payload| > MAX_PAYLOAD {
        return false;
      }
      wire := wire + [Data(msg.payload)];
      ok := true;
    }

    method SendMsg(msg: Message) returns (ok: bool)
      modifies `headerSent, `sendErr, `committed, `wire
      ensures ok == Succeeds(old(Value()), Send(msg), limit)
      ensures Value() == Apply(old(Value()), Send(msg), limit)
    {
      if done || msg.NotProto? || sendErr {
        return false;
      }
      headerSent := true;
      ok := SendEnvelope(msg);
      if !ok {
        sendErr := true;
      }
    }

    /** The end of handleHTTPStream. */
    method End(handlerFailed: bool, trailersFit: bool)
      modifies `committed, `wire
      ensures wire == Finish(old(Value()), handlerFailed, trailersFit)
    {
      var failed := handlerFailed || sendErr || done;
      CommitHeaders();
      wire := wire + [Event.End(!failed && trailersFit)];
    }
  }

  /** A handler that makes any sequence of calls on a fresh stream. */
  method ServeStream(ops: seq<Op>, limit: int, handlerFailed: bool, trailersFit: bool) returns (wire: seq<Event>)
    ensures wire == Finish(After(ops, limit), handlerFailed, trailersFit)
  {
    var s := new HttpStream(limit);
    for k := 0 to |ops|
      invariant s.limit == limit && s.Value() == After(ops[..k], limit)
    {
      assert ops[..k + 1][..k] == ops[..k];
      match ops[k] {
        case SetHeader(md) => var ok := s.SetHeader(md);
        case SendHeader(md) => var ok := s.SendHeader(md);
        case SetTrailer(md) => s.SetTrailer(md);
        case Send(msg) => var ok := s.SendMsg(msg);
        case ContextDone => s.done := true;
      }
    }
    assert ops[..|ops|] == ops;
    s.End(handlerFailed, trailersFit);
    wire := s.wire;
  }
}
