/** A projected server stream over HTTP: what a handler may do with it, and what
    reaches the wire.  Calls on one stream are sequential and writes succeed. */
module HttpStreams {

  import opened ConnectFrames
  /** Metadata is joined by appending. */
  type Metadata = seq<(string, string)>

  /** A message a handler passes to SendMsg. */
  datatype Message = NotProto | Unencodable | Encoded(payload: Bytes)

  /** What a handler does, and the end of the request context. */
  datatype Op = SetHeader(md: Metadata) | SendHeader(md: Metadata) | SetTrailer(md: Metadata) | Send(msg: Message)
      | ContextDone

  datatype Event = Headers(md: Metadata) | Data(payload: Bytes) | End(success: bool)

  datatype Stream = Stream(
    header: Metadata,
    trailer: Metadata,
    headerSent: bool,
    sendFailed: bool,
    done: bool,
    committed: bool,
    wire: seq<Event>)

  const OPENED := Stream([], [], false, false, false, false, [])

  function Commit(s: Stream): Stream {
    if s.committed then s else s.(committed := true, wire := s.wire + [Headers(s.header)])
  }

  predicate Sendable(msg: Message, limit: int) {
    msg.Encoded? && |msg.payload| <= limit && |msg.payload| <= MAX_PAYLOAD
  }

  /** Whether a call returns without an error. */
  predicate Succeeds(s: Stream, op: Op, limit: int) {
    match op
    case SetHeader(_) => !s.headerSent
    case SendHeader(_) => !s.headerSent
    case Send(msg) => !s.done && !s.sendFailed && Sendable(msg, limit)
    case _ => true
  }

  function Apply(s: Stream, op: Op, limit: int): Stream {
    match op
    case SetHeader(md) => if s.headerSent then s else s.(header := s.header + md)
    case SendHeader(md) => if s.headerSent then s else Commit(s.(header := s.header + md, headerSent := true))
    case SetTrailer(md) => s.(trailer := s.trailer + md)
    case ContextDone => s.(done := true)
    case Send(msg) =>
      if s.done || msg.NotProto? || s.sendFailed then
        s
      else
        var sent := s.(headerSent := true);
        if !msg.Encoded? || |msg.payload| > limit then
          sent.(sendFailed := true)
        else
          var open := Commit(sent);
          if |msg.payload| > MAX_PAYLOAD then
            open.(sendFailed := true)
          else
            open.(wire := open.wire + [Data(msg.payload)])
  }

  function After(ops: seq<Op>, limit: int): Stream {
    if ops == [] then OPENED else Apply(After(ops[..|ops| - 1], limit), ops[|ops| - 1], limit)
  }

  /** Success is reported when neither the handler nor a send nor the context
      failed and the trailers fit into a control envelope. */
  function Finish(s: Stream, handlerFailed: bool, trailersFit: bool): seq<Event> {
    Commit(s).wire + [End(!handlerFailed && !s.sendFailed && !s.done && trailersFit)]
  }

  // ----- what a run of calls promises -----

  predicate Succeeded(ops: seq<Op>, limit: int, k: nat)
    requires k < |ops|
  {
    Succeeds(After(ops[..k], limit), ops[k], limit)
  }

  /** The header metadata of the calls that were accepted, in order. */
  function AcceptedHeader(ops: seq<Op>, limit: int): Metadata {
    if ops == [] then
      []
    else
      var k := |ops| - 1;
      AcceptedHeader(ops[..k], limit) +
      if (ops[k].SetHeader? || ops[k].SendHeader?) && Succeeded(ops, limit, k) then ops[k].md else []
  }

  /** One data event for each successful send, in order. */
  function Delivered(ops: seq<Op>, limit: int): seq<Event> {
    if ops == [] then
      []
    else
      var k := |ops| - 1;
      Delivered(ops[..k], limit) + if ops[k].Send? && Succeeded(ops, limit, k) then [Data(ops[k].msg.payload)] else []
  }

  predicate SendFailed(ops: seq<Op>, limit: int, k: nat)
    requires k < |ops|
  {
    ops[k].Send? && !Succeeded(ops, limit, k)
  }

  /** Some send of a protobuf message failed. */
  ghost predicate SendsFailed(ops: seq<Op>, limit: int) {
    exists k :: 0 <= k < |ops| && SendFailed(ops, limit, k) && !ops[k].msg.NotProto?
  }

  /** The state is determined by what was accepted. */
  ghost predicate Tracks(ops: seq<Op>, s: Stream, limit: int) {
    && s.header == AcceptedHeader(ops, limit)
    && (s.committed ==> s.headerSent)
    && s.wire == (if s.committed then [Headers(s.header)] + Delivered(ops, limit) else [])
    && (!s.committed ==> Delivered(ops, limit) == [])
    && (s.done <==> ContextDone in ops)
  }

  lemma {:induction false} StateTracks(ops: seq<Op>, limit: int)
    ensures Tracks(ops, After(ops, limit), limit)
  {
    if ops != [] {
      var init, last := ops[..|ops| - 1], ops[|ops| - 1];
      StateTracks(init, limit);
      assert ops == init + [last];
      LastTracks(init, last, After(init, limit), limit);
    }
  }

  lemma {:induction false} LastTracks(init: seq<Op>, last: Op, s: Stream, limit: int)
    requires Tracks(init, s, limit) && s == After(init, limit)
    ensures Tracks(init + [last], Apply(s, last, limit), limit)
  {
    hide After, AcceptedHeader, Delivered;
    var ops := init + [last];
    AcceptedExtend(init, last, limit);
    assert ops[|init|] == last;
    match last
    case Send(msg) => SendTracks(init, msg, s, limit);
    case _ =>
  }

  lemma {:induction false} AcceptedExtend(init: seq<Op>, last: Op, limit: int)
    ensures AcceptedHeader(init + [last], limit) == AcceptedHeader(init, limit) +
              if (last.SetHeader? || last.SendHeader?) && Succeeds(After(init, limit), last, limit) then last.md else []
    ensures Delivered(init + [last], limit) == Delivered(init, limit) +
              if last.Send? && Succeeds(After(init, limit), last, limit) then [Data(last.msg.payload)] else []
  {
    hide After, Succeeds;
    assert (init + [last])[..|init|] == init;
  }

  lemma {:induction false} SendTracks(init: seq<Op>, msg: Message, s: Stream, limit: int)
    requires Tracks(init, s, limit) && s == After(init, limit)
    ensures Tracks(init + [Send(msg)], Apply(s, Send(msg), limit), limit)
  {
    hide After, AcceptedHeader, Delivered;
    AcceptedExtend(init, Send(msg), limit);
    var t := Apply(s, Send(msg), limit);
    assert ContextDone in init + [Send(msg)] <==> ContextDone in init;
    assert t.header == s.header && t.done == s.done;
    if Succeeds(s, Send(msg), limit) {
      assert t.wire == Commit(s).wire + [Data(msg.payload)];
    }
  }

  // ----- the wire -----

  /** The response is the headers once, one data envelope for each successful
      send in order, and exactly one end-stream envelope; the headers carry every
      accepted piece of header metadata. */
  lemma {:induction false} WireShape(ops: seq<Op>, limit: int, handlerFailed: bool, trailersFit: bool)
    ensures var s := After(ops, limit);
            Finish(s, handlerFailed, trailersFit)
              == [Headers(AcceptedHeader(ops, limit))] + Delivered(ops, limit)
                 + [End(!handlerFailed && !s.sendFailed && !s.done && trailersFit)]
  {
    hide After, Delivered, AcceptedHeader;
    StateTracks(ops, limit);
  }

  lemma {:induction false} DeliveredBounded(ops: seq<Op>, limit: int, k: nat)
    requires k < |Delivered(ops, limit)|
    ensures Delivered(ops, limit)[k].Data? && |Delivered(ops, limit)[k].payload| <= limit
    ensures |Delivered(ops, limit)[k].payload| <= MAX_PAYLOAD
  {
    if k < |Delivered(ops[..|ops| - 1], limit)| {
      DeliveredBounded(ops[..|ops| - 1], limit, k);
    }
  }

  /** A failed send of a protobuf message fails the stream, whatever the handler
      does afterwards; a value that is not a protobuf message fails only its own
      call. */
  lemma {:induction false} StickyFailure(ops: seq<Op>, limit: int)
    ensures After(ops, limit).sendFailed || After(ops, limit).done <==> ContextDone in ops || SendsFailed(ops, limit)
  {
    if ops != [] {
      hide After, SendsFailed, Succeeds, Apply;
      var init, last := ops[..|ops| - 1], ops[|ops| - 1];
      assert ops == init + [last];
      AfterExtend(init, last, limit);
      StickyFailure(init, limit);
      FailedExtend(init, last, limit);
      FailureStep(After(init, limit), last, limit);
      ContextKnown(init, limit);
    }
  }

  lemma {:induction false} AfterExtend(init: seq<Op>, last: Op, limit: int)
    ensures After(init + [last], limit) == Apply(After(init, limit), last, limit)
  {
    hide Apply;
    assert (init + [last])[..|init|] == init;
  }

  lemma {:induction false} ContextKnown(ops: seq<Op>, limit: int)
    ensures After(ops, limit).done <==> ContextDone in ops
  {
    hide After, Delivered, AcceptedHeader;
    StateTracks(ops, limit);
  }

  lemma {:induction false} FailureStep(s: Stream, op: Op, limit: int)
    ensures Apply(s, op, limit).sendFailed || Apply(s, op, limit).done <==>
              || s.sendFailed || s.done || op == ContextDone
              || (op.Send? && !op.msg.NotProto? && !Succeeds(s, op, limit))
  {
  }

  lemma {:induction false} FailedExtend(init: seq<Op>, last: Op, limit: int)
    ensures SendsFailed(init + [last], limit) <==>
              SendsFailed(init, limit)
              || (last.Send? && !last.msg.NotProto? && !Succeeds(After(init, limit), last, limit))
  {
    hide After, Succeeds;
    var ops := init + [last];
    assert ops[..|init|] == init;
    forall k | 0 <= k < |init|
      ensures SendFailed(ops, limit, k) <==> SendFailed(init, limit, k)
    {
      assert ops[..k] == init[..k] && ops[k] == init[k];
    }
    if exists k :: 0 <= k < |init| && SendFailed(init, limit, k) && !init[k].msg.NotProto? {
      var k :| 0 <= k < |init| && SendFailed(init, limit, k) && !init[k].msg.NotProto?;
      assert SendFailed(ops, limit, k) && ops[k] == init[k];
    }
    if last.Send? && !last.msg.NotProto? && !Succeeds(After(init, limit), last, limit) {
      assert SendFailed(ops, limit, |init|);
    }
  }

  /** Success is reported exactly when the handler returned no error, the context
      was not done, the trailers fit, and no protobuf message failed to be sent. */
  lemma {:induction false} SuccessIff(ops: seq<Op>, limit: int, handlerFailed: bool, trailersFit: bool)
    ensures var wire := Finish(After(ops, limit), handlerFailed, trailersFit);
            && wire != [] && wire[|wire| - 1].End?
            && (wire[|wire| - 1].success <==>
                  && !handlerFailed && trailersFit && ContextDone !in ops
                  && forall k :: 0 <= k < |ops| && SendFailed(ops, limit, k) ==> ops[k].msg.NotProto?)
  {
    hide After, SendFailed;
    StickyFailure(ops, limit);
    StateTracks(ops, limit);
  }

  /** The exception: a handler that ignores the error of sending something that
      is not a protobuf message is reported as successful. */
  lemma {:induction false} IgnoredNonProtoSucceeds(limit: int)
    ensures var ops := [Send(NotProto)];
            && SendFailed(ops, limit, 0)
            && Finish(After(ops, limit), false, true) == [Headers([]), End(true)]
  {
    var ops := [Send(NotProto)];
    assert ops[..0] == [];
    assert After([], limit) == OPENED;
    assert After(ops, limit) == OPENED;
  }
}
