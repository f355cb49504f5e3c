/** Collecting a streamed tool call into one MCP response under a byte limit. */
module McpStreamCollector {

  /** A message a handler sends: its content block as encoded JSON, if it has
      one. */
  datatype Message = NotProto | Unencodable | Encoded(block: string)

  datatype Op = Send(msg: Message) | ContextDone

  /** The response text around the content array. */
  datatype Frame = Frame(head: string, tail: string)

  function JoinBlocks(blocks: seq<string>): string {
    if blocks == [] then
      ""
    else if |blocks| == 1 then
      blocks[0]
    else
      JoinBlocks(blocks[..|blocks| - 1]) + "," + blocks[|blocks| - 1]
  }

  /** The full encoded response. */
  function Response(frame: Frame, blocks: seq<string>): string {
    frame.head + "[" + JoinBlocks(blocks) + "]" + frame.tail
  }

  datatype Collector = Collector(content: seq<string>, size: int, exceeded: bool, sendFailed: bool, done: bool)

  function Started(frame: Frame, limit: int): Collector {
    Collector([], if limit > 0 then |Response(frame, [])| else 0, false, false, false)
  }

  /** The running size if this block were added. */
  function SizeWith(c: Collector, block: string): int {
    c.size + |block| + if c.content == [] then 0 else 1
  }

  predicate Fits(c: Collector, msg: Message, limit: int) {
    msg.Encoded? && (limit > 0 ==> SizeWith(c, msg.block) <= limit)
  }

  predicate Succeeds(c: Collector, op: Op, limit: int) {
    op.Send? ==> !c.done && !c.sendFailed && Fits(c, op.msg, limit)
  }

  function Apply(c: Collector, op: Op, limit: int): Collector {
    match op
    case ContextDone => c.(done := true)
    case Send(msg) =>
      if c.done || msg.NotProto? || c.sendFailed then
        c
      else if !msg.Encoded? then
        c.(sendFailed := true)
      else if limit > 0 && SizeWith(c, msg.block) > limit then
        c.(exceeded := true, sendFailed := true)
      else
        c.(content := c.content + [msg.block], size := if limit > 0 then SizeWith(c, msg.block) else c.size)
  }

  function After(frame: Frame, ops: seq<Op>, limit: int): Collector {
    if ops == [] then
      Started(frame, limit)
    else
      Apply(After(frame, ops[..|ops| - 1], limit), ops[|ops| - 1], limit)
  }

  lemma {:induction false} ResponseGrows(frame: Frame, blocks: seq<string>, block: string)
    ensures |Response(frame, blocks + [block])| == |Response(frame, blocks)| + |block| + if blocks == [] then 0 else 1
  {
    assert (blocks + [block])[..|blocks|] == blocks;
  }

  /** The running size is always the length of the full encoded response, and it
      never exceeds the limit. */
  lemma {:induction false} SizeIsExact(frame: Frame, ops: seq<Op>, limit: int)
    requires limit > 0 && |Response(frame, [])| <= limit
    ensures var c := After(frame, ops, limit); c.size == |Response(frame, c.content)| <= limit
  {
    hide Response;
    if ops != [] {
      SizeIsExact(frame, ops[..|ops| - 1], limit);
      var before := After(frame, ops[..|ops| - 1], limit);
      var last := ops[|ops| - 1];
      if last.Send? && last.msg.Encoded? {
        ResponseGrows(frame, before.content, last.msg.block);
      }
    }
  }

  /** Once the limit was hit, or any send failed, nothing is collected again
      whatever the handler does. */
  lemma {:induction false} FailureFreezes(frame: Frame, ops: seq<Op>, more: seq<Op>, limit: int)
    requires After(frame, ops, limit).sendFailed
    ensures var c, d := After(frame, ops, limit), After(frame, ops + more, limit);
            d.content == c.content && d.size == c.size && d.exceeded == c.exceeded && d.sendFailed
  {
    if more == [] {
      assert ops + more == ops;
    } else {
      var init := more[..|more| - 1];
      assert (ops + more)[..|ops + more| - 1] == ops + init;
      FailureFreezes(frame, ops, init, limit);
    }
  }

  lemma {:induction false} ExceededIsFailure(frame: Frame, ops: seq<Op>, limit: int)
    ensures After(frame, ops, limit).exceeded ==> After(frame, ops, limit).sendFailed && limit > 0
  {
    if ops != [] {
      ExceededIsFailure(frame, ops[..|ops| - 1], limit);
    }
  }

  predicate Succeeded(frame: Frame, ops: seq<Op>, limit: int, k: nat)
    requires k < |ops|
  {
    Succeeds(After(frame, ops[..k], limit), ops[k], limit)
  }

  /** The blocks of the successful sends, in order. */
  function Delivered(frame: Frame, ops: seq<Op>, limit: int): seq<string> {
    if ops == [] then
      []
    else
      var k := |ops| - 1;
      Delivered(frame, ops[..k], limit) + if ops[k].Send? && Succeeded(frame, ops, limit, k) then [ops[k].msg.block]
          else []
  }

  lemma {:induction false} CollectsDelivered(frame: Frame, ops: seq<Op>, limit: int)
    ensures After(frame, ops, limit).content == Delivered(frame, ops, limit)
  {
    if ops != [] {
      CollectsDelivered(frame, ops[..|ops| - 1], limit);
    }
  }

  /** The limit is reported exactly when some encodable block was offered, before
      any failure, that would have made the full response too long. */
  ghost predicate Overflows(frame: Frame, ops: seq<Op>, limit: int) {
    exists k :: 0 <= k < |ops| && OverflowsAt(frame, ops, limit, k)
  }

  predicate OverflowsAt(frame: Frame, ops: seq<Op>, limit: int, k: nat)
    requires k < |ops|
  {
    var c := After(frame, ops[..k], limit);
    && ops[k].Send? && ops[k].msg.Encoded? && !c.done && !c.sendFailed
    && |Response(frame, Delivered(frame, ops[..k], limit) + [ops[k].msg.block])| > limit
  }

  lemma {:induction false} ExceededIff(frame: Frame, ops: seq<Op>, limit: int)
    requires limit > 0 && |Response(frame, [])| <= limit
    ensures After(frame, ops, limit).exceeded <==> Overflows(frame, ops, limit)
  {
    hide Response, Delivered;
    if ops != [] {
      var init, last := ops[..|ops| - 1], ops[|ops| - 1];
      assert ops == init + [last];
      ExceededIff(frame, init, limit);
      OverflowExtend(frame, init, last, limit);
      OverflowStep(frame, init, last, limit);
    }
  }

  lemma {:induction false} OverflowExtend(frame: Frame, init: seq<Op>, last: Op, limit: int)
    ensures Overflows(frame, init + [last], limit) <==>
              Overflows(frame, init, limit) || OverflowsAt(frame, init + [last], limit, |init|)
  {
    hide Response, Delivered, After;
    var ops := init + [last];
    forall k | 0 <= k < |init|
      ensures OverflowsAt(frame, ops, limit, k) <==> OverflowsAt(frame, init, limit, k)
    {
      assert ops[..k] == init[..k] && ops[k] == init[k];
    }
    if Overflows(frame, init, limit) {
      var k :| 0 <= k < |init| && OverflowsAt(frame, init, limit, k);
      assert OverflowsAt(frame, ops, limit, k);
    }
  }

  lemma {:induction false} OverflowStep(frame: Frame, init: seq<Op>, last: Op, limit: int)
    requires limit > 0 && |Response(frame, [])| <= limit
    ensures After(frame, init + [last], limit).exceeded <==>
              After(frame, init, limit).exceeded || OverflowsAt(frame, init + [last], limit, |init|)
  {
    hide Response, Delivered;
    var ops := init + [last];
    assert ops[..|init|] == init && ops[|init|] == last;
    SizeIsExact(frame, init, limit);
    CollectsDelivered(frame, init, limit);
    ExceededIsFailure(frame, init, limit);
    if last.Send? && last.msg.Encoded? {
      ResponseGrows(frame, After(frame, init, limit).content, last.msg.block);
    }
  }

  // ----- the object -----

  class StreamCollector {
    const limit: int
    var content: seq<string>
    var encodedSize: int
    var limitExceeded: bool
    var sendErr: bool
    var done: bool

    ghost function Value(): Collector
      reads this
    {
      Collector(content, encodedSize, limitExceeded, sendErr, done)
    }

    constructor (frame: Frame, limit: int)
      ensures this.limit == limit && Value() == Started(frame, limit)
    {
      this.limit := limit;
      content, encodedSize := [], 0;
      limitExceeded, sendErr, done := false, false, false;
      if limit > 0 {
        encodedSize := |Response(frame, [])|;
      }
    }

    /** The send callback of toolsCallStream. */
    method Collect(msg: Message) returns (ok: bool)
      requires !msg.NotProto?
      modifies `content, `encodedSize, `limitExceeded
      ensures ok == Fits(old(Value()), msg, limit)
      ensures !sendErr && !done ==> Value() == Apply(old(Value()), Send(msg), limit).(sendFailed := false)
      ensures unchanged(`sendErr) && unchanged(`done)
    {
      if msg.Unencodable? {
        return false;
      }
      if limit > 0 {
        var nextSize := encodedSize + |msg.block|;
        if |content| > 0 {
          nextSize := nextSize + 1;
        }
        if nextSize > limit {
          limitExceeded := true;
          return false;
        }
        encodedSize := nextSize;
      }
      content := content + [msg.block];
      ok := true;
    }

    /** SendMsg of the projected stream, with its sticky error. */
    method SendMsg(msg: Message) returns (ok: bool)
      modifies `content, `encodedSize, `limitExceeded, `sendErr
      ensures ok == Succeeds(old(Value()), Send(msg), limit)
      ensures Value() == Apply(old(Value()), Send(msg), limit)
    {
      if done || msg.NotProto? || sendErr {
        return false;
      }
      ok := Collect(msg);
      if !ok {
        sendErr := true;
      }
    }
  }

  // ----- the whole call -----

  /** What the call returns: the limit error, the collected blocks, or the blocks
      collected before an error and a block for the error itself. */
  datatype Outcome = Exhausted | Collected(content: seq<string>) | Failed(content: seq<string>)

  /** An error as a content block and as the error member of the result. */
  datatype Failure = Failure(block: string, payload: string)

  /** The stream ended in an error: the handler's own, a failed send it may have
      ignored, or a cancelled context. */
  predicate Errs(c: Collector, handlerFailed: bool) {
    handlerFailed || c.sendFailed || c.done
  }

  ghost function OutcomeOf(frame: Frame, ops: seq<Op>, limit: int, handlerFailed: bool, failure: Failure): Outcome {
    if limit > 0 && |Response(frame, [])| > limit then Exhausted
    else if limit > 0 && Overflows(frame, ops, limit) then Exhausted
    else if Errs(After(frame, ops, limit), handlerFailed) then Failed(Delivered(frame, ops, limit) + [failure.block])
    else Collected(Delivered(frame, ops, limit))
  }

  /** toolsCallStream with any handler behaviour.  A returned success is within the
      limit; a returned error need not be. */
  method CollectStream(
    frame: Frame, ops: seq<Op>, limit: int, handlerFailed: bool, failure: Failure) returns (r: Outcome)
    ensures r == OutcomeOf(frame, ops, limit, handlerFailed, failure)
    ensures limit > 0 && r.Collected? ==> |Response(frame, r.content)| <= limit
  {
    hide Response, Delivered, Overflows;
    if limit > 0 && |Response(frame, [])| > limit {
      return Exhausted;
    }
    var c := new StreamCollector(frame, limit);
    for k := 0 to |ops|
      invariant c.limit == limit && c.Value() == After(frame, ops[..k], limit)
    {
      assert ops[..k + 1][..k] == ops[..k];
      match ops[k] {
        case Send(msg) => var ok := c.SendMsg(msg);
        case ContextDone => c.done := true;
      }
    }
    assert ops[..|ops|] == ops;
    CollectsDelivered(frame, ops, limit);
    if limit > 0 {
      ExceededIff(frame, ops, limit);
      SizeIsExact(frame, ops, limit);
    }
    if c.limitExceeded {
      ExceededIsFailure(frame, ops, limit);
      return Exhausted;
    }
    if handlerFailed || c.sendErr || c.done {
      return Failed(c.content + [failure.block]);
    }
    r := Collected(c.content);
  }

  // ----- over HTTP -----

  /** The encoded result of a call that returned one. */
  function Encoding(frame: Frame, r: Outcome, failure: Failure): string
    requires !r.Exhausted?
  {
    if r.Collected? then Response(frame, r.content)
    else Response(Frame(frame.head, ",\"error\":" + failure.payload + ",\"isError\":true" + frame.tail), r.content)
  }

  /** httpErrorWithLimit: an error that is too long is replaced by one that says
      so, and that one by nothing. */
  function ErrorBody(error: string, tooLong: string, limit: int): string {
    if limit <= 0 || |error| <= limit then error else if |tooLong| <= limit then tooLong else ""
  }

  /** writeMCPJSON, or the error that came instead of a response. */
  function Body(frame: Frame, r: Outcome, failure: Failure, exhausted: string, tooLong: string, limit: int): string {
    if r.Exhausted? || (limit > 0 && |Encoding(frame, r, failure)| > limit) then ErrorBody(exhausted, tooLong, limit)
    else Encoding(frame, r, failure)
  }

  /** Whatever the handler does and however it fails, the body that is written is
      within the limit.  It is the whole response if the call succeeded, and
      otherwise exactly when the response with its error fits. */
  lemma {:induction false} BodyIsBounded(
    frame: Frame, ops: seq<Op>, limit: int, handlerFailed: bool, failure: Failure, exhausted: string, tooLong: string)
    ensures var r := OutcomeOf(frame, ops, limit, handlerFailed, failure);
            var body := Body(frame, r, failure, exhausted, tooLong, limit);
            && (limit > 0 ==> |body| <= limit)
            && (r.Collected? ==> body == Response(frame, Delivered(frame, ops, limit)))
            && (r.Failed? && (limit <= 0 || |Encoding(frame, r, failure)| <= limit) ==>
                body == Encoding(frame, r, failure))
  {
    hide Response, Delivered, Overflows;
    CollectsDelivered(frame, ops, limit);
    if limit > 0 && |Response(frame, [])| <= limit {
      SizeIsExact(frame, ops, limit);
    }
  }
}
