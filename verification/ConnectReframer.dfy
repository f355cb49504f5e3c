/** The incremental re-framer that bounds a Connect response stream. */
module ConnectReframer {

  import opened ConnectFrames

  function AsBytes(s: string): (r: Bytes)
    requires forall i :: 0 <= i < |s| ==> s[i] < 128 as char
    ensures |r| == |s|
  {
    seq(|s|, i requires 0 <= i < |s| => s[i] as int)
  }

  const EXHAUSTED_TEXT := "{\"error\":{\"code\":\"resource_exhausted\"}}"

  /** resourceExhaustedEndStreamFrame. */
  function Exhausted(): (r: Bytes)
    ensures Frame(r) && EndFlag(r[0]) && PayloadSize(r) <= CONTROL_MAX
  {
    var payload := AsBytes(EXHAUSTED_TEXT);
    EnvelopeIsFrame(END_STREAM, payload);
    Envelope(END_STREAM, payload)
  }

  predicate Complete(data: Bytes) {
    |data| >= HEADER && |data| >= HEADER + PayloadSize(data)
  }

  function FirstFrame(data: Bytes): Bytes
    requires Complete(data)
  {
    data[..HEADER + PayloadSize(data)]
  }

  function AfterFrame(data: Bytes): Bytes
    requires Complete(data)
  {
    data[HEADER + PayloadSize(data)..]
  }

  /** The frames a whole body is turned into. */
  function Reframe(data: Bytes, limit: int): seq<Bytes>
    decreases |data|
  {
    if !Complete(data) then
      if data == [] then [] else [Exhausted()]
    else if EndFlag(data[0]) then
      [if PayloadSize(data) > CONTROL_MAX then Exhausted() else FirstFrame(data)]
    else if PayloadSize(data) > limit then
      [Exhausted()]
    else
      [FirstFrame(data)] + Reframe(AfterFrame(data), limit)
  }

  function Joined(chunks: seq<Bytes>): Bytes {
    if chunks == [] then [] else chunks[0] + Joined(chunks[1..])
  }

  // ----- incremental processing -----

  /** A complete frame at the front is the same whatever follows it. */
  lemma {:induction false} FrontIsStable(data: Bytes, more: Bytes)
    requires Complete(data)
    ensures Complete(data + more) && FirstFrame(data + more) == FirstFrame(data)
    ensures AfterFrame(data + more) == AfterFrame(data) + more
    ensures (data + more)[0] == data[0] && PayloadSize(data + more) == PayloadSize(data)
  {
    assert forall k :: 0 <= k < HEADER ==> (data + more)[k] == data[k];
  }

  lemma {:induction false} FrontEnds(data: Bytes, more: Bytes, limit: int)
    requires Complete(data)
    ensures Reframe(data + more, limit) ==
              if EndFlag(data[0]) then [if PayloadSize(data) > CONTROL_MAX then Exhausted() else FirstFrame(data)]
              else if PayloadSize(data) > limit then [Exhausted()]
              else [FirstFrame(data)] + Reframe(AfterFrame(data) + more, limit)
  {
    hide EndFlag, PayloadSize, Exhausted;
    FrontIsStable(data, more);
  }

  lemma {:induction false} JoinedFirst(chunks: seq<Bytes>, k: nat)
    requires k < |chunks|
    ensures Joined(chunks[k..]) == chunks[k] + Joined(chunks[k + 1..])
  {
    assert chunks[k..][1..] == chunks[k + 1..];
  }

  /** boundConnectStreamBody: consumes its input chunk by chunk and yields the
      frames of the joined input, however it was cut. */
  method BoundConnectStreamBody(chunks: seq<Bytes>, limit: int) returns (out: seq<Bytes>)
    ensures out == Reframe(Joined(chunks), limit)
  {
    hide EndFlag, PayloadSize, Exhausted, Complete, Reframe, FirstFrame, AfterFrame, Joined;
    out := [];
    var pending: Bytes := [];
    ghost var all := Reframe(Joined(chunks), limit);
    assert chunks[0..] == chunks && [] + Joined(chunks) == Joined(chunks);
    ReframeRest([], limit);
    for k := 0 to |chunks|
      invariant !Complete(pending)
      invariant all == out + Reframe(pending + Joined(chunks[k..]), limit)
    {
      ghost var rest := Joined(chunks[k + 1..]);
      JoinedFirst(chunks, k);
      assert pending + (chunks[k] + rest) == pending + chunks[k] + rest;
      pending := pending + chunks[k];
      while Complete(pending)
        invariant all == out + Reframe(pending + rest, limit)
        decreases |pending|
      {
        FrontEnds(pending, rest, limit);
        AfterShrinks(pending);
        var payloadLength := PayloadSize(pending);
        var frame := FirstFrame(pending);
        var flags := pending[0];
        pending := AfterFrame(pending);
        if EndFlag(flags) {
          if payloadLength > CONTROL_MAX {
            out := out + [Exhausted()];
          } else {
            out := out + [frame];
          }
          return;
        }
        if payloadLength > limit {
          out := out + [Exhausted()];
          return;
        }
        out := out + [frame];
      }
    }
    NothingJoined();
    assert chunks[|chunks|..] == [] && pending + [] == pending;
    ReframeRest(pending, limit);
    if |pending| > 0 {
      out := out + [Exhausted()];
    }
  }

  lemma {:induction false} AfterShrinks(data: Bytes)
    requires Complete(data)
    ensures |data| > 0 && |data| >= HEADER && |AfterFrame(data)| < |data|
  {
  }

  lemma {:induction false} ReframeRest(data: Bytes, limit: int)
    requires data == [] || !Complete(data)
    ensures !Complete(data) && Reframe(data, limit) == if data == [] then [] else [Exhausted()]
  {
  }

  // ----- what comes out -----

  /** A frame that may be passed on. */
  predicate Allowed(frame: Bytes, limit: int) {
    && Frame(frame)
    && if EndFlag(frame[0]) then PayloadSize(frame) <= CONTROL_MAX else PayloadSize(frame) <= limit
  }

  lemma {:induction false} FirstIsFrame(data: Bytes)
    requires Complete(data)
    ensures Frame(FirstFrame(data)) && FirstFrame(data)[0] == data[0]
    ensures PayloadSize(FirstFrame(data)) == PayloadSize(data)
  {
    assert forall k :: 0 <= k < HEADER ==> FirstFrame(data)[k] == data[k];
  }

  /** Every frame that comes out is complete and within its limit, and an
      end-stream frame can only be the last one. */
  lemma {:induction false} OutputIsBounded(data: Bytes, limit: int, k: nat)
    requires k < |Reframe(data, limit)|
    ensures Allowed(Reframe(data, limit)[k], limit)
    ensures EndFlag(Reframe(data, limit)[k][0]) ==> k == |Reframe(data, limit)| - 1
    decreases |data|
  {
    hide EndFlag, PayloadSize, FirstFrame, AfterFrame, Frame;
    if Complete(data) {
      FirstIsFrame(data);
      AfterShrinks(data);
      if !EndFlag(data[0]) && PayloadSize(data) <= limit && k > 0 {
        OutputIsBounded(AfterFrame(data), limit, k - 1);
      }
    }
  }

  /** A body that stays within the limits: data frames, then possibly one
      end-stream frame. */
  predicate WellFormedBody(frames: seq<Bytes>, limit: int) {
    forall k :: 0 <= k < |frames| ==> Allowed(frames[k], limit) && (EndFlag(frames[k][0]) ==> k == |frames| - 1)
  }

  lemma {:induction false} FrameFirst(frame: Bytes, rest: Bytes)
    requires Frame(frame)
    ensures Complete(frame + rest) && FirstFrame(frame + rest) == frame && AfterFrame(frame + rest) == rest
    ensures (frame + rest)[0] == frame[0] && PayloadSize(frame + rest) == PayloadSize(frame)
  {
    assert forall k :: 0 <= k < HEADER ==> (frame + rest)[k] == frame[k];
  }

  /** Well-formed bodies pass through unchanged; anything after an end-stream
      frame is dropped. */
  lemma {:induction false} WellFormedPasses(frames: seq<Bytes>, trailing: Bytes, limit: int)
    requires WellFormedBody(frames, limit)
    requires trailing != [] ==> frames != [] && frames[|frames| - 1] != [] && EndFlag(frames[|frames| - 1][0])
    ensures Reframe(Joined(frames) + trailing, limit) == frames
    decreases |frames|
  {
    hide EndFlag, PayloadSize, FirstFrame, AfterFrame;
    if frames == [] {
      assert Joined(frames) + trailing == [];
      assert !Complete([]);
    } else {
      var rest := Joined(frames[1..]) + trailing;
      assert Joined(frames) + trailing == frames[0] + rest;
      assert Allowed(frames[0], limit);
      FrameFirst(frames[0], rest);
      if EndFlag(frames[0][0]) {
        assert frames == [frames[0]];
      } else {
        assert forall k :: 0 <= k < |frames[1..]| ==> frames[1..][k] == frames[k + 1];
        WellFormedTail(frames, limit);
        assert |frames| == 1 ==> trailing == [];
        WellFormedPasses(frames[1..], trailing, limit);
        assert frames == [frames[0]] + frames[1..];
      }
    }
  }

  lemma {:induction false} WellFormedTail(frames: seq<Bytes>, limit: int)
    requires frames != [] && WellFormedBody(frames, limit)
    ensures WellFormedBody(frames[1..], limit)
  {
    hide EndFlag, PayloadSize;
    var tail := frames[1..];
    forall k | 0 <= k < |tail|
      ensures Allowed(tail[k], limit) && (EndFlag(tail[k][0]) ==> k == |tail| - 1)
    {
      assert tail[k] == frames[k + 1];
    }
  }

  /** The output is a run of the input's own frames, except that its last frame
      may be the synthetic one, which replaces a truncated or oversized frame. */
  lemma {:induction false} OutputFollowsInput(data: Bytes, limit: int)
    ensures var out := Reframe(data, limit);
            || Joined(out) <= data
            || (out != [] && out[|out| - 1] == Exhausted() && Joined(out[..|out| - 1]) <= data)
    decreases |data|
  {
    hide EndFlag, PayloadSize, Exhausted, Joined, FirstFrame, AfterFrame;
    if Complete(data) {
      if EndFlag(data[0]) || PayloadSize(data) > limit {
        OnlyFrame(data, limit);
      } else {
        AfterShrinks(data);
        OutputFollowsInput(AfterFrame(data), limit);
        FrameInFront(data, Reframe(AfterFrame(data), limit));
      }
    } else {
      var out := Reframe(data, limit);
      assert out == [] || out[..0] == [];
      NothingJoined();
    }
  }

  lemma {:induction false} NothingJoined()
    ensures Joined([]) == []
  {
  }

  lemma {:induction false} OnlyFrame(data: Bytes, limit: int)
    requires Complete(data)
    ensures Joined([FirstFrame(data)]) <= data && Joined([]) <= data && [Exhausted()][..0] == []
  {
    assert [FirstFrame(data)][1..] == [];
    assert Joined([]) == [];
    assert Joined([FirstFrame(data)]) == FirstFrame(data);
  }

  lemma {:induction false} FrameInFront(data: Bytes, rest: seq<Bytes>)
    requires Complete(data)
    ensures var out := [FirstFrame(data)] + rest;
            && (Joined(rest) <= AfterFrame(data) ==> Joined(out) <= data)
            && (rest != [] && Joined(rest[..|rest| - 1]) <= AfterFrame(data) ==> Joined(out[..|out| - 1]) <= data)
  {
    var out := [FirstFrame(data)] + rest;
    assert out[1..] == rest;
    assert data == FirstFrame(data) + AfterFrame(data);
    if rest != [] {
      assert out[..|out| - 1] == [FirstFrame(data)] + rest[..|rest| - 1];
      assert ([FirstFrame(data)] + rest[..|rest| - 1])[1..] == rest[..|rest| - 1];
    }
  }
}
