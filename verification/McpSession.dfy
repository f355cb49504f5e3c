/** The MCP stdio session as atomic steps: one reader loop and one goroutine for
    each tools/call.  A call is named by the position of the step that read it. */
module McpSession {

  import opened Results

  /** How far a call's goroutine is: in its handler, past its locked section with
      a response to write, or gone. */
  datatype Phase = Running | Responding | Gone

  datatype Call = Call(key: string, phase: Phase, canceled: bool)

  datatype Output = Reply(call: nat) | Inline

  datatype Step =
    | ReadCall(key: string)
    | ReadCancel(key: string)
    | ReadInline
    | ReadIgnored
    | Finish(call: nat)
    | Write(call: nat)
    | EndOfInput
    | Shutdown
    | Return

  datatype Session = Session(
    reading: bool,
    returned: bool,
    inflight: map<string, nat>,
    calls: map<nat, Call>,
    out: seq<Output>)

  const INITIAL := Session(true, false, map[], map[], [])

  /** The state after a step taken at the given position, if it is enabled. */
  function Next(s: Session, step: Step, now: nat): Option<Session> {
    match step
    case ReadCall(key) =>
      if !s.reading then None
      else Some(s.(inflight := s.inflight[key := now], calls := s.calls[now := Call(key, Running, false)]))
    case ReadCancel(key) =>
      if !s.reading then None
      else if key in s.inflight && s.inflight[key] in s.calls then
        var call := s.inflight[key];
        Some(s.(calls := s.calls[call := s.calls[call].(canceled := true)]))
      else Some(s)
    case ReadInline => if !s.reading then None else Some(s.(out := s.out + [Inline]))
    case ReadIgnored => if !s.reading then None else Some(s)
    case Finish(call) =>
      if call !in s.calls || !s.calls[call].phase.Running? then None
      else
        var c := s.calls[call];
        var phase := if c.canceled then Gone else Responding;
        Some(s.(inflight := s.inflight - {c.key}, calls := s.calls[call := c.(phase := phase)]))
    case Write(call) =>
      if call !in s.calls || !s.calls[call].phase.Responding? then None
      else Some(s.(out := s.out + [Reply(call)], calls := s.calls[call := s.calls[call].(phase := Gone)]))
    case EndOfInput => if !s.reading then None else Some(s.(reading := false))
    case Shutdown => if !s.reading then None else Some(s.(reading := false))
    case Return =>
      if s.reading || s.returned || exists c :: c in s.calls && !s.calls[c].phase.Gone? then None
      else Some(s.(returned := true))
  }

  /** The state a whole interleaving leads to. */
  function After(steps: seq<Step>): Option<Session> {
    if steps == [] then
      Some(INITIAL)
    else match After(steps[..|steps| - 1])
         case None => None
         case Some(s) => Next(s, steps[|steps| - 1], |steps| - 1)
  }

  // ----- what a trace says -----

  predicate Reads(steps: seq<Step>, call: nat) {
    call < |steps| && steps[call].ReadCall?
  }

  ghost predicate Finished(steps: seq<Step>, call: nat) {
    exists k :: 0 <= k < |steps| && steps[k] == Finish(call)
  }

  /** Cancelled while in flight: after it was read and before it finished. */
  ghost predicate CancelledInFlight(steps: seq<Step>, call: nat)
    requires Reads(steps, call)
  {
    exists k :: call < k < |steps| && steps[k] == ReadCancel(steps[call].key) && !Finished(steps[..k], call)
  }

  /** Whether the step at k takes an id's entry in the inflight map away from
      whoever holds it: a call with that id is read, or one finishes. */
  predicate Displaces(steps: seq<Step>, k: nat, key: string)
    requires k < |steps|
  {
    || steps[k] == ReadCall(key)
    || (steps[k].Finish? && steps[k].call < k && steps[steps[k].call] == ReadCall(key))
  }

  /** The call still holds its entry. */
  predicate Registered(steps: seq<Step>, call: nat)
    requires Reads(steps, call)
  {
    forall k :: call < k < |steps| ==> !Displaces(steps, k, steps[call].key)
  }

  /** A cancellation found the call. */
  predicate Reached(steps: seq<Step>, call: nat)
    requires Reads(steps, call)
  {
    exists k :: call < k < |steps| && steps[k] == ReadCancel(steps[call].key) && Registered(steps[..k], call)
  }

  function Replies(out: seq<Output>, call: nat): nat {
    if out == [] then
      0
    else
      Replies(out[..|out| - 1], call) + if out[|out| - 1] == Reply(call) then 1 else 0
  }

  // ----- the invariant -----

  ghost predicate CallMatches(steps: seq<Step>, s: Session, call: nat)
    requires Reads(steps, call)
  {
    && call in s.calls
    && s.calls[call].key == steps[call].key
    && (s.calls[call].phase.Running? <==> !Finished(steps, call))
    && (s.calls[call].canceled <==> Reached(steps, call))
    && (s.calls[call].phase.Responding? ==> !s.calls[call].canceled)
    && Replies(s.out, call) == if s.calls[call].phase.Gone? && !s.calls[call].canceled then 1 else 0
  }

  /** The inflight map holds exactly the calls that hold their entries. */
  ghost predicate InflightMatches(steps: seq<Step>, s: Session) {
    && (forall call: nat :: Reads(steps, call) && Registered(steps, call) ==>
          steps[call].key in s.inflight && s.inflight[steps[call].key] == call)
    && (forall key :: key in s.inflight ==>
          Reads(steps, s.inflight[key]) && Registered(steps, s.inflight[key]) && steps[s.inflight[key]].key == key)
  }

  /** A call finishes only after it was read. */
  predicate Orderly(steps: seq<Step>) {
    forall k :: 0 <= k < |steps| && steps[k].Finish? ==> steps[k].call < k && steps[steps[k].call].ReadCall?
  }

  ghost predicate Invariant(steps: seq<Step>, s: Session) {
    && Orderly(steps)
    && (forall call :: call in s.calls ==> Reads(steps, call))
    && (forall call: nat :: Reads(steps, call) ==> CallMatches(steps, s, call))
    && InflightMatches(steps, s)
    && (forall call: nat :: !Reads(steps, call) ==> Replies(s.out, call) == 0)
    && (s.returned ==> !s.reading && forall call :: call in s.calls ==> s.calls[call].phase.Gone?)
  }

  // ----- one more step -----

  lemma {:induction false} FinishedExtend(steps: seq<Step>, x: Step, call: nat)
    ensures Finished(steps + [x], call) <==> Finished(steps, call) || x == Finish(call)
  {
    var more := steps + [x];
    if Finished(steps, call) {
      var k :| 0 <= k < |steps| && steps[k] == Finish(call);
      assert more[k] == Finish(call);
    }
    if x == Finish(call) {
      assert more[|steps|] == Finish(call);
    }
  }

  /** Whether a step displaces an entry depends only on the steps before it. */
  lemma {:induction false} DisplacesBefore(steps: seq<Step>, more: seq<Step>, k: nat, key: string)
    requires k < |steps| <= |more| && steps <= more
    ensures Displaces(more, k, key) <==> Displaces(steps, k, key)
  {
  }

  lemma {:induction false} RegisteredExtend(steps: seq<Step>, x: Step, call: nat)
    requires Reads(steps, call)
    ensures Registered(steps + [x], call) <==>
              Registered(steps, call) && !Displaces(steps + [x], |steps|, steps[call].key)
  {
    hide Displaces;
    var more, key := steps + [x], steps[call].key;
    forall k | 0 <= k < |steps|
      ensures Displaces(more, k, key) <==> Displaces(steps, k, key)
    {
      DisplacesBefore(steps, more, k, key);
    }
    assert more[call].key == key;
    if Registered(steps, call) && !Displaces(more, |steps|, key) {
      forall k | call < k < |more|
        ensures !Displaces(more, k, key)
      {
        assert k < |steps| ==> !Displaces(steps, k, key);
      }
    }
    if Registered(more, call) {
      forall k | call < k < |steps|
        ensures !Displaces(steps, k, key)
      {
        assert !Displaces(more, k, key);
      }
    }
  }

  lemma {:induction false} ReachedExtend(steps: seq<Step>, x: Step, call: nat)
    requires Reads(steps, call)
    ensures Reached(steps + [x], call) <==>
              Reached(steps, call) || (x == ReadCancel(steps[call].key) && Registered(steps, call))
  {
    hide Registered;
    var more := steps + [x];
    assert more[..|steps|] == steps;
    if Reached(steps, call) {
      var k :| call < k < |steps| && steps[k] == ReadCancel(steps[call].key) && Registered(steps[..k], call);
      assert more[..k] == steps[..k] && more[k] == steps[k];
    }
    if x == ReadCancel(steps[call].key) && Registered(steps, call) {
      assert more[|steps|] == x;
    }
    if Reached(more, call) {
      var k :| call < k < |more| && more[k] == ReadCancel(more[call].key) && Registered(more[..k], call);
      if k < |steps| {
        assert more[..k] == steps[..k] && more[k] == steps[k];
      }
    }
  }

  lemma {:induction false} ReadExtend(steps: seq<Step>, x: Step, call: nat)
    ensures Reads(steps + [x], call) <==> Reads(steps, call) || (call == |steps| && x.ReadCall?)
  {
  }

  lemma {:induction false} RepliesExtend(out: seq<Output>, x: Output, call: nat)
    ensures Replies(out + [x], call) == Replies(out, call) + if x == Reply(call) then 1 else 0
  {
    assert (out + [x])[..|out|] == out;
  }

  /** A call that holds its entry has not finished. */
  lemma {:induction false} RegisteredIsUnfinished(steps: seq<Step>, call: nat)
    requires Orderly(steps) && Reads(steps, call) && Registered(steps, call)
    ensures !Finished(steps, call)
  {
    forall k | 0 <= k < |steps|
      ensures steps[k] != Finish(call)
    {
      assert call < k ==> !Displaces(steps, k, steps[call].key);
    }
  }

  /** A cancellation reaches exactly the call that holds the id's entry. */
  lemma {:induction false} CancelHits(steps: seq<Step>, s: Session, key: string, call: nat)
    requires Invariant(steps, s) && Reads(steps, call)
    ensures key in s.inflight && s.inflight[key] in s.calls && s.inflight[key] == call <==>
              steps[call].key == key && Registered(steps, call)
    ensures Registered(steps, call) ==> !Finished(steps, call)
  {
    hide Finished, Reached, Registered, Replies;
    assert CallMatches(steps, s, call);
    if Registered(steps, call) {
      RegisteredIsUnfinished(steps, call);
    }
  }

  lemma {:induction false} OldCall(steps: seq<Step>, x: Step, s: Session, t: Session, call: nat)
    requires Invariant(steps, s) && Next(s, x, |steps|) == Some(t) && Reads(steps, call)
    ensures Reads(steps + [x], call) && CallMatches(steps + [x], t, call)
  {
    hide Finished, Reached, Registered, InflightMatches, Replies, Orderly;
    ReadExtend(steps, x, call);
    FinishedExtend(steps, x, call);
    ReachedExtend(steps, x, call);
    assert CallMatches(steps, s, call);
    match x
    case ReadCancel(key) =>
      CancelHits(steps, s, key, call);
    case ReadInline =>
      RepliesExtend(s.out, Inline, call);
    case Write(other) =>
      RepliesExtend(s.out, Reply(other), call);
    case _ =>
  }

  lemma {:induction false} NewCall(steps: seq<Step>, key: string, s: Session)
    requires Invariant(steps, s) && s.reading
    ensures var x := ReadCall(key);
            var t := Next(s, x, |steps|).value;
            Reads(steps + [x], |steps|) && CallMatches(steps + [x], t, |steps|)
  {
    hide Replies;
    var call := |steps|;
    FinishedExtend(steps, ReadCall(key), call);
    assert !Reads(steps, call);
    assert !Finished(steps, call);
  }

  lemma {:induction false} OrderlyStep(steps: seq<Step>, x: Step, s: Session, t: Session)
    requires Invariant(steps, s) && Next(s, x, |steps|) == Some(t)
    ensures Orderly(steps + [x])
  {
    hide Finished, Reached, Registered, InflightMatches, Replies, CallMatches;
  }

  lemma {:induction false} InflightCall(steps: seq<Step>, x: Step, s: Session, t: Session, call: nat)
    requires Invariant(steps, s) && Next(s, x, |steps|) == Some(t)
    requires Reads(steps + [x], call) && Registered(steps + [x], call)
    ensures var key := (steps + [x])[call].key; key in t.inflight && t.inflight[key] == call
  {
    hide Finished, Reached, Registered, Replies, Orderly;
    ReadExtend(steps, x, call);
    if call < |steps| {
      RegisteredExtend(steps, x, call);
      if x.Finish? {
        assert CallMatches(steps, s, x.call);
      }
    }
  }

  lemma {:induction false} InflightKey(steps: seq<Step>, x: Step, s: Session, t: Session, key: string)
    requires Invariant(steps, s) && Next(s, x, |steps|) == Some(t) && key in t.inflight
    ensures var call := t.inflight[key];
            Reads(steps + [x], call) && Registered(steps + [x], call) && (steps + [x])[call].key == key
  {
    hide Finished, Reached, Registered, Replies, Orderly;
    var call := t.inflight[key];
    ReadExtend(steps, x, call);
    if call < |steps| {
      if x.Finish? {
        assert CallMatches(steps, s, x.call);
      }
      RegisteredExtend(steps, x, call);
    } else {
      JustRegistered(steps, x);
    }
  }

  lemma {:induction false} JustRegistered(steps: seq<Step>, x: Step)
    requires x.ReadCall?
    ensures Reads(steps + [x], |steps|) && Registered(steps + [x], |steps|)
  {
  }

  lemma {:induction false} InflightStep(steps: seq<Step>, x: Step, s: Session, t: Session)
    requires Invariant(steps, s) && Next(s, x, |steps|) == Some(t)
    ensures InflightMatches(steps + [x], t)
  {
    hide Registered, Invariant, Next;
    var more := steps + [x];
    forall call: nat | Reads(more, call) && Registered(more, call)
      ensures more[call].key in t.inflight && t.inflight[more[call].key] == call
    {
      InflightCall(steps, x, s, t, call);
    }
    forall key | key in t.inflight
      ensures Reads(more, t.inflight[key]) && Registered(more, t.inflight[key]) && more[t.inflight[key]].key == key
    {
      InflightKey(steps, x, s, t, key);
    }
  }

  lemma {:induction false} NoReply(steps: seq<Step>, x: Step, s: Session, t: Session, call: nat)
    requires Invariant(steps, s) && Next(s, x, |steps|) == Some(t) && !Reads(steps, call)
    ensures Replies(t.out, call) == 0
  {
    hide Finished, Reached, Replies, CallMatches, InflightMatches, Orderly;
    match x
    case ReadInline =>
      RepliesExtend(s.out, Inline, call);
    case Write(other) =>
      RepliesExtend(s.out, Reply(other), call);
    case _ =>
  }

  /** Every step keeps the invariant, whatever ids the client sends. */
  lemma {:induction false} StepPreserves(steps: seq<Step>, x: Step, s: Session, t: Session)
    requires Invariant(steps, s) && Next(s, x, |steps|) == Some(t)
    ensures Invariant(steps + [x], t)
  {
    hide Finished, Reached, Registered, Replies, CallMatches, InflightMatches, Orderly;
    var more := steps + [x];
    OrderlyStep(steps, x, s, t);
    InflightStep(steps, x, s, t);
    forall call: nat | Reads(more, call)
      ensures CallMatches(more, t, call)
    {
      ReadExtend(steps, x, call);
      if Reads(steps, call) {
        OldCall(steps, x, s, t, call);
      } else {
        NewCall(steps, x.key, s);
      }
    }
    forall call: nat | !Reads(more, call)
      ensures Replies(t.out, call) == 0
    {
      ReadExtend(steps, x, call);
      NoReply(steps, x, s, t, call);
    }
    forall call | call in t.calls
      ensures Reads(more, call)
    {
      ReadExtend(steps, x, call);
      KnownCall(s, x, t, |steps|, call);
    }
  }

  lemma {:induction false} KnownCall(s: Session, x: Step, t: Session, now: nat, call: nat)
    requires Next(s, x, now) == Some(t) && call in t.calls
    ensures call in s.calls || (call == now && x.ReadCall?)
  {
  }
}
