/** Every interleaving of an MCP stdio session. */
module McpRuns {

  import opened McpSession
  import opened Results

  lemma {:induction false} AfterExtend(steps: seq<Step>, x: Step)
    ensures After(steps + [x]) ==
              match After(steps)
              case None => None
              case Some(s) => Next(s, x, |steps|)
  {
    hide Next;
    assert (steps + [x])[..|steps|] == steps;
  }

  lemma {:induction false} AfterPrefix(steps: seq<Step>, k: nat)
    requires After(steps).Some? && k <= |steps|
    ensures After(steps[..k]).Some?
  {
    hide Next;
    if k == |steps| {
      assert steps[..k] == steps;
    } else {
      AfterPrefix(steps[..|steps| - 1], k);
      assert steps[..|steps| - 1][..k] == steps[..k];
    }
  }

  lemma {:induction false} StartHolds()
    ensures Invariant([], INITIAL)
  {
  }

  /** Every reachable state satisfies the invariant, whatever ids the client
      sends. */
  lemma {:induction false} Reachable(steps: seq<Step>)
    requires After(steps).Some?
    ensures Invariant(steps, After(steps).value)
  {
    hide Next, Invariant;
    if steps == [] {
      StartHolds();
    } else {
      var init, x := steps[..|steps| - 1], steps[|steps| - 1];
      assert steps == init + [x];
      Reachable(init);
      StepPreserves(init, x, After(init).value, After(steps).value);
    }
  }

  /** Each tools/call is answered at most once, never if a cancellation found it,
      and otherwise exactly once by the time the session returns. */
  lemma {:induction false} OneResponseEach(steps: seq<Step>, call: nat)
    requires After(steps).Some? && Reads(steps, call)
    ensures var s := After(steps).value;
            && Replies(s.out, call) <= 1
            && (Reached(steps, call) ==> Replies(s.out, call) == 0)
            && (s.returned ==> Replies(s.out, call) == if Reached(steps, call) then 0 else 1)
            && (s.returned ==> Finished(steps, call))
  {
    hide After, Reached, Finished, Replies;
    Reachable(steps);
    assert CallMatches(steps, After(steps).value, call);
  }

  /** Only calls that were read are ever answered. */
  lemma {:induction false} NoStrayResponses(steps: seq<Step>, call: nat)
    requires After(steps).Some? && !Reads(steps, call)
    ensures Replies(After(steps).value.out, call) == 0
  {
    hide After, Replies;
    Reachable(steps);
  }

  /** The inflight map holds exactly the calls that still hold their entries, each
      under its own id. */
  lemma {:induction false} InflightIsRegistered(steps: seq<Step>, key: string, call: nat)
    requires After(steps).Some?
    ensures key in After(steps).value.inflight && After(steps).value.inflight[key] == call <==>
              Reads(steps, call) && steps[call].key == key && Registered(steps, call)
  {
    hide After, Reached, Registered, Finished, Replies, CallMatches;
    Reachable(steps);
  }

  // ----- cancelled in flight -----

  /** A call with the id was read and has not finished. */
  ghost predicate Unfinished(steps: seq<Step>, call: nat, key: string) {
    Reads(steps, call) && steps[call].key == key && !Finished(steps, call)
  }

  /** The inflight map holds exactly the unfinished calls. */
  ghost predicate HoldsUnfinished(steps: seq<Step>, s: Session) {
    forall key, call :: key in s.inflight && s.inflight[key] == call <==> Unfinished(steps, call, key)
  }

  /** The call lost its entry while unfinished, no cancellation came before that,
      and one came after. */
  ghost predicate CancellationLost(steps: seq<Step>, call: nat)
    requires Reads(steps, call)
  {
    exists j, k :: call < j < k < |steps| && LostAt(steps, call, j, k)
  }

  ghost predicate LostAt(steps: seq<Step>, call: nat, j: nat, k: nat)
    requires Reads(steps, call) && call < j < k < |steps|
  {
    var key := steps[call].key;
    && Displaces(steps, j, key)
    && (forall i :: call < i < j ==> steps[i] != ReadCancel(key))
    && steps[k] == ReadCancel(key) && !Finished(steps[..k], call)
  }

  lemma {:induction false} RegisteredPrefix(steps: seq<Step>, k: nat, call: nat)
    requires call < k <= |steps| && Reads(steps, call)
    ensures Registered(steps[..k], call) <==> forall j :: call < j < k ==> !Displaces(steps, j, steps[call].key)
  {
    hide Displaces;
    forall j | 0 <= j < k
      ensures Displaces(steps, j, steps[call].key) <==> Displaces(steps[..k], j, steps[call].key)
    {
      DisplacesBefore(steps[..k], steps, j, steps[call].key);
    }
  }

  /** The first step that displaces an entry. */
  lemma {:induction false} FirstDisplacer(
    steps: seq<Step>, call: nat, key: string, from: nat, end: nat) returns (j: nat)
    requires call < from <= end <= |steps|
    requires forall i :: call < i < from ==> !Displaces(steps, i, key)
    requires exists i :: from <= i < end && Displaces(steps, i, key)
    ensures from <= j < end && Displaces(steps, j, key) && forall i :: call < i < j ==> !Displaces(steps, i, key)
    decreases end - from
  {
    hide Displaces;
    if Displaces(steps, from, key) {
      j := from;
    } else {
      j := FirstDisplacer(steps, call, key, from + 1, end);
    }
  }

  lemma {:induction false} ReachedIsCancelled(steps: seq<Step>, call: nat)
    requires Orderly(steps) && Reads(steps, call) && Reached(steps, call)
    ensures CancelledInFlight(steps, call)
  {
    hide Registered, Finished;
    var k :| call < k < |steps| && steps[k] == ReadCancel(steps[call].key) && Registered(steps[..k], call);
    RegisteredIsUnfinished(steps[..k], call);
  }

  lemma {:induction false} LostIsUnreached(steps: seq<Step>, call: nat, j: nat, k: nat)
    requires Reads(steps, call) && call < j < k < |steps| && LostAt(steps, call, j, k)
    ensures CancelledInFlight(steps, call) && !Reached(steps, call)
  {
    hide Registered, Finished;
    forall i | call < i < |steps| && steps[i] == ReadCancel(steps[call].key)
      ensures !Registered(steps[..i], call)
    {
      RegisteredPrefix(steps, i, call);
      assert j < i;
    }
  }

  lemma {:induction false} UnreachedIsLost(steps: seq<Step>, call: nat)
    requires Reads(steps, call) && CancelledInFlight(steps, call) && !Reached(steps, call)
    ensures CancellationLost(steps, call)
  {
    hide Registered, Finished, Displaces;
    var key := steps[call].key;
    var k :| call < k < |steps| && steps[k] == ReadCancel(key) && !Finished(steps[..k], call);
    RegisteredPrefix(steps, k, call);
    var j := FirstDisplacer(steps, call, key, call + 1, k);
    forall i | call < i < j
      ensures steps[i] != ReadCancel(key)
    {
      RegisteredPrefix(steps, i, call);
    }
    assert LostAt(steps, call, j, k);
  }

  /** A call cancelled in flight is reached by the cancellation unless the
      cancellation was lost. */
  lemma {:induction false} ReachedIff(steps: seq<Step>, call: nat)
    requires Orderly(steps) && Reads(steps, call)
    ensures Reached(steps, call) <==> CancelledInFlight(steps, call) && !CancellationLost(steps, call)
    ensures CancellationLost(steps, call) ==> CancelledInFlight(steps, call)
  {
    hide Reached, CancelledInFlight, LostAt;
    if Reached(steps, call) {
      ReachedIsCancelled(steps, call);
    }
    if CancellationLost(steps, call) {
      var j, k :| call < j < k < |steps| && LostAt(steps, call, j, k);
      LostIsUnreached(steps, call, j, k);
    }
    if CancelledInFlight(steps, call) && !Reached(steps, call) {
      UnreachedIsLost(steps, call);
    }
  }

  /** When the session has returned, a call got no response if it was cancelled in
      flight and one otherwise, exactly when its cancellation was not lost. */
  lemma {:induction false} PromiseIff(steps: seq<Step>, call: nat)
    requires After(steps).Some? && After(steps).value.returned && Reads(steps, call)
    ensures Replies(After(steps).value.out, call) == (if CancelledInFlight(steps, call) then 0 else 1)
       <==> !CancellationLost(steps, call)
  {
    hide After, Reached, CancelledInFlight, CancellationLost, Replies;
    Reachable(steps);
    OneResponseEach(steps, call);
    ReachedIff(steps, call);
  }

  /** The inflight map holds exactly the unfinished calls, exactly when no entry
      was taken from an unfinished call. */
  lemma {:induction false} InflightIsUnfinishedIff(steps: seq<Step>)
    requires After(steps).Some?
    ensures HoldsUnfinished(steps, After(steps).value) <==>
            forall call: nat :: Reads(steps, call) && !Finished(steps, call) ==> Registered(steps, call)
  {
    hide After, Finished, Registered;
    Reachable(steps);
    var s := After(steps).value;
    forall key, call: nat
      ensures key in s.inflight && s.inflight[key] == call <==>
                Reads(steps, call) && steps[call].key == key && Registered(steps, call)
    {
      InflightIsRegistered(steps, key, call);
    }
    forall call: nat | Reads(steps, call) && Registered(steps, call)
      ensures !Finished(steps, call)
    {
      RegisteredIsUnfinished(steps, call);
    }
    if HoldsUnfinished(steps, s) {
      forall call: nat | Reads(steps, call) && !Finished(steps, call)
        ensures Registered(steps, call)
      {
        assert Unfinished(steps, call, steps[call].key);
      }
    }
  }

  // ----- returning -----

  ghost predicate Settled(s: Session) {
    s.returned ==> !s.reading && forall call :: call in s.calls ==> s.calls[call].phase.Gone?
  }

  lemma {:induction false} AlwaysSettled(steps: seq<Step>)
    requires After(steps).Some?
    ensures Settled(After(steps).value)
  {
    if steps != [] {
      AlwaysSettled(steps[..|steps| - 1]);
    }
  }

  /** After the session has returned no step is possible: nothing is read and
      nothing more is written. */
  lemma {:induction false} NothingAfterReturn(steps: seq<Step>, x: Step)
    requires After(steps).Some? && After(steps).value.returned
    ensures After(steps + [x]).None?
  {
    hide After;
    AlwaysSettled(steps);
    AfterExtend(steps, x);
  }

  function Pending(s: Session): set<nat> {
    set c | c in s.calls && !s.calls[c].phase.Gone?
  }

  function Answering(s: Session): set<nat> {
    set c | c in s.calls && s.calls[c].phase.Running?
  }

  lemma {:induction false} FinishOne(s: Session, call: nat, now: nat)
    requires call in s.calls && s.calls[call].phase.Running?
    ensures Next(s, Finish(call), now).Some?
    ensures var t := Next(s, Finish(call), now).value;
            && Pending(t) <= Pending(s) && Answering(t) < Answering(s)
            && t.reading == s.reading && t.returned == s.returned
  {
    var t := Next(s, Finish(call), now).value;
    assert call in Answering(s) && call !in Answering(t);
  }

  lemma {:induction false} WriteOne(s: Session, call: nat, now: nat)
    requires call in s.calls && s.calls[call].phase.Responding?
    ensures Next(s, Write(call), now).Some?
    ensures var t := Next(s, Write(call), now).value;
            && Pending(t) < Pending(s) && Answering(t) == Answering(s)
            && t.reading == s.reading && t.returned == s.returned
  {
    var t := Next(s, Write(call), now).value;
    assert call in Pending(s) && call !in Pending(t);
  }

  /** Once input has ended, the session can always be brought to its return by
      its calls alone: no interleaving gets stuck. */
  lemma {:induction false} CanReturn(steps: seq<Step>) returns (more: seq<Step>)
    requires After(steps).Some? && !After(steps).value.reading && !After(steps).value.returned
    ensures After(steps + more).Some? && After(steps + more).value.returned
    ensures forall k :: 0 <= k < |more| ==> more[k].Finish? || more[k].Write? || more[k].Return?
    decreases Pending(After(steps).value), Answering(After(steps).value)
  {
    hide After, Pending, Answering;
    var s := After(steps).value;
    if call :| call in s.calls && s.calls[call].phase.Running? {
      FinishOne(s, call, |steps|);
      AfterExtend(steps, Finish(call));
      var rest := CanReturn(steps + [Finish(call)]);
      more := [Finish(call)] + rest;
      assert steps + more == steps + [Finish(call)] + rest;
    } else if call :| call in s.calls && s.calls[call].phase.Responding? {
      WriteOne(s, call, |steps|);
      AfterExtend(steps, Write(call));
      var rest := CanReturn(steps + [Write(call)]);
      more := [Write(call)] + rest;
      assert steps + more == steps + [Write(call)] + rest;
    } else {
      AfterExtend(steps, Return);
      more := [Return];
    }
  }

  // ----- ids reused while in flight -----

  lemma {:induction false} FinishedGrows(steps: seq<Step>, more: seq<Step>, call: nat)
    requires steps <= more && Finished(steps, call)
    ensures Finished(more, call)
  {
    var k :| 0 <= k < |steps| && steps[k] == Finish(call);
    assert more[k] == Finish(call);
  }

  /** A call finishes once. */
  lemma {:induction false} FinishesOnce(steps: seq<Step>, k: nat, call: nat)
    requires After(steps).Some? && k < |steps| && steps[k] == Finish(call)
    ensures Reads(steps[..k], call) && !Finished(steps[..k], call)
  {
    hide After, Finished, Reached, Registered, InflightMatches, Replies;
    AfterPrefix(steps, k + 1);
    assert steps[..k + 1] == steps[..k] + [steps[k]];
    AfterExtend(steps[..k], steps[k]);
    Reachable(steps[..k]);
    assert CallMatches(steps[..k], After(steps[..k]).value, call);
  }

  /** Reading an id while a call with that id is unfinished exposes the new call:
      the older one's completion may remove the new one's entry, and then a
      cancellation is lost and the new call is answered. */
  lemma {:induction false} ReuseLosesCancellation(steps: seq<Step>, key: string, older: nat) returns (more: seq<Step>)
    requires After(steps).Some? && After(steps).value.reading && Unfinished(steps, older, key)
    ensures steps + [ReadCall(key)] <= more && After(more).Some? && Reads(more, |steps|)
    ensures CancellationLost(more, |steps|) && Replies(After(more).value.out, |steps|) == 1
    ensures forall k :: |steps| < k < |more| ==> more[k] != ReadCall(key)
  {
    hide After, CancellationLost, Finished, Replies, Invariant;
    var s, newer := After(steps).value, |steps|;
    Reachable(steps);
    OldIsRunning(steps, s, key, older);
    var a := steps + [ReadCall(key)];
    var b := a + [Finish(older)];
    var c := b + [ReadCancel(key)];
    var d := c + [Finish(newer)];
    more := d + [Write(newer)];
    AfterExtend(steps, ReadCall(key));
    AfterExtend(a, Finish(older));
    AfterExtend(b, ReadCancel(key));
    AfterExtend(c, Finish(newer));
    AfterExtend(d, Write(newer));
    RepliesExtend(s.out, Reply(newer), newer);
    LostCancellation(steps, s, key, older);
  }

  lemma {:induction false} OldIsRunning(steps: seq<Step>, s: Session, key: string, older: nat)
    requires Invariant(steps, s) && Unfinished(steps, older, key)
    ensures older < |steps| && older in s.calls && s.calls[older].key == key && s.calls[older].phase.Running?
    ensures Replies(s.out, |steps|) == 0
  {
    hide Finished, Reached, Replies;
    assert CallMatches(steps, s, older);
    assert !Reads(steps, |steps|);
  }

  lemma {:induction false} LostCancellation(steps: seq<Step>, s: Session, key: string, older: nat)
    requires Invariant(steps, s) && Unfinished(steps, older, key)
    ensures var n := |steps|;
            var more := steps + [ReadCall(key)] + [Finish(older)] + [ReadCancel(key)] + [Finish(n)] + [Write(n)];
            Reads(more, n) && CancellationLost(more, n)
  {
    hide Finished, InflightMatches, CallMatches, Replies;
    var n := |steps|;
    var before := steps + [ReadCall(key)] + [Finish(older)];
    var more := before + [ReadCancel(key)] + [Finish(n)] + [Write(n)];
    assert !Finished(steps, n) by {
      NotYetFinished(steps);
    }
    FinishedExtend(steps, ReadCall(key), n);
    FinishedExtend(steps + [ReadCall(key)], Finish(older), n);
    assert more[..n + 2] == before;
    assert more[n] == ReadCall(key) && more[n + 1] == Finish(older) && more[older] == steps[older];
    assert LostAt(more, n, n + 1, n + 2);
  }

  lemma {:induction false} NotYetFinished(steps: seq<Step>)
    requires Orderly(steps)
    ensures !Finished(steps, |steps|)
  {
  }

  /** A cancellation of a call can be lost only through an older call with its id
      that was unfinished when it was read, or a newer one. */
  lemma {:induction false} LostNeedsReuse(steps: seq<Step>, key: string, more: seq<Step>) returns (older: nat)
    requires steps + [ReadCall(key)] <= more && After(more).Some?
    requires Reads(more, |steps|) && CancellationLost(more, |steps|)
    requires forall k :: |steps| < k < |more| ==> more[k] != ReadCall(key)
    ensures Unfinished(steps, older, key)
  {
    hide After, Finished;
    var n := |steps|;
    assert more[n] == (steps + [ReadCall(key)])[n] == ReadCall(key);
    var j, k :| n < j < k < |more| && LostAt(more, n, j, k);
    older := more[j].call;
    FinishesOnce(more, j, older);
    assert older != n by {
      if more[j] == Finish(n) {
        assert more[..k][j] == Finish(n);
        IsFinished(more[..k], j, n);
      }
    }
    assert older < n && steps[older] == (steps + [ReadCall(key)])[older] == more[older];
    if Finished(steps, older) {
      assert steps <= more[..j];
      FinishedGrows(steps, more[..j], older);
    }
  }

  lemma {:induction false} IsFinished(steps: seq<Step>, k: nat, call: nat)
    requires k < |steps| && steps[k] == Finish(call)
    ensures Finished(steps, call)
  {
  }

  /** Reading an id is safe exactly when no call with that id is unfinished: only
      then can no continuation, without reading the id again, lose a cancellation
      of the new call. */
  lemma {:induction false} ReuseIff(steps: seq<Step>, key: string)
    requires After(steps).Some? && After(steps).value.reading
    ensures (exists older :: Unfinished(steps, older, key)) <==>
            exists more :: LosesNewCall(steps, key, more)
  {
    hide After, CancellationLost, Unfinished;
    if older :| Unfinished(steps, older, key) {
      var more := ReuseLosesCancellation(steps, key, older);
      assert LosesNewCall(steps, key, more);
    }
    if more :| LosesNewCall(steps, key, more) {
      var older := LostNeedsReuse(steps, key, more);
      assert Unfinished(steps, older, key);
    }
  }

  /** A continuation that reads the id once and loses a cancellation of that call. */
  ghost predicate LosesNewCall(steps: seq<Step>, key: string, more: seq<Step>) {
    && steps + [ReadCall(key)] <= more && After(more).Some?
    && (forall k :: |steps| < k < |more| ==> more[k] != ReadCall(key))
    && Reads(more, |steps|) && CancellationLost(more, |steps|)
  }

  // ----- clients that do not reuse ids in flight -----

  /** Ids are not reused while in flight. */
  ghost predicate NoReuse(steps: seq<Step>) {
    forall j, k :: 0 <= j < k < |steps| && steps[j].ReadCall? && steps[k] == steps[j] ==> Finished(steps[..k], j)
  }

  /** Without reuse an unfinished call keeps its entry. */
  lemma {:induction false} UnfinishedIsRegistered(steps: seq<Step>, call: nat)
    requires After(steps).Some? && NoReuse(steps) && Reads(steps, call) && !Finished(steps, call)
    ensures Registered(steps, call)
  {
    hide After, Finished;
    forall k | call < k < |steps|
      ensures !Displaces(steps, k, steps[call].key)
    {
      if steps[k] == steps[call] {
        FinishedGrows(steps[..k], steps, call);
      }
      if steps[k].Finish? && steps[k].call < k && steps[steps[k].call] == steps[call] {
        SameIdFinishes(steps, call, k);
      }
    }
  }

  lemma {:induction false} SameIdFinishes(steps: seq<Step>, call: nat, k: nat)
    requires After(steps).Some? && NoReuse(steps) && Reads(steps, call) && !Finished(steps, call)
    requires call < k < |steps| && steps[k].Finish? && steps[k].call < k
    ensures steps[steps[k].call] != steps[call]
  {
    hide After, Finished;
    var other := steps[k].call;
    IsFinished(steps, k, other);
    FinishesOnce(steps, k, other);
    if other < call && steps[other] == steps[call] {
      FinishedGrows(steps[..call], steps[..k], other);
    }
    if call < other && steps[other] == steps[call] {
      FinishedGrows(steps[..other], steps, call);
    }
  }

  lemma {:induction false} NoReusePrefix(steps: seq<Step>, k: nat)
    requires NoReuse(steps) && k <= |steps|
    ensures NoReuse(steps[..k])
  {
    hide Finished;
    var init := steps[..k];
    forall a, b | 0 <= a < b < |init| && init[a].ReadCall? && init[b] == init[a]
      ensures Finished(init[..b], a)
    {
      assert steps[a] == init[a] && steps[b] == init[b] && steps[..b] == init[..b];
    }
  }

  lemma {:induction false} NothingLost(steps: seq<Step>, call: nat)
    requires After(steps).Some? && NoReuse(steps) && Reads(steps, call)
    ensures Reached(steps, call) <==> CancelledInFlight(steps, call)
  {
    hide After, Finished, Registered, NoReuse, Invariant;
    if CancelledInFlight(steps, call) {
      var k :| call < k < |steps| && steps[k] == ReadCancel(steps[call].key) && !Finished(steps[..k], call);
      AfterPrefix(steps, k);
      NoReusePrefix(steps, k);
      UnfinishedIsRegistered(steps[..k], call);
    }
    if Reached(steps, call) {
      OrderlyRun(steps);
      ReachedIsCancelled(steps, call);
    }
  }

  lemma {:induction false} OrderlyRun(steps: seq<Step>)
    requires After(steps).Some?
    ensures Orderly(steps)
  {
    hide After, Orderly;
    Reachable(steps);
  }

  /** For such clients: no response to a call cancelled in flight, exactly one to
      every other, and an inflight map of exactly the unfinished calls. */
  lemma {:induction false} NoReuseKeepsPromise(steps: seq<Step>)
    requires After(steps).Some? && NoReuse(steps)
    ensures HoldsUnfinished(steps, After(steps).value)
    ensures forall call: nat :: Reads(steps, call) ==>
              var replies := Replies(After(steps).value.out, call);
              && (CancelledInFlight(steps, call) ==> replies == 0)
              && (After(steps).value.returned ==> replies == if CancelledInFlight(steps, call) then 0 else 1)
  {
    hide After, Finished, Registered, Reached, CancelledInFlight, NoReuse, Replies, HoldsUnfinished;
    forall call: nat | Reads(steps, call) && !Finished(steps, call)
      ensures Registered(steps, call)
    {
      UnfinishedIsRegistered(steps, call);
    }
    InflightIsUnfinishedIff(steps);
    forall call: nat | Reads(steps, call)
      ensures var replies := Replies(After(steps).value.out, call);
              && (CancelledInFlight(steps, call) ==> replies == 0)
              && (After(steps).value.returned ==> replies == if CancelledInFlight(steps, call) then 0 else 1)
    {
      NothingLost(steps, call);
      OneResponseEach(steps, call);
    }
  }

  // ----- two runs that reuse an id -----

  const LOSING: seq<Step> :=
    [ReadCall("1"), ReadCall("1"), Finish(0), ReadCancel("1"), Finish(1), Write(0), Write(1), EndOfInput, Return]

  const HARMLESS: seq<Step> :=
    [ReadCall("1"), ReadCall("1"), Finish(0), Finish(1), Write(0), Write(1), EndOfInput, Return]

  lemma {:induction false} AfterStep(steps: seq<Step>, k: nat)
    requires k < |steps|
    ensures After(steps[..k + 1]) ==
              match After(steps[..k])
              case None => None
              case Some(s) => Next(s, steps[k], k)
  {
    hide Next, After;
    assert steps[..k + 1] == steps[..k] + [steps[k]];
    AfterExtend(steps[..k], steps[k]);
  }

  const BOTH_RUNNING: map<nat, Call> := map[0 := Call("1", Running, false), 1 := Call("1", Running, false)]
  const FIRST_DONE: map<nat, Call> := map[0 := Call("1", Responding, false), 1 := Call("1", Running, false)]
  const BOTH_DONE: map<nat, Call> := map[0 := Call("1", Responding, false), 1 := Call("1", Responding, false)]

  lemma {:induction false} Read(now: nat, inflight: map<string, nat>, calls: map<nat, Call>)
    ensures Next(Session(true, false, inflight, calls, []), ReadCall("1"), now)
         == Some(Session(true, false, inflight["1" := now], calls[now := Call("1", Running, false)], []))
  {
  }

  lemma {:induction false} Done(call: nat, now: nat, inflight: map<string, nat>, calls: map<nat, Call>)
    requires call in calls && calls[call] == Call("1", Running, false)
    ensures Next(Session(true, false, inflight, calls, []), Finish(call), now)
         == Some(Session(true, false, inflight - {"1"}, calls[call := Call("1", Responding, false)], []))
  {
  }

  lemma {:induction false} TwoCalls(steps: seq<Step>)
    requires |steps| >= 3 && steps[..3] == [ReadCall("1"), ReadCall("1"), Finish(0)]
    ensures After(steps[..3]) == Some(Session(true, false, map[], FIRST_DONE, []))
  {
    hide Next;
    assert steps[0] == steps[..3][0] && steps[1] == steps[..3][1] && steps[2] == steps[..3][2];
    assert After(steps[..0]) == Some(INITIAL);
    AfterStep(steps, 0);
    Read(0, map[], map[]);
    AfterStep(steps, 1);
    Read(1, map["1" := 0], map[0 := Call("1", Running, false)]);
    assert map["1" := 0]["1" := 1] == map["1" := 1];
    assert map[0 := Call("1", Running, false)][1 := Call("1", Running, false)] == BOTH_RUNNING;
    AfterStep(steps, 2);
    Done(0, 2, map["1" := 1], BOTH_RUNNING);
    assert map["1" := 1] - {"1"} == map[];
    assert BOTH_RUNNING[0 := Call("1", Responding, false)] == FIRST_DONE;
  }

  lemma {:induction false} SecondDone(now: nat)
    ensures Next(Session(true, false, map[], FIRST_DONE, []), Finish(1), now)
         == Some(Session(true, false, map[], BOTH_DONE, []))
  {
    hide Next;
    Done(1, now, map[], FIRST_DONE);
    var none: map<string, nat> := map[];
    assert none - {"1"} == none;
    assert FIRST_DONE[1 := Call("1", Responding, false)] == BOTH_DONE;
  }

  lemma {:induction false} BothAnswered(steps: seq<Step>, k: nat)
    requires |steps| == k + 4 && steps[k..] == [Write(0), Write(1), EndOfInput, Return]
    requires After(steps[..k]) == Some(Session(true, false, map[], BOTH_DONE, []))
    ensures After(steps).Some? && After(steps).value.returned && After(steps).value.out == [Reply(0), Reply(1)]
  {
    hide After;
    assert steps[k] == steps[k..][0] && steps[k + 1] == steps[k..][1] && steps[k + 2] == steps[k..][2]
        && steps[k + 3] == steps[k..][3];
    AfterStep(steps, k);
    AfterStep(steps, k + 1);
    AfterStep(steps, k + 2);
    AfterStep(steps, k + 3);
    assert steps[..k + 4] == steps;
  }

  lemma {:induction false} TwoReplies(call: nat)
    requires call < 2
    ensures Replies([Reply(0), Reply(1)], call) == 1
  {
    RepliesExtend([Reply(0)], Reply(1), call);
    RepliesExtend([], Reply(0), call);
    assert [Reply(0)] + [Reply(1)] == [Reply(0), Reply(1)] && [] + [Reply(0)] == [Reply(0)];
  }

  /** The second call is cancelled in flight and answered all the same. */
  lemma {:induction false} LosingRun()
    ensures After(LOSING).Some? && After(LOSING).value.returned && Reads(LOSING, 1)
    ensures CancelledInFlight(LOSING, 1) && Replies(After(LOSING).value.out, 1) == 1
  {
    hide After, Replies;
    TwoCalls(LOSING);
    AfterStep(LOSING, 3);
    AfterStep(LOSING, 4);
    SecondDone(4);
    BothAnswered(LOSING, 5);
    TwoReplies(1);
    assert LOSING[3] == ReadCancel(LOSING[1].key) && !Finished(LOSING[..3], 1);
  }

  /** Reuse alone loses nothing. */
  lemma {:induction false} HarmlessRun(call: nat)
    requires Reads(HARMLESS, call)
    ensures !NoReuse(HARMLESS) && After(HARMLESS).Some? && After(HARMLESS).value.returned
    ensures !CancellationLost(HARMLESS, call) && Replies(After(HARMLESS).value.out, call) == 1
  {
    hide After, Replies;
    TwoCalls(HARMLESS);
    AfterStep(HARMLESS, 3);
    SecondDone(3);
    BothAnswered(HARMLESS, 4);
    TwoReplies(call);
    assert HARMLESS[1] == HARMLESS[0] && !Finished(HARMLESS[..1], 0);
  }
}
