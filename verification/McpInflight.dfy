/** The inflight table behind its mutex.  Each locked section of the session
    performs one step of the abstract session. */
module McpInflight {

  import opened McpSession
  class InflightCall {
    var canceled: bool

    constructor ()
      ensures !canceled
    {
      canceled := false;
    }
  }

  class InflightTable {
    var inflight: map<string, InflightCall>

    /** The table and the call objects hold what the abstract session says; every
        call has its own object. */
    ghost predicate Represents(s: Session, objects: map<nat, InflightCall>)
      reads this, objects.Values
    {
      && objects.Keys == s.calls.Keys
      && (forall a, b :: a in objects && b in objects && objects[a] == objects[b] ==> a == b)
      && (forall c :: c in objects ==> objects[c].canceled == s.calls[c].canceled)
      && inflight.Keys == s.inflight.Keys
      && (forall key :: key in inflight ==> s.inflight[key] in objects && inflight[key] == objects[s.inflight[key]])
    }

    constructor ()
      ensures Represents(INITIAL, map[])
    {
      inflight := map[];
    }

    /** The reader registers a call before its goroutine starts. */
    method Register(key: string, ghost s: Session, ghost objects: map<nat, InflightCall>, ghost now: nat)
      returns (call: InflightCall)
      requires Represents(s, objects) && now !in s.calls && s.reading
      modifies this
      ensures fresh(call)
      ensures Represents(Next(s, ReadCall(key), now).value, objects[now := call])
    {
      call := new InflightCall();
      inflight := inflight[key := call];
    }

    /** notifications/cancelled marks the call it finds. */
    method HandleCancelled(key: string, ghost s: Session, ghost objects: map<nat, InflightCall>, ghost now: nat)
      requires Represents(s, objects) && s.reading
      modifies if key in inflight then {inflight[key]} else {}
      ensures Represents(Next(s, ReadCancel(key), now).value, objects)
      ensures inflight == old(inflight)
    {
      if key in inflight {
        inflight[key].canceled := true;
      }
    }

    /** A finishing goroutine reads its own flag and drops its id. */
    method Complete(
      key: string, call: InflightCall, ghost s: Session, ghost objects: map<nat, InflightCall>, ghost c: nat)
      returns (canceled: bool)
      requires Represents(s, objects) && c in objects && objects[c] == call && s.calls[c].key == key
      requires s.calls[c].phase.Running?
      modifies this
      ensures canceled == s.calls[c].canceled
      ensures Represents(Next(s, Finish(c), 0).value, objects)
    {
      canceled := call.canceled;
      inflight := inflight - {key};
    }
  }
}
