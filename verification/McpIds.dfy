/** JSON-RPC ids as map keys. */
module McpIds {

  import opened Decimals
  import opened Results

  const MAX_SAFE_INTEGER := 0x1F_FFFF_FFFF_FFFF

  /** What the session reads as an id: a JSON string, a JSON integer, or anything
      else.  The JSON text itself is not modelled. */
  datatype RawId = StringId(s: string) | IntegerId(n: int) | OtherId

  function IdKey(id: RawId): Option<string> {
    match id
    case StringId(s) => Some("string:" + s)
    case IntegerId(n) => if -MAX_SAFE_INTEGER <= n <= MAX_SAFE_INTEGER then Some("integer:" + Signed(n)) else None
    case OtherId => None
  }

  /** Different ids never share a key, in particular not 7 and "7". */
  lemma {:induction false} KeysAreInjective(a: RawId, b: RawId)
    requires IdKey(a).Some? && IdKey(a) == IdKey(b)
    ensures a == b
  {
    var key := IdKey(a).value;
    assert key[0] == 's' <==> a.StringId?;
    assert key[0] == 's' <==> b.StringId?;
    if a.StringId? {
      assert key[|"string:"|..] == a.s && key[|"string:"|..] == b.s;
    } else {
      assert key[|"integer:"|..] == Signed(a.n) && key[|"integer:"|..] == Signed(b.n);
      SignedInjective(a.n, b.n);
    }
  }
}
