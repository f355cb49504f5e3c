/** Connect envelopes: one flag byte, a 32-bit big-endian payload length and the
    payload. */
module ConnectFrames {

  import opened Results

  type byte = n: int | 0 <= n < 256

  type Bytes = seq<byte>

  const HEADER := 5

  const MAX_PAYLOAD := 0xFFFF_FFFF

  const CONTROL_MAX := 0x10_0000

  const END_STREAM: byte := 2

  predicate EndFlag(flags: byte) {
    flags / 2 % 2 == 1
  }

  function SizeBytes(n: nat): (r: Bytes)
    requires n <= MAX_PAYLOAD
    ensures |r| == 4
  {
    [n / 0x100_0000, n / 0x1_0000 % 256, n / 256 % 256, n % 256]
  }

  function Word(a: int, b: int, c: int, d: int): int {
    ((a * 256 + b) * 256 + c) * 256 + d
  }

  /** The payload length a header announces. */
  function PayloadSize(data: Bytes): nat
    requires |data| >= HEADER
  {
    Word(data[1], data[2], data[3], data[4])
  }

  function Envelope(flags: byte, payload: Bytes): (r: Bytes)
    requires |payload| <= MAX_PAYLOAD
    ensures |r| == HEADER + |payload|
  {
    [flags] + SizeBytes(|payload|) + payload
  }

  lemma {:induction false} SizeRoundTrip(n: nat)
    requires n <= MAX_PAYLOAD
    ensures var b := SizeBytes(n); Word(b[0], b[1], b[2], b[3]) == n
  {
    var q := n / 256;
    var r := q / 256;
    assert n == q * 256 + n % 256;
    assert q == r * 256 + q % 256;
    assert r == r / 256 * 256 + r % 256;
    NestedQuotient(n);
  }

  lemma {:induction false} NestedQuotient(n: nat)
    ensures n / 0x1_0000 == n / 256 / 256 && n / 0x100_0000 == n / 256 / 256 / 256
  {
  }

  lemma {:induction false} EnvelopeReads(flags: byte, payload: Bytes, rest: Bytes)
    requires |payload| <= MAX_PAYLOAD
    ensures var data := Envelope(flags, payload) + rest;
            && |data| >= HEADER && PayloadSize(data) == |payload| && data[0] == flags
            && data[HEADER..HEADER + |payload|] == payload && data[HEADER + |payload|..] == rest
            && data[..HEADER + |payload|] == Envelope(flags, payload)
  {
    SizeRoundTrip(|payload|);
    var b := SizeBytes(|payload|);
    var data := Envelope(flags, payload) + rest;
    assert data[1] == b[0] && data[2] == b[1] && data[3] == b[2] && data[4] == b[3];
  }

  /** A frame is one complete envelope. */
  predicate Frame(data: Bytes) {
    |data| >= HEADER && |data| == HEADER + PayloadSize(data)
  }

  lemma {:induction false} EnvelopeIsFrame(flags: byte, payload: Bytes)
    requires |payload| <= MAX_PAYLOAD
    ensures Frame(Envelope(flags, payload)) && Envelope(flags, payload)[0] == flags
    ensures PayloadSize(Envelope(flags, payload)) == |payload|
  {
    EnvelopeReads(flags, payload, []);
    assert Envelope(flags, payload) + [] == Envelope(flags, payload);
  }

  // ----- reading one request envelope -----

  /** readConnectEnvelope: the body must be exactly one plain envelope. */
  function ReadEnvelope(body: Bytes, maxSize: int): Result<Bytes> {
    if |body| < HEADER then Err
    else if body[0] != 0 then Err
    else if maxSize > 0 && PayloadSize(body) > maxSize then Err
    else if |body| != HEADER + PayloadSize(body) then Err
    else Ok(body[HEADER..])
  }

  /** What was framed is read back, and nothing else is accepted. */
  lemma {:induction false} ReadEnvelopeIff(body: Bytes, maxSize: int, payload: Bytes)
    ensures ReadEnvelope(body, maxSize) == Ok(payload) <==>
              |payload| <= MAX_PAYLOAD && (maxSize > 0 ==> |payload| <= maxSize) && body == Envelope(0, payload)
  {
    if |payload| <= MAX_PAYLOAD && body == Envelope(0, payload) {
      EnvelopeReads(0, payload, []);
      assert Envelope(0, payload) + [] == body;
      assert body[HEADER..HEADER + |payload|] == body[HEADER..];
    }
    if ReadEnvelope(body, maxSize) == Ok(payload) {
      FrameIsEnvelope(body);
    }
  }

  lemma {:induction false} FrameIsEnvelope(data: Bytes)
    requires Frame(data)
    ensures |data[HEADER..]| <= MAX_PAYLOAD && data == Envelope(data[0], data[HEADER..])
  {
    var size := PayloadSize(data);
    SizeIsHeader(data);
    assert data == [data[0]] + data[1..HEADER] + data[HEADER..];
  }

  lemma {:induction false} SizeIsHeader(data: Bytes)
    requires |data| >= HEADER
    ensures PayloadSize(data) <= MAX_PAYLOAD && SizeBytes(PayloadSize(data)) == data[1..HEADER]
  {
    var a: int, b: int, c: int, d: int := data[1], data[2], data[3], data[4];
    var n := PayloadSize(data);
    Base256((a * 256 + b) * 256 + c, d);
    Base256(a * 256 + b, c);
    Base256(a, b);
    assert n / 256 == (a * 256 + b) * 256 + c;
    assert n / 0x1_0000 == n / 256 / 256;
    assert n / 0x100_0000 == n / 256 / 256 / 256;
  }

  lemma {:induction false} Base256(a: nat, b: byte)
    ensures (a * 256 + b) / 256 == a && (a * 256 + b) % 256 == b
  {
  }
}
