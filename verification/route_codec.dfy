/** The routed frame codec, server half (internal/terminal/protocol.go) and
    browser half (apps/web/src/utils/ws.ts). */
module RouteCodec {
  import opened Common

  const ROUTE_SESSION_ID_LEN := 16
  const ROUTE_HEADER_LEN := 19
  const MAX_ROUTE_PAYLOAD := 65535

  const OUTPUT: byte := 0x31

  datatype CodecError = BadSessionId | PayloadTooLong | FrameTooShort | LengthMismatch

  datatype Routed = Routed(sid: seq<byte>, typ: byte, payload: seq<byte>)

  // What the browser reads off a frame: an index past the end reads as undefined.
  datatype BrowserRouted = BrowserRouted(sid: seq<byte>, typ: Option<byte>, payload: seq<byte>)

  /** A session-level frame: the type byte, then the payload. */
  function Frame(typ: byte, payload: seq<byte>): seq<byte> {
    [typ] + payload
  }

  method EncodeFrame(msgType: byte, payload: seq<byte>) returns (frame: seq<byte>)
    ensures frame == Frame(msgType, payload)
  {
    var buf := new byte[1 + |payload|];
    buf[0] := msgType;
    forall i | 0 <= i < |payload| {
      buf[1 + i] := payload[i];
    }
    frame := buf[..];
  }

  function HighByte(n: nat): byte {
    n / 256 % 256
  }

  function LowByte(n: nat): byte {
    n % 256
  }

  function LengthField(high: byte, low: byte): nat {
    (high as int) * 256 + low as int
  }

  function RouteFrame(sid: seq<byte>, typ: byte, payload: seq<byte>): Result<seq<byte>, CodecError> {
    if |sid| != ROUTE_SESSION_ID_LEN then Err(BadSessionId)
    else if |payload| > MAX_ROUTE_PAYLOAD then Err(PayloadTooLong)
    else Ok(sid + [typ, HighByte(|payload|), LowByte(|payload|)] + payload)
  }

  method EncodeRouteFrame(sid: seq<byte>, typ: byte, payload: seq<byte>)
    returns (r: Result<seq<byte>, CodecError>)
    ensures r == RouteFrame(sid, typ, payload)
  {
    if |sid| != ROUTE_SESSION_ID_LEN {
      return Err(BadSessionId);
    }
    if |payload| > MAX_ROUTE_PAYLOAD {
      return Err(PayloadTooLong);
    }
    var frame := new byte[ROUTE_HEADER_LEN + |payload|];
    forall i | 0 <= i < ROUTE_SESSION_ID_LEN {
      frame[i] := sid[i];
    }
    frame[ROUTE_SESSION_ID_LEN] := typ;
    frame[ROUTE_SESSION_ID_LEN + 1] := HighByte(|payload|);
    frame[ROUTE_SESSION_ID_LEN + 2] := LowByte(|payload|);
    forall i | 0 <= i < |payload| {
      frame[ROUTE_HEADER_LEN + i] := payload[i];
    }
    assert frame[..] == sid + [typ, HighByte(|payload|), LowByte(|payload|)] + payload;
    r := Ok(frame[..]);
  }

  function DecodeRouteFrame(frame: seq<byte>): Result<Routed, CodecError> {
    if |frame| < ROUTE_HEADER_LEN then Err(FrameTooShort)
    else
      var declared := LengthField(frame[ROUTE_SESSION_ID_LEN + 1], frame[ROUTE_SESSION_ID_LEN + 2]);
      var payload := frame[ROUTE_HEADER_LEN..];
      if |payload| != declared then Err(LengthMismatch)
      else Ok(Routed(frame[..ROUTE_SESSION_ID_LEN], frame[ROUTE_SESSION_ID_LEN], payload))
  }

  /** A session id fitted to the header field: cut at 16 bytes, zero-filled when short. */
  function FitSessionId(sid: seq<byte>): (r: seq<byte>)
    ensures |r| == ROUTE_SESSION_ID_LEN
  {
    if |sid| >= ROUTE_SESSION_ID_LEN then sid[..ROUTE_SESSION_ID_LEN]
    else sid + seq(ROUTE_SESSION_ID_LEN - |sid|, _ => 0)
  }

  /** The browser encoder checks no length: the header simply keeps the low 16 bits of it. */
  function BrowserEncode(sid: seq<byte>, typ: byte, body: seq<byte>): seq<byte> {
    FitSessionId(sid) + [typ, HighByte(|body|), LowByte(|body|)] + body
  }

  method BrowserEncodeRoute(sid: seq<byte>, typ: byte, body: seq<byte>) returns (frame: seq<byte>)
    ensures frame == BrowserEncode(sid, typ, body)
  {
    var sidBuf := new byte[ROUTE_SESSION_ID_LEN](_ => 0);
    forall i | 0 <= i < Min(ROUTE_SESSION_ID_LEN, |sid|) {
      sidBuf[i] := sid[i];
    }
    assert sidBuf[..] == FitSessionId(sid);
    var buf := new byte[ROUTE_HEADER_LEN + |body|];
    forall i | 0 <= i < ROUTE_SESSION_ID_LEN {
      buf[i] := sidBuf[i];
    }
    buf[ROUTE_SESSION_ID_LEN] := typ;
    buf[ROUTE_SESSION_ID_LEN + 1] := HighByte(|body|);
    buf[ROUTE_SESSION_ID_LEN + 2] := LowByte(|body|);
    forall i | 0 <= i < |body| {
      buf[ROUTE_HEADER_LEN + i] := body[i];
    }
    assert buf[..] == FitSessionId(sid) + [typ, HighByte(|body|), LowByte(|body|)] + body;
    frame := buf[..];
  }

  function ByteOrZero(data: seq<byte>, i: nat): byte {
    if i < |data| then data[i] else 0
  }

  function BrowserDecode(data: seq<byte>): BrowserRouted {
    var sid := data[..Min(ROUTE_SESSION_ID_LEN, |data|)];
    var typ := if ROUTE_SESSION_ID_LEN < |data| then Some(data[ROUTE_SESSION_ID_LEN]) else None;
    var len := LengthField(ByteOrZero(data, ROUTE_SESSION_ID_LEN + 1), ByteOrZero(data, ROUTE_SESSION_ID_LEN + 2));
    var from := Min(ROUTE_HEADER_LEN, |data|);
    BrowserRouted(sid, typ, data[from..Min(ROUTE_HEADER_LEN + len, |data|)])
  }

  /** Where the parts of a frame are. */
  lemma FrameParts(sid: seq<byte>, typ: byte, high: byte, low: byte, payload: seq<byte>)
    requires |sid| == ROUTE_SESSION_ID_LEN
    ensures var f := sid + [typ, high, low] + payload;
            && |f| == 19 + |payload| && f[..16] == sid && f[16] == typ && f[17] == high && f[18] == low
            && f[19..] == payload && f[19..|f|] == payload
  {
  }

  /** The length field holds the low 16 bits of a length. */
  lemma LengthFieldOf(n: nat)
    ensures LengthField(HighByte(n), LowByte(n)) == n % 65536
  {
    var q := n / 256;
    assert n == 256 * q + n % 256;
    assert q == 256 * (q / 256) + q % 256;
    Low16(n, q / 256, 256 * (q % 256) + n % 256);
  }

  lemma Low16(n: nat, k: nat, r: nat)
    requires n == 65536 * k + r && r < 65536
    ensures n % 65536 == r
  {
  }

  /** What the server encodes, both the server and the browser decode to the same message;
      and it encodes exactly the 16-byte ids with payloads that fit the length field. */
  lemma RouteRoundTrip(sid: seq<byte>, typ: byte, payload: seq<byte>)
    ensures RouteFrame(sid, typ, payload).Ok? <==> |sid| == ROUTE_SESSION_ID_LEN && |payload| <= MAX_ROUTE_PAYLOAD
    ensures RouteFrame(sid, typ, payload).Ok? ==>
              var frame := RouteFrame(sid, typ, payload).value;
              && DecodeRouteFrame(frame) == Ok(Routed(sid, typ, payload))
              && BrowserDecode(frame) == BrowserRouted(sid, Some(typ), payload)
  {
    hide HighByte, LowByte, LengthField;
    if RouteFrame(sid, typ, payload).Ok? {
      LengthFieldOf(|payload|);
      FrameParts(sid, typ, HighByte(|payload|), LowByte(|payload|), payload);
    }
  }

  /** Decoding accepts only frames the encoder produces. */
  lemma RouteDecodeInverse(frame: seq<byte>)
    requires DecodeRouteFrame(frame).Ok?
    ensures var m := DecodeRouteFrame(frame).value;
            RouteFrame(m.sid, m.typ, m.payload) == Ok(frame)
  {
    var m := DecodeRouteFrame(frame).value;
    assert |m.payload| == LengthField(frame[17], frame[18]);
    assert HighByte(|m.payload|) == frame[17] && LowByte(|m.payload|) == frame[18];
    assert frame == m.sid + [m.typ, frame[17], frame[18]] + m.payload;
  }

  /** A browser frame is accepted by the server exactly when its body fits the length field. */
  lemma BrowserToServer(sid: seq<byte>, typ: byte, body: seq<byte>)
    ensures DecodeRouteFrame(BrowserEncode(sid, typ, body)).Ok? <==> |body| <= MAX_ROUTE_PAYLOAD
    ensures |body| <= MAX_ROUTE_PAYLOAD ==>
              DecodeRouteFrame(BrowserEncode(sid, typ, body)) == Ok(Routed(FitSessionId(sid), typ, body))
  {
    hide HighByte, LowByte, LengthField, FitSessionId;
    LengthFieldOf(|body|);
    FrameParts(FitSessionId(sid), typ, HighByte(|body|), LowByte(|body|), body);
  }

  /** The bytes of a routed frame: 16 of the session id, the type, the payload's length with the high byte first,
      and the payload, of at most 65535 bytes. The browser writes the same, with the low 16 bits of any
      length. */
  lemma FrameLayout(sid: seq<byte>, typ: byte, payload: seq<byte>)
    requires |sid| == 16
    ensures |payload| <= 65535 ==>
              RouteFrame(sid, typ, payload) == Ok(sid + [typ, |payload| / 256, |payload| % 256] + payload)
    ensures |payload| > 65535 ==> RouteFrame(sid, typ, payload) == Err(PayloadTooLong)
    ensures BrowserEncode(sid, typ, payload) == sid + [typ, |payload| / 256 % 256, |payload| % 256] + payload
    ensures Frame(typ, payload) == [typ] + payload
  {
  }

  /** An id of 16 bytes is kept, a longer one is cut there, and a shorter one is filled up with zeros. */
  lemma FittedId(sid: seq<byte>)
    ensures |sid| != 16 ==> forall typ, payload :: RouteFrame(sid, typ, payload) == Err(BadSessionId)
    ensures var r := FitSessionId(sid);
            |r| == 16 && forall i :: 0 <= i < 16 ==> r[i] == if i < |sid| then sid[i] else 0
  {
  }

  /** The browser reads as many bytes of payload as the header says, or as there are, and ignores the rest. */
  lemma BrowserReads(data: seq<byte>)
    requires |data| >= 19
    ensures var len := 256 * (data[17] as int) + data[18] as int;
            BrowserDecode(data) == BrowserRouted(data[..16], Some(data[16]), data[19..if 19 + len <= |data| then 19 + len else |data|])
  {
  }
}
