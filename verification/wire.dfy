/** Bytes, connections and the text frames the relay writes.

    Go's `string` and `[]byte` are both plain byte sequences, and the
    conversions `string(message)` and `[]byte(s)` copy the bytes unchanged, so
    the model uses one type, `Bytes`, for both. */
module Wire {

  datatype Option<+T> = None | Some(value: T)

  newtype byte = x: int | 0 <= x < 256

  type Bytes = seq<byte>

  /** A WebSocket connection; the model only ever compares them. */
  type ConnId = nat

  /** The WebSocket message type passed to and returned by the connection. */
  type MessageType = int

  /** gorilla/websocket's `TextMessage`. */
  const TextMessage: MessageType := 1

  /** One attempted `WriteMessage(mt, data)` call on connection `conn`. */
  datatype Write = Write(conn: ConnId, mt: MessageType, data: Bytes)

  /** ASCII line feed. */
  const NewLine: byte := 10

  /** The ASCII bytes of "time now: ". */
  const TimeNowPrefix: Bytes := [116, 105, 109, 101, 32, 110, 111, 119, 58, 32]

  /** The text pushed to a device: "time now: " + timestamp + "\n" + raw command body. */
  function Payload(ts: Bytes, body: Bytes): (p: Bytes)
    ensures |p| == |TimeNowPrefix| + |ts| + 1 + |body|
    ensures p[..|TimeNowPrefix|] == TimeNowPrefix
    ensures p[|TimeNowPrefix|..|TimeNowPrefix| + |ts|] == ts
    ensures p[|TimeNowPrefix| + |ts|] == NewLine
    ensures p[|p| - |body|..] == body
  {
    TimeNowPrefix + ts + [NewLine] + body
  }

  /** Position of the first occurrence of `b` in `s`, if any. */
  function Find(s: Bytes, b: byte): (r: Option<nat>)
    ensures r.Some? ==> r.value < |s| && s[r.value] == b
    ensures r.Some? ==> forall j :: 0 <= j < r.value ==> s[j] != b
    ensures r.None? <==> b !in s
  {
    if s == [] then None
    else if s[0] == b then Some(0)
    else match Find(s[1..], b)
      case None => None
      case Some(i) => Some(i + 1)
  }

  /** What a receiving device can recover from a pushed text: the timestamp
      and the raw command body, split at the first line feed after the prefix. */
  function ParsePayload(p: Bytes): (r: Option<(Bytes, Bytes)>)
    ensures r.Some? ==> NewLine !in r.value.0 && p == Payload(r.value.0, r.value.1)
    ensures |p| < |TimeNowPrefix| || p[..|TimeNowPrefix|] != TimeNowPrefix ==> r.None?
  {
    var n := |TimeNowPrefix|;
    if |p| < n || p[..n] != TimeNowPrefix then None
    else
      var rest := p[n..];
      match Find(rest, NewLine)
      case None => None
      case Some(i) =>
        assert rest[..i] + [NewLine] + rest[i + 1..] == rest;
        assert p == TimeNowPrefix + rest;
        Some((rest[..i], rest[i + 1..]))
  }

  /** A timestamp without line feeds (an RFC 3339 time has none) and the whole
      body come back out of the pushed text unchanged. */
  lemma PayloadRoundTrip(ts: Bytes, body: Bytes)
    requires NewLine !in ts
    ensures ParsePayload(Payload(ts, body)) == Some((ts, body))
  {
  }
}
