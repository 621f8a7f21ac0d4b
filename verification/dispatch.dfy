/** The `/command` handler: decode a command, push it to the named device or,
    when the id is not registered, to every registry entry, and answer with a
    status.

    The foreign parts are parameters: the outcome of reading the body, the
    JSON decoder, the clock (one formatted timestamp per write, since the
    handler calls `time.Now()` for each one), the success of each write, and
    the order in which `range` visits the map. */
module Dispatch {
  import opened Wire
  import opened Registry

  /** The JSON command record; only `deviceId` is ever looked at. */
  datatype Command = Command(deviceId: Bytes, id: Bytes, kind: int, message: Bytes)

  /** The HTTP statuses the handler writes. */
  datatype Status = OK | NotFound

  function Code(s: Status): (c: int)
  {
    match s
    case OK => 200
    case NotFound => 404
  }

  /** Why the handler panicked. */
  datatype Abort = ReadBodyFailed | UnmarshalFailed

  /** A panic before any lookup, or the writes attempted (in order) and the
      `WriteHeader` calls made (in order). */
  datatype Reply = Panicked(cause: Abort) | Replied(writes: seq<Write>, headers: seq<Status>)

  /** `order` is one visiting order of `range clients`: every key exactly once. */
  ghost predicate IsEnumeration(order: seq<Bytes>, clients: Clients)
  {
    && (forall i, j :: 0 <= i < j < |order| ==> order[i] != order[j])
    && (forall k :: k in clients <==> k in order)
  }

  /** The connections written to, counted with multiplicity. */
  function Recipients(ws: seq<Write>): (m: multiset<ConnId>)
    ensures |m| == |ws|
  {
    multiset(seq(|ws|, i requires 0 <= i < |ws| => ws[i].conn))
  }

  /** The keys under which `conn` is registered. */
  ghost function KeysOf(clients: Clients, conn: ConnId): set<Bytes>
  {
    set k | k in clients && clients[k] == conn
  }

  /** One text write per visited entry, the `i`-th stamped with `now(i)`. */
  function Fanout(clients: Clients, order: seq<Bytes>, body: Bytes, now: nat -> Bytes): (ws: seq<Write>)
    requires forall i :: 0 <= i < |order| ==> order[i] in clients
    ensures |ws| == |order|
    ensures forall i :: 0 <= i < |ws| ==> ws[i].conn == clients[order[i]] && ws[i].mt == TextMessage
  {
    seq(|order|, i requires 0 <= i < |order| => Write(clients[order[i]], TextMessage, Payload(now(i), body)))
  }

  /** The `NotFound` headers written for the first `n` sends, one per failed send. */
  function FailureHeaders(n: nat, sendOk: nat -> bool): (r: seq<Status>)
    ensures forall j :: 0 <= j < |r| ==> r[j] == NotFound
    ensures |r| == |set i: nat | i < n && !sendOk(i)|
    ensures r != [] <==> exists i :: 0 <= i < n && !sendOk(i)
  {
    if n == 0 then
      assert (set i: nat | i < n && !sendOk(i)) == {};
      []
    else
      var failed := set i: nat | i < n - 1 && !sendOk(i);
      assert (set i: nat | i < n && !sendOk(i)) == failed + (if sendOk(n - 1) then {} else {n - 1});
      FailureHeaders(n - 1, sendOk) + (if sendOk(n - 1) then [] else [NotFound])
  }

  /** net/http keeps the first `WriteHeader`; later calls are ignored. */
  function EffectiveStatus(headers: seq<Status>): (st: Status)
    requires headers != []
    ensures st in headers
  {
    headers[0]
  }

  /** Headers written after the first one never change the status sent. */
  lemma FirstHeaderWins(headers: seq<Status>, later: seq<Status>)
    requires headers != []
    ensures EffectiveStatus(headers + later) == EffectiveStatus(headers)
  {
  }

  /** `commandHandler`. `body` is `None` when reading the request body failed. */
  function Handle(clients: Clients, body: Option<Bytes>, decode: Bytes -> Option<Command>,
                  now: nat -> Bytes, sendOk: nat -> bool, order: seq<Bytes>): (r: Reply)
    requires IsEnumeration(order, clients)
    ensures r.Panicked? <==> body.None? || decode(body.value).None?
    ensures body.None? ==> r == Panicked(ReadBodyFailed)
  {
    match body
    case None => Panicked(ReadBodyFailed)
    case Some(b) =>
      match decode(b)
      case None => Panicked(UnmarshalFailed)
      case Some(cmd) =>
        var writes :=
          if cmd.deviceId in clients then [Write(clients[cmd.deviceId], TextMessage, Payload(now(0), b))]
          else Fanout(clients, order, b, now);
        Replied(writes, FailureHeaders(|writes|, sendOk) + [OK])
  }

  /** A failed read of the body or a failed decode panics before the
      registry is consulted: nothing is written. */
  lemma AbortsBeforeLookup(clients: Clients, body: Option<Bytes>, decode: Bytes -> Option<Command>,
                           now: nat -> Bytes, sendOk: nat -> bool, order: seq<Bytes>)
    requires IsEnumeration(order, clients)
    requires body.None? || decode(body.value).None?
    ensures Handle(clients, body, decode, now, sendOk, order).Panicked?
    ensures body.Some? ==> Handle(clients, body, decode, now, sendOk, order) == Panicked(UnmarshalFailed)
  {
  }

  /** A registered device id, the empty one included, gets exactly one write,
      to its connection; no other connection receives anything. */
  lemma NamedRouting(clients: Clients, b: Bytes, decode: Bytes -> Option<Command>,
                     now: nat -> Bytes, sendOk: nat -> bool, order: seq<Bytes>)
    requires IsEnumeration(order, clients)
    requires decode(b).Some? && decode(b).value.deviceId in clients
    ensures var r := Handle(clients, Some(b), decode, now, sendOk, order);
      && r.Replied?
      && |r.writes| == 1
      && r.writes[0].conn == clients[decode(b).value.deviceId]
      && Recipients(r.writes) == multiset{clients[decode(b).value.deviceId]}
  {
  }

  lemma RecipientsSnoc(ws: seq<Write>, w: Write)
    ensures Recipients(ws + [w]) == Recipients(ws) + multiset{w.conn}
  {
    var ws' := ws + [w];
    assert seq(|ws'|, i requires 0 <= i < |ws'| => ws'[i].conn)
        == seq(|ws|, i requires 0 <= i < |ws| => ws[i].conn) + [w.conn];
  }

  lemma FanoutSnoc(clients: Clients, order: seq<Bytes>, body: Bytes, now: nat -> Bytes)
    requires order != []
    requires forall i :: 0 <= i < |order| ==> order[i] in clients
    ensures Fanout(clients, order, body, now)
         == Fanout(clients, order[..|order| - 1], body, now)
            + [Write(clients[order[|order| - 1]], TextMessage, Payload(now(|order| - 1), body))]
  {
  }

  lemma LastNotEarlier(s: seq<Bytes>)
    requires s != []
    requires forall i, j :: 0 <= i < j < |s| ==> s[i] != s[j]
    ensures s[|s| - 1] !in s[..|s| - 1]
  {
  }

  /** The keys of `order` under which `conn` is registered. */
  ghost function HoldersIn(clients: Clients, order: seq<Bytes>, conn: ConnId): set<Bytes>
  {
    set k | k in order && k in clients && clients[k] == conn
  }

  /** Visiting every key once, the visited holders of `conn` are all its keys. */
  lemma HoldersAreKeys(clients: Clients, order: seq<Bytes>, conn: ConnId)
    requires IsEnumeration(order, clients)
    ensures HoldersIn(clients, order, conn) == KeysOf(clients, conn)
  {
  }

  lemma HoldersSnoc(clients: Clients, order: seq<Bytes>, x: Bytes, conn: ConnId)
    requires x in clients && x !in order
    ensures |HoldersIn(clients, order + [x], conn)|
            == |HoldersIn(clients, order, conn)| + (if clients[x] == conn then 1 else 0)
  {
    assert HoldersIn(clients, order + [x], conn)
        == HoldersIn(clients, order, conn) + (if clients[x] == conn then {x} else {});
  }

  lemma {:induction false} FanoutCounts(clients: Clients, order: seq<Bytes>, body: Bytes, now: nat -> Bytes, conn: ConnId)
    requires forall i :: 0 <= i < |order| ==> order[i] in clients
    requires forall i, j :: 0 <= i < j < |order| ==> order[i] != order[j]
    ensures Recipients(Fanout(clients, order, body, now))[conn] == |HoldersIn(clients, order, conn)|
    decreases |order|
  {
    if order == [] {
      assert HoldersIn(clients, order, conn) == {};
    } else {
      var o := order[..|order| - 1];
      var x := order[|order| - 1];
      FanoutCounts(clients, o, body, now, conn);
      FanoutSnoc(clients, order, body, now);
      RecipientsSnoc(Fanout(clients, o, body, now), Write(clients[x], TextMessage, Payload(now(|o|), body)));
      LastNotEarlier(order);
      assert order == o + [x];
      HoldersSnoc(clients, o, x, conn);
    }
  }

  /** An unregistered device id falls back to one write per map entry: a
      connection stored under k keys receives k writes, an empty map none,
      and the total equals the number of entries whatever the order. */
  lemma BroadcastFallback(clients: Clients, b: Bytes, decode: Bytes -> Option<Command>,
                          now: nat -> Bytes, sendOk: nat -> bool, order: seq<Bytes>)
    requires IsEnumeration(order, clients)
    requires decode(b).Some? && decode(b).value.deviceId !in clients
    ensures var r := Handle(clients, Some(b), decode, now, sendOk, order);
      && r.Replied?
      && |r.writes| == |clients|
      && (forall conn :: Recipients(r.writes)[conn] == |KeysOf(clients, conn)|)
  {
    var r := Handle(clients, Some(b), decode, now, sendOk, order);
    assert r.writes == Fanout(clients, order, b, now);
    forall conn
      ensures Recipients(r.writes)[conn] == |KeysOf(clients, conn)|
    {
      FanoutCounts(clients, order, b, now, conn);
      HoldersAreKeys(clients, order, conn);
    }
    assert (set k | k in order) == clients.Keys;
    DistinctCard(order);
  }

  lemma {:induction false} DistinctCard(s: seq<Bytes>)
    requires forall i, j :: 0 <= i < j < |s| ==> s[i] != s[j]
    ensures |set k | k in s| == |s|
    decreases |s|
  {
    if s != [] {
      var o := s[..|s| - 1];
      DistinctCard(o);
      assert s == o + [s[|s| - 1]];
      assert (set k | k in s) == (set k | k in o) + {s[|s| - 1]};
      LastNotEarlier(s);
    }
  }

  /** Every write is a text message carrying "time now: ", its own
      timestamp, a line feed and the whole raw request body (not the
      command's `message` field), whichever way the command was routed. */
  lemma PayloadCarriesBody(clients: Clients, b: Bytes, decode: Bytes -> Option<Command>,
                           now: nat -> Bytes, sendOk: nat -> bool, order: seq<Bytes>)
    requires IsEnumeration(order, clients)
    ensures var r := Handle(clients, Some(b), decode, now, sendOk, order);
      r.Replied? ==> forall i :: 0 <= i < |r.writes| ==>
        r.writes[i].mt == TextMessage && r.writes[i].data == Payload(now(i), b)
  {
  }

  /** With a clock whose timestamps hold no line feed, as RFC 3339 times do
      not, a device recovers its timestamp and the raw request body from
      every pushed text. */
  lemma BodyRecoverable(clients: Clients, b: Bytes, decode: Bytes -> Option<Command>,
                        now: nat -> Bytes, sendOk: nat -> bool, order: seq<Bytes>)
    requires IsEnumeration(order, clients)
    requires forall i: nat :: NewLine !in now(i)
    ensures var r := Handle(clients, Some(b), decode, now, sendOk, order);
      r.Replied? ==> forall i :: 0 <= i < |r.writes| ==> ParsePayload(r.writes[i].data) == Some((now(i), b))
  {
    var r := Handle(clients, Some(b), decode, now, sendOk, order);
    PayloadCarriesBody(clients, b, decode, now, sendOk, order);
    if r.Replied? {
      forall i | 0 <= i < |r.writes|
        ensures ParsePayload(r.writes[i].data) == Some((now(i), b))
      {
        PayloadRoundTrip(now(i), b);
      }
    }
  }

  /** One 404 header per failed send, then 200; since the first header wins,
      the response is 404 exactly when some send failed, else 200. */
  lemma StatusReflectsFailures(clients: Clients, b: Bytes, decode: Bytes -> Option<Command>,
                               now: nat -> Bytes, sendOk: nat -> bool, order: seq<Bytes>)
    requires IsEnumeration(order, clients)
    requires decode(b).Some?
    ensures var r := Handle(clients, Some(b), decode, now, sendOk, order);
      && r.Replied?
      && r.headers[|r.headers| - 1] == OK
      && |r.headers| == |set i: nat | i < |r.writes| && !sendOk(i)| + 1
      && (Code(EffectiveStatus(r.headers)) == 404 <==> exists i :: 0 <= i < |r.writes| && !sendOk(i))
      && (Code(EffectiveStatus(r.headers)) == 200 <==> forall i :: 0 <= i < |r.writes| ==> sendOk(i))
  {
  }

  /** Two decodings that agree on the device id route identically: the id,
      kind and message fields never influence the handler. */
  lemma OnlyDeviceIdRoutes(clients: Clients, b: Bytes, decode1: Bytes -> Option<Command>,
                           decode2: Bytes -> Option<Command>,
                           now: nat -> Bytes, sendOk: nat -> bool, order: seq<Bytes>)
    requires IsEnumeration(order, clients)
    requires decode1(b).Some? && decode2(b).Some?
    requires decode1(b).value.deviceId == decode2(b).value.deviceId
    ensures Handle(clients, Some(b), decode1, now, sendOk, order)
         == Handle(clients, Some(b), decode2, now, sendOk, order)
  {
  }

  /** `for _, client := range clients`: visits the entries in an order of the
      runtime's choosing, one write per entry. */
  method RangeClients(clients: Clients, body: Bytes, now: nat -> Bytes) returns (order: seq<Bytes>, writes: seq<Write>)
    ensures IsEnumeration(order, clients)
    ensures writes == Fanout(clients, order, body, now)
    ensures forall conn :: Recipients(writes)[conn] == |KeysOf(clients, conn)|
  {
    order := [];
    writes := [];
    var left := clients.Keys;
    while left != {}
      invariant left <= clients.Keys
      invariant forall i :: 0 <= i < |order| ==> order[i] in clients && order[i] !in left
      invariant forall i, j :: 0 <= i < j < |order| ==> order[i] != order[j]
      invariant forall k :: k in clients <==> k in left || k in order
      invariant writes == Fanout(clients, order, body, now)
      decreases left
    {
      var k :| k in left;
      writes := writes + [Write(clients[k], TextMessage, Payload(now(|order|), body))];
      order := order + [k];
      left := left - {k};
    }
    forall conn
      ensures Recipients(writes)[conn] == |KeysOf(clients, conn)|
    {
      FanoutCounts(clients, order, body, now, conn);
      HoldersAreKeys(clients, order, conn);
    }
  }
}
