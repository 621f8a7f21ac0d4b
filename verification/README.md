# WebSocket command relay: registry and dispatcher

A Dafny model of the core of `ws-golang`, a small relay. Devices open a
WebSocket on `/echo`. Every message a device sends is echoed back. If the echo
succeeds, the message's bytes become a device id bound to that connection in
the global `clients` map. A `POST /command` carries a JSON command. If the
command's `device_id` is a key of `clients`, the handler pushes one text message
to that connection. Otherwise it pushes one text message per map entry. Each
pushed text is `"time now: " + timestamp + "\n" + raw request body`. The handler
writes status 404 for every failed push and then 200.

The model is functional. The registry is an immutable `map<Bytes, ConnId>`.
Each step is a pure function returning the new map, the writes attempted and
the status headers. Everything the Go code gets from a library or the outside
world is a parameter of the model:

- the outcome of `ReadMessage` and of the echoing `WriteMessage`: an `Inbound`
  value per turn of the read loop;
- the outcome of reading the request body: an `Option`;
- `json.Unmarshal`: an opaque function `Bytes -> Option<Command>`;
- the RFC 3339 clock: a function from write number to timestamp bytes (the
  handler calls `time.Now()` once per write);
- the success of each push: a function from write number to `bool`;
- the order of `range clients`: a sequence that lists every key exactly once.

Modules:

- `Wire`: bytes, connections, attempted writes, the push framing `Payload`, and
  its inverse `ParsePayload`.
- `Registry`: `Bind`, one turn of the echo loop (`EchoTurn`), and a whole loop
  (`Serve`).
- `Dispatch`: the `command` record and the handler `Handle`. Also `Fanout`,
  which is the broadcast for a given visiting order, and `RangeClients`, which
  is the `range` loop choosing its own order.
- `Relay`: many read loops taking turns on the shared map, and commands reading
  the map those turns leave behind.

Some behaviour one might expect of such a relay is absent from the code, and the model follows the code:

- A bound empty device id is routed by name, like any other key. It does not
  fall back to broadcast.
- Closed connections are never evicted.
- A failed decode panics.
- No partial-failure result is returned. The status is whatever the first
  `WriteHeader` call set.

## Model

| member | source | states |
|---|---|---|
| Registry.Bind | main.go:47 | the key now maps to the connection; every other key keeps its connection, so one connection can sit under many keys, and rebinding a key overwrites it |
| Registry.EchoTurn | main.go:35-47 | a read error ends the loop with no write; a received message is echoed to the same connection with the same type and bytes; the map changes only when that echo succeeds, and then only at the message's key |
| Registry.Serve | main.go:32-48 | the read loop never removes a key, not even when it ends; it attempts at most one echo per turn |
| Registry.ServeBindings | main.go:34-48 | after the loop, each message from a completed turn is bound to this connection, and every other entry is exactly as before |
| Registry.ServeEchoes | main.go:34-46 | echoes follow the received turns in order with their type and bytes; the loop stops at the first read error or failed echo; it is still running only if every turn completed |
| Wire.Payload | main.go:77 | the pushed text is "time now: ", then the timestamp, then one line feed, then the whole body, which ends the text; the length is the sum of the parts |
| Wire.ParsePayload | main.go:77 | a text accepted by the parser is exactly a framing of its timestamp and body, and the timestamp has no line feed |
| Wire.PayloadRoundTrip | main.go:84 | a timestamp with no line feed, followed by any body, comes back out of the framed text unchanged |
| Dispatch.Handle | main.go:62-74 | the handler panics exactly when reading the body or decoding it fails |
| Dispatch.AbortsBeforeLookup | main.go:63-74 | a failed body read or decode panics with the matching cause, before any lookup or write |
| Dispatch.NamedRouting | main.go:76-81 | a registered device id, the empty id included, gets exactly one write; it goes to that id's connection and no other connection receives anything |
| Dispatch.Fanout | main.go:83-84 | the broadcast for a visiting order makes one text write per visited key, and the i-th write goes to the connection stored under the i-th key; its per-connection counts are proved in FanoutCounts |
| Dispatch.FanoutCounts | main.go:83-84 | in a broadcast over distinct keys, a connection gets as many writes as the keys that map to it |
| Dispatch.BroadcastFallback | main.go:82-89 | an unregistered device id gets one write per map entry, whatever the order; a connection under k keys gets k writes; an empty map gets none |
| Dispatch.RangeClients | main.go:83-89 | the `range` loop visits every key exactly once, in an order it picks itself; its writes are the broadcast for that order; each connection gets one write per key it holds |
| Dispatch.PayloadCarriesBody | main.go:77-84 | for any clock, every write is a text message (type 1) carrying "time now: ", its own timestamp, "\n" and the whole raw request body, whether routed by name or broadcast |
| Dispatch.BodyRecoverable | main.go:77-84 | when no timestamp holds a line feed, as with RFC 3339 times, a device recovers its timestamp and the raw request body from every pushed text |
| Dispatch.FailureHeaders | main.go:78-88 | there is one 404 header per failed send and no other header; the list is non-empty exactly when some send failed |
| Dispatch.EffectiveStatus | main.go:80-92 | under net/http's rule that the first `WriteHeader` wins, the status sent is one of the headers written; how it depends on failed sends is proved in StatusReflectsFailures |
| Dispatch.FirstHeaderWins | main.go:87-92 | `WriteHeader` calls made after the first one (the closing 200 included) never change the status sent |
| Dispatch.StatusReflectsFailures | main.go:78-92 | the last header written is 200; the header count is the failure count plus one; since the first header wins, the status is 404 exactly when some send failed, and 200 otherwise |
| Dispatch.OnlyDeviceIdRoutes | main.go:55-76 | two decodings that agree on `device_id` give identical results: the id, kind and message fields never affect routing |
| Relay.Step | main.go:32-47 | a turn of a loop that has returned changes nothing; otherwise only that turn's connection can end, and the map is unchanged unless a message was received and echoed successfully, in which case the key set grows by exactly the received key, that key points at the turn's connection and every other key keeps its connection; agreement with the single-connection loop is proved in SingleLoopAgrees |
| Relay.Run | main.go:24-48 | under any interleaving of read loops, keys are never removed and a loop that has ended stays ended |
| Relay.KeepsUnrebound | main.go:32-47 | an entry that no later turn of a still-running loop rebinds keeps its connection, even if that connection's loop has ended |
| Relay.CommandReachesLatestBinder | main.go:47-81 | after a running connection successfully echoes an id, and no later turn of a running loop rebinds that id, a command for the id goes only to that connection |
| Relay.EndedConnectionStillBroadcastTo | main.go:32-89 | a connection whose read loop has returned stays ended, yet every broadcast still attempts one write to it per id still registered to it, so at least one while some id it holds is not rebound; on the closed socket those writes fail |
| Relay.BroadcastToClosedAnswers404 | main.go:32-92 | when writes to closed sockets fail, a broadcast that still targets a connection whose loop has returned answers 404, whatever happened to the live devices |
| Relay.SingleLoopAgrees | main.go:34-48 | running one connection's turns through the shared state machine gives the same map as that connection's own loop, and the loop counts as ended exactly when it stopped |

## Left out

- HTTP server setup, gorilla/mux routing, command-line flags, signal handling and graceful shutdown (main.go:95-141) are process plumbing.
- The HTML page and `uuidv4` (main.go:143-229) are user interface.
- The WebSocket upgrade (main.go:27-31) is left out. A failed upgrade creates no state, so it has no effect on the registry.
- The internals of `ReadMessage`/`WriteMessage` are left out. Their outcomes are inputs of the model.
- JSON decoding and RFC 3339 formatting are library calls. They are opaque parameters.
- Logging (`log.Printf`) has no effect on state and is left out.
- Relay.EndedConnectionStillBroadcastTo: the send oracle is not tied to the ended connections, so the model also admits runs where a write to a closed socket succeeds. Only Relay.BroadcastToClosedAnswers404 assumes that such writes fail.
- Dispatch.Handle: after a panic, what happens to the process or the connection is up to net/http, so the model stops at `Panicked`.
- Concurrency is left out. The Go map is shared between goroutines with no lock, which is a data race. The model runs every turn and every command atomically, one after another.
- The `Kind` field is a Go `int`. It is unbounded here, which makes no difference because it is never read.
