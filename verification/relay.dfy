/** The whole relay as a sequential state machine: the read loops of many
    connections take turns, one turn at a time, on the shared registry, and
    commands read whatever registry those turns have left. */
module Relay {
  import opened Wire
  import opened Registry
  import opened Dispatch

  /** The shared registry and the connections whose read loop has returned
      (the deferred `Close` has run; their entries stay behind). */
  datatype State = State(clients: Clients, ended: set<ConnId>)

  /** One turn of the read loop of `conn`. */
  datatype Event = Event(conn: ConnId, ev: Inbound)

  /** A loop that has returned reads nothing more, so its turns change nothing. */
  function Step(s: State, e: Event): (r: State)
    ensures e.conn in s.ended ==> r == s
    ensures s.clients.Keys <= r.clients.Keys
    ensures s.ended <= r.ended <= s.ended + {e.conn}
    ensures forall k :: k in s.clients && !(Rebinds(e, k) && e.conn !in s.ended) ==> r.clients[k] == s.clients[k]
    ensures e.conn !in s.ended && e.ev.Received? && e.ev.echoOk ==> e.ev.data in r.clients && r.clients[e.ev.data] == e.conn
    ensures e.conn !in s.ended ==> (e.conn in r.ended <==> !(e.ev.Received? && e.ev.echoOk))
    ensures !(e.conn !in s.ended && e.ev.Received? && e.ev.echoOk) ==> r.clients == s.clients
    ensures e.conn !in s.ended && e.ev.Received? && e.ev.echoOk ==> r.clients.Keys == s.clients.Keys + {e.ev.data}
  {
    if e.conn in s.ended then s
    else
      var t := EchoTurn(s.clients, e.conn, e.ev);
      State(t.clients, if t.continues then s.ended else s.ended + {e.conn})
  }

  /** The state after the turns `evs`, in order; keys and ended loops only
      ever accumulate. */
  function Run(s: State, evs: seq<Event>): (r: State)
    ensures s.clients.Keys <= r.clients.Keys
    ensures s.ended <= r.ended
    decreases |evs|
  {
    if evs == [] then s else Run(Step(s, evs[0]), evs[1..])
  }

  /** A turn that, if its loop is still running, binds `key`. */
  predicate Rebinds(e: Event, key: Bytes)
  {
    e.ev.Received? && e.ev.echoOk && e.ev.data == key
  }

  /** Turn `i` of `evs`, played from `s`, binds `key`: it would, and its
      loop has not returned by then. */
  ghost predicate LiveRebind(s: State, evs: seq<Event>, i: int, key: Bytes)
  {
    0 <= i < |evs| && Rebinds(evs[i], key) && evs[i].conn !in Run(s, evs[..i]).ended
  }

  lemma LiveRebindShift(s: State, evs: seq<Event>, i: nat, key: Bytes)
    requires 0 < |evs|
    ensures LiveRebind(Step(s, evs[0]), evs[1..], i, key) <==> LiveRebind(s, evs, i + 1, key)
  {
    if i < |evs| - 1 {
      assert evs[..i + 1] == [evs[0]] + evs[1..][..i];
      assert ([evs[0]] + evs[1..][..i])[1..] == evs[1..][..i];
    }
  }

  lemma {:induction false} RunAppend(s: State, a: seq<Event>, b: seq<Event>)
    ensures Run(s, a + b) == Run(Run(s, a), b)
    decreases |a|
  {
    if a == [] {
      assert a + b == b;
    } else {
      assert (a + b)[0] == a[0];
      assert (a + b)[1..] == a[1..] + b;
      RunAppend(Step(s, a[0]), a[1..], b);
    }
  }

  /** An entry that no later turn of a still-running loop rebinds keeps its
      connection, whether or not that connection's loop has ended. */
  lemma {:induction false} KeepsUnrebound(s: State, evs: seq<Event>, key: Bytes)
    requires key in s.clients
    requires forall i :: !LiveRebind(s, evs, i, key)
    ensures key in Run(s, evs).clients && Run(s, evs).clients[key] == s.clients[key]
    decreases |evs|
  {
    if evs != [] {
      assert evs[..0] == [];
      assert !LiveRebind(s, evs, 0, key);
      forall i | true
        ensures !LiveRebind(Step(s, evs[0]), evs[1..], i, key)
      {
        if 0 <= i {
          LiveRebindShift(s, evs, i, key);
        }
      }
      KeepsUnrebound(Step(s, evs[0]), evs[1..], key);
    }
  }

  /** The last successful binding of an id wins: a command for that id goes
      to exactly the connection that last bound it while its loop was
      running, and to nobody else. */
  lemma CommandReachesLatestBinder(s: State, before: seq<Event>, conn: ConnId, mt: MessageType,
                                   key: Bytes, after: seq<Event>,
                                   b: Bytes, decode: Bytes -> Option<Command>,
                                   now: nat -> Bytes, sendOk: nat -> bool, order: seq<Bytes>)
    requires conn !in Run(s, before).ended
    requires forall i :: !LiveRebind(Run(s, before + [Event(conn, Received(mt, key, true))]), after, i, key)
    requires decode(b).Some? && decode(b).value.deviceId == key
    requires IsEnumeration(order, Run(s, before + [Event(conn, Received(mt, key, true))] + after).clients)
    ensures var final := Run(s, before + [Event(conn, Received(mt, key, true))] + after);
      var r := Handle(final.clients, Some(b), decode, now, sendOk, order);
      && key in final.clients && final.clients[key] == conn
      && r.Replied? && |r.writes| == 1 && r.writes[0].conn == conn
  {
    var e := Event(conn, Received(mt, key, true));
    var mid := Run(s, before);
    RunAppend(s, before, [e]);
    RunAppend(s, before + [e], after);
    assert Run(mid, [e]) == Step(mid, e);
    KeepsUnrebound(Run(s, before + [e]), after, key);
    var final := Run(s, before + [e] + after);
    NamedRouting(final.clients, b, decode, now, sendOk, order);
  }

  /** Closing a connection evicts nothing: every broadcast still attempts
      one write to a connection whose read loop has returned, per id still
      registered to it, as long as some id it holds is not rebound. The
      socket was closed when the loop returned, so those writes fail. */
  lemma EndedConnectionStillBroadcastTo(s: State, evs: seq<Event>, key: Bytes,
                                        b: Bytes, decode: Bytes -> Option<Command>,
                                        now: nat -> Bytes, sendOk: nat -> bool, order: seq<Bytes>)
    requires key in s.clients && s.clients[key] in s.ended
    requires forall i :: !LiveRebind(s, evs, i, key)
    requires decode(b).Some? && decode(b).value.deviceId !in Run(s, evs).clients
    requires IsEnumeration(order, Run(s, evs).clients)
    ensures var final := Run(s, evs);
      var r := Handle(final.clients, Some(b), decode, now, sendOk, order);
      && s.clients[key] in final.ended
      && r.Replied?
      && Recipients(r.writes)[s.clients[key]] == |KeysOf(final.clients, s.clients[key])|
      && Recipients(r.writes)[s.clients[key]] >= 1
  {
    var final := Run(s, evs);
    KeepsUnrebound(s, evs, key);
    BroadcastFallback(final.clients, b, decode, now, sendOk, order);
    assert key in KeysOf(final.clients, s.clients[key]);
  }

  /** The visible cost of never evicting: when writes to closed sockets
      fail, a broadcast that still reaches a connection whose read loop has
      returned answers 404, even if every live device got its push. */
  lemma BroadcastToClosedAnswers404(s: State, evs: seq<Event>, key: Bytes,
                                    b: Bytes, decode: Bytes -> Option<Command>,
                                    now: nat -> Bytes, sendOk: nat -> bool, order: seq<Bytes>)
    requires key in s.clients && s.clients[key] in s.ended
    requires forall i :: !LiveRebind(s, evs, i, key)
    requires decode(b).Some? && decode(b).value.deviceId !in Run(s, evs).clients
    requires IsEnumeration(order, Run(s, evs).clients)
    requires forall i :: (0 <= i < |order| && order[i] in Run(s, evs).clients
                          && Run(s, evs).clients[order[i]] in Run(s, evs).ended) ==> !sendOk(i)
    ensures var r := Handle(Run(s, evs).clients, Some(b), decode, now, sendOk, order);
      r.Replied? && EffectiveStatus(r.headers) == NotFound && Code(EffectiveStatus(r.headers)) == 404
  {
    var final := Run(s, evs);
    KeepsUnrebound(s, evs, key);
    assert key in order;
    var i :| 0 <= i < |order| && order[i] == key;
    assert !sendOk(i);
    StatusReflectsFailures(final.clients, b, decode, now, sendOk, order);
  }

  /** The turns of a single connection played through the relay leave the
      registry exactly as that connection's own read loop does. */
  lemma {:induction false} SingleLoopAgrees(clients: Clients, ended: set<ConnId>, conn: ConnId, evs: seq<Inbound>)
    requires conn !in ended
    ensures var s := Run(State(clients, ended), seq(|evs|, i requires 0 <= i < |evs| => Event(conn, evs[i])));
      var loop := Serve(clients, conn, evs);
      s.clients == loop.clients && (conn in s.ended <==> !loop.open)
    decreases |evs|
  {
    var trace := seq(|evs|, i requires 0 <= i < |evs| => Event(conn, evs[i]));
    if evs != [] {
      var t := EchoTurn(clients, conn, evs[0]);
      var rest := seq(|evs| - 1, i requires 0 <= i < |evs| - 1 => Event(conn, evs[1..][i]));
      assert trace[1..] == rest;
      var next := Step(State(clients, ended), trace[0]);
      if t.continues {
        SingleLoopAgrees(t.clients, ended, conn, evs[1..]);
      } else {
        assert next.ended == ended + {conn};
        StaysEnded(next, rest, conn);
      }
    }
  }

  lemma {:induction false} StaysEnded(s: State, evs: seq<Event>, conn: ConnId)
    requires conn in s.ended
    requires forall i :: 0 <= i < |evs| ==> evs[i].conn == conn
    ensures Run(s, evs) == s
    decreases |evs|
  {
    if evs != [] {
      StaysEnded(Step(s, evs[0]), evs[1..], conn);
    }
  }
}
