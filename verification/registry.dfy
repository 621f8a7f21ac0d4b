/** The `clients` registry and the read loop of one WebSocket connection.

    The registry maps a device id to the connection that last sent it as a
    message. Each turn of a connection's read loop echoes the received message
    back and, only if that echo succeeded, binds the message's bytes to the
    connection. Nothing ever removes an entry. */
module Registry {
  import opened Wire

  /** The global `clients` map: device id to connection. */
  type Clients = map<Bytes, ConnId>

  /** `clients[key] = conn`: insert or overwrite one key, touching no other,
      not even older keys that name the same connection. */
  function Bind(clients: Clients, key: Bytes, conn: ConnId): (r: Clients)
    ensures r.Keys == clients.Keys + {key}
    ensures r[key] == conn
    ensures forall k :: k in clients && k != key ==> r[k] == clients[k]
  {
    clients[key := conn]
  }

  /** What one turn of the read loop observes: `ReadMessage` failed, or it
      returned a message of type `mt`, and echoing it back succeeded or not. */
  datatype Inbound = ReadError | Received(mt: MessageType, data: Bytes, echoOk: bool)

  /** The registry after one turn, the echo attempted in it, and whether the
      loop goes on. */
  datatype Turn = Turn(clients: Clients, echo: Option<Write>, continues: bool)

  /** One iteration of the read loop of connection `conn`. */
  function EchoTurn(clients: Clients, conn: ConnId, ev: Inbound): (t: Turn)
    ensures t.echo.Some? <==> ev.Received?
    ensures ev.Received? ==> t.echo.value == Write(conn, ev.mt, ev.data)
    ensures t.continues <==> ev.Received? && ev.echoOk
    ensures !t.continues ==> t.clients == clients
    ensures t.continues ==> t.clients.Keys == clients.Keys + {ev.data} && t.clients[ev.data] == conn
    ensures forall k :: k in clients && (!t.continues || k != ev.data) ==> k in t.clients && t.clients[k] == clients[k]
  {
    match ev
    case ReadError => Turn(clients, None, false)
    case Received(mt, data, ok) =>
      Turn(if ok then Bind(clients, data, conn) else clients, Some(Write(conn, mt, data)), ok)
  }

  /** The registry after a run of the loop, the echoes it attempted, and
      whether the loop is still running once the observed turns are used up. */
  datatype Session = Session(clients: Clients, echoes: seq<Write>, open: bool)

  /** The read loop of `conn` over the turns `evs`, stopping at the first read
      error or failed echo. */
  function Serve(clients: Clients, conn: ConnId, evs: seq<Inbound>): (s: Session)
    ensures clients.Keys <= s.clients.Keys
    ensures |s.echoes| <= |evs|
    decreases |evs|
  {
    if evs == [] then Session(clients, [], true)
    else
      var t := EchoTurn(clients, conn, evs[0]);
      var echoed := if t.echo.Some? then [t.echo.value] else [];
      if !t.continues then Session(t.clients, echoed, false)
      else
        var rest := Serve(t.clients, conn, evs[1..]);
        Session(rest.clients, echoed + rest.echoes, rest.open)
  }

  /** Turn `i` read a message and echoed it successfully. */
  ghost predicate Echoed(evs: seq<Inbound>, i: int)
  {
    0 <= i < |evs| && evs[i].Received? && evs[i].echoOk
  }

  /** The first `n` turns all completed, so the loop reaches turn `n`. */
  ghost predicate Survives(evs: seq<Inbound>, n: int)
  {
    forall j :: 0 <= j < n ==> Echoed(evs, j)
  }

  /** The ids the loop binds: the messages of every completed turn. */
  ghost function BoundKeys(evs: seq<Inbound>): set<Bytes>
  {
    set i | 0 <= i < |evs| && Survives(evs, i + 1) && evs[i].Received? :: evs[i].data
  }

  lemma SurvivesShift(evs: seq<Inbound>, n: nat)
    requires Echoed(evs, 0)
    ensures Survives(evs, n + 1) <==> Survives(evs[1..], n)
  {
    if Survives(evs[1..], n) {
      forall j | 0 <= j < n + 1
        ensures Echoed(evs, j)
      {
        if j > 0 {
          assert Echoed(evs[1..], j - 1);
        }
      }
    }
    if Survives(evs, n + 1) {
      forall j | 0 <= j < n
        ensures Echoed(evs[1..], j)
      {
        assert Echoed(evs, j + 1);
      }
    }
  }

  lemma BoundKeysShift(evs: seq<Inbound>)
    requires Echoed(evs, 0)
    ensures BoundKeys(evs) == {evs[0].data} + BoundKeys(evs[1..])
  {
    var rest := evs[1..];
    forall k | k in BoundKeys(evs)
      ensures k in {evs[0].data} + BoundKeys(rest)
    {
      var i :| 0 <= i < |evs| && Survives(evs, i + 1) && evs[i].Received? && evs[i].data == k;
      if i > 0 {
        SurvivesShift(evs, i - 1 + 1);
        assert rest[i - 1] == evs[i];
      }
    }
    forall k | k in BoundKeys(rest)
      ensures k in BoundKeys(evs)
    {
      var i :| 0 <= i < |rest| && Survives(rest, i + 1) && rest[i].Received? && rest[i].data == k;
      SurvivesShift(evs, i + 1);
      assert evs[i + 1] == rest[i];
    }
    assert Survives(evs, 1);
  }

  /** The loop leaves every id it did not bind as it was and binds every
      message of a completed turn to `conn`: nothing is ever evicted, a
      rebound id points at `conn` from then on, and one connection may sit
      under many ids. */
  lemma {:induction false} ServeBindings(clients: Clients, conn: ConnId, evs: seq<Inbound>)
    ensures Serve(clients, conn, evs).clients == clients + map k | k in BoundKeys(evs) :: conn
    decreases |evs|
  {
    if evs == [] {
      assert BoundKeys(evs) == {};
    } else {
      var t := EchoTurn(clients, conn, evs[0]);
      if !t.continues {
        assert !Echoed(evs, 0);
        assert BoundKeys(evs) == {};
      } else {
        ServeBindings(t.clients, conn, evs[1..]);
        BoundKeysShift(evs);
        var d := evs[0].data;
        var lhs := Serve(clients, conn, evs).clients;
        var rhs := clients + map k | k in BoundKeys(evs) :: conn;
        assert lhs.Keys == rhs.Keys;
        forall k | k in lhs
          ensures lhs[k] == rhs[k]
        {
          if k != d && k !in BoundKeys(evs[1..]) {
            assert k !in BoundKeys(evs);
          }
        }
      }
    }
  }

  /** The loop echoes the turns it reads in order, each with the type and the
      bytes it received, and stops at the first turn whose read or echo
      failed; it is still open exactly when every observed turn completed. */
  lemma {:induction false} ServeEchoes(clients: Clients, conn: ConnId, evs: seq<Inbound>)
    ensures var s := Serve(clients, conn, evs);
      && (forall i :: 0 <= i < |s.echoes| ==> evs[i].Received? && s.echoes[i] == Write(conn, evs[i].mt, evs[i].data))
      && (s.open <==> Survives(evs, |evs|))
      && (s.open ==> |s.echoes| == |evs|)
      && (!s.open ==> exists m :: 0 <= m < |evs| && Survives(evs, m) && !Echoed(evs, m)
                                  && |s.echoes| == (if evs[m].Received? then m + 1 else m))
    decreases |evs|
  {
    var s := Serve(clients, conn, evs);
    if evs == [] {
    } else {
      var t := EchoTurn(clients, conn, evs[0]);
      if !t.continues {
        assert !Echoed(evs, 0);
        assert Survives(evs, 0);
        assert !Survives(evs, |evs|);
      } else {
        var rest := evs[1..];
        var r := Serve(t.clients, conn, rest);
        ServeEchoes(t.clients, conn, rest);
        assert s.echoes == [Write(conn, evs[0].mt, evs[0].data)] + r.echoes;
        forall i | 0 <= i < |s.echoes|
          ensures evs[i].Received? && s.echoes[i] == Write(conn, evs[i].mt, evs[i].data)
        {
          if i > 0 {
            assert evs[i] == rest[i - 1];
          }
        }
        SurvivesShift(evs, |rest|);
        if !s.open {
          var m :| 0 <= m < |rest| && Survives(rest, m) && !Echoed(rest, m)
                   && |r.echoes| == (if rest[m].Received? then m + 1 else m);
          SurvivesShift(evs, m);
          assert evs[m + 1] == rest[m];
          assert !Echoed(evs, m + 1);
        }
      }
    }
  }
}
