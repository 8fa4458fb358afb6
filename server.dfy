/** The relay's server state and its three event handlers: the `/new-user`
    registration, the per-connection `message` handler, and the roster push
    on a new connection. Each handler runs to completion on the event loop,
    so each method below is one atomic transition of the server. */
module Relay {
  import opened Wrappers
  import opened Roster
  import opened Broadcast

  /** The text of both registration errors: the empty-body 400 reuses the
      409's message. */
  const NameTakenMessage: string := "This name is already taken!"

  /** A parsed registration body: its `name` field, if present, and how many
      other keys it has. */
  datatype Body = Body(name: Name, otherKeys: nat) {
    /** `Object.keys(body).length` */
    function KeyCount(): nat {
      otherKeys + if name.Some? then 1 else 0
    }
  }

  /** The JSON the registration answers with: `{status: "ok", user}` or
      `{status: "error", message}`. */
  datatype ReplyBody = Created(user: Participant) | Failed(message: string) {
    function Status(): string {
      if Created? then "ok" else "error"
    }
  }

  /** An HTTP status code and the reply body. */
  datatype Reply = Reply(code: nat, body: ReplyBody)

  /** An inbound channel frame once parsed, told apart by its `type`: an
      `exit` carries `user.name`; a `send` is relayed as the raw bytes it
      arrived as; any other type is ignored. */
  datatype Frame = ExitFrame(userName: Name) | SendFrame | OtherFrame

  class Server {
    /** `userState`: the roster, in insertion order. */
    var roster: seq<Participant>
    /** `wsServer.clients`, in connection order. */
    var clients: seq<Client>

    /** The roster invariant: no two entries share a name or an id. */
    ghost predicate Valid()
      reads this
    {
      UniqueNames(roster) && UniqueIds(roster)
    }

    /** The server at start-up: an empty roster and no connections. */
    constructor ()
      ensures Valid() && roster == [] && clients == []
    {
      roster := [];
      clients := [];
    }

    /** POST /new-user. A body without keys is refused with 400; a name that
        some entry already carries is refused with 409; otherwise a
        participant with the server-chosen `freshId` is appended and
        returned with 200. Nothing is broadcast. */
    method Register(body: Body, freshId: string) returns (reply: Reply)
      requires Valid()
      requires forall i :: 0 <= i < |roster| ==> roster[i].id != freshId
      modifies this`roster
      ensures Valid()
      ensures body.KeyCount() == 0 ==>
        reply == Reply(400, Failed(NameTakenMessage)) && roster == old(roster)
      ensures body.KeyCount() != 0 && HasName(old(roster), body.name) ==>
        reply == Reply(409, Failed(NameTakenMessage)) && roster == old(roster)
      ensures body.KeyCount() != 0 && !HasName(old(roster), body.name) ==>
        reply == Reply(200, Created(Participant(freshId, body.name))) &&
        roster == old(roster) + [Participant(freshId, body.name)]
      ensures reply.code == 200 <==> reply.body.Status() == "ok"
    {
      if body.KeyCount() == 0 {
        reply := Reply(400, Failed(NameTakenMessage));
        return;
      }
      var existing := Find(roster, body.name);
      if existing.None? {
        var user := Participant(freshId, body.name);
        AppendKeepsUnique(roster, user);
        roster := roster + [user];
        reply := Reply(200, Created(user));
      } else {
        reply := Reply(409, Failed(NameTakenMessage));
      }
    }

    /** Sends `m` to every client whose socket is OPEN, skipping the rest. */
    method Broadcast(m: Outgoing)
      modifies this`clients
      ensures clients == DeliverAll(old(clients), m)
    {
      var i := 0;
      while i < |clients|
        invariant i <= |clients| == |old(clients)|
        invariant forall j :: 0 <= j < i ==> clients[j] == DeliverTo(old(clients)[j], m)
        invariant forall j :: i <= j < |clients| ==> clients[j] == old(clients)[j]
      {
        if clients[i].open {
          clients := clients[i := clients[i].(outbox := clients[i].outbox + [m])];
        }
        i := i + 1;
      }
      forall j | 0 <= j < |clients| ensures clients[j] == DeliverAll(old(clients), m)[j] {
        DeliverAllAt(old(clients), m, j);
      }
    }

    /** The `message` handler. An `exit` removes the first entry with the
        user's name and pushes the new roster to every OPEN client; a `send`
        relays the frame's own bytes, with its binary flag, to every OPEN
        client and leaves the roster alone; any other type does nothing. */
    method HandleFrame(frame: Frame, raw: Bytes, isBinary: bool)
      requires Valid()
      modifies this
      ensures Valid()
      ensures frame.ExitFrame? ==>
        && roster == RemoveFirst(old(roster), frame.userName)
        && !HasName(roster, frame.userName)
        && clients == DeliverAll(old(clients), Snapshot(roster))
      ensures frame.SendFrame? ==>
        roster == old(roster) && clients == DeliverAll(old(clients), Relayed(raw, isBinary))
      ensures frame.OtherFrame? ==> roster == old(roster) && clients == old(clients)
    {
      match frame
      case ExitFrame(name) =>
        ExitIsRemoveFirst(roster, name);
        ExitKeepsUnique(roster, name);
        ExitRemovesName(roster, name);
        var idx := FindIndex(roster, name);
        if idx != -1 {
          roster := roster[..idx] + roster[idx + 1..];
        }
        Broadcast(Snapshot(roster));
      case SendFrame =>
        Broadcast(Relayed(raw, isBinary));
      case OtherFrame =>
    }

    /** The `connection` handler: the new socket, already OPEN, joins the
        clients and the current roster is pushed to every OPEN client,
        itself included. Returns the new client's position. */
    method Connect() returns (id: nat)
      modifies this`clients
      ensures id == |old(clients)| && |clients| == id + 1
      ensures clients == DeliverAll(old(clients) + [Client(true, [])], Snapshot(roster))
      ensures clients[id] == Client(true, [Snapshot(roster)])
    {
      id := |clients|;
      clients := clients + [Client(true, [])];
      Broadcast(Snapshot(roster));
      DeliverAllAt(old(clients) + [Client(true, [])], Snapshot(roster), id);
    }

    /** The transport closing client `i`: its `readyState` leaves OPEN and
        later broadcasts skip it. The roster is not touched, so a participant
        that never sent `exit` stays listed. */
    method Close(i: nat)
      requires i < |clients|
      modifies this`clients
      ensures clients == old(clients)[i := Client(false, old(clients)[i].outbox)]
    {
      clients := clients[i := clients[i].(open := false)];
    }
  }

  /** Two participants register; a repeated name and an empty body are
      refused on the way. */
  method Session(aliceId: string, bobId: string)
    returns (s: Server, ok: Reply, taken: Reply, empty: Reply, bob: Reply)
    requires aliceId != bobId
    ensures ok == Reply(200, Created(Participant(aliceId, Some("alice"))))
    ensures taken == Reply(409, Failed(NameTakenMessage))
    ensures empty == Reply(400, Failed(NameTakenMessage))
    ensures bob == Reply(200, Created(Participant(bobId, Some("bob"))))
    ensures s.Valid() && s.clients == []
    ensures s.roster == [Participant(aliceId, Some("alice")), Participant(bobId, Some("bob"))]
  {
    s := new Server();
    ok := s.Register(Body(Some("alice"), 0), aliceId);
    assert HasName(s.roster, Some("alice")) by {
      assert s.roster[0].name == Some("alice");
    }
    taken := s.Register(Body(Some("alice"), 0), bobId);
    empty := s.Register(Body(None, 0), bobId);
    bob := s.Register(Body(Some("bob"), 0), bobId);
  }

  /** Both participants connect and the first one chats: each connection
      pushes the roster to everyone connected so far, and the chat frame
      reaches both. */
  method Chat(s: Server, hi: Bytes)
    requires s.Valid() && s.clients == []
    modifies s
    ensures s.Valid() && s.roster == old(s.roster)
    ensures s.clients == [
      Client(true, [Snapshot(s.roster), Snapshot(s.roster), Relayed(hi, false)]),
      Client(true, [Snapshot(s.roster), Relayed(hi, false)])]
  {
    var everyone := s.roster;
    var first := Client(true, [Snapshot(everyone)]);
    var a := s.Connect();
    assert s.clients == [first];
    var b := s.Connect();
    DeliverAllAt([first, Client(true, [])], Snapshot(everyone), 0);
    assert [first] + [Client(true, [])] == [first, Client(true, [])];
    var joined := [Client(true, [Snapshot(everyone), Snapshot(everyone)]), first];
    assert s.roster == everyone && a == 0 && b == 1;
    assert s.clients == DeliverAll([first, Client(true, [])], Snapshot(everyone));
    assert s.clients[0] == joined[0];
    assert s.clients[1] == joined[1];
    assert s.clients == joined;
    s.HandleFrame(SendFrame, hi, false);
    DeliverAllAt(joined, Relayed(hi, false), 0);
    DeliverAllAt(joined, Relayed(hi, false), 1);
    assert s.clients[0] == Client(true, [Snapshot(everyone), Snapshot(everyone), Relayed(hi, false)]);
    assert s.clients[1] == Client(true, [Snapshot(everyone), Relayed(hi, false)]);
  }

  /** The second participant's socket closes without an `exit`; then the
      first participant exits. Only the still-open first client receives
      the new roster, which lists the second participant alone. */
  method Leave(s: Server)
    requires s.Valid() && |s.clients| == 2 && |s.roster| == 2
    requires s.roster[0].name == Some("alice") && s.roster[1].name == Some("bob")
    requires s.clients[0].open
    modifies s
    ensures s.roster == [old(s.roster)[1]] && |s.clients| == 2
    ensures s.clients[0].outbox == old(s.clients)[0].outbox + [Snapshot(s.roster)]
    ensures s.clients[1] == Client(false, old(s.clients)[1].outbox)
  {
    s.Close(1);
    ghost var closed := s.clients;
    s.HandleFrame(ExitFrame(Some("alice")), [], false);
    DeliveredOnceToEachOpen(closed, Snapshot(s.roster), 0);
    DeliveredOnceToEachOpen(closed, Snapshot(s.roster), 1);
  }

  /** Registration checks only that the body has some key: a body whose
      only key is not `name` registers a participant without a name, a
      second such body is refused as a duplicate, and an empty string is
      an ordinary name. */
  method NamelessRegistration(id1: string, id2: string, id3: string)
    returns (first: Reply, second: Reply, blank: Reply)
    requires id1 != id2 && id1 != id3 && id2 != id3
    ensures first == Reply(200, Created(Participant(id1, None)))
    ensures second == Reply(409, Failed(NameTakenMessage))
    ensures blank == Reply(200, Created(Participant(id3, Some(""))))
  {
    var s := new Server();
    first := s.Register(Body(None, 1), id1);
    assert HasName(s.roster, None) by {
      assert s.roster[0].name == None;
    }
    second := s.Register(Body(None, 2), id2);
    assert !HasName(s.roster, Some("")) by {
      assert s.roster == [Participant(id1, None)];
    }
    blank := s.Register(Body(Some(""), 0), id3);
  }
}
